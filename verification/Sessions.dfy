/** The server's sessions: a map of live sockets by session id, and a list of closed sockets
    that wait to be destroyed. Each handler call is one step. */
module Sessions {
  import opened Bytes

  /** A socket object; `serial` tells objects apart, `id` is the session id it carries. */
  datatype Session = Session(serial: nat, id: u32)

  /** `destroyed` lists the destroyed sockets in the order of their destruction. */
  datatype State = State(live: map<u32, Session>, disposal: seq<Session>, destroyed: seq<Session>)

  datatype Event = Accept(session: Session) | Closed(id: u32) | Process | CloseAll | Shutdown

  const Empty := State(map[], [], [])

  // ---------- Steps ----------

  predicate IsLeast(live: map<u32, Session>, id: u32) {
    id in live && forall k | k in live :: id <= k
  }

  lemma {:induction false} HasLeast(live: map<u32, Session>)
    requires live != map[]
    ensures exists id :: IsLeast(live, id)
    decreases |live|
  {
    var id :| id in live;
    var rest := live - {id};
    if rest == map[] {
      assert IsLeast(live, id) by { assert forall k | k in live :: k == id || k in rest; }
    } else {
      HasLeast(rest);
      var least :| IsLeast(rest, least);
      assert forall k | k in live :: k == id || k in rest;
      assert IsLeast(live, if least < id then least else id);
    }
  }

  ghost function LeastId(live: map<u32, Session>): (id: u32)
    requires live != map[]
    ensures IsLeast(live, id)
  {
    HasLeast(live);
    var id :| IsLeast(live, id);
    id
  }

  /** The live sockets by increasing session id, the order of the map's iterators. */
  ghost function Ascending(live: map<u32, Session>): seq<Session>
    decreases |live|
  {
    if live == map[] then [] else
    var id := LeastId(live);
    [live[id]] + Ascending(live - {id})
  }

  /** A socket accepted under an id in use replaces, and so destroys, the one that was there. */
  function OnAccept(s: State, session: Session): State {
    State(s.live[session.id := session], s.disposal,
          if session.id in s.live then s.destroyed + [s.live[session.id]] else s.destroyed)
  }

  function OnClosed(s: State, id: u32): State {
    if id in s.live then State(s.live - {id}, s.disposal + [s.live[id]], s.destroyed) else s
  }

  function Processed(s: State): State {
    State(s.live, [], s.destroyed + s.disposal)
  }

  ghost function AllClosed(s: State): State {
    State(map[], s.disposal + Ascending(s.live), s.destroyed)
  }

  ghost function Step(s: State, e: Event): State {
    match e
    case Accept(session) => OnAccept(s, session)
    case Closed(id) => OnClosed(s, id)
    case Process => Processed(s)
    case CloseAll => AllClosed(s)
    case Shutdown => Processed(AllClosed(s))
  }

  // ---------- The handlers ----------

  class SocketTable {
    var socketMap: map<u32, Session>
    var socketDisposal: seq<Session>
    ghost var destroyed: seq<Session>

    ghost function View(): State
      reads this
    {
      State(socketMap, socketDisposal, destroyed)
    }

    constructor ()
      ensures View() == Empty
    {
      socketMap, socketDisposal, destroyed := map[], [], [];
    }

    method OnAcceptConn(socket: Session)
      modifies this
      ensures View() == Step(old(View()), Accept(socket))
    {
      if socket.id in socketMap {
        destroyed := destroyed + [socketMap[socket.id]];
      }
      socketMap := socketMap[socket.id := socket];
    }

    method OnSocketClosed(sessionID: u32)
      modifies this
      ensures View() == Step(old(View()), Closed(sessionID))
    {
      if sessionID in socketMap {
        socketDisposal := socketDisposal + [socketMap[sessionID]];
        socketMap := socketMap - {sessionID};
      }
    }

    method ProcessClosedSockets()
      modifies this
      ensures View() == Step(old(View()), Process)
    {
      var it := 0;
      while it != |socketDisposal|
        invariant it <= |socketDisposal|
        invariant socketMap == old(socketMap) && socketDisposal == old(socketDisposal)
        invariant destroyed == old(destroyed) + socketDisposal[..it]
      {
        destroyed := destroyed + [socketDisposal[it]];
        it := it + 1;
      }
      socketDisposal := [];
    }

    /** Each turn erases the entry the iterator is at, which is always the first. */
    method CloseAllSockets()
      modifies this
      ensures View() == Step(old(View()), CloseAll)
    {
      ghost var goal := AllClosed(View());
      while socketMap != map[]
        invariant AllClosed(View()) == goal && destroyed == old(destroyed)
        decreases |socketMap|
      {
        HasLeast(socketMap);
        var it :| IsLeast(socketMap, it);
        assert it == LeastId(socketMap);
        assert Ascending(socketMap) == [socketMap[it]] + Ascending(socketMap - {it});
        assert socketDisposal + ([socketMap[it]] + Ascending(socketMap - {it}))
                == (socketDisposal + [socketMap[it]]) + Ascending(socketMap - {it});
        socketDisposal := socketDisposal + [socketMap[it]];
        socketMap := socketMap - {it};
      }
    }

    /** Shutdown as far as sockets go. */
    method ShutdownSockets()
      modifies this
      ensures View() == Step(old(View()), Shutdown)
    {
      CloseAllSockets();
      ProcessClosedSockets();
    }
  }

  // ---------- Conservation ----------

  ghost function After(events: seq<Event>): State {
    if events == [] then Empty else Step(After(events[..|events| - 1]), events[|events| - 1])
  }

  function Accepted(events: seq<Event>): set<Session> {
    set e | e in events && e.Accept? :: e.session
  }

  /** Every accepted socket is an object of its own. */
  predicate DistinctAccepts(events: seq<Event>) {
    forall i, j | 0 <= i < j < |events| && events[i].Accept? && events[j].Accept? ::
      events[i].session != events[j].session
  }

  predicate IsLive(s: State, x: Session) { x.id in s.live && s.live[x.id] == x }

  /** How often a socket is found: live, waiting for disposal, or destroyed. */
  function Count(s: State, x: Session): nat {
    (if IsLive(s, x) then 1 else 0) + multiset(s.disposal)[x] + multiset(s.destroyed)[x]
  }

  predicate Filed(live: map<u32, Session>) {
    forall k | k in live :: live[k].id == k
  }

  ghost predicate Conserved(s: State, accepted: set<Session>) {
    Filed(s.live) && forall x: Session :: Count(s, x) == if x in accepted then 1 else 0
  }

  lemma {:induction false} AscendingCount(live: map<u32, Session>, x: Session)
    requires Filed(live)
    ensures multiset(Ascending(live))[x] == if x.id in live && live[x.id] == x then 1 else 0
    decreases |live|
  {
    if live != map[] {
      var id := LeastId(live);
      AscendingCount(live - {id}, x);
    }
  }

  lemma {:induction false} AscendingIsSorted(live: map<u32, Session>)
    requires Filed(live)
    ensures forall i, j | 0 <= i < j < |Ascending(live)| :: Ascending(live)[i].id < Ascending(live)[j].id
    decreases |live|
  {
    if live != map[] {
      var id := LeastId(live);
      var rest := Ascending(live - {id});
      AscendingIsSorted(live - {id});
      forall x | x in rest
        ensures id < x.id
      {
        AscendingCount(live - {id}, x);
      }
      assert forall j | 0 <= j < |rest| :: rest[j] in rest;
    }
  }

  lemma AcceptCounts(s: State, session: Session, x: Session)
    requires Filed(s.live) && Count(s, session) == 0
    ensures Filed(OnAccept(s, session).live)
    ensures Count(OnAccept(s, session), x) == Count(s, x) + if x == session then 1 else 0
  {
    if session.id in s.live {
      AppendedCount(s.destroyed, s.live[session.id], x);
    }
  }

  lemma ClosedCounts(s: State, id: u32, x: Session)
    requires Filed(s.live)
    ensures Filed(OnClosed(s, id).live) && Count(OnClosed(s, id), x) == Count(s, x)
  {
    if id in s.live {
      AppendedCount(s.disposal, s.live[id], x);
    }
  }

  lemma AppendedCount(list: seq<Session>, y: Session, x: Session)
    ensures multiset(list + [y])[x] == multiset(list)[x] + if x == y then 1 else 0
  {
  }

  /** What one step does to the count of every socket: only an accept adds one. */
  lemma StepCounts(s: State, e: Event, x: Session)
    requires Filed(s.live) && (e.Accept? ==> Count(s, e.session) == 0)
    ensures Filed(Step(s, e).live)
    ensures Count(Step(s, e), x) == Count(s, x) + if e.Accept? && e.session == x then 1 else 0
  {
    hide OnAccept, OnClosed;
    match e
    case Accept(session) => AcceptCounts(s, session, x);
    case Closed(id) => ClosedCounts(s, id, x);
    case Process =>
    case CloseAll => AscendingCount(s.live, x);
    case Shutdown => AscendingCount(s.live, x);
  }

  lemma {:induction false} Conservation(events: seq<Event>)
    requires DistinctAccepts(events)
    ensures Conserved(After(events), Accepted(events))
  {
    if events != [] {
      var init, e := events[..|events| - 1], events[|events| - 1];
      Conservation(init);
      AcceptedStep(events);
      forall x: Session
        ensures Filed(After(events).live) && Count(After(events), x) == if x in Accepted(events) then 1 else 0
      {
        StepCounts(After(init), e, x);
      }
    }
  }

  lemma AcceptedStep(events: seq<Event>)
    requires DistinctAccepts(events) && events != []
    ensures var init, e := events[..|events| - 1], events[|events| - 1];
            && Accepted(events) == Accepted(init) + (if e.Accept? then {e.session} else {})
            && (e.Accept? ==> e.session !in Accepted(init))
  {
    var init, e := events[..|events| - 1], events[|events| - 1];
    assert events == init + [e];
  }

  lemma CountOfDestroyed(s: State, x: Session)
    requires s.live == map[] && s.disposal == []
    ensures Count(s, x) == multiset(s.destroyed)[x]
  {
  }

  /** Shutdown empties map and list, and destroys what was left in them exactly once. */
  lemma ShutdownDestroysAll(events: seq<Event>)
    requires DistinctAccepts(events)
    ensures var before, after := After(events), After(events + [Shutdown]);
            && after.live == map[] && after.disposal == []
            && after.destroyed == before.destroyed + before.disposal + Ascending(before.live)
            && forall x: Session :: multiset(after.destroyed)[x] == if x in Accepted(events) then 1 else 0
  {
    hide Ascending, Accepted, Filed, Count;
    var all := events + [Shutdown];
    assert all[..|all| - 1] == events;
    Conservation(all);
    AcceptedStep(all);
    forall x: Session
      ensures multiset(After(all).destroyed)[x] == if x in Accepted(events) then 1 else 0
    {
      assert Count(After(all), x) == if x in Accepted(events) then 1 else 0;
      CountOfDestroyed(After(all), x);
    }
  }

  /** After Shutdown, notices and clean-ups change nothing until a socket is accepted. */
  lemma {:induction false} NothingAfterShutdown(s: State, later: seq<Event>)
    requires s.live == map[] && s.disposal == [] && forall e | e in later :: !e.Accept?
    ensures Steps(s, later) == s
  {
    if later != [] {
      var e := later[0];
      assert e in later;
      assert s.disposal + [] == [] && s.destroyed + [] == s.destroyed;
      NothingAfterShutdown(s, later[1..]);
    }
  }

  ghost function Steps(s: State, later: seq<Event>): State
    decreases |later|
  {
    if later == [] then s else Steps(Step(s, later[0]), later[1..])
  }

  /** A close notice moves the socket that is live under its id to the end of the list, and
      leaves every other socket where it is. */
  lemma NoticeMovesOne(s: State, id: u32)
    requires id in s.live
    ensures var s' := Step(s, Closed(id));
            && s'.disposal == s.disposal + [s.live[id]] && s'.destroyed == s.destroyed && id !in s'.live
            && forall k: u32 | k != id :: (k in s'.live <==> k in s.live) && (k in s.live ==> s'.live[k] == s.live[k])
  {
  }

  /** An accepted socket is live under its id; every other live socket stays live, and the list
      stays as it is. */
  lemma AcceptAddsOne(s: State, session: Session)
    ensures var s' := Step(s, Accept(session));
            && session.id in s'.live && s'.live[session.id] == session && s'.disposal == s.disposal
            && forall k: u32 | k != session.id ::
                 (k in s'.live <==> k in s.live) && (k in s.live ==> s'.live[k] == s.live[k])
    ensures var s' := Step(s, Accept(session));
            s'.destroyed == s.destroyed + (if session.id in s.live then [s.live[session.id]] else [])
  {
  }

  /** Clean-up destroys the list, first come first, and no live socket. */
  lemma CleanUpLeavesLive(s: State)
    ensures var s' := Step(s, Process);
            s'.live == s.live && s'.disposal == [] && s'.destroyed == s.destroyed + s.disposal
  {
  }

  /** A live socket leaves the map only by a notice for its id, by an accept
      under its id, by CloseAll or by Shutdown. */
  lemma LeavesMapOnlyBy(s: State, e: Event, k: u32)
    requires k in s.live && !(k in Step(s, e).live && Step(s, e).live[k] == s.live[k])
    ensures e == Closed(k) || (e.Accept? && e.session.id == k) || e == CloseAll || e == Shutdown
  {
  }

  /** A notice that arrives before its accept, or a second time, changes nothing. */
  lemma StrayNotice(s: State, id: u32)
    ensures id !in s.live ==> Step(s, Closed(id)) == s
    ensures Step(Step(s, Closed(id)), Closed(id)) == Step(s, Closed(id))
  {
  }

  /** An accept destroys a live socket if and only if its id is in use. */
  lemma AcceptDestroysIff(s: State, session: Session)
    ensures Step(s, Accept(session)).destroyed != s.destroyed <==> session.id in s.live
  {
  }
}
