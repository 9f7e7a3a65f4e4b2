/** Client calls carried as bytes: built, framed, parsed, handled, answered, and the answer
    parsed. Whole histories of calls must agree with a plain map. */
module EndToEnd {
  import opened Bytes
  import opened Options
  import opened DataBuffers
  import opened Wire
  import opened Sockets
  import opened Service
  import C = CacheProtocol

  type PlainMap = map<C.Key, (C.Flags, C.Value)>

  /** `expires` is whatever the uninitialised field of the SetRequest happens to hold. */
  datatype Call =
    | SetCall(key: C.Key, flags: u32, value: C.Value, expires: u32)
    | GetCall(key: C.Key)
    | ClearCall

  datatype Outcome =
    | SetDone(ok: bool)
    | GetDone(reply: Option<C.Reply>)
    | ClearDone

  // ---------- One call ----------

  /** Small enough for the buffers of request and reply. */
  predicate Sendable(call: Call) {
    match call
    case SetCall(key, _, value, _) => |key| + |value| + 2080 <= MAX_BUFFER
    case GetCall(key) => |key| + 2080 <= MAX_BUFFER
    case ClearCall => true
  }

  lemma SendableByNumbers(call: Call)
    ensures Sendable(call) <==> match call
      case SetCall(key, _, value, _) => |key| + |value| <= 0xFFFF_F7D7
      case GetCall(key) => |key| <= 0xFFFF_F7D7
      case ClearCall => true
  {
  }

  predicate RequestFits(kind: Kind, f: Fields) {
    && (kind == GetRequest || kind == SetRequest)
    && |f.key| + |ValueOf(kind, f)| + 2080 <= MAX_BUFFER && f.header == ZERO_HEADER
  }

  function RequestOf(call: Call): (Kind, Fields)
    requires !call.ClearCall?
  {
    match call
    case SetCall(key, flags, value, expires) =>
      (SetRequest, BLANK.(key := key, flags := flags, expires := expires, value := value))
    case GetCall(key) => (GetRequest, BLANK.(key := key))
  }

  /** What the client's handler keeps of a received stream: the first message, if it is a
      response that parses. */
  function Delivered(s: seq<byte>): Option<(Kind, Fields)>
    requires FrameReady(s)
  {
    if |s| < HEADER_SIZE then None else
    FrameIsReady(s);
    DeliveredFrame(s[..FrameLen(s)])
  }

  function DeliveredFrame(frame: seq<byte>): Option<(Kind, Fields)>
    requires IsWhole(frame)
  {
    var kind := KindOf(HeaderAt(frame));
    if (kind == Some(GetResponse) || kind == Some(SetResponse)) && ParseBytes(kind.value, BLANK, frame).0
    then Some((kind.value, ParseBytes(kind.value, BLANK, frame).1))
    else None
  }

  function SetOutcome(message: Option<(Kind, Fields)>): bool {
    message.Some? && message.value.0 == SetResponse && message.value.1.header.status == RES_NO_ERROR
  }

  function GetOutcome(message: Option<(Kind, Fields)>): Option<C.Reply> {
    if message.None? || message.value.0 != GetResponse then None
    else
      var f := message.value.1;
      if f.header.status == RES_NO_ERROR then Some(C.Hit(f.flags, f.value))
      else if f.header.status == RES_KEY_NOT_FOUND then Some(C.KeyNotFound)
      else if f.header.status == RES_NOT_STORED then Some(C.NotStored)
      else None
  }

  /** One call against a server with this cache, through the bytes of request and reply. */
  function Perform(cache: Cache, call: Call): (Cache, Outcome)
    requires Bounded(cache) && Sendable(call)
  {
    if call.ClearCall? then (map[], ClearDone) else
    var (kind, f) := RequestOf(call);
    RequestServed(cache, kind, f);
    var (after, out) := ServeStream(cache, BuiltBytes(kind, f));
    (after, if call.SetCall? then SetDone(SetOutcome(Delivered(out))) else GetDone(GetOutcome(Delivered(out))))
  }

  // ---------- What the bytes come to ----------

  lemma RequestIsFrame(kind: Kind, f: Fields)
    requires RequestFits(kind, f)
    ensures IsFrame(BuiltBytes(kind, f)) && KindOf(HeaderAt(BuiltBytes(kind, f))) == Some(kind)
  {
    BuiltIsComplete(kind, f);
    BuiltFrame(kind, f);
    BuiltLengths(kind, f);
  }

  lemma OneFrame(cache: Cache, frame: seq<byte>)
    requires Bounded(cache) && IsFrame(frame)
    ensures StreamReady(frame) && ServeStream(cache, frame) == ServeFrame(cache, frame) && LeftOver(frame) == []
  {
    FramingIsExact(cache, [frame]);
    assert Concat([frame]) == frame;
    var served := ServeFrame(cache, frame);
    assert served.1 + [] == served.1;
  }

  /** The parser turns a request down. */
  predicate Rejected(kind: Kind, f: Fields) {
    |f.key| % 0x1_0000 == 0 || (kind == SetRequest && f.value == [])
  }

  lemma ReceivedFits(cache: Cache, kind: Kind, f: Fields)
    requires Bounded(cache) && RequestFits(kind, f)
    ensures var reply := Handle(cache, Some(kind), Received(kind, BLANK, f)).1;
            reply.Some? && Fitting(reply.value.1) && (reply.value.0 == GetResponse || reply.value.0 == SetResponse)
  {
    ReplyFits(cache, Some(kind), Received(kind, BLANK, f));
  }

  /** A request on the wire: turned down, or handled as received; and the reply is delivered. */
  lemma RequestServed(cache: Cache, kind: Kind, f: Fields)
    requires Bounded(cache) && RequestFits(kind, f)
    ensures StreamReady(BuiltBytes(kind, f)) && LeftOver(BuiltBytes(kind, f)) == []
    ensures var (after, out) := ServeStream(cache, BuiltBytes(kind, f));
            var answer := Handle(cache, Some(kind), Received(kind, BLANK, f));
            && (out == [] || IsWhole(out))
            && if Rejected(kind, f) then (after, out) == (cache, []) && FrameReady(out) && Delivered(out) == None
            else
              && after == answer.0 && FrameReady(out) && Fitting(answer.1.value.1)
              && Delivered(out) == Some((answer.1.value.0, Received(answer.1.value.0, BLANK, answer.1.value.1)))
  {
    var frame := BuiltBytes(kind, f);
    RequestIsFrame(kind, f);
    OneFrame(cache, frame);
    RoundTrip(kind, BLANK, f);
    if !Rejected(kind, f) {
      ServeDelivered(cache, frame, Received(kind, BLANK, f));
      ReceivedFits(cache, kind, f);
      var reply := Handle(cache, Some(kind), Received(kind, BLANK, f)).1.value;
      ReplyDelivered(reply.0, reply.1);
    }
  }

  /** A reply reaches the client as the server meant it. */
  lemma ReplyDelivered(kind: Kind, g: Fields)
    requires kind == GetResponse || kind == SetResponse
    requires Fitting(g)
    ensures IsWhole(BuiltBytes(kind, g))
    ensures Delivered(BuiltBytes(kind, g)) == Some((kind, Received(kind, BLANK, g)))
  {
    var frame := BuiltBytes(kind, g);
    BuiltIsComplete(kind, g);
    BuiltFrame(kind, g);
    RoundTrip(kind, BLANK, g);
    assert frame[..FrameLen(frame)] == frame;
  }

  /** What a Set comes to, for every cache, key, value and expiry. */
  lemma SetExact(cache: Cache, key: C.Key, flags: u32, value: C.Value, expires: u32)
    requires Bounded(cache) && Sendable(SetCall(key, flags, value, expires))
    ensures Perform(cache, SetCall(key, flags, value, expires))
            == if |key| % 0x1_0000 == 0 || value == [] then (cache, SetDone(false))
               else (cache[WireKey(key, value) := C.Entry(flags, Some(WireValue(key, value)))], SetDone(true))
  {
    hide ServeFrame, BuiltBytes, HeaderAt;
    RequestServed(cache, SetRequest, BLANK.(key := key, flags := flags, expires := expires, value := value));
  }

  /** The answer to a Get, as the client reads it. */
  function Looked(cache: Cache, k: C.Key): C.Reply {
    if k !in cache then C.KeyNotFound
    else if cache[k].buffer.None? then C.NotStored
    else C.Hit(cache[k].flags, cache[k].buffer.value)
  }

  lemma GetReplyRead(cache: Cache, k: C.Key)
    requires Bounded(cache)
    ensures Fitting(GetReply(cache, k))
    ensures GetOutcome(Some((GetResponse, Received(GetResponse, BLANK, GetReply(cache, k))))) == Some(Looked(cache, k))
  {
    ReplyFits(cache, Some(GetRequest), BLANK.(key := k));
    ShortKeyOnWire([], GetReply(cache, k).value);
  }

  /** What a Get comes to, for every cache and key. */
  lemma GetExact(cache: Cache, key: C.Key)
    requires Bounded(cache) && Sendable(GetCall(key))
    ensures var k := WireKey(key, []);
            Perform(cache, GetCall(key)) == (cache, GetDone(if k == [] then None else Some(Looked(cache, k))))
  {
    hide ServeFrame, BuiltBytes, HeaderAt, Received, GetReply;
    var f := BLANK.(key := key);
    RequestServed(cache, GetRequest, f);
    var k := WireKey(key, []);
    assert Received(GetRequest, BLANK, f).key == k by { ReceivedKey(GetRequest, f); }
    GetReplyRead(cache, k);
  }

  lemma ReceivedKey(kind: Kind, f: Fields)
    requires Sized(kind, f)
    ensures Received(kind, BLANK, f).key == WireKey(f.key, ValueOf(kind, f))
  {
  }

  // ---------- One call against the plain map ----------

  function EventOf(m: PlainMap, call: Call): C.Event {
    match call
    case SetCall(key, flags, value, _) => C.DidSet(key, flags, value)
    case GetCall(key) => C.DidGet(key, C.Lookup(m, key))
    case ClearCall => C.DidClear
  }

  function OutcomeOf(e: C.Event): Outcome {
    match e
    case DidSet(_, _, _) => SetDone(true)
    case DidGet(_, reply) => GetDone(Some(reply))
    case DidClear => ClearDone
  }

  /** What Sets leave behind. */
  predicate InRange(m: PlainMap) {
    forall k | k in m :: 1 <= |k| < 0x1_0000 && 1 <= |m[k].1| <= MAX_VALUE
  }

  /** A Set must have a key of 1 to 65535 bytes and a value. A Get whose key is longer is
      truncated on the wire, which shows when the truncated key is in the map or empty. */
  predicate Faithful(m: PlainMap, call: Call) {
    match call
    case SetCall(key, _, value, _) => 1 <= |key| < 0x1_0000 && value != []
    case GetCall(key) => |key| % 0x1_0000 != 0 && (|key| < 0x1_0000 || key[..|key| % 0x1_0000] !in m)
    case ClearCall => true
  }

  lemma StoredIsBounded(m: PlainMap)
    requires InRange(m)
    ensures Bounded(C.AsStored(m))
  {
  }

  /** A call does what the plain map does if and only if it is faithful. */
  lemma CallIsPlainIff(m: PlainMap, call: Call)
    requires InRange(m) && Sendable(call) && Bounded(C.AsStored(m))
    ensures Perform(C.AsStored(m), call) == (C.AsStored(C.Effect(m, EventOf(m, call))), OutcomeOf(EventOf(m, call)))
            <==> Faithful(m, call)
  {
    match call
    case SetCall(key, flags, value, expires) => SetIsPlainIff(m, key, flags, value, expires);
    case GetCall(key) => GetIsPlainIff(m, key);
    case ClearCall =>
  }

  lemma SetIsPlainIff(m: PlainMap, key: C.Key, flags: u32, value: C.Value, expires: u32)
    requires InRange(m) && Sendable(SetCall(key, flags, value, expires)) && Bounded(C.AsStored(m))
    ensures Perform(C.AsStored(m), SetCall(key, flags, value, expires))
            == (C.AsStored(m[key := (flags, value)]), SetDone(true))
            <==> 1 <= |key| < 0x1_0000 && value != []
  {
    hide Perform;
    SetExact(C.AsStored(m), key, flags, value, expires);
    if 1 <= |key| < 0x1_0000 {
      ShortKeyOnWire(key, value);
      assert C.AsStored(m)[key := C.Entry(flags, Some(value))] == C.AsStored(m[key := (flags, value)]);
    } else if |key| % 0x1_0000 != 0 && value != [] {
      var wireKey := WireKey(key, value);
      assert |wireKey| < 0x1_0000 <= |key| && key !in m;
      assert key !in C.AsStored(m)[wireKey := C.Entry(flags, Some(WireValue(key, value)))];
      assert key in C.AsStored(m[key := (flags, value)]);
    }
  }

  lemma GetIsPlainIff(m: PlainMap, key: C.Key)
    requires InRange(m) && Sendable(GetCall(key)) && Bounded(C.AsStored(m))
    ensures Perform(C.AsStored(m), GetCall(key)) == (C.AsStored(m), GetDone(Some(C.Lookup(m, key))))
            <==> Faithful(m, GetCall(key))
  {
    hide Perform;
    GetExact(C.AsStored(m), key);
    assert WireKey(key, []) == key[..|key| % 0x1_0000] by {
      assert key + [] == key;
    }
    if |key| < 0x1_0000 {
      assert key[..|key| % 0x1_0000] == key;
    }
  }

  // ---------- Histories ----------

  /** What any calls leave in a cache: keys of 1 to 65535 bytes and buffers that are never
      missing or empty. */
  predicate Stocked(cache: Cache) {
    && Bounded(cache)
    && forall k | k in cache :: 1 <= |k| < 0x1_0000 && cache[k].buffer.Some? && cache[k].buffer.value != []
  }

  lemma PerformStocked(cache: Cache, call: Call)
    requires Stocked(cache) && Sendable(call)
    ensures Stocked(Perform(cache, call).0)
  {
    hide Perform;
    match call
    case SetCall(key, flags, value, expires) => SetExact(cache, key, flags, value, expires);
    case GetCall(key) => GetExact(cache, key);
    case ClearCall => ClearExact(cache);
  }

  predicate AllSendable(calls: seq<Call>) {
    forall c | c in calls :: Sendable(c)
  }

  lemma PerformBounded(cache: Cache, call: Call)
    requires Bounded(cache) && Sendable(call)
    ensures Bounded(Perform(cache, call).0)
  {
    hide Perform;
    match call
    case SetCall(key, flags, value, expires) => SetExact(cache, key, flags, value, expires);
    case GetCall(key) => GetExact(cache, key);
    case ClearCall => ClearExact(cache);
  }

  lemma ClearExact(cache: Cache)
    requires Bounded(cache)
    ensures Perform(cache, ClearCall) == (map[], ClearDone)
  {
  }

  /** The calls, one after the other, against a server that starts with an empty cache. */
  function History(calls: seq<Call>): (r: (Cache, seq<Outcome>))
    requires AllSendable(calls)
    ensures Bounded(r.0) && |r.1| == |calls|
  {
    if calls == [] then (map[], []) else
    var last := calls[|calls| - 1];
    assert last in calls;
    var (cache, outcomes) := History(calls[..|calls| - 1]);
    PerformBounded(cache, last);
    (Perform(cache, last).0, outcomes + [Perform(cache, last).1])
  }

  /** The same calls as the plain map takes them. */
  function PlainLog(calls: seq<Call>): (log: seq<C.Event>)
    ensures |log| == |calls|
  {
    if calls == [] then [] else
    var log := PlainLog(calls[..|calls| - 1]);
    log + [EventOf(C.Model(log), calls[|calls| - 1])]
  }

  function PlainHistory(calls: seq<Call>): (r: (Cache, seq<Outcome>))
    ensures |r.1| == |calls|
  {
    var log := PlainLog(calls);
    (C.AsStored(C.Model(log)), seq(|log|, i requires 0 <= i < |log| => OutcomeOf(log[i])))
  }

  /** After every call the cache and the outcomes so far are those of the plain map. */
  predicate AgreesThroughout(calls: seq<Call>)
    requires AllSendable(calls)
  {
    calls == [] || (AgreesThroughout(calls[..|calls| - 1]) && History(calls) == PlainHistory(calls))
  }

  predicate AllFaithful(calls: seq<Call>) {
    calls == [] ||
    (AllFaithful(calls[..|calls| - 1]) && Faithful(C.Model(PlainLog(calls[..|calls| - 1])), calls[|calls| - 1]))
  }

  lemma PlainStep(calls: seq<Call>)
    requires calls != []
    ensures var init := calls[..|calls| - 1];
            var m := C.Model(PlainLog(init));
            var e := EventOf(m, calls[|calls| - 1]);
            && PlainLog(calls) == PlainLog(init) + [e]
            && C.Model(PlainLog(calls)) == C.Effect(m, e)
            && PlainHistory(calls) == (C.AsStored(C.Effect(m, e)), PlainHistory(init).1 + [OutcomeOf(e)])
  {
    var init := calls[..|calls| - 1];
    var log := PlainLog(calls);
    assert log[..|log| - 1] == PlainLog(init);
    assert PlainHistory(calls).1 == PlainHistory(init).1 + [OutcomeOf(log[|log| - 1])];
  }

  lemma PlainHistoryMap(calls: seq<Call>)
    ensures PlainHistory(calls).0 == C.AsStored(C.Model(PlainLog(calls)))
  {
  }

  lemma HistoryStep(calls: seq<Call>)
    requires AllSendable(calls) && calls != []
    ensures var init := calls[..|calls| - 1];
            && AllSendable(init) && Sendable(calls[|calls| - 1])
            && var (after, outcome) := Perform(History(init).0, calls[|calls| - 1]);
               History(calls) == (after, History(init).1 + [outcome])
  {
    hide Perform;
    assert calls[|calls| - 1] in calls;
  }

  lemma FaithfulKeepsRange(m: PlainMap, call: Call)
    requires InRange(m) && Sendable(call) && Faithful(m, call)
    ensures InRange(C.Effect(m, EventOf(m, call)))
  {
  }

  lemma SameAppended<T>(s: seq<T>, x: T, y: T)
    ensures s + [x] == s + [y] <==> x == y
  {
    assert (s + [x])[|s|] == x && (s + [y])[|s|] == y;
  }

  /** Whole histories agree with the plain map after every call if and only if every call is
      faithful. */
  lemma {:induction false} HistoryIsPlainIff(calls: seq<Call>)
    requires AllSendable(calls)
    ensures AgreesThroughout(calls) <==> AllFaithful(calls)
    ensures AllFaithful(calls) ==> InRange(C.Model(PlainLog(calls))) && History(calls) == PlainHistory(calls)
  {
    if calls != [] {
      hide Perform, PlainHistory, InRange, Faithful, EventOf, History, Sendable;
      var init, last := calls[..|calls| - 1], calls[|calls| - 1];
      HistoryStep(calls);
      HistoryIsPlainIff(init);
      PlainStep(calls);
      if AllFaithful(init) {
        var m := C.Model(PlainLog(init));
        StoredIsBounded(m);
        PlainHistoryMap(init);
        CallIsPlainIff(m, last);
        SameAppended(History(init).1, Perform(C.AsStored(m), last).1, OutcomeOf(EventOf(m, last)));
        if Faithful(m, last) {
          FaithfulKeepsRange(m, last);
        }
      }
    }
  }

  // ---------- The latest Set ----------

  /** Call j is the last Set of this key before call i, with no Clear since. */
  ghost predicate LatestSetCall(calls: seq<Call>, i: nat, j: nat, key: C.Key)
    requires i <= |calls|
  {
    && j < i && calls[j].SetCall? && calls[j].key == key
    && forall n | j < n < i :: !calls[n].ClearCall? && !(calls[n].SetCall? && calls[n].key == key)
  }

  /** A key and a value that fit. */
  predicate Proper(call: Call) {
    match call
    case SetCall(key, _, value, _) => 1 <= |key| < 0x1_0000 && value != []
    case GetCall(key) => 1 <= |key| < 0x1_0000
    case ClearCall => true
  }

  lemma {:induction false} ProperIsFaithful(calls: seq<Call>)
    requires forall c | c in calls :: Proper(c)
    ensures AllFaithful(calls)
  {
    if calls != [] {
      assert Proper(calls[|calls| - 1]);
      ProperIsFaithful(calls[..|calls| - 1]);
    }
  }

  lemma {:induction false} LogAt(calls: seq<Call>, i: nat)
    requires i < |calls|
    ensures PlainLog(calls)[..i] == PlainLog(calls[..i])
    ensures PlainLog(calls)[i] == EventOf(C.Model(PlainLog(calls)[..i]), calls[i])
  {
    hide EventOf, PlainHistory, C.Effect, C.Model, PlainLog, OutcomeOf;
    PlainStep(calls);
    var init := calls[..|calls| - 1];
    assert PlainLog(calls)[..i] == PlainLog(init)[..i];
    if i == |calls| - 1 {
      assert PlainLog(init)[..i] == PlainLog(init);
    } else {
      LogAt(init, i);
      assert init[..i] == calls[..i];
    }
  }

  lemma OutcomeAt(calls: seq<Call>, i: nat)
    requires AllSendable(calls) && AllFaithful(calls) && i < |calls|
    ensures History(calls).1[i] == OutcomeOf(PlainLog(calls)[i])
  {
    hide PlainLog, History, AllFaithful, OutcomeOf, C.Model;
    HistoryIsPlainIff(calls);
  }

  lemma LatestInLog(calls: seq<Call>, i: nat, j: nat, key: C.Key)
    requires i <= |calls|
    ensures LatestSetCall(calls, i, j, key) <==> C.LatestSet(PlainLog(calls), i, j, key)
    ensures LatestSetCall(calls, i, j, key) ==> PlainLog(calls)[j] == C.DidSet(key, calls[j].flags, calls[j].value)
  {
    hide PlainLog, C.Model;
    forall n | 0 <= n < i
      ensures PlainLog(calls)[n] == EventOf(C.Model(PlainLog(calls)[..n]), calls[n])
    {
      LogAt(calls, n);
    }
  }

  lemma ProperByNumbers(calls: seq<Call>)
    requires forall c | c in calls && c.SetCall? ::
               1 <= |c.key| <= 65535 && c.value != [] && |c.key| + |c.value| <= 0xFFFF_F7D7
    requires forall c | c in calls && c.GetCall? :: 1 <= |c.key| <= 65535
    ensures AllSendable(calls) && forall c | c in calls :: Proper(c)
  {
  }

  /** The end-to-end law: in every history of proper calls each Set succeeds, and each Get returns
      the flags and bytes of the latest Set of its key since the last Clear, or fails with
      key-not-found when there is none. */
  lemma GetReturnsLatestSet(calls: seq<Call>, i: nat)
    requires forall c | c in calls && c.SetCall? ::
               1 <= |c.key| <= 65535 && c.value != [] && |c.key| + |c.value| <= 0xFFFF_F7D7
    requires forall c | c in calls && c.GetCall? :: 1 <= |c.key| <= 65535
    requires i < |calls|
    ensures AllSendable(calls)
    ensures match calls[i]
            case SetCall(_, _, _, _) => History(calls).1[i] == SetDone(true)
            case ClearCall => History(calls).1[i] == ClearDone
            case GetCall(key) =>
              || (exists j: nat ::
                    && LatestSetCall(calls, i, j, key)
                    && History(calls).1[i] == GetDone(Some(C.Hit(calls[j].flags, calls[j].value))))
              || (&& (forall j: nat :: !LatestSetCall(calls, i, j, key))
                  && History(calls).1[i] == GetDone(Some(C.KeyNotFound)))
  {
    hide PlainLog, History, AllFaithful, AllSendable, C.Model;
    ProperByNumbers(calls);
    ProperIsFaithful(calls);
    OutcomeAt(calls, i);
    LogAt(calls, i);
    var log := PlainLog(calls);
    if calls[i].GetCall? {
      var key := calls[i].key;
      if key in C.Model(log[..i]) {
        var j := C.ModelHasLatestSet(log, i, key);
        LatestInLog(calls, i, j, key);
      } else {
        forall j: nat
          ensures !LatestSetCall(calls, i, j, key)
        {
          LatestInLog(calls, i, j, key);
          if C.LatestSet(log, i, j, key) {
            C.LatestSetInModel(log, i, j, key);
          }
        }
      }
    }
  }
}
