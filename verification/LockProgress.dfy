/** Freedom from deadlock at the finest grain, for threads that never take a read lock
    inside another lock nor a write lock inside a read lock; and the consequence that all
    open operations can be driven to completion, which leaves the lock as it was built. */
module LockProgress {
  import opened Bytes
  import opened Options
  import opened LockSteps
  import opened LockInvariant

  /** The calling discipline. Write locks may nest. */
  predicate Allowed(s: State, t: Thread, a: Action) {
    match a
    case CallLockRead => t !in s.readers && t !in s.writers
    case CallLockWrite => t !in s.readers
    case _ => true
  }

  ghost predicate NextDisciplined(s: State, s': State) {
    exists t: Thread, a: Action :: Enabled(s, t, a) && Allowed(s, t, a) && s' == Step(s, t, a)
  }

  ghost predicate IsDisciplinedRun(run: seq<State>) {
    && |run| > 0 && run[0] == Init
    && (forall i | 0 <= i < |run| :: Fits(run[i]))
    && (forall i | 0 <= i < |run| - 1 :: NextDisciplined(run[i], run[i + 1]))
  }

  /** What the discipline adds to the invariant of every run. */
  ghost predicate Unnested(s: State) {
    forall t: Thread ::
      && (PcOf(s, t) == R58 || PcOf(s, t) == R60 ==> t !in s.readers)
      && (InLockWrite(PcOf(s, t)) || InUnlockWrite(PcOf(s, t)) ==> t !in s.readers)
      && (InLockRead(PcOf(s, t)) || InUnlockRead(PcOf(s, t)) || t in s.readers ==> s.owner != Some(t))
  }

  lemma CallKeepsUnnested(s: State, t: Thread, a: Action)
    requires Unnested(s) && MutexInv(s) && a != Advance && Enabled(s, t, a) && Allowed(s, t, a)
    ensures Unnested(Step(s, t, a))
  {
    var s' := Step(s, t, a);
    assert s'.owner == s.owner && PcOf(s', t) != R60 && PcOf(s', t) != Outside;
    forall u: Thread | u != t
      ensures PcOf(s', u) == PcOf(s, u) && s'.readers[u] == s.readers[u]
    {
      StepFrame(s, t, a, u);
    }
  }

  lemma LockReadKeepsUnnested(s: State, t: Thread)
    requires Unnested(s) && InLockRead(PcOf(s, t))
    ensures Unnested(LockReadLine(s, t))
  {
    var s' := LockReadLine(s, t);
    assert forall u: Thread | u != t :: PcOf(s', u) == PcOf(s, u) && s'.readers[u] == s.readers[u];
  }

  lemma UnlockReadKeepsUnnested(s: State, t: Thread)
    requires Unnested(s) && InUnlockRead(PcOf(s, t))
    ensures Unnested(UnlockReadLine(s, t))
  {
    var s' := UnlockReadLine(s, t);
    assert forall u: Thread | u != t :: PcOf(s', u) == PcOf(s, u) && s'.readers[u] == s.readers[u];
  }

  lemma LockWriteKeepsUnnested(s: State, t: Thread)
    requires Unnested(s) && InLockWrite(PcOf(s, t)) && Enabled(s, t, Advance)
    ensures Unnested(LockWriteLine(s, t))
  {
    var s' := LockWriteLine(s, t);
    assert s'.readers == s.readers && !InLockRead(PcOf(s', t)) && !InUnlockRead(PcOf(s', t));
    assert s'.owner == s.owner || s'.owner == Some(t) || s'.owner == None;
    forall u: Thread | u != t
      ensures PcOf(s', u) == PcOf(s, u)
    {
      LockWriteFrame(s, t, u);
    }
  }

  lemma UnlockWriteKeepsUnnested(s: State, t: Thread)
    requires Unnested(s) && InUnlockWrite(PcOf(s, t))
    ensures Unnested(UnlockWriteLine(s, t))
  {
    var s' := UnlockWriteLine(s, t);
    assert s'.readers == s.readers && !InLockRead(PcOf(s', t)) && !InUnlockRead(PcOf(s', t));
    assert s'.owner == s.owner || s'.owner == Some(t) || s'.owner == None;
    forall u: Thread | u != t
      ensures PcOf(s', u) == PcOf(s, u)
    {
      UnlockWriteFrame(s, t, u);
    }
  }

  lemma StepKeepsUnnested(s: State, t: Thread, a: Action)
    requires Unnested(s) && MutexInv(s) && Enabled(s, t, a) && Allowed(s, t, a)
    ensures Unnested(Step(s, t, a))
  {
    if a != Advance {
      CallKeepsUnnested(s, t, a);
    } else if InLockRead(PcOf(s, t)) {
      LockReadKeepsUnnested(s, t);
    } else if InUnlockRead(PcOf(s, t)) {
      UnlockReadKeepsUnnested(s, t);
    } else if InLockWrite(PcOf(s, t)) {
      LockWriteKeepsUnnested(s, t);
    } else {
      UnlockWriteKeepsUnnested(s, t);
    }
  }

  lemma {:induction false} DisciplinedRunKeeps(run: seq<State>, i: nat)
    requires IsDisciplinedRun(run) && i < |run|
    ensures Inv(run[i]) && Unnested(run[i])
  {
    if i > 0 {
      DisciplinedRunKeeps(run, i - 1);
      assert NextDisciplined(run[i - 1], run[i]);
      var t: Thread, a: Action :|
        Enabled(run[i - 1], t, a) && Allowed(run[i - 1], t, a) && run[i] == Step(run[i - 1], t, a);
      StepKeepsInv(run[i - 1], t, a);
      StepKeepsUnnested(run[i - 1], t, a);
    }
  }

  // ---------- Deadlock freedom ----------

  predicate Idle(s: State, t: Thread) {
    PcOf(s, t) == Outside && t !in s.readers && t !in s.writers
  }

  ghost predicate Quiescent(s: State) {
    forall t: Thread :: Idle(s, t)
  }

  /** A step that opens nothing: a started line, or the release of a held lock. */
  predicate Closing(a: Action) {
    a == Advance || a == CallUnlockRead || a == CallUnlockWrite
  }

  function Release(s: State, t: Thread): Action {
    if PcOf(s, t) != Outside then Advance
    else if t in s.readers then CallUnlockRead
    else CallUnlockWrite
  }

  lemma ReaderCanStep(s: State, t: Thread)
    requires Inv(s) && Unnested(s) && t in s.readers
    ensures !Idle(s, t) && Enabled(s, t, Release(s, t))
  {
  }

  /** The mutex holder can step, or the thread it waits for can. */
  lemma HolderOrReaderCanStep(s: State) returns (t: Thread)
    requires Inv(s) && Unnested(s) && s.owner.Some?
    ensures !Idle(s, t) && Enabled(s, t, Release(s, t))
  {
    t := s.owner.value;
    if PcOf(s, t) == W85 && !s.readEvent {
      t := LateSetterOrReader(s);
    }
  }

  lemma LateSetterOrReader(s: State) returns (t: Thread)
    requires Inv(s) && Unnested(s) && !s.readEvent
    ensures !Idle(s, t) && Enabled(s, t, Release(s, t))
  {
    if s.readers != multiset{} {
      t :| t in s.readers;
      ReaderCanStep(s, t);
    } else {
      assert SetPending(s);
      t :| PcOf(s, t) == R70;
    }
  }

  /** In every state where some thread is not idle, some thread that is not idle can take a
      step that opens no new lock. */
  lemma NoDeadlock(s: State, busy: Thread) returns (t: Thread)
    requires Inv(s) && Unnested(s) && !Idle(s, busy)
    ensures !Idle(s, t) && Enabled(s, t, Release(s, t)) && Closing(Release(s, t))
  {
    if Enabled(s, busy, Release(s, busy)) {
      t := busy;
    } else if s.owner.Some? {
      t := HolderOrReaderCanStep(s);
    } else {
      t := LateSetterOrReader(s);
    }
  }

  lemma NoDeadlockInAnyRun(run: seq<State>, i: nat)
    requires IsDisciplinedRun(run) && i < |run| && !Quiescent(run[i])
    ensures exists t: Thread, a: Action :: !Idle(run[i], t) && Closing(a) && Enabled(run[i], t, a)
  {
    DisciplinedRunKeeps(run, i);
    var busy: Thread :| !Idle(run[i], busy);
    var t := NoDeadlock(run[i], busy);
  }

  lemma QuiescentIsInitial(s: State)
    requires Inv(s) && Quiescent(s)
    ensures s.(pcs := map[]) == Init
  {
    forall t: Thread
      ensures PcOf(s, t) == Outside && t !in s.readers && t !in s.writers
    {
      assert Idle(s, t);
    }
    assert s.readers == multiset{} && s.writers == multiset{};
    assert !SetPending(s);
  }

  // ---------- Every schedule completes every open operation ----------

  /** Lines a thread still has to execute, counting a lock it ends up holding as the work
      of releasing it. A thread about to decrement still counts as a reader. */
  function Work(pc: PC): int {
    match pc
    case Outside => 0
    case R58 => 6 case R60 => 5 case R62 => 1
    case R68 => -1 case R70 => 1
    case W77 => 8 case W80 => 7 case W82 => 6 case W85 => 5
    case W91 => 3 case W94 => 2 case W97 => 1
  }

  ghost function TotalWork(pcs: map<Thread, PC>): int
    decreases |pcs|
  {
    if pcs == map[] then 0
    else
      var t :| t in pcs;
      Work(pcs[t]) + TotalWork(pcs - {t})
  }

  lemma {:induction false} TotalWorkAt(pcs: map<Thread, PC>, t: Thread)
    requires t in pcs
    ensures TotalWork(pcs) == Work(pcs[t]) + TotalWork(pcs - {t})
    decreases |pcs|
  {
    var u :| u in pcs && TotalWork(pcs) == Work(pcs[u]) + TotalWork(pcs - {u});
    if u != t {
      TotalWorkAt(pcs - {u}, t);
      assert pcs - {u} - {t} == pcs - {t} - {u};
      TotalWorkAt(pcs - {t}, u);
    }
  }

  ghost function Rank(s: State): int {
    TotalWork(s.pcs) + 3 * |s.readers| + 4 * |s.writers|
  }

  lemma TotalWorkUpdate(s: State, t: Thread, pc: PC)
    ensures TotalWork(s.pcs[t := pc]) == TotalWork(s.pcs) - Work(PcOf(s, t)) + Work(pc)
  {
    var pcs' := s.pcs[t := pc];
    TotalWorkAt(pcs', t);
    if t in s.pcs {
      TotalWorkAt(s.pcs, t);
      assert pcs' - {t} == s.pcs - {t};
    } else {
      assert pcs' - {t} == s.pcs;
    }
  }

  /** Threads about to decrement each have a hold of their own. */
  lemma {:induction false} TotalWorkBound(pcs: map<Thread, PC>, holds: multiset<Thread>)
    requires forall t | t in pcs && pcs[t] == R68 :: t in holds
    ensures TotalWork(pcs) >= -|holds|
    decreases |pcs|
  {
    if pcs != map[] {
      var t :| t in pcs;
      TotalWorkAt(pcs, t);
      if pcs[t] == R68 {
        var rest := holds[t := 0];
        assert t in holds && |rest| == |holds| - holds[t];
        TotalWorkBound(pcs - {t}, rest);
      } else {
        TotalWorkBound(pcs - {t}, holds);
      }
    }
  }

  lemma RankBound(s: State)
    requires CountersInv(s)
    ensures Rank(s) >= 2 * |s.readers| + 4 * |s.writers|
  {
    forall t | t in s.pcs && s.pcs[t] == R68
      ensures t in s.readers
    {
      assert PcOf(s, t) == R68;
    }
    TotalWorkBound(s.pcs, s.readers);
  }

  lemma LockReadRank(s: State, t: Thread)
    requires InLockRead(PcOf(s, t))
    ensures Rank(LockReadLine(s, t)) < Rank(s)
  {
    TotalWorkUpdate(s, t, PcOf(LockReadLine(s, t), t));
  }

  lemma UnlockReadRank(s: State, t: Thread)
    requires InUnlockRead(PcOf(s, t)) && CountersInv(s)
    ensures Rank(UnlockReadLine(s, t)) < Rank(s)
  {
    TotalWorkUpdate(s, t, PcOf(UnlockReadLine(s, t), t));
  }

  lemma LockWriteRank(s: State, t: Thread)
    requires InLockWrite(PcOf(s, t))
    ensures Rank(LockWriteLine(s, t)) < Rank(s)
  {
    TotalWorkUpdate(s, t, PcOf(LockWriteLine(s, t), t));
  }

  lemma UnlockWriteRank(s: State, t: Thread)
    requires InUnlockWrite(PcOf(s, t))
    ensures Rank(UnlockWriteLine(s, t)) < Rank(s)
  {
    TotalWorkUpdate(s, t, PcOf(UnlockWriteLine(s, t), t));
  }

  lemma ReleaseRank(s: State, t: Thread, a: Action)
    requires (a == CallUnlockRead || a == CallUnlockWrite) && Enabled(s, t, a)
    ensures Rank(Step(s, t, a)) < Rank(s)
  {
    TotalWorkUpdate(s, t, if a == CallUnlockRead then R68 else W91);
  }

  lemma ClosingRank(s: State, t: Thread, a: Action)
    requires Inv(s) && Enabled(s, t, a) && Closing(a)
    ensures Rank(Step(s, t, a)) < Rank(s)
  {
    if a != Advance {
      ReleaseRank(s, t, a);
    } else if InLockRead(PcOf(s, t)) {
      LockReadRank(s, t);
    } else if InUnlockRead(PcOf(s, t)) {
      UnlockReadRank(s, t);
    } else if InLockWrite(PcOf(s, t)) {
      LockWriteRank(s, t);
    } else {
      UnlockWriteRank(s, t);
    }
  }

  ghost predicate NextClosing(s: State, s': State) {
    exists t: Thread, a: Action :: Closing(a) && Enabled(s, t, a) && s' == Step(s, t, a)
  }

  ghost predicate IsClosingPath(path: seq<State>) {
    && |path| > 0
    && (forall i | 0 <= i < |path| :: Fits(path[i]))
    && (forall i | 0 <= i < |path| - 1 :: NextClosing(path[i], path[i + 1]))
  }

  /** Every closing step counts down. */
  lemma {:induction false} ClosingPathRank(path: seq<State>, i: nat)
    requires IsClosingPath(path) && Inv(path[0]) && Unnested(path[0]) && i < |path|
    ensures Inv(path[i]) && Unnested(path[i]) && Rank(path[i]) + i <= Rank(path[0])
  {
    hide CountersInv, MutexInv, EventsInv, Unnested, Rank, Step, Enabled;
    if i > 0 {
      ClosingPathRank(path, i - 1);
      var s := path[i - 1];
      assert NextClosing(s, path[i]);
      var t: Thread, a: Action :| Closing(a) && Enabled(s, t, a) && path[i] == Step(s, t, a);
      ClosingRank(s, t, a);
      StepKeepsInv(s, t, a);
      StepKeepsUnnested(s, t, a);
    }
  }

  ghost predicate NothingToClose(s: State) {
    forall t: Thread, a: Action | Closing(a) :: !Enabled(s, t, a)
  }

  /** Whatever the schedule: as long as no thread opens a lock, only so many steps can be taken,
      and when none is left every thread is idle and the lock is as it was constructed. */
  lemma EveryScheduleDrains(path: seq<State>)
    requires IsClosingPath(path) && Inv(path[0]) && Unnested(path[0])
    ensures |path| <= Rank(path[0]) + 1
    ensures var last := path[|path| - 1];
            NothingToClose(last) <==> Quiescent(last)
    ensures var last := path[|path| - 1];
            NothingToClose(last) ==> last.(pcs := map[]) == Init
  {
    var last := path[|path| - 1];
    ClosingPathRank(path, |path| - 1);
    RankBound(last);
    if !Quiescent(last) {
      var busy: Thread :| !Idle(last, busy);
      var t := NoDeadlock(last, busy);
      assert !NothingToClose(last);
    } else {
      QuiescentIsInitial(last);
      forall t: Thread, a: Action | Closing(a)
        ensures !Enabled(last, t, a)
      {
        assert Idle(last, t);
      }
    }
  }

  lemma WritersBoundDepth(s: State)
    requires MutexInv(s)
    ensures s.depth <= |s.writers| + 1
  {
    if s.owner.Some? {
      var t := s.owner.value;
      assert |s.writers[t := 0]| == |s.writers| - s.writers[t];
    }
  }

  lemma RankFits(s: State)
    requires Inv(s) && Rank(s) < WORD - 1
    ensures Fits(s)
  {
    RankBound(s);
    WritersBoundDepth(s);
  }

  /** A step about to be taken fits the 32-bit counters while the open work is below 2^32. */
  lemma ClosingFits(s: State, t: Thread, a: Action)
    requires Inv(s) && Unnested(s) && Rank(s) < WORD - 1 && Enabled(s, t, a) && Closing(a)
    ensures Fits(Step(s, t, a)) && Inv(Step(s, t, a)) && Unnested(Step(s, t, a))
  {
    ClosingRank(s, t, a);
    StepHoldsFit(s, t, a);
    StepKeepsInv(s, t, a);
    StepKeepsUnnested(s, t, a);
  }

  lemma StepHoldsFit(s: State, t: Thread, a: Action)
    requires Inv(s) && Rank(s) < WORD - 1 && Enabled(s, t, a) && Closing(a)
    ensures Fits(Step(s, t, a))
  {
    hide Step, MutexInv, CountersInv, EventsInv;
    RankBound(s);
    WritersBoundDepth(s);
    StepHoldsOneMore(s, t, a);
  }

  lemma StepHoldsOneMore(s: State, t: Thread, a: Action)
    requires Enabled(s, t, a)
    ensures |Step(s, t, a).readers| <= |s.readers| + 1 && Step(s, t, a).depth <= s.depth + 1
  {
  }

  lemma ExtendClosingPath(s: State, t: Thread, a: Action, rest: seq<State>)
    requires Fits(s) && Closing(a) && Enabled(s, t, a)
    requires IsClosingPath(rest) && rest[0] == Step(s, t, a)
    ensures IsClosingPath([s] + rest)
  {
    var path := [s] + rest;
    assert NextClosing(s, rest[0]);
    forall i | 0 <= i < |path| - 1
      ensures NextClosing(path[i], path[i + 1])
    {
      if i > 0 {
        assert NextClosing(rest[i - 1], rest[i]);
      }
    }
  }

  /** And there is such a schedule, if the open work is below 2^32 - 1. */
  lemma {:induction false} Drain(s: State) returns (path: seq<State>)
    requires Inv(s) && Unnested(s) && Rank(s) < WORD - 1
    ensures IsClosingPath(path) && path[0] == s && Quiescent(path[|path| - 1])
    decreases Rank(s) + 1
  {
    RankFits(s);
    RankBound(s);
    path := [s];
    if !Quiescent(s) {
      var busy: Thread :| !Idle(s, busy);
      var t := NoDeadlock(s, busy);
      var a := Release(s, t);
      ClosingFits(s, t, a);
      ClosingRank(s, t, a);
      var rest := Drain(Step(s, t, a));
      ExtendClosingPath(s, t, a, rest);
      path := [s] + rest;
    }
  }

  // ---------- Why the discipline is needed ----------

  /** Some thread is not idle, and no thread can finish anything. */
  ghost predicate Stuck(s: State) {
    NothingToClose(s) && !Quiescent(s)
  }

  lemma AloneAndWaiting(s: State, t: Thread)
    requires (PcOf(s, t) == R58 && !s.writeEvent) || (PcOf(s, t) == W85 && !s.readEvent)
    requires forall u: Thread | u != t :: Idle(s, u)
    ensures Stuck(s)
  {
    forall u: Thread, a: Action | Closing(a)
      ensures !Enabled(s, u, a)
    {
      assert u != t ==> Idle(s, u);
    }
    assert !Idle(s, t);
  }

  /** A state of the lock when thread 1 stands at pc and no other thread has done anything. */
  function Solo(pc: PC, counts: (nat, nat), events: (bool, bool), depth: nat, holds: (nat, nat)): State {
    State(counts.0, counts.1, events.0, events.1, if depth == 0 then None else Some(1), depth, map[1 := pc],
          multiset{}[1 := holds.0], multiset{}[1 := holds.1])
  }

  lemma SoloWriterStarts() returns (run: seq<State>)
    ensures IsRun(run) && run[|run| - 1] == Solo(W80, (0, 0), (true, true), 1, (0, 0))
  {
    run := [Init];
    run := GrowRun(run, 1, CallLockWrite);
    run := GrowRun(run, 1, Advance);
  }

  lemma SoloWriterWaits() returns (run: seq<State>)
    ensures IsRun(run) && run[|run| - 1] == Solo(W85, (0, 1), (true, false), 1, (0, 0))
  {
    run := SoloWriterStarts();
    run := GrowRun(run, 1, Advance);
    run := GrowRun(run, 1, Advance);
  }

  lemma SoloReader() returns (run: seq<State>)
    ensures IsRun(run) && run[|run| - 1] == Solo(Outside, (1, 0), (false, true), 0, (1, 0))
  {
    run := [Init];
    run := GrowRun(run, 1, CallLockRead);
    run := GrowRun(run, 1, Advance);
    run := GrowRun(run, 1, Advance);
    run := GrowRun(run, 1, Advance);
  }

  lemma SoloReaderWantsMore() returns (run: seq<State>)
    ensures IsRun(run) && run[|run| - 1] == Solo(W80, (1, 0), (false, true), 1, (1, 0))
  {
    run := SoloReader();
    run := GrowRun(run, 1, CallLockWrite);
    run := GrowRun(run, 1, Advance);
  }

  /** A read lock inside one's own write lock waits at line 58 for ever. */
  lemma ReadInsideOwnWriteSticks() returns (run: seq<State>)
    ensures IsRun(run) && Stuck(run[|run| - 1])
    ensures PcOf(run[|run| - 1], 1) == R58 && 1 in run[|run| - 1].writers
  {
    hide Stuck;
    run := SoloWriterWaits();
    run := GrowRun(run, 1, Advance);
    run := GrowRun(run, 1, CallLockRead);
    assert run[|run| - 1] == Solo(R58, (0, 1), (true, false), 1, (0, 1));
    AloneAndWaiting(run[|run| - 1], 1);
  }

  /** A write lock inside one's own read lock waits at line 85 for ever. */
  lemma WriteInsideOwnReadSticks() returns (run: seq<State>)
    ensures IsRun(run) && Stuck(run[|run| - 1])
    ensures PcOf(run[|run| - 1], 1) == W85 && 1 in run[|run| - 1].readers
  {
    hide Stuck;
    run := SoloReaderWantsMore();
    run := GrowRun(run, 1, Advance);
    run := GrowRun(run, 1, Advance);
    assert run[|run| - 1] == Solo(W85, (1, 1), (false, false), 1, (1, 0));
    AloneAndWaiting(run[|run| - 1], 1);
  }
}
