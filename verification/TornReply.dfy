/** Why the condition on runs is needed: with every source line of the lock a step of its own, a
    reader that is slow between lines 58 and 60 of ReadWriteLock.cpp comes to share the
    cache with a writer, and its client gets the flags of one Set with the value of
    another. */
module TornReply {
  import opened Bytes
  import opened Options
  import opened LockSteps
  import opened LockInvariant
  import opened LockExclusion
  import opened CacheProtocol

  function Last(run: seq<System>): System
    requires |run| > 0
  {
    run[|run| - 1]
  }

  lemma GrowSystem(run: seq<System>, t: Thread, m: Move) returns (longer: seq<System>)
    requires IsSystemRun(run) && MoveEnabled(Last(run), t, m) && Fits(Do(Last(run), t, m).lock)
    ensures IsSystemRun(longer) && Last(longer) == Do(Last(run), t, m) && run <= longer && |run| < |longer|
  {
    longer := run + [Do(Last(run), t, m)];
    assert NextSystem(Last(run), Last(longer));
    forall i | 0 <= i < |longer| - 1
      ensures NextSystem(longer[i], longer[i + 1])
    {
      if i < |run| - 1 {
        assert NextSystem(run[i], run[i + 1]);
      }
    }
  }

  // ---------- The writer, thread 2 ----------

  /** The lock as far as threads share it. */
  function Shared(l: State): State { l.(pcs := map[]) }

  const Held := State(0, 1, true, false, Some(2), 1, map[], multiset{}, multiset{2})

  /** Only the lock has changed, and in it nothing of thread 1. */
  predicate OnlyLock(s: System, s': System) {
    s' == s.(lock := s'.lock) && PcOf(s'.lock, 1) == PcOf(s.lock, 1)
  }

  lemma WriterPassesMutex(run: seq<System>) returns (longer: seq<System>)
    requires IsSystemRun(run)
    requires Shared(Last(run).lock) == Init && PcOf(Last(run).lock, 2) == Outside
    requires PhaseOf(Last(run), 2).Set? && PhaseOf(Last(run), 2).setAt == Insert
    ensures IsSystemRun(longer) && run <= longer && OnlyLock(Last(run), Last(longer))
    ensures Shared(Last(longer).lock) == Init.(owner := Some(2), depth := 1) && PcOf(Last(longer).lock, 2) == W80
  {
    longer := GrowSystem(run, 2, LockMove(Line(CallLockWrite)));
    longer := GrowSystem(longer, 2, LockMove(Line(Advance)));
  }

  lemma WriterShutsGate(run: seq<System>) returns (longer: seq<System>)
    requires IsSystemRun(run)
    requires Shared(Last(run).lock) == Init.(owner := Some(2), depth := 1) && PcOf(Last(run).lock, 2) == W80
    requires PhaseOf(Last(run), 2).Set? && PhaseOf(Last(run), 2).setAt == Insert
    ensures IsSystemRun(longer) && run <= longer && OnlyLock(Last(run), Last(longer))
    ensures Shared(Last(longer).lock) == Held.(writers := multiset{}) && PcOf(Last(longer).lock, 2) == W85
  {
    longer := GrowSystem(run, 2, LockMove(Line(Advance)));
    longer := GrowSystem(longer, 2, LockMove(Line(Advance)));
  }

  lemma WriterEnters(run: seq<System>) returns (longer: seq<System>)
    requires IsSystemRun(run)
    requires Shared(Last(run).lock) == Init && PcOf(Last(run).lock, 2) == Outside
    requires PhaseOf(Last(run), 2).Set? && PhaseOf(Last(run), 2).setAt == Insert
    ensures IsSystemRun(longer) && run <= longer && OnlyLock(Last(run), Last(longer))
    ensures Shared(Last(longer).lock) == Held && PcOf(Last(longer).lock, 2) == Outside
  {
    longer := WriterPassesMutex(run);
    longer := WriterShutsGate(longer);
    longer := GrowSystem(longer, 2, LockMove(Line(Advance)));
  }

  lemma WriterAssigns(run: seq<System>, k: Key, f: Flags, v: Value) returns (longer: seq<System>)
    requires IsSystemRun(run) && Fits(Last(run).lock)
    requires PcOf(Last(run).lock, 2) == Outside && 2 in Last(run).lock.writers
    requires PhaseOf(Last(run), 2) == Set(k, f, v, Insert)
    ensures IsSystemRun(longer) && run <= longer
    ensures var s := Last(run);
            Last(longer) == System(s.lock, s.phases[2 := Set(k, f, v, Stored)], s.data[k := Entry(f, Some(v))],
                                   s.log + [DidSet(k, f, v)], s.actors + [2])
  {
    hide LockStep, LockEnabled;
    longer := GrowSystem(run, 2, DataMove);
    longer := GrowSystem(longer, 2, DataMove);
    longer := GrowSystem(longer, 2, DataMove);
  }

  lemma WriterLeaves(run: seq<System>) returns (longer: seq<System>)
    requires IsSystemRun(run)
    requires Shared(Last(run).lock) == Held && PcOf(Last(run).lock, 2) == Outside
    requires PhaseOf(Last(run), 2).Set? && PhaseOf(Last(run), 2).setAt == Stored
    ensures IsSystemRun(longer) && run <= longer && OnlyLock(Last(run), Last(longer))
    ensures Shared(Last(longer).lock) == Init && PcOf(Last(longer).lock, 2) == Outside
  {
    hide MoveEnabled, Do;
    longer := WriterOpensGate(run);
    longer := WriterSetsEvent(longer);
    longer := WriterGivesBackMutex(longer);
  }

  lemma WriterSetsEvent(run: seq<System>) returns (longer: seq<System>)
    requires IsSystemRun(run)
    requires Shared(Last(run).lock) == Held.(writeCount := 0, writers := multiset{}) && PcOf(Last(run).lock, 2) == W94
    requires PhaseOf(Last(run), 2).Set? && PhaseOf(Last(run), 2).setAt == Stored
    ensures IsSystemRun(longer) && run <= longer && OnlyLock(Last(run), Last(longer))
    ensures Shared(Last(longer).lock) == Init.(owner := Some(2), depth := 1) && PcOf(Last(longer).lock, 2) == W97
  {
    longer := GrowSystem(run, 2, LockMove(Line(Advance)));
  }

  lemma WriterGivesBackMutex(run: seq<System>) returns (longer: seq<System>)
    requires IsSystemRun(run)
    requires Shared(Last(run).lock) == Init.(owner := Some(2), depth := 1) && PcOf(Last(run).lock, 2) == W97
    requires PhaseOf(Last(run), 2).Set? && PhaseOf(Last(run), 2).setAt == Stored
    ensures IsSystemRun(longer) && run <= longer && OnlyLock(Last(run), Last(longer))
    ensures Shared(Last(longer).lock) == Init && PcOf(Last(longer).lock, 2) == Outside
  {
    longer := GrowSystem(run, 2, LockMove(Line(Advance)));
  }

  lemma WriterOpensGate(run: seq<System>) returns (longer: seq<System>)
    requires IsSystemRun(run)
    requires Shared(Last(run).lock) == Held && PcOf(Last(run).lock, 2) == Outside
    requires PhaseOf(Last(run), 2).Set? && PhaseOf(Last(run), 2).setAt == Stored
    ensures IsSystemRun(longer) && run <= longer && OnlyLock(Last(run), Last(longer))
    ensures Shared(Last(longer).lock) == Held.(writeCount := 0, writers := multiset{})
    ensures PcOf(Last(longer).lock, 2) == W94
  {
    longer := GrowSystem(run, 2, LockMove(Line(CallUnlockWrite)));
    longer := WriterDecrements(longer);
  }

  lemma WriterDecrements(run: seq<System>) returns (longer: seq<System>)
    requires IsSystemRun(run)
    requires Shared(Last(run).lock) == Held.(writers := multiset{}) && PcOf(Last(run).lock, 2) == W91
    requires PhaseOf(Last(run), 2).Set? && PhaseOf(Last(run), 2).setAt == Stored
    ensures IsSystemRun(longer) && run <= longer && OnlyLock(Last(run), Last(longer))
    ensures Shared(Last(longer).lock) == Held.(writeCount := 0, writers := multiset{})
    ensures PcOf(Last(longer).lock, 2) == W94
  {
    longer := GrowSystem(run, 2, LockMove(Line(Advance)));
  }

  // ---------- The reader, thread 1 ----------

  /** Thread 1 begins a Get and stops before line 60. */
  lemma SlowGet(k: Key) returns (run: seq<System>)
    ensures IsSystemRun(run) && Last(run) == Start.(lock := Last(run).lock, phases := map[1 := Get(k, Find)])
    ensures Shared(Last(run).lock) == Init && PcOf(Last(run).lock, 1) == R60 && PcOf(Last(run).lock, 2) == Outside
  {
    run := [Start];
    run := GrowSystem(run, 1, Begin(Get(k, Find)));
    run := GrowSystem(run, 1, LockMove(Line(CallLockRead)));
    run := GrowSystem(run, 1, LockMove(Line(Advance)));
  }

  /** Thread 1 finishes its LockRead beside the writer. */
  lemma ReaderEnters(run: seq<System>, k: Key) returns (longer: seq<System>)
    requires IsSystemRun(run) && PhaseOf(Last(run), 1) == Get(k, Find)
    requires Shared(Last(run).lock) == Held && PcOf(Last(run).lock, 1) == R60 && PcOf(Last(run).lock, 2) == Outside
    ensures IsSystemRun(longer) && run <= longer && Last(longer) == Last(run).(lock := Last(longer).lock)
    ensures var l := Last(longer).lock;
            && Shared(l) == Held.(readCount := 1, readEvent := false, readers := multiset{1})
            && PcOf(l, 1) == Outside && PcOf(l, 2) == Outside
  {
    longer := GrowSystem(run, 1, LockMove(Line(Advance)));
    longer := GrowSystem(longer, 1, LockMove(Line(Advance)));
  }

  lemma ReaderCopiesFlags(run: seq<System>, k: Key) returns (longer: seq<System>)
    requires IsSystemRun(run) && Fits(Last(run).lock) && PhaseOf(Last(run), 1) == Get(k, Find)
    requires PcOf(Last(run).lock, 1) == Outside && 1 in Last(run).lock.readers
    requires IteratorValid(Last(run), k)
    ensures IsSystemRun(longer) && run <= longer
    ensures Last(longer) == Last(run).(phases := Last(run).phases[1 := Get(k, CopyValue(Last(run).data[k].flags))])
  {
    hide LockStep, LockEnabled;
    longer := GrowSystem(run, 1, DataMove);
    longer := GrowSystem(longer, 1, DataMove);
  }

  lemma ReaderCopiesValue(run: seq<System>, k: Key, f: Flags) returns (longer: seq<System>)
    requires IsSystemRun(run) && Fits(Last(run).lock) && PhaseOf(Last(run), 1) == Get(k, CopyValue(f))
    requires PcOf(Last(run).lock, 1) == Outside && 1 in Last(run).lock.readers
    requires IteratorValid(Last(run), k)
    ensures IsSystemRun(longer) && run <= longer
    ensures Last(longer) == Answer(Last(run), 1, k, Hit(f, Last(run).data[k].buffer.value))
  {
    hide LockStep, LockEnabled;
    longer := GrowSystem(run, 1, DataMove);
  }

  // ---------- The run ----------

  /** Thread 2 stores the first entry while thread 1 is held up before line 60. */
  lemma FirstSet(k: Key, f: Flags, v: Value) returns (run: seq<System>)
    ensures IsSystemRun(run)
    ensures var s := Last(run);
            && Shared(s.lock) == Init && PcOf(s.lock, 1) == R60 && PcOf(s.lock, 2) == Outside
            && PhaseOf(s, 1) == Get(k, Find) && PhaseOf(s, 2) == NoRequest
            && s.data == map[k := Entry(f, Some(v))] && s.log == [DidSet(k, f, v)]
  {
    hide MoveEnabled, Do;
    run := SlowGet(k);
    run := BeginSet(run, k, f, v);
    run := WriterEnters(run);
    run := WriterAssigns(run, k, f, v);
    run := WriterLeaves(run);
    run := FinishSet(run);
  }

  lemma BeginSet(run: seq<System>, k: Key, f: Flags, v: Value) returns (longer: seq<System>)
    requires IsSystemRun(run) && PhaseOf(Last(run), 2) == NoRequest
    ensures IsSystemRun(longer) && run <= longer && Last(longer) == To(Last(run), 2, Set(k, f, v, Insert))
  {
    longer := GrowSystem(run, 2, Begin(Set(k, f, v, Insert)));
  }

  lemma FinishSet(run: seq<System>) returns (longer: seq<System>)
    requires IsSystemRun(run) && Shared(Last(run).lock) == Init && PcOf(Last(run).lock, 2) == Outside
    requires PhaseOf(Last(run), 2).Set? && PhaseOf(Last(run), 2).setAt == Stored
    ensures IsSystemRun(longer) && run <= longer && Last(longer) == To(Last(run), 2, NoRequest)
  {
    longer := GrowSystem(run, 2, Finish);
  }

  /** Thread 2 is inside its second Set, and thread 1 beside it has copied the flags of the
      first. */
  lemma SecondSetStarts(k: Key, f: Flags, v: Value, f': Flags, v': Value) returns (run: seq<System>)
    ensures IsSystemRun(run)
    ensures var s := Last(run);
            && Fits(s.lock) && PcOf(s.lock, 1) == Outside && PcOf(s.lock, 2) == Outside
            && 1 in s.lock.readers && 2 in s.lock.writers
            && PhaseOf(s, 1) == Get(k, CopyValue(f)) && PhaseOf(s, 2) == Set(k, f', v', Insert)
            && s.data == map[k := Entry(f, Some(v))] && s.log == [DidSet(k, f, v)]
  {
    hide MoveEnabled, Do;
    run := FirstSet(k, f, v);
    run := BeginSet(run, k, f', v');
    run := WriterEnters(run);
    run := ReaderEnters(run, k);
    run := ReaderCopiesFlags(run, k);
  }

  /** The reply has the flags of the first Set and the value of the second. No sequential run
      gives it, so the run cannot be a guarded one. */
  lemma TornReplyRun(k: Key, f: Flags, v: Value, f': Flags, v': Value) returns (run: seq<System>)
    requires f != f' && v != v'
    ensures IsSystemRun(run) && !IsGuardedSystemRun(run)
    ensures PhaseOf(Last(run), 1) == Get(k, Replied(Hit(f, v')))
    ensures Last(run).log == [DidSet(k, f, v), DidSet(k, f', v'), DidGet(k, Hit(f, v'))] && !Sequential(Last(run).log)
  {
    hide MoveEnabled, Do, IsGuardedSystemRun, Sequential;
    run := SecondSetStarts(k, f, v, f', v');
    run := WriterAssigns(run, k, f', v');
    run := ReaderCopiesValue(run, k, f);
    assert Last(run).log == [DidSet(k, f, v), DidSet(k, f', v'), DidGet(k, Hit(f, v'))];
    NotSequential(k, f, v, f', v');
    if IsGuardedSystemRun(run) {
      GuardedIsSequential(run);
    }
  }

  lemma GuardedIsSequential(run: seq<System>)
    requires IsGuardedSystemRun(run)
    ensures Sequential(Last(run).log)
  {
    SystemRunKeepsInv(run, |run| - 1);
  }

  lemma NotSequential(k: Key, f: Flags, v: Value, f': Flags, v': Value)
    requires f != f'
    ensures !Sequential([DidSet(k, f, v), DidSet(k, f', v'), DidGet(k, Hit(f, v'))])
  {
    var log := [DidSet(k, f, v), DidSet(k, f', v'), DidGet(k, Hit(f, v'))];
    ModelStep(log[..1], log[1]);
    assert log[..2] == log[..1] + [log[1]];
    assert log[2].DidGet? && Lookup(Model(log[..2]), k) == Hit(f', v');
  }
}
