/** What every interleaving of the lock's lines keeps: the counter laws, mutual exclusion
    of writers, the meaning of the two events (so that no wakeup is lost), and the closure
    of the read gate. */
module LockInvariant {
  import opened Bytes
  import opened Options
  import opened LockSteps

  /** Lines at which the thread is inside the write mutex but not (or no longer) returned
      from LockWrite. */
  predicate WritePc(pc: PC) {
    pc == W80 || pc == W82 || pc == W85 || InUnlockWrite(pc)
  }

  /** Lines between the mutex acquisition and the matching increment, or between the
      matching decrement and the mutex release. */
  predicate UncountedPc(pc: PC) {
    pc == W80 || pc == W82 || pc == W94 || pc == W97
  }

  ghost predicate CountersInv(s: State) {
    && s.readCount == |s.readers|
    && (forall t: Thread :: PcOf(s, t) == R62 || PcOf(s, t) == R68 ==> t in s.readers)
  }

  ghost predicate MutexInv(s: State) {
    && (forall t: Thread :: WritePc(PcOf(s, t)) || t in s.writers ==> s.owner == Some(t))
    && match s.owner
       case None => s.writeCount == 0 && s.depth == 0
       case Some(t) =>
         var pc := PcOf(s, t);
         && s.depth >= 1
         && s.writeCount == s.depth - (if UncountedPc(pc) then 1 else 0)
         && s.writers[t] == s.depth - (if WritePc(pc) then 1 else 0)
         && (pc == W94 || pc == W85 ==> s.depth == 1)
  }

  /** The mutex holder is between lines 80 and 94. */
  predicate GateShut(s: State) {
    && s.owner.Some?
    && !(s.depth == 1 && (PcOf(s, s.owner.value) == W80 || PcOf(s, s.owner.value) == W97))
  }

  ghost predicate SetPending(s: State) {
    exists t: Thread :: PcOf(s, t) == R70
  }

  ghost predicate EventsInv(s: State) {
    && (!s.readEvent && s.readCount == 0 ==> SetPending(s))
    && (s.writeEvent <==> !GateShut(s))
  }

  ghost predicate Inv(s: State) {
    CountersInv(s) && MutexInv(s) && EventsInv(s)
  }

  // ---------- Every step of every thread keeps the invariant ----------

  lemma SetStaysPending(s: State, s': State, t: Thread)
    requires SetPending(s) && PcOf(s, t) != R70
    requires forall u: Thread | u != t :: PcOf(s', u) == PcOf(s, u)
    ensures SetPending(s')
  {
    var u: Thread :| PcOf(s, u) == R70;
    assert PcOf(s', u) == R70;
  }

  /** Steps of the read side leave the write side alone. */
  lemma ReadSideFrame(s: State, s': State, t: Thread)
    requires MutexInv(s)
    requires s'.owner == s.owner && s'.depth == s.depth && s'.writeCount == s.writeCount && s'.writers == s.writers
    requires forall u: Thread | u != t :: PcOf(s', u) == PcOf(s, u)
    requires !WritePc(PcOf(s, t)) && !WritePc(PcOf(s', t))
    ensures MutexInv(s') && GateShut(s') == GateShut(s)
  {
    forall u: Thread | WritePc(PcOf(s', u)) || u in s'.writers
      ensures s'.owner == Some(u)
    {
      assert u != t ==> PcOf(s', u) == PcOf(s, u);
    }
  }

  /** Steps of the write side leave the read side alone. */
  lemma WriteSideFrame(s: State, s': State, t: Thread)
    requires CountersInv(s)
    requires s'.readCount == s.readCount && s'.readers == s.readers
    requires forall u: Thread | u != t :: PcOf(s', u) == PcOf(s, u)
    requires PcOf(s, t) != R70 && PcOf(s', t) != R62 && PcOf(s', t) != R68
    ensures CountersInv(s') && (SetPending(s) ==> SetPending(s'))
  {
    forall u: Thread | PcOf(s', u) == R62 || PcOf(s', u) == R68
      ensures u in s'.readers
    {
      assert PcOf(s, u) == PcOf(s', u);
    }
    if SetPending(s) {
      SetStaysPending(s, s', t);
    }
  }

  lemma ReadCallKeepsInv(s: State, t: Thread, a: Action)
    requires Inv(s) && (a == CallLockRead || a == CallUnlockRead) && Enabled(s, t, a)
    ensures Inv(Step(s, t, a))
  {
    var s' := Step(s, t, a);
    ReadSideFrame(s, s', t);
    if SetPending(s) {
      SetStaysPending(s, s', t);
    }
  }

  lemma LockReadKeepsCounters(s: State, t: Thread)
    requires CountersInv(s) && InLockRead(PcOf(s, t))
    requires |LockReadLine(s, t).readers| < WORD
    ensures CountersInv(LockReadLine(s, t))
    ensures LockReadLine(s, t).readEvent || LockReadLine(s, t).readCount > 0 || (!s.readEvent && s.readCount == 0)
  {
    var s' := LockReadLine(s, t);
    assert forall u: Thread | u != t :: PcOf(s', u) == PcOf(s, u);
  }

  lemma LockReadKeepsInv(s: State, t: Thread)
    requires Inv(s) && InLockRead(PcOf(s, t)) && Fits(LockReadLine(s, t))
    ensures Inv(LockReadLine(s, t))
  {
    var s' := LockReadLine(s, t);
    ReadSideFrame(s, s', t);
    LockReadKeepsCounters(s, t);
    if SetPending(s) {
      SetStaysPending(s, s', t);
    }
  }

  lemma UnlockReadKeepsInv(s: State, t: Thread)
    requires Inv(s) && InUnlockRead(PcOf(s, t))
    ensures Inv(UnlockReadLine(s, t))
  {
    var s' := UnlockReadLine(s, t);
    ReadSideFrame(s, s', t);
    if PcOf(s', t) == R70 {
      assert SetPending(s');
    } else if SetPending(s) && PcOf(s, t) == R68 {
      SetStaysPending(s, s', t);
    }
  }

  lemma LockWriteKeepsMutexInv(s: State, t: Thread)
    requires MutexInv(s) && (s.writeEvent <==> !GateShut(s)) && InLockWrite(PcOf(s, t)) && Enabled(s, t, Advance)
    requires Fits(LockWriteLine(s, t))
    ensures MutexInv(LockWriteLine(s, t))
    ensures LockWriteLine(s, t).writeEvent <==> !GateShut(LockWriteLine(s, t))
  {
    var s' := LockWriteLine(s, t);
    assert forall u: Thread | u != t :: PcOf(s', u) == PcOf(s, u);
  }

  lemma UnlockWriteKeepsMutexInv(s: State, t: Thread)
    requires MutexInv(s) && (s.writeEvent <==> !GateShut(s)) && InUnlockWrite(PcOf(s, t))
    ensures MutexInv(UnlockWriteLine(s, t))
    ensures UnlockWriteLine(s, t).writeEvent <==> !GateShut(UnlockWriteLine(s, t))
  {
    var s' := UnlockWriteLine(s, t);
    assert forall u: Thread | u != t :: PcOf(s', u) == PcOf(s, u);
  }

  lemma WriteCallKeepsMutexInv(s: State, t: Thread, a: Action)
    requires MutexInv(s) && (s.writeEvent <==> !GateShut(s))
    requires (a == CallLockWrite || a == CallUnlockWrite) && Enabled(s, t, a)
    ensures MutexInv(Step(s, t, a))
    ensures Step(s, t, a).writeEvent <==> !GateShut(Step(s, t, a))
  {
    var s' := Step(s, t, a);
    assert forall u: Thread | u != t :: PcOf(s', u) == PcOf(s, u);
  }

  lemma LockWriteKeepsInv(s: State, t: Thread)
    requires Inv(s) && InLockWrite(PcOf(s, t)) && Enabled(s, t, Advance) && Fits(LockWriteLine(s, t))
    ensures Inv(LockWriteLine(s, t))
  {
    hide MutexInv, CountersInv, GateShut;
    LockWriteKeepsMutexInv(s, t);
    WriteSideFrame(s, LockWriteLine(s, t), t);
  }

  lemma UnlockWriteKeepsInv(s: State, t: Thread)
    requires Inv(s) && InUnlockWrite(PcOf(s, t))
    ensures Inv(UnlockWriteLine(s, t))
  {
    hide MutexInv, CountersInv, GateShut;
    UnlockWriteKeepsMutexInv(s, t);
    WriteSideFrame(s, UnlockWriteLine(s, t), t);
  }

  lemma WriteCallKeepsInv(s: State, t: Thread, a: Action)
    requires Inv(s) && (a == CallLockWrite || a == CallUnlockWrite) && Enabled(s, t, a)
    ensures Inv(Step(s, t, a))
  {
    WriteCallKeepsMutexInv(s, t, a);
    WriteSideFrame(s, Step(s, t, a), t);
  }

  lemma StepKeepsInv(s: State, t: Thread, a: Action)
    requires Inv(s) && Enabled(s, t, a) && Fits(Step(s, t, a))
    ensures Inv(Step(s, t, a))
  {
    if a == CallLockRead || a == CallUnlockRead {
      ReadCallKeepsInv(s, t, a);
    } else if a == Advance && InLockRead(PcOf(s, t)) {
      LockReadKeepsInv(s, t);
    } else if a == Advance && InUnlockRead(PcOf(s, t)) {
      UnlockReadKeepsInv(s, t);
    } else if a == CallLockWrite || a == CallUnlockWrite {
      WriteCallKeepsInv(s, t, a);
    } else if InLockWrite(PcOf(s, t)) {
      LockWriteKeepsInv(s, t);
    } else {
      UnlockWriteKeepsInv(s, t);
    }
  }

  lemma {:induction false} PathKeepsInv(path: seq<State>, i: nat)
    requires IsPath(path) && Inv(path[0]) && i < |path|
    ensures Inv(path[i])
  {
    if i > 0 {
      PathKeepsInv(path, i - 1);
      assert Next(path[i - 1], path[i]);
      var t: Thread, a: Action :| Enabled(path[i - 1], t, a) && path[i] == Step(path[i - 1], t, a);
      StepKeepsInv(path[i - 1], t, a);
    }
  }

  // ---------- The laws, for every state of every run ----------

  /** Lines 58-98: the read counter counts the threads between their increment and their
      decrement; the write counter counts the open increments of the mutex holder; the write
      section, nested or not, has one thread. */
  lemma CounterLaws(run: seq<State>, i: nat)
    requires IsRun(run) && i < |run|
    ensures run[i].readCount == |run[i].readers|
    ensures run[i].writeCount == if run[i].owner.Some? && UncountedPc(PcOf(run[i], run[i].owner.value))
                                 then run[i].depth - 1 else run[i].depth
    ensures forall t: Thread, u: Thread ::
              && (WritePc(PcOf(run[i], t)) || t in run[i].writers)
              && (WritePc(PcOf(run[i], u)) || u in run[i].writers)
              ==> t == u
  {
    PathKeepsInv(run, i);
  }

  /** No wakeup is lost: an event that is down has someone who is bound to raise it. */
  lemma NoLostWakeup(run: seq<State>, i: nat)
    requires IsRun(run) && i < |run|
    ensures !run[i].readEvent ==> run[i].readers != multiset{} || exists t: Thread :: PcOf(run[i], t) == R70
    ensures !run[i].writeEvent <==> GateShut(run[i])
  {
    PathKeepsInv(run, i);
    assert !run[i].readEvent && run[i].readCount == 0 ==> SetPending(run[i]);
  }

  /** Past the read gate: line 58 is behind the thread and its decrement is still ahead. */
  predicate PastGate(s: State, t: Thread) {
    PcOf(s, t) == R60 || t in s.readers
  }

  lemma GateStep(s: State, t: Thread, a: Action, u: Thread)
    requires !s.writeEvent && Enabled(s, t, a) && PastGate(Step(s, t, a), u)
    ensures PastGate(s, u)
  {
    if u != t {
      hide Step;
      StepFrame(s, t, a, u);
    } else if a == Advance && InLockRead(PcOf(s, t)) {
      assert Step(s, t, a) == LockReadLine(s, t);
    }
  }

  /** While a writer is between lines 80 and 94 no thread passes line 58: whoever is past
      the gate at the end of such a stretch was past it at its start. */
  lemma {:induction false} GateClosure(path: seq<State>, i: nat, j: nat, u: Thread)
    requires IsPath(path) && Inv(path[0]) && i <= j < |path|
    requires forall k | i <= k < j :: GateShut(path[k])
    requires PastGate(path[j], u)
    ensures PastGate(path[i], u)
  {
    hide Step, Enabled, CountersInv, MutexInv, PastGate;
    if i < j {
      PathKeepsInv(path, j - 1);
      assert Next(path[j - 1], path[j]);
      var t: Thread, a: Action :| Enabled(path[j - 1], t, a) && path[j] == Step(path[j - 1], t, a);
      GateStep(path[j - 1], t, a, u);
      GateClosure(path, i, j - 1, u);
    }
  }
}
