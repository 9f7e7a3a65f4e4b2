/** Exclusion between readers and writers. With LockRead and UnlockRead each taken as one
    step it holds in every run. With every line a step of its own it can fail; the module
    shows a run in which it does and says exactly when a writer that passes line 85 can come to
    share the lock with a reader. */
module LockExclusion {
  import opened Bytes
  import opened Options
  import opened LockSteps
  import opened LockInvariant

  datatype BlockAction = ReadBlock | UnreadBlock | WriteLine(a: Action)

  predicate ReadPc(pc: PC) {
    InLockRead(pc) || InUnlockRead(pc)
  }

  predicate BlockEnabled(s: State, t: Thread, b: BlockAction) {
    match b
    case ReadBlock => PcOf(s, t) == Outside && s.writeEvent
    case UnreadBlock => PcOf(s, t) == Outside && t in s.readers
    case WriteLine(a) =>
      Enabled(s, t, a) && a != CallLockRead && a != CallUnlockRead && !ReadPc(PcOf(s, t))
  }

  /** Lines 58 to 62, run without interruption. */
  function LockReadBlock(s: State, t: Thread): State {
    var counted := LockReadLine(At(s, t, R60), t);
    if PcOf(counted, t) == R62 then LockReadLine(counted, t) else counted
  }

  /** Lines 68 to 70, run without interruption. */
  function UnlockReadBlock(s: State, t: Thread): State {
    var counted := UnlockReadLine(At(s, t, R68), t);
    if PcOf(counted, t) == R70 then UnlockReadLine(counted, t) else counted
  }

  function BlockStep(s: State, t: Thread, b: BlockAction): State
    requires BlockEnabled(s, t, b)
  {
    match b
    case ReadBlock => LockReadBlock(s, t)
    case UnreadBlock => UnlockReadBlock(s, t)
    case WriteLine(a) => Step(s, t, a)
  }

  ghost predicate NextBlock(s: State, s': State) {
    exists t: Thread, b: BlockAction :: BlockEnabled(s, t, b) && s' == BlockStep(s, t, b)
  }

  ghost predicate IsBlockRun(run: seq<State>) {
    && |run| > 0 && run[0] == Init
    && (forall i | 0 <= i < |run| :: Fits(run[i]))
    && (forall i | 0 <= i < |run| - 1 :: NextBlock(run[i], run[i + 1]))
  }

  /** A writer is past line 85 and has not yet set the write event at line 94. */
  predicate WriterInside(s: State) {
    || s.writers != multiset{}
    || (s.owner.Some? && (PcOf(s, s.owner.value) == W91 || PcOf(s, s.owner.value) == W94))
  }

  /** What block runs keep beyond the invariant of all runs. */
  ghost predicate BlockExtra(s: State) {
    && (forall t: Thread :: !ReadPc(PcOf(s, t)))
    && (s.readEvent <==> s.readCount == 0)
    && (WriterInside(s) ==> s.readers == multiset{})
  }

  ghost predicate BlockInv(s: State) {
    Inv(s) && BlockExtra(s)
  }

  // ---------- Block runs are runs of the lock ----------

  lemma LockReadBlockIsPath(s: State, t: Thread) returns (path: seq<State>)
    requires Fits(s) && BlockEnabled(s, t, ReadBlock) && Fits(LockReadBlock(s, t))
    ensures IsPath(path) && path[0] == s && path[|path| - 1] == LockReadBlock(s, t)
  {
    var called := At(s, t, R58);
    var passed := At(s, t, R60);
    assert passed == LockReadLine(called, t);
    var counted := LockReadLine(passed, t);
    path := [LockReadBlock(s, t)];
    if PcOf(counted, t) == R62 {
      ExtendPath(counted, t, Advance, path);
      path := [counted] + path;
    }
    ExtendPath(passed, t, Advance, path);
    path := [passed] + path;
    ExtendPath(called, t, Advance, path);
    path := [called] + path;
    ExtendPath(s, t, CallLockRead, path);
    path := [s] + path;
  }

  lemma UnlockReadBlockIsPath(s: State, t: Thread) returns (path: seq<State>)
    requires Fits(s) && BlockEnabled(s, t, UnreadBlock)
    ensures IsPath(path) && path[0] == s && path[|path| - 1] == UnlockReadBlock(s, t)
  {
    var called := At(s, t, R68);
    var counted := UnlockReadLine(called, t);
    path := [UnlockReadBlock(s, t)];
    if PcOf(counted, t) == R70 {
      ExtendPath(counted, t, Advance, path);
      path := [counted] + path;
    }
    ExtendPath(called, t, Advance, path);
    path := [called] + path;
    ExtendPath(s, t, CallUnlockRead, path);
    path := [s] + path;
  }

  /** A block is the fine-grained lines in a row. */
  lemma BlockIsPath(s: State, t: Thread, b: BlockAction) returns (path: seq<State>)
    requires Fits(s) && BlockEnabled(s, t, b) && Fits(BlockStep(s, t, b))
    ensures IsPath(path) && path[0] == s && path[|path| - 1] == BlockStep(s, t, b)
  {
    match b
    case WriteLine(a) =>
      ExtendPath(s, t, a, [Step(s, t, a)]);
      path := [s] + [Step(s, t, a)];
    case ReadBlock => path := LockReadBlockIsPath(s, t);
    case UnreadBlock => path := UnlockReadBlockIsPath(s, t);
  }

  // ---------- Exclusion in every block run ----------

  lemma ReadBlockKeepsExtra(s: State, t: Thread)
    requires BlockExtra(s) && MutexInv(s) && !GateShut(s) && PcOf(s, t) == Outside
            && |LockReadBlock(s, t).readers| < WORD
    requires s.readCount == |s.readers|
    ensures BlockExtra(LockReadBlock(s, t))
  {
    var s' := LockReadBlock(s, t);
    assert forall u: Thread | u != t :: PcOf(s', u) == PcOf(s, u);
    assert PcOf(s', t) == Outside;
    if w :| w in s.writers {
      HeldWriteShutsGate(s, w);
    }
  }

  lemma UnreadBlockKeepsExtra(s: State, t: Thread)
    requires BlockExtra(s) && PcOf(s, t) == Outside && t in s.readers
    requires s.readCount == |s.readers|
    ensures BlockExtra(UnlockReadBlock(s, t))
  {
    var s' := UnlockReadBlock(s, t);
    assert forall u: Thread | u != t :: PcOf(s', u) == PcOf(s, u);
  }

  /** A write-side step keeps it if it lets a writer in only where there is no reader. */
  lemma WriteSideKeepsExtra(s: State, s': State, t: Thread)
    requires BlockExtra(s)
    requires s'.readCount == s.readCount && s'.readEvent == s.readEvent && s'.readers == s.readers
    requires forall u: Thread | u != t :: PcOf(s', u) == PcOf(s, u)
    requires !ReadPc(PcOf(s', t))
    requires WriterInside(s') ==> WriterInside(s) || s.readers == multiset{}
    ensures BlockExtra(s')
  {
    forall u: Thread
      ensures !ReadPc(PcOf(s', u))
    {
      assert !ReadPc(PcOf(s, u));
    }
  }

  lemma WriteCallEntersClean(s: State, t: Thread, a: Action)
    requires MutexInv(s) && (a == CallLockWrite || a == CallUnlockWrite) && Enabled(s, t, a)
    ensures WriterInside(Step(s, t, a)) ==> WriterInside(s)
  {
  }

  lemma LockWriteEntersClean(s: State, t: Thread)
    requires CountersInv(s) && MutexInv(s) && InLockWrite(PcOf(s, t)) && Enabled(s, t, Advance)
    requires s.readEvent ==> s.readCount == 0
    ensures WriterInside(LockWriteLine(s, t)) ==> WriterInside(s) || s.readers == multiset{}
  {
  }

  lemma UnlockWriteEntersClean(s: State, t: Thread)
    requires MutexInv(s) && InUnlockWrite(PcOf(s, t))
    ensures WriterInside(UnlockWriteLine(s, t)) ==> WriterInside(s)
  {
  }

  lemma LockWriteKeepsExtra(s: State, t: Thread)
    requires BlockInv(s) && InLockWrite(PcOf(s, t)) && Enabled(s, t, Advance)
    ensures BlockExtra(LockWriteLine(s, t))
  {
    hide WriterInside, MutexInv;
    LockWriteEntersClean(s, t);
    WriteSideKeepsExtra(s, LockWriteLine(s, t), t);
  }

  lemma UnlockWriteKeepsExtra(s: State, t: Thread)
    requires BlockInv(s) && InUnlockWrite(PcOf(s, t))
    ensures BlockExtra(UnlockWriteLine(s, t))
  {
    hide WriterInside, MutexInv;
    UnlockWriteEntersClean(s, t);
    WriteSideKeepsExtra(s, UnlockWriteLine(s, t), t);
  }

  lemma BlockKeepsExtra(s: State, t: Thread, b: BlockAction)
    requires BlockInv(s) && BlockEnabled(s, t, b) && Fits(BlockStep(s, t, b))
    ensures BlockExtra(BlockStep(s, t, b))
  {
    if b == ReadBlock {
      ReadBlockKeepsExtra(s, t);
    } else if b == UnreadBlock {
      UnreadBlockKeepsExtra(s, t);
    } else if b.a == Advance && InLockWrite(PcOf(s, t)) {
      LockWriteKeepsExtra(s, t);
    } else if b.a == Advance {
      UnlockWriteKeepsExtra(s, t);
    } else {
      WriteCallEntersClean(s, t, b.a);
      WriteSideKeepsExtra(s, Step(s, t, b.a), t);
    }
  }

  lemma BlockKeepsInv(s: State, t: Thread, b: BlockAction)
    requires BlockInv(s) && Fits(s) && BlockEnabled(s, t, b) && Fits(BlockStep(s, t, b))
    ensures BlockInv(BlockStep(s, t, b))
  {
    var path := BlockIsPath(s, t, b);
    PathKeepsInv(path, |path| - 1);
    BlockKeepsExtra(s, t, b);
  }

  lemma {:induction false} BlockRunKeepsInv(run: seq<State>, i: nat)
    requires IsBlockRun(run) && i < |run|
    ensures BlockInv(run[i])
  {
    if i > 0 {
      BlockRunKeepsInv(run, i - 1);
      assert NextBlock(run[i - 1], run[i]);
      var t: Thread, b: BlockAction :| BlockEnabled(run[i - 1], t, b) && run[i] == BlockStep(run[i - 1], t, b);
      BlockKeepsInv(run[i - 1], t, b);
    }
  }

  /** A writer past line 85 is alone: no thread holds the read lock until line 94. */
  lemma Exclusion(run: seq<State>, i: nat)
    requires IsBlockRun(run) && i < |run|
    ensures !(WriterInside(run[i]) && run[i].readers != multiset{})
    ensures run[i].readEvent <==> run[i].readers == multiset{}
    ensures forall t: Thread, u: Thread :: t in run[i].writers && u in run[i].writers ==> t == u
  {
    BlockRunKeepsInv(run, i);
    if run[i].readers != multiset{} {
      var u :| u in run[i].readers;
    }
  }

  // ---------- The same question with every line a step ----------

  /** From `path[0]` on, writer w keeps its lock, and in the end there is a reader too. */
  ghost predicate OverlapPath(path: seq<State>, w: Thread) {
    && IsPath(path)
    && (forall i | 0 <= i < |path| :: w in path[i].writers)
    && path[|path| - 1].readers != multiset{}
  }

  lemma HeldWriteShutsGate(s: State, w: Thread)
    requires MutexInv(s) && w in s.writers
    ensures GateShut(s)
  {
  }

  lemma OverlapComesFromPastGate(path: seq<State>, w: Thread) returns (u: Thread)
    requires OverlapPath(path, w) && Inv(path[0])
    ensures PastGate(path[0], u)
  {
    var n := |path| - 1;
    u :| u in path[n].readers;
    forall k | 0 <= k < n
      ensures GateShut(path[k])
    {
      PathKeepsInv(path, k);
      HeldWriteShutsGate(path[k], w);
    }
    GateClosure(path, 0, n, u);
  }

  lemma PastGateOverlaps(s: State, w: Thread, u: Thread) returns (path: seq<State>)
    requires Fits(s) && |s.readers| + 1 < WORD && w in s.writers && PastGate(s, u)
    ensures OverlapPath(path, w) && path[0] == s
  {
    path := [s];
    if u !in s.readers {
      var s' := Step(s, u, Advance);
      assert u in s'.readers;
      ExtendPath(s, u, Advance, [s']);
      path := [s] + [s'];
    } else if s.readers == multiset{} {
      assert false;
    }
  }

  /** When writer w returns from the wait at line 85, the rest of its write section can be
      joined by a reader if and only if, at that moment, some thread is past the read gate.
      A thread between lines 58 and 60 is past the gate without being counted, and so is
      a counted reader whose reset a late set at line 70 has undone. */
  lemma OverlapIffSomeonePastGate(s: State, w: Thread)
    requires Inv(s) && Fits(s) && |s.readers| + 1 < WORD
    requires PcOf(s, w) == W85 && Enabled(s, w, Advance)
    ensures (exists path :: OverlapPath(path, w) && path[0] == Step(s, w, Advance))
            <==> (exists u: Thread :: PastGate(s, u))
  {
    var s' := Step(s, w, Advance);
    StepKeepsInv(s, w, Advance);
    if path :| OverlapPath(path, w) && path[0] == s' {
      var u := OverlapComesFromPastGate(path, w);
      assert PastGate(s, u);
    }
    if u: Thread :| PastGate(s, u) {
      assert PastGate(s', u);
      var path := PastGateOverlaps(s', w, u);
    }
  }

  // ---------- Exclusion with every line a step, on a condition ----------

  /** No writer passes line 85 in this step while some thread is past the read gate. */
  ghost predicate GuardedStep(s: State, s': State) {
    forall w: Thread | PcOf(s, w) == W85 && PcOf(s', w) != W85 :: NobodyPastGate(s)
  }

  ghost predicate NobodyPastGate(s: State) {
    forall u: Thread :: !PastGate(s, u)
  }

  /** A writer inside has the lock to itself. */
  ghost predicate LockSafe(s: State) {
    Inv(s) && (WriterInside(s) ==> NobodyPastGate(s))
  }

  lemma InsideShutsGate(s: State)
    requires MutexInv(s) && WriterInside(s)
    ensures GateShut(s)
  {
    if w :| w in s.writers {
      HeldWriteShutsGate(s, w);
    }
  }

  /** A writer comes inside by passing line 85 only, where the gate is shut behind it. */
  lemma ComesInsideAtWait(s: State, t: Thread, a: Action)
    requires MutexInv(s) && Enabled(s, t, a) && !WriterInside(s) && WriterInside(Step(s, t, a))
    ensures PcOf(s, t) == W85 && a == Advance && GateShut(s)
  {
    if a == CallLockWrite || a == CallUnlockWrite {
      WriteCallEntersClean(s, t, a);
    } else if a == Advance && InUnlockWrite(PcOf(s, t)) {
      UnlockWriteEntersClean(s, t);
    } else if a == Advance && InLockWrite(PcOf(s, t)) {
      LockWriteEntersAtWait(s, t);
    } else {
      ReadSideEntersClean(s, t, a);
    }
  }

  lemma LockWriteEntersAtWait(s: State, t: Thread)
    requires MutexInv(s) && InLockWrite(PcOf(s, t)) && Enabled(s, t, Advance)
    requires !WriterInside(s) && WriterInside(LockWriteLine(s, t))
    ensures PcOf(s, t) == W85 && GateShut(s)
  {
  }

  lemma ReadSideEntersClean(s: State, t: Thread, a: Action)
    requires MutexInv(s) && Enabled(s, t, a)
    requires a == CallLockRead || a == CallUnlockRead || ReadPc(PcOf(s, t))
    ensures WriterInside(Step(s, t, a)) ==> WriterInside(s)
  {
    if s.owner.Some? && s.owner.value != t {
      StepFrame(s, t, a, s.owner.value);
    }
  }

  lemma LineKeepsSafe(s: State, t: Thread, a: Action)
    requires LockSafe(s) && Enabled(s, t, a) && Fits(Step(s, t, a)) && GuardedStep(s, Step(s, t, a))
    ensures LockSafe(Step(s, t, a))
  {
    hide Step, WriterInside, PastGate, CountersInv, MutexInv, GateShut;
    var s' := Step(s, t, a);
    StepKeepsInv(s, t, a);
    if WriterInside(s') {
      if WriterInside(s) {
        InsideShutsGate(s);
      } else {
        ComesInsideAtWait(s, t, a);
        assert PcOf(s', t) != W85 by { PassesWait(s, t); }
      }
      forall u: Thread
        ensures !PastGate(s', u)
      {
        if PastGate(s', u) {
          GateStep(s, t, a, u);
        }
      }
    }
  }

  lemma PassesWait(s: State, t: Thread)
    requires PcOf(s, t) == W85 && Enabled(s, t, Advance)
    ensures PcOf(Step(s, t, Advance), t) != W85
  {
  }

  lemma ReadBlockKeepsSafe(s: State, t: Thread)
    requires LockSafe(s) && Fits(s) && BlockEnabled(s, t, ReadBlock) && Fits(LockReadBlock(s, t))
    ensures LockSafe(LockReadBlock(s, t))
  {
    var s' := LockReadBlock(s, t);
    var path := LockReadBlockIsPath(s, t);
    PathKeepsInv(path, |path| - 1);
    if WriterInside(s') {
      assert s.owner.Some? && s.owner.value != t ==> PcOf(s', s.owner.value) == PcOf(s, s.owner.value);
      InsideShutsGate(s);
    }
  }

  lemma UnreadBlockKeepsSafe(s: State, t: Thread)
    requires LockSafe(s) && Fits(s) && BlockEnabled(s, t, UnreadBlock)
    ensures LockSafe(UnlockReadBlock(s, t))
  {
    hide Inv, UnlockReadBlock, WriterInside;
    var path := UnlockReadBlockIsPath(s, t);
    PathKeepsInv(path, |path| - 1);
    assert PastGate(s, t) && !WriterInside(s);
    UnreadBlockEntersClean(s, t);
  }

  lemma UnreadBlockEntersClean(s: State, t: Thread)
    requires PcOf(s, t) == Outside
    ensures WriterInside(UnlockReadBlock(s, t)) ==> WriterInside(s)
  {
    var s' := UnlockReadBlock(s, t);
    assert s.owner.Some? && s.owner.value != t ==> PcOf(s', s.owner.value) == PcOf(s, s.owner.value);
  }

  ghost predicate IsGuardedRun(run: seq<State>) {
    IsRun(run) && forall i | 0 <= i < |run| - 1 :: GuardedStep(run[i], run[i + 1])
  }

  /** With every line a step of its own, exclusion holds in every run in which no writer passes
      line 85 while some thread is past the gate. */
  lemma {:induction false} GuardedExclusion(run: seq<State>, i: nat)
    requires IsGuardedRun(run) && i < |run|
    ensures LockSafe(run[i])
    ensures !(WriterInside(run[i]) && run[i].readers != multiset{})
  {
    if i > 0 {
      GuardedExclusion(run, i - 1);
      assert Next(run[i - 1], run[i]) && GuardedStep(run[i - 1], run[i]);
      var t: Thread, a: Action :| Enabled(run[i - 1], t, a) && run[i] == Step(run[i - 1], t, a);
      LineKeepsSafe(run[i - 1], t, a);
    }
    if run[i].readers != multiset{} {
      var u :| u in run[i].readers;
      assert PastGate(run[i], u);
    }
  }

  /** Where LockRead and UnlockRead are single steps, every step is guarded. */
  lemma BlockStepsAreGuarded(s: State, s': State)
    requires BlockInv(s) && NextBlock(s, s')
    ensures GuardedStep(s, s')
  {
    hide Inv, BlockExtra, NobodyPastGate;
    var t: Thread, b: BlockAction :| BlockEnabled(s, t, b) && s' == BlockStep(s, t, b);
    forall w: Thread | PcOf(s, w) == W85 && PcOf(s', w) != W85
      ensures NobodyPastGate(s)
    {
      if w != t {
        BlockFrame(s, t, b, w);
      }
      NobodyAtOpenWait(s);
    }
  }

  lemma NobodyAtOpenWait(s: State)
    requires BlockInv(s) && s.readEvent
    ensures NobodyPastGate(s)
  {
    forall u: Thread
      ensures !PastGate(s, u)
    {
      assert !ReadPc(PcOf(s, u)) && s.readers == multiset{};
    }
  }

  lemma BlockFrame(s: State, t: Thread, b: BlockAction, u: Thread)
    requires BlockEnabled(s, t, b) && u != t
    ensures PcOf(BlockStep(s, t, b), u) == PcOf(s, u)
  {
    if b.WriteLine? {
      StepFrame(s, t, b.a, u);
    }
  }

  lemma SlowReader() returns (run: seq<State>)
    ensures IsRun(run) && run[|run| - 1].(pcs := map[]) == Init
    ensures PcOf(run[|run| - 1], 1) == R60 && PcOf(run[|run| - 1], 2) == Outside
  {
    run := [Init];
    run := GrowRun(run, 1, CallLockRead);
    run := GrowRun(run, 1, Advance);
  }

  /** Thread 1 passes line 58, and thread 2 takes the whole write lock. */
  lemma WriterPassesSlowReader() returns (run: seq<State>)
    ensures IsRun(run)
    ensures PcOf(run[|run| - 1], 1) == R60 && run[|run| - 1].readCount == 0 && run[|run| - 1].readers == multiset{}
    ensures PcOf(run[|run| - 1], 2) == Outside && 2 in run[|run| - 1].writers && run[|run| - 1].depth == 1
  {
    run := SlowReader();
    run := GrowRun(run, 2, CallLockWrite);
    run := GrowRun(run, 2, Advance);
    run := GrowRun(run, 2, Advance);
    run := GrowRun(run, 2, Advance);
    run := GrowRun(run, 2, Advance);
  }

  /** Such a run: after that thread 1 finishes LockRead, and both hold their lock. */
  lemma ReaderAndWriterTogether() returns (run: seq<State>)
    ensures IsRun(run)
    ensures 1 in run[|run| - 1].readers && PcOf(run[|run| - 1], 1) == Outside
    ensures 2 in run[|run| - 1].writers && PcOf(run[|run| - 1], 2) == Outside
  {
    run := WriterPassesSlowReader();
    run := GrowRun(run, 1, Advance);
    run := GrowRun(run, 1, Advance);
  }
}
