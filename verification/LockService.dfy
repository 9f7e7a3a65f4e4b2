/** What the lock gives its callers: where exactly a call waits, and how far a caller gets by its
    own steps when it does not have to wait. */
module LockService {
  import opened Bytes
  import opened Options
  import opened LockSteps
  import opened LockInvariant
  import opened LockProgress
  import opened LockExclusion

  /** Thread u is inside a LockWrite past its mutex, holds the write lock, or is inside an
      UnlockWrite. */
  predicate InWriteSection(s: State, u: Thread) {
    WritePc(PcOf(s, u)) || u in s.writers
  }

  /** Why a started call cannot go on: the gate is shut, another thread is in the write
      section, or the read event is down. */
  ghost predicate MustWait(s: State, t: Thread) {
    match PcOf(s, t)
    case R58 => GateShut(s)
    case W77 => exists u: Thread :: u != t && InWriteSection(s, u)
    case W85 => !s.readEvent
    case _ => false
  }

  lemma OwnerIsInSection(s: State)
    requires MutexInv(s) && s.owner.Some?
    ensures InWriteSection(s, s.owner.value)
  {
  }

  /** A started call is blocked if and only if it must wait, and it waits at lines 58, 77 and 85
      only. Readers, however many, never hold up a writer at line 77. */
  lemma BlockedIff(run: seq<State>, i: nat, t: Thread)
    requires IsRun(run) && i < |run| && PcOf(run[i], t) != Outside
    ensures !Enabled(run[i], t, Advance) <==> MustWait(run[i], t)
  {
    PathKeepsInv(run, i);
    BlockedIffInv(run[i], t);
  }

  lemma BlockedIffInv(s: State, t: Thread)
    requires Inv(s) && PcOf(s, t) != Outside
    ensures !Enabled(s, t, Advance) <==> MustWait(s, t)
  {
    if PcOf(s, t) == W77 {
      if s.owner.Some? {
        OwnerIsInSection(s);
      }
      if u: Thread :| u != t && InWriteSection(s, u) {
        assert s.owner == Some(u);
      }
    }
  }

  /** Nobody is blocked before making a call: a thread outside may always start a LockRead or
      a LockWrite, and the matching Unlock of a lock it holds. */
  lemma CallsAreFree(s: State, t: Thread)
    requires PcOf(s, t) == Outside
    ensures Enabled(s, t, CallLockRead) && Enabled(s, t, CallLockWrite)
    ensures t in s.readers <==> Enabled(s, t, CallUnlockRead)
    ensures t in s.writers <==> Enabled(s, t, CallUnlockWrite)
  {
  }

  // ---------- Own steps ----------

  /** n lines in a row, all of them by thread t. */
  ghost predicate CanAdvance(s: State, t: Thread, n: nat)
    decreases n
  {
    n == 0 || (Enabled(s, t, Advance) && CanAdvance(Step(s, t, Advance), t, n - 1))
  }

  function Advanced(s: State, t: Thread, n: nat): State
    requires CanAdvance(s, t, n)
    decreases n
  {
    if n == 0 then s else Advanced(Step(s, t, Advance), t, n - 1)
  }

  lemma OneLine(s: State, t: Thread)
    requires Enabled(s, t, Advance)
    ensures CanAdvance(s, t, 1) && Advanced(s, t, 1) == Step(s, t, Advance)
  {
    hide Step, Enabled;
    assert CanAdvance(Step(s, t, Advance), t, 0);
  }

  lemma OneMoreLine(s: State, t: Thread, n: nat)
    requires Enabled(s, t, Advance) && CanAdvance(Step(s, t, Advance), t, n)
    ensures CanAdvance(s, t, n + 1) && Advanced(s, t, n + 1) == Advanced(Step(s, t, Advance), t, n)
  {
  }

  lemma EntryLines(s: State, t: Thread)
    requires PcOf(s, t) == W77 && Enabled(s, t, Advance)
    ensures var s1 := Step(s, t, Advance);
            && PcOf(s1, t) == W80 && s1.owner == Some(t) && s1.depth == s.depth + 1
            && s1.writeCount == s.writeCount && s1.writers == s.writers
  {
  }

  lemma ResetLine(s: State, t: Thread)
    requires PcOf(s, t) == W80
    ensures Enabled(s, t, Advance)
    ensures var s1 := Step(s, t, Advance);
            && s1.pcs == s.pcs[t := W82] && s1.owner == s.owner && s1.depth == s.depth && !s1.writeEvent
            && s1.writeCount == s.writeCount && s1.writers == s.writers
  {
  }

  /** With no other thread in the write section, a writer at line 77 has shut the gate after two
      lines of its own, whatever readers there are. */
  lemma WriterShutsGate(run: seq<State>, i: nat, t: Thread)
    requires IsRun(run) && i < |run| && PcOf(run[i], t) == W77
    requires forall u: Thread | u != t :: !InWriteSection(run[i], u)
    ensures CanAdvance(run[i], t, 2) && GateShut(Advanced(run[i], t, 2)) && !Advanced(run[i], t, 2).writeEvent
  {
    hide Step, Enabled, Inv;
    var s := run[i];
    PathKeepsInv(run, i);
    BlockedIffInv(s, t);
    EntryLines(s, t);
    var s1 := Step(s, t, Advance);
    ResetLine(s1, t);
    OneLine(s1, t);
    OneMoreLine(s, t, 1);
  }

  lemma GateLine(s: State, t: Thread)
    requires PcOf(s, t) == R58 && Enabled(s, t, Advance)
    ensures PcOf(Step(s, t, Advance), t) == R60 && Step(s, t, Advance).readers == s.readers
  {
  }

  lemma CountLine(s: State, t: Thread)
    requires PcOf(s, t) == R60
    ensures Enabled(s, t, Advance) && Step(s, t, Advance).readers == Add(s.readers, t)
  {
  }

  /** With the gate open, a caller of LockRead is past line 58 and counted after two lines of its
      own, whatever other readers or waiting writers there are. */
  lemma ReaderIsCounted(run: seq<State>, i: nat, t: Thread)
    requires IsRun(run) && i < |run| && PcOf(run[i], t) == R58 && !GateShut(run[i])
    ensures CanAdvance(run[i], t, 2) && Advanced(run[i], t, 2).readers == Add(run[i].readers, t)
  {
    hide Step, Enabled, Inv;
    var s := run[i];
    PathKeepsInv(run, i);
    BlockedIffInv(s, t);
    GateLine(s, t);
    var s1 := Step(s, t, Advance);
    CountLine(s1, t);
    OneLine(s1, t);
    OneMoreLine(s, t, 1);
  }

  lemma WaitLine(s: State, t: Thread)
    requires PcOf(s, t) == W85 && s.readEvent
    ensures Enabled(s, t, Advance) && Step(s, t, Advance).writers == Add(s.writers, t)
  {
  }

  /** A writer at its wait gets the lock by its next line as soon as no reader is counted and
      none is about to set the read event. */
  lemma WriterGetsLock(run: seq<State>, i: nat, t: Thread)
    requires IsRun(run) && i < |run| && PcOf(run[i], t) == W85
    requires run[i].readers == multiset{} && forall u: Thread :: PcOf(run[i], u) != R70
    ensures CanAdvance(run[i], t, 1) && Advanced(run[i], t, 1).writers == Add(run[i].writers, t)
  {
    hide Step, Enabled;
    NoLostWakeup(run, i);
    WaitLine(run[i], t);
    OneLine(run[i], t);
  }

  lemma NestedLine(s: State, t: Thread)
    requires PcOf(s, t) == W82 && s.writeCount > 0
    ensures Enabled(s, t, Advance) && Step(s, t, Advance).writers == Add(s.writers, t)
  {
  }

  lemma NestedEntry(s: State, t: Thread)
    requires Inv(s) && PcOf(s, t) == W77 && t in s.writers
    ensures Enabled(s, t, Advance) && s.writeCount > 0
  {
  }

  /** A thread that holds the write lock and locks it again has it after three lines. */
  lemma WriterNests(run: seq<State>, i: nat, t: Thread)
    requires IsRun(run) && i < |run| && PcOf(run[i], t) == W77 && t in run[i].writers
    ensures CanAdvance(run[i], t, 3) && Advanced(run[i], t, 3).writers == Add(run[i].writers, t)
  {
    hide Step, Enabled, Inv;
    var s := run[i];
    PathKeepsInv(run, i);
    NestedEntry(s, t);
    EntryLines(s, t);
    var s1 := Step(s, t, Advance);
    ResetLine(s1, t);
    var s2 := Step(s1, t, Advance);
    NestedLine(s2, t);
    OneLine(s2, t);
    OneMoreLine(s1, t, 1);
    OneMoreLine(s, t, 2);
  }

  lemma UncountLine(s: State, t: Thread)
    requires PcOf(s, t) == R68
    ensures Enabled(s, t, Advance)
    ensures var s1 := Step(s, t, Advance);
            (PcOf(s1, t) == Outside || PcOf(s1, t) == R70) && s1.readers == Remove(s.readers, t)
  {
  }

  lemma SetLine(s: State, t: Thread)
    requires PcOf(s, t) == R70
    ensures Enabled(s, t, Advance)
    ensures PcOf(Step(s, t, Advance), t) == Outside && Step(s, t, Advance).readers == s.readers
  {
  }

  /** UnlockRead never waits: two lines at most, and one hold of the caller is gone. */
  lemma ReaderLeaves(s: State, t: Thread) returns (n: nat)
    requires PcOf(s, t) == R68
    ensures n <= 2 && CanAdvance(s, t, n)
    ensures PcOf(Advanced(s, t, n), t) == Outside && Advanced(s, t, n).readers == Remove(s.readers, t)
  {
    hide Step, Enabled, Remove;
    UncountLine(s, t);
    var s1 := Step(s, t, Advance);
    n := 1;
    OneLine(s, t);
    if PcOf(s1, t) == R70 {
      SetLine(s1, t);
      OneLine(s1, t);
      OneMoreLine(s, t, 1);
      n := 2;
    }
  }

  lemma DecrementLine(s: State, t: Thread)
    requires Inv(s) && PcOf(s, t) == W91
    ensures Enabled(s, t, Advance) && s.depth >= 1 && !s.writeEvent
    ensures var s1 := Step(s, t, Advance);
            && PcOf(s1, t) == (if s.depth == 1 then W94 else W97)
            && s1.depth == s.depth && s1.writeEvent == s.writeEvent
  {
  }

  lemma OpenLine(s: State, t: Thread)
    requires PcOf(s, t) == W94
    ensures Enabled(s, t, Advance)
    ensures var s1 := Step(s, t, Advance);
            PcOf(s1, t) == W97 && s1.depth == s.depth && s1.writeEvent
  {
  }

  lemma GiveBackLine(s: State, t: Thread)
    requires PcOf(s, t) == W97 && s.depth >= 1
    ensures Enabled(s, t, Advance)
    ensures var s1 := Step(s, t, Advance);
            PcOf(s1, t) == Outside && s1.depth == s.depth - 1 && s1.writeEvent == s.writeEvent
  {
  }

  /** UnlockWrite never waits: three lines at most, and one level of the mutex is given back;
      the gate opens with the outermost level, and only then. */
  lemma WriterLeaves(run: seq<State>, i: nat, t: Thread) returns (n: nat)
    requires IsRun(run) && i < |run| && PcOf(run[i], t) == W91
    ensures n <= 3 && CanAdvance(run[i], t, n) && PcOf(Advanced(run[i], t, n), t) == Outside
    ensures Advanced(run[i], t, n).depth == run[i].depth - 1
    ensures Advanced(run[i], t, n).writeEvent <==> run[i].depth == 1
  {
    hide Step, Enabled, Inv;
    var s := run[i];
    PathKeepsInv(run, i);
    DecrementLine(s, t);
    var s1 := Step(s, t, Advance);
    if s.depth == 1 {
      OpenLine(s1, t);
      var s2 := Step(s1, t, Advance);
      GiveBackLine(s2, t);
      OneLine(s2, t);
      OneMoreLine(s1, t, 1);
      OneMoreLine(s, t, 2);
      n := 3;
    } else {
      GiveBackLine(s1, t);
      OneLine(s1, t);
      OneMoreLine(s, t, 1);
      n := 2;
    }
  }

  // ---------- Readers share, writers nest ----------

  lemma GrowDisciplined(run: seq<State>, t: Thread, a: Action) returns (longer: seq<State>)
    requires IsDisciplinedRun(run) && Enabled(run[|run| - 1], t, a) && Allowed(run[|run| - 1], t, a)
    requires Fits(Step(run[|run| - 1], t, a))
    ensures IsDisciplinedRun(longer) && longer[|longer| - 1] == Step(run[|run| - 1], t, a)
  {
    longer := run + [Step(run[|run| - 1], t, a)];
    assert NextDisciplined(run[|run| - 1], longer[|run|]);
    forall i | 0 <= i < |longer| - 1
      ensures NextDisciplined(longer[i], longer[i + 1])
    {
      if i < |run| - 1 {
        assert NextDisciplined(run[i], run[i + 1]);
      }
    }
  }

  /** The gate is open, nobody writes, and nobody is inside a call. */
  ghost predicate NoCalls(s: State) {
    s.writeEvent && s.owner == None && s.writers == multiset{} && forall u: Thread :: PcOf(s, u) == Outside
  }

  /** Any number of threads below 2^32 can hold the read lock at once: readers do not block
      readers. */
  lemma {:induction false} ReadersShare(n: nat) returns (run: seq<State>)
    requires n < 0x1_0000_0000
    ensures IsDisciplinedRun(run)
    ensures var s := run[|run| - 1];
            && NoCalls(s) && |s.readers| == n
            && forall u: Thread :: s.readers[u] == if u < n then 1 else 0
  {
    if n == 0 {
      run := [Init];
    } else {
      run := ReadersShare(n - 1);
      run := OneMoreReader(run, n - 1);
    }
  }

  lemma OneMoreReader(run: seq<State>, t: Thread) returns (longer: seq<State>)
    requires IsDisciplinedRun(run) && NoCalls(run[|run| - 1]) && |run[|run| - 1].readers| + 1 < WORD
    requires t !in run[|run| - 1].readers
    ensures IsDisciplinedRun(longer) && NoCalls(longer[|longer| - 1])
    ensures longer[|longer| - 1].readers == Add(run[|run| - 1].readers, t)
  {
    longer := GrowDisciplined(run, t, CallLockRead);
    longer := GrowDisciplined(longer, t, Advance);
    longer := GrowDisciplined(longer, t, Advance);
    if PcOf(longer[|longer| - 1], t) == R62 {
      longer := GrowDisciplined(longer, t, Advance);
    }
    var s, s' := run[|run| - 1], longer[|longer| - 1];
    assert forall u: Thread :: PcOf(s', u) == if u == t then Outside else PcOf(s, u);
  }

  /** A thread can nest its write lock to any depth below 2^32. */
  lemma {:induction false} WritersNest(n: nat) returns (run: seq<State>)
    requires 1 <= n < 0x1_0000_0000
    ensures IsDisciplinedRun(run)
    ensures var s := run[|run| - 1];
            && s.owner == Some(0) && s.depth == n && s.writeCount == n && s.writers == multiset{}[0 := n]
            && s.readers == multiset{} && PcOf(s, 0) == Outside
  {
    if n == 1 {
      run := FirstWriter();
    } else {
      run := WritersNest(n - 1);
      run := OneMoreLevel(run);
    }
  }

  lemma FirstWriterWaits() returns (run: seq<State>)
    ensures IsDisciplinedRun(run)
    ensures var s := run[|run| - 1];
            && s.owner == Some(0) && s.depth == 1 && s.writeCount == 0 && s.writers == multiset{}
            && s.readers == multiset{} && PcOf(s, 0) == W80 && s.readEvent
  {
    run := [Init];
    run := GrowDisciplined(run, 0, CallLockWrite);
    run := GrowDisciplined(run, 0, Advance);
  }

  lemma FirstWriter() returns (run: seq<State>)
    ensures IsDisciplinedRun(run)
    ensures var s := run[|run| - 1];
            && s.owner == Some(0) && s.depth == 1 && s.writeCount == 1 && s.writers == multiset{}[0 := 1]
            && s.readers == multiset{} && PcOf(s, 0) == Outside
  {
    run := FirstWriterWaits();
    run := GrowDisciplined(run, 0, Advance);
    run := GrowDisciplined(run, 0, Advance);
    run := GrowDisciplined(run, 0, Advance);
  }

  lemma OneMoreLevel(run: seq<State>) returns (longer: seq<State>)
    requires IsDisciplinedRun(run)
    requires var s := run[|run| - 1];
             && s.owner == Some(0) && 1 <= s.depth == s.writeCount < WORD - 1 && s.writers == multiset{}[0 := s.depth]
             && s.readers == multiset{} && PcOf(s, 0) == Outside
    ensures IsDisciplinedRun(longer)
    ensures var s, s' := run[|run| - 1], longer[|longer| - 1];
            && s'.owner == Some(0) && s'.depth == s.depth + 1 && s'.writeCount == s.writeCount + 1
            && s'.writers == multiset{}[0 := s.depth + 1] && s'.readers == multiset{} && PcOf(s', 0) == Outside
  {
    longer := GrowDisciplined(run, 0, CallLockWrite);
    longer := GrowDisciplined(longer, 0, Advance);
    longer := GrowDisciplined(longer, 0, Advance);
    longer := GrowDisciplined(longer, 0, Advance);
  }
}
