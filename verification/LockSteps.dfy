/** The reader/writer lock of ReadWriteLock.cpp as interleaved steps.

    Every source line that touches shared state is one step of one thread; any
    number of threads take part. A manual-reset event is a boolean, and waiting on it
    is a step that is enabled while the boolean is true. */
module LockSteps {
  import opened Bytes
  import opened Options

  type Thread = nat

  /** Where a thread stands: the source line it executes next. */
  datatype PC =
    | Outside
    | R58 | R60 | R62 // LockRead
    | R68 | R70 // UnlockRead
    | W77 | W80 | W82 | W85 // LockWrite
    | W91 | W94 | W97 // UnlockWrite

  datatype Action = CallLockRead | CallUnlockRead | CallLockWrite | CallUnlockWrite | Advance

  /** The shared fields, the recursive mutex as owner and depth, one program counter a
      thread, and two bookkeeping multisets: `readers` has one copy of a thread for each
      of its increments at line 60 not yet matched by a decrement at line 68, `writers` one
      for each LockWrite that has returned and whose UnlockWrite has not been called. */
  datatype State = State(
    readCount: nat,
    writeCount: nat,
    readEvent: bool,
    writeEvent: bool,
    owner: Option<Thread>,
    depth: nat,
    pcs: map<Thread, PC>,
    readers: multiset<Thread>,
    writers: multiset<Thread>)

  const Init := State(0, 0, true, true, None, 0, map[], multiset{}, multiset{})

  function PcOf(s: State, t: Thread): PC {
    if t in s.pcs then s.pcs[t] else Outside
  }

  function At(s: State, t: Thread, pc: PC): State {
    s.(pcs := s.pcs[t := pc])
  }

  /** Unsigned 32-bit increment and decrement. */
  function Inc(n: nat): nat { if n + 1 == WORD then 0 else n + 1 }

  function Dec(n: nat): nat { if n == 0 then WORD - 1 else n - 1 }

  function Add(m: multiset<Thread>, t: Thread): multiset<Thread> { m[t := m[t] + 1] }

  function Remove(m: multiset<Thread>, t: Thread): multiset<Thread> {
    if t in m then m[t := m[t] - 1] else m
  }

  predicate InLockRead(pc: PC) { pc == R58 || pc == R60 || pc == R62 }

  predicate InUnlockRead(pc: PC) { pc == R68 || pc == R70 }

  predicate InLockWrite(pc: PC) { pc == W77 || pc == W80 || pc == W82 || pc == W85 }

  predicate InUnlockWrite(pc: PC) { pc == W91 || pc == W94 || pc == W97 }

  /** A thread may call an Unlock only for a lock it holds; a started line runs unless it
      waits: for an event to be signalled, or for the recursive mutex to be free or its own. */
  predicate Enabled(s: State, t: Thread, a: Action) {
    match a
    case CallLockRead => PcOf(s, t) == Outside
    case CallUnlockRead => PcOf(s, t) == Outside && t in s.readers
    case CallLockWrite => PcOf(s, t) == Outside
    case CallUnlockWrite => PcOf(s, t) == Outside && t in s.writers
    case Advance =>
      match PcOf(s, t)
      case Outside => false
      case R58 => s.writeEvent
      case W77 => s.owner == None || s.owner == Some(t)
      case W85 => s.readEvent
      case _ => true
  }

  function LockReadLine(s: State, t: Thread): State {
    match PcOf(s, t)
    case R58 => At(s, t, R60)
    case R60 =>
      At(s, t, if s.readCount == 0 then R62 else Outside)
        .(readCount := Inc(s.readCount), readers := Add(s.readers, t))
    case _ => At(s, t, Outside).(readEvent := false)
  }

  function UnlockReadLine(s: State, t: Thread): State {
    match PcOf(s, t)
    case R68 =>
      At(s, t, if Dec(s.readCount) == 0 then R70 else Outside)
        .(readCount := Dec(s.readCount), readers := Remove(s.readers, t))
    case _ => At(s, t, Outside).(readEvent := true)
  }

  function LockWriteLine(s: State, t: Thread): State {
    match PcOf(s, t)
    case W77 => At(s, t, W80).(owner := Some(t), depth := s.depth + 1)
    case W80 => At(s, t, W82).(writeEvent := false)
    case W82 =>
      if s.writeCount == 0 then At(s, t, W85).(writeCount := Inc(s.writeCount))
      else At(s, t, Outside).(writeCount := Inc(s.writeCount), writers := Add(s.writers, t))
    case _ => At(s, t, Outside).(writers := Add(s.writers, t))
  }

  function UnlockWriteLine(s: State, t: Thread): State {
    match PcOf(s, t)
    case W91 =>
      At(s, t, if Dec(s.writeCount) == 0 then W94 else W97).(writeCount := Dec(s.writeCount))
    case W94 => At(s, t, W97).(writeEvent := true)
    case _ =>
      if s.depth <= 1 then At(s, t, Outside).(owner := None, depth := 0)
      else At(s, t, Outside).(depth := s.depth - 1)
  }

  /** Thread t makes a call, or executes the line it stands at. */
  function Step(s: State, t: Thread, a: Action): State
    requires Enabled(s, t, a)
  {
    match a
    case CallLockRead => At(s, t, R58)
    case CallUnlockRead => At(s, t, R68)
    case CallLockWrite => At(s, t, W77)
    case CallUnlockWrite => At(s, t, W91).(writers := Remove(s.writers, t))
    case Advance =>
      var pc := PcOf(s, t);
      if InLockRead(pc) then LockReadLine(s, t)
      else if InUnlockRead(pc) then UnlockReadLine(s, t)
      else if InLockWrite(pc) then LockWriteLine(s, t)
      else UnlockWriteLine(s, t)
  }

  /** A step moves one thread, and takes and releases for that thread only. */
  lemma StepFrame(s: State, t: Thread, a: Action, u: Thread)
    requires Enabled(s, t, a) && u != t
    ensures SameFor(s, Step(s, t, a), u)
  {
    hide SameFor, LockReadLine, UnlockReadLine, LockWriteLine, UnlockWriteLine;
    CallFrame(s, t, a, u);
    LockReadFrame(s, t, u);
    UnlockReadFrame(s, t, u);
    LockWriteFrame(s, t, u);
    UnlockWriteFrame(s, t, u);
  }

  /** Nothing has changed for thread u. */
  predicate SameFor(s: State, s': State, u: Thread) {
    PcOf(s', u) == PcOf(s, u) && s'.readers[u] == s.readers[u] && s'.writers[u] == s.writers[u]
  }

  lemma CallFrame(s: State, t: Thread, a: Action, u: Thread)
    requires Enabled(s, t, a) && u != t
    ensures a != Advance ==> SameFor(s, Step(s, t, a), u)
  {
  }

  lemma LockReadFrame(s: State, t: Thread, u: Thread)
    requires u != t
    ensures SameFor(s, LockReadLine(s, t), u)
  {
  }

  lemma UnlockReadFrame(s: State, t: Thread, u: Thread)
    requires u != t
    ensures SameFor(s, UnlockReadLine(s, t), u)
  {
  }

  lemma LockWriteFrame(s: State, t: Thread, u: Thread)
    requires u != t
    ensures SameFor(s, LockWriteLine(s, t), u)
  {
  }

  lemma UnlockWriteFrame(s: State, t: Thread, u: Thread)
    requires u != t
    ensures SameFor(s, UnlockWriteLine(s, t), u)
  {
  }

  /** The counters are 32 bits wide; a state fits when fewer than 2^32 holds are open. */
  predicate Fits(s: State) {
    |s.readers| < WORD && s.depth < WORD
  }

  ghost predicate Next(s: State, s': State) {
    exists t: Thread, a: Action :: Enabled(s, t, a) && s' == Step(s, t, a)
  }

  ghost predicate IsPath(path: seq<State>) {
    && |path| > 0
    && (forall i | 0 <= i < |path| :: Fits(path[i]))
    && (forall i | 0 <= i < |path| - 1 :: Next(path[i], path[i + 1]))
  }

  ghost predicate IsRun(run: seq<State>) {
    IsPath(run) && run[0] == Init
  }

  lemma ExtendPath(s: State, t: Thread, a: Action, rest: seq<State>)
    requires Fits(s) && Enabled(s, t, a)
    requires IsPath(rest) && rest[0] == Step(s, t, a)
    ensures IsPath([s] + rest)
  {
    var path := [s] + rest;
    assert Next(s, rest[0]);
    forall i | 0 <= i < |path| - 1
      ensures Next(path[i], path[i + 1])
    {
      if i > 0 {
        assert Next(rest[i - 1], rest[i]);
      }
    }
  }

  /** Thread t makes the next step of a run. */
  lemma GrowRun(run: seq<State>, t: Thread, a: Action) returns (longer: seq<State>)
    requires IsRun(run) && Enabled(run[|run| - 1], t, a) && Fits(Step(run[|run| - 1], t, a))
    ensures IsRun(longer) && longer[|longer| - 1] == Step(run[|run| - 1], t, a)
  {
    longer := run + [Step(run[|run| - 1], t, a)];
    assert Next(run[|run| - 1], longer[|run|]);
    forall i | 0 <= i < |longer| - 1
      ensures Next(longer[i], longer[i + 1])
    {
      if i < |run| - 1 {
        assert Next(run[i], run[i + 1]);
      }
    }
  }
}
