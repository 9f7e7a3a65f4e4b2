/** The server's Get, Set and Clear handlers run by any number of connection threads, split
    into small steps under the reader/writer lock: a Get finds the entry, copies its flags
    and then its value; a Set inserts the key, assigns the flags and then the buffer.

    Lock steps are single source lines, or whole LockRead and UnlockRead calls; a run may mix
    both. What is proved about runs holds for guarded ones: no writer passes line 85 of
    ReadWriteLock.cpp while some thread is past the read gate. Runs in which LockRead and
    UnlockRead are always single steps are guarded; an unguarded run that tears a reply is
    given in TornReply. */
module CacheProtocol {
  import opened Bytes
  import opened Options
  import opened LockSteps
  import opened LockInvariant
  import opened LockProgress
  import opened LockExclusion
  import opened LockService

  type Key = seq<byte>
  type Value = seq<byte>
  type Flags = u32

  /** DataEntry of MemcacheServer.h; the shared buffer pointer may be null. */
  datatype Entry = Entry(flags: Flags, buffer: Option<Value>)

  datatype Reply = Hit(flags: Flags, value: Value) | KeyNotFound | NotStored

  datatype GetPoint = Find | CopyFlags | CopyValue(flags: Flags) | Replied(reply: Reply)

  datatype SetPoint = Insert | AssignFlags | AssignBuffer | Stored

  /** What a thread's handler is about to do next. */
  datatype Phase =
    | NoRequest
    | Get(key: Key, getAt: GetPoint)
    | Set(key: Key, flags: Flags, value: Value, setAt: SetPoint)
    | Clear(cleared: bool)

  /** One handler taking effect. */
  datatype Event =
    | DidGet(key: Key, reply: Reply)
    | DidSet(key: Key, flags: Flags, value: Value)
    | DidClear

  /** `log` lists the effects in the order in which they happen, `actors` the threads whose
      handlers they are. */
  datatype System = System(
    lock: State,
    phases: map<Thread, Phase>,
    data: map<Key, Entry>,
    log: seq<Event>,
    actors: seq<Thread>)

  const Start := System(Init, map[], map[], [], [])

  function PhaseOf(s: System, t: Thread): Phase {
    if t in s.phases then s.phases[t] else NoRequest
  }

  function To(s: System, t: Thread, p: Phase): System {
    s.(phases := s.phases[t := p])
  }

  // ---------- The plain map the cache must agree with ----------

  function Effect(m: map<Key, (Flags, Value)>, e: Event): map<Key, (Flags, Value)> {
    match e
    case DidGet(_, _) => m
    case DidSet(k, f, v) => m[k := (f, v)]
    case DidClear => map[]
  }

  function Model(log: seq<Event>): map<Key, (Flags, Value)> {
    if log == [] then map[] else Effect(Model(log[..|log| - 1]), log[|log| - 1])
  }

  function Lookup(m: map<Key, (Flags, Value)>, k: Key): Reply {
    if k in m then Hit(m[k].0, m[k].1) else KeyNotFound
  }

  /** Every Get in the log answers from the plain map left by the events before it. */
  ghost predicate Sequential(log: seq<Event>) {
    forall i | 0 <= i < |log| && log[i].DidGet? :: log[i].reply == Lookup(Model(log[..i]), log[i].key)
  }

  // ---------- Steps ----------

  /** One line of the lock's code, or all lines of a LockRead or UnlockRead in one step. */
  datatype LockAction = Line(a: Action) | WholeLockRead | WholeUnlockRead

  predicate LockEnabled(l: State, t: Thread, b: LockAction) {
    match b
    case Line(a) => Enabled(l, t, a)
    case WholeLockRead => BlockEnabled(l, t, ReadBlock)
    case WholeUnlockRead => BlockEnabled(l, t, UnreadBlock)
  }

  function LockStep(l: State, t: Thread, b: LockAction): State
    requires LockEnabled(l, t, b)
  {
    match b
    case Line(a) => Step(l, t, a)
    case WholeLockRead => LockReadBlock(l, t)
    case WholeUnlockRead => UnlockReadBlock(l, t)
  }

  datatype Move = Begin(request: Phase) | LockMove(action: LockAction) | DataMove | Finish

  predicate IsRequest(p: Phase) {
    || (p.Get? && p.getAt == Find)
    || (p.Set? && p.setAt == Insert)
    || (p.Clear? && !p.cleared)
  }

  /** Where each handler takes and gives back its lock. */
  predicate LockMoveAllowed(s: System, t: Thread, b: LockAction) {
    match PhaseOf(s, t)
    case NoRequest => false
    case Get(_, at) =>
      || (at == Find && (t in s.lock.readers ==> PcOf(s.lock, t) != Outside)
          && (b == WholeLockRead || b == Line(CallLockRead) || b == Line(Advance)))
      || (at.Replied? && (b == WholeUnlockRead || b == Line(CallUnlockRead) || b == Line(Advance)))
    case Set(_, _, _, at) =>
      || (at == Insert && t !in s.lock.writers && (b == Line(CallLockWrite) || b == Line(Advance)))
      || (at == Stored && (b == Line(CallUnlockWrite) || b == Line(Advance)))
    case Clear(cleared) =>
      || (!cleared && t !in s.lock.writers && (b == Line(CallLockWrite) || b == Line(Advance)))
      || (cleared && (b == Line(CallUnlockWrite) || b == Line(Advance)))
  }

  /** The map iterator a Get works with still refers to an entry. */
  predicate IteratorValid(s: System, k: Key) {
    k in s.data && s.data[k].buffer.Some?
  }

  /** The handler is between its lock and its unlock. */
  predicate InSection(s: System, t: Thread) {
    && PcOf(s.lock, t) == Outside
    && match PhaseOf(s, t)
       case NoRequest => false
       case Get(_, at) => t in s.lock.readers && !at.Replied?
       case Set(_, _, _, at) => t in s.lock.writers && at != Stored
       case Clear(cleared) => t in s.lock.writers && !cleared
  }

  predicate MoveEnabled(s: System, t: Thread, m: Move) {
    match m
    case Begin(p) => PhaseOf(s, t) == NoRequest && IsRequest(p)
    case LockMove(b) => LockEnabled(s.lock, t, b) && LockMoveAllowed(s, t, b)
    case DataMove =>
      && InSection(s, t)
      && (PhaseOf(s, t).Get? && PhaseOf(s, t).getAt != Find ==> IteratorValid(s, PhaseOf(s, t).key))
      && (PhaseOf(s, t).Set? && PhaseOf(s, t).setAt != Insert ==> PhaseOf(s, t).key in s.data)
    case Finish =>
      && PcOf(s.lock, t) == Outside
      && match PhaseOf(s, t)
         case NoRequest => false
         case Get(_, at) => at.Replied? && t !in s.lock.readers
         case Set(_, _, _, at) => at == Stored && t !in s.lock.writers
         case Clear(cleared) => cleared && t !in s.lock.writers
  }

  function Answer(s: System, t: Thread, k: Key, r: Reply): System {
    To(s, t, Get(k, Replied(r))).(log := s.log + [DidGet(k, r)], actors := s.actors + [t])
  }

  function GetMove(s: System, t: Thread, k: Key, at: GetPoint): System
    requires at != Find ==> IteratorValid(s, k)
  {
    match at
    case Find =>
      if k !in s.data then Answer(s, t, k, KeyNotFound)
      else if s.data[k].buffer.None? then Answer(s, t, k, NotStored)
      else To(s, t, Get(k, CopyFlags))
    case CopyFlags => To(s, t, Get(k, CopyValue(s.data[k].flags)))
    case CopyValue(f) => Answer(s, t, k, Hit(f, s.data[k].buffer.value))
    case Replied(_) => s
  }

  function SetMove(s: System, t: Thread, k: Key, f: Flags, v: Value, at: SetPoint): System
    requires at != Insert ==> k in s.data
  {
    match at
    case Insert =>
      To(s, t, Set(k, f, v, AssignFlags))
        .(data := if k in s.data then s.data else s.data[k := Entry(0, None)])
    case AssignFlags => To(s, t, Set(k, f, v, AssignBuffer)).(data := s.data[k := s.data[k].(flags := f)])
    case AssignBuffer =>
      To(s, t, Set(k, f, v, Stored))
        .(data := s.data[k := s.data[k].(buffer := Some(v))],
          log := s.log + [DidSet(k, f, v)], actors := s.actors + [t])
    case Stored => s
  }

  function ClearMove(s: System, t: Thread): System {
    To(s, t, Clear(true)).(data := map[], log := s.log + [DidClear], actors := s.actors + [t])
  }

  function Do(s: System, t: Thread, m: Move): System
    requires MoveEnabled(s, t, m)
  {
    match m
    case Begin(p) => To(s, t, p)
    case LockMove(b) => s.(lock := LockStep(s.lock, t, b))
    case DataMove => (
      match PhaseOf(s, t)
      case Get(k, at) => GetMove(s, t, k, at)
      case Set(k, f, v, at) => SetMove(s, t, k, f, v, at)
      case _ => ClearMove(s, t))
    case Finish => To(s, t, NoRequest)
  }

  ghost predicate NextSystem(s: System, s': System) {
    exists t: Thread, m: Move :: MoveEnabled(s, t, m) && s' == Do(s, t, m)
  }

  ghost predicate IsSystemRun(run: seq<System>) {
    && |run| > 0 && run[0] == Start
    && (forall i | 0 <= i < |run| :: Fits(run[i].lock))
    && (forall i | 0 <= i < |run| - 1 :: NextSystem(run[i], run[i + 1]))
  }

  /** A run in which no writer passes line 85 while some thread is past the read gate. */
  ghost predicate IsGuardedSystemRun(run: seq<System>) {
    IsSystemRun(run) && forall i | 0 <= i < |run| - 1 :: GuardedStep(run[i].lock, run[i + 1].lock)
  }

  // ---------- Invariant ----------

  /** A thread's phase agrees with where it stands in the lock and with what it holds. */
  predicate PhaseFits(p: Phase, pc: PC, readHolds: nat, writeHolds: nat) {
    match p
    case NoRequest => pc == Outside && readHolds == 0 && writeHolds == 0
    case Get(_, at) =>
      && writeHolds == 0
      && (at == Find ==> EnteringRead(pc, readHolds))
      && (at == CopyFlags || at.CopyValue? ==> pc == Outside && readHolds == 1)
      && (at.Replied? ==> LeavingRead(pc, readHolds))
    case Set(_, _, _, at) =>
      && readHolds == 0
      && (at == Insert ==> Acquiring(pc, writeHolds))
      && (at == AssignFlags || at == AssignBuffer ==> pc == Outside && writeHolds == 1)
      && (at == Stored ==> Releasing(pc, writeHolds))
    case Clear(cleared) =>
      && readHolds == 0
      && if cleared then Releasing(pc, writeHolds) else Acquiring(pc, writeHolds)
  }

  predicate EnteringRead(pc: PC, readHolds: nat) {
    || (pc == Outside && readHolds <= 1)
    || ((pc == R58 || pc == R60) && readHolds == 0)
    || (pc == R62 && readHolds == 1)
  }

  predicate LeavingRead(pc: PC, readHolds: nat) {
    (pc == Outside && readHolds <= 1) || (pc == R68 && readHolds == 1) || (pc == R70 && readHolds == 0)
  }

  predicate Acquiring(pc: PC, writeHolds: nat) {
    (pc == Outside && writeHolds <= 1) || (InLockWrite(pc) && writeHolds == 0)
  }

  predicate Releasing(pc: PC, writeHolds: nat) {
    (pc == Outside && writeHolds <= 1) || (InUnlockWrite(pc) && writeHolds == 0)
  }

  ghost predicate PhasesInv(s: System) {
    forall t: Thread :: PhaseFits(PhaseOf(s, t), PcOf(s.lock, t), s.lock.readers[t], s.lock.writers[t])
  }

  /** Thread t has inserted key k and not yet finished assigning its entry. */
  predicate Assigning(s: System, t: Thread, k: Key) {
    var p := PhaseOf(s, t);
    p.Set? && p.key == k && (p.setAt == AssignFlags || p.setAt == AssignBuffer)
  }

  predicate Agrees(data: map<Key, Entry>, m: map<Key, (Flags, Value)>, k: Key) {
    && (k in data <==> k in m)
    && (k in data ==> data[k] == Entry(m[k].0, Some(m[k].1)))
  }

  ghost predicate BeingAssigned(s: System, k: Key) {
    exists t: Thread :: Assigning(s, t, k)
  }

  ghost predicate ModelInv(s: System) {
    forall k: Key :: Agrees(s.data, Model(s.log), k) || BeingAssigned(s, k)
  }

  /** What a handler in the middle of its steps may rely on. */
  predicate ProgressFits(p: Phase, data: map<Key, Entry>) {
    match p
    case Get(k, CopyFlags) => k in data
    case Get(k, CopyValue(f)) => k in data && data[k].flags == f
    case Set(k, f, v, AssignFlags) => k in data
    case Set(k, f, v, AssignBuffer) => k in data && data[k].flags == f
    case _ => true
  }

  ghost predicate ProgressInv(s: System) {
    forall t: Thread :: ProgressFits(PhaseOf(s, t), s.data)
  }

  ghost predicate SystemInv(s: System) {
    && LockSafe(s.lock) && PhasesInv(s) && ModelInv(s) && ProgressInv(s)
    && Sequential(s.log) && |s.actors| == |s.log|
  }

  // ---------- Lock moves ----------

  /** A lock step changes nothing for the other threads. */
  ghost predicate LocalTo(l: State, l': State, t: Thread) {
    forall u: Thread | u != t :: SameFor(l, l', u)
  }

  lemma LockStepLocal(l: State, t: Thread, b: LockAction)
    requires LockEnabled(l, t, b)
    ensures LocalTo(l, LockStep(l, t, b), t)
  {
    forall u: Thread | u != t
      ensures SameFor(l, LockStep(l, t, b), u)
    {
      match b
      case Line(a) => StepFrame(l, t, a, u);
      case WholeLockRead => ReadBlockFrame(l, t, u);
      case WholeUnlockRead => UnreadBlockFrame(l, t, u);
    }
  }

  lemma ReadBlockFrame(l: State, t: Thread, u: Thread)
    requires u != t
    ensures SameFor(l, LockReadBlock(l, t), u)
  {
  }

  lemma UnreadBlockFrame(l: State, t: Thread, u: Thread)
    requires u != t
    ensures SameFor(l, UnlockReadBlock(l, t), u)
  {
  }

  lemma EnterReadFits(l: State, t: Thread, b: LockAction)
    requires LockEnabled(l, t, b) && EnteringRead(PcOf(l, t), l.readers[t])
    requires b == WholeLockRead || b == Line(CallLockRead) || b == Line(Advance)
    requires t in l.readers ==> PcOf(l, t) != Outside
    ensures var l' := LockStep(l, t, b);
            EnteringRead(PcOf(l', t), l'.readers[t]) && l'.writers[t] == l.writers[t]
  {
  }

  lemma LeaveReadFits(l: State, t: Thread, b: LockAction)
    requires LockEnabled(l, t, b) && LeavingRead(PcOf(l, t), l.readers[t])
    requires b == WholeUnlockRead || b == Line(CallUnlockRead) || b == Line(Advance)
    ensures var l' := LockStep(l, t, b);
            LeavingRead(PcOf(l', t), l'.readers[t]) && l'.writers[t] == l.writers[t]
  {
  }

  lemma EnterWriteFits(l: State, t: Thread, a: Action)
    requires Enabled(l, t, a) && Acquiring(PcOf(l, t), l.writers[t]) && l.writers[t] == 0
    requires a == CallLockWrite || a == Advance
    ensures var l' := Step(l, t, a);
            Acquiring(PcOf(l', t), l'.writers[t]) && l'.readers[t] == l.readers[t]
  {
  }

  lemma LeaveWriteFits(l: State, t: Thread, a: Action)
    requires Enabled(l, t, a) && Releasing(PcOf(l, t), l.writers[t])
    requires a == CallUnlockWrite || a == Advance
    ensures var l' := Step(l, t, a);
            Releasing(PcOf(l', t), l'.writers[t]) && l'.readers[t] == l.readers[t]
  {
    hide UnlockWriteLine, Releasing;
    if a == Advance {
      assert InUnlockWrite(PcOf(l, t)) && l.writers[t] == 0 by { LeavesByUnlock(l, t); }
      UnlockWriteLineFits(l, t);
    } else {
      UnlockWriteCallFits(l, t);
    }
  }

  lemma LeavesByUnlock(l: State, t: Thread)
    requires Enabled(l, t, Advance) && Releasing(PcOf(l, t), l.writers[t])
    ensures InUnlockWrite(PcOf(l, t)) && l.writers[t] == 0
  {
  }

  lemma UnlockWriteCallFits(l: State, t: Thread)
    requires Enabled(l, t, CallUnlockWrite) && Releasing(PcOf(l, t), l.writers[t])
    ensures var l' := Step(l, t, CallUnlockWrite);
            Releasing(PcOf(l', t), l'.writers[t]) && l'.readers[t] == l.readers[t]
  {
  }

  lemma UnlockWriteLineFits(l: State, t: Thread)
    requires InUnlockWrite(PcOf(l, t)) && l.writers[t] == 0
    ensures var l' := UnlockWriteLine(l, t);
            Releasing(PcOf(l', t), l'.writers[t]) && l'.readers[t] == l.readers[t]
  {
  }

  lemma LockMoveFits(s: System, t: Thread, b: LockAction)
    requires PhasesInv(s) && LockEnabled(s.lock, t, b) && LockMoveAllowed(s, t, b)
    ensures var l' := LockStep(s.lock, t, b);
            PhaseFits(PhaseOf(s, t), PcOf(l', t), l'.readers[t], l'.writers[t])
  {
    hide EnteringRead, LeavingRead, Acquiring, Releasing, Step, LockReadBlock, UnlockReadBlock;
    var p := PhaseOf(s, t);
    assert PhaseFits(p, PcOf(s.lock, t), s.lock.readers[t], s.lock.writers[t]);
    match p
    case Get(_, at) =>
      if at == Find {
        EnterReadFits(s.lock, t, b);
      } else {
        LeaveReadFits(s.lock, t, b);
      }
    case Set(_, _, _, at) =>
      if at == Insert {
        EnterWriteFits(s.lock, t, b.a);
      } else {
        LeaveWriteFits(s.lock, t, b.a);
      }
    case Clear(cleared) =>
      if cleared {
        LeaveWriteFits(s.lock, t, b.a);
      } else {
        EnterWriteFits(s.lock, t, b.a);
      }
  }

  lemma LockChangeKeeps(s: System, l': State, t: Thread)
    requires SystemInv(s) && LockSafe(l') && LocalTo(s.lock, l', t)
    requires PhaseFits(PhaseOf(s, t), PcOf(l', t), l'.readers[t], l'.writers[t])
    ensures SystemInv(s.(lock := l'))
  {
    hide LockSafe, Agrees, PhaseFits, ProgressFits;
    var s' := s.(lock := l');
    forall u: Thread
      ensures PhaseFits(PhaseOf(s', u), PcOf(s'.lock, u), s'.lock.readers[u], s'.lock.writers[u])
      ensures ProgressFits(PhaseOf(s', u), s'.data)
    {
      assert PhaseFits(PhaseOf(s, u), PcOf(s.lock, u), s.lock.readers[u], s.lock.writers[u]);
      assert ProgressFits(PhaseOf(s, u), s.data);
      assert u != t ==> SameFor(s.lock, l', u);
    }
    forall k: Key
      ensures Agrees(s'.data, Model(s'.log), k) || BeingAssigned(s', k)
    {
      if t: Thread :| Assigning(s, t, k) {
        assert Assigning(s', t, k);
      }
    }
  }

  lemma LockStepKeepsSafe(l: State, t: Thread, b: LockAction)
    requires LockSafe(l) && Fits(l) && LockEnabled(l, t, b)
    requires Fits(LockStep(l, t, b)) && GuardedStep(l, LockStep(l, t, b))
    ensures LockSafe(LockStep(l, t, b))
  {
    hide LockSafe, GuardedStep;
    match b
    case Line(a) => LineKeepsSafe(l, t, a);
    case WholeLockRead => ReadBlockKeepsSafe(l, t);
    case WholeUnlockRead => UnreadBlockKeepsSafe(l, t);
  }

  lemma LockMoveKeeps(s: System, t: Thread, b: LockAction)
    requires SystemInv(s) && Fits(s.lock) && LockEnabled(s.lock, t, b) && LockMoveAllowed(s, t, b)
    requires Fits(LockStep(s.lock, t, b)) && GuardedStep(s.lock, LockStep(s.lock, t, b))
    ensures SystemInv(s.(lock := LockStep(s.lock, t, b)))
  {
    hide LockSafe, LockStep, GuardedStep;
    LockStepKeepsSafe(s.lock, t, b);
    LockStepLocal(s.lock, t, b);
    LockMoveFits(s, t, b);
    LockChangeKeeps(s, LockStep(s.lock, t, b), t);
  }

  // ---------- Who can be in the middle of an assignment ----------

  lemma AssignerHoldsWrite(s: System, t: Thread, k: Key)
    requires PhasesInv(s) && Assigning(s, t, k)
    ensures t in s.lock.writers
  {
    assert PhaseFits(PhaseOf(s, t), PcOf(s.lock, t), s.lock.readers[t], s.lock.writers[t]);
  }

  /** A handler inside the read lock sees a map that agrees with the model. */
  lemma ReaderSeesModel(s: System, t: Thread, k: Key)
    requires SystemInv(s) && t in s.lock.readers
    ensures Agrees(s.data, Model(s.log), k)
  {
    if u: Thread :| Assigning(s, u, k) {
      AssignerHoldsWrite(s, u, k);
      assert WriterInside(s.lock) && PastGate(s.lock, t);
      assert false;
    }
  }

  lemma OnlyAssigner(s: System, t: Thread, u: Thread, k: Key)
    requires SystemInv(s) && t in s.lock.writers && Assigning(s, u, k)
    ensures u == t
  {
    AssignerHoldsWrite(s, u, k);
  }

  /** A handler inside the write lock is the only one in the middle of any steps on the map. */
  lemma WriterIsAlone(s: System, t: Thread, u: Thread)
    requires SystemInv(s) && t in s.lock.writers && u != t
    ensures forall data :: ProgressFits(PhaseOf(s, u), data)
    ensures forall k: Key :: !Assigning(s, u, k)
  {
    assert PhaseFits(PhaseOf(s, u), PcOf(s.lock, u), s.lock.readers[u], s.lock.writers[u]);
    assert !PastGate(s.lock, u);
  }

  // ---------- The log ----------

  lemma ModelStep(log: seq<Event>, e: Event)
    ensures Model(log + [e]) == Effect(Model(log), e)
  {
    assert (log + [e])[..|log|] == log;
  }

  lemma LogStaysSequential(log: seq<Event>, e: Event)
    requires Sequential(log)
    requires e.DidGet? ==> e.reply == Lookup(Model(log), e.key)
    ensures Sequential(log + [e])
  {
    var log' := log + [e];
    forall i | 0 <= i < |log'| && log'[i].DidGet?
      ensures log'[i].reply == Lookup(Model(log'[..i]), log'[i].key)
    {
      assert log'[..i] == log[..i];
      assert i == |log| ==> log[..i] == log;
    }
  }

  // ---------- Moves of one handler ----------

  predicate Quiet(p: Phase) {
    !(p.Set? && (p.setAt == AssignFlags || p.setAt == AssignBuffer))
  }

  /** Changing the phase of a thread that is not assigning, the map left alone. */
  lemma PhaseChangeKeeps(s: System, t: Thread, p: Phase)
    requires SystemInv(s) && Quiet(PhaseOf(s, t)) && ProgressFits(p, s.data)
    requires PhaseFits(p, PcOf(s.lock, t), s.lock.readers[t], s.lock.writers[t])
    ensures SystemInv(To(s, t, p))
  {
    var s' := To(s, t, p);
    forall u: Thread
      ensures PhaseFits(PhaseOf(s', u), PcOf(s'.lock, u), s'.lock.readers[u], s'.lock.writers[u])
      ensures ProgressFits(PhaseOf(s', u), s'.data)
    {
      assert PhaseFits(PhaseOf(s, u), PcOf(s.lock, u), s.lock.readers[u], s.lock.writers[u]);
      assert ProgressFits(PhaseOf(s, u), s.data);
    }
    forall k: Key
      ensures Agrees(s'.data, Model(s'.log), k) || BeingAssigned(s', k)
    {
      if u: Thread :| Assigning(s, u, k) {
        assert Assigning(s', u, k);
      }
    }
  }

  /** Appending a Get that answers from the model. */
  lemma AnswerLogged(s: System, t: Thread, k: Key, r: Reply)
    requires SystemInv(s) && r == Lookup(Model(s.log), k)
    ensures SystemInv(s.(log := s.log + [DidGet(k, r)], actors := s.actors + [t]))
  {
    hide LockSafe, Agrees, PhaseFits, ProgressFits;
    var s' := s.(log := s.log + [DidGet(k, r)], actors := s.actors + [t]);
    ModelStep(s.log, DidGet(k, r));
    LogStaysSequential(s.log, DidGet(k, r));
    forall x: Key
      ensures Agrees(s'.data, Model(s'.log), x) || BeingAssigned(s', x)
    {
      if u: Thread :| Assigning(s, u, x) {
        assert Assigning(s', u, x);
      }
    }
    forall u: Thread
      ensures PhaseFits(PhaseOf(s', u), PcOf(s'.lock, u), s'.lock.readers[u], s'.lock.writers[u])
      ensures ProgressFits(PhaseOf(s', u), s'.data)
    {
      assert PhaseFits(PhaseOf(s, u), PcOf(s.lock, u), s.lock.readers[u], s.lock.writers[u]);
      assert ProgressFits(PhaseOf(s, u), s.data);
    }
  }

  lemma AnswerKeeps(s: System, t: Thread, k: Key, r: Reply)
    requires SystemInv(s) && PhaseOf(s, t).Get? && PcOf(s.lock, t) == Outside && r == Lookup(Model(s.log), k)
    ensures SystemInv(Answer(s, t, k, r))
  {
    assert PhaseFits(PhaseOf(s, t), PcOf(s.lock, t), s.lock.readers[t], s.lock.writers[t]);
    AnswerLogged(s, t, k, r);
    PhaseChangeKeeps(s.(log := s.log + [DidGet(k, r)], actors := s.actors + [t]), t, Get(k, Replied(r)));
  }

  lemma GetMoveKeeps(s: System, t: Thread, k: Key, at: GetPoint)
    requires SystemInv(s) && PhaseOf(s, t) == Get(k, at) && InSection(s, t)
    requires at != Find ==> IteratorValid(s, k)
    ensures SystemInv(GetMove(s, t, k, at))
  {
    assert PhaseFits(PhaseOf(s, t), PcOf(s.lock, t), s.lock.readers[t], s.lock.writers[t]);
    assert ProgressFits(PhaseOf(s, t), s.data);
    ReaderSeesModel(s, t, k);
    match at
    case Find =>
      if k !in s.data {
        AnswerKeeps(s, t, k, KeyNotFound);
      } else {
        PhaseChangeKeeps(s, t, Get(k, CopyFlags));
      }
    case CopyFlags => PhaseChangeKeeps(s, t, Get(k, CopyValue(s.data[k].flags)));
    case CopyValue(f) => AnswerKeeps(s, t, k, Hit(f, s.data[k].buffer.value));
    case Replied(_) =>
  }

  /** A writer's move on the map: nobody else is in the middle of anything, so what counts is
      the writer's own entry and, for the other keys, that they agree with the model. */
  lemma WriterMoveKeeps(s: System, s': System, t: Thread)
    requires SystemInv(s) && t in s.lock.writers && s'.lock == s.lock
    requires forall u: Thread | u != t :: PhaseOf(s', u) == PhaseOf(s, u)
    requires PhaseFits(PhaseOf(s', t), PcOf(s.lock, t), s.lock.readers[t], s.lock.writers[t])
    requires ProgressFits(PhaseOf(s', t), s'.data) && Sequential(s'.log) && |s'.actors| == |s'.log|
    requires forall k: Key :: Agrees(s'.data, Model(s'.log), k) || Assigning(s', t, k)
    ensures SystemInv(s')
  {
    forall u: Thread
      ensures PhaseFits(PhaseOf(s', u), PcOf(s'.lock, u), s'.lock.readers[u], s'.lock.writers[u])
      ensures ProgressFits(PhaseOf(s', u), s'.data)
    {
      if u != t {
        assert PhaseFits(PhaseOf(s, u), PcOf(s.lock, u), s.lock.readers[u], s.lock.writers[u]);
        WriterIsAlone(s, t, u);
      }
    }
    forall k: Key
      ensures Agrees(s'.data, Model(s'.log), k) || BeingAssigned(s', k)
    {
    }
  }

  /** Inside the write lock every key agrees with the model, except the one being assigned. */
  lemma WriterSeesModel(s: System, t: Thread, k: Key)
    requires SystemInv(s) && t in s.lock.writers && !Assigning(s, t, k)
    ensures Agrees(s.data, Model(s.log), k)
  {
    if u: Thread :| Assigning(s, u, k) {
      OnlyAssigner(s, t, u, k);
      assert false;
    }
  }

  lemma SetMoveAgrees(s: System, t: Thread, k: Key, f: Flags, v: Value, at: SetPoint, x: Key)
    requires SystemInv(s) && PhaseOf(s, t) == Set(k, f, v, at) && t in s.lock.writers && at != Stored
    requires at != Insert ==> k in s.data
    requires at == AssignBuffer ==> s.data[k].flags == f
    ensures var s' := SetMove(s, t, k, f, v, at);
            Agrees(s'.data, Model(s'.log), x) || Assigning(s', t, x)
  {
    ModelStep(s.log, DidSet(k, f, v));
    if x != k {
      WriterSeesModel(s, t, x);
    }
  }

  lemma SetMoveKeeps(s: System, t: Thread, k: Key, f: Flags, v: Value, at: SetPoint)
    requires SystemInv(s) && PhaseOf(s, t) == Set(k, f, v, at) && InSection(s, t)
    requires at != Insert ==> k in s.data
    ensures SystemInv(SetMove(s, t, k, f, v, at))
  {
    assert PhaseFits(PhaseOf(s, t), PcOf(s.lock, t), s.lock.readers[t], s.lock.writers[t]);
    assert ProgressFits(PhaseOf(s, t), s.data);
    LogStaysSequential(s.log, DidSet(k, f, v));
    var s' := SetMove(s, t, k, f, v, at);
    forall x: Key
      ensures Agrees(s'.data, Model(s'.log), x) || Assigning(s', t, x)
    {
      SetMoveAgrees(s, t, k, f, v, at, x);
    }
    WriterMoveKeeps(s, s', t);
  }

  lemma ClearMoveKeeps(s: System, t: Thread)
    requires SystemInv(s) && PhaseOf(s, t) == Clear(false) && InSection(s, t)
    ensures SystemInv(ClearMove(s, t))
  {
    assert PhaseFits(PhaseOf(s, t), PcOf(s.lock, t), s.lock.readers[t], s.lock.writers[t]);
    ModelStep(s.log, DidClear);
    LogStaysSequential(s.log, DidClear);
    WriterMoveKeeps(s, ClearMove(s, t), t);
  }

  lemma MoveKeepsInv(s: System, t: Thread, m: Move)
    requires SystemInv(s) && Fits(s.lock) && MoveEnabled(s, t, m)
    requires Fits(Do(s, t, m).lock) && GuardedStep(s.lock, Do(s, t, m).lock)
    ensures SystemInv(Do(s, t, m))
  {
    assert PhaseFits(PhaseOf(s, t), PcOf(s.lock, t), s.lock.readers[t], s.lock.writers[t]);
    match m
    case Begin(p) => PhaseChangeKeeps(s, t, p);
    case LockMove(b) => LockMoveKeeps(s, t, b);
    case Finish => PhaseChangeKeeps(s, t, NoRequest);
    case DataMove =>
      match PhaseOf(s, t)
      case Get(k, at) => GetMoveKeeps(s, t, k, at);
      case Set(k, f, v, at) => SetMoveKeeps(s, t, k, f, v, at);
      case _ => ClearMoveKeeps(s, t);
  }

  lemma {:induction false} SystemRunKeepsInv(run: seq<System>, i: nat)
    requires IsGuardedSystemRun(run) && i < |run|
    ensures SystemInv(run[i])
  {
    if i > 0 {
      SystemRunKeepsInv(run, i - 1);
      assert NextSystem(run[i - 1], run[i]) && GuardedStep(run[i - 1].lock, run[i].lock);
      var t: Thread, m: Move :| MoveEnabled(run[i - 1], t, m) && run[i] == Do(run[i - 1], t, m);
      MoveKeepsInv(run[i - 1], t, m);
    } else {
      StartKeepsInv();
    }
  }

  lemma StartKeepsInv()
    ensures SystemInv(Start)
  {
    forall k: Key
      ensures Agrees(Start.data, Model(Start.log), k)
    {
    }
  }

  /** A handler inside its lock is never held up by the map: its next step on the data is
      always possible. In particular its iterator is valid, whatever other threads do. */
  lemma DataNeverBlocks(s: System, t: Thread)
    requires SystemInv(s) && InSection(s, t)
    ensures MoveEnabled(s, t, DataMove)
  {
    assert ProgressFits(PhaseOf(s, t), s.data);
    if PhaseOf(s, t).Get? && PhaseOf(s, t).getAt != Find {
      ReaderSeesModel(s, t, PhaseOf(s, t).key);
    }
  }

  /** The handlers keep the calling discipline under which the lock does not deadlock. */
  lemma HandlersAreDisciplined(s: System)
    requires SystemInv(s)
    ensures Unnested(s.lock)
  {
    forall t: Thread
      ensures PcOf(s.lock, t) == R58 || PcOf(s.lock, t) == R60 ==> t !in s.lock.readers
      ensures InLockWrite(PcOf(s.lock, t)) || InUnlockWrite(PcOf(s.lock, t)) ==> t !in s.lock.readers
      ensures InLockRead(PcOf(s.lock, t)) || InUnlockRead(PcOf(s.lock, t)) || t in s.lock.readers
              ==> s.lock.owner != Some(t)
    {
      assert PhaseFits(PhaseOf(s, t), PcOf(s.lock, t), s.lock.readers[t], s.lock.writers[t]);
    }
  }

  /** A thread that can take or finish a lock step of its own can take a step of its handler. */
  lemma LockStepOrDataStep(s: System, t: Thread) returns (m: Move)
    requires SystemInv(s) && !Idle(s.lock, t) && Enabled(s.lock, t, Release(s.lock, t))
    ensures !m.Begin? && MoveEnabled(s, t, m)
  {
    assert PhaseFits(PhaseOf(s, t), PcOf(s.lock, t), s.lock.readers[t], s.lock.writers[t]);
    if InSection(s, t) {
      DataNeverBlocks(s, t);
      m := DataMove;
    } else {
      m := LockMove(Line(Release(s.lock, t)));
    }
  }

  lemma IdleHandlerCanMove(s: System, t: Thread) returns (m: Move)
    requires SystemInv(s) && Idle(s.lock, t) && PhaseOf(s, t) != NoRequest
    ensures !m.Begin? && MoveEnabled(s, t, m)
  {
    assert PhaseFits(PhaseOf(s, t), PcOf(s.lock, t), s.lock.readers[t], s.lock.writers[t]);
    match PhaseOf(s, t)
    case Get(_, at) => m := if at == Find then LockMove(Line(CallLockRead)) else Finish;
    case Set(_, _, _, at) => m := if at == Insert then LockMove(Line(CallLockWrite)) else Finish;
    case Clear(cleared) => m := if cleared then Finish else LockMove(Line(CallLockWrite));
  }

  /** Handlers never deadlock: as long as one is under way, one can take a step. */
  lemma HandlersNeverDeadlock(s: System, busy: Thread) returns (t: Thread, m: Move)
    requires SystemInv(s) && PhaseOf(s, busy) != NoRequest
    ensures !m.Begin? && MoveEnabled(s, t, m)
  {
    if Idle(s.lock, busy) {
      t := busy;
      m := IdleHandlerCanMove(s, t);
    } else {
      HandlersAreDisciplined(s);
      t := NoDeadlock(s.lock, busy);
      m := LockStepOrDataStep(s, t);
    }
  }

  /** A handler under way cannot take a step if and only if its lock call must wait: for an open
      gate, for the write section to be free, or for the read event. */
  lemma HandlerWaitsIff(s: System, t: Thread)
    requires SystemInv(s) && PhaseOf(s, t) != NoRequest
    ensures (forall m: Move | !m.Begin? :: !MoveEnabled(s, t, m)) <==> MustWait(s.lock, t)
  {
    hide MoveEnabled, Enabled, PhasesInv, ModelInv, ProgressInv, Sequential;
    if PcOf(s.lock, t) == Outside {
      if Idle(s.lock, t) {
        var m := IdleHandlerCanMove(s, t);
      } else {
        HoldsCanBeReleased(s.lock, t);
        var m := LockStepOrDataStep(s, t);
      }
    } else {
      BlockedIffInv(s.lock, t);
      if MustWait(s.lock, t) {
        forall m: Move | !m.Begin?
          ensures !MoveEnabled(s, t, m)
        {
          if MoveEnabled(s, t, m) {
            OnlyAdvances(s, t, m);
          }
        }
      } else {
        var m := LockStepOrDataStep(s, t);
      }
    }
  }

  lemma HoldsCanBeReleased(l: State, t: Thread)
    requires PcOf(l, t) == Outside && !Idle(l, t)
    ensures Enabled(l, t, Release(l, t))
  {
  }

  lemma OnlyAdvances(s: System, t: Thread, m: Move)
    requires PcOf(s.lock, t) != Outside && !m.Begin? && MoveEnabled(s, t, m)
    ensures Enabled(s.lock, t, Advance)
  {
  }

  /** Every thread without a request may begin any Get, any Set and a Clear. */
  lemma AnyRequestMayBegin(s: System, t: Thread, k: Key, f: Flags, v: Value)
    requires PhaseOf(s, t) == NoRequest
    ensures MoveEnabled(s, t, Begin(Get(k, Find)))
    ensures MoveEnabled(s, t, Begin(Set(k, f, v, Insert)))
    ensures MoveEnabled(s, t, Begin(Clear(false)))
  {
  }

  // ---------- LockRead and UnlockRead as single steps ----------

  /** A move that does not split a LockRead or UnlockRead. */
  predicate WholeMove(s: System, t: Thread, m: Move) {
    m.LockMove? && m.action.Line? ==>
      m.action.a != CallLockRead && m.action.a != CallUnlockRead && !ReadPc(PcOf(s.lock, t))
  }

  ghost predicate NextWhole(s: System, s': System) {
    exists t: Thread, m: Move :: MoveEnabled(s, t, m) && WholeMove(s, t, m) && s' == Do(s, t, m)
  }

  ghost predicate IsWholeRun(run: seq<System>) {
    IsSystemRun(run) && forall i | 0 <= i < |run| - 1 :: NextWhole(run[i], run[i + 1])
  }

  lemma WholeStepIsBlock(s: System, s': System)
    requires NextWhole(s, s')
    ensures s'.lock == s.lock || NextBlock(s.lock, s'.lock)
  {
    var t: Thread, m: Move :| MoveEnabled(s, t, m) && WholeMove(s, t, m) && s' == Do(s, t, m);
    if m.LockMove? {
      var b := match m.action
        case Line(a) => WriteLine(a)
        case WholeLockRead => ReadBlock
        case WholeUnlockRead => UnreadBlock;
      assert BlockEnabled(s.lock, t, b) && s'.lock == BlockStep(s.lock, t, b);
    }
  }

  /** Runs that take LockRead and UnlockRead as single steps are guarded. */
  lemma {:induction false} WholeRunKeepsBlockInv(run: seq<System>, i: nat)
    requires IsWholeRun(run) && i < |run|
    ensures BlockInv(run[i].lock)
  {
    if i > 0 {
      WholeRunKeepsBlockInv(run, i - 1);
      assert NextWhole(run[i - 1], run[i]);
      WholeStepIsBlock(run[i - 1], run[i]);
      if run[i].lock != run[i - 1].lock {
        var t: Thread, b: BlockAction :|
          BlockEnabled(run[i - 1].lock, t, b) && run[i].lock == BlockStep(run[i - 1].lock, t, b);
        BlockKeepsInv(run[i - 1].lock, t, b);
      }
    }
  }

  lemma WholeRunsAreGuarded(run: seq<System>)
    requires IsWholeRun(run)
    ensures IsGuardedSystemRun(run)
  {
    forall i | 0 <= i < |run| - 1
      ensures GuardedStep(run[i].lock, run[i + 1].lock)
    {
      WholeRunKeepsBlockInv(run, i);
      assert NextWhole(run[i], run[i + 1]);
      WholeStepIsBlock(run[i], run[i + 1]);
      if run[i + 1].lock != run[i].lock {
        BlockStepsAreGuarded(run[i].lock, run[i + 1].lock);
      }
    }
  }

  // ---------- What the plain map holds ----------

  /** The plain map as the cache stores it. */
  function AsStored(m: map<Key, (Flags, Value)>): map<Key, Entry> {
    map k | k in m :: Entry(m[k].0, Some(m[k].1))
  }

  /** Event j is the Set that event i reads: the last one of its key, with no Clear since. */
  ghost predicate LatestSet(log: seq<Event>, i: nat, j: nat, k: Key)
    requires i <= |log|
  {
    && j < i && log[j].DidSet? && log[j].key == k
    && forall n | j < n < i :: !log[n].DidClear? && !(log[n].DidSet? && log[n].key == k)
  }

  lemma {:induction false} ModelHasLatestSet(log: seq<Event>, i: nat, k: Key) returns (j: nat)
    requires i <= |log| && k in Model(log[..i])
    ensures LatestSet(log, i, j, k) && Model(log[..i])[k] == (log[j].flags, log[j].value)
  {
    assert log[..i][..i - 1] == log[..i - 1];
    if log[i - 1].DidSet? && log[i - 1].key == k {
      j := i - 1;
    } else {
      j := ModelHasLatestSet(log, i - 1, k);
    }
  }

  lemma {:induction false} LatestSetInModel(log: seq<Event>, i: nat, j: nat, k: Key)
    requires i <= |log| && LatestSet(log, i, j, k)
    ensures k in Model(log[..i])
  {
    assert log[..i][..i - 1] == log[..i - 1];
    if j < i - 1 {
      LatestSetInModel(log, i - 1, j, k);
    }
  }
}
