/** What runs of the handlers guarantee. Each handler takes effect exactly once, between its
    begin and its end, with exactly the reply it returns; the effects in their order are a
    sequential run on a plain map; their order respects real time, and for Sets and Clears it is
    the order in which they get the write lock. */
module Linearizability {
  import opened Options
  import opened LockSteps
  import opened LockInvariant
  import opened LockExclusion
  import opened CacheProtocol

  // ---------- Handlers in a run ----------

  /** The handler has done its work, and its reply is fixed. */
  predicate Done(p: Phase) {
    match p
    case NoRequest => false
    case Get(_, at) => at.Replied?
    case Set(_, _, _, at) => at == Stored
    case Clear(cleared) => cleared
  }

  /** The request a handler works on. */
  function RequestOf(p: Phase): Phase {
    match p
    case NoRequest => NoRequest
    case Get(k, _) => Get(k, Find)
    case Set(k, f, v, _) => Set(k, f, v, Insert)
    case Clear(_) => Clear(false)
  }

  /** The effect of a handler that is done, with the reply it returns. */
  function EffectOf(p: Phase): Event
    requires Done(p)
  {
    match p
    case Get(k, Replied(r)) => DidGet(k, r)
    case Set(k, f, v, _) => DidSet(k, f, v)
    case Clear(_) => DidClear
  }

  /** Thread t begins a request in the step from a to a + 1 and still serves it at b. */
  ghost predicate Serves(run: seq<System>, t: Thread, a: nat, b: nat) {
    && a < b < |run| && PhaseOf(run[a], t) == NoRequest
    && forall k | a < k <= b :: PhaseOf(run[k], t) != NoRequest
  }

  /** And returns from it in the step from b to b + 1. */
  ghost predicate Completes(run: seq<System>, t: Thread, a: nat, b: nat) {
    Serves(run, t, a, b) && b + 1 < |run| && PhaseOf(run[b + 1], t) == NoRequest
  }

  /** The positions of thread t's effects from a position on. */
  function EffectsSince(s: System, t: Thread, from: nat): set<nat>
    requires |s.actors| == |s.log|
  {
    set n: nat | from <= n < |s.log| && s.actors[n] == t
  }

  // ---------- One step ----------

  ghost predicate LogGrows(s: System, s': System) {
    && |s.actors| == |s.log| <= |s'.log| == |s'.actors|
    && s.log <= s'.log && s.actors <= s'.actors
  }

  /** A step logs the effect of thread t exactly when t becomes done in it. */
  lemma StepLogs(s: System, s': System, t: Thread)
    requires NextSystem(s, s') && |s.actors| == |s.log|
    ensures LogGrows(s, s')
    ensures var p, p' := PhaseOf(s, t), PhaseOf(s', t);
            if !Done(p) && Done(p') then s'.log == s.log + [EffectOf(p')] && s'.actors == s.actors + [t]
            else EffectsSince(s', t, |s.log|) == {}
  {
    hide LockEnabled, LockStep, LockMoveAllowed, Done, EffectOf, EffectsSince;
    var u: Thread, m: Move :| MoveEnabled(s, u, m) && s' == Do(s, u, m);
    if m == DataMove {
      DataMoveLogs(s, u, t);
    } else {
      NoEffects(s', t);
      if m == Finish {
        FinishedIsDone(s, u);
      } else if m.Begin? {
        BeginsAsRequest(s, u, m.request);
      }
    }
  }

  lemma NoEffects(s: System, t: Thread)
    requires |s.actors| == |s.log|
    ensures EffectsSince(s, t, |s.log|) == {} && !Done(NoRequest)
  {
  }

  lemma DataMoveLogs(s: System, u: Thread, t: Thread)
    requires MoveEnabled(s, u, DataMove) && |s.actors| == |s.log|
    ensures var s' := Do(s, u, DataMove);
            var p, p' := PhaseOf(s, t), PhaseOf(s', t);
            && LogGrows(s, s')
            && if !Done(p) && Done(p') then s'.log == s.log + [EffectOf(p')] && s'.actors == s.actors + [t]
               else EffectsSince(s', t, |s.log|) == {}
  {
  }

  /** A handler keeps its request until it returns, and returns only when it is done. */
  lemma StepKeepsRequest(s: System, s': System, t: Thread)
    requires NextSystem(s, s')
    ensures var p, p' := PhaseOf(s, t), PhaseOf(s', t);
            && (p == NoRequest && p' != NoRequest ==> p' == RequestOf(p') && !Done(p') && s'.lock == s.lock)
            && (p != NoRequest && p' != NoRequest ==> RequestOf(p') == RequestOf(p))
            && (Done(p) && p' != NoRequest ==> p' == p)
            && (p != NoRequest && p' == NoRequest ==> Done(p))
  {
    hide LockEnabled, LockStep, LockMoveAllowed, RequestOf, Done, Do, MoveEnabled;
    var u: Thread, m: Move :| MoveEnabled(s, u, m) && s' == Do(s, u, m);
    if m.LockMove? || u != t {
      SamePhase(s, u, m, t);
    } else if m == DataMove {
      DataMoveKeepsRequest(s, t);
    } else if m == Finish {
      FinishedIsDone(s, t);
    } else {
      BeginsAsRequest(s, t, m.request);
    }
  }

  lemma DataMoveKeepsRequest(s: System, t: Thread)
    requires MoveEnabled(s, t, DataMove)
    ensures var p, p' := PhaseOf(s, t), PhaseOf(Do(s, t, DataMove), t);
            p != NoRequest && p' != NoRequest && RequestOf(p') == RequestOf(p) && !Done(p)
  {
  }

  lemma SamePhase(s: System, u: Thread, m: Move, t: Thread)
    requires MoveEnabled(s, u, m) && (m.LockMove? || u != t)
    ensures PhaseOf(Do(s, u, m), t) == PhaseOf(s, t) && !Done(NoRequest)
  {
  }

  lemma FinishedIsDone(s: System, t: Thread)
    requires MoveEnabled(s, t, Finish)
    ensures PhaseOf(Do(s, t, Finish), t) == NoRequest && Done(PhaseOf(s, t)) && !Done(NoRequest)
  {
  }

  lemma BeginsAsRequest(s: System, t: Thread, p: Phase)
    requires MoveEnabled(s, t, Begin(p))
    ensures PhaseOf(s, t) == NoRequest && PhaseOf(Do(s, t, Begin(p)), t) == p && Do(s, t, Begin(p)).lock == s.lock
    ensures p == RequestOf(p) && p != NoRequest && !Done(p) && !Done(NoRequest)
  {
  }

  lemma {:induction false} LogKeepsGrowing(run: seq<System>, i: nat, j: nat)
    requires IsSystemRun(run) && i <= j < |run|
    ensures LogGrows(run[i], run[j])
    decreases j
  {
    if i < j {
      LogKeepsGrowing(run, i, j - 1);
      assert NextSystem(run[j - 1], run[j]);
      StepLogs(run[j - 1], run[j], 0);
    } else if i > 0 {
      LogKeepsGrowing(run, i - 1, i - 1);
      assert NextSystem(run[i - 1], run[i]);
      StepLogs(run[i - 1], run[i], 0);
    }
  }

  // ---------- Each handler takes effect once ----------

  /** In the step from c to c + 1 thread t becomes done, and its effect is logged. */
  ghost predicate TakesEffectIn(run: seq<System>, t: Thread, c: nat) {
    && c + 1 < |run| && !Done(PhaseOf(run[c], t)) && Done(PhaseOf(run[c + 1], t))
    && run[c + 1].log == run[c].log + [EffectOf(PhaseOf(run[c + 1], t))]
  }

  lemma {:induction false} EffectsOfHandler(run: seq<System>, t: Thread, a: nat, b: nat) returns (c: nat)
    requires IsSystemRun(run) && Serves(run, t, a, b)
    ensures LogGrows(run[a], run[b])
    ensures RequestOf(PhaseOf(run[b], t)) == PhaseOf(run[a + 1], t)
    ensures !Done(PhaseOf(run[b], t)) ==> EffectsSince(run[b], t, |run[a].log|) == {}
    ensures Done(PhaseOf(run[b], t)) ==>
              && a < c < b && TakesEffectIn(run, t, c) && PhaseOf(run[c + 1], t) == PhaseOf(run[b], t)
              && |run[a].log| <= |run[c].log| < |run[b].log|
              && EffectsSince(run[b], t, |run[a].log|) == {|run[c].log|}
    decreases b
  {
    hide MoveEnabled, Do;
    LogKeepsGrowing(run, a, b);
    LogKeepsGrowing(run, a, b - 1);
    assert NextSystem(run[b - 1], run[b]);
    StepLogs(run[b - 1], run[b], t);
    StepKeepsRequest(run[b - 1], run[b], t);
    EffectsSplit(run[b - 1], run[b], t, |run[a].log|);
    c := 0;
    if b > a + 1 {
      c := EffectsOfHandler(run, t, a, b - 1);
      if !Done(PhaseOf(run[b - 1], t)) && Done(PhaseOf(run[b], t)) {
        c := b - 1;
        OneMore(run[b - 1], run[b], t);
      }
    } else {
      assert EffectsSince(run[a], t, |run[a].log|) == {};
    }
  }

  lemma EffectsSplit(s: System, s': System, t: Thread, from: nat)
    requires LogGrows(s, s') && from <= |s.log|
    ensures EffectsSince(s', t, from) == EffectsSince(s, t, from) + EffectsSince(s', t, |s.log|)
  {
    assert forall n | 0 <= n < |s.log| :: s'.actors[n] == s.actors[n];
  }

  lemma OneMore(s: System, s': System, t: Thread)
    requires |s.actors| == |s.log| && |s'.log| == |s.log| + 1 && s'.actors == s.actors + [t]
    ensures EffectsSince(s', t, |s.log|) == {|s.log|}
  {
  }

  /** Every handler that returns has taken effect exactly once between its begin and its return,
      with the request it was given and the reply it returns. */
  lemma TakesEffectOnce(run: seq<System>, t: Thread, a: nat, b: nat) returns (n: nat)
    requires IsSystemRun(run) && Completes(run, t, a, b)
    ensures Done(PhaseOf(run[b], t)) && RequestOf(PhaseOf(run[b], t)) == PhaseOf(run[a + 1], t)
    ensures |run[b].actors| == |run[b].log|
    ensures |run[a].log| <= n < |run[b].log| && EffectsSince(run[b], t, |run[a].log|) == {n}
    ensures run[b].log[n] == EffectOf(PhaseOf(run[b], t))
  {
    hide MoveEnabled, Do;
    assert NextSystem(run[b], run[b + 1]);
    StepKeepsRequest(run[b], run[b + 1], t);
    var c := EffectsOfHandler(run, t, a, b);
    LogKeepsGrowing(run, c + 1, b);
    n := |run[c].log|;
  }

  // ---------- And nothing else is logged ----------

  lemma {:induction false} Begun(run: seq<System>, t: Thread, c: nat) returns (a: nat)
    requires IsSystemRun(run) && c < |run| && PhaseOf(run[c], t) != NoRequest
    ensures Serves(run, t, a, c)
  {
    hide MoveEnabled, Do, NextSystem, Fits;
    if PhaseOf(run[c - 1], t) == NoRequest {
      a := c - 1;
    } else {
      a := Begun(run, t, c - 1);
    }
  }

  lemma {:induction false} LoggedIn(run: seq<System>, i: nat, n: nat) returns (c: nat)
    requires IsSystemRun(run) && i < |run| && n < |run[i].log|
    ensures c < i && |run[c].log| <= n < |run[c + 1].log|
  {
    hide MoveEnabled, Do, NextSystem, Fits;
    if n < |run[i - 1].log| {
      c := LoggedIn(run, i - 1, n);
    } else {
      c := i - 1;
    }
  }

  /** Every effect in the log is that of a handler which had begun and took effect just there. */
  lemma EveryEffectHasItsHandler(run: seq<System>, i: nat, n: nat) returns (t: Thread, a: nat, c: nat)
    requires IsSystemRun(run) && i < |run| && n < |run[i].log|
    ensures |run[i].actors| == |run[i].log| && t == run[i].actors[n]
    ensures c < i && Serves(run, t, a, c + 1) && TakesEffectIn(run, t, c) && |run[c].log| == n
    ensures run[i].log[n] == EffectOf(PhaseOf(run[c + 1], t))
  {
    hide MoveEnabled, Do;
    LogKeepsGrowing(run, i, i);
    c := LoggedIn(run, i, n);
    LogKeepsGrowing(run, c, c);
    LogKeepsGrowing(run, c + 1, i);
    t := run[i].actors[n];
    assert NextSystem(run[c], run[c + 1]);
    StepLogs(run[c], run[c + 1], t);
    assert n in EffectsSince(run[c + 1], t, |run[c].log|);
    a := Begun(run, t, c + 1);
  }

  // ---------- The order of the effects ----------

  /** Real time: a handler that returns before another begins takes effect before it. */
  lemma RealTimeOrder(run: seq<System>, t: Thread, a: nat, b: nat, u: Thread, c: nat, d: nat)
    requires IsSystemRun(run) && Completes(run, t, a, b) && Completes(run, u, c, d) && b <= c
    ensures |run[b].actors| == |run[b].log| && |run[d].actors| == |run[d].log|
    ensures exists n, m :: n < m &&
              EffectsSince(run[b], t, |run[a].log|) == {n} && EffectsSince(run[d], u, |run[c].log|) == {m}
  {
    var n := TakesEffectOnce(run, t, a, b);
    var m := TakesEffectOnce(run, u, c, d);
    LogKeepsGrowing(run, b, c);
    assert n < m;
  }

  predicate Writes(p: Phase) { p.Set? || p.Clear? }

  /** Thread t gets the write lock in the step from i to i + 1. */
  ghost predicate GetsWriteLock(run: seq<System>, t: Thread, i: nat) {
    i + 1 < |run| && t !in run[i].lock.writers && t in run[i + 1].lock.writers
  }

  /** A writing handler holds the write lock from i + 1 on until it is done. */
  ghost predicate HoldsUntilDone(run: seq<System>, t: Thread, i: nat, b: nat) {
    && GetsWriteLock(run, t, i)
    && forall k | i < k <= b < |run| && !Done(PhaseOf(run[k], t)) :: t in run[k].lock.writers
  }

  lemma WriterStep(s: System, s': System, t: Thread)
    requires NextSystem(s, s') && PhasesInv(s)
    requires Writes(PhaseOf(s, t)) && PhaseOf(s', t) != NoRequest
    ensures !Done(PhaseOf(s', t)) && t in s.lock.writers ==> t in s'.lock.writers
    ensures !Done(PhaseOf(s, t)) && Done(PhaseOf(s', t)) ==> t in s.lock.writers
    ensures Done(PhaseOf(s, t)) && t !in s.lock.writers ==> t !in s'.lock.writers
  {
    hide LockStep, LockEnabled;
    var u: Thread, m: Move :| MoveEnabled(s, u, m) && s' == Do(s, u, m);
    if m.LockMove? {
      if u == t {
        WriterLockStep(s, t, m.action);
      } else {
        LockStepLocal(s.lock, u, m.action);
        assert SameFor(s.lock, s'.lock, t);
      }
    }
  }

  lemma WriterLockStep(s: System, t: Thread, b: LockAction)
    requires PhasesInv(s) && Writes(PhaseOf(s, t)) && LockEnabled(s.lock, t, b) && LockMoveAllowed(s, t, b)
    ensures !Done(PhaseOf(s, t)) ==> t !in s.lock.writers
    ensures Done(PhaseOf(s, t)) && t !in s.lock.writers ==> t !in LockStep(s.lock, t, b).writers
  {
    hide UnlockWriteLine, LockWriteLine, Releasing;
    assert PhaseFits(PhaseOf(s, t), PcOf(s.lock, t), s.lock.readers[t], s.lock.writers[t]);
    if Done(PhaseOf(s, t)) && t !in s.lock.writers {
      LeavesByUnlock(s.lock, t);
      UnlockLineKeepsWriters(s.lock, t);
    }
  }

  lemma UnlockLineKeepsWriters(l: State, t: Thread)
    requires InUnlockWrite(PcOf(l, t))
    ensures UnlockWriteLine(l, t).writers == l.writers
  {
  }

  lemma NotYetHeld(run: seq<System>, t: Thread, a: nat)
    requires IsGuardedSystemRun(run) && a + 1 < |run|
    requires PhaseOf(run[a], t) == NoRequest && PhaseOf(run[a + 1], t) != NoRequest
    ensures t !in run[a].lock.writers && t !in run[a + 1].lock.writers && !Done(PhaseOf(run[a + 1], t))
  {
    SystemRunKeepsInv(run, a);
    assert PhaseFits(PhaseOf(run[a], t), PcOf(run[a].lock, t), run[a].lock.readers[t], run[a].lock.writers[t]);
    assert NextSystem(run[a], run[a + 1]);
    StepKeepsRequest(run[a], run[a + 1], t);
  }

  /** A writing handler gets the write lock at most once, and is done only after it has. */
  lemma {:induction false} WriteLockOfHandler(run: seq<System>, t: Thread, a: nat, b: nat) returns (i: nat)
    requires IsGuardedSystemRun(run) && Serves(run, t, a, b) && Writes(PhaseOf(run[b], t))
    ensures t in run[b].lock.writers || Done(PhaseOf(run[b], t)) ==>
              a <= i < b && HoldsUntilDone(run, t, i, b) && forall k | a <= k < b && GetsWriteLock(run, t, k) :: k == i
    ensures !(t in run[b].lock.writers || Done(PhaseOf(run[b], t)))
            ==> forall k | a <= k < b :: !GetsWriteLock(run, t, k)
    decreases b
  {
    hide MoveEnabled, Do, SystemInv, PhasesInv, Done, RequestOf;
    i := 0;
    if b == a + 1 {
      NotYetHeld(run, t, a);
    } else {
      assert NextSystem(run[b - 1], run[b]);
      StepKeepsRequest(run[b - 1], run[b], t);
      SameRequestWrites(PhaseOf(run[b - 1], t), PhaseOf(run[b], t));
      i := WriteLockOfHandler(run, t, a, b - 1);
      RunPhasesInv(run, b - 1);
      WriterStep(run[b - 1], run[b], t);
      if GetsWriteLock(run, t, b - 1) {
        i := b - 1;
      }
    }
  }

  lemma SameRequestWrites(p: Phase, q: Phase)
    requires RequestOf(p) == RequestOf(q)
    ensures Writes(p) == Writes(q)
  {
  }

  lemma RunPhasesInv(run: seq<System>, i: nat)
    requires IsGuardedSystemRun(run) && i < |run|
    ensures PhasesInv(run[i])
  {
    SystemRunKeepsInv(run, i);
  }

  /** The one moment at which a writing handler gets the write lock. */
  ghost predicate GetsWriteLockOnlyAt(run: seq<System>, t: Thread, a: nat, b: nat, i: nat) {
    a <= i < b && GetsWriteLock(run, t, i) && forall k | a <= k < b && GetsWriteLock(run, t, k) :: k == i
  }

  /** Such a handler gets the lock once, and its effect comes while it holds it. */
  lemma EffectUnderWriteLock(run: seq<System>, t: Thread, a: nat, b: nat) returns (i: nat, n: nat)
    requires IsGuardedSystemRun(run) && Completes(run, t, a, b) && Writes(PhaseOf(run[b], t))
    ensures |run[b].actors| == |run[b].log|
    ensures GetsWriteLockOnlyAt(run, t, a, b, i)
    ensures EffectsSince(run[b], t, |run[a].log|) == {n}
    ensures forall k | i < k <= b && |run[k].log| <= n :: t in run[k].lock.writers
    ensures |run[i + 1].log| <= n
  {
    hide MoveEnabled, Do, SystemInv, PhasesInv;
    n := TakesEffectOnce(run, t, a, b);
    var c := EffectsOfHandler(run, t, a, b);
    assert n in EffectsSince(run[b], t, |run[a].log|);
    var c' := EffectsOfHandler(run, t, a, c);
    assert RequestOf(PhaseOf(run[c], t)) == RequestOf(PhaseOf(run[b], t));
    i := WriteLockOfHandler(run, t, a, b);
    var j := WriteLockOfHandler(run, t, a, c);
    RunPhasesInv(run, c);
    RunPhasesInv(run, c + 1);
    assert NextSystem(run[c], run[c + 1]);
    StepKeepsRequest(run[c], run[c + 1], t);
    WriterStep(run[c], run[c + 1], t);
    assert j == i;
    LogKeepsGrowing(run, i + 1, c);
    forall k | i < k <= b && |run[k].log| <= n
      ensures t in run[k].lock.writers
    {
      if k > c {
        LogKeepsGrowing(run, c + 1, k);
      } else {
        NotDoneBefore(run, t, a, k, c);
      }
    }
  }

  lemma {:induction false} NotDoneBefore(run: seq<System>, t: Thread, a: nat, k: nat, c: nat)
    requires IsSystemRun(run) && Serves(run, t, a, c) && a < k <= c && !Done(PhaseOf(run[c], t))
    ensures !Done(PhaseOf(run[k], t))
    decreases c
  {
    if k < c {
      assert NextSystem(run[c - 1], run[c]);
      StepKeepsRequest(run[c - 1], run[c], t);
      NotDoneBefore(run, t, a, k, c - 1);
    }
  }

  lemma OneWriter(run: seq<System>, k: nat, t: Thread, u: Thread)
    requires IsGuardedSystemRun(run) && k < |run| && t in run[k].lock.writers && u in run[k].lock.writers
    ensures t == u
  {
    SystemRunKeepsInv(run, k);
  }

  /** No two handlers get the write lock in the same step. */
  lemma WriteLocksAreSeparate(run: seq<System>, t: Thread, a: nat, b: nat, u: Thread, c: nat, d: nat, i: nat)
    requires IsGuardedSystemRun(run) && Serves(run, t, a, b) && Serves(run, u, c, d)
    requires GetsWriteLockOnlyAt(run, t, a, b, i) && GetsWriteLockOnlyAt(run, u, c, d, i)
    ensures t == u && a == c
  {
    hide MoveEnabled, Do, SystemInv;
    OneWriter(run, i + 1, t, u);
    NotYetHeld(run, t, a);
    NotYetHeld(run, u, c);
    assert a < i && c < i;
  }

  lemma LockedFirstTakesEffectFirst(
    run: seq<System>, t: Thread, a: nat, b: nat, i: nat, u: Thread, c: nat, d: nat, j: nat)
    returns (n: nat, m: nat)
    requires IsGuardedSystemRun(run)
    requires Completes(run, t, a, b) && Writes(PhaseOf(run[b], t)) && GetsWriteLockOnlyAt(run, t, a, b, i)
    requires Completes(run, u, c, d) && Writes(PhaseOf(run[d], u)) && GetsWriteLockOnlyAt(run, u, c, d, j)
    requires i < j
    ensures |run[b].actors| == |run[b].log| && |run[d].actors| == |run[d].log|
    ensures n < m && EffectsSince(run[b], t, |run[a].log|) == {n} && EffectsSince(run[d], u, |run[c].log|) == {m}
  {
    hide MoveEnabled, Do, SystemInv;
    var i', j';
    i', n := EffectUnderWriteLock(run, t, a, b);
    j', m := EffectUnderWriteLock(run, u, c, d);
    assert i' == i && j' == j;
    LogKeepsGrowing(run, j, j + 1);
    if |run[j + 1].log| <= n {
      if j + 1 > b {
        LogKeepsGrowing(run, b, j + 1);
      }
      assert t in run[j].lock.writers && t in run[j + 1].lock.writers;
      OneWriter(run, j + 1, t, u);
    }
    assert n < m;
  }

  /** The order of Sets and Clears is the order in which they get the write lock: of two handlers
      that get it at i and j, the one that gets it first takes effect first. */
  lemma WriteLockOrder(run: seq<System>, t: Thread, a: nat, b: nat, i: nat, u: Thread, c: nat, d: nat, j: nat)
    requires IsGuardedSystemRun(run) && (t, a) != (u, c)
    requires Completes(run, t, a, b) && Writes(PhaseOf(run[b], t)) && GetsWriteLockOnlyAt(run, t, a, b, i)
    requires Completes(run, u, c, d) && Writes(PhaseOf(run[d], u)) && GetsWriteLockOnlyAt(run, u, c, d, j)
    ensures |run[b].actors| == |run[b].log| && |run[d].actors| == |run[d].log|
    ensures exists n, m ::
              && EffectsSince(run[b], t, |run[a].log|) == {n} && EffectsSince(run[d], u, |run[c].log|) == {m}
              && n != m && (n < m <==> i < j)
  {
    hide MoveEnabled, Do, SystemInv, EffectsSince;
    if i < j {
      var n, m := LockedFirstTakesEffectFirst(run, t, a, b, i, u, c, d, j);
    } else if j < i {
      var m, n := LockedFirstTakesEffectFirst(run, u, c, d, j, t, a, b, i);
    } else {
      WriteLocksAreSeparate(run, t, a, b, u, c, d, i);
    }
  }

  // ---------- The sequential run ----------

  ghost predicate NobodyAssigning(s: System) {
    forall t: Thread :: Quiet(PhaseOf(s, t))
  }

  lemma CacheIsModel(s: System)
    requires ModelInv(s) && NobodyAssigning(s)
    ensures s.data == AsStored(Model(s.log))
  {
    forall k: Key
      ensures Agrees(s.data, Model(s.log), k)
    {
      assert !BeingAssigned(s, k);
    }
    forall k: Key
      ensures k in s.data <==> k in Model(s.log)
      ensures k in s.data ==> s.data[k] == Entry(Model(s.log)[k].0, Some(Model(s.log)[k].1))
    {
      assert Agrees(s.data, Model(s.log), k);
    }
  }

  /** The effects, in their order, are a sequential run on a plain map: each Get answers what
      the effects before it leave, and whenever no Set is between its insert and its last
      assignment the cache is that plain map. */
  lemma Linearizable(run: seq<System>, i: nat)
    requires IsGuardedSystemRun(run) && i < |run|
    ensures Sequential(run[i].log)
    ensures NobodyAssigning(run[i]) ==> run[i].data == AsStored(Model(run[i].log))
  {
    SystemRunKeepsInv(run, i);
    if NobodyAssigning(run[i]) {
      CacheIsModel(run[i]);
    }
  }

  /** A handler that works with a map iterator never finds it dangling, whatever the other
      threads do, and never finds an entry without a buffer. */
  lemma IteratorsStayValid(run: seq<System>, i: nat, t: Thread, k: Key)
    requires IsGuardedSystemRun(run) && i < |run| && InSection(run[i], t)
    requires PhaseOf(run[i], t).Get? && PhaseOf(run[i], t).key == k && PhaseOf(run[i], t).getAt != Find
    ensures IteratorValid(run[i], k)
  {
    SystemRunKeepsInv(run, i);
    DataNeverBlocks(run[i], t);
  }

  /** The reply a Get returns is never torn: flags and value come from one Set, the latest of
      that key at the moment n, between begin and return, at which the Get takes effect; or
      there is none and the reply says so. */
  lemma NoTornReply(run: seq<System>, t: Thread, a: nat, b: nat, k: Key, r: Reply) returns (n: nat)
    requires IsGuardedSystemRun(run) && Completes(run, t, a, b) && PhaseOf(run[b], t) == Get(k, Replied(r))
    ensures |run[b].actors| == |run[b].log|
    ensures |run[a].log| <= n < |run[b].log| && EffectsSince(run[b], t, |run[a].log|) == {n}
    ensures match r
            case Hit(f, v) => exists j: nat :: LatestSet(run[b].log, n, j, k) && run[b].log[j] == DidSet(k, f, v)
            case KeyNotFound => forall j: nat :: !LatestSet(run[b].log, n, j, k)
            case NotStored => false
  {
    n := TakesEffectOnce(run, t, a, b);
    Linearizable(run, b);
    var log := run[b].log;
    assert log[n] == DidGet(k, r);
    if k in Model(log[..n]) {
      var j := ModelHasLatestSet(log, n, k);
    } else if j: nat :| LatestSet(log, n, j, k) {
      LatestSetInModel(log, n, j, k);
      assert false;
    }
  }
}
