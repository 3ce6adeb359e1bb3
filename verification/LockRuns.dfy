/** Safety of the locks over whole runs of the machine of LockMachine. */
module LockRuns {
  import opened LockMachine
  import opened LockSteps

  lemma BeginKeeps(s: State, a: Step)
    requires Inv(s) && Enabled(s, a) && (a.BeginEnter? || a.BeginExit?)
    ensures Inv(Apply(s, a))
  {
    assert LockOk(s, a.l) && ThreadOk(s, a.t, a.l);
    if a.BeginEnter? { BeginEnterIsQuiet(s, a.t, a.l); } else { BeginExitIsQuiet(s, a.t, a.l); }
    QuietKeeps(s, Apply(s, a), a.t, a.l);
  }

  predicate MovesOnly(a: Step) {
    a.Reenter? || a.OpenFails? || a.FlockFails? || a.Interrupt? || a.StoreHandle? || a.Count? || a.Raise?
    || a.Decrement? || a.TestDepth? || a.UnlockFails? || a.Release?
  }

  /** The steps of a call that only move the thread or change the lock's own fields. */
  lemma MoveIsQuiet(s: State, a: Step, l: LockId)
    requires MovesOnly(a) && Enabled(s, a) && Working(s, a.t, l)
    ensures QuietStep(s, Apply(s, a), a.t, l)
  {
    match a {
      case Reenter(t) => ReenterIsQuiet(s, t, l);
      case OpenFails(t) => OpenFailsIsQuiet(s, t, l);
      case FlockFails(t) => FlockFailsIsQuiet(s, t, l);
      case Interrupt(t) => InterruptIsQuiet(s, t, l);
      case StoreHandle(t) => StoreHandleIsQuiet(s, t, l);
      case Count(t) => CountIsQuiet(s, t, l);
      case Raise(t) => RaiseIsQuiet(s, t, l);
      case Decrement(t) => DecrementIsQuiet(s, t, l);
      case TestDepth(t) => TestDepthIsQuiet(s, t, l);
      case UnlockFails(t) => UnlockFailsIsQuiet(s, t, l);
      case Release(t) => ReleaseIsQuiet(s, t, l);
    }
  }

  lemma MoveIsWorking(s: State, a: Step)
    requires Inv(s) && MovesOnly(a) && Enabled(s, a)
    ensures s.PcOf(a.t) != Idle && Working(s, a.t, s.PcOf(a.t).lock)
  {
    hide Inv;
    assert s.PcOf(a.t) != Idle;
    InvWorking(s, a.t);
  }

  lemma MoveKeeps(s: State, a: Step)
    requires Inv(s) && MovesOnly(a) && Enabled(s, a)
    ensures Inv(Apply(s, a))
  {
    hide Inv, Apply, Enabled, QuietStep, Working;
    MoveIsWorking(s, a);
    var l := s.PcOf(a.t).lock;
    MoveIsQuiet(s, a, l);
    QuietKeeps(s, Apply(s, a), a.t, l);
  }

  lemma CloseStepKeeps(s: State, a: Step)
    requires Inv(s) && Enabled(s, a) && (a.CloseFailed? || a.Close?)
    ensures Inv(Apply(s, a))
  {
    hide Inv, OnlyTouches, LockOk;
    InvWorking(s, a.t);
    var pc := s.PcOf(a.t);
    if a.Close? { CloseTouches(s, a.t, pc.lock); } else { CloseFailedTouches(s, a.t, pc.lock); }
    ClosingKeeps(s, Apply(s, a), a.t, pc.lock, pc.h);
  }

  lemma RegistryStepKeeps(s: State, a: Step)
    requires Inv(s) && Enabled(s, a) && (a.FindLock? || a.MakeLock? || a.DropRef? || a.Collect?)
    ensures Inv(Apply(s, a))
  {
    if a.FindLock? { FindLockKeeps(s, a.t, a.m, a.path); }
    if a.MakeLock? { MakeLockKeeps(s, a.t, a.m, a.path, a.newId); }
    if a.DropRef? { DropRefKeeps(s, a.t, a.l); }
    if a.Collect? { CollectKeeps(s, a.l); }
  }

  lemma FileStepKeeps(s: State, a: Step)
    requires Inv(s) && Enabled(s, a) && (a.Open? || a.Flock? || a.Unlock? || a.CloseFailed? || a.Close?)
    ensures Inv(Apply(s, a))
  {
    if a.Open? { OpenKeeps(s, a.t, a.h); }
    if a.Flock? { FlockKeeps(s, a.t); }
    if a.Unlock? { UnlockKeeps(s, a.t); }
    if a.CloseFailed? || a.Close? { CloseStepKeeps(s, a); }
  }

  /** Every step of every thread keeps the invariant. */
  lemma StepKeeps(s: State, a: Step)
    requires Inv(s) && Enabled(s, a)
    ensures Inv(Apply(s, a))
  {
    if MovesOnly(a) {
      MoveKeeps(s, a);
    } else if a.BeginEnter? || a.BeginExit? {
      BeginKeeps(s, a);
    } else if a.FindLock? || a.MakeLock? || a.DropRef? || a.Collect? {
      RegistryStepKeeps(s, a);
    } else {
      FileStepKeeps(s, a);
    }
  }

  /** The invariant holds in every state of every run. */
  lemma {:induction false} RunKeeps(states: seq<State>, steps: seq<Step>, i: nat)
    requires IsRun(states, steps) && i < |states|
    ensures Inv(states[i])
  {
    if i > 0 {
      RunKeeps(states, steps, i - 1);
      StepKeeps(states[i - 1], steps[i - 1]);
      assert states[i - 1 + 1] == Apply(states[i - 1], steps[i - 1]);
    }
  }

  /**
   * Safety over whole runs: two regions of one path are never occupied by different threads or through different
   * locks.
   */
  lemma RunExcludes(states: seq<State>, steps: seq<Step>, i: nat, t: Thread, l: LockId, u: Thread, m: LockId)
    requires IsRun(states, steps) && i < |states|
    requires states[i].Inside(t, l) > 0 && states[i].Inside(u, m) > 0
    ensures l in states[i].locks && m in states[i].locks
    ensures states[i].locks[l].path == states[i].locks[m].path ==> t == u && l == m
  {
    RunKeeps(states, steps, i);
    assert ThreadOk(states[i], t, l) && ThreadOk(states[i], u, m);
    if states[i].locks[l].path == states[i].locks[m].path { MutualExclusion(states[i], t, l, u, m); }
  }

  /** The accesses of a call are safe: its lock is held, and __exit__ always finds a handle to unlock and close. */
  lemma CallsAreSafe(s: State, t: Thread)
    requires Inv(s) && s.PcOf(t) != Idle
    ensures HoldsRLock(s, t)
    ensures var k := s.locks[s.PcOf(t).lock];
            (s.PcOf(t).Leaving? ==> k.depth > 0) && (s.PcOf(t).Testing? && k.depth == 0 ==> k.handle.Some?)
  {
    hide Inv;
    InvWorking(s, t);
  }

  lemma InsideBeforeEntering(s: State, t: Thread, l: LockId)
    requires Inv(s) && s.PcOf(t) == Idle && l in s.locks && CanAcquire(s.locks[l], t)
    ensures s.Inside(t, l) == s.locks[l].depth
  {
    assert LockOk(s, l) && ThreadOk(s, t, l);
    hide Inv;
  }

  lemma BeginsEntering(s: State, t: Thread, l: LockId)
    requires Inv(s) && Enabled(s, BeginEnter(t, l))
    ensures l in s.locks && s.Inside(t, l) == s.locks[l].depth
    ensures Entering(Apply(s, BeginEnter(t, l)), t, l, s.locks[l])
  {
    hide Inv;
    InsideBeforeEntering(s, t, l);
  }

  lemma InvAt(s: State, t: Thread, l: LockId)
    requires Inv(s) && s.Busy(t, l)
    ensures l in s.locks && LockOk(s, l) && ThreadOk(s, t, l)
  {
    assert ThreadOk(s, t, l);
    hide LockOk;
  }

  lemma EndsEntering(s: State, t: Thread, l: LockId, before: Lock)
    requires Inv(s) && Enabled(s, Raise(t)) && Entering(s, t, l, before)
    ensures var after := Apply(s, Raise(t));
            l in after.locks && after.locks[l] == before && after.Inside(t, l) == before.depth
  {
    hide Inv;
    InvAt(s, t, l);
    hide ThreadOk, LockOk;
    FailedEnterRestores(s, t, l, before);
  }

  /** Over a run: an __enter__ that ends by raising hands back the lock it was called on. */
  lemma RunFailedEnterRestores(states: seq<State>, steps: seq<Step>, i: nat, j: nat, t: Thread, l: LockId)
    requires IsRun(states, steps) && i < j < |steps|
    requires steps[i] == BeginEnter(t, l) && steps[j] == Raise(t)
    requires forall k :: i < k < j ==> steps[k] != Count(t) && steps[k] != Raise(t)
    ensures l in states[i].locks && l in states[j + 1].locks && states[j + 1].locks[l] == states[i].locks[l]
    ensures states[j + 1].Inside(t, l) == states[i].Inside(t, l)
  {
    var before := states[i].locks[l];
    RunKeeps(states, steps, i);
    RunKeeps(states, steps, j);
    hide Inv, Apply, Entering;
    assert states[i + 1] == Apply(states[i], steps[i]);
    BeginsEntering(states[i], t, l);
    StillEntering(states, steps, i, j, t, l, before);
    EndsEntering(states[j], t, l, before);
    assert states[j + 1] == Apply(states[j], steps[j]);
  }

  lemma {:induction false} StillEntering(states: seq<State>, steps: seq<Step>, i: nat, j: nat, t: Thread, l: LockId,
                                         before: Lock)
    requires IsRun(states, steps) && i < j < |steps|
    requires Entering(states[i + 1], t, l, before)
    requires forall k :: i < k < j ==> steps[k] != Count(t) && steps[k] != Raise(t)
    ensures Entering(states[j], t, l, before)
    decreases j
  {
    if i + 1 < j {
      StillEntering(states, steps, i, j - 1, t, l, before);
      EnteringRemembers(states[j - 1], steps[j - 1], t, l, before);
      assert states[j - 1 + 1] == Apply(states[j - 1], steps[j - 1]);
    }
  }

  lemma RunExtends(states: seq<State>, steps: seq<Step>, a: Step) returns (states2: seq<State>, steps2: seq<Step>)
    requires IsRun(states, steps) && Enabled(states[|steps|], a)
    ensures |states2| == |steps2| + 1 && IsRun(states2, steps2) && states2[|steps2|] == Apply(states[|steps|], a)
  {
    states2, steps2 := states + [Apply(states[|steps|], a)], steps + [a];
    forall i | 0 <= i < |steps2|
      ensures Enabled(states2[i], steps2[i]) && states2[i + 1] == Apply(states2[i], steps2[i])
    {
      if i < |steps| { assert states2[i] == states[i] && states2[i + 1] == states[i + 1]; }
    }
  }

  lemma RunOpens(t: Thread, m: Manager, path: Path) returns (states: seq<State>, steps: seq<Step>)
    ensures IsRun(states, steps)
    ensures var s, l := states[|steps|], LockId(0);
            && l in s.locks && s.locks[l].path == path && s.locks[l].count > 0 && path !in s.flock
            && s.PcOf(t).Locking? && s.PcOf(t).lock == l && s.Inside(t, l) == 0
            && s.PcOf(t).before.depth == 0 && s.locks[l].depth == 0 && s.locks[l].count == 1
  {
    states, steps := [INITIAL], [];
    assert IsRun(states, steps);
    hide IsRun;
    states, steps := RunExtends(states, steps, MakeLock(t, m, path, LockId(0)));
    states, steps := RunExtends(states, steps, BeginEnter(t, LockId(0)));
    states, steps := RunExtends(states, steps, Open(t, Handle(0)));
  }

  lemma RunCounts(before: seq<State>, taken: seq<Step>, t: Thread, l: LockId, path: Path)
    returns (states: seq<State>, steps: seq<Step>)
    requires IsRun(before, taken)
    requires var s := before[|taken|];
             && l in s.locks && s.locks[l].path == path && s.locks[l].count > 0 && path !in s.flock
             && s.PcOf(t).Locking? && s.PcOf(t).lock == l && s.Inside(t, l) == 0
    ensures IsRun(states, steps)
    ensures var s := states[|steps|]; s.Inside(t, l) == 1 && l in s.locks && s.locks[l].path == path && path in s.flock
  {
    hide IsRun;
    states, steps := RunExtends(before, taken, Flock(t));
    states, steps := RunExtends(states, steps, StoreHandle(t));
    states, steps := RunExtends(states, steps, Count(t));
  }

  /** The machine is not idle: a run in which a thread gets a lock from a manager and stands inside its region. */
  lemma SomeRunEnters(t: Thread, m: Manager, path: Path) returns (states: seq<State>, steps: seq<Step>)
    ensures IsRun(states, steps)
    ensures var s, l := states[|steps|], LockId(0);
            s.Inside(t, l) == 1 && l in s.locks && s.locks[l].path == path && path in s.flock
  {
    states, steps := RunOpens(t, m, path);
    states, steps := RunCounts(states, steps, t, LockId(0), path);
  }

  /** A run that stops a first entry between storing its handle and counting its depth. */
  lemma RunStores(t: Thread, m: Manager, path: Path) returns (states: seq<State>, steps: seq<Step>)
    ensures IsRun(states, steps)
    ensures var s, l := states[|steps|], LockId(0);
            && l in s.locks && s.locks[l].path == path && s.locks[l].count == 1 && s.locks[l].depth == 0
            && s.locks[l].handle.Some? && path in s.flock && s.Inside(t, l) == 0
            && s.PcOf(t).Counting? && s.PcOf(t).lock == l && s.PcOf(t).before.depth == 0
  {
    states, steps := RunOpens(t, m, path);
    hide IsRun;
    states, steps := RunExtends(states, steps, Flock(t));
    states, steps := RunExtends(states, steps, StoreHandle(t));
  }
}
