/**
 The machine of LockMachine with an asynchronous exception at any point of a call, and what still holds then.
 The handlers of src/gestaltdb/concurrency.py see less than all of them: a point may lie outside the inner try, so
 that nothing closes the description, or outside the outer one, so that nothing releases the RLock.
 */
module LockInterrupts {
  import opened Common
  import opened LockMachine
  import opened LockSteps
  import LockRuns

  datatype Event =
    | Took(step: Step)
    | Abandon(t: Thread)        // no handler of the call sees the exception: the RLock stays as it is
    | OuterOnly(t: Thread)      // only the outer except, or the outer finally, sees it
    | OuterCounted(t: Thread)   // the outer except sees it with the depth counted
    | Freed(h: Handle)          // a file object nobody refers to is freed, which closes it

  ghost predicate Happens(s: State, e: Event) {
    match e
    case Took(a) => Enabled(s, a)
    case Abandon(t) =>
      var pc := s.PcOf(t);
      pc.Opening? || pc.Failing? || pc.Leaving? || pc.Testing? || pc.Releasing?
    case OuterOnly(t) => InOuterTry(s.PcOf(t))
    case OuterCounted(t) => HoldsRLock(s, t) && s.PcOf(t).Counting?
    case Freed(h) =>
      && h in s.open
      && (forall l :: l in s.locks ==> s.locks[l].handle != Some(h))
      && (forall t :: !Carries(s.PcOf(t), h))
  }

  predicate InOuterTry(pc: Pc) {
    pc.Locking? || pc.Storing? || pc.Counting? || pc.Closing? || pc.Testing? || pc.Unlocking? || pc.Dropping?
  }

  /** Where the outer handler takes a thread: to the release of the RLock. */
  function AfterOuter(pc: Pc): Pc
    requires InOuterTry(pc)
  {
    if pc.Testing? || pc.Unlocking? || pc.Dropping? then Releasing(pc.lock) else Failing(pc.lock, pc.before)
  }

  ghost function After(s: State, e: Event): State
    requires Happens(s, e)
  {
    match e
    case Took(a) => Apply(s, a)
    case Abandon(t) => At(s, t, Idle)
    case OuterOnly(t) => At(s, t, AfterOuter(s.PcOf(t)))
    case OuterCounted(t) =>
      var pc := s.PcOf(t);
      At(Put(s, pc.lock, s.locks[pc.lock].(depth := s.locks[pc.lock].depth + 1)), t, Failing(pc.lock, pc.before))
    case Freed(h) => s.(open := WithoutHandle(s.open, h), flock := WithoutFlockOf(s.flock, h))
  }

  ghost predicate IsEventRun(states: seq<State>, events: seq<Event>) {
    && |states| == |events| + 1
    && states[0] == INITIAL
    && forall i :: 0 <= i < |events| ==> Happens(states[i], events[i]) && states[i + 1] == After(states[i], events[i])
  }

  // What survives every exception.

  /** The RLock count and the depth are at least what the owner's regions and its current call account for. */
  ghost predicate Bound(s: State, t: Thread, l: LockId, k: Lock, pc: Pc) {
    && s.Inside(t, l) + (if pc == Idle then 0 else 1) <= k.count
    && s.Inside(t, l) + (if pc.Leaving? then 1 else 0) <= k.depth
    && (pc.Counting? || pc.Testing? ==> k.handle.Some?)
    && (pc.Storing? ==> HoldsFlock(s, l, pc.h))
    && (forall h :: Carries(pc, h) ==> OwnsHandle(s, l, h) && k.handle != Some(h))
  }

  ghost predicate LockSafe(s: State, l: LockId)
    requires l in s.locks
  {
    var k := s.locks[l];
    && (k.owner == None <==> k.count == 0)
    && (k.owner.Some? ==> Bound(s, k.owner.value, l, k, PcOn(s, k.owner.value, l)))
    && (k.depth > 0 ==> k.handle.Some?)
    && (k.handle.Some? ==> HoldsFlock(s, l, k.handle.value))
  }

  predicate ThreadSafe(s: State, t: Thread, l: LockId) {
    s.Busy(t, l) || s.Inside(t, l) > 0 ==> l in s.locks && s.locks[l].owner == Some(t) && (t, l) in s.refs
  }

  ghost predicate Safe(s: State) {
    && (forall l :: l in s.locks ==> LockSafe(s, l))
    && (forall t, l :: ThreadSafe(s, t, l))
  }

  /** Exclusion needs no more than this. */
  lemma SafeExcludes(s: State, t: Thread, l: LockId, u: Thread, m: LockId)
    requires Safe(s) && s.Inside(t, l) > 0 && s.Inside(u, m) > 0
    ensures l in s.locks && m in s.locks
    ensures s.locks[l].path == s.locks[m].path ==> t == u && l == m
  {
    assert ThreadSafe(s, t, l) && ThreadSafe(s, u, m);
    assert LockSafe(s, l) && LockSafe(s, m);
  }

  // Every event keeps it: the parts it leaves alone.

  lemma OtherLockSafe(s: State, s2: State, t: Thread, l: LockId, m: LockId)
    requires OnlyTouches(s, s2, t, l) && m in s.locks && m != l && LockSafe(s, m)
    ensures LockSafe(s2, m)
  {
    var k := s.locks[m];
    if k.owner.Some? {
      assert PcOn(s2, k.owner.value, m) == PcOn(s, k.owner.value, m);
      assert s2.Inside(k.owner.value, m) == s.Inside(k.owner.value, m);
    }
  }

  lemma OtherThreadSafe(s: State, s2: State, t: Thread, l: LockId, u: Thread, m: LockId)
    requires OnlyTouches(s, s2, t, l) && (u != t || m != l) && ThreadSafe(s, u, m)
    ensures ThreadSafe(s2, u, m)
  {
  }

  lemma EventOnOneLock(s: State, s2: State, t: Thread, l: LockId)
    requires Safe(s) && OnlyTouches(s, s2, t, l) && LockSafe(s2, l) && ThreadSafe(s2, t, l)
    ensures Safe(s2)
  {
    hide LockSafe, ThreadSafe;
    forall m | m in s2.locks ensures LockSafe(s2, m) {
      if m != l {
        assert LockSafe(s, m);
        OtherLockSafe(s, s2, t, l, m);
      }
    }
    forall u, m ensures ThreadSafe(s2, u, m) {
      if u != t || m != l {
        assert ThreadSafe(s, u, m);
        OtherThreadSafe(s, s2, t, l, u, m);
      }
    }
  }

  /** Thread t is in a call on l, and l and it are safe. */
  ghost predicate SafeIn(s: State, t: Thread, l: LockId) {
    Holds(s, t, l) && (t, l) in s.refs && LockSafe(s, l)
  }

  lemma BusyIsSafeIn(s: State, t: Thread)
    requires Safe(s) && s.PcOf(t) != Idle
    ensures SafeIn(s, t, s.PcOf(t).lock) && Bound(s, t, s.PcOf(t).lock, s.locks[s.PcOf(t).lock], s.PcOf(t))
  {
    var l := s.PcOf(t).lock;
    assert ThreadSafe(s, t, l);
    assert LockSafe(s, l);
    assert PcOn(s, t, l) == s.PcOf(t);
  }

  // Events that only move a thread.

  lemma MoveIsSafe(s: State, t: Thread, l: LockId, pc: Pc)
    requires Safe(s) && SafeIn(s, t, l) && (pc == Idle || pc.lock == l) && Bound(s, t, l, s.locks[l], pc)
    ensures Safe(At(s, t, pc))
  {
    PcTouches(s, t, l, pc);
    MovedLockSafe(s, t, l, pc);
    hide OnlyTouches, LockSafe, Bound;
    assert ThreadSafe(At(s, t, pc), t, l);
    EventOnOneLock(s, At(s, t, pc), t, l);
  }

  lemma MovedLockSafe(s: State, t: Thread, l: LockId, pc: Pc)
    requires SafeIn(s, t, l) && (pc == Idle || pc.lock == l) && Bound(s, t, l, s.locks[l], pc)
    ensures LockSafe(At(s, t, pc), l)
  {
    assert PcOn(At(s, t, pc), t, l) == pc;
  }

  predicate MovesOn(a: Step) {
    a.Reenter? || a.OpenFails? || a.FlockFails? || a.Interrupt? || a.UnlockFails?
  }

  lemma MoveStepIsSafe(s: State, a: Step)
    requires Safe(s) && Enabled(s, a) && MovesOn(a)
    ensures Safe(Apply(s, a))
  {
    hide Safe;
    BusyIsSafeIn(s, a.t);
    var pc := s.PcOf(a.t);
    match a {
      case Reenter(t) => MoveIsSafe(s, t, pc.lock, Counting(pc.lock, pc.before));
      case FlockFails(t) => MoveIsSafe(s, t, pc.lock, Closing(pc.lock, pc.h, pc.before));
      case UnlockFails(t) => MoveIsSafe(s, t, pc.lock, Dropping(pc.lock, pc.h));
      case OpenFails(t) => MoveIsSafe(s, t, pc.lock, Failing(pc.lock, pc.before));
      case Interrupt(t) => MoveIsSafe(s, t, pc.lock, Failing(pc.lock, pc.before));
    }
  }

  lemma AbandonIsSafe(s: State, t: Thread)
    requires Safe(s) && Happens(s, Abandon(t))
    ensures Safe(After(s, Abandon(t)))
  {
    BusyIsSafeIn(s, t);
    MoveIsSafe(s, t, s.PcOf(t).lock, Idle);
  }

  lemma OuterOnlyIsSafe(s: State, t: Thread)
    requires Safe(s) && Happens(s, OuterOnly(t))
    ensures Safe(After(s, OuterOnly(t)))
  {
    BusyIsSafeIn(s, t);
    MoveIsSafe(s, t, s.PcOf(t).lock, AfterOuter(s.PcOf(t)));
  }

  // Steps that change the lock.

  lemma BeginEnterLockSafe(s: State, t: Thread, l: LockId)
    requires Enabled(s, BeginEnter(t, l)) && LockSafe(s, l) && ThreadSafe(s, t, l)
    ensures LockSafe(Apply(s, BeginEnter(t, l)), l) && ThreadSafe(Apply(s, BeginEnter(t, l)), t, l)
  {
    assert PcOn(s, t, l) == Idle;
    assert PcOn(Apply(s, BeginEnter(t, l)), t, l) == Opening(l, s.locks[l]);
  }

  lemma BeginEnterIsSafe(s: State, t: Thread, l: LockId)
    requires Safe(s) && Enabled(s, BeginEnter(t, l))
    ensures Safe(Apply(s, BeginEnter(t, l)))
  {
    assert LockSafe(s, l) && ThreadSafe(s, t, l);
    BeginEnterTouches(s, t, l);
    BeginEnterLockSafe(s, t, l);
    hide OnlyTouches, Safe, LockSafe, ThreadSafe;
    EventOnOneLock(s, Apply(s, BeginEnter(t, l)), t, l);
  }

  lemma BeginExitLockSafe(s: State, t: Thread, l: LockId)
    requires Enabled(s, BeginExit(t, l)) && LockSafe(s, l) && ThreadSafe(s, t, l)
    ensures LockSafe(Apply(s, BeginExit(t, l)), l) && ThreadSafe(Apply(s, BeginExit(t, l)), t, l)
  {
    assert PcOn(s, t, l) == Idle;
    assert PcOn(Apply(s, BeginExit(t, l)), t, l) == Leaving(l);
  }

  lemma BeginExitIsSafe(s: State, t: Thread, l: LockId)
    requires Safe(s) && Enabled(s, BeginExit(t, l))
    ensures Safe(Apply(s, BeginExit(t, l)))
  {
    assert LockSafe(s, l) && ThreadSafe(s, t, l);
    assert CanAcquire(s.locks[l], t);
    BeginExitTouches(s, t, l);
    BeginExitLockSafe(s, t, l);
    hide OnlyTouches, Safe, LockSafe, ThreadSafe;
    EventOnOneLock(s, Apply(s, BeginExit(t, l)), t, l);
  }

  lemma StoreHandleLockSafe(s: State, t: Thread, l: LockId)
    requires Enabled(s, StoreHandle(t)) && SafeIn(s, t, l) && Bound(s, t, l, s.locks[l], s.PcOf(t))
    ensures LockSafe(Apply(s, StoreHandle(t)), l) && ThreadSafe(Apply(s, StoreHandle(t)), t, l)
  {
    var s2 := Apply(s, StoreHandle(t));
    assert PcOn(s2, t, l) == s2.PcOf(t);
  }

  lemma StoreHandleIsSafe(s: State, t: Thread)
    requires Safe(s) && Enabled(s, StoreHandle(t))
    ensures Safe(Apply(s, StoreHandle(t)))
  {
    var l := s.PcOf(t).lock;
    BusyIsSafeIn(s, t);
    StoreHandleTouches(s, t, l);
    StoreHandleLockSafe(s, t, l);
    hide OnlyTouches, Safe, LockSafe, ThreadSafe, Bound;
    EventOnOneLock(s, Apply(s, StoreHandle(t)), t, l);
  }

  lemma CountLockSafe(s: State, t: Thread, l: LockId)
    requires Enabled(s, Count(t)) && SafeIn(s, t, l) && Bound(s, t, l, s.locks[l], s.PcOf(t))
    ensures LockSafe(Apply(s, Count(t)), l) && ThreadSafe(Apply(s, Count(t)), t, l)
  {
    var s2 := Apply(s, Count(t));
    assert PcOn(s2, t, l) == Idle;
  }

  lemma CountIsSafe(s: State, t: Thread)
    requires Safe(s) && Enabled(s, Count(t))
    ensures Safe(Apply(s, Count(t)))
  {
    var l := s.PcOf(t).lock;
    BusyIsSafeIn(s, t);
    CountTouches(s, t, l);
    CountLockSafe(s, t, l);
    hide OnlyTouches, Safe, LockSafe, ThreadSafe, Bound;
    EventOnOneLock(s, Apply(s, Count(t)), t, l);
  }

  lemma OuterCountedTouches(s: State, t: Thread, l: LockId)
    requires Happens(s, OuterCounted(t)) && Holds(s, t, l)
    ensures OnlyTouches(s, After(s, OuterCounted(t)), t, l)
  {
  }

  lemma OuterCountedIsSafe(s: State, t: Thread)
    requires Safe(s) && Happens(s, OuterCounted(t))
    ensures Safe(After(s, OuterCounted(t)))
  {
    var s2, l := After(s, OuterCounted(t)), s.PcOf(t).lock;
    BusyIsSafeIn(s, t);
    OuterCountedTouches(s, t, l);
    hide OnlyTouches, Safe;
    assert PcOn(s2, t, l) == s2.PcOf(t) && s2.PcOf(t).Failing?;
    EventOnOneLock(s, s2, t, l);
  }

  lemma RaiseLockSafe(s: State, t: Thread, l: LockId)
    requires Enabled(s, Raise(t)) && SafeIn(s, t, l) && Bound(s, t, l, s.locks[l], s.PcOf(t))
    ensures LockSafe(Apply(s, Raise(t)), l) && ThreadSafe(Apply(s, Raise(t)), t, l)
  {
    var s2 := Apply(s, Raise(t));
    assert PcOn(s2, t, l) == Idle;
  }

  lemma RaiseIsSafe(s: State, t: Thread)
    requires Safe(s) && Enabled(s, Raise(t))
    ensures Safe(Apply(s, Raise(t)))
  {
    var l := s.PcOf(t).lock;
    BusyIsSafeIn(s, t);
    RaiseTouches(s, t, l);
    RaiseLockSafe(s, t, l);
    hide OnlyTouches, Safe, LockSafe, ThreadSafe, Bound;
    EventOnOneLock(s, Apply(s, Raise(t)), t, l);
  }

  lemma ReleaseLockSafe(s: State, t: Thread, l: LockId)
    requires Enabled(s, Release(t)) && SafeIn(s, t, l) && Bound(s, t, l, s.locks[l], s.PcOf(t))
    ensures LockSafe(Apply(s, Release(t)), l) && ThreadSafe(Apply(s, Release(t)), t, l)
  {
    var s2 := Apply(s, Release(t));
    assert PcOn(s2, t, l) == Idle;
  }

  lemma ReleaseIsSafe(s: State, t: Thread)
    requires Safe(s) && Enabled(s, Release(t))
    ensures Safe(Apply(s, Release(t)))
  {
    var l := s.PcOf(t).lock;
    BusyIsSafeIn(s, t);
    ReleaseTouches(s, t, l);
    ReleaseLockSafe(s, t, l);
    hide OnlyTouches, Safe, LockSafe, ThreadSafe, Bound;
    EventOnOneLock(s, Apply(s, Release(t)), t, l);
  }

  lemma DecrementLockSafe(s: State, t: Thread, l: LockId)
    requires Enabled(s, Decrement(t)) && SafeIn(s, t, l) && Bound(s, t, l, s.locks[l], s.PcOf(t))
    ensures LockSafe(Apply(s, Decrement(t)), l) && ThreadSafe(Apply(s, Decrement(t)), t, l)
  {
    var s2 := Apply(s, Decrement(t));
    assert PcOn(s2, t, l) == Testing(l);
  }

  lemma DecrementIsSafe(s: State, t: Thread)
    requires Safe(s) && Enabled(s, Decrement(t))
    ensures Safe(Apply(s, Decrement(t)))
  {
    var l := s.PcOf(t).lock;
    BusyIsSafeIn(s, t);
    DecrementTouches(s, t, l);
    DecrementLockSafe(s, t, l);
    hide OnlyTouches, Safe, LockSafe, ThreadSafe, Bound;
    EventOnOneLock(s, Apply(s, Decrement(t)), t, l);
  }

  lemma LastTestLockSafe(s: State, t: Thread, l: LockId)
    requires Enabled(s, TestDepth(t)) && s.locks[s.PcOf(t).lock].depth == 0
    requires SafeIn(s, t, l) && Bound(s, t, l, s.locks[l], s.PcOf(t))
    ensures LockSafe(Apply(s, TestDepth(t)), l) && ThreadSafe(Apply(s, TestDepth(t)), t, l)
  {
    assert PcOn(Apply(s, TestDepth(t)), t, l) == Unlocking(l, s.locks[l].handle.value);
  }

  lemma TestDepthIsSafe(s: State, t: Thread)
    requires Safe(s) && Enabled(s, TestDepth(t))
    ensures Safe(Apply(s, TestDepth(t)))
  {
    var l := s.PcOf(t).lock;
    BusyIsSafeIn(s, t);
    if s.locks[l].depth == 0 {
      LastTestTouches(s, t, l);
      LastTestLockSafe(s, t, l);
      hide OnlyTouches, Safe, LockSafe, ThreadSafe, Bound;
      EventOnOneLock(s, Apply(s, TestDepth(t)), t, l);
    } else {
      MoveIsSafe(s, t, l, Releasing(l));
      hide Safe;
    }
  }

  // Steps on files.

  lemma OpenIsSafe(s: State, t: Thread, h: Handle)
    requires Safe(s) && Enabled(s, Open(t, h))
    ensures Safe(Apply(s, Open(t, h)))
  {
    var s2, l := Apply(s, Open(t, h)), s.PcOf(t).lock;
    BusyIsSafeIn(s, t);
    OpenTouches(s, t, h, l);
    hide OnlyTouches, Safe;
    assert PcOn(s2, t, l) == Locking(l, h, s.PcOf(t).before);
    EventOnOneLock(s, s2, t, l);
  }

  lemma FlockLockSafe(s: State, t: Thread, l: LockId)
    requires Enabled(s, Flock(t)) && SafeIn(s, t, l) && Bound(s, t, l, s.locks[l], s.PcOf(t))
    ensures LockSafe(Apply(s, Flock(t)), l) && ThreadSafe(Apply(s, Flock(t)), t, l)
  {
    var s2 := Apply(s, Flock(t));
    assert Carries(s.PcOf(t), s.PcOf(t).h);
    assert PcOn(s2, t, l) == Storing(l, s.PcOf(t).h, s.PcOf(t).before);
  }

  lemma FlockIsSafe(s: State, t: Thread)
    requires Safe(s) && Enabled(s, Flock(t))
    ensures Safe(Apply(s, Flock(t)))
  {
    var l := s.PcOf(t).lock;
    BusyIsSafeIn(s, t);
    FlockTouches(s, t, l);
    FlockLockSafe(s, t, l);
    hide OnlyTouches, Safe, LockSafe, ThreadSafe, Bound;
    EventOnOneLock(s, Apply(s, Flock(t)), t, l);
  }

  lemma UnlockLockSafe(s: State, t: Thread, l: LockId)
    requires Enabled(s, Unlock(t)) && SafeIn(s, t, l) && Bound(s, t, l, s.locks[l], s.PcOf(t))
    ensures LockSafe(Apply(s, Unlock(t)), l) && ThreadSafe(Apply(s, Unlock(t)), t, l)
  {
    var s2 := Apply(s, Unlock(t));
    assert Carries(s.PcOf(t), s.PcOf(t).h);
    assert PcOn(s2, t, l) == Dropping(l, s.PcOf(t).h);
  }

  lemma UnlockTouchesOnly(s: State, t: Thread, l: LockId)
    requires Enabled(s, Unlock(t)) && SafeIn(s, t, l) && Bound(s, t, l, s.locks[l], s.PcOf(t))
    ensures OnlyTouches(s, Apply(s, Unlock(t)), t, l)
  {
    hide OnlyTouches, LockSafe;
    assert Carries(s.PcOf(t), s.PcOf(t).h);
    UnlockedTouches(s, t, l, s.PcOf(t).h, Dropping(l, s.PcOf(t).h));
  }

  lemma UnlockIsSafe(s: State, t: Thread)
    requires Safe(s) && Enabled(s, Unlock(t))
    ensures Safe(Apply(s, Unlock(t)))
  {
    var l := s.PcOf(t).lock;
    BusyIsSafeIn(s, t);
    UnlockTouchesOnly(s, t, l);
    UnlockLockSafe(s, t, l);
    hide OnlyTouches, Safe, LockSafe, ThreadSafe, Bound;
    EventOnOneLock(s, Apply(s, Unlock(t)), t, l);
  }

  lemma DroppedIsSafe(s: State, t: Thread, l: LockId, h: Handle, pc: Pc)
    requires Safe(s) && SafeIn(s, t, l) && Carries(s.PcOf(t), h) && Bound(s, t, l, s.locks[l], s.PcOf(t))
    requires (pc.Failing? || pc.Releasing?) && pc.lock == l
    ensures Safe(Dropped(s, t, h, pc))
  {
    var s2 := Dropped(s, t, h, pc);
    DroppedTouches(s, t, l, h, pc);
    hide OnlyTouches, Safe;
    assert PcOn(s2, t, l) == pc && PcOn(s, t, l) == s.PcOf(t);
    EventOnOneLock(s, s2, t, l);
  }

  lemma CloseIsSafe(s: State, a: Step)
    requires Safe(s) && Enabled(s, a) && (a.CloseFailed? || a.Close?)
    ensures Safe(Apply(s, a))
  {
    hide Safe;
    BusyIsSafeIn(s, a.t);
    var pc := s.PcOf(a.t);
    assert Carries(pc, pc.h);
    if a.Close? {
      DroppedIsSafe(s, a.t, pc.lock, pc.h, Releasing(pc.lock));
    } else {
      DroppedIsSafe(s, a.t, pc.lock, pc.h, Failing(pc.lock, pc.before));
    }
  }

  /** Nobody refers to the description, so no lock and no call loses anything. */
  lemma FreedIsSafe(s: State, h: Handle)
    requires Safe(s) && Happens(s, Freed(h))
    ensures Safe(After(s, Freed(h)))
  {
    var s2 := After(s, Freed(h));
    forall l | l in s2.locks ensures LockSafe(s2, l) {
      assert LockSafe(s, l);
      FreedLockSafe(s, h, l);
    }
    forall t, l ensures ThreadSafe(s2, t, l) { assert ThreadSafe(s, t, l); }
  }

  lemma FreedLockSafe(s: State, h: Handle, l: LockId)
    requires Happens(s, Freed(h)) && l in s.locks && LockSafe(s, l)
    ensures LockSafe(After(s, Freed(h)), l)
  {
    var s2, k := After(s, Freed(h)), s.locks[l];
    if k.owner.Some? {
      assert PcOn(s2, k.owner.value, l) == PcOn(s, k.owner.value, l);
      assert !Carries(s.PcOf(k.owner.value), h);
    }
  }

  // Steps on the registry.

  lemma LockSafeUnnoticed(s: State, s2: State, l: LockId)
    requires l in s.locks && LockSafe(s, l) && l in s2.locks && s2.locks[l] == s.locks[l]
    requires s2.pcs == s.pcs && s2.inside == s.inside && s2.open == s.open && s2.flock == s.flock
    ensures LockSafe(s2, l)
  {
    var k := s.locks[l];
    if k.owner.Some? { assert PcOn(s2, k.owner.value, l) == PcOn(s, k.owner.value, l); }
  }

  lemma RegistryIsSafe(s: State, s2: State)
    requires Safe(s)
    requires s2.pcs == s.pcs && s2.inside == s.inside && s2.open == s.open && s2.flock == s.flock
    requires forall l :: l in s2.locks ==> (l in s.locks && s2.locks[l] == s.locks[l]) || LockSafe(s2, l)
    requires forall t, l :: (s.Busy(t, l) || s.Inside(t, l) > 0) && l in s.locks && (t, l) in s.refs ==>
               l in s2.locks && s2.locks[l] == s.locks[l] && (t, l) in s2.refs
    ensures Safe(s2)
  {
    forall l | l in s2.locks ensures LockSafe(s2, l) {
      if l in s.locks && s2.locks[l] == s.locks[l] {
        assert LockSafe(s, l);
        LockSafeUnnoticed(s, s2, l);
      }
    }
    hide LockSafe;
    forall t, l ensures ThreadSafe(s2, t, l) { assert ThreadSafe(s, t, l); }
  }

  lemma FindLockIsSafe(s: State, t: Thread, m: Manager, path: Path)
    requires Safe(s) && Enabled(s, FindLock(t, m, path))
    ensures Safe(Apply(s, FindLock(t, m, path)))
  {
    hide Safe, LockSafe;
    RegistryIsSafe(s, Apply(s, FindLock(t, m, path)));
  }

  lemma MakeLockIsSafe(s: State, t: Thread, m: Manager, path: Path, newId: LockId)
    requires Safe(s) && Enabled(s, MakeLock(t, m, path, newId))
    ensures Safe(Apply(s, MakeLock(t, m, path, newId)))
  {
    hide Safe;
    RegistryIsSafe(s, Apply(s, MakeLock(t, m, path, newId)));
  }

  lemma DropRefIsSafe(s: State, t: Thread, l: LockId)
    requires Safe(s) && Enabled(s, DropRef(t, l))
    ensures Safe(Apply(s, DropRef(t, l)))
  {
    hide Safe, LockSafe;
    RegistryIsSafe(s, Apply(s, DropRef(t, l)));
  }

  lemma CollectIsSafe(s: State, l: LockId)
    requires Safe(s) && Enabled(s, Collect(l))
    ensures Safe(Apply(s, Collect(l)))
  {
    hide Safe, LockSafe;
    RegistryIsSafe(s, Apply(s, Collect(l)));
  }

  // Whole runs.

  lemma RegistryStepIsSafe(s: State, a: Step)
    requires Safe(s) && Enabled(s, a) && (a.FindLock? || a.MakeLock? || a.DropRef? || a.Collect?)
    ensures Safe(Apply(s, a))
  {
    hide Safe, Apply;
    if a.FindLock? { FindLockIsSafe(s, a.t, a.m, a.path); }
    if a.MakeLock? { MakeLockIsSafe(s, a.t, a.m, a.path, a.newId); }
    if a.DropRef? { DropRefIsSafe(s, a.t, a.l); }
    if a.Collect? { CollectIsSafe(s, a.l); }
  }

  lemma EnterStepIsSafe(s: State, a: Step)
    requires Safe(s) && Enabled(s, a)
    requires a.BeginEnter? || a.Open? || a.Flock? || a.StoreHandle? || a.Count? || a.Raise?
    ensures Safe(Apply(s, a))
  {
    hide Safe, Apply;
    if a.BeginEnter? { BeginEnterIsSafe(s, a.t, a.l); }
    if a.Open? { OpenIsSafe(s, a.t, a.h); }
    if a.Flock? { FlockIsSafe(s, a.t); }
    if a.StoreHandle? { StoreHandleIsSafe(s, a.t); }
    if a.Count? { CountIsSafe(s, a.t); }
    if a.Raise? { RaiseIsSafe(s, a.t); }
  }

  lemma ExitStepIsSafe(s: State, a: Step)
    requires Safe(s) && Enabled(s, a)
    requires a.BeginExit? || a.Decrement? || a.TestDepth? || a.Unlock? || a.Release?
    ensures Safe(Apply(s, a))
  {
    hide Safe, Apply;
    if a.BeginExit? { BeginExitIsSafe(s, a.t, a.l); }
    if a.Decrement? { DecrementIsSafe(s, a.t); }
    if a.TestDepth? { TestDepthIsSafe(s, a.t); }
    if a.Unlock? { UnlockIsSafe(s, a.t); }
    if a.Release? { ReleaseIsSafe(s, a.t); }
  }

  lemma StepIsSafe(s: State, a: Step)
    requires Safe(s) && Enabled(s, a)
    ensures Safe(Apply(s, a))
  {
    hide Safe, Apply, Enabled;
    if a.FindLock? || a.MakeLock? || a.DropRef? || a.Collect? {
      RegistryStepIsSafe(s, a);
    } else if a.BeginEnter? || a.Open? || a.Flock? || a.StoreHandle? || a.Count? || a.Raise? {
      EnterStepIsSafe(s, a);
    } else if a.BeginExit? || a.Decrement? || a.TestDepth? || a.Unlock? || a.Release? {
      ExitStepIsSafe(s, a);
    } else if a.CloseFailed? || a.Close? {
      CloseIsSafe(s, a);
    } else {
      MoveStepIsSafe(s, a);
    }
  }

  /** Every step, and an exception at any point of any call, keeps what exclusion needs. */
  lemma EventKeeps(s: State, e: Event)
    requires Safe(s) && Happens(s, e)
    ensures Safe(After(s, e))
  {
    match e
    case Took(a) => StepIsSafe(s, a);
    case Abandon(t) => AbandonIsSafe(s, t);
    case OuterOnly(t) => OuterOnlyIsSafe(s, t);
    case OuterCounted(t) => OuterCountedIsSafe(s, t);
    case Freed(h) => FreedIsSafe(s, h);
  }

  lemma {:induction false} EventRunKeeps(states: seq<State>, events: seq<Event>, i: nat)
    requires IsEventRun(states, events) && i < |states|
    ensures Safe(states[i])
  {
    if i > 0 {
      EventRunKeeps(states, events, i - 1);
      hide Safe, Happens, After;
      assert Happens(states[i - 1], events[i - 1]) && states[i - 1 + 1] == After(states[i - 1], events[i - 1]);
      EventKeeps(states[i - 1], events[i - 1]);
    }
  }

  /** Whatever exceptions strike the calls, two regions of one path are occupied by one thread through one lock. */
  lemma EventRunExcludes(states: seq<State>, events: seq<Event>, i: nat, t: Thread, l: LockId, u: Thread, m: LockId)
    requires IsEventRun(states, events) && i < |states|
    requires states[i].Inside(t, l) > 0 && states[i].Inside(u, m) > 0
    ensures l in states[i].locks && m in states[i].locks
    ensures states[i].locks[l].path == states[i].locks[m].path ==> t == u && l == m
  {
    EventRunKeeps(states, events, i);
    SafeExcludes(states[i], t, l, u, m);
  }

  // What an exception makes of a call of __enter__.

  /** The event is one of thread t inside a call. */
  predicate By(e: Event, t: Thread) {
    match e
    case Took(a) => ActsAs(a, t)
    case Abandon(u) => u == t
    case OuterOnly(u) => u == t
    case OuterCounted(u) => u == t
    case Freed(_) => false
  }

  /** The exceptions that the handler of __enter__ sees but does not undo. */
  predicate Spoils(s: State, e: Event, t: Thread) {
    e == OuterCounted(t) || (e == OuterOnly(t) && s.PcOf(t).Counting? && s.PcOf(t).before.depth == 0)
  }

  predicate EndsCall(e: Event, t: Thread) {
    e == Took(Count(t)) || e == Took(Raise(t)) || e == Abandon(t)
  }

  /** The lock during a call of t that found it as `before`, and after an exception that spoils it. */
  predicate Tracked(s: State, t: Thread, l: LockId, before: Lock, regions: nat, spoiled: bool) {
    && Entering(s, t, l, before) && l in s.locks && s.Inside(t, l) == regions
    && CanAcquire(before, t) && (before.owner == None <==> before.count == 0)
    && var (k, pc) := (s.locks[l], s.PcOf(t));
       && (pc.Locking? || pc.Storing? ==> before.depth == 0)
       && if spoiled then
            && pc.Failing? && k == Acquired(before, t).(handle := k.handle, depth := k.depth)
            && (k.handle, k.depth) != (before.handle, before.depth)
          else if pc.Counting? then
            && k == Acquired(before, t).(handle := k.handle)
            && (before.depth > 0 <==> k.handle == before.handle)
          else k == Acquired(before, t)
  }

  lemma OpeningTracks(s: State, a: Step, t: Thread, l: LockId, before: Lock, regions: nat, spoiled: bool)
    requires Enabled(s, a) && ActsAs(a, t) && (a.Reenter? || a.Open? || a.OpenFails? || a.Interrupt?)
    requires Tracked(s, t, l, before, regions, spoiled)
    ensures Tracked(Apply(s, a), t, l, before, regions, spoiled)
  {
  }

  lemma LockingTracks(s: State, a: Step, t: Thread, l: LockId, before: Lock, regions: nat, spoiled: bool)
    requires Enabled(s, a) && ActsAs(a, t) && (a.Flock? || a.FlockFails? || a.CloseFailed?)
    requires Tracked(s, t, l, before, regions, spoiled)
    ensures Tracked(Apply(s, a), t, l, before, regions, spoiled)
  {
  }

  lemma StoringTracks(s: State, t: Thread, l: LockId, before: Lock, regions: nat, spoiled: bool)
    requires Safe(s) && Enabled(s, StoreHandle(t)) && Tracked(s, t, l, before, regions, spoiled)
    ensures Tracked(Apply(s, StoreHandle(t)), t, l, before, regions, spoiled)
  {
    BusyIsSafeIn(s, t);
    assert Carries(s.PcOf(t), s.PcOf(t).h);
    assert s.locks[l].handle != Some(s.PcOf(t).h);
    hide Safe, SafeIn, Bound;
  }

  lemma EnteringSteps(s: State, a: Step, t: Thread, l: LockId, before: Lock)
    requires Entering(s, t, l, before) && Enabled(s, a) && ActsAs(a, t) && a != Count(t) && a != Raise(t)
    ensures a.Reenter? || a.Open? || a.OpenFails? || a.Interrupt? || a.Flock? || a.FlockFails? || a.CloseFailed?
            || a == StoreHandle(t)
  {
  }

  lemma OwnStepTracks(s: State, a: Step, t: Thread, l: LockId, before: Lock, regions: nat, spoiled: bool)
    requires Safe(s) && Enabled(s, a) && ActsAs(a, t) && a != Count(t) && a != Raise(t)
    requires Tracked(s, t, l, before, regions, spoiled)
    ensures Tracked(Apply(s, a), t, l, before, regions, spoiled)
  {
    assert Entering(s, t, l, before);
    hide Safe, Enabled, Apply, Tracked, Entering;
    EnteringSteps(s, a, t, l, before);
    if a.StoreHandle? {
      StoringTracks(s, t, l, before, regions, spoiled);
    } else if a.Flock? || a.FlockFails? || a.CloseFailed? {
      LockingTracks(s, a, t, l, before, regions, spoiled);
    } else {
      OpeningTracks(s, a, t, l, before, regions, spoiled);
    }
  }

  lemma OwnExceptionTracks(s: State, e: Event, t: Thread, l: LockId, before: Lock, regions: nat, spoiled: bool)
    requires Happens(s, e) && (e == OuterOnly(t) || e == OuterCounted(t))
    requires Tracked(s, t, l, before, regions, spoiled)
    ensures Tracked(After(s, e), t, l, before, regions, spoiled || Spoils(s, e, t))
  {
  }

  ghost predicate Leaves(s: State, s2: State, t: Thread, l: LockId) {
    && l in s.locks && l in s2.locks && s2.locks[l] == s.locks[l]
    && s2.Inside(t, l) == s.Inside(t, l) && s2.PcOf(t) == s.PcOf(t)
  }

  lemma EnterElsewhere(s: State, a: Step, l: LockId)
    requires Enabled(s, a) && l in s.locks
    requires a.BeginEnter? || a.Reenter? || a.Open? || a.OpenFails? || a.Flock? || a.FlockFails? || a.StoreHandle?
             || a.Count? || a.Interrupt? || a.CloseFailed? || a.Raise?
    requires if a.BeginEnter? then a.l != l else s.PcOf(a.t) != Idle && s.PcOf(a.t).lock != l
    ensures l in Apply(s, a).locks && Apply(s, a).locks[l] == s.locks[l]
  {
  }

  lemma ExitElsewhere(s: State, a: Step, l: LockId)
    requires Enabled(s, a) && l in s.locks && (a.Decrement? || a.TestDepth? || a.Release?)
    requires s.PcOf(a.t) != Idle && s.PcOf(a.t).lock != l
    ensures l in Apply(s, a).locks && Apply(s, a).locks[l] == s.locks[l]
  {
  }

  lemma LocksUnchanged(s: State, a: Step)
    requires Enabled(s, a) && (a.BeginExit? || a.Unlock? || a.UnlockFails? || a.Close?)
    ensures Apply(s, a).locks == s.locks
  {
  }

  /** A step of another thread in a call is about another lock. */
  lemma OthersWorkElsewhere(s: State, a: Step, t: Thread, l: LockId)
    requires Safe(s) && Enabled(s, a) && s.Busy(t, l)
    requires !a.FindLock? && !a.MakeLock? && !a.DropRef? && !a.Collect? && a.t != t
    ensures l in s.locks
    ensures if a.BeginEnter? then a.l != l else a.BeginExit? || (s.PcOf(a.t) != Idle && s.PcOf(a.t).lock != l)
  {
    assert ThreadSafe(s, t, l) && ThreadSafe(s, a.t, l);
    hide Safe;
  }

  lemma EnterKeepsInside(s: State, a: Step)
    requires Enabled(s, a)
    requires a.BeginEnter? || a.Reenter? || a.Open? || a.OpenFails? || a.Flock? || a.FlockFails? || a.StoreHandle?
             || a.Interrupt? || a.CloseFailed? || a.Raise?
    ensures Apply(s, a).inside == s.inside
  {
  }

  lemma ExitKeepsInside(s: State, a: Step)
    requires Enabled(s, a)
    requires a.Decrement? || a.TestDepth? || a.Unlock? || a.UnlockFails? || a.Close? || a.Release?
    ensures Apply(s, a).inside == s.inside
  {
  }

  lemma StepKeepsInside(s: State, a: Step, t: Thread, l: LockId)
    requires Enabled(s, a) && !a.FindLock? && !a.MakeLock? && !a.DropRef? && !a.Collect? && a.t != t
    ensures Apply(s, a).Inside(t, l) == s.Inside(t, l)
  {
    if a.Decrement? || a.TestDepth? || a.Unlock? || a.UnlockFails? || a.Close? || a.Release? {
      ExitKeepsInside(s, a);
      hide Apply, Enabled;
    } else if !a.Count? && !a.BeginExit? {
      EnterKeepsInside(s, a);
      hide Apply, Enabled;
    }
  }

  /** The lock of a thread in a call is left alone by every other thread. */
  lemma OtherEventLeavesLock(s: State, e: Event, t: Thread, l: LockId)
    requires Safe(s) && Happens(s, e) && s.Busy(t, l) && !By(e, t)
    ensures Leaves(s, After(s, e), t, l)
  {
    assert ThreadSafe(s, t, l);
    match e
    case Took(a) => OtherStepLeavesLock(s, a, t, l);
    case Freed(_) =>
    case _ => BusyIsSafeIn(s, e.t);
  }

  lemma RegistryLeavesLock(s: State, a: Step, t: Thread, l: LockId)
    requires Enabled(s, a) && s.Busy(t, l) && ThreadSafe(s, t, l)
    requires a.Collect? || a.FindLock? || a.MakeLock? || a.DropRef?
    ensures Leaves(s, Apply(s, a), t, l)
  {
  }

  lemma CallLeavesLock(s: State, a: Step, t: Thread, l: LockId)
    requires Safe(s) && Enabled(s, a) && s.Busy(t, l) && !ActsAs(a, t)
    requires !a.FindLock? && !a.MakeLock? && !a.DropRef? && !a.Collect?
    ensures Leaves(s, Apply(s, a), t, l)
  {
    OtherStepKeepsPc(s, a, t);
    OthersWorkElsewhere(s, a, t, l);
    StepKeepsInside(s, a, t, l);
    hide Safe, Apply, Enabled;
    if a.BeginExit? || a.Unlock? || a.UnlockFails? || a.Close? {
      LocksUnchanged(s, a);
    } else if a.Decrement? || a.TestDepth? || a.Release? {
      ExitElsewhere(s, a, l);
    } else {
      EnterElsewhere(s, a, l);
    }
  }

  lemma OtherStepLeavesLock(s: State, a: Step, t: Thread, l: LockId)
    requires Safe(s) && Enabled(s, a) && s.Busy(t, l) && !ActsAs(a, t)
    ensures Leaves(s, Apply(s, a), t, l)
  {
    assert ThreadSafe(s, t, l);
    hide Safe, Apply, Enabled, ThreadSafe;
    if a.Collect? || a.FindLock? || a.MakeLock? || a.DropRef? {
      RegistryLeavesLock(s, a, t, l);
    } else {
      CallLeavesLock(s, a, t, l);
    }
  }

  lemma EventTracks(s: State, e: Event, t: Thread, l: LockId, before: Lock, regions: nat, spoiled: bool)
    requires Safe(s) && Happens(s, e) && !EndsCall(e, t)
    requires Tracked(s, t, l, before, regions, spoiled)
    ensures Tracked(After(s, e), t, l, before, regions, spoiled || Spoils(s, e, t))
  {
    if !By(e, t) {
      OtherEventLeavesLock(s, e, t, l);
      hide Safe, Happens, After;
    } else if e.Took? {
      OwnStepTracks(s, e.step, t, l, before, regions, spoiled);
    } else {
      OwnExceptionTracks(s, e, t, l, before, regions, spoiled);
    }
  }

  ghost predicate SpoiledBetween(states: seq<State>, events: seq<Event>, i: nat, j: nat, t: Thread)
    requires |states| == |events| + 1 && j <= |events|
  {
    exists k :: i < k < j && Spoils(states[k], events[k], t)
  }

  lemma RunStep(states: seq<State>, events: seq<Event>, i: nat)
    requires IsEventRun(states, events) && i < |events|
    ensures |states| == |events| + 1 && Safe(states[i])
    ensures Happens(states[i], events[i]) && states[i + 1] == After(states[i], events[i])
  {
    EventRunKeeps(states, events, i);
    hide Safe, Happens, After;
  }

  lemma {:induction false} StillTracked(states: seq<State>, events: seq<Event>, i: nat, j: nat, t: Thread, l: LockId)
    requires IsEventRun(states, events) && i < j <= |events| && events[i] == Took(BeginEnter(t, l))
    requires forall k :: i < k < j ==> !EndsCall(events[k], t)
    ensures j < |states| && l in states[i].locks
    ensures Tracked(states[j], t, l, states[i].locks[l], states[i].Inside(t, l),
                    SpoiledBetween(states, events, i, j, t))
    decreases j
  {
    hide IsEventRun, Tracked, Spoils, Safe, Apply, Happens, After, SpoiledBetween;
    RunStep(states, events, j - 1);
    if i + 1 < j {
      StillTracked(states, events, i, j - 1, t, l);
      var before, regions := states[i].locks[l], states[i].Inside(t, l);
      EventTracks(states[j - 1], events[j - 1], t, l, before, regions, SpoiledBetween(states, events, i, j - 1, t));
      SpoiledLater(states, events, i, j, t);
    } else {
      NotSpoiledYet(states, events, i, t);
      BeginTracks(states[i], events[i], t, l);
    }
  }

  lemma SpoiledLater(states: seq<State>, events: seq<Event>, i: nat, j: nat, t: Thread)
    requires |states| == |events| + 1 && i + 1 < j <= |events|
    ensures SpoiledBetween(states, events, i, j, t) <==>
              SpoiledBetween(states, events, i, j - 1, t) || Spoils(states[j - 1], events[j - 1], t)
  {
    hide Spoils;
  }

  lemma NotSpoiledYet(states: seq<State>, events: seq<Event>, i: nat, t: Thread)
    requires |states| == |events| + 1 && i < |events|
    ensures !SpoiledBetween(states, events, i, i + 1, t)
  {
  }

  lemma BeginTracks(s: State, e: Event, t: Thread, l: LockId)
    requires Safe(s) && Happens(s, e) && e == Took(BeginEnter(t, l))
    ensures l in s.locks && Tracked(After(s, e), t, l, s.locks[l], s.Inside(t, l), false)
  {
    assert LockSafe(s, l);
    hide Safe;
  }

  lemma RaiseOutcome(s: State, t: Thread, l: LockId, before: Lock, regions: nat, spoiled: bool)
    requires Enabled(s, Raise(t)) && Tracked(s, t, l, before, regions, spoiled)
    ensures var after := Apply(s, Raise(t));
            l in after.locks && after.Inside(t, l) == regions && (after.locks[l] == before <==> !spoiled)
  {
  }

  /**
   * Over any run with any exceptions: an __enter__ that ends by raising hands back the lock it was called on exactly
   * when none struck it once its own handle was stored, nor once its depth was counted.
   */
  lemma EventRunRestoresIff(states: seq<State>, events: seq<Event>, i: nat, j: nat, t: Thread, l: LockId)
    requires IsEventRun(states, events) && i < j < |events|
    requires events[i] == Took(BeginEnter(t, l)) && events[j] == Took(Raise(t))
    requires forall k :: i < k < j ==> !EndsCall(events[k], t)
    ensures l in states[i].locks && l in states[j + 1].locks
    ensures states[j + 1].locks[l] == states[i].locks[l] <==> !SpoiledBetween(states, events, i, j, t)
    ensures states[j + 1].Inside(t, l) == states[i].Inside(t, l)
  {
    StillTracked(states, events, i, j, t, l);
    assert Happens(states[j], events[j]) && states[j + 1] == After(states[j], events[j]);
    hide IsEventRun, SpoiledBetween, Tracked;
    var spoiled := SpoiledBetween(states, events, i, j, t);
    RaiseOutcome(states[j], t, l, states[i].locks[l], states[i].Inside(t, l), spoiled);
  }

  /**
   * An exception can strike wherever a thread is in a call. Which handlers see it depends on where: inside the inner
   * try the inner one does, and closes; inside the outer one only that does; before and after it none.
   */
  lemma ExceptionsStrike(s: State, t: Thread)
    requires HoldsRLock(s, t)
    ensures var pc := s.PcOf(t);
            && (Happens(s, Abandon(t)) <==> pc.Opening? || pc.Failing? || pc.Leaving? || pc.Testing? || pc.Releasing?)
            && (Happens(s, OuterOnly(t)) <==> !(pc.Opening? || pc.Failing? || pc.Leaving? || pc.Releasing?))
            && (Happens(s, OuterCounted(t)) <==> pc.Counting?)
            && (Happens(s, Took(FlockFails(t))) <==> pc.Locking? || pc.Storing?)
            && (Happens(s, Took(UnlockFails(t))) <==> pc.Unlocking?)
            && (Happens(s, Took(Interrupt(t))) <==> pc.Opening? || (pc.Counting? && pc.before.depth > 0))
  {
  }

  /** What no handler sees changes nothing but that the call is over: the RLock stays taken. */
  lemma AbandonedCall(s: State, t: Thread, u: Thread, l: LockId)
    requires Safe(s) && Happens(s, Abandon(t)) && l == s.PcOf(t).lock && u != t
    ensures var after := After(s, Abandon(t));
            && after == s.(pcs := after.pcs) && after.PcOf(t) == Idle && after.PcOf(u) == s.PcOf(u)
            && l in after.locks && after.locks[l].owner == Some(t) && !Enabled(after, BeginEnter(u, l))
  {
    BusyIsSafeIn(s, t);
  }

  // Descriptions that only the outer handler leaves open.

  /**
   * An exception outside the inner try of __enter__ releases the RLock but closes nothing: the description stays open,
   * and flocked if it was, with no lock and no call referring to it.
   */
  lemma OuterOnlyLeaks(s: State, t: Thread, l: LockId, before: Lock)
    requires l in s.locks && LockOk(s, l) && ThreadOk(s, t, l) && Entering(s, t, l, before)
    requires s.PcOf(t).Locking? || s.PcOf(t).Storing?
    ensures Enabled(After(s, OuterOnly(t)), Raise(t))
    ensures var (h, raised) := (s.PcOf(t).h, Apply(After(s, OuterOnly(t)), Raise(t)));
            && raised.locks[l] == before && before.handle == None
            && raised.open == s.open && raised.flock == s.flock
            && OwnsHandle(raised, l, h) && (s.PcOf(t).Storing? ==> HoldsFlock(raised, l, h))
  {
    assert PcOn(s, t, l) == s.PcOf(t);
  }

  lemma CarriesOwns(s: State, u: Thread, h: Handle)
    requires Inv(s) && Carries(s.PcOf(u), h)
    ensures h in s.open && s.open[h].opener in s.locks && s.locks[s.open[h].opener].owner == Some(u)
    ensures s.open[h].opener == s.PcOf(u).lock && s.locks[s.PcOf(u).lock].handle == None
  {
    InvWorking(s, u);
    hide Inv;
    WorkingShape(s, u, s.PcOf(u).lock);
  }

  lemma NobodyElseCarries(s: State, t: Thread, h: Handle)
    requires Inv(s) && Carries(s.PcOf(t), h)
    ensures forall m :: m in s.locks ==> s.locks[m].handle != Some(h)
    ensures forall u :: Carries(s.PcOf(u), h) ==> u == t
  {
    CarriesOwns(s, t, h);
    forall m | m in s.locks ensures s.locks[m].handle != Some(h) {
      assert LockOk(s, m);
      hide Inv;
    }
    forall u | Carries(s.PcOf(u), h) ensures u == t { CarriesOwns(s, u, h); }
  }

  /** The lock released and the call over, nothing closed. */
  function Raised(s: State, t: Thread, l: LockId): State
    requires l in s.locks && s.locks[l].count > 0
  {
    At(Put(s, l, Released(s.locks[l])), t, Idle)
  }

  lemma OuterOnlyRaises(s: State, t: Thread, l: LockId)
    requires Holds(s, t, l) && s.locks[l].count > 0 && (s.PcOf(t).Locking? || s.PcOf(t).Storing?)
    ensures Enabled(After(s, OuterOnly(t)), Raise(t))
    ensures Apply(After(s, OuterOnly(t)), Raise(t)) == Raised(s, t, l)
  {
    var outer := After(s, OuterOnly(t));
    assert outer.PcOf(t) == Failing(l, s.PcOf(t).before);
    assert s.pcs[t := outer.PcOf(t)][t := Idle] == s.pcs[t := Idle];
  }

  lemma InnerCloses(s: State, t: Thread, l: LockId)
    requires Holds(s, t, l) && s.locks[l].count > 0 && (s.PcOf(t).Locking? || s.PcOf(t).Storing?)
    ensures Enabled(s, FlockFails(t)) && Enabled(Apply(s, FlockFails(t)), CloseFailed(t))
    ensures Apply(Apply(s, FlockFails(t)), CloseFailed(t)) == Dropped(s, t, s.PcOf(t).h, Failing(l, s.PcOf(t).before))
  {
    var failed, pc := Apply(s, FlockFails(t)), s.PcOf(t);
    assert failed.PcOf(t) == Closing(l, pc.h, pc.before);
    assert s.pcs[t := failed.PcOf(t)][t := Failing(l, pc.before)] == s.pcs[t := Failing(l, pc.before)];
  }

  lemma DroppedRaises(s: State, t: Thread, l: LockId, h: Handle, before: Lock)
    requires Holds(s, t, l) && s.locks[l].count > 0
    ensures var closed := Dropped(s, t, h, Failing(l, before));
            && Enabled(closed, Raise(t))
            && Apply(closed, Raise(t)) == Raised(s, t, l).(open := closed.open, flock := closed.flock)
  {
    assert s.pcs[t := Failing(l, before)][t := Idle] == s.pcs[t := Idle];
  }

  /** Until its file object is freed; then it is as if the inner handler had closed it. */
  lemma FreedIsClosed(s: State, t: Thread, l: LockId, before: Lock)
    requires Inv(s) && Entering(s, t, l, before) && (s.PcOf(t).Locking? || s.PcOf(t).Storing?)
    ensures Enabled(After(s, OuterOnly(t)), Raise(t))
    ensures Enabled(s, FlockFails(t)) && Enabled(Apply(s, FlockFails(t)), CloseFailed(t))
    ensures Enabled(Apply(Apply(s, FlockFails(t)), CloseFailed(t)), Raise(t))
    ensures var raised := Apply(After(s, OuterOnly(t)), Raise(t));
            && Happens(raised, Freed(s.PcOf(t).h))
            && After(raised, Freed(s.PcOf(t).h)) ==
               Apply(Apply(Apply(s, FlockFails(t)), CloseFailed(t)), Raise(t))
  {
    var h := s.PcOf(t).h;
    InvWorking(s, t);
    NobodyElseCarries(s, t, h);
    CarriesOwns(s, t, h);
    hide Inv;
    OuterOnlyRaises(s, t, l);
    InnerCloses(s, t, l);
    DroppedRaises(s, t, l, h, before);
    hide Apply, Enabled, LockOk;
    RaisedFrees(s, t, l, h);
  }

  lemma RaisedFrees(s: State, t: Thread, l: LockId, h: Handle)
    requires l in s.locks && s.locks[l].count > 0 && h in s.open
    requires forall m :: m in s.locks ==> s.locks[m].handle != Some(h)
    requires forall u :: Carries(s.PcOf(u), h) ==> u == t
    ensures Happens(Raised(s, t, l), Freed(h))
    ensures After(Raised(s, t, l), Freed(h)) ==
            Raised(s, t, l).(open := WithoutHandle(s.open, h), flock := WithoutFlockOf(s.flock, h))
  {
    forall u ensures !Carries(Raised(s, t, l).PcOf(u), h) { assert u != t ==> Raised(s, t, l).PcOf(u) == s.PcOf(u); }
  }

  /** The two late points of __enter__, as events. */
  lemma InterruptedByEvent(s: State, t: Thread, counted: bool)
    requires Enabled(s, Count(t))
    ensures var e := if counted then OuterCounted(t) else OuterOnly(t);
            && Happens(s, e) && Enabled(After(s, e), Raise(t))
            && Apply(After(s, e), Raise(t)) == Interrupted(s, t, counted)
  {
    if counted { CountedByEvent(s, t); } else { StoredByEvent(s, t); }
  }

  lemma StoredByEvent(s: State, t: Thread)
    requires Enabled(s, Count(t))
    ensures Enabled(After(s, OuterOnly(t)), Raise(t))
    ensures Apply(After(s, OuterOnly(t)), Raise(t)) == Interrupted(s, t, false)
  {
    var outer := After(s, OuterOnly(t));
    assert outer.PcOf(t) == Failing(s.PcOf(t).lock, s.PcOf(t).before);
    assert s.pcs[t := outer.PcOf(t)][t := Idle] == s.pcs[t := Idle];
  }

  lemma CountedByEvent(s: State, t: Thread)
    requires Enabled(s, Count(t))
    ensures Enabled(After(s, OuterCounted(t)), Raise(t))
    ensures Apply(After(s, OuterCounted(t)), Raise(t)) == Interrupted(s, t, true)
  {
    var outer, l := After(s, OuterCounted(t)), s.PcOf(t).lock;
    assert outer.PcOf(t) == Failing(l, s.PcOf(t).before);
    assert s.pcs[t := outer.PcOf(t)][t := Idle] == s.pcs[t := Idle];
    assert s.locks[l := outer.locks[l]][l := Released(outer.locks[l])] == s.locks[l := Released(outer.locks[l])];
  }

  // A run that strands a lock.

  function Taken(steps: seq<Step>): seq<Event> {
    seq(|steps|, i requires 0 <= i < |steps| => Took(steps[i]))
  }

  /** The runs of the machine are the runs without exceptions. */
  lemma RunIsEventRun(states: seq<State>, steps: seq<Step>)
    requires IsRun(states, steps)
    ensures IsEventRun(states, Taken(steps))
  {
    hide Enabled, Apply;
    var events := Taken(steps);
    forall i | 0 <= i < |events| ensures Happens(states[i], events[i]) && states[i + 1] == After(states[i], events[i]) {
      assert Enabled(states[i], steps[i]) && states[i + 1] == Apply(states[i], steps[i]);
    }
  }

  lemma EventRunExtends(states: seq<State>, events: seq<Event>, e: Event)
    requires IsEventRun(states, events) && Happens(states[|events|], e)
    ensures IsEventRun(states + [After(states[|events|], e)], events + [e])
  {
    hide Happens, After;
    var longer, all := states + [After(states[|events|], e)], events + [e];
    forall i | 0 <= i < |all| ensures Happens(longer[i], all[i]) && longer[i + 1] == After(longer[i], all[i]) {
      if i < |events| { assert longer[i] == states[i] && longer[i + 1] == states[i + 1]; }
    }
  }

  /** While a lock keeps a handle nobody can lock its path, through whatever lock or process. */
  lemma HandleBlocksPath(s: State, l: LockId, u: Thread)
    requires Safe(s) && l in s.locks && s.locks[l].handle.Some? && Enabled(s, Flock(u))
    ensures s.locks[s.PcOf(u).lock].path != s.locks[l].path
  {
    assert LockSafe(s, l);
  }

  /** A first entry struck after it stored its handle ends with every call over and the path flocked by an idle lock. */
  lemma SomeExceptionStrands(t: Thread, m: Manager, path: Path) returns (states: seq<State>, events: seq<Event>)
    ensures IsEventRun(states, events)
    ensures var (s, l) := (states[|events|], LockId(0));
            && l in s.locks && s.locks[l].path == path && s.locks[l].owner == None && s.locks[l].depth == 0
            && s.locks[l].handle.Some? && s.PcOf(t) == Idle && s.Inside(t, l) == 0
  {
    var steps: seq<Step>;
    states, steps := LockRuns.RunStores(t, m, path);
    RunIsEventRun(states, steps);
    events := Taken(steps);
    hide IsEventRun, IsRun;
    var s := states[|events|];
    StoredByEvent(s, t);
    EventRunExtends(states, events, OuterOnly(t));
    states, events := states + [After(s, OuterOnly(t))], events + [OuterOnly(t)];
    EventRunExtends(states, events, Took(Raise(t)));
    states, events := states + [Apply(After(s, OuterOnly(t)), Raise(t))], events + [Took(Raise(t))];
    assert states[|events|] == Interrupted(s, t, false);
  }
}
