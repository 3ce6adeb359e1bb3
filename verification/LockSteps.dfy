/** Each kind of step keeps the invariant of LockMachine. */
module LockSteps {
  import opened Common
  import opened LockMachine

  /** s2 differs from s only in what thread t may change while it works on lock l. */
  ghost predicate OnlyTouches(s: State, s2: State, t: Thread, l: LockId) {
    && l in s.locks && s2.locks.Keys == s.locks.Keys
    && (forall m :: m in s.locks && m != l ==> s2.locks[m] == s.locks[m])
    && s2.locks[l].path == s.locks[l].path && s2.locks[l].manager == s.locks[l].manager
    && CanAcquire(s.locks[l], t) && CanAcquire(s2.locks[l], t)
    && (forall u :: u != t ==> s2.PcOf(u) == s.PcOf(u))
    && (forall m :: m != l ==> !s.Busy(t, m) && !s2.Busy(t, m))
    && (forall u, m :: u != t || m != l ==> s2.Inside(u, m) == s.Inside(u, m))
    && s2.registry == s.registry && s2.refs == s.refs
    && (forall h :: h in s.open && s.open[h].opener != l ==> h in s2.open && s2.open[h] == s.open[h])
    && (forall h :: h in s2.open && s2.open[h].opener != l ==> h in s.open && s2.open[h] == s.open[h])
    && (forall p :: p in s.flock && s.flock[p] in s.open && s.open[s.flock[p]].opener != l ==>
          p in s2.flock && s2.flock[p] == s.flock[p])
  }

  lemma OtherLocksUntouched(s: State, s2: State, t: Thread, l: LockId, m: LockId)
    requires OnlyTouches(s, s2, t, l) && m in s.locks && m != l && LockOk(s, m)
    ensures LockOk(s2, m)
  {
    var k := s.locks[m];
    if k.owner.Some? {
      assert PcOn(s2, k.owner.value, m) == PcOn(s, k.owner.value, m);
      assert s2.Inside(k.owner.value, m) == s.Inside(k.owner.value, m);
    }
  }

  lemma OtherHandlesUntouched(s: State, s2: State, t: Thread, l: LockId, h: Handle)
    requires h in s.open && HandleOk(s, h)
    requires OnlyTouches(s, s2, t, l) && h in s2.open && s2.open[h].opener != l
    ensures HandleOk(s2, h)
  {
    var k := s.locks[s.open[h].opener];
    if k.owner.Some? {
      assert PcOn(s2, k.owner.value, s.open[h].opener) == PcOn(s, k.owner.value, s.open[h].opener);
    }
  }

  lemma RegistryUntouched(s: State, s2: State, t: Thread, l: LockId)
    requires RegistryOk(s) && OnlyTouches(s, s2, t, l)
    ensures RegistryOk(s2)
  {
  }

  lemma ThreadsUntouched(s: State, s2: State, t: Thread, l: LockId)
    requires OnlyTouches(s, s2, t, l) && forall u, m :: ThreadOk(s, u, m)
    requires s2.Busy(t, l) || s2.Inside(t, l) > 0 ==> s2.locks[l].owner == Some(t)
    ensures forall u, m :: ThreadOk(s2, u, m)
  {
    forall u, m ensures ThreadOk(s2, u, m) {
      assert ThreadOk(s, u, m);
    }
  }

  lemma StepOnOneLock(s: State, s2: State, t: Thread, l: LockId)
    requires Inv(s) && OnlyTouches(s, s2, t, l)
    requires LockOk(s2, l)
    requires s2.Busy(t, l) || s2.Inside(t, l) > 0 ==> s2.locks[l].owner == Some(t)
    requires forall h :: h in s2.open && s2.open[h].opener == l ==> HandleOk(s2, h)
    requires forall p :: p in s2.flock ==> FlockOk(s2, p)
    ensures Inv(s2)
  {
    hide LockOk, HandleOk, FlockOk, RegistryOk;
    RegistryUntouched(s, s2, t, l);
    ThreadsUntouched(s, s2, t, l);
    forall m | m in s2.locks ensures LockOk(s2, m) {
      if m != l { OtherLocksUntouched(s, s2, t, l, m); }
    }
    forall h | h in s2.open ensures HandleOk(s2, h) {
      if s2.open[h].opener != l { OtherHandlesUntouched(s, s2, t, l, h); }
    }
  }

  /** Thread t is in a call on l and owns its RLock. */
  predicate Holds(s: State, t: Thread, l: LockId) {
    s.Busy(t, l) && l in s.locks && s.locks[l].owner == Some(t)
  }

  /** And everything the invariant says about the pair holds. */
  predicate Working(s: State, t: Thread, l: LockId) {
    Holds(s, t, l) && LockOk(s, l)
  }

  lemma InvWorking(s: State, t: Thread)
    requires Inv(s) && s.PcOf(t) != Idle
    ensures Working(s, t, s.PcOf(t).lock)
  {
    assert ThreadOk(s, t, s.PcOf(t).lock);
    assert LockOk(s, s.PcOf(t).lock);
  }

  /** Lock l keeps track of h: stored in it, or carried by t working on it. */
  predicate Tracks(s: State, t: Thread, l: LockId, h: Handle)
    requires l in s.locks
  {
    s.locks[l].handle == Some(h) || (s.locks[l].owner == Some(t) && Carries(PcOn(s, t, l), h))
  }

  /** A step of t on l that neither opens nor closes a file nor touches a flock. */
  ghost predicate QuietStep(s: State, s2: State, t: Thread, l: LockId) {
    && OnlyTouches(s, s2, t, l) && s2.open == s.open && s2.flock == s.flock
    && LockOk(s2, l)
    && (s2.Busy(t, l) || s2.Inside(t, l) > 0 ==> s2.locks[l].owner == Some(t))
    && (forall h :: Tracks(s, t, l, h) ==> Tracks(s2, t, l, h))
  }

  lemma QuietKeeps(s: State, s2: State, t: Thread, l: LockId)
    requires Inv(s) && QuietStep(s, s2, t, l)
    ensures Inv(s2)
  {
    forall p | p in s2.flock ensures FlockOk(s2, p) { assert FlockOk(s, p); }
    forall h | h in s2.open && s2.open[h].opener == l ensures HandleOk(s2, h) {
      assert HandleOk(s, h);
      assert Tracks(s, t, l, h);
    }
    StepOnOneLock(s, s2, t, l);
  }

  lemma BeginEnterTouches(s: State, t: Thread, l: LockId)
    requires Enabled(s, BeginEnter(t, l))
    ensures OnlyTouches(s, Apply(s, BeginEnter(t, l)), t, l)
  {
  }

  lemma BeginEnterIsQuiet(s: State, t: Thread, l: LockId)
    requires Enabled(s, BeginEnter(t, l)) && LockOk(s, l) && ThreadOk(s, t, l)
    ensures QuietStep(s, Apply(s, BeginEnter(t, l)), t, l)
  {
    BeginEnterTouches(s, t, l);
    hide OnlyTouches;
  }

  lemma BeginExitTouches(s: State, t: Thread, l: LockId)
    requires Enabled(s, BeginExit(t, l)) && CanAcquire(s.locks[l], t)
    ensures OnlyTouches(s, Apply(s, BeginExit(t, l)), t, l)
  {
  }

  lemma BeginExitIsQuiet(s: State, t: Thread, l: LockId)
    requires Enabled(s, BeginExit(t, l)) && LockOk(s, l) && ThreadOk(s, t, l)
    ensures QuietStep(s, Apply(s, BeginExit(t, l)), t, l)
  {
    BeginExitTouches(s, t, l);
    hide OnlyTouches;
  }

  lemma PcTouches(s: State, t: Thread, l: LockId, pc: Pc)
    requires s.Busy(t, l) && l in s.locks && CanAcquire(s.locks[l], t) && (pc == Idle || pc.lock == l)
    ensures OnlyTouches(s, At(s, t, pc), t, l)
  {
  }

  /** A thread that only moves on, to a point of the call whose shape the lock already has. */
  lemma PcMoves(s: State, t: Thread, l: LockId, pc: Pc)
    requires Working(s, t, l) && pc != Idle && pc.lock == l && CallShape(s, t, l, s.locks[l], pc)
    requires forall h :: Carries(s.PcOf(t), h) ==> Carries(pc, h) || s.locks[l].handle == Some(h)
    ensures QuietStep(s, At(s, t, pc), t, l)
  {
    PcTouches(s, t, l, pc);
    hide OnlyTouches;
  }

  lemma ReenterIsQuiet(s: State, t: Thread, l: LockId)
    requires Enabled(s, Reenter(t)) && Working(s, t, l)
    ensures QuietStep(s, Apply(s, Reenter(t)), t, l)
  {
    PcMoves(s, t, l, Counting(l, s.PcOf(t).before));
    hide QuietStep, LockOk;
  }

  lemma OpenFailsIsQuiet(s: State, t: Thread, l: LockId)
    requires Enabled(s, OpenFails(t)) && Working(s, t, l)
    ensures QuietStep(s, Apply(s, OpenFails(t)), t, l)
  {
    PcMoves(s, t, l, Failing(l, s.PcOf(t).before));
    hide QuietStep, LockOk;
  }

  lemma FlockFailsIsQuiet(s: State, t: Thread, l: LockId)
    requires Enabled(s, FlockFails(t)) && Working(s, t, l)
    ensures QuietStep(s, Apply(s, FlockFails(t)), t, l)
  {
    PcMoves(s, t, l, Closing(l, s.PcOf(t).h, s.PcOf(t).before));
    hide QuietStep, LockOk;
  }

  lemma InterruptIsQuiet(s: State, t: Thread, l: LockId)
    requires Enabled(s, Interrupt(t)) && Working(s, t, l)
    ensures QuietStep(s, Apply(s, Interrupt(t)), t, l)
  {
    PcMoves(s, t, l, Failing(l, s.PcOf(t).before));
    hide QuietStep, LockOk;
  }

  lemma StoreHandleTouches(s: State, t: Thread, l: LockId)
    requires Enabled(s, StoreHandle(t)) && Holds(s, t, l)
    ensures OnlyTouches(s, Apply(s, StoreHandle(t)), t, l)
  {
  }

  lemma StoreHandleIsQuiet(s: State, t: Thread, l: LockId)
    requires Enabled(s, StoreHandle(t)) && Working(s, t, l)
    ensures QuietStep(s, Apply(s, StoreHandle(t)), t, l)
  {
    StoreHandleTouches(s, t, l);
    hide OnlyTouches;
  }

  lemma CountTouches(s: State, t: Thread, l: LockId)
    requires Enabled(s, Count(t)) && Holds(s, t, l)
    ensures OnlyTouches(s, Apply(s, Count(t)), t, l)
  {
  }

  lemma CountIsQuiet(s: State, t: Thread, l: LockId)
    requires Enabled(s, Count(t)) && Working(s, t, l)
    ensures QuietStep(s, Apply(s, Count(t)), t, l)
  {
    CountTouches(s, t, l);
    hide OnlyTouches;
  }

  lemma RaiseTouches(s: State, t: Thread, l: LockId)
    requires Enabled(s, Raise(t)) && Holds(s, t, l)
    ensures OnlyTouches(s, Apply(s, Raise(t)), t, l)
  {
  }

  lemma RaiseIsQuiet(s: State, t: Thread, l: LockId)
    requires Enabled(s, Raise(t)) && Working(s, t, l)
    ensures QuietStep(s, Apply(s, Raise(t)), t, l)
  {
    RaiseTouches(s, t, l);
    hide OnlyTouches;
  }

  lemma DecrementTouches(s: State, t: Thread, l: LockId)
    requires Enabled(s, Decrement(t)) && Holds(s, t, l)
    ensures OnlyTouches(s, Apply(s, Decrement(t)), t, l)
  {
  }

  lemma DecrementIsQuiet(s: State, t: Thread, l: LockId)
    requires Enabled(s, Decrement(t)) && Working(s, t, l)
    ensures QuietStep(s, Apply(s, Decrement(t)), t, l)
  {
    DecrementTouches(s, t, l);
    hide OnlyTouches;
  }

  lemma LastTestTouches(s: State, t: Thread, l: LockId)
    requires Enabled(s, TestDepth(t)) && Holds(s, t, l) && s.locks[l].depth == 0
    ensures OnlyTouches(s, Apply(s, TestDepth(t)), t, l)
  {
  }

  /** The last region is left: the handle goes from the lock into the hands of the thread. */
  lemma LastTestIsQuiet(s: State, t: Thread, l: LockId)
    requires Enabled(s, TestDepth(t)) && Working(s, t, l) && s.locks[l].depth == 0
    ensures QuietStep(s, Apply(s, TestDepth(t)), t, l)
  {
    assert CallShape(s, t, l, s.locks[l], Testing(l));
    LastTestTouches(s, t, l);
    hide OnlyTouches;
  }

  lemma TestDepthIsQuiet(s: State, t: Thread, l: LockId)
    requires Enabled(s, TestDepth(t)) && Working(s, t, l)
    ensures QuietStep(s, Apply(s, TestDepth(t)), t, l)
  {
    if s.locks[l].depth == 0 {
      LastTestIsQuiet(s, t, l);
    } else {
      PcMoves(s, t, l, Releasing(l));
      hide QuietStep, LockOk;
    }
  }

  lemma UnlockFailsIsQuiet(s: State, t: Thread, l: LockId)
    requires Enabled(s, UnlockFails(t)) && Working(s, t, l)
    ensures QuietStep(s, Apply(s, UnlockFails(t)), t, l)
  {
    assert CallShape(s, t, l, s.locks[l], Unlocking(l, s.PcOf(t).h));
    hide LockOk;
    PcMoves(s, t, l, Dropping(l, s.PcOf(t).h));
    hide QuietStep, LockOk;
  }

  lemma ReleaseTouches(s: State, t: Thread, l: LockId)
    requires Enabled(s, Release(t)) && Holds(s, t, l)
    ensures OnlyTouches(s, Apply(s, Release(t)), t, l)
  {
  }

  lemma ReleaseIsQuiet(s: State, t: Thread, l: LockId)
    requires Enabled(s, Release(t)) && Working(s, t, l)
    ensures QuietStep(s, Apply(s, Release(t)), t, l)
  {
    ReleaseTouches(s, t, l);
    hide OnlyTouches;
  }

  // Steps on files.

  lemma OpenTouches(s: State, t: Thread, h: Handle, l: LockId)
    requires Enabled(s, Open(t, h)) && Holds(s, t, l)
    ensures OnlyTouches(s, Apply(s, Open(t, h)), t, l)
  {
  }

  lemma OpenWorks(s: State, t: Thread, h: Handle, l: LockId)
    requires Enabled(s, Open(t, h)) && Working(s, t, l)
    ensures Working(Apply(s, Open(t, h)), t, l)
  {
  }

  lemma OpenKeeps(s: State, t: Thread, h: Handle)
    requires Inv(s) && Enabled(s, Open(t, h))
    ensures Inv(Apply(s, Open(t, h)))
  {
    hide LockOk, RegistryOk, OnlyTouches;
    var s2, l := Apply(s, Open(t, h)), s.PcOf(t).lock;
    InvWorking(s, t);
    OpenTouches(s, t, h, l);
    OpenWorks(s, t, h, l);
    forall g | g in s2.open && s2.open[g].opener == l ensures HandleOk(s2, g) {
      if g != h { assert HandleOk(s, g); }
    }
    forall p | p in s2.flock ensures FlockOk(s2, p) { assert FlockOk(s, p); }
    StepOnOneLock(s, s2, t, l);
  }

  lemma FlockTouches(s: State, t: Thread, l: LockId)
    requires Enabled(s, Flock(t)) && Holds(s, t, l)
    ensures OnlyTouches(s, Apply(s, Flock(t)), t, l)
  {
  }

  lemma FlockWorks(s: State, t: Thread, l: LockId)
    requires Enabled(s, Flock(t)) && Working(s, t, l)
    ensures Working(Apply(s, Flock(t)), t, l)
    ensures FlockOk(Apply(s, Flock(t)), s.locks[l].path)
  {
  }

  lemma FlockKeeps(s: State, t: Thread)
    requires Inv(s) && Enabled(s, Flock(t))
    ensures Inv(Apply(s, Flock(t)))
  {
    var s2, l := Apply(s, Flock(t)), s.PcOf(t).lock;
    InvWorking(s, t);
    FlockTouches(s, t, l);
    FlockWorks(s, t, l);
    forall g | g in s2.open && s2.open[g].opener == l ensures HandleOk(s2, g) { assert HandleOk(s, g); }
    forall p | p in s2.flock ensures FlockOk(s2, p) {
      if p != s.locks[l].path { assert FlockOk(s, p); }
    }
    StepOnOneLock(s, s2, t, l);
  }

  lemma UnlockedTouches(s: State, t: Thread, l: LockId, h: Handle, pc: Pc)
    requires s.Busy(t, l) && l in s.locks && CanAcquire(s.locks[l], t) && OwnsHandle(s, l, h) && pc != Idle
             && pc.lock == l
    ensures OnlyTouches(s, At(s, t, pc).(flock := WithoutFlockOf(s.flock, h)), t, l)
  {
  }

  lemma UnlockedWorks(s: State, t: Thread, l: LockId, h: Handle)
    requires Working(s, t, l) && s.PcOf(t) == Unlocking(l, h)
    ensures Working(At(s, t, Dropping(l, h)).(flock := WithoutFlockOf(s.flock, h)), t, l)
  {
  }

  lemma UnlockTouches(s: State, t: Thread, l: LockId)
    requires Enabled(s, Unlock(t)) && Working(s, t, l)
    ensures OnlyTouches(s, Apply(s, Unlock(t)), t, l) && Working(Apply(s, Unlock(t)), t, l)
  {
    var h := s.PcOf(t).h;
    assert CallShape(s, t, l, s.locks[l], Unlocking(l, h));
    UnlockedTouches(s, t, l, h, Dropping(l, h));
    UnlockedWorks(s, t, l, h);
    hide OnlyTouches, Working, LockOk;
  }

  lemma UnlockKeeps(s: State, t: Thread)
    requires Inv(s) && Enabled(s, Unlock(t))
    ensures Inv(Apply(s, Unlock(t)))
  {
    var s2, l := Apply(s, Unlock(t)), s.PcOf(t).lock;
    InvWorking(s, t);
    UnlockTouches(s, t, l);
    forall g | g in s2.open && s2.open[g].opener == l ensures HandleOk(s2, g) { assert HandleOk(s, g); }
    forall p | p in s2.flock ensures FlockOk(s2, p) { assert FlockOk(s, p); }
    StepOnOneLock(s, s2, t, l);
  }

  /** Closing the description a thread carries; nothing else was opened for that lock. */
  lemma ClosingKeeps(s: State, s2: State, t: Thread, l: LockId, h: Handle)
    requires Inv(s) && Working(s, t, l) && Carries(s.PcOf(t), h) && s.locks[l].handle == None
    requires OnlyTouches(s, s2, t, l) && Working(s2, t, l)
    requires s2.open == WithoutHandle(s.open, h) && s2.flock == WithoutFlockOf(s.flock, h)
    ensures Inv(s2)
  {
    forall g | g in s.open && s.open[g].opener == l ensures g == h { assert HandleOk(s, g); }
    forall p | p in s2.flock ensures FlockOk(s2, p) { assert FlockOk(s, p); }
    StepOnOneLock(s, s2, t, l);
  }

  /** The state after t closes the description it carries and moves on. */
  function Dropped(s: State, t: Thread, h: Handle, pc: Pc): State {
    At(s, t, pc).(open := WithoutHandle(s.open, h), flock := WithoutFlockOf(s.flock, h))
  }

  lemma DroppedTouches(s: State, t: Thread, l: LockId, h: Handle, pc: Pc)
    requires s.Busy(t, l) && l in s.locks && CanAcquire(s.locks[l], t) && OwnsHandle(s, l, h) && pc != Idle
             && pc.lock == l
    ensures OnlyTouches(s, Dropped(s, t, h, pc), t, l)
  {
  }

  lemma DroppedWorks(s: State, t: Thread, l: LockId, h: Handle, pc: Pc)
    requires Working(s, t, l) && s.locks[l].handle == None && (pc.Failing? || pc.Releasing?) && pc.lock == l
    requires CallShape(s, t, l, s.locks[l], pc)
    ensures Working(Dropped(s, t, h, pc), t, l)
  {
  }

  lemma WorkingShape(s: State, t: Thread, l: LockId)
    requires Working(s, t, l)
    ensures s.Busy(t, l) && l in s.locks && CanAcquire(s.locks[l], t) && CallShape(s, t, l, s.locks[l], s.PcOf(t))
  {
  }

  lemma CloseFailedTouches(s: State, t: Thread, l: LockId)
    requires Enabled(s, CloseFailed(t)) && Working(s, t, l)
    ensures OnlyTouches(s, Apply(s, CloseFailed(t)), t, l) && Working(Apply(s, CloseFailed(t)), t, l)
    ensures s.locks[l].handle == None
  {
    hide OnlyTouches, Working;
    WorkingShape(s, t, l);
    var h, before := s.PcOf(t).h, s.PcOf(t).before;
    DroppedTouches(s, t, l, h, Failing(l, before));
    DroppedWorks(s, t, l, h, Failing(l, before));
  }

  lemma CloseTouches(s: State, t: Thread, l: LockId)
    requires Enabled(s, Close(t)) && Working(s, t, l)
    ensures OnlyTouches(s, Apply(s, Close(t)), t, l) && Working(Apply(s, Close(t)), t, l)
    ensures s.locks[l].handle == None
  {
    hide OnlyTouches, Working;
    WorkingShape(s, t, l);
    var h := s.PcOf(t).h;
    DroppedTouches(s, t, l, h, Releasing(l));
    DroppedWorks(s, t, l, h, Releasing(l));
  }

  // Steps on the registry.

  /** A lock does not notice what happens to other locks, nor to references its owner does not hold to it. */
  lemma LockUnnoticed(s: State, s2: State, l: LockId)
    requires l in s.locks && LockOk(s, l) && l in s2.locks && s2.locks[l] == s.locks[l]
    requires s2.pcs == s.pcs && s2.inside == s.inside && s2.open == s.open && s2.flock == s.flock
    requires s.locks[l].owner.Some? && (s.locks[l].owner.value, l) in s.refs ==> (s.locks[l].owner.value, l) in s2.refs
    ensures LockOk(s2, l)
  {
    var k := s.locks[l];
    if k.owner.Some? { assert PcOn(s2, k.owner.value, l) == PcOn(s, k.owner.value, l); }
  }

  lemma FindLockLocks(s: State, t: Thread, m: Manager, path: Path, l: LockId)
    requires Enabled(s, FindLock(t, m, path)) && l in s.locks && LockOk(s, l)
    ensures LockOk(Apply(s, FindLock(t, m, path)), l)
  {
    hide LockOk;
    LockUnnoticed(s, Apply(s, FindLock(t, m, path)), l);
  }

  lemma FindLockKeeps(s: State, t: Thread, m: Manager, path: Path)
    requires Inv(s) && Enabled(s, FindLock(t, m, path))
    ensures Inv(Apply(s, FindLock(t, m, path)))
  {
    var s2 := Apply(s, FindLock(t, m, path));
    forall l | l in s2.locks ensures LockOk(s2, l) { FindLockLocks(s, t, m, path, l); }
    RestUntouched(s, s2);
  }

  lemma MakeLockRegistry(s: State, t: Thread, m: Manager, path: Path, newId: LockId)
    requires RegistryOk(s) && Enabled(s, MakeLock(t, m, path, newId))
    ensures RegistryOk(Apply(s, MakeLock(t, m, path, newId)))
  {
  }

  lemma MakeLockLocks(s: State, t: Thread, m: Manager, path: Path, newId: LockId, l: LockId)
    requires Enabled(s, MakeLock(t, m, path, newId)) && l in s.locks && LockOk(s, l)
    ensures LockOk(Apply(s, MakeLock(t, m, path, newId)), l)
  {
    hide LockOk;
    LockUnnoticed(s, Apply(s, MakeLock(t, m, path, newId)), l);
  }

  lemma NewLockIsOk(s: State, t: Thread, m: Manager, path: Path, newId: LockId)
    requires Enabled(s, MakeLock(t, m, path, newId))
    ensures LockOk(Apply(s, MakeLock(t, m, path, newId)), newId)
  {
  }

  lemma MakeLockKeeps(s: State, t: Thread, m: Manager, path: Path, newId: LockId)
    requires Inv(s) && Enabled(s, MakeLock(t, m, path, newId))
    ensures Inv(Apply(s, MakeLock(t, m, path, newId)))
  {
    hide LockOk, HandleOk, FlockOk, ThreadOk;
    var s2 := Apply(s, MakeLock(t, m, path, newId));
    MakeLockRegistry(s, t, m, path, newId);
    NewLockIsOk(s, t, m, path, newId);
    forall l | l in s2.locks ensures LockOk(s2, l) {
      if l != newId { MakeLockLocks(s, t, m, path, newId, l); }
    }
    RestUntouched(s, s2);
  }

  /** Threads, descriptions and flocks do not notice a change that leaves alone every lock in use. */
  lemma RestUntouched(s: State, s2: State)
    requires Inv(s)
    requires s2.pcs == s.pcs && s2.inside == s.inside && s2.open == s.open && s2.flock == s.flock
    requires forall l :: l in s.locks && (s.locks[l].owner.Some? || s.locks[l].handle.Some?) ==>
               l in s2.locks && s2.locks[l] == s.locks[l]
    ensures forall t, l :: ThreadOk(s2, t, l)
    ensures forall h :: h in s2.open ==> HandleOk(s2, h)
    ensures forall p :: p in s2.flock ==> FlockOk(s2, p)
  {
    forall u, l ensures ThreadOk(s2, u, l) { assert ThreadOk(s, u, l); }
    forall h | h in s2.open ensures HandleOk(s2, h) { assert HandleOk(s, h); }
    forall p | p in s2.flock ensures FlockOk(s2, p) { assert FlockOk(s, p); }
  }

  lemma DropRefLocks(s: State, t: Thread, l: LockId, m: LockId)
    requires Enabled(s, DropRef(t, l)) && m in s.locks && LockOk(s, m)
    ensures LockOk(Apply(s, DropRef(t, l)), m)
  {
    assert m != l || s.locks[m].owner != Some(t);
    hide LockOk;
    LockUnnoticed(s, Apply(s, DropRef(t, l)), m);
  }

  lemma DropRefKeeps(s: State, t: Thread, l: LockId)
    requires Inv(s) && Enabled(s, DropRef(t, l))
    ensures Inv(Apply(s, DropRef(t, l)))
  {
    var s2 := Apply(s, DropRef(t, l));
    forall m | m in s2.locks ensures LockOk(s2, m) { DropRefLocks(s, t, l, m); }
    RestUntouched(s, s2);
  }

  lemma CollectRegistry(s: State, l: LockId)
    requires RegistryOk(s) && Enabled(s, Collect(l))
    ensures RegistryOk(Apply(s, Collect(l)))
  {
  }

  lemma CollectLocks(s: State, l: LockId, m: LockId)
    requires Enabled(s, Collect(l)) && m in s.locks && m != l && LockOk(s, m)
    ensures LockOk(Apply(s, Collect(l)), m)
  {
    hide LockOk;
    LockUnnoticed(s, Apply(s, Collect(l)), m);
  }

  /** A collected lock is unowned, closed and unlocked: collection never drops a lock in use. */
  lemma CollectKeeps(s: State, l: LockId)
    requires Inv(s) && Enabled(s, Collect(l))
    ensures Inv(Apply(s, Collect(l)))
    ensures s.locks[l].owner == None && s.locks[l].handle == None && s.locks[l].depth == 0
  {
    var s2 := Apply(s, Collect(l));
    assert LockOk(s, l);
    CollectRegistry(s, l);
    forall m | m in s2.locks ensures LockOk(s2, m) { CollectLocks(s, l, m); }
    RestUntouched(s, s2);
  }
}
