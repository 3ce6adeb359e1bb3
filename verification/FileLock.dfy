/**
 ReentrantFileLock in the form the source gives it: an object whose methods update its RLock,
 depth and handle, over the open files and flocks of the system. Each method is tied to a
 function of the old state, and each such function is a run of the machine of LockMachine.
 */
module FileLock {
  import opened Common
  import opened LockMachine

  /** The open file descriptions and flocks of the machine the processes share. */
  datatype Files = Files(open: map<Handle, OpenFile>, flock: map<Path, Handle>)

  /** How the system calls of one __enter__ go. */
  datatype Fate = Succeeds | OpenRaises | FlockRaises

  class FileSystem {
    var open: map<Handle, OpenFile>
    var flock: map<Path, Handle>

    constructor ()
      ensures View() == Files(map[], map[])
    {
      open, flock := map[], map[];
    }

    function View(): Files
      reads this
    {
      Files(open, flock)
    }

    method OpenFile(h: Handle, file: OpenFile)
      modifies this
      ensures View() == old(View()).(open := old(open)[h := file])
    {
      open := open[h := file];
    }

    method FlockExclusive(path: Path, h: Handle)
      requires path !in flock
      modifies this
      ensures View() == old(View()).(flock := old(flock)[path := h])
    {
      flock := flock[path := h];
    }

    method FlockUnlock(h: Handle)
      modifies this
      ensures View() == old(View()).(flock := WithoutFlockOf(old(flock), h))
    {
      flock := WithoutFlockOf(flock, h);
    }

    method Close(h: Handle)
      modifies this
      ensures View() == Files(WithoutHandle(old(open), h), WithoutFlockOf(old(flock), h))
    {
      open, flock := WithoutHandle(open, h), WithoutFlockOf(flock, h);
    }
  }

  /** The lock, the files and whether the call returned, after __enter__ by t. */
  function EnterResult(k: Lock, l: LockId, files: Files, t: Thread, h: Handle, fate: Fate): (Lock, Files, bool) {
    if k.depth > 0 then (Acquired(k, t).(depth := k.depth + 1), files, true)
    else match fate
      case Succeeds =>
        (Acquired(k, t).(depth := 1, handle := Some(h)),
         Files(files.open[h := OpenFile(k.path, l)], files.flock[k.path := h]), true)
      case OpenRaises => (Released(Acquired(k, t)), files, false)
      case FlockRaises =>
        (Released(Acquired(k, t)),
         Files(WithoutHandle(files.open[h := OpenFile(k.path, l)], h), WithoutFlockOf(files.flock, h)), false)
  }

  /** The lock and the files after __exit__; closing gives up the flock even when unlocking it raised. */
  function ExitResult(k: Lock, files: Files): (Lock, Files)
    requires k.count > 0 && k.depth > 0 && k.handle.Some?
  {
    if k.depth > 1 then (Released(k).(depth := k.depth - 1), files)
    else (Released(k).(depth := 0, handle := None),
          Files(WithoutHandle(files.open, k.handle.value), WithoutFlockOf(files.flock, k.handle.value)))
  }

  class ReentrantFileLock {
    const id: LockId
    const manager: Manager
    const path: Path
    var owner: Option<Thread>
    var count: nat
    var depth: nat
    var handle: Option<Handle>

    constructor (id: LockId, manager: Manager, path: Path)
      ensures View() == Lock(manager, path, None, 0, 0, None) && this.id == id
    {
      this.id, this.manager, this.path := id, manager, path;
      owner, count, depth, handle := None, 0, 0, None;
    }

    function View(): Lock
      reads this
    {
      Lock(manager, path, owner, count, depth, handle)
    }

    method AcquireRLock(t: Thread)
      requires CanAcquire(View(), t)
      modifies this
      ensures View() == Acquired(old(View()), t)
    {
      owner, count := Some(t), count + 1;
    }

    method ReleaseRLock()
      requires count > 0
      modifies this
      ensures View() == Released(old(View()))
    {
      owner, count := if count == 1 then None else owner, count - 1;
    }

    method Enter(files: FileSystem, t: Thread, h: Handle, fate: Fate) returns (entered: bool)
      requires CanAcquire(View(), t) && h !in files.open
      requires depth == 0 && fate == Succeeds ==> path !in files.flock
      modifies this, files
      ensures (View(), files.View(), entered) == EnterResult(old(View()), id, old(files.View()), t, h, fate)
    {
      AcquireRLock(t);
      if depth == 0 {
        if fate == OpenRaises {
          ReleaseRLock();
          return false;
        }
        files.OpenFile(h, LockMachine.OpenFile(path, id));
        if fate == FlockRaises {
          files.Close(h);
          ReleaseRLock();
          return false;
        }
        files.FlockExclusive(path, h);
        handle := Some(h);
      }
      depth := depth + 1;
      return true;
    }

    method Exit(files: FileSystem, unlockRaises: bool)
      requires count > 0 && depth > 0 && handle.Some?
      modifies this, files
      ensures (View(), files.View()) == ExitResult(old(View()), old(files.View()))
    {
      depth := depth - 1;
      if depth == 0 {
        var h := handle.value;
        handle := None;
        if !unlockRaises {
          files.FlockUnlock(h);
        }
        ghost var unlocked := files.flock;
        files.Close(h);
        assert WithoutFlockOf(unlocked, h) == WithoutFlockOf(old(files.flock), h);
      }
      ReleaseRLock();
    }
  }

  /** Leaving undoes entering: lock, descriptors and flocks are as before. */
  lemma ExitUndoesEnter(k: Lock, l: LockId, files: Files, t: Thread, h: Handle)
    requires Enterable(k, t) && h !in files.open && (forall p :: p in files.flock ==> files.flock[p] in files.open)
    requires k.depth == 0 ==> k.path !in files.flock
    ensures var (k2, files2, entered) := EnterResult(k, l, files, t, h, Succeeds);
            entered && ExitResult(k2, files2) == (k, files)
  {
    if k.depth == 0 {
      assert WithoutHandle(files.open[h := OpenFile(k.path, l)], h) == files.open;
      assert WithoutFlockOf(files.flock[k.path := h], h) == files.flock;
    }
  }

  /** A failed enter is invisible: lock, descriptors and flocks are as before. */
  lemma FailedEnterIsInvisible(k: Lock, l: LockId, files: Files, t: Thread, h: Handle, fate: Fate)
    requires Enterable(k, t) && h !in files.open && (forall p :: p in files.flock ==> files.flock[p] in files.open)
    requires !EnterResult(k, l, files, t, h, fate).2
    ensures EnterResult(k, l, files, t, h, fate) == (k, files, false)
  {
    assert WithoutHandle(files.open[h := OpenFile(k.path, l)], h) == files.open;
    assert WithoutFlockOf(files.flock, h) == files.flock;
  }

  // The methods are runs of the machine.

  ghost predicate Runs(s: State, steps: seq<Step>, s2: State)
    decreases steps
  {
    if steps == [] then s == s2
    else Enabled(s, steps[0]) && Runs(Apply(s, steps[0]), steps[1..], s2)
  }

  function EnterSteps(k: Lock, l: LockId, t: Thread, h: Handle, fate: Fate): seq<Step> {
    [BeginEnter(t, l)] +
    (if k.depth > 0 then [Reenter(t), Count(t)]
     else match fate
       case Succeeds => [Open(t, h), Flock(t), StoreHandle(t), Count(t)]
       case OpenRaises => [OpenFails(t), Raise(t)]
       case FlockRaises => [Open(t, h), FlockFails(t), CloseFailed(t), Raise(t)])
  }

  function ExitSteps(k: Lock, l: LockId, t: Thread, unlockRaises: bool): seq<Step> {
    [BeginExit(t, l)] + ExitTail(k.depth, t, unlockRaises)
  }

  function ExitTail(depth: nat, t: Thread, unlockRaises: bool): seq<Step> {
    if depth > 1 then [Decrement(t), TestDepth(t), Release(t)]
    else [Decrement(t), TestDepth(t), if unlockRaises then UnlockFails(t) else Unlock(t), Close(t), Release(t)]
  }

  lemma RunsCons(s: State, a: Step, rest: seq<Step>, s2: State)
    requires Enabled(s, a) && Runs(Apply(s, a), rest, s2)
    ensures Runs(s, [a] + rest, s2)
  {
    assert ([a] + rest)[1..] == rest;
  }

  /** A free thread at the start of __enter__ on a lock it may acquire at once. */
  ghost predicate CanEnter(s: State, t: Thread, l: LockId, h: Handle, fate: Fate) {
    && s.PcOf(t) == Idle && (t, l) in s.refs && l in s.locks && CanAcquire(s.locks[l], t) && h !in s.open
    && (s.locks[l].depth == 0 && fate == Succeeds ==> s.locks[l].path !in s.flock)
  }

  /** What an undisturbed call leaves behind. */
  ghost predicate Leaves(s: State, s2: State, t: Thread, l: LockId, k: Lock, files: Files) {
    s2.locks == s.locks[l := k] && Files(s2.open, s2.flock) == files && s2.PcOf(t) == Idle
  }

  lemma CountRuns(s: State, t: Thread, l: LockId, before: Lock) returns (s2: State)
    requires s.PcOf(t) == Counting(l, before) && l in s.locks && s.locks[l].count > 0
    ensures Runs(s, [Count(t)], s2)
    ensures Leaves(s, s2, t, l, s.locks[l].(depth := s.locks[l].depth + 1), Files(s.open, s.flock))
  {
    s2 := Apply(s, Count(t));
    RunsCons(s, Count(t), [], s2);
  }

  lemma ReenterTail(s: State, t: Thread, l: LockId, before: Lock) returns (s2: State)
    requires s.PcOf(t) == Opening(l, before) && l in s.locks && s.locks[l].count > 0 && s.locks[l].depth > 0
    ensures Runs(s, [Reenter(t), Count(t)], s2)
    ensures Leaves(s, s2, t, l, s.locks[l].(depth := s.locks[l].depth + 1), Files(s.open, s.flock))
  {
    s2 := CountRuns(Apply(s, Reenter(t)), t, l, before);
    RunsCons(s, Reenter(t), [Count(t)], s2);
  }

  lemma ReenterRuns(s: State, t: Thread, l: LockId, h: Handle, fate: Fate) returns (s2: State)
    requires CanEnter(s, t, l, h, fate) && s.locks[l].depth > 0
    ensures Runs(s, EnterSteps(s.locks[l], l, t, h, fate), s2)
    ensures var (k, files, _) := EnterResult(s.locks[l], l, Files(s.open, s.flock), t, h, fate);
            Leaves(s, s2, t, l, k, files)
  {
    s2 := ReenterTail(Apply(s, BeginEnter(t, l)), t, l, s.locks[l]);
    RunsCons(s, BeginEnter(t, l), [Reenter(t), Count(t)], s2);
  }

  lemma StoredRuns(s: State, t: Thread, l: LockId, h: Handle, before: Lock) returns (s2: State)
    requires s.PcOf(t) == Storing(l, h, before) && l in s.locks && s.locks[l].count > 0
    ensures Runs(s, [StoreHandle(t), Count(t)], s2)
    ensures var k := s.locks[l];
            Leaves(s, s2, t, l, k.(handle := Some(h), depth := k.depth + 1), Files(s.open, s.flock))
  {
    s2 := CountRuns(Apply(s, StoreHandle(t)), t, l, before);
    RunsCons(s, StoreHandle(t), [Count(t)], s2);
  }

  /** The run from a description just opened: lock it, store it, count. */
  lemma LockedRuns(s: State, t: Thread, l: LockId, h: Handle, before: Lock) returns (s2: State)
    requires s.PcOf(t) == Locking(l, h, before) && l in s.locks && s.locks[l].count > 0 && s.locks[l].path !in s.flock
    ensures Runs(s, [Flock(t), StoreHandle(t), Count(t)], s2)
    ensures var k := s.locks[l];
            Leaves(s, s2, t, l, k.(handle := Some(h), depth := k.depth + 1), Files(s.open, s.flock[k.path := h]))
  {
    s2 := StoredRuns(Apply(s, Flock(t)), t, l, h, before);
    RunsCons(s, Flock(t), [StoreHandle(t), Count(t)], s2);
  }

  lemma RaiseRuns(s: State, t: Thread, l: LockId, before: Lock) returns (s2: State)
    requires s.PcOf(t) == Failing(l, before) && l in s.locks && s.locks[l].count > 0
    ensures Runs(s, [Raise(t)], s2)
    ensures Leaves(s, s2, t, l, Released(s.locks[l]), Files(s.open, s.flock))
  {
    s2 := Apply(s, Raise(t));
    RunsCons(s, Raise(t), [], s2);
  }

  lemma CloseFailedRuns(s: State, t: Thread, l: LockId, h: Handle, before: Lock) returns (s2: State)
    requires s.PcOf(t) == Closing(l, h, before) && l in s.locks && s.locks[l].count > 0
    ensures Runs(s, [CloseFailed(t), Raise(t)], s2)
    ensures Leaves(s, s2, t, l, Released(s.locks[l]), Files(WithoutHandle(s.open, h), WithoutFlockOf(s.flock, h)))
  {
    s2 := RaiseRuns(Apply(s, CloseFailed(t)), t, l, before);
    RunsCons(s, CloseFailed(t), [Raise(t)], s2);
  }

  /** The run from a description just opened when locking it raises: close it and re-raise. */
  lemma UnlockedRuns(s: State, t: Thread, l: LockId, h: Handle, before: Lock) returns (s2: State)
    requires s.PcOf(t) == Locking(l, h, before) && l in s.locks && s.locks[l].count > 0
    ensures Runs(s, [FlockFails(t), CloseFailed(t), Raise(t)], s2)
    ensures Leaves(s, s2, t, l, Released(s.locks[l]), Files(WithoutHandle(s.open, h), WithoutFlockOf(s.flock, h)))
  {
    s2 := CloseFailedRuns(Apply(s, FlockFails(t)), t, l, h, before);
    RunsCons(s, FlockFails(t), [CloseFailed(t), Raise(t)], s2);
  }

  /** The steps that follow a successful open. */
  function AfterOpen(t: Thread, fate: Fate): seq<Step> {
    if fate == Succeeds then [Flock(t), StoreHandle(t), Count(t)] else [FlockFails(t), CloseFailed(t), Raise(t)]
  }

  /** From the start of __enter__ with the RLock taken and depth zero, when the file can be opened. */
  lemma OpenTail(s: State, t: Thread, l: LockId, h: Handle, fate: Fate, before: Lock) returns (s2: State)
    requires s.PcOf(t) == Opening(l, before) && l in s.locks && s.locks[l].count > 0 && s.locks[l].depth == 0
    requires h !in s.open && fate != OpenRaises && (fate == Succeeds ==> s.locks[l].path !in s.flock)
    ensures Runs(s, [Open(t, h)] + AfterOpen(t, fate), s2)
    ensures var (k, open) := (s.locks[l], s.open[h := OpenFile(s.locks[l].path, l)]);
            if fate == Succeeds
            then Leaves(s, s2, t, l, k.(handle := Some(h), depth := k.depth + 1), Files(open, s.flock[k.path := h]))
            else Leaves(s, s2, t, l, Released(k), Files(WithoutHandle(open, h), WithoutFlockOf(s.flock, h)))
  {
    var s3 := Apply(s, Open(t, h));
    if fate == Succeeds {
      s2 := LockedRuns(s3, t, l, h, before);
    } else {
      s2 := UnlockedRuns(s3, t, l, h, before);
    }
    RunsCons(s, Open(t, h), AfterOpen(t, fate), s2);
  }

  lemma OpenedRuns(s: State, t: Thread, l: LockId, h: Handle, fate: Fate) returns (s2: State)
    requires CanEnter(s, t, l, h, fate) && s.locks[l].depth == 0 && fate != OpenRaises
    ensures Runs(s, EnterSteps(s.locks[l], l, t, h, fate), s2)
    ensures var (k, files, _) := EnterResult(s.locks[l], l, Files(s.open, s.flock), t, h, fate);
            Leaves(s, s2, t, l, k, files)
  {
    s2 := OpenTail(Apply(s, BeginEnter(t, l)), t, l, h, fate, s.locks[l]);
    RunsCons(s, BeginEnter(t, l), [Open(t, h)] + AfterOpen(t, fate), s2);
    assert [BeginEnter(t, l)] + ([Open(t, h)] + AfterOpen(t, fate)) == EnterSteps(s.locks[l], l, t, h, fate);
  }

  lemma OpenFailsTail(s: State, t: Thread, l: LockId, before: Lock) returns (s2: State)
    requires s.PcOf(t) == Opening(l, before) && l in s.locks && s.locks[l].count > 0 && s.locks[l].depth == 0
    ensures Runs(s, [OpenFails(t), Raise(t)], s2)
    ensures Leaves(s, s2, t, l, Released(s.locks[l]), Files(s.open, s.flock))
  {
    s2 := RaiseRuns(Apply(s, OpenFails(t)), t, l, before);
    RunsCons(s, OpenFails(t), [Raise(t)], s2);
  }

  lemma OpenRaisesRuns(s: State, t: Thread, l: LockId, h: Handle) returns (s2: State)
    requires CanEnter(s, t, l, h, OpenRaises) && s.locks[l].depth == 0
    ensures Runs(s, EnterSteps(s.locks[l], l, t, h, OpenRaises), s2)
    ensures var (k, files, _) := EnterResult(s.locks[l], l, Files(s.open, s.flock), t, h, OpenRaises);
            Leaves(s, s2, t, l, k, files)
  {
    s2 := OpenFailsTail(Apply(s, BeginEnter(t, l)), t, l, s.locks[l]);
    RunsCons(s, BeginEnter(t, l), [OpenFails(t), Raise(t)], s2);
  }

  /** Enter's result is what the machine reaches when t runs its steps undisturbed. */
  lemma EnterIsARun(s: State, t: Thread, l: LockId, h: Handle, fate: Fate) returns (s2: State)
    requires Inv(s) && CanEnter(s, t, l, h, fate)
    ensures Runs(s, EnterSteps(s.locks[l], l, t, h, fate), s2)
    ensures var (k, files, _) := EnterResult(s.locks[l], l, Files(s.open, s.flock), t, h, fate);
            Leaves(s, s2, t, l, k, files)
  {
    if s.locks[l].depth > 0 {
      s2 := ReenterRuns(s, t, l, h, fate);
    } else {
      if fate == OpenRaises { s2 := OpenRaisesRuns(s, t, l, h); } else { s2 := OpenedRuns(s, t, l, h, fate); }
    }
  }

  lemma ReleaseRuns(s: State, t: Thread, l: LockId) returns (s2: State)
    requires s.PcOf(t) == Releasing(l) && l in s.locks && s.locks[l].count > 0
    ensures Runs(s, [Release(t)], s2)
    ensures Leaves(s, s2, t, l, Released(s.locks[l]), Files(s.open, s.flock))
  {
    s2 := Apply(s, Release(t));
    RunsCons(s, Release(t), [], s2);
  }

  lemma InnerTestRuns(s: State, t: Thread, l: LockId) returns (s2: State)
    requires s.PcOf(t) == Testing(l) && l in s.locks && s.locks[l].depth > 0 && s.locks[l].count > 0
    ensures Runs(s, [TestDepth(t), Release(t)], s2)
    ensures Leaves(s, s2, t, l, Released(s.locks[l]), Files(s.open, s.flock))
  {
    s2 := ReleaseRuns(Apply(s, TestDepth(t)), t, l);
    RunsCons(s, TestDepth(t), [Release(t)], s2);
  }

  lemma InnerExitRuns(s: State, t: Thread, l: LockId) returns (s2: State)
    requires s.PcOf(t) == Leaving(l) && l in s.locks && s.locks[l].depth > 1 && s.locks[l].count > 0
    ensures Runs(s, [Decrement(t), TestDepth(t), Release(t)], s2)
    ensures Leaves(s, s2, t, l, Released(s.locks[l]).(depth := s.locks[l].depth - 1), Files(s.open, s.flock))
  {
    s2 := InnerTestRuns(Apply(s, Decrement(t)), t, l);
    RunsCons(s, Decrement(t), [TestDepth(t), Release(t)], s2);
  }

  lemma ClosingRuns(s: State, t: Thread, l: LockId, h: Handle, unlockRaises: bool) returns (s2: State)
    requires s.PcOf(t) == Unlocking(l, h) && l in s.locks && s.locks[l].count > 0
    ensures Runs(s, [if unlockRaises then UnlockFails(t) else Unlock(t), Close(t), Release(t)], s2)
    ensures Leaves(s, s2, t, l, Released(s.locks[l]), Files(WithoutHandle(s.open, h), WithoutFlockOf(s.flock, h)))
  {
    var unlock := if unlockRaises then UnlockFails(t) else Unlock(t);
    var s5 := Apply(s, unlock);
    var s6 := Apply(s5, Close(t));
    assert WithoutFlockOf(WithoutFlockOf(s.flock, h), h) == WithoutFlockOf(s.flock, h);
    s2 := ReleaseRuns(s6, t, l);
    RunsCons(s5, Close(t), [Release(t)], s2);
    RunsCons(s, unlock, [Close(t), Release(t)], s2);
  }

  lemma LastExitRuns(s: State, t: Thread, l: LockId, unlockRaises: bool) returns (s2: State)
    requires s.PcOf(t) == Leaving(l) && l in s.locks && s.locks[l].depth == 1 && s.locks[l].count > 0
             && s.locks[l].handle.Some?
    ensures Runs(s, [Decrement(t), TestDepth(t), if unlockRaises then UnlockFails(t) else Unlock(t), Close(t),
                     Release(t)], s2)
    ensures var (k, files) := ExitResult(s.locks[l], Files(s.open, s.flock)); Leaves(s, s2, t, l, k, files)
  {
    var rest := [if unlockRaises then UnlockFails(t) else Unlock(t), Close(t), Release(t)];
    var s3 := Apply(s, Decrement(t));
    var s4 := Apply(s3, TestDepth(t));
    s2 := ClosingRuns(s4, t, l, s.locks[l].handle.value, unlockRaises);
    RunsCons(s3, TestDepth(t), rest, s2);
    RunsCons(s, Decrement(t), [TestDepth(t)] + rest, s2);
    assert [Decrement(t)] + ([TestDepth(t)] + rest)
        == [Decrement(t), TestDepth(t), if unlockRaises then UnlockFails(t) else Unlock(t), Close(t), Release(t)];
  }

  /** Exit's result is likewise a run, whether or not unlocking raises. */
  lemma ExitIsARun(s: State, t: Thread, l: LockId, unlockRaises: bool) returns (s2: State)
    requires Inv(s) && s.PcOf(t) == Idle && s.Inside(t, l) > 0 && l in s.locks
    ensures Runs(s, ExitSteps(s.locks[l], l, t, unlockRaises), s2)
    ensures s.locks[l].count > 0 && s.locks[l].depth > 0 && s.locks[l].handle.Some?
    ensures var (k, files) := ExitResult(s.locks[l], Files(s.open, s.flock)); Leaves(s, s2, t, l, k, files)
  {
    assert ThreadOk(s, t, l) && LockOk(s, l);
    s2 := ExitRuns(s, t, l, unlockRaises);
  }

  lemma ExitTailRuns(s: State, t: Thread, l: LockId, unlockRaises: bool) returns (s2: State)
    requires s.PcOf(t) == Leaving(l) && l in s.locks && s.locks[l].depth > 0 && s.locks[l].count > 0
             && s.locks[l].handle.Some?
    ensures Runs(s, ExitTail(s.locks[l].depth, t, unlockRaises), s2)
    ensures var (k, files) := ExitResult(s.locks[l], Files(s.open, s.flock)); Leaves(s, s2, t, l, k, files)
  {
    hide Runs, Apply;
    if s.locks[l].depth > 1 {
      s2 := InnerExitRuns(s, t, l);
    } else {
      s2 := LastExitRuns(s, t, l, unlockRaises);
    }
  }

  lemma ExitRuns(s: State, t: Thread, l: LockId, unlockRaises: bool) returns (s2: State)
    requires s.PcOf(t) == Idle && s.Inside(t, l) > 0 && l in s.locks && s.locks[l].depth > 0 && Settled(s.locks[l])
    ensures Runs(s, ExitSteps(s.locks[l], l, t, unlockRaises), s2)
    ensures var (k, files) := ExitResult(s.locks[l], Files(s.open, s.flock)); Leaves(s, s2, t, l, k, files)
  {
    hide Runs, ExitTail;
    s2 := ExitTailRuns(Apply(s, BeginExit(t, l)), t, l, unlockRaises);
    RunsCons(s, BeginExit(t, l), ExitTail(s.locks[l].depth, t, unlockRaises), s2);
  }
}
