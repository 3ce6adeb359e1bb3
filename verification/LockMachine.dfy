/**
 Every interleaving of src/gestaltdb/concurrency.py: threads of any number of processes taking
 small steps through ReentrantFileLock.__enter__/__exit__ and LockManager.for_path. A lock
 object belongs to one manager and a manager to one process, so locks of different processes
 are locks of different managers. flock excludes between open file descriptions, whichever
 process opened them, and lock files are never unlinked, so a path names one file for good.

 Exceptions stand in place of the system calls, of the rest of the inner try, and of what a reentry does before its
 depth is counted. The other points of a call, which only an asynchronous exception reaches, are in LockInterrupts.
 */
module LockMachine {
  import opened Common

  datatype Thread = Thread(id: nat)
  datatype Manager = Manager(id: nat)
  datatype Path = Path(canonical: string)
  datatype LockId = LockId(id: nat)
  datatype Handle = Handle(id: nat)

  /** An open file description: what it opened, and for which lock object. */
  datatype OpenFile = OpenFile(path: Path, opener: LockId)

  /** A ReentrantFileLock: its RLock (owner and recursion count), _depth and _handle. */
  datatype Lock = Lock(manager: Manager, path: Path, owner: Option<Thread>, count: nat, depth: nat,
                       handle: Option<Handle>)

  /** Where a thread stands. Calls of __enter__ remember the lock as they found it. */
  datatype Pc =
    | Idle
    | Opening(lock: LockId, before: Lock)
    | Locking(lock: LockId, h: Handle, before: Lock)
    | Storing(lock: LockId, h: Handle, before: Lock)
    | Counting(lock: LockId, before: Lock)
    | Closing(lock: LockId, h: Handle, before: Lock)
    | Failing(lock: LockId, before: Lock)
    | Leaving(lock: LockId)
    | Testing(lock: LockId)
    | Unlocking(lock: LockId, h: Handle)
    | Dropping(lock: LockId, h: Handle)
    | Releasing(lock: LockId)

  /** `inside` counts the protected regions of a lock a thread has entered and not begun to leave. */
  datatype State = State(
    locks: map<LockId, Lock>,
    pcs: map<Thread, Pc>,
    inside: map<(Thread, LockId), nat>,
    open: map<Handle, OpenFile>,
    flock: map<Path, Handle>,
    registry: map<(Manager, Path), LockId>,
    refs: set<(Thread, LockId)>)
  {
    function PcOf(t: Thread): Pc {
      if t in pcs then pcs[t] else Idle
    }

    function Inside(t: Thread, l: LockId): nat {
      if (t, l) in inside then inside[(t, l)] else 0
    }

    predicate Busy(t: Thread, l: LockId) {
      PcOf(t) != Idle && PcOf(t).lock == l
    }
  }

  datatype Step =
    | FindLock(t: Thread, m: Manager, path: Path)
    | MakeLock(t: Thread, m: Manager, path: Path, newId: LockId)
    | DropRef(t: Thread, l: LockId)
    | Collect(l: LockId)
    | BeginEnter(t: Thread, l: LockId)
    | Reenter(t: Thread)
    | Open(t: Thread, h: Handle)
    | OpenFails(t: Thread)
    | Flock(t: Thread)
    | FlockFails(t: Thread)      // or an exception later in the inner try
    | StoreHandle(t: Thread)
    | Count(t: Thread)
    | Interrupt(t: Thread)       // an exception before the open, or on a reentry before the depth is counted
    | CloseFailed(t: Thread)
    | Raise(t: Thread)
    | BeginExit(t: Thread, l: LockId)
    | Decrement(t: Thread)
    | TestDepth(t: Thread)
    | Unlock(t: Thread)
    | UnlockFails(t: Thread)
    | Close(t: Thread)
    | Release(t: Thread)

  function Unshared(s: State, l: LockId): bool {
    forall r :: r in s.refs ==> r.1 != l
  }

  /** RLock.acquire succeeds at once for the owner and when nobody owns it; otherwise the thread waits. */
  predicate CanAcquire(k: Lock, t: Thread) {
    k.owner == None || k.owner == Some(t)
  }

  function Acquired(k: Lock, t: Thread): Lock {
    k.(owner := Some(t), count := k.count + 1)
  }

  function Released(k: Lock): Lock
    requires k.count > 0
  {
    k.(owner := if k.count == 1 then None else k.owner, count := k.count - 1)
  }

  predicate HoldsRLock(s: State, t: Thread) {
    var pc := s.PcOf(t);
    pc != Idle && pc.lock in s.locks && s.locks[pc.lock].count > 0
  }

  predicate Enabled(s: State, a: Step) {
    match a
    case FindLock(t, m, path) => s.PcOf(t) == Idle && (m, path) in s.registry
    case MakeLock(t, m, path, newId) => s.PcOf(t) == Idle && (m, path) !in s.registry && newId !in s.locks
    case DropRef(t, l) => (t, l) in s.refs && s.Inside(t, l) == 0 && !s.Busy(t, l)
    case Collect(l) => l in s.locks && Unshared(s, l)
    case BeginEnter(t, l) => s.PcOf(t) == Idle && (t, l) in s.refs && l in s.locks && CanAcquire(s.locks[l], t)
    case Reenter(t) => HoldsRLock(s, t) && s.PcOf(t).Opening? && s.locks[s.PcOf(t).lock].depth != 0
    case Open(t, h) => HoldsRLock(s, t) && s.PcOf(t).Opening? && s.locks[s.PcOf(t).lock].depth == 0 && h !in s.open
    case OpenFails(t) => HoldsRLock(s, t) && s.PcOf(t).Opening? && s.locks[s.PcOf(t).lock].depth == 0
    case Flock(t) => HoldsRLock(s, t) && s.PcOf(t).Locking? && s.locks[s.PcOf(t).lock].path !in s.flock
    case FlockFails(t) => s.PcOf(t).Locking? || s.PcOf(t).Storing?
    case StoreHandle(t) => HoldsRLock(s, t) && s.PcOf(t).Storing?
    case Count(t) => HoldsRLock(s, t) && s.PcOf(t).Counting?
    case Interrupt(t) => s.PcOf(t).Opening? || (s.PcOf(t).Counting? && s.PcOf(t).before.depth > 0)
    case CloseFailed(t) => s.PcOf(t).Closing?
    case Raise(t) => HoldsRLock(s, t) && s.PcOf(t).Failing?
    case BeginExit(t, l) => s.PcOf(t) == Idle && l in s.locks && s.Inside(t, l) > 0
    case Decrement(t) => HoldsRLock(s, t) && s.PcOf(t).Leaving? && s.locks[s.PcOf(t).lock].depth > 0
    case TestDepth(t) => HoldsRLock(s, t) && s.PcOf(t).Testing?
                         && (s.locks[s.PcOf(t).lock].depth == 0 ==> s.locks[s.PcOf(t).lock].handle.Some?)
    case Unlock(t) => HoldsRLock(s, t) && s.PcOf(t).Unlocking?
    case UnlockFails(t) => s.PcOf(t).Unlocking?
    case Close(t) => s.PcOf(t).Dropping?
    case Release(t) => HoldsRLock(s, t) && s.PcOf(t).Releasing?
  }

  /** Closing a description, or unlocking it, gives up the flock it holds, if any. */
  function WithoutFlockOf(flock: map<Path, Handle>, h: Handle): map<Path, Handle> {
    map p | p in flock && flock[p] != h :: flock[p]
  }

  function WithoutHandle(open: map<Handle, OpenFile>, h: Handle): map<Handle, OpenFile> {
    map g | g in open && g != h :: open[g]
  }

  function At(s: State, t: Thread, pc: Pc): State {
    s.(pcs := s.pcs[t := pc])
  }

  function Put(s: State, l: LockId, k: Lock): State {
    s.(locks := s.locks[l := k])
  }

  function Apply(s: State, a: Step): State
    requires Enabled(s, a)
  {
    match a
    case FindLock(t, m, path) => s.(refs := s.refs + {(t, s.registry[(m, path)])})
    case MakeLock(t, m, path, newId) =>
      s.(locks := s.locks[newId := Lock(m, path, None, 0, 0, None)],
         registry := s.registry[(m, path) := newId],
         refs := s.refs + {(t, newId)})
    case DropRef(t, l) => s.(refs := s.refs - {(t, l)})
    case Collect(l) =>
      s.(locks := map k | k in s.locks && k != l :: s.locks[k],
         registry := map e | e in s.registry && s.registry[e] != l :: s.registry[e])
    case BeginEnter(t, l) => At(Put(s, l, Acquired(s.locks[l], t)), t, Opening(l, s.locks[l]))
    case Reenter(t) => At(s, t, Counting(s.PcOf(t).lock, s.PcOf(t).before))
    case Open(t, h) =>
      var l := s.PcOf(t).lock;
      At(s, t, Locking(l, h, s.PcOf(t).before)).(open := s.open[h := OpenFile(s.locks[l].path, l)])
    case OpenFails(t) => At(s, t, Failing(s.PcOf(t).lock, s.PcOf(t).before))
    case Flock(t) =>
      var pc := s.PcOf(t);
      At(s, t, Storing(pc.lock, pc.h, pc.before)).(flock := s.flock[s.locks[pc.lock].path := pc.h])
    case FlockFails(t) => At(s, t, Closing(s.PcOf(t).lock, s.PcOf(t).h, s.PcOf(t).before))
    case StoreHandle(t) =>
      var pc := s.PcOf(t);
      At(Put(s, pc.lock, s.locks[pc.lock].(handle := Some(pc.h))), t, Counting(pc.lock, pc.before))
    case Count(t) =>
      var l := s.PcOf(t).lock;
      At(Put(s, l, s.locks[l].(depth := s.locks[l].depth + 1)), t, Idle)
        .(inside := s.inside[(t, l) := s.Inside(t, l) + 1])
    case Interrupt(t) => At(s, t, Failing(s.PcOf(t).lock, s.PcOf(t).before))
    case CloseFailed(t) =>
      var pc := s.PcOf(t);
      At(s, t, Failing(pc.lock, pc.before)).(open := WithoutHandle(s.open, pc.h),
                                             flock := WithoutFlockOf(s.flock, pc.h))
    case Raise(t) => At(Put(s, s.PcOf(t).lock, Released(s.locks[s.PcOf(t).lock])), t, Idle)
    case BeginExit(t, l) => At(s, t, Leaving(l)).(inside := s.inside[(t, l) := s.Inside(t, l) - 1])
    case Decrement(t) =>
      var l := s.PcOf(t).lock;
      At(Put(s, l, s.locks[l].(depth := s.locks[l].depth - 1)), t, Testing(l))
    case TestDepth(t) =>
      var l := s.PcOf(t).lock;
      if s.locks[l].depth == 0 then
        At(Put(s, l, s.locks[l].(handle := None)), t, Unlocking(l, s.locks[l].handle.value))
      else At(s, t, Releasing(l))
    case Unlock(t) => At(s, t, Dropping(s.PcOf(t).lock, s.PcOf(t).h)).(flock := WithoutFlockOf(s.flock, s.PcOf(t).h))
    case UnlockFails(t) => At(s, t, Dropping(s.PcOf(t).lock, s.PcOf(t).h))
    case Close(t) =>
      var pc := s.PcOf(t);
      At(s, t, Releasing(pc.lock)).(open := WithoutHandle(s.open, pc.h), flock := WithoutFlockOf(s.flock, pc.h))
    case Release(t) => At(Put(s, s.PcOf(t).lock, Released(s.locks[s.PcOf(t).lock])), t, Idle)
  }

  const INITIAL := State(map[], map[], map[], map[], map[], map[], {})

  /** The states a run passes through; a run may stop anywhere. */
  ghost predicate IsRun(states: seq<State>, steps: seq<Step>) {
    && |states| == |steps| + 1
    && states[0] == INITIAL
    && forall i :: 0 <= i < |steps| ==> Enabled(states[i], steps[i]) && states[i + 1] == Apply(states[i], steps[i])
  }

  // The invariant.

  /** A lock nobody is in the middle of entering or leaving. */
  predicate Settled(k: Lock) {
    && k.count == k.depth
    && (k.owner == None <==> k.count == 0)
    && (k.handle.Some? <==> k.depth > 0)
  }

  /** `before` as seen by a thread entering: settled, and free or already its own. */
  predicate Enterable(before: Lock, t: Thread) {
    Settled(before) && CanAcquire(before, t)
  }

  predicate OwnsHandle(s: State, l: LockId, h: Handle) {
    l in s.locks && h in s.open && s.open[h] == OpenFile(s.locks[l].path, l)
  }

  predicate HoldsFlock(s: State, l: LockId, h: Handle) {
    OwnsHandle(s, l, h) && s.locks[l].path in s.flock && s.flock[s.locks[l].path] == h
  }

  /** The lock fields at each point of a call by their owner, and how many regions that owner is inside. */
  predicate CallShape(s: State, t: Thread, l: LockId, k: Lock, pc: Pc) {
    match pc
    case Idle => k.depth > 0 && Settled(k) && s.Inside(t, l) == k.depth
    case Opening(_, before) => Enterable(before, t) && k == Acquired(before, t) && s.Inside(t, l) == k.depth
    case Locking(_, h, before) =>
      Enterable(before, t) && k == Acquired(before, t) && s.Inside(t, l) == k.depth == 0 && OwnsHandle(s, l, h)
    case Storing(_, h, before) =>
      Enterable(before, t) && k == Acquired(before, t) && s.Inside(t, l) == k.depth == 0 && HoldsFlock(s, l, h)
    case Counting(_, before) =>
      && Enterable(before, t) && k == Acquired(before, t).(handle := k.handle) && s.Inside(t, l) == k.depth
      && k.handle.Some?
      && (before.depth > 0 ==> k.handle == before.handle)
    case Closing(_, h, before) =>
      Enterable(before, t) && k == Acquired(before, t) && s.Inside(t, l) == k.depth == 0 && OwnsHandle(s, l, h)
    case Failing(_, before) => Enterable(before, t) && k == Acquired(before, t) && s.Inside(t, l) == k.depth
    case Leaving(_) => k.depth > 0 && Settled(k) && s.Inside(t, l) == k.depth - 1
    case Testing(_) => k.count == k.depth + 1 && k.handle.Some? && s.Inside(t, l) == k.depth
    case Unlocking(_, h) => k.count == 1 && k.depth == 0 && k.handle == None && s.Inside(t, l) == 0
                            && HoldsFlock(s, l, h)
    case Dropping(_, h) => k.count == 1 && k.depth == 0 && k.handle == None && s.Inside(t, l) == 0
                           && OwnsHandle(s, l, h)
    case Releasing(_) => k.count == k.depth + 1 && (k.handle.Some? <==> k.depth > 0) && s.Inside(t, l) == k.depth
  }

  function PcOn(s: State, t: Thread, l: LockId): Pc {
    if s.Busy(t, l) then s.PcOf(t) else Idle
  }

  predicate LockOk(s: State, l: LockId)
    requires l in s.locks
  {
    var k := s.locks[l];
    && (k.owner == None ==> Settled(k))
    && (k.owner.Some? ==> k.count > 0 && (k.owner.value, l) in s.refs)
    && (k.owner.Some? ==> CallShape(s, k.owner.value, l, k, PcOn(s, k.owner.value, l)))
    && (k.handle.Some? ==> HoldsFlock(s, l, k.handle.value))
  }

  /** A thread inside a call, or inside a region, owns that lock's RLock. */
  predicate ThreadOk(s: State, t: Thread, l: LockId) {
    s.Busy(t, l) || s.Inside(t, l) > 0 ==> l in s.locks && s.locks[l].owner == Some(t)
  }

  predicate Carries(pc: Pc, h: Handle) {
    (pc.Locking? || pc.Storing? || pc.Closing? || pc.Unlocking? || pc.Dropping?) && pc.h == h
  }

  /** No descriptor leaks: each open one is stored in its lock or in the hands of that lock's owner. */
  predicate HandleOk(s: State, h: Handle)
    requires h in s.open
  {
    var l := s.open[h].opener;
    && l in s.locks && s.open[h].path == s.locks[l].path
    && (s.locks[l].handle == Some(h)
        || (s.locks[l].owner.Some? && Carries(PcOn(s, s.locks[l].owner.value, l), h)))
  }

  predicate FlockOk(s: State, p: Path)
    requires p in s.flock
  {
    s.flock[p] in s.open && s.open[s.flock[p]].path == p
  }

  ghost predicate RegistryOk(s: State) {
    && (forall e :: e in s.registry ==>
          s.registry[e] in s.locks && (s.locks[s.registry[e]].manager, s.locks[s.registry[e]].path) == e)
    && (forall l :: l in s.locks ==>
          (s.locks[l].manager, s.locks[l].path) in s.registry && s.registry[(s.locks[l].manager, s.locks[l].path)] == l)
    && (forall r :: r in s.refs ==> r.1 in s.locks)
  }

  ghost predicate Inv(s: State) {
    && RegistryOk(s)
    && (forall l :: l in s.locks ==> LockOk(s, l))
    && (forall t, l :: ThreadOk(s, t, l))
    && (forall h :: h in s.open ==> HandleOk(s, h))
    && (forall p :: p in s.flock ==> FlockOk(s, p))
  }

  // What the invariant means.

  /** At most one thread is inside the protected region of a path, whatever managers and processes are used. */
  lemma MutualExclusion(s: State, t: Thread, l: LockId, u: Thread, m: LockId)
    requires Inv(s) && s.Inside(t, l) > 0 && s.Inside(u, m) > 0
    requires l in s.locks && m in s.locks && s.locks[l].path == s.locks[m].path
    ensures t == u && l == m
  {
    assert ThreadOk(s, t, l) && ThreadOk(s, u, m);
    assert LockOk(s, l) && LockOk(s, m);
  }

  /** Between calls, depth is the RLock recursion count and the handle is set exactly when depth is positive. */
  lemma SettledBetweenCalls(s: State, l: LockId)
    requires Inv(s) && l in s.locks && forall t :: !s.Busy(t, l)
    ensures Settled(s.locks[l])
    ensures s.locks[l].depth == 0 ==> forall h :: h in s.open ==> s.open[h].opener != l
    ensures forall t :: s.Inside(t, l) == (if s.locks[l].owner == Some(t) then s.locks[l].depth else 0)
  {
    assert LockOk(s, l);
    forall h | h in s.open && s.open[h].opener == l ensures s.locks[l].depth > 0 { assert HandleOk(s, h); }
    forall t
      ensures s.Inside(t, l) == (if s.locks[l].owner == Some(t) then s.locks[l].depth else 0)
    {
      assert ThreadOk(s, t, l);
    }
  }

  /** A manager never has two live lock objects for one path, and its registry holds no dead ones. */
  lemma OneLivePerPath(s: State, l: LockId, m: LockId)
    requires Inv(s) && l in s.locks && m in s.locks
    requires s.locks[l].manager == s.locks[m].manager && s.locks[l].path == s.locks[m].path
    ensures l == m
  {
  }

  /** While a lock object of a manager lives, asking that manager for its path finds it and cannot make another. */
  lemma HoldersShare(s: State, l: LockId, t: Thread)
    requires Inv(s) && l in s.locks && s.PcOf(t) == Idle
    ensures var (m, path) := (s.locks[l].manager, s.locks[l].path);
            && Enabled(s, FindLock(t, m, path)) && Apply(s, FindLock(t, m, path)) == s.(refs := s.refs + {(t, l)})
            && forall newId :: !Enabled(s, MakeLock(t, m, path, newId))
  {
  }

  /** The registry is exactly as large as the set of live locks. */
  lemma RegistryBounded(s: State)
    requires Inv(s)
    ensures |s.registry| == |s.locks|
  {
    BijectionCard(s.registry, s.locks.Keys);
  }

  lemma {:induction false} BijectionCard<K, V>(m: map<K, V>, vs: set<V>)
    requires forall k :: k in m ==> m[k] in vs
    requires forall v :: v in vs ==> exists k :: k in m && m[k] == v
    requires forall j, k :: j in m && k in m && m[j] == m[k] ==> j == k
    ensures |m| == |vs|
  {
    if m.Keys == {} {
      assert |m| == |m.Keys|;
      if v :| v in vs { assert false; }
    } else {
      var k :| k in m;
      var rest := map j | j in m && j != k :: m[j];
      assert m.Keys == rest.Keys + {k};
      forall v | v in vs - {m[k]} ensures exists j :: j in rest && rest[j] == v {
        var j :| j in m && m[j] == v;
        assert j in rest;
      }
      BijectionCard(rest, vs - {m[k]});
      assert vs == (vs - {m[k]}) + {m[k]};
      assert |m| == |m.Keys| && |rest| == |rest.Keys|;
    }
  }

  /** A thread in __enter__ of l that found it as `before`. */
  predicate Entering(s: State, t: Thread, l: LockId, before: Lock) {
    var pc := s.PcOf(t);
    (pc.Opening? || pc.Locking? || pc.Storing? || pc.Counting? || pc.Closing? || pc.Failing?) && pc.lock == l
    && pc.before == before
  }

  /** Whatever step anyone takes, an entering thread remembers the same lock until its own call ends. */
  lemma EnteringRemembers(s: State, a: Step, t: Thread, l: LockId, before: Lock)
    requires Entering(s, t, l, before) && Enabled(s, a)
    ensures Entering(Apply(s, a), t, l, before) || a == Count(t) || a == Raise(t)
  {
    if ActsAs(a, t) {
      OwnStepRemembers(s, a, t, l, before);
    } else {
      OtherStepKeepsPc(s, a, t);
    }
  }

  /** The step is one of thread t inside a call. */
  predicate ActsAs(a: Step, t: Thread) {
    !a.FindLock? && !a.MakeLock? && !a.DropRef? && !a.Collect? && a.t == t
  }

  lemma OtherEnterKeepsPc(s: State, a: Step, t: Thread)
    requires Enabled(s, a) && !ActsAs(a, t)
    requires a.BeginEnter? || a.Reenter? || a.Open? || a.OpenFails? || a.Flock? || a.FlockFails? || a.StoreHandle?
             || a.Count?
    ensures Apply(s, a).PcOf(t) == s.PcOf(t)
  {
  }

  lemma OtherExitKeepsPc(s: State, a: Step, t: Thread)
    requires Enabled(s, a) && !ActsAs(a, t)
    requires a.BeginExit? || a.Decrement? || a.TestDepth? || a.Unlock? || a.UnlockFails? || a.Close? || a.Release?
    ensures Apply(s, a).PcOf(t) == s.PcOf(t)
  {
  }

  lemma OtherStepKeepsPc(s: State, a: Step, t: Thread)
    requires Enabled(s, a) && !ActsAs(a, t)
    ensures Apply(s, a).PcOf(t) == s.PcOf(t)
  {
    if a.BeginEnter? || a.Reenter? || a.Open? || a.OpenFails? || a.Flock? || a.FlockFails? || a.StoreHandle?
       || a.Count?
    {
      OtherEnterKeepsPc(s, a, t);
    } else if a.BeginExit? || a.Decrement? || a.TestDepth? || a.Unlock? || a.UnlockFails? || a.Close? || a.Release? {
      OtherExitKeepsPc(s, a, t);
    }
  }

  lemma OwnStepRemembers(s: State, a: Step, t: Thread, l: LockId, before: Lock)
    requires Entering(s, t, l, before) && Enabled(s, a) && ActsAs(a, t)
    ensures Entering(Apply(s, a), t, l, before) || a == Count(t) || a == Raise(t)
  {
  }

  /**
   * A failed __enter__ leaves the lock exactly as the call found it; the calling thread is inside no more regions
   * than before.
   */
  lemma FailedEnterRestores(s: State, t: Thread, l: LockId, before: Lock)
    requires l in s.locks && LockOk(s, l) && ThreadOk(s, t, l)
    requires Entering(s, t, l, before) && Enabled(s, Raise(t))
    ensures var after := Apply(s, Raise(t));
            && after.locks[l] == before && after.inside == s.inside && after.PcOf(t) == Idle
            && after.Inside(t, l) == before.depth
  {
    assert ThreadOk(s, t, l);
    assert LockOk(s, l);
  }

  // Interrupts where the machine has none.

  /**
   * What the handler of __enter__ makes of an exception raised once the call is past the test and the lock of the file:
   * after the handle is stored, or, when `counted`, after the depth is counted too.
   */
  function Interrupted(s: State, t: Thread, counted: bool): State
    requires Enabled(s, Count(t))
  {
    var l := s.PcOf(t).lock;
    var k := Released(s.locks[l]);
    At(Put(s, l, if counted then k.(depth := k.depth + 1) else k), t, Idle)
  }

  /**
   * There the handler restores the lock exactly on a reentry whose depth is not yet counted. A first entry is left as
   * an unowned lock with its handle and the flock of its path, so that nobody can lock the path.
   */
  lemma InterruptRestoresIff(s: State, t: Thread, l: LockId, before: Lock, counted: bool)
    requires l in s.locks && LockOk(s, l) && ThreadOk(s, t, l)
    requires s.PcOf(t) == Counting(l, before) && Enabled(s, Count(t))
    ensures var after := Interrupted(s, t, counted);
            && (after.locks[l] == before <==> before.depth > 0 && !counted)
            && (Settled(after.locks[l]) <==> before.depth > 0 && !counted)
            && (before.depth == 0 ==>
                  && after.locks[l].owner == None && after.locks[l].handle.Some?
                  && HoldsFlock(after, l, after.locks[l].handle.value)
                  && forall u :: Enabled(after, Flock(u)) ==>
                       after.locks[after.PcOf(u).lock].path != after.locks[l].path)
  {
  }

  /** On a reentry whose depth is not yet counted it is what the machine's own steps do. */
  lemma InterruptIsARun(s: State, t: Thread)
    requires Enabled(s, Count(t)) && s.PcOf(t).before.depth > 0
    ensures Enabled(s, Interrupt(t)) && Enabled(Apply(s, Interrupt(t)), Raise(t))
    ensures Apply(Apply(s, Interrupt(t)), Raise(t)) == Interrupted(s, t, false)
  {
    var l := s.PcOf(t).lock;
    var failed := Apply(s, Interrupt(t));
    assert failed.PcOf(t) == Failing(l, s.PcOf(t).before);
    assert s.pcs[t := failed.PcOf(t)][t := Idle] == s.pcs[t := Idle];
  }
}
