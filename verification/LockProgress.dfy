/**
 * What the machine of LockMachine can always do: collect what nobody refers to, and go on unless someone is in the
 * way.
 */
module LockProgress {
  import opened Common
  import opened LockMachine
  import opened LockSteps
  import LockRuns

  // Collection.

  /** The locks some thread refers to. */
  function Referenced(s: State): set<LockId> {
    set r | r in s.refs :: r.1
  }

  /** A lock nobody refers to can be collected whatever else is referenced; its entry goes and every other one stays. */
  lemma UnreferencedIsCollectable(s: State, l: LockId)
    requires Inv(s) && l in s.locks && forall t :: (t, l) !in s.refs
    ensures Enabled(s, Collect(l))
    ensures var (s2, k) := (Apply(s, Collect(l)), s.locks[l]);
            && l !in s2.locks && (k.manager, k.path) !in s2.registry && s2.refs == s.refs
            && (forall m :: m in s.locks && m != l ==> m in s2.locks && s2.locks[m] == s.locks[m])
            && (forall e :: e in s.registry && e != (k.manager, k.path) ==>
                  e in s2.registry && s2.registry[e] == s.registry[e])
  {
    forall r | r in s.refs ensures r.1 != l { assert r == (r.0, r.1); }
  }

  ghost predicate Collecting(states: seq<State>, steps: seq<Step>) {
    && |states| == |steps| + 1
    && forall i :: 0 <= i < |steps| ==>
         steps[i].Collect? && Enabled(states[i], steps[i]) && states[i + 1] == Apply(states[i], steps[i])
  }

  lemma CollectOne(s: State, l: LockId)
    requires Inv(s) && l in s.locks && l !in Referenced(s)
    ensures Enabled(s, Collect(l)) && Inv(Apply(s, Collect(l)))
    ensures Apply(s, Collect(l)).refs == s.refs && Apply(s, Collect(l)).locks.Keys == s.locks.Keys - {l}
  {
    hide LockOk, HandleOk, FlockOk, ThreadOk;
    forall t ensures (t, l) !in s.refs { assert (t, l) in s.refs ==> (t, l).1 in Referenced(s); }
    UnreferencedIsCollectable(s, l);
    CollectKeeps(s, l);
    hide Inv;
  }

  /**
   * From every state collections alone reach one whose registry is exactly as large as the set of locks referred to.
   */
  lemma {:induction false} CollectionsEmptyRegistry(s: State) returns (states: seq<State>, steps: seq<Step>)
    requires Inv(s)
    ensures Collecting(states, steps) && states[0] == s
    ensures var last := states[|steps|];
            && Inv(last) && last.refs == s.refs && last.locks.Keys == Referenced(s)
            && |last.registry| == |Referenced(s)|
    decreases |s.locks|
  {
    if l :| l in s.locks && l !in Referenced(s) {
      CollectOne(s, l);
      hide Inv, Enabled;
      var next := Apply(s, Collect(l));
      FewerLocks(s.locks, next.locks, l);
      hide Apply, Collecting;
      var later, rest := CollectionsEmptyRegistry(next);
      states, steps := [s] + later, [Collect(l)] + rest;
      CollectingFirst(s, l, later, rest);
    } else {
      states, steps := [s], [];
      ReferencedLive(s);
      RegistryBounded(s);
      assert |s.locks| == |s.locks.Keys|;
    }
  }

  lemma ReferencedLive(s: State)
    requires Inv(s)
    ensures Referenced(s) <= s.locks.Keys
  {
  }

  lemma FewerLocks(locks: map<LockId, Lock>, fewer: map<LockId, Lock>, l: LockId)
    requires l in locks && fewer.Keys == locks.Keys - {l}
    ensures |fewer| < |locks|
  {
    assert |locks| == |locks.Keys| && |fewer| == |fewer.Keys|;
    assert locks.Keys == fewer.Keys + {l};
  }

  lemma CollectingFirst(s: State, l: LockId, later: seq<State>, rest: seq<Step>)
    requires Enabled(s, Collect(l)) && Collecting(later, rest) && later[0] == Apply(s, Collect(l))
    ensures Collecting([s] + later, [Collect(l)] + rest)
  {
    hide Apply, Enabled;
    var states, steps := [s] + later, [Collect(l)] + rest;
    forall i | 0 <= i < |steps|
      ensures steps[i].Collect? && Enabled(states[i], steps[i]) && states[i + 1] == Apply(states[i], steps[i])
    {
      if i > 0 { assert states[i] == later[i - 1] && steps[i] == rest[i - 1] && states[i + 1] == later[i]; }
    }
  }

  // Asking for a lock.

  lemma FreshLock(s: State) returns (l: LockId)
    ensures l !in s.locks
  {
    var used := set k | k in s.locks :: k.id;
    var n := FreshNumber(used);
    l := LockId(n);
    assert l in s.locks ==> l.id in used;
  }

  lemma FreshHandle(s: State) returns (h: Handle)
    ensures h !in s.open
  {
    var used := set k | k in s.open :: k.id;
    var n := FreshNumber(used);
    h := Handle(n);
    assert h in s.open ==> h.id in used;
  }

  lemma {:induction false} FreshNumber(used: set<nat>) returns (n: nat)
    ensures forall u :: u in used ==> u < n
  {
    n := 0;
    if used != {} {
      var u :| u in used;
      var below := FreshNumber(used - {u});
      n := Max(below, u + 1);
      assert used == (used - {u}) + {u};
    }
  }

  /** An idle thread that asks a manager for a path gets a lock of that manager and path, and disturbs no other. */
  lemma AskingSucceeds(s: State, t: Thread, m: Manager, path: Path) returns (a: Step)
    requires Inv(s) && s.PcOf(t) == Idle
    ensures a.FindLock? || a.MakeLock?
    ensures Enabled(s, a) && a.t == t && a.m == m && a.path == path
    ensures var s2 := Apply(s, a);
            && (m, path) in s2.registry && s2.registry[(m, path)] in s2.locks
            && var l := s2.registry[(m, path)];
               s2.locks[l].manager == m && s2.locks[l].path == path && (t, l) in s2.refs
               && (l !in s.locks ==> s2.locks[l] == Lock(m, path, None, 0, 0, None))
    ensures forall l :: l in s.locks ==> l in Apply(s, a).locks && Apply(s, a).locks[l] == s.locks[l]
  {
    if (m, path) in s.registry {
      a := FindLock(t, m, path);
    } else {
      var l := FreshLock(s);
      a := MakeLock(t, m, path, l);
    }
  }

  /** A reference can be dropped exactly while its thread is neither inside a region of the lock nor in a call on it. */
  lemma DroppableIff(s: State, t: Thread, l: LockId)
    requires Inv(s) && (t, l) in s.refs
    ensures Enabled(s, DropRef(t, l)) <==> s.Inside(t, l) == 0 && !(s.PcOf(t) != Idle && s.PcOf(t).lock == l)
    ensures Enabled(s, DropRef(t, l)) ==> Apply(s, DropRef(t, l)) == s.(refs := s.refs - {(t, l)})
  {
  }

  // Going on.

  /** What an idle thread waits for at a lock it refers to: another thread inside a region of it, or in a call on it. */
  lemma EntryBlockedIff(s: State, t: Thread, l: LockId)
    requires Inv(s) && s.PcOf(t) == Idle && (t, l) in s.refs
    ensures !Enabled(s, BeginEnter(t, l)) <==> exists u :: u != t && (s.Busy(u, l) || s.Inside(u, l) > 0)
  {
    assert l in s.locks && LockOk(s, l);
    forall u ensures s.Busy(u, l) || s.Inside(u, l) > 0 ==> s.locks[l].owner == Some(u) {
      assert ThreadOk(s, u, l);
    }
    OwnerIsThere(s, l);
    hide Inv, LockOk;
    if s.locks[l].owner.Some? {
      var u := s.locks[l].owner.value;
      assert s.Busy(u, l) || s.Inside(u, l) > 0;
    }
  }

  /** The owner of a lock is in a call on it or inside a region of it. */
  lemma OwnerIsThere(s: State, l: LockId)
    requires l in s.locks && LockOk(s, l)
    ensures var k := s.locks[l];
            k.owner.Some? ==> k.count > 0 && (s.Busy(k.owner.value, l) || s.Inside(k.owner.value, l) > 0)
  {
  }

  /** A region can always be left. */
  lemma LeavingIsPossible(s: State, t: Thread, l: LockId)
    requires Inv(s) && s.PcOf(t) == Idle && s.Inside(t, l) > 0
    ensures Enabled(s, BeginExit(t, l))
  {
    assert ThreadOk(s, t, l);
  }

  predicate Fails(a: Step) {
    a.OpenFails? || a.FlockFails? || a.Interrupt? || a.UnlockFails?
  }

  predicate Waits(s: State, t: Thread) {
    var pc := s.PcOf(t);
    pc.Locking? && pc.lock in s.locks && s.locks[pc.lock].path in s.flock
  }

  lemma EnterGoesOn(s: State, t: Thread) returns (a: Step)
    requires HoldsRLock(s, t) && !Waits(s, t)
    requires s.PcOf(t).Opening? || s.PcOf(t).Locking? || s.PcOf(t).Storing? || s.PcOf(t).Counting?
    ensures Enabled(s, a) && ActsAs(a, t) && !Fails(a)
  {
    var pc := s.PcOf(t);
    if pc.Opening? {
      if s.locks[pc.lock].depth != 0 {
        a := Reenter(t);
      } else {
        var h := FreshHandle(s);
        a := Open(t, h);
      }
    } else if pc.Locking? {
      a := Flock(t);
    } else if pc.Storing? {
      a := StoreHandle(t);
    } else {
      a := Count(t);
    }
  }

  lemma RestGoesOn(s: State, t: Thread) returns (a: Step)
    requires HoldsRLock(s, t)
    requires var (pc, k) := (s.PcOf(t), s.locks[s.PcOf(t).lock]);
             && !pc.Opening? && !pc.Locking? && !pc.Storing? && !pc.Counting?
             && (pc.Leaving? ==> k.depth > 0) && (pc.Testing? && k.depth == 0 ==> k.handle.Some?)
    ensures Enabled(s, a) && ActsAs(a, t) && !Fails(a)
  {
    var pc := s.PcOf(t);
    a := if pc.Closing? then CloseFailed(t) else if pc.Failing? then Raise(t)
         else if pc.Leaving? then Decrement(t) else if pc.Testing? then TestDepth(t)
         else if pc.Unlocking? then Unlock(t) else if pc.Dropping? then Close(t)
         else Release(t);
  }

  /** A thread in a call can take a step that does not fail, unless it waits for a flock that is held. */
  lemma CallGoesOn(s: State, t: Thread) returns (a: Step)
    requires Inv(s) && s.PcOf(t) != Idle && !Waits(s, t)
    ensures Enabled(s, a) && ActsAs(a, t) && !Fails(a)
  {
    LockRuns.CallsAreSafe(s, t);
    hide Inv, Enabled;
    if s.PcOf(t).Opening? || s.PcOf(t).Locking? || s.PcOf(t).Storing? || s.PcOf(t).Counting? {
      a := EnterGoesOn(s, t);
    } else {
      a := RestGoesOn(s, t);
    }
  }

  lemma WaitingIsStuck(s: State, t: Thread, a: Step)
    requires Waits(s, t) && Enabled(s, a) && ActsAs(a, t)
    ensures Fails(a)
  {
  }

  /** A flock is held only on behalf of a thread inside a region of the path or in a call on a lock of it. */
  lemma FlockHolderIsActive(s: State, p: Path) returns (l: LockId, u: Thread)
    requires Inv(s) && p in s.flock
    ensures l in s.locks && s.locks[l].path == p && (s.Busy(u, l) || s.Inside(u, l) > 0)
  {
    assert FlockOk(s, p);
    var h := s.flock[p];
    assert HandleOk(s, h);
    l := s.open[h].opener;
    assert LockOk(s, l);
    u := s.locks[l].owner.value;
  }

  lemma OneDescription(s: State, t: Thread, l: LockId, h: Handle)
    requires Inv(s) && l in s.locks && (s.PcOf(t) == Unlocking(l, h) || s.PcOf(t) == Dropping(l, h))
    ensures forall g :: g in s.open && s.open[g].opener == l ==> g == h
    ensures forall p :: p in s.flock && s.flock[p] == h ==> p == s.locks[l].path
    ensures s.PcOf(t).Unlocking? ==> s.locks[l].path in s.flock && s.flock[s.locks[l].path] == h
  {
    InvWorking(s, t);
    WorkingShape(s, t, l);
    hide LockOk;
    assert OwnsHandle(s, l, h) && s.locks[l].handle == None && (s.PcOf(t).Unlocking? ==> HoldsFlock(s, l, h));
    hide CallShape;
    forall g | g in s.open && s.open[g].opener == l ensures g == h { assert HandleOk(s, g); }
    forall p | p in s.flock && s.flock[p] == h ensures p == s.locks[l].path { assert FlockOk(s, p); }
    hide Inv;
  }

  lemma Holder(s: State, t: Thread, l: LockId)
    requires Inv(s) && s.PcOf(t) != Idle && s.PcOf(t).lock == l
    ensures HoldsRLock(s, t) && l in s.locks
  {
    hide Inv;
    InvWorking(s, t);
  }

  /** Unlocking gives the path back at once, and no other path. */
  lemma UnlockFrees(s: State, t: Thread, l: LockId, h: Handle)
    requires Inv(s) && s.PcOf(t) == Unlocking(l, h)
    ensures Enabled(s, Unlock(t)) && l in s.locks
    ensures Apply(s, Unlock(t)).flock == s.flock - {s.locks[l].path}
  {
    hide Inv;
    Holder(s, t, l);
    OneDescription(s, t, l, h);
  }

  /** Closing leaves no description of the lock, and no flock of the one it closes, when unlocking failed too. */
  lemma CloseFrees(s: State, t: Thread, l: LockId, h: Handle)
    requires Inv(s) && s.PcOf(t) == Dropping(l, h)
    ensures Enabled(s, Close(t))
    ensures forall g :: g in Apply(s, Close(t)).open ==> Apply(s, Close(t)).open[g].opener != l
    ensures forall p :: p in Apply(s, Close(t)).flock ==> Apply(s, Close(t)).flock[p] != h
  {
    hide Inv;
    Holder(s, t, l);
    OneDescription(s, t, l, h);
  }
}
