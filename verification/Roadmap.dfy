/** The depth-first dependency check of planning/reasoning-engine/check_roadmap.py. */
module Roadmap {
  import opened Common
  import opened Graphs

  datatype Key = Key(id: string)

  /** The dependency list of every epic and feature. */
  type Items = map<Key, seq<Key>>

  /** What the failing assertion reports. */
  datatype Failure = CycleAt(key: Key) | Repeats(key: Key) | Missing(key: Key, dep: Key)

  ghost function Depends(items: Items): Digraph<Key> {
    map key | key in items :: Elements(items[key])
  }

  /** The requirement the check decides. */
  ghost predicate WellFormed(items: Items) {
    && (forall key :: key in items ==> Distinct(items[key]))
    && (forall key, dep :: key in items && dep in items[key] ==> dep in items)
    && Acyclic(Depends(items))
  }

  /** The failure names a real violation. */
  ghost predicate Violation(items: Items, failure: Failure) {
    match failure
    case CycleAt(key) => ReachesStrictly(Depends(items), key, key)
    case Repeats(key) => key in items && !Distinct(items[key])
    case Missing(key, dep) => key in items && dep in items[key] && dep !in items
  }

  lemma ViolationRefutes(items: Items, failure: Failure)
    requires Violation(items, failure)
    ensures !WellFormed(items)
  {
  }

  /** A repetition-free order of sound items in which every dependency comes first. */
  ghost predicate DependenciesFirst(items: Items, order: seq<Key>) {
    && Distinct(order)
    && forall i :: 0 <= i < |order| ==> Placed(items, order, i)
  }

  ghost predicate Placed(items: Items, order: seq<Key>, i: int)
    requires 0 <= i < |order|
  {
    order[i] in items && Distinct(items[order[i]]) && Elements(items[order[i]]) <= Elements(order[..i])
  }

  lemma {:induction false} WalksGoBack(items: Items, order: seq<Key>, p: seq<Key>, i: nat)
    requires DependenciesFirst(items, order) && i < |order|
    requires Walk(Depends(items), p) && p[0] == order[i] && |p| > 1
    ensures exists j :: 0 <= j < i && order[j] == p[|p| - 1]
    decreases |p|
  {
    assert p[0 + 1] in Next(Depends(items), p[0]);
    assert Placed(items, order, i);
    assert p[1] in order[..i];
    var j :| 0 <= j < i && order[j] == p[1];
    if |p| > 2 {
      SliceWalk(Depends(items), p, 1, |p|);
      WalksGoBack(items, order, p[1..], j);
    }
  }

  /** An order that covers every item with dependencies first exists only for well-formed items. */
  lemma OrderMeansWellFormed(items: Items, order: seq<Key>)
    requires DependenciesFirst(items, order) && Elements(order) == items.Keys
    ensures WellFormed(items)
  {
    var g := Depends(items);
    forall key | key in items
      ensures Distinct(items[key]) && Elements(items[key]) <= items.Keys && !ReachesStrictly(g, key, key)
    {
      assert key in Elements(order);
      var i :| 0 <= i < |order| && order[i] == key;
      assert Placed(items, order, i);
      assert Elements(order[..i]) <= Elements(order);
      forall p | Walk(g, p) && p[0] == key && |p| > 1 ensures p[|p| - 1] != key {
        WalksGoBack(items, order, p, i);
      }
    }
    forall key, dep | key in items && dep in items[key] ensures dep in items {
      assert dep in Elements(items[key]);
    }
    forall v ensures !ReachesStrictly(g, v, v) {
      if p :| WalkFromTo(g, p, v, v) && |p| > 1 { assert p[0 + 1] in Next(g, p[0]); }
    }
  }

  /** What the two sets and the order of finished keys satisfy between assignments. */
  ghost predicate Consistent(items: Items, visited: set<Key>, active: set<Key>, order: seq<Key>) {
    && DependenciesFirst(items, order)
    && Elements(order) == visited
    && active !! visited
    && active <= items.Keys
  }

  /** The active keys, oldest first, form a walk that leads to the key about to be visited. */
  ghost predicate LeadsTo(items: Items, active: set<Key>, trail: seq<Key>, key: Key) {
    Elements(trail) == active && Walk(Depends(items), trail + [key])
  }

  lemma ActiveMeansCycle(items: Items, active: set<Key>, trail: seq<Key>, key: Key)
    requires LeadsTo(items, active, trail, key) && key in active
    ensures Violation(items, CycleAt(key))
  {
    assert key in Elements(trail);
    var i :| 0 <= i < |trail| && trail[i] == key;
    SliceWalk(Depends(items), trail + [key], i, |trail| + 1);
  }

  lemma ExtendTrail(items: Items, active: set<Key>, trail: seq<Key>, key: Key, dep: Key)
    requires LeadsTo(items, active, trail, key) && key in items && dep in items[key]
    ensures LeadsTo(items, active + {key}, trail + [key], dep)
  {
    ExtendWalk(Depends(items), trail + [key], (trail + [key])[0], key, dep);
    assert Elements(trail + [key]) == Elements(trail) + {key};
  }

  /** Activating a key keeps the sets consistent and leaves fewer keys to activate. */
  lemma Activate(items: Items, visited: set<Key>, active: set<Key>, order: seq<Key>, key: Key)
    requires Consistent(items, visited, active, order) && key in items && key !in active && key !in visited
    ensures Consistent(items, visited, active + {key}, order)
    ensures |items.Keys - (active + {key})| < |items.Keys - active|
  {
    assert items.Keys - active == (items.Keys - (active + {key})) + {key};
  }

  lemma OneMore(depends: seq<Key>, n: nat, visited: set<Key>)
    requires n < |depends| && Elements(depends[..n]) <= visited && depends[n] in visited
    ensures Elements(depends[..n + 1]) <= visited
  {
    assert depends[..n + 1] == depends[..n] + [depends[n]];
  }

  lemma MissingIsViolation(items: Items, key: Key, n: nat)
    requires key in items && n < |items[key]| && items[key][n] !in items
    ensures Violation(items, Missing(key, items[key][n]))
  {
  }

  lemma RepeatsIsViolation(items: Items, key: Key)
    requires key in items
    ensures if |items[key]| == |Elements(items[key])| then Distinct(items[key]) else Violation(items, Repeats(key))
  {
    CardDistinct(items[key]);
  }

  /** The nested `visit` with the two sets it shares. */
  class DependencyCheck {
    const items: Items
    var visited: set<Key>
    var active: set<Key>
    /** The visited keys in the order they were finished. */
    ghost var order: seq<Key>

    constructor (items: Items)
      ensures this.items == items && visited == {} && active == {} && order == []
    {
      this.items := items;
      visited, active, order := {}, {}, [];
    }

    ghost predicate Sound()
      reads this
    {
      Consistent(items, visited, active, order)
    }

    method Visit(key: Key, ghost trail: seq<Key>) returns (r: Result<(), Failure>)
      requires Sound() && key in items && LeadsTo(items, active, trail, key)
      modifies this
      ensures r.Ok? ==> Sound() && active == old(active) && key in visited && old(visited) <= visited
      ensures r.Err? ==> Violation(items, r.error)
      decreases |items.Keys - active|
    {
      hide Consistent, LeadsTo, Violation;
      if key in active {
        ActiveMeansCycle(items, active, trail, key);
        return Err(CycleAt(key));
      }
      if key in visited {
        return Ok(());
      }
      Activate(items, visited, active, order, key);
      active := active + {key};
      var depends := items[key];
      RepeatsIsViolation(items, key);
      if |depends| != |Elements(depends)| {
        return Err(Repeats(key));
      }
      for n := 0 to |depends|
        invariant Sound() && active == old(active) + {key} && old(visited) <= visited
        invariant Elements(depends[..n]) <= visited
      {
        var dep := depends[n];
        if dep !in items {
          MissingIsViolation(items, key, n);
          return Err(Missing(key, dep));
        }
        ExtendTrail(items, old(active), trail, key, dep);
        r := Visit(dep, trail + [key]);
        if r.Err? {
          return;
        }
        OneMore(depends, n, visited);
      }
      assert depends[..|depends|] == depends;
      Finish(key);
      return Ok(());
    }

    /** The two assignments that end a visit. */
    method Finish(key: Key)
      requires Sound() && key in active && Distinct(items[key]) && Elements(items[key]) <= visited
      modifies this
      ensures Sound() && active == old(active) - {key} && visited == old(visited) + {key}
      ensures order == old(order) + [key]
    {
      ghost var before := order;
      active := active - {key};
      visited := visited + {key};
      order := order + [key];
      assert key !in Elements(before);
      forall i | 0 <= i < |order| ensures Placed(items, order, i) {
        assert order[..i] == before[..i];
        if i < |before| { assert Placed(items, before, i); } else { assert before[..i] == before; }
      }
    }
  }

  /**
   * The driver loop. The check completes exactly on well-formed items, and then it has visited
   * every item in an order that places dependencies first; a failure names a real violation.
   */
  method CheckDependencies(items: Items, keys: seq<Key>) returns (r: Result<(), Failure>, ghost order: seq<Key>)
    requires Distinct(keys) && Elements(keys) == items.Keys
    ensures r.Ok? <==> WellFormed(items)
    ensures r.Ok? ==> DependenciesFirst(items, order) && Elements(order) == items.Keys
    ensures r.Err? ==> Violation(items, r.error)
  {
    var check := new DependencyCheck(items);
    for n := 0 to |keys|
      invariant check.items == items && check.Sound() && check.active == {}
      invariant Elements(keys[..n]) <= check.visited
    {
      assert keys[n] in Elements(keys);
      assert Elements([]) == check.active;
      r := check.Visit(keys[n], []);
      if r.Err? {
        ViolationRefutes(items, r.error);
        return r, check.order;
      }
      assert keys[..n + 1] == keys[..n] + [keys[n]];
    }
    assert keys[..|keys|] == keys;
    order := check.order;
    assert Elements(order) <= items.Keys by {
      forall i | 0 <= i < |order| ensures order[i] in items { assert Placed(items, order, i); }
    }
    OrderMeansWellFormed(items, order);
    return Ok(()), order;
  }
}
