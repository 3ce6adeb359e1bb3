/** The validated type hierarchy of src/gestaltdb/hierarchy.py. */
module Hierarchy {
  import opened Common
  import opened Graphs

  datatype Name = Name(text: string)

  /** One entry of the child-to-parents mapping, in mapping order. */
  datatype Item = Item(child: Name, parents: seq<Name>)

  datatype Error = EmptyName | SelfParent | Cycle

  ghost predicate IsMapping(items: seq<Item>) {
    forall i, j :: 0 <= i < j < |items| ==> items[i].child != items[j].child
  }

  /** dict.fromkeys: the first occurrence of each name. */
  function FirstSeen(names: seq<Name>): seq<Name> {
    AppendNew([], names)
  }

  /** Append each name not yet present. */
  function AppendNew(acc: seq<Name>, names: seq<Name>): seq<Name>
    decreases |names|
  {
    if names == [] then acc
    else AppendNew(if names[0] in acc then acc else acc + [names[0]], names[1..])
  }

  lemma {:induction false} AppendNewFacts(acc: seq<Name>, names: seq<Name>)
    ensures Elements(AppendNew(acc, names)) == Elements(acc) + Elements(names)
    ensures Distinct(acc) <==> Distinct(AppendNew(acc, names))
    ensures acc <= AppendNew(acc, names)
    decreases |names|
  {
    if names != [] {
      var next := if names[0] in acc then acc else acc + [names[0]];
      AppendNewFacts(next, names[1..]);
      assert names == [names[0]] + names[1..];
      assert Elements(next) == Elements(acc) + {names[0]};
      assert Distinct(acc) ==> Distinct(next);
      if Distinct(next) {
        assert forall i, j :: 0 <= i < j < |acc| ==> acc[i] == next[i] && acc[j] == next[j];
      }
    }
  }

  lemma {:induction false} AppendNewConcat(acc: seq<Name>, a: seq<Name>, b: seq<Name>)
    ensures AppendNew(acc, a + b) == AppendNew(AppendNew(acc, a), b)
    decreases |a|
  {
    if a == [] {
      assert a + b == b;
    } else {
      assert (a + b)[1..] == a[1..] + b;
      AppendNewConcat(if a[0] in acc then acc else acc + [a[0]], a[1..], b);
    }
  }

  /** The element at k was seen at some point up to which no later element had been seen. */
  ghost predicate SeenBeforeLater(names: seq<Name>, result: seq<Name>, k: int)
    requires 0 <= k < |result|
  {
    exists m :: 0 <= m < |names| && names[m] == result[k]
                && forall j :: k < j < |result| ==> result[j] !in names[..m + 1]
  }

  lemma LaterDiffers(next: seq<Name>, result: seq<Name>, name: Name)
    requires Distinct(result) && next <= result && name in next
    ensures forall j :: |next| <= j < |result| ==> result[j] != name
  {
    var i :| 0 <= i < |next| && next[i] == name;
    assert result[i] == name;
  }

  lemma SeenHere(x: Name, rest: seq<Name>, result: seq<Name>, k: nat)
    requires k < |result| && result[k] == x && forall j :: k < j < |result| ==> result[j] != x
    ensures SeenBeforeLater([x] + rest, result, k)
  {
    var names := [x] + rest;
    assert names[0] == result[k] && names[..0 + 1] == [x];
  }

  lemma SeenLater(x: Name, rest: seq<Name>, result: seq<Name>, k: nat)
    requires k < |result| && SeenBeforeLater(rest, result, k) && forall j :: k < j < |result| ==> result[j] != x
    ensures SeenBeforeLater([x] + rest, result, k)
  {
    var names := [x] + rest;
    var m :| 0 <= m < |rest| && rest[m] == result[k] && forall j :: k < j < |result| ==> result[j] !in rest[..m + 1];
    assert names[..m + 1 + 1] == [x] + rest[..m + 1];
    assert names[m + 1] == result[k];
  }

  lemma {:induction false} AppendNewOrder(acc: seq<Name>, names: seq<Name>, k: nat)
    requires Distinct(acc) && |acc| <= k < |AppendNew(acc, names)|
    ensures SeenBeforeLater(names, AppendNew(acc, names), k)
    decreases |names|
  {
    hide SeenBeforeLater;
    var x, rest := names[0], names[1..];
    var next, result := if x in acc then acc else acc + [x], AppendNew(acc, names);
    assert names == [x] + rest && result == AppendNew(next, rest);
    AppendNewFacts(acc, names);
    AppendNewFacts(next, rest);
    LaterDiffers(next, result, x);
    if k >= |next| {
      assert Distinct(next);
      AppendNewOrder(next, rest, k);
      SeenLater(x, rest, result, k);
    } else {
      assert result[k] == next[k] == x;
      SeenHere(x, rest, result, k);
    }
  }

  /** dict.fromkeys keeps names in the order in which they were first seen. */
  lemma FirstSeenInOrder(names: seq<Name>, k: nat)
    requires k < |FirstSeen(names)|
    ensures Distinct(FirstSeen(names)) && Elements(FirstSeen(names)) == Elements(names)
    ensures SeenBeforeLater(names, FirstSeen(names), k)
  {
    AppendNewFacts([], names);
    AppendNewOrder([], names, k);
  }

  /** The checks made on one entry, and the entry kept. */
  function CheckItem(item: Item): Result<Item, Error> {
    if item.child.text == "" || Name("") in item.parents then Err(EmptyName)
    else if item.child in item.parents then Err(SelfParent)
    else Ok(Item(item.child, FirstSeen(item.parents)))
  }

  /** Names are non-empty and nothing parents itself. */
  predicate Clean(item: Item) {
    CheckItem(item).Ok?
  }

  ghost predicate AllClean(items: seq<Item>) {
    forall i :: 0 <= i < |items| ==> Clean(items[i])
  }

  ghost function Kept(items: seq<Item>): seq<Item>
    requires AllClean(items)
  {
    seq(|items|, i requires 0 <= i < |items| && Clean(items[i]) => CheckItem(items[i]).value)
  }

  // The relation.

  function Names(children: seq<Item>): set<Name> {
    (set i | 0 <= i < |children| :: children[i].child) +
    (set i, p | 0 <= i < |children| && p in children[i].parents :: p)
  }

  predicate ChildOf(children: seq<Item>, i: int, parent: Name) {
    0 <= i < |children| && parent in children[i].parents
  }

  /** Edges from parent to child. */
  function Down(children: seq<Item>): Digraph<Name> {
    map p | p in Names(children) :: set i | 0 <= i < |children| && ChildOf(children, i, p) :: children[i].child
  }

  /** The children of a name in mapping order. */
  function Found(children: seq<Item>, name: Name): seq<Name> {
    if children == [] then []
    else
      var last := children[|children| - 1];
      Found(children[..|children| - 1], name) + (if name in last.parents then [last.child] else [])
  }

  lemma {:induction false} FoundIndices(children: seq<Item>, name: Name)
    ensures forall c :: c in Found(children, name) <==> exists i :: ChildOf(children, i, name) && children[i].child == c
    ensures IsMapping(children) ==> Distinct(Found(children, name))
  {
    if children != [] {
      var n := |children| - 1;
      FoundIndices(children[..n], name);
      forall c
        ensures c in Found(children, name) <==> exists i :: ChildOf(children, i, name) && children[i].child == c
      {
        if i :| ChildOf(children, i, name) && children[i].child == c && i < n {
          assert ChildOf(children[..n], i, name);
        }
        if c in Found(children[..n], name) {
          var i :| ChildOf(children[..n], i, name) && children[..n][i].child == c;
          assert ChildOf(children, i, name);
        }
        if name in children[n].parents { assert ChildOf(children, n, name); }
      }
      if IsMapping(children) {
        assert IsMapping(children[..n]);
        var last := children[n].child;
        assert last !in Found(children[..n], name) by {
          forall i | ChildOf(children[..n], i, name) ensures children[..n][i].child != last {}
        }
        DistinctSnoc(Found(children[..n], name), last);
      }
    }
  }

  /** They are listed in the order of their entries. */
  lemma {:induction false} FoundInOrder(children: seq<Item>, name: Name, a: nat, b: nat)
    requires a < b < |Found(children, name)|
    ensures exists i, j :: i < j && ChildOf(children, i, name) && ChildOf(children, j, name)
              && children[i].child == Found(children, name)[a] && children[j].child == Found(children, name)[b]
  {
    var n := |children| - 1;
    var init := children[..n];
    if b < |Found(init, name)| {
      FoundInOrder(init, name, a, b);
      var i, j :| i < j && ChildOf(init, i, name) && ChildOf(init, j, name)
                  && init[i].child == Found(init, name)[a] && init[j].child == Found(init, name)[b];
      assert ChildOf(children, i, name) && ChildOf(children, j, name);
    } else {
      FoundIndices(init, name);
      assert Found(init, name)[a] in Found(init, name);
      var i :| ChildOf(init, i, name) && init[i].child == Found(init, name)[a];
      assert ChildOf(children, i, name) && ChildOf(children, n, name);
    }
  }

  /** The relation the entries give: an edge for every parent of every entry, and no other. */
  lemma DownIsParents(children: seq<Item>, p: Name, c: Name)
    ensures c in Next(Down(children), p) <==>
              exists i :: 0 <= i < |children| && children[i].child == c && p in children[i].parents
  {
    if i :| 0 <= i < |children| && children[i].child == c && p in children[i].parents {
      assert ChildOf(children, i, p);
    }
  }

  lemma FoundIsNext(children: seq<Item>, name: Name)
    ensures forall c :: c in Found(children, name) <==> c in Next(Down(children), name)
    ensures Elements(Found(children, name)) <= Names(children)
  {
    FoundIndices(children, name);
    forall c | c in Found(children, name) ensures c in Next(Down(children), name) && c in Names(children) {
      var i :| ChildOf(children, i, name) && children[i].child == c;
    }
  }

  // Descendants.

  /** _compute_descendants. The recursion ends because a name on the trail stops it. */
  function Descend(children: seq<Item>, name: Name, trail: seq<Name>): Result<seq<Name>, Error>
    requires name in Names(children)
    decreases |Names(children) - Elements(trail)|, 0
  {
    if name in trail then Err(Cycle)
    else
      FoundIsNext(children, name);
      TrailShrinks(children, name, trail);
      Gather(children, Found(children, name), trail + [name], [])
  }

  /** Its loop over the children found: the child unchecked, then each new descendant of it. */
  function Gather(children: seq<Item>, found: seq<Name>, trail: seq<Name>, ordered: seq<Name>): Result<seq<Name>, Error>
    requires Elements(found) <= Names(children)
    decreases |Names(children) - Elements(trail)|, |found|
  {
    if found == [] then Ok(ordered)
    else
      assert found[0] in Elements(found);
      match Descend(children, found[0], trail)
      case Err(e) => Err(e)
      case Ok(below) => Gather(children, found[1..], trail, AppendNew(ordered + [found[0]], below))
  }

  lemma TrailShrinks(children: seq<Item>, name: Name, trail: seq<Name>)
    requires name in Names(children) && name !in trail
    ensures |Names(children) - Elements(trail + [name])| < |Names(children) - Elements(trail)|
  {
    var all := Names(children);
    assert Elements(trail + [name]) == Elements(trail) + {name};
    assert all - Elements(trail) == (all - Elements(trail + [name])) + {name};
  }

  /** Some walk down from the name comes back to the trail or to itself. */
  ghost predicate Loops(g: Digraph<Name>, name: Name, trail: seq<Name>) {
    exists w :: LoopWalk(g, w, name, trail)
  }

  ghost predicate LoopWalk(g: Digraph<Name>, w: seq<Name>, name: Name, trail: seq<Name>) {
    Walk(g, w) && w[0] == name && (w[|w| - 1] in trail || w[|w| - 1] in w[..|w| - 1])
  }

  lemma LoopsStep(g: Digraph<Name>, name: Name, trail: seq<Name>)
    requires name !in trail
    ensures Loops(g, name, trail) <==> exists c :: c in Next(g, name) && Loops(g, c, trail + [name])
  {
    if w :| LoopWalk(g, w, name, trail) {
      assert |w| > 1;
      var c, rest := w[1], w[1..];
      assert w[0 + 1] in Next(g, w[0]);
      SliceWalk(g, w, 1, |w|);
      assert w[..|w| - 1] == [name] + rest[..|rest| - 1];
      assert LoopWalk(g, rest, c, trail + [name]);
    }
    if c :| c in Next(g, name) && Loops(g, c, trail + [name]) {
      var rest :| LoopWalk(g, rest, c, trail + [name]);
      PrependWalk(g, name, rest, c, rest[|rest| - 1]);
      var w := [name] + rest;
      assert w[..|w| - 1] == [name] + rest[..|rest| - 1];
      assert LoopWalk(g, w, name, trail);
    }
  }

  /** What a call means: it fails exactly on a loop, and otherwise lists exactly the proper descendants. */
  ghost predicate Means(g: Digraph<Name>, name: Name, trail: seq<Name>, r: Result<seq<Name>, Error>) {
    && (r.Err? <==> Loops(g, name, trail))
    && (r.Err? ==> r.error == Cycle)
    && (r.Ok? ==> forall y :: y in r.value <==> ReachesStrictly(g, name, y))
  }

  lemma {:induction false} DescendMeaning(children: seq<Item>, name: Name, trail: seq<Name>)
    requires name in Names(children)
    ensures Means(Down(children), name, trail, Descend(children, name, trail))
    decreases |Names(children) - Elements(trail)|, 0
  {
    var g := Down(children);
    if name in trail {
      assert LoopWalk(g, [name], name, trail);
    } else {
      FoundIsNext(children, name);
      TrailShrinks(children, name, trail);
      GatherMeaning(children, Found(children, name), trail + [name], []);
      LoopsStep(g, name, trail);
      forall y
        ensures ReachesStrictly(g, name, y) <==> exists c :: c in Next(g, name) && (c == y || ReachesStrictly(g, c, y))
      {
        StrictStep(g, name, y);
      }
    }
  }

  /** y is one of the names found or a proper descendant of one. */
  ghost predicate Below(g: Digraph<Name>, found: seq<Name>, y: Name) {
    exists c :: c in found && (c == y || ReachesStrictly(g, c, y))
  }

  lemma BelowCons(g: Digraph<Name>, first: Name, rest: seq<Name>, y: Name)
    ensures Below(g, [first] + rest, y) <==> first == y || ReachesStrictly(g, first, y) || Below(g, rest, y)
  {
    if first == y || ReachesStrictly(g, first, y) { assert first in [first] + rest; }
    if c :| c in rest && (c == y || ReachesStrictly(g, c, y)) { assert c in [first] + rest; }
  }

  ghost predicate SomeLoops(g: Digraph<Name>, found: seq<Name>, trail: seq<Name>) {
    exists c :: c in found && Loops(g, c, trail)
  }

  lemma SomeLoopsCons(g: Digraph<Name>, first: Name, rest: seq<Name>, trail: seq<Name>)
    ensures SomeLoops(g, [first] + rest, trail) <==> Loops(g, first, trail) || SomeLoops(g, rest, trail)
  {
    if Loops(g, first, trail) { assert first in [first] + rest; }
    if c :| c in rest && Loops(g, c, trail) { assert c in [first] + rest; }
  }

  /**
   * What the loop means: it fails exactly when a child loops, and otherwise adds exactly what lies below the
   * children.
   */
  ghost predicate Gathers(g: Digraph<Name>, found: seq<Name>, trail: seq<Name>, ordered: seq<Name>,
                          r: Result<seq<Name>, Error>)
  {
    && (r.Err? <==> SomeLoops(g, found, trail))
    && (r.Err? ==> r.error == Cycle)
    && (r.Ok? ==> forall y :: y in r.value <==> y in ordered || Below(g, found, y))
  }

  lemma AppendedBelow(g: Digraph<Name>, first: Name, ordered: seq<Name>, below: seq<Name>, y: Name)
    requires y in below <==> ReachesStrictly(g, first, y)
    ensures y in AppendNew(ordered + [first], below) <==> y in ordered || y == first || ReachesStrictly(g, first, y)
  {
    AppendNewFacts(ordered + [first], below);
    assert y in AppendNew(ordered + [first], below) <==> y in Elements(AppendNew(ordered + [first], below));
  }

  lemma {:induction false} GatherMeaning(children: seq<Item>, found: seq<Name>, trail: seq<Name>, ordered: seq<Name>)
    requires Elements(found) <= Names(children)
    ensures Gathers(Down(children), found, trail, ordered, Gather(children, found, trail, ordered))
    decreases |Names(children) - Elements(trail)|, |found|
  {
    hide Below, SomeLoops, Loops, ReachesStrictly, AppendNew;
    var g := Down(children);
    if found == [] {
      NothingFound(g, trail);
    } else {
      var first, rest := found[0], found[1..];
      assert first in Elements(found) && found == [first] + rest;
      DescendMeaning(children, first, trail);
      SomeLoopsCons(g, first, rest, trail);
      var below := Descend(children, first, trail);
      if below.Ok? {
        GatherMeaning(children, rest, trail, AppendNew(ordered + [first], below.value));
        forall y
          ensures y in AppendNew(ordered + [first], below.value) || Below(g, rest, y) <==>
                    y in ordered || Below(g, found, y)
        {
          AppendedBelow(g, first, ordered, below.value, y);
          BelowCons(g, first, rest, y);
        }
      }
    }
  }

  lemma NothingFound(g: Digraph<Name>, trail: seq<Name>)
    ensures !SomeLoops(g, [], trail) && forall y :: !Below(g, [], y)
  {
  }

  lemma NoLoopsMeansAcyclic(children: seq<Item>)
    ensures (forall x :: x in Names(children) ==> !Loops(Down(children), x, [])) <==> Acyclic(Down(children))
  {
    var g := Down(children);
    if x :| x in Names(children) && Loops(g, x, []) {
      var w :| LoopWalk(g, w, x, []);
      var i :| 0 <= i < |w| - 1 && w[i] == w[|w| - 1];
      SliceWalk(g, w, i, |w|);
      assert ReachesStrictly(g, w[i], w[i]);
    }
    if v :| ReachesStrictly(g, v, v) {
      var p :| WalkFromTo(g, p, v, v) && |p| > 1;
      assert p[0 + 1] in Next(g, p[0]);
      assert p[0] in p[..|p| - 1];
      assert LoopWalk(g, p, v, []);
      assert v in Names(children);
    }
  }

  // The hierarchy object.

  datatype Hierarchy = Hierarchy(children: seq<Item>, descendants: map<Name, seq<Name>>) {
    ghost predicate Valid() {
      && IsMapping(children)
      && descendants.Keys == Names(children)
      && Acyclic(Down(children))
      && forall x :: x in Names(children) ==> Descend(children, x, []) == Ok(descendants[x])
    }

    /** The name and its listed descendants; an unknown name only itself. */
    function Closure(name: Name): seq<Name> {
      [name] + (if name in descendants then descendants[name] else [])
    }

    /** As a set, the closure of x is exactly what x reaches by zero or more steps down. */
    lemma ClosureIsReach(x: Name, y: Name)
      requires Valid()
      ensures y in Closure(x) <==> Reaches(Down(children), x, y)
    {
      var g := Down(children);
      ReachesIsSelfOrStrict(g, x, y);
      if x in descendants {
        DescendMeaning(children, x, []);
      } else {
        StrictStep(g, x, y);
      }
    }

    /** Closure membership is a partial order. */
    lemma ClosureIsPartialOrder(x: Name, y: Name, z: Name)
      requires Valid()
      ensures x in Closure(x)
      ensures y in Closure(x) && z in Closure(y) ==> z in Closure(x)
      ensures y in Closure(x) && x in Closure(y) ==> x == y
    {
      var g := Down(children);
      ClosureIsReach(x, y);
      ClosureIsReach(y, z);
      ClosureIsReach(x, z);
      ClosureIsReach(y, x);
      ReachesSelf(g, x);
      if Reaches(g, x, y) && Reaches(g, y, z) { ReachesTransitive(g, x, y, z); }
      if Reaches(g, x, y) && Reaches(g, y, x) { AcyclicAntisymmetric(g, x, y); }
    }

    /** The loop of `expand` over already valid names. */
    function ExpandFrom(acc: seq<Name>, names: seq<Name>): seq<Name>
      decreases |names|
    {
      if names == [] then acc else ExpandFrom(AppendNew(acc, Closure(names[0])), names[1..])
    }

    function Expanded(names: seq<Name>): seq<Name> {
      ExpandFrom([], names)
    }

    ghost predicate InUnion(names: seq<Name>, y: Name) {
      exists x :: x in names && y in Closure(x)
    }

    lemma {:induction false} ExpandFromFacts(acc: seq<Name>, names: seq<Name>)
      requires Distinct(acc)
      ensures Distinct(ExpandFrom(acc, names))
      ensures forall y :: y in ExpandFrom(acc, names) <==> y in acc || InUnion(names, y)
      decreases |names|
    {
      if names != [] {
        var next := AppendNew(acc, Closure(names[0]));
        AppendNewFacts(acc, Closure(names[0]));
        ExpandFromFacts(next, names[1..]);
        assert names == [names[0]] + names[1..];
        forall y
          ensures y in next <==> y in acc || y in Closure(names[0])
        {
          assert y in next <==> y in Elements(next);
        }
        forall y ensures InUnion(names, y) <==> y in Closure(names[0]) || InUnion(names[1..], y) {}
      }
    }

    /** Expansion is duplicate-free and is the union of the closures. */
    lemma ExpandedFacts(names: seq<Name>)
      ensures Distinct(Expanded(names))
      ensures forall y :: y in Expanded(names) <==> InUnion(names, y)
    {
      ExpandFromFacts([], names);
    }

    function Closures(names: seq<Name>): seq<Name> {
      if names == [] then [] else Closure(names[0]) + Closures(names[1..])
    }

    lemma {:induction false} ExpandFromIsFirstSeen(acc: seq<Name>, names: seq<Name>)
      ensures ExpandFrom(acc, names) == AppendNew(acc, Closures(names))
      decreases |names|
    {
      if names != [] {
        AppendNewConcat(acc, Closure(names[0]), Closures(names[1..]));
        ExpandFromIsFirstSeen(AppendNew(acc, Closure(names[0])), names[1..]);
      }
    }

    /** Expansion lists the closures, one after the other, in first-seen order. */
    lemma ExpandedIsFirstSeen(names: seq<Name>)
      ensures Expanded(names) == FirstSeen(Closures(names))
    {
      ExpandFromIsFirstSeen([], names);
    }

    // Idempotence.

    ghost predicate Closed(acc: seq<Name>) {
      forall x, y :: x in acc && y in Closure(x) ==> y in acc
    }

    lemma {:induction false} AppendNewKnown(acc: seq<Name>, names: seq<Name>)
      requires Elements(names) <= Elements(acc)
      ensures AppendNew(acc, names) == acc
      decreases |names|
    {
      if names != [] {
        assert names[0] in Elements(names);
        assert Elements(names[1..]) <= Elements(names);
        AppendNewKnown(acc, names[1..]);
      }
    }

    lemma {:induction false} ExpandKnown(acc: seq<Name>, names: seq<Name>)
      requires Closed(acc) && Elements(names) <= Elements(acc)
      ensures ExpandFrom(acc, names) == acc
      decreases |names|
    {
      if names != [] {
        assert names[0] in Elements(names);
        forall y | y in Elements(Closure(names[0])) ensures y in Elements(acc) {}
        AppendNewKnown(acc, Closure(names[0]));
        assert Elements(names[1..]) <= Elements(names);
        ExpandKnown(acc, names[1..]);
      }
    }

    lemma {:induction false} ExpandConcat(acc: seq<Name>, a: seq<Name>, b: seq<Name>)
      ensures ExpandFrom(acc, a + b) == ExpandFrom(ExpandFrom(acc, a), b)
      decreases |a|
    {
      if a == [] {
        assert a + b == b;
      } else {
        assert (a + b)[1..] == a[1..] + b;
        ExpandConcat(AppendNew(acc, Closure(a[0])), a[1..], b);
      }
    }

    /** The names that AppendNew adds. */
    function Added(acc: seq<Name>, names: seq<Name>): seq<Name> {
      AppendNewFacts(acc, names);
      AppendNew(acc, names)[|acc|..]
    }

    lemma AddedStartsFresh(acc: seq<Name>, names: seq<Name>)
      requires names != [] && names[0] !in acc
      ensures Added(acc, names) != [] && Added(acc, names)[0] == names[0]
    {
      AppendNewFacts(acc, names);
      AppendNewFacts(acc + [names[0]], names[1..]);
      assert AppendNew(acc, names)[|acc|] == (acc + [names[0]])[|acc|];
    }

    /** Expanding one more name: its new members, re-expanded, add nothing. */
    lemma ExpandOne(acc: seq<Name>, x: Name)
      requires Valid() && Closed(acc)
      ensures Closed(AppendNew(acc, Closure(x)))
      ensures exists added :: AppendNew(acc, Closure(x)) == acc + added && ExpandFrom(acc, added) == acc + added
    {
      var next := AppendNew(acc, Closure(x));
      AppendNewFacts(acc, Closure(x));
      forall u, v | u in next && v in Closure(u) ensures v in next {
        assert u in Elements(next);
        if u in acc {
          assert v in Elements(acc);
        } else {
          assert u in Closure(x);
          ClosureIsPartialOrder(x, u, v);
          assert v in Elements(Closure(x));
        }
        assert v in Elements(next);
      }
      var added := Added(acc, Closure(x));
      assert next == acc + added;
      if x in acc {
        forall y | y in Elements(Closure(x)) ensures y in Elements(acc) {}
        AppendNewKnown(acc, Closure(x));
        assert added == [];
      } else {
        AddedStartsFresh(acc, Closure(x));
        assert added == [x] + added[1..];
        forall y | y in added[1..] ensures y in next { assert y in added; }
        ExpandKnown(next, added[1..]);
        assert ExpandFrom(acc, added) == ExpandFrom(next, added[1..]);
      }
    }

    lemma {:induction false} ExpandAgain(names: seq<Name>)
      requires Valid()
      ensures Closed(Expanded(names)) && Expanded(Expanded(names)) == Expanded(names)
      decreases |names|
    {
      if names != [] {
        var init, x := names[..|names| - 1], names[|names| - 1];
        ExpandAgain(init);
        assert names == init + [x];
        ExpandConcat([], init, [x]);
        var acc := Expanded(init);
        assert Expanded(names) == AppendNew(acc, Closure(x));
        ExpandOne(acc, x);
        var added :| AppendNew(acc, Closure(x)) == acc + added && ExpandFrom(acc, added) == acc + added;
        ExpandConcat([], acc, added);
      }
    }
  }

  // The order of a closure.

  /** Where both succeed, the trail does not matter. */
  lemma {:induction false} TrailForgotten(children: seq<Item>, name: Name, trail: seq<Name>, other: seq<Name>)
    requires name in Names(children) && Descend(children, name, trail).Ok? && Descend(children, name, other).Ok?
    ensures Descend(children, name, trail) == Descend(children, name, other)
    decreases |Names(children) - Elements(trail)|, 0
  {
    FoundIsNext(children, name);
    TrailShrinks(children, name, trail);
    GatherForgets(children, Found(children, name), trail + [name], other + [name], []);
  }

  lemma {:induction false} GatherForgets(children: seq<Item>, found: seq<Name>, trail: seq<Name>, other: seq<Name>,
                                         ordered: seq<Name>)
    requires Elements(found) <= Names(children)
    requires Gather(children, found, trail, ordered).Ok? && Gather(children, found, other, ordered).Ok?
    ensures Gather(children, found, trail, ordered) == Gather(children, found, other, ordered)
    decreases |Names(children) - Elements(trail)|, |found|
  {
    if found != [] {
      assert found[0] in Elements(found) && found == [found[0]] + found[1..];
      TrailForgotten(children, found[0], trail, other);
      var below := Descend(children, found[0], trail).value;
      GatherForgets(children, found[1..], trail, other, AppendNew(ordered + [found[0]], below));
    }
  }

  lemma {:induction false} FirstSeenOfAppended(a: seq<Name>, b: seq<Name>)
    ensures FirstSeen(AppendNew(a, b)) == AppendNew(FirstSeen(a), b)
    decreases |b|
  {
    if b != [] {
      AppendNewFacts([], a);
      assert b[0] in a <==> b[0] in FirstSeen(a) by { assert b[0] in Elements(a) <==> b[0] in Elements(FirstSeen(a)); }
      AppendNewConcat([], a, [b[0]]);
      FirstSeenOfAppended(if b[0] in a then a else a + [b[0]], b[1..]);
    }
  }

  lemma GatherStepInOrder(h: Hierarchy, first: Name, ordered: seq<Name>)
    requires first in h.descendants
    ensures FirstSeen(AppendNew(ordered + [first], h.descendants[first])) ==
            AppendNew(FirstSeen(ordered), h.Closure(first))
  {
    FirstSeenOfAppended(ordered + [first], h.descendants[first]);
    AppendNewConcat([], ordered, [first]);
    AppendNewConcat(FirstSeen(ordered), [first], h.descendants[first]);
  }

  lemma {:induction false} GatherInOrder(h: Hierarchy, found: seq<Name>, trail: seq<Name>, ordered: seq<Name>)
    requires h.Valid() && Elements(found) <= Names(h.children) && Gather(h.children, found, trail, ordered).Ok?
    ensures FirstSeen(Gather(h.children, found, trail, ordered).value) == h.ExpandFrom(FirstSeen(ordered), found)
    decreases |found|
  {
    if found != [] {
      var first := found[0];
      assert first in Elements(found) && found == [first] + found[1..];
      TrailForgotten(h.children, first, trail, []);
      GatherStepInOrder(h, first, ordered);
      GatherInOrder(h, found[1..], trail, AppendNew(ordered + [first], h.descendants[first]));
    }
  }

  /** First-seen, what lies below a name is the expansion of its children in entry order. */
  lemma DescendantsInOrder(h: Hierarchy, x: Name)
    requires h.Valid() && x in h.descendants
    ensures FirstSeen(h.descendants[x]) == h.Expanded(Found(h.children, x))
  {
    FoundIsNext(h.children, x);
    assert [] + [x] == [x];
    assert Descend(h.children, x, []) == Gather(h.children, Found(h.children, x), [x], []);
    GatherInOrder(h, Found(h.children, x), [x], []);
  }

  // Repetitions in a closure.

  /** Gathering repeats a name exactly when a child was listed already or an earlier sibling reaches a later one. */
  lemma {:induction false} GatherRepeats(children: seq<Item>, found: seq<Name>, trail: seq<Name>, ordered: seq<Name>)
    requires Elements(found) <= Names(children) && Distinct(found) && Gather(children, found, trail, ordered).Ok?
    ensures Distinct(Gather(children, found, trail, ordered).value) <==>
            Distinct(ordered) && (forall c :: c in found ==> c !in ordered) &&
            (forall i, j :: 0 <= i < j < |found| ==> !Reaches(Down(children), found[i], found[j]))
    decreases |found|
  {
    var g := Down(children);
    if found != [] {
      var first, rest := found[0], found[1..];
      assert first in Elements(found) && found == [first] + rest;
      var below := Descend(children, first, trail).value;
      var next := AppendNew(ordered + [first], below);
      DescendMeaning(children, first, trail);
      AppendNewFacts(ordered + [first], below);
      GatherRepeats(children, rest, trail, next);
      assert Distinct(next) <==> Distinct(ordered) && first !in ordered by { DistinctSnoc(ordered, first); }
      forall c | c in rest ensures c in next <==> c in ordered || Reaches(g, first, c) {
        assert c in next <==> c in Elements(next);
        ReachesIsSelfOrStrict(g, first, c);
        assert c != first;
      }
    }
  }

  lemma DistinctSnoc(s: seq<Name>, x: Name)
    ensures Distinct(s + [x]) <==> Distinct(s) && x !in s
  {
    if Distinct(s + [x]) {
      assert forall i :: 0 <= i < |s| ==> (s + [x])[i] == s[i] && (s + [x])[i] != (s + [x])[|s|];
    }
  }

  /** A closure is free of repetitions exactly when no child of the name lies below an earlier child of it. */
  lemma ClosureRepeatsExactlyWhen(h: Hierarchy, x: Name)
    requires h.Valid()
    ensures Distinct(h.Closure(x)) <==>
            (forall i, j :: 0 <= i < j < |Found(h.children, x)| ==>
               !Reaches(Down(h.children), Found(h.children, x)[i], Found(h.children, x)[j]))
  {
    var found := Found(h.children, x);
    FoundIndices(h.children, x);
    FoundIsNext(h.children, x);
    if x in h.descendants {
      assert [] + [x] == [x];
      assert Descend(h.children, x, []) == Gather(h.children, found, [x], []);
      GatherRepeats(h.children, found, [x], []);
      DescendMeaning(h.children, x, []);
      assert x !in h.descendants[x];
      DistinctCons(x, h.descendants[x]);
    } else {
      assert x !in Down(h.children);
      assert Elements(found) == {};
      DistinctCard(found);
    }
  }

  lemma DistinctCons(x: Name, s: seq<Name>)
    requires x !in s
    ensures Distinct([x] + s) <==> Distinct(s)
  {
    var all := [x] + s;
    if Distinct(all) {
      forall i, j | 0 <= i < j < |s| ensures s[i] != s[j] { assert all[i + 1] != all[j + 1]; }
    }
  }

  // The methods.

  method CheckItems(items: seq<Item>) returns (r: Result<seq<Item>, Error>)
    ensures r.Ok? <==> AllClean(items)
    ensures r.Ok? ==> r.value == Kept(items)
    ensures r.Err? ==> exists i :: 0 <= i < |items| && CheckItem(items[i]) == Err(r.error) && AllClean(items[..i])
  {
    var children: seq<Item> := [];
    for n := 0 to |items|
      invariant forall i :: 0 <= i < n ==> Clean(items[i])
      invariant |children| == n && forall i :: 0 <= i < n ==> children[i] == CheckItem(items[i]).value
    {
      var item := items[n];
      if item.child.text == "" || Name("") in item.parents {
        return Err(EmptyName);
      }
      if item.child in item.parents {
        return Err(SelfParent);
      }
      children := children + [Item(item.child, FirstSeen(item.parents))];
    }
    assert children == Kept(items);
    return Ok(children);
  }

  method AllNames(children: seq<Item>) returns (seen: seq<Name>)
    ensures Distinct(seen) && Elements(seen) == Names(children)
  {
    seen := [];
    for n := 0 to |children|
      invariant Distinct(seen) && Elements(seen) == Names(children[..n])
    {
      ghost var before := seen;
      AppendNewFacts(seen, [children[n].child] + children[n].parents);
      seen := AppendNew(seen, [children[n].child] + children[n].parents);
      NamesSnoc(children, n);
    }
    assert children[..|children|] == children;
  }

  lemma NamesSnoc(children: seq<Item>, n: nat)
    requires n < |children|
    ensures Names(children[..n + 1]) == Names(children[..n]) + Elements([children[n].child] + children[n].parents)
  {
    var a, b := children[..n], children[..n + 1];
    assert forall i :: 0 <= i < n ==> a[i] == b[i];
    assert b[n] == children[n];
    forall x | x in Names(a) ensures x in Names(b) {
      if i :| 0 <= i < n && (a[i].child == x || x in a[i].parents) { assert b[i] == a[i]; }
    }
  }

  method ComputeDescendants(children: seq<Item>, name: Name, trail: seq<Name>) returns (r: Result<seq<Name>, Error>)
    requires name in Names(children)
    ensures r == Descend(children, name, trail)
    decreases |Names(children) - Elements(trail)|
  {
    if name in trail {
      return Err(Cycle);
    }
    TrailShrinks(children, name, trail);
    FoundIsNext(children, name);
    var found: seq<Name> := [];
    for n := 0 to |children|
      invariant found == Found(children[..n], name)
    {
      assert children[..n + 1][..n] == children[..n];
      if name in children[n].parents {
        found := found + [children[n].child];
      }
    }
    assert children[..|children|] == children;
    var ordered: seq<Name> := [];
    for n := 0 to |found|
      invariant Gather(children, found[n..], trail + [name], ordered) == Gather(children, found, trail + [name], [])
    {
      assert found[n] in Elements(found) && found[n..][1..] == found[n + 1..]
             && Elements(found[n..]) <= Elements(found);
      var below := ComputeDescendants(children, found[n], trail + [name]);
      if below.Err? {
        return below;
      }
      ordered := AppendNew(ordered + [found[n]], below.value);
    }
    return Ok(ordered);
  }

  /** The loop of `__init__` over all names. */
  method ComputeAll(children: seq<Item>, names: seq<Name>) returns (r: Result<map<Name, seq<Name>>, Error>)
    requires Elements(names) <= Names(children)
    ensures r.Ok? ==>
              r.value.Keys == Elements(names) && forall x :: x in r.value ==> Descend(children, x, []) == Ok(r.value[x])
    ensures r.Err? ==> exists x :: x in names && Descend(children, x, []) == Err(r.error)
  {
    var descendants: map<Name, seq<Name>> := map[];
    for n := 0 to |names|
      invariant descendants.Keys == Elements(names[..n])
      invariant forall x :: x in descendants ==> x in Names(children) && Descend(children, x, []) == Ok(descendants[x])
    {
      assert names[n] in Elements(names);
      var below := ComputeDescendants(children, names[n], []);
      if below.Err? {
        return Err(below.error);
      }
      descendants := descendants[names[n] := below.value];
      assert names[..n + 1] == names[..n] + [names[n]];
    }
    assert names[..|names|] == names;
    return Ok(descendants);
  }

  /** All descents succeed exactly when the relation is acyclic, and a failure is always a cycle. */
  lemma DescentsSucceedIffAcyclic(children: seq<Item>)
    ensures Acyclic(Down(children)) <==> forall x :: x in Names(children) ==> Descend(children, x, []).Ok?
    ensures forall x :: x in Names(children) && Descend(children, x, []).Err? ==>
              Descend(children, x, []).error == Cycle
  {
    NoLoopsMeansAcyclic(children);
    forall x | x in Names(children) ensures Means(Down(children), x, [], Descend(children, x, [])) {
      DescendMeaning(children, x, []);
    }
  }

  /** The parents kept for an entry: those given, each once, in the order in which they were first seen. */
  ghost predicate KeepsParents(given: seq<Name>, kept: seq<Name>) {
    && Distinct(kept) && Elements(kept) == Elements(given)
    && forall k :: 0 <= k < |kept| ==> SeenBeforeLater(given, kept, k)
  }

  /** An entry the constructor refuses, with the error it raises for it. */
  predicate Refuses(item: Item, error: Error) {
    if item.child.text == "" || (exists p :: p in item.parents && p.text == "") then error == EmptyName
    else item.child in item.parents && error == SelfParent
  }

  lemma CheckMeaning(item: Item)
    ensures forall error :: CheckItem(item) == Err(error) <==> Refuses(item, error)
    ensures CheckItem(item).Ok? ==>
              CheckItem(item).value.child == item.child && KeepsParents(item.parents, CheckItem(item).value.parents)
  {
    if p :| p in item.parents && p.text == "" { assert p == Name(""); }
    AppendNewFacts([], item.parents);
    forall k: nat | k < |FirstSeen(item.parents)| ensures SeenBeforeLater(item.parents, FirstSeen(item.parents), k) {
      FirstSeenInOrder(item.parents, k);
    }
  }

  lemma SameRelation(items: seq<Item>, children: seq<Item>)
    requires |children| == |items|
    requires forall i :: 0 <= i < |items| ==>
               children[i].child == items[i].child && Elements(children[i].parents) == Elements(items[i].parents)
    ensures Down(children) == Down(items)
  {
    forall i, p | 0 <= i < |items| ensures p in children[i].parents <==> p in items[i].parents {
      assert p in Elements(children[i].parents) <==> p in Elements(items[i].parents);
    }
    assert Names(children) == Names(items);
    forall p | p in Names(items) ensures Down(children)[p] == Down(items)[p] {
      assert forall i :: ChildOf(children, i, p) <==> ChildOf(items, i, p);
    }
  }

  /** What the checks say of the entries given, without the checks. */
  lemma GivenMeaning(items: seq<Item>)
    ensures AllClean(items) <==>
              forall i :: 0 <= i < |items| ==>
                items[i].child.text != "" && items[i].child !in items[i].parents && Name("") !in items[i].parents
    ensures AllClean(items) ==> forall i, error :: 0 <= i < |items| ==> !Refuses(items[i], error)
    ensures AllClean(items) ==> |Kept(items)| == |items| && Down(Kept(items)) == Down(items)
    ensures AllClean(items) ==> forall i :: 0 <= i < |items| ==>
              Kept(items)[i].child == items[i].child && KeepsParents(items[i].parents, Kept(items)[i].parents)
  {
    forall i | 0 <= i < |items|
      ensures forall error :: CheckItem(items[i]) == Err(error) <==> Refuses(items[i], error)
      ensures Clean(items[i]) ==>
                && CheckItem(items[i]).value.child == items[i].child
                && KeepsParents(items[i].parents, CheckItem(items[i]).value.parents)
    {
      CheckMeaning(items[i]);
    }
    if AllClean(items) {
      assert forall i :: 0 <= i < |items| ==> Clean(items[i]);
      SameRelation(items, Kept(items));
    }
  }

  lemma FirstRefused(items: seq<Item>, error: Error)
    requires exists i :: 0 <= i < |items| && CheckItem(items[i]) == Err(error) && AllClean(items[..i])
    ensures error != Cycle && !AllClean(items)
    ensures exists i :: 0 <= i < |items| && Refuses(items[i], error)
                        && forall j, other :: 0 <= j < i ==> !Refuses(items[j], other)
  {
    var i :| 0 <= i < |items| && CheckItem(items[i]) == Err(error) && AllClean(items[..i]);
    CheckMeaning(items[i]);
    GivenMeaning(items[..i]);
    assert !Clean(items[i]);
    forall j, other | 0 <= j < i ensures !Refuses(items[j], other) { assert items[..i][j] == items[j]; }
  }

  lemma ClosuresAreGiven(h: Hierarchy, items: seq<Item>)
    requires h.Valid() && Down(h.children) == Down(items)
    ensures forall x, y :: y in h.Closure(x) <==> Reaches(Down(items), x, y)
  {
    forall x, y ensures y in h.Closure(x) <==> Reaches(Down(items), x, y) { h.ClosureIsReach(x, y); }
  }

  lemma GivenEdges(items: seq<Item>)
    ensures forall p, c :: c in Next(Down(items), p) <==>
              exists i :: 0 <= i < |items| && items[i].child == c && p in items[i].parents
  {
    forall p, c ensures c in Next(Down(items), p) <==>
                        exists i :: 0 <= i < |items| && items[i].child == c && p in items[i].parents
    {
      DownIsParents(items, p, c);
    }
  }

  /**
   * Construction refuses the first entry with an empty name or that parents itself, then any cycle of the relation
   * given. Otherwise the hierarchy has the given entries with their parents listed once each, and its closures are
   * reachability in that relation.
   */
  method Construct(items: seq<Item>) returns (r: Result<Hierarchy, Error>)
    requires IsMapping(items)
    ensures forall p, c :: c in Next(Down(items), p) <==>
              exists i :: 0 <= i < |items| && items[i].child == c && p in items[i].parents
    ensures r.Ok? <==>
              && (forall i :: 0 <= i < |items| ==>
                    items[i].child.text != "" && items[i].child !in items[i].parents && Name("") !in items[i].parents)
              && Acyclic(Down(items))
    ensures r.Err? && r.error != Cycle ==>
              exists i :: 0 <= i < |items| && Refuses(items[i], r.error)
                          && forall j, error :: 0 <= j < i ==> !Refuses(items[j], error)
    ensures r == Err(Cycle) ==> forall i, error :: 0 <= i < |items| ==> !Refuses(items[i], error)
    ensures r.Ok? ==> |r.value.children| == |items| && r.value.Valid() && Down(r.value.children) == Down(items)
    ensures r.Ok? ==> forall i :: 0 <= i < |items| ==>
              r.value.children[i].child == items[i].child && KeepsParents(items[i].parents, r.value.children[i].parents)
    ensures r.Ok? ==> forall x, y :: y in r.value.Closure(x) <==> Reaches(Down(items), x, y)
  {
    GivenEdges(items);
    GivenMeaning(items);
    hide KeepsParents, Refuses, Down, Names, Acyclic, Next;
    var checked := CheckItems(items);
    if checked.Err? {
      FirstRefused(items, checked.error);
      return Err(checked.error);
    }
    var children := checked.value;
    assert IsMapping(children);
    DescentsSucceedIffAcyclic(children);
    var names := AllNames(children);
    var computed := ComputeAll(children, names);
    if computed.Err? {
      ghost var x :| x in names && Descend(children, x, []) == Err(computed.error);
      assert x in Elements(names);
      return Err(computed.error);
    }
    var h := Hierarchy(children, computed.value);
    ClosuresAreGiven(h, items);
    return Ok(h);
  }

  /** `expand`: an empty query name is an error; otherwise the first-seen union of the closures. */
  method Expand(h: Hierarchy, names: seq<Name>) returns (r: Result<seq<Name>, Error>)
    ensures r == if Name("") in names then Err(EmptyName) else Ok(h.Expanded(names))
  {
    var expanded: seq<Name> := [];
    for n := 0 to |names|
      invariant Name("") !in names[..n]
      invariant h.ExpandFrom(expanded, names[n..]) == h.Expanded(names)
    {
      if names[n].text == "" {
        assert names[n] == Name("");
        return Err(EmptyName);
      }
      assert names[..n + 1] == names[..n] + [names[n]] && names[n..][1..] == names[n + 1..];
      var closure := h.Closure(names[n]);
      ghost var start := expanded;
      for m := 0 to |closure|
        invariant AppendNew(expanded, closure[m..]) == AppendNew(start, closure)
      {
        assert closure[m..][1..] == closure[m + 1..];
        if closure[m] !in expanded {
          expanded := expanded + [closure[m]];
        }
      }
    }
    assert names[..|names|] == names;
    return Ok(expanded);
  }

  /** With B below A and C below both, the closure of A lists C twice, although expanding A does not. */
  lemma ClosureMayRepeat(h: Hierarchy, a: Name, b: Name, c: Name)
    requires h.Valid() && a != b && b != c && a != c
    requires h.children == [Item(b, [a]), Item(c, [a, b])]
    ensures !Distinct(h.Closure(a)) && Distinct(h.Expanded([a]))
  {
    var items := h.children;
    h.ExpandedFacts([a]);
    ClosureRepeatsExactlyWhen(h, a);
    FoundOfTwo(items[0], items[1], a);
    var g := Down(items);
    assert Found(items, a) == [b, c];
    assert ChildOf(items, 1, b) && items[1].child == c;
    assert b in Names(items) by { assert items[0].child == b; }
    assert WalkFromTo(g, [b, c], b, c);
  }

  lemma FoundOfTwo(first: Item, second: Item, name: Name)
    ensures Found([first, second], name) ==
            (if name in first.parents then [first.child] else []) +
            (if name in second.parents then [second.child] else [])
  {
    assert [first, second][..1] == [first] && [first][..0] == [];
    assert Found([first], name) == if name in first.parents then [first.child] else [];
  }
}
