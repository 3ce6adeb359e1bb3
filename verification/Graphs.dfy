/** Finite directed graphs as successor maps, and walks in them. */
module Graphs {
  type Digraph<N> = map<N, set<N>>

  function Next<N>(g: Digraph<N>, v: N): set<N> {
    if v in g then g[v] else {}
  }

  ghost predicate Walk<N>(g: Digraph<N>, p: seq<N>) {
    |p| > 0 && forall i :: 0 <= i < |p| - 1 ==> p[i + 1] in Next(g, p[i])
  }

  /** A walk of |p| - 1 steps from s to t. */
  ghost predicate WalkFromTo<N>(g: Digraph<N>, p: seq<N>, s: N, t: N) {
    Walk(g, p) && p[0] == s && p[|p| - 1] == t
  }

  ghost predicate Reaches<N(!new)>(g: Digraph<N>, s: N, t: N) {
    exists p: seq<N> :: WalkFromTo(g, p, s, t)
  }

  ghost predicate ReachesIn<N(!new)>(g: Digraph<N>, s: N, t: N, steps: nat) {
    exists p: seq<N> :: WalkFromTo(g, p, s, t) && |p| == steps + 1
  }

  /** The shortest distance from s to t exists and is at most d. */
  ghost predicate Within<N(!new)>(g: Digraph<N>, s: N, t: N, d: nat) {
    exists k: nat :: k <= d && ReachesIn(g, s, t, k)
  }

  ghost predicate ReachesStrictly<N(!new)>(g: Digraph<N>, s: N, t: N) {
    exists p: seq<N> :: WalkFromTo(g, p, s, t) && |p| > 1
  }

  ghost predicate Acyclic<N(!new)>(g: Digraph<N>) {
    forall v: N :: !ReachesStrictly(g, v, v)
  }

  function Vertices<N>(g: Digraph<N>): set<N> {
    g.Keys + (set v, w | v in g && w in g[v] :: w)
  }

  lemma NextInVertices<N>(g: Digraph<N>, v: N)
    ensures Next(g, v) <= Vertices(g)
  {
    forall w | w in Next(g, v) ensures w in Vertices(g) {
      assert v in g && w in g[v];
    }
  }

  lemma ExtendWalk<N>(g: Digraph<N>, p: seq<N>, s: N, t: N, w: N)
    requires WalkFromTo(g, p, s, t) && w in Next(g, t)
    ensures WalkFromTo(g, p + [w], s, w)
  {
  }

  lemma PrependWalk<N>(g: Digraph<N>, v: N, p: seq<N>, s: N, t: N)
    requires WalkFromTo(g, p, s, t) && s in Next(g, v)
    ensures WalkFromTo(g, [v] + p, v, t)
  {
    var q := [v] + p;
    forall i | 0 <= i < |q| - 1 ensures q[i + 1] in Next(g, q[i]) {
      if i > 0 { assert q[i] == p[i - 1] && q[i + 1] == p[i]; }
    }
  }

  lemma SliceWalk<N>(g: Digraph<N>, p: seq<N>, i: nat, j: nat)
    requires Walk(g, p) && i < j <= |p|
    ensures WalkFromTo(g, p[i..j], p[i], p[j - 1])
  {
  }

  lemma JoinWalks<N>(g: Digraph<N>, p: seq<N>, q: seq<N>, s: N, t: N, u: N)
    requires WalkFromTo(g, p, s, t) && WalkFromTo(g, q, t, u)
    ensures WalkFromTo(g, p + q[1..], s, u)
  {
    var r := p + q[1..];
    forall i | 0 <= i < |r| - 1 ensures r[i + 1] in Next(g, r[i]) {
      if i >= |p| - 1 {
        assert r[i + 1] == q[i + 2 - |p|] && r[i] == q[i + 1 - |p|];
      }
    }
  }

  /** Walks never leave the start together with the vertices of the graph. */
  lemma WalkEndsInside<N>(g: Digraph<N>, p: seq<N>, s: N, t: N)
    requires WalkFromTo(g, p, s, t)
    ensures t == s || t in Vertices(g)
  {
    if |p| > 1 {
      NextInVertices(g, p[|p| - 2]);
      assert p[|p| - 2 + 1] in Next(g, p[|p| - 2]);
    }
  }

  lemma ReachesSelf<N(!new)>(g: Digraph<N>, v: N)
    ensures ReachesIn(g, v, v, 0) && Reaches(g, v, v)
  {
    assert WalkFromTo(g, [v], v, v);
  }

  /** The last step of a walk: reach in k + 1 steps means reach some u in k steps and step from it. */
  lemma LastStep<N(!new)>(g: Digraph<N>, s: N, t: N, k: nat)
    ensures ReachesIn(g, s, t, k + 1) <==> exists u :: ReachesIn(g, s, u, k) && t in Next(g, u)
  {
    if ReachesIn(g, s, t, k + 1) {
      var p :| WalkFromTo(g, p, s, t) && |p| == k + 2;
      SliceWalk(g, p, 0, k + 1);
      assert p[k + 1] in Next(g, p[k]);
      assert ReachesIn(g, s, p[k], k);
    }
    if u :| ReachesIn(g, s, u, k) && t in Next(g, u) {
      var p :| WalkFromTo(g, p, s, u) && |p| == k + 1;
      ExtendWalk(g, p, s, u, t);
    }
  }

  lemma ZeroSteps<N(!new)>(g: Digraph<N>, s: N, t: N)
    ensures ReachesIn(g, s, t, 0) <==> s == t
  {
    if s == t { ReachesSelf(g, s); }
  }

  lemma ReachesTransitive<N(!new)>(g: Digraph<N>, s: N, t: N, u: N)
    requires Reaches(g, s, t) && Reaches(g, t, u)
    ensures Reaches(g, s, u)
  {
    var p :| WalkFromTo(g, p, s, t);
    var q :| WalkFromTo(g, q, t, u);
    JoinWalks(g, p, q, s, t, u);
  }

  lemma ReachesIsSelfOrStrict<N(!new)>(g: Digraph<N>, x: N, y: N)
    ensures Reaches(g, x, y) <==> x == y || ReachesStrictly(g, x, y)
  {
    ReachesSelf(g, x);
    if p :| WalkFromTo(g, p, x, y) && |p| == 1 { assert x == y; }
  }

  lemma AcyclicAntisymmetric<N(!new)>(g: Digraph<N>, s: N, t: N)
    requires Acyclic(g) && Reaches(g, s, t) && Reaches(g, t, s)
    ensures s == t
  {
    var p :| WalkFromTo(g, p, s, t);
    var q :| WalkFromTo(g, q, t, s);
    JoinWalks(g, p, q, s, t, s);
    var w := p + q[1..];
    assert |w| > 1 ==> ReachesStrictly(g, s, s);
  }

  /** The first step of a walk of at least one step. */
  lemma StrictStep<N(!new)>(g: Digraph<N>, v: N, y: N)
    ensures ReachesStrictly(g, v, y) <==> exists c :: c in Next(g, v) && (c == y || ReachesStrictly(g, c, y))
  {
    if p :| WalkFromTo(g, p, v, y) && |p| > 1 {
      assert p[0 + 1] in Next(g, p[0]);
      if |p| > 2 { SliceWalk(g, p, 1, |p|); }
    }
    if c :| c in Next(g, v) && (c == y || ReachesStrictly(g, c, y)) {
      if c == y {
        PrependWalk(g, v, [c], c, c);
      } else {
        var p :| WalkFromTo(g, p, c, y) && |p| > 1;
        PrependWalk(g, v, p, c, y);
      }
    }
  }
}
