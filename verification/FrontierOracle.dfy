/** The fixture and the analytic closure of benchmarks/reasoning_frontier_pipeline.py. */
module FrontierOracle {
  import opened Common
  import opened Datalog

  /** Identifiers of the fixture: entity(i), group{g}-{offset} and the two relation names. */
  datatype Term = Entity(i: nat) | Group(g: nat, offset: nat) | Edge | Reach

  datatype Shape = Selective | Sparse | Dense

  /** reach(x, y) :- edge(x, y).  reach(x, z) :- reach(x, y), edge(y, z). */
  function Program(): seq<Rule<Term>> {
    [Copy(Edge, Reach), Compose(Reach, Edge, Reach)]
  }

  function Chain(rows: int, shape: Shape): int {
    Min(rows, if shape == Dense then 128 else 8)
  }

  /** The i-th generated triple. */
  function Triple(rows: int, shape: Shape, i: nat): Fact<Term>
    requires i < rows
  {
    var chain := Chain(rows, shape);
    if i < chain then Fact(Entity(i), Edge, Entity(i + 1))
    else if shape == Sparse then
      var (group, offset) := ((i - chain) / 3, (i - chain) % 3);
      Fact(Group(group, offset), Edge, Group(group, offset + 1))
    else Fact(Entity(2 * i + 1000), Edge, Entity(2 * i + 1001))
  }

  function Triples(rows: int, shape: Shape): seq<Fact<Term>> {
    seq(Max(rows, 0), i requires 0 <= i < rows => Triple(rows, shape, i))
  }

  /** Triples i and j lie on one path: the chain, one group of three, or the same isolated edge. */
  predicate SameRun(rows: int, shape: Shape, i: nat, j: nat) {
    var chain := Chain(rows, shape);
    if i < chain || j < chain then i < chain && j < chain
    else if shape == Sparse then (i - chain) / 3 == (j - chain) / 3
    else i == j
  }

  /** Triples i and j in this order on one path, so that the start of i reaches the end of j. */
  predicate Connected(rows: int, shape: Shape, i: nat, j: nat) {
    i <= j < rows && SameRun(rows, shape, i, j)
  }

  ghost predicate Ends(rows: int, shape: Shape, fact: Fact<Term>, i: nat, j: nat) {
    Connected(rows, shape, i, j) && fact == Fact(Triple(rows, shape, i).s, Reach, Triple(rows, shape, j).o)
  }

  ghost predicate ReachFact(rows: int, shape: Shape, fact: Fact<Term>) {
    exists i: nat, j: nat :: Ends(rows, shape, fact, i, j)
  }

  ghost predicate InClosure(rows: int, shape: Shape, fact: Fact<Term>) {
    fact in Triples(rows, shape) || ReachFact(rows, shape, fact)
  }

  lemma InTriples(rows: int, shape: Shape, fact: Fact<Term>)
    ensures fact in Triples(rows, shape) <==> exists i: nat :: i < rows && fact == Triple(rows, shape, i)
  {
    if i: nat :| i < rows && fact == Triple(rows, shape, i) {
      assert Triples(rows, shape)[i] == fact;
    }
  }

  /** An edge continues another only at the next position of the same path. */
  lemma Joins(rows: int, shape: Shape, j: nat, k: nat)
    requires j < rows && k < rows
    ensures Triple(rows, shape, j).o == Triple(rows, shape, k).s <==> k == j + 1 && SameRun(rows, shape, j, k)
  {
  }

  /** What the copy rule gives. */
  lemma EdgeReaches(rows: int, shape: Shape, x: Term, y: Term)
    requires InClosure(rows, shape, Fact(x, Edge, y))
    ensures InClosure(rows, shape, Fact(x, Reach, y))
  {
    InTriples(rows, shape, Fact(x, Edge, y));
    var i: nat :| i < rows && Fact(x, Edge, y) == Triple(rows, shape, i);
    assert Ends(rows, shape, Fact(x, Reach, y), i, i);
  }

  /** What the composition rule gives. */
  lemma EdgeExtends(rows: int, shape: Shape, x: Term, y: Term, z: Term)
    requires InClosure(rows, shape, Fact(x, Reach, y)) && InClosure(rows, shape, Fact(y, Edge, z))
    ensures InClosure(rows, shape, Fact(x, Reach, z))
  {
    InTriples(rows, shape, Fact(x, Reach, y));
    InTriples(rows, shape, Fact(y, Edge, z));
    var i: nat, j: nat :| Ends(rows, shape, Fact(x, Reach, y), i, j);
    var k: nat :| k < rows && Fact(y, Edge, z) == Triple(rows, shape, k);
    Joins(rows, shape, j, k);
    assert Ends(rows, shape, Fact(x, Reach, z), i, k);
  }

  lemma ClosureObeys(rows: int, shape: Shape, m: set<Fact<Term>>)
    requires forall fact :: fact in m <==> InClosure(rows, shape, fact)
    ensures Model(Program(), Triples(rows, shape), m)
  {
    forall x, y | Fact(x, Edge, y) in m ensures Fact(x, Reach, y) in m {
      EdgeReaches(rows, shape, x, y);
    }
    forall x, y, z | Fact(x, Reach, y) in m && Fact(y, Edge, z) in m ensures Fact(x, Reach, z) in m {
      EdgeExtends(rows, shape, x, y, z);
    }
    hide ReachFact, Triples;
  }

  lemma {:induction false} ReachIsForced(rows: int, shape: Shape, i: nat, j: nat, k: set<Fact<Term>>)
    requires Connected(rows, shape, i, j) && Model(Program(), Triples(rows, shape), k)
    ensures Fact(Triple(rows, shape, i).s, Reach, Triple(rows, shape, j).o) in k
    decreases j
  {
    var first, last := Triple(rows, shape, i), Triple(rows, shape, j);
    assert Triples(rows, shape)[j] == last;
    assert Obeys(Program()[0], k) && Obeys(Program()[1], k);
    assert Fact(last.s, Edge, last.o) == last && last in k;
    if i < j {
      var middle := Triple(rows, shape, j - 1).o;
      assert Connected(rows, shape, i, j - 1);
      ReachIsForced(rows, shape, i, j - 1, k);
      Joins(rows, shape, j - 1, j);
      assert Fact(first.s, Reach, middle) in k && Fact(middle, Edge, last.o) in k;
    }
  }

  /** The facts of the closure, and no others, are derived from the fixture by the program. */
  lemma ClosureIsLeastModel(rows: int, shape: Shape, m: set<Fact<Term>>)
    requires forall fact :: fact in m <==> InClosure(rows, shape, fact)
    ensures LeastModel(Program(), Triples(rows, shape), m)
  {
    ClosureObeys(rows, shape, m);
    forall k | Model(Program(), Triples(rows, shape), k) ensures m <= k {
      forall fact | fact in m ensures fact in k {
        if fact !in Triples(rows, shape) {
          var i: nat, j: nat :| Ends(rows, shape, fact, i, j);
          ReachIsForced(rows, shape, i, j, k);
        }
      }
    }
  }

  /** The answers to the goal reach(entity(0), y) are exactly entity(1) to entity(chain). */
  lemma GoalAnswers(rows: int, shape: Shape, m: set<Fact<Term>>, y: Term)
    requires forall fact :: fact in m <==> InClosure(rows, shape, fact)
    ensures Fact(Entity(0), Reach, y) in m <==> y.Entity? && 1 <= y.i <= Chain(rows, shape)
  {
    var fact := Fact(Entity(0), Reach, y);
    InTriples(rows, shape, fact);
    if y.Entity? && 1 <= y.i <= Chain(rows, shape) {
      assert Ends(rows, shape, fact, 0, y.i - 1);
    }
  }

  // The loops of the oracle.

  function ChainFacts(chain: int): set<Fact<Term>> {
    set i: nat, j: nat | 0 <= i < chain && i < j < chain + 1 :: Fact(Entity(i), Reach, Entity(j))
  }

  function GroupFacts(group: nat, size: nat): set<Fact<Term>> {
    set i: nat, j: nat | 0 <= i < size && i < j < size + 1 :: Fact(Group(group, i), Reach, Group(group, j))
  }

  /** A reach fact between the start of some triple from lo on and the end of some triple before hi. */
  ghost predicate Between(rows: int, shape: Shape, lo: int, hi: int, fact: Fact<Term>) {
    exists i: nat, j: nat :: lo <= i && j < hi && Ends(rows, shape, fact, i, j)
  }

  lemma ChainIsBetween(rows: int, shape: Shape, fact: Fact<Term>)
    ensures fact in ChainFacts(Chain(rows, shape)) <==> Between(rows, shape, 0, Chain(rows, shape), fact)
  {
    var chain := Chain(rows, shape);
    if fact in ChainFacts(chain) {
      assert Ends(rows, shape, fact, fact.s.i, fact.o.i - 1);
    }
  }

  lemma GroupIsBetween(rows: int, start: nat, size: nat, fact: Fact<Term>)
    requires Chain(rows, Sparse) <= start < rows && (start - Chain(rows, Sparse)) % 3 == 0
             && size == Min(3, rows - start)
    ensures fact in GroupFacts((start - Chain(rows, Sparse)) / 3, size) <==>
              Between(rows, Sparse, start, start + size, fact)
  {
    var group := (start - Chain(rows, Sparse)) / 3;
    if fact in GroupFacts(group, size) {
      assert Ends(rows, Sparse, fact, start + fact.s.offset, start + fact.o.offset - 1);
    }
  }

  /** No path crosses the end of the chain or of a group. */
  lemma BetweenSplits(rows: int, shape: Shape, lo: int, mid: int, hi: int, fact: Fact<Term>)
    requires lo <= mid <= hi <= rows && Chain(rows, shape) <= mid
    requires mid == Chain(rows, shape) || (shape == Sparse && (mid - Chain(rows, shape)) % 3 == 0)
    ensures Between(rows, shape, lo, hi, fact) <==>
            Between(rows, shape, lo, mid, fact) || Between(rows, shape, mid, hi, fact)
  {
  }

  lemma IsolatedIsBetween(rows: int, shape: Shape, fact: Fact<Term>)
    requires shape != Sparse
    ensures Between(rows, shape, Chain(rows, shape), rows, fact) <==>
            exists k: nat :: Chain(rows, shape) <= k < rows
                             && fact == Fact(Triple(rows, shape, k).s, Reach, Triple(rows, shape, k).o)
  {
    if k: nat :| Chain(rows, shape) <= k < rows
                 && fact == Fact(Triple(rows, shape, k).s, Reach, Triple(rows, shape, k).o)
    {
      assert Ends(rows, shape, fact, k, k);
    }
  }

  method SparseFacts(rows: int) returns (facts: set<Fact<Term>>)
    ensures forall fact :: fact in facts <==> Between(rows, Sparse, Chain(rows, Sparse), rows, fact)
  {
    var chain := Chain(rows, Sparse);
    facts := {};
    var start := chain;
    while start < rows
      invariant chain <= start && (start - chain) % 3 == 0
      invariant forall fact :: fact in facts <==> Between(rows, Sparse, chain, Min(start, rows), fact)
    {
      var group, size := (start - chain) / 3, Min(3, rows - start);
      forall fact
        ensures Between(rows, Sparse, chain, start + size, fact) <==> fact in facts || fact in GroupFacts(group, size)
      {
        GroupIsBetween(rows, start, size, fact);
        BetweenSplits(rows, Sparse, chain, start, start + size, fact);
      }
      facts := facts + GroupFacts(group, size);
      start := start + 3;
    }
  }

  method IsolatedFacts(rows: int, shape: Shape) returns (facts: set<Fact<Term>>)
    requires shape != Sparse
    ensures forall fact :: fact in facts <==> Between(rows, shape, Chain(rows, shape), rows, fact)
  {
    var chain, triples := Chain(rows, shape), Triples(rows, shape);
    var heads := set i: nat | 0 <= i < chain :: Entity(i);
    facts := set t | t in triples && t.s !in heads :: Fact(t.s, Reach, t.o);
    forall fact ensures fact in facts <==> Between(rows, shape, chain, rows, fact) {
      IsolatedIsBetween(rows, shape, fact);
      if k: nat :| chain <= k < rows && fact == Fact(Triple(rows, shape, k).s, Reach, Triple(rows, shape, k).o) {
        assert triples[k] == Triple(rows, shape, k);
      }
      if fact in facts {
        var k :| 0 <= k < |triples| && triples[k].s !in heads && fact == Fact(triples[k].s, Reach, triples[k].o);
        assert chain <= k;
      }
    }
  }

  /** The i-th generated triple, written out. */
  predicate IsTriple(shape: Shape, i: nat, t: Fact<Term>) {
    if i < (if shape == Dense then 128 else 8) then t == Fact(Entity(i), Edge, Entity(i + 1))
    else if shape == Sparse then t == Fact(Group((i - 8) / 3, (i - 8) % 3), Edge, Group((i - 8) / 3, (i - 8) % 3 + 1))
    else t == Fact(Entity(2 * i + 1000), Edge, Entity(2 * i + 1001))
  }

  lemma TriplesMeaning(rows: int, shape: Shape)
    ensures |Triples(rows, shape)| == if rows < 0 then 0 else rows
    ensures forall i :: 0 <= i < rows ==> IsTriple(shape, i, Triples(rows, shape)[i])
    ensures Chain(rows, shape) == Min(rows, if shape == Dense then 128 else 8)
  {
  }

  /** A model of the program holds the triples, reaches along every edge, and extends what it reaches by every edge. */
  lemma ProgramMeaning(rows: int, shape: Shape, m: set<Fact<Term>>)
    ensures Model(Program(), Triples(rows, shape), m) <==>
              && (forall t :: t in Triples(rows, shape) ==> t in m)
              && (forall x, y :: Fact(x, Edge, y) in m ==> Fact(x, Reach, y) in m)
              && (forall x, y, z :: Fact(x, Reach, y) in m && Fact(y, Edge, z) in m ==> Fact(x, Reach, z) in m)
  {
    assert Model(Program(), Triples(rows, shape), m) ==> Obeys(Program()[0], m) && Obeys(Program()[1], m);
  }

  /**
   * The oracle: exactly the least model of the program over the fixture, with exactly the chain as its goal answers.
   */
  method AnalyticalClosure(rows: int, shape: Shape) returns (facts: set<Fact<Term>>)
    ensures |Triples(rows, shape)| == if rows < 0 then 0 else rows
    ensures forall i :: 0 <= i < rows ==> IsTriple(shape, i, Triples(rows, shape)[i])
    ensures LeastModel(Program(), Triples(rows, shape), facts)
    ensures forall y :: Fact(Entity(0), Reach, y) in facts <==>
              y.Entity? && 1 <= y.i <= Min(rows, if shape == Dense then 128 else 8)
  {
    facts := Elements(Triples(rows, shape));
    var chain := Chain(rows, shape);
    facts := facts + ChainFacts(chain);
    var others: set<Fact<Term>>;
    if shape == Sparse {
      others := SparseFacts(rows);
    } else {
      others := IsolatedFacts(rows, shape);
    }
    facts := facts + others;
    forall fact ensures fact in facts <==> InClosure(rows, shape, fact) {
      ChainIsBetween(rows, shape, fact);
      BetweenSplits(rows, shape, Min(0, rows), chain, rows, fact);
      assert ReachFact(rows, shape, fact) <==> Between(rows, shape, Min(0, rows), rows, fact);
    }
    ClosureIsLeastModel(rows, shape, facts);
    forall y ensures Fact(Entity(0), Reach, y) in facts <==> y.Entity? && 1 <= y.i <= chain {
      GoalAnswers(rows, shape, facts, y);
    }
    TriplesMeaning(rows, shape);
  }
}
