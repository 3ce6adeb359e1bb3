/** The synthetic ontology workloads of benchmarks/ontology.py and their analytic closures. */
module OntologyWorkloads {
  import opened Common
  import opened Datalog

  /** The identifiers a workload uses; distinct constructors stand for distinct identifiers. */
  datatype Term = Node(i: nat) | Label(i: nat) | P | Ancestor | ClassC | ClassD | Organization | RdfType

  datatype Axiom =
    | SubClassOf(subClass: Term, superClass: Term)
    | SubPropertyOf(subProperty: Term, superProperty: Term)
    | Domain(property: Term, classId: Term)
    | Transitive(property: Term)

  /** cax-sco, prp-spo1, prp-dom and prp-trp of section 4.3 of OWL 2 Web Ontology Language Profiles. */
  function Compile(axiom: Axiom): Rule<Term> {
    match axiom
    case SubClassOf(c, d) => Relabel(RdfType, c, d)
    case SubPropertyOf(p, q) => Copy(p, q)
    case Domain(p, c) => Mark(p, RdfType, c)
    case Transitive(p) => Compose(p, p, p)
  }

  function Program(axioms: seq<Axiom>): seq<Rule<Term>> {
    seq(|axioms|, i requires 0 <= i < |axioms| => Compile(axioms[i]))
  }

  datatype Kind = Hierarchy | Recursive | Duplicates | Dense

  function Known(name: string): Option<Kind> {
    if name == "hierarchy" then Some(Hierarchy)
    else if name == "recursive" then Some(Recursive)
    else if name == "duplicates" then Some(Duplicates)
    else if name == "dense" then Some(Dense)
    else None
  }

  datatype Workload = Workload(axioms: seq<Axiom>, rows: seq<Fact<Term>>, expected: set<Fact<Term>>)

  datatype Error = BadRequest | PreflightLimit(inputs: nat, outputs: nat)

  // The analytic sizes.

  function BitLength(n: nat): nat {
    if n == 0 then 0 else 1 + BitLength(n / 2)
  }

  function Pow2(n: nat): nat {
    if n == 0 then 1 else 2 * Pow2(n - 1)
  }

  lemma {:induction false} BitLengthIsLogarithm(n: nat)
    requires n > 0
    ensures BitLength(n) > 0 && Pow2(BitLength(n) - 1) <= n < Pow2(BitLength(n))
  {
    if n > 1 { BitLengthIsLogarithm(n / 2); }
  }

  /** The sum of bit_length(i + 1) - 1 for 1 <= i < size. */
  function BitSum(size: nat): nat {
    if size <= 1 then 0 else BitSum(size - 1) + (BitLength(size) - 1)
  }

  function Inputs(kind: Kind, size: nat): int {
    match kind
    case Hierarchy => size
    case Recursive => size - 1
    case Duplicates => 8 * size
    case Dense => size - 1
  }

  function Outputs(kind: Kind, size: nat): int {
    match kind
    case Hierarchy => 5 * size
    case Recursive => size - 1 + BitSum(size)
    case Duplicates => 3 * size
    case Dense => size * (size - 1) / 2
  }

  // Axioms and rows.

  function Axioms(kind: Kind): seq<Axiom> {
    match kind
    case Hierarchy => seq(4, i requires 0 <= i => SubClassOf(Label(i), Label(i + 1)))
    case Recursive => [SubPropertyOf(P, Ancestor), Transitive(Ancestor)]
    case Duplicates => [Domain(P, ClassC), SubClassOf(ClassC, ClassD)]
    case Dense => [Transitive(P)]
  }

  function Parent(child: nat): nat
    requires child > 0
  {
    (child - 1) / 2
  }

  function Rows(kind: Kind, size: nat): seq<Fact<Term>>
    requires size > 0
  {
    match kind
    case Hierarchy => seq(size, i requires 0 <= i => Fact(Node(i), RdfType, Label(0)))
    case Recursive => seq(size - 1, i requires 0 <= i => Fact(Node(Parent(i + 1)), P, Node(i + 1)))
    case Duplicates => seq(8 * size, i requires 0 <= i => Fact(Node(i / 8), P, Organization))
    case Dense => seq(size - 1, i requires 0 <= i => Fact(Node(i), P, Node(i + 1)))
  }

  // The closures.

  /** The proper ancestors of a node in the heap-shaped tree. */
  function Above(child: nat): set<nat> {
    if child == 0 then {} else {Parent(child)} + Above(Parent(child))
  }

  function AncestorFacts(child: nat, above: set<nat>): set<Fact<Term>> {
    set a | a in above :: Fact(Node(a), Ancestor, Node(child))
  }

  /** One block of the closure for each node: the facts about it. */
  function Block(kind: Kind, i: nat): set<Fact<Term>> {
    match kind
    case Hierarchy => set j | 0 <= j < 5 :: Fact(Node(i), RdfType, Label(j))
    case Recursive => if i == 0 then {} else {Fact(Node(Parent(i)), P, Node(i))} + AncestorFacts(i, Above(i))
    case Duplicates => {Fact(Node(i), P, Organization), Fact(Node(i), RdfType, ClassC), Fact(Node(i), RdfType, ClassD)}
    case Dense => set j | 0 <= j < i :: Fact(Node(j), P, Node(i))
  }

  ghost function Expected(kind: Kind, size: nat): set<Fact<Term>> {
    if size == 0 then {} else Expected(kind, size - 1) + Block(kind, size - 1)
  }

  lemma {:induction false} InExpected(kind: Kind, size: nat, fact: Fact<Term>)
    ensures fact in Expected(kind, size) <==> exists i: nat :: i < size && fact in Block(kind, i)
  {
    hide Block;
    if size > 0 {
      InExpected(kind, size - 1, fact);
      assert fact in Expected(kind, size) <==> fact in Expected(kind, size - 1) || fact in Block(kind, size - 1);
      hide Expected;
    }
  }

  // Sizes of the closures.

  lemma {:induction false} AboveFacts(child: nat)
    ensures forall a :: a in Above(child) ==> a < child
    ensures BitLength(child + 1) == |Above(child)| + 1
  {
    if child > 0 {
      AboveFacts(Parent(child));
      assert (child + 1) / 2 == Parent(child) + 1;
    }
  }

  function Formula(kind: Kind, n: nat): nat {
    match kind
    case Hierarchy => 5 * n
    case Recursive => (if n == 0 then 0 else n - 1) + BitSum(n)
    case Duplicates => 3 * n
    case Dense => n * (n - 1) / 2
  }

  lemma LabelBlockCard(i: nat)
    ensures |Block(Hierarchy, i)| == 5
  {
    var listed := seq(5, j requires 0 <= j => Fact(Node(i), RdfType, Label(j)));
    forall fact | fact in Block(Hierarchy, i) ensures fact in listed {
      assert fact == listed[fact.o.i];
    }
    assert Block(Hierarchy, i) == Elements(listed);
    DistinctCard(listed);
  }

  lemma PathBlockCard(i: nat)
    ensures |Block(Dense, i)| == i
    ensures (i + 1) * i / 2 == i * (i - 1) / 2 + i
  {
    var listed := seq(i, j requires 0 <= j => Fact(Node(j), P, Node(i)));
    forall fact | fact in Block(Dense, i) ensures fact in listed {
      assert fact == listed[fact.s.i];
    }
    assert Block(Dense, i) == Elements(listed);
    DistinctCard(listed);
    assert (i + 1) * i == i * (i - 1) + 2 * i;
  }

  lemma {:induction false} AncestorFactsCard(child: nat, above: set<nat>)
    ensures |AncestorFacts(child, above)| == |above|
  {
    if above == {} {
      assert AncestorFacts(child, above) == {};
    } else {
      var a :| a in above;
      AncestorFactsCard(child, above - {a});
      assert AncestorFacts(child, above) == AncestorFacts(child, above - {a}) + {Fact(Node(a), Ancestor, Node(child))};
    }
  }

  lemma AncestorBlockCard(i: nat)
    requires i > 0
    ensures |Block(Recursive, i)| == BitLength(i + 1)
  {
    AboveFacts(i);
    AncestorFactsCard(i, Above(i));
  }

  lemma BlockCard(kind: Kind, i: nat)
    ensures Formula(kind, i) + |Block(kind, i)| == Formula(kind, i + 1)
  {
    match kind
    case Hierarchy => LabelBlockCard(i);
    case Recursive => if i > 0 { AncestorBlockCard(i); }
    case Duplicates =>
    case Dense => PathBlockCard(i);
  }

  /** Which node a fact of the closure belongs to. */
  function Owner(kind: Kind, fact: Fact<Term>): Term {
    if kind.Recursive? || kind.Dense? then fact.o else fact.s
  }

  lemma BlockOwner(kind: Kind, i: nat)
    ensures forall fact :: fact in Block(kind, i) ==> Owner(kind, fact) == Node(i)
  {
  }

  /** No fact about a node is in the blocks of the nodes before it. */
  lemma BlockIsNew(kind: Kind, i: nat)
    ensures Expected(kind, i) !! Block(kind, i)
  {
    forall fact | fact in Block(kind, i) ensures fact !in Expected(kind, i) {
      InExpected(kind, i, fact);
      BlockOwner(kind, i);
      forall j: nat | j < i ensures fact !in Block(kind, j) { BlockOwner(kind, j); }
    }
  }

  lemma FormulaStartsAtZero(kind: Kind)
    ensures Formula(kind, 0) == 0
  {
  }

  lemma DisjointUnionCard(a: set<Fact<Term>>, b: set<Fact<Term>>)
    requires a !! b
    ensures |a + b| == |a| + |b|
  {
  }

  /** One more node adds the size of its block. */
  lemma ExpectedSizeStep(kind: Kind, n: nat)
    ensures |Expected(kind, n + 1)| == |Expected(kind, n)| + |Block(kind, n)|
  {
    hide Block;
    BlockIsNew(kind, n);
    DisjointUnionCard(Expected(kind, n), Block(kind, n));
  }

  lemma {:induction false} ExpectedSize(kind: Kind, n: nat)
    ensures |Expected(kind, n)| == Formula(kind, n)
  {
    hide Formula, Block;
    if n == 0 {
      FormulaStartsAtZero(kind);
    } else {
      hide Expected;
      ExpectedSize(kind, n - 1);
      ExpectedSizeStep(kind, n - 1);
      BlockCard(kind, n - 1);
    }
  }

  lemma ExpectedCard(kind: Kind, size: nat)
    requires size > 0
    ensures |Rows(kind, size)| == Inputs(kind, size)
    ensures |Expected(kind, size)| == Outputs(kind, size)
  {
    ExpectedSize(kind, size);
  }

  // The closure is the least model.

  /** Membership in the closure, read off the fact. */
  ghost predicate Derived(kind: Kind, size: nat, fact: Fact<Term>) {
    match kind
    case Hierarchy =>
      fact.s.Node? && fact.s.i < size && fact.p == RdfType && fact.o.Label? && fact.o.i < 5
    case Recursive =>
      && fact.s.Node? && fact.o.Node? && 0 < fact.o.i < size
      && ((fact.p == P && fact.s.i == Parent(fact.o.i)) || (fact.p == Ancestor && fact.s.i in Above(fact.o.i)))
    case Duplicates =>
      && fact.s.Node? && fact.s.i < size
      && ((fact.p == P && fact.o == Organization) || (fact.p == RdfType && fact.o in {ClassC, ClassD}))
    case Dense =>
      fact.s.Node? && fact.o.Node? && fact.p == P && fact.s.i < fact.o.i < size
  }

  lemma ExpectedIsDerived(kind: Kind, size: nat, fact: Fact<Term>)
    ensures fact in Expected(kind, size) <==> Derived(kind, size, fact)
  {
    InExpected(kind, size, fact);
    if Derived(kind, size, fact) {
      var node := Owner(kind, fact);
      assert fact in Block(kind, node.i);
    }
  }

  lemma {:induction false} AboveTransitive(a: nat, b: nat, c: nat)
    requires a in Above(b) && b in Above(c)
    ensures a in Above(c)
  {
    if b != Parent(c) { AboveTransitive(a, b, Parent(c)); }
  }

  /** Ancestors of ancestors are ancestors: the transitivity axiom of the recursive workload. */
  lemma AncestorsCompose(size: nat, x: Term, y: Term, z: Term)
    requires Derived(Recursive, size, Fact(x, Ancestor, y)) && Derived(Recursive, size, Fact(y, Ancestor, z))
    ensures Derived(Recursive, size, Fact(x, Ancestor, z))
  {
    AboveTransitive(x.i, y.i, z.i);
  }

  lemma RecursiveObeys(size: nat, n: nat, m: set<Fact<Term>>)
    requires n < |Axioms(Recursive)| && forall fact :: fact in m <==> Derived(Recursive, size, fact)
    ensures Obeys(Compile(Axioms(Recursive)[n]), m)
  {
    if n == 1 {
      forall x, y, z | Fact(x, Ancestor, y) in m && Fact(y, Ancestor, z) in m ensures Fact(x, Ancestor, z) in m {
        AncestorsCompose(size, x, y, z);
      }
    }
  }

  lemma ExpectedObeys(kind: Kind, size: nat, n: nat)
    requires n < |Axioms(kind)|
    ensures Obeys(Compile(Axioms(kind)[n]), Expected(kind, size))
  {
    hide Expected;
    var m := Expected(kind, size);
    forall fact ensures fact in m <==> Derived(kind, size, fact) { ExpectedIsDerived(kind, size, fact); }
    if kind == Recursive { RecursiveObeys(size, n, m); }
  }

  lemma RowsExpected(kind: Kind, size: nat, row: Fact<Term>)
    requires size > 0 && row in Rows(kind, size)
    ensures row in Expected(kind, size)
  {
    ExpectedIsDerived(kind, size, row);
    var i :| 0 <= i < |Rows(kind, size)| && Rows(kind, size)[i] == row;
  }

  /** Every fact of the closure is forced by the rows and the rules. */
  lemma {:induction false} DerivedIsForced(kind: Kind, size: nat, fact: Fact<Term>, k: set<Fact<Term>>)
    requires size > 0 && Derived(kind, size, fact) && Model(Program(Axioms(kind)), Rows(kind, size), k)
    ensures fact in k
    decreases if fact.o.Node? || fact.o.Label? then fact.o.i else 0, fact.o == ClassD
  {
    var rules := Program(Axioms(kind));
    match kind
    case Hierarchy =>
      if fact.o.i == 0 {
        assert Rows(kind, size)[fact.s.i] in k;
      } else {
        DerivedIsForced(kind, size, Fact(fact.s, RdfType, Label(fact.o.i - 1)), k);
        assert Obeys(rules[fact.o.i - 1], k);
      }
    case Recursive =>
      var parent := Parent(fact.o.i);
      assert Rows(kind, size)[fact.o.i - 1] == Fact(Node(parent), P, fact.o);
      assert Obeys(rules[0], k) && Obeys(rules[1], k);
      if fact.p == Ancestor && fact.s.i != parent {
        DerivedIsForced(kind, size, Fact(fact.s, Ancestor, Node(parent)), k);
      }
    case Duplicates =>
      assert Rows(kind, size)[8 * fact.s.i] == Fact(fact.s, P, Organization);
      assert Obeys(rules[0], k) && Obeys(rules[1], k);
    case Dense =>
      var before := fact.o.i - 1;
      assert Rows(kind, size)[before] == Fact(Node(before), P, fact.o);
      assert Obeys(rules[0], k);
      if fact.s.i != before {
        DerivedIsForced(kind, size, Fact(fact.s, P, Node(before)), k);
      }
  }

  /** For every size, the analytic closure is exactly what the rules derive from the rows. */
  lemma ExpectedIsLeastModel(kind: Kind, size: nat)
    requires size > 0
    ensures LeastModel(Program(Axioms(kind)), Rows(kind, size), Expected(kind, size))
  {
    var rules, rows, m := Program(Axioms(kind)), Rows(kind, size), Expected(kind, size);
    forall i | 0 <= i < |rules| ensures Obeys(rules[i], m) { ExpectedObeys(kind, size, i); }
    forall row | row in rows ensures row in m { RowsExpected(kind, size, row); }
    forall k | Model(rules, rows, k) ensures m <= k {
      forall fact | fact in m ensures fact in k {
        ExpectedIsDerived(kind, size, fact);
        DerivedIsForced(kind, size, fact, k);
      }
    }
  }

  /**
   * The comparison of every measured run: a decoded closure equals the analytic one exactly when it is the least
   * model.
   */
  lemma ClosureCheckDecides(kind: Kind, size: nat, decoded: set<Fact<Term>>)
    requires size > 0
    ensures decoded == Expected(kind, size) <==> LeastModel(Program(Axioms(kind)), Rows(kind, size), decoded)
  {
    var rules, rows := Program(Axioms(kind)), Rows(kind, size);
    ExpectedIsLeastModel(kind, size);
    if LeastModel(rules, rows, decoded) { LeastModelIsUnique(rules, rows, decoded, Expected(kind, size)); }
  }

  // What the axioms ask for, and what the rows and the closure are, without the functions that make them.

  /** The meaning of an axiom for a set of facts. */
  ghost predicate Respects(axiom: Axiom, m: set<Fact<Term>>) {
    match axiom
    case SubClassOf(c, d) => forall x :: Fact(x, RdfType, c) in m ==> Fact(x, RdfType, d) in m
    case SubPropertyOf(p, q) => forall x, y :: Fact(x, p, y) in m ==> Fact(x, q, y) in m
    case Domain(p, c) => forall x, y :: Fact(x, p, y) in m ==> Fact(x, RdfType, c) in m
    case Transitive(p) => forall x, y, z :: Fact(x, p, y) in m && Fact(y, p, z) in m ==> Fact(x, p, z) in m
  }

  lemma CompileMeaning(axiom: Axiom, m: set<Fact<Term>>)
    ensures Obeys(Compile(axiom), m) <==> Respects(axiom, m)
  {
  }

  /** A model of the compiled axioms over the rows holds the rows and respects every axiom, and conversely. */
  lemma ModelMeaning(axioms: seq<Axiom>, rows: seq<Fact<Term>>, m: set<Fact<Term>>)
    ensures Model(Program(axioms), rows, m) <==>
              (forall row :: row in rows ==> row in m) && (forall axiom :: axiom in axioms ==> Respects(axiom, m))
  {
    forall i | 0 <= i < |axioms| ensures Obeys(Program(axioms)[i], m) <==> Respects(axioms[i], m) {
      CompileMeaning(axioms[i], m);
    }
    hide Obeys, Respects, Compile;
    if Model(Program(axioms), rows, m) {
      forall axiom | axiom in axioms ensures Respects(axiom, m) {
        var i :| 0 <= i < |axioms| && axioms[i] == axiom;
        assert Obeys(Program(axioms)[i], m);
      }
    }
  }

  /** Shifting c + 1 right by k bits gives a + 1. */
  predicate Shifts(a: nat, c: nat, k: nat) {
    (a + 1) * Pow2(k) <= c + 1 < (a + 2) * Pow2(k)
  }

  /**
   * Node a is a proper ancestor of node c in the heap-shaped tree: its number is a proper prefix of the other's bits.
   */
  ghost predicate HeapAncestor(a: nat, c: nat) {
    exists k: nat :: k > 0 && Shifts(a, c, k)
  }

  lemma Halves(n: nat, q: nat, x: nat, y: nat)
    requires q == n / 2
    ensures x <= q < y <==> 2 * x <= n < 2 * y
  {
  }

  lemma ShiftStep(a: nat, c: nat, k: nat)
    requires c > 0
    ensures Shifts(a, c, k + 1) <==> Shifts(a, Parent(c), k)
    ensures Shifts(a, c, 0) <==> a == c
  {
    Halves(c + 1, Parent(c) + 1, (a + 1) * Pow2(k), (a + 2) * Pow2(k));
    Doubled(a + 1, Pow2(k));
    Doubled(a + 2, Pow2(k));
  }

  lemma Doubled(x: nat, p: nat)
    ensures x * (2 * p) == 2 * (x * p)
  {
  }

  lemma {:induction false} RootHasNoShift(a: nat, k: nat)
    requires k > 0
    ensures !Shifts(a, 0, k) && Pow2(k) >= 2
  {
    if k > 1 { RootHasNoShift(a, k - 1); }
    AtLeast(a + 1, Pow2(k));
  }

  lemma AtLeast(x: nat, p: nat)
    requires x > 0
    ensures x * p >= p
  {
  }

  lemma {:induction false} AboveIsAncestors(a: nat, c: nat)
    ensures a in Above(c) <==> HeapAncestor(a, c)
  {
    if c == 0 {
      forall k: nat | k > 0 ensures !Shifts(a, c, k) { RootHasNoShift(a, k); }
    } else {
      var p := Parent(c);
      AboveIsAncestors(a, p);
      SameNode(a, p);
      if k: nat :| k > 0 && Shifts(a, c, k) { ShiftStep(a, c, k - 1); }
      if k: nat :| Shifts(a, p, k) {
        ShiftStep(a, c, k);
        assert Shifts(a, c, k + 1);
      }
      hide Shifts;
    }
  }

  lemma SameNode(a: nat, p: nat)
    ensures Shifts(a, p, 0) <==> a == p
  {
  }

  /** The rows of each workload, in order. */
  ghost predicate RowsAre(kind: Kind, size: nat, rows: seq<Fact<Term>>) {
    match kind
    case Hierarchy => |rows| == size && forall i :: 0 <= i < size ==> rows[i] == Fact(Node(i), RdfType, Label(0))
    case Recursive => |rows| == size - 1
                      && forall i :: 0 <= i < size - 1 ==> rows[i] == Fact(Node(i / 2), P, Node(i + 1))
    case Duplicates => |rows| == 8 * size
                       && forall i :: 0 <= i < 8 * size ==> rows[i] == Fact(Node(i / 8), P, Organization)
    case Dense => |rows| == size - 1 && forall i :: 0 <= i < size - 1 ==> rows[i] == Fact(Node(i), P, Node(i + 1))
  }

  lemma RowsMeaning(kind: Kind, size: nat)
    requires size > 0
    ensures RowsAre(kind, size, Rows(kind, size))
  {
  }

  /** The axioms of each workload. */
  lemma AxiomsMeaning()
    ensures Axioms(Hierarchy) == [SubClassOf(Label(0), Label(1)), SubClassOf(Label(1), Label(2)),
                                  SubClassOf(Label(2), Label(3)), SubClassOf(Label(3), Label(4))]
    ensures Axioms(Recursive) == [SubPropertyOf(P, Ancestor), Transitive(Ancestor)]
    ensures Axioms(Duplicates) == [Domain(P, ClassC), SubClassOf(ClassC, ClassD)]
    ensures Axioms(Dense) == [Transitive(P)]
  {
  }

  // The builder.

  /** The two nested loops that walk from every child up to the root. */
  method AddAncestors(size: nat, start: set<Fact<Term>>) returns (expected: set<Fact<Term>>)
    requires size > 0
    ensures forall fact :: fact in expected <==>
              fact in start || exists c :: 0 < c < size && fact in AncestorFacts(c, Above(c))
  {
    expected := start;
    for child := 1 to size
      invariant forall fact :: fact in expected <==>
                  fact in start || exists c :: 0 < c < child && fact in AncestorFacts(c, Above(c))
    {
      ghost var before := expected;
      var ancestor: nat := child;
      while ancestor != 0
        invariant expected + AncestorFacts(child, Above(ancestor)) == before + AncestorFacts(child, Above(child))
      {
        ancestor := (ancestor - 1) / 2;
        AncestorFactsPlus(child, ancestor, Above(ancestor));
        expected := expected + {Fact(Node(ancestor), Ancestor, Node(child))};
      }
    }
  }

  lemma AncestorFactsPlus(child: nat, a: nat, above: set<nat>)
    ensures AncestorFacts(child, {a} + above) == {Fact(Node(a), Ancestor, Node(child))} + AncestorFacts(child, above)
  {
  }

  method BuildExpected(kind: Kind, size: nat, rows: seq<Fact<Term>>) returns (expected: set<Fact<Term>>)
    requires size > 0 && rows == Rows(kind, size)
    ensures expected == Expected(kind, size)
  {
    match kind {
      case Hierarchy =>
        expected := set i: nat, j | 0 <= i < size && 0 <= j < 5 :: Fact(Node(i), RdfType, Label(j));
      case Duplicates =>
        expected := Elements(rows)
          + (set i: nat, c | 0 <= i < size && c in {ClassC, ClassD} :: Fact(Node(i), RdfType, c));
      case Recursive =>
        expected := AddAncestors(size, Elements(rows));
      case Dense =>
        expected := set i: nat, j: nat | 0 <= i < size && i < j < size :: Fact(Node(i), P, Node(j));
    }
    forall fact ensures fact in expected <==> fact in Expected(kind, size) {
      ExpectedIsDerived(kind, size, fact);
      RowIsDerived(kind, size, fact);
    }
  }

  /** The rows, read off the fact. */
  lemma RowIsDerived(kind: Kind, size: nat, fact: Fact<Term>)
    requires size > 0
    ensures kind == Recursive ==> (fact in Rows(kind, size) <==> Derived(kind, size, fact) && fact.p == P)
    ensures kind == Duplicates ==> (fact in Rows(kind, size) <==> Derived(kind, size, fact) && fact.p == P)
  {
    var rows := Rows(kind, size);
    if Derived(kind, size, fact) && fact.p == P {
      if kind == Recursive { assert rows[fact.o.i - 1] == fact; }
      if kind == Duplicates { assert rows[8 * fact.s.i] == fact; }
    }
  }

  /**
   * `make_workload`. The final assertion of the source, |rows| == inputs and |expected| == outputs, is a
   * postcondition; the closure handed out is the least model of the rows under the axioms.
   */
  method MakeWorkload(name: string, size: int, maxInput: int, maxFacts: int) returns (r: Result<Workload, Error>)
    ensures r == Err(BadRequest) <==>
              name !in {"hierarchy", "recursive", "duplicates", "dense"} || !(2 <= size <= 10000)
    ensures name == "hierarchy" ==> Known(name) == Some(Hierarchy)
    ensures name == "recursive" ==> Known(name) == Some(Recursive)
    ensures name == "duplicates" ==> Known(name) == Some(Duplicates)
    ensures name == "dense" ==> Known(name) == Some(Dense)
    ensures Known(name).Some? && 2 <= size <= 10000 ==>
              var (inputs, outputs) := (|Rows(Known(name).value, size)|, |Expected(Known(name).value, size)|);
              && inputs == Inputs(Known(name).value, size) && outputs == Outputs(Known(name).value, size)
              && if inputs > maxInput || outputs > maxFacts then r == Err(PreflightLimit(inputs, outputs))
                 else
                   && r.Ok?
                   && r.value.axioms == Axioms(Known(name).value)
                   && r.value.rows == Rows(Known(name).value, size)
                   && |r.value.rows| == inputs && |r.value.expected| == outputs
                   && LeastModel(Program(r.value.axioms), r.value.rows, r.value.expected)
    ensures r.Ok? ==> 2 <= size && Known(name).Some? && RowsAre(Known(name).value, size, r.value.rows)
    ensures r.Ok? ==> forall fact :: fact in r.value.expected <==> Derived(Known(name).value, size, fact)
  {
    var known := Known(name);
    if known.None? || !(2 <= size <= 10000) {
      return Err(BadRequest);
    }
    var kind := known.value;
    var inputs, outputs := Inputs(kind, size), Outputs(kind, size);
    ExpectedCard(kind, size);
    if inputs > maxInput || outputs > maxFacts {
      return Err(PreflightLimit(inputs, outputs));
    }
    var rows := Rows(kind, size);
    var expected := BuildExpected(kind, size, rows);
    ExpectedIsLeastModel(kind, size);
    RowsMeaning(kind, size);
    forall fact ensures fact in expected <==> Derived(kind, size, fact) { ExpectedIsDerived(kind, size, fact); }
    return Ok(Workload(Axioms(kind), rows, expected));
  }
}
