/**
 The bounded transition cache of benchmarks/walk_cache.py. Candidate arrays are sequences of
 ids, weights are reals, and the bytes of an array identify it, so keys are the arrays themselves.
 */
module WalkCache {
  import opened Common

  datatype Key = Key(candidates: seq<int>, weights: Option<seq<real>>)

  datatype Plan = Plan(positions: seq<nat>, probabilities: Option<seq<real>>, size: nat)

  datatype Failure = BadWeights | NoCandidates

  datatype Outcome = Chosen(position: nat) | Raised(failure: Failure)

  datatype Engine = Engine(id: int, snapshot: int)

  /** The state of every engine's generator. */
  datatype Rng = Rng(state: int)

  /** rng.choice of one index below n with the given probabilities, by the engine's own generator. */
  type Draw = d: (Engine, Rng, nat, Option<seq<real>>) -> (nat, Rng)
    | forall e, r, n: nat, p :: n > 0 ==> d(e, r, n, p).0 < n
    witness (e: Engine, r: Rng, n: nat, p: Option<seq<real>>) => (0, r)

  // Plans.

  predicate Usable(candidates: seq<int>, weights: seq<real>) {
    && |weights| == |candidates|
    && (forall i :: 0 <= i < |weights| ==> weights[i] >= 0.0)
    && (exists i :: 0 <= i < |weights| && weights[i] > 0.0)
  }

  /** The positions of positive weights, in order. */
  function Positive(weights: seq<real>): (ps: seq<nat>)
    ensures forall i :: 0 <= i < |ps| ==> ps[i] < |weights| && weights[ps[i]] > 0.0
    ensures forall i :: 0 <= i < |weights| && weights[i] > 0.0 ==> i in ps
  {
    if weights == [] then []
    else
      var n := |weights| - 1;
      Positive(weights[..n]) + (if weights[n] > 0.0 then [n] else [])
  }

  function Sum(xs: seq<real>): real {
    if xs == [] then 0.0 else Sum(xs[..|xs| - 1]) + xs[|xs| - 1]
  }

  function Largest(xs: seq<real>): (m: real)
    requires xs != []
    ensures m in xs && forall x :: x in xs ==> x <= m
  {
    if |xs| == 1 then xs[0]
    else
      var m := Largest(xs[..|xs| - 1]);
      assert xs == xs[..|xs| - 1] + [xs[|xs| - 1]];
      if m >= xs[|xs| - 1] then m else xs[|xs| - 1]
  }

  function Scaled(xs: seq<real>, unit: real): seq<real>
    requires unit > 0.0
  {
    seq(|xs|, i requires 0 <= i < |xs| => xs[i] / unit)
  }

  function Selected(weights: seq<real>, positions: seq<nat>): seq<real>
    requires forall i :: 0 <= i < |positions| ==> positions[i] < |weights|
  {
    seq(|positions|, i requires 0 <= i < |positions| => weights[positions[i]])
  }

  function Probabilities(positive: seq<real>): seq<real>
    requires positive != [] && forall x :: x in positive ==> x > 0.0
  {
    var scaled := Scaled(positive, Largest(positive));
    ScaledPositive(positive, Largest(positive));
    SumPositive(scaled);
    Scaled(scaled, Sum(scaled))
  }

  lemma {:induction false} SumPositive(xs: seq<real>)
    requires xs != [] && forall x :: x in xs ==> x > 0.0
    ensures Sum(xs) > 0.0
  {
    var init := xs[..|xs| - 1];
    assert xs[|xs| - 1] in xs;
    if init != [] {
      assert forall x :: x in init ==> x in xs;
      SumPositive(init);
    }
  }

  lemma ScaledPositive(xs: seq<real>, unit: real)
    requires unit > 0.0 && forall x :: x in xs ==> x > 0.0
    ensures forall x :: x in Scaled(xs, unit) ==> x > 0.0
  {
    forall i | 0 <= i < |xs| ensures Scaled(xs, unit)[i] > 0.0 {
      assert xs[i] in xs;
      PositiveRatio(xs[i], unit);
    }
  }

  lemma {:induction false} ScaledSum(xs: seq<real>, unit: real)
    requires unit > 0.0
    ensures Sum(Scaled(xs, unit)) == Sum(xs) / unit
  {
    if xs != [] {
      var init := xs[..|xs| - 1];
      ScaledSum(init, unit);
      assert Scaled(xs, unit)[..|xs| - 1] == Scaled(init, unit);
    }
  }

  lemma ScaledTotal(positive: seq<real>)
    requires positive != [] && forall x :: x in positive ==> x > 0.0
    ensures var m, total := Largest(positive), Sum(Scaled(positive, Largest(positive)));
            m > 0.0 && total > 0.0 && total * m == Sum(positive)
  {
    hide Scaled, Sum, Largest;
    TotalOf(positive, Largest(positive));
  }

  lemma TotalOf(xs: seq<real>, m: real)
    requires m > 0.0 && xs != [] && forall x :: x in xs ==> x > 0.0
    ensures Sum(Scaled(xs, m)) > 0.0 && Sum(Scaled(xs, m)) * m == Sum(xs)
  {
    ScaledSum(xs, m);
    SumPositive(xs);
    PositiveRatio(Sum(xs), m);
    QuotientTimes(Sum(xs), m);
  }

  lemma QuotientTimes(x: real, m: real)
    requires m > 0.0
    ensures (x / m) * m == x
  {
  }

  lemma ScaledAt(xs: seq<real>, unit: real, i: nat)
    requires unit > 0.0 && i < |xs|
    ensures |Scaled(xs, unit)| == |xs| && Scaled(xs, unit)[i] * unit == xs[i]
  {
    QuotientTimes(xs[i], unit);
  }

  lemma ProductOfRatios(p: real, a: real, b: real, m: real, x: real, y: real)
    requires p * b == a && a * m == x && b * m == y
    ensures p * y == x
  {
    calc {
      p * y;
      p * (b * m);
      (p * b) * m;
      x;
    }
  }

  lemma TwiceScaledAt(xs: seq<real>, m: real, total: real, y: real, i: nat)
    requires m > 0.0 && total > 0.0 && total * m == y && i < |xs|
    ensures |Scaled(Scaled(xs, m), total)| == |xs|
    ensures Scaled(Scaled(xs, m), total)[i] * y == xs[i]
  {
    var once := Scaled(xs, m);
    ScaledAt(xs, m, i);
    ScaledAt(once, total, i);
    ProductOfRatios(Scaled(once, total)[i], once[i], total, m, xs[i], y);
  }

  /** The probabilities are the positive weights in proportion. */
  lemma ProbabilitiesProportional(positive: seq<real>, i: nat)
    requires i < |positive| && forall x :: x in positive ==> x > 0.0
    ensures |Probabilities(positive)| == |positive|
    ensures Probabilities(positive)[i] * Sum(positive) == positive[i]
  {
    hide Scaled, Sum, Largest;
    var m := Largest(positive);
    ScaledTotal(positive);
    TwiceScaledAt(positive, m, Sum(Scaled(positive, m)), Sum(positive), i);
  }

  /** They sum to one. */
  lemma ProbabilitiesSumToOne(positive: seq<real>)
    requires positive != [] && forall x :: x in positive ==> x > 0.0
    ensures Sum(Probabilities(positive)) == 1.0
  {
    var scaled := Scaled(positive, Largest(positive));
    ScaledTotal(positive);
    ScaledSum(scaled, Sum(scaled));
    SelfRatio(Sum(scaled));
  }

  lemma PositiveRatio(x: real, m: real)
    requires x > 0.0 && m > 0.0
    ensures x / m > 0.0
  {
  }

  lemma SelfRatio(x: real)
    requires x > 0.0
    ensures x / x == 1.0
  {
  }

  /** The plan computed on a miss: a function of the key alone. */
  function BuildPlan(key: Key): Result<Plan, Failure> {
    var n := |key.candidates|;
    match key.weights
    case None =>
      if n == 0 then Err(NoCandidates)
      else Ok(Plan(seq(n, i => i), None, 8 * n + 8 * n))
    case Some(weights) =>
      if !Usable(key.candidates, weights) then Err(BadWeights)
      else
        var positions := Positive(weights);
        var positive := Selected(weights, positions);
        assert positive != [];
        Ok(Plan(positions, Some(Probabilities(positive)), 8 * n + 8 * |weights| + 8 * |positions| + 8 * |positions|))
  }

  // What a plan is, in terms of its key.

  lemma {:induction false} SumConcat(a: seq<real>, b: seq<real>)
    ensures Sum(a + b) == Sum(a) + Sum(b)
    ensures |b| == 1 ==> Sum(b) == b[0]
  {
    if b == [] {
      assert a + b == a;
    } else {
      var init, last := b[..|b| - 1], b[|b| - 1];
      assert (a + b)[..|a + b| - 1] == a + init;
      SumConcat(a, init);
    }
  }

  lemma {:induction false} PositiveAscends(weights: seq<real>)
    ensures var ps := Positive(weights);
            && (forall i, j :: 0 <= i < j < |ps| ==> ps[i] < ps[j])
            && forall n: nat :: n in ps <==> n < |weights| && weights[n] > 0.0
  {
    if weights != [] { PositiveAscends(weights[..|weights| - 1]); }
  }

  lemma PositiveSnoc(init: seq<real>, x: real)
    ensures Positive(init + [x]) == Positive(init) + if x > 0.0 then [|init|] else []
  {
    assert (init + [x])[..|init|] == init;
  }

  lemma SelectedSnoc(init: seq<real>, x: real)
    ensures Selected(init + [x], Positive(init + [x])) ==
            Selected(init, Positive(init)) + if x > 0.0 then [x] else []
  {
    PositiveSnoc(init, x);
    hide Positive;
    var before, after := Selected(init, Positive(init)), Selected(init + [x], Positive(init + [x]));
    assert |after| == |before| + if x > 0.0 then 1 else 0;
    forall i | 0 <= i < |before| ensures after[i] == before[i] {
      assert Positive(init + [x])[i] == Positive(init)[i];
    }
  }

  lemma SumSnoc(init: seq<real>, x: real)
    ensures Sum(init + [x]) == Sum(init) + x
  {
    assert (init + [x])[..|init|] == init;
  }

  lemma SelectedSumStep(init: seq<real>, x: real)
    requires x >= 0.0 && Sum(Selected(init, Positive(init))) == Sum(init)
    ensures Sum(Selected(init + [x], Positive(init + [x]))) == Sum(init + [x])
  {
    SelectedSnoc(init, x);
    SumSnoc(init, x);
    SumSnoc(Selected(init, Positive(init)), x);
    hide Sum, Selected, Positive;
    if x == 0.0 { assert Selected(init, Positive(init)) + [] == Selected(init, Positive(init)); }
  }

  lemma NothingSelected()
    ensures Sum(Selected([], Positive([]))) == Sum([])
  {
    assert Selected([], Positive([])) == [];
  }

  /** Weights that are not positive add nothing. */
  lemma {:induction false} SelectedSum(weights: seq<real>)
    requires forall i :: 0 <= i < |weights| ==> weights[i] >= 0.0
    ensures Sum(Selected(weights, Positive(weights))) == Sum(weights)
    decreases |weights|
  {
    hide Sum, Selected, Positive;
    if weights == [] {
      NothingSelected();
    } else {
      var init, x := weights[..|weights| - 1], weights[|weights| - 1];
      assert weights == init + [x];
      SelectedSum(init);
      SelectedSumStep(init, x);
    }
  }

  /** p is what the weight at a position is of the total. */
  predicate Share(weights: seq<real>, position: nat, p: real) {
    position < |weights| && p * Sum(weights) == weights[position]
  }

  /**
   * The plan of a key. Without weights: every position in order, no probabilities. With weights: exactly the positions
   * of positive weight, ascending, each with its share of the total. The size counts eight bytes for every number.
   */
  ghost predicate PlanFor(key: Key, plan: Plan) {
    var n := |plan.positions|;
    match key.weights
    case None =>
      && n == |key.candidates| > 0 && (forall i :: 0 <= i < n ==> plan.positions[i] == i)
      && plan.probabilities == None && plan.size == 8 * (|key.candidates| + n)
    case Some(weights) =>
      && |weights| == |key.candidates| && (forall i :: 0 <= i < |weights| ==> weights[i] >= 0.0) && n > 0
      && (forall i, j :: 0 <= i < j < n ==> plan.positions[i] < plan.positions[j])
      && (forall p: nat :: p in plan.positions <==> p < |weights| && weights[p] > 0.0)
      && plan.probabilities.Some? && |plan.probabilities.value| == n
      && (forall i :: 0 <= i < n ==> Share(weights, plan.positions[i], plan.probabilities.value[i]))
      && plan.size == 8 * (|key.candidates| + |weights| + n + n)
  }

  lemma PositiveValues(weights: seq<real>)
    ensures forall x :: x in Selected(weights, Positive(weights)) ==> x > 0.0
    ensures |Selected(weights, Positive(weights))| == |Positive(weights)|
    ensures forall i :: 0 <= i < |Positive(weights)| ==>
              Positive(weights)[i] < |weights|
              && Selected(weights, Positive(weights))[i] == weights[Positive(weights)[i]]
  {
  }

  lemma SameShare(xs: seq<real>, i: nat, weights: seq<real>, position: nat, p: real)
    requires Share(xs, i, p) && position < |weights| && weights[position] == xs[i] && Sum(weights) == Sum(xs)
    ensures Share(weights, position, p)
  {
    hide Sum;
  }

  /** The probabilities are the shares. */
  lemma ProportionalShare(positive: seq<real>, i: nat)
    requires i < |positive| && forall x :: x in positive ==> x > 0.0
    ensures |Probabilities(positive)| == |positive| && Share(positive, i, Probabilities(positive)[i])
  {
    ProbabilitiesProportional(positive, i);
    hide Probabilities, Sum;
  }

  lemma SelectedProbabilities(weights: seq<real>, positive: seq<real>, i: nat)
    requires (forall j :: 0 <= j < |weights| ==> weights[j] >= 0.0) && i < |Positive(weights)|
    requires positive == Selected(weights, Positive(weights)) && forall x :: x in positive ==> x > 0.0
    ensures i < |positive| && |Probabilities(positive)| == |Positive(weights)|
    ensures Share(weights, Positive(weights)[i], Probabilities(positive)[i])
  {
    hide Positive, Selected, Sum, Probabilities, Share;
    SelectedSum(weights);
    PositiveValues(weights);
    ProportionalShare(positive, i);
    SameShare(positive, i, weights, Positive(weights)[i], Probabilities(positive)[i]);
  }

  lemma PlanShares(weights: seq<real>, positions: seq<nat>, positive: seq<real>, probabilities: seq<real>)
    requires forall j :: 0 <= j < |weights| ==> weights[j] >= 0.0
    requires positions == Positive(weights) && positive == Selected(weights, Positive(weights))
    requires positive != [] && (forall x :: x in positive ==> x > 0.0) && probabilities == Probabilities(positive)
    ensures |probabilities| == |positions|
    ensures forall i :: 0 <= i < |positions| ==> Share(weights, positions[i], probabilities[i])
  {
    hide Positive, Selected, Probabilities, Share;
    ProportionalShare(positive, 0);
    PositiveValues(weights);
    forall i | 0 <= i < |positions| ensures Share(weights, positions[i], probabilities[i]) {
      SelectedProbabilities(weights, positive, i);
    }
  }

  lemma WeightedPlan(key: Key)
    requires key.weights.Some? && Usable(key.candidates, key.weights.value)
    ensures BuildPlan(key).Ok? && PlanFor(key, BuildPlan(key).value)
  {
    hide Positive, Selected, Probabilities, Share;
    var weights, plan := key.weights.value, BuildPlan(key).value;
    PositiveAscends(weights);
    PositiveValues(weights);
    PlanShares(weights, plan.positions, Selected(weights, Positive(weights)), plan.probabilities.value);
  }

  /**
   * A key has a plan exactly when it has candidates and no weights, or as many weights as candidates, none negative and
   * one positive; the error says which of the two it lacks.
   */
  lemma PlanMeaning(key: Key)
    ensures BuildPlan(key).Ok? ==> PlanFor(key, BuildPlan(key).value)
    ensures key.weights == None ==>
              (if key.candidates == [] then BuildPlan(key) == Err(NoCandidates) else BuildPlan(key).Ok?)
    ensures key.weights.Some? ==>
              var weights := key.weights.value;
              if |weights| == |key.candidates| && (forall i :: 0 <= i < |weights| ==> weights[i] >= 0.0)
                 && (exists i :: 0 <= i < |weights| && weights[i] > 0.0)
              then BuildPlan(key).Ok?
              else BuildPlan(key) == Err(BadWeights)
  {
    if key.weights.Some? && Usable(key.candidates, key.weights.value) { WeightedPlan(key); }
    hide Probabilities, Positive;
  }

  /** No other plan fits the key. */
  lemma PlanIsUnique(key: Key, plan: Plan, other: Plan)
    requires PlanFor(key, plan) && PlanFor(key, other)
    ensures plan == other
  {
    if key.weights.Some? {
      var weights := key.weights.value;
      AscendingUnique(plan.positions, other.positions);
      assert plan.positions[0] in plan.positions;
      TotalPositive(weights, plan.positions[0]);
      hide Sum;
      SameShares(weights, plan.positions, plan.probabilities.value, other.probabilities.value);
    } else {
      assert plan.positions == other.positions;
    }
  }

  lemma SameShares(weights: seq<real>, positions: seq<nat>, p: seq<real>, q: seq<real>)
    requires |p| == |q| == |positions| && Sum(weights) > 0.0
    requires forall i :: 0 <= i < |p| ==> Share(weights, positions[i], p[i]) && Share(weights, positions[i], q[i])
    ensures p == q
  {
    hide Sum;
    forall i | 0 <= i < |p| ensures p[i] == q[i] {
      assert Share(weights, positions[i], p[i]) && Share(weights, positions[i], q[i]);
      SameFactor(p[i], q[i], Sum(weights));
    }
  }

  lemma SameFactor(a: real, b: real, m: real)
    requires m > 0.0 && a * m == b * m
    ensures a == b
  {
  }

  lemma TotalPositive(weights: seq<real>, p: nat)
    requires (forall i :: 0 <= i < |weights| ==> weights[i] >= 0.0) && p < |weights| && weights[p] > 0.0
    ensures Sum(weights) > 0.0
  {
    PositiveAscends(weights);
    SelectedSum(weights);
    var positive := Selected(weights, Positive(weights));
    assert p in Positive(weights);
    SumPositive(positive);
  }

  lemma LastsAgree(a: seq<nat>, b: seq<nat>)
    requires a != [] && b != []
    requires forall i, j :: 0 <= i < j < |a| ==> a[i] < a[j]
    requires forall i, j :: 0 <= i < j < |b| ==> b[i] < b[j]
    requires forall p: nat :: p in a <==> p in b
    ensures a[|a| - 1] == b[|b| - 1]
  {
    assert a[|a| - 1] in b && b[|b| - 1] in a;
  }

  lemma InitMembers(a: seq<nat>)
    requires a != [] && forall i, j :: 0 <= i < j < |a| ==> a[i] < a[j]
    ensures forall p: nat :: p in a[..|a| - 1] <==> p in a && p != a[|a| - 1]
  {
    assert a == a[..|a| - 1] + [a[|a| - 1]];
  }

  lemma {:induction false} AscendingUnique(a: seq<nat>, b: seq<nat>)
    requires forall i, j :: 0 <= i < j < |a| ==> a[i] < a[j]
    requires forall i, j :: 0 <= i < j < |b| ==> b[i] < b[j]
    requires forall p: nat :: p in a <==> p in b
    ensures a == b
    decreases |a|
  {
    assert a == [] <==> b == [] by { assert (a != [] ==> a[0] in a) && (b != [] ==> b[0] in b); }
    if a != [] {
      LastsAgree(a, b);
      InitMembers(a);
      InitMembers(b);
      var shorter, other := a[..|a| - 1], b[..|b| - 1];
      forall p: nat ensures p in shorter <==> p in other { assert p in a <==> p in b; }
      AscendingUnique(shorter, other);
      assert a == a[..|a| - 1] + [a[|a| - 1]] && b == b[..|b| - 1] + [b[|b| - 1]];
    }
  }

  /** The last lines of `choose`: a single position needs no draw. */
  function Pick(draw: Draw, engine: Engine, rng: Rng, plan: Plan): (nat, Rng)
    requires plan.positions != []
  {
    if |plan.positions| == 1 then (plan.positions[0], rng)
    else
      var (index, rng2) := draw(engine, rng, |plan.positions|, plan.probabilities);
      (plan.positions[index], rng2)
  }

  // The cache.

  /** `order` lists the retained keys, least recently used first. */
  datatype Cache = Cache(maxEntries: nat, maxBytes: nat, order: seq<Key>, plans: map<Key, Plan>, source: Option<int>,
                         bytes: int, hits: nat, misses: nat, evictions: nat, bypassed: nat)

  function Empty(maxEntries: nat, maxBytes: nat): Cache {
    Cache(maxEntries, maxBytes, [], map[], None, 0, 0, 0, 0, 0)
  }

  function Cleared(c: Cache): Cache {
    c.(order := [], plans := map[], source := None, bytes := 0)
  }

  function Bound(c: Cache, snapshot: int): Cache {
    if c.source == Some(snapshot) then c else Cleared(c).(source := Some(snapshot))
  }

  function Without(order: seq<Key>, key: Key): seq<Key> {
    if order == [] then [] else if order[0] == key then order[1..] else [order[0]] + Without(order[1..], key)
  }

  predicate Crowded(c: Cache, size: nat) {
    c.order != [] && (|c.order| >= c.maxEntries || c.bytes + size > c.maxBytes)
  }

  function PopOldest(c: Cache): Cache
    requires c.order != [] && c.order[0] in c.plans
  {
    c.(order := c.order[1..], plans := c.plans - {c.order[0]}, bytes := c.bytes - c.plans[c.order[0]].size,
       evictions := c.evictions + 1)
  }

  function Evicted(c: Cache, size: nat): Cache
    requires Linked(c)
    decreases |c.order|
  {
    if Crowded(c, size) then PopKeepsLinked(c); Evicted(PopOldest(c), size) else c
  }

  /** What a miss does with its plan. */
  function Stored(c: Cache, key: Key, plan: Plan): Cache
    requires Linked(c)
  {
    if c.maxEntries != 0 && plan.size <= c.maxBytes then
      var room := Evicted(c, plan.size);
      room.(order := room.order + [key], plans := room.plans[key := plan], bytes := room.bytes + plan.size)
    else c.(bypassed := c.bypassed + 1)
  }

  /** Look the plan up, or store the one built for the key. */
  function FetchWith(c: Cache, key: Key, built: Result<Plan, Failure>): (Cache, Result<Plan, Failure>)
    requires Linked(c)
  {
    if key in c.plans then
      (c.(hits := c.hits + 1, order := Without(c.order, key) + [key]), Ok(c.plans[key]))
    else
      var missed := c.(misses := c.misses + 1);
      (if built.Ok? then Stored(missed, key, built.value) else missed, built)
  }

  function Fetch(c: Cache, key: Key): (Cache, Result<Plan, Failure>)
    requires Linked(c)
  {
    FetchWith(c, key, BuildPlan(key))
  }

  /** The answer drawn from a plan, or its failure. */
  function Answer(draw: Draw, engine: Engine, rng: Rng, plan: Result<Plan, Failure>): (Rng, Outcome)
    requires plan.Ok? ==> plan.value.positions != []
  {
    match plan
    case Err(failure) => (rng, Raised(failure))
    case Ok(p) => var (position, rng2) := Pick(draw, engine, rng, p); (rng2, Chosen(position))
  }

  /** A whole call of `choose`. */
  function CallResult(c: Cache, draw: Draw, engine: Engine, rng: Rng, key: Key): (Cache, Rng, Outcome)
    requires Consistent(c)
  {
    FetchIsBuild(Bound(c, engine.snapshot), key);
    var (after, plan) := Fetch(Bound(c, engine.snapshot), key);
    var (rng2, outcome) := Answer(draw, engine, rng, plan);
    (after, rng2, outcome)
  }

  /** The plan fetched depends on the key alone. */
  lemma FetchIsBuild(c: Cache, key: Key)
    requires Consistent(c)
    ensures Fetch(c, key).1 == BuildPlan(key)
    ensures BuildPlan(key).Ok? ==> BuildPlan(key).value.positions != []
  {
    if key in c.plans { assert Honest(key, c.plans[key]); }
    if BuildPlan(key).Ok? { BuiltPlanNonempty(key); }
  }

  lemma BuiltPlanNonempty(key: Key)
    requires BuildPlan(key).Ok?
    ensures BuildPlan(key).value.positions != []
  {
  }

  function PlanSize(key: Key): nat {
    if BuildPlan(key).Ok? then BuildPlan(key).value.size else 0
  }

  function TotalSize(order: seq<Key>): nat {
    if order == [] then 0 else PlanSize(order[0]) + TotalSize(order[1..])
  }

  predicate Honest(key: Key, plan: Plan) {
    BuildPlan(key) == Ok(plan)
  }

  /** The order lists each stored key once. */
  ghost predicate Linked(c: Cache) {
    Distinct(c.order) && Elements(c.order) == c.plans.Keys
  }

  /** Stored plans are what their keys determine, and the byte total is theirs. */
  ghost predicate Consistent(c: Cache) {
    && Linked(c)
    && (forall k :: k in c.plans ==> Honest(k, c.plans[k]))
    && c.bytes == TotalSize(c.order)
  }

  ghost predicate WithinBudget(c: Cache) {
    |c.order| <= c.maxEntries && c.bytes <= c.maxBytes
  }

  lemma PopKeepsLinked(c: Cache)
    requires Linked(c) && c.order != []
    ensures c.order[0] in c.plans && Linked(PopOldest(c))
  {
    var oldest, rest := c.order[0], c.order[1..];
    assert c.order == [oldest] + rest && Elements(c.order) == {oldest} + Elements(rest);
    assert oldest in Elements(c.order) && oldest !in Elements(rest);
  }

  lemma PopKeepsConsistent(c: Cache)
    requires Consistent(c) && c.order != []
    ensures c.order[0] in c.plans && Consistent(PopOldest(c))
  {
    hide BuildPlan;
    PopKeepsLinked(c);
    assert Honest(c.order[0], c.plans[c.order[0]]);
  }

  // Without.

  lemma {:induction false} WithoutFacts(order: seq<Key>, key: Key)
    requires Distinct(order)
    ensures Distinct(Without(order, key)) && Elements(Without(order, key)) == Elements(order) - {key}
    ensures key in order ==> |order| == |Without(order, key)| + 1
    ensures key !in order ==> Without(order, key) == order
  {
    if order != [] {
      var rest := order[1..];
      assert order == [order[0]] + rest && Elements(order) == {order[0]} + Elements(rest);
      assert order[0] !in Elements(rest);
      if order[0] != key {
        WithoutFacts(rest, key);
        var w := Without(rest, key);
        assert Without(order, key) == [order[0]] + w && Elements([order[0]] + w) == {order[0]} + Elements(w);
        assert order[0] !in w by { assert order[0] !in Elements(w); }
      }
    }
  }

  lemma {:induction false} WithoutSize(order: seq<Key>, key: Key)
    requires key in order
    ensures TotalSize(order) == TotalSize(Without(order, key)) + PlanSize(key)
  {
    if order[0] != key {
      WithoutSize(order[1..], key);
      assert Without(order, key)[1..] == Without(order[1..], key);
    }
  }

  lemma {:induction false} TotalSizeSnoc(order: seq<Key>, key: Key)
    ensures TotalSize(order + [key]) == TotalSize(order) + PlanSize(key)
  {
    if order != [] {
      assert (order + [key])[1..] == order[1..] + [key];
      TotalSizeSnoc(order[1..], key);
    } else {
      assert order + [key] == [key];
    }
  }

  // Budgets and consistency.

  lemma DropOneMore(order: seq<Key>, k: nat)
    requires 0 < k <= |order|
    ensures order[1..][k - 1..] == order[k..]
  {
  }

  /** Eviction stops, drops only the oldest entries, and stops with room for one more. */
  lemma {:induction false} EvictedFacts(c: Cache, size: nat)
    requires Linked(c)
    ensures var e := Evicted(c, size);
            && Linked(e) && !Crowded(e, size)
            && |e.order| <= |c.order| && e.order == c.order[|c.order| - |e.order|..]
            && e == c.(order := e.order, plans := e.plans, bytes := e.bytes,
                       evictions := c.evictions + (|c.order| - |e.order|))
    decreases |c.order|
  {
    if Crowded(c, size) {
      var d := PopOldest(c);
      PopKeepsLinked(c);
      EvictedFacts(d, size);
      assert Evicted(c, size) == Evicted(d, size);
      DropOneMore(c.order, |c.order| - |Evicted(d, size).order|);
    }
  }

  lemma {:induction false} EvictedStaysConsistent(c: Cache, size: nat)
    requires Consistent(c)
    ensures Consistent(Evicted(c, size)) && Evicted(c, size).bytes <= c.bytes
    decreases |c.order|
  {
    if Crowded(c, size) {
      PopKeepsConsistent(c);
      EvictedStaysConsistent(PopOldest(c), size);
    }
  }

  /** The m most recently used entries leave no room for another of the given size. */
  predicate NoRoom(c: Cache, size: nat, m: nat)
    requires m <= |c.order|
  {
    m >= c.maxEntries || TotalSize(c.order[|c.order| - m..]) + size > c.maxBytes
  }

  lemma CrowdedNoRoom(c: Cache, size: nat)
    requires c.bytes == TotalSize(c.order) && Crowded(c, size)
    ensures NoRoom(c, size, |c.order|)
  {
    assert c.order[0..] == c.order;
  }

  lemma PopNoRoom(c: Cache, size: nat, m: nat)
    requires m < |c.order| && c.order[0] in c.plans && NoRoom(PopOldest(c), size, m)
    ensures NoRoom(c, size, m)
  {
    DropOneMore(c.order, |c.order| - m);
  }

  /** No entry goes needlessly: keeping any more of them would not have left room. */
  lemma {:induction false} EvictionIsMinimal(c: Cache, size: nat, m: nat)
    requires Consistent(c) && |Evicted(c, size).order| < m <= |c.order|
    ensures NoRoom(c, size, m)
    decreases |c.order|
  {
    assert Crowded(c, size);
    if m == |c.order| {
      CrowdedNoRoom(c, size);
    } else {
      PopKeepsConsistent(c);
      EvictionIsMinimal(PopOldest(c), size, m);
      PopNoRoom(c, size, m);
    }
  }

  lemma EvictedFits(c: Cache, size: nat)
    requires Consistent(c) && WithinBudget(c) && c.maxEntries > 0 && size <= c.maxBytes
    ensures var e := Evicted(c, size); |e.order| < c.maxEntries && e.bytes + size <= c.maxBytes
  {
    EvictedFacts(c, size);
    EvictedStaysConsistent(c, size);
  }

  lemma AppendKeepsConsistent(room: Cache, key: Key, plan: Plan)
    requires Consistent(room) && key !in room.order && Honest(key, plan)
    ensures Consistent(room.(order := room.order + [key], plans := room.plans[key := plan],
                             bytes := room.bytes + plan.size))
  {
    hide BuildPlan;
    TotalSizeSnoc(room.order, key);
    assert PlanSize(key) == plan.size;
    assert Elements(room.order + [key]) == room.plans.Keys + {key};
  }

  lemma StoredFacts(c: Cache, key: Key, plan: Plan)
    requires Consistent(c) && WithinBudget(c) && key !in c.plans && Honest(key, plan)
    ensures Consistent(Stored(c, key, plan)) && WithinBudget(Stored(c, key, plan))
  {
    hide BuildPlan;
    if c.maxEntries != 0 && plan.size <= c.maxBytes {
      var room := Evicted(c, plan.size);
      EvictedFacts(c, plan.size);
      EvictedStaysConsistent(c, plan.size);
      EvictedFits(c, plan.size);
      assert key !in room.order by {
        assert key !in Elements(c.order);
        assert Elements(room.order) <= Elements(c.order);
      }
      AppendKeepsConsistent(room, key, plan);
    }
  }

  lemma HitLinked(order: seq<Key>, key: Key, keys: set<Key>)
    requires Distinct(order) && Elements(order) == keys && key in keys
    ensures var after := Without(order, key) + [key];
            Distinct(after) && Elements(after) == keys && |after| == |order|
  {
    assert key in Elements(order);
    WithoutFacts(order, key);
    var w := Without(order, key);
    assert key !in w by { assert key !in Elements(w); }
    assert Elements(w + [key]) == Elements(w) + {key};
  }

  lemma HitSize(order: seq<Key>, key: Key)
    requires key in order
    ensures TotalSize(Without(order, key) + [key]) == TotalSize(order)
  {
    WithoutSize(order, key);
    TotalSizeSnoc(Without(order, key), key);
  }

  lemma HitFacts(c: Cache, key: Key)
    requires Consistent(c) && key in c.plans
    ensures Consistent(c.(order := Without(c.order, key) + [key])) && |Without(c.order, key) + [key]| == |c.order|
  {
    hide BuildPlan;
    assert key in Elements(c.order);
    HitLinked(c.order, key, c.plans.Keys);
    HitSize(c.order, key);
  }

  /** Storing touches no limit, binding, hit or miss counter. */
  lemma StoredLeavesRest(c: Cache, key: Key, plan: Plan)
    requires Linked(c)
    ensures var after := Stored(c, key, plan); SameRest(c, after) && after.hits == c.hits && after.misses == c.misses
  {
    EvictedFacts(c, plan.size);
  }

  predicate SameRest(c: Cache, after: Cache) {
    after.maxEntries == c.maxEntries && after.maxBytes == c.maxBytes && after.source == c.source
  }

  lemma FetchKeeps(c: Cache, key: Key)
    requires Consistent(c) && WithinBudget(c)
    ensures var after := Fetch(c, key).0;
            Consistent(after) && WithinBudget(after) && SameRest(c, after)
            && after.hits + after.misses == c.hits + c.misses + 1
  {
    hide BuildPlan;
    if key in c.plans {
      HitFacts(c, key);
    } else if BuildPlan(key).Ok? {
      var missed := c.(misses := c.misses + 1);
      StoredFacts(missed, key, BuildPlan(key).value);
      StoredLeavesRest(missed, key, BuildPlan(key).value);
    }
  }

  /** Every call keeps the plans honest and both budgets, and is counted as one hit or one miss. */
  lemma CallKeeps(c: Cache, draw: Draw, engine: Engine, rng: Rng, key: Key)
    requires Consistent(c) && WithinBudget(c)
    ensures var after := CallResult(c, draw, engine, rng, key).0;
            && Consistent(after) && WithinBudget(after)
            && after.maxEntries == c.maxEntries && after.maxBytes == c.maxBytes
            && after.hits + after.misses == c.hits + c.misses + 1
            && after.source == Some(engine.snapshot)
  {
    FetchKeeps(Bound(c, engine.snapshot), key);
  }

  // Invisibility.

  /** Recomputing the plan every time. */
  function Reference(draw: Draw, engine: Engine, rng: Rng, key: Key): (Rng, Outcome) {
    if BuildPlan(key).Ok? then BuiltPlanNonempty(key); Answer(draw, engine, rng, BuildPlan(key))
    else Answer(draw, engine, rng, BuildPlan(key))
  }

  /** Whatever the cache holds, one call answers, raises and draws as if it held nothing. */
  lemma CallIsInvisible(c: Cache, draw: Draw, engine: Engine, rng: Rng, key: Key)
    requires Consistent(c)
    ensures (CallResult(c, draw, engine, rng, key).1, CallResult(c, draw, engine, rng, key).2) ==
              Reference(draw, engine, rng, key)
  {
    FetchIsBuild(Bound(c, engine.snapshot), key);
  }

  datatype Op = Call(engine: Engine, key: Key) | Clear

  function Run(c: Cache, draw: Draw, rng: Rng, ops: seq<Op>): (Cache, Rng, seq<Outcome>)
    requires Consistent(c) && WithinBudget(c)
    ensures Consistent(Run(c, draw, rng, ops).0) && WithinBudget(Run(c, draw, rng, ops).0)
    decreases |ops|
  {
    if ops == [] then (c, rng, [])
    else match ops[0]
      case Clear => Run(Cleared(c), draw, rng, ops[1..])
      case Call(engine, key) =>
        CallKeeps(c, draw, engine, rng, key);
        var (c2, rng2, outcome) := CallResult(c, draw, engine, rng, key);
        var (c3, rng3, outcomes) := Run(c2, draw, rng2, ops[1..]);
        (c3, rng3, [outcome] + outcomes)
  }

  /** Over any run of calls, rebindings and clears, caches of any two capacities are indistinguishable. */
  lemma {:induction false} RunIsInvisible(c: Cache, d: Cache, draw: Draw, rng: Rng, ops: seq<Op>)
    requires Consistent(c) && WithinBudget(c) && Consistent(d) && WithinBudget(d)
    ensures Run(c, draw, rng, ops).1 == Run(d, draw, rng, ops).1
    ensures Run(c, draw, rng, ops).2 == Run(d, draw, rng, ops).2
    decreases |ops|
  {
    if ops != [] {
      match ops[0]
      case Clear => RunIsInvisible(Cleared(c), Cleared(d), draw, rng, ops[1..]);
      case Call(engine, key) =>
        CallKeeps(c, draw, engine, rng, key);
        CallKeeps(d, draw, engine, rng, key);
        CallIsInvisible(c, draw, engine, rng, key);
        CallIsInvisible(d, draw, engine, rng, key);
        RunIsInvisible(CallResult(c, draw, engine, rng, key).0, CallResult(d, draw, engine, rng, key).0, draw,
                       Reference(draw, engine, rng, key).0, ops[1..]);
    }
  }

  /** In particular a cache of any capacity against one that never stores: same positions, same errors, same draws. */
  lemma CacheIsInvisible(maxEntries: nat, maxBytes: nat, draw: Draw, rng: Rng, ops: seq<Op>)
    ensures Run(Empty(maxEntries, maxBytes), draw, rng, ops).1 == Run(Empty(0, maxBytes), draw, rng, ops).1
    ensures Run(Empty(maxEntries, maxBytes), draw, rng, ops).2 == Run(Empty(0, maxBytes), draw, rng, ops).2
    ensures Run(Empty(0, maxBytes), draw, rng, ops).0.order == []
  {
    RunIsInvisible(Empty(maxEntries, maxBytes), Empty(0, maxBytes), draw, rng, ops);
    RunKeepsCapacity(Empty(0, maxBytes), draw, rng, ops);
  }

  lemma {:induction false} RunKeepsCapacity(c: Cache, draw: Draw, rng: Rng, ops: seq<Op>)
    requires Consistent(c) && WithinBudget(c)
    ensures Run(c, draw, rng, ops).0.maxEntries == c.maxEntries && Run(c, draw, rng, ops).0.maxBytes == c.maxBytes
    ensures Run(c, draw, rng, ops).0.hits + Run(c, draw, rng, ops).0.misses ==
              c.hits + c.misses + |Run(c, draw, rng, ops).2|
    decreases |ops|
  {
    if ops != [] {
      match ops[0]
      case Clear => RunKeepsCapacity(Cleared(c), draw, rng, ops[1..]);
      case Call(engine, key) =>
        CallKeeps(c, draw, engine, rng, key);
        RunKeepsCapacity(CallResult(c, draw, engine, rng, key).0, draw, CallResult(c, draw, engine, rng, key).1,
                         ops[1..]);
    }
  }

  // Recency.

  /** The distinct keys of a use log, least recently used first. */
  function Recency(log: seq<Key>): seq<Key> {
    if log == [] then [] else Without(Recency(log[..|log| - 1]), log[|log| - 1]) + [log[|log| - 1]]
  }

  /** A fetch uses its key when it hits, or when the plan it builds is admitted. */
  predicate UsedWith(c: Cache, key: Key, built: Result<Plan, Failure>) {
    key in c.plans || (built.Ok? && c.maxEntries != 0 && built.value.size <= c.maxBytes)
  }

  predicate Used(c: Cache, key: Key) {
    UsedWith(c, key, BuildPlan(key))
  }

  /** The uses since the last clear or rebinding. */
  function Uses(c: Cache, log: seq<Key>, op: Op): seq<Key> {
    match op
    case Clear => []
    case Call(engine, key) =>
      var kept := if c.source == Some(engine.snapshot) then log else [];
      if Used(Bound(c, engine.snapshot), key) then kept + [key] else kept
  }

  predicate IsSuffix(order: seq<Key>, all: seq<Key>) {
    |order| <= |all| && all[|all| - |order|..] == order
  }

  lemma {:induction false} RecencyFacts(log: seq<Key>)
    ensures Distinct(Recency(log)) && Elements(Recency(log)) == Elements(log)
  {
    if log != [] {
      var init, last := log[..|log| - 1], log[|log| - 1];
      RecencyFacts(init);
      WithoutFacts(Recency(init), last);
      assert log == init + [last];
      var w := Without(Recency(init), last);
      assert last !in w by { assert last !in Elements(w); }
      assert Elements(Recency(log)) == Elements(w) + {last};
    }
  }

  /**
   * Removing a key from a duplicate-free sequence leaves a suffix that lacks it a suffix, and one that has it without
   * it.
   */
  lemma {:induction false} SuffixWithout(order: seq<Key>, all: seq<Key>, key: Key)
    requires Distinct(all) && IsSuffix(order, all)
    ensures IsSuffix(Without(order, key), Without(all, key))
  {
    if |order| == |all| {
      assert order == all;
    } else {
      assert all == [all[0]] + all[1..];
      assert IsSuffix(order, all[1..]) by { assert all[1..][|all| - 1 - |order|..] == all[|all| - |order|..]; }
      assert forall x :: x in order ==> x in all[1..];
      if all[0] == key {
        assert key !in order;
        SuffixDistinct(order, all);
        WithoutFacts(order, key);
      } else {
        SuffixWithout(order, all[1..], key);
        SuffixCons(Without(order, key), Without(all[1..], key), all[0]);
      }
    }
  }

  lemma SuffixDistinct(order: seq<Key>, all: seq<Key>)
    requires Distinct(all) && IsSuffix(order, all)
    ensures Distinct(order)
  {
    assert forall i :: 0 <= i < |order| ==> order[i] == all[|all| - |order| + i];
  }

  lemma SuffixCons(order: seq<Key>, all: seq<Key>, x: Key)
    requires IsSuffix(order, all)
    ensures IsSuffix(order, [x] + all)
  {
    assert ([x] + all)[|all| + 1 - |order|..] == all[|all| - |order|..];
  }

  lemma SuffixSnoc(order: seq<Key>, all: seq<Key>, key: Key)
    requires IsSuffix(order, all)
    ensures IsSuffix(order + [key], all + [key])
  {
    assert (all + [key])[|all| - |order|..] == all[|all| - |order|..] + [key];
  }

  lemma RecencySnoc(log: seq<Key>, key: Key)
    ensures Recency(log + [key]) == Without(Recency(log), key) + [key]
  {
    assert (log + [key])[..|log|] == log;
  }

  function After(c: Cache, draw: Draw, rng: Rng, op: Op): Cache
    requires Consistent(c)
  {
    if op.Clear? then Cleared(c) else CallResult(c, draw, op.engine, rng, op.key).0
  }

  lemma HitStaysSuffix(order: seq<Key>, log: seq<Key>, key: Key)
    requires IsSuffix(order, Recency(log))
    ensures IsSuffix(Without(order, key) + [key], Recency(log + [key]))
  {
    RecencyFacts(log);
    RecencySnoc(log, key);
    SuffixWithout(order, Recency(log), key);
    SuffixSnoc(Without(order, key), Without(Recency(log), key), key);
  }

  lemma AdmissionStaysSuffix(room: seq<Key>, order: seq<Key>, log: seq<Key>, key: Key)
    requires IsSuffix(order, Recency(log)) && IsSuffix(room, order) && key !in order
    ensures IsSuffix(room + [key], Recency(log + [key]))
  {
    RecencyFacts(log);
    SuffixOfSuffix(room, order, Recency(log));
    SuffixDistinct(room, Recency(log));
    assert key !in room by { assert forall i :: 0 <= i < |room| ==> room[i] == order[|order| - |room| + i]; }
    WithoutFacts(room, key);
    HitStaysSuffix(room, log, key);
  }

  /** An admitted key is appended after evictions from the front. */
  lemma StoredOrder(c: Cache, key: Key, plan: Plan) returns (room: seq<Key>)
    requires Linked(c) && c.maxEntries != 0 && plan.size <= c.maxBytes
    ensures Stored(c, key, plan).order == room + [key] && IsSuffix(room, c.order)
  {
    EvictedFacts(c, plan.size);
    room := Evicted(c, plan.size).order;
  }

  lemma AdmittedStaysSuffix(c: Cache, log: seq<Key>, key: Key, plan: Plan)
    requires Linked(c) && IsSuffix(c.order, Recency(log)) && key !in c.plans
    requires c.maxEntries != 0 && plan.size <= c.maxBytes
    ensures IsSuffix(Stored(c, key, plan).order, Recency(log + [key]))
  {
    var room := StoredOrder(c, key, plan);
    assert key !in c.order by { assert key !in Elements(c.order); }
    AdmissionStaysSuffix(room, c.order, log, key);
  }

  lemma FetchWithStaysSuffix(c: Cache, log: seq<Key>, key: Key, built: Result<Plan, Failure>)
    requires Linked(c) && IsSuffix(c.order, Recency(log))
    ensures IsSuffix(FetchWith(c, key, built).0.order, Recency(if UsedWith(c, key, built) then log + [key] else log))
  {
    hide BuildPlan;
    if key in c.plans {
      HitStaysSuffix(c.order, log, key);
    } else if UsedWith(c, key, built) {
      AdmittedStaysSuffix(c.(misses := c.misses + 1), log, key, built.value);
    }
  }

  /** Fetching keeps the retained keys a suffix of the recency order of the uses. */
  lemma FetchStaysSuffix(c: Cache, log: seq<Key>, key: Key)
    requires Linked(c) && IsSuffix(c.order, Recency(log))
    ensures IsSuffix(Fetch(c, key).0.order, Recency(if Used(c, key) then log + [key] else log))
  {
    FetchWithStaysSuffix(c, log, key, BuildPlan(key));
  }

  /** The retained keys stay a suffix of the recency order of the uses since the last clear. */
  lemma RetainedAreRecent(c: Cache, log: seq<Key>, draw: Draw, rng: Rng, op: Op)
    requires Consistent(c) && IsSuffix(c.order, Recency(log))
    ensures IsSuffix(After(c, draw, rng, op).order, Recency(Uses(c, log, op)))
  {
    hide BuildPlan;
    if op.Call? {
      var kept := if c.source == Some(op.engine.snapshot) then log else [];
      FetchStaysSuffix(Bound(c, op.engine.snapshot), kept, op.key);
    }
  }

  /** The uses a whole run leaves in the log. */
  function RunUses(c: Cache, log: seq<Key>, draw: Draw, rng: Rng, ops: seq<Op>): seq<Key>
    requires Consistent(c) && WithinBudget(c)
    decreases |ops|
  {
    if ops == [] then log
    else if ops[0].Clear? then RunUses(Cleared(c), Uses(c, log, ops[0]), draw, rng, ops[1..])
    else
      CallKeeps(c, draw, ops[0].engine, rng, ops[0].key);
      var (after, rng2, _) := CallResult(c, draw, ops[0].engine, rng, ops[0].key);
      RunUses(after, Uses(c, log, ops[0]), draw, rng2, ops[1..])
  }

  /** At the end of every run the retained keys are the most recently used ones, in order. */
  lemma {:induction false} RunRetainsRecent(c: Cache, log: seq<Key>, draw: Draw, rng: Rng, ops: seq<Op>)
    requires Consistent(c) && WithinBudget(c) && IsSuffix(c.order, Recency(log))
    ensures IsSuffix(Run(c, draw, rng, ops).0.order, Recency(RunUses(c, log, draw, rng, ops)))
    decreases |ops|
  {
    if ops != [] {
      RetainedAreRecent(c, log, draw, rng, ops[0]);
      if ops[0].Clear? {
        RunRetainsRecent(Cleared(c), Uses(c, log, ops[0]), draw, rng, ops[1..]);
      } else {
        CallKeeps(c, draw, ops[0].engine, rng, ops[0].key);
        var (after, rng2, _) := CallResult(c, draw, ops[0].engine, rng, ops[0].key);
        RunRetainsRecent(after, Uses(c, log, ops[0]), draw, rng2, ops[1..]);
      }
    }
  }

  lemma SuffixOfSuffix(a: seq<Key>, b: seq<Key>, c: seq<Key>)
    requires IsSuffix(a, b) && IsSuffix(b, c)
    ensures IsSuffix(a, c)
  {
    assert c[|c| - |b|..][|b| - |a|..] == c[|c| - |a|..];
  }

  /** Every use of x comes before the last use of y. */
  ghost predicate LastUsedBefore(log: seq<Key>, x: Key, y: Key) {
    exists n :: 0 <= n < |log| && log[n] == y && forall m :: 0 <= m < |log| && log[m] == x ==> m < n
  }

  /** Recency orders keys by last use. */
  lemma {:induction false} RecencyByLastUse(log: seq<Key>, i: nat, j: nat)
    requires i < j < |Recency(log)|
    ensures LastUsedBefore(log, Recency(log)[i], Recency(log)[j])
  {
    var init, last := log[..|log| - 1], log[|log| - 1];
    var w, r := Without(Recency(init), last), Recency(log);
    assert r == w + [last];
    RecencyFacts(log);
    assert r[i] != r[|r| - 1];
    if j == |r| - 1 {
      assert log[|log| - 1] == r[j];
    } else {
      RecencyFacts(init);
      var i2, j2 := WithoutOrder(Recency(init), last, i, j);
      RecencyByLastUse(init, i2, j2);
      StillBefore(init, last, r[i], r[j]);
      assert init + [last] == log;
    }
  }

  lemma StillBefore(init: seq<Key>, last: Key, x: Key, y: Key)
    requires LastUsedBefore(init, x, y) && x != last
    ensures LastUsedBefore(init + [last], x, y)
  {
    var n :| 0 <= n < |init| && init[n] == y && forall m :: 0 <= m < |init| && init[m] == x ==> m < n;
    assert (init + [last])[n] == y;
  }

  lemma {:induction false} WithoutOrder(order: seq<Key>, key: Key, i: nat, j: nat) returns (i2: nat, j2: nat)
    requires i < j < |Without(order, key)|
    ensures i2 < j2 < |order| && order[i2] == Without(order, key)[i] && order[j2] == Without(order, key)[j]
  {
    if order[0] == key {
      i2, j2 := i + 1, j + 1;
    } else if i == 0 {
      i2 := 0;
      j2 := WithoutIndex(order[1..], key, j - 1);
      j2 := j2 + 1;
    } else {
      i2, j2 := WithoutOrder(order[1..], key, i - 1, j - 1);
      i2, j2 := i2 + 1, j2 + 1;
    }
  }

  lemma {:induction false} WithoutIndex(order: seq<Key>, key: Key, j: nat) returns (j2: nat)
    requires j < |Without(order, key)|
    ensures j2 < |order| && order[j2] == Without(order, key)[j]
  {
    if order[0] == key {
      j2 := j + 1;
    } else if j == 0 {
      j2 := 0;
    } else {
      j2 := WithoutIndex(order[1..], key, j - 1);
      j2 := j2 + 1;
    }
  }

  /** A key used since the last clear but no longer retained was last used before every retained key. */
  lemma EvictedWasOlder(retained: seq<Key>, log: seq<Key>, gone: Key, kept: Key)
    requires IsSuffix(retained, Recency(log))
    requires gone in log && gone !in retained && kept in retained
    ensures LastUsedBefore(log, gone, kept)
  {
    RecencyFacts(log);
    var i, j := SuffixIndices(retained, Recency(log), gone, kept) by { assert gone in Elements(Recency(log)); }
    RecencyByLastUse(log, i, j);
  }

  /**
   * At the end of any run of a new cache, a key used since the last clear and evicted was last used before every
   * retained key.
   */
  lemma RunEvictedWasOlder(maxEntries: nat, maxBytes: nat, draw: Draw, rng: Rng, ops: seq<Op>, gone: Key, kept: Key)
    requires var c := Empty(maxEntries, maxBytes);
             var retained := Run(c, draw, rng, ops).0.order;
             gone in RunUses(c, [], draw, rng, ops) && gone !in retained && kept in retained
    ensures LastUsedBefore(RunUses(Empty(maxEntries, maxBytes), [], draw, rng, ops), gone, kept)
  {
    hide Run, RunUses, LastUsedBefore;
    var c := Empty(maxEntries, maxBytes);
    assert IsSuffix([], Recency([]));
    RunRetainsRecent(c, [], draw, rng, ops);
    EvictedWasOlder(Run(c, draw, rng, ops).0.order, RunUses(c, [], draw, rng, ops), gone, kept);
  }

  lemma SuffixIndices(retained: seq<Key>, all: seq<Key>, gone: Key, kept: Key) returns (i: nat, j: nat)
    requires IsSuffix(retained, all) && gone in all && gone !in retained && kept in retained
    ensures i < j < |all| && all[i] == gone && all[j] == kept
  {
    var older := |all| - |retained|;
    i :| i < |all| && all[i] == gone;
    var k: nat :| k < |retained| && retained[k] == kept;
    j := older + k;
    assert all[older..][k] == all[j];
    forall m | older <= m < |all| ensures all[m] in retained { assert all[m] == all[older..][m - older]; }
  }

  // One call, without the functions that compute it.

  /** What the caller sees: the position the plan of the key gives, after one draw if it has several, or the error. */
  ghost predicate Answers(draw: Draw, engine: Engine, rng: Rng, key: Key, rng2: Rng, outcome: Outcome) {
    if plan :| PlanFor(key, plan) then
      if |plan.positions| == 1 then
        outcome == Chosen(plan.positions[0]) && rng2 == rng
      else
        var (index, after) := draw(engine, rng, |plan.positions|, plan.probabilities);
        outcome == Chosen(plan.positions[index]) && rng2 == after
    else outcome == Raised(if key.weights.None? then NoCandidates else BadWeights) && rng2 == rng
  }

  ghost predicate Fits(c: Cache, key: Key) {
    c.maxEntries != 0 && exists plan :: PlanFor(key, plan) && plan.size <= c.maxBytes
  }

  /**
   * What the cache remembers. Another snapshot drops every entry first. A hit moves its key to the end. A miss whose
   * plan fits puts its key at the end and evicts from the front; one that does not fit is counted and changes nothing.
   */
  ghost predicate Remembers(c: Cache, after: Cache, snapshot: int, key: Key) {
    var same := c.source == Some(snapshot);
    var kept := if same then c.order else [];
    && after.source == Some(snapshot) && after.maxEntries == c.maxEntries && after.maxBytes == c.maxBytes
    && if same && key in c.plans then
         && after == c.(hits := c.hits + 1, order := after.order)
         && exists i :: 0 <= i < |c.order| && c.order[i] == key
                        && after.order == c.order[..i] + c.order[i + 1..] + [key]
       else
         && after.hits == c.hits && after.misses == c.misses + 1
         && if Fits(c, key) then
              && after.order != [] && after.order[|after.order| - 1] == key && after.bypassed == c.bypassed
              && IsSuffix(after.order[..|after.order| - 1], kept)
              && after.evictions == c.evictions + (|kept| + 1 - |after.order|)
            else
              && after.order == kept && after.evictions == c.evictions
              && after.bypassed == c.bypassed + if exists plan :: PlanFor(key, plan) then 1 else 0
  }

  lemma PlanForIsBuilt(key: Key)
    ensures forall plan :: PlanFor(key, plan) <==> BuildPlan(key) == Ok(plan)
    ensures BuildPlan(key).Err? ==> BuildPlan(key).error == if key.weights.None? then NoCandidates else BadWeights
  {
    PlanMeaning(key);
    forall plan ensures PlanFor(key, plan) <==> BuildPlan(key) == Ok(plan) {
      hide BuildPlan;
      if PlanFor(key, plan) {
        PlanNeedsUsable(key, plan);
        PlanIsUnique(key, plan, BuildPlan(key).value);
      }
    }
  }

  lemma PlanNeedsUsable(key: Key, plan: Plan)
    requires PlanFor(key, plan)
    ensures BuildPlan(key).Ok?
  {
    PlanMeaning(key);
    hide BuildPlan, Share;
    assert plan.positions[0] in plan.positions;
  }

  lemma AnswerMeaning(draw: Draw, engine: Engine, rng: Rng, key: Key)
    ensures Answers(draw, engine, rng, key, Reference(draw, engine, rng, key).0, Reference(draw, engine, rng, key).1)
  {
    PlanForIsBuilt(key);
    hide BuildPlan, PlanFor;
  }

  /** The position answered has a positive weight, and there is an answer exactly when the key can have a plan. */
  lemma AnswerPosition(draw: Draw, engine: Engine, rng: Rng, key: Key)
    ensures var outcome := Reference(draw, engine, rng, key).1;
            && (outcome.Chosen? ==>
                  && outcome.position < |key.candidates|
                  && (key.weights.Some? ==> |key.weights.value| == |key.candidates|
                                            && key.weights.value[outcome.position] > 0.0))
            && (outcome.Raised? <==>
                  match key.weights
                  case None => key.candidates == []
                  case Some(ws) => |ws| != |key.candidates| || (exists i :: 0 <= i < |ws| && ws[i] < 0.0)
                                   || (forall i :: 0 <= i < |ws| ==> ws[i] <= 0.0))
  {
    PlanMeaning(key);
    if BuildPlan(key).Ok? {
      var plan := BuildPlan(key).value;
      hide BuildPlan, Share;
      BuiltPlanNonempty(key);
      var position := Pick(draw, engine, rng, plan).0;
      assert position in plan.positions;
    }
  }

  lemma {:induction false} WithoutSplits(order: seq<Key>, key: Key) returns (i: nat)
    requires key in order
    ensures i < |order| && order[i] == key && Without(order, key) == order[..i] + order[i + 1..]
  {
    if order[0] == key {
      i := 0;
    } else {
      i := WithoutSplits(order[1..], key);
      i := i + 1;
    }
  }

  lemma HitRemembers(c: Cache, snapshot: int, key: Key)
    requires Linked(c) && c.source == Some(snapshot) && key in c.plans
    ensures Remembers(c, Fetch(c, key).0, snapshot, key)
  {
    hide BuildPlan, PlanFor;
    assert key in Elements(c.order);
    var i := WithoutSplits(c.order, key);
    assert Without(c.order, key) + [key] == c.order[..i] + c.order[i + 1..] + [key];
  }

  lemma MissRemembers(c: Cache, snapshot: int, key: Key, built: Result<Plan, Failure>)
    requires Linked(c) && key !in c.plans
    ensures var after := FetchWith(c, key, built).0;
            && after.hits == c.hits && after.misses == c.misses + 1 && SameRest(c, after)
            && if built.Ok? && c.maxEntries != 0 && built.value.size <= c.maxBytes then
                 && after.order != [] && after.order[|after.order| - 1] == key && after.bypassed == c.bypassed
                 && IsSuffix(after.order[..|after.order| - 1], c.order)
                 && after.evictions == c.evictions + (|c.order| + 1 - |after.order|)
               else
                 && after.order == c.order && after.evictions == c.evictions
                 && after.bypassed == c.bypassed + if built.Ok? then 1 else 0
  {
    if built.Ok? { EvictedFacts(c.(misses := c.misses + 1), built.value.size); }
  }

  lemma FitsIff(c: Cache, key: Key)
    ensures Fits(c, key) <==> BuildPlan(key).Ok? && c.maxEntries != 0 && BuildPlan(key).value.size <= c.maxBytes
    ensures (exists plan :: PlanFor(key, plan)) <==> BuildPlan(key).Ok?
  {
    PlanForIsBuilt(key);
    hide BuildPlan, PlanFor;
    if BuildPlan(key).Ok? { assert PlanFor(key, BuildPlan(key).value); }
  }

  lemma MissCallRemembers(c: Cache, snapshot: int, key: Key)
    requires Linked(c) && key !in Bound(c, snapshot).plans
    ensures Remembers(c, FetchWith(Bound(c, snapshot), key, BuildPlan(key)).0, snapshot, key)
  {
    FitsIff(c, key);
    hide BuildPlan, PlanFor, FetchWith, Fits, IsSuffix;
    MissRemembers(Bound(c, snapshot), snapshot, key, BuildPlan(key));
  }

  lemma CallRemembers(c: Cache, draw: Draw, engine: Engine, rng: Rng, key: Key)
    requires Consistent(c)
    ensures Remembers(c, CallResult(c, draw, engine, rng, key).0, engine.snapshot, key)
  {
    hide BuildPlan, Remembers, FetchWith;
    if key in Bound(c, engine.snapshot).plans {
      HitRemembers(c, engine.snapshot, key);
    } else {
      MissCallRemembers(c, engine.snapshot, key);
    }
  }

  // The object.

  class WalkTransitionCache {
    const maxEntries: nat
    const maxBytes: nat
    var order: seq<Key>
    var plans: map<Key, Plan>
    var source: Option<int>
    var bytes: int
    var hits: nat
    var misses: nat
    var evictions: nat
    var bypassed: nat

    constructor (maxEntries: nat, maxBytes: nat)
      ensures this.maxEntries == maxEntries && this.maxBytes == maxBytes
      ensures order == [] && plans == map[] && source == None && bytes == 0
      ensures hits == misses == evictions == bypassed == 0
      ensures View() == Empty(maxEntries, maxBytes)
    {
      this.maxEntries, this.maxBytes := maxEntries, maxBytes;
      order, plans, source := [], map[], None;
      bytes, hits, misses, evictions, bypassed := 0, 0, 0, 0, 0;
    }

    function View(): Cache
      reads this
    {
      Cache(maxEntries, maxBytes, order, plans, source, bytes, hits, misses, evictions, bypassed)
    }

    /** Release entries and binding; the counters stay. */
    method Clear()
      modifies this
      ensures order == [] && plans == map[] && source == None && bytes == 0
      ensures hits == old(hits) && misses == old(misses) && evictions == old(evictions) && bypassed == old(bypassed)
      ensures View() == Cleared(old(View()))
    {
      order, plans, source, bytes := [], map[], None, 0;
    }

    method MakeRoom(size: nat)
      requires Linked(View())
      modifies this
      ensures View() == Evicted(old(View()), size)
    {
      while order != [] && (|order| >= maxEntries || bytes + size > maxBytes)
        invariant Linked(View())
        invariant Evicted(View(), size) == Evicted(old(View()), size)
        decreases |order|
      {
        ghost var before := View();
        PopKeepsLinked(before);
        var oldest := order[0];
        var oldSize := plans[oldest].size;
        order, plans := order[1..], plans - {oldest};
        bytes := bytes - oldSize;
        evictions := evictions + 1;
        assert View() == PopOldest(before);
      }
    }

    method Store(key: Key, plan: Plan)
      requires Linked(View())
      modifies this
      ensures View() == Stored(old(View()), key, plan)
    {
      if maxEntries != 0 && plan.size <= maxBytes {
        MakeRoom(plan.size);
        order, plans := order + [key], plans[key := plan];
        bytes := bytes + plan.size;
      } else {
        bypassed := bypassed + 1;
      }
    }

    method FetchPlan(key: Key) returns (plan: Result<Plan, Failure>)
      requires Linked(View())
      modifies this
      ensures (View(), plan) == Fetch(old(View()), key)
    {
      if key in plans {
        hits := hits + 1;
        order := Without(order, key) + [key];
        return Ok(plans[key]);
      }
      misses := misses + 1;
      assert View() == old(View()).(misses := old(misses) + 1);
      plan := BuildPlan(key);
      if plan.Ok? {
        Store(key, plan.value);
      }
    }

    method Choose(draw: Draw, engine: Engine, rng: Rng, candidates: seq<int>, weights: Option<seq<real>>)
        returns (rng2: Rng, outcome: Outcome)
      requires Consistent(View())
      modifies this
      ensures Answers(draw, engine, rng, Key(candidates, weights), rng2, outcome)
      ensures Remembers(old(View()), View(), engine.snapshot, Key(candidates, weights))
      ensures outcome.Chosen? ==> outcome.position < |candidates|
      ensures outcome.Chosen? && weights.Some? ==>
                |weights.value| == |candidates| && weights.value[outcome.position] > 0.0
      ensures outcome.Raised? <==>
                match weights
                case None => candidates == []
                case Some(ws) => |ws| != |candidates| || (exists i :: 0 <= i < |ws| && ws[i] < 0.0)
                                 || (forall i :: 0 <= i < |ws| ==> ws[i] <= 0.0)
      ensures (View(), rng2, outcome) == CallResult(old(View()), draw, engine, rng, Key(candidates, weights))
    {
      CallRemembers(View(), draw, engine, rng, Key(candidates, weights));
      CallIsInvisible(View(), draw, engine, rng, Key(candidates, weights));
      AnswerMeaning(draw, engine, rng, Key(candidates, weights));
      AnswerPosition(draw, engine, rng, Key(candidates, weights));
      hide Answers, Remembers, Reference;
      if source != Some(engine.snapshot) {
        Clear();
        source := Some(engine.snapshot);
      }
      assert View() == Bound(old(View()), engine.snapshot);
      FetchIsBuild(View(), Key(candidates, weights));
      var plan := FetchPlan(Key(candidates, weights));
      if plan.Err? {
        return rng, Raised(plan.error);
      }
      var positions := plan.value.positions;
      if |positions| == 1 {
        return rng, Chosen(positions[0]);
      }
      var (index, after) := draw(engine, rng, |positions|, plan.value.probabilities);
      return after, Chosen(positions[index]);
    }
  }
}
