/**
 Reservoir sampling of benchmarks/sampler.py and benchmarks/common/timing.py. The random
 generator is an explicit sequence of draws, the one made for stream element m ranging over
 0..m-1, so that "exactly k of n" is a count over all draw sequences.
 */
module Reservoir {
  import opened Common

  function Capacity(sampleSize: int): nat {
    if sampleSize < 0 then 0 else sampleSize
  }

  /** One draw per element past the first k, the draw for element m (counted from 1) below m. */
  predicate ValidDraws(k: nat, n: nat, draws: seq<nat>) {
    && |draws| == (if n <= k then 0 else n - k)
    && forall j :: 0 <= j < |draws| ==> draws[j] <= k + j
  }

  /** The stream positions the reservoir holds after n elements. */
  function Positions(k: nat, n: nat, draws: seq<nat>): (p: seq<nat>)
    requires ValidDraws(k, n, draws)
    ensures |p| == (if n <= k then n else k)
  {
    if n <= k then seq(n, i => i)
    else
      var prev, r := Positions(k, n - 1, draws[..n - 1 - k]), draws[n - 1 - k];
      if r < k then prev[r := n - 1] else prev
  }

  /**
   * The first k elements fill the reservoir in order; of those after, a draw below k puts the element in that place.
   */
  lemma PositionsMeaning(k: nat, n: nat, draws: seq<nat>)
    requires ValidDraws(k, n, draws)
    ensures n <= k ==> Positions(k, n, draws) == seq(n, i => i)
    ensures n > k ==>
              var (before, r) := (Positions(k, n - 1, draws[..n - 1 - k]), draws[n - 1 - k]);
              forall i :: 0 <= i < k ==> Positions(k, n, draws)[i] == if i == r then n - 1 else before[i]
  {
  }

  /** The reservoir never repeats a position and never invents one. */
  lemma {:induction false} PositionsDistinct(k: nat, n: nat, draws: seq<nat>)
    requires ValidDraws(k, n, draws)
    ensures Distinct(Positions(k, n, draws))
    ensures forall i :: 0 <= i < |Positions(k, n, draws)| ==> Positions(k, n, draws)[i] < n
  {
    if n > k {
      var prev := Positions(k, n - 1, draws[..n - 1 - k]);
      PositionsDistinct(k, n - 1, draws[..n - 1 - k]);
      assert forall i :: 0 <= i < |prev| ==> prev[i] < n - 1;
    }
  }

  /** The values a draw for element n can take. */
  ghost function Range(n: nat): set<nat> {
    if n == 0 then {} else Range(n - 1) + {n - 1}
  }

  lemma {:induction false} RangeBelow(n: nat)
    ensures forall r: nat :: r in Range(n) <==> r < n
    ensures |Range(n)| == n
  {
    if n > 0 {
      RangeBelow(n - 1);
      assert n - 1 !in Range(n - 1);
      assert forall r: nat :: r in Range(n) <==> r in Range(n - 1) || r == n - 1;
    }
  }

  function Snoc(d: seq<nat>, r: nat): (s: seq<nat>)
    ensures |s| == |d| + 1 && s[..|d|] == d && s[|d|] == r
  {
    d + [r]
  }

  /** Every draw sequence the generator can produce. */
  ghost function Draws(k: nat, n: nat): set<seq<nat>> {
    if n <= k then {[]} else Extend(Draws(k, n - 1), d => Range(n))
  }

  ghost function Extend(ds: set<seq<nat>>, choices: seq<nat> -> set<nat>): set<seq<nat>> {
    set d, r | d in ds && r in choices(d) :: Snoc(d, r)
  }

  lemma InExtend(ds: set<seq<nat>>, choices: seq<nat> -> set<nat>, d: seq<nat>, r: nat)
    ensures Snoc(d, r) in Extend(ds, choices) <==> d in ds && r in choices(d)
  {
    if Snoc(d, r) in Extend(ds, choices) {
      var e, q :| e in ds && q in choices(e) && Snoc(d, r) == Snoc(e, q);
      assert |d| + 1 == |Snoc(d, r)| == |e| + 1;
      assert d == Snoc(d, r)[..|d|] == Snoc(e, q)[..|e|] == e;
    }
  }

  lemma InDraws(k: nat, n: nat, d: seq<nat>, r: nat)
    requires n > k
    ensures Snoc(d, r) in Draws(k, n) <==> d in Draws(k, n - 1) && r < n
  {
    RangeBelow(n);
    InExtend(Draws(k, n - 1), d => Range(n), d, r);
  }

  lemma {:induction false} DrawsAreValid(k: nat, n: nat, d: seq<nat>)
    ensures d in Draws(k, n) <==> ValidDraws(k, n, d)
  {
    if n > k {
      if |d| == 0 {
        assert forall e: seq<nat>, q: nat :: d != Snoc(e, q);
      } else {
        var init, last := d[..|d| - 1], d[|d| - 1];
        assert d == Snoc(init, last);
        InDraws(k, n, init, last);
        DrawsAreValid(k, n - 1, init);
      }
    }
  }

  lemma {:induction false} ExtendOneCard(d: seq<nat>, rs: set<nat>)
    ensures |set r | r in rs :: Snoc(d, r)| == |rs|
  {
    if rs != {} {
      var x :| x in rs;
      ExtendOneCard(d, rs - {x});
      var smaller := set r | r in rs - {x} :: Snoc(d, r);
      assert (set r | r in rs :: Snoc(d, r)) == smaller + {Snoc(d, x)};
      assert forall r :: r in rs - {x} ==> Snoc(d, r)[|d|] != Snoc(d, x)[|d|];
    }
  }

  lemma {:induction false} ExtendCard(ds: set<seq<nat>>, choices: seq<nat> -> set<nat>, m: nat)
    requires forall d :: d in ds ==> |choices(d)| == m
    ensures |Extend(ds, choices)| == |ds| * m
  {
    if ds == {} {
      assert Extend(ds, choices) == {};
    } else {
      var d :| d in ds;
      ExtendCard(ds - {d}, choices, m);
      SplitOffCard(ds, choices, d);
      assert |ds| == |ds - {d}| + 1;
    }
  }

  lemma SplitOffCard(ds: set<seq<nat>>, choices: seq<nat> -> set<nat>, d: seq<nat>)
    requires d in ds
    ensures |Extend(ds, choices)| == |Extend(ds - {d}, choices)| + |choices(d)|
  {
    SplitOff(ds, choices, d);
    ExtendOneCard(d, choices(d));
  }

  lemma SplitOff(ds: set<seq<nat>>, choices: seq<nat> -> set<nat>, d: seq<nat>)
    requires d in ds
    ensures Extend(ds, choices) == Extend(ds - {d}, choices) + (set r | r in choices(d) :: Snoc(d, r))
    ensures Extend(ds - {d}, choices) !! (set r | r in choices(d) :: Snoc(d, r))
  {
    forall r | r in choices(d) ensures Snoc(d, r) !in Extend(ds - {d}, choices) {
      InExtend(ds - {d}, choices, d, r);
    }
  }

  /** n (n - 1) ... (n - j + 1). */
  function Falling(n: int, j: nat): int
    decreases j
  {
    if j == 0 then 1 else n * Falling(n - 1, j - 1)
  }

  lemma FallingFirst(n: int, j: nat)
    ensures Falling(n, 0) == 1 && Falling(n, j + 1) == n * Falling(n - 1, j)
  {
  }

  lemma {:induction false} FallingLast(n: int, j: nat)
    ensures Falling(n, j + 1) == Falling(n, j) * (n - j)
    decreases j
  {
    if j > 0 {
      FallingLast(n - 1, j - 1);
      assert n * (Falling(n - 1, j - 1) * (n - j)) == (n * Falling(n - 1, j - 1)) * (n - j);
    }
  }

  /** The generator makes n! / k! different draw sequences. */
  lemma {:induction false} DrawsCard(k: nat, n: nat)
    requires k <= n
    ensures |Draws(k, n)| == Falling(n, n - k)
    decreases n, 1
  {
    if n == k {
      assert Draws(k, n) == {[]} && Falling(n, 0) == 1;
    } else {
      DrawsCardStep(k, n);
    }
  }

  lemma DrawsCardStep(k: nat, n: nat)
    requires k < n
    ensures |Draws(k, n)| == Falling(n, n - k)
    decreases n, 0
  {
    hide Falling, Draws;
    DrawsCard(k, n - 1);
    DrawsStep(k, n);
    FallingFirst(n, n - 1 - k);
    assert n - 1 - k + 1 == n - k;
  }

  lemma DrawsStep(k: nat, n: nat)
    requires n > k
    ensures |Draws(k, n)| == |Draws(k, n - 1)| * n
  {
    RangeBelow(n);
    ExtendCard(Draws(k, n - 1), d => Range(n), n);
  }

  /** The draw sequences after which every position of `wanted` is in the reservoir. */
  ghost function Including(wanted: set<nat>, k: nat, n: nat): set<seq<nat>> {
    set d | d in Draws(k, n) && ValidDraws(k, n, d) && wanted <= Elements(Positions(k, n, d))
  }

  /** The draws below `bound` that do not hit an index holding a wanted position. */
  ghost function Sparing(wanted: set<nat>, p: seq<nat>, bound: nat): set<nat> {
    set r | r in Range(bound) && !(r < |p| && p[r] in wanted)
  }

  lemma SparingWithout(wanted: set<nat>, p: seq<nat>, bound: nat, i: nat)
    requires Distinct(p) && i < |p| <= bound && p[i] in wanted
    ensures i in Sparing(wanted - {p[i]}, p, bound)
    ensures Sparing(wanted, p, bound) == Sparing(wanted - {p[i]}, p, bound) - {i}
  {
    RangeBelow(bound);
  }

  /** In a duplicate-free reservoir each wanted position held rules out one draw. */
  lemma {:induction false} SparingCard(wanted: set<nat>, p: seq<nat>, bound: nat)
    requires Distinct(p) && wanted <= Elements(p) && |p| <= bound
    ensures |Sparing(wanted, p, bound)| == bound - |wanted|
  {
    RangeBelow(bound);
    if wanted == {} {
      assert Sparing(wanted, p, bound) == Range(bound);
    } else {
      var x :| x in wanted;
      var i: nat :| i < |p| && p[i] == x;
      SparingCard(wanted - {x}, p, bound);
      SparingWithout(wanted, p, bound, i);
    }
  }

  /** Positions after one more draw, from the positions before it. */
  lemma PositionsStep(k: nat, n: nat, d: seq<nat>, r: nat)
    requires n > k && ValidDraws(k, n - 1, d) && r < n
    ensures ValidDraws(k, n, Snoc(d, r))
    ensures Positions(k, n, Snoc(d, r)) == var prev := Positions(k, n - 1, d); if r < k then prev[r := n - 1] else prev
  {
  }

  lemma UpdateElements(p: seq<nat>, r: nat, x: nat, wanted: set<nat>)
    requires Distinct(p) && r < |p| && x !in p && x !in wanted
    ensures wanted <= Elements(p[r := x]) <==> wanted <= Elements(p) && p[r] !in wanted
  {
    var q := p[r := x];
    if wanted <= Elements(q) {
      forall y | y in wanted ensures y in p && y != p[r] {
        var i :| 0 <= i < |q| && q[i] == y;
        assert p[i] == y;
      }
    }
    if wanted <= Elements(p) && p[r] !in wanted {
      forall y | y in wanted ensures y in q {
        var i :| 0 <= i < |p| && p[i] == y;
        assert q[i] == y;
      }
    }
  }

  /** The last draws that turn a history of n - 1 elements holding `held` into one holding it still. */
  ghost function GoodDraws(held: set<nat>, k: nat, n: nat, bound: nat, d: seq<nat>): set<nat>
    requires n > 0
  {
    if ValidDraws(k, n - 1, d) then Sparing(held, Positions(k, n - 1, d), bound) else {}
  }

  lemma SpareOld(wanted: set<nat>, k: nat, n: nat, d: seq<nat>, r: nat)
    requires n > k && n - 1 !in wanted && ValidDraws(k, n - 1, d) && r < n
    ensures ValidDraws(k, n, Snoc(d, r))
    ensures wanted <= Elements(Positions(k, n, Snoc(d, r))) <==>
            wanted <= Elements(Positions(k, n - 1, d)) && r in Sparing(wanted, Positions(k, n - 1, d), n)
  {
    RangeBelow(n);
    PositionsStep(k, n, d, r);
    PositionsDistinct(k, n - 1, d);
    if r < k { UpdateElements(Positions(k, n - 1, d), r, n - 1, wanted); }
  }

  lemma AdmitNew(wanted: set<nat>, k: nat, n: nat, d: seq<nat>, r: nat)
    requires n > k && n - 1 in wanted && ValidDraws(k, n - 1, d) && r < n
    ensures ValidDraws(k, n, Snoc(d, r))
    ensures wanted <= Elements(Positions(k, n, Snoc(d, r))) <==>
            wanted - {n - 1} <= Elements(Positions(k, n - 1, d))
            && r in Sparing(wanted - {n - 1}, Positions(k, n - 1, d), k)
  {
    var prev, rest := Positions(k, n - 1, d), wanted - {n - 1};
    RangeBelow(k);
    PositionsStep(k, n, d, r);
    PositionsDistinct(k, n - 1, d);
    if r < k {
      UpdateElements(prev, r, n - 1, rest);
      assert prev[r := n - 1][r] == n - 1;
      assert wanted == rest + {n - 1};
    }
  }

  /** Histories of n elements are histories of n - 1 elements with one of the good draws appended. */
  lemma IncludingSplits(wanted: set<nat>, held: set<nat>, k: nat, n: nat, bound: nat)
    requires n > k && bound <= n
    requires forall d, r: nat :: ValidDraws(k, n - 1, d) && r < n ==>
               ValidDraws(k, n, Snoc(d, r)) &&
               (wanted <= Elements(Positions(k, n, Snoc(d, r))) <==>
                held <= Elements(Positions(k, n - 1, d)) && r in Sparing(held, Positions(k, n - 1, d), bound))
    ensures Including(wanted, k, n) == Extend(Including(held, k, n - 1), d => GoodDraws(held, k, n, bound, d))
  {
    var before, choices := Including(held, k, n - 1), d => GoodDraws(held, k, n, bound, d);
    RangeBelow(bound);
    RangeBelow(n);
    forall d: seq<nat>, r: nat ensures Snoc(d, r) in Including(wanted, k, n) <==> d in before && r in choices(d) {
      InDraws(k, n, d, r);
      DrawsAreValid(k, n - 1, d);
    }
    forall x | x in Including(wanted, k, n) ensures x in Extend(before, choices) {
      var d, r :| d in Draws(k, n - 1) && r in Range(n) && x == Snoc(d, r);
    }
  }

  lemma GoodDrawsCard(held: set<nat>, k: nat, n: nat, bound: nat, d: seq<nat>)
    requires n > k && k <= bound && d in Including(held, k, n - 1)
    ensures |GoodDraws(held, k, n, bound, d)| == bound - |held|
  {
    PositionsDistinct(k, n - 1, d);
    SparingCard(held, Positions(k, n - 1, d), bound);
  }

  lemma IncludingCard(wanted: set<nat>, held: set<nat>, k: nat, n: nat, bound: nat)
    requires n > k && k <= bound
    requires Including(wanted, k, n) == Extend(Including(held, k, n - 1), d => GoodDraws(held, k, n, bound, d))
    ensures |Including(wanted, k, n)| == |Including(held, k, n - 1)| * (bound - |held|)
  {
    hide Including, GoodDraws, Extend;
    var before, choices := Including(held, k, n - 1), d => GoodDraws(held, k, n, bound, d);
    if before == {} {
      ExtendCard(before, choices, 0);
    } else {
      forall d | d in before ensures |choices(d)| == bound - |held| { GoodDrawsCard(held, k, n, bound, d); }
      ExtendCard(before, choices, bound - |held|);
    }
  }

  /** Element n - 1 is not wanted: the last draw must spare what is held. */
  lemma IncludingOld(wanted: set<nat>, k: nat, n: nat)
    requires n > k && n - 1 !in wanted
    ensures |Including(wanted, k, n)| == |Including(wanted, k, n - 1)| * (n - |wanted|)
  {
    forall d, r: nat | ValidDraws(k, n - 1, d) && r < n
      ensures ValidDraws(k, n, Snoc(d, r)) &&
              (wanted <= Elements(Positions(k, n, Snoc(d, r))) <==>
               wanted <= Elements(Positions(k, n - 1, d)) && r in Sparing(wanted, Positions(k, n - 1, d), n))
    {
      SpareOld(wanted, k, n, d, r);
    }
    IncludingSplits(wanted, wanted, k, n, n);
    IncludingCard(wanted, wanted, k, n, n);
  }

  /** Element n - 1 is wanted: the last draw must admit it without evicting another wanted position. */
  lemma IncludingNew(wanted: set<nat>, k: nat, n: nat)
    requires n > k && n - 1 in wanted
    ensures |Including(wanted, k, n)| == |Including(wanted - {n - 1}, k, n - 1)| * (k - (|wanted| - 1))
  {
    var rest := wanted - {n - 1};
    forall d, r: nat | ValidDraws(k, n - 1, d) && r < n
      ensures ValidDraws(k, n, Snoc(d, r)) &&
              (wanted <= Elements(Positions(k, n, Snoc(d, r))) <==>
               rest <= Elements(Positions(k, n - 1, d)) && r in Sparing(rest, Positions(k, n - 1, d), k))
    {
      AdmitNew(wanted, k, n, d, r);
    }
    IncludingSplits(wanted, rest, k, n, k);
    IncludingCard(wanted, rest, k, n, k);
  }

  /**
   Exact inclusion counts: any set of j positions of an n-element stream is wholly in the reservoir
   in k(k-1)...(k-j+1) out of n(n-1)...(n-j+1) draw sequences.
   */
  lemma {:induction false} InclusionCount(wanted: set<nat>, k: nat, n: nat)
    requires k <= n && forall x :: x in wanted ==> x < n
    ensures |Including(wanted, k, n)| * Falling(n, |wanted|) == Falling(k, |wanted|) * |Draws(k, n)|
  {
    if n == k {
      assert Positions(k, n, []) == seq(n, i => i);
      forall x | x in wanted ensures x in Positions(k, n, []) { assert Positions(k, n, [])[x] == x; }
      assert Including(wanted, k, n) == {[]};
    } else if n - 1 !in wanted {
      InclusionCount(wanted, k, n - 1);
      CountOld(wanted, k, n);
    } else {
      InclusionCount(wanted - {n - 1}, k, n - 1);
      CountNew(wanted, k, n);
    }
  }

  lemma CountOld(wanted: set<nat>, k: nat, n: nat)
    requires n > k && n - 1 !in wanted
    requires |Including(wanted, k, n - 1)| * Falling(n - 1, |wanted|) == Falling(k, |wanted|) * |Draws(k, n - 1)|
    ensures |Including(wanted, k, n)| * Falling(n, |wanted|) == Falling(k, |wanted|) * |Draws(k, n)|
  {
    hide Falling, Including, Draws;
    var j, a, b, f := |wanted|, Falling(n, |wanted|), Falling(n - 1, |wanted|), Falling(k, |wanted|);
    var c, t := |Including(wanted, k, n - 1)|, |Draws(k, n - 1)|;
    FallingLast(n, j);
    FallingFirst(n, j);
    IncludingOld(wanted, k, n);
    DrawsStep(k, n);
    CrossMultiplyOld(n, j, c, a, b, f, t);
  }

  lemma CountNew(wanted: set<nat>, k: nat, n: nat)
    requires n > k && n - 1 in wanted
    requires var rest := wanted - {n - 1};
             |Including(rest, k, n - 1)| * Falling(n - 1, |rest|) == Falling(k, |rest|) * |Draws(k, n - 1)|
    ensures |Including(wanted, k, n)| * Falling(n, |wanted|) == Falling(k, |wanted|) * |Draws(k, n)|
  {
    hide Falling, Including, Draws;
    var rest := wanted - {n - 1};
    var j, b, f := |rest|, Falling(n - 1, |rest|), Falling(k, |rest|);
    var c, t := |Including(rest, k, n - 1)|, |Draws(k, n - 1)|;
    assert |wanted| == j + 1;
    FallingFirst(n, j);
    FallingLast(k, j);
    IncludingNew(wanted, k, n);
    DrawsStep(k, n);
    CrossMultiplyNew(n, k - j, c, b, f, t);
  }

  lemma CrossMultiplyOld(n: int, j: int, c: int, a: int, b: int, f: int, t: int)
    requires a * (n - j) == n * b && c * b == f * t
    ensures (c * (n - j)) * a == f * (t * n)
  {
    calc {
      (c * (n - j)) * a;
      c * (a * (n - j));
      c * (n * b);
      n * (c * b);
      n * (f * t);
      f * (t * n);
    }
  }

  lemma CrossMultiplyNew(n: int, m: int, c: int, b: int, f: int, t: int)
    requires c * b == f * t
    ensures (c * m) * (n * b) == (f * m) * (t * n)
  {
    calc {
      (c * m) * (n * b);
      (c * b) * (m * n);
      (f * t) * (m * n);
      (f * m) * (t * n);
    }
  }

  /** Each stream position is kept in exactly k out of n draw sequences. */
  lemma EachPositionEquallyOften(p: nat, k: nat, n: nat)
    requires k <= n && p < n
    ensures |Including({p}, k, n)| * n == k * |Draws(k, n)|
  {
    InclusionCount({p}, k, n);
    assert Falling(n, 1) == n * Falling(n - 1, 0) && Falling(k, 1) == k * Falling(k - 1, 0);
  }

  lemma FallingTwo(n: int)
    ensures Falling(n, 2) == n * (n - 1)
  {
    assert Falling(n - 1, 1) == (n - 1) * Falling(n - 2, 0);
  }

  /** Each pair is kept in exactly k(k-1) out of n(n-1). */
  lemma EachPairEquallyOften(p: nat, q: nat, k: nat, n: nat)
    requires k <= n && p < n && q < n && p != q
    ensures |Including({p, q}, k, n)| * (n * (n - 1)) == (k * (k - 1)) * |Draws(k, n)|
  {
    InclusionCount({p, q}, k, n);
    assert |{p, q}| == 2;
    FallingTwo(n);
    FallingTwo(k);
  }

  /** The draw sequences whose final sample is exactly `sample`. */
  ghost function Yielding(sample: set<nat>, k: nat, n: nat): set<seq<nat>> {
    set d | d in Draws(k, n) && ValidDraws(k, n, d) && Elements(Positions(k, n, d)) == sample
  }

  lemma FullSampleIsExact(sample: set<nat>, k: nat, n: nat)
    requires k <= n && |sample| == k
    ensures Yielding(sample, k, n) == Including(sample, k, n)
  {
    forall d | d in Including(sample, k, n) ensures Elements(Positions(k, n, d)) == sample {
      PositionsDistinct(k, n, d);
      DistinctCard(Positions(k, n, d));
      SubsetCard(sample, Elements(Positions(k, n, d)));
    }
  }

  /** Every k-element subset is the final sample equally often: k! times in n(n-1)...(n-k+1). */
  lemma EverySampleEquallyOften(sample: set<nat>, k: nat, n: nat)
    requires k <= n && |sample| == k && forall x :: x in sample ==> x < n
    ensures |Yielding(sample, k, n)| * Falling(n, k) == Falling(k, k) * |Draws(k, n)|
  {
    FullSampleIsExact(sample, k, n);
    InclusionCount(sample, k, n);
  }

  /** `chosen` is the stream read at the given positions. */
  ghost predicate SampleOf<T>(chosen: seq<T>, stream: seq<T>, positions: seq<nat>) {
    && |chosen| == |positions|
    && forall i :: 0 <= i < |positions| ==> positions[i] < |stream| && chosen[i] == stream[positions[i]]
  }

  lemma SampleStep<T>(chosen: seq<T>, stream: seq<T>, k: nat, m: nat, draws: seq<nat>)
    requires m < |stream| && k <= m && ValidDraws(k, m + 1, draws)
    requires SampleOf(chosen, stream, Positions(k, m, draws[..m - k]))
    ensures var r := draws[m - k];
            SampleOf(if r < k then chosen[r := stream[m]] else chosen, stream, Positions(k, m + 1, draws))
  {
  }

  lemma PrefixDraws(k: nat, m: nat, n: nat, draws: seq<nat>)
    requires m <= n && ValidDraws(k, n, draws)
    ensures ValidDraws(k, m, draws[..Max(m - k, 0)])
  {
  }

  /** After `seen` elements and `drawn` draws, the sample is what the positions say. */
  ghost predicate Sampled<T>(chosen: seq<T>, stream: seq<T>, k: nat, seen: nat, drawn: nat, draws: seq<nat>) {
    && seen <= |stream| && drawn == Max(seen - k, 0) <= |draws|
    && ValidDraws(k, |stream|, draws)
    && ValidDraws(k, seen, draws[..drawn])
    && SampleOf(chosen, stream, Positions(k, seen, draws[..drawn]))
  }

  lemma SampledInitially<T>(stream: seq<T>, k: nat, draws: seq<nat>)
    requires ValidDraws(k, |stream|, draws)
    ensures Sampled([], stream, k, 0, 0, draws)
  {
    PrefixDraws(k, 0, |stream|, draws);
  }

  lemma SampledDone<T>(chosen: seq<T>, stream: seq<T>, k: nat, drawn: nat, draws: seq<nat>)
    requires Sampled(chosen, stream, k, |stream|, drawn, draws)
    ensures SampleOf(chosen, stream, Positions(k, |stream|, draws))
  {
    assert draws[..drawn] == draws;
  }

  lemma FillStep<T>(chosen: seq<T>, stream: seq<T>, k: nat, seen: nat, drawn: nat, draws: seq<nat>)
    requires Sampled(chosen, stream, k, seen, drawn, draws) && seen < |stream| && |chosen| < k
    ensures Sampled(chosen + [stream[seen]], stream, k, seen + 1, drawn, draws)
  {
    PrefixDraws(k, seen + 1, |stream|, draws);
  }

  lemma ReplaceStep<T>(chosen: seq<T>, stream: seq<T>, k: nat, seen: nat, drawn: nat, draws: seq<nat>)
    requires Sampled(chosen, stream, k, seen, drawn, draws) && seen < |stream| && |chosen| >= k
    ensures drawn < |draws| && (draws[drawn] < k ==> draws[drawn] < |chosen|)
    ensures Sampled(if draws[drawn] < k then chosen[draws[drawn] := stream[seen]] else chosen, stream, k, seen + 1,
                    drawn + 1, draws)
  {
    PrefixDraws(k, seen + 1, |stream|, draws);
    assert draws[..drawn + 1][..drawn] == draws[..drawn];
    SampleStep(chosen, stream, k, seen, draws[..drawn + 1]);
  }

  /** The sampler's reservoir, with its shortcut when everything fits. */
  method SampleNeighbors<T>(outByNodeRel: map<(int, int), seq<T>>, node: int, rel: int, sampleSize: int,
                            draws: seq<nat>)
    returns (chosen: seq<T>)
    requires var edges := if (node, rel) in outByNodeRel then outByNodeRel[(node, rel)] else [];
             ValidDraws(Capacity(sampleSize), |edges|, draws)
    ensures var edges := if (node, rel) in outByNodeRel then outByNodeRel[(node, rel)] else [];
            && SampleOf(chosen, edges, Positions(Capacity(sampleSize), |edges|, draws))
            && |chosen| == Min(|edges|, Max(sampleSize, 0)) && Capacity(sampleSize) == Max(sampleSize, 0)
            && (|edges| <= sampleSize ==> chosen == edges)
  {
    var edges := if (node, rel) in outByNodeRel then outByNodeRel[(node, rel)] else [];
    ghost var k := Capacity(sampleSize);
    if |edges| <= sampleSize {
      chosen := edges;
      return;
    }
    chosen := [];
    var seen, drawn := 0, 0;
    SampledInitially(edges, k, draws);
    hide Sampled, SampleOf, Positions, ValidDraws;
    while seen < |edges|
      invariant 0 <= seen <= |edges| && 0 <= drawn
      invariant Sampled(chosen, edges, k, seen, drawn, draws)
      decreases |edges| - seen
    {
      var edge := edges[seen];
      if |chosen| < sampleSize {
        FillStep(chosen, edges, k, seen, drawn, draws);
        seen := seen + 1;
        chosen := chosen + [edge];
        continue;
      }
      ReplaceStep(chosen, edges, k, seen, drawn, draws);
      seen := seen + 1;
      var replacement := draws[drawn];
      drawn := drawn + 1;
      if replacement < sampleSize {
        chosen := chosen[replacement := edge];
      }
    }
    SampledDone(chosen, edges, k, drawn, draws);
  }

  /** The streaming form only reports how much it holds. */
  method ReservoirCount<T>(records: seq<T>, sampleSize: int, draws: seq<nat>) returns (count: nat)
    requires ValidDraws(Capacity(sampleSize), |records|, draws)
    ensures count == Min(|records|, Max(sampleSize, 0))
  {
    var sample: seq<T>, seen, drawn := [], 0, 0;
    while seen < |records|
      invariant 0 <= seen <= |records| && drawn == Max(seen - Capacity(sampleSize), 0)
      invariant |sample| == Min(seen, Capacity(sampleSize))
    {
      var record := records[seen];
      seen := seen + 1;
      if |sample| < sampleSize {
        sample := sample + [record];
        continue;
      }
      var replacement := draws[drawn];
      drawn := drawn + 1;
      if replacement < sampleSize {
        sample := sample[replacement := record];
      }
    }
    count := |sample|;
  }
}
