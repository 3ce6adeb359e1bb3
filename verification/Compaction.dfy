/** The overwrite pass of benchmarks/compaction.py and the key permutation it relies on. */
module Compaction {
  import opened Common

  const STRIDE := 1000003
  const SHIFT := 9176

  // Number theory.

  function Gcd(a: nat, b: nat): nat
    decreases b
  {
    if b == 0 then a else Gcd(b, a % b)
  }

  ghost predicate Divides(d: int, n: int) {
    exists q :: d * q == n
  }

  lemma DividesTrivially(d: int)
    ensures Divides(d, d) && Divides(d, 0)
  {
    assert d * 1 == d && d * 0 == 0;
  }

  lemma DividesSum(g: int, q: int, r: int, m: int, b: int, rest: int)
    requires g * q == b && g * r == rest
    ensures g * (q * m + r) == b * m + rest
  {
    assert g * (q * m) == (g * q) * m;
  }

  lemma DividesStep(g: int, a: nat, b: nat)
    requires b > 0 && Divides(g, b) && Divides(g, a % b)
    ensures Divides(g, a)
  {
    var q :| g * q == b;
    var r :| g * r == a % b;
    DividesSum(g, q, r, a / b, b, a % b);
    assert a == b * (a / b) + a % b;
  }

  lemma {:induction false} GcdDivides(a: nat, b: nat)
    ensures Divides(Gcd(a, b), a) && Divides(Gcd(a, b), b)
    decreases b
  {
    hide Divides;
    if b == 0 {
      DividesTrivially(a);
    } else {
      GcdDivides(b, a % b);
      DividesStep(Gcd(b, a % b), a, b);
    }
  }

  lemma {:induction false} Bezout(a: nat, b: nat) returns (u: int, v: int)
    ensures u * a + v * b == Gcd(a, b)
    decreases b
  {
    if b == 0 {
      return 1, 0;
    } else {
      var s, t := Bezout(b, a % b);
      BezoutStep(a, b, a / b, a % b, s, t);
      return t, s - t * (a / b);
    }
  }

  lemma BezoutStep(a: int, b: int, m: int, r: int, s: int, t: int)
    requires a == b * m + r
    ensures t * a + (s - t * m) * b == s * b + t * r
  {
    assert t * (b * m + r) == t * b * m + t * r;
    assert (s - t * m) * b == s * b - t * m * b;
    assert t * b * m == t * m * b;
  }

  /** Euclid's lemma for a coprime multiplier. */
  lemma CoprimeCancels(a: nat, n: nat, x: int)
    requires Gcd(a, n) == 1 && Divides(n, a * x)
    ensures Divides(n, x)
  {
    var u, v := Bezout(a, n);
    var q :| n * q == a * x;
    CancelArithmetic(a, n, x, u, v, q);
  }

  lemma CancelArithmetic(a: int, n: int, x: int, u: int, v: int, q: int)
    requires u * a + v * n == 1 && n * q == a * x
    ensures n * (u * q + v * x) == x
  {
    assert n * (u * q + v * x) == u * (n * q) + v * n * x;
    assert u * (n * q) == u * (a * x) == u * a * x;
    assert u * a * x + v * n * x == (u * a + v * n) * x;
  }

  // The key order.

  datatype Order = Sequential | Permuted | Unknown(name: string)

  datatype Error = UnknownOrder(name: string) | ZeroStep

  /** `key_for_position`; for a positive key count Python's and Dafny's remainders agree. */
  function KeyForPosition(position: int, keys: int, pass: int, order: Order): (r: Result<int, Error>)
    requires keys > 0
    ensures 0 <= position < keys && r.Ok? ==> 0 <= r.value < keys
  {
    match order
    case Sequential => Ok(position)
    case Permuted => Ok((position * STRIDE + pass * SHIFT) % keys)
    case Unknown(name) => Err(UnknownOrder(name))
  }

  /** The keys of a whole pass in the order of their positions. */
  function Visits(keys: nat, pass: int, order: Order): (visits: seq<int>)
    requires !order.Unknown?
    ensures |visits| == keys
  {
    seq(keys, position requires 0 <= position < keys => KeyForPosition(position, keys, pass, order).value)
  }

  /** The key written at each position. */
  lemma VisitsMeaning(keys: nat, pass: int, position: nat)
    requires position < keys
    ensures Visits(keys, pass, Sequential)[position] == position
    ensures Visits(keys, pass, Permuted)[position] == (position * 1000003 + pass * 9176) % keys
  {
  }

  lemma SameRemainder(x: int, y: int, n: nat)
    requires n > 0 && x % n == y % n
    ensures Divides(n, x - y)
  {
    assert n * (x / n - y / n) == n * (x / n) - n * (y / n);
    assert n * (x / n - y / n) == x - y;
  }

  lemma {:induction false} MultipleAtLeast(n: int, q: int)
    requires n >= 0 && q > 0
    ensures n * q >= n
    decreases q
  {
    if q > 1 {
      MultipleAtLeast(n, q - 1);
      assert n * q == n * (q - 1) + n;
    }
  }

  lemma SmallMultiple(n: int, x: int)
    requires n > 0 && Divides(n, x) && -n < x < n
    ensures x == 0
  {
    var q :| n * q == x;
    if q > 0 {
      MultipleAtLeast(n, q);
    } else if q < 0 {
      MultipleAtLeast(n, -q);
      assert n * -q == -(n * q);
    }
  }

  /** With a coprime key count two different positions never get the same key. */
  lemma CoprimeIsInjective(keys: nat, pass: int, p: nat, q: nat)
    requires Gcd(STRIDE, keys) == 1 && p < keys && q < keys
    requires KeyForPosition(p, keys, pass, Permuted) == KeyForPosition(q, keys, pass, Permuted)
    ensures p == q
  {
    var x, y := p * STRIDE + pass * SHIFT, q * STRIDE + pass * SHIFT;
    SameRemainder(x, y, keys);
    assert x - y == STRIDE * (p - q);
    CoprimeCancels(STRIDE, keys, p - q);
    SmallMultiple(keys, p - q);
  }

  /** With a common factor g, position 0 and position keys / g get the same key. */
  lemma CommonFactorCollides(keys: nat, pass: int)
    requires keys > 0 && Gcd(STRIDE, keys) != 1
    ensures var g := Gcd(STRIDE, keys);
            && g > 1 && 0 < keys / g < keys
            && KeyForPosition(0, keys, pass, Permuted) == KeyForPosition(keys / g, keys, pass, Permuted)
  {
    var g := Gcd(STRIDE, keys);
    GcdDivides(STRIDE, keys);
    var q :| g * q == keys;
    var r :| g * r == STRIDE;
    QuotientFacts(g, q, keys);
    assert keys / g == q;
    Wraps(keys, q, r, g, pass * SHIFT);
  }

  lemma QuotientFacts(g: nat, q: int, n: nat)
    requires g * q == n && n > 0 && g != 1
    ensures g > 1 && 0 < q < n && n / g == q
  {
    assert g != 0 && q != 0;
    assert q > 0;
    MultipleAtLeast(q, g - 1);
    assert g * q == (g - 1) * q + q;
    QuotientUnique(n, g, q, 0);
  }

  lemma Wraps(n: nat, q: nat, r: int, g: nat, c: int)
    requires n > 0 && g * q == n && g * r == STRIDE
    ensures (q * STRIDE + c) % n == (0 * STRIDE + c) % n
  {
    assert q * STRIDE == q * (g * r) == (g * q) * r == n * r;
    RemainderShift(c, r, n);
  }

  lemma RemainderShift(c: int, r: int, n: nat)
    requires n > 0
    ensures (n * r + c) % n == c % n
  {
    var t := n * r + c;
    assert t == n * (r + c / n) + c % n by { assert n * (r + c / n) == n * r + n * (c / n); }
    QuotientUnique(t, n, r + c / n, c % n);
  }

  lemma QuotientUnique(t: int, n: nat, q: int, r: int)
    requires n > 0 && t == n * q + r && 0 <= r < n
    ensures t % n == r && t / n == q
  {
    assert t == n * (t / n) + t % n;
    var d := q - t / n;
    assert n * d == n * q - n * (t / n);
    assert n * d == t % n - r;
    assert Divides(n, t % n - r);
    SmallMultiple(n, t % n - r);
    if d > 0 { MultipleAtLeast(n, d); }
    if d < 0 { MultipleAtLeast(n, -d); }
  }

  /** A pass visits every key, and each of them once. */
  ghost predicate IsPermutation(visits: seq<int>) {
    Distinct(visits) && forall k :: k in visits <==> 0 <= k < |visits|
  }

  lemma DistinctInRangeIsPermutation(visits: seq<int>)
    requires Distinct(visits) && forall k :: k in visits ==> 0 <= k < |visits|
    ensures IsPermutation(visits)
  {
    var range := seq(|visits|, k => k);
    forall k | 0 <= k < |visits| ensures k in range { assert range[k] == k; }
    DistinctCard(visits);
    DistinctCard(range);
    SubsetCard(Elements(visits), Elements(range));
    forall k | 0 <= k < |visits| ensures k in visits { assert k in Elements(range); }
  }

  /** The permuted order is a bijection on the keys exactly when the key count is coprime to the stride. */
  lemma PermutedIffCoprime(keys: nat, pass: int)
    requires keys > 0
    ensures IsPermutation(Visits(keys, pass, Permuted)) <==> Gcd(STRIDE, keys) == 1
  {
    var visits := Visits(keys, pass, Permuted);
    if Gcd(STRIDE, keys) == 1 {
      forall p, q | 0 <= p < q < keys ensures visits[p] != visits[q] {
        if visits[p] == visits[q] { CoprimeIsInjective(keys, pass, p, q); }
      }
      DistinctInRangeIsPermutation(visits);
    } else {
      CommonFactorCollides(keys, pass);
      assert visits[0] == visits[keys / Gcd(STRIDE, keys)];
    }
  }

  // 1000003 is prime, so only its multiples share a factor with it.

  lemma NoDivisorBelow202(d: int)
    requires 2 <= d < 202
    ensures STRIDE % d != 0
  {
  }

  lemma NoDivisorBelow502(d: int)
    requires 202 <= d < 502
    ensures STRIDE % d != 0
  {
  }

  lemma NoDivisorBelow802(d: int)
    requires 502 <= d < 802
    ensures STRIDE % d != 0
  {
  }

  lemma NoDivisorBelow1002(d: int)
    requires 802 <= d < 1002
    ensures STRIDE % d != 0
  {
  }

  lemma NoSmallDivisor(d: nat)
    requires 2 <= d < 1002
    ensures STRIDE % d != 0
  {
    if d < 202 {
      NoDivisorBelow202(d);
    } else if d < 502 {
      NoDivisorBelow502(d);
    } else if d < 802 {
      NoDivisorBelow802(d);
    } else {
      NoDivisorBelow1002(d);
    }
  }

  /** A divisor of the stride is 1 or the stride: of two factors one is below 1002. */
  lemma StrideIsPrime(d: nat)
    requires Divides(d, STRIDE)
    ensures d == 1 || d == STRIDE
  {
    var q :| d * q == STRIDE;
    if d > 1 && q > 1 {
      if d < 1002 {
        QuotientUnique(STRIDE, d, q, 0);
        NoSmallDivisor(d);
      } else if q < 1002 {
        QuotientUnique(STRIDE, q, d, 0);
        NoSmallDivisor(q);
      } else {
        LargeFactors(d, q);
      }
    }
  }

  lemma LargeFactors(d: nat, q: nat)
    requires d >= 1002 && q >= 1002
    ensures d * q > STRIDE
  {
    assert d * q >= 1002 * q;
  }

  lemma MultipleIsDivisible(n: nat, x: int)
    requires n > 0
    ensures Divides(n, x) <==> x % n == 0
  {
    if q :| n * q == x {
      QuotientUnique(x, n, q, 0);
    }
    if x % n == 0 { assert n * (x / n) == x; }
  }

  lemma CoprimeIffNoMultiple(keys: nat)
    requires keys > 0
    ensures Gcd(STRIDE, keys) == 1 <==> keys % STRIDE != 0
  {
    var g := Gcd(STRIDE, keys);
    GcdDivides(STRIDE, keys);
    StrideIsPrime(g);
    MultipleIsDivisible(STRIDE, keys);
    if Divides(STRIDE, keys) { MultipleHasFactor(keys); }
    if g == 1 && Divides(STRIDE, g) { SmallMultiple(STRIDE, g); }
  }

  lemma FactorOut(a: int, u: int, v: int, q: int, n: int)
    requires a * q == n
    ensures a * (u + v * q) == u * a + v * n
  {
    assert a * (v * q) == v * (a * q);
  }

  /** A common divisor divides the greatest one. */
  lemma MultipleHasFactor(keys: nat)
    requires Divides(STRIDE, keys)
    ensures Divides(STRIDE, Gcd(STRIDE, keys))
  {
    hide Gcd;
    var q :| STRIDE * q == keys;
    var u, v := Bezout(STRIDE, keys);
    FactorOut(STRIDE, u, v, q, keys);
  }

  /** Equivalently: the permuted order covers the keys exactly when their count is no multiple of the stride. */
  lemma PermutedIffNoMultiple(keys: nat, pass: int)
    requires keys > 0
    ensures IsPermutation(Visits(keys, pass, Permuted)) <==> keys % STRIDE != 0
  {
    PermutedIffCoprime(keys, pass);
    CoprimeIffNoMultiple(keys);
  }

  lemma SequentialIsPermutation(keys: nat, pass: int)
    ensures IsPermutation(Visits(keys, pass, Sequential))
  {
    DistinctInRangeIsPermutation(Visits(keys, pass, Sequential));
  }

  // The store and the pass.

  datatype Backend = RocksDb | Other

  datatype Value = Value(bytes: string)

  /** Every given key overwritten with the value, every other key as before. */
  ghost predicate Overwrites(before: map<int, Value>, after: map<int, Value>, keys: seq<int>, value: Value) {
    && (forall k :: k in after <==> k in before || k in keys)
    && (forall k :: k in after ==> after[k] == if k in keys then value else before[k])
  }

  lemma OverwritesAppend(a: map<int, Value>, b: map<int, Value>, c: map<int, Value>, xs: seq<int>, ys: seq<int>,
                         value: Value)
    requires Overwrites(a, b, xs, value) && Overwrites(b, c, ys, value)
    ensures Overwrites(a, c, xs + ys, value)
  {
  }

  /** A store of edges by key, with a record of the keys put. */
  class KvStore {
    var data: map<int, Value>
    ghost var puts: multiset<int>

    constructor ()
      ensures data == map[] && puts == multiset{}
    {
      data, puts := map[], multiset{};
    }

    /** Apply a batch of single puts in order. */
    method Write(batch: seq<int>, value: Value)
      modifies this
      ensures Overwrites(old(data), data, batch, value)
      ensures puts == old(puts) + multiset(batch)
    {
      for n := 0 to |batch|
        invariant Overwrites(old(data), data, batch[..n], value)
        invariant puts == old(puts) + multiset(batch[..n])
      {
        data := data[batch[n] := value];
        puts := puts + multiset{batch[n]};
        assert batch[..n + 1] == batch[..n] + [batch[n]];
      }
      assert batch[..|batch|] == batch;
    }

    /** Write a dictionary, so each of its keys once. */
    method PutEdgesBulk(values: map<int, Value>)
      modifies this
      ensures data == old(data) + values
      ensures puts == old(puts) + multiset(values.Keys)
    {
      data := data + values;
      puts := puts + multiset(values.Keys);
    }
  }

  /** The inner loop of the RocksDB branch. */
  method GatherBatch(lo: nat, hi: nat, keys: nat, pass: int, order: Order) returns (r: Result<seq<int>, Error>)
    requires lo < hi <= keys
    ensures order.Unknown? ==> r == Err(UnknownOrder(order.name))
    ensures !order.Unknown? ==> r == Ok(Visits(keys, pass, order)[lo..hi])
  {
    var batch: seq<int> := [];
    for position := lo to hi
      invariant order.Unknown? ==> position == lo
      invariant !order.Unknown? ==> batch == Visits(keys, pass, order)[lo..position]
    {
      var index := KeyForPosition(position, keys, pass, order);
      if index.Err? {
        return Err(index.error);
      }
      batch := batch + [index.value];
    }
    return Ok(batch);
  }

  /** The inner loop of the other branch: a dictionary, in which a repeated key is stored once. */
  method GatherValues(lo: nat, hi: nat, keys: nat, pass: int, order: Order, value: Value)
    returns (r: Result<map<int, Value>, Error>)
    requires lo < hi <= keys
    ensures order.Unknown? ==> r == Err(UnknownOrder(order.name))
    ensures !order.Unknown? ==> r.Ok? && Overwrites(map[], r.value, Visits(keys, pass, order)[lo..hi], value)
  {
    var values: map<int, Value> := map[];
    for position := lo to hi
      invariant order.Unknown? ==> position == lo
      invariant !order.Unknown? ==> Overwrites(map[], values, Visits(keys, pass, order)[lo..position], value)
    {
      var index := KeyForPosition(position, keys, pass, order);
      if index.Err? {
        return Err(index.error);
      }
      if !order.Unknown? {
        ghost var visits := Visits(keys, pass, order);
        assert visits[lo..position + 1] == visits[lo..position] + [visits[position]];
      }
      values := values[index.value := value];
    }
    return Ok(values);
  }

  lemma OverwrittenKeys(values: map<int, Value>, keys: seq<int>, value: Value)
    requires Overwrites(map[], values, keys, value)
    ensures values.Keys == Elements(keys)
  {
    forall k ensures k in values.Keys <==> k in Elements(keys) {
      assert k in values <==> k in keys;
    }
  }

  lemma DistinctKeysMultiset(xs: seq<int>, keys: set<int>)
    requires Distinct(xs) && keys == Elements(xs)
    ensures multiset(keys) == multiset(xs)
  {
    if xs == [] {
    } else {
      var rest, last := xs[..|xs| - 1], xs[|xs| - 1];
      assert xs == rest + [last];
      assert keys - {last} == Elements(rest);
      DistinctKeysMultiset(rest, keys - {last});
      assert multiset(keys) == multiset(keys - {last}) + multiset{last};
    }
  }

  /** The state after the given visits. */
  ghost predicate Written(before: map<int, Value>, data: map<int, Value>, putsBefore: multiset<int>,
                          puts: multiset<int>, backend: Backend, visits: seq<int>, value: Value)
  {
    && Overwrites(before, data, visits, value)
    && (backend == RocksDb || Distinct(visits) ==> puts == putsBefore + multiset(visits))
  }

  /** One batch on either backend. */
  method WriteBatch(store: KvStore, backend: Backend, lo: nat, hi: nat, keys: nat, pass: int, value: Value,
                    order: Order)
    returns (r: Result<(), Error>)
    requires lo < hi <= keys
    modifies store
    ensures order.Unknown? ==>
              r == Err(UnknownOrder(order.name)) && store.data == old(store.data) && store.puts == old(store.puts)
    ensures !order.Unknown? ==>
              r == Ok(()) && Written(old(store.data), store.data, old(store.puts), store.puts, backend,
                                     Visits(keys, pass, order)[lo..hi], value)
  {
    if backend == RocksDb {
      var batch := GatherBatch(lo, hi, keys, pass, order);
      if batch.Err? {
        return Err(batch.error);
      }
      store.Write(batch.value, value);
    } else {
      var values := GatherValues(lo, hi, keys, pass, order, value);
      if values.Err? {
        return Err(values.error);
      }
      store.PutEdgesBulk(values.value);
      ghost var batch := Visits(keys, pass, order)[lo..hi];
      OverwrittenKeys(values.value, batch, value);
      if Distinct(batch) { DistinctKeysMultiset(batch, values.value.Keys); }
    }
    return Ok(());
  }

  lemma WrittenNothing(data: map<int, Value>, puts: multiset<int>, backend: Backend, value: Value)
    ensures Written(data, data, puts, puts, backend, [], value)
  {
  }

  lemma WrittenStep(before: map<int, Value>, data: map<int, Value>, after: map<int, Value>,
                    putsBefore: multiset<int>, puts: multiset<int>, putsAfter: multiset<int>,
                    backend: Backend, visits: seq<int>, lo: nat, hi: nat, value: Value)
    requires lo <= hi <= |visits|
    requires Written(before, data, putsBefore, puts, backend, visits[..lo], value)
    requires Written(data, after, puts, putsAfter, backend, visits[lo..hi], value)
    ensures Written(before, after, putsBefore, putsAfter, backend, visits[..hi], value)
  {
    assert visits[..hi] == visits[..lo] + visits[lo..hi];
    OverwritesAppend(before, data, after, visits[..lo], visits[lo..hi], value);
  }

  /** Between batches: the first `done` visits are written. */
  ghost predicate PassState(before: map<int, Value>, data: map<int, Value>, putsBefore: multiset<int>,
                            puts: multiset<int>, backend: Backend, visits: seq<int>, value: Value, done: int)
  {
    0 <= done <= |visits| && Written(before, data, putsBefore, puts, backend, visits[..done], value)
  }

  lemma PassStarts(data: map<int, Value>, puts: multiset<int>, backend: Backend, visits: seq<int>, value: Value)
    ensures PassState(data, data, puts, puts, backend, visits, value, 0)
  {
    WrittenNothing(data, puts, backend, value);
  }

  lemma PassStep(before: map<int, Value>, data: map<int, Value>, after: map<int, Value>,
                 putsBefore: multiset<int>, puts: multiset<int>, putsAfter: multiset<int>,
                 backend: Backend, visits: seq<int>, value: Value, lo: nat, hi: nat)
    requires lo <= hi <= |visits| && PassState(before, data, putsBefore, puts, backend, visits, value, lo)
    requires Written(data, after, puts, putsAfter, backend, visits[lo..hi], value)
    ensures PassState(before, after, putsBefore, putsAfter, backend, visits, value, hi)
  {
    WrittenStep(before, data, after, putsBefore, puts, putsAfter, backend, visits, lo, hi, value);
  }

  lemma PassEnds(before: map<int, Value>, data: map<int, Value>, putsBefore: multiset<int>, puts: multiset<int>,
                 backend: Backend, visits: seq<int>, value: Value)
    requires PassState(before, data, putsBefore, puts, backend, visits, value, |visits|)
    ensures Written(before, data, putsBefore, puts, backend, visits, value)
  {
    assert visits[..|visits|] == visits;
  }

  /** The loop over the batches; an unknown order already fails in the first one. */
  method WriteBatches(store: KvStore, backend: Backend, keys: nat, batchSize: nat, pass: int, value: Value,
                      order: Order)
    returns (r: Result<(), Error>)
    requires keys > 0 && batchSize > 0
    modifies store
    ensures order.Unknown? ==>
              r == Err(UnknownOrder(order.name)) && store.data == old(store.data) && store.puts == old(store.puts)
    ensures !order.Unknown? ==>
              r == Ok(()) && Written(old(store.data), store.data, old(store.puts), store.puts, backend,
                                     Visits(keys, pass, order), value)
  {
    hide PassState, Written;
    ghost var data0, puts0 := store.data, store.puts;
    ghost var visits := if order.Unknown? then [] else Visits(keys, pass, order);
    PassStarts(data0, puts0, backend, visits, value);
    var offset := 0;
    while offset < keys
      invariant 0 <= offset && (offset > 0 ==> !order.Unknown?)
      invariant offset == 0 ==> store.data == data0 && store.puts == puts0
      invariant !order.Unknown? ==>
                  PassState(data0, store.data, puts0, store.puts, backend, visits, value, Min(offset, keys))
    {
      var end := Min(offset + batchSize, keys);
      ghost var data, puts := store.data, store.puts;
      r := WriteBatch(store, backend, offset, end, keys, pass, value, order);
      if r.Err? {
        return;
      }
      PassStep(data0, data, store.data, puts0, puts, store.puts, backend, visits, value, offset, end);
      offset := offset + batchSize;
    }
    PassEnds(data0, store.data, puts0, store.puts, backend, visits, value);
    return Ok(());
  }

  /**
   * `write_pass`. A zero step is refused; an unknown order fails at the first position and writes nothing;
   * otherwise the keys of the pass, and no others, end up holding its value.
   */
  method WritePass(store: KvStore, backend: Backend, keys: int, batchSize: int, pass: int, value: Value, order: Order)
    returns (r: Result<(), Error>)
    modifies store
    ensures r == Err(ZeroStep) <==> batchSize == 0
    ensures order.Unknown? && keys > 0 && batchSize > 0 ==> r == Err(UnknownOrder(order.name))
    ensures r.Err? || keys <= 0 || batchSize <= 0 ==> store.data == old(store.data) && store.puts == old(store.puts)
    ensures batchSize < 0 || (batchSize > 0 && (keys <= 0 || !order.Unknown?)) ==> r == Ok(())
    ensures batchSize > 0 && keys > 0 && !order.Unknown? ==>
              Written(old(store.data), store.data, old(store.puts), store.puts, backend, Visits(keys, pass, order),
                      value)
    ensures keys > 0 && !order.Unknown? ==>
              |Visits(keys, pass, order)| == keys
              && forall position :: 0 <= position < keys ==>
                   Visits(keys, pass, order)[position] ==
                     if order == Sequential then position else (position * 1000003 + pass * 9176) % keys
  {
    if batchSize == 0 {
      return Err(ZeroStep);
    }
    if batchSize < 0 || keys <= 0 {
      return Ok(());
    }
    r := WriteBatches(store, backend, keys, batchSize, pass, value, order);
  }

  /** When the visits of a pass are a permutation, it puts each key once and leaves all of them holding its value. */
  lemma PermutationWritesEachKeyOnce(before: map<int, Value>, data: map<int, Value>, putsBefore: multiset<int>,
                                     puts: multiset<int>, backend: Backend, visits: seq<int>, value: Value, k: int)
    requires IsPermutation(visits) && Written(before, data, putsBefore, puts, backend, visits, value)
    ensures 0 <= k < |visits| ==> k in data && data[k] == value && puts[k] == putsBefore[k] + 1
    ensures !(0 <= k < |visits|) ==>
              puts[k] == putsBefore[k] && (k in data <==> k in before) && (k in data ==> data[k] == before[k])
  {
    OnceEach(visits, k);
  }

  /** In sequential order always, and in permuted order exactly when the key count is no multiple of the stride. */
  lemma VisitsEachKeyOnceIff(keys: nat, pass: int, order: Order)
    requires keys > 0 && !order.Unknown?
    ensures IsPermutation(Visits(keys, pass, order)) <==> order == Sequential || keys % STRIDE != 0
  {
    if order == Permuted { PermutedIffNoMultiple(keys, pass); } else { SequentialIsPermutation(keys, pass); }
  }

  lemma {:induction false} OnceEach(xs: seq<int>, k: int)
    requires Distinct(xs)
    ensures multiset(xs)[k] == if k in xs then 1 else 0
  {
    if xs != [] {
      assert xs == xs[..|xs| - 1] + [xs[|xs| - 1]];
      OnceEach(xs[..|xs| - 1], k);
    }
  }
}
