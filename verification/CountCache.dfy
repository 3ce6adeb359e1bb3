/**
 * The count cache of src/gestaltdb/_graph/adjacency.py on a store without transactions, where writes update it in
 * place.
 */
module CountCache {
  import opened Common
  import opened IndexState

  /** A row of typed adjacency, as the writers hand it to the store and to the cache. */
  datatype Row = Row(source: string, target: string, edgeType: string, id: string)

  function OutKey(a: Row): CountKey {
    CountKey(true, a.source, a.edgeType)
  }

  function InKey(a: Row): CountKey {
    CountKey(false, a.target, a.edgeType)
  }

  /** How many of the rows have the given out key. */
  function Occurrences(rows: seq<Row>, key: CountKey): nat {
    if rows == [] then 0
    else Occurrences(rows[..|rows| - 1], key) + if OutKey(rows[|rows| - 1]) == key then 1 else 0
  }

  predicate TouchesOut(rows: seq<Row>, key: CountKey) {
    exists a :: a in rows && OutKey(a) == key
  }

  predicate TouchesIn(rows: seq<Row>, key: CountKey) {
    exists a :: a in rows && InKey(a) == key
  }

  function Cached(counts: map<CountKey, nat>, key: CountKey): nat {
    if key in counts then counts[key] else 0
  }

  /** What a key holds after the update: a touched out count moves from its cached value or zero, never below zero. */
  function Moved(counts: map<CountKey, nat>, rows: seq<Row>, delta: int, key: CountKey): nat {
    if TouchesOut(rows, key) then Max(0, Cached(counts, key) + delta * Occurrences(rows, key))
    else Cached(counts, key)
  }

  /** The updated cache: out counts moved, touched in counts dropped. */
  ghost predicate Updated(counts: map<CountKey, nat>, rows: seq<Row>, delta: int, after: map<CountKey, nat>) {
    && (forall key :: key in after <==> (key in counts || TouchesOut(rows, key)) && !TouchesIn(rows, key))
    && (forall key :: key in after ==> after[key] == Moved(counts, rows, delta, key))
  }

  // The loops of `update_count_cache`.

  ghost predicate Tallied(rows: seq<Row>, delta: int, deltas: map<CountKey, int>, dropped: set<CountKey>) {
    && (forall key :: key in deltas <==> TouchesOut(rows, key))
    && (forall key :: key in deltas ==> deltas[key] == delta * Occurrences(rows, key))
    && (forall key :: key in dropped <==> TouchesIn(rows, key))
  }

  lemma OccurrencesSnoc(rows: seq<Row>, a: Row, key: CountKey)
    ensures Occurrences(rows + [a], key) == Occurrences(rows, key) + if OutKey(a) == key then 1 else 0
    ensures TouchesOut(rows + [a], key) <==> TouchesOut(rows, key) || OutKey(a) == key
    ensures TouchesIn(rows + [a], key) <==> TouchesIn(rows, key) || InKey(a) == key
  {
    assert (rows + [a])[..|rows|] == rows;
    assert a in rows + [a];
  }

  lemma {:induction false} UntouchedOccursNever(rows: seq<Row>, key: CountKey)
    ensures Occurrences(rows, key) > 0 <==> TouchesOut(rows, key)
  {
    if rows != [] {
      var init, last := rows[..|rows| - 1], rows[|rows| - 1];
      assert rows == init + [last];
      UntouchedOccursNever(init, key);
      OccurrencesSnoc(init, last, key);
    }
  }

  lemma TallyStep(rows: seq<Row>, delta: int, deltas: map<CountKey, int>, dropped: set<CountKey>, a: Row)
    requires Tallied(rows, delta, deltas, dropped)
    ensures var moved := (if OutKey(a) in deltas then deltas[OutKey(a)] else 0) + delta;
            Tallied(rows + [a], delta, deltas[OutKey(a) := moved], dropped + {InKey(a)})
  {
    forall key
      ensures Occurrences(rows + [a], key) == Occurrences(rows, key) + if OutKey(a) == key then 1 else 0
      ensures TouchesOut(rows + [a], key) <==> TouchesOut(rows, key) || OutKey(a) == key
      ensures TouchesIn(rows + [a], key) <==> TouchesIn(rows, key) || InKey(a) == key
    {
      OccurrencesSnoc(rows, a, key);
    }
    UntouchedOccursNever(rows, OutKey(a));
    var was := if OutKey(a) in deltas then deltas[OutKey(a)] else 0;
    assert was == delta * Occurrences(rows, OutKey(a));
    Distribute(delta, Occurrences(rows, OutKey(a)));
    hide TouchesOut, TouchesIn, Occurrences;
  }

  lemma Distribute(d: int, n: int)
    ensures d * (n + 1) == d * n + d
  {
  }

  /** The first loop: one delta for each out key, and the in keys to drop. */
  method Tally(rows: seq<Row>, delta: int) returns (deltas: map<CountKey, int>, dropped: set<CountKey>)
    ensures Tallied(rows, delta, deltas, dropped)
  {
    deltas, dropped := map[], {};
    for n := 0 to |rows|
      invariant Tallied(rows[..n], delta, deltas, dropped)
    {
      var a := rows[n];
      TallyStep(rows[..n], delta, deltas, dropped, a);
      assert rows[..n + 1] == rows[..n] + [a];
      deltas := deltas[OutKey(a) := (if OutKey(a) in deltas then deltas[OutKey(a)] else 0) + delta];
      dropped := dropped + {InKey(a)};
    }
    assert rows[..|rows|] == rows;
  }

  /** The deltas of all keys but the remaining ones are added to the cached value or zero, and clipped at zero. */
  ghost predicate Added(counts: map<CountKey, nat>, deltas: map<CountKey, int>, remaining: set<CountKey>,
                        after: map<CountKey, nat>)
  {
    && (forall key :: key in after <==> key in counts || (key in deltas && key !in remaining))
    && (forall key :: key in after ==>
          after[key] == if key in deltas && key !in remaining then Max(0, Cached(counts, key) + deltas[key])
          else Cached(counts, key))
  }

  lemma AddStep(counts: map<CountKey, nat>, deltas: map<CountKey, int>, remaining: set<CountKey>,
                after: map<CountKey, nat>, key: CountKey)
    requires Added(counts, deltas, remaining, after) && key in remaining && key in deltas
    ensures Added(counts, deltas, remaining - {key}, after[key := Max(0, Cached(after, key) + deltas[key])])
  {
    assert Cached(after, key) == Cached(counts, key);
  }

  /** The second loop. */
  method AddDeltas(counts: map<CountKey, nat>, deltas: map<CountKey, int>) returns (after: map<CountKey, nat>)
    ensures Added(counts, deltas, {}, after)
  {
    after := counts;
    var remaining := deltas.Keys;
    assert Added(counts, deltas, remaining, after);
    hide Added;
    while remaining != {}
      invariant remaining <= deltas.Keys
      invariant Added(counts, deltas, remaining, after)
      decreases |remaining|
    {
      var key :| key in remaining;
      AddStep(counts, deltas, remaining, after, key);
      after := after[key := Max(0, Cached(after, key) + deltas[key])];
      remaining := remaining - {key};
    }
  }

  method UpdateCountCache(counts: map<CountKey, nat>, rows: seq<Row>, delta: int)
    returns (after: map<CountKey, nat>)
    ensures Updated(counts, rows, delta, after)
  {
    var deltas, dropped := Tally(rows, delta);
    after := AddDeltas(counts, deltas);
    after := after - dropped;
  }

  // The records the same rows write and delete.

  function OutRecord(a: Row): AdjacencyKey {
    AdjacencyKey(true, a.source, a.edgeType, a.id)
  }

  function InRecord(a: Row): AdjacencyKey {
    AdjacencyKey(false, a.target, a.edgeType, a.id)
  }

  /** `put_typed_adjacency_bulk`: each row puts its forward and its reverse record. */
  function Written(store: map<AdjacencyKey, string>, rows: seq<Row>): map<AdjacencyKey, string> {
    if rows == [] then store
    else
      var last := rows[|rows| - 1];
      Written(store, rows[..|rows| - 1])[OutRecord(last) := last.target][InRecord(last) := last.source]
  }

  /** `delete_typed_adjacency`, for each row. */
  function Erased(store: map<AdjacencyKey, string>, rows: seq<Row>): map<AdjacencyKey, string> {
    store - RecordsOf(rows)
  }

  function RecordsOf(rows: seq<Row>): set<AdjacencyKey> {
    (set a | a in rows :: OutRecord(a)) + (set a | a in rows :: InRecord(a))
  }

  lemma {:induction false} WrittenKeys(store: map<AdjacencyKey, string>, rows: seq<Row>)
    ensures Written(store, rows).Keys == store.Keys + RecordsOf(rows)
  {
    if rows != [] {
      var init, last := rows[..|rows| - 1], rows[|rows| - 1];
      WrittenKeys(store, init);
      RecordsSnoc(init, last);
      assert rows == init + [last];
    }
  }

  /** The last row with a record's key says what it holds; a key no row has holds what it held. */
  lemma {:induction false} WrittenValues(store: map<AdjacencyKey, string>, rows: seq<Row>, n: nat)
    requires n < |rows|
    ensures (forall j :: n < j < |rows| ==> OutRecord(rows[j]) != OutRecord(rows[n])) ==>
              OutRecord(rows[n]) in Written(store, rows) && Written(store, rows)[OutRecord(rows[n])] == rows[n].target
    ensures (forall j :: n < j < |rows| ==> InRecord(rows[j]) != InRecord(rows[n])) ==>
              InRecord(rows[n]) in Written(store, rows) && Written(store, rows)[InRecord(rows[n])] == rows[n].source
    decreases |rows|
  {
    if n < |rows| - 1 { WrittenValues(store, rows[..|rows| - 1], n); }
  }

  lemma {:induction false} UnwrittenValues(store: map<AdjacencyKey, string>, rows: seq<Row>, k: AdjacencyKey)
    requires k in store && k !in RecordsOf(rows)
    ensures k in Written(store, rows) && Written(store, rows)[k] == store[k]
  {
    if rows != [] {
      var init, last := rows[..|rows| - 1], rows[|rows| - 1];
      assert rows == init + [last];
      RecordsSnoc(init, last);
      UnwrittenValues(store, init, k);
    }
  }

  lemma RecordsSnoc(rows: seq<Row>, a: Row)
    ensures RecordsOf(rows + [a]) == RecordsOf(rows) + {OutRecord(a), InRecord(a)}
  {
  }

  /** The forward records of the rows with the given out key. */
  function Named(rows: seq<Row>, key: CountKey): set<AdjacencyKey> {
    set a | a in rows && OutKey(a) == key :: OutRecord(a)
  }

  lemma NamedIsCounted(rows: seq<Row>, key: CountKey)
    ensures if key.outgoing then CountedIn(RecordsOf(rows), key) == Named(rows, key)
            else !TouchesIn(rows, key) ==> CountedIn(RecordsOf(rows), key) == {}
  {
    forall k | k in RecordsOf(rows) && Counted(key, k)
      ensures if key.outgoing then k in Named(rows, key) else TouchesIn(rows, key)
    {
      if key.outgoing {
        var a :| a in rows && OutRecord(a) == k;
        assert OutKey(a) == key;
      } else {
        var a :| a in rows && InRecord(a) == k;
        assert InKey(a) == key;
      }
    }
  }

  /** No two rows with the given out key have the same edge identifier. */
  ghost predicate NoRepeat(rows: seq<Row>, key: CountKey) {
    forall i, j :: 0 <= i < j < |rows| && OutKey(rows[i]) == key && OutKey(rows[j]) == key ==> rows[i].id != rows[j].id
  }

  lemma NoRepeatSnoc(rows: seq<Row>, a: Row, key: CountKey)
    ensures NoRepeat(rows + [a], key) <==>
              NoRepeat(rows, key) && !(OutKey(a) == key && OutRecord(a) in Named(rows, key))
  {
    var all := rows + [a];
    if OutKey(a) == key && OutRecord(a) in Named(rows, key) {
      var i :| 0 <= i < |rows| && OutKey(rows[i]) == key && OutRecord(rows[i]) == OutRecord(a);
      assert OutKey(all[i]) == key && OutKey(all[|rows|]) == key && all[i].id == all[|rows|].id;
    }
    if NoRepeat(all, key) {
      forall i, j | 0 <= i < j < |rows| && OutKey(rows[i]) == key && OutKey(rows[j]) == key
        ensures rows[i].id != rows[j].id
      {
        assert OutKey(all[i]) == key && OutKey(all[j]) == key;
      }
    }
    if NoRepeat(rows, key) && !(OutKey(a) == key && OutRecord(a) in Named(rows, key)) {
      forall i, j | 0 <= i < j < |all| && OutKey(all[i]) == key && OutKey(all[j]) == key
        ensures all[i].id != all[j].id
      {
        if j < |rows| {
          assert OutKey(rows[i]) == key && OutKey(rows[j]) == key;
        } else {
          assert OutRecord(rows[i]) in Named(rows, key);
        }
      }
    }
  }

  /**
   * Under one key a row occurs at least once for each record it names, and more often exactly when an identifier
   * repeats.
   */
  lemma {:induction false} NamedOccur(rows: seq<Row>, key: CountKey)
    ensures |Named(rows, key)| <= Occurrences(rows, key)
    ensures |Named(rows, key)| == Occurrences(rows, key) <==> NoRepeat(rows, key)
  {
    if rows == [] {
      assert Named(rows, key) == {};
    } else {
      var init, last := rows[..|rows| - 1], rows[|rows| - 1];
      assert rows == init + [last];
      NamedOccur(init, key);
      NoRepeatSnoc(init, last, key);
      assert Named(rows, key) == Named(init, key) + if OutKey(last) == key then {OutRecord(last)} else {};
      hide NoRepeat, Named;
    }
  }

  // When the cache stays right.

  ghost predicate Agrees(counts: map<CountKey, nat>, stored: set<AdjacencyKey>) {
    forall key :: key in counts ==> counts[key] == CountIn(stored, key)
  }

  /**
   * The condition on an out key rows are written under. If its count was cached, the identifiers of the rows under it
   * are different and none is stored there yet; if not, the rows repeat as many identifiers as the store has records
   * under it that they leave alone.
   */
  ghost predicate AddsUp(counts: map<CountKey, nat>, stored: set<AdjacencyKey>, rows: seq<Row>, key: CountKey) {
    var before, named := CountedIn(stored, key), Named(rows, key);
    if key in counts then NoRepeat(rows, key) && before !! named
    else Occurrences(rows, key) - |named| == |before - named|
  }

  /**
   * The condition on an out key rows are deleted under: they delete all its records, or its count was cached and they
   * delete that many different ones.
   */
  ghost predicate TakesAway(counts: map<CountKey, nat>, stored: set<AdjacencyKey>, rows: seq<Row>, key: CountKey) {
    var before, named := CountedIn(stored, key), Named(rows, key);
    before <= named || (key in counts && NoRepeat(rows, key) && named <= before)
  }

  lemma UnionCard<T>(a: set<T>, b: set<T>)
    ensures |a + b| == |a - b| + |b| == |a| + |b - a|
    ensures |b - a| == |b| <==> a !! b
    ensures |b - a| <= |b|
  {
    assert a + b == (a - b) + b && a + b == a + (b - a);
    assert b == (b - a) + (a * b);
    if |b - a| == |b| { assert a * b == {}; }
    if a !! b { assert b - a == b; }
  }

  lemma MinusCard<T>(a: set<T>, b: set<T>)
    ensures |a - b| + |a * b| == |a|
    ensures |a * b| <= |b|
    ensures |a - b| == 0 <==> a <= b
    ensures |a * b| == |b| <==> b <= a
  {
    assert a == (a - b) + (a * b) && b == (b - a) + (a * b);
    if |a - b| == 0 { assert a - b == {}; }
    if |a * b| == |b| { assert b - a == {}; }
    if b <= a { assert a * b == b; }
  }

  /** One key of the cache after rows were written. */
  lemma AddedCountIsRight(counts: map<CountKey, nat>, stored: set<AdjacencyKey>, rows: seq<Row>, key: CountKey)
    requires Agrees(counts, stored) && (key in counts || TouchesOut(rows, key)) && !TouchesIn(rows, key)
    ensures Moved(counts, rows, 1, key) == CountIn(stored + RecordsOf(rows), key) <==>
              (TouchesOut(rows, key) ==> AddsUp(counts, stored, rows, key))
  {
    var before, named := CountedIn(stored, key), Named(rows, key);
    NamedIsCounted(rows, key);
    NamedOccur(rows, key);
    UnionCard(before, named);
    hide Named, NoRepeat, Occurrences;
    assert CountedIn(stored + RecordsOf(rows), key) == before + CountedIn(RecordsOf(rows), key);
    if !TouchesOut(rows, key) { Untouched(rows, key); }
  }

  /** One key of the cache after rows were deleted. */
  lemma RemovedCountIsRight(counts: map<CountKey, nat>, stored: set<AdjacencyKey>, rows: seq<Row>, key: CountKey)
    requires Agrees(counts, stored) && (key in counts || TouchesOut(rows, key)) && !TouchesIn(rows, key)
    ensures Moved(counts, rows, -1, key) == CountIn(stored - RecordsOf(rows), key) <==>
              (TouchesOut(rows, key) ==> TakesAway(counts, stored, rows, key))
  {
    var before, named := CountedIn(stored, key), Named(rows, key);
    NamedIsCounted(rows, key);
    NamedOccur(rows, key);
    MinusCard(before, named);
    hide Named, NoRepeat, Occurrences;
    assert CountedIn(stored - RecordsOf(rows), key) == before - CountedIn(RecordsOf(rows), key);
    if !TouchesOut(rows, key) { Untouched(rows, key); }
  }

  lemma Untouched(rows: seq<Row>, key: CountKey)
    requires !TouchesOut(rows, key)
    ensures Named(rows, key) == {}
  {
    forall a | a in rows ensures OutKey(a) != key { }
  }

  /**
   * Without a transaction: writing any rows keeps an agreeing cache in agreement exactly when every out key adds up.
   */
  lemma AdditionAgreesIff(counts: map<CountKey, nat>, store: map<AdjacencyKey, string>, rows: seq<Row>,
                          after: map<CountKey, nat>)
    requires Agrees(counts, store.Keys) && Updated(counts, rows, 1, after)
    ensures Agrees(after, Written(store, rows).Keys) <==>
              forall key :: TouchesOut(rows, key) ==> AddsUp(counts, store.Keys, rows, key)
  {
    WrittenKeys(store, rows);
    hide Moved, CountIn, AddsUp, RecordsOf;
    forall key | key in after
      ensures after[key] == CountIn(store.Keys + RecordsOf(rows), key) <==>
                (TouchesOut(rows, key) ==> AddsUp(counts, store.Keys, rows, key))
    {
      AddedCountIsRight(counts, store.Keys, rows, key);
    }
    forall key | TouchesOut(rows, key) ensures key in after { OutIsNotIn(rows, key); }
  }

  /** Likewise for deleting any rows. */
  lemma RemovalAgreesIff(counts: map<CountKey, nat>, store: map<AdjacencyKey, string>, rows: seq<Row>,
                         after: map<CountKey, nat>)
    requires Agrees(counts, store.Keys) && Updated(counts, rows, -1, after)
    ensures Agrees(after, Erased(store, rows).Keys) <==>
              forall key :: TouchesOut(rows, key) ==> TakesAway(counts, store.Keys, rows, key)
  {
    hide Moved, CountIn, TakesAway, RecordsOf;
    assert Erased(store, rows).Keys == store.Keys - RecordsOf(rows);
    forall key | key in after
      ensures after[key] == CountIn(store.Keys - RecordsOf(rows), key) <==>
                (TouchesOut(rows, key) ==> TakesAway(counts, store.Keys, rows, key))
    {
      RemovedCountIsRight(counts, store.Keys, rows, key);
    }
    forall key | TouchesOut(rows, key) ensures key in after { OutIsNotIn(rows, key); }
  }

  lemma OutIsNotIn(rows: seq<Row>, key: CountKey)
    requires TouchesOut(rows, key)
    ensures key.outgoing && !TouchesIn(rows, key)
  {
  }

  // One edge at a time.

  lemma OneRow(a: Row, key: CountKey)
    ensures TouchesOut([a], key) <==> OutKey(a) == key
    ensures OutKey(a) == key ==> Named([a], key) == {OutRecord(a)} && Occurrences([a], key) == 1 && NoRepeat([a], key)
  {
    OneOccurs(a, key);
    hide Occurrences;
    assert a in [a];
    assert forall b :: b in [a] <==> b == a;
  }

  lemma OneOccurs(a: Row, key: CountKey)
    ensures Occurrences([a], key) == if OutKey(a) == key then 1 else 0
  {
    assert [a][..0] == [];
  }

  /** Writing one row is right when its count was cached and its identifier is new, or nothing else is under its key. */
  lemma OneAddsUp(counts: map<CountKey, nat>, stored: set<AdjacencyKey>, a: Row)
    ensures AddsUp(counts, stored, [a], OutKey(a)) <==>
              if OutKey(a) in counts then OutRecord(a) !in stored
              else CountedIn(stored, OutKey(a)) <= {OutRecord(a)}
  {
    OneRow(a, OutKey(a));
    var rest := CountedIn(stored, OutKey(a)) - {OutRecord(a)};
    assert |rest| == 0 <==> rest == {};
  }

  /** Deleting a stored row is right when its count was cached or it is the last one under its key. */
  lemma OneTakesAway(counts: map<CountKey, nat>, stored: set<AdjacencyKey>, a: Row)
    requires OutRecord(a) in stored
    ensures TakesAway(counts, stored, [a], OutKey(a)) <==> OutKey(a) in counts || CountIn(stored, OutKey(a)) == 1
  {
    OneRow(a, OutKey(a));
    var before := CountedIn(stored, OutKey(a));
    assert before == {OutRecord(a)} + (before - {OutRecord(a)});
    assert |before| == 1 + |before - {OutRecord(a)}|;
    if |before| == 1 { assert before - {OutRecord(a)} == {}; }
  }

  /** What the row does to a key of the cache that is no in key of it. */
  lemma UpdatedKeys(counts: map<CountKey, nat>, a: Row, delta: int, after: map<CountKey, nat>, key: CountKey)
    requires Updated(counts, [a], delta, after) && key.outgoing
    ensures key in after <==> key in counts || key == OutKey(a)
    ensures key in after ==> after[key] == if key == OutKey(a) then Max(0, Cached(counts, key) + delta) else counts[key]
  {
    OneRow(a, key);
    assert !TouchesIn([a], key);
  }

  /**
   * `put_edge` on a stored edge: its old row is deleted and its new row written, with one update of the cache for each.
   * The cache stays right exactly when the old out count was cached or the edge was the last one under it, and the new
   * one was cached too, or is the old one, or was zero.
   */
  lemma PutEdgeAgreesIff(counts: map<CountKey, nat>, store: map<AdjacencyKey, string>, old_: Row, new_: Row,
                         between: map<CountKey, nat>, after: map<CountKey, nat>)
    requires Agrees(counts, store.Keys) && old_.id == new_.id && OutRecord(old_) in store
    requires OutRecord(new_) in store ==> OutKey(new_) == OutKey(old_)
    requires Updated(counts, [old_], -1, between) && Updated(between, [new_], 1, after)
    ensures Agrees(after, Written(Erased(store, [old_]), [new_]).Keys) <==>
              && (OutKey(old_) in counts || CountIn(store.Keys, OutKey(old_)) == 1)
              && (OutKey(new_) in counts || OutKey(new_) == OutKey(old_) || CountIn(store.Keys, OutKey(new_)) == 0)
  {
    hide Updated, Written, Agrees, AddsUp, TakesAway;
    var erased, key := Erased(store, [old_]), OutKey(old_);
    OneTakesAway(counts, store.Keys, old_);
    OneAddsUp(between, erased.Keys, new_);
    RemovalAgreesIff(counts, store, [old_], between);
    forall k ensures TouchesOut([old_], k) <==> OutKey(old_) == k { OneRow(old_, k); }
    forall k ensures TouchesOut([new_], k) <==> OutKey(new_) == k { OneRow(new_, k); }
    UpdatedKeys(counts, old_, -1, between, OutKey(new_));
    if Agrees(between, erased.Keys) {
      AdditionAgreesIff(between, erased, [new_], after);
      ErasedElsewhere(store, old_, new_);
    } else {
      OldCountStaysWrong(counts, store, old_, new_, between, after);
    }
  }

  lemma ErasedElsewhere(store: map<AdjacencyKey, string>, old_: Row, new_: Row)
    requires old_.id == new_.id && (OutRecord(new_) in store ==> OutKey(new_) == OutKey(old_))
    ensures OutRecord(new_) !in Erased(store, [old_])
    ensures OutKey(new_) != OutKey(old_) ==>
              (CountedIn(Erased(store, [old_]).Keys, OutKey(new_)) <= {OutRecord(new_)} <==>
               CountIn(store.Keys, OutKey(new_)) == 0)
  {
    assert old_ in [old_];
    if OutKey(new_) == OutKey(old_) { assert OutRecord(new_) == OutRecord(old_); }
    var there := CountedIn(store.Keys, OutKey(new_));
    if OutKey(new_) != OutKey(old_) {
      assert CountedIn(Erased(store, [old_]).Keys, OutKey(new_)) == there && OutRecord(new_) !in there;
      assert |there| == 0 <==> there == {};
    }
  }

  /** Uncached and with other edges under it, the old out count becomes zero while records remain. */
  lemma OldCountStaysWrong(counts: map<CountKey, nat>, store: map<AdjacencyKey, string>, old_: Row, new_: Row,
                           between: map<CountKey, nat>, after: map<CountKey, nat>)
    requires old_.id == new_.id && OutRecord(old_) in store && OutKey(old_) !in counts
    requires CountIn(store.Keys, OutKey(old_)) != 1
    requires Updated(counts, [old_], -1, between) && Updated(between, [new_], 1, after)
    ensures !Agrees(after, Written(Erased(store, [old_]), [new_]).Keys)
  {
    hide Updated, Erased;
    var key, stored := OutKey(old_), Written(Erased(store, [old_]), [new_]).Keys;
    UpdatedKeys(counts, old_, -1, between, key);
    UpdatedKeys(between, new_, 1, after, key);
    RemainingUnder(store, old_, new_);
    assert key in after && after[key] < CountIn(stored, key);
  }

  lemma Rewritten(stored: set<AdjacencyKey>, gone: set<AdjacencyKey>, new_: set<AdjacencyKey>, key: CountKey)
    ensures CountedIn(stored - gone + new_, key) ==
              CountedIn(stored, key) - CountedIn(gone, key) + CountedIn(new_, key)
  {
  }

  lemma LessOne<T>(s: set<T>, x: T)
    requires x in s
    ensures |s - {x}| == |s| - 1 && |s - {x} + {x}| == |s|
  {
    assert s - {x} + {x} == s;
  }

  lemma RemainingUnder(store: map<AdjacencyKey, string>, old_: Row, new_: Row)
    requires old_.id == new_.id && OutRecord(old_) in store && CountIn(store.Keys, OutKey(old_)) != 1
    ensures CountIn(Written(Erased(store, [old_]), [new_]).Keys, OutKey(old_)) >
              if OutKey(new_) == OutKey(old_) then 1 else 0
  {
    var key, gone := OutKey(old_), OutRecord(old_);
    var before := CountedIn(store.Keys, key);
    WrittenKeys(Erased(store, [old_]), [new_]);
    NamedIsCounted([old_], key);
    NamedIsCounted([new_], key);
    OneRow(old_, key);
    OneRow(new_, key);
    if OutKey(new_) != key { Untouched([new_], key); }
    Rewritten(store.Keys, RecordsOf([old_]), RecordsOf([new_]), key);
    LessOne(before, gone);
    hide Named, RecordsOf, Written, CountedIn;
    assert OutKey(new_) == key ==> OutRecord(new_) == gone;
  }

  // Batches that break the cache although every out count touched was cached.

  /** Loading e1 from s again, now to b: the store still has one record under s, the cache says two. */
  lemma ReloadMiscounts(after: map<CountKey, nat>)
    requires Updated(map[CountKey(true, "s", "T") := 1], [Row("s", "b", "T", "e1")], 1, after)
    ensures var store := Written(map[], [Row("s", "a", "T", "e1")]);
            && Agrees(map[CountKey(true, "s", "T") := 1], store.Keys)
            && CountIn(Written(store, [Row("s", "b", "T", "e1")]).Keys, CountKey(true, "s", "T")) == 1
            && CountKey(true, "s", "T") in after && after[CountKey(true, "s", "T")] == 2
  {
    var key, first, again := CountKey(true, "s", "T"), Row("s", "a", "T", "e1"), Row("s", "b", "T", "e1");
    WrittenKeys(map[], [first]);
    var store := Written(map[], [first]);
    WrittenKeys(store, [again]);
    NamedIsCounted([first], key);
    NamedIsCounted([again], key);
    OneRow(first, key);
    OneRow(again, key);
    UpdatedKeys(map[key := 1], again, 1, after, key);
    hide Written, Updated, RecordsOf;
    assert CountedIn(store.Keys, key) == CountedIn(RecordsOf([first]), key);
    assert CountedIn(Written(store, [again]).Keys, key) ==
             CountedIn(RecordsOf([first]), key) + CountedIn(RecordsOf([again]), key);
    assert OutRecord(first) == OutRecord(again);
  }

  /** Listing e1 twice in one batch, with two targets: the store gains one record under s, the cache two. */
  lemma RepetitionMiscounts(after: map<CountKey, nat>)
    requires Updated(map[CountKey(true, "s", "T") := 0], [Row("s", "a", "T", "e1"), Row("s", "b", "T", "e1")], 1, after)
    ensures !Agrees(after, Written(map[], [Row("s", "a", "T", "e1"), Row("s", "b", "T", "e1")]).Keys)
  {
    var key, rows := CountKey(true, "s", "T"), [Row("s", "a", "T", "e1"), Row("s", "b", "T", "e1")];
    assert OutKey(rows[0]) == key && OutKey(rows[1]) == key && rows[0].id == rows[1].id;
    assert !NoRepeat(rows, key);
    assert TouchesOut(rows, key) by { assert rows[0] in rows; }
    assert Agrees(map[key := 0], {}) by { assert CountedIn({}, key) == {}; }
    var store: map<AdjacencyKey, string> := map[];
    assert store.Keys == {};
    AdditionAgreesIff(map[key := 0], store, rows, after);
  }
}
