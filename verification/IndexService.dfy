/**
 * The session, its write scope and the index service as objects. Every store primitive may raise, and so may
 * the commit; the methods are tied to the state changes of IndexState.
 */
module IndexService {
  import opened Common
  import opened IndexMeaning
  import opened IndexState

  /** The store with more index entries of one kind. */
  function WithEntries(s: Store, kind: Kind, entries: set<Entry>): Store {
    s.With(kind, s.Of(kind).(entries := s.Of(kind).entries + entries))
  }

  lemma WithEntriesTwice(s: Store, kind: Kind, a: set<Entry>, b: set<Entry>)
    ensures WithEntries(WithEntries(s, kind, a), kind, b) == WithEntries(s, kind, a + b)
    ensures WithEntries(s, kind, {}) == s
  {
    var t := s.Of(kind);
    assert (t.entries + a) + b == t.entries + (a + b);
    assert t.entries + {} == t.entries;
  }

  /**
   * How a call uses up the primitives that succeed before one raises (negative: none raises): it fails exactly when it
   * reaches the one that raises.
   */
  predicate Spent(before: int, after: int, ok: bool) {
    && (before < 0 ==> after < 0)
    && (ok <==> before < 0 || after >= 0)
  }

  /** A backend transaction: a staged store, and how many primitives succeed before one raises. */
  class Transaction {
    var staged: Store
    var faults: int

    constructor (store: Store, faults: int)
      ensures staged == store && this.faults == faults
    {
      staged := store;
      this.faults := faults;
    }

    method Primitive() returns (ok: bool)
      modifies this`faults
      ensures Spent(old(faults), faults, ok)
      ensures ok <==> old(faults) != 0
    {
      ok := faults != 0;
      faults := faults - 1;
    }

    method PutEntries(kind: Kind, entries: set<Entry>) returns (ok: bool)
      modifies this
      ensures Spent(old(faults), faults, ok)
      ensures ok ==> staged == WithEntries(old(staged), kind, entries)
    {
      ok := Primitive();
      if ok { staged := staged.With(kind, staged.Of(kind).(entries := staged.Of(kind).entries + entries)); }
    }

    method DeleteEntries(kind: Kind, entries: set<Entry>) returns (ok: bool)
      modifies this
      ensures Spent(old(faults), faults, ok)
      ensures ok ==> staged == var t := old(staged).Of(kind);
                               old(staged).With(kind, t.(entries := t.entries - entries))
    {
      ok := Primitive();
      if ok { staged := staged.With(kind, staged.Of(kind).(entries := staged.Of(kind).entries - entries)); }
    }

    method PutRecords(kind: Kind, records: map<string, Record>) returns (ok: bool)
      modifies this
      ensures Spent(old(faults), faults, ok)
      ensures ok ==> staged == var t := old(staged).Of(kind);
                               old(staged).With(kind, t.(records := t.records + records))
    {
      ok := Primitive();
      if ok { staged := staged.With(kind, staged.Of(kind).(records := staged.Of(kind).records + records)); }
    }

    method PutAdjacency(added: map<AdjacencyKey, string>) returns (ok: bool)
      modifies this
      ensures Spent(old(faults), faults, ok)
      ensures ok ==> staged == old(staged).(adjacency := old(staged).adjacency + added)
    {
      ok := Primitive();
      if ok { staged := staged.(adjacency := staged.adjacency + added); }
    }

    method DeleteAdjacency(removed: set<AdjacencyKey>) returns (ok: bool)
      modifies this
      ensures Spent(old(faults), faults, ok)
      ensures ok ==> staged == old(staged).(adjacency := old(staged).adjacency - removed)
    {
      ok := Primitive();
      if ok { staged := staged.(adjacency := staged.adjacency - removed); }
    }

    method PersistNames(kind: Kind, names: set<string>) returns (ok: bool)
      modifies this
      ensures Spent(old(faults), faults, ok)
      ensures ok ==> staged == old(staged).With(kind, old(staged).Of(kind).(names := names))
    {
      ok := Primitive();
      if ok { staged := staged.With(kind, staged.Of(kind).(names := names)); }
    }

    method PersistStale(stale: set<Family>) returns (ok: bool)
      modifies this
      ensures Spent(old(faults), faults, ok)
      ensures ok ==> staged == old(staged).(stale := stale)
    {
      ok := Primitive();
      if ok { staged := staged.(stale := stale); }
    }
  }

  /** Delete what the store holds for a record about to be replaced. */
  method DeleteOld(tx: Transaction, kind: Kind, names: set<string>, id: string, r: Record) returns (ok: bool)
    modifies tx
    ensures Spent(old(tx.faults), tx.faults, ok)
    ensures ok ==>
              var (s, t) := (old(tx.staged), old(tx.staged).Of(kind));
              tx.staged ==
                s.With(kind, t.(entries := t.entries - EntriesOf(id, r, true, names)))
                 .(adjacency := if kind == EdgeKind then s.adjacency - AdjacencyOf(id, r).Keys else s.adjacency)
  {
    if kind == EdgeKind {
      ok := tx.DeleteAdjacency(AdjacencyOf(id, r).Keys);
      if !ok { return; }
    }
    ok := tx.DeleteEntries(kind, EntriesOf(id, r, true, names));
  }

  /** `put_node` and `put_edge`. */
  method PutRecord(tx: Transaction, kind: Kind, names: set<string>, id: string, r: Record) returns (ok: bool)
    modifies tx
    ensures Spent(old(tx.faults), tx.faults, ok)
    ensures ok ==> tx.staged == PutStore(old(tx.staged), kind, names, id, r)
  {
    var records := tx.staged.Of(kind).records;
    assert records + map[id := r] == records[id := r];
    if id in records {
      ok := DeleteOld(tx, kind, names, id, records[id]);
      if !ok { return; }
    }
    ok := tx.PutRecords(kind, map[id := r]);
    if !ok { return; }
    if kind == EdgeKind {
      ok := tx.PutAdjacency(AdjacencyOf(id, r));
      if !ok { return; }
    }
    ok := tx.PutEntries(kind, EntriesOf(id, r, true, names));
  }

  /** Of the scan, the entries of the records that are done are written or buffered. */
  ghost predicate Scanned(records: map<string, Record>, remaining: set<string>, labels: bool, properties: set<string>,
                          written: set<Entry>, buffer: set<Entry>) {
    && remaining <= records.Keys
    && forall e: Entry :: e in written + buffer <==>
         e.id in records && e.id !in remaining && Describes(e, records[e.id], labels, properties)
  }

  lemma ScannedStep(records: map<string, Record>, remaining: set<string>, labels: bool, properties: set<string>,
                    written: set<Entry>, buffer: set<Entry>, id: string)
    requires Scanned(records, remaining, labels, properties, written, buffer) && id in remaining
    ensures Scanned(records, remaining - {id}, labels, properties, written,
                    buffer + EntriesOf(id, records[id], labels, properties))
  {
    forall e
      ensures e in EntriesOf(id, records[id], labels, properties) <==>
                e.id == id && Describes(e, records[id], labels, properties)
    {
      InEntriesOf(e, id, records[id], labels, properties);
    }
  }

  lemma ScannedAll(records: map<string, Record>, labels: bool, properties: set<string>, written: set<Entry>)
    requires Scanned(records, {}, labels, properties, written, {})
    ensures written == Scan(records, labels, properties)
  {
    forall e ensures e in written <==> e in Scan(records, labels, properties) {
      InScan(e, records, labels, properties);
      assert e in written + {} <==> e in written;
    }
  }

  /** `flush_index_rebuild_batches`. */
  method Flush(tx: Transaction, kind: Kind, buffer: set<Entry>) returns (ok: bool)
    modifies tx
    ensures Spent(old(tx.faults), tx.faults, ok)
    ensures ok ==> tx.staged == WithEntries(old(tx.staged), kind, buffer)
  {
    WithEntriesTwice(tx.staged, kind, {}, {});
    ok := true;
    if buffer != {} {
      ok := tx.PutEntries(kind, buffer);
    }
  }

  lemma Flushed(records: map<string, Record>, remaining: set<string>, labels: bool, properties: set<string>,
                written: set<Entry>, buffer: set<Entry>)
    requires Scanned(records, remaining, labels, properties, written, buffer)
    ensures Scanned(records, remaining, labels, properties, written + buffer, {})
  {
    assert (written + buffer) + {} == written + buffer;
  }

  /** The scan of `rebuild_node_indexes` or `rebuild_edge_indexes`, flushing the buffer in batches. */
  method EmitEntries(tx: Transaction, kind: Kind, labels: bool, properties: set<string>, batchSize: int)
    returns (ok: bool)
    modifies tx
    ensures Spent(old(tx.faults), tx.faults, ok)
    ensures ok ==>
              tx.staged == WithEntries(old(tx.staged), kind, Scan(old(tx.staged).Of(kind).records, labels, properties))
  {
    ghost var before := tx.staged;
    var records := tx.staged.Of(kind).records;
    var remaining, buffer := records.Keys, {};
    ghost var written: set<Entry> := {};
    WithEntriesTwice(before, kind, {}, {});
    while remaining != {}
      invariant tx.staged == WithEntries(before, kind, written) && Spent(old(tx.faults), tx.faults, true)
      invariant Scanned(records, remaining, labels, properties, written, buffer)
      decreases |remaining|
    {
      var id :| id in remaining;
      ScannedStep(records, remaining, labels, properties, written, buffer, id);
      buffer := buffer + EntriesOf(id, records[id], labels, properties);
      remaining := remaining - {id};
      if |buffer| >= batchSize {
        ok := Flush(tx, kind, buffer);
        if !ok { return; }
        WithEntriesTwice(before, kind, written, buffer);
        Flushed(records, remaining, labels, properties, written, buffer);
        written, buffer := written + buffer, {};
      }
    }
    ok := Flush(tx, kind, buffer);
    WithEntriesTwice(before, kind, written, buffer);
    Flushed(records, {}, labels, properties, written, buffer);
    ScannedAll(records, labels, properties, written + buffer);
  }

  method RebuildIndexes(tx: Transaction, kind: Kind, names: set<string>, labels: bool, properties: set<string>,
                        batchSize: int)
    returns (ok: bool)
    modifies tx
    ensures Spent(old(tx.faults), tx.faults, ok)
    ensures ok ==> tx.staged == RebuildStore(old(tx.staged), kind, names, labels, properties)
  {
    ok := EmitEntries(tx, kind, labels, properties, batchSize);
    if !ok { return; }
    ghost var stale := tx.staged.stale;
    if labels {
      ok := tx.PersistStale(tx.staged.stale - {LabelFamily(kind)});
      if !ok { return; }
    }
    if properties != {} && names <= properties {
      ok := tx.PersistStale(tx.staged.stale - {PropertyFamily(kind)});
      if !ok { return; }
    }
    assert tx.staged.stale == stale - Cleared(kind, names, labels, properties);
  }

  /** The index part of a columnar load. */
  method IngestIndexes(tx: Transaction, kind: Kind, names: set<string>, items: map<string, Record>, mode: IngestMode)
    returns (ok: bool)
    modifies tx
    ensures Spent(old(tx.faults), tx.faults, ok)
    ensures ok && mode.Maintain? ==> tx.staged == WithEntries(old(tx.staged), kind, Scan(items, true, names))
    ensures ok && mode.Defer? ==>
              tx.staged == old(tx.staged).(stale := old(tx.staged).stale + {LabelFamily(kind)} +
                                                    if names != {} then {PropertyFamily(kind)} else {})
  {
    if mode.Maintain? {
      ok := tx.PutEntries(kind, Scan(items, true, names));
      return;
    }
    ok := tx.PersistStale(tx.staged.stale + {LabelFamily(kind)});
    if !ok { return; }
    if names != {} {
      ok := tx.PersistStale(tx.staged.stale + {PropertyFamily(kind)});
    }
  }

  /** One columnar load; edges are refused unless append-only. */
  method IngestRecords(tx: Transaction, kind: Kind, names: set<string>, items: map<string, Record>, mode: IngestMode)
    returns (ok: bool)
    modifies tx
    ensures !Refused(kind, mode) ==> Spent(old(tx.faults), tx.faults, ok)
    ensures Refused(kind, mode) ==> !ok
    ensures ok ==> tx.staged == IngestStore(old(tx.staged), kind, names, items, mode)
  {
    if Refused(kind, mode) {
      return false;
    }
    var t := tx.staged.Of(kind);
    if Replaces(mode) {
      var replaced := map id | id in items && id in t.records :: t.records[id];
      ok := tx.DeleteEntries(kind, Scan(replaced, true, names));
      if !ok { return; }
    }
    ok := tx.PutRecords(kind, items);
    if !ok { return; }
    if kind == EdgeKind {
      ok := tx.PutAdjacency(LoadedAdjacency(items));
      if !ok { return; }
    }
    ok := IngestIndexes(tx, kind, names, items, mode);
  }

  datatype Error = StorageFailure | NoTemporalCapability

  /** What the coordinator was given for temporal history. */
  datatype TemporalCapability = Absent | Present(unindexedHistory: bool)

  /** How the backend behaves in one write scope. */
  datatype Backend = Backend(faults: int, commitFails: bool)

  class StorageSession {
    var store: Store
    var nodeNames: set<string>
    var edgeNames: set<string>
    var counts: map<CountKey, nat>

    /** The index names are loaded from the store's metadata. */
    constructor (store: Store)
      ensures Now() == State(store, store.nodes.names, store.edges.names, map[])
      ensures this.store == store && nodeNames == store.nodes.names && edgeNames == store.edges.names && counts == map[]
      ensures store == EMPTY_STORE ==> Good(Now())
    {
      this.store := store;
      nodeNames, edgeNames, counts := store.nodes.names, store.edges.names, map[];
    }

    ghost function Now(): State
      reads this
    {
      State(store, nodeNames, edgeNames, counts)
    }

    function Live(kind: Kind): set<string>
      reads this
    {
      if kind == NodeKind then nodeNames else edgeNames
    }

    /** The end of a write scope: commit and clear the counts, or let the error pass with nothing changed. */
    method Commit(tx: Transaction, commitFails: bool) returns (ok: bool)
      modifies this
      ensures ok == !commitFails
      ensures Now() == if ok then old(Now()).Committed(tx.staged) else old(Now())
    {
      if commitFails {
        return false;
      }
      store := tx.staged;
      counts := map[];
      return true;
    }

    method Put(kind: Kind, id: string, r: Record, backend: Backend) returns (ok: bool)
      modifies this
      ensures Now() == if ok then Apply(old(Now()), Op.Put(kind, id, r)) else old(Now())
      ensures ok ==> IsPut(old(Now()), Now(), kind, id, r)
      ensures ok ==> id in store.Of(kind).records && store.Of(kind).records[id] == r
      ensures backend.faults < 0 && !backend.commitFails ==> ok
      ensures backend.commitFails ==> !ok
    {
      PutMeaning(Now(), kind, id, r);
      hide IsPut;
      var tx := new Transaction(store, backend.faults);
      ok := PutRecord(tx, kind, Live(kind), id, r);
      if ok { ok := Commit(tx, backend.commitFails); }
    }

    method Rebuild(kind: Kind, labels: bool, properties: Option<set<string>>, batchSize: int, backend: Backend)
      returns (ok: bool)
      modifies this
      ensures Now() == if ok then Apply(old(Now()), Op.Rebuild(kind, labels, properties)) else old(Now())
      ensures ok ==> IsRebuilt(old(Now()), Now(), kind, labels, properties)
      ensures backend.faults < 0 && !backend.commitFails ==> ok
      ensures backend.commitFails ==> !ok
    {
      RebuildMeaning(Now(), kind, labels, properties);
      hide IsRebuilt;
      var tx := new Transaction(store, backend.faults);
      ok := RebuildIndexes(tx, kind, Live(kind), labels, if properties.None? then Live(kind) else properties.value,
                           batchSize);
      if ok { ok := Commit(tx, backend.commitFails); }
    }

    method Ingest(kind: Kind, items: map<string, Record>, mode: IngestMode, backend: Backend) returns (ok: bool)
      modifies this
      ensures Now() == if ok then Apply(old(Now()), Op.Ingest(kind, items, mode)) else old(Now())
      ensures ok ==> IsIngested(old(Now()), Now(), kind, items, mode)
      ensures ok ==> forall id :: id in items ==>
                id in store.Of(kind).records && store.Of(kind).records[id] == items[id]
      ensures backend.faults < 0 && !backend.commitFails && !(kind == EdgeKind && !mode.appendOnly) ==> ok
      ensures backend.commitFails || (kind == EdgeKind && !mode.appendOnly) ==> !ok
    {
      IngestMeaning(Now(), kind, items, mode);
      hide IsIngested;
      var tx := new Transaction(store, backend.faults);
      ok := IngestRecords(tx, kind, Live(kind), items, mode);
      if ok { ok := Commit(tx, backend.commitFails); }
    }

    /**
     * `_create_property_index`: rebuild and persist under a staged name set, publish the live name after the commit.
     */
    method CreatePropertyIndex(kind: Kind, name: string, backend: Backend) returns (ok: bool)
      modifies this
      ensures Now() == if ok then Apply(old(Now()), Create(kind, name)) else old(Now())
      ensures ok ==> IsCreated(old(Now()), Now(), kind, name)
      ensures backend.faults < 0 && !backend.commitFails ==> ok
      ensures backend.commitFails ==> !ok
    {
      CreateMeaning(Now(), kind, name);
      hide IsCreated;
      var tx := new Transaction(store, backend.faults);
      var names := Live(kind) + {name};
      ok := RebuildIndexes(tx, kind, names, false, {name}, 100000);
      if !ok { return; }
      ok := tx.PersistNames(kind, names);
      if !ok { return; }
      ok := Commit(tx, backend.commitFails);
      if ok {
        if kind == NodeKind { nodeNames := nodeNames + {name}; } else { edgeNames := edgeNames + {name}; }
      }
    }

    /** The cached count is the count of the committed store. */
    method CountTypedAdjacency(key: CountKey) returns (n: nat)
      requires Good(Now())
      modifies this`counts
      ensures Now() == Apply(old(Now()), ReadCount(key)) && Good(Now())
      ensures n == Count(store, key)
      ensures n == |set k | k in store.adjacency && k.outgoing == key.outgoing && k.node == key.node
                            && k.edgeType == key.edgeType|
      ensures store == old(store) && key in counts && counts[key] == n
    {
      CountMeaning(store, key);
      ApplyKeepsGood(Now(), ReadCount(key));
      if key in counts {
        return counts[key];
      }
      n := Count(store, key);
      counts := counts[key := n];
    }

    method StaleIndexes(temporal: TemporalCapability) returns (stale: set<Family>)
      ensures stale == store.stale + if temporal.Present? && temporal.unindexedHistory then {Temporal} else {}
    {
      stale := store.stale;
      if temporal.Present? && temporal.unindexedHistory {
        stale := stale + {Temporal};
      }
    }

    /**
     * `rebuild_deferred_indexes`: nodes, then edges, each in its own scope, then temporal history. On success both
     * current kinds are rebuilt; a failure keeps what was committed before it, and without a temporal capability a
     * persisted temporal mark is refused after both kinds were rebuilt.
     */
    method RebuildDeferredIndexes(temporal: TemporalCapability, nodeBackend: Backend, edgeBackend: Backend,
                                  temporalFails: bool)
      returns (r: Result<(), Error>)
      requires Good(Now())
      modifies this
      ensures Good(Now())
      ensures r.Ok? ==> Now() == Deferred(old(Now()))
      ensures r.Ok? ==> CatchesUp(old(Now()), Now(), NodeKind) && CatchesUp(old(Now()), Now(), EdgeKind)
      ensures r == Err(NoTemporalCapability) ==>
                Now() == Deferred(old(Now())) && Temporal in old(store.stale) && temporal.Absent?
      ensures Now() in {old(Now()), RebuildStale(old(Now()), NodeKind, old(store.stale)), Deferred(old(Now()))}
      ensures Temporal in old(store.stale) && temporal.Absent? ==> r.Err?
      ensures nodeBackend.faults < 0 && edgeBackend.faults < 0 && !nodeBackend.commitFails
              && !edgeBackend.commitFails ==>
                (Temporal in old(store.stale) && temporal.Absent? ==> r == Err(NoTemporalCapability))
                && (r.Ok? <==>
                      (Temporal in old(store.stale) || (temporal.Present? && temporal.unindexedHistory) ==>
                         temporal.Present? && !temporalFails))
    {
      hide Good, IsRebuilt, CatchesUp;
      var persisted := store.stale;
      var stale := StaleIndexes(temporal);
      ghost var start := Now();
      if NodeLabel in stale || NodeProperty in stale {
        ApplyKeepsGood(start,
                       Op.Rebuild(NodeKind, NodeLabel in stale, Some(if NodeProperty in stale then nodeNames else {})));
        var ok := Rebuild(NodeKind, NodeLabel in stale, Some(if NodeProperty in stale then nodeNames else {}), 100000,
                          nodeBackend);
        if !ok {
          return Err(StorageFailure);
        }
      }
      ghost var half := Now();
      assert half == RebuildStale(start, NodeKind, persisted);
      if EdgeType in stale || EdgeProperty in stale {
        ApplyKeepsGood(half,
                       Op.Rebuild(EdgeKind, EdgeType in stale, Some(if EdgeProperty in stale then edgeNames else {})));
        var ok := Rebuild(EdgeKind, EdgeType in stale, Some(if EdgeProperty in stale then edgeNames else {}), 100000,
                          edgeBackend);
        if !ok {
          return Err(StorageFailure);
        }
      }
      assert Now() == Deferred(start);
      DeferredMeaning(start);
      if Temporal in stale {
        if temporal.Absent? {
          return Err(NoTemporalCapability);
        }
        if temporalFails {
          return Err(StorageFailure);
        }
      }
      return Ok(());
    }
  }
}
