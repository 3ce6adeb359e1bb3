/** What the operations of IndexState do, read off records, entries and marks alone. */
module IndexMeaning {
  import opened Common
  import opened IndexState

  /** Records, entries, persisted names and marks of nodes and of edges. */
  lemma KindNames(s: Store, t: Table)
    ensures s.Of(NodeKind) == s.nodes && s.Of(EdgeKind) == s.edges
    ensures s.With(NodeKind, t) == Store(t, s.edges, s.adjacency, s.stale)
    ensures s.With(EdgeKind, t) == Store(s.nodes, t, s.adjacency, s.stale)
    ensures (LabelFamily(NodeKind), PropertyFamily(NodeKind)) == (NodeLabel, NodeProperty)
    ensures (LabelFamily(EdgeKind), PropertyFamily(EdgeKind)) == (EdgeType, EdgeProperty)
  {
  }

  /** A label of a record. */
  predicate HasLabel(records: map<string, Record>, id: string, text: string) {
    id in records && text in records[id].labels
  }

  /** A value of a property of a record, for one of the names. */
  predicate HasValue(records: map<string, Record>, names: set<string>, id: string, name: string, value: string) {
    id in records && name in names && name in records[id].properties && records[id].properties[name] == value
  }

  /** The entries of a full scan: one for each label, for each value of a name, and for each label with each value. */
  ghost predicate Lists(entries: set<Entry>, records: map<string, Record>, labels: bool, names: set<string>) {
    && (forall text, id :: ByLabel(text, id) in entries <==> labels && HasLabel(records, id, text))
    && (forall name, value, id :: ByProperty(name, value, id) in entries <==> HasValue(records, names, id, name, value))
    && (forall text, name, value, id :: ByLabelProperty(text, name, value, id) in entries <==>
          HasLabel(records, id, text) && HasValue(records, names, id, name, value))
  }

  lemma ScanLists(records: map<string, Record>, labels: bool, names: set<string>)
    ensures Lists(Scan(records, labels, names), records, labels, names)
  {
    forall e ensures e in Scan(records, labels, names) <==>
                     e.id in records && Describes(e, records[e.id], labels, names)
    {
      InScan(e, records, labels, names);
    }
    hide Scan;
  }

  lemma RecordLists(id: string, r: Record, labels: bool, names: set<string>)
    ensures Lists(EntriesOf(id, r, labels, names), map[id := r], labels, names)
  {
    forall e ensures e in EntriesOf(id, r, labels, names) <==> e.id == id && Describes(e, r, labels, names) {
      InEntriesOf(e, id, r, labels, names);
    }
    hide EntriesOf;
  }

  /** The forward and the reverse record of every edge, keyed by its type, with the other end as value. */
  ghost predicate Joins(adjacency: map<AdjacencyKey, string>, records: map<string, Record>) {
    && (forall k :: k in adjacency <==>
          k.id in records && k.edgeType in records[k.id].labels
          && k.node == if k.outgoing then records[k.id].source else records[k.id].target)
    && (forall k :: k in adjacency && k.id in records ==>
          adjacency[k] == if k.outgoing then records[k.id].target else records[k.id].source)
  }

  lemma LoadedJoins(items: map<string, Record>)
    ensures Joins(LoadedAdjacency(items), items)
  {
    forall k
      ensures k in LoadedAdjacency(items) <==>
              k.id in items && k.edgeType in items[k.id].labels && k.node == End(items[k.id], k.outgoing)
      ensures k in LoadedAdjacency(items) ==> LoadedAdjacency(items)[k] == End(items[k.id], !k.outgoing)
    {
      InLoaded(items, k);
    }
    hide LoadedAdjacency;
  }

  /** The other kind and its live names stay, and the counts are forgotten. */
  predicate OtherStays(s: State, next: State, kind: Kind) {
    && next.counts == map[]
    && if kind == NodeKind then next.store.edges == s.store.edges && next.edgeNames == s.edgeNames
       else next.store.nodes == s.store.nodes && next.nodeNames == s.nodeNames
  }

  /** The entries grow by a full scan. */
  ghost predicate AddsScan(t: Table, u: Table, labels: bool, names: set<string>) {
    exists added :: Lists(added, t.records, labels, names) && u.entries == t.entries + added
  }

  /** The entries of some records go, those of others come. */
  ghost predicate Exchanges(t: Table, u: Table, out: map<string, Record>, new_: map<string, Record>, live: set<string>)
  {
    exists gone, added :: Lists(gone, out, true, live) && Lists(added, new_, true, live)
                          && u.entries == t.entries - gone + added
  }

  /** The adjacency of some edges goes, that of others is written over what is left. */
  ghost predicate Overwrites(before: map<AdjacencyKey, string>, after: map<AdjacencyKey, string>,
                             out: map<string, Record>, new_: map<string, Record>)
  {
    exists gone, added :: Joins(gone, out) && Joins(added, new_) && after == before - gone.Keys + added
  }

  lemma ScanAdds(t: Table, u: Table, labels: bool, names: set<string>)
    requires u.entries == t.entries + Scan(t.records, labels, names)
    ensures AddsScan(t, u, labels, names)
  {
    ScanLists(t.records, labels, names);
    hide Scan, Lists;
    assert Lists(Scan(t.records, labels, names), t.records, labels, names);
  }

  /** A rebuild adds the scan of what it was asked for, the live names if it was not told which. */
  ghost predicate IsRebuilt(s: State, next: State, kind: Kind, labels: bool, properties: Option<set<string>>) {
    var (t, u, live) := (s.store.Of(kind), next.store.Of(kind), s.Live(kind));
    var names := if properties.None? then live else properties.value;
    && AddsScan(t, u, labels, names) && u.records == t.records && u.names == t.names
    && next.Live(kind) == live && OtherStays(s, next, kind) && next.store.adjacency == s.store.adjacency
    && next.store.stale == s.store.stale - (if labels then {LabelFamily(kind)} else {})
                                         - (if names != {} && live <= names then {PropertyFamily(kind)} else {})
  }

  lemma RebuildMeaning(s: State, kind: Kind, labels: bool, properties: Option<set<string>>)
    ensures IsRebuilt(s, Apply(s, Rebuild(kind, labels, properties)), kind, labels, properties)
  {
    var next, names := Apply(s, Rebuild(kind, labels, properties)), Wanted(s, kind, properties);
    ScanAdds(s.store.Of(kind), next.store.Of(kind), labels, names);
    hide AddsScan, Scan;
    assert next.store.stale == s.store.stale - (if labels then {LabelFamily(kind)} else {})
           - (if names != {} && s.Live(kind) <= names then {PropertyFamily(kind)} else {});
  }

  /** A new index adds the scan of its name, publishes the name, and clears the mark only if it is the only one. */
  ghost predicate IsCreated(s: State, next: State, kind: Kind, name: string) {
    var (t, u, live) := (s.store.Of(kind), next.store.Of(kind), s.Live(kind));
    && AddsScan(t, u, false, {name}) && u.records == t.records && u.names == live + {name}
    && next.Live(kind) == live + {name} && OtherStays(s, next, kind) && next.store.adjacency == s.store.adjacency
    && next.store.stale == s.store.stale - (if live <= {name} then {PropertyFamily(kind)} else {})
  }

  lemma CreateMeaning(s: State, kind: Kind, name: string)
    ensures IsCreated(s, Apply(s, Create(kind, name)), kind, name)
  {
    var next := Apply(s, Create(kind, name));
    ScanAdds(s.store.Of(kind), next.store.Of(kind), false, {name});
    hide AddsScan, Scan;
    assert next.store.stale == s.store.stale - (if s.Live(kind) <= {name} then {PropertyFamily(kind)} else {});
  }

  /** A put replaces the record and the entries of the one it replaces, and of an edge its adjacency. */
  ghost predicate IsPut(s: State, next: State, kind: Kind, id: string, r: Record) {
    var (t, u, live) := (s.store.Of(kind), next.store.Of(kind), s.Live(kind));
    var out := if id in t.records then map[id := t.records[id]] else map[];
    && u.records == t.records[id := r] && u.names == t.names && Exchanges(t, u, out, map[id := r], live)
    && next.Live(kind) == live && OtherStays(s, next, kind) && next.store.stale == s.store.stale
    && if kind == NodeKind then next.store.adjacency == s.store.adjacency
       else Overwrites(s.store.adjacency, next.store.adjacency, out, map[id := r])
  }

  lemma NothingToList(live: set<string>)
    ensures Lists({}, map[], true, live) && Joins(map[], map[])
  {
  }

  lemma PutExchanges(t: Table, live: set<string>, id: string, r: Record)
    ensures Exchanges(t, PutTable(t, live, id, r), if id in t.records then map[id := t.records[id]] else map[],
                      map[id := r], live)
  {
    RecordLists(id, r, true, live);
    NothingToList(live);
    if id in t.records { RecordLists(id, t.records[id], true, live); }
    hide EntriesOf, Lists;
    var out := if id in t.records then map[id := t.records[id]] else map[];
    var gone := if id in t.records then EntriesOf(id, t.records[id], true, live) else {};
    assert Lists(gone, out, true, live) && Lists(EntriesOf(id, r, true, live), map[id := r], true, live);
    assert t.entries - {} == t.entries;
  }

  lemma OverwriteWith(before: map<AdjacencyKey, string>, gone: map<AdjacencyKey, string>,
                      added: map<AdjacencyKey, string>, out: map<string, Record>, new_: map<string, Record>)
    requires Joins(gone, out) && Joins(added, new_)
    ensures Overwrites(before, before - gone.Keys + added, out, new_)
  {
    hide Joins;
  }

  lemma PutOverwrites(s: Store, id: string, r: Record)
    ensures Overwrites(s.adjacency, PutAdjacency(s, id, r),
                       if id in s.edges.records then map[id := s.edges.records[id]] else map[], map[id := r])
  {
    var records := s.edges.records;
    hide LoadedAdjacency, Joins, Overwrites;
    LoadedJoins(map[id := r]);
    if id in records {
      LoadedJoins(map[id := records[id]]);
      OverwriteWith(s.adjacency, AdjacencyOf(id, records[id]), AdjacencyOf(id, r), map[id := records[id]],
                    map[id := r]);
    } else {
      NothingToList({});
      var none: map<AdjacencyKey, string> := map[];
      OverwriteWith(s.adjacency, none, AdjacencyOf(id, r), map[], map[id := r]);
      assert s.adjacency - none.Keys == s.adjacency;
    }
  }

  lemma PutMeaning(s: State, kind: Kind, id: string, r: Record)
    ensures IsPut(s, Apply(s, Put(kind, id, r)), kind, id, r)
  {
    PutExchanges(s.store.Of(kind), s.Live(kind), id, r);
    PutOverwrites(s.store, id, r);
    hide Exchanges, Overwrites, PutAdjacency, EntriesOf;
  }

  /**
   * A load stores every record as given. Maintained, it adds their entries, and deletes those of replaced records
   * unless it is append-only; deferred, it leaves the entries and marks the label family, and the property family if
   * there are names. An edge load overwrites adjacency and deletes none.
   */
  ghost predicate IsIngested(s: State, next: State, kind: Kind, items: map<string, Record>, mode: IngestMode) {
    var (t, u, live) := (s.store.Of(kind), next.store.Of(kind), s.Live(kind));
    && u.records == t.records + items && u.names == t.names
    && (match mode
        case Maintain(appendOnly) =>
          && next.store.stale == s.store.stale
          && Exchanges(t, u, if appendOnly then map[] else map id | id in items && id in t.records :: t.records[id],
                       items, live)
        case Defer(_) =>
          && next.store.stale ==
               s.store.stale + {LabelFamily(kind)} + (if live != {} then {PropertyFamily(kind)} else {})
          && u.entries == t.entries)
    && next.Live(kind) == live && OtherStays(s, next, kind)
    && if kind == NodeKind then next.store.adjacency == s.store.adjacency
       else Overwrites(s.store.adjacency, next.store.adjacency, map[], items)
  }

  lemma IngestExchanges(t: Table, live: set<string>, items: map<string, Record>, appendOnly: bool)
    ensures Exchanges(t, IngestTable(t, live, items, Maintain(appendOnly)),
                      if appendOnly then map[] else map id | id in items && id in t.records :: t.records[id],
                      items, live)
  {
    var replaced := map id | id in items && id in t.records :: t.records[id];
    ScanLists(items, true, live);
    ScanLists(replaced, true, live);
    NothingToList(live);
    hide Scan, Lists;
    var gone := if appendOnly then {} else Scan(replaced, true, live);
    assert Lists(gone, if appendOnly then map[] else replaced, true, live);
    assert Lists(Scan(items, true, live), items, true, live);
    assert t.entries - {} == t.entries;
    assert IngestTable(t, live, items, Maintain(appendOnly)).entries == t.entries - gone + Scan(items, true, live);
  }

  lemma LoadOverwrites(before: map<AdjacencyKey, string>, items: map<string, Record>)
    ensures Overwrites(before, before + LoadedAdjacency(items), map[], items)
  {
    LoadedJoins(items);
    NothingToList({});
    hide LoadedAdjacency, Joins;
    var none: map<AdjacencyKey, string> := map[];
    assert before - none.Keys == before;
    assert Joins(none, map[]) && Joins(LoadedAdjacency(items), items);
  }

  lemma IngestMeaning(s: State, kind: Kind, items: map<string, Record>, mode: IngestMode)
    ensures IsIngested(s, Apply(s, Ingest(kind, items, mode)), kind, items, mode)
  {
    if mode.Maintain? { IngestExchanges(s.store.Of(kind), s.Live(kind), items, mode.appendOnly); }
    LoadOverwrites(s.store.adjacency, items);
    hide Exchanges, Overwrites, LoadedAdjacency, Scan;
  }

  /** A count is the number of records stored for one node, direction and type. */
  lemma CountMeaning(store: Store, key: CountKey)
    ensures Count(store, key) ==
            |set k | k in store.adjacency && k.outgoing == key.outgoing && k.node == key.node
                     && k.edgeType == key.edgeType|
  {
    assert CountedIn(store.adjacency.Keys, key) ==
           set k | k in store.adjacency && k.outgoing == key.outgoing && k.node == key.node
                   && k.edgeType == key.edgeType;
  }

  /** So a rebuild that is not told which properties to cover covers every live name. */
  lemma DefaultRebuildCovers(s: State, next: State, kind: Kind, labels: bool)
    requires IsRebuilt(s, next, kind, labels, None)
    ensures s.Live(kind) != {} ==> PropertyFamily(kind) !in next.store.stale
    ensures labels ==> LabelFamily(kind) !in next.store.stale
    ensures forall name, value, id :: HasValue(s.store.Of(kind).records, s.Live(kind), id, name, value) ==>
              ByProperty(name, value, id) in next.store.Of(kind).entries
    ensures forall text, name, value, id ::
              HasLabel(s.store.Of(kind).records, id, text)
              && HasValue(s.store.Of(kind).records, s.Live(kind), id, name, value) ==>
                ByLabelProperty(text, name, value, id) in next.store.Of(kind).entries
    ensures labels ==> forall text, id :: HasLabel(s.store.Of(kind).records, id, text) ==>
              ByLabel(text, id) in next.store.Of(kind).entries
  {
    hide HasLabel, HasValue;
  }

  /** The table of one kind after a deferred rebuild: its stale families are scanned, the rest stays. */
  ghost predicate CatchesUp(s: State, next: State, kind: Kind) {
    var (t, u, stale) := (s.store.Of(kind), next.store.Of(kind), s.store.stale);
    && AddsScan(t, u, LabelFamily(kind) in stale, if PropertyFamily(kind) in stale then s.Live(kind) else {})
    && u.records == t.records && u.names == t.names && next.Live(kind) == s.Live(kind)
  }

  lemma NothingScanned(t: Table)
    ensures AddsScan(t, t, false, {})
  {
    NothingToList({});
    ScanLists(t.records, false, {});
    hide Lists;
    var none := Scan(t.records, false, {});
    assert none == {} by {
      forall e ensures e !in none { InScan(e, t.records, false, {}); }
    }
    assert t.entries == t.entries + none;
  }

  lemma StaleCatchesUp(s: State, kind: Kind, stale: set<Family>)
    requires LabelFamily(kind) in stale <==> LabelFamily(kind) in s.store.stale
    requires PropertyFamily(kind) in stale <==> PropertyFamily(kind) in s.store.stale
    ensures CatchesUp(s, RebuildStale(s, kind, stale), kind) && KindStays(s, RebuildStale(s, kind, stale), Other(kind))
    ensures RebuildStale(s, kind, stale).store.adjacency == s.store.adjacency
    ensures RebuildStale(s, kind, stale).store.stale - {LabelFamily(kind), PropertyFamily(kind)}
            == s.store.stale - {LabelFamily(kind), PropertyFamily(kind)}
  {
    var names := if PropertyFamily(kind) in stale then s.Live(kind) else {};
    if LabelFamily(kind) in stale || PropertyFamily(kind) in stale {
      RebuildMeaning(s, kind, LabelFamily(kind) in stale, Some(names));
    } else {
      NothingScanned(s.store.Of(kind));
    }
    hide AddsScan, Apply;
  }

  predicate KindStays(s: State, next: State, kind: Kind) {
    next.store.Of(kind) == s.store.Of(kind) && next.Live(kind) == s.Live(kind)
  }

  /** A deferred rebuild scans, for nodes and for edges, exactly the families marked stale. */
  lemma DeferredMeaning(s: State)
    ensures CatchesUp(s, Deferred(s), NodeKind) && CatchesUp(s, Deferred(s), EdgeKind)
    ensures Deferred(s).store.adjacency == s.store.adjacency
    ensures Temporal in Deferred(s).store.stale <==> Temporal in s.store.stale
  {
    var half := RebuildStale(s, NodeKind, s.store.stale);
    StaleCatchesUp(s, NodeKind, s.store.stale);
    assert forall f :: f != NodeLabel && f != NodeProperty ==>
             (f in half.store.stale - {NodeLabel, NodeProperty} <==> f in half.store.stale)
             && (f in s.store.stale - {NodeLabel, NodeProperty} <==> f in s.store.stale);
    StaleCatchesUp(half, EdgeKind, s.store.stale);
    hide AddsScan, RebuildStale;
    assert Temporal in half.store.stale <==> Temporal in s.store.stale;
    assert forall store: set<Family> :: Temporal in store - {EdgeType, EdgeProperty} <==> Temporal in store;
  }
}
