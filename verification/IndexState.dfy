/**
 * Secondary indexes, deferred loading and index creation on a transactional session, as state changes:
 * src/gestaltdb/indexes.py, current.py and ingestion_service.py over the writers of _graph/.
 */
module IndexState {
  import opened Common

  datatype Kind = NodeKind | EdgeKind

  datatype Family = NodeLabel | NodeProperty | EdgeType | EdgeProperty | Temporal

  function LabelFamily(kind: Kind): Family {
    if kind == NodeKind then NodeLabel else EdgeType
  }

  function PropertyFamily(kind: Kind): Family {
    if kind == NodeKind then NodeProperty else EdgeProperty
  }

  /** A node with its labels, or an edge with its type (as at most one label) and its ends. */
  datatype Record = Record(labels: set<string>, properties: map<string, string>, source: string, target: string)

  datatype Entry =
    | ByLabel(text: string, id: string)
    | ByProperty(name: string, value: string, id: string)
    | ByLabelProperty(text: string, name: string, value: string, id: string)

  /** The entry belongs to the record, among the label entries (if wanted) and those of the named properties. */
  predicate Describes(e: Entry, r: Record, labels: bool, names: set<string>) {
    match e
    case ByLabel(text, _) => labels && text in r.labels
    case ByProperty(name, value, _) => name in names && name in r.properties && r.properties[name] == value
    case ByLabelProperty(text, name, value, _) =>
      text in r.labels && name in names && name in r.properties && r.properties[name] == value
  }

  function EntriesOf(id: string, r: Record, labels: bool, names: set<string>): set<Entry> {
    (set text | labels && text in r.labels :: ByLabel(text, id)) +
    (set name | name in names && name in r.properties :: ByProperty(name, r.properties[name], id)) +
    (set text, name | text in r.labels && name in names && name in r.properties ::
       ByLabelProperty(text, name, r.properties[name], id))
  }

  lemma InEntriesOf(e: Entry, id: string, r: Record, labels: bool, names: set<string>)
    ensures e in EntriesOf(id, r, labels, names) <==> e.id == id && Describes(e, r, labels, names)
  {
  }

  /** What a full scan of the records emits. */
  function Scan(records: map<string, Record>, labels: bool, names: set<string>): set<Entry> {
    set id, e | id in records && e in EntriesOf(id, records[id], labels, names) :: e
  }

  lemma InScan(e: Entry, records: map<string, Record>, labels: bool, names: set<string>)
    ensures e in Scan(records, labels, names) <==> e.id in records && Describes(e, records[e.id], labels, names)
  {
    if e.id in records { InEntriesOf(e, e.id, records[e.id], labels, names); }
    if e in Scan(records, labels, names) {
      var id :| id in records && e in EntriesOf(id, records[id], labels, names);
      InEntriesOf(e, id, records[id], labels, names);
    }
  }

  /** Records and index entries of one kind, and the persisted names of its property indexes. */
  datatype Table = Table(records: map<string, Record>, entries: set<Entry>, names: set<string>)

  /** The key of a typed adjacency record; its value is the node at the other end. */
  datatype AdjacencyKey = AdjacencyKey(outgoing: bool, node: string, edgeType: string, id: string)

  function End(r: Record, source: bool): string {
    if source then r.source else r.target
  }

  /** The forward and reverse records of edges. */
  function LoadedAdjacency(items: map<string, Record>): map<AdjacencyKey, string> {
    map id, text, outgoing | id in items && text in items[id].labels && outgoing in {true, false} ::
      AdjacencyKey(outgoing, End(items[id], outgoing), text, id) := End(items[id], !outgoing)
  }

  lemma InLoaded(items: map<string, Record>, k: AdjacencyKey)
    ensures k in LoadedAdjacency(items) <==>
            k.id in items && k.edgeType in items[k.id].labels && k.node == End(items[k.id], k.outgoing)
    ensures k in LoadedAdjacency(items) ==> LoadedAdjacency(items)[k] == End(items[k.id], !k.outgoing)
  {
    if k.id in items && k.edgeType in items[k.id].labels && k.node == End(items[k.id], k.outgoing) {
      assert k == AdjacencyKey(k.outgoing, End(items[k.id], k.outgoing), k.edgeType, k.id);
    }
  }

  function AdjacencyOf(id: string, r: Record): map<AdjacencyKey, string> {
    LoadedAdjacency(map[id := r])
  }

  datatype Store = Store(nodes: Table, edges: Table, adjacency: map<AdjacencyKey, string>, stale: set<Family>) {
    function Of(kind: Kind): Table {
      if kind == NodeKind then nodes else edges
    }

    function With(kind: Kind, table: Table): Store {
      if kind == NodeKind then this.(nodes := table) else this.(edges := table)
    }
  }

  const EMPTY_TABLE := Table(map[], {}, {})
  const EMPTY_STORE := Store(EMPTY_TABLE, EMPTY_TABLE, map[], {})

  // Typed adjacency counts.

  datatype CountKey = CountKey(outgoing: bool, node: string, edgeType: string)

  predicate Counted(key: CountKey, k: AdjacencyKey) {
    k.outgoing == key.outgoing && k.node == key.node && k.edgeType == key.edgeType
  }

  function CountedIn(stored: set<AdjacencyKey>, key: CountKey): set<AdjacencyKey> {
    set k | k in stored && Counted(key, k)
  }

  /** A count scans the records below one direction, node and type. */
  function CountIn(stored: set<AdjacencyKey>, key: CountKey): nat {
    |CountedIn(stored, key)|
  }

  function Count(store: Store, key: CountKey): nat {
    CountIn(store.adjacency.Keys, key)
  }

  // Writes to the store.

  function PutTable(t: Table, names: set<string>, id: string, r: Record): Table {
    var kept := if id in t.records then t.entries - EntriesOf(id, t.records[id], true, names) else t.entries;
    t.(records := t.records[id := r], entries := kept + EntriesOf(id, r, true, names))
  }

  /** Replacing an edge replaces its adjacency records. */
  function PutAdjacency(s: Store, id: string, r: Record): map<AdjacencyKey, string> {
    (if id in s.edges.records then s.adjacency - AdjacencyOf(id, s.edges.records[id]).Keys else s.adjacency) +
    AdjacencyOf(id, r)
  }

  function PutStore(s: Store, kind: Kind, names: set<string>, id: string, r: Record): Store {
    s.With(kind, PutTable(s.Of(kind), names, id, r))
     .(adjacency := if kind == EdgeKind then PutAdjacency(s, id, r) else s.adjacency)
  }

  function Cleared(kind: Kind, names: set<string>, labels: bool, properties: set<string>): set<Family> {
    (if labels then {LabelFamily(kind)} else {}) +
    (if properties != {} && names <= properties then {PropertyFamily(kind)} else {})
  }

  /** A rebuild only adds entries; it never removes one. */
  function RebuildStore(s: Store, kind: Kind, names: set<string>, labels: bool, properties: set<string>): Store {
    var t := s.Of(kind);
    s.With(kind, t.(entries := t.entries + Scan(t.records, labels, properties)))
     .(stale := s.stale - Cleared(kind, names, labels, properties))
  }

  function CreateStore(s: Store, kind: Kind, names: set<string>, name: string): Store {
    var all := names + {name};
    var rebuilt := RebuildStore(s, kind, all, false, {name});
    rebuilt.With(kind, rebuilt.Of(kind).(names := all))
  }

  datatype IngestMode = Maintain(appendOnly: bool) | Defer(appendOnly: bool)

  /** Edges are loaded append-only or not at all. */
  predicate Refused(kind: Kind, mode: IngestMode) {
    kind == EdgeKind && !mode.appendOnly
  }

  /** Only a maintained load that is not append-only deletes the entries of the records it replaces. */
  predicate Replaces(mode: IngestMode) {
    mode == Maintain(false)
  }

  function IngestTable(t: Table, names: set<string>, items: map<string, Record>, mode: IngestMode): Table {
    match mode
    case Maintain(appendOnly) =>
      var replaced := map id | id in items && id in t.records :: t.records[id];
      var kept := if appendOnly then t.entries else t.entries - Scan(replaced, true, names);
      t.(records := t.records + items, entries := kept + Scan(items, true, names))
    case Defer(_) => t.(records := t.records + items)
  }

  /** A load overwrites adjacency records by key and deletes none. */
  function IngestStore(s: Store, kind: Kind, names: set<string>, items: map<string, Record>, mode: IngestMode): Store {
    s.With(kind, IngestTable(s.Of(kind), names, items, mode))
     .(adjacency := if kind == EdgeKind then s.adjacency + LoadedAdjacency(items) else s.adjacency)
     .(stale := if mode.Maintain? then s.stale
                else s.stale + {LabelFamily(kind)} + if names != {} then {PropertyFamily(kind)} else {})
  }

  // The session.

  /** The committed store, the live index names of the session and its parent count cache. */
  datatype State = State(store: Store, nodeNames: set<string>, edgeNames: set<string>, counts: map<CountKey, nat>) {
    function Live(kind: Kind): set<string> {
      if kind == NodeKind then nodeNames else edgeNames
    }

    /** After a commit the count cache is empty. */
    function Committed(store: Store): State {
      this.(store := store, counts := map[])
    }
  }

  datatype Op =
    | Put(kind: Kind, id: string, r: Record)
    | Create(kind: Kind, name: string)
    | Rebuild(kind: Kind, labels: bool, properties: Option<set<string>>)
    | Ingest(kind: Kind, items: map<string, Record>, mode: IngestMode)
    | ReadCount(key: CountKey)

  function Wanted(s: State, kind: Kind, properties: Option<set<string>>): set<string> {
    if properties.None? then s.Live(kind) else properties.value
  }

  /** The state after the operation succeeded; a refused load never does. */
  function Apply(s: State, op: Op): State {
    match op
    case Put(kind, id, r) => s.Committed(PutStore(s.store, kind, s.Live(kind), id, r))
    case Create(kind, name) =>
      var next := s.Committed(CreateStore(s.store, kind, s.Live(kind), name));
      if kind == NodeKind then next.(nodeNames := s.nodeNames + {name}) else next.(edgeNames := s.edgeNames + {name})
    case Rebuild(kind, labels, properties) =>
      s.Committed(RebuildStore(s.store, kind, s.Live(kind), labels, Wanted(s, kind, properties)))
    case Ingest(kind, items, mode) => s.Committed(IngestStore(s.store, kind, s.Live(kind), items, mode))
    case ReadCount(key) => if key in s.counts then s else s.(counts := s.counts[key := Count(s.store, key)])
  }

  /** An operation that was attempted; a failed one leaves no trace. */
  datatype Attempt = Attempt(op: Op, ok: bool)

  function Run(s: State, attempts: seq<Attempt>): State {
    if attempts == [] then s
    else
      var before, last := Run(s, attempts[..|attempts| - 1]), attempts[|attempts| - 1];
      if last.ok then Apply(before, last.op) else before
  }

  // What every run keeps.

  /** Every entry of the full scan is present. */
  ghost predicate Complete(t: Table, labels: bool, names: set<string>) {
    forall e: Entry :: e.id in t.records && Describes(e, t.records[e.id], labels, names) ==> e in t.entries
  }

  /** Every entry present belongs to the full scan. */
  ghost predicate Clean(t: Table) {
    forall e: Entry :: e in t.entries ==> e.id in t.records && Describes(e, t.records[e.id], true, t.names)
  }

  /** The same for the label entries alone, or for the others alone. */
  ghost predicate CleanPart(t: Table, label_: bool) {
    forall e: Entry :: e in t.entries && e.ByLabel? == label_ ==>
      e.id in t.records && Describes(e, t.records[e.id], true, t.names)
  }

  lemma CleanInParts(t: Table)
    ensures Clean(t) <==> CleanPart(t, true) && CleanPart(t, false)
  {
  }

  /** A family that is not marked stale misses no entry. */
  ghost predicate Covered(store: Store, kind: Kind) {
    var t := store.Of(kind);
    && (LabelFamily(kind) !in store.stale ==> Complete(t, true, {}))
    && (PropertyFamily(kind) !in store.stale ==> Complete(t, false, t.names))
    && (PropertyFamily(kind) in store.stale ==> t.names != {})
  }

  ghost predicate CountsAgree(s: State) {
    forall key :: key in s.counts ==> s.counts[key] == Count(s.store, key)
  }

  ghost predicate Good(s: State) {
    && s.nodeNames == s.store.nodes.names && s.edgeNames == s.store.edges.names
    && CountsAgree(s)
    && Covered(s.store, NodeKind) && Covered(s.store, EdgeKind)
  }

  /** A session just opened on an empty store. */
  lemma EmptySessionIsGood()
    ensures Good(State(EMPTY_STORE, {}, {}, map[])) && CleanBoth(State(EMPTY_STORE, {}, {}, map[]))
  {
  }

  ghost predicate CleanBoth(s: State) {
    Clean(s.store.nodes) && Clean(s.store.edges)
  }

  lemma CompleteIsScan(t: Table, labels: bool, names: set<string>)
    ensures Complete(t, labels, names) <==> Scan(t.records, labels, names) <= t.entries
  {
    forall e
      ensures e in Scan(t.records, labels, names) <==> e.id in t.records && Describes(e, t.records[e.id], labels, names)
    {
      InScan(e, t.records, labels, names);
    }
  }

  lemma CleanIsScan(t: Table)
    ensures Clean(t) <==> t.entries <= Scan(t.records, true, t.names)
  {
    forall e
      ensures e in Scan(t.records, true, t.names) <==> e.id in t.records && Describes(e, t.records[e.id], true, t.names)
    {
      InScan(e, t.records, true, t.names);
    }
  }

  /** Complete in both parts and clean: the index is its full scan. */
  lemma ExactIsScan(t: Table)
    requires Complete(t, true, {}) && Complete(t, false, t.names)
    ensures t.entries == Scan(t.records, true, t.names) <==> Clean(t)
  {
    CleanIsScan(t);
    CompleteIsScan(t, true, t.names);
    forall e: Entry | e.id in t.records && Describes(e, t.records[e.id], true, t.names) ensures e in t.entries {
      assert Describes(e, t.records[e.id], true, {}) || Describes(e, t.records[e.id], false, t.names);
    }
  }

  lemma PutEntries(s: Store, kind: Kind, names: set<string>, id: string, r: Record, e: Entry)
    ensures var (t, next) := (s.Of(kind), PutStore(s, kind, names, id, r).Of(kind));
            e in next.entries <==>
              || (e.id == id && Describes(e, r, true, names))
              || (e in t.entries && !(id in t.records && e.id == id && Describes(e, t.records[id], true, names)))
  {
    InEntriesOf(e, id, r, true, names);
    var t := s.Of(kind);
    if id in t.records { InEntriesOf(e, id, t.records[id], true, names); }
  }

  lemma PutKeeps(s: Store, kind: Kind, id: string, r: Record)
    requires Covered(s, kind)
    ensures Covered(PutStore(s, kind, s.Of(kind).names, id, r), kind)
    ensures Clean(s.Of(kind)) ==> Clean(PutStore(s, kind, s.Of(kind).names, id, r).Of(kind))
  {
    var t := s.Of(kind);
    forall e ensures e in PutStore(s, kind, t.names, id, r).Of(kind).entries <==>
                     || (e.id == id && Describes(e, r, true, t.names))
                     || (e in t.entries
                         && !(id in t.records && e.id == id && Describes(e, t.records[id], true, t.names)))
    {
      PutEntries(s, kind, t.names, id, r, e);
    }
  }

  lemma RebuildEntries(s: Store, kind: Kind, names: set<string>, labels: bool, properties: set<string>, e: Entry)
    ensures var (t, next) := (s.Of(kind), RebuildStore(s, kind, names, labels, properties).Of(kind));
            e in next.entries <==>
              e in t.entries || (e.id in t.records && Describes(e, t.records[e.id], labels, properties))
  {
    InScan(e, s.Of(kind).records, labels, properties);
  }

  lemma RebuildKeeps(s: Store, kind: Kind, labels: bool, properties: set<string>)
    requires Covered(s, kind)
    ensures Covered(RebuildStore(s, kind, s.Of(kind).names, labels, properties), kind)
    ensures Clean(s.Of(kind)) ==>
              (Clean(RebuildStore(s, kind, s.Of(kind).names, labels, properties).Of(kind)) <==>
                 OnlyIndexed(s.Of(kind), properties))
  {
    var t := s.Of(kind);
    forall e ensures e in RebuildStore(s, kind, t.names, labels, properties).Of(kind).entries <==>
                     e in t.entries || (e.id in t.records && Describes(e, t.records[e.id], labels, properties))
    {
      RebuildEntries(s, kind, t.names, labels, properties, e);
    }
    if !OnlyIndexed(t, properties) {
      var id, name :| id in t.records && name in properties && name in t.records[id].properties && name !in t.names;
      var e := ByProperty(name, t.records[id].properties[name], id);
      assert Describes(e, t.records[id], labels, properties) && !Describes(e, t.records[id], true, t.names);
    }
  }

  /** Of the given properties, the records have only indexed ones. */
  ghost predicate OnlyIndexed(t: Table, properties: set<string>) {
    forall id, name :: id in t.records && name in properties && name in t.records[id].properties ==> name in t.names
  }

  lemma CreateKeeps(s: Store, kind: Kind, name: string)
    requires Covered(s, kind)
    ensures Covered(CreateStore(s, kind, s.Of(kind).names, name), kind)
    ensures Clean(s.Of(kind)) ==> Clean(CreateStore(s, kind, s.Of(kind).names, name).Of(kind))
  {
    var t := s.Of(kind);
    var all := t.names + {name};
    var next := CreateStore(s, kind, t.names, name);
    forall e
      ensures e in next.Of(kind).entries <==>
                e in t.entries || (e.id in t.records && Describes(e, t.records[e.id], false, {name}))
    {
      RebuildEntries(s, kind, all, false, {name}, e);
    }
    if PropertyFamily(kind) !in next.stale {
      if PropertyFamily(kind) in s.stale { assert all <= {name}; }
      forall e: Entry | e.id in t.records && Describes(e, t.records[e.id], false, all)
        ensures e in next.Of(kind).entries
      {
        assert Describes(e, t.records[e.id], false, {name})
               || (PropertyFamily(kind) !in s.stale && Describes(e, t.records[e.id], false, t.names));
      }
    }
  }

  /** What an ingest does to the entries when it maintains the indexes. */
  lemma MaintainEntries(s: Store, kind: Kind, names: set<string>, items: map<string, Record>, appendOnly: bool,
                        e: Entry)
    ensures var (t, next) := (s.Of(kind), IngestStore(s, kind, names, items, Maintain(appendOnly)).Of(kind));
            e in next.entries <==>
              || (e.id in items && Describes(e, items[e.id], true, names))
              || (e in t.entries
                  && !(!appendOnly && e.id in items && e.id in t.records && Describes(e, t.records[e.id], true, names)))
  {
    var t := s.Of(kind);
    var replaced := map id | id in items && id in t.records :: t.records[id];
    InScan(e, items, true, names);
    InScan(e, replaced, true, names);
  }

  /** Every entry present for a loaded record belongs to it as loaded. */
  ghost predicate StillDescribed(t: Table, names: set<string>, items: map<string, Record>) {
    forall e: Entry :: e in t.entries && e.id in items ==> Describes(e, items[e.id], true, names)
  }

  lemma IngestKeeps(s: Store, kind: Kind, items: map<string, Record>, mode: IngestMode)
    requires Covered(s, kind)
    ensures Covered(IngestStore(s, kind, s.Of(kind).names, items, mode), kind)
    ensures Clean(s.Of(kind)) ==>
              (Clean(IngestStore(s, kind, s.Of(kind).names, items, mode).Of(kind)) <==>
               Replaces(mode) || StillDescribed(s.Of(kind), s.Of(kind).names, items))
  {
    hide LoadedAdjacency;
    var t := s.Of(kind);
    var next := IngestStore(s, kind, t.names, items, mode).Of(kind);
    assert next.records == t.records + items && next.names == t.names;
    if mode.Maintain? {
      forall e ensures e in next.entries <==>
                       || (e.id in items && Describes(e, items[e.id], true, t.names))
                       || (e in t.entries
                           && !(!mode.appendOnly && e.id in items && e.id in t.records
                                && Describes(e, t.records[e.id], true, t.names)))
      {
        MaintainEntries(s, kind, t.names, items, mode.appendOnly, e);
      }
    }
    if Clean(next) && !Replaces(mode) {
      forall e: Entry | e in t.entries && e.id in items ensures Describes(e, items[e.id], true, t.names) {
        assert e in next.entries && next.records[e.id] == items[e.id];
      }
    }
  }

  /** Exactly when an operation on clean tables leaves them clean. */
  ghost predicate Tame(s: State, op: Op) {
    match op
    case Rebuild(kind, _, properties) => OnlyIndexed(s.store.Of(kind), Wanted(s, kind, properties))
    case Ingest(kind, items, mode) => Replaces(mode) || StillDescribed(s.store.Of(kind), s.Live(kind), items)
    case _ => true
  }

  function Other(kind: Kind): Kind {
    if kind == NodeKind then EdgeKind else NodeKind
  }

  /** A write to one kind leaves the other kind's table and marks alone. */
  lemma OtherKept(s: Store, next: Store, kind: Kind)
    requires Covered(s, Other(kind)) && next.Of(Other(kind)) == s.Of(Other(kind))
    requires LabelFamily(Other(kind)) in next.stale <==> LabelFamily(Other(kind)) in s.stale
    requires PropertyFamily(Other(kind)) in next.stale <==> PropertyFamily(Other(kind)) in s.stale
    ensures Covered(next, Other(kind))
  {
  }

  /** A committed write to one kind: it publishes its names and covers its table. */
  lemma WriteKeepsGood(s: State, next: State, kind: Kind)
    requires Good(s) && next.counts == map[]
    requires next.Live(kind) == next.store.Of(kind).names && Covered(next.store, kind)
    requires next.Live(Other(kind)) == s.Live(Other(kind)) && next.store.Of(Other(kind)) == s.store.Of(Other(kind))
    requires LabelFamily(Other(kind)) in next.store.stale <==> LabelFamily(Other(kind)) in s.store.stale
    requires PropertyFamily(Other(kind)) in next.store.stale <==> PropertyFamily(Other(kind)) in s.store.stale
    ensures Good(next)
  {
    OtherKept(s.store, next.store, kind);
  }

  lemma PutKeepsGood(s: State, kind: Kind, id: string, r: Record)
    requires Good(s)
    ensures Good(Apply(s, Put(kind, id, r)))
  {
    PutKeeps(s.store, kind, id, r);
    WriteKeepsGood(s, Apply(s, Put(kind, id, r)), kind);
  }

  lemma CreateKeepsGood(s: State, kind: Kind, name: string)
    requires Good(s)
    ensures Good(Apply(s, Create(kind, name)))
  {
    CreateKeeps(s.store, kind, name);
    WriteKeepsGood(s, Apply(s, Create(kind, name)), kind);
  }

  lemma RebuildKeepsGood(s: State, kind: Kind, labels: bool, properties: Option<set<string>>)
    requires Good(s)
    ensures Good(Apply(s, Rebuild(kind, labels, properties)))
  {
    RebuildKeeps(s.store, kind, labels, Wanted(s, kind, properties));
    WriteKeepsGood(s, Apply(s, Rebuild(kind, labels, properties)), kind);
  }

  lemma IngestKeepsGood(s: State, kind: Kind, items: map<string, Record>, mode: IngestMode)
    requires Good(s)
    ensures Good(Apply(s, Ingest(kind, items, mode)))
  {
    IngestKeeps(s.store, kind, items, mode);
    WriteKeepsGood(s, Apply(s, Ingest(kind, items, mode)), kind);
  }

  /** Every operation that succeeds keeps the configuration, the counts and the coverage right. */
  lemma ApplyKeepsGood(s: State, op: Op)
    requires Good(s)
    ensures Good(Apply(s, op))
  {
    match op
    case Put(kind, id, r) => PutKeepsGood(s, kind, id, r);
    case Create(kind, name) => CreateKeepsGood(s, kind, name);
    case Rebuild(kind, labels, properties) => RebuildKeepsGood(s, kind, labels, properties);
    case Ingest(kind, items, mode) => IngestKeepsGood(s, kind, items, mode);
    case ReadCount(key) =>
  }

  /** An operation keeps clean tables clean exactly when it is tame. */
  lemma ApplyKeepsCleanIff(s: State, op: Op)
    requires Good(s) && CleanBoth(s)
    ensures CleanBoth(Apply(s, op)) <==> Tame(s, op)
  {
    match op
    case Put(kind, id, r) => PutKeeps(s.store, kind, id, r);
    case Create(kind, name) => CreateKeeps(s.store, kind, name);
    case Rebuild(kind, labels, properties) => RebuildKeeps(s.store, kind, labels, Wanted(s, kind, properties));
    case Ingest(kind, items, mode) => IngestKeeps(s.store, kind, items, mode);
    case ReadCount(key) =>
  }

  /**
   * Over any sequential run with any attempts failing, the live index names are the persisted ones, the
   * parent count cache agrees with the committed store, and a family not marked stale misses no entry.
   */
  lemma {:induction false} RunKeepsGood(s: State, attempts: seq<Attempt>)
    requires Good(s)
    ensures Good(Run(s, attempts))
  {
    if attempts != [] {
      var init, last := attempts[..|attempts| - 1], attempts[|attempts| - 1];
      RunKeepsGood(s, init);
      if last.ok { ApplyKeepsGood(Run(s, init), last.op); }
    }
  }

  ghost predicate TameRun(s: State, attempts: seq<Attempt>) {
    forall n :: 0 <= n < |attempts| && attempts[n].ok ==> Tame(Run(s, attempts[..n]), attempts[n].op)
  }

  lemma {:induction false} TameRunKeepsClean(s: State, attempts: seq<Attempt>)
    requires Good(s) && CleanBoth(s) && TameRun(s, attempts)
    ensures CleanBoth(Run(s, attempts))
  {
    if attempts != [] {
      var init, last := attempts[..|attempts| - 1], attempts[|attempts| - 1];
      forall n | 0 <= n < |init| && init[n].ok ensures Tame(Run(s, init[..n]), init[n].op) {
        assert init[..n] == attempts[..n] && init[n] == attempts[n];
      }
      TameRunKeepsClean(s, init);
      RunKeepsGood(s, init);
      if last.ok { ApplyKeepsCleanIff(Run(s, init), last.op); }
    }
  }

  // The deferred rebuild.

  /** The rebuild of one kind, if one of its families is stale. */
  function RebuildStale(s: State, kind: Kind, stale: set<Family>): State {
    if LabelFamily(kind) in stale || PropertyFamily(kind) in stale then
      Apply(s,
            Rebuild(kind, LabelFamily(kind) in stale, Some(if PropertyFamily(kind) in stale then s.Live(kind) else {})))
    else s
  }

  /** The node rebuild and then the edge rebuild. */
  function Deferred(s: State): State {
    RebuildStale(RebuildStale(s, NodeKind, s.store.stale), EdgeKind, s.store.stale)
  }

  /** It adds entries of the full scan only. */
  lemma RebuildStalePart(s: State, kind: Kind, stale: set<Family>, part: bool)
    requires s.Live(kind) == s.store.Of(kind).names
    ensures CleanPart(RebuildStale(s, kind, stale).store.Of(kind), part) <==> CleanPart(s.store.Of(kind), part)
  {
    if LabelFamily(kind) in stale || PropertyFamily(kind) in stale {
      var t, next := s.store.Of(kind), RebuildStale(s, kind, stale).store.Of(kind);
      var labels, properties := LabelFamily(kind) in stale, if PropertyFamily(kind) in stale then s.Live(kind) else {};
      assert next == RebuildStore(s.store, kind, t.names, labels, properties).Of(kind);
      forall e
        ensures e in next.entries <==>
                  e in t.entries || (e.id in t.records && Describes(e, t.records[e.id], labels, properties))
      {
        RebuildEntries(s.store, kind, t.names, labels, properties, e);
      }
    }
  }

  lemma RebuildStaleGood(s: State, kind: Kind, stale: set<Family>)
    requires Good(s)
    ensures Good(RebuildStale(s, kind, stale))
  {
    if LabelFamily(kind) in stale || PropertyFamily(kind) in stale {
      var properties := if PropertyFamily(kind) in stale then s.Live(kind) else {};
      ApplyKeepsGood(s, Rebuild(kind, LabelFamily(kind) in stale, Some(properties)));
    }
  }

  lemma RebuildStaleFacts(s: State, kind: Kind, stale: set<Family>)
    requires Good(s)
    requires LabelFamily(kind) in stale <==> LabelFamily(kind) in s.store.stale
    requires PropertyFamily(kind) in stale <==> PropertyFamily(kind) in s.store.stale
    ensures var (next, t) := (RebuildStale(s, kind, stale), s.store.Of(kind));
            && Good(next)
            && next.store.stale == s.store.stale - {LabelFamily(kind), PropertyFamily(kind)}
            && next.store.Of(Other(kind)) == s.store.Of(Other(kind))
            && next.store.Of(kind).records == t.records && next.store.Of(kind).names == t.names
            && (forall part: bool :: CleanPart(next.store.Of(kind), part) <==> CleanPart(t, part))
  {
    RebuildStaleGood(s, kind, stale);
    forall part: bool
      ensures CleanPart(RebuildStale(s, kind, stale).store.Of(kind), part) <==> CleanPart(s.store.Of(kind), part)
    {
      RebuildStalePart(s, kind, stale, part);
    }
    assert Covered(s.store, kind);
    hide CleanPart, Scan, Complete;
  }

  // The entries of a kind's two families.

  function LabelPart(entries: set<Entry>): set<Entry> {
    set e | e in entries && e.ByLabel?
  }

  function PropertyPart(entries: set<Entry>): set<Entry> {
    set e | e in entries && !e.ByLabel?
  }

  /** Complete and clean in one part: that family's index is its full scan. */
  lemma ExactInParts(t: Table)
    requires Complete(t, true, {}) && Complete(t, false, t.names)
    ensures LabelPart(t.entries) == Scan(t.records, true, {}) <==> CleanPart(t, true)
    ensures PropertyPart(t.entries) == Scan(t.records, false, t.names) <==> CleanPart(t, false)
  {
    forall e ensures e in Scan(t.records, true, {}) <==> e.id in t.records && Describes(e, t.records[e.id], true, {}) {
      InScan(e, t.records, true, {});
    }
    forall e
      ensures e in Scan(t.records, false, t.names) <==>
                e.id in t.records && Describes(e, t.records[e.id], false, t.names)
    {
      InScan(e, t.records, false, t.names);
    }
  }

  lemma DeferredFacts(s: State, kind: Kind)
    requires Good(s)
    ensures var (next, t) := (Deferred(s), s.store.Of(kind));
            && Good(next) && next.store.stale == s.store.stale * {Temporal}
            && next.store.Of(kind).records == t.records && next.store.Of(kind).names == t.names
            && (forall part: bool :: CleanPart(next.store.Of(kind), part) <==> CleanPart(t, part))
  {
    hide Good, CleanPart, RebuildStale;
    var half := RebuildStale(s, NodeKind, s.store.stale);
    var next := RebuildStale(half, EdgeKind, s.store.stale);
    RebuildStaleFacts(s, NodeKind, s.store.stale);
    RebuildStaleFacts(half, EdgeKind, s.store.stale);
    assert s.store.Of(NodeKind) == s.store.nodes && s.store.Of(EdgeKind) == s.store.edges;
    assert half.store.Of(EdgeKind) == s.store.Of(EdgeKind) && next.store.Of(NodeKind) == half.store.Of(NodeKind);
    forall family: Family ensures family in next.store.stale <==> family in s.store.stale * {Temporal} {
      assert family.NodeLabel? || family.NodeProperty? || family.EdgeType? || family.EdgeProperty? || family.Temporal?;
    }
  }

  /** In a good state where no family of the kind is stale, exactness per kind and per family. */
  lemma FreshIsExactIff(s: State, kind: Kind)
    requires Good(s) && LabelFamily(kind) !in s.store.stale && PropertyFamily(kind) !in s.store.stale
    ensures var t := s.store.Of(kind);
            && (LabelPart(t.entries) == Scan(t.records, true, {}) <==> CleanPart(t, true))
            && (PropertyPart(t.entries) == Scan(t.records, false, t.names) <==> CleanPart(t, false))
            && (t.entries == Scan(t.records, true, t.names) <==> CleanPart(t, true) && CleanPart(t, false))
  {
    var t := s.store.Of(kind);
    assert Covered(s.store, kind);
    ExactInParts(t);
    ExactIsScan(t);
    CleanInParts(t);
  }

  /**
   * After a successful deferred rebuild no family of the current graph is stale. Each family's entries, and so each
   * kind's index, equal the full scan of the records exactly when they held nothing outside that scan before.
   */
  lemma DeferredRebuildIsFullScan(s: State, kind: Kind)
    requires Good(s)
    ensures var (next, t) := (Deferred(s), s.store.Of(kind));
            && Good(next) && next.store.stale <= {Temporal} && next.store.Of(kind).records == t.records
            && (LabelPart(next.store.Of(kind).entries) == Scan(t.records, true, {}) <==> CleanPart(t, true))
            && (PropertyPart(next.store.Of(kind).entries) == Scan(t.records, false, t.names) <==> CleanPart(t, false))
            && (next.store.Of(kind).entries == Scan(t.records, true, t.names) <==>
                  CleanPart(t, true) && CleanPart(t, false))
  {
    DeferredFacts(s, kind);
    hide Good, CleanPart, LabelPart, PropertyPart, Scan, Deferred;
    FreshIsExactIff(Deferred(s), kind);
  }

  /** A run of tame operations, closed by a deferred rebuild, ends with every index equal to its full scan. */
  lemma TameRunThenRebuild(s: State, attempts: seq<Attempt>, kind: Kind)
    requires Good(s) && CleanBoth(s) && TameRun(s, attempts)
    ensures var done := Deferred(Run(s, attempts));
            done.store.Of(kind).entries == Scan(done.store.Of(kind).records, true, done.Live(kind))
  {
    var before := Run(s, attempts);
    RunKeepsGood(s, attempts);
    TameRunKeepsClean(s, attempts);
    CleanInParts(before.store.Of(kind));
    DeferredRebuildIsFullScan(before, kind);
    DeferredFacts(before, kind);
    assert Deferred(before).Live(kind) == before.store.Of(kind).names;
  }

  /**
   * A load, deferred or maintained, keeps a clean table clean exactly when it deletes the entries of what it
   * replaces or no replaced record loses an entry that was there.
   */
  lemma LoadStaysCleanIff(s: State, kind: Kind, items: map<string, Record>, mode: IngestMode)
    requires Good(s) && Clean(s.store.Of(kind))
    ensures Clean(Apply(s, Ingest(kind, items, mode)).store.Of(kind)) <==>
            Replaces(mode) || StillDescribed(s.store.Of(kind), s.Live(kind), items)
  {
    assert Covered(s.store, kind);
    IngestKeeps(s.store, kind, items, mode);
  }

  /** So relabelling a node through a deferred load leaves its old label entry in the rebuilt index. */
  lemma DeferredReplacementLeavesEntry(s: State, id: string, old_: Record, new_: Record, text: string, appendOnly: bool)
    requires Good(s) && CleanBoth(s) && NodeLabel !in s.store.stale
    requires id in s.store.nodes.records && s.store.nodes.records[id] == old_ && text in old_.labels
             && text !in new_.labels
    ensures var done := Deferred(Apply(s, Ingest(NodeKind, map[id := new_], Defer(appendOnly))));
            && NodeLabel !in done.store.stale
            && ByLabel(text, id) in LabelPart(done.store.nodes.entries)
            && LabelPart(done.store.nodes.entries) != Scan(done.store.nodes.records, true, {})
  {
    var op := Ingest(NodeKind, map[id := new_], Defer(appendOnly));
    var loaded := Apply(s, op);
    var e := ByLabel(text, id);
    assert Describes(e, s.store.nodes.records[e.id], true, {});
    assert e in s.store.nodes.entries && e in loaded.store.Of(NodeKind).entries;
    assert loaded.store.Of(NodeKind).records[id] == new_;
    ApplyKeepsGood(s, op);
    DeferredRebuildIsFullScan(loaded, NodeKind);
    DeferredKeepsEntries(loaded, e);
    assert !CleanPart(loaded.store.Of(NodeKind), true);
  }

  lemma DeferredKeepsEntries(s: State, e: Entry)
    requires e in s.store.nodes.entries
    ensures e in Deferred(s).store.Of(NodeKind).entries && Deferred(s).store.Of(NodeKind) == Deferred(s).store.nodes
  {
  }

  // Typed adjacency and the edges it stands for.

  /** The typed adjacency records are exactly those of the stored edges. */
  ghost predicate AdjacencyExact(s: Store) {
    s.adjacency == LoadedAdjacency(s.edges.records)
  }

  /** Every adjacency record of the old edge is overwritten by one of the new edge. */
  predicate KeepsEnds(old_: Record, new_: Record) {
    old_.labels <= new_.labels && (old_.labels != {} ==> old_.source == new_.source && old_.target == new_.target)
  }

  lemma PutKeepsAdjacency(s: Store, id: string, r: Record)
    requires AdjacencyExact(s)
    ensures PutAdjacency(s, id, r) == LoadedAdjacency(s.edges.records[id := r])
  {
    var records := s.edges.records;
    var next, wanted := PutAdjacency(s, id, r), LoadedAdjacency(records[id := r]);
    forall k ensures (k in next <==> k in wanted) && (k in next ==> next[k] == wanted[k]) {
      hide LoadedAdjacency;
      InLoaded(records, k);
      InLoaded(records[id := r], k);
      InLoaded(map[id := r], k);
      if id in records { InLoaded(map[id := records[id]], k); }
    }
  }

  lemma InAdjacencyOf(id: string, r: Record, k: AdjacencyKey)
    ensures k in AdjacencyOf(id, r) <==> k.id == id && k.edgeType in r.labels && k.node == End(r, k.outgoing)
  {
    InLoaded(map[id := r], k);
  }

  lemma OverwrittenIff(old_: Record, new_: Record, id: string)
    ensures AdjacencyOf(id, old_).Keys <= AdjacencyOf(id, new_).Keys <==> KeepsEnds(old_, new_)
  {
    hide AdjacencyOf;
    forall k ensures k in AdjacencyOf(id, old_) <==>
                     k.id == id && k.edgeType in old_.labels && k.node == End(old_, k.outgoing)
    {
      InAdjacencyOf(id, old_, k);
    }
    forall text | AdjacencyOf(id, old_).Keys <= AdjacencyOf(id, new_).Keys && text in old_.labels
      ensures text in new_.labels && old_.source == new_.source && old_.target == new_.target
    {
      InAdjacencyOf(id, new_, AdjacencyKey(true, old_.source, text, id));
      InAdjacencyOf(id, new_, AdjacencyKey(false, old_.target, text, id));
    }
    forall k | KeepsEnds(old_, new_) && k in AdjacencyOf(id, old_) ensures k in AdjacencyOf(id, new_) {
      InAdjacencyOf(id, new_, k);
    }
  }

  /** Of the records written by two loads in turn, only those of edges the second moved do not belong there. */
  lemma LoadedTogether(records: map<string, Record>, items: map<string, Record>, k: AdjacencyKey)
    ensures var (both, together) := (LoadedAdjacency(records) + LoadedAdjacency(items),
                                     LoadedAdjacency(records + items));
            && (k in together <==> k in both && (k.id in items ==> k in LoadedAdjacency(items)))
            && (k in together ==> together[k] == both[k])
  {
    hide LoadedAdjacency;
    InLoaded(records, k);
    InLoaded(items, k);
    InLoaded(records + items, k);
  }

  lemma SameMapIff<K, V>(big: map<K, V>, small: map<K, V>)
    requires forall k :: k in small ==> k in big && small[k] == big[k]
    ensures big == small <==> big.Keys <= small.Keys
  {
    if big.Keys <= small.Keys { assert big.Keys == small.Keys; }
  }

  /** A load overwrites adjacency by key, so it leaves a record of a replaced edge exactly when that edge moved. */
  lemma LoadKeepsAdjacencyIff(s: Store, names: set<string>, items: map<string, Record>, mode: IngestMode)
    requires AdjacencyExact(s)
    ensures AdjacencyExact(IngestStore(s, EdgeKind, names, items, mode)) <==>
              forall id :: id in items && id in s.edges.records ==> KeepsEnds(s.edges.records[id], items[id])
  {
    LeftBehind(s.edges.records, items);
    hide LoadedAdjacency, KeepsEnds;
    var records := s.edges.records;
    var next, wanted := s.adjacency + LoadedAdjacency(items), LoadedAdjacency(records + items);
    forall k ensures k in wanted <==> k in next && (k.id in items ==> k in LoadedAdjacency(items))
             ensures k in wanted ==> wanted[k] == next[k]
    {
      LoadedTogether(records, items, k);
    }
    SameMapIff(next, wanted);
    assert IngestStore(s, EdgeKind, names, items, mode).adjacency == next;
    assert IngestStore(s, EdgeKind, names, items, mode).edges.records == records + items;
  }

  lemma LeftBehind(records: map<string, Record>, items: map<string, Record>)
    ensures (forall k :: k in LoadedAdjacency(records) && k.id in items ==> k in LoadedAdjacency(items)) <==>
            forall id :: id in items && id in records ==> KeepsEnds(records[id], items[id])
  {
    forall id, k | id in items && id in records
      ensures k in AdjacencyOf(id, records[id]) <==> k in LoadedAdjacency(records) && k.id == id
      ensures k in AdjacencyOf(id, items[id]) <==> k in LoadedAdjacency(items) && k.id == id
    {
      hide LoadedAdjacency;
      InLoaded(records, k);
      InLoaded(items, k);
      InLoaded(map[id := records[id]], k);
      InLoaded(map[id := items[id]], k);
    }
    forall id | id in items && id in records
      ensures AdjacencyOf(id, records[id]).Keys <= AdjacencyOf(id, items[id]).Keys <==>
                KeepsEnds(records[id], items[id])
    {
      OverwrittenIff(records[id], items[id], id);
    }
    hide AdjacencyOf, LoadedAdjacency, KeepsEnds;
    forall k | k in LoadedAdjacency(records) ensures k.id in records { InLoaded(records, k); }
  }

  predicate KeepsAllEnds(s: Store, op: Op) {
    op.Ingest? && op.kind == EdgeKind ==>
      forall id :: id in op.items && id in s.edges.records ==> KeepsEnds(s.edges.records[id], op.items[id])
  }

  lemma ApplyKeepsAdjacencyIff(s: State, op: Op)
    requires AdjacencyExact(s.store)
    ensures AdjacencyExact(Apply(s, op).store) <==> KeepsAllEnds(s.store, op)
  {
    hide LoadedAdjacency, KeepsEnds;
    match op
    case Put(kind, id, r) => if kind == EdgeKind { PutKeepsAdjacency(s.store, id, r); }
    case Ingest(kind, items, mode) =>
      if kind == EdgeKind { LoadKeepsAdjacencyIff(s.store, s.Live(kind), items, mode); }
    case _ =>
  }

  /** Every successful edge load of the run leaves the ends of the edges it replaces. */
  predicate EndsKeptByRun(s: State, attempts: seq<Attempt>) {
    attempts == [] ||
    (var init, last := attempts[..|attempts| - 1], attempts[|attempts| - 1];
     EndsKeptByRun(s, init) && (last.ok ==> KeepsAllEnds(Run(s, init).store, last.op)))
  }

  /** Then typed adjacency stands for exactly the stored edges at the end of the run. */
  lemma {:induction false} RunKeepsAdjacency(s: State, attempts: seq<Attempt>)
    requires AdjacencyExact(s.store) && EndsKeptByRun(s, attempts)
    ensures AdjacencyExact(Run(s, attempts).store)
  {
    if attempts != [] {
      var init, last := attempts[..|attempts| - 1], attempts[|attempts| - 1];
      RunKeepsAdjacency(s, init);
      hide AdjacencyExact, KeepsAllEnds, Apply;
      if last.ok { ApplyKeepsAdjacencyIff(Run(s, init), last.op); }
    }
  }

  /** An edge loaded again with another target leaves its old reverse record, and the old target counts it still. */
  lemma MovedEdgeLeavesRecord(s: State, id: string, old_: Record, new_: Record, text: string, mode: IngestMode)
    requires AdjacencyExact(s.store) && id in s.store.edges.records && s.store.edges.records[id] == old_
    requires text in old_.labels && old_.target != new_.target
    ensures var (next, key) := (Apply(s, Ingest(EdgeKind, map[id := new_], mode)), CountKey(false, old_.target, text));
            && AdjacencyKey(false, old_.target, text, id) in CountedIn(next.store.adjacency.Keys, key)
            && next.store.edges.records[id].target != old_.target
  {
    var k, key := AdjacencyKey(false, old_.target, text, id), CountKey(false, old_.target, text);
    InLoaded(s.store.edges.records, k);
    hide LoadedAdjacency;
    var next := Apply(s, Ingest(EdgeKind, map[id := new_], mode)).store;
    assert next.adjacency == s.store.adjacency + LoadedAdjacency(map[id := new_]);
    assert Counted(key, k) && k in next.adjacency;
    assert next.edges.records == s.store.edges.records + map[id := new_];
  }
}
