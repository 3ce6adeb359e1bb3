/** The audit export of src/gestaltdb/inference.py. */
module InferenceExport {
  import opened Common
  import opened Sorting

  // What is exported.

  /** A closed-world check: the identifier of its node and its JSON text. */
  datatype Absence = Absence(nodeId: string, text: string)

  datatype Justification = Justification(rule: string, premises: seq<string>, absences: seq<Absence>)

  /** An entry of the recorded justifications, normalized or refused by the decoder. */
  datatype Recorded = Good(value: Justification) | Malformed

  datatype ModelOutput = NoModel | Identified | Unidentified

  datatype Content =
    | RuleContent(versionId: string, payload: string)
    | AbsenceContent(payload: string)
    | ClaimContent(versionId: string, hasClaim: bool, model: ModelOutput, derivedByRules: bool,
                   justifications: seq<Recorded>, payload: string)
    | OtherContent

  datatype Node = Node(id: string, kind: string, content: Content)

  datatype Explanation = Explanation(root: string, nodes: seq<Node>, truncated: bool)

  datatype Error = RuleError | LimitExceeded

  datatype ExportedNode = ExportedNode(id: string, kind: string, payload: string)

  /** A support as written: the absences are one JSON list. */
  datatype Support = Support(conclusion: string, rule: string, premises: seq<string>, absences: string)

  datatype Report = Report(root: string, truncated: bool, nodes: seq<ExportedNode>, justifications: seq<Support>)

  // The orders of the two sorts.

  predicate NodeLe(a: Node, b: Node) {
    StringLe(a.id, b.id)
  }

  predicate SupportLe(a: Support, b: Support) {
    if a.conclusion != b.conclusion then StringLe(a.conclusion, b.conclusion)
    else if a.rule != b.rule then StringLe(a.rule, b.rule)
    else if a.premises != b.premises then ListLe(a.premises, b.premises)
    else StringLe(a.absences, b.absences)
  }

  lemma NodeOrder()
    ensures TotalPreorder(NodeLe)
  {
    forall a, b ensures NodeLe(a, b) || NodeLe(b, a) { StringTotal(a.id, b.id); }
    forall a, b, c | NodeLe(a, b) && NodeLe(b, c) ensures NodeLe(a, c) { StringTransitive(a.id, b.id, c.id); }
  }

  lemma SupportTotal(a: Support, b: Support)
    ensures SupportLe(a, b) || SupportLe(b, a)
    ensures SupportLe(a, b) && SupportLe(b, a) ==> a == b
  {
    StringTotal(a.conclusion, b.conclusion);
    StringTotal(a.rule, b.rule);
    ListTotal(a.premises, b.premises);
    StringTotal(a.absences, b.absences);
  }

  lemma SupportTransitive(a: Support, b: Support, c: Support)
    requires SupportLe(a, b) && SupportLe(b, c)
    ensures SupportLe(a, c)
  {
    if a.conclusion != b.conclusion || b.conclusion != c.conclusion {
      Chain(a.conclusion, b.conclusion, c.conclusion);
    } else if a.rule != b.rule || b.rule != c.rule {
      Chain(a.rule, b.rule, c.rule);
    } else if a.premises != b.premises || b.premises != c.premises {
      ListChain(a.premises, b.premises, c.premises);
    } else {
      StringTransitive(a.absences, b.absences, c.absences);
    }
  }

  lemma Chain(a: string, b: string, c: string)
    requires (a == b || StringLe(a, b)) && (b == c || StringLe(b, c)) && (a != b || b != c)
    ensures a != c && StringLe(a, c)
  {
    StringTotal(a, b);
    StringTotal(b, c);
    if a != b && b != c { StringTransitive(a, b, c); }
  }

  lemma ListChain(a: seq<string>, b: seq<string>, c: seq<string>)
    requires (a == b || ListLe(a, b)) && (b == c || ListLe(b, c)) && (a != b || b != c)
    ensures a != c && ListLe(a, c)
  {
    ListTotal(a, b);
    ListTotal(b, c);
    if a != b && b != c { ListTransitive(a, b, c); }
  }

  lemma SupportOrder(xs: seq<Support>)
    ensures TotalPreorder(SupportLe) && KeysIdentify(SupportLe, xs)
  {
    forall a, b ensures (SupportLe(a, b) || SupportLe(b, a)) && (SupportLe(a, b) && SupportLe(b, a) ==> a == b) {
      SupportTotal(a, b);
    }
    forall a, b, c | SupportLe(a, b) && SupportLe(b, c) ensures SupportLe(a, c) { SupportTransitive(a, b, c); }
  }

  // One node.

  predicate NodeOk(node: Node) {
    if node.kind == "rule" then node.content.RuleContent? && node.content.versionId == node.id
    else if node.kind == "absence" then node.content.AbsenceContent?
    else
      && node.kind == "claim" && node.content.ClaimContent? && node.content.hasClaim
      && node.content.versionId == node.id && node.content.model != Unidentified
  }

  function Exported(node: Node): ExportedNode
    requires NodeOk(node)
  {
    var kind := if node.kind == "claim" && node.content.model == Identified then "model_output" else node.kind;
    ExportedNode(node.id, kind, node.content.payload)
  }

  /** The justifications the export reads: those of claims that rules derived. */
  function Read(node: Node): seq<Recorded> {
    if node.kind == "claim" && node.content.ClaimContent? && node.content.derivedByRules
    then node.content.justifications else []
  }

  /** Everything the justification refers to is a node of the explanation. */
  predicate Complete(j: Justification, known: set<string>) {
    && j.rule in known
    && (forall p :: p in j.premises ==> p in known)
    && (forall a :: a in j.absences ==> a.nodeId in known)
  }

  function Weight(j: Justification): nat {
    1 + |j.premises| + |j.absences|
  }

  /** The JSON text of a list of objects. */
  function AbsencesText(absences: seq<Absence>): string {
    "[" + Joined(absences) + "]"
  }

  function Joined(absences: seq<Absence>): string {
    if absences == [] then ""
    else if |absences| == 1 then absences[0].text
    else absences[0].text + ", " + Joined(absences[1..])
  }

  function SupportFor(conclusion: string, j: Justification): Support {
    Support(conclusion, j.rule, j.premises, AbsencesText(j.absences))
  }

  // All supports, their weight, and what is dropped.

  function Supports(conclusion: string, recorded: seq<Recorded>, known: set<string>): seq<Support> {
    if recorded == [] then []
    else
      var last := recorded[|recorded| - 1];
      Supports(conclusion, recorded[..|recorded| - 1], known)
      + if last.Good? && Complete(last.value, known) then [SupportFor(conclusion, last.value)] else []
  }

  function SupportWeight(recorded: seq<Recorded>, known: set<string>): nat {
    if recorded == [] then 0
    else
      var last := recorded[|recorded| - 1];
      SupportWeight(recorded[..|recorded| - 1], known)
      + if last.Good? && Complete(last.value, known) then Weight(last.value) else 0
  }

  function AllSupports(nodes: seq<Node>, known: set<string>): seq<Support> {
    if nodes == [] then []
    else
      var last := nodes[|nodes| - 1];
      AllSupports(nodes[..|nodes| - 1], known) + Supports(last.id, Read(last), known)
  }

  function TotalWeight(nodes: seq<Node>, known: set<string>): nat {
    if nodes == [] then 0
    else TotalWeight(nodes[..|nodes| - 1], known) + SupportWeight(Read(nodes[|nodes| - 1]), known)
  }

  predicate Drops(recorded: seq<Recorded>, known: set<string>) {
    exists r :: r in recorded && r.Good? && !Complete(r.value, known)
  }

  predicate SomethingDropped(nodes: seq<Node>, known: set<string>) {
    exists node :: node in nodes && Drops(Read(node), known)
  }

  predicate Readable(nodes: seq<Node>) {
    forall node :: node in nodes ==> NodeOk(node) && Malformed !in Read(node)
  }

  function Ids(nodes: seq<Node>): set<string> {
    set node | node in nodes :: node.id
  }

  /** The ids of the nodes are pairwise different. */
  ghost predicate DistinctIds(nodes: seq<Node>) {
    forall i, j :: 0 <= i < j < |nodes| ==> nodes[i].id != nodes[j].id
  }

  function ExportedAll(nodes: seq<Node>): seq<ExportedNode>
    requires forall i :: 0 <= i < |nodes| ==> NodeOk(nodes[i])
  {
    seq(|nodes|, i requires 0 <= i < |nodes| => Exported(nodes[i]))
  }

  function Audit(e: Explanation): Report
    requires Readable(e.nodes)
  {
    var nodes, known := Sort(NodeLe, e.nodes), Ids(e.nodes);
    SortKeeps(e.nodes);
    Report(e.root, e.truncated || SomethingDropped(e.nodes, known), ExportedAll(nodes),
           Sort(SupportLe, AllSupports(nodes, known)))
  }

  lemma SortKeeps(nodes: seq<Node>)
    ensures forall node :: node in Sort(NodeLe, nodes) <==> node in nodes
    ensures |Sort(NodeLe, nodes)| == |nodes|
  {
    SortElements(NodeLe, nodes);
    forall node ensures node in Sort(NodeLe, nodes) <==> node in nodes {
      assert node in Sort(NodeLe, nodes) <==> node in multiset(Sort(NodeLe, nodes));
    }
    assert |Sort(NodeLe, nodes)| == |multiset(Sort(NodeLe, nodes))|;
  }

  // The scan with its budget and its errors.

  function ScanSupports(recorded: seq<Recorded>, known: set<string>, maxEdges: int, edges: nat): Result<nat, Error> {
    if recorded == [] then Ok(edges)
    else
      match ScanSupports(recorded[..|recorded| - 1], known, maxEdges, edges)
      case Err(e) => Err(e)
      case Ok(count) =>
        match recorded[|recorded| - 1]
        case Malformed => Err(RuleError)
        case Good(j) =>
          if !Complete(j, known) then Ok(count)
          else if count + Weight(j) > maxEdges then Err(LimitExceeded)
          else Ok(count + Weight(j))
  }

  function ScanNodes(nodes: seq<Node>, known: set<string>, maxEdges: int): Result<nat, Error> {
    if nodes == [] then Ok(0)
    else
      match ScanNodes(nodes[..|nodes| - 1], known, maxEdges)
      case Err(e) => Err(e)
      case Ok(count) =>
        var last := nodes[|nodes| - 1];
        if NodeOk(last) then ScanSupports(Read(last), known, maxEdges, count) else Err(RuleError)
  }

  lemma {:induction false} SupportsErrorStays(recorded: seq<Recorded>, n: nat, known: set<string>, maxEdges: int,
                                              edges: nat)
    requires n <= |recorded| && ScanSupports(recorded[..n], known, maxEdges, edges).Err?
    ensures ScanSupports(recorded, known, maxEdges, edges) == ScanSupports(recorded[..n], known, maxEdges, edges)
  {
    if n == |recorded| {
      assert recorded[..n] == recorded;
    } else {
      var init := recorded[..|recorded| - 1];
      assert init[..n] == recorded[..n];
      SupportsErrorStays(init, n, known, maxEdges, edges);
    }
  }

  lemma {:induction false} NodesErrorStays(nodes: seq<Node>, n: nat, known: set<string>, maxEdges: int)
    requires n <= |nodes| && ScanNodes(nodes[..n], known, maxEdges).Err?
    ensures ScanNodes(nodes, known, maxEdges) == ScanNodes(nodes[..n], known, maxEdges)
  {
    if n == |nodes| {
      assert nodes[..n] == nodes;
    } else {
      var init := nodes[..|nodes| - 1];
      assert init[..n] == nodes[..n];
      NodesErrorStays(init, n, known, maxEdges);
    }
  }

  lemma {:induction false} ScanSupportsMeaning(recorded: seq<Recorded>, known: set<string>, maxEdges: int, edges: nat)
    requires edges <= maxEdges
    ensures var r := ScanSupports(recorded, known, maxEdges, edges);
            && (r.Ok? <==> Malformed !in recorded && edges + SupportWeight(recorded, known) <= maxEdges)
            && (r.Ok? ==> r.value == edges + SupportWeight(recorded, known))
  {
    if recorded != [] {
      var init, last := recorded[..|recorded| - 1], recorded[|recorded| - 1];
      assert recorded == init + [last];
      ScanSupportsMeaning(init, known, maxEdges, edges);
    }
  }

  /** The scan succeeds exactly on readable nodes whose complete supports fit the edge budget. */
  lemma {:induction false} ScanMeaning(nodes: seq<Node>, known: set<string>, maxEdges: int)
    requires maxEdges >= 0
    ensures var r := ScanNodes(nodes, known, maxEdges);
            && (r.Ok? <==> Readable(nodes) && TotalWeight(nodes, known) <= maxEdges)
            && (r.Ok? ==> r.value == TotalWeight(nodes, known))
  {
    if nodes != [] {
      var init, last := nodes[..|nodes| - 1], nodes[|nodes| - 1];
      assert nodes == init + [last];
      ScanMeaning(init, known, maxEdges);
      assert Readable(nodes) <==> Readable(init) && NodeOk(last) && Malformed !in Read(last);
      if Readable(init) && TotalWeight(init, known) <= maxEdges {
        ScanSupportsMeaning(Read(last), known, maxEdges, TotalWeight(init, known));
      }
    }
  }

  // The export.

  /** `size` stands for the length of the canonical JSON bytes. */
  function Export(e: Explanation, maxEdges: int, maxBytes: int, size: Report -> nat): Result<Report, Error> {
    if maxEdges < 1 || maxBytes < 1 then Err(RuleError)
    else if |Ids(e.nodes)| != |e.nodes| || e.root !in Ids(e.nodes) then Err(RuleError)
    else
      var nodes := Sort(NodeLe, e.nodes);
      match ScanNodes(nodes, Ids(e.nodes), maxEdges)
      case Err(error) => Err(error)
      case Ok(_) =>
        ScanMeaning(nodes, Ids(e.nodes), maxEdges);
        SortKeeps(e.nodes);
        if size(Audit(e)) > maxBytes then Err(LimitExceeded) else Ok(Audit(e))
  }

  lemma IdsDistinct(nodes: seq<Node>)
    ensures |Ids(nodes)| == |nodes| <==> DistinctIds(nodes)
  {
    var ids := seq(|nodes|, i requires 0 <= i < |nodes| => nodes[i].id);
    forall id ensures id in Ids(nodes) <==> id in ids {
      if id in ids {
        var i :| 0 <= i < |ids| && ids[i] == id;
        assert nodes[i] in nodes;
      }
      if node :| node in nodes && node.id == id {
        var i :| 0 <= i < |nodes| && nodes[i] == node;
        assert ids[i] == id;
      }
    }
    assert Ids(nodes) == Elements(ids);
    CardDistinct(ids);
    if Distinct(ids) {
      forall i, j | 0 <= i < j < |nodes| ensures nodes[i].id != nodes[j].id { assert ids[i] != ids[j]; }
    }
  }

  /** The export does not depend on the order of the explanation's nodes: same report or same error. */
  lemma NodeOrderIrrelevant(e: Explanation, f: Explanation, maxEdges: int, maxBytes: int, size: Report -> nat)
    requires e.root == f.root && e.truncated == f.truncated && multiset(e.nodes) == multiset(f.nodes)
    ensures Export(e, maxEdges, maxBytes, size) == Export(f, maxEdges, maxBytes, size)
  {
    SameMembers(e.nodes, f.nodes);
    assert Ids(e.nodes) == Ids(f.nodes);
    if |Ids(e.nodes)| == |e.nodes| {
      IdsDistinct(e.nodes);
      NodeOrder();
      forall x, y | x in e.nodes && y in e.nodes && NodeLe(x, y) && NodeLe(y, x)
        ensures x == y
      {
        StringTotal(x.id, y.id);
      }
      SortCanonical(NodeLe, e.nodes, f.nodes);
      var known := Ids(e.nodes);
      assert SomethingDropped(e.nodes, known) == SomethingDropped(f.nodes, known);
      SortKeeps(e.nodes);
    }
  }

  lemma SameMembers(xs: seq<Node>, ys: seq<Node>)
    requires multiset(xs) == multiset(ys)
    ensures |xs| == |ys| && forall x :: x in xs <==> x in ys
  {
    assert |multiset(xs)| == |xs| && |multiset(ys)| == |ys|;
    forall x ensures x in xs <==> x in ys { assert x in multiset(xs) <==> x in multiset(ys); }
  }

  // What the report holds.

  function ExportedIds(report: Report): set<string> {
    set n | n in report.nodes :: n.id
  }

  /** The support records a complete justification of a node. */
  ghost predicate Records(nodes: seq<Node>, known: set<string>, s: Support) {
    exists node, j :: node in nodes && Good(j) in Read(node) && Complete(j, known) && s == SupportFor(node.id, j)
  }

  lemma {:induction false} InSupports(conclusion: string, recorded: seq<Recorded>, known: set<string>, s: Support)
    ensures s in Supports(conclusion, recorded, known) <==>
            exists j :: Good(j) in recorded && Complete(j, known) && s == SupportFor(conclusion, j)
  {
    if recorded != [] {
      var init, last := recorded[..|recorded| - 1], recorded[|recorded| - 1];
      assert recorded == init + [last];
      InSupports(conclusion, init, known, s);
      if j :| Good(j) in recorded && Complete(j, known) && s == SupportFor(conclusion, j) {
        assert Good(j) in init || last == Good(j);
      }
    }
  }

  lemma {:induction false} InAllSupports(nodes: seq<Node>, known: set<string>, s: Support)
    ensures s in AllSupports(nodes, known) <==> Records(nodes, known, s)
  {
    if nodes != [] {
      var init, last := nodes[..|nodes| - 1], nodes[|nodes| - 1];
      assert nodes == init + [last];
      InAllSupports(init, known, s);
      InSupports(last.id, Read(last), known, s);
      if Records(nodes, known, s) {
        var node, j :| node in nodes && Good(j) in Read(node) && Complete(j, known) && s == SupportFor(node.id, j);
        assert node in init || node == last;
      }
    }
  }

  lemma ExportedIdsAreIds(e: Explanation)
    requires Readable(e.nodes)
    ensures ExportedIds(Audit(e)) == Ids(e.nodes)
  {
    var nodes, out := Sort(NodeLe, e.nodes), Audit(e).nodes;
    SortKeeps(e.nodes);
    forall id | id in Ids(e.nodes) ensures id in ExportedIds(Audit(e)) {
      var node :| node in e.nodes && node.id == id;
      assert node in nodes;
      var i :| 0 <= i < |nodes| && nodes[i] == node;
      assert out[i] in out && out[i].id == id;
    }
    forall id | id in ExportedIds(Audit(e)) ensures id in Ids(e.nodes) {
      var n :| n in out && n.id == id;
      var i :| 0 <= i < |out| && out[i] == n;
      assert nodes[i] in e.nodes && nodes[i].id == id;
    }
  }

  /**
   * The report is closed and complete: it exports exactly the recorded justifications all of whose rule,
   * premise and absence nodes are exported; it is marked truncated exactly when the input was or one was
   * dropped; and the edges it exports stay within the budget.
   */
  lemma ReportFacts(e: Explanation, maxEdges: int, maxBytes: int, size: Report -> nat)
    requires Export(e, maxEdges, maxBytes, size).Ok?
    ensures var report := Export(e, maxEdges, maxBytes, size).value;
            var ids := ExportedIds(report);
            && (forall s :: s in report.justifications <==> Records(e.nodes, ids, s))
            && (forall s :: s in report.justifications ==>
                  s.conclusion in ids && s.rule in ids && forall p :: p in s.premises ==> p in ids)
            && (report.truncated <==> e.truncated || SomethingDropped(e.nodes, ids))
            && multiset(report.justifications) == multiset(AllSupports(Sort(NodeLe, e.nodes), ids))
            && TotalWeight(Sort(NodeLe, e.nodes), ids) <= maxEdges
  {
    var nodes, known := Sort(NodeLe, e.nodes), Ids(e.nodes);
    SortKeeps(e.nodes);
    ScanMeaning(nodes, known, maxEdges);
    ExportedIdsAreIds(e);
    var report := Audit(e);
    SortElements(SupportLe, AllSupports(nodes, known));
    forall s ensures s in report.justifications <==> Records(e.nodes, known, s) {
      assert s in report.justifications <==> s in multiset(AllSupports(nodes, known));
      InAllSupports(nodes, known, s);
      assert Records(nodes, known, s) == Records(e.nodes, known, s);
    }
  }

  ghost predicate Ascending(nodes: seq<ExportedNode>) {
    forall i, j :: 0 <= i < j < |nodes| ==> nodes[i].id != nodes[j].id && StringLe(nodes[i].id, nodes[j].id)
  }

  /** Every node is exported once, in ascending order of identifiers, and the justifications are sorted. */
  lemma ReportOrder(e: Explanation, maxEdges: int, maxBytes: int, size: Report -> nat)
    requires Export(e, maxEdges, maxBytes, size).Ok?
    ensures var report := Export(e, maxEdges, maxBytes, size).value;
            && Readable(e.nodes) && |report.nodes| == |e.nodes|
            && Ascending(report.nodes)
            && (forall n :: n in report.nodes <==> exists node :: node in e.nodes && n == Exported(node))
            && SortedBy(SupportLe, report.justifications)
  {
    ExportSucceedsIff(e, maxEdges, maxBytes, size);
    AuditOrder(e);
  }

  lemma AuditOrder(e: Explanation)
    requires Readable(e.nodes) && DistinctIds(e.nodes)
    ensures |Audit(e).nodes| == |e.nodes| && Ascending(Audit(e).nodes)
    ensures forall n :: n in Audit(e).nodes <==> exists node :: node in e.nodes && n == Exported(node)
    ensures SortedBy(SupportLe, Audit(e).justifications)
  {
    hide SupportLe, StringLe, AllSupports, Exported, SomethingDropped;
    var nodes, known := Sort(NodeLe, e.nodes), Ids(e.nodes);
    SortKeeps(e.nodes);
    SupportOrder([]);
    SortSorted(SupportLe, AllSupports(nodes, known));
    NodesAscend(e.nodes);
    ExportedAscend(nodes);
    ExportedAllMembers(nodes);
  }

  lemma ExportedAscend(nodes: seq<Node>)
    requires Readable(nodes)
    requires forall i, j :: 0 <= i < j < |nodes| ==> nodes[i].id != nodes[j].id && StringLe(nodes[i].id, nodes[j].id)
    ensures Ascending(ExportedAll(nodes))
  {
    hide StringLe;
  }

  lemma NodesAscend(nodes: seq<Node>)
    requires DistinctIds(nodes)
    ensures var sorted := Sort(NodeLe, nodes);
            forall i, j :: 0 <= i < j < |sorted| ==>
              sorted[i].id != sorted[j].id && StringLe(sorted[i].id, sorted[j].id)
  {
    var sorted := Sort(NodeLe, nodes);
    SortKeeps(nodes);
    NodeOrder();
    SortSorted(NodeLe, nodes);
    IdsDistinct(nodes);
    IdsDistinct(sorted);
    assert Ids(sorted) == Ids(nodes);
    forall i, j | 0 <= i < j < |sorted| ensures sorted[i].id != sorted[j].id && StringLe(sorted[i].id, sorted[j].id) {
      assert NodeLe(sorted[i], sorted[j]);
    }
  }

  lemma ExportedAllMembers(nodes: seq<Node>)
    requires Readable(nodes)
    ensures forall n :: n in ExportedAll(nodes) <==> exists node :: node in nodes && n == Exported(node)
  {
    forall n ensures n in ExportedAll(nodes) <==> exists node :: node in nodes && n == Exported(node) {
      if node :| node in nodes && n == Exported(node) {
        var i :| 0 <= i < |nodes| && nodes[i] == node;
        assert ExportedAll(nodes)[i] == n;
      }
    }
  }

  /** Exactly when there is a report. */
  lemma ExportSucceedsIff(e: Explanation, maxEdges: int, maxBytes: int, size: Report -> nat)
    ensures Export(e, maxEdges, maxBytes, size).Ok? <==>
            && maxEdges >= 1 && maxBytes >= 1
            && DistinctIds(e.nodes) && e.root in Ids(e.nodes)
            && Readable(e.nodes)
            && TotalWeight(Sort(NodeLe, e.nodes), Ids(e.nodes)) <= maxEdges
            && size(Audit(e)) <= maxBytes
  {
    IdsDistinct(e.nodes);
    SortKeeps(e.nodes);
    if maxEdges >= 1 { ScanMeaning(Sort(NodeLe, e.nodes), Ids(e.nodes), maxEdges); }
  }

  // The report and the errors, without the functions that make them.

  /** The exported form of a node. */
  predicate IsExported(node: Node, n: ExportedNode) {
    && n.id == node.id && node.content != OtherContent && n.payload == node.content.payload
    && n.kind == if node.kind == "claim" && node.content.ClaimContent? && node.content.model == Identified
                 then "model_output" else node.kind
  }

  /** A rule or claim node has a version of its own identifier, an absence node its evidence, a model its names. */
  lemma NodeMeaning(node: Node)
    ensures NodeOk(node) <==>
              || (node.kind == "rule" && node.content.RuleContent? && node.content.versionId == node.id)
              || (node.kind == "absence" && node.content.AbsenceContent?)
              || (node.kind == "claim" && node.content.ClaimContent? && node.content.hasClaim
                  && node.content.versionId == node.id && node.content.model in {NoModel, Identified})
    ensures NodeOk(node) ==> forall n :: IsExported(node, n) <==> n == Exported(node)
    ensures forall r :: r in Read(node) <==>
              node.kind == "claim" && node.content.ClaimContent? && node.content.derivedByRules
              && r in node.content.justifications
  {
  }

  /** A justification recorded for a node. */
  predicate IsRecorded(node: Node, j: Justification) {
    && node.kind == "claim" && node.content.ClaimContent? && node.content.derivedByRules
    && Good(j) in node.content.justifications
  }

  predicate IsNode(e: Explanation, id: string) {
    exists n :: n in e.nodes && n.id == id
  }

  /** Its rule, its premises and its absences are all nodes of the explanation. */
  predicate Supported(e: Explanation, j: Justification) {
    IsNode(e, j.rule) && (forall p :: p in j.premises ==> IsNode(e, p))
    && (forall a :: a in j.absences ==> IsNode(e, a.nodeId))
  }

  lemma SupportedIsComplete(e: Explanation, j: Justification)
    ensures Supported(e, j) <==> Complete(j, Ids(e.nodes))
  {
    forall id ensures IsNode(e, id) <==> id in Ids(e.nodes) { }
    hide IsNode, Ids;
  }

  /** One entry of the recorded justifications, alone: what is exported of it, and what it weighs. */
  lemma OneSupport(conclusion: string, r: Recorded, known: set<string>)
    ensures Supports(conclusion, [r], known) ==
            if r.Good? && Complete(r.value, known)
            then [Support(conclusion, r.value.rule, r.value.premises, AbsencesText(r.value.absences))] else []
    ensures SupportWeight([r], known) ==
            if r.Good? && Complete(r.value, known) then 1 + |r.value.premises| + |r.value.absences| else 0
  {
    assert [r][..0] == [];
  }

  /** Nodes contribute one after the other. */
  lemma {:induction false} NodesConcat(a: seq<Node>, b: seq<Node>, known: set<string>)
    ensures AllSupports(a + b, known) == AllSupports(a, known) + AllSupports(b, known)
    ensures TotalWeight(a + b, known) == TotalWeight(a, known) + TotalWeight(b, known)
    decreases |b|
  {
    hide Supports, SupportWeight, Read;
    if b == [] {
      assert a + b == a;
    } else {
      assert (a + b)[..|a + b| - 1] == a + b[..|b| - 1];
      NodesConcat(a, b[..|b| - 1], known);
    }
  }

  lemma OneNode(node: Node, known: set<string>)
    ensures AllSupports([node], known) == Supports(node.id, Read(node), known)
    ensures TotalWeight([node], known) == SupportWeight(Read(node), known)
  {
    hide Supports, SupportWeight, Read;
    assert [node][..0] == [];
  }

  /** The absences are written as a list, separated by commas. */
  lemma {:induction false} AbsencesMeaning(a: seq<Absence>, b: seq<Absence>)
    ensures AbsencesText([]) == "[]" && (|a| == 1 ==> AbsencesText(a) == "[" + a[0].text + "]")
    ensures a != [] && b != [] ==> Joined(a + b) == Joined(a) + ", " + Joined(b)
    ensures AbsencesText(a) == "[" + Joined(a) + "]"
    decreases |a|
  {
    if |a| == 1 {
      assert (a + b)[1..] == b;
    } else if a != [] {
      assert (a + b)[1..] == a[1..] + b;
      AbsencesMeaning(a[1..], b);
      assert b != [] ==> a[0].text + ", " + (Joined(a[1..]) + ", " + Joined(b)) ==
                         (a[0].text + ", " + Joined(a[1..])) + ", " + Joined(b);
    }
  }

  /** What a successful export is. */
  ghost predicate IsReport(e: Explanation, report: Report) {
    && report.root == e.root && |report.nodes| == |e.nodes|
    && (forall n :: n in report.nodes <==> exists node :: node in e.nodes && IsExported(node, n))
    && Ascending(report.nodes)
    && (forall s :: s in report.justifications <==>
          exists node, j :: node in e.nodes && IsRecorded(node, j) && Supported(e, j)
                            && s == Support(node.id, j.rule, j.premises, AbsencesText(j.absences)))
    && SortedBy(SupportLe, report.justifications)
    && (report.truncated <==>
          e.truncated || exists node, j :: node in e.nodes && IsRecorded(node, j) && !Supported(e, j))
  }

  lemma NodesAreExported(e: Explanation, report: Report)
    requires Readable(e.nodes)
    requires forall n :: n in report.nodes <==> exists node :: node in e.nodes && n == Exported(node)
    ensures forall n :: n in report.nodes <==> exists node :: node in e.nodes && IsExported(node, n)
  {
    forall node | node in e.nodes
      ensures forall n :: IsExported(node, n) <==> n == Exported(node)
    {
      NodeMeaning(node);
    }
    hide Exported, IsExported, NodeOk;
  }

  lemma RecordsMeaning(e: Explanation, s: Support)
    ensures Records(e.nodes, Ids(e.nodes), s) <==>
              exists node, j :: node in e.nodes && IsRecorded(node, j) && Supported(e, j)
                                && s == Support(node.id, j.rule, j.premises, AbsencesText(j.absences))
  {
    forall j ensures Supported(e, j) <==> Complete(j, Ids(e.nodes)) { SupportedIsComplete(e, j); }
    forall node, j ensures IsRecorded(node, j) <==> Good(j) in Read(node) { NodeMeaning(node); }
    hide Supported, Complete, Ids, IsRecorded, Read;
    if node, j :| node in e.nodes && Good(j) in Read(node) && Complete(j, Ids(e.nodes)) && s == SupportFor(node.id, j) {
      assert node in e.nodes && IsRecorded(node, j) && Supported(e, j);
    }
    if node, j :| node in e.nodes && IsRecorded(node, j) && Supported(e, j)
                  && s == Support(node.id, j.rule, j.premises, AbsencesText(j.absences))
    {
      assert node in e.nodes && Good(j) in Read(node) && Complete(j, Ids(e.nodes)) && s == SupportFor(node.id, j);
    }
  }

  lemma DroppedMeaning(e: Explanation)
    ensures SomethingDropped(e.nodes, Ids(e.nodes)) <==>
              exists node, j :: node in e.nodes && IsRecorded(node, j) && !Supported(e, j)
  {
    forall j ensures Supported(e, j) <==> Complete(j, Ids(e.nodes)) { SupportedIsComplete(e, j); }
    forall node, j ensures IsRecorded(node, j) <==> Good(j) in Read(node) { NodeMeaning(node); }
    hide Supported, Complete, Ids, IsRecorded, Read;
    if node :| node in e.nodes && Drops(Read(node), Ids(e.nodes)) {
      var r :| r in Read(node) && r.Good? && !Complete(r.value, Ids(e.nodes));
      assert r == Good(r.value) && IsRecorded(node, r.value);
    }
    if node, j :| node in e.nodes && IsRecorded(node, j) && !Supported(e, j) {
      assert Good(j) in Read(node) && Drops(Read(node), Ids(e.nodes));
    }
  }

  lemma AllRecordsMeaning(e: Explanation, justifications: seq<Support>)
    requires forall s :: s in justifications <==> Records(e.nodes, Ids(e.nodes), s)
    ensures forall s :: s in justifications <==>
              exists node, j :: node in e.nodes && IsRecorded(node, j) && Supported(e, j)
                                && s == Support(node.id, j.rule, j.premises, AbsencesText(j.absences))
  {
    hide Records, IsRecorded, Supported, Ids, AbsencesText;
    forall s ensures s in justifications <==>
                     exists node, j :: node in e.nodes && IsRecorded(node, j) && Supported(e, j)
                                       && s == Support(node.id, j.rule, j.premises, AbsencesText(j.absences))
    {
      RecordsMeaning(e, s);
    }
  }

  lemma AuditIsReport(e: Explanation, report: Report)
    requires Readable(e.nodes) && report.root == e.root && |report.nodes| == |e.nodes| && Ascending(report.nodes)
    requires forall n :: n in report.nodes <==> exists node :: node in e.nodes && n == Exported(node)
    requires forall s :: s in report.justifications <==> Records(e.nodes, Ids(e.nodes), s)
    requires SortedBy(SupportLe, report.justifications)
    requires report.truncated <==> e.truncated || SomethingDropped(e.nodes, Ids(e.nodes))
    ensures IsReport(e, report)
  {
    hide Exported, IsExported, SupportLe, Ascending, SomethingDropped, Records, IsRecorded, Supported, Ids, SortedBy;
    hide AbsencesText;
    NodesAreExported(e, report);
    DroppedMeaning(e);
    AllRecordsMeaning(e, report.justifications);
  }

  lemma ExportIsReport(e: Explanation, maxEdges: int, maxBytes: int, size: Report -> nat)
    requires Export(e, maxEdges, maxBytes, size).Ok?
    ensures IsReport(e, Export(e, maxEdges, maxBytes, size).value)
  {
    var report := Export(e, maxEdges, maxBytes, size).value;
    ExportSucceedsIff(e, maxEdges, maxBytes, size);
    assert report == Audit(e) && report.root == e.root;
    hide Audit, ExportedIds, Ids, Exported, Readable, SupportLe, Ascending, SomethingDropped, Records, IsReport;
    ReportFacts(e, maxEdges, maxBytes, size);
    ReportOrder(e, maxEdges, maxBytes, size);
    hide Export;
    ExportedIdsAreIds(e);
    AuditIsReport(e, report);
  }

  /** Sorted justifications ascend by conclusion, then rule, then premises, then absences. */
  lemma SupportsAscend(a: Support, b: Support)
    ensures SupportLe(a, b) ==> StringLe(a.conclusion, b.conclusion)
    ensures SupportLe(a, b) && a.conclusion == b.conclusion ==> StringLe(a.rule, b.rule)
    ensures SupportLe(a, b) && (a.conclusion, a.rule) == (b.conclusion, b.rule) ==> ListLe(a.premises, b.premises)
    ensures SupportLe(a, b) && (a.conclusion, a.rule, a.premises) == (b.conclusion, b.rule, b.premises) ==>
              StringLe(a.absences, b.absences)
  {
    StringTotal(a.conclusion, b.conclusion);
    StringTotal(a.rule, b.rule);
    ListTotal(a.premises, b.premises);
  }

  /** What the conditions for an export say of the nodes. */
  lemma ConditionsMeaning(e: Explanation)
    ensures DistinctIds(e.nodes) <==> forall i, j :: 0 <= i < j < |e.nodes| ==> e.nodes[i].id != e.nodes[j].id
    ensures e.root in Ids(e.nodes) <==> exists node :: node in e.nodes && node.id == e.root
    ensures Readable(e.nodes) <==>
              forall node :: node in e.nodes ==> NodeOk(node) && !(Malformed in Read(node))
  {
  }

  /** Entry m of a node's recorded justifications is the first that is malformed or exceeds the budget. */
  ghost predicate EntryFails(recorded: seq<Recorded>, known: set<string>, maxEdges: int, edges: int, m: nat,
                             error: Error)
  {
    && m < |recorded| && Malformed !in recorded[..m] && edges + SupportWeight(recorded[..m], known) <= maxEdges
    && if recorded[m].Malformed? then error == RuleError
       else error == LimitExceeded && edges + SupportWeight(recorded[..m + 1], known) > maxEdges
  }

  /** Node n is the first that cannot be exported, and the error says why. */
  ghost predicate NodeFailsFirst(nodes: seq<Node>, known: set<string>, maxEdges: int, n: nat, error: Error) {
    && n < |nodes| && Readable(nodes[..n]) && TotalWeight(nodes[..n], known) <= maxEdges
    && if !NodeOk(nodes[n]) then error == RuleError
       else exists m: nat :: EntryFails(Read(nodes[n]), known, maxEdges, TotalWeight(nodes[..n], known), m, error)
  }

  lemma {:induction false} ScanSupportsError(recorded: seq<Recorded>, known: set<string>, maxEdges: int, edges: nat)
      returns (m: nat)
    requires edges <= maxEdges && ScanSupports(recorded, known, maxEdges, edges).Err?
    ensures EntryFails(recorded, known, maxEdges, edges, m, ScanSupports(recorded, known, maxEdges, edges).error)
  {
    var init, last := recorded[..|recorded| - 1], |recorded| - 1;
    if ScanSupports(init, known, maxEdges, edges).Err? {
      m := ScanSupportsError(init, known, maxEdges, edges);
      assert init[..m] == recorded[..m] && init[..m + 1] == recorded[..m + 1];
    } else {
      m := last;
      ScanSupportsMeaning(init, known, maxEdges, edges);
      assert recorded[..m + 1] == recorded;
    }
  }

  lemma {:induction false} ScanNodesError(nodes: seq<Node>, known: set<string>, maxEdges: int) returns (n: nat)
    requires maxEdges >= 0 && ScanNodes(nodes, known, maxEdges).Err?
    ensures NodeFailsFirst(nodes, known, maxEdges, n, ScanNodes(nodes, known, maxEdges).error)
  {
    var init, last := nodes[..|nodes| - 1], |nodes| - 1;
    if ScanNodes(init, known, maxEdges).Err? {
      n := ScanNodesError(init, known, maxEdges);
      assert init[..n] == nodes[..n];
    } else {
      n := last;
      ScanMeaning(init, known, maxEdges);
      if NodeOk(nodes[n]) {
        var m := ScanSupportsError(Read(nodes[n]), known, maxEdges, TotalWeight(init, known));
      }
    }
  }

  /** Why an export fails, in the order in which the reasons are looked for. */
  lemma ExportErrorMeaning(e: Explanation, maxEdges: int, maxBytes: int, size: Report -> nat)
    requires Export(e, maxEdges, maxBytes, size).Err?
    ensures var error := Export(e, maxEdges, maxBytes, size).error;
            if maxEdges < 1 || maxBytes < 1 || !DistinctIds(e.nodes) || !IsNode(e, e.root) then error == RuleError
            else if ScanNodes(Sort(NodeLe, e.nodes), Ids(e.nodes), maxEdges).Err? then
              exists n: nat :: NodeFailsFirst(Sort(NodeLe, e.nodes), Ids(e.nodes), maxEdges, n, error)
            else error == LimitExceeded
  {
    IdsDistinct(e.nodes);
    var sorted := Sort(NodeLe, e.nodes);
    if maxEdges >= 1 && ScanNodes(sorted, Ids(e.nodes), maxEdges).Err? {
      var n := ScanNodesError(sorted, Ids(e.nodes), maxEdges);
    }
  }

  // The order of the recorded justifications.

  /** The same node up to the order of its recorded justifications. */
  ghost predicate SameNode(a: Node, b: Node) {
    a.id == b.id && NodeOk(a) == NodeOk(b) && multiset(Read(a)) == multiset(Read(b))
  }

  ghost predicate SameNodes(xs: seq<Node>, ys: seq<Node>) {
    |xs| == |ys| && forall i :: 0 <= i < |xs| ==> SameNode(xs[i], ys[i])
  }

  lemma {:induction false} SameInsert(x: Node, y: Node, xs: seq<Node>, ys: seq<Node>)
    requires SameNode(x, y) && SameNodes(xs, ys)
    ensures SameNodes(Insert(NodeLe, x, xs), Insert(NodeLe, y, ys))
  {
    if xs != [] {
      SameInsert(x, y, xs[1..], ys[1..]);
    }
  }

  lemma {:induction false} SameSort(xs: seq<Node>, ys: seq<Node>)
    requires SameNodes(xs, ys)
    ensures SameNodes(Sort(NodeLe, xs), Sort(NodeLe, ys))
  {
    if xs != [] {
      SameSort(xs[1..], ys[1..]);
      SameInsert(xs[0], ys[0], Sort(NodeLe, xs[1..]), Sort(NodeLe, ys[1..]));
    }
  }

  lemma {:induction false} SupportsConcat(conclusion: string, a: seq<Recorded>, b: seq<Recorded>, known: set<string>)
    ensures Supports(conclusion, a + b, known) == Supports(conclusion, a, known) + Supports(conclusion, b, known)
    ensures SupportWeight(a + b, known) == SupportWeight(a, known) + SupportWeight(b, known)
    decreases |b|
  {
    if b == [] {
      assert a + b == a;
    } else {
      assert (a + b)[..|a + b| - 1] == a + b[..|b| - 1];
      SupportsConcat(conclusion, a, b[..|b| - 1], known);
    }
  }

  function Without(xs: seq<Recorded>, i: nat): seq<Recorded>
    requires i < |xs|
  {
    xs[..i] + xs[i + 1..]
  }

  lemma WithoutFacts(conclusion: string, xs: seq<Recorded>, i: nat, known: set<string>)
    requires i < |xs|
    ensures multiset(Without(xs, i)) == multiset(xs) - multiset{xs[i]}
    ensures multiset(Supports(conclusion, xs, known)) ==
            multiset(Supports(conclusion, Without(xs, i), known)) + multiset(Supports(conclusion, [xs[i]], known))
    ensures SupportWeight(xs, known) == SupportWeight(Without(xs, i), known) + SupportWeight([xs[i]], known)
  {
    var before, one, after := xs[..i], [xs[i]], xs[i + 1..];
    assert xs == (before + one) + after;
    SupportsConcat(conclusion, before + one, after, known);
    SupportsConcat(conclusion, before, one, known);
    SupportsConcat(conclusion, before, after, known);
  }

  lemma {:induction false} SupportsOrder(conclusion: string, xs: seq<Recorded>, ys: seq<Recorded>, known: set<string>)
    requires multiset(xs) == multiset(ys)
    ensures multiset(Supports(conclusion, xs, known)) == multiset(Supports(conclusion, ys, known))
    ensures SupportWeight(xs, known) == SupportWeight(ys, known)
    decreases |xs|
  {
    assert |multiset(xs)| == |xs| && |multiset(ys)| == |ys|;
    if xs != [] {
      assert xs[0] in multiset(ys);
      var i :| 0 <= i < |ys| && ys[i] == xs[0];
      WithoutFacts(conclusion, xs, 0, known);
      WithoutFacts(conclusion, ys, i, known);
      SupportsOrder(conclusion, Without(xs, 0), Without(ys, i), known);
    }
  }

  lemma {:induction false} AllSupportsOrder(xs: seq<Node>, ys: seq<Node>, known: set<string>)
    requires SameNodes(xs, ys)
    ensures multiset(AllSupports(xs, known)) == multiset(AllSupports(ys, known))
    ensures TotalWeight(xs, known) == TotalWeight(ys, known)
  {
    if xs != [] {
      var n := |xs| - 1;
      assert SameNode(xs[n], ys[n]);
      AllSupportsOrder(xs[..n], ys[..n], known);
      SupportsOrder(xs[n].id, Read(xs[n]), Read(ys[n]), known);
    }
  }

  lemma SameNodeReads(x: Node, y: Node, known: set<string>)
    requires SameNode(x, y)
    ensures Malformed in Read(x) <==> Malformed in Read(y)
    ensures Drops(Read(x), known) <==> Drops(Read(y), known)
  {
    forall r ensures r in Read(x) <==> r in Read(y) {
      assert r in multiset(Read(x)) <==> r in multiset(Read(y));
    }
  }

  lemma Partner(xs: seq<Node>, ys: seq<Node>, x: Node) returns (y: Node)
    requires SameNodes(xs, ys) && x in xs
    ensures y in ys && SameNode(x, y)
  {
    var i :| 0 <= i < |xs| && xs[i] == x;
    y := ys[i];
  }

  lemma SameNodesAgree(xs: seq<Node>, ys: seq<Node>, known: set<string>)
    requires SameNodes(xs, ys)
    ensures Ids(xs) <= Ids(ys)
    ensures Readable(ys) ==> Readable(xs)
    ensures SomethingDropped(xs, known) ==> SomethingDropped(ys, known)
  {
    hide SameNodes, Drops, Read, NodeOk;
    forall id | id in Ids(xs) ensures id in Ids(ys) {
      var x :| x in xs && x.id == id;
      var y := Partner(xs, ys, x);
    }
    if Readable(ys) {
      forall x | x in xs ensures NodeOk(x) && Malformed !in Read(x) {
        var y := Partner(xs, ys, x);
        SameNodeReads(x, y, known);
      }
    }
    if x :| x in xs && Drops(Read(x), known) {
      var y := Partner(xs, ys, x);
      SameNodeReads(x, y, known);
    }
  }

  /**
   * Reordering the recorded justifications of any claims changes neither the exported justifications,
   * which are sorted, nor the truncation mark, nor whether the nodes are readable and fit the edge budget.
   */
  lemma JustificationOrderIrrelevant(e: Explanation, f: Explanation)
    requires e.root == f.root && e.truncated == f.truncated && SameNodes(e.nodes, f.nodes)
    ensures Readable(e.nodes) <==> Readable(f.nodes)
    ensures TotalWeight(Sort(NodeLe, e.nodes), Ids(e.nodes)) == TotalWeight(Sort(NodeLe, f.nodes), Ids(f.nodes))
    ensures Readable(e.nodes) && Readable(f.nodes) ==>
              Audit(e).justifications == Audit(f).justifications && Audit(e).truncated == Audit(f).truncated
  {
    hide SameNodes, SomethingDropped, Readable, Sort, AllSupports, TotalWeight, SupportLe, NodeLe;
    SameNodesSymmetric(e.nodes, f.nodes);
    var known := Ids(e.nodes);
    SameNodesAgree(e.nodes, f.nodes, known);
    SameNodesAgree(f.nodes, e.nodes, known);
    assert Ids(f.nodes) == known;
    var xs, ys := Sort(NodeLe, e.nodes), Sort(NodeLe, f.nodes);
    SameSort(e.nodes, f.nodes);
    AllSupportsOrder(xs, ys, known);
    SupportOrder(AllSupports(xs, known));
    SortCanonical(SupportLe, AllSupports(xs, known), AllSupports(ys, known));
  }

  lemma SameNodesSymmetric(xs: seq<Node>, ys: seq<Node>)
    requires SameNodes(xs, ys)
    ensures SameNodes(ys, xs)
  {
    forall i | 0 <= i < |ys| ensures SameNode(ys[i], xs[i]) { assert SameNode(xs[i], ys[i]); }
  }

  // The exporter.

  lemma DropsSnoc(done: seq<Recorded>, last: Recorded, known: set<string>)
    ensures Drops(done + [last], known) <==> Drops(done, known) || (last.Good? && !Complete(last.value, known))
  {
    var next := done + [last];
    if last.Good? && !Complete(last.value, known) { assert next[|done|] == last; }
    if i :| 0 <= i < |done| && done[i].Good? && !Complete(done[i].value, known) { assert next[i] == done[i]; }
  }

  /** The loop over one claim's recorded justifications. */
  method ReadSupports(conclusion: string, recorded: seq<Recorded>, known: set<string>, maxEdges: int, edges: nat)
    returns (r: Result<nat, Error>, supports: seq<Support>, truncated: bool)
    ensures r == ScanSupports(recorded, known, maxEdges, edges)
    ensures r.Ok? ==> supports == Supports(conclusion, recorded, known)
    ensures r.Ok? ==> (truncated <==> Drops(recorded, known))
  {
    var count := edges;
    supports, truncated := [], false;
    assert !Drops([], known);
    hide Drops;
    for n := 0 to |recorded|
      invariant ScanSupports(recorded[..n], known, maxEdges, edges) == Ok(count)
      invariant supports == Supports(conclusion, recorded[..n], known)
      invariant truncated <==> Drops(recorded[..n], known)
    {
      var next := recorded[..n + 1];
      assert next[..n] == recorded[..n] && next == recorded[..n] + [recorded[n]];
      match recorded[n] {
        case Malformed =>
          SupportsErrorStays(recorded, n + 1, known, maxEdges, edges);
          r := Err(RuleError);
          return;
        case Good(j) =>
          if !Complete(j, known) {
            truncated := true;
          } else {
            count := count + Weight(j);
            if count > maxEdges {
              SupportsErrorStays(recorded, n + 1, known, maxEdges, edges);
              r := Err(LimitExceeded);
              return;
            }
            supports := supports + [SupportFor(conclusion, j)];
          }
      }
      DropsSnoc(recorded[..n], recorded[n], known);
    }
    assert recorded[..|recorded|] == recorded;
    r := Ok(count);
  }

  /** What the loop over the nodes keeps. */
  ghost predicate Exporting(done: seq<Node>, known: set<string>, maxEdges: int, start: bool,
                            nodes: seq<ExportedNode>, supports: seq<Support>, edges: nat, truncated: bool) {
    && ScanNodes(done, known, maxEdges) == Ok(edges)
    && |nodes| == |done| && (forall i :: 0 <= i < |done| ==> NodeOk(done[i]) && nodes[i] == Exported(done[i]))
    && supports == AllSupports(done, known)
    && (truncated <==> start || SomethingDropped(done, known))
  }

  lemma ScanSnoc(done: seq<Node>, node: Node, known: set<string>, maxEdges: int)
    requires ScanNodes(done, known, maxEdges).Ok?
    ensures ScanNodes(done + [node], known, maxEdges) ==
            if NodeOk(node) then ScanSupports(Read(node), known, maxEdges, ScanNodes(done, known, maxEdges).value)
            else Err(RuleError)
  {
    assert (done + [node])[..|done|] == done;
  }

  lemma ExportingStep(done: seq<Node>, known: set<string>, maxEdges: int, start: bool,
                      nodes: seq<ExportedNode>, supports: seq<Support>, edges: nat, truncated: bool,
                      node: Node, count: nat, dropped: bool)
    requires Exporting(done, known, maxEdges, start, nodes, supports, edges, truncated)
    requires NodeOk(node) && ScanSupports(Read(node), known, maxEdges, edges) == Ok(count)
    requires dropped <==> Drops(Read(node), known)
    ensures Exporting(done + [node], known, maxEdges, start, nodes + [Exported(node)],
                      supports + Supports(node.id, Read(node), known), count, truncated || dropped)
  {
    assert (done + [node])[..|done|] == done;
    ScanSnoc(done, node, known, maxEdges);
    DroppedSnoc(done, node, known);
  }

  lemma ExportingNothing(known: set<string>, maxEdges: int, start: bool)
    ensures Exporting([], known, maxEdges, start, [], [], 0, start)
  {
  }

  lemma ExportingScans(done: seq<Node>, known: set<string>, maxEdges: int, start: bool,
                       nodes: seq<ExportedNode>, supports: seq<Support>, edges: nat, truncated: bool)
    requires Exporting(done, known, maxEdges, start, nodes, supports, edges, truncated)
    ensures ScanNodes(done, known, maxEdges) == Ok(edges)
  {
  }

  /** The first node that cannot be read decides the outcome. */
  lemma NodeFails(sorted: seq<Node>, n: nat, known: set<string>, maxEdges: int, edges: nat, error: Error)
    requires n < |sorted| && ScanNodes(sorted[..n], known, maxEdges) == Ok(edges)
    requires if NodeOk(sorted[n]) then ScanSupports(Read(sorted[n]), known, maxEdges, edges) == Err(error)
             else error == RuleError
    ensures ScanNodes(sorted, known, maxEdges) == Err(error)
  {
    assert sorted[..n + 1] == sorted[..n] + [sorted[n]];
    ScanSnoc(sorted[..n], sorted[n], known, maxEdges);
    NodesErrorStays(sorted, n + 1, known, maxEdges);
  }

  /** The loop over the sorted nodes. */
  method ReadNodes(sorted: seq<Node>, known: set<string>, maxEdges: int, start: bool)
    returns (r: Result<nat, Error>, nodes: seq<ExportedNode>, supports: seq<Support>, truncated: bool)
    ensures r == ScanNodes(sorted, known, maxEdges)
    ensures r.Ok? ==> Exporting(sorted, known, maxEdges, start, nodes, supports, r.value, truncated)
  {
    hide Exporting, ScanNodes, ScanSupports, Supports, Drops;
    var edges: nat := 0;
    nodes, supports, truncated := [], [], start;
    ExportingNothing(known, maxEdges, start);
    assert sorted[..0] == [];
    for n := 0 to |sorted|
      invariant Exporting(sorted[..n], known, maxEdges, start, nodes, supports, edges, truncated)
    {
      var node := sorted[n];
      ExportingScans(sorted[..n], known, maxEdges, start, nodes, supports, edges, truncated);
      if !NodeOk(node) {
        NodeFails(sorted, n, known, maxEdges, edges, RuleError);
        r := Err(RuleError);
        return;
      }
      ghost var exported := nodes;
      nodes := nodes + [Exported(node)];
      var scanned, more, dropped := ReadSupports(node.id, Read(node), known, maxEdges, edges);
      if scanned.Err? {
        NodeFails(sorted, n, known, maxEdges, edges, scanned.error);
        r := Err(scanned.error);
        return;
      }
      ExportingStep(sorted[..n], known, maxEdges, start, exported, supports, edges, truncated, node, scanned.value,
                    dropped);
      assert sorted[..n + 1] == sorted[..n] + [node];
      edges := scanned.value;
      supports := supports + more;
      truncated := truncated || dropped;
    }
    assert sorted[..|sorted|] == sorted;
    ExportingScans(sorted, known, maxEdges, start, nodes, supports, edges, truncated);
    r := Ok(edges);
  }

  /** `export_inference`. */
  method ExportInference(e: Explanation, maxEdges: int, maxBytes: int, size: Report -> nat)
    returns (r: Result<Report, Error>)
    ensures r == Export(e, maxEdges, maxBytes, size)
    ensures r.Ok? ==> IsReport(e, r.value) && size(r.value) <= maxBytes
  {
    if Export(e, maxEdges, maxBytes, size).Ok? { ExportIsReport(e, maxEdges, maxBytes, size); }
    hide IsReport;
    if maxEdges < 1 || maxBytes < 1 {
      return Err(RuleError);
    }
    var known := Ids(e.nodes);
    if |known| != |e.nodes| || e.root !in known {
      return Err(RuleError);
    }
    var sorted := Sort(NodeLe, e.nodes);
    SortKeeps(e.nodes);
    var read, nodes, supports, truncated := ReadNodes(sorted, known, maxEdges, e.truncated);
    if read.Err? {
      return Err(read.error);
    }
    ScanMeaning(sorted, known, maxEdges);
    assert SomethingDropped(sorted, known) == SomethingDropped(e.nodes, known);
    var report := Report(e.root, truncated, nodes, Sort(SupportLe, supports));
    assert nodes == ExportedAll(sorted);
    if size(report) > maxBytes {
      return Err(LimitExceeded);
    }
    return Ok(report);
  }

  lemma DroppedSnoc(nodes: seq<Node>, node: Node, known: set<string>)
    ensures SomethingDropped(nodes + [node], known) <==> SomethingDropped(nodes, known) || Drops(Read(node), known)
  {
    assert node in nodes + [node];
  }
}
