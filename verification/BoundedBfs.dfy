/**
 The bounded breadth-first search of benchmarks/common/workloads.py: a FIFO queue of
 (node, depth) entries that may hold a node many times, marking a node when it is popped,
 a depth cut-off and an early stop once more than `limit` nodes are marked.
 */
module BoundedBfs {
  import opened Common
  import opened Graphs

  datatype Node = Node(key: string)

  datatype Entry = Entry(node: Node, depth: nat)

  /** Outgoing typed adjacency: the neighbour of every record, in record order. */
  datatype TypedGraph = TypedGraph(adjacency: map<(Node, string), seq<Node>>) {
    function Records(v: Node, edgeType: string): seq<Node> {
      if (v, edgeType) in adjacency then adjacency[(v, edgeType)] else []
    }

    /** The records of all given edge types in turn. */
    function Rows(v: Node, edgeTypes: seq<string>): seq<Node> {
      if edgeTypes == [] then []
      else Rows(v, edgeTypes[..|edgeTypes| - 1]) + Records(v, edgeTypes[|edgeTypes| - 1])
    }

    function Sources(): set<Node> {
      set key | key in adjacency :: key.0
    }

    function Digraph(edgeTypes: seq<string>): Digraph<Node> {
      map v | v in Sources() :: Elements(Rows(v, edgeTypes))
    }

    lemma DigraphNext(v: Node, edgeTypes: seq<string>)
      ensures Next(Digraph(edgeTypes), v) == Elements(Rows(v, edgeTypes))
    {
      if v !in Sources() {
        forall key | key in adjacency ensures key.0 != v { assert key.0 in Sources(); }
        RowsOfSink(v, edgeTypes);
      }
    }

    lemma {:induction false} RowsOfSink(v: Node, edgeTypes: seq<string>)
      requires forall key :: key in adjacency ==> key.0 != v
      ensures Rows(v, edgeTypes) == []
    {
      if edgeTypes != [] { RowsOfSink(v, edgeTypes[..|edgeTypes| - 1]); }
    }

    lemma {:induction false} InRows(v: Node, edgeTypes: seq<string>, w: Node)
      ensures w in Rows(v, edgeTypes) <==>
                exists t :: t in edgeTypes && (v, t) in adjacency && w in adjacency[(v, t)]
    {
      if edgeTypes != [] {
        var init, last := edgeTypes[..|edgeTypes| - 1], edgeTypes[|edgeTypes| - 1];
        InRows(v, init, w);
        assert edgeTypes == init + [last];
      }
    }

    /** The graph searched has an edge for every stored record of the given types, and no other edge. */
    lemma DigraphIsAdjacency(v: Node, w: Node, edgeTypes: seq<string>)
      ensures w in Next(Digraph(edgeTypes), v) <==>
                exists t :: t in edgeTypes && (v, t) in adjacency && w in adjacency[(v, t)]
    {
      DigraphNext(v, edgeTypes);
      InRows(v, edgeTypes, w);
    }

    /** One neighbour for each record: type by type in the order given, and in record order within a type. */
    lemma RowsInOrder(v: Node, edgeTypes: seq<string>, t: nat, r: nat)
      requires t < |edgeTypes| && (v, edgeTypes[t]) in adjacency && r < |adjacency[(v, edgeTypes[t])]|
      ensures var before := |Rows(v, edgeTypes[..t])|;
              && before + r < |Rows(v, edgeTypes)|
              && Rows(v, edgeTypes)[before + r] == adjacency[(v, edgeTypes[t])][r]
      decreases |edgeTypes|
    {
      var init := edgeTypes[..|edgeTypes| - 1];
      if t < |init| {
        assert init[..t] == edgeTypes[..t];
        RowsInOrder(v, init, t, r);
      }
    }
  }

  /** A missing depth bound never cuts; a negative one cuts where zero does. */
  ghost predicate Near(g: Digraph<Node>, start: Node, v: Node, depth: Option<int>) {
    match depth
    case None => Reaches(g, start, v)
    case Some(d) => Within(g, start, v, Max(d, 0))
  }

  /** The nodes at shortest distance at most `depth` from the start, the start included. */
  ghost function Ball(g: Digraph<Node>, start: Node, depth: Option<int>): set<Node> {
    set v | v in Vertices(g) + {start} && Near(g, start, v, depth)
  }

  /** Restricting the ball to the vertices loses nothing. */
  lemma BallIsAll(g: Digraph<Node>, start: Node, v: Node, depth: Option<int>)
    ensures v in Ball(g, start, depth) <==> Near(g, start, v, depth)
  {
    if Near(g, start, v, depth) {
      var p :| WalkFromTo(g, p, start, v);
      WalkEndsInside(g, p, start, v);
    }
  }

  predicate Cut(depth: Option<int>, k: nat) {
    depth.Some? && k >= depth.value
  }

  /** What one scan of the given rows appends to the queue. */
  function Pushed(rows: seq<Node>, visited: set<Node>, k: nat): seq<Entry> {
    if rows == [] then []
    else
      var last := rows[|rows| - 1];
      Pushed(rows[..|rows| - 1], visited, k) + (if last in visited then [] else [Entry(last, k + 1)])
  }

  lemma {:induction false} PushedEntries(rows: seq<Node>, visited: set<Node>, k: nat)
    ensures forall e :: e in Pushed(rows, visited, k) <==> e.depth == k + 1 && e.node in rows && e.node !in visited
  {
    if rows != [] { PushedEntries(rows[..|rows| - 1], visited, k); }
  }

  lemma {:induction false} PushedConcat(a: seq<Node>, b: seq<Node>, visited: set<Node>, k: nat)
    ensures Pushed(a + b, visited, k) == Pushed(a, visited, k) + Pushed(b, visited, k)
  {
    if b == [] {
      assert a + b == a;
    } else {
      var init := b[..|b| - 1];
      assert (a + b)[..|a + b| - 1] == a + init;
      PushedConcat(a, init, visited, k);
    }
  }

  /** The depth at which each marked node was popped, against the entries still queued. */
  ghost predicate Sound(g: Digraph<Node>, start: Node, depth: Option<int>, popped: map<Node, nat>, queue: seq<Entry>) {
    && (forall v :: v in popped ==> ReachesIn(g, start, v, popped[v]) && Allowed(depth, popped[v]))
    && (forall e :: e in queue ==> ReachesIn(g, start, e.node, e.depth) && Allowed(depth, e.depth))
  }

  predicate Allowed(depth: Option<int>, k: nat) {
    depth.Some? ==> k <= Max(depth.value, 0)
  }

  /** FIFO order: depths never fall along the queue, differ by at most one, and bound every popped depth. */
  ghost predicate Monotone(popped: map<Node, nat>, queue: seq<Entry>) {
    && (forall i, j :: 0 <= i < j < |queue| ==> queue[i].depth <= queue[j].depth <= queue[i].depth + 1)
    && (forall v, e :: v in popped && e in queue ==> popped[v] <= e.depth)
  }

  ghost predicate Settled(popped: map<Node, nat>, queue: seq<Entry>, w: Node, k: nat) {
    (w in popped && popped[w] <= k) || Entry(w, k) in queue
  }

  /** Every uncut popped node has each successor popped no later than one level on, or queued there. */
  ghost predicate Complete(g: Digraph<Node>, start: Node, depth: Option<int>, popped: map<Node, nat>, queue: seq<Entry>)
  {
    && Settled(popped, queue, start, 0)
    && (forall v, w :: v in popped && !Cut(depth, popped[v]) && w in Next(g, v) ==>
          Settled(popped, queue, w, popped[v] + 1))
  }

  ghost predicate Inv(g: Digraph<Node>, start: Node, depth: Option<int>, popped: map<Node, nat>, queue: seq<Entry>) {
    Sound(g, start, depth, popped, queue) && Monotone(popped, queue) && Complete(g, start, depth, popped, queue)
  }

  lemma InvSkip(g: Digraph<Node>, start: Node, depth: Option<int>, popped: map<Node, nat>, queue: seq<Entry>)
    requires Inv(g, start, depth, popped, queue) && queue != [] && queue[0].node in popped
    ensures Inv(g, start, depth, popped, queue[1..])
  {
    var rest := queue[1..];
    assert queue[0] in queue;
    assert popped[queue[0].node] <= queue[0].depth;
    forall w, k | Settled(popped, queue, w, k) ensures Settled(popped, rest, w, k) {
      if !(w in popped && popped[w] <= k) {
        assert Entry(w, k) in queue && Entry(w, k) != queue[0];
      }
    }
  }

  /** `pushed` is what popping queue[0] for the first time appends. */
  ghost predicate Pushes(g: Digraph<Node>, depth: Option<int>, popped: map<Node, nat>, head: Entry, pushed: seq<Entry>)
  {
    forall e :: e in pushed <==>
      !Cut(depth, head.depth) && e.depth == head.depth + 1 && e.node in Next(g, head.node) && e.node !in popped
      && e.node != head.node
  }

  lemma SoundExpand(g: Digraph<Node>, start: Node, depth: Option<int>, popped: map<Node, nat>, queue: seq<Entry>,
                    pushed: seq<Entry>)
    requires Sound(g, start, depth, popped, queue) && queue != [] && Pushes(g, depth, popped, queue[0], pushed)
    ensures Sound(g, start, depth, popped[queue[0].node := queue[0].depth], queue[1..] + pushed)
  {
    assert queue[0] in queue;
    forall e | e in pushed ensures ReachesIn(g, start, e.node, e.depth) && Allowed(depth, e.depth) {
      LastStep(g, start, e.node, queue[0].depth);
    }
  }

  lemma MonotoneExpand(g: Digraph<Node>, depth: Option<int>, popped: map<Node, nat>, queue: seq<Entry>,
                       pushed: seq<Entry>)
    requires Monotone(popped, queue) && queue != [] && Pushes(g, depth, popped, queue[0], pushed)
    ensures Monotone(popped[queue[0].node := queue[0].depth], queue[1..] + pushed)
  {
    var k := queue[0].depth;
    var rest := queue[1..] + pushed;
    forall i | 0 <= i < |rest| ensures k <= rest[i].depth <= k + 1 && (i >= |queue| - 1 ==> rest[i].depth == k + 1) {
      if i < |queue| - 1 { assert rest[i] == queue[i + 1]; } else { assert rest[i] in pushed; }
    }
    forall i, j | 0 <= i < j < |rest| ensures rest[i].depth <= rest[j].depth <= rest[i].depth + 1 {
      if j < |queue| - 1 { assert rest[i] == queue[i + 1] && rest[j] == queue[j + 1]; }
    }
    assert queue[0] in queue;
  }

  lemma CompleteExpand(g: Digraph<Node>, start: Node, depth: Option<int>, popped: map<Node, nat>, queue: seq<Entry>,
                       pushed: seq<Entry>)
    requires Monotone(popped, queue) && Complete(g, start, depth, popped, queue)
    requires queue != [] && queue[0].node !in popped && Pushes(g, depth, popped, queue[0], pushed)
    ensures Complete(g, start, depth, popped[queue[0].node := queue[0].depth], queue[1..] + pushed)
  {
    var Entry(c, k) := queue[0];
    var next, rest := popped[c := k], queue[1..] + pushed;
    forall w, d: nat | Settled(popped, queue, w, d) ensures Settled(next, rest, w, d) {
      if w !in popped && Entry(w, d) != queue[0] { assert Entry(w, d) in queue[1..]; }
    }
    forall w | !Cut(depth, k) && w in Next(g, c) ensures Settled(next, rest, w, k + 1) {
      if w in popped {
        assert queue[0] in queue;
      } else if w != c {
        assert Entry(w, k + 1) in pushed;
      }
    }
  }

  lemma InvExpand(g: Digraph<Node>, start: Node, depth: Option<int>, popped: map<Node, nat>, queue: seq<Entry>,
                  pushed: seq<Entry>)
    requires Inv(g, start, depth, popped, queue)
    requires queue != [] && queue[0].node !in popped && Pushes(g, depth, popped, queue[0], pushed)
    ensures Inv(g, start, depth, popped[queue[0].node := queue[0].depth], queue[1..] + pushed)
  {
    SoundExpand(g, start, depth, popped, queue, pushed);
    MonotoneExpand(g, depth, popped, queue, pushed);
    CompleteExpand(g, start, depth, popped, queue, pushed);
  }

  /**
   * At any time, a walk of k allowed steps ends in a node popped at depth k or sooner, or something that shallow is
   * queued.
   */
  lemma {:induction false} WalkIsPoppedOrWaits(g: Digraph<Node>, start: Node, depth: Option<int>,
                                               popped: map<Node, nat>, queue: seq<Entry>, v: Node, k: nat)
    requires Inv(g, start, depth, popped, queue)
    requires ReachesIn(g, start, v, k) && Allowed(depth, k)
    ensures (v in popped && popped[v] <= k) || exists e :: e in queue && e.depth <= k
    decreases k
  {
    if k == 0 {
      ZeroSteps(g, start, v);
      assert Settled(popped, queue, start, 0);
    } else {
      LastStep(g, start, v, k - 1);
      var u :| ReachesIn(g, start, u, k - 1) && v in Next(g, u);
      WalkIsPoppedOrWaits(g, start, depth, popped, queue, u, k - 1);
      if u in popped && popped[u] <= k - 1 {
        assert Settled(popped, queue, v, popped[u] + 1);
      }
    }
  }

  /** With nothing queued, the end of such a walk has been popped. */
  lemma WalkIsPopped(g: Digraph<Node>, start: Node, depth: Option<int>, popped: map<Node, nat>, v: Node, k: nat)
    requires Inv(g, start, depth, popped, [])
    requires ReachesIn(g, start, v, k) && Allowed(depth, k)
    ensures v in popped && popped[v] <= k
  {
    WalkIsPoppedOrWaits(g, start, depth, popped, [], v, k);
  }

  /** At any time, also when the limit stops the search, popped depths are shortest distances. */
  lemma PoppedIsShortest(g: Digraph<Node>, start: Node, depth: Option<int>, popped: map<Node, nat>, queue: seq<Entry>,
                         v: Node)
    requires Inv(g, start, depth, popped, queue)
    requires v in popped
    ensures ReachesIn(g, start, v, popped[v])
    ensures forall k: nat :: ReachesIn(g, start, v, k) ==> popped[v] <= k
  {
    forall k: nat | ReachesIn(g, start, v, k) ensures popped[v] <= k {
      if Allowed(depth, k) { WalkIsPoppedOrWaits(g, start, depth, popped, queue, v, k); }
    }
  }

  lemma BallByLength(g: Digraph<Node>, start: Node, v: Node, depth: Option<int>)
    ensures v in Ball(g, start, depth) <==> exists k: nat :: Allowed(depth, k) && ReachesIn(g, start, v, k)
  {
    BallIsAll(g, start, v, depth);
    if depth.None? {
      if Reaches(g, start, v) {
        var p :| WalkFromTo(g, p, start, v);
        assert ReachesIn(g, start, v, |p| - 1);
      }
      if k: nat :| ReachesIn(g, start, v, k) {
        var p :| WalkFromTo(g, p, start, v);
      }
    }
  }

  lemma PoppedInBall(g: Digraph<Node>, start: Node, depth: Option<int>, popped: map<Node, nat>, queue: seq<Entry>)
    requires Inv(g, start, depth, popped, queue)
    ensures popped.Keys <= Ball(g, start, depth)
    ensures queue == [] ==> popped.Keys == Ball(g, start, depth)
  {
    forall v | v in popped ensures v in Ball(g, start, depth) { BallByLength(g, start, v, depth); }
    if queue == [] {
      forall v | v in Ball(g, start, depth) ensures v in popped {
        BallByLength(g, start, v, depth);
        var k: nat :| Allowed(depth, k) && ReachesIn(g, start, v, k);
        WalkIsPopped(g, start, depth, popped, v, k);
      }
    }
  }

  /** The innermost loop: queue the unmarked neighbours of one record list. */
  method QueueRecords(records: seq<Node>, k: nat, visited: set<Node>, queue0: seq<Entry>) returns (queue: seq<Entry>)
    ensures queue == queue0 + Pushed(records, visited, k)
  {
    queue := queue0;
    for r := 0 to |records|
      invariant queue == queue0 + Pushed(records[..r], visited, k)
    {
      var neighbor := records[r];
      assert records[..r + 1][..r] == records[..r];
      if neighbor !in visited {
        queue := queue + [Entry(neighbor, k + 1)];
      }
    }
    assert records[..|records|] == records;
  }

  lemma RowsSnoc(graph: TypedGraph, current: Node, edgeTypes: seq<string>, t: nat, visited: set<Node>, k: nat)
    requires t < |edgeTypes|
    ensures Pushed(graph.Rows(current, edgeTypes[..t + 1]), visited, k) ==
            Pushed(graph.Rows(current, edgeTypes[..t]), visited, k) +
            Pushed(graph.Records(current, edgeTypes[t]), visited, k)
  {
    assert edgeTypes[..t + 1][..t] == edgeTypes[..t];
    PushedConcat(graph.Rows(current, edgeTypes[..t]), graph.Records(current, edgeTypes[t]), visited, k);
  }

  /** The edge-type loop around it. */
  method QueueNeighbors(graph: TypedGraph, current: Node, k: nat, edgeTypes: seq<string>, visited: set<Node>,
                        queue0: seq<Entry>)
      returns (queue: seq<Entry>)
    ensures queue == queue0 + Pushed(graph.Rows(current, edgeTypes), visited, k)
  {
    queue := queue0;
    for t := 0 to |edgeTypes|
      invariant queue == queue0 + Pushed(graph.Rows(current, edgeTypes[..t]), visited, k)
    {
      RowsSnoc(graph, current, edgeTypes, t, visited, k);
      queue := QueueRecords(graph.Records(current, edgeTypes[t]), k, visited, queue);
    }
    assert edgeTypes[..|edgeTypes|] == edgeTypes;
  }

  /** g has an edge for every typed record and no other. */
  ghost predicate Represents(g: Digraph<Node>, graph: TypedGraph, edgeTypes: seq<string>) {
    forall v :: Next(g, v) == Elements(graph.Rows(v, edgeTypes))
  }

  /** What the loop knows before each test of its guard. */
  ghost predicate LoopInv(g: Digraph<Node>, start: Node, depth: Option<int>, visited: set<Node>,
                          popped: map<Node, nat>, queue: seq<Entry>)
  {
    visited == popped.Keys && Inv(g, start, depth, popped, queue)
  }

  /** The entries appended when `head` is popped for the first time. */
  function Appended(graph: TypedGraph, edgeTypes: seq<string>, depth: Option<int>, visited: set<Node>,
                    head: Entry): seq<Entry>
  {
    if Cut(depth, head.depth) then []
    else Pushed(graph.Rows(head.node, edgeTypes), visited + {head.node}, head.depth)
  }

  lemma AppendedPushes(g: Digraph<Node>, graph: TypedGraph, edgeTypes: seq<string>, depth: Option<int>,
                       popped: map<Node, nat>, head: Entry)
    requires Represents(g, graph, edgeTypes)
    ensures Pushes(g, depth, popped, head, Appended(graph, edgeTypes, depth, popped.Keys, head))
  {
    PushedEntries(graph.Rows(head.node, edgeTypes), popped.Keys + {head.node}, head.depth);
    assert Next(g, head.node) == Elements(graph.Rows(head.node, edgeTypes));
  }

  /** How many nodes of the ball the search has yet to mark. */
  ghost function Unmarked(g: Digraph<Node>, start: Node, depth: Option<int>, visited: set<Node>): nat {
    |Ball(g, start, depth) - visited|
  }

  lemma HeadInBall(g: Digraph<Node>, start: Node, depth: Option<int>, popped: map<Node, nat>, queue: seq<Entry>)
    requires Sound(g, start, depth, popped, queue) && queue != []
    ensures queue[0].node in Ball(g, start, depth)
  {
    assert queue[0] in queue;
    BallByLength(g, start, queue[0].node, depth);
  }

  lemma MarkingShrinks(ball: set<Node>, visited0: set<Node>, visited: set<Node>, c: Node)
    requires visited == visited0 + {c} && c in ball && c !in visited0
    ensures |visited| == |visited0| + 1 && |ball - visited| < |ball - visited0|
  {
    assert ball - visited0 == (ball - visited) + {c};
  }

  lemma ExpandStep(g: Digraph<Node>, graph: TypedGraph, edgeTypes: seq<string>, start: Node, depth: Option<int>,
                   visited: set<Node>, popped: map<Node, nat>, queue: seq<Entry>)
    requires Represents(g, graph, edgeTypes)
    requires LoopInv(g, start, depth, visited, popped, queue) && queue != [] && queue[0].node !in visited
    ensures LoopInv(g, start, depth, visited + {queue[0].node}, popped[queue[0].node := queue[0].depth],
                    queue[1..] + Appended(graph, edgeTypes, depth, visited, queue[0]))
  {
    AppendedPushes(g, graph, edgeTypes, depth, popped, queue[0]);
    InvExpand(g, start, depth, popped, queue, Appended(graph, edgeTypes, depth, visited, queue[0]));
  }

  /** One turn of the loop: pop an entry, skip it if its node is marked, else mark the node and expand it. */
  method PopEntry(graph: TypedGraph, edgeTypes: seq<string>, ghost g: Digraph<Node>, start: Node, depth: Option<int>,
                  visited0: set<Node>, ghost popped0: map<Node, nat>, queue0: seq<Entry>)
      returns (visited: set<Node>, ghost popped: map<Node, nat>, queue: seq<Entry>)
    requires Represents(g, graph, edgeTypes)
    requires LoopInv(g, start, depth, visited0, popped0, queue0) && queue0 != []
    ensures LoopInv(g, start, depth, visited, popped, queue)
    ensures if queue0[0].node in visited0 then visited == visited0 && |queue| < |queue0|
            else |visited| == |visited0| + 1 &&
                 Unmarked(g, start, depth, visited) < Unmarked(g, start, depth, visited0)
  {
    visited, popped, queue := visited0, popped0, queue0[1..];
    var Entry(current, k) := queue0[0];
    if current in visited {
      InvSkip(g, start, depth, popped0, queue0);
      return;
    }
    ExpandStep(g, graph, edgeTypes, start, depth, visited0, popped0, queue0);
    HeadInBall(g, start, depth, popped0, queue0);
    visited, popped := visited + {current}, popped[current := k];
    MarkingShrinks(Ball(g, start, depth), visited0, visited, current);
    if depth.Some? && k >= depth.value {
      assert queue + [] == queue;
      return;
    }
    queue := QueueNeighbors(graph, current, k, edgeTypes, visited, queue);
  }

  /** The search answers how many other nodes lie within `depth`, clipped to `limit`. */
  method GestaltdbBfs(graph: TypedGraph, start: Node, depth: Option<int>, limit: int, edgeTypes: seq<string>)
      returns (count: int)
    ensures forall v, w :: w in Next(graph.Digraph(edgeTypes), v) <==>
              exists t :: t in edgeTypes && (v, t) in graph.adjacency && w in graph.adjacency[(v, t)]
    ensures count == Min(|Ball(graph.Digraph(edgeTypes), start, depth)| - 1, limit)
  {
    forall v, w ensures w in Next(graph.Digraph(edgeTypes), v) <==>
                        exists t :: t in edgeTypes && (v, t) in graph.adjacency && w in graph.adjacency[(v, t)]
    {
      graph.DigraphIsAdjacency(v, w, edgeTypes);
    }
    ghost var g := graph.Digraph(edgeTypes);
    forall v ensures Next(g, v) == Elements(graph.Rows(v, edgeTypes)) { graph.DigraphNext(v, edgeTypes); }
    count := Search(graph, g, start, depth, limit, edgeTypes);
  }

  method Search(graph: TypedGraph, ghost g: Digraph<Node>, start: Node, depth: Option<int>, limit: int,
                edgeTypes: seq<string>)
      returns (count: int)
    requires Represents(g, graph, edgeTypes)
    ensures count == Min(|Ball(g, start, depth)| - 1, limit)
  {
    ghost var popped: map<Node, nat> := map[];
    var visited: set<Node> := {};
    var queue: seq<Entry> := [Entry(start, 0)];
    InvInitially(g, start, depth);
    while queue != [] && |visited| <= limit
      invariant LoopInv(g, start, depth, visited, popped, queue)
      invariant |visited| <= Max(limit, -1) + 1
      decreases Unmarked(g, start, depth, visited), |queue|
    {
      visited, popped, queue := PopEntry(graph, edgeTypes, g, start, depth, visited, popped, queue);
    }
    PoppedInBall(g, start, depth, popped, queue);
    SubsetCard(visited, Ball(g, start, depth));
    count := Min(Max(0, |visited| - 1), limit);
  }

  lemma InvInitially(g: Digraph<Node>, start: Node, depth: Option<int>)
    ensures Inv(g, start, depth, map[], [Entry(start, 0)])
    ensures |Ball(g, start, depth)| >= 1
  {
    ReachesSelf(g, start);
    BallByLength(g, start, start, depth);
    SubsetCard({start}, Ball(g, start, depth));
  }
}
