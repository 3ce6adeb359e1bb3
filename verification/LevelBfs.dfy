/**
 The level-synchronous searches of benchmarks/external.py: one query per frontier node,
 or one DISTINCT query per level. The start is not marked, and `limit` is only tested
 between levels.
 */
module LevelBfs {
  import opened Common
  import opened Graphs
  import opened BoundedBfs

  ghost predicate ReachedBetween(g: Digraph<Node>, s: Node, v: Node, c: nat) {
    exists k: nat :: 1 <= k <= c && ReachesIn(g, s, v, k)
  }

  /** The nodes reached by walks of 1 to c steps. */
  ghost function Levels(g: Digraph<Node>, s: Node, c: nat): set<Node> {
    set v | v in Vertices(g) && ReachedBetween(g, s, v, c)
  }

  /** The nodes first reached at level c. */
  ghost function Frontier(g: Digraph<Node>, s: Node, c: nat): set<Node> {
    if c == 0 then {s} else Levels(g, s, c) - Levels(g, s, c - 1)
  }

  /** The first level, no later than `deepest`, at which the limit is met; otherwise `deepest`. */
  ghost function StopLevel(g: Digraph<Node>, s: Node, c: nat, deepest: nat, limit: int): nat
    decreases deepest - c
  {
    if c >= deepest || |Levels(g, s, c)| >= limit then c else StopLevel(g, s, c + 1, deepest, limit)
  }

  /** Level c is the first that meets the limit or the depth, whichever comes first. */
  ghost predicate Stops(g: Digraph<Node>, s: Node, c: nat, depth: int, limit: int) {
    && c <= Max(depth, 0)
    && (c < depth ==> |Levels(g, s, c)| >= limit)
    && forall b: nat :: b < c ==> |Levels(g, s, b)| < limit
  }

  lemma {:induction false} StopLevelIsFirst(g: Digraph<Node>, s: Node, c: nat, deepest: nat, limit: int)
    requires c <= deepest && forall b: nat :: b < c ==> |Levels(g, s, b)| < limit
    ensures var stop := StopLevel(g, s, c, deepest, limit);
            && stop <= deepest && (stop < deepest ==> |Levels(g, s, stop)| >= limit)
            && forall b: nat :: b < stop ==> |Levels(g, s, b)| < limit
    decreases deepest - c
  {
    if c < deepest && |Levels(g, s, c)| < limit { StopLevelIsFirst(g, s, c + 1, deepest, limit); }
  }

  /** What either search answers. */
  ghost function LevelCount(g: Digraph<Node>, s: Node, depth: int, limit: int): nat {
    |Levels(g, s, StopLevel(g, s, 0, Max(depth, 0), limit))|
  }

  lemma InLevels(g: Digraph<Node>, s: Node, v: Node, c: nat)
    ensures v in Levels(g, s, c) <==> ReachedBetween(g, s, v, c)
  {
    if ReachedBetween(g, s, v, c) {
      var k: nat :| 1 <= k <= c && ReachesIn(g, s, v, k);
      LastStep(g, s, v, k - 1);
      var u :| ReachesIn(g, s, u, k - 1) && v in Next(g, u);
      NextInVertices(g, u);
    }
  }

  lemma NoLevels(g: Digraph<Node>, s: Node)
    ensures Levels(g, s, 0) == {}
  {
  }

  lemma LevelsGrow(g: Digraph<Node>, s: Node, b: nat, c: nat)
    requires b <= c
    ensures Levels(g, s, b) <= Levels(g, s, c)
  {
    forall v | v in Levels(g, s, b) ensures v in Levels(g, s, c) {
      InLevels(g, s, v, b);
      InLevels(g, s, v, c);
    }
  }

  /** A node is first reached at level c only by a walk of exactly c steps. */
  lemma FrontierSteps(g: Digraph<Node>, s: Node, u: Node, c: nat)
    ensures u in Frontier(g, s, c) ==> ReachesIn(g, s, u, c)
    ensures ReachesIn(g, s, u, c) && u !in Frontier(g, s, c) ==> c > 0 && u in Levels(g, s, c - 1)
  {
    if c == 0 {
      ZeroSteps(g, s, u);
    } else {
      InLevels(g, s, u, c);
      InLevels(g, s, u, c - 1);
    }
  }

  /** One level: the next set adds exactly the successors of the frontier. */
  lemma NextLevel(g: Digraph<Node>, s: Node, v: Node, c: nat)
    ensures v in Levels(g, s, c + 1) <==> v in Levels(g, s, c) || exists u :: u in Frontier(g, s, c) && v in Next(g, u)
  {
    InLevels(g, s, v, c);
    InLevels(g, s, v, c + 1);
    LastStep(g, s, v, c);
    if u :| u in Frontier(g, s, c) && v in Next(g, u) { FrontierSteps(g, s, u, c); }
    if ReachesIn(g, s, v, c + 1) && v !in Levels(g, s, c) {
      var u :| ReachesIn(g, s, u, c) && v in Next(g, u);
      FrontierSteps(g, s, u, c);
      if u !in Frontier(g, s, c) {
        InLevels(g, s, u, c - 1);
        var k: nat :| 1 <= k <= c - 1 && ReachesIn(g, s, u, k);
        LastStep(g, s, v, k);
        assert false;
      }
    }
  }

  /** Once a frontier is empty the set never grows again. */
  lemma {:induction false} ExhaustedStays(g: Digraph<Node>, s: Node, c: nat, d: nat)
    requires c <= d && Frontier(g, s, c) == {}
    ensures Levels(g, s, d) == Levels(g, s, c) && Frontier(g, s, d) == {}
    decreases d - c
  {
    if c < d {
      forall v ensures v in Levels(g, s, c + 1) <==> v in Levels(g, s, c) { NextLevel(g, s, v, c); }
      ExhaustedStays(g, s, c + 1, d);
    }
  }

  lemma {:induction false} StopsAtDeepest(g: Digraph<Node>, s: Node, c: nat, deepest: nat, limit: int)
    requires c <= deepest
    requires forall b: nat :: c <= b < deepest ==> |Levels(g, s, b)| < limit
    ensures StopLevel(g, s, c, deepest, limit) == deepest
    decreases deepest - c
  {
    if c < deepest { StopsAtDeepest(g, s, c + 1, deepest, limit); }
  }

  /** The state of either loop at level c: what is marked, what is next, and that no earlier level stopped it. */
  ghost predicate AtLevel(g: Digraph<Node>, s: Node, depth: int, limit: int, c: nat, visited: set<Node>,
                          frontier: seq<Node>)
  {
    && c <= Max(depth, 0)
    && visited == Levels(g, s, c)
    && Elements(frontier) == Frontier(g, s, c)
    && StopLevel(g, s, 0, Max(depth, 0), limit) == StopLevel(g, s, c, Max(depth, 0), limit)
  }

  lemma StartLevel(g: Digraph<Node>, s: Node, depth: int, limit: int)
    ensures AtLevel(g, s, depth, limit, 0, {}, [s])
  {
    NoLevels(g, s);
  }

  /** Leaving the loop for any of its three reasons gives the closed-form answer. */
  lemma Stopped(g: Digraph<Node>, s: Node, depth: int, limit: int, c: nat, visited: set<Node>, frontier: seq<Node>)
    requires AtLevel(g, s, depth, limit, c, visited, frontier)
    requires frontier == [] || c >= depth || |visited| >= limit
    ensures |visited| == LevelCount(g, s, depth, limit)
  {
    var deepest := Max(depth, 0);
    if c < deepest && |visited| < limit {
      forall b: nat | c <= b <= deepest ensures Levels(g, s, b) == visited { ExhaustedStays(g, s, c, b); }
      StopsAtDeepest(g, s, c, deepest, limit);
    }
  }

  lemma Advanced(g: Digraph<Node>, s: Node, depth: int, limit: int, c: nat, visited: set<Node>, frontier: seq<Node>,
                 added: seq<Node>)
    requires AtLevel(g, s, depth, limit, c, visited, frontier) && c < depth && |visited| < limit
    requires forall v :: v in added <==> v !in visited && exists u :: u in frontier && v in Next(g, u)
    ensures AtLevel(g, s, depth, limit, c + 1, visited + Elements(added), added)
  {
    forall v ensures v in Levels(g, s, c + 1) <==> v in visited + Elements(added) {
      NextLevel(g, s, v, c);
      if v in added {
        var u :| u in frontier && v in Next(g, u);
        assert u in Elements(frontier);
      }
      if u :| u in Frontier(g, s, c) && v in Next(g, u) { assert u in Elements(frontier); }
    }
  }

  /** The two inner loops of the per-node search: mark and queue each target not yet marked. */
  method ScanFrontier(graph: TypedGraph, edgeTypes: seq<string>, ghost g: Digraph<Node>, frontier: seq<Node>,
                      visited0: set<Node>)
      returns (visited: set<Node>, next: seq<Node>)
    requires Represents(g, graph, edgeTypes)
    ensures visited == visited0 + Elements(next)
    ensures forall v :: v in next <==> v !in visited0 && exists u :: u in frontier && v in Next(g, u)
  {
    visited, next := visited0, [];
    for i := 0 to |frontier|
      invariant visited == visited0 + Elements(next)
      invariant forall v :: v in next <==> v !in visited0 && exists u :: u in frontier[..i] && v in Next(g, u)
    {
      ghost var seen := next;
      var rows := graph.Rows(frontier[i], edgeTypes);
      assert Next(g, frontier[i]) == Elements(rows);
      for r := 0 to |rows|
        invariant visited == visited0 + Elements(next)
        invariant forall v :: v in next <==> v in seen || (v !in visited0 && v in rows[..r])
      {
        var target := rows[r];
        if target !in visited {
          visited := visited + {target};
          next := next + [target];
        }
        assert rows[..r + 1] == rows[..r] + [target];
      }
      assert rows[..|rows|] == rows;
      assert frontier[..i + 1] == frontier[..i] + [frontier[i]];
      assert forall u :: u in frontier[..i + 1] <==> u in frontier[..i] || u == frontier[i];
    }
    assert frontier[..|frontier|] == frontier;
  }

  method TypedBfsCypher(graph: TypedGraph, start: Node, depth: int, limit: int, edgeTypes: seq<string>)
    returns (count: nat)
    ensures forall v, w :: w in Next(graph.Digraph(edgeTypes), v) <==>
              exists t :: t in edgeTypes && (v, t) in graph.adjacency && w in graph.adjacency[(v, t)]
    ensures exists c: nat :: Stops(graph.Digraph(edgeTypes), start, c, depth, limit)
                             && count == |Levels(graph.Digraph(edgeTypes), start, c)|
    ensures count == LevelCount(graph.Digraph(edgeTypes), start, depth, limit)
  {
    forall v, w ensures w in Next(graph.Digraph(edgeTypes), v) <==>
                        exists t :: t in edgeTypes && (v, t) in graph.adjacency && w in graph.adjacency[(v, t)]
    {
      graph.DigraphIsAdjacency(v, w, edgeTypes);
    }
    StopLevelIsFirst(graph.Digraph(edgeTypes), start, 0, Max(depth, 0), limit);
    ghost var g := graph.Digraph(edgeTypes);
    forall v ensures Next(g, v) == Elements(graph.Rows(v, edgeTypes)) { graph.DigraphNext(v, edgeTypes); }
    count := PerNodeLevels(graph, edgeTypes, g, start, depth, limit);
  }

  method PerNodeLevels(graph: TypedGraph, edgeTypes: seq<string>, ghost g: Digraph<Node>, start: Node, depth: int,
                       limit: int)
    returns (count: nat)
    requires Represents(g, graph, edgeTypes)
    ensures count == LevelCount(g, start, depth, limit)
  {
    var visited: set<Node>, frontier, curDepth := {}, [start], 0;
    StartLevel(g, start, depth, limit);
    while frontier != [] && curDepth < depth && |visited| < limit
      invariant AtLevel(g, start, depth, limit, curDepth, visited, frontier)
      decreases depth - curDepth
    {
      var marked, next := ScanFrontier(graph, edgeTypes, g, frontier, visited);
      Advanced(g, start, depth, limit, curDepth, visited, frontier, next);
      visited, frontier, curDepth := marked, next, curDepth + 1;
    }
    Stopped(g, start, depth, limit, curDepth, visited, frontier);
    count := |visited|;
  }

  /** A DISTINCT query over the whole frontier: each target once, in whatever order the engine picks. */
  method DistinctTargets(graph: TypedGraph, edgeTypes: seq<string>, ghost g: Digraph<Node>, frontier: seq<Node>)
    returns (rows: seq<Node>)
    requires Represents(g, graph, edgeTypes)
    ensures Distinct(rows)
    ensures forall v :: v in rows <==> exists u :: u in frontier && v in Next(g, u)
  {
    var rest := set u, v | u in frontier && v in graph.Rows(u, edgeTypes) :: v;
    ghost var all := rest;
    forall v ensures v in all <==> exists u :: u in frontier && v in Next(g, u) {
      if v in all {
        var u :| u in frontier && v in graph.Rows(u, edgeTypes);
        assert v in Next(g, u);
      }
    }
    rows := [];
    while rest != {}
      invariant Distinct(rows) && Elements(rows) !! rest && Elements(rows) + rest == all
      decreases rest
    {
      var target :| target in rest;
      rows, rest := rows + [target], rest - {target};
    }
    forall v ensures v in rows <==> v in all { assert v in rows <==> v in Elements(rows); }
  }

  method TypedBfsCypherBatched(graph: TypedGraph, start: Node, depth: int, limit: int, edgeTypes: seq<string>)
    returns (count: nat)
    ensures forall v, w :: w in Next(graph.Digraph(edgeTypes), v) <==>
              exists t :: t in edgeTypes && (v, t) in graph.adjacency && w in graph.adjacency[(v, t)]
    ensures exists c: nat :: Stops(graph.Digraph(edgeTypes), start, c, depth, limit)
                             && count == |Levels(graph.Digraph(edgeTypes), start, c)|
    ensures count == LevelCount(graph.Digraph(edgeTypes), start, depth, limit)
  {
    forall v, w ensures w in Next(graph.Digraph(edgeTypes), v) <==>
                        exists t :: t in edgeTypes && (v, t) in graph.adjacency && w in graph.adjacency[(v, t)]
    {
      graph.DigraphIsAdjacency(v, w, edgeTypes);
    }
    StopLevelIsFirst(graph.Digraph(edgeTypes), start, 0, Max(depth, 0), limit);
    ghost var g := graph.Digraph(edgeTypes);
    forall v ensures Next(g, v) == Elements(graph.Rows(v, edgeTypes)) { graph.DigraphNext(v, edgeTypes); }
    count := BatchedLevels(graph, edgeTypes, g, start, depth, limit);
  }

  method BatchedLevels(graph: TypedGraph, edgeTypes: seq<string>, ghost g: Digraph<Node>, start: Node, depth: int,
                       limit: int)
    returns (count: nat)
    requires Represents(g, graph, edgeTypes)
    ensures count == LevelCount(g, start, depth, limit)
  {
    var visited: set<Node>, frontier, curDepth := {}, [start], 0;
    StartLevel(g, start, depth, limit);
    while frontier != [] && curDepth < depth && |visited| < limit
      invariant AtLevel(g, start, depth, limit, curDepth, visited, frontier)
      decreases depth - curDepth
    {
      var rows := DistinctTargets(graph, edgeTypes, g, frontier);
      var next := StillUnmarked(rows, visited);
      Advanced(g, start, depth, limit, curDepth, visited, frontier, next);
      visited, frontier, curDepth := visited + Elements(next), next, curDepth + 1;
    }
    Stopped(g, start, depth, limit, curDepth, visited, frontier);
    count := |visited|;
  }

  /** The list comprehension that drops targets already marked. */
  function StillUnmarked(rows: seq<Node>, visited: set<Node>): (next: seq<Node>)
    ensures forall v :: v in next <==> v in rows && v !in visited
  {
    if rows == [] then [] else (if rows[0] in visited then [] else [rows[0]]) + StillUnmarked(rows[1..], visited)
  }

  /** The queue form marks the start as well, and otherwise exactly the same nodes. */
  lemma QueueMarksStartToo(g: Digraph<Node>, s: Node, depth: int)
    ensures Ball(g, s, Some(depth)) == Levels(g, s, Max(depth, 0)) + {s}
  {
    var d := Max(depth, 0);
    forall v ensures v in Ball(g, s, Some(depth)) <==> v in Levels(g, s, d) + {s} {
      BallByLength(g, s, v, Some(depth));
      InLevels(g, s, v, d);
      ZeroSteps(g, s, v);
    }
  }

  /** While no level exceeds the limit, stopping early or late gives a set of the same size. */
  lemma {:induction false} StopsAtFullSize(g: Digraph<Node>, s: Node, c: nat, deepest: nat, limit: int)
    requires c <= deepest && |Levels(g, s, deepest)| <= limit
    ensures |Levels(g, s, StopLevel(g, s, c, deepest, limit))| == |Levels(g, s, deepest)|
    decreases deepest - c
  {
    LevelsGrow(g, s, c, deepest);
    SubsetCard(Levels(g, s, c), Levels(g, s, deepest));
    if c < deepest && |Levels(g, s, c)| < limit { StopsAtFullSize(g, s, c + 1, deepest, limit); }
  }

  /** Unless the limit is exceeded, the two answers differ by one exactly when the start lies on a short cycle. */
  lemma LevelVersusQueue(g: Digraph<Node>, s: Node, depth: int, limit: int)
    requires |Levels(g, s, Max(depth, 0))| <= limit
    ensures LevelCount(g, s, depth, limit) ==
            Min(|Ball(g, s, Some(depth))| - 1, limit) + (if ReachedBetween(g, s, s, Max(depth, 0)) then 1 else 0)
  {
    var d := Max(depth, 0);
    StopsAtFullSize(g, s, 0, d, limit);
    QueueMarksStartToo(g, s, depth);
    InLevels(g, s, s, d);
    if s in Levels(g, s, d) { assert Levels(g, s, d) + {s} == Levels(g, s, d); }
  }

  lemma {:induction false} StopsFull(g: Digraph<Node>, s: Node, c: nat, deepest: nat, limit: int)
    requires c <= deepest && |Levels(g, s, deepest)| > limit
    ensures |Levels(g, s, StopLevel(g, s, c, deepest, limit))| >= limit
    decreases deepest - c
  {
    if c < deepest && |Levels(g, s, c)| < limit { StopsFull(g, s, c + 1, deepest, limit); }
  }

  /** When it is, the queue form answers the limit, and the level-synchronous forms at least that. */
  lemma BothReachLimit(g: Digraph<Node>, s: Node, depth: int, limit: int)
    requires |Levels(g, s, Max(depth, 0))| > limit
    ensures Min(|Ball(g, s, Some(depth))| - 1, limit) == limit <= LevelCount(g, s, depth, limit)
  {
    var d := Max(depth, 0);
    StopsFull(g, s, 0, d, limit);
    QueueMarksStartToo(g, s, depth);
    SubsetCard(Levels(g, s, d), Levels(g, s, d) + {s});
  }
}
