/** `all_pairs_shortest_path`: in-place Floyd-Warshall over the `dist` and `next` tables. */
module Apsp {
  import opened Wrappers
  import opened Ast
  import opened Graph
  import opened Layers
  import opened Routing

  datatype ApspResult = ApspResult(dist: Table<Dist>, next: Table<int>)

  /** `std::map::at` on a missing key. */
  datatype ApspError = OutOfRange(key: int)

  ghost predicate Square<T>(t: Table<T>, keys: set<int>) {
    forall i, j :: (i, j) in t <==> i in keys && j in keys
  }

  /** The adjacency lists of the nodes in `done` are entered, and those of the others are not. */
  ghost predicate EdgesEntered(nodes: Nodes, metric: Metric, r: ApspResult, done: set<int>) {
    && Square(r.dist, nodes.Keys) && Square(r.next, nodes.Keys)
    && forall a, b | a in nodes && b in nodes ::
         && r.dist[(a, b)] == (if a in done then EdgeLength(nodes, metric, a, b) else Inf)
         && r.next[(a, b)] == (if a in done && b in nodes[a].adjlist then b else -1)
  }

  /** The diagonal is overwritten for the nodes in `done`. */
  ghost predicate DiagonalCleared(nodes: Nodes, metric: Metric, r: ApspResult, done: set<int>) {
    && Square(r.dist, nodes.Keys) && Square(r.next, nodes.Keys)
    && forall a, b | a in nodes && b in nodes ::
         && r.dist[(a, b)] == (if a == b && a in done then Fin(0.0) else EdgeLength(nodes, metric, a, b))
         && r.next[(a, b)] == (if a == b && a in done then a else if b in nodes[a].adjlist then b else -1)
  }

  method EnterAdjacency(nodes: Nodes, metric: Metric, from: Waypoint, r0: ApspResult, ghost done: set<int>)
    returns (r: Result<ApspResult, ApspError>)
    requires from.id in nodes && nodes[from.id] == from && from.id !in done
    requires EdgesEntered(nodes, metric, r0, done)
    ensures r.Success? <==> forall c <- from.adjlist :: c in nodes
    ensures r.Success? ==> EdgesEntered(nodes, metric, r.value, done + {from.id})
  {
    var dist, next := r0.dist, r0.next;
    for e := 0 to |from.adjlist|
      invariant Square(dist, nodes.Keys) && Square(next, nodes.Keys)
      invariant forall c <- from.adjlist[..e] :: c in nodes
      invariant forall a, b | a in nodes && b in nodes && a != from.id ::
        dist[(a, b)] == r0.dist[(a, b)] && next[(a, b)] == r0.next[(a, b)]
      invariant forall b | b in nodes ::
        && dist[(from.id, b)] == (if b in from.adjlist[..e] then EdgeLength(nodes, metric, from.id, b) else Inf)
        && next[(from.id, b)] == (if b in from.adjlist[..e] then b else -1)
    {
      var adjId := from.adjlist[e];
      if adjId !in nodes {
        return Failure(OutOfRange(adjId));
      }
      dist := dist[(from.id, adjId) := Fin(metric(from.translation, nodes[adjId].translation))];
      next := next[(from.id, adjId) := adjId];
      assert from.adjlist[..e + 1] == from.adjlist[..e] + [adjId];
    }
    assert from.adjlist[..|from.adjlist|] == from.adjlist;
    return Success(ApspResult(dist, next));
  }

  /** DBL_MAX and -1 everywhere. */
  method EmptyTables(nodes: Nodes, metric: Metric) returns (r: ApspResult)
    ensures EdgesEntered(nodes, metric, r, {})
  {
    var dist: Table<Dist> := map row, col | row in nodes && col in nodes :: (row, col) := Inf;
    var next: Table<int> := map row, col | row in nodes && col in nodes :: (row, col) := -1;
    r := ApspResult(dist, next);
  }

  method EnterEdges(nodes: Nodes, metric: Metric) returns (r: Result<ApspResult, ApspError>)
    requires KeyedById(nodes)
    ensures r.Success? <==> Closed(nodes)
    ensures r.Success? ==> EdgesEntered(nodes, metric, r.value, nodes.Keys)
  {
    var empty := EmptyTables(nodes, metric);
    r := Success(empty);
    var todo := nodes.Keys;
    assert nodes.Keys - todo == {};
    while todo != {}
      invariant todo <= nodes.Keys
      invariant r.Success? && EdgesEntered(nodes, metric, r.value, nodes.Keys - todo)
      invariant forall a, c | a in nodes.Keys - todo && c in nodes[a].adjlist :: c in nodes
    {
      var id := AnyOf(todo);
      r := EnterAdjacency(nodes, metric, nodes[id], r.value, nodes.Keys - todo);
      if r.Failure? {
        return;
      }
      assert nodes.Keys - todo + {id} == nodes.Keys - (todo - {id});
      todo := todo - {id};
    }
    assert nodes.Keys - todo == nodes.Keys;
  }

  /** Every vertex is at distance 0 from itself. */
  method ClearDiagonal(nodes: Nodes, metric: Metric, r0: ApspResult) returns (r: ApspResult)
    requires EdgesEntered(nodes, metric, r0, nodes.Keys)
    ensures DiagonalCleared(nodes, metric, r, nodes.Keys)
  {
    r := r0;
    var todo := nodes.Keys;
    while todo != {}
      invariant todo <= nodes.Keys
      invariant DiagonalCleared(nodes, metric, r, nodes.Keys - todo)
    {
      var id := AnyOf(todo);
      r := ApspResult(r.dist[(id, id) := Fin(0.0)], r.next[(id, id) := id]);
      todo := todo - {id};
    }
    assert nodes.Keys - todo == nodes.Keys;
  }

  /** In round k, the entries before (i, j) in row-major order are done and the others are not. */
  ghost function Rounds(k: nat, i: nat, j: nat, a: nat, b: nat): nat {
    if a < i || (a == i && b < j) then k + 1 else k
  }

  ghost predicate InRound(g: Graph, r: ApspResult, k: nat, i: nat, j: nat) {
    forall a, b | 0 <= a < g.n && 0 <= b < g.n ::
      (a, b) in r.dist && (a, b) in r.next && Entry(g, r, Rounds(k, i, j, a, b), a, b)
  }

  ghost predicate Entry(g: Graph, r: ApspResult, k: nat, a: nat, b: nat)
    requires (a, b) in r.dist && (a, b) in r.next
  {
    r.dist[(a, b)] == Layer(g, k, a, b) && r.next[(a, b)] == NextHop(g, k, a, b)
  }

  /** The entries a relaxation of (i, j) reads are the same before and after round k. */
  lemma ReadsAreStable(g: Graph, r: ApspResult, k: nat, i: nat, j: nat)
    requires g.Valid() && k < g.n && i < g.n && j < g.n && InRound(g, r, k, i, j)
    ensures r.dist[(i, j)] == Layer(g, k, i, j) && r.next[(i, j)] == NextHop(g, k, i, j)
    ensures r.dist[(i, k)] == Layer(g, k, i, k) && r.next[(i, k)] == NextHop(g, k, i, k)
    ensures r.dist[(k, j)] == Layer(g, k, k, j)
    ensures Improves(g, k, i, j) <==> r.dist[(i, j)].Greater(r.dist[(i, k)].Plus(r.dist[(k, j)]))
  {
    RoundDoesNotMatter(g, k, Rounds(k, i, j, i, k), i);
    RoundDoesNotMatter(g, k, Rounds(k, i, j, k, j), j);
    assert Entry(g, r, Rounds(k, i, j, i, j), i, j);
    assert Entry(g, r, Rounds(k, i, j, i, k), i, k);
    assert Entry(g, r, Rounds(k, i, j, k, j), k, j);
  }

  lemma RoundDoesNotMatter(g: Graph, k: nat, l: nat, v: nat)
    requires g.Valid() && k <= l <= k + 1
    ensures Layer(g, l, v, k) == Layer(g, k, v, k) && NextHop(g, l, v, k) == NextHop(g, k, v, k)
    ensures Layer(g, l, k, v) == Layer(g, k, k, v)
  {
    RowAndColumnStable(g, k, v);
  }

  /** The body of the triple loop. */
  method Relax(ghost g: Graph, r0: ApspResult, k: nat, i: nat, j: nat) returns (r: ApspResult)
    requires g.Valid() && k < g.n && i < g.n && j < g.n
    requires InRound(g, r0, k, i, j)
    ensures InRound(g, r, k, i, j + 1)
    ensures r.dist.Keys == r0.dist.Keys
  {
    ReadsAreStable(g, r0, k, i, j);
    r := r0;
    var newDist := r.dist[(i, k)].Plus(r.dist[(k, j)]);
    if r.dist[(i, j)].Greater(newDist) {
      r := ApspResult(r.dist[(i, j) := newDist], r.next[(i, j) := r.next[(i, k)]]);
    }
    assert Entry(g, r, k + 1, i, j);
    forall a, b | 0 <= a < g.n && 0 <= b < g.n
      ensures (a, b) in r.dist && (a, b) in r.next
      ensures Entry(g, r, Rounds(k, i, j + 1, a, b), a, b)
    {
      assert Entry(g, r0, Rounds(k, i, j, a, b), a, b);
    }
  }

  lemma RowDone(g: Graph, r: ApspResult, k: nat, i: nat)
    requires InRound(g, r, k, i, g.n)
    ensures InRound(g, r, k, i + 1, 0)
  {
  }

  lemma RoundDone(g: Graph, r: ApspResult, k: nat)
    requires InRound(g, r, k, g.n, 0)
    ensures InRound(g, r, k + 1, 0, 0)
  {
  }

  /** Round 0 of the triple loop already looks up every id below the number of nodes. */
  method MissingId(nodes: Nodes) returns (missing: Option<int>)
    ensures missing.None? <==> Consecutive(nodes)
  {
    for i := 0 to |nodes|
      invariant forall a | 0 <= a < i :: a in nodes
    {
      if i !in nodes {
        return Some(i);
      }
    }
    return None;
  }

  method AllPairsShortestPath(nodes: Nodes, metric: Metric) returns (r: Result<ApspResult, ApspError>)
    requires KeyedById(nodes) && Nonnegative(metric)
    ensures r.Success? <==> Closed(nodes) && Consecutive(nodes)
    ensures r.Success? ==> var g := GraphOf(nodes, metric);
              && Square(r.value.dist, nodes.Keys) && HoldsNextHops(g, r.value.next)
              && (forall i, j | 0 <= i < g.n && 0 <= j < g.n ::
                    (i, j) in r.value.dist && IsShortest(g, i, j, r.value.dist[(i, j)]))
  {
    r := EnterEdges(nodes, metric);
    if r.Failure? {
      return;
    }
    var result := ClearDiagonal(nodes, metric, r.value);
    var numWaypoints := |nodes|;

    var missing := MissingId(nodes);
    if missing.Some? {
      return Failure(OutOfRange(missing.value));
    }
    ConsecutiveKeys(nodes);
    ghost var g := GraphOf(nodes, metric);
    FirstRound(nodes, metric, result);
    result := RelaxAll(g, result, numWaypoints);
    LastRound(g, result);
    r := Success(result);
  }

  lemma FirstRound(nodes: Nodes, metric: Metric, r: ApspResult)
    requires Nonnegative(metric) && Consecutive(nodes) && DiagonalCleared(nodes, metric, r, nodes.Keys)
    ensures InRound(GraphOf(nodes, metric), r, 0, 0, 0)
  {
    ConsecutiveKeys(nodes);
    var g := GraphOf(nodes, metric);
    forall a, b | 0 <= a < g.n && 0 <= b < g.n
      ensures (a, b) in r.dist && (a, b) in r.next && Entry(g, r, Rounds(0, 0, 0, a, b), a, b)
    {
      assert a in nodes && b in nodes;
    }
  }

  /** The triple loop. */
  method RelaxAll(ghost g: Graph, r0: ApspResult, numWaypoints: nat) returns (r: ApspResult)
    requires g.Valid() && numWaypoints == g.n && InRound(g, r0, 0, 0, 0)
    ensures InRound(g, r, g.n, 0, 0) && r.dist.Keys == r0.dist.Keys
  {
    r := r0;
    for k := 0 to numWaypoints
      invariant InRound(g, r, k, 0, 0) && r.dist.Keys == r0.dist.Keys
    {
      for i := 0 to numWaypoints
        invariant InRound(g, r, k, i, 0) && r.dist.Keys == r0.dist.Keys
      {
        for j := 0 to numWaypoints
          invariant InRound(g, r, k, i, j) && r.dist.Keys == r0.dist.Keys
        {
          r := Relax(g, r, k, i, j);
        }
        RowDone(g, r, k, i);
      }
      RoundDone(g, r, k);
    }
  }

  lemma LastRound(g: Graph, r: ApspResult)
    requires g.Valid() && InRound(g, r, g.n, 0, 0)
    ensures HoldsNextHops(g, r.next)
    ensures forall i, j | 0 <= i < g.n && 0 <= j < g.n ::
              (i, j) in r.dist && IsShortest(g, i, j, r.dist[(i, j)])
  {
    forall i, j | 0 <= i < g.n && 0 <= j < g.n
      ensures (i, j) in r.dist && IsShortest(g, i, j, r.dist[(i, j)])
      ensures (i, j) in r.next && r.next[(i, j)] == NextHop(g, g.n, i, j)
    {
      assert Entry(g, r, Rounds(g.n, 0, 0, i, j), i, j);
      LastLayerIsShortest(g, i, j);
    }
  }
}
