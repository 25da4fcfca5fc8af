/** The waypoint distance matrix of the translator, and the automata's routes as walks of the map. */
module DistanceMatrix {
  import opened Ast
  import opened ConfigMatrix
  import opened Graph
  import opened Samples
  import opened Wrappers
  import N = WaypointNetwork
  import R = WaypointRoute
  import S = WaypointSchedule

  /** The exceptions of `are_connected` and of `std::map::at`. */
  datatype MatrixError = MalformedWorldFile(id: int) | OutOfRange(id: int)

  /** -1 where there is no edge, the length of the edge elsewhere. */
  ghost predicate IsMatrixEntry(g: Graph, m: Matrix, i: nat, j: nat)
    requires i < |m| && j < |m[i]|
  {
    m[i][j] == if g.Edge(i, j) then g.edge(i, j) else Fin(-1.0)
  }

  ghost predicate IsMatrixOf(g: Graph, m: Matrix) {
    && |m| == g.n
    && (forall i | 0 <= i < g.n :: |m[i]| == g.n)
    && (forall i, j | 0 <= i < g.n && 0 <= j < g.n :: IsMatrixEntry(g, m, i, j))
  }

  /** The constructor `distance_matrix`. It fails exactly on maps whose ids are not 0..n-1; adjacency
      entries that name no waypoint, unlike in `all_pairs_shortest_path`, go unnoticed. */
  method Construct(nodes: Nodes, metric: Metric) returns (r: Result<Matrix, MatrixError>)
    requires Nonnegative(metric)
    ensures r.Success? <==> Consecutive(nodes)
    ensures r.Success? ==> IsMatrixOf(GraphOf(nodes, metric), r.value)
  {
    var n := |nodes|;
    var data: Matrix := [];
    for i := 0 to n
      invariant |data| == i && forall a | 0 <= a < i :: a in nodes
      invariant forall a | 0 <= a < i :: |data[a]| == n
      invariant forall a, b | 0 <= a < i && 0 <= b < n :: HasEntry(nodes, metric, data[a][b], a, b)
    {
      var row: seq<Dist> := [];
      for j := 0 to n
        invariant |row| == j && (j > 0 ==> i in nodes)
        invariant forall b | 0 <= b < j :: HasEntry(nodes, metric, row[b], i, b)
      {
        if i !in nodes {
          return Failure(MalformedWorldFile(i));
        }
        if j !in nodes[i].adjlist {
          row := row + [Fin(-1.0)];
        } else if j !in nodes {
          return Failure(OutOfRange(j));
        } else {
          row := row + [Fin(metric(nodes[i].translation, nodes[j].translation))];
        }
      }
      data := data + [row];
    }
    ghost var g := GraphOf(nodes, metric);
    forall i, j | 0 <= i < n && 0 <= j < n
      ensures IsMatrixEntry(g, data, i, j)
    {
      assert HasEntry(nodes, metric, data[i][j], i, j);
    }
    r := Success(data);
  }

  ghost predicate HasEntry(nodes: Nodes, metric: Metric, entry: Dist, i: nat, j: nat) {
    var length := EdgeLength(nodes, metric, i, j);
    entry == if length.Fin? then length else Fin(-1.0)
  }

  /** `get_waypoint_dist`; -1 reads as "no edge". */
  method GetWaypointDist(m: Matrix, from: int, to: int) returns (d: int)
    ensures d == ValueAt(m, from, to, -1)
  {
    d := LookUp(m, from, to, -1);
  }

  /** The automata read the matrix of the map. */
  ghost predicate Configured(cfg: N.Config, g: Graph, m: Matrix) {
    && cfg.Valid() && cfg.numWaypoints == g.n
    && IsMatrixOf(g, m)
    && forall i, j :: cfg.dist(i, j) == ValueAt(m, i, j, -1)
  }

  /** Every edge length is in the range of int. */
  ghost predicate ShortEdges(g: Graph) {
    forall i: nat, j: nat | g.Edge(i, j) :: g.edge(i, j).length <= 2147483647.0
  }

  lemma ReadableExactly(g: Graph, m: Matrix)
    requires g.Valid() && IsMatrixOf(g, m)
    ensures Readable(m) <==> ShortEdges(g)
  {
    if Readable(m) {
      forall i: nat, j: nat | g.Edge(i, j)
        ensures g.edge(i, j).length <= 2147483647.0
      {
        assert IsMatrixEntry(g, m, i, j) && ReadableRow(m[i]);
      }
    }
    if ShortEdges(g) {
      forall i, j | 0 <= i < |m| && 0 <= j < |m[i]|
        ensures InIntRange(m[i][j])
      {
        assert IsMatrixEntry(g, m, i, j);
      }
    }
  }

  lemma TruncationKeepsSign(x: real, v: int)
    requires (x >= 0.0 || x == -1.0) && IsTruncation(x, v)
    ensures v == -1 <==> x == -1.0
  {
  }

  /** Truncation to int never hides an edge or makes one up; but one edge too long for an int hides
      all of them. */
  lemma GuardReadsEdges(cfg: N.Config, g: Graph, m: Matrix, i: int, j: int)
    requires g.Valid() && Configured(cfg, g, m) && cfg.IsWaypoint(i)
    ensures cfg.dist(i, j) != -1 <==> ShortEdges(g) && cfg.IsWaypoint(j) && g.Edge(i, j)
  {
    ReadableExactly(g, m);
    if cfg.IsWaypoint(j) {
      assert IsMatrixEntry(g, m, i, j);
      if Readable(m) {
        assert ReadableRow(m[i]);
        TruncationKeepsSign(m[i][j].length, cfg.dist(i, j));
      }
    }
  }

  ghost predicate EndsFirstAt(w: seq<nat>, last: int) {
    |w| > 0 && w[|w| - 1] == last && forall i | 0 <= i < |w| - 1 :: w[i] != last
  }

  ghost predicate IsPath(cfg: N.Config, g: Graph, chosen: seq<int>, w: seq<nat>) {
    && w == [cfg.nextWaypoint] + chosen
    && IsWalk(g, w) && EndsFirstAt(w, cfg.destination)
  }

  ghost predicate IsCompleteRoute(cfg: N.Config, chosen: seq<int>) {
    R.IsRoute(cfg, chosen) && R.Origin(cfg, chosen, |chosen|) == cfg.destination
  }

  /** The choices that lead a robot from next_waypoint() to destination() are exactly the walks of the
      map that meet the destination only at their end, provided that the edge lengths fit an int. */
  lemma RoutesAreWalks(cfg: N.Config, g: Graph, m: Matrix, chosen: seq<int>)
    requires g.Valid() && Configured(cfg, g, m)
    ensures IsCompleteRoute(cfg, chosen) <==>
            (ShortEdges(g) || chosen == []) && exists w :: IsPath(cfg, g, chosen, w)
  {
    if IsCompleteRoute(cfg, chosen) {
      RouteToWalk(cfg, g, m, chosen);
      if chosen != [] {
        assert cfg.dist(R.Origin(cfg, chosen, 0), chosen[0]) != -1;
        GuardReadsEdges(cfg, g, m, cfg.nextWaypoint, chosen[0]);
      }
    }
    if ShortEdges(g) || chosen == [] {
      if w :| IsPath(cfg, g, chosen, w) {
        WalkToRoute(cfg, g, m, chosen, w);
      }
    }
  }

  lemma RouteToWalk(cfg: N.Config, g: Graph, m: Matrix, chosen: seq<int>)
    requires g.Valid() && Configured(cfg, g, m)
    requires IsCompleteRoute(cfg, chosen)
    ensures exists w :: IsPath(cfg, g, chosen, w)
  {
    var all := [cfg.nextWaypoint] + chosen;
    forall i | 0 <= i < |all|
      ensures all[i] >= 0
    {
      assert i > 0 ==> cfg.IsWaypoint(chosen[i - 1]);
    }
    VerticesAreWalk(cfg, g, m, chosen, all);
    assert IsPath(cfg, g, chosen, all);
  }

  lemma VerticesAreWalk(cfg: N.Config, g: Graph, m: Matrix, chosen: seq<int>, w: seq<nat>)
    requires g.Valid() && Configured(cfg, g, m) && R.IsRoute(cfg, chosen)
    requires w == [cfg.nextWaypoint] + chosen
    ensures IsWalk(g, w) && w[|w| - 1] == R.Origin(cfg, chosen, |chosen|)
    ensures forall i | 0 <= i < |w| - 1 :: w[i] != cfg.destination
  {
    forall i | 0 <= i < |w| - 1
      ensures w[i] != cfg.destination && g.Edge(w[i], w[i + 1])
    {
      StepIsEdge(cfg, g, m, chosen, w, i);
    }
    forall t | 0 <= t < |w|
      ensures w[t] < g.n
    {
      if t > 0 {
        StepIsEdge(cfg, g, m, chosen, w, t - 1);
      }
    }
  }

  lemma StepIsEdge(cfg: N.Config, g: Graph, m: Matrix, chosen: seq<int>, w: seq<nat>, i: nat)
    requires g.Valid() && Configured(cfg, g, m) && R.IsRoute(cfg, chosen)
    requires w == [cfg.nextWaypoint] + chosen && i < |chosen|
    ensures w[i] != cfg.destination && w[i + 1] < g.n && g.Edge(w[i], w[i + 1])
  {
    assert w[i] == R.Origin(cfg, chosen, i) && w[i + 1] == chosen[i];
    assert i > 0 ==> cfg.IsWaypoint(chosen[i - 1]);
    GuardReadsEdges(cfg, g, m, w[i], w[i + 1]);
  }

  lemma WalkToRoute(cfg: N.Config, g: Graph, m: Matrix, chosen: seq<int>, w: seq<nat>)
    requires g.Valid() && Configured(cfg, g, m) && IsPath(cfg, g, chosen, w)
    requires ShortEdges(g) || chosen == []
    ensures IsCompleteRoute(cfg, chosen)
  {
    forall i | 0 <= i < |chosen|
      ensures cfg.IsWaypoint(chosen[i]) && R.Origin(cfg, chosen, i) != cfg.destination
      ensures cfg.dist(R.Origin(cfg, chosen, i), chosen[i]) != -1
    {
      EdgeIsStep(cfg, g, m, chosen, w, i);
    }
  }

  lemma EdgeIsStep(cfg: N.Config, g: Graph, m: Matrix, chosen: seq<int>, w: seq<nat>, i: nat)
    requires g.Valid() && Configured(cfg, g, m) && IsPath(cfg, g, chosen, w) && ShortEdges(g) && i < |chosen|
    ensures cfg.IsWaypoint(chosen[i]) && R.Origin(cfg, chosen, i) != cfg.destination
    ensures cfg.dist(R.Origin(cfg, chosen, i), chosen[i]) != -1
  {
    assert w[i] == R.Origin(cfg, chosen, i) && w[i + 1] == chosen[i];
    assert g.Edge(w[i], w[i + 1]);
    GuardReadsEdges(cfg, g, m, w[i], w[i + 1]);
  }

  /** The schedule extracted from a complete run is a walk of the map that no shorter walk undercuts
      below the shortest distance of `all_pairs_shortest_path`. */
  lemma ScheduleIsAWalk(cfg: N.Config, g: Graph, m: Matrix, run: N.Run, n: nat, d: Dist,
                        cur: seq<Sample>, dest: seq<Sample>, hold: seq<Sample>)
    requires g.Valid() && Configured(cfg, g, m)
    requires R.IsSampled(cfg, run, n, cur, dest)
    requires R.ShowRoute(cfg.nextWaypoint, R.Chosen(run.labels, n), cur, dest, hold)
    requires IsShortest(g, cfg.nextWaypoint, cfg.destination, d)
    ensures var schedule := S.Schedule(cur, dest, hold);
            && schedule.Some?
            && exists w :: IsPath(cfg, g, S.Waypoints(schedule.value), w) && d.Leq(Fin(Length(g, w)))
  {
    R.ScheduleIsTheRoute(cfg, run, n, cur, dest, hold);
    var chosen := R.Chosen(run.labels, n);
    RouteToWalk(cfg, g, m, chosen);
    var w :| IsPath(cfg, g, chosen, w);
    assert WalkBetween(g, cfg.nextWaypoint, cfg.destination, w);
  }
}
