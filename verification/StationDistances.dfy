/** The station distance matrix that the orchestrator writes, and the lookups in it by station number. */
module StationDistances {
  import opened Apsp
  import opened Ast
  import opened ConfigMatrix
  import opened Graph
  import opened Ranks
  import opened Routing
  import opened Sequences
  import opened StationIndex
  import opened Wrappers

  /** `get_station_dist`. */
  method GetStationDist(c: StationConfig, dist: Matrix, from: int, to: int) returns (d: int)
    requires c.IsIndex(from) && c.IsIndex(to)
    ensures d == StationDist(c, dist, from, to)
  {
    var conversion := DistIndexConversion(c);
    d := LookUp(dist, conversion[from - 1], conversion[to - 1], INT_MAX);
  }

  ghost function StationDist(c: StationConfig, dist: Matrix, from: int, to: int): int
    requires c.IsIndex(from) && c.IsIndex(to)
  {
    ValueAt(dist, Rank(c.Combined(), c.Combined()[from - 1]), Rank(c.Combined(), c.Combined()[to - 1]), INT_MAX)
  }

  /** The matrix has a row and a column for each of the ids, in the given order. */
  ghost predicate LaidOutBy(dist: Matrix, ids: seq<int>, table: Table<Dist>) {
    && |dist| == |ids|
    && (forall i | 0 <= i < |ids| :: |dist[i]| == |ids|)
    && (forall i, j | 0 <= i < |ids| && 0 <= j < |ids| ::
          (ids[i], ids[j]) in table && dist[i][j] == table[(ids[i], ids[j])])
  }

  ghost predicate InTable(c: StationConfig, table: Table<Dist>, a: int, b: int) {
    (ConvertToWaypointId(c, a), ConvertToWaypointId(c, b)) in table
  }

  /** What the table holds for the waypoints of two stations. */
  ghost function TableDist(c: StationConfig, table: Table<Dist>, a: int, b: int): Dist
    requires InTable(c, table, a, b)
  {
    table[(ConvertToWaypointId(c, a), ConvertToWaypointId(c, b))]
  }

  /** Over a matrix for all combined stations in ascending order, every lookup gives the truncated
      distance, if every distance is in the range of int; otherwise every lookup fails. */
  lemma DistancesFound(c: StationConfig, dist: Matrix, table: Table<Dist>, from: int, to: int)
    requires Distinct(c.Combined()) && LaidOutBy(dist, Sort(c.Combined()), table)
    requires c.IsIndex(from) && c.IsIndex(to)
    ensures InTable(c, table, from, to)
    ensures if Readable(dist) then
              && TableDist(c, table, from, to).Fin?
              && IsTruncation(TableDist(c, table, from, to).length, StationDist(c, dist, from, to))
            else StationDist(c, dist, from, to) == INT_MAX
  {
    StandsAtRank(c.Combined(), from - 1);
    StandsAtRank(c.Combined(), to - 1);
    if Readable(dist) {
      assert ReadableRow(dist[Rank(c.Combined(), c.Combined()[from - 1])]);
    }
  }

  lemma StandsAtRank(s: seq<int>, i: nat)
    requires i < |s|
    ensures Rank(s, s[i]) < |s| && Sort(s)[Rank(s, s[i])] == s[i]
  {
    var sorted := Sort(s);
    assert s[i] in sorted;
    var p := FindFirst(sorted, s[i]);
    RankIsFirst(sorted, s[i], p);
    RankSorted(s, s[i]);
  }

  /** The ids below n whose waypoints have the type, ascending, as the orchestrator lists them. */
  ghost function Listed(nodes: Nodes, n: nat, t: WaypointType): (ids: seq<int>)
    ensures forall i | 0 <= i < |ids| :: 0 <= ids[i] < n && ids[i] in nodes && nodes[ids[i]].waypointType == t
    ensures forall i, j | 0 <= i < j < |ids| :: ids[i] < ids[j]
  {
    if n == 0 then []
    else if n - 1 in nodes && nodes[n - 1].waypointType == t then Listed(nodes, n - 1, t) + [n - 1]
    else Listed(nodes, n - 1, t)
  }

  lemma {:induction false} AllListed(nodes: Nodes, n: nat, t: WaypointType, id: int)
    ensures id in Listed(nodes, n, t) <==> 0 <= id < n && id in nodes && nodes[id].waypointType == t
    decreases n
  {
    if n > 0 {
      AllListed(nodes, n - 1, t, id);
    }
  }

  /** The configuration that the orchestrator writes for a map. */
  ghost function ConfigOf(nodes: Nodes): StationConfig {
    StationConfig(Listed(nodes, |nodes|, EndPoint), Listed(nodes, |nodes|, Station))
  }

  /** The nested loops of `add_station_matrix`: the part of the table between waypoints of type Station. */
  method SelectStations(nodes: Nodes, table: Table<Dist>, waypointCount: nat) returns (dist: Matrix)
    requires waypointCount == |nodes| && Consecutive(nodes) && Square(table, nodes.Keys)
    ensures LaidOutBy(dist, Listed(nodes, waypointCount, Station), table)
  {
    dist := [];
    ghost var ids := Listed(nodes, waypointCount, Station);
    for i := 0 to waypointCount
      invariant |dist| == |Listed(nodes, i, Station)|
      invariant forall a | 0 <= a < |dist| :: IsRow(dist[a], Listed(nodes, i, Station)[a], ids, table)
    {
      if nodes[i].waypointType == Station {
        var row := [];
        for j := 0 to waypointCount
          invariant IsRow(row, i, Listed(nodes, j, Station), table)
        {
          if nodes[j].waypointType == Station {
            row := row + [table[(i, j)]];
          }
        }
        dist := dist + [row];
      }
    }
  }

  /** The table holds the shortest lengths of walks in the map. */
  ghost predicate HoldsShortest(nodes: Nodes, metric: Metric, table: Table<Dist>)
    requires Consecutive(nodes) && Nonnegative(metric)
  {
    && Square(table, nodes.Keys)
    && forall i, j | 0 <= i < |nodes| && 0 <= j < |nodes| ::
         (i, j) in table && IsShortest(GraphOf(nodes, metric), i, j, table[(i, j)])
  }

  /** `add_station_matrix`: the shortest distances between the waypoints of type Station. */
  method AddStationMatrix(nodes: Nodes, metric: Metric)
    returns (r: Result<Matrix, ApspError>, ghost table: Table<Dist>)
    requires KeyedById(nodes) && Nonnegative(metric)
    ensures r.Success? <==> Closed(nodes) && Consecutive(nodes)
    ensures r.Success? ==> HoldsShortest(nodes, metric, table)
    ensures r.Success? ==> LaidOutBy(r.value, Listed(nodes, |nodes|, Station), table)
  {
    table := map[];
    var distances := AllPairsShortestPath(nodes, metric);
    if distances.Failure? {
      return Failure(distances.error), table;
    }
    table := distances.value.dist;
    var dist := SelectStations(nodes, distances.value.dist, |nodes|);
    return Success(dist), table;
  }

  ghost predicate IsRow(row: seq<Dist>, id: int, ids: seq<int>, table: Table<Dist>) {
    && |row| == |ids|
    && forall j | 0 <= j < |ids| :: (id, ids[j]) in table && row[j] == table[(id, ids[j])]
  }

  /** The configured numbers of a map: each end point and each station has one, and no other waypoint. */
  lemma ConfiguredIds(nodes: Nodes, id: int)
    requires Consecutive(nodes)
    ensures var c := ConfigOf(nodes);
            && (id in c.endStations <==> id in nodes && nodes[id].waypointType == EndPoint)
            && (id in c.stations <==> id in nodes && nodes[id].waypointType == Station)
  {
    ConsecutiveKeys(nodes);
    AllListed(nodes, |nodes|, EndPoint, id);
    AllListed(nodes, |nodes|, Station, id);
  }

  lemma ListedDistinct(nodes: Nodes)
    ensures Distinct(ConfigOf(nodes).Combined())
  {
  }

  /** The length of a shortest walk, truncated. */
  ghost predicate IsDistance(g: Graph, i: nat, j: nat, d: int) {
    exists length :: IsShortest(g, i, j, Fin(length)) && IsTruncation(length, d)
  }

  /** The lookup gives the distance between the waypoints of the two stations. */
  ghost predicate FindsDistance(nodes: Nodes, metric: Metric, dist: Matrix, a: int, b: int)
    requires Consecutive(nodes) && Nonnegative(metric)
    requires ConfigOf(nodes).IsIndex(a) && ConfigOf(nodes).IsIndex(b)
  {
    IsDistance(GraphOf(nodes, metric), WaypointOf(nodes, a), WaypointOf(nodes, b),
               StationDist(ConfigOf(nodes), dist, a, b))
  }

  ghost function WaypointOf(nodes: Nodes, a: int): (waypoint: nat)
    requires ConfigOf(nodes).IsIndex(a)
    ensures waypoint == ConvertToWaypointId(ConfigOf(nodes), a) && waypoint < |nodes|
  {
    ConvertToWaypointId(ConfigOf(nodes), a)
  }

  /** Some walk from i to j has a length in the range of int. */
  ghost predicate ShortWay(g: Graph, i: nat, j: nat) {
    exists w :: WalkBetween(g, i, j, w) && Length(g, w) <= 2147483647.0
  }

  ghost predicate Joined(nodes: Nodes, metric: Metric, a: int, b: int)
    requires Consecutive(nodes) && Nonnegative(metric)
    requires ConfigOf(nodes).IsIndex(a) && ConfigOf(nodes).IsIndex(b)
  {
    ShortWay(GraphOf(nodes, metric), WaypointOf(nodes, a), WaypointOf(nodes, b))
  }

  /** A shortest length is in the range of int exactly when some walk is that short. */
  lemma ShortestInRange(g: Graph, i: nat, j: nat, d: Dist)
    requires g.Valid() && IsShortest(g, i, j, d)
    ensures InIntRange(d) <==> ShortWay(g, i, j)
  {
    if ShortWay(g, i, j) {
      var shortest :| WalkBetween(g, i, j, shortest) && Length(g, shortest) == d.length;
      LengthNonnegative(g, shortest);
    }
  }

  lemma ShortestIsUnique(g: Graph, i: nat, j: nat, d: Dist, e: Dist)
    requires IsShortest(g, i, j, d) && IsShortest(g, i, j, e)
    ensures d == e
  {
    if d.Fin? && e.Fin? {
      var v :| WalkBetween(g, i, j, v) && Length(g, v) == d.length;
      var w :| WalkBetween(g, i, j, w) && Length(g, w) == e.length;
    }
  }

  lemma OwnDistance(g: Graph, i: nat)
    requires g.Valid() && i < g.n
    ensures IsShortest(g, i, i, Fin(0.0))
  {
    assert WalkBetween(g, i, i, [i]) && Length(g, [i]) == 0.0;
    forall w | WalkBetween(g, i, i, w)
      ensures 0.0 <= Length(g, w)
    {
      LengthNonnegative(g, w);
    }
  }

  /** A lookup that fails is wrong for a station and itself, whose distance is 0. */
  lemma FailureIsWrong(nodes: Nodes, metric: Metric, dist: Matrix, a: int)
    requires Consecutive(nodes) && Nonnegative(metric) && ConfigOf(nodes).IsIndex(a)
    requires StationDist(ConfigOf(nodes), dist, a, a) == INT_MAX
    ensures !FindsDistance(nodes, metric, dist, a, a)
  {
    var g, v := GraphOf(nodes, metric), WaypointOf(nodes, a);
    OwnDistance(g, v);
    forall length | IsShortest(g, v, v, Fin(length))
      ensures length == 0.0
    {
      ShortestIsUnique(g, v, v, Fin(length), Fin(0.0));
    }
  }

  /** What `AddStationMatrix` promises. */
  ghost predicate IsOwnMatrix(nodes: Nodes, metric: Metric, table: Table<Dist>, dist: Matrix)
    requires Consecutive(nodes) && Nonnegative(metric)
  {
    HoldsShortest(nodes, metric, table) && LaidOutBy(dist, Listed(nodes, |nodes|, Station), table)
  }

  lemma MissedWithEndStations(nodes: Nodes, metric: Metric, table: Table<Dist>, dist: Matrix) returns (a: int)
    requires Consecutive(nodes) && Nonnegative(metric) && IsOwnMatrix(nodes, metric, table, dist)
    requires ConfigOf(nodes).endStations != []
    ensures ConfigOf(nodes).IsIndex(a) && !FindsDistance(nodes, metric, dist, a, a)
  {
    ListedDistinct(nodes);
    a := RankedLast(ConfigOf(nodes), dist);
    FailureIsWrong(nodes, metric, dist, a);
  }

  /** A matrix for the stations only has no row for the station with the largest id. */
  lemma RankedLast(c: StationConfig, dist: Matrix) returns (a: int)
    requires Distinct(c.Combined()) && c.endStations != [] && |dist| == |c.stations|
    ensures c.IsIndex(a) && StationDist(c, dist, a, a) == INT_MAX
  {
    var s := c.Combined();
    EveryRankOccurs(s, |s| - 1);
    var i :| 0 <= i < |s| && Rank(s, s[i]) == |s| - 1;
    a := i + 1;
  }

  ghost predicate InRange(m: Matrix, i: int, j: int) {
    0 <= i < |m| && 0 <= j < |m[i]| && InIntRange(m[i][j])
  }

  lemma ReadableWhenInRange(m: Matrix)
    requires forall i | 0 <= i < |m| :: |m[i]| == |m|
    ensures Readable(m) <==> forall i, j | 0 <= i < |m| && 0 <= j < |m| :: InRange(m, i, j)
  {
    if Readable(m) {
      forall i, j | 0 <= i < |m| && 0 <= j < |m|
        ensures InRange(m, i, j)
      {
        assert ReadableRow(m[i]);
      }
    }
    if forall i, j | 0 <= i < |m| && 0 <= j < |m| :: InRange(m, i, j) {
      forall i, j | 0 <= i < |m| && 0 <= j < |m[i]|
        ensures InIntRange(m[i][j])
      {
        assert InRange(m, i, j);
      }
    }
  }

  /** An entry of the matrix is in the range of int exactly when its two stations are joined. */
  lemma EntryWhenJoined(nodes: Nodes, metric: Metric, table: Table<Dist>, dist: Matrix, a: int, b: int)
    requires Consecutive(nodes) && Nonnegative(metric) && IsOwnMatrix(nodes, metric, table, dist)
    requires var c := ConfigOf(nodes); c.endStations == [] && c.IsIndex(a) && c.IsIndex(b)
    ensures InRange(dist, a - 1, b - 1) <==> Joined(nodes, metric, a, b)
  {
    var i, j := WaypointOf(nodes, a), WaypointOf(nodes, b);
    EntryOfStations(ConfigOf(nodes), table, dist, a, b);
    ShortestInRange(GraphOf(nodes, metric), i, j, table[(i, j)]);
  }

  lemma EntryOfStations(c: StationConfig, table: Table<Dist>, dist: Matrix, a: int, b: int)
    requires LaidOutBy(dist, c.stations, table) && c.endStations == [] && c.IsIndex(a) && c.IsIndex(b)
    ensures 1 <= a <= |dist| && 1 <= b <= |dist[a - 1]|
    ensures InTable(c, table, a, b) && dist[a - 1][b - 1] == TableDist(c, table, a, b)
  {
    assert c.Combined() == c.stations;
  }

  ghost predicate AllJoined(nodes: Nodes, metric: Metric)
    requires Consecutive(nodes) && Nonnegative(metric)
  {
    var c := ConfigOf(nodes);
    forall a, b | c.IsIndex(a) && c.IsIndex(b) :: Joined(nodes, metric, a, b)
  }

  /** Without end stations, the matrix is readable exactly when all stations are joined. */
  lemma ReadableWhenJoined(nodes: Nodes, metric: Metric, table: Table<Dist>, dist: Matrix)
    requires Consecutive(nodes) && Nonnegative(metric) && IsOwnMatrix(nodes, metric, table, dist)
    requires ConfigOf(nodes).endStations == []
    ensures Readable(dist) <==> AllJoined(nodes, metric)
  {
    var c := ConfigOf(nodes);
    ReadableWhenInRange(dist);
    assert |c.Combined()| == |dist|;
    forall a, b | c.IsIndex(a) && c.IsIndex(b)
      ensures InRange(dist, a - 1, b - 1) <==> Joined(nodes, metric, a, b)
    {
      EntryWhenJoined(nodes, metric, table, dist, a, b);
    }
    if AllJoined(nodes, metric) {
      forall i, j | 0 <= i < |dist| && 0 <= j < |dist|
        ensures InRange(dist, i, j)
      {
        assert Joined(nodes, metric, i + 1, j + 1);
        assert InRange(dist, i + 1 - 1, j + 1 - 1);
      }
    }
  }

  /** With the repository's own matrix every distance is looked up right if and only if the map has
      no end station and all stations are joined, each to each, by walks with lengths in the range of
      int. The matrix leaves the end stations out, the ranks count them; and one pair of stations
      that is not joined leaves a DBL_MAX that spoils the whole matrix. */
  lemma OwnMatrixWorksExactly(nodes: Nodes, metric: Metric, table: Table<Dist>, dist: Matrix)
    requires Consecutive(nodes) && Nonnegative(metric) && IsOwnMatrix(nodes, metric, table, dist)
    ensures var c := ConfigOf(nodes);
            (forall a, b | c.IsIndex(a) && c.IsIndex(b) :: FindsDistance(nodes, metric, dist, a, b))
            <==> c.endStations == [] && AllJoined(nodes, metric)
  {
    var c := ConfigOf(nodes);
    if c.endStations != [] {
      var a := MissedWithEndStations(nodes, metric, table, dist);
    } else {
      ReadableWhenJoined(nodes, metric, table, dist);
      if Readable(dist) {
        forall a, b | c.IsIndex(a) && c.IsIndex(b)
          ensures FindsDistance(nodes, metric, dist, a, b)
        {
          FoundWhenReadable(nodes, metric, table, dist, a, b);
        }
      } else {
        var i :| 0 <= i < |dist| && !ReadableRow(dist[i]);
        assert c.IsIndex(i + 1);
        FailureIsWrong(nodes, metric, dist, i + 1);
      }
    }
  }

  lemma FoundWhenReadable(nodes: Nodes, metric: Metric, table: Table<Dist>, dist: Matrix, a: int, b: int)
    requires Consecutive(nodes) && Nonnegative(metric) && IsOwnMatrix(nodes, metric, table, dist)
    requires var c := ConfigOf(nodes); c.endStations == [] && c.IsIndex(a) && c.IsIndex(b)
    requires Readable(dist)
    ensures FindsDistance(nodes, metric, dist, a, b)
  {
    var c, g := ConfigOf(nodes), GraphOf(nodes, metric);
    LaidOutByRank(nodes, table, dist);
    DistancesFound(c, dist, table, a, b);
    var i, j := WaypointOf(nodes, a), WaypointOf(nodes, b);
    assert IsShortest(g, i, j, table[(i, j)]);
    TruncatedShortest(g, i, j, table[(i, j)], StationDist(c, dist, a, b));
  }

  lemma LaidOutByRank(nodes: Nodes, table: Table<Dist>, dist: Matrix)
    requires LaidOutBy(dist, Listed(nodes, |nodes|, Station), table) && ConfigOf(nodes).endStations == []
    ensures var s := ConfigOf(nodes).Combined(); Distinct(s) && LaidOutBy(dist, Sort(s), table)
  {
    var c := ConfigOf(nodes);
    ListedDistinct(nodes);
    assert c.Combined() == c.stations;
    SortedAlready(c.stations);
  }

  lemma TruncatedShortest(g: Graph, i: nat, j: nat, d: Dist, v: int)
    requires IsShortest(g, i, j, d) && d.Fin? && IsTruncation(d.length, v)
    ensures IsDistance(g, i, j, v)
  {
  }

  /** Two stations, of which the second cannot reach the first. */
  function OneWayMap(p: Translation, q: Translation): Nodes {
    map[0 := Waypoint(0, [1], p, Station), 1 := Waypoint(1, [1], q, Station)]
  }

  /** On that map, which has no end station, even the distance from a station to itself is lost. */
  lemma OneWayMapFails(p: Translation, q: Translation, metric: Metric, table: Table<Dist>, dist: Matrix)
    requires Nonnegative(metric) && Consecutive(OneWayMap(p, q))
    requires IsOwnMatrix(OneWayMap(p, q), metric, table, dist)
    ensures var c := ConfigOf(OneWayMap(p, q));
            && c == StationConfig([], [0, 1])
            && StationDist(c, dist, 1, 1) == INT_MAX
            && IsShortest(GraphOf(OneWayMap(p, q), metric), 0, 0, Fin(0.0))
  {
    var nodes := OneWayMap(p, q);
    var c, g := ConfigOf(nodes), GraphOf(nodes, metric);
    OneWayStations(p, q);
    var ids := Listed(nodes, |nodes|, Station);
    assert (ids[1], ids[0]) == (1, 0) && dist[1][0] == table[(ids[1], ids[0])];
    NoWayBack(p, q, metric, dist[1][0]);
    assert !ReadableRow(dist[1]);
    OwnDistance(g, 0);
  }

  lemma OneWayStations(p: Translation, q: Translation)
    ensures Consecutive(OneWayMap(p, q)) && ConfigOf(OneWayMap(p, q)) == StationConfig([], [0, 1])
  {
    var nodes := OneWayMap(p, q);
    assert nodes.Keys == {0, 1};
    assert |nodes| == 2;
    assert Listed(nodes, 0, Station) == Listed(nodes, 0, EndPoint) == [];
    assert Listed(nodes, 1, Station) == [0];
    assert Listed(nodes, 1, EndPoint) == [];
  }

  lemma NoWayBack(p: Translation, q: Translation, metric: Metric, d: Dist)
    requires Nonnegative(metric) && Consecutive(OneWayMap(p, q))
    requires IsShortest(GraphOf(OneWayMap(p, q), metric), 1, 0, d)
    ensures d == Inf
  {
    var g := GraphOf(OneWayMap(p, q), metric);
    forall w | WalkBetween(g, 1, 0, w)
      ensures false
    {
      StaysAtOne(p, q, metric, w);
    }
  }

  lemma {:induction false} StaysAtOne(p: Translation, q: Translation, metric: Metric, w: seq<nat>)
    requires Nonnegative(metric) && Consecutive(OneWayMap(p, q))
    requires IsWalk(GraphOf(OneWayMap(p, q), metric), w) && w[0] == 1
    ensures w[|w| - 1] == 1
    decreases |w|
  {
    var g := GraphOf(OneWayMap(p, q), metric);
    if |w| > 1 {
      assert g.Edge(w[0], w[0 + 1]);
      WalkSuffix(g, w, 1);
      StaysAtOne(p, q, metric, w[1..]);
    }
  }
}
