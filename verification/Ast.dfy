/** The waypoint map as the world-file parser delivers it. */
module Ast {
  import opened Graph
  import opened Ranks

  datatype WaypointType = Via | Station | EndPoint

  datatype Translation = Translation(x: real, y: real, z: real)

  datatype Waypoint = Waypoint(id: int, adjlist: seq<int>, translation: Translation, waypointType: WaypointType)

  type Nodes = map<int, Waypoint>

  /** Stands for `euclidean_distance`: any nonnegative length. */
  type Metric = (Translation, Translation) -> real

  ghost predicate Nonnegative(metric: Metric) {
    forall p, q :: metric(p, q) >= 0.0
  }

  /** The parser stores every waypoint under its own id. */
  ghost predicate KeyedById(nodes: Nodes) {
    forall key <- nodes :: nodes[key].id == key
  }

  /** Every adjacency entry names a waypoint of the map. */
  ghost predicate Closed(nodes: Nodes) {
    forall key, a | key in nodes && a in nodes[key].adjlist :: a in nodes
  }

  /** The ids are 0..n-1. */
  ghost predicate Consecutive(nodes: Nodes) {
    forall i | 0 <= i < |nodes| :: i in nodes
  }

  /** Length of the edge the adjacency list of i gives to j. */
  ghost function EdgeLength(nodes: Nodes, metric: Metric, i: int, j: int): Dist {
    if i in nodes && j in nodes && j in nodes[i].adjlist then
      Fin(metric(nodes[i].translation, nodes[j].translation))
    else Inf
  }

  ghost function GraphOf(nodes: Nodes, metric: Metric): (g: Graph)
    requires Consecutive(nodes) && Nonnegative(metric)
    ensures g.Valid() && g.n == |nodes|
    ensures forall i: nat, j: nat | i < g.n && j < g.n && i in nodes && j in nodes ::
              g.edge(i, j) == if j in nodes[i].adjlist then Fin(metric(nodes[i].translation, nodes[j].translation))
                              else Inf
  {
    ConsecutiveKeys(nodes);
    Graph(|nodes|, (i, j) => EdgeLength(nodes, metric, i, j))
  }

  lemma ConsecutiveKeys(nodes: Nodes)
    requires Consecutive(nodes)
    ensures forall i :: i in nodes <==> 0 <= i < |nodes|
  {
    var below := IdsBelow(|nodes|);
    SameSize(below, nodes.Keys);
  }
}
