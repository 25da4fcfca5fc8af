/** Weighted directed graphs over the waypoint ids 0..n-1 and their walks. */
module Graph {

  /** A distance as `all_pairs_shortest_path` keeps it: `Inf` is DBL_MAX. */
  datatype Dist = Inf | Fin(length: real) {
    predicate Leq(that: Dist) {
      that.Inf? || (Fin? && length <= that.length)
    }

    predicate Greater(that: Dist) {
      !Leq(that)
    }

    function Plus(that: Dist): Dist {
      if Fin? && that.Fin? then Fin(length + that.length) else Inf
    }
  }

  /** `edge(i, j)` is the length of the edge from i to j, Inf when there is none. */
  datatype Graph = Graph(n: nat, edge: (nat, nat) -> Dist) {
    ghost predicate Valid() {
      forall i: nat, j: nat | Edge(i, j) :: i < n && j < n && edge(i, j).length >= 0.0
    }

    predicate Edge(i: nat, j: nat) {
      edge(i, j).Fin?
    }
  }

  /** A nonempty sequence of vertices, each joined to the next by an edge. */
  ghost predicate IsWalk(g: Graph, w: seq<nat>) {
    && |w| > 0
    && (forall t | 0 <= t < |w| :: w[t] < g.n)
    && (forall t | 0 <= t < |w| - 1 :: g.Edge(w[t], w[t + 1]))
  }

  ghost predicate WalkBetween(g: Graph, i: nat, j: nat, w: seq<nat>) {
    IsWalk(g, w) && w[0] == i && w[|w| - 1] == j
  }

  /** Every vertex of the walk but the two ends is below k. */
  ghost predicate InnerBelow(w: seq<nat>, k: nat) {
    forall t | 0 < t < |w| - 1 :: w[t] < k
  }

  ghost function Length(g: Graph, w: seq<nat>): real
    requires IsWalk(g, w)
  {
    if |w| == 1 then 0.0
    else
      assert g.Edge(w[0], w[0 + 1]);
      assert IsWalk(g, w[1..]) by { WalkSuffix(g, w, 1); }
      g.edge(w[0], w[1]).length + Length(g, w[1..])
  }

  /** What an all-pairs shortest path table has to say about (i, j). */
  ghost predicate IsShortest(g: Graph, i: nat, j: nat, d: Dist) {
    match d
    case Inf => forall w :: !WalkBetween(g, i, j, w)
    case Fin(r) =>
      && (exists w :: WalkBetween(g, i, j, w) && Length(g, w) == r)
      && (forall w | WalkBetween(g, i, j, w) :: r <= Length(g, w))
  }

  lemma WalkSuffix(g: Graph, w: seq<nat>, p: nat)
    requires IsWalk(g, w) && p < |w|
    ensures IsWalk(g, w[p..])
  {
  }

  lemma WalkPrefix(g: Graph, w: seq<nat>, p: nat)
    requires IsWalk(g, w) && p < |w|
    ensures IsWalk(g, w[..p + 1])
  {
  }

  lemma {:induction false} LengthNonnegative(g: Graph, w: seq<nat>)
    requires g.Valid() && IsWalk(g, w)
    ensures Length(g, w) >= 0.0
    decreases |w|
  {
    if |w| > 1 {
      assert g.Edge(w[0], w[0 + 1]);
      WalkSuffix(g, w, 1);
      LengthNonnegative(g, w[1..]);
    }
  }

  /** Cutting a walk at one of its vertices splits its length. */
  lemma {:induction false} LengthSplit(g: Graph, w: seq<nat>, p: nat)
    requires IsWalk(g, w) && p < |w|
    ensures IsWalk(g, w[..p + 1]) && IsWalk(g, w[p..])
    ensures Length(g, w) == Length(g, w[..p + 1]) + Length(g, w[p..])
    decreases p
  {
    WalkPrefix(g, w, p);
    WalkSuffix(g, w, p);
    if p == 0 {
      assert w[0..] == w;
    } else {
      WalkSuffix(g, w, 1);
      LengthSplit(g, w[1..], p - 1);
      assert w[..p + 1][1..] == w[1..][..p];
      assert w[1..][p - 1..] == w[p..];
    }
  }

  /** Two walks that meet join into one walk of the summed length. */
  lemma JoinWalks(g: Graph, i: nat, m: nat, j: nat, a: seq<nat>, b: seq<nat>)
    requires WalkBetween(g, i, m, a) && WalkBetween(g, m, j, b)
    ensures WalkBetween(g, i, j, a + b[1..])
    ensures Length(g, a + b[1..]) == Length(g, a) + Length(g, b)
  {
    var w := a + b[1..];
    forall t | 0 <= t < |w| - 1
      ensures g.Edge(w[t], w[t + 1])
    {
      if t < |a| - 1 {
        assert g.Edge(a[t], a[t + 1]);
      } else {
        var u := t - (|a| - 1);
        assert w[t] == b[u] && w[t + 1] == b[u + 1];
        assert g.Edge(b[u], b[u + 1]);
      }
    }
    LengthSplit(g, w, |a| - 1);
    assert w[..|a| - 1 + 1] == a;
    assert w[|a| - 1..] == b;
  }

  /** An edge in front of a walk. */
  lemma PrependEdge(g: Graph, i: nat, h: nat, j: nat, rest: seq<nat>)
    requires g.Valid() && g.Edge(i, h) && WalkBetween(g, h, j, rest)
    ensures WalkBetween(g, i, j, [i] + rest)
    ensures Length(g, [i] + rest) == g.edge(i, h).length + Length(g, rest)
  {
  }
}
