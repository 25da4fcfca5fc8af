/** Following the next-hop table: it reaches every reachable target, over a shortest walk. */
module Routing {
  import opened Graph
  import opened Layers

  /** The next-hop entry after k rounds; -1 where no route is known. */
  ghost function NextHop(g: Graph, k: nat, i: nat, j: nat): int
    decreases k
  {
    if k == 0 then
      if i == j then i else if g.Edge(i, j) then j else -1
    else if Improves(g, k - 1, i, j) then NextHop(g, k - 1, i, k - 1)
    else NextHop(g, k - 1, i, j)
  }

  /** Lexicographic weight of the rounds that shaped the route from i to j: round k weighs 2^k. */
  ghost function RouteRank(g: Graph, k: nat, i: nat, j: nat): nat
    decreases k
  {
    if k == 0 then 0
    else if Improves(g, k - 1, i, j) then Pow2(k - 1) + RouteRank(g, k - 1, i, k - 1)
    else RouteRank(g, k - 1, i, j)
  }

  ghost function Pow2(k: nat): nat {
    if k == 0 then 1 else 2 * Pow2(k - 1)
  }

  lemma {:induction false} RankBound(g: Graph, k: nat, i: nat, j: nat)
    ensures RouteRank(g, k, i, j) < Pow2(k)
    decreases k
  {
    if k > 0 {
      RankBound(g, k - 1, i, k - 1);
      RankBound(g, k - 1, i, j);
    }
  }

  /** The first hop is a real edge, loses no length, and leaves a route of smaller rank. */
  ghost predicate GoodHop(g: Graph, k: nat, i: nat, j: nat) {
    var h := NextHop(g, k, i, j);
    && h >= 0 && g.Edge(i, h) && (h == j || h < k)
    && Layer(g, k, i, j) == g.edge(i, h).Plus(Layer(g, k, h, j))
    && (h != j ==> RouteRank(g, k, h, j) < RouteRank(g, k, i, j))
  }

  lemma {:induction false} FirstHop(g: Graph, k: nat, i: nat, j: nat)
    requires g.Valid() && k <= g.n && i < g.n && j < g.n && i != j
    requires Layer(g, k, i, j).Fin?
    ensures GoodHop(g, k, i, j)
    decreases k
  {
    if k == 0 {
    } else if Improves(g, k - 1, i, j) {
      RowAndColumnStable(g, k - 1, i);
      RowAndColumnStable(g, k - 1, j);
      FirstHop(g, k - 1, i, k - 1);
      ViaRoundHop(g, k - 1, i, j);
    } else {
      FirstHop(g, k - 1, i, j);
      KeptHop(g, k - 1, i, j);
    }
  }

  /** Round m leaves (i, j) alone: it then leaves the rest of the route alone too. */
  lemma KeptHop(g: Graph, m: nat, i: nat, j: nat)
    requires g.Valid() && m < g.n && i < g.n && j < g.n && i != j
    requires Layer(g, m, i, j).Fin? && !Improves(g, m, i, j)
    requires GoodHop(g, m, i, j)
    ensures GoodHop(g, m + 1, i, j)
  {
    var h := NextHop(g, m, i, j);
    if h == j {
      LayerFacts(g, m, j, j);
      LayerFacts(g, m + 1, j, j);
    } else {
      FirstStepBound(g, m + 1, i, h, j);
      assert !Improves(g, m, h, j);
    }
  }

  /** Round m redirects (i, j) through m: the first hop is the one towards m. */
  lemma ViaRoundHop(g: Graph, m: nat, i: nat, j: nat)
    requires g.Valid() && m < g.n && i < g.n && j < g.n && i != j && i != m && j != m
    requires Improves(g, m, i, j)
    requires GoodHop(g, m, i, m)
    ensures GoodHop(g, m + 1, i, j)
  {
    var h := NextHop(g, m, i, m);
    RowAndColumnStable(g, m, j);
    RankBound(g, m, h, j);
    if h == j {
      LayerFacts(g, m, j, m);
      LayerFacts(g, m, m, j);
      LayerDecreases(g, 0, m, i, j);
      assert false;
    }
    FirstStepBound(g, m + 1, i, h, j);
    if h == m {
      LayerFacts(g, m, m, m);
    } else if Improves(g, m, h, j) {
    } else {
    }
  }

  lemma {:induction false} NoHopWhenUnreachable(g: Graph, k: nat, i: nat, j: nat)
    requires g.Valid() && k <= g.n && i < g.n && j < g.n
    requires Layer(g, k, i, j).Inf?
    ensures NextHop(g, k, i, j) == -1
    decreases k
  {
    if k > 0 {
      LayerDecreases(g, k - 1, k, i, j);
      NoHopWhenUnreachable(g, k - 1, i, j);
    }
  }

  /** The nested map from row to column, as one map from pairs. */
  type Table<T> = map<(int, int), T>

  /** The table holds the next hops of g after the last round. */
  ghost predicate HoldsNextHops(g: Graph, next: Table<int>) {
    forall i, j | 0 <= i < g.n && 0 <= j < g.n ::
      (i, j) in next && next[(i, j)] == NextHop(g, g.n, i, j)
  }

  /** The vertices met by looking up the next hop towards j, at most `hops` times. */
  ghost function Follow(next: Table<int>, i: nat, j: nat, hops: nat): seq<nat>
    decreases hops
  {
    if i == j || hops == 0 || (i, j) !in next || next[(i, j)] < 0 then [i]
    else [i] + Follow(next, next[(i, j)], j, hops - 1)
  }

  lemma {:induction false} OwnHop(g: Graph, k: nat, i: nat)
    requires g.Valid()
    ensures NextHop(g, k, i, i) == i
    decreases k
  {
    if k > 0 {
      OwnHop(g, k - 1, i);
      LayerFacts(g, k - 1, i, k - 1);
      LayerFacts(g, k - 1, k - 1, i);
    }
  }

  /** Following the table from i reaches every reachable j within n - 1 hops, over real edges and
      in exactly the shortest length, even when edges have length zero; -1 marks the others. */
  lemma TableRoutes(g: Graph, next: Table<int>, i: nat, j: nat)
    requires g.Valid() && i < g.n && j < g.n && HoldsNextHops(g, next)
    ensures next[(i, j)] == -1 <==> forall w :: !WalkBetween(g, i, j, w)
    ensures next[(i, j)] != -1 ==>
              var route := Follow(next, i, j, g.n - 1);
              && WalkBetween(g, i, j, route)
              && |route| <= g.n
              && IsShortest(g, i, j, Fin(Length(g, route)))
  {
    LastLayerIsShortest(g, i, j);
    if Layer(g, g.n, i, j).Inf? {
      NoHopWhenUnreachable(g, g.n, i, j);
    } else {
      HopWhenReachable(g, i, j);
      assert Passed(g, {}, i, j);
      FollowFrom(g, next, i, j, {}, g.n - 1);
      assert exists w :: WalkBetween(g, i, j, w);
    }
  }

  lemma HopWhenReachable(g: Graph, i: nat, j: nat)
    requires g.Valid() && i < g.n && j < g.n && Layer(g, g.n, i, j).Fin?
    ensures NextHop(g, g.n, i, j) >= 0
  {
    if i == j {
      OwnHop(g, g.n, i);
    } else {
      FirstHop(g, g.n, i, j);
    }
  }

  /** The vertices passed on the way from elsewhere to i; their ranks are larger, so none comes back. */
  ghost predicate Passed(g: Graph, seen: set<nat>, i: nat, j: nat) {
    && (forall v <- seen :: v < g.n && v != j && v != i)
    && (i != j ==> forall v <- seen :: RouteRank(g, g.n, i, j) < RouteRank(g, g.n, v, j))
  }

  lemma PassedOneMore(g: Graph, seen: set<nat>, i: nat, h: nat, j: nat)
    requires Passed(g, seen, i, j) && i < g.n && i != j
    requires h != j ==> RouteRank(g, g.n, h, j) < RouteRank(g, g.n, i, j)
    ensures Passed(g, seen + {i}, h, j) && |seen + {i}| == |seen| + 1
  {
  }

  /** The route is a walk of at most so many hops, and as long as the table of the last round says. */
  ghost predicate IsRoute(g: Graph, i: nat, j: nat, route: seq<nat>, hops: nat) {
    && WalkBetween(g, i, j, route)
    && |route| <= hops + 1
    && Fin(Length(g, route)) == Layer(g, g.n, i, j)
  }

  lemma {:induction false} FollowFrom(g: Graph, next: Table<int>, i: nat, j: nat, seen: set<nat>, hops: nat)
    requires g.Valid() && i < g.n && j < g.n && HoldsNextHops(g, next)
    requires Layer(g, g.n, i, j).Fin?
    requires |seen| + hops == g.n - 1 && Passed(g, seen, i, j)
    ensures IsRoute(g, i, j, Follow(next, i, j, hops), hops)
    decreases hops
  {
    if i == j {
      LayerFacts(g, g.n, j, j);
      assert Follow(next, i, j, hops) == [i];
    } else {
      VerticesLeft(seen, i, j, g.n);
      var h := OneHop(g, next, i, j);
      PassedOneMore(g, seen, i, h, j);
      FollowFrom(g, next, h, j, seen + {i}, hops - 1);
      PrependHop(g, i, h, j, Follow(next, h, j, hops - 1), hops);
    }
  }

  /** Looking up the next hop follows an edge without losing length. */
  lemma OneHop(g: Graph, next: Table<int>, i: nat, j: nat) returns (h: nat)
    requires g.Valid() && i < g.n && j < g.n && i != j && HoldsNextHops(g, next)
    requires Layer(g, g.n, i, j).Fin?
    ensures h < g.n && (i, j) in next && next[(i, j)] == h && g.Edge(i, h)
    ensures Layer(g, g.n, h, j).Fin? && Layer(g, g.n, i, j) == g.edge(i, h).Plus(Layer(g, g.n, h, j))
    ensures h != j ==> RouteRank(g, g.n, h, j) < RouteRank(g, g.n, i, j)
  {
    FirstHop(g, g.n, i, j);
    h := next[(i, j)];
  }

  lemma PrependHop(g: Graph, i: nat, h: nat, j: nat, rest: seq<nat>, hops: nat)
    requires g.Valid() && g.Edge(i, h) && hops > 0 && IsRoute(g, h, j, rest, hops - 1)
    requires Layer(g, g.n, i, j) == g.edge(i, h).Plus(Layer(g, g.n, h, j))
    ensures IsRoute(g, i, j, [i] + rest, hops)
  {
    PrependEdge(g, i, h, j, rest);
  }

  lemma VerticesLeft(seen: set<nat>, i: nat, j: nat, n: nat)
    requires i < n && j < n && i != j
    requires forall v <- seen :: v < n && v != j && v != i
    ensures |seen| + 2 <= n
  {
    CardinalityBound(seen + {i} + {j}, n);
  }

  lemma {:induction false} CardinalityBound(s: set<nat>, n: nat)
    requires forall v <- s :: v < n
    ensures |s| <= n
    decreases n
  {
    if n == 0 {
      assert s == {};
    } else {
      CardinalityBound(s - {n - 1}, n - 1);
    }
  }
}
