/** The layered Floyd-Warshall recurrence and what it computes. */
module Layers {
  import opened Graph

  /** Shortest length from i to j when only vertices below k may lie in between. */
  ghost function Layer(g: Graph, k: nat, i: nat, j: nat): Dist
    decreases k, 0
  {
    if k == 0 then
      if i == j then Fin(0.0) else g.edge(i, j)
    else if Improves(g, k - 1, i, j) then Layer(g, k - 1, i, k - 1).Plus(Layer(g, k - 1, k - 1, j))
    else Layer(g, k - 1, i, j)
  }

  /** Round k of the triple loop finds a strictly shorter way from i to j through k. */
  ghost predicate Improves(g: Graph, k: nat, i: nat, j: nat)
    decreases k, 1
  {
    Layer(g, k, i, j).Greater(Layer(g, k, i, k).Plus(Layer(g, k, k, j)))
  }

  lemma {:induction false} LayerFacts(g: Graph, k: nat, i: nat, j: nat)
    requires g.Valid()
    ensures Layer(g, k, i, i) == Fin(0.0)
    ensures Layer(g, k, i, j).Fin? ==> Layer(g, k, i, j).length >= 0.0
    decreases k
  {
    if k > 0 {
      LayerFacts(g, k - 1, i, j);
      LayerFacts(g, k - 1, i, k - 1);
      LayerFacts(g, k - 1, k - 1, i);
      LayerFacts(g, k - 1, k - 1, j);
    }
  }

  /** Row k and column k are unchanged by round k, which is why updating in place is sound. */
  lemma RowAndColumnStable(g: Graph, k: nat, i: nat)
    requires g.Valid()
    ensures !Improves(g, k, i, k) && !Improves(g, k, k, i)
    ensures Layer(g, k + 1, i, k) == Layer(g, k, i, k)
    ensures Layer(g, k + 1, k, i) == Layer(g, k, k, i)
  {
    LayerFacts(g, k, k, k);
  }

  lemma {:induction false} LayerDecreases(g: Graph, k: nat, l: nat, i: nat, j: nat)
    requires k <= l
    ensures Layer(g, l, i, j).Leq(Layer(g, k, i, j))
    decreases l
  {
    if k < l {
      LayerDecreases(g, k, l - 1, i, j);
    }
  }

  /** Every finite entry of layer k is the length of a walk with inner vertices below k. */
  lemma {:induction false} LayerIsAWalk(g: Graph, k: nat, i: nat, j: nat) returns (w: seq<nat>)
    requires g.Valid() && k <= g.n && i < g.n && j < g.n
    requires Layer(g, k, i, j).Fin?
    ensures WalkBetween(g, i, j, w) && InnerBelow(w, k)
    ensures Fin(Length(g, w)) == Layer(g, k, i, j)
    decreases k
  {
    if k == 0 {
      if i == j {
        w := [i];
      } else {
        w := [i, j];
        assert w[1..] == [j];
      }
    } else if Improves(g, k - 1, i, j) {
      var a := LayerIsAWalk(g, k - 1, i, k - 1);
      var b := LayerIsAWalk(g, k - 1, k - 1, j);
      JoinWalks(g, i, k - 1, j, a, b);
      w := a + b[1..];
      forall t | 0 < t < |w| - 1
        ensures w[t] < k
      {
        if t < |a| { assert w[t] == a[t]; } else { assert w[t] == b[t - |a| + 1]; }
      }
    } else {
      w := LayerIsAWalk(g, k - 1, i, j);
    }
  }

  /** Going through vertex k is one of the options of round k, and so is not going there. */
  lemma RoundOptions(g: Graph, k: nat, i: nat, j: nat, toK: real, fromK: real)
    requires g.Valid()
    ensures Layer(g, k + 1, i, j).Leq(Layer(g, k, i, j))
    ensures Layer(g, k, i, k).Leq(Fin(toK)) && Layer(g, k + 1, k, j).Leq(Fin(fromK))
            ==> Layer(g, k + 1, i, j).Leq(Fin(toK + fromK))
  {
    RowAndColumnStable(g, k, j);
    if Improves(g, k, i, j) {
    } else {
    }
  }

  lemma DirectWalk(g: Graph, w: seq<nat>)
    requires g.Valid() && IsWalk(g, w) && InnerBelow(w, 0)
    ensures Layer(g, 0, w[0], w[|w| - 1]).Leq(Fin(Length(g, w)))
  {
    if |w| > 2 {
      HasInner(w);
    }
    if |w| == 2 {
      assert g.Edge(w[0], w[0 + 1]);
      WalkSuffix(g, w, 1);
      assert Length(g, w[1..]) == 0.0;
      assert Length(g, w) == g.edge(w[0], w[1]).length + 0.0;
    }
  }

  /** No walk with inner vertices below k beats layer k. */
  lemma {:induction false} LayerIsMinimal(g: Graph, k: nat, w: seq<nat>)
    requires g.Valid() && IsWalk(g, w) && InnerBelow(w, k)
    ensures Layer(g, k, w[0], w[|w| - 1]).Leq(Fin(Length(g, w)))
    decreases k, |w|
  {
    var i, j := w[0], w[|w| - 1];
    if k == 0 {
      DirectWalk(g, w);
    } else if t :| 0 < t < |w| - 1 && w[t] == k - 1 {
      var p := FirstInner(w, k - 1, t);
      var a, b := w[..p + 1], w[p..];
      LengthSplit(g, w, p);
      CutBelow(w, k, p);
      LayerIsMinimal(g, k - 1, a);
      LayerIsMinimal(g, k, b);
      RoundOptions(g, k - 1, i, j, Length(g, a), Length(g, b));
    } else {
      LayerIsMinimal(g, k - 1, w);
      RoundOptions(g, k - 1, i, j, 0.0, 0.0);
    }
  }

  lemma CutBelow(w: seq<nat>, k: nat, p: nat)
    requires 0 < k && InnerBelow(w, k) && 0 < p < |w| - 1
    requires w[p] == k - 1 && k - 1 !in w[1..p]
    ensures InnerBelow(w[..p + 1], k - 1) && InnerBelow(w[p..], k)
  {
  }

  lemma HasInner(w: seq<nat>)
    requires |w| > 2
    ensures !InnerBelow(w, 0)
  {
    assert w[1] >= 0;
  }

  /** The first inner position at which the walk meets v. */
  lemma {:induction false} FirstInner(w: seq<nat>, v: nat, t: nat) returns (p: nat)
    requires 0 < t < |w| - 1 && w[t] == v
    ensures 0 < p < |w| - 1 && w[p] == v && v !in w[1..p]
  {
    if v in w[1..t] {
      var u :| 0 <= u < |w[1..t]| && w[1..t][u] == v;
      p := FirstInner(w, v, u + 1);
    } else {
      p := t;
    }
  }

  /** The last layer holds the shortest walk lengths, and Inf exactly for unreachable pairs. */
  lemma LastLayerIsShortest(g: Graph, i: nat, j: nat)
    requires g.Valid() && i < g.n && j < g.n
    ensures IsShortest(g, i, j, Layer(g, g.n, i, j))
  {
    forall w | WalkBetween(g, i, j, w)
      ensures Layer(g, g.n, i, j).Leq(Fin(Length(g, w)))
    {
      LayerIsMinimal(g, g.n, w);
    }
    if Layer(g, g.n, i, j).Fin? {
      var w := LayerIsAWalk(g, g.n, i, j);
    }
  }

  /** An edge into a vertex h below k is a legal first step in layer k. */
  lemma FirstStepBound(g: Graph, k: nat, i: nat, h: nat, j: nat)
    requires g.Valid() && k <= g.n && i < g.n && j < g.n
    requires h < k && g.Edge(i, h)
    ensures Layer(g, k, i, j).Leq(g.edge(i, h).Plus(Layer(g, k, h, j)))
  {
    if Layer(g, k, h, j).Fin? {
      var b := LayerIsAWalk(g, k, h, j);
      PrependEdge(g, i, h, j, b);
      var w := [i] + b;
      forall t | 0 < t < |w| - 1
        ensures w[t] < k
      {
        assert w[t] == b[t - 1];
      }
      LayerIsMinimal(g, k, w);
    }
  }
}
