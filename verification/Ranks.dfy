/** Sorting integers and the rank of each in the sorted order. */
module Ranks {
  import opened Sequences

  /** How many entries are smaller than v. */
  function Rank(s: seq<int>, v: int): (r: nat)
    ensures r <= |s|
  {
    if s == [] then 0 else (if s[0] < v then 1 else 0) + Rank(s[1..], v)
  }

  ghost predicate Ascending(s: seq<int>) {
    forall i, j | 0 <= i < j < |s| :: s[i] <= s[j]
  }

  /** Stands for `std::sort`. */
  function Sort(s: seq<int>): (r: seq<int>)
    ensures |r| == |s| && Ascending(r) && forall v :: v in r <==> v in s
  {
    if s == [] then []
    else
      assert s == [s[0]] + s[1..];
      Insert(s[0], Sort(s[1..]))
  }

  function Insert(x: int, s: seq<int>): (r: seq<int>)
    requires Ascending(s)
    ensures |r| == |s| + 1 && Ascending(r) && forall v :: v in r <==> v == x || v in s
  {
    if s == [] || x <= s[0] then [x] + s
    else
      var t := Insert(x, s[1..]);
      assert s == [s[0]] + s[1..];
      FirstIsLeast(s);
      assert forall i | 0 <= i < |t| :: t[i] in t;
      [s[0]] + t
  }

  lemma FirstIsLeast(s: seq<int>)
    requires Ascending(s) && s != []
    ensures forall v <- s :: s[0] <= v
  {
  }

  lemma {:induction false} SortedAlready(s: seq<int>)
    requires Ascending(s)
    ensures Sort(s) == s
    decreases |s|
  {
    if s != [] {
      SortedAlready(s[1..]);
      assert s == [s[0]] + s[1..];
    }
  }

  lemma {:induction false} RankInserted(x: int, s: seq<int>, v: int)
    requires Ascending(s)
    ensures Rank(Insert(x, s), v) == (if x < v then 1 else 0) + Rank(s, v)
    decreases |s|
  {
    if s == [] || x <= s[0] {
      assert ([x] + s)[1..] == s;
    } else {
      RankInserted(x, s[1..], v);
      assert ([s[0]] + Insert(x, s[1..]))[1..] == Insert(x, s[1..]);
    }
  }

  lemma {:induction false} RankSorted(s: seq<int>, v: int)
    ensures Rank(Sort(s), v) == Rank(s, v)
    decreases |s|
  {
    if s != [] {
      RankSorted(s[1..], v);
      RankInserted(s[0], Sort(s[1..]), v);
    }
  }

  /** The first position of v in an ascending sequence is its rank. */
  lemma {:induction false} RankIsFirst(s: seq<int>, v: int, p: nat)
    requires Ascending(s) && p < |s| && s[p] == v && v !in s[..p]
    ensures Rank(s, v) == p
    decreases |s|
  {
    if p > 0 {
      assert s[0] in s[..p];
      assert s[1..][..p - 1] == s[..p][1..];
      RankIsFirst(s[1..], v, p - 1);
    } else {
      NothingSmaller(s, v);
    }
  }

  lemma {:induction false} NothingSmaller(s: seq<int>, v: int)
    requires forall i | 0 <= i < |s| :: s[i] >= v
    ensures Rank(s, v) == 0
    decreases |s|
  {
    if s != [] {
      NothingSmaller(s[1..], v);
    }
  }

  /** Larger entries have larger ranks. */
  lemma {:induction false} RankGrows(s: seq<int>, v: int, w: int)
    requires v <= w
    ensures Rank(s, v) <= Rank(s, w)
    ensures v in s && v < w ==> Rank(s, v) < Rank(s, w)
    decreases |s|
  {
    if s != [] {
      assert s == [s[0]] + s[1..];
      RankGrows(s[1..], v, w);
    }
  }

  lemma {:induction false} RankBelow(s: seq<int>, v: int)
    requires v in s
    ensures Rank(s, v) < |s|
    decreases |s|
  {
    assert s == [s[0]] + s[1..];
    if s[0] < v {
      RankBelow(s[1..], v);
    }
  }

  ghost function IdsBelow(n: nat): (ids: set<int>)
    ensures |ids| == n && forall i :: i in ids <==> 0 <= i < n
  {
    if n == 0 then {} else IdsBelow(n - 1) + {n - 1}
  }

  ghost function RanksOf(s: seq<int>, n: nat): set<int>
    requires n <= |s|
  {
    if n == 0 then {} else RanksOf(s, n - 1) + {Rank(s, s[n - 1])}
  }

  lemma {:induction false} RankOfSome(s: seq<int>, n: nat, r: int) returns (i: nat)
    requires n <= |s| && r in RanksOf(s, n)
    ensures i < n && r == Rank(s, s[i])
    decreases n
  {
    if r == Rank(s, s[n - 1]) {
      i := n - 1;
    } else {
      i := RankOfSome(s, n - 1, r);
    }
  }

  lemma {:induction false} RanksCounted(s: seq<int>, n: nat)
    requires Distinct(s) && n <= |s|
    ensures |RanksOf(s, n)| == n
    decreases n
  {
    if n > 0 {
      RanksCounted(s, n - 1);
      NewRank(s, n);
      OneMore(RanksOf(s, n - 1), Rank(s, s[n - 1]));
    }
  }

  lemma OneMore<T>(a: set<T>, x: T)
    requires x !in a
    ensures |a + {x}| == |a| + 1
  {
  }

  lemma NewRank(s: seq<int>, n: nat)
    requires Distinct(s) && 0 < n <= |s|
    ensures Rank(s, s[n - 1]) !in RanksOf(s, n - 1)
  {
    if Rank(s, s[n - 1]) in RanksOf(s, n - 1) {
      var i := RankOfSome(s, n - 1, Rank(s, s[n - 1]));
      RanksDiffer(s, i, n - 1);
      assert false;
    }
  }

  lemma RanksDiffer(s: seq<int>, i: nat, j: nat)
    requires Distinct(s) && i < j < |s|
    ensures Rank(s, s[i]) != Rank(s, s[j])
  {
    RankGrows(s, if s[i] < s[j] then s[i] else s[j], if s[i] < s[j] then s[j] else s[i]);
  }

  /** Every position of the sorted order is the rank of some entry. */
  lemma EveryRankOccurs(s: seq<int>, k: nat)
    requires Distinct(s) && k < |s|
    ensures exists i | 0 <= i < |s| :: Rank(s, s[i]) == k
  {
    RanksCounted(s, |s|);
    forall r | r in RanksOf(s, |s|)
      ensures r in IdsBelow(|s|)
    {
      var i := RankOfSome(s, |s|, r);
      RankBelow(s, s[i]);
    }
    SameSize(RanksOf(s, |s|), IdsBelow(|s|));
    var i := RankOfSome(s, |s|, k);
  }

  lemma SameSize(a: set<int>, b: set<int>)
    requires a <= b && |a| == |b|
    ensures a == b
  {
    assert |b - a| == |b| - |a|;
  }
}
