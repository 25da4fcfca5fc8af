/** Facts about sequences of anything. */
module Sequences {

  ghost predicate Distinct<T(!new)>(s: seq<T>) {
    forall i, j | 0 <= i < j < |s| :: s[i] != s[j]
  }

  lemma SameHead<T>(x: T, xs: seq<T>, s: seq<T>)
    requires s == [x] + xs
    ensures s[0] == x && s[1..] == xs
  {
  }

  lemma SameCons<T>(first: T, middle: seq<T>, tail: seq<T>, x: T, xs: seq<T>)
    requires [first] + middle + tail == [x] + xs
    ensures x == first && xs == middle + tail
  {
    assert ([x] + xs)[0] == x;
    assert xs == ([x] + xs)[1..] == ([first] + middle + tail)[1..] == middle + tail;
  }

  lemma ConsPrefix<T>(s: seq<T>, front: seq<T>, rest: seq<T>)
    requires s != [] && front + rest == s[1..]
    ensures [s[0]] + front + rest == s
  {
  }

  lemma Associative<T>(a: seq<T>, b: seq<T>, c: seq<T>)
    ensures a + b + c == a + (b + c)
  {
  }

  lemma SlicesOfSuffix<T>(s: seq<T>, a: nat, b: nat, c: nat)
    requires b <= c <= |s| - a
    ensures s[a..][b..c] == s[a + b..a + c] && s[a..][b..] == s[a + b..]
  {
  }

  lemma WithoutLast<T>(s: seq<T>)
    requires |s| >= 2
    ensures s == [s[0]] + s[1..] && s[1..][|s| - 2] == s[|s| - 1]
    ensures s[..|s| - 1] == [s[0]] + s[1..][..|s| - 2]
  {
  }
}
