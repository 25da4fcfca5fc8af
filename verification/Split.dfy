/** `split`: cutting a string at a delimiter. Joining is its inverse. */
module Split {
  import opened Sequences

  /** The front of a string and what follows it. */
  datatype Cut = Cut(front: string, rest: string)

  predicate CharAt(s: string, c: char, p: int) {
    0 <= p < |s| && s[p] == c
  }

  /** `std::string::find` of one character from a position on; -1 stands for npos. */
  function FindChar(s: string, c: char, from: nat): (p: int)
    requires from <= |s|
    ensures p == -1 || (from <= p && CharAt(s, c, p))
    ensures forall q | from <= q && CharAt(s, c, q) :: 0 <= p <= q
    decreases |s| - from
  {
    if from == |s| then -1
    else if CharAt(s, c, from) then from
    else FindChar(s, c, from + 1)
  }

  /** The parts between the delimiters; always at least one. */
  function Parts(s: string, delimiter: char): (parts: seq<string>)
    ensures parts != []
  {
    PartsFrom(s, delimiter, 0)
  }

  function PartsFrom(s: string, delimiter: char, from: nat): (parts: seq<string>)
    requires from <= |s|
    ensures parts != []
    decreases |s| - from
  {
    var p := FindChar(s, delimiter, from);
    if p < 0 then [s[from..]] else [s[from..p]] + PartsFrom(s, delimiter, p + 1)
  }

  function Join(parts: seq<string>, delimiter: char): string {
    if parts == [] then ""
    else if |parts| == 1 then parts[0]
    else parts[0] + ([delimiter] + Join(parts[1..], delimiter))
  }

  method SplitString(input: string, delimiter: char) returns (result: seq<string>)
    ensures result == Parts(input, delimiter)
  {
    result := [];
    var previous := 0;
    var current := FindChar(input, delimiter, 0);
    while current >= 0
      invariant 0 <= previous <= |input| && current == FindChar(input, delimiter, previous)
      invariant result + PartsFrom(input, delimiter, previous) == Parts(input, delimiter)
      decreases |input| - previous
    {
      Associative(result, [input[previous..current]], PartsFrom(input, delimiter, current + 1));
      result := result + [input[previous..current]];
      previous := current + 1;
      current := FindChar(input, delimiter, previous);
    }
    result := result + [input[previous..]];
  }

  lemma FindInSuffix(s: string, c: char, a: nat, b: nat)
    requires a + b <= |s|
    ensures var p := FindChar(s, c, a + b);
            FindChar(s[a..], c, b) == if p < 0 then -1 else p - a
  {
    var t := s[a..];
    var p, q := FindChar(s, c, a + b), FindChar(t, c, b);
    assert q >= 0 ==> CharAt(s, c, a + q);
    assert p >= 0 ==> CharAt(t, c, p - a);
  }

  lemma Unfold(s: string, delimiter: char, from: nat, piece: string, tail: seq<string>)
    requires from <= |s|
    requires var p := FindChar(s, delimiter, from);
             if p < 0 then piece == s[from..] && tail == []
             else piece == s[from..p] && tail == PartsFrom(s, delimiter, p + 1)
    ensures PartsFrom(s, delimiter, from) == [piece] + tail
  {
  }

  /** Splitting the suffix from a position on is splitting the string from there. */
  lemma {:induction false} PartsInSuffix(s: string, delimiter: char, a: nat, b: nat)
    requires a + b <= |s|
    ensures PartsFrom(s, delimiter, a + b) == PartsFrom(s[a..], delimiter, b)
    decreases |s| - a - b
  {
    var p, t := FindChar(s, delimiter, a + b), s[a..];
    FindInSuffix(s, delimiter, a, b);
    if p < 0 {
      SlicesOfSuffix(s, a, b, |s| - a);
      Unfold(s, delimiter, a + b, s[a + b..], []);
      Unfold(t, delimiter, b, s[a + b..], []);
    } else {
      SlicesOfSuffix(s, a, b, p - a);
      PartsInSuffix(s, delimiter, a, p - a + 1);
      var piece, tail := s[a + b..p], PartsFrom(s, delimiter, p + 1);
      Unfold(s, delimiter, a + b, piece, tail);
      Unfold(t, delimiter, b, piece, tail);
    }
  }

  /** The first part, and the parts of what follows it. */
  lemma FirstPart(s: string, delimiter: char)
    ensures var p := FindChar(s, delimiter, 0);
            Parts(s, delimiter) == if p < 0 then [s] else [s[..p]] + Parts(s[p + 1..], delimiter)
  {
    var p := FindChar(s, delimiter, 0);
    if p >= 0 {
      PartsInSuffix(s, delimiter, p + 1, 0);
    }
    assert s[0..] == s;
  }

  lemma FindFirst(part: string, c: char, rest: string)
    requires c !in part
    ensures FindChar(part + ([c] + rest), c, 0) == |part|
    ensures FindChar(part, c, 0) == -1
  {
    var s := part + ([c] + rest);
    assert CharAt(s, c, |part|);
    assert forall q | 0 <= q < |part| :: s[q] == part[q] && part[q] in part;
  }

  /** Splitting undoes joining, for any parts that do not contain the delimiter. */
  lemma {:induction false} SplitJoin(parts: seq<string>, delimiter: char)
    requires parts != [] && forall part <- parts :: delimiter !in part
    ensures Parts(Join(parts, delimiter), delimiter) == parts
    decreases |parts|
  {
    var rest := Join(parts[1..], delimiter);
    FindFirst(parts[0], delimiter, rest);
    FirstPart(Join(parts, delimiter), delimiter);
    if |parts| > 1 {
      SplitJoin(parts[1..], delimiter);
      SplitHere(parts[0], delimiter, rest);
    }
  }

  lemma SplitHere(part: string, delimiter: char, rest: string)
    ensures var s := part + ([delimiter] + rest);
            s[..|part|] == part && s[|part| + 1..] == rest
  {
  }

  /** Joining undoes splitting. */
  lemma {:induction false} JoinSplit(s: string, delimiter: char)
    ensures Join(Parts(s, delimiter), delimiter) == s
    decreases |s|
  {
    var p := FindChar(s, delimiter, 0);
    FirstPart(s, delimiter);
    if p >= 0 {
      var rest := s[p + 1..];
      var parts := Parts(rest, delimiter);
      JoinSplit(rest, delimiter);
      JoinFirst(s[..p], parts, delimiter);
      assert s == s[..p] + ([delimiter] + rest);
    }
  }

  lemma JoinFirst(part: string, parts: seq<string>, delimiter: char)
    requires parts != []
    ensures Join([part] + parts, delimiter) == part + ([delimiter] + Join(parts, delimiter))
  {
  }
}
