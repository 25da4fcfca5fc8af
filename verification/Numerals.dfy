/** Decimal numerals: printing them, and reading them as `stoi` and `stod` do. */
module Numerals {
  import opened Sequences
  import opened Split

  /** A 32-bit `int`. */
  predicate FitsInt(v: int): (fits: bool)
    ensures fits <==> -2147483648 <= v <= 2147483647
  {
    -0x8000_0000 <= v < 0x8000_0000
  }

  predicate IsDigit(c: char) {
    '0' <= c <= '9'
  }

  predicate AllDigits(s: string) {
    forall i | 0 <= i < |s| :: IsDigit(s[i])
  }

  function DigitValue(c: char): nat
    requires IsDigit(c)
  {
    c as int - '0' as int
  }

  const DIGITS := "0123456789"

  /** The ten digits and their values. */
  lemma DigitsAreDecimal(c: char)
    ensures IsDigit(c) <==> c in DIGITS
    ensures IsDigit(c) ==> DigitValue(c) < 10 && DIGITS[DigitValue(c)] == c
  {
    if IsDigit(c) {
      assert DIGITS[DigitValue(c)] == c;
    }
  }

  function DigitOf(d: nat): (c: char)
    requires d < 10
    ensures IsDigit(c) && DigitValue(c) == d
  {
    ('0' as int + d) as char
  }

  function DigitsOf(n: nat): (s: string)
    ensures s != "" && AllDigits(s) && (s[0] == '0' ==> n == 0 && s == "0")
  {
    if n < 10 then [DigitOf(n)] else DigitsOf(n / 10) + [DigitOf(n % 10)]
  }

  function NatOf(digits: string): nat
    requires AllDigits(digits)
  {
    if digits == "" then 0
    else 10 * NatOf(digits[..|digits| - 1]) + DigitValue(digits[|digits| - 1])
  }

  lemma {:induction false} NatRoundTrip(n: nat)
    ensures NatOf(DigitsOf(n)) == n
    decreases n
  {
    if n < 10 {
      assert [DigitOf(n)][..0] == "";
    } else {
      NatRoundTrip(n / 10);
      assert (DigitsOf(n / 10) + [DigitOf(n % 10)])[..|DigitsOf(n / 10)|] == DigitsOf(n / 10);
    }
  }

  /** The block of digits at the front. */
  function TakeDigits(s: string): (r: Cut)
    ensures r.front + r.rest == s && AllDigits(r.front)
    ensures r.rest != "" ==> !IsDigit(r.rest[0])
  {
    if s == "" || !IsDigit(s[0]) then Cut("", s)
    else
      var r := TakeDigits(s[1..]);
      ConsPrefix(s, r.front, r.rest);
      Cut([s[0]] + r.front, r.rest)
  }

  lemma {:induction false} TakeDigitsIs(digits: string, rest: string)
    requires AllDigits(digits) && (rest == "" || !IsDigit(rest[0]))
    ensures TakeDigits(digits + rest) == Cut(digits, rest)
    decreases |digits|
  {
    if digits == "" {
      assert digits + rest == rest;
    } else {
      assert (digits + rest)[1..] == digits[1..] + rest;
      TakeDigitsIs(digits[1..], rest);
    }
  }

  /** A numeral as it is printed. */
  datatype Numeral = Numeral(negative: bool, whole: string, fraction: string) {
    ghost predicate Valid(mayHaveFraction: bool) {
      whole != "" && AllDigits(whole) && AllDigits(fraction) && (fraction != "" ==> mayHaveFraction)
    }

    function Text(): string {
      if negative then "-" + Unsigned() else Unsigned()
    }

    function Unsigned(): string {
      if fraction == "" then whole else whole + ("." + fraction)
    }

    /** What `stod` reads, and `stoi` where there is no fraction. */
    function Value(): real
      requires AllDigits(whole) && AllDigits(fraction)
    {
      var size := NatOf(whole) as real + FractionOf(fraction);
      if negative then -size else size
    }

    function IntValue(): int
      requires AllDigits(whole)
    {
      var size: int := NatOf(whole);
      if negative then -size else size
    }
  }

  /** The value of digits behind the point. */
  function FractionOf(digits: string): real
    requires AllDigits(digits)
  {
    if digits == "" then 0.0 else (DigitValue(digits[0]) as real + FractionOf(digits[1..])) / 10.0
  }

  /** The number a numeral stands for: moving its point one place to the right multiplies it by ten. */
  ghost function Meaning(n: Numeral): real
    requires AllDigits(n.whole) && AllDigits(n.fraction)
    decreases |n.fraction|
  {
    if n.fraction != "" then Meaning(Numeral(n.negative, n.whole + [n.fraction[0]], n.fraction[1..])) / 10.0
    else if n.negative then -(NatOf(n.whole) as real)
    else NatOf(n.whole) as real
  }

  /** `stod` reads what the numeral stands for. */
  lemma {:induction false} ValueIsMeaning(n: Numeral)
    requires AllDigits(n.whole) && AllDigits(n.fraction)
    ensures n.Value() == Meaning(n)
    decreases |n.fraction|
  {
    if n.fraction != "" {
      var whole := n.whole + [n.fraction[0]];
      assert whole[..|n.whole|] == n.whole;
      ValueIsMeaning(Numeral(n.negative, whole, n.fraction[1..]));
    }
  }

  function IntNumeral(v: int): (n: Numeral)
    ensures n.Valid(false)
  {
    if v < 0 then Numeral(true, DigitsOf(-v), "") else Numeral(false, DigitsOf(v), "")
  }

  lemma IntRoundTrip(v: int)
    ensures IntNumeral(v).IntValue() == v
  {
    NatRoundTrip(if v < 0 then -v else v);
  }

  datatype Match = NoMatch | Match(numeral: Numeral, rest: string)

  /** The match of -?\d+ or, with a fraction, of -?\d+(?:\.\d+)? at the front. */
  function MatchNumeral(s: string, mayHaveFraction: bool): (m: Match)
    ensures m.Match? ==> m.numeral.Valid(mayHaveFraction) && s == m.numeral.Text() + m.rest
  {
    if s != "" && s[0] == '-' then
      var m := MatchUnsigned(s[1..], mayHaveFraction);
      if m.NoMatch? then NoMatch
      else
        assert s == "-" + (m.numeral.Unsigned() + m.rest);
        Match(m.numeral.(negative := true), m.rest)
    else MatchUnsigned(s, mayHaveFraction)
  }

  function MatchUnsigned(s: string, mayHaveFraction: bool): (m: Match)
    ensures m.Match? ==> m.numeral.Valid(mayHaveFraction) && !m.numeral.negative
    ensures m.Match? ==> s == m.numeral.Unsigned() + m.rest
  {
    var whole := TakeDigits(s);
    if whole.front == "" then NoMatch
    else if mayHaveFraction && whole.rest != "" && whole.rest[0] == '.' && TakeDigits(whole.rest[1..]).front != "" then
      var fraction := TakeDigits(whole.rest[1..]);
      assert whole.rest == "." + (fraction.front + fraction.rest);
      assert s == whole.front + ("." + fraction.front) + fraction.rest;
      Match(Numeral(false, whole.front, fraction.front), fraction.rest)
    else Match(Numeral(false, whole.front, ""), whole.rest)
  }

  /** A numeral is matched back whole when nothing that could extend it follows. */
  lemma MatchesBack(n: Numeral, mayHaveFraction: bool, rest: string)
    requires n.Valid(mayHaveFraction)
    requires rest == "" || (!IsDigit(rest[0]) && rest[0] != '.')
    ensures MatchNumeral(n.Text() + rest, mayHaveFraction) == Match(n, rest)
  {
    var u := n.(negative := false);
    UnsignedMatchesBack(u, mayHaveFraction, rest);
    if n.negative {
      Associative("-", u.Unsigned(), rest);
      AfterMinus(u.Unsigned() + rest, mayHaveFraction);
    } else {
      StartsWithDigit(n);
      WithoutMinus(n.Unsigned() + rest, mayHaveFraction);
    }
  }

  lemma AfterMinus(s: string, mayHaveFraction: bool)
    ensures var m := MatchUnsigned(s, mayHaveFraction);
            MatchNumeral("-" + s, mayHaveFraction) ==
            if m.NoMatch? then NoMatch else Match(m.numeral.(negative := true), m.rest)
  {
    assert ("-" + s)[1..] == s;
  }

  lemma WithoutMinus(s: string, mayHaveFraction: bool)
    requires s != "" && IsDigit(s[0])
    ensures MatchNumeral(s, mayHaveFraction) == MatchUnsigned(s, mayHaveFraction)
  {
  }

  lemma StartsWithDigit(n: Numeral)
    requires n.Valid(true)
    ensures n.Unsigned() != "" && IsDigit(n.Unsigned()[0])
  {
  }

  lemma UnsignedMatchesBack(n: Numeral, mayHaveFraction: bool, rest: string)
    requires n.Valid(mayHaveFraction) && !n.negative
    requires rest == "" || (!IsDigit(rest[0]) && rest[0] != '.')
    ensures MatchUnsigned(n.Unsigned() + rest, mayHaveFraction) == Match(n, rest)
  {
    if n.fraction == "" {
      TakeDigitsIs(n.whole, rest);
    } else {
      var tail := "." + (n.fraction + rest);
      assert n.Unsigned() + rest == n.whole + tail;
      TakeDigitsIs(n.whole, tail);
      assert tail[1..] == n.fraction + rest;
      TakeDigitsIs(n.fraction, rest);
    }
  }
}
