/** The lines of a simulation report: the two regular expressions of `parseValue`, and the lines as
    verifyta prints them. */
module SimulationLines {
  import opened Numerals

  /** A (time,value) pair as it stands in the text. */
  datatype PairToken = PairToken(time: Numeral, value: Numeral) {
    ghost predicate Valid() {
      time.Valid(true) && value.Valid(false)
    }
  }

  /** A numeral followed by a character, and then the rest. */
  function Field(n: Numeral, close: char, rest: string): string {
    n.Text() + ([close] + rest)
  }

  function PairText(token: PairToken, rest: string): string {
    " (" + Field(token.time, ',', Field(token.value, ')', rest))
  }

  function MatchField(s: string, mayHaveFraction: bool, close: char): (m: Match)
    ensures m.Match? ==> m.numeral.Valid(mayHaveFraction) && s == Field(m.numeral, close, m.rest)
  {
    var m := MatchNumeral(s, mayHaveFraction);
    if m.NoMatch? || m.rest == "" || m.rest[0] != close then NoMatch
    else
      assert m.rest == [close] + m.rest[1..];
      Match(m.numeral, m.rest[1..])
  }

  lemma FieldMatchesBack(n: Numeral, mayHaveFraction: bool, close: char, rest: string)
    requires n.Valid(mayHaveFraction) && !IsDigit(close) && close != '.'
    ensures MatchField(Field(n, close, rest), mayHaveFraction, close) == Match(n, rest)
  {
    MatchesBack(n, mayHaveFraction, [close] + rest);
    assert ([close] + rest)[1..] == rest;
  }

  datatype PairMatch = NoPair | PairMatch(token: PairToken, rest: string)

  /** The match of pair_pattern at the front of the text. */
  function MatchPair(s: string): (m: PairMatch)
    ensures m.PairMatch? ==> m.token.Valid() && s == PairText(m.token, m.rest)
  {
    if |s| < 2 || s[..2] != " (" then NoPair
    else
      var time := MatchField(s[2..], true, ',');
      if time.NoMatch? then NoPair
      else
        var value := MatchField(time.rest, false, ')');
        if value.NoMatch? then NoPair
        else
          assert s == " (" + s[2..];
          PairMatch(PairToken(time.numeral, value.numeral), value.rest)
  }

  lemma PairMatchesBack(token: PairToken, rest: string)
    requires token.Valid()
    ensures MatchPair(PairText(token, rest)) == PairMatch(token, rest)
  {
    var afterTime := Field(token.value, ')', rest);
    var fields := Field(token.time, ',', afterTime);
    assert PairText(token, rest)[..2] == " (" && PairText(token, rest)[2..] == fields;
    FieldMatchesBack(token.time, true, ',', afterTime);
    FieldMatchesBack(token.value, false, ')', rest);
  }

  function PairsText(tokens: seq<PairToken>): string {
    if tokens == [] then "" else PairText(tokens[0], PairsText(tokens[1..]))
  }

  datatype PairsMatch = NotPairs | Pairs(tokens: seq<PairToken>)

  /** The second group of line_pattern: nothing but pairs. */
  function MatchPairs(s: string): (m: PairsMatch)
    ensures m.Pairs? ==> PairsText(m.tokens) == s && forall token <- m.tokens :: token.Valid()
    decreases |s|
  {
    if s == "" then Pairs([])
    else
      match MatchPair(s)
      case NoPair => NotPairs
      case PairMatch(token, rest) =>
        var others := MatchPairs(rest);
        if others.NotPairs? then NotPairs
        else
          assert ([token] + others.tokens)[1..] == others.tokens;
          Pairs([token] + others.tokens)
  }

  /** With the contract of MatchPairs: it recognises exactly the texts of lists of pairs. */
  lemma {:induction false} PairsMatchBack(tokens: seq<PairToken>)
    requires forall token <- tokens :: token.Valid()
    ensures MatchPairs(PairsText(tokens)) == Pairs(tokens)
    decreases |tokens|
  {
    if tokens != [] {
      PairsMatchBack(tokens[1..]);
      FirstPairMatchesBack(tokens[0], tokens[1..]);
      assert tokens == [tokens[0]] + tokens[1..];
    }
  }

  lemma FirstPairMatchesBack(token: PairToken, others: seq<PairToken>)
    requires token.Valid() && MatchPairs(PairsText(others)) == Pairs(others)
    ensures MatchPairs(PairText(token, PairsText(others))) == Pairs([token] + others)
  {
    PairMatchesBack(token, PairsText(others));
  }

  function LineText(number: string, pairs: string): string {
    "[" + (number + ("]:" + pairs))
  }

  datatype LineMatch = NoLine | LineMatch(number: string, pairs: string)

  lemma FirstTwo(s: string)
    requires |s| >= 2
    ensures s == [s[0], s[1]] + s[2..]
  {
  }

  /** The pattern behind the opening bracket. */
  function MatchAfterBracket(s: string): (m: LineMatch)
    ensures m.LineMatch? ==>
              && m.number != "" && AllDigits(m.number)
              && MatchPairs(m.pairs).Pairs?
              && s == m.number + ("]:" + m.pairs)
  {
    var digits := TakeDigits(s);
    if digits.front == "" || |digits.rest| < 2 || digits.rest[0] != ']' || digits.rest[1] != ':' then NoLine
    else
      var pairs := digits.rest[2..];
      FirstTwo(digits.rest);
      if MatchPairs(pairs).NotPairs? then NoLine else LineMatch(digits.front, pairs)
  }

  /** `regex_match` of a whole line with line_pattern. */
  function MatchLine(line: string): (m: LineMatch)
    ensures m.LineMatch? ==>
              && m.number != "" && AllDigits(m.number)
              && MatchPairs(m.pairs).Pairs?
              && line == LineText(m.number, m.pairs)
  {
    if line == "" || line[0] != '[' then NoLine
    else
      assert line == "[" + line[1..];
      MatchAfterBracket(line[1..])
  }

  lemma LineMatchesBack(number: string, tokens: seq<PairToken>)
    requires number != "" && AllDigits(number) && forall token <- tokens :: token.Valid()
    ensures MatchLine(LineText(number, PairsText(tokens))) == LineMatch(number, PairsText(tokens))
  {
    var tail := "]:" + PairsText(tokens);
    var line := "[" + (number + tail);
    assert line[1..] == number + tail;
    TakeDigitsIs(number, tail);
    assert tail[..2] == "]:" && tail[2..] == PairsText(tokens);
    PairsMatchBack(tokens);
  }

  /** The loop with `regex_search`: the first match in the text. */
  function SearchPair(s: string): (m: PairMatch)
    ensures m.PairMatch? ==> |m.rest| < |s|
    decreases |s|
  {
    if MatchPair(s).PairMatch? then MatchPair(s)
    else if s == "" then NoPair
    else SearchPair(s[1..])
  }

  /** A run and an expression as verifyta prints them. */
  datatype PrintedPair = PrintedPair(time: Numeral, value: int) {
    function Token(): PairToken {
      PairToken(time, IntNumeral(value))
    }
  }

  datatype PrintedRun = PrintedRun(number: nat, pairs: seq<PrintedPair>)

  datatype PrintedExpression = PrintedExpression(name: string, runs: seq<PrintedRun>)

  function Tokens(pairs: seq<PrintedPair>): (tokens: seq<PairToken>)
    ensures |tokens| == |pairs| && forall i | 0 <= i < |pairs| :: tokens[i] == pairs[i].Token()
  {
    seq(|pairs|, i requires 0 <= i < |pairs| => pairs[i].Token())
  }

  function RunLine(run: PrintedRun): string {
    LineText(DigitsOf(run.number), PairsText(Tokens(run.pairs)))
  }

  /** The names that a line of their own cannot be taken for a run: not of the form [digits]. */
  ghost predicate GoodName(name: string) {
    MatchLine(name + ":").NoLine?
  }

  ghost predicate IsBracketedNumber(name: string) {
    exists digits: string :: digits != "" && AllDigits(digits) && name == "[" + (digits + "]")
  }

  /** In plain words: exactly the names `[digits]` are not good. */
  lemma GoodNames(name: string)
    ensures GoodName(name) <==> !IsBracketedNumber(name)
  {
    if IsBracketedNumber(name) {
      var digits: string :| digits != "" && AllDigits(digits) && name == "[" + (digits + "]");
      assert name + ":" == LineText(digits, PairsText([]));
      LineMatchesBack(digits, []);
    }
    var m := MatchLine(name + ":");
    if m.LineMatch? {
      PairsTextEnds(MatchPairs(m.pairs).tokens);
      NameOfLine(name, m.number, m.pairs);
    }
  }

  lemma NameOfLine(name: string, number: string, pairs: string)
    requires name + ":" == LineText(number, pairs)
    requires pairs != "" ==> pairs[|pairs| - 1] == ')'
    ensures name == "[" + (number + "]")
  {
    LastOf("[" + (number + "]:"), pairs);
    assert LineText(number, pairs) == "[" + (number + "]:") + pairs;
    LastOf(name, ":");
    assert pairs == "";
    assert name + ":" == "[" + (number + "]") + ":";
    assert name == (name + ":")[..|name|];
  }

  lemma LastOf(a: string, b: string)
    ensures b != "" ==> (a + b)[|a + b| - 1] == b[|b| - 1]
  {
  }

  lemma {:induction false} PairsTextEnds(tokens: seq<PairToken>)
    ensures PairsText(tokens) != "" ==> PairsText(tokens)[|PairsText(tokens)| - 1] == ')'
    decreases |tokens|
  {
    if tokens != [] {
      PairsTextEnds(tokens[1..]);
      var rest := PairsText(tokens[1..]);
      LastOf(" (", Field(tokens[0].time, ',', Field(tokens[0].value, ')', rest)));
      LastOf(tokens[0].time.Text(), "," + Field(tokens[0].value, ')', rest));
      LastOf(",", Field(tokens[0].value, ')', rest));
      LastOf(tokens[0].value.Text(), ")" + rest);
      LastOf(")", rest);
    }
  }
}
