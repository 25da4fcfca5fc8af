/** `UppaalSimulationParser`: from the text of a report to expressions, runs and samples. */
module SimulationParser {
  import opened Numerals
  import opened Samples
  import opened Sequences
  import opened SimulationLines
  import opened Split
  import opened Wrappers

  datatype Trace = Trace(number: int, values: seq<Sample>)

  datatype Expression = Expression(name: string, runs: seq<Trace>)

  /** std::out_of_range, from `stoi`, `substr` and `at`; NameNotFoundException. */
  datatype ParseError = OutOfRange | NameNotFound

  /** `std::stringstream` as far as `getline` and `eof` go. */
  class InputStream {
    var rest: string
    var eof: bool

    /** The lines still to come; the last one sets the eof bit. */
    ghost function Lines(): seq<string>
      reads this
    {
      if eof then [] else Parts(rest, '\n')
    }

    constructor (text: string)
      ensures Lines() == Parts(text, '\n') && !eof
    {
      rest, eof := text, false;
    }

    /** `getline`: at the end of the stream it leaves the line as it is. */
    method GetLine(line: string) returns (next: string)
      modifies this
      ensures if old(Lines()) == [] then next == line && Lines() == []
              else next == old(Lines())[0] && Lines() == old(Lines())[1..]
    {
      if eof {
        return line;
      }
      FirstPart(rest, '\n');
      var p := FindChar(rest, '\n', 0);
      if p < 0 {
        next, rest, eof := rest, "", true;
      } else {
        next, rest := rest[..p], rest[p + 1..];
      }
    }
  }

  function SampleOf(token: PairToken): Sample
    requires AllDigits(token.time.whole) && AllDigits(token.time.fraction) && AllDigits(token.value.whole)
  {
    Sample(token.time.Value(), token.value.IntValue())
  }

  type SamplesResult = Result<seq<Sample>, ParseError>

  /** The samples in the pair list of a matched line. */
  ghost function SamplesOf(tokens: seq<PairToken>): SamplesResult
    requires forall i | 0 <= i < |tokens| :: tokens[i].Valid()
  {
    if tokens == [] then Success([])
    else
      assert tokens[0].Valid();
      if !FitsInt(tokens[0].value.IntValue()) then Failure(OutOfRange)
      else PrependSamples([SampleOf(tokens[0])], SamplesOf(tokens[1..]))
  }

  ghost function PrependSamples(first: seq<Sample>, r: SamplesResult): SamplesResult {
    match r
    case Failure(e) => Failure(e)
    case Success(others) => Success(first + others)
  }

  lemma SamplesStep(values: seq<Sample>, tokens: seq<PairToken>)
    requires tokens != [] && forall i | 0 <= i < |tokens| :: tokens[i].Valid()
    ensures PrependSamples(values, SamplesOf(tokens)) ==
            if !FitsInt(tokens[0].value.IntValue()) then Failure(OutOfRange)
            else PrependSamples(values + [SampleOf(tokens[0])], SamplesOf(tokens[1..]))
  {
    var others, first := SamplesOf(tokens[1..]), [SampleOf(tokens[0])];
    if others.Success? {
      Associative(values, first, others.value);
    }
  }

  lemma PairsFirst(pairs: string)
    requires MatchPairs(pairs).Pairs? && pairs != ""
    ensures var m := MatchPair(pairs);
            && m.PairMatch? && MatchPairs(m.rest).Pairs?
            && MatchPairs(pairs).tokens == [m.token] + MatchPairs(m.rest).tokens
  {
  }

  /** The loop with `regex_search`. */
  method ExtractPairs(text: string) returns (r: SamplesResult)
    requires MatchPairs(text).Pairs?
    ensures r == SamplesOf(MatchPairs(text).tokens)
  {
    var pairs := text;
    var values := [];
    NothingBefore(SamplesOf(MatchPairs(text).tokens));
    while SearchPair(pairs).PairMatch?
      invariant MatchPairs(pairs).Pairs?
      invariant PrependSamples(values, SamplesOf(MatchPairs(pairs).tokens)) == SamplesOf(MatchPairs(text).tokens)
      decreases |pairs|
    {
      var m := SearchPair(pairs);
      SearchNothing();
      PairsFirst(pairs);
      SamplesStep(values, MatchPairs(pairs).tokens);
      if !FitsInt(m.token.value.IntValue()) {
        return Failure(OutOfRange);
      }
      values := values + [SampleOf(m.token)];
      pairs := m.rest;
    }
    if pairs != "" {
      PairsFirst(pairs);
    }
    assert values + [] == values;
    return Success(values);
  }

  lemma SearchNothing()
    ensures SearchPair("").NoPair?
  {
  }

  lemma NothingBefore(r: SamplesResult)
    ensures PrependSamples([], r) == r
  {
    if r.Success? {
      assert [] + r.value == r.value;
    }
  }

  /** A parsed value, the line that stopped the parser, and the lines behind it. */
  datatype Parsed<T> = Parsed(value: T, line: string, lines: seq<string>)

  type RunsResult = Result<Parsed<seq<Trace>>, ParseError>

  ghost function PrependRuns(first: seq<Trace>, r: RunsResult): RunsResult {
    match r
    case Failure(e) => Failure(e)
    case Success(p) => Success(p.(value := first + p.value))
  }

  /** What a line means to the loop of `parseValue`. */
  datatype LineRun = NotARun | BadRun(error: ParseError) | GoodRun(run: Trace)

  ghost function RunOfLine(line: string): LineRun {
    var m := MatchLine(line);
    if m.NoLine? then NotARun
    else if !FitsInt(NatOf(m.number)) then BadRun(OutOfRange)
    else
      match SamplesOf(MatchPairs(m.pairs).tokens)
      case Failure(e) => BadRun(e)
      case Success(values) => GoodRun(Trace(NatOf(m.number), values))
  }

  /** The run lines from `line` on. */
  ghost function ParseRuns(line: string, lines: seq<string>): RunsResult
    decreases |lines|
  {
    match RunOfLine(line)
    case NotARun => Success(Parsed([], line, lines))
    case BadRun(e) => Failure(e)
    case GoodRun(run) =>
      if lines == [] then Success(Parsed([run], line, []))
      else PrependRuns([run], ParseRuns(lines[0], lines[1..]))
  }

  lemma RunsStep(runs: seq<Trace>, line: string, lines: seq<string>)
    ensures var l := RunOfLine(line);
            PrependRuns(runs, ParseRuns(line, lines)) ==
            if l.NotARun? then Success(Parsed(runs + [], line, lines))
            else if l.BadRun? then Failure(l.error)
            else if lines == [] then Success(Parsed(runs + [l.run], line, []))
            else PrependRuns(runs + [l.run], ParseRuns(lines[0], lines[1..]))
  {
    var l := RunOfLine(line);
    if l.GoodRun? && lines != [] {
      var others := ParseRuns(lines[0], lines[1..]);
      if others.Success? {
        Associative(runs, [l.run], others.value.value);
      }
    }
  }

  lemma NoRunsBefore(r: RunsResult)
    ensures PrependRuns([], r) == r
  {
    if r.Success? {
      assert [] + r.value.value == r.value.value;
    }
  }

  /** The position after a `getline` whose buffer holds `line`. */
  ghost function NextLine(line: string, lines: seq<string>): string {
    if lines == [] then line else lines[0]
  }

  ghost function RestLines(lines: seq<string>): seq<string> {
    if lines == [] then [] else lines[1..]
  }

  type ValueResult = Result<Parsed<Expression>, ParseError>

  /** `parseValue`: a name line followed by run lines. */
  ghost function ParsedValue(line: string, lines: seq<string>): (r: ValueResult)
    requires line != ""
    ensures r.Success? ==> |r.value.lines| <= |RestLines(lines)|
  {
    ParseRunsShortens(NextLine(line, lines), RestLines(lines));
    match ParseRuns(NextLine(line, lines), RestLines(lines))
    case Failure(e) => Failure(e)
    case Success(p) => Success(Parsed(Expression(line[..|line| - 1], p.value), p.line, p.lines))
  }

  lemma {:induction false} ParseRunsShortens(line: string, lines: seq<string>)
    ensures ParseRuns(line, lines).Success? ==> |ParseRuns(line, lines).value.lines| <= |lines|
    decreases |lines|
  {
    if lines != [] {
      ParseRunsShortens(lines[0], lines[1..]);
    }
  }

  method ParseValue(ss: InputStream, line0: string) returns (r: Result<Expression, ParseError>, line: string)
    requires line0 != ""
    modifies ss
    ensures var p := ParsedValue(line0, old(ss.Lines()));
            if p.Failure? then r == Failure(p.error)
            else r == Success(p.value.value) && line == p.value.line && ss.Lines() == p.value.lines
  {
    var name := line0[..|line0| - 1];
    var runs := [];
    line := ss.GetLine(line0);
    ghost var all := ParseRuns(line, ss.Lines());
    NoRunsBefore(all);
    while MatchLine(line).LineMatch?
      invariant PrependRuns(runs, ParseRuns(line, ss.Lines())) == all
      decreases |ss.Lines()|
    {
      RunsStep(runs, line, ss.Lines());
      var m := MatchLine(line);
      if !FitsInt(NatOf(m.number)) {
        return Failure(OutOfRange), line;
      }
      var values := ExtractPairs(m.pairs);
      if values.Failure? {
        return Failure(values.error), line;
      }
      runs := runs + [Trace(NatOf(m.number), values.value)];
      if ss.eof {
        return Success(Expression(name, runs)), line;
      }
      line := ss.GetLine(line);
    }
    assert runs + [] == runs;
    r := Success(Expression(name, runs));
  }

  type ValuesResult = Result<seq<Expression>, ParseError>

  ghost function PrependValues(first: seq<Expression>, r: ValuesResult): ValuesResult {
    match r
    case Failure(e) => Failure(e)
    case Success(others) => Success(first + others)
  }

  /** The loop of `parse`. */
  ghost function ParseValues(line: string, lines: seq<string>): ValuesResult
    decreases |lines|
  {
    if line == "" then Success([])
    else
      match ParsedValue(line, lines)
      case Failure(e) => Failure(e)
      case Success(p) =>
        if p.lines == [] then Success([p.value]) else PrependValues([p.value], ParseValues(p.line, p.lines))
  }

  lemma ValuesStep(values: seq<Expression>, line: string, lines: seq<string>)
    requires line != ""
    ensures var p := ParsedValue(line, lines);
            PrependValues(values, ParseValues(line, lines)) ==
            if p.Failure? then Failure(p.error)
            else if p.value.lines == [] then Success(values + [p.value.value])
            else PrependValues(values + [p.value.value], ParseValues(p.value.line, p.value.lines))
  {
    var p := ParsedValue(line, lines);
    if p.Success? && p.value.lines != [] {
      var others := ParseValues(p.value.line, p.value.lines);
      if others.Success? {
        Associative(values, [p.value.value], others.value);
      }
    }
  }

  lemma NoValuesBefore(r: ValuesResult)
    ensures PrependValues([], r) == r
  {
    if r.Success? {
      assert [] + r.value == r.value;
    }
  }

  /** `parse` from the lines of the formula's section on: two header lines, then the values. */
  ghost function ParseSection(lines: seq<string>): ValuesResult {
    if |lines| <= 2 then Success([]) else ParseValues(lines[2], lines[3..])
  }

  predicate OccursAt(s: string, text: string, p: int) {
    0 <= p <= |s| - |text| && s[p..p + |text|] == text
  }

  /** `std::string::find` of a text; -1 stands for npos. */
  function FindText(s: string, text: string, from: nat): (p: int)
    ensures p == -1 || (from <= p && OccursAt(s, text, p))
    ensures forall q | from <= q && OccursAt(s, text, q) :: 0 <= p <= q
    decreases |s| - from
  {
    if from + |text| > |s| then -1
    else if OccursAt(s, text, from) then from
    else FindText(s, text, from + 1)
  }

  function HeaderText(n: nat): string {
    "Verifying formula " + DigitsOf(n)
  }

  /** The section of formula n: up to the header of the next formula, if there is one. The length
      handed to `substr` is unsigned: when the next header comes first it wraps to the whole rest. */
  function Section(report: string, n: nat): Result<string, ParseError> {
    var start := FindText(report, HeaderText(n), 0);
    var stop := FindText(report, HeaderText(n + 1), 0);
    if start < 0 then Failure(OutOfRange)
    else if stop < start then Success(report[start..])
    else Success(report[start..stop])
  }

  method Parse(report: string, n: nat) returns (r: ValuesResult)
    ensures var formula := Section(report, n);
            r == if formula.Failure? then Failure(formula.error) else ParseSection(Parts(formula.value, '\n'))
  {
    var formula := Section(report, n);
    if formula.Failure? {
      return Failure(formula.error);
    }
    var ss := new InputStream(formula.value);
    var line := ss.GetLine("");
    line := ss.GetLine(line);
    if ss.eof {
      return Success([]);
    }
    line := ss.GetLine(line);
    r := ParseAllValues(ss, line);
  }

  /** The loop of `parse`. */
  method ParseAllValues(ss: InputStream, line0: string) returns (r: ValuesResult)
    modifies ss
    ensures r == ParseValues(line0, old(ss.Lines()))
  {
    var line := line0;
    var values := [];
    ghost var all := ParseValues(line, ss.Lines());
    NoValuesBefore(all);
    while |line| > 0
      invariant PrependValues(values, ParseValues(line, ss.Lines())) == all
      decreases |ss.Lines()|, |line|
    {
      ValuesStep(values, line, ss.Lines());
      var value;
      value, line := ParseValue(ss, line);
      if value.Failure? {
        return Failure(value.error);
      }
      values := values + [value.value];
      if ss.eof {
        return Success(values);
      }
    }
    assert values + [] == values;
    return Success(values);
  }

  /** `findFirstRunAsQueue`. */
  function FindFirstRun(values: seq<Expression>, name: string): SamplesResult {
    if values == [] then Failure(NameNotFound)
    else if values[0].name == name then
      if values[0].runs == [] then Failure(OutOfRange) else Success(values[0].runs[0].values)
    else FindFirstRun(values[1..], name)
  }
}
