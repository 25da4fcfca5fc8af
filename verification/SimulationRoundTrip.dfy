/** Parsing undoes printing: a printed section of a report is parsed back to what it means. */
module SimulationRoundTrip {
  import opened Numerals
  import opened Samples
  import opened Sequences
  import opened SimulationLines
  import opened SimulationParser
  import opened Split
  import opened Wrappers

  ghost predicate PrintableRun(run: PrintedRun) {
    && FitsInt(run.number)
    && forall i | 0 <= i < |run.pairs| :: run.pairs[i].time.Valid(true) && FitsInt(run.pairs[i].value)
  }

  ghost predicate GoodExpression(e: PrintedExpression) {
    && GoodName(e.name)
    && forall i | 0 <= i < |e.runs| :: PrintableRun(e.runs[i])
  }

  ghost predicate GoodExpressions(es: seq<PrintedExpression>) {
    forall i | 0 <= i < |es| :: GoodExpression(es[i])
  }

  /** What the printed pairs, runs and expressions mean. */
  ghost function MeantSamples(pairs: seq<PrintedPair>): seq<Sample>
    requires forall i | 0 <= i < |pairs| :: pairs[i].time.Valid(true)
  {
    if pairs == [] then []
    else
      assert pairs[0].time.Valid(true);
      [Sample(Meaning(pairs[0].time), pairs[0].value)] + MeantSamples(pairs[1..])
  }

  ghost function MeantRuns(runs: seq<PrintedRun>): seq<Trace>
    requires forall i | 0 <= i < |runs| :: PrintableRun(runs[i])
  {
    if runs == [] then []
    else
      assert PrintableRun(runs[0]);
      [Trace(runs[0].number, MeantSamples(runs[0].pairs))] + MeantRuns(runs[1..])
  }

  ghost function Meant(es: seq<PrintedExpression>): seq<Expression>
    requires GoodExpressions(es)
  {
    if es == [] then []
    else
      assert GoodExpression(es[0]);
      [Expression(es[0].name, MeantRuns(es[0].runs))] + Meant(es[1..])
  }

  ghost function RunLines(runs: seq<PrintedRun>): seq<string> {
    if runs == [] then [] else [RunLine(runs[0])] + RunLines(runs[1..])
  }

  ghost function BodyLines(es: seq<PrintedExpression>): seq<string> {
    if es == [] then [] else [es[0].name + ":"] + (RunLines(es[0].runs) + BodyLines(es[1..]))
  }

  lemma {:induction false} SamplesBack(pairs: seq<PrintedPair>)
    requires forall i | 0 <= i < |pairs| :: pairs[i].time.Valid(true) && FitsInt(pairs[i].value)
    ensures SamplesOf(Tokens(pairs)) == Success(MeantSamples(pairs))
    decreases |pairs|
  {
    if pairs != [] {
      IntRoundTrip(pairs[0].value);
      ValueIsMeaning(pairs[0].time);
      SamplesBack(pairs[1..]);
      assert Tokens(pairs)[1..] == Tokens(pairs[1..]);
      assert Tokens(pairs)[0] == pairs[0].Token();
    }
  }

  /** The samples of any pair list: one for each pair, with the number that stands in the text, unless a
      value is too large for an int. */
  lemma {:induction false} SamplesExactly(tokens: seq<PairToken>)
    requires forall i | 0 <= i < |tokens| :: tokens[i].Valid()
    ensures var r := SamplesOf(tokens);
            if forall i | 0 <= i < |tokens| :: -2147483648 <= tokens[i].value.IntValue() <= 2147483647 then
              && r.Success? && |r.value| == |tokens|
              && forall i | 0 <= i < |tokens| ::
                   r.value[i] == Sample(Meaning(tokens[i].time), tokens[i].value.IntValue())
            else r == Failure(OutOfRange)
    decreases |tokens|
  {
    if tokens != [] {
      SamplesExactly(tokens[1..]);
      ValueIsMeaning(tokens[0].time);
      assert tokens[0].Valid();
      assert forall i | 1 <= i < |tokens| :: tokens[i] == tokens[1..][i - 1];
    }
  }

  lemma RunLineBack(run: PrintedRun)
    requires PrintableRun(run)
    ensures RunOfLine(RunLine(run)) == GoodRun(Trace(run.number, MeantSamples(run.pairs)))
  {
    var tokens := Tokens(run.pairs);
    forall token | token in tokens
      ensures token.Valid()
    {
      var i :| 0 <= i < |tokens| && tokens[i] == token;
      assert run.pairs[i].time.Valid(true);
    }
    LineMatchesBack(DigitsOf(run.number), tokens);
    PairsMatchBack(tokens);
    NatRoundTrip(run.number);
    SamplesBack(run.pairs);
  }

  const EXAMPLE := PrintedRun(7, [PrintedPair(Numeral(false, "2", "5"), -12)])

  /** One line in full: the time 2.5 is two and a half, and the value -12 is minus twelve. */
  lemma RunLineExample(run: PrintedRun, line: string)
    requires run == EXAMPLE && line == "[7]: (2.5,-12)"
    ensures RunOfLine(line) == GoodRun(Trace(7, [Sample(2.5, -12)]))
  {
    ExampleIsPrinted();
    ExampleMeans(run);
    RunLineBack(run);
  }

  lemma ExampleMeans(run: PrintedRun)
    requires run == EXAMPLE
    ensures PrintableRun(run) && run.number == 7 && MeantSamples(run.pairs) == [Sample(2.5, -12)]
  {
    MeaningExample();
    assert run.pairs[1..] == [];
    assert MeantSamples(run.pairs[1..]) == [];
  }

  lemma ExampleIsPrinted()
    ensures RunLine(EXAMPLE) == "[7]: (2.5,-12)"
  {
    TwelveIsPrinted();
    var tokens := Tokens(EXAMPLE.pairs);
    assert tokens[0] == PairToken(Numeral(false, "2", "5"), Numeral(true, "12", "")) && tokens[1..] == [];
    assert PairsText(tokens) == PairText(tokens[0], "") == " (2.5,-12)";
  }

  lemma TwelveIsPrinted()
    ensures DigitsOf(7) == "7" && DigitsOf(12) == "12"
  {
    assert DigitsOf(1) == "1" && DigitsOf(12) == DigitsOf(1) + "2";
  }

  lemma MeaningExample()
    ensures Meaning(Numeral(false, "2", "5")) == 2.5
  {
    var moved := Numeral(false, "2" + ['5'], "5"[1..]);
    assert "5"[1..] == "" && "2" + ['5'] == "25";
    assert "25"[..1] == "2" && "2"[..0] == "";
    assert NatOf("2") == 2 && NatOf("25") == 25;
    assert Meaning(moved) == 25.0;
  }

  /** The lines behind a value end its runs. */
  ghost predicate EndsRuns(tail: seq<string>) {
    tail == [] || RunOfLine(tail[0]).NotARun?
  }

  /** The runs are read, and the parser stops at the line behind them. */
  ghost predicate ReadsRuns(r: RunsResult, runs: seq<Trace>, tail: seq<string>) {
    && r.Success? && r.value.value == runs && r.value.lines == RestLines(tail)
    && (tail != [] ==> r.value.line == tail[0])
  }

  lemma OneMoreRun(run: Trace, line: string, lines: seq<string>, runs: seq<Trace>, tail: seq<string>)
    requires RunOfLine(line) == GoodRun(run)
    requires if lines == [] then runs == [] && tail == [] else ReadsRuns(ParseRuns(lines[0], lines[1..]), runs, tail)
    ensures ReadsRuns(ParseRuns(line, lines), [run] + runs, tail)
  {
  }

  /** Printed runs are read back, and the parser stops at the line behind them. */
  lemma {:induction false} RunsBack(runs: seq<PrintedRun>, tail: seq<string>)
    requires forall i | 0 <= i < |runs| :: PrintableRun(runs[i])
    requires EndsRuns(tail)
    ensures var all := RunLines(runs) + tail;
            all != [] ==> ReadsRuns(ParseRuns(all[0], all[1..]), MeantRuns(runs), tail)
    decreases |runs|
  {
    if runs == [] {
      NoMoreRuns(tail);
    } else {
      RunsBack(runs[1..], tail);
      assert PrintableRun(runs[0]);
      var others := RunLines(runs[1..]) + tail;
      FirstRunBack(runs[0], RunLines(runs[1..]), tail);
      if others == [] {
        NoRunsLeft(runs[1..]);
      }
      var run := Trace(runs[0].number, MeantSamples(runs[0].pairs));
      OneMoreRun(run, RunLine(runs[0]), others, MeantRuns(runs[1..]), tail);
    }
  }

  lemma FirstRunBack(run: PrintedRun, lines: seq<string>, tail: seq<string>)
    requires PrintableRun(run)
    ensures var all := [RunLine(run)] + lines + tail; all[0] == RunLine(run) && all[1..] == lines + tail
    ensures RunOfLine(RunLine(run)) == GoodRun(Trace(run.number, MeantSamples(run.pairs)))
  {
    RunLineBack(run);
    Associative([RunLine(run)], lines, tail);
    SameHead(RunLine(run), lines + tail, [RunLine(run)] + lines + tail);
  }

  lemma NoMoreRuns(tail: seq<string>)
    requires EndsRuns(tail)
    ensures var all := [] + tail; all != [] ==> ReadsRuns(ParseRuns(all[0], all[1..]), [], tail)
  {
    assert [] + tail == tail;
  }

  lemma NoRunsLeft(runs: seq<PrintedRun>)
    ensures RunLines(runs) == [] <==> runs == []
  {
  }

  /** The value is read, and the parser stops at the line behind it. */
  ghost predicate ReadsValue(r: ValueResult, e: Expression, tail: seq<string>) {
    && r.Success? && r.value.value == e && r.value.lines == RestLines(tail)
    && (tail != [] ==> r.value.line == tail[0])
  }

  lemma ValueBack(e: PrintedExpression, tail: seq<string>)
    requires GoodExpression(e) && EndsRuns(tail)
    ensures ReadsValue(ParsedValue(e.name + ":", RunLines(e.runs) + tail), Expression(e.name, MeantRuns(e.runs)), tail)
  {
    var line, lines := e.name + ":", RunLines(e.runs) + tail;
    assert line[..|line| - 1] == e.name;
    if lines == [] {
      NoRunsLeft(e.runs);
    } else {
      RunsBack(e.runs, tail);
    }
  }

  lemma OneMoreValue(line: string, lines: seq<string>, e: Expression, tail: seq<string>)
    requires line != "" && ReadsValue(ParsedValue(line, lines), e, tail)
    ensures ParseValues(line, lines) ==
            if |tail| <= 1 || tail[0] == "" then Success([e]) else PrependValues([e], ParseValues(tail[0], tail[1..]))
  {
    if |tail| > 1 && tail[0] == "" {
      assert [e] + [] == [e];
    }
  }

  /** The last expression is lost when it is printed without runs and without a final newline, as
      its name line is then also the line that ends the input. */
  ghost predicate LosesLast(es: seq<PrintedExpression>, tail: seq<string>) {
    tail == [] && |es| >= 2 && es[|es| - 1].runs == []
  }

  ghost function Kept(es: seq<PrintedExpression>, tail: seq<string>): seq<PrintedExpression> {
    if LosesLast(es, tail) then es[..|es| - 1] else es
  }

  lemma {:induction false} ValuesBack(es: seq<PrintedExpression>, tail: seq<string>)
    requires es != [] && GoodExpressions(es) && (tail == [] || tail[0] == "")
    ensures ParseValues(es[0].name + ":", RunLines(es[0].runs) + (BodyLines(es[1..]) + tail))
            == Success(Meant(Kept(es, tail)))
    decreases |es|
  {
    var others := es[1..];
    var behind := BodyLines(others) + tail;
    BehindEndsRuns(others, tail);
    ValueStep(es[0], behind);
    if others == [] {
      assert behind == tail;
      MeantSingle(es);
    } else {
      MeantKept(es, tail);
      BehindSecond(others, tail);
      if |behind| > 1 {
        ValuesBack(others, tail);
      } else {
        assert |es| == 2 && es[1] == others[0];
        assert [MeantOne(es[0])] + [] == [MeantOne(es[0])];
      }
    }
  }

  lemma ValueStep(e: PrintedExpression, behind: seq<string>)
    requires GoodExpression(e) && EndsRuns(behind)
    ensures ParseValues(e.name + ":", RunLines(e.runs) + behind) ==
            if |behind| <= 1 || behind[0] == "" then Success([MeantOne(e)])
            else PrependValues([MeantOne(e)], ParseValues(behind[0], behind[1..]))
  {
    ValueBack(e, behind);
    OneMoreValue(e.name + ":", RunLines(e.runs) + behind, MeantOne(e), behind);
  }

  /** The lines of the remaining expressions: only a last expression without runs leaves one line. */
  lemma BehindSecond(es: seq<PrintedExpression>, tail: seq<string>)
    requires es != []
    ensures var behind := BodyLines(es) + tail;
            && behind != [] && behind[0] == es[0].name + ":" && behind[0] != ""
            && behind[1..] == RunLines(es[0].runs) + (BodyLines(es[1..]) + tail)
            && (|behind| <= 1 <==> |es| == 1 && es[0].runs == [] && tail == [])
  {
    var rest := RunLines(es[0].runs) + (BodyLines(es[1..]) + tail);
    BodyFirst(es, tail);
    SameHead(es[0].name + ":", rest, BodyLines(es) + tail);
    NoRunsLeft(es[0].runs);
    NothingBehind(es[1..], tail);
  }

  ghost function MeantOne(e: PrintedExpression): Expression
    requires GoodExpression(e)
  {
    Expression(e.name, MeantRuns(e.runs))
  }

  lemma MeantSingle(es: seq<PrintedExpression>)
    requires |es| == 1 && GoodExpressions(es)
    ensures GoodExpression(es[0]) && Meant(es) == [MeantOne(es[0])]
  {
    assert es[1..] == [];
    assert Meant(es[1..]) == [];
  }

  lemma MeantKept(es: seq<PrintedExpression>, tail: seq<string>)
    requires |es| >= 2 && GoodExpressions(es)
    ensures GoodExpression(es[0]) && GoodExpressions(Kept(es, tail)) && GoodExpressions(Kept(es[1..], tail))
    ensures Meant(Kept(es, tail)) ==
            [MeantOne(es[0])] + (if |es| == 2 && LosesLast(es, tail) then [] else Meant(Kept(es[1..], tail)))
  {
    KeptFirst(es, tail);
    if |es| == 2 && LosesLast(es, tail) {
      MeantSingle(Kept(es, tail));
    } else {
      SameHead(es[0], Kept(es[1..], tail), Kept(es, tail));
    }
  }

  /** The first line of the body, and the lines behind it. */
  lemma BodyFirst(es: seq<PrintedExpression>, tail: seq<string>)
    requires es != []
    ensures BodyLines(es) + tail == [es[0].name + ":"] + (RunLines(es[0].runs) + (BodyLines(es[1..]) + tail))
  {
    var name, runs, others := [es[0].name + ":"], RunLines(es[0].runs), BodyLines(es[1..]);
    Associative(name, runs + others, tail);
    Associative(runs, others, tail);
  }

  lemma BehindEndsRuns(es: seq<PrintedExpression>, tail: seq<string>)
    requires GoodExpressions(es) && (tail == [] || tail[0] == "")
    ensures EndsRuns(BodyLines(es) + tail)
  {
    if es == [] {
      assert BodyLines(es) + tail == tail;
    } else {
      assert GoodExpression(es[0]);
      BodyFirst(es, tail);
    }
  }

  lemma NothingBehind(es: seq<PrintedExpression>, tail: seq<string>)
    ensures BodyLines(es) + tail == [] <==> es == [] && tail == []
  {
  }

  lemma KeptFirst(es: seq<PrintedExpression>, tail: seq<string>)
    requires |es| >= 2 && GoodExpressions(es)
    ensures GoodExpressions(Kept(es, tail))
    ensures if |es| == 2 && LosesLast(es, tail) then Kept(es, tail) == [es[0]]
            else Kept(es, tail) == [es[0]] + Kept(es[1..], tail)
  {
    WithoutLast(es);
  }

  /** The lines of a section: two header lines, the values, and what follows them. */
  ghost function SectionLines(header: string, status: string, es: seq<PrintedExpression>, tail: seq<string>)
    : seq<string>
  {
    [header, status] + (BodyLines(es) + tail)
  }

  lemma SectionBack(header: string, status: string, es: seq<PrintedExpression>, tail: seq<string>)
    requires GoodExpressions(es) && (tail == [] || tail[0] == "")
    ensures ParseSection(SectionLines(header, status, es, tail)) == Success(Meant(Kept(es, tail)))
  {
    var lines := SectionLines(header, status, es, tail);
    var body := BodyLines(es) + tail;
    Behind(header, status, body);
    if es != [] {
      BodyFirst(es, tail);
      ValuesBack(es, tail);
      SameHead(es[0].name + ":", RunLines(es[0].runs) + (BodyLines(es[1..]) + tail), body);
    } else {
      assert body == tail;
    }
  }

  lemma Behind<T>(a: T, b: T, body: seq<T>)
    ensures var lines := [a, b] + body;
            |lines| == |body| + 2 && (body != [] ==> lines[2] == body[0] && lines[3..] == body[1..])
  {
  }

  /** The report holds the expressions as section n, printed line by line. The section may end with
      the input (tail == [] or [""]), with a blank line, or with the next header; the two headers
      occur first where they belong. */
  ghost predicate IsPrinted(report: string, before: string, n: nat, header: string, status: string,
                            es: seq<PrintedExpression>, tail: seq<string>, after: string) {
    && GoodExpressions(es) && (tail == [] || tail[0] == "")
    && (forall line <- SectionLines(header, status, es, tail) :: '\n' !in line)
    && var text, name := Join(SectionLines(header, status, es, tail), '\n'), "Verifying formula ";
       && report == before + text + after
       && FindText(report, name + DigitsOf(n), 0) == |before|
       && FindText(report, name + DigitsOf(n + 1), 0) == (if after == "" then -1 else |before| + |text|)
  }

  /** Print and parse: a printed section is parsed back to the same names, run numbers and samples. The
      one exception is a last expression without runs at an input that lacks its final newline. */
  lemma ParseUndoesPrint(report: string, before: string, n: nat, header: string, status: string,
                         es: seq<PrintedExpression>, tail: seq<string>, after: string)
    requires IsPrinted(report, before, n, header, status, es, tail, after)
    ensures Section(report, n).Success?
    ensures ParseSection(Parts(Section(report, n).value, '\n')) == Success(Meant(Kept(es, tail)))
    ensures Meant(Kept(es, tail)) == Meant(es) <==> !LosesLast(es, tail)
  {
    var lines := SectionLines(header, status, es, tail);
    SectionIsCut(report, before, n, Join(lines, '\n'), after);
    SplitJoin(lines, '\n');
    SectionBack(header, status, es, tail);
    MeantLength(es);
    MeantLength(Kept(es, tail));
  }

  /** The text occurs first at p; for -1 it does not occur. */
  ghost predicate OccursFirstAt(s: string, text: string, p: int) {
    && (p == -1 || OccursAt(s, text, p))
    && forall q | OccursAt(s, text, q) :: 0 <= p <= q
  }

  lemma FoundFirst(s: string, text: string, p: int)
    requires OccursFirstAt(s, text, p)
    ensures FindText(s, text, 0) == p
  {
  }

  /** The section of any report: from the first header of the formula to the first header of the next,
      or to the end when there is none behind it; without a header it is out_of_range. */
  lemma SectionExactly(report: string, n: nat, p: int, q: int)
    requires OccursFirstAt(report, "Verifying formula " + DigitsOf(n), p)
    requires OccursFirstAt(report, "Verifying formula " + DigitsOf(n + 1), q)
    ensures Section(report, n) ==
            if p == -1 then Failure(OutOfRange)
            else if q < p then Success(report[p..])
            else Success(report[p..q])
  {
    FoundFirst(report, HeaderText(n), p);
    FoundFirst(report, HeaderText(n + 1), q);
  }

  lemma SectionIsCut(report: string, before: string, n: nat, text: string, after: string)
    requires report == before + text + after
    requires FindText(report, HeaderText(n), 0) == |before|
    requires FindText(report, HeaderText(n + 1), 0) == (if after == "" then -1 else |before| + |text|)
    ensures Section(report, n) == Success(text)
  {
    CutOut(before, text, after);
  }

  lemma CutOut(before: string, text: string, after: string)
    ensures var report := before + text + after;
            && report[|before|..|before| + |text|] == text
            && (after == "" ==> report[|before|..] == text)
  {
  }

  lemma {:induction false} MeantLength(es: seq<PrintedExpression>)
    requires GoodExpressions(es)
    ensures |Meant(es)| == |es|
    decreases |es|
  {
    if es != [] {
      MeantLength(es[1..]);
    }
  }
}
