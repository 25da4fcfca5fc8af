/** `start_worker` of the two schedulers: from the report of verifyta to a schedule. */
module Schedulers {
  import opened Samples
  import opened Sequences
  import opened SimulationLines
  import opened SimulationParser
  import opened SimulationRoundTrip
  import opened Split
  import opened StationIndex
  import opened Wrappers
  import F = StationFirstStop
  import P = StationSchedule
  import Q = StationNetwork
  import N = WaypointNetwork
  import R = WaypointRoute
  import S = WaypointSchedule
  import T = StationTour

  const CUR := "Robot.cur_waypoint"
  const DEST := "Robot.dest_waypoint"
  const HOLDING := "Robot.Holding"
  const CONVERTED_DEST := "Robot.converted_dest()"

  /** An exception, or what `convert_result` does with the traces it finds; None is its undefined
      behaviour on an empty queue. */
  type Outcome<T> = Result<Option<T>, ParseError>

  ghost function ParsedReport(report: string, n: nat): ValuesResult {
    var formula := Section(report, n);
    if formula.Failure? then Failure(formula.error) else ParseSection(Parts(formula.value, '\n'))
  }

  ghost function RouteOf(values: seq<Expression>): Outcome<seq<S.Action>> {
    var cur, dest, hold := FindFirstRun(values, CUR), FindFirstRun(values, DEST), FindFirstRun(values, HOLDING);
    if cur.Failure? then Failure(cur.error)
    else if dest.Failure? then Failure(dest.error)
    else if hold.Failure? then Failure(hold.error)
    else Success(S.Schedule(cur.value, dest.value, hold.value))
  }

  ghost function RouteOfReport(report: string): Outcome<seq<S.Action>> {
    var values := ParsedReport(report, 2);
    if values.Failure? then Failure(values.error) else RouteOf(values.value)
  }

  method ScheduleWaypoints(report: string) returns (r: Outcome<seq<S.Action>>)
    ensures r == RouteOfReport(report)
  {
    var values := Parse(report, 2);
    if values.Failure? {
      return Failure(values.error);
    }
    var cur := FindFirstRun(values.value, CUR);
    if cur.Failure? {
      return Failure(cur.error);
    }
    var dest := FindFirstRun(values.value, DEST);
    if dest.Failure? {
      return Failure(dest.error);
    }
    var hold := FindFirstRun(values.value, HOLDING);
    if hold.Failure? {
      return Failure(hold.error);
    }
    var schedule := S.ConvertResult(cur.value, dest.value, hold.value);
    return Success(schedule);
  }

  ghost function TourOf(values: seq<Expression>): Outcome<seq<int>> {
    var dest := FindFirstRun(values, CONVERTED_DEST);
    if dest.Failure? then Failure(dest.error)
    else if dest.value == [] then Success(None)
    else Success(Some(Destutter(Values(dest.value))[1..]))
  }

  ghost function TourOfReport(report: string): Outcome<seq<int>> {
    var values := ParsedReport(report, 2);
    if values.Failure? then Failure(values.error) else TourOf(values.value)
  }

  method ScheduleStations(report: string) returns (r: Outcome<seq<int>>)
    ensures r == TourOfReport(report)
  {
    var values := Parse(report, 2);
    if values.Failure? {
      return Failure(values.error);
    }
    var dest := FindFirstRun(values.value, CONVERTED_DEST);
    if dest.Failure? {
      return Failure(dest.error);
    }
    var schedule := P.ConvertResult(dest.value);
    return Success(schedule);
  }

  /** The first expression of this name is printed with the samples as its first run. */
  ghost predicate Shows(es: seq<PrintedExpression>, name: string, samples: seq<Sample>)
    requires GoodExpressions(es)
  {
    es != [] && if es[0].name == name then FirstRunIs(es[0], samples) else Shows(es[1..], name, samples)
  }

  ghost predicate FirstRunIs(e: PrintedExpression, samples: seq<Sample>)
    requires GoodExpression(e)
  {
    e.runs != [] && MeantRuns(e.runs)[..1] == [Trace(e.runs[0].number, samples)]
  }

  /** The lookup by name: the first expression of that name counts, and it must have a run. */
  lemma {:induction false} FindFirstRunExactly(values: seq<Expression>, name: string, k: nat)
    requires k <= |values| && forall i | 0 <= i < k :: values[i].name != name
    requires k < |values| ==> values[k].name == name
    ensures FindFirstRun(values, name) ==
            if k == |values| then Failure(NameNotFound)
            else if values[k].runs == [] then Failure(OutOfRange)
            else Success(values[k].runs[0].values)
    decreases k
  {
    if k > 0 {
      FindFirstRunExactly(values[1..], name, k - 1);
    }
  }

  /** What a report shows under a name is what the schedulers find under it. */
  lemma {:induction false} FindsShown(es: seq<PrintedExpression>, name: string, samples: seq<Sample>)
    requires GoodExpressions(es) && Shows(es, name, samples)
    ensures FindFirstRun(Meant(es), name) == Success(samples)
    decreases |es|
  {
    assert GoodExpression(es[0]);
    if es[0].name != name {
      FindsShown(es[1..], name, samples);
    }
  }

  /** The report holds the expressions as section 2, without losing the last one. */
  ghost predicate Reports(report: string, es: seq<PrintedExpression>) {
    exists before, header, status, tail, after ::
      IsPrinted(report, before, 2, header, status, es, tail, after) && !LosesLast(es, tail)
  }

  lemma ReportIsParsed(report: string, es: seq<PrintedExpression>)
    requires Reports(report, es)
    ensures GoodExpressions(es) && ParsedReport(report, 2) == Success(Meant(es))
  {
    var before, header, status, tail, after :|
      IsPrinted(report, before, 2, header, status, es, tail, after) && !LosesLast(es, tail);
    ParseUndoesPrint(report, before, 2, header, status, es, tail, after);
  }

  /** From the text of a report on a complete run of the waypoint network to the robot's route. */
  lemma ReportBecomesRoute(cfg: N.Config, run: N.Run, n: nat, report: string, es: seq<PrintedExpression>,
                           cur: seq<Sample>, dest: seq<Sample>, hold: seq<Sample>)
    requires R.IsSampled(cfg, run, n, cur, dest)
    requires Reports(report, es) && GoodExpressions(es)
    requires Shows(es, "Robot.cur_waypoint", cur) && Shows(es, "Robot.dest_waypoint", dest)
    requires Shows(es, "Robot.Holding", hold)
    ensures var chosen, r := R.Chosen(run.labels, n), RouteOfReport(report);
            && R.IsRoute(cfg, chosen) && R.Origin(cfg, chosen, |chosen|) == cfg.destination
            && r.Success?
            && (R.Extracts(r.value, chosen) <==> R.ShowRoute(cfg.nextWaypoint, chosen, cur, dest, hold))
  {
    ReportIsParsed(report, es);
    FindsShown(es, CUR, cur);
    FindsShown(es, DEST, dest);
    FindsShown(es, HOLDING, hold);
    R.ScheduleIsTheRoute(cfg, run, n, cur, dest, hold);
  }

  /** From the text of a report on a run of the station network to the robot's tour. */
  lemma ReportBecomesTour(cfg: Q.Config, run: Q.Run, n: nat, report: string, es: seq<PrintedExpression>,
                          samples: seq<Sample>, convert: int -> int)
    requires P.IsSampled(cfg, run, n, samples, convert) && P.Injective(cfg, convert)
    requires Reports(report, es) && GoodExpressions(es) && Shows(es, "Robot.converted_dest()", samples)
    ensures var chosen := T.Chosen(run.labels, n);
            TourOfReport(report) == Success(Some(Renamed(chosen, convert))) <==> chosen == [] || chosen[0] != 1
  {
    ReportIsParsed(report, es);
    FindsShown(es, CONVERTED_DEST, samples);
    P.ScheduleIsTheTour(cfg, run, n, samples, convert);
  }

  /** From the text of a report on a run of the configured network to the waypoint ids of the tour:
      with a station left to visit the whole tour is reported, in every run. */
  lemma ConfiguredReportBecomesTour(c: StationConfig, toVisit: seq<int>, visited: seq<bool>, cfg: Q.Config,
                                    run: Q.Run, n: nat, report: string, es: seq<PrintedExpression>,
                                    samples: seq<Sample>, convert: int -> int)
    requires Configures(c, toVisit, visited, cfg) && Distinct(c.Combined())
    requires FirstStopIsKnown(c, toVisit)
    requires forall id :: convert(id) == ConvertToWaypointId(c, id)
    requires P.IsSampled(cfg, run, n, samples, convert)
    requires Reports(report, es) && GoodExpressions(es) && Shows(es, "Robot.converted_dest()", samples)
    ensures TourOfReport(report) == Success(Some(Renamed(T.Chosen(run.labels, n), convert)))
  {
    ConversionIsInjective(c, cfg);
    assert P.Injective(cfg, convert);
    FirstStopIsConfigured(c, toVisit, visited, cfg);
    F.FirstChoiceIsConfigured(cfg, run, n);
    ReportBecomesTour(cfg, run, n, report, es, samples, convert);
  }
}
