/** Whether a tour can begin at station 1, the value `dest` has before any choice: the only tours that
    the station schedule misreports. */
module StationFirstStop {
  import opened StationNetwork
  import opened StationTour

  ghost predicate BeginsElsewhere(run: Run, n: nat)
    requires n <= |run.labels|
  {
    var chosen := Chosen(run.labels, n);
    chosen == [] || chosen[0] != 1
  }

  lemma {:induction false} FirstChoice(labels: seq<Label>, n: nat) returns (k: nat)
    requires n <= |labels| && Chosen(labels, n) != []
    ensures k < n && labels[k] == ChooseStation(Chosen(labels, n)[0]) && Chosen(labels, k) == []
    decreases n
  {
    if Chosen(labels, n - 1) == [] {
      k := n - 1;
    } else {
      k := FirstChoice(labels, n - 1);
    }
  }

  /** The first choice of a run is one that the configured visited stations allow. */
  lemma FirstChoiceIsConfigured(cfg: Config, run: Run, n: nat)
    requires IsRun(cfg, run) && n < |run.states|
    ensures var chosen := Chosen(run.labels, n);
            chosen != [] ==> CanVisit(cfg, cfg.visitedStations, chosen[0])
  {
    if Chosen(run.labels, n) != [] {
      var k := FirstChoice(run.labels, n);
      RobotEvolves(cfg, run.states[k], run.labels[k], run.states[k + 1]);
      NothingVisitedYet(cfg, run, k);
    }
  }

  lemma NothingVisitedYet(cfg: Config, run: Run, n: nat)
    requires IsRun(cfg, run) && n < |run.states|
    requires run.states[n].robot.loc == Choose && Chosen(run.labels, n) == []
    ensures run.states[n].visited == cfg.visitedStations
  {
    RunIsOnTour(cfg, run, n);
    assert Members([]) == {};
  }

  /** A robot in Choose was there before its first choice. */
  lemma FirstTimeInChoose(cfg: Config, run: Run, n: nat) returns (k: nat)
    requires IsRun(cfg, run) && n < |run.states|
    requires run.states[n].robot.loc == Choose || Chosen(run.labels, n) != []
    ensures k <= n && run.states[k].robot.loc == Choose && Chosen(run.labels, k) == []
  {
    if Chosen(run.labels, n) == [] {
      k := n;
    } else {
      k := FirstChoice(run.labels, n);
      RobotEvolves(cfg, run.states[k], run.labels[k], run.states[k + 1]);
    }
  }

  lemma {:induction false} ChosenInPrefix(a: seq<Label>, b: seq<Label>, n: nat)
    requires n <= |a| && n <= |b| && a[..n] == b[..n]
    ensures Chosen(a, n) == Chosen(b, n)
    decreases n
  {
    if n > 0 {
      assert a[..n][n - 1] == b[..n][n - 1];
      assert a[..n - 1] == a[..n][..n - 1] == b[..n][..n - 1] == b[..n - 1];
      ChosenInPrefix(a, b, n - 1);
    }
  }

  /** The run up to state n, and one more step. */
  ghost function Extended(run: Run, n: nat, l: Label, t: State): Run
    requires n < |run.states| == |run.labels| + 1
  {
    Run(run.states[..n + 1] + [t], run.labels[..n] + [l])
  }

  lemma ExtendedIsRun(cfg: Config, run: Run, n: nat, l: Label, t: State)
    requires IsRun(cfg, run) && n < |run.states| && Step(cfg, run.states[n], l, t)
    ensures IsRun(cfg, Extended(run, n, l, t))
  {
    var longer := Extended(run, n, l, t);
    forall i | 0 <= i < |longer.labels|
      ensures Step(cfg, longer.states[i], longer.labels[i], longer.states[i + 1])
    {
      if i < n {
        assert Step(cfg, run.states[i], run.labels[i], run.states[i + 1]);
      }
    }
  }

  /** Where station 1 can be visited, a robot that is about to choose can choose it. */
  lemma CanBeginAtOne(cfg: Config, run: Run, n: nat) returns (longer: Run)
    requires IsRun(cfg, run) && n < |run.states| && NonnegativeTravel(cfg)
    requires run.states[n].robot.loc == Choose && Chosen(run.labels, n) == []
    requires CanVisit(cfg, cfg.visitedStations, 1)
    ensures IsRun(cfg, longer) && |longer.labels| == n + 1 && !BeginsElsewhere(longer, n + 1)
  {
    NothingVisitedYet(cfg, run, n);
    var t := ChoiceIsAStep(cfg, run, n, 1);
    ExtendedIsRun(cfg, run, n, ChooseStation(1), t);
    longer := Extended(run, n, ChooseStation(1), t);
    ChosenInPrefix(run.labels, longer.labels, n);
  }

  /** In every run the tour begins elsewhere than at station 1, and so is reported right, if and only
      if the configuration forbids to begin there or the robot never gets to choose. */
  lemma EveryTourBeginsElsewhere(cfg: Config)
    requires NonnegativeTravel(cfg)
    ensures (forall run, n: nat | IsRun(cfg, run) && n < |run.states| :: BeginsElsewhere(run, n))
            <==> (|| !CanVisit(cfg, cfg.visitedStations, 1)
                  || forall run, n: nat | IsRun(cfg, run) && n < |run.states| :: run.states[n].robot.loc != Choose)
  {
    forall run, n: nat | IsRun(cfg, run) && n < |run.states| && !BeginsElsewhere(run, n)
      ensures CanVisit(cfg, cfg.visitedStations, 1)
      ensures exists k: nat :: k < |run.states| && run.states[k].robot.loc == Choose
    {
      FirstChoiceIsConfigured(cfg, run, n);
      var k := FirstTimeInChoose(cfg, run, n);
    }
    if CanVisit(cfg, cfg.visitedStations, 1) {
      forall run, n: nat | IsRun(cfg, run) && n < |run.states| && run.states[n].robot.loc == Choose
        ensures exists longer, m: nat :: IsRun(cfg, longer) && m < |longer.states| && !BeginsElsewhere(longer, m)
      {
        var k := FirstTimeInChoose(cfg, run, n);
        var longer := CanBeginAtOne(cfg, run, k);
      }
    }
  }

  /** With an open end to the tour, station 1 is where it may begin exactly when nothing is pending. */
  lemma BeginsAtOneWithNothingPending(cfg: Config)
    requires cfg.Valid() && HasOpenEnd(cfg)
    ensures CanVisit(cfg, cfg.visitedStations, 1) <==> Pending(cfg) == {}
  {
    if AllNonEnd(cfg, cfg.visitedStations) {
      assert Pending(cfg) == {};
    } else {
      var id :| cfg.IsStation(id) && !cfg.IsEndStation(id) && id !in cfg.visitedStations;
      assert id in Pending(cfg);
    }
  }

  /** One end station and nothing else. */
  ghost function LoneEndStation(): (cfg: Config)
    ensures cfg.Valid() && HasOpenEnd(cfg) && NonnegativeTravel(cfg)
  {
    Config(1, 1, 1, 0, 1.0, 1, {}, (from, to) => 0, robot => 0.0, (robot, step) => 0)
  }

  /** Its state before any time has passed. */
  ghost function LoneState(robot: RobotLocation, other: RobotLocation, station: StationLocation): State {
    State(Robot(robot, 0.0, 1, 1), [Other(other, 0.0, 0, 1, 0, 0.0)], [Station(station, 0.0, [])], {}, 0.0, 0.0)
  }

  lemma LoneRobotsStart()
    ensures LoneStep(RobotStart, RobotStart, StationStart, LoadVisited, ToNext, RobotStart, StationStart)
    ensures LoneStep(ToNext, RobotStart, StationStart, OtherStep(2, StartDone), ToNext, Done, StationStart)
  {
    var starting, started := LoneState(ToNext, RobotStart, StationStart), LoneState(ToNext, Done, StationStart);
    assert Fire(LoneEndStation(), starting, OtherStep(2, StartDone)).others == started.others;
  }

  lemma LoneStationOpens()
    ensures Initial(LoneEndStation()) == LoneState(RobotStart, RobotStart, StationStart)
    ensures LoneStep(ToNext, Done, StationStart, Open(1), ToNext, Done, Idle)
    ensures LoneStep(ToNext, Done, Idle, ReachFirst, Choose, Done, Idle)
  {
  }

  ghost predicate LoneStep(robot: RobotLocation, other: RobotLocation, station: StationLocation, l: Label,
                           robot': RobotLocation, other': RobotLocation, station': StationLocation) {
    Step(LoneEndStation(), LoneState(robot, other, station), l, LoneState(robot', other', station'))
  }

  /** A run of the kind that is misreported: it chooses station 1 first. */
  lemma SomeTourBeginsAtOne() returns (run: Run)
    ensures IsRun(LoneEndStation(), run) && !BeginsElsewhere(run, |run.labels|)
  {
    LoneRobotsStart();
    LoneStationOpens();
    run := Run([LoneState(RobotStart, RobotStart, StationStart), LoneState(ToNext, RobotStart, StationStart),
                LoneState(ToNext, Done, StationStart), LoneState(ToNext, Done, Idle), LoneState(Choose, Done, Idle)],
               [LoadVisited, OtherStep(2, StartDone), Open(1), ReachFirst]);
    run := CanBeginAtOne(LoneEndStation(), run, 4);
  }
}
