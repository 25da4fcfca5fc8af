/** The tour of the scheduled robot: which stations a run of the station network chooses. */
module StationTour {
  import opened StationNetwork
  import opened StationSafety

  /** The stations chosen in the first n steps, in order. */
  ghost function Chosen(labels: seq<Label>, n: nat): seq<int>
    requires n <= |labels|
  {
    if n == 0 then []
    else if labels[n - 1].ChooseStation? then Chosen(labels, n - 1) + [labels[n - 1].to]
    else Chosen(labels, n - 1)
  }

  ghost function Members(ids: seq<int>): set<int> {
    set id | id in ids
  }

  /** The configuration gives a tour an end: some end station, and none of them visited yet. */
  ghost predicate HasOpenEnd(cfg: Config) {
    cfg.numEndStations >= 1 && forall v <- cfg.visitedStations :: !cfg.IsEndStation(v)
  }

  ghost predicate UnderWay(loc: RobotLocation) {
    loc == EnRoute || loc == Waiting
  }

  /** The trips already completed: all chosen stations but the one the robot is heading for. */
  ghost function Completed(loc: RobotLocation, chosen: seq<int>): seq<int> {
    if UnderWay(loc) && chosen != [] then chosen[..|chosen| - 1] else chosen
  }

  ghost predicate GoodTour(cfg: Config, chosen: seq<int>) {
    && (forall i | 0 <= i < |chosen| :: cfg.IsStation(chosen[i]) && chosen[i] !in cfg.visitedStations)
    && (forall i, j | 0 <= i < j < |chosen| :: chosen[i] != chosen[j])
    && (forall i | 0 <= i < |chosen| && cfg.IsEndStation(chosen[i]) ::
          i == |chosen| - 1 && AllNonEnd(cfg, cfg.visitedStations + Members(chosen[..i])))
  }

  ghost predicate OnTour(cfg: Config, r: Robot, visited: set<int>, chosen: seq<int>) {
    && GoodTour(cfg, chosen)
    && (r.loc == RobotStart ==> visited == {} && chosen == [])
    && (r.loc != RobotStart ==> visited == cfg.visitedStations + Members(Completed(r.loc, chosen)))
    && (r.loc == ToNext ==> chosen == [])
    && (UnderWay(r.loc) ==> chosen != [] && r.dest == chosen[|chosen| - 1])
    && (r.loc == Waiting ==> r.curLoc == r.dest)
    && (r.loc == Done ==> EndStationVisited(cfg, visited))
  }

  /** What one step does to the robot and the visited stations. */
  lemma RobotEvolves(cfg: Config, s: State, l: Label, t: State)
    requires Step(cfg, s, l, t)
    ensures match l
            case LoadVisited => s.robot.loc == RobotStart && t.robot.loc == ToNext && t.visited == cfg.visitedStations
            case ReachFirst => s.robot.loc == ToNext && t.robot.loc == Choose && t.visited == s.visited
            case ChooseStation(to) =>
              && s.robot.loc == Choose && cfg.IsStation(to) && CanVisit(cfg, s.visited, to)
              && t.robot.loc == EnRoute && t.robot.dest == to && t.visited == s.visited
            case Finish =>
              && s.robot.loc == Choose && EndStationVisited(cfg, s.visited)
              && t.robot.loc == Done && t.visited == s.visited
            case Arrive =>
              && s.robot.loc == EnRoute && t.robot.loc == Waiting && t.visited == s.visited
              && t.robot.dest == t.robot.curLoc == s.robot.dest
            case _ =>
              || (t.robot == s.robot.(x := t.robot.x) && t.visited == s.visited)
              || (s.robot.loc == Waiting && t.robot.loc == Choose && t.visited == s.visited + {s.robot.curLoc})
  {
  }

  lemma ChoosingKeepsTour(cfg: Config, visited: set<int>, chosen: seq<int>, to: int)
    requires GoodTour(cfg, chosen) && visited == cfg.visitedStations + Members(chosen)
    requires cfg.IsStation(to) && CanVisit(cfg, visited, to)
    ensures GoodTour(cfg, chosen + [to])
  {
  }

  lemma MembersOfLast(chosen: seq<int>)
    requires chosen != []
    ensures Members(chosen[..|chosen| - 1]) + {chosen[|chosen| - 1]} == Members(chosen)
  {
  }

  lemma StepKeepsTour(cfg: Config, s: State, l: Label, t: State, chosen: seq<int>)
    requires Step(cfg, s, l, t) && OnTour(cfg, s.robot, s.visited, chosen)
    ensures OnTour(cfg, t.robot, t.visited, if l.ChooseStation? then chosen + [l.to] else chosen)
  {
    RobotEvolves(cfg, s, l, t);
    if chosen != [] {
      MembersOfLast(chosen);
    }
    if l.ChooseStation? {
      ChoosingKeepsTour(cfg, s.visited, chosen, l.to);
      assert (chosen + [l.to])[..|chosen|] == chosen;
    }
  }

  lemma {:induction false} RunIsOnTour(cfg: Config, run: Run, n: nat)
    requires IsRun(cfg, run) && n < |run.states|
    ensures OnTour(cfg, run.states[n].robot, run.states[n].visited, Chosen(run.labels, n))
    decreases n
  {
    if n > 0 {
      RunIsOnTour(cfg, run, n - 1);
      StepKeepsTour(cfg, run.states[n - 1], run.labels[n - 1], run.states[n], Chosen(run.labels, n - 1));
    }
  }

  /** The stations that a tour has to visit before it may go to an end station. */
  ghost function Pending(cfg: Config): set<int> {
    set id | 1 <= id <= cfg.numStations && !cfg.IsEndStation(id) && id !in cfg.visitedStations
  }

  /** A finished robot has made exactly one trip to every station that was not yet visited and is
      no end station, and then one trip to one end station. */
  lemma FinishedTour(cfg: Config, run: Run, n: nat)
    requires IsRun(cfg, run) && n < |run.states| && HasOpenEnd(cfg)
    requires run.states[n].robot.loc == Done
    ensures var chosen := Chosen(run.labels, n);
            && |chosen| == |Pending(cfg)| + 1
            && cfg.IsStation(chosen[|chosen| - 1]) && cfg.IsEndStation(chosen[|chosen| - 1])
            && Members(chosen[..|chosen| - 1]) == Pending(cfg)
            && (forall i, j | 0 <= i < j < |chosen| :: chosen[i] != chosen[j])
            && run.states[n].visited == cfg.visitedStations + Members(chosen)
            && AllNonEnd(cfg, run.states[n].visited)
  {
    RunIsOnTour(cfg, run, n);
    TourIsComplete(cfg, run.states[n].visited, Chosen(run.labels, n));
  }

  lemma TourIsComplete(cfg: Config, visited: set<int>, chosen: seq<int>)
    requires HasOpenEnd(cfg) && GoodTour(cfg, chosen)
    requires visited == cfg.visitedStations + Members(chosen) && EndStationVisited(cfg, visited)
    ensures |chosen| == |Pending(cfg)| + 1
    ensures cfg.IsStation(chosen[|chosen| - 1]) && cfg.IsEndStation(chosen[|chosen| - 1])
    ensures Members(chosen[..|chosen| - 1]) == Pending(cfg)
    ensures AllNonEnd(cfg, visited)
  {
    var end :| cfg.IsStation(end) && cfg.IsEndStation(end) && end in visited;
    assert end in Members(chosen);
    var k :| 0 <= k < |chosen| && chosen[k] == end;
    var before := chosen[..|chosen| - 1];
    assert k == |chosen| - 1;
    assert AllNonEnd(cfg, cfg.visitedStations + Members(before));
    forall id | id in Pending(cfg)
      ensures id in Members(before)
    {
      assert id in cfg.visitedStations + Members(before);
    }
    forall id | id in Members(before)
      ensures id in Pending(cfg)
    {
      var i :| 0 <= i < |before| && before[i] == id;
      assert chosen[i] == id;
    }
    assert Members(before) == Pending(cfg);
    DistinctMembers(before);
    forall id | cfg.IsStation(id) && !cfg.IsEndStation(id)
      ensures id in visited
    {
      assert id in cfg.visitedStations + Members(before);
    }
  }

  lemma {:induction false} DistinctMembers(ids: seq<int>)
    requires forall i, j | 0 <= i < j < |ids| :: ids[i] != ids[j]
    ensures |Members(ids)| == |ids|
    decreases |ids|
  {
    if ids == [] {
      assert Members(ids) == {};
    } else {
      var n := |ids| - 1;
      DistinctMembers(ids[..n]);
      MembersOfLast(ids);
    }
  }

  /** Every trip ends at a station that was unvisited until then, and marks exactly it. */
  lemma EachTripVisitsOneMore(cfg: Config, run: Run, n: nat)
    requires IsRun(cfg, run) && n < |run.labels|
    requires run.states[n].robot.loc == Waiting && run.states[n + 1].robot.loc == Choose
    ensures var s, t := run.states[n], run.states[n + 1];
            && cfg.IsStation(s.robot.dest)
            && s.robot.dest !in s.visited
            && t.visited == s.visited + {s.robot.dest}
  {
    RunIsOnTour(cfg, run, n);
    var s, chosen := run.states[n], Chosen(run.labels, n);
    RobotEvolves(cfg, s, run.labels[n], run.states[n + 1]);
    assert chosen[|chosen| - 1] !in Members(chosen[..|chosen| - 1]);
  }

  /** Travel times cannot make an invariant false at the start of a trip. */
  ghost predicate NonnegativeTravel(cfg: Config) {
    forall a, b | cfg.IsStation(a) && cfg.IsStation(b) :: cfg.dist(a, b) as real * cfg.uncertainty >= 0.0
  }

  lemma SomethingToVisit(cfg: Config, visited: set<int>) returns (to: int)
    requires cfg.Valid() && cfg.numEndStations >= 1 && !EndStationVisited(cfg, visited)
    ensures cfg.IsStation(to) && CanVisit(cfg, visited, to)
  {
    if AllNonEnd(cfg, visited) {
      to := 1;
      assert cfg.IsStation(to) && cfg.IsEndStation(to);
    } else {
      to :| cfg.IsStation(to) && !cfg.IsEndStation(to) && to !in visited;
    }
  }

  /** A choice that `can_visit` allows is a step, target invariant included. */
  lemma ChoiceIsAStep(cfg: Config, run: Run, n: nat, to: int) returns (t: State)
    requires IsRun(cfg, run) && n < |run.states| && NonnegativeTravel(cfg)
    requires run.states[n].robot.loc == Choose
    requires cfg.IsStation(to) && CanVisit(cfg, run.states[n].visited, to)
    ensures Step(cfg, run.states[n], ChooseStation(to), t)
  {
    var s, l := run.states[n], ChooseStation(to);
    RunIsSafe(cfg, run, n);
    t := Fire(cfg, s, l);
    SettingOut(cfg, s.robot, t.robot);
    assert LocationInvariants(cfg, t);
  }

  lemma SettingOut(cfg: Config, r: Robot, r': Robot)
    requires NonnegativeTravel(cfg) && RobotConsistent(cfg, r)
    requires r.loc == Choose && cfg.IsStation(r'.dest) && r' == r.(loc := EnRoute, dest := r'.dest)
    ensures RobotInvariant(cfg, r')
  {
    assert cfg.dist(r'.curLoc, r'.dest) as real * cfg.uncertainty >= 0.0;
  }

  /** Choose is never stuck: in every run the robot there can finish or start another trip. */
  lemma ChooseIsNeverStuck(cfg: Config, run: Run, n: nat)
    requires IsRun(cfg, run) && n < |run.states| && cfg.numEndStations >= 1 && NonnegativeTravel(cfg)
    requires run.states[n].robot.loc == Choose
    ensures exists l: Label, t :: (l.Finish? || l.ChooseStation?) && Step(cfg, run.states[n], l, t)
  {
    var s := run.states[n];
    RunIsSafe(cfg, run, n);
    if EndStationVisited(cfg, s.visited) {
      assert Step(cfg, s, Finish, Fire(cfg, s, Finish));
    } else {
      var to := SomethingToVisit(cfg, s.visited);
      var t := ChoiceIsAStep(cfg, run, n, to);
    }
  }
}
