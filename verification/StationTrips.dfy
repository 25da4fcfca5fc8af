/** How long the robots of the station network travel, and that the other robots visit the stations of
    their published plans in order. */
module StationTrips {
  import opened StationNetwork
  import opened StationSafety
  import T = StationTour

  /** The steps that start in an ordinary location: time, arrivals, and the start of a service. */
  predicate CanBePutOff(l: Label) {
    || l.Delay? || l.Arrive? || l.ReachFirst? || l.Serve?
    || (l.OtherStep? && (l.edge == OtherReach || l.edge == ArriveOther))
  }

  /** No such step is made while a robot is starting or choosing, or a station is in a committed location. */
  lemma CommittedGoFirst(cfg: Config, run: Run, i: nat)
    requires IsRun(cfg, run) && i < |run.labels| && CanBePutOff(run.labels[i])
    ensures run.states[i].robot.loc in {ToNext, EnRoute, Waiting, Done}
    ensures forall o <- run.states[i].others :: o.loc in {ToNext, EnRoute, Waiting, Done}
    ensures forall st <- run.states[i].stations :: st.loc == Idle
  {
    var s := run.states[i];
    assert Step(cfg, s, run.labels[i], run.states[i + 1]);
    forall o | o in s.others
      ensures !Committed(o.loc)
    {
      assert !SomeCommitted(s);
    }
    forall st | st in s.stations
      ensures !StationCommitted(st)
    {
      assert !SomeCommitted(s);
    }
  }

  /** Only delays take time. */
  lemma OnlyDelaysTakeTime(cfg: Config, run: Run, i: nat)
    requires IsRun(cfg, run) && i < |run.labels|
    ensures run.states[i + 1].now == run.states[i].now + (if run.labels[i].Delay? then run.labels[i].d else 0.0)
    ensures run.states[i + 1].now >= run.states[i].now
  {
    assert Step(cfg, run.states[i], run.labels[i], run.states[i + 1]);
  }

  lemma RobotStays(cfg: Config, s: State, l: Label, t: State)
    requires Step(cfg, s, l, t) && s.robot.loc == EnRoute
    ensures if l.Arrive? then t.now == s.now else t.robot == s.robot.(x := s.robot.x + (t.now - s.now))
  {
  }

  lemma {:induction false} RobotStaysUntil(cfg: Config, run: Run, a: nat, i: nat)
    requires IsRun(cfg, run) && a < i < |run.states|
    requires run.states[a + 1].robot.loc == EnRoute && run.states[a + 1].robot.x == 0.0
    requires forall k | a < k < i :: !run.labels[k].Arrive?
    ensures run.states[i].robot == run.states[a + 1].robot.(x := run.states[i].now - run.states[a + 1].now)
    decreases i
  {
    if i > a + 1 {
      RobotStaysUntil(cfg, run, a, i - 1);
      RobotStays(cfg, run.states[i - 1], run.labels[i - 1], run.states[i]);
    }
  }

  /** A trip of the scheduled robot takes at least the distance, and at most that times the uncertainty. */
  lemma TripTakes(cfg: Config, run: Run, a: nat, b: nat)
    requires IsRun(cfg, run) && a < b < |run.labels|
    requires run.labels[a].ChooseStation? && run.labels[b].Arrive?
    requires forall k | a < k < b :: !run.labels[k].Arrive?
    ensures var dist := cfg.dist(run.states[a].robot.curLoc, run.labels[a].to) as real;
            dist <= run.states[b].now - run.states[a].now <= dist * cfg.uncertainty
    ensures run.states[b + 1].robot.curLoc == run.labels[a].to
  {
    RunIsSafe(cfg, run, a);
    assert Step(cfg, run.states[a], run.labels[a], run.states[a + 1]);
    assert Step(cfg, run.states[b], run.labels[b], run.states[b + 1]);
    RobotStaysUntil(cfg, run, a, b);
    RunIsSafe(cfg, run, b);
  }

  /** The stations the scheduled robot has reached: those chosen, but for the one it is travelling to. */
  ghost function Reached(loc: RobotLocation, chosen: seq<int>): seq<int> {
    if loc == EnRoute && chosen != [] then chosen[..|chosen| - 1] else chosen
  }

  ghost predicate AtLastStop(cfg: Config, r: Robot, chosen: seq<int>) {
    var reached := Reached(r.loc, chosen);
    r.curLoc == if reached == [] then cfg.nextStation else reached[|reached| - 1]
  }

  /** How a step changes where the robot is. */
  ghost predicate StopMoves(r: Robot, l: Label, r': Robot) {
    if l.Arrive? then r.loc == EnRoute && r'.loc == Waiting && r'.curLoc == r.dest
    else
      && r'.curLoc == r.curLoc
      && if l.ChooseStation? then r.loc == Choose && r'.loc == EnRoute else r.loc == EnRoute <==> r'.loc == EnRoute
  }

  lemma StepMovesStop(cfg: Config, s: State, l: Label, t: State)
    requires Step(cfg, s, l, t)
    ensures StopMoves(s.robot, l, t.robot)
  {
  }

  lemma StopIsKept(cfg: Config, r: Robot, l: Label, r': Robot, chosen: seq<int>)
    requires StopMoves(r, l, r') && AtLastStop(cfg, r, chosen)
    requires r.loc == EnRoute ==> chosen != [] && r.dest == chosen[|chosen| - 1]
    ensures AtLastStop(cfg, r', if l.ChooseStation? then chosen + [l.to] else chosen)
  {
    if l.ChooseStation? {
      assert (chosen + [l.to])[..|chosen|] == chosen;
    }
  }

  /** The robot is where its tour up to state n has led it. */
  ghost predicate IsWhereLed(cfg: Config, run: Run, n: nat)
    requires n < |run.states| == |run.labels| + 1
  {
    AtLastStop(cfg, run.states[n].robot, T.Chosen(run.labels, n))
  }

  lemma LedOn(cfg: Config, run: Run, n: nat)
    requires n < |run.labels| && |run.states| == |run.labels| + 1 && IsWhereLed(cfg, run, n)
    requires Step(cfg, run.states[n], run.labels[n], run.states[n + 1])
    requires T.OnTour(cfg, run.states[n].robot, run.states[n].visited, T.Chosen(run.labels, n))
    ensures IsWhereLed(cfg, run, n + 1)
  {
    StepMovesStop(cfg, run.states[n], run.labels[n], run.states[n + 1]);
    StopIsKept(cfg, run.states[n].robot, run.labels[n], run.states[n + 1].robot, T.Chosen(run.labels, n));
  }

  /** The scheduled robot is at the last station it has reached, and before that at next_station(). */
  lemma {:induction false} RobotIsAtLastStop(cfg: Config, run: Run, n: nat)
    requires IsRun(cfg, run) && n < |run.states|
    ensures IsWhereLed(cfg, run, n)
    decreases n
  {
    if n > 0 {
      RobotIsAtLastStop(cfg, run, n - 1);
      T.RunIsOnTour(cfg, run, n - 1);
      LedOn(cfg, run, n - 1);
    }
  }

  /** Before its first choice the clock of the scheduled robot shows the time. */
  lemma {:induction false} FirstClock(cfg: Config, run: Run, n: nat)
    requires IsRun(cfg, run) && n < |run.states|
    requires forall k | 0 <= k < n :: !run.labels[k].ReachFirst?
    ensures run.states[n].robot.loc in {RobotStart, ToNext} && run.states[n].robot.x == run.states[n].now
    decreases n
  {
    if n > 0 {
      FirstClock(cfg, run, n - 1);
      assert Step(cfg, run.states[n - 1], run.labels[n - 1], run.states[n]);
    }
  }

  /** The scheduled robot reaches its first station no earlier than its eta, and no later than that
      times the uncertainty. */
  lemma FirstStationIsReached(cfg: Config, run: Run, n: nat)
    requires IsRun(cfg, run) && n < |run.labels| && run.labels[n].ReachFirst?
    requires forall k | 0 <= k < n :: !run.labels[k].ReachFirst?
    ensures cfg.eta(1) <= run.states[n].now <= cfg.eta(1) * cfg.uncertainty
  {
    FirstClock(cfg, run, n);
    assert Step(cfg, run.states[n], run.labels[n], run.states[n + 1]);
    RunIsSafe(cfg, run, n);
  }

  /** `total` is the time until the robot is done. */
  lemma {:induction false} TotalStopsAtTheEnd(cfg: Config, run: Run, n: nat)
    requires IsRun(cfg, run) && n < |run.states|
    ensures run.states[n].robot.loc != Done ==> run.states[n].total == run.states[n].now
    ensures forall k | 0 <= k < n && run.labels[k].Finish? :: run.states[n].total == run.states[k].now
    ensures run.states[n].robot.loc == Done <==> exists k :: 0 <= k < n && run.labels[k].Finish?
    decreases n
  {
    if n > 0 {
      TotalStopsAtTheEnd(cfg, run, n - 1);
      assert Step(cfg, run.states[n - 1], run.labels[n - 1], run.states[n]);
      if run.labels[n - 1].Finish? {
        assert run.states[n].total == run.states[n - 1].now;
      }
    }
  }

  /** What a step does to another robot. */
  ghost predicate OtherMoves(cfg: Config, id: nat, o: Other, l: Label, o': Other) {
    if l.Delay? then !Committed(o.loc) && o' == o.(x := o.x + l.d)
    else if l.OtherStep? && l.robot == id then
      OtherEnabled(cfg, id, o, l.edge) && o' == FireOther(cfg, id, o, l.edge)
    else if l.Release? then o' == o || o' == OtherReceiveDone(cfg, id, o)
    else o' == o
  }

  /** The other robot at moment i of the run. */
  ghost function OtherAt(run: Run, id: nat, i: nat): Other
    requires i < |run.states|
  {
    if IsOther(run.states[i], id) then run.states[i].others[id - 2] else Other(Done, 0.0, 0, 1, 0, 0.0)
  }

  lemma StepMovesOther(cfg: Config, s: State, l: Label, t: State, id: nat)
    requires Step(cfg, s, l, t) && IsOther(s, id)
    ensures IsOther(t, id) && OtherMoves(cfg, id, s.others[id - 2], l, t.others[id - 2])
    ensures t.now == if l.Delay? then s.now + l.d else s.now
  {
    assert s.others[id - 2] in s.others;
  }

  ghost predicate IsOtherRobot(cfg: Config, id: nat) {
    2 <= id <= cfg.maxRobots || id == 2
  }

  /** The part of a run that concerns one of the other robots. */
  ghost predicate OtherRun(cfg: Config, run: Run, id: nat) {
    && |run.states| == |run.labels| + 1
    && OtherAt(run, id, 0) == Other(RobotStart, 0.0, 0, 1, 0, 0.0) && run.states[0].now == 0.0
    && (forall i | 0 <= i < |run.labels| ::
          && OtherMoves(cfg, id, OtherAt(run, id, i), run.labels[i], OtherAt(run, id, i + 1))
          && run.states[i + 1].now ==
             if run.labels[i].Delay? then run.states[i].now + run.labels[i].d else run.states[i].now)
    && (forall i | 0 <= i < |run.states| :: OtherInvariant(cfg, OtherAt(run, id, i)))
  }

  lemma {:induction false} OthersStay(cfg: Config, run: Run, id: nat, n: nat)
    requires IsRun(cfg, run) && IsOtherRobot(cfg, id) && n < |run.states|
    ensures IsOther(run.states[n], id)
    decreases n
  {
    if n > 0 {
      OthersStay(cfg, run, id, n - 1);
      StepMovesOther(cfg, run.states[n - 1], run.labels[n - 1], run.states[n], id);
    }
  }

  lemma RunMovesOther(cfg: Config, run: Run, id: nat)
    requires IsRun(cfg, run) && IsOtherRobot(cfg, id)
    ensures OtherRun(cfg, run, id)
  {
    OthersStay(cfg, run, id, 0);
    forall i | 0 <= i < |run.labels|
      ensures OtherMoves(cfg, id, OtherAt(run, id, i), run.labels[i], OtherAt(run, id, i + 1))
      ensures run.states[i + 1].now ==
              if run.labels[i].Delay? then run.states[i].now + run.labels[i].d else run.states[i].now
    {
      OthersStay(cfg, run, id, i);
      StepMovesOther(cfg, run.states[i], run.labels[i], run.states[i + 1], id);
    }
    forall i | 0 <= i < |run.states|
      ensures OtherInvariant(cfg, OtherAt(run, id, i))
    {
      OthersStay(cfg, run, id, i);
      RunIsSafe(cfg, run, i);
    }
  }

  predicate IsEdge(l: Label, id: nat, edge: OtherEdge) {
    l == OtherStep(id, edge)
  }

  lemma {:induction false} OtherStaysUntil(cfg: Config, run: Run, id: nat, a: nat, i: nat)
    requires OtherRun(cfg, run, id) && a < i < |run.states|
    requires OtherAt(run, id, a + 1).x == 0.0 && OtherAt(run, id, a + 1).loc == EnRoute
    requires forall k | a < k < i :: !IsEdge(run.labels[k], id, ArriveOther)
    ensures OtherAt(run, id, i) == OtherAt(run, id, a + 1).(x := run.states[i].now - run.states[a + 1].now)
    decreases i
  {
    if i > a + 1 {
      OtherStaysUntil(cfg, run, id, a, i - 1);
      assert OtherMoves(cfg, id, OtherAt(run, id, i - 1), run.labels[i - 1], OtherAt(run, id, i - 1 + 1));
    }
  }

  lemma {:induction false} ChooseTakesNoTime(cfg: Config, run: Run, id: nat, n: nat)
    requires OtherRun(cfg, run, id) && n < |run.states|
    ensures OtherAt(run, id, n).loc == Choose ==> OtherAt(run, id, n).x == 0.0
    decreases n
  {
    if n > 0 {
      ChooseTakesNoTime(cfg, run, id, n - 1);
      assert OtherMoves(cfg, id, OtherAt(run, id, n - 1), run.labels[n - 1], OtherAt(run, id, n - 1 + 1));
    }
  }

  /** A trip of another robot takes at least the distance, and at most that times the uncertainty. */
  lemma OtherTripTakes(cfg: Config, run: Run, id: nat, a: nat, b: nat)
    requires IsRun(cfg, run) && IsOtherRobot(cfg, id) && a < b < |run.labels|
    requires IsEdge(run.labels[a], id, Depart) && IsEdge(run.labels[b], id, ArriveOther)
    requires forall k | a < k < b :: !IsEdge(run.labels[k], id, ArriveOther)
    ensures var o := OtherAt(run, id, a); var dist := cfg.dist(o.curLoc, o.dest) as real;
            dist <= run.states[b].now - run.states[a].now <= dist * cfg.uncertainty
  {
    RunMovesOther(cfg, run, id);
    ChooseTakesNoTime(cfg, run, id, a);
    assert OtherMoves(cfg, id, OtherAt(run, id, a), run.labels[a], OtherAt(run, id, a + 1));
    OtherStaysUntil(cfg, run, id, a, b);
    assert OtherMoves(cfg, id, OtherAt(run, id, b), run.labels[b], OtherAt(run, id, b + 1));
    assert OtherInvariant(cfg, OtherAt(run, id, b));
  }

  /** Another robot reaches its first station no earlier than its eta and no later than that times the
      uncertainty. */
  lemma OtherFirstStationIsReached(cfg: Config, run: Run, id: nat, n: nat)
    requires IsRun(cfg, run) && IsOtherRobot(cfg, id) && n < |run.labels|
    requires IsEdge(run.labels[n], id, OtherReach)
    requires forall k | 0 <= k < n :: !IsEdge(run.labels[k], id, OtherReach)
    ensures cfg.eta(id) <= run.states[n].now <= cfg.eta(id) * cfg.uncertainty
  {
    RunMovesOther(cfg, run, id);
    OtherFirstClock(cfg, run, id, n);
    assert OtherMoves(cfg, id, OtherAt(run, id, n), run.labels[n], OtherAt(run, id, n + 1));
    assert OtherInvariant(cfg, OtherAt(run, id, n));
  }

  lemma {:induction false} OtherFirstClock(cfg: Config, run: Run, id: nat, n: nat)
    requires OtherRun(cfg, run, id) && n < |run.states|
    requires forall k | 0 <= k < n :: !IsEdge(run.labels[k], id, OtherReach)
    ensures var o := OtherAt(run, id, n);
            && o.loc in {RobotStart, ToNext, Done} && o.x == run.states[n].now
            && (o.loc == ToNext ==> o.eta == cfg.eta(id))
    decreases n
  {
    if n > 0 {
      OtherFirstClock(cfg, run, id, n - 1);
      assert OtherMoves(cfg, id, OtherAt(run, id, n - 1), run.labels[n - 1], OtherAt(run, id, n - 1 + 1));
    }
  }

  /** The stations that the robot has reached in the first n steps, in order. */
  ghost function Stops(run: Run, id: nat, n: nat): seq<int>
    requires n <= |run.labels| < |run.states|
  {
    if n == 0 then []
    else if IsEdge(run.labels[n - 1], id, ArriveOther) then Stops(run, id, n - 1) + [OtherAt(run, id, n - 1).dest]
    else Stops(run, id, n - 1)
  }

  /** The station of step k of the published plan; 0 behind its last possible step. */
  ghost function PlanStep(cfg: Config, id: nat, k: nat): int {
    if k < cfg.numStations then cfg.nextRobotStation(id, k) else 0
  }

  /** These are the steps 1, 2, ... of the plan. */
  ghost predicate AsPlanned(cfg: Config, id: nat, stops: seq<int>) {
    forall k | 0 <= k < |stops| :: stops[k] == PlanStep(cfg, id, k + 1) && stops[k] != 0
  }

  /** The robot has made all its stops as planned, and is at the last of them. */
  ghost predicate OnTheWay(cfg: Config, id: nat, o: Other, stops: seq<int>) {
    && AsPlanned(cfg, id, stops)
    && (o.loc != RobotStart ==> o.curLoc == if stops == [] then PlanStep(cfg, id, 0) else stops[|stops| - 1])
  }

  /** How far the robot has read its plan: one step ahead where it has a destination. */
  ghost predicate HasRead(cfg: Config, id: nat, o: Other, stops: nat) {
    match o.loc
    case RobotStart => o.stepIndex == 0 && stops == 0
    case ToNext => o.stepIndex == 1 <= cfg.numStations && stops == 0
    case Waiting => o.stepIndex == stops + 1 <= cfg.numStations
    case _ =>
      && o.dest == PlanStep(cfg, id, stops + 1)
      && o.stepIndex == (if stops + 1 < cfg.numStations then stops + 2 else cfg.numStations)
      && (o.loc == EnRoute ==> o.dest != 0) && (o.loc == Done ==> o.dest == 0)
  }

  /** The robot has done its plan up to here; Done it is at the end of it, or where it is alone. */
  ghost predicate OnPlan(cfg: Config, id: nat, o: Other, stops: seq<int>) {
    if o.loc == Done && cfg.maxRobots == 1 then o.stepIndex == 0 && stops == []
    else
      && OnTheWay(cfg, id, o, stops) && HasRead(cfg, id, o, |stops|)
      && (o.loc != RobotStart ==> cfg.maxRobots > 1)
  }

  lemma MoveKeepsPlan(cfg: Config, id: nat, o: Other, l: Label, o': Other, stops: seq<int>)
    requires OtherMoves(cfg, id, o, l, o') && OnPlan(cfg, id, o, stops) && cfg.numStations >= 1
    ensures OnPlan(cfg, id, o', if IsEdge(l, id, ArriveOther) then stops + [o.dest] else stops)
  {
    if IsEdge(l, id, ArriveOther) {
      StopsGrow(cfg, id, stops, o.dest);
    } else if l.OtherStep? && l.robot == id && l.edge == StartDone {
      assert stops == [];
    }
  }

  lemma StopsGrow(cfg: Config, id: nat, stops: seq<int>, stop: int)
    requires AsPlanned(cfg, id, stops) && stop == PlanStep(cfg, id, |stops| + 1) != 0
    ensures AsPlanned(cfg, id, stops + [stop])
  {
    var longer := stops + [stop];
    forall k | 0 <= k < |longer|
      ensures longer[k] == PlanStep(cfg, id, k + 1) && longer[k] != 0
    {
      assert k < |stops| ==> longer[k] == stops[k];
    }
  }

  lemma {:induction false} PlanIsKept(cfg: Config, run: Run, id: nat, n: nat)
    requires OtherRun(cfg, run, id) && n < |run.states| && cfg.numStations >= 1
    ensures OnPlan(cfg, id, OtherAt(run, id, n), Stops(run, id, n))
    decreases n
  {
    if n > 0 {
      var m := n - 1;
      PlanIsKept(cfg, run, id, m);
      MoveKeepsPlan(cfg, id, OtherAt(run, id, m), run.labels[m], OtherAt(run, id, m + 1), Stops(run, id, m));
    }
  }

  /** In every run another robot visits exactly the stations of its plan, in order. */
  lemma OtherFollowsPlan(cfg: Config, run: Run, id: nat, n: nat)
    requires IsRun(cfg, run) && IsOtherRobot(cfg, id) && n < |run.states|
    ensures OnPlan(cfg, id, OtherAt(run, id, n), Stops(run, id, n))
  {
    RunMovesOther(cfg, run, id);
    PlanIsKept(cfg, run, id, n);
  }
}
