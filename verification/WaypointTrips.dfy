/** How long the robots of the waypoint network travel and hold, and that the other robots follow
    their published plans. */
module WaypointTrips {
  import opened WaypointNetwork
  import opened WaypointSafety

  /** The steps that start in an ordinary location: time, arrivals, ends of holds, and releases. */
  predicate CanBePutOff(l: Label) {
    || l.Delay? || l.Arrive? || l.HoldEnd? || l.Release?
    || (l.OtherStep? && (l.edge == EndHold || l.edge == ArriveAndQueue))
  }

  /** No such step is made while a robot is in a committed location: starting, choosing, checking its
      plan, or queueing up. */
  lemma CommittedGoFirst(cfg: Config, run: Run, i: nat)
    requires IsRun(cfg, run) && i < |run.labels| && CanBePutOff(run.labels[i])
    ensures run.states[i].robot.loc in {BetweenWaypoints, RobotHolding, Waiting, RobotDone}
    ensures forall o <- run.states[i].others :: o.loc !in {OtherStart, CheckValidity, OtherChoose}
  {
    var s := run.states[i];
    assert Step(cfg, s, run.labels[i], run.states[i + 1]);
    forall o | o in s.others
      ensures o.loc !in {OtherStart, CheckValidity, OtherChoose}
    {
      assert !SomeCommitted(s);
      assert !OtherCommitted(o);
    }
  }

  /** Only delays take time. */
  lemma OnlyDelaysTakeTime(cfg: Config, run: Run, i: nat)
    requires IsRun(cfg, run) && i < |run.labels|
    ensures run.states[i + 1].now == run.states[i].now + (if run.labels[i].Delay? then run.labels[i].d else 0.0)
    ensures run.states[i + 1].now >= run.states[i].now
  {
    assert Step(cfg, run.states[i], run.labels[i], run.states[i + 1]);
  }

  /** The waypoints the scheduled robot has been at up to state n. */
  ghost function BeenAt(run: Run, n: nat): set<int>
    requires n < |run.states|
  {
    set k | 0 <= k <= n :: run.states[k].robot.curWaypoint
  }

  /** `visited` holds the waypoints configured as visited, and those the robot has been at. */
  lemma {:induction false} VisitedAreMarked(cfg: Config, run: Run, n: nat)
    requires IsRun(cfg, run) && n < |run.states|
    ensures var r := run.states[n].robot;
            if r.loc == RobotStart then r.visited == {} && BeenAt(run, n) == {cfg.nextWaypoint}
            else r.visited == cfg.visitedWaypoints + BeenAt(run, n)
    decreases n
  {
    if n > 0 {
      VisitedAreMarked(cfg, run, n - 1);
      assert Step(cfg, run.states[n - 1], run.labels[n - 1], run.states[n]);
      assert BeenAt(run, n) == BeenAt(run, n - 1) + {run.states[n].robot.curWaypoint};
      assert run.states[n - 1].robot.curWaypoint in BeenAt(run, n - 1);
    } else {
      assert BeenAt(run, 0) == {run.states[0].robot.curWaypoint};
    }
  }

  /** The edge that ends a trip or a hold. */
  predicate Ends(l: Label, loc: RobotLocation) {
    if loc == BetweenWaypoints then l.Arrive? else l.HoldEnd?
  }

  /** While the scheduled robot travels or holds, its clock shows the time since it began. */
  lemma RobotStays(cfg: Config, s: State, l: Label, t: State)
    requires Step(cfg, s, l, t) && s.robot.loc in {BetweenWaypoints, RobotHolding}
    ensures if Ends(l, s.robot.loc) then t.now == s.now
            else t.robot == s.robot.(x := s.robot.x + (t.now - s.now))
  {
  }

  lemma {:induction false} RobotStaysUntil(cfg: Config, run: Run, a: nat, i: nat)
    requires IsRun(cfg, run) && a < i < |run.states|
    requires var r := run.states[a + 1].robot;
             && r.loc in {BetweenWaypoints, RobotHolding} && r.x == 0.0
             && forall k | a < k < i :: !Ends(run.labels[k], r.loc)
    ensures run.states[i].robot == run.states[a + 1].robot.(x := run.states[i].now - run.states[a + 1].now)
    decreases i
  {
    if i > a + 1 {
      RobotStaysUntil(cfg, run, a, i - 1);
      RobotStays(cfg, run.states[i - 1], run.labels[i - 1], run.states[i]);
    }
  }

  /** A trip of the scheduled robot takes at least the distance, and at most that times the uncertainty. */
  lemma TripTakes(cfg: Config, run: Run, a: nat, b: nat)
    requires IsRun(cfg, run) && a < b < |run.labels|
    requires run.labels[a].ChooseNext? && run.labels[b].Arrive?
    requires forall k | a < k < b :: !run.labels[k].Arrive?
    ensures var dist := cfg.dist(run.states[a].robot.curWaypoint, run.labels[a].to) as real;
            dist <= run.states[b].now - run.states[a].now <= dist * cfg.uncertainty
    ensures run.states[b + 1].robot.curWaypoint == run.labels[a].to
  {
    assert Step(cfg, run.states[a], run.labels[a], run.states[a + 1]);
    assert Step(cfg, run.states[b], run.labels[b], run.states[b + 1]);
    RobotStaysUntil(cfg, run, a, b);
    RunIsSafe(cfg, run, b);
  }

  /** Holding takes exactly one time unit. */
  lemma HoldTakes(cfg: Config, run: Run, a: nat, b: nat)
    requires IsRun(cfg, run) && a < b < |run.labels|
    requires run.labels[a].Hold? && run.labels[b].HoldEnd?
    requires forall k | a < k < b :: !run.labels[k].HoldEnd?
    ensures run.states[b].now - run.states[a].now == 1.0
  {
    assert Step(cfg, run.states[a], run.labels[a], run.states[a + 1]);
    assert Step(cfg, run.states[b], run.labels[b], run.states[b + 1]);
    RobotStaysUntil(cfg, run, a, b);
  }

  /** `total` is the time until the robot is done. */
  lemma {:induction false} TotalStopsAtTheEnd(cfg: Config, run: Run, n: nat)
    requires IsRun(cfg, run) && n < |run.states|
    ensures run.states[n].robot.loc != RobotDone ==> run.states[n].total == run.states[n].now
    ensures forall k | 0 <= k < n && run.labels[k].Finish? :: run.states[n].total == run.states[k].now
    ensures run.states[n].robot.loc == RobotDone <==> exists k :: 0 <= k < n && run.labels[k].Finish?
    decreases n
  {
    if n > 0 {
      TotalStopsAtTheEnd(cfg, run, n - 1);
      assert Step(cfg, run.states[n - 1], run.labels[n - 1], run.states[n]);
      if run.labels[n - 1].Finish? {
        assert run.states[n].total == run.states[n - 1].now;
      }
    }
  }

  /** What a step does to another robot. */
  ghost predicate OtherMoves(cfg: Config, id: nat, o: Other, l: Label, o': Other) {
    if l.Delay? then o' == o.(x := o.x + l.d)
    else if l.OtherStep? && l.robot == id then OtherEnabled(cfg, o, l.edge) && o' == FireOther(cfg, id, o, l.edge)
    else if l.Release? then o' == o || o' == OtherGo(cfg, id, o)
    else o' == o
  }

  /** The other robot at moment i of the run. */
  ghost function OtherAt(run: Run, id: nat, i: nat): Other
    requires i < |run.states|
  {
    if IsOther(run.states[i], id) then run.states[i].others[id - 2]
    else Other(OtherDone, 0.0, 0, 0, Next(DoneStep, 0))
  }

  lemma StepMovesOther(cfg: Config, s: State, l: Label, t: State, id: nat)
    requires Step(cfg, s, l, t) && IsOther(s, id)
    ensures IsOther(t, id) && OtherMoves(cfg, id, s.others[id - 2], l, t.others[id - 2])
    ensures t.now == if l.Delay? then s.now + l.d else s.now
  {
  }

  ghost predicate IsOtherRobot(cfg: Config, id: nat) {
    2 <= id <= cfg.maxRobots || id == 2
  }

  /** The part of a run that concerns one of the other robots. */
  ghost predicate OtherRun(cfg: Config, run: Run, id: nat) {
    && |run.states| == |run.labels| + 1
    && OtherAt(run, id, 0) == Other(OtherStart, 0.0, 0, 0, Next(DoneStep, 0))
    && (forall i | 0 <= i < |run.labels| ::
          && OtherMoves(cfg, id, OtherAt(run, id, i), run.labels[i], OtherAt(run, id, i + 1))
          && run.states[i + 1].now ==
             if run.labels[i].Delay? then run.states[i].now + run.labels[i].d else run.states[i].now)
    && (forall i | 0 <= i < |run.states| :: OtherInvariant(cfg, OtherAt(run, id, i)))
  }

  ghost predicate OtherInvariant(cfg: Config, o: Other) {
    && (o.loc == OtherBetween ==> o.x <= cfg.dist(o.cur, o.next.value) as real * cfg.uncertainty)
    && (o.loc == OtherHolding ==> o.x <= o.next.value as real)
  }

  lemma {:induction false} OthersStay(cfg: Config, run: Run, id: nat, n: nat)
    requires IsRun(cfg, run) && IsOtherRobot(cfg, id) && n < |run.states|
    ensures IsOther(run.states[n], id)
    decreases n
  {
    if n > 0 {
      OthersStay(cfg, run, id, n - 1);
      StepMovesOther(cfg, run.states[n - 1], run.labels[n - 1], run.states[n], id);
    }
  }

  lemma RunMovesOther(cfg: Config, run: Run, id: nat)
    requires IsRun(cfg, run) && IsOtherRobot(cfg, id)
    ensures OtherRun(cfg, run, id)
  {
    OthersStay(cfg, run, id, 0);
    forall i | 0 <= i < |run.labels|
      ensures OtherMoves(cfg, id, OtherAt(run, id, i), run.labels[i], OtherAt(run, id, i + 1))
      ensures run.states[i + 1].now ==
              if run.labels[i].Delay? then run.states[i].now + run.labels[i].d else run.states[i].now
    {
      OthersStay(cfg, run, id, i);
      StepMovesOther(cfg, run.states[i], run.labels[i], run.states[i + 1], id);
    }
    forall i | 0 <= i < |run.states|
      ensures OtherInvariant(cfg, OtherAt(run, id, i))
    {
      OthersStay(cfg, run, id, i);
      RunIsSafe(cfg, run, i);
      assert OtherAt(run, id, i) in run.states[i].others;
    }
  }

  predicate IsEdge(l: Label, id: nat, edge: OtherEdge) {
    l == OtherStep(id, edge)
  }

  /** The edge that ends a trip or a hold of another robot. */
  predicate OtherEnds(l: Label, id: nat, loc: OtherLocation) {
    IsEdge(l, id, if loc == OtherBetween then ArriveAndQueue else EndHold)
  }

  lemma {:induction false} OtherStaysUntil(cfg: Config, run: Run, id: nat, a: nat, i: nat)
    requires OtherRun(cfg, run, id) && a < i < |run.states|
    requires var o := OtherAt(run, id, a + 1);
             && o.x == 0.0 && o.loc in {OtherBetween, OtherHolding}
             && forall k | a < k < i :: !OtherEnds(run.labels[k], id, o.loc)
    ensures OtherAt(run, id, i) == OtherAt(run, id, a + 1).(x := run.states[i].now - run.states[a + 1].now)
    decreases i
  {
    if i > a + 1 {
      OtherStaysUntil(cfg, run, id, a, i - 1);
      assert OtherMoves(cfg, id, OtherAt(run, id, i - 1), run.labels[i - 1], OtherAt(run, id, i - 1 + 1));
    }
  }

  /** A trip of another robot takes at least the distance, and at most that times the uncertainty. */
  lemma OtherTripTakes(cfg: Config, run: Run, id: nat, a: nat, b: nat)
    requires IsRun(cfg, run) && IsOtherRobot(cfg, id) && a < b < |run.labels|
    requires IsEdge(run.labels[a], id, Depart) && IsEdge(run.labels[b], id, ArriveAndQueue)
    requires forall k | a < k < b :: !IsEdge(run.labels[k], id, ArriveAndQueue)
    ensures var o := OtherAt(run, id, a); var dist := cfg.dist(o.cur, o.next.value) as real;
            dist <= run.states[b].now - run.states[a].now <= dist * cfg.uncertainty
  {
    RunMovesOther(cfg, run, id);
    OtherTripIsTimed(cfg, run, id, a, b);
  }

  lemma OtherTripIsTimed(cfg: Config, run: Run, id: nat, a: nat, b: nat)
    requires OtherRun(cfg, run, id) && a < b < |run.labels|
    requires IsEdge(run.labels[a], id, Depart) && IsEdge(run.labels[b], id, ArriveAndQueue)
    requires forall k | a < k < b :: !IsEdge(run.labels[k], id, ArriveAndQueue)
    ensures var o := OtherAt(run, id, a); var dist := cfg.dist(o.cur, o.next.value) as real;
            dist <= run.states[b].now - run.states[a].now <= dist * cfg.uncertainty
  {
    assert OtherMoves(cfg, id, OtherAt(run, id, a), run.labels[a], OtherAt(run, id, a + 1));
    OtherStaysUntil(cfg, run, id, a, b);
    assert OtherMoves(cfg, id, OtherAt(run, id, b), run.labels[b], OtherAt(run, id, b + 1));
    assert OtherInvariant(cfg, OtherAt(run, id, b));
  }

  /** A hold of another robot takes exactly the time its plan says. */
  lemma OtherHoldTakes(cfg: Config, run: Run, id: nat, a: nat, b: nat)
    requires IsRun(cfg, run) && IsOtherRobot(cfg, id) && a < b < |run.labels|
    requires IsEdge(run.labels[a], id, BeginHold) && IsEdge(run.labels[b], id, EndHold)
    requires forall k | a < k < b :: !IsEdge(run.labels[k], id, EndHold)
    ensures run.states[b].now - run.states[a].now == OtherAt(run, id, a).next.value as real
  {
    RunMovesOther(cfg, run, id);
    assert OtherMoves(cfg, id, OtherAt(run, id, a), run.labels[a], OtherAt(run, id, a + 1));
    OtherStaysUntil(cfg, run, id, a, b);
    assert OtherMoves(cfg, id, OtherAt(run, id, b), run.labels[b], OtherAt(run, id, b + 1));
  }

  /** The waypoints at which the robot has queued in the first n steps, in order. */
  ghost function Stops(run: Run, id: nat, n: nat): seq<int>
    requires n <= |run.labels| < |run.states|
  {
    if n == 0 then []
    else if IsEdge(run.labels[n - 1], id, ArriveAndQueue) then
      Stops(run, id, n - 1) + [OtherAt(run, id, n - 1).next.value]
    else Stops(run, id, n - 1)
  }

  /** The waypoints among the steps 1..k-1 of the published plan; step 0 is where the robot starts. */
  ghost function PlanStops(cfg: Config, id: nat, k: nat): seq<int> {
    if k <= 1 then []
    else if cfg.actionType(id, k - 1) == 2 then PlanStops(cfg, id, k - 1) + [cfg.actionValue(id, k - 1)]
    else PlanStops(cfg, id, k - 1)
  }

  /** The last plan step the robot has read. */
  ghost predicate HasRead(cfg: Config, id: nat, o: Other) {
    && o.stepIndex >= 1
    && o.next.value == cfg.actionValue(id, o.stepIndex - 1)
    && (o.next.kind == WaypointStep <==> cfg.actionType(id, o.stepIndex - 1) == 2)
    && (o.next.kind == HoldStep <==> cfg.actionType(id, o.stepIndex - 1) == 1)
  }

  ghost predicate OnPlan(cfg: Config, id: nat, o: Other, stops: seq<int>) {
    match o.loc
    case OtherStart => o.stepIndex == 0 && stops == []
    case CheckValidity => cfg.maxRobots > 1 && o.stepIndex == 1 && stops == [] && HasRead(cfg, id, o)
    case OtherDone =>
      if cfg.maxRobots == 1 then o.stepIndex == 0 && stops == []
      else OnTheWay(cfg, id, o, stops) && o.next.kind == DoneStep
    case InvalidPath =>
      || (o.stepIndex == 1 && stops == [] && cfg.actionType(id, 0) != 2)
      || (OnTheWay(cfg, id, o, stops) && o.next.kind == WaypointStep && cfg.dist(o.cur, o.next.value) == -1)
    case AtWaypoint =>
      && cfg.maxRobots > 1 && o.stepIndex >= 2 && cfg.actionType(id, 0) == 2
      && HasRead(cfg, id, o) && o.next.kind == WaypointStep
      && stops == PlanStops(cfg, id, o.stepIndex)
      && o.cur == o.next.value
    case _ =>
      && OnTheWay(cfg, id, o, stops)
      && (o.loc == OtherBetween ==> o.next.kind == WaypointStep && cfg.dist(o.cur, o.next.value) != -1)
      && (o.loc == OtherHolding ==> o.next.kind == HoldStep)
  }

  /** All steps but the last one read are done, and the robot is at the last of its stops. */
  ghost predicate OnTheWay(cfg: Config, id: nat, o: Other, stops: seq<int>) {
    && cfg.maxRobots > 1 && o.stepIndex >= 2 && HasRead(cfg, id, o) && cfg.actionType(id, 0) == 2
    && stops == PlanStops(cfg, id, o.stepIndex - 1)
    && o.cur == if stops == [] then cfg.actionValue(id, 0) else stops[|stops| - 1]
  }

  lemma MoveKeepsPlan(cfg: Config, id: nat, o: Other, l: Label, o': Other, stops: seq<int>)
    requires OtherMoves(cfg, id, o, l, o') && OnPlan(cfg, id, o, stops)
    ensures OnPlan(cfg, id, o', if IsEdge(l, id, ArriveAndQueue) then stops + [o.next.value] else stops)
  {
  }

  lemma {:induction false} PlanIsKept(cfg: Config, run: Run, id: nat, n: nat)
    requires OtherRun(cfg, run, id) && n < |run.states|
    ensures OnPlan(cfg, id, OtherAt(run, id, n), Stops(run, id, n))
    decreases n
  {
    if n > 0 {
      var m := n - 1;
      PlanIsKept(cfg, run, id, m);
      MoveKeepsPlan(cfg, id, OtherAt(run, id, m), run.labels[m], OtherAt(run, id, m + 1), Stops(run, id, m));
    }
  }

  /** In every run another robot queues at exactly the waypoints of its plan, in order, and holds where
      the plan says so. */
  lemma OtherFollowsPlan(cfg: Config, run: Run, id: nat, n: nat)
    requires IsRun(cfg, run) && IsOtherRobot(cfg, id) && n < |run.states|
    ensures OnPlan(cfg, id, OtherAt(run, id, n), Stops(run, id, n))
  {
    RunMovesOther(cfg, run, id);
    PlanIsKept(cfg, run, id, n);
  }
}
