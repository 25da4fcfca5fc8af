/** The schedule extracted from the simulation of a complete run of the waypoint network. */
module WaypointRoute {
  import opened Samples
  import opened Sequences
  import opened WaypointNetwork
  import opened WaypointSafety
  import opened Wrappers
  import S = WaypointSchedule

  /** The waypoints chosen in the first n steps, in order. */
  ghost function Chosen(labels: seq<Label>, n: nat): seq<int>
    requires n <= |labels|
  {
    if n == 0 then []
    else if labels[n - 1].ChooseNext? then Chosen(labels, n - 1) + [labels[n - 1].to]
    else Chosen(labels, n - 1)
  }

  /** The values of `cur_waypoint` in the states 0..n. */
  ghost function CurHistory(states: seq<State>, n: nat): (history: seq<int>)
    requires n < |states|
    ensures history != [] && history[|history| - 1] == states[n].robot.curWaypoint
  {
    if n == 0 then [states[0].robot.curWaypoint] else CurHistory(states, n - 1) + [states[n].robot.curWaypoint]
  }

  /** The values of `dest_waypoint` in the states 0..n. */
  ghost function DestHistory(states: seq<State>, n: nat): (history: seq<int>)
    requires n < |states|
    ensures history != [] && history[|history| - 1] == states[n].robot.destWaypoint
  {
    if n == 0 then [states[0].robot.destWaypoint] else DestHistory(states, n - 1) + [states[n].robot.destWaypoint]
  }

  /** The waypoint from which the i-th choice was made. */
  ghost function Origin(cfg: Config, chosen: seq<int>, i: nat): int
    requires i <= |chosen|
  {
    if i == 0 then cfg.nextWaypoint else chosen[i - 1]
  }

  /** The choices follow edges of the distance matrix and leave the destination alone until the end. */
  ghost predicate IsRoute(cfg: Config, chosen: seq<int>) {
    forall i | 0 <= i < |chosen| ::
      && cfg.IsWaypoint(chosen[i])
      && cfg.dist(Origin(cfg, chosen, i), chosen[i]) != -1
      && Origin(cfg, chosen, i) != cfg.destination
  }

  ghost function Arrived(loc: RobotLocation, chosen: seq<int>): seq<int> {
    if loc == BetweenWaypoints && chosen != [] then chosen[..|chosen| - 1] else chosen
  }

  ghost predicate OnRoute(cfg: Config, r: Robot, chosen: seq<int>) {
    && IsRoute(cfg, chosen)
    && (r.loc == RobotStart ==> chosen == [] && r.destWaypoint == 0)
    && (r.loc == BetweenWaypoints ==> chosen != [])
    && (r.loc != RobotStart ==> r.destWaypoint == if chosen == [] then -1 else chosen[|chosen| - 1])
    && r.curWaypoint == Origin(cfg, chosen, |Arrived(r.loc, chosen)|)
    && (r.loc == RobotDone ==> r.curWaypoint == cfg.destination)
  }

  /** What one step does to the scheduled robot. */
  ghost predicate RobotMoves(cfg: Config, r: Robot, l: Label, r': Robot) {
    match l
    case Start =>
      && r.loc == RobotStart && r'.loc == Choose && r'.destWaypoint == -1 && r'.curWaypoint == r.curWaypoint
    case ChooseNext(to) =>
      && r.loc == Choose && cfg.IsWaypoint(to) && cfg.dist(r.curWaypoint, to) != -1
      && r.curWaypoint != cfg.destination
      && r'.loc == BetweenWaypoints && r'.destWaypoint == to && r'.curWaypoint == r.curWaypoint
    case Finish =>
      && r.loc == Choose && r.curWaypoint == cfg.destination && r' == r.(loc := RobotDone)
    case Arrive =>
      && r.loc == BetweenWaypoints && r'.loc == QueueUp
      && r'.curWaypoint == r'.destWaypoint == r.destWaypoint
    case _ =>
      && r'.curWaypoint == r.curWaypoint && r'.destWaypoint == r.destWaypoint
      && (r'.loc == r.loc || (&& r.loc in {QueueUp, RobotHolding, Waiting}
                              && r'.loc in {QueueUp, RobotHolding, Waiting, Choose}))
  }

  lemma StepMovesRobot(cfg: Config, s: State, l: Label, t: State)
    requires Step(cfg, s, l, t)
    ensures RobotMoves(cfg, s.robot, l, t.robot)
  {
  }

  /** The robot's part of a run. */
  ghost predicate RobotRun(cfg: Config, run: Run) {
    && |run.states| == |run.labels| + 1
    && run.states[0].robot.loc == RobotStart
    && run.states[0].robot.curWaypoint == cfg.nextWaypoint && run.states[0].robot.destWaypoint == 0
    && forall i | 0 <= i < |run.labels| :: RobotMoves(cfg, run.states[i].robot, run.labels[i], run.states[i + 1].robot)
  }

  lemma RunMovesRobot(cfg: Config, run: Run)
    requires IsRun(cfg, run)
    ensures RobotRun(cfg, run)
  {
    forall i | 0 <= i < |run.labels|
      ensures RobotMoves(cfg, run.states[i].robot, run.labels[i], run.states[i + 1].robot)
    {
      StepMovesRobot(cfg, run.states[i], run.labels[i], run.states[i + 1]);
    }
  }

  lemma MoveKeepsRoute(cfg: Config, r: Robot, l: Label, r': Robot, chosen: seq<int>)
    requires RobotMoves(cfg, r, l, r') && OnRoute(cfg, r, chosen)
    ensures OnRoute(cfg, r', if l.ChooseNext? then chosen + [l.to] else chosen)
  {
    if l.ChooseNext? {
      assert (chosen + [l.to])[..|chosen|] == chosen;
      ChoiceKeepsRoute(cfg, chosen, l.to);
    }
  }

  lemma ChoiceKeepsRoute(cfg: Config, chosen: seq<int>, to: int)
    requires IsRoute(cfg, chosen) && cfg.IsWaypoint(to)
    requires var last := Origin(cfg, chosen, |chosen|); cfg.dist(last, to) != -1 && last != cfg.destination
    ensures IsRoute(cfg, chosen + [to])
  {
    var longer := chosen + [to];
    forall i | 0 <= i < |longer|
      ensures && cfg.IsWaypoint(longer[i])
              && cfg.dist(Origin(cfg, longer, i), longer[i]) != -1
              && Origin(cfg, longer, i) != cfg.destination
    {
      assert Origin(cfg, longer, i) == Origin(cfg, chosen, i);
    }
  }

  lemma {:induction false} RunIsOnRoute(cfg: Config, run: Run, n: nat)
    requires RobotRun(cfg, run) && n < |run.states|
    ensures OnRoute(cfg, run.states[n].robot, Chosen(run.labels, n))
    decreases n
  {
    if n > 0 {
      RunIsOnRoute(cfg, run, n - 1);
      MoveKeepsRoute(cfg, run.states[n - 1].robot, run.labels[n - 1], run.states[n].robot, Chosen(run.labels, n - 1));
    }
  }

  ghost function NowChosen(l: Label, chosen: seq<int>): seq<int> {
    if l.ChooseNext? then chosen + [l.to] else chosen
  }

  /** The values `dest_waypoint` takes: 0, then -1 from Start on, then the choices. */
  ghost function DestValues(loc: RobotLocation, chosen: seq<int>): seq<int> {
    if loc == RobotStart then [0] else [0, -1] + chosen
  }

  /** The values `cur_waypoint` takes: the first waypoint and the choices reached so far. */
  ghost function CurValues(cfg: Config, loc: RobotLocation, chosen: seq<int>): seq<int> {
    [cfg.nextWaypoint] + Arrived(loc, chosen)
  }

  lemma MoveExtendsDest(cfg: Config, r: Robot, l: Label, r': Robot, chosen: seq<int>)
    requires RobotMoves(cfg, r, l, r') && OnRoute(cfg, r, chosen)
    ensures Extends(DestValues(r'.loc, NowChosen(l, chosen)), DestValues(r.loc, chosen), r'.destWaypoint)
  {
    if l.ChooseNext? {
      Associative([0, -1], chosen, [l.to]);
    } else if l.Start? {
      assert [0] + [-1] == [0, -1] + chosen;
    }
  }

  lemma MoveExtendsCur(cfg: Config, r: Robot, l: Label, r': Robot, chosen: seq<int>)
    requires RobotMoves(cfg, r, l, r') && OnRoute(cfg, r, chosen)
    ensures Extends(CurValues(cfg, r'.loc, NowChosen(l, chosen)), CurValues(cfg, r.loc, chosen), r'.curWaypoint)
  {
    if l.Arrive? {
      ArrivalAppends(cfg.nextWaypoint, chosen);
    } else {
      ArrivedStays(r.loc, l, r'.loc, chosen);
      LastReached(cfg, Arrived(r.loc, chosen), chosen);
    }
  }

  lemma ArrivedStays(loc: RobotLocation, l: Label, loc': RobotLocation, chosen: seq<int>)
    requires if l.ChooseNext? then loc == Choose && loc' == BetweenWaypoints
             else loc == BetweenWaypoints <==> loc' == BetweenWaypoints
    ensures Arrived(loc', NowChosen(l, chosen)) == Arrived(loc, chosen)
  {
    if l.ChooseNext? {
      assert (chosen + [l.to])[..|chosen|] == chosen;
    }
  }

  lemma ArrivalAppends(first: int, chosen: seq<int>)
    requires chosen != []
    ensures [first] + chosen == [first] + chosen[..|chosen| - 1] + [chosen[|chosen| - 1]]
  {
  }

  lemma LastReached(cfg: Config, arrived: seq<int>, chosen: seq<int>)
    requires arrived <= chosen
    ensures ([cfg.nextWaypoint] + arrived)[|arrived|] == Origin(cfg, chosen, |arrived|)
  {
  }

  /** What the two variables have gone through up to state n. */
  ghost predicate Tracked(cfg: Config, run: Run, n: nat)
    requires n < |run.states| == |run.labels| + 1
  {
    var loc, chosen := run.states[n].robot.loc, Chosen(run.labels, n);
    && GoesThrough(DestHistory(run.states, n), DestValues(loc, chosen))
    && GoesThrough(CurHistory(run.states, n), CurValues(cfg, loc, chosen))
  }

  lemma {:induction false} HistoriesAreReduced(cfg: Config, run: Run, n: nat)
    requires RobotRun(cfg, run) && n < |run.states|
    ensures Tracked(cfg, run, n)
    decreases n
  {
    if n == 0 {
      TrackedAtFirst(cfg, run);
    } else {
      HistoriesAreReduced(cfg, run, n - 1);
      RunIsOnRoute(cfg, run, n - 1);
      TrackedStep(cfg, run, n - 1);
    }
  }

  lemma TrackedAtFirst(cfg: Config, run: Run)
    requires RobotRun(cfg, run)
    ensures Tracked(cfg, run, 0)
  {
    assert Chosen(run.labels, 0) == [];
  }

  lemma TrackedStep(cfg: Config, run: Run, n: nat)
    requires n < |run.labels| && |run.states| == |run.labels| + 1
    requires OnRoute(cfg, run.states[n].robot, Chosen(run.labels, n))
    requires RobotMoves(cfg, run.states[n].robot, run.labels[n], run.states[n + 1].robot)
    requires Tracked(cfg, run, n)
    ensures Tracked(cfg, run, n + 1)
  {
    HistoriesGoOn(cfg, run.states[n].robot, run.labels[n], run.states[n + 1].robot, Chosen(run.labels, n),
                  DestHistory(run.states, n), CurHistory(run.states, n));
    assert Chosen(run.labels, n + 1) == NowChosen(run.labels[n], Chosen(run.labels, n));
  }

  lemma HistoriesGoOn(cfg: Config, r: Robot, l: Label, r': Robot, chosen: seq<int>, dest: seq<int>, cur: seq<int>)
    requires RobotMoves(cfg, r, l, r') && OnRoute(cfg, r, chosen)
    requires GoesThrough(dest, DestValues(r.loc, chosen)) && GoesThrough(cur, CurValues(cfg, r.loc, chosen))
    ensures GoesThrough(dest + [r'.destWaypoint], DestValues(r'.loc, NowChosen(l, chosen)))
    ensures GoesThrough(cur + [r'.curWaypoint], CurValues(cfg, r'.loc, NowChosen(l, chosen)))
  {
    MoveExtendsDest(cfg, r, l, r', chosen);
    MoveExtendsCur(cfg, r, l, r', chosen);
    GoesOn(dest, DestValues(r.loc, chosen), DestValues(r'.loc, NowChosen(l, chosen)), r'.destWaypoint);
    GoesOn(cur, CurValues(cfg, r.loc, chosen), CurValues(cfg, r'.loc, NowChosen(l, chosen)), r'.curWaypoint);
  }

  lemma CurIsAWaypoint(cfg: Config, run: Run)
    requires IsRun(cfg, run)
    ensures cfg.IsWaypoint(cfg.nextWaypoint)
  {
    RunIsSafe(cfg, run, 0);
  }

  /** What the traces must show for the conversion to be right: one sample of `dest_waypoint` before
      Start, so that the second one is -1; the dropped samples; and, since a choice of the waypoint
      the robot is at changes neither variable, no such choice but the first, and that one only with
      a second sample of the first waypoint. */
  ghost predicate ShowRoute(nextWaypoint: int, chosen: seq<int>, cur: seq<Sample>, dest: seq<Sample>,
                            hold: seq<Sample>) {
    && |cur| >= 2 && |dest| >= 2 && hold != [] && dest[1].value == -1
    && NoRepeats(chosen)
    && (chosen != [] && chosen[0] == nextWaypoint ==> cur[1].value == nextWaypoint)
  }

  ghost predicate Extracts(r: Option<seq<S.Action>>, chosen: seq<int>) {
    r.Some? && S.Waypoints(r.value) == chosen
  }

  /** The traces show these choices, up to repetitions. */
  ghost predicate AreTraces(nextWaypoint: int, chosen: seq<int>, cur: seq<Sample>, dest: seq<Sample>) {
    && nextWaypoint >= 0 && (forall c <- chosen :: c >= 0)
    && Destutter(Values(cur)) == Destutter([nextWaypoint] + chosen)
    && Destutter(Values(dest)) == Destutter([0, -1] + chosen)
  }

  lemma TracesOfRoute(nextWaypoint: int, chosen: seq<int>, cur: seq<Sample>, dest: seq<Sample>)
    requires AreTraces(nextWaypoint, chosen, cur, dest)
    ensures |dest| >= 2 && (dest[1].value == -1 || dest[1].value == 0)
    ensures Destutter([dest[1].value] + Values(dest[2..])) ==
            if dest[1].value == -1 then Destutter([-1] + chosen) else [0] + Destutter([-1] + chosen)
    ensures cur != [] && cur[0].value == nextWaypoint && forall s <- cur :: s.value >= 0
  {
    var vc, vd := Values(cur), Values(dest);
    var behind := Destutter([-1] + chosen);
    assert ([0, -1] + chosen)[1..] == [-1] + chosen;
    assert Destutter(vd) == [0] + behind;
    assert vd[1..] == [dest[1].value] + Values(dest[2..]);
    if vd[1] != vd[0] {
      assert Destutter(vd) == [0] + Destutter(vd[1..]);
      SameHead(0, behind, Destutter(vd));
      SameHead(0, Destutter(vd[1..]), Destutter(vd));
    }
    forall s | s in cur
      ensures s.value >= 0
    {
      var i :| 0 <= i < |cur| && cur[i] == s;
      assert vc[i] == s.value;
      DestutterMembers(vc, s.value);
      DestutterMembers([nextWaypoint] + chosen, s.value);
    }
  }

  /** The conversion of the traces yields the route exactly when they show it. */
  lemma ExtractedRoute(nextWaypoint: int, chosen: seq<int>, cur: seq<Sample>, dest: seq<Sample>, hold: seq<Sample>)
    requires AreTraces(nextWaypoint, chosen, cur, dest)
    ensures Extracts(S.Schedule(cur, dest, hold), chosen) <==> ShowRoute(nextWaypoint, chosen, cur, dest, hold)
  {
    TracesOfRoute(nextWaypoint, chosen, cur, dest);
    if |cur| >= 2 && hold != [] {
      if dest[1].value == 0 {
        DoubleStartFails(cur[1..], dest[2..], hold[1..], Destutter([-1] + chosen)[1..]);
      } else if !NoRepeats(chosen) {
        if S.Extract(cur[1..], dest[2..], hold[1..], -1).Some? {
          S.ExtractsNoRepeats(cur[1..], dest[2..], hold[1..], -1);
        }
      } else if chosen != [] && chosen[0] == nextWaypoint {
        FirstChoiceStays(nextWaypoint, chosen, cur, dest[2..], hold[1..]);
      } else {
        assert chosen != [] ==> chosen[0] in chosen;
        FirstChoiceMoves(nextWaypoint, chosen, cur, dest[2..], hold[1..]);
      }
    }
  }

  lemma FirstChoiceMoves(nextWaypoint: int, chosen: seq<int>, cur: seq<Sample>, dest: seq<Sample>, hold: seq<Sample>)
    requires NoRepeats(chosen) && (chosen != [] ==> chosen[0] >= 0 && chosen[0] != nextWaypoint)
    requires cur != [] && cur[0].value == nextWaypoint
    requires Destutter(Values(cur)) == Destutter([nextWaypoint] + chosen)
    requires Destutter([-1] + Values(dest)) == Destutter([-1] + chosen)
    ensures Extracts(S.Extract(cur[1..], dest, hold, -1), chosen)
  {
    NoRepeatsBehind(nextWaypoint, chosen);
    NoRepeatsBehind(-1, chosen);
    assert Values(cur) == [nextWaypoint] + Values(cur[1..]);
    S.ExtractsRoute(cur[1..], dest, hold, nextWaypoint, -1, chosen);
  }

  /** Choosing the first waypoint itself is noticed only if it is sampled a second time. */
  lemma FirstChoiceStays(nextWaypoint: int, chosen: seq<int>, cur: seq<Sample>, dest: seq<Sample>, hold: seq<Sample>)
    requires NoRepeats(chosen) && chosen != [] && chosen[0] == nextWaypoint >= 0
    requires |cur| >= 2 && cur[0].value == nextWaypoint && cur[1].value >= 0
    requires Destutter(Values(cur)) == Destutter([nextWaypoint] + chosen)
    requires Destutter([-1] + Values(dest)) == Destutter([-1] + chosen)
    ensures Extracts(S.Extract(cur[1..], dest, hold, -1), chosen) <==> cur[1].value == nextWaypoint
  {
    var rest := Values(cur[1..]);
    assert ([nextWaypoint] + chosen)[1..] == chosen;
    DestutterIdentity(chosen);
    NoRepeatsBehind(-1, chosen);
    assert Values(cur) == [nextWaypoint] + rest && rest[0] == cur[1].value;
    assert ([-1] + rest)[1..] == rest && ([nextWaypoint] + rest)[1..] == rest;
    if cur[1].value == nextWaypoint {
      S.ExtractsRoute(cur[1..], dest, hold, -1, -1, chosen);
    } else if S.Extract(cur[1..], dest, hold, -1).Some? {
      S.ExtractsAtMost(cur[1..], dest, hold, -1);
    }
  }

  /** With a second sample before Start the code takes -1 for a waypoint and never reaches it. */
  lemma DoubleStartFails(cur: seq<Sample>, dest: seq<Sample>, hold: seq<Sample>, c: seq<int>)
    requires cur != [] && forall s <- cur :: s.value >= 0
    requires Destutter([0] + Values(dest)) == [0] + ([-1] + c)
    ensures S.Extract(cur, dest, hold, 0).None?
  {
    S.SkipFinds(dest, 0, [-1] + c);
    DestutterAfter(0, Values(dest), [-1] + c);
    NeverReaches(cur, -1);
  }

  lemma {:induction false} NeverReaches(cur: seq<Sample>, value: int)
    requires forall s <- cur :: s.value != value
    ensures S.Reach(cur, value) == S.NeverReached
    decreases |cur|
  {
    if cur != [] {
      NeverReaches(cur[1..], value);
    }
  }

  /** State n of a run is the end of the robot's route, and these are the traces up to there. */
  ghost predicate IsSampled(cfg: Config, run: Run, n: nat, cur: seq<Sample>, dest: seq<Sample>) {
    && IsRun(cfg, run) && n < |run.states|
    && run.states[n].robot.loc == RobotDone
    && IsTraceOf(cur, CurHistory(run.states, n)) && IsTraceOf(dest, DestHistory(run.states, n))
  }

  /** From the samples of any complete run, the extracted waypoints are exactly the destinations
      chosen, in order, if and only if the traces show the route; the choices lead along edges from
      next_waypoint() to destination(). */
  lemma ScheduleIsTheRoute(cfg: Config, run: Run, n: nat, cur: seq<Sample>, dest: seq<Sample>, hold: seq<Sample>)
    requires IsSampled(cfg, run, n, cur, dest)
    ensures var chosen := Chosen(run.labels, n);
            && IsRoute(cfg, chosen) && Origin(cfg, chosen, |chosen|) == cfg.destination
            && (Extracts(S.Schedule(cur, dest, hold), chosen)
                <==> ShowRoute(cfg.nextWaypoint, chosen, cur, dest, hold))
  {
    var chosen := Chosen(run.labels, n);
    RunMovesRobot(cfg, run);
    CurIsAWaypoint(cfg, run);
    RunIsOnRoute(cfg, run, n);
    HistoriesAreReduced(cfg, run, n);
    ExtractedRoute(cfg.nextWaypoint, chosen, cur, dest, hold);
  }

  ghost predicate NoSelfLoops(cfg: Config) {
    forall w | cfg.IsWaypoint(w) :: cfg.dist(w, w) == -1
  }

  /** Where no waypoint has an edge to itself, the condition is one on the traces alone. */
  lemma ShownWithoutSelfLoops(cfg: Config, chosen: seq<int>, cur: seq<Sample>, dest: seq<Sample>, hold: seq<Sample>)
    requires NoSelfLoops(cfg) && cfg.Valid() && IsRoute(cfg, chosen)
    ensures ShowRoute(cfg.nextWaypoint, chosen, cur, dest, hold) <==>
            |cur| >= 2 && |dest| >= 2 && hold != [] && dest[1].value == -1
  {
    forall i | 0 <= i < |chosen|
      ensures chosen[i] != Origin(cfg, chosen, i)
    {
      assert cfg.dist(Origin(cfg, chosen, i), chosen[i]) != -1;
    }
    forall i | 0 <= i < |chosen| - 1
      ensures chosen[i] != chosen[i + 1]
    {
      assert chosen[i + 1] != Origin(cfg, chosen, i + 1);
    }
  }
}
