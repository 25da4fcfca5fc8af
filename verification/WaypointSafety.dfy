/** What every reachable state of the waypoint network keeps about its queues. */
module WaypointSafety {
  import opened QueueLog
  import opened Sequences
  import opened WaypointNetwork
  import opened Wrappers

  /** The waypoint at which a robot waits for its release. */
  ghost function WaitsAt(s: State, robot: nat): Option<int> {
    if robot == 1 then
      if s.robot.loc == Waiting then Some(s.robot.curWaypoint) else None
    else if IsOther(s, robot) && s.others[robot - 2].loc == AtWaypoint then
      Some(s.others[robot - 2].cur)
    else None
  }

  /** The queues hold exactly the waiting robots, each once and at its own waypoint. */
  ghost predicate QueuesMatchRobots(cfg: Config, s: State) {
    && (forall w | 0 <= w < |s.waypoints| :: Distinct(s.waypoints[w].queue))
    && (forall w, robot: nat | 0 <= w < |s.waypoints| ::
          robot in s.waypoints[w].queue <==> WaitsAt(s, robot) == Some(w))
    && (forall robot: nat | WaitsAt(s, robot).Some? ::
          1 <= robot <= cfg.maxRobots && 0 <= WaitsAt(s, robot).value < |s.waypoints|)
  }

  ghost predicate QueueIdle(w: Waypoint) {
    w.x >= 0.0 && (w.loc == Idle <==> w.queue == [])
  }

  ghost predicate RobotConsistent(cfg: Config, r: Robot) {
    && cfg.IsWaypoint(r.curWaypoint)
    && (r.loc == BetweenWaypoints ==> cfg.IsWaypoint(r.destWaypoint))
    && (r.loc in {QueueUp, RobotHolding, Waiting} ==> r.destWaypoint == r.curWaypoint)
  }

  /** No robot can queue before the scheduled robot has loaded the stations. */
  ghost predicate StationsLoaded(cfg: Config, s: State) {
    if s.robot.loc == RobotStart then forall w | 0 <= w < |s.waypoints| :: s.waypoints[w].queue == []
    else s.stationWaypoint == cfg.stations
  }

  ghost predicate Safe(cfg: Config, s: State) {
    && |s.waypoints| == cfg.numWaypoints && |s.others| == cfg.OtherRobotMax() - 1
    && (cfg.maxRobots == 1 ==> s.others[0].loc in {OtherStart, OtherDone})
    && RobotConsistent(cfg, s.robot)
    && (forall w | 0 <= w < |s.waypoints| :: QueueIdle(s.waypoints[w]))
    && StationsLoaded(cfg, s)
    && QueuesMatchRobots(cfg, s)
  }

  lemma InitialIsSafe(cfg: Config)
    requires cfg.Valid()
    ensures Safe(cfg, Initial(cfg)) && LocationInvariants(cfg, Initial(cfg))
  {
  }

  /** A step that neither moves a robot into or out of waiting nor touches a queue. */
  lemma SameQueues(cfg: Config, s: State, t: State)
    requires QueuesMatchRobots(cfg, s)
    requires |t.waypoints| == |s.waypoints|
    requires forall w | 0 <= w < |s.waypoints| :: t.waypoints[w].queue == s.waypoints[w].queue
    requires forall robot: nat :: WaitsAt(t, robot) == WaitsAt(s, robot)
    ensures QueuesMatchRobots(cfg, t)
  {
  }

  /** `queue[w][robot]!`: the robot starts to wait at w. */
  lemma JoinedQueue(cfg: Config, s: State, t: State, w: nat, robot: nat)
    requires QueuesMatchRobots(cfg, s) && w < |s.waypoints| && 1 <= robot <= cfg.maxRobots
    requires t.waypoints == JoinAt(s.waypoints, w, robot)
    requires WaitsAt(s, robot) == None && WaitsAt(t, robot) == Some(w)
    requires forall other: nat | other != robot :: WaitsAt(t, other) == WaitsAt(s, other)
    ensures QueuesMatchRobots(cfg, t)
  {
  }

  /** `go[front()]!`: the front robot stops waiting at w. */
  lemma LeftQueue(cfg: Config, s: State, t: State, w: nat)
    requires QueuesMatchRobots(cfg, s) && w < |s.waypoints| && |s.waypoints[w].queue| > 0
    requires t.waypoints == s.waypoints[w := Leave(s.waypoints[w])]
    requires WaitsAt(t, s.waypoints[w].queue[0]) == None
    requires forall other: nat | other != s.waypoints[w].queue[0] :: WaitsAt(t, other) == WaitsAt(s, other)
    ensures QueuesMatchRobots(cfg, t)
  {
    var q := s.waypoints[w].queue;
    assert q == [q[0]] + q[1..];
    assert q[0] !in q[1..];
    assert WaitsAt(s, q[0]) == Some(w) by { assert q[0] in q; }
  }

  lemma DelayKeepsSafe(cfg: Config, s: State, d: real, t: State)
    requires Safe(cfg, s) && Step(cfg, s, Delay(d), t)
    ensures Safe(cfg, t)
  {
    SameQueues(cfg, s, t);
  }

  lemma RobotStepKeepsSafe(cfg: Config, s: State, l: Label, t: State)
    requires cfg.Valid() && Safe(cfg, s) && Step(cfg, s, l, t)
    requires !l.Delay? && !l.OtherStep? && !l.Release?
    ensures Safe(cfg, t)
  {
    if l == Enqueue {
      JoinedQueue(cfg, s, t, s.robot.destWaypoint, 1);
    } else {
      SameQueues(cfg, s, t);
    }
  }

  lemma OtherStepKeepsSafe(cfg: Config, s: State, id: nat, edge: OtherEdge, t: State)
    requires cfg.Valid() && Safe(cfg, s) && Step(cfg, s, OtherStep(id, edge), t)
    ensures Safe(cfg, t)
  {
    var o, o' := s.others[id - 2], t.others[id - 2];
    assert t.others == s.others[id - 2 := o'];
    if edge == ArriveAndQueue {
      assert cfg.maxRobots > 1;
      JoinedQueue(cfg, s, t, o.next.value, id);
    } else {
      assert t.waypoints == s.waypoints;
      assert o'.loc != AtWaypoint;
      SameQueues(cfg, s, t);
    }
  }

  lemma ReleaseKeepsSafe(cfg: Config, s: State, w: int, t: State)
    requires cfg.Valid() && Safe(cfg, s) && Step(cfg, s, Release(w), t)
    ensures Safe(cfg, t)
    ensures WaitsAt(s, s.waypoints[w].queue[0]) == Some(w)
    ensures WaitsAt(t, s.waypoints[w].queue[0]) == None
  {
    assert s.waypoints[w].queue[0] in s.waypoints[w].queue;
    LeftQueue(cfg, s, t, w);
  }

  lemma StepKeepsSafe(cfg: Config, s: State, l: Label, t: State)
    requires cfg.Valid() && Safe(cfg, s) && Step(cfg, s, l, t)
    ensures Safe(cfg, t)
  {
    match l
    case Delay(d) => DelayKeepsSafe(cfg, s, d, t);
    case OtherStep(id, edge) => OtherStepKeepsSafe(cfg, s, id, edge, t);
    case Release(w) => ReleaseKeepsSafe(cfg, s, w, t);
    case _ => RobotStepKeepsSafe(cfg, s, l, t);
  }

  /** Every state of every run is safe. */
  lemma {:induction false} RunIsSafe(cfg: Config, run: Run, i: nat)
    requires IsRun(cfg, run) && i < |run.states|
    ensures Safe(cfg, run.states[i]) && LocationInvariants(cfg, run.states[i])
    decreases i
  {
    if i == 0 {
      InitialIsSafe(cfg);
    } else {
      RunIsSafe(cfg, run, i - 1);
      StepKeepsSafe(cfg, run.states[i - 1], run.labels[i - 1], run.states[i]);
    }
  }

  /** The array `list` of a waypoint has room for every queue that occurs. */
  lemma QueueFits(cfg: Config, s: State, w: nat)
    requires Safe(cfg, s) && w < |s.waypoints|
    ensures |s.waypoints[w].queue| <= cfg.maxRobots
  {
    var q := s.waypoints[w].queue;
    forall i | 0 <= i < |q|
      ensures 1 <= q[i] <= cfg.maxRobots
    {
      assert q[i] in q;
      assert WaitsAt(s, q[i]).Some?;
    }
    DistinctIdsFit(q, cfg.maxRobots);
  }

  /** The robot waits at w now, where there was room for it. */
  ghost predicate HasJoined(cfg: Config, s: State, t: State, w: int, robot: nat) {
    && 0 <= w < |s.waypoints|
    && WaitsAt(t, robot) == Some(w)
    && |s.waypoints[w].queue| < cfg.maxRobots
  }

  /** The robot waited at w, takes the edge that receives `go!`, and is in no queue afterwards. */
  ghost predicate HasLeft(s: State, t: State, w: int, robot: nat) {
    && WaitsAt(s, robot) == Some(w)
    && (if robot == 1 then t.robot.loc == Choose
        else IsOther(t, robot) && t.others[robot - 2].loc == OtherChoose)
    && forall v | 0 <= v < |t.waypoints| :: robot !in t.waypoints[v].queue
  }

  lemma ArrivalIsQueued(cfg: Config, s: State, t: State, w: int, robot: nat)
    requires Safe(cfg, t) && 0 <= w < |s.waypoints|
    requires t.waypoints == JoinAt(s.waypoints, w, robot) && WaitsAt(t, robot) == Some(w)
    ensures HasJoined(cfg, s, t, w, robot)
  {
    QueueFits(cfg, t, w);
  }

  lemma ReleaseIsReceived(cfg: Config, s: State, w: int, t: State)
    requires cfg.Valid() && Safe(cfg, s) && Step(cfg, s, Release(w), t)
    ensures HasLeft(s, t, w, s.waypoints[w].queue[0])
  {
    ReleaseKeepsSafe(cfg, s, w, t);
    assert QueuesMatchRobots(cfg, t);
  }

  /** The broadcasts of one step find their receivers. */
  ghost predicate LosesNothing(cfg: Config, s: State, l: Label, t: State) {
    match l
    case Enqueue => HasJoined(cfg, s, t, s.robot.destWaypoint, 1)
    case OtherStep(id, ArriveAndQueue) => IsOther(s, id) && HasJoined(cfg, s, t, s.others[id - 2].next.value, id)
    case Release(w) =>
      0 <= w < |s.waypoints| && s.waypoints[w].queue != [] && HasLeft(s, t, w, s.waypoints[w].queue[0])
    case _ => true
  }

  lemma StepLosesNothing(cfg: Config, s: State, l: Label, t: State)
    requires cfg.Valid() && Safe(cfg, s) && Step(cfg, s, l, t) && Safe(cfg, t)
    ensures LosesNothing(cfg, s, l, t)
  {
    match l
    case Release(w) => ReleaseIsReceived(cfg, s, w, t);
    case Enqueue => ArrivalIsQueued(cfg, s, t, s.robot.destWaypoint, 1);
    case OtherStep(id, ArriveAndQueue) => ArrivalIsQueued(cfg, s, t, s.others[id - 2].next.value, id);
    case _ =>
  }

  /** In every run, the receiver of each `go!` waits at the sending waypoint and takes its edge, and
      each `queue!` finds room behind the robots that already queue. */
  lemma NoBroadcastIsLost(cfg: Config, run: Run, i: nat)
    requires IsRun(cfg, run) && i < |run.labels|
    ensures LosesNothing(cfg, run.states[i], run.labels[i], run.states[i + 1])
  {
    RunIsSafe(cfg, run, i);
    RunIsSafe(cfg, run, i + 1);
    StepLosesNothing(cfg, run.states[i], run.labels[i], run.states[i + 1]);
  }
}
