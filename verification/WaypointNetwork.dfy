/** The UPPAAL network of waypoint_scheduling.xml: queues, the scheduled robot and the other robots.

    A step is one edge (with the receivers of its broadcast) or a delay. It is possible when its
    guard holds, no committed location is ignored, every assigned value fits its declared range,
    and the invariants of the locations hold afterwards. */
module WaypointNetwork {
  datatype Kind = DoneStep | HoldStep | WaypointStep

  /** `next_t`: the next step of another robot's published plan. */
  datatype Next = Next(kind: Kind, value: int)

  /** What the model imports from libconfig. Robot ids are 1..maxRobots, waypoint ids 0..numWaypoints-1. */
  datatype Config = Config(
    numWaypoints: nat,
    maxRobots: nat,
    stations: seq<int>,                  // station_list
    visitedWaypoints: set<int>,          // waypoint_visited
    waypointPassing: int,
    stationPassing: int,
    uncertainty: real,
    nextWaypoint: int,
    destination: int,
    dist: (int, int) -> int,             // get_waypoint_dist, -1 where there is no edge
    actionType: (nat, nat) -> int,       // get_next_action_type(robot, step)
    actionValue: (nat, nat) -> int)      // get_next_action_value(robot, step)
  {
    ghost predicate Valid() {
      maxRobots >= 1 && IsWaypoint(nextWaypoint) && IsWaypoint(destination)
    }

    predicate IsWaypoint(w: int) {
      0 <= w < numWaypoints
    }

    /** OTHER_ROBOT_MAX: with a single robot there still is one process OtherRobot(2). */
    function OtherRobotMax(): nat {
      if maxRobots <= 1 then 2 else maxRobots
    }

    /** `next_step` without its side effect on `step_index`. */
    function NextStep(robot: nat, step: nat): Next {
      var kind := if actionType(robot, step) == 1 then HoldStep
                  else if actionType(robot, step) == 2 then WaypointStep else DoneStep;
      Next(kind, actionValue(robot, step))
    }

    function PassingTime(stationWaypoint: seq<int>, w: int): int {
      if w in stationWaypoint then stationPassing else waypointPassing
    }
  }

  datatype QueueLocation = Idle | Queued

  /** A process Waypoint(id): its clock and the robots in its queue, first in first out. */
  datatype Waypoint = Waypoint(loc: QueueLocation, x: real, queue: seq<nat>)

  /** The two edges that receive `queue[id][robot]?`. */
  function Join(w: Waypoint, robot: nat): Waypoint {
    match w.loc
    case Idle => Waypoint(Queued, 0.0, w.queue + [robot])
    case Queued => w.(queue := w.queue + [robot])
  }

  /** The two edges that send `go[front()]!`. */
  predicate CanLeave(w: Waypoint, passingTime: int) {
    w.loc == Queued && |w.queue| > 0 && w.x >= passingTime as real
  }

  function Leave(w: Waypoint): Waypoint
    requires |w.queue| > 0
  {
    Waypoint(if |w.queue| > 1 then Queued else Idle, 0.0, w.queue[1..])
  }

  datatype RobotLocation = RobotStart | Choose | BetweenWaypoints | QueueUp | RobotHolding | Waiting | RobotDone

  datatype Robot = Robot(loc: RobotLocation, x: real, curWaypoint: int, destWaypoint: int, visited: set<int>)

  datatype OtherLocation = OtherStart | CheckValidity | OtherChoose | OtherBetween | AtWaypoint | OtherHolding
                         | OtherDone | InvalidPath

  datatype Other = Other(loc: OtherLocation, x: real, stepIndex: nat, cur: int, next: Next)

  /** `others[id - 2]` is OtherRobot(id). `now` is the sum of all delays, which no automaton reads;
      `total` is the hybrid clock that stops when the robot is done. */
  datatype State = State(robot: Robot, others: seq<Other>, waypoints: seq<Waypoint>,
                         stationWaypoint: seq<int>, total: real, now: real)

  function Initial(cfg: Config): State {
    State(Robot(RobotStart, 0.0, cfg.nextWaypoint, 0, {}),
          seq(cfg.OtherRobotMax() - 1, _ => Other(OtherStart, 0.0, 0, 0, Next(DoneStep, 0))),
          seq(cfg.numWaypoints, _ => Waypoint(Idle, 0.0, [])),
          seq(|cfg.stations|, _ => 0),
          0.0, 0.0)
  }

  datatype Label =
    | Delay(d: real)
    | Start                 // Start -> Choose
    | ChooseNext(to: int)   // Choose -> BetweenWaypoints
    | Finish                // Choose -> Done
    | Arrive                // BetweenWaypoints -> QueueUp
    | Hold                  // QueueUp -> Holding
    | HoldEnd               // Holding -> QueueUp
    | Enqueue               // QueueUp -> Waiting, queue[dest_waypoint][CUR_ROBOT]!
    | OtherStep(robot: nat, edge: OtherEdge)
    | Release(w: int)       // Waypoint(w): go[front()]!

  datatype OtherEdge =
    | StartDone      // Start -> Done
    | StartPlan      // Start -> CheckValidity
    | RejectStart    // CheckValidity -> InvalidPath
    | AcceptStart    // CheckValidity -> Choose
    | BeginHold      // Choose -> Holding
    | EndHold        // Holding -> Choose
    | NoEdge         // Choose -> InvalidPath
    | Depart         // Choose -> BetweenWaypoints
    | PlanDone       // Choose -> Done
    | ArriveAndQueue // BetweenWaypoints -> AtWaypoint, queue[next.value][id]!

  predicate RobotCommitted(r: Robot) {
    r.loc in {RobotStart, Choose, QueueUp}
  }

  predicate OtherCommitted(o: Other) {
    o.loc in {OtherStart, CheckValidity, OtherChoose}
  }

  predicate SomeCommitted(s: State) {
    RobotCommitted(s.robot) || exists o <- s.others :: OtherCommitted(o)
  }

  predicate IsOther(s: State, id: nat) {
    2 <= id < |s.others| + 2
  }

  /** The edge leaves a committed location. */
  predicate FromCommitted(s: State, l: Label) {
    match l
    case Start | ChooseNext(_) | Finish | Hold | Enqueue => RobotCommitted(s.robot)
    case OtherStep(id, _) => IsOther(s, id) && OtherCommitted(s.others[id - 2])
    case _ => false
  }

  predicate OtherEnabled(cfg: Config, o: Other, edge: OtherEdge) {
    match edge
    case StartDone => o.loc == OtherStart && cfg.maxRobots == 1
    case StartPlan => o.loc == OtherStart && cfg.maxRobots > 1
    case RejectStart => o.loc == CheckValidity && o.next.kind != WaypointStep
    case AcceptStart => o.loc == CheckValidity && o.next.kind == WaypointStep && cfg.IsWaypoint(o.next.value)
    case BeginHold => o.loc == OtherChoose && o.next.kind == HoldStep
    case EndHold => o.loc == OtherHolding && o.x == o.next.value as real
    case NoEdge => o.loc == OtherChoose && o.next.kind == WaypointStep && cfg.dist(o.cur, o.next.value) == -1
    case Depart => o.loc == OtherChoose && o.next.kind == WaypointStep && cfg.dist(o.cur, o.next.value) != -1
    case PlanDone => o.loc == OtherChoose && o.next.kind == DoneStep
    case ArriveAndQueue =>
      o.loc == OtherBetween && o.x >= cfg.dist(o.cur, o.next.value) as real && cfg.IsWaypoint(o.next.value)
  }

  predicate Enabled(cfg: Config, s: State, l: Label) {
    match l
    case Delay(d) => d >= 0.0
    case Start => s.robot.loc == RobotStart
    case ChooseNext(to) =>
      && s.robot.loc == Choose && cfg.IsWaypoint(to)
      && cfg.dist(s.robot.curWaypoint, to) != -1 && cfg.destination != s.robot.curWaypoint
    case Finish => s.robot.loc == Choose && cfg.destination == s.robot.curWaypoint
    case Arrive =>
      && s.robot.loc == BetweenWaypoints && cfg.IsWaypoint(s.robot.destWaypoint)
      && s.robot.x >= cfg.dist(s.robot.curWaypoint, s.robot.destWaypoint) as real
    case Hold => s.robot.loc == QueueUp
    case HoldEnd => s.robot.loc == RobotHolding && s.robot.x == 1.0
    case Enqueue => s.robot.loc == QueueUp && 0 <= s.robot.destWaypoint < |s.waypoints|
    case OtherStep(id, edge) =>
      && IsOther(s, id) && OtherEnabled(cfg, s.others[id - 2], edge)
      && (edge == ArriveAndQueue ==> 0 <= s.others[id - 2].next.value < |s.waypoints|)
    case Release(w) =>
      0 <= w < |s.waypoints| && CanLeave(s.waypoints[w], cfg.PassingTime(s.stationWaypoint, w))
  }

  function AdvanceOther(cfg: Config, id: nat, o: Other): Other {
    o.(next := cfg.NextStep(id, o.stepIndex), stepIndex := o.stepIndex + 1)
  }

  function FireOther(cfg: Config, id: nat, o: Other, edge: OtherEdge): Other {
    match edge
    case StartDone => o.(loc := OtherDone)
    case StartPlan => AdvanceOther(cfg, id, o).(loc := CheckValidity)
    case RejectStart => o.(loc := InvalidPath)
    case AcceptStart => AdvanceOther(cfg, id, o.(cur := o.next.value)).(loc := OtherChoose)
    case BeginHold => o.(loc := OtherHolding, x := 0.0)
    case EndHold => AdvanceOther(cfg, id, o).(loc := OtherChoose)
    case NoEdge => o.(loc := InvalidPath)
    case Depart => o.(loc := OtherBetween, x := 0.0)
    case PlanDone => o.(loc := OtherDone)
    case ArriveAndQueue => o.(loc := AtWaypoint, cur := o.next.value)
  }

  /** `queue[w][robot]!`: the channel is evaluated before the sender's assignments. */
  function JoinAt(waypoints: seq<Waypoint>, w: nat, robot: nat): seq<Waypoint>
    requires w < |waypoints|
  {
    waypoints[w := Join(waypoints[w], robot)]
  }

  /** `go[robot]?` in the scheduled robot; nothing happens unless it is waiting. */
  function RobotGo(r: Robot): Robot {
    if r.loc == Waiting then r.(loc := Choose) else r
  }

  /** `go[id]?` in another robot; nothing happens unless it is at a waypoint. */
  function OtherGo(cfg: Config, id: nat, o: Other): Other {
    if o.loc == AtWaypoint then AdvanceOther(cfg, id, o).(loc := OtherChoose) else o
  }

  function Fire(cfg: Config, s: State, l: Label): State
    requires Enabled(cfg, s, l)
  {
    var r := s.robot;
    match l
    case Delay(d) =>
      s.(robot := r.(x := r.x + d),
         others := seq(|s.others|, i requires 0 <= i < |s.others| => s.others[i].(x := s.others[i].x + d)),
         waypoints := seq(|s.waypoints|, i requires 0 <= i < |s.waypoints| =>
                            s.waypoints[i].(x := s.waypoints[i].x + d)),
         total := if r.loc == RobotDone then s.total else s.total + d,
         now := s.now + d)
    case Start =>
      s.(robot := r.(loc := Choose, visited := cfg.visitedWaypoints + {r.curWaypoint}, destWaypoint := -1),
         stationWaypoint := cfg.stations)
    case ChooseNext(to) => s.(robot := r.(loc := BetweenWaypoints, destWaypoint := to, x := 0.0))
    case Finish => s.(robot := r.(loc := RobotDone))
    case Arrive =>
      s.(robot := r.(loc := QueueUp, curWaypoint := r.destWaypoint, x := 0.0,
                     visited := r.visited + {r.destWaypoint}))
    case Hold => s.(robot := r.(loc := RobotHolding, x := 0.0))
    case HoldEnd => s.(robot := r.(loc := QueueUp))
    case Enqueue => s.(robot := r.(loc := Waiting), waypoints := JoinAt(s.waypoints, r.destWaypoint, 1))
    case OtherStep(id, edge) =>
      var o := s.others[id - 2];
      s.(others := s.others[id - 2 := FireOther(cfg, id, o, edge)],
         waypoints := if edge == ArriveAndQueue then JoinAt(s.waypoints, o.next.value, id) else s.waypoints)
    case Release(w) =>
      var front := s.waypoints[w].queue[0];
      s.(waypoints := s.waypoints[w := Leave(s.waypoints[w])],
         robot := if front == 1 then RobotGo(r) else r,
         others := if IsOther(s, front) then s.others[front - 2 := OtherGo(cfg, front, s.others[front - 2])]
                   else s.others)
  }

  predicate WaypointInvariant(cfg: Config, s: State, w: int)
    requires 0 <= w < |s.waypoints|
  {
    s.waypoints[w].loc == Queued ==>
      s.waypoints[w].x <= cfg.PassingTime(s.stationWaypoint, w) as real * cfg.uncertainty
  }

  /** The invariants of the current locations. */
  predicate LocationInvariants(cfg: Config, s: State) {
    && (s.robot.loc == BetweenWaypoints ==>
          s.robot.x <= cfg.dist(s.robot.curWaypoint, s.robot.destWaypoint) as real * cfg.uncertainty)
    && (s.robot.loc == RobotHolding ==> s.robot.x <= 1.0)
    && (forall o <- s.others ::
          && (o.loc == OtherBetween ==> o.x <= cfg.dist(o.cur, o.next.value) as real * cfg.uncertainty)
          && (o.loc == OtherHolding ==> o.x <= o.next.value as real))
    && (forall w | 0 <= w < |s.waypoints| :: WaypointInvariant(cfg, s, w))
  }

  ghost predicate Step(cfg: Config, s: State, l: Label, t: State) {
    && Enabled(cfg, s, l)
    && (SomeCommitted(s) ==> FromCommitted(s, l))
    && t == Fire(cfg, s, l)
    && LocationInvariants(cfg, t)
  }

  /** A finite run: states[i] --labels[i]--> states[i + 1]. */
  datatype Run = Run(states: seq<State>, labels: seq<Label>)

  ghost predicate IsRun(cfg: Config, run: Run) {
    && cfg.Valid()
    && |run.states| == |run.labels| + 1
    && run.states[0] == Initial(cfg)
    && forall i | 0 <= i < |run.labels| :: Step(cfg, run.states[i], run.labels[i], run.states[i + 1])
  }
}
