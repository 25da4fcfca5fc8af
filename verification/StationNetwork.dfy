/** The UPPAAL network of station_scheduling.xml: stations, the scheduled robot and the other robots.
    Steps are formed as in the waypoint network. */
module StationNetwork {

  /** What the model imports from libconfig. Stations are 1..numStations, the end stations first. */
  datatype Config = Config(
    numStations: nat,
    numEndStations: nat,
    maxRobots: nat,
    passingTime: int,                    // STATION_PASSING_TIME
    uncertainty: real,
    nextStation: int,                    // next_station: where the robot is heading at the start
    visitedStations: set<int>,           // station_visited
    dist: (int, int) -> int,             // get_station_dist
    eta: nat -> real,
    nextRobotStation: (nat, nat) -> int) // next_robot_station(robot, step), 0 at the end of a plan
  {
    ghost predicate Valid() {
      maxRobots >= 1 && numEndStations <= numStations && IsStation(nextStation)
      && forall v <- visitedStations :: IsStation(v)
    }

    predicate IsStation(id: int) {
      1 <= id <= numStations
    }

    predicate IsEndStation(id: int) {
      id <= numEndStations
    }

    function OtherRobotMax(): nat {
      if maxRobots <= 1 then 2 else maxRobots
    }
  }

  /** `endstation_visited`. */
  ghost predicate EndStationVisited(cfg: Config, visited: set<int>) {
    exists id | cfg.IsStation(id) :: cfg.IsEndStation(id) && id in visited
  }

  /** `all_nonend`. */
  ghost predicate AllNonEnd(cfg: Config, visited: set<int>) {
    forall id | cfg.IsStation(id) && !cfg.IsEndStation(id) :: id in visited
  }

  /** `can_visit`. */
  ghost predicate CanVisit(cfg: Config, visited: set<int>, id: int) {
    && !EndStationVisited(cfg, visited)
    && id !in visited
    && (cfg.IsEndStation(id) ==> AllNonEnd(cfg, visited))
  }

  datatype StationLocation = StationStart | Idle | CDeQ

  /** A process Station(id): its clock and the robots in its queue, first in first out. */
  datatype Station = Station(loc: StationLocation, proc: real, queue: seq<nat>)

  /** `arr[station][robot]!` is received in Idle only. */
  function Arrival(s: Station, robot: nat): Station {
    if s.loc == Idle then
      s.(queue := s.queue + [robot], proc := if s.queue == [] then 0.0 else s.proc)
    else s
  }

  datatype RobotLocation = RobotStart | ToNext | Choose | EnRoute | Waiting | Done

  datatype Robot = Robot(loc: RobotLocation, x: real, curLoc: int, dest: int)

  datatype Other = Other(loc: RobotLocation, x: real, stepIndex: nat, curLoc: int, dest: int, eta: real)

  /** `others[id - 2]` is OtherRobot(id) and `stations[id - 1]` is Station(id). `now` is the sum of
      all delays, which no automaton reads; `total` stops when the robot is done. */
  datatype State = State(robot: Robot, others: seq<Other>, stations: seq<Station>, visited: set<int>,
                         total: real, now: real)

  function Initial(cfg: Config): State {
    State(Robot(RobotStart, 0.0, cfg.nextStation, 1),
          seq(cfg.OtherRobotMax() - 1, _ => Other(RobotStart, 0.0, 0, 1, 0, 0.0)),
          seq(cfg.numStations, _ => Station(StationStart, 0.0, [])),
          {}, 0.0, 0.0)
  }

  datatype Label =
    | Delay(d: real)
    | LoadVisited               // Robot: Start -> ToNext
    | ReachFirst                // Robot: ToNext -> Choose
    | ChooseStation(to: int)    // Robot: Choose -> EnRoute
    | Finish                    // Robot: Choose -> Done
    | Arrive                    // Robot: EnRoute -> Waiting, arr[cur_loc][CUR_ROBOT]!
    | OtherStep(robot: nat, edge: OtherEdge)
    | Open(station: int)        // Station: Start -> Idle
    | Serve(station: int)       // Station: Idle -> CDeQ
    | NothingToDo(station: int) // Station: CDeQ -> Idle, the queue is empty
    | Release(station: int)     // Station: CDeQ -> Idle, done[front()]!

  datatype OtherEdge =
    | StartDone     // Start -> Done
    | StartPlan     // Start -> ToNext
    | OtherReach    // ToNext -> Choose
    | PlanDone      // Choose -> Done
    | Depart        // Choose -> EnRoute
    | ArriveOther   // EnRoute -> Waiting, arr[cur_loc][id]!

  predicate Committed(loc: RobotLocation) {
    loc == RobotStart || loc == Choose
  }

  predicate StationCommitted(s: Station) {
    s.loc != Idle
  }

  predicate SomeCommitted(s: State) {
    || Committed(s.robot.loc)
    || (exists o <- s.others :: Committed(o.loc))
    || (exists st <- s.stations :: StationCommitted(st))
  }

  predicate IsOther(s: State, id: nat) {
    2 <= id < |s.others| + 2
  }

  predicate HasStation(s: State, id: int) {
    1 <= id <= |s.stations|
  }

  /** The edge leaves a committed location. */
  predicate FromCommitted(s: State, l: Label) {
    match l
    case LoadVisited | ChooseStation(_) | Finish => Committed(s.robot.loc)
    case OtherStep(id, _) => IsOther(s, id) && Committed(s.others[id - 2].loc)
    case Open(id) => HasStation(s, id) && StationCommitted(s.stations[id - 1])
    case NothingToDo(id) => HasStation(s, id) && StationCommitted(s.stations[id - 1])
    case Release(id) => HasStation(s, id) && StationCommitted(s.stations[id - 1])
    case _ => false
  }

  /** The value of the other robot's `next_station()` in its current state. */
  function NextStop(cfg: Config, id: nat, o: Other): int {
    if o.stepIndex == cfg.numStations then 0 else cfg.nextRobotStation(id, o.stepIndex)
  }

  function StepAfterStop(cfg: Config, o: Other): nat {
    if o.stepIndex == cfg.numStations then o.stepIndex else o.stepIndex + 1
  }

  predicate OtherEnabled(cfg: Config, id: nat, o: Other, edge: OtherEdge) {
    match edge
    case StartDone => o.loc == RobotStart && cfg.maxRobots == 1
    case StartPlan => o.loc == RobotStart && cfg.maxRobots > 1 && cfg.IsStation(NextStop(cfg, id, o))
    case OtherReach => o.loc == ToNext && o.x >= o.eta && 0 <= NextStop(cfg, id, o) <= cfg.numStations
    case PlanDone => o.loc == Choose && o.dest == 0
    case Depart => o.loc == Choose && o.dest != 0
    case ArriveOther => o.loc == EnRoute && o.x >= cfg.dist(o.curLoc, o.dest) as real && cfg.IsStation(o.dest)
  }

  /** The value that a robot receiving `done!` reads as its next stop fits its variable. */
  predicate CanReceiveDone(cfg: Config, s: State, robot: nat) {
    IsOther(s, robot) && s.others[robot - 2].loc == Waiting ==>
      0 <= NextStop(cfg, robot, s.others[robot - 2]) <= cfg.numStations
  }

  ghost predicate Enabled(cfg: Config, s: State, l: Label) {
    match l
    case Delay(d) => d >= 0.0
    case LoadVisited => s.robot.loc == RobotStart
    case ReachFirst => s.robot.loc == ToNext && s.robot.x >= cfg.eta(1)
    case ChooseStation(to) => s.robot.loc == Choose && cfg.IsStation(to) && CanVisit(cfg, s.visited, to)
    case Finish => s.robot.loc == Choose && EndStationVisited(cfg, s.visited)
    case Arrive =>
      && s.robot.loc == EnRoute && HasStation(s, s.robot.curLoc)
      && s.robot.x >= cfg.dist(s.robot.curLoc, s.robot.dest) as real
    case OtherStep(id, edge) =>
      && IsOther(s, id) && OtherEnabled(cfg, id, s.others[id - 2], edge)
      && (edge == ArriveOther ==> HasStation(s, s.others[id - 2].curLoc))
    case Open(id) => HasStation(s, id) && s.stations[id - 1].loc == StationStart
    case Serve(id) =>
      HasStation(s, id) && s.stations[id - 1].loc == Idle && s.stations[id - 1].proc >= cfg.passingTime as real
    case NothingToDo(id) =>
      HasStation(s, id) && s.stations[id - 1].loc == CDeQ && s.stations[id - 1].queue == []
    case Release(id) =>
      && HasStation(s, id) && s.stations[id - 1].loc == CDeQ && |s.stations[id - 1].queue| > 0
      && CanReceiveDone(cfg, s, s.stations[id - 1].queue[0])
  }

  function FireOther(cfg: Config, id: nat, o: Other, edge: OtherEdge): Other {
    match edge
    case StartDone => o.(loc := Done)
    case StartPlan =>
      o.(loc := ToNext, curLoc := NextStop(cfg, id, o), stepIndex := StepAfterStop(cfg, o), eta := cfg.eta(id))
    case OtherReach =>
      o.(loc := Choose, x := 0.0, dest := NextStop(cfg, id, o), stepIndex := StepAfterStop(cfg, o))
    case PlanDone => o.(loc := Done)
    case Depart => o.(loc := EnRoute)
    case ArriveOther => o.(loc := Waiting, curLoc := o.dest)
  }

  /** `done[id]?` in another robot. */
  function OtherReceiveDone(cfg: Config, id: nat, o: Other): Other {
    if o.loc == Waiting then
      o.(loc := Choose, x := 0.0, dest := NextStop(cfg, id, o), stepIndex := StepAfterStop(cfg, o))
    else o
  }

  /** `arr[id][robot]!`: the channel is evaluated before `cur_loc` is assigned. */
  function ArriveAt(stations: seq<Station>, id: int, robot: nat): seq<Station>
    requires 1 <= id <= |stations|
  {
    stations[id - 1 := Arrival(stations[id - 1], robot)]
  }

  ghost function Fire(cfg: Config, s: State, l: Label): State
    requires Enabled(cfg, s, l)
  {
    var r := s.robot;
    match l
    case Delay(d) =>
      s.(robot := r.(x := r.x + d),
         others := seq(|s.others|, i requires 0 <= i < |s.others| => s.others[i].(x := s.others[i].x + d)),
         stations := seq(|s.stations|, i requires 0 <= i < |s.stations| =>
                           s.stations[i].(proc := s.stations[i].proc + d)),
         total := if r.loc == Done then s.total else s.total + d,
         now := s.now + d)
    case LoadVisited => s.(robot := r.(loc := ToNext), visited := cfg.visitedStations)
    case ReachFirst => s.(robot := r.(loc := Choose, x := 0.0))
    case ChooseStation(to) => s.(robot := r.(loc := EnRoute, dest := to))
    case Finish => s.(robot := r.(loc := Done))
    case Arrive => s.(robot := r.(loc := Waiting, curLoc := r.dest), stations := ArriveAt(s.stations, r.curLoc, 1))
    case OtherStep(id, edge) =>
      var o := s.others[id - 2];
      s.(others := s.others[id - 2 := FireOther(cfg, id, o, edge)],
         stations := if edge == ArriveOther then ArriveAt(s.stations, o.curLoc, id) else s.stations)
    case Open(id) => s.(stations := s.stations[id - 1 := s.stations[id - 1].(loc := Idle)])
    case Serve(id) => s.(stations := s.stations[id - 1 := s.stations[id - 1].(loc := CDeQ, proc := 0.0)])
    case NothingToDo(id) => s.(stations := s.stations[id - 1 := s.stations[id - 1].(loc := Idle)])
    case Release(id) =>
      var st := s.stations[id - 1];
      var front := st.queue[0];
      var served := front == 1 && r.loc == Waiting;
      s.(stations := s.stations[id - 1 := st.(loc := Idle, queue := st.queue[1..])],
         robot := if served then r.(loc := Choose, x := 0.0) else r,
         visited := if served then s.visited + {r.curLoc} else s.visited,
         others := if IsOther(s, front) then s.others[front - 2 := OtherReceiveDone(cfg, front, s.others[front - 2])]
                   else s.others)
  }

  ghost predicate StationInvariant(cfg: Config, st: Station) {
    st.loc == Idle ==> st.proc <= cfg.passingTime as real * cfg.uncertainty
  }

  ghost predicate RobotInvariant(cfg: Config, r: Robot) {
    && (r.loc == ToNext ==> r.x <= cfg.eta(1) * cfg.uncertainty)
    && (r.loc == EnRoute ==> r.x <= cfg.dist(r.curLoc, r.dest) as real * cfg.uncertainty)
  }

  ghost predicate OtherInvariant(cfg: Config, o: Other) {
    && (o.loc == ToNext ==> o.x <= o.eta * cfg.uncertainty)
    && (o.loc == EnRoute ==> o.x <= cfg.dist(o.curLoc, o.dest) as real * cfg.uncertainty)
  }

  /** The invariants of the current locations. */
  ghost predicate LocationInvariants(cfg: Config, s: State) {
    && RobotInvariant(cfg, s.robot)
    && (forall i | 0 <= i < |s.others| :: OtherInvariant(cfg, s.others[i]))
    && (forall i | 0 <= i < |s.stations| :: StationInvariant(cfg, s.stations[i]))
  }

  ghost predicate Step(cfg: Config, s: State, l: Label, t: State) {
    && Enabled(cfg, s, l)
    && (SomeCommitted(s) ==> FromCommitted(s, l))
    && t == Fire(cfg, s, l)
    && LocationInvariants(cfg, t)
  }

  /** A finite run: states[i] --labels[i]--> states[i + 1]. */
  datatype Run = Run(states: seq<State>, labels: seq<Label>)

  ghost predicate IsRun(cfg: Config, run: Run) {
    && cfg.Valid()
    && |run.states| == |run.labels| + 1
    && run.states[0] == Initial(cfg)
    && forall i | 0 <= i < |run.labels| :: Step(cfg, run.states[i], run.labels[i], run.states[i + 1])
  }
}
