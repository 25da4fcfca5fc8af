/** What every reachable state of the station network keeps about its queues. */
module StationSafety {
  import opened QueueLog
  import opened Sequences
  import opened StationNetwork

  ghost predicate IsWaiting(s: State, robot: nat) {
    if robot == 1 then s.robot.loc == Waiting
    else IsOther(s, robot) && s.others[robot - 2].loc == Waiting
  }

  ghost predicate InQueue(s: State, i: int, robot: nat) {
    0 <= i < |s.stations| && robot in s.stations[i].queue
  }

  /** The queues hold exactly the waiting robots, each once and in one queue only. */
  ghost predicate QueuesMatchRobots(cfg: Config, s: State) {
    && (forall i | 0 <= i < |s.stations| :: Distinct(s.stations[i].queue))
    && (forall i, j, robot: nat | InQueue(s, i, robot) && InQueue(s, j, robot) :: i == j)
    && (forall robot: nat :: IsWaiting(s, robot) <==> exists i :: InQueue(s, i, robot))
    && (forall robot: nat | IsWaiting(s, robot) :: 1 <= robot <= cfg.maxRobots)
  }

  ghost predicate StationConsistent(st: Station) {
    && st.proc >= 0.0
    && (st.loc == StationStart ==> st.queue == [])
    && (st.loc == CDeQ ==> st.proc == 0.0)
  }

  ghost predicate OtherConsistent(cfg: Config, o: Other) {
    && cfg.IsStation(o.curLoc)
    && (o.loc in {Choose, EnRoute} ==> 0 <= o.dest <= cfg.numStations)
    && (o.loc == EnRoute ==> o.dest != 0)
    && (cfg.maxRobots == 1 ==> o.loc in {RobotStart, Done})
  }

  ghost predicate RobotConsistent(cfg: Config, r: Robot) {
    && cfg.IsStation(r.curLoc) && cfg.IsStation(r.dest)
    && (r.loc == Choose ==> r.x == 0.0)
    && (r.loc == Waiting ==> r.curLoc == r.dest)
  }

  ghost predicate Safe(cfg: Config, s: State) {
    && |s.stations| == cfg.numStations && |s.others| == cfg.OtherRobotMax() - 1
    && RobotConsistent(cfg, s.robot)
    && (forall i | 0 <= i < |s.others| :: OtherConsistent(cfg, s.others[i]))
    && (forall i | 0 <= i < |s.stations| :: StationConsistent(s.stations[i]))
    && QueuesMatchRobots(cfg, s)
  }

  lemma InitialIsSafe(cfg: Config)
    requires cfg.Valid()
    ensures Safe(cfg, Initial(cfg)) && LocationInvariants(cfg, Initial(cfg))
  {
  }

  lemma SameQueues(cfg: Config, s: State, t: State)
    requires QueuesMatchRobots(cfg, s)
    requires |t.stations| == |s.stations|
    requires forall i | 0 <= i < |s.stations| :: t.stations[i].queue == s.stations[i].queue
    requires forall robot: nat :: IsWaiting(t, robot) == IsWaiting(s, robot)
    ensures QueuesMatchRobots(cfg, t)
  {
    assert forall i, robot: nat :: InQueue(t, i, robot) == InQueue(s, i, robot);
  }

  /** `arr[id][robot]!` reaches the station: the robot starts to wait in its queue. */
  lemma JoinedQueue(cfg: Config, s: State, t: State, id: int, robot: nat)
    requires QueuesMatchRobots(cfg, s) && 1 <= id <= |s.stations| && 1 <= robot <= cfg.maxRobots
    requires s.stations[id - 1].loc == Idle
    requires t.stations == ArriveAt(s.stations, id, robot)
    requires !IsWaiting(s, robot) && IsWaiting(t, robot)
    requires forall other: nat | other != robot :: IsWaiting(t, other) == IsWaiting(s, other)
    ensures QueuesMatchRobots(cfg, t)
  {
    assert !InQueue(s, id - 1, robot);
    assert forall i, r: nat :: InQueue(t, i, r) <==> InQueue(s, i, r) || (i == id - 1 && r == robot);
  }

  /** `done[front()]!`: the front robot stops waiting. */
  lemma LeftQueue(cfg: Config, s: State, t: State, id: int)
    requires QueuesMatchRobots(cfg, s) && 1 <= id <= |s.stations| && |s.stations[id - 1].queue| > 0
    requires |t.stations| == |s.stations|
    requires forall i | 0 <= i < |s.stations| ::
               t.stations[i].queue == if i == id - 1 then s.stations[i].queue[1..] else s.stations[i].queue
    requires !IsWaiting(t, s.stations[id - 1].queue[0])
    requires forall other: nat | other != s.stations[id - 1].queue[0] :: IsWaiting(t, other) == IsWaiting(s, other)
    ensures QueuesMatchRobots(cfg, t)
  {
    var q := s.stations[id - 1].queue;
    assert q == [q[0]] + q[1..];
    assert q[0] !in q[1..];
    assert InQueue(s, id - 1, q[0]);
    assert forall i, r: nat :: InQueue(t, i, r) <==> InQueue(s, i, r) && r != q[0];
  }

  lemma DelayKeepsSafe(cfg: Config, s: State, d: real, t: State)
    requires Safe(cfg, s) && Step(cfg, s, Delay(d), t)
    ensures Safe(cfg, t)
  {
    assert !Committed(s.robot.loc);
    forall i | 0 <= i < |s.stations|
      ensures StationConsistent(t.stations[i])
    {
      assert s.stations[i] in s.stations && !StationCommitted(s.stations[i]);
    }
    SameQueues(cfg, s, t);
  }

  /** No `arr!` is lost: it is not sent while a station is in a committed location. */
  lemma AllStationsListen(cfg: Config, s: State, l: Label, t: State)
    requires Step(cfg, s, l, t) && !FromCommitted(s, l)
    ensures forall i | 0 <= i < |s.stations| :: s.stations[i].loc == Idle
  {
    forall i | 0 <= i < |s.stations|
      ensures s.stations[i].loc == Idle
    {
      assert s.stations[i] in s.stations;
    }
  }

  lemma RobotStepKeepsSafe(cfg: Config, s: State, l: Label, t: State)
    requires cfg.Valid() && Safe(cfg, s) && Step(cfg, s, l, t)
    requires l.LoadVisited? || l.ReachFirst? || l.ChooseStation? || l.Finish? || l.Arrive?
    ensures Safe(cfg, t)
  {
    if l == Arrive {
      AllStationsListen(cfg, s, l, t);
      JoinedQueue(cfg, s, t, s.robot.curLoc, 1);
    } else {
      SameQueues(cfg, s, t);
    }
  }

  lemma OtherStepKeepsSafe(cfg: Config, s: State, id: nat, edge: OtherEdge, t: State)
    requires cfg.Valid() && Safe(cfg, s) && Step(cfg, s, OtherStep(id, edge), t)
    ensures Safe(cfg, t)
  {
    var o, o' := s.others[id - 2], t.others[id - 2];
    assert OtherConsistent(cfg, o);
    assert t.others == s.others[id - 2 := o'];
    if edge == ArriveOther {
      AllStationsListen(cfg, s, OtherStep(id, edge), t);
      JoinedQueue(cfg, s, t, o.curLoc, id);
    } else {
      assert t.stations == s.stations;
      SameQueues(cfg, s, t);
    }
  }

  lemma StationStepKeepsSafe(cfg: Config, s: State, l: Label, t: State)
    requires cfg.Valid() && Safe(cfg, s) && Step(cfg, s, l, t)
    requires l.Open? || l.Serve? || l.NothingToDo?
    ensures Safe(cfg, t)
  {
    SameQueues(cfg, s, t);
  }

  lemma ReleaseKeepsSafe(cfg: Config, s: State, id: int, t: State)
    requires cfg.Valid() && Safe(cfg, s) && Step(cfg, s, Release(id), t)
    ensures Safe(cfg, t)
    ensures IsWaiting(s, s.stations[id - 1].queue[0]) && !IsWaiting(t, s.stations[id - 1].queue[0])
  {
    var front := s.stations[id - 1].queue[0];
    assert InQueue(s, id - 1, front);
    if IsOther(s, front) {
      assert OtherConsistent(cfg, s.others[front - 2]);
    }
    LeftQueue(cfg, s, t, id);
  }

  lemma StepKeepsSafe(cfg: Config, s: State, l: Label, t: State)
    requires cfg.Valid() && Safe(cfg, s) && Step(cfg, s, l, t)
    ensures Safe(cfg, t)
  {
    match l
    case Delay(d) => DelayKeepsSafe(cfg, s, d, t);
    case OtherStep(id, edge) => OtherStepKeepsSafe(cfg, s, id, edge, t);
    case Release(id) => ReleaseKeepsSafe(cfg, s, id, t);
    case Open(_) | Serve(_) | NothingToDo(_) => StationStepKeepsSafe(cfg, s, l, t);
    case _ => RobotStepKeepsSafe(cfg, s, l, t);
  }

  /** Every state of every run is safe. */
  lemma {:induction false} RunIsSafe(cfg: Config, run: Run, i: nat)
    requires IsRun(cfg, run) && i < |run.states|
    ensures Safe(cfg, run.states[i]) && LocationInvariants(cfg, run.states[i])
    decreases i
  {
    if i == 0 {
      InitialIsSafe(cfg);
    } else {
      RunIsSafe(cfg, run, i - 1);
      StepKeepsSafe(cfg, run.states[i - 1], run.labels[i - 1], run.states[i]);
    }
  }

  /** The array `list` of a station has room for every queue that occurs. */
  lemma QueueFits(cfg: Config, s: State, i: nat)
    requires Safe(cfg, s) && i < |s.stations|
    ensures |s.stations[i].queue| <= cfg.maxRobots
  {
    var q := s.stations[i].queue;
    forall k | 0 <= k < |q|
      ensures 1 <= q[k] <= cfg.maxRobots
    {
      assert q[k] in q && InQueue(s, i, q[k]);
      assert IsWaiting(s, q[k]);
    }
    DistinctIdsFit(q, cfg.maxRobots);
  }

  /** The robot has joined the queue of station id, which had room for it. */
  ghost predicate HasJoined(cfg: Config, s: State, t: State, id: int, robot: nat) {
    && 1 <= id <= |s.stations|
    && InQueue(t, id - 1, robot)
    && |s.stations[id - 1].queue| < cfg.maxRobots
  }

  /** The robot was waiting, takes the edge that receives `done!`, and is in no queue afterwards. */
  ghost predicate HasLeft(s: State, t: State, robot: nat) {
    && robot != 0 && IsWaiting(s, robot)
    && (if robot == 1 then t.robot.loc == Choose
        else IsOther(t, robot) && t.others[robot - 2].loc == Choose)
    && forall i :: !InQueue(t, i, robot)
  }

  lemma ArrivalIsQueued(cfg: Config, s: State, t: State, id: int, robot: nat)
    requires Safe(cfg, t) && |t.stations| == |s.stations| && 1 <= id <= |s.stations|
    requires s.stations[id - 1].loc == Idle && t.stations == ArriveAt(s.stations, id, robot)
    ensures HasJoined(cfg, s, t, id, robot)
  {
    QueueFits(cfg, t, id - 1);
  }

  lemma ReleaseIsReceived(cfg: Config, s: State, id: int, t: State)
    requires cfg.Valid() && Safe(cfg, s) && Step(cfg, s, Release(id), t)
    ensures HasLeft(s, t, s.stations[id - 1].queue[0])
  {
    ReleaseKeepsSafe(cfg, s, id, t);
    assert QueuesMatchRobots(cfg, s) && QueuesMatchRobots(cfg, t);
  }

  /** The broadcasts of one step find their receivers. */
  ghost predicate LosesNothing(cfg: Config, s: State, l: Label, t: State) {
    match l
    case Arrive => HasJoined(cfg, s, t, s.robot.curLoc, 1)
    case OtherStep(id, ArriveOther) => IsOther(s, id) && HasJoined(cfg, s, t, s.others[id - 2].curLoc, id)
    case Release(id) =>
      HasStation(s, id) && s.stations[id - 1].queue != [] && HasLeft(s, t, s.stations[id - 1].queue[0])
    case _ => true
  }

  lemma StepLosesNothing(cfg: Config, s: State, l: Label, t: State)
    requires cfg.Valid() && Safe(cfg, s) && Step(cfg, s, l, t) && Safe(cfg, t)
    ensures LosesNothing(cfg, s, l, t)
  {
    match l
    case Release(id) => ReleaseIsReceived(cfg, s, id, t);
    case Arrive =>
      AllStationsListen(cfg, s, l, t);
      ArrivalIsQueued(cfg, s, t, s.robot.curLoc, 1);
    case OtherStep(id, ArriveOther) =>
      AllStationsListen(cfg, s, l, t);
      assert OtherConsistent(cfg, s.others[id - 2]);
      ArrivalIsQueued(cfg, s, t, s.others[id - 2].curLoc, id);
    case _ =>
  }

  /** In every run: an arriving robot really is queued, at the station it leaves (`arr[cur_loc]` is
      evaluated before `cur_loc = dest`) and with room to spare; and `done!` reaches a waiting robot.
      So no robot is dropped or served twice. */
  lemma NoBroadcastIsLost(cfg: Config, run: Run, n: nat)
    requires IsRun(cfg, run) && n < |run.labels|
    ensures LosesNothing(cfg, run.states[n], run.labels[n], run.states[n + 1])
  {
    RunIsSafe(cfg, run, n);
    RunIsSafe(cfg, run, n + 1);
    StepLosesNothing(cfg, run.states[n], run.labels[n], run.states[n + 1]);
  }
}
