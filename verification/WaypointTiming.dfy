/** Order and timing of the queues of the waypoint network, over whole runs. */
module WaypointTiming {
  import opened QueueLog
  import opened WaypointNetwork
  import opened WaypointSafety

  /** The robot that joins the queue of w in this step, if any. */
  ghost function JoinedBy(s: State, l: Label, w: int): seq<nat> {
    match l
    case Enqueue => if s.robot.destWaypoint == w then [1] else []
    case OtherStep(id, ArriveAndQueue) => if IsOther(s, id) && s.others[id - 2].next.value == w then [id] else []
    case _ => []
  }

  /** The robot that leaves the queue of w in this step, if any. */
  ghost function LeftBy(s: State, l: Label, w: nat): seq<nat> {
    if l == Release(w) && w < |s.waypoints| && |s.waypoints[w].queue| > 0 then [s.waypoints[w].queue[0]] else []
  }

  /** How one step changes the queue and the clock of w. */
  lemma QueueEvolves(cfg: Config, s: State, l: Label, t: State, w: nat)
    requires StationsLoaded(cfg, s) && Step(cfg, s, l, t) && w < |s.waypoints| && QueueIdle(s.waypoints[w])
    ensures |t.waypoints| == |s.waypoints|
    ensures s.waypoints[w].queue + JoinedBy(s, l, w) == LeftBy(s, l, w) + t.waypoints[w].queue
    ensures t.now >= s.now
    ensures JoinedBy(s, l, w) != [] && s.waypoints[w].queue == [] ==> t.waypoints[w].x == 0.0
    ensures l == Release(w) ==> t.now == s.now && t.waypoints[w].x == 0.0
                                && s.waypoints[w].x >= cfg.PassingTime(cfg.stations, w) as real
    ensures l != Release(w) ==>
              || t.waypoints[w].x == s.waypoints[w].x + (t.now - s.now)
              || (s.waypoints[w].queue == [] && t.waypoints[w].x == 0.0 && t.now == s.now)
  {
  }

  /** The history of the queue of w in a run. */
  ghost function LogOf(run: Run, w: nat): Log
    requires |run.states| == |run.labels| + 1
  {
    Log(seq(|run.states|, i requires 0 <= i < |run.states| => MomentOf(run.states[i], w)),
        seq(|run.labels|, i requires 0 <= i < |run.labels| => JoinedBy(run.states[i], run.labels[i], w)),
        seq(|run.labels|, i requires 0 <= i < |run.labels| => LeftBy(run.states[i], run.labels[i], w)))
  }

  ghost function MomentOf(s: State, w: nat): Moment {
    if w < |s.waypoints| then Moment(s.waypoints[w].queue, s.waypoints[w].x, s.now) else Moment([], 0.0, s.now)
  }

  /** The passing time configured for stations, or the one for other waypoints. */
  ghost function PassingAt(cfg: Config, w: int): (passing: int)
    ensures w in cfg.stations ==> passing == cfg.stationPassing
    ensures w !in cfg.stations ==> passing == cfg.waypointPassing
  {
    cfg.PassingTime(cfg.stations, w)
  }

  ghost function Shortest(cfg: Config, w: int): real {
    PassingAt(cfg, w) as real
  }

  ghost function Longest(cfg: Config, w: int): real {
    Shortest(cfg, w) * cfg.uncertainty
  }

  lemma MomentIsOk(cfg: Config, s: State, w: nat)
    requires Safe(cfg, s) && LocationInvariants(cfg, s) && w < |s.waypoints|
    ensures MomentOk(MomentOf(s, w), Longest(cfg, w))
  {
    assert QueueIdle(s.waypoints[w]) && WaypointInvariant(cfg, s, w);
  }

  /** The queue of every waypoint is a server with passing time between Shortest and Longest. */
  lemma RunIsLog(cfg: Config, run: Run, w: nat)
    requires IsRun(cfg, run) && w < cfg.numWaypoints
    ensures IsLog(LogOf(run, w), Shortest(cfg, w), Longest(cfg, w))
  {
    var log := LogOf(run, w);
    forall i | 0 <= i < |log.moments|
      ensures MomentOk(log.moments[i], Longest(cfg, w))
    {
      RunIsSafe(cfg, run, i);
      MomentIsOk(cfg, run.states[i], w);
    }
    forall i | 0 <= i < |log.joins|
      ensures StepOk(log.moments[i], log.joins[i], log.leaves[i], log.moments[i + 1], Shortest(cfg, w))
    {
      RunIsSafe(cfg, run, i);
      QueueEvolves(cfg, run.states[i], run.labels[i], run.states[i + 1], w);
    }
  }

  /** First in, first out: the robots released at w in the first n steps, followed by those still
      queued, are the robots that arrived, in order of arrival. */
  lemma ServedInOrder(cfg: Config, run: Run, w: nat, n: nat)
    requires IsRun(cfg, run) && w < cfg.numWaypoints && n <= |run.labels|
    ensures var log := LogOf(run, w);
            Concat(log.leaves[..n]) + log.moments[n].queue == Concat(log.joins[..n])
  {
    RunIsLog(cfg, run, w);
    FirstInFirstOut(LogOf(run, w), Shortest(cfg, w), Longest(cfg, w), n);
    assert LogOf(run, w).moments[0].queue == [];
  }

  /** By time T at most T / passing_time() robots have left w. */
  lemma ServiceRate(cfg: Config, run: Run, w: nat, n: nat)
    requires IsRun(cfg, run) && w < cfg.numWaypoints && n <= |run.labels|
    ensures LastsAtLeast(run.states[n].now, Released(LogOf(run, w), n), PassingAt(cfg, w) as real)
  {
    ReleaseTimes(cfg, run, w, n);
    LastsTimes(run.states[n].now, Released(LogOf(run, w), n), Shortest(cfg, w));
  }

  lemma ReleaseTimes(cfg: Config, run: Run, w: nat, n: nat)
    requires IsRun(cfg, run) && w < cfg.numWaypoints && n <= |run.labels|
    ensures Times(Released(LogOf(run, w), n), Shortest(cfg, w)) <= run.states[n].now
  {
    RunIsLog(cfg, run, w);
    ReleaseRate(LogOf(run, w), Shortest(cfg, w), Longest(cfg, w), n);
  }

  /** Two releases at w are at least passing_time() apart. */
  lemma ServiceSpacing(cfg: Config, run: Run, w: nat, a: nat, b: nat)
    requires IsRun(cfg, run) && w < cfg.numWaypoints && a < b < |run.labels|
    requires run.labels[a] == Release(w) && run.labels[b] == Release(w)
    ensures w in cfg.stations ==> run.states[b].now - run.states[a].now >= cfg.stationPassing as real
    ensures w !in cfg.stations ==> run.states[b].now - run.states[a].now >= cfg.waypointPassing as real
  {
    RunIsLog(cfg, run, w);
    RunIsSafe(cfg, run, a);
    RunIsSafe(cfg, run, b);
    assert Step(cfg, run.states[a], run.labels[a], run.states[a + 1]);
    assert Step(cfg, run.states[b], run.labels[b], run.states[b + 1]);
    ReleasesApart(LogOf(run, w), Shortest(cfg, w), Longest(cfg, w), a, b);
  }

  /** No robot is released at w before passing_time() has passed since it joined. */
  lemma StaysPassingTime(cfg: Config, run: Run, w: nat, robot: nat, a: nat, b: nat)
    requires IsRun(cfg, run) && w < cfg.numWaypoints && b < |run.labels|
    requires StillQueued(LogOf(run, w), robot, a, b) && LogOf(run, w).leaves[b] == [robot]
    ensures run.states[b].now - run.states[a + 1].now >= PassingAt(cfg, w) as real
  {
    RunIsLog(cfg, run, w);
    StaysAtLeast(LogOf(run, w), Shortest(cfg, w), Longest(cfg, w), robot, a, b);
  }

  /** Bounded waiting: a robot that joined the queue of w at position p0 and is now at position p
      has waited at most p0 - p + 1 maximal passing times, never more than MAX_ROBOTS of them. */
  lemma WaitingIsBounded(cfg: Config, run: Run, w: nat, robot: nat, a: nat, b: nat, p0: nat, p: nat)
    requires IsRun(cfg, run) && w < cfg.numWaypoints
    requires StillQueued(LogOf(run, w), robot, a, b)
    requires At(LogOf(run, w).moments[a + 1].queue, p0, robot)
    requires At(LogOf(run, w).moments[b].queue, p, robot)
    ensures p <= p0
    ensures var waited, passing := run.states[b].now - run.states[a].now, PassingAt(cfg, w);
            && LastsPassings(waited, p0 - p + 1, passing, cfg.uncertainty)
            && LastsPassings(waited, cfg.maxRobots, passing, cfg.uncertainty)
  {
    WaitedAtMost(cfg, run, w, robot, a, b, p0, p);
    var waited := run.states[b].now - run.states[a].now;
    LongestPassings(cfg, w, waited, p0 - p + 1);
    LongestPassings(cfg, w, waited, cfg.maxRobots);
  }

  lemma LongestPassings(cfg: Config, w: int, time: real, k: nat)
    requires LastsAtMost(time, k, Longest(cfg, w))
    ensures LastsPassings(time, k, PassingAt(cfg, w), cfg.uncertainty)
  {
  }

  lemma WaitedAtMost(cfg: Config, run: Run, w: nat, robot: nat, a: nat, b: nat, p0: nat, p: nat)
    requires IsRun(cfg, run) && w < cfg.numWaypoints
    requires StillQueued(LogOf(run, w), robot, a, b)
    requires At(LogOf(run, w).moments[a + 1].queue, p0, robot)
    requires At(LogOf(run, w).moments[b].queue, p, robot)
    ensures var waited := run.states[b].now - run.states[a].now;
            && p <= p0
            && LastsAtMost(waited, p0 - p + 1, Longest(cfg, w))
            && LastsAtMost(waited, cfg.maxRobots, Longest(cfg, w))
  {
    WaitingTimes(cfg, run, w, robot, a, b, p0, p);
    var waited := run.states[b].now - run.states[a].now;
    LastsTimes(waited, p0 - p + 1, Longest(cfg, w));
    LastsTimes(waited, cfg.maxRobots, Longest(cfg, w));
  }

  lemma WaitingTimes(cfg: Config, run: Run, w: nat, robot: nat, a: nat, b: nat, p0: nat, p: nat)
    requires IsRun(cfg, run) && w < cfg.numWaypoints
    requires StillQueued(LogOf(run, w), robot, a, b)
    requires At(LogOf(run, w).moments[a + 1].queue, p0, robot)
    requires At(LogOf(run, w).moments[b].queue, p, robot)
    ensures var waited := run.states[b].now - run.states[a].now;
            && p <= p0
            && waited <= Times(p0 - p + 1, Longest(cfg, w))
            && waited <= Times(cfg.maxRobots, Longest(cfg, w))
  {
    RunIsLog(cfg, run, w);
    RunIsSafe(cfg, run, a + 1);
    QueueFits(cfg, run.states[a + 1], w);
    BoundedWaitingOverall(LogOf(run, w), Shortest(cfg, w), Longest(cfg, w), robot, a, b, p0, p, cfg.maxRobots);
  }
}
