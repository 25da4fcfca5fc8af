/** Order and timing of the queues of the station network, over whole runs. */
module StationTiming {
  import opened QueueLog
  import opened Sequences
  import opened StationNetwork
  import opened StationSafety

  /** The robot that joins the queue of station w in this step, if any. */
  ghost function JoinedBy(s: State, l: Label, w: int): seq<nat> {
    match l
    case Arrive => if s.robot.curLoc == w then [1] else []
    case OtherStep(id, ArriveOther) => if IsOther(s, id) && s.others[id - 2].curLoc == w then [id] else []
    case _ => []
  }

  /** The robot that leaves the queue of station w in this step, if any. */
  ghost function LeftBy(s: State, l: Label, w: int): seq<nat> {
    if l == Release(w) && HasStation(s, w) && |s.stations[w - 1].queue| > 0 then [s.stations[w - 1].queue[0]] else []
  }

  /** The clock `proc` as the robots in the queue experience it: in the committed location CDeQ,
      where `proc` is already reset, it still shows the value with which the location was entered. */
  ghost function Clock(run: Run, w: int, n: nat): real
    requires n < |run.states|
  {
    var s := run.states[n];
    if !HasStation(s, w) then 0.0
    else if s.stations[w - 1].loc == CDeQ && n > 0 then Clock(run, w, n - 1)
    else s.stations[w - 1].proc
  }

  ghost function MomentOf(run: Run, w: int, n: nat): Moment
    requires n < |run.states|
  {
    var s := run.states[n];
    Moment(if HasStation(s, w) then s.stations[w - 1].queue else [], Clock(run, w, n), s.now)
  }

  /** The history of the queue of station w in a run. */
  ghost function LogOf(run: Run, w: int): Log
    requires |run.states| == |run.labels| + 1
  {
    Log(seq(|run.states|, i requires 0 <= i < |run.states| => MomentOf(run, w, i)),
        seq(|run.labels|, i requires 0 <= i < |run.labels| => JoinedBy(run.states[i], run.labels[i], w)),
        seq(|run.labels|, i requires 0 <= i < |run.labels| => LeftBy(run.states[i], run.labels[i], w)))
  }

  ghost function Shortest(cfg: Config): real {
    cfg.passingTime as real
  }

  ghost function Longest(cfg: Config): real {
    Shortest(cfg) * cfg.uncertainty
  }

  /** How one step of length dt changes a station. */
  ghost predicate Evolves(cfg: Config, a: Station, joins: seq<nat>, leaves: seq<nat>, b: Station, dt: real) {
    && a.queue + joins == leaves + b.queue
    && dt >= 0.0 && |leaves| <= 1
    && (joins != [] || a.loc != Idle || b.loc == CDeQ ==> dt == 0.0)
    && (b.loc == CDeQ ==> joins == [])
    && (joins != [] && a.queue == [] ==> b.proc == 0.0)
    && (leaves != [] ==> joins == [] && a.loc == CDeQ && b.loc == Idle && b.proc == 0.0)
    && (b.loc == CDeQ && a.loc != CDeQ ==> a.proc >= Shortest(cfg))
    && (a.loc == CDeQ && b.loc != CDeQ && leaves == [] ==> a.queue == [] && b.proc == 0.0)
    && (b.loc != CDeQ && a.loc != CDeQ ==>
          b.proc == a.proc + dt || (a.queue == [] && b.proc == 0.0 && dt == 0.0))
  }

  lemma StationEvolves(cfg: Config, s: State, l: Label, t: State, w: int)
    requires Step(cfg, s, l, t) && HasStation(s, w) && StationConsistent(s.stations[w - 1])
    ensures HasStation(t, w)
    ensures Evolves(cfg, s.stations[w - 1], JoinedBy(s, l, w), LeftBy(s, l, w), t.stations[w - 1], t.now - s.now)
  {
    assert s.stations[w - 1] in s.stations;
    if JoinedBy(s, l, w) != [] {
      assert s.stations[w - 1].loc == Idle;
    }
  }

  /** The clock x before the step and x' after it, as the robots in the queue experience it. */
  lemma ClockStep(cfg: Config, a: Station, joins: seq<nat>, leaves: seq<nat>, b: Station,
                  now: real, now': real, x: real, x': real)
    requires Evolves(cfg, a, joins, leaves, b, now' - now)
    requires MomentOk(Moment(a.queue, x, now), Longest(cfg)) && Distinct(b.queue)
    requires StationConsistent(b) && StationInvariant(cfg, b)
    requires if a.loc == CDeQ then x >= Shortest(cfg) else x == a.proc
    requires x' == if b.loc == CDeQ then x else b.proc
    ensures StepOk(Moment(a.queue, x, now), joins, leaves, Moment(b.queue, x', now'), Shortest(cfg))
    ensures MomentOk(Moment(b.queue, x', now'), Longest(cfg))
    ensures b.loc == CDeQ ==> x' >= Shortest(cfg)
  {
  }

  ghost predicate ClockOk(cfg: Config, run: Run, w: int, n: nat)
    requires n < |run.states|
  {
    && HasStation(run.states[n], w)
    && MomentOk(MomentOf(run, w, n), Longest(cfg))
    && (run.states[n].stations[w - 1].loc == CDeQ ==> n > 0 && Clock(run, w, n) >= Shortest(cfg))
  }

  /** What is known about station w at moment n of a run, and about the step that led there. */
  ghost predicate StationFacts(cfg: Config, run: Run, w: int, n: nat)
    requires n < |run.states| == |run.labels| + 1
  {
    var t := run.states[n];
    && HasStation(t, w)
    && StationConsistent(t.stations[w - 1]) && StationInvariant(cfg, t.stations[w - 1])
    && Distinct(t.stations[w - 1].queue)
    && if n == 0 then t.stations[w - 1] == Station(StationStart, 0.0, [])
       else var s, l := run.states[n - 1], run.labels[n - 1];
         && HasStation(s, w)
         && Evolves(cfg, s.stations[w - 1], JoinedBy(s, l, w), LeftBy(s, l, w), t.stations[w - 1], t.now - s.now)
  }

  lemma StationOfRun(cfg: Config, run: Run, w: int, n: nat)
    requires IsRun(cfg, run) && n < |run.states| && cfg.IsStation(w)
    ensures StationFacts(cfg, run, w, n)
  {
    RunIsSafe(cfg, run, n);
    if n > 0 {
      RunIsSafe(cfg, run, n - 1);
      StationEvolves(cfg, run.states[n - 1], run.labels[n - 1], run.states[n], w);
    }
  }

  lemma {:induction false} RunClockOk(cfg: Config, run: Run, w: int, n: nat)
    requires n < |run.states| == |run.labels| + 1
    requires forall i | 0 <= i <= n :: StationFacts(cfg, run, w, i)
    ensures ClockOk(cfg, run, w, n)
    ensures n > 0 ==> StepOk(MomentOf(run, w, n - 1), JoinedBy(run.states[n - 1], run.labels[n - 1], w),
                             LeftBy(run.states[n - 1], run.labels[n - 1], w), MomentOf(run, w, n), Shortest(cfg))
    decreases n
  {
    assert StationFacts(cfg, run, w, n);
    if n > 0 {
      RunClockOk(cfg, run, w, n - 1);
      ClockGoesOn(cfg, run, w, n - 1);
    }
  }

  lemma ClockGoesOn(cfg: Config, run: Run, w: int, n: nat)
    requires n < |run.labels| && |run.states| == |run.labels| + 1
    requires StationFacts(cfg, run, w, n + 1) && ClockOk(cfg, run, w, n)
    ensures ClockOk(cfg, run, w, n + 1)
    ensures StepOk(MomentOf(run, w, n), JoinedBy(run.states[n], run.labels[n], w),
                   LeftBy(run.states[n], run.labels[n], w), MomentOf(run, w, n + 1), Shortest(cfg))
  {
    var s, t := run.states[n], run.states[n + 1];
    ClockStep(cfg, s.stations[w - 1], JoinedBy(s, run.labels[n], w), LeftBy(s, run.labels[n], w),
              t.stations[w - 1], s.now, t.now, Clock(run, w, n), Clock(run, w, n + 1));
  }

  /** The queue of every station is a server with passing time between Shortest and Longest. */
  lemma RunIsLog(cfg: Config, run: Run, w: int)
    requires IsRun(cfg, run) && cfg.IsStation(w)
    ensures IsLog(LogOf(run, w), Shortest(cfg), Longest(cfg))
  {
    forall i | 0 <= i < |run.states|
      ensures StationFacts(cfg, run, w, i)
    {
      StationOfRun(cfg, run, w, i);
    }
    FactsMakeLog(cfg, run, w);
  }

  lemma FactsMakeLog(cfg: Config, run: Run, w: int)
    requires |run.states| == |run.labels| + 1
    requires forall i | 0 <= i < |run.states| :: StationFacts(cfg, run, w, i)
    ensures IsLog(LogOf(run, w), Shortest(cfg), Longest(cfg))
  {
    var log := LogOf(run, w);
    forall i | 0 <= i < |log.moments|
      ensures MomentOk(log.moments[i], Longest(cfg))
    {
      RunClockOk(cfg, run, w, i);
    }
    forall i | 0 <= i < |log.joins|
      ensures StepOk(log.moments[i], log.joins[i], log.leaves[i], log.moments[i + 1], Shortest(cfg))
    {
      FactsMakeStep(cfg, run, w, i);
    }
  }

  lemma FactsMakeStep(cfg: Config, run: Run, w: int, i: nat)
    requires i < |run.labels| && |run.states| == |run.labels| + 1
    requires forall k | 0 <= k < |run.states| :: StationFacts(cfg, run, w, k)
    ensures StepOk(MomentOf(run, w, i), JoinedBy(run.states[i], run.labels[i], w),
                   LeftBy(run.states[i], run.labels[i], w), MomentOf(run, w, i + 1), Shortest(cfg))
  {
    RunClockOk(cfg, run, w, i + 1);
  }

  lemma QueueOfRunFits(cfg: Config, run: Run, w: int, n: nat)
    requires IsRun(cfg, run) && cfg.IsStation(w) && n < |run.states|
    ensures |LogOf(run, w).moments[n].queue| <= cfg.maxRobots
  {
    RunIsSafe(cfg, run, n);
    QueueFits(cfg, run.states[n], w - 1);
  }

  /** First in, first out at every station. */
  lemma ServedInOrder(cfg: Config, run: Run, w: int, n: nat)
    requires IsRun(cfg, run) && cfg.IsStation(w) && n <= |run.labels|
    ensures var log := LogOf(run, w);
            Concat(log.leaves[..n]) + log.moments[n].queue == Concat(log.joins[..n])
  {
    RunIsLog(cfg, run, w);
    FirstInFirstOut(LogOf(run, w), Shortest(cfg), Longest(cfg), n);
    assert LogOf(run, w).moments[0].queue == [];
  }

  /** By time T at most T / STATION_PASSING_TIME robots have been served by a station. */
  lemma ServiceRate(cfg: Config, run: Run, w: int, n: nat)
    requires IsRun(cfg, run) && cfg.IsStation(w) && n <= |run.labels|
    ensures LastsAtLeast(run.states[n].now, Released(LogOf(run, w), n), cfg.passingTime as real)
  {
    ReleaseTimes(cfg, run, w, n);
    LastsTimes(run.states[n].now, Released(LogOf(run, w), n), Shortest(cfg));
  }

  lemma ReleaseTimes(cfg: Config, run: Run, w: int, n: nat)
    requires IsRun(cfg, run) && cfg.IsStation(w) && n <= |run.labels|
    ensures Times(Released(LogOf(run, w), n), Shortest(cfg)) <= run.states[n].now
  {
    RunIsLog(cfg, run, w);
    ReleaseRate(LogOf(run, w), Shortest(cfg), Longest(cfg), n);
  }

  /** No robot is served by a station before STATION_PASSING_TIME has passed since it arrived. */
  lemma StaysPassingTime(cfg: Config, run: Run, w: int, robot: nat, a: nat, b: nat)
    requires IsRun(cfg, run) && cfg.IsStation(w) && b < |run.labels|
    requires StillQueued(LogOf(run, w), robot, a, b) && LogOf(run, w).leaves[b] == [robot]
    ensures run.states[b].now - run.states[a + 1].now >= cfg.passingTime as real
  {
    RunIsLog(cfg, run, w);
    StaysAtLeast(LogOf(run, w), Shortest(cfg), Longest(cfg), robot, a, b);
  }

  /** Bounded waiting at stations, as at waypoints. */
  lemma WaitingIsBounded(cfg: Config, run: Run, w: int, robot: nat, a: nat, b: nat, p0: nat, p: nat)
    requires IsRun(cfg, run) && cfg.IsStation(w)
    requires StillQueued(LogOf(run, w), robot, a, b)
    requires At(LogOf(run, w).moments[a + 1].queue, p0, robot)
    requires At(LogOf(run, w).moments[b].queue, p, robot)
    ensures var waited := run.states[b].now - run.states[a].now;
            && p <= p0
            && LastsAtMost(waited, p0 - p + 1, cfg.passingTime as real * cfg.uncertainty)
            && LastsAtMost(waited, cfg.maxRobots, cfg.passingTime as real * cfg.uncertainty)
  {
    WaitingTimes(cfg, run, w, robot, a, b, p0, p);
    var waited := run.states[b].now - run.states[a].now;
    LastsTimes(waited, p0 - p + 1, Longest(cfg));
    LastsTimes(waited, cfg.maxRobots, Longest(cfg));
  }

  lemma WaitingTimes(cfg: Config, run: Run, w: int, robot: nat, a: nat, b: nat, p0: nat, p: nat)
    requires IsRun(cfg, run) && cfg.IsStation(w)
    requires StillQueued(LogOf(run, w), robot, a, b)
    requires At(LogOf(run, w).moments[a + 1].queue, p0, robot)
    requires At(LogOf(run, w).moments[b].queue, p, robot)
    ensures var waited := run.states[b].now - run.states[a].now;
            && p <= p0
            && waited <= Times(p0 - p + 1, Longest(cfg))
            && waited <= Times(cfg.maxRobots, Longest(cfg))
  {
    RunIsLog(cfg, run, w);
    QueueOfRunFits(cfg, run, w, a + 1);
    BoundedWaitingOverall(LogOf(run, w), Shortest(cfg), Longest(cfg), robot, a, b, p0, p, cfg.maxRobots);
  }
}
