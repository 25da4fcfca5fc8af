/** What the history of one served queue implies about order, rate and waiting times. */
module QueueLog {
  import opened Sequences

  /** The queue, the clock of its server and the time, at one moment. */
  datatype Moment = Moment(queue: seq<nat>, x: real, now: real)

  /** Between moments i and i + 1 the robots `joins[i]` join and the robots `leaves[i]` leave. */
  datatype Log = Log(moments: seq<Moment>, joins: seq<seq<nat>>, leaves: seq<seq<nat>>)

  ghost predicate MomentOk(m: Moment, longest: real) {
    Distinct(m.queue) && m.x >= 0.0 && (m.queue != [] ==> m.x <= longest)
  }

  /** One step of a server that releases the front robot once its clock shows `shortest`, and
      resets the clock at a release and when an empty queue is joined. */
  ghost predicate StepOk(before: Moment, joins: seq<nat>, leaves: seq<nat>, after: Moment, shortest: real) {
    && before.queue + joins == leaves + after.queue
    && |leaves| <= 1
    && after.now >= before.now
    && (joins != [] ==> after.now == before.now)
    && (joins != [] && before.queue == [] ==> after.x == 0.0)
    && (if leaves != [] then
          joins == [] && after.now == before.now && after.x == 0.0 && before.x >= shortest
        else
          || after.x == before.x + (after.now - before.now)
          || (before.queue == [] && after.x == 0.0 && after.now == before.now))
  }

  ghost predicate IsLog(log: Log, shortest: real, longest: real) {
    && |log.moments| == |log.joins| + 1 == |log.leaves| + 1
    && (forall i | 0 <= i < |log.moments| :: MomentOk(log.moments[i], longest))
    && (forall i | 0 <= i < |log.joins| ::
          StepOk(log.moments[i], log.joins[i], log.leaves[i], log.moments[i + 1], shortest))
  }

  /** k service times. */
  ghost function Times(k: nat, unit: real): real {
    if k == 0 then 0.0 else Times(k - 1, unit) + unit
  }

  lemma {:induction false} TimesIsProduct(k: nat, unit: real)
    ensures Times(k, unit) == k as real * unit
    decreases k
  {
    if k > 0 {
      TimesIsProduct(k - 1, unit);
      assert k as real * unit == (k - 1) as real * unit + unit;
    }
  }

  ghost predicate LastsAtMost(time: real, k: nat, unit: real) {
    time <= k as real * unit
  }

  ghost predicate LastsAtLeast(time: real, k: nat, unit: real) {
    time >= k as real * unit
  }

  /** The time is at most k passing times, each stretched by the uncertainty. */
  ghost predicate LastsPassings(time: real, k: nat, passing: int, uncertainty: real) {
    time <= k as real * (passing as real * uncertainty)
  }

  lemma LastsTimes(time: real, k: nat, unit: real)
    ensures time <= Times(k, unit) <==> LastsAtMost(time, k, unit)
    ensures time >= Times(k, unit) <==> LastsAtLeast(time, k, unit)
  {
    TimesIsProduct(k, unit);
  }

  lemma {:induction false} TimesGrows(m: nat, n: nat, unit: real)
    requires m <= n && unit >= 0.0
    ensures 0.0 <= Times(m, unit) <= Times(n, unit)
    decreases n
  {
    if m < n {
      TimesGrows(m, n - 1, unit);
    } else if m > 0 {
      TimesGrows(m - 1, n - 1, unit);
    }
  }

  ghost function Concat(parts: seq<seq<nat>>): seq<nat> {
    if parts == [] then [] else Concat(parts[..|parts| - 1]) + parts[|parts| - 1]
  }

  lemma ConcatNext(parts: seq<seq<nat>>, n: nat)
    requires n < |parts|
    ensures Concat(parts[..n + 1]) == Concat(parts[..n]) + parts[n]
  {
    assert parts[..n + 1][..n] == parts[..n];
  }

  /** First in, first out: those released, followed by those still queued, are those that were
      queued at first and those that joined, in order. */
  lemma {:induction false} FirstInFirstOut(log: Log, shortest: real, longest: real, n: nat)
    requires IsLog(log, shortest, longest) && n <= |log.joins|
    ensures Concat(log.leaves[..n]) + log.moments[n].queue
            == log.moments[0].queue + Concat(log.joins[..n])
    decreases n
  {
    if n > 0 {
      var i := n - 1;
      FirstInFirstOut(log, shortest, longest, i);
      ConcatNext(log.leaves, i);
      ConcatNext(log.joins, i);
      assert StepOk(log.moments[i], log.joins[i], log.leaves[i], log.moments[n], shortest);
      Regroup(Concat(log.leaves[..i]), log.leaves[i], log.moments[n].queue, log.moments[i].queue, log.joins[i]);
      assert log.moments[0].queue + Concat(log.joins[..i]) + log.joins[i]
          == log.moments[0].queue + (Concat(log.joins[..i]) + log.joins[i]);
    }
  }

  lemma Regroup(out: seq<nat>, leaves: seq<nat>, after: seq<nat>, before: seq<nat>, joins: seq<nat>)
    requires before + joins == leaves + after
    ensures out + leaves + after == out + before + joins
  {
    Associative(out, leaves, after);
    Associative(out, before, joins);
  }

  /** The number of releases between moments a and b. */
  ghost function Releases(log: Log, a: nat, b: nat): nat
    requires a <= b <= |log.leaves|
  {
    if a == b then 0 else Releases(log, a, b - 1) + |log.leaves[b - 1]|
  }

  lemma {:induction false} ReleasesCounted(log: Log, b: nat)
    requires b <= |log.leaves|
    ensures Releases(log, 0, b) == |Concat(log.leaves[..b])|
    decreases b
  {
    if b > 0 {
      ReleasesCounted(log, b - 1);
      ConcatNext(log.leaves, b - 1);
    }
  }

  /** Each release takes its service time out of the time that passes and the clock. */
  lemma {:induction false} ReleasesTakeTime(log: Log, shortest: real, longest: real, a: nat, b: nat)
    requires IsLog(log, shortest, longest) && a <= b <= |log.leaves|
    ensures Times(Releases(log, a, b), shortest) + log.moments[b].x
            <= log.moments[b].now - log.moments[a].now + log.moments[a].x
    ensures log.moments[a].now <= log.moments[b].now
    decreases b
  {
    if a < b {
      var i := b - 1;
      ReleasesTakeTime(log, shortest, longest, a, i);
      assert StepOk(log.moments[i], log.joins[i], log.leaves[i], log.moments[b], shortest);
      assert MomentOk(log.moments[i], longest);
      if log.leaves[i] != [] {
        assert Releases(log, a, b) == Releases(log, a, i) + 1;
      }
    }
  }

  /** How many robots have left in the first n steps. */
  ghost function Released(log: Log, n: nat): nat
    requires n <= |log.leaves|
  {
    |Concat(log.leaves[..n])|
  }

  /** By a moment that is T after an idle start, at most T / shortest robots have been released. */
  lemma ReleaseRate(log: Log, shortest: real, longest: real, n: nat)
    requires IsLog(log, shortest, longest) && n <= |log.leaves|
    requires log.moments[0].x == 0.0 && log.moments[0].now == 0.0
    ensures Times(Released(log, n), shortest) <= log.moments[n].now
  {
    ReleasesTakeTime(log, shortest, longest, 0, n);
    ReleasesCounted(log, n);
    assert MomentOk(log.moments[n], longest);
  }

  /** Two releases are at least `shortest` apart. */
  lemma ReleasesApart(log: Log, shortest: real, longest: real, a: nat, b: nat)
    requires IsLog(log, shortest, longest) && a < b < |log.leaves|
    requires log.leaves[a] != [] && log.leaves[b] != []
    ensures log.moments[b].now - log.moments[a].now >= shortest
  {
    assert StepOk(log.moments[a], log.joins[a], log.leaves[a], log.moments[a + 1], shortest);
    assert StepOk(log.moments[b], log.joins[b], log.leaves[b], log.moments[b + 1], shortest);
    assert MomentOk(log.moments[b], longest);
    ReleasesTakeTime(log, shortest, longest, a + 1, b);
    if shortest >= 0.0 {
      TimesGrows(0, Releases(log, a + 1, b), shortest);
    }
  }

  /** The robot joined in step a and is still queued at moment b. */
  ghost predicate StillQueued(log: Log, robot: nat, a: nat, b: nat)
    requires |log.moments| == |log.joins| + 1
  {
    && a < b < |log.moments|
    && log.joins[a] == [robot]
    && forall n | a < n <= b :: robot in log.moments[n].queue
  }

  /** If the robot is first in line, the clock shows no more than the time since it joined. */
  ghost predicate ServedSinceJoining(log: Log, robot: nat, a: nat, i: nat)
    requires a + 1 < |log.moments| && i < |log.moments|
  {
    var m, waited := log.moments[i], log.moments[i].now - log.moments[a + 1].now;
    m.queue != [] && waited >= 0.0 && (m.queue[0] == robot ==> m.x <= waited)
  }

  lemma {:induction false} ServedOnlySinceJoining(log: Log, shortest: real, longest: real, robot: nat, a: nat, b: nat)
    requires IsLog(log, shortest, longest) && StillQueued(log, robot, a, b)
    ensures ServedSinceJoining(log, robot, a, b)
    decreases b
  {
    var i := b - 1;
    assert StepOk(log.moments[i], log.joins[i], log.leaves[i], log.moments[i + 1], shortest);
    assert MomentOk(log.moments[b], longest) && MomentOk(log.moments[i], longest);
    assert robot in log.moments[b].queue;
    if i == a {
      JoinsLast(log.moments[a].queue, robot, log.moments[b].queue);
    } else {
      ServedOnlySinceJoining(log, shortest, longest, robot, a, i);
      assert robot in log.moments[i].queue;
      StaysFirst(log.moments[i].queue, log.joins[i], log.leaves[i], log.moments[b].queue);
    }
  }

  lemma JoinsLast(before: seq<nat>, robot: nat, after: seq<nat>)
    requires Distinct(after)
    ensures before + [robot] == [] + after && before != [] ==> after[0] != robot
  {
    if before + [robot] == [] + after && before != [] {
      assert (before + [robot])[0] == ([] + after)[0] && (before + [robot])[|before|] == ([] + after)[|before|];
    }
  }

  lemma StaysFirst(before: seq<nat>, joins: seq<nat>, leaves: seq<nat>, after: seq<nat>)
    requires before + joins == leaves + after && before != []
    ensures leaves == [] ==> after != [] && after[0] == before[0]
  {
    if leaves == [] {
      assert (before + joins)[0] == (leaves + after)[0];
    }
  }

  /** A robot is released no earlier than `shortest` after it joined. */
  lemma StaysAtLeast(log: Log, shortest: real, longest: real, robot: nat, a: nat, b: nat)
    requires IsLog(log, shortest, longest) && StillQueued(log, robot, a, b)
    requires b < |log.leaves| && log.leaves[b] == [robot]
    ensures log.moments[b].now - log.moments[a + 1].now >= shortest
  {
    ServedOnlySinceJoining(log, shortest, longest, robot, a, b);
    var m := log.moments[b];
    assert StepOk(m, log.joins[b], log.leaves[b], log.moments[b + 1], shortest);
    assert (m.queue + log.joins[b])[0] == (log.leaves[b] + log.moments[b + 1].queue)[0];
  }

  ghost predicate At(q: seq<nat>, p: nat, robot: nat) {
    p < |q| && q[p] == robot
  }

  /** In one step a robot that stays moves up by the number of releases. */
  lemma MovesUp(before: Moment, joins: seq<nat>, leaves: seq<nat>, after: Moment, shortest: real, longest: real,
                robot: nat, p: nat)
    requires StepOk(before, joins, leaves, after, shortest) && MomentOk(before, longest) && MomentOk(after, longest)
    requires robot in before.queue && At(after.queue, p, robot)
    ensures At(before.queue, p + |leaves|, robot)
  {
    var p' :| 0 <= p' < |before.queue| && before.queue[p'] == robot;
    assert (before.queue + joins)[p'] == robot;
    if leaves == [] {
      assert after.queue[p'] == robot;
    } else {
      assert (leaves + after.queue)[p + 1] == robot;
      assert before.queue[p + 1] == robot;
    }
  }

  lemma {:induction false} WaitingSoFar(log: Log, shortest: real, longest: real, robot: nat,
                                        a: nat, b: nat, p0: nat, p: nat)
    requires IsLog(log, shortest, longest) && StillQueued(log, robot, a, b)
    requires At(log.moments[a + 1].queue, p0, robot) && At(log.moments[b].queue, p, robot)
    ensures p <= p0
    ensures log.moments[b].now - log.moments[a].now <= Times(p0 - p, longest) + log.moments[b].x
    decreases b
  {
    var i := b - 1;
    assert StepOk(log.moments[i], log.joins[i], log.leaves[i], log.moments[b], shortest);
    assert MomentOk(log.moments[i], longest) && MomentOk(log.moments[b], longest);
    if b > a + 1 {
      MovesUp(log.moments[i], log.joins[i], log.leaves[i], log.moments[b], shortest, longest, robot, p);
      var p' := p + |log.leaves[i]|;
      WaitingSoFar(log, shortest, longest, robot, a, i, p0, p');
    }
  }

  /** Bounded waiting: a robot that joined at position p0 and is now at position p has waited at
      most p0 - p + 1 of the longest service times. */
  lemma BoundedWaiting(log: Log, shortest: real, longest: real, robot: nat, a: nat, b: nat, p0: nat, p: nat)
    requires IsLog(log, shortest, longest) && StillQueued(log, robot, a, b)
    requires At(log.moments[a + 1].queue, p0, robot) && At(log.moments[b].queue, p, robot)
    ensures p <= p0 && longest >= 0.0
    ensures log.moments[b].now - log.moments[a].now <= Times(p0 - p + 1, longest)
  {
    WaitingSoFar(log, shortest, longest, robot, a, b, p0, p);
    assert MomentOk(log.moments[b], longest);
  }

  /** And so never more than max of them, when at most max robots were queued. */
  lemma BoundedWaitingOverall(log: Log, shortest: real, longest: real, robot: nat,
                              a: nat, b: nat, p0: nat, p: nat, max: nat)
    requires IsLog(log, shortest, longest) && StillQueued(log, robot, a, b)
    requires At(log.moments[a + 1].queue, p0, robot) && At(log.moments[b].queue, p, robot)
    requires |log.moments[a + 1].queue| <= max
    ensures var waited := log.moments[b].now - log.moments[a].now;
            p <= p0 && waited <= Times(p0 - p + 1, longest) && waited <= Times(max, longest)
  {
    BoundedWaiting(log, shortest, longest, robot, a, b, p0, p);
    TimesGrows(p0 - p + 1, max, longest);
  }

  /** Distinct ids 1..max fit into an array of max slots. */
  lemma {:induction false} DistinctIdsFit(q: seq<nat>, max: nat)
    requires Distinct(q)
    requires forall i | 0 <= i < |q| :: 1 <= q[i] <= max
    ensures |q| <= max
    decreases max
  {
    if i :| 0 <= i < |q| && q[i] == max {
      DistinctIdsFit(q[..i] + q[i + 1..], max - 1);
    } else if q != [] {
      assert 1 <= q[0] < max;
      DistinctIdsFit(q, max - 1);
    }
  }
}
