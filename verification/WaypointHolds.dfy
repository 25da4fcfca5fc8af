/** Which Hold the conversion puts behind which waypoint. */
module WaypointHolds {
  import opened Samples
  import opened WaypointSchedule

  /** For each waypoint of a schedule, the delay of the Hold behind it; 0 where there is none. */
  ghost function Delays(schedule: seq<Action>): seq<nat> {
    if schedule == [] then []
    else if schedule[0].Hold? then Delays(schedule[1..])
    else if |schedule| > 1 && schedule[1].Hold? then [schedule[1].delay] + Delays(schedule[2..])
    else [0] + Delays(schedule[1..])
  }

  /** Sample k is the first with this value. */
  predicate FirstWith(cur: seq<Sample>, value: int, k: nat) {
    && k < |cur| && cur[k].value == value
    && forall i | 0 <= i < k :: cur[i].value != value
  }

  lemma {:induction false} ReachIsFirst(cur: seq<Sample>, value: int) returns (k: nat)
    requires Reach(cur, value).Reached?
    ensures FirstWith(cur, value, k)
    ensures Reach(cur, value).at == cur[k] && Reach(cur, value).rest == cur[k + 1..]
    decreases |cur|
  {
    if cur[0].value == value {
      k := 0;
    } else {
      k := ReachIsFirst(cur[1..], value);
      assert cur[1..][k + 1..] == cur[k + 2..] && cur[1..][k] == cur[k + 1];
      forall i | 0 <= i < k + 1
        ensures cur[i].value != value
      {
        assert i > 0 ==> cur[i] == cur[1..][i - 1];
      }
      k := k + 1;
    }
  }

  /** What the schedule says of the traces: each waypoint is the next sample of it in the trace of
      waypoints, and its delay is taken from what is left of the hold trace at the time of that sample. */
  ghost predicate Follows(cur: seq<Sample>, hold: seq<Sample>, ids: seq<int>, delays: seq<nat>)
    decreases |ids|
  {
    if ids == [] then delays == []
    else
      && delays != []
      && exists k: nat, rest ::
           && FirstWith(cur, ids[0], k) && Takes(hold, cur[k].time, delays[0], rest)
           && Follows(cur[k + 1..], rest, ids[1..], delays[1..])
  }

  /** For any traces, a schedule follows them. */
  lemma {:induction false} ScheduleFollows(cur: seq<Sample>, dest: seq<Sample>, hold: seq<Sample>, last: int)
    requires Extract(cur, dest, hold, last).Some?
    ensures var schedule := Extract(cur, dest, hold, last).value;
            Follows(cur, hold, Waypoints(schedule), Delays(schedule))
    decreases |dest|
  {
    var d := SkipValue(dest, last);
    if dest != [] && cur != [] && d != [] {
      var id := d[0].value;
      ExtractStep(cur, dest, hold, last);
      var rest, h := RestOfCur(cur, id), HoldAt(cur, hold, id);
      var tail := Extract(rest, d[1..], AfterOnes(h), id).value;
      ScheduleFollows(rest, d[1..], AfterOnes(h), id);
      ShapeAndHolds(rest, d[1..], AfterOnes(h), id);
      VisitDelay(id, LeadingOnes(h), tail);
      var k := ReachIsFirst(cur, id);
      HoldIsTaken(hold, cur[k].time);
      FollowsOn(cur, hold, id, LeadingOnes(h), k, AfterOnes(h), Waypoints(tail), Delays(tail));
    }
  }

  lemma FollowsOn(cur: seq<Sample>, hold: seq<Sample>, id: int, delay: nat, k: nat, rest: seq<Sample>,
                  ids: seq<int>, delays: seq<nat>)
    requires FirstWith(cur, id, k) && Takes(hold, cur[k].time, delay, rest)
    requires Follows(cur[k + 1..], rest, ids, delays)
    ensures Follows(cur, hold, [id] + ids, [delay] + delays)
  {
    var longer, all := [id] + ids, [delay] + delays;
    assert longer[1..] == ids && all[1..] == delays;
    assert FirstWith(cur, longer[0], k) && Takes(hold, cur[k].time, all[0], rest);
    assert Follows(cur[k + 1..], rest, longer[1..], all[1..]);
  }

  /** The times at which these waypoints are reached, one after the other. */
  ghost predicate AreReachTimes(cur: seq<Sample>, ids: seq<int>, times: seq<real>)
    decreases |ids|
  {
    if ids == [] then times == []
    else
      && times != []
      && exists k: nat :: FirstWith(cur, ids[0], k) && times[0] == cur[k].time
                          && AreReachTimes(cur[k + 1..], ids[1..], times[1..])
  }

  /** The whole trace shows n times 1 in a row right after this time (up to the tolerance). */
  ghost predicate ShowsHold(hold: seq<Sample>, time: real, n: nat) {
    exists k: nat :: FirstLate(hold, time, k) && OnesAt(hold, k, n)
  }

  /** Between two arrivals the trace shows that the robot no longer holds: the 1-samples after the
      first arrival and the sample behind them are not later than the second one. */
  ghost predicate Settles(hold: seq<Sample>, time: real, next: real) {
    && time <= next
    && forall k: nat, n: nat | FirstLate(hold, time, k) && OnesAt(hold, k, n) ::
         forall i | k <= i <= k + n && i < |hold| :: hold[i].time - next < 0.0001
  }

  ghost predicate SettlesBetween(hold: seq<Sample>, times: seq<real>) {
    forall i | 0 <= i < |times| - 1 :: Settles(hold, times[i], times[i + 1])
  }

  ghost predicate DelaysAreShown(hold: seq<Sample>, times: seq<real>, delays: seq<nat>) {
    |delays| == |times| && forall i | 0 <= i < |times| :: ShowsHold(hold, times[i], delays[i])
  }

  /** `left` is the hold trace from sample p on, and all before are early for this time. */
  ghost predicate IsLeft(hold: seq<Sample>, p: nat, left: seq<Sample>, time: real) {
    p <= |hold| && left == hold[p..] && forall i | 0 <= i < p :: hold[i].time - time < 0.0001
  }

  /** What is taken from the rest of the trace is what the whole trace shows. */
  lemma TakenIsShown(hold: seq<Sample>, p: nat, left: seq<Sample>, time: real, delay: nat, rest: seq<Sample>)
    returns (q: nat)
    requires IsLeft(hold, p, left, time) && Takes(left, time, delay, rest)
    ensures ShowsHold(hold, time, delay)
    ensures q <= |hold| && rest == hold[q..]
    ensures forall next | Settles(hold, time, next) :: IsLeft(hold, q, rest, next)
  {
    var k: nat :| FirstLate(left, time, k) && OnesAt(left, k, delay)
                  && rest == if k + delay < |left| then left[k + delay + 1..] else [];
    LateInWhole(hold, p, left, time, k);
    OnesInWhole(hold, p, left, k, delay);
    q := if k + delay < |left| then p + k + delay + 1 else |hold|;
    RestOfWhole(hold, p, left, k + delay);
    forall next | Settles(hold, time, next)
      ensures IsLeft(hold, q, rest, next)
    {
      UsedUpBefore(hold, time, next, p + k, delay, q);
    }
  }

  lemma RestOfWhole(hold: seq<Sample>, p: nat, left: seq<Sample>, n: nat)
    requires p <= |hold| && left == hold[p..] && n <= |left|
    ensures n < |left| ==> left[n + 1..] == hold[p + n + 1..]
    ensures hold[|hold|..] == []
  {
  }

  lemma LateInWhole(hold: seq<Sample>, p: nat, left: seq<Sample>, time: real, k: nat)
    requires IsLeft(hold, p, left, time) && FirstLate(left, time, k)
    ensures FirstLate(hold, time, p + k)
  {
    forall i | 0 <= i < p + k
      ensures hold[i].time - time < 0.0001
    {
      assert i >= p ==> hold[i] == left[i - p];
    }
    assert k < |left| ==> hold[p + k] == left[k];
  }

  lemma OnesInWhole(hold: seq<Sample>, p: nat, left: seq<Sample>, k: nat, n: nat)
    requires p <= |hold| && left == hold[p..] && OnesAt(left, k, n)
    ensures OnesAt(hold, p + k, n)
  {
    forall i | p + k <= i < p + k + n
      ensures hold[i].value == 1
    {
      assert hold[i] == left[i - p];
    }
    assert k + n < |left| ==> hold[p + k + n] == left[k + n];
  }

  lemma UsedUpBefore(hold: seq<Sample>, time: real, next: real, m: nat, delay: nat, q: nat)
    requires FirstLate(hold, time, m) && OnesAt(hold, m, delay) && Settles(hold, time, next)
    requires q <= |hold| && q <= m + delay + 1
    ensures forall i | 0 <= i < q :: hold[i].time - next < 0.0001
  {
  }

  /** When the hold trace settles between the arrivals, each waypoint is followed by a Hold of exactly
      the 1-samples that the whole trace shows after its arrival, and by none if it shows none. */
  lemma {:induction false} HoldsBelongToArrivals(cur: seq<Sample>, left: seq<Sample>, ids: seq<int>, delays: seq<nat>,
                                                 times: seq<real>, hold: seq<Sample>, p: nat)
    requires Follows(cur, left, ids, delays) && AreReachTimes(cur, ids, times)
    requires SettlesBetween(hold, times)
    requires p <= |hold| && left == hold[p..] && (times != [] ==> IsLeft(hold, p, left, times[0]))
    ensures DelaysAreShown(hold, times, delays)
    decreases |ids|
  {
    if ids != [] {
      var k, rest := NextTaken(cur, left, ids, delays);
      NextReached(cur, ids, times, k);
      var q := TakenIsShown(hold, p, left, times[0], delays[0], rest);
      LaterSettles(hold, times);
      HoldsBelongToArrivals(cur[k + 1..], rest, ids[1..], delays[1..], times[1..], hold, q);
      OneMoreShown(hold, times, delays);
    }
  }

  /** The first visit, and what it leaves for the others. */
  lemma NextTaken(cur: seq<Sample>, hold: seq<Sample>, ids: seq<int>, delays: seq<nat>)
    returns (k: nat, rest: seq<Sample>)
    requires ids != [] && Follows(cur, hold, ids, delays)
    ensures delays != [] && FirstWith(cur, ids[0], k) && Takes(hold, cur[k].time, delays[0], rest)
    ensures Follows(cur[k + 1..], rest, ids[1..], delays[1..])
  {
    k, rest :| FirstWith(cur, ids[0], k) && Takes(hold, cur[k].time, delays[0], rest)
               && Follows(cur[k + 1..], rest, ids[1..], delays[1..]);
  }

  lemma NextReached(cur: seq<Sample>, ids: seq<int>, times: seq<real>, k: nat)
    requires ids != [] && AreReachTimes(cur, ids, times) && FirstWith(cur, ids[0], k)
    ensures times != [] && times[0] == cur[k].time && AreReachTimes(cur[k + 1..], ids[1..], times[1..])
  {
    var j: nat :| FirstWith(cur, ids[0], j) && times[0] == cur[j].time
                  && AreReachTimes(cur[j + 1..], ids[1..], times[1..]);
    OneFirst(cur, ids[0], k, j);
  }

  lemma OneFirst(cur: seq<Sample>, value: int, k: nat, j: nat)
    requires FirstWith(cur, value, k) && FirstWith(cur, value, j)
    ensures k == j
  {
  }

  lemma LaterSettles(hold: seq<Sample>, times: seq<real>)
    requires times != [] && SettlesBetween(hold, times)
    ensures SettlesBetween(hold, times[1..])
    ensures |times| > 1 ==> Settles(hold, times[0], times[1..][0])
  {
    if |times| > 1 {
      assert Settles(hold, times[0], times[0 + 1]);
    }
    forall i | 0 <= i < |times[1..]| - 1
      ensures Settles(hold, times[1..][i], times[1..][i + 1])
    {
      assert Settles(hold, times[i + 1], times[i + 1 + 1]);
    }
  }

  lemma OneMoreShown(hold: seq<Sample>, times: seq<real>, delays: seq<nat>)
    requires times != [] && delays != [] && ShowsHold(hold, times[0], delays[0])
    requires DelaysAreShown(hold, times[1..], delays[1..])
    ensures DelaysAreShown(hold, times, delays)
  {
    forall i | 0 <= i < |times|
      ensures ShowsHold(hold, times[i], delays[i])
    {
      if i > 0 {
        assert ShowsHold(hold, times[1..][i - 1], delays[1..][i - 1]);
      }
    }
  }

  lemma VisitDelay(id: int, delay: nat, tail: seq<Action>)
    requires tail != [] ==> tail[0].Waypoint?
    ensures Delays(Visit(id, delay) + tail) == [delay] + Delays(tail)
  {
    var schedule := Visit(id, delay) + tail;
    if delay > 0 {
      assert schedule[2..] == tail;
    } else {
      assert schedule[1..] == tail;
    }
  }

  /** For the whole conversion, which drops the first hold sample: it must be before the first arrival. */
  lemma ScheduleHolds(cur: seq<Sample>, dest: seq<Sample>, hold: seq<Sample>, times: seq<real>)
    requires Schedule(cur, dest, hold).Some?
    requires AreReachTimes(cur[1..], Waypoints(Schedule(cur, dest, hold).value), times)
    requires SettlesBetween(hold, times) && forall time <- times :: hold[0].time <= time
    ensures DelaysAreShown(hold, times, Delays(Schedule(cur, dest, hold).value))
  {
    var schedule := Schedule(cur, dest, hold).value;
    ScheduleFollows(cur[1..], dest[2..], hold[1..], dest[1].value);
    if times != [] {
      assert times[0] in times;
    }
    HoldsBelongToArrivals(cur[1..], hold[1..], Waypoints(schedule), Delays(schedule), times, hold, 1);
  }
}
