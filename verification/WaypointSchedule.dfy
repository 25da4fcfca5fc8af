/** `WaypointScheduler::convert_result`: three queues of samples consumed in lockstep. */
module WaypointSchedule {
  import opened Samples
  import opened Wrappers

  datatype Action = Waypoint(id: int) | Hold(delay: nat)

  /** The rest of the trace after a block of samples of one value. */
  function SkipValue(samples: seq<Sample>, value: int): seq<Sample> {
    if samples != [] && samples[0].value == value then SkipValue(samples[1..], value) else samples
  }

  datatype Reached = NeverReached | Reached(at: Sample, rest: seq<Sample>)

  /** The first sample with the value. */
  function Reach(samples: seq<Sample>, value: int): Reached {
    if samples == [] then NeverReached
    else if samples[0].value == value then Reached(samples[0], samples[1..])
    else Reach(samples[1..], value)
  }

  /** The samples that are not before the given time, up to the tolerance. */
  function SkipEarly(samples: seq<Sample>, time: real): seq<Sample> {
    if samples != [] && samples[0].time - time < 0.0001 then SkipEarly(samples[1..], time) else samples
  }

  /** The length of the block of 1-samples at the front. */
  function LeadingOnes(samples: seq<Sample>): (n: nat)
    ensures n <= |samples|
  {
    if samples != [] && samples[0].value == 1 then 1 + LeadingOnes(samples[1..]) else 0
  }

  /** The hold samples left when a block of 1-samples and the sample behind it are consumed. */
  function AfterOnes(samples: seq<Sample>): seq<Sample> {
    var rest := samples[LeadingOnes(samples)..];
    if rest == [] then [] else rest[1..]
  }

  /** The main loop; None where it takes the front of an empty queue. */
  ghost function Extract(cur: seq<Sample>, dest: seq<Sample>, hold: seq<Sample>, last: int): Option<seq<Action>>
    decreases |dest|
  {
    var d := SkipValue(dest, last);
    SkipValueShortens(dest, last);
    if dest == [] || cur == [] || d == [] then Some([])
    else
      match Reach(cur, d[0].value)
      case NeverReached => None
      case Reached(at, rest) =>
        var h := SkipEarly(hold, at.time);
        var delay := LeadingOnes(h);
        Prepend(Visit(d[0].value, delay),
                Extract(rest, d[1..], AfterOnes(h), d[0].value))
  }

  /** The actions of one visited waypoint. */
  ghost function Visit(id: int, delay: nat): seq<Action> {
    if delay > 0 then [Waypoint(id), Hold(delay)] else [Waypoint(id)]
  }

  ghost function Prepend(first: seq<Action>, r: Option<seq<Action>>): Option<seq<Action>> {
    match r
    case None => None
    case Some(s) => Some(first + s)
  }

  /** The whole conversion: one sample is dropped of `cur` and `hold` and two of `dest`. */
  ghost function Schedule(cur: seq<Sample>, dest: seq<Sample>, hold: seq<Sample>): Option<seq<Action>> {
    if |cur| < 2 || |dest| < 2 || |hold| < 1 then None
    else Extract(cur[1..], dest[2..], hold[1..], dest[1].value)
  }

  lemma {:induction false} SkipValueShortens(samples: seq<Sample>, value: int)
    ensures |SkipValue(samples, value)| <= |samples|
    decreases |samples|
  {
    if samples != [] && samples[0].value == value {
      SkipValueShortens(samples[1..], value);
    }
  }

  lemma PrependNothing(r: Option<seq<Action>>)
    ensures Prepend([], r) == r
  {
    if r.Some? {
      assert [] + r.value == r.value;
    }
  }

  lemma PrependTwice(a: seq<Action>, b: seq<Action>, r: Option<seq<Action>>)
    ensures Prepend(a, Prepend(b, r)) == Prepend(a + b, r)
  {
    if r.Some? {
      assert a + (b + r.value) == (a + b) + r.value;
    }
  }

  method ConvertResult(curWaypoint: seq<Sample>, destWaypoint: seq<Sample>, holding: seq<Sample>)
    returns (r: Option<seq<Action>>)
    ensures r == Schedule(curWaypoint, destWaypoint, holding)
  {
    var cur, dest, hold := curWaypoint, destWaypoint, holding;
    if |cur| < 2 || |dest| < 2 || |hold| < 1 {
      return None;
    }
    var schedule := [];
    cur := cur[1..];
    var lastCur := cur[0];
    dest := dest[1..];
    var lastDest := dest[0];
    dest := dest[1..];
    hold := hold[1..];
    ghost var all := Extract(cur, dest, hold, lastDest.value);
    PrependNothing(all);

    while dest != [] && cur != []
      invariant Prepend(schedule, Extract(cur, dest, hold, lastDest.value)) == all
      decreases |dest|
    {
      ghost var target := SkipValue(dest, lastDest.value);
      SkipValueShortens(dest, lastDest.value);
      ghost var before := Extract(cur, dest, hold, lastDest.value);
      dest := SkipSamples(dest, lastDest.value);
      if dest == [] {
        assert schedule + [] == schedule;
        return Some(schedule);
      }
      lastDest := dest[0];
      dest := dest[1..];

      ghost var reached := Reach(cur, lastDest.value);
      while true
        invariant Reach(cur, lastDest.value) == reached
        decreases |cur|
      {
        if cur == [] {
          return None;
        }
        lastCur := cur[0];
        cur := cur[1..];
        if lastCur.value == lastDest.value {
          break;
        }
      }
      assert reached == Reached(lastCur, cur);

      var delay;
      delay, hold := TakeHold(hold, lastCur.time);
      ghost var added := Visit(lastDest.value, delay);
      assert before == Prepend(added, Extract(cur, dest, hold, lastDest.value));
      PrependTwice(schedule, added, Extract(cur, dest, hold, lastDest.value));
      ghost var extended := schedule + added;
      schedule := schedule + [Waypoint(lastDest.value)];
      if delay > 0 {
        schedule := schedule + [Hold(delay)];
      }
      assert schedule == extended;
    }
    assert schedule + [] == schedule;
    return Some(schedule);
  }

  /** The loop that looks for the next waypoint. */
  method SkipSamples(samples: seq<Sample>, value: int) returns (rest: seq<Sample>)
    ensures rest == SkipValue(samples, value)
  {
    rest := samples;
    while rest != [] && rest[0].value == value
      invariant SkipValue(rest, value) == SkipValue(samples, value)
      decreases |rest|
    {
      rest := rest[1..];
    }
  }

  /** The first sample that is not before the time, up to the tolerance: k of them are. */
  predicate FirstLate(hold: seq<Sample>, time: real, k: nat) {
    && k <= |hold|
    && (forall i | 0 <= i < k :: hold[i].time - time < 0.0001)
    && (k < |hold| ==> hold[k].time - time >= 0.0001)
  }

  /** From sample k on, the trace shows n times 1 in a row, and not once more. */
  predicate OnesAt(hold: seq<Sample>, k: nat, n: nat) {
    && k + n <= |hold|
    && (forall i | k <= i < k + n :: hold[i].value == 1)
    && (k + n < |hold| ==> hold[k + n].value != 1)
  }

  /** The delay is the number of 1-samples in a row from the first late sample on. They are used up
      with the samples before them and the sample behind them. */
  ghost predicate Takes(hold: seq<Sample>, time: real, delay: nat, rest: seq<Sample>) {
    exists k: nat ::
      && FirstLate(hold, time, k) && OnesAt(hold, k, delay)
      && rest == if k + delay < |hold| then hold[k + delay + 1..] else []
  }

  lemma {:induction false} SkipEarlyIsFirstLate(hold: seq<Sample>, time: real) returns (k: nat)
    ensures FirstLate(hold, time, k) && SkipEarly(hold, time) == hold[k..]
    decreases |hold|
  {
    if hold != [] && hold[0].time - time < 0.0001 {
      k := SkipEarlyIsFirstLate(hold[1..], time);
      forall i | 0 <= i < k + 1
        ensures hold[i].time - time < 0.0001
      {
        assert i > 0 ==> hold[i] == hold[1..][i - 1];
      }
      assert hold[1..][k..] == hold[k + 1..];
      assert k < |hold[1..]| ==> hold[1..][k] == hold[k + 1];
      k := k + 1;
    } else {
      k := 0;
    }
  }

  lemma {:induction false} LeadingOnesAreOnes(h: seq<Sample>)
    ensures OnesAt(h, 0, LeadingOnes(h))
    decreases |h|
  {
    if h != [] && h[0].value == 1 {
      var n := LeadingOnes(h[1..]);
      LeadingOnesAreOnes(h[1..]);
      forall i | 0 <= i < n + 1
        ensures h[i].value == 1
      {
        assert i > 0 ==> h[i] == h[1..][i - 1];
      }
      assert n < |h[1..]| ==> h[1..][n] == h[n + 1];
    }
  }

  lemma HoldIsTaken(hold: seq<Sample>, time: real)
    ensures var h := SkipEarly(hold, time); Takes(hold, time, LeadingOnes(h), AfterOnes(h))
  {
    var h := SkipEarly(hold, time);
    var k := SkipEarlyIsFirstLate(hold, time);
    var n := LeadingOnes(h);
    LeadingOnesAreOnes(h);
    forall i | k <= i < k + n
      ensures hold[i].value == 1
    {
      assert hold[i] == h[i - k];
    }
    if n < |h| {
      assert hold[k + n] == h[n];
      assert h[n..][1..] == hold[k + n + 1..];
    }
    assert OnesAt(hold, k, n);
  }

  /** The loops that count the hold samples from a time on. */
  method TakeHold(samples: seq<Sample>, time: real) returns (delay: nat, hold: seq<Sample>)
    ensures Takes(samples, time, delay, hold)
    ensures var h := SkipEarly(samples, time); delay == LeadingOnes(h) && hold == AfterOnes(h)
  {
    hold := samples;
    while hold != [] && hold[0].time - time < 0.0001
      invariant SkipEarly(hold, time) == SkipEarly(samples, time)
      decreases |hold|
    {
      hold := hold[1..];
    }
    ghost var h := hold;
    delay := 0;
    while hold != [] && hold[0].value == 1
      invariant delay + LeadingOnes(hold) == LeadingOnes(h)
      invariant delay <= |h| && hold == h[delay..]
      decreases |hold|
    {
      delay := delay + 1;
      hold := hold[1..];
    }
    if hold != [] {
      hold := hold[1..];
    }
    HoldIsTaken(samples, time);
  }

  /** Every Hold follows a Waypoint and is positive: the schedule matches (Waypoint Hold?)*. */
  ghost predicate WellShaped(schedule: seq<Action>) {
    forall i | 0 <= i < |schedule| && schedule[i].Hold? ::
      schedule[i].delay > 0 && i > 0 && schedule[i - 1].Waypoint?
  }

  ghost function HoldSum(schedule: seq<Action>): nat {
    if schedule == [] then 0
    else (if schedule[0].Hold? then schedule[0].delay else 0) + HoldSum(schedule[1..])
  }

  ghost function OnesIn(samples: seq<Sample>): nat {
    if samples == [] then 0 else (if samples[0].value == 1 then 1 else 0) + OnesIn(samples[1..])
  }

  /** The destinations of a schedule. */
  ghost function Waypoints(schedule: seq<Action>): seq<int> {
    if schedule == [] then []
    else (if schedule[0].Waypoint? then [schedule[0].id] else []) + Waypoints(schedule[1..])
  }

  lemma VisitFirst(id: int, delay: nat, tail: seq<Action>)
    ensures var schedule := Visit(id, delay) + tail;
            && schedule[0] == Waypoint(id)
            && Waypoints(schedule) == [id] + Waypoints(tail)
            && HoldSum(schedule) == delay + HoldSum(tail)
            && (WellShaped(tail) && (tail != [] ==> tail[0].Waypoint?) ==> WellShaped(schedule))
  {
  }

  lemma {:induction false} SkipEarlyKeepsOnes(samples: seq<Sample>, time: real)
    ensures OnesIn(SkipEarly(samples, time)) <= OnesIn(samples)
    decreases |samples|
  {
    if samples != [] && samples[0].time - time < 0.0001 {
      SkipEarlyKeepsOnes(samples[1..], time);
    }
  }

  lemma {:induction false} OnesSplit(samples: seq<Sample>)
    ensures LeadingOnes(samples) + OnesIn(AfterOnes(samples)) == OnesIn(samples)
    decreases |samples|
  {
    if samples != [] && samples[0].value == 1 {
      assert samples[LeadingOnes(samples)..] == samples[1..][LeadingOnes(samples[1..])..];
      OnesSplit(samples[1..]);
    } else {
      assert samples[0..] == samples;
    }
  }

  /** What is left of the three queues when one waypoint has been extracted. */
  ghost function RestOfCur(cur: seq<Sample>, id: int): seq<Sample>
    requires Reach(cur, id).Reached?
  {
    Reach(cur, id).rest
  }

  ghost function HoldAt(cur: seq<Sample>, hold: seq<Sample>, id: int): seq<Sample>
    requires Reach(cur, id).Reached?
  {
    SkipEarly(hold, Reach(cur, id).at.time)
  }

  /** One turn of the main loop: a waypoint that is reached, its hold, and the schedule from there. */
  lemma ExtractStep(cur: seq<Sample>, dest: seq<Sample>, hold: seq<Sample>, last: int)
    requires dest != [] && cur != [] && SkipValue(dest, last) != []
    ensures var d := SkipValue(dest, last); var id := d[0].value;
            |d| <= |dest| &&
            if Reach(cur, id).NeverReached? then Extract(cur, dest, hold, last).None?
            else
              var h := HoldAt(cur, hold, id);
              var tail := Extract(RestOfCur(cur, id), d[1..], AfterOnes(h), id);
              && (Extract(cur, dest, hold, last).Some? <==> tail.Some?)
              && (tail.Some? ==>
                    var schedule := Extract(cur, dest, hold, last).value;
                    && schedule[..1] == [Waypoint(id)]
                    && Waypoints(schedule) == [id] + Waypoints(tail.value)
                    && HoldSum(schedule) == LeadingOnes(h) + HoldSum(tail.value)
                    && (WellShaped(tail.value) && (tail.value != [] ==> tail.value[0].Waypoint?)
                        ==> WellShaped(schedule)))
  {
    SkipValueShortens(dest, last);
    var d := SkipValue(dest, last);
    var id := d[0].value;
    if Reach(cur, id).Reached? {
      var h := HoldAt(cur, hold, id);
      var tail := Extract(RestOfCur(cur, id), d[1..], AfterOnes(h), id);
      if tail.Some? {
        VisitFirst(id, LeadingOnes(h), tail.value);
      }
    }
  }

  /** For any traces, a schedule is well shaped, and no hold sample is counted twice: the delays sum
      to at most the number of 1-samples. */
  lemma {:induction false} ShapeAndHolds(cur: seq<Sample>, dest: seq<Sample>, hold: seq<Sample>, last: int)
    requires Extract(cur, dest, hold, last).Some?
    ensures var schedule := Extract(cur, dest, hold, last).value;
            && WellShaped(schedule)
            && (schedule != [] ==> schedule[0].Waypoint?)
            && HoldSum(schedule) <= OnesIn(hold)
    decreases |dest|
  {
    var d := SkipValue(dest, last);
    if dest != [] && cur != [] && d != [] {
      var id := d[0].value;
      ExtractStep(cur, dest, hold, last);
      var h := HoldAt(cur, hold, id);
      ShapeAndHolds(RestOfCur(cur, id), d[1..], AfterOnes(h), id);
      SkipEarlyKeepsOnes(hold, Reach(cur, id).at.time);
      OnesSplit(h);
    }
  }

  /** Skipping a block of `last` leads to the next value of the reduced trace. */
  lemma {:induction false} SkipFinds(dest: seq<Sample>, last: int, c: seq<int>)
    requires Destutter([last] + Values(dest)) == [last] + c
    ensures var d := SkipValue(dest, last);
            && (c == [] ==> d == [])
            && (c != [] ==> d != [] && d[0].value == c[0]
                            && Destutter([c[0]] + Values(d[1..])) == [c[0]] + c[1..])
    decreases |dest|
  {
    DestutterAfter(last, Values(dest), c);
    if dest != [] {
      assert Values(dest) == [dest[0].value] + Values(dest[1..]);
      if dest[0].value == last {
        assert dest[0].value in Values(dest);
        assert ([last] + Values(dest))[1..] == [last] + Values(dest[1..]);
        SkipFinds(dest[1..], last, c);
      } else {
        assert dest[0].value in Values(dest);
        assert c == [c[0]] + c[1..];
      }
    }
  }

  /** Popping up to the next value of the reduced trace succeeds. */
  lemma {:induction false} ReachFinds(cur: seq<Sample>, last: int, c: seq<int>)
    requires Destutter([last] + Values(cur)) == [last] + c && c != []
    ensures var reached := Reach(cur, c[0]);
            && reached.Reached?
            && Destutter([c[0]] + Values(reached.rest)) == [c[0]] + c[1..]
    decreases |cur|
  {
    DestutterAfter(last, Values(cur), c);
    assert Values(cur) == [cur[0].value] + Values(cur[1..]);
    if cur[0].value == last {
      assert ([last] + Values(cur))[1..] == [last] + Values(cur[1..]);
      ReachFinds(cur[1..], last, c);
    } else {
      assert c == [c[0]] + c[1..];
    }
  }

  /** When both traces go on with the values c, the loop extracts exactly c, and no queue runs empty
      under it. */
  lemma {:induction false} ExtractsRoute(cur: seq<Sample>, dest: seq<Sample>, hold: seq<Sample>,
                                         lastCur: int, lastDest: int, c: seq<int>)
    requires Destutter([lastCur] + Values(cur)) == [lastCur] + c
    requires Destutter([lastDest] + Values(dest)) == [lastDest] + c
    ensures var r := Extract(cur, dest, hold, lastDest);
            r.Some? && Waypoints(r.value) == c
    decreases |c|
  {
    SkipFinds(dest, lastDest, c);
    if c != [] {
      ReachFinds(cur, lastCur, c);
      DestutterAfter(lastCur, Values(cur), c);
      DestutterAfter(lastDest, Values(dest), c);
      ExtractStep(cur, dest, hold, lastDest);
      var h := HoldAt(cur, hold, c[0]);
      ExtractsRoute(RestOfCur(cur, c[0]), SkipValue(dest, lastDest)[1..], AfterOnes(h), c[0], c[0], c[1..]);
    }
  }

  lemma {:induction false} SkipStops(samples: seq<Sample>, value: int)
    ensures var d := SkipValue(samples, value);
            |d| <= |samples| && (d != [] ==> d[0].value != value)
    decreases |samples|
  {
    if samples != [] && samples[0].value == value {
      SkipStops(samples[1..], value);
    }
  }

  /** No waypoint is extracted twice in a row. */
  lemma {:induction false} ExtractsNoRepeats(cur: seq<Sample>, dest: seq<Sample>, hold: seq<Sample>, last: int)
    requires Extract(cur, dest, hold, last).Some?
    ensures var ids := Waypoints(Extract(cur, dest, hold, last).value);
            NoRepeats(ids) && (ids != [] ==> ids[0] != last)
    decreases |dest|
  {
    var d := SkipValue(dest, last);
    SkipStops(dest, last);
    if dest != [] && cur != [] && d != [] {
      var id := d[0].value;
      ExtractStep(cur, dest, hold, last);
      var rest, h := RestOfCur(cur, id), HoldAt(cur, hold, id);
      ExtractsNoRepeats(rest, d[1..], AfterOnes(h), id);
      NoRepeatsBehind(id, Waypoints(Extract(rest, d[1..], AfterOnes(h), id).value));
    }
  }

  /** Popping up to another value leaves fewer changes of the value. */
  lemma {:induction false} ReachShortens(cur: seq<Sample>, last: int, value: int)
    requires value != last && Reach(cur, value).Reached?
    ensures |Destutter([value] + Values(Reach(cur, value).rest))| < |Destutter([last] + Values(cur))|
    decreases |cur|
  {
    var rest := Values(cur[1..]);
    assert Values(cur) == [cur[0].value] + rest;
    assert ([last] + Values(cur))[1..] == [cur[0].value] + rest;
    if cur[0].value != value {
      ReachShortens(cur[1..], cur[0].value, value);
    }
  }

  /** At most one waypoint is extracted for each change of the trace of waypoints reached. */
  lemma {:induction false} ExtractsAtMost(cur: seq<Sample>, dest: seq<Sample>, hold: seq<Sample>, last: int)
    requires Extract(cur, dest, hold, last).Some?
    ensures |Waypoints(Extract(cur, dest, hold, last).value)| < |Destutter([last] + Values(cur))|
    decreases |dest|
  {
    var d := SkipValue(dest, last);
    SkipStops(dest, last);
    if dest != [] && cur != [] && d != [] {
      var id := d[0].value;
      ExtractStep(cur, dest, hold, last);
      ReachShortens(cur, last, id);
      ExtractsAtMost(RestOfCur(cur, id), d[1..], AfterOnes(HoldAt(cur, hold, id)), id);
    }
  }
}
