/** `StationScheduler::convert_result`, and what it extracts from the runs of the station network. */
module StationSchedule {
  import opened Samples
  import opened Sequences
  import opened StationNetwork
  import opened StationSafety
  import opened StationTour
  import opened Wrappers

  /** What is left of a reduced trace after the value `last`. */
  ghost function After(last: int, values: seq<int>): seq<int> {
    Destutter([last] + values)[1..]
  }

  lemma NothingAfter(last: int)
    ensures After(last, []) == []
  {
  }

  lemma AfterFirst(last: int, dest: seq<Sample>)
    requires dest != []
    ensures After(last, Values(dest)) ==
            if dest[0].value == last then After(last, Values(dest[1..]))
            else [dest[0].value] + After(dest[0].value, Values(dest[1..]))
  {
    assert ([last] + Values(dest))[1..] == Values(dest) == [dest[0].value] + Values(dest[1..]);
  }

  /** The schedule taken from the samples of `Robot.converted_dest()`; None where the code takes the
      front of an empty queue. It is the reduced trace without its first value. */
  method ConvertResult(samples: seq<Sample>) returns (r: Option<seq<int>>)
    ensures r == if samples == [] then None else Some(Destutter(Values(samples))[1..])
  {
    var dest := samples;
    if dest == [] {
      return None;
    }
    var schedule := [];
    var lastDest := dest[0];
    dest := dest[1..];
    ghost var all := After(lastDest.value, Values(dest));
    assert all == Destutter(Values(samples))[1..] by {
      assert Values(samples) == [lastDest.value] + Values(dest);
    }
    while dest != []
      invariant schedule + After(lastDest.value, Values(dest)) == all
      decreases |dest|
    {
      while dest != [] && dest[0].value == lastDest.value
        invariant schedule + After(lastDest.value, Values(dest)) == all
        decreases |dest|
      {
        AfterFirst(lastDest.value, dest);
        dest := dest[1..];
      }
      if dest == [] {
        break;
      }
      AfterFirst(lastDest.value, dest);
      lastDest := dest[0];
      dest := dest[1..];
      schedule := schedule + [lastDest.value];
    }
    assert Values(dest) == [];
    NothingAfter(lastDest.value);
    assert schedule + [] == schedule;
    return Some(schedule);
  }

  /** The values of `dest` in the states 0..n of a run. */
  ghost function DestHistory(states: seq<State>, n: nat): (history: seq<int>)
    requires n < |states|
    ensures history != [] && history[|history| - 1] == states[n].robot.dest
  {
    if n == 0 then [states[0].robot.dest] else DestHistory(states, n - 1) + [states[n].robot.dest]
  }

  /** `dest` changes only when a station is chosen. */
  ghost predicate DestIsAssigned(run: Run) {
    && |run.states| == |run.labels| + 1
    && run.states[0].robot.dest == 1
    && forall i | 0 <= i < |run.labels| ::
         run.states[i + 1].robot.dest ==
         if run.labels[i].ChooseStation? then run.labels[i].to else run.states[i].robot.dest
  }

  lemma RunAssignsDest(cfg: Config, run: Run)
    requires IsRun(cfg, run)
    ensures DestIsAssigned(run)
  {
  }

  /** `dest` starts as station 1, the lower bound of its range, and then takes the chosen stations. */
  lemma {:induction false} DestHistoryIsChosen(run: Run, n: nat)
    requires DestIsAssigned(run) && n < |run.states|
    ensures GoesThrough(DestHistory(run.states, n), [1] + Chosen(run.labels, n))
    decreases n
  {
    if n == 0 {
      assert Chosen(run.labels, 0) == [];
    } else {
      var m, v := n - 1, run.states[n].robot.dest;
      DestHistoryIsChosen(run, m);
      var values, longer := [1] + Chosen(run.labels, m), [1] + Chosen(run.labels, n);
      assert run.states[m + 1].robot.dest == v;
      if run.labels[m].ChooseStation? {
        Associative([1], Chosen(run.labels, m), [v]);
      }
      assert Extends(longer, values, v);
      GoesOn(DestHistory(run.states, m), values, longer, v);
    }
  }

  ghost predicate Injective(cfg: Config, convert: int -> int) {
    forall a, b | cfg.IsStation(a) && cfg.IsStation(b) && convert(a) == convert(b) :: a == b
  }

  /** These are the samples of the converted `dest` up to state n of a run. */
  ghost predicate IsSampled(cfg: Config, run: Run, n: nat, samples: seq<Sample>, convert: int -> int) {
    && IsRun(cfg, run) && n < |run.states|
    && IsTraceOf(samples, Renamed(DestHistory(run.states, n), convert))
  }

  /** On the samples of any run, the schedule is the list of chosen stations in order (as waypoint
      ids), if and only if the first choice is not station 1, the value `dest` has from the start. */
  lemma ScheduleIsTheTour(cfg: Config, run: Run, n: nat, samples: seq<Sample>, convert: int -> int)
    requires IsSampled(cfg, run, n, samples, convert) && Injective(cfg, convert)
    ensures var chosen := Chosen(run.labels, n);
            && samples != []
            && (Destutter(Values(samples))[1..] == Renamed(chosen, convert)
                <==> chosen == [] || chosen[0] != 1)
            && (chosen != [] && chosen[0] == 1 ==>
                  Destutter(Values(samples))[1..] == Renamed(chosen[1..], convert))
  {
    var history, chosen := DestHistory(run.states, n), Chosen(run.labels, n);
    RunAssignsDest(cfg, run);
    DestHistoryIsChosen(run, n);
    HistoryInRange(cfg, run, n);
    RunIsOnTour(cfg, run, n);
    DestutterRenamed(history, convert);
    ReducedTour(cfg, chosen, convert);
  }

  lemma {:induction false} HistoryInRange(cfg: Config, run: Run, n: nat)
    requires IsRun(cfg, run) && n < |run.states|
    ensures forall v <- DestHistory(run.states, n) :: cfg.IsStation(v)
    decreases n
  {
    RunIsSafe(cfg, run, n);
    if n > 0 {
      HistoryInRange(cfg, run, n - 1);
    }
  }

  lemma ReducedTour(cfg: Config, chosen: seq<int>, convert: int -> int)
    requires GoodTour(cfg, chosen)
    ensures var schedule := Renamed(Destutter([1] + chosen), convert)[1..];
            if chosen != [] && chosen[0] == 1 then schedule == Renamed(chosen[1..], convert)
            else schedule == Renamed(chosen, convert)
  {
    var all := [1] + chosen;
    assert all[1..] == chosen;
    forall i | 0 <= i < |chosen| - 1
      ensures chosen[i] != chosen[i + 1]
    {
    }
    DestutterIdentity(chosen);
    if chosen == [] || chosen[0] != 1 {
      forall i | 0 <= i < |all| - 1
        ensures all[i] != all[i + 1]
      {
        if i > 0 {
          assert chosen[i - 1] != chosen[i - 1 + 1];
        }
      }
      DestutterIdentity(all);
    }
  }
}
