/** The station numbering of libconfig: end stations first, then stations, counted from 1, and the
    translation of these numbers into waypoint ids and into rows of the station distance matrix. */
module StationIndex {
  import opened Ranks
  import opened Sequences
  import F = StationFirstStop
  import P = StationSchedule
  import S = StationNetwork
  import T = StationTour

  datatype StationConfig = StationConfig(endStations: seq<int>, stations: seq<int>) {
    /** `combined_stations`. */
    function Combined(): seq<int> {
      endStations + stations
    }

    predicate IsIndex(id: int) {
      1 <= id <= |Combined()|
    }
  }

  /** `convert_to_waypoint_id`; -1 for an index out of range. */
  function ConvertToWaypointId(c: StationConfig, id: int): int {
    if c.IsIndex(id) then c.Combined()[id - 1] else -1
  }

  /** `std::find` on a vector: the first position of v, or the length. */
  function FindFirst(s: seq<int>, v: int): (p: nat)
    ensures p <= |s| && v !in s[..p]
    ensures if v in s then p < |s| && s[p] == v else p == |s|
  {
    if s == [] || s[0] == v then 0
    else
      var p := FindFirst(s[1..], v);
      assert s[..p + 1] == [s[0]] + s[1..][..p];
      p + 1
  }

  lemma {:induction false} FindsBack(s: seq<int>, i: nat)
    requires Distinct(s) && i < |s|
    ensures FindFirst(s, s[i]) == i
    decreases |s|
  {
    if i > 0 {
      FindsBack(s[1..], i - 1);
    }
  }

  /** `next_station`: the index of the configured waypoint id, 0 when it is no station. */
  function NextStation(c: StationConfig, waypoint: int): int {
    var p := FindFirst(c.Combined(), waypoint);
    if p < |c.Combined()| then p + 1 else 0
  }

  /** The two translations undo each other, for distinct ids. */
  lemma IndicesAndIds(c: StationConfig, id: int, waypoint: int)
    requires Distinct(c.Combined())
    ensures c.IsIndex(id) ==> NextStation(c, ConvertToWaypointId(c, id)) == id
    ensures !c.IsIndex(id) ==> ConvertToWaypointId(c, id) == -1
    ensures NextStation(c, waypoint) != 0 ==> ConvertToWaypointId(c, NextStation(c, waypoint)) == waypoint
    ensures NextStation(c, waypoint) == 0 <==> waypoint !in c.Combined()
  {
    var s := c.Combined();
    if c.IsIndex(id) {
      FindsBack(s, id - 1);
    }
  }

  /** Distinct stations are converted to distinct waypoint ids, as `ScheduleIsTheTour` asks. */
  lemma ConversionIsInjective(c: StationConfig, cfg: S.Config)
    requires Distinct(c.Combined()) && cfg.numStations == |c.Combined()|
    ensures P.Injective(cfg, id => ConvertToWaypointId(c, id))
  {
    forall a, b | cfg.IsStation(a) && cfg.IsStation(b) && ConvertToWaypointId(c, a) == ConvertToWaypointId(c, b)
      ensures a == b
    {
      IndicesAndIds(c, a, 0);
      IndicesAndIds(c, b, 0);
    }
  }

  /** `convert_visited_stations`: end stations count as unvisited, the others as visited unless they
      are still to be visited. */
  method ConvertVisitedStations(c: StationConfig, toVisit: seq<int>) returns (visited: seq<bool>)
    ensures |visited| == |c.Combined()|
    ensures forall i | 0 <= i < |visited| ::
              visited[i] <==> c.Combined()[i] !in c.endStations && c.Combined()[i] !in toVisit
  {
    var stations := c.Combined();
    visited := [];
    for i := 0 to |stations|
      invariant |visited| == i
      invariant forall k | 0 <= k < i :: visited[k] <==> stations[k] !in c.endStations && stations[k] !in toVisit
    {
      if stations[i] in c.endStations {
        visited := visited + [false];
      } else {
        visited := visited + [stations[i] !in toVisit];
      }
    }
  }

  /** The visited stations as `ConvertVisitedStations` gives them are the ones the model loads. */
  ghost predicate Configures(c: StationConfig, toVisit: seq<int>, visited: seq<bool>, cfg: S.Config) {
    && |visited| == |c.Combined()|
    && (forall i | 0 <= i < |visited| ::
          visited[i] <==> c.Combined()[i] !in c.endStations && c.Combined()[i] !in toVisit)
    && cfg.numStations == |c.Combined()| && cfg.numEndStations == |c.endStations|
    && (forall id :: id in cfg.visitedStations <==> c.IsIndex(id) && visited[id - 1])
  }

  /** The station model configured from these numbers always has an open end to its tour, as soon as
      there is an end station: the end stations are 1..numEndStations and none counts as visited. */
  lemma ConfiguredTourHasOpenEnd(c: StationConfig, toVisit: seq<int>, visited: seq<bool>, cfg: S.Config)
    requires Configures(c, toVisit, visited, cfg) && c.endStations != []
    ensures T.HasOpenEnd(cfg)
    ensures forall id :: id in T.Pending(cfg) <==>
              |c.endStations| < id <= |c.Combined()|
              && (c.Combined()[id - 1] in toVisit || c.Combined()[id - 1] in c.endStations)
  {
    forall id | c.IsIndex(id) && cfg.IsEndStation(id)
      ensures !visited[id - 1]
    {
      assert c.Combined()[id - 1] == c.endStations[id - 1];
    }
  }

  /** What keeps the configured tours from beginning at station 1: a station still to be visited
      when there are end stations, else that the first station is not to be visited. */
  ghost predicate FirstStopIsKnown(c: StationConfig, toVisit: seq<int>) {
    if c.endStations != [] then exists s <- c.stations :: s in toVisit
    else c.stations != [] && c.stations[0] !in toVisit
  }

  lemma FirstStopIsConfigured(c: StationConfig, toVisit: seq<int>, visited: seq<bool>, cfg: S.Config)
    requires Configures(c, toVisit, visited, cfg) && Distinct(c.Combined()) && cfg.Valid()
    ensures S.CanVisit(cfg, cfg.visitedStations, 1) <==> !FirstStopIsKnown(c, toVisit)
  {
    if c.endStations != [] {
      ConfiguredTourHasOpenEnd(c, toVisit, visited, cfg);
      F.BeginsAtOneWithNothingPending(cfg);
      SomethingIsPending(c, toVisit, visited, cfg);
    } else {
      assert c.Combined() == c.stations;
    }
  }

  lemma SomethingIsPending(c: StationConfig, toVisit: seq<int>, visited: seq<bool>, cfg: S.Config)
    requires Configures(c, toVisit, visited, cfg) && Distinct(c.Combined()) && c.endStations != []
    ensures T.Pending(cfg) != {} <==> exists s <- c.stations :: s in toVisit
  {
    ConfiguredTourHasOpenEnd(c, toVisit, visited, cfg);
    if s :| s in c.stations && s in toVisit {
      var i :| 0 <= i < |c.stations| && c.stations[i] == s;
      assert c.Combined()[|c.endStations| + i] == s;
      assert |c.endStations| + i + 1 in T.Pending(cfg);
    }
    if id :| id in T.Pending(cfg) {
      PendingIsToVisit(c, toVisit, visited, cfg, id);
    }
  }

  lemma PendingIsToVisit(c: StationConfig, toVisit: seq<int>, visited: seq<bool>, cfg: S.Config, id: int)
    requires Configures(c, toVisit, visited, cfg) && Distinct(c.Combined()) && c.endStations != []
    requires id in T.Pending(cfg)
    ensures c.Combined()[id - 1] in c.stations && c.Combined()[id - 1] in toVisit
  {
    var s := c.Combined();
    ConfiguredTourHasOpenEnd(c, toVisit, visited, cfg);
    assert s[id - 1] == c.stations[id - 1 - |c.endStations|];
    forall k | 0 <= k < |c.endStations|
      ensures c.endStations[k] != s[id - 1]
    {
      assert s[k] == c.endStations[k];
    }
  }

  /** In every run of the configured model the tour begins elsewhere than at station 1, and is
      reported right, if and only if the first stop is known so or the robot never gets to choose. */
  lemma ConfiguredToursBeginElsewhere(c: StationConfig, toVisit: seq<int>, visited: seq<bool>, cfg: S.Config)
    requires Configures(c, toVisit, visited, cfg) && Distinct(c.Combined())
    requires cfg.Valid() && T.NonnegativeTravel(cfg)
    ensures (forall run, n: nat | S.IsRun(cfg, run) && n < |run.states| :: F.BeginsElsewhere(run, n))
            <==> (|| FirstStopIsKnown(c, toVisit)
                  || forall run, n: nat | S.IsRun(cfg, run) && n < |run.states| ::
                       run.states[n].robot.loc != S.Choose)
  {
    FirstStopIsConfigured(c, toVisit, visited, cfg);
    F.EveryTourBeginsElsewhere(cfg);
  }

  /** `station_id_to_dist_index_conversion`: every id is replaced by its rank. */
  method DistIndexConversion(c: StationConfig) returns (conversion: seq<int>)
    ensures |conversion| == |c.Combined()|
    ensures forall i | 0 <= i < |conversion| :: conversion[i] == Rank(c.Combined(), c.Combined()[i])
  {
    var stations := c.Combined();
    var sortStations := Sort(stations);
    for i := 0 to |stations|
      invariant |stations| == |c.Combined()|
      invariant forall k | 0 <= k < i :: stations[k] == Rank(c.Combined(), c.Combined()[k])
      invariant forall k | i <= k < |stations| :: stations[k] == c.Combined()[k]
    {
      // The exception for a missing id cannot occur: the sorted copy holds every id.
      var it := FindFirst(sortStations, stations[i]);
      RankIsFirst(sortStations, stations[i], it);
      RankSorted(c.Combined(), stations[i]);
      stations := stations[i := it];
    }
    return stations;
  }

  ghost predicate IsConversion(c: StationConfig, conversion: seq<int>) {
    && |conversion| == |c.Combined()|
    && forall i | 0 <= i < |conversion| :: conversion[i] == Rank(c.Combined(), c.Combined()[i])
  }

  /** For distinct ids the conversion is a permutation of 0..n-1. */
  lemma ConversionIsPermutation(c: StationConfig, conversion: seq<int>)
    requires IsConversion(c, conversion) && Distinct(c.Combined())
    ensures forall i | 0 <= i < |conversion| :: 0 <= conversion[i] < |conversion|
    ensures forall i, j | 0 <= i < j < |conversion| :: conversion[i] != conversion[j]
    ensures forall k: nat | k < |conversion| :: k in conversion
  {
    var s := c.Combined();
    forall i | 0 <= i < |conversion|
      ensures 0 <= conversion[i] < |conversion|
    {
      RankBelow(s, s[i]);
    }
    forall i, j | 0 <= i < j < |conversion|
      ensures conversion[i] != conversion[j]
    {
      RanksDiffer(s, i, j);
    }
    forall k: nat | k < |conversion|
      ensures k in conversion
    {
      EveryRankOccurs(s, k);
      var i :| 0 <= i < |s| && Rank(s, s[i]) == k;
      assert conversion[i] == k;
    }
  }
}
