/** The templates Station and Robot of station_scheduling.xml as they are programmed: the queue
    array, and the loops over the `visited` array that decide where the robot may go. */
module StationProcess {
  import opened FifoArray
  import S = StationNetwork

  class StationProcess {
    const fifo: FifoArray
    var proc: real
    var loc: S.StationLocation

    ghost predicate Valid()
      reads this, fifo, fifo.list
    {
      fifo.Valid()
    }

    /** The process as the network sees it. */
    ghost function View(): S.Station
      reads this, fifo, fifo.list
      requires Valid()
    {
      S.Station(loc, proc, fifo.Contents())
    }

    constructor (maxRobots: nat)
      ensures Valid() && fresh(fifo) && fresh(fifo.list) && fifo.list.Length == maxRobots
      ensures View() == S.Station(S.StationStart, 0.0, [])
    {
      fifo := new FifoArray(maxRobots);
      proc, loc := 0.0, S.StationStart;
    }

    /** The edge that receives `arr[station_id][robot]?`, which only Idle has. */
    method ReceiveArrival(robot: nat)
      requires Valid() && |View().queue| < fifo.list.Length
      modifies this, fifo, fifo.list
      ensures Valid() && View() == S.Arrival(old(View()), robot)
    {
      if loc == S.Idle {
        fifo.Enqueue(robot);
        if fifo.numInQueue == 1 {
          proc := 0.0;
        }
      }
    }

    /** The two edges that leave CDeQ; `done[front()]!` is sent to the robot that is first in line. */
    method LeaveCDeQ() returns (sent: bool, robot: nat)
      requires Valid() && loc == S.CDeQ
      modifies this, fifo, fifo.list
      ensures Valid() && loc == S.Idle && proc == old(proc)
      ensures sent <==> old(View()).queue != []
      ensures if sent then [robot] + View().queue == old(View()).queue else View().queue == []
    {
      sent, robot := fifo.numInQueue > 0, 0;
      if sent {
        robot := fifo.Front();
        fifo.Dequeue();
      }
      loc := S.Idle;
    }
  }

  class RobotProcess {
    const cfg: S.Config
    const visited: array<bool>  // slots 1..NUM_STATIONS are used

    ghost predicate Valid()
      reads this, visited
    {
      visited.Length == cfg.numStations + 1
    }

    ghost function Visited(): set<int>
      reads this, visited
      requires Valid()
    {
      set id | 1 <= id <= cfg.numStations && visited[id]
    }

    constructor (cfg: S.Config)
      ensures Valid() && fresh(visited) && this.cfg == cfg && Visited() == {}
    {
      this.cfg := cfg;
      visited := new bool[cfg.numStations + 1](_ => false);
    }

    /** `all_nonend()`. */
    method AllNonEnd() returns (all: bool)
      requires Valid()
      ensures all <==> S.AllNonEnd(cfg, Visited())
    {
      for id := 1 to cfg.numStations + 1
        invariant forall k | 1 <= k < id && !cfg.IsEndStation(k) :: k in Visited()
      {
        if !cfg.IsEndStation(id) && !visited[id] {
          return false;
        }
      }
      return true;
    }

    /** `endstation_visited()`. */
    method EndStationVisited() returns (some: bool)
      requires Valid()
      ensures some <==> S.EndStationVisited(cfg, Visited())
    {
      for id := 1 to cfg.numStations + 1
        invariant forall k | 1 <= k < id && cfg.IsEndStation(k) :: k !in Visited()
      {
        if cfg.IsEndStation(id) && visited[id] {
          assert id in Visited();
          return true;
        }
      }
      return false;
    }

    /** `can_visit(id)`. */
    method CanVisit(id: int) returns (can: bool)
      requires Valid() && cfg.IsStation(id)
      ensures can <==> S.CanVisit(cfg, Visited(), id)
    {
      var ended := EndStationVisited();
      if ended {
        return false;
      }
      if cfg.IsEndStation(id) {
        var all := AllNonEnd();
        return !visited[id] && all;
      }
      return !visited[id];
    }

    /** The assignment `visited[cur_loc] = true` of the edge that receives `done[CUR_ROBOT]?`. */
    method MarkVisited(curLoc: int)
      requires Valid() && cfg.IsStation(curLoc)
      modifies visited
      ensures Valid() && Visited() == old(Visited()) + {curLoc}
    {
      visited[curLoc] := true;
    }
  }
}
