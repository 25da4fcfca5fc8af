/** The template Waypoint as it is programmed. Its edges have exactly the effect of the queue
    operations of the network. */
module WaypointProcess {
  import opened FifoArray
  import W = WaypointNetwork

  class WaypointProcess {
    const id: int
    const fifo: FifoArray
    var x: real
    var loc: W.QueueLocation

    ghost predicate Valid()
      reads this, fifo, fifo.list
    {
      fifo.Valid()
    }

    /** The process as the network sees it. */
    ghost function View(): W.Waypoint
      reads this, fifo, fifo.list
      requires Valid()
    {
      W.Waypoint(loc, x, fifo.Contents())
    }

    constructor (id: int, maxRobots: nat)
      ensures Valid() && fresh(fifo) && fresh(fifo.list)
      ensures fifo.list.Length == maxRobots && this.id == id
      ensures View() == W.Waypoint(W.Idle, 0.0, [])
    {
      this.id := id;
      fifo := new FifoArray(maxRobots);
      x, loc := 0.0, W.Idle;
    }

    /** `passing_time()`. */
    method PassingTime(cfg: W.Config, stationWaypoint: seq<int>) returns (time: int)
      ensures time == if id in stationWaypoint then cfg.stationPassing else cfg.waypointPassing
    {
      for station := 0 to |stationWaypoint|
        invariant id !in stationWaypoint[..station]
      {
        if stationWaypoint[station] == id {
          return cfg.stationPassing;
        }
      }
      return cfg.waypointPassing;
    }

    /** The edges that receive `queue[id][robot]?`. A run never fills the array. */
    method ReceiveQueue(robot: nat)
      requires Valid() && |View().queue| < fifo.list.Length
      modifies this, fifo, fifo.list
      ensures Valid() && View() == W.Join(old(View()), robot)
    {
      fifo.Enqueue(robot);
      if loc == W.Idle {
        x := 0.0;
        loc := W.Queued;
      }
    }

    /** The edges that send `go[front()]!`, if one of them is enabled. */
    method SendGo(cfg: W.Config, stationWaypoint: seq<int>) returns (sent: bool, robot: nat)
      requires Valid()
      modifies this, fifo, fifo.list
      ensures Valid()
      ensures sent <==> W.CanLeave(old(View()), cfg.PassingTime(stationWaypoint, id))
      ensures sent <==> old(loc == W.Queued && fifo.numInQueue > 0)
                        && old(x) >= (if id in stationWaypoint then cfg.stationPassing else cfg.waypointPassing) as real
      ensures if sent then robot == old(View()).queue[0] && View() == W.Leave(old(View()))
              else View() == old(View())
    {
      robot := 0;
      var passingTime := PassingTime(cfg, stationWaypoint);
      sent := loc == W.Queued && fifo.numInQueue >= 1 && x >= passingTime as real;
      if sent {
        robot := fifo.Front();
        loc := if fifo.numInQueue > 1 then W.Queued else W.Idle;
        fifo.Dequeue();
        x := 0.0;
      }
    }
  }
}
