/** The queue both templates declare: an array `list` with `num_in_queue` robots at its front,
    shifted by one on every dequeue. It refines a sequence. */
module FifoArray {

  class FifoArray {
    const list: array<nat>  // MAX_QUEUE == MAX_ROBOTS slots, 0 where unused
    var numInQueue: nat

    ghost predicate Valid()
      reads this, list
    {
      && numInQueue <= list.Length
      && (forall i | numInQueue <= i < list.Length :: list[i] == 0)
    }

    ghost function Contents(): seq<nat>
      reads this, list
      requires Valid()
    {
      list[..numInQueue]
    }

    constructor (maxRobots: nat)
      ensures Valid() && fresh(list) && list.Length == maxRobots && Contents() == []
    {
      list := new nat[maxRobots](_ => 0);
      numInQueue := 0;
    }

    /** `enqueue`. */
    method Enqueue(element: nat)
      requires Valid() && numInQueue < list.Length
      modifies this, list
      ensures Valid() && Contents() == old(Contents()) + [element]
    {
      list[numInQueue] := element;
      numInQueue := numInQueue + 1;
    }

    /** `dequeue`. */
    method Dequeue()
      requires Valid() && numInQueue > 0
      modifies this, list
      ensures Valid() && Contents() == old(Contents())[1..]
    {
      var i := 0;
      numInQueue := numInQueue - 1;
      while i < numInQueue
        invariant 0 <= i <= numInQueue == old(numInQueue) - 1
        invariant forall k | 0 <= k < i :: list[k] == old(list[k + 1])
        invariant forall k | i <= k < list.Length :: list[k] == old(list[k])
      {
        list[i] := list[i + 1];
        i := i + 1;
      }
      list[i] := 0;
    }

    /** `front`. */
    function Front(): (robot: nat)
      reads this, list
      requires Valid() && numInQueue > 0
      ensures robot == Contents()[0]
    {
      list[0]
    }

    /** `tail`. */
    function Tail(): (robot: nat)
      reads this, list
      requires Valid() && numInQueue > 0
      ensures robot == Contents()[|Contents()| - 1]
    {
      list[numInQueue - 1]
    }
  }
}
