/**
 The queue of callbacks to execute, as one thread sees it; module WakeUp has the others.
 */
module CallbackQueues {
  import opened TimerQueues

  class CallbackQueue {
    var queue: seq<Callback>
    // Whether there is a function that wakes up the runner.
    var hasWakeUp: bool
    // All callbacks added so far, those taken out, and how often that function was called.
    ghost var added: seq<Callback>
    ghost var popped: seq<Callback>
    ghost var wakeUps: nat

    ghost predicate Valid()
      reads this
    {
      Null !in queue && popped + queue == added
    }

    constructor ()
      ensures Valid() && queue == added == popped == [] && !hasWakeUp
    {
      queue, hasWakeUp, added, popped, wakeUps := [], false, [], [], 0;
    }

    method SetWakeUp(hasWakeUp: bool)
      requires Valid()
      modifies this`hasWakeUp
      ensures Valid() && this.hasWakeUp == hasWakeUp
    {
      this.hasWakeUp := hasWakeUp;
    }

    method Add(cb: Callback) returns (r: Result)
      requires Valid()
      modifies this
      ensures Valid() && popped == old(popped) && hasWakeUp == old(hasWakeUp)
      ensures r == if cb.Null? then NullCallback else Ok
      ensures queue == if cb.Null? then old(queue) else old(queue) + [cb]
      ensures added == if cb.Null? then old(added) else old(added) + [cb]
      // The runner is woken up for the first callback only.
      ensures wakeUps == old(wakeUps) + if cb.Cb? && old(queue) == [] && hasWakeUp then 1 else 0
    {
      if cb.Null? {
        return NullCallback;
      }
      queue, added := queue + [cb], added + [cb];
      if |queue| == 1 && hasWakeUp {
        wakeUps := wakeUps + 1;
      }
      return Ok;
    }

    // The first callback, or none.
    method Pop() returns (cb: Callback)
      requires Valid()
      modifies this
      ensures Valid() && (cb.Null? <==> old(queue) == [])
      ensures added == old(added) && popped == old(popped) + if cb.Null? then [] else [cb]
      ensures hasWakeUp == old(hasWakeUp) && wakeUps == old(wakeUps)
      ensures old(queue) == if cb.Null? then queue else [cb] + queue
    {
      cb := Null;
      if queue != [] {
        cb := queue[0];
        queue, popped := queue[1..], popped + [cb];
      }
    }
  }
}
