/**
 One-shot timers and the queue that holds them in execution order. Each scheduled timer knows
 its position in the queue. Times are in microseconds.
 */
module TimerQueues {

  // A callback of some client, or a null one.
  datatype Callback = Null | Cb(id: int)

  datatype Result = Ok | NullCallback

  // What stands for the timeout if nothing is scheduled: minus a millisecond.
  const NO_TIMEOUT: int := -1000

  // When a timer is due, and the number of its scheduling.
  datatype When = When(deadline: int, stamp: nat)

  // Earlier deadlines first, and those of the same deadline in the order of scheduling.
  predicate Before(a: When, b: When) {
    a.deadline < b.deadline || (a.deadline == b.deadline && a.stamp < b.stamp)
  }

  // An entry of the queue; the timer's position refers to it.
  class Node {
    const timer: Timer
    const deadline: int
    ghost const stamp: nat

    constructor (timer: Timer, deadline: int, ghost stamp: nat)
      ensures this.timer == timer && this.deadline == deadline && this.stamp == stamp
    {
      this.timer, this.deadline, this.stamp := timer, deadline, stamp;
    }

    ghost function AsWhen(): When {
      When(deadline, stamp)
    }
  }

  ghost predicate Ordered(a: Node, b: Node) {
    Before(a.AsWhen(), b.AsWhen())
  }

  ghost predicate InOrder(queue: seq<Node>) {
    forall i, j {:trigger Ordered(queue[i], queue[j])} :: 0 <= i < j < |queue| ==> Ordered(queue[i], queue[j])
  }

  lemma FirstBeforeOthers(queue: seq<Node>)
    requires InOrder(queue) && queue != []
    ensures forall n :: n in queue ==> n == queue[0] || Ordered(queue[0], n)
  {
    forall k | 0 < k < |queue| ensures Ordered(queue[0], queue[k]) {
    }
  }

  // Erasing entry k keeps the order and the other entries.
  lemma ErasedInOrder(queue: seq<Node>, k: nat, rest: seq<Node>)
    requires InOrder(queue) && k < |queue| && rest == queue[..k] + queue[k + 1..]
    ensures InOrder(rest) && queue[k] !in rest
    ensures forall n :: n in rest ==> n in queue
    ensures forall n :: n in queue && n != queue[k] ==> n in rest
    ensures queue[k] == queue[0] ==> rest == queue[1..]
  {
    forall i | 0 <= i < |rest| ensures rest[i] == queue[if i < k then i else i + 1] && rest[i] != queue[k] {
      assert if i < k then Ordered(queue[i], queue[k]) else Ordered(queue[k], queue[i + 1]);
    }
    forall i, j | 0 <= i < j < |rest| ensures Ordered(rest[i], rest[j]) {
      assert Ordered(queue[if i < k then i else i + 1], queue[if j < k then j else j + 1]);
    }
    assert queue == queue[..k] + [queue[k]] + queue[k + 1..];
    assert k > 0 ==> Ordered(queue[0], queue[k]);
  }

  // queue.erase(node)
  method Without(queue: seq<Node>, node: Node) returns (rest: seq<Node>)
    requires InOrder(queue) && node in queue
    ensures InOrder(rest) && node !in rest && |rest| == |queue| - 1
    ensures forall n :: n in rest ==> n in queue
    ensures forall n :: n in queue && n != node ==> n in rest
    ensures node == queue[0] ==> rest == queue[1..]
  {
    var k :| 0 <= k < |queue| && queue[k] == node;
    rest := queue[..k] + queue[k + 1..];
    ErasedInOrder(queue, k, rest);
  }

  lemma InsertedInOrder(queue: seq<Node>, i: nat, node: Node)
    requires InOrder(queue) && i <= |queue|
    requires forall k :: 0 <= k < i ==> Ordered(queue[k], node)
    requires i < |queue| ==> Ordered(node, queue[i])
    ensures InOrder(queue[..i] + [node] + queue[i..])
  {
    var r := queue[..i] + [node] + queue[i..];
    forall j, k | 0 <= j < k < |r| ensures Ordered(r[j], r[k]) {
      if k > i && j <= i < |queue| {
        assert k == i + 1 || Ordered(queue[i], queue[k - 1]);
        assert r[k] == queue[k - 1];
      }
    }
  }

  // queue.insert(node), which puts it behind the entries with the same key.
  method Insert(queue: seq<Node>, node: Node) returns (r: seq<Node>)
    requires InOrder(queue) && forall n :: n in queue ==> n.stamp < node.stamp
    ensures InOrder(r) && forall n :: n in r <==> n in queue || n == node
    ensures |r| == |queue| + 1
  {
    var i := 0;
    while i < |queue| && queue[i].deadline <= node.deadline
      invariant 0 <= i <= |queue|
      invariant forall k :: 0 <= k < i ==> Ordered(queue[k], node)
    {
      assert queue[i] in queue;
      i := i + 1;
    }
    InsertedInOrder(queue, i, node);
    assert queue == queue[..i] + queue[i..];
    r := queue[..i] + [node] + queue[i..];
  }

  class TimerQueue {
    var queue: seq<Node>
    // The timers of this queue.
    ghost var timers: set<Timer>
    ghost var nextStamp: nat
    // What is scheduled and when, without the representation as a queue.
    ghost var scheduled: map<Timer, When>

    // The timer of an entry refers to it.
    ghost predicate Linked(n: Node)
      reads this`timers, this`nextStamp, n.timer`position
    {
      n.timer in timers && n.timer.position == n && n.stamp < nextStamp
    }

    // The entry of a scheduled timer refers to it, and it has a callback.
    ghost predicate Placed(t: Timer)
      reads this`scheduled, this`queue, t
    {
      && t.tq == this && (t.IsScheduled() <==> t in scheduled)
      && (t in scheduled ==> t.position != null && t.position in queue && t.position.timer == t && t.cb.Cb?)
      && (t in scheduled ==> scheduled[t] == t.position.AsWhen())
    }

    // Entries and scheduled timers refer to each other, one to one.
    ghost predicate Valid()
      reads this, timers
    {
      && InOrder(queue) && scheduled.Keys <= timers
      && (forall n {:trigger Linked(n)} :: n in queue ==> n.timer in timers && Linked(n))
      && (forall t {:trigger Placed(t)} :: t in timers ==> Placed(t))
    }

    constructor ()
      ensures Valid() && scheduled == map[] && timers == {} && queue == [] && nextStamp == 0
    {
      queue, timers, nextStamp, scheduled := [], {}, 0, map[];
    }

    // The deadline of the first timer.
    ghost function First(): int
      requires queue != []
      reads this
    {
      queue[0].deadline
    }

    lemma FirstIsEarliest()
      requires Valid() && queue != []
      ensures exists t :: t in scheduled && scheduled[t].deadline == First()
      ensures forall t :: t in scheduled ==> First() <= scheduled[t].deadline
    {
      assert Linked(queue[0]) && Placed(queue[0].timer);
      FirstBeforeOthers(queue);
      forall t | t in scheduled ensures First() <= scheduled[t].deadline {
        assert Placed(t);
      }
    }

    // Removes and returns the timer that is due first.
    method PopFirstTimerToExecute() returns (timer: Timer?)
      requires Valid()
      modifies this, timers
      ensures Valid() && timers == old(timers) && nextStamp == old(nextStamp)
      ensures forall t :: t in timers ==> t.cb == old(t.cb)
      ensures timer == null <==> old(scheduled) == map[]
      ensures timer == null ==> scheduled == map[]
      ensures timer == null ==> queue == old(queue) == []
      ensures timer != null ==>
        && timer in old(scheduled) && scheduled == old(scheduled) - {timer} && timer.cb.Cb?
        && forall t :: t in scheduled ==> Before(old(scheduled)[timer], scheduled[t])
      ensures timer != null ==> old(queue) != [] && timer == old(queue)[0].timer
      ensures timer != null ==> queue == old(queue)[1..] && old(scheduled)[timer].deadline == old(First())
    {
      timer := null;
      if queue != [] {
        FirstBeforeOthers(queue);
        var i := queue[0];
        timer := i.timer;
        assert Linked(i) && Placed(timer);
        assert forall t :: t in scheduled ==> Placed(t);
        Erase(i);
      } else {
        assert forall t :: t in scheduled ==> Placed(t);
      }
    }

    // The time until the first timer is due.
    method GetTimeout(clock: int) returns (timeout: int)
      requires Valid()
      ensures timeout == if queue == [] then NO_TIMEOUT else if First() < clock then 0 else First() - clock
    {
      if queue == [] {
        timeout := NO_TIMEOUT;
      } else {
        timeout := queue[0].deadline - clock;
        if timeout < 0 {
          timeout := 0;
        }
      }
    }

    method Schedule(timer: Timer, clock: int, timeout: int)
      requires Valid() && timer in timers && timer.cb.Cb?
      modifies this, timer
      ensures Valid() && timers == old(timers)
      ensures timer.cb == old(timer.cb)
      ensures nextStamp == old(nextStamp) + 1
      ensures scheduled == old(scheduled)[timer := When(clock + timeout, old(nextStamp))]
      ensures |queue| == |old(queue)| + if timer in old(scheduled) then 0 else 1
    {
      Cancel(timer);
      Enqueue(timer, clock + timeout);
    }

    method Enqueue(timer: Timer, tte: int)
      requires Valid() && timer in timers && timer.cb.Cb? && !timer.IsScheduled()
      modifies this, timer
      ensures Valid() && timers == old(timers)
      ensures timer.cb == old(timer.cb)
      ensures nextStamp == old(nextStamp) + 1
      ensures scheduled == old(scheduled)[timer := When(tte, old(nextStamp))] && |queue| == |old(queue)| + 1
    {
      var node := new Node(timer, tte, nextStamp);
      assert Placed(timer) && forall n :: n in queue ==> Linked(n);
      assert forall t :: t in timers ==> Placed(t);
      queue := Insert(queue, node);
      timer.position := node;
      scheduled := scheduled[timer := When(tte, nextStamp)];
      nextStamp := nextStamp + 1;
      forall n | n in queue ensures n.timer in timers && Linked(n) {
        assert n == node || old(Linked(n));
      }
      forall t | t in timers ensures Placed(t) {
        assert old(Placed(t));
      }
    }

    method Cancel(timer: Timer)
      requires Valid() && timer in timers
      modifies this, timer
      ensures Valid() && timers == old(timers) && nextStamp == old(nextStamp)
      ensures timer.cb == old(timer.cb) && !timer.IsScheduled()
      ensures scheduled == old(scheduled) - {timer}
      ensures |queue| == |old(queue)| - if timer in old(scheduled) then 1 else 0
    {
      assert Placed(timer);
      if timer.position != null {
        Erase(timer.position);
      }
    }

    method Erase(i: Node)
      requires Valid() && i in queue
      modifies this`queue, this`scheduled, i.timer`position
      ensures Valid() && i.timer.position == null
      ensures scheduled == old(scheduled) - {i.timer} && |queue| == |old(queue)| - 1
      ensures i == old(queue)[0] ==> queue == old(queue)[1..]
    {
      assert Linked(i);
      i.timer.position := null;
      queue := Without(queue, i);
      scheduled := scheduled - {i.timer};
      forall n | n in queue ensures n.timer in timers && Linked(n) {
        assert old(Linked(n));
      }
      forall t | t in timers ensures Placed(t) {
        assert old(Placed(t));
      }
    }
  }

  class Timer {
    const tq: TimerQueue
    // null stands for the end of the queue.
    var position: Node?
    var cb: Callback

    constructor (tq: TimerQueue)
      requires tq.Valid()
      modifies tq`timers
      ensures tq.Valid() && this.tq == tq && tq.timers == old(tq.timers) + {this}
      ensures tq.scheduled == old(tq.scheduled) && !IsScheduled() && cb == Null
    {
      this.tq, position, cb := tq, null, Null;
      new;
      tq.timers := tq.timers + {this};
      forall t | t in tq.timers ensures tq.Placed(t) {
        assert t != this ==> old(tq.Placed(t));
      }
      forall n | n in tq.queue ensures tq.Linked(n) {
        assert old(tq.Linked(n));
      }
    }

    predicate IsScheduled()
      reads this
    {
      position != null
    }

    method Schedule(clock: int, timeout: int, cb: Callback) returns (r: Result)
      requires tq.Valid() && this in tq.timers
      modifies this, tq
      ensures tq.Valid() && tq.timers == old(tq.timers)
      ensures r == if cb.Null? then NullCallback else Ok
      ensures r.NullCallback? ==> tq.scheduled == old(tq.scheduled) && this.cb == old(this.cb)
      ensures r.NullCallback? ==> tq.queue == old(tq.queue) && tq.nextStamp == old(tq.nextStamp)
      ensures r.Ok? ==>
        && tq.scheduled == old(tq.scheduled)[this := When(clock + timeout, old(tq.nextStamp))]
        && tq.nextStamp == old(tq.nextStamp) + 1 && this.cb == cb
        && |tq.queue| == |old(tq.queue)| + if this in old(tq.scheduled) then 0 else 1
    {
      if cb.Null? {
        return NullCallback;
      }
      assert tq.Placed(this);
      this.cb := cb;
      forall t | t in tq.timers ensures tq.Placed(t) {
        assert old(tq.Placed(t));
      }
      forall n | n in tq.queue ensures tq.Linked(n) {
        assert old(tq.Linked(n));
      }
      tq.Schedule(this, clock, timeout);
      return Ok;
    }

    method Cancel()
      requires tq.Valid() && this in tq.timers
      modifies this, tq
      ensures tq.Valid() && tq.timers == old(tq.timers) && tq.nextStamp == old(tq.nextStamp)
      ensures tq.scheduled == old(tq.scheduled) - {this} && cb == Null
      ensures |tq.queue| == |old(tq.queue)| - if this in old(tq.scheduled) then 1 else 0
    {
      assert tq.Placed(this);
      tq.Cancel(this);
      label Cancelled:
      assert tq.Placed(this);
      cb := Null;
      forall t | t in tq.timers ensures tq.Placed(t) {
        assert old@Cancelled(tq.Placed(t));
      }
      forall n | n in tq.queue ensures tq.Linked(n) {
        assert old@Cancelled(tq.Linked(n));
      }
    }

    // Takes the callback out, before it is called.
    method Execute() returns (copy: Callback)
      requires tq.Valid() && this in tq.timers && !IsScheduled()
      modifies this`cb
      ensures tq.Valid() && tq.scheduled == old(tq.scheduled)
      ensures copy == old(cb) && cb == Null
    {
      assert tq.Placed(this);
      copy := cb;
      cb := Null;
      forall t | t in tq.timers ensures tq.Placed(t) {
        assert old(tq.Placed(t));
      }
      forall n | n in tq.queue ensures tq.Linked(n) {
        assert old(tq.Linked(n));
      }
    }
  }

  // All of these timers, in ascending order of deadlines, and in the order of scheduling where
  // deadlines are the same.
  ghost predicate InExecutionOrder(timers: seq<Timer>, all: map<Timer, When>) {
    && (forall t :: t in timers ==> t in all)
    && (forall t :: t in all ==> t in timers)
    && (forall i, j :: 0 <= i < j < |timers| ==> Before(all[timers[i]], all[timers[j]]))
  }

  lemma FirstInOrder(timer: Timer, rest: seq<Timer>, left: map<Timer, When>, all: map<Timer, When>)
    requires timer in all && left == all - {timer} && InExecutionOrder(rest, left)
    requires forall t :: t in left ==> Before(all[timer], left[t])
    ensures InExecutionOrder([timer] + rest, all)
  {
    var timers := [timer] + rest;
    assert forall t :: t in timers <==> t == timer || t in rest;
    assert forall i :: 0 < i < |timers| ==> timers[i] == rest[i - 1] && rest[i - 1] in left;
  }

  // Popping until the queue is empty gives every scheduled timer once and in order.
  method PopAll(tq: TimerQueue) returns (popped: seq<Timer>)
    requires tq.Valid()
    modifies tq, tq.timers
    decreases tq.scheduled.Keys
    ensures tq.Valid() && tq.scheduled == map[] && InExecutionOrder(popped, old(tq.scheduled))
  {
    ghost var all := tq.scheduled;
    var timer := tq.PopFirstTimerToExecute();
    if timer == null {
      return [];
    }
    ghost var left := tq.scheduled;
    var rest := PopAll(tq);
    FirstInOrder(timer, rest, left, all);
    popped := [timer] + rest;
  }
}
