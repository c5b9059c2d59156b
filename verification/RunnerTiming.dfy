/**
 How the two runners execute timers and callbacks, and when. Times are in microseconds; the
 clock the runners read stands still between milliseconds.
 */
module RunnerTiming {
  import opened TimerQueues
  import opened CallbackQueues

  const MIN_TIMEOUT: int := 1000
  const INT_LIMIT: int := 0x8000_0000

  // The longest timeout with a number of milliseconds that becomes itself or a negative one.
  const MAX_TIMEOUT: int := 2 * INT_LIMIT * 1000 - 1

  // static_cast<int>
  function ToInt(n: int): (r: int)
    ensures -INT_LIMIT <= r < INT_LIMIT
  {
    (n + INT_LIMIT) % (2 * INT_LIMIT) - INT_LIMIT
  }

  // timeout.total_milliseconds(), which truncates.
  function Milliseconds(timeout: int): int {
    if timeout >= 0 then timeout / 1000 else -(-timeout / 1000)
  }

  // epoll_wait() may time out after having waited for that long.
  predicate MayTimeOut(ms: int, waited: int) {
    ms >= 0 && waited >= 1000 * ms
  }

  // A wait for a timer that times out has lasted until less than a millisecond before its
  // deadline, whatever the kernel does, if and only if the number of milliseconds fits an int
  // or becomes a negative one.
  lemma WaitsLongEnough(timeout: int)
    requires timeout >= MIN_TIMEOUT
    ensures (forall waited :: MayTimeOut(ToInt(Milliseconds(timeout)), waited) ==> waited > timeout - MIN_TIMEOUT)
      <==> Milliseconds(timeout) < INT_LIMIT || ToInt(Milliseconds(timeout)) < 0
  {
    var ms := ToInt(Milliseconds(timeout));
    if Milliseconds(timeout) >= INT_LIMIT && ms >= 0 {
      assert MayTimeOut(ms, 1000 * ms);
    }
  }

  // The other way round, a wait for a timer that has lasted until its deadline has timed out,
  // whatever the kernel does, if and only if that number does not become a negative one.
  lemma WaitsNotTooLong(timeout: int)
    requires timeout >= MIN_TIMEOUT
    ensures (forall waited :: waited >= timeout ==> MayTimeOut(ToInt(Milliseconds(timeout)), waited))
      <==> ToInt(Milliseconds(timeout)) >= 0
    ensures Milliseconds(timeout) < INT_LIMIT ==> ToInt(Milliseconds(timeout)) >= 0
  {
    var ms := ToInt(Milliseconds(timeout));
    assert ms <= Milliseconds(timeout);
    if ms < 0 {
      assert !MayTimeOut(ms, timeout);
    }
  }

  // 2^31 milliseconds become a negative number, and the wait for the timer has no end.
  lemma LongTimeoutWaitsForEver(waited: int)
    ensures !MayTimeOut(ToInt(Milliseconds(0x8000_0000 * 1000)), waited)
  {
    assert ToInt(0x8000_0000) == -INT_LIMIT;
  }

  // 2^32 milliseconds become none, and the timer is executed at once.
  lemma TooLongTimeoutIsEarly()
    ensures var timeout := 0x1_0000_0000 * 1000; MayTimeOut(ToInt(Milliseconds(timeout)), 0) && timeout > MIN_TIMEOUT
  {
    assert ToInt(0x1_0000_0000) == 0;
  }

  method EpollWait(timeout: int) returns (timedOut: bool, waited: nat)
    requires timeout == NO_TIMEOUT || MIN_TIMEOUT <= timeout <= MAX_TIMEOUT
    ensures timedOut ==> timeout != NO_TIMEOUT && waited > timeout - MIN_TIMEOUT
    ensures timeout != NO_TIMEOUT && Milliseconds(timeout) < INT_LIMIT && waited >= timeout ==> timedOut
  {
    waited :| waited >= 0;
    timedOut := MayTimeOut(ToInt(Milliseconds(timeout)), waited);
    if timeout != NO_TIMEOUT {
      WaitsLongEnough(timeout);
      WaitsNotTooLong(timeout);
    }
  }

  datatype Action = Schedule(timer: nat, timeout: int, cb: Callback) | Cancel(timer: nat) | AddCallback(cb: Callback)

  // A timer that was executed: its callback, the time it was asked to be executed at, the
  // deadline it had in the queue, and when it was executed.
  datatype Fired = Fired(cb: Callback, requested: int, deadline: int, at: int)

  ghost predicate OnTime(f: Fired) {
    f.at > f.deadline - 1000 && f.at > f.requested - 2000
  }

  // No timeout is longer than that.
  ghost predicate Fits(actions: seq<Action>) {
    forall a :: a in actions && a.Schedule? ==> a.timeout <= MAX_TIMEOUT
  }

  ghost function Flat(script: seq<seq<Action>>, n: int): (actions: seq<Action>)
    requires n <= |script|
  {
    if n <= 0 then [] else Flat(script, n - 1) + script[n - 1]
  }

  function Least(a: int, b: int): int {
    if a < b then a else b
  }

  // After so many calls, the callbacks have done what the script says, call by call.
  ghost predicate Played(plan: seq<seq<Action>>, calls: nat, script: seq<seq<Action>>, done: seq<Action>) {
    var n := Least(calls, |plan|);
    && |script| == |plan| - n && (forall k :: 0 <= k < |script| ==> script[k] == plan[n + k])
    && done == Flat(plan, n)
  }

  lemma PlaysOneMore(plan: seq<seq<Action>>, calls: nat, script: seq<seq<Action>>, done: seq<Action>)
    requires Played(plan, calls, script, done)
    ensures script == [] ==> Played(plan, calls + 1, [], done)
    ensures script != [] ==> Played(plan, calls + 1, script[1..], done + script[0])
  {
  }

  // Whether one of so many timers is scheduled.
  ghost predicate Schedules(action: Action, timers: nat) {
    action.Schedule? && action.timer < timers && action.cb.Cb?
  }

  ghost function Added(action: Action): seq<Callback> {
    if action.AddCallback? && action.cb.Cb? then [action.cb] else []
  }

  // How often the first n actions schedule a timer, and the callbacks that they add.
  ghost function Schedulings(done: seq<Action>, n: nat, timers: nat): nat
    requires n <= |done|
  {
    if n == 0 then 0 else Schedulings(done, n - 1, timers) + if Schedules(done[n - 1], timers) then 1 else 0
  }

  ghost function Additions(done: seq<Action>, n: nat): seq<Callback>
    requires n <= |done|
  {
    if n == 0 then [] else Additions(done, n - 1) + Added(done[n - 1])
  }

  lemma {:induction false} SameFront(done: seq<Action>, n: nat, timers: nat, action: Action)
    requires n <= |done|
    ensures Schedulings(done + [action], n, timers) == Schedulings(done, n, timers)
    ensures Additions(done + [action], n) == Additions(done, n)
  {
    if n > 0 {
      SameFront(done, n - 1, timers, action);
    }
  }

  // All of them, and no more endings than actions.
  ghost predicate Accounted(done: seq<Action>, timers: nat, scheduled: nat, added: seq<Callback>, ended: nat) {
    Schedulings(done, |done|, timers) == scheduled && Additions(done, |done|) == added && ended <= |done|
  }

  lemma AccountedOneMore(done: seq<Action>, action: Action, timers: nat, scheduled: nat, added: seq<Callback>,
                         ended: nat)
    requires Accounted(done, timers, scheduled, added, ended)
    ensures var n, more := scheduled + (if Schedules(action, timers) then 1 else 0), added + Added(action);
      Accounted(done + [action], timers, n, more, ended) && Accounted(done + [action], timers, n, more, ended + 1)
  {
    SameFront(done, |done|, timers, action);
  }

  // Deadlines are less than a millisecond before the time asked for.
  ghost predicate Remembered(requested: map<Timer, int>, scheduled: map<Timer, When>) {
    forall t :: t in scheduled ==> t in requested && requested[t] < scheduled[t].deadline + 1000
  }

  ghost predicate AllOnTime(fired: seq<Fired>) {
    forall f :: f in fired ==> OnTime(f)
  }

  ghost predicate Near(scheduled: map<Timer, When>, limit: int) {
    forall t :: t in scheduled ==> scheduled[t].deadline <= limit
  }

  // Both hold if one more timer is scheduled, or one less.
  lemma OneMoreScheduled(requested: map<Timer, int>, scheduled: map<Timer, When>, timer: Timer, time: int, when: When,
                         limit: int)
    requires Remembered(requested, scheduled) && time < when.deadline + 1000
    ensures Remembered(requested[timer := time], scheduled[timer := when])
    ensures Near(scheduled, limit) && when.deadline <= limit ==> Near(scheduled[timer := when], limit)
  {
  }

  lemma OneLessScheduled(requested: map<Timer, int>, scheduled: map<Timer, When>, timer: Timer, limit: int)
    requires Remembered(requested, scheduled)
    ensures Remembered(requested, scheduled - {timer})
    ensures Near(scheduled, limit) ==> Near(scheduled - {timer}, limit)
  {
  }

  datatype Setting = Disarmed | Armed(seconds: int, nanoseconds: int)

  // The callbacks popped so far: those executed, and the next one.
  ghost predicate PoppedSoFar(popped: seq<Callback>, before: seq<Callback>, done: seq<Callback>, cb: Callback) {
    popped == before + done + if cb.Cb? then [cb] else []
  }

  lemma PopsOneMore(popped: seq<Callback>, before: seq<Callback>, done: seq<Callback>, cb: Callback, next: Callback,
                    called: seq<Callback>)
    requires PoppedSoFar(popped, before, done, cb) && cb.Cb?
    ensures PoppedSoFar(popped + if next.Cb? then [next] else [], before, done + [cb], next)
    ensures called + done + [cb] == called + (done + [cb])
  {
    assert before + done + [cb] == before + (done + [cb]);
  }

  class Runner {
    const tq: TimerQueue
    const cbq: CallbackQueue
    // The clients' timers.
    const timers: seq<Timer>
    // Whether this is an AsyncRunner.
    const async: bool
    // What the callbacks to come do; when it is used up they do nothing.
    var script: seq<seq<Action>>
    var timerFD: Setting
    var now: int
    ghost var requested: map<Timer, int>
    ghost var fired: seq<Fired>
    // The callbacks called so far, of timers and from the queue.
    ghost var called: seq<Callback>
    // What the script was in the beginning, and what the callbacks have done so far.
    ghost const plan: seq<seq<Action>>
    ghost var done: seq<Action>
    // How often a client has cancelled a scheduled timer or scheduled it again.
    ghost var ended: nat

    // The calls that were neither of a timer's callback nor of one from the queue.
    ghost function Others(): int
      reads this`called, this`fired, cbq
    {
      |called| - |fired| - |cbq.popped|
    }

    // Between calls, the callbacks called have done what they were to do.
    ghost predicate Valid()
      reads this`requested, this`fired, this`called, this`script, this`done, this`ended, tq, cbq, tq.timers
    {
      Sound() && Played(plan, |called|, script, done)
    }

    // What the callbacks have done so far accounts for all timers and callbacks.
    ghost predicate Sound()
      reads this`requested, this`fired, this`done, this`ended, tq, cbq, tq.timers
    {
      Timely() && Accounted(done, |timers|, tq.nextStamp, cbq.added, ended)
    }

    ghost predicate Timely()
      reads this`requested, this`fired, this`ended, tq, cbq, tq.timers
    {
      && tq.Valid() && cbq.Valid() && (forall i :: 0 <= i < |timers| ==> timers[i] in tq.timers)
      && Remembered(requested, tq.scheduled) && AllOnTime(fired)
      // Each scheduling so far has been executed, or ended by a client, or is in the queue.
      && tq.nextStamp == |fired| + ended + |tq.queue|
    }

    ghost predicate Fitting()
      reads this`script, this`now, tq`scheduled
    {
      async || ((forall actions :: actions in script ==> Fits(actions)) && Near(tq.scheduled, Clock() + MAX_TIMEOUT))
    }

    // The monotonic clock in whole milliseconds.
    function Clock(): (clock: int)
      reads this`now
      ensures clock <= now < clock + 1000
    {
      now - now % 1000
    }

    constructor (timers: nat, script: seq<seq<Action>>, now: int, async: bool)
      ensures Valid() && this.script == plan == script && tq.scheduled == map[] && this.async == async
      ensures cbq.queue == cbq.popped == called == [] && fired == [] && |this.timers| == timers
      // Only an EpollRunner has to be woken up.
      ensures cbq.hasWakeUp <==> !async
      ensures fresh(tq) && fresh(cbq) && fresh(tq.timers)
    {
      this.script, this.now, this.async, timerFD := script, now, async, Disarmed;
      requested, fired, called := map[], [], [];
      plan, done, ended := script, [], 0;
      var queue := new TimerQueue();
      var all: seq<Timer> := [];
      while |all| < timers
        invariant |all| <= timers && fresh(queue) && queue.Valid() && queue.scheduled == map[]
        invariant queue.queue == [] && queue.nextStamp == 0
        invariant fresh(queue.timers) && forall i :: 0 <= i < |all| ==> all[i] in queue.timers
      {
        var timer := new Timer(queue);
        all := all + [timer];
      }
      var callbacks := new CallbackQueue();
      callbacks.SetWakeUp(!async);
      tq, cbq, this.timers := queue, callbacks, all;
    }

    method Tick()
      requires Sound() && Fitting()
      modifies this`now
      ensures Sound() && Fitting() && now >= old(now)
    {
      var elapsed :| elapsed >= 0;
      now := now + elapsed;
    }

    // A callback runs.
    method Call(cb: Callback)
      requires Valid() && Fitting() && cb.Cb?
      modifies this, tq, cbq, tq.timers
      ensures Valid() && Fitting() && tq.timers == old(tq.timers) && now >= old(now)
      ensures timerFD == old(timerFD) && fired == old(fired)
      ensures called == old(called) + [cb] && old(cbq.queue) <= cbq.queue
      ensures cbq.popped == old(cbq.popped) && old(cbq.added) <= cbq.added
      ensures |script| < |old(script)| ||
        (script == old(script) && tq.queue == old(tq.queue) && cbq.queue == old(cbq.queue))
    {
      PlaysOneMore(plan, |called|, script, done);
      called := called + [cb];
      Tick();
      if script != [] {
        RunActions(script[0]);
        script := script[1..];
      }
    }

    method RunActions(actions: seq<Action>)
      requires Sound() && Fitting() && (async || Fits(actions))
      modifies this, tq, cbq, tq.timers
      ensures Sound() && Fitting() && tq.timers == old(tq.timers) && now >= old(now)
      ensures script == old(script) && timerFD == old(timerFD) && done == old(done) + actions
      ensures fired == old(fired) && called == old(called) && old(cbq.queue) <= cbq.queue
      ensures cbq.popped == old(cbq.popped) && old(cbq.added) <= cbq.added
    {
      for i := 0 to |actions|
        invariant Sound() && Fitting() && tq.timers == old(tq.timers) && now >= old(now)
        invariant script == old(script) && timerFD == old(timerFD) && done == old(done) + actions[..i]
        invariant fired == old(fired) && called == old(called) && old(cbq.queue) <= cbq.queue
        invariant cbq.popped == old(cbq.popped) && old(cbq.added) <= cbq.added
      {
        assert actions[i] in actions && actions[..i + 1] == actions[..i] + [actions[i]];
        Do(actions[i]);
      }
      assert actions[..|actions|] == actions;
    }

    // The client does something with a timer or the runner.
    method Do(action: Action)
      requires Sound() && Fitting() && (async || Fits([action]))
      modifies this, tq, cbq, tq.timers
      ensures Sound() && Fitting() && tq.timers == old(tq.timers) && now >= old(now)
      ensures script == old(script) && timerFD == old(timerFD) && done == old(done) + [action]
      ensures fired == old(fired) && called == old(called) && cbq.popped == old(cbq.popped)
      ensures tq.scheduled == Rescheduled(action, old(tq.scheduled), Clock(), old(tq.nextStamp))
      ensures ended == old(ended) + if Ends(action, old(tq.scheduled)) then 1 else 0
      ensures cbq.queue == old(cbq.queue) + Added(action) && cbq.added == old(cbq.added) + Added(action)
    {
      Tick();
      AccountedOneMore(done, action, |timers|, tq.nextStamp, cbq.added, ended);
      Perform(action);
      done := done + [action];
    }

    method Perform(action: Action)
      requires Timely() && Fitting() && (async || Fits([action]))
      modifies this`requested, this`ended, tq, cbq, tq.timers
      ensures Timely() && Fitting() && tq.timers == old(tq.timers) && cbq.popped == old(cbq.popped)
      ensures tq.scheduled == Rescheduled(action, old(tq.scheduled), Clock(), old(tq.nextStamp))
      ensures ended == old(ended) + if Ends(action, old(tq.scheduled)) then 1 else 0
      ensures tq.nextStamp == old(tq.nextStamp) + if Schedules(action, |timers|) then 1 else 0
      ensures cbq.queue == old(cbq.queue) + Added(action) && cbq.added == old(cbq.added) + Added(action)
    {
      match action
      case AddCallback(cb) => QueueCallback(cb);
      case Cancel(i) =>
        if i < |timers| { CancelTimer(timers[i]); }
      case Schedule(i, timeout, cb) =>
        if i < |timers| {
          assert action in [action];
          ScheduleTimer(timers[i], timeout, cb);
        }
    }

    method QueueCallback(cb: Callback)
      requires Timely()
      modifies cbq
      ensures Timely() && cbq.popped == old(cbq.popped)
      ensures cbq.queue == old(cbq.queue) + if cb.Cb? then [cb] else []
      ensures cbq.added == old(cbq.added) + if cb.Cb? then [cb] else []
    {
      var r := cbq.Add(cb);
    }

    // What is scheduled after an action.
    ghost function Rescheduled(action: Action, scheduled: map<Timer, When>, clock: int, stamp: nat): map<Timer, When> {
      match action
      case Schedule(i, timeout, cb) =>
        if i < |timers| && cb.Cb? then scheduled[timers[i] := When(clock + timeout, stamp)] else scheduled
      case Cancel(i) => if i < |timers| then scheduled - {timers[i]} else scheduled
      case AddCallback(_) => scheduled
    }

    // Whether it ends an earlier scheduling.
    ghost predicate Ends(action: Action, scheduled: map<Timer, When>) {
      match action
      case Schedule(i, _, cb) => i < |timers| && cb.Cb? && timers[i] in scheduled
      case Cancel(i) => i < |timers| && timers[i] in scheduled
      case AddCallback(_) => false
    }

    method ScheduleTimer(timer: Timer, timeout: int, cb: Callback)
      requires Timely() && Fitting() && timer in tq.timers && (async || timeout <= MAX_TIMEOUT)
      modifies this`requested, this`ended, tq, tq.timers
      ensures Timely() && Fitting() && tq.timers == old(tq.timers)
      ensures cb.Cb? ==> timer.cb == cb
      ensures tq.nextStamp == old(tq.nextStamp) + if cb.Cb? then 1 else 0
      ensures cb.Null? ==> requested == old(requested) && tq.scheduled == old(tq.scheduled) && ended == old(ended)
      ensures cb.Cb? ==> requested == old(requested)[timer := now + timeout]
      ensures cb.Cb? ==> tq.scheduled == old(tq.scheduled)[timer := When(Clock() + timeout, old(tq.nextStamp))]
      ensures cb.Cb? ==> ended == old(ended) + if timer in old(tq.scheduled) then 1 else 0
    {
      assert tq.Placed(timer);
      ghost var scheduled, when := tq.scheduled, When(Clock() + timeout, tq.nextStamp);
      var r := timer.Schedule(Clock(), timeout, cb);
      if r.Ok? {
        OneMoreScheduled(requested, scheduled, timer, now + timeout, when, Clock() + MAX_TIMEOUT);
        requested := requested[timer := now + timeout];
        ended := ended + if timer in scheduled then 1 else 0;
      }
    }

    method CancelTimer(timer: Timer)
      requires Timely() && Fitting() && timer in tq.timers
      modifies this`ended, tq, tq.timers
      ensures Timely() && Fitting() && tq.timers == old(tq.timers)
      ensures tq.scheduled == old(tq.scheduled) - {timer} && tq.nextStamp == old(tq.nextStamp)
      ensures ended == old(ended) + if timer in old(tq.scheduled) then 1 else 0
    {
      assert tq.Placed(timer);
      OneLessScheduled(requested, tq.scheduled, timer, Clock() + MAX_TIMEOUT);
      ended := ended + if timer in tq.scheduled then 1 else 0;
      timer.Cancel();
    }

    // Executes callbacks until there are none left: all that were waiting and all that are
    // added meanwhile, in order.
    method ExecuteCallbacks() returns (any: bool)
      requires Valid() && Fitting()
      modifies this, tq, cbq, tq.timers
      ensures Valid() && Fitting() && tq.timers == old(tq.timers) && now >= old(now)
      ensures cbq.queue == [] && timerFD == old(timerFD) && fired == old(fired)
      ensures |script| < |old(script)| || (script == old(script) && tq.queue == old(tq.queue))
      ensures any <==> old(cbq.queue) != []
      ensures Others() == old(Others())
      ensures old(cbq.added) <= cbq.added == cbq.popped && old(cbq.popped) <= cbq.popped
      ensures called == old(called) + cbq.popped[|old(cbq.popped)|..] && old(called + cbq.queue) <= called
      ensures !any ==> tq.queue == old(tq.queue) && now == old(now) && called == old(called)
    {
      any := false;
      var cb := cbq.Pop();
      // The callbacks executed before cb.
      ghost var done: seq<Callback> := [];
      while cb.Cb?
        invariant Valid() && Fitting() && tq.timers == old(tq.timers) && now >= old(now)
        invariant timerFD == old(timerFD) && fired == old(fired)
        invariant |script| < |old(script)| || (script == old(script) && tq.queue == old(tq.queue))
        invariant cb.Null? ==> cbq.queue == []
        invariant any || cb.Cb? <==> old(cbq.queue) != []
        invariant old(cbq.added) <= cbq.added && called == old(called) + done
        invariant PoppedSoFar(cbq.popped, old(cbq.popped), done, cb)
        invariant !any ==> tq.queue == old(tq.queue) && now == old(now) && done == []
        decreases |script|, |cbq.queue|, cb.Cb?
      {
        any := true;
        Call(cb);
        ghost var popped := cbq.popped;
        var next := cbq.Pop();
        PopsOneMore(popped, old(cbq.popped), done, cb, next, old(called));
        done := done + [cb];
        cb := next;
      }
      AllExecuted(old(cbq.popped), old(cbq.queue), done, cbq.popped, cbq.added, old(called));
    }

    lemma AllExecuted(before: seq<Callback>, waiting: seq<Callback>, done: seq<Callback>, popped: seq<Callback>,
                      added: seq<Callback>, called: seq<Callback>)
      requires popped == before + done && popped + [] == added && before + waiting <= added
      ensures added == popped && popped[|before|..] == done && called + waiting <= called + done
    {
      assert (before + done)[|before|..] == done;
      assert waiting == (before + waiting)[|before|..] <= added[|before|..];
    }

    // The first timer is due in less than a millisecond, or there is no timer.
    ghost predicate Due()
      reads this, tq
    {
      tq.queue != [] ==> tq.First() < now + 1000
    }

    // The callback of a popped timer is not null.
    method ExecuteFirstTimer()
      requires Valid() && Fitting() && Due()
      modifies this, tq, cbq, tq.timers
      ensures Valid() && Fitting() && tq.timers == old(tq.timers) && now >= old(now)
      ensures timerFD == old(timerFD)
      ensures |script| < |old(script)| ||
        (script == old(script) && |tq.queue| == if old(tq.queue) == [] then 0 else |old(tq.queue)| - 1)
      ensures old(tq.queue) != [] ==> Executed(old(fired), old(called))
      ensures old(tq.queue) != [] ==> fired[|old(fired)|].deadline == old(tq.First())
      ensures old(tq.queue) != [] ==> fired[|old(fired)|].at == old(now)
      ensures old(tq.queue) == [] ==> fired == old(fired) && called == old(called)
      ensures Others() == old(Others())
      ensures old(cbq.queue) <= cbq.queue
    {
      var cb := TakeFirstTimer();
      if cb.Cb? {
        Call(cb);
      }
    }

    // One more timer was executed, and its callback called.
    ghost predicate Executed(fired: seq<Fired>, called: seq<Callback>)
      reads this
    {
      |this.fired| == |fired| + 1 && fired <= this.fired && this.called == called + [this.fired[|fired|].cb]
    }

    // Pops the first timer and takes its callback.
    method TakeFirstTimer() returns (copy: Callback)
      requires Sound() && Fitting() && Due()
      modifies this`fired, tq, tq.timers
      ensures Sound() && Fitting() && tq.timers == old(tq.timers)
      ensures copy.Null? <==> old(tq.queue) == []
      ensures copy.Null? ==> tq.queue == [] && fired == old(fired)
      ensures copy.Cb? ==> tq.queue == old(tq.queue)[1..]
      ensures copy.Cb? ==> var timer := old(tq.queue)[0].timer;
        && copy == old(timer.cb) && timer in requested
        && fired == old(fired) + [Fired(copy, requested[timer], old(tq.First()), now)]
    {
      copy := Null;
      ghost var was := tq.scheduled;
      var timer := tq.PopFirstTimerToExecute();
      if timer != null {
        assert tq.Placed(timer);
        OneLessScheduled(requested, was, timer, Clock() + MAX_TIMEOUT);
        copy := timer.Execute();
        ghost var f := Fired(copy, requested[timer], was[timer].deadline, now);
        assert OnTime(f);
        fired := fired + [f];
      }
    }

    method GetTimeout() returns (timeout: int, ghost clock: int)
      requires Valid() && Fitting()
      modifies this`now
      ensures Valid() && Fitting() && now >= old(now) && clock == Clock()
      ensures tq.queue == [] <==> timeout == NO_TIMEOUT
      ensures tq.queue != [] ==> 0 <= timeout && (async || timeout <= MAX_TIMEOUT)
      ensures 0 <= timeout < MIN_TIMEOUT ==> Due()
      ensures timeout >= MIN_TIMEOUT ==> tq.First() == clock + timeout && !old(Overdue())
    {
      Tick();
      if tq.queue != [] {
        tq.FirstIsEarliest();
      }
      clock := Clock();
      timeout := tq.GetTimeout(Clock());
    }

    // The loop of AsyncRunner::step(): in the end all callbacks are done, and the timer
    // descriptor is armed for the first timer, if there is one.
    method ExecuteTimersAndUpdateTimer() returns (ghost clock: int, timeout: int)
      requires Valid() && Fitting()
      modifies this, tq, cbq, tq.timers
      ensures Valid() && Fitting() && cbq.queue == [] && tq.timers == old(tq.timers)
      ensures clock == Clock() && Others() == old(Others())
      ensures timerFD == Disarmed <==> tq.queue == []
      ensures timerFD.Armed? ==>
        && tq.First() == clock + timeout && timeout >= MIN_TIMEOUT
        && (timerFD.seconds > 0 || timerFD.nanoseconds > 0)
        && timerFD.seconds >= 0 && 0 <= timerFD.nanoseconds < 1_000_000_000
        && timerFD.seconds * 1_000_000_000 + timerFD.nanoseconds == 1000 * timeout
    {
      while true
        invariant Valid() && Fitting() && tq.timers == old(tq.timers) && Others() == old(Others())
        decreases |script|, |tq.queue|
      {
        var any := ExecuteCallbacks();
        timeout, clock := GetTimeout();
        if timeout == NO_TIMEOUT {
          Disarm();
          return;
        } else if timeout < MIN_TIMEOUT {
          ExecuteFirstTimer();
        } else {
          Arm(timeout);
          return;
        }
      }
    }

    method Disarm()
      requires Valid() && Fitting()
      modifies this`timerFD
      ensures Valid() && Fitting() && timerFD == Disarmed
    {
      timerFD := Disarmed;
    }

    method Arm(timeout: int)
      requires Valid() && Fitting() && timeout >= MIN_TIMEOUT
      modifies this`timerFD
      ensures Valid() && Fitting()
      ensures timerFD.Armed? && timerFD.seconds >= 0 && 0 <= timerFD.nanoseconds < 1_000_000_000
      ensures timerFD.seconds > 0 || timerFD.nanoseconds > 0
      ensures timerFD.seconds * 1_000_000_000 + timerFD.nanoseconds == 1000 * timeout
    {
      timerFD := Armed(timeout / 1_000_000, 1000 * timeout % 1_000_000_000);
    }

    // Waits for events. Without a timeout it takes an event to end the wait.
    method Wait(timeout: int) returns (timedOut: bool)
      requires Valid() && Fitting() && !async
      requires timeout == NO_TIMEOUT <==> tq.queue == []
      requires timeout != NO_TIMEOUT ==> MIN_TIMEOUT <= timeout <= MAX_TIMEOUT && tq.First() == Clock() + timeout
      modifies this`now
      ensures Valid() && Fitting() && now >= old(now)
      ensures timedOut ==> Due() && tq.queue != []
      ensures timeout != NO_TIMEOUT && Milliseconds(timeout) < INT_LIMIT && now >= old(now) + timeout ==> timedOut
    {
      var waited;
      timedOut, waited := EpollWait(timeout);
      now := now + waited;
    }

    // One round of the loop of EpollRunner::run(), with the answers of canContinue() and the
    // number of listeners to call. All callbacks waiting are called, in order; after that one
    // timer is executed or the listeners are called. With no callbacks waiting, a timer that is
    // due is executed, and so is one that is due when the wait is over.
    method Repeat(first: bool, listeners: nat, second: bool) returns (goOn: bool, ghost woken: int)
      requires Valid() && Fitting() && !async
      modifies this, tq, cbq, tq.timers
      ensures Valid() && Fitting() && tq.timers == old(tq.timers)
      ensures old(called + cbq.queue) <= called && old(fired) <= fired
      ensures goOn <==> (old(cbq.queue) == [] || first) && second
      ensures if old(cbq.queue) != [] && !first then fired == old(fired) && Others() == old(Others())
        else if |fired| > |old(fired)| then |fired| == |old(fired)| + 1 && Others() == old(Others())
        else Others() == old(Others()) + listeners
      ensures old(cbq.queue == [] && Overdue()) ==> Executed(old(fired), old(called))
      ensures old(now) <= woken <= now
      ensures old(cbq.queue == [] && tq.queue != []) && woken >= old(tq.First()) + 1000 ==>
        old(tq.First() - Clock()) < 1000 * INT_LIMIT ==> Executed(old(fired), old(called))
    {
      var any := ExecuteCallbacks();
      woken := now;
      if any && !first {
        return false, woken;
      }
      woken := WaitOrExecute(listeners);
      goOn := second;
    }

    // The rest of the round: waits if there is no timer to execute yet.
    method WaitOrExecute(listeners: nat) returns (ghost woken: int)
      requires Valid() && Fitting() && !async
      modifies this, tq, cbq, tq.timers
      ensures Valid() && Fitting() && tq.timers == old(tq.timers)
      ensures old(called) <= called && old(fired) <= fired
      ensures if |fired| > |old(fired)| then |fired| == |old(fired)| + 1 && Others() == old(Others())
        else Others() == old(Others()) + listeners
      ensures old(Overdue()) ==> Executed(old(fired), old(called))
      ensures old(now) <= woken <= now
      ensures old(tq.queue) != [] && woken >= old(tq.First()) + 1000 ==>
        old(tq.First() - Clock()) < 1000 * INT_LIMIT ==> Executed(old(fired), old(called))
    {
      var timeout;
      ghost var clock;
      timeout, clock := GetTimeout();
      woken := now;
      if timeout != NO_TIMEOUT && timeout < MIN_TIMEOUT {
        ExecuteFirstTimer();
      } else {
        var timedOut := Wait(timeout);
        woken := now;
        if timedOut {
          ExecuteFirstTimer();
        } else {
          HandleEvents(listeners);
        }
      }
    }

    ghost predicate Overdue()
      reads this, tq
    {
      tq.queue != [] && tq.First() < Clock() + 1000
    }

    // So many listeners are called.
    method HandleEvents(listeners: nat)
      requires Valid() && Fitting()
      modifies this, tq, cbq, tq.timers
      ensures Valid() && Fitting() && tq.timers == old(tq.timers) && now >= old(now)
      ensures old(called) <= called && fired == old(fired) && Others() == old(Others()) + listeners
    {
      for i := 0 to listeners
        invariant Valid() && Fitting() && tq.timers == old(tq.timers) && now >= old(now)
        invariant old(called) <= called && fired == old(fired) && Others() == old(Others()) + i
      {
        Call(Cb(i));
      }
    }
  }

  // What the clients and the kernel do in a round: the answers of canContinue(), and how many
  // listeners are called.
  datatype Round = Round(first: bool, listeners: nat, second: bool)

  // How many listeners the first n rounds would call, and how many of them do anything.
  ghost function Handled(rounds: seq<Round>, n: nat): nat
    requires n <= |rounds|
  {
    if n == 0 then 0 else Handled(rounds, n - 1) + rounds[n - 1].listeners
  }

  ghost function Active(rounds: seq<Round>, n: nat): nat
    requires n <= |rounds|
  {
    if n == 0 then 0 else Active(rounds, n - 1) + if rounds[n - 1].first && rounds[n - 1].listeners > 0 then 1 else 0
  }

  // Over every run of either runner, no timer is executed a millisecond or more before its
  // deadline, nor two milliseconds before the time it was asked to be executed at; callbacks
  // do what the script says, call by call; no timer and no callback is lost; and a round in
  // which there is something to do does not pass without anything being called.
  method Run(timers: nat, script: seq<seq<Action>>, now: int, async: bool, rounds: seq<Round>)
    returns (runner: Runner)
    requires !async ==> forall actions :: actions in script ==> Fits(actions)
    ensures runner.Valid() && forall f :: f in runner.fired ==> OnTime(f)
    ensures Played(script, |runner.called|, runner.script, runner.done)
    ensures Accounted(runner.done, timers, runner.tq.nextStamp, runner.cbq.added, runner.ended)
    ensures runner.tq.nextStamp == |runner.fired| + runner.ended + |runner.tq.queue|
    ensures runner.cbq.added == runner.cbq.popped + runner.cbq.queue
    ensures |runner.called| == |runner.fired| + |runner.cbq.popped| + runner.Others()
    ensures if async then runner.Others() == Handled(rounds, |rounds|)
      else runner.Others() <= Handled(rounds, |rounds|) && Active(rounds, |rounds|) <= |runner.fired| + runner.Others()
    ensures async && rounds != [] ==> runner.cbq.queue == [] && (runner.timerFD.Armed? <==> runner.tq.queue != [])
  {
    runner := new Runner(timers, script, now, async);
    for i := 0 to |rounds|
      invariant fresh(runner) && fresh(runner.tq) && fresh(runner.cbq) && fresh(runner.tq.timers)
      invariant runner.Valid() && runner.Fitting()
      invariant if async then runner.Others() == Handled(rounds, i)
        else 0 <= runner.Others() <= Handled(rounds, i) && Active(rounds, i) <= |runner.fired| + runner.Others()
      invariant async && i > 0 ==> runner.cbq.queue == [] && (runner.timerFD.Armed? <==> runner.tq.queue != [])
    {
      if async {
        runner.HandleEvents(rounds[i].listeners);
        ghost var clock;
        var timeout;
        clock, timeout := runner.ExecuteTimersAndUpdateTimer();
      } else {
        var goOn;
        ghost var woken;
        goOn, woken := runner.Repeat(rounds[i].first, rounds[i].listeners, rounds[i].second);
      }
    }
  }
}
