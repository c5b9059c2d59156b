/**
 The wake-up protocol between threads that add callbacks and the thread that runs the event
 loop: the locked callback queue, the event pipe and the loop of the runner, as steps that
 interleave in any order. The queue's lock is held from a push to the end of its wake-up, so
 no other push and no pop happens in between.
 */
module WakeUp {
  import opened Basics

  // The bytes of one event, and of the buffer the pipe is read with.
  const EVENT_SIZE: nat := 4
  const READ_SIZE: nat := 32

  // A thread inside add(), after its push: whether the queue was empty before, and what it
  // has found out about whether the runner needs to be woken up.
  datatype Adding = Adding(first: bool, wake: Option<bool>)

  datatype RunnerPc =
    | Stopped                   // run() is not active and the thread id is not set
    | Popping(executed: bool)   // about to pop the next callback
    | Calling                   // in a callback
    | MayWait                   // in canContinue(), between executing callbacks and waiting
    | Waiting                   // in epoll_wait()
    | Dispatching               // in handlers or in a timer
    | MayRepeat                 // in canContinue() at the end of the loop

  datatype State = State(
    queue: seq<int>, pipe: nat, pc: RunnerPc, adding: Option<Adding>,
    added: seq<int>, executed: seq<int>)

  const INITIAL := State([], 0, Stopped, None, [], [])

  datatype Step =
    | Push(cb: int)             // another thread locks the queue and appends
    | CheckRunner               // it looks at the runner's thread id
    | Unlock                    // it writes to the pipe if it has to, and unlocks
    | OwnAdd(cb: int)           // the runner's thread adds a callback
    | Start
    | Pop
    | Return
    | Throw                     // an exception leaves run()
    | Continue(yes: bool)       // the answer of canContinue()
    | WaitEnds                  // events or a timeout
    | ReadPipe
    | DispatchEnds

  // The runner's thread is in client code.
  predicate InClient(pc: RunnerPc)
    ensures InClient(pc) <==> !pc.Stopped? && !pc.Popping? && !pc.Waiting?
  {
    pc.Calling? || pc.MayWait? || pc.Dispatching? || pc.MayRepeat?
  }

  predicate Enabled(s: State, step: Step) {
    match step
    case Push(_) => s.adding.None?
    case CheckRunner => s.adding.Some? && s.adding.value.first && s.adding.value.wake.None?
    case Unlock => s.adding.Some? && (s.adding.value.first ==> s.adding.value.wake.Some?)
    case OwnAdd(_) => s.adding.None? && InClient(s.pc)
    case Start => s.pc.Stopped?
    case Pop => s.pc.Popping? && s.adding.None?
    case Return => s.pc.Calling?
    case Throw => InClient(s.pc)
    case Continue(_) => s.pc.MayWait? || s.pc.MayRepeat?
    case WaitEnds => s.pc.Waiting?
    case ReadPipe => s.pc.Dispatching?
    case DispatchEnds => s.pc.Dispatching?
  }

  function Apply(s: State, step: Step): (s': State)
    requires Enabled(s, step)
  {
    match step
    case Push(cb) => s.(queue := s.queue + [cb], added := s.added + [cb], adding := Some(Adding(s.queue == [], None)))
    case CheckRunner => s.(adding := Some(Adding(true, Some(!s.pc.Stopped?))))
    case Unlock =>
      var wake := s.adding.value.first && s.adding.value.wake.value;
      s.(adding := None, pipe := if wake then s.pipe + EVENT_SIZE else s.pipe)
    case OwnAdd(cb) => s.(queue := s.queue + [cb], added := s.added + [cb])
    case Start => s.(pc := Popping(false))
    case Pop =>
      if s.queue == [] then s.(pc := if s.pc.executed then MayWait else Waiting)
      else s.(queue := s.queue[1..], executed := s.executed + [s.queue[0]], pc := Calling)
    case Return => s.(pc := Popping(true))
    case Throw => s.(pc := Stopped)
    case Continue(yes) => s.(pc := if !yes then Stopped else if s.pc.MayWait? then Waiting else Popping(false))
    case WaitEnds => s.(pc := Dispatching)
    case ReadPipe => s.(pipe := if s.pipe < READ_SIZE then 0 else s.pipe - READ_SIZE)
    case DispatchEnds => s.(pc := MayRepeat)
  }

  // The canContinue() called before waiting adds a callback while nothing is in the pipe. This
  // is the one step that goes wrong.
  predicate Forgetful(s: State, step: Step) {
    s.pc.MayWait? && step.OwnAdd? && s.pipe == 0
  }

  // The states a run goes through; a step that is not enabled ends it.
  function Run(s: State, steps: seq<Step>): (end: Option<State>)
    decreases |steps|
  {
    if steps == [] then Some(s)
    else if Enabled(s, steps[0]) then Run(Apply(s, steps[0]), steps[1..])
    else None
  }

  predicate ForgetfulRun(s: State, steps: seq<Step>)
    decreases |steps|
  {
    steps != [] && Enabled(s, steps[0]) && (Forgetful(s, steps[0]) || ForgetfulRun(Apply(s, steps[0]), steps[1..]))
  }

  // Between the pop that found the queue empty and the end of the wait, whoever added the
  // first callback has written to the pipe or is going to.
  ghost predicate WakeUpPending(s: State) {
    (s.pc.MayWait? || s.pc.Waiting?) && s.queue != [] ==>
      s.pipe > 0 || (s.adding.Some? && s.adding.value.first && s.adding.value.wake != Some(false))
  }

  // Callbacks are executed in the order of their pushes, each of them once.
  ghost predicate InOrder(s: State) {
    && s.executed + s.queue == s.added
    && (s.adding.Some? ==> s.queue != [])
  }

  lemma StepKeepsOrder(s: State, step: Step)
    requires Enabled(s, step) && InOrder(s)
    ensures InOrder(Apply(s, step))
  {
  }

  // A step keeps a wake-up pending if and only if it is not the one that goes wrong.
  lemma StepKeepsWakeUp(s: State, step: Step)
    requires Enabled(s, step) && WakeUpPending(s)
    ensures WakeUpPending(Apply(s, step)) <==> !Forgetful(s, step)
  {
  }

  // Over every run, whatever client code does: nothing is lost, duplicated or reordered.
  lemma {:induction false} EveryRunInOrder(s: State, steps: seq<Step>)
    requires InOrder(s) && Run(s, steps).Some?
    ensures InOrder(Run(s, steps).value)
    decreases |steps|
  {
    if steps != [] {
      StepKeepsOrder(s, steps[0]);
      EveryRunInOrder(Apply(s, steps[0]), steps[1..]);
    }
  }

  // A wake-up is pending in every state of the run.
  ghost predicate AlwaysPending(s: State, steps: seq<Step>)
    decreases |steps|
  {
    WakeUpPending(s) && (steps != [] && Enabled(s, steps[0]) ==> AlwaysPending(Apply(s, steps[0]), steps[1..]))
  }

  // For every run from every state with a wake-up pending.
  lemma {:induction false} RunKeepsWakeUp(s: State, steps: seq<Step>)
    requires WakeUpPending(s)
    ensures AlwaysPending(s, steps) <==> !ForgetfulRun(s, steps)
    decreases |steps|
  {
    if steps != [] && Enabled(s, steps[0]) {
      StepKeepsWakeUp(s, steps[0]);
      if !Forgetful(s, steps[0]) {
        RunKeepsWakeUp(Apply(s, steps[0]), steps[1..]);
      } else {
        assert !AlwaysPending(Apply(s, steps[0]), steps[1..]);
      }
    }
  }

  lemma {:induction false} PendingInTheEnd(s: State, steps: seq<Step>)
    requires AlwaysPending(s, steps) && Run(s, steps).Some?
    ensures WakeUpPending(Run(s, steps).value)
    decreases |steps|
  {
    if steps != [] {
      PendingInTheEnd(Apply(s, steps[0]), steps[1..]);
    }
  }

  // The runner is asleep and nothing is going to wake it up, although a callback waits.
  ghost predicate Asleep(s: State) {
    s.pc.Waiting? && s.pipe == 0 && s.adding.None? && s.queue != []
  }

  lemma ExecutedInAddingOrder(steps: seq<Step>)
    requires Run(INITIAL, steps).Some?
    ensures var s := Run(INITIAL, steps).value; s.executed <= s.added && s.queue == s.added[|s.executed|..]
  {
    EveryRunInOrder(INITIAL, steps);
  }

  // No wake-up is lost: whenever no add() is under way, a runner in epoll_wait() has either
  // nothing to execute or something to read.
  lemma NoLostWakeUp(steps: seq<Step>)
    requires !ForgetfulRun(INITIAL, steps) && Run(INITIAL, steps).Some?
    ensures !Asleep(Run(INITIAL, steps).value)
  {
    RunKeepsWakeUp(INITIAL, steps);
    PendingInTheEnd(INITIAL, steps);
  }

  // From wherever the forgetful step is taken, going on to wait leaves the runner asleep.
  lemma ForgetfulFallsAsleep(s: State, cb: int)
    requires Enabled(s, OwnAdd(cb)) && Forgetful(s, OwnAdd(cb))
    ensures Asleep(Apply(Apply(s, OwnAdd(cb)), Continue(true)))
  {
  }

  // Such a run, from the beginning.
  const FORGETFUL: seq<Step> :=
    [Push(1), CheckRunner, Unlock, Start, Pop, Return, Pop, OwnAdd(2), Continue(true)]

  // The states of that run.
  ghost function AfterSteps(k: nat): (s: State) {
    match k
    case 0 => INITIAL
    case 1 => State([1], 0, Stopped, Some(Adding(true, None)), [1], [])
    case 2 => State([1], 0, Stopped, Some(Adding(true, Some(false))), [1], [])
    case 3 => State([1], 0, Stopped, None, [1], [])
    case 4 => State([1], 0, Popping(false), None, [1], [])
    case 5 => State([], 0, Calling, None, [1], [1])
    case 6 => State([], 0, Popping(true), None, [1], [1])
    case 7 => State([], 0, MayWait, None, [1], [1])
    case 8 => State([2], 0, MayWait, None, [1, 2], [1])
    case _ => State([2], 0, Waiting, None, [1, 2], [1])
  }

  lemma StepOfRun(k: nat)
    requires k < |FORGETFUL|
    ensures Enabled(AfterSteps(k), FORGETFUL[k]) && Apply(AfterSteps(k), FORGETFUL[k]) == AfterSteps(k + 1)
  {
  }

  lemma {:induction false} RestOfRun(k: nat)
    requires k <= |FORGETFUL|
    ensures Run(AfterSteps(k), FORGETFUL[k..]) == Some(AfterSteps(|FORGETFUL|))
    decreases |FORGETFUL| - k
  {
    if k < |FORGETFUL| {
      var rest := FORGETFUL[k..];
      assert rest[0] == FORGETFUL[k] && rest[1..] == FORGETFUL[k + 1..];
      StepOfRun(k);
      RestOfRun(k + 1);
    }
  }

  lemma FallingAsleepIsForgetful(steps: seq<Step>, end: State)
    requires Run(INITIAL, steps) == Some(end) && Asleep(end)
    ensures ForgetfulRun(INITIAL, steps)
  {
    if !ForgetfulRun(INITIAL, steps) {
      NoLostWakeUp(steps);
    }
  }

  // A callback added by the canContinue() before the wait is not noticed.
  lemma ForgetfulRunFallsAsleep()
    ensures Run(INITIAL, FORGETFUL) == Some(AfterSteps(9)) && Asleep(AfterSteps(9))
    ensures ForgetfulRun(INITIAL, FORGETFUL)
  {
    RestOfRun(0);
    var steps := FORGETFUL[0..];
    assert steps == FORGETFUL;
    FallingAsleepIsForgetful(steps, AfterSteps(9));
  }

  // Asleep, perhaps while another thread adds a callback and finds the queue non-empty.
  ghost predicate Unwoken(s: State) {
    s.pc.Waiting? && s.pipe == 0 && s.queue != [] && (s.adding.Some? ==> !s.adding.value.first)
  }

  // And whatever other threads add: the runner sleeps until something else ends its wait.
  lemma {:induction false} AsleepUntilWaitEnds(s: State, steps: seq<Step>)
    requires Unwoken(s) && WaitEnds !in steps && Run(s, steps).Some?
    ensures Unwoken(Run(s, steps).value)
    decreases |steps|
  {
    if steps != [] {
      assert steps[0] in steps;
      AsleepUntilWaitEnds(Apply(s, steps[0]), steps[1..]);
    }
  }

  // What a step writes to the pipe, and what it takes out of it.
  function Written(s: State, step: Step): nat
    requires Enabled(s, step)
  {
    if step.Unlock? && s.adding.value == Adding(true, Some(true)) then EVENT_SIZE else 0
  }

  function Taken(s: State, step: Step): nat {
    if !step.ReadPipe? then 0 else if s.pipe < READ_SIZE then s.pipe else READ_SIZE
  }

  function AllWritten(s: State, steps: seq<Step>): nat
    decreases |steps|
  {
    if steps == [] || !Enabled(s, steps[0]) then 0
    else Written(s, steps[0]) + AllWritten(Apply(s, steps[0]), steps[1..])
  }

  function AllTaken(s: State, steps: seq<Step>): nat
    decreases |steps|
  {
    if steps == [] || !Enabled(s, steps[0]) then 0
    else Taken(s, steps[0]) + AllTaken(Apply(s, steps[0]), steps[1..])
  }

  // Over every run, no byte in the pipe is lost or read twice.
  lemma {:induction false} BytesConserved(s: State, steps: seq<Step>)
    requires Run(s, steps).Some?
    ensures s.pipe + AllWritten(s, steps) == AllTaken(s, steps) + Run(s, steps).value.pipe
    decreases |steps|
  {
    if steps != [] {
      BytesConserved(Apply(s, steps[0]), steps[1..]);
    }
  }

  ghost predicate OnlyReads(steps: seq<Step>) {
    forall i :: 0 <= i < |steps| ==> steps[i] == ReadPipe
  }

  // Reading often enough empties the pipe, and does nothing else.
  lemma {:induction false} ReadsEverything(s: State, steps: seq<Step>)
    requires s.pc.Dispatching? && OnlyReads(steps)
    ensures var size := READ_SIZE * |steps|;
      Run(s, steps) == Some(s.(pipe := if s.pipe <= size then 0 else s.pipe - size))
    decreases |steps|
  {
    if steps != [] {
      ReadsEverything(Apply(s, steps[0]), steps[1..]);
    }
  }

  lemma {:induction false} RunJoins(s: State, first: seq<Step>, rest: seq<Step>)
    requires Run(s, first).Some?
    ensures Run(s, first + rest) == Run(Run(s, first).value, rest)
    decreases |first|
  {
    if first == [] {
      assert first + rest == rest;
    } else {
      assert (first + rest)[0] == first[0] && (first + rest)[1..] == first[1..] + rest;
      RunJoins(Apply(s, first[0]), first[1..], rest);
    }
  }

  // No callback waits or is being added, and there is nothing to read.
  ghost predicate Idle(s: State) {
    s.queue == [] && s.adding.None? && s.pipe == 0
  }

  ghost predicate NoneAdds(steps: seq<Step>) {
    forall i :: 0 <= i < |steps| ==> !steps[i].Push? && !steps[i].OwnAdd?
  }

  lemma {:induction false} StaysIdle(s: State, steps: seq<Step>)
    requires Idle(s) && NoneAdds(steps) && Run(s, steps).Some?
    ensures Idle(Run(s, steps).value) && Run(s, steps).value.executed == s.executed
    decreases |steps|
  {
    if steps != [] {
      StaysIdle(Apply(s, steps[0]), steps[1..]);
    }
  }

  // A runner without callbacks that has read the pipe has nothing left that wakes it up, until
  // a callback is added.
  lemma IdleOnceRead(s: State, readings: seq<Step>, steps: seq<Step>)
    requires s.pc.Dispatching? && s.queue == [] && s.adding.None?
    requires OnlyReads(readings) && s.pipe <= READ_SIZE * |readings| && NoneAdds(steps)
    requires Run(s, readings + steps).Some?
    ensures Idle(Run(s, readings + steps).value)
  {
    ReadsEverything(s, readings);
    RunJoins(s, readings, steps);
    StaysIdle(Run(s, readings).value, steps);
  }

  // One step after the other, if they are all enabled.
  function Go(s: Option<State>, step: Step): (next: Option<State>) {
    if s.Some? && Enabled(s.value, step) then Some(Apply(s.value, step)) else None
  }

  // A runner the wait of which ends goes on to execute the first callback, whether it has
  // something to read or not.
  lemma WokenExecutes(s: State)
    requires s.pc.Waiting? && s.queue != [] && s.adding.None?
    ensures var end := Go(Go(Go(Go(Some(s), WaitEnds), DispatchEnds), Continue(true)), Pop);
      end == Some(s.(queue := s.queue[1..], executed := s.executed + [s.queue[0]], pc := Calling))
  {
  }

  // canContinue() is asked before a wait if and only if callbacks have been executed, and its
  // answer decides.
  lemma AsksBeforeWaiting(s: State)
    requires s.pc.MayRepeat? && s.adding.None? && |s.queue| <= 1
    ensures Go(Some(s), Continue(false)) == Some(s.(pc := Stopped))
    ensures var again := Go(Go(Some(s), Continue(true)), Pop);
      if s.queue == [] then again == Some(s.(pc := Waiting))
      else
        var asked := Go(Go(again, Return), Pop);
        var done := s.(queue := [], executed := s.executed + s.queue);
        && asked == Some(done.(pc := MayWait))
        && Go(asked, Continue(true)) == Some(done.(pc := Waiting))
        && Go(asked, Continue(false)) == Some(done.(pc := Stopped))
  {
    assert s.queue != [] ==> s.queue == [s.queue[0]] && s.queue[1..] == [];
  }

  // An exception from client code loses no callback but the one it comes from: run again, the
  // runner executes the next.
  lemma RunAgainExecutes(s: State)
    requires InClient(s.pc) && s.queue != [] && s.adding.None?
    ensures var end := Go(Go(Go(Some(s), Throw), Start), Pop);
      end == Some(s.(queue := s.queue[1..], executed := s.executed + [s.queue[0]], pc := Calling))
  {
  }
}
