/**
 The non-blocking stream socket: event handling, arming of write events and closing.
 Clients are finite scripts of reactions to the callbacks; the kernel answers as it likes.
 */
module StreamSockets {
  import opened Basics
  import opened Memory
  import opened SocketEvents
  import opened SocketStreams

  ghost predicate Echoes(action: Action) {
    action.EchoInput? || action.StartSending?
  }

  // How many actions these reactions have.
  ghost function Pending(script: seq<seq<Action>>): nat {
    if script == [] then 0 else |script[0]| + Pending(script[1..])
  }

  // The actions are done in these steps from some point on, in order.
  ghost predicate DoneAt(actions: seq<Action>, steps: seq<Step>, from: nat, at: seq<nat>) {
    && |at| == |actions| && (forall i :: 0 <= i < |at| ==> from <= at[i] < |steps| && steps[at[i]] == Did(actions[i]))
    && (forall i, j :: 0 <= i < j < |at| ==> at[i] < at[j])
  }

  lemma DoneOneMore(actions: seq<Action>, i: nat, before: seq<Step>, after: seq<Step>, from: nat, at: seq<nat>)
    requires i < |actions| && DoneAt(actions[..i], before, from, at) && from <= |before|
    requires before + [Did(actions[i])] <= after
    ensures DoneAt(actions[..i + 1], after, from, at + [|before|])
  {
    assert after[|before|] == (before + [Did(actions[i])])[|before|];
  }

  ghost predicate EchoOnly(actions: seq<Action>) {
    forall i :: 0 <= i < |actions| ==> Echoes(actions[i])
  }

  // What an echoing client has consumed and appended after n of its actions, if it was level
  // with what it had received before.
  ghost predicate EchoedAfter(actions: seq<Action>, n: nat, level: bool, flow: Flow) {
    && n <= |actions|
    && (EchoOnly(actions) && level ==> flow.consumed == flow.appended)
    && (EchoOnly(actions) && EchoInput in actions[..n] ==> flow.consumed == flow.delivered)
  }

  lemma EchoesOneMore(actions: seq<Action>, i: nat, level: bool, before: Flow, after: Flow)
    requires i < |actions| && EchoedAfter(actions, i, level, before) && before.delivered == after.delivered
    requires Echoes(actions[i]) && before.consumed == before.appended ==> after.consumed == after.appended
    requires Echoes(actions[i]) && before.consumed == before.delivered ==> after.consumed == after.delivered
    requires actions[i] == EchoInput ==> after.consumed == after.delivered
    ensures EchoedAfter(actions, i + 1, level, after)
  {
    assert actions[..i + 1] == actions[..i] + [actions[i]];
  }

  class StreamSocket {
    const streams: Streams
    const hasEstablishedCb: bool
    const hasAllDataSentCb: bool
    // A fixed reaction to received data, for clients that have one.
    const onData: Option<seq<Action>>
    // The reactions to the callbacks to come; when they are used up the client does nothing.
    var script: seq<seq<Action>>
    var open: bool
    var connecting: bool
    var sending: bool
    var interest: Interest
    ghost var log: seq<Callback>
    // What the script was in the beginning.
    ghost const plan: seq<seq<Action>>

    ghost function Unsent(): nat
      reads streams, streams.output
    {
      streams.output.usedSize
    }

    ghost predicate SendingArmed()
      reads this`open, this`sending, this`interest, streams, streams.output
    {
      open && sending ==> interest == InOut && Unsent() > 0
    }

    // The registration, the flags and the callbacks so far agree with each other.
    ghost predicate Ordered(log: seq<Callback>)
      reads this`open, this`interest, this`connecting
    {
      (open <==> interest != Unregistered) && Told(log, open, connecting)
    }

    // While the connection is being established, write events are asked for.
    ghost predicate Armed()
      reads this`open, this`connecting, this`interest
    {
      open && connecting ==> interest == InOut
    }

    // Write events of an established connection are asked for only while there is unsent output.
    ghost predicate Calm()
      reads this`open, this`connecting, this`interest, streams, streams.output
    {
      open && !connecting && interest == InOut ==> Unsent() > 0
    }

    // Unsent output of an established connection is being sent.
    ghost predicate Flowing()
      reads this`open, this`connecting, this`sending, streams, streams.output
    {
      open && !connecting && Unsent() > 0 ==> sending
    }

    // The connection works as long as the socket is open.
    ghost predicate Valid()
      reads this, streams, streams.kernel, streams.input, streams.output
      reads Arrays(streams.input.AsView().cells), Arrays(streams.output.AsView().cells)
    {
      Intact(|log|, log) && (open ==> !streams.kernel.broken)
    }

    // So many callbacks have been dealt with, and these have come.
    ghost predicate Intact(n: int, log: seq<Callback>)
      reads this, streams, streams.kernel, streams.input, streams.output
      reads Arrays(streams.input.AsView().cells), Arrays(streams.output.AsView().cells)
    {
      streams.Valid() && Ordered(log) && SendingArmed() && InStep(n) && Remaining(script)
    }

    // n reactions of the script are used up; a fixed reaction to data uses up none.
    ghost predicate InStep(n: int)
      reads this`script
    {
      onData.None? ==> |script| == if n < |plan| then |plan| - n else 0
    }

    // What is left of the script is its end.
    ghost predicate Remaining(script: seq<seq<Action>>) {
      |script| <= |plan| && forall k :: 0 <= k < |script| ==> script[k] == plan[|plan| - |script| + k]
    }

    lemma FirstReaction(script: seq<seq<Action>>)
      requires script != [] && Remaining(script)
      ensures Remaining(script[1..]) && Pending(script) == |script[0]| + Pending(script[1..])
    {
    }

    // How many steps there have been, and how many are to come by the script.
    ghost function Owed(): nat
      reads this`script, streams
    {
      |streams.steps| + Pending(script)
    }

    // How many steps it takes to deal with an answer of the kernel: one for the bytes, and those
    // of a fixed reaction to them.
    ghost function Cost(r: SysResult): nat {
      1 + if onData.Some? && r.Bytes? && r.n > 0 then |onData.value| else 0
    }

    // The same for the answer behind the first n, if there is one.
    ghost function CostOfLast(n: nat): nat
      reads streams.kernel
    {
      if n < |streams.kernel.receives| then Cost(streams.kernel.receives[n]) else 0
    }

    // And for all answers.
    ghost function Costs(receives: seq<SysResult>): nat {
      if receives == [] then 0 else Costs(receives[..|receives| - 1]) + Cost(receives[|receives| - 1])
    }

    lemma CostsOneMore(before: seq<SysResult>)
      requires before <= streams.kernel.receives && |streams.kernel.receives| <= |before| + 1
      ensures Costs(streams.kernel.receives) == Costs(before) + CostOfLast(|before|)
    {
      if |before| < |streams.kernel.receives| {
        assert streams.kernel.receives[..|streams.kernel.receives| - 1] == before;
      } else {
        assert streams.kernel.receives == before;
      }
    }

    // The callback right after those so far.
    ghost predicate Next(before: seq<Callback>, cb: Callback)
      reads this`log
    {
      |before| < |log| && log[|before|] == cb
    }

    ghost predicate Steady(sending: bool, interest: Interest)
      reads this`sending, this`interest
    {
      this.sending == sending && this.interest == interest
    }

    // Nothing happens at all.
    twostate predicate Unmoved()
      reads this, streams, streams.kernel
    {
      && open == old(open) && connecting == old(connecting) && Steady(old(sending), old(interest))
      && log == old(log) && script == old(script) && streams.steps == old(streams.steps)
      && streams.kernel.sends == old(streams.kernel.sends) && streams.kernel.receives == old(streams.kernel.receives)
      && streams.kernel.broken == old(streams.kernel.broken)
    }

    // What follows from the kernel's answer.
    ghost predicate SendHandled(r: SysResult, unsent: nat, wasOpen: bool, before: seq<Callback>)
      reads this
    {
      && (r.Error? && wasOpen ==> Next(before, Closed(r.errno)))
      && (r == Bytes(unsent) && hasAllDataSentCb ==> Next(before, AllDataSent))
      && (!r.Error? && unsent > (if r.Bytes? then r.n else 0) ==> log == before && sending && interest == InOut)
    }

    ghost predicate ReceiveHandled(r: SysResult, wasOpen: bool, before: seq<Callback>)
      reads this
    {
      match r
      case Again => log == before
      case Error(errno) => wasOpen ==> Next(before, Closed(errno))
      case Bytes(n) => if n > 0 then Next(before, DataReceived) else wasOpen ==> Next(before, Closed(0))
    }

    // The client hears of it next.
    ghost predicate ToldOf(r: SysResult, before: seq<Callback>)
      reads this`log
    {
      match r
      case Again => true
      case Error(errno) => Next(before, Closed(errno))
      case Bytes(n) => Next(before, if n > 0 then DataReceived else Closed(0))
    }

    // Connects to a remote address.
    constructor Connect(hasEstablishedCb: bool, hasAllDataSentCb: bool, onData: Option<seq<Action>>,
                        script: seq<seq<Action>>)
      ensures Valid() && Calm() && Armed() && open && connecting && log == []
      ensures fresh(streams) && fresh(streams.kernel) && fresh(streams.input) && fresh(streams.output)
      ensures streams.writable == {} && streams.steps == [] && streams.kernel.sends == streams.kernel.receives == []
      ensures !streams.kernel.broken
      ensures this.script == plan == script && this.onData == onData
      ensures this.hasEstablishedCb == hasEstablishedCb && this.hasAllDataSentCb == hasAllDataSentCb
      ensures streams.AsFlow() == Flow([], [], []) && streams.kernel.accepted == []
    {
      this.hasEstablishedCb, this.hasAllDataSentCb, this.onData, this.script :=
        hasEstablishedCb, hasAllDataSentCb, onData, script;
      streams := new Streams();
      open, connecting, sending, interest, log, plan := true, true, false, InOut, [], script;
    }

    // Takes over an accepted connection.
    constructor Accept(hasAllDataSentCb: bool, onData: Option<seq<Action>>, script: seq<seq<Action>>)
      ensures Valid() && Calm() && Armed() && open && !connecting && log == []
      ensures fresh(streams) && fresh(streams.kernel) && fresh(streams.input) && fresh(streams.output)
      ensures streams.writable == {} && streams.steps == [] && streams.kernel.sends == streams.kernel.receives == []
      ensures !streams.kernel.broken
      ensures this.script == plan == script && this.onData == onData
      ensures !this.hasEstablishedCb && this.hasAllDataSentCb == hasAllDataSentCb
      ensures streams.AsFlow() == Flow([], [], []) && streams.kernel.accepted == []
    {
      this.hasEstablishedCb, this.hasAllDataSentCb, this.onData, this.script := false, hasAllDataSentCb, onData, script;
      streams := new Streams();
      open, connecting, sending, interest, log, plan := true, false, false, In, [], script;
    }

    // The client hears of something, and reacts.
    method Tell(cb: Callback)
      requires Intact(|log|, log + [cb]) && (open ==> !streams.kernel.broken)
      modifies this, streams, streams.kernel, streams.input, streams.output, streams.writable
      decreases |script|, 1
      ensures Valid() && fresh(streams.writable - old(streams.writable))
      ensures old(Calm()) ==> Calm()
      ensures old(Armed()) ==> Armed()
      ensures open ==> old(open)
      ensures !open && (old(open) || old(Unsent()) > 0) ==> Unsent() > 0
      ensures connecting == old(connecting) && old(log) <= log && |script| <= old(|script|)
      ensures streams.kernel.delivered == old(streams.kernel.delivered)
      ensures streams.kernel.receives == old(streams.kernel.receives)
      ensures old(streams.kernel.sends) <= streams.kernel.sends
      ensures old(streams.kernel.broken) || (old(open) && !open) ==> streams.kernel.broken
      ensures open && |streams.kernel.sends| == |old(streams.kernel.sends)| ==> Steady(old(sending), old(interest))
      ensures old(streams.steps) <= streams.steps && Owed() == old(Owed())
      ensures old(script) == [] ==> script == [] && streams.steps == old(streams.steps)
      ensures old(script) == [] ==> streams.AsFlow() == old(streams.AsFlow())
      ensures old(script == [] && Flowing()) ==> Flowing()
      ensures Next(old(log), cb)
    {
      log := log + [cb];
      ghost var at := CarryOut();
    }

    method CarryOut() returns (ghost at: seq<nat>)
      requires Intact(|log| - 1, log) && (open ==> !streams.kernel.broken)
      modifies this, streams, streams.kernel, streams.input, streams.output, streams.writable
      decreases |script|, 0
      ensures Valid() && fresh(streams.writable - old(streams.writable))
      ensures old(Calm()) ==> Calm()
      ensures old(Armed()) ==> Armed()
      ensures open ==> old(open)
      ensures !open && (old(open) || old(Unsent()) > 0) ==> Unsent() > 0
      ensures connecting == old(connecting) && old(log) <= log && |script| <= old(|script|)
      ensures streams.kernel.delivered == old(streams.kernel.delivered)
      ensures streams.kernel.receives == old(streams.kernel.receives)
      ensures old(streams.kernel.sends) <= streams.kernel.sends
      ensures old(streams.kernel.broken) || (old(open) && !open) ==> streams.kernel.broken
      ensures open && |streams.kernel.sends| == |old(streams.kernel.sends)| ==> Steady(old(sending), old(interest))
      ensures old(streams.steps) <= streams.steps && Owed() == old(Owed())
      ensures old(script) == [] ==> script == [] && streams.steps == old(streams.steps)
      ensures old(script) == [] ==> streams.AsFlow() == old(streams.AsFlow())
      ensures old(script == [] && Flowing()) ==> Flowing()
      // The first reaction left is carried out.
      ensures old(script) != [] ==>
        |script| < |old(script)| && DoneAt(old(script)[0], streams.steps, |old(streams.steps)|, at)
    {
      at := [];
      if script != [] {
        var actions := script[0];
        FirstReaction(script);
        script := script[1..];
        at := RunActions(actions);
      }
    }

    method RunActions(actions: seq<Action>) returns (ghost at: seq<nat>)
      requires Valid()
      modifies this, streams, streams.kernel, streams.input, streams.output, streams.writable
      decreases |script|, 7
      ensures Valid() && fresh(streams.writable - old(streams.writable))
      ensures old(Calm()) ==> Calm()
      ensures old(Armed()) ==> Armed()
      ensures open ==> old(open)
      ensures !open && (old(open) || old(Unsent()) > 0) ==> Unsent() > 0
      ensures connecting == old(connecting) && old(log) <= log && |script| <= old(|script|)
      ensures streams.kernel.delivered == old(streams.kernel.delivered)
      ensures streams.kernel.receives == old(streams.kernel.receives)
      ensures old(streams.kernel.sends) <= streams.kernel.sends
      ensures old(streams.kernel.broken) || (old(open) && !open) ==> streams.kernel.broken
      ensures open && |streams.kernel.sends| == |old(streams.kernel.sends)| ==> Steady(old(sending), old(interest))
      ensures old(streams.steps) <= streams.steps && Owed() == old(Owed()) + |actions|
      ensures DoneAt(actions, streams.steps, |old(streams.steps)|, at)
      ensures old(script) == [] ==> script == []
      ensures old(script) == [] && EchoOnly(actions) && old(streams.consumed == streams.appended) ==>
        streams.consumed == streams.appended
      ensures old(script) == [] && EchoOnly(actions) && EchoInput in actions ==>
        streams.consumed == streams.kernel.delivered
      ensures old(script) == [] && actions != [] && actions[|actions| - 1].StartSending? ==> Flowing()
    {
      at := [];
      ghost var level := streams.consumed == streams.appended;
      for i := 0 to |actions|
        invariant Valid() && fresh(streams.writable - old(streams.writable))
        invariant old(Calm()) ==> Calm()
        invariant old(Armed()) ==> Armed()
        invariant open ==> old(open)
        invariant !open && (old(open) || old(Unsent()) > 0) ==> Unsent() > 0
        invariant connecting == old(connecting) && old(log) <= log && |script| <= old(|script|)
        invariant streams.kernel.delivered == old(streams.kernel.delivered)
        invariant streams.kernel.receives == old(streams.kernel.receives)
        invariant old(streams.kernel.sends) <= streams.kernel.sends
        invariant old(streams.kernel.broken) || (old(open) && !open) ==> streams.kernel.broken
        invariant open && |streams.kernel.sends| == |old(streams.kernel.sends)| ==> Steady(old(sending), old(interest))
        invariant old(streams.steps) <= streams.steps && Owed() == old(Owed()) + i
        invariant DoneAt(actions[..i], streams.steps, |old(streams.steps)|, at)
        invariant old(script) == [] ==> script == []
        invariant old(script) == [] ==> EchoedAfter(actions, i, level, streams.AsFlow())
        invariant old(script) == [] && i > 0 && actions[i - 1].StartSending? ==> Flowing()
      {
        ghost var before, flow := streams.steps, streams.AsFlow();
        Do(actions[i]);
        if old(script) == [] {
          EchoesOneMore(actions, i, level, flow, streams.AsFlow());
        }
        DoneOneMore(actions, i, before, streams.steps, |old(streams.steps)|, at);
        at := at + [|before|];
      }
      assert actions[..|actions|] == actions;
    }

    method Do(action: Action)
      requires Valid()
      modifies this, streams, streams.kernel, streams.input, streams.output, streams.writable
      decreases |script|, 6
      ensures Valid() && fresh(streams.writable - old(streams.writable))
      ensures old(Calm()) ==> Calm()
      ensures old(Armed()) ==> Armed()
      ensures open ==> old(open)
      ensures !open && (old(open) || old(Unsent()) > 0) ==> Unsent() > 0
      ensures connecting == old(connecting) && old(log) <= log && |script| <= old(|script|)
      ensures streams.kernel.delivered == old(streams.kernel.delivered)
      ensures streams.kernel.receives == old(streams.kernel.receives)
      ensures old(streams.kernel.sends) <= streams.kernel.sends
      ensures old(streams.kernel.broken) || (old(open) && !open) ==> streams.kernel.broken
      ensures open && |streams.kernel.sends| == |old(streams.kernel.sends)| ==> Steady(old(sending), old(interest))
      ensures old(streams.steps) <= streams.steps && Owed() == old(Owed()) + 1
      ensures old(streams.steps) + [Did(action)] <= streams.steps
      ensures old(script) == [] ==> script == []
      // Only one of the actions sends.
      ensures !action.StartSending? ==> Steady(old(sending), old(interest)) && open == old(open) && log == old(log)
      ensures !action.StartSending? ==> streams.kernel.sends == old(streams.kernel.sends) && script == old(script)
      ensures old(script) == [] && action.StartSending? ==> Flowing()
      ensures old(script) == [] && Echoes(action) && old(streams.consumed == streams.appended) ==>
        streams.consumed == streams.appended
      ensures old(script) == [] && Echoes(action) && old(streams.consumed == streams.kernel.delivered) ==>
        streams.consumed == streams.kernel.delivered
      ensures old(script) == [] && action == EchoInput ==> streams.consumed == streams.kernel.delivered
    {
      streams.Do(action);
      if action.StartSending? {
        StartSending();
      }
    }

    method StartSending()
      requires Valid()
      modifies this, streams, streams.kernel, streams.input, streams.output, streams.writable
      decreases |script|, 5
      ensures Valid() && fresh(streams.writable - old(streams.writable))
      ensures old(Calm()) ==> Calm()
      ensures old(Armed()) ==> Armed()
      ensures open ==> old(open)
      ensures !open && (old(open) || old(Unsent()) > 0) ==> Unsent() > 0
      ensures connecting == old(connecting) && old(log) <= log && |script| <= old(|script|)
      ensures streams.kernel.delivered == old(streams.kernel.delivered)
      ensures streams.kernel.receives == old(streams.kernel.receives)
      ensures old(streams.kernel.sends) <= streams.kernel.sends
      ensures old(streams.kernel.broken) || (old(open) && !open) ==> streams.kernel.broken
      ensures open && |streams.kernel.sends| == |old(streams.kernel.sends)| ==> Steady(old(sending), old(interest))
      ensures old(streams.steps) <= streams.steps && Owed() == old(Owed())
      ensures old(script) == [] ==> script == [] && streams.steps == old(streams.steps)
      ensures old(script) == [] ==> streams.AsFlow() == old(streams.AsFlow())
      ensures old(script) == [] || log == old(log) ==> Flowing()
      ensures if old(!sending && !connecting && Unsent() > 0) then |streams.kernel.sends| > |old(streams.kernel.sends)|
        else Unmoved()
    {
      if !sending && !connecting && streams.output.usedSize > 0 {
        TrySend();
      }
    }

    method TrySend()
      requires Valid()
      modifies this, streams, streams.kernel, streams.input, streams.output, streams.writable
      decreases |script|, 4
      ensures Valid() && fresh(streams.writable - old(streams.writable))
      ensures old(Calm()) ==> Calm()
      ensures open ==> old(open)
      ensures !open && old(Unsent()) > 0 ==> Unsent() > 0
      ensures connecting == old(connecting) && old(log) <= log && |script| <= old(|script|)
      ensures streams.kernel.delivered == old(streams.kernel.delivered)
      ensures streams.kernel.receives == old(streams.kernel.receives)
      ensures old(streams.kernel.sends) <= streams.kernel.sends
      ensures old(streams.kernel.broken) || (old(open) && !open) ==> streams.kernel.broken
      ensures old(streams.steps) <= streams.steps && Owed() == old(Owed())
      ensures old(script) == [] ==> script == [] && streams.steps == old(streams.steps)
      ensures old(script) == [] ==> streams.AsFlow() == old(streams.AsFlow())
      ensures old(script) == [] || log == old(log) ==> Flowing()
      ensures |streams.kernel.sends| > |old(streams.kernel.sends)|
      ensures SendHandled(streams.kernel.sends[|old(streams.kernel.sends)|], old(Unsent()), old(open), old(log))
    {
      var r := streams.Send(open);
      if r.Error? {
        Close(r.errno);
      } else {
        AfterSend();
      }
    }

    // Asks for write events exactly if the kernel did not take everything.
    method AfterSend()
      requires streams.Valid() && Ordered(log) && InStep(|log|) && Remaining(script) && open && !streams.kernel.broken
      modifies this, streams, streams.kernel, streams.input, streams.output, streams.writable
      decreases |script|, 3
      ensures Valid() && fresh(streams.writable - old(streams.writable))
      ensures Calm()
      ensures !open ==> Unsent() > 0
      ensures connecting == old(connecting) && old(log) <= log && |script| <= old(|script|)
      ensures streams.kernel.delivered == old(streams.kernel.delivered)
      ensures streams.kernel.receives == old(streams.kernel.receives)
      ensures old(streams.kernel.sends) <= streams.kernel.sends
      ensures old(streams.kernel.broken) || (old(open) && !open) ==> streams.kernel.broken
      ensures old(streams.steps) <= streams.steps && Owed() == old(Owed())
      ensures old(script) == [] ==> script == [] && streams.steps == old(streams.steps)
      ensures old(script) == [] ==> streams.AsFlow() == old(streams.AsFlow())
      ensures old(script) == [] || log == old(log) ==> Flowing()
      ensures old(Unsent()) > 0 ==> open && sending && interest == InOut && log == old(log)
      ensures old(Unsent()) > 0 ==> Unsent() == old(Unsent()) && script == old(script)
      ensures old(Unsent()) == 0 && hasAllDataSentCb ==> Next(old(log), AllDataSent)
      ensures old(Unsent()) == 0 && !hasAllDataSentCb ==> open && !sending && interest == In && log == old(log)
    {
      if streams.output.usedSize > 0 {
        interest := InOut;
        sending := true;
      } else {
        interest := In;
        sending := false;
        OnAllDataSent();
      }
    }

    method OnAllDataSent()
      requires Valid() && open && !sending && interest == In && Unsent() == 0
      modifies this, streams, streams.kernel, streams.input, streams.output, streams.writable
      decreases |script|, 2
      ensures Valid() && fresh(streams.writable - old(streams.writable))
      ensures Calm()
      ensures !open ==> Unsent() > 0
      ensures connecting == old(connecting) && old(log) <= log && |script| <= old(|script|)
      ensures streams.kernel.delivered == old(streams.kernel.delivered)
      ensures streams.kernel.receives == old(streams.kernel.receives)
      ensures old(streams.kernel.sends) <= streams.kernel.sends
      ensures old(streams.kernel.broken) || (old(open) && !open) ==> streams.kernel.broken
      ensures old(streams.steps) <= streams.steps && Owed() == old(Owed())
      ensures old(script) == [] ==> script == [] && streams.steps == old(streams.steps)
      ensures old(script) == [] ==> streams.AsFlow() == old(streams.AsFlow())
      ensures old(script) == [] || log == old(log) ==> Flowing()
      ensures hasAllDataSentCb ==> Next(old(log), AllDataSent)
      ensures !hasAllDataSentCb ==> open && !sending && interest == In && log == old(log)
    {
      if hasAllDataSentCb {
        TellsOneMore(log, AllDataSent, connecting);
        Tell(AllDataSent);
      }
    }

    method Close(error: int)
      requires Intact(|log|, log)
      modifies this, streams, streams.kernel, streams.input, streams.output, streams.writable
      decreases |script|, 3
      ensures Valid() && fresh(streams.writable - old(streams.writable))
      ensures !open && Calm()
      ensures old(Unsent()) > 0 ==> Unsent() > 0
      ensures connecting == old(connecting) && old(log) <= log && |script| <= old(|script|)
      ensures streams.kernel.delivered == old(streams.kernel.delivered)
      ensures streams.kernel.receives == old(streams.kernel.receives)
      ensures old(streams.kernel.sends) <= streams.kernel.sends
      ensures old(streams.kernel.broken) ==> streams.kernel.broken
      ensures old(streams.steps) <= streams.steps && Owed() == old(Owed())
      ensures old(script) == [] ==> script == [] && streams.steps == old(streams.steps)
      ensures old(script) == [] ==> streams.AsFlow() == old(streams.AsFlow())
      ensures old(script) == [] || log == old(log) ==> Flowing()
      ensures old(open) ==> Next(old(log), Closed(error))
    {
      if open {
        interest := Unregistered;
        open := false;
        TellsOneMore(log, Closed(error), connecting);
        Tell(Closed(error));
      }
    }

    // The client sends back whatever it receives and does nothing else.
    ghost predicate EchoClient()
    {
      && onData.Some? && EchoOnly(onData.value) && EchoInput in onData.value
      && onData.value[|onData.value| - 1].StartSending?
    }

    ghost predicate Echoed()
      reads this, streams, streams.kernel, streams.output
    {
      !connecting && script == [] && streams.consumed == streams.kernel.delivered == streams.appended && Flowing()
    }

    method CheckConnectionEstablished(events: Events)
      requires Valid() && Calm() && Armed() && open
      modifies this, streams, streams.kernel, streams.input, streams.output, streams.writable
      ensures Valid() && fresh(streams.writable - old(streams.writable))
      ensures Calm() && Armed() && old(log) <= log
      ensures connecting <==> old(connecting) && !((events.input || events.output) && !(events.err || events.hup))
      ensures old(connecting) && !connecting && hasEstablishedCb ==> Next(old(log), Established)
      ensures Owed() == old(Owed())
      ensures connecting == old(connecting) ==> Unmoved()
      ensures streams.kernel.receives == old(streams.kernel.receives)
      ensures old(streams.kernel.sends) <= streams.kernel.sends
      ensures old(streams.kernel.broken) || (old(open) && !open) ==> streams.kernel.broken
      ensures EchoClient() && old(Echoed()) ==> Echoed()
    {
      if connecting && (events.input || events.output) && !(events.err || events.hup) {
        OnEstablished();
      }
    }

    method OnEstablished()
      requires Valid() && connecting && open
      modifies this, streams, streams.kernel, streams.input, streams.output, streams.writable
      ensures Valid() && fresh(streams.writable - old(streams.writable))
      ensures Calm() && !connecting && old(log) <= log
      ensures hasEstablishedCb ==> Next(old(log), Established)
      ensures !hasEstablishedCb ==> log == old(log) && script == old(script) && open
      ensures Owed() == old(Owed())
      ensures streams.kernel.receives == old(streams.kernel.receives)
      ensures old(streams.kernel.sends) <= streams.kernel.sends
      ensures old(streams.kernel.broken) || (old(open) && !open) ==> streams.kernel.broken
    {
      TellEstablished();
      // A descriptor closed meanwhile would be an error here, but closing it takes a failed
      // send, which leaves unsent output.
      DisarmIfIdle();
    }

    method TellEstablished()
      requires Valid() && connecting && open
      modifies this, streams, streams.kernel, streams.input, streams.output, streams.writable
      ensures Valid() && fresh(streams.writable - old(streams.writable))
      ensures !connecting && (!open ==> Unsent() > 0) && old(log) <= log
      ensures hasEstablishedCb ==> Next(old(log), Established)
      ensures !hasEstablishedCb ==> log == old(log) && script == old(script) && open
      ensures Owed() == old(Owed())
      ensures streams.kernel.receives == old(streams.kernel.receives)
      ensures old(streams.kernel.sends) <= streams.kernel.sends
      ensures old(streams.kernel.broken) || (old(open) && !open) ==> streams.kernel.broken
    {
      connecting := false;
      if hasEstablishedCb {
        TellsOneMore(log, Established, false);
        Tell(Established);
      }
    }

    method DisarmIfIdle()
      requires Valid() && !connecting && (Unsent() == 0 ==> open)
      modifies this`interest
      ensures Valid() && Calm()
    {
      if streams.output.usedSize == 0 {
        interest := In;
      }
    }

    method CheckIncomingData(events: Events)
      requires Valid() && Calm() && Armed()
      modifies this, streams, streams.kernel, streams.input, streams.output, streams.writable
      ensures Valid() && fresh(streams.writable - old(streams.writable))
      ensures Calm() && Armed() && old(log) <= log && connecting == old(connecting) && (open ==> old(open))
      ensures EchoClient() && old(Echoed()) ==> Echoed()
      ensures old(streams.kernel.sends) <= streams.kernel.sends
      ensures old(streams.kernel.broken) || (old(open) && !open) ==> streams.kernel.broken
      ensures open && |streams.kernel.sends| == |old(streams.kernel.sends)| ==> Steady(old(sending), old(interest))
      ensures Owed() == old(Owed()) + CostOfLast(|old(streams.kernel.receives)|)
      ensures old(streams.kernel.receives) <= streams.kernel.receives
      ensures !events.input ==> Unmoved()
      ensures events.input ==> |streams.kernel.receives| == |old(streams.kernel.receives)| + 1
      ensures events.input ==>
        ReceiveHandled(streams.kernel.receives[|old(streams.kernel.receives)|], old(open), old(log))
    {
      if events.input {
        var r := streams.ReceiveWithRoom(open);
        HandleReceived(r);
      }
    }

    method HandleReceived(r: SysResult)
      requires Intact(|log|, log) && Calm() && Armed() && (!open ==> r.Error?)
      requires if open then streams.kernel.broken <==> r.Error? || r == Bytes(0) else streams.kernel.broken
      modifies this, streams, streams.kernel, streams.input, streams.output, streams.writable
      ensures Valid() && fresh(streams.writable - old(streams.writable))
      ensures Calm() && Armed() && old(log) <= log && connecting == old(connecting) && (open ==> old(open))
      ensures EchoClient() && old(!connecting && script == [] && streams.consumed == streams.appended) ==>
        ((r.Bytes? && r.n > 0) || old(streams.consumed == streams.kernel.delivered && Flowing())) ==> Echoed()
      ensures old(streams.kernel.sends) <= streams.kernel.sends
      ensures old(streams.kernel.broken) || (old(open) && !open) ==> streams.kernel.broken
      ensures open && |streams.kernel.sends| == |old(streams.kernel.sends)| ==> Steady(old(sending), old(interest))
      ensures streams.kernel.receives == old(streams.kernel.receives)
      ensures Owed() + 1 == old(Owed()) + Cost(r)
      ensures ReceiveHandled(r, old(open), old(log))
    {
      match r
      case Error(errno) => Close(errno);
      case Again =>
      case Bytes(n) => if n == 0 { Close(0); } else { OnDataReceived(); }
    }

    method OnDataReceived()
      requires Valid() && Calm() && Armed() && open
      modifies this, streams, streams.kernel, streams.input, streams.output, streams.writable
      ensures Valid() && fresh(streams.writable - old(streams.writable))
      ensures Calm() && Armed() && old(log) <= log && connecting == old(connecting)
      ensures Next(old(log), DataReceived)
      ensures streams.kernel.delivered == old(streams.kernel.delivered)
      ensures streams.kernel.receives == old(streams.kernel.receives)
      ensures old(streams.kernel.sends) <= streams.kernel.sends
      ensures old(streams.kernel.broken) || (old(open) && !open) ==> streams.kernel.broken
      ensures open && |streams.kernel.sends| == |old(streams.kernel.sends)| ==> Steady(old(sending), old(interest))
      ensures Owed() == old(Owed()) + if onData.Some? then |onData.value| else 0
      ensures EchoClient() && old(!connecting && script == [] && streams.consumed == streams.appended) ==> Echoed()
    {
      TellsOneMore(log, DataReceived, connecting);
      if onData.Some? {
        log := log + [DataReceived];
        ReactAlike();
      } else {
        Tell(DataReceived);
      }
    }

    // The reaction of a client that always does the same.
    method ReactAlike()
      requires Valid() && onData.Some?
      modifies this, streams, streams.kernel, streams.input, streams.output, streams.writable
      ensures Valid() && fresh(streams.writable - old(streams.writable))
      ensures old(Calm()) ==> Calm()
      ensures old(Armed()) ==> Armed()
      ensures connecting == old(connecting) && old(log) <= log
      ensures streams.kernel.delivered == old(streams.kernel.delivered)
      ensures streams.kernel.receives == old(streams.kernel.receives)
      ensures old(streams.kernel.sends) <= streams.kernel.sends
      ensures old(streams.kernel.broken) || (old(open) && !open) ==> streams.kernel.broken
      ensures open && |streams.kernel.sends| == |old(streams.kernel.sends)| ==> Steady(old(sending), old(interest))
      ensures Owed() == old(Owed()) + |onData.value|
      ensures EchoClient() && old(!connecting && script == [] && streams.consumed == streams.appended) ==> Echoed()
    {
      ghost var at := RunActions(onData.value);
    }

    method CheckOutgoingData(events: Events)
      requires Valid() && Calm() && Armed()
      modifies this, streams, streams.kernel, streams.input, streams.output, streams.writable
      ensures Valid() && fresh(streams.writable - old(streams.writable))
      ensures Calm() && old(log) <= log && connecting == old(connecting) && (open ==> old(open))
      ensures Armed() || (connecting && events.output)
      ensures Owed() == old(Owed())
      ensures !(old(open) && events.output) ==> Unmoved()
      ensures streams.kernel.receives == old(streams.kernel.receives)
      ensures old(streams.kernel.sends) <= streams.kernel.sends
      ensures old(streams.kernel.broken) || (old(open) && !open) ==> streams.kernel.broken
      ensures old(open) && events.output ==> |streams.kernel.sends| > |old(streams.kernel.sends)|
      ensures EchoClient() && old(Echoed()) ==> Echoed()
    {
      if open && events.output {
        TrySend();
      }
    }

    method CheckConnectionClosed(events: Events)
      requires Valid() && Calm() && (Armed() || events.hup || events.err)
      modifies this, streams, streams.kernel, streams.input, streams.output, streams.writable
      ensures Valid() && fresh(streams.writable - old(streams.writable))
      ensures Calm() && Armed() && old(log) <= log && connecting == old(connecting) && (open ==> old(open))
      ensures events.hup || events.err ==> !open
      ensures !(events.hup || events.err) ==> Unmoved()
      ensures old(streams.kernel.broken) ==> streams.kernel.broken
      ensures Owed() == old(Owed())
      ensures streams.kernel.receives == old(streams.kernel.receives)
      ensures old(streams.kernel.sends) <= streams.kernel.sends
      ensures old(open) && (events.hup || events.err) ==>
        Next(old(log), Closed(if events.err then events.socketError else 0))
      ensures EchoClient() && old(Echoed()) ==> Echoed()
    {
      if open && (events.hup || events.err) {
        Close(if events.err then events.socketError else 0);
      }
    }

    // What the runner calls for a registered descriptor.
    method HandleEvents(events: Events)
      requires Valid() && Calm() && Armed() && open
      modifies this, streams, streams.kernel, streams.input, streams.output, streams.writable
      ensures Valid() && fresh(streams.writable - old(streams.writable))
      ensures Calm() && Armed() && old(log) <= log
      ensures events.hup || events.err ==> !open
      // It takes a failure, the end of the stream or one of these events to close the socket.
      ensures !open ==> events.hup || events.err || streams.kernel.broken
      ensures open && |streams.kernel.sends| == |old(streams.kernel.sends)| && connecting == old(connecting) ==>
        Steady(old(sending), old(interest))
      ensures connecting <==>
        old(connecting) && !((events.input || events.output) && !(events.err || events.hup))
      ensures old(connecting) && !connecting && hasEstablishedCb ==> Next(old(log), Established)
      ensures Owed() == old(Owed()) + CostOfLast(|old(streams.kernel.receives)|)
      ensures old(streams.kernel.receives) <= streams.kernel.receives
      ensures |streams.kernel.receives| == |old(streams.kernel.receives)| + if events.input then 1 else 0
      // What is received comes first, even before a hang-up.
      ensures events.input && connecting == old(connecting) ==>
        ToldOf(streams.kernel.receives[|old(streams.kernel.receives)|], old(log))
      ensures open && events.output ==> |streams.kernel.sends| > |old(streams.kernel.sends)|
      ensures EchoClient() && old(Echoed()) ==> Echoed()
    {
      CheckConnectionEstablished(events);
      HandleData(events);
      CheckConnectionClosed(events);
    }

    method HandleData(events: Events)
      requires Valid() && Calm() && Armed()
      modifies this, streams, streams.kernel, streams.input, streams.output, streams.writable
      ensures Valid() && fresh(streams.writable - old(streams.writable))
      ensures Calm() && old(log) <= log && connecting == old(connecting) && (open ==> old(open))
      ensures Armed() || (connecting && events.output)
      ensures Owed() == old(Owed()) + CostOfLast(|old(streams.kernel.receives)|)
      ensures old(streams.kernel.receives) <= streams.kernel.receives
      ensures |streams.kernel.receives| == |old(streams.kernel.receives)| + if events.input then 1 else 0
      ensures old(streams.kernel.sends) <= streams.kernel.sends
      ensures old(streams.kernel.broken) || (old(open) && !open) ==> streams.kernel.broken
      ensures open && |streams.kernel.sends| == |old(streams.kernel.sends)| ==> Steady(old(sending), old(interest))
      ensures open && events.output ==> |streams.kernel.sends| > |old(streams.kernel.sends)|
      ensures EchoClient() && old(Echoed()) ==> Echoed()
      ensures events.input && old(open) ==>
        ToldOf(streams.kernel.receives[|old(streams.kernel.receives)|], old(log))
    {
      CheckIncomingData(events);
      CheckOutgoingData(events);
    }
  }

  // What happens to a socket: events, and what its client does on its own account.
  datatype Input = Event(events: Events) | Act(action: Action)

  // How often the client does something on its own account, how many events say that there is
  // input, and whether one says that the connection is established or gone.
  datatype Total = Total(acts: nat, received: nat, established: bool, gone: bool) {
    ghost function And(input: Input): Total {
      match input
      case Act(_) => this.(acts := acts + 1)
      case Event(e) =>
        var lost, reached := e.hup || e.err, e.input || e.output;
        Total(acts, received + (if e.input then 1 else 0), established || (reached && !lost), gone || lost)
    }
  }

  ghost function Sum(inputs: seq<Input>): Total {
    if inputs == [] then Total(0, 0, false, false) else Sum(inputs[..|inputs| - 1]).And(inputs[|inputs| - 1])
  }

  lemma SumOneMore(inputs: seq<Input>, i: nat)
    requires i < |inputs|
    ensures Sum(inputs[..i + 1]) == Sum(inputs[..i]).And(inputs[i])
  {
    assert inputs[..i + 1][..i] == inputs[..i];
  }

  // A run with such inputs so far.
  ghost predicate SoFar(ss: StreamSocket, script: seq<seq<Action>>, connect: bool, sum: Total)
    reads ss, ss.streams, ss.streams.kernel, ss.streams.input, ss.streams.output
    reads Arrays(ss.streams.input.AsView().cells), Arrays(ss.streams.output.AsView().cells)
  {
    && ss.Valid() && ss.Calm() && ss.Armed()
    && ss.Owed() == Pending(script) + sum.acts + ss.Costs(ss.streams.kernel.receives)
    && (ss.open <==> !sum.gone && !ss.streams.kernel.broken)
    && |ss.streams.kernel.receives| <= sum.received && (ss.open ==> |ss.streams.kernel.receives| == sum.received)
    && (ss.open ==> (ss.connecting <==> connect && !sum.established))
  }

  method Take(ss: StreamSocket, input: Input, ghost script: seq<seq<Action>>, ghost connect: bool, ghost sum: Total)
    requires SoFar(ss, script, connect, sum)
    modifies ss, ss.streams, ss.streams.kernel, ss.streams.input, ss.streams.output, ss.streams.writable
    ensures SoFar(ss, script, connect, sum.And(input)) && fresh(ss.streams.writable - old(ss.streams.writable))
  {
    ghost var receives := ss.streams.kernel.receives;
    match input {
      case Event(events) =>
        if ss.open { ss.HandleEvents(events); }
      case Act(action) => ss.Do(action);
    }
    ss.CostsOneMore(receives);
  }

  method Drive(ss: StreamSocket, ghost script: seq<seq<Action>>, ghost connect: bool, inputs: seq<Input>)
    requires SoFar(ss, script, connect, Total(0, 0, false, false))
    modifies ss, ss.streams, ss.streams.kernel, ss.streams.input, ss.streams.output, ss.streams.writable
    ensures SoFar(ss, script, connect, Sum(inputs)) && fresh(ss.streams.writable - old(ss.streams.writable))
  {
    ghost var sum := Total(0, 0, false, false);
    for i := 0 to |inputs|
      invariant sum == Sum(inputs[..i])
      invariant SoFar(ss, script, connect, sum) && fresh(ss.streams.writable - old(ss.streams.writable))
    {
      SumOneMore(inputs, i);
      Take(ss, inputs[i], script, connect, sum);
      sum := sum.And(inputs[i]);
    }
    assert inputs[..|inputs|] == inputs;
  }

  // Over every run: the kernel has taken a prefix of what the client appended, and the rest is
  // in the output; write events are asked for while connecting or sending, and on an
  // established connection only while there is unsent output; the established callback comes
  // at most once, and the closed callback at most once and last; the socket is closed if and
  // only if the connection was gone, a send or receive failed, or the stream ended; and until
  // then every event with input has led to a receive.
  method Run(connect: bool, hasEstablishedCb: bool, hasAllDataSentCb: bool, onData: Option<seq<Action>>,
             script: seq<seq<Action>>, inputs: seq<Input>) returns (ss: StreamSocket)
    ensures ss.Valid()
    ensures ss.streams.kernel.accepted + ss.streams.output.Content() == ss.streams.appended
    ensures ss.streams.consumed + ss.streams.input.Content() == ss.streams.kernel.delivered
    ensures ss.streams.AsFlow() == Replay(ss.streams.steps)
    ensures |ss.streams.steps| + Pending(ss.script) ==
      Pending(script) + Sum(inputs).acts + ss.Costs(ss.streams.kernel.receives)
    ensures ss.open <==> !Sum(inputs).gone && !Breaks(ss.streams.kernel.sends, ss.streams.kernel.receives)
    ensures ss.open ==> |ss.streams.kernel.receives| == Sum(inputs).received
    ensures ss.open ==> (ss.connecting <==> connect && !Sum(inputs).established)
    ensures ss.open && (ss.connecting || ss.sending) ==> ss.interest == InOut
    ensures ss.open && !ss.connecting && ss.interest == InOut ==> ss.streams.output.Content() != []
    ensures forall i, j :: 0 <= i < j < |ss.log| ==> !ss.log[i].Closed? && !(ss.log[i] == ss.log[j] == Established)
    ensures ss.open <==> ss.interest != Unregistered
    ensures ss.hasAllDataSentCb == hasAllDataSentCb && (ss.hasEstablishedCb <==> connect && hasEstablishedCb)
  {
    if connect {
      ss := new StreamSocket.Connect(hasEstablishedCb, hasAllDataSentCb, onData, script);
    } else {
      ss := new StreamSocket.Accept(hasAllDataSentCb, onData, script);
    }
    Drive(ss, script, connect, inputs);
    TraceIsReplay(ss.streams.flows, ss.streams.steps);
  }
}
