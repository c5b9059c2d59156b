/**
 The non-blocking socket for sequential packets: sending, queueing and closing. Clients are
 finite scripts of reactions to the callbacks, and the kernel's answers are a script as well.
 */
module SeqPacketSockets {
  import opened Basics
  import opened SocketEvents

  // Data and ancillary data of a packet.
  datatype Packet = Packet(data: seq<byte>, cm: seq<byte>)

  // What sendmsg() or recvmsg() does with a packet: transfers the whole of it, would block, or
  // fails.
  datatype Answer = Done | Again | Failed(errno: int)

  const EBADF: int := 9

  // How many packets leave the front of a queue with these answers: an empty one never does.
  function Taken(queue: seq<Packet>, answers: seq<Answer>): (n: nat)
    ensures n <= |queue| && n <= |answers|
    decreases |queue|
  {
    if queue == [] || answers == [] || !answers[0].Done? || queue[0].data == [] then 0
    else 1 + Taken(queue[1..], answers[1..])
  }

  function Rest(answers: seq<Answer>): seq<Answer> {
    if answers == [] then [] else answers[1..]
  }

  function AnswerAt(answers: seq<Answer>, n: nat): Answer {
    if n < |answers| then answers[n] else Again
  }

  // n packets have left the queue, with that many answers.
  ghost predicate TakenSoFar(queue: seq<Packet>, answers: seq<Answer>, n: nat, left: seq<Packet>, more: seq<Answer>) {
    && n <= |queue| && n <= |answers| && left == queue[n..] && more == answers[n..]
    && Taken(queue, answers) == n + Taken(left, more)
  }

  lemma TakesOneMore(queue: seq<Packet>, answers: seq<Answer>, n: nat, before: seq<Packet>)
    requires n < |queue| && n < |answers| && TakenSoFar(queue, answers, n, queue[n..], answers[n..])
    requires answers[n].Done? && queue[n].data != []
    ensures TakenSoFar(queue, answers, n + 1, queue[n..][1..], answers[n..][1..])
    ensures before + queue[..n] + [queue[n]] == before + queue[..n + 1]
  {
    assert queue[n..][1..] == queue[n + 1..] && answers[n..][1..] == answers[n + 1..];
  }

  lemma StopsHere(queue: seq<Packet>, answers: seq<Answer>, n: nat, left: seq<Packet>, more: seq<Answer>)
    requires TakenSoFar(queue, answers, n, left, more) && left != []
    requires more == [] || !more[0].Done? || left[0].data == []
    ensures Taken(queue, answers) == n < |queue|
    ensures AnswerAt(answers, n) == if more == [] then Again else more[0]
  {
  }

  // The first packet goes if the kernel takes it, empty or not.
  lemma FirstGoes(queue: seq<Packet>, answers: seq<Answer>, before: seq<Packet>)
    requires queue != []
    ensures var n := Taken(queue, answers);
      && (n == 0 ==> before + queue[..n] == before && queue[n..] == queue)
      && (n > 0 ==> before + [queue[0]] <= before + queue[..n] <= before + queue)
  {
    var n := Taken(queue, answers);
    if n > 0 {
      assert queue[..n][0] == queue[0];
    }
  }

  ghost predicate NoneEmpty(packets: seq<Packet>) {
    forall p :: p in packets ==> p.data != []
  }

  // How many packets were accepted without counting the extra times.
  ghost function Firsts(accepted: seq<Packet>, extra: nat): int {
    |accepted| - extra
  }

  ghost predicate SameAt(a: seq<Packet>, b: seq<Packet>, shift: int, k: int) {
    0 <= k < |a| && 0 <= shift + k < |b| && a[k] == b[shift + k]
  }

  ghost predicate IsAt(a: seq<Packet>, k: int, p: Packet) {
    0 <= k < |a| && a[k] == p
  }

  // Each time the kernel takes an empty packet, it stays in front of the queue: it has been
  // accepted once too often.
  ghost predicate Keeps(passed: seq<Packet>, accepted: seq<Packet>, extra: nat, queue: seq<Packet>) {
    && extra <= |accepted| <= |passed| + extra
    && (forall k :: 0 <= k < |accepted| - extra ==> SameAt(accepted, passed, 0, k))
    && (extra > 0 ==> queue != [] && queue[0].data == [])
    && (forall k :: |accepted| - extra <= k < |accepted| ==> IsAt(accepted, k, queue[0]))
  }

  // Apart from that, no packet is lost, duplicated or reordered.
  ghost predicate Waiting(passed: seq<Packet>, accepted: seq<Packet>, extra: nat, queue: seq<Packet>) {
    && extra <= |accepted| && |accepted| - extra + |queue| == |passed|
    && forall k :: 0 <= k < |queue| ==> SameAt(queue, passed, Firsts(accepted, extra), k)
  }

  lemma WaitsBehind(passed: seq<Packet>, accepted: seq<Packet>, extra: nat, queue: seq<Packet>, p: Packet)
    requires Keeps(passed, accepted, extra, queue)
    ensures Keeps(passed + [p], accepted, extra, queue) && Keeps(passed + [p], accepted, extra, queue + [p])
    ensures Waiting(passed, accepted, extra, queue) ==> Waiting(passed + [p], accepted, extra, queue + [p])
  {
    forall k | 0 <= k < |accepted| - extra ensures SameAt(accepted, passed + [p], 0, k) {
      assert SameAt(accepted, passed, 0, k);
    }
    forall k | |accepted| - extra <= k < |accepted| ensures IsAt(accepted, k, (queue + [p])[0]) {
      assert IsAt(accepted, k, queue[0]);
    }
    if Waiting(passed, accepted, extra, queue) {
      forall k | 0 <= k < |queue + [p]| ensures SameAt(queue + [p], passed + [p], Firsts(accepted, extra), k) {
        assert k < |queue| ==> SameAt(queue, passed, Firsts(accepted, extra), k);
      }
    }
  }

  // The kernel takes the first packet, which leaves the queue or stays.
  lemma TakesFirst(passed: seq<Packet>, accepted: seq<Packet>, extra: nat, queue: seq<Packet>)
    requires Keeps(passed, accepted, extra, queue) && Waiting(passed, accepted, extra, queue) && queue != []
    ensures var more := accepted + [queue[0]];
      if queue[0].data == [] then Keeps(passed, more, extra + 1, queue) && Waiting(passed, more, extra + 1, queue)
      else Keeps(passed, more, extra, queue[1..]) && Waiting(passed, more, extra, queue[1..])
  {
    var more := accepted + [queue[0]];
    assert SameAt(queue, passed, Firsts(accepted, extra), 0);
    forall k | 0 <= k < |accepted| - extra ensures SameAt(more, passed, 0, k) {
      assert SameAt(accepted, passed, 0, k);
    }
    if queue[0].data == [] {
      forall k | |accepted| - extra <= k < |more| ensures IsAt(more, k, queue[0]) {
        assert k < |accepted| ==> IsAt(accepted, k, queue[0]);
      }
      assert Firsts(more, extra + 1) == Firsts(accepted, extra);
    } else {
      assert SameAt(more, passed, 0, |accepted|);
      forall k | 0 <= k < |queue[1..]| ensures SameAt(queue[1..], passed, Firsts(more, extra), k) {
        assert SameAt(queue, passed, Firsts(accepted, extra), k + 1);
      }
    }
  }

  lemma AllThere(passed: seq<Packet>, accepted: seq<Packet>, queue: seq<Packet>)
    requires Keeps(passed, accepted, 0, queue) && Waiting(passed, accepted, 0, queue)
    ensures accepted + queue == passed
  {
    forall k | 0 <= k < |passed| ensures (accepted + queue)[k] == passed[k] {
      if k < |accepted| {
        assert SameAt(accepted, passed, 0, k);
      } else {
        assert SameAt(queue, passed, Firsts(accepted, 0), k - |accepted|);
      }
    }
  }

  // With nothing in the queue, a packet is taken, or waits.
  lemma TakenAtOnce(passed: seq<Packet>, accepted: seq<Packet>, p: Packet)
    requires Keeps(passed, accepted, 0, []) && Waiting(passed, accepted, 0, [])
    ensures Keeps(passed + [p], accepted, 0, []) && Keeps(passed + [p], accepted, 0, [p])
    ensures Waiting(passed + [p], accepted, 0, [p])
    ensures p.data != [] ==>
      Keeps(passed + [p], accepted + [p], 0, []) && Waiting(passed + [p], accepted + [p], 0, [])
    ensures p.data == [] ==>
      Keeps(passed + [p], accepted + [p], 1, [p]) && Waiting(passed + [p], accepted + [p], 1, [p])
  {
    WaitsBehind(passed, accepted, 0, [], p);
    assert [] + [p] == [p] && [p][1..] == [];
    TakesFirst(passed + [p], accepted, 0, [p]);
  }

  // The packets the client sends in these reactions.
  ghost function Pending(script: seq<seq<Packet>>): nat {
    if script == [] then 0 else |script[0]| + Pending(script[1..])
  }

  // Among the packets passed on from some point on are these, in order.
  ghost predicate PassedAt(packets: seq<Packet>, passed: seq<Packet>, from: nat, at: seq<nat>) {
    && |at| == |packets| && (forall i :: 0 <= i < |at| ==> from <= at[i] < |passed| && passed[at[i]] == packets[i])
    && (forall i, j :: 0 <= i < j < |at| ==> at[i] < at[j])
  }

  lemma PassesOneMore(packets: seq<Packet>, i: nat, before: seq<Packet>, after: seq<Packet>, from: nat, at: seq<nat>)
    requires i < |packets| && PassedAt(packets[..i], before, from, at) && from <= |before|
    requires before + [packets[i]] <= after
    ensures PassedAt(packets[..i + 1], after, from, at + [|before|])
  {
    assert after[|before|] == (before + [packets[i]])[|before|];
  }

  lemma {:induction false} AtLeast(packets: seq<Packet>, passed: seq<Packet>, from: nat, at: seq<nat>, i: nat)
    requires PassedAt(packets, passed, from, at) && i < |at|
    ensures from + i <= at[i]
  {
    if i > 0 {
      AtLeast(packets, passed, from, at, i - 1);
    }
  }

  lemma {:induction false} AtMost(packets: seq<Packet>, passed: seq<Packet>, from: nat, at: seq<nat>, i: nat)
    requires PassedAt(packets, passed, from, at) && i < |at|
    ensures at[i] + |at| <= |passed| + i
    decreases |at| - i
  {
    if i < |at| - 1 {
      AtMost(packets, passed, from, at, i + 1);
    }
  }

  // If so many packets were passed on, it was these.
  lemma PassedExactly(packets: seq<Packet>, before: seq<Packet>, after: seq<Packet>, at: seq<nat>)
    requires before <= after && |after| == |before| + |packets| && PassedAt(packets, after, |before|, at)
    ensures after == before + packets
  {
    forall i | 0 <= i < |packets| ensures after[|before| + i] == packets[i] {
      AtLeast(packets, after, |before|, at, i);
      AtMost(packets, after, |before|, at, i);
    }
  }

  // No client is going to send an empty packet in a callback.
  ghost predicate Polite(script: seq<seq<Packet>>) {
    forall packets :: packets in script ==> NoneEmpty(packets)
  }

  ghost predicate Fails(answers: seq<Answer>) {
    exists k :: 0 <= k < |answers| && answers[k].Failed?
  }

  lemma FailsOneMore(answers: seq<Answer>, r: Answer)
    ensures Fails(answers + [r]) <==> Fails(answers) || r.Failed?
  {
    assert (answers + [r])[|answers|] == r;
    assert forall k :: 0 <= k < |answers| ==> (answers + [r])[k] == answers[k];
  }

  class SeqPacketSocket {
    const hasEstablishedCb: bool
    const hasAllDataSentCb: bool
    var open: bool
    var connecting: bool
    var sending: bool
    var interest: Interest
    var outputQueue: seq<Packet>
    // The packets the client sends in the callbacks to come.
    var script: seq<seq<Packet>>
    // The answers of the kernel to come; later ones are Again.
    var kernel: seq<Answer>
    // The packets passed to send() while open, and those the kernel has taken.
    ghost var passed: seq<Packet>
    ghost var accepted: seq<Packet>
    // How often the kernel has taken an empty packet.
    ghost var extra: nat
    ghost var log: seq<Callback>
    // The answers so far, those to receive calls, and whether one was a failure.
    ghost var answered: seq<Answer>
    ghost var received: seq<Answer>
    ghost var failed: bool

    ghost predicate Kept()
      reads this`passed, this`accepted, this`extra, this`outputQueue
    {
      Keeps(passed, accepted, extra, outputQueue)
    }

    ghost predicate Conserved()
      reads this`passed, this`accepted, this`extra, this`outputQueue, this`open
    {
      Kept() && (open ==> Waiting(passed, accepted, extra, outputQueue))
    }

    lemma ExactlyOnce()
      requires Conserved() && open
      ensures accepted + outputQueue == passed <==> extra == 0
    {
      if extra == 0 {
        AllThere(passed, accepted, outputQueue);
      }
    }

    lemma AcceptedFirst()
      requires Kept() && extra == 0
      ensures accepted <= passed
    {
      forall k | 0 <= k < |accepted| ensures accepted[k] == passed[k] {
        assert SameAt(accepted, passed, 0, k);
      }
    }

    // The packets passed on, and those to come by the script.
    ghost function Owed(): nat
      reads this`passed, this`script
    {
      |passed| + Pending(script)
    }

    // No empty packets have been or are going to be sent.
    ghost predicate NonEmpty()
      reads this`extra, this`outputQueue, this`script
    {
      extra == 0 && NoneEmpty(outputQueue) && Polite(script)
    }

    // The registration, the callbacks and the answers so far agree with the state.
    ghost predicate Ordered()
      reads this`open, this`interest, this`connecting, this`log, this`answered, this`failed
    {
      && (open <==> interest != Unregistered) && Told(log, open, connecting)
      && (failed <==> Fails(answered))
    }

    // Nothing happens at all.
    twostate predicate Unmoved()
      reads this
    {
      && open == old(open) && connecting == old(connecting) && interest == old(interest) && script == old(script)
      && kernel == old(kernel) && answered == old(answered) && failed == old(failed)
      && Untouched(old(outputQueue), old(sending), old(passed), old(accepted), old(extra)) && log == old(log)
    }

    ghost predicate Valid()
      reads this
    {
      && Ordered() && Conserved()
      && (open ==> (sending <==> outputQueue != []) && (sending ==> interest == InOut) && !failed)
    }

    // Write events are asked for exactly while the connection is being established or there
    // is something to send.
    ghost predicate Quiet()
      reads this`open, this`interest, this`connecting, this`sending
    {
      open ==> (interest == InOut <==> connecting || sending)
    }

    function NextAnswer(): Answer
      reads this`kernel
    {
      if kernel == [] then Again else kernel[0]
    }

    // The callback right after those so far.
    ghost predicate Next(before: seq<Callback>, cb: Callback)
      reads this`log
    {
      |before| < |log| && log[|before|] == cb
    }

    constructor Connect(hasEstablishedCb: bool, hasAllDataSentCb: bool, script: seq<seq<Packet>>, kernel: seq<Answer>)
      ensures Valid() && Quiet() && open && connecting && outputQueue == [] && passed == accepted == [] && extra == 0
      ensures this.script == script && this.kernel == kernel
      ensures this.hasEstablishedCb == hasEstablishedCb && this.hasAllDataSentCb == hasAllDataSentCb
      ensures received == [] && !failed
    {
      this.hasEstablishedCb, this.hasAllDataSentCb := hasEstablishedCb, hasAllDataSentCb;
      this.script, this.kernel := script, kernel;
      open, connecting, sending, interest, outputQueue := true, true, false, InOut, [];
      passed, accepted, extra, log, answered, received, failed := [], [], 0, [], [], [], false;
    }

    constructor Accept(hasAllDataSentCb: bool, script: seq<seq<Packet>>, kernel: seq<Answer>)
      ensures Valid() && Quiet() && open && !connecting && outputQueue == [] && passed == accepted == [] && extra == 0
      ensures this.script == script && this.kernel == kernel
      ensures !this.hasEstablishedCb && this.hasAllDataSentCb == hasAllDataSentCb
      ensures received == [] && !failed
    {
      this.hasEstablishedCb, this.hasAllDataSentCb, this.script, this.kernel := false, hasAllDataSentCb, script, kernel;
      open, connecting, sending, interest, outputQueue := true, false, false, In, [];
      passed, accepted, extra, log, answered, received, failed := [], [], 0, [], [], [], false;
    }

    // The kernel answers a system call; a closed descriptor is an error.
    method SystemCall() returns (r: Answer)
      requires Ordered()
      modifies this`kernel, this`answered, this`failed
      ensures Ordered() && answered == old(answered) + [r] && (failed <==> old(failed) || r.Failed?)
      ensures !open ==> r == Failed(EBADF) && kernel == old(kernel)
      ensures open ==> r == old(NextAnswer()) && kernel == Rest(old(kernel))
    {
      r := if open then NextAnswer() else Failed(EBADF);
      if open {
        kernel := Rest(kernel);
      }
      FailsOneMore(answered, r);
      answered, failed := answered + [r], failed || r.Failed?;
    }

    // The client's reaction to a callback.
    method React() returns (ghost at: seq<nat>)
      requires Valid()
      modifies this
      decreases |script|, 0
      ensures Valid() && |script| <= |old(script)| && old(log) <= log && connecting == old(connecting)
      ensures old(Quiet()) ==> Quiet()
      ensures old(NonEmpty()) ==> NonEmpty()
      ensures open ==> old(open)
      ensures old(open && sending) ==> open && sending
      ensures old(accepted) <= accepted && old(passed) <= passed
      ensures old(open) && !open ==> !sending
      ensures !old(open) ==> Untouched(old(outputQueue), old(sending), old(passed), old(accepted), old(extra))
      ensures old(script) == [] || old(script)[0] == [] ==> open == old(open)
      ensures old(script) == [] || old(script)[0] == [] ==>
        Untouched(old(outputQueue), old(sending), old(passed), old(accepted), old(extra))
      ensures old(script) == [] ==> script == [] && log == old(log) && interest == old(interest)
      ensures old(script != [] && script[0] != [] && open && Idle() && NextAnswer().Failed?) ==> !open
      // What the client sends is passed on.
      ensures old(script != [] && script[0] != [] && open) ==> old(passed + [script[0][0]]) <= passed
      ensures old(script) != [] && open ==> PassedAt(old(script[0]), passed, |old(passed)|, at)
      ensures |old(script)| == 1 && open ==> passed == old(passed + script[0])
      ensures Owed() <= old(Owed()) && (open ==> Owed() == old(Owed()))
      ensures received == old(received) && (old(failed) || (old(open) && !open) ==> failed)
    {
      at := [];
      if script != [] {
        var packets := script[0];
        assert packets in script;
        script := script[1..];
        at := SendAll(packets);
      }
    }

    predicate Idle()
      reads this`sending, this`connecting
    {
      !sending && !connecting
    }

    ghost predicate Same(outputQueue: seq<Packet>, accepted: seq<Packet>, log: seq<Callback>)
      reads this`outputQueue, this`accepted, this`log
    {
      this.outputQueue == outputQueue && this.accepted == accepted && this.log == log
    }

    ghost predicate Untouched(outputQueue: seq<Packet>, sending: bool, passed: seq<Packet>, accepted: seq<Packet>,
                              extra: nat)
      reads this`outputQueue, this`sending, this`passed, this`accepted, this`extra
    {
      && this.outputQueue == outputQueue && this.sending == sending
      && this.passed == passed && this.accepted == accepted && this.extra == extra
    }

    method SendAll(packets: seq<Packet>) returns (ghost at: seq<nat>)
      requires Valid()
      modifies this
      decreases |script|, 6
      ensures Valid() && |script| <= |old(script)| && old(log) <= log && connecting == old(connecting)
      ensures old(Quiet()) ==> Quiet()
      ensures old(NonEmpty()) && NoneEmpty(packets) ==> NonEmpty()
      ensures open ==> old(open)
      ensures old(open && sending) ==> open && sending
      ensures old(accepted) <= accepted && old(passed) <= passed
      ensures old(open) && !open ==> !sending
      ensures !old(open) ==> Untouched(old(outputQueue), old(sending), old(passed), old(accepted), old(extra))
      ensures packets == [] ==> open == old(open)
      ensures packets == [] ==> Untouched(old(outputQueue), old(sending), old(passed), old(accepted), old(extra))
      ensures packets != [] && old(open && Idle() && NextAnswer().Failed?) ==> !open
      ensures packets != [] && old(open) ==> old(passed) + [packets[0]] <= passed
      ensures old(script) == [] && open ==> passed == old(passed) + packets
      ensures Owed() <= old(Owed()) + |packets| && (open ==> Owed() == old(Owed()) + |packets|)
      ensures open ==> PassedAt(packets, passed, |old(passed)|, at)
      ensures received == old(received) && (old(failed) || (old(open) && !open) ==> failed)
    {
      at := [];
      for i := 0 to |packets|
        invariant Valid() && |script| <= |old(script)| && old(log) <= log && connecting == old(connecting)
        invariant old(Quiet()) ==> Quiet()
        invariant old(NonEmpty()) && NoneEmpty(packets) ==> NonEmpty()
        invariant open ==> old(open)
        invariant old(open && sending) ==> open && sending
        invariant old(accepted) <= accepted && old(passed) <= passed
        invariant old(open) && !open ==> !sending
        invariant !old(open) ==> Untouched(old(outputQueue), old(sending), old(passed), old(accepted), old(extra))
        invariant i == 0 ==> open == old(open) && kernel == old(kernel)
        invariant i == 0 ==> Untouched(old(outputQueue), old(sending), old(passed), old(accepted), old(extra))
        invariant i > 0 && old(open && Idle() && NextAnswer().Failed?) ==> !open
        invariant i > 0 && old(open) ==> old(passed) + [packets[0]] <= passed
        invariant old(script) == [] ==> script == []
        invariant received == old(received) && (old(failed) || (old(open) && !open) ==> failed)
        invariant Owed() <= old(Owed()) + i && (open ==> Owed() == old(Owed()) + i)
        invariant open ==> PassedAt(packets[..i], passed, |old(passed)|, at)
      {
        ghost var before := passed;
        Send(packets[i]);
        if open {
          PassesOneMore(packets, i, before, passed, |old(passed)|, at);
        }
        at := at + [|before|];
      }
      assert packets[..|packets|] == packets;
      if old(script) == [] && open {
        PassedExactly(packets, old(passed), passed, at);
      }
    }

    method Send(p: Packet)
      requires Valid()
      modifies this
      decreases |script|, 5
      ensures Valid() && |script| <= |old(script)| && old(log) <= log && connecting == old(connecting)
      ensures old(Quiet()) ==> Quiet()
      ensures old(NonEmpty()) && p.data != [] ==> NonEmpty()
      ensures open ==> old(open)
      ensures old(open && sending) ==> open && sending
      ensures old(accepted) <= accepted && old(passed) <= passed
      ensures old(open) && !open ==> !sending
      // Nothing happens if the connection is closed.
      ensures !old(open) ==> Untouched(old(outputQueue), old(sending), old(passed), old(accepted), old(extra))
      ensures old(open) ==> old(passed) + [p] <= passed
      ensures old(open && script == []) ==> script == [] && passed == old(passed) + [p]
      // The packet waits in the queue.
      ensures old(open && (sending || connecting)) ==>
        passed == old(passed) + [p] && Same(old(outputQueue) + [p], old(accepted), old(log))
      ensures old(open && Idle() && NextAnswer().Again?) ==>
        passed == old(passed) + [p] && Same([p], old(accepted), old(log)) && extra == 0
      // The kernel takes it; an empty one waits in the queue all the same.
      ensures old(open && Idle() && NextAnswer().Done?) && p.data == [] ==>
        passed == old(passed) + [p] && Same([p], old(accepted) + [p], old(log)) && extra == 1
      ensures old(open && (!Idle() || NextAnswer().Again? || (NextAnswer().Done? && p.data == []))) ==>
        open && kernel == if old(Idle()) then Rest(old(kernel)) else old(kernel)
      ensures old(open && Idle() && NextAnswer().Done?) ==> old(accepted) + [p] <= accepted
      ensures old(open && Idle() && NextAnswer().Done?) && p.data != [] && hasAllDataSentCb ==>
        Next(old(log), AllDataSent)
      ensures old(open && Idle() && NextAnswer().Done?) && p.data != [] && !hasAllDataSentCb ==>
        outputQueue == [] && accepted == old(accepted) + [p] && log == old(log)
      // The kernel refuses it.
      ensures old(open && Idle() && NextAnswer().Failed?) ==>
        !open && accepted == old(accepted) && Next(old(log), Closed(old(NextAnswer()).errno))
      ensures Owed() <= old(Owed()) + 1 && (open ==> Owed() == old(Owed()) + 1)
      ensures received == old(received) && (old(failed) || (old(open) && !open) ==> failed)
    {
      if sending || connecting {
        SendLater(p);
      } else {
        SendAtOnce(p);
      }
    }

    method SendLater(p: Packet)
      requires Valid() && (sending || connecting)
      modifies this`passed, this`sending, this`outputQueue, this`interest
      ensures Valid() && (old(Quiet()) ==> Quiet())
      ensures old(NonEmpty()) && p.data != [] ==> NonEmpty()
      ensures open ==> passed == old(passed) + [p] && outputQueue == old(outputQueue) + [p] && sending
      ensures !open ==> Untouched(old(outputQueue), old(sending), old(passed), old(accepted), old(extra))
      ensures Owed() <= old(Owed()) + 1 && (open ==> Owed() == old(Owed()) + 1)
    {
      if open {
        WaitsBehind(passed, accepted, extra, outputQueue, p);
        passed := passed + [p];
        Queue(p);
      }
    }

    method SendAtOnce(p: Packet)
      requires Valid() && !sending && !connecting
      modifies this
      decreases |script|, 4
      ensures Valid() && |script| <= |old(script)| && old(log) <= log && !connecting
      ensures old(Quiet()) ==> Quiet()
      ensures old(NonEmpty()) && p.data != [] ==> NonEmpty()
      ensures open ==> old(open)
      ensures old(accepted) <= accepted && old(passed) <= passed
      ensures !open ==> !sending
      ensures !old(open) ==> Untouched(old(outputQueue), old(sending), old(passed), old(accepted), old(extra))
      ensures old(open) ==> old(passed) + [p] <= passed
      ensures old(open && script == []) ==> script == [] && passed == old(passed) + [p]
      ensures old(open && !NextAnswer().Failed?) && (p.data == [] || old(NextAnswer().Again?)) ==>
        open && outputQueue == [p] && passed == old(passed) + [p] && log == old(log)
        && kernel == Rest(old(kernel))
      ensures old(open && NextAnswer().Again?) ==> accepted == old(accepted) && extra == 0
      ensures old(open && NextAnswer().Done?) ==> old(accepted) + [p] <= accepted
      ensures old(open && NextAnswer().Done?) && p.data == [] ==> accepted == old(accepted) + [p] && extra == 1
      ensures old(open && NextAnswer().Done?) && p.data != [] && hasAllDataSentCb ==> Next(old(log), AllDataSent)
      ensures old(open && NextAnswer().Done?) && p.data != [] && !hasAllDataSentCb ==>
        outputQueue == [] && accepted == old(accepted) + [p] && log == old(log)
      ensures old(open && NextAnswer().Failed?) ==>
        !open && accepted == old(accepted) && Next(old(log), Closed(old(NextAnswer()).errno))
      ensures Owed() <= old(Owed()) + 1 && (open ==> Owed() == old(Owed()) + 1)
      ensures received == old(received) && (old(failed) || (old(open) && !open) ==> failed)
    {
      if open {
        TakenAtOnce(passed, accepted, p);
        passed := passed + [p];
      }
      var sent := TrySendFast(p);
      if sent {
        OnAllDataSent();
      } else if open {
        Queue(p);
      }
    }

    // Tells the client that all data is sent.
    method OnAllDataSent()
      requires Valid() && open && outputQueue == []
      modifies this
      decreases |script|, 1
      ensures Valid() && |script| <= |old(script)| && old(log) <= log && connecting == old(connecting)
      ensures old(Quiet()) ==> Quiet()
      ensures old(NonEmpty()) ==> NonEmpty()
      ensures old(accepted) <= accepted && old(passed) <= passed
      ensures !open ==> !sending
      ensures hasAllDataSentCb ==> Next(old(log), AllDataSent)
      ensures !hasAllDataSentCb ==> log == old(log)
      ensures !hasAllDataSentCb || old(script) == [] ==>
        open && interest == old(interest) && Untouched([], old(sending), old(passed), old(accepted), old(extra))
      ensures old(script) == [] ==> script == []
      ensures Owed() <= old(Owed()) && (open ==> Owed() == old(Owed()))
      ensures received == old(received) && (old(failed) || (old(open) && !open) ==> failed)
    {
      if hasAllDataSentCb {
        TellsOneMore(log, AllDataSent, connecting);
        log := log + [AllDataSent];
        ghost var at := React();
      }
    }

    method Queue(p: Packet)
      requires Ordered() && open
      modifies this`sending, this`outputQueue, this`interest
      ensures Ordered() && sending && interest == InOut
      ensures outputQueue == if old(outputQueue) == [] then [p] else old(outputQueue) + [p]
    {
      sending := true;
      outputQueue := outputQueue + [p];
      interest := InOut;
    }

    // An empty packet counts as not sent even if the kernel has taken it.
    method TrySendFast(p: Packet) returns (sent: bool)
      requires Ordered() && Kept()
      modifies this
      decreases |script|, 3
      ensures Ordered() && |script| <= |old(script)| && old(log) <= log && connecting == old(connecting)
      ensures outputQueue == old(outputQueue) && sending == old(sending) && passed == old(passed)
      ensures old(open) ==> (open <==> old(!NextAnswer().Failed?))
      ensures open ==> old(open) && interest == old(interest) && script == old(script) && log == old(log)
      ensures accepted == if old(open && NextAnswer().Done?) then old(accepted) + [p] else old(accepted)
      ensures old(open && NextAnswer().Failed?) ==> Next(old(log), Closed(old(NextAnswer()).errno))
      ensures sent <==> old(open && NextAnswer().Done?) && p.data != []
      ensures extra == old(extra) + if old(open && NextAnswer().Done?) && p.data == [] then 1 else 0
      ensures open ==> kernel == Rest(old(kernel))
      ensures !open ==> Kept()
      ensures |p.data| > 0 && old(NonEmpty()) ==> NonEmpty()
      ensures Owed() <= old(Owed()) && (open ==> Owed() == old(Owed()))
      ensures received == old(received) && (old(failed) || (old(open) && !open) ==> failed)
      ensures open ==> failed == old(failed)
    {
      var r := SystemCall();
      match r
      case Failed(errno) =>
        Close(errno);
        sent := false;
      case Again =>
        sent := false;
      case Done =>
        accepted := accepted + [p];
        sent := |p.data| > 0;
        extra := if sent then extra else extra + 1;
    }

    method Close(error: int)
      requires Ordered() && Kept()
      modifies this
      decreases |script|, 2
      ensures Ordered() && Kept() && !open && connecting == old(connecting)
      ensures |script| <= |old(script)| && old(log) <= log && (old(script) == [] ==> script == [])
      ensures old(open) ==> Next(old(log), Closed(error))
      ensures Untouched(old(outputQueue), old(sending), old(passed), old(accepted), old(extra))
      ensures old(NonEmpty()) ==> NonEmpty()
      ensures Owed() <= old(Owed())
      ensures received == old(received) && (old(failed) ==> failed)
    {
      if open {
        interest := Unregistered;
        open := false;
        TellsOneMore(log, Closed(error), connecting);
        log := log + [Closed(error)];
        ghost var at := React();
      }
    }

    // Sends what is queued, as far as the kernel takes it.
    method SendSlow()
      requires Valid() && open
      modifies this
      ensures Valid() && |script| <= |old(script)| && old(log) <= log && connecting == old(connecting)
      ensures old(Quiet()) && !connecting ==> Quiet()
      ensures old(NonEmpty()) ==> NonEmpty()
      ensures old(accepted) <= accepted && old(passed) <= passed
      ensures old(script) == [] ==> script == [] && passed == old(passed)
      ensures var n := old(Taken(outputQueue, kernel));
        if n < |old(outputQueue)| then Stopped(n, old(outputQueue), old(kernel), old(accepted), old(extra), old(log))
        else old(accepted + outputQueue) <= accepted
      // Everything went: write events are no longer asked for, and the client hears of it.
      ensures old(Taken(outputQueue, kernel) == |outputQueue|) && hasAllDataSentCb ==> Next(old(log), AllDataSent)
      ensures old(Taken(outputQueue, kernel) == |outputQueue|) && (!hasAllDataSentCb || old(script) == []) ==>
        open && outputQueue == [] && !sending && interest == In && accepted == old(accepted + outputQueue)
      ensures Owed() <= old(Owed()) && (open ==> Owed() == old(Owed()))
      ensures received == old(received) && (old(failed) || (old(open) && !open) ==> failed)
    {
      var all := Drain();
      if all {
        StopSending();
      }
    }

    method StopSending()
      requires Ordered() && Conserved() && open && !failed && outputQueue == []
      modifies this
      ensures Valid() && |script| <= |old(script)| && old(log) <= log && connecting == old(connecting)
      ensures !connecting ==> Quiet()
      ensures old(NonEmpty()) ==> NonEmpty()
      ensures old(accepted) <= accepted && old(passed) <= passed
      ensures old(script) == [] ==> script == []
      ensures hasAllDataSentCb ==> Next(old(log), AllDataSent)
      ensures !hasAllDataSentCb || old(script) == [] ==>
        open && interest == In && Untouched([], false, old(passed), old(accepted), old(extra))
      ensures Owed() <= old(Owed()) && (open ==> Owed() == old(Owed()))
      ensures received == old(received) && (old(failed) || (old(open) && !open) ==> failed)
    {
      sending := false;
      interest := In;
      OnAllDataSent();
    }

    // After n packets the next one did not go.
    ghost predicate Stopped(n: nat, outputQueue: seq<Packet>, kernel: seq<Answer>, accepted: seq<Packet>, extra: nat,
                            log: seq<Callback>)
      requires n < |outputQueue| && n <= |kernel|
      reads this
    {
      Refused(AnswerAt(kernel, n), outputQueue[n..], kernel[n..], accepted + outputQueue[..n], extra, log)
    }

    // Sends from the front of the queue until it is empty or a packet does not go.
    method Drain() returns (all: bool)
      requires Valid() && open
      modifies this
      ensures Ordered() && Conserved() && |script| <= |old(script)| && old(log) <= log && connecting == old(connecting)
      ensures old(script) == [] ==> script == []
      ensures all ==> open && script == old(script) && interest == old(interest) && log == old(log)
      ensures !all ==> Valid() && (old(Quiet()) ==> Quiet())
      ensures passed == old(passed) && old(accepted) <= accepted && (old(NonEmpty()) ==> NonEmpty())
      ensures all <==> old(Taken(outputQueue, kernel) == |outputQueue|)
      ensures all ==> outputQueue == [] && accepted == old(accepted + outputQueue) && extra == old(extra)
      ensures !all ==>
        Stopped(old(Taken(outputQueue, kernel)), old(outputQueue), old(kernel), old(accepted), old(extra), old(log))
      // Packets are conserved if and only if the kernel did not take an empty one.
      ensures open && old(extra) == 0 ==>
        (accepted + outputQueue == passed <==> all || !AnswerAt(old(kernel), old(Taken(outputQueue, kernel))).Done?)
      ensures Owed() <= old(Owed()) && (open ==> Owed() == old(Owed()))
      ensures received == old(received) && (old(failed) || (old(open) && !open) ==> failed)
      ensures all ==> !failed
    {
      all := SendQueue();
      if open {
        ExactlyOnce();
      }
    }

    method SendQueue() returns (all: bool)
      requires Valid() && open
      modifies this
      ensures Ordered() && Conserved() && |script| <= |old(script)| && old(log) <= log && connecting == old(connecting)
      ensures old(script) == [] ==> script == []
      ensures all ==> open && script == old(script) && interest == old(interest) && log == old(log)
      ensures !all ==> Valid() && (old(Quiet()) ==> Quiet())
      ensures passed == old(passed) && old(accepted) <= accepted && (old(NonEmpty()) ==> NonEmpty())
      ensures all <==> old(Taken(outputQueue, kernel) == |outputQueue|)
      ensures all ==> outputQueue == [] && accepted == old(accepted + outputQueue) && extra == old(extra)
      ensures !all ==>
        Stopped(old(Taken(outputQueue, kernel)), old(outputQueue), old(kernel), old(accepted), old(extra), old(log))
      ensures Owed() <= old(Owed()) && (open ==> Owed() == old(Owed()))
      ensures received == old(received) && (old(failed) || (old(open) && !open) ==> failed)
      ensures all ==> !failed
    {
      ghost var queue, answers, before, n := outputQueue, kernel, accepted, 0;
      while outputQueue != []
        invariant Ordered() && Conserved() && open && connecting == old(connecting)
        invariant script == old(script) && log == old(log) && passed == old(passed) && extra == old(extra)
        invariant (sending ==> interest == InOut) && (outputQueue != [] ==> sending)
        invariant interest == old(interest) && sending == old(sending)
        invariant received == old(received) && !failed
        invariant old(NonEmpty()) ==> NonEmpty()
        invariant TakenSoFar(queue, answers, n, outputQueue, kernel) && accepted == before + queue[..n]
        decreases |outputQueue|
      {
        ghost var left, more := outputQueue, kernel;
        var sent := SendFront();
        if !sent {
          StopsHere(queue, answers, n, left, more);
          return false;
        }
        TakesOneMore(queue, answers, n, before);
        n := n + 1;
      }
      return true;
    }

    // Sends the first packet and takes it out of the queue if it went.
    method SendFront() returns (sent: bool)
      requires Ordered() && Conserved() && open && !failed && outputQueue != [] && sending && interest == InOut
      modifies this
      ensures Ordered() && Conserved() && |script| <= |old(script)| && old(log) <= log && connecting == old(connecting)
      ensures old(script) == [] ==> script == []
      ensures passed == old(passed) && (old(NonEmpty()) ==> NonEmpty())
      ensures sent <==> old(NextAnswer().Done? && outputQueue[0].data != [])
      ensures sent ==> open && script == old(script) && interest == old(interest) && log == old(log)
      ensures sent ==> sending && extra == old(extra) && accepted == old(accepted + [outputQueue[0]])
      ensures sent ==> outputQueue == old(outputQueue)[1..] && kernel == old(kernel)[1..]
      ensures !sent ==> Valid() && (old(Quiet()) ==> Quiet())
      ensures !sent ==> Refused(old(NextAnswer()), old(outputQueue), old(kernel), old(accepted), old(extra), old(log))
      ensures Owed() <= old(Owed()) && (open ==> Owed() == old(Owed()))
      ensures received == old(received) && (old(failed) || (old(open) && !open) ==> failed)
      ensures sent ==> !failed
    {
      TakesFirst(passed, accepted, extra, outputQueue);
      sent := TrySendFast(outputQueue[0]);
      if sent {
        outputQueue := outputQueue[1..];
      }
    }

    // The first packet did not go: the kernel would block, or has failed, or has taken an
    // empty packet.
    ghost predicate Refused(answer: Answer, outputQueue: seq<Packet>, kernel: seq<Answer>, accepted: seq<Packet>,
                            extra: nat, log: seq<Callback>)
      requires outputQueue != []
      reads this
    {
      && this.outputQueue == outputQueue && (open <==> !answer.Failed?)
      && this.accepted == accepted + (if answer.Done? then [outputQueue[0]] else [])
      && this.extra == extra + (if answer.Done? then 1 else 0)
      && (open ==> this.kernel == Rest(kernel))
      && (if answer.Failed? then Next(log, Closed(answer.errno)) else this.log == log)
    }

    predicate Establishes(events: Events)
      reads this
    {
      connecting && (events.input || events.output) && !(events.err || events.hup)
    }

    // The client is going to send in the callback for an established connection, and has not
    // sent anything before.
    ghost predicate SendsWhenEstablished()
      reads this
    {
      hasEstablishedCb && !sending && script != [] && script[0] != []
    }

    // Modifying the registration of a descriptor closed in the callback throws.
    method CheckConnectionEstablished(events: Events) returns (thrown: bool)
      requires Valid() && Quiet() && open
      modifies this
      ensures Valid() && Quiet() && |script| <= |old(script)| && old(log) <= log
      ensures old(NonEmpty()) ==> NonEmpty()
      ensures old(passed) <= passed && (old(script) == [] ==> script == [] && passed == old(passed))
      ensures thrown <==> !open
      ensures thrown ==> old(Establishes(events) && SendsWhenEstablished())
      ensures old(Establishes(events) && SendsWhenEstablished() && NextAnswer().Failed?) ==> thrown
      ensures connecting <==> old(connecting) && !old(Establishes(events))
      ensures old(Establishes(events)) && hasEstablishedCb ==> Next(old(log), Established)
      ensures !old(Establishes(events)) ==>
        !thrown && Unmoved()
      ensures Owed() <= old(Owed()) && (open ==> Owed() == old(Owed()))
      ensures open ==> old(open)
      ensures received == old(received) && (old(failed) || (old(open) && !open) ==> failed)
      // It takes input or output without a hang-up or an error.
      ensures events.hup || events.err || !(events.input || events.output) ==> Unmoved() && !thrown
    {
      thrown := false;
      if Establishes(events) {
        connecting := false;
        if hasEstablishedCb {
          log := log + [Established];
          ghost var at := React();
        }
        if !sending {
          if interest == Unregistered {
            return true;
          }
          interest := In;
        }
      }
    }

    method CheckIncomingData(events: Events)
      requires Valid() && Quiet()
      modifies this
      ensures Valid() && Quiet() && |script| <= |old(script)| && old(log) <= log && connecting == old(connecting)
      ensures old(NonEmpty()) ==> NonEmpty()
      ensures old(passed) <= passed && (old(script) == [] ==> script == [] && passed == old(passed))
      ensures open ==> old(open)
      ensures !events.input ==> Unmoved() && received == old(received)
      ensures events.input ==> |received| == |old(received)| + 1 && old(received) <= received
      ensures events.input ==> received[|old(received)|] == if old(open) then old(NextAnswer()) else Failed(EBADF)
      ensures events.input && old(open) ==> ReceiveHandled(old(NextAnswer()), old(log))
      ensures events.input && old(open) && old(NextAnswer()).Again? ==> open && interest == old(interest)
      ensures events.input && old(open) && old(NextAnswer()).Again? ==>
        Untouched(old(outputQueue), old(sending), old(passed), old(accepted), old(extra))
      ensures old(failed) || (old(open) && !open) ==> failed
      ensures Owed() <= old(Owed()) && (open ==> Owed() == old(Owed()))
    {
      if events.input {
        var r := SystemCall();
        received := received + [r];
        HandleReceived(r);
      }
    }

    // What the client hears of next.
    ghost predicate ReceiveHandled(r: Answer, before: seq<Callback>)
      reads this`log
    {
      match r
      case Done => Next(before, DataReceived)
      case Again => log == before
      case Failed(errno) => Next(before, Closed(errno))
    }

    method HandleReceived(r: Answer)
      requires Ordered() && Conserved() && Quiet() && (if open then failed <==> r.Failed? else r.Failed? && failed)
      requires open ==> (sending <==> outputQueue != []) && (sending ==> interest == InOut)
      modifies this
      ensures Valid() && Quiet() && |script| <= |old(script)| && old(log) <= log && connecting == old(connecting)
      ensures old(NonEmpty()) ==> NonEmpty()
      ensures old(passed) <= passed && (old(script) == [] ==> script == [] && passed == old(passed))
      ensures open ==> old(open)
      ensures old(open) ==> ReceiveHandled(r, old(log))
      ensures r.Again? ==> open && interest == old(interest)
      ensures r.Again? ==> Untouched(old(outputQueue), old(sending), old(passed), old(accepted), old(extra))
      ensures received == old(received) && (old(failed) || (old(open) && !open) ==> failed)
      ensures Owed() <= old(Owed()) && (open ==> Owed() == old(Owed()))
    {
      match r
      case Failed(errno) => Close(errno);
      case Again =>
      case Done =>
        TellsOneMore(log, DataReceived, connecting);
        log := log + [DataReceived];
        ghost var at := React();
    }

    method CheckOutgoingData(events: Events)
      requires Valid() && Quiet()
      modifies this
      ensures Valid() && |script| <= |old(script)| && old(log) <= log && connecting == old(connecting)
      ensures Quiet() || (connecting && events.output)
      ensures events.output && old(open && outputQueue != [] && NextAnswer().Done?) ==>
        old(accepted + [outputQueue[0]]) <= accepted
      ensures old(accepted) <= accepted
      ensures old(NonEmpty()) ==> NonEmpty()
      ensures old(passed) <= passed && (old(script) == [] ==> script == [] && passed == old(passed))
      ensures Owed() <= old(Owed()) && (open ==> Owed() == old(Owed()))
      ensures open ==> old(open)
      ensures received == old(received) && (old(failed) || (old(open) && !open) ==> failed)
      ensures !(old(open) && events.output) ==> Unmoved()
    {
      if open && events.output {
        if outputQueue != [] {
          FirstGoes(outputQueue, kernel, accepted);
        }
        SendSlow();
      }
    }

    method CheckConnectionClosed(events: Events)
      requires Valid() && (Quiet() || events.hup || events.err)
      modifies this
      ensures Valid() && Quiet() && |script| <= |old(script)| && old(log) <= log && accepted == old(accepted)
      ensures connecting == old(connecting)
      ensures events.hup || events.err ==> !open
      ensures old(open) && (events.hup || events.err) ==>
        Next(old(log), Closed(if events.err then events.socketError else 0))
      ensures old(NonEmpty()) ==> NonEmpty()
      ensures old(passed) <= passed && (old(script) == [] ==> script == [] && passed == old(passed))
      ensures Owed() <= old(Owed()) && (open ==> Owed() == old(Owed()))
      ensures open ==> old(open)
      ensures received == old(received) && (old(failed) ==> failed)
      ensures !(events.hup || events.err) ==> Unmoved()
    {
      if open && (events.hup || events.err) {
        Close(if events.err then events.socketError else 0);
      }
    }

    // What the runner calls for a registered descriptor.
    method HandleEvents(events: Events) returns (thrown: bool)
      requires Valid() && Quiet() && open
      modifies this
      ensures Valid() && Quiet() && old(log) <= log
      ensures old(NonEmpty()) ==> NonEmpty()
      ensures old(passed) <= passed && (old(script) == [] ==> script == [] && passed == old(passed))
      ensures events.hup || events.err ==> !open
      ensures thrown ==> !open && old(Establishes(events) && SendsWhenEstablished())
      // What is queued is tried when the kernel says so.
      ensures events.output && !events.input && !old(Establishes(events)) ==>
        old(outputQueue != [] && NextAnswer().Done?) ==> old(accepted + [outputQueue[0]]) <= accepted
      ensures old(Establishes(events)) && hasEstablishedCb ==> Next(old(log), Established)
      ensures Owed() <= old(Owed()) && (open ==> Owed() == old(Owed()))
      ensures connecting <==> old(connecting && !Establishes(events))
      ensures events.hup || events.err ==> connecting == old(connecting)
      ensures (events.hup || events.err) && !events.input && !events.output ==>
        Next(old(log), Closed(if events.err then events.socketError else 0))
      // It takes a failure or one of these events to close the socket.
      ensures !open ==> events.hup || events.err || failed
      ensures received == old(received) || (events.input && |received| == |old(received)| + 1)
      ensures events.input && !thrown ==> |received| == |old(received)| + 1
      // Input is received first, unless the connection has just been established.
      ensures events.input && !old(Establishes(events)) && old(NextAnswer().Done?) ==> Next(old(log), DataReceived)
      ensures events.input && !old(Establishes(events)) && old(NextAnswer().Failed?) ==>
        Next(old(log), Closed(old(NextAnswer()).errno))
    {
      thrown := CheckConnectionEstablished(events);
      if !thrown {
        CheckIncomingData(events);
        CheckOutgoingData(events);
        CheckConnectionClosed(events);
      }
    }
  }

  // A client that sends in the callback for an established connection gets an exception out of
  // the event handler if the kernel refuses the packet.
  method SendingWhenEstablished(first: Packet, errno: int, output: bool) returns (thrown: bool)
    ensures thrown
  {
    var s := new SeqPacketSocket.Connect(true, true, [[first]], [Failed(errno)]);
    thrown := s.CheckConnectionEstablished(Events(!output, output, false, false, 0));
  }

  ghost predicate Copies(packets: seq<Packet>, p: Packet, n: nat) {
    |packets| == n && forall k :: 0 <= k < n ==> packets[k] == p
  }

  // The kernel has taken an empty packet n times, and it still blocks the queue.
  ghost predicate Stuck(s: SeqPacketSocket, empty: Packet, next: Packet, kernel: seq<Answer>, n: nat)
    reads s
  {
    && s.Valid() && s.open && s.script == [] && n <= |kernel| && s.kernel == kernel[n..]
    && s.outputQueue == s.passed == [empty, next] && Copies(s.accepted, empty, n)
  }

  // An empty packet that the kernel takes stays in front of the queue and is sent again with
  // each write event; what is sent later waits for ever.
  method EmptyPacketBlocks(empty: Packet, next: Packet, kernel: seq<Answer>) returns (s: SeqPacketSocket)
    requires empty.data == [] && kernel != [] && forall k :: 0 <= k < |kernel| ==> kernel[k].Done?
    ensures s.open && s.passed == s.outputQueue == [empty, next] && Copies(s.accepted, empty, |kernel|)
  {
    s := Blocked(empty, next, kernel);
    for i := 1 to |kernel|
      invariant fresh(s) && Stuck(s, empty, next, kernel, i)
    {
      SendAgain(s, empty, next, kernel, i);
    }
  }

  method Blocked(empty: Packet, next: Packet, kernel: seq<Answer>) returns (s: SeqPacketSocket)
    requires empty.data == [] && kernel != [] && kernel[0].Done?
    ensures fresh(s) && Stuck(s, empty, next, kernel, 1)
  {
    s := EmptyFirst(empty, kernel);
    Wait(s, next);
    assert [empty] + [next] == [empty, next];
  }

  method Wait(s: SeqPacketSocket, p: Packet)
    requires s.Valid() && s.open && s.sending && s.script == []
    modifies s
    ensures s.Valid() && s.open && s.script == [] && s.kernel == old(s.kernel) && s.accepted == old(s.accepted)
    ensures s.outputQueue == old(s.outputQueue) + [p] && s.passed == old(s.passed) + [p]
  {
    s.Send(p);
  }

  method EmptyFirst(empty: Packet, kernel: seq<Answer>) returns (s: SeqPacketSocket)
    requires empty.data == [] && kernel != [] && kernel[0].Done?
    ensures fresh(s) && s.Valid() && s.open && s.sending && s.script == [] && s.kernel == kernel[1..]
    ensures s.outputQueue == s.passed == s.accepted == [empty]
  {
    s := new SeqPacketSocket.Accept(false, [], kernel);
    assert s.Idle() && s.NextAnswer().Done?;
    s.Send(empty);
    assert [] + [empty] == [empty];
  }

  method SendAgain(s: SeqPacketSocket, empty: Packet, next: Packet, ghost kernel: seq<Answer>, ghost n: nat)
    requires Stuck(s, empty, next, kernel, n) && empty.data == [] && n < |kernel| && kernel[n].Done?
    modifies s
    ensures Stuck(s, empty, next, kernel, n + 1)
  {
    EmptyAgain(s);
    assert kernel[n..][1..] == kernel[n + 1..];
  }

  method EmptyAgain(s: SeqPacketSocket)
    requires s.Valid() && s.open && s.script == [] && s.outputQueue != [] && s.outputQueue[0].data == []
    requires s.kernel != [] && s.kernel[0].Done?
    modifies s
    ensures s.Valid() && s.open && s.script == [] && s.outputQueue == old(s.outputQueue) && s.passed == old(s.passed)
    ensures s.accepted == old(s.accepted + [s.outputQueue[0]]) && s.kernel == old(s.kernel[1..])
  {
    FirstGoes(s.outputQueue, s.kernel, s.accepted);
    assert s.kernel[0..] == s.kernel;
    s.SendSlow();
  }

  datatype Input = Event(events: Events) | Sending(p: Packet)

  // The packets a client sends on its own account, how many events say that there is input, and
  // whether one says that the connection is established or gone.
  datatype Total = Total(sent: seq<Packet>, received: nat, established: bool, gone: bool) {
    ghost function And(input: Input): Total {
      match input
      case Sending(p) => this.(sent := sent + [p])
      case Event(e) =>
        var lost, reached := e.hup || e.err, e.input || e.output;
        Total(sent, received + (if e.input then 1 else 0), established || (reached && !lost), gone || lost)
    }
  }

  ghost function Sum(inputs: seq<Input>): Total {
    if inputs == [] then Total([], 0, false, false) else Sum(inputs[..|inputs| - 1]).And(inputs[|inputs| - 1])
  }

  lemma SumOneMore(inputs: seq<Input>, i: nat)
    requires i < |inputs|
    ensures Sum(inputs[..i + 1]) == Sum(inputs[..i]).And(inputs[i])
  {
    assert inputs[..i + 1][..i] == inputs[..i];
  }

  // What has become of the packets sent so far.
  ghost predicate SentSoFar(s: SeqPacketSocket, script: seq<seq<Packet>>, sent: seq<Packet>)
    reads s
  {
    && s.Valid() && s.Quiet() && (Polite(script) && NoneEmpty(sent) ==> s.NonEmpty())
    && (script == [] ==> s.script == [] && s.passed <= sent && (s.open ==> s.passed == sent))
    && s.Owed() <= |sent| + Pending(script) && (s.open ==> s.Owed() == |sent| + Pending(script))
  }

  // And of the events.
  ghost predicate SoFar(s: SeqPacketSocket, script: seq<seq<Packet>>, connect: bool, sum: Total)
    reads s
  {
    && SentSoFar(s, script, sum.sent) && (s.open <==> !sum.gone && !s.failed)
    && |s.received| <= sum.received && (s.open ==> |s.received| == sum.received)
    && (s.open ==> (s.connecting <==> connect && !sum.established))
  }

  method Take(s: SeqPacketSocket, input: Input, ghost script: seq<seq<Packet>>, ghost connect: bool, ghost sum: Total)
    requires SoFar(s, script, connect, sum)
    modifies s
    ensures SoFar(s, script, connect, sum.And(input))
  {
    match input
    case Event(events) =>
      if s.open {
        var thrown := s.HandleEvents(events);
      }
    case Sending(p) =>
      assert NoneEmpty(sum.sent + [p]) ==> NoneEmpty(sum.sent) && NoneEmpty([p]) by {
        assert forall q :: q in sum.sent ==> q in sum.sent + [p];
      }
      assert NoneEmpty([p]) ==> [p][0].data != [];
      s.Send(p);
  }

  // Over every run, with whatever events, clients and packets: as long as the connection is
  // open, the packets the kernel has taken followed by those in the queue are exactly those
  // passed to send() if and only if the kernel has not taken an empty packet, which it cannot
  // if there is none. And write events of an established connection are asked for exactly
  // while there is something to send. The socket is open if and only if no event has said that
  // the connection is gone and no system call has failed.
  method Run(connect: bool, hasEstablishedCb: bool, hasAllDataSentCb: bool, inputs: seq<Input>,
             script: seq<seq<Packet>>, kernel: seq<Answer>) returns (s: SeqPacketSocket)
    ensures s.Valid()
    ensures s.open ==> (s.accepted + s.outputQueue == s.passed <==> s.extra == 0)
    ensures s.extra == 0 ==> s.accepted <= s.passed
    ensures NoneEmpty(Sum(inputs).sent) && Polite(script) ==> s.extra == 0
    ensures script == [] ==> s.passed <= Sum(inputs).sent && (s.open ==> s.passed == Sum(inputs).sent)
    ensures s.open && !s.connecting ==> (s.interest == InOut <==> s.sending) && (s.sending <==> s.outputQueue != [])
    ensures s.open ==> |s.passed| + Pending(s.script) == |Sum(inputs).sent| + Pending(script)
    ensures s.open <==> !Sum(inputs).gone && !Fails(s.answered)
    ensures s.open ==> |s.received| == Sum(inputs).received
    ensures s.hasAllDataSentCb == hasAllDataSentCb && (s.hasEstablishedCb <==> connect && hasEstablishedCb)
    ensures s.open ==> (s.connecting <==> connect && !Sum(inputs).established)
  {
    if connect {
      s := new SeqPacketSocket.Connect(hasEstablishedCb, hasAllDataSentCb, script, kernel);
    } else {
      s := new SeqPacketSocket.Accept(hasAllDataSentCb, script, kernel);
    }
    for i := 0 to |inputs|
      invariant fresh(s) && SoFar(s, script, connect, Sum(inputs[..i]))
    {
      SumOneMore(inputs, i);
      Take(s, inputs[i], script, connect, Sum(inputs[..i]));
    }
    assert inputs[..|inputs|] == inputs;
    if s.open {
      s.ExactlyOnce();
    }
    if s.extra == 0 {
      s.AcceptedFirst();
    }
  }
}
