/**
 The echo server: an accepted connection whose client moves whatever arrives from the input
 to the output and starts sending.
 */
module EchoServer {
  import opened Basics
  import opened Memory
  import opened SocketEvents
  import opened SocketStreams
  import opened StreamSockets

  const DATA_RECEIVED: seq<Action> := [EchoInput, StartSending]

  // Whatever was delivered is in the output or has been sent.
  ghost predicate Echoing(ss: StreamSocket)
    reads ss, ss.streams, ss.streams.kernel, ss.streams.input, ss.streams.output
    reads Arrays(ss.streams.input.AsView().cells), Arrays(ss.streams.output.AsView().cells)
  {
    ss.Valid() && ss.Calm() && ss.Armed() && ss.EchoClient() && ss.Echoed()
  }

  // So many of the events said that there is input, and whether one said that the connection
  // is gone.
  ghost predicate EchoedSoFar(ss: StreamSocket, sum: Total)
    reads ss, ss.streams, ss.streams.kernel, ss.streams.input, ss.streams.output
    reads Arrays(ss.streams.input.AsView().cells), Arrays(ss.streams.output.AsView().cells)
  {
    && Echoing(ss) && (ss.open <==> !sum.gone && !ss.streams.kernel.broken)
    && (ss.open ==> |ss.streams.kernel.receives| == sum.received)
  }

  function AsInputs(events: seq<Events>): (inputs: seq<Input>)
    ensures |inputs| == |events|
  {
    seq(|events|, i requires 0 <= i < |events| => Event(events[i]))
  }

  method HandleAll(ss: StreamSocket, events: seq<Events>)
    requires EchoedSoFar(ss, Total(0, 0, false, false))
    modifies ss, ss.streams, ss.streams.kernel, ss.streams.input, ss.streams.output, ss.streams.writable
    ensures EchoedSoFar(ss, Sum(AsInputs(events))) && fresh(ss.streams.writable - old(ss.streams.writable))
  {
    ghost var inputs := AsInputs(events);
    for i := 0 to |events|
      invariant EchoedSoFar(ss, Sum(inputs[..i])) && fresh(ss.streams.writable - old(ss.streams.writable))
    {
      SumOneMore(inputs, i);
      if ss.open {
        ss.HandleEvents(events[i]);
      }
    }
    assert inputs[..|events|] == inputs;
  }

  // Over every run, what the kernel has accepted followed by what is still to be sent is all
  // that it has delivered; what is still to be sent is being sent as long as the connection is
  // open; and it is open until it is gone or broken, each event with input leading to a receive.
  method Serve(events: seq<Events>) returns (ss: StreamSocket)
    ensures ss.Valid() && ss.streams.input.Content() == []
    ensures ss.streams.kernel.accepted + ss.streams.output.Content() == ss.streams.kernel.delivered
    ensures ss.open && ss.streams.output.Content() != [] ==> ss.interest == InOut
    ensures ss.open && ss.interest == InOut ==> ss.streams.output.Content() != []
    ensures var sum := Sum(AsInputs(events));
      && (ss.open <==> !sum.gone && !Breaks(ss.streams.kernel.sends, ss.streams.kernel.receives))
      && (ss.open ==> |ss.streams.kernel.receives| == sum.received)
  {
    ss := new StreamSocket.Accept(false, Some(DATA_RECEIVED), []);
    HandleAll(ss, events);
  }
}
