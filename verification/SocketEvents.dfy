/**
 What the two kinds of sockets have in common: the events they ask for and get, and the
 callbacks their clients get.
 */
module SocketEvents {

  datatype Interest = Unregistered | In | InOut

  // With the error of the socket, which matters if err is set.
  datatype Events = Events(input: bool, output: bool, hup: bool, err: bool, socketError: int)

  datatype Callback = Established | DataReceived | AllDataSent | Closed(error: int)

  // Established comes at most once, and not while connecting; closed comes last, when it is.
  ghost predicate Told(log: seq<Callback>, open: bool, connecting: bool) {
    && (connecting ==> Established !in log)
    && (forall i, j :: 0 <= i < j < |log| && log[i] == Established ==> log[j] != Established)
    && (forall i :: 0 <= i < |log| ==> (log[i].Closed? <==> !open && i == |log| - 1))
    && (!open ==> log != [])
  }

  lemma TellsOneMore(log: seq<Callback>, cb: Callback, connecting: bool)
    requires Told(log, true, connecting || cb == Established) && (connecting ==> cb != Established)
    ensures Told(log + [cb], !cb.Closed?, connecting)
  {
  }
}
