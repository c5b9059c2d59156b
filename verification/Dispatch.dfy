/**
 Registration of file descriptors and the dispatch of a batch of events to their listeners,
 which may add, modify and delete registrations while the batch is being handled.
 */
module Dispatch {
  import opened Basics

  type Fd = int
  type Listener = int
  type EventMask = bv32

  datatype Error = FDAlreadyAdded(fd: Fd) | NonExistingFDListener(fd: Fd) | ClientError

  datatype MapEntry = MapEntry(fl: Listener, events: EventMask)

  datatype Event = Event(fd: Fd, events: EventMask)

  ghost predicate DistinctFds(events: seq<Event>) {
    forall i, j :: 0 <= i < j < |events| ==> events[i].fd != events[j].fd
  }

  class Epoll {
    // What the kernel watches.
    var interest: map<Fd, EventMask>
    var addCount: nat
    var eventArray: seq<Event>
    ghost var calls: nat
    ghost var waits: nat

    ghost predicate Counted()
      reads this
    {
      addCount == |interest|
    }

    // Nobody has waited meanwhile.
    ghost predicate Unmoved(eventArray: seq<Event>, waits: nat)
      reads this
    {
      this.eventArray == eventArray && this.waits == waits
    }

    constructor ()
      ensures Counted() && interest == map[] && eventArray == []
    {
      interest, addCount, eventArray, calls, waits := map[], 0, [], 0, 0;
    }

    method Add(fd: Fd, events: EventMask)
      requires Counted() && fd !in interest
      modifies this
      ensures Counted() && interest == old(interest)[fd := events]
      ensures calls == old(calls) + 1 && eventArray == old(eventArray) && waits == old(waits)
    {
      interest := interest[fd := events];
      addCount := addCount + 1;
      calls := calls + 1;
    }

    method Modify(fd: Fd, events: EventMask)
      requires Counted() && fd in interest
      modifies this
      ensures Counted() && interest == old(interest)[fd := events]
      ensures calls == old(calls) + 1 && eventArray == old(eventArray) && waits == old(waits)
    {
      interest := interest[fd := events];
      calls := calls + 1;
    }

    method Del(fd: Fd)
      requires Counted() && fd in interest
      modifies this
      ensures Counted() && interest == old(interest) - {fd}
      ensures calls == old(calls) + 1 && eventArray == old(eventArray) && waits == old(waits)
    {
      assert interest == (interest - {fd})[fd := interest[fd]];
      interest := interest - {fd};
      addCount := addCount - 1;
      calls := calls + 1;
    }

    // The kernel reports any events of descriptors it watches, as many as there is space for.
    method Wait() returns (timedOut: bool)
      requires Counted() && addCount > 0
      modifies this`eventArray, this`waits
      ensures waits == old(waits) + 1
      ensures timedOut <==> eventArray == []
      ensures DistinctFds(eventArray) && |eventArray| <= addCount
      ensures forall i :: 0 <= i < |eventArray| ==> eventArray[i].fd in interest
    {
      var ready: seq<Event> := *;
      eventArray := [];
      while |eventArray| < addCount && ready != []
        invariant DistinctFds(eventArray) && |eventArray| <= addCount && waits == old(waits)
        invariant forall i :: 0 <= i < |eventArray| ==> eventArray[i].fd in interest
        decreases |ready|
      {
        if ready[0].fd in interest && forall i :: 0 <= i < |eventArray| ==> eventArray[i].fd != ready[0].fd {
          eventArray := eventArray + [ready[0]];
        }
        ready := ready[1..];
      }
      waits := waits + 1;
      timedOut := eventArray == [];
    }
  }

  class FDListenerMap {
    const epoll: Epoll
    var entries: map<Fd, MapEntry>
    // Numbers each registration, in the order they were made.
    ghost var serials: map<Fd, nat>
    ghost var nextSerial: nat

    // Listeners, events and their number agree with what the kernel watches.
    ghost predicate Valid()
      reads this, epoll
    {
      && epoll.Counted()
      && entries.Keys == epoll.interest.Keys
      && (forall fd :: fd in entries ==> entries[fd].events == epoll.interest[fd])
      && serials.Keys == entries.Keys
      && (forall fd :: fd in serials ==> serials[fd] < nextSerial)
    }

    constructor (epoll: Epoll)
      requires epoll.Counted() && epoll.interest == map[]
      ensures Valid() && entries == map[] && this.epoll == epoll
    {
      this.epoll, entries, serials, nextSerial := epoll, map[], map[], 0;
    }

    method Add(fl: Listener, fd: Fd, events: EventMask) returns (error: Option<Error>)
      requires Valid()
      modifies this, epoll
      ensures Valid() && epoll.Unmoved(old(epoll.eventArray), old(epoll.waits))
      ensures error == if fd in old(entries) then Some(FDAlreadyAdded(fd)) else None
      ensures entries == if error.Some? then old(entries) else old(entries)[fd := MapEntry(fl, events)]
      ensures nextSerial == old(nextSerial) + if error.Some? then 0 else 1
      ensures serials == if error.Some? then old(serials) else old(serials)[fd := old(nextSerial)]
    {
      if fd in entries {
        return Some(FDAlreadyAdded(fd));
      }
      entries := entries[fd := MapEntry(fl, events)];
      serials, nextSerial := serials[fd := nextSerial], nextSerial + 1;
      epoll.Add(fd, events);
      return None;
    }

    method Modify(fd: Fd, events: EventMask) returns (error: Option<Error>)
      requires Valid()
      modifies this, epoll
      ensures Valid() && epoll.Unmoved(old(epoll.eventArray), old(epoll.waits))
      ensures error == if fd in old(entries) then None else Some(NonExistingFDListener(fd))
      ensures entries == if error.Some? then old(entries) else old(entries)[fd := old(entries)[fd].(events := events)]
      ensures serials == old(serials) && nextSerial == old(nextSerial)
      ensures epoll.calls == old(epoll.calls) + if entries == old(entries) then 0 else 1
    {
      if fd !in entries {
        return Some(NonExistingFDListener(fd));
      }
      if entries[fd].events != events {
        epoll.Modify(fd, events);
        entries := entries[fd := entries[fd].(events := events)];
        assert entries[fd] != old(entries)[fd];
      }
      return None;
    }

    method Get(fd: Fd) returns (fl: Option<Listener>)
      ensures fl == if fd in entries then Some(entries[fd].fl) else None
    {
      return if fd in entries then Some(entries[fd].fl) else None;
    }

    method Del(fd: Fd) returns (error: Option<Error>)
      requires Valid()
      modifies this, epoll
      ensures Valid() && epoll.Unmoved(old(epoll.eventArray), old(epoll.waits))
      ensures error == if fd in old(entries) then None else Some(NonExistingFDListener(fd))
      ensures entries == old(entries) - {fd}
      ensures serials == old(serials) - {fd} && nextSerial == old(nextSerial)
    {
      if fd !in entries {
        assert entries == entries - {fd} && serials == serials - {fd};
        return Some(NonExistingFDListener(fd));
      }
      epoll.Del(fd);
      entries, serials := entries - {fd}, serials - {fd};
      assert entries.Keys == old(entries.Keys) - {fd} && serials.Keys == old(serials.Keys) - {fd};
      return None;
    }
  }

  // The descriptors deleted while a batch of events is handled.
  class FDMonitor {
    var monitoring: bool
    var fds: set<Fd>

    ghost predicate Valid()
      reads this
    {
      !monitoring ==> fds == {}
    }

    constructor ()
      ensures Valid() && !monitoring
    {
      monitoring, fds := false, {};
    }

    method StartMonitoring()
      requires Valid()
      modifies this
      ensures Valid() && monitoring && fds == old(fds)
    {
      monitoring := true;
    }

    method StopMonitoring()
      modifies this
      ensures Valid() && !monitoring
    {
      monitoring, fds := false, {};
    }

    method Add(fd: Fd)
      requires Valid()
      modifies this
      ensures Valid() && monitoring == old(monitoring)
      ensures fds == if monitoring then old(fds) + {fd} else {}
    {
      if monitoring {
        fds := fds + {fd};
      }
    }

    predicate Has(fd: Fd)
      reads this
    {
      fd in fds
    }
  }

  // What a listener does when it handles events: it may pass on the error of an operation as
  // an exception, or throw one of its own.
  datatype Action =
    | AddListener(fd: Fd, fl: Listener, events: EventMask, passOn: bool)
    | ModifyListener(fd: Fd, events: EventMask, passOn: bool)
    | DelListener(fd: Fd, passOn: bool)
    | Throw

  ghost predicate Spares(actions: seq<Action>, own: Fd) {
    forall i :: 0 <= i < |actions| && actions[i].DelListener? ==> actions[i].fd != own
  }

  // What happens in a runner: a listener is called with an event, the registration of a
  // descriptor with a number is deleted, or a listener throws.
  datatype Happening = Called(fl: Listener, event: Event) | Deleted(fd: Fd, serial: nat) | Threw(error: Error)

  // What a listener has done: deletions, and throwing if it did.
  ghost predicate Handled(before: seq<Happening>, after: seq<Happening>, fl: Listener, event: Event,
                          thrown: Option<Error>) {
    && before < after && after[|before|] == Called(fl, event)
    && (thrown.Some? ==> |after| > |before| + 1 && after[|after| - 1] == Threw(thrown.value))
    && (forall k :: |before| < k < |after| && !(thrown.Some? && k == |after| - 1) ==> after[k].Deleted?)
  }

  ghost predicate OnlyDeletions(before: seq<Happening>, after: seq<Happening>) {
    before <= after && forall k :: |before| <= k < |after| ==> after[k].Deleted?
  }

  // A round of a runner: the registrations and their numbers when the events were returned,
  // the events, and where in the history it starts and ends and each event was looked at.
  datatype Round = Round(
    registered: map<Fd, MapEntry>, serials: map<Fd, nat>, batch: seq<Event>,
    start: nat, looks: seq<nat>, end: nat, thrown: Option<Error>)

  ghost predicate Reported(registered: map<Fd, MapEntry>, serials: map<Fd, nat>, batch: seq<Event>) {
    && registered.Keys == serials.Keys && DistinctFds(batch)
    && forall i :: 0 <= i < |batch| ==> batch[i].fd in registered
  }

  // Event i leads to exactly one call, of the listener registered when the events were
  // returned, if and only if no deletion of that very registration precedes it.
  ghost predicate Looked(round: Round, history: seq<Happening>, i: nat)
    requires Reported(round.registered, round.serials, round.batch) && i < |round.looks| <= |round.batch|
  {
    var from := round.looks[i];
    var to := if i + 1 < |round.looks| then round.looks[i + 1] else round.end;
    var event := round.batch[i];
    && round.start <= from <= to <= |history|
    && var thrown := if i + 1 == |round.looks| then round.thrown else None;
       if Deleted(event.fd, round.serials[event.fd]) in history[..from] then to == from && thrown.None?
       else Handled(history[..from], history[..to], round.registered[event.fd].fl, event, thrown)
  }

  // The events looked at were treated in this way, in order and with nothing else happening.
  ghost predicate Orderly(round: Round, history: seq<Happening>) {
    && Reported(round.registered, round.serials, round.batch) && |round.looks| <= |round.batch|
    && round.start <= round.end <= |history|
    && (if round.looks == [] then round.end == round.start && round.thrown.None? else round.looks[0] == round.start)
    && forall i :: 0 <= i < |round.looks| ==> Looked(round, history, i)
  }

  // And events are left out only after an exception.
  ghost predicate Fair(round: Round, history: seq<Happening>) {
    Orderly(round, history) && (round.thrown.None? ==> |round.looks| == |round.batch|)
  }

  // What happens later makes no difference to a round.
  lemma FairStays(round: Round, history: seq<Happening>, later: seq<Happening>)
    requires Fair(round, history) && history <= later
    ensures Fair(round, later)
  {
    forall i | 0 <= i < |round.looks| ensures Looked(round, later, i) {
      assert Looked(round, history, i);
      var from := round.looks[i];
      var to := if i + 1 < |round.looks| then round.looks[i + 1] else round.end;
      assert later[..from] == history[..from] && later[..to] == history[..to];
    }
  }

  // One more event is looked at.
  lemma LooksAtOneMore(round: Round, history: seq<Happening>, later: seq<Happening>, thrown: Option<Error>)
    requires Orderly(round, history) && round.thrown.None? && round.end == |history|
    requires |round.looks| < |round.batch| && history <= later
    requires var event := round.batch[|round.looks|];
      if Deleted(event.fd, round.serials[event.fd]) in history then later == history && thrown.None?
      else Handled(history, later, round.registered[event.fd].fl, event, thrown)
    ensures Orderly(round.(looks := round.looks + [|history|], end := |later|, thrown := thrown), later)
  {
    var next := round.(looks := round.looks + [|history|], end := |later|, thrown := thrown);
    forall i | 0 <= i < |next.looks| ensures Looked(next, later, i) {
      if i < |round.looks| {
        assert Looked(round, history, i);
        var from, to := next.looks[i], next.looks[i + 1];
        assert later[..from] == history[..from] && later[..to] == history[..to];
      } else {
        assert later[..|history|] == history && later[..|later|] == later;
      }
    }
  }

  // Registrations that are there were never deleted, and deleted ones have older numbers
  // than any to come.
  ghost predicate Recording(current: map<Fd, nat>, next: nat, history: seq<Happening>) {
    && (forall fd :: fd in current ==> Deleted(fd, current[fd]) !in history)
    && (forall h :: h in history && h.Deleted? ==> h.serial < next)
  }

  ghost predicate Remains(current: map<Fd, nat>, fd: Fd, serial: nat) {
    fd in current && current[fd] == serial
  }

  // The monitor and the history know which of the registrations of then were deleted; the
  // others still have their listeners.
  ghost predicate Tracking(registered: map<Fd, MapEntry>, serials: map<Fd, nat>, entries: map<Fd, MapEntry>,
                           current: map<Fd, nat>, next: nat, monitored: set<Fd>, history: seq<Happening>) {
    && registered.Keys == serials.Keys && entries.Keys == current.Keys
    && forall fd :: fd in serials ==>
      && serials[fd] < next
      && (fd in monitored <==> !Remains(current, fd, serials[fd]))
      && (Deleted(fd, serials[fd]) in history <==> !Remains(current, fd, serials[fd]))
      && (Remains(current, fd, serials[fd]) ==> entries[fd].fl == registered[fd].fl)
  }

  // What happens besides deletions does not matter here.
  lemma OthersTracked(registered: map<Fd, MapEntry>, serials: map<Fd, nat>, entries: map<Fd, MapEntry>,
                      current: map<Fd, nat>, next: nat, monitored: set<Fd>, history: seq<Happening>, h: Happening)
    requires Tracking(registered, serials, entries, current, next, monitored, history) && !h.Deleted?
    ensures Tracking(registered, serials, entries, current, next, monitored, history + [h])
  {
    forall fd | fd in serials
      ensures Deleted(fd, serials[fd]) in history + [h] <==> Deleted(fd, serials[fd]) in history
    {
    }
  }

  lemma AdditionTracked(registered: map<Fd, MapEntry>, serials: map<Fd, nat>, entries: map<Fd, MapEntry>,
                        current: map<Fd, nat>, next: nat, monitored: set<Fd>, history: seq<Happening>,
                        fd: Fd, entry: MapEntry)
    requires Tracking(registered, serials, entries, current, next, monitored, history) && fd !in current
    ensures Tracking(registered, serials, entries[fd := entry], current[fd := next], next + 1, monitored, history)
  {
    forall f | f in serials
      ensures Remains(current[fd := next], f, serials[f]) <==> Remains(current, f, serials[f])
    {
    }
  }

  // The history after the registration of a descriptor was deleted, if it had one.
  ghost function WithDeletion(history: seq<Happening>, current: map<Fd, nat>, fd: Fd): seq<Happening> {
    history + if fd in current then [Deleted(fd, current[fd])] else []
  }

  lemma DeletionRecorded(current: map<Fd, nat>, next: nat, history: seq<Happening>, fd: Fd)
    requires Recording(current, next, history) && forall f :: f in current ==> current[f] < next
    ensures Recording(current - {fd}, next, WithDeletion(history, current, fd))
  {
  }

  lemma DeletionTracked(registered: map<Fd, MapEntry>, serials: map<Fd, nat>, entries: map<Fd, MapEntry>,
                        current: map<Fd, nat>, next: nat, monitored: set<Fd>, history: seq<Happening>, fd: Fd)
    requires Tracking(registered, serials, entries, current, next, monitored, history)
    ensures Tracking(registered, serials, entries - {fd}, current - {fd}, next, monitored + {fd},
                     WithDeletion(history, current, fd))
  {
    var after := WithDeletion(history, current, fd);
    forall f | f in serials
      ensures Deleted(f, serials[f]) in after <==> !Remains(current - {fd}, f, serials[f])
    {
      assert Deleted(f, serials[f]) in after <==>
        Deleted(f, serials[f]) in history || (fd in current && Deleted(f, serials[f]) == Deleted(fd, current[fd]));
    }
  }

  // What becomes of the registrations, and of the listener.
  datatype Outcome = Outcome(entries: map<Fd, MapEntry>, thrown: Option<Error>)

  ghost function Done(entries: map<Fd, MapEntry>, action: Action): Outcome {
    match action
    case AddListener(fd, fl, events, passOn) =>
      if fd in entries then Outcome(entries, if passOn then Some(FDAlreadyAdded(fd)) else None)
      else Outcome(entries[fd := MapEntry(fl, events)], None)
    case ModifyListener(fd, events, passOn) =>
      if fd in entries then Outcome(entries[fd := entries[fd].(events := events)], None)
      else Outcome(entries, if passOn then Some(NonExistingFDListener(fd)) else None)
    case DelListener(fd, passOn) =>
      Outcome(entries - {fd}, if fd !in entries && passOn then Some(NonExistingFDListener(fd)) else None)
    case Throw => Outcome(entries, Some(ClientError))
  }

  // The first n actions one after the other; throwing ends them.
  ghost function AllDone(entries: map<Fd, MapEntry>, actions: seq<Action>, n: nat): Outcome
    requires n <= |actions|
  {
    if n == 0 then Outcome(entries, None)
    else
      var before := AllDone(entries, actions, n - 1);
      if before.thrown.Some? then before else Done(before.entries, actions[n - 1])
  }

  lemma {:induction false} ThrowingEnds(entries: map<Fd, MapEntry>, actions: seq<Action>, n: nat, m: nat)
    requires n <= m <= |actions| && AllDone(entries, actions, n).thrown.Some?
    ensures AllDone(entries, actions, m) == AllDone(entries, actions, n)
  {
    if n < m {
      ThrowingEnds(entries, actions, n, m - 1);
    }
  }

  // The same step by step.
  ghost predicate Follows(outcomes: seq<Outcome>, actions: seq<Action>, i: int)
    requires 0 <= i < |outcomes| - 1 && i < |actions|
  {
    outcomes[i].thrown.None? && outcomes[i + 1] == Done(outcomes[i].entries, actions[i])
  }

  ghost predicate DoneSoFar(outcomes: seq<Outcome>, actions: seq<Action>, n: int) {
    && 0 <= n <= |actions| && |outcomes| == n + 1 && outcomes[0].thrown.None?
    && forall i :: 0 <= i < n ==> Follows(outcomes, actions, i)
  }

  lemma DoesOneMore(outcomes: seq<Outcome>, actions: seq<Action>, n: nat, next: Outcome)
    requires DoneSoFar(outcomes, actions, n) && n < |actions| && outcomes[n].thrown.None?
    requires next == Done(outcomes[n].entries, actions[n])
    ensures DoneSoFar(outcomes + [next], actions, n + 1)
  {
    var more := outcomes + [next];
    forall i | 0 <= i < n + 1 ensures Follows(more, actions, i) {
      assert i < n ==> Follows(outcomes, actions, i);
    }
  }

  lemma {:induction false} DoneStepByStep(outcomes: seq<Outcome>, actions: seq<Action>, n: nat, k: nat)
    requires DoneSoFar(outcomes, actions, n) && k <= n
    ensures AllDone(outcomes[0].entries, actions, k) == outcomes[k]
  {
    if k > 0 {
      DoneStepByStep(outcomes, actions, n, k - 1);
      assert Follows(outcomes, actions, k - 1);
    }
  }

  lemma DoesAll(outcomes: seq<Outcome>, actions: seq<Action>, n: nat)
    requires DoneSoFar(outcomes, actions, n) && (n == |actions| || outcomes[n].thrown.Some?)
    ensures AllDone(outcomes[0].entries, actions, |actions|) == outcomes[n]
  {
    DoneStepByStep(outcomes, actions, n, n);
    if outcomes[n].thrown.Some? {
      ThrowingEnds(outcomes[0].entries, actions, n, |actions|);
    }
  }

  ghost function Reaction(script: seq<seq<Action>>): seq<Action> {
    if script == [] then [] else script[0]
  }

  // The registrations after so many calls of listeners.
  ghost function After(first: map<Fd, MapEntry>, plan: seq<seq<Action>>, calls: nat): map<Fd, MapEntry> {
    if calls == 0 then first
    else
      var before := After(first, plan, calls - 1);
      if calls > |plan| then before else AllDone(before, plan[calls - 1], |plan[calls - 1]|).entries
  }

  // That many listeners have done what the script says.
  ghost predicate Played(first: map<Fd, MapEntry>, plan: seq<seq<Action>>, calls: nat, script: seq<seq<Action>>,
                         entries: map<Fd, MapEntry>) {
    && |script| == (if calls < |plan| then |plan| - calls else 0)
    && (forall k :: 0 <= k < |script| ==> script[k] == plan[|plan| - |script| + k])
    && entries == After(first, plan, calls)
  }

  lemma PlaysOneMore(first: map<Fd, MapEntry>, plan: seq<seq<Action>>, calls: nat, script: seq<seq<Action>>,
                     entries: map<Fd, MapEntry>)
    requires Played(first, plan, calls, script, entries)
    ensures Played(first, plan, calls + 1, if script == [] then [] else script[1..],
                   AllDone(entries, Reaction(script), |Reaction(script)|).entries)
  {
  }

  // How many calls there are among the first n happenings.
  ghost function Calls(history: seq<Happening>, n: nat): (calls: nat)
    requires n <= |history|
  {
    if n == 0 then 0 else Calls(history, n - 1) + if history[n - 1].Called? then 1 else 0
  }

  lemma {:induction false} CallsStay(before: seq<Happening>, after: seq<Happening>, n: nat)
    requires before <= after && n <= |before|
    ensures Calls(after, n) == Calls(before, n)
  {
    if n > 0 {
      CallsStay(before, after, n - 1);
    }
  }

  lemma HandledIsOneCall(before: seq<Happening>, after: seq<Happening>, fl: Listener, event: Event,
                         thrown: Option<Error>)
    requires Handled(before, after, fl, event, thrown)
    ensures Calls(after, |after|) == Calls(before, |before|) + 1
  {
    CallsStay(before, after, |before|);
    var called, end := |before| + 1, if thrown.Some? then |after| - 1 else |after|;
    OnlyCall(after, called, end);
  }

  lemma {:induction false} OnlyCall(history: seq<Happening>, from: nat, to: nat)
    requires from <= to <= |history| && forall k :: from <= k < to ==> history[k].Deleted?
    ensures Calls(history, to) == Calls(history, from)
  {
    if from < to {
      OnlyCall(history, from, to - 1);
    }
  }

  class Dispatcher {
    const epoll: Epoll
    const listeners: FDListenerMap
    const monitor: FDMonitor
    // The runner's own descriptor, which clients do not know.
    const own: Fd
    // What the listeners are going to do, call by call.
    var script: seq<seq<Action>>
    // The registrations when the last batch of events was returned, and their numbers.
    ghost var registered: map<Fd, MapEntry>
    ghost var serials: map<Fd, nat>
    ghost var history: seq<Happening>
    // What the script and the registrations were in the beginning.
    ghost const plan: seq<seq<Action>>
    ghost const first: map<Fd, MapEntry>

    ghost predicate Wired()
      reads this, listeners, monitor
    {
      && listeners.epoll == epoll && own in listeners.entries
      && (forall i :: 0 <= i < |script| ==> Spares(script[i], own))
    }

    // Between calls, the listeners called have done what they were to do.
    ghost predicate Valid()
      reads this, epoll, listeners, monitor
    {
      Sound() && Played(first, plan, Calls(history, |history|), script, listeners.entries)
    }

    ghost predicate Sound()
      reads this, epoll, listeners, monitor
    {
      Wired() && listeners.Valid() && monitor.Valid() && Recorded()
    }

    ghost predicate Recorded()
      reads this, listeners
    {
      Recording(listeners.serials, listeners.nextSerial, history)
    }

    ghost predicate Tracked()
      reads this, listeners, monitor
    {
      monitor.monitoring &&
      Tracking(registered, serials, listeners.entries, listeners.serials, listeners.nextSerial, monitor.fds, history)
    }

    constructor (own: Fd, fl: Listener, events: EventMask, script: seq<seq<Action>>)
      requires forall i :: 0 <= i < |script| ==> Spares(script[i], own)
      ensures Valid() && !monitor.monitoring && this.script == plan == script && this.own == own
      ensures first == map[own := MapEntry(fl, events)]
      ensures fresh(epoll) && fresh(listeners) && fresh(monitor)
    {
      this.own, this.script := own, script;
      var e := new Epoll();
      epoll := e;
      listeners := new FDListenerMap(e);
      monitor := new FDMonitor();
      registered, serials, history, plan, first := map[], map[], [], script, map[own := MapEntry(fl, events)];
      new;
      var error := listeners.Add(fl, own, events);
    }

    method AddFDListener(fl: Listener, fd: Fd, events: EventMask) returns (error: Option<Error>)
      requires Sound()
      modifies listeners, epoll
      ensures Sound() && epoll.Unmoved(old(epoll.eventArray), old(epoll.waits))
      ensures old(Tracked()) ==> Tracked()
      ensures error == if fd in old(listeners.entries) then Some(FDAlreadyAdded(fd)) else None
      ensures listeners.entries ==
        if error.Some? then old(listeners.entries) else old(listeners.entries)[fd := MapEntry(fl, events)]
    {
      ghost var entries, current, next := listeners.entries, listeners.serials, listeners.nextSerial;
      error := listeners.Add(fl, fd, events);
      if error.None? && old(Tracked()) {
        AdditionTracked(registered, serials, entries, current, next, monitor.fds, history, fd, MapEntry(fl, events));
      }
    }

    method ModifyFDListener(fd: Fd, events: EventMask) returns (error: Option<Error>)
      requires Sound()
      modifies listeners, epoll
      ensures Sound() && epoll.Unmoved(old(epoll.eventArray), old(epoll.waits))
      ensures old(Tracked()) ==> Tracked()
      ensures error == if fd in old(listeners.entries) then None else Some(NonExistingFDListener(fd))
      ensures listeners.entries ==
        if error.Some? then old(listeners.entries)
        else old(listeners.entries)[fd := old(listeners.entries)[fd].(events := events)]
    {
      error := listeners.Modify(fd, events);
    }

    // The descriptor is noted as deleted even if it has no listener.
    method DelFDListener(fd: Fd) returns (error: Option<Error>)
      requires Sound() && fd != own
      modifies listeners, epoll, monitor, this`history
      ensures Sound() && epoll.Unmoved(old(epoll.eventArray), old(epoll.waits))
      ensures monitor.monitoring == old(monitor.monitoring)
      ensures old(Tracked()) ==> Tracked()
      ensures error == if fd in old(listeners.entries) then None else Some(NonExistingFDListener(fd))
      ensures listeners.entries == old(listeners.entries) - {fd}
      ensures history == old(history) + if error.None? then [Deleted(fd, old(listeners.serials)[fd])] else []
    {
      ghost var entries, current, next, monitored :=
        listeners.entries, listeners.serials, listeners.nextSerial, monitor.fds;
      DeletionRecorded(current, next, history, fd);
      if Tracked() {
        DeletionTracked(registered, serials, entries, current, next, monitored, history, fd);
      }
      monitor.Add(fd);
      error := listeners.Del(fd);
      history := WithDeletion(history, current, fd);
    }

    method Do(action: Action) returns (thrown: Option<Error>)
      requires Sound() && (action.DelListener? ==> action.fd != own)
      modifies listeners, epoll, monitor, this`history
      ensures OnlyDeletions(old(history), history)
      ensures Sound() && epoll.Unmoved(old(epoll.eventArray), old(epoll.waits))
      ensures monitor.monitoring == old(monitor.monitoring)
      ensures old(Tracked()) ==> Tracked()
      ensures Outcome(listeners.entries, thrown) == Done(old(listeners.entries), action)
      ensures history == if action.DelListener? then WithDeletion(old(history), old(listeners.serials), action.fd)
        else old(history)
    {
      thrown := None;
      match action
      case AddListener(fd, fl, events, passOn) =>
        var error := AddFDListener(fl, fd, events);
        if passOn { thrown := error; }
      case ModifyListener(fd, events, passOn) =>
        var error := ModifyFDListener(fd, events);
        if passOn { thrown := error; }
      case DelListener(fd, passOn) =>
        var error := DelFDListener(fd);
        if passOn { thrown := error; }
      case Throw => thrown := Some(ClientError);
    }

    ghost method Record(h: Happening)
      requires Sound() && !h.Deleted?
      modifies this`history
      ensures Sound() && history == old(history) + [h]
      ensures old(Tracked()) ==> Tracked()
    {
      if Tracked() {
        OthersTracked(registered, serials, listeners.entries, listeners.serials, listeners.nextSerial, monitor.fds,
                      history, h);
      }
      history := history + [h];
    }

    // A listener handles its events.
    method HandleEvents(fl: Listener, event: Event) returns (thrown: Option<Error>)
      requires Valid()
      modifies this, listeners, epoll, monitor
      ensures Valid() && epoll.Unmoved(old(epoll.eventArray), old(epoll.waits))
      ensures monitor.monitoring == old(monitor.monitoring)
      ensures registered == old(registered) && serials == old(serials)
      ensures Handled(old(history), history, fl, event, thrown)
      ensures old(Tracked()) ==> Tracked()
      // It does what the script says.
      ensures Outcome(listeners.entries, thrown) ==
        AllDone(old(listeners.entries), Reaction(old(script)), |Reaction(old(script))|)
      ensures script == if old(script) == [] then [] else old(script)[1..]
    {
      PlaysOneMore(first, plan, Calls(history, |history|), script, listeners.entries);
      thrown := React(fl, event);
      HandledIsOneCall(old(history), history, fl, event, thrown);
    }

    method React(fl: Listener, event: Event) returns (thrown: Option<Error>)
      requires Sound()
      modifies this, listeners, epoll, monitor
      ensures Sound() && epoll.Unmoved(old(epoll.eventArray), old(epoll.waits))
      ensures monitor.monitoring == old(monitor.monitoring)
      ensures registered == old(registered) && serials == old(serials)
      ensures Handled(old(history), history, fl, event, thrown)
      ensures old(Tracked()) ==> Tracked()
      // It does what the script says.
      ensures Outcome(listeners.entries, thrown) ==
        AllDone(old(listeners.entries), Reaction(old(script)), |Reaction(old(script))|)
      ensures script == if old(script) == [] then [] else old(script)[1..]
    {
      thrown := None;
      Record(Called(fl, event));
      if script != [] {
        thrown := RunActions(script[0]);
        script := script[1..];
      }
      if thrown.Some? {
        Record(Threw(thrown.value));
      }
    }

    method RunActions(actions: seq<Action>) returns (thrown: Option<Error>)
      requires Sound() && Spares(actions, own)
      modifies listeners, epoll, monitor, this`history
      ensures OnlyDeletions(old(history), history)
      ensures Sound() && epoll.Unmoved(old(epoll.eventArray), old(epoll.waits))
      ensures monitor.monitoring == old(monitor.monitoring)
      ensures old(Tracked()) ==> Tracked()
      ensures Outcome(listeners.entries, thrown) == AllDone(old(listeners.entries), actions, |actions|)
    {
      thrown := None;
      var i := 0;
      ghost var outcomes := [Outcome(listeners.entries, None)];
      while i < |actions| && thrown.None?
        invariant 0 <= i <= |actions| && Sound() && epoll.Unmoved(old(epoll.eventArray), old(epoll.waits))
        invariant monitor.monitoring == old(monitor.monitoring)
        invariant old(Tracked()) ==> Tracked()
        invariant OnlyDeletions(old(history), history)
        invariant DoneSoFar(outcomes, actions, i) && outcomes[0] == Outcome(old(listeners.entries), None)
        invariant outcomes[i] == Outcome(listeners.entries, thrown)
      {
        thrown := Do(actions[i]);
        DoesOneMore(outcomes, actions, i, Outcome(listeners.entries, thrown));
        outcomes := outcomes + [Outcome(listeners.entries, thrown)];
        i := i + 1;
      }
      DoesAll(outcomes, actions, i);
    }

    // A descriptor is looked up only if it was not deleted, and then it has a listener.
    method Deliver(event: Event) returns (thrown: Option<Error>)
      requires Valid() && Tracked() && event.fd in registered
      modifies this, listeners, epoll, monitor
      ensures Valid() && Tracked() && epoll.Unmoved(old(epoll.eventArray), old(epoll.waits))
      ensures registered == old(registered) && serials == old(serials)
      ensures old(Remains(listeners.serials, event.fd, serials[event.fd])) <==>
        Deleted(event.fd, serials[event.fd]) !in old(history)
      ensures if old(Remains(listeners.serials, event.fd, serials[event.fd]))
        then Handled(old(history), history, registered[event.fd].fl, event, thrown)
        else history == old(history) && thrown.None?
      ensures if old(Remains(listeners.serials, event.fd, serials[event.fd]))
        then Outcome(listeners.entries, thrown) ==
          AllDone(old(listeners.entries), Reaction(old(script)), |Reaction(old(script))|)
        else listeners.entries == old(listeners.entries) && script == old(script)
    {
      thrown := None;
      if !monitor.Has(event.fd) {
        var fl := listeners.Get(event.fd);
        thrown := HandleEvents(fl.value, event);
      }
    }

    // One round of a runner: waits, and delivers the events. What a listener throws ends the
    // batch.
    method WaitAndHandleEvents() returns (thrown: Option<Error>, ghost round: Round)
      requires Valid() && !monitor.monitoring
      modifies this, listeners, epoll, monitor
      ensures Valid() && !monitor.monitoring && epoll.waits == old(epoll.waits) + 1
      ensures old(history) <= history && Fair(round, history)
      ensures round.registered == old(listeners.entries) && round.serials == old(listeners.serials)
      ensures round.batch == epoll.eventArray && round.thrown == thrown
      ensures round.start == |old(history)| && round.end == |history|
    {
      registered, serials := listeners.entries, listeners.serials;
      var timedOut := epoll.Wait();
      thrown, round := None, Round(registered, serials, [], |history|, [], |history|, None);
      if !timedOut {
        monitor.StartMonitoring();
        thrown, round := DeliverAll();
        monitor.StopMonitoring();
      }
    }

    method DeliverAll() returns (thrown: Option<Error>, ghost round: Round)
      requires Valid() && Tracked() && Reported(registered, serials, epoll.eventArray)
      modifies this, listeners, epoll, monitor
      ensures Valid() && epoll.Unmoved(old(epoll.eventArray), old(epoll.waits))
      ensures old(history) <= history && Fair(round, history)
      ensures round.registered == old(registered) && round.serials == old(serials)
      ensures round.batch == old(epoll.eventArray) && round.thrown == thrown
      ensures round.start == |old(history)| && round.end == |history|
    {
      thrown, round := None, Round(registered, serials, epoll.eventArray, |history|, [], |history|, None);
      var i := 0;
      while i < |epoll.eventArray| && thrown.None?
        invariant 0 <= i <= |epoll.eventArray| && Valid() && Tracked()
        invariant epoll.Unmoved(old(epoll.eventArray), old(epoll.waits)) && round.batch == old(epoll.eventArray)
        invariant registered == round.registered == old(registered) && serials == round.serials == old(serials)
        invariant old(history) <= history && Orderly(round, history) && |round.looks| == i
        invariant round.start == |old(history)| && round.end == |history| && round.thrown == thrown
      {
        ghost var before := history;
        thrown := Deliver(epoll.eventArray[i]);
        LooksAtOneMore(round, before, history, thrown);
        round := round.(looks := round.looks + [|before|], end := |history|, thrown := thrown);
        i := i + 1;
      }
    }

    // Over every run, with whatever listeners do in it; whoever runs the loop may carry on
    // after an exception.
    method Run(n: nat) returns (ghost rounds: seq<Round>)
      requires Valid() && !monitor.monitoring
      modifies this, listeners, epoll, monitor
      ensures Valid() && !monitor.monitoring && epoll.waits == old(epoll.waits) + n
      ensures old(history) <= history && |rounds| == n
      ensures forall i :: 0 <= i < n ==> Fair(rounds[i], history)
      ensures OneAfterTheOther(rounds, |old(history)|, |history|)
      ensures listeners.entries == After(first, plan, Calls(history, |history|))
    {
      rounds := [];
      for i := 0 to n
        invariant Valid() && !monitor.monitoring && epoll.waits == old(epoll.waits) + i
        invariant old(history) <= history && |rounds| == i
        invariant forall k :: 0 <= k < i ==> Fair(rounds[k], history)
        invariant OneAfterTheOther(rounds, |old(history)|, |history|)
      {
        ghost var before := history;
        var thrown;
        ghost var round;
        thrown, round := WaitAndHandleEvents();
        forall k | 0 <= k < i ensures Fair(rounds[k], history) {
          FairStays(rounds[k], before, history);
        }
        rounds := rounds + [round];
      }
    }
  }

  // The rounds make up all that happens from one point of the history to another.
  ghost predicate OneAfterTheOther(rounds: seq<Round>, start: nat, end: nat) {
    if rounds == [] then start == end
    else
      && rounds[0].start == start && rounds[|rounds| - 1].end == end
      && forall i :: 0 < i < |rounds| ==> rounds[i - 1].end == rounds[i].start
  }
}
