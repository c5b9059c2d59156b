/**
 Handling signals through a signal descriptor: the set of signals, its enumeration, and the
 thread's mask of blocked signals while the set of handled signals is replaced.
 */
module SignalMask {

  // The number of signals that have a name; the enumeration of a set ends there.
  const MAX_SIGNAL: int := 31
  // The number of signals there are.
  const LAST_SIGNAL: int := 64
  // SIGKILL and SIGSTOP, which cannot be blocked.
  const UNBLOCKABLE: set<int> := {9, 19}

  type Signals = s: set<int> | forall i :: i in s ==> 1 <= i <= LAST_SIGNAL

  // The smallest signal of s after current, or one more than the biggest.
  method GetNext(s: Signals, current: int) returns (next: int)
    requires 0 <= current <= MAX_SIGNAL
    ensures current < next <= MAX_SIGNAL + 1
    ensures next == MAX_SIGNAL + 1 || next in s
    ensures forall i :: current < i < next ==> i !in s
  {
    next := current + 1;
    while next <= MAX_SIGNAL
      invariant current < next <= MAX_SIGNAL + 1
      invariant forall i :: current < i < next ==> i !in s
    {
      if next in s {
        return;
      }
      next := next + 1;
    }
  }

  // The named signals of s below limit.
  ghost function Below(s: set<int>, limit: int): (r: set<int>)
    ensures forall i :: i in r <==> i in s && 1 <= i < limit
  {
    set i | i in s && 1 <= i < limit
  }

  ghost function Named(s: set<int>): (r: set<int>) {
    Below(s, MAX_SIGNAL + 1)
  }

  lemma BelowGrows(s: set<int>, limit: int)
    requires 1 <= limit
    ensures Below(s, limit + 1) == Below(s, limit) + if limit in s then {limit} else {}
  {
  }

  // What iterating over s goes through.
  method Enumerate(s: Signals) returns (all: seq<int>)
    ensures forall i, j :: 0 <= i < j < |all| ==> all[i] < all[j]
    ensures forall i :: i in all <==> i in Named(s)
  {
    all := [];
    var i := GetNext(s, 0);
    while i != MAX_SIGNAL + 1
      invariant 1 <= i <= MAX_SIGNAL + 1 && (i <= MAX_SIGNAL ==> i in s)
      invariant forall k :: k in all <==> k in Below(s, i)
      invariant forall k, l :: 0 <= k < l < |all| ==> all[k] < all[l]
      invariant forall k :: 0 <= k < |all| ==> all[k] < i
      decreases MAX_SIGNAL - i
    {
      ghost var was := all;
      all := all + [i];
      assert forall k :: k in all <==> k in was || k == i;
      i := GetNext(s, i);
    }
  }

  method Size(s: Signals) returns (size: nat)
    ensures size == |Named(s)|
  {
    size := 0;
    var i := 1;
    assert Below(s, 1) == {};
    while i <= MAX_SIGNAL
      invariant 1 <= i <= MAX_SIGNAL + 1 && size == |Below(s, i)|
    {
      BelowGrows(s, i);
      if i in s { size := size + 1; }
      i := i + 1;
    }
  }

  // Signals without a name do not matter.
  method Equal(a: Signals, b: Signals) returns (equal: bool)
    ensures equal <==> Named(a) == Named(b)
  {
    var i := 0;
    while i <= MAX_SIGNAL
      invariant 0 <= i <= MAX_SIGNAL + 1 && Below(a, i) == Below(b, i)
    {
      if (i in a) != (i in b) {
        assert i in Named(a) <==> i !in Named(b);
        return false;
      }
      if i > 0 {
        BelowGrows(a, i);
        BelowGrows(b, i);
      }
      i := i + 1;
    }
    return true;
  }

  datatype How = Block | Unblock | SetMask

  // The thread whose mask it is.
  class Thread {
    var blocked: Signals
    // The masks so far.
    ghost var history: seq<set<int>>

    ghost predicate Valid()
      reads this
    {
      blocked !! UNBLOCKABLE
    }

    method SigMask(how: How, signals: Signals) returns (was: Signals)
      requires Valid()
      modifies this
      ensures Valid() && was == old(blocked)
      ensures history == old(history) + [blocked]
      ensures blocked ==
        match how
        case Block => old(blocked) + (signals - UNBLOCKABLE)
        case Unblock => old(blocked) - signals
        case SetMask => signals - UNBLOCKABLE
    {
      was := blocked;
      match how {
        case Block => blocked := blocked + (signals - UNBLOCKABLE);
        case Unblock => blocked := blocked - signals;
        case SetMask => blocked := signals - UNBLOCKABLE;
      }
      history := history + [blocked];
    }
  }

  // The mask after replacing the handled signals: what is found to be blocked, and then what
  // is found to be unblocked.
  ghost function NewMask(mask: set<int>, originally: set<int>, handled: set<int>, signals: set<int>): set<int> {
    mask + (Named(signals - originally - handled) - UNBLOCKABLE) -
    (handled - Named(signals - originally) - Named(originally))
  }

  // The unnamed signals that replacing the handled ones by signals goes wrong with.
  ghost function Mishandling(originally: set<int>, handled: set<int>, signals: set<int>): (r: set<int>)
    ensures (forall i :: i in signals + handled ==> i <= MAX_SIGNAL) ==> r == {}
  {
    set i | i in signals + handled && i > MAX_SIGNAL && if i in originally then i in handled else i in signals
  }

  class SignalFD {
    const thread: Thread
    var handledSignals: Signals
    var originallyBlockedSignals: Signals
    // What the descriptor reports.
    var reported: Signals

    ghost predicate Valid()
      reads this, thread
    {
      thread.Valid() && originallyBlockedSignals !! UNBLOCKABLE && reported == handledSignals
    }

    // Exactly the signals that were blocked before and those that are handled are blocked.
    ghost predicate Exact()
      reads this, thread
    {
      thread.blocked == originallyBlockedSignals + handledSignals - UNBLOCKABLE
    }

    constructor (thread: Thread, signals: Signals)
      requires thread.Valid()
      modifies thread
      ensures this.thread == thread && Valid() && Exact()
      ensures handledSignals == signals && originallyBlockedSignals == old(thread.blocked)
      ensures thread.history == old(thread.history) + [thread.blocked]
    {
      this.thread, handledSignals, reported := thread, signals, signals;
      var was := thread.SigMask(Block, signals);
      originallyBlockedSignals := was;
    }

    method Destroy()
      requires Valid()
      modifies thread
      ensures thread.Valid() && thread.blocked == originallyBlockedSignals
      ensures thread.history == old(thread.history) + [thread.blocked]
    {
      var was := thread.SigMask(SetMask, originallyBlockedSignals);
    }

    ghost function Mishandled(signals: set<int>): set<int>
      reads this
    {
      Mishandling(originallyBlockedSignals, handledSignals, signals)
    }

    // What must stay blocked throughout while the handled signals are replaced.
    ghost function Kept(signals: set<int>): set<int>
      reads this
    {
      originallyBlockedSignals + handledSignals * signals - UNBLOCKABLE - Mishandled(signals)
    }

    method SetSignals(signals: Signals)
      requires Valid()
      modifies this, thread
      ensures Valid() && handledSignals == signals
      ensures originallyBlockedSignals == old(originallyBlockedSignals)
      ensures thread.blocked == old(NewMask(thread.blocked, originallyBlockedSignals, handledSignals, signals))
      ensures old(Exact()) ==> (Exact() <==> old(Mishandled(signals)) == {})
      // In between everything is blocked that was blocked before or is blocked afterwards.
      ensures thread.history == old(thread.history) + [old(thread.blocked) + thread.blocked, thread.blocked]
      ensures old(Exact()) ==> forall k :: |old(thread.history)| <= k < |thread.history| ==>
        old(Kept(signals)) <= thread.history[k]
    {
      var block, unblock := FindChanges(signals);
      if Exact() {
        MaskAfter(thread.blocked, originallyBlockedSignals, handledSignals, signals);
      }
      handledSignals := signals;
      assert block !! unblock;
      var was := thread.SigMask(Block, block);
      ghost var between := thread.blocked;
      was := thread.SigMask(Unblock, unblock);
      assert between == old(thread.blocked) + thread.blocked;
      reported := signals;
    }

    // The loops over the new signals and over those blocked originally.
    method FindChanges(signals: Signals) returns (block: Signals, unblock: Signals)
      ensures block == Named(signals - originallyBlockedSignals - handledSignals)
      ensures unblock == handledSignals - Named(signals - originallyBlockedSignals) - Named(originallyBlockedSignals)
    {
      block, unblock := {}, handledSignals;
      var i := GetNext(signals, 0);
      while i != MAX_SIGNAL + 1
        invariant 1 <= i <= MAX_SIGNAL + 1 && (i <= MAX_SIGNAL ==> i in signals)
        invariant block == Below(signals - originallyBlockedSignals - handledSignals, i)
        invariant unblock == handledSignals - Below(signals - originallyBlockedSignals, i)
        decreases MAX_SIGNAL - i
      {
        if i !in originallyBlockedSignals {
          if i !in handledSignals {
            block := block + {i};
          } else {
            unblock := unblock - {i};
          }
        }
        i := GetNext(signals, i);
      }
      i := GetNext(originallyBlockedSignals, 0);
      while i != MAX_SIGNAL + 1
        invariant 1 <= i <= MAX_SIGNAL + 1 && (i <= MAX_SIGNAL ==> i in originallyBlockedSignals)
        invariant unblock ==
          handledSignals - Named(signals - originallyBlockedSignals) - Below(originallyBlockedSignals, i)
        decreases MAX_SIGNAL - i
      {
        unblock := unblock - {i};
        i := GetNext(originallyBlockedSignals, i);
      }
    }
  }

  // The new mask is right if and only if no unnamed signal is mishandled.
  lemma MaskAfter(mask: set<int>, originally: Signals, handled: Signals, signals: Signals)
    requires mask == originally + handled - UNBLOCKABLE
    ensures NewMask(mask, originally, handled, signals) == originally + signals - UNBLOCKABLE
      <==> Mishandling(originally, handled, signals) == {}
  {
    var wanted, after := originally + signals - UNBLOCKABLE, NewMask(mask, originally, handled, signals);
    var wrong := Mishandling(originally, handled, signals);
    assert forall i :: (i in after <==> i in wanted) <==> i !in wrong;
    if wrong != {} {
      var i :| i in wrong;
      assert i in after <==> i !in wanted;
    }
  }

  // Signal 34 is handled afterwards, but not blocked.
  method UnnamedSignalIsNotBlocked(thread: Thread) returns (fd: SignalFD)
    requires thread.blocked == {}
    modifies thread
    ensures fd.thread == thread && fd.reported == {34} && thread.blocked == {}
  {
    fd := new SignalFD(thread, {});
    fd.SetSignals({34});
    assert Named({34}) == {};
  }

  // Over any sequence of replacements with named signals: what was blocked before stays
  // blocked all the time, and in the end the mask is what it was before.
  method Session(thread: Thread, first: Signals, others: seq<Signals>) returns (handling: seq<set<int>>)
    requires thread.Valid() && Named(first) == first && forall i :: 0 <= i < |others| ==> Named(others[i]) == others[i]
    modifies thread
    ensures thread.blocked == old(thread.blocked)
    ensures old(thread.history) <= thread.history
    ensures forall k :: |old(thread.history)| <= k < |thread.history| ==> old(thread.blocked) <= thread.history[k]
    ensures |handling| == |others|
    ensures forall i :: 0 <= i < |others| ==> handling[i] == old(thread.blocked) + others[i] - UNBLOCKABLE
  {
    var fd := new SignalFD(thread, first);
    handling := [];
    for i := 0 to |others|
      invariant fresh(fd) && fd.thread == thread && fd.Valid() && fd.Exact()
      invariant fd.originallyBlockedSignals == old(thread.blocked)
      invariant Named(fd.handledSignals) == fd.handledSignals
      invariant old(thread.history) <= thread.history && |handling| == i
      invariant forall k :: |old(thread.history)| <= k < |thread.history| ==> old(thread.blocked) <= thread.history[k]
      invariant forall k :: 0 <= k < i ==> handling[k] == old(thread.blocked) + others[k] - UNBLOCKABLE
    {
      fd.SetSignals(others[i]);
      handling := handling + [thread.blocked];
    }
    fd.Destroy();
  }
}
