/**
 The two buffers of a stream socket and what goes through them: bytes the kernel delivers,
 bytes its client takes from the input or adds to the output, and bytes the kernel accepts.
 The buffers may share arrays.
 */
module SocketStreams {
  import opened Basics
  import opened Memory
  import opened BufferViews
  import opened SliceLists
  import opened StreamBuffers
  import opened Sharing

  datatype SysResult = Bytes(n: nat) | Again | Error(errno: int)

  const EBADF: int := 9
  const MIN_SIZE: nat := 1024 * 10
  const ALLOC_SIZE: nat := 1024 * 20

  // What a client may do in a callback. Of the output buffer it only uses the end.
  datatype Action = Append(data: seq<byte>) | EchoInput | Consume(n: nat) | StartSending

  // What happens to the buffers: the client does something, or the kernel delivers bytes.
  datatype Step = Did(action: Action) | Got(data: seq<byte>)

  // The bytes delivered so far, those the client has used up or moved on, and those it has
  // added to the output.
  datatype Flow = Flow(delivered: seq<byte>, consumed: seq<byte>, appended: seq<byte>) {
    ghost function Left(): seq<byte> {
      if consumed <= delivered then delivered[|consumed|..] else []
    }

    ghost function After(step: Step): Flow {
      match step
      case Got(data) => this.(delivered := delivered + data)
      case Did(Append(data)) => this.(appended := appended + data)
      case Did(EchoInput) => this.(consumed := consumed + Left(), appended := appended + Left())
      case Did(Consume(n)) => if n <= |Left()| then this.(consumed := consumed + Left()[..n]) else this
      case Did(StartSending) => this
    }
  }

  // What these steps make of nothing.
  ghost function Replay(steps: seq<Step>): Flow {
    if steps == [] then Flow([], [], []) else Replay(steps[..|steps| - 1]).After(steps[|steps| - 1])
  }

  // The same, step by step.
  ghost predicate Follows(flows: seq<Flow>, steps: seq<Step>, i: int)
    requires 0 <= i < |steps| == |flows| - 1
  {
    flows[i + 1] == flows[i].After(steps[i])
  }

  ghost predicate Traced(flows: seq<Flow>, steps: seq<Step>) {
    && |flows| == |steps| + 1 && flows[0] == Flow([], [], [])
    && forall i :: 0 <= i < |steps| ==> Follows(flows, steps, i)
  }

  lemma TracedOneMore(flows: seq<Flow>, steps: seq<Step>, step: Step)
    requires Traced(flows, steps)
    ensures Traced(flows + [flows[|steps|].After(step)], steps + [step])
  {
    var more, all := flows + [flows[|steps|].After(step)], steps + [step];
    forall i | 0 <= i < |all| ensures Follows(more, all, i) {
      assert i < |steps| ==> Follows(flows, steps, i);
    }
  }

  lemma {:induction false} TraceIsReplay(flows: seq<Flow>, steps: seq<Step>)
    requires Traced(flows, steps)
    ensures Replay(steps) == flows[|steps|]
    decreases |steps|
  {
    if steps != [] {
      var n := |steps| - 1;
      var before, init := flows[..n + 1], steps[..n];
      forall i | 0 <= i < n ensures Follows(before, init, i) {
        assert Follows(flows, steps, i);
      }
      TraceIsReplay(before, init);
      assert Follows(flows, steps, n);
    }
  }

  // A send has failed, or a receive has failed or found the end of the stream.
  ghost predicate Breaks(sends: seq<SysResult>, receives: seq<SysResult>) {
    || (exists k :: 0 <= k < |sends| && sends[k].Error?)
    || (exists k :: 0 <= k < |receives| && (receives[k].Error? || receives[k] == Bytes(0)))
  }

  lemma BreaksOneMore(sends: seq<SysResult>, receives: seq<SysResult>, r: SysResult)
    ensures Breaks(sends + [r], receives) <==> Breaks(sends, receives) || r.Error?
    ensures Breaks(sends, receives + [r]) <==> Breaks(sends, receives) || r.Error? || r == Bytes(0)
  {
    assert (sends + [r])[|sends|] == r && (receives + [r])[|receives|] == r;
    assert forall k :: 0 <= k < |sends| ==> (sends + [r])[k] == sends[k];
    assert forall k :: 0 <= k < |receives| ==> (receives + [r])[k] == receives[k];
  }

  // The kernel's side of a connection. Only system calls write it.
  class Kernel {
    // The bytes taken from the socket and those handed to it.
    ghost var accepted: seq<byte>
    ghost var delivered: seq<byte>
    // The answers to all system calls.
    ghost var sends: seq<SysResult>
    ghost var receives: seq<SysResult>
    // What the last calls offered and had room for.
    ghost var offered: seq<Slice>
    ghost var room: seq<Slice>
    // Whether the answers so far say that the connection does not work any more.
    ghost var broken: bool

    ghost predicate Valid()
      reads this
    {
      broken <==> Breaks(sends, receives)
    }

    constructor ()
      ensures Valid() && accepted == delivered == [] && sends == receives == [] && !broken
    {
      accepted, delivered, sends, receives, offered, room, broken := [], [], [], [], [], [], false;
    }

    // The kernel takes some of the offered bytes from the front, or nothing, or fails; a closed
    // descriptor fails.
    method Sendmsg(open: bool, iov: seq<Slice>) returns (r: SysResult)
      requires Valid() && |Cells(iov)| == TotalSize(iov) && Addressable(Cells(iov))
      modifies this`accepted, this`sends, this`offered, this`broken
      ensures Valid() && (broken <==> old(broken) || r.Error?)
      ensures sends == old(sends) + [r] && offered == iov && (!open ==> r == Error(EBADF))
      ensures r.Bytes? ==> r.n <= TotalSize(iov) && accepted == old(accepted) + Read(Cells(iov)[..r.n])
      ensures !r.Bytes? ==> accepted == old(accepted)
    {
      if open {
        assert !Again.Bytes?;
        r :| r.Bytes? ==> r.n <= TotalSize(iov);
      } else {
        r := Error(EBADF);
      }
      accepted := accepted + if r.Bytes? then Read(Cells(iov)[..r.n]) else [];
      BreaksOneMore(sends, receives, r);
      sends, offered, broken := sends + [r], iov, broken || r.Error?;
    }

    // The kernel scatters some bytes over the offered space, or has none, or fails. As there is
    // space, no bytes mean the end of the stream.
    method Recvmsg(open: bool, iov: seq<Slice>) returns (r: SysResult, ghost data: seq<byte>)
      requires Valid() && InArrays(iov) && |Cells(iov)| == TotalSize(iov) > 0
      requires Addressable(Cells(iov)) && Distinct(Cells(iov))
      modifies this`delivered, this`receives, this`room, this`broken, Arrays(Cells(iov))
      ensures Valid() && room == iov && (broken <==> old(broken) || r.Error? || r == Bytes(0))
      ensures receives == old(receives) + [r] && delivered == old(delivered) + data && (!open ==> r == Error(EBADF))
      ensures |data| == (if r.Bytes? then r.n else 0) <= |Cells(iov)| && Holds(Cells(iov)[..|data|], data)
      ensures forall a, i :: a in Arrays(Cells(iov)) && 0 <= i < a.Length ==>
        Cell(a, i) in Cells(iov) || a[i] == old(a[i])
    {
      var bytes: seq<byte> := *;
      r, data := *, [];
      if !open {
        r := Error(EBADF);
      } else if r.Bytes? {
        bytes := if |bytes| > TotalSize(iov) then bytes[..TotalSize(iov)] else bytes;
        r, data := Bytes(|bytes|), bytes;
        ScatterIn(iov, bytes);
      }
      BreaksOneMore(sends, receives, r);
      delivered, receives, room := delivered + data, receives + [r], iov;
      broken := broken || r.Error? || r == Bytes(0);
    }
  }

  function Least(a: nat, b: nat): nat {
    if a < b then a else b
  }

  // Asks the kernel to fill the front of b's free space.
  method Fill(b: StreamBuffer, kernel: Kernel, open: bool) returns (r: SysResult, ghost data: seq<byte>)
    requires kernel.Valid() && b.Valid() && b.Compact() && b.GetFreeSize() > 0
    modifies kernel`delivered, kernel`receives, kernel`room, kernel`broken, Arrays(b.AsView().Free())
    ensures kernel.Valid() && (kernel.broken <==> old(kernel.broken) || r.Error? || r == Bytes(0))
    ensures kernel.receives == old(kernel.receives) + [r] && (!open ==> r.Error?)
    ensures kernel.delivered == old(kernel.delivered) + data
    ensures |data| == (if r.Bytes? then r.n else 0) <= |b.AsView().Free()|
    ensures Read(b.AsView().Free()[..|data|]) == data && b.Content() == old(b.Content())
    ensures forall a, i :: a in Arrays(b.AsView().Free()) && 0 <= i < a.Length ==>
      Cell(a, i) in b.AsView().Free() || a[i] == old(a[i])
    ensures |kernel.room| < IOV_MAX ==> TotalSize(kernel.room) == b.GetFreeSize()
  {
    ghost var v, free, mine := b.AsView(), b.AsView().Free(), b.Content();
    CellsAllocated(b.buffers);
    var iov := b.GetFreeIOVec();
    FreeIsDistinct(v, |Cells(iov)|);
    assert Cells(iov) == free[..|Cells(iov)|];
    r, data := kernel.Recvmsg(open, iov);
    assert b.AsView() == v && Cells(iov)[..|data|] == free[..|data|];
    forall a, i | a in Arrays(free) && 0 <= i < a.Length ensures Cell(a, i) in free || a[i] == old(a[i]) {
      assert Cell(a, i) in Cells(iov) ==> Cell(a, i) in free;
    }
    assert Read(free[..|data|]) == data by { ReadIs(free[..|data|], data); }
    assert Read(v.Used()) == mine by { ContentKept(View(v.Used(), v.used), v, mine); }
  }

  // The other buffer's content stays what it is.
  method FillBeside(b: StreamBuffer, other: StreamBuffer, kernel: Kernel, open: bool)
    returns (r: SysResult, ghost data: seq<byte>)
    requires kernel.Valid() && NonInterfering(b, other) && b.Compact() && b.GetFreeSize() > 0
    modifies kernel`delivered, kernel`receives, kernel`room, kernel`broken, Arrays(b.AsView().Free())
    ensures NonInterfering(b, other) && b.Content() == old(b.Content()) && other.Content() == old(other.Content())
    ensures kernel.Valid() && (kernel.broken <==> old(kernel.broken) || r.Error? || r == Bytes(0))
    ensures kernel.receives == old(kernel.receives) + [r] && (!open ==> r.Error?)
    ensures kernel.delivered == old(kernel.delivered) + data
    ensures |data| == (if r.Bytes? then r.n else 0) <= |b.AsView().Free()|
    ensures Read(b.AsView().Free()[..|data|]) == data
    ensures |kernel.room| < IOV_MAX ==> TotalSize(kernel.room) == b.GetFreeSize()
  {
    ghost var v, w, bytes := other.AsView(), b.AsView(), other.Content();
    CellsAllocated(b.buffers);
    CellsAllocated(other.buffers);
    r, data := Fill(b, kernel, open);
    assert b.AsView() == w && other.AsView() == v;
    ContentKept(v, w, bytes);
  }

  // Receives what the kernel has; this is then part of the content.
  method ReceiveBeside(b: StreamBuffer, other: StreamBuffer, kernel: Kernel, open: bool)
    returns (r: SysResult, ghost data: seq<byte>)
    requires kernel.Valid() && NonInterfering(b, other) && b.Compact() && b.GetFreeSize() > 0
    modifies kernel`delivered, kernel`receives, kernel`room, kernel`broken, b, Arrays(b.AsView().Free())
    ensures NonInterfering(b, other) && b.Compact() && other.Content() == old(other.Content())
    ensures b.Content() == old(b.Content()) + data
    ensures kernel.Valid() && (kernel.broken <==> old(kernel.broken) || r.Error? || r == Bytes(0))
    ensures kernel.receives == old(kernel.receives) + [r] && (!open ==> r.Error?)
    ensures kernel.delivered == old(kernel.delivered) + data
    ensures |data| == if r.Bytes? then r.n else 0
    ensures Arrays(b.AsView().Free()) <= old(Arrays(b.AsView().Free()))
    ensures b.GetFreeSize() + |data| == old(b.GetFreeSize())
    // All free space is offered, or at least IOV_MAX slices of it.
    ensures |kernel.room| < IOV_MAX ==> TotalSize(kernel.room) == old(b.GetFreeSize())
  {
    r, data := FillBeside(b, other, kernel, open);
    if r.Bytes? && r.n > 0 {
      GrowBeside(b, other, r.n);
    }
  }

  // Offers the content to the kernel, which takes some bytes from its front.
  method Offer(b: StreamBuffer, kernel: Kernel, open: bool) returns (r: SysResult)
    requires b.Valid() && kernel.Valid()
    modifies kernel`accepted, kernel`sends, kernel`offered, kernel`broken
    ensures kernel.Valid() && (kernel.broken <==> old(kernel.broken) || r.Error?)
    ensures kernel.sends == old(kernel.sends) + [r] && (!open ==> r.Error?)
    ensures (if r.Bytes? then r.n else 0) <= b.usedSize
    ensures kernel.accepted == old(kernel.accepted) + b.Content()[..if r.Bytes? then r.n else 0]
    // All of it is offered, or the first IOV_MAX slices.
    ensures |kernel.offered| == Least(Cover(b.buffers, b.usedSize), IOV_MAX)
    ensures |kernel.offered| < IOV_MAX ==> TotalSize(kernel.offered) == b.usedSize
  {
    CellsAllocated(b.buffers);
    var v := b.GetUsedIOVec();
    r := kernel.Sendmsg(open, v);
    assert r.Bytes? ==> Read(Cells(v)[..r.n]) == b.Content()[..r.n];
  }

  // Sends what the kernel takes; this is then no longer part of the content.
  method SendBeside(b: StreamBuffer, other: StreamBuffer, kernel: Kernel, open: bool) returns (r: SysResult)
    requires kernel.Valid() && NonInterfering(b, other)
    modifies kernel`accepted, kernel`sends, kernel`offered, kernel`broken, b
    ensures NonInterfering(b, other) && other.Content() == old(other.Content())
    ensures kernel.Valid() && (kernel.broken <==> old(kernel.broken) || r.Error?)
    ensures kernel.sends == old(kernel.sends) + [r] && (!open ==> r.Error?)
    ensures var n := if r.Bytes? then r.n else 0;
      && n <= old(b.usedSize) && b.Content() == old(b.Content())[n..]
      && kernel.accepted == old(kernel.accepted) + old(b.Content())[..n]
    ensures b.AsView().Free() == old(b.AsView().Free())
    ensures |kernel.offered| == Least(old(Cover(b.buffers, b.usedSize)), IOV_MAX)
    ensures |kernel.offered| < IOV_MAX ==> TotalSize(kernel.offered) == old(b.usedSize)
  {
    CellsAllocated(b.buffers);
    CellsAllocated(other.buffers);
    ghost var v, w, mine, bytes := b.AsView(), other.AsView(), b.Content(), other.Content();
    r := Offer(b, kernel, open);
    assert b.AsView() == v && other.AsView() == w && b.Content() == mine && other.Content() == bytes;
    if r.Bytes? && r.n > 0 {
      CutBeside(b, other, r.n);
    }
  }

  lemma Associative<T>(a: seq<T>, b: seq<T>, c: seq<T>)
    ensures a + (b + c) == (a + b) + c
  {
  }

  lemma MoveFront<T>(a: seq<T>, b: seq<T>, n: nat)
    requires n <= |b|
    ensures a + b == (a + b[..n]) + b[n..]
  {
  }

  class Streams {
    const kernel: Kernel
    const input: StreamBuffer
    const output: StreamBuffer
    ghost var consumed: seq<byte>
    ghost var appended: seq<byte>
    // All that has happened to the buffers apart from sending, and what it led to.
    ghost var steps: seq<Step>
    ghost var flows: seq<Flow>
    // All arrays that may be written.
    ghost var writable: set<array<byte>>

    ghost function AsFlow(): Flow
      reads this, kernel
    {
      Flow(kernel.delivered, consumed, appended)
    }

    // Bytes are neither lost, duplicated nor reordered on either way.
    ghost predicate Balanced()
      reads this, kernel, input, output, Arrays(input.AsView().cells), Arrays(output.AsView().cells)
    {
      && kernel.Valid() && NonInterfering(input, output) && input.Compact()
      && Arrays(input.AsView().Free()) <= writable && Arrays(output.AsView().Free()) <= writable
      && kernel.delivered == consumed + input.Content()
      && appended == kernel.accepted + output.Content()
    }

    // And none are used up or added but by the steps.
    ghost predicate Valid()
      reads this, kernel, input, output, Arrays(input.AsView().cells), Arrays(output.AsView().cells)
    {
      Balanced() && Traced(flows, steps) && AsFlow() == flows[|steps|]
    }

    constructor ()
      ensures Valid() && fresh(kernel) && fresh(input) && fresh(output) && writable == {}
      ensures AsFlow() == Flow([], [], []) && kernel.accepted == [] && steps == []
      ensures kernel.sends == kernel.receives == [] && !kernel.broken && input.usedSize == output.usedSize == 0
    {
      kernel := new Kernel();
      input := new StreamBuffer();
      output := new StreamBuffer();
      consumed, appended, steps, flows, writable := [], [], [], [Flow([], [], [])], {};
    }

    // The client does something; sending itself is left to the socket.
    method Do(action: Action)
      requires Valid()
      modifies this, input, output, writable
      ensures Valid() && fresh(writable - old(writable)) && steps == old(steps) + [Did(action)]
      ensures AsFlow() == old(AsFlow()).After(Did(action)) && old(output.usedSize) <= output.usedSize
      ensures action.StartSending? ==> output.usedSize == old(output.usedSize)
      ensures action.EchoInput? ==> consumed == kernel.delivered
    {
      Use(action);
      Record(Did(action));
    }

    ghost method Record(step: Step)
      requires Balanced() && Traced(flows, steps) && AsFlow() == flows[|steps|].After(step)
      modifies this`steps, this`flows
      ensures Valid() && steps == old(steps) + [step]
    {
      TracedOneMore(flows, steps, step);
      steps, flows := steps + [step], flows + [AsFlow()];
    }

    method Use(action: Action)
      requires Balanced()
      modifies this`consumed, this`appended, this`writable, input, output, writable
      ensures Balanced() && fresh(writable - old(writable))
      ensures AsFlow() == old(AsFlow()).After(Did(action)) && old(output.usedSize) <= output.usedSize
      ensures action.StartSending? ==> output.usedSize == old(output.usedSize)
      ensures action.EchoInput? ==> consumed == kernel.delivered
    {
      assert AsFlow().Left() == input.Content();
      match action
      case Append(data) =>
        assert data == [] ==> appended + data == appended;
        if data != [] { Append(data); }
      case EchoInput => EchoInput();
      case Consume(n) => if n <= input.usedSize { Consume(n); }
      case StartSending =>
    }

    // The client adds data to the output.
    method Append(data: seq<byte>)
      requires Balanced() && data != []
      modifies this`appended, this`writable, output, writable
      ensures Balanced() && fresh(writable - old(writable))
      ensures appended == old(appended) + data && output.usedSize == old(output.usedSize) + |data|
    {
      Associative(kernel.accepted, output.Content(), data);
      AppendBeside(output, input, data);
      writable := writable + Arrays(output.AsView().Free());
      appended := appended + data;
    }

    // The client moves all received data to the output without copying it.
    method EchoInput()
      requires Balanced()
      modifies this`appended, this`consumed, input, output
      ensures Balanced()
      ensures consumed == kernel.delivered == old(consumed + input.Content())
      ensures appended == old(appended + input.Content())
      ensures output.usedSize == old(output.usedSize + input.usedSize)
    {
      ghost var moved := input.Content();
      Associative(kernel.accepted, output.Content(), moved);
      var sb := SpliceBeside(input, output, input.usedSize);
      assert sb.Content() == moved;
      ShareBeside(output, sb, input);
      consumed := consumed + moved;
      appended := appended + moved;
    }

    // The client uses up some received data.
    method Consume(n: nat)
      requires Balanced() && n <= input.usedSize
      modifies this`consumed, input
      ensures Balanced()
      ensures consumed == old(consumed + input.Content()[..n])
    {
      ghost var taken := input.Content()[..n];
      MoveFront(consumed, input.Content(), n);
      CutBeside(input, output, n);
      consumed := consumed + taken;
    }

    // Afterwards there is room for MIN_SIZE bytes; the input itself is what it was.
    method AllocateReceiveBuffer()
      requires Balanced()
      modifies input, this`writable
      ensures Balanced() && fresh(writable - old(writable))
      ensures input.GetFreeSize() >= MIN_SIZE && input.Content() == old(input.Content())
      ensures old(input.GetFreeSize()) >= MIN_SIZE ==> input.AsView() == old(input.AsView())
    {
      if input.GetFreeSize() < MIN_SIZE {
        AllocateBeside(input, output, ALLOC_SIZE);
        writable := writable + Arrays(input.AsView().Free());
      }
    }

    method Receive(open: bool) returns (r: SysResult, ghost data: seq<byte>)
      requires Balanced() && input.GetFreeSize() > 0
      modifies kernel`delivered, kernel`receives, kernel`room, kernel`broken, input, writable
      ensures Balanced() && kernel.receives == old(kernel.receives) + [r] && (!open ==> r.Error?)
      ensures kernel.broken <==> old(kernel.broken) || r.Error? || r == Bytes(0)
      ensures kernel.delivered == old(kernel.delivered) + data && |data| == if r.Bytes? then r.n else 0
      ensures |kernel.room| < IOV_MAX ==> TotalSize(kernel.room) == old(input.GetFreeSize())
    {
      ghost var was := input.Content();
      r, data := ReceiveBeside(input, output, kernel, open);
      Associative(consumed, was, data);
    }

    // Receives with room for at least MIN_SIZE bytes.
    method ReceiveWithRoom(open: bool) returns (r: SysResult)
      requires Valid()
      modifies kernel`delivered, kernel`receives, kernel`room, kernel`broken
      modifies this`writable, this`steps, this`flows, input, writable
      ensures Valid() && fresh(writable - old(writable))
      ensures kernel.receives == old(kernel.receives) + [r] && (!open ==> r.Error?)
      ensures kernel.broken <==> old(kernel.broken) || r.Error? || r == Bytes(0)
      ensures old(kernel.delivered) <= kernel.delivered
      ensures |kernel.delivered| == |old(kernel.delivered)| + if r.Bytes? then r.n else 0
      ensures steps == old(steps) + [Got(kernel.delivered[|old(kernel.delivered)|..])]
      ensures |kernel.room| < IOV_MAX ==> TotalSize(kernel.room) >= MIN_SIZE
    {
      AllocateReceiveBuffer();
      ghost var data;
      r, data := Receive(open);
      Record(Got(data));
    }

    method Send(open: bool) returns (r: SysResult)
      requires Valid()
      modifies kernel`accepted, kernel`sends, kernel`offered, kernel`broken, output
      ensures Valid() && kernel.sends == old(kernel.sends) + [r]
      ensures (!open ==> r.Error?) && (kernel.broken <==> old(kernel.broken) || r.Error?)
      ensures var n := if r.Bytes? then r.n else 0;
        n <= old(output.usedSize) && kernel.accepted == old(kernel.accepted) + old(output.Content())[..n]
      ensures output.usedSize == old(output.usedSize) - if r.Bytes? then r.n else 0
      ensures |kernel.offered| == Least(old(Cover(output.buffers, output.usedSize)), IOV_MAX)
      ensures |kernel.offered| < IOV_MAX ==> TotalSize(kernel.offered) == old(output.usedSize)
    {
      ghost var sent, was := kernel.accepted, output.Content();
      r := SendBeside(output, input, kernel, open);
      MoveFront(sent, was, if r.Bytes? then r.n else 0);
    }
  }
}
