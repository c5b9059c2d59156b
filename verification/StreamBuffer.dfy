/**
 The scatter/gather stream buffer. Its list of slices is handled exactly as in the original;
 the contracts say what each operation does to the buffer's view and to its content.
 */
module StreamBuffers {
  import opened Basics
  import opened Memory
  import opened BufferViews
  import opened SliceLists

  const BUFFER_ALIGN_TO: nat := 8
  const IOV_MAX: nat := 1024

  // The next multiple of 8.
  function RoundUp(n: nat): (size: nat)
    ensures n <= size < n + BUFFER_ALIGN_TO
    ensures size % BUFFER_ALIGN_TO == 0
  {
    RoundsDown(n + BUFFER_ALIGN_TO - 1);
    (n + BUFFER_ALIGN_TO - 1) / BUFFER_ALIGN_TO * BUFFER_ALIGN_TO
  }

  lemma RoundsDown(k: nat)
    ensures k - BUFFER_ALIGN_TO < k / BUFFER_ALIGN_TO * BUFFER_ALIGN_TO <= k
    ensures k / BUFFER_ALIGN_TO * BUFFER_ALIGN_TO % BUFFER_ALIGN_TO == 0
  {
    var q := k / BUFFER_ALIGN_TO;
    assert k == 8 * q + k % 8;
    assert (8 * q) % 8 == 0;
  }

  method NewSlice(needSize: nat) returns (s: Slice)
    ensures fresh(s.base) && s.offset == 0 && s.size == s.base.Length == RoundUp(needSize)
  {
    var base := new byte[RoundUp(needSize)];
    s := Slice(base, 0, base.Length);
  }

  // One slice of a new array, holding the given cells, has been put at the end.
  ghost predicate Pushed(before: seq<Slice>, after: seq<Slice>, added: seq<Cell>) {
    && |after| > 0 && after[..|after| - 1] == before
    && after[|after| - 1].offset == 0 && added == SliceCells(after[|after| - 1])
  }

  // s starts in the first slice behind the n bytes of content in the list, not in the content.
  ghost predicate PointsBehind(s: Slice, offset: nat, size: nat, slices: seq<Slice>, n: nat)
    requires n <= TotalSize(slices)
  {
    && Cover(slices, n) < |slices|
    && s == Slice(slices[Cover(slices, n)].base, slices[Cover(slices, n)].offset + offset, size)
  }

  // What becomes of a list whose first n bytes are copied to one slice at its end.
  lemma LinearizedList(slices: seq<Slice>, n: nat, rest: seq<Slice>, s: Slice)
    requires InArrays(slices) && 0 < n <= TotalSize(slices) && rest == slices[Cover(slices, n)..]
    requires s.InArray() && n <= s.size
    ensures var list := rest + [s];
      && InArrays(list) && TotalSize(list) == |Cells(list)| == TotalSize(rest) + s.size
      && (TotalSize(rest) == 0 ==> Cells(list) == SliceCells(s) && View(Cells(list), n).WellFormed())
      && (rest != [] && TotalSize(rest) == 0 ==> list[0].size == 0)
    ensures slices != [] && (rest == [] <==> TotalSize(slices[..|slices| - 1]) < n)
  {
    var list := rest + [s];
    assert forall t :: t in list ==> t in slices || t == s;
    AppendSlice(rest, s);
    CellsAreTotal(list);
    if TotalSize(rest) == 0 {
      SliceIsWellFormed(rest, s, n);
    }
    CoverIsLeast(slices, n, |slices| - 1);
  }

  lemma LastPushed(before: seq<Slice>, after: seq<Slice>, added: seq<Cell>)
    requires Pushed(before, after, added)
    ensures |after| == |before| + 1 && after[|before|].size == |added| && after[|before|].offset == 0
    ensures before != [] ==> after[0] == before[0]
  {
    assert before == after[..|before|];
  }

  class StreamBuffer {
    var buffers: seq<Slice>
    var usedSize: nat
    var totalSize: nat

    ghost function AsView(): (v: View)
      reads this
    {
      View(Cells(buffers), usedSize)
    }

    ghost predicate Valid()
      reads this
    {
      && InArrays(buffers)
      && totalSize == TotalSize(buffers) == |Cells(buffers)|
      && AsView().WellFormed()
    }

    ghost predicate Compact()
      reads this
    {
      NoneEmpty(buffers)
    }

    // The bytes in the buffer.
    ghost function Content(): (bytes: seq<byte>)
      requires Valid()
      reads this, Arrays(AsView().cells)
      ensures |bytes| == usedSize
    {
      Read(AsView().Used())
    }

    constructor ()
      ensures Valid() && Compact() && buffers == [] && AsView() == View([], 0) && Content() == []
    {
      buffers, usedSize, totalSize := [], 0, 0;
    }

    // The copy shares all slices.
    constructor Copy(sb: StreamBuffer)
      requires sb.Valid()
      ensures Valid() && AsView() == sb.AsView() && Content() == sb.Content()
    {
      buffers, usedSize, totalSize := sb.buffers, sb.usedSize, sb.totalSize;
    }

    constructor Of(slices: seq<Slice>, used: nat, total: nat, ghost v: View)
      requires CoverUpTo(slices, Cells(slices), total) && v == View(Cells(slices), used) && v.WellFormed()
      ensures Valid() && AsView() == v
    {
      buffers, usedSize, totalSize := slices, used, total;
    }

    method Assign(sb: StreamBuffer)
      requires sb.Valid()
      modifies this
      ensures Valid() && AsView() == old(sb.AsView()) && Content() == old(sb.Content())
    {
      buffers, usedSize, totalSize := sb.buffers, sb.usedSize, sb.totalSize;
    }

    function GetFreeSize(): (n: nat)
      requires Valid()
      reads this
      ensures n == |AsView().Free()|
    {
      totalSize - usedSize
    }

    method Allocate(size: nat) returns (ghost added: seq<Cell>)
      requires Valid()
      modifies this
      ensures Valid() && AsView() == Extended(old(AsView()), added)
      ensures |added| == if old(GetFreeSize()) < size then RoundUp(size - old(GetFreeSize())) else 0
      ensures Distinct(added) && forall c :: c in added ==> fresh(c.base)
      ensures Content() == old(Content())
      ensures AsView().Free() == old(AsView().Free()) + added
      ensures if old(GetFreeSize()) >= size then buffers == old(buffers) else Pushed(old(buffers), buffers, added)
      ensures old(Compact()) ==> Compact()
    {
      added := [];
      ghost var arrays := Arrays(AsView().cells);
      if totalSize - usedSize < size {
        var s := NewSlice(size - (totalSize - usedSize));
        added := SliceCells(s);
        assert s.base !in arrays;
        AppendSlice(buffers, s);
        buffers := buffers + [s];
        totalSize := totalSize + s.size;
      }
      assert AsView().cells == old(AsView()).cells + added;
      ExtendConserves(old(AsView()), added);
    }

    // False stands for the Underflow exception.
    method IncreaseUsed(size: nat) returns (ok: bool)
      requires Valid()
      modifies this
      ensures Valid() && ok == (size <= old(GetFreeSize()))
      ensures AsView() == if ok then Grown(old(AsView()), size) else old(AsView())
      ensures buffers == old(buffers)
      ensures Content() == old(Content()) + if ok then Read(old(AsView()).Free()[..size]) else []
    {
      ghost var v := AsView();
      ok := usedSize + size <= totalSize;
      if ok {
        usedSize := usedSize + size;
        assert AsView().WellFormed() && AsView().Used() == v.Used() + v.Free()[..size] by { GrowConserves(v, size); }
        ReadConcat(v.Used(), v.Free()[..size]);
      }
    }

    // False stands for the Underflow exception.
    method CutHead(size: nat) returns (ok: bool)
      requires Valid()
      modifies this
      ensures Valid() && ok == (size <= old(totalSize))
      ensures ok ==> buffers == old(DropBytes(buffers, size))
      ensures old(Compact()) ==> Compact()
      ensures AsView() == if ok then Tail(old(AsView()), size) else old(AsView())
      ensures Content() ==
        if !ok then old(Content()) else old(Content())[if size <= old(usedSize) then size else old(usedSize)..]
    {
      if size > totalSize {
        return false;
      }
      ghost var v := AsView();
      CellsAllocated(buffers);
      usedSize := if size <= usedSize then usedSize - size else 0;
      totalSize := totalSize - size;
      buffers := DropFront(buffers, size);
      SplitContent(v, size);
      return true;
    }

    // Null stands for the Underflow exception.
    method SpliceHead(size: nat) returns (sb: StreamBuffer?)
      requires Valid()
      modifies this
      ensures Valid() && (sb == null <==> size > old(totalSize))
      ensures sb == null ==> AsView() == old(AsView())
      ensures sb != null ==> fresh(sb) && sb.Valid()
      ensures sb != null ==> sb.AsView() == Head(old(AsView()), size) && AsView() == Tail(old(AsView()), size)
      ensures sb != null ==> sb.Content() == old(Content())[..sb.usedSize]
      ensures sb != null ==> Content() == old(Content())[sb.usedSize..]
      ensures old(Compact()) ==> Compact()
    {
      if size > totalSize {
        return null;
      }
      sb := Splice(size);
    }

    method Splice(size: nat) returns (sb: StreamBuffer)
      requires Valid() && size <= totalSize
      modifies this
      ensures Valid() && fresh(sb) && sb.Valid()
      ensures sb.AsView() == Head(old(AsView()), size) && AsView() == Tail(old(AsView()), size)
      ensures sb.Content() == old(Content())[..sb.usedSize] && Content() == old(Content())[sb.usedSize..]
      ensures old(Compact()) ==> Compact()
    {
      ghost var v := AsView();
      CellsAllocated(buffers);
      SplitContent(v, size);
      var head, rest := SplitFront(buffers, size);
      sb := new StreamBuffer.Of(head, if size <= usedSize then size else usedSize, size, Head(v, size));
      buffers := rest;
      usedSize := if size <= usedSize then usedSize - size else 0;
      totalSize := totalSize - size;
    }

    // The used data as I/O vectors, cut off after IOV_MAX of them.
    method GetUsedIOVec() returns (v: seq<Slice>)
      requires Valid()
      ensures |v| == if Cover(buffers, usedSize) <= IOV_MAX then Cover(buffers, usedSize) else IOV_MAX
      ensures InArrays(v) && Cells(v) <= AsView().Used() && |Cells(v)| == TotalSize(v)
      ensures Cover(buffers, usedSize) <= IOV_MAX ==> Cells(v) == AsView().Used()
      ensures Addressable(Cells(v)) && Read(Cells(v)) <= Content()
    {
      v := CopyFront(buffers, usedSize, IOV_MAX);
      assert Cells(v) == AsView().Used()[..TotalSize(v)];
    }

    // The free space as I/O vectors, cut off after IOV_MAX of them.
    method GetFreeIOVec() returns (v: seq<Slice>)
      requires Valid()
      ensures InArrays(v) && Cells(v) <= AsView().Free() && |Cells(v)| == TotalSize(v)
      ensures var left := |buffers| - Locate(buffers, usedSize).0; |v| == if left <= IOV_MAX then left else IOV_MAX
      ensures |v| < IOV_MAX ==> Cells(v) == AsView().Free()
      ensures Compact() && GetFreeSize() > 0 ==> TotalSize(v) > 0
    {
      v := ListRest(buffers, usedSize, IOV_MAX);
    }

    // Shares the used data of sb, which may be this very buffer.
    method AppendStreamBuffer(sb: StreamBuffer)
      requires Valid() && sb.Valid()
      requires forall c :: c in AsView().Free() ==> c !in sb.AsView().Used()
      modifies this
      ensures Valid() && AsView() == Appended(old(AsView()), old(sb.AsView()))
      ensures Content() == old(Content()) + old(sb.Content())
    {
      ghost var v, w := AsView(), sb.AsView();
      CellsAllocated(buffers);
      CellsAllocated(sb.buffers);
      AppendContent(v, w);
      buffers := InsertFront(buffers, usedSize, sb.buffers, sb.usedSize);
      totalSize := totalSize + sb.usedSize;
      usedSize := usedSize + sb.usedSize;
    }

    // Copies the data behind the content, allocating space if needed.
    method AppendData(data: seq<byte>) returns (ghost added: seq<Cell>)
      requires Valid() && (data != [] || Locate(buffers, usedSize).0 < |buffers|)
      modifies this, Arrays(AsView().Free())
      ensures Valid() && AsView() == Grown(Extended(old(AsView()), added), |data|)
      ensures |added| == if old(GetFreeSize()) < |data| then RoundUp(|data| - old(GetFreeSize())) else 0
      ensures Distinct(added) && forall c :: c in added ==> fresh(c.base)
      ensures Content() == old(Content()) + data
      ensures forall a, i :: a in old(Arrays(AsView().Free())) && 0 <= i < a.Length ==>
        Cell(a, i) in old(AsView().Free()) || a[i] == old(a[i])
    {
      CellsAllocated(buffers);
      ghost var free, arrays := AsView().Free(), Arrays(AsView().Free());
      added := Allocate(|data|);
      if data != [] {
        BytesHavePlaces(buffers, usedSize);
      }
      AppendAllocated(data);
      forall a, i | a in arrays && 0 <= i < a.Length ensures Cell(a, i) in free || a[i] == old(a[i]) {
        assert Cell(a, i) !in added && (Cell(a, i) in free + added ==> Cell(a, i) in free);
      }
    }

    method AppendAllocated(data: seq<byte>)
      requires Valid() && |data| <= GetFreeSize() && Locate(buffers, usedSize).0 < |buffers|
      modifies this, Arrays(AsView().Free())
      ensures Valid() && AsView() == Grown(old(AsView()), |data|) && buffers == old(buffers)
      ensures Content() == old(Content()) + data
      ensures forall a, i :: a in old(Arrays(AsView().Free())) && 0 <= i < a.Length ==>
        Cell(a, i) in old(AsView().Free()) || a[i] == old(a[i])
    {
      ghost var v, content := AsView(), Content();
      CellsAllocated(buffers);
      Fill(data);
      assert Content() == content && Read(v.Free()[..|data|]) == data;
      var ok := IncreaseUsed(|data|);
    }

    // Writes data into the first free cells; the content is what it was.
    method Fill(data: seq<byte>)
      requires Valid() && |data| <= GetFreeSize() && Locate(buffers, usedSize).0 < |buffers|
      modifies Arrays(AsView().Free())
      ensures Valid() && AsView() == old(AsView()) && Content() == old(Content())
      ensures Read(AsView().Free()[..|data|]) == data
      ensures forall a, i :: a in Arrays(AsView().Free()) && 0 <= i < a.Length ==>
        Cell(a, i) in AsView().Free() || a[i] == old(a[i])
    {
      ghost var v, content := AsView(), Content();
      CellsAllocated(buffers);
      FreeIsDistinct(v, |data|);
      ghost var target := v.Free()[..|data|];
      WriteAt(buffers, usedSize, data, target);
      assert Read(target) == data by { ReadIs(target, data); }
      assert Read(v.Used()) == content by { ContentKept(View(v.Used(), v.used), v, content); }
    }

    // Makes size contiguous bytes used and returns where they start.
    method GetMutableArray(size: nat) returns (s: Slice, ghost added: seq<Cell>, ghost dropped: nat)
      requires Valid() && (size > 0 || buffers != [])
      modifies this
      ensures Valid() && s.InArray() && s.size == size
      ensures dropped <= |old(AsView()).Free()| && (added == [] || |added| == RoundUp(size))
      ensures AsView() == if added == [] then Grown(old(AsView()), size)
        else Inserted(old(AsView()), added, size, dropped)
      // What was left of a slice is given up if it is too small.
      ensures added == [] <==> size == 0 || old(FitsBehind(size))
      ensures dropped == if added == [] then 0 else RestOfSlice(old(buffers), old(usedSize))
      ensures added != [] ==> NextDivision(old(buffers), old(usedSize), old(usedSize) + dropped)
      ensures GetFreeSize() + size + dropped == old(GetFreeSize()) + |added|
      ensures AsView().Used() == old(AsView()).Used() + SliceCells(s)
      ensures Distinct(added) && forall c :: c in added ==> fresh(c.base)
      ensures Content()[..old(usedSize)] == old(Content())
    {
      CellsAllocated(buffers);
      added, dropped := [], 0;
      var i, offset := FindLocation(buffers, usedSize);
      assert i == |buffers| ==> usedSize == totalSize by { LocateDivides(buffers, usedSize); }
      if i == |buffers| {
        s, added := GetMutableArrayNoFreeBuffers(size);
      } else if buffers[i].size - offset >= size {
        s := GetMutableArrayInPlace(i, offset, size);
      } else {
        s, added, dropped := GetMutableArrayFirstUnusedBufferTooSmall(size);
      }
    }

    // There is so much space in the first slice that is not used up.
    ghost predicate FitsBehind(size: nat)
      requires Valid()
      reads this
    {
      var (i, offset) := Locate(buffers, usedSize);
      i < |buffers| && offset + size <= buffers[i].size
    }

    method GetMutableArrayInPlace(i: nat, offset: nat, size: nat) returns (s: Slice)
      requires Valid() && (i, offset) == Locate(buffers, usedSize)
      requires i < |buffers| && buffers[i].size - offset >= size
      modifies this
      ensures Valid() && s.InArray() && s.size == size
      ensures AsView() == Grown(old(AsView()), size) && GetFreeSize() + size == old(GetFreeSize())
      ensures AsView().Used() == old(AsView()).Used() + SliceCells(s)
      ensures Content()[..old(usedSize)] == old(Content())
    {
      ghost var v := AsView();
      CellsAllocated(buffers);
      PieceFrom(buffers, usedSize, size);
      s := buffers[i].Drop(offset).Take(size);
      GrowConserves(v, size);
      usedSize := usedSize + size;
      ReadConcat(v.Used(), SliceCells(s));
    }

    method GetMutableArrayNoFreeBuffers(size: nat) returns (s: Slice, ghost added: seq<Cell>)
      requires Valid() && (size > 0 || buffers != []) && usedSize == totalSize
      modifies this
      ensures Valid() && s.InArray() && s.size == size
      ensures AsView() == if added == [] then Grown(old(AsView()), size) else Inserted(old(AsView()), added, size, 0)
      ensures |added| == RoundUp(size) && GetFreeSize() + size == |added|
      ensures NextDivision(old(buffers), old(usedSize), old(usedSize))
      ensures AsView().Used() == old(AsView()).Used() + SliceCells(s)
      ensures Content()[..old(usedSize)] == old(Content())
      ensures Distinct(added) && forall c :: c in added ==> fresh(c.base)
    {
      ghost var v := AsView();
      CellsAllocated(buffers);
      assert NextDivision(buffers, usedSize, usedSize) by { assert buffers[..|buffers|] == buffers; }
      added := Allocate(size);
      s := buffers[|buffers| - 1].Take(size);
      assert s.InArray() && SliceCells(s) == added[..size] by { assert buffers[|buffers| - 1] in buffers; }
      InsertIntoFull(v, added, size);
      usedSize := usedSize + size;
      ReadConcat(v.Used(), SliceCells(s));
    }

    method GetMutableArrayFirstUnusedBufferTooSmall(size: nat)
      returns (s: Slice, ghost added: seq<Cell>, ghost dropped: nat)
      requires Valid() && size > 0 && Locate(buffers, usedSize).0 < |buffers|
      modifies this
      ensures Valid() && s.InArray() && s.size == size && added != []
      ensures dropped == RestOfSlice(old(buffers), old(usedSize)) <= |old(AsView()).Free()| && |added| == RoundUp(size)
      ensures NextDivision(old(buffers), old(usedSize), old(usedSize) + dropped)
      ensures GetFreeSize() + size + dropped == old(GetFreeSize()) + |added|
      ensures AsView() == Inserted(old(AsView()), added, size, dropped)
      ensures AsView().Used() == old(AsView()).Used() + SliceCells(s)
      ensures Content()[..old(usedSize)] == old(Content())
      ensures Distinct(added) && forall c :: c in added ==> fresh(c.base)
    {
      CellsAllocated(buffers);
      ghost var v, arrays := AsView(), Arrays(AsView().cells);
      var room := NewSlice(size);
      added := SliceCells(room);
      assert NewTo(added, v) by { assert room.base !in arrays; }
      var toTruncate;
      buffers, toTruncate := InsertSlice(buffers, usedSize, room);
      dropped := toTruncate;
      totalSize := totalSize - toTruncate + room.size;
      usedSize := usedSize + size;
      s := room.Take(size);
      assert AsView() == Inserted(v, added, size, dropped) && SliceCells(s) == added[..size];
      InsertConserves(v, added, size, dropped);
      ReadConcat(v.Used(), SliceCells(s));
    }

    // No slice is wholly behind the content.
    ghost predicate LastSliceUsed()
      reads this
    {
      |buffers| > 0 && TotalSize(buffers[..|buffers| - 1]) < usedSize
    }

    // The content is in the first slice, at an aligned address.
    ghost predicate Linear()
      reads this
    {
      usedSize > 0 ==> |buffers| > 0 && usedSize <= buffers[0].size && buffers[0].offset % BUFFER_ALIGN_TO == 0
    }

    // Copies the content to one slice of its own. Slices wholly behind the content are kept in
    // front of it but no longer counted: the buffer stays intact exactly when they are empty,
    // and is linear exactly when there are none.
    method ForceLinearize()
      requires Valid() && usedSize > 0
      modifies this
      ensures |buffers| > 0 && fresh(buffers[|buffers| - 1].base) && buffers[|buffers| - 1].offset == 0
      ensures buffers[..|buffers| - 1] == old(buffers[Cover(buffers, usedSize)..])
      ensures usedSize == old(usedSize) && totalSize == RoundUp(usedSize) == buffers[|buffers| - 1].size
      ensures Valid() <==> TotalSize(old(buffers[Cover(buffers, usedSize)..])) == 0
      ensures Valid() ==> AsView() == View(SliceCells(buffers[|buffers| - 1]), usedSize) && Content() == old(Content())
      ensures Valid() && Linear() <==> old(LastSliceUsed())
      ensures old(LastSliceUsed()) ==> |buffers| == 1
    {
      ghost var slices, content := buffers, Content();
      ghost var arrays := Arrays(AsView().cells);
      var s := NewSlice(usedSize);
      assert s.base !in arrays;
      var rest := CopyOut(buffers, usedSize, s.base);
      assert Addressable(SliceCells(s)[..usedSize]) && Read(SliceCells(s)[..usedSize]) == content by {
        ReadIs(SliceCells(s)[..usedSize], s.base[..usedSize]);
      }
      LinearizedList(slices, usedSize, rest, s);
      buffers := rest + [s];
      totalSize := s.size;
    }

    // Afterwards the buffer is intact and linear exactly if it was linear or had no slice
    // wholly behind its content.
    method Linearize()
      requires Valid()
      modifies this
      ensures usedSize == old(usedSize)
      ensures Valid() && Linear() <==> old(Linear() || LastSliceUsed())
      ensures !old(Linear()) ==> (Valid() <==> TotalSize(old(buffers[Cover(buffers, usedSize)..])) == 0)
      ensures old(Linear()) ==> AsView() == old(AsView()) && Content() == old(Content())
      ensures old(LastSliceUsed()) ==> Content() == old(Content())
    {
      if usedSize > 0 && (buffers[0].size < usedSize || buffers[0].offset % BUFFER_ALIGN_TO != 0) {
        ForceLinearize();
      }
    }

    // Some slice alone holds the given bytes.
    ghost predicate InOneSlice(offset: nat, size: nat)
      requires Valid()
      reads this
    {
      offset + size <= usedSize && var (i, o) := Locate(buffers, offset); i < |buffers| && o + size <= buffers[i].size
    }

    // The buffer is intact, and s is these bytes of it.
    ghost predicate PointsAt(s: Slice, offset: nat, size: nat)
      reads this
    {
      && Valid() && offset + size <= usedSize
      && s.InArray() && SliceCells(s) == AsView().cells[offset..offset + size]
    }

    // A pointer to size bytes of the content; false stands for the Overflow exception.
    method GetConstArray(offset: nat, size: nat) returns (ok: bool, s: Slice)
      requires Valid() && (offset + size <= usedSize ==> Locate(buffers, offset).0 < |buffers|)
      modifies this
      ensures ok == (offset + size <= old(usedSize)) && usedSize == old(usedSize) && (!ok ==> s.size == 0)
      ensures !ok || old(InOneSlice(offset, size)) ==> Valid() && AsView() == old(AsView())
      ensures ok && old(InOneSlice(offset, size) || LastSliceUsed()) ==>
        && Valid() && Content() == old(Content())
        && s.InArray() && s.size == size && Read(SliceCells(s)) == old(Content())[offset..offset + size]
      ensures ok && size > 0 ==> (PointsAt(s, offset, size) <==> old(InOneSlice(offset, size) || LastSliceUsed()))
      ensures ok && size > 0 && !old(InOneSlice(offset, size) || LastSliceUsed()) ==>
        PointsBehind(s, offset, size, old(buffers), old(usedSize))
    {
      if offset + size > usedSize {
        s := NewSlice(0);
        return false, s;
      }
      CellsAllocated(buffers);
      var i, o := FindLocation(buffers, offset);
      if buffers[i].size - o >= size {
        OneSliceHolds(buffers, usedSize, offset, size);
        PieceFrom(buffers, offset, size);
        s := buffers[i].Drop(o).Take(size);
      } else {
        s := ForceLinearizeAt(offset, size);
      }
      return true, s;
    }

    method ForceLinearizeAt(offset: nat, size: nat) returns (s: Slice)
      requires Valid() && 0 < offset + size <= usedSize
      modifies this
      ensures usedSize == old(usedSize)
      ensures old(LastSliceUsed()) ==>
        && Valid() && Content() == old(Content()) && s.offset == offset
        && s.InArray() && s.size == size && Read(SliceCells(s)) == old(Content())[offset..offset + size]
      ensures size > 0 ==> (PointsAt(s, offset, size) <==> old(LastSliceUsed()))
      ensures size > 0 && !old(LastSliceUsed()) ==> PointsBehind(s, offset, size, old(buffers), old(usedSize))
    {
      CoverIsLeast(buffers, usedSize, |buffers| - 1);
      ghost var k := Cover(buffers, usedSize);
      ghost var behind := buffers[if k < |buffers| then k else 0];
      ForceLinearize();
      s := Slice(buffers[0].base, buffers[0].offset + offset, size);
      if old(LastSliceUsed()) {
        assert buffers[0] in buffers;
        ReadPart(SliceCells(s), AsView().cells, usedSize, offset);
      } else if size > 0 {
        assert buffers[0] == buffers[..|buffers| - 1][0] == behind;
        assert SliceCells(s)[0].base == behind.base != buffers[|buffers| - 1].base;
        assert Valid() ==> AsView().cells[offset..offset + size][0].base == buffers[|buffers| - 1].base;
      }
    }

    ghost predicate FirstSliceServes(size: nat, alignment: nat)
      requires alignment > 0
      reads this
    {
      buffers != [] && buffers[0].size >= size && buffers[0].offset % alignment == 0
    }

    // A pointer to the first size bytes of the content, at an address aligned as asked for.
    method GetData(size: nat, alignment: nat) returns (ok: bool, s: Slice)
      requires Valid() && size > 0 && alignment in {1, 2, 4, 8}
      modifies this
      ensures ok == (size <= old(usedSize)) && usedSize == old(usedSize) && (!ok ==> s.size == 0)
      ensures !ok || old(FirstSliceServes(size, alignment)) ==> Valid() && AsView() == old(AsView())
      ensures ok && old(FirstSliceServes(size, alignment) || LastSliceUsed()) ==>
        && Valid() && Content() == old(Content()) && s.offset % alignment == 0
        && s.InArray() && s.size == size && Read(SliceCells(s)) == old(Content())[..size]
      ensures ok ==> (PointsAt(s, 0, size) <==> old(FirstSliceServes(size, alignment) || LastSliceUsed()))
      ensures ok && !old(FirstSliceServes(size, alignment) || LastSliceUsed()) ==>
        PointsBehind(s, 0, size, old(buffers), old(usedSize))
    {
      if usedSize < size {
        s := NewSlice(0);
        return false, s;
      }
      if buffers[0].size < size || buffers[0].offset % alignment != 0 {
        s := ForceLinearizeAt(0, size);
      } else {
        s := buffers[0].Take(size);
        assert buffers[0] in buffers;
        ReadPart(SliceCells(s), AsView().cells, usedSize, 0);
      }
      return true, s;
    }
  }

  lemma SecondSliceLeft(list: seq<Slice>, n: nat)
    requires |list| == 2 && 0 < n <= list[0].size
    ensures Cover(list, n) == 1 && TotalSize(list[1..]) == list[1].size
    ensures TotalSize(list[..1]) == list[0].size
  {
    assert list[1..][1..] == [] && list[..1][1..] == [];
  }

  lemma ThirdSliceLeft(list: seq<Slice>, n: nat)
    requires |list| == 3 && list[0].size < n <= list[0].size + list[1].size
    ensures Cover(list, n) == 2 && TotalSize(list[..2]) == list[0].size + list[1].size
  {
    assert list[..2][1..] == [list[1]] && [list[1]][1..] == [];
    CoverIsLeast(list, n, 2);
    CoverIsLeast(list, n, 1);
    assert list[..1][1..] == [];
  }

  // Eight bytes of content and nothing else.
  method FullSlice(data: seq<byte>) returns (sb: StreamBuffer)
    requires |data| == 8
    ensures fresh(sb) && sb.Valid() && sb.usedSize == sb.totalSize == 8
    ensures |sb.buffers| == 1 && sb.buffers[0].offset == 0 && sb.buffers[0].size == 8
  {
    sb := new StreamBuffer();
    var added := sb.Allocate(8);
    LastPushed([], sb.buffers, added);
    sb.AppendAllocated(data);
  }

  // And a second slice of free space.
  method TrailingSpace(data: seq<byte>) returns (sb: StreamBuffer)
    requires |data| == 8
    ensures fresh(sb) && sb.Valid() && sb.usedSize == 8
    ensures |sb.buffers| == 2 && sb.buffers[0].offset == 0 && sb.buffers[0].size == 8 && sb.buffers[1].size == 80
    ensures fresh(sb.buffers[1].base) && sb.AsView().Free() == SliceCells(sb.buffers[1])
  {
    sb := FullSlice(data);
    ghost var list := sb.buffers;
    assert sb.AsView().Free() == [];
    var added := sb.Allocate(80);
    assert |sb.buffers| == 2 && sb.buffers[0] == list[0] && sb.buffers[1].size == |added| == 80 by {
      LastPushed(list, sb.buffers, added);
    }
    assert sb.AsView().Free() == added;
    assert added[0] == Cell(sb.buffers[1].base, 0);
  }

  // Linearisation counts on the last slice holding used bytes. With a wholly free slice
  // behind the content, the buffer's books no longer balance afterwards.
  method LinearizeWithTrailingSpaceBreaks(data: seq<byte>) returns (sb: StreamBuffer)
    requires |data| == 8
    ensures sb.usedSize == 7 && !sb.Valid()
  {
    sb := TrailingSpace(data);
    ghost var list := sb.buffers;
    var ok := sb.CutHead(1);
    assert sb.buffers == [list[0].Drop(1)] + list[1..];
    SecondSliceLeft(sb.buffers, 7);
    sb.Linearize();
  }

  // Then the first of the bytes as a number that needs an aligned address is not read from
  // them, but from the free slice.
  method GetDataWithTrailingSpaceIsWrong(data: seq<byte>) returns (s: Slice, free: Slice)
    requires |data| == 8
    ensures s.base == free.base && s.offset == free.offset && s.size == 4
  {
    var sb := TrailingSpace(data);
    ghost var list := sb.buffers;
    var ok := sb.CutHead(1);
    assert sb.buffers == [list[0].Drop(1)] + list[1..];
    SecondSliceLeft(sb.buffers, 7);
    free := sb.buffers[1];
    assert !sb.FirstSliceServes(4, 4);
    ok, s := sb.GetData(4, 4);
  }

  // Sixteen bytes of content in two slices and a third slice of free space.
  method TrailingSpaceBehindTwo(data: seq<byte>) returns (sb: StreamBuffer)
    requires |data| == 8
    ensures fresh(sb) && sb.Valid() && sb.usedSize == 16
    ensures |sb.buffers| == 3 && sb.buffers[0].size == 8 && sb.buffers[1].size == 80
  {
    sb := TrailingSpace(data);
    BytesHavePlaces(sb.buffers, 8);
    assert Arrays(sb.AsView().Free()) <= {sb.buffers[1].base};
    sb.AppendAllocated(data);
    ghost var list := sb.buffers;
    assert sb.GetFreeSize() == 72;
    var added := sb.Allocate(200);
    LastPushed(list, sb.buffers, added);
    assert sb.buffers[..2] == list;
  }

  // And bytes 4 to 11 are not read from the content either.
  method GetConstArrayWithTrailingSpaceIsWrong(data: seq<byte>) returns (s: Slice, free: Slice)
    requires |data| == 8
    ensures s.base == free.base && s.offset == free.offset + 4 && s.size == 8
  {
    var sb := TrailingSpaceBehindTwo(data);
    ThirdSliceLeft(sb.buffers, 16);
    free := sb.buffers[2];
    assert Locate(sb.buffers, 4) == (0, 4);
    var ok;
    ok, s := sb.GetConstArray(4, 8);
  }
}
