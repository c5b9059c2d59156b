/**
 Two stream buffers that share arrays. As long as no free cell of one is a cell of the
 other, working on one never shows in the content of the other, and every operation keeps
 it that way.
 */
module Sharing {
  import opened Basics
  import opened Memory
  import opened BufferViews
  import opened StreamBuffers

  // Two different buffers that do not interfere.
  ghost predicate NonInterfering(a: StreamBuffer, b: StreamBuffer)
    reads a, b
  {
    a != b && a.Valid() && b.Valid() && Separated(a.AsView(), b.AsView())
  }

  method AppendBeside(b: StreamBuffer, other: StreamBuffer, data: seq<byte>)
    requires NonInterfering(b, other) && data != []
    modifies b, Arrays(b.AsView().Free())
    ensures NonInterfering(b, other) && b.Content() == old(b.Content()) + data
    ensures other.Content() == old(other.Content())
    ensures fresh(Arrays(b.AsView().Free()) - old(Arrays(b.AsView().Free())))
  {
    ghost var v, w, bytes := other.AsView(), b.AsView(), other.Content();
    CellsAllocated(b.buffers);
    CellsAllocated(other.buffers);
    ghost var added := b.AppendData(data);
    ContentKept(v, w, bytes);
    ExtendConserves(w, added);
    ExtendKeepsSeparated(w, added, v);
    GrowKeepsSeparated(Extended(w, added), |data|, v);
  }

  method AllocateBeside(b: StreamBuffer, other: StreamBuffer, size: nat)
    requires NonInterfering(b, other)
    modifies b
    ensures NonInterfering(b, other) && b.Content() == old(b.Content()) && b.GetFreeSize() >= size
    ensures other.Content() == old(other.Content())
    ensures fresh(Arrays(b.AsView().Free()) - old(Arrays(b.AsView().Free())))
    ensures size > 0 ==> Locate(b.buffers, b.usedSize).0 < |b.buffers|
    ensures old(b.Compact()) ==> b.Compact()
  {
    ghost var v, w := other.AsView(), b.AsView();
    CellsAllocated(b.buffers);
    CellsAllocated(other.buffers);
    ghost var added := b.Allocate(size);
    ExtendKeepsSeparated(w, added, v);
    if size > 0 {
      BytesHavePlaces(b.buffers, b.usedSize);
    }
  }

  method CutBeside(b: StreamBuffer, other: StreamBuffer, size: nat)
    requires NonInterfering(b, other) && size <= b.usedSize
    modifies b
    ensures NonInterfering(b, other) && b.Content() == old(b.Content())[size..]
    ensures other.Content() == old(other.Content())
    ensures b.AsView().Free() == old(b.AsView().Free())
    ensures old(b.Compact()) ==> b.Compact()
  {
    ghost var v, w, bytes := other.AsView(), b.AsView(), other.Content();
    CellsAllocated(b.buffers);
    CellsAllocated(other.buffers);
    assert Separated(Tail(w, size), v) && Tail(w, size).Free() == w.Free() by {
      SplitConserves(w, size);
      SplitKeepsSeparated(w, size, v);
    }
    var ok := b.CutHead(size);
    assert other.AsView() == v && other.Valid() && other.Content() == bytes;
  }

  method GrowBeside(b: StreamBuffer, other: StreamBuffer, size: nat)
    requires NonInterfering(b, other) && size <= |b.AsView().Free()|
    modifies b
    ensures NonInterfering(b, other) && b.Content() == old(b.Content() + Read(b.AsView().Free()[..size]))
    ensures other.Content() == old(other.Content())
    ensures b.AsView().Free() == old(b.AsView().Free())[size..]
    ensures old(b.Compact()) ==> b.Compact()
  {
    GrowKeepsSeparated(b.AsView(), size, other.AsView());
    GrowConserves(b.AsView(), size);
    CellsAllocated(b.buffers);
    CellsAllocated(other.buffers);
    var ok := b.IncreaseUsed(size);
  }

  // The head of a buffer interferes with neither its rest nor anything else.
  method SpliceBeside(b: StreamBuffer, other: StreamBuffer, size: nat) returns (sb: StreamBuffer)
    requires NonInterfering(b, other) && size <= b.usedSize
    modifies b
    ensures fresh(sb) && NonInterfering(b, other) && NonInterfering(sb, other) && NonInterfering(sb, b)
    ensures sb.Content() == old(b.Content())[..size] && b.Content() == old(b.Content())[size..]
    ensures other.Content() == old(other.Content())
    ensures sb.AsView().Free() == [] && b.AsView().Free() == old(b.AsView().Free())
    ensures old(b.Compact()) ==> b.Compact()
  {
    ghost var v, w := other.AsView(), b.AsView();
    CellsAllocated(b.buffers);
    CellsAllocated(other.buffers);
    SplitConserves(w, size);
    SplitSeparates(w, size);
    SplitKeepsSeparated(w, size, v);
    var head := b.SpliceHead(size);
    sb := head;
  }

  // Appending shares cells of sb, and yet keeps the distance to sb and to any other buffer.
  method ShareBeside(b: StreamBuffer, sb: StreamBuffer, other: StreamBuffer)
    requires NonInterfering(b, sb) && NonInterfering(b, other) && NonInterfering(sb, other)
    modifies b
    ensures NonInterfering(b, sb) && NonInterfering(b, other)
    ensures b.Content() == old(b.Content()) + sb.Content()
    ensures sb.Content() == old(sb.Content()) && other.Content() == old(other.Content())
    ensures b.AsView().Free() == old(b.AsView().Free())
  {
    ghost var u, v, w, bytes, shared := sb.AsView(), other.AsView(), b.AsView(), other.Content(), sb.Content();
    CellsAllocated(b.buffers);
    CellsAllocated(sb.buffers);
    CellsAllocated(other.buffers);
    assert forall c :: c in w.Free() ==> c !in u.Used() by { UsedOutsideFree(w, u); }
    b.AppendStreamBuffer(sb);
    assert sb.AsView() == u && sb.Valid() && sb.Content() == shared;
    assert other.AsView() == v && other.Valid() && other.Content() == bytes;
    assert b.AsView().Free() == w.Free() && Separated(b.AsView(), u) && Separated(b.AsView(), v) by {
      AppendedApart(w, u, v);
    }
  }

  lemma AppendedApart(w: View, u: View, v: View)
    requires w.WellFormed() && u.WellFormed() && v.WellFormed()
    requires Separated(w, u) && Separated(w, v) && Separated(u, v)
    ensures forall c :: c in w.Free() ==> c !in u.Used()
    ensures Appended(w, u).Free() == w.Free()
    ensures Separated(Appended(w, u), u) && Separated(Appended(w, u), v)
  {
    UsedOutsideFree(w, u);
    UsedOutsideFree(v, u);
    FreeIsDistinct(u, 0);
    AppendConserves(w, u);
    AppendKeepsSeparated(w, u, v);
    AppendKeepsSeparated(w, u, u);
  }

  lemma UsedOutsideFree(v: View, u: View)
    requires v.used <= |v.cells| && u.used <= |u.cells| && Separated(v, u)
    ensures forall c :: c in v.Free() ==> c !in u.Used()
  {
    assert forall c :: c in u.Used() ==> c in u.cells;
  }

  // Cells handed out for writing were free or did not exist.
  lemma HandedOutCells(w: View, now: View, cells: seq<Cell>, added: seq<Cell>, dropped: nat, size: nat)
    requires w.WellFormed() && now.used <= |now.cells| && dropped <= |w.Free()| && |cells| == size
    requires now == if added == [] then Grown(w, size) else Inserted(w, added, size, dropped)
    requires added != [] ==> size <= |added|
    requires now.Used() == w.Used() + cells
    ensures forall c :: c in cells ==> c in w.Free() || c in added
    ensures forall c :: c in now.Free() ==> c in w.Free() || c in added
    ensures forall c :: c in w.Used() ==> c !in w.Free()
  {
    FreeIsDistinct(w, 0);
    assert cells == now.Used()[w.used..];
    forall k | 0 <= k < size ensures cells[k] in w.Free() || cells[k] in added {
      assert cells[k] == now.cells[w.used + k];
      if added == [] {
        assert cells[k] == w.Free()[k];
      } else {
        InsertedCell(w, added, size, dropped, w.used + k);
      }
    }
  }

  method MutableBeside(b: StreamBuffer, other: StreamBuffer, size: nat) returns (s: Slice)
    requires NonInterfering(b, other) && size > 0
    modifies b
    ensures NonInterfering(b, other) && s.InArray() && s.size == size
    ensures b.AsView().Used() == old(b.AsView().Used()) + SliceCells(s)
    ensures b.Content()[..old(b.usedSize)] == old(b.Content()) && other.Content() == old(other.Content())
    ensures forall c :: c in SliceCells(s) ==> c !in old(b.AsView().Used()) && c !in other.AsView().cells
    ensures s.base in old(Arrays(b.AsView().Free())) || fresh(s.base)
  {
    ghost var v, w, bytes := other.AsView(), b.AsView(), other.Content();
    CellsAllocated(b.buffers);
    CellsAllocated(other.buffers);
    ghost var added, dropped;
    s, added, dropped := b.GetMutableArray(size);
    assert other.AsView() == v && other.Valid() && other.Content() == bytes;
    assert Separated(b.AsView(), v) by {
      if added == [] {
        GrowKeepsSeparated(w, size, v);
      } else {
        InsertKeepsSeparated(w, added, size, dropped, v);
      }
    }
    HandedOutCells(w, b.AsView(), SliceCells(s), added, dropped, size);
    assert SliceCells(s)[0] in SliceCells(s);
  }

  lemma SliceWritten(s: Slice, cells: seq<Cell>, bytes: seq<byte>)
    requires Addressable(cells) && |cells| == |bytes| && forall c :: c in SliceCells(s) ==> c !in cells
    requires forall k ::
      0 <= k < |cells| && !(cells[k].base == s.base && s.offset <= cells[k].index < s.offset + s.size) ==>
      cells[k].base[cells[k].index] == bytes[k]
    ensures Read(cells) == bytes
  {
    forall k, m | 0 <= k < |cells| && 0 <= m < s.size ensures cells[k] != SliceCells(s)[m] {
      assert SliceCells(s)[m] in SliceCells(s);
    }
    forall k | 0 <= k < |cells| ensures !(cells[k].base == s.base && s.offset <= cells[k].index < s.offset + s.size) {
      var m := cells[k].index - s.offset;
      assert 0 <= m < s.size ==> cells[k] != SliceCells(s)[m];
    }
    ReadIs(cells, bytes);
  }

  // Writes the slice; none of the cells of the two lists is in it.
  method StoreAway(s: Slice, data: seq<byte>, ghost mine: seq<Cell>, ghost others: seq<Cell>)
    requires s.InArray() && s.size == |data| && Addressable(mine) && Addressable(others)
    requires forall c :: c in SliceCells(s) ==> c !in mine && c !in others
    modifies s.base
    ensures Addressable(SliceCells(s)) && Read(SliceCells(s)) == data
    ensures Read(mine) == old(Read(mine)) && Read(others) == old(Read(others))
  {
    ghost var mineWas, othersWas := Read(mine), Read(others);
    Store(s.base, s.offset, data);
    assert Read(mine) == mineWas by { SliceWritten(s, mine, mineWas); }
    assert Read(others) == othersWas by { SliceWritten(s, others, othersWas); }
    ReadSlice(s);
  }

  // Writes through a pointer to the last bytes of the content.
  method StoreBeside(b: StreamBuffer, other: StreamBuffer, ghost n: nat, s: Slice, data: seq<byte>)
    requires NonInterfering(b, other) && s.InArray() && s.size == |data| && n + |data| == b.usedSize
    requires b.AsView().Used()[n..] == SliceCells(s)
    requires forall c :: c in SliceCells(s) ==> c !in b.AsView().Used()[..n] && c !in other.AsView().cells
    modifies s.base
    ensures NonInterfering(b, other) && b.Content() == old(b.Content())[..n] + data
    ensures other.Content() == old(other.Content())
  {
    ghost var head := b.AsView().Used()[..n];
    CellsAllocated(b.buffers);
    CellsAllocated(other.buffers);
    assert Read(head) == b.Content()[..n];
    StoreAway(s, data, head, other.AsView().Used());
    assert b.AsView().Used() == head + SliceCells(s);
    ReadConcat(head, SliceCells(s));
  }

  // Asks for an array and fills it, as a serializer does.
  method WriteBeside(b: StreamBuffer, other: StreamBuffer, data: seq<byte>)
    requires NonInterfering(b, other) && data != []
    modifies b, Arrays(b.AsView().Free())
    ensures NonInterfering(b, other) && b.Content() == old(b.Content()) + data
    ensures other.Content() == old(other.Content())
  {
    ghost var n := b.usedSize;
    var s := MutableBeside(b, other, |data|);
    StoreBeside(b, other, n, s, data);
  }

  // A copy shares free space: what is appended to it replaces what the original had appended.
  method CopyWithFreeSpaceInterferes(x: seq<byte>, y: seq<byte>) returns (sb: StreamBuffer)
    requires |x| == |y| == 8
    ensures sb.Valid() && sb.Content() == y
  {
    sb := new StreamBuffer();
    ghost var added := sb.Allocate(8);
    BytesHavePlaces(sb.buffers, 0);
    var copy := new StreamBuffer.Copy(sb);
    sb.AppendAllocated(x);
    assert sb.Content() == x;
    copy.AppendAllocated(y);
    assert sb.AsView() == copy.AsView() && copy.Content() == y;
  }
}
