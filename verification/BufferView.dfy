/**
 What a stream buffer is to its users: the cells it owns or shares, in order, of which the
 first `used` hold its content and the others are free to be written. Every operation of a
 stream buffer is one of the functions below; the lemmas are the laws they obey.
 */
module BufferViews {
  import opened Basics
  import opened Memory

  ghost predicate Apart(cells: seq<Cell>, i: int, j: int)
    requires 0 <= i < |cells| && 0 <= j < |cells|
  {
    i != j ==> cells[i] != cells[j]
  }

  datatype View = View(cells: seq<Cell>, used: nat) {

    ghost function Used(): seq<Cell>
      requires used <= |cells|
    {
      cells[..used]
    }

    ghost function Free(): seq<Cell>
      requires used <= |cells|
    {
      cells[used..]
    }

    // No free cell occurs anywhere else, so that writing it cannot change the content.
    ghost predicate WellFormed() {
      && used <= |cells|
      && Addressable(cells)
      && forall i, j :: used <= i < |cells| && 0 <= j < |cells| ==> Apart(cells, i, j)
    }
  }

  // Writing through one of the two buffers leaves the other alone, whichever is written.
  ghost predicate Separated(v: View, w: View)
    requires v.used <= |v.cells| && w.used <= |w.cells|
  {
    && (forall c :: c in v.Free() ==> c !in w.cells)
    && (forall c :: c in w.Free() ==> c !in v.cells)
  }

  // The cells of arrays that did not exist before.
  ghost predicate NewTo(added: seq<Cell>, v: View) {
    forall c :: c in added ==> c !in v.cells
  }

  ghost predicate Distinct(cells: seq<Cell>) {
    forall i, j :: 0 <= i < |cells| && 0 <= j < |cells| ==> Apart(cells, i, j)
  }

  ghost function Extended(v: View, added: seq<Cell>): View {
    View(v.cells + added, v.used)
  }

  ghost function Head(v: View, n: nat): View
    requires n <= |v.cells|
  {
    View(v.cells[..n], if n <= v.used then n else v.used)
  }

  ghost function Tail(v: View, n: nat): View
    requires n <= |v.cells|
  {
    View(v.cells[n..], if n <= v.used then v.used - n else 0)
  }

  ghost function Grown(v: View, n: nat): View {
    View(v.cells, v.used + n)
  }

  // The used cells of w go between the used and the free cells of v.
  ghost function Appended(v: View, w: View): View
    requires v.used <= |v.cells| && w.used <= |w.cells|
  {
    View(v.Used() + w.Used() + v.Free(), v.used + w.used)
  }

  // n cells of a new array become used; the first `dropped` free cells are given up.
  ghost function Inserted(v: View, added: seq<Cell>, n: nat, dropped: nat): View
    requires v.used <= |v.cells| && dropped <= |v.Free()|
  {
    View(v.Used() + added + v.Free()[dropped..], v.used + n)
  }

  lemma FreeIsDistinct(v: View, n: nat)
    requires v.WellFormed() && v.used + n <= |v.cells|
    ensures Distinct(v.Free()[..n]) && v.Free()[..n] == v.cells[v.used..v.used + n]
    ensures forall c :: c in v.Used() ==> c !in v.Free()
    ensures forall c :: c in v.Free()[..n] ==> c in v.Free()
    ensures Arrays(v.Free()[..n]) <= Arrays(v.Free())
  {
    var free := v.Free()[..n];
    forall i, j | 0 <= i < |free| && 0 <= j < |free| ensures Apart(free, i, j) {
      assert Apart(v.cells, v.used + i, v.used + j);
    }
    forall i, j | 0 <= i < v.used && 0 <= j < |v.Free()| ensures v.Used()[i] != v.Free()[j] {
      assert Apart(v.cells, v.used + j, i);
    }
  }

  // Splitting loses nothing, keeps the order and never hands a byte to both parts.
  lemma SplitConserves(v: View, n: nat)
    requires v.WellFormed() && n <= |v.cells|
    ensures Head(v, n).WellFormed() && Tail(v, n).WellFormed()
    ensures Head(v, n).Used() + Tail(v, n).Used() == v.Used()
    ensures |Head(v, n).cells| + |Tail(v, n).cells| == |v.cells|
    ensures n <= v.used ==> Head(v, n).Free() == [] && Tail(v, n).Free() == v.Free()
  {
    var h, t := Head(v, n), Tail(v, n);
    forall i, j | h.used <= i < |h.cells| && 0 <= j < |h.cells| ensures Apart(h.cells, i, j) {
      assert Apart(v.cells, i, j);
    }
    forall i, j | t.used <= i < |t.cells| && 0 <= j < |t.cells| ensures Apart(t.cells, i, j) {
      assert Apart(v.cells, n + i, n + j);
    }
  }

  lemma SplitContent(v: View, n: nat)
    requires v.WellFormed() && n <= |v.cells|
    ensures Head(v, n).WellFormed() && Tail(v, n).WellFormed()
    ensures Read(Head(v, n).Used()) == Read(v.Used())[..if n <= v.used then n else v.used]
    ensures Read(Tail(v, n).Used()) == Read(v.Used())[if n <= v.used then n else v.used..]
  {
    SplitConserves(v, n);
    ReadConcat(Head(v, n).Used(), Tail(v, n).Used());
  }

  // The parts of a split share arrays but no free cell of one is a cell of the other.
  lemma SplitSeparates(v: View, n: nat)
    requires v.WellFormed() && n <= |v.cells|
    ensures Separated(Head(v, n), Tail(v, n))
  {
    var h, t := Head(v, n), Tail(v, n);
    forall i, k | 0 <= i < |h.Free()| && 0 <= k < |t.cells| ensures h.Free()[i] != t.cells[k] {
      assert Apart(v.cells, h.used + i, n + k);
    }
    forall i, k | 0 <= i < |t.Free()| && 0 <= k < |h.cells| ensures t.Free()[i] != h.cells[k] {
      assert Apart(v.cells, n + t.used + i, k);
    }
  }

  // A part of a buffer is separated from whatever the whole is separated from.
  lemma SplitKeepsSeparated(v: View, n: nat, other: View)
    requires v.WellFormed() && n <= |v.cells| && other.used <= |other.cells|
    requires Separated(v, other)
    ensures Separated(Head(v, n), other) && Separated(Tail(v, n), other)
  {
    assert forall c :: c in Head(v, n).Free() ==> c in v.Free();
    assert forall c :: c in Tail(v, n).Free() ==> c in v.Free();
  }

  lemma ExtendConserves(v: View, added: seq<Cell>)
    requires v.WellFormed() && Addressable(added) && Distinct(added) && NewTo(added, v)
    ensures Extended(v, added).WellFormed()
    ensures Extended(v, added).Used() == v.Used()
    ensures Extended(v, added).Free() == v.Free() + added
  {
    var e := Extended(v, added);
    forall i, j | e.used <= i < |e.cells| && 0 <= j < |e.cells| ensures Apart(e.cells, i, j) {
      if i < |v.cells| && j < |v.cells| {
        assert Apart(v.cells, i, j);
      } else if i >= |v.cells| && j >= |v.cells| {
        assert Apart(added, i - |v.cells|, j - |v.cells|);
      } else {
        assert e.cells[if i < j then j else i] in added && e.cells[if i < j then i else j] in v.cells;
      }
    }
  }

  lemma GrowConserves(v: View, n: nat)
    requires v.WellFormed() && v.used + n <= |v.cells|
    ensures Grown(v, n).WellFormed()
    ensures Grown(v, n).Used() == v.Used() + v.Free()[..n]
    ensures Grown(v, n).Free() == v.Free()[n..]
  {
  }

  lemma ExtendKeepsSeparated(v: View, added: seq<Cell>, other: View)
    requires v.WellFormed() && other.used <= |other.cells|
    requires Separated(v, other) && NewTo(added, other)
    ensures Separated(Extended(v, added), other)
  {
    assert Extended(v, added).Free() == v.Free() + added;
  }

  lemma GrowKeepsSeparated(v: View, n: nat, other: View)
    requires v.WellFormed() && v.used + n <= |v.cells| && other.used <= |other.cells|
    requires Separated(v, other)
    ensures Separated(Grown(v, n), other)
  {
    assert Grown(v, n).Free() == v.Free()[n..];
  }

  lemma AppendConserves(v: View, w: View)
    requires v.WellFormed() && w.used <= |w.cells| && Addressable(w.cells)
    requires forall c :: c in v.Free() ==> c !in w.Used()
    ensures Appended(v, w).WellFormed()
    ensures Appended(v, w).Used() == v.Used() + w.Used()
    ensures Appended(v, w).Free() == v.Free()
  {
    var a := Appended(v, w);
    forall i, j | a.used <= i < |a.cells| && 0 <= j < |a.cells| ensures Apart(a.cells, i, j) {
      assert a.cells[i] == v.Free()[i - a.used] == v.cells[i - w.used];
      if v.used <= j < a.used {
        assert a.cells[j] == w.Used()[j - v.used] && a.cells[j] in w.Used() && a.cells[i] in v.Free();
      } else {
        var k := if j < v.used then j else j - w.used;
        assert a.cells[j] == v.cells[k] && Apart(v.cells, i - w.used, k);
      }
    }
  }

  lemma AppendContent(v: View, w: View)
    requires v.WellFormed() && w.WellFormed()
    requires forall c :: c in v.Free() ==> c !in w.Used()
    ensures Appended(v, w).WellFormed()
    ensures Read(Appended(v, w).Used()) == Read(v.Used()) + Read(w.Used())
  {
    AppendConserves(v, w);
    ReadConcat(v.Used(), w.Used());
  }

  // Appending shares the appended cells, and yet separation from a third buffer survives.
  lemma AppendKeepsSeparated(v: View, w: View, other: View)
    requires v.WellFormed() && w.used <= |w.cells| && other.used <= |other.cells|
    requires Separated(v, other) && forall c :: c in other.Free() ==> c !in w.Used()
    ensures Separated(Appended(v, w), other)
  {
    assert Appended(v, w).Free() == v.Free();
    assert forall c :: c in Appended(v, w).cells ==> c in v.cells || c in w.Used();
  }

  lemma InsertedCell(v: View, added: seq<Cell>, n: nat, dropped: nat, i: nat)
    requires v.used <= |v.cells| && dropped <= |v.Free()| && i < |Inserted(v, added, n, dropped).cells|
    ensures var c := Inserted(v, added, n, dropped).cells[i];
      if i < v.used then c == v.cells[i] && c in v.cells
      else if i < v.used + |added| then c == added[i - v.used] && c in added
      else c == v.cells[i - |added| + dropped] && c in v.cells
  {
  }

  lemma InsertConserves(v: View, added: seq<Cell>, n: nat, dropped: nat)
    requires v.WellFormed() && n <= |added| && dropped <= |v.Free()|
    requires Addressable(added) && Distinct(added) && NewTo(added, v)
    ensures Inserted(v, added, n, dropped).WellFormed()
    ensures Inserted(v, added, n, dropped).Used() == v.Used() + added[..n]
  {
    var a := Inserted(v, added, n, dropped);
    forall i, j | a.used <= i < |a.cells| && 0 <= j < |a.cells| ensures Apart(a.cells, i, j) {
      InsertedCell(v, added, n, dropped, i);
      InsertedCell(v, added, n, dropped, j);
      if v.used <= i < v.used + |added| && v.used <= j < v.used + |added| {
        assert Apart(added, i - v.used, j - v.used);
      } else if i >= v.used + |added| && !(v.used <= j < v.used + |added|) {
        assert Apart(v.cells, i - |added| + dropped, if j < v.used then j else j - |added| + dropped);
      }
    }
  }

  lemma InsertIntoFull(v: View, added: seq<Cell>, n: nat)
    requires v.used == |v.cells| && n <= |added| && Extended(v, added).WellFormed()
    ensures var g := Grown(Extended(v, added), n);
      g.WellFormed() && g == Inserted(v, added, n, 0) && g.Used() == v.Used() + added[..n]
  {
    GrowConserves(Extended(v, added), n);
    assert v.Used() == v.cells && v.Free() == [];
    assert Extended(v, added).Free() == added;
  }

  lemma InsertKeepsSeparated(v: View, added: seq<Cell>, n: nat, dropped: nat, other: View)
    requires v.WellFormed() && n <= |added| && dropped <= |v.Free()| && other.used <= |other.cells|
    requires Separated(v, other) && NewTo(added, other)
    ensures Separated(Inserted(v, added, n, dropped), other)
  {
    var a := Inserted(v, added, n, dropped);
    assert a.Free() == added[n..] + v.Free()[dropped..];
  }

  // Bytes outside the free cells of a written buffer are what they were.
  lemma ContentKept(v: View, w: View, bytes: seq<byte>)
    requires v.WellFormed() && w.used <= |w.cells| && Separated(v, w) && |bytes| == v.used
    requires forall k :: 0 <= k < v.used && v.cells[k] !in w.Free() ==> v.cells[k].base[v.cells[k].index] == bytes[k]
    ensures Read(v.Used()) == bytes
  {
    forall k | 0 <= k < v.used ensures v.Used()[k].base[v.Used()[k].index] == bytes[k] {
      assert v.cells[k] in v.cells;
    }
    ReadIs(v.Used(), bytes);
  }

  // A copy shares the free cells too: it is safe to write to either exactly when there are none.
  lemma CopySeparatedIffFull(v: View)
    requires v.WellFormed()
    ensures Separated(v, v) <==> v.Free() == []
  {
    if v.Free() != [] {
      assert v.Free()[0] in v.cells;
    }
  }

  // Empty slices in front of a fresh one do not show.
  lemma SliceIsWellFormed(empty: seq<Slice>, s: Slice, used: nat)
    requires s.InArray() && used <= s.size && TotalSize(empty) == 0
    ensures Cells(empty + [s]) == SliceCells(s)
    ensures View(SliceCells(s), used).WellFormed()
  {
    AppendSlice(empty, s);
    CellsAreTotal(empty);
  }
}
