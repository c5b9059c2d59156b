/**
 The loops of a stream buffer over its list of slices: dividing the list, finding a byte in
 it and listing the slices that hold some bytes.
 */
module SliceLists {
  import opened Basics
  import opened Memory
  import opened BufferViews

  // All but sizeLeft of the first n bytes have been dropped.
  ghost predicate DropSoFar(slices: seq<Slice>, n: nat, rest: seq<Slice>, sizeLeft: int)
    requires n <= TotalSize(slices)
  {
    && 0 <= sizeLeft <= n && sizeLeft <= TotalSize(rest)
    && CoverFrom(rest, Cells(slices), n - sizeLeft) && DropBytes(rest, sizeLeft) == DropBytes(slices, n)
  }

  // And collected in head.
  ghost predicate TakeSoFar(slices: seq<Slice>, n: nat, head: seq<Slice>, rest: seq<Slice>, sizeLeft: nat)
    requires n <= TotalSize(slices) && sizeLeft <= TotalSize(rest)
  {
    CoverUpTo(head, Cells(slices), n - sizeLeft) && head + TakeBytes(rest, sizeLeft) == TakeBytes(slices, n)
  }

  ghost predicate SplitSoFar(slices: seq<Slice>, n: nat, head: seq<Slice>, rest: seq<Slice>, sizeLeft: int)
    requires n <= TotalSize(slices)
  {
    DropSoFar(slices, n, rest, sizeLeft) && TakeSoFar(slices, n, head, rest, sizeLeft)
  }

  lemma DropsOneMore(slices: seq<Slice>, n: nat, rest: seq<Slice>, sizeLeft: int)
    requires n <= TotalSize(slices) && DropSoFar(slices, n, rest, sizeLeft) && sizeLeft > 0
    ensures rest != []
    ensures rest[0].size <= sizeLeft ==> DropSoFar(slices, n, rest[1..], sizeLeft - rest[0].size)
    ensures rest[0].size > sizeLeft ==> DropSoFar(slices, n, [rest[0].Drop(sizeLeft)] + rest[1..], 0)
  {
    var k := if rest[0].size <= sizeLeft then rest[0].size else sizeLeft;
    CoverAdvances(rest, Cells(slices), n - sizeLeft, k);
  }

  lemma TakesWhole(slices: seq<Slice>, n: nat, head: seq<Slice>, rest: seq<Slice>, sizeLeft: int)
    requires n <= TotalSize(slices) && SplitSoFar(slices, n, head, rest, sizeLeft) && sizeLeft > 0
    requires rest[0].size <= sizeLeft
    ensures TakeSoFar(slices, n, head + [rest[0]], rest[1..], sizeLeft - rest[0].size)
  {
    assert CoverUpTo(head + [rest[0]], Cells(slices), n - sizeLeft + rest[0].size) by {
      CoverMoves(head, rest, Cells(slices), n - sizeLeft, rest[0].size);
    }
    var tail := TakeBytes(rest[1..], sizeLeft - rest[0].size);
    assert head + ([rest[0]] + tail) == (head + [rest[0]]) + tail;
  }

  lemma TakesPart(slices: seq<Slice>, n: nat, head: seq<Slice>, rest: seq<Slice>, sizeLeft: int)
    requires n <= TotalSize(slices) && SplitSoFar(slices, n, head, rest, sizeLeft) && sizeLeft > 0
    requires rest[0].size > sizeLeft
    ensures TakeSoFar(slices, n, head + [rest[0].Take(sizeLeft)], [rest[0].Drop(sizeLeft)] + rest[1..], 0)
  {
    assert CoverUpTo(head + [rest[0].Take(sizeLeft)], Cells(slices), n) by {
      CoverMoves(head, rest, Cells(slices), n - sizeLeft, sizeLeft);
    }
    assert head + [rest[0].Take(sizeLeft)] + [] == head + [rest[0].Take(sizeLeft)];
  }

  // Takes the first n bytes off a list of slices, dividing at most one of them.
  method SplitFront(slices: seq<Slice>, n: nat) returns (head: seq<Slice>, rest: seq<Slice>)
    requires InArrays(slices) && n <= TotalSize(slices)
    ensures CoverUpTo(head, Cells(slices), n) && CoverFrom(rest, Cells(slices), n)
    ensures head == TakeBytes(slices, n) && rest == DropBytes(slices, n) && Cut(slices, head, rest)
    ensures NoneEmpty(slices) ==> NoneEmpty(rest)
  {
    assert Cut(slices, TakeBytes(slices, n), DropBytes(slices, n)) by { CutsOnce(slices, n); }
    assert NoneEmpty(slices) ==> NoneEmpty(DropBytes(slices, n)) by { DropLeavesNoneEmpty(slices, n); }
    CellsAreTotal(slices);
    head, rest := [], slices;
    var sizeLeft := n;
    while sizeLeft > 0
      invariant SplitSoFar(slices, n, head, rest, sizeLeft)
      decreases |rest|, sizeLeft
    {
      DropsOneMore(slices, n, rest, sizeLeft);
      if rest[0].size <= sizeLeft {
        TakesWhole(slices, n, head, rest, sizeLeft);
        head := head + [rest[0]];
        sizeLeft := sizeLeft - rest[0].size;
        rest := rest[1..];
      } else {
        TakesPart(slices, n, head, rest, sizeLeft);
        head := head + [rest[0].Take(sizeLeft)];
        rest := [rest[0].Drop(sizeLeft)] + rest[1..];
        sizeLeft := 0;
      }
    }
  }

  method DropFront(slices: seq<Slice>, n: nat) returns (rest: seq<Slice>)
    requires InArrays(slices) && n <= TotalSize(slices)
    ensures CoverFrom(rest, Cells(slices), n) && rest == DropBytes(slices, n)
    ensures NoneEmpty(slices) ==> NoneEmpty(rest)
  {
    assert NoneEmpty(slices) ==> NoneEmpty(DropBytes(slices, n)) by { DropLeavesNoneEmpty(slices, n); }
    CellsAreTotal(slices);
    rest := slices;
    var sizeLeft := n;
    while sizeLeft > 0
      invariant DropSoFar(slices, n, rest, sizeLeft)
      decreases |rest|, sizeLeft
    {
      DropsOneMore(slices, n, rest, sizeLeft);
      if rest[0].size <= sizeLeft {
        sizeLeft := sizeLeft - rest[0].size;
        rest := rest[1..];
      } else {
        rest := [rest[0].Drop(sizeLeft)] + rest[1..];
        sizeLeft := 0;
      }
    }
  }

  method FindLocation(slices: seq<Slice>, n: nat) returns (i: nat, offset: nat)
    requires n <= TotalSize(slices)
    ensures (i, offset) == Locate(slices, n)
  {
    i := 0;
    var dataLeft := n;
    while dataLeft > 0
      invariant 0 <= i <= |slices| && dataLeft >= 0 && TotalSize(slices[..i]) + dataLeft == n
      invariant i == 0 || TotalSize(slices[..i - 1]) < n
      decreases |slices| - i
    {
      FrontEnds(slices, i);
      if slices[i].size > dataLeft {
        OnlyPlace(slices, n, i, dataLeft);
        return i, dataLeft;
      }
      dataLeft := dataLeft - slices[i].size;
      i := i + 1;
    }
    OnlyPlace(slices, n, i, 0);
    offset := 0;
  }

  // After k slices, this much of the first n bytes is left to be copied.
  ghost predicate LeftToCopy(slices: seq<Slice>, n: nat, k: nat, copyLeft: int)
    requires n <= TotalSize(slices)
  {
    && k <= Cover(slices, n) && 0 <= copyLeft <= n && (copyLeft > 0 <==> k < Cover(slices, n))
    && (copyLeft > 0 ==> TotalSize(slices[..k]) == n - copyLeft)
  }

  lemma AllLeftToCopy(slices: seq<Slice>, n: nat)
    requires InArrays(slices) && n <= TotalSize(slices)
    ensures LeftToCopy(slices, n, 0, n)
  {
    CoverIsLeast(slices, n, 0);
  }

  lemma LessToCopy(slices: seq<Slice>, n: nat, k: nat, copyLeft: int, toCopy: nat)
    requires InArrays(slices) && n <= TotalSize(slices)
    requires LeftToCopy(slices, n, k, copyLeft) && copyLeft > 0
    requires toCopy == if copyLeft < slices[k].size then copyLeft else slices[k].size
    ensures LeftToCopy(slices, n, k + 1, copyLeft - toCopy) && slices[k..][1..] == slices[k + 1..]
  {
    CoverOneMore(slices, n, k);
  }

  lemma FrontGrows(slices: seq<Slice>, n: nat, front: seq<Slice>, dataLeft: int, size: nat)
    requires InArrays(slices) && n <= TotalSize(slices)
    requires LeftToCopy(slices, n, |front|, dataLeft) && dataLeft > 0
    requires size == if dataLeft < slices[|front|].size then dataLeft else slices[|front|].size
    requires CoverUpTo(front, Cells(slices), n - dataLeft)
    ensures LeftToCopy(slices, n, |front| + 1, dataLeft - size)
    ensures CoverUpTo(front + [slices[|front|].Take(size)], Cells(slices), n - dataLeft + size)
  {
    assert CoverUpTo(front + [slices[|front|].Take(size)], Cells(slices), n - dataLeft + size) by {
      SlicesFrom(slices, |front|);
      CoverMoves(front, slices[|front|..], Cells(slices), n - dataLeft, size);
    }
    LessToCopy(slices, n, |front|, dataLeft, size);
  }

  // The slices, the last one shortened, that hold the first n bytes: all of them, or as many
  // as the limit allows.
  method CopyFront(slices: seq<Slice>, n: nat, limit: nat) returns (front: seq<Slice>)
    requires InArrays(slices) && n <= TotalSize(slices)
    ensures |front| == if Cover(slices, n) <= limit then Cover(slices, n) else limit
    ensures CoverUpTo(front, Cells(slices), TotalSize(front))
    ensures TotalSize(front) <= n && (Cover(slices, n) <= limit ==> TotalSize(front) == n)
  {
    front := [];
    var dataLeft := n;
    AllLeftToCopy(slices, n);
    while dataLeft > 0 && |front| < limit
      invariant |front| <= limit && LeftToCopy(slices, n, |front|, dataLeft)
      invariant CoverUpTo(front, Cells(slices), n - dataLeft)
      decreases |slices| - |front|
    {
      var s := slices[|front|];
      var size := if s.size < dataLeft then s.size else dataLeft;
      FrontGrows(slices, n, front, dataLeft, size);
      front := front + [s.Take(size)];
      dataLeft := dataLeft - size;
    }
  }

  // The slices from byte n on, and the first k of them.
  lemma RestCovers(slices: seq<Slice>, n: nat)
    requires InArrays(slices) && n <= TotalSize(slices) && Locate(slices, n).0 < |slices|
    ensures var (i, offset) := Locate(slices, n);
      CoverFrom([slices[i].Drop(offset)] + slices[i + 1..], Cells(slices), n)
  {
    var (i, offset) := Locate(slices, n);
    LocateDivides(slices, n);
    CoverAdvances(slices[i..], Cells(slices), n - offset, offset);
    assert slices[i..][1..] == slices[i + 1..];
  }

  lemma FrontCovers(rest: seq<Slice>, cells: seq<Cell>, n: int, k: nat)
    requires CoverFrom(rest, cells, n) && k <= |rest|
    ensures InArrays(rest[..k]) && |Cells(rest[..k])| == TotalSize(rest[..k]) && Cells(rest[..k]) <= cells[n..]
    ensures k == |rest| ==> Cells(rest[..k]) == cells[n..]
  {
    CellsCutAt(rest, k);
    assert k == |rest| ==> rest[..k] == rest;
    assert forall s :: s in rest[..k] ==> s in rest;
  }

  // The slices that hold what is behind the first n bytes, or as many as the limit allows.
  method ListRest(slices: seq<Slice>, n: nat, limit: nat) returns (v: seq<Slice>)
    requires InArrays(slices) && n <= TotalSize(slices) == |Cells(slices)| && limit > 0
    ensures InArrays(v) && Cells(v) <= Cells(slices)[n..] && |Cells(v)| == TotalSize(v)
    ensures var left := |slices| - Locate(slices, n).0; |v| == if left <= limit then left else limit
    ensures |v| < limit ==> Cells(v) == Cells(slices)[n..]
    ensures NoneEmpty(slices) && n < TotalSize(slices) ==> TotalSize(v) > 0
  {
    var i, offset := FindLocation(slices, n);
    v := [];
    if i < |slices| {
      ghost var rest := [slices[i].Drop(offset)] + slices[i + 1..];
      v := [slices[i].Drop(offset)];
      i := i + 1;
      while i < |slices| && |v| < limit
        invariant 0 < i <= |slices| && 0 < |v| <= limit && |v| + |slices| - i == |rest| && v == rest[..|v|]
        invariant NoneEmpty(slices) ==> v[0].size > 0
      {
        v := v + [slices[i]];
        i := i + 1;
      }
      RestCovers(slices, n);
      FrontCovers(rest, Cells(slices), n, |v|);
    } else {
      LocateDivides(slices, n);
    }
  }

  // Divides the list right before byte n, cutting the slice that byte n is in.
  method DivideAt(slices: seq<Slice>, n: nat) returns (before: seq<Slice>, after: seq<Slice>)
    requires InArrays(slices) && n <= TotalSize(slices)
    ensures CoverUpTo(before, Cells(slices), n) && CoverFrom(after, Cells(slices), n)
  {
    var i, offset := FindLocation(slices, n);
    LocateDivides(slices, n);
    before, after := slices[..i], slices[i..];
    if i < |slices| && slices[i].size - offset > 0 {
      CoverMoves(before, after, Cells(slices), n - offset, offset);
      before, after := before + [after[0].Take(offset)], [after[0].Drop(offset)] + after[1..];
    }
  }

  // Puts the slices holding the first m bytes of source right before byte n. The source may
  // be the same list: dividing it at byte n does not change what its first bytes are.
  method InsertFront(slices: seq<Slice>, n: nat, source: seq<Slice>, m: nat) returns (joined: seq<Slice>)
    requires InArrays(slices) && n <= TotalSize(slices) && |Cells(slices)| == TotalSize(slices)
    requires InArrays(source) && m <= TotalSize(source) && |Cells(source)| == TotalSize(source)
    ensures InArrays(joined) && TotalSize(joined) == TotalSize(slices) + m == |Cells(joined)|
    ensures Cells(joined) == Appended(View(Cells(slices), n), View(Cells(source), m)).cells
  {
    var before, after := DivideAt(slices, n);
    var middle := CopyFront(source, m, |source|);
    joined := before + middle + after;
    CoverJoins(before, middle, after, Cells(slices), n, n, Cells(source)[..m]);
  }

  // The piece of slice i from an offset on that is to take k bytes of the target, which is
  // the cells of the list from n on.
  lemma PieceAt(slices: seq<Slice>, i: nat, offset: nat, k: nat, target: seq<Cell>, n: nat, copied: nat)
    requires InArrays(slices) && n + |target| <= |Cells(slices)| && target == Cells(slices)[n..n + |target|]
    requires i < |slices| && offset + k <= slices[i].size && copied + k <= |target|
    requires TotalSize(slices[..i]) + offset == n + copied
    ensures slices[i].Drop(offset).Take(k).InArray()
    ensures SliceCells(slices[i].Drop(offset).Take(k)) == target[copied..copied + k]
  {
    SliceIsAt(slices, i);
    PieceOfSlice(slices[i], offset, k, Cells(slices), TotalSize(slices[..i]));
    SubSlice(Cells(slices), n, n + |target|, copied, copied + k);
  }

  // The k bytes from byte n on, if they are in one slice.
  lemma PieceFrom(slices: seq<Slice>, n: nat, k: nat)
    requires InArrays(slices) && n <= TotalSize(slices)
    requires var (i, o) := Locate(slices, n); i < |slices| && o + k <= slices[i].size
    ensures var (i, o) := Locate(slices, n); var s := slices[i].Drop(o).Take(k);
      s.InArray() && n + k <= |Cells(slices)| && SliceCells(s) == Cells(slices)[n..n + k]
  {
    var (i, o) := Locate(slices, n);
    LocateIsPlace(slices, n);
    SliceIsAt(slices, i);
    PieceOfSlice(slices[i], o, k, Cells(slices), n - o);
  }

  lemma OneSliceHolds(slices: seq<Slice>, used: nat, offset: nat, size: nat)
    requires InArrays(slices) && used <= TotalSize(slices) == |Cells(slices)| && offset + size <= used
    requires var (i, o) := Locate(slices, offset); i < |slices| && o + size <= slices[i].size
    ensures var (i, o) := Locate(slices, offset); var s := slices[i].Drop(o).Take(size);
      && s.InArray() && Addressable(SliceCells(s)) && Addressable(Cells(slices))
      && Read(SliceCells(s)) == Read(Cells(slices)[..used])[offset..offset + size]
  {
    var (i, o) := Locate(slices, offset);
    PieceFrom(slices, offset, size);
    CellsAreTotal(slices);
    ReadPart(SliceCells(slices[i].Drop(o).Take(size)), Cells(slices), used, offset);
  }

  // The cells hold the data, one byte each.
  ghost predicate Holds(cells: seq<Cell>, data: seq<byte>)
    requires Addressable(cells)
    reads Arrays(cells)
  {
    |cells| == |data| && forall k :: 0 <= k < |cells| ==> cells[k].base[cells[k].index] == data[k]
  }

  // Where the cells of a slice are in a target they are part of, and nowhere else.
  lemma SliceInTarget(s: Slice, target: seq<Cell>, k: nat)
    requires k + s.size <= |target| && Distinct(target) && SliceCells(s) == target[k..k + s.size]
    ensures forall j :: k <= j < k + s.size ==> target[j] == Cell(s.base, s.offset + j - k)
    ensures forall j :: 0 <= j < |target| && !(k <= j < k + s.size) ==>
      target[j].base != s.base || !(s.offset <= target[j].index < s.offset + s.size)
    ensures forall i :: s.offset <= i < s.offset + s.size ==> Cell(s.base, i) in target
  {
    forall j | k <= j < k + s.size ensures target[j] == Cell(s.base, s.offset + j - k) {
      assert target[j] == SliceCells(s)[j - k];
    }
    forall j | 0 <= j < |target| && !(k <= j < k + s.size) && s.offset <= target[j].index < s.offset + s.size
      ensures target[j].base != s.base
    {
      assert Apart(target, j, k + target[j].index - s.offset);
    }
    forall i | s.offset <= i < s.offset + s.size ensures Cell(s.base, i) in target {
      assert target[k + i - s.offset] == Cell(s.base, i);
    }
  }

  // The first k cells hold the first k bytes of the data.
  ghost predicate StoredSoFar(cells: seq<Cell>, data: seq<byte>, k: nat)
    requires Addressable(cells)
    reads Arrays(cells)
  {
    k <= |cells| == |data| && forall j :: 0 <= j < k ==> cells[j].base[cells[j].index] == data[j]
  }

  // Copies the part of the data into one slice that belongs there: its cells are those of
  // the target from position k on.
  method StoreSlice(s: Slice, data: seq<byte>, ghost target: seq<Cell>, k: nat)
    requires s.InArray() && k + s.size <= |target|
    requires Addressable(target) && Distinct(target) && SliceCells(s) == target[k..k + s.size]
    requires StoredSoFar(target, data, k)
    modifies Arrays(target)
    ensures StoredSoFar(target, data, k + s.size)
    ensures forall a, i :: a in Arrays(target) && 0 <= i < a.Length && Cell(a, i) !in target ==> a[i] == old(a[i])
  {
    if s.size > 0 {
      SliceInTarget(s, target, k);
      assert target[k] in target;
      Store(s.base, s.offset, data[k..k + s.size]);
      forall j | k <= j < k + s.size ensures target[j].base[target[j].index] == data[j] {
        assert target[j] == Cell(s.base, s.offset + j - k);
      }
    }
  }

  // Byte n + copied is at the given place, unless all the bytes are copied.
  ghost predicate FillFrom(slices: seq<Slice>, i: nat, start: nat, n: nat, copied: nat, size: nat) {
    && copied <= size && n + size <= TotalSize(slices)
    && (copied < size ==>
        i < |slices| && start <= slices[i].size && TotalSize(slices[..i]) + start == n + copied)
  }

  lemma FillsOneMore(slices: seq<Slice>, i: nat, start: nat, n: nat, copied: nat, size: nat, toCopy: nat)
    requires FillFrom(slices, i, start, n, copied, size) && copied < size
    requires toCopy == if slices[i].size - start < size - copied then slices[i].size - start else size - copied
    ensures FillFrom(slices, i + 1, 0, n, copied + toCopy, size)
  {
    FrontEnds(slices, i);
    assert slices[..|slices|] == slices;
  }

  // Copies what is to go into slice i.
  method StoreNext(slices: seq<Slice>, i: nat, start: nat, data: seq<byte>, ghost n: nat, ghost target: seq<Cell>,
                   copied: nat) returns (stored: nat)
    requires InArrays(slices) && n + |data| <= |Cells(slices)| && target == Cells(slices)[n..n + |data|]
    requires FillFrom(slices, i, start, n, copied, |data|) && copied < |data|
    requires Addressable(target) && Distinct(target) && StoredSoFar(target, data, copied)
    modifies Arrays(target)
    ensures FillFrom(slices, i + 1, 0, n, stored, |data|) && StoredSoFar(target, data, stored)
    ensures forall a, i :: a in Arrays(target) && 0 <= i < a.Length && Cell(a, i) !in target ==> a[i] == old(a[i])
  {
    var sizeLeft := slices[i].size - start;
    var toCopy := if sizeLeft < |data| - copied then sizeLeft else |data| - copied;
    FillsOneMore(slices, i, start, n, copied, |data|, toCopy);
    PieceAt(slices, i, start, toCopy, target, n, copied);
    StoreSlice(slices[i].Drop(start).Take(toCopy), data, target, copied);
    stored := copied + toCopy;
  }

  // Copies data into the slices from byte n on, which lies at the given place.
  method CopyIn(slices: seq<Slice>, first: nat, offset: nat, data: seq<byte>, ghost n: nat, ghost target: seq<Cell>)
    requires InArrays(slices) && n + |data| <= |Cells(slices)| && target == Cells(slices)[n..n + |data|]
    requires FillFrom(slices, first, offset, n, 0, |data|)
    requires Addressable(target) && Distinct(target)
    modifies Arrays(target)
    ensures StoredSoFar(target, data, |data|)
    ensures forall a, i :: a in Arrays(target) && 0 <= i < a.Length && Cell(a, i) !in target ==> a[i] == old(a[i])
  {
    var i, start, copied := first, offset, 0;
    while copied < |data|
      invariant i >= 0 && start >= 0 && copied >= 0
      invariant FillFrom(slices, i, start, n, copied, |data|) && StoredSoFar(target, data, copied)
      invariant forall a, i :: a in Arrays(target) && 0 <= i < a.Length && Cell(a, i) !in target ==> a[i] == old(a[i])
      decreases |slices| - i
    {
      copied := StoreNext(slices, i, start, data, n, target, copied);
      i, start := i + 1, 0;
    }
  }

  // Copies data into the list from byte n on.
  method WriteAt(slices: seq<Slice>, n: nat, data: seq<byte>, ghost target: seq<Cell>)
    requires InArrays(slices) && n <= TotalSize(slices) && Locate(slices, n).0 < |slices|
    requires n + |data| <= |Cells(slices)| && target == Cells(slices)[n..n + |data|]
    requires Addressable(target) && Distinct(target)
    modifies Arrays(target)
    ensures Holds(target, data)
    ensures forall a, i :: a in Arrays(target) && 0 <= i < a.Length && Cell(a, i) !in target ==> a[i] == old(a[i])
  {
    var i, offset := FindLocation(slices, n);
    LocateIsPlace(slices, n);
    CellsAreTotal(slices);
    CopyIn(slices, i, offset, data, n, target);
  }

  // Scatters data over a list of slices, filling them one after the other.
  method ScatterIn(slices: seq<Slice>, data: seq<byte>)
    requires InArrays(slices) && |data| <= |Cells(slices)| == TotalSize(slices)
    requires Addressable(Cells(slices)) && Distinct(Cells(slices))
    modifies Arrays(Cells(slices))
    ensures Holds(Cells(slices)[..|data|], data)
    ensures forall a, i :: a in Arrays(Cells(slices)) && 0 <= i < a.Length ==>
      Cell(a, i) in Cells(slices) || a[i] == old(a[i])
  {
    ghost var target := Cells(slices)[..|data|];
    CellsAllocated(slices);
    if data != [] {
      forall i, j | 0 <= i < |target| && 0 <= j < |target| ensures Apart(target, i, j) {
        assert Apart(Cells(slices), i, j);
      }
      forall c | c in target ensures c in Cells(slices) && c.base in Arrays(Cells(slices)) {
      }
      CopyIn(slices, 0, 0, data, 0, target);
    }
  }

  // How much of the slice that byte n is inside comes from there on.
  function RestOfSlice(slices: seq<Slice>, n: nat): nat
    requires n <= TotalSize(slices)
  {
    var (i, offset) := Locate(slices, n);
    if offset == 0 then 0 else slices[i].size - offset
  }

  // A slice starts at byte m, or the list ends there.
  ghost predicate Divides(slices: seq<Slice>, m: int) {
    exists k :: 0 <= k <= |slices| && TotalSize(slices[..k]) == m
  }

  // The nearest such byte from n on.
  ghost predicate NextDivision(slices: seq<Slice>, n: nat, m: nat) {
    n <= m && Divides(slices, m) && forall j {:trigger Divides(slices, j)} :: n <= j && Divides(slices, j) ==> m <= j
  }

  lemma PrefixGrows(slices: seq<Slice>, j: nat, k: nat)
    requires j <= k <= |slices|
    ensures TotalSize(slices[..j]) <= TotalSize(slices[..k])
  {
    assert slices[..k] == slices[..j] + slices[j..k];
    CellsOfConcat(slices[..j], slices[j..k]);
  }

  lemma RestEndsSlice(slices: seq<Slice>, n: nat)
    requires n <= TotalSize(slices)
    ensures NextDivision(slices, n, n + RestOfSlice(slices, n))
  {
    var (i, offset) := Locate(slices, n);
    LocateIsPlace(slices, n);
    FrontEnds(slices, i);
    var end := if offset == 0 then i else i + 1;
    assert TotalSize(slices[..end]) == n + RestOfSlice(slices, n);
    forall j | n <= j && Divides(slices, j) ensures n + RestOfSlice(slices, n) <= j {
      var k :| 0 <= k <= |slices| && TotalSize(slices[..k]) == j;
      if k < end {
        PrefixGrows(slices, k, i);
      } else {
        PrefixGrows(slices, end, k);
      }
    }
  }

  // Keeping only the first k cells of the slice behind a division.
  lemma GivesUpRest(before: seq<Slice>, after: seq<Slice>, cells: seq<Cell>, n: int, k: nat)
    requires CoverUpTo(before, cells, n) && CoverFrom(after, cells, n) && after != [] && k <= after[0].size
    ensures CoverUpTo(before + [after[0].Take(k)], cells, n + k)
    ensures CoverFrom(after[1..], cells, n + after[0].size)
  {
    assert CoverUpTo(before + [after[0].Take(k)], cells, n + k) by {
      CoverMoves(before, after, cells, n, k);
    }
    CoverAdvances(after, cells, n, after[0].size);
  }

  lemma JoinsInserted(before: seq<Slice>, s: Slice, after: seq<Slice>, cells: seq<Cell>, n: nat, dropped: nat)
    requires CoverUpTo(before, cells, n) && CoverFrom(after, cells, n + dropped) && s.InArray()
    ensures var list := before + [s] + after;
      && InArrays(list) && TotalSize(list) == |cells| + s.size - dropped == |Cells(list)|
      && Cells(list) == Inserted(View(cells, n), SliceCells(s), 0, dropped).cells
  {
    CellsOfOne(s);
    CoverJoins(before, [s], after, cells, n, n + dropped, SliceCells(s));
    assert cells[n..][dropped..] == cells[n + dropped..];
  }

  // Puts a slice right before byte n. If byte n is inside a slice, the rest of that slice is
  // given up; the number of bytes lost that way is returned.
  method InsertSlice(slices: seq<Slice>, n: nat, s: Slice) returns (list: seq<Slice>, dropped: nat)
    requires InArrays(slices) && n <= TotalSize(slices) == |Cells(slices)| && s.InArray()
    requires Locate(slices, n).0 < |slices|
    ensures dropped == RestOfSlice(slices, n) && n + dropped <= |Cells(slices)| && InArrays(list)
    ensures NextDivision(slices, n, n + dropped)
    ensures Cells(list) == Inserted(View(Cells(slices), n), SliceCells(s), 0, dropped).cells
    ensures TotalSize(list) == TotalSize(slices) + s.size - dropped == |Cells(list)|
  {
    var i, offset := FindLocation(slices, n);
    var before, after := slices[..i], slices[i..];
    LocateDivides(slices, n);
    dropped := 0;
    if offset != 0 {
      GivesUpRest(before, after, Cells(slices), n - offset, offset);
      dropped := after[0].size - offset;
      before, after := before + [after[0].Take(offset)], after[1..];
    }
    JoinsInserted(before, s, after, Cells(slices), n, dropped);
    list := before + [s] + after;
    RestEndsSlice(slices, n);
  }

  // The target still reads the bytes, and the first of them have been copied.
  ghost predicate CopiedSoFar(to: array<byte>, at: int, target: seq<Cell>, bytes: seq<byte>)
    requires Addressable(target)
    reads to, Arrays(target)
  {
    Read(target) == bytes && 0 <= at <= |bytes| <= to.Length && to[..at] == bytes[..at]
  }

  // Copies the first n bytes to an array of their own and drops the slices that held them.
  method CopyOut(slices: seq<Slice>, n: nat, to: array<byte>) returns (rest: seq<Slice>)
    requires InArrays(slices) && n <= TotalSize(slices) == |Cells(slices)| && n <= to.Length
    requires Addressable(Cells(slices)) && to !in Arrays(Cells(slices))
    modifies to
    ensures to[..n] == Read(Cells(slices)[..n]) && rest == slices[Cover(slices, n)..]
  {
    ghost var k, target := 0, Cells(slices)[..n];
    ghost var bytes := Read(target);
    rest := slices;
    var copyLeft := n;
    AllLeftToCopy(slices, n);
    while copyLeft > 0
      invariant 0 <= k <= |slices| && rest == slices[k..] && LeftToCopy(slices, n, k, copyLeft)
      invariant CopiedSoFar(to, n - copyLeft, target, bytes)
      decreases |rest|
    {
      var toCopy := if copyLeft < rest[0].size then copyLeft else rest[0].size;
      CopyNext(slices, n, k, copyLeft, rest[0].Take(toCopy), to, target, bytes);
      copyLeft := copyLeft - toCopy;
      rest := rest[1..];
      k := k + 1;
    }
  }

  lemma PieceToCopy(slices: seq<Slice>, n: nat, k: nat, copyLeft: int, toCopy: nat, target: seq<Cell>)
    requires InArrays(slices) && n <= TotalSize(slices) == |Cells(slices)| && target == Cells(slices)[..n]
    requires LeftToCopy(slices, n, k, copyLeft) && copyLeft > 0
    requires toCopy == if copyLeft < slices[k].size then copyLeft else slices[k].size
    ensures slices[k].Take(toCopy).InArray()
    ensures SliceCells(slices[k].Take(toCopy)) == target[n - copyLeft..n - copyLeft + toCopy]
  {
    SlicesFrom(slices, k);
    CoverAdvances(slices[k..], Cells(slices), n - copyLeft, toCopy);
  }

  method CopyNext(ghost slices: seq<Slice>, n: nat, ghost k: nat, copyLeft: int, s: Slice, to: array<byte>,
                  ghost target: seq<Cell>, ghost bytes: seq<byte>)
    requires InArrays(slices) && n <= TotalSize(slices) == |Cells(slices)| && target == Cells(slices)[..n]
    requires LeftToCopy(slices, n, k, copyLeft) && copyLeft > 0 && n <= to.Length
    requires s == slices[k].Take(if copyLeft < slices[k].size then copyLeft else slices[k].size)
    requires Addressable(target) && to !in Arrays(target) && CopiedSoFar(to, n - copyLeft, target, bytes)
    modifies to
    ensures CopiedSoFar(to, n - copyLeft + s.size, target, bytes)
    ensures LeftToCopy(slices, n, k + 1, copyLeft - s.size) && slices[k..][1..] == slices[k + 1..]
  {
    LessToCopy(slices, n, k, copyLeft, s.size);
    PieceToCopy(slices, n, k, copyLeft, s.size, target);
    CopyPiece(to, n - copyLeft, s, target, bytes);
  }

  // Copies the bytes of a slice; its cells are those of the target from position at on.
  method CopyPiece(to: array<byte>, at: nat, s: Slice, ghost target: seq<Cell>, ghost bytes: seq<byte>)
    requires s.InArray() && at + s.size <= |target| && at + s.size <= to.Length
    requires Addressable(target) && to !in Arrays(target) && SliceCells(s) == target[at..at + s.size]
    requires CopiedSoFar(to, at, target, bytes)
    modifies to
    ensures CopiedSoFar(to, at + s.size, target, bytes)
  {
    if s.size > 0 {
      assert target[at] == SliceCells(s)[0];
      ghost var before := to[..at];
      Memcpy(to, at, s.base, s.offset, s.size);
      forall j | 0 <= j < at + s.size ensures to[j] == bytes[j] {
        if j < at {
          assert to[j] == before[j] == bytes[..at][j];
        } else {
          assert to[j] == s.base[s.offset + j - at] && target[j] == SliceCells(s)[j - at];
        }
      }
    }
  }
}
