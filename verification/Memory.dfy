/**
 Scatter/gather memory: slices of shared byte arrays, and the cells a list of slices
 covers from left to right.
 */
module Memory {
  import opened Basics

  // A stretch of a reference-counted array; several slices may share one array.
  datatype Slice = Slice(base: array<byte>, offset: nat, size: nat) {
    ghost predicate InArray() {
      offset + size <= base.Length
    }

    function Take(n: nat): (s: Slice)
      requires n <= size
    {
      Slice(base, offset, n)
    }

    function Drop(n: nat): (s: Slice)
      requires n <= size
    {
      Slice(base, offset + n, size - n)
    }
  }

  // One byte of memory.
  datatype Cell = Cell(base: array<byte>, index: int)

  ghost function SliceCells(s: Slice): (cells: seq<Cell>)
    ensures |cells| == s.size
    ensures forall k :: 0 <= k < s.size ==> cells[k] == Cell(s.base, s.offset + k)
  {
    seq(s.size, k => Cell(s.base, s.offset + k))
  }

  ghost function Cells(slices: seq<Slice>): (cells: seq<Cell>) {
    if slices == [] then [] else SliceCells(slices[0]) + Cells(slices[1..])
  }

  function TotalSize(slices: seq<Slice>): (n: nat)
  {
    if slices == [] then 0 else slices[0].size + TotalSize(slices[1..])
  }

  ghost predicate InArrays(slices: seq<Slice>) {
    forall s :: s in slices ==> s.InArray()
  }

  ghost predicate Addressable(cells: seq<Cell>) {
    forall c :: c in cells ==> 0 <= c.index < c.base.Length
  }

  ghost function Arrays(cells: seq<Cell>): set<array<byte>> {
    set c | c in cells :: c.base
  }

  // The bytes stored in the given cells.
  ghost function Read(cells: seq<Cell>): (bytes: seq<byte>)
    requires Addressable(cells)
    reads Arrays(cells)
    ensures |bytes| == |cells|
    ensures forall k {:trigger bytes[k]} :: 0 <= k < |cells| ==> bytes[k] == cells[k].base[cells[k].index]
  {
    seq(|cells|, k requires 0 <= k < |cells| && Addressable(cells) reads Arrays(cells) =>
      cells[k].base[cells[k].index])
  }

  lemma {:induction false} CellsOfConcat(a: seq<Slice>, b: seq<Slice>)
    ensures Cells(a + b) == Cells(a) + Cells(b)
    ensures TotalSize(a + b) == TotalSize(a) + TotalSize(b)
  {
    if a == [] {
      assert a + b == b;
    } else {
      assert (a + b)[1..] == a[1..] + b;
      CellsOfConcat(a[1..], b);
    }
  }

  lemma {:induction false} CellsAreTotal(slices: seq<Slice>)
    ensures |Cells(slices)| == TotalSize(slices)
    ensures InArrays(slices) ==> Addressable(Cells(slices))
  {
    if slices != [] {
      assert InArrays(slices) ==> slices[0].InArray() && InArrays(slices[1..]);
      CellsAreTotal(slices[1..]);
    }
  }

  lemma {:induction false} CellsAllocated(slices: seq<Slice>)
    ensures forall c :: c in Cells(slices) ==> allocated(c.base)
  {
    if slices != [] {
      CellsAllocated(slices[1..]);
      assert allocated(slices[0].base);
    }
  }

  lemma SubSlice<T>(s: seq<T>, a: nat, b: nat, i: nat, j: nat)
    requires a <= b <= |s| && i <= j <= b - a
    ensures s[a..b][i..j] == s[a + i..a + j]
  {
    forall k | 0 <= k < j - i ensures s[a..b][i..j][k] == s[a + i..a + j][k] {
      assert s[a..b][i..j][k] == s[a..b][i + k] == s[a + i + k];
    }
  }

  lemma CellsOfOne(s: Slice)
    ensures Cells([s]) == SliceCells(s) && TotalSize([s]) == s.size
  {
    assert [s][1..] == [];
  }

  lemma CellsCutAt(slices: seq<Slice>, i: nat)
    requires i <= |slices|
    ensures Cells(slices) == Cells(slices[..i]) + Cells(slices[i..])
    ensures TotalSize(slices) == TotalSize(slices[..i]) + TotalSize(slices[i..])
    ensures |Cells(slices[..i])| == TotalSize(slices[..i])
  {
    assert slices == slices[..i] + slices[i..];
    CellsOfConcat(slices[..i], slices[i..]);
    CellsAreTotal(slices[..i]);
  }

  // Cutting the first slice at n cuts the cells at n.
  lemma CutFront(slices: seq<Slice>, n: nat)
    requires slices != [] && n <= slices[0].size
    ensures Cells([slices[0].Drop(n)] + slices[1..]) == Cells(slices)[n..]
    ensures TotalSize([slices[0].Drop(n)] + slices[1..]) == TotalSize(slices) - n
    ensures SliceCells(slices[0].Take(n)) == Cells(slices)[..n]
  {
    var cut := [slices[0].Drop(n)] + slices[1..];
    assert cut[1..] == slices[1..];
  }

  lemma AppendSlice(slices: seq<Slice>, s: Slice)
    ensures Cells(slices + [s]) == Cells(slices) + SliceCells(s)
    ensures TotalSize(slices + [s]) == TotalSize(slices) + s.size
  {
    CellsOfConcat(slices, [s]);
    CellsOfOne(s);
  }

  // What is left after cutting off the first n bytes.
  function DropBytes(slices: seq<Slice>, n: nat): (rest: seq<Slice>)
    requires n <= TotalSize(slices)
  {
    if n == 0 then slices
    else if slices[0].size <= n then DropBytes(slices[1..], n - slices[0].size)
    else [slices[0].Drop(n)] + slices[1..]
  }

  // The slices that hold the first n bytes, the last one shortened.
  function TakeBytes(slices: seq<Slice>, n: nat): (head: seq<Slice>)
    requires n <= TotalSize(slices)
  {
    if n == 0 then []
    else if slices[0].size <= n then [slices[0]] + TakeBytes(slices[1..], n - slices[0].size)
    else [slices[0].Take(n)]
  }

  ghost predicate NoneEmpty(slices: seq<Slice>) {
    forall s :: s in slices ==> s.size > 0
  }

  // Dropping bytes leaves no empty slice behind.
  lemma {:induction false} DropLeavesNoneEmpty(slices: seq<Slice>, n: nat)
    requires n <= TotalSize(slices)
    ensures NoneEmpty(slices) ==> NoneEmpty(DropBytes(slices, n))
  {
    if n > 0 && slices[0].size <= n {
      DropLeavesNoneEmpty(slices[1..], n - slices[0].size);
    }
  }

  // The list is cut between two slices, or one slice is divided.
  ghost predicate Cut(slices: seq<Slice>, head: seq<Slice>, rest: seq<Slice>) {
    || (head + rest == slices)
    || (&& head != [] && rest != [] && |head| <= |slices|
        && var s, n := slices[|head| - 1], head[|head| - 1].size;
           n <= s.size && head == slices[..|head| - 1] + [s.Take(n)] && rest == [s.Drop(n)] + slices[|head|..])
  }

  lemma CutBehind(s: Slice, slices: seq<Slice>, head: seq<Slice>, rest: seq<Slice>)
    requires Cut(slices, head, rest)
    ensures Cut([s] + slices, [s] + head, rest)
  {
    if head + rest == slices {
      assert [s] + head + rest == [s] + slices;
    } else {
      var i := |head| - 1;
      assert ([s] + slices)[i + 1] == slices[i] && ([s] + slices)[..i + 1] == [s] + slices[..i];
      assert ([s] + slices)[i + 2..] == slices[i + 1..];
    }
  }

  lemma {:induction false} CutsOnce(slices: seq<Slice>, n: nat)
    requires n <= TotalSize(slices)
    ensures Cut(slices, TakeBytes(slices, n), DropBytes(slices, n))
  {
    if n > 0 && slices[0].size <= n {
      CutsOnce(slices[1..], n - slices[0].size);
      CutBehind(slices[0], slices[1..], TakeBytes(slices[1..], n - slices[0].size), DropBytes(slices, n));
      assert [slices[0]] + slices[1..] == slices;
    }
  }

  // The slices cover the cells from n on, or up to n.
  ghost predicate CoverFrom(slices: seq<Slice>, cells: seq<Cell>, n: int) {
    0 <= n <= |cells| && InArrays(slices) && TotalSize(slices) == |cells| - n && Cells(slices) == cells[n..]
  }

  ghost predicate CoverUpTo(slices: seq<Slice>, cells: seq<Cell>, n: int) {
    0 <= n <= |cells| && InArrays(slices) && TotalSize(slices) == n && Cells(slices) == cells[..n]
  }

  lemma SlicesFrom(slices: seq<Slice>, i: nat)
    requires InArrays(slices) && i <= |slices|
    ensures CoverUpTo(slices[..i], Cells(slices), TotalSize(slices[..i]))
    ensures CoverFrom(slices[i..], Cells(slices), TotalSize(slices[..i]))
  {
    CellsAreTotal(slices);
    CellsCutAt(slices, i);
    assert forall s :: s in slices[..i] || s in slices[i..] ==> s in slices;
  }

  // Cutting k cells off the first slice, or dropping that slice if it has no more than k.
  lemma CoverAdvances(slices: seq<Slice>, cells: seq<Cell>, n: int, k: nat)
    requires CoverFrom(slices, cells, n) && slices != [] && k <= slices[0].size
    ensures CoverFrom([slices[0].Drop(k)] + slices[1..], cells, n + k)
    ensures k == slices[0].size ==> CoverFrom(slices[1..], cells, n + k)
    ensures slices[0].Take(k).InArray() && SliceCells(slices[0].Take(k)) == cells[n..n + k]
  {
    CutFront(slices, k);
    assert forall s :: s in slices[1..] ==> s in slices;
    assert slices[0] in slices;
    assert cells[n..][k..] == cells[n + k..];
  }

  // Where the cells of slice i are, and a part of them.
  lemma SliceIsAt(slices: seq<Slice>, i: nat)
    requires InArrays(slices) && i < |slices|
    ensures var m := TotalSize(slices[..i]);
      m + slices[i].size <= |Cells(slices)| && SliceCells(slices[i]) == Cells(slices)[m..m + slices[i].size]
    ensures slices[i].InArray()
  {
    assert slices[i] in slices;
    SlicesFrom(slices, i);
    CoverAdvances(slices[i..], Cells(slices), TotalSize(slices[..i]), slices[i].size);
  }

  lemma PieceOfSlice(s: Slice, offset: nat, k: nat, cells: seq<Cell>, m: nat)
    requires m + s.size <= |cells| && SliceCells(s) == cells[m..m + s.size] && offset + k <= s.size
    ensures SliceCells(s.Drop(offset).Take(k)) == cells[m + offset..m + offset + k]
  {
    SubSlice(cells, m, m + s.size, offset, offset + k);
    assert SliceCells(s.Drop(offset).Take(k)) == SliceCells(s)[offset..offset + k];
  }

  // Moving the first k cells of one list to the end of another.
  lemma CoverMoves(head: seq<Slice>, rest: seq<Slice>, cells: seq<Cell>, n: int, k: nat)
    requires CoverUpTo(head, cells, n) && CoverFrom(rest, cells, n) && rest != [] && k <= rest[0].size
    ensures CoverUpTo(head + [rest[0].Take(k)], cells, n + k)
    ensures CoverFrom([rest[0].Drop(k)] + rest[1..], cells, n + k)
    ensures k == rest[0].size ==> CoverFrom(rest[1..], cells, n + k)
  {
    CoverAdvances(rest, cells, n, k);
    AppendSlice(head, rest[0].Take(k));
    assert cells[..n] + cells[n..n + k] == cells[..n + k];
  }

  // Putting a list between the two parts of a divided one.
  lemma CoverJoins(before: seq<Slice>, middle: seq<Slice>, after: seq<Slice>, cells: seq<Cell>, n: int, m: int,
                   between: seq<Cell>)
    requires CoverUpTo(before, cells, n) && CoverFrom(after, cells, m)
    requires CoverUpTo(middle, between, |between|)
    ensures var joined := before + middle + after;
      && Cells(joined) == cells[..n] + between + cells[m..]
      && TotalSize(joined) == n + |between| + |cells| - m && InArrays(joined)
  {
    CellsOfConcat(before, middle);
    CellsOfConcat(before + middle, after);
    assert between[..|between|] == between;
  }

  // Where byte n of the list is: slice number and offset in that slice. A position right
  // behind a slice belongs to the next one, even if that is empty or missing.
  function Locate(slices: seq<Slice>, n: nat): (at: (nat, nat))
    requires n <= TotalSize(slices)
    ensures at.0 <= |slices|
    ensures at.1 > 0 ==> at.0 < |slices| && at.1 < slices[at.0].size
  {
    if n == 0 then (0, 0)
    else if slices[0].size > n then (0, n)
    else
      var rest := Locate(slices[1..], n - slices[0].size);
      (rest.0 + 1, rest.1)
  }

  lemma {:induction false} LocateIsPlace(slices: seq<Slice>, n: nat)
    requires n <= TotalSize(slices)
    ensures var (i, off) := Locate(slices, n); TotalSize(slices[..i]) + off == n
  {
    if n > 0 && slices[0].size <= n {
      LocateIsPlace(slices[1..], n - slices[0].size);
      var k := Locate(slices[1..], n - slices[0].size).0;
      assert slices[..k + 1][1..] == slices[1..][..k];
    }
  }

  // No other place has as many bytes in front of it and is as early as can be.
  lemma {:induction false} OnlyPlace(slices: seq<Slice>, n: nat, i: nat, off: nat)
    requires i <= |slices| && n <= TotalSize(slices) && TotalSize(slices[..i]) + off == n
    requires if off > 0 then i < |slices| && off < slices[i].size else i == 0 || TotalSize(slices[..i - 1]) < n
    ensures Locate(slices, n) == (i, off)
  {
    if i > 0 {
      assert slices[..i][1..] == slices[1..][..i - 1];
      assert i > 1 ==> slices[..i - 1][1..] == slices[1..][..i - 2];
      OnlyPlace(slices[1..], n - slices[0].size, i - 1, off);
    }
  }

  // How many bytes the first i slices have, and one more.
  lemma FrontEnds(slices: seq<Slice>, i: nat)
    requires i <= |slices|
    ensures i == |slices| ==> TotalSize(slices[..i]) == TotalSize(slices)
    ensures i < |slices| ==> TotalSize(slices[..i + 1]) == TotalSize(slices[..i]) + slices[i].size
  {
    if i == |slices| {
      assert slices[..i] == slices;
    } else {
      assert slices[..i + 1] == slices[..i] + [slices[i]];
      AppendSlice(slices[..i], slices[i]);
    }
  }

  // How many slices hold the first n bytes.
  function Cover(slices: seq<Slice>, n: nat): (k: nat)
    requires n <= TotalSize(slices)
    ensures k <= |slices| && (k > 0 <==> n > 0)
  {
    if n == 0 then 0
    else if n <= slices[0].size then 1
    else Cover(slices[1..], n - slices[0].size) + 1
  }

  lemma ReadConcat(a: seq<Cell>, b: seq<Cell>)
    requires Addressable(a) && Addressable(b)
    ensures Addressable(a + b) && Read(a + b) == Read(a) + Read(b)
  {
  }

  // Fewer than Cover slices do not hold n bytes.
  lemma {:induction false} CoverIsLeast(slices: seq<Slice>, n: nat, k: nat)
    requires n <= TotalSize(slices) && k <= |slices|
    ensures TotalSize(slices[..k]) < n <==> k < Cover(slices, n)
  {
    if k > 0 && n > 0 {
      assert slices[..k][1..] == slices[1..][..k - 1];
      if n > slices[0].size {
        CoverIsLeast(slices[1..], n - slices[0].size, k - 1);
      }
    }
  }

  lemma CoverOneMore(slices: seq<Slice>, n: nat, k: nat)
    requires n <= TotalSize(slices) && k < Cover(slices, n)
    ensures TotalSize(slices[..k + 1]) == TotalSize(slices[..k]) + slices[k].size
    ensures k + 1 < Cover(slices, n) <==> TotalSize(slices[..k + 1]) < n
    ensures slices[k..][1..] == slices[k + 1..]
  {
    FrontEnds(slices, k);
    CoverIsLeast(slices, n, k + 1);
  }

  lemma BytesHavePlaces(slices: seq<Slice>, n: nat)
    requires n < TotalSize(slices)
    ensures Locate(slices, n).0 < |slices|
  {
    LocateIsPlace(slices, n);
    assert slices[..|slices|] == slices;
  }

  // Dividing the list at byte n, wherever in a slice that is.
  lemma LocateDivides(slices: seq<Slice>, n: nat)
    requires InArrays(slices) && n <= TotalSize(slices)
    ensures var (i, off) := Locate(slices, n);
      && CoverUpTo(slices[..i], Cells(slices), n - off)
      && CoverFrom(slices[i..], Cells(slices), n - off)
      && (i == |slices| ==> n == TotalSize(slices))
  {
    var (i, off) := Locate(slices, n);
    LocateIsPlace(slices, n);
    SlicesFrom(slices, i);
    if i == |slices| {
      assert slices[..i] == slices;
    }
  }

  lemma ReadIs(cells: seq<Cell>, bytes: seq<byte>)
    requires Addressable(cells) && |cells| == |bytes|
    requires forall k :: 0 <= k < |cells| ==> cells[k].base[cells[k].index] == bytes[k]
    ensures Read(cells) == bytes
  {
  }

  lemma ReadSlice(s: Slice)
    requires s.InArray()
    ensures Addressable(SliceCells(s)) && Read(SliceCells(s)) == s.base[s.offset..s.offset + s.size]
  {
  }

  lemma ReadPart(piece: seq<Cell>, cells: seq<Cell>, used: nat, offset: nat)
    requires Addressable(cells) && used <= |cells| && offset + |piece| <= used
    requires piece == cells[offset..offset + |piece|]
    ensures Addressable(piece) && Read(piece) == Read(cells[..used])[offset..offset + |piece|]
  {
    forall k | 0 <= k < |piece| ensures piece[k] == cells[..used][offset + k] && piece[k] in cells {
      assert piece[k] == cells[offset + k];
    }
  }

  method Memcpy(to: array<byte>, at: nat, from: array<byte>, start: nat, n: nat)
    requires to != from && at + n <= to.Length && start + n <= from.Length
    modifies to
    ensures forall i :: 0 <= i < to.Length ==>
      to[i] == if at <= i < at + n then from[start + i - at] else old(to[i])
  {
    forall k | 0 <= k < n {
      to[at + k] := from[start + k];
    }
  }

  method Store(to: array<byte>, at: nat, data: seq<byte>)
    requires at + |data| <= to.Length
    modifies to
    ensures forall i :: 0 <= i < to.Length ==>
      to[i] == if at <= i < at + |data| then data[i - at] else old(to[i])
  {
    forall k | 0 <= k < |data| {
      to[at + k] := data[k];
    }
  }
}
