/**
 The adjacency matrix that the bipartite matcher of gmock works on: one row per
 element ("left" node), one column per matcher ("right" node), flattened row by row.
 */
module MatchMatrices {

  lemma SpaceIndexInRange(rows: nat, cols: nat, l: nat, r: nat)
    requires l < rows && r < cols
    ensures 0 <= l * cols + r < rows * cols
  {
    assert (l + 1) * cols <= rows * cols;
  }

  lemma RowFits(rows: nat, cols: nat, l: nat)
    requires l < rows
    ensures (l + 1) * cols == l * cols + cols <= rows * cols
  {
    assert (l + 1) * cols <= rows * cols;
  }

  function Pow2(n: nat): (p: nat)
    ensures p >= 1
  {
    if n == 0 then 1 else 2 * Pow2(n - 1)
  }

  lemma SmallModulus(x: nat, m: nat)
    requires x < m
    ensures x % m == x
  {
  }

  // The number whose binary digits, lowest first, are the cells of a matrix.
  function Number(bits: seq<bool>): (n: nat) {
    if bits == [] then 0 else (if bits[0] then 1 else 0) + 2 * Number(bits[1..])
  }

  lemma {:induction false} NumberOfOnes(bits: seq<bool>)
    requires forall k :: 0 <= k < |bits| ==> bits[k]
    ensures Number(bits) == Pow2(|bits|) - 1
  {
    if bits != [] {
      NumberOfOnes(bits[1..]);
    }
  }

  // Every number below 2^|bits| is the number of exactly one matrix, so that adding 1
  // repeatedly runs through all graphs of the given size.
  lemma {:induction false} NumberIsInjective(a: seq<bool>, b: seq<bool>)
    requires |a| == |b|
    ensures Number(a) < Pow2(|a|)
    ensures Number(a) == Number(b) ==> a == b
  {
    if a != [] {
      NumberIsInjective(a[1..], b[1..]);
      if Number(a) == Number(b) {
        assert a[0] == b[0];
        assert a == [a[0]] + a[1..] && b == [b[0]] + b[1..];
      }
    }
  }

  // Flipping a run of ones and the zero behind it adds 1.
  lemma {:induction false} CarryAddsOne(before: seq<bool>, after: seq<bool>, p: nat)
    requires |before| == |after| && p < |before|
    requires forall k :: 0 <= k < p ==> before[k] && !after[k]
    requires !before[p] && after[p] && before[p + 1..] == after[p + 1..]
    ensures Number(after) == Number(before) + 1
  {
    if p > 0 {
      assert before[1..][p..] == before[p + 1..] && after[1..][p..] == after[p + 1..];
      CarryAddsOne(before[1..], after[1..], p - 1);
    }
  }

  lemma {:induction false} NumberOfZeros(bits: seq<bool>)
    requires forall k :: 0 <= k < |bits| ==> !bits[k]
    ensures Number(bits) == 0
  {
    if bits != [] {
      NumberOfZeros(bits[1..]);
    }
  }

  // The carry has turned the first k ones into zeros and touched nothing else.
  ghost predicate Carried(before: seq<bool>, now: seq<bool>, k: nat) {
    && |now| == |before|
    && k <= |now|
    && (forall i :: 0 <= i < k ==> before[i] && !now[i])
    && (forall i :: k <= i < |now| ==> now[i] == before[i])
  }

  lemma CarryStops(before: seq<bool>, after: seq<bool>, p: nat)
    requires p < |before| == |after| && !before[p] && after[p]
    requires Carried(before, after[p := false], p)
    ensures Number(after) == (Number(before) + 1) % Pow2(|before|) && Number(after) != 0
  {
    assert forall k :: 0 <= k < p ==> after[p := false][k] == after[k];
    assert forall k :: p < k < |after| ==> after[p := false][k] == after[k];
    CarryAddsOne(before, after, p);
    NumberIsInjective(after, before);
    SmallModulus(Number(before) + 1, Pow2(|before|));
  }

  lemma CarryRunsOut(before: seq<bool>, after: seq<bool>)
    requires Carried(before, after, |before|)
    ensures Number(after) == (Number(before) + 1) % Pow2(|before|) == 0
  {
    NumberOfOnes(before);
    NumberOfZeros(after);
  }

  class MatchMatrix {
    const lhsSize: nat
    const rhsSize: nat
    const matched: array<bool>

    ghost predicate Valid() {
      matched.Length == lhsSize * rhsSize
    }

    // A matrix without edges.
    constructor (lhs: nat, rhs: nat)
      ensures Valid() && fresh(matched)
      ensures lhsSize == lhs && rhsSize == rhs
      ensures forall k :: 0 <= k < matched.Length ==> !matched[k]
    {
      lhsSize, rhsSize := lhs, rhs;
      matched := new bool[lhs * rhs](k => false);
    }

    function SpaceIndex(l: nat, r: nat): (k: nat)
      requires Valid() && l < lhsSize && r < rhsSize
      ensures k == l * rhsSize + r < matched.Length
    {
      SpaceIndexInRange(lhsSize, rhsSize, l, r);
      l * rhsSize + r
    }

    predicate HasEdge(l: nat, r: nat)
      requires Valid() && l < lhsSize && r < rhsSize
      reads matched
    {
      matched[SpaceIndex(l, r)]
    }

    // The graph the matrix stands for.
    ghost function Edges(): (e: set<(int, int)>)
      requires Valid()
      reads matched
      ensures forall l, r :: (l, r) in e <==> 0 <= l < lhsSize && 0 <= r < rhsSize && HasEdge(l, r)
    {
      set l, r | 0 <= l < lhsSize && 0 <= r < rhsSize && HasEdge(l, r) :: (l, r)
    }

    // Adds 1 to the number the cells form; false when that made the number wrap to zero.
    method NextGraph() returns (more: bool)
      requires Valid()
      modifies matched
      ensures Number(matched[..]) == (old(Number(matched[..])) + 1) % Pow2(matched.Length)
      ensures more <==> Number(matched[..]) != 0
    {
      ghost var before := matched[..];
      ghost var row := 0;
      for l := 0 to lhsSize
        invariant row == l * rhsSize <= matched.Length
        invariant Carried(before, matched[..], row)
      {
        RowFits(lhsSize, rhsSize, l);
        for r := 0 to rhsSize
          invariant row == l * rhsSize && row + r <= matched.Length
          invariant Carried(before, matched[..], row + r)
        {
          var b := SpaceIndex(l, r);
          assert b == row + r;
          if !matched[b] {
            ghost var now := matched[..];
            matched[b] := true;
            assert matched[..][b := false] == now;
            CarryStops(before, matched[..], b);
            return true;
          }
          matched[b] := false;
        }
        row := row + rhsSize;
      }
      CarryRunsOut(before, matched[..]);
      return false;
    }
  }
}
