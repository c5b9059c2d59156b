/**
 Maximum bipartite matching by recursive augmentation, as gmock computes it for
 unordered element matchers. Each left node is tried exactly once.
 */
module MaxBipartiteMatch {
  import opened MatchMatrices
  import opened Matchings

  // Stands for the largest size_t, which no node has as its number.
  const UNUSED: int := -1

  // left[l] is the right node l sends its flow to; each such flow is an edge and the
  // right node refers back to l.
  ghost predicate LeftRefers(edges: set<(int, int)>, left: seq<int>, right: seq<int>) {
    forall l :: 0 <= l < |left| && left[l] != UNUSED ==>
      0 <= left[l] < |right| && (l, left[l]) in edges && right[left[l]] == l
  }

  // right[r] refers back to r, except at the right node an augmentation has just left.
  ghost predicate RightRefers(left: seq<int>, right: seq<int>, stale: int) {
    forall r :: 0 <= r < |right| && right[r] != UNUSED && r != stale ==>
      0 <= right[r] < |left| && left[right[r]] == r
  }

  ghost predicate MutuallyReferent(edges: set<(int, int)>, left: seq<int>, right: seq<int>) {
    LeftRefers(edges, left, right) && RightRefers(left, right, UNUSED)
  }

  // All neighbours of l are in rs.
  ghost predicate NeighboursIn(edges: set<(int, int)>, l: int, rs: set<int>) {
    forall r :: (l, r) in edges ==> r in rs
  }

  // The search cannot leave rs: each of its nodes is taken, and the left node taking it
  // has no edge to anywhere else.
  ghost predicate Closed(edges: set<(int, int)>, right: seq<int>, rs: set<int>, bound: set<int>) {
    forall r :: r in rs ==>
      0 <= r < |right| && right[r] != UNUSED && NeighboursIn(edges, right[r], bound)
  }

  ghost function Marked(seen: seq<bool>): (s: set<int>)
    ensures forall r :: r in s <==> 0 <= r < |seen| && seen[r]
  {
    set r | 0 <= r < |seen| && seen[r]
  }

  ghost function Unmarked(seen: seq<bool>): (s: set<int>)
    ensures forall r :: r in s <==> 0 <= r < |seen| && !seen[r]
  {
    set r | 0 <= r < |seen| && !seen[r]
  }

  // What a successful search from l does to the matching.
  ghost predicate Augmented(edges: set<(int, int)>, l: int, left0: seq<int>, right0: seq<int>,
                            left1: seq<int>, right1: seq<int>, avoid: set<int>)
    requires 0 <= l < |left0| == |left1| && |right0| == |right1|
  {
    && left1[l] != UNUSED && left1[l] !in avoid
    && LeftRefers(edges, left1, right1) && RightRefers(left1, right1, left0[l])
    && (forall r :: 0 <= r < |right0| && r in avoid ==> right1[r] == right0[r])
    && (forall k :: 0 <= k < |left0| && k != l ==> (left1[k] == UNUSED <==> left0[k] == UNUSED))
  }

  // The search from l has tried the right nodes below n in vain, and whatever it marked on
  // the way leads nowhere either.
  ghost predicate Exhausted(edges: set<(int, int)>, l: int, n: int, right: seq<int>, seen0: set<int>, seen1: set<int>) {
    && seen0 <= seen1
    && (forall k :: 0 <= k < n && (l, k) in edges ==> k in seen1)
    && Closed(edges, right, seen1 - seen0, seen1)
  }

  // A search below r that fails adds r and all it marked to the dead ends of l.
  lemma FailureExhausts(edges: set<(int, int)>, l: int, r: int, right: seq<int>, seen0: set<int>,
                        seen1: set<int>, seen2: set<int>)
    requires 0 <= r < |right| && right[r] != UNUSED
    requires Exhausted(edges, l, r, right, seen0, seen1)
    requires Exhausted(edges, right[r], |right|, right, seen1 + {r}, seen2)
    requires forall e :: e in edges ==> 0 <= e.1 < |right|
    ensures Exhausted(edges, l, r + 1, right, seen0, seen2)
  {
    assert NeighboursIn(edges, right[r], seen2);
    forall k | k in seen2 - seen0
      ensures 0 <= k < |right| && right[k] != UNUSED && NeighboursIn(edges, right[k], seen2)
    {
      if k in seen1 {
        assert k in seen1 - seen0 && NeighboursIn(edges, right[k], seen1);
      } else if k != r {
        assert k in seen2 - (seen1 + {r});
      }
    }
  }

  // Linking l and r after the search below r succeeded repairs the stale entry at r and
  // leaves at most the one at l's former partner. The path avoids every closed set.
  lemma LinkAugments(edges: set<(int, int)>, l: int, r: int, left0: seq<int>, right0: seq<int>,
                     left1: seq<int>, right1: seq<int>, seen: set<int>, dead: set<int>)
    requires 0 <= l < |left0| == |left1| && 0 <= r < |right0| == |right1|
    requires MutuallyReferent(edges, left0, right0) && (l, r) in edges && r !in seen
    requires left0[l] != UNUSED ==> left0[l] in seen
    requires Closed(edges, right0, dead, dead)
    requires if right0[r] == UNUSED then left1 == left0 && right1 == right0
             else Augmented(edges, right0[r], left0, right0, left1, right1, seen + {r} + dead)
    ensures Augmented(edges, l, left0, right0, left1[l := r], right1[r := l], seen + dead)
  {
  }

  // The left nodes below n have been tried; those without a partner only reach dead ends.
  ghost predicate TriedBelow(edges: set<(int, int)>, left: seq<int>, right: seq<int>, n: int, dead: set<int>) {
    && MutuallyReferent(edges, left, right) && Closed(edges, right, dead, dead)
    && (forall k :: 0 <= k < |left| && n <= k ==> left[k] == UNUSED)
    && (forall k :: 0 <= k < n && k < |left| && left[k] == UNUSED ==> NeighboursIn(edges, k, dead))
  }

  // Dead ends survive later successes, and a failure adds its marks to them.
  lemma TriedOneMore(edges: set<(int, int)>, l: int, left0: seq<int>, right0: seq<int>,
                     left1: seq<int>, right1: seq<int>, found: bool, seen: set<int>, dead: set<int>)
    requires 0 <= l < |left0| == |left1| && |right0| == |right1| && left0[l] == UNUSED
    requires TriedBelow(edges, left0, right0, l, dead)
    requires found ==> Augmented(edges, l, left0, right0, left1, right1, {} + dead)
    requires !found ==> left1 == left0 && right1 == right0 && Exhausted(edges, l, |right0|, right0, {}, seen)
    requires forall e :: e in edges ==> 0 <= e.1 < |right0|
    ensures TriedBelow(edges, left1, right1, l + 1, if found then dead else dead + seen)
  {
    if !found {
      assert NeighboursIn(edges, l, dead + seen);
      assert seen - {} == seen;
      forall k | 0 <= k < l && left1[k] == UNUSED ensures NeighboursIn(edges, k, dead + seen) {
        assert NeighboursIn(edges, k, dead);
      }
    }
  }

  // The pairs recorded in left up to n.
  ghost function Flow(left: seq<int>, n: nat): map<int, int>
    requires n <= |left|
  {
    map l | 0 <= l < n && left[l] != UNUSED :: left[l]
  }

  ghost function AsMap(pairs: seq<(int, int)>): map<int, int> {
    if pairs == [] then map[]
    else AsMap(pairs[..|pairs| - 1])[pairs[|pairs| - 1].0 := pairs[|pairs| - 1].1]
  }

  lemma FlowGrows(left: seq<int>, l: nat)
    requires l < |left|
    ensures Flow(left, l + 1) == if left[l] == UNUSED then Flow(left, l) else Flow(left, l)[l := left[l]]
    ensures l !in Flow(left, l)
  {
  }

  lemma PairsGrow(pairs: seq<(int, int)>, l: int, r: int)
    requires l !in AsMap(pairs) && |AsMap(pairs)| == |pairs|
    ensures AsMap(pairs + [(l, r)]) == AsMap(pairs)[l := r] && |AsMap(pairs + [(l, r)])| == |pairs| + 1
  {
    assert (pairs + [(l, r)])[..|pairs|] == pairs;
  }

  // The dead ends together with the left nodes that do not lead into them touch every edge,
  // and they are no more than the pairs: so no matching has more.
  lemma FlowIsMaximum(edges: set<(int, int)>, left: seq<int>, right: seq<int>, dead: set<int>)
    requires MutuallyReferent(edges, left, right) && Closed(edges, right, dead, dead)
    requires forall e :: e in edges ==> 0 <= e.0 < |left|
    requires forall l :: 0 <= l < |left| && left[l] == UNUSED ==> NeighboursIn(edges, l, dead)
    ensures IsMaximum(Flow(left, |left|), edges)
  {
    var flow := Flow(left, |left|);
    var lefts := set l | l in flow && flow[l] !in dead;
    var others := set l | l in flow && flow[l] in dead;
    assert IsCover(lefts, dead, edges);
    var partners := map r | r in dead :: right[r];
    InjectiveSize(partners, others);
    assert partners.Keys == dead;
    assert flow.Keys == lefts + others;
    assert |flow| == |lefts| + |others|;
    forall other | IsMatching(other, edges) ensures |other| <= |flow| {
      CoverBoundsMatching(other, lefts, dead, edges);
    }
  }

  class MaxBipartiteMatchState {
    const graph: MatchMatrix
    const left: array<int>
    const right: array<int>

    ghost predicate Valid() {
      && graph.Valid()
      && left.Length == graph.lhsSize && right.Length == graph.rhsSize
      && left != right
    }

    // No flow yet.
    constructor (graph: MatchMatrix)
      requires graph.Valid()
      ensures Valid() && this.graph == graph && fresh(left) && fresh(right)
      ensures forall l :: 0 <= l < left.Length ==> left[l] == UNUSED
      ensures forall r :: 0 <= r < right.Length ==> right[r] == UNUSED
    {
      this.graph := graph;
      left := new int[graph.lhsSize](k => UNUSED);
      right := new int[graph.rhsSize](k => UNUSED);
    }

    method Link(l: int, r: int)
      requires Valid() && 0 <= l < left.Length && 0 <= r < right.Length
      modifies left, right
      ensures left[..] == old(left[..])[l := r] && right[..] == old(right[..])[r := l]
    {
      left[l] := r;
      right[r] := l;
    }

    // Searches a path from l to a free right node and links the nodes along it. The ghost
    // set is any set of right nodes that no path can leave.
    method TryAugment(l: int, seen: array<bool>, ghost dead: set<int>) returns (found: bool)
      requires Valid() && 0 <= l < left.Length && seen.Length == right.Length && seen != graph.matched
      requires MutuallyReferent(graph.Edges(), left[..], right[..])
      requires left[l] != UNUSED ==> left[l] in Marked(seen[..])
      requires Closed(graph.Edges(), right[..], dead, dead)
      modifies left, right, seen
      decreases Unmarked(seen[..])
      ensures found ==> Augmented(graph.Edges(), l, old(left[..]), old(right[..]), left[..], right[..],
                                  old(Marked(seen[..])) + dead)
      ensures !found ==> left[..] == old(left[..]) && right[..] == old(right[..])
      ensures !found ==> Exhausted(graph.Edges(), l, right.Length, right[..],
                                   old(Marked(seen[..])), Marked(seen[..]))
    {
      ghost var edges := graph.Edges();
      ghost var left0, right0, seen0 := left[..], right[..], Marked(seen[..]);
      for r := 0 to graph.rhsSize
        invariant left[..] == left0 && right[..] == right0
        invariant Exhausted(edges, l, r, right0, seen0, Marked(seen[..]))
      {
        if seen[r] || !graph.HasEdge(l, r) {
          continue;
        }
        ghost var seen1 := Marked(seen[..]);
        seen[r] := true;
        assert Marked(seen[..]) == seen1 + {r};
        found := right[r] == UNUSED;
        if !found {
          found := TryAugment(right[r], seen, dead);
        }
        if found {
          ghost var left1, right1 := left[..], right[..];
          LinkAugments(edges, l, r, left0, right0, left1, right1, seen1, dead);
          Link(l, r);
          return;
        }
        FailureExhausts(edges, l, r, right0, seen0, seen1, Marked(seen[..]));
      }
      return false;
    }

    // Tries each left node once, and never needs to come back to it.
    method AugmentAll()
      requires Valid() && TriedBelow(graph.Edges(), left[..], right[..], 0, {})
      modifies left, right
      ensures IsMaximum(Flow(left[..], left.Length), graph.Edges())
    {
      ghost var edges := graph.Edges();
      ghost var dead: set<int> := {};
      for l := 0 to graph.lhsSize
        invariant TriedBelow(edges, left[..], right[..], l, dead)
      {
        ghost var left0, right0 := left[..], right[..];
        assert left[l] == UNUSED;
        var seen := new bool[graph.rhsSize](k => false);
        assert Marked(seen[..]) == {};
        var found := TryAugment(l, seen, dead);
        TriedOneMore(edges, l, left0, right0, left[..], right[..], found, Marked(seen[..]), dead);
        dead := if found then dead else dead + Marked(seen[..]);
      }
      FlowIsMaximum(edges, left[..], right[..], dead);
    }

    method ListPairs() returns (pairs: seq<(int, int)>)
      ensures AsMap(pairs) == Flow(left[..], left.Length) && |AsMap(pairs)| == |pairs|
      ensures forall i, j :: 0 <= i < j < |pairs| ==> pairs[i].0 < pairs[j].0
    {
      pairs := [];
      ghost var lefts := left[..];
      for l := 0 to left.Length
        invariant lefts == left[..] && AsMap(pairs) == Flow(lefts, l) && |AsMap(pairs)| == |pairs|
        invariant forall p :: p in pairs ==> p.0 < l
        invariant forall i, j :: 0 <= i < j < |pairs| ==> pairs[i].0 < pairs[j].0
      {
        FlowGrows(lefts, l);
        if left[l] != UNUSED {
          PairsGrow(pairs, l, left[l]);
          pairs := pairs + [(l, left[l])];
        }
      }
    }

    method Compute() returns (pairs: seq<(int, int)>)
      requires Valid() && TriedBelow(graph.Edges(), left[..], right[..], 0, {})
      modifies left, right
      ensures IsMaximum(AsMap(pairs), graph.Edges()) && |AsMap(pairs)| == |pairs|
      ensures forall i, j :: 0 <= i < j < |pairs| ==> pairs[i].0 < pairs[j].0
    {
      AugmentAll();
      pairs := ListPairs();
    }
  }

  method FindMaxBipartiteMatching(graph: MatchMatrix) returns (pairs: seq<(int, int)>)
    requires graph.Valid()
    ensures IsMaximum(AsMap(pairs), graph.Edges()) && |AsMap(pairs)| == |pairs|
  {
    var state := new MaxBipartiteMatchState(graph);
    pairs := state.Compute();
  }

  // True exactly when all matchers can be given an element of their own.
  method FindPairing(matrix: MatchMatrix) returns (result: bool)
    requires matrix.Valid()
    ensures result <==> exists m :: IsMatching(m, matrix.Edges()) && CoversAll(m, matrix.rhsSize)
  {
    var matches := FindMaxBipartiteMatching(matrix);
    result := |matches| == matrix.rhsSize;
    ghost var edges := matrix.Edges();
    FullSizeCoversAll(AsMap(matches), edges, matrix.rhsSize);
    forall m | IsMatching(m, edges) && CoversAll(m, matrix.rhsSize) ensures result {
      FullSizeCoversAll(m, edges, matrix.rhsSize);
    }
  }
}
