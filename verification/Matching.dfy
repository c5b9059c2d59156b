/**
 What a maximum bipartite matching is, independent of any algorithm: matchings of a graph
 given as a set of (left, right) edges, vertex covers, and the weak duality between them.
 */
module Matchings {

  // Pairs each left node of its domain with a right node of its own, along an edge.
  ghost predicate IsMatching(m: map<int, int>, edges: set<(int, int)>) {
    && (forall l :: l in m ==> (l, m[l]) in edges)
    && (forall l, k :: l in m && k in m && m[l] == m[k] ==> l == k)
  }

  ghost predicate IsMaximum(m: map<int, int>, edges: set<(int, int)>) {
    && IsMatching(m, edges)
    && forall other :: IsMatching(other, edges) ==> |other| <= |m|
  }

  // Every edge touches one of the chosen nodes.
  ghost predicate IsCover(lefts: set<int>, rights: set<int>, edges: set<(int, int)>) {
    forall l, r :: (l, r) in edges ==> l in lefts || r in rights
  }

  lemma SomeElement(s: set<int>) returns (x: int)
    requires s != {}
    ensures x in s
  {
    if forall x :: x !in s {
      assert false;
    }
    x :| x in s;
  }

  // An injective map from its keys into a finite set needs at least that many targets.
  lemma {:induction false} InjectiveSize(m: map<int, int>, targets: set<int>)
    requires forall l :: l in m ==> m[l] in targets
    requires forall l, k :: l in m && k in m && m[l] == m[k] ==> l == k
    ensures |m| <= |targets|
  {
    var keys := m.Keys;
    if keys != {} {
      var l := SomeElement(keys);
      var rest := m - {l};
      assert keys == rest.Keys + {l};
      InjectiveSize(rest, targets - {m[l]});
    }
  }

  // Weak duality: no matching is larger than a vertex cover.
  lemma CoverBoundsMatching(m: map<int, int>, lefts: set<int>, rights: set<int>, edges: set<(int, int)>)
    requires IsMatching(m, edges) && IsCover(lefts, rights, edges)
    ensures |m| <= |lefts| + |rights|
  {
    var inLefts := map l | l in m && l in lefts :: l;
    var inRights := map l | l in m && l !in lefts :: m[l];
    InjectiveSize(inLefts, lefts);
    InjectiveSize(inRights, rights);
    assert m.Keys == inLefts.Keys + inRights.Keys;
  }

  // The right nodes reached.
  ghost function Targets(m: map<int, int>): (s: set<int>)
    ensures forall r :: r in s <==> exists l :: l in m && m[l] == r
  {
    set l | l in m :: m[l]
  }

  ghost predicate CoversAll(m: map<int, int>, rights: nat) {
    forall r :: 0 <= r < rights ==> r in Targets(m)
  }

  ghost function UpTo(n: nat): (s: set<int>)
    ensures forall k :: k in s <==> 0 <= k < n
    ensures |s| == n
  {
    if n == 0 then {} else UpTo(n - 1) + {n - 1}
  }

  lemma {:induction false} TargetsSize(m: map<int, int>)
    requires forall l, k :: l in m && k in m && m[l] == m[k] ==> l == k
    ensures |Targets(m)| == |m|
  {
    var keys := m.Keys;
    if keys == {} {
      assert Targets(m) == {};
    } else {
      var l := SomeElement(keys);
      var rest := m - {l};
      assert keys == rest.Keys + {l} && Targets(m) == Targets(rest) + {m[l]};
      TargetsSize(rest);
    }
  }

  lemma {:induction false} SubsetOfSameSize(a: set<int>, b: set<int>)
    requires a <= b
    ensures |a| <= |b|
    ensures |a| == |b| ==> a == b
  {
    if a != {} {
      var x := SomeElement(a);
      SubsetOfSameSize(a - {x}, b - {x});
      assert a == (a - {x}) + {x} && b == (b - {x}) + {x};
    }
  }

  // A matching reaches every right node exactly when it has as many pairs as there are.
  lemma FullSizeCoversAll(m: map<int, int>, edges: set<(int, int)>, rights: nat)
    requires IsMatching(m, edges)
    requires forall e :: e in edges ==> 0 <= e.1 < rights
    ensures |m| <= rights
    ensures |m| == rights <==> CoversAll(m, rights)
  {
    forall r | r in Targets(m) ensures r in UpTo(rights) {
      var l :| l in m && m[l] == r;
      assert (l, r) in edges;
    }
    TargetsSize(m);
    SubsetOfSameSize(Targets(m), UpTo(rights));
    if CoversAll(m, rights) {
      assert Targets(m) == UpTo(rights);
    }
  }
}
