/** Walks and cycles of a relation on numbers. */
module Graphs {
  import opened Sequences

  type Relation = (nat, nat) -> bool

  ghost predicate Walk(r: Relation, w: seq<nat>) {
    forall i | 0 <= i < |w| - 1 :: r(w[i], w[i + 1])
  }

  ghost predicate Cycle(r: Relation, w: seq<nat>) {
    Walk(r, w) && |w| >= 2 && w[0] == w[|w| - 1]
  }

  ghost predicate Acyclic(r: Relation) {
    forall w :: !Cycle(r, w)
  }

  ghost predicate Within(w: seq<nat>, s: set<nat>) {
    forall i | 0 <= i < |w| :: w[i] in s
  }

  /** No cycle lies inside the set. */
  ghost predicate AcyclicOn(r: Relation, s: set<nat>) {
    forall w :: Within(w, s) ==> !Cycle(r, w)
  }

  lemma {:induction false} DistinctFits(w: seq<nat>, s: set<nat>)
    requires Distinct(w) && Within(w, s)
    ensures |w| <= |s|
  {
    if w != [] {
      var last := w[|w| - 1];
      DistinctFits(w[..|w| - 1], s - {last});
    }
  }

  /** A walk longer than the set it stays in comes back to some node. */
  lemma LongWalkCloses(r: Relation, w: seq<nat>, s: set<nat>)
    requires Walk(r, w) && |w| > |s| && Within(w, s)
    ensures !AcyclicOn(r, s)
  {
    if Distinct(w) {
      DistinctFits(w, s);
    }
    var i, j :| 0 <= i < j < |w| && w[i] == w[j];
    assert Cycle(r, w[i..j + 1]) && Within(w[i..j + 1], s);
  }

  /** Some successor of the node lies in the set. */
  ghost predicate Inward(r: Relation, s: set<nat>, t: nat) {
    exists d :: d in s && r(t, d)
  }

  lemma SuccessorInside(r: Relation, s: set<nat>, t: nat) returns (d: nat)
    requires Inward(r, s, t)
    ensures d in s && r(t, d)
  {
    d :| d in s && r(t, d);
  }

  lemma WalkExtends(r: Relation, w: seq<nat>, d: nat)
    requires w != [] && Walk(r, w) && r(w[|w| - 1], d)
    ensures Walk(r, w + [d])
  {
    forall i | 0 <= i < |w| ensures r((w + [d])[i], (w + [d])[i + 1]) {
      if i < |w| - 1 {
        assert r(w[i], w[i + 1]);
      }
    }
  }

  lemma {:induction false} WalkInside(r: Relation, s: set<nat>, n: nat) returns (w: seq<nat>)
    requires s != {} && forall t | t in s :: Inward(r, s, t)
    ensures |w| == n + 1 && Walk(r, w) && Within(w, s)
  {
    if n == 0 {
      var t :| t in s;
      w := [t];
    } else {
      var init := WalkInside(r, s, n - 1);
      var next := SuccessorInside(r, s, init[n - 1]);
      WalkExtends(r, init, next);
      w := init + [next];
    }
  }

  /** A nonempty set without a cycle inside has a member without successors inside. */
  lemma SomeSink(r: Relation, s: set<nat>) returns (t: nat)
    requires AcyclicOn(r, s) && s != {}
    ensures t in s && !Inward(r, s, t)
  {
    if forall t | t in s :: Inward(r, s, t) {
      var w := WalkInside(r, s, |s|);
      LongWalkCloses(r, w, s);
    }
    t :| t in s && !Inward(r, s, t);
  }

  /** A relation that only goes down in rank has no cycle. */
  lemma {:induction false} WalkDescends(r: Relation, w: seq<nat>, rank: map<nat, nat>)
    requires Walk(r, w) && |w| >= 2 && Within(w, rank.Keys)
    requires forall a, b | a in rank && b in rank && r(a, b) :: rank[b] < rank[a]
    ensures rank[w[|w| - 1]] < rank[w[0]]
    decreases |w|
  {
    assert r(w[0], w[1]);
    if |w| > 2 {
      forall i | 0 <= i < |w[1..]| - 1 ensures r(w[1..][i], w[1..][i + 1]) {
        assert r(w[i + 1], w[i + 2]);
      }
      WalkDescends(r, w[1..], rank);
    }
  }

  /** A cycle carries over along a map of the nodes that keeps the edges. */
  lemma CycleMaps(r: Relation, q: Relation, w: seq<nat>, v: seq<nat>)
    requires Cycle(r, w) && |v| == |w| && v[0] == v[|v| - 1]
    requires forall i | 0 <= i < |w| - 1 && r(w[i], w[i + 1]) :: q(v[i], v[i + 1])
    ensures Cycle(q, v)
  {
    forall i | 0 <= i < |v| - 1 ensures q(v[i], v[i + 1]) {
      assert r(w[i], w[i + 1]);
    }
  }
}
