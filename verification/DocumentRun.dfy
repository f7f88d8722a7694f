/**
  A complete accepted run: the units of a plain pipeline in document order, each
  with all its instances (verifier/pipeline/graph.go, examples/zts/ordering/verifier.go).
*/
module DocumentRun {
  import opened Common
  import opened Graph
  import opened ClimbOrder
  import opened Naming
  import opened Instances
  import opened Lookup
  import opened Runs
  import opened LinearExtensions

  /******* Leaves in document order *******/

  /** The named leaves of `p`'s forward subtree. */
  function Leaves(root: Node, p: Path): seq<Path>
    requires IsNode(root, p)
    decreases At(root, p), |At(root, p).children| + 1
  {
    if IsLeaf(root, p) then (if IsNamed(At(root, p)) then [p] else [])
    else LeavesOfChildren(root, p, |At(root, p).children|)
  }

  function LeavesOfChildren(root: Node, p: Path, k: nat): seq<Path>
    requires IsNode(root, p) && k <= |At(root, p).children|
    decreases At(root, p), k
  {
    if k == 0 then []
    else
      var front := LeavesOfChildren(root, p, k - 1);
      ChildIsNode(root, p, k - 1);
      front + Leaves(root, p + [k - 1])
  }

  predicate IsLeafBelow(root: Node, p: Path, q: Path) {
    p <= q && IsNode(root, q) && IsLeaf(root, q) && IsNamed(At(root, q))
  }

  lemma {:induction false} LeavesAre(root: Node, p: Path, q: Path)
    requires IsNode(root, p) && q in Leaves(root, p)
    ensures IsLeafBelow(root, p, q)
    decreases At(root, p), |At(root, p).children| + 1
  {
    if !IsLeaf(root, p) {
      LeavesOfChildrenAre(root, p, |At(root, p).children|, q);
    }
  }

  lemma {:induction false} LeavesOfChildrenAre(root: Node, p: Path, k: nat, q: Path)
    requires IsNode(root, p) && k <= |At(root, p).children| && q in LeavesOfChildren(root, p, k)
    ensures IsLeafBelow(root, p, q) && Rank(root, q) < Rank(root, p) + 1 + SizeOfKids(At(root, p), k)
    decreases At(root, p), k
  {
    ChildIsNode(root, p, k - 1);
    if q in LeavesOfChildren(root, p, k - 1) {
      LeavesOfChildrenAre(root, p, k - 1, q);
    } else {
      LeavesAre(root, p + [k - 1], q);
      ChildRange(root, p, k - 1, q);
    }
  }

  lemma {:induction false} LeavesInOrder(root: Node, p: Path)
    requires IsNode(root, p)
    ensures InRankOrder(root, Leaves(root, p))
    decreases At(root, p), |At(root, p).children| + 1
  {
    if !IsLeaf(root, p) {
      LeavesOfChildrenInOrder(root, p, |At(root, p).children|);
    }
  }

  lemma {:induction false} LeavesOfChildrenInOrder(root: Node, p: Path, k: nat)
    requires IsNode(root, p) && k <= |At(root, p).children|
    ensures InRankOrder(root, LeavesOfChildren(root, p, k))
    decreases At(root, p), k
  {
    if k > 0 {
      var last := k - 1;
      ChildIsNode(root, p, last);
      LeavesOfChildrenInOrder(root, p, last);
      LeavesInOrder(root, p + [last]);
      ChildJoins(root, p, last);
    }
  }

  lemma ChildJoins(root: Node, p: Path, k: nat)
    requires IsNode(root, p) && k < |At(root, p).children| && IsNode(root, p + [k])
    requires InRankOrder(root, LeavesOfChildren(root, p, k)) && InRankOrder(root, Leaves(root, p + [k]))
    ensures InRankOrder(root, LeavesOfChildren(root, p, k + 1))
  {
    var front, last := LeavesOfChildren(root, p, k), Leaves(root, p + [k]);
    var bound := ChildBound(root, p, k);
    EarlierLeavesBelow(root, p, k);
    ChildLeavesAbove(root, p, k);
    RankOrderConcat(root, front, last, bound);
  }

  lemma EarlierLeavesBelow(root: Node, p: Path, k: nat)
    requires IsNode(root, p) && k <= |At(root, p).children|
    ensures RanksBelow(root, LeavesOfChildren(root, p, k), ChildBound(root, p, k))
  {
    var front := LeavesOfChildren(root, p, k);
    forall i | 0 <= i < |front| ensures IsNode(root, front[i]) && Rank(root, front[i]) < ChildBound(root, p, k) {
      LeavesOfChildrenAre(root, p, k, front[i]);
    }
  }

  lemma ChildLeavesAbove(root: Node, p: Path, i: nat)
    requires IsNode(root, p) && i < |At(root, p).children| && IsNode(root, p + [i])
    ensures RanksFrom(root, Leaves(root, p + [i]), ChildBound(root, p, i))
  {
    var last := Leaves(root, p + [i]);
    forall j | 0 <= j < |last| ensures IsNode(root, last[j]) && ChildBound(root, p, i) <= Rank(root, last[j]) {
      LeavesAre(root, p + [i], last[j]);
      ChildRange(root, p, i, last[j]);
    }
  }

  lemma {:induction false} LeavesOfChildrenHas(root: Node, p: Path, k: nat, i: nat, q: Path)
    requires IsNode(root, p) && i < k <= |At(root, p).children|
    requires (KidIsNode(root, p, i); q in Leaves(root, p + [i]))
    ensures q in LeavesOfChildren(root, p, k)
    decreases k
  {
    if i < k - 1 {
      LeavesOfChildrenHas(root, p, k - 1, i, q);
    }
  }

  /** Without rollback every named leaf is among them. */
  lemma {:induction false} LeavesHas(p: Plan, c: Path, q: Path)
    requires PlainPlan(p) && IsNode(p.g.root, c) && IsLeafBelow(p.g.root, c, q)
    ensures q in Leaves(p.g.root, c)
    decreases |q| - |c|
  {
    var root := p.g.root;
    if q == c {
      assert Leaves(root, c) == [c];
    } else {
      var i := EntersChild(p, c, q);
      LeavesHas(p, c + [i], q);
      LeavesOfChildrenHas(root, c, |At(root, c).children|, i, q);
    }
  }

  lemma EntersChild(p: Plan, c: Path, q: Path) returns (i: nat)
    requires PlainPlan(p) && IsNode(p.g.root, c) && IsNode(p.g.root, q) && c <= q && c != q
    ensures !IsLeaf(p.g.root, c) && i < |At(p.g.root, c).children|
    ensures IsNode(p.g.root, c + [i]) && c + [i] <= q
  {
    i := q[|c|];
    StepIsNode(p.g.root, q, |c|);
    assert q[..|c|] == c;
    assert PlainNode(At(p.g.root, c), p.cond);
    ParentIsNoLeaf(p.g.root, c);
    KidIsNode(p.g.root, c, i);
  }

  /******* The run *******/

  /** The requests of one unit: its instances, or its own name. */
  function RequestsOf(root: Node, q: Path): seq<string>
    requires IsNode(root, q)
  {
    if InstanceFqns(root, q).Some? then InstanceFqns(root, q).value else [At(root, q).fqn]
  }

  function Requests(root: Node, qs: seq<Path>): seq<string>
    requires forall i :: 0 <= i < |qs| ==> IsNode(root, qs[i])
  {
    if qs == [] then [] else Requests(root, qs[..|qs| - 1]) + RequestsOf(root, qs[|qs| - 1])
  }

  /** Every instance of every unit, in document order. */
  ghost function DocumentRun(root: Node): seq<string> {
    LeavesInOrder(root, []);
    Requests(root, Leaves(root, []))
  }

  lemma RequestsAre(p: Plan, q: Path, x: string)
    requires PlainPlan(p) && IsNode(p.g.root, q) && IsNamed(At(p.g.root, q)) && IsLeaf(p.g.root, q)
    ensures x in RequestsOf(p.g.root, q) <==> exists ch :: LeafInstance(p.g.root, q, ch, x)
  {
    var root := p.g.root;
    PlainChain(p, q);
    if HasStrategy(root, q) {
      InstanceFqnsMembers(root, q);
    } else {
      AllKnownDeeper(root, q, |q|);
      NoStrategyRequests(root, q, x);
    }
    if Rendered(root, q, -1, x) {
      var ch :| IsChoice(root, q, -1, ch) && x == Render(root, q, ch);
      ChoiceAt(root, q, -1, ch, 0);
      assert LeafInstance(root, q, ch, x);
    }
    if ch :| LeafInstance(root, q, ch, x) {
      assert Rendered(root, q, -1, x);
    }
  }

  lemma NoStrategyRequests(root: Node, q: Path, x: string)
    requires WellFormed(root) && IsNode(root, q) && IsNamed(At(root, q)) && !HasStrategy(root, q)
    ensures x == At(root, q).fqn <==> Rendered(root, q, -1, x)
  {
    LogicalNameRendered(root, q);
    assert q[..|q|] == q;
    NoLevels(root, q, -1);
    FanOutMembers(root, q, |q|, -1, [At(root, q).fqn]);
    assert FanOut(Levels(root, q, -1), [At(root, q).fqn]) == [At(root, q).fqn];
    assert x in [At(root, q).fqn] <==> x == At(root, q).fqn;
  }

  lemma EnumeratedOnce(p: Plan, q: Path, i: nat, j: nat)
    requires PlainPlan(p) && IsNode(p.g.root, q) && IsNamed(At(p.g.root, q)) && InstanceFqns(p.g.root, q).Some?
    requires i < |InstanceFqns(p.g.root, q).value| && j < |InstanceFqns(p.g.root, q).value|
    ensures InstanceFqns(p.g.root, q).value[i] == InstanceFqns(p.g.root, q).value[j] ==> i == j
  {
    var fs := InstanceFqns(p.g.root, q).value;
    if fs[i] == fs[j] {
      assert fs[i] in fs;
      assert Enumerates(p.g.root, p.g.byFqn, q, i, fs[i]) && Enumerates(p.g.root, p.g.byFqn, q, j, fs[i]);
    }
  }

  /** The requests of one unit are pairwise distinct. */
  lemma RequestsDistinct(p: Plan, q: Path)
    requires PlainPlan(p) && IsNode(p.g.root, q) && IsNamed(At(p.g.root, q))
    ensures Distinct(RequestsOf(p.g.root, q))
  {
    var root := p.g.root;
    if InstanceFqns(root, q).Some? {
      var fs := InstanceFqns(root, q).value;
      forall i, j | 0 <= i < j < |fs| ensures fs[i] != fs[j] {
        EnumeratedOnce(p, q, i, j);
      }
    }
  }

  /** The leaves are positions, named and in rank order. */
  ghost predicate AreLeaves(root: Node, qs: seq<Path>) {
    InRankOrder(root, qs) && forall i :: 0 <= i < |qs| ==> IsLeafBelow(root, [], qs[i])
  }

  lemma AreLeavesFront(root: Node, qs: seq<Path>)
    requires AreLeaves(root, qs) && qs != []
    ensures AreLeaves(root, qs[..|qs| - 1])
  {
    var front := qs[..|qs| - 1];
    forall i | 0 <= i < |front| ensures front[i] == qs[i] {}
  }

  ghost predicate InstanceAmong(root: Node, qs: seq<Path>, x: string) {
    exists q, ch :: q in qs && LeafInstance(root, q, ch, x)
  }

  ghost predicate InstanceOf(root: Node, q: Path, x: string) {
    exists ch :: LeafInstance(root, q, ch, x)
  }

  lemma AmongLast(root: Node, qs: seq<Path>, x: string)
    requires qs != []
    ensures InstanceAmong(root, qs, x) <==> InstanceAmong(root, qs[..|qs| - 1], x) || InstanceOf(root, qs[|qs| - 1], x)
  {
    var front, last := qs[..|qs| - 1], qs[|qs| - 1];
    forall q ensures q in qs <==> q in front || q == last {
      FrontAndLast(qs);
    }
    if InstanceOf(root, last, x) {
      var ch :| LeafInstance(root, last, ch, x);
      assert last in qs;
    }
  }

  /** Every request is an instance of one of the leaves, and their every instance is requested. */
  lemma {:induction false} RequestsMembers(p: Plan, qs: seq<Path>, x: string)
    requires PlainPlan(p) && AreLeaves(p.g.root, qs)
    ensures x in Requests(p.g.root, qs) <==> InstanceAmong(p.g.root, qs, x)
    decreases |qs|
  {
    if qs != [] {
      AreLeavesFront(p.g.root, qs);
      RequestsMembers(p, qs[..|qs| - 1], x);
      RequestsAre(p, qs[|qs| - 1], x);
      AmongLast(p.g.root, qs, x);
    }
  }

  /** A request belongs to one unit. */
  lemma SameUnit(p: Plan, q: Path, ch: Choice, q': Path, ch': Choice, x: string)
    requires PlainPlan(p) && LeafInstance(p.g.root, q, ch, x) && LeafInstance(p.g.root, q', ch', x)
    ensures q == q'
  {
    LeafInstanceResolves(p, q, ch, x);
    LeafInstanceResolves(p, q', ch', x);
  }

  lemma LastIsNew(root: Node, qs: seq<Path>)
    requires InRankOrder(root, qs) && qs != []
    ensures qs[|qs| - 1] !in qs[..|qs| - 1]
  {
    var front, last := qs[..|qs| - 1], qs[|qs| - 1];
    forall i | 0 <= i < |front| ensures front[i] != last {
      assert Rank(root, qs[i]) < Rank(root, last);
    }
  }

  /** A request of one leaf is no request of an earlier one. */
  lemma BlocksDisjoint(p: Plan, qs: seq<Path>, x: string)
    requires PlainPlan(p) && AreLeaves(p.g.root, qs) && qs != []
    ensures !(x in Requests(p.g.root, qs[..|qs| - 1]) && x in RequestsOf(p.g.root, qs[|qs| - 1]))
  {
    var front, last := qs[..|qs| - 1], qs[|qs| - 1];
    AreLeavesFront(p.g.root, qs);
    RequestsMembers(p, front, x);
    RequestsAre(p, last, x);
    LastIsNew(p.g.root, qs);
    forall q, ch, ch' | q in front && LeafInstance(p.g.root, q, ch, x) &&
      LeafInstance(p.g.root, last, ch', x) ensures q == last {
      SameUnit(p, q, ch, last, ch', x);
    }
  }

  lemma DistinctConcat<T>(a: seq<T>, b: seq<T>)
    requires Distinct(a) && Distinct(b) && forall x :: !(x in a && x in b)
    ensures Distinct(a + b)
  {
    forall i, j | 0 <= i < j < |a + b| ensures (a + b)[i] != (a + b)[j] {
      if i < |a| <= j {
        assert a[i] in a && b[j - |a|] in b;
      }
    }
  }

  lemma {:induction false} AllRequestsDistinct(p: Plan, qs: seq<Path>)
    requires PlainPlan(p) && AreLeaves(p.g.root, qs)
    ensures Distinct(Requests(p.g.root, qs))
    decreases |qs|
  {
    if qs != [] {
      AreLeavesFront(p.g.root, qs);
      AllRequestsDistinct(p, qs[..|qs| - 1]);
      RequestsDistinct(p, qs[|qs| - 1]);
      var front, last := Requests(p.g.root, qs[..|qs| - 1]), RequestsOf(p.g.root, qs[|qs| - 1]);
      forall x ensures !(x in front && x in last) {
        BlocksDisjoint(p, qs, x);
      }
      DistinctConcat(front, last);
    }
  }

  /******* Document order *******/

  /** The list holds every leaf of smaller rank than one of its own. */
  ghost predicate ClosedDownwards(root: Node, qs: seq<Path>) {
    AreLeaves(root, qs) && forall i :: 0 <= i < |qs| ==> HoldsEarlier(root, qs[..i], qs[i])
  }

  ghost predicate HoldsEarlier(root: Node, front: seq<Path>, q: Path)
    requires IsNode(root, q)
  {
    forall a :: IsLeafBelow(root, [], a) && Rank(root, a) < Rank(root, q) ==> a in front
  }

  lemma ClosedFront(root: Node, qs: seq<Path>)
    requires ClosedDownwards(root, qs) && qs != []
    ensures ClosedDownwards(root, qs[..|qs| - 1])
  {
    var front := qs[..|qs| - 1];
    AreLeavesFront(root, qs);
    forall i | 0 <= i < |front| ensures HoldsEarlier(root, front[..i], front[i]) {
      assert front[i] == qs[i] && front[..i] == qs[..i];
    }
  }

  /** `y` comes before every request of the last leaf. */
  lemma EarlierIsRequested(p: Plan, qs: seq<Path>, a: Path, ca: Choice, y: string)
    requires PlainPlan(p) && ClosedDownwards(p.g.root, qs) && qs != []
    requires LeafInstance(p.g.root, a, ca, y) && Rank(p.g.root, a) < Rank(p.g.root, qs[|qs| - 1])
    ensures y in Requests(p.g.root, qs[..|qs| - 1])
  {
    assert [] <= a;
    assert IsLeafBelow(p.g.root, [], a);
    AreLeavesFront(p.g.root, qs);
    RequestsMembers(p, qs[..|qs| - 1], y);
    assert HoldsEarlier(p.g.root, qs[..|qs| - 1], qs[|qs| - 1]);
    assert a in qs[..|qs| - 1];
  }

  /** Everything in the list is an instance of `q` and of no other unit. */
  ghost predicate OnlyOf(root: Node, last: seq<string>, q: Path) {
    forall x, n, cx :: x in last && LeafInstance(root, n, cx, x) ==> n == q
  }

  /** Every instance of a unit of smaller rank is in the list. */
  ghost predicate AllEarlier(root: Node, front: seq<string>, q: Path)
    requires IsNode(root, q)
  {
    forall a, ca, y :: LeafInstance(root, a, ca, y) && Rank(root, a) < Rank(root, q) ==> y in front
  }

  lemma AppendInOrder(root: Node, front: seq<string>, last: seq<string>, q: Path)
    requires IsNode(root, q) && InDocumentOrder(root, front) && OnlyOf(root, last, q) && AllEarlier(root, front, q)
    ensures InDocumentOrder(root, front + last)
  {
    var s := front + last;
    forall k, n, cx, a, ca, y |
      0 <= k < |s| && LeafInstance(root, n, cx, s[k]) && LeafInstance(root, a, ca, y) && Rank(root, a) < Rank(root, n)
      ensures y in s[..k]
    {
      if k < |front| {
        InFront(front, last, k);
      } else {
        InBack(front, last, k);
        InPrefix(front, last, k, y);
      }
    }
  }

  lemma {:induction false} RequestsInOrder(p: Plan, qs: seq<Path>)
    requires PlainPlan(p) && ClosedDownwards(p.g.root, qs)
    ensures InDocumentOrder(p.g.root, Requests(p.g.root, qs))
    decreases |qs|
  {
    if qs != [] {
      var q := qs[|qs| - 1];
      var front, last := Requests(p.g.root, qs[..|qs| - 1]), RequestsOf(p.g.root, q);
      ClosedFront(p.g.root, qs);
      RequestsInOrder(p, qs[..|qs| - 1]);
      forall x, n, cx | x in last && LeafInstance(p.g.root, n, cx, x) ensures n == q {
        LastUnitIs(p, qs, n, cx, x);
      }
      forall a, ca, y | LeafInstance(p.g.root, a, ca, y) && Rank(p.g.root, a) < Rank(p.g.root, q) ensures y in front {
        EarlierIsRequested(p, qs, a, ca, y);
      }
      AppendInOrder(p.g.root, front, last, q);
    }
  }

  /** A request of the last leaf is an instance of no other unit. */
  lemma LastUnitIs(p: Plan, qs: seq<Path>, n: Path, cx: Choice, x: string)
    requires PlainPlan(p) && AreLeaves(p.g.root, qs) && qs != []
    requires x in RequestsOf(p.g.root, qs[|qs| - 1]) && LeafInstance(p.g.root, n, cx, x)
    ensures n == qs[|qs| - 1]
  {
    RequestsAre(p, qs[|qs| - 1], x);
    var ch :| LeafInstance(p.g.root, qs[|qs| - 1], ch, x);
    SameUnit(p, n, cx, qs[|qs| - 1], ch, x);
  }

  lemma AllLeavesClosed(p: Plan)
    requires PlainPlan(p)
    ensures ClosedDownwards(p.g.root, Leaves(p.g.root, []))
  {
    var root := p.g.root;
    var qs := Leaves(root, []);
    LeavesInOrder(root, []);
    forall i | 0 <= i < |qs| ensures IsLeafBelow(root, [], qs[i]) {
      LeavesAre(root, [], qs[i]);
    }
    forall i | 0 <= i < |qs| ensures HoldsEarlier(root, qs[..i], qs[i]) {
      forall a | IsLeafBelow(root, [], a) && Rank(root, a) < Rank(root, qs[i]) ensures a in qs[..i] {
        LeavesHas(p, [], a);
        RankedBefore(root, qs, i, a);
      }
    }
  }

  lemma RankedBefore(root: Node, qs: seq<Path>, i: nat, a: Path)
    requires InRankOrder(root, qs) && i < |qs| && a in qs && IsNode(root, a) && Rank(root, a) < Rank(root, qs[i])
    ensures a in qs[..i]
  {
    forall l | i <= l < |qs| ensures qs[l] != a {
      assert Rank(root, qs[i]) <= Rank(root, qs[l]);
    }
    var j :| 0 <= j < |qs| && qs[j] == a;
    assert qs[..i][j] == a;
  }

  /**
    A full accepted run exists: the units in document order, each with its
    instances, request every leaf instance exactly once, and every request is
    allowed when its turn comes.
  */
  lemma DocumentRunIsComplete(p: Plan)
    requires PlainPlan(p)
    ensures var s := DocumentRun(p.g.root);
      && AcceptedRun(p, s) && Distinct(s)
      && forall x :: x in s <==> IsLeafInstance(p.g.root, x)
  {
    var root := p.g.root;
    var qs := Leaves(root, []);
    AllLeavesClosed(p);
    AllRequestsDistinct(p, qs);
    RequestsInOrder(p, qs);
    forall x ensures x in DocumentRun(root) <==> IsLeafInstance(root, x) {
      RequestsMembers(p, qs, x);
      if IsLeafInstance(root, x) {
        var n, cx :| LeafInstance(root, n, cx, x);
        assert [] <= n;
        LeavesHas(p, [], n);
      }
    }
    DocumentOrderIsAccepted(p, DocumentRun(root));
  }
}
