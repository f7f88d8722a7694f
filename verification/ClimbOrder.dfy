/**
  What one climb returns, exactly: the immediate predecessors of a unit, each once,
  in document order (verifier/pipeline/graph.go: climb, terminalLeaves, forwardLeaves).
*/
module ClimbOrder {
  import opened Graph
  import opened Entries

  /******* Document order of lists *******/

  ghost predicate InRankOrder(root: Node, qs: seq<Path>) {
    && (forall i :: 0 <= i < |qs| ==> IsNode(root, qs[i]))
    && (forall i, j :: 0 <= i < j < |qs| ==> Rank(root, qs[i]) < Rank(root, qs[j]))
  }

  predicate RanksBelow(root: Node, qs: seq<Path>, bound: nat) {
    forall i :: 0 <= i < |qs| ==> IsNode(root, qs[i]) && Rank(root, qs[i]) < bound
  }

  predicate RanksFrom(root: Node, qs: seq<Path>, bound: nat) {
    forall i :: 0 <= i < |qs| ==> IsNode(root, qs[i]) && bound <= Rank(root, qs[i])
  }

  lemma RankOrderConcat(root: Node, a: seq<Path>, b: seq<Path>, bound: nat)
    requires InRankOrder(root, a) && InRankOrder(root, b)
    requires RanksBelow(root, a, bound) && RanksFrom(root, b, bound)
    ensures InRankOrder(root, a + b)
  {
  }

  /** The smallest rank below the `i`-th child. */
  function ChildBound(root: Node, p: Path, i: nat): nat
    requires IsNode(root, p) && i <= |At(root, p).children|
  {
    Rank(root, p) + 1 + SizeOfKids(At(root, p), i)
  }

  /** The ranks below the `i`-th child. */
  lemma ChildRange(root: Node, p: Path, i: nat, q: Path)
    requires IsNode(root, p) && i < |At(root, p).children| && IsNode(root, q) && p + [i] <= q
    ensures p <= q
    ensures Rank(root, p) + 1 + SizeOfKids(At(root, p), i) <= Rank(root, q)
    ensures Rank(root, q) < Rank(root, p) + 1 + SizeOfKids(At(root, p), i + 1)
  {
    KidIsNode(root, p, i);
    RankWithin(root, q, |p| + 1);
    assert q[..|p| + 1] == p + [i];
    assert q[..|p|] == p;
  }

  /** Everything under the `i`-th child is ranked between the children's bounds. */
  lemma UnderChildRange(root: Node, p: Path, i: nat, q: Path)
    requires IsNode(root, p) && i < |At(root, p).children| && IsNode(root, q) && Under(root, p + [i], q)
    ensures ChildBound(root, p, i) <= Rank(root, q) < ChildBound(root, p, i + 1)
  {
    UnderPrefix(root, p + [i], q);
    ChildRange(root, p, i, q);
  }

  lemma {:induction false} BoundsGrow(root: Node, p: Path, i: nat, j: nat)
    requires IsNode(root, p) && i <= j <= |At(root, p).children|
    ensures ChildBound(root, p, i) <= ChildBound(root, p, j)
  {
    if i < j {
      SizeOfKidsGrows(At(root, p), i, j);
    }
  }

  /******* Terminal leaves *******/

  /** A terminal of several branches is a terminal of one of them. */
  lemma {:induction false} TerminalOfBranch(root: Node, p: Path, k: nat, m: Path) returns (i: nat)
    requires IsNode(root, p) && k <= |At(root, p).children| && m in TerminalsOfBranches(root, p, k)
    ensures i < k && IsNode(root, p + [i]) && m in TerminalLeaves(root, p + [i])
    decreases k
  {
    ChildIsNode(root, p, k - 1);
    if m in TerminalLeaves(root, p + [k - 1]) {
      i := k - 1;
    } else {
      i := TerminalOfBranch(root, p, k - 1, m);
    }
  }

  /** The branch of a container whose terminals its own terminals are. */
  lemma TerminalComesFrom(root: Node, p: Path, m: Path) returns (i: nat)
    requires IsNode(root, p) && !IsLeaf(root, p) && m in TerminalLeaves(root, p)
    ensures i < |At(root, p).children| && IsNode(root, p + [i]) && m in TerminalLeaves(root, p + [i])
    ensures At(root, p).kind.Parallel? || i == |At(root, p).children| - 1
  {
    if At(root, p).kind.Parallel? {
      i := TerminalOfBranch(root, p, |At(root, p).children|, m);
    } else {
      i := |At(root, p).children| - 1;
      ChildIsNode(root, p, i);
    }
  }

  /** Where a terminal leaf of a container lies. */
  lemma TerminalInside(root: Node, p: Path, m: Path) returns (i: nat)
    requires WellShaped(root) && IsNode(root, p) && !IsLeaf(root, p) && m in TerminalLeaves(root, p)
    ensures i < |At(root, p).children| && IsNode(root, p + [i]) && m in TerminalLeaves(root, p + [i])
    ensures At(root, p).kind.Parallel? || i == |At(root, p).children| - 1
    ensures At(root, p + [i]) < At(root, p)
    ensures |p| < |m| && m[..|p|] == p && m[|p|] == i
  {
    i := TerminalComesFrom(root, p, m);
    ChildIsNode(root, p, i);
    TerminalLeavesAre(root, p + [i], m);
    UnderPrefix(root, p + [i], m);
    PrefixOfChild(p, i, m);
  }

  lemma PrefixOfChild(p: Path, i: nat, m: Path)
    requires p + [i] <= m
    ensures |p| < |m| && m[..|p|] == p && m[|p|] == i
  {
    assert m[|p|] == (p + [i])[|p|];
  }

  /** Nothing in a subtree comes after one of its terminal leaves. */
  lemma {:induction false} TerminalIsMaximal(root: Node, p: Path, m: Path, a: Path)
    requires WellShaped(root) && IsNode(root, p) && m in TerminalLeaves(root, p) && IsNode(root, m)
    requires IsNode(root, a) && IsLeaf(root, a) && Under(root, p, a)
    ensures !Before(root, m, a)
    decreases At(root, p)
  {
    if a == p {
      NotBeforeItself(root, p, m);
    } else {
      EnteredIsNoLeaf(root, p, a);
      var i := TerminalInside(root, p, m);
      UnderChild(root, p, a);
      if a[|p|] == i {
        TerminalIsMaximal(root, p + [i], m, a);
      } else {
        ApartInside(root, p, m, a);
      }
    }
  }

  /** A leaf is its own only terminal. */
  lemma NotBeforeItself(root: Node, p: Path, m: Path)
    requires IsNode(root, p) && IsLeaf(root, p) && m in TerminalLeaves(root, p)
    ensures m == p && !Before(root, m, p)
  {
  }

  /** Of two children of a container only the earlier one's units come first, and none when it is concurrent. */
  lemma ApartInside(root: Node, p: Path, m: Path, a: Path)
    requires IsNode(root, p) && IsNode(root, m) && |p| < |m| && |p| < |a| && m[..|p|] == p == a[..|p|]
    requires a[|p|] != m[|p|] && (At(root, p).kind.Parallel? || a[|p|] < m[|p|])
    ensures !Before(root, m, a)
  {
    SharedPrefix(m, a, |p|);
    if Before(root, m, a) {
      var k: nat :| SplitsAt(root, m, a, k);
      SharedPrefix(m, a, k);
    }
  }

  lemma {:induction false} TerminalsInOrder(root: Node, p: Path)
    requires WellShaped(root) && IsNode(root, p)
    ensures InRankOrder(root, TerminalLeaves(root, p))
    decreases At(root, p), |At(root, p).children| + 1
  {
    if !IsLeaf(root, p) {
      if At(root, p).kind.Parallel? {
        BranchTerminalsInOrder(root, p, |At(root, p).children|);
      } else {
        ChildIsNode(root, p, |At(root, p).children| - 1);
        TerminalsInOrder(root, p + [|At(root, p).children| - 1]);
      }
    }
  }

  lemma {:induction false} BranchTerminalsInOrder(root: Node, p: Path, k: nat)
    requires WellShaped(root) && IsNode(root, p) && k <= |At(root, p).children|
    ensures InRankOrder(root, TerminalsOfBranches(root, p, k))
    decreases At(root, p), k
  {
    if k > 0 {
      var last := k - 1;
      ChildIsNode(root, p, last);
      BranchTerminalsInOrder(root, p, last);
      TerminalsInOrder(root, p + [last]);
      NextBranchTerminals(root, p, last);
    }
  }

  lemma NextBranchTerminals(root: Node, p: Path, k: nat)
    requires WellShaped(root) && IsNode(root, p) && k < |At(root, p).children| && IsNode(root, p + [k])
    requires InRankOrder(root, TerminalsOfBranches(root, p, k)) && InRankOrder(root, TerminalLeaves(root, p + [k]))
    ensures InRankOrder(root, TerminalsOfBranches(root, p, k + 1))
  {
    BranchTerminalsBelow(root, p, k);
    ChildTerminalsFrom(root, p, k);
    RankOrderConcat(root, TerminalsOfBranches(root, p, k), TerminalLeaves(root, p + [k]), ChildBound(root, p, k));
  }

  lemma BranchTerminalsBelow(root: Node, p: Path, k: nat)
    requires WellShaped(root) && IsNode(root, p) && k <= |At(root, p).children|
    ensures RanksBelow(root, TerminalsOfBranches(root, p, k), ChildBound(root, p, k))
  {
    var qs := TerminalsOfBranches(root, p, k);
    forall j | 0 <= j < |qs| ensures IsNode(root, qs[j]) && Rank(root, qs[j]) < ChildBound(root, p, k) {
      BranchTerminalBelow(root, p, k, qs[j]);
    }
  }

  lemma BranchTerminalBelow(root: Node, p: Path, k: nat, m: Path)
    requires WellShaped(root) && IsNode(root, p) && k <= |At(root, p).children|
    requires m in TerminalsOfBranches(root, p, k)
    ensures IsNode(root, m) && Rank(root, m) < ChildBound(root, p, k)
  {
    var i := TerminalOfBranch(root, p, k, m);
    TerminalLeavesAre(root, p + [i], m);
    UnderChildRange(root, p, i, m);
    BoundsGrow(root, p, i + 1, k);
  }

  lemma ChildTerminalsFrom(root: Node, p: Path, i: nat)
    requires WellShaped(root) && IsNode(root, p) && i < |At(root, p).children| && IsNode(root, p + [i])
    ensures RanksFrom(root, TerminalLeaves(root, p + [i]), ChildBound(root, p, i))
  {
    var qs := TerminalLeaves(root, p + [i]);
    forall j | 0 <= j < |qs| ensures IsNode(root, qs[j]) && ChildBound(root, p, i) <= Rank(root, qs[j]) {
      TerminalLeavesAre(root, p + [i], qs[j]);
      UnderChildRange(root, p, i, qs[j]);
    }
  }

  /******* The forward steps of a stage *******/

  /** One child more. */
  lemma StepsOfNextChild(root: Node, p: Path, k: nat, m: Path)
    requires IsNode(root, p) && k < |At(root, p).children| && IsNode(root, p + [k])
    ensures m in StepsOfChildren(root, p, k + 1) <==>
      m in StepsOfChildren(root, p, k) || m in StepsWithin(root, p + [k])
  {
  }

  lemma {:induction false} StepsOfChildrenHas(root: Node, p: Path, k: nat, i: nat, m: Path)
    requires IsNode(root, p) && i < k <= |At(root, p).children|
    requires (KidIsNode(root, p, i); m in StepsWithin(root, p + [i]))
    ensures m in StepsOfChildren(root, p, k)
    decreases k
  {
    var last := k - 1;
    ChildIsNode(root, p, last);
    if i < last {
      StepsOfChildrenHas(root, p, last, i, m);
    }
    StepsOfNextChild(root, p, last, m);
  }

  /** No step of a subtree's forward part is lost. */
  lemma {:induction false} StepsWithinHas(root: Node, p: Path, m: Path)
    requires WellShaped(root) && IsNode(root, p) && !At(root, p).kind.Rollback?
    requires IsNode(root, m) && At(root, m).kind.Step? && Under(root, p, m)
    ensures m in StepsWithin(root, p)
    decreases At(root, p)
  {
    if m != p {
      var i := ForwardChildOf(root, p, m);
      StepsWithinHas(root, p + [i], m);
      StepsOfChildrenHas(root, p, |At(root, p).children|, i, m);
    }
  }

  /** The child of `p` whose forward part holds `m`. */
  lemma ForwardChildOf(root: Node, p: Path, m: Path) returns (i: nat)
    requires WellShaped(root) && IsNode(root, p) && IsNode(root, m) && Under(root, p, m) && m != p
    ensures i < |At(root, p).children| && IsNode(root, p + [i]) && Under(root, p + [i], m)
    ensures !At(root, p).kind.Step? && !At(root, p + [i]).kind.Rollback? && At(root, p + [i]) < At(root, p)
  {
    EnteredIsNoLeaf(root, p, m);
    UnderChild(root, p, m);
    i := m[|p|];
    ChildIsNode(root, p, i);
    assert LocalShape(At(root, p));
  }

  /** forwardLeaves: every step below the stage outside its rollback container, and nothing else. */
  lemma ForwardLeavesAre(root: Node, stage: Path, m: Path)
    requires WellShaped(root) && IsNode(root, stage) && At(root, stage).kind.Stage?
    ensures m in ForwardLeaves(root, stage) <==>
      IsNode(root, m) && At(root, m).kind.Step? && Under(root, stage, m)
  {
    if m in ForwardLeaves(root, stage) {
      StepsOfChildrenAre(root, stage, |At(root, stage).children|, m);
    } else if IsNode(root, m) && At(root, m).kind.Step? && Under(root, stage, m) {
      StepsWithinHas(root, stage, m);
    }
  }

  lemma {:induction false} StepsInOrder(root: Node, p: Path)
    requires WellShaped(root) && IsNode(root, p)
    ensures InRankOrder(root, StepsWithin(root, p))
    decreases At(root, p), |At(root, p).children| + 1
  {
    if !At(root, p).kind.Rollback? && !At(root, p).kind.Step? {
      StepsOfChildrenInOrder(root, p, |At(root, p).children|);
    }
  }

  lemma {:induction false} StepsOfChildrenInOrder(root: Node, p: Path, k: nat)
    requires WellShaped(root) && IsNode(root, p) && k <= |At(root, p).children|
    ensures InRankOrder(root, StepsOfChildren(root, p, k))
    decreases At(root, p), k
  {
    if k > 0 {
      var last := k - 1;
      ChildIsNode(root, p, last);
      StepsOfChildrenInOrder(root, p, last);
      StepsInOrder(root, p + [last]);
      NextChildSteps(root, p, last);
    }
  }

  lemma NextChildSteps(root: Node, p: Path, k: nat)
    requires WellShaped(root) && IsNode(root, p) && k < |At(root, p).children| && IsNode(root, p + [k])
    requires InRankOrder(root, StepsOfChildren(root, p, k)) && InRankOrder(root, StepsWithin(root, p + [k]))
    ensures InRankOrder(root, StepsOfChildren(root, p, k + 1))
  {
    StepsOfChildrenBelow(root, p, k);
    ChildStepsFrom(root, p, k);
    RankOrderConcat(root, StepsOfChildren(root, p, k), StepsWithin(root, p + [k]), ChildBound(root, p, k));
  }

  lemma {:induction false} StepOfChild(root: Node, p: Path, k: nat, m: Path) returns (i: nat)
    requires IsNode(root, p) && k <= |At(root, p).children| && m in StepsOfChildren(root, p, k)
    ensures i < k && IsNode(root, p + [i]) && m in StepsWithin(root, p + [i])
    decreases k
  {
    ChildIsNode(root, p, k - 1);
    if m in StepsWithin(root, p + [k - 1]) {
      i := k - 1;
    } else {
      i := StepOfChild(root, p, k - 1, m);
    }
  }

  lemma StepsOfChildrenBelow(root: Node, p: Path, k: nat)
    requires WellShaped(root) && IsNode(root, p) && k <= |At(root, p).children|
    ensures RanksBelow(root, StepsOfChildren(root, p, k), ChildBound(root, p, k))
  {
    var qs := StepsOfChildren(root, p, k);
    forall j | 0 <= j < |qs| ensures IsNode(root, qs[j]) && Rank(root, qs[j]) < ChildBound(root, p, k) {
      ChildStepBelow(root, p, k, qs[j]);
    }
  }

  lemma ChildStepBelow(root: Node, p: Path, k: nat, m: Path)
    requires WellShaped(root) && IsNode(root, p) && k <= |At(root, p).children| && m in StepsOfChildren(root, p, k)
    ensures IsNode(root, m) && Rank(root, m) < ChildBound(root, p, k)
  {
    var i := StepOfChild(root, p, k, m);
    StepsWithinAre(root, p + [i], m);
    UnderChildRange(root, p, i, m);
    BoundsGrow(root, p, i + 1, k);
  }

  lemma ChildStepsFrom(root: Node, p: Path, i: nat)
    requires WellShaped(root) && IsNode(root, p) && i < |At(root, p).children| && IsNode(root, p + [i])
    ensures RanksFrom(root, StepsWithin(root, p + [i]), ChildBound(root, p, i))
  {
    var qs := StepsWithin(root, p + [i]);
    forall j | 0 <= j < |qs| ensures IsNode(root, qs[j]) && ChildBound(root, p, i) <= Rank(root, qs[j]) {
      StepsWithinAre(root, p + [i], qs[j]);
      UnderChildRange(root, p, i, qs[j]);
    }
  }

  /******* Immediate predecessors *******/

  /** The forward part of the pipeline, or a rollback container. */
  predicate IsPart(root: Node, r: Path) {
    r == [] || (IsNode(root, r) && At(root, r).kind.Rollback?)
  }

  /** `m` comes before `n` in the part `r`, and no other leaf of it lies between. */
  ghost predicate Immediate(root: Node, r: Path, m: Path, n: Path) {
    && IsNode(root, m) && IsLeaf(root, m) && Under(root, r, m) && Before(root, m, n)
    && !exists a :: Between(root, r, m, a, n)
  }

  ghost predicate Between(root: Node, r: Path, m: Path, a: Path, n: Path)
    requires IsNode(root, m)
  {
    IsNode(root, a) && IsLeaf(root, a) && Under(root, r, a) && Before(root, m, a) && Before(root, a, n)
  }

  /**
    What a unit directly waits on.  An entry of a rollback container waits on every
    forward step of its stage; any other unit on its immediate predecessors in the
    same part.
  */
  ghost predicate DirectlyBefore(root: Node, n: Path, m: Path)
    requires IsNode(root, n)
  {
    if IsRollbackEntry(root, n) then
      exists k :: 0 <= k < |n| && RollbackEntryAt(root, n, k) && ForwardStepOf(root, n[..k], m)
    else
      exists r :: IsPart(root, r) && Under(root, r, n) && Immediate(root, r, m, n)
  }

  predicate ForwardStepOf(root: Node, stage: Path, m: Path) {
    IsNode(root, m) && At(root, m).kind.Step? && Under(root, stage, m)
  }

  /** Being immediately before the parent is being immediately before its entry. */
  lemma ImmediateStep(root: Node, r: Path, m: Path, n: Path)
    requires IsNode(root, n) && n != [] && (At(root, Up(n)).kind.Parallel? || Last(n) == 0)
    requires Immediate(root, r, m, Up(n))
    ensures Immediate(root, r, m, n)
  {
    BeforeExtends(root, m, n);
    forall a | Between(root, r, m, a, n) ensures Between(root, r, m, a, Up(n)) {
      var k: nat :| SplitsAt(root, a, n, k);
      StillBefore(root, n, a, k);
    }
  }

  /** A leaf after a terminal of the preceding sibling is not before the unit. */
  lemma NothingAfterSibling(root: Node, r: Path, n: Path, m: Path, a: Path)
    requires WellShaped(root) && IsNode(root, n) && n != [] && Last(n) > 0 && Under(root, r, n) && n != r
    requires m in TerminalLeaves(root, PrecedingSibling(root, n)) && IsNode(root, m)
    requires IsNode(root, a) && IsLeaf(root, a) && Under(root, r, a) && Before(root, m, a)
    ensures !Before(root, a, n)
  {
    var s := PrecedingSibling(root, n);
    SiblingHolds(root, n, m);
    UnderPrefix(root, r, n);
    SplitOutside(root, r, s, m, a);
    var i: nat :| SplitsAt(root, m, a, i);
    NotBeforeUnit(root, n, s, m, a, i);
  }

  lemma SiblingHolds(root: Node, n: Path, m: Path)
    requires WellShaped(root) && IsNode(root, n) && n != [] && Last(n) > 0
    requires m in TerminalLeaves(root, PrecedingSibling(root, n))
    ensures var s := PrecedingSibling(root, n); |s| == |n| && |s| <= |m| && m[..|s|] == s
  {
    TerminalLeavesAre(root, PrecedingSibling(root, n), m);
    UnderPrefix(root, PrecedingSibling(root, n), m);
  }

  /** A leaf that comes after a terminal of `s` parts with it above `s`. */
  lemma SplitOutside(root: Node, r: Path, s: Path, m: Path, a: Path)
    requires WellShaped(root) && IsNode(root, s) && |r| <= |s| <= |m| && m[..|s|] == s
    requires m in TerminalLeaves(root, s) && IsNode(root, m)
    requires IsNode(root, a) && IsLeaf(root, a) && Under(root, r, a) && Before(root, m, a)
    ensures forall i: nat :: SplitsAt(root, m, a, i) ==> i < |s|
  {
    forall i: nat | SplitsAt(root, m, a, i) ensures i < |s| {
      if i >= |s| {
        SharedPrefix(m, a, i);
        NotWithinSibling(root, r, s, m, a);
        assert false;
      }
    }
  }

  /** Nothing below the sibling comes after its terminals. */
  lemma NotWithinSibling(root: Node, r: Path, s: Path, m: Path, a: Path)
    requires WellShaped(root) && IsNode(root, s) && |r| <= |s| <= |a| && a[..|s|] == s
    requires m in TerminalLeaves(root, s) && IsNode(root, m)
    requires IsNode(root, a) && IsLeaf(root, a) && Under(root, r, a)
    ensures !Before(root, m, a)
  {
    UnderBetween(root, r, a, |s|);
    TerminalIsMaximal(root, s, m, a);
  }

  /** A unit that leaves the sibling's position upwards leaves the unit's own behind as well. */
  lemma NotBeforeUnit(root: Node, n: Path, s: Path, m: Path, a: Path, i: nat)
    requires n != [] && Last(n) > 0 && s != [] && Up(s) == Up(n) && Last(s) == Last(n) - 1
    requires IsNode(root, m) && |s| <= |m| && m[..|s|] == s && IsNode(root, a)
    requires SplitsAt(root, m, a, i) && i < |s|
    ensures !Before(root, a, n)
  {
    assert m[i] == s[i] && m[..i] == s[..i];
    assert i < |n| - 1 ==> s[i] == Up(s)[i] && n[i] == Up(n)[i];
    assert s[..i] == Up(s)[..i] && n[..i] == Up(n)[..i];
    assert a[..i] == n[..i] && a[i] >= n[i];
    forall j: nat | SplitsAt(root, a, n, j) ensures false {
      SharedPrefix(a, n, i);
      SharedPrefix(a, n, j);
    }
  }

  lemma SiblingTerminalIsImmediate(root: Node, r: Path, n: Path, m: Path)
    requires WellShaped(root) && IsNode(root, n) && n != [] && Last(n) > 0 && Under(root, r, n) && n != r
    requires !At(root, Up(n)).kind.Parallel? && m in TerminalLeaves(root, PrecedingSibling(root, n))
    ensures Immediate(root, r, m, n)
  {
    var s := PrecedingSibling(root, n);
    SiblingTerminalIsBefore(root, n, m);
    TerminalLeavesAre(root, s, m);
    assert LocalShape(At(root, Up(n)));
    assert Under(root, Up(n), s);
    UnderTransitive(root, r, Up(n), s);
    UnderTransitive(root, r, s, m);
    forall a | Between(root, r, m, a, n) ensures false {
      NothingAfterSibling(root, r, n, m, a);
    }
  }

  /** What climbing finds in a part is immediately before the unit. */
  lemma {:induction false} ClimbIsImmediate(root: Node, r: Path, n: Path, m: Path)
    requires WellShaped(root) && IsPart(root, r) && IsNode(root, n) && Under(root, r, n) && !AtRollbackEntry(root, n)
    requires m in Climb(root, n)
    ensures Immediate(root, r, m, n)
    decreases |n|
  {
    if At(root, Up(n)).kind.Parallel? || Last(n) == 0 {
      ClimbIsImmediate(root, r, Up(n), m);
      ImmediateStep(root, r, m, n);
    } else {
      SiblingTerminalIsImmediate(root, r, n, m);
    }
  }

  lemma ImmediateIsClimbed(root: Node, r: Path, n: Path, m: Path)
    requires WellShaped(root) && IsPart(root, r) && IsNode(root, n) && Under(root, r, n) && !AtRollbackEntry(root, n)
    requires Immediate(root, r, m, n)
    ensures m in Climb(root, n)
  {
    var c := ClimbCovers(root, r, n, m);
    if c != m {
      ClimbIsImmediate(root, r, n, c);
      assert Between(root, r, m, c, n);
    }
  }

  /** The part a unit belongs to. */
  lemma {:induction false} PartOf(root: Node, n: Path) returns (r: Path)
    requires IsNode(root, n)
    ensures IsPart(root, r) && Under(root, r, n)
    decreases |n|
  {
    if n == [] || At(root, n).kind.Rollback? {
      r := n;
    } else {
      r := PartOf(root, Up(n));
      UnderPrefix(root, r, Up(n));
    }
  }

  /** An entry climbs to what its rollback container climbs to. */
  lemma {:induction false} EntryClimbsOut(root: Node, n: Path, k: nat)
    requires IsNode(root, n) && RollbackEntryAt(root, n, k)
    ensures IsNode(root, n[..k]) && Climb(root, n) == ForwardLeaves(root, n[..k])
    decreases |n|
  {
    PrefixIsNode(root, n, k);
    if At(root, n).kind.Rollback? {
      RollbackEntersItself(root, n, k);
    } else {
      RollbackEntryStep(root, n, k);
      EntersLast(root, n);
      EntryClimbsOut(root, Up(n), k);
      assert Up(n)[..k] == n[..k];
    }
  }

  lemma RollbackStage(root: Node, n: Path, k: nat)
    requires WellShaped(root) && IsNode(root, n) && RollbackEntryAt(root, n, k)
    ensures IsNode(root, n[..k]) && At(root, n[..k]).kind.Stage?
  {
    StepIsNode(root, n, k);
    assert LocalShape(At(root, n[..k]));
  }

  /**
    One climb, exactly: each unit that the given one directly waits on, once, in
    document order.  A rollback entry loses no forward step of its stage.
  */
  lemma ClimbIs(root: Node, n: Path)
    requires WellShaped(root) && IsNode(root, n)
    ensures forall m :: m in Climb(root, n) <==> DirectlyBefore(root, n, m)
    ensures InRankOrder(root, Climb(root, n))
  {
    AtRollbackEntryIs(root, n);
    if IsRollbackEntry(root, n) {
      EntryClimb(root, n);
    } else {
      PartClimb(root, n);
    }
    ClimbInOrder(root, n);
  }

  lemma EntryClimb(root: Node, n: Path)
    requires WellShaped(root) && IsNode(root, n) && IsRollbackEntry(root, n)
    ensures forall m :: m in Climb(root, n) <==> DirectlyBefore(root, n, m)
  {
    var k :| 0 <= k < |n| && RollbackEntryAt(root, n, k);
    EntryClimbsOut(root, n, k);
    RollbackStage(root, n, k);
    forall m ensures m in Climb(root, n) <==> DirectlyBefore(root, n, m) {
      ForwardLeavesAre(root, n[..k], m);
      forall j | 0 <= j < |n| && RollbackEntryAt(root, n, j) ensures j == k {
        OneRollbackEntry(root, n, j, k);
      }
    }
  }

  lemma PartClimb(root: Node, n: Path)
    requires WellShaped(root) && IsNode(root, n) && !IsRollbackEntry(root, n) && !AtRollbackEntry(root, n)
    ensures forall m :: m in Climb(root, n) <==> DirectlyBefore(root, n, m)
  {
    var r := PartOf(root, n);
    forall m ensures m in Climb(root, n) <==> DirectlyBefore(root, n, m) {
      if m in Climb(root, n) {
        ClimbIsImmediate(root, r, n, m);
      }
      if DirectlyBefore(root, n, m) {
        var q :| IsPart(root, q) && Under(root, q, n) && Immediate(root, q, m, n);
        ImmediateIsClimbed(root, q, n, m);
      }
    }
  }

  lemma {:induction false} ClimbInOrder(root: Node, n: Path)
    requires WellShaped(root) && IsNode(root, n)
    ensures InRankOrder(root, Climb(root, n))
    decreases |n|
  {
    if n != [] {
      if At(root, n).kind.Rollback? {
        StepsOfChildrenInOrder(root, Up(n), |At(root, Up(n)).children|);
      } else if At(root, Up(n)).kind.Parallel? || Last(n) == 0 {
        ClimbInOrder(root, Up(n));
      } else {
        TerminalsInOrder(root, PrecedingSibling(root, n));
      }
    }
  }

  /******* What a rollback step waits on *******/

  lemma {:induction false} PartIsReached(root: Node, r: Path, n: Path, a: Path)
    requires WellShaped(root) && IsPart(root, r) && IsNode(root, n) && Under(root, r, n)
    requires IsNode(root, a) && IsLeaf(root, a) && Under(root, r, a) && Before(root, a, n)
    ensures Reaches(root, n, a)
    decreases Rank(root, n)
  {
    ClimbDescends(root, n);
    var m := ClimbCovers(root, r, n, a);
    if m != a {
      NoEntryAfter(root, r, n, a);
      ClimbIsImmediate(root, r, n, m);
      PartIsReached(root, r, m, a);
    }
  }

  /** A unit with something before it in its part is no entry of it. */
  lemma {:induction false} NoEntryAfter(root: Node, r: Path, n: Path, a: Path)
    requires WellShaped(root) && IsPart(root, r) && IsNode(root, n) && Under(root, r, n)
    requires IsNode(root, a) && Under(root, r, a) && Before(root, a, n)
    ensures !AtRollbackEntry(root, n)
    decreases |n|
  {
    var k: nat :| SplitsAt(root, a, n, k);
    SplitsBelow(root, r, n, a, k);
    if At(root, Up(n)).kind.Parallel? || Last(n) == 0 {
      StillBefore(root, n, a, k);
      NoEntryAfter(root, r, Up(n), a);
    }
  }

  /** A unit that is no entry has a predecessor in its own part. */
  lemma {:induction false} SomePredecessor(root: Node, r: Path, n: Path) returns (m: Path)
    requires WellShaped(root) && IsNode(root, r) && At(root, r).kind.Rollback?
    requires IsNode(root, n) && Under(root, r, n) && !AtRollbackEntry(root, n)
    ensures m in Climb(root, n)
    decreases |n|
  {
    if At(root, Up(n)).kind.Parallel? || Last(n) == 0 {
      m := SomePredecessor(root, r, Up(n));
    } else {
      m := SomeTerminal(root, PrecedingSibling(root, n));
    }
  }

  lemma EntryStage(root: Node, r: Path, n: Path)
    requires WellShaped(root) && IsNode(root, r) && At(root, r).kind.Rollback?
    requires IsNode(root, n) && Under(root, r, n) && AtRollbackEntry(root, n)
    ensures r != [] && IsNode(root, Up(r)) && At(root, Up(r)).kind.Stage?
    ensures Climb(root, n) == ForwardLeaves(root, Up(r))
    decreases |n|
  {
    RollbackIsLast(root, r);
    if n != r {
      EntryStage(root, r, Up(n));
    }
  }

  /** Whatever the stage's forward steps are, or wait on, the rollback unit waits on. */
  lemma {:induction false} ReachesStage(root: Node, r: Path, n: Path, m: Path)
    requires WellShaped(root) && IsNode(root, r) && At(root, r).kind.Rollback?
    requires IsNode(root, n) && Under(root, r, n) && r != [] && ForwardStepOf(root, Up(r), m)
    ensures Reaches(root, n, m)
    decreases Rank(root, n)
  {
    ClimbDescends(root, n);
    if AtRollbackEntry(root, n) {
      EntryStage(root, r, n);
      ForwardLeavesAre(root, Up(r), m);
    } else {
      var c := SomePredecessor(root, r, n);
      ClimbIsImmediate(root, r, n, c);
      ReachesStage(root, r, c, m);
    }
  }

  lemma {:induction false} ReachesFurther(root: Node, n: Path, m: Path, a: Path)
    requires WellShaped(root) && IsNode(root, n) && IsNode(root, m) && Reaches(root, n, m) && Reaches(root, m, a)
    ensures Reaches(root, n, a)
    decreases Rank(root, n)
  {
    ClimbDescends(root, n);
    var c :| c in Climb(root, n) && (c == m || Reaches(root, c, m));
    if c != m {
      ReachesFurther(root, c, m, a);
    }
  }

  /** `a` is a forward step of the stage, or one of them waits on it. */
  ghost predicate StageWaitsOn(root: Node, stage: Path, a: Path)
    requires WellShaped(root)
  {
    exists m :: ForwardStepOf(root, stage, m) && (m == a || Reaches(root, m, a))
  }

  lemma {:induction false} RollbackReachIs(root: Node, r: Path, n: Path, a: Path)
    requires WellShaped(root) && IsNode(root, r) && At(root, r).kind.Rollback?
    requires IsNode(root, n) && Under(root, r, n) && r != [] && Reaches(root, n, a)
    ensures IsNode(root, a) && IsLeaf(root, a)
    ensures (Under(root, r, a) && Before(root, a, n)) || StageWaitsOn(root, Up(r), a)
    decreases Rank(root, n)
  {
    ReachesIsBefore(root, n, a);
    var m := FirstReached(root, n, a);
    if AtRollbackEntry(root, n) {
      EntryStage(root, r, n);
      ForwardLeavesAre(root, Up(r), m);
      assert ForwardStepOf(root, Up(r), m);
    } else {
      ClimbIsImmediate(root, r, n, m);
      if m != a {
        RollbackReachIs(root, r, m, a);
      }
    }
  }

  lemma FirstReached(root: Node, n: Path, a: Path) returns (m: Path)
    requires WellShaped(root) && IsNode(root, n) && Reaches(root, n, a)
    ensures m in Climb(root, n) && IsNode(root, m) && Rank(root, m) < Rank(root, n)
    ensures m == a || Reaches(root, m, a)
  {
    ClimbDescends(root, n);
    m :| m in Climb(root, n) && (m == a || Reaches(root, m, a));
  }

  /**
    Climbing from a rollback unit computes the positional order inside its
    container, then goes on from every forward step of the stage: it reaches
    exactly the leaves before it in the container, the stage's forward steps, and
    whatever those wait on.
  */
  lemma ClimbFromRollback(root: Node, r: Path, n: Path, a: Path)
    requires WellShaped(root) && IsNode(root, r) && At(root, r).kind.Rollback?
    requires IsNode(root, n) && Under(root, r, n)
    ensures r != []
    ensures Reaches(root, n, a) <==>
      (IsNode(root, a) && IsLeaf(root, a) && Under(root, r, a) && Before(root, a, n)) || StageWaitsOn(root, Up(r), a)
  {
    RollbackIsLast(root, r);
    if Reaches(root, n, a) {
      RollbackReachIs(root, r, n, a);
    }
    if IsNode(root, a) && IsLeaf(root, a) && Under(root, r, a) && Before(root, a, n) {
      PartIsReached(root, r, n, a);
    }
    if StageWaitsOn(root, Up(r), a) {
      var m :| ForwardStepOf(root, Up(r), m) && (m == a || Reaches(root, m, a));
      ReachesStage(root, r, n, m);
      if m != a {
        ReachesFurther(root, n, m, a);
      }
    }
  }
}
