/**
  The ordering graph of a resolved pipeline and the backward walk over it
  (verifier/pipeline/graph.go).

  A graph node is identified by its position: the sequence of kid indices that
  leads to it from the pipeline root.  Its parent link is the position without
  its last index, and that last index is its `index` field.  A stage's
  rollbackSteps container is the kid numbered after the forward children, so the
  lexicographic order of positions is document order.
*/
module Graph {
  import opened Common
  import opened Strategy

  datatype WhenLevel = LevelUnset | LevelStage | LevelStepGroup | LevelStep

  /** A `when` guard.  `status` is the YAML text: "" when there is no status gate. */
  datatype When = When(level: WhenLevel, ownerFqn: string, status: string, expression: string, runtimeInput: bool)

  datatype Kind = Pipeline | Stage | StepGroup | Step | Parallel | Rollback

  /** One unit of the graph.  `strat` is present exactly when the unit declares a strategy. */
  datatype Node = Node(
    kind: Kind,
    id: string,
    fqn: string,
    stepType: string,
    when: Option<When>,
    strat: Option<StrategySpec>,
    children: seq<Node>,
    rollback: Option<Node>,
    pipelineRollback: bool)

  type Path = seq<nat>

  /******* Positions *******/

  function Arity(n: Node): nat {
    |n.children| + if n.rollback.Some? then 1 else 0
  }

  function Kid(n: Node, i: nat): Node
    requires i < Arity(n)
  {
    if i < |n.children| then n.children[i] else n.rollback.value
  }

  function Up(p: Path): Path
    requires p != []
  {
    p[..|p| - 1]
  }

  function Last(p: Path): nat
    requires p != []
  {
    p[|p| - 1]
  }

  predicate IsNode(root: Node, p: Path)
    decreases |p|, 0
  {
    p == [] || (IsNode(root, Up(p)) && Last(p) < Arity(At(root, Up(p))))
  }

  function At(root: Node, p: Path): Node
    requires IsNode(root, p)
    decreases |p|, 1
  {
    if p == [] then root else Kid(At(root, Up(p)), Last(p))
  }

  /** Every prefix of a position is a position. */
  lemma {:induction false} PrefixIsNode(root: Node, p: Path, k: nat)
    requires IsNode(root, p) && k <= |p|
    ensures IsNode(root, p[..k])
    decreases |p|
  {
    if k == |p| {
      assert p[..k] == p;
    } else {
      PrefixIsNode(root, Up(p), k);
      assert Up(p)[..k] == p[..k];
    }
  }

  /** A position one below `p`. */
  lemma KidIsNode(root: Node, p: Path, i: nat)
    requires IsNode(root, p) && i < Arity(At(root, p))
    ensures IsNode(root, p + [i]) && At(root, p + [i]) == Kid(At(root, p), i)
    ensures Up(p + [i]) == p && Last(p + [i]) == i
  {
    assert Up(p + [i]) == p;
  }

  /** The same for a forward child, which is smaller than its parent. */
  lemma ChildIsNode(root: Node, p: Path, i: nat)
    requires IsNode(root, p) && i < |At(root, p).children|
    ensures IsNode(root, p + [i]) && At(root, p + [i]) == At(root, p).children[i]
    ensures At(root, p + [i]) < At(root, p)
  {
    KidIsNode(root, p, i);
  }

  /** The step into `p` at depth `k` is a legal one. */
  lemma StepIsNode(root: Node, p: Path, k: nat)
    requires IsNode(root, p) && k < |p|
    ensures IsNode(root, p[..k]) && p[k] < Arity(At(root, p[..k]))
    ensures IsNode(root, p[..k + 1]) && p[..k + 1] == p[..k] + [p[k]]
    ensures At(root, p[..k + 1]) == Kid(At(root, p[..k]), p[k])
  {
    PrefixIsNode(root, p, k);
    PrefixIsNode(root, p, k + 1);
    var q := p[..k + 1];
    assert Up(q) == p[..k];
  }

  /******* Shape *******/

  /** What one node may look like, whatever surrounds it. */
  predicate LocalShape(n: Node) {
    && (n.kind.Step? ==> n.children == [])
    && (n.rollback.Some? ==> n.kind.Stage? && n.rollback.value.kind.Rollback?)
    && (forall i :: 0 <= i < |n.children| ==> !n.children[i].kind.Rollback? && !n.children[i].kind.Pipeline?)
    && (n.strat.Some? || n.when.Some? ==> n.kind.Stage? || n.kind.StepGroup? || n.kind.Step?)
  }

  /** The shape BuildGraph gives every graph. */
  ghost predicate WellShaped(root: Node) {
    && root.kind.Pipeline?
    && forall p {:trigger LocalShape(At(root, p))} :: IsNode(root, p) ==> LocalShape(At(root, p))
  }

  /** A unit with nothing below it in forward order. */
  predicate IsLeaf(root: Node, p: Path)
    requires IsNode(root, p)
  {
    At(root, p).kind.Step? || At(root, p).children == []
  }

  /** `q` lies in `p`'s subtree without passing through a rollback container below `p`. */
  predicate Under(root: Node, p: Path, q: Path)
    requires IsNode(root, q)
    decreases |q|
  {
    q == p || (|p| < |q| && !At(root, q).kind.Rollback? && Under(root, p, Up(q)))
  }

  /** A forward unit: no rollback container encloses it. */
  predicate Forward(root: Node, p: Path)
    requires IsNode(root, p)
  {
    Under(root, [], p)
  }

  /** Positional order: at the lowest common container, which is ordered, `a`'s branch comes first. */
  predicate SplitsAt(root: Node, a: Path, b: Path, k: nat)
    requires IsNode(root, a)
  {
    && k < |a| && k < |b|
    && a[..k] == b[..k]
    && a[k] < b[k]
    && (PrefixIsNode(root, a, k); !At(root, a[..k]).kind.Parallel?)
  }

  ghost predicate Before(root: Node, a: Path, b: Path)
    requires IsNode(root, a)
  {
    exists k: nat :: SplitsAt(root, a, b, k)
  }

  /******* Lowest common ancestor *******/

  /** Depth of the lowest common ancestor: the length of the longest common prefix. */
  function LcaDepth(a: Path, b: Path): (d: nat)
    ensures d <= |a| && d <= |b| && a[..d] == b[..d]
    ensures d < |a| && d < |b| ==> a[d] != b[d]
  {
    if a == [] || b == [] || a[0] != b[0] then 0
    else
      var d := LcaDepth(a[1..], b[1..]);
      assert a[..d + 1] == [a[0]] + a[1..][..d];
      assert b[..d + 1] == [b[0]] + b[1..][..d];
      d + 1
  }

  lemma SharedPrefix(a: Path, b: Path, k: nat)
    requires k <= |a| && k <= |b| && a[..k] == b[..k]
    ensures forall i :: 0 <= i < k ==> a[i] == b[i]
    ensures forall i :: 0 <= i <= k ==> a[..i] == b[..i]
  {
    forall i | 0 <= i < k
      ensures a[i] == b[i]
    {
      assert a[i] == a[..k][i] && b[i] == b[..k][i];
    }
  }

  lemma SplitIsLca(root: Node, a: Path, b: Path, k: nat)
    requires IsNode(root, a) && SplitsAt(root, a, b, k)
    ensures LcaDepth(a, b) == k
  {
    SharedPrefix(a, b, k);
    SharedPrefix(a, b, LcaDepth(a, b));
  }

  /** `a` and `c` share everything down to the shallower of the two other common ancestors. */
  lemma LcaOfThree(a: Path, b: Path, c: Path, i: nat)
    requires i <= LcaDepth(a, b) && i <= LcaDepth(b, c)
    ensures i <= LcaDepth(a, c)
  {
    SharedPrefix(a, b, LcaDepth(a, b));
    SharedPrefix(b, c, LcaDepth(b, c));
    assert forall j :: 0 <= j < i ==> a[j] == b[j] == c[j];
  }

  /** The positional order is transitive. */
  lemma BeforeTransitive(root: Node, a: Path, b: Path, c: Path)
    requires IsNode(root, a) && IsNode(root, b)
    requires Before(root, a, b) && Before(root, b, c)
    ensures Before(root, a, c)
  {
    var i: nat :| SplitsAt(root, a, b, i);
    var j: nat :| SplitsAt(root, b, c, j);
    SharedPrefix(a, b, i);
    SharedPrefix(b, c, j);
    var k := if i < j then i else j;
    assert a[..k] == b[..k] == c[..k];
    assert SplitsAt(root, a, c, k);
  }

  /******* Subtrees *******/

  /** `q` under `p`, entered at child `q[|p|]`. */
  lemma {:induction false} UnderChild(root: Node, p: Path, q: Path)
    requires WellShaped(root) && IsNode(root, p) && IsNode(root, q) && Under(root, p, q) && q != p
    ensures |p| < |q| && q[..|p|] == p
    ensures q[|p|] < |At(root, p).children|
    ensures IsNode(root, p + [q[|p|]]) && Under(root, p + [q[|p|]], q)
    decreases |q|
  {
    if |q| == |p| + 1 {
      assert Up(q) == p && q == p + [q[|p|]];
      assert LocalShape(At(root, p));
    } else {
      UnderChild(root, p, Up(q));
      assert Up(q)[|p|] == q[|p|] && Up(q)[..|p|] == q[..|p|];
    }
  }

  lemma {:induction false} UnderTransitive(root: Node, p: Path, q: Path, r: Path)
    requires IsNode(root, q) && IsNode(root, r)
    requires Under(root, p, q) && Under(root, q, r)
    ensures Under(root, p, r)
    ensures |p| <= |q| <= |r|
    decreases |r|
  {
    if r != q {
      UnderTransitive(root, p, q, Up(r));
    } else if q != p {
      UnderTransitive(root, p, Up(q), Up(q));
    }
  }

  lemma {:induction false} UnderPrefix(root: Node, p: Path, q: Path)
    requires IsNode(root, q) && Under(root, p, q)
    ensures |p| <= |q| && q[..|p|] == p
    decreases |q|
  {
    if q != p {
      UnderPrefix(root, p, Up(q));
      assert Up(q)[..|p|] == q[..|p|];
    }
  }

  /** A unit under `r` lies under each container between the two, which is under `r` too. */
  lemma {:induction false} UnderBetween(root: Node, r: Path, q: Path, k: nat)
    requires IsNode(root, q) && Under(root, r, q) && |r| <= k <= |q|
    ensures IsNode(root, q[..k]) && Under(root, r, q[..k]) && Under(root, q[..k], q)
    decreases |q|
  {
    if k == |q| {
      assert q[..k] == q;
    } else {
      UnderBetween(root, r, Up(q), k);
      assert Up(q)[..k] == q[..k];
    }
  }

  /******* Terminal and forward leaves *******/

  /** The leaves a following unit waits on. */
  function TerminalLeaves(root: Node, p: Path): seq<Path>
    requires IsNode(root, p)
    decreases At(root, p), |At(root, p).children| + 1
  {
    var n := At(root, p);
    if n.kind.Step? || n.children == [] then [p]
    else if n.kind.Parallel? then TerminalsOfBranches(root, p, |n.children|)
    else
      ChildIsNode(root, p, |n.children| - 1);
      TerminalLeaves(root, p + [|n.children| - 1])
  }

  /** The terminal leaves of the first `k` children, branch by branch. */
  function TerminalsOfBranches(root: Node, p: Path, k: nat): seq<Path>
    requires IsNode(root, p) && k <= |At(root, p).children|
    decreases At(root, p), k
  {
    if k == 0 then []
    else
      var front := TerminalsOfBranches(root, p, k - 1);
      ChildIsNode(root, p, k - 1);
      front + TerminalLeaves(root, p + [k - 1])
  }

  /** The steps of `p`'s forward subtree in document order. */
  function StepsWithin(root: Node, p: Path): seq<Path>
    requires IsNode(root, p)
    decreases At(root, p), |At(root, p).children| + 1
  {
    if At(root, p).kind.Rollback? then []
    else if At(root, p).kind.Step? then [p]
    else StepsOfChildren(root, p, |At(root, p).children|)
  }

  function StepsOfChildren(root: Node, p: Path, k: nat): seq<Path>
    requires IsNode(root, p) && k <= |At(root, p).children|
    decreases At(root, p), k
  {
    if k == 0 then []
    else
      var front := StepsOfChildren(root, p, k - 1);
      ChildIsNode(root, p, k - 1);
      front + StepsWithin(root, p + [k - 1])
  }

  /** Every forward step of a stage: what its rollback entry is gated on. */
  function ForwardLeaves(root: Node, stage: Path): seq<Path>
    requires IsNode(root, stage)
  {
    StepsOfChildren(root, stage, |At(root, stage).children|)
  }

  lemma {:induction false} TerminalsOfBranchesAre(root: Node, p: Path, k: nat, m: Path)
    requires WellShaped(root) && IsNode(root, p) && k <= |At(root, p).children|
    requires m in TerminalsOfBranches(root, p, k)
    ensures IsNode(root, m) && IsLeaf(root, m) && Under(root, p, m)
    decreases At(root, p), k
  {
    assert LocalShape(At(root, p));
    KidIsNode(root, p, k - 1);
    if m in TerminalLeaves(root, p + [k - 1]) {
      TerminalLeavesAre(root, p + [k - 1], m);
      assert Under(root, p, p + [k - 1]);
      UnderTransitive(root, p, p + [k - 1], m);
    } else {
      TerminalsOfBranchesAre(root, p, k - 1, m);
    }
  }

  /** Terminal leaves are leaves of the subtree's forward part. */
  lemma {:induction false} TerminalLeavesAre(root: Node, p: Path, m: Path)
    requires WellShaped(root) && IsNode(root, p) && m in TerminalLeaves(root, p)
    ensures IsNode(root, m) && IsLeaf(root, m) && Under(root, p, m)
    decreases At(root, p), |At(root, p).children| + 1
  {
    var n := At(root, p);
    assert LocalShape(n);
    if n.kind.Step? || n.children == [] {
    } else if n.kind.Parallel? {
      TerminalsOfBranchesAre(root, p, |n.children|, m);
    } else {
      var last := |n.children| - 1;
      KidIsNode(root, p, last);
      TerminalLeavesAre(root, p + [last], m);
      assert Under(root, p, p + [last]);
      UnderTransitive(root, p, p + [last], m);
    }
  }

  lemma {:induction false} TerminalsOfBranchesHas(root: Node, p: Path, k: nat, i: nat, m: Path)
    requires IsNode(root, p) && i < k <= |At(root, p).children|
    requires (KidIsNode(root, p, i); m in TerminalLeaves(root, p + [i]))
    ensures m in TerminalsOfBranches(root, p, k)
    decreases k
  {
    KidIsNode(root, p, k - 1);
    if i < k - 1 {
      TerminalsOfBranchesHas(root, p, k - 1, i, m);
    }
  }

  lemma {:induction false} SomeTerminal(root: Node, p: Path) returns (m: Path)
    requires IsNode(root, p)
    ensures m in TerminalLeaves(root, p)
    decreases At(root, p)
  {
    var n := At(root, p);
    if n.kind.Step? || n.children == [] {
      m := p;
    } else {
      var last := |n.children| - 1;
      KidIsNode(root, p, last);
      m := SomeTerminal(root, p + [last]);
      if n.kind.Parallel? {
        TerminalsOfBranchesHas(root, p, |n.children|, last, m);
      }
    }
  }

  /** The terminals of a concurrent branch, or of the last unit, are terminals of the container. */
  lemma TerminalOfChild(root: Node, p: Path, i: nat, m: Path)
    requires IsNode(root, p) && !IsLeaf(root, p) && i < |At(root, p).children|
    requires At(root, p).kind.Parallel? || i == |At(root, p).children| - 1
    requires (KidIsNode(root, p, i); m in TerminalLeaves(root, p + [i]))
    ensures m in TerminalLeaves(root, p)
  {
    if At(root, p).kind.Parallel? {
      TerminalsOfBranchesHas(root, p, |At(root, p).children|, i, m);
    }
  }

  /** A unit under `p` and one in a later branch of it, `p` being ordered. */
  lemma EarlierBranch(root: Node, p: Path, i: nat, a: Path, m: Path)
    requires IsNode(root, p) && IsNode(root, a) && IsNode(root, m) && !At(root, p).kind.Parallel?
    requires |p| < |a| && a[..|p|] == p && a[|p|] < i
    requires Under(root, p + [i], m)
    ensures Before(root, a, m)
  {
    UnderPrefix(root, p + [i], m);
    assert m[|p|] == (p + [i])[|p|] == i;
    assert m[..|p|] == m[..|p| + 1][..|p|] == p;
    assert SplitsAt(root, a, m, |p|);
  }

  /** Some terminal of an ordered container's last unit; everything in earlier units is before it. */
  lemma LastUnitTerminal(root: Node, p: Path, a: Path) returns (m: Path)
    requires WellShaped(root) && IsNode(root, p) && IsNode(root, a)
    requires !IsLeaf(root, p) && !At(root, p).kind.Parallel?
    requires |p| < |a| && a[..|p|] == p && a[|p|] < |At(root, p).children| - 1
    ensures m in TerminalLeaves(root, p) && Before(root, a, m)
  {
    var last := |At(root, p).children| - 1;
    KidIsNode(root, p, last);
    m := SomeTerminal(root, p + [last]);
    TerminalOfChild(root, p, last, m);
    TerminalLeavesAre(root, p + [last], m);
    EarlierBranch(root, p, last, a, m);
  }

  lemma LeafIsTerminal(root: Node, p: Path)
    requires IsNode(root, p) && IsLeaf(root, p)
    ensures p in TerminalLeaves(root, p)
  {
  }

  lemma {:induction false} UnderEnters(root: Node, p: Path, q: Path)
    requires WellShaped(root) && IsNode(root, p) && IsNode(root, q) && Under(root, p, q) && q != p
    ensures |p| < |q| && q[..|p|] == p && q[|p|] < |At(root, p).children|
    decreases |q|
  {
    UnderChild(root, p, q);
  }

  lemma EnteredIsNoLeaf(root: Node, p: Path, a: Path)
    requires WellShaped(root) && IsNode(root, p) && IsNode(root, a) && Under(root, p, a) && a != p
    ensures !IsLeaf(root, p) && |p| < |a| && a[..|p|] == p && a[|p|] < |At(root, p).children|
  {
    UnderEnters(root, p, a);
    ParentIsNoLeaf(root, p);
  }

  lemma ParentIsNoLeaf(root: Node, p: Path)
    requires WellShaped(root) && IsNode(root, p) && At(root, p).children != []
    ensures !IsLeaf(root, p)
  {
    assert LocalShape(At(root, p));
  }

  /** Each leaf of a subtree is one of its terminal leaves or positionally before one. */
  lemma {:induction false} TerminalsCover(root: Node, p: Path, a: Path) returns (m: Path)
    requires WellShaped(root) && IsNode(root, p) && IsNode(root, a)
    requires IsLeaf(root, a) && Under(root, p, a)
    ensures m in TerminalLeaves(root, p) && (m == a || Before(root, a, m))
    decreases At(root, p), 1
  {
    if a == p {
      LeafIsTerminal(root, p);
      m := p;
    } else {
      EnteredIsNoLeaf(root, p, a);
      if !At(root, p).kind.Parallel? && a[|p|] < |At(root, p).children| - 1 {
        m := LastUnitTerminal(root, p, a);
      } else {
        m := TerminalsCoverBelow(root, p, a);
      }
    }
  }

  lemma {:induction false} TerminalsCoverBelow(root: Node, p: Path, a: Path) returns (m: Path)
    requires WellShaped(root) && IsNode(root, p) && IsNode(root, a)
    requires IsLeaf(root, a) && Under(root, p, a) && a != p && !IsLeaf(root, p)
    requires |p| < |a| && (At(root, p).kind.Parallel? || a[|p|] >= |At(root, p).children| - 1)
    ensures m in TerminalLeaves(root, p) && (m == a || Before(root, a, m))
    decreases At(root, p), 0
  {
    UnderChild(root, p, a);
    KidIsNode(root, p, a[|p|]);
    m := TerminalsCover(root, p + [a[|p|]], a);
    TerminalOfChild(root, p, a[|p|], m);
  }

  lemma {:induction false} StepsOfChildrenAre(root: Node, p: Path, k: nat, m: Path)
    requires WellShaped(root) && IsNode(root, p) && k <= |At(root, p).children|
    requires m in StepsOfChildren(root, p, k)
    ensures IsNode(root, m) && At(root, m).kind.Step? && Under(root, p, m) && m != p
    decreases At(root, p), k
  {
    var last := k - 1;
    ChildIsNode(root, p, last);
    if m in StepsWithin(root, p + [last]) {
      StepsWithinAre(root, p + [last], m);
      UnderForwardChild(root, p, last, m);
    } else {
      StepsOfChildrenAre(root, p, last, m);
    }
  }

  /** What lies under a forward child lies under its parent. */
  lemma UnderForwardChild(root: Node, p: Path, i: nat, m: Path)
    requires WellShaped(root) && IsNode(root, p) && i < |At(root, p).children| && IsNode(root, p + [i])
    requires IsNode(root, m) && Under(root, p + [i], m)
    ensures Under(root, p, m) && m != p
  {
    KidIsNode(root, p, i);
    assert LocalShape(At(root, p));
    assert Under(root, p, p + [i]);
    UnderTransitive(root, p, p + [i], m);
  }

  lemma {:induction false} StepsWithinAre(root: Node, p: Path, m: Path)
    requires WellShaped(root) && IsNode(root, p) && m in StepsWithin(root, p)
    ensures IsNode(root, m) && At(root, m).kind.Step? && Under(root, p, m)
    decreases At(root, p), |At(root, p).children| + 1
  {
    if !At(root, p).kind.Step? {
      StepsOfChildrenAre(root, p, |At(root, p).children|, m);
    }
  }

  /******* The climb *******/

  /** The direct predecessors of a unit: one backward step of the ordering. */
  function Climb(root: Node, p: Path): seq<Path>
    requires IsNode(root, p)
    decreases |p|
  {
    if p == [] then []
    else if At(root, p).kind.Rollback? then ForwardLeaves(root, Up(p))
    else if At(root, Up(p)).kind.Parallel? then Climb(root, Up(p))
    else if Last(p) > 0 then
      TerminalLeaves(root, PrecedingSibling(root, p))
    else Climb(root, Up(p))
  }

  function PrecedingSibling(root: Node, p: Path): (s: Path)
    requires IsNode(root, p) && p != [] && Last(p) > 0
    ensures IsNode(root, s) && s != [] && Up(s) == Up(p) && Last(s) == Last(p) - 1
  {
    KidIsNode(root, Up(p), Last(p) - 1);
    Up(p) + [Last(p) - 1]
  }

  /** The guards of the containers `p` is the entry of, innermost first. */
  function EntryGuards(root: Node, p: Path): seq<When>
    requires IsNode(root, p)
    decreases |p|
  {
    if p == [] || At(root, p).kind.Rollback? then []
    else if At(root, Up(p)).kind.Parallel? then EntryGuards(root, Up(p))
    else if Last(p) > 0 then []
    else
      var w := At(root, Up(p)).when;
      (if w.Some? then [w.value] else []) + EntryGuards(root, Up(p))
  }

  /** The entry unit of a rollback container: climbing from it triggers on failure. */
  predicate AtRollbackEntry(root: Node, p: Path)
    requires IsNode(root, p)
    decreases |p|
  {
    if p == [] then false
    else if At(root, p).kind.Rollback? then true
    else if At(root, Up(p)).kind.Parallel? then AtRollbackEntry(root, Up(p))
    else Last(p) == 0 && AtRollbackEntry(root, Up(p))
  }

  /** Fires once any predecessor ran, instead of once all did. */
  predicate OrJoined(root: Node, p: Path)
    requires IsNode(root, p)
  {
    var w := At(root, p).when;
    (w.Some? && (w.value.status == "Failure" || w.value.status == "All")) || AtRollbackEntry(root, p)
  }

  /** Every predecessor is a leaf that is positionally before the unit. */
  lemma {:induction false} ClimbIsBefore(root: Node, n: Path, m: Path)
    requires WellShaped(root) && IsNode(root, n) && m in Climb(root, n)
    ensures IsNode(root, m) && IsLeaf(root, m) && Before(root, m, n)
    ensures Forward(root, n) ==> Forward(root, m)
    decreases |n|
  {
    if At(root, n).kind.Rollback? {
      StepsOfChildrenAre(root, Up(n), |At(root, Up(n)).children|, m);
      RollbackIsLast(root, n);
      UnderChild(root, Up(n), m);
      assert n[..|n| - 1] == Up(n);
      assert !At(root, Up(n)).kind.Parallel? by { assert LocalShape(At(root, Up(n))); }
      assert SplitsAt(root, m, n, |n| - 1);
    } else if At(root, Up(n)).kind.Parallel? || Last(n) == 0 {
      ClimbIsBefore(root, Up(n), m);
      BeforeExtends(root, m, n);
    } else {
      SiblingTerminalIsBefore(root, n, m);
    }
  }

  lemma RollbackIsLast(root: Node, n: Path)
    requires WellShaped(root) && IsNode(root, n) && At(root, n).kind.Rollback?
    ensures n != [] && Last(n) == |At(root, Up(n)).children| && At(root, Up(n)).kind.Stage?
  {
    assert LocalShape(At(root, Up(n)));
  }

  lemma BeforeExtends(root: Node, m: Path, n: Path)
    requires IsNode(root, m) && n != [] && Before(root, m, Up(n))
    ensures Before(root, m, n)
  {
    var k: nat :| SplitsAt(root, m, Up(n), k);
    assert Up(n)[..k] == n[..k];
    assert SplitsAt(root, m, n, k);
  }

  lemma SiblingTerminalIsBefore(root: Node, n: Path, m: Path)
    requires WellShaped(root) && IsNode(root, n) && n != [] && Last(n) > 0
    requires !At(root, Up(n)).kind.Parallel? && !At(root, n).kind.Rollback?
    requires m in TerminalLeaves(root, PrecedingSibling(root, n))
    ensures IsNode(root, m) && IsLeaf(root, m) && Before(root, m, n)
    ensures Forward(root, n) ==> Forward(root, m)
  {
    var s := PrecedingSibling(root, n);
    TerminalLeavesAre(root, s, m);
    UnderPrefix(root, s, m);
    assert m[..|n| - 1] == m[..|s|][..|n| - 1] == Up(s) == Up(n);
    assert m[|n| - 1] == m[..|s|][|n| - 1] == Last(s);
    assert SplitsAt(root, m, n, |n| - 1);
    if Forward(root, n) {
      assert LocalShape(At(root, Up(n)));
      assert Under(root, Up(n), s);
      UnderTransitive(root, [], Up(n), s);
      UnderTransitive(root, [], s, m);
    }
  }

  /**
    Whatever is positionally before a unit, within the same forward or rollback
    part `r`, is one of its predecessors or before one of them.
  */
  lemma {:induction false} ClimbCovers(root: Node, r: Path, n: Path, a: Path) returns (m: Path)
    requires WellShaped(root) && IsNode(root, n) && Under(root, r, n)
    requires IsNode(root, a) && IsLeaf(root, a) && Under(root, r, a) && Before(root, a, n)
    ensures m in Climb(root, n) && IsNode(root, m) && (m == a || Before(root, a, m))
    decreases |n|
  {
    var k: nat :| SplitsAt(root, a, n, k);
    SplitsBelow(root, r, n, a, k);
    if At(root, Up(n)).kind.Parallel? || Last(n) == 0 {
      StillBefore(root, n, a, k);
      m := ClimbCovers(root, r, Up(n), a);
    } else if k == |n| - 1 && a[k] == Last(PrecedingSibling(root, n)) {
      m := CoveredInSibling(root, r, n, a, k);
    } else {
      m := BeforeSibling(root, n, a, k);
    }
  }

  /** Two units of one part split inside it. */
  lemma SplitsBelow(root: Node, r: Path, n: Path, a: Path, k: nat)
    requires IsNode(root, n) && Under(root, r, n) && IsNode(root, a) && Under(root, r, a) && SplitsAt(root, a, n, k)
    ensures |r| <= k && n != r && n != [] && !At(root, n).kind.Rollback? && Under(root, r, Up(n))
  {
    UnderPrefix(root, r, n);
    UnderPrefix(root, r, a);
    SharedPrefix(a, n, |r|);
  }

  lemma StillBefore(root: Node, n: Path, a: Path, k: nat)
    requires IsNode(root, n) && n != [] && IsNode(root, a) && SplitsAt(root, a, n, k)
    requires At(root, Up(n)).kind.Parallel? || Last(n) == 0
    ensures Before(root, a, Up(n))
  {
    assert k < |n| - 1;
    assert Up(n)[..k] == n[..k];
    assert SplitsAt(root, a, Up(n), k);
  }

  lemma SiblingPrefix(n: Path, a: Path, k: nat, s: Path)
    requires n != [] && k == |n| - 1 && k < |a| && a[..k] == n[..k] && s != [] && Up(s) == Up(n) && Last(s) == a[k]
    ensures a[..k + 1] == s
  {
    Taken(a, k);
    FrontAndLast(s);
  }

  /** The leaf lies in the preceding sibling itself. */
  lemma CoveredInSibling(root: Node, r: Path, n: Path, a: Path, k: nat) returns (m: Path)
    requires WellShaped(root) && IsNode(root, n) && n != [] && |r| < |n|
    requires !At(root, n).kind.Rollback? && !At(root, Up(n)).kind.Parallel? && Last(n) > 0
    requires IsNode(root, a) && IsLeaf(root, a) && Under(root, r, a) && SplitsAt(root, a, n, k)
    requires k == |n| - 1 && a[k] == Last(n) - 1
    ensures m in Climb(root, n) && IsNode(root, m) && (m == a || Before(root, a, m))
  {
    var s := PrecedingSibling(root, n);
    UnderBetween(root, r, a, k + 1);
    SiblingPrefix(n, a, k, s);
    m := TerminalsCover(root, s, a);
    TerminalLeavesAre(root, s, m);
  }

  /** The leaf comes before the preceding sibling, so before all of its terminals. */
  lemma BeforeSibling(root: Node, n: Path, a: Path, k: nat) returns (m: Path)
    requires WellShaped(root) && IsNode(root, n) && n != []
    requires !At(root, n).kind.Rollback? && !At(root, Up(n)).kind.Parallel? && Last(n) > 0
    requires IsNode(root, a) && SplitsAt(root, a, n, k) && (k < |n| - 1 || a[k] != Last(n) - 1)
    ensures m in Climb(root, n) && IsNode(root, m) && Before(root, a, m)
  {
    var s := PrecedingSibling(root, n);
    m := SomeTerminal(root, s);
    TerminalLeavesAre(root, s, m);
    UnderPrefix(root, s, m);
    SiblingSplits(root, n, a, k, s, m);
  }

  lemma SiblingSplits(root: Node, n: Path, a: Path, k: nat, s: Path, m: Path)
    requires IsNode(root, a) && SplitsAt(root, a, n, k) && (k < |n| - 1 || a[k] < Last(n) - 1)
    requires n != [] && Last(n) > 0 && s == Up(n) + [Last(n) - 1] && |s| <= |m| && m[..|s|] == s
    ensures SplitsAt(root, a, m, k)
  {
    assert m[k] == s[k];
    assert m[..k] == s[..k] == n[..k];
  }

  /******* Document-order rank *******/

  /** Number of nodes of a subtree, rollback containers included. */
  function Size(n: Node): nat
    decreases n, Arity(n) + 1
  {
    1 + SizeOfKids(n, Arity(n))
  }

  function SizeOfKids(n: Node, k: nat): nat
    requires k <= Arity(n)
    decreases n, k
  {
    if k == 0 then 0 else SizeOfKids(n, k - 1) + Size(Kid(n, k - 1))
  }

  /** Position in document order; a stage's rollback comes after its forward children. */
  function Rank(root: Node, p: Path): nat
    requires IsNode(root, p)
    decreases |p|
  {
    if p == [] then 0
    else Rank(root, Up(p)) + 1 + SizeOfKids(At(root, Up(p)), Last(p))
  }

  lemma {:induction false} SizeOfKidsGrows(n: Node, i: nat, j: nat)
    requires i < j <= Arity(n)
    ensures SizeOfKids(n, i) + Size(Kid(n, i)) <= SizeOfKids(n, j)
  {
    if i < j - 1 {
      SizeOfKidsGrows(n, i, j - 1);
    }
  }

  /** A subtree's ranks fill the interval that starts at its root. */
  lemma {:induction false} RankWithin(root: Node, q: Path, k: nat)
    requires IsNode(root, q) && k <= |q|
    ensures IsNode(root, q[..k])
    ensures Rank(root, q[..k]) <= Rank(root, q)
    ensures Rank(root, q) + Size(At(root, q)) <= Rank(root, q[..k]) + Size(At(root, q[..k]))
    decreases |q|
  {
    if k == |q| {
      assert q[..k] == q;
    } else {
      RankWithin(root, Up(q), k);
      assert Up(q)[..k] == q[..k];
      SizeOfKidsGrows(At(root, Up(q)), Last(q), Arity(At(root, Up(q))));
    }
  }

  /** Positional order implies document order. */
  lemma BeforeRank(root: Node, a: Path, b: Path)
    requires IsNode(root, a) && IsNode(root, b) && Before(root, a, b)
    ensures Rank(root, a) < Rank(root, b)
  {
    var k: nat :| SplitsAt(root, a, b, k);
    StepIsNode(root, a, k);
    StepIsNode(root, b, k);
    KidIsNode(root, a[..k], a[k]);
    KidIsNode(root, b[..k], b[k]);
    RankWithin(root, a, k + 1);
    RankWithin(root, b, k + 1);
    SizeOfKidsGrows(At(root, a[..k]), a[k], b[k]);
  }

  /** Every climb edge, a rollback entry's included, goes to a strictly earlier leaf. */
  lemma ClimbDescends(root: Node, n: Path)
    requires WellShaped(root) && IsNode(root, n)
    ensures forall m :: m in Climb(root, n) ==>
      IsNode(root, m) && IsLeaf(root, m) && Rank(root, m) < Rank(root, n) && Before(root, m, n)
  {
    forall m | m in Climb(root, n)
      ensures IsNode(root, m) && IsLeaf(root, m) && Rank(root, m) < Rank(root, n) && Before(root, m, n)
    {
      ClimbIsBefore(root, n, m);
      BeforeRank(root, m, n);
    }
  }

  /******* Transitive predecessors *******/

  /** `a` is met by climbing one or more times from `n`. */
  ghost predicate Reaches(root: Node, n: Path, a: Path)
    requires WellShaped(root) && IsNode(root, n)
    decreases Rank(root, n)
  {
    ClimbDescends(root, n);
    exists m :: m in Climb(root, n) && (m == a || Reaches(root, m, a))
  }

  lemma {:induction false} ReachesIsBefore(root: Node, n: Path, a: Path)
    requires WellShaped(root) && IsNode(root, n) && Reaches(root, n, a)
    ensures IsNode(root, a) && IsLeaf(root, a) && Before(root, a, n)
    ensures Forward(root, n) ==> Forward(root, a)
    decreases Rank(root, n)
  {
    ClimbDescends(root, n);
    var m :| m in Climb(root, n) && (m == a || Reaches(root, m, a));
    ClimbIsBefore(root, n, m);
    if m != a {
      ReachesIsBefore(root, m, a);
      BeforeTransitive(root, a, m, n);
    }
  }

  lemma {:induction false} BeforeIsReached(root: Node, n: Path, a: Path)
    requires WellShaped(root) && IsNode(root, n) && Forward(root, n)
    requires IsNode(root, a) && IsLeaf(root, a) && Forward(root, a) && Before(root, a, n)
    ensures Reaches(root, n, a)
    decreases Rank(root, n)
  {
    ClimbDescends(root, n);
    var m := ClimbCovers(root, [], n, a);
    if m != a {
      ClimbIsBefore(root, n, m);
      BeforeIsReached(root, m, a);
    }
  }

  /**
    Repeated climbing computes the series-parallel order: from a forward unit it
    reaches exactly the forward leaves whose lowest common ancestor with it is an
    ordered container in which their branch comes first.
  */
  lemma ClimbComputesPositionalOrder(root: Node, n: Path, a: Path)
    requires WellShaped(root) && IsNode(root, n) && Forward(root, n)
    ensures Reaches(root, n, a) <==>
            IsNode(root, a) && IsLeaf(root, a) && Forward(root, a) && Before(root, a, n)
  {
    if Reaches(root, n, a) {
      ReachesIsBefore(root, n, a);
    } else if IsNode(root, a) && IsLeaf(root, a) && Forward(root, a) && Before(root, a, n) {
      BeforeIsReached(root, n, a);
    }
  }

  /**
    The predecessor relation is acyclic, and the lowest common ancestor of a unit
    and a transitive predecessor, rollback triggers included, is an ordered
    container with the predecessor in the earlier branch.
  */
  lemma PredecessorsAreEarlier(root: Node, n: Path, a: Path)
    requires WellShaped(root) && IsNode(root, n) && Reaches(root, n, a)
    ensures IsNode(root, a) && Rank(root, a) < Rank(root, n) && !Reaches(root, a, n)
    ensures
      var k := LcaDepth(a, n);
      && k < |a| && k < |n| && a[k] < n[k]
      && IsNode(root, n[..k]) && !At(root, n[..k]).kind.Parallel?
  {
    ReachesIsBefore(root, n, a);
    BeforeRank(root, a, n);
    var k: nat :| SplitsAt(root, a, n, k);
    SplitIsLca(root, a, n, k);
    PrefixIsNode(root, n, k);
    if Reaches(root, a, n) {
      ReachesIsBefore(root, a, n);
      BeforeRank(root, n, a);
    }
  }
}
