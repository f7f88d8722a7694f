/**
  What a unit's position says about it, in terms of node fields alone: which
  enclosing units it is the entry of, and the rollback container it enters
  (verifier/pipeline/graph.go: climb, atRollbackEntry, rollbackContainer).
*/
module Entries {
  import opened Graph

  /** The unit that encloses `t` at depth `k`, `t` itself at depth `|t|`. */
  function NodeAt(root: Node, t: Path, k: nat): Node
    requires IsNode(root, t) && k <= |t|
  {
    PrefixIsNode(root, t, k);
    At(root, t[..k])
  }

  /** At depth `i` the way to `t` takes a first child or a concurrent one, and enters no rollback container. */
  predicate Enters(root: Node, t: Path, i: nat)
    requires IsNode(root, t) && i < |t|
  {
    (t[i] == 0 || NodeAt(root, t, i).kind.Parallel?) && !NodeAt(root, t, i + 1).kind.Rollback?
  }

  /** `t` is an entry of the unit that encloses it at depth `k`: nothing in that unit comes before it. */
  predicate EntryOf(root: Node, t: Path, k: nat)
    requires IsNode(root, t)
  {
    k <= |t| && forall i :: k <= i < |t| ==> Enters(root, t, i)
  }

  /** `t` is an entry of the rollback container of the stage at depth `k`. */
  predicate RollbackEntryAt(root: Node, t: Path, k: nat)
    requires IsNode(root, t)
  {
    k < |t| && NodeAt(root, t, k + 1).kind.Rollback? && EntryOf(root, t, k + 1)
  }

  predicate IsRollbackEntry(root: Node, t: Path)
    requires IsNode(root, t)
  {
    exists k :: 0 <= k < |t| && RollbackEntryAt(root, t, k)
  }

  /** A rollback entry whose stage rolls the whole pipeline back, in a plan of its own. */
  predicate RunsInOwnPlan(root: Node, t: Path)
    requires IsNode(root, t)
  {
    exists k :: 0 <= k < |t| && RollbackEntryAt(root, t, k) && NodeAt(root, t, k).pipelineRollback
  }

  /** Fires on the first predecessor that ran: guarded by a failure or "All" status, or a rollback entry. */
  predicate FiresOnAny(root: Node, t: Path)
    requires IsNode(root, t)
  {
    || (At(root, t).when.Some? && At(root, t).when.value.status in ["Failure", "All"])
    || IsRollbackEntry(root, t)
  }

  lemma NodeAtUp(root: Node, t: Path, k: nat)
    requires IsNode(root, t) && k < |t|
    ensures NodeAt(root, t, k) == NodeAt(root, Up(t), k)
  {
    assert Up(t)[..k] == t[..k];
  }

  lemma NodeAtSelf(root: Node, t: Path)
    requires IsNode(root, t)
    ensures NodeAt(root, t, |t|) == At(root, t)
    ensures t != [] ==> NodeAt(root, t, |t| - 1) == At(root, Up(t))
  {
    assert t[..|t|] == t;
  }

  /** The last step decides whether an entry of the parent's enclosing unit is one here. */
  lemma EntryStep(root: Node, t: Path, k: nat)
    requires IsNode(root, t) && k < |t|
    ensures EntryOf(root, t, k) <==> EntryOf(root, Up(t), k) && Enters(root, t, |t| - 1)
  {
    forall i | k <= i < |t| - 1 ensures Enters(root, t, i) <==> Enters(root, Up(t), i) {
      NodeAtUp(root, t, i);
      NodeAtUp(root, t, i + 1);
    }
  }

  /** How the last step into `t` looks from its parent. */
  lemma EntersLast(root: Node, t: Path)
    requires IsNode(root, t) && t != []
    ensures Enters(root, t, |t| - 1) <==>
      (Last(t) == 0 || At(root, Up(t)).kind.Parallel?) && !At(root, t).kind.Rollback?
  {
    NodeAtSelf(root, t);
  }

  lemma RollbackEntryStep(root: Node, t: Path, k: nat)
    requires IsNode(root, t) && k < |t| && !At(root, t).kind.Rollback?
    ensures RollbackEntryAt(root, t, k) <==>
      k < |t| - 1 && RollbackEntryAt(root, Up(t), k) && Enters(root, t, |t| - 1)
  {
    NodeAtSelf(root, t);
    if k < |t| - 1 {
      NodeAtUp(root, t, k + 1);
      EntryStep(root, t, k + 1);
    }
  }

  /** A rollback container is entered at its own stage, and nowhere else. */
  lemma RollbackEntersItself(root: Node, t: Path, k: nat)
    requires IsNode(root, t) && t != [] && At(root, t).kind.Rollback? && k < |t|
    ensures RollbackEntryAt(root, t, k) <==> k == |t| - 1
  {
    NodeAtSelf(root, t);
    assert !Enters(root, t, |t| - 1);
  }

  /** atRollbackEntry finds exactly the rollback entries. */
  lemma {:induction false} AtRollbackEntryIs(root: Node, t: Path)
    requires IsNode(root, t)
    ensures AtRollbackEntry(root, t) <==> IsRollbackEntry(root, t)
    decreases |t|
  {
    if t != [] {
      if At(root, t).kind.Rollback? {
        RollbackEntersItself(root, t, |t| - 1);
      } else {
        AtRollbackEntryIs(root, Up(t));
        EntersLast(root, t);
        forall k | 0 <= k < |t|
          ensures RollbackEntryAt(root, t, k) <==>
            k < |t| - 1 && RollbackEntryAt(root, Up(t), k) && Enters(root, t, |t| - 1)
        {
          RollbackEntryStep(root, t, k);
        }
      }
    }
  }

  /** orJoined asks for exactly what lets a unit fire on its first predecessor. */
  lemma OrJoinedIs(root: Node, t: Path)
    requires IsNode(root, t)
    ensures OrJoined(root, t) <==> FiresOnAny(root, t)
  {
    AtRollbackEntryIs(root, t);
  }

  /** At most one rollback container is entered. */
  lemma OneRollbackEntry(root: Node, t: Path, j: nat, k: nat)
    requires IsNode(root, t) && RollbackEntryAt(root, t, j) && RollbackEntryAt(root, t, k)
    ensures j == k
  {
    assert !Enters(root, t, j) && !Enters(root, t, k);
  }
}
