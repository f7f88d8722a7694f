/**
  When a unit may run, stated over node fields, positions and paths alone, and why
  the functions of the evaluation come to the same (verifier/pipeline/graph.go:
  Resolve; verifier/pipeline/evaluate.go: guardSkip, liveAncestorsOf, precedesVia).
*/
module Declared {
  import opened Common
  import opened Strategy
  import opened Graph
  import opened Entries
  import opened ClimbOrder
  import opened Instances
  import opened Frontier
  import opened Evaluate

  /******* The strategies that apply to a unit *******/

  predicate FansOut(root: Node, p: Path)
    requires IsNode(root, p)
  {
    exists k :: 0 <= k <= |p| && NodeAt(root, p, k).strat.Some?
  }

  predicate ExcludedAt(root: Node, p: Path, k: nat)
    requires IsNode(root, p) && k <= |p|
  {
    var s := NodeAt(root, p, k).strat;
    s.Some? && s.value.excluded
  }

  predicate KnownAt(root: Node, p: Path, k: nat)
    requires IsNode(root, p) && k <= |p|
  {
    var s := NodeAt(root, p, k).strat;
    s.Some? ==> s.value.known
  }

  predicate Excluded(root: Node, p: Path)
    requires IsNode(root, p)
  {
    exists k :: 0 <= k <= |p| && ExcludedAt(root, p, k)
  }

  /** Every strategy below depth `lo` on the way to `p` has a known instance list. */
  predicate KnownBelow(root: Node, p: Path, lo: int)
    requires IsNode(root, p)
  {
    forall k :: 0 <= k <= |p| && lo < k ==> KnownAt(root, p, k)
  }

  lemma {:induction false} FansOutIs(root: Node, p: Path)
    requires IsNode(root, p)
    ensures HasStrategy(root, p) <==> FansOut(root, p)
    decreases |p|
  {
    NodeAtSelf(root, p);
    if p != [] {
      FansOutIs(root, Up(p));
      forall k | 0 <= k < |p| ensures NodeAt(root, p, k) == NodeAt(root, Up(p), k) {
        NodeAtUp(root, p, k);
      }
    }
  }

  lemma {:induction false} ExcludedIs(root: Node, p: Path)
    requires IsNode(root, p)
    ensures StrategyExcluded(root, p) <==> Excluded(root, p)
    decreases |p|
  {
    NodeAtSelf(root, p);
    assert ExcludedAt(root, p, |p|) <==> At(root, p).strat.Some? && At(root, p).strat.value.excluded;
    if p != [] {
      ExcludedIs(root, Up(p));
      forall k | 0 <= k < |p| ensures ExcludedAt(root, p, k) <==> ExcludedAt(root, Up(p), k) {
        NodeAtUp(root, p, k);
      }
    }
  }

  lemma {:induction false} KnownIs(root: Node, p: Path, lo: int)
    requires IsNode(root, p)
    ensures AllKnown(root, p, lo) <==> KnownBelow(root, p, lo)
    decreases |p|
  {
    if |p| > lo {
      NodeAtSelf(root, p);
      assert KnownAt(root, p, |p|) <==> (At(root, p).strat.Some? ==> At(root, p).strat.value.known);
      if p != [] {
        KnownIs(root, Up(p), lo);
        forall k | 0 <= k < |p| ensures KnownAt(root, p, k) <==> KnownAt(root, Up(p), k) {
          NodeAtUp(root, p, k);
        }
      }
    }
  }

  /** The innermost strategy without a known instance list, unless it excludes everything. */
  predicate InnermostUnknown(root: Node, p: Path, k: nat)
    requires IsNode(root, p) && k <= |p|
  {
    && Unenumerable(NodeAt(root, p, k))
    && forall j :: k < j <= |p| ==> !Unenumerable(NodeAt(root, p, j))
  }

  predicate Unenumerable(n: Node) {
    n.strat.Some? && !n.strat.value.known && !n.strat.value.excluded
  }

  /** The reported status is that of the innermost strategy that cannot be enumerated. */
  lemma {:induction false} StatusIsInnermost(root: Node, p: Path, k: nat)
    requires IsNode(root, p) && WellStrategised(root) && k <= |p| && InnermostUnknown(root, p, k)
    ensures StrategyStatus(root, p) == NodeAt(root, p, k).strat.value.status
    decreases |p|
  {
    NodeAtSelf(root, p);
    if k == |p| {
      assert ValidSpec(At(root, p).strat.value);
    } else {
      NodeAtUp(root, p, k);
      forall j | k < j <= |Up(p)| ensures !Unenumerable(NodeAt(root, Up(p), j)) {
        NodeAtUp(root, p, j);
      }
      assert !Unenumerable(NodeAt(root, p, |p|));
      StatusIsInnermost(root, Up(p), k);
    }
  }

  /******* The guards a unit has to meet itself *******/

  /** `w` guards `t` or a unit that `t` is an entry of. */
  predicate GuardsEntry(root: Node, t: Path, k: nat, w: When)
    requires IsNode(root, t)
  {
    EntryOf(root, t, k) && NodeAt(root, t, k).when == Some(w)
  }

  lemma GuardsEntryStep(root: Node, t: Path, w: When)
    requires IsNode(root, t) && t != []
    ensures (exists k :: 0 <= k < |t| && GuardsEntry(root, t, k, w)) <==>
      Enters(root, t, |t| - 1) &&
      (At(root, Up(t)).when == Some(w) || exists k :: 0 <= k < |Up(t)| && GuardsEntry(root, Up(t), k, w))
  {
    forall k | 0 <= k < |t|
      ensures GuardsEntry(root, t, k, w) <==> GuardsEntry(root, Up(t), k, w) && Enters(root, t, |t| - 1)
    {
      NodeAtUp(root, t, k);
      EntryStep(root, t, k);
    }
    NodeAtSelf(root, Up(t));
    assert GuardsEntry(root, Up(t), |Up(t)|, w) <==> At(root, Up(t)).when == Some(w);
  }

  /** The guards collected on the climb are those of the containers the unit is an entry of. */
  lemma {:induction false} EntryGuardsAre(root: Node, t: Path, w: When)
    requires WellShaped(root) && IsNode(root, t)
    ensures w in EntryGuards(root, t) <==> exists k :: 0 <= k < |t| && GuardsEntry(root, t, k, w)
    decreases |t|
  {
    if t != [] {
      EntersLast(root, t);
      GuardsEntryStep(root, t, w);
      EntryGuardsAre(root, Up(t), w);
      assert LocalShape(At(root, Up(t)));
    }
  }

  /** The reported conditions are the unit's own guard and those of the containers it is an entry of. */
  lemma ConditionsAre(root: Node, t: Path, w: When)
    requires WellShaped(root) && IsNode(root, t)
    ensures w in Conditions(root, t) <==> exists k :: 0 <= k <= |t| && GuardsEntry(root, t, k, w)
  {
    EntryGuardsAre(root, t, w);
    NodeAtSelf(root, t);
    assert GuardsEntry(root, t, |t|, w) <==> At(root, t).when == Some(w);
  }

  /**
    The unit's own facts: no strategy that applies to it excludes every instance or
    leaves them unknown, and its own guard, and that of each container it is an
    entry of, is known true.
  */
  predicate OwnFacts(root: Node, t: Path, cond: Condition)
    requires IsNode(root, t)
  {
    && !Excluded(root, t)
    && KnownBelow(root, t, -1)
    && forall k :: 0 <= k <= |t| && EntryOf(root, t, k) ==> GuardAt(root, t, k, cond).Holds?
  }

  lemma GuardsMean(root: Node, t: Path, cond: Condition)
    requires WellShaped(root) && IsNode(root, t)
    ensures (forall w :: w in Conditions(root, t) ==> cond(w).Holds?) <==>
      forall k :: 0 <= k <= |t| && EntryOf(root, t, k) ==> GuardAt(root, t, k, cond).Holds?
  {
    forall w ensures w in Conditions(root, t) <==> exists k :: 0 <= k <= |t| && GuardsEntry(root, t, k, w) {
      ConditionsAre(root, t, w);
    }
    if forall w :: w in Conditions(root, t) ==> cond(w).Holds? {
      forall k | 0 <= k <= |t| && EntryOf(root, t, k) ensures GuardAt(root, t, k, cond).Holds? {
        var w := NodeAt(root, t, k).when;
        if w.Some? {
          assert GuardsEntry(root, t, k, w.value);
        }
      }
    }
  }

  /** A separate-plan rollback entry, read off the fields of the enclosing units. */
  lemma SeparatePlanIs(root: Node, t: Path)
    requires IsNode(root, t)
    ensures SeparatePlanRollback(root, t) <==> RunsInOwnPlan(root, t)
  {
    AtRollbackEntryIs(root, t);
    forall k | 0 <= k < |t| && RollbackEntryAt(root, t, k)
      ensures SeparatePlanRollback(root, t) <==> NodeAt(root, t, k).pipelineRollback
    {
      ContainerOfEntry(root, t, k);
      RollbackContainerIsNode(root, t);
      assert Up(t[..k + 1]) == t[..k];
    }
  }

  lemma {:induction false} ContainerOfEntry(root: Node, t: Path, k: nat)
    requires IsNode(root, t) && RollbackEntryAt(root, t, k)
    ensures RollbackContainer(root, t) == Some(t[..k + 1])
    decreases |t|
  {
    if At(root, t).kind.Rollback? {
      RollbackEntersItself(root, t, k);
      assert t[..|t|] == t;
    } else {
      RollbackEntryStep(root, t, k);
      ContainerOfEntry(root, Up(t), k);
      assert Up(t)[..k + 1] == t[..k + 1];
    }
  }

  /******* The frontier *******/

  /** `u` never runs: excluded, or some enclosing guard is known false. */
  predicate Skipped(root: Node, u: Path, cond: Condition)
    requires IsNode(root, u)
  {
    Excluded(root, u) || exists k :: 0 <= k <= |u| && GuardAt(root, u, k, cond).Fails?
  }

  /** Every guard on the way to `u` is known true. */
  predicate GuardsKnownTrue(root: Node, u: Path, cond: Condition)
    requires IsNode(root, u)
  {
    forall k :: 0 <= k <= |u| ==> GuardAt(root, u, k, cond).Holds?
  }

  lemma ClassifyIs(root: Node, u: Path, cond: Condition)
    requires IsNode(root, u)
    ensures Classify(root, u, cond).SteppedOver? <==> Skipped(root, u, cond)
    ensures Classify(root, u, cond).Required? <==> !Skipped(root, u, cond) && GuardsKnownTrue(root, u, cond)
  {
    ExcludedIs(root, u);
    GuardChainIsKleene(root, u, cond, None);
  }

  /** An undecided unit reports its innermost undecided guard. */
  lemma {:induction false} UndecidedIsInnermost(root: Node, u: Path, cond: Condition)
    requires IsNode(root, u) && GuardsFrom(root, u, cond, None).Undecided?
    ensures exists k :: 0 <= k <= |u| && FirstUndecided(root, u, cond, k, GuardsFrom(root, u, cond, None))
    decreases |u|
  {
    NodeAtSelf(root, u);
    if GuardAt(root, u, |u|, cond).Unevaluable? {
      var w := At(root, u).when.value;
      FirstStays(root, u, cond, w, cond(w).err);
      assert FirstUndecided(root, u, cond, |u|, GuardsFrom(root, u, cond, None));
    } else {
      var c := GuardsFrom(root, Up(u), cond, None);
      UndecidedIsInnermost(root, Up(u), cond);
      var k :| 0 <= k <= |Up(u)| && FirstUndecided(root, Up(u), cond, k, c);
      FirstUndecidedUp(root, u, cond, k, c);
    }
  }

  /** The guard at depth `k` is the innermost undecided one, and `c` reports it. */
  predicate FirstUndecided(root: Node, u: Path, cond: Condition, k: nat, c: Class)
    requires IsNode(root, u) && k <= |u|
  {
    && NodeAt(root, u, k).when.Some? && GuardAt(root, u, k, cond).Unevaluable?
    && c == Undecided(NodeAt(root, u, k).when.value, GuardAt(root, u, k, cond).err)
    && forall j :: k < j <= |u| ==> GuardAt(root, u, j, cond).Holds?
  }

  lemma FirstUndecidedUp(root: Node, u: Path, cond: Condition, k: nat, c: Class)
    requires IsNode(root, u) && k < |u| && FirstUndecided(root, Up(u), cond, k, c)
    requires GuardAt(root, u, |u|, cond).Holds?
    ensures FirstUndecided(root, u, cond, k, c)
  {
    NodeAtUp(root, u, k);
    GuardAtUp(root, u, k, cond);
    forall j | k < j <= |u| ensures GuardAt(root, u, j, cond).Holds? {
      if j < |u| {
        GuardAtUp(root, u, j, cond);
      }
    }
  }

  /** Once an undecided guard is met, a further one does not replace it. */
  lemma {:induction false} FirstStays(root: Node, u: Path, cond: Condition, w: When, err: string)
    requires IsNode(root, u)
    requires GuardsFrom(root, u, cond, Some((w, err))).Undecided? ||
      (At(root, u).when == Some(w) && cond(w) == Unevaluable(err) && GuardsFrom(root, u, cond, None).Undecided?)
    ensures GuardsFrom(root, u, cond, Some((w, err))) == Undecided(w, err)
    ensures At(root, u).when == Some(w) && cond(w) == Unevaluable(err) ==>
      GuardsFrom(root, u, cond, None) == Undecided(w, err)
    decreases |u|
  {
    if u != [] {
      FirstStays(root, Up(u), cond, w, err);
    }
  }

  /** A way back from `n` to the last unit of `trail`, each unit directly before the one it is reached from. */
  ghost predicate Trail(root: Node, n: Path, trail: seq<Path>)
    requires IsNode(root, n)
    decreases |trail|
  {
    trail != [] && DirectlyBefore(root, n, trail[0]) && IsNode(root, trail[0]) &&
    (|trail| == 1 || Trail(root, trail[0], trail[1..]))
  }

  /** The units strictly between the ends of the way are all skipped. */
  predicate ThroughSkipped(root: Node, trail: seq<Path>, cond: Condition) {
    forall i :: 0 <= i < |trail| - 1 ==> IsNode(root, trail[i]) && Skipped(root, trail[i], cond)
  }

  /** `u` is a unit that `t` effectively waits on: reached through skipped units, and not skipped itself. */
  ghost predicate OnFrontier(root: Node, t: Path, cond: Condition, u: Path)
    requires IsNode(root, t)
  {
    && IsNode(root, u) && !Skipped(root, u, cond)
    && exists trail :: Trail(root, t, trail) && ThroughSkipped(root, trail, cond) && trail[|trail| - 1] == u
  }

  /** `a` is reached from `b` through units that wait on all their predecessors, `b` among them. */
  ghost predicate ImpliedBy(root: Node, a: Path, b: Path)
    requires IsNode(root, b)
  {
    && !FiresOnAny(root, b)
    && exists trail :: Trail(root, b, trail) && ThroughAllJoined(root, trail) && trail[|trail| - 1] == a
  }

  predicate ThroughAllJoined(root: Node, trail: seq<Path>) {
    forall i :: 0 <= i < |trail| - 1 ==> IsNode(root, trail[i]) && !FiresOnAny(root, trail[i])
  }

  lemma TrailHead(root: Node, n: Path, m: Path, rest: seq<Path>)
    requires IsNode(root, n) && IsNode(root, m) && DirectlyBefore(root, n, m) && Trail(root, m, rest)
    ensures Trail(root, n, [m] + rest) && ([m] + rest)[|rest|] == rest[|rest| - 1]
  {
    assert ([m] + rest)[1..] == rest;
  }

  lemma SkippedHead(root: Node, m: Path, rest: seq<Path>, cond: Condition)
    requires IsNode(root, m) && Skipped(root, m, cond) && ThroughSkipped(root, rest, cond)
    ensures ThroughSkipped(root, [m] + rest, cond)
  {
    var trail := [m] + rest;
    forall i | 0 <= i < |trail| - 1 ensures IsNode(root, trail[i]) && Skipped(root, trail[i], cond) {
      assert trail[i] == if i == 0 then m else rest[i - 1];
    }
  }

  lemma JoinedHead(root: Node, m: Path, rest: seq<Path>)
    requires IsNode(root, m) && !FiresOnAny(root, m) && ThroughAllJoined(root, rest)
    ensures ThroughAllJoined(root, [m] + rest)
  {
    var trail := [m] + rest;
    forall i | 0 <= i < |trail| - 1 ensures IsNode(root, trail[i]) && !FiresOnAny(root, trail[i]) {
      assert trail[i] == if i == 0 then m else rest[i - 1];
    }
  }

  lemma FirstMet(root: Node, n: Path, cond: Condition, p: Path) returns (m: Path)
    requires WellShaped(root) && IsNode(root, n) && Met(root, n, cond, p)
    ensures IsNode(root, m) && DirectlyBefore(root, n, m) && Rank(root, m) < Rank(root, n)
    ensures m == p || (Skipped(root, m, cond) && Met(root, m, cond, p))
  {
    ClimbDescends(root, n);
    ClimbIs(root, n);
    m :| m in Climb(root, n) && (m == p || (Classify(root, m, cond).SteppedOver? && Met(root, m, cond, p)));
    ClassifyIs(root, m, cond);
  }

  lemma {:induction false} MetHasTrail(root: Node, n: Path, cond: Condition, p: Path) returns (trail: seq<Path>)
    requires WellShaped(root) && IsNode(root, n) && Met(root, n, cond, p)
    ensures Trail(root, n, trail) && ThroughSkipped(root, trail, cond) && trail[|trail| - 1] == p
    decreases Rank(root, n)
  {
    var m := FirstMet(root, n, cond, p);
    if m == p {
      trail := [m];
    } else {
      var rest := MetHasTrail(root, m, cond, p);
      TrailHead(root, n, m, rest);
      SkippedHead(root, m, rest, cond);
      trail := [m] + rest;
    }
  }

  lemma MetStep(root: Node, n: Path, cond: Condition, m: Path, p: Path)
    requires WellShaped(root) && IsNode(root, n) && IsNode(root, m) && DirectlyBefore(root, n, m)
    requires m == p || (Skipped(root, m, cond) && Met(root, m, cond, p))
    ensures Met(root, n, cond, p)
  {
    ClimbIs(root, n);
    ClassifyIs(root, m, cond);
    MetThrough(root, n, cond, m, p);
  }

  /** The rest of a way through skipped units. */
  lemma SkippedRest(root: Node, trail: seq<Path>, cond: Condition)
    requires |trail| > 1 && ThroughSkipped(root, trail, cond)
    ensures IsNode(root, trail[0]) && Skipped(root, trail[0], cond) && ThroughSkipped(root, trail[1..], cond)
  {
    assert forall i :: 0 <= i < |trail[1..]| ==> trail[1..][i] == trail[i + 1];
  }

  lemma {:induction false} TrailIsMet(root: Node, n: Path, cond: Condition, trail: seq<Path>)
    requires WellShaped(root) && IsNode(root, n) && Trail(root, n, trail) && ThroughSkipped(root, trail, cond)
    ensures Met(root, n, cond, trail[|trail| - 1])
    decreases |trail|
  {
    var p := trail[|trail| - 1];
    if |trail| > 1 {
      SkippedRest(root, trail, cond);
      TrailIsMet(root, trail[0], cond, trail[1..]);
    }
    MetStep(root, n, cond, trail[0], p);
  }

  /** The recursive walk meets exactly what is reached through skipped units. */
  lemma MetIs(root: Node, n: Path, cond: Condition, p: Path)
    requires WellShaped(root) && IsNode(root, n)
    ensures Met(root, n, cond, p) <==>
      exists trail :: Trail(root, n, trail) && ThroughSkipped(root, trail, cond) && trail[|trail| - 1] == p
  {
    if Met(root, n, cond, p) {
      var trail := MetHasTrail(root, n, cond, p);
    }
    if trail :| Trail(root, n, trail) && ThroughSkipped(root, trail, cond) && trail[|trail| - 1] == p {
      TrailIsMet(root, n, cond, trail);
    }
  }

  lemma FirstPreceding(root: Node, a: Path, b: Path) returns (m: Path)
    requires WellShaped(root) && IsNode(root, b) && Precedes(root, a, b)
    ensures IsNode(root, m) && DirectlyBefore(root, b, m) && Rank(root, m) < Rank(root, b)
    ensures m == a || (!FiresOnAny(root, m) && Precedes(root, a, m))
  {
    ClimbDescends(root, b);
    ClimbIs(root, b);
    m :| m in Climb(root, b) && (m == a || Precedes(root, a, m));
    OrJoinedIs(root, m);
  }

  lemma {:induction false} PrecedesHasTrail(root: Node, a: Path, b: Path) returns (trail: seq<Path>)
    requires WellShaped(root) && IsNode(root, b) && Precedes(root, a, b)
    ensures Trail(root, b, trail) && ThroughAllJoined(root, trail) && trail[|trail| - 1] == a
    decreases Rank(root, b)
  {
    var m := FirstPreceding(root, a, b);
    if m == a {
      trail := [m];
    } else {
      var rest := PrecedesHasTrail(root, a, m);
      TrailHead(root, b, m, rest);
      JoinedHead(root, m, rest);
      trail := [m] + rest;
    }
  }

  lemma {:induction false} TrailPrecedes(root: Node, b: Path, trail: seq<Path>)
    requires WellShaped(root) && IsNode(root, b) && !FiresOnAny(root, b)
    requires Trail(root, b, trail) && ThroughAllJoined(root, trail)
    ensures Precedes(root, trail[|trail| - 1], b)
    decreases |trail|
  {
    ClimbDescends(root, b);
    ClimbIs(root, b);
    OrJoinedIs(root, b);
    var m := trail[0];
    if |trail| > 1 {
      var rest := trail[1..];
      assert forall i :: 0 <= i < |rest| ==> rest[i] == trail[i + 1];
      TrailPrecedes(root, m, rest);
    }
  }

  /** precedesVia holds exactly along ways through units that wait on all their predecessors. */
  lemma PrecedesIs(root: Node, a: Path, b: Path)
    requires WellShaped(root) && IsNode(root, b)
    ensures Precedes(root, a, b) <==> ImpliedBy(root, a, b)
  {
    OrJoinedIs(root, b);
    if Precedes(root, a, b) {
      var trail := PrecedesHasTrail(root, a, b);
    }
    if ImpliedBy(root, a, b) {
      var trail :| Trail(root, b, trail) && ThroughAllJoined(root, trail) && trail[|trail| - 1] == a;
      TrailPrecedes(root, b, trail);
    }
  }

  /** The frontier walk's two lists, over paths and fields. */
  lemma FrontierIs(root: Node, t: Path, cond: Condition)
    requires Proper(root) && IsNode(root, t)
    ensures var f := LiveFrontier(root, t, cond);
      && (forall u :: u in f.out <==> OnFrontier(root, t, cond, u) && GuardsKnownTrue(root, u, cond))
      && (forall u :: u in f.undecided <==> OnFrontier(root, t, cond, u) && !GuardsKnownTrue(root, u, cond))
  {
    LiveFrontierIsExact(root, t, cond);
    forall u | IsNode(root, u)
      ensures Met(root, t, cond, u) && !Classify(root, u, cond).SteppedOver? <==> OnFrontier(root, t, cond, u)
      ensures Classify(root, u, cond).Required? <==> !Skipped(root, u, cond) && GuardsKnownTrue(root, u, cond)
    {
      MetIs(root, t, cond, u);
      ClassifyIs(root, u, cond);
    }
  }

  /******* When a unit may run *******/

  /** The instances of `u` that `t` waits on are known: `u` has no strategy, or they are enumerated. */
  predicate Verifiable(root: Node, u: Path, t: Path, raw: string)
    requires IsNode(root, u) && IsNode(root, t)
  {
    FansOut(root, u) ==> AncestorInstances(root, u, t, raw).Some?
  }

  lemma VerifiableIs(root: Node, u: Path, t: Path, raw: string)
    requires WellFormed(root) && IsNode(root, u) && IsNode(root, t)
    ensures Verifiable(root, u, t, raw) <==> !Unverifiable(AncestorOf(root, u, t, raw))
  {
    FansOutIs(root, u);
    if HasStrategy(root, u) {
      KnownIsEnumerated(root, u, t, raw);
    }
  }

  /** Everything `u` stands for in `t`'s branch is known and has run. */
  predicate Completed(root: Node, u: Path, t: Path, raw: string, ran: string -> Answer)
    requires IsNode(root, t)
  {
    IsNode(root, u) && Verifiable(root, u, t, raw) && forall f :: f in Effective(root, u, t, raw) ==> ran(f).DidRun?
  }

  /** Something `u` stands for in `t`'s branch is known and has run. */
  predicate Begun(root: Node, u: Path, t: Path, raw: string, ran: string -> Answer)
    requires IsNode(root, t)
  {
    IsNode(root, u) && Verifiable(root, u, t, raw) && exists f :: f in Effective(root, u, t, raw) && ran(f).DidRun?
  }

  /** Some other unit of the frontier stands for `u`. */
  ghost predicate Redundant(root: Node, t: Path, cond: Condition, u: Path)
    requires IsNode(root, t)
  {
    exists v :: v != u && OnFrontier(root, t, cond, v) && ImpliedBy(root, u, v)
  }

  /**
    The declarative verdict.  A unit may run when its own facts hold, it is no
    rollback entry of a separate plan, every guard on the way to a unit of its
    frontier is decided, and: if it fires on any predecessor, the frontier is
    empty or some unit of it has begun; otherwise every unit of the frontier that
    no other one stands for is completed.
  */
  ghost predicate MayRun(root: Node, t: Path, raw: string, cond: Condition, ran: string -> Answer)
    requires IsNode(root, t)
  {
    && OwnFacts(root, t, cond)
    && !RunsInOwnPlan(root, t)
    && (forall u :: OnFrontier(root, t, cond, u) ==> GuardsKnownTrue(root, u, cond))
    && if FiresOnAny(root, t) then
        (exists u :: OnFrontier(root, t, cond, u)) ==>
          exists u :: OnFrontier(root, t, cond, u) && Begun(root, u, t, raw, ran)
      else
        forall u :: OnFrontier(root, t, cond, u) && !Redundant(root, t, cond, u) ==> Completed(root, u, t, raw, ran)
  }
}
