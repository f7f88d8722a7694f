/**
  Why the pruned gate is as strong as the unpruned one (verifier/pipeline/evaluate.go,
  liveAncestorsOf): if what a record holds was admitted step by step, then whatever a
  surviving predecessor covers has been recorded as well.
*/
module Pruning {
  import opened Common
  import opened Graph
  import opened Naming
  import opened Instances
  import opened Lookup
  import opened Frontier
  import opened Evaluate
  import opened Verdicts

  /** The two views of one plan execution: raw instance FQNs and folded logical FQNs. */
  datatype PlanRecord = PlanRecord(instances: set<string>, logical: set<string>)

  predicate HasRun(rec: PlanRecord, f: string) {
    f in rec.instances || f in rec.logical
  }

  function RecordAnswer(rec: PlanRecord): string -> Answer {
    f => if HasRun(rec, f) then DidRun else DidNotRun
  }

  /** The gate a recorded request passed, seen from a later record. */
  ghost predicate Admitted(root: Node, t: Path, raw: string, cond: Condition, rec: PlanRecord)
    requires WellShaped(root) && IsNode(root, t)
  {
    && OwnFactsHold(root, t, cond)
    && (SeparatePlanRollback(root, t) ||
        (LiveFrontier(root, t, cond).undecided == [] && FrontierRan(root, t, raw, cond, RecordAnswer(rec))))
  }

  /** Every recorded request was admitted, and the logical view is the fold of the raw one. */
  ghost predicate Justified(g: OrderGraph, cond: Condition, rec: PlanRecord)
    requires ValidGraph(g)
  {
    && (forall x :: x in rec.instances ==>
          LookupNode(g, x).Some? && (LookupIsNode(g, x);
          Admitted(g.root, LookupNode(g, x).value, x, cond, rec)))
    && (forall f :: f in rec.logical ==> exists x :: x in rec.instances && Folds(g, x, f))
  }

  /** The raw name `x` resolves to the unit whose FQN is `f`. */
  predicate Folds(g: OrderGraph, x: string, f: string) {
    var t := LookupNode(g, x);
    t.Some? && IsNode(g.root, t.value) && At(g.root, t.value).fqn == f
  }

  /** Enumerated instance names are distinct from each other and from real FQNs. */
  ghost predicate Unambiguous(g: OrderGraph) {
    forall p {:trigger InstanceFqns(g.root, p)} ::
      IsNode(g.root, p) && IsNamed(At(g.root, p)) && InstanceFqns(g.root, p).Some? ==>
      forall f :: f in InstanceFqns(g.root, p).value ==> f !in g.byFqn && SoleEnumerator(g.root, g.byFqn, f, p)
  }

  /** Every instance that `p` enumerates is indexed to `p`. */
  ghost predicate AllIndexedTo(g: OrderGraph, p: Path)
    requires IsNode(g.root, p) && InstanceFqns(g.root, p).Some?
  {
    forall f: string :: f in InstanceFqns(g.root, p).value ==> f in g.instByFqn && g.instByFqn[f] == p
  }

  /**
    A caller can tell from the built index whether instance names are unambiguous:
    exactly when every enumerated name is indexed to the unit that enumerates it.
  */
  lemma UnambiguousIffIndexed(g: OrderGraph)
    requires ValidGraph(g)
    ensures Unambiguous(g) <==>
      forall p: Path {:trigger InstanceFqns(g.root, p)} ::
        IsNode(g.root, p) && IsNamed(At(g.root, p)) && InstanceFqns(g.root, p).Some? ==> AllIndexedTo(g, p)
  {
    forall p: Path | IsNode(g.root, p) && InstanceFqns(g.root, p).Some?
      ensures AllIndexedTo(g, p) <==>
        forall f :: f in InstanceFqns(g.root, p).value ==> f !in g.byFqn && SoleEnumerator(g.root, g.byFqn, f, p)
    {
      forall f: string ensures f in g.instByFqn && g.instByFqn[f] == p <==>
        f !in g.byFqn && SoleEnumerator(g.root, g.byFqn, f, p) {
        IndexMeans(g, f, p);
      }
    }
  }

  lemma IndexMeans(g: OrderGraph, f: string, p: Path)
    requires ValidGraph(g)
    ensures f in g.instByFqn && g.instByFqn[f] == p <==> f !in g.byFqn && SoleEnumerator(g.root, g.byFqn, f, p)
  {
    if f in g.instByFqn && g.instByFqn[f] == p {
      assert SoleEnumerator(g.root, g.byFqn, f, p);
    }
    if f !in g.byFqn && SoleEnumerator(g.root, g.byFqn, f, p) {
      assert f in g.instByFqn && g.instByFqn[f] == p;
    }
  }

  lemma ValidIsProper(g: OrderGraph)
    requires ValidGraph(g) && NoEmptyParallel(g.root)
    ensures Proper(g.root)
  {
    forall p, q | IsNode(g.root, p) && IsNode(g.root, q) && IsNamed(At(g.root, p)) && IsNamed(At(g.root, q))
      ensures At(g.root, p).fqn == At(g.root, q).fqn ==> p == q
    {
      assert g.byFqn[At(g.root, p).fqn] == p && g.byFqn[At(g.root, q).fqn] == q;
    }
  }

  /******* Full instances *******/

  /** `f` is a full instance name of `p`. */
  ghost predicate IsInstance(root: Node, p: Path, ch: Choice, f: string)
    requires IsNode(root, p)
  {
    IsChoice(root, p, -1, ch) && |ch| == |p| + 1 && f == Render(root, p, ch)
  }

  lemma InstanceResolves(g: OrderGraph, p: Path, ch: Choice)
    requires ValidGraph(g) && Unambiguous(g) && IsNode(g.root, p) && IsNamed(At(g.root, p)) && AllKnown(g.root, p, -1)
    requires IsChoice(g.root, p, -1, ch)
    ensures LookupNode(g, Render(g.root, p, ch)) == Some(p)
    ensures HasStrategy(g.root, p) ==> Render(g.root, p, ch) !in g.byFqn
    ensures !HasStrategy(g.root, p) ==> Render(g.root, p, ch) == At(g.root, p).fqn
  {
    var root, f := g.root, Render(g.root, p, ch);
    assert Rendered(root, p, -1, f);
    if HasStrategy(root, p) {
      InstanceFqnsMembers(root, p);
      assert f in InstanceFqns(root, p).value;
    } else {
      NoStrategyRender(root, p, ch);
    }
  }

  lemma {:induction false} NoStrategyRender(root: Node, p: Path, ch: Choice)
    requires WellFormed(root) && IsNode(root, p) && IsChoice(root, p, -1, ch) && !HasStrategy(root, p)
    ensures Render(root, p, ch) == BaseFqn(root, p)
    decreases |p|
  {
    ChoiceShape(root, p, -1, ch, |p|);
    assert p[..|p|] == p;
    if p == [] {
      assert LocalName(root, p);
    } else {
      NoStrategyRender(root, Up(p), ch[..|p|]);
      BaseStep(root, p);
    }
  }

  /** Without a strategy the raw spelling of the target does not matter. */
  lemma RawIrrelevant(root: Node, p: Path, t: Path, raw: string, raw': string)
    requires IsNode(root, p) && IsNode(root, t) && !HasStrategy(root, t)
    ensures AncestorOf(root, p, t, raw) == AncestorOf(root, p, t, raw')
    ensures Effective(root, p, t, raw) == Effective(root, p, t, raw')
  {
    var d := LcaDepth(p, t);
    PrefixIsNode(root, p, d);
    if HasStrategy(root, t[..d]) {
      HasStrategyBelow(root, t, d);
    }
  }

  lemma RawIrrelevantGate(root: Node, t: Path, raw: string, raw': string, cond: Condition, rec: PlanRecord)
    requires WellShaped(root) && IsNode(root, t) && !HasStrategy(root, t)
    requires Admitted(root, t, raw, cond, rec)
    ensures Admitted(root, t, raw', cond, rec)
  {
    if !SeparatePlanRollback(root, t) {
      var ps := GatingNodes(root, t, cond);
      forall p | p in ps
        ensures AncestorOf(root, p, t, raw) == AncestorOf(root, p, t, raw')
        ensures Effective(root, p, t, raw) == Effective(root, p, t, raw')
      {
        RawIrrelevant(root, p, t, raw, raw');
      }
      forall f | IsRead(root, t, raw, cond, f) ensures IsRead(root, t, raw', cond, f) {
        var p :| p in ps && Contributes(root, p, t, raw, f);
        assert Contributes(root, p, t, raw', f);
      }
    }
  }

  /** A full instance that counts as run was admitted under its own name. */
  lemma RunIsAdmitted(g: OrderGraph, cond: Condition, rec: PlanRecord, p: Path, ch: Choice)
    requires ValidGraph(g) && Unambiguous(g) && Justified(g, cond, rec)
    requires IsNode(g.root, p) && IsNamed(At(g.root, p)) && AllKnown(g.root, p, -1) && IsChoice(g.root, p, -1, ch)
    requires HasRun(rec, Render(g.root, p, ch))
    ensures Admitted(g.root, p, Render(g.root, p, ch), cond, rec)
  {
    var f := Render(g.root, p, ch);
    InstanceResolves(g, p, ch);
    if f !in rec.instances {
      var x :| x in rec.instances && Folds(g, x, f);
      LookupIsNode(g, x);
      var t := LookupNode(g, x).value;
      assert f in g.byFqn && g.byFqn[f] == t;
      assert t == p;
      RawIrrelevantGate(g.root, p, x, f, cond, rec);
    }
  }

  /******* Interpolating choices *******/

  /** Between an instance of `a` and an instance of `x` in the same branch lies one of `b`. */
  lemma Interpolate(root: Node, a: Path, b: Path, x: Path, ca: Choice, cx: Choice) returns (cb: Choice)
    requires WellFormed(root) && IsNode(root, a) && IsNode(root, b) && IsNode(root, x)
    requires IsChoice(root, a, -1, ca) && IsChoice(root, x, -1, cx) && |ca| == |a| + 1 && |cx| == |x| + 1
    requires AllKnown(root, b, -1) && Agree(ca, cx, LcaDepth(a, x))
    ensures IsChoice(root, b, -1, cb) && |cb| == |b| + 1
    ensures Agree(cb, cx, LcaDepth(b, x)) && Agree(ca, cb, LcaDepth(a, b))
  {
    var base := SomeChoice(root, b);
    var i, j := LcaDepth(a, b), LcaDepth(b, x);
    GraftChoice(root, a, ca, -1, b, base, -1, i, -1);
    var mid := Graft(ca, base, i);
    GraftChoice(root, x, cx, -1, b, mid, -1, j, -1);
    cb := Graft(cx, mid, j);
    InterpolationAgrees(a, b, x, ca, cx, mid, cb);
  }

  lemma InterpolationAgrees(a: Path, b: Path, x: Path, ca: Choice, cx: Choice, mid: Choice, cb: Choice)
    requires Agree(mid, ca, LcaDepth(a, b)) && Agree(cb, cx, LcaDepth(b, x)) && Agree(ca, cx, LcaDepth(a, x))
    requires |cb| == |mid| && forall k :: LcaDepth(b, x) < k < |cb| ==> cb[k] == mid[k]
    ensures Agree(ca, cb, LcaDepth(a, b))
  {
    var i, j := LcaDepth(a, b), LcaDepth(b, x);
    forall k: nat | k <= i ensures ca[k] == cb[k] {
      AgreeAt(mid, ca, i, k);
      if k <= j {
        LcaOfThree(a, b, x, k);
        AgreeAt(ca, cx, LcaDepth(a, x), k);
        AgreeAt(cb, cx, j, k);
      }
    }
    assert ca[..i + 1] == cb[..i + 1];
  }

  /******* Pruning is sound *******/

  /** Everything a choice of `p` in `t`'s branch names has run. */
  ghost predicate BranchRan(root: Node, p: Path, t: Path, cx: Choice, rec: PlanRecord)
    requires IsNode(root, p) && IsNode(root, t)
  {
    AllKnown(root, p, -1) &&
    forall ch :: IsChoice(root, p, -1, ch) && Agree(ch, cx, LcaDepth(p, t)) ==> HasRun(rec, Render(root, p, ch))
  }

  lemma {:induction false} KnownAbove(root: Node, p: Path, d: nat)
    requires IsNode(root, p) && d <= |p| && IsNode(root, p[..d]) && AllKnown(root, p[..d], -1) && AllKnown(root, p, d)
    ensures AllKnown(root, p, -1)
    decreases |p|
  {
    if d < |p| {
      assert Up(p)[..d] == p[..d];
      KnownAbove(root, Up(p), d);
    } else {
      assert p[..d] == p;
    }
  }

  lemma {:induction false} KnownPrefix(root: Node, p: Path, d: nat)
    requires IsNode(root, p) && d <= |p| && AllKnown(root, p, -1)
    ensures IsNode(root, p[..d]) && AllKnown(root, p[..d], -1)
    decreases |p|
  {
    if d < |p| {
      KnownPrefix(root, Up(p), d);
      assert Up(p)[..d] == p[..d];
    } else {
      assert p[..d] == p;
    }
  }

  /** A verifiable predecessor of an enumerable target is enumerable throughout. */
  lemma VerifiableIsKnown(root: Node, p: Path, t: Path, raw: string)
    requires WellFormed(root) && IsNode(root, p) && IsNode(root, t)
    requires AllKnown(root, t, -1) && !Unverifiable(AncestorOf(root, p, t, raw))
    ensures AllKnown(root, p, -1)
  {
    if HasStrategy(root, p) {
      var d := LcaDepth(p, t);
      KnownPrefix(root, t, d);
      KnownAbove(root, p, d);
    } else {
      UnknownNeedsStrategy(root, p);
    }
  }

  /** What the gate itself makes sure of: its own, pruned, predecessors. */
  lemma GatedRan(g: OrderGraph, cond: Condition, rec: PlanRecord, t: Path, cx: Choice, p: Path)
    requires ValidGraph(g) && Proper(g.root) && IsNode(g.root, t) && IsNamed(At(g.root, t)) && !OrJoined(g.root, t)
    requires IsChoice(g.root, t, -1, cx) && |cx| == |t| + 1
    requires Admitted(g.root, t, Render(g.root, t, cx), cond, rec)
    requires p in GatingNodes(g.root, t, cond) && p in LiveFrontier(g.root, t, cond).out
    ensures IsNode(g.root, p) && BranchRan(g.root, p, t, cx, rec)
  {
    var root, raw := g.root, Render(g.root, t, cx);
    LiveFrontierIsExact(root, t, cond);
    MetIsReached(root, t, cond, p);
    VerifiableIsKnown(root, p, t, raw);
    forall ch | IsChoice(root, p, -1, ch) && Agree(ch, cx, LcaDepth(p, t)) ensures HasRun(rec, Render(root, p, ch)) {
      EffectiveMembers(root, p, t, cx, Render(root, p, ch));
      assert InstanceAgreeing(root, p, cx, LcaDepth(p, t), Render(root, p, ch));
      assert RecordAnswer(rec)(Render(root, p, ch)).DidRun?;
    }
  }

  /** On the way from `b` back to `p` some unit of `b`'s own frontier is met. */
  lemma {:induction false} FirstLive(root: Node, cond: Condition, b: Path, p: Path) returns (q: Path)
    requires Proper(root) && IsNode(root, b) && IsNode(root, p) && Precedes(root, p, b)
    requires !Classify(root, p, cond).SteppedOver?
    ensures IsNode(root, q) && Met(root, b, cond, q) && !Classify(root, q, cond).SteppedOver?
    ensures q == p || Precedes(root, p, q)
    decreases Rank(root, b)
  {
    ClimbDescends(root, b);
    var m :| m in Climb(root, b) && (m == p || Precedes(root, p, m));
    if m == p || !Classify(root, m, cond).SteppedOver? {
      q := m;
      MetThrough(root, b, cond, m, m);
    } else {
      q := FirstLive(root, cond, m, p);
      MetThrough(root, b, cond, m, q);
    }
  }

  /**
    Pruning never weakens the gate.  If an AND-joined instance was admitted on a
    record all of whose entries were admitted, then for every unit of its
    unpruned live frontier all instances in its own branch have run, whether
    the pruning kept that unit or not, and whatever skipped units or fan-outs the
    covering path crosses.
  */
  lemma {:induction false} PruningIsSound(g: OrderGraph, cond: Condition, rec: PlanRecord, t: Path, cx: Choice, p: Path)
    requires ValidGraph(g) && Proper(g.root) && Unambiguous(g) && Justified(g, cond, rec)
    requires IsNode(g.root, t) && IsNamed(At(g.root, t)) && !OrJoined(g.root, t)
    requires IsChoice(g.root, t, -1, cx) && |cx| == |t| + 1
    requires Admitted(g.root, t, Render(g.root, t, cx), cond, rec)
    requires p in LiveFrontier(g.root, t, cond).out
    ensures IsNode(g.root, p) && BranchRan(g.root, p, t, cx, rec)
    decreases Rank(g.root, t), 0
  {
    LiveFrontierIsExact(g.root, t, cond);
    var b := SurvivorFor(g, cond, t, p);
    GatedRan(g, cond, rec, t, cx, b);
    if b != p {
      MetIsReached(g.root, t, cond, b);
      ThroughCover(g, cond, rec, t, cx, b, p);
    }
  }

  /** The gating unit that stands for `p`: itself, or one that covers it. */
  lemma SurvivorFor(g: OrderGraph, cond: Condition, t: Path, p: Path) returns (b: Path)
    requires Proper(g.root) && IsNode(g.root, t) && !OrJoined(g.root, t)
    requires p in LiveFrontier(g.root, t, cond).out
    ensures b in GatingNodes(g.root, t, cond) && b in LiveFrontier(g.root, t, cond).out && IsNode(g.root, b)
    ensures b == p || Precedes(g.root, p, b)
  {
    var root, out := g.root, LiveFrontier(g.root, t, cond).out;
    LiveFrontierIsExact(root, t, cond);
    FrontierIsNodes(root, t, cond);
    PrunedMembers(root, out, |out|, p);
    if p in Pruned(root, out, |out|) {
      b := p;
    } else {
      var i :| 0 <= i < |out| && out[i] == p;
      var j := SurvivorCovers(root, out, i);
      b := out[j];
    }
  }

  /** From a branch that ran to what it covers. */
  lemma {:induction false} ThroughCover(g: OrderGraph, cond: Condition, rec: PlanRecord, t: Path, cx: Choice, b: Path,
      p: Path)
    requires ValidGraph(g) && Proper(g.root) && Unambiguous(g) && Justified(g, cond, rec)
    requires IsNode(g.root, t) && IsChoice(g.root, t, -1, cx) && |cx| == |t| + 1
    requires IsNode(g.root, b) && IsNode(g.root, p) && IsNamed(At(g.root, b)) && Rank(g.root, b) < Rank(g.root, t)
    requires BranchRan(g.root, b, t, cx, rec)
    requires Precedes(g.root, p, b) && Classify(g.root, p, cond).Required?
    ensures BranchRan(g.root, p, t, cx, rec)
    decreases Rank(g.root, b), 2
  {
    var root := g.root;
    var base := SomeChoice(root, b);
    var j := LcaDepth(b, t);
    GraftChoice(root, t, cx, -1, b, base, -1, j, -1);
    CoveredRan(g, cond, rec, b, Graft(cx, base, j), p);
    forall ch | IsChoice(root, p, -1, ch) && Agree(ch, cx, LcaDepth(p, t)) ensures HasRun(rec, Render(root, p, ch)) {
      ChoiceAt(root, p, -1, ch, 0);
      var cb := Interpolate(root, p, b, t, ch, cx);
      CoveredRan(g, cond, rec, b, cb, p);
    }
  }

  /** One instance that ran: what its unit covers has run in its branch. */
  lemma {:induction false} CoveredRan(g: OrderGraph, cond: Condition, rec: PlanRecord, b: Path, cb: Choice, p: Path)
    requires ValidGraph(g) && Proper(g.root) && Unambiguous(g) && Justified(g, cond, rec)
    requires IsNode(g.root, b) && IsNode(g.root, p) && IsNamed(At(g.root, b)) && AllKnown(g.root, b, -1)
    requires IsChoice(g.root, b, -1, cb) && |cb| == |b| + 1 && HasRun(rec, Render(g.root, b, cb))
    requires Precedes(g.root, p, b) && Classify(g.root, p, cond).Required?
    ensures BranchRan(g.root, p, b, cb, rec)
    decreases Rank(g.root, b), 1
  {
    var root := g.root;
    RunIsAdmitted(g, cond, rec, b, cb);
    var q := FirstLive(root, cond, b, p);
    LiveFrontierIsExact(root, b, cond);
    MetIsReached(root, b, cond, q);
    assert q !in LiveFrontier(root, b, cond).undecided;
    PruningIsSound(g, cond, rec, b, cb, q);
    if q != p {
      ThroughCover(g, cond, rec, b, cb, q, p);
    }
  }
}
