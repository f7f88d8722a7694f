/**
  Which sequences of requests the verifier accepts: on a pipeline without failure
  branches, rollback or skipped units, exactly the linear extensions of the
  branch-aware positional order.
*/
module LinearExtensions {
  import opened Common
  import opened Strategy
  import opened Graph
  import opened Naming
  import opened Instances
  import opened Lookup
  import opened Frontier
  import opened Evaluate
  import opened Verdicts
  import opened Pruning
  import opened Runs

  /******* Plain pipelines *******/

  /** Nothing here fires on failure, is skipped, rolls back or fans out unpredictably. */
  predicate PlainNode(n: Node, cond: Condition) {
    && n.rollback.None?
    && (n.strat.Some? ==> n.strat.value.known)
    && (n.when.Some? ==> cond(n.when.value).Holds? && n.when.value.status != "Failure" && n.when.value.status != "All")
  }

  ghost predicate PlainPlan(p: Plan) {
    && ValidPlan(p)
    && forall q {:trigger PlainNode(At(p.g.root, q), p.cond)} :: IsNode(p.g.root, q) ==>
      PlainNode(At(p.g.root, q), p.cond)
  }

  lemma {:induction false} PlainChain(p: Plan, q: Path)
    requires PlainPlan(p) && IsNode(p.g.root, q)
    ensures !StrategyExcluded(p.g.root, q) && AllKnown(p.g.root, q, -1)
    ensures GuardsFrom(p.g.root, q, p.cond, None).Required?
    ensures forall w :: w in EntryGuards(p.g.root, q) ==> p.cond(w).Holds?
    ensures !AtRollbackEntry(p.g.root, q) && !At(p.g.root, q).kind.Rollback?
    decreases |q|
  {
    var root := p.g.root;
    assert PlainNode(At(root, q), p.cond);
    if At(root, q).strat.Some? {
      assert ValidSpec(At(root, q).strat.value);
    }
    if q == [] {
      assert root.kind.Pipeline?;
    } else {
      PlainChain(p, Up(q));
      assert PlainNode(At(root, Up(q)), p.cond);
      assert LocalShape(At(root, Up(q)));
    }
  }

  lemma PlainUnit(p: Plan, t: Path)
    requires PlainPlan(p) && IsNode(p.g.root, t)
    ensures OwnFactsHold(p.g.root, t, p.cond) && !OrJoined(p.g.root, t) && !SeparatePlanRollback(p.g.root, t)
    ensures Classify(p.g.root, t, p.cond).Required?
  {
    PlainChain(p, t);
    assert PlainNode(At(p.g.root, t), p.cond);
  }

  /** In a plain pipeline the frontier is one climb. */
  lemma PlainFrontier(p: Plan, t: Path)
    requires PlainPlan(p) && IsNode(p.g.root, t)
    ensures LiveFrontier(p.g.root, t, p.cond).undecided == []
    ensures forall q :: q in LiveFrontier(p.g.root, t, p.cond).out <==> q in Climb(p.g.root, t)
  {
    var root, f := p.g.root, LiveFrontier(p.g.root, t, p.cond);
    ValidIsProper(p.g);
    LiveFrontierIsExact(root, t, p.cond);
    if f.undecided != [] {
      assert f.undecided[0] in f.undecided;
      PlainUnit(p, f.undecided[0]);
    }
    ClimbDescends(root, t);
    forall q ensures q in f.out <==> q in Climb(root, t) {
      if q in Climb(root, t) {
        PlainUnit(p, q);
        MetThrough(root, t, p.cond, q, q);
      }
      if q in f.out {
        var m :| m in Climb(root, t) && (m == q || (Classify(root, m, p.cond).SteppedOver? && Met(root, m, p.cond, q)));
        PlainUnit(p, m);
      }
    }
  }

  /******* The order *******/

  /** A runtime instance of a unit with nothing below it. */
  ghost predicate LeafInstance(root: Node, n: Path, ch: Choice, x: string) {
    IsNode(root, n) && IsNamed(At(root, n)) && IsLeaf(root, n) && IsInstance(root, n, ch, x)
  }

  /** One leaf instance must run before another: its unit comes first and it lies in the same branch. */
  ghost predicate Below(root: Node, a: Path, ca: Choice, n: Path, cx: Choice)
    requires IsNode(root, a)
  {
    Before(root, a, n) && Agree(ca, cx, LcaDepth(a, n))
  }

  /** The leaf instance `x` needs the leaf instance `y` to have run. */
  ghost predicate Needs(root: Node, n: Path, cx: Choice, x: string, a: Path, ca: Choice, y: string) {
    LeafInstance(root, n, cx, x) && LeafInstance(root, a, ca, y) && Below(root, a, ca, n, cx)
  }

  /** Everything that must run before a member is a member. */
  ghost predicate DownClosed(root: Node, done: set<string>) {
    forall n, cx, x, a, ca, y {:trigger Needs(root, n, cx, x, a, ca, y)} ::
      Needs(root, n, cx, x, a, ca, y) && x in done ==> y in done
  }

  /******* Sequences of requests *******/

  function Elements(s: seq<string>): set<string> {
    set x | x in s
  }

  /** The record after the given requests were recorded. */
  function RecordAfter(g: OrderGraph, s: seq<string>): PlanRecord {
    if s == [] then PlanRecord({}, {})
    else
      var rec, x := RecordAfter(g, s[..|s| - 1]), s[|s| - 1];
      var t := LookupNode(g, x);
      if t.Some? && IsNode(g.root, t.value)
        then PlanRecord(rec.instances + {x}, rec.logical + {At(g.root, t.value).fqn}) else rec
  }

  /** The verifier allows `x` when the store holds `rec`. */
  ghost predicate Accepts(p: Plan, rec: PlanRecord, x: string)
    requires ValidPlan(p)
  {
    LookupNode(p.g, x).Some? &&
    (LookupIsNode(p.g, x);
    var t := LookupNode(p.g, x).value;
    VerdictOf(p.g.root, t, x, p.cond, VERIFIER_POLICIES, Ask(Reads(p, x), RecordAnswer(rec))).allowed)
  }

  /** The `k`-th request is allowed once the earlier ones are recorded. */
  ghost predicate AcceptedAt(p: Plan, s: seq<string>, k: nat)
    requires ValidPlan(p) && k < |s|
  {
    Accepts(p, RecordAfter(p.g, s[..k]), s[k])
  }

  /** Every request of the sequence is allowed when its turn comes. */
  ghost predicate AcceptedRun(p: Plan, s: seq<string>)
    requires ValidPlan(p)
  {
    forall k :: 0 <= k < |s| ==> AcceptedAt(p, s, k)
  }

  lemma AcceptedPrefix(p: Plan, s: seq<string>, k: nat)
    requires ValidPlan(p) && AcceptedRun(p, s) && k <= |s|
    ensures AcceptedRun(p, s[..k])
  {
    forall j | 0 <= j < k ensures AcceptedAt(p, s[..k], j) {
      assert AcceptedAt(p, s, j);
      assert s[..k][..j] == s[..j];
    }
  }

  ghost predicate IsLeafInstance(root: Node, x: string) {
    exists n, cx :: LeafInstance(root, n, cx, x)
  }

  ghost predicate AllLeafInstances(root: Node, s: seq<string>) {
    forall i :: 0 <= i < |s| ==> IsLeafInstance(root, s[i])
  }

  lemma AcceptsMeans(p: Plan, rec: PlanRecord, x: string)
    requires ValidPlan(p) && LookupNode(p.g, x).Some?
    ensures (LookupIsNode(p.g, x); Accepts(p, rec, x) <==> Admitted(p.g.root, LookupNode(p.g, x).value, x, p.cond, rec))
  {
    LookupIsNode(p.g, x);
    var root, t := p.g.root, LookupNode(p.g, x).value;
    DecisionIsGate(root, t, x, p.cond, Ask(Reads(p, x), RecordAnswer(rec)));
    if !SeparatePlanRollback(root, t) {
      JoinHoldsMeans(root, t, x, p.cond, RecordAnswer(rec));
    }
  }

  lemma {:induction false} AcceptedIsJustified(p: Plan, s: seq<string>)
    requires ValidPlan(p) && AcceptedRun(p, s)
    ensures Justified(p.g, p.cond, RecordAfter(p.g, s))
  {
    if s != [] {
      var front, x := s[..|s| - 1], s[|s| - 1];
      AcceptedPrefix(p, s, |s| - 1);
      AcceptedIsJustified(p, front);
      assert AcceptedAt(p, s, |s| - 1);
      LookupIsNode(p.g, x);
      AcceptsMeans(p, RecordAfter(p.g, front), x);
      JustifiedGrows(p, RecordAfter(p.g, front), x);
    }
  }

  lemma {:induction false} RecordAfterViews(p: Plan, s: seq<string>)
    requires ValidPlan(p) && forall x :: x in s ==> LookupNode(p.g, x).Some?
    ensures var rec := RecordAfter(p.g, s);
      rec.instances == Elements(s) && forall f :: f in rec.logical <==> exists x :: x in s && Folds(p.g, x, f)
  {
    if s != [] {
      var front, x := s[..|s| - 1], s[|s| - 1];
      assert s == front + [x];
      RecordAfterViews(p, front);
      LookupIsNode(p.g, x);
      var rec := RecordAfter(p.g, s);
      forall f ensures f in rec.logical <==> exists y :: y in s && Folds(p.g, y, f) {
        if f in RecordAfter(p.g, front).logical {
          var y :| y in front && Folds(p.g, y, f);
          assert y in s;
        }
        if f == At(p.g.root, LookupNode(p.g, x).value).fqn {
          assert x in s && Folds(p.g, x, f);
        }
        if y :| y in s && Folds(p.g, y, f) {
          assert y == x || y in front;
        }
      }
    }
  }

  lemma LeafInstanceResolves(p: Plan, n: Path, ch: Choice, x: string)
    requires PlainPlan(p) && LeafInstance(p.g.root, n, ch, x)
    ensures LookupNode(p.g, x) == Some(n) && AllKnown(p.g.root, n, -1)
    ensures HasStrategy(p.g.root, n) ==> x !in p.g.byFqn
    ensures !HasStrategy(p.g.root, n) ==> x == At(p.g.root, n).fqn
  {
    PlainChain(p, n);
    InstanceResolves(p.g, n, ch);
  }

  lemma AllResolve(p: Plan, s: seq<string>)
    requires PlainPlan(p) && AllLeafInstances(p.g.root, s)
    ensures forall x :: x in s ==> LookupNode(p.g, x).Some?
  {
    forall x | x in s ensures LookupNode(p.g, x).Some? {
      var i :| 0 <= i < |s| && s[i] == x;
      assert IsLeafInstance(p.g.root, s[i]);
      var n, cx :| LeafInstance(p.g.root, n, cx, x);
      LeafInstanceResolves(p, n, cx, x);
    }
  }

  /** For leaf instances the two store views say the same. */
  lemma RunIsMember(p: Plan, s: seq<string>, a: Path, ca: Choice, y: string)
    requires PlainPlan(p) && AllLeafInstances(p.g.root, s) && LeafInstance(p.g.root, a, ca, y)
    ensures HasRun(RecordAfter(p.g, s), y) <==> y in s
  {
    AllResolve(p, s);
    RecordAfterViews(p, s);
    LeafInstanceResolves(p, a, ca, y);
    if y in RecordAfter(p.g, s).logical {
      var r :| r in s && Folds(p.g, r, y);
      var i :| 0 <= i < |s| && s[i] == r;
      assert IsLeafInstance(p.g.root, s[i]);
      var n, cx :| LeafInstance(p.g.root, n, cx, r);
      LeafInstanceResolves(p, n, cx, r);
      assert p.g.byFqn[y] == n;
    }
  }

  /******* Accepted implies down-closed *******/

  /** What an accepted instance needed is there. */
  lemma AcceptedNeeds(p: Plan, front: seq<string>, n: Path, cx: Choice, x: string, a: Path, ca: Choice, y: string)
    requires PlainPlan(p) && AllLeafInstances(p.g.root, front)
    requires Justified(p.g, p.cond, RecordAfter(p.g, front)) && DownClosed(p.g.root, Elements(front))
    requires Needs(p.g.root, n, cx, x, a, ca, y) && Accepts(p, RecordAfter(p.g, front), x)
    ensures y in front
  {
    var root := p.g.root;
    var m, cm := AcceptedPredecessor(p, front, n, cx, x, a, ca);
    RunIsMember(p, front, m, cm, Render(root, m, cm));
    if m == a {
      AcceptedDirectly(p, front, n, cx, x, a, ca, y);
    } else {
      NeedsThrough(root, Elements(front), m, cm, Render(root, m, cm), a, ca, y);
    }
  }

  lemma NeedsThrough(root: Node, done: set<string>, m: Path, cm: Choice, z: string, a: Path, ca: Choice, y: string)
    requires DownClosed(root, done) && z in done && LeafInstance(root, m, cm, z) && LeafInstance(root, a, ca, y)
    requires Below(root, a, ca, m, cm)
    ensures y in done
  {
    assert Needs(root, m, cm, z, a, ca, y);
  }

  /** An accepted instance's direct predecessors have run in its branch. */
  lemma AcceptedBranchRan(p: Plan, front: seq<string>, n: Path, cx: Choice, x: string, m: Path)
    requires PlainPlan(p) && Justified(p.g, p.cond, RecordAfter(p.g, front))
    requires LeafInstance(p.g.root, n, cx, x) && Accepts(p, RecordAfter(p.g, front), x)
    requires m in Climb(p.g.root, n)
    ensures IsNode(p.g.root, m) && IsNamed(At(p.g.root, m)) && IsLeaf(p.g.root, m)
    ensures BranchRan(p.g.root, m, n, cx, RecordAfter(p.g, front))
  {
    var root, rec := p.g.root, RecordAfter(p.g, front);
    ValidIsProper(p.g);
    LeafInstanceResolves(p, n, cx, x);
    AcceptsMeans(p, rec, x);
    PlainUnit(p, n);
    PlainFrontier(p, n);
    ClimbIsNamed(root, n, m);
    ClimbDescends(root, n);
    PruningIsSound(p.g, p.cond, rec, n, cx, m);
  }

  /** One direct predecessor between `x` and what it needs, in the same branch. */
  lemma AcceptedPredecessor(p: Plan, front: seq<string>, n: Path, cx: Choice, x: string, a: Path, ca: Choice)
    returns (m: Path, cm: Choice)
    requires PlainPlan(p) && Justified(p.g, p.cond, RecordAfter(p.g, front))
    requires LeafInstance(p.g.root, n, cx, x) && Accepts(p, RecordAfter(p.g, front), x)
    requires IsNode(p.g.root, a) && IsLeaf(p.g.root, a) && IsChoice(p.g.root, a, -1, ca) && |ca| == |a| + 1
    requires Below(p.g.root, a, ca, n, cx)
    ensures IsNode(p.g.root, m) && IsChoice(p.g.root, m, -1, cm) && |cm| == |m| + 1
    ensures LeafInstance(p.g.root, m, cm, Render(p.g.root, m, cm)) && m in Climb(p.g.root, n)
    ensures HasRun(RecordAfter(p.g, front), Render(p.g.root, m, cm))
    ensures m == a || Below(p.g.root, a, ca, m, cm)
  {
    var root := p.g.root;
    AllForward(p, n);
    AllForward(p, a);
    m := ClimbCovers(root, [], n, a);
    AcceptedBranchRan(p, front, n, cx, x, m);
    cm := Interpolate(root, a, m, n, ca, cx);
  }

  lemma AcceptedDirectly(p: Plan, front: seq<string>, n: Path, cx: Choice, x: string, a: Path, ca: Choice, y: string)
    requires PlainPlan(p) && AllLeafInstances(p.g.root, front) && Justified(p.g, p.cond, RecordAfter(p.g, front))
    requires Needs(p.g.root, n, cx, x, a, ca, y) && Accepts(p, RecordAfter(p.g, front), x)
    requires a in Climb(p.g.root, n)
    ensures y in front
  {
    AcceptedBranchRan(p, front, n, cx, x, a);
    RunIsMember(p, front, a, ca, y);
  }

  lemma {:induction false} AllForward(p: Plan, q: Path)
    requires PlainPlan(p) && IsNode(p.g.root, q)
    ensures Forward(p.g.root, q)
    decreases |q|
  {
    if q != [] {
      AllForward(p, Up(q));
      PlainChain(p, q);
    }
  }

  lemma NothingIsClosed(root: Node)
    ensures DownClosed(root, Elements([]))
  {
  }

  lemma LeafInstancesFront(root: Node, s: seq<string>)
    requires AllLeafInstances(root, s) && s != []
    ensures AllLeafInstances(root, s[..|s| - 1])
  {
  }

  lemma LastIsAccepted(p: Plan, s: seq<string>)
    requires ValidPlan(p) && AcceptedRun(p, s) && s != []
    ensures AcceptedRun(p, s[..|s| - 1]) && Accepts(p, RecordAfter(p.g, s[..|s| - 1]), s[|s| - 1])
  {
    AcceptedPrefix(p, s, |s| - 1);
    assert AcceptedAt(p, s, |s| - 1);
  }

  lemma {:induction false} AcceptedIsDownClosed(p: Plan, s: seq<string>)
    requires PlainPlan(p) && AllLeafInstances(p.g.root, s) && AcceptedRun(p, s)
    ensures DownClosed(p.g.root, Elements(s))
    decreases |s|
  {
    if s == [] {
      NothingIsClosed(p.g.root);
    } else {
      var front := s[..|s| - 1];
      LeafInstancesFront(p.g.root, s);
      LastIsAccepted(p, s);
      AcceptedIsDownClosed(p, front);
      AcceptedIsJustified(p, front);
      ClosedWithOneMore(p, front, s[|s| - 1]);
      FrontAndLast(s);
    }
  }

  lemma ClosedWithOneMore(p: Plan, front: seq<string>, x: string)
    requires PlainPlan(p) && AllLeafInstances(p.g.root, front)
    requires Justified(p.g, p.cond, RecordAfter(p.g, front)) && DownClosed(p.g.root, Elements(front))
    requires Accepts(p, RecordAfter(p.g, front), x)
    ensures DownClosed(p.g.root, Elements(front + [x]))
  {
    forall n, cx, z, a, ca, y | Needs(p.g.root, n, cx, z, a, ca, y) && z in Elements(front + [x])
      ensures y in Elements(front + [x])
    {
      OneMoreDownClosed(p, front, x, n, cx, z, a, ca, y);
      InLonger(front, x, y);
    }
  }

  lemma InLonger<T>(s: seq<T>, x: T, y: T)
    ensures y in s ==> y in s + [x]
  {
  }

  lemma OneMoreDownClosed(p: Plan, front: seq<string>, x: string, n: Path, cx: Choice, z: string, a: Path, ca: Choice,
      y: string)
    requires PlainPlan(p) && AllLeafInstances(p.g.root, front)
    requires Justified(p.g, p.cond, RecordAfter(p.g, front)) && DownClosed(p.g.root, Elements(front))
    requires Accepts(p, RecordAfter(p.g, front), x)
    requires Needs(p.g.root, n, cx, z, a, ca, y)
    ensures z in front + [x] ==> y in front
  {
    if z in front {
      ClosedNeeds(p.g.root, front, n, cx, z, a, ca, y);
    } else if z == x {
      AcceptedNeeds(p, front, n, cx, z, a, ca, y);
    }
  }

  lemma ClosedNeeds(root: Node, front: seq<string>, n: Path, cx: Choice, z: string, a: Path, ca: Choice, y: string)
    requires DownClosed(root, Elements(front)) && Needs(root, n, cx, z, a, ca, y) && z in front
    ensures y in front
  {
    assert z in Elements(front);
  }

  /******* Down-closed implies accepted *******/

  /** A leaf instance whose needs are all recorded is allowed. */
  lemma ReadyIsAccepted(p: Plan, front: seq<string>, n: Path, cx: Choice, x: string)
    requires PlainPlan(p) && AllLeafInstances(p.g.root, front) && LeafInstance(p.g.root, n, cx, x)
    requires forall a, ca, y :: Needs(p.g.root, n, cx, x, a, ca, y) ==> y in front
    ensures Accepts(p, RecordAfter(p.g, front), x)
  {
    LeafInstanceResolves(p, n, cx, x);
    AcceptsMeans(p, RecordAfter(p.g, front), x);
    PlainUnit(p, n);
    PlainFrontier(p, n);
    ReadyFrontierRan(p, front, n, cx, x);
  }

  lemma ReadyFrontierRan(p: Plan, front: seq<string>, n: Path, cx: Choice, x: string)
    requires PlainPlan(p) && AllLeafInstances(p.g.root, front) && LeafInstance(p.g.root, n, cx, x)
    requires forall a, ca, y :: Needs(p.g.root, n, cx, x, a, ca, y) ==> y in front
    ensures FrontierRan(p.g.root, n, x, p.cond, RecordAnswer(RecordAfter(p.g, front)))
  {
    var root, rec := p.g.root, RecordAfter(p.g, front);
    PlainUnit(p, n);
    forall q | q in GatingNodes(root, n, p.cond)
      ensures IsNode(root, q) && !Unverifiable(AncestorOf(root, q, n, x))
      ensures forall f :: f in Effective(root, q, n, x) ==> RecordAnswer(rec)(f).DidRun?
    {
      PlainGating(p, n, q);
      ReadyPredecessor(p, front, n, cx, x, q);
    }
  }

  lemma PlainGating(p: Plan, n: Path, q: Path)
    requires PlainPlan(p) && IsNode(p.g.root, n) && q in GatingNodes(p.g.root, n, p.cond)
    ensures q in Climb(p.g.root, n)
  {
    PlainFrontier(p, n);
    FrontierIsNodes(p.g.root, n, p.cond);
    PrunedMembersAll(p.g.root, LiveFrontier(p.g.root, n, p.cond).out);
  }

  lemma PrunedMembersAll(root: Node, nodes: seq<Path>)
    requires WellShaped(root) && AllNodes(root, nodes)
    ensures forall p :: p in Pruned(root, nodes, |nodes|) ==> p in nodes
  {
    forall p | p in Pruned(root, nodes, |nodes|) ensures p in nodes {
      PrunedMembers(root, nodes, |nodes|, p);
    }
  }

  lemma ReadyPredecessor(p: Plan, front: seq<string>, n: Path, cx: Choice, x: string, q: Path)
    requires PlainPlan(p) && AllLeafInstances(p.g.root, front) && LeafInstance(p.g.root, n, cx, x)
    requires forall a, ca, y :: Needs(p.g.root, n, cx, x, a, ca, y) ==> y in front
    requires q in Climb(p.g.root, n)
    ensures IsNode(p.g.root, q) && !Unverifiable(AncestorOf(p.g.root, q, n, x))
    ensures forall f :: f in Effective(p.g.root, q, n, x) ==> HasRun(RecordAfter(p.g, front), f)
  {
    var root := p.g.root;
    ValidIsProper(p.g);
    ClimbIsNamed(root, n, q);
    ClimbDescends(root, n);
    PlainChain(p, q);
    if HasStrategy(root, q) {
      KnownIsEnumerated(root, q, n, Render(root, n, cx));
    }
    forall f | f in Effective(root, q, n, x) ensures HasRun(RecordAfter(p.g, front), f) {
      EffectiveMembers(root, q, n, cx, f);
      var ch :| IsChoice(root, q, -1, ch) && Agree(ch, cx, LcaDepth(q, n)) && f == Render(root, q, ch);
      ChoiceAt(root, q, -1, ch, 0);
      assert Needs(root, n, cx, x, q, ch, f);
      RunIsMember(p, front, q, ch, f);
    }
  }

  /** An instance never needs itself. */
  lemma NeedsIsStrict(p: Plan, n: Path, cx: Choice, x: string, a: Path, ca: Choice, y: string)
    requires PlainPlan(p) && Needs(p.g.root, n, cx, x, a, ca, y)
    ensures x != y && Rank(p.g.root, a) < Rank(p.g.root, n)
  {
    LeafInstanceResolves(p, n, cx, x);
    LeafInstanceResolves(p, a, ca, y);
    BeforeRank(p.g.root, a, n);
  }

  /** Every prefix of the sequence is down-closed. */
  ghost predicate IsLinearExtension(root: Node, s: seq<string>) {
    forall k :: 0 <= k <= |s| ==> DownClosed(root, Elements(s[..k]))
  }

  /**
    Accepted runs are exactly the linear extensions: from an empty store, a
    sequence of leaf instances is allowed request by request if and only if each
    of its prefixes is down-closed under the branch-aware positional order.
  */
  lemma AcceptedRunsAreLinearExtensions(p: Plan, s: seq<string>)
    requires PlainPlan(p) && AllLeafInstances(p.g.root, s)
    ensures AcceptedRun(p, s) <==> IsLinearExtension(p.g.root, s)
  {
    if AcceptedRun(p, s) {
      forall k | 0 <= k <= |s| ensures DownClosed(p.g.root, Elements(s[..k])) {
        AcceptedPrefix(p, s, k);
        AcceptedIsDownClosed(p, s[..k]);
      }
    }
    if IsLinearExtension(p.g.root, s) {
      forall k | 0 <= k < |s| ensures AcceptedAt(p, s, k) {
        ExtensionAccepts(p, s, k);
      }
    }
  }

  lemma ExtensionAccepts(p: Plan, s: seq<string>, k: nat)
    requires PlainPlan(p) && AllLeafInstances(p.g.root, s) && IsLinearExtension(p.g.root, s) && k < |s|
    ensures AcceptedAt(p, s, k)
  {
    assert IsLeafInstance(p.g.root, s[k]);
    var n, cx :| LeafInstance(p.g.root, n, cx, s[k]);
    forall a, ca, y | Needs(p.g.root, n, cx, s[k], a, ca, y) ensures y in s[..k] {
      NeededBefore(p, s, k, n, cx, a, ca, y);
    }
    ReadyIsAccepted(p, s[..k], n, cx, s[k]);
  }

  lemma NeededBefore(p: Plan, s: seq<string>, k: nat, n: Path, cx: Choice, a: Path, ca: Choice, y: string)
    requires PlainPlan(p) && IsLinearExtension(p.g.root, s) && k < |s| && Needs(p.g.root, n, cx, s[k], a, ca, y)
    ensures y in s[..k]
  {
    Taken(s, k);
    assert DownClosed(p.g.root, Elements(s[..k + 1]));
    assert s[k] in Elements(s[..k + 1]);
    assert y in Elements(s[..k + 1]);
    NeedsIsStrict(p, n, cx, s[k], a, ca, y);
  }

  /******* No deadlock, and document order *******/

  /** Below any instance that is still missing there is a missing one that is ready. */
  lemma {:induction false} ReadyInstance(p: Plan, s: seq<string>, n: Path, cx: Choice, x: string)
    returns (m: Path, cm: Choice, y: string)
    requires PlainPlan(p) && LeafInstance(p.g.root, n, cx, x) && x !in s
    ensures LeafInstance(p.g.root, m, cm, y) && y !in s
    ensures forall a, ca, z :: Needs(p.g.root, m, cm, y, a, ca, z) ==> z in s
    decreases if IsNode(p.g.root, n) then Rank(p.g.root, n) else 0
  {
    if a, ca, z :| Needs(p.g.root, n, cx, x, a, ca, z) && z !in s {
      NeedsIsStrict(p, n, cx, x, a, ca, z);
      m, cm, y := ReadyInstance(p, s, a, ca, z);
    } else {
      m, cm, y := n, cx, x;
    }
  }

  /** No accepted run is stuck while an instance remains. */
  lemma AcceptedRunsExtend(p: Plan, s: seq<string>, n: Path, cx: Choice, x: string) returns (y: string)
    requires PlainPlan(p) && AllLeafInstances(p.g.root, s) && AcceptedRun(p, s)
    requires LeafInstance(p.g.root, n, cx, x) && x !in s
    ensures y !in s && AllLeafInstances(p.g.root, s + [y]) && AcceptedRun(p, s + [y])
  {
    var m, cm;
    m, cm, y := ReadyInstance(p, s, n, cx, x);
    ReadyIsAccepted(p, s, m, cm, y);
    OneLeafInstanceMore(p.g.root, s, m, cm, y);
    AcceptedOneMore(p, s, y);
  }

  lemma OneLeafInstanceMore(root: Node, s: seq<string>, m: Path, cm: Choice, y: string)
    requires AllLeafInstances(root, s) && LeafInstance(root, m, cm, y)
    ensures AllLeafInstances(root, s + [y])
  {
    assert IsLeafInstance(root, y);
  }

  lemma AcceptedOneMore(p: Plan, s: seq<string>, y: string)
    requires ValidPlan(p) && AcceptedRun(p, s) && Accepts(p, RecordAfter(p.g, s), y)
    ensures AcceptedRun(p, s + [y])
  {
    var s' := s + [y];
    assert s'[..|s|] == s;
    forall k | 0 <= k < |s'| ensures AcceptedAt(p, s', k) {
      if k < |s| {
        assert s'[..k] == s[..k];
        assert AcceptedAt(p, s, k);
      }
    }
  }

  /** Units are requested in document order, each with all earlier instances done. */
  ghost predicate InDocumentOrder(root: Node, s: seq<string>) {
    forall k, n, cx, a, ca, y {:trigger LeafInstance(root, n, cx, s[k]), LeafInstance(root, a, ca, y)} ::
      0 <= k < |s| && LeafInstance(root, n, cx, s[k]) && LeafInstance(root, a, ca, y) &&
        Rank(root, a) < Rank(root, n) ==>
        y in s[..k]
  }

  /** Document order is always accepted. */
  lemma DocumentOrderIsAccepted(p: Plan, s: seq<string>)
    requires PlainPlan(p) && AllLeafInstances(p.g.root, s) && InDocumentOrder(p.g.root, s)
    ensures AcceptedRun(p, s)
  {
    forall k | 0 <= k < |s| ensures AcceptedAt(p, s, k) {
      assert IsLeafInstance(p.g.root, s[k]);
      var n, cx :| LeafInstance(p.g.root, n, cx, s[k]);
      forall a, ca, y | Needs(p.g.root, n, cx, s[k], a, ca, y) ensures y in s[..k] {
        NeedsIsStrict(p, n, cx, s[k], a, ca, y);
      }
      ReadyIsAccepted(p, s[..k], n, cx, s[k]);
    }
  }
}
