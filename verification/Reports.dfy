/**
  What a verdict reports: which violations, naming what, and which policy answers for
  each (verifier/pipeline/evaluate.go: EvaluateStep, conditionViolations,
  ancestorViolations, applyPolicy).
*/
module Reports {
  import opened Common
  import opened Strategy
  import opened Graph
  import opened Instances
  import opened Frontier
  import opened Evaluate
  import opened Declared
  import opened Verdicts

  /******* Policies *******/

  datatype Relaxation = RelaxCondition | RelaxConditionUnknown | RelaxAncestor | RelaxRuntimeFanout |
    RelaxRunStateUnknown | RelaxPipelineRollback

  /** One policy that ignores everything it is asked about, and no other. */
  function Relaxing(r: Relaxation): Policies {
    var accepting: Policy := Some(v => true);
    match r
    case RelaxCondition => FAIL_CLOSED.(condition := accepting)
    case RelaxConditionUnknown => FAIL_CLOSED.(conditionUnknown := accepting)
    case RelaxAncestor => FAIL_CLOSED.(ancestor := accepting)
    case RelaxRuntimeFanout => FAIL_CLOSED.(runtimeFanout := accepting)
    case RelaxRunStateUnknown => FAIL_CLOSED.(runStateUnknown := accepting)
    case RelaxPipelineRollback => FAIL_CLOSED.(pipelineRollback := accepting)
  }

  /** `v` is of the kind that the policy is named after. */
  predicate IsOf(v: Violation, r: Relaxation) {
    match r
    case RelaxCondition => v.ConditionViolation?
    case RelaxConditionUnknown => v.ConditionUnknown?
    case RelaxAncestor => v.AncestorDidNotRun?
    case RelaxRuntimeFanout => v.RuntimeFanout?
    case RelaxRunStateUnknown => v.RunStateUnknown?
    case RelaxPipelineRollback => v.PipelineRollbackGate?
  }

  lemma OneAnswers(r: Relaxation, v: Violation)
    ensures ApplyPolicy(PolicyFor(Relaxing(r), v), v) <==> IsOf(v, r)
  {
  }

  /** One accepting policy waives the violations of its own kind and no other. */
  lemma EachPolicyAnswersItsKind(r: Relaxation, vs: seq<Violation>)
    ensures AllIgnored(SettleAll(Relaxing(r), vs)) <==> forall v :: v in vs ==> IsOf(v, r)
  {
    IgnoredMeans(Relaxing(r), vs);
    forall v | v in vs ensures ApplyPolicy(PolicyFor(Relaxing(r), v), v) <==> IsOf(v, r) {
      OneAnswers(r, v);
    }
  }

  lemma IgnoredMeans(pol: Policies, vs: seq<Violation>)
    ensures AllIgnored(SettleAll(pol, vs)) <==> forall v :: v in vs ==> ApplyPolicy(PolicyFor(pol, v), v)
  {
    var settled := SettleAll(pol, vs);
    forall i | 0 <= i < |vs| ensures settled[i].ignored <==> ApplyPolicy(PolicyFor(pol, vs[i]), vs[i]) {
      assert settled[i] == Settle(pol, vs[i]);
    }
    if AllIgnored(settled) {
      forall v | v in vs ensures ApplyPolicy(PolicyFor(pol, v), v) {
        var i :| 0 <= i < |vs| && vs[i] == v;
        assert settled[i].ignored;
      }
    }
  }

  /******* The step's own violations *******/

  /** What a guard kind says: a status test, or else an expression. */
  function KindIs(w: When): ConditionKind {
    if w.status == "" then ExpressionGuard else StatusGuard
  }

  /** `v` reports guard `w`, failed or undecided. */
  predicate ReportsGuard(v: Violation, fqn: string, w: When, answer: Guard) {
    match answer
    case Holds => false
    case Fails => v == ConditionViolation(w.ownerFqn, w.level, KindIs(w), w.expression, w.status, false)
    case Unevaluable(err) =>
      v == ConditionUnknown(fqn, w.ownerFqn, w.level, KindIs(w), w.expression, w.status, err, false)
  }

  lemma {:induction false} GuardReports(fqn: string, ws: seq<When>, cond: Condition, v: Violation)
    ensures v in ConditionViolations(fqn, ws, cond) <==> exists w :: w in ws && ReportsGuard(v, fqn, w, cond(w))
  {
    if ws != [] {
      GuardReports(fqn, ws[..|ws| - 1], cond, v);
      FrontAndLast(ws);
    }
  }

  /**
    What is reported about a step itself: that its strategy excludes every instance;
    or else that its instances are unknown, with the cause; and every guard of its
    own, or of a container it is an entry of, that fails or is undecided.
  */
  lemma OwnReports(root: Node, t: Path, cond: Condition, v: Violation)
    requires WellFormed(root) && IsNode(root, t)
    ensures v in OwnViolations(root, t, cond) <==>
      || (Excluded(root, t) &&
          v == ConditionViolation(At(root, t).fqn, LevelUnset, StrategyExcludedFact, "", "", false))
      || (!Excluded(root, t) && !KnownBelow(root, t, -1) &&
          v == RuntimeFanout(At(root, t).fqn, StrategyStatus(root, t), FanoutSelf, false))
      || (exists k, w :: 0 <= k <= |t| && GuardsEntry(root, t, k, w) && ReportsGuard(v, At(root, t).fqn, w, cond(w)))
  {
    ExcludedIs(root, t);
    KnownIs(root, t, -1);
    OwnStatusIs(root, t);
    GuardReports(At(root, t).fqn, Conditions(root, t), cond, v);
    forall w ensures w in Conditions(root, t) <==> exists k :: 0 <= k <= |t| && GuardsEntry(root, t, k, w) {
      ConditionsAre(root, t, w);
    }
  }

  lemma OwnStatusIs(root: Node, t: Path)
    requires WellFormed(root) && IsNode(root, t)
    ensures var s := OwnStatus(root, t);
      if !StrategyExcluded(root, t) && !AllKnown(root, t, -1) then
        s == StrategyStatus(root, t) && !s.Unset? && !s.Enumerable?
      else s == Unset
  {
    if !StrategyExcluded(root, t) {
      StatusIsReal(root, t);
      NoLevels(root, t, -1);
      if !HasStrategy(root, t) {
        UnknownNeedsStrategy(root, t);
      }
    }
  }

  /******* The gate's violations *******/

  lemma AskFront(fqns: seq<string>, ran: string -> Answer)
    requires fqns != []
    ensures Ask(fqns, ran)[..|fqns| - 1] == Ask(fqns[..|fqns| - 1], ran)
    ensures Ask(fqns, ran)[|fqns| - 1] == ran(fqns[|fqns| - 1])
  {
  }

  lemma {:induction false} MissingMembers(fqns: seq<string>, ran: string -> Answer, f: string)
    ensures f in Missing(fqns, Ask(fqns, ran)) <==> f in fqns && ran(f).DidNotRun?
  {
    if fqns != [] {
      AskFront(fqns, ran);
      MissingMembers(fqns[..|fqns| - 1], ran, f);
      FrontAndLast(fqns);
    }
  }

  lemma {:induction false} UnknownMembers(fqns: seq<string>, ran: string -> Answer, v: Violation)
    ensures v in UnknownRuns(fqns, Ask(fqns, ran)) <==>
      exists f :: f in fqns && ran(f).RunUnknown? && v == RunStateUnknown(f, ran(f).err, false)
  {
    if fqns != [] {
      AskFront(fqns, ran);
      UnknownMembers(fqns[..|fqns| - 1], ran, v);
      FrontAndLast(fqns);
    }
  }

  lemma {:induction false} CandidateMembers(fqns: seq<string>, ran: string -> Answer, f: string)
    ensures f in Candidates(fqns, Ask(fqns, ran)) <==> f in fqns && !ran(f).RunUnknown?
  {
    if fqns != [] {
      AskFront(fqns, ran);
      CandidateMembers(fqns[..|fqns| - 1], ran, f);
      FrontAndLast(fqns);
    }
  }

  /** The reads of one ancestor. */
  function ReadsOf(a: Ancestor): seq<string> {
    if a.instances != [] then a.instances else [a.fqn]
  }

  /** `v` reports ancestor `a` under AND: not verifiable, of unknown run-state, or missing. */
  predicate ReportsAncestor(v: Violation, a: Ancestor, ran: string -> Answer) {
    && !a.excluded
    && (a.expands && a.instances == [] ==> v == RuntimeFanout(a.fqn, a.status, FanoutAncestor, false))
    && (!(a.expands && a.instances == []) ==> ReportsUnknown(v, a, ran) || ReportsMissing(v, a, ran))
  }

  predicate ReportsUnknown(v: Violation, a: Ancestor, ran: string -> Answer) {
    exists f :: f in ReadsOf(a) && ran(f).RunUnknown? && v == RunStateUnknown(f, ran(f).err, false)
  }

  predicate ReportsMissing(v: Violation, a: Ancestor, ran: string -> Answer) {
    var missing := Missing(ReadsOf(a), Ask(ReadsOf(a), ran));
    missing != [] && v == AncestorDidNotRun(JoinAnd, a.fqn, missing, false)
  }

  lemma AndOneIs(a: Ancestor, ran: string -> Answer)
    requires !a.excluded && !Unverifiable(a)
    ensures AndOne(a, Ask(Queries([a]), ran)) ==
      UnknownRuns(ReadsOf(a), Ask(ReadsOf(a), ran)) +
      var missing := Missing(ReadsOf(a), Ask(ReadsOf(a), ran));
      if missing != [] then [AncestorDidNotRun(JoinAnd, a.fqn, missing, false)] else []
  {
    assert Queries([a][..0]) == [];
    assert Queries([a]) == ReadsOf(a);
  }

  lemma OneReports(a: Ancestor, ran: string -> Answer, v: Violation)
    ensures v in AndOne(a, Ask(Queries([a]), ran)) <==> ReportsAncestor(v, a, ran)
  {
    if !a.excluded && !Unverifiable(a) {
      AndOneIs(a, ran);
      UnknownMembers(ReadsOf(a), ran, v);
    }
  }

  lemma AskConcat(a: seq<string>, b: seq<string>, ran: string -> Answer)
    ensures Ask(a + b, ran) == Ask(a, ran) + Ask(b, ran)
  {
  }

  lemma AskSplits(ancs: seq<Ancestor>, ran: string -> Answer)
    requires ancs != []
    ensures var n := |ancs| - 1;
      var k := |Queries(ancs[..n])|;
      && Queries(ancs) == Queries(ancs[..n]) + Queries([ancs[n]])
      && Ask(Queries(ancs), ran)[..k] == Ask(Queries(ancs[..n]), ran)
      && Ask(Queries(ancs), ran)[k..] == Ask(Queries([ancs[n]]), ran)
  {
    var n := |ancs| - 1;
    QueriesSnoc(ancs);
    AskConcat(Queries(ancs[..n]), Queries([ancs[n]]), ran);
    WholeConcat(Ask(Queries(ancs[..n]), ran), Ask(Queries([ancs[n]]), ran));
  }

  /** Some ancestor of the list is reported as `v`. */
  predicate SomeReport(v: Violation, ancs: seq<Ancestor>, ran: string -> Answer) {
    exists i :: 0 <= i < |ancs| && ReportsAncestor(v, ancs[i], ran)
  }

  lemma ReportLast(v: Violation, ancs: seq<Ancestor>, ran: string -> Answer)
    requires ancs != []
    ensures SomeReport(v, ancs, ran) <==>
      SomeReport(v, ancs[..|ancs| - 1], ran) || ReportsAncestor(v, ancs[|ancs| - 1], ran)
  {
    var n := |ancs| - 1;
    if i :| 0 <= i < n && ReportsAncestor(v, ancs[..n][i], ran) {
      assert ReportsAncestor(v, ancs[i], ran);
    }
    if i :| 0 <= i < |ancs| && ReportsAncestor(v, ancs[i], ran) {
      assert i < n ==> ancs[..n][i] == ancs[i];
    }
  }

  /** Under AND each ancestor that is not complete is reported by itself, with the instances it misses. */
  lemma {:induction false} AndReports(ancs: seq<Ancestor>, ran: string -> Answer, v: Violation)
    ensures v in AndViolations(ancs, Ask(Queries(ancs), ran)) <==> SomeReport(v, ancs, ran)
  {
    if ancs != [] {
      var n := |ancs| - 1;
      AndReports(ancs[..n], ran, v);
      OneReports(ancs[n], ran, v);
      AndIsLast(ancs, ran);
      ReportLast(v, ancs, ran);
    }
  }

  lemma AndIsLast(ancs: seq<Ancestor>, ran: string -> Answer)
    requires ancs != []
    ensures var n := |ancs| - 1;
      AndViolations(ancs, Ask(Queries(ancs), ran)) ==
        AndViolations(ancs[..n], Ask(Queries(ancs[..n]), ran)) + AndOne(ancs[n], Ask(Queries([ancs[n]]), ran))
  {
    AskSplits(ancs, ran);
  }

  /** `v` reports that the instances of ancestor `a` are unknown. */
  predicate ReportsFanout(v: Violation, a: Ancestor) {
    !a.excluded && a.expands && a.instances == [] && v == RuntimeFanout(a.fqn, a.status, FanoutAncestor, false)
  }

  predicate SomeFanout(v: Violation, ancs: seq<Ancestor>) {
    exists i :: 0 <= i < |ancs| && ReportsFanout(v, ancs[i])
  }

  lemma FanoutLast(v: Violation, ancs: seq<Ancestor>)
    requires ancs != []
    ensures SomeFanout(v, ancs) <==>
      SomeFanout(v, ancs[..|ancs| - 1]) || ReportsFanout(v, ancs[|ancs| - 1])
  {
    var n := |ancs| - 1;
    if i :| 0 <= i < n && ReportsFanout(v, ancs[..n][i]) {
      assert ReportsFanout(v, ancs[i]);
    }
    if i :| 0 <= i < |ancs| && ReportsFanout(v, ancs[i]) {
      assert i < n ==> ancs[..n][i] == ancs[i];
    }
  }

  lemma {:induction false} FanoutMembers(ancs: seq<Ancestor>, v: Violation)
    ensures v in Fanouts(ancs) <==> SomeFanout(v, ancs)
  {
    if ancs != [] {
      FanoutMembers(ancs[..|ancs| - 1], v);
      FanoutLast(v, ancs);
    }
  }

  /** `f` is a read of a live ancestor whose instances are known. */
  predicate IsCandidate(ancs: seq<Ancestor>, f: string) {
    exists i :: 0 <= i < |ancs| && !ancs[i].excluded && !(ancs[i].expands && ancs[i].instances == []) &&
      f in ReadsOf(ancs[i])
  }

  /**
    Under OR nothing is reported when a candidate ran or no ancestor is live;
    otherwise every fan-out that cannot be verified and every unknown run-state
    is, and the remaining candidates together as one group.
  */
  lemma OrReports(ancs: seq<Ancestor>, ran: string -> Answer, v: Violation)
    ensures v in OrViolations(ancs, Ask(Queries(ancs), ran)) <==>
      && (forall f :: IsCandidate(ancs, f) ==> !ran(f).DidRun?)
      && (exists i :: 0 <= i < |ancs| && !ancs[i].excluded)
      && (SomeFanout(v, ancs) || SomeUnknown(v, ancs, ran) || ReportsGroup(v, ancs, ran))
  {
    var qs := Queries(ancs);
    AnyCandidateRan(ancs, ran);
    FanoutMembers(ancs, v);
    UnknownCandidates(ancs, ran, v);
    OrViolationsAre(ancs, ran, v);
  }

  /** `v` reports a candidate whose run-state is unknown. */
  predicate SomeUnknown(v: Violation, ancs: seq<Ancestor>, ran: string -> Answer) {
    exists f :: f in Queries(ancs) && IsCandidate(ancs, f) && ran(f).RunUnknown? &&
      v == RunStateUnknown(f, ran(f).err, false)
  }

  /** `v` reports the candidates that did not run, as one group. */
  predicate ReportsGroup(v: Violation, ancs: seq<Ancestor>, ran: string -> Answer) {
    var group := Candidates(Queries(ancs), Ask(Queries(ancs), ran));
    group != [] && v == AncestorDidNotRun(JoinOr, "", group, false)
  }

  lemma AnyCandidateRan(ancs: seq<Ancestor>, ran: string -> Answer)
    ensures DidRun in Ask(Queries(ancs), ran) <==> !(forall f :: IsCandidate(ancs, f) ==> !ran(f).DidRun?)
  {
    AskMeans(Queries(ancs), ran);
    forall f ensures f in Queries(ancs) <==> IsCandidate(ancs, f) {
      QueriesMembers(ancs, f);
    }
  }

  lemma UnknownCandidates(ancs: seq<Ancestor>, ran: string -> Answer, v: Violation)
    ensures v in UnknownRuns(Queries(ancs), Ask(Queries(ancs), ran)) <==> SomeUnknown(v, ancs, ran)
  {
    UnknownMembers(Queries(ancs), ran, v);
    forall f ensures f in Queries(ancs) <==> IsCandidate(ancs, f) {
      QueriesMembers(ancs, f);
    }
  }

  lemma OrViolationsAre(ancs: seq<Ancestor>, ran: string -> Answer, v: Violation)
    ensures v in OrViolations(ancs, Ask(Queries(ancs), ran)) <==>
      && DidRun !in Ask(Queries(ancs), ran)
      && (exists i :: 0 <= i < |ancs| && !ancs[i].excluded)
      && (v in Fanouts(ancs) || v in UnknownRuns(Queries(ancs), Ask(Queries(ancs), ran)) || ReportsGroup(v, ancs, ran))
  {
  }

  /** The group that an OR reports are its candidates whose run-state is known. */
  lemma OrGroupIs(ancs: seq<Ancestor>, ran: string -> Answer, f: string)
    ensures f in Candidates(Queries(ancs), Ask(Queries(ancs), ran)) <==> IsCandidate(ancs, f) && !ran(f).RunUnknown?
  {
    QueriesMembers(ancs, f);
    CandidateMembers(Queries(ancs), ran, f);
  }

  /******* The listed ancestors *******/

  lemma {:induction false} RefsAre(ancs: seq<Ancestor>, x: string)
    ensures x in AncestorRefs(ancs) <==> exists i :: 0 <= i < |ancs| && !ancs[i].excluded && x in ReadsOf(ancs[i])
  {
    if ancs != [] {
      RefsAre(ancs[..|ancs| - 1], x);
    }
  }

  /** A verdict lists, for each gating unit, the instances that stand for it in the step's branch. */
  lemma AncestorsListed(root: Node, t: Path, raw: string, cond: Condition, x: string)
    requires WellShaped(root) && IsNode(root, t)
    ensures x in AncestorRefs(GateAncestors(root, t, raw, cond)) <==>
      exists u :: u in GatingNodes(root, t, cond) && IsNode(root, u) && x in Effective(root, u, t, raw)
  {
    var ps, ancs := GatingNodes(root, t, cond), GateAncestors(root, t, raw, cond);
    RefsAre(ancs, x);
    forall i | 0 <= i < |ps|
      ensures ps[i] in ps && !ancs[i].excluded && ReadsOf(ancs[i]) == Effective(root, ps[i], t, raw)
    {
      assert ancs[i] == AncestorOf(root, ps[i], t, raw);
    }
  }
}
