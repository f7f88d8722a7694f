/** What a verdict means: the declarative gate, and how it depends on its inputs. */
module Verdicts {
  import opened Common
  import opened Strategy
  import opened Graph
  import opened Instances
  import opened Lookup
  import opened Frontier
  import opened Evaluate
  import opened Entries
  import opened Declared

  /******* Violations and their causes *******/

  lemma {:induction false} NoConditionViolations(fqn: string, ws: seq<When>, cond: Condition)
    ensures ConditionViolations(fqn, ws, cond) == [] <==> forall w :: w in ws ==> cond(w).Holds?
  {
    if ws != [] {
      NoConditionViolations(fqn, ws[..|ws| - 1], cond);
      assert ws == ws[..|ws| - 1] + [ws[|ws| - 1]];
    }
  }

  lemma {:induction false} QueriesMembers(ancs: seq<Ancestor>, f: string)
    ensures f in Queries(ancs) <==>
      exists i :: 0 <= i < |ancs| && !ancs[i].excluded && !Unverifiable(ancs[i]) && f in EffectiveFqns(ancs[i])
  {
    if ancs != [] {
      QueriesMembers(ancs[..|ancs| - 1], f);
    }
  }

  predicate AllRan(answers: seq<Answer>) {
    forall i :: 0 <= i < |answers| ==> answers[i].DidRun?
  }

  lemma {:induction false} NoneMissing(fqns: seq<string>, answers: seq<Answer>)
    requires |fqns| == |answers|
    ensures Missing(fqns, answers) == [] && UnknownRuns(fqns, answers) == [] <==> AllRan(answers)
    ensures fqns != [] && Candidates(fqns, answers) == [] ==> UnknownRuns(fqns, answers) != []
  {
    if fqns != [] {
      var n := |fqns| - 1;
      NoneMissing(fqns[..n], answers[..n]);
      FrontAndLast(answers);
    }
  }

  /** An excluded ancestor gates nothing; any other has to be verifiable. */
  predicate Passable(a: Ancestor) {
    a.excluded || !Unverifiable(a)
  }

  predicate AllVerifiable(ancs: seq<Ancestor>) {
    forall i :: 0 <= i < |ancs| ==> Passable(ancs[i])
  }

  lemma AllVerifiableLast(ancs: seq<Ancestor>)
    requires ancs != []
    ensures AllVerifiable(ancs) <==> AllVerifiable(ancs[..|ancs| - 1]) && Passable(ancs[|ancs| - 1])
  {
    if AllVerifiable(ancs[..|ancs| - 1]) && Passable(ancs[|ancs| - 1]) {
      forall i | 0 <= i < |ancs| ensures Passable(ancs[i]) {
        assert i < |ancs| - 1 ==> ancs[i] == ancs[..|ancs| - 1][i];
      }
    }
  }

  /** Under AND nothing is raised exactly when every live ancestor is verifiable and every read says it ran. */
  lemma {:induction false} NoAndViolations(ancs: seq<Ancestor>, answers: seq<Answer>)
    requires |answers| == |Queries(ancs)|
    ensures AndViolations(ancs, answers) == [] <==> AllVerifiable(ancs) && AllRan(answers)
  {
    if ancs != [] {
      QueriesSnoc(ancs);
      AllVerifiableLast(ancs);
      var n := |ancs| - 1;
      var k := |Queries(ancs[..n])|;
      NoAndViolations(ancs[..n], answers[..k]);
      NoAndOne(ancs[n], answers[k..]);
      AllRanSplits(answers, k);
      AndRaisesSomewhere(ancs, answers, k);
    }
  }

  lemma AndRaisesSomewhere(ancs: seq<Ancestor>, answers: seq<Answer>, k: nat)
    requires ancs != [] && |answers| == |Queries(ancs)| && k == |Queries(ancs[..|ancs| - 1])| <= |answers|
    requires |answers[k..]| == |Queries([ancs[|ancs| - 1]])|
    ensures AndViolations(ancs, answers) == [] <==>
      AndViolations(ancs[..|ancs| - 1], answers[..k]) == [] && AndOne(ancs[|ancs| - 1], answers[k..]) == []
  {
  }

  lemma AllRanSplits(answers: seq<Answer>, k: nat)
    requires k <= |answers|
    ensures AllRan(answers) <==> AllRan(answers[..k]) && AllRan(answers[k..])
  {
    if AllRan(answers[..k]) && AllRan(answers[k..]) {
      forall i | 0 <= i < |answers| ensures answers[i].DidRun? {
        assert answers[i] == if i < k then answers[..k][i] else answers[k..][i - k];
      }
    }
  }

  lemma NoAndOne(a: Ancestor, answers: seq<Answer>)
    requires |answers| == |Queries([a])|
    ensures AndOne(a, answers) == [] <==> Passable(a) && AllRan(answers)
  {
    assert Queries([a][..0]) == [];
    if !a.excluded && !Unverifiable(a) {
      NoneMissing(EffectiveFqns(a), answers);
    }
  }

  lemma {:induction false} SomethingToReport(ancs: seq<Ancestor>, i: nat)
    requires i < |ancs| && !ancs[i].excluded
    ensures Fanouts(ancs) != [] || Queries(ancs) != []
  {
    var n := |ancs| - 1;
    if i < n {
      SomethingToReport(ancs[..n], i);
    }
  }

  /** Under OR nothing is raised exactly when some candidate ran or there is no live ancestor. */
  lemma NoOrViolations(ancs: seq<Ancestor>, answers: seq<Answer>)
    requires |answers| == |Queries(ancs)|
    ensures OrViolations(ancs, answers) == [] <==>
      DidRun in answers || forall i :: 0 <= i < |ancs| ==> ancs[i].excluded
  {
    if DidRun !in answers && exists i :: 0 <= i < |ancs| && !ancs[i].excluded {
      var i :| 0 <= i < |ancs| && !ancs[i].excluded;
      SomethingToReport(ancs, i);
      NoneMissing(Queries(ancs), answers);
    }
  }

  /** A chain that fans out without being excluded or enumerable has a real cause. */
  lemma {:induction false} StatusIsReal(root: Node, p: Path)
    requires WellFormed(root) && IsNode(root, p) && !StrategyExcluded(root, p)
    ensures StrategyStatus(root, p).RuntimeInput? || StrategyStatus(root, p).CustomNames? ||
        StrategyStatus(root, p).Enumerable?
    ensures StrategyStatus(root, p).Enumerable? <==> AllKnown(root, p, -1)
    decreases |p|
  {
    if At(root, p).strat.Some? {
      assert ValidSpec(At(root, p).strat.value);
    }
    if p != [] {
      StatusIsReal(root, Up(p));
    }
  }

  /**
    An ancestor that fans out and is not excluded never stands for nothing: it has
    instances, or a status that says why they are unknown.
  */
  lemma ExpandingAncestorIsGrounded(root: Node, p: Path, t: Path, raw: string)
    requires WellFormed(root) && IsNode(root, p) && IsNode(root, t) && HasStrategy(root, p) &&
        !StrategyExcluded(root, p)
    ensures var a := AncestorOf(root, p, t, raw);
      a.instances != [] || a.status.RuntimeInput? || a.status.CustomNames?
  {
    KnownIsEnumerated(root, p, t, raw);
    StatusIsReal(root, p);
  }

  /******* The declarative verdict *******/

  /** The step's own facts allow it: not excluded, own fan-out enumerable, own and entry guards known true. */
  predicate OwnFactsHold(root: Node, t: Path, cond: Condition)
    requires IsNode(root, t)
  {
    !StrategyExcluded(root, t) && AllKnown(root, t, -1) && forall w :: w in Conditions(root, t) ==> cond(w).Holds?
  }

  lemma OwnViolationsMean(root: Node, t: Path, cond: Condition)
    requires WellFormed(root) && IsNode(root, t)
    ensures OwnViolations(root, t, cond) == [] <==> OwnFactsHold(root, t, cond)
  {
    NoConditionViolations(At(root, t).fqn, Conditions(root, t), cond);
    if !StrategyExcluded(root, t) {
      StatusIsReal(root, t);
      NoLevels(root, t, -1);
      if !HasStrategy(root, t) {
        UnknownNeedsStrategy(root, t);
      }
    }
  }

  lemma {:induction false} UnknownNeedsStrategy(root: Node, p: Path)
    requires IsNode(root, p) && !HasStrategy(root, p)
    ensures AllKnown(root, p, -1)
    decreases |p|
  {
    if p != [] {
      UnknownNeedsStrategy(root, Up(p));
    }
  }

  /** The join, in terms of the gating units and the answers for their FQNs. */
  ghost predicate JoinHolds(root: Node, t: Path, raw: string, cond: Condition, answers: seq<Answer>)
    requires WellShaped(root) && IsNode(root, t)
  {
    var ps := GatingNodes(root, t, cond);
    if OrJoined(root, t) then ps == [] || DidRun in answers
    else (forall i :: 0 <= i < |ps| ==> !Unverifiable(AncestorOf(root, ps[i], t, raw))) && AllRan(answers)
  }

  ghost predicate GateHolds(root: Node, t: Path, raw: string, cond: Condition, answers: seq<Answer>)
    requires WellShaped(root) && IsNode(root, t)
  {
    && OwnFactsHold(root, t, cond)
    && LiveFrontier(root, t, cond).undecided == []
    && !SeparatePlanRollback(root, t)
    && JoinHolds(root, t, raw, cond, answers)
  }

  lemma JoinViolationsMean(root: Node, t: Path, raw: string, cond: Condition, answers: seq<Answer>)
    requires WellShaped(root) && IsNode(root, t)
    requires |answers| == |Queries(GateAncestors(root, t, raw, cond))|
    ensures JoinViolations(JoinOf(root, t), GateAncestors(root, t, raw, cond), answers) == []
       <==> JoinHolds(root, t, raw, cond, answers)
  {
    var ancs := GateAncestors(root, t, raw, cond);
    if OrJoined(root, t) {
      NoOrViolations(ancs, answers);
      assert (forall i :: 0 <= i < |ancs| ==> ancs[i].excluded) <==> ancs == [] by {
        if ancs != [] { assert !ancs[0].excluded; }
      }
    } else {
      NoAndViolations(ancs, answers);
      GateIsLive(root, GatingNodes(root, t, cond), t, raw);
    }
  }

  /** No ancestor of a gate is excluded: excluded units were stepped over. */
  lemma GateIsLive(root: Node, ps: seq<Path>, t: Path, raw: string)
    requires IsNode(root, t) && AllNodes(root, ps)
    ensures AllVerifiable(AncestorsOf(root, ps, t, raw)) <==>
      forall i :: 0 <= i < |ps| ==> !Unverifiable(AncestorOf(root, ps[i], t, raw))
  {
    var ancs := AncestorsOf(root, ps, t, raw);
    forall i | 0 <= i < |ps| ensures Passable(ancs[i]) <==> !Unverifiable(AncestorOf(root, ps[i], t, raw)) {
      assert ancs[i] == AncestorOf(root, ps[i], t, raw);
    }
  }

  /** Without policies a step is allowed exactly when no violation is raised. */
  lemma AllowedMeansNone(root: Node, t: Path, raw: string, cond: Condition, answers: seq<Answer>)
    requires WellShaped(root) && IsNode(root, t) && |answers| == |StepQueries(root, t, raw, cond)|
    ensures VerdictOf(root, t, raw, cond, FAIL_CLOSED, answers).allowed <==>
        RawViolations(root, t, raw, cond, answers) == []
  {
    NothingIgnored(RawViolations(root, t, raw, cond, answers));
  }

  lemma NothingIgnored(vs: seq<Violation>)
    ensures AllIgnored(SettleAll(FAIL_CLOSED, vs)) <==> vs == []
  {
    if vs != [] {
      assert !SettleAll(FAIL_CLOSED, vs)[0].ignored;
    }
  }

  lemma AllowedIsGate(root: Node, t: Path, raw: string, cond: Condition, answers: seq<Answer>)
    requires WellFormed(root) && IsNode(root, t) && |answers| == |StepQueries(root, t, raw, cond)|
    ensures VerdictOf(root, t, raw, cond, FAIL_CLOSED, answers).allowed <==> GateHolds(root, t, raw, cond, answers)
  {
    AllowedMeansNone(root, t, raw, cond, answers);
    OwnViolationsMean(root, t, cond);
    FrontierIsNodes(root, t, cond);
    if !SeparatePlanRollback(root, t) {
      JoinViolationsMean(root, t, raw, cond, answers);
    }
  }

  /** The evaluation's own facts are the declared ones. */
  lemma OwnFactsMean(root: Node, t: Path, cond: Condition)
    requires WellShaped(root) && IsNode(root, t)
    ensures OwnFactsHold(root, t, cond) <==> OwnFacts(root, t, cond)
  {
    ExcludedIs(root, t);
    KnownIs(root, t, -1);
    GuardsMean(root, t, cond);
  }

  /** The join over fields: any gating unit's read says it ran, or all are verifiable and all reads do. */
  ghost predicate JoinIsMet(root: Node, t: Path, raw: string, cond: Condition, answers: seq<Answer>)
    requires WellShaped(root) && IsNode(root, t)
  {
    var ps := GatingNodes(root, t, cond);
    if FiresOnAny(root, t) then ps == [] || DidRun in answers
    else (forall p :: p in ps ==> IsNode(root, p) && Verifiable(root, p, t, raw)) && AllRan(answers)
  }

  lemma JoinIsMetMeans(root: Node, t: Path, raw: string, cond: Condition, answers: seq<Answer>)
    requires WellFormed(root) && IsNode(root, t)
    ensures JoinHolds(root, t, raw, cond, answers) <==> JoinIsMet(root, t, raw, cond, answers)
  {
    OrJoinedIs(root, t);
    var ps := GatingNodes(root, t, cond);
    forall p | p in ps ensures Verifiable(root, p, t, raw) <==> !Unverifiable(AncestorOf(root, p, t, raw)) {
      VerifiableIs(root, p, t, raw);
    }
    forall i | 0 <= i < |ps| ensures ps[i] in ps {}
  }

  /**
    The imperative verdict is a declarative one, over fields and positions: without
    policies a step is allowed exactly when its own facts allow it, no frontier
    guard is undecided, it is not a rollback entry of a separate plan, and its join
    is met by the answers to its reads.
  */
  lemma AllowedIff(root: Node, t: Path, raw: string, cond: Condition, answers: seq<Answer>)
    requires WellFormed(root) && IsNode(root, t) && |answers| == |StepQueries(root, t, raw, cond)|
    ensures VerdictOf(root, t, raw, cond, FAIL_CLOSED, answers).allowed <==>
      && OwnFacts(root, t, cond)
      && LiveFrontier(root, t, cond).undecided == []
      && !RunsInOwnPlan(root, t)
      && JoinIsMet(root, t, raw, cond, answers)
  {
    AllowedIsGate(root, t, raw, cond, answers);
    OwnFactsMean(root, t, cond);
    SeparatePlanIs(root, t);
    JoinIsMetMeans(root, t, raw, cond, answers);
  }

  /** `p` can be verified complete and `f` is one of the FQNs it has to have run as. */
  predicate Contributes(root: Node, p: Path, t: Path, raw: string, f: string)
    requires IsNode(root, t)
  {
    IsNode(root, p) && !Unverifiable(AncestorOf(root, p, t, raw)) && f in Effective(root, p, t, raw)
  }

  /** `f` is among the FQNs of some verifiable gating unit. */
  ghost predicate IsRead(root: Node, t: Path, raw: string, cond: Condition, f: string)
    requires WellShaped(root) && IsNode(root, t)
  {
    exists p :: p in GatingNodes(root, t, cond) && Contributes(root, p, t, raw, f)
  }

  /** The join spelled out over the frontier and a run-state callback. */
  ghost predicate FrontierRan(root: Node, t: Path, raw: string, cond: Condition, ran: string -> Answer)
    requires WellShaped(root) && IsNode(root, t)
  {
    var ps := GatingNodes(root, t, cond);
    if OrJoined(root, t) then
      ps == [] || exists f :: IsRead(root, t, raw, cond, f) && ran(f).DidRun?
    else
      forall p :: p in ps ==>
        IsNode(root, p) && !Unverifiable(AncestorOf(root, p, t, raw)) && forall f :: f in Effective(root, p, t, raw) ==>
          ran(f).DidRun?
  }

  /** The reads of a gate are the effective FQNs of its verifiable ancestors. */
  lemma GateReads(root: Node, t: Path, raw: string, cond: Condition, f: string)
    requires WellShaped(root) && IsNode(root, t)
    ensures f in Queries(GateAncestors(root, t, raw, cond)) <==> IsRead(root, t, raw, cond, f)
  {
    ReadsOf(root, GatingNodes(root, t, cond), t, raw, f);
  }

  lemma ReadsOf(root: Node, ps: seq<Path>, t: Path, raw: string, f: string)
    requires IsNode(root, t) && AllNodes(root, ps)
    ensures f in Queries(AncestorsOf(root, ps, t, raw)) <==> exists p :: p in ps && Contributes(root, p, t, raw, f)
  {
    var ancs := AncestorsOf(root, ps, t, raw);
    QueriesMembers(ancs, f);
    forall i | 0 <= i < |ps|
      ensures ps[i] in ps
      ensures !ancs[i].excluded && !Unverifiable(ancs[i]) && f in EffectiveFqns(ancs[i]) <==>
          Contributes(root, ps[i], t, raw, f)
    {
      ContributesMeans(root, ps[i], t, raw, f);
    }
  }

  lemma ContributesMeans(root: Node, p: Path, t: Path, raw: string, f: string)
    requires IsNode(root, p) && IsNode(root, t)
    ensures var a := AncestorOf(root, p, t, raw);
      !a.excluded && !Unverifiable(a) && f in EffectiveFqns(a) <==> Contributes(root, p, t, raw, f)
  {
  }

  lemma JoinHoldsMeans(root: Node, t: Path, raw: string, cond: Condition, ran: string -> Answer)
    requires WellShaped(root) && IsNode(root, t)
    ensures var qs := Queries(GateAncestors(root, t, raw, cond));
      JoinHolds(root, t, raw, cond, Ask(qs, ran)) <==> FrontierRan(root, t, raw, cond, ran)
  {
    var qs := Queries(GateAncestors(root, t, raw, cond));
    forall f ensures f in qs <==> IsRead(root, t, raw, cond, f) {
      GateReads(root, t, raw, cond, f);
    }
    AskMeans(qs, ran);
    if OrJoined(root, t) {
      if f :| f in qs && ran(f).DidRun? {
        assert IsRead(root, t, raw, cond, f);
      }
    } else {
      AndRan(root, t, raw, cond, ran, qs);
    }
  }

  lemma AskMeans(qs: seq<string>, ran: string -> Answer)
    ensures DidRun in Ask(qs, ran) <==> exists f :: f in qs && ran(f).DidRun?
    ensures AllRan(Ask(qs, ran)) <==> forall f :: f in qs ==> ran(f).DidRun?
  {
    var answers := Ask(qs, ran);
    forall f | f in qs ensures ran(f) in answers {
      var i :| 0 <= i < |qs| && qs[i] == f;
      assert answers[i] == ran(f);
    }
    forall i | 0 <= i < |qs| ensures qs[i] in qs && answers[i] == ran(qs[i]) {}
  }

  lemma AndRan(root: Node, t: Path, raw: string, cond: Condition, ran: string -> Answer, qs: seq<string>)
    requires WellShaped(root) && IsNode(root, t)
    requires forall f :: f in qs <==> IsRead(root, t, raw, cond, f)
    ensures var ps := GatingNodes(root, t, cond);
      (forall i :: 0 <= i < |ps| ==> !Unverifiable(AncestorOf(root, ps[i], t, raw))) &&
        (forall f :: f in qs ==> ran(f).DidRun?)
      <==>
      forall p :: p in ps ==>
        IsNode(root, p) && !Unverifiable(AncestorOf(root, p, t, raw)) && forall f :: f in Effective(root, p, t, raw) ==>
          ran(f).DidRun?
  {
    var ps := GatingNodes(root, t, cond);
    if (forall i :: 0 <= i < |ps| ==> !Unverifiable(AncestorOf(root, ps[i], t, raw))) &&
      (forall f :: f in qs ==> ran(f).DidRun?) {
      forall p | p in ps
        ensures IsNode(root, p) && !Unverifiable(AncestorOf(root, p, t, raw))
        ensures forall f :: f in Effective(root, p, t, raw) ==> ran(f).DidRun?
      {
        var k :| 0 <= k < |ps| && ps[k] == p;
        forall f | f in Effective(root, p, t, raw) ensures ran(f).DidRun? {
          assert Contributes(root, p, t, raw, f) && IsRead(root, t, raw, cond, f);
        }
      }
    }
  }

  lemma EvaluateStepGate(g: OrderGraph, x: string, ran: string -> Answer, cond: Condition)
    requires ValidGraph(g)
    ensures var v := EvaluateStep(g, x, ran, cond, FAIL_CLOSED);
      && (v.None? <==> LookupNode(g, x).None?)
      && (v.Some? ==> (LookupIsNode(g, x);
            var t := LookupNode(g, x).value;
            v.value.allowed <==>
              && OwnFactsHold(g.root, t, cond)
              && LiveFrontier(g.root, t, cond).undecided == []
              && !SeparatePlanRollback(g.root, t)
              && FrontierRan(g.root, t, x, cond, ran)))
  {
    if LookupNode(g, x).Some? {
      LookupIsNode(g, x);
      var t := LookupNode(g, x).value;
      var qs := StepQueries(g.root, t, x, cond);
      AllowedIsGate(g.root, t, x, cond, Ask(qs, ran));
      JoinHoldsMeans(g.root, t, x, cond, ran);
    }
  }

  /** The join over a run-state callback: some gating unit has begun, or all are completed. */
  ghost predicate GateRan(root: Node, t: Path, raw: string, cond: Condition, ran: string -> Answer)
    requires WellShaped(root) && IsNode(root, t)
  {
    var ps := GatingNodes(root, t, cond);
    if FiresOnAny(root, t) then ps == [] || exists p :: p in ps && Begun(root, p, t, raw, ran)
    else forall p :: p in ps ==> Completed(root, p, t, raw, ran)
  }

  lemma GateRanMeans(root: Node, t: Path, raw: string, cond: Condition, ran: string -> Answer)
    requires WellFormed(root) && IsNode(root, t)
    ensures FrontierRan(root, t, raw, cond, ran) <==> GateRan(root, t, raw, cond, ran)
  {
    OrJoinedIs(root, t);
    var ps := GatingNodes(root, t, cond);
    forall p | p in ps ensures Verifiable(root, p, t, raw) <==> !Unverifiable(AncestorOf(root, p, t, raw)) {
      VerifiableIs(root, p, t, raw);
    }
    if FiresOnAny(root, t) {
      SomeRead(root, ps, t, raw, cond, ran);
    }
  }

  lemma SomeRead(root: Node, ps: seq<Path>, t: Path, raw: string, cond: Condition, ran: string -> Answer)
    requires WellFormed(root) && IsNode(root, t) && ps == GatingNodes(root, t, cond)
    requires forall p :: p in ps ==> (Verifiable(root, p, t, raw) <==> !Unverifiable(AncestorOf(root, p, t, raw)))
    ensures (exists f :: IsRead(root, t, raw, cond, f) && ran(f).DidRun?) <==>
      exists p :: p in ps && Begun(root, p, t, raw, ran)
  {
    if f :| IsRead(root, t, raw, cond, f) && ran(f).DidRun? {
      var p :| p in ps && Contributes(root, p, t, raw, f);
      assert Begun(root, p, t, raw, ran);
    }
    if p :| p in ps && Begun(root, p, t, raw, ran) {
      var f :| f in Effective(root, p, t, raw) && ran(f).DidRun?;
      assert Contributes(root, p, t, raw, f) && IsRead(root, t, raw, cond, f);
    }
  }

  /** EvaluateStep without policies, in words: when the requested step may run. */
  lemma EvaluateStepAllows(g: OrderGraph, x: string, ran: string -> Answer, cond: Condition)
    requires ValidGraph(g)
    ensures var v := EvaluateStep(g, x, ran, cond, FAIL_CLOSED);
      && (v.None? <==> LookupNode(g, x).None?)
      && (v.Some? ==> (LookupIsNode(g, x);
            var t := LookupNode(g, x).value;
            v.value.allowed <==>
              && OwnFacts(g.root, t, cond)
              && LiveFrontier(g.root, t, cond).undecided == []
              && !RunsInOwnPlan(g.root, t)
              && GateRan(g.root, t, x, cond, ran)))
  {
    EvaluateStepGate(g, x, ran, cond);
    if LookupNode(g, x).Some? {
      LookupIsNode(g, x);
      var t := LookupNode(g, x).value;
      OwnFactsMean(g.root, t, cond);
      SeparatePlanIs(g.root, t);
      GateRanMeans(g.root, t, x, cond, ran);
    }
  }

  /** The units an AND gate keeps are those of the frontier that no other one stands for. */
  lemma GateIsPruned(root: Node, t: Path, cond: Condition, u: Path)
    requires Proper(root) && IsNode(root, t) && !OrJoined(root, t) && LiveFrontier(root, t, cond).undecided == []
    ensures u in GatingNodes(root, t, cond) <==> OnFrontier(root, t, cond, u) && !Redundant(root, t, cond, u)
  {
    var out := LiveFrontier(root, t, cond).out;
    FrontierIs(root, t, cond);
    LiveFrontierIsExact(root, t, cond);
    FrontierIsNodes(root, t, cond);
    PrunedMembers(root, out, |out|, u);
    forall v | OnFrontier(root, t, cond, v) ensures v in out {
      assert v !in LiveFrontier(root, t, cond).undecided;
    }
    forall i | 0 <= i < |out| ensures out[i] in out && (Covered(root, out, i) <==> Redundant(root, t, cond, out[i])) {
      CoveredIs(root, t, cond, out, i);
    }
  }

  lemma CoveredIs(root: Node, t: Path, cond: Condition, out: seq<Path>, i: nat)
    requires WellShaped(root) && IsNode(root, t) && AllNodes(root, out) && Distinct(out) && i < |out|
    requires forall v :: v in out <==> OnFrontier(root, t, cond, v)
    ensures Covered(root, out, i) <==> Redundant(root, t, cond, out[i])
  {
    if Covered(root, out, i) {
      var j :| 0 <= j < |out| && j != i && Precedes(root, out[i], out[j]);
      PrecedesIs(root, out[i], out[j]);
      assert out[j] in out && out[j] != out[i];
    }
    if Redundant(root, t, cond, out[i]) {
      var v :| v != out[i] && OnFrontier(root, t, cond, v) && ImpliedBy(root, out[i], v);
      var j :| 0 <= j < |out| && out[j] == v;
      PrecedesIs(root, out[i], v);
    }
  }

  /** With all guards decided, the gate is the declared join over the frontier. */
  lemma GateIsDeclared(root: Node, t: Path, raw: string, cond: Condition, ran: string -> Answer)
    requires Proper(root) && IsNode(root, t) && LiveFrontier(root, t, cond).undecided == []
    ensures GateRan(root, t, raw, cond, ran) <==>
      if FiresOnAny(root, t) then
        (exists u :: OnFrontier(root, t, cond, u)) ==>
          exists u :: OnFrontier(root, t, cond, u) && Begun(root, u, t, raw, ran)
      else
        forall u :: OnFrontier(root, t, cond, u) && !Redundant(root, t, cond, u) ==> Completed(root, u, t, raw, ran)
  {
    OrJoinedIs(root, t);
    if FiresOnAny(root, t) {
      FrontierIs(root, t, cond);
      var out := GatingNodes(root, t, cond);
      forall u ensures u in out <==> OnFrontier(root, t, cond, u) {
        assert u !in LiveFrontier(root, t, cond).undecided;
      }
      if out != [] {
        assert out[0] in out;
      }
    } else {
      forall u ensures u in GatingNodes(root, t, cond) <==>
        OnFrontier(root, t, cond, u) && !Redundant(root, t, cond, u) {
        GateIsPruned(root, t, cond, u);
      }
    }
  }

  lemma NoneUndecided(root: Node, t: Path, cond: Condition)
    requires Proper(root) && IsNode(root, t)
    ensures LiveFrontier(root, t, cond).undecided == [] <==>
      forall u :: OnFrontier(root, t, cond, u) ==> GuardsKnownTrue(root, u, cond)
  {
    FrontierIs(root, t, cond);
    var undecided := LiveFrontier(root, t, cond).undecided;
    if undecided != [] {
      assert undecided[0] in undecided;
    }
  }

  /**
    EvaluateStep decides the declarative verdict: where `parallel` blocks are not
    empty, a step that is found is allowed exactly when it may run by the fields
    of the units on its ways back.
  */
  lemma AllowedIsDeclared(g: OrderGraph, x: string, ran: string -> Answer, cond: Condition)
    requires ValidGraph(g) && Proper(g.root) && LookupNode(g, x).Some?
    ensures var v := EvaluateStep(g, x, ran, cond, FAIL_CLOSED);
      v.Some? && (LookupIsNode(g, x); v.value.allowed <==> MayRun(g.root, LookupNode(g, x).value, x, cond, ran))
  {
    EvaluateStepAllows(g, x, ran, cond);
    LookupIsNode(g, x);
    var t := LookupNode(g, x).value;
    NoneUndecided(g.root, t, cond);
    if LiveFrontier(g.root, t, cond).undecided == [] {
      GateIsDeclared(g.root, t, x, cond, ran);
    }
  }

  /******* Monotonicity *******/

  /** Every violation the first policies ignore, the second ignore too. */
  ghost predicate MoreAccepting(pol: Policies, pol': Policies) {
    forall v :: ApplyPolicy(PolicyFor(pol, v), v) ==> ApplyPolicy(PolicyFor(pol', v), v)
  }

  /** Policies only set `ignored`: more accepting ones never turn an allow into a deny. */
  lemma PoliciesOnlyIgnore(root: Node, t: Path, raw: string, cond: Condition, pol: Policies, pol': Policies,
      answers: seq<Answer>)
    requires WellShaped(root) && IsNode(root, t) && |answers| == |StepQueries(root, t, raw, cond)|
    ensures var v, v' := VerdictOf(root, t, raw, cond, pol, answers), VerdictOf(root, t, raw, cond, pol', answers);
      && v'.(allowed := v.allowed, violations := v.violations) == v
      && |v.violations| == |v'.violations|
      && (forall i :: 0 <= i < |v.violations| ==>
        v'.violations[i].(ignored := v.violations[i].ignored) == v.violations[i])
      && (MoreAccepting(pol, pol') && v.allowed ==> v'.allowed)
  {
    SettleDiffers(pol, pol', RawViolations(root, t, raw, cond, answers));
  }

  lemma SettleDiffers(pol: Policies, pol': Policies, vs: seq<Violation>)
    ensures var a, b := SettleAll(pol, vs), SettleAll(pol', vs);
      && (forall i :: 0 <= i < |vs| ==> b[i].(ignored := a[i].ignored) == a[i])
      && (MoreAccepting(pol, pol') && AllIgnored(a) ==> AllIgnored(b))
  {
    var a, b := SettleAll(pol, vs), SettleAll(pol', vs);
    forall i | 0 <= i < |vs|
      ensures b[i].(ignored := a[i].ignored) == a[i]
      ensures MoreAccepting(pol, pol') && a[i].ignored ==> b[i].ignored
    {
      assert a[i] == Settle(pol, vs[i]) && b[i] == Settle(pol', vs[i]);
    }
  }

  /** Reporting more units as run never turns an allow into a deny, for AND and OR alike. */
  lemma MoreRunsNeverDeny(g: OrderGraph, x: string, ran: string -> Answer, ran': string -> Answer, cond: Condition)
    requires ValidGraph(g)
    requires forall f :: ran(f).DidRun? ==> ran'(f).DidRun?
    requires var v := EvaluateStep(g, x, ran, cond, FAIL_CLOSED); v.Some? && v.value.allowed
    ensures var v' := EvaluateStep(g, x, ran', cond, FAIL_CLOSED); v'.Some? && v'.value.allowed
  {
    EvaluateStepGate(g, x, ran, cond);
    EvaluateStepGate(g, x, ran', cond);
  }

  /******* Undecided guards *******/

  /** Where `cond` decides, `cond'` says the same. */
  ghost predicate Refines(cond: Condition, cond': Condition) {
    forall w :: !cond(w).Unevaluable? ==> cond'(w) == cond(w)
  }

  lemma {:induction false} SteppedOverStays(root: Node, p: Path, cond: Condition, cond': Condition,
                                            first: Option<(When, string)>, first': Option<(When, string)>)
    requires IsNode(root, p) && Refines(cond, cond') && GuardsFrom(root, p, cond, first).SteppedOver?
    ensures GuardsFrom(root, p, cond', first').SteppedOver?
    decreases |p|
  {
    var w := At(root, p).when;
    if !(w.Some? && cond(w.value).Fails?) && !(w.Some? && cond'(w.value).Fails?) {
      var f := if w.Some? && cond(w.value).Unevaluable? && first.None? then Some((w.value, cond(w.value).err))
        else first;
      var f' := if w.Some? && cond'(w.value).Unevaluable? && first'.None? then Some((w.value, cond'(w.value).err))
        else first';
      SteppedOverStays(root, Up(p), cond, cond', f, f');
    }
  }

  lemma {:induction false} RequiredStays(root: Node, p: Path, cond: Condition, cond': Condition,
      first: Option<(When, string)>)
    requires IsNode(root, p) && Refines(cond, cond') && GuardsFrom(root, p, cond, first).Required?
    ensures first.None? && GuardsFrom(root, p, cond', None).Required?
    decreases |p|
  {
    var w := At(root, p).when;
    var f := if w.Some? && cond(w.value).Unevaluable? && first.None? then Some((w.value, cond(w.value).err)) else first;
    if p != [] {
      RequiredStays(root, Up(p), cond, cond', f);
    }
  }

  /** A class that rests on known guards only does not change when more guards become known. */
  lemma DecidedStays(root: Node, p: Path, cond: Condition, cond': Condition)
    requires IsNode(root, p) && Refines(cond, cond') && !Classify(root, p, cond).Undecided?
    ensures Classify(root, p, cond') == Classify(root, p, cond)
  {
    if !StrategyExcluded(root, p) {
      if Classify(root, p, cond).SteppedOver? {
        SteppedOverStays(root, p, cond, cond', None, None);
      } else {
        RequiredStays(root, p, cond, cond', None);
      }
    }
  }

  lemma {:induction false} VisitGrows(root: Node, n: Path, k: nat, cond: Condition, f: Found)
    requires WellShaped(root) && IsNode(root, n) && k <= |Climb(root, n)|
    ensures |f.undecided| <= |Visit(root, n, k, cond, f).undecided|
    decreases Rank(root, n), |Climb(root, n)| - k
  {
    if k < |Climb(root, n)| {
      ClimbDescends(root, n);
      MeetGrows(root, Climb(root, n)[k], cond, f);
      VisitGrows(root, n, k + 1, cond, Meet(root, Climb(root, n)[k], cond, f));
    }
  }

  lemma {:induction false} MeetGrows(root: Node, p: Path, cond: Condition, f: Found)
    requires WellShaped(root) && IsNode(root, p)
    ensures |f.undecided| <= |Meet(root, p, cond, f).undecided|
    ensures At(root, p).fqn !in f.seen && Classify(root, p, cond).Undecided? ==> Meet(root, p, cond, f).undecided != []
    decreases Rank(root, p), |Climb(root, p)| + 1
  {
    if At(root, p).fqn !in f.seen && Classify(root, p, cond).SteppedOver? {
      VisitGrows(root, p, 0, cond, f.(seen := f.seen + {At(root, p).fqn}));
    }
  }

  lemma {:induction false} VisitStays(root: Node, n: Path, k: nat, cond: Condition, cond': Condition, f: Found)
    requires WellShaped(root) && IsNode(root, n) && k <= |Climb(root, n)| && Refines(cond, cond')
    requires Visit(root, n, k, cond, f).undecided == []
    ensures Visit(root, n, k, cond', f) == Visit(root, n, k, cond, f)
    decreases Rank(root, n), |Climb(root, n)| - k
  {
    if k < |Climb(root, n)| {
      ClimbDescends(root, n);
      var p := Climb(root, n)[k];
      VisitGrows(root, n, k + 1, cond, Meet(root, p, cond, f));
      MeetStays(root, p, cond, cond', f);
      VisitStays(root, n, k + 1, cond, cond', Meet(root, p, cond, f));
    }
  }

  lemma {:induction false} MeetStays(root: Node, p: Path, cond: Condition, cond': Condition, f: Found)
    requires WellShaped(root) && IsNode(root, p) && Refines(cond, cond')
    requires Meet(root, p, cond, f).undecided == []
    ensures Meet(root, p, cond', f) == Meet(root, p, cond, f)
    decreases Rank(root, p), |Climb(root, p)| + 1
  {
    if At(root, p).fqn !in f.seen {
      MeetGrows(root, p, cond, f);
      DecidedStays(root, p, cond, cond');
      if Classify(root, p, cond).SteppedOver? {
        VisitStays(root, p, 0, cond, cond', f.(seen := f.seen + {At(root, p).fqn}));
      }
    }
  }

  /**
    An allow never rests on an undecided guard: deciding more guards, in whatever
    way, leaves the verdict, its ancestors and the absence of violations as they are.
  */
  lemma AllowIgnoresUndecided(g: OrderGraph, x: string, ran: string -> Answer, cond: Condition, cond': Condition)
    requires ValidGraph(g) && Refines(cond, cond')
    requires var v := EvaluateStep(g, x, ran, cond, FAIL_CLOSED); v.Some? && v.value.allowed
    ensures EvaluateStep(g, x, ran, cond', FAIL_CLOSED) == EvaluateStep(g, x, ran, cond, FAIL_CLOSED)
    ensures EvaluateStep(g, x, ran, cond, FAIL_CLOSED).value.violations == []
  {
    LookupIsNode(g, x);
    var t := LookupNode(g, x).value;
    EvaluateStepGate(g, x, ran, cond);
    VisitStays(g.root, t, 0, cond, cond', Found({}, [], []));
    assert LiveFrontier(g.root, t, cond') == LiveFrontier(g.root, t, cond);
    assert GatingNodes(g.root, t, cond') == GatingNodes(g.root, t, cond);
    var answers := Ask(StepQueries(g.root, t, x, cond), ran);
    AllowedMeansNone(g.root, t, x, cond, answers);
    NoConditionViolations(At(g.root, t).fqn, Conditions(g.root, t), cond);
    NoConditionViolations(At(g.root, t).fqn, Conditions(g.root, t), cond');
    assert RawViolations(g.root, t, x, cond', answers) == RawViolations(g.root, t, x, cond, answers);
  }
}
