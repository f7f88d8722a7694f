/**
  Whole runs of the ordering verifier (examples/zts/ordering/verifier.go,
  examples/zts/ordering/ranstore.go).  Requests run concurrently: each one reads the
  store FQN by FQN, one atomic read at a time, then decides, and records itself in
  one atomic update when it is allowed.
*/
module Runs {
  import opened Common
  import opened Graph
  import opened Instances
  import opened Lookup
  import opened Frontier
  import opened Evaluate
  import opened Entries
  import opened ClimbOrder
  import opened Declared
  import opened Verdicts
  import opened Pruning

  /******* The store *******/

  /** Completed FQNs per plan execution, in the two views of the Store. */
  datatype StoreState = StoreState(instances: map<string, set<string>>, logical: map<string, set<string>>)

  function SetOf(m: map<string, set<string>>, e: string): set<string> {
    if e in m then m[e] else {}
  }

  function RecordOf(s: StoreState, e: string): PlanRecord {
    PlanRecord(SetOf(s.instances, e), SetOf(s.logical, e))
  }

  function MarkRan(s: StoreState, e: string, instance: string, logical: string): StoreState {
    StoreState(s.instances[e := SetOf(s.instances, e) + {instance}], s.logical[e := SetOf(s.logical, e) + {logical}])
  }

  /******* One request *******/

  /** What is fixed for one plan execution: its graph and the truth of its guards. */
  datatype Plan = Plan(g: OrderGraph, cond: Condition)

  ghost predicate ValidPlan(p: Plan) {
    ValidGraph(p.g) && NoEmptyParallel(p.g.root) && Unambiguous(p.g)
  }

  /** The verifier fails open on one gap only: a separate-plan rollback entry's gate. */
  const VERIFIER_POLICIES := FAIL_CLOSED.(pipelineRollback := Some(v => true))

  /** The FQNs a request reads from the store, in order. */
  ghost function Reads(p: Plan, x: string): seq<string>
    requires ValidGraph(p.g)
  {
    var t := LookupNode(p.g, x);
    if t.None? then []
    else
      LookupIsNode(p.g, x);
      StepQueries(p.g.root, t.value, x, p.cond)
  }

  function ToAnswers(bs: seq<bool>): (r: seq<Answer>)
    ensures |r| == |bs| && forall i :: 0 <= i < |r| ==> r[i] == if bs[i] then DidRun else DidNotRun
  {
    seq(|bs|, i requires 0 <= i < |bs| => if bs[i] then DidRun else DidNotRun)
  }

  /** Whether the request may run, given what its reads returned. */
  ghost predicate Decides(p: Plan, x: string, answers: seq<bool>)
    requires ValidGraph(p.g) && |answers| == |Reads(p, x)|
  {
    var t := LookupNode(p.g, x);
    t.Some? &&
    (LookupIsNode(p.g, x);
    VerdictOf(p.g.root, t.value, x, p.cond, VERIFIER_POLICIES, ToAnswers(answers)).allowed)
  }

  /** The store after the request's decision. */
  ghost function Recorded(p: Plan, s: StoreState, e: string, x: string, answers: seq<bool>): StoreState
    requires ValidGraph(p.g) && |answers| == |Reads(p, x)|
  {
    if Decides(p, x, answers) then
      LookupIsNode(p.g, x);
      MarkRan(s, e, x, At(p.g.root, LookupNode(p.g, x).value).fqn)
    else s
  }

  /******* The protocol *******/

  datatype Flight = Flight(plan: string, fqn: string, answers: seq<bool>)

  datatype World = World(store: StoreState, flights: map<nat, Flight>)

  type Plans = string -> Plan

  ghost predicate ValidPlans(plans: Plans) {
    forall e :: ValidPlan(plans(e))
  }

  predicate Init(w: World) {
    w == World(StoreState(map[], map[]), map[])
  }

  predicate Start(w: World, w': World, id: nat, e: string, x: string) {
    id !in w.flights && w' == w.(flights := w.flights[id := Flight(e, x, [])])
  }

  ghost predicate Read(plans: Plans, w: World, w': World, id: nat)
    requires ValidPlans(plans)
  {
    id in w.flights &&
    var f := w.flights[id];
    var queries := Reads(plans(f.plan), f.fqn);
    |f.answers| < |queries| &&
    w' == w.(flights := w.flights[id :=
      f.(answers := f.answers + [HasRun(RecordOf(w.store, f.plan), queries[|f.answers|])])])
  }

  ghost predicate Finish(plans: Plans, w: World, w': World, id: nat)
    requires ValidPlans(plans)
  {
    id in w.flights &&
    var f := w.flights[id];
    |f.answers| == |Reads(plans(f.plan), f.fqn)| &&
    w' == World(Recorded(plans(f.plan), w.store, f.plan, f.fqn, f.answers), w.flights - {id})
  }

  /** One atomic step of request `id`. */
  ghost predicate StepOf(plans: Plans, w: World, w': World, id: nat)
    requires ValidPlans(plans)
  {
    (exists e, x :: Start(w, w', id, e, x)) || Read(plans, w, w', id) || Finish(plans, w, w', id)
  }

  ghost predicate Next(plans: Plans, w: World, w': World)
    requires ValidPlans(plans)
  {
    exists id :: StepOf(plans, w, w', id)
  }

  ghost predicate IsRun(plans: Plans, run: seq<World>)
    requires ValidPlans(plans)
  {
    run != [] && Init(run[0]) && forall i :: 0 <= i < |run| - 1 ==> Next(plans, run[i], run[i + 1])
  }

  /******* Records only grow *******/

  predicate Grows(rec: PlanRecord, rec': PlanRecord) {
    rec.instances <= rec'.instances && rec.logical <= rec'.logical
  }

  lemma AdmittedGrows(root: Node, t: Path, raw: string, cond: Condition, rec: PlanRecord, rec': PlanRecord)
    requires WellShaped(root) && IsNode(root, t) && Grows(rec, rec') && Admitted(root, t, raw, cond, rec)
    ensures Admitted(root, t, raw, cond, rec')
  {
    forall f | RecordAnswer(rec)(f).DidRun? ensures RecordAnswer(rec')(f).DidRun? {}
    if !SeparatePlanRollback(root, t) {
      assert FrontierRan(root, t, raw, cond, RecordAnswer(rec'));
    }
  }

  lemma DecisionIsGate(root: Node, t: Path, raw: string, cond: Condition, answers: seq<Answer>)
    requires WellFormed(root) && IsNode(root, t) && |answers| == |StepQueries(root, t, raw, cond)|
    ensures VerdictOf(root, t, raw, cond, VERIFIER_POLICIES, answers).allowed <==>
      OwnFactsHold(root, t, cond) &&
      (SeparatePlanRollback(root, t) ||
       (LiveFrontier(root, t, cond).undecided == [] && JoinHolds(root, t, raw, cond, answers)))
  {
    OwnViolationsMean(root, t, cond);
    OwnIsNotWaived(root, t, cond);
    if SeparatePlanRollback(root, t) {
      WaivedOnly(OwnViolations(root, t, cond), [PipelineRollbackGate(false)]);
    } else {
      FrontierIsNodes(root, t, cond);
      var undecided := UndecidedViolations(root, LiveFrontier(root, t, cond).undecided, cond);
      var join := JoinViolations(JoinOf(root, t), GateAncestors(root, t, raw, cond), answers);
      JoinViolationsMean(root, t, raw, cond, answers);
      JoinIsNotWaived(JoinOf(root, t), GateAncestors(root, t, raw, cond), answers);
      WaivedOnly(OwnViolations(root, t, cond), undecided + join);
      NoneWaivedTogether(undecided, join);
    }
  }

  /**
    What the verifier's decision means, over fields: the own facts, and the gate
    unless the unit is a rollback entry of a separate plan.
  */
  lemma DecisionMeans(root: Node, t: Path, raw: string, cond: Condition, answers: seq<Answer>)
    requires WellFormed(root) && IsNode(root, t) && |answers| == |StepQueries(root, t, raw, cond)|
    ensures VerdictOf(root, t, raw, cond, VERIFIER_POLICIES, answers).allowed <==>
      OwnFacts(root, t, cond) &&
      (RunsInOwnPlan(root, t) ||
       (LiveFrontier(root, t, cond).undecided == [] && JoinIsMet(root, t, raw, cond, answers)))
  {
    DecisionIsGate(root, t, raw, cond, answers);
    OwnFactsMean(root, t, cond);
    SeparatePlanIs(root, t);
    JoinIsMetMeans(root, t, raw, cond, answers);
  }

  lemma NoneWaivedTogether(a: seq<Violation>, b: seq<Violation>)
    requires NoneWaived(a) && NoneWaived(b)
    ensures NoneWaived(a + b)
  {
  }

  lemma WaivedOnly(own: seq<Violation>, rest: seq<Violation>)
    requires NoneWaived(own)
    ensures NoneWaived(rest) ==> (AllIgnored(SettleAll(VERIFIER_POLICIES, own + rest)) <==> own == [] && rest == [])
    ensures rest == [PipelineRollbackGate(false)] ==>
        (AllIgnored(SettleAll(VERIFIER_POLICIES, own + rest)) <==> own == [])
  {
    OnlyRollbackIgnored(own + rest);
    FirstOf(own, rest);
  }

  lemma FirstOf(own: seq<Violation>, rest: seq<Violation>)
    ensures own != [] ==> (own + rest)[0] == own[0]
    ensures own == [] ==> own + rest == rest && (rest != [] ==> (own + rest)[0] == rest[0])
  {
  }

  predicate NoneWaived(vs: seq<Violation>) {
    forall i :: 0 <= i < |vs| ==> !vs[i].PipelineRollbackGate?
  }

  lemma OnlyRollbackIgnored(vs: seq<Violation>)
    ensures AllIgnored(SettleAll(VERIFIER_POLICIES, vs)) <==> forall i :: 0 <= i < |vs| ==> vs[i].PipelineRollbackGate?
  {
    forall i | 0 <= i < |vs| ensures SettleAll(VERIFIER_POLICIES, vs)[i].ignored <==> vs[i].PipelineRollbackGate? {
      assert SettleAll(VERIFIER_POLICIES, vs)[i] == Settle(VERIFIER_POLICIES, vs[i]);
    }
  }

  lemma {:induction false} ConditionsAreNotWaived(fqn: string, ws: seq<When>, cond: Condition)
    ensures NoneWaived(ConditionViolations(fqn, ws, cond))
  {
    if ws != [] {
      ConditionsAreNotWaived(fqn, ws[..|ws| - 1], cond);
    }
  }

  lemma OwnIsNotWaived(root: Node, t: Path, cond: Condition)
    requires IsNode(root, t)
    ensures NoneWaived(OwnViolations(root, t, cond))
  {
    ConditionsAreNotWaived(At(root, t).fqn, Conditions(root, t), cond);
  }

  lemma {:induction false} UnknownRunsAreNotWaived(fqns: seq<string>, answers: seq<Answer>)
    requires |fqns| == |answers|
    ensures NoneWaived(UnknownRuns(fqns, answers))
  {
    if fqns != [] {
      UnknownRunsAreNotWaived(fqns[..|fqns| - 1], answers[..|fqns| - 1]);
    }
  }

  lemma {:induction false} FanoutsAreNotWaived(ancs: seq<Ancestor>)
    ensures NoneWaived(Fanouts(ancs))
  {
    if ancs != [] {
      FanoutsAreNotWaived(ancs[..|ancs| - 1]);
    }
  }

  lemma {:induction false} AndIsNotWaived(ancs: seq<Ancestor>, answers: seq<Answer>)
    requires |answers| == |Queries(ancs)|
    ensures NoneWaived(AndViolations(ancs, answers))
  {
    if ancs != [] {
      QueriesSnoc(ancs);
      var n := |ancs| - 1;
      var k := |Queries(ancs[..n])|;
      AndIsNotWaived(ancs[..n], answers[..k]);
      assert Queries([ancs[n]][..0]) == [];
      if !ancs[n].excluded && !Unverifiable(ancs[n]) {
        UnknownRunsAreNotWaived(EffectiveFqns(ancs[n]), answers[k..]);
      }
    }
  }

  lemma JoinIsNotWaived(join: JoinType, ancs: seq<Ancestor>, answers: seq<Answer>)
    requires |answers| == |Queries(ancs)|
    ensures NoneWaived(JoinViolations(join, ancs, answers))
  {
    AndIsNotWaived(ancs, answers);
    FanoutsAreNotWaived(ancs);
    UnknownRunsAreNotWaived(Queries(ancs), answers);
  }

  /******* What every reachable state keeps *******/

  /** A join that held for some answers holds for answers that report at least as much. */
  lemma JoinHoldsForMore(root: Node, t: Path, raw: string, cond: Condition, a: seq<Answer>, b: seq<Answer>)
    requires WellShaped(root) && IsNode(root, t) && |a| == |b|
    requires forall i :: 0 <= i < |a| ==> a[i].DidRun? ==> b[i].DidRun?
    requires JoinHolds(root, t, raw, cond, a)
    ensures JoinHolds(root, t, raw, cond, b)
  {
    if DidRun in a {
      var i :| 0 <= i < |a| && a[i] == DidRun;
      assert b[i] == DidRun;
    }
  }

  /** A positive read stays true. */
  ghost predicate ReadsHold(p: Plan, rec: PlanRecord, x: string, answers: seq<bool>)
    requires ValidGraph(p.g)
  {
    PositivesHold(Reads(p, x), rec, answers)
  }

  predicate PositivesHold(queries: seq<string>, rec: PlanRecord, answers: seq<bool>) {
    |answers| <= |queries| && forall i :: 0 <= i < |answers| ==> answers[i] ==> HasRun(rec, queries[i])
  }

  lemma OneMorePositive(queries: seq<string>, rec: PlanRecord, answers: seq<bool>)
    requires PositivesHold(queries, rec, answers) && |answers| < |queries|
    ensures PositivesHold(queries, rec, answers + [HasRun(rec, queries[|answers|])])
  {
  }

  /** A request that was allowed on reads taken at different times is admitted on the present record. */
  lemma DecidedIsAdmitted(p: Plan, rec: PlanRecord, x: string, answers: seq<bool>)
    requires ValidPlan(p) && ReadsHold(p, rec, x, answers) && |answers| == |Reads(p, x)| && Decides(p, x, answers)
    ensures LookupNode(p.g, x).Some? && (LookupIsNode(p.g, x);
      Admitted(p.g.root, LookupNode(p.g, x).value, x, p.cond, rec))
  {
    LookupIsNode(p.g, x);
    var root, t := p.g.root, LookupNode(p.g, x).value;
    DecisionIsGate(root, t, x, p.cond, ToAnswers(answers));
    if !SeparatePlanRollback(root, t) {
      var queries := Reads(p, x);
      JoinHoldsForMore(root, t, x, p.cond, ToAnswers(answers), Ask(queries, RecordAnswer(rec)));
      JoinHoldsMeans(root, t, x, p.cond, RecordAnswer(rec));
    }
  }

  ghost predicate WorldOk(plans: Plans, w: World)
    requires ValidPlans(plans)
  {
    && (forall e :: Justified(plans(e).g, plans(e).cond, RecordOf(w.store, e)))
    && (forall id :: id in w.flights ==>
          var f := w.flights[id]; ReadsHold(plans(f.plan), RecordOf(w.store, f.plan), f.fqn, f.answers))
  }

  lemma JustifiedGrows(p: Plan, rec: PlanRecord, x: string)
    requires ValidPlan(p) && Justified(p.g, p.cond, rec) && LookupNode(p.g, x).Some?
    requires (LookupIsNode(p.g, x); Admitted(p.g.root, LookupNode(p.g, x).value, x, p.cond, rec))
    ensures (LookupIsNode(p.g, x);
      Justified(p.g, p.cond,
        PlanRecord(rec.instances + {x}, rec.logical + {At(p.g.root, LookupNode(p.g, x).value).fqn})))
  {
    LookupIsNode(p.g, x);
    var rec' := PlanRecord(rec.instances + {x}, rec.logical + {At(p.g.root, LookupNode(p.g, x).value).fqn});
    forall y | y in rec'.instances
      ensures LookupNode(p.g, y).Some? && (LookupIsNode(p.g, y);
        Admitted(p.g.root, LookupNode(p.g, y).value, y, p.cond, rec'))
    {
      LookupIsNode(p.g, y);
      AdmittedGrows(p.g.root, LookupNode(p.g, y).value, y, p.cond, rec, rec');
    }
    forall f | f in rec'.logical ensures exists y :: y in rec'.instances && Folds(p.g, y, f) {
      if f in rec.logical {
        var y :| y in rec.instances && Folds(p.g, y, f);
        assert y in rec'.instances;
      } else {
        assert Folds(p.g, x, f);
      }
    }
  }

  /** Recording a request under its own plan leaves every other plan's record alone. */
  lemma RecordedIsJustified(plans: Plans, s: StoreState, e: string, x: string, answers: seq<bool>, e': string)
    requires ValidPlans(plans) && Justified(plans(e').g, plans(e').cond, RecordOf(s, e'))
    requires |answers| == |Reads(plans(e), x)| && ReadsHold(plans(e), RecordOf(s, e), x, answers)
    ensures var s' := Recorded(plans(e), s, e, x, answers);
      Justified(plans(e').g, plans(e').cond, RecordOf(s', e')) && Grows(RecordOf(s, e'), RecordOf(s', e'))
  {
    if Decides(plans(e), x, answers) {
      DecidedIsAdmitted(plans(e), RecordOf(s, e), x, answers);
      if e' == e {
        JustifiedGrows(plans(e), RecordOf(s, e), x);
      } else {
        assert RecordOf(Recorded(plans(e), s, e, x, answers), e') == RecordOf(s, e');
      }
    }
  }

  lemma ReadsHoldForMore(p: Plan, rec: PlanRecord, rec': PlanRecord, x: string, answers: seq<bool>)
    requires ValidGraph(p.g) && ReadsHold(p, rec, x, answers) && Grows(rec, rec')
    ensures ReadsHold(p, rec', x, answers)
  {
  }

  lemma FinishKeeps(plans: Plans, w: World, w': World, id: nat)
    requires ValidPlans(plans) && WorldOk(plans, w) && Finish(plans, w, w', id)
    ensures WorldOk(plans, w')
  {
    var f := w.flights[id];
    forall e
      ensures Justified(plans(e).g, plans(e).cond, RecordOf(w'.store, e)) &&
          Grows(RecordOf(w.store, e), RecordOf(w'.store, e))
    {
      RecordedIsJustified(plans, w.store, f.plan, f.fqn, f.answers, e);
    }
    forall i | i in w'.flights
      ensures var f := w'.flights[i]; ReadsHold(plans(f.plan), RecordOf(w'.store, f.plan), f.fqn, f.answers)
    {
      var f := w.flights[i];
      ReadsHoldForMore(plans(f.plan), RecordOf(w.store, f.plan), RecordOf(w'.store, f.plan), f.fqn, f.answers);
    }
  }

  lemma OneMoreRead(p: Plan, rec: PlanRecord, x: string, answers: seq<bool>)
    requires ValidGraph(p.g) && ReadsHold(p, rec, x, answers) && |answers| < |Reads(p, x)|
    ensures ReadsHold(p, rec, x, answers + [HasRun(rec, Reads(p, x)[|answers|])])
  {
    OneMorePositive(Reads(p, x), rec, answers);
  }

  lemma ReadKeeps(plans: Plans, w: World, w': World, id: nat)
    requires ValidPlans(plans) && WorldOk(plans, w) && Read(plans, w, w', id)
    ensures WorldOk(plans, w')
  {
    var f := w.flights[id];
    OneMoreRead(plans(f.plan), RecordOf(w.store, f.plan), f.fqn, f.answers);
    assert w'.store == w.store;
    forall i | i in w'.flights
      ensures var h := w'.flights[i]; ReadsHold(plans(h.plan), RecordOf(w'.store, h.plan), h.fqn, h.answers)
    {
      if i != id {
        assert w'.flights[i] == w.flights[i];
      }
    }
  }

  /** Every step of every interleaving keeps the store justified. */
  lemma NextKeeps(plans: Plans, w: World, w': World)
    requires ValidPlans(plans) && WorldOk(plans, w) && Next(plans, w, w')
    ensures WorldOk(plans, w')
  {
    var id :| StepOf(plans, w, w', id);
    if Finish(plans, w, w', id) {
      FinishKeeps(plans, w, w', id);
    } else if Read(plans, w, w', id) {
      ReadKeeps(plans, w, w', id);
    }
  }

  lemma {:induction false} ReachableIsOk(plans: Plans, run: seq<World>, i: nat)
    requires ValidPlans(plans) && IsRun(plans, run) && i < |run|
    ensures WorldOk(plans, run[i])
  {
    if i > 0 {
      ReachableIsOk(plans, run, i - 1);
      NextKeeps(plans, run[i - 1], run[i]);
    }
  }

  /******* Safety *******/

  /** What holds of a recorded request `x` for unit `t`, over fields, positions and paths. */
  ghost predicate Safe(p: Plan, rec: PlanRecord, x: string, t: Path)
    requires ValidPlan(p) && IsNode(p.g.root, t)
  {
    && OwnFacts(p.g.root, t, p.cond)
    && (!RunsInOwnPlan(p.g.root, t) ==>
          forall u :: OnFrontier(p.g.root, t, p.cond, u) ==> GuardsKnownTrue(p.g.root, u, p.cond))
    && (!FiresOnAny(p.g.root, t) ==> AllBranchesRan(p, rec, x, t))
    && (FiresOnAny(p.g.root, t) && !RunsInOwnPlan(p.g.root, t) ==>
          (exists u :: OnFrontier(p.g.root, t, p.cond, u)) ==> SomeUnitRan(p, rec, x, t))
  }

  /** Every unit of the frontier is enumerable and has run as each of its instances in `x`'s own branch. */
  ghost predicate AllBranchesRan(p: Plan, rec: PlanRecord, x: string, t: Path)
    requires IsNode(p.g.root, t)
  {
    forall u, cx :: OnFrontier(p.g.root, t, p.cond, u) && IsInstance(p.g.root, t, cx, x) ==>
      BranchRan(p.g.root, u, t, cx, rec)
  }

  /** Some unit of the frontier whose instances are known has run as one of them. */
  ghost predicate SomeUnitRan(p: Plan, rec: PlanRecord, x: string, t: Path)
    requires IsNode(p.g.root, t)
  {
    exists u :: OnFrontier(p.g.root, t, p.cond, u) && Begun(p.g.root, u, t, x, RecordAnswer(rec))
  }

  lemma JustifiedIsSafe(p: Plan, rec: PlanRecord, x: string)
    requires ValidPlan(p) && Justified(p.g, p.cond, rec) && x in rec.instances
    ensures LookupNode(p.g, x).Some? && (LookupIsNode(p.g, x); Safe(p, rec, x, LookupNode(p.g, x).value))
  {
    LookupIsNode(p.g, x);
    ValidIsProper(p.g);
    var root, t := p.g.root, LookupNode(p.g, x).value;
    OwnFactsMean(root, t, p.cond);
    OrJoinedIs(root, t);
    SeparatePlanIs(root, t);
    OwnPlanFires(root, t);
    NoneUndecided(root, t, p.cond);
    if !OrJoined(root, t) {
      FrontierIs(root, t, p.cond);
      AndIsSafe(p, rec, x, t);
    } else if !SeparatePlanRollback(root, t) {
      OrIsSafe(p.g, t, x, p.cond, rec);
    }
  }

  lemma OwnPlanFires(root: Node, t: Path)
    requires IsNode(root, t)
    ensures RunsInOwnPlan(root, t) ==> FiresOnAny(root, t)
  {
  }

  /** An admitted AND-joined instance has its whole frontier run. */
  lemma AndIsSafe(p: Plan, rec: PlanRecord, x: string, t: Path)
    requires ValidPlan(p) && Justified(p.g, p.cond, rec) && Proper(p.g.root)
    requires IsNode(p.g.root, t) && IsNamed(At(p.g.root, t)) && !OrJoined(p.g.root, t)
    requires Admitted(p.g.root, t, x, p.cond, rec)
    ensures forall u, cx :: u in LiveFrontier(p.g.root, t, p.cond).out && IsInstance(p.g.root, t, cx, x) ==>
      IsNode(p.g.root, u) && BranchRan(p.g.root, u, t, cx, rec)
  {
    forall u, cx | u in LiveFrontier(p.g.root, t, p.cond).out && IsInstance(p.g.root, t, cx, x)
      ensures IsNode(p.g.root, u) && BranchRan(p.g.root, u, t, cx, rec)
    {
      PruningIsSound(p.g, p.cond, rec, t, cx, u);
    }
  }

  /** An admitted OR-joined request has an empty frontier or a unit of it that ran. */
  lemma OrIsSafe(g: OrderGraph, t: Path, x: string, cond: Condition, rec: PlanRecord)
    requires ValidGraph(g) && Proper(g.root) && IsNode(g.root, t)
    requires OrJoined(g.root, t) && !SeparatePlanRollback(g.root, t) && Admitted(g.root, t, x, cond, rec)
    ensures (exists u :: OnFrontier(g.root, t, cond, u)) ==>
      exists u :: OnFrontier(g.root, t, cond, u) && Begun(g.root, u, t, x, RecordAnswer(rec))
  {
    GateRanMeans(g.root, t, x, cond, RecordAnswer(rec));
    GateIsDeclared(g.root, t, x, cond, RecordAnswer(rec));
    OrJoinedIs(g.root, t);
  }

  /**
    Safety of whole runs.  In every state of every interleaving, everything
    recorded under a plan resolves to a unit whose own facts hold, and: a unit that
    waits on all its predecessors has every instance of its unpruned frontier, in
    its own branch, recorded; one that fires on any has an empty frontier or some
    recorded unit of it.  The one exception is a rollback entry whose stage
    declares a pipeline rollback.
  */
  lemma RunsAreSafe(plans: Plans, run: seq<World>, i: nat, e: string, x: string)
    requires ValidPlans(plans) && IsRun(plans, run) && i < |run|
    requires x in RecordOf(run[i].store, e).instances
    ensures LookupNode(plans(e).g, x).Some? && (LookupIsNode(plans(e).g, x);
      Safe(plans(e), RecordOf(run[i].store, e), x, LookupNode(plans(e).g, x).value))
  {
    ReachableIsOk(plans, run, i);
    JustifiedIsSafe(plans(e), RecordOf(run[i].store, e), x);
  }

  /** A forward step of the entry's stage is on its frontier unless it is skipped. */
  lemma StepIsOnFrontier(root: Node, t: Path, k: nat, cond: Condition, m: Path)
    requires IsNode(root, t) && RollbackEntryAt(root, t, k) && k < |t|
    requires ForwardStepOf(root, t[..k], m) && !Skipped(root, m, cond)
    ensures OnFrontier(root, t, cond, m)
  {
    assert DirectlyBefore(root, t, m);
    assert Trail(root, t, [m]) && ThroughSkipped(root, [m], cond);
  }

  /**
    Rollback waits for the run.  A recorded entry of a rollback container, below a
    stage at depth `k` that declares no pipeline rollback and has a forward step
    that is not skipped, has some unit of its frontier recorded.
  */
  lemma RollbackWaits(plans: Plans, run: seq<World>, i: nat, e: string, x: string, k: nat, m: Path)
    requires ValidPlans(plans) && IsRun(plans, run) && i < |run|
    requires x in RecordOf(run[i].store, e).instances && LookupNode(plans(e).g, x).Some?
    requires (LookupIsNode(plans(e).g, x);
      var root, t := plans(e).g.root, LookupNode(plans(e).g, x).value;
      && k < |t| && RollbackEntryAt(root, t, k) && !NodeAt(root, t, k).pipelineRollback
      && ForwardStepOf(root, t[..k], m) && !Skipped(root, m, plans(e).cond))
    ensures (LookupIsNode(plans(e).g, x);
      SomeUnitRan(plans(e), RecordOf(run[i].store, e), x, LookupNode(plans(e).g, x).value))
  {
    LookupIsNode(plans(e).g, x);
    var root, t := plans(e).g.root, LookupNode(plans(e).g, x).value;
    RunsAreSafe(plans, run, i, e, x);
    forall j | 0 <= j < |t| && RollbackEntryAt(root, t, j) ensures j == k {
      OneRollbackEntry(root, t, j, k);
    }
    StepIsOnFrontier(root, t, k, plans(e).cond, m);
  }

  /******* A request alone *******/

  /** What the store holds about everything the request reads. */
  ghost function FreshReads(p: Plan, s: StoreState, e: string, x: string): (r: seq<bool>)
    requires ValidGraph(p.g)
    ensures |r| == |Reads(p, x)| && forall i :: 0 <= i < |r| ==> r[i] == HasRun(RecordOf(s, e), Reads(p, x)[i])
  {
    seq(|Reads(p, x)|, i requires 0 <= i < |Reads(p, x)| => HasRun(RecordOf(s, e), Reads(p, x)[i]))
  }

  lemma FreshReadsAreAnswers(p: Plan, s: StoreState, e: string, x: string)
    requires ValidGraph(p.g)
    ensures ToAnswers(FreshReads(p, s, e, x)) == Ask(Reads(p, x), RecordAnswer(RecordOf(s, e)))
  {
  }

  /** Each element is related to the next. */
  ghost predicate IsPath<T(!new)>(run: seq<T>, step: (T, T) -> bool) {
    run != [] && forall i, j :: 0 <= i && j == i + 1 && j < |run| ==> step(run[i], run[j])
  }

  lemma PathLonger<T(!new)>(run: seq<T>, x: T, step: (T, T) -> bool)
    requires IsPath(run, step) && step(run[|run| - 1], x)
    ensures IsPath(run + [x], step)
  {
    var longer := run + [x];
    forall i, j | 0 <= i && j == i + 1 && j < |longer| ensures step(longer[i], longer[j]) {
      assert longer[i] == run[i];
      assert j < |run| ==> longer[j] == run[j];
    }
  }

  /** The atomic steps of request `id`. */
  ghost function StepsOf(plans: Plans, id: nat): (World, World) -> bool
    requires ValidPlans(plans)
  {
    (w, w') => StepOf(plans, w, w', id)
  }

  /** `run` takes atomic steps of request `id` only. */
  ghost predicate IsSoloPath(plans: Plans, run: seq<World>, id: nat)
    requires ValidPlans(plans)
  {
    IsPath(run, StepsOf(plans, id))
  }

  lemma PathSnoc(plans: Plans, run: seq<World>, w: World, id: nat)
    requires ValidPlans(plans) && IsSoloPath(plans, run, id) && StepOf(plans, run[|run| - 1], w, id)
    ensures IsSoloPath(plans, run + [w], id)
  {
    PathLonger(run, w, StepsOf(plans, id));
  }

  lemma SnocEnds<T>(s: seq<T>, x: T)
    requires s != []
    ensures (s + [x])[0] == s[0] && (s + [x])[|s + [x]| - 1] == x
  {
  }

  lemma UpdatedTwice<K, V>(m: map<K, V>, k: K, a: V, b: V)
    ensures m[k := a][k := b] == m[k := b]
  {
  }

  ghost function Reading(w: World, id: nat, e: string, x: string, answers: seq<bool>): World {
    World(w.store, w.flights[id := Flight(e, x, answers)])
  }

  lemma OneReading(plans: Plans, w: World, id: nat, e: string, x: string, answers: seq<bool>, b: bool)
    requires ValidPlans(plans) && |answers| < |Reads(plans(e), x)|
    requires b == HasRun(RecordOf(w.store, e), Reads(plans(e), x)[|answers|])
    ensures Read(plans, Reading(w, id, e, x, answers), Reading(w, id, e, x, answers + [b]), id)
  {
    UpdatedTwice(w.flights, id, Flight(e, x, answers), Flight(e, x, answers + [b]));
  }

  lemma ReadStep(plans: Plans, w: World, id: nat, e: string, x: string, k: nat)
    requires ValidPlans(plans) && k < |Reads(plans(e), x)|
    ensures var answers := FreshReads(plans(e), w.store, e, x);
      StepOf(plans, Reading(w, id, e, x, answers[..k]), Reading(w, id, e, x, answers[..k + 1]), id)
  {
    var answers := FreshReads(plans(e), w.store, e, x);
    Taken(answers, k);
    OneReading(plans, w, id, e, x, answers[..k], answers[k]);
  }

  /** `run` starts the request in `w` and makes its first `k` reads at once. */
  ghost predicate ReadsSoFar(plans: Plans, w: World, id: nat, e: string, x: string, k: nat, run: seq<World>)
    requires ValidPlans(plans) && k <= |Reads(plans(e), x)|
  {
    && IsSoloPath(plans, run, id) && run[0] == w
    && run[|run| - 1] == Reading(w, id, e, x, FreshReads(plans(e), w.store, e, x)[..k])
  }

  lemma StartRun(plans: Plans, w: World, id: nat, e: string, x: string) returns (run: seq<World>)
    requires ValidPlans(plans) && id !in w.flights
    ensures ReadsSoFar(plans, w, id, e, x, 0, run)
  {
    var started := Reading(w, id, e, x, []);
    assert Start(w, started, id, e, x);
    assert StepOf(plans, w, started, id);
    assert IsSoloPath(plans, [w], id);
    PathSnoc(plans, [w], started, id);
    SnocEnds([w], started);
    run := [w] + [started];
    assert FreshReads(plans(e), w.store, e, x)[..0] == [];
  }

  lemma OneReadMore(plans: Plans, w: World, id: nat, e: string, x: string, k: nat, front: seq<World>)
    returns (run: seq<World>)
    requires ValidPlans(plans) && k < |Reads(plans(e), x)| && ReadsSoFar(plans, w, id, e, x, k, front)
    ensures ReadsSoFar(plans, w, id, e, x, k + 1, run)
  {
    var next := Reading(w, id, e, x, FreshReads(plans(e), w.store, e, x)[..k + 1]);
    ReadStep(plans, w, id, e, x, k);
    PathSnoc(plans, front, next, id);
    SnocEnds(front, next);
    run := front + [next];
  }

  lemma {:induction false} ReadingRun(plans: Plans, w: World, id: nat, e: string, x: string, k: nat)
    returns (run: seq<World>)
    requires ValidPlans(plans) && id !in w.flights && k <= |Reads(plans(e), x)|
    ensures ReadsSoFar(plans, w, id, e, x, k, run)
    decreases k
  {
    if k == 0 {
      run := StartRun(plans, w, id, e, x);
    } else {
      var front := ReadingRun(plans, w, id, e, x, k - 1);
      run := OneReadMore(plans, w, id, e, x, k - 1, front);
    }
  }

  lemma LastStep(plans: Plans, w: World, id: nat, e: string, x: string, answers: seq<bool>)
    requires ValidPlans(plans) && id !in w.flights && |answers| == |Reads(plans(e), x)|
    ensures Finish(plans, Reading(w, id, e, x, answers), World(Recorded(plans(e), w.store, e, x, answers), w.flights),
        id)
  {
    assert Reading(w, id, e, x, answers).flights - {id} == w.flights;
  }
}
