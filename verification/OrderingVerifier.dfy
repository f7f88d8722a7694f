/**
  The reference ordering verifier (examples/zts/ordering/verifier.go): one request
  is built, evaluated against the store, and recorded when it is allowed.
*/
module OrderingVerifier {
  import opened Common
  import opened Graph
  import opened Lookup
  import opened Frontier
  import opened Evaluate
  import opened Pruning
  import opened Runs
  import opened RunStore
  import opened Conditions
  import opened Fanout
  import opened RawPipeline
  import opened Builder
  import opened BuiltGraphs
  import opened EvaluateLoops

  /** The resolved pipeline of a request: missing, unusable YAML, or decoded. */
  datatype Document = Absent | Unparseable | Parsed(stages: seq<StageWrapper>)

  datatype Request = Request(stepFqn: string, planExecId: string, document: Document)

  datatype Response = Pass | Deny

  /** deny_on_missing is on unless it is switched off. */
  datatype Config = Config(denyOnMissing: Option<bool>, matrixNaming: string, conditionOverrides: map<string, bool>)

  /** Not a pipeline step, or nothing to order it by. */
  predicate Exempt(req: Request) {
    req.stepFqn == "" || req.planExecId == "" || req.document.Absent?
  }

  function StagesOf(doc: Document): Option<seq<StageWrapper>> {
    if doc.Parsed? then Some(doc.stages) else None
  }

  /** `g` is the graph BuildGraph makes of `doc`. */
  ghost predicate GraphFor(doc: Document, naming: MatrixNaming, g: OrderGraph) {
    && doc.Parsed? && BuildFails(Some(doc.stages), naming).None?
    && g.root == RootNode(doc.stages, naming)
    && g.byFqn == AllNames(doc.stages, naming).byFqn
    && IndexesInstances(g.root, g.byFqn, g.instByFqn)
  }

  /** The instance index is determined by the units alone, not by the order of the map it is built from. */
  lemma IndexIsDetermined(root: Node, byFqn: map<string, Path>, inst: map<string, Path>, inst': map<string, Path>)
    requires IndexesInstances(root, byFqn, inst) && IndexesInstances(root, byFqn, inst')
    ensures inst == inst'
  {
    forall x | x in inst ensures x in inst' && inst'[x] == inst[x] {
      assert SoleEnumerator(root, byFqn, x, inst[x]);
    }
    forall x | x in inst' ensures x in inst {
      assert SoleEnumerator(root, byFqn, x, inst'[x]);
    }
  }

  lemma GraphIsDetermined(doc: Document, naming: MatrixNaming, g: OrderGraph, g': OrderGraph)
    requires GraphFor(doc, naming, g) && GraphFor(doc, naming, g')
    ensures g == g'
  {
    IndexIsDetermined(g.root, g.byFqn, g.instByFqn, g'.instByFqn);
  }

  /** VerifyStepOrder: None stands for ErrNodeNotFound. */
  method VerifyStepOrder(doc: Document, fqn: string, naming: MatrixNaming, ran: Option<string -> Answer>,
      cond: Option<Condition>, pol: Policies)
    returns (r: Result<Option<Verdict>, BuildError>)
    requires doc.Parsed? ==> DecodedStages(doc.stages)
    ensures r.Err? <==> BuildFails(StagesOf(doc), naming).Some?
    ensures r.Ok? ==> exists g :: GraphFor(doc, naming, g)
    ensures r.Ok? ==> forall g :: GraphFor(doc, naming, g) ==>
      ValidGraph(g) && r.value == EvaluateStep(g, fqn, RanOrNone(ran), CondOrTrue(cond), pol)
  {
    if doc.Parsed? {
      var built := BuildAndIndex(doc.stages, naming);
      if built.Err? { return Err(built.error); }
      ghost var model := built.value.Model();
      assert GraphFor(doc, naming, model);
      forall g | GraphFor(doc, naming, g) ensures g == model {
        GraphIsDetermined(doc, naming, g, model);
      }
      var verdict := DecideStep(built.value, fqn, ran, cond, pol);
      return Ok(verdict);
    }
    return Err(InvalidPipeline);
  }

  method BuildAndIndex(stages: seq<StageWrapper>, naming: MatrixNaming) returns (r: Result<PipelineGraph, BuildError>)
    requires DecodedStages(stages)
    ensures r.Err? <==> BuildFails(Some(stages), naming).Some?
    ensures r.Ok? ==> fresh(r.value) && ValidGraph(r.value.Model()) && GraphFor(Parsed(stages), naming, r.value.Model())
  {
    r := PipelineGraph.BuildGraph(Some(stages), naming);
    if r.Ok? {
      BuildIsValid(stages, naming, r.value.instByFqn);
    }
  }

  class Verifier {
    const denyOnMissing: bool
    const naming: MatrixNaming
    const store: Store
    const checker: ConditionChecker?

    /** The guard answers the checker gives, or every guard holding without one. */
    function Guards(planExecId: string): Condition
      reads checker
    {
      CondOrTrue(GuardsOption(planExecId))
    }

    function GuardsOption(planExecId: string): Option<Condition>
      reads checker
    {
      if checker == null then None else Some(GuardOf(checker.State(), planExecId))
    }

    /** New: overrides alone are enough to have guards checked. */
    constructor (cfg: Config, conditions: ConditionChecker?)
      modifies conditions
      ensures fresh(store) && store.State() == StoreState(map[], map[])
      ensures denyOnMissing == (cfg.denyOnMissing != Some(false))
      ensures naming == if EqualFold(TrimSpace(cfg.matrixNaming), "value") then ByValue else ByIndex
      ensures conditions != null ==>
          checker == conditions && checker.overrides == old(conditions.overrides) + cfg.conditionOverrides
      ensures conditions == null && |cfg.conditionOverrides| == 0 ==> checker == null
      ensures conditions == null && |cfg.conditionOverrides| > 0 ==>
        checker != null && fresh(checker) && checker.State() == CheckerState(cfg.conditionOverrides, None, map[], map[])
    {
      denyOnMissing := cfg.denyOnMissing.None? || cfg.denyOnMissing.value;
      naming := if EqualFold(TrimSpace(cfg.matrixNaming), "value") then ByValue else ByIndex;
      store := new Store();
      var chosen := conditions;
      if chosen == null && |cfg.conditionOverrides| > 0 {
        chosen := new ConditionChecker(None, map[]);
      }
      if chosen != null {
        chosen.MergeOverrides(cfg.conditionOverrides);
      }
      checker := chosen;
    }

    /** What the request comes to on the present store, before anything is recorded. */
    method Check(req: Request) returns (o: Outcome)
      requires req.document.Parsed? ==> DecodedStages(req.document.stages)
      ensures o.Unbuildable? <==> BuildFails(StagesOf(req.document), naming).Some?
      ensures !o.Unbuildable? ==> exists g :: GraphFor(req.document, naming, g)
      ensures forall g :: GraphFor(req.document, naming, g) ==>
        ValidGraph(g) && OutcomeIs(Plan(g, Guards(req.planExecId)), store.State(), req.planExecId, req.stepFqn, o)
    {
      var e, x := req.planExecId, req.stepFqn;
      var ran := RecordAnswer(RecordOf(store.State(), e));
      var cond := GuardsOption(e);
      var r := VerifyStepOrder(req.document, x, naming, Some(ran), cond, VERIFIER_POLICIES);
      if r.Err? { return Unbuildable; }
      forall g | GraphFor(req.document, naming, g)
        ensures ValidGraph(g) && OutcomeIs(Plan(g, Guards(e)), store.State(), e, x, OutcomeOf(r.value))
      {
        VerdictIsOutcome(Plan(g, Guards(e)), store.State(), e, x);
      }
      return OutcomeOf(r.value);
    }

    /**
      One request, alone: a unit that is not found passes unrecorded, and whether a
      step is recorded does not depend on deny_on_missing.
    */
    method Handle(req: Request) returns (resp: Response)
      requires req.document.Parsed? ==> DecodedStages(req.document.stages)
      modifies store
      ensures req.stepFqn == "" || req.planExecId == "" || req.document.Absent? ==>
        resp == Pass && store.State() == old(store.State())
      ensures req.stepFqn != "" && req.planExecId != "" && !req.document.Absent? ==>
        (BuildFails(StagesOf(req.document), naming).None? <==> exists g :: GraphFor(req.document, naming, g)) &&
        (BuildFails(StagesOf(req.document), naming).Some? ==>
          (resp == Deny <==> denyOnMissing) && store.State() == old(store.State()))
      ensures req.stepFqn != "" && req.planExecId != "" && !req.document.Absent? ==>
        forall g :: GraphFor(req.document, naming, g) ==>
        ValidGraph(g) &&
        Handled(Plan(g, old(Guards(req.planExecId))), old(store.State()), store.State(), req.planExecId, req.stepFqn,
          denyOnMissing, resp)
    {
      if Exempt(req) { return Pass; }
      var o := Check(req);
      match o
      case Unknown => return Pass;
      case Unbuildable => return if denyOnMissing then Deny else Pass;
      case Refused => return if denyOnMissing then Deny else Pass;
      case Admissible(fqn) =>
        store.MarkRan(req.planExecId, req.stepFqn, fqn);
        return Pass;
    }
  }

  /** How a check may end: no graph, no such unit, denied, or allowed as a logical FQN. */
  datatype Outcome = Unbuildable | Unknown | Refused | Admissible(fqn: string)

  function OutcomeOf(v: Option<Verdict>): Outcome {
    if v.None? then Unknown else if v.value.allowed then Admissible(v.value.fqn) else Refused
  }

  /** The outcome in terms of the protocol's decision. */
  ghost predicate OutcomeIs(p: Plan, s: StoreState, e: string, x: string, o: Outcome)
    requires ValidGraph(p.g)
  {
    var t := LookupNode(p.g, x);
    if t.None? then o.Unknown?
    else (LookupIsNode(p.g, x);
      o == if Decides(p, x, FreshReads(p, s, e, x)) then Admissible(At(p.g.root, t.value).fqn) else Refused)
  }

  lemma VerdictIsOutcome(p: Plan, s: StoreState, e: string, x: string)
    requires ValidGraph(p.g)
    ensures OutcomeIs(p, s, e, x,
        OutcomeOf(EvaluateStep(p.g, x, RecordAnswer(RecordOf(s, e)), p.cond, VERIFIER_POLICIES)))
  {
    FreshReadsAreAnswers(p, s, e, x);
    if LookupNode(p.g, x).Some? {
      LookupIsNode(p.g, x);
    }
  }

  /** One handled request: the store as the protocol records it, and the answer to the caller. */
  ghost predicate Handled(p: Plan, s: StoreState, s': StoreState, e: string, x: string, denyOnMissing: bool,
      resp: Response)
    requires ValidGraph(p.g)
  {
    var answers := FreshReads(p, s, e, x);
    && s' == Recorded(p, s, e, x, answers)
    && (resp == Deny <==> denyOnMissing && LookupNode(p.g, x).Some? && !Decides(p, x, answers))
  }

  /******* The handler in the protocol *******/

  /**
    A request handled alone is one schedule of the protocol: from any world it
    leads, by atomic steps of that request only, to the store the handler leaves.
  */
  lemma HandlerIsASchedule(plans: Plans, w: World, id: nat, e: string, x: string, s': StoreState, denyOnMissing: bool,
      resp: Response)
    returns (run: seq<World>)
    requires ValidPlans(plans) && id !in w.flights
    requires Handled(plans(e), w.store, s', e, x, denyOnMissing, resp)
    ensures IsSoloPath(plans, run, id) && run[0] == w && run[|run| - 1] == World(s', w.flights)
  {
    var answers := FreshReads(plans(e), w.store, e, x);
    run := ReadingRun(plans, w, id, e, x, |answers|);
    assert answers[..|answers|] == answers;
    LastStep(plans, w, id, e, x, answers);
    PathSnoc(plans, run, World(s', w.flights), id);
    run := run + [World(s', w.flights)];
  }
}
