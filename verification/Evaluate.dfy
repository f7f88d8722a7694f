/**
  Whether a step may run now: its guards, its ancestor join and the violations
  they raise (verifier/pipeline/evaluate.go, and Resolve in graph.go).
*/
module Evaluate {
  import opened Common
  import opened Strategy
  import opened Graph
  import opened Instances
  import opened Lookup
  import opened Frontier

  /******* Vocabulary *******/

  /** A caller's answer about one FQN's run-state. */
  datatype Answer = DidRun | DidNotRun | RunUnknown(err: string)

  datatype ConditionKind = ExpressionGuard | StatusGuard | StrategyExcludedFact

  datatype JoinType = JoinAnd | JoinOr

  datatype FanoutRole = FanoutSelf | FanoutAncestor

  datatype Violation =
    | ConditionViolation(guardFqn: string, level: WhenLevel, kind: ConditionKind, expression: string, status: string,
      ignored: bool)
    | ConditionUnknown(fqn: string, guardFqn: string, level: WhenLevel, kind: ConditionKind, expression: string,
      status: string, err: string, ignored: bool)
    | AncestorDidNotRun(join: JoinType, ancestorFqn: string, ancestors: seq<string>, ignored: bool)
    | RuntimeFanout(fqn: string, fanout: FanoutStatus, role: FanoutRole, ignored: bool)
    | RunStateUnknown(fqn: string, err: string, ignored: bool)
    | PipelineRollbackGate(ignored: bool)

  type Policy = Option<Violation -> bool>

  /** The per-violation fail-open policies; an absent one fails closed. */
  datatype Policies = Policies(
    condition: Policy,
    conditionUnknown: Policy,
    ancestor: Policy,
    runtimeFanout: Policy,
    runStateUnknown: Policy,
    pipelineRollback: Policy)

  const FAIL_CLOSED := Policies(None, None, None, None, None, None)

  function PolicyFor(pol: Policies, v: Violation): Policy {
    match v
    case ConditionViolation(_, _, _, _, _, _) => pol.condition
    case ConditionUnknown(_, _, _, _, _, _, _, _) => pol.conditionUnknown
    case AncestorDidNotRun(_, _, _, _) => pol.ancestor
    case RuntimeFanout(_, _, _, _) => pol.runtimeFanout
    case RunStateUnknown(_, _, _) => pol.runStateUnknown
    case PipelineRollbackGate(_) => pol.pipelineRollback
  }

  /** applyPolicy: a nil policy fails closed. */
  function ApplyPolicy(p: Policy, v: Violation): bool {
    p.Some? && p.value(v)
  }

  function Settle(pol: Policies, v: Violation): Violation {
    v.(ignored := ApplyPolicy(PolicyFor(pol, v), v))
  }

  function SettleAll(pol: Policies, vs: seq<Violation>): (r: seq<Violation>)
    ensures |r| == |vs| && forall i :: 0 <= i < |vs| ==> r[i] == Settle(pol, vs[i])
  {
    seq(|vs|, i requires 0 <= i < |vs| => Settle(pol, vs[i]))
  }

  /** One predecessor in a step's gate. */
  datatype Ancestor = Ancestor(fqn: string, stepType: string, expands: bool, instances: seq<string>,
      status: FanoutStatus, excluded: bool)

  datatype Verdict = Verdict(
    fqn: string,
    allowed: bool,
    join: JoinType,
    ancestors: seq<string>,
    conditions: seq<When>,
    violations: seq<Violation>)

  /******* The step's own facts *******/

  function KindOf(w: When): ConditionKind {
    if w.status != "" then StatusGuard else ExpressionGuard
  }

  function GuardFailed(w: When): Violation {
    ConditionViolation(w.ownerFqn, w.level, KindOf(w), w.expression, w.status, false)
  }

  function GuardUnknown(fqn: string, w: When, err: string): Violation {
    ConditionUnknown(fqn, w.ownerFqn, w.level, KindOf(w), w.expression, w.status, err, false)
  }

  /** conditionViolations: one violation per guard that does not hold, in order. */
  function ConditionViolations(fqn: string, ws: seq<When>, cond: Condition): seq<Violation> {
    if ws == [] then []
    else
      ConditionViolations(fqn, ws[..|ws| - 1], cond) +
      var w := ws[|ws| - 1];
      match cond(w)
      case Holds => []
      case Fails => [GuardFailed(w)]
      case Unevaluable(err) => [GuardUnknown(fqn, w, err)]
  }

  /** The step's own guard, then those of the containers it is the entry of. */
  function Conditions(root: Node, t: Path): seq<When>
    requires IsNode(root, t)
  {
    (if At(root, t).when.Some? then [At(root, t).when.value] else []) + EntryGuards(root, t)
  }

  /** The step's own fan-out status, when its instances cannot be enumerated. */
  function OwnStatus(root: Node, t: Path): FanoutStatus
    requires IsNode(root, t)
  {
    if HasStrategy(root, t) && !StrategyExcluded(root, t) && InstanceFqns(root, t).None?
    then StrategyStatus(root, t) else Unset
  }

  function OwnViolations(root: Node, t: Path, cond: Condition): seq<Violation>
    requires IsNode(root, t)
  {
    var fqn := At(root, t).fqn;
    (if StrategyExcluded(root, t) then [ConditionViolation(fqn, LevelUnset, StrategyExcludedFact, "", "", false)]
      else [])
    + (var s := OwnStatus(root, t); if !s.Unset? && !s.Enumerable? then [RuntimeFanout(fqn, s, FanoutSelf, false)]
      else [])
    + ConditionViolations(fqn, Conditions(root, t), cond)
  }

  function JoinOf(root: Node, t: Path): JoinType
    requires IsNode(root, t)
  {
    if OrJoined(root, t) then JoinOr else JoinAnd
  }

  /** The enclosing rollbackSteps container. */
  function RollbackContainer(root: Node, p: Path): Option<Path>
    requires IsNode(root, p)
    decreases |p|
  {
    if At(root, p).kind.Rollback? then Some(p)
    else if p == [] then None
    else RollbackContainer(root, Up(p))
  }

  lemma {:induction false} RollbackContainerIsNode(root: Node, p: Path)
    requires IsNode(root, p) && RollbackContainer(root, p).Some?
    ensures IsNode(root, RollbackContainer(root, p).value)
    decreases |p|
  {
    if !At(root, p).kind.Rollback? {
      RollbackContainerIsNode(root, Up(p));
    }
  }

  /** A rollback entry that runs in a separate plan: its forward gate is not visible. */
  predicate SeparatePlanRollback(root: Node, t: Path)
    requires IsNode(root, t)
  {
    AtRollbackEntry(root, t) &&
    var rb := RollbackContainer(root, t);
    rb.Some? && rb.value != [] &&
    (RollbackContainerIsNode(root, t); At(root, Up(rb.value)).pipelineRollback)
  }

  /******* The ancestor gate *******/

  function AncestorOf(root: Node, p: Path, t: Path, raw: string): Ancestor
    requires IsNode(root, p) && IsNode(root, t)
  {
    var insts := AncestorInstances(root, p, t, raw);
    var expands := HasStrategy(root, p);
    Ancestor(At(root, p).fqn, At(root, p).stepType, expands,
      if insts.Some? then insts.value else [],
      if insts.None? && expands then StrategyStatus(root, p) else Unset,
      false)
  }

  function AncestorsOf(root: Node, ps: seq<Path>, t: Path, raw: string): (r: seq<Ancestor>)
    requires IsNode(root, t) && AllNodes(root, ps)
    ensures |r| == |ps| && forall i :: 0 <= i < |ps| ==> r[i] == AncestorOf(root, ps[i], t, raw)
  {
    seq(|ps|, i requires 0 <= i < |ps| => AncestorOf(root, ps[i], t, raw))
  }

  function UndecidedViolations(root: Node, ps: seq<Path>, cond: Condition): (r: seq<Violation>)
    requires AllUndecided(root, ps, cond)
    ensures |r| == |ps|
    ensures forall i :: 0 <= i < |ps| ==>
      var c := Classify(root, ps[i], cond); r[i] == GuardUnknown(At(root, ps[i]).fqn, c.guard, c.err)
  {
    seq(|ps|, i requires 0 <= i < |ps| =>
      var c := Classify(root, ps[i], cond); GuardUnknown(At(root, ps[i]).fqn, c.guard, c.err))
  }

  /** effectiveFQNs of one ancestor. */
  function EffectiveFqns(a: Ancestor): seq<string> {
    if a.instances != [] then a.instances else [a.fqn]
  }

  /** A fan-out whose instances are unknown: its completion cannot be verified. */
  predicate Unverifiable(a: Ancestor) {
    a.expands && a.instances == []
  }

  /** Every FQN whose run-state the gate reads, in order; it does not depend on the answers. */
  function Queries(ancs: seq<Ancestor>): seq<string> {
    if ancs == [] then []
    else
      Queries(ancs[..|ancs| - 1]) +
      var a := ancs[|ancs| - 1];
      if a.excluded || Unverifiable(a) then [] else EffectiveFqns(a)
  }

  function Missing(fqns: seq<string>, answers: seq<Answer>): seq<string>
    requires |fqns| == |answers|
  {
    if fqns == [] then []
    else
      Missing(fqns[..|fqns| - 1], answers[..|fqns| - 1]) +
      if answers[|fqns| - 1].DidNotRun? then [fqns[|fqns| - 1]] else []
  }

  function UnknownRuns(fqns: seq<string>, answers: seq<Answer>): seq<Violation>
    requires |fqns| == |answers|
  {
    if fqns == [] then []
    else
      UnknownRuns(fqns[..|fqns| - 1], answers[..|fqns| - 1]) +
      if answers[|fqns| - 1].RunUnknown? then [RunStateUnknown(fqns[|fqns| - 1], answers[|fqns| - 1].err, false)]
        else []
  }

  /** One ancestor under AND. */
  function AndOne(a: Ancestor, answers: seq<Answer>): seq<Violation>
    requires |answers| == |Queries([a])|
  {
    assert Queries([a][..0]) == [];
    if a.excluded then []
    else if Unverifiable(a) then [RuntimeFanout(a.fqn, a.status, FanoutAncestor, false)]
    else
      UnknownRuns(EffectiveFqns(a), answers) +
      var missing := Missing(EffectiveFqns(a), answers);
      if missing != [] then [AncestorDidNotRun(JoinAnd, a.fqn, missing, false)] else []
  }

  lemma QueriesSnoc(ancs: seq<Ancestor>)
    requires ancs != []
    ensures var n := |ancs| - 1;
      Queries(ancs) == Queries(ancs[..n]) + Queries([ancs[n]])
  {
    assert Queries([ancs[|ancs| - 1]][..0]) == [];
  }

  function AndViolations(ancs: seq<Ancestor>, answers: seq<Answer>): seq<Violation>
    requires |answers| == |Queries(ancs)|
  {
    if ancs == [] then []
    else
      QueriesSnoc(ancs);
      var n := |ancs| - 1;
      var k := |Queries(ancs[..n])|;
      AndViolations(ancs[..n], answers[..k]) + AndOne(ancs[n], answers[k..])
  }

  function Fanouts(ancs: seq<Ancestor>): seq<Violation> {
    if ancs == [] then []
    else
      Fanouts(ancs[..|ancs| - 1]) +
      var a := ancs[|ancs| - 1];
      if !a.excluded && Unverifiable(a) then [RuntimeFanout(a.fqn, a.status, FanoutAncestor, false)] else []
  }

  /** The candidates an OR group reports: those whose run-state is known. */
  function Candidates(fqns: seq<string>, answers: seq<Answer>): seq<string>
    requires |fqns| == |answers|
  {
    if fqns == [] then []
    else
      Candidates(fqns[..|fqns| - 1], answers[..|fqns| - 1]) +
      if answers[|fqns| - 1].RunUnknown? then [] else [fqns[|fqns| - 1]]
  }

  function OrViolations(ancs: seq<Ancestor>, answers: seq<Answer>): seq<Violation>
    requires |answers| == |Queries(ancs)|
  {
    if DidRun in answers || (forall i :: 0 <= i < |ancs| ==> ancs[i].excluded) then []
    else
      var candidates := Candidates(Queries(ancs), answers);
      Fanouts(ancs) + UnknownRuns(Queries(ancs), answers)
      + if candidates != [] then [AncestorDidNotRun(JoinOr, "", candidates, false)] else []
  }

  function JoinViolations(join: JoinType, ancs: seq<Ancestor>, answers: seq<Answer>): seq<Violation>
    requires |answers| == |Queries(ancs)|
  {
    match join
    case JoinOr => OrViolations(ancs, answers)
    case JoinAnd => AndViolations(ancs, answers)
  }

  /******* The whole evaluation *******/

  /** The predecessors `t` is gated on: the live frontier, pruned under AND. */
  ghost function GatingNodes(root: Node, t: Path, cond: Condition): (ps: seq<Path>)
    requires WellShaped(root) && IsNode(root, t)
    ensures AllNodes(root, ps)
  {
    FrontierIsNodes(root, t, cond);
    var out := LiveFrontier(root, t, cond).out;
    PrunedIsNodes(root, out, |out|);
    if OrJoined(root, t) then out else Pruned(root, out, |out|)
  }

  ghost function GateAncestors(root: Node, t: Path, raw: string, cond: Condition): seq<Ancestor>
    requires WellShaped(root) && IsNode(root, t)
  {
    AncestorsOf(root, GatingNodes(root, t, cond), t, raw)
  }

  /** The run-state reads of one evaluation. */
  ghost function StepQueries(root: Node, t: Path, raw: string, cond: Condition): seq<string>
    requires WellShaped(root) && IsNode(root, t)
  {
    if SeparatePlanRollback(root, t) then [] else Queries(GateAncestors(root, t, raw, cond))
  }

  /** Every violation of one evaluation, before any policy is asked. */
  ghost function RawViolations(root: Node, t: Path, raw: string, cond: Condition, answers: seq<Answer>): seq<Violation>
    requires WellShaped(root) && IsNode(root, t)
    requires |answers| == |StepQueries(root, t, raw, cond)|
  {
    OwnViolations(root, t, cond) +
    if SeparatePlanRollback(root, t) then [PipelineRollbackGate(false)]
    else
      FrontierIsNodes(root, t, cond);
      UndecidedViolations(root, LiveFrontier(root, t, cond).undecided, cond)
      + JoinViolations(JoinOf(root, t), GateAncestors(root, t, raw, cond), answers)
  }

  predicate AllIgnored(vs: seq<Violation>) {
    forall i :: 0 <= i < |vs| ==> vs[i].ignored
  }

  function AncestorRefs(ancs: seq<Ancestor>): seq<string> {
    if ancs == [] then []
    else
      AncestorRefs(ancs[..|ancs| - 1]) +
      var a := ancs[|ancs| - 1];
      if a.excluded then [] else EffectiveFqns(a)
  }

  /** The verdict on unit `t`, requested as `raw`, for the given answers to its reads. */
  ghost function VerdictOf(root: Node, t: Path, raw: string, cond: Condition, pol: Policies,
      answers: seq<Answer>): Verdict
    requires WellShaped(root) && IsNode(root, t)
    requires |answers| == |StepQueries(root, t, raw, cond)|
  {
    var vs := SettleAll(pol, RawViolations(root, t, raw, cond, answers));
    Verdict(At(root, t).fqn, AllIgnored(vs), JoinOf(root, t),
      if SeparatePlanRollback(root, t) then [] else AncestorRefs(GateAncestors(root, t, raw, cond)),
      Conditions(root, t), vs)
  }

  /** The answers a run-state callback gives to a list of reads. */
  function Ask(queries: seq<string>, ran: string -> Answer): (r: seq<Answer>)
    ensures |r| == |queries| && forall i :: 0 <= i < |r| ==> r[i] == ran(queries[i])
  {
    seq(|queries|, i requires 0 <= i < |queries| => ran(queries[i]))
  }

  /** EvaluateStep: None stands for ErrNodeNotFound. */
  ghost function EvaluateStep(g: OrderGraph, x: string, ran: string -> Answer, cond: Condition,
      pol: Policies): Option<Verdict>
    requires ValidGraph(g)
  {
    var t := LookupNode(g, x);
    if t.None? then None
    else
      LookupIsNode(g, x);
      Some(VerdictOf(g.root, t.value, x, cond, pol, Ask(StepQueries(g.root, t.value, x, cond), ran)))
  }

  lemma LookupIsNode(g: OrderGraph, x: string)
    requires ValidGraph(g) && LookupNode(g, x).Some?
    ensures IsNode(g.root, LookupNode(g, x).value) && IsNamed(At(g.root, LookupNode(g, x).value))
  {
    LookupIsSuffixedName(g, x);
  }
}
