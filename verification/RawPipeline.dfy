/**
  The decoded pipeline document and the graph nodes built from it
  (verifier/pipeline/graph.go: the raw* types and the build* functions).
*/
module RawPipeline {
  import opened Common
  import opened Strategy
  import opened Graph
  import opened Fanout
  import opened StrategySpecs

  /******* The decoded document *******/

  datatype RawWhen = RawWhen(runtimeInput: bool, stageStatus: string, pipelineStatus: string, condition: string)

  datatype RawStep = RawStep(identifier: string, stepType: string, when: Option<RawWhen>, strategy: Option<RawStrategy>)

  datatype RawGroup = RawGroup(identifier: string, when: Option<RawWhen>, strategy: Option<RawStrategy>,
      steps: seq<StepWrapper>)

  /** One steps entry; the first field present, parallel before stepGroup before step, decides. */
  datatype StepWrapper = StepWrapper(step: Option<RawStep>, stepGroup: Option<RawGroup>, parallel: StepBlock)

  /** The value of a `parallel` key, if there is one. */
  datatype StepBlock = NoSteps | StepsBlock(items: seq<StepWrapper>)

  datatype RawExecution = RawExecution(steps: seq<StepWrapper>, rollbackSteps: seq<StepWrapper>)

  datatype RawStageSpec = RawStageSpec(deploy: DeploySpec, execution: Option<RawExecution>)

  datatype RawStage = RawStage(
    identifier: string,
    stageType: string,
    when: Option<RawWhen>,
    strategy: Option<RawStrategy>,
    spec: Option<RawStageSpec>,
    failureActions: seq<string>)

  datatype StageWrapper = StageWrapper(stage: Option<RawStage>, parallel: StageBlock)

  datatype StageBlock = NoStages | StagesBlock(items: seq<StageWrapper>)

  /******* Guards and strategies *******/

  /** makeWhen: a stage guard carries pipelineStatus, a step or group guard stageStatus. */
  function MakeWhen(rw: Option<RawWhen>, level: WhenLevel, owner: string): Option<When> {
    if rw.None? then None
    else if rw.value.runtimeInput then Some(When(level, owner, "", "", true))
    else
      var status := if rw.value.stageStatus == "" then rw.value.pipelineStatus else rw.value.stageStatus;
      Some(When(level, owner, status, rw.value.condition, false))
  }

  /** The first strategy that does not resolve, with the FQN of its unit. */
  datatype Failure = Failure(fqn: string, error: BuildError)

  /** stratSpec: the specification, unused when resolution fails. */
  function SpecOf(rs: Option<RawStrategy>, naming: MatrixNaming): Option<StrategySpec> {
    if rs.None? then None
    else match StrategyOf(rs.value, naming)
      case Ok(spec) => Some(spec)
      case Err(_) => Some(NotEnumerable(Unset))
  }

  function FailureOf(rs: Option<RawStrategy>, naming: MatrixNaming, fqn: string): Option<Failure> {
    if rs.Some? && StrategyOf(rs.value, naming).Err? then Some(Failure(fqn, StrategyOf(rs.value, naming).error))
      else None
  }

  function First(a: Option<Failure>, b: Option<Failure>): Option<Failure> {
    if a.Some? then a else b
  }

  /** Unicode simple folding, as far as the letters of "PipelineRollback" are concerned. */
  function Fold(c: char): char {
    if 'A' <= c <= 'Z' then c - 'A' + 'a' else if c == '\U{212A}' then 'k' else if c == '\U{017F}' then 's' else c
  }

  predicate EqualFold(a: string, b: string) {
    |a| == |b| && forall i :: 0 <= i < |a| ==> Fold(a[i]) == Fold(b[i])
  }

  predicate RollsBackPipeline(actions: seq<string>) {
    exists i :: 0 <= i < |actions| && EqualFold(actions[i], "PipelineRollback")
  }

  /******* Steps *******/

  function StepNode(st: RawStep, prefix: string, naming: MatrixNaming): Node {
    var fqn := prefix + "." + st.identifier;
    Node(Step, st.identifier, fqn, st.stepType, MakeWhen(st.when, LevelStep, fqn), SpecOf(st.strategy, naming), [],
      None, false)
  }

  function GroupNode(sg: RawGroup, prefix: string, naming: MatrixNaming): Node
    decreases sg
  {
    var fqn := prefix + "." + sg.identifier;
    Node(StepGroup, sg.identifier, fqn, "", MakeWhen(sg.when, LevelStepGroup, fqn), SpecOf(sg.strategy, naming),
         StepNodes(sg.steps, fqn + ".steps", naming), None, false)
  }

  function ParallelNode(children: seq<Node>): Node {
    Node(Parallel, "", "", "", None, None, children, None, false)
  }

  /** The node of one entry; an entry with no field present contributes none. */
  function StepEntry(w: StepWrapper, prefix: string, naming: MatrixNaming): seq<Node>
    decreases w
  {
    if w.parallel.StepsBlock? then [ParallelNode(StepNodes(w.parallel.items, prefix, naming))]
    else if w.stepGroup.Some? then [GroupNode(w.stepGroup.value, prefix, naming)]
    else if w.step.Some? then [StepNode(w.step.value, prefix, naming)]
    else []
  }

  function StepNodes(ws: seq<StepWrapper>, prefix: string, naming: MatrixNaming): seq<Node>
    decreases ws
  {
    if ws == [] then []
    else StepNodes(ws[..|ws| - 1], prefix, naming) + StepEntry(ws[|ws| - 1], prefix, naming)
  }

  function GroupFailure(sg: RawGroup, prefix: string, naming: MatrixNaming): Option<Failure>
    decreases sg
  {
    var fqn := prefix + "." + sg.identifier;
    First(FailureOf(sg.strategy, naming, fqn), StepsFailure(sg.steps, fqn + ".steps", naming))
  }

  function EntryFailure(w: StepWrapper, prefix: string, naming: MatrixNaming): Option<Failure>
    decreases w
  {
    if w.parallel.StepsBlock? then StepsFailure(w.parallel.items, prefix, naming)
    else if w.stepGroup.Some? then GroupFailure(w.stepGroup.value, prefix, naming)
    else if w.step.Some? then FailureOf(w.step.value.strategy, naming, prefix + "." + w.step.value.identifier)
    else None
  }

  function StepsFailure(ws: seq<StepWrapper>, prefix: string, naming: MatrixNaming): Option<Failure>
    decreases ws
  {
    if ws == [] then None
    else First(StepsFailure(ws[..|ws| - 1], prefix, naming), EntryFailure(ws[|ws| - 1], prefix, naming))
  }

  /******* Stages *******/

  function StageSpecOf(s: RawStage, naming: MatrixNaming): Option<StrategySpec> {
    CombineStageSpecs(SpecOf(s.strategy, naming), DeployFanout(if s.spec.Some? then Some(s.spec.value.deploy)
      else None))
  }

  function ExecutionOf(s: RawStage): Option<RawExecution> {
    if s.spec.Some? then s.spec.value.execution else None
  }

  function RollbackNode(ws: seq<StepWrapper>, fqn: string, naming: MatrixNaming): Node {
    Node(Rollback, "", fqn, "", None, None, StepNodes(ws, fqn, naming), None, false)
  }

  function StageNode(s: RawStage, prefix: string, naming: MatrixNaming): Node {
    var fqn := prefix + "." + s.identifier;
    var ex := ExecutionOf(s);
    Node(Stage, s.identifier, fqn, s.stageType, MakeWhen(s.when, LevelStage, fqn), StageSpecOf(s, naming),
         if ex.Some? then StepNodes(ex.value.steps, fqn + ".spec.execution.steps", naming) else [],
         if ex.Some? && ex.value.rollbackSteps != []
         then Some(RollbackNode(ex.value.rollbackSteps, fqn + ".spec.execution.rollbackSteps", naming)) else None,
         RollsBackPipeline(s.failureActions))
  }

  function StageEntry(w: StageWrapper, prefix: string, naming: MatrixNaming): seq<Node>
    decreases w
  {
    if w.parallel.StagesBlock? then [ParallelNode(StageNodes(w.parallel.items, prefix, naming))]
    else if w.stage.Some? then [StageNode(w.stage.value, prefix, naming)]
    else []
  }

  function StageNodes(ws: seq<StageWrapper>, prefix: string, naming: MatrixNaming): seq<Node>
    decreases ws
  {
    if ws == [] then []
    else StageNodes(ws[..|ws| - 1], prefix, naming) + StageEntry(ws[|ws| - 1], prefix, naming)
  }

  function StageFailure(s: RawStage, prefix: string, naming: MatrixNaming): Option<Failure> {
    var fqn := prefix + "." + s.identifier;
    var ex := ExecutionOf(s);
    First(FailureOf(s.strategy, naming, fqn),
      if ex.None? then None
      else First(StepsFailure(ex.value.steps, fqn + ".spec.execution.steps", naming),
                 StepsFailure(ex.value.rollbackSteps, fqn + ".spec.execution.rollbackSteps", naming)))
  }

  function StageEntryFailure(w: StageWrapper, prefix: string, naming: MatrixNaming): Option<Failure>
    decreases w
  {
    if w.parallel.StagesBlock? then StagesFailure(w.parallel.items, prefix, naming)
    else if w.stage.Some? then StageFailure(w.stage.value, prefix, naming)
    else None
  }

  function StagesFailure(ws: seq<StageWrapper>, prefix: string, naming: MatrixNaming): Option<Failure>
    decreases ws
  {
    if ws == [] then None
    else First(StagesFailure(ws[..|ws| - 1], prefix, naming), StageEntryFailure(ws[|ws| - 1], prefix, naming))
  }

  function RootNode(stages: seq<StageWrapper>, naming: MatrixNaming): Node {
    Node(Pipeline, "", "", "", None, None, StageNodes(stages, "pipeline.stages", naming), None, false)
  }
}
