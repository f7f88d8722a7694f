/**
  The built graph mirrors the document element by element: same positions, and at
  each position the element's own identifier, type, guard, strategy and failure
  action (verifier/pipeline/graph.go: the build* methods, makeWhen).
*/
module Mirror {
  import opened Common
  import opened Strategy
  import opened Graph
  import opened Instances
  import opened Fanout
  import opened StrategySpecs
  import opened RawPipeline
  import opened Builder

  /******* Positions in a document *******/

  /** What stands at one position of a document. */
  datatype Element =
    | Document(stages: seq<StageWrapper>)
    | StageUnit(stage: RawStage)
    | GroupUnit(group: RawGroup)
    | StepUnit(step: RawStep)
    | ParallelStages(stageItems: seq<StageWrapper>)
    | ParallelSteps(stepItems: seq<StepWrapper>)
    | RollbackSteps(rollbackItems: seq<StepWrapper>)

  /** The element of one steps entry, if it stands for one. */
  function StepElement(w: StepWrapper): seq<Element> {
    match w
    case StepWrapper(_, _, StepsBlock(items)) => [ParallelSteps(items)]
    case StepWrapper(_, Some(group), NoSteps) => [GroupUnit(group)]
    case StepWrapper(Some(step), None, NoSteps) => [StepUnit(step)]
    case StepWrapper(None, None, NoSteps) => []
  }

  function StageElement(w: StageWrapper): seq<Element> {
    match w
    case StageWrapper(_, StagesBlock(items)) => [ParallelStages(items)]
    case StageWrapper(Some(stage), NoStages) => [StageUnit(stage)]
    case StageWrapper(None, NoStages) => []
  }

  /** The entries of a steps list that stand for something, in order. */
  function StepElements(ws: seq<StepWrapper>): seq<Element> {
    if ws == [] then [] else StepElements(ws[..|ws| - 1]) + StepElement(ws[|ws| - 1])
  }

  function StageElements(ws: seq<StageWrapper>): seq<Element> {
    if ws == [] then [] else StageElements(ws[..|ws| - 1]) + StageElement(ws[|ws| - 1])
  }

  /** What is nested in an element in forward order. */
  function Nested(e: Element): seq<Element> {
    match e
    case Document(stages) => StageElements(stages)
    case StageUnit(s) => if ExecutionOf(s).Some? then StepElements(ExecutionOf(s).value.steps) else []
    case GroupUnit(sg) => StepElements(sg.steps)
    case StepUnit(_) => []
    case ParallelStages(items) => StageElements(items)
    case ParallelSteps(items) => StepElements(items)
    case RollbackSteps(items) => StepElements(items)
  }

  /** A stage's rollback steps, when it has any. */
  function RollbackOf(e: Element): seq<Element> {
    if e.StageUnit? && ExecutionOf(e.stage).Some? && ExecutionOf(e.stage).value.rollbackSteps != []
    then [RollbackSteps(ExecutionOf(e.stage).value.rollbackSteps)]
    else []
  }

  /** The element at position `p`, counting nested elements and then the rollback steps. */
  function ElementAt(e: Element, p: Path): Option<Element>
    decreases |p|
  {
    if p == [] then Some(e)
    else
      var parent := ElementAt(e, Up(p));
      if parent.None? then None
      else
        var kids := Nested(parent.value) + RollbackOf(parent.value);
        if Last(p) < |kids| then Some(kids[Last(p)]) else None
  }

  /******* What a node says about its element *******/

  /** The guard of a unit is that of its element: the condition as written, the stage status or else the pipeline's. */
  predicate GuardFrom(w: Option<When>, raw: Option<RawWhen>, level: WhenLevel, owner: string) {
    && (w.Some? <==> raw.Some?)
    && (w.Some? ==>
      && w.value.level == level && w.value.ownerFqn == owner
      && (w.value.runtimeInput <==> raw.value.runtimeInput)
      && w.value.expression == (if raw.value.runtimeInput then "" else raw.value.condition)
      && (raw.value.runtimeInput ==> w.value.status == "")
      && (!raw.value.runtimeInput && raw.value.stageStatus != "" ==> w.value.status == raw.value.stageStatus)
      && (!raw.value.runtimeInput && raw.value.stageStatus == "" ==> w.value.status == raw.value.pipelineStatus))
  }

  /** The specification is what the element's strategy resolves to, if it does. */
  predicate StrategyFrom(spec: Option<StrategySpec>, rs: Option<RawStrategy>, naming: MatrixNaming) {
    && (spec.Some? <==> rs.Some?)
    && (rs.Some? ==> StrategyOf(rs.value, naming).Ok? ==> spec.value == StrategyOf(rs.value, naming).value)
  }

  /** A stage fans out by its strategy or by its deployment targets; by both, in no order that is known. */
  predicate StageStrategyFrom(spec: Option<StrategySpec>, s: RawStage, naming: MatrixNaming) {
    var deploy := DeployFanout(if s.spec.Some? then Some(s.spec.value.deploy) else None);
    && (deploy.None? ==> StrategyFrom(spec, s.strategy, naming))
    && (deploy.Some? && s.strategy.None? ==> spec == deploy)
    && (deploy.Some? && s.strategy.Some? ==> spec == Some(NotEnumerable(RuntimeInput)))
  }

  /** Some failure action is "PipelineRollback", in whatever case. */
  predicate DeclaresRollback(actions: seq<string>) {
    exists i :: 0 <= i < |actions| && EqualFold(actions[i], "PipelineRollback")
  }

  /** `n` is the node of the element, field by field; its children are compared at their own positions. */
  predicate Mirrors(n: Node, e: Element, naming: MatrixNaming) {
    && (n.pipelineRollback <==> e.StageUnit? && DeclaresRollback(e.stage.failureActions))
    && match e
      case Document(_) => n.kind.Pipeline?
      case StageUnit(s) =>
        && n.kind.Stage? && n.id == s.identifier && n.stepType == s.stageType
        && GuardFrom(n.when, s.when, LevelStage, n.fqn) && StageStrategyFrom(n.strat, s, naming)
      case GroupUnit(sg) =>
        && n.kind.StepGroup? && n.id == sg.identifier && n.stepType == ""
        && GuardFrom(n.when, sg.when, LevelStepGroup, n.fqn) && StrategyFrom(n.strat, sg.strategy, naming)
      case StepUnit(st) =>
        && n.kind.Step? && n.id == st.identifier && n.stepType == st.stepType
        && GuardFrom(n.when, st.when, LevelStep, n.fqn) && StrategyFrom(n.strat, st.strategy, naming)
      case RollbackSteps(_) => n.kind.Rollback? && n.when.None? && n.strat.None?
      case _ => n.kind.Parallel? && n.when.None? && n.strat.None?
  }

  /******* The builders *******/

  /** The node the builders make of an element, its siblings' prefix being `prefix`. */
  function NodeOf(e: Element, prefix: string, naming: MatrixNaming): Node {
    match e
    case Document(stages) => RootNode(stages, naming)
    case StageUnit(s) => StageNode(s, prefix, naming)
    case GroupUnit(sg) => GroupNode(sg, prefix, naming)
    case StepUnit(st) => StepNode(st, prefix, naming)
    case ParallelStages(items) => ParallelNode(StageNodes(items, prefix, naming))
    case ParallelSteps(items) => ParallelNode(StepNodes(items, prefix, naming))
    case RollbackSteps(items) => RollbackNode(items, prefix, naming)
  }

  /** The prefix an element puts before the identifiers of what is nested in it. */
  function InnerPrefix(e: Element, prefix: string): string {
    match e
    case Document(_) => "pipeline.stages"
    case StageUnit(s) => prefix + "." + s.identifier + ".spec.execution.steps"
    case GroupUnit(sg) => prefix + "." + sg.identifier + ".steps"
    case _ => prefix
  }

  predicate NodesAre(ns: seq<Node>, es: seq<Element>, prefix: string, naming: MatrixNaming) {
    |ns| == |es| && forall i :: 0 <= i < |ns| ==> ns[i] == NodeOf(es[i], prefix, naming)
  }

  lemma NodesConcat(ns: seq<Node>, ns': seq<Node>, es: seq<Element>, es': seq<Element>, prefix: string,
      naming: MatrixNaming)
    requires NodesAre(ns, es, prefix, naming) && NodesAre(ns', es', prefix, naming)
    ensures NodesAre(ns + ns', es + es', prefix, naming)
  {
  }

  lemma StepEntryIs(w: StepWrapper, prefix: string, naming: MatrixNaming)
    ensures NodesAre(StepEntry(w, prefix, naming), StepElement(w), prefix, naming)
  {
  }

  lemma StageEntryIs(w: StageWrapper, prefix: string, naming: MatrixNaming)
    ensures NodesAre(StageEntry(w, prefix, naming), StageElement(w), prefix, naming)
  {
  }

  lemma {:induction false} StepsAre(ws: seq<StepWrapper>, prefix: string, naming: MatrixNaming)
    ensures NodesAre(StepNodes(ws, prefix, naming), StepElements(ws), prefix, naming)
  {
    if ws != [] {
      var front, w := ws[..|ws| - 1], ws[|ws| - 1];
      StepsAre(front, prefix, naming);
      StepEntryIs(w, prefix, naming);
      NodesConcat(StepNodes(front, prefix, naming), StepEntry(w, prefix, naming), StepElements(front), StepElement(w),
        prefix, naming);
    }
  }

  lemma {:induction false} StagesAre(ws: seq<StageWrapper>, prefix: string, naming: MatrixNaming)
    ensures NodesAre(StageNodes(ws, prefix, naming), StageElements(ws), prefix, naming)
  {
    if ws != [] {
      var front, w := ws[..|ws| - 1], ws[|ws| - 1];
      StagesAre(front, prefix, naming);
      StageEntryIs(w, prefix, naming);
      NodesConcat(StageNodes(front, prefix, naming), StageEntry(w, prefix, naming), StageElements(front),
        StageElement(w), prefix, naming);
    }
  }

  /** The children of an element's node are the nodes of what is nested in it. */
  lemma ChildrenAre(e: Element, prefix: string, naming: MatrixNaming)
    ensures NodesAre(NodeOf(e, prefix, naming).children, Nested(e), InnerPrefix(e, prefix), naming)
  {
    var inner := InnerPrefix(e, prefix);
    match e
    case Document(stages) => StagesAre(stages, inner, naming);
    case StageUnit(s) =>
      if ExecutionOf(s).Some? {
        StepsAre(ExecutionOf(s).value.steps, inner, naming);
      }
    case GroupUnit(sg) => StepsAre(sg.steps, inner, naming);
    case StepUnit(_) =>
    case ParallelStages(items) => StagesAre(items, inner, naming);
    case ParallelSteps(items) => StepsAre(items, inner, naming);
    case RollbackSteps(items) => StepsAre(items, inner, naming);
  }

  lemma RollbackIs(e: Element, prefix: string, naming: MatrixNaming)
    ensures var n := NodeOf(e, prefix, naming);
      if RollbackOf(e) == [] then n.rollback.None?
      else n.rollback == Some(NodeOf(RollbackOf(e)[0], n.fqn + ".spec.execution.rollbackSteps", naming))
  {
  }

  /** One position further down. */
  lemma KidOfElement(e: Element, prefix: string, naming: MatrixNaming, i: nat)
    ensures var n, kids := NodeOf(e, prefix, naming), Nested(e) + RollbackOf(e);
      && (i < Arity(n) <==> i < |kids|)
      && (i < |kids| ==> exists q :: Kid(n, i) == NodeOf(kids[i], q, naming))
  {
    ChildrenAre(e, prefix, naming);
    RollbackIs(e, prefix, naming);
    var n, kids := NodeOf(e, prefix, naming), Nested(e) + RollbackOf(e);
    if i < |Nested(e)| {
      assert Kid(n, i) == NodeOf(kids[i], InnerPrefix(e, prefix), naming);
    } else if i < |kids| {
      assert Kid(n, i) == NodeOf(kids[i], n.fqn + ".spec.execution.rollbackSteps", naming);
    }
  }

  lemma {:induction false} NodeAtElement(e: Element, naming: MatrixNaming, p: Path) returns (prefix: string)
    ensures IsNode(NodeOf(e, "", naming), p) <==> ElementAt(e, p).Some?
    ensures ElementAt(e, p).Some? ==> At(NodeOf(e, "", naming), p) == NodeOf(ElementAt(e, p).value, prefix, naming)
    decreases |p|
  {
    prefix := "";
    if p != [] {
      var outer := NodeAtElement(e, naming, Up(p));
      if ElementAt(e, Up(p)).Some? {
        var parent := ElementAt(e, Up(p)).value;
        KidOfElement(parent, outer, naming, Last(p));
        if Last(p) < |Nested(parent) + RollbackOf(parent)| {
          prefix :| Kid(NodeOf(parent, outer, naming), Last(p)) ==
            NodeOf((Nested(parent) + RollbackOf(parent))[Last(p)], prefix, naming);
        }
      }
    }
  }

  lemma StrategyIsFrom(rs: Option<RawStrategy>, naming: MatrixNaming)
    ensures StrategyFrom(SpecOf(rs, naming), rs, naming)
  {
  }

  lemma StageStrategyIsFrom(s: RawStage, naming: MatrixNaming)
    ensures StageStrategyFrom(StageSpecOf(s, naming), s, naming)
  {
    StrategyIsFrom(s.strategy, naming);
  }

  lemma GuardIsFrom(raw: Option<RawWhen>, level: WhenLevel, owner: string)
    ensures GuardFrom(MakeWhen(raw, level, owner), raw, level, owner)
  {
  }

  lemma NodeMirrors(e: Element, prefix: string, naming: MatrixNaming)
    ensures Mirrors(NodeOf(e, prefix, naming), e, naming)
  {
    match e
    case StageUnit(s) =>
      StageStrategyIsFrom(s, naming);
      GuardIsFrom(s.when, LevelStage, prefix + "." + s.identifier);
    case GroupUnit(sg) =>
      StrategyIsFrom(sg.strategy, naming);
      GuardIsFrom(sg.when, LevelStepGroup, prefix + "." + sg.identifier);
    case StepUnit(st) =>
      StrategyIsFrom(st.strategy, naming);
      GuardIsFrom(st.when, LevelStep, prefix + "." + st.identifier);
    case _ =>
  }

  /**
    The graph has a node exactly where the document has an element, and that node
    carries the element's own fields: its guard with owner, level, condition and
    status, its strategy, and for a stage whether it rolls the pipeline back.
  */
  lemma BuildMirrors(stages: seq<StageWrapper>, naming: MatrixNaming, p: Path)
    ensures IsNode(RootNode(stages, naming), p) <==> ElementAt(Document(stages), p).Some?
    ensures IsNode(RootNode(stages, naming), p) ==>
      Mirrors(At(RootNode(stages, naming), p), ElementAt(Document(stages), p).value, naming)
  {
    var prefix := NodeAtElement(Document(stages), naming, p);
    if ElementAt(Document(stages), p).Some? {
      NodeMirrors(ElementAt(Document(stages), p).value, prefix, naming);
    }
  }

  /******* Why a document does not build *******/

  function StrategyIn(e: Element): Option<RawStrategy> {
    match e
    case StageUnit(s) => s.strategy
    case GroupUnit(sg) => sg.strategy
    case StepUnit(st) => st.strategy
    case _ => None
  }

  /** The element's own strategy does not resolve. */
  predicate Unresolvable(e: Element, naming: MatrixNaming) {
    StrategyIn(e).Some? && StrategyOf(StrategyIn(e).value, naming).Err?
  }

  /** The first strategy that does not resolve, in or below the element. */
  function FailureIn(e: Element, prefix: string, naming: MatrixNaming): Option<Failure> {
    match e
    case Document(stages) => StagesFailure(stages, "pipeline.stages", naming)
    case StageUnit(s) => StageFailure(s, prefix, naming)
    case GroupUnit(sg) => GroupFailure(sg, prefix, naming)
    case StepUnit(st) => FailureOf(st.strategy, naming, prefix + "." + st.identifier)
    case ParallelStages(items) => StagesFailure(items, prefix, naming)
    case ParallelSteps(items) => StepsFailure(items, prefix, naming)
    case RollbackSteps(items) => StepsFailure(items, prefix, naming)
  }

  /** None of the elements, taken with some prefix, has a failure. */
  ghost predicate NoneFail(es: seq<Element>, naming: MatrixNaming) {
    forall i :: 0 <= i < |es| ==> Passes(es[i], naming)
  }

  ghost predicate Passes(e: Element, naming: MatrixNaming) {
    exists prefix :: FailureIn(e, prefix, naming).None?
  }

  lemma {:induction false} StepsPass(ws: seq<StepWrapper>, prefix: string, naming: MatrixNaming)
    requires StepsFailure(ws, prefix, naming).None?
    ensures NoneFail(StepElements(ws), naming)
  {
    if ws != [] {
      StepsPass(ws[..|ws| - 1], prefix, naming);
      StepPasses(ws[|ws| - 1], prefix, naming);
    }
  }

  lemma StepPasses(w: StepWrapper, prefix: string, naming: MatrixNaming)
    requires EntryFailure(w, prefix, naming).None?
    ensures NoneFail(StepElement(w), naming)
  {
    if StepElement(w) != [] {
      assert FailureIn(StepElement(w)[0], prefix, naming).None?;
    }
  }

  lemma {:induction false} StagesPass(ws: seq<StageWrapper>, prefix: string, naming: MatrixNaming)
    requires StagesFailure(ws, prefix, naming).None?
    ensures NoneFail(StageElements(ws), naming)
  {
    if ws != [] {
      StagesPass(ws[..|ws| - 1], prefix, naming);
      StagePasses(ws[|ws| - 1], prefix, naming);
    }
  }

  lemma StagePasses(w: StageWrapper, prefix: string, naming: MatrixNaming)
    requires StageEntryFailure(w, prefix, naming).None?
    ensures NoneFail(StageElement(w), naming)
  {
    if StageElement(w) != [] {
      assert FailureIn(StageElement(w)[0], prefix, naming).None?;
    }
  }

  lemma StagePartsPass(s: RawStage, prefix: string, naming: MatrixNaming)
    requires StageFailure(s, prefix, naming).None?
    ensures NoneFail(Nested(StageUnit(s)) + RollbackOf(StageUnit(s)), naming)
  {
    if ExecutionOf(s).Some? {
      var ex, fqn := ExecutionOf(s).value, prefix + "." + s.identifier;
      StepsPass(ex.steps, fqn + ".spec.execution.steps", naming);
      assert FailureIn(RollbackSteps(ex.rollbackSteps), fqn + ".spec.execution.rollbackSteps", naming).None?;
    }
  }

  /** Without a failure the element's own strategy resolves and nothing inside fails. */
  lemma NothingFailsInside(e: Element, prefix: string, naming: MatrixNaming)
    requires FailureIn(e, prefix, naming).None?
    ensures !Unresolvable(e, naming) && NoneFail(Nested(e) + RollbackOf(e), naming)
  {
    match e
    case Document(stages) => StagesPass(stages, "pipeline.stages", naming);
    case StageUnit(s) => StagePartsPass(s, prefix, naming);
    case GroupUnit(sg) => StepsPass(sg.steps, prefix + "." + sg.identifier + ".steps", naming);
    case StepUnit(_) =>
    case ParallelStages(items) => StagesPass(items, prefix, naming);
    case ParallelSteps(items) => StepsPass(items, prefix, naming);
    case RollbackSteps(items) => StepsPass(items, prefix, naming);
  }

  lemma {:induction false} PassesEverywhere(e: Element, naming: MatrixNaming, p: Path)
    requires Passes(e, naming) && ElementAt(e, p).Some?
    ensures Passes(ElementAt(e, p).value, naming) && !Unresolvable(ElementAt(e, p).value, naming)
    decreases |p|
  {
    if p != [] {
      PassesEverywhere(e, naming, Up(p));
      var parent := ElementAt(e, Up(p)).value;
      var outer :| FailureIn(parent, outer, naming).None?;
      NothingFailsInside(parent, outer, naming);
    }
    var prefix :| FailureIn(ElementAt(e, p).value, prefix, naming).None?;
    NothingFailsInside(ElementAt(e, p).value, prefix, naming);
  }

  /** Entering an element first or last makes no difference. */
  lemma {:induction false} ElementCons(e: Element, i: nat, rel: Path)
    requires i < |Nested(e) + RollbackOf(e)|
    ensures ElementAt(e, [i] + rel) == ElementAt((Nested(e) + RollbackOf(e))[i], rel)
    decreases |rel|
  {
    var p := [i] + rel;
    if rel == [] {
      assert p == [i] && Up(p) == [];
    } else {
      ElementCons(e, i, Up(rel));
      assert Up(p) == [i] + Up(rel) && Last(p) == Last(rel);
    }
  }

  /** Somewhere in or below `e` a strategy does not resolve. */
  ghost predicate Faulty(e: Element, naming: MatrixNaming) {
    exists p :: ElementAt(e, p).Some? && Unresolvable(ElementAt(e, p).value, naming)
  }

  lemma FaultyInside(e: Element, naming: MatrixNaming, i: nat)
    requires i < |Nested(e) + RollbackOf(e)| && Faulty((Nested(e) + RollbackOf(e))[i], naming)
    ensures Faulty(e, naming)
  {
    var kid := (Nested(e) + RollbackOf(e))[i];
    var rel :| ElementAt(kid, rel).Some? && Unresolvable(ElementAt(kid, rel).value, naming);
    ElementCons(e, i, rel);
  }

  lemma FaultyItself(e: Element, naming: MatrixNaming)
    requires Unresolvable(e, naming)
    ensures Faulty(e, naming)
  {
    assert ElementAt(e, []) == Some(e);
  }

  ghost predicate SomeFaulty(es: seq<Element>, naming: MatrixNaming) {
    exists i :: 0 <= i < |es| && Faulty(es[i], naming)
  }

  lemma FaultyPart(e: Element, naming: MatrixNaming)
    requires SomeFaulty(Nested(e), naming) || SomeFaulty(RollbackOf(e), naming)
    ensures Faulty(e, naming)
  {
    var kids := Nested(e) + RollbackOf(e);
    if i :| 0 <= i < |Nested(e)| && Faulty(Nested(e)[i], naming) {
      assert kids[i] == Nested(e)[i];
      FaultyInside(e, naming, i);
    } else {
      var i :| 0 <= i < |RollbackOf(e)| && Faulty(RollbackOf(e)[i], naming);
      assert kids[|Nested(e)| + i] == RollbackOf(e)[i];
      FaultyInside(e, naming, |Nested(e)| + i);
    }
  }

  lemma {:induction false} StepsFault(ws: seq<StepWrapper>, prefix: string, naming: MatrixNaming)
    requires StepsFailure(ws, prefix, naming).Some?
    ensures SomeFaulty(StepElements(ws), naming)
    decreases ws
  {
    var front, w := ws[..|ws| - 1], ws[|ws| - 1];
    if StepsFailure(front, prefix, naming).Some? {
      StepsFault(front, prefix, naming);
      FaultyFront(StepElements(front), StepElement(w), naming);
    } else {
      EntryFaults(w, prefix, naming);
      FaultyBack(StepElements(front), StepElement(w)[0], naming);
    }
  }

  lemma FaultyFront(a: seq<Element>, b: seq<Element>, naming: MatrixNaming)
    requires SomeFaulty(a, naming)
    ensures SomeFaulty(a + b, naming)
  {
    var i :| 0 <= i < |a| && Faulty(a[i], naming);
    assert (a + b)[i] == a[i];
  }

  lemma FaultyBack(a: seq<Element>, e: Element, naming: MatrixNaming)
    requires Faulty(e, naming)
    ensures SomeFaulty(a + [e], naming)
  {
    assert (a + [e])[|a|] == e;
  }

  lemma {:induction false} EntryFaults(w: StepWrapper, prefix: string, naming: MatrixNaming)
    requires EntryFailure(w, prefix, naming).Some?
    ensures |StepElement(w)| == 1 && Faulty(StepElement(w)[0], naming)
    decreases w
  {
    var e := StepElement(w)[0];
    if w.parallel.StepsBlock? {
      StepsFault(w.parallel.items, prefix, naming);
      FaultyPart(e, naming);
    } else if w.stepGroup.Some? {
      GroupFaults(w.stepGroup.value, prefix, naming);
    } else {
      FaultyItself(e, naming);
    }
  }

  lemma {:induction false} GroupFaults(sg: RawGroup, prefix: string, naming: MatrixNaming)
    requires GroupFailure(sg, prefix, naming).Some?
    ensures Faulty(GroupUnit(sg), naming)
    decreases sg
  {
    if Unresolvable(GroupUnit(sg), naming) {
      FaultyItself(GroupUnit(sg), naming);
    } else {
      StepsFault(sg.steps, prefix + "." + sg.identifier + ".steps", naming);
      FaultyPart(GroupUnit(sg), naming);
    }
  }

  lemma StageFaults(s: RawStage, prefix: string, naming: MatrixNaming)
    requires StageFailure(s, prefix, naming).Some?
    ensures Faulty(StageUnit(s), naming)
  {
    var e, fqn := StageUnit(s), prefix + "." + s.identifier;
    if Unresolvable(e, naming) {
      FaultyItself(e, naming);
    } else {
      var ex := ExecutionOf(s).value;
      if StepsFailure(ex.steps, fqn + ".spec.execution.steps", naming).Some? {
        StepsFault(ex.steps, fqn + ".spec.execution.steps", naming);
      } else {
        StepsFault(ex.rollbackSteps, fqn + ".spec.execution.rollbackSteps", naming);
        FaultyPart(RollbackSteps(ex.rollbackSteps), naming);
        FaultyBack([], RollbackSteps(ex.rollbackSteps), naming);
        assert [] + [RollbackSteps(ex.rollbackSteps)] == RollbackOf(e);
      }
      FaultyPart(e, naming);
    }
  }

  lemma {:induction false} StagesFault(ws: seq<StageWrapper>, prefix: string, naming: MatrixNaming)
    requires StagesFailure(ws, prefix, naming).Some?
    ensures SomeFaulty(StageElements(ws), naming)
    decreases ws
  {
    var front, w := ws[..|ws| - 1], ws[|ws| - 1];
    if StagesFailure(front, prefix, naming).Some? {
      StagesFault(front, prefix, naming);
      FaultyFront(StageElements(front), StageElement(w), naming);
    } else {
      StageEntryFaults(w, prefix, naming);
      FaultyBack(StageElements(front), StageElement(w)[0], naming);
    }
  }

  lemma {:induction false} StageEntryFaults(w: StageWrapper, prefix: string, naming: MatrixNaming)
    requires StageEntryFailure(w, prefix, naming).Some?
    ensures |StageElement(w)| == 1 && Faulty(StageElement(w)[0], naming)
    decreases w
  {
    if w.parallel.StagesBlock? {
      StagesFault(w.parallel.items, prefix, naming);
      FaultyPart(StageElement(w)[0], naming);
    } else {
      StageFaults(w.stage.value, prefix, naming);
    }
  }

  /** Two units of the document have the same FQN. */
  ghost predicate NameClash(root: Node) {
    exists p, q :: p != q && IsNode(root, p) && IsNode(root, q) && IsNamed(At(root, p)) && IsNamed(At(root, q)) &&
      At(root, p).fqn == At(root, q).fqn
  }

  predicate PathsApart(es: seq<(string, Path)>) {
    forall i, j :: 0 <= i < j < |es| ==> es[i].1 != es[j].1
  }

  /** Every entry lies at or below position `q`. */
  predicate AllBelow(es: seq<(string, Path)>, q: Path) {
    forall i :: 0 <= i < |es| ==> q <= es[i].1
  }

  lemma EntriesBelow(n: Node, p: Path)
    ensures AllBelow(EntriesOf(n, p), p)
  {
    var es := EntriesOf(n, p);
    forall i | 0 <= i < |es| ensures p <= es[i].1 {
      assert es[i] in es;
      var rel := EntriesAreNamed(n, p, es[i].0, es[i].1);
    }
  }

  lemma ApartConcat(a: seq<(string, Path)>, b: seq<(string, Path)>)
    requires PathsApart(a) && PathsApart(b)
    requires forall i, j :: 0 <= i < |a| && 0 <= j < |b| ==> a[i].1 != b[j].1
    ensures PathsApart(a + b)
  {
  }

  /** The entries of the first siblings lie below their own positions. */
  predicate BelowFirst(es: seq<(string, Path)>, p: Path, k: nat) {
    forall i :: 0 <= i < |es| ==> p < es[i].1 && es[i].1[|p|] < k
  }

  lemma BelowChild(es: seq<(string, Path)>, p: Path, k: nat)
    requires AllBelow(es, p + [k])
    ensures forall i :: 0 <= i < |es| ==> p < es[i].1 && es[i].1[|p|] == k
  {
    forall i | 0 <= i < |es| ensures p < es[i].1 && es[i].1[|p|] == k {
      assert es[i].1[|p|] == (p + [k])[|p|];
      assert es[i].1[..|p|] == es[i].1[..|p| + 1][..|p|] == p;
    }
  }

  lemma {:induction false} SiblingsApart(ns: seq<Node>, p: Path)
    ensures PathsApart(SiblingEntries(ns, p)) && BelowFirst(SiblingEntries(ns, p), p, |ns|)
    decreases ns
  {
    if ns != [] {
      var m := |ns| - 1;
      SiblingsApart(ns[..m], p);
      UnitApart(ns[m], p + [m]);
      BelowChild(EntriesOf(ns[m], p + [m]), p, m);
      ApartConcat(SiblingEntries(ns[..m], p), EntriesOf(ns[m], p + [m]));
    }
  }

  /** Each position is registered once. */
  lemma {:induction false} UnitApart(n: Node, p: Path)
    ensures PathsApart(EntriesOf(n, p)) && AllBelow(EntriesOf(n, p), p)
    decreases n
  {
    EntriesBelow(n, p);
    SiblingsApart(n.children, p);
    var forward := SiblingEntries(n.children, p);
    var back := if n.rollback.Some? then EntriesOf(n.rollback.value, p + [|n.children|]) else [];
    var own := if IsNamed(n) then [(n.fqn, p)] else [];
    if n.rollback.Some? {
      UnitApart(n.rollback.value, p + [|n.children|]);
      BelowChild(back, p, |n.children|);
    }
    ApartConcat(forward, back);
    ApartConcat(forward + back, own);
  }

  /** Registration reports a duplicate exactly when two units have one FQN. */
  lemma DuplicatesAreClashes(root: Node)
    ensures RegisterAll(NameIndex(map[], []), EntriesOf(root, [])).duplicates != [] <==> NameClash(root)
  {
    var es := EntriesOf(root, []);
    DuplicatesMean(es);
    UnitApart(root, []);
    if !DistinctNamesIn(es) {
      var i, j :| 0 <= i < j < |es| && es[i].0 == es[j].0;
      EntryIsUnit(root, es, i);
      EntryIsUnit(root, es, j);
    }
    if NameClash(root) {
      var p, q :| p != q && IsNode(root, p) && IsNode(root, q) && IsNamed(At(root, p)) && IsNamed(At(root, q)) &&
        At(root, p).fqn == At(root, q).fqn;
      var i := UnitIsEntry(root, es, p);
      var j := UnitIsEntry(root, es, q);
      assert es[i].0 == es[j].0 && i != j;
    }
  }

  lemma EntryIsUnit(root: Node, es: seq<(string, Path)>, i: nat)
    requires es == EntriesOf(root, []) && i < |es|
    ensures IsNode(root, es[i].1) && IsNamed(At(root, es[i].1)) && At(root, es[i].1).fqn == es[i].0
  {
    assert es[i] in es;
    var rel := EntriesAreNamed(root, [], es[i].0, es[i].1);
    assert [] + rel == rel;
  }

  lemma UnitIsEntry(root: Node, es: seq<(string, Path)>, p: Path) returns (i: nat)
    requires es == EntriesOf(root, []) && IsNode(root, p) && IsNamed(At(root, p))
    ensures i < |es| && es[i] == (At(root, p).fqn, p)
  {
    NamedAreEntries(root, [], p);
    assert [] + p == p;
    i :| 0 <= i < |es| && es[i] == (At(root, p).fqn, p);
  }

  lemma FaultyIsFailure(stages: seq<StageWrapper>, naming: MatrixNaming)
    ensures StagesFailure(stages, "pipeline.stages", naming).Some? <==> Faulty(Document(stages), naming)
  {
    var doc := Document(stages);
    if StagesFailure(stages, "pipeline.stages", naming).Some? {
      StagesFault(stages, "pipeline.stages", naming);
      FaultyPart(doc, naming);
    } else {
      assert FailureIn(doc, "", naming).None?;
      forall p | ElementAt(doc, p).Some? ensures !Unresolvable(ElementAt(doc, p).value, naming) {
        PassesEverywhere(doc, naming, p);
      }
    }
  }

  /**
    A document fails to build exactly when some strategy in it, rollback steps
    included, does not resolve, or two of its units have one FQN.
  */
  lemma BuildFailsExactly(stages: seq<StageWrapper>, naming: MatrixNaming)
    ensures BuildFails(Some(stages), naming).Some? <==>
      Faulty(Document(stages), naming) || NameClash(RootNode(stages, naming))
  {
    FaultyIsFailure(stages, naming);
    DuplicatesAreClashes(RootNode(stages, naming));
  }
}
