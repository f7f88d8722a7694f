/** Every graph that BuildGraph returns is valid: shape, names, strategies and index. */
module BuiltGraphs {
  import opened Common
  import opened Strategy
  import opened Graph
  import opened Naming
  import opened Instances
  import opened Lookup
  import opened Frontier
  import opened Fanout
  import opened StrategySpecs
  import opened RawPipeline
  import opened Builder

  /******* Decoded documents *******/

  predicate DecodedStrategy(rs: Option<RawStrategy>) {
    rs.Some? ==> Decoded(rs.value)
  }

  predicate DecodedEntry(w: StepWrapper)
    decreases w
  {
    && (w.step.Some? ==> DecodedStrategy(w.step.value.strategy))
    && (w.stepGroup.Some? ==> DecodedGroup(w.stepGroup.value))
    && (w.parallel.StepsBlock? ==> DecodedSteps(w.parallel.items))
  }

  predicate DecodedGroup(sg: RawGroup)
    decreases sg
  {
    DecodedStrategy(sg.strategy) && DecodedSteps(sg.steps)
  }

  predicate DecodedSteps(ws: seq<StepWrapper>)
    decreases ws
  {
    forall i :: 0 <= i < |ws| ==> DecodedEntry(ws[i])
  }

  predicate DecodedStage(s: RawStage) {
    && DecodedStrategy(s.strategy)
    && (ExecutionOf(s).Some? ==>
      DecodedSteps(ExecutionOf(s).value.steps) && DecodedSteps(ExecutionOf(s).value.rollbackSteps))
  }

  predicate DecodedStageEntry(w: StageWrapper)
    decreases w
  {
    && (w.stage.Some? ==> DecodedStage(w.stage.value))
    && (w.parallel.StagesBlock? ==> DecodedStages(w.parallel.items))
  }

  predicate DecodedStages(ws: seq<StageWrapper>)
    decreases ws
  {
    forall i :: 0 <= i < |ws| ==> DecodedStageEntry(ws[i])
  }

  /******* The structure of built nodes *******/

  /** The prefix a unit's children put before their identifiers. */
  function PrefixFor(n: Node, prefix: string): string {
    match n.kind
    case Pipeline => "pipeline.stages"
    case Stage => n.fqn + ".spec.execution.steps"
    case StepGroup => n.fqn + ".steps"
    case Rollback => n.fqn
    case Parallel => prefix
    case Step => ""
  }

  predicate NameFits(n: Node, prefix: string) {
    match n.kind
    case Pipeline => n.fqn == ""
    case Parallel => n.fqn == ""
    case Rollback => n.fqn == prefix
    case _ => n.fqn == prefix + "." + n.id
  }

  /** A node as the builders make it when its siblings' prefix is `prefix`. */
  predicate Built(n: Node, prefix: string)
    decreases n
  {
    && LocalShape(n) && NameFits(n, prefix) && (n.strat.Some? ==> ValidSpec(n.strat.value))
    && (forall i :: 0 <= i < |n.children| ==> Built(n.children[i], PrefixFor(n, prefix)))
    && (n.rollback.Some? ==> Built(n.rollback.value, n.fqn + ".spec.execution.rollbackSteps"))
  }

  predicate AllBuilt(ns: seq<Node>, prefix: string) {
    forall i :: 0 <= i < |ns| ==> Built(ns[i], prefix) && !ns[i].kind.Rollback? && !ns[i].kind.Pipeline?
  }

  lemma SpecIsValid(rs: Option<RawStrategy>, naming: MatrixNaming, fqn: string)
    requires DecodedStrategy(rs) && FailureOf(rs, naming, fqn).None? && SpecOf(rs, naming).Some?
    ensures ValidSpec(SpecOf(rs, naming).value)
  {
    ResolvedStrategyIsValid(rs.value, naming);
  }

  lemma {:induction false} StepNodesBuilt(ws: seq<StepWrapper>, prefix: string, naming: MatrixNaming)
    requires DecodedSteps(ws) && StepsFailure(ws, prefix, naming).None?
    ensures AllBuilt(StepNodes(ws, prefix, naming), prefix)
    decreases ws
  {
    if ws != [] {
      var front, w := ws[..|ws| - 1], ws[|ws| - 1];
      StepNodesBuilt(front, prefix, naming);
      EntryBuilt(w, prefix, naming);
    }
  }

  lemma {:induction false} EntryBuilt(w: StepWrapper, prefix: string, naming: MatrixNaming)
    requires DecodedEntry(w) && EntryFailure(w, prefix, naming).None?
    ensures AllBuilt(StepEntry(w, prefix, naming), prefix)
    decreases w
  {
    if w.parallel.StepsBlock? {
      StepNodesBuilt(w.parallel.items, prefix, naming);
    } else if w.stepGroup.Some? {
      GroupBuilt(w.stepGroup.value, prefix, naming);
    } else if w.step.Some? {
      var st := w.step.value;
      if st.strategy.Some? {
        SpecIsValid(st.strategy, naming, prefix + "." + st.identifier);
      }
    }
  }

  lemma {:induction false} GroupBuilt(sg: RawGroup, prefix: string, naming: MatrixNaming)
    requires DecodedGroup(sg) && GroupFailure(sg, prefix, naming).None?
    ensures Built(GroupNode(sg, prefix, naming), prefix)
    decreases sg
  {
    var fqn := prefix + "." + sg.identifier;
    StepNodesBuilt(sg.steps, fqn + ".steps", naming);
    if sg.strategy.Some? {
      SpecIsValid(sg.strategy, naming, fqn);
    }
  }

  lemma StageSpecIsValid(s: RawStage, naming: MatrixNaming, fqn: string)
    requires DecodedStrategy(s.strategy) && FailureOf(s.strategy, naming, fqn).None? && StageSpecOf(s, naming).Some?
    ensures ValidSpec(StageSpecOf(s, naming).value)
  {
    var deploy := if s.spec.Some? then Some(s.spec.value.deploy) else None;
    if s.strategy.Some? {
      SpecIsValid(s.strategy, naming, fqn);
    }
    if DeployFanout(deploy).Some? {
      DeployFanoutIsValid(deploy);
    }
  }

  lemma RollbackBuilt(ws: seq<StepWrapper>, fqn: string, naming: MatrixNaming)
    requires DecodedSteps(ws) && StepsFailure(ws, fqn, naming).None?
    ensures Built(RollbackNode(ws, fqn, naming), fqn)
  {
    StepNodesBuilt(ws, fqn, naming);
  }

  lemma StageBuilt(s: RawStage, prefix: string, naming: MatrixNaming)
    requires DecodedStage(s) && StageFailure(s, prefix, naming).None?
    ensures Built(StageNode(s, prefix, naming), prefix)
  {
    var fqn := prefix + "." + s.identifier;
    if StageSpecOf(s, naming).Some? {
      StageSpecIsValid(s, naming, fqn);
    }
    var ex := ExecutionOf(s);
    if ex.Some? {
      StepNodesBuilt(ex.value.steps, fqn + ".spec.execution.steps", naming);
      RollbackBuilt(ex.value.rollbackSteps, fqn + ".spec.execution.rollbackSteps", naming);
    }
  }

  lemma {:induction false} StageNodesBuilt(ws: seq<StageWrapper>, prefix: string, naming: MatrixNaming)
    requires DecodedStages(ws) && StagesFailure(ws, prefix, naming).None?
    ensures AllBuilt(StageNodes(ws, prefix, naming), prefix)
    decreases ws
  {
    if ws != [] {
      StageNodesBuilt(ws[..|ws| - 1], prefix, naming);
      StageEntryBuilt(ws[|ws| - 1], prefix, naming);
    }
  }

  lemma {:induction false} StageEntryBuilt(w: StageWrapper, prefix: string, naming: MatrixNaming)
    requires DecodedStageEntry(w) && StageEntryFailure(w, prefix, naming).None?
    ensures AllBuilt(StageEntry(w, prefix, naming), prefix)
    decreases w
  {
    if w.parallel.StagesBlock? {
      StageNodesBuilt(w.parallel.items, prefix, naming);
    } else if w.stage.Some? {
      StageBuilt(w.stage.value, prefix, naming);
    }
  }

  /******* From structure to positions *******/

  /** The prefix in force among the siblings of position `p`. */
  function PrefixAt(root: Node, p: Path): string
    requires IsNode(root, p)
    decreases |p|
  {
    if p == [] then ""
    else if Last(p) < |At(root, Up(p)).children| then PrefixFor(At(root, Up(p)), PrefixAt(root, Up(p)))
    else At(root, Up(p)).fqn + ".spec.execution.rollbackSteps"
  }

  lemma {:induction false} BuiltAt(root: Node, p: Path)
    requires Built(root, "") && IsNode(root, p)
    ensures Built(At(root, p), PrefixAt(root, p))
    ensures p != [] && At(root, p).kind.Rollback? ==>
        At(root, Up(p)).kind.Stage? && Last(p) == |At(root, Up(p)).children|
    ensures p != [] ==> !At(root, p).kind.Pipeline?
    decreases |p|
  {
    if p != [] {
      BuiltAt(root, Up(p));
    }
  }

  /** What the children of `p` are named after is `p`'s own name and tail. */
  predicate PrefixNamed(root: Node, p: Path)
    requires IsNode(root, p)
  {
    PrefixFor(At(root, p), PrefixAt(root, p)) == BaseFqn(root, p) + KidTail(root, p)
  }

  lemma RootNamed(root: Node)
    requires Built(root, "") && root.kind.Pipeline?
    ensures LocalName(root, []) && PrefixNamed(root, [])
  {
  }

  lemma Appended(base: string, tail: string, id: string)
    ensures (base + tail) + "." + id == base + (tail + "." + id)
  {
  }

  /** A unit with an identifier is named below its parent. */
  lemma UnitNamed(root: Node, p: Path)
    requires IsNode(root, p) && p != [] && !At(root, p).kind.Rollback? && !At(root, p).kind.Parallel? &&
        !At(root, p).kind.Pipeline?
    requires NameFits(At(root, p), PrefixAt(root, p))
    requires PrefixAt(root, p) == BaseFqn(root, Up(p)) + KidTail(root, Up(p))
    ensures LocalName(root, p) && (!At(root, p).kind.Step? ==> PrefixNamed(root, p))
  {
    Appended(BaseFqn(root, Up(p)), KidTail(root, Up(p)), At(root, p).id);
  }

  lemma RollbackNamed(root: Node, p: Path)
    requires IsNode(root, p) && p != [] && At(root, p).kind.Rollback? && At(root, Up(p)).kind.Stage?
    requires Last(p) >= |At(root, Up(p)).children| && NameFits(At(root, p), PrefixAt(root, p))
    ensures LocalName(root, p) && PrefixNamed(root, p)
  {
    assert At(root, p).fqn + "" == At(root, p).fqn;
  }

  lemma {:induction false} NamesAt(root: Node, p: Path)
    requires Built(root, "") && root.kind.Pipeline? && IsNode(root, p)
    ensures LocalName(root, p) && (!At(root, p).kind.Step? ==> PrefixNamed(root, p))
    decreases |p|
  {
    BuiltAt(root, p);
    if p == [] {
      RootNamed(root);
    } else if At(root, p).kind.Rollback? {
      RollbackNamed(root, p);
    } else {
      BuiltAt(root, Up(p));
      StepHasNoKids(At(root, Up(p)), Last(p));
      NamesAt(root, Up(p));
      if !At(root, p).kind.Parallel? {
        UnitNamed(root, p);
      }
    }
  }

  lemma StepHasNoKids(n: Node, i: nat)
    requires LocalShape(n) && i < Arity(n)
    ensures !n.kind.Step? && (i >= |n.children| ==> n.kind.Stage? && Kid(n, i).kind.Rollback?)
    ensures i < |n.children| ==> !Kid(n, i).kind.Rollback? && !Kid(n, i).kind.Pipeline?
  {
  }

  lemma BuiltIsWellFormed(root: Node)
    requires Built(root, "") && root.kind.Pipeline?
    ensures WellFormed(root)
  {
    forall p | IsNode(root, p)
      ensures LocalShape(At(root, p)) && LocalName(root, p)
      ensures At(root, p).strat.Some? ==> ValidSpec(At(root, p).strat.value)
    {
      BuiltAt(root, p);
      NamesAt(root, p);
    }
  }

  lemma RegisteredIsIndex(root: Node)
    requires RegisterAll(NameIndex(map[], []), EntriesOf(root, [])).duplicates == []
    ensures IndexesNames(root, RegisterAll(NameIndex(map[], []), EntriesOf(root, [])).byFqn)
  {
    var es := EntriesOf(root, []);
    var byFqn := RegisterAll(NameIndex(map[], []), es).byFqn;
    RegisteredEntries(es);
    forall f | f in byFqn ensures IsNode(root, byFqn[f]) && IsNamed(At(root, byFqn[f])) && At(root, byFqn[f]).fqn == f {
      var rel := EntriesAreNamed(root, [], f, byFqn[f]);
      assert [] + rel == rel;
    }
    forall p | IsNode(root, p) && IsNamed(At(root, p)) ensures At(root, p).fqn in byFqn && byFqn[At(root, p).fqn] == p {
      NamedAreEntries(root, [], p);
      assert [] + p == p;
      assert (At(root, p).fqn, p) in es;
    }
  }

  /**
    BuildGraph is sound: whenever a decoded document builds, the graph is well
    shaped, every unit carries its document FQN, every strategy specification is
    enumerable, excluded or non-enumerable with a cause, and both indexes are exact.
  */
  lemma BuildIsValid(stages: seq<StageWrapper>, naming: MatrixNaming, inst: map<string, Path>)
    requires DecodedStages(stages) && BuildFails(Some(stages), naming).None?
    requires IndexesInstances(RootNode(stages, naming), AllNames(stages, naming).byFqn, inst)
    ensures ValidGraph(OrderGraph(RootNode(stages, naming), AllNames(stages, naming).byFqn, inst))
  {
    StageNodesBuilt(stages, "pipeline.stages", naming);
    BuiltIsWellFormed(RootNode(stages, naming));
    RegisteredIsIndex(RootNode(stages, naming));
  }

  /******* Parallel blocks *******/

  /** Every `parallel` block of the document holds at least one unit. */
  predicate FilledEntry(w: StepWrapper)
    decreases w
  {
    && (w.parallel.StepsBlock? ==>
      FilledSteps(w.parallel.items) && exists i :: 0 <= i < |w.parallel.items| && Contributes(w.parallel.items[i]))
    && (w.stepGroup.Some? ==> FilledSteps(w.stepGroup.value.steps))
  }

  predicate Contributes(w: StepWrapper) {
    w.parallel.StepsBlock? || w.stepGroup.Some? || w.step.Some?
  }

  predicate FilledSteps(ws: seq<StepWrapper>)
    decreases ws
  {
    forall i :: 0 <= i < |ws| ==> FilledEntry(ws[i])
  }

  predicate StageContributes(w: StageWrapper) {
    w.parallel.StagesBlock? || w.stage.Some?
  }

  predicate FilledStageEntry(w: StageWrapper)
    decreases w
  {
    && (w.parallel.StagesBlock? ==>
      FilledStages(w.parallel.items) &&
      exists i :: 0 <= i < |w.parallel.items| && StageContributes(w.parallel.items[i]))
    && (w.stage.Some? && ExecutionOf(w.stage.value).Some? ==>
          FilledSteps(ExecutionOf(w.stage.value).value.steps) &&
            FilledSteps(ExecutionOf(w.stage.value).value.rollbackSteps))
  }

  predicate FilledStages(ws: seq<StageWrapper>)
    decreases ws
  {
    forall i :: 0 <= i < |ws| ==> FilledStageEntry(ws[i])
  }

  /** No `parallel` node below `n` is without children. */
  predicate Full(n: Node)
    decreases n
  {
    && (n.kind.Parallel? ==> n.children != [])
    && (forall i :: 0 <= i < |n.children| ==> Full(n.children[i]))
    && (n.rollback.Some? ==> Full(n.rollback.value))
  }

  predicate AllFull(ns: seq<Node>) {
    forall i :: 0 <= i < |ns| ==> Full(ns[i])
  }

  lemma {:induction false} StepNodesFull(ws: seq<StepWrapper>, prefix: string, naming: MatrixNaming)
    requires FilledSteps(ws)
    ensures AllFull(StepNodes(ws, prefix, naming))
    ensures (exists i :: 0 <= i < |ws| && Contributes(ws[i])) ==> StepNodes(ws, prefix, naming) != []
    decreases ws
  {
    if ws != [] {
      StepNodesFull(ws[..|ws| - 1], prefix, naming);
      EntryFull(ws[|ws| - 1], prefix, naming);
      if i :| 0 <= i < |ws| - 1 && Contributes(ws[i]) {
        assert Contributes(ws[..|ws| - 1][i]);
      }
    }
  }

  lemma {:induction false} EntryFull(w: StepWrapper, prefix: string, naming: MatrixNaming)
    requires FilledEntry(w)
    ensures AllFull(StepEntry(w, prefix, naming)) && (Contributes(w) ==> StepEntry(w, prefix, naming) != [])
    decreases w
  {
    if w.parallel.StepsBlock? {
      StepNodesFull(w.parallel.items, prefix, naming);
    } else if w.stepGroup.Some? {
      GroupFull(w.stepGroup.value, prefix, naming);
    }
  }

  lemma {:induction false} GroupFull(sg: RawGroup, prefix: string, naming: MatrixNaming)
    requires FilledSteps(sg.steps)
    ensures Full(GroupNode(sg, prefix, naming))
    decreases sg
  {
    StepNodesFull(sg.steps, prefix + "." + sg.identifier + ".steps", naming);
  }

  lemma {:induction false} StageNodesFull(ws: seq<StageWrapper>, prefix: string, naming: MatrixNaming)
    requires FilledStages(ws)
    ensures AllFull(StageNodes(ws, prefix, naming))
    ensures (exists i :: 0 <= i < |ws| && StageContributes(ws[i])) ==> StageNodes(ws, prefix, naming) != []
    decreases ws
  {
    if ws != [] {
      StageNodesFull(ws[..|ws| - 1], prefix, naming);
      StageEntryFull(ws[|ws| - 1], prefix, naming);
      if i :| 0 <= i < |ws| - 1 && StageContributes(ws[i]) {
        assert StageContributes(ws[..|ws| - 1][i]);
      }
    }
  }

  lemma {:induction false} StageEntryFull(w: StageWrapper, prefix: string, naming: MatrixNaming)
    requires FilledStageEntry(w)
    ensures AllFull(StageEntry(w, prefix, naming)) && (StageContributes(w) ==> StageEntry(w, prefix, naming) != [])
    decreases w
  {
    if w.parallel.StagesBlock? {
      StageNodesFull(w.parallel.items, prefix, naming);
    } else if w.stage.Some? {
      var s := w.stage.value;
      var fqn := prefix + "." + s.identifier;
      if ExecutionOf(s).Some? {
        StepNodesFull(ExecutionOf(s).value.steps, fqn + ".spec.execution.steps", naming);
        StepNodesFull(ExecutionOf(s).value.rollbackSteps, fqn + ".spec.execution.rollbackSteps", naming);
      }
    }
  }

  lemma {:induction false} FullAt(root: Node, p: Path)
    requires Full(root) && IsNode(root, p)
    ensures Full(At(root, p))
    decreases |p|
  {
    if p != [] {
      FullAt(root, Up(p));
    }
  }

  /** A document without empty parallel blocks builds a graph without empty parallel nodes. */
  lemma FilledBuildsFull(stages: seq<StageWrapper>, naming: MatrixNaming)
    requires FilledStages(stages)
    ensures NoEmptyParallel(RootNode(stages, naming))
  {
    StageNodesFull(stages, "pipeline.stages", naming);
    var root := RootNode(stages, naming);
    forall p | IsNode(root, p) ensures At(root, p).kind.Parallel? ==> At(root, p).children != [] {
      FullAt(root, p);
    }
  }
}
