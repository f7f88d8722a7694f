/**
  What the text of a document decides about a run: guards that block a step, and
  failure actions that waive a rollback entry's gate (verifier/pipeline/graph.go:
  makeWhen, buildStage; verifier/pipeline/evaluate.go: EvaluateStep).
*/
module DocumentLaws {
  import opened Common
  import opened Graph
  import opened Entries
  import opened Frontier
  import opened Declared
  import opened Fanout
  import opened RawPipeline
  import opened Mirror
  import opened Conditions

  /** The guard written on an element. */
  function WhenIn(e: Element): Option<RawWhen> {
    match e
    case StageUnit(s) => s.when
    case GroupUnit(sg) => sg.when
    case StepUnit(st) => st.when
    case _ => None
  }

  /** A written condition that is overridden to false, whatever an evaluator would say. */
  predicate SwitchedOff(w: RawWhen, s: CheckerState) {
    var expr := TrimSpace(w.condition);
    !w.runtimeInput && expr != "" && expr in s.overrides && !s.overrides[expr]
  }

  /** The node of an element with a guard has that guard. */
  lemma GuardIsWritten(stages: seq<StageWrapper>, naming: MatrixNaming, p: Path)
    requires ElementAt(Document(stages), p).Some? && WhenIn(ElementAt(Document(stages), p).value).Some?
    ensures var root, raw := RootNode(stages, naming), WhenIn(ElementAt(Document(stages), p).value);
      && IsNode(root, p)
      && At(root, p).when.Some?
      && At(root, p).when.value.runtimeInput == raw.value.runtimeInput
      && (!raw.value.runtimeInput ==> At(root, p).when.value.expression == raw.value.condition)
  {
    BuildMirrors(stages, naming, p);
  }

  /**
    A condition that is written on a step, or on a container the step is an entry
    of, and is overridden to false, keeps the step from running.
  */
  lemma SwitchedOffBlocks(stages: seq<StageWrapper>, naming: MatrixNaming, t: Path, k: nat, s: CheckerState, e: string)
    requires var root := RootNode(stages, naming); IsNode(root, t) && EntryOf(root, t, k)
    requires k <= |t| && ElementAt(Document(stages), t[..k]).Some?
    requires var raw := WhenIn(ElementAt(Document(stages), t[..k]).value); raw.Some? && SwitchedOff(raw.value, s)
    ensures !OwnFacts(RootNode(stages, naming), t, GuardOf(s, e))
  {
    var root := RootNode(stages, naming);
    GuardIsWritten(stages, naming, t[..k]);
    var w := At(root, t[..k]).when.value;
    GuardIsDecidedBy(s, e, w);
    assert GuardAt(root, t, k, GuardOf(s, e)) == Fails;
  }

  /** The stage at depth `k` declares the pipeline rollback in its failure actions. */
  predicate DeclaresRollbackAt(stages: seq<StageWrapper>, t: Path, k: nat)
    requires k <= |t|
  {
    var e := ElementAt(Document(stages), t[..k]);
    e.Some? && e.value.StageUnit? && DeclaresRollback(e.value.stage.failureActions)
  }

  /** A rollback entry's gate is waived exactly when its own stage declares a pipeline rollback. */
  lemma WaivedByDocument(stages: seq<StageWrapper>, naming: MatrixNaming, t: Path)
    requires IsNode(RootNode(stages, naming), t)
    ensures RunsInOwnPlan(RootNode(stages, naming), t) <==>
      exists k :: 0 <= k < |t| && RollbackEntryAt(RootNode(stages, naming), t, k) && DeclaresRollbackAt(stages, t, k)
  {
    var root := RootNode(stages, naming);
    forall k | 0 <= k < |t| ensures NodeAt(root, t, k).pipelineRollback <==> DeclaresRollbackAt(stages, t, k) {
      PrefixIsNode(root, t, k);
      BuildMirrors(stages, naming, t[..k]);
    }
  }
}
