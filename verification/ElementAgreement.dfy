/**
  The element that a unit's FQN leads to in the YAML tree is the one whose guard,
  strategy and failure actions the unit has (verifier/pipeline/yaml.go,
  verifier/pipeline/graph.go: the build* methods).
*/
module ElementAgreement {
  import opened Common
  import opened Graph
  import opened Instances
  import opened Fanout
  import opened RawPipeline
  import opened Builder
  import opened BuiltGraphs
  import opened Mirror
  import opened YamlTree
  import opened FqnWalk
  import opened FqnAgreement

  /** The document's element `e` is what the tree's element `y` decodes to. */
  predicate DecodesTo(y: Yaml, e: Element, d: Decoders) {
    match e
    case Document(stages) => GoodDocument(y) && stages == DecodeDocument(y, d)
    case StageUnit(s) => GoodUnit(y) && GoodExecution(y) && s == DecodeStage(y, d)
    case GroupUnit(sg) => GoodUnit(y) && GroupSteps(y) && sg == DecodeGroup(y, d)
    case StepUnit(st) => GoodUnit(y) && st == DecodeStep(y, d)
    case ParallelStages(items) => y.Sequence? && StageList(y.items) && items == DecodeStages(y.items, d)
    case ParallelSteps(items) => y.Sequence? && StepList(y.items) && items == DecodeSteps(y.items, d)
    case RollbackSteps(items) => y.Sequence? && StepList(y.items) && items == DecodeSteps(y.items, d)
  }

  /** Each element of a list comes from the body of the item at its place. */
  predicate ListDecodes(items: seq<Yaml>, es: seq<Element>, d: Decoders) {
    |es| == |items| && forall i :: 0 <= i < |items| ==> IsListed(items[i]) && DecodesTo(Body(items[i]), es[i], d)
  }

  lemma ListSnoc(items: seq<Yaml>, es: seq<Element>, item: Yaml, e: Element, d: Decoders)
    requires ListDecodes(items, es, d) && IsListed(item) && DecodesTo(Body(item), e, d)
    ensures ListDecodes(items + [item], es + [e], d)
  {
  }

  lemma ListFront(items: seq<Yaml>)
    requires items != []
    ensures items == items[..|items| - 1] + [items[|items| - 1]]
  {
  }

  lemma StepItemDecodes(item: Yaml, d: Decoders) returns (e: Element)
    requires StepItem(item)
    ensures IsListed(item) && StepElement(DecodeEntry(item, d)) == [e] && DecodesTo(Body(item), e, d)
  {
    var n := ItemFrom(item, "", d, ByIndex);
    StepItemKeys(item, "step");
    StepItemKeys(item, "stepGroup");
    StepItemKeys(item, "parallel");
    e := StepElement(DecodeEntry(item, d))[0];
  }

  lemma {:induction false} StepsDecode(items: seq<Yaml>, d: Decoders)
    requires StepList(items)
    ensures ListDecodes(items, StepElements(DecodeSteps(items, d)), d)
  {
    if items != [] {
      var m := |items| - 1;
      StepsDecode(items[..m], d);
      var e := StepItemDecodes(items[m], d);
      var ws := DecodeSteps(items, d);
      assert ws[..|ws| - 1] == DecodeSteps(items[..m], d) && ws[|ws| - 1] == DecodeEntry(items[m], d);
      ListSnoc(items[..m], StepElements(ws[..|ws| - 1]), items[m], e, d);
      ListFront(items);
    }
  }

  lemma StageItemDecodes(item: Yaml, d: Decoders) returns (e: Element)
    requires StageItem(item)
    ensures IsListed(item) && StageElement(DecodeStageEntry(item, d)) == [e] && DecodesTo(Body(item), e, d)
  {
    var n := StageItemFrom(item, "", d, ByIndex);
    StepItemKeys(item, "stage");
    StepItemKeys(item, "parallel");
    e := StageElement(DecodeStageEntry(item, d))[0];
  }

  lemma {:induction false} StagesDecode(items: seq<Yaml>, d: Decoders)
    requires StageList(items)
    ensures ListDecodes(items, StageElements(DecodeStages(items, d)), d)
  {
    if items != [] {
      var m := |items| - 1;
      StagesDecode(items[..m], d);
      var e := StageItemDecodes(items[m], d);
      var ws := DecodeStages(items, d);
      assert ws[..|ws| - 1] == DecodeStages(items[..m], d) && ws[|ws| - 1] == DecodeStageEntry(items[m], d);
      ListSnoc(items[..m], StageElements(ws[..|ws| - 1]), items[m], e, d);
      ListFront(items);
    }
  }

  /** The kind of node that an element becomes. */
  function KindOf(e: Element): Kind {
    match e
    case Document(_) => Pipeline
    case StageUnit(_) => Stage
    case GroupUnit(_) => StepGroup
    case StepUnit(_) => Step
    case ParallelStages(_) => Parallel
    case ParallelSteps(_) => Parallel
    case RollbackSteps(_) => Rollback
  }

  /** What is nested in an element comes from the items of its list. */
  lemma NestedDecodes(y: Yaml, e: Element, d: Decoders)
    requires DecodesTo(y, e, d) && !e.StepUnit?
    ensures ListDecodes(ListOf(KindOf(e), y), Nested(e), d)
  {
    match e
    case Document(_) => StagesDecode(ListOf(Pipeline, y), d);
    case StageUnit(_) => StageListDecodes(y, e, d);
    case GroupUnit(_) => GroupListDecodes(y, e, d);
    case ParallelStages(_) => StagesDecode(y.items, d);
    case ParallelSteps(_) => StepsDecode(y.items, d);
    case RollbackSteps(_) => StepsDecode(y.items, d);
  }

  lemma StageListDecodes(y: Yaml, e: Element, d: Decoders)
    requires DecodesTo(y, e, d) && e.StageUnit?
    ensures ListDecodes(ListOf(Stage, y), Nested(e), d)
  {
    DecodedExecution(y, d);
    StepsDecode(ListOf(Stage, y), d);
  }

  lemma GroupListDecodes(y: Yaml, e: Element, d: Decoders)
    requires DecodesTo(y, e, d) && e.GroupUnit?
    ensures ListDecodes(ListOf(StepGroup, y), Nested(e), d)
  {
    assert TailKeys(StepGroup)[1..] == [];
    StepsDecode(ListOf(StepGroup, y), d);
  }

  /** A stage's rollback steps come from its `rollbackSteps` list. */
  lemma RollbackDecodes(y: Yaml, e: Element, d: Decoders)
    requires DecodesTo(y, e, d) && RollbackOf(e) != []
    ensures Descend(y, ROLLBACK_KEYS).Some? && DecodesTo(Descend(y, ROLLBACK_KEYS).value, RollbackOf(e)[0], d)
  {
    DecodedExecution(y, d);
    DecodedNone(ItemsOf(Descend(y, ROLLBACK_KEYS)), d);
  }

  /** At every position the tree's element decodes to the document's. */
  lemma {:induction false} OriginDecodes(doc: Yaml, d: Decoders, naming: MatrixNaming, p: Path)
    requires GoodDocument(doc) && IsNode(RootNode(DecodeDocument(doc, d), naming), p)
    ensures From(RootNode(DecodeDocument(doc, d), naming), doc)
    ensures ElementAt(Document(DecodeDocument(doc, d)), p).Some?
    ensures DecodesTo(Origin(RootNode(DecodeDocument(doc, d), naming), doc, p),
      ElementAt(Document(DecodeDocument(doc, d)), p).value, d)
    decreases |p|
  {
    DocumentFrom(doc, d, naming);
    BuildMirrors(DecodeDocument(doc, d), naming, p);
    if p != [] {
      OriginDecodes(doc, d, naming, Up(p));
      KidDecodes(doc, d, naming, p);
    }
  }

  /** The document's element at one position of a built graph. */
  function ElementOf(doc: Yaml, d: Decoders, p: Path): Option<Element> {
    ElementAt(Document(DecodeDocument(doc, d)), p)
  }

  /** A node and its element have the same forward children and the same kind. */
  lemma SameShape(doc: Yaml, d: Decoders, naming: MatrixNaming, p: Path)
    requires IsNode(RootNode(DecodeDocument(doc, d), naming), p) && ElementOf(doc, d, p).Some?
    ensures var n, e := At(RootNode(DecodeDocument(doc, d), naming), p), ElementOf(doc, d, p).value;
      |n.children| == |Nested(e)| && n.kind == KindOf(e)
  {
    BuildMirrors(DecodeDocument(doc, d), naming, p);
    var outer := NodeAtElement(Document(DecodeDocument(doc, d)), naming, p);
    ChildrenAre(ElementOf(doc, d, p).value, outer, naming);
  }

  lemma ElementBelow(e: Element, p: Path)
    requires p != [] && ElementAt(e, p).Some?
    ensures ElementAt(e, Up(p)).Some?
    ensures var parent, i := ElementAt(e, Up(p)).value, Last(p);
      if i < |Nested(parent)| then ElementAt(e, p) == Some(Nested(parent)[i])
      else RollbackOf(parent) != [] && i == |Nested(parent)| && ElementAt(e, p) == Some(RollbackOf(parent)[0])
  {
  }

  lemma KidDecodes(doc: Yaml, d: Decoders, naming: MatrixNaming, p: Path)
    requires From(RootNode(DecodeDocument(doc, d), naming), doc)
    requires IsNode(RootNode(DecodeDocument(doc, d), naming), p) && p != []
    requires ElementOf(doc, d, Up(p)).Some? && ElementOf(doc, d, p).Some?
    requires DecodesTo(Origin(RootNode(DecodeDocument(doc, d), naming), doc, Up(p)), ElementOf(doc, d, Up(p)).value, d)
    ensures DecodesTo(Origin(RootNode(DecodeDocument(doc, d), naming), doc, p), ElementOf(doc, d, p).value, d)
  {
    var root, e := RootNode(DecodeDocument(doc, d), naming), ElementOf(doc, d, Up(p)).value;
    SameShape(doc, d, naming, Up(p));
    ElementBelow(Document(DecodeDocument(doc, d)), p);
    if Last(p) < |Nested(e)| {
      ChildDecodes(root, doc, d, p, e);
    } else {
      RollbackDecodes(Origin(root, doc, Up(p)), e, d);
    }
  }

  lemma ChildDecodes(root: Node, doc: Yaml, d: Decoders, p: Path, e: Element)
    requires From(root, doc) && IsNode(root, p) && p != [] && DecodesTo(Origin(root, doc, Up(p)), e, d)
    requires At(root, Up(p)).kind == KindOf(e) && |At(root, Up(p)).children| == |Nested(e)| && Last(p) < |Nested(e)|
    ensures DecodesTo(Origin(root, doc, p), Nested(e)[Last(p)], d)
  {
    NestedDecodes(Origin(root, doc, Up(p)), e, d);
    ChildItem(root, doc, p);
  }

  /**
    The two resolvers agree on what a unit is.  The FQN of a stage, group or step
    leads the tree walk to an element, and the unit in the graph has that element's
    guard and strategy, and for a stage its failure actions.
  */
  lemma UnitsAgree(doc: Yaml, d: Decoders, naming: MatrixNaming, p: Path)
    requires GoodDocument(doc) && DecodedStages(DecodeDocument(doc, d))
    requires BuildFails(Some(DecodeDocument(doc, d)), naming).None?
    requires var root := RootNode(DecodeDocument(doc, d), naming); IsNode(root, p) && IsNamed(At(root, p))
    ensures var n := At(RootNode(DecodeDocument(doc, d), naming), p);
      && FindNodeByFqn(doc, n.fqn).Some?
      && var y := FindNodeByFqn(doc, n.fqn).value;
      && (n.kind.Stage? ==> GuardFrom(n.when, d.whenOf(y), LevelStage, n.fqn))
      && (n.kind.StepGroup? ==> GuardFrom(n.when, d.whenOf(y), LevelStepGroup, n.fqn))
      && (n.kind.Step? ==> GuardFrom(n.when, d.whenOf(y), LevelStep, n.fqn))
      && (n.kind.StepGroup? || n.kind.Step? ==> StrategyFrom(n.strat, d.strategyOf(y), naming))
      && (n.pipelineRollback <==> n.kind.Stage? && DeclaresRollback(d.failuresOf(y)))
  {
    OriginDecodes(doc, d, naming, p);
    ResolversAgree(doc, d, naming, p);
    BuildMirrors(DecodeDocument(doc, d), naming, p);
  }
}
