/**
  The two resolvers of FQNs agree: the graph's index (verifier/pipeline/graph.go)
  and the walk over the YAML tree (verifier/pipeline/yaml.go).
*/
module FqnAgreement {
  import opened Common
  import opened Text
  import opened Graph
  import opened Naming
  import opened Instances
  import opened Lookup
  import opened Fanout
  import opened StrategySpecs
  import opened RawPipeline
  import opened Builder
  import opened BuiltGraphs
  import opened YamlTree
  import opened FqnWalk

  /******* Where a node comes from *******/

  function Descend(y: Yaml, keys: seq<string>): Option<Yaml>
    decreases |keys|
  {
    if keys == [] then Some(y)
    else
      var v := NodeGet(y, keys[0]);
      if v.Some? then Descend(v.value, keys[1..]) else None
  }

  function ItemsOf(o: Option<Yaml>): seq<Yaml> {
    if o.Some? && o.value.Sequence? then o.value.items else []
  }

  const ROLLBACK_KEYS := ["spec", "execution", "rollbackSteps"]

  /** The keys from a unit's element to the list of its children. */
  function TailKeys(k: Kind): seq<string> {
    match k
    case Pipeline => ["pipeline", "stages"]
    case Stage => ["spec", "execution", "steps"]
    case StepGroup => ["steps"]
    case _ => []
  }

  function ListOf(k: Kind, y: Yaml): seq<Yaml> {
    ItemsOf(Descend(y, TailKeys(k)))
  }

  predicate GoodId(id: string) {
    id != "" && '.' !in id
  }

  /** `n` is built from the element `y`. */
  predicate From(n: Node, y: Yaml)
    decreases n, 0
  {
    && (IsNamed(n) ==> y.Mapping? && TextAt(y, "identifier") == n.id && GoodId(n.id))
    && (n.kind.Step? || n.kind.Stage? ==> TextAt(y, "type") == n.stepType)
    && (n.kind.Parallel? || n.kind.Rollback? ==> y.Sequence?)
    && Listing(n.children, ListOf(n.kind, y))
    && (n.rollback.Some? ==> var r := Descend(y, ROLLBACK_KEYS); r.Some? && From(n.rollback.value, r.value))
  }

  predicate Listing(ns: seq<Node>, items: seq<Yaml>)
    decreases ns
  {
    && |ns| == |items| && Listed(items)
    && forall i :: 0 <= i < |ns| ==> FromItem(ns[i], items[i])
  }

  predicate FromItem(n: Node, item: Yaml)
    requires IsListed(item)
    decreases n, 1
  {
    From(n, Body(item)) && (n.kind.Parallel? <==> IsParallel(item))
  }

  lemma ChildFrom(n: Node, y: Yaml, i: nat)
    requires From(n, y) && i < |n.children|
    ensures Listing(n.children, ListOf(n.kind, y))
    ensures var items := ListOf(n.kind, y); i < |items| && IsListed(items[i]) && FromItem(n.children[i], items[i])
  {
    assert Listing(n.children, ListOf(n.kind, y));
    assert Listed(ListOf(n.kind, y));
  }

  lemma RollbackFrom(n: Node, y: Yaml)
    requires From(n, y) && n.rollback.Some?
    ensures var r := Descend(y, ROLLBACK_KEYS); r.Some? && From(n.rollback.value, r.value)
  {
  }

  /** The YAML element that the unit at `p` was built from. */
  function Origin(root: Node, doc: Yaml, p: Path): (y: Yaml)
    requires From(root, doc) && IsNode(root, p)
    ensures From(At(root, p), y)
    decreases |p|
  {
    if p == [] then doc
    else
      var n, y, i := At(root, Up(p)), Origin(root, doc, Up(p)), Last(p);
      if i < |n.children| then (ChildFrom(n, y, i); Body(ListOf(n.kind, y)[i]))
      else (RollbackFrom(n, y); Descend(y, ROLLBACK_KEYS).value)
  }

  /** The items that the children of the unit at `p` are built from. */
  function Items(root: Node, doc: Yaml, p: Path): (items: seq<Yaml>)
    requires From(root, doc) && IsNode(root, p)
    ensures Listing(At(root, p).children, items)
  {
    ListOf(At(root, p).kind, Origin(root, doc, p))
  }

  lemma ChildItem(root: Node, doc: Yaml, p: Path)
    requires From(root, doc) && IsNode(root, p) && p != [] && Last(p) < |At(root, Up(p)).children|
    ensures var items := Items(root, doc, Up(p));
      Last(p) < |items| && IsListed(items[Last(p)]) && Origin(root, doc, p) == Body(items[Last(p)])
      && (At(root, p).kind.Parallel? <==> IsParallel(items[Last(p)]))
  {
    var items := Items(root, doc, Up(p));
    assert FromItem(At(root, Up(p)).children[Last(p)], items[Last(p)]);
  }

  /******* Names of listed units *******/

  function ChildPrefix(root: Node, p: Path): string
    requires IsNode(root, p)
  {
    BaseFqn(root, p) + KidTail(root, p)
  }

  lemma ParallelPrefix(root: Node, p: Path)
    requires IsNode(root, p) && p != [] && At(root, p).kind.Parallel?
    ensures ChildPrefix(root, p) == ChildPrefix(root, Up(p))
  {
  }

  lemma UnitName(root: Node, p: Path)
    requires WellNamed(root) && IsNode(root, p) && p != [] && IsNamed(At(root, p))
    ensures At(root, p).fqn == ChildPrefix(root, Up(p)) + "." + At(root, p).id
  {
    assert LocalName(root, p);
    var base, tail, id := BaseFqn(root, Up(p)), KidTail(root, Up(p)), At(root, p).id;
    assert base + (tail + "." + id) == base + tail + "." + id;
  }

  lemma ChildKind(root: Node, p: Path)
    requires WellShaped(root) && IsNode(root, p) && p != []
    ensures Last(p) < |At(root, Up(p)).children| ==> IsNamed(At(root, p)) || At(root, p).kind.Parallel?
    ensures Last(p) >= |At(root, Up(p)).children| ==> At(root, p).kind.Rollback? && At(root, Up(p)).kind.Stage?
  {
    assert LocalShape(At(root, Up(p)));
  }

  /** An identifier that an item holds is that of a unit at or below the item's node, named below the list's prefix. */
  lemma {:induction false} NamedWithin(root: Node, doc: Yaml, p: Path, id: string) returns (q: Path)
    requires WellShaped(root) && WellNamed(root) && From(root, doc)
    requires IsNode(root, p) && p != [] && Last(p) < |At(root, Up(p)).children|
    requires HasId(Items(root, doc, Up(p))[Last(p)], id)
    ensures p <= q && IsNode(root, q) && IsNamed(At(root, q)) && At(root, q).fqn == ChildPrefix(root, Up(p)) + "." + id
    decreases At(root, p)
  {
    ChildItem(root, doc, p);
    ChildKind(root, p);
    if At(root, p).kind.Parallel? {
      var items := Items(root, doc, p);
      var i :| 0 <= i < |items| && HasId(items[i], id);
      KidIsNode(root, p, i);
      q := NamedWithin(root, doc, p + [i], id);
      ParallelPrefix(root, p);
    } else {
      UnitName(root, p);
      q := p;
    }
  }

  lemma NamedBelow(root: Node, doc: Yaml, c: Path, i: nat, id: string) returns (q: Path)
    requires WellShaped(root) && WellNamed(root) && From(root, doc) && IsNode(root, c)
    requires i < |Items(root, doc, c)| && HasId(Items(root, doc, c)[i], id)
    ensures |c| < |q| && q[|c|] == i && IsNode(root, q) && IsNamed(At(root, q)) &&
        At(root, q).fqn == ChildPrefix(root, c) + "." + id
  {
    KidIsNode(root, c, i);
    q := NamedWithin(root, doc, c + [i], id);
    assert q[|c|] == (c + [i])[|c|];
  }

  lemma ItemsApart(root: Node, doc: Yaml, byFqn: map<string, Path>, c: Path)
    requires WellShaped(root) && WellNamed(root) && From(root, doc) && IndexesNames(root, byFqn) && IsNode(root, c)
    ensures Apart(Items(root, doc, c))
  {
    var items := Items(root, doc, c);
    forall i: nat, j: nat, id: string | i < j < |items| && id != "" &&
      HasId(items[i], id) ensures !HasId(items[j], id) {
      if HasId(items[j], id) {
        var q := NamedBelow(root, doc, c, i, id);
        var q' := NamedBelow(root, doc, c, j, id);
        SameNameSamePlace(root, byFqn, q, q');
        assert false;
      }
    }
  }

  lemma SameNameSamePlace(root: Node, byFqn: map<string, Path>, p: Path, q: Path)
    requires IndexesNames(root, byFqn) && IsNode(root, p) && IsNode(root, q)
    requires IsNamed(At(root, p)) && IsNamed(At(root, q)) && At(root, p).fqn == At(root, q).fqn
    ensures p == q
  {
  }

  /******* Walking along a name *******/

  lemma {:induction false} WalkDescends(y: Yaml, keys: seq<string>, rest: seq<string>)
    requires Descend(y, keys).Some?
    ensures WalkToNode(y, keys + rest) == WalkToNode(Descend(y, keys).value, rest)
    decreases |keys|
  {
    if keys == [] {
      assert keys + rest == rest;
    } else {
      assert (keys + rest)[0] == keys[0] && (keys + rest)[1..] == keys[1..] + rest;
      WalkDescends(NodeGet(y, keys[0]).value, keys[1..], rest);
    }
  }

  lemma SegmentsPlus(a: string, id: string)
    requires GoodId(id)
    ensures Segments(a + "." + id) == Segments(a) + [id]
  {
    SegmentsAtDot(a, id);
    SegmentsSingle(id);
  }

  lemma TwoMore(base: string, a: string, b: string)
    requires GoodId(a) && GoodId(b)
    ensures Segments(base + "." + a + "." + b) == Segments(base) + [a, b]
  {
    SegmentsPlus(base, a);
    SegmentsPlus(base + "." + a, b);
    OneAndOne(Segments(base), a, b);
  }

  lemma OneAndOne<T>(s: seq<T>, a: T, b: T)
    ensures (s + [a]) + [b] == s + [a, b]
  {
  }

  lemma TwoAndOne<T>(s: seq<T>, a: T, b: T, c: T)
    ensures (s + [a, b]) + [c] == s + [a, b, c]
  {
  }

  lemma ExecutionSegments(base: string, list: string)
    requires GoodId(list)
    ensures Segments(base + "." + "spec" + "." + "execution" + "." + list) ==
        Segments(base) + ["spec", "execution", list]
  {
    TwoMore(base, "spec", "execution");
    SegmentsPlus(base + "." + "spec" + "." + "execution", list);
    TwoAndOne(Segments(base), "spec", "execution", list);
  }

  /** What a unit's own tail adds to the segments of its name. */
  lemma TailSegments(base: string)
    ensures Segments(base + ".steps") == Segments(base) + ["steps"]
    ensures Segments(base + ".spec.execution.steps") == Segments(base) + ["spec", "execution", "steps"]
    ensures Segments(base + ".spec.execution.rollbackSteps") == Segments(base) + ROLLBACK_KEYS
  {
    SegmentsPlus(base, "steps");
    ExecutionSegments(base, "steps");
    ExecutionSegments(base, "rollbackSteps");
    TailTexts(base);
  }

  lemma Pair<T>(a: T, b: T)
    ensures [a] + [b] == [a, b]
  {
  }

  lemma RootParts(a: string, b: string)
    requires GoodId(a) && GoodId(b)
    ensures Segments(a + "." + b) == [a, b]
  {
    SegmentsSingle(a);
    SegmentsPlus(a, b);
    Pair(a, b);
  }

  lemma RootSegments()
    ensures Segments("" + "pipeline.stages") == ["pipeline", "stages"]
  {
    RootParts("pipeline", "stages");
    PipelineStages();
  }

  /** The walk from a list's element into the list. */
  lemma IntoList(k: Kind, y: Yaml, id: string, rest: seq<string>)
    requires Listed(ListOf(k, y)) && SomeHasId(ListOf(k, y), id)
    ensures WalkToNode(y, TailKeys(k) + ([id] + rest)) == WalkItems(ListOf(k, y), 0, [id] + rest)
  {
    WalkDescends(y, TailKeys(k), [id] + rest);
  }

  /** A tree and the graph built from it, whose names are all distinct. */
  ghost predicate Twin(root: Node, doc: Yaml, byFqn: map<string, Path>) {
    WellShaped(root) && WellNamed(root) && From(root, doc) && IndexesNames(root, byFqn)
  }

  /** Following a container's name into its list of children. */
  lemma {:induction false} ReachList(root: Node, doc: Yaml, byFqn: map<string, Path>, c: Path, id: string,
      rest: seq<string>)
    requires Twin(root, doc, byFqn) && IsNode(root, c) && !At(root, c).kind.Step?
    requires SomeHasId(Items(root, doc, c), id) && id != ""
    ensures WalkToNode(doc, Segments(ChildPrefix(root, c)) + ([id] + rest)) ==
        WalkItems(Items(root, doc, c), 0, [id] + rest)
    decreases |c|, 1
  {
    var n, y := At(root, c), Origin(root, doc, c);
    if c == [] {
      assert LocalName(root, c);
      RootSegments();
      IntoList(n.kind, y, id, rest);
    } else {
      ChildKind(root, c);
      if n.kind.Parallel? {
        ThroughParallel(root, doc, byFqn, c, id, rest);
      } else if n.kind.Rollback? {
        ThroughRollback(root, doc, byFqn, c, id, rest);
      } else {
        ReachUnit(root, doc, byFqn, c, TailKeys(n.kind) + ([id] + rest));
        TailSegments(n.fqn);
        Associates(Segments(n.fqn), TailKeys(n.kind), [id] + rest);
        IntoList(n.kind, y, id, rest);
      }
    }
  }

  lemma {:induction false} ThroughParallel(root: Node, doc: Yaml, byFqn: map<string, Path>, c: Path, id: string,
      rest: seq<string>)
    requires Twin(root, doc, byFqn) && IsNode(root, c) && c != [] && At(root, c).kind.Parallel?
    requires SomeHasId(Items(root, doc, c), id) && id != ""
    ensures WalkToNode(doc, Segments(ChildPrefix(root, c)) + ([id] + rest)) ==
        WalkItems(Items(root, doc, c), 0, [id] + rest)
    decreases |c|, 0
  {
    ChildKind(root, c);
    ChildItem(root, doc, c);
    ParallelPrefix(root, c);
    var items := Items(root, doc, Up(c));
    assert HasId(items[Last(c)], id);
    ReachList(root, doc, byFqn, Up(c), id, rest);
    ItemsApart(root, doc, byFqn, Up(c));
    WalkHits(items, 0, Last(c), id, rest);
  }

  lemma RollbackPrefix(root: Node, c: Path)
    requires WellShaped(root) && WellNamed(root) && IsNode(root, c) && c != [] && At(root, c).kind.Rollback?
    ensures At(root, Up(c)).kind.Stage? && Last(c) >= |At(root, Up(c)).children| && Up(c) != []
    ensures ChildPrefix(root, c) == At(root, Up(c)).fqn + ".spec.execution.rollbackSteps"
  {
    ChildKind(root, c);
    assert LocalShape(At(root, Up(c)));
    assert LocalName(root, c);
    PlusNothing(At(root, c).fqn);
  }

  lemma {:induction false} ThroughRollback(root: Node, doc: Yaml, byFqn: map<string, Path>, c: Path, id: string,
      rest: seq<string>)
    requires Twin(root, doc, byFqn) && IsNode(root, c) && c != [] && At(root, c).kind.Rollback?
    requires SomeHasId(Items(root, doc, c), id) && id != ""
    ensures WalkToNode(doc, Segments(ChildPrefix(root, c)) + ([id] + rest)) ==
        WalkItems(Items(root, doc, c), 0, [id] + rest)
    decreases |c|, 0
  {
    var s := Up(c);
    RollbackPrefix(root, c);
    RollbackFrom(At(root, s), Origin(root, doc, s));
    TailSegments(At(root, s).fqn);
    ReachUnit(root, doc, byFqn, s, ROLLBACK_KEYS + ([id] + rest));
    Associates(Segments(At(root, s).fqn), ROLLBACK_KEYS, [id] + rest);
    WalkDescends(Origin(root, doc, s), ROLLBACK_KEYS, [id] + rest);
  }

  /** Following a unit's name leads to its element. */
  lemma {:induction false} ReachUnit(root: Node, doc: Yaml, byFqn: map<string, Path>, p: Path, rest: seq<string>)
    requires Twin(root, doc, byFqn) && IsNode(root, p) && p != [] && IsNamed(At(root, p))
    ensures WalkToNode(doc, Segments(At(root, p).fqn) + rest) == WalkToNode(Origin(root, doc, p), rest)
    decreases |p|, 0
  {
    var c, id := Up(p), At(root, p).id;
    ChildKind(root, p);
    ChildItem(root, doc, p);
    UnitName(root, p);
    SegmentsPlus(ChildPrefix(root, c), id);
    Associates(Segments(ChildPrefix(root, c)), [id], rest);
    var items := Items(root, doc, c);
    assert HasId(items[Last(p)], id);
    assert LocalShape(At(root, c));
    ReachList(root, doc, byFqn, c, id, rest);
    ItemsApart(root, doc, byFqn, c);
    WalkHits(items, 0, Last(p), id, rest);
  }

  /** Every unit of the graph is found in the tree, under its FQN, at the element it was built from. */
  lemma UnitIsFound(root: Node, doc: Yaml, byFqn: map<string, Path>, p: Path)
    requires Twin(root, doc, byFqn) && IsNode(root, p) && IsNamed(At(root, p))
    ensures var y := Origin(root, doc, p);
      && FindNodeByFqn(doc, At(root, p).fqn) == Some(y)
      && TextAt(y, "identifier") == At(root, p).id
      && (At(root, p).kind.Step? || At(root, p).kind.Stage? ==> TextAt(y, "type") == At(root, p).stepType)
  {
    var fqn := At(root, p).fqn;
    UnitName(root, p);
    ReachUnit(root, doc, byFqn, p, []);
    assert Segments(fqn) + [] == Segments(fqn);
  }

  /******* Decoding *******/

  /** How a unit's guard, strategy and deployment targets are decoded. */
  datatype Decoders = Decoders(
    whenOf: Yaml -> Option<RawWhen>,
    strategyOf: Yaml -> Option<RawStrategy>,
    deployOf: Yaml -> DeploySpec,
    failuresOf: Yaml -> seq<string>)

  function DecodeStep(v: Yaml, d: Decoders): RawStep {
    RawStep(TextAt(v, "identifier"), TextAt(v, "type"), d.whenOf(v), d.strategyOf(v))
  }

  function DecodeGroup(v: Yaml, d: Decoders): RawGroup
    decreases v, 1
  {
    var steps := NodeGet(v, "steps");
    RawGroup(TextAt(v, "identifier"), d.whenOf(v), d.strategyOf(v),
             if steps.Some? && steps.value.Sequence? then DecodeSteps(steps.value.items, d) else [])
  }

  function DecodeEntry(item: Yaml, d: Decoders): StepWrapper
    decreases item, 0
  {
    var step, stepGroup, parallel := NodeGet(item, "step"), NodeGet(item, "stepGroup"), NodeGet(item, "parallel");
    StepWrapper(
      if step.Some? && step.value.Mapping? then Some(DecodeStep(step.value, d)) else None,
      if stepGroup.Some? && stepGroup.value.Mapping? then Some(DecodeGroup(stepGroup.value, d)) else None,
      if parallel.Some? && parallel.value.Sequence? then StepsBlock(DecodeSteps(parallel.value.items, d)) else NoSteps)
  }

  function DecodeSteps(items: seq<Yaml>, d: Decoders): seq<StepWrapper>
    decreases items, 0
  {
    if items == [] then []
    else DecodeSteps(items[..|items| - 1], d) + [DecodeEntry(items[|items| - 1], d)]
  }

  function DecodeStage(v: Yaml, d: Decoders): RawStage {
    var spec, execution := NodeGet(v, "spec"), Descend(v, ["spec", "execution"]);
    RawStage(TextAt(v, "identifier"), TextAt(v, "type"), d.whenOf(v), d.strategyOf(v),
      if spec.Some? && spec.value.Mapping?
      then Some(RawStageSpec(d.deployOf(v),
        if execution.Some? && execution.value.Mapping?
        then Some(RawExecution(DecodeSteps(ItemsOf(Descend(v, ["spec", "execution", "steps"])), d),
                               DecodeSteps(ItemsOf(Descend(v, ROLLBACK_KEYS)), d)))
        else None))
      else None,
      d.failuresOf(v))
  }

  function DecodeStageEntry(item: Yaml, d: Decoders): StageWrapper
    decreases item
  {
    var stage, parallel := NodeGet(item, "stage"), NodeGet(item, "parallel");
    StageWrapper(
      if stage.Some? && stage.value.Mapping? then Some(DecodeStage(stage.value, d)) else None,
      if parallel.Some? && parallel.value.Sequence? then StagesBlock(DecodeStages(parallel.value.items, d))
        else NoStages)
  }

  function DecodeStages(items: seq<Yaml>, d: Decoders): seq<StageWrapper>
    decreases items
  {
    if items == [] then []
    else DecodeStages(items[..|items| - 1], d) + [DecodeStageEntry(items[|items| - 1], d)]
  }

  function DecodeDocument(doc: Yaml, d: Decoders): seq<StageWrapper> {
    DecodeStages(ItemsOf(Descend(doc, ["pipeline", "stages"])), d)
  }

  /******* Trees of single-key wrappers *******/

  predicate GoodUnit(v: Yaml) {
    v.Mapping? && GoodId(TextAt(v, "identifier"))
  }

  /** A steps entry as the decoder accepts it: one key, and a unit or a list under it. */
  predicate StepItem(item: Yaml)
    decreases item, 0
  {
    item.Mapping? && |item.entries| == 1 &&
    var e := item.entries[0];
    || (e.key == "step" && GoodUnit(e.value))
    || (e.key == "stepGroup" && GoodUnit(e.value) && GroupSteps(e.value))
    || (e.key == "parallel" && e.value.Sequence? && StepList(e.value.items))
  }

  predicate GroupSteps(v: Yaml)
    decreases v, 1
  {
    var steps := NodeGet(v, "steps");
    steps.Some? ==> steps.value.Sequence? && StepList(steps.value.items)
  }

  predicate StepList(items: seq<Yaml>)
    decreases items, 0
  {
    forall i :: 0 <= i < |items| ==> StepItem(items[i])
  }

  predicate StageItem(item: Yaml)
    decreases item
  {
    item.Mapping? && |item.entries| == 1 &&
    var e := item.entries[0];
    || (e.key == "stage" && GoodUnit(e.value) && GoodExecution(e.value))
    || (e.key == "parallel" && e.value.Sequence? && StageList(e.value.items))
  }

  predicate StageList(items: seq<Yaml>)
    decreases items
  {
    forall i :: 0 <= i < |items| ==> StageItem(items[i])
  }

  predicate GoodExecution(v: Yaml) {
    && (NodeGet(v, "spec").Some? ==> NodeGet(v, "spec").value.Mapping?)
    && (Descend(v, ["spec", "execution"]).Some? ==> Descend(v, ["spec", "execution"]).value.Mapping?)
    && GoodList(Descend(v, ["spec", "execution", "steps"]))
    && GoodList(Descend(v, ROLLBACK_KEYS))
  }

  predicate GoodList(o: Option<Yaml>) {
    o.Some? ==> o.value.Sequence? && StepList(o.value.items)
  }

  predicate GoodDocument(doc: Yaml) {
    var stages := Descend(doc, ["pipeline", "stages"]);
    stages.Some? ==> stages.value.Sequence? && StageList(stages.value.items)
  }

  /******* Decoded trees build twins *******/

  lemma ListingSnoc(ns: seq<Node>, items: seq<Yaml>, n: Node, item: Yaml)
    requires Listing(ns, items) && IsListed(item) && FromItem(n, item)
    ensures Listing(ns + [n], items + [item])
  {
    var longer, nodes := items + [item], ns + [n];
    forall i | 0 <= i < |longer| ensures IsListed(longer[i]) {
      assert i < |items| ==> longer[i] == items[i] && IsListed(items[i]);
    }
    assert Listed(longer);
    forall i | 0 <= i < |nodes| ensures FromItem(nodes[i], longer[i]) {
      if i < |ns| {
        assert FromItem(ns[i], items[i]);
      }
    }
  }

  /** The single key of a step item decides what it decodes to. */
  lemma StepItemKeys(item: Yaml, key: string)
    requires item.Mapping? && |item.entries| == 1
    ensures NodeGet(item, key) == if key == item.entries[0].key then Some(item.entries[0].value) else None
  {
    if key == item.entries[0].key {
      FindIs(item.entries, key, 0);
    } else {
      FindIsNot(item.entries, key);
    }
  }

  lemma {:induction false} StepsFrom(items: seq<Yaml>, prefix: string, d: Decoders, naming: MatrixNaming)
    requires StepList(items)
    ensures Listing(StepNodes(DecodeSteps(items, d), prefix, naming), items)
    decreases items, 0
  {
    if items != [] {
      var m := |items| - 1;
      StepsFrom(items[..m], prefix, d, naming);
      var n := ItemFrom(items[m], prefix, d, naming);
      var ws := DecodeSteps(items, d);
      assert ws[..|ws| - 1] == DecodeSteps(items[..m], d) && ws[|ws| - 1] == DecodeEntry(items[m], d);
      ListingSnoc(StepNodes(ws[..|ws| - 1], prefix, naming), items[..m], n, items[m]);
      assert items[..m] + [items[m]] == items;
    }
  }

  lemma {:induction false} ItemFrom(item: Yaml, prefix: string, d: Decoders, naming: MatrixNaming) returns (n: Node)
    requires StepItem(item)
    ensures StepEntry(DecodeEntry(item, d), prefix, naming) == [n]
    ensures IsListed(item) && FromItem(n, item)
    decreases item, 0
  {
    StepItemKeys(item, "step");
    StepItemKeys(item, "stepGroup");
    StepItemKeys(item, "parallel");
    UnitKeysAre();
    var e := item.entries[0];
    if e.key == "parallel" {
      StepsFrom(e.value.items, prefix, d, naming);
      n := ParallelNode(StepNodes(DecodeSteps(e.value.items, d), prefix, naming));
    } else if e.key == "stepGroup" {
      GroupFrom(e.value, prefix, d, naming);
      n := GroupNode(DecodeGroup(e.value, d), prefix, naming);
    } else {
      n := StepNode(DecodeStep(e.value, d), prefix, naming);
    }
  }

  lemma UnitKeysAre()
    ensures "step" in UNIT_KEYS && "stage" in UNIT_KEYS && "stepGroup" in UNIT_KEYS
  {
    assert UNIT_KEYS[0] == "step" && UNIT_KEYS[1] == "stage" && UNIT_KEYS[2] == "stepGroup";
  }

  lemma {:induction false} GroupFrom(v: Yaml, prefix: string, d: Decoders, naming: MatrixNaming)
    requires GoodUnit(v) && GroupSteps(v)
    ensures From(GroupNode(DecodeGroup(v, d), prefix, naming), v)
    decreases v, 1
  {
    var steps := NodeGet(v, "steps");
    var fqn := prefix + "." + TextAt(v, "identifier");
    assert TailKeys(StepGroup)[1..] == [];
    if steps.Some? {
      StepsFrom(steps.value.items, fqn + ".steps", d, naming);
    }
  }

  lemma StageFrom(v: Yaml, prefix: string, d: Decoders, naming: MatrixNaming)
    requires GoodUnit(v) && GoodExecution(v)
    ensures From(StageNode(DecodeStage(v, d), prefix, naming), v)
  {
    var steps, rollback := ItemsOf(Descend(v, TailKeys(Stage))), ItemsOf(Descend(v, ROLLBACK_KEYS));
    var fqn := prefix + "." + TextAt(v, "identifier");
    StepsFrom(steps, fqn + ".spec.execution.steps", d, naming);
    StepsFrom(rollback, fqn + ".spec.execution.rollbackSteps", d, naming);
    DecodedExecution(v, d);
    DecodedNone(rollback, d);
    if rollback != [] {
      RollbackFromList(Descend(v, ROLLBACK_KEYS).value, fqn + ".spec.execution.rollbackSteps", d, naming);
    }
  }

  lemma RollbackFromList(y: Yaml, fqn: string, d: Decoders, naming: MatrixNaming)
    requires y.Sequence? && StepList(y.items)
    ensures From(RollbackNode(DecodeSteps(y.items, d), fqn, naming), y)
  {
    StepsFrom(y.items, fqn, d, naming);
  }

  lemma DecodedNone(items: seq<Yaml>, d: Decoders)
    ensures DecodeSteps(items, d) == [] <==> items == []
  {
  }

  /** The lists of steps that the decoded stage has. */
  lemma DecodedExecution(v: Yaml, d: Decoders)
    requires GoodExecution(v)
    ensures var steps, rollback := ItemsOf(Descend(v, TailKeys(Stage))), ItemsOf(Descend(v, ROLLBACK_KEYS));
      var ex := ExecutionOf(DecodeStage(v, d));
      if ex.Some? then ex.value == RawExecution(DecodeSteps(steps, d), DecodeSteps(rollback, d))
        else steps == [] && rollback == []
  {
    DescendThrough(v, "steps");
    DescendThrough(v, "rollbackSteps");
  }

  lemma DescendThrough(v: Yaml, list: string)
    ensures Descend(v, ["spec", "execution", list]).Some? ==>
        Descend(v, ["spec", "execution"]).Some? && NodeGet(v, "spec").Some?
  {
    var longer, shorter := ["spec", "execution", list], ["spec", "execution"];
    assert longer[0] == "spec" && longer[1..] == ["execution", list] && longer[1..][1..] == [list];
    assert shorter[0] == "spec" && shorter[1..] == ["execution"] && shorter[1..][1..] == [];
    var spec := NodeGet(v, "spec");
    if spec.Some? {
      assert Descend(v, longer) == Descend(spec.value, ["execution", list]);
      assert Descend(v, shorter) == Descend(spec.value, ["execution"]);
      var execution := NodeGet(spec.value, "execution");
      if execution.Some? {
        assert Descend(spec.value, ["execution"]) == Descend(execution.value, []);
      }
    }
  }

  lemma {:induction false} StageItemFrom(item: Yaml, prefix: string, d: Decoders, naming: MatrixNaming)
    returns (n: Node)
    requires StageItem(item)
    ensures StageEntry(DecodeStageEntry(item, d), prefix, naming) == [n]
    ensures IsListed(item) && FromItem(n, item)
    decreases item
  {
    StepItemKeys(item, "stage");
    StepItemKeys(item, "parallel");
    UnitKeysAre();
    var e := item.entries[0];
    if e.key == "parallel" {
      StagesFrom(e.value.items, prefix, d, naming);
      n := ParallelNode(StageNodes(DecodeStages(e.value.items, d), prefix, naming));
    } else {
      StageFrom(e.value, prefix, d, naming);
      n := StageNode(DecodeStage(e.value, d), prefix, naming);
    }
  }

  lemma {:induction false} StagesFrom(items: seq<Yaml>, prefix: string, d: Decoders, naming: MatrixNaming)
    requires StageList(items)
    ensures Listing(StageNodes(DecodeStages(items, d), prefix, naming), items)
    decreases items
  {
    if items != [] {
      var m := |items| - 1;
      StagesFrom(items[..m], prefix, d, naming);
      var n := StageItemFrom(items[m], prefix, d, naming);
      var ws := DecodeStages(items, d);
      assert ws[..|ws| - 1] == DecodeStages(items[..m], d) && ws[|ws| - 1] == DecodeStageEntry(items[m], d);
      ListingSnoc(StageNodes(ws[..|ws| - 1], prefix, naming), items[..m], n, items[m]);
      assert items[..m] + [items[m]] == items;
    }
  }

  lemma BuildsTwin(doc: Yaml, d: Decoders, naming: MatrixNaming)
    requires GoodDocument(doc) && DecodedStages(DecodeDocument(doc, d))
    requires BuildFails(Some(DecodeDocument(doc, d)), naming).None?
    ensures Twin(RootNode(DecodeDocument(doc, d), naming), doc, AllNames(DecodeDocument(doc, d), naming).byFqn)
  {
    DocumentFrom(doc, d, naming);
    DocumentNamed(DecodeDocument(doc, d), naming);
  }

  lemma DocumentFrom(doc: Yaml, d: Decoders, naming: MatrixNaming)
    requires GoodDocument(doc)
    ensures From(RootNode(DecodeDocument(doc, d), naming), doc)
  {
    StagesFrom(ItemsOf(Descend(doc, TailKeys(Pipeline))), "pipeline.stages", d, naming);
  }

  lemma DocumentNamed(stages: seq<StageWrapper>, naming: MatrixNaming)
    requires DecodedStages(stages) && BuildFails(Some(stages), naming).None?
    ensures var root := RootNode(stages, naming);
      WellShaped(root) && WellNamed(root) && IndexesNames(root, AllNames(stages, naming).byFqn)
  {
    StageNodesBuilt(stages, "pipeline.stages", naming);
    BuiltIsWellFormed(RootNode(stages, naming));
    RegisteredIsIndex(RootNode(stages, naming));
  }

  /**
    The resolvers agree: when a tree of single-key wrappers builds, every stage,
    group and step is indexed under its FQN, and that FQN leads the tree walk to
    exactly the element the unit was built from, with its identifier and type.
  */
  lemma ResolversAgree(doc: Yaml, d: Decoders, naming: MatrixNaming, p: Path)
    requires GoodDocument(doc) && DecodedStages(DecodeDocument(doc, d))
    requires BuildFails(Some(DecodeDocument(doc, d)), naming).None?
    requires var root := RootNode(DecodeDocument(doc, d), naming); IsNode(root, p) && IsNamed(At(root, p))
    ensures var root := RootNode(DecodeDocument(doc, d), naming);
      From(root, doc) &&
      var fqn, y := At(root, p).fqn, Origin(root, doc, p);
      && fqn in AllNames(DecodeDocument(doc, d), naming).byFqn &&
        AllNames(DecodeDocument(doc, d), naming).byFqn[fqn] == p
      && FindNodeByFqn(doc, fqn) == Some(y)
      && TextAt(y, "identifier") == At(root, p).id
      && (At(root, p).kind.Step? || At(root, p).kind.Stage? ==> TextAt(y, "type") == At(root, p).stepType)
  {
    BuildsTwin(doc, d, naming);
    UnitIsFound(RootNode(DecodeDocument(doc, d), naming), doc, AllNames(DecodeDocument(doc, d), naming).byFqn, p);
  }
}
