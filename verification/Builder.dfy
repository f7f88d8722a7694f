/**
  Building the graph (verifier/pipeline/graph.go: BuildGraph, the build* methods,
  register, indexInstances) and looking a raw FQN up in it.
*/
module Builder {
  import opened Common
  import opened Strategy
  import opened Text
  import opened Graph
  import opened Instances
  import opened Lookup
  import opened Fanout
  import opened StrategySpecs
  import opened RawPipeline
  import opened InstanceLoops

  /******* Registration *******/

  /** What the builders register for a list of siblings under position `p`, in order. */
  function SiblingEntries(ns: seq<Node>, p: Path): seq<(string, Path)>
    decreases ns
  {
    if ns == [] then []
    else SiblingEntries(ns[..|ns| - 1], p) + EntriesOf(ns[|ns| - 1], p + [|ns| - 1])
  }

  /** What is registered for one unit: its children, its rollback steps, then itself. */
  function EntriesOf(n: Node, p: Path): seq<(string, Path)>
    decreases n
  {
    SiblingEntries(n.children, p)
    + (if n.rollback.Some? then EntriesOf(n.rollback.value, p + [|n.children|]) else [])
    + (if IsNamed(n) then [(n.fqn, p)] else [])
  }

  /** The names registered so far and those that collided. */
  datatype NameIndex = NameIndex(byFqn: map<string, Path>, duplicates: seq<string>)

  function Register(ix: NameIndex, e: (string, Path)): NameIndex {
    NameIndex(ix.byFqn[e.0 := e.1], ix.duplicates + if e.0 in ix.byFqn then [e.0] else [])
  }

  function RegisterAll(ix: NameIndex, es: seq<(string, Path)>): NameIndex {
    if es == [] then ix else Register(RegisterAll(ix, es[..|es| - 1]), es[|es| - 1])
  }

  lemma {:induction false} RegisterConcat(ix: NameIndex, a: seq<(string, Path)>, b: seq<(string, Path)>)
    ensures RegisterAll(ix, a + b) == RegisterAll(RegisterAll(ix, a), b)
  {
    if b == [] {
      assert a + b == a;
    } else {
      RegisterConcat(ix, a, b[..|b| - 1]);
      assert (a + b)[..|a + b| - 1] == a + b[..|b| - 1];
    }
  }

  lemma FirstAssociates(a: Option<Failure>, b: Option<Failure>, c: Option<Failure>)
    ensures First(First(a, b), c) == First(a, First(b, c))
  {
  }

  lemma StepNodesSnoc(ws: seq<StepWrapper>, i: nat, prefix: string, naming: MatrixNaming)
    requires i < |ws|
    ensures StepNodes(ws[..i + 1], prefix, naming) ==
        StepNodes(ws[..i], prefix, naming) + StepEntry(ws[i], prefix, naming)
    ensures StepsFailure(ws[..i + 1], prefix, naming) ==
        First(StepsFailure(ws[..i], prefix, naming), EntryFailure(ws[i], prefix, naming))
  {
    assert ws[..i + 1][..i] == ws[..i];
  }

  lemma StageNodesSnoc(ws: seq<StageWrapper>, i: nat, prefix: string, naming: MatrixNaming)
    requires i < |ws|
    ensures StageNodes(ws[..i + 1], prefix, naming) ==
        StageNodes(ws[..i], prefix, naming) + StageEntry(ws[i], prefix, naming)
    ensures StagesFailure(ws[..i + 1], prefix, naming) ==
        First(StagesFailure(ws[..i], prefix, naming), StageEntryFailure(ws[i], prefix, naming))
  {
    assert ws[..i + 1][..i] == ws[..i];
  }

  /** One more sibling. */
  lemma SiblingSnoc(ns: seq<Node>, n: Node, p: Path)
    ensures SiblingEntries(ns + [n], p) == SiblingEntries(ns, p) + EntriesOf(n, p + [|ns|])
  {
    assert (ns + [n])[..|ns|] == ns;
  }

  /** The graph under construction; immutable once BuildGraph has returned it. */
  class PipelineGraph {
    var root: Node
    var byFqn: map<string, Path>
    var instByFqn: map<string, Path>
    var duplicates: seq<string>
    var buildErr: Option<Failure>
    const naming: MatrixNaming

    ghost function Names(): NameIndex
      reads this
    {
      NameIndex(byFqn, duplicates)
    }

    ghost function Model(): OrderGraph
      reads this
    {
      OrderGraph(root, byFqn, instByFqn)
    }

    constructor (matrixNaming: MatrixNaming)
      ensures naming == matrixNaming && Names() == NameIndex(map[], []) && instByFqn == map[] && buildErr == None
    {
      root := Node(Pipeline, "", "", "", None, None, [], None, false);
      byFqn, instByFqn, duplicates, buildErr := map[], map[], [], None;
      naming := matrixNaming;
    }

    /** register: a second unit with the same FQN is remembered as a duplicate. */
    method RegisterName(fqn: string, p: Path)
      modifies `byFqn, `duplicates
      ensures Names() == Register(old(Names()), (fqn, p))
    {
      if fqn in byFqn {
        duplicates := duplicates + [fqn];
      }
      byFqn := byFqn[fqn := p];
    }

    /** stratSpec: the first resolution error wins. */
    method StratSpec(rs: Option<RawStrategy>, fqn: string) returns (spec: Option<StrategySpec>)
      modifies `buildErr
      ensures spec == SpecOf(rs, naming)
      ensures buildErr == First(old(buildErr), FailureOf(rs, naming, fqn))
    {
      if rs.None? { return None; }
      var r := Resolve(rs.value, naming);
      match r
      case Ok(s) =>
        spec := Some(s);
      case Err(e) =>
        if buildErr.None? {
          buildErr := Some(Failure(fqn, e));
        }
        spec := Some(NotEnumerable(Unset));
    }

    method BuildStep(st: RawStep, prefix: string, p: Path) returns (n: Node)
      modifies `byFqn, `duplicates, `buildErr
      ensures n == StepNode(st, prefix, naming)
      ensures Names() == RegisterAll(old(Names()), EntriesOf(n, p))
      ensures buildErr == First(old(buildErr), FailureOf(st.strategy, naming, n.fqn))
    {
      var fqn := prefix + "." + st.identifier;
      var strat := StratSpec(st.strategy, fqn);
      n := Node(Step, st.identifier, fqn, st.stepType, MakeWhen(st.when, LevelStep, fqn), strat, [], None, false);
      assert EntriesOf(n, p) == [(fqn, p)];
      RegisterName(fqn, p);
    }

    method BuildStepGroup(sg: RawGroup, prefix: string, p: Path) returns (n: Node)
      modifies `byFqn, `duplicates, `buildErr
      ensures n == GroupNode(sg, prefix, naming)
      ensures Names() == RegisterAll(old(Names()), EntriesOf(n, p))
      ensures buildErr == First(old(buildErr), GroupFailure(sg, prefix, naming))
      decreases sg
    {
      var fqn := prefix + "." + sg.identifier;
      var strat := StratSpec(sg.strategy, fqn);
      var children := BuildSteps(sg.steps, fqn + ".steps", p);
      n := Node(StepGroup, sg.identifier, fqn, "", MakeWhen(sg.when, LevelStepGroup, fqn), strat, children, None,
        false);
      RegisterName(fqn, p);
      assert EntriesOf(n, p) == SiblingEntries(children, p) + [(fqn, p)];
      RegisterConcat(old(Names()), SiblingEntries(children, p), [(fqn, p)]);
      FirstAssociates(old(buildErr), FailureOf(sg.strategy, naming, fqn),
        StepsFailure(sg.steps, fqn + ".steps", naming));
    }

    method BuildSteps(ws: seq<StepWrapper>, prefix: string, parent: Path) returns (out: seq<Node>)
      modifies `byFqn, `duplicates, `buildErr
      ensures out == StepNodes(ws, prefix, naming)
      ensures Names() == RegisterAll(old(Names()), SiblingEntries(out, parent))
      ensures buildErr == First(old(buildErr), StepsFailure(ws, prefix, naming))
      decreases ws
    {
      out := [];
      for i := 0 to |ws|
        invariant out == StepNodes(ws[..i], prefix, naming)
        invariant Names() == RegisterAll(old(Names()), SiblingEntries(out, parent))
        invariant buildErr == First(old(buildErr), StepsFailure(ws[..i], prefix, naming))
      {
        ghost var before := out;
        StepNodesSnoc(ws, i, prefix, naming);
        FirstAssociates(old(buildErr), StepsFailure(ws[..i], prefix, naming), EntryFailure(ws[i], prefix, naming));
        var ns := BuildStepEntry(ws[i], prefix, parent + [|out|]);
        out := out + ns;
        AppendEntry(old(Names()), before, ns, parent);
      }
      assert ws[..|ws|] == ws;
    }

    /** One entry: a parallel block, a step group or a step, in this order of precedence. */
    method BuildStepEntry(w: StepWrapper, prefix: string, p: Path) returns (ns: seq<Node>)
      modifies `byFqn, `duplicates, `buildErr
      ensures ns == StepEntry(w, prefix, naming)
      ensures Names() == RegisterAll(old(Names()), if ns == [] then [] else EntriesOf(ns[0], p))
      ensures buildErr == First(old(buildErr), EntryFailure(w, prefix, naming))
      decreases w
    {
      ns := [];
      if w.parallel.StepsBlock? {
        var children := BuildSteps(w.parallel.items, prefix, p);
        var pn := Node(Parallel, "", "", "", None, None, children, None, false);
        assert EntriesOf(pn, p) == SiblingEntries(children, p);
        ns := [pn];
      } else if w.stepGroup.Some? {
        var n := BuildStepGroup(w.stepGroup.value, prefix, p);
        ns := [n];
      } else if w.step.Some? {
        var n := BuildStep(w.step.value, prefix, p);
        ns := [n];
      }
    }

    /** The steps of a stage and, in a sub-graph of their own, its rollback steps. */
    method BuildExecution(ex: RawExecution, fqn: string, p: Path) returns (children: seq<Node>, rollback: Option<Node>)
      modifies `byFqn, `duplicates, `buildErr
      ensures children == StepNodes(ex.steps, fqn + ".spec.execution.steps", naming)
      ensures rollback == if ex.rollbackSteps != []
                          then Some(RollbackNode(ex.rollbackSteps, fqn + ".spec.execution.rollbackSteps", naming))
                            else None
      ensures Names() == RegisterAll(old(Names()), ExecutionEntries(children, rollback, p))
      ensures buildErr == First(old(buildErr),
                First(StepsFailure(ex.steps, fqn + ".spec.execution.steps", naming),
                      StepsFailure(ex.rollbackSteps, fqn + ".spec.execution.rollbackSteps", naming)))
    {
      children := BuildSteps(ex.steps, fqn + ".spec.execution.steps", p);
      rollback := None;
      if ex.rollbackSteps != [] {
        var rbFqn := fqn + ".spec.execution.rollbackSteps";
        var rbChildren := BuildSteps(ex.rollbackSteps, rbFqn, p + [|children|]);
        rollback := Some(Node(Rollback, "", rbFqn, "", None, None, rbChildren, None, false));
        assert EntriesOf(rollback.value, p + [|children|]) == SiblingEntries(rbChildren, p + [|children|]);
        RegisterConcat(old(Names()), SiblingEntries(children, p), SiblingEntries(rbChildren, p + [|children|]));
      } else {
        assert ExecutionEntries(children, rollback, p) == SiblingEntries(children, p);
      }
    }

    method BuildStage(s: RawStage, prefix: string, p: Path) returns (n: Node)
      modifies `byFqn, `duplicates, `buildErr
      ensures n == StageNode(s, prefix, naming)
      ensures Names() == RegisterAll(old(Names()), EntriesOf(n, p))
      ensures buildErr == First(old(buildErr), StageFailure(s, prefix, naming))
    {
      var fqn := prefix + "." + s.identifier;
      var explicit := StratSpec(s.strategy, fqn);
      var deploy := MultiDeploySpec(if s.spec.Some? then Some(s.spec.value.deploy) else None);
      var strat := CombineStageSpecs(explicit, deploy);
      var pipelineRollback := DeclaresPipelineRollback(s.failureActions);
      var children: seq<Node>, rollback: Option<Node> := [], None;
      if s.spec.Some? && s.spec.value.execution.Some? {
        children, rollback := BuildExecution(s.spec.value.execution.value, fqn, p);
      }
      assert Names() == RegisterAll(old(Names()), ExecutionEntries(children, rollback, p));
      n := Node(Stage, s.identifier, fqn, s.stageType, MakeWhen(s.when, LevelStage, fqn), strat, children, rollback,
        pipelineRollback);
      RegisterName(fqn, p);
      RegisterConcat(old(Names()), ExecutionEntries(children, rollback, p), [(fqn, p)]);
    }

    method BuildStages(ws: seq<StageWrapper>, prefix: string, parent: Path) returns (out: seq<Node>)
      modifies `byFqn, `duplicates, `buildErr
      ensures out == StageNodes(ws, prefix, naming)
      ensures Names() == RegisterAll(old(Names()), SiblingEntries(out, parent))
      ensures buildErr == First(old(buildErr), StagesFailure(ws, prefix, naming))
      decreases ws
    {
      out := [];
      for i := 0 to |ws|
        invariant out == StageNodes(ws[..i], prefix, naming)
        invariant Names() == RegisterAll(old(Names()), SiblingEntries(out, parent))
        invariant buildErr == First(old(buildErr), StagesFailure(ws[..i], prefix, naming))
      {
        ghost var before := out;
        StageNodesSnoc(ws, i, prefix, naming);
        FirstAssociates(old(buildErr), StagesFailure(ws[..i], prefix, naming),
          StageEntryFailure(ws[i], prefix, naming));
        var ns := BuildStageEntry(ws[i], prefix, parent + [|out|]);
        out := out + ns;
        AppendEntry(old(Names()), before, ns, parent);
      }
      assert ws[..|ws|] == ws;
    }

    method BuildStageEntry(w: StageWrapper, prefix: string, p: Path) returns (ns: seq<Node>)
      modifies `byFqn, `duplicates, `buildErr
      ensures ns == StageEntry(w, prefix, naming)
      ensures Names() == RegisterAll(old(Names()), if ns == [] then [] else EntriesOf(ns[0], p))
      ensures buildErr == First(old(buildErr), StageEntryFailure(w, prefix, naming))
      decreases w
    {
      ns := [];
      if w.parallel.StagesBlock? {
        var children := BuildStages(w.parallel.items, prefix, p);
        var pn := Node(Parallel, "", "", "", None, None, children, None, false);
        assert EntriesOf(pn, p) == SiblingEntries(children, p);
        ns := [pn];
      } else if w.stage.Some? {
        var n := BuildStage(w.stage.value, prefix, p);
        ns := [n];
      }
    }

    /**
      indexInstances: every enumerated instance name to its unit, in whatever order
      the units come; a real FQN wins, and a name enumerated twice is dropped.
    */
    method IndexInstances()
      requires NamesAreNodes(root, byFqn) && instByFqn == map[]
      modifies `instByFqn
      ensures IndexesInstances(root, byFqn, instByFqn)
    {
      var ambiguous: set<string> := {};
      var todo := byFqn.Keys;
      ghost var done: Sources := {};
      while todo != {}
        invariant todo <= byFqn.Keys
        invariant IndexedSoFar(byFqn, done, instByFqn, ambiguous)
        invariant forall q: Path, j: nat, x: string ::
          (q, j, x) in done <==> Enumerates(root, byFqn, q, j, x) && At(root, q).fqn !in todo
        decreases |todo|
      {
        var f :| f in todo;
        todo := todo - {f};
        var p := byFqn[f];
        var insts := EnumerateInstances(root, p);
        if insts.Some? {
          ambiguous, done := IndexUnit(p, insts.value, ambiguous, done);
        }
      }
      AllIndexed(root, byFqn, done, instByFqn, ambiguous);
    }

    /** One unit's instances. */
    method IndexUnit(p: Path, insts: seq<string>, ambiguous: set<string>, ghost done: Sources)
      returns (ambiguous': set<string>, ghost done': Sources)
      requires IndexedSoFar(byFqn, done, instByFqn, ambiguous) && forall j: nat, x: string :: (p, j, x) !in done
      modifies `instByFqn
      ensures IndexedSoFar(byFqn, done', instByFqn, ambiguous')
      ensures forall q: Path, j: nat, x: string ::
        (q, j, x) in done' <==> (q, j, x) in done || (q == p && j < |insts| && insts[j] == x)
    {
      ambiguous', done' := ambiguous, done;
      for i := 0 to |insts|
        invariant IndexedSoFar(byFqn, done', instByFqn, ambiguous')
        invariant forall q: Path, j: nat, x: string ::
          (q, j, x) in done' <==> (q, j, x) in done || (q == p && j < i && insts[j] == x)
      {
        var x := insts[i];
        AddInstance(byFqn, done', instByFqn, ambiguous', p, i, x);
        done' := done' + {(p, i, x)};
        if x in byFqn || x in ambiguous' {
          continue;
        }
        if x in instByFqn {
          instByFqn := instByFqn - {x};
          ambiguous' := ambiguous' + {x};
        } else {
          instByFqn := instByFqn[x := p];
        }
      }
    }

    /**
      BuildGraph: builds and indexes the whole pipeline, failing closed on a missing
      root, the first strategy that does not resolve, or a repeated FQN.
    */
    static method BuildGraph(doc: Option<seq<StageWrapper>>, naming: MatrixNaming)
      returns (r: Result<PipelineGraph, BuildError>)
      ensures r.Err? <==> BuildFails(doc, naming).Some?
      ensures r.Err? ==> r.error == BuildFails(doc, naming).value
      ensures r.Ok? ==> fresh(r.value) && r.value.naming == naming && r.value.root == RootNode(doc.value, naming)
      ensures r.Ok? ==> r.value.byFqn == AllNames(doc.value, naming).byFqn
      ensures r.Ok? ==> IndexesInstances(r.value.root, r.value.byFqn, r.value.instByFqn)
    {
      if doc.None? { return Err(InvalidPipeline); }
      var g := new PipelineGraph(naming);
      var children := g.BuildStages(doc.value, "pipeline.stages", []);
      g.root := Node(Pipeline, "", "", "", None, None, children, None, false);
      assert EntriesOf(g.root, []) == SiblingEntries(children, []);
      if g.buildErr.Some? { return Err(g.buildErr.value.error); }
      RegisteredAreNodes(g.root);
      g.IndexInstances();
      if g.duplicates != [] { return Err(InvalidPipeline); }
      return Ok(g);
    }

    /** lookup: exact name, enumerated instance, then the segment walk. */
    method Find(x: string) returns (r: Option<Path>)
      requires ValidGraph(Model())
      ensures r == LookupNode(Model(), x)
    {
      if x in byFqn { return Some(byFqn[x]); }
      if x in instByFqn { return Some(instByFqn[x]); }
      var segs := Split(x);
      var cand, last := "", None;
      for i := 0 to |segs|
        invariant Walk(Model(), segs, Cursor("", None)) == Walk(Model(), segs[i..], Cursor(cand, last))
      {
        var s := segs[i];
        assert segs[i..][1..] == segs[i + 1..];
        ghost var before := Cursor(cand, last);
        cand := if cand == "" then s else cand + "." + s;
        if cand in byFqn {
          last := Some(byFqn[cand]);
          continue;
        }
        if IndexOf(s, '_') > 0 {
          var prefix := cand[..|cand| - |s|];
          var logical := StripSuffixes(prefix, s);
          if logical.Some? {
            StripFinds(Model(), prefix, s);
            cand := prefix + logical.value;
            last := Some(byFqn[cand]);
          }
        }
        assert Advance(Model(), before, s) == Cursor(cand, last);
      }
      assert segs[|segs|..] == [];
      WalkLast(Model(), segs, Cursor("", None));
      if last.Some? && At(root, last.value).fqn == cand { return last; }
      return None;
    }

    /** Strips trailing "_..." groups until a strategy-bearing unit is named. */
    method StripSuffixes(prefix: string, s: string) returns (r: Option<string>)
      requires ValidGraph(Model())
      ensures r == Strip(Model(), prefix, s)
    {
      var seg := s;
      while true
        invariant Strip(Model(), prefix, s) == Strip(Model(), prefix, seg)
        decreases |seg|
      {
        var j := LastIndexOf(seg, '_');
        if j <= 0 { return None; }
        seg := seg[..j];
        if prefix + seg in byFqn && At(root, byFqn[prefix + seg]).strat.Some? { return Some(seg); }
      }
    }
  }

  /** Everything the builders register for a document. */
  function AllNames(stages: seq<StageWrapper>, naming: MatrixNaming): NameIndex {
    RegisterAll(NameIndex(map[], []), EntriesOf(RootNode(stages, naming), []))
  }

  /** Why a document does not build, if it does not. */
  function BuildFails(doc: Option<seq<StageWrapper>>, naming: MatrixNaming): Option<BuildError> {
    if doc.None? then Some(InvalidPipeline)
    else
      var f := StagesFailure(doc.value, "pipeline.stages", naming);
      if f.Some? then Some(f.value.error)
      else if AllNames(doc.value, naming).duplicates != [] then Some(InvalidPipeline)
      else None
  }

  /******* Positions relative to a subtree *******/

  /** Entering a subtree first or last makes no difference. */
  lemma {:induction false} AtCons(n: Node, i: nat, rel: Path)
    requires i < Arity(n)
    ensures IsNode(n, [i] + rel) <==> IsNode(Kid(n, i), rel)
    ensures IsNode(Kid(n, i), rel) ==> At(n, [i] + rel) == At(Kid(n, i), rel)
    decreases |rel|
  {
    var p := [i] + rel;
    if rel == [] {
      assert p == [i] && Up(p) == [];
    } else {
      AtCons(n, i, Up(rel));
      assert Up(p) == [i] + Up(rel) && Last(p) == Last(rel);
    }
  }

  /** What is registered are the named units, each under its own FQN and at its own position. */
  lemma {:induction false} EntriesAreNamed(n: Node, p: Path, f: string, q: Path) returns (rel: Path)
    requires (f, q) in EntriesOf(n, p)
    ensures q == p + rel && IsNode(n, rel) && IsNamed(At(n, rel)) && At(n, rel).fqn == f
    decreases n
  {
    if (f, q) in SiblingEntries(n.children, p) {
      var i, r := SiblingsAreNamed(n.children, p, f, q);
      AtCons(n, i, r);
      rel := [i] + r;
    } else if n.rollback.Some? && (f, q) in EntriesOf(n.rollback.value, p + [|n.children|]) {
      var r := EntriesAreNamed(n.rollback.value, p + [|n.children|], f, q);
      AtCons(n, |n.children|, r);
      rel := [|n.children|] + r;
    } else {
      rel := [];
    }
  }

  lemma {:induction false} SiblingsAreNamed(ns: seq<Node>, p: Path, f: string, q: Path) returns (i: nat, rel: Path)
    requires (f, q) in SiblingEntries(ns, p)
    ensures i < |ns| && q == p + ([i] + rel) && IsNode(ns[i], rel) && IsNamed(At(ns[i], rel)) && At(ns[i], rel).fqn == f
    decreases ns
  {
    var m := |ns| - 1;
    if (f, q) in SiblingEntries(ns[..m], p) {
      i, rel := SiblingsAreNamed(ns[..m], p, f, q);
    } else {
      rel := EntriesAreNamed(ns[m], p + [m], f, q);
      i := m;
    }
  }

  lemma {:induction false} NamedAreEntries(n: Node, p: Path, rel: Path)
    requires IsNode(n, rel) && IsNamed(At(n, rel))
    ensures (At(n, rel).fqn, p + rel) in EntriesOf(n, p)
    decreases n
  {
    if rel == [] {
      assert p + rel == p;
    } else {
      var i, r := rel[0], rel[1..];
      assert rel == [i] + r;
      FirstIsKid(n, rel);
      AtCons(n, i, r);
      assert p + rel == p + [i] + r;
      NamedAreEntries(Kid(n, i), p + [i], r);
      if i < |n.children| {
        SiblingHas(n.children, p, i, (At(n, rel).fqn, p + rel));
      }
    }
  }

  lemma {:induction false} FirstIsKid(n: Node, rel: Path)
    requires IsNode(n, rel) && rel != []
    ensures rel[0] < Arity(n)
    decreases |rel|
  {
    if |rel| > 1 {
      FirstIsKid(n, Up(rel));
    }
  }

  lemma {:induction false} SiblingHas(ns: seq<Node>, p: Path, i: nat, e: (string, Path))
    requires i < |ns| && e in EntriesOf(ns[i], p + [i])
    ensures e in SiblingEntries(ns, p)
    decreases ns
  {
    var m := |ns| - 1;
    if i < m {
      SiblingHas(ns[..m], p, i, e);
    }
  }

  /** The index after registering a list: last entry wins, and without duplicates every entry does. */
  lemma {:induction false} RegisteredEntries(es: seq<(string, Path)>)
    ensures var ix := RegisterAll(NameIndex(map[], []), es);
      && (forall f :: f in ix.byFqn ==> (f, ix.byFqn[f]) in es)
      && (forall e :: e in es ==> e.0 in ix.byFqn)
      && (ix.duplicates == [] ==> forall e :: e in es ==> ix.byFqn[e.0] == e.1)
  {
    if es != [] {
      var m := |es| - 1;
      assert es == es[..m] + [es[m]];
      RegisteredEntries(es[..m]);
    }
  }

  /** Nothing is reported as a duplicate exactly when all names are distinct. */
  lemma {:induction false} DuplicatesMean(es: seq<(string, Path)>)
    ensures RegisterAll(NameIndex(map[], []), es).duplicates == [] <==> DistinctNamesIn(es)
  {
    if es != [] {
      var m := |es| - 1;
      var front, e := es[..m], es[m];
      assert es == front + [e];
      DuplicatesMean(front);
      RegisteredEntries(front);
      DistinctNamesSnoc(front, e);
      var byFqn := RegisterAll(NameIndex(map[], []), front).byFqn;
      if e.0 in byFqn {
        assert (e.0, byFqn[e.0]) in front;
        var i :| 0 <= i < m && front[i] == (e.0, byFqn[e.0]);
      }
      if i :| 0 <= i < m && front[i].0 == e.0 {
        assert front[i] in front;
      }
      assert e.0 in byFqn <==> !(forall i :: 0 <= i < |front| ==> front[i].0 != e.0);
    }
  }

  predicate DistinctNamesIn(es: seq<(string, Path)>) {
    forall i, j :: 0 <= i < j < |es| ==> es[i].0 != es[j].0
  }

  lemma DistinctNamesSnoc(front: seq<(string, Path)>, e: (string, Path))
    ensures DistinctNamesIn(front + [e]) <==>
        DistinctNamesIn(front) && forall i :: 0 <= i < |front| ==> front[i].0 != e.0
  {
    var es, m := front + [e], |front|;
    assert forall i :: 0 <= i < m ==> es[i] == front[i];
    assert es[m] == e;
    if DistinctNamesIn(front) && forall i :: 0 <= i < m ==> front[i].0 != e.0 {
      forall i, j | 0 <= i < j <= m ensures es[i].0 != es[j].0 {
        assert es[i] == front[i];
        assert j < m ==> es[j] == front[j];
      }
    }
    if DistinctNamesIn(es) {
      forall i | 0 <= i < m ensures front[i].0 != e.0 {
        assert es[i].0 != es[m].0;
      }
      forall i, j | 0 <= i < j < m ensures front[i].0 != front[j].0 {
        assert es[i].0 != es[j].0;
      }
    }
  }

  lemma RegisteredAreNodes(root: Node)
    ensures NamesAreNodes(root, RegisterAll(NameIndex(map[], []), EntriesOf(root, [])).byFqn)
  {
    var es := EntriesOf(root, []);
    RegisteredEntries(es);
    var ix := RegisterAll(NameIndex(map[], []), es);
    forall f | f in ix.byFqn ensures IsNode(root, ix.byFqn[f]) && At(root, ix.byFqn[f]).fqn == f {
      var rel := EntriesAreNamed(root, [], f, ix.byFqn[f]);
      assert [] + rel == rel;
    }
  }

  /** Every registered name is its unit's own FQN. */
  ghost predicate NamesAreNodes(root: Node, byFqn: map<string, Path>) {
    forall f :: f in byFqn ==> IsNode(root, byFqn[f]) && At(root, byFqn[f]).fqn == f
  }

  /** The enumerations met so far: unit, position in its enumeration, name. */
  type Sources = set<(Path, nat, string)>

  /** `x` comes up exactly once, from `p`. */
  ghost predicate Once(done: Sources, x: string, p: Path) {
    (exists j: nat :: (p, j, x) in done) &&
    forall q: Path, j: nat, q': Path, j': nat :: (q, j, x) in done && (q', j', x) in done ==> q == q' && j == j'
  }

  ghost predicate Twice(done: Sources, x: string) {
    exists q: Path, j: nat, q': Path, j': nat :: (q, j, x) in done && (q', j', x) in done && (q != q' || j != j')
  }

  ghost predicate IndexedSoFar(byFqn: map<string, Path>, done: Sources, inst: map<string, Path>,
      ambiguous: set<string>) {
    && (forall x, p :: IndexedOnce(byFqn, done, inst, x, p))
    && (forall x :: IndexedTwice(byFqn, done, ambiguous, x))
  }

  ghost predicate IndexedOnce(byFqn: map<string, Path>, done: Sources, inst: map<string, Path>, x: string, p: Path) {
    x in inst && inst[x] == p <==> x !in byFqn && Once(done, x, p)
  }

  ghost predicate IndexedTwice(byFqn: map<string, Path>, done: Sources, ambiguous: set<string>, x: string) {
    x in ambiguous <==> x !in byFqn && Twice(done, x)
  }

  /** The state after one more enumerated name: new, ambiguous, or left as it is. */
  function AddName(byFqn: map<string, Path>, inst: map<string, Path>, ambiguous: set<string>, p: Path,
      x: string): (map<string, Path>, set<string>) {
    if x in byFqn || x in ambiguous then (inst, ambiguous)
    else if x in inst then (inst - {x}, ambiguous + {x})
    else (inst[x := p], ambiguous)
  }

  lemma AddInstance(byFqn: map<string, Path>, done: Sources, inst: map<string, Path>, ambiguous: set<string>,
                    p: Path, i: nat, x: string)
    requires IndexedSoFar(byFqn, done, inst, ambiguous) && (p, i, x) !in done
    ensures var (inst', ambiguous') := AddName(byFqn, inst, ambiguous, p, x);
      IndexedSoFar(byFqn, done + {(p, i, x)}, inst', ambiguous')
  {
    var done' := done + {(p, i, x)};
    var (inst', ambiguous') := AddName(byFqn, inst, ambiguous, p, x);
    forall y, q ensures IndexedOnce(byFqn, done', inst', y, q) {
      if y == x {
        NameItself(byFqn, done, inst, ambiguous, p, i, x, q);
      } else {
        OtherName(byFqn, done, inst, ambiguous, p, i, x, y, q);
      }
    }
    forall y ensures IndexedTwice(byFqn, done', ambiguous', y) {
      if y == x {
        NameItself(byFqn, done, inst, ambiguous, p, i, x, p);
      } else {
        OtherName(byFqn, done, inst, ambiguous, p, i, x, y, p);
      }
    }
  }

  lemma NameItself(byFqn: map<string, Path>, done: Sources, inst: map<string, Path>, ambiguous: set<string>,
                   p: Path, i: nat, x: string, q: Path)
    requires IndexedSoFar(byFqn, done, inst, ambiguous) && (p, i, x) !in done
    ensures var (inst', ambiguous') := AddName(byFqn, inst, ambiguous, p, x);
      IndexedOnce(byFqn, done + {(p, i, x)}, inst', x, q) && IndexedTwice(byFqn, done + {(p, i, x)}, ambiguous', x)
  {
    CountUp(done, p, i, x);
    SoleSource(byFqn, done, inst, ambiguous, x);
  }

  lemma OtherName(byFqn: map<string, Path>, done: Sources, inst: map<string, Path>, ambiguous: set<string>,
                  p: Path, i: nat, x: string, y: string, q: Path)
    requires IndexedSoFar(byFqn, done, inst, ambiguous) && y != x
    ensures var (inst', ambiguous') := AddName(byFqn, inst, ambiguous, p, x);
      IndexedOnce(byFqn, done + {(p, i, x)}, inst', y, q) && IndexedTwice(byFqn, done + {(p, i, x)}, ambiguous', y)
  {
    SameSources(done, done + {(p, i, x)}, y);
    assert IndexedOnce(byFqn, done, inst, y, q) && IndexedTwice(byFqn, done, ambiguous, y);
  }

  /** A name that is indexed nowhere has no source. */
  lemma SoleSource(byFqn: map<string, Path>, done: Sources, inst: map<string, Path>, ambiguous: set<string>, x: string)
    requires IndexedSoFar(byFqn, done, inst, ambiguous)
    ensures x !in byFqn && x !in inst && x !in ambiguous ==> !Twice(done, x) && forall q :: !Once(done, x, q)
    ensures x in inst ==> Once(done, x, inst[x]) && x !in byFqn
    ensures x in ambiguous ==> Twice(done, x) && x !in byFqn
  {
    assert IndexedTwice(byFqn, done, ambiguous, x);
    forall q ensures x !in byFqn && Once(done, x, q) ==> x in inst {
      assert IndexedOnce(byFqn, done, inst, x, q);
    }
    assert x in inst ==> IndexedOnce(byFqn, done, inst, x, inst[x]);
  }

  /** Zero, one and more sources: what adding one does. */
  lemma CountUp(done: Sources, p: Path, i: nat, x: string)
    requires (p, i, x) !in done
    ensures var done' := done + {(p, i, x)};
      && (Twice(done, x) ==> Twice(done', x) && forall q :: !Once(done', x, q))
      && (forall q :: Once(done, x, q) ==> Twice(done', x) && forall q' :: !Once(done', x, q'))
      && (!Twice(done, x) && (forall q :: !Once(done, x, q)) ==> !Twice(done', x) && forall q :: Once(done', x, q) <==>
        q == p)
      && (Twice(done, x) ==> forall q :: !Once(done, x, q))
  {
    var done' := done + {(p, i, x)};
    assert (p, i, x) in done';
    if q: Path, j: nat :| (q, j, x) in done {
      assert (q, j, x) in done';
      assert Twice(done', x);
      assert Twice(done, x) || Once(done, x, q);
    }
  }

  lemma SameSources(done: Sources, done': Sources, y: string)
    requires forall q: Path, j: nat :: (q, j, y) in done <==> (q, j, y) in done'
    ensures Twice(done', y) <==> Twice(done, y)
    ensures forall q :: Once(done', y, q) <==> Once(done, y, q)
  {
  }

  lemma AllIndexed(root: Node, byFqn: map<string, Path>, done: Sources, inst: map<string, Path>, ambiguous: set<string>)
    requires IndexedSoFar(byFqn, done, inst, ambiguous)
    requires forall q: Path, j: nat, x: string :: (q, j, x) in done <==> Enumerates(root, byFqn, q, j, x)
    ensures IndexesInstances(root, byFqn, inst)
  {
    forall x, p ensures x in inst && inst[x] == p <==> x !in byFqn && SoleEnumerator(root, byFqn, x, p) {
      assert IndexedOnce(byFqn, done, inst, x, p);
      if Once(done, x, p) {
        var j: nat :| (p, j, x) in done;
        assert Enumerates(root, byFqn, p, j, x);
      }
      if SoleEnumerator(root, byFqn, x, p) {
        var j: nat :| Enumerates(root, byFqn, p, j, x);
        assert (p, j, x) in done;
      }
    }
  }

  /** What a stage's execution registers before the stage itself. */
  function ExecutionEntries(children: seq<Node>, rollback: Option<Node>, p: Path): seq<(string, Path)> {
    SiblingEntries(children, p) + if rollback.Some? then EntriesOf(rollback.value, p + [|children|]) else []
  }

  method DeclaresPipelineRollback(actions: seq<string>) returns (found: bool)
    ensures found <==> RollsBackPipeline(actions)
  {
    for i := 0 to |actions|
      invariant !RollsBackPipeline(actions[..i])
    {
      if EqualFold(actions[i], "PipelineRollback") {
        return true;
      }
      RollsBackSnoc(actions, i);
    }
    assert actions[..|actions|] == actions;
    return false;
  }

  lemma AppendEntry(ix: NameIndex, before: seq<Node>, ns: seq<Node>, parent: Path)
    requires |ns| <= 1
    ensures RegisterAll(RegisterAll(ix, SiblingEntries(before, parent)), if ns == [] then []
        else EntriesOf(ns[0], parent + [|before|]))
         == RegisterAll(ix, SiblingEntries(before + ns, parent))
  {
    if ns == [] {
      assert before + ns == before;
    } else {
      assert ns == [ns[0]];
      SiblingSnoc(before, ns[0], parent);
      RegisterConcat(ix, SiblingEntries(before, parent), EntriesOf(ns[0], parent + [|before|]));
    }
  }

  lemma RollsBackSnoc(actions: seq<string>, i: nat)
    requires i < |actions| && !EqualFold(actions[i], "PipelineRollback")
    ensures RollsBackPipeline(actions[..i + 1]) <==> RollsBackPipeline(actions[..i])
  {
    var longer, front := actions[..i + 1], actions[..i];
    if k :| 0 <= k < |longer| && EqualFold(longer[k], "PipelineRollback") {
      assert front[k] == longer[k];
    }
    if k :| 0 <= k < |front| && EqualFold(front[k], "PipelineRollback") {
      assert longer[k] == front[k];
    }
  }
}
