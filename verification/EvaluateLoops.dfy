/**
  The loops and accumulating closures of verifier/pipeline/evaluate.go
  (EvaluateStep, conditionViolations, ancestorViolations, guardSkip,
  liveAncestorsOf, coveredByAnother, precedesVia), each proved against the
  function that specifies it.
*/
module EvaluateLoops {
  import opened Common
  import opened Strategy
  import opened Graph
  import opened Instances
  import opened InstanceLoops
  import opened Lookup
  import opened Frontier
  import opened Evaluate
  import opened Builder

  /******* Guards *******/

  /** guardSkip: `node`'s own and enclosing guards, a known-false one winning. */
  method GuardSkip(root: Node, node: Path, cond: Condition) returns (r: Class)
    requires IsNode(root, node)
    ensures r == GuardsFrom(root, node, cond, None)
  {
    var first: Option<(When, string)> := None;
    var c := node;
    while true
      invariant IsNode(root, c) && GuardsFrom(root, c, cond, first) == GuardsFrom(root, node, cond, None)
      decreases |c|
    {
      var w := At(root, c).when;
      if w.Some? {
        match cond(w.value)
        case Fails => return SteppedOver;
        case Holds =>
        case Unevaluable(err) =>
          if first.None? {
            first := Some((w.value, err));
          }
      }
      if c == [] {
        return if first.Some? then Undecided(first.value.0, first.value.1) else Required;
      }
      c := Up(c);
    }
  }

  /******* The walk over stepped-over units *******/

  lemma AncestorsSnoc(root: Node, ps: seq<Path>, p: Path, t: Path, raw: string)
    requires IsNode(root, t) && AllNodes(root, ps) && IsNode(root, p)
    ensures AllNodes(root, ps + [p])
    ensures AncestorsOf(root, ps + [p], t, raw) == AncestorsOf(root, ps, t, raw) + [AncestorOf(root, p, t, raw)]
  {
  }

  lemma UndecidedSnoc(root: Node, ps: seq<Path>, p: Path, cond: Condition)
    requires AllUndecided(root, ps, cond) && IsNode(root, p) && Classify(root, p, cond).Undecided?
    ensures AllUndecided(root, ps + [p], cond)
    ensures var c := Classify(root, p, cond);
      UndecidedViolations(root, ps + [p], cond) ==
        UndecidedViolations(root, ps, cond) + [GuardUnknown(At(root, p).fqn, c.guard, c.err)]
  {
  }

  /** The variables that liveAncestorsOf's closure shares between its calls. */
  class FrontierWalk {
    const root: Node
    const target: Path
    const raw: string
    const cond: Condition
    var seen: set<string>
    var out: seq<Ancestor>
    var unknowns: seq<Violation>
    var nodes: seq<Path>
    ghost var undecided: seq<Path>

    ghost function Walked(): Found
      reads this
    {
      Found(seen, nodes, undecided)
    }

    ghost predicate Valid()
      reads this
    {
      && WellShaped(root) && IsNode(root, target)
      && AllNodes(root, nodes) && AllUndecided(root, undecided, cond)
      && out == AncestorsOf(root, nodes, target, raw)
      && unknowns == UndecidedViolations(root, undecided, cond)
    }

    constructor (root: Node, target: Path, raw: string, cond: Condition)
      requires WellShaped(root) && IsNode(root, target)
      ensures Valid() && Walked() == Found({}, [], [])
      ensures this.root == root && this.target == target && this.raw == raw && this.cond == cond
    {
      this.root, this.target, this.raw, this.cond := root, target, raw, cond;
      seen, out, unknowns, nodes, undecided := {}, [], [], [], [];
    }

    /** visit: files every predecessor of `n` not seen before. */
    method VisitFrom(n: Path)
      requires Valid() && IsNode(root, n)
      modifies this
      ensures Valid() && Walked() == Visit(root, n, 0, cond, old(Walked()))
      decreases Rank(root, n), 1
    {
      var preds := Climb(root, n);
      ClimbDescends(root, n);
      for k := 0 to |preds|
        invariant Valid()
        invariant Visit(root, n, k, cond, Walked()) == Visit(root, n, 0, cond, old(Walked()))
      {
        MeetOne(preds[k]);
      }
    }

    method MeetOne(p: Path)
      requires Valid() && IsNode(root, p)
      modifies this
      ensures Valid() && Walked() == Meet(root, p, cond, old(Walked()))
      decreases Rank(root, p), 2
    {
      var name := At(root, p).fqn;
      if name in seen { return; }
      seen := seen + {name};
      if StrategyExcluded(root, p) {
        VisitFrom(p);
        return;
      }
      var guards := GuardSkip(root, p, cond);
      match guards
      case Undecided(w, err) =>
        UndecidedSnoc(root, undecided, p, cond);
        unknowns := unknowns + [GuardUnknown(name, w, err)];
        undecided := undecided + [p];
      case SteppedOver =>
        VisitFrom(p);
      case Required =>
        AncestorsSnoc(root, nodes, p, target, raw);
        var insts := EnumerateAncestor(root, p, target, raw);
        var expands := HasStrategy(root, p);
        var a := Ancestor(name, At(root, p).stepType, expands,
          if insts.Some? then insts.value else [],
          if insts.None? && expands then StrategyStatus(root, p) else Unset, false);
        out := out + [a];
        nodes := nodes + [p];
    }
  }

  /******* Coverage *******/

  /** The variables of precedesVia's closure. */
  class CoverWalk {
    const root: Node
    const goal: Path
    var visited: set<Path>

    /** Whatever was visited below rank `bound` does not lead to the goal. */
    ghost predicate Cleared(bound: nat)
      requires WellShaped(root)
      reads this
    {
      forall p :: p in visited ==> IsNode(root, p) && (Rank(root, p) < bound ==> p != goal && !Precedes(root, goal, p))
    }

    constructor (root: Node, goal: Path)
      ensures this.root == root && this.goal == goal && visited == {}
    {
      this.root, this.goal, visited := root, goal, {};
    }

    /** walk: the `visited` memory never hides a path to the goal. */
    method Walk(n: Path) returns (found: bool)
      requires WellShaped(root) && IsNode(root, n) && Cleared(Rank(root, n))
      modifies this
      ensures found <==> Precedes(root, goal, n)
      ensures !found ==> Cleared(Rank(root, n)) && forall p :: p in visited ==>
          p in old(visited) || Rank(root, p) < Rank(root, n)
      decreases Rank(root, n)
    {
      if OrJoined(root, n) { return false; }
      var preds := Climb(root, n);
      ClimbDescends(root, n);
      for k := 0 to |preds|
        invariant Cleared(Rank(root, n))
        invariant forall p :: p in visited ==> p in old(visited) || Rank(root, p) < Rank(root, n)
        invariant forall j :: 0 <= j < k ==> preds[j] != goal && !Precedes(root, goal, preds[j])
      {
        var p := preds[k];
        assert p in Climb(root, n);
        if p == goal { return true; }
        if p in visited { continue; }
        visited := visited + {p};
        var hit := Walk(p);
        if hit { return true; }
      }
      return false;
    }
  }

  method CoveredByAnother(root: Node, nodes: seq<Path>, i: nat) returns (covered: bool)
    requires WellShaped(root) && AllNodes(root, nodes) && i < |nodes|
    ensures covered <==> Covered(root, nodes, i)
  {
    for j := 0 to |nodes|
      invariant forall l :: 0 <= l < j && l != i ==> !Precedes(root, nodes[i], nodes[l])
    {
      if j == i { continue; }
      var walk := new CoverWalk(root, nodes[i]);
      var found := walk.Walk(nodes[j]);
      if found { return true; }
    }
    return false;
  }

  /** `kept` describes the uncovered ones among the first `i` nodes. */
  ghost predicate PrunedTo(root: Node, nodes: seq<Path>, i: nat, t: Path, raw: string, kept: seq<Ancestor>)
    requires WellShaped(root) && IsNode(root, t) && AllNodes(root, nodes) && i <= |nodes|
  {
    var ps := Pruned(root, nodes, i);
    AllNodes(root, ps) && kept == AncestorsOf(root, ps, t, raw)
  }

  /** A single ancestor is never covered. */
  lemma FewAreKept(root: Node, nodes: seq<Path>, t: Path, raw: string)
    requires WellShaped(root) && IsNode(root, t) && AllNodes(root, nodes) && |nodes| < 2
    ensures PrunedTo(root, nodes, |nodes|, t, raw, AncestorsOf(root, nodes, t, raw))
  {
    if |nodes| == 1 {
      assert !Covered(root, nodes, 0);
      assert Pruned(root, nodes, 1) == [] + [nodes[0]];
    }
    assert Pruned(root, nodes, |nodes|) == nodes;
  }

  lemma PrunedNext(root: Node, nodes: seq<Path>, i: nat, t: Path, raw: string, kept: seq<Ancestor>)
    requires WellShaped(root) && IsNode(root, t) && AllNodes(root, nodes) && i < |nodes|
    requires PrunedTo(root, nodes, i, t, raw, kept)
    ensures PrunedTo(root, nodes, i + 1, t, raw, if Covered(root, nodes, i) then kept
        else kept + [AncestorOf(root, nodes[i], t, raw)])
  {
    if Covered(root, nodes, i) {
      PlusNothing(Pruned(root, nodes, i));
    } else {
      AncestorsSnoc(root, Pruned(root, nodes, i), nodes[i], t, raw);
    }
  }

  /** One ancestor of the pruning loop. */
  method KeepUncovered(root: Node, nodes: seq<Path>, i: nat, a: Ancestor, kept: seq<Ancestor>, ghost t: Path,
      ghost raw: string)
    returns (kept': seq<Ancestor>)
    requires WellShaped(root) && IsNode(root, t) && AllNodes(root, nodes) && i < |nodes|
    requires PrunedTo(root, nodes, i, t, raw, kept) && a == AncestorOf(root, nodes[i], t, raw)
    ensures PrunedTo(root, nodes, i + 1, t, raw, kept')
  {
    PrunedNext(root, nodes, i, t, raw, kept);
    var covered := CoveredByAnother(root, nodes, i);
    return if covered then kept else kept + [a];
  }

  method PruneCovered(root: Node, nodes: seq<Path>, ancestors: seq<Ancestor>, ghost t: Path, ghost raw: string)
    returns (pruned: seq<Ancestor>)
    requires WellShaped(root) && IsNode(root, t) && AllNodes(root, nodes)
    requires ancestors == AncestorsOf(root, nodes, t, raw)
    ensures PrunedTo(root, nodes, |nodes|, t, raw, pruned)
  {
    if |nodes| < 2 {
      FewAreKept(root, nodes, t, raw);
      return ancestors;
    }
    pruned := [];
    for i := 0 to |nodes|
      invariant PrunedTo(root, nodes, i, t, raw, pruned)
    {
      pruned := KeepUncovered(root, nodes, i, ancestors[i], pruned, t, raw);
    }
  }

  /** liveAncestorsOf. */
  method LiveAncestors(root: Node, target: Path, raw: string, cond: Condition)
    returns (ancestors: seq<Ancestor>, unknowns: seq<Violation>)
    requires WellShaped(root) && IsNode(root, target)
    ensures ancestors == GateAncestors(root, target, raw, cond)
    ensures AllUndecided(root, LiveFrontier(root, target, cond).undecided, cond)
    ensures unknowns == UndecidedViolations(root, LiveFrontier(root, target, cond).undecided, cond)
  {
    var walk := new FrontierWalk(root, target, raw, cond);
    walk.VisitFrom(target);
    ancestors, unknowns := walk.out, walk.unknowns;
    if !OrJoined(root, target) {
      ancestors := PruneCovered(root, walk.nodes, walk.out, target, raw);
    }
  }

  /******* Violations *******/

  lemma SettleConcat(pol: Policies, a: seq<Violation>, b: seq<Violation>)
    ensures SettleAll(pol, a + b) == SettleAll(pol, a) + SettleAll(pol, b)
  {
  }

  lemma SettleOne(pol: Policies, vs: seq<Violation>, v: Violation)
    ensures SettleAll(pol, vs + [v]) == SettleAll(pol, vs) + [Settle(pol, v)]
  {
  }

  lemma ConditionsSnoc(fqn: string, ws: seq<When>, i: nat, cond: Condition)
    requires i < |ws|
    ensures ConditionViolations(fqn, ws[..i + 1], cond) == ConditionViolations(fqn, ws[..i], cond) +
      match cond(ws[i])
      case Holds => []
      case Fails => [GuardFailed(ws[i])]
      case Unevaluable(err) => [GuardUnknown(fqn, ws[i], err)]
  {
    assert ws[..i + 1][..i] == ws[..i];
  }

  /** conditionViolations: every guard is evaluated, none short-circuits the rest. */
  method CollectConditions(fqn: string, ws: seq<When>, cond: Condition, pol: Policies)
    returns (report: seq<When>, violations: seq<Violation>)
    ensures report == ws && violations == SettleAll(pol, ConditionViolations(fqn, ws, cond))
  {
    report, violations := [], [];
    for i := 0 to |ws|
      invariant report == ws[..i]
      invariant violations == SettleAll(pol, ConditionViolations(fqn, ws[..i], cond))
    {
      report := report + [ws[i]];
      ConditionsSnoc(fqn, ws, i, cond);
      match cond(ws[i])
      case Unevaluable(err) =>
        SettleOne(pol, ConditionViolations(fqn, ws[..i], cond), GuardUnknown(fqn, ws[i], err));
        violations := violations + [Settle(pol, GuardUnknown(fqn, ws[i], err))];
      case Holds =>
      case Fails =>
        SettleOne(pol, ConditionViolations(fqn, ws[..i], cond), GuardFailed(ws[i]));
        violations := violations + [Settle(pol, GuardFailed(ws[i]))];
    }
    assert ws[..|ws|] == ws;
  }

  lemma AskConcat(a: seq<string>, b: seq<string>, ran: string -> Answer)
    ensures Ask(a + b, ran) == Ask(a, ran) + Ask(b, ran)
    ensures Ask(a + b, ran)[..|a|] == Ask(a, ran) && Ask(a + b, ran)[|a|..] == Ask(b, ran)
  {
  }

  lemma QueriesAt(ancs: seq<Ancestor>, i: nat)
    requires i < |ancs|
    ensures Queries(ancs[..i + 1]) == Queries(ancs[..i]) + Queries([ancs[i]])
  {
    assert ancs[..i + 1][..i] == ancs[..i];
    QueriesSnoc(ancs[..i + 1]);
  }

  lemma QueriesOne(a: Ancestor)
    ensures Queries([a]) == if a.excluded || Unverifiable(a) then [] else EffectiveFqns(a)
  {
    assert [a][..0] == [];
  }

  lemma AndSnoc(ancs: seq<Ancestor>, i: nat, ran: string -> Answer)
    requires i < |ancs|
    ensures AndViolations(ancs[..i + 1], Ask(Queries(ancs[..i + 1]), ran))
         == AndViolations(ancs[..i], Ask(Queries(ancs[..i]), ran)) + AndOne(ancs[i], Ask(Queries([ancs[i]]), ran))
  {
    assert ancs[..i + 1][..i] == ancs[..i];
    QueriesAt(ancs, i);
    AskConcat(Queries(ancs[..i]), Queries([ancs[i]]), ran);
  }

  lemma AskSnoc(fqns: seq<string>, f: nat, ran: string -> Answer)
    requires f < |fqns|
    ensures fqns[..f + 1] == fqns[..f] + [fqns[f]]
    ensures Ask(fqns[..f + 1], ran) == Ask(fqns[..f], ran) + [ran(fqns[f])]
  {
  }

  lemma MissingSnoc(fqns: seq<string>, f: nat, ran: string -> Answer)
    requires f < |fqns|
    ensures Missing(fqns[..f + 1], Ask(fqns[..f + 1], ran))
         == Missing(fqns[..f], Ask(fqns[..f], ran)) + if ran(fqns[f]).DidNotRun? then [fqns[f]] else []
  {
    AskSnoc(fqns, f, ran);
    assert fqns[..f + 1][..f] == fqns[..f];
    assert Ask(fqns[..f + 1], ran)[..f] == Ask(fqns[..f], ran);
  }

  lemma UnknownRunsSnoc(fqns: seq<string>, f: nat, ran: string -> Answer)
    requires f < |fqns|
    ensures UnknownRuns(fqns[..f + 1], Ask(fqns[..f + 1], ran))
         == UnknownRuns(fqns[..f], Ask(fqns[..f], ran))
          + if ran(fqns[f]).RunUnknown? then [RunStateUnknown(fqns[f], ran(fqns[f]).err, false)] else []
  {
    AskSnoc(fqns, f, ran);
    assert fqns[..f + 1][..f] == fqns[..f];
    assert Ask(fqns[..f + 1], ran)[..f] == Ask(fqns[..f], ran);
  }

  lemma CandidatesSnoc(fqns: seq<string>, f: nat, ran: string -> Answer)
    requires f < |fqns|
    ensures Candidates(fqns[..f + 1], Ask(fqns[..f + 1], ran))
         == Candidates(fqns[..f], Ask(fqns[..f], ran)) + if ran(fqns[f]).RunUnknown? then [] else [fqns[f]]
  {
    AskSnoc(fqns, f, ran);
    assert fqns[..f + 1][..f] == fqns[..f];
    assert Ask(fqns[..f + 1], ran)[..f] == Ask(fqns[..f], ran);
  }

  /** The AND arm for one ancestor that gates the step. */
  method RequireAll(fqn: string, effective: seq<string>, ran: string -> Answer, pol: Policies)
    returns (violations: seq<Violation>)
    ensures violations == SettleAll(pol, UnknownRuns(effective, Ask(effective, ran)) +
      var missing := Missing(effective, Ask(effective, ran));
      if missing != [] then [AncestorDidNotRun(JoinAnd, fqn, missing, false)] else [])
  {
    violations := [];
    var missing := [];
    for f := 0 to |effective|
      invariant missing == Missing(effective[..f], Ask(effective[..f], ran))
      invariant violations == SettleAll(pol, UnknownRuns(effective[..f], Ask(effective[..f], ran)))
    {
      MissingSnoc(effective, f, ran);
      UnknownRunsSnoc(effective, f, ran);
      match ran(effective[f])
      case RunUnknown(err) =>
        SettleOne(pol, UnknownRuns(effective[..f], Ask(effective[..f], ran)),
          RunStateUnknown(effective[f], err, false));
        violations := violations + [Settle(pol, RunStateUnknown(effective[f], err, false))];
      case DidRun =>
      case DidNotRun =>
        missing := missing + [effective[f]];
    }
    assert effective[..|effective|] == effective;
    if |missing| > 0 {
      SettleOne(pol, UnknownRuns(effective, Ask(effective, ran)), AncestorDidNotRun(JoinAnd, fqn, missing, false));
      violations := violations + [Settle(pol, AncestorDidNotRun(JoinAnd, fqn, missing, false))];
    } else {
      assert UnknownRuns(effective, Ask(effective, ran)) + [] == UnknownRuns(effective, Ask(effective, ran));
    }
  }

  method GateAnd(ancestors: seq<Ancestor>, ran: string -> Answer, pol: Policies) returns (violations: seq<Violation>)
    ensures violations == SettleAll(pol, AndViolations(ancestors, Ask(Queries(ancestors), ran)))
  {
    violations := [];
    for i := 0 to |ancestors|
      invariant violations == SettleAll(pol, AndViolations(ancestors[..i], Ask(Queries(ancestors[..i]), ran)))
    {
      var a := ancestors[i];
      AndSnoc(ancestors, i, ran);
      QueriesOne(a);
      ghost var answers := Ask(Queries([a]), ran);
      SettleConcat(pol, AndViolations(ancestors[..i], Ask(Queries(ancestors[..i]), ran)), AndOne(a, answers));
      if a.excluded { continue; }
      if a.expands && |a.instances| == 0 {
        violations := violations + [Settle(pol, RuntimeFanout(a.fqn, a.status, FanoutAncestor, false))];
        continue;
      }
      var raised := RequireAll(a.fqn, EffectiveFqns(a), ran, pol);
      violations := violations + raised;
    }
    assert ancestors[..|ancestors|] == ancestors;
  }

  lemma {:induction false} CandidatesConcat(a: seq<string>, x: seq<Answer>, b: seq<string>, y: seq<Answer>)
    requires |a| == |x| && |b| == |y|
    ensures Candidates(a + b, x + y) == Candidates(a, x) + Candidates(b, y)
    decreases |b|
  {
    if b == [] {
      PlusNothing(a);
      PlusNothing(x);
      PlusNothing(Candidates(a, x));
    } else {
      var m := |b| - 1;
      ConcatFront(a, b);
      ConcatFront(x, y);
      CandidatesConcat(a, x, b[..m], y[..m]);
      Associates(Candidates(a, x), Candidates(b[..m], y[..m]), if y[m].RunUnknown? then [] else [b[m]]);
    }
  }

  lemma {:induction false} UnknownRunsConcat(a: seq<string>, x: seq<Answer>, b: seq<string>, y: seq<Answer>)
    requires |a| == |x| && |b| == |y|
    ensures UnknownRuns(a + b, x + y) == UnknownRuns(a, x) + UnknownRuns(b, y)
    decreases |b|
  {
    if b == [] {
      PlusNothing(a);
      PlusNothing(x);
      PlusNothing(UnknownRuns(a, x));
    } else {
      var m := |b| - 1;
      ConcatFront(a, b);
      ConcatFront(x, y);
      UnknownRunsConcat(a, x, b[..m], y[..m]);
      Associates(UnknownRuns(a, x), UnknownRuns(b[..m], y[..m]),
                 if y[m].RunUnknown? then [RunStateUnknown(b[m], y[m].err, false)] else []);
    }
  }

  predicate SomeRan(fqns: seq<string>, ran: string -> Answer) {
    DidRun in Ask(fqns, ran)
  }

  lemma SomeRanConcat(a: seq<string>, b: seq<string>, ran: string -> Answer)
    ensures SomeRan(a + b, ran) <==> SomeRan(a, ran) || SomeRan(b, ran)
  {
    AskConcat(a, b, ran);
  }

  /** What the OR arm has gathered from a list of reads. */
  predicate Gathered(qs: seq<string>, ran: string -> Answer, satisfied: bool, candidates: seq<string>,
      unknowns: seq<Violation>) {
    && (satisfied <==> SomeRan(qs, ran))
    && candidates == Candidates(qs, Ask(qs, ran))
    && unknowns == UnknownRuns(qs, Ask(qs, ran))
  }

  lemma GatheredOne(qs: seq<string>, f: nat, ran: string -> Answer, satisfied: bool, candidates: seq<string>,
      unknowns: seq<Violation>)
    requires f < |qs| && Gathered(qs[..f], ran, satisfied, candidates, unknowns)
    ensures Gathered(qs[..f + 1], ran, satisfied || ran(qs[f]).DidRun?,
      candidates + (if ran(qs[f]).RunUnknown? then [] else [qs[f]]),
      unknowns + (if ran(qs[f]).RunUnknown? then [RunStateUnknown(qs[f], ran(qs[f]).err, false)] else []))
  {
    CandidatesSnoc(qs, f, ran);
    UnknownRunsSnoc(qs, f, ran);
    AskSnoc(qs, f, ran);
  }

  lemma GatheredConcat(a: seq<string>, sa: bool, ca: seq<string>, ua: seq<Violation>,
                       b: seq<string>, sb: bool, cb: seq<string>, ub: seq<Violation>, ran: string -> Answer)
    requires Gathered(a, ran, sa, ca, ua) && Gathered(b, ran, sb, cb, ub)
    ensures Gathered(a + b, ran, sa || sb, ca + cb, ua + ub)
  {
    AskConcat(a, b, ran);
    CandidatesConcat(a, Ask(a, ran), b, Ask(b, ran));
    UnknownRunsConcat(a, Ask(a, ran), b, Ask(b, ran));
    SomeRanConcat(a, b, ran);
  }

  lemma FanoutsAt(ancs: seq<Ancestor>, i: nat)
    requires i < |ancs|
    ensures Fanouts(ancs[..i + 1]) == Fanouts(ancs[..i]) +
      if !ancs[i].excluded && Unverifiable(ancs[i])
        then [RuntimeFanout(ancs[i].fqn, ancs[i].status, FanoutAncestor, false)] else []
  {
    assert ancs[..i + 1][..i] == ancs[..i];
  }

  /** Reads the candidates of one ancestor of an OR group. */
  method ReadCandidates(qs: seq<string>, ran: string -> Answer)
    returns (satisfied: bool, candidates: seq<string>, unknowns: seq<Violation>)
    ensures Gathered(qs, ran, satisfied, candidates, unknowns)
  {
    satisfied, candidates, unknowns := false, [], [];
    for f := 0 to |qs|
      invariant Gathered(qs[..f], ran, satisfied, candidates, unknowns)
    {
      GatheredOne(qs, f, ran, satisfied, candidates, unknowns);
      assert candidates + [] == candidates && unknowns + [] == unknowns;
      match ran(qs[f])
      case RunUnknown(err) =>
        unknowns := unknowns + [RunStateUnknown(qs[f], err, false)];
      case DidRun =>
        candidates := candidates + [qs[f]];
        satisfied := true;
      case DidNotRun =>
        candidates := candidates + [qs[f]];
    }
    assert qs[..|qs|] == qs;
  }

  /** Adds what one more ancestor's candidates answer. */
  method AddCandidates(ghost front: seq<string>, qs: seq<string>, ran: string -> Answer, satisfied: bool,
      candidates: seq<string>, unknowns: seq<Violation>)
    returns (satisfied': bool, candidates': seq<string>, unknowns': seq<Violation>)
    requires Gathered(front, ran, satisfied, candidates, unknowns)
    ensures Gathered(front + qs, ran, satisfied', candidates', unknowns')
  {
    var hit, more, failed := ReadCandidates(qs, ran);
    GatheredConcat(front, satisfied, candidates, unknowns, qs, hit, more, failed, ran);
    return satisfied || hit, candidates + more, unknowns + failed;
  }

  method SettleEach(pol: Policies, raised: seq<Violation>) returns (settled: seq<Violation>)
    ensures settled == SettleAll(pol, raised)
  {
    settled := [];
    for i := 0 to |raised|
      invariant settled == SettleAll(pol, raised[..i])
    {
      assert raised[..i + 1] == raised[..i] + [raised[i]];
      SettleOne(pol, raised[..i], raised[i]);
      settled := settled + [Settle(pol, raised[i])];
    }
    assert raised[..|raised|] == raised;
  }

  predicate NoneLive(ancs: seq<Ancestor>) {
    forall i :: 0 <= i < |ancs| ==> ancs[i].excluded
  }

  lemma NoneLiveAt(ancs: seq<Ancestor>, i: nat)
    requires i < |ancs|
    ensures NoneLive(ancs[..i + 1]) <==> NoneLive(ancs[..i]) && ancs[i].excluded
  {
    assert ancs[..i + 1][i] == ancs[i];
    assert forall j :: 0 <= j < i ==> ancs[..i + 1][j] == ancs[..i][j];
  }

  /** The OR arm's survey of the group. */
  method SurveyOr(ancestors: seq<Ancestor>, ran: string -> Answer)
    returns (satisfied: bool, live: nat, candidates: seq<string>, fanouts: seq<Violation>, unknowns: seq<Violation>)
    ensures Gathered(Queries(ancestors), ran, satisfied, candidates, unknowns)
    ensures fanouts == Fanouts(ancestors) && (live == 0 <==> NoneLive(ancestors))
  {
    satisfied, live, candidates, fanouts, unknowns := false, 0, [], [], [];
    for i := 0 to |ancestors|
      invariant Gathered(Queries(ancestors[..i]), ran, satisfied, candidates, unknowns)
      invariant fanouts == Fanouts(ancestors[..i])
      invariant live == 0 <==> NoneLive(ancestors[..i])
    {
      var a := ancestors[i];
      QueriesAt(ancestors, i);
      QueriesOne(a);
      FanoutsAt(ancestors, i);
      NoneLiveAt(ancestors, i);
      PlusNothing(Queries(ancestors[..i]));
      if a.excluded { continue; }
      live := live + 1;
      if a.expands && |a.instances| == 0 {
        fanouts := fanouts + [RuntimeFanout(a.fqn, a.status, FanoutAncestor, false)];
        continue;
      }
      satisfied, candidates, unknowns :=
        AddCandidates(Queries(ancestors[..i]), EffectiveFqns(a), ran, satisfied, candidates, unknowns);
    }
    assert ancestors[..|ancestors|] == ancestors;
  }

  method GateOr(ancestors: seq<Ancestor>, ran: string -> Answer, pol: Policies) returns (violations: seq<Violation>)
    ensures violations == SettleAll(pol, OrViolations(ancestors, Ask(Queries(ancestors), ran)))
  {
    var satisfied, live, candidates, fanouts, unknowns := SurveyOr(ancestors, ran);
    if live == 0 {
      satisfied := true;
    }
    if satisfied { return []; }
    var raised := if |candidates| > 0 then [AncestorDidNotRun(JoinOr, "", candidates, false)] else [];
    SettleConcat(pol, fanouts + unknowns, raised);
    SettleConcat(pol, fanouts, unknowns);
    var settledFanouts := SettleEach(pol, fanouts);
    var settledUnknowns := SettleEach(pol, unknowns);
    var settledGroup := SettleEach(pol, raised);
    violations := settledFanouts + settledUnknowns + settledGroup;
  }

  /** ancestorViolations. */
  method GateAncestorSet(join: JoinType, ancestors: seq<Ancestor>, ran: string -> Answer, pol: Policies)
    returns (violations: seq<Violation>)
    ensures violations == SettleAll(pol, JoinViolations(join, ancestors, Ask(Queries(ancestors), ran)))
  {
    match join
    case JoinOr => violations := GateOr(ancestors, ran, pol);
    case JoinAnd => violations := GateAnd(ancestors, ran, pol);
  }

  /******* EvaluateStep *******/

  lemma RefsAt(ancs: seq<Ancestor>, i: nat)
    requires i < |ancs|
    ensures AncestorRefs(ancs[..i + 1]) == AncestorRefs(ancs[..i]) + if ancs[i].excluded then []
        else EffectiveFqns(ancs[i])
  {
    assert ancs[..i + 1][..i] == ancs[..i];
  }

  method ListAncestors(ancestors: seq<Ancestor>) returns (refs: seq<string>)
    ensures refs == AncestorRefs(ancestors)
  {
    refs := [];
    for i := 0 to |ancestors|
      invariant refs == AncestorRefs(ancestors[..i])
    {
      RefsAt(ancestors, i);
      if ancestors[i].excluded { continue; }
      refs := refs + if |ancestors[i].instances| > 0 then ancestors[i].instances else [ancestors[i].fqn];
    }
    assert ancestors[..|ancestors|] == ancestors;
  }

  method NothingBlocks(vs: seq<Violation>) returns (allowed: bool)
    ensures allowed <==> AllIgnored(vs)
  {
    for i := 0 to |vs|
      invariant forall j :: 0 <= j < i ==> vs[j].ignored
    {
      if !vs[i].ignored { return false; }
    }
    return true;
  }

  /** The step's own facts: exclusion, its own fan-out, its guards. */
  method CollectOwn(root: Node, t: Path, cond: Condition, pol: Policies)
    returns (report: seq<When>, violations: seq<Violation>)
    requires IsNode(root, t)
    ensures report == Conditions(root, t) && violations == SettleAll(pol, OwnViolations(root, t, cond))
  {
    var fqn := At(root, t).fqn;
    var first: seq<Violation> := [];
    if StrategyExcluded(root, t) {
      first := [ConditionViolation(fqn, LevelUnset, StrategyExcludedFact, "", "", false)];
    }
    var status := Unset;
    if HasStrategy(root, t) && !StrategyExcluded(root, t) {
      var insts := EnumerateInstances(root, t);
      if insts.None? {
        status := StrategyStatus(root, t);
      }
    }
    var second: seq<Violation> := [];
    if !status.Unset? && !status.Enumerable? {
      second := [RuntimeFanout(fqn, status, FanoutSelf, false)];
    }
    var guards;
    report, guards := CollectConditions(fqn, Conditions(root, t), cond, pol);
    SettleConcat(pol, first + second, ConditionViolations(fqn, Conditions(root, t), cond));
    var settled := SettleEach(pol, first + second);
    violations := settled + guards;
  }

  /**
    EvaluateStep.  Without a run-state callback nothing has run; without a guard
    callback every guard holds.
  */
  method DecideStep(g: PipelineGraph, fqn: string, ran: Option<string -> Answer>, cond: Option<Condition>,
      pol: Policies)
    returns (r: Option<Verdict>)
    requires ValidGraph(g.Model())
    ensures r == EvaluateStep(g.Model(), fqn, RanOrNone(ran), CondOrTrue(cond), pol)
  {
    var node := g.Find(fqn);
    if node.None? { return None; }
    LookupIsNode(g.Model(), fqn);
    r := DecideNode(g.root, node.value, fqn, RanOrNone(ran), CondOrTrue(cond), pol);
  }

  function RanOrNone(ran: Option<string -> Answer>): string -> Answer {
    if ran.Some? then ran.value else (_: string) => DidNotRun
  }

  function CondOrTrue(cond: Option<Condition>): Condition {
    if cond.Some? then cond.value else (_: When) => Holds
  }

  /** Without callbacks nothing has run and every guard holds; a given callback is asked as it is. */
  lemma DefaultsAre(f: string, w: When, ran: string -> Answer, cond: Condition)
    ensures RanOrNone(None)(f) == DidNotRun && RanOrNone(Some(ran))(f) == ran(f)
    ensures CondOrTrue(None)(w) == Holds && CondOrTrue(Some(cond))(w) == cond(w)
  {
  }

  method DecideNode(root: Node, t: Path, raw: string, ran: string -> Answer, cond: Condition, pol: Policies)
    returns (r: Option<Verdict>)
    requires WellShaped(root) && IsNode(root, t)
    ensures r == Some(VerdictOf(root, t, raw, cond, pol, Ask(StepQueries(root, t, raw, cond), ran)))
  {
    var report, own := CollectOwn(root, t, cond, pol);
    var gate, refs := [], [];
    ghost var answers := Ask(StepQueries(root, t, raw, cond), ran);
    if SeparatePlanRollback(root, t) {
      gate := SettleEach(pol, [PipelineRollbackGate(false)]);
      SettleConcat(pol, OwnViolations(root, t, cond), [PipelineRollbackGate(false)]);
    } else {
      var ancestors, undecided := LiveAncestors(root, t, raw, cond);
      var unknowns := SettleEach(pol, undecided);
      refs := ListAncestors(ancestors);
      var joined := GateAncestorSet(JoinOf(root, t), ancestors, ran, pol);
      gate := unknowns + joined;
      SettleConcat(pol, undecided, JoinViolations(JoinOf(root, t), ancestors, answers));
      SettleConcat(pol, OwnViolations(root, t, cond), undecided + JoinViolations(JoinOf(root, t), ancestors, answers));
    }
    var violations := own + gate;
    assert violations == SettleAll(pol, RawViolations(root, t, raw, cond, answers));
    var allowed := NothingBlocks(violations);
    return Some(Verdict(At(root, t).fqn, allowed, JoinOf(root, t), refs, report, violations));
  }
}
