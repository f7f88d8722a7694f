/**
  The reference evaluator of `when` guards (examples/zts/ordering/conditionchecker.go):
  a guard is the three-valued conjunction of a status gate and an expression gate.
*/
module Conditions {
  import opened Common
  import opened Text
  import opened Graph
  import opened Lookup
  import opened Frontier
  import opened Evaluate
  import opened Verdicts
  import RawPipeline

  /** An expression evaluator: (result, known) for an execution, an expression and variables. */
  type Evaluator = (string, string, map<string, string>) -> (bool, bool)

  datatype CheckerState = CheckerState(
    overrides: map<string, bool>,
    evaluator: Option<Evaluator>,
    vars: map<string, string>,
    statuses: map<string, map<string, string>>)

  const UNRESOLVED := Unevaluable("ordering: when-guard could not be evaluated")

  /******* Text *******/

  function TrimLeft(s: string): string {
    if s != "" && IsSpace(s[0]) then TrimLeft(s[1..]) else s
  }

  function TrimRight(s: string): string {
    if s != "" && IsSpace(s[|s| - 1]) then TrimRight(s[..|s| - 1]) else s
  }

  function TrimSpace(s: string): string {
    TrimRight(TrimLeft(s))
  }

  /** strings.ToLower(s) == "all": no other letter has 'a' or 'l' as its lower case. */
  predicate IsAll(s: string) {
    |s| == 3 && s[0] in "aA" && s[1] in "lL" && s[2] in "lL"
  }

  /******* Gates *******/

  /** The recorded status of a guard's owner; without a record it is taken to have succeeded. */
  function Observed(s: CheckerState, planExecId: string, owner: string): string {
    if planExecId in s.statuses && owner in s.statuses[planExecId] then s.statuses[planExecId][owner] else "Success"
  }

  predicate StatusHolds(s: CheckerState, planExecId: string, w: When) {
    var wanted := TrimSpace(w.status);
    wanted == "" || IsAll(wanted) || RawPipeline.EqualFold(Observed(s, planExecId, w.ownerFqn), w.status)
  }

  /** The expression's value, when something decides it. */
  function ExpressionValue(s: CheckerState, planExecId: string, w: When): Option<bool> {
    var expr := TrimSpace(w.expression);
    if expr == "" then Some(true)
    else if expr in s.overrides then Some(s.overrides[expr])
    else if s.evaluator.None? then None
    else
      var (result, known) := s.evaluator.value(planExecId, expr, s.vars);
      if known then Some(result) else None
  }

  /** What the checker answers about a guard. */
  function GuardOf(s: CheckerState, planExecId: string): Condition {
    (w: When) =>
      if w.runtimeInput then UNRESOLVED
      else if !StatusHolds(s, planExecId, w) || ExpressionValue(s, planExecId, w) == Some(false) then Fails
      else if ExpressionValue(s, planExecId, w) == Some(true) then Holds
      else UNRESOLVED
  }

  class ConditionChecker {
    var overrides: map<string, bool>
    const evaluator: Option<Evaluator>
    const vars: map<string, string>
    var statuses: map<string, map<string, string>>

    function State(): CheckerState
      reads this
    {
      CheckerState(overrides, evaluator, vars, statuses)
    }

    constructor (evaluator: Option<Evaluator>, vars: map<string, string>)
      ensures State() == CheckerState(map[], evaluator, vars, map[])
    {
      this.evaluator, this.vars := evaluator, vars;
      overrides, statuses := map[], map[];
    }

    /** Later overrides win. */
    method MergeOverrides(o: map<string, bool>)
      modifies `overrides
      ensures overrides == old(overrides) + o
    {
      if |o| == 0 { return; }
      overrides := overrides + o;
    }

    method MarkStatus(planExecId: string, ownerFqn: string, status: string)
      modifies `statuses
      ensures forall e, f ::
        Observed(State(), e, f) == if e == planExecId && f == ownerFqn then status else Observed(old(State()), e, f)
    {
      var recorded := if planExecId in statuses then statuses[planExecId] else map[];
      statuses := statuses[planExecId := recorded[ownerFqn := status]];
    }

    method StatusGate(planExecId: string, w: When) returns (ok: bool, known: bool)
      ensures known && (ok <==> StatusHolds(State(), planExecId, w))
    {
      var wanted := TrimSpace(w.status);
      if wanted == "" || IsAll(wanted) { return true, true; }
      var observed := "Success";
      if planExecId in statuses && w.ownerFqn in statuses[planExecId] {
        observed := statuses[planExecId][w.ownerFqn];
      }
      return RawPipeline.EqualFold(observed, w.status), true;
    }

    method ExprGate(planExecId: string, w: When) returns (ok: bool, known: bool)
      ensures ExpressionValue(State(), planExecId, w) == if known then Some(ok) else None
    {
      var expr := TrimSpace(w.expression);
      if expr == "" { return true, true; }
      if expr in overrides { return overrides[expr], true; }
      if evaluator.None? { return false, false; }
      var (result, settled) := evaluator.value(planExecId, expr, vars);
      return result, settled;
    }

    /** Eval: one gate known false decides; otherwise both have to be known. */
    method Eval(planExecId: string, w: When) returns (r: Guard)
      ensures r == GuardOf(State(), planExecId)(w)
    {
      if w.runtimeInput { return UNRESOLVED; }
      var statusOk, statusKnown := StatusGate(planExecId, w);
      var exprOk, exprKnown := ExprGate(planExecId, w);
      if (statusKnown && !statusOk) || (exprKnown && !exprOk) { return Fails; }
      if statusKnown && exprKnown { return if statusOk && exprOk then Holds else Fails; }
      return UNRESOLVED;
    }
  }

  /******* Three-valued conjunction *******/

  /** Kleene's conjunction: a false conjunct decides, otherwise an undecided one does. */
  function And(a: Guard, b: Guard): Guard {
    if a.Fails? || b.Fails? then Fails
    else if a.Unevaluable? then a
    else b
  }

  function TruthOf(v: Option<bool>): Guard {
    match v
    case Some(true) => Holds
    case Some(false) => Fails
    case None => UNRESOLVED
  }

  /** A guard that is no runtime input is the Kleene conjunction of its two gates. */
  lemma EvalIsKleene(s: CheckerState, planExecId: string, w: When)
    requires !w.runtimeInput
    ensures GuardOf(s, planExecId)(w) ==
      And(TruthOf(Some(StatusHolds(s, planExecId, w))), TruthOf(ExpressionValue(s, planExecId, w)))
  {
  }

  /** The status recorded for a guard's owner, if one is. */
  function StatusOf(s: CheckerState, planExecId: string, owner: string): Option<string> {
    if planExecId in s.statuses && owner in s.statuses[planExecId] then Some(s.statuses[planExecId][owner]) else None
  }

  /** Without a record the owner counts as succeeded: the guard holds on "Success", in whatever case. */
  lemma StatusGateIs(s: CheckerState, planExecId: string, w: When)
    ensures var wanted, seen := TrimSpace(w.status), StatusOf(s, planExecId, w.ownerFqn);
      StatusHolds(s, planExecId, w) <==>
        || wanted == "" || IsAll(wanted)
        || (seen.Some? && RawPipeline.EqualFold(seen.value, w.status))
        || (seen.None? && RawPipeline.EqualFold("Success", w.status))
  {
  }

  /**
    What decides a guard that is no runtime input.  A blank expression leaves the
    status alone to decide; an override decides before any evaluator is asked;
    without an override the evaluator decides, as far as it knows; and a status
    that does not hold decides against the guard whatever the expression is.
  */
  lemma GuardIsDecidedBy(s: CheckerState, planExecId: string, w: When)
    requires !w.runtimeInput
    ensures var g, expr := GuardOf(s, planExecId)(w), TrimSpace(w.expression);
      if !StatusHolds(s, planExecId, w) then g == Fails
      else if expr == "" then g == Holds
      else if expr in s.overrides then g == (if s.overrides[expr] then Holds else Fails)
      else if s.evaluator.None? then g == UNRESOLVED
      else
        var (result, known) := s.evaluator.value(planExecId, expr, s.vars);
        g == if !known then UNRESOLVED else if result then Holds else Fails
  {
  }

  /** A guard that asks for runtime input is never decided. */
  lemma RuntimeInputIsUndecided(s: CheckerState, planExecId: string, w: When)
    requires w.runtimeInput
    ensures GuardOf(s, planExecId)(w) == UNRESOLVED
  {
  }

  /** Characters fold together exactly when they are equal, are one letter in two cases, or are k or s and its sign. */
  lemma FoldsTogether(a: char, b: char)
    ensures RawPipeline.Fold(a) == RawPipeline.Fold(b) <==>
      || a == b
      || ('a' <= a <= 'z' && 'A' <= b <= 'Z' && a - 'a' == b - 'A')
      || ('A' <= a <= 'Z' && 'a' <= b <= 'z' && a - 'A' == b - 'a')
      || (a in "kK\U{212A}" && b in "kK\U{212A}")
      || (a in "sS\U{017F}" && b in "sS\U{017F}")
  {
  }

  lemma {:induction false} TrimLeftShortens(s: string)
    ensures |TrimLeft(s)| <= |s| && (|TrimLeft(s)| == |s| ==> TrimLeft(s) == s)
    ensures TrimLeft(s) == s <==> s == "" || !IsSpace(s[0])
  {
    if s != "" && IsSpace(s[0]) {
      TrimLeftShortens(s[1..]);
    }
  }

  lemma {:induction false} TrimRightShortens(s: string)
    ensures |TrimRight(s)| <= |s| && (|TrimRight(s)| == |s| ==> TrimRight(s) == s)
    ensures TrimRight(s) == s <==> s == "" || !IsSpace(s[|s| - 1])
  {
    if s != "" && IsSpace(s[|s| - 1]) {
      TrimRightShortens(s[..|s| - 1]);
    }
  }

  /** "All" is recognised in whatever case, and nothing else is. */
  lemma IsAllIs(s: string)
    ensures IsAll(s) <==> RawPipeline.EqualFold(s, "All")
  {
  }

  predicate AllSpace(s: string) {
    forall i :: 0 <= i < |s| ==> IsSpace(s[i])
  }

  lemma {:induction false} TrimLeftSplits(s: string) returns (l: string)
    ensures AllSpace(l) && s == l + TrimLeft(s)
    ensures TrimLeft(s) == "" || !IsSpace(TrimLeft(s)[0])
  {
    if s != "" && IsSpace(s[0]) {
      var rest := TrimLeftSplits(s[1..]);
      Uncons(s);
      Associates([s[0]], rest, TrimLeft(s[1..]));
      l := [s[0]] + rest;
    } else {
      l := "";
    }
  }

  lemma {:induction false} TrimRightSplits(s: string) returns (r: string)
    ensures AllSpace(r) && s == TrimRight(s) + r
    ensures TrimRight(s) == "" || !IsSpace(TrimRight(s)[|TrimRight(s)| - 1])
  {
    if s != "" && IsSpace(s[|s| - 1]) {
      var front := s[..|s| - 1];
      var rest := TrimRightSplits(front);
      FrontAndLast(s);
      Associates(TrimRight(front), rest, [s[|s| - 1]]);
      r := rest + [s[|s| - 1]];
    } else {
      r := "";
    }
  }

  /** Trimming removes white space at the ends, all of it, and nothing else. */
  lemma TrimSpaceSplits(s: string) returns (l: string, r: string)
    ensures AllSpace(l) && AllSpace(r) && s == l + TrimSpace(s) + r
    ensures var t := TrimSpace(s); t == "" || (!IsSpace(t[0]) && !IsSpace(t[|t| - 1]))
  {
    l := TrimLeftSplits(s);
    r := TrimRightSplits(TrimLeft(s));
    Associates(l, TrimSpace(s), r);
    if TrimSpace(s) != "" {
      assert TrimSpace(s)[0] == TrimLeft(s)[0];
    }
  }

  /** Trimming changes nothing exactly when neither end is white space. */
  lemma TrimSpaceIs(s: string)
    ensures TrimSpace(s) == s <==> s == "" || (!IsSpace(s[0]) && !IsSpace(s[|s| - 1]))
  {
    TrimLeftShortens(s);
    TrimRightShortens(TrimLeft(s));
  }

  /** Padding at either end makes a status different from every status without padding. */
  lemma PaddedIsNoMatch(o: string, status: string)
    requires TrimSpace(o) == o && TrimSpace(status) != status
    ensures !RawPipeline.EqualFold(o, status)
  {
    TrimSpaceIs(o);
    TrimSpaceIs(status);
    if |o| == |status| {
      FoldKeepsSpace(o[0], status[0]);
      FoldKeepsSpace(o[|o| - 1], status[|o| - 1]);
    }
  }

  /**
    The status gate trims the guard's status to recognise an empty or "All" one and
    compares the untrimmed text.  Against an observed status without outer white
    space it therefore agrees with the comparison of the trimmed text exactly when
    the status is not padded, is empty or "All", or would not match anyway.
  */
  lemma StatusGateIsTrimmed(s: CheckerState, planExecId: string, w: When)
    requires var o := Observed(s, planExecId, w.ownerFqn); TrimSpace(o) == o
    ensures var o, wanted := Observed(s, planExecId, w.ownerFqn), TrimSpace(w.status);
      (StatusHolds(s, planExecId, w) <==> wanted == "" || IsAll(wanted) || RawPipeline.EqualFold(o, wanted))
      <==> (w.status == wanted || wanted == "" || IsAll(wanted) || !RawPipeline.EqualFold(o, wanted))
  {
    if TrimSpace(w.status) != w.status {
      PaddedIsNoMatch(Observed(s, planExecId, w.ownerFqn), w.status);
    }
  }

  lemma FoldKeepsSpace(a: char, b: char)
    ensures IsSpace(b) && RawPipeline.Fold(a) == RawPipeline.Fold(b) ==> IsSpace(a)
  {
  }

  /** `s'` decides at least what `s` decides, and no differently. */
  ghost predicate EvaluatesMore(s: CheckerState, s': CheckerState) {
    && s'.overrides == s.overrides && s'.statuses == s.statuses && s'.vars == s.vars
    && (s.evaluator.Some? ==> s'.evaluator.Some? && forall e, x, v ::
          s.evaluator.value(e, x, v).1 ==> s'.evaluator.value(e, x, v) == s.evaluator.value(e, x, v))
  }

  lemma EvaluatesMoreRefines(s: CheckerState, s': CheckerState, planExecId: string)
    requires EvaluatesMore(s, s')
    ensures Refines(GuardOf(s, planExecId), GuardOf(s', planExecId))
  {
    forall w: When | !GuardOf(s, planExecId)(w).Unevaluable?
      ensures GuardOf(s', planExecId)(w) == GuardOf(s, planExecId)(w)
    {
      var expr := TrimSpace(w.expression);
      assert StatusHolds(s', planExecId, w) == StatusHolds(s, planExecId, w);
      if s.evaluator.Some? {
        assert s.evaluator.value(planExecId, expr, s.vars).1 ==>
          s'.evaluator.value(planExecId, expr, s.vars) == s.evaluator.value(planExecId, expr, s.vars);
      }
    }
  }

  /** A step allowed with a weaker evaluator is allowed, in the same way, with any that decides more. */
  lemma AllowSurvivesEvaluation(g: OrderGraph, x: string, ran: string -> Answer, s: CheckerState, s': CheckerState,
      planExecId: string)
    requires ValidGraph(g) && EvaluatesMore(s, s')
    requires var v := EvaluateStep(g, x, ran, GuardOf(s, planExecId), FAIL_CLOSED); v.Some? && v.value.allowed
    ensures EvaluateStep(g, x, ran, GuardOf(s', planExecId), FAIL_CLOSED) ==
        EvaluateStep(g, x, ran, GuardOf(s, planExecId), FAIL_CLOSED)
  {
    EvaluatesMoreRefines(s, s', planExecId);
    AllowIgnoresUndecided(g, x, ran, GuardOf(s, planExecId), GuardOf(s', planExecId));
  }
}
