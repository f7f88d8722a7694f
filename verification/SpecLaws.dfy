/**
  What strategy resolution comes to, outcome by outcome, and what the instances are
  called (verifier/pipeline/graph.go: resolve, repeatSuffixes, matrixValueSuffixes,
  multiDeploySuffix, isLiteralRef).
*/
module SpecLaws {
  import opened Common
  import opened Strategy
  import opened Text
  import opened Digits
  import opened Fanout
  import opened StrategySpecs

  /******* Counted instances *******/

  /** The number of iterations that `parallelism`, `times` or `items` spells out. */
  predicate CountsTo(s: RawStrategy, n: nat) {
    match s.parallelism
    case Some(count) => count == Some(n)
    case None =>
      s.repeat.Some? && !s.repeat.value.nodeName && !s.repeat.value.ranged &&
      if s.repeat.value.timesSet then s.repeat.value.times == Some(n) else s.repeat.value.itemsCount == Some(n)
  }

  /** Instances `_0` to `_(n-1)`, and for none of them a unit that is skipped. */
  predicate IsCounted(spec: StrategySpec, n: nat) {
    && !IsNonEnumerable(spec) && |spec.suffixes| == n && (spec.excluded <==> n == 0) && (spec.known <==> n != 0)
    && forall i :: 0 <= i < n ==> spec.suffixes[i] == "_" + Itoa(i)
  }

  /** Without a matrix a strategy has exactly the instances that its count says, numbered from zero. */
  lemma CountedInstances(s: RawStrategy, naming: MatrixNaming, n: nat)
    requires Decoded(s) && s.matrix.None?
    ensures CountsTo(s, n) <==> StrategyOf(s, naming).Ok? && IsCounted(StrategyOf(s, naming).value, n)
  {
    if s.repeat.Some? && s.repeat.value.itemsCount.Some? {
      assert |RangeOf(s.repeat.value.itemsCount.value)| == s.repeat.value.itemsCount.value;
    }
  }

  /******* Outcomes *******/

  predicate MatrixIsUsable(m: MatrixStrategy) {
    !m.runtimeInput && !m.badShape
  }

  /** Only a matrix that is malformed or without axes, and a block with no known kind, fail. */
  lemma FailuresAre(s: RawStrategy, naming: MatrixNaming)
    ensures StrategyOf(s, naming) == Err(InvalidPipeline) <==>
      s.matrix.Some? && !s.matrix.value.runtimeInput &&
      (s.matrix.value.badShape || (!s.matrix.value.nodeName && s.matrix.value.axes == []))
    ensures StrategyOf(s, naming) == Err(UnsupportedPipeline) <==>
      s.matrix.None? && s.parallelism.None? && s.repeat.None? && !s.runtimeInput
  {
  }

  /** Instances named by the engine: a node name, values that are no scalars, or names that collide. */
  lemma CustomNamesAre(s: RawStrategy, naming: MatrixNaming)
    requires Decoded(s)
    ensures StrategyOf(s, naming) == Ok(NotEnumerable(CustomNames)) <==>
      if s.matrix.Some? then
        var m := s.matrix.value;
        MatrixIsUsable(m) &&
        (m.nodeName ||
         (m.axes != [] && !(naming.ByIndex? && m.excludes == []) &&
          ((exists i :: 0 <= i < |m.axes| && !m.axes[i].allScalar) ||
           (naming.ByValue? &&
            !Distinct(TruncateAll(Kept(CombosOf(SortAxes(Scalar(m.axes)), ValuePiece()), m.excludes)))))))
      else s.parallelism.None? && s.repeat.Some? && s.repeat.value.nodeName
  {
  }

  /** Counts that are known at run time only. */
  lemma RuntimeInputIs(s: RawStrategy, naming: MatrixNaming)
    requires Decoded(s)
    ensures StrategyOf(s, naming) == Ok(NotEnumerable(RuntimeInput)) <==>
      if s.matrix.Some? then s.matrix.value.runtimeInput
      else if s.parallelism.Some? then s.parallelism.value.None?
      else if s.repeat.Some? then !s.repeat.value.nodeName && forall n: nat :: !CountsTo(s, n)
      else s.runtimeInput
  {
    if s.matrix.None? && s.parallelism.None? && s.repeat.Some? {
      var r := s.repeat.value;
      assert r.timesSet && r.times.Some? ==> (CountsTo(s, r.times.value) <==> !r.nodeName && !r.ranged);
      assert !r.timesSet && r.itemsCount.Some? ==> (CountsTo(s, r.itemsCount.value) <==> !r.nodeName && !r.ranged);
    }
  }

  /** A matrix named by index has the numerals of its combinations, all of them or those not excluded. */
  lemma IndexNamesAre(m: MatrixStrategy)
    requires MatrixSpec(m, ByIndex).Ok? && !IsNonEnumerable(MatrixSpec(m, ByIndex).value)
    ensures m.axes != []
    ensures MatrixSpec(m, ByIndex).value.suffixes ==
      if m.excludes == [] then ProductOf(Counts(m.axes))
      else NumeralsKept(Scalar(m.axes), m.excludes, Volume(Lengths(Scalar(m.axes))))
  {
    ExcludesOnlyFilter(Scalar(m.axes), m.excludes);
  }

  /** A unit is skipped exactly when nothing is left to enumerate: an empty list, or every combination excluded. */
  lemma ExcludedIs(s: RawStrategy, naming: MatrixNaming)
    requires Decoded(s) && StrategyOf(s, naming).Ok?
    ensures StrategyOf(s, naming).value.excluded <==>
      StrategyOf(s, naming).value.suffixes == [] && !IsNonEnumerable(StrategyOf(s, naming).value)
  {
    ResolvedStrategyIsValid(s, naming);
  }

  /******* Value names *******/

  /** The name of one combination: each axis's value in turn, non-alphanumerics replaced, after a '_'. */
  function Spelled(vals: seq<string>): string {
    if vals == [] then "" else Spelled(vals[..|vals| - 1]) + "_" + Sanitize(vals[|vals| - 1])
  }

  /** One value for each axis. */
  predicate Chosen(axes: seq<MatrixAxis>, vals: seq<string>) {
    |vals| == |axes| && forall i :: 0 <= i < |axes| ==> vals[i] in axes[i].vals
  }

  /** The values by axis name. */
  function Assigned(axes: seq<MatrixAxis>, vals: seq<string>): map<string, string>
    requires |vals| == |axes|
  {
    if axes == [] then map[]
    else Assigned(axes[..|axes| - 1], vals[..|axes| - 1])[axes[|axes| - 1].name := vals[|axes| - 1]]
  }

  ghost predicate IsCombination(axes: seq<MatrixAxis>, c: Combo) {
    exists vals :: Chosen(axes, vals) && c == Combo(Spelled(vals), Assigned(axes, vals))
  }

  lemma ChosenSnoc(axes: seq<MatrixAxis>, vals: seq<string>)
    requires axes != [] && |vals| == |axes|
    ensures Chosen(axes, vals) <==>
      Chosen(axes[..|axes| - 1], vals[..|axes| - 1]) && vals[|axes| - 1] in axes[|axes| - 1].vals
  {
  }

  /** One axis more. */
  lemma OneAxisMore(axes: seq<MatrixAxis>, front: seq<string>, v: string)
    requires axes != [] && Chosen(axes[..|axes| - 1], front) && v in axes[|axes| - 1].vals
    ensures Chosen(axes, front + [v]) && Spelled(front + [v]) == Spelled(front) + "_" + Sanitize(v)
    ensures Assigned(axes, front + [v]) == Assigned(axes[..|axes| - 1], front)[axes[|axes| - 1].name := v]
  {
    assert (front + [v])[..|axes| - 1] == front;
    ChosenSnoc(axes, front + [v]);
  }

  lemma SpelledAssociates(a: string, b: string)
    ensures a + ("_" + b) == a + "_" + b
  {
  }

  lemma {:induction false} CombinationsAre(axes: seq<MatrixAxis>, c: Combo)
    ensures c in CombosOf(axes, ValuePiece()) <==> IsCombination(axes, c)
    decreases axes, 1
  {
    if axes == [] {
      assert IsCombination(axes, Combo("", map[])) by {
        assert Chosen(axes, []) && Spelled([]) == "" && Assigned(axes, []) == map[];
      }
    } else {
      if c in CombosOf(axes, ValuePiece()) {
        ComboIsCombination(axes, c);
      }
      if IsCombination(axes, c) {
        CombinationIsCombo(axes, c);
      }
    }
  }

  lemma {:induction false} ComboIsCombination(axes: seq<MatrixAxis>, c: Combo)
    requires axes != [] && c in CombosOf(axes, ValuePiece())
    ensures IsCombination(axes, c)
    decreases axes, 0
  {
    var front, last := axes[..|axes| - 1], axes[|axes| - 1];
    var b, v := CrossElim(CombosOf(front, ValuePiece()), Indexed(last.vals), Extend(last.name, ValuePiece()), c);
    CombinationsAre(front, b);
    var vals :| Chosen(front, vals) && b == Combo(Spelled(vals), Assigned(front, vals));
    OneAxisMore(axes, vals, v.1);
    SpelledAssociates(Spelled(vals), Sanitize(v.1));
  }

  lemma FrontIsCombination(axes: seq<MatrixAxis>, vals: seq<string>)
    requires axes != [] && Chosen(axes, vals)
    ensures var n := |axes| - 1;
      && vals[n] in axes[n].vals
      && IsCombination(axes[..n], Combo(Spelled(vals[..n]), Assigned(axes[..n], vals[..n])))
  {
    ChosenSnoc(axes, vals);
  }

  lemma LastValue(bases: seq<Combo>, ax: MatrixAxis, b: Combo, v: string)
    requires b in bases && v in ax.vals
    ensures Combo(b.suffix + ("_" + Sanitize(v)), b.vals[ax.name := v]) in
      Cross(bases, Indexed(ax.vals), Extend(ax.name, ValuePiece()))
  {
    var j: nat :| j < |ax.vals| && ax.vals[j] == v;
    var cell: (nat, string) := (j, v);
    assert Indexed(ax.vals)[j] == cell;
    CrossIntro(bases, Indexed(ax.vals), Extend(ax.name, ValuePiece()), b, cell);
  }

  lemma {:induction false} CombinationIsCombo(axes: seq<MatrixAxis>, c: Combo)
    requires axes != [] && IsCombination(axes, c)
    ensures c in CombosOf(axes, ValuePiece())
    decreases axes, 0
  {
    var n := |axes| - 1;
    var front, last := axes[..n], axes[n];
    var vals :| Chosen(axes, vals) && c == Combo(Spelled(vals), Assigned(axes, vals));
    var b := Combo(Spelled(vals[..n]), Assigned(front, vals[..n]));
    FrontIsCombination(axes, vals);
    CombinationsAre(front, b);
    LastValue(CombosOf(front, ValuePiece()), last, b, vals[n]);
    SpelledAssociates(Spelled(vals[..n]), Sanitize(vals[n]));
  }

  lemma {:induction false} KeptMembers(cs: seq<Combo>, exSets: seq<map<string, string>>, s: string)
    ensures s in Kept(cs, exSets) <==> exists c :: c in cs && !MatchesAny(c.vals, exSets) && s == c.suffix
  {
    if cs != [] {
      KeptMembers(cs[..|cs| - 1], exSets, s);
      FrontAndLast(cs);
    }
  }

  /** An exclude entry matches when every axis it names has its value; an axis the matrix lacks has none but "". */
  lemma ExcludeMatchesWhen(vals: map<string, string>, ex: map<string, string>)
    ensures MatchesExclude(vals, ex) <==>
      forall k :: k in ex ==> (k in vals && vals[k] == ex[k]) || (k !in vals && ex[k] == "")
  {
  }

  /** The engine's cap on a suffix: its first 127 characters. */
  lemma TruncateIs(s: string)
    ensures Truncate(s) == if |s| <= 127 then s else s[..127]
  {
  }

  /** `s` names a combination of the axes, in key order, that no exclude entry matches. */
  ghost predicate NamesCombination(axes: seq<MatrixAxis>, exSets: seq<map<string, string>>, s: string) {
    exists vals :: Chosen(axes, vals) && !MatchesAny(Assigned(axes, vals), exSets) && s == Truncate(Spelled(vals))
  }

  /**
    Value naming: a unit whose matrix is named by value has exactly the instances
    that spell one value of every axis, the axes in key order, cut at the length
    cap, for the combinations that are not excluded.
  */
  lemma ValueNamesAre(axes: seq<MatrixAxis>, exSets: seq<map<string, string>>, s: string)
    requires ValueSpec(axes, exSets).known
    ensures AxesSorted(SortAxes(axes)) && multiset(SortAxes(axes)) == multiset(axes)
    ensures s in ValueSpec(axes, exSets).suffixes <==> NamesCombination(SortAxes(axes), exSets, s)
  {
    SortAxesSorts(axes);
    var sorted := SortAxes(axes);
    var raw := Kept(CombosOf(sorted, ValuePiece()), exSets);
    if s in ValueSpec(axes, exSets).suffixes {
      var i :| 0 <= i < |raw| && s == Truncate(raw[i]);
      KeptMembers(CombosOf(sorted, ValuePiece()), exSets, raw[i]);
      var c :| c in CombosOf(sorted, ValuePiece()) && !MatchesAny(c.vals, exSets) && raw[i] == c.suffix;
      CombinationsAre(sorted, c);
    }
    if NamesCombination(sorted, exSets, s) {
      var vals :| Chosen(sorted, vals) && !MatchesAny(Assigned(sorted, vals), exSets) && s == Truncate(Spelled(vals));
      var c := Combo(Spelled(vals), Assigned(sorted, vals));
      CombinationsAre(sorted, c);
      KeptMembers(CombosOf(sorted, ValuePiece()), exSets, c.suffix);
      var i :| 0 <= i < |raw| && raw[i] == c.suffix;
      assert TruncateAll(raw)[i] == s;
    }
  }

  /******* Deployment names *******/

  lemma {:induction false} RemoveDotsConcat(a: string, b: string)
    ensures RemoveDots(a + b) == RemoveDots(a) + RemoveDots(b)
  {
    if a == "" {
      PlusNothing(b);
    } else {
      RemoveDotsConcat(a[1..], b);
      assert (a + b)[1..] == a[1..] + b && (a + b)[0] == a[0];
      Associates(if a[0] == '.' then "" else [a[0]], RemoveDots(a[1..]), RemoveDots(b));
    }
  }

  /** Dots disappear and nothing else does. */
  lemma {:induction false} DotsRemoved(s: string)
    ensures '.' !in RemoveDots(s) && ('.' !in s ==> RemoveDots(s) == s)
    ensures RemoveDots(".") == ""
  {
    if s != "" {
      DotsRemoved(s[1..]);
      Uncons(s);
    }
  }

  /** The keys of a deployment combination in their order. */
  lemma KeyOrder()
    ensures StringLeq("environmentRef", "infraIdentifier") && StringLeq("infraIdentifier", "serviceRef")
  {
  }

  /** A deployment instance spells environment, infrastructure and service, whichever vary, in key order. */
  lemma DeployNameIs(service: string, env: string, infra: string)
    ensures var e, i, v := RemoveDots(env), RemoveDots(infra), RemoveDots(service);
      && DeploySuffix(true, true)(service, EnvInfra(env, Some(infra))) ==
        "_" + Truncate(Sanitize(e + "_" + i + "_" + v))
      && DeploySuffix(true, true)(service, EnvInfra(env, None)) == "_" + Truncate(Sanitize(e + "_" + v))
      && DeploySuffix(false, true)(service, EnvInfra(env, Some(infra))) == "_" + Truncate(Sanitize(e + "_" + i))
      && DeploySuffix(false, true)(service, EnvInfra(env, None)) == "_" + Truncate(Sanitize(e))
      && DeploySuffix(true, false)(service, EnvInfra("", None)) == "_" + Truncate(Sanitize(v))
  {
    var e, i, v := RemoveDots(env), RemoveDots(infra), RemoveDots(service);
    ThreeParts(e, i, v);
    assert Parts(true, true, service, EnvInfra(env, Some(infra))) == [e, i, v];
    assert Parts(true, true, service, EnvInfra(env, None)) == [e, v];
    assert Parts(false, true, service, EnvInfra(env, Some(infra))) == [e, i];
    assert Parts(false, true, service, EnvInfra(env, None)) == [e];
    assert Parts(true, false, service, EnvInfra("", None)) == [v];
  }

  lemma ThreeParts(a: string, b: string, c: string)
    ensures JoinUnderscore([a]) == a && JoinUnderscore([b]) == b && JoinUnderscore([c]) == c
    ensures JoinUnderscore([a, b]) == a + "_" + b && JoinUnderscore([a, c]) == a + "_" + c
    ensures JoinUnderscore([a, b, c]) == a + "_" + b + "_" + c
  {
    assert [a, b, c][1..] == [b, c] && [b, c][1..] == [c] && [a, b][1..] == [b] && [a, c][1..] == [c];
    assert JoinUnderscore([b, c]) == b + "_" + c;
    assert a + "_" + (b + "_" + c) == a + "_" + b + "_" + c;
  }

  /** Every reference of the stage is a literal one. */
  predicate AllRefsLiteral(d: DeploySpec) {
    && (forall i :: 0 <= i < |d.services| ==> IsLiteralRef(d.services[i]))
    && (forall i :: 0 <= i < |d.environments| ==>
          var e := d.environments[i];
          && IsLiteralRef(e.environmentRef) && !e.gitOpsClusters && !e.infra.runtimeInput
          && forall j :: 0 <= j < |e.infra.identifiers| ==> IsLiteralRef(e.infra.identifiers[j]))
  }

  /** A service of the stage, or none when it names none. */
  predicate VariesService(d: DeploySpec, service: string) {
    if d.services == [] then service == "" else service in d.services
  }

  /** An environment with one of its infrastructures, if it names any; or none when the stage names no environment. */
  predicate VariesEnvironment(d: DeploySpec, pair: EnvInfra) {
    if d.environments == [] then pair == EnvInfra("", None)
    else exists i :: 0 <= i < |d.environments| && IsRowOf(d.environments[i], pair)
  }

  predicate IsRowOf(e: EnvironmentValue, pair: EnvInfra) {
    pair.env == e.environmentRef &&
    if e.infra.identifiers == [] then pair.infra.None?
    else pair.infra.Some? && pair.infra.value in e.infra.identifiers
  }

  lemma PairsAre(e: EnvironmentValue, pair: EnvInfra)
    ensures pair in PairsOf(e) <==> IsRowOf(e, pair)
  {
    var ids := e.infra.identifiers;
    if ids != [] && IsRowOf(e, pair) {
      var i :| 0 <= i < |ids| && ids[i] == pair.infra.value;
      assert PairsOf(e)[i] == pair;
    }
  }

  lemma {:induction false} AllPairsAre(es: seq<EnvironmentValue>, pair: EnvInfra)
    ensures pair in AllPairs(es) <==> exists i :: 0 <= i < |es| && IsRowOf(es[i], pair)
  {
    if es != [] {
      AllPairsAre(es[..|es| - 1], pair);
      PairsAre(es[|es| - 1], pair);
      RowOfLast(es, pair);
    }
  }

  lemma RowOfLast(es: seq<EnvironmentValue>, pair: EnvInfra)
    requires es != []
    ensures var front := es[..|es| - 1];
      (exists i :: 0 <= i < |es| && IsRowOf(es[i], pair)) <==>
        IsRowOf(es[|es| - 1], pair) || exists i :: 0 <= i < |front| && IsRowOf(front[i], pair)
  {
    var front := es[..|es| - 1];
    assert forall i :: 0 <= i < |front| ==> front[i] == es[i];
  }

  /** The instances of a deployment: one for each service in each environment and infrastructure. */
  lemma DeployRowsAre(d: DeploySpec, x: string)
    ensures x in DeployRows(d) <==> exists service, pair ::
      VariesService(d, service) && VariesEnvironment(d, pair) &&
      x == DeploySuffix(d.services != [], d.environments != [])(service, pair)
  {
    var svcs := if d.services != [] then d.services else [""];
    var pairs := if d.environments != [] then AllPairs(d.environments) else [EnvInfra("", None)];
    var f := DeploySuffix(d.services != [], d.environments != []);
    forall pair ensures pair in pairs <==> VariesEnvironment(d, pair) {
      AllPairsAre(d.environments, pair);
    }
    if x in DeployRows(d) {
      var service, pair := CrossElim(svcs, pairs, f, x);
      assert VariesService(d, service);
    }
    if service, pair :| VariesService(d, service) && VariesEnvironment(d, pair) && x == f(service, pair) {
      CrossIntro(svcs, pairs, f, service, pair);
    }
  }

  /**
    A stage fans out over its deployment targets when it names an environment group,
    a service or an environment; the instances are known exactly when there is no
    group, every reference is literal and no two instances are named alike.
  */
  lemma DeployOutcomes(d: DeploySpec)
    ensures DeployFanout(None) == None
    ensures DeployFanout(Some(d)).None? <==> !d.environmentGroup && d.services == [] && d.environments == []
    ensures DeployFanout(Some(d)).Some? ==>
      DeployFanout(Some(d)).value ==
        if !d.environmentGroup && AllRefsLiteral(d) && Distinct(DeployRows(d)) then Known(DeployRows(d))
        else NotEnumerable(RuntimeInput)
  {
    assert AllLiteral(d.environments) <==> forall i :: 0 <= i < |d.environments| ==>
      LiteralEnvironment(d.environments[i]);
  }

  lemma ExpressionFound(s: string, a: string, b: string)
    requires s == a + "<+" + b && '>' in b
    ensures ContainsExpression(s)
  {
    var k :| 0 <= k < |b| && b[k] == '>';
    assert s[|a|] == '<' && s[|a| + 1] == '+' && s[|a| + 2 + k] == '>';
  }

  lemma ExpressionSplits(s: string) returns (a: string, b: string)
    requires ContainsExpression(s)
    ensures s == a + "<+" + b && '>' in b
  {
    var i, j :| 0 <= i && i + 2 <= j < |s| && s[i] == '<' && s[i + 1] == '+' && s[j] == '>';
    a, b := s[..i], s[i + 2..];
    assert b[j - i - 2] == '>';
    assert s[i..i + 2] == "<+";
  }

  /** A reference is literal exactly when it is not blank and holds no "<+" that a ">" follows. */
  lemma LiteralRefIs(s: string)
    ensures IsLiteralRef(s) <==>
      (exists i :: 0 <= i < |s| && !IsSpace(s[i])) &&
      forall a: string, b: string :: s == a + "<+" + b ==> '>' !in b
  {
    forall a: string, b: string | s == a + "<+" + b && '>' in b ensures ContainsExpression(s) {
      ExpressionFound(s, a, b);
    }
    if ContainsExpression(s) {
      var a, b := ExpressionSplits(s);
    }
  }
}
