/**
  From a decoded strategy to its specification (verifier/pipeline/graph.go: resolve,
  matrixSuffixes, matrixValueSuffixes, repeatSuffixes, multiDeploySpec,
  combineStageSpecs), and what every successful resolution guarantees.
*/
module StrategySpecs {
  import opened Common
  import opened Strategy
  import opened Text
  import opened Digits
  import opened Fanout

  const MAX_SUFFIX_LENGTH := 127

  predicate IsAlphanumeric(c: char) {
    'a' <= c <= 'z' || 'A' <= c <= 'Z' || '0' <= c <= '9'
  }

  /** Every character outside [a-zA-Z0-9] becomes '_'. */
  function Sanitize(s: string): (r: string)
    ensures |r| == |s|
    ensures forall i :: 0 <= i < |s| ==> r[i] == if IsAlphanumeric(s[i]) then s[i] else '_'
    ensures '.' !in r
  {
    seq(|s|, i requires 0 <= i < |s| => if IsAlphanumeric(s[i]) then s[i] else '_')
  }

  function Truncate(s: string): (r: string)
    ensures |r| <= MAX_SUFFIX_LENGTH && r <= s && (s != "" ==> r != "")
  {
    if |s| > MAX_SUFFIX_LENGTH then s[..MAX_SUFFIX_LENGTH] else s
  }

  /******* Naming by value *******/

  /** Go's string order. */
  predicate StringLeq(a: string, b: string) {
    a == "" || (b != "" && (a[0] < b[0] || (a[0] == b[0] && StringLeq(a[1..], b[1..]))))
  }

  function InsertAxis(a: MatrixAxis, sorted: seq<MatrixAxis>): (r: seq<MatrixAxis>)
    ensures |r| == |sorted| + 1
  {
    if sorted == [] || StringLeq(a.name, sorted[0].name) then [a] + sorted
    else [sorted[0]] + InsertAxis(a, sorted[1..])
  }

  /** The axes by key, as sort.Slice orders distinct keys. */
  function SortAxes(axes: seq<MatrixAxis>): (r: seq<MatrixAxis>)
    ensures |r| == |axes|
  {
    if axes == [] then [] else InsertAxis(axes[0], SortAxes(axes[1..]))
  }

  predicate AxesSorted(axes: seq<MatrixAxis>) {
    forall i, j :: 0 <= i < j < |axes| ==> StringLeq(axes[i].name, axes[j].name)
  }

  lemma {:induction false} StringLeqTotal(a: string, b: string)
    ensures StringLeq(a, b) || StringLeq(b, a)
  {
    if a != "" && b != "" && a[0] == b[0] {
      StringLeqTotal(a[1..], b[1..]);
    }
  }

  lemma {:induction false} StringLeqTransitive(a: string, b: string, c: string)
    requires StringLeq(a, b) && StringLeq(b, c)
    ensures StringLeq(a, c)
  {
    if a != "" && a[0] == b[0] && b[0] == c[0] {
      StringLeqTransitive(a[1..], b[1..], c[1..]);
    }
  }

  lemma {:induction false} InsertMembers(a: MatrixAxis, sorted: seq<MatrixAxis>)
    ensures multiset(InsertAxis(a, sorted)) == multiset(sorted) + multiset{a}
  {
    if sorted != [] && !StringLeq(a.name, sorted[0].name) {
      InsertMembers(a, sorted[1..]);
      Uncons(sorted);
    }
  }

  /** `axes` holds no name before `least`. */
  predicate NoneBefore(least: string, axes: seq<MatrixAxis>) {
    forall i :: 0 <= i < |axes| ==> StringLeq(least, axes[i].name)
  }

  lemma NoneBeforeInserted(least: string, a: MatrixAxis, sorted: seq<MatrixAxis>)
    requires NoneBefore(least, sorted) && StringLeq(least, a.name)
    ensures NoneBefore(least, InsertAxis(a, sorted))
  {
    InsertMembers(a, sorted);
    var r := InsertAxis(a, sorted);
    forall i | 0 <= i < |r| ensures StringLeq(least, r[i].name) {
      assert r[i] in multiset(sorted) + multiset{a};
    }
  }

  lemma SortedCons(x: MatrixAxis, rest: seq<MatrixAxis>)
    ensures AxesSorted([x] + rest) <==> NoneBefore(x.name, rest) && AxesSorted(rest)
  {
    var s := [x] + rest;
    assert forall i :: 0 <= i < |rest| ==> rest[i] == s[i + 1];
    if AxesSorted(s) {
      forall i | 0 <= i < |rest| ensures StringLeq(x.name, rest[i].name) {
        assert StringLeq(s[0].name, s[i + 1].name);
      }
      forall i, j | 0 <= i < j < |rest| ensures StringLeq(rest[i].name, rest[j].name) {
        assert StringLeq(s[i + 1].name, s[j + 1].name);
      }
    }
  }

  lemma {:induction false} InsertSorts(a: MatrixAxis, sorted: seq<MatrixAxis>)
    requires AxesSorted(sorted)
    ensures AxesSorted(InsertAxis(a, sorted))
  {
    if sorted == [] {
      SortedCons(a, []);
    } else {
      Uncons(sorted);
      SortedCons(sorted[0], sorted[1..]);
      if StringLeq(a.name, sorted[0].name) {
        forall i | 0 <= i < |sorted| ensures StringLeq(a.name, sorted[i].name) {
          if i > 0 {
            StringLeqTransitive(a.name, sorted[0].name, sorted[i].name);
          }
        }
        SortedCons(a, sorted);
      } else {
        InsertSorts(a, sorted[1..]);
        StringLeqTotal(a.name, sorted[0].name);
        NoneBeforeInserted(sorted[0].name, a, sorted[1..]);
        SortedCons(sorted[0], InsertAxis(a, sorted[1..]));
      }
    }
  }

  /** Sorting keeps exactly the given axes and puts them in key order. */
  lemma {:induction false} SortAxesSorts(axes: seq<MatrixAxis>)
    ensures AxesSorted(SortAxes(axes)) && multiset(SortAxes(axes)) == multiset(axes)
  {
    if axes != [] {
      SortAxesSorts(axes[1..]);
      InsertSorts(axes[0], SortAxes(axes[1..]));
      InsertMembers(axes[0], SortAxes(axes[1..]));
      Uncons(axes);
    }
  }

  function ValuePiece(): PieceOf {
    (i: nat, v: string) => "_" + Sanitize(v)
  }

  function TruncateAll(ss: seq<string>): (r: seq<string>)
    ensures |r| == |ss| && forall i :: 0 <= i < |r| ==> r[i] == Truncate(ss[i])
  {
    seq(|ss|, i requires 0 <= i < |ss| => Truncate(ss[i]))
  }

  /** Value-named instances; a collision after sanitizing is left to the engine. */
  function ValueSpec(axes: seq<MatrixAxis>, exSets: seq<map<string, string>>): StrategySpec {
    var cut := TruncateAll(Kept(CombosOf(SortAxes(axes), ValuePiece()), exSets));
    if Distinct(cut) then Enumerated(cut) else NotEnumerable(CustomNames)
  }

  lemma DistinctSnoc<T>(s: seq<T>, n: nat)
    requires n < |s| && Distinct(s[..n])
    ensures Distinct(s[..n + 1]) <==> s[n] !in s[..n]
  {
    var front, longer := s[..n], s[..n + 1];
    if i :| 0 <= i < n && front[i] == s[n] {
      assert longer[i] == longer[n];
    } else {
      forall i, j | 0 <= i < j < n + 1 ensures longer[i] != longer[j] {
        assert longer[i] == front[i];
        assert j < n ==> longer[j] == front[j];
      }
    }
  }

  lemma RepeatInPrefix<T>(s: seq<T>, n: nat)
    requires n <= |s| && !Distinct(s[..n])
    ensures !Distinct(s)
  {
    var front := s[..n];
    var i, j :| 0 <= i < j < |front| && front[i] == front[j];
    assert s[i] == s[j];
  }

  /** One more row keeps the rows distinct, or shows that they are not. */
  lemma NextRow<T>(rows: seq<T>, n: nat)
    requires n < |rows| && Distinct(rows[..n])
    ensures rows[..n + 1] == rows[..n] + [rows[n]]
    ensures rows[n] in rows[..n] ==> !Distinct(rows)
    ensures rows[n] !in rows[..n] ==> Distinct(rows[..n + 1])
  {
    DistinctSnoc(rows, n);
    if rows[n] in rows[..n] {
      RepeatInPrefix(rows, n + 1);
    }
  }

  /** The first rows, all different, and the set of them. */
  ghost predicate RowsSoFar(rows: seq<string>, suffixes: seq<string>, seen: set<string>) {
    && |suffixes| <= |rows| && suffixes == rows[..|suffixes|]
    && Distinct(suffixes) && forall x :: x in seen <==> x in suffixes
  }

  lemma OneMoreRow(rows: seq<string>, suffixes: seq<string>, seen: set<string>)
    requires RowsSoFar(rows, suffixes, seen) && |suffixes| < |rows|
    ensures var suf := rows[|suffixes|];
      if suf in seen then !Distinct(rows) else RowsSoFar(rows, suffixes + [suf], seen + {suf})
  {
    NextRow(rows, |suffixes|);
  }

  method MatrixValueSuffixes(axes: seq<MatrixAxis>, exSets: seq<map<string, string>>) returns (spec: StrategySpec)
    ensures spec == ValueSpec(axes, exSets)
  {
    var raw := MatrixCombos(SortAxes(axes), exSets, ValuePiece());
    ghost var cut := TruncateAll(raw);
    var seen: set<string>, out: seq<string> := {}, [];
    for i := 0 to |raw|
      invariant |out| == i && RowsSoFar(cut, out, seen)
    {
      var s := Truncate(raw[i]);
      OneMoreRow(cut, out, seen);
      if s in seen {
        return NotEnumerable(CustomNames);
      }
      seen := seen + {s};
      out := out + [s];
    }
    assert cut[..|raw|] == cut;
    spec := Enumerated(out);
  }

  /******* Matrices *******/

  function Scalar(axes: seq<Axis>): (r: seq<MatrixAxis>)
    ensures |r| == |axes| && forall i :: 0 <= i < |r| ==> r[i] == MatrixAxis(axes[i].name, axes[i].vals)
  {
    seq(|axes|, i requires 0 <= i < |axes| => MatrixAxis(axes[i].name, axes[i].vals))
  }

  function Counts(axes: seq<Axis>): (r: seq<nat>)
    ensures |r| == |axes| && forall i :: 0 <= i < |r| ==> r[i] == axes[i].count
  {
    seq(|axes|, i requires 0 <= i < |axes| => axes[i].count)
  }

  function MatrixSpec(m: MatrixStrategy, naming: MatrixNaming): Result<StrategySpec, BuildError> {
    if m.runtimeInput then Ok(NotEnumerable(RuntimeInput))
    else if m.badShape then Err(InvalidPipeline)
    else if m.nodeName then Ok(NotEnumerable(CustomNames))
    else if m.axes == [] then Err(InvalidPipeline)
    else if naming.ByIndex? && m.excludes == [] then Ok(Enumerated(ProductOf(Counts(m.axes))))
    else if exists i :: 0 <= i < |m.axes| && !m.axes[i].allScalar then Ok(NotEnumerable(CustomNames))
    else if naming.ByValue? then Ok(ValueSpec(Scalar(m.axes), m.excludes))
    else Ok(Enumerated(Kept(CombosOf(Scalar(m.axes), IndexPiece()), m.excludes)))
  }

  method MatrixSuffixes(m: MatrixStrategy, naming: MatrixNaming) returns (r: Result<StrategySpec, BuildError>)
    ensures r == MatrixSpec(m, naming)
  {
    if m.runtimeInput { return Ok(NotEnumerable(RuntimeInput)); }
    if m.badShape { return Err(InvalidPipeline); }
    if m.nodeName { return Ok(NotEnumerable(CustomNames)); }
    if m.axes == [] { return Err(InvalidPipeline); }
    if naming == ByIndex && m.excludes == [] {
      var lens: seq<nat> := [];
      for i := 0 to |m.axes|
        invariant lens == Counts(m.axes)[..i]
      {
        lens := lens + [m.axes[i].count];
      }
      assert lens == Counts(m.axes);
      var product := ProductSuffixes(lens);
      return Ok(Enumerated(product));
    }
    var axes: seq<MatrixAxis> := [];
    for i := 0 to |m.axes|
      invariant axes == Scalar(m.axes)[..i]
      invariant forall j :: 0 <= j < i ==> m.axes[j].allScalar
    {
      if !m.axes[i].allScalar { return Ok(NotEnumerable(CustomNames)); }
      axes := axes + [MatrixAxis(m.axes[i].name, m.axes[i].vals)];
    }
    assert axes == Scalar(m.axes);
    if naming == ByValue {
      var spec := MatrixValueSuffixes(axes, m.excludes);
      return Ok(spec);
    }
    var out := MatrixCombos(axes, m.excludes, IndexPiece());
    return Ok(Enumerated(out));
  }

  /******* Repeat, parallelism, and the whole strategy *******/

  function RepeatSpec(r: RepeatStrategy): StrategySpec {
    if r.nodeName then NotEnumerable(CustomNames)
    else if r.ranged then NotEnumerable(RuntimeInput)
    else if r.timesSet then
      if r.times.Some? then Known(RangeOf(r.times.value)) else NotEnumerable(RuntimeInput)
    else if r.itemsCount.Some? then Enumerated(RangeOf(r.itemsCount.value))
    else NotEnumerable(RuntimeInput)
  }

  method RepeatSuffixes(r: RepeatStrategy) returns (spec: StrategySpec)
    ensures spec == RepeatSpec(r)
  {
    if r.nodeName { return NotEnumerable(CustomNames); }
    if r.ranged { return NotEnumerable(RuntimeInput); }
    if r.timesSet {
      if r.times.None? { return NotEnumerable(RuntimeInput); }
      var out := RangeSuffixes(r.times.value);
      return Known(out);
    }
    if r.itemsCount.None? { return NotEnumerable(RuntimeInput); }
    var out := RangeSuffixes(r.itemsCount.value);
    return Enumerated(out);
  }

  function StrategyOf(s: RawStrategy, naming: MatrixNaming): Result<StrategySpec, BuildError> {
    if s.matrix.Some? then MatrixSpec(s.matrix.value, naming)
    else if s.parallelism.Some? then
      Ok(if s.parallelism.value.Some? then Known(RangeOf(s.parallelism.value.value)) else NotEnumerable(RuntimeInput))
    else if s.repeat.Some? then Ok(RepeatSpec(s.repeat.value))
    else if s.runtimeInput then Ok(NotEnumerable(RuntimeInput))
    else Err(UnsupportedPipeline)
  }

  method Resolve(s: RawStrategy, naming: MatrixNaming) returns (r: Result<StrategySpec, BuildError>)
    ensures r == StrategyOf(s, naming)
  {
    if s.matrix.Some? {
      r := MatrixSuffixes(s.matrix.value, naming);
    } else if s.parallelism.Some? && s.parallelism.value.Some? {
      var out := RangeSuffixes(s.parallelism.value.value);
      r := Ok(Known(out));
    } else if s.parallelism.Some? {
      r := Ok(NotEnumerable(RuntimeInput));
    } else if s.repeat.Some? {
      var spec := RepeatSuffixes(s.repeat.value);
      r := Ok(spec);
    } else if s.runtimeInput {
      r := Ok(NotEnumerable(RuntimeInput));
    } else {
      r := Err(UnsupportedPipeline);
    }
  }

  /******* Multi-service, multi-environment deployment *******/

  datatype InfraDefs = InfraDefs(identifiers: seq<string>, runtimeInput: bool)

  datatype EnvironmentValue = EnvironmentValue(environmentRef: string, infra: InfraDefs, gitOpsClusters: bool)

  /** The fan-out part of a Deployment stage's spec. */
  datatype DeploySpec = DeploySpec(services: seq<string>, environments: seq<EnvironmentValue>, environmentGroup: bool)

  datatype EnvInfra = EnvInfra(env: string, infra: Option<string>)

  /** Carries a "<+" that is followed by a ">". */
  predicate ContainsExpression(s: string) {
    exists i, j :: 0 <= i && i + 2 <= j < |s| && s[i] == '<' && s[i + 1] == '+' && s[j] == '>'
  }

  /** A concrete identifier: not blank and not an expression. */
  predicate IsLiteralRef(s: string) {
    (exists i :: 0 <= i < |s| && !IsSpace(s[i])) && !ContainsExpression(s)
  }

  predicate LiteralEnvironment(e: EnvironmentValue) {
    && IsLiteralRef(e.environmentRef) && !e.gitOpsClusters && !e.infra.runtimeInput
    && forall i :: 0 <= i < |e.infra.identifiers| ==> IsLiteralRef(e.infra.identifiers[i])
  }

  predicate AllLiteral(es: seq<EnvironmentValue>) {
    forall i :: 0 <= i < |es| ==> LiteralEnvironment(es[i])
  }

  /** One row per infrastructure of an environment, or one for the environment alone. */
  function PairsOf(e: EnvironmentValue): (r: seq<EnvInfra>)
    ensures r != []
  {
    var ids := e.infra.identifiers;
    if ids == [] then [EnvInfra(e.environmentRef, None)]
    else seq(|ids|, i requires 0 <= i < |ids| => EnvInfra(e.environmentRef, Some(ids[i])))
  }

  function AllPairs(es: seq<EnvironmentValue>): (r: seq<EnvInfra>)
    ensures es != [] ==> r != []
  {
    if es == [] then [] else AllPairs(es[..|es| - 1]) + PairsOf(es[|es| - 1])
  }

  function RemoveDots(s: string): string {
    if s == "" then "" else (if s[0] == '.' then "" else [s[0]]) + RemoveDots(s[1..])
  }

  function JoinUnderscore(parts: seq<string>): string {
    if parts == [] then ""
    else if |parts| == 1 then parts[0]
    else parts[0] + "_" + JoinUnderscore(parts[1..])
  }

  /** The values of a combination in key order: environmentRef, infraIdentifier, serviceRef. */
  function Parts(hasService: bool, hasEnv: bool, service: string, pair: EnvInfra): seq<string> {
    (if hasEnv then [RemoveDots(pair.env)] + (if pair.infra.Some? then [RemoveDots(pair.infra.value)] else []) else [])
    + (if hasService then [RemoveDots(service)] else [])
  }

  function DeploySuffix(hasService: bool, hasEnv: bool): (string, EnvInfra) -> string {
    (service: string, pair: EnvInfra) => "_" +
      Truncate(Sanitize(JoinUnderscore(Parts(hasService, hasEnv, service, pair))))
  }

  function DeployRows(d: DeploySpec): seq<string> {
    var svcs := if d.services != [] then d.services else [""];
    var pairs := if d.environments != [] then AllPairs(d.environments) else [EnvInfra("", None)];
    Cross(svcs, pairs, DeploySuffix(d.services != [], d.environments != []))
  }

  /** multiDeploySpec: None when the stage does not fan out this way. */
  function DeployFanout(spec: Option<DeploySpec>): Option<StrategySpec> {
    if spec.None? then None
    else
      var d := spec.value;
      if d.environmentGroup then Some(NotEnumerable(RuntimeInput))
      else if d.services == [] && d.environments == [] then None
      else if exists i :: 0 <= i < |d.services| && !IsLiteralRef(d.services[i]) then Some(NotEnumerable(RuntimeInput))
      else if !AllLiteral(d.environments) then Some(NotEnumerable(RuntimeInput))
      else if !Distinct(DeployRows(d)) then Some(NotEnumerable(RuntimeInput))
      else Some(Known(DeployRows(d)))
  }

  /** One environment's rows, or None when some reference is not literal. */
  method PairsOfEnvironment(e: EnvironmentValue) returns (r: Option<seq<EnvInfra>>)
    ensures r == if LiteralEnvironment(e) then Some(PairsOf(e)) else None
  {
    if !IsLiteralRef(e.environmentRef) || e.gitOpsClusters || e.infra.runtimeInput {
      return None;
    }
    if e.infra.identifiers == [] {
      return Some([EnvInfra(e.environmentRef, None)]);
    }
    var pairs: seq<EnvInfra> := [];
    for k := 0 to |e.infra.identifiers|
      invariant forall j :: 0 <= j < k ==> IsLiteralRef(e.infra.identifiers[j])
      invariant pairs == PairsOf(e)[..k]
    {
      if !IsLiteralRef(e.infra.identifiers[k]) { return None; }
      pairs := pairs + [EnvInfra(e.environmentRef, Some(e.infra.identifiers[k]))];
    }
    assert PairsOf(e)[..|e.infra.identifiers|] == PairsOf(e);
    return Some(pairs);
  }

  lemma AllPairsSnoc(es: seq<EnvironmentValue>, i: nat)
    requires i < |es|
    ensures AllPairs(es[..i + 1]) == AllPairs(es[..i]) + PairsOf(es[i])
  {
    assert es[..i + 1][..i] == es[..i];
  }

  lemma AllLiteralSnoc(es: seq<EnvironmentValue>, i: nat)
    requires i < |es| && AllLiteral(es[..i]) && LiteralEnvironment(es[i])
    ensures AllLiteral(es[..i + 1])
  {
    Taken(es, i);
  }

  /** The environment rows, or None when some reference is not literal. */
  method EnvironmentPairs(es: seq<EnvironmentValue>) returns (r: Option<seq<EnvInfra>>)
    ensures r == if AllLiteral(es) then Some(AllPairs(es)) else None
  {
    var envPairs: seq<EnvInfra> := [];
    for i := 0 to |es|
      invariant AllLiteral(es[..i])
      invariant envPairs == AllPairs(es[..i])
    {
      var own := PairsOfEnvironment(es[i]);
      if own.None? { return None; }
      AllPairsSnoc(es, i);
      AllLiteralSnoc(es, i);
      envPairs := envPairs + own.value;
    }
    assert es[..|es|] == es;
    r := Some(envPairs);
  }

  /** Where the cell of row `s` and column `p` lies in the product. */
  lemma RowCell<A, B, C>(xs: seq<A>, ys: seq<B>, f: (A, B) -> C, s: nat, p: nat)
    requires s < |xs| && p < |ys|
    ensures var base := |Cross(xs[..s], ys, f)|;
      base + p < |Cross(xs, ys, f)| && Cross(xs, ys, f)[base + p] == f(xs[s], ys[p])
  {
    var front := Cross(xs[..s], ys, f);
    CrossSnoc(xs, ys, f, s);
    CrossPrefix(xs, ys, f, s + 1);
    InBack(front, Row(xs[s], ys, f), |front| + p);
    PrefixCell(front + Row(xs[s], ys, f), Cross(xs, ys, f), |front| + p);
  }

  lemma PrefixCell<T>(a: seq<T>, b: seq<T>, i: nat)
    requires a <= b && i < |a|
    ensures i < |b| && b[i] == a[i]
  {
  }

  /** The product's suffixes, or None when two rows are named alike. */
  method DistinctRows(svcs: seq<string>, pairs: seq<EnvInfra>, suffixOf: (string, EnvInfra) -> string)
    returns (r: Option<seq<string>>)
    ensures r == if Distinct(Cross(svcs, pairs, suffixOf)) then Some(Cross(svcs, pairs, suffixOf)) else None
  {
    ghost var rows := Cross(svcs, pairs, suffixOf);
    var seen: set<string>, suffixes: seq<string> := {}, [];
    for s := 0 to |svcs|
      invariant |suffixes| == |Cross(svcs[..s], pairs, suffixOf)| && RowsSoFar(rows, suffixes, seen)
    {
      ghost var base := |suffixes|;
      CrossSnoc(svcs, pairs, suffixOf, s);
      for p := 0 to |pairs|
        invariant |suffixes| == base + p && RowsSoFar(rows, suffixes, seen)
      {
        RowCell(svcs, pairs, suffixOf, s, p);
        OneMoreRow(rows, suffixes, seen);
        var suf := suffixOf(svcs[s], pairs[p]);
        if suf in seen { return None; }
        seen := seen + {suf};
        suffixes := suffixes + [suf];
      }
    }
    assert svcs[..|svcs|] == svcs;
    assert rows[..|rows|] == rows;
    r := Some(suffixes);
  }

  method MultiDeploySpec(spec: Option<DeploySpec>) returns (r: Option<StrategySpec>)
    ensures r == DeployFanout(spec)
  {
    if spec.None? { return None; }
    var d := spec.value;
    var hasService, hasEnv := d.services != [], d.environments != [];
    if d.environmentGroup { return Some(NotEnumerable(RuntimeInput)); }
    if !hasService && !hasEnv { return None; }
    for i := 0 to |d.services|
      invariant forall j :: 0 <= j < i ==> IsLiteralRef(d.services[j])
    {
      if !IsLiteralRef(d.services[i]) { return Some(NotEnumerable(RuntimeInput)); }
    }
    var envPairs := EnvironmentPairs(d.environments);
    if envPairs.None? { return Some(NotEnumerable(RuntimeInput)); }
    var svcs := if hasService then d.services else [""];
    var pairs := if hasEnv then envPairs.value else [EnvInfra("", None)];
    var suffixes := DistinctRows(svcs, pairs, DeploySuffix(hasService, hasEnv));
    if suffixes.None? { return Some(NotEnumerable(RuntimeInput)); }
    return Some(Known(suffixes.value));
  }

  lemma {:induction false} CrossPrefix<A, B, C>(xs: seq<A>, ys: seq<B>, f: (A, B) -> C, n: nat)
    requires n <= |xs|
    ensures Cross(xs[..n], ys, f) <= Cross(xs, ys, f)
  {
    if n == |xs| {
      assert xs[..n] == xs;
    } else {
      CrossPrefix(xs[..|xs| - 1], ys, f, n);
      assert xs[..|xs| - 1][..n] == xs[..n];
    }
  }

  /** combineStageSpecs: two fan-outs at once interleave in an unmodelled way. */
  function CombineStageSpecs(strategy: Option<StrategySpec>, deploy: Option<StrategySpec>): Option<StrategySpec> {
    if strategy.None? then deploy
    else if deploy.None? then strategy
    else Some(NotEnumerable(RuntimeInput))
  }

  /******* What every resolution guarantees *******/

  predicate AllOk(ss: seq<string>) {
    forall i :: 0 <= i < |ss| ==> SuffixOk(ss[i])
  }

  lemma IndexSuffixOk(i: nat)
    ensures SuffixOk("_" + Itoa(i))
  {
    var s := "_" + Itoa(i);
    forall k | 0 <= k < |s| ensures s[k] != '.' {
      assert k > 0 ==> s[k] == Itoa(i)[k - 1];
    }
  }

  lemma ValueSuffixOk(v: string)
    ensures SuffixOk("_" + Sanitize(v))
  {
  }

  lemma SuffixOkAppend(a: string, b: string)
    requires (a == "" || SuffixOk(a)) && SuffixOk(b)
    ensures SuffixOk(a + b)
  {
    if a == "" {
      assert a + b == b;
    }
  }

  lemma RangeValid(n: nat)
    ensures Distinct(RangeOf(n)) && AllOk(RangeOf(n))
  {
    forall i | 0 <= i < n ensures SuffixOk(RangeOf(n)[i]) {
      IndexSuffixOk(i);
    }
    forall i, j | 0 <= i < j < n ensures RangeOf(n)[i] != RangeOf(n)[j] {
      if Itoa(i) == Itoa(j) {
        ItoaInjective(i, j);
      }
      assert RangeOf(n)[i][1..] == Itoa(i) && RangeOf(n)[j][1..] == Itoa(j);
    }
  }

  lemma {:induction false} RadixOk(lens: seq<nat>, k: nat)
    requires k < Volume(lens) && lens != []
    ensures SuffixOk(Radix(lens, k))
  {
    var i, j := RadixStep(lens, k);
    IndexSuffixOk(j);
    if |lens| > 1 {
      RadixOk(lens[..|lens| - 1], i);
    }
    SuffixOkAppend(Radix(lens[..|lens| - 1], i), "_" + Itoa(j));
  }

  lemma ProductValid(lens: seq<nat>)
    requires lens != []
    ensures Distinct(ProductOf(lens)) && AllOk(ProductOf(lens))
  {
    ProductDistinct(lens);
    ProductVolume(lens);
    forall k | 0 <= k < |ProductOf(lens)| ensures SuffixOk(ProductOf(lens)[k]) {
      ProductIsRadix(lens, k);
      RadixOk(lens, k);
    }
  }

  lemma IndexCombosValid(axes: seq<MatrixAxis>, exSets: seq<map<string, string>>)
    requires axes != []
    ensures var out := Kept(CombosOf(axes, IndexPiece()), exSets); Distinct(out) && AllOk(out)
  {
    var n := Volume(Lengths(axes));
    ExcludesOnlyFilter(axes, exSets);
    NumeralsKeptDistinct(axes, exSets, n);
    var out := NumeralsKept(axes, exSets, n);
    forall i | 0 <= i < |out| ensures SuffixOk(out[i]) {
      assert IsNumeral(Lengths(axes), n, out[i]);
      var k: nat :| k < n && out[i] == Radix(Lengths(axes), k);
      RadixOk(Lengths(axes), k);
    }
  }

  lemma {:induction false} ValueComboOk(axes: seq<MatrixAxis>, c: Combo)
    requires c in CombosOf(axes, ValuePiece())
    ensures if axes == [] then c.suffix == "" else SuffixOk(c.suffix)
  {
    if axes != [] {
      var last := axes[|axes| - 1];
      var b, v := CrossElim(CombosOf(axes[..|axes| - 1], ValuePiece()), Indexed(last.vals),
        Extend(last.name, ValuePiece()), c);
      ValueComboOk(axes[..|axes| - 1], b);
      ValueSuffixOk(v.1);
      SuffixOkAppend(b.suffix, "_" + Sanitize(v.1));
    }
  }

  lemma {:induction false} KeptIsSuffix(cs: seq<Combo>, exSets: seq<map<string, string>>, s: string) returns (c: Combo)
    requires s in Kept(cs, exSets)
    ensures c in cs && s == c.suffix
  {
    var last := cs[|cs| - 1];
    if s in Kept(cs[..|cs| - 1], exSets) {
      c := KeptIsSuffix(cs[..|cs| - 1], exSets, s);
    } else {
      c := last;
    }
  }

  lemma TruncateOk(s: string)
    requires SuffixOk(s)
    ensures SuffixOk(Truncate(s))
  {
    var t := Truncate(s);
    forall c | c in t ensures c in s {
      var i :| 0 <= i < |t| && t[i] == c;
      assert s[i] == c;
    }
  }

  lemma ValueSpecValid(axes: seq<MatrixAxis>, exSets: seq<map<string, string>>)
    requires axes != []
    ensures ValidSpec(ValueSpec(axes, exSets))
    ensures forall i :: 0 <= i < |ValueSpec(axes, exSets).suffixes| ==>
        |ValueSpec(axes, exSets).suffixes[i]| <= MAX_SUFFIX_LENGTH
  {
    var raw := Kept(CombosOf(SortAxes(axes), ValuePiece()), exSets);
    var cut := TruncateAll(raw);
    forall i | 0 <= i < |cut| ensures SuffixOk(cut[i]) && |cut[i]| <= MAX_SUFFIX_LENGTH {
      var c := KeptIsSuffix(CombosOf(SortAxes(axes), ValuePiece()), exSets, raw[i]);
      ValueComboOk(SortAxes(axes), c);
      TruncateOk(raw[i]);
    }
  }

  lemma EnumeratedValid(ss: seq<string>)
    requires Distinct(ss) && AllOk(ss)
    ensures ValidSpec(Enumerated(ss))
  {
  }

  lemma MatrixSpecValid(m: MatrixStrategy, naming: MatrixNaming)
    requires MatrixSpec(m, naming).Ok?
    ensures ValidSpec(MatrixSpec(m, naming).value)
    ensures naming.ByValue? ==> forall s :: s in MatrixSpec(m, naming).value.suffixes ==> |s| <= MAX_SUFFIX_LENGTH
  {
    if !m.runtimeInput && !m.nodeName {
      if naming.ByIndex? {
        ProductValid(Counts(m.axes));
        EnumeratedValid(ProductOf(Counts(m.axes)));
        IndexCombosValid(Scalar(m.axes), m.excludes);
        EnumeratedValid(Kept(CombosOf(Scalar(m.axes), IndexPiece()), m.excludes));
      } else {
        ValueSpecValid(Scalar(m.axes), m.excludes);
      }
    }
  }

  /**
    Every strategy that resolves is enumerable, excluded, or non-enumerable with a
    real cause, never two of them; enumerable suffixes are non-empty, pairwise
    distinct, start with '_' and contain no '.'; under value naming a matrix
    suffix respects the length cap.
  */
  lemma ResolvedStrategyIsValid(s: RawStrategy, naming: MatrixNaming)
    requires Decoded(s) && StrategyOf(s, naming).Ok?
    ensures var spec := StrategyOf(s, naming).value;
      && ValidSpec(spec)
      && !(IsEnumerable(spec) && IsExcluded(spec)) && !(IsEnumerable(spec) && IsNonEnumerable(spec)) &&
        !(IsExcluded(spec) && IsNonEnumerable(spec))
      && (s.matrix.Some? && naming.ByValue? ==> forall x :: x in spec.suffixes ==> |x| <= MAX_SUFFIX_LENGTH)
  {
    if s.matrix.Some? {
      MatrixSpecValid(s.matrix.value, naming);
    } else if s.parallelism.Some? {
      if s.parallelism.value.Some? {
        RangeValid(s.parallelism.value.value);
      }
    } else if s.repeat.Some? {
      var r := s.repeat.value;
      if r.times.Some? {
        RangeValid(r.times.value);
      }
      if r.itemsCount.Some? {
        RangeValid(r.itemsCount.value);
        EnumeratedValid(RangeOf(r.itemsCount.value));
      }
    }
  }

  lemma DeploySuffixOk(hasService: bool, hasEnv: bool, service: string, pair: EnvInfra)
    ensures var s := DeploySuffix(hasService, hasEnv)(service, pair);
      SuffixOk(s) && |s| <= MAX_SUFFIX_LENGTH + 1
  {
    var clean := Sanitize(JoinUnderscore(Parts(hasService, hasEnv, service, pair)));
    var t := Truncate(clean);
    forall c | c in t ensures c in clean {
      var i :| 0 <= i < |t| && t[i] == c;
      assert clean[i] == c;
    }
  }

  /** A deployment fan-out obeys the same rules; its suffixes are capped behind the '_'. */
  lemma DeployFanoutIsValid(spec: Option<DeploySpec>)
    requires DeployFanout(spec).Some?
    ensures ValidSpec(DeployFanout(spec).value)
    ensures forall x :: x in DeployFanout(spec).value.suffixes ==> |x| <= MAX_SUFFIX_LENGTH + 1
  {
    var d := spec.value;
    if d.services != [] || d.environments != [] {
      DeployRowsOk(d);
    }
  }

  lemma DeployRowsOk(d: DeploySpec)
    requires d.services != [] || d.environments != []
    ensures DeployRows(d) != []
    ensures forall i :: 0 <= i < |DeployRows(d)| ==>
        SuffixOk(DeployRows(d)[i]) && |DeployRows(d)[i]| <= MAX_SUFFIX_LENGTH + 1
  {
    var svcs := if d.services != [] then d.services else [""];
    var pairs := if d.environments != [] then AllPairs(d.environments) else [EnvInfra("", None)];
    var f := DeploySuffix(d.services != [], d.environments != []);
    CrossIntro(svcs, pairs, f, svcs[0], pairs[0]);
    var rows := DeployRows(d);
    forall i | 0 <= i < |rows| ensures SuffixOk(rows[i]) && |rows[i]| <= MAX_SUFFIX_LENGTH + 1 {
      var svc, pair := CrossElim(svcs, pairs, f, rows[i]);
      DeploySuffixOk(d.services != [], d.environments != [], svc, pair);
    }
  }
}
