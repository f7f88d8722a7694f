/**
  Which instances a strategy fans out into (verifier/pipeline/graph.go: resolve,
  matrixSuffixes, matrixCombos, productSuffixes, repeatSuffixes, multiDeploySpec).
  Each enumerating loop is a method proved against a closed form.
*/
module Fanout {
  import opened Common
  import opened Strategy
  import opened Digits

  datatype MatrixNaming = ByIndex | ByValue

  datatype BuildError = InvalidPipeline | UnsupportedPipeline

  /** One matrix axis; `vals` is filled when every value is a scalar. */
  datatype Axis = Axis(name: string, vals: seq<string>, count: nat, allScalar: bool)

  datatype MatrixStrategy = MatrixStrategy(
    runtimeInput: bool,
    nodeName: bool,
    badShape: bool,
    axes: seq<Axis>,
    excludes: seq<map<string, string>>)

  datatype RepeatStrategy = RepeatStrategy(
    ranged: bool,        // start, end, unit or partitionSize is present
    nodeName: bool,
    timesSet: bool,
    times: Option<nat>,  // present when `times` resolved to an int > 0
    itemsCount: Option<nat>)

  /** A decoded `strategy` block; `parallelism` holds the count when it is a literal int > 0. */
  datatype RawStrategy = RawStrategy(
    runtimeInput: bool,
    matrix: Option<MatrixStrategy>,
    parallelism: Option<Option<nat>>,
    repeat: Option<RepeatStrategy>)

  /** What decoding guarantees: counts are positive, and scalar axes carry all their values. */
  predicate Decoded(s: RawStrategy) {
    && (s.matrix.Some? ==> forall i :: 0 <= i < |s.matrix.value.axes| ==>
          var a := s.matrix.value.axes[i]; a.allScalar ==> |a.vals| == a.count)
    && (s.parallelism.Some? && s.parallelism.value.Some? ==> s.parallelism.value.value > 0)
    && (s.repeat.Some? && s.repeat.value.times.Some? ==> s.repeat.value.times.value > 0)
  }

  function NotEnumerable(status: FanoutStatus): StrategySpec {
    StrategySpec(false, [], status, false)
  }

  function Known(suffixes: seq<string>): StrategySpec {
    StrategySpec(true, suffixes, Unset, false)
  }

  /** enumerated: an empty list means the unit is skipped. */
  function Enumerated(suffixes: seq<string>): StrategySpec {
    if suffixes == [] then StrategySpec(false, [], Unset, true) else Known(suffixes)
  }

  /******* Index suffixes *******/

  function RangeOf(n: nat): (r: seq<string>)
    ensures |r| == n && forall i :: 0 <= i < n ==> r[i] == "_" + Itoa(i)
  {
    seq(n, i requires 0 <= i < n => "_" + Itoa(i))
  }

  method RangeSuffixes(n: nat) returns (out: seq<string>)
    ensures out == RangeOf(n)
  {
    out := [];
    for i := 0 to n
      invariant out == RangeOf(i)
    {
      out := out + ["_" + Itoa(i)];
    }
  }

  function Glue(): (string, string) -> string {
    (a, b) => a + b
  }

  /** The row-major product of index ranges, the leftmost axis varying slowest. */
  function ProductOf(lens: seq<nat>): seq<string> {
    if lens == [] then [""]
    else Cross(ProductOf(lens[..|lens| - 1]), RangeOf(lens[|lens| - 1]), Glue())
  }

  method ProductSuffixes(lens: seq<nat>) returns (combos: seq<string>)
    ensures combos == ProductOf(lens)
  {
    combos := [""];
    for l := 0 to |lens|
      invariant combos == ProductOf(lens[..l])
    {
      var n := lens[l];
      var next: seq<string> := [];
      for c := 0 to |combos|
        invariant next == Cross(combos[..c], RangeOf(n), Glue())
      {
        ghost var start := next;
        for i := 0 to n
          invariant next == start + Row(combos[c], RangeOf(n), Glue())[..i]
        {
          RowSnoc(combos[c], RangeOf(n), Glue(), i);
          next := next + [combos[c] + ("_" + Itoa(i))];
        }
        CrossSnoc(combos, RangeOf(n), Glue(), c);
      }
      ProductSnoc(lens, l);
      assert combos[..|combos|] == combos;
      combos := next;
    }
    assert lens[..|lens|] == lens;
  }

  lemma ProductSnoc(lens: seq<nat>, l: nat)
    requires l < |lens|
    ensures ProductOf(lens[..l + 1]) == Cross(ProductOf(lens[..l]), RangeOf(lens[l]), Glue())
  {
    assert lens[..l + 1][..l] == lens[..l];
  }

  function Volume(lens: seq<nat>): nat {
    if lens == [] then 1 else Volume(lens[..|lens| - 1]) * lens[|lens| - 1]
  }

  /** The digits of `k` in the mixed radix of the axis lengths. */
  function Radix(lens: seq<nat>, k: nat): string {
    if lens == [] then ""
    else
      var n := lens[|lens| - 1];
      if n == 0 then "" else Radix(lens[..|lens| - 1], k / n) + ("_" + Itoa(k % n))
  }

  /** The last digit of `k` and what is in front of it. */
  lemma RadixStep(lens: seq<nat>, k: nat) returns (i: nat, j: nat)
    requires lens != [] && k < Volume(lens)
    ensures var front, n := lens[..|lens| - 1], lens[|lens| - 1];
      i < Volume(front) && j < n && k == i * n + j && Radix(lens, k) == Radix(front, i) + ("_" + Itoa(j))
  {
    var n := lens[|lens| - 1];
    DivMod(k, Volume(lens[..|lens| - 1]), n);
    i, j := k / n, k % n;
  }

  lemma ProductCell(bases: seq<string>, n: nat, i: nat, j: nat, k: nat)
    requires i < |bases| && j < n && k == i * n + j
    ensures k < |Cross(bases, RangeOf(n), Glue())| && Cross(bases, RangeOf(n), Glue())[k] == bases[i] + ("_" + Itoa(j))
  {
    CrossCell(bases, RangeOf(n), Glue(), i, j);
  }

  /** The `k`-th instance is the mixed-radix numeral of `k`. */
  lemma {:induction false} ProductIsRadix(lens: seq<nat>, k: nat)
    requires k < Volume(lens)
    ensures k < |ProductOf(lens)| && ProductOf(lens)[k] == Radix(lens, k)
  {
    if lens != [] {
      var i, j := RadixStep(lens, k);
      ProductIsRadix(lens[..|lens| - 1], i);
      ProductCell(ProductOf(lens[..|lens| - 1]), lens[|lens| - 1], i, j, k);
    }
  }

  /** There are as many instances as the axis lengths multiply to. */
  lemma {:induction false} ProductVolume(lens: seq<nat>)
    ensures |ProductOf(lens)| == Volume(lens)
  {
    if lens != [] {
      ProductVolume(lens[..|lens| - 1]);
      CrossLength(ProductOf(lens[..|lens| - 1]), RangeOf(lens[|lens| - 1]), Glue());
    }
  }

  lemma {:induction false} RadixInjective(lens: seq<nat>, j: nat, k: nat)
    requires j < Volume(lens) && k < Volume(lens) && Radix(lens, j) == Radix(lens, k)
    ensures j == k
  {
    if lens != [] {
      var j1, j0 := RadixStep(lens, j);
      var k1, k0 := RadixStep(lens, k);
      var front := lens[..|lens| - 1];
      NumeralsMatch(Radix(lens, j), Radix(front, j1), j0, Radix(front, k1), k0);
      RadixInjective(front, j1, k1);
    }
  }

  lemma NumeralsMatch(s: string, u: string, a: nat, v: string, b: nat)
    requires s == u + ("_" + Itoa(a)) && s == v + ("_" + Itoa(b))
    ensures u == v && a == b
  {
    assert s == u + "_" + Itoa(a) && s == v + "_" + Itoa(b);
    NumeralInjective(s, u, a, v, b);
  }

  lemma ProductDistinct(lens: seq<nat>)
    ensures Distinct(ProductOf(lens))
  {
    ProductVolume(lens);
    forall i, j | 0 <= i < j < |ProductOf(lens)| ensures ProductOf(lens)[i] != ProductOf(lens)[j] {
      ProductIsRadix(lens, i);
      ProductIsRadix(lens, j);
      if Radix(lens, i) == Radix(lens, j) {
        RadixInjective(lens, i, j);
      }
    }
  }

  /******* Matrix combinations *******/

  datatype MatrixAxis = MatrixAxis(name: string, vals: seq<string>)

  /** A combination in the making: its suffix so far and the value of each axis. */
  datatype Combo = Combo(suffix: string, vals: map<string, string>)

  /** The suffix fragment an axis value contributes, from its index and text. */
  type PieceOf = (nat, string) -> string

  function Indexed(vals: seq<string>): (r: seq<(nat, string)>)
    ensures |r| == |vals| && forall i :: 0 <= i < |vals| ==> r[i] == (i, vals[i])
  {
    seq(|vals|, i requires 0 <= i < |vals| => (i, vals[i]))
  }

  function Extend(name: string, piece: PieceOf): (Combo, (nat, string)) -> Combo {
    (c: Combo, v: (nat, string)) => Combo(c.suffix + piece(v.0, v.1), c.vals[name := v.1])
  }

  function CombosOf(axes: seq<MatrixAxis>, piece: PieceOf): seq<Combo> {
    if axes == [] then [Combo("", map[])]
    else
      var last := axes[|axes| - 1];
      Cross(CombosOf(axes[..|axes| - 1], piece), Indexed(last.vals), Extend(last.name, piece))
  }

  /** A missing axis reads as the empty string. */
  function ValueOf(vals: map<string, string>, k: string): string {
    if k in vals then vals[k] else ""
  }

  predicate MatchesExclude(vals: map<string, string>, ex: map<string, string>) {
    forall k :: k in ex ==> ValueOf(vals, k) == ex[k]
  }

  predicate MatchesAny(vals: map<string, string>, exSets: seq<map<string, string>>) {
    exists i :: 0 <= i < |exSets| && MatchesExclude(vals, exSets[i])
  }

  method MatchesAnyExclude(vals: map<string, string>, exSets: seq<map<string, string>>) returns (r: bool)
    ensures r <==> MatchesAny(vals, exSets)
  {
    for i := 0 to |exSets|
      invariant forall j :: 0 <= j < i ==> !MatchesExclude(vals, exSets[j])
    {
      var matched := true;
      var todo := exSets[i].Keys;
      while todo != {} && matched
        invariant todo <= exSets[i].Keys
        invariant matched <==> forall k :: k in exSets[i] && k !in todo ==> ValueOf(vals, k) == exSets[i][k]
        decreases |todo|
      {
        var k :| k in todo;
        todo := todo - {k};
        if ValueOf(vals, k) != exSets[i][k] {
          matched := false;
        }
      }
      if matched {
        return true;
      }
    }
    return false;
  }

  /** The suffixes of the combinations no exclude entry matches, in order. */
  function Kept(cs: seq<Combo>, exSets: seq<map<string, string>>): seq<string> {
    if cs == [] then []
    else
      var c := cs[|cs| - 1];
      Kept(cs[..|cs| - 1], exSets) + if MatchesAny(c.vals, exSets) then [] else [c.suffix]
  }

  lemma CombosSnoc(axes: seq<MatrixAxis>, piece: PieceOf, a: nat)
    requires a < |axes|
    ensures CombosOf(axes[..a + 1], piece) ==
        Cross(CombosOf(axes[..a], piece), Indexed(axes[a].vals), Extend(axes[a].name, piece))
  {
    assert axes[..a + 1][..a] == axes[..a];
  }

  /** Every combination so far with every value of one more axis. */
  method ExtendCombos(combos: seq<Combo>, ax: MatrixAxis, piece: PieceOf) returns (next: seq<Combo>)
    ensures next == Cross(combos, Indexed(ax.vals), Extend(ax.name, piece))
  {
    next := [];
    for c := 0 to |combos|
      invariant next == Cross(combos[..c], Indexed(ax.vals), Extend(ax.name, piece))
    {
      ghost var start := next;
      for vi := 0 to |ax.vals|
        invariant next == start + Row(combos[c], Indexed(ax.vals), Extend(ax.name, piece))[..vi]
      {
        RowSnoc(combos[c], Indexed(ax.vals), Extend(ax.name, piece), vi);
        next := next + [Combo(combos[c].suffix + piece(vi, ax.vals[vi]), combos[c].vals[ax.name := ax.vals[vi]])];
      }
      CrossSnoc(combos, Indexed(ax.vals), Extend(ax.name, piece), c);
    }
    assert combos[..|combos|] == combos;
  }

  method MatrixCombos(axes: seq<MatrixAxis>, exSets: seq<map<string, string>>, piece: PieceOf)
    returns (out: seq<string>)
    ensures out == Kept(CombosOf(axes, piece), exSets)
  {
    var combos := [Combo("", map[])];
    for a := 0 to |axes|
      invariant combos == CombosOf(axes[..a], piece)
    {
      CombosSnoc(axes, piece, a);
      combos := ExtendCombos(combos, axes[a], piece);
    }
    assert axes[..|axes|] == axes;
    out := [];
    for c := 0 to |combos|
      invariant out == Kept(combos[..c], exSets)
    {
      var excluded := MatchesAnyExclude(combos[c].vals, exSets);
      assert combos[..c + 1][..c] == combos[..c];
      if !excluded {
        out := out + [combos[c].suffix];
      }
    }
    assert combos[..|combos|] == combos;
  }

  function IndexPiece(): PieceOf {
    (i: nat, v: string) => "_" + Itoa(i)
  }

  function Lengths(axes: seq<MatrixAxis>): (r: seq<nat>)
    ensures |r| == |axes| && forall i :: 0 <= i < |r| ==> r[i] == |axes[i].vals|
  {
    seq(|axes|, i requires 0 <= i < |axes| => |axes[i].vals|)
  }

  /** The axis values behind the `k`-th combination. */
  function ValuesAt(axes: seq<MatrixAxis>, k: nat): map<string, string> {
    if axes == [] then map[]
    else
      var last := axes[|axes| - 1];
      var n := |last.vals|;
      if n == 0 then map[] else ValuesAt(axes[..|axes| - 1], k / n)[last.name := last.vals[k % n]]
  }

  lemma LengthsSnoc(axes: seq<MatrixAxis>)
    requires axes != []
    ensures var n := |axes| - 1; Lengths(axes)[..n] == Lengths(axes[..n]) && Lengths(axes)[n] == |axes[n].vals|
  {
  }

  lemma {:induction false} CombosVolume(axes: seq<MatrixAxis>, piece: PieceOf)
    ensures |CombosOf(axes, piece)| == Volume(Lengths(axes))
  {
    if axes != [] {
      var n := |axes| - 1;
      CombosVolume(axes[..n], piece);
      LengthsSnoc(axes);
      CrossLength(CombosOf(axes[..n], piece), Indexed(axes[n].vals), Extend(axes[n].name, piece));
    }
  }

  lemma ValuesStep(axes: seq<MatrixAxis>, k: nat) returns (i: nat, j: nat)
    requires axes != [] && k < Volume(Lengths(axes))
    ensures var n := |axes| - 1;
      && i < Volume(Lengths(axes[..n])) && j < |axes[n].vals| && k == i * |axes[n].vals| + j
      && ValuesAt(axes, k) == ValuesAt(axes[..n], i)[axes[n].name := axes[n].vals[j]]
      && Radix(Lengths(axes), k) == Radix(Lengths(axes[..n]), i) + ("_" + Itoa(j))
  {
    var n := |axes| - 1;
    LengthsSnoc(axes);
    DivMod(k, Volume(Lengths(axes[..n])), |axes[n].vals|);
    i, j := k / |axes[n].vals|, k % |axes[n].vals|;
  }

  lemma ComboCell(bases: seq<Combo>, ax: MatrixAxis, piece: PieceOf, i: nat, j: nat, k: nat)
    requires i < |bases| && j < |ax.vals| && k == i * |ax.vals| + j
    ensures var cs := Cross(bases, Indexed(ax.vals), Extend(ax.name, piece));
      k < |cs| && cs[k] == Combo(bases[i].suffix + piece(j, ax.vals[j]), bases[i].vals[ax.name := ax.vals[j]])
  {
    CrossCell(bases, Indexed(ax.vals), Extend(ax.name, piece), i, j);
  }

  /** The `k`-th combination has the `k`-th index numeral and the `k`-th values. */
  lemma {:induction false} ComboAt(axes: seq<MatrixAxis>, k: nat)
    requires k < Volume(Lengths(axes))
    ensures k < |CombosOf(axes, IndexPiece())|
    ensures CombosOf(axes, IndexPiece())[k] == Combo(Radix(Lengths(axes), k), ValuesAt(axes, k))
  {
    if axes != [] {
      var n := |axes| - 1;
      var i, j := ValuesStep(axes, k);
      ComboAt(axes[..n], i);
      ComboCell(CombosOf(axes[..n], IndexPiece()), axes[n], IndexPiece(), i, j, k);
    }
  }

  /** The first `n` numerals, in order, without those whose combination is excluded. */
  function NumeralsKept(axes: seq<MatrixAxis>, exSets: seq<map<string, string>>, n: nat): seq<string> {
    if n == 0 then []
    else
      NumeralsKept(axes, exSets, n - 1)
      + if MatchesAny(ValuesAt(axes, n - 1), exSets) then [] else [Radix(Lengths(axes), n - 1)]
  }

  lemma {:induction false} KeptIsNumerals(axes: seq<MatrixAxis>, exSets: seq<map<string, string>>, n: nat)
    requires n <= |CombosOf(axes, IndexPiece())|
    ensures Kept(CombosOf(axes, IndexPiece())[..n], exSets) == NumeralsKept(axes, exSets, n)
  {
    if n > 0 {
      var cs := CombosOf(axes, IndexPiece());
      CombosVolume(axes, IndexPiece());
      KeptIsNumerals(axes, exSets, n - 1);
      ComboAt(axes, n - 1);
      assert cs[..n][..n - 1] == cs[..n - 1];
    }
  }

  /**
    With excludes, the index-mode enumeration is the product in order without the
    excluded combinations, and the remaining ones keep their numerals.
  */
  lemma ExcludesOnlyFilter(axes: seq<MatrixAxis>, exSets: seq<map<string, string>>)
    ensures Kept(CombosOf(axes, IndexPiece()), exSets) == NumeralsKept(axes, exSets, Volume(Lengths(axes)))
  {
    CombosVolume(axes, IndexPiece());
    KeptIsNumerals(axes, exSets, Volume(Lengths(axes)));
    var cs := CombosOf(axes, IndexPiece());
    assert cs[..|cs|] == cs;
  }

  lemma {:induction false} NothingExcluded(axes: seq<MatrixAxis>, n: nat)
    requires n <= |ProductOf(Lengths(axes))|
    ensures NumeralsKept(axes, [], n) == ProductOf(Lengths(axes))[..n]
  {
    if n > 0 {
      NothingExcluded(axes, n - 1);
      NoExcludeMatches(ValuesAt(axes, n - 1));
      ProductTake(Lengths(axes), n - 1);
    }
  }

  lemma NoExcludeMatches(vals: map<string, string>)
    ensures !MatchesAny(vals, [])
  {
  }

  lemma ProductTake(lens: seq<nat>, n: nat)
    requires n < |ProductOf(lens)|
    ensures ProductOf(lens)[..n + 1] == ProductOf(lens)[..n] + [Radix(lens, n)]
  {
    ProductVolume(lens);
    ProductIsRadix(lens, n);
  }

  /** The fast path refines the general one: without excludes both enumerate the same list. */
  lemma FastPathRefines(axes: seq<MatrixAxis>)
    ensures Kept(CombosOf(axes, IndexPiece()), []) == ProductOf(Lengths(axes))
  {
    ExcludesOnlyFilter(axes, []);
    ProductVolume(Lengths(axes));
    NothingExcluded(axes, Volume(Lengths(axes)));
    var p := ProductOf(Lengths(axes));
    assert p[..|p|] == p;
  }

  /** `s` is one of the first `n` numerals. */
  ghost predicate IsNumeral(lens: seq<nat>, n: nat, s: string) {
    exists k: nat :: k < n && s == Radix(lens, k)
  }

  lemma NumeralIsNew(lens: seq<nat>, n: nat, s: string)
    requires n < Volume(lens) && IsNumeral(lens, n, s)
    ensures s != Radix(lens, n)
  {
    var k: nat :| k < n && s == Radix(lens, k);
    if Radix(lens, k) == Radix(lens, n) {
      RadixInjective(lens, k, n);
    }
  }

  ghost predicate DistinctNumerals(lens: seq<nat>, n: nat, ss: seq<string>) {
    Distinct(ss) && forall i :: 0 <= i < |ss| ==> IsNumeral(lens, n, ss[i])
  }

  lemma DistinctOneMore<T>(front: seq<T>, x: T)
    requires Distinct(front) && forall i :: 0 <= i < |front| ==> front[i] != x
    ensures Distinct(front + [x])
  {
  }

  lemma OneMoreNumeral(lens: seq<nat>, n: nat, front: seq<string>)
    requires n < Volume(lens) && DistinctNumerals(lens, n, front)
    ensures DistinctNumerals(lens, n + 1, front) && DistinctNumerals(lens, n + 1, front + [Radix(lens, n)])
  {
    assert IsNumeral(lens, n + 1, Radix(lens, n));
    forall i | 0 <= i < |front| ensures front[i] != Radix(lens, n) && IsNumeral(lens, n + 1, front[i]) {
      assert IsNumeral(lens, n, front[i]);
      NumeralIsNew(lens, n, front[i]);
    }
    DistinctOneMore(front, Radix(lens, n));
  }

  lemma KeptOneMore(axes: seq<MatrixAxis>, exSets: seq<map<string, string>>, n: nat)
    requires n > 0
    ensures var front := NumeralsKept(axes, exSets, n - 1);
      NumeralsKept(axes, exSets, n) == front || NumeralsKept(axes, exSets, n) == front + [Radix(Lengths(axes), n - 1)]
  {
    PlusNothing(NumeralsKept(axes, exSets, n - 1));
  }

  lemma NumeralsStep(axes: seq<MatrixAxis>, exSets: seq<map<string, string>>, m: nat)
    requires m < Volume(Lengths(axes)) && DistinctNumerals(Lengths(axes), m, NumeralsKept(axes, exSets, m))
    ensures DistinctNumerals(Lengths(axes), m + 1, NumeralsKept(axes, exSets, m + 1))
  {
    OneMoreNumeral(Lengths(axes), m, NumeralsKept(axes, exSets, m));
    KeptOneMore(axes, exSets, m + 1);
  }

  lemma {:induction false} NumeralsKeptDistinct(axes: seq<MatrixAxis>, exSets: seq<map<string, string>>, n: nat)
    requires n <= Volume(Lengths(axes))
    ensures DistinctNumerals(Lengths(axes), n, NumeralsKept(axes, exSets, n))
  {
    if n > 0 {
      NumeralsKeptDistinct(axes, exSets, n - 1);
      NumeralsStep(axes, exSets, n - 1);
    }
  }
}
