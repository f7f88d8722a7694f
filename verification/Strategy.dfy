module Strategy {
  import opened Common

  datatype FanoutStatus = Unset | Enumerable | RuntimeInput | CustomNames

  datatype StrategySpec = StrategySpec(known: bool, suffixes: seq<string>, status: FanoutStatus, excluded: bool)

  /** What an instance suffix looks like: it marks itself with '_' and adds no segment. */
  predicate SuffixOk(s: string) {
    s != "" && s[0] == '_' && '.' !in s
  }

  predicate IsEnumerable(s: StrategySpec) {
    && s.known && !s.excluded
    && s.suffixes != [] && Distinct(s.suffixes)
    && forall i :: 0 <= i < |s.suffixes| ==> SuffixOk(s.suffixes[i])
  }

  predicate IsExcluded(s: StrategySpec) {
    !s.known && s.excluded && s.suffixes == []
  }

  predicate IsNonEnumerable(s: StrategySpec) {
    !s.known && !s.excluded && s.suffixes == [] && (s.status.RuntimeInput? || s.status.CustomNames?)
  }

  /** A resolved strategy is enumerable, excluded, or non-enumerable with a cause. */
  predicate ValidSpec(s: StrategySpec) {
    IsEnumerable(s) || IsExcluded(s) || IsNonEnumerable(s)
  }
}
