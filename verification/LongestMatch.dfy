/**
  Which raw names resolve, exactly: the segment walk reads each raw segment as the
  longest registered name that fits it (verifier/pipeline/graph.go: lookup).
*/
module LongestMatch {
  import opened Common
  import opened Graph
  import opened Text
  import opened Lookup

  /**
    After the logical segments `pre`, the raw segment `s` may be read as `r`: a
    registered name ends there, and it is the segment itself or, for a unit with a
    strategy, what is left when trailing "_..." groups are dropped.  A segment that
    starts with '_' is read as it is.
  */
  predicate Candidate(g: OrderGraph, pre: seq<string>, r: string, s: string) {
    var f := Join(pre + [r]);
    f in g.byFqn && (r == s || (r + "_" <= s && s[0] != '_' && NamesStrategy(g, f)))
  }

  /** `m` is the longest reading of `s`, or `s` itself when no registered name fits. */
  ghost predicate Picks(g: OrderGraph, pre: seq<string>, m: string, s: string) {
    || (Candidate(g, pre, m, s) && forall r :: Candidate(g, pre, r, s) ==> |r| <= |m|)
    || (m == s && forall r :: !Candidate(g, pre, r, s))
  }

  /** The raw segments `xs` are read, one after the other, as the logical segments `ms`. */
  ghost predicate ReadsAs(g: OrderGraph, ms: seq<string>, xs: seq<string>) {
    |ms| == |xs| && forall i :: 0 <= i < |xs| ==> Picks(g, ms[..i], ms[i], xs[i])
  }

  lemma PrefixesOfOneLength(a: string, b: string, s: string)
    requires a <= s && b <= s && |a| == |b|
    ensures a == b
  {
    assert a == s[..|a|] && b == s[..|b|];
  }

  lemma CandidateIsPrefix(g: OrderGraph, pre: seq<string>, r: string, s: string)
    requires Candidate(g, pre, r, s)
    ensures r <= s && (r != s ==> |r| < |s|)
  {
    if r != s {
      assert r + "_" <= s;
      assert r == (r + "_")[..|r|] == s[..|r|];
    }
  }

  /** A segment is read in one way only. */
  lemma PicksIsUnique(g: OrderGraph, pre: seq<string>, m: string, m': string, s: string)
    requires Picks(g, pre, m, s) && Picks(g, pre, m', s)
    ensures m == m'
  {
    if Candidate(g, pre, m, s) {
      CandidateIsPrefix(g, pre, m, s);
      CandidateIsPrefix(g, pre, m', s);
      PrefixesOfOneLength(m, m', s);
    }
  }

  lemma {:induction false} ReadingIsUnique(g: OrderGraph, ms: seq<string>, ms': seq<string>, xs: seq<string>)
    requires ReadsAs(g, ms, xs) && ReadsAs(g, ms', xs)
    ensures ms == ms'
    decreases |xs|
  {
    if xs != [] {
      var n := |xs| - 1;
      ReadsFront(g, ms, xs);
      ReadsFront(g, ms', xs);
      ReadingIsUnique(g, ms[..n], ms'[..n], xs[..n]);
      PicksIsUnique(g, ms[..n], ms[n], ms'[n], xs[n]);
      FrontAndLast(ms);
      FrontAndLast(ms');
    }
  }

  lemma ReadsFront(g: OrderGraph, ms: seq<string>, xs: seq<string>)
    requires ReadsAs(g, ms, xs) && xs != []
    ensures ReadsAs(g, ms[..|xs| - 1], xs[..|xs| - 1])
  {
    var n := |xs| - 1;
    forall i | 0 <= i < n ensures Picks(g, ms[..n][..i], ms[..n][i], xs[..n][i]) {
      assert ms[..n][..i] == ms[..i];
    }
  }

  lemma ReadsMore(g: OrderGraph, ms: seq<string>, xs: seq<string>, m: string, s: string)
    requires ReadsAs(g, ms, xs) && Picks(g, ms, m, s)
    ensures ReadsAs(g, ms + [m], xs + [s])
  {
    forall i | 0 <= i < |xs| + 1 ensures Picks(g, (ms + [m])[..i], (ms + [m])[i], (xs + [s])[i]) {
      if i < |xs| {
        assert (ms + [m])[..i] == ms[..i];
      } else {
        assert (ms + [m])[..i] == ms;
      }
    }
  }

  /******* Stripping *******/

  lemma {:induction false} LastIndexIsLast(s: string, c: char)
    ensures forall k :: LastIndexOf(s, c) < k < |s| ==> s[k] != c
    decreases |s|
  {
    if s != "" && s[|s| - 1] != c {
      LastIndexIsLast(s[..|s| - 1], c);
    }
  }

  lemma {:induction false} IndexIsFirst(s: string, c: char)
    ensures IndexOf(s, c) < 0 ==> c !in s
    ensures IndexOf(s, c) == 0 <==> s != "" && s[0] == c
  {
    if s != "" && s[0] != c {
      IndexIsFirst(s[1..], c);
      Uncons(s);
    }
  }

  /** Stripping finds the longest proper reading that names a unit with a strategy. */
  lemma {:induction false} StripIsLongest(g: OrderGraph, prefix: string, seg: string, r: string)
    requires r != "" && r + "_" <= seg && NamesStrategy(g, prefix + r)
    ensures Strip(g, prefix, seg).Some? && |r| <= |Strip(g, prefix, seg).value|
    decreases |seg|
  {
    var j := LastIndexOf(seg, '_');
    LastIndexIsLast(seg, '_');
    assert seg[|r|] == (r + "_")[|r|];
    if j == |r| {
      assert r == (r + "_")[..|r|] == seg[..|r|];
    } else if !NamesStrategy(g, prefix + seg[..j]) {
      assert r + "_" == seg[..|r| + 1] == seg[..j][..|r| + 1];
      StripIsLongest(g, prefix, seg[..j], r);
    }
  }

  /** What the walk puts in front of the last segment, whatever that segment is read as. */
  lemma PrefixJoins(ms: seq<string>, cand: string, s: string, t: string)
    requires cand == Join(ms) && (ms != [] ==> cand != "")
    ensures var longer := Extend(cand, s);
      && |s| <= |longer| && longer == Join(ms + [s])
      && longer[..|longer| - |s|] + t == Join(ms + [t])
  {
    ExtendJoins(ms, cand, s, t);
    ExtendJoins(ms, cand, s, s);
    ExtendEnds(cand, s);
  }

  /** A reading other than the segment itself is one that stripping considers. */
  lemma ProperCandidate(g: OrderGraph, ms: seq<string>, cand: string, r: string, s: string)
    requires cand == Join(ms) && (ms != [] ==> cand != "")
    requires Candidate(g, ms, r, s) && r != s
    ensures IndexOf(s, '_') > 0 && r != ""
    ensures var longer := Extend(cand, s);
      |s| <= |longer| && (var prefix := longer[..|longer| - |s|];
        NamesStrategy(g, prefix + r) && Strip(g, prefix, s).Some? && |r| <= |Strip(g, prefix, s).value|)
  {
    PrefixJoins(ms, cand, s, r);
    IndexIsFirst(s, '_');
    assert s[|r|] == (r + "_")[|r|];
    var longer := Extend(cand, s);
    StripIsLongest(g, longer[..|longer| - |s|], s, r);
  }

  /** What a successful strip returns is a reading of the segment. */
  lemma StrippedIsCandidate(g: OrderGraph, ms: seq<string>, cand: string, s: string)
    requires cand == Join(ms) && (ms != [] ==> cand != "") && IndexOf(s, '_') > 0
    requires var longer := Extend(cand, s); |s| <= |longer| && Strip(g, longer[..|longer| - |s|], s).Some?
    ensures var longer := Extend(cand, s);
      var prefix := longer[..|longer| - |s|];
      var m := Strip(g, prefix, s).value;
      Candidate(g, ms, m, s) && m != s && prefix + m == Join(ms + [m])
  {
    var longer := Extend(cand, s);
    var prefix := longer[..|longer| - |s|];
    StripFinds(g, prefix, s);
    var m := Strip(g, prefix, s).value;
    PrefixJoins(ms, cand, s, m);
    IndexIsFirst(s, '_');
    assert s[|m|] == (m + "_")[|m|];
  }

  /******* One segment, and all of them *******/

  /** The segment itself is a reading exactly when the extended candidate is registered. */
  lemma WholeCandidate(g: OrderGraph, ms: seq<string>, cand: string, s: string)
    requires cand == Join(ms) && (ms != [] ==> cand != "")
    ensures Candidate(g, ms, s, s) <==> Extend(cand, s) in g.byFqn
    ensures forall r :: Candidate(g, ms, r, s) ==> |r| <= |s|
    ensures Extend(cand, s) == Join(ms + [s])
  {
    PrefixJoins(ms, cand, s, s);
    forall r | Candidate(g, ms, r, s) ensures |r| <= |s| {
      CandidateIsPrefix(g, ms, r, s);
    }
  }

  /** A stripped reading is the longest when the segment itself is none. */
  lemma StrippedPicks(g: OrderGraph, ms: seq<string>, cand: string, s: string) returns (m: string)
    requires cand == Join(ms) && (ms != [] ==> cand != "") && IndexOf(s, '_') > 0
    requires Extend(cand, s) !in g.byFqn
    requires var longer := Extend(cand, s); |s| <= |longer| && Strip(g, longer[..|longer| - |s|], s).Some?
    ensures var longer := Extend(cand, s);
      var prefix := longer[..|longer| - |s|];
      m == Strip(g, prefix, s).value && Picks(g, ms, m, s) && prefix + m == Join(ms + [m])
  {
    var longer := Extend(cand, s);
    WholeCandidate(g, ms, cand, s);
    StrippedIsCandidate(g, ms, cand, s);
    m := Strip(g, longer[..|longer| - |s|], s).value;
    forall r | Candidate(g, ms, r, s) ensures |r| <= |m| {
      ProperCandidate(g, ms, cand, r, s);
    }
  }

  /** Without a registered or stripped name nothing fits. */
  lemma NothingFits(g: OrderGraph, ms: seq<string>, cand: string, s: string)
    requires cand == Join(ms) && (ms != [] ==> cand != "") && Extend(cand, s) !in g.byFqn
    requires var longer := Extend(cand, s);
      |s| <= |longer| && (IndexOf(s, '_') > 0 ==> Strip(g, longer[..|longer| - |s|], s).None?)
    ensures Picks(g, ms, s, s)
  {
    WholeCandidate(g, ms, cand, s);
    forall r ensures !Candidate(g, ms, r, s) {
      if Candidate(g, ms, r, s) {
        ProperCandidate(g, ms, cand, r, s);
      }
    }
  }

  /** One step of the walk reads its segment as the longest name that fits. */
  lemma AdvancePicks(g: OrderGraph, c: Cursor, s: string, ms: seq<string>) returns (m: string)
    requires c.cand == Join(ms) && (ms != [] ==> c.cand != "")
    ensures Picks(g, ms, m, s) && Advance(g, c, s).cand == Join(ms + [m])
  {
    var longer := Extend(c.cand, s);
    ExtendEnds(c.cand, s);
    WholeCandidate(g, ms, c.cand, s);
    if longer in g.byFqn {
      m := s;
    } else if IndexOf(s, '_') > 0 && Strip(g, longer[..|longer| - |s|], s).Some? {
      m := StrippedPicks(g, ms, c.cand, s);
    } else {
      NothingFits(g, ms, c.cand, s);
      m := s;
    }
  }

  /** The last unit the walk remembers is the one its candidate names, if it names one. */
  predicate Remembers(g: OrderGraph, c: Cursor) {
    c.cand in g.byFqn ==> c.last == Some(g.byFqn[c.cand])
  }

  lemma AdvanceRemembers(g: OrderGraph, c: Cursor, s: string)
    ensures Remembers(g, Advance(g, c, s))
  {
  }

  lemma JoinIsNotEmpty(ms: seq<string>, m: string)
    requires ms != [] && Join(ms) != ""
    ensures Join(ms + [m]) != ""
  {
    JoinAppend(ms, m);
  }

  lemma {:induction false} WalkReads(g: OrderGraph, segs: seq<string>, c: Cursor, ms: seq<string>, ys: seq<string>)
    returns (ms': seq<string>)
    requires ReadsAs(g, ms, ys) && c.cand == Join(ms) && (ms != [] ==> c.cand != "") && Remembers(g, c)
    requires ms == [] && segs != [] ==> segs[0] != ""
    ensures ReadsAs(g, ms', ys + segs)
    ensures Walk(g, segs, c).cand == Join(ms') && Remembers(g, Walk(g, segs, c))
    decreases |segs|
  {
    if segs == [] {
      ms' := ms;
      PlusNothing(ys);
    } else {
      var s := segs[0];
      var m := AdvancePicks(g, c, s, ms);
      ReadsMore(g, ms, ys, m, s);
      AdvanceRemembers(g, c, s);
      FirstPickIsText(g, ms, m, s);
      ms' := WalkReads(g, segs[1..], Advance(g, c, s), ms + [m], ys + [s]);
      Uncons(segs);
      Associates(ys, [s], segs[1..]);
    }
  }

  lemma FirstPickIsText(g: OrderGraph, ms: seq<string>, m: string, s: string)
    requires Picks(g, ms, m, s) && (ms == [] ==> s != "") && (ms != [] ==> Join(ms) != "")
    ensures Join(ms + [m]) != ""
  {
    if ms != [] {
      JoinIsNotEmpty(ms, m);
    } else {
      assert [] + [m] == [m];
      assert m == "" ==> m + "_" == "_";
    }
  }

  lemma {:induction false} ReadingHasNoDots(g: OrderGraph, ms: seq<string>, xs: seq<string>)
    requires ReadsAs(g, ms, xs) && NoDotsIn(xs)
    ensures NoDotsIn(ms)
  {
    forall i | 0 <= i < |ms| ensures '.' !in ms[i] {
      assert Picks(g, ms[..i], ms[i], xs[i]);
      if Candidate(g, ms[..i], ms[i], xs[i]) {
        CandidateIsPrefix(g, ms[..i], ms[i], xs[i]);
      }
      PrefixHasNoDots(ms[i], xs[i]);
    }
  }

  lemma PrefixHasNoDots(m: string, s: string)
    requires m <= s && '.' !in s
    ensures '.' !in m
  {
    forall i | 0 <= i < |m| ensures m[i] != '.' {
      assert m[i] == s[i];
    }
  }

  /** The walk over a whole name: the one reading of its segments, and the unit it names. */
  lemma WalkIsReading(g: OrderGraph, x: string) returns (ms: seq<string>)
    requires ValidGraph(g) && x != "" && x[0] != '.'
    ensures ReadsAs(g, ms, Split(x)) && NoDotsIn(ms) && ms != []
    ensures var c := Walk(g, Split(x), Cursor("", None));
      c.cand == Join(ms) && Remembers(g, c)
  {
    NoEmptyName(g);
    assert Split(x)[0] != "";
    ms := WalkReads(g, Split(x), Cursor("", None), [], []);
    assert [] + Split(x) == Split(x);
    SegmentsHaveNoDots(x);
    ReadingHasNoDots(g, ms, Split(x));
  }

  lemma NoEmptyName(g: OrderGraph)
    requires ValidGraph(g)
    ensures "" !in g.byFqn
  {
    if "" in g.byFqn {
      NamesStart(g, "");
    }
  }

  /** No registered name reads a name of dots only. */
  lemma NothingReadsDots(g: OrderGraph, f: string)
    requires ValidGraph(g) && f in g.byFqn
    ensures !ReadsAs(g, Split(f), Split(""))
  {
    NamesStart(g, f);
    JoinSplit(f);
    if ReadsAs(g, Split(f), Split("")) {
      NothingReadAsNothing(g, Split(f));
    }
  }

  lemma NothingReadAsNothing(g: OrderGraph, ms: seq<string>)
    requires ReadsAs(g, ms, Split(""))
    ensures ms == [""]
  {
    assert Picks(g, ms[..0], ms[0], "");
    if Candidate(g, ms[..0], ms[0], "") {
      CandidateIsPrefix(g, ms[..0], ms[0], "");
    }
  }

  /** The unit that a registered name stands for is recognised by that name. */
  lemma NamedUnit(g: OrderGraph, f: string)
    requires ValidGraph(g) && f in g.byFqn
    ensures IsNode(g.root, g.byFqn[f]) && At(g.root, g.byFqn[f]).fqn == f
  {
  }

  /**
    Which names resolve.  A raw name that is neither registered nor an indexed
    instance resolves to a unit exactly when, leading dots aside, its segments read
    as that unit's FQN, each taken as the longest registered name that fits; so
    every such name of a unit whose instances cannot be enumerated is found.
  */
  lemma ResolvesExactly(g: OrderGraph, x: string, f: string)
    requires ValidGraph(g) && x !in g.byFqn && x !in g.instByFqn && f in g.byFqn
    ensures LookupNode(g, x) == Some(g.byFqn[f]) <==> ReadsAs(g, Split(f), Split(TrimDots(x)))
  {
    NoEmptyName(g);
    NamedUnit(g, f);
    WalkTrims(g, x, None);
    var t := TrimDots(x);
    if t == "" {
      NothingReadsDots(g, f);
    } else {
      var ms := WalkIsReading(g, t);
      SplitJoin(ms);
      JoinSplit(f);
      if ReadsAs(g, Split(f), Split(t)) {
        ReadingIsUnique(g, ms, Split(f), Split(t));
      }
      OtherUnit(g, Walk(g, Split(t), Cursor("", None)), f);
    }
  }

  /** The walk's answer is the unit its candidate names. */
  lemma OtherUnit(g: OrderGraph, c: Cursor, f: string)
    requires ValidGraph(g) && f in g.byFqn && Remembers(g, c)
    ensures var r := if c.last.Some? && IsNode(g.root, c.last.value) && At(g.root, c.last.value).fqn == c.cand
        then c.last else None;
      r == Some(g.byFqn[f]) <==> c.cand == f
  {
    NamedUnit(g, f);
  }

  /** No registered name but the intended one fits any segment. */
  ghost predicate Unrivalled(g: OrderGraph, ls: seq<string>, xs: seq<string>) {
    |ls| == |xs| && forall i, r :: 0 <= i < |xs| && Candidate(g, ls[..i], r, xs[i]) ==> r == ls[i]
  }

  /**
    The converse of lookup soundness: a suffixed spelling of a registered name, in
    which no other registered name fits a segment, resolves to that name's unit.
  */
  lemma SuffixedNameResolves(g: OrderGraph, x: string, f: string)
    requires ValidGraph(g) && x !in g.byFqn && x !in g.instByFqn && f in g.byFqn
    requires Suffixed(g, Split(f), Split(x)) && Unrivalled(g, Split(f), Split(x))
    requires forall i :: 0 <= i < |Split(x)| && Split(x)[i] != Split(f)[i] ==>
      Split(f)[i] != "" && Split(f)[i][0] != '_'
    ensures LookupNode(g, x) == Some(g.byFqn[f])
  {
    var ls, xs := Split(f), Split(x);
    NamesStart(g, f);
    SuffixedFirst(g, f, x);
    assert TrimDots(x) == x;
    forall i | 0 <= i < |xs| ensures Picks(g, ls[..i], ls[i], xs[i]) {
      Taken(ls, i);
      assert SegmentMatches(g, ls[i], xs[i], Join(ls[..i + 1]));
      if ls[i] != xs[i] {
        assert xs[i][0] == (ls[i] + "_")[0];
        assert Candidate(g, ls[..i], ls[i], xs[i]);
      }
    }
    ResolvesExactly(g, x, f);
  }
}
