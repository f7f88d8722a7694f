/**
  Resolving a raw FQN to its logical unit (verifier/pipeline/graph.go: lookup,
  indexInstances).
*/
module Lookup {
  import opened Common
  import opened Graph
  import opened Text
  import opened Naming
  import opened Instances

  /** The immutable graph that BuildGraph returns. */
  datatype OrderGraph = OrderGraph(root: Node, byFqn: map<string, Path>, instByFqn: map<string, Path>)

  /** byFqn holds every named unit under its own FQN, and nothing else. */
  ghost predicate IndexesNames(root: Node, byFqn: map<string, Path>) {
    && (forall f :: f in byFqn ==> IsNode(root, byFqn[f]) && IsNamed(At(root, byFqn[f])) && At(root, byFqn[f]).fqn == f)
    && (forall p {:trigger IsNamed(At(root, p))} :: IsNode(root, p) && IsNamed(At(root, p)) ==>
          At(root, p).fqn in byFqn && byFqn[At(root, p).fqn] == p)
  }

  /** `p` is an indexed unit whose `j`-th enumerated instance is called `x`. */
  predicate Enumerates(root: Node, byFqn: map<string, Path>, p: Path, j: nat, x: string) {
    && IsNode(root, p) && At(root, p).fqn in byFqn && byFqn[At(root, p).fqn] == p
    && InstanceFqns(root, p).Some?
    && j < |InstanceFqns(root, p).value| && InstanceFqns(root, p).value[j] == x
  }

  /** `x` is enumerated exactly once over all units, by `p`. */
  ghost predicate SoleEnumerator(root: Node, byFqn: map<string, Path>, x: string, p: Path) {
    && (exists j: nat :: Enumerates(root, byFqn, p, j, x))
    && (forall q: Path, j: nat, q': Path, j': nat ::
          Enumerates(root, byFqn, q, j, x) && Enumerates(root, byFqn, q', j', x) ==> q == q' && j == j')
  }

  /** instByFqn holds exactly the unambiguous instance names that are no unit's own FQN. */
  ghost predicate IndexesInstances(root: Node, byFqn: map<string, Path>, instByFqn: map<string, Path>) {
    forall x, p :: x in instByFqn && instByFqn[x] == p <==> x !in byFqn && SoleEnumerator(root, byFqn, x, p)
  }

  ghost predicate ValidGraph(g: OrderGraph) {
    && WellFormed(g.root)
    && IndexesNames(g.root, g.byFqn)
    && IndexesInstances(g.root, g.byFqn, g.instByFqn)
  }

  /******* The segment walk *******/

  /** strings.IndexByte: the first position of `c`, or -1. */
  function IndexOf(s: string, c: char): (i: int)
    ensures -1 <= i < |s| && (i >= 0 ==> s[i] == c)
  {
    if s == "" then -1
    else if s[0] == c then 0
    else
      var i := IndexOf(s[1..], c);
      if i < 0 then -1 else i + 1
  }

  /** strings.LastIndexByte: the last position of `c`, or -1. */
  function LastIndexOf(s: string, c: char): (i: int)
    ensures -1 <= i < |s| && (i >= 0 ==> s[i] == c)
    decreases |s|
  {
    if s == "" then -1
    else if s[|s| - 1] == c then |s| - 1
    else LastIndexOf(s[..|s| - 1], c)
  }

  /** `f` is the FQN of a unit that declares a strategy. */
  predicate NamesStrategy(g: OrderGraph, f: string) {
    f in g.byFqn && IsNode(g.root, g.byFqn[f]) && At(g.root, g.byFqn[f]).strat.Some?
  }

  /** Strips trailing "_..." groups, shortest first, until a strategy-bearing unit is named. */
  function Strip(g: OrderGraph, prefix: string, seg: string): Option<string>
    decreases |seg|
  {
    var j := LastIndexOf(seg, '_');
    if j <= 0 then None
    else if NamesStrategy(g, prefix + seg[..j]) then Some(seg[..j])
    else Strip(g, prefix, seg[..j])
  }

  /** The walk's two variables: the candidate FQN and the last unit met. */
  datatype Cursor = Cursor(cand: string, last: Option<Path>)

  function Extend(cand: string, s: string): string {
    if cand == "" then s else cand + "." + s
  }

  function Advance(g: OrderGraph, c: Cursor, s: string): Cursor {
    var cand := Extend(c.cand, s);
    if cand in g.byFqn then Cursor(cand, Some(g.byFqn[cand]))
    else if IndexOf(s, '_') > 0 && Strip(g, cand[..|cand| - |s|], s).Some? then
      var logical := cand[..|cand| - |s|] + Strip(g, cand[..|cand| - |s|], s).value;
      Cursor(logical, if logical in g.byFqn then Some(g.byFqn[logical]) else c.last)
    else Cursor(cand, c.last)
  }

  function Walk(g: OrderGraph, segs: seq<string>, c: Cursor): Cursor {
    if segs == [] then c else Walk(g, segs[1..], Advance(g, c, segs[0]))
  }

  /** lookup: exact name, then enumerated instance, then the segment walk. */
  function LookupNode(g: OrderGraph, x: string): Option<Path> {
    if x in g.byFqn then Some(g.byFqn[x])
    else if x in g.instByFqn then Some(g.instByFqn[x])
    else
      var c := Walk(g, Split(x), Cursor("", None));
      if c.last.Some? && IsNode(g.root, c.last.value) && At(g.root, c.last.value).fqn == c.cand then c.last else None
  }

  /******* Soundness *******/

  /** One raw segment against its logical one; `upTo` is the logical FQN through this segment. */
  predicate SegmentMatches(g: OrderGraph, logical: string, raw: string, upTo: string) {
    logical == raw || (logical + "_" <= raw && NamesStrategy(g, upTo))
  }

  /** `raw` is `logical` with "_..." suffixes on segments that end a strategy-bearing unit's FQN. */
  predicate Suffixed(g: OrderGraph, logical: seq<string>, raw: seq<string>) {
    && |logical| == |raw|
    && forall i :: 0 <= i < |raw| ==> SegmentMatches(g, logical[i], raw[i], Join(logical[..i + 1]))
  }

  predicate NoDotsIn(segs: seq<string>) {
    forall i :: 0 <= i < |segs| ==> '.' !in segs[i]
  }

  lemma {:induction false} StripFinds(g: OrderGraph, prefix: string, seg: string)
    requires Strip(g, prefix, seg).Some?
    ensures var r := Strip(g, prefix, seg).value;
      r != "" && r + "_" <= seg && NamesStrategy(g, prefix + r)
    decreases |seg|
  {
    var j := LastIndexOf(seg, '_');
    assert seg[..j] + "_" == seg[..j + 1];
    if !NamesStrategy(g, prefix + seg[..j]) {
      StripFinds(g, prefix, seg[..j]);
    }
  }

  lemma SuffixedExtends(g: OrderGraph, ms: seq<string>, ys: seq<string>, m: string, s: string)
    requires Suffixed(g, ms, ys) && SegmentMatches(g, m, s, Join(ms + [m]))
    ensures Suffixed(g, ms + [m], ys + [s])
  {
    forall i | 0 <= i < |ys| + 1
      ensures SegmentMatches(g, (ms + [m])[i], (ys + [s])[i], Join((ms + [m])[..i + 1]))
    {
      if i < |ys| {
        assert (ms + [m])[..i + 1] == ms[..i + 1];
      } else {
        assert (ms + [m])[..i + 1] == ms + [m];
      }
    }
  }

  /** The candidate is the strategy-stripped form `ms` of the segments `ys` read so far. */
  predicate Tracks(g: OrderGraph, cand: string, ms: seq<string>, ys: seq<string>) {
    NoDotsIn(ms) && Suffixed(g, ms, ys) && cand == Join(ms) && (ms != [] ==> cand != "")
  }

  /** What stands before the segment `s` that was just appended; any segment `t` may stand in its place. */
  lemma ExtendJoins(ms: seq<string>, cand: string, s: string, t: string)
    requires cand == Join(ms) && (ms != [] ==> cand != "")
    ensures var longer := Extend(cand, s);
      |s| <= |longer| && longer[..|longer| - |s|] + t == Join(ms + [t])
  {
    if ms == [] {
      PlusNothing([t]);
      PlusNothing(t);
    } else {
      JoinAppend(ms, t);
      WholeConcat(cand + ".", s);
    }
  }

  lemma StrippedIsPlain(m: string, s: string)
    requires m + "_" <= s && '.' !in s
    ensures '.' !in m
  {
    forall i | 0 <= i < |m| ensures m[i] != '.' {
      assert m[i] == (m + "_")[i] == s[i];
    }
  }

  lemma TracksMore(g: OrderGraph, ms: seq<string>, ys: seq<string>, m: string, s: string, cand: string)
    requires NoDotsIn(ms) && Suffixed(g, ms, ys) && '.' !in m && SegmentMatches(g, m, s, Join(ms + [m]))
    requires cand == Join(ms + [m]) && cand != ""
    ensures Tracks(g, cand, ms + [m], ys + [s])
  {
    SuffixedExtends(g, ms, ys, m, s);
  }

  lemma StripKeeps(g: OrderGraph, c: Cursor, s: string, ms: seq<string>, ys: seq<string>, prefix: string)
    requires '.' !in s && Tracks(g, c.cand, ms, ys) && Strip(g, prefix, s).Some?
    requires Extend(c.cand, s) == prefix + s
    ensures var m := Strip(g, prefix, s).value; Tracks(g, prefix + m, ms + [m], ys + [s])
  {
    StripFinds(g, prefix, s);
    var m := Strip(g, prefix, s).value;
    StrippedIsPlain(m, s);
    ExtendJoins(ms, c.cand, s, m);
    WholeConcat(prefix, s);
    TracksMore(g, ms, ys, m, s, prefix + m);
  }

  lemma AdvanceKeeps(g: OrderGraph, c: Cursor, s: string, ms: seq<string>, ys: seq<string>) returns (m: string)
    requires '.' !in s && Tracks(g, c.cand, ms, ys)
    requires ms == [] ==> s != ""
    ensures Tracks(g, Advance(g, c, s).cand, ms + [m], ys + [s])
  {
    var cand := Extend(c.cand, s);
    ExtendJoins(ms, c.cand, s, s);
    var prefix := cand[..|cand| - |s|];
    if cand !in g.byFqn && IndexOf(s, '_') > 0 && Strip(g, prefix, s).Some? {
      m := Strip(g, prefix, s).value;
      ExtendEnds(c.cand, s);
      StripKeeps(g, c, s, ms, ys, prefix);
    } else {
      m := s;
      ExtendEnds(c.cand, s);
      TracksMore(g, ms, ys, s, s, cand);
    }
  }

  lemma ExtendEnds(cand: string, s: string)
    ensures var longer := Extend(cand, s); |s| <= |longer| && longer == longer[..|longer| - |s|] + s
  {
  }

  lemma {:induction false} WalkKeeps(g: OrderGraph, segs: seq<string>, c: Cursor, ms: seq<string>, ys: seq<string>)
    returns (ms': seq<string>)
    requires NoDotsIn(segs) && Tracks(g, c.cand, ms, ys)
    requires ms == [] && segs != [] ==> segs[0] != ""
    ensures Tracks(g, Walk(g, segs, c).cand, ms', ys + segs)
    decreases |segs|
  {
    if segs == [] {
      ms' := ms;
      PlusNothing(ys);
    } else {
      var m := AdvanceKeeps(g, c, segs[0], ms, ys);
      ms' := WalkKeeps(g, segs[1..], Advance(g, c, segs[0]), ms + [m], ys + [segs[0]]);
      Uncons(segs);
      Associates(ys, [segs[0]], segs[1..]);
    }
  }

  /** A raw name without its leading dots. */
  function TrimDots(x: string): (t: string)
    ensures t != "" ==> t[0] != '.'
  {
    if x != "" && x[0] == '.' then TrimDots(x[1..]) else x
  }

  /** The walk forgets leading empty segments. */
  lemma {:induction false} WalkTrims(g: OrderGraph, x: string, last: Option<Path>)
    requires "" !in g.byFqn
    ensures TrimDots(x) != "" ==> Walk(g, Split(x), Cursor("", last)) == Walk(g, Split(TrimDots(x)), Cursor("", last))
    ensures TrimDots(x) == "" ==> Walk(g, Split(x), Cursor("", last)) == Cursor("", last)
    ensures |Split(x)| >= |Split(TrimDots(x))|
    ensures |Split(x)| == |Split(TrimDots(x))| <==> x == TrimDots(x)
  {
    if x != "" && x[0] == '.' {
      WalkTrims(g, x[1..], last);
      assert Split(x) == [""] + Split(x[1..]);
      assert Split(x)[1..] == Split(x[1..]);
      assert Advance(g, Cursor("", last), "") == Cursor("", last);
    } else if x == "" {
      assert Split(x) == [""];
      assert Advance(g, Cursor("", last), "") == Cursor("", last);
      assert Split(x)[1..] == [];
    }
  }

  /******* Names start with "pipeline" *******/

  lemma {:induction false} BaseStarts(root: Node, p: Path)
    requires WellFormed(root) && IsNode(root, p)
    ensures if BaseFqn(root, p) == "" then KidTail(root, p) == "pipeline.stages" else BaseFqn(root, p)[0] == 'p'
    decreases |p|
  {
    if p == [] {
      assert LocalName(root, p);
    } else {
      BaseStarts(root, Up(p));
      BaseStep(root, p);
      assert LocalShape(At(root, Up(p)));
    }
  }

  lemma NamesStart(g: OrderGraph, f: string)
    requires ValidGraph(g) && f in g.byFqn
    ensures f != "" && f[0] == 'p'
  {
    var p := g.byFqn[f];
    assert p != [] by { assert g.root.kind.Pipeline?; }
    BaseStarts(g.root, p);
    assert LocalName(g.root, p);
    BaseStarts(g.root, Up(p));
  }

  /******* Instances are suffixed names *******/

  lemma SuffixedRefl(g: OrderGraph, s: seq<string>)
    ensures Suffixed(g, s, s)
  {
  }

  lemma SuffixedSameTail(g: OrderGraph, ls: seq<string>, rs: seq<string>, t: seq<string>)
    requires Suffixed(g, ls, rs)
    ensures Suffixed(g, ls + t, rs + t)
  {
    forall i | 0 <= i < |rs + t|
      ensures SegmentMatches(g, (ls + t)[i], (rs + t)[i], Join((ls + t)[..i + 1]))
    {
      if i < |rs| {
        assert (ls + t)[..i + 1] == ls[..i + 1];
      }
    }
  }

  lemma LastMatches(g: OrderGraph, seg: string, c: string, l: string)
    requires c != "" ==> c[0] == '_' && NamesStrategy(g, l)
    ensures SegmentMatches(g, seg, seg + c, l)
  {
    if c == "" {
      PlusNothing(seg);
    } else {
      assert seg + "_" <= seg + c;
    }
  }

  /** Only the last segment differs. */
  lemma SuffixedLast(g: OrderGraph, ls: seq<string>, rs: seq<string>, r: seq<string>)
    requires Suffixed(g, ls, rs) && ls != [] && |r| == |rs|
    requires forall i :: 0 <= i < |rs| - 1 ==> r[i] == rs[i]
    requires SegmentMatches(g, ls[|ls| - 1], r[|ls| - 1], Join(ls))
    ensures Suffixed(g, ls, r)
  {
    assert ls[..|ls| - 1 + 1] == ls;
    forall i | 0 <= i < |r| ensures SegmentMatches(g, ls[i], r[i], Join(ls[..i + 1])) {
      if i < |r| - 1 {
        assert SegmentMatches(g, ls[i], rs[i], Join(ls[..i + 1]));
      }
    }
  }

  /** A strategy's suffix goes on the last segment of its own unit's FQN. */
  lemma SuffixedOwn(g: OrderGraph, l: string, r: string, c: string)
    requires Suffixed(g, Split(l), Split(r)) && '.' !in c
    requires Split(l)[|Split(l)| - 1] == Split(r)[|Split(r)| - 1]
    requires c != "" ==> c[0] == '_' && NamesStrategy(g, l)
    ensures Suffixed(g, Split(l), Split(r + c))
  {
    SplitAppend(r, c);
    LengthenedIs(Split(r), c);
    JoinSplit(l);
    LastMatches(g, Split(l)[|Split(l)| - 1], c, l);
    SuffixedLast(g, Split(l), Split(r), Split(r + c));
  }

  /** Following both names by the same piece, which starts a segment. */
  lemma SuffixedPiece(g: OrderGraph, l: string, r: string, q: string)
    requires Suffixed(g, Split(l), Split(r)) && q != "" && q[0] == '.'
    ensures Suffixed(g, Split(l + q), Split(r + q))
    ensures Split(l + q)[|Split(l + q)| - 1] == Split(r + q)[|Split(r + q)| - 1]
  {
    SplitPiece(l, q);
    SplitPiece(r, q);
    SuffixedSameTail(g, Split(l), Split(r), Split(q[1..]));
    ConcatFront(Split(l), Split(q[1..]));
    ConcatFront(Split(r), Split(q[1..]));
  }

  /** The same piece after both names, or as both names. */
  lemma SuffixedBefore(g: OrderGraph, l: string, r: string, q: string)
    requires Suffixed(g, Split(l), Split(r)) && q != "" && (q[0] == '.' || (l == "" && r == ""))
    ensures Suffixed(g, Split(l + q), Split(r + q))
    ensures Split(l + q)[|Split(l + q)| - 1] == Split(r + q)[|Split(r + q)| - 1]
  {
    if q[0] == '.' {
      SuffixedPiece(g, l, r, q);
    } else {
      PlusNothing(q);
      SuffixedRefl(g, Split(q));
    }
  }

  /** A unit's own suffix is legal: it has no dot, and it names a strategy-bearing unit's instance. */
  lemma OwnSuffix(g: OrderGraph, p: Path, ch: Choice)
    requires ValidGraph(g) && IsNode(g.root, p) && IsChoice(g.root, p, -1, ch)
    ensures |ch| == |p| + 1 && '.' !in ch[|p|]
    ensures ch[|p|] != "" ==> ch[|p|][0] == '_' && IsNamed(At(g.root, p)) && NamesStrategy(g, BaseFqn(g.root, p))
  {
    ChoiceShape(g.root, p, -1, ch, |p|);
    assert p[..|p|] == p;
    if At(g.root, p).strat.Some? {
      StrategyIsNamed(g, p);
    }
  }

  /** A strategy-bearing unit is indexed under its own FQN. */
  lemma StrategyIsNamed(g: OrderGraph, p: Path)
    requires ValidGraph(g) && IsNode(g.root, p) && At(g.root, p).strat.Some?
    ensures IsNamed(At(g.root, p)) && NamesStrategy(g, BaseFqn(g.root, p))
  {
    assert LocalShape(At(g.root, p));
    assert IsNamed(At(g.root, p));
    assert BaseFqn(g.root, p) == At(g.root, p).fqn;
    assert g.byFqn[At(g.root, p).fqn] == p;
  }

  lemma InstanceStep(g: OrderGraph, p: Path, ch: Choice)
    requires ValidGraph(g) && IsNode(g.root, p) && IsChoice(g.root, p, -1, ch) && p != [] && |ch| == |p| + 1
    requires Suffixed(g, Split(BaseFqn(g.root, Up(p))), Split(Render(g.root, Up(p), ch[..|p|])))
    requires !Inside(g.root, Up(p)) ==> Render(g.root, Up(p), ch[..|p|]) == BaseFqn(g.root, Up(p)) == ""
    ensures Suffixed(g, Split(BaseFqn(g.root, p)), Split(Render(g.root, p, ch)))
  {
    var q, r, l := Piece(g.root, p), Render(g.root, Up(p), ch[..|p|]), BaseFqn(g.root, Up(p));
    OwnSuffix(g, p, ch);
    BaseStep(g.root, p);
    PieceStarts(g.root, p);
    NextPiece(g, l, r, q, ch[|p|]);
  }

  /** One piece and one suffix more. */
  lemma NextPiece(g: OrderGraph, l: string, r: string, q: string, c: string)
    requires Suffixed(g, Split(l), Split(r)) && (q == "" ==> c == "")
    requires q != "" && q[0] != '.' ==> l == "" && r == ""
    requires '.' !in c && (c != "" ==> c[0] == '_' && NamesStrategy(g, l + q))
    ensures Suffixed(g, Split(l + q), Split(r + q + c))
  {
    if q == "" {
      PlusNothing(r);
      PlusNothing(l);
    } else {
      SuffixedBefore(g, l, r, q);
      SuffixedOwn(g, l + q, r + q, c);
    }
  }

  lemma OutsideIsBare(g: OrderGraph, p: Path, ch: Choice)
    requires ValidGraph(g) && IsNode(g.root, p) && IsChoice(g.root, p, -1, ch) && |ch| == |p| + 1 && !Inside(g.root, p)
    requires p != [] && !Inside(g.root, Up(p)) ==> Render(g.root, Up(p), ch[..|p|]) == BaseFqn(g.root, Up(p)) == ""
    ensures Render(g.root, p, ch) == BaseFqn(g.root, p) == ""
  {
    OwnSuffix(g, p, ch);
    assert LocalName(g.root, p);
    if p != [] {
      BaseStep(g.root, p);
      PieceStarts(g.root, p);
    }
  }

  lemma {:induction false} InstanceSuffixed(g: OrderGraph, p: Path, ch: Choice)
    requires ValidGraph(g) && IsNode(g.root, p) && IsChoice(g.root, p, -1, ch)
    ensures Suffixed(g, Split(BaseFqn(g.root, p)), Split(Render(g.root, p, ch)))
    ensures !Inside(g.root, p) ==> Render(g.root, p, ch) == BaseFqn(g.root, p) == ""
    decreases |p|
  {
    OwnSuffix(g, p, ch);
    if p == [] {
      assert g.root.kind.Pipeline?;
      OutsideIsBare(g, p, ch);
      SuffixedRefl(g, Split(""));
    } else {
      InstanceSuffixed(g, Up(p), ch[..|p|]);
      InstanceStep(g, p, ch);
      if !Inside(g.root, p) {
        OutsideIsBare(g, p, ch);
      }
    }
  }

  lemma PieceStarts(root: Node, p: Path)
    requires WellFormed(root) && IsNode(root, p) && p != []
    ensures var q := Piece(root, p);
      (q == "" <==> At(root, p).kind.Parallel?) && (q == "" || q[0] == '.' || !Inside(root, Up(p)))
    ensures !Inside(root, p) ==> !Inside(root, Up(p)) && At(root, p).kind.Parallel?
  {
    assert LocalShape(At(root, Up(p)));
    if Inside(root, Up(p)) {
      InnerTail(root, Up(p));
    }
  }

  lemma SuffixedFirst(g: OrderGraph, l: string, r: string)
    requires Suffixed(g, Split(l), Split(r)) && l != "" && l[0] != '.'
    ensures r != "" && r[0] != '.'
  {
    assert Split(l)[0] != "";
    assert Split(r)[0] != "";
  }

  /******* What a lookup result says about the raw name *******/

  predicate LeadingDot(x: string) {
    x != "" && x[0] == '.'
  }

  /**
    Lookup soundness.  A raw name that resolves is, leading dots aside, the
    unit's FQN with "_..." suffixes on segments that end a strategy-bearing
    unit's FQN.  The segments line up one to one exactly when there is no
    leading dot.
  */
  lemma LookupIsSuffixedName(g: OrderGraph, x: string)
    requires ValidGraph(g) && LookupNode(g, x).Some?
    ensures var n := LookupNode(g, x).value;
      && IsNode(g.root, n) && IsNamed(At(g.root, n))
      && Suffixed(g, Split(At(g.root, n).fqn), Split(TrimDots(x)))
      && (|Split(x)| == |Split(At(g.root, n).fqn)| <==> !LeadingDot(x))
  {
    var root, n := g.root, LookupNode(g, x).value;
    assert "" !in g.byFqn by {
      if "" in g.byFqn { NamesStart(g, ""); }
    }
    if x in g.byFqn {
      NamesStart(g, x);
      SuffixedRefl(g, Split(x));
    } else if x in g.instByFqn {
      InstanceIsSuffixed(g, x);
    } else {
      WalkTrims(g, x, None);
      var t := TrimDots(x);
      assert t != "";
      SegmentsHaveNoDots(t);
      assert Split(t)[0] != "";
      var ms := WalkKeeps(g, Split(t), Cursor("", None), [], []);
      assert [] + Split(t) == Split(t);
      SplitJoin(ms);
      WalkLast(g, Split(x), Cursor("", None));
    }
  }

  lemma InstanceIsSuffixed(g: OrderGraph, x: string)
    requires ValidGraph(g) && x in g.instByFqn
    ensures var n := g.instByFqn[x];
      && IsNode(g.root, n) && IsNamed(At(g.root, n))
      && Suffixed(g, Split(At(g.root, n).fqn), Split(x))
      && !LeadingDot(x) && TrimDots(x) == x
  {
    var n := g.instByFqn[x];
    assert SoleEnumerator(g.root, g.byFqn, x, n);
    InstanceFqnsMembers(g.root, n);
    var j: nat :| Enumerates(g.root, g.byFqn, n, j, x);
    assert x in InstanceFqns(g.root, n).value;
    assert Rendered(g.root, n, -1, x);
    var ch :| IsChoice(g.root, n, -1, ch) && x == Render(g.root, n, ch);
    InstanceSuffixed(g, n, ch);
    NamesStart(g, At(g.root, n).fqn);
    SuffixedFirst(g, At(g.root, n).fqn, x);
  }

  /** The walk only ever remembers indexed units. */
  lemma {:induction false} WalkLast(g: OrderGraph, segs: seq<string>, c: Cursor)
    requires c.last.Some? ==> c.last.value in g.byFqn.Values
    ensures var r := Walk(g, segs, c); r.last.Some? ==> r.last.value in g.byFqn.Values
    decreases |segs|
  {
    if segs != [] {
      WalkLast(g, segs[1..], Advance(g, c, segs[0]));
    }
  }

  /** Enumerated instances that are nobody else's name resolve to their unit. */
  lemma InstanceLooksUp(g: OrderGraph, p: Path, x: string)
    requires ValidGraph(g) && x !in g.byFqn && SoleEnumerator(g.root, g.byFqn, x, p)
    ensures LookupNode(g, x) == Some(p)
  {
  }

  /** For a resolved target the pinned prefix exists exactly when the raw name has no leading dot. */
  lemma PinnedPrefixAligns(g: OrderGraph, x: string, d: nat)
    requires ValidGraph(g) && LookupNode(g, x).Some?
    requires var t := LookupNode(g, x).value;
      IsNode(g.root, t) && d <= |t| && IsNode(g.root, t[..d]) &&
      Inside(g.root, t[..d]) && !At(g.root, t[..d]).kind.Parallel?
    ensures var t := LookupNode(g, x).value;
      PinnedPrefix(x, At(g.root, t).fqn, At(g.root, t[..d]).fqn).Some? <==> !LeadingDot(x)
  {
    var root, t := g.root, LookupNode(g, x).value;
    LookupIsSuffixedName(g, x);
    PrefixOfLogical(root, t, d);
  }

  lemma {:induction false} WalkPlain(g: OrderGraph, segs: seq<string>, c: Cursor, ys: seq<string>)
    requires segs != [] && NoDotsIn(segs) && Signposted(g, ys, segs)
    requires c.cand == Join(ys) && (ys == [] ==> segs[0] != "") && (ys != [] ==> c.cand != "")
    requires Join(ys + segs) in g.byFqn
    ensures Walk(g, segs, c) == Cursor(Join(ys + segs), Some(g.byFqn[Join(ys + segs)]))
    decreases |segs|
  {
    var s := segs[0];
    if ys != [] { JoinAppend(ys, s); } else { assert ys + [s] == [s]; }
    SignpostedHead(g, ys, segs);
    NoUnderscore(s);
    var c' := Advance(g, c, s);
    assert c'.cand == Join(ys + [s]);
    Uncons(segs);
    Associates(ys, [s], segs[1..]);
    if |segs| == 1 {
      PlusNothing(ys + [s]);
    } else {
      WalkPlain(g, segs[1..], c', ys + [s]);
    }
  }

  /** Every segment with an underscore ends a registered name. */
  predicate Signposted(g: OrderGraph, ys: seq<string>, segs: seq<string>) {
    forall i :: 0 <= i < |segs| ==> '_' in segs[i] ==> Join(ys + segs[..i + 1]) in g.byFqn
  }

  lemma SignpostedHead(g: OrderGraph, ys: seq<string>, segs: seq<string>)
    requires Signposted(g, ys, segs) && segs != []
    ensures '_' in segs[0] ==> Join(ys + [segs[0]]) in g.byFqn
    ensures Signposted(g, ys + [segs[0]], segs[1..])
  {
    assert segs[..1] == [segs[0]];
    var rest := segs[1..];
    forall i | 0 <= i < |rest| && '_' in rest[i] ensures Join((ys + [segs[0]]) + rest[..i + 1]) in g.byFqn {
      assert rest[i] == segs[i + 1];
      assert segs[..i + 2] == [segs[0]] + rest[..i + 1];
      Associates(ys, [segs[0]], rest[..i + 1]);
    }
  }

  lemma {:induction false} NoUnderscore(s: string)
    ensures IndexOf(s, '_') > 0 ==> '_' in s
  {
  }

  lemma SignpostedSnoc(g: OrderGraph, segs: seq<string>, s: string)
    requires Signposted(g, [], segs) && ('_' in s ==> Join(segs + [s]) in g.byFqn)
    ensures Signposted(g, [], segs + [s])
  {
    var longer := segs + [s];
    forall i | 0 <= i < |longer| && '_' in longer[i] ensures Join([] + longer[..i + 1]) in g.byFqn {
      if i < |segs| {
        assert longer[..i + 1] == segs[..i + 1];
        assert longer[i] == segs[i];
      } else {
        assert longer[..i + 1] == longer;
        PlusNothing(longer);
      }
    }
  }

  /** A name extended by one dot-free segment. */
  lemma SignpostedName(g: OrderGraph, f: string, id: string)
    requires Signposted(g, [], Split(f)) && '.' !in id && ('_' in id ==> f + "." + id in g.byFqn)
    ensures Signposted(g, [], Split(f + "." + id))
  {
    SplitAtDot(f, id);
    SplitSingle(id);
    JoinSplit(f + "." + id);
    SignpostedSnoc(g, Split(f), id);
  }

  /** What a container puts between its name and its children's holds no underscore. */
  lemma SignpostedTails(g: OrderGraph, f: string)
    requires Signposted(g, [], Split(f))
    ensures Signposted(g, [], Split(f + ".steps"))
    ensures Signposted(g, [], Split(f + ".spec.execution.steps"))
    ensures Signposted(g, [], Split(f + ".spec.execution.rollbackSteps"))
  {
    TailTexts(f);
    SignpostedName(g, f, "steps");
    SignpostedList(g, f, "steps");
    SignpostedList(g, f, "rollbackSteps");
  }

  lemma SignpostedList(g: OrderGraph, f: string, list: string)
    requires Signposted(g, [], Split(f)) && '.' !in list && '_' !in list
    ensures Signposted(g, [], Split(f + "." + "spec" + "." + "execution" + "." + list))
  {
    SignpostedName(g, f, "spec");
    SignpostedName(g, f + "." + "spec", "execution");
    SignpostedName(g, f + "." + "spec" + "." + "execution", list);
  }

  /** No identifier of a named unit holds a dot. */
  ghost predicate DotFree(root: Node) {
    forall p {:trigger IsNamed(At(root, p))} :: IsNode(root, p) && IsNamed(At(root, p)) ==> '.' !in At(root, p).id
  }

  /** A single segment without underscore needs no sign. */
  lemma PlainSegment(g: OrderGraph, s: string)
    requires '_' !in s && '.' !in s
    ensures Signposted(g, [], Split(s))
  {
    SplitSingle(s);
  }

  lemma NoUnderscores(g: OrderGraph)
    ensures Signposted(g, [], Split("pipeline" + "." + "stages"))
  {
    PlainSegment(g, "pipeline");
    SignpostedName(g, "pipeline", "stages");
  }

  lemma RootSignposted(g: OrderGraph)
    requires ValidGraph(g)
    ensures Signposted(g, [], Split(BaseFqn(g.root, [])))
    ensures Signposted(g, [], Split(BaseFqn(g.root, []) + KidTail(g.root, [])))
  {
    assert LocalName(g.root, []);
    PlainSegment(g, "");
    NoUnderscores(g);
    PipelineStages();
  }

  /** With dot-free identifiers every name, and every list prefix, is signposted. */
  lemma {:induction false} NamesAreSignposted(g: OrderGraph, p: Path)
    requires ValidGraph(g) && DotFree(g.root) && IsNode(g.root, p)
    ensures Signposted(g, [], Split(BaseFqn(g.root, p)))
    ensures Signposted(g, [], Split(BaseFqn(g.root, p) + KidTail(g.root, p)))
    decreases |p|
  {
    if p == [] {
      RootSignposted(g);
    } else {
      NamesAreSignposted(g, Up(p));
      OneNameMore(g, p);
      OneListMore(g, p);
    }
  }

  lemma OneNameMore(g: OrderGraph, p: Path)
    requires ValidGraph(g) && DotFree(g.root) && IsNode(g.root, p) && p != []
    requires Signposted(g, [], Split(BaseFqn(g.root, Up(p))))
    requires Signposted(g, [], Split(BaseFqn(g.root, Up(p)) + KidTail(g.root, Up(p))))
    ensures Signposted(g, [], Split(BaseFqn(g.root, p)))
  {
    var n, base, tail := At(g.root, p), BaseFqn(g.root, Up(p)), KidTail(g.root, Up(p));
    BaseStep(g.root, p);
    assert LocalShape(At(g.root, Up(p)));
    if n.kind.Parallel? {
      PlusNothing(base);
    } else if n.kind.Rollback? {
      SignpostedTails(g, base);
    } else {
      assert IsNamed(n);
      Associates(base, tail, "." + n.id);
      Associates(base + tail, ".", n.id);
      Associates(tail, ".", n.id);
      SignpostedName(g, base + tail, n.id);
    }
  }

  lemma OneListMore(g: OrderGraph, p: Path)
    requires ValidGraph(g) && IsNode(g.root, p) && p != []
    requires Signposted(g, [], Split(BaseFqn(g.root, p)))
    requires Signposted(g, [], Split(BaseFqn(g.root, Up(p)) + KidTail(g.root, Up(p))))
    ensures Signposted(g, [], Split(BaseFqn(g.root, p) + KidTail(g.root, p)))
  {
    PlusNothing(BaseFqn(g.root, p));
    assert LocalShape(At(g.root, Up(p)));
    if At(g.root, p).kind.Stage? || At(g.root, p).kind.StepGroup? {
      SignpostedTails(g, BaseFqn(g.root, p));
    }
  }


  /**
    A leading dot is dropped, not rejected: "." before a unit's FQN resolves to that
    unit although the segments do not line up.
  */
  lemma LeadingDotStillResolves(g: OrderGraph, f: string)
    requires ValidGraph(g) && f in g.byFqn && DotFree(g.root)
    ensures LookupNode(g, "." + f) == Some(g.byFqn[f])
    ensures |Split("." + f)| == |Split(f)| + 1
  {
    NamesStart(g, f);
    assert "" !in g.byFqn by { if "" in g.byFqn { NamesStart(g, ""); } }
    assert "." + f !in g.byFqn by { if "." + f in g.byFqn { NamesStart(g, "." + f); } }
    NoDottedInstance(g, f);
    WalkTrims(g, "." + f, None);
    assert ("." + f)[1..] == f;
    SegmentsHaveNoDots(f);
    NamesAreSignposted(g, g.byFqn[f]);
    JoinSplit(f);
    PlusNothing(Split(f));
    assert Split(f)[0] != "";
    WalkPlain(g, Split(f), Cursor("", None), []);
  }

  /** No instance name starts with a dot. */
  lemma NoDottedInstance(g: OrderGraph, f: string)
    requires ValidGraph(g)
    ensures "." + f !in g.instByFqn
  {
    if "." + f in g.instByFqn {
      InstanceIsSuffixed(g, "." + f);
    }
  }
}
