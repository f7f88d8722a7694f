/**
  Which runtime instances a predecessor contributes to a step's gate
  (verifier/pipeline/graph.go: instanceFQNs, ancestorInstances, pinnedPrefix).
*/
module Instances {
  import opened Common
  import opened Strategy
  import opened Graph
  import opened Text
  import opened Naming

  /******* Chains of enclosing units *******/

  predicate HasStrategy(root: Node, p: Path)
    requires IsNode(root, p)
    decreases |p|
  {
    At(root, p).strat.Some? || (p != [] && HasStrategy(root, Up(p)))
  }

  predicate StrategyExcluded(root: Node, p: Path)
    requires IsNode(root, p)
    decreases |p|
  {
    (At(root, p).strat.Some? && At(root, p).strat.value.excluded) || (p != [] && StrategyExcluded(root, Up(p)))
  }

  /** Why a fan-out cannot be enumerated: the innermost non-enumerable strategy's cause. */
  function StrategyStatus(root: Node, p: Path): FanoutStatus
    requires IsNode(root, p)
    decreases |p|
  {
    var s := At(root, p).strat;
    if s.Some? && !s.value.known && !s.value.excluded then
      if s.value.status.Enumerable? || s.value.status.Unset? then RuntimeInput else s.value.status
    else if p == [] then Enumerable
    else StrategyStatus(root, Up(p))
  }

  /** Every strategy deeper than `lo` on the way to `p` is enumerable. */
  predicate AllKnown(root: Node, p: Path, lo: int)
    requires IsNode(root, p)
    decreases |p|
  {
    |p| <= lo ||
    ((At(root, p).strat.Some? ==> At(root, p).strat.value.known) && (p == [] || AllKnown(root, Up(p), lo)))
  }

  ghost predicate WellStrategised(root: Node) {
    forall p {:trigger At(root, p).strat} :: IsNode(root, p) && At(root, p).strat.Some? ==>
      ValidSpec(At(root, p).strat.value)
  }

  /******* Enumeration *******/

  /** One strategy of a chain: the FQN boundary it suffixes, and its suffixes. */
  datatype Level = Level(prefix: string, suffixes: seq<string>)

  /** The strategies deeper than `lo`, innermost first. */
  function Levels(root: Node, p: Path, lo: int): seq<Level>
    requires IsNode(root, p)
    decreases |p|
  {
    if |p| <= lo then []
    else
      var n := At(root, p);
      (if n.strat.Some? then [Level(n.fqn, n.strat.value.suffixes)] else [])
      + (if p == [] then [] else Levels(root, Up(p), lo))
  }

  /** `base` with `suf` inserted after its prefix. */
  function Splice(prefix: string, base: string, suf: string): string {
    if |prefix| <= |base| then prefix + suf + base[|prefix|..] else prefix + suf
  }

  function Splicer(prefix: string): (string, string) -> string {
    (base, suf) => Splice(prefix, base, suf)
  }

  /** Every level multiplies the list by its suffixes. */
  function FanOut(levels: seq<Level>, acc: seq<string>): seq<string> {
    if levels == [] then acc
    else FanOut(levels[1..], Cross(acc, levels[0].suffixes, Splicer(levels[0].prefix)))
  }

  /** All runtime instances of a unit, or None when there is no strategy or one is not enumerable. */
  function InstanceFqns(root: Node, p: Path): Option<seq<string>>
    requires IsNode(root, p)
  {
    if !AllKnown(root, p, -1) || !HasStrategy(root, p) then None
    else Some(FanOut(Levels(root, p, -1), [At(root, p).fqn]))
  }

  /** The prefix of a raw target FQN that corresponds to the logical prefix `lca`. */
  function PinnedPrefix(raw: string, logical: string, lca: string): Option<string> {
    var rawSegs, logSegs := Split(raw), Split(logical);
    var k := Dots(lca) + 1;
    if |rawSegs| != |logSegs| || k > |rawSegs| || Join(logSegs[..k]) != lca then None
    else Some(Join(rawSegs[..k]))
  }

  /** `pinned` in place of each name's first `cut` characters. */
  function Repin(names: seq<string>, pinned: string, cut: nat): (r: seq<string>)
    ensures |r| == |names|
    ensures forall i :: 0 <= i < |r| ==> r[i] == (if cut <= |names[i]| then pinned + names[i][cut..] else pinned)
  {
    seq(|names|, i requires 0 <= i < |names| => if cut <= |names[i]| then pinned + names[i][cut..] else pinned)
  }

  /** The instances of predecessor `p` that the target `t`, requested as `raw`, waits on. */
  function AncestorInstances(root: Node, p: Path, t: Path, raw: string): Option<seq<string>>
    requires IsNode(root, p) && IsNode(root, t)
  {
    var d := LcaDepth(p, t);
    PrefixIsNode(root, p, d);
    var lca := p[..d];
    var shared := HasStrategy(root, lca);
    if !AllKnown(root, p, d) || (Levels(root, p, d) == [] && !shared) then None
    else
      var fanned := FanOut(Levels(root, p, d), [At(root, p).fqn]);
      if !shared then Some(fanned)
      else
        var pinned := PinnedPrefix(raw, At(root, t).fqn, At(root, lca).fqn);
        if pinned.None? || pinned.value == At(root, lca).fqn then InstanceFqns(root, p)
        else Some(Repin(fanned, pinned.value, |At(root, lca).fqn|))
  }

  /******* What the enumeration contains *******/

  /** `f` is an instance name of `p` that carries suffixes below depth `lo` only. */
  ghost predicate Rendered(root: Node, p: Path, lo: int, f: string)
    requires IsNode(root, p)
  {
    exists ch :: IsChoice(root, p, lo, ch) && f == Render(root, p, ch)
  }

  lemma SpliceInserts(name: string, below: string, suf: string)
    ensures Splice(name, (name + "") + below, suf) == (name + suf) + below
  {
    PlusNothing(name);
    WholeConcat(name, below);
  }

  /** A unit's own suffix comes last. */
  lemma RenderOwnSuffix(root: Node, c: Path, ch: Choice)
    requires WellShaped(root) && WellNamed(root) && IsNode(root, c) && |ch| == |c| + 1
    requires At(root, c).strat.Some?
    requires forall i :: 0 <= i < |c| ==> ch[i] == ""
    ensures Render(root, c, ch) == At(root, c).fqn + ch[|c|]
  {
    assert LocalShape(At(root, c));
    assert c != [] by { assert root.kind.Pipeline?; }
    RenderLogical(root, Up(c), ch[..|c|]);
    BaseStep(root, c);
  }

  /** A name without suffixes above depth `d` starts with that unit's FQN and its suffix. */
  lemma RenderFrom(root: Node, p: Path, d: nat, ch: Choice)
    requires WellShaped(root) && WellNamed(root) && IsNode(root, p) && d <= |p| && |ch| == |p| + 1
    requires forall i :: 0 <= i < d ==> ch[i] == ""
    requires IsNode(root, p[..d]) && At(root, p[..d]).strat.Some?
    ensures Render(root, p, ch) == (At(root, p[..d]).fqn + ch[d]) + RenderBelow(root, p, ch, d)
  {
    RenderSplits(root, p, ch, d);
    RenderOwnSuffix(root, p[..d], ch[..d + 1]);
  }

  lemma RenderUpdated(root: Node, p: Path, d: nat, ch: Choice, suf: string)
    requires WellShaped(root) && WellNamed(root) && IsNode(root, p) && d <= |p| && |ch| == |p| + 1
    requires forall i :: 0 <= i < d ==> ch[i] == ""
    requires IsNode(root, p[..d]) && At(root, p[..d]).strat.Some?
    ensures Render(root, p, ch[d := suf]) == (At(root, p[..d]).fqn + suf) + RenderBelow(root, p, ch, d)
  {
    RenderFrom(root, p, d, ch[d := suf]);
    RenderBelowAgrees(root, p, ch, ch[d := suf], d);
  }

  /** Replacing the choice at depth `d` inserts the suffix at that unit's boundary. */
  lemma SpliceRender(root: Node, p: Path, d: nat, ch: Choice, suf: string)
    requires WellShaped(root) && WellNamed(root) && IsNode(root, p) && d <= |p| && |ch| == |p| + 1
    requires forall i :: 0 <= i <= d ==> ch[i] == ""
    requires IsNode(root, p[..d]) && At(root, p[..d]).strat.Some?
    ensures Render(root, p, ch[d := suf]) == Splice(At(root, p[..d]).fqn, Render(root, p, ch), suf)
  {
    RenderFrom(root, p, d, ch);
    RenderUpdated(root, p, d, ch, suf);
    SpliceInserts(At(root, p[..d]).fqn, RenderBelow(root, p, ch, d), suf);
  }

  /** Setting or clearing the choice at depth `d` moves the threshold. */
  lemma ChangeChoice(root: Node, p: Path, lo: int, lo': int, ch: Choice, suf: string)
    requires IsNode(root, p) && IsChoice(root, p, lo, ch)
    requires lo' == lo - 1 || lo' == lo + 1
    requires var d := if lo' < lo then lo else lo';
      0 <= d <= |p| && IsNode(root, p[..d]) && |ch| == |p| + 1 &&
      if lo' < lo then suf in SuffixesAt(At(root, p[..d])) else suf == ""
    ensures var d := if lo' < lo then lo else lo'; IsChoice(root, p, lo', ch[d := suf])
  {
    var d := if lo' < lo then lo else lo';
    var ch' := ch[d := suf];
    forall i: nat | i <= |p|
      ensures IsNode(root, p[..i]) && if i > lo' then ch'[i] in SuffixesAt(At(root, p[..i])) else ch'[i] == ""
    {
      ChoiceAt(root, p, lo, ch, i);
    }
    ChoiceFromParts(root, p, lo', ch');
  }

  /** A name of the next level chooses at depth `d`. */
  lemma LevelChooses(root: Node, p: Path, d: nat, base: string, suf: string)
    requires WellShaped(root) && WellNamed(root) && IsNode(root, p) && d <= |p|
    requires IsNode(root, p[..d]) && At(root, p[..d]).strat.Some? && suf in At(root, p[..d]).strat.value.suffixes
    requires Rendered(root, p, d, base)
    ensures Rendered(root, p, d - 1, Splice(At(root, p[..d]).fqn, base, suf))
  {
    var ch :| IsChoice(root, p, d, ch) && base == Render(root, p, ch);
    forall i: nat | i <= d ensures |ch| == |p| + 1 && ch[i] == "" { ChoiceAt(root, p, d, ch, i); }
    SpliceRender(root, p, d, ch, suf);
    ChangeChoice(root, p, d, d - 1, ch, suf);
  }

  /** A name that chooses at depth `d` comes from one that does not. */
  lemma ChosenHasBase(root: Node, p: Path, d: nat, f: string) returns (base: string, suf: string)
    requires WellShaped(root) && WellNamed(root) && IsNode(root, p) && d <= |p|
    requires IsNode(root, p[..d]) && At(root, p[..d]).strat.Some? && Rendered(root, p, d - 1, f)
    ensures Rendered(root, p, d, base) && suf in At(root, p[..d]).strat.value.suffixes
    ensures f == Splice(At(root, p[..d]).fqn, base, suf)
  {
    var ch :| IsChoice(root, p, d - 1, ch) && f == Render(root, p, ch);
    ChoiceAt(root, p, d - 1, ch, d);
    var ch0 := ch[d := ""];
    ChangeChoice(root, p, d - 1, d, ch, "");
    forall i: nat | i <= d ensures ch0[i] == "" { ChoiceAt(root, p, d, ch0, i); }
    SpliceRender(root, p, d, ch0, ch[d]);
    assert ch0[d := ch[d]] == ch;
    base, suf := Render(root, p, ch0), ch[d];
  }

  /** One level of the fan-out, in terms of choices. */
  lemma FanOutLevel(root: Node, p: Path, d: nat, acc: seq<string>, f: string)
    requires WellShaped(root) && WellNamed(root) && IsNode(root, p) && d <= |p|
    requires IsNode(root, p[..d]) && At(root, p[..d]).strat.Some?
    requires forall g :: g in acc <==> Rendered(root, p, d, g)
    ensures var c := At(root, p[..d]);
      f in Cross(acc, c.strat.value.suffixes, Splicer(c.fqn)) <==> Rendered(root, p, d - 1, f)
  {
    var c := At(root, p[..d]);
    if f in Cross(acc, c.strat.value.suffixes, Splicer(c.fqn)) {
      var base, suf := CrossElim(acc, c.strat.value.suffixes, Splicer(c.fqn), f);
      LevelChooses(root, p, d, base, suf);
    }
    if Rendered(root, p, d - 1, f) {
      var base, suf := ChosenHasBase(root, p, d, f);
      CrossIntro(acc, c.strat.value.suffixes, Splicer(c.fqn), base, suf);
    }
  }

  /** The list after the unit's own level. */
  function AfterLevel(n: Node, acc: seq<string>): seq<string> {
    if n.strat.Some? then Cross(acc, n.strat.value.suffixes, Splicer(n.fqn)) else acc
  }

  lemma FanOutStep(root: Node, q: Path, lo: int, acc: seq<string>)
    requires IsNode(root, q) && |q| > lo
    ensures FanOut(Levels(root, q, lo), acc)
         == FanOut(if q == [] then [] else Levels(root, Up(q), lo), AfterLevel(At(root, q), acc))
  {
    var n, rest := At(root, q), if q == [] then [] else Levels(root, Up(q), lo);
    if n.strat.Some? {
      HeadTail(Level(n.fqn, n.strat.value.suffixes), rest);
    } else {
      PlusNothing(rest);
    }
  }

  /** The list holds exactly the names that choose deeper than `lo` only. */
  ghost predicate ListsRendered(root: Node, p: Path, lo: int, names: seq<string>)
    requires IsNode(root, p)
  {
    forall f :: f in names <==> Rendered(root, p, lo, f)
  }

  lemma LevelMembers(root: Node, p: Path, d: nat, acc: seq<string>)
    requires WellShaped(root) && WellNamed(root) && IsNode(root, p) && d <= |p| && IsNode(root, p[..d])
    requires ListsRendered(root, p, d, acc)
    ensures ListsRendered(root, p, d - 1, AfterLevel(At(root, p[..d]), acc))
  {
    forall f ensures f in AfterLevel(At(root, p[..d]), acc) <==> Rendered(root, p, d - 1, f) {
      if At(root, p[..d]).strat.Some? {
        FanOutLevel(root, p, d, acc, f);
      } else {
        NoLevel(root, p, d, f);
      }
    }
  }

  lemma FanOutFrom(root: Node, p: Path, d: nat, lo: int, acc: seq<string>)
    requires IsNode(root, p) && d <= |p| && d > lo && IsNode(root, p[..d])
    ensures d > 0 ==> IsNode(root, p[..d - 1])
    ensures FanOut(Levels(root, p[..d], lo), acc)
         == FanOut(if d == 0 then [] else Levels(root, p[..d - 1], lo), AfterLevel(At(root, p[..d]), acc))
  {
    FanOutStep(root, p[..d], lo, acc);
    if d > 0 {
      UpOfPrefix(p, d);
    }
  }

  /** Fanning out over the strategies deeper than `lo` yields exactly the names that choose there. */
  lemma {:induction false} FanOutMembers(root: Node, p: Path, d: nat, lo: int, acc: seq<string>)
    requires WellShaped(root) && WellNamed(root) && IsNode(root, p) && -1 <= lo <= d <= |p|
    requires IsNode(root, p[..d])
    requires ListsRendered(root, p, d, acc)
    ensures ListsRendered(root, p, lo, FanOut(Levels(root, p[..d], lo), acc))
    decreases d - lo
  {
    if d > lo {
      LevelMembers(root, p, d, acc);
      FanOutFrom(root, p, d, lo, acc);
      if d > 0 {
        FanOutMembers(root, p, d - 1, lo, AfterLevel(At(root, p[..d]), acc));
      }
    }
  }

  lemma UpOfPrefix(p: Path, d: nat)
    requires 0 < d <= |p|
    ensures Up(p[..d]) == p[..d - 1]
  {
  }

  lemma NoLevel(root: Node, p: Path, d: nat, f: string)
    requires IsNode(root, p) && d <= |p| && IsNode(root, p[..d]) && At(root, p[..d]).strat.None?
    ensures Rendered(root, p, d, f) <==> Rendered(root, p, d - 1, f)
  {
    if Rendered(root, p, d, f) {
      var ch :| IsChoice(root, p, d, ch) && f == Render(root, p, ch);
      ChoiceAt(root, p, d, ch, d);
      ChangeChoice(root, p, d, d - 1, ch, "");
      assert ch[d := ""] == ch;
    }
    if Rendered(root, p, d - 1, f) {
      var ch :| IsChoice(root, p, d - 1, ch) && f == Render(root, p, ch);
      ChoiceAt(root, p, d - 1, ch, d);
      ChangeChoice(root, p, d - 1, d, ch, "");
      assert ch[d := ""] == ch;
    }
  }

  /******* Choices *******/

  /** What every built graph satisfies. */
  ghost predicate WellFormed(root: Node) {
    WellShaped(root) && WellNamed(root) && WellStrategised(root)
  }

  /** A unit that is registered under its own FQN. */
  predicate IsNamed(n: Node) {
    n.kind.Stage? || n.kind.StepGroup? || n.kind.Step?
  }

  /** The two choices coincide at and above depth `d`. */
  predicate Agree(ch: Choice, cx: Choice, d: nat) {
    d < |ch| && d < |cx| && ch[..d + 1] == cx[..d + 1]
  }

  /** `f` is a full instance name of `p` with the suffixes of `cx` at and above depth `d`. */
  ghost predicate InstanceAgreeing(root: Node, p: Path, cx: Choice, d: nat, f: string)
    requires IsNode(root, p)
  {
    exists ch :: IsChoice(root, p, -1, ch) && Agree(ch, cx, d) && f == Render(root, p, ch)
  }

  lemma AgreeAt(ch: Choice, cx: Choice, d: nat, i: nat)
    requires Agree(ch, cx, d) && i <= d
    ensures ch[i] == cx[i] && Agree(ch, cx, i)
  {
    assert ch[i] == ch[..d + 1][i] == cx[..d + 1][i] == cx[i];
    assert ch[..i + 1] == ch[..d + 1][..i + 1] == cx[..d + 1][..i + 1] == cx[..i + 1];
  }

  /** Suffixes have the right shape, and are there exactly where a strategy is. */
  lemma ChoiceShape(root: Node, p: Path, lo: int, ch: Choice, i: nat)
    requires WellFormed(root) && IsNode(root, p) && IsChoice(root, p, lo, ch) && i <= |p|
    ensures |ch| == |p| + 1 && IsNode(root, p[..i])
    ensures '.' !in ch[i]
    ensures ch[i] == "" <==> i <= lo || At(root, p[..i]).strat.None?
    ensures ch[i] != "" ==> ch[i][0] == '_'
  {
    ChoiceAt(root, p, lo, ch, i);
    if At(root, p[..i]).strat.Some? {
      assert ValidSpec(At(root, p[..i]).strat.value);
    }
  }

  /** Rendering adds no segment. */
  lemma {:induction false} RenderDots(root: Node, p: Path, lo: int, ch: Choice)
    requires WellFormed(root) && IsNode(root, p) && IsChoice(root, p, lo, ch)
    ensures Dots(Render(root, p, ch)) == Dots(BaseFqn(root, p))
    decreases |p|
  {
    ChoiceShape(root, p, lo, ch, |p|);
    NoDots(ch[|p|]);
    if p == [] {
      assert LocalName(root, p);
    } else {
      RenderDots(root, Up(p), lo, ch[..|p|]);
      BaseStep(root, p);
      var front := Render(root, Up(p), ch[..|p|]);
      DotsConcat(front + Piece(root, p), ch[|p|]);
      DotsConcat(front, Piece(root, p));
      DotsConcat(BaseFqn(root, Up(p)), Piece(root, p));
    }
  }

  /** Rendering lengthens the name when some strategy applies. */
  lemma {:induction false} RenderLonger(root: Node, p: Path, ch: Choice)
    requires WellFormed(root) && IsNode(root, p) && IsChoice(root, p, -1, ch)
    ensures |Render(root, p, ch)| >= |BaseFqn(root, p)| + if HasStrategy(root, p) then 1 else 0
    decreases |p|
  {
    ChoiceShape(root, p, -1, ch, |p|);
    assert p[..|p|] == p;
    if p == [] {
      assert LocalName(root, p);
    } else {
      RenderLonger(root, Up(p), ch[..|p|]);
      BaseStep(root, p);
    }
  }

  /** `p` is, or lies in, a unit with an FQN of its own. */
  predicate Inside(root: Node, p: Path)
    requires IsNode(root, p)
    decreases |p|
  {
    (!At(root, p).kind.Pipeline? && !At(root, p).kind.Parallel?) || (p != [] && Inside(root, Up(p)))
  }

  lemma {:induction false} StrategyIsInside(root: Node, p: Path)
    requires WellShaped(root) && IsNode(root, p) && HasStrategy(root, p)
    ensures Inside(root, p)
    decreases |p|
  {
    assert LocalShape(At(root, p));
    if At(root, p).strat.None? {
      StrategyIsInside(root, Up(p));
    }
  }

  /** Inside a named unit every piece starts a new segment. */
  lemma {:induction false} InnerTail(root: Node, p: Path)
    requires WellShaped(root) && IsNode(root, p) && Inside(root, p)
    ensures KidTail(root, p) == "" || KidTail(root, p)[0] == '.'
    decreases |p|
  {
    if p != [] {
      assert LocalShape(At(root, Up(p)));
      if At(root, p).kind.Parallel? {
        InnerTail(root, Up(p));
      }
    }
  }

  lemma {:induction false} HasStrategyBelow(root: Node, p: Path, d: nat)
    requires IsNode(root, p) && d <= |p| && IsNode(root, p[..d]) && HasStrategy(root, p[..d])
    ensures HasStrategy(root, p)
    decreases |p|
  {
    if d < |p| {
      assert Up(p)[..d] == p[..d];
      HasStrategyBelow(root, Up(p), d);
    } else {
      assert p[..d] == p;
    }
  }

  /** Nothing, or the start of a new segment. */
  predicate OpensSegment(s: string) {
    s == "" || s[0] == '.'
  }

  lemma OpensConcat(a: string, b: string)
    requires OpensSegment(a) && (a == "" ==> OpensSegment(b))
    ensures OpensSegment(a + b) && (a + b == "" ==> a == "" && b == "")
  {
    if a == "" {
      PlusNothing(b);
    }
  }

  lemma PieceOpens(root: Node, p: Path)
    requires WellShaped(root) && IsNode(root, p) && p != [] && Inside(root, Up(p))
    ensures OpensSegment(Piece(root, p)) && (Piece(root, p) == "" ==> At(root, p).kind.Parallel?)
  {
    if !At(root, p).kind.Parallel? && !At(root, p).kind.Rollback? {
      InnerTail(root, Up(p));
      OpensConcat(KidTail(root, Up(p)), ".");
      OpensConcat(KidTail(root, Up(p)) + ".", At(root, p).id);
    }
  }

  lemma ParallelHasNoSuffix(root: Node, p: Path, lo: int, ch: Choice)
    requires WellFormed(root) && IsNode(root, p) && IsChoice(root, p, lo, ch) && |ch| == |p| + 1
    requires At(root, p).kind.Parallel?
    ensures ch[|p|] == ""
  {
    ChoiceShape(root, p, lo, ch, |p|);
    assert p[..|p|] == p;
    assert LocalShape(At(root, p));
  }

  lemma {:induction false} BelowStartsSegment(root: Node, p: Path, lo: int, ch: Choice, d: nat)
    requires WellFormed(root) && IsNode(root, p) && IsChoice(root, p, lo, ch) && d <= |p| && |ch| == |p| + 1
    requires IsNode(root, p[..d]) && Inside(root, p[..d])
    ensures OpensSegment(RenderBelow(root, p, ch, d))
    ensures Inside(root, p)
    decreases |p|
  {
    if d < |p| {
      assert Up(p)[..d] == p[..d];
      BelowStartsSegment(root, Up(p), lo, ch[..|p|], d);
      PieceOpens(root, p);
      var front := RenderBelow(root, Up(p), ch[..|p|], d);
      OpensConcat(front, Piece(root, p));
      if At(root, p).kind.Parallel? {
        ParallelHasNoSuffix(root, p, lo, ch);
      }
      OpensConcat(front + Piece(root, p), ch[|p|]);
    } else {
      assert p[..d] == p;
    }
  }

  function Zeros(n: nat): (ch: Choice)
    ensures |ch| == n && forall i :: 0 <= i < n ==> ch[i] == ""
  {
    seq(n, i => "")
  }

  lemma ZerosIsChoice(root: Node, p: Path)
    requires IsNode(root, p)
    ensures IsChoice(root, p, |p|, Zeros(|p| + 1))
  {
    var ch := Zeros(|p| + 1);
    forall i: nat | i <= |p| ensures IsNode(root, p[..i]) {
      PrefixIsNode(root, p, i);
    }
    ChoiceFromParts(root, p, |p|, ch);
  }

  /** The pinned prefix of a full instance FQN is its rendering down to the common ancestor. */
  lemma PinnedPrefixOfInstance(root: Node, t: Path, lo: int, cx: Choice, d: nat)
    requires WellFormed(root) && IsNode(root, t) && IsChoice(root, t, lo, cx) && d <= |t| && |cx| == |t| + 1
    requires IsNode(root, t[..d]) && Inside(root, t[..d]) && !At(root, t[..d]).kind.Parallel?
    requires !At(root, t).kind.Parallel?
    ensures PinnedPrefix(Render(root, t, cx), At(root, t).fqn, At(root, t[..d]).fqn)
         == Some(Render(root, t[..d], cx[..d + 1]))
  {
    PrefixOfInstance(root, t, lo, cx, d);
    PrefixOfLogical(root, t, d);
  }

  /** The logical FQN continues that of every enclosing named unit. */
  lemma PrefixOfLogical(root: Node, t: Path, d: nat)
    requires WellFormed(root) && IsNode(root, t) && d <= |t|
    requires IsNode(root, t[..d]) && Inside(root, t[..d])
    ensures var raw := BaseFqn(root, t);
      var k := Dots(BaseFqn(root, t[..d])) + 1;
      |Split(raw)| == Dots(raw) + 1 && k <= |Split(raw)| && Join(Split(raw)[..k]) == BaseFqn(root, t[..d])
  {
    ZerosIsChoice(root, t);
    var z := Zeros(|t| + 1);
    PrefixOfInstance(root, t, |t|, z, d);
    RenderLogical(root, t, z);
    RenderLogical(root, t[..d], z[..d + 1]);
  }

  lemma PrefixSegments(a: string, b: string)
    requires OpensSegment(b)
    ensures |Split(a + b)| == Dots(a + b) + 1 && Dots(a) + 1 <= |Split(a + b)|
    ensures Join(Split(a + b)[..Dots(a) + 1]) == a
  {
    SplitPrefix(a, b);
    SplitCount(a + b);
  }

  lemma PrefixOfInstance(root: Node, t: Path, lo: int, cx: Choice, d: nat)
    requires WellFormed(root) && IsNode(root, t) && IsChoice(root, t, lo, cx) && d <= |t| && |cx| == |t| + 1
    requires IsNode(root, t[..d]) && Inside(root, t[..d])
    ensures var raw := Render(root, t, cx);
      var k := Dots(BaseFqn(root, t[..d])) + 1;
      |Split(raw)| == Dots(BaseFqn(root, t)) + 1 && k <= |Split(raw)| &&
      Join(Split(raw)[..k]) == Render(root, t[..d], cx[..d + 1])
  {
    PrefixDots(root, t, lo, cx, d);
    RenderDots(root, t, lo, cx);
    RenderSplits(root, t, cx, d);
    BelowStartsSegment(root, t, lo, cx, d);
    PrefixSegments(Render(root, t[..d], cx[..d + 1]), RenderBelow(root, t, cx, d));
  }

  lemma PrefixDots(root: Node, t: Path, lo: int, cx: Choice, d: nat)
    requires WellFormed(root) && IsNode(root, t) && IsChoice(root, t, lo, cx) && d <= |t| && |cx| == |t| + 1
    requires IsNode(root, t[..d])
    ensures Dots(Render(root, t[..d], cx[..d + 1])) == Dots(BaseFqn(root, t[..d]))
  {
    CutChoice(root, t, lo, cx, d);
    RenderDots(root, t[..d], lo, cx[..d + 1]);
  }

  /** A choice restricted to an enclosing unit. */
  lemma {:induction false} CutChoice(root: Node, p: Path, lo: int, ch: Choice, d: nat)
    requires IsNode(root, p) && IsChoice(root, p, lo, ch) && d <= |p|
    ensures |ch| == |p| + 1 && IsNode(root, p[..d]) && IsChoice(root, p[..d], lo, ch[..d + 1])
    decreases |p|
  {
    if d == |p| {
      assert p[..d] == p && ch[..d + 1] == ch;
    } else {
      CutChoice(root, Up(p), lo, ch[..|p|], d);
      assert Up(p)[..d] == p[..d] && ch[..|p|][..d + 1] == ch[..d + 1];
    }
  }

  /** Suffixes of `cx` at and above depth `d`, those of `ch` below it. */
  function Graft(cx: Choice, ch: Choice, d: nat): Choice
    requires d < |cx| && d < |ch|
  {
    cx[..d + 1] + ch[d + 1..]
  }

  lemma GraftChoice(root: Node, t: Path, cx: Choice, lo: int, p: Path, ch: Choice, lo': int, d: nat, lo'': int)
    requires IsNode(root, t) && IsNode(root, p) && d <= |t| && d <= |p| && t[..d] == p[..d]
    requires IsChoice(root, t, lo, cx) && IsChoice(root, p, lo', ch)
    requires |cx| == |t| + 1 && |ch| == |p| + 1
    requires (lo'' == lo || (d <= lo && d <= lo'')) && (lo'' == lo' || (lo' <= d && lo'' <= d))
    ensures IsChoice(root, p, lo'', Graft(cx, ch, d)) && Agree(Graft(cx, ch, d), cx, d)
    ensures forall i :: d < i <= |p| ==> Graft(cx, ch, d)[i] == ch[i]
  {
    var g := Graft(cx, ch, d);
    GraftIs(cx, ch, d);
    forall i: nat | i <= |p|
      ensures IsNode(root, p[..i]) && if i > lo'' then g[i] in SuffixesAt(At(root, p[..i])) else g[i] == ""
    {
      ChoiceAt(root, p, lo', ch, i);
      if i <= d {
        ChoiceAt(root, t, lo, cx, i);
        SharedPrefix(t, p, d);
      }
    }
    ChoiceFromParts(root, p, lo'', g);
  }

  lemma GraftIs(cx: Choice, ch: Choice, d: nat)
    requires d < |cx| && d < |ch|
    ensures var g := Graft(cx, ch, d);
      && |g| == |ch| && Agree(g, cx, d)
      && (forall i :: 0 <= i <= d ==> g[i] == cx[i]) && (forall i :: d < i < |ch| ==> g[i] == ch[i])
  {
  }

  /** Grafting what is already there changes nothing. */
  lemma GraftSame(cx: Choice, ch: Choice, d: nat)
    requires d < |cx| && d < |ch| && forall i :: 0 <= i <= d ==> cx[i] == ch[i]
    ensures Graft(cx, ch, d) == ch
  {
    GraftIs(cx, ch, d);
  }

  lemma GraftBack(cx: Choice, z: Choice, ch: Choice, d: nat)
    requires d < |cx| && d < |z| && d < |ch| && Agree(ch, cx, d)
    ensures Graft(cx, Graft(z, ch, d), d) == ch
  {
    GraftIs(z, ch, d);
    var g := Graft(z, ch, d);
    GraftIs(cx, g, d);
    forall i | 0 <= i <= d ensures ch[i] == cx[i] {
      AgreeAt(ch, cx, d, i);
    }
  }

  /** Some choice exists where everything is enumerable. */
  lemma {:induction false} SomeChoice(root: Node, p: Path) returns (ch: Choice)
    requires WellFormed(root) && IsNode(root, p) && AllKnown(root, p, -1)
    ensures IsChoice(root, p, -1, ch) && |ch| == |p| + 1
    decreases |p|
  {
    var n := At(root, p);
    if n.strat.Some? {
      assert ValidSpec(n.strat.value);
    }
    var own := SuffixesAt(n)[0];
    if p == [] {
      ch := [own];
    } else {
      var above := SomeChoice(root, Up(p));
      ch := above + [own];
      assert ch[..|p|] == above;
    }
  }

  /******* Same-branch pinning *******/

  lemma LogicalNameRendered(root: Node, p: Path)
    requires WellFormed(root) && IsNode(root, p) && !At(root, p).kind.Parallel?
    ensures forall f :: f in [At(root, p).fqn] <==> Rendered(root, p, |p|, f)
  {
    forall f ensures f == At(root, p).fqn <==> Rendered(root, p, |p|, f) {
      if Rendered(root, p, |p|, f) {
        var ch :| IsChoice(root, p, |p|, ch) && f == Render(root, p, ch);
        forall i: nat | i <= |p| ensures ch[i] == "" { ChoiceAt(root, p, |p|, ch, i); }
        RenderLogical(root, p, ch);
      }
      if f == At(root, p).fqn {
        ZerosIsChoice(root, p);
        RenderLogical(root, p, Zeros(|p| + 1));
      }
    }
  }

  /** instanceFQNs enumerates exactly the full renderings. */
  lemma InstanceFqnsMembers(root: Node, p: Path)
    requires WellFormed(root) && IsNode(root, p) && IsNamed(At(root, p))
    requires InstanceFqns(root, p).Some?
    ensures forall f :: f in InstanceFqns(root, p).value <==> Rendered(root, p, -1, f)
  {
    LogicalNameRendered(root, p);
    assert p[..|p|] == p;
    FanOutMembers(root, p, |p|, -1, [At(root, p).fqn]);
  }

  /** Without a strategy at or above depth `d` no choice is made there. */
  lemma NothingChosen(root: Node, p: Path, t: Path, cx: Choice, d: nat, i: nat)
    requires WellFormed(root) && IsNode(root, p) && IsNode(root, t) && i <= d
    requires d <= |p| && d <= |t| && p[..d] == t[..d] && IsChoice(root, t, -1, cx)
    requires IsNode(root, p[..d]) && !HasStrategy(root, p[..d])
    ensures |cx| == |t| + 1 && cx[i] == ""
  {
    ChoiceShape(root, t, -1, cx, i);
    assert p[..d][..i] == p[..i] && t[..d][..i] == t[..i];
    if HasStrategy(root, p[..i]) { HasStrategyBelow(root, p[..d], i); }
  }

  lemma PrivateIsAgreeing(root: Node, p: Path, t: Path, cx: Choice, d: nat, f: string)
    requires WellFormed(root) && IsNode(root, p) && IsNode(root, t)
    requires d <= |p| && d <= |t| && p[..d] == t[..d] && IsChoice(root, t, -1, cx)
    requires |cx| == |t| + 1 && (forall i :: 0 <= i <= d ==> cx[i] == "")
    requires Rendered(root, p, d, f)
    ensures InstanceAgreeing(root, p, cx, d, f)
  {
    var ch :| IsChoice(root, p, d, ch) && f == Render(root, p, ch);
    forall i: nat | i <= d ensures |ch| == |p| + 1 && ch[i] == "" { ChoiceAt(root, p, d, ch, i); }
    GraftChoice(root, t, cx, -1, p, ch, d, d, -1);
    GraftSame(cx, ch, d);
  }

  lemma AgreeingIsPrivate(root: Node, p: Path, t: Path, cx: Choice, d: nat, f: string)
    requires WellFormed(root) && IsNode(root, p) && d <= |p| && IsNode(root, p[..d])
    requires d < |cx| && (forall i :: 0 <= i <= d ==> cx[i] == "")
    requires InstanceAgreeing(root, p, cx, d, f)
    ensures Rendered(root, p, d, f)
  {
    var ch :| IsChoice(root, p, -1, ch) && Agree(ch, cx, d) && f == Render(root, p, ch);
    ChoiceAt(root, p, -1, ch, 0);
    forall i: nat | i <= d ensures ch[i] == "" { AgreeAt(ch, cx, d, i); }
    ZerosIsChoice(root, p[..d]);
    GraftChoice(root, p[..d], Zeros(d + 1), d, p, ch, -1, d, d);
    GraftSame(Zeros(d + 1), ch, d);
  }

  /** Without a shared strategy the private fan-out is the whole one. */
  lemma UnsharedMembers(root: Node, p: Path, t: Path, cx: Choice, d: nat, f: string)
    requires WellFormed(root) && IsNode(root, p) && IsNode(root, t)
    requires d <= |p| && d <= |t| && p[..d] == t[..d] && IsChoice(root, t, -1, cx)
    requires IsNode(root, p[..d]) && !HasStrategy(root, p[..d])
    ensures Rendered(root, p, d, f) <==> InstanceAgreeing(root, p, cx, d, f)
  {
    NothingChosen(root, p, t, cx, d, 0);
    forall i: nat | i <= d ensures cx[i] == "" { NothingChosen(root, p, t, cx, d, i); }
    if Rendered(root, p, d, f) { PrivateIsAgreeing(root, p, t, cx, d, f); }
    if InstanceAgreeing(root, p, cx, d, f) { AgreeingIsPrivate(root, p, t, cx, d, f); }
  }

  /** Swapping the pinned prefix in is choosing like the target above the common ancestor. */
  lemma RepinRender(root: Node, p: Path, t: Path, cx: Choice, ch: Choice, d: nat)
    requires WellFormed(root) && IsNode(root, p) && IsNode(root, t)
    requires d <= |p| && d <= |t| && p[..d] == t[..d] && IsNode(root, p[..d])
    requires |cx| == |t| + 1 && |ch| == |p| + 1 && forall i :: 0 <= i <= d ==> ch[i] == ""
    requires !At(root, p[..d]).kind.Parallel?
    ensures |At(root, p[..d]).fqn| <= |Render(root, p, ch)|
    ensures Render(root, p, Graft(cx, ch, d))
         == Render(root, p[..d], cx[..d + 1]) + Render(root, p, ch)[|At(root, p[..d]).fqn|..]
  {
    var g := Graft(cx, ch, d);
    var name, below := At(root, p[..d]).fqn, RenderBelow(root, p, ch, d);
    RenderSplits(root, p, ch, d);
    RenderSplits(root, p, g, d);
    RenderLogical(root, p[..d], ch[..d + 1]);
    RenderBelowAgrees(root, p, ch, g, d);
    assert g[..d + 1] == cx[..d + 1];
    assert (name + below)[|name|..] == below;
  }

  /** From a fanned name to the choice it stands for after pinning. */
  lemma PinnedIsAgreeing(root: Node, p: Path, t: Path, cx: Choice, d: nat, g: string)
    requires WellFormed(root) && IsNode(root, p) && IsNode(root, t)
    requires d <= |p| && d <= |t| && p[..d] == t[..d] && IsNode(root, p[..d])
    requires IsChoice(root, t, -1, cx) && |cx| == |t| + 1 && !At(root, p[..d]).kind.Parallel?
    requires Rendered(root, p, d, g)
    ensures var cut := |At(root, p[..d]).fqn|;
      cut <= |g| && InstanceAgreeing(root, p, cx, d, Render(root, p[..d], cx[..d + 1]) + g[cut..])
  {
    var ch :| IsChoice(root, p, d, ch) && g == Render(root, p, ch);
    PrivateChoice(root, p, ch, d);
    RepinRender(root, p, t, cx, ch, d);
    GraftChoice(root, t, cx, -1, p, ch, d, d, -1);
  }

  lemma PrivateChoice(root: Node, p: Path, ch: Choice, d: nat)
    requires IsNode(root, p) && IsChoice(root, p, d, ch) && d <= |p|
    ensures |ch| == |p| + 1 && forall j :: 0 <= j <= d ==> ch[j] == ""
  {
    forall j: nat | j <= d ensures |ch| == |p| + 1 && ch[j] == "" { ChoiceAt(root, p, d, ch, j); }
  }

  /** From a choice that agrees with the target to the fanned name behind it. */
  lemma AgreeingIsPinned(root: Node, p: Path, t: Path, cx: Choice, d: nat, f: string) returns (g: string)
    requires WellFormed(root) && IsNode(root, p) && IsNode(root, t)
    requires d <= |p| && d <= |t| && p[..d] == t[..d] && IsNode(root, p[..d])
    requires |cx| == |t| + 1 && !At(root, p[..d]).kind.Parallel?
    requires InstanceAgreeing(root, p, cx, d, f)
    ensures Rendered(root, p, d, g)
    ensures var cut := |At(root, p[..d]).fqn|; cut <= |g| && f == Render(root, p[..d], cx[..d + 1]) + g[cut..]
  {
    var ch :| IsChoice(root, p, -1, ch) && Agree(ch, cx, d) && f == Render(root, p, ch);
    ChoiceAt(root, p, -1, ch, 0);
    ZerosIsChoice(root, p[..d]);
    var ch0 := Graft(Zeros(d + 1), ch, d);
    GraftChoice(root, p[..d], Zeros(d + 1), d, p, ch, -1, d, d);
    RepinRender(root, p, t, cx, ch0, d);
    GraftBack(cx, Zeros(d + 1), ch, d);
    g := Render(root, p, ch0);
  }

  lemma SharedMembers(root: Node, p: Path, t: Path, cx: Choice, d: nat, fanned: seq<string>, f: string)
    requires WellFormed(root) && IsNode(root, p) && IsNode(root, t)
    requires d <= |p| && d <= |t| && p[..d] == t[..d] && IsNode(root, p[..d])
    requires IsChoice(root, t, -1, cx) && |cx| == |t| + 1 && !At(root, p[..d]).kind.Parallel?
    requires forall g :: g in fanned <==> Rendered(root, p, d, g)
    ensures f in Repin(fanned, Render(root, p[..d], cx[..d + 1]), |At(root, p[..d]).fqn|)
       <==> InstanceAgreeing(root, p, cx, d, f)
  {
    var pinnedNames := Repin(fanned, Render(root, p[..d], cx[..d + 1]), |At(root, p[..d]).fqn|);
    if f in pinnedNames {
      var i :| 0 <= i < |pinnedNames| && pinnedNames[i] == f;
      assert fanned[i] in fanned;
      PinnedIsAgreeing(root, p, t, cx, d, fanned[i]);
    }
    if InstanceAgreeing(root, p, cx, d, f) {
      var g := AgreeingIsPinned(root, p, t, cx, d, f);
      var i :| 0 <= i < |fanned| && fanned[i] == g;
      assert pinnedNames[i] == f;
    }
  }

  lemma {:induction false} NoLevels(root: Node, p: Path, lo: int)
    requires IsNode(root, p) && -1 <= lo <= |p|
    ensures lo >= 0 ==> IsNode(root, p[..lo])
    ensures Levels(root, p, lo) == [] && (lo >= 0 ==> !HasStrategy(root, p[..lo])) <==> !HasStrategy(root, p)
    decreases |p|
  {
    if lo == |p| {
      assert p[..lo] == p;
    } else if p != [] {
      NoLevels(root, Up(p), lo);
      if lo >= 0 {
        assert Up(p)[..lo] == p[..lo];
      }
    }
  }

  lemma {:induction false} AllKnownDeeper(root: Node, p: Path, lo: int)
    requires IsNode(root, p) && AllKnown(root, p, -1) && lo >= -1
    ensures AllKnown(root, p, lo)
    decreases |p|
  {
    if p != [] {
      AllKnownDeeper(root, Up(p), lo);
    }
  }

  /**
    Same-branch pinning.  For a target requested by a full instance FQN, a
    predecessor contributes exactly those of its instances that carry the
    target's own suffixes at and above their lowest common ancestor.
  */
  lemma SameBranchPinning(root: Node, p: Path, t: Path, cx: Choice)
    requires WellFormed(root) && IsNode(root, p) && IsNode(root, t)
    requires IsNamed(At(root, p)) && IsNamed(At(root, t)) && Before(root, p, t)
    requires AllKnown(root, p, -1) && HasStrategy(root, p)
    requires IsChoice(root, t, -1, cx) && |cx| == |t| + 1
    ensures var r := AncestorInstances(root, p, t, Render(root, t, cx));
      r.Some? && InstanceFqns(root, p).Some? &&
      forall f :: f in r.value <==>
        f in InstanceFqns(root, p).value && InstanceAgreeing(root, p, cx, LcaDepth(p, t), f)
  {
    var d := LcaDepth(p, t);
    var k: nat :| SplitsAt(root, p, t, k);
    SplitIsLca(root, p, t, k);
    PrefixIsNode(root, p, d);
    AllKnownDeeper(root, p, d);
    if HasStrategy(root, p[..d]) {
      SharedPinning(root, p, t, cx, d);
    } else {
      UnsharedPinning(root, p, t, cx, d);
    }
    InstanceFqnsMembers(root, p);
    forall f | InstanceAgreeing(root, p, cx, d, f) ensures Rendered(root, p, -1, f) {
      AgreeingIsRendered(root, p, cx, d, f);
    }
  }

  lemma AgreeingIsRendered(root: Node, p: Path, cx: Choice, d: nat, f: string)
    requires IsNode(root, p) && InstanceAgreeing(root, p, cx, d, f)
    ensures Rendered(root, p, -1, f)
  {
  }

  /** The names fanned out by the strategies deeper than `d`. */
  function PrivateFan(root: Node, p: Path, d: int): seq<string>
    requires IsNode(root, p)
  {
    FanOut(Levels(root, p, d), [At(root, p).fqn])
  }

  lemma FannedMembers(root: Node, p: Path, d: nat)
    requires WellFormed(root) && IsNode(root, p) && !At(root, p).kind.Parallel? && d <= |p|
    ensures forall f :: f in PrivateFan(root, p, d) <==> Rendered(root, p, d, f)
  {
    LogicalNameRendered(root, p);
    assert p[..|p|] == p;
    FanOutMembers(root, p, |p|, d, [At(root, p).fqn]);
  }

  /** Under a shared strategy the private names are re-pinned to the target's branch. */
  lemma SharedPinning(root: Node, p: Path, t: Path, cx: Choice, d: nat)
    requires WellFormed(root) && IsNode(root, p) && IsNode(root, t)
    requires IsNamed(At(root, p)) && IsNamed(At(root, t)) && d == LcaDepth(p, t)
    requires AllKnown(root, p, d) && IsNode(root, p[..d]) && HasStrategy(root, p[..d]) &&
        !At(root, p[..d]).kind.Parallel?
    requires IsChoice(root, t, -1, cx) && |cx| == |t| + 1
    ensures var r := AncestorInstances(root, p, t, Render(root, t, cx));
      r.Some? && forall f :: f in r.value <==> InstanceAgreeing(root, p, cx, d, f)
  {
    StrategyIsInside(root, p[..d]);
    PinnedPrefixOfInstance(root, t, -1, cx, d);
    CutChoice(root, t, -1, cx, d);
    RenderLonger(root, p[..d], cx[..d + 1]);
    FannedMembers(root, p, d);
    var r := Repin(PrivateFan(root, p, d), Render(root, p[..d], cx[..d + 1]), |At(root, p[..d]).fqn|);
    forall f ensures f in r <==> InstanceAgreeing(root, p, cx, d, f) {
      SharedMembers(root, p, t, cx, d, PrivateFan(root, p, d), f);
    }
  }

  lemma UnsharedPinning(root: Node, p: Path, t: Path, cx: Choice, d: nat)
    requires WellFormed(root) && IsNode(root, p) && IsNode(root, t)
    requires IsNamed(At(root, p)) && IsNamed(At(root, t)) && d == LcaDepth(p, t) && HasStrategy(root, p)
    requires AllKnown(root, p, d) && IsNode(root, p[..d]) && !HasStrategy(root, p[..d])
    requires IsChoice(root, t, -1, cx) && |cx| == |t| + 1
    ensures var r := AncestorInstances(root, p, t, Render(root, t, cx));
      r.Some? && forall f :: f in r.value <==> InstanceAgreeing(root, p, cx, d, f)
  {
    NoLevels(root, p, d);
    FannedMembers(root, p, d);
    forall f ensures f in PrivateFan(root, p, d) <==> InstanceAgreeing(root, p, cx, d, f) {
      UnsharedMembers(root, p, t, cx, d, f);
    }
  }

  lemma {:induction false} LevelsAbove(root: Node, p: Path, d: nat)
    requires IsNode(root, p) && d <= |p| && IsNode(root, p[..d]) && !HasStrategy(root, p[..d])
    ensures Levels(root, p, d) == Levels(root, p, -1)
    decreases |p|
  {
    if d == |p| {
      assert p[..d] == p;
      NoLevels(root, p, -1);
    } else {
      assert Up(p)[..d] == p[..d];
      LevelsAbove(root, Up(p), d);
    }
  }

  /** A target requested by its logical FQN waits on every instance of the predecessor. */
  lemma LogicalTargetFallsBack(root: Node, p: Path, t: Path)
    requires WellFormed(root) && IsNode(root, p) && IsNode(root, t)
    requires IsNamed(At(root, p)) && IsNamed(At(root, t)) && Before(root, p, t)
    requires AllKnown(root, p, -1) && HasStrategy(root, p)
    ensures AncestorInstances(root, p, t, At(root, t).fqn) == InstanceFqns(root, p)
    ensures InstanceFqns(root, p).Some?
  {
    var d := LcaDepth(p, t);
    var k: nat :| SplitsAt(root, p, t, k);
    SplitIsLca(root, p, t, k);
    PrefixIsNode(root, p, d);
    AllKnownDeeper(root, p, d);
    NoLevels(root, p, d);
    if HasStrategy(root, p[..d]) {
      StrategyIsInside(root, p[..d]);
      ZerosIsChoice(root, t);
      var z := Zeros(|t| + 1);
      PinnedPrefixOfInstance(root, t, |t|, z, d);
      RenderLogical(root, t, z);
      RenderLogical(root, p[..d], z[..d + 1]);
    } else {
      LevelsAbove(root, p, d);
    }
  }

  /** The FQNs a step is gated on for one predecessor. */
  function Effective(root: Node, p: Path, t: Path, raw: string): seq<string>
    requires IsNode(root, p) && IsNode(root, t)
  {
    var r := AncestorInstances(root, p, t, raw);
    if r.Some? && r.value != [] then r.value else [At(root, p).fqn]
  }

  lemma LevelIsInhabited(root: Node, q: Path, acc: seq<string>)
    requires WellFormed(root) && IsNode(root, q) && acc != []
    requires At(root, q).strat.Some? ==> At(root, q).strat.value.known
    ensures AfterLevel(At(root, q), acc) != []
  {
    var n := At(root, q);
    if n.strat.Some? {
      assert ValidSpec(n.strat.value);
      CrossIntro(acc, n.strat.value.suffixes, Splicer(n.fqn), acc[0], n.strat.value.suffixes[0]);
    }
  }

  /** Enumerable strategies fan a list that is not empty out into one that is not empty. */
  lemma {:induction false} FanOutIsInhabited(root: Node, q: Path, lo: int, acc: seq<string>)
    requires WellFormed(root) && IsNode(root, q) && lo >= -1 && AllKnown(root, q, lo) && acc != []
    ensures FanOut(Levels(root, q, lo), acc) != []
    decreases |q|
  {
    if |q| > lo {
      FanOutStep(root, q, lo, acc);
      LevelIsInhabited(root, q, acc);
      if q != [] {
        FanOutIsInhabited(root, Up(q), lo, AfterLevel(At(root, q), acc));
      }
    }
  }

  /**
    Whatever the target and however it was requested, a strategy-bearing
    predecessor is never enumerated as nothing, and a chain of enumerable
    strategies is always enumerated.
  */
  lemma KnownIsEnumerated(root: Node, p: Path, t: Path, raw: string)
    requires WellFormed(root) && IsNode(root, p) && IsNode(root, t) && HasStrategy(root, p)
    ensures var r := AncestorInstances(root, p, t, raw);
      (r.Some? ==> r.value != []) && (AllKnown(root, p, -1) ==> r.Some?)
  {
    var d := LcaDepth(p, t);
    PrefixIsNode(root, p, d);
    NoLevels(root, p, d);
    if AllKnown(root, p, d) {
      FanOutIsInhabited(root, p, d, [At(root, p).fqn]);
    }
    if AllKnown(root, p, -1) {
      AllKnownDeeper(root, p, d);
      FanOutIsInhabited(root, p, -1, [At(root, p).fqn]);
    }
  }

  /** What a predecessor contributes, strategies or not: its instances in the target's branch. */
  lemma EffectiveMembers(root: Node, p: Path, t: Path, cx: Choice, f: string)
    requires WellFormed(root) && IsNode(root, p) && IsNode(root, t)
    requires IsNamed(At(root, p)) && IsNamed(At(root, t)) && Before(root, p, t)
    requires AllKnown(root, p, -1)
    requires IsChoice(root, t, -1, cx) && |cx| == |t| + 1
    ensures f in Effective(root, p, t, Render(root, t, cx)) <==> InstanceAgreeing(root, p, cx, LcaDepth(p, t), f)
  {
    var d := LcaDepth(p, t);
    PrefixIsNode(root, p, d);
    if HasStrategy(root, p) {
      SameBranchPinning(root, p, t, cx);
      KnownIsEnumerated(root, p, t, Render(root, t, cx));
      InstanceFqnsMembers(root, p);
      forall h | InstanceAgreeing(root, p, cx, d, h) ensures Rendered(root, p, -1, h) {}
    } else {
      NoLevels(root, p, d);
      AllKnownDeeper(root, p, d);
      NoLevels(root, p, -1);
      LogicalNameRendered(root, p);
      UnsharedMembers(root, p, t, cx, d, f);
      assert p[..|p|] == p;
      FanOutMembers(root, p, |p|, d, [At(root, p).fqn]);
      assert FanOut(Levels(root, p, d), [At(root, p).fqn]) == [At(root, p).fqn];
    }
  }
}
