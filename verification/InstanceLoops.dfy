/**
  The loops of verifier/pipeline/graph.go that enumerate instances
  (instanceFQNs, ancestorInstances, lowestCommonAncestor), each proved against
  the function that specifies it.
*/
module InstanceLoops {
  import opened Common
  import opened Graph
  import opened Instances

  /** The deepest unit that encloses both, found through the set of `a`'s enclosing units. */
  method LowestCommonAncestor(a: Path, b: Path) returns (lca: Path)
    ensures lca == a[..LcaDepth(a, b)]
  {
    var seen: set<Path> := {a};
    var i := |a|;
    assert a[..|a|] == a;
    while i > 0
      invariant 0 <= i <= |a|
      invariant forall k :: i <= k <= |a| ==> a[..k] in seen
      invariant forall c :: c in seen ==> |c| <= |a| && c == a[..|c|]
    {
      i := i - 1;
      seen := seen + {a[..i]};
    }
    SharedPrefix(a, b, LcaDepth(a, b));
    var j := |b|;
    while b[..j] !in seen
      invariant LcaDepth(a, b) <= j <= |b|
      decreases j
    {
      assert b[..LcaDepth(a, b)] == a[..LcaDepth(a, b)];
      j := j - 1;
    }
    SharedPrefix(a, b, j);
    lca := b[..j];
  }

  /** The strategies deeper than `lo`, or None as soon as one is not enumerable. */
  method GatherLevels(root: Node, p: Path, lo: int) returns (levels: Option<seq<Level>>)
    requires IsNode(root, p) && -1 <= lo
    ensures levels == if AllKnown(root, p, lo) then Some(Levels(root, p, lo)) else None
  {
    var gathered: seq<Level> := [];
    var c := p;
    assert gathered + Levels(root, c, lo) == Levels(root, p, lo);
    while |c| > lo
      invariant IsNode(root, c)
      invariant AllKnown(root, p, lo) <==> AllKnown(root, c, lo)
      invariant gathered + Levels(root, c, lo) == Levels(root, p, lo)
      decreases |c|
    {
      if At(root, c).strat.Some? && !At(root, c).strat.value.known { return None; }
      LevelsStep(root, c, lo, gathered);
      gathered := gathered + OwnLevel(At(root, c));
      if c == [] {
        assert gathered + [] == gathered;
        return Some(gathered);
      }
      c := Up(c);
    }
    assert gathered + [] == gathered;
    return Some(gathered);
  }

  function OwnLevel(n: Node): seq<Level> {
    if n.strat.Some? then [Level(n.fqn, n.strat.value.suffixes)] else []
  }

  lemma LevelsStep(root: Node, c: Path, lo: int, gathered: seq<Level>)
    requires IsNode(root, c) && |c| > lo
    ensures gathered + Levels(root, c, lo)
         == (gathered + OwnLevel(At(root, c))) + if c == [] then [] else Levels(root, Up(c), lo)
  {
    var rest := if c == [] then [] else Levels(root, Up(c), lo);
    assert Levels(root, c, lo) == OwnLevel(At(root, c)) + rest;
    Associates(gathered, OwnLevel(At(root, c)), rest);
  }

  /** Multiplies one name list by one level. */
  method FanOutOnce(result: seq<string>, l: Level) returns (next: seq<string>)
    ensures next == Cross(result, l.suffixes, Splicer(l.prefix))
  {
    next := [];
    for b := 0 to |result|
      invariant next == Cross(result[..b], l.suffixes, Splicer(l.prefix))
    {
      ghost var start := next;
      for s := 0 to |l.suffixes|
        invariant next == start + Row(result[b], l.suffixes, Splicer(l.prefix))[..s]
      {
        RowSnoc(result[b], l.suffixes, Splicer(l.prefix), s);
        next := next + [Splice(l.prefix, result[b], l.suffixes[s])];
      }
      assert Row(result[b], l.suffixes, Splicer(l.prefix))[..|l.suffixes|] ==
        Row(result[b], l.suffixes, Splicer(l.prefix));
      CrossSnoc(result, l.suffixes, Splicer(l.prefix), b);
    }
    assert result[..|result|] == result;
  }

  method FanOutAll(levels: seq<Level>, name: string) returns (result: seq<string>)
    ensures result == FanOut(levels, [name])
  {
    result := [name];
    for l := 0 to |levels|
      invariant FanOut(levels[l..], result) == FanOut(levels, [name])
    {
      assert levels[l..][1..] == levels[l + 1..];
      result := FanOutOnce(result, levels[l]);
    }
  }

  method EnumerateInstances(root: Node, p: Path) returns (r: Option<seq<string>>)
    requires IsNode(root, p)
    ensures r == InstanceFqns(root, p)
  {
    var levels := GatherLevels(root, p, -1);
    NoLevels(root, p, -1);
    if levels.None? || levels.value == [] { return None; }
    var result := FanOutAll(levels.value, At(root, p).fqn);
    return Some(result);
  }

  method IsShared(root: Node, lca: Path) returns (shared: bool)
    requires IsNode(root, lca)
    ensures shared <==> HasStrategy(root, lca)
  {
    var c := lca;
    while true
      invariant IsNode(root, c) && (HasStrategy(root, lca) <==> HasStrategy(root, c))
      decreases |c|
    {
      if At(root, c).strat.Some? { return true; }
      if c == [] { return false; }
      c := Up(c);
    }
  }

  method EnumerateAncestor(root: Node, p: Path, t: Path, raw: string) returns (r: Option<seq<string>>)
    requires IsNode(root, p) && IsNode(root, t)
    ensures r == AncestorInstances(root, p, t, raw)
  {
    var lca := LowestCommonAncestor(p, t);
    PrefixIsNode(root, p, LcaDepth(p, t));
    var levels := GatherLevels(root, p, |lca|);
    if levels.None? { return None; }
    var shared := IsShared(root, lca);
    if levels.value == [] && !shared { return None; }
    var result := FanOutAll(levels.value, At(root, p).fqn);
    if !shared { return Some(result); }
    var pinned := PinnedPrefix(raw, At(root, t).fqn, At(root, lca).fqn);
    if pinned.None? || pinned.value == At(root, lca).fqn {
      r := EnumerateInstances(root, p);
      return;
    }
    ghost var names := result;
    var cut := |At(root, lca).fqn|;
    for i := 0 to |result|
      invariant |result| == |names|
      invariant forall j :: 0 <= j < i ==> result[j] == Repin(names, pinned.value, cut)[j]
      invariant forall j :: i <= j < |names| ==> result[j] == names[j]
    {
      result := result[i := if cut <= |result[i]| then pinned.value + result[i][cut..] else pinned.value];
    }
    assert result == Repin(names, pinned.value, cut);
    return Some(result);
  }
}
