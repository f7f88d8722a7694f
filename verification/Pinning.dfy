/**
  Which instances of a predecessor a target waits on, whatever name it was requested
  by, and when they are known at all (verifier/pipeline/graph.go: ancestorInstances).
*/
module Pinning {
  import opened Graph
  import opened Naming
  import opened Instances
  import opened Declared

  /** The requested name spells some branch of the common ancestor: it aligns, and it is not the logical name. */
  predicate NamesBranch(raw: string, logical: string, lca: string) {
    PinnedPrefix(raw, logical, lca).Some? && PinnedPrefix(raw, logical, lca).value != lca
  }

  /** `f` continues `prefix` with some choice of the suffixes below depth `d`. */
  ghost predicate Continues(root: Node, p: Path, d: nat, prefix: string, f: string)
    requires IsNode(root, p) && d <= |p|
  {
    exists ch :: IsChoice(root, p, d, ch) && |ch| == |p| + 1 && f == prefix + RenderBelow(root, p, ch, d)
  }

  /** A name without suffixes above depth `d` continues the logical name there. */
  lemma PrivateNameSplits(root: Node, p: Path, d: nat, ch: Choice)
    requires WellFormed(root) && IsNode(root, p) && d <= |p| && IsNode(root, p[..d])
    requires IsChoice(root, p, d, ch) && |ch| == |p| + 1 && !At(root, p[..d]).kind.Parallel?
    ensures Render(root, p, ch) == At(root, p[..d]).fqn + RenderBelow(root, p, ch, d)
  {
    forall i: nat | i <= d ensures ch[i] == "" {
      ChoiceAt(root, p, d, ch, i);
    }
    RenderSplits(root, p, ch, d);
    RenderLogical(root, p[..d], ch[..d + 1]);
  }

  lemma CutPrefix(name: string, below: string)
    ensures |name| <= |name + below| && (name + below)[|name|..] == below
  {
  }

  /** A private name continues `prefix` once it is put in place of the logical one. */
  lemma RepinnedContinues(root: Node, p: Path, d: nat, prefix: string, g: string)
    requires WellFormed(root) && IsNode(root, p) && d <= |p|
    requires IsNode(root, p[..d]) && !At(root, p[..d]).kind.Parallel? && Rendered(root, p, d, g)
    ensures var cut := |At(root, p[..d]).fqn|; cut <= |g| && Continues(root, p, d, prefix, prefix + g[cut..])
  {
    var ch :| IsChoice(root, p, d, ch) && g == Render(root, p, ch);
    ChoiceAt(root, p, d, ch, 0);
    PrivateNameSplits(root, p, d, ch);
    CutPrefix(At(root, p[..d]).fqn, RenderBelow(root, p, ch, d));
  }

  /** The private name behind one that continues `prefix`. */
  lemma ContinuesRepinned(root: Node, p: Path, d: nat, prefix: string, f: string) returns (g: string)
    requires WellFormed(root) && IsNode(root, p) && d <= |p|
    requires IsNode(root, p[..d]) && !At(root, p[..d]).kind.Parallel? && Continues(root, p, d, prefix, f)
    ensures Rendered(root, p, d, g)
    ensures var cut := |At(root, p[..d]).fqn|; cut <= |g| && f == prefix + g[cut..]
  {
    var ch :| IsChoice(root, p, d, ch) && |ch| == |p| + 1 && f == prefix + RenderBelow(root, p, ch, d);
    g := Render(root, p, ch);
    PrivateNameSplits(root, p, d, ch);
    CutPrefix(At(root, p[..d]).fqn, RenderBelow(root, p, ch, d));
  }

  lemma RepinElim(names: seq<string>, pinned: string, cut: nat, f: string) returns (g: string)
    requires f in Repin(names, pinned, cut)
    ensures g in names && f == (if cut <= |g| then pinned + g[cut..] else pinned)
  {
    var i :| 0 <= i < |names| && Repin(names, pinned, cut)[i] == f;
    g := names[i];
  }

  lemma RepinIntro(names: seq<string>, pinned: string, cut: nat, g: string)
    requires g in names && cut <= |g|
    ensures pinned + g[cut..] in Repin(names, pinned, cut)
  {
    var i :| 0 <= i < |names| && names[i] == g;
    assert Repin(names, pinned, cut)[i] == pinned + g[cut..];
  }

  /** Replacing the logical prefix by `prefix` continues `prefix`. */
  lemma RepinnedMembers(root: Node, p: Path, d: nat, prefix: string, f: string)
    requires WellFormed(root) && IsNode(root, p) && !At(root, p).kind.Parallel? && d <= |p|
    requires IsNode(root, p[..d]) && !At(root, p[..d]).kind.Parallel?
    ensures f in Repin(PrivateFan(root, p, d), prefix, |At(root, p[..d]).fqn|) <==> Continues(root, p, d, prefix, f)
  {
    var fanned, cut := PrivateFan(root, p, d), |At(root, p[..d]).fqn|;
    FannedMembers(root, p, d);
    if f in Repin(fanned, prefix, cut) {
      var g := RepinElim(fanned, prefix, cut, f);
      RepinnedContinues(root, p, d, prefix, g);
    }
    if Continues(root, p, d, prefix, f) {
      var g := ContinuesRepinned(root, p, d, prefix, f);
      RepinIntro(fanned, prefix, cut, g);
    }
  }

  /** What is required to know the instances that `t` waits on. */
  predicate BranchKnown(root: Node, p: Path, t: Path, raw: string, d: nat)
    requires IsNode(root, p) && IsNode(root, t) && d <= |p| && IsNode(root, p[..d])
  {
    && FansOut(root, p) && KnownBelow(root, p, d)
    && (FansOut(root, p[..d]) && !NamesBranch(raw, At(root, t).fqn, At(root, p[..d]).fqn) ==> KnownBelow(root, p, -1))
  }

  /** `f` is an instance of `p` in the branch that `raw` names, or in all of them if it names none. */
  ghost predicate InBranch(root: Node, p: Path, t: Path, raw: string, d: nat, f: string)
    requires IsNode(root, p) && IsNode(root, t) && d <= |p| && IsNode(root, p[..d])
  {
    var lca := At(root, p[..d]).fqn;
    if !FansOut(root, p[..d]) then Rendered(root, p, d, f)
    else if NamesBranch(raw, At(root, t).fqn, lca) then
      Continues(root, p, d, PinnedPrefix(raw, At(root, t).fqn, lca).value, f)
    else Rendered(root, p, -1, f)
  }

  lemma BranchIsKnown(root: Node, p: Path, t: Path, raw: string)
    requires IsNode(root, p) && IsNode(root, t)
    ensures var d := LcaDepth(p, t);
      IsNode(root, p[..d]) && (AncestorInstances(root, p, t, raw).Some? <==> BranchKnown(root, p, t, raw, d))
  {
    var d := LcaDepth(p, t);
    PrefixIsNode(root, p, d);
    NoLevels(root, p, d);
    FansOutIs(root, p);
    FansOutIs(root, p[..d]);
    KnownIs(root, p, d);
    KnownIs(root, p, -1);
  }

  /**
    Same-branch pinning for every requested name.  The instances of a predecessor
    that gate a target are known exactly when the predecessor's strategies below
    the common ancestor are, and all of them when the request names no branch of a
    fanned-out common ancestor; then they are the predecessor's names in the branch
    that the request names, a branch whose own strategy is unknown included.
  */
  lemma BranchMembers(root: Node, p: Path, t: Path, raw: string)
    requires WellFormed(root) && IsNode(root, p) && IsNode(root, t) && IsNamed(At(root, p)) && Before(root, p, t)
    ensures var d, r := LcaDepth(p, t), AncestorInstances(root, p, t, raw);
      && IsNode(root, p[..d])
      && (r.Some? <==> BranchKnown(root, p, t, raw, d))
      && (r.Some? ==> forall f :: f in r.value <==> InBranch(root, p, t, raw, d, f))
  {
    var d := LcaDepth(p, t);
    BranchIsKnown(root, p, t, raw);
    var k: nat :| SplitsAt(root, p, t, k);
    SplitIsLca(root, p, t, k);
    FansOutIs(root, p[..d]);
    FannedMembers(root, p, d);
    if AncestorInstances(root, p, t, raw).Some? {
      if FansOut(root, p[..d]) {
        SharedBranch(root, p, t, raw, d);
      }
    }
  }

  lemma SharedBranch(root: Node, p: Path, t: Path, raw: string, d: nat)
    requires WellFormed(root) && IsNode(root, p) && IsNode(root, t) && IsNamed(At(root, p))
    requires d == LcaDepth(p, t) && IsNode(root, p[..d]) && !At(root, p[..d]).kind.Parallel?
    requires HasStrategy(root, p[..d]) && FansOut(root, p[..d]) && AncestorInstances(root, p, t, raw).Some?
    ensures forall f :: f in AncestorInstances(root, p, t, raw).value <==> InBranch(root, p, t, raw, d, f)
  {
    var lca := At(root, p[..d]).fqn;
    if NamesBranch(raw, At(root, t).fqn, lca) {
      forall f ensures f in AncestorInstances(root, p, t, raw).value <==>
        Continues(root, p, d, PinnedPrefix(raw, At(root, t).fqn, lca).value, f) {
        RepinnedMembers(root, p, d, PinnedPrefix(raw, At(root, t).fqn, lca).value, f);
      }
    } else {
      InstanceFqnsMembers(root, p);
    }
  }
}
