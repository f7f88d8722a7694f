/**
  How FQNs are put together (verifier/pipeline/graph.go, builders), and how an
  instance FQN carries one suffix per enclosing strategy.
*/
module Naming {
  import opened Graph

  /******* Logical names *******/

  /** What a container adds between its own FQN and its children's identifiers. */
  function KidTail(root: Node, p: Path): string
    requires IsNode(root, p)
    decreases |p|
  {
    match At(root, p).kind
    case Pipeline => "pipeline.stages"
    case Stage => ".spec.execution.steps"
    case StepGroup => ".steps"
    case Rollback => ""
    case Step => ""
    case Parallel => if p == [] then "" else KidTail(root, Up(p))
  }

  /** What a unit adds to the FQN of the nearest enclosing unit that has one. */
  function Piece(root: Node, p: Path): string
    requires IsNode(root, p) && p != []
  {
    match At(root, p).kind
    case Parallel => ""
    case Rollback => ".spec.execution.rollbackSteps"
    case _ => KidTail(root, Up(p)) + "." + At(root, p).id
  }

  /** The unit's FQN, or for a `parallel` wrapper the nearest enclosing one. */
  function BaseFqn(root: Node, p: Path): string
    requires IsNode(root, p)
    decreases |p|
  {
    if p != [] && At(root, p).kind.Parallel? then BaseFqn(root, Up(p)) else At(root, p).fqn
  }

  predicate LocalName(root: Node, p: Path)
    requires IsNode(root, p)
  {
    At(root, p).fqn ==
    if p == [] || At(root, p).kind.Parallel? then ""
    else BaseFqn(root, Up(p)) + Piece(root, p)
  }

  ghost predicate WellNamed(root: Node) {
    forall p {:trigger LocalName(root, p)} :: IsNode(root, p) ==> LocalName(root, p)
  }

  lemma BaseStep(root: Node, p: Path)
    requires WellNamed(root) && IsNode(root, p) && p != []
    ensures BaseFqn(root, p) == BaseFqn(root, Up(p)) + Piece(root, p)
  {
    assert LocalName(root, p);
  }

  /******* Instances *******/

  /** One suffix per depth, "" where no strategy applies. */
  type Choice = seq<string>

  /** The suffixes a unit's own strategy may contribute. */
  function SuffixesAt(n: Node): seq<string> {
    if n.strat.Some? then n.strat.value.suffixes else [""]
  }

  /** A choice of one suffix for every strategy deeper than `lo`, and none at or above it. */
  predicate IsChoice(root: Node, p: Path, lo: int, ch: Choice)
    requires IsNode(root, p)
    decreases |p|
  {
    && |ch| == |p| + 1
    && (if |p| > lo then ch[|p|] in SuffixesAt(At(root, p)) else ch[|p|] == "")
    && (p != [] ==> IsChoice(root, Up(p), lo, ch[..|p|]))
  }

  /** The FQN with the chosen suffixes, each at the end of its own unit's segment. */
  function Render(root: Node, p: Path, ch: Choice): string
    requires IsNode(root, p) && |ch| == |p| + 1
    decreases |p|
  {
    if p == [] then ch[0]
    else Render(root, Up(p), ch[..|p|]) + Piece(root, p) + ch[|p|]
  }

  /** The part of a rendered FQN below depth `d`. */
  function RenderBelow(root: Node, p: Path, ch: Choice, d: nat): string
    requires IsNode(root, p) && |ch| == |p| + 1 && d <= |p|
    decreases |p|
  {
    if |p| == d then ""
    else RenderBelow(root, Up(p), ch[..|p|], d) + Piece(root, p) + ch[|p|]
  }

  lemma Regroup(a: string, b: string, c: string, d: string)
    ensures (a + b) + c + d == a + (b + c + d)
  {
  }

  /** A rendered FQN splits at every depth. */
  lemma {:induction false} RenderSplits(root: Node, p: Path, ch: Choice, d: nat)
    requires IsNode(root, p) && |ch| == |p| + 1 && d <= |p|
    ensures IsNode(root, p[..d])
    ensures Render(root, p, ch) == Render(root, p[..d], ch[..d + 1]) + RenderBelow(root, p, ch, d)
    decreases |p|
  {
    if d == |p| {
      assert p[..d] == p && ch[..d + 1] == ch;
    } else {
      RenderSplits(root, Up(p), ch[..|p|], d);
      assert Up(p)[..d] == p[..d] && ch[..|p|][..d + 1] == ch[..d + 1];
      Regroup(Render(root, p[..d], ch[..d + 1]), RenderBelow(root, Up(p), ch[..|p|], d), Piece(root, p), ch[|p|]);
    }
  }

  /** The part below depth `d` ignores the choices at and above it. */
  lemma {:induction false} RenderBelowAgrees(root: Node, p: Path, ch: Choice, ch': Choice, d: nat)
    requires IsNode(root, p) && |ch| == |ch'| == |p| + 1 && d <= |p|
    requires forall i :: d < i <= |p| ==> ch[i] == ch'[i]
    ensures RenderBelow(root, p, ch, d) == RenderBelow(root, p, ch', d)
    decreases |p|
  {
    if d < |p| {
      RenderBelowAgrees(root, Up(p), ch[..|p|], ch'[..|p|], d);
    }
  }

  /** Without suffixes the rendered FQN is the logical one. */
  lemma {:induction false} RenderLogical(root: Node, p: Path, ch: Choice)
    requires WellNamed(root) && IsNode(root, p) && |ch| == |p| + 1
    requires forall i :: 0 <= i <= |p| ==> ch[i] == ""
    ensures Render(root, p, ch) == BaseFqn(root, p)
    decreases |p|
  {
    if p == [] {
      assert LocalName(root, p);
    } else {
      RenderLogical(root, Up(p), ch[..|p|]);
      BaseStep(root, p);
    }
  }

  /** IsChoice, depth by depth. */
  lemma {:induction false} ChoiceAt(root: Node, p: Path, lo: int, ch: Choice, i: nat)
    requires IsNode(root, p) && IsChoice(root, p, lo, ch) && i <= |p|
    ensures |ch| == |p| + 1 && IsNode(root, p[..i])
    ensures if i > lo then ch[i] in SuffixesAt(At(root, p[..i])) else ch[i] == ""
    decreases |p|
  {
    if i == |p| {
      assert p[..i] == p;
    } else {
      ChoiceAt(root, Up(p), lo, ch[..|p|], i);
      assert Up(p)[..i] == p[..i];
    }
  }

  lemma {:induction false} ChoiceFromParts(root: Node, p: Path, lo: int, ch: Choice)
    requires IsNode(root, p) && |ch| == |p| + 1
    requires forall i: nat :: i <= |p| ==>
      IsNode(root, p[..i]) && if i > lo then ch[i] in SuffixesAt(At(root, p[..i])) else ch[i] == ""
    ensures IsChoice(root, p, lo, ch)
    decreases |p|
  {
    assert p[..|p|] == p;
    if p != [] {
      forall i: nat | i <= |Up(p)|
        ensures IsNode(root, Up(p)[..i]) && Up(p)[..i] == p[..i]
      {
        assert Up(p)[..i] == p[..i];
      }
      ChoiceFromParts(root, Up(p), lo, ch[..|p|]);
    }
  }
}
