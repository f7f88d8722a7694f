/**
  The live frontier of a step: its effective predecessors once skipped units are
  stepped over, and the pruning of redundant ones (verifier/pipeline/evaluate.go:
  guardSkip, liveAncestorsOf, coveredByAnother, precedesVia).
*/
module Frontier {
  import opened Common
  import opened Graph
  import opened Instances

  /** A caller's answer about one `when` guard. */
  datatype Guard = Holds | Fails | Unevaluable(err: string)

  type Condition = When -> Guard

  /** What a predecessor's guards say about it. */
  datatype Class = Required | SteppedOver | Undecided(guard: When, err: string)

  /** guardSkip's loop from `p` up: a guard known false wins over any undecided one. */
  function GuardsFrom(root: Node, p: Path, cond: Condition, first: Option<(When, string)>): Class
    requires IsNode(root, p)
    decreases |p|
  {
    var w := At(root, p).when;
    if w.Some? && cond(w.value).Fails? then SteppedOver
    else
      var first' := if w.Some? && cond(w.value).Unevaluable? && first.None? then Some((w.value, cond(w.value).err))
        else first;
      if p != [] then GuardsFrom(root, Up(p), cond, first')
      else if first'.Some? then Undecided(first'.value.0, first'.value.1)
      else Required
  }

  /** How the walk treats a predecessor: an excluded or skipped one is stepped over. */
  function Classify(root: Node, p: Path, cond: Condition): Class
    requires IsNode(root, p)
  {
    if StrategyExcluded(root, p) then SteppedOver else GuardsFrom(root, p, cond, None)
  }

  /** The answer about the guard of the unit that encloses `p` at depth `k`. */
  function GuardAt(root: Node, p: Path, k: nat, cond: Condition): Guard
    requires IsNode(root, p) && k <= |p|
  {
    PrefixIsNode(root, p, k);
    var w := At(root, p[..k]).when;
    if w.Some? then cond(w.value) else Holds
  }

  lemma GuardAtUp(root: Node, p: Path, k: nat, cond: Condition)
    requires IsNode(root, p) && p != [] && k < |p|
    ensures GuardAt(root, p, k, cond) == GuardAt(root, Up(p), k, cond)
  {
    assert Up(p)[..k] == p[..k];
  }

  /** Along the whole parent chain a false guard decides; otherwise all guards have to hold. */
  lemma {:induction false} GuardChainIsKleene(root: Node, p: Path, cond: Condition, first: Option<(When, string)>)
    requires IsNode(root, p)
    ensures var c := GuardsFrom(root, p, cond, first);
      && (c.SteppedOver? <==> exists k: nat :: k <= |p| && GuardAt(root, p, k, cond).Fails?)
      && (c.Required? <==> first.None? && forall k: nat :: k <= |p| ==> GuardAt(root, p, k, cond).Holds?)
    decreases |p|
  {
    assert p[..|p|] == p;
    var w := At(root, p).when;
    assert GuardAt(root, p, |p|, cond) == if w.Some? then cond(w.value) else Holds;
    if p != [] && !GuardAt(root, p, |p|, cond).Fails? {
      var first' := if w.Some? && cond(w.value).Unevaluable? && first.None? then Some((w.value, cond(w.value).err))
        else first;
      GuardChainIsKleene(root, Up(p), cond, first');
      forall k: nat | k < |p| ensures GuardAt(root, p, k, cond) == GuardAt(root, Up(p), k, cond) {
        GuardAtUp(root, p, k, cond);
      }
      if k: nat :| k <= |Up(p)| && GuardAt(root, Up(p), k, cond).Fails? {
        assert GuardAt(root, p, k, cond).Fails?;
      }
    }
  }

  /** The walk's three accumulators. */
  datatype Found = Found(seen: set<string>, out: seq<Path>, undecided: seq<Path>)

  /** visit: the predecessors of `n` from the `k`-th on. */
  function Visit(root: Node, n: Path, k: nat, cond: Condition, f: Found): Found
    requires WellShaped(root) && IsNode(root, n) && k <= |Climb(root, n)|
    decreases Rank(root, n), |Climb(root, n)| - k
  {
    if k == |Climb(root, n)| then f
    else
      ClimbDescends(root, n);
      Visit(root, n, k + 1, cond, Meet(root, Climb(root, n)[k], cond, f))
  }

  /** One predecessor: filed by its class the first time it is seen, or stepped over. */
  function Meet(root: Node, p: Path, cond: Condition, f: Found): Found
    requires WellShaped(root) && IsNode(root, p)
    decreases Rank(root, p), |Climb(root, p)| + 1
  {
    if At(root, p).fqn in f.seen then f
    else
      var f' := f.(seen := f.seen + {At(root, p).fqn});
      match Classify(root, p, cond)
      case SteppedOver => Visit(root, p, 0, cond, f')
      case Undecided(_, _) => f'.(undecided := f'.undecided + [p])
      case Required => f'.(out := f'.out + [p])
  }

  function LiveFrontier(root: Node, t: Path, cond: Condition): Found
    requires WellShaped(root) && IsNode(root, t)
  {
    Visit(root, t, 0, cond, Found({}, [], []))
  }

  predicate AllNodes(root: Node, ps: seq<Path>) {
    forall p :: p in ps ==> IsNode(root, p)
  }

  predicate AllUndecided(root: Node, ps: seq<Path>, cond: Condition) {
    forall p :: p in ps ==> IsNode(root, p) && Classify(root, p, cond).Undecided?
  }

  lemma {:induction false} VisitIsNodes(root: Node, n: Path, k: nat, cond: Condition, f: Found)
    requires WellShaped(root) && IsNode(root, n) && k <= |Climb(root, n)|
    requires AllNodes(root, f.out) && AllUndecided(root, f.undecided, cond)
    ensures var f' := Visit(root, n, k, cond, f); AllNodes(root, f'.out) && AllUndecided(root, f'.undecided, cond)
    decreases Rank(root, n), |Climb(root, n)| - k
  {
    if k < |Climb(root, n)| {
      ClimbDescends(root, n);
      var p := Climb(root, n)[k];
      if At(root, p).fqn !in f.seen && Classify(root, p, cond).SteppedOver? {
        VisitIsNodes(root, p, 0, cond, f.(seen := f.seen + {At(root, p).fqn}));
      }
      VisitIsNodes(root, n, k + 1, cond, Meet(root, p, cond, f));
    }
  }

  lemma FrontierIsNodes(root: Node, t: Path, cond: Condition)
    requires WellShaped(root) && IsNode(root, t)
    ensures var f := LiveFrontier(root, t, cond); AllNodes(root, f.out) && AllUndecided(root, f.undecided, cond)
  {
    VisitIsNodes(root, t, 0, cond, Found({}, [], []));
  }

  /** `p` is met when climbing backward from `n` through stepped-over units only. */
  ghost predicate Met(root: Node, n: Path, cond: Condition, p: Path)
    requires WellShaped(root) && IsNode(root, n)
    decreases Rank(root, n)
  {
    ClimbDescends(root, n);
    exists m :: m in Climb(root, n) && (m == p || (Classify(root, m, cond).SteppedOver? && Met(root, m, cond, p)))
  }

  /******* The walk finds exactly the frontier *******/

  /** Named units are told apart by their FQNs. */
  ghost predicate DistinctNames(root: Node) {
    forall p, q | IsNode(root, p) && IsNode(root, q) && IsNamed(At(root, p)) && IsNamed(At(root, q)) ::
      At(root, p).fqn == At(root, q).fqn ==> p == q
  }

  ghost predicate NoEmptyParallel(root: Node) {
    forall p {:trigger At(root, p).kind} :: IsNode(root, p) && At(root, p).kind.Parallel? ==> At(root, p).children != []
  }

  /** A graph whose predecessors can all be told apart by FQN. */
  ghost predicate Proper(root: Node) {
    WellFormed(root) && DistinctNames(root) && NoEmptyParallel(root)
  }

  lemma ClimbIsNamed(root: Node, n: Path, m: Path)
    requires Proper(root) && IsNode(root, n) && m in Climb(root, n)
    ensures IsNode(root, m) && IsNamed(At(root, m)) && Before(root, m, n) && Rank(root, m) < Rank(root, n)
  {
    ClimbDescends(root, n);
    var k: nat :| SplitsAt(root, m, n, k);
    assert m != [];
    NotRollback(root, n, m);
    assert LocalShape(At(root, Up(m)));
  }

  lemma {:induction false} NotRollback(root: Node, n: Path, m: Path)
    requires WellShaped(root) && IsNode(root, n) && m in Climb(root, n)
    ensures IsNode(root, m) && m != [] && !At(root, m).kind.Rollback?
    decreases |n|
  {
    ClimbDescends(root, n);
    if At(root, n).kind.Rollback? {
      StepsOfChildrenAre(root, Up(n), |At(root, Up(n)).children|, m);
    } else if At(root, Up(n)).kind.Parallel? || Last(n) == 0 {
      NotRollback(root, Up(n), m);
    } else {
      var s := PrecedingSibling(root, n);
      TerminalLeavesAre(root, s, m);
      assert LocalShape(At(root, Up(n)));
      RollbackIndex(root, n);
    }
  }

  lemma RollbackIndex(root: Node, n: Path)
    requires WellShaped(root) && IsNode(root, n) && n != [] && !At(root, n).kind.Rollback?
    ensures Last(n) < |At(root, Up(n)).children|
  {
    assert LocalShape(At(root, Up(n)));
  }

  ghost predicate FoundOk(root: Node, f: Found) {
    && Distinct(f.out) && Distinct(f.undecided)
    && (forall p :: p in f.out || p in f.undecided ==> IsNode(root, p) && At(root, p).fqn in f.seen)
  }

  /** `p` is a named unit that `f'` has seen and `f` has not. */
  predicate Newly(root: Node, f: Found, f': Found, p: Path) {
    IsNode(root, p) && IsNamed(At(root, p)) && At(root, p).fqn in f'.seen && At(root, p).fqn !in f.seen
  }

  predicate PredecessorsSeen(root: Node, p: Path, k: nat, f: Found)
    requires IsNode(root, p) && k <= |Climb(root, p)|
  {
    forall j :: k <= j < |Climb(root, p)| ==>
      IsNode(root, Climb(root, p)[j]) && At(root, Climb(root, p)[j]).fqn in f.seen
  }

  /** Every newly seen unit is filed by its class; a stepped-over one has its predecessors seen. */
  predicate Filed(root: Node, cond: Condition, f: Found, p: Path)
    requires IsNode(root, p)
  {
    && (p in f.out <==> Classify(root, p, cond).Required?)
    && (p in f.undecided <==> Classify(root, p, cond).Undecided?)
    && (Classify(root, p, cond).SteppedOver? ==> PredecessorsSeen(root, p, 0, f))
  }

  ghost predicate Adds(root: Node, cond: Condition, f: Found, f': Found) {
    && f.seen <= f'.seen
    && (forall p {:trigger Newly(root, f, f', p)} :: Newly(root, f, f', p) ==> Filed(root, cond, f', p))
    && (forall p :: p in f'.out && p !in f.out ==> Newly(root, f, f', p))
    && (forall p :: p in f'.undecided && p !in f.undecided ==> Newly(root, f, f', p))
    && (forall p :: p in f.out ==> p in f'.out)
    && (forall p :: p in f.undecided ==> p in f'.undecided)
  }

  lemma AddsTransitive(root: Node, cond: Condition, f: Found, f1: Found, f2: Found)
    requires Adds(root, cond, f, f1) && Adds(root, cond, f1, f2)
    ensures Adds(root, cond, f, f2)
  {
    forall p | Newly(root, f, f2, p) ensures Filed(root, cond, f2, p) {
      if Newly(root, f, f1, p) {
        assert Filed(root, cond, f1, p);
        assert !Newly(root, f1, f2, p);
      } else {
        assert Newly(root, f1, f2, p);
      }
    }
    forall p | p in f2.out && p !in f.out ensures Newly(root, f, f2, p) {
      assert Newly(root, f, f1, p) || Newly(root, f1, f2, p);
    }
    forall p | p in f2.undecided && p !in f.undecided ensures Newly(root, f, f2, p) {
      assert Newly(root, f, f1, p) || Newly(root, f1, f2, p);
    }
  }

  /** Seeing a unit that is not stepped over. */
  lemma AddsOne(root: Node, cond: Condition, f: Found, p: Path, f': Found)
    requires Proper(root) && FoundOk(root, f) && IsNode(root, p) && IsNamed(At(root, p)) && At(root, p).fqn !in f.seen
    requires !Classify(root, p, cond).SteppedOver?
    requires f' == Found(f.seen + {At(root, p).fqn},
                         if Classify(root, p, cond).Required? then f.out + [p] else f.out,
                         if Classify(root, p, cond).Required? then f.undecided else f.undecided + [p])
    ensures FoundOk(root, f') && Adds(root, cond, f, f')
  {
    forall q | Newly(root, f, f', q) ensures q == p {}
    assert Filed(root, cond, f', p);
    assert Newly(root, f, f', p);
  }

  /** Seeing a stepped-over unit and visiting its predecessors. */
  lemma AddsBelow(root: Node, cond: Condition, f: Found, p: Path, f1: Found)
    requires Proper(root) && FoundOk(root, f) && IsNode(root, p) && IsNamed(At(root, p)) && At(root, p).fqn !in f.seen
    requires Classify(root, p, cond).SteppedOver?
    requires Adds(root, cond, f.(seen := f.seen + {At(root, p).fqn}), f1) && PredecessorsSeen(root, p, 0, f1)
    ensures Adds(root, cond, f, f1)
  {
    var f0 := f.(seen := f.seen + {At(root, p).fqn});
    assert !Newly(root, f0, f1, p);
    forall q | Newly(root, f, f1, q) ensures Filed(root, cond, f1, q) {
      if q != p {
        assert Newly(root, f0, f1, q);
      }
    }
    forall q | q in f1.out && q !in f.out ensures Newly(root, f, f1, q) {
      assert Newly(root, f0, f1, q);
    }
    forall q | q in f1.undecided && q !in f.undecided ensures Newly(root, f, f1, q) {
      assert Newly(root, f0, f1, q);
    }
  }

  lemma MetThrough(root: Node, n: Path, cond: Condition, m: Path, p: Path)
    requires WellShaped(root) && IsNode(root, n) && m in Climb(root, n)
    requires (ClimbDescends(root, n); p == m || (Classify(root, m, cond).SteppedOver? && Met(root, m, cond, p)))
    ensures Met(root, n, cond, p)
  {
    ClimbDescends(root, n);
  }

  /** What visiting the predecessors of `n` from the `k`-th on achieves. */
  lemma {:induction false} VisitAdds(root: Node, n: Path, k: nat, cond: Condition, f: Found)
    requires Proper(root) && IsNode(root, n) && k <= |Climb(root, n)| && FoundOk(root, f)
    ensures var f' := Visit(root, n, k, cond, f);
      && FoundOk(root, f') && Adds(root, cond, f, f') && PredecessorsSeen(root, n, k, f')
      && forall p :: Newly(root, f, f', p) ==> Met(root, n, cond, p)
    decreases Rank(root, n), |Climb(root, n)| - k
  {
    if k < |Climb(root, n)| {
      var p := Climb(root, n)[k];
      ClimbIsNamed(root, n, p);
      var f1 := Meet(root, p, cond, f);
      MeetAdds(root, p, cond, f);
      VisitAdds(root, n, k + 1, cond, f1);
      var f' := Visit(root, n, k + 1, cond, f1);
      AddsTransitive(root, cond, f, f1, f');
      AllMet(root, n, cond, p, f, f1, f');
      SeenFrom(root, n, k, f');
    }
  }

  lemma SeenFrom(root: Node, n: Path, k: nat, f: Found)
    requires IsNode(root, n) && k < |Climb(root, n)| && PredecessorsSeen(root, n, k + 1, f)
    requires IsNode(root, Climb(root, n)[k]) && At(root, Climb(root, n)[k]).fqn in f.seen
    ensures PredecessorsSeen(root, n, k, f)
  {
  }

  /** What is seen at one predecessor, or at the later ones, is met from `n`. */
  lemma AllMet(root: Node, n: Path, cond: Condition, p: Path, f: Found, f1: Found, f': Found)
    requires WellShaped(root) && IsNode(root, n) && p in Climb(root, n) && IsNode(root, p)
    requires forall q :: Newly(root, f, f1, q) ==>
      q == p || (Classify(root, p, cond).SteppedOver? && Met(root, p, cond, q))
    requires forall q :: Newly(root, f1, f', q) ==> Met(root, n, cond, q)
    ensures forall q :: Newly(root, f, f', q) ==> Met(root, n, cond, q)
  {
    forall q | Newly(root, f, f', q) ensures Met(root, n, cond, q) {
      if Newly(root, f, f1, q) {
        MetThrough(root, n, cond, p, q);
      } else {
        assert Newly(root, f1, f', q);
      }
    }
  }

  lemma {:induction false} MeetAdds(root: Node, p: Path, cond: Condition, f: Found)
    requires Proper(root) && IsNode(root, p) && IsNamed(At(root, p)) && FoundOk(root, f)
    ensures var f' := Meet(root, p, cond, f);
      && FoundOk(root, f') && Adds(root, cond, f, f') && At(root, p).fqn in f'.seen
      && forall q :: Newly(root, f, f', q) ==> q == p || (Classify(root, p, cond).SteppedOver? && Met(root, p, cond, q))
    decreases Rank(root, p), |Climb(root, p)| + 1
  {
    var f' := Meet(root, p, cond, f);
    if At(root, p).fqn !in f.seen {
      if Classify(root, p, cond).SteppedOver? {
        var f0 := f.(seen := f.seen + {At(root, p).fqn});
        VisitAdds(root, p, 0, cond, f0);
        AddsBelow(root, cond, f, p, f');
        forall q | Newly(root, f, f', q) ensures q == p || Met(root, p, cond, q) {
          assert q == p || Newly(root, f0, f', q);
        }
      } else {
        AddsOne(root, cond, f, p, f');
      }
    }
  }

  /** Everything met is seen once the predecessors of `n` and of every stepped-over unit are. */
  lemma {:induction false} MetIsSeen(root: Node, n: Path, cond: Condition, f: Found, p: Path)
    requires Proper(root) && IsNode(root, n) && PredecessorsSeen(root, n, 0, f) && Met(root, n, cond, p)
    requires forall q {:trigger Filed(root, cond, f, q)} ::
      IsNode(root, q) && IsNamed(At(root, q)) && At(root, q).fqn in f.seen ==> Filed(root, cond, f, q)
    ensures IsNode(root, p) && IsNamed(At(root, p)) && At(root, p).fqn in f.seen
    decreases Rank(root, n)
  {
    ClimbDescends(root, n);
    var m :| m in Climb(root, n) && (m == p || (Classify(root, m, cond).SteppedOver? && Met(root, m, cond, p)));
    ClimbIsNamed(root, n, m);
    var j :| 0 <= j < |Climb(root, n)| && Climb(root, n)[j] == m;
    if m != p {
      assert Filed(root, cond, f, m);
      MetIsSeen(root, m, cond, f, p);
    }
  }

  /**
    The `seen`-guarded walk loses no unit and invents none: its two lists hold,
    each once, exactly the units met through stepped-over ones that are required,
    respectively undecided.
  */
  lemma LiveFrontierIsExact(root: Node, t: Path, cond: Condition)
    requires Proper(root) && IsNode(root, t)
    ensures var f := LiveFrontier(root, t, cond);
      && Distinct(f.out) && Distinct(f.undecided)
      && (forall p :: p in f.out <==> IsNode(root, p) && Met(root, t, cond, p) && Classify(root, p, cond).Required?)
      && (forall p :: p in f.undecided <==>
        IsNode(root, p) && Met(root, t, cond, p) && Classify(root, p, cond).Undecided?)
  {
    var f0, f := Found({}, [], []), LiveFrontier(root, t, cond);
    VisitAdds(root, t, 0, cond, f0);
    forall q | IsNode(root, q) && IsNamed(At(root, q)) && At(root, q).fqn in f.seen ensures Filed(root, cond, f, q) {
      assert Newly(root, f0, f, q);
    }
    forall p | p in f.out || p in f.undecided
      ensures IsNode(root, p) && Met(root, t, cond, p) && Filed(root, cond, f, p)
    {
      assert Newly(root, f0, f, p);
    }
    forall p | IsNode(root, p) && Met(root, t, cond, p)
      ensures Filed(root, cond, f, p)
    {
      MetIsSeen(root, t, cond, f, p);
      assert Newly(root, f0, f, p);
    }
  }

  /** A unit met from `t` is a named unit positionally before it, reachable by climbing. */
  lemma {:induction false} MetIsReached(root: Node, t: Path, cond: Condition, p: Path)
    requires Proper(root) && IsNode(root, t) && Met(root, t, cond, p)
    ensures Reaches(root, t, p)
    ensures IsNode(root, p) && IsNamed(At(root, p)) && IsLeaf(root, p) && Before(root, p, t) &&
        Rank(root, p) < Rank(root, t)
    decreases Rank(root, t)
  {
    ClimbDescends(root, t);
    var m :| m in Climb(root, t) && (m == p || (Classify(root, m, cond).SteppedOver? && Met(root, m, cond, p)));
    ClimbIsNamed(root, t, m);
    if m != p {
      MetIsReached(root, m, cond, p);
      BeforeTransitive(root, p, m, t);
    }
  }

  /******* Pruning *******/

  /** precedesVia: `a` is met by climbing from `b` through AND-joined units only. */
  ghost predicate Precedes(root: Node, a: Path, b: Path)
    requires WellShaped(root) && IsNode(root, b)
    decreases Rank(root, b)
  {
    ClimbDescends(root, b);
    !OrJoined(root, b) && exists m :: m in Climb(root, b) && (m == a || Precedes(root, a, m))
  }

  /** Some other unit of the list implies the `i`-th. */
  ghost predicate Covered(root: Node, nodes: seq<Path>, i: nat)
    requires WellShaped(root) && i < |nodes| && AllNodes(root, nodes)
  {
    exists j :: 0 <= j < |nodes| && j != i && Precedes(root, nodes[i], nodes[j])
  }

  /** The first `k` units of the list without the covered ones. */
  ghost function Pruned(root: Node, nodes: seq<Path>, k: nat): seq<Path>
    requires WellShaped(root) && k <= |nodes| && AllNodes(root, nodes)
  {
    if k == 0 then []
    else Pruned(root, nodes, k - 1) + if Covered(root, nodes, k - 1) then [] else [nodes[k - 1]]
  }

  lemma {:induction false} PrunedMembers(root: Node, nodes: seq<Path>, k: nat, p: Path)
    requires WellShaped(root) && k <= |nodes| && AllNodes(root, nodes)
    ensures p in Pruned(root, nodes, k) <==> exists i :: 0 <= i < k && nodes[i] == p && !Covered(root, nodes, i)
  {
    if k > 0 {
      PrunedMembers(root, nodes, k - 1, p);
    }
  }

  lemma {:induction false} PrunedIsNodes(root: Node, nodes: seq<Path>, k: nat)
    requires WellShaped(root) && k <= |nodes| && AllNodes(root, nodes)
    ensures AllNodes(root, Pruned(root, nodes, k))
  {
    if k > 0 {
      PrunedIsNodes(root, nodes, k - 1);
      OneNodeMore(root, Pruned(root, nodes, k - 1), nodes[k - 1]);
    }
  }

  lemma OneNodeMore(root: Node, ps: seq<Path>, p: Path)
    requires AllNodes(root, ps) && IsNode(root, p)
    ensures AllNodes(root, ps + [p]) && AllNodes(root, ps + [])
  {
    PlusNothing(ps);
  }

  /** Coverage follows the climb, so it is acyclic. */
  lemma {:induction false} PrecedesIsReached(root: Node, a: Path, b: Path)
    requires WellShaped(root) && IsNode(root, b) && Precedes(root, a, b)
    ensures Reaches(root, b, a)
    ensures IsNode(root, a) && Rank(root, a) < Rank(root, b) && Before(root, a, b)
    decreases Rank(root, b)
  {
    ClimbDescends(root, b);
    var m :| m in Climb(root, b) && (m == a || Precedes(root, a, m));
    if m != a {
      PrecedesIsReached(root, a, m);
      BeforeTransitive(root, a, m, b);
    }
  }

  lemma {:induction false} PrecedesTransitive(root: Node, a: Path, b: Path, c: Path)
    requires WellShaped(root) && IsNode(root, b) && IsNode(root, c)
    requires Precedes(root, a, b) && Precedes(root, b, c)
    ensures Precedes(root, a, c)
    decreases Rank(root, c)
  {
    ClimbDescends(root, c);
    var m :| m in Climb(root, c) && (m == b || Precedes(root, b, m));
    if m != b {
      PrecedesTransitive(root, a, b, m);
    }
  }

  /** A covered unit is always covered by one that survives the pruning. */
  lemma {:induction false} SurvivorCovers(root: Node, nodes: seq<Path>, i: nat) returns (j: nat)
    requires WellShaped(root) && Distinct(nodes) && i < |nodes|
    requires AllNodes(root, nodes)
    requires Covered(root, nodes, i)
    ensures j < |nodes| && Precedes(root, nodes[i], nodes[j]) && !Covered(root, nodes, j)
    ensures nodes[j] in Pruned(root, nodes, |nodes|)
    decreases Size(root) - Rank(root, nodes[i])
  {
    j :| 0 <= j < |nodes| && j != i && Precedes(root, nodes[i], nodes[j]);
    PrecedesIsReached(root, nodes[i], nodes[j]);
    if Covered(root, nodes, j) {
      RankWithin(root, nodes[j], 0);
      var l := SurvivorCovers(root, nodes, j);
      PrecedesTransitive(root, nodes[i], nodes[j], nodes[l]);
      j := l;
    } else {
      PrunedMembers(root, nodes, |nodes|, nodes[j]);
    }
  }
}
