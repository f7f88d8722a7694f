/**
  Which array elements the template merge matches, and what becomes of the others
  (resolver/template.go: unwrapArrayElement, getElementIdentifier,
  mergeArraysByIdentifier, MergeTemplateInputs).
*/
module TemplateLaws {
  import opened Common
  import opened YamlTree
  import opened Template

  /******* Which elements match *******/

  /** The text under a key, "" without one. */
  function TextUnder(n: Yaml, key: string): string {
    if NodeGet(n, key).Some? then ValueOf(NodeGet(n, key).value) else ""
  }

  /** The wrapper key of an element is the first of the four that holds a mapping. */
  lemma WrapperOf(e: Yaml)
    ensures HoldsMapping(e, "stage") ==> Unwrap(e).Keyed? && Unwrap(e).wrapper == "stage"
    ensures !HoldsMapping(e, "stage") && HoldsMapping(e, "step") ==>
      Unwrap(e).Keyed? && Unwrap(e).wrapper == "step"
    ensures !HoldsMapping(e, "stage") && !HoldsMapping(e, "step") && HoldsMapping(e, "stepGroup") ==>
      Unwrap(e).Keyed? && Unwrap(e).wrapper == "stepGroup"
    ensures !HoldsMapping(e, "stage") && !HoldsMapping(e, "step") && !HoldsMapping(e, "stepGroup") ==>
      if HoldsMapping(e, "parallel") then Unwrap(e).Keyed? && Unwrap(e).wrapper == "parallel"
      else
        && (Unwrap(e).Unkeyed? || Unwrap(e) == Keyed("_direct", e))
        && (Unwrap(e).Keyed? <==> NodeGet(e, "identifier").Some? || NodeGet(e, "name").Some?)
    ensures Unwrap(e).Keyed? && Unwrap(e).wrapper != "_direct" ==>
      NodeGet(e, Unwrap(e).wrapper) == Some(Unwrap(e).inner)
  {
    assert WRAPPERS[0] == "stage" && WRAPPERS[1] == "step" && WRAPPERS[2] == "stepGroup" && WRAPPERS[3] == "parallel";
    DirectIs(e);
    WrapperHolds(e, 0);
    LaterWrappers(e);
  }

  /** What is left to look at after each wrapper key. */
  lemma LaterWrappers(e: Yaml)
    ensures UnwrapFrom(e, 4) == (if NodeGet(e, "identifier").Some? || NodeGet(e, "name").Some? then Keyed("_direct", e)
      else Unkeyed)
    ensures UnwrapFrom(e, 3) == (if HoldsMapping(e, "parallel") then Keyed("parallel", NodeGet(e, "parallel").value)
      else UnwrapFrom(e, 4))
    ensures UnwrapFrom(e, 2) == (if HoldsMapping(e, "stepGroup") then Keyed("stepGroup", NodeGet(e, "stepGroup").value)
      else UnwrapFrom(e, 3))
    ensures UnwrapFrom(e, 1) == (if HoldsMapping(e, "step") then Keyed("step", NodeGet(e, "step").value)
      else UnwrapFrom(e, 2))
    ensures UnwrapFrom(e, 0) == (if HoldsMapping(e, "stage") then Keyed("stage", NodeGet(e, "stage").value)
      else UnwrapFrom(e, 1))
  {
    assert WRAPPERS[0] == "stage" && WRAPPERS[1] == "step" && WRAPPERS[2] == "stepGroup" && WRAPPERS[3] == "parallel";
  }

  /** Two elements are the same unit: one wrapper, and one identifier or, without identifiers, one name. */
  predicate SameUnit(a: Element, b: Element) {
    a.Keyed? && b.Keyed? && a.wrapper == b.wrapper &&
    var x, y := TextUnder(a.inner, "identifier"), TextUnder(b.inner, "identifier");
    var m, n := TextUnder(a.inner, "name"), TextUnder(b.inner, "name");
    || (x != "" && y != "" && x == y)
    || (x != "" && y == "" && x == n)
    || (x == "" && y != "" && m == y)
    || (x == "" && y == "" && m != "" && m == n)
  }

  /** Elements match exactly when they are the same unit; a name counts only where there is no identifier. */
  lemma MatchesSameUnit(a: Yaml, b: Yaml)
    ensures KeyOf(a).Some? && KeyOf(a) == KeyOf(b) <==> SameUnit(Unwrap(a), Unwrap(b))
  {
    if KeyOf(a).Some? && KeyOf(a) == KeyOf(b) {
      KeyParts(a, b);
    }
  }

  /******* What becomes of the elements *******/

  /** The two elements are the same unit. */
  predicate Same(a: Yaml, b: Yaml) {
    SameUnit(Unwrap(a), Unwrap(b))
  }

  predicate NoneSame(s: Yaml, ins: seq<Yaml>, from: nat) {
    forall l :: from <= l < |ins| ==> !Same(s, ins[l])
  }

  /** `l` is the last input that is the same unit as `s`. */
  predicate LastMatch(s: Yaml, ins: seq<Yaml>, l: nat) {
    l < |ins| && Same(s, ins[l]) && NoneSame(s, ins, l + 1)
  }

  lemma {:induction false} LastKey(items: seq<Yaml>, key: string)
    ensures LastWith(items, key).Some? ==>
      forall m :: LastWith(items, key).value < m < |items| ==> KeyOf(items[m]) != Some(key)
  {
    if items != [] && KeyOf(items[|items| - 1]) != Some(key) {
      var front := items[..|items| - 1];
      LastKey(front, key);
      assert forall m :: 0 <= m < |front| ==> front[m] == items[m];
    }
  }

  lemma LastWithIs(s: Yaml, ins: seq<Yaml>)
    requires KeyOf(s).Some?
    ensures var at := LastWith(ins, KeyOf(s).value);
      if at.Some? then LastMatch(s, ins, at.value) else NoneSame(s, ins, 0)
  {
    LastKey(ins, KeyOf(s).value);
    forall l | 0 <= l < |ins| ensures KeyOf(ins[l]) == KeyOf(s) <==> Same(s, ins[l]) {
      MatchesSameUnit(s, ins[l]);
    }
  }

  /** An element without a name or identifier of its own matches nothing. */
  lemma UnkeyedMatchesNothing(s: Yaml, ins: seq<Yaml>)
    requires KeyOf(s).None?
    ensures NoneSame(s, ins, 0)
  {
    forall l | 0 <= l < |ins| ensures !Same(s, ins[l]) {
      MatchesSameUnit(s, ins[l]);
    }
  }

  lemma OneLastMatch(s: Yaml, ins: seq<Yaml>, l: nat, m: nat)
    requires LastMatch(s, ins, l) && LastMatch(s, ins, m)
    ensures l == m
  {
  }

  /**
    Each template element is merged with the last input that is the same unit, in a
    fresh wrapper of the same key.
  */
  lemma ElementMerges(s: Yaml, ins: seq<Yaml>, l: nat)
    requires LastMatch(s, ins, l)
    ensures MergeElement(s, ins) ==
      var m := Merge(Unwrap(s).inner, Unwrap(ins[l]).inner);
      if Unwrap(s).wrapper == "_direct" then m else Mapping([Entry(Unwrap(s).wrapper, m)])
  {
    if KeyOf(s).None? {
      UnkeyedMatchesNothing(s, ins);
    } else {
      LastWithIs(s, ins);
      if LastWith(ins, KeyOf(s).value).Some? {
        OneLastMatch(s, ins, l, LastWith(ins, KeyOf(s).value).value);
      }
    }
  }

  /** A template element that no input is the same unit as is kept as it is. */
  lemma ElementStays(s: Yaml, ins: seq<Yaml>)
    requires NoneSame(s, ins, 0)
    ensures MergeElement(s, ins) == s
  {
    if KeyOf(s).Some? {
      LastWithIs(s, ins);
    }
  }

  /**
    An array of which no input can be told apart replaces the template's; otherwise
    the template's elements come first, each merged by itself, and the inputs that
    are no template element's unit follow.
  */
  lemma ArrayMerges(ss: seq<Yaml>, ins: seq<Yaml>)
    ensures !SomeKeyed(ins) ==> MergeItems(ss, ins) == ins
    ensures SomeKeyed(ins) ==>
      && |MergeItems(ss, ins)| >= |ss|
      && (forall j :: 0 <= j < |ss| ==> MergeItems(ss, ins)[j] == MergeElement(ss[j], ins))
      && MergeItems(ss, ins)[|ss|..] == Unmatched(ss, ins, |ins|)
  {
    ElementsAre(ss, ins);
  }

  /** An input is appended exactly when it is some unit and no template element is the same one. */
  lemma NewInputs(ss: seq<Yaml>, u: Yaml)
    ensures IsNew(ss, u) <==> Same(u, u) && NoneSame(u, ss, 0)
  {
    MatchesSameUnit(u, u);
    if KeyOf(u).Some? {
      LastWithIs(u, ss);
    }
  }

  /** Values merge as mappings or as arrays when both are such; in every other case the input replaces the value. */
  lemma ValuesMerge(s: Option<Yaml>, i: Yaml)
    ensures (s.Some? && s.value.Mapping? && i.Mapping?) ==>
      Combine(s, i) == Mapping(MergeEntries(s.value.entries, i.entries))
    ensures (s.Some? && s.value.Sequence? && i.Sequence?) ==>
      Combine(s, i) == Sequence(MergeItems(s.value.items, i.items))
    ensures !(s.Some? && s.value.Mapping? && i.Mapping?) && !(s.Some? && s.value.Sequence? && i.Sequence?) ==>
      Combine(s, i) == i
  {
  }
}
