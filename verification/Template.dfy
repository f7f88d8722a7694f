/**
  The deep merge of template inputs onto a template (resolver/template.go).
*/
module Template {
  import opened Common
  import opened YamlTree

  /******* Array elements *******/

  datatype Element = Unkeyed | Keyed(wrapper: string, inner: Yaml)

  const WRAPPERS := ["stage", "step", "stepGroup", "parallel"]

  function UnwrapFrom(e: Yaml, w: nat): (r: Element)
    requires w <= |WRAPPERS|
    ensures r.Keyed? ==> r.inner.Mapping? && (r.inner < e || r.inner == e)
    decreases |WRAPPERS| - w
  {
    if w < |WRAPPERS| then
      var inner := NodeGet(e, WRAPPERS[w]);
      if inner.Some? && inner.value.Mapping? then Keyed(WRAPPERS[w], inner.value) else UnwrapFrom(e, w + 1)
    else if NodeGet(e, "identifier").Some? || NodeGet(e, "name").Some? then Keyed("_direct", e)
    else Unkeyed
  }

  /** unwrapArrayElement: the first wrapper key that holds a mapping, or the element itself. */
  function Unwrap(e: Yaml): (r: Element)
    ensures r.Keyed? ==> r.inner.Mapping? && (r.inner < e || r.inner == e)
  {
    UnwrapFrom(e, 0)
  }

  /** getElementIdentifier: a non-empty `identifier`, else a non-empty `name`, else "". */
  function Identifier(n: Yaml): string {
    var id, name := NodeGet(n, "identifier"), NodeGet(n, "name");
    if id.Some? && ValueOf(id.value) != "" then ValueOf(id.value)
    else if name.Some? then ValueOf(name.value)
    else ""
  }

  /** What identifies an element among its siblings, if anything does. */
  function KeyOf(e: Yaml): Option<string> {
    var u := Unwrap(e);
    if u.Unkeyed? || Identifier(u.inner) == "" then None else Some(u.wrapper + "/" + Identifier(u.inner))
  }

  /** The last element with the key. */
  function LastWith(items: seq<Yaml>, key: string): (r: Option<nat>)
    ensures r.Some? ==> r.value < |items| && KeyOf(items[r.value]) == Some(key)
    ensures r.None? ==> forall i :: 0 <= i < |items| ==> KeyOf(items[i]) != Some(key)
  {
    if items == [] then None
    else if KeyOf(items[|items| - 1]) == Some(key) then Some(|items| - 1)
    else LastWith(items[..|items| - 1], key)
  }

  predicate SomeKeyed(items: seq<Yaml>) {
    exists i :: 0 <= i < |items| && KeyOf(items[i]).Some?
  }

  /******* Merging *******/

  function Merge(s: Yaml, i: Yaml): Yaml
    decreases i, 3
  {
    if !i.Mapping? then s
    else if !s.Mapping? then i
    else Mapping(MergeEntries(s.entries, i.entries))
  }

  function MergeEntries(acc: seq<Entry>, ins: seq<Entry>): seq<Entry>
    decreases ins, 2
  {
    if ins == [] then acc
    else
      var n := |ins| - 1;
      var r := MergeEntries(acc, ins[..n]);
      Set(r, ins[n].key, Combine(Get(r, ins[n].key), ins[n].value))
  }

  function Combine(s: Option<Yaml>, i: Yaml): Yaml
    decreases i, 4
  {
    if s.Some? && s.value.Mapping? && i.Mapping? then Merge(s.value, i)
    else if s.Some? && s.value.Sequence? && i.Sequence? then Sequence(MergeItems(s.value.items, i.items))
    else i
  }

  function MergeItems(ss: seq<Yaml>, ins: seq<Yaml>): seq<Yaml>
    decreases ins, |ss| + 2
  {
    if !SomeKeyed(ins) then ins else MergeElements(ss, ins) + Unmatched(ss, ins, |ins|)
  }

  /** The template's elements, the matched ones merged. */
  function MergeElements(ss: seq<Yaml>, ins: seq<Yaml>): seq<Yaml>
    decreases ins, |ss| + 1
  {
    if ss == [] then [] else MergeElements(ss[..|ss| - 1], ins) + [MergeElement(ss[|ss| - 1], ins)]
  }

  function MergeElement(s: Yaml, ins: seq<Yaml>): Yaml
    decreases ins, 0
  {
    if KeyOf(s).None? then s
    else
      var at := LastWith(ins, KeyOf(s).value);
      if at.None? then s
      else Rewrap(Unwrap(s).wrapper, Merge(Unwrap(s).inner, Unwrap(ins[at.value]).inner))
  }

  function Rewrap(wrapper: string, inner: Yaml): Yaml {
    if wrapper == "_direct" then inner else Mapping([Entry(wrapper, inner)])
  }

  /** Among the first `k` inputs, the keyed ones that no template element has the key of. */
  function Unmatched(ss: seq<Yaml>, ins: seq<Yaml>, k: nat): seq<Yaml>
    requires k <= |ins|
  {
    if k == 0 then []
    else Unmatched(ss, ins, k - 1) + (if IsNew(ss, ins[k - 1]) then [ins[k - 1]] else [])
  }

  /** A keyed input that no template element has the key of. */
  predicate IsNew(ss: seq<Yaml>, u: Yaml) {
    KeyOf(u).Some? && LastWith(ss, KeyOf(u).value).None?
  }

  /******* Unique keys *******/

  predicate DistinctKeys(es: seq<Entry>) {
    forall i, j :: 0 <= i < j < |es| ==> es[i].key != es[j].key
  }

  /** A keyed wrapper has no key beside the wrapped unit. */
  predicate SingleKey(e: Yaml) {
    KeyOf(e).Some? && Unwrap(e).wrapper != "_direct" ==> e.Mapping? && |e.entries| == 1
  }

  predicate DistinctElements(items: seq<Yaml>) {
    forall i, j :: 0 <= i < j < |items| && KeyOf(items[i]).Some? ==> KeyOf(items[i]) != KeyOf(items[j])
  }

  /** Mapping keys and the (wrapper, identifier) pairs of every sequence are unique, all the way down. */
  predicate Unique(y: Yaml)
    decreases y
  {
    match y
    case Scalar(_) => true
    case Mapping(es) => DistinctKeys(es) && forall i :: 0 <= i < |es| ==> Unique(es[i].value)
    case Sequence(items) => DistinctElements(items) && forall i :: 0 <= i < |items| ==> Unique(items[i])
  }

  /** Wherever a merge can match an element, nothing stands beside the unit in its wrapper. */
  predicate NothingBeside(y: Yaml)
    decreases y
  {
    match y
    case Scalar(_) => true
    case Mapping(es) => forall i :: 0 <= i < |es| ==> NothingBeside(es[i].value)
    case Sequence(items) =>
      forall i :: 0 <= i < |items| && KeyOf(items[i]).Some? ==> SingleKey(items[i]) && NothingBeside(items[i])
  }

  /******* Mappings *******/

  /** Setting one key leaves every other one alone. */
  lemma GetAfterSet(es: seq<Entry>, key: string, v: Yaml, k: string)
    ensures Get(Set(es, key, v), k) == if k == key then Some(v) else Get(es, k)
  {
    var r := Set(es, key, v);
    SetKeys(es, key, v);
    var at := Find(es, if k == key then key else k);
    if at.Some? {
      FindIs(r, k, at.value);
    } else if k == key {
      FindIs(r, k, |es|);
    } else {
      FindIsNot(r, k);
    }
  }

  lemma SetPresent(es: seq<Entry>, key: string, v: Yaml)
    requires Get(es, key) == Some(v)
    ensures Set(es, key, v) == es
  {
  }

  lemma DistinctFront(es: seq<Entry>)
    requires DistinctKeys(es) && es != []
    ensures DistinctKeys(es[..|es| - 1]) && Find(es[..|es| - 1], es[|es| - 1].key) == None
  {
    var front, key := es[..|es| - 1], es[|es| - 1].key;
    forall i | 0 <= i < |front| ensures front[i].key != key {
      assert front[i] == es[i];
    }
    FindIsNot(front, key);
  }

  /** The values of a key in `ins`, combined one after the other onto `v`. */
  function Folded(v: Option<Yaml>, ins: seq<Entry>, k: string): Option<Yaml> {
    if ins == [] then v
    else
      var r, e := Folded(v, ins[..|ins| - 1], k), ins[|ins| - 1];
      if e.key == k then Some(Combine(r, e.value)) else r
  }

  /** What a merged mapping holds under each key, repeated keys included. */
  lemma {:induction false} MergedFolds(acc: seq<Entry>, ins: seq<Entry>, k: string)
    ensures Get(MergeEntries(acc, ins), k) == Folded(Get(acc, k), ins, k)
  {
    if ins != [] {
      var n := |ins| - 1;
      MergedFolds(acc, ins[..n], k);
      var r := MergeEntries(acc, ins[..n]);
      GetAfterSet(r, ins[n].key, Combine(Get(r, ins[n].key), ins[n].value), k);
    }
  }

  lemma {:induction false} FoldedIsPresent(v: Option<Yaml>, ins: seq<Entry>, k: string)
    ensures Folded(v, ins, k).Some? <==> v.Some? || Find(ins, k).Some?
    ensures Find(ins, k).None? ==> Folded(v, ins, k) == v
  {
    if ins != [] {
      FoldedIsPresent(v, ins[..|ins| - 1], k);
    }
  }

  /** A key that occurs once in the inputs is combined once. */
  lemma {:induction false} FoldedOnce(v: Option<Yaml>, ins: seq<Entry>, k: string)
    requires DistinctKeys(ins)
    ensures Folded(v, ins, k) == if Get(ins, k).Some? then Some(Combine(v, Get(ins, k).value)) else v
  {
    if ins != [] {
      var n := |ins| - 1;
      DistinctFront(ins);
      FoldedIsPresent(v, ins[..n], k);
      FoldedOnce(v, ins[..n], k);
    }
  }

  lemma MergedValue(acc: seq<Entry>, ins: seq<Entry>, k: string)
    requires DistinctKeys(ins)
    ensures Get(MergeEntries(acc, ins), k) ==
      if Get(ins, k).Some? then Some(Combine(Get(acc, k), Get(ins, k).value)) else Get(acc, k)
  {
    MergedFolds(acc, ins, k);
    FoldedOnce(Get(acc, k), ins, k);
  }

  function Keys(es: seq<Entry>): (r: seq<string>)
    ensures |r| == |es| && forall i :: 0 <= i < |es| ==> r[i] == es[i].key
  {
    seq(|es|, i requires 0 <= i < |es| => es[i].key)
  }

  /** The keys of `ins` that `acc` lacks, in the order of their first occurrence. */
  function NewKeys(acc: seq<Entry>, ins: seq<Entry>): seq<string> {
    if ins == [] then []
    else
      var front, key := ins[..|ins| - 1], ins[|ins| - 1].key;
      NewKeys(acc, front) + (if Find(acc, key).None? && Find(front, key).None? then [key] else [])
  }

  /** A merged mapping keeps the template's keys in their order and appends the new ones in input order. */
  lemma {:induction false} MergedKeys(acc: seq<Entry>, ins: seq<Entry>)
    ensures Keys(MergeEntries(acc, ins)) == Keys(acc) + NewKeys(acc, ins)
  {
    if ins == [] {
      PlusNothing(Keys(acc));
    } else {
      var n := |ins| - 1;
      MergedKeys(acc, ins[..n]);
      MergedFolds(acc, ins[..n], ins[n].key);
      FoldedIsPresent(Get(acc, ins[n].key), ins[..n], ins[n].key);
      var r := MergeEntries(acc, ins[..n]);
      KeysAfterSet(r, ins[n].key, Combine(Get(r, ins[n].key), ins[n].value));
      Appended(Keys(acc), NewKeys(acc, ins[..n]), ins[n].key);
    }
  }

  lemma Appended<T>(a: seq<T>, b: seq<T>, x: T)
    ensures (a + b) + [x] == a + (b + [x]) && (a + b) + [] == a + (b + [])
  {
  }

  lemma KeysAfterSet(es: seq<Entry>, key: string, v: Yaml)
    ensures Keys(Set(es, key, v)) == Keys(es) + if Get(es, key).None? then [key] else []
  {
    SetKeys(es, key, v);
  }

  /** Merging in what is already there changes nothing. */
  lemma {:induction false} NothingNew(acc: seq<Entry>, ins: seq<Entry>)
    requires forall i :: 0 <= i < |ins| ==> Holds(acc, ins[i])
    ensures MergeEntries(acc, ins) == acc
  {
    if ins != [] {
      var n := |ins| - 1;
      NothingNew(acc, ins[..n]);
      assert Holds(acc, ins[n]);
      SetPresent(acc, ins[n].key, Get(acc, ins[n].key).value);
    }
  }

  /** `acc` already holds what combining with `e` would give. */
  predicate Holds(acc: seq<Entry>, e: Entry) {
    var v := Get(acc, e.key);
    v.Some? && Combine(v, e.value) == v.value
  }

  /******* Elements *******/

  /** Only the values of the wrapper keys and of the two naming keys matter for what keys an element. */
  lemma WrapperIsFirst(e: Yaml, w: nat, k: nat)
    requires w <= k < |WRAPPERS| && forall j: nat :: w <= j < k ==> !HoldsMapping(e, WRAPPERS[j])
    requires HoldsMapping(e, WRAPPERS[k])
    ensures UnwrapFrom(e, w) == Keyed(WRAPPERS[k], NodeGet(e, WRAPPERS[k]).value)
    decreases k - w
  {
    if w < k {
      WrapperIsFirst(e, w + 1, k);
    }
  }

  predicate HoldsMapping(e: Yaml, key: string) {
    NodeGet(e, key).Some? && NodeGet(e, key).value.Mapping?
  }

  /** An element is keyed by itself exactly when no wrapper key holds a mapping and it is named. */
  lemma DirectIs(e: Yaml)
    ensures Unwrap(e) == Keyed("_direct", e) <==>
      (forall j: nat :: j < |WRAPPERS| ==> !HoldsMapping(e, WRAPPERS[j])) &&
        (NodeGet(e, "identifier").Some? || NodeGet(e, "name").Some?)
    ensures Unwrap(e).Keyed? && Unwrap(e).wrapper == "_direct" ==> Unwrap(e) == Keyed("_direct", e)
  {
    assert WRAPPERS[0] == "stage" && WRAPPERS[1] == "step" && WRAPPERS[2] == "stepGroup" && WRAPPERS[3] == "parallel";
    assert forall j: nat :: j < |WRAPPERS| ==> WRAPPERS[j] != "_direct";
    assert UnwrapFrom(e, 4) == if NodeGet(e, "identifier").Some? || NodeGet(e, "name").Some? then Keyed("_direct", e)
      else Unkeyed;
  }

  /** The keys an element can be wrapped in. */
  predicate IsWrapper(w: string) {
    w == "_direct" || exists k: nat :: k < |WRAPPERS| && WRAPPERS[k] == w
  }

  lemma WrapperIsKnown(e: Yaml, w: nat)
    requires w <= |WRAPPERS|
    ensures UnwrapFrom(e, w).Keyed? ==> IsWrapper(UnwrapFrom(e, w).wrapper)
    decreases |WRAPPERS| - w
  {
    if w < |WRAPPERS| {
      WrapperIsKnown(e, w + 1);
    }
  }

  lemma NoSlash(w: string)
    requires IsWrapper(w)
    ensures forall i :: 0 <= i < |w| ==> w[i] != '/'
  {
    assert WRAPPERS[0] == "stage" && WRAPPERS[1] == "step" && WRAPPERS[2] == "stepGroup" && WRAPPERS[3] == "parallel";
  }

  lemma SlashSplits(w: string, id: string, w': string, id': string)
    requires (forall i :: 0 <= i < |w| ==> w[i] != '/') && (forall i :: 0 <= i < |w'| ==> w'[i] != '/')
    requires w + "/" + id == w' + "/" + id'
    ensures w == w' && id == id'
  {
    var x, y := w + "/" + id, w' + "/" + id';
    assert x[|w|] == '/' && y[|w'|] == '/';
    assert x[..|w|] == w && y[..|w'|] == w';
    forall i | 0 <= i < |w'| ensures y[i] != '/' {}
    forall i | 0 <= i < |w| ensures x[i] != '/' {}
    assert x[|w| + 1..] == id && y[|w'| + 1..] == id';
  }

  /** Equal keys mean equal wrappers and equal identifiers. */
  lemma KeyParts(a: Yaml, b: Yaml)
    requires KeyOf(a).Some? && KeyOf(a) == KeyOf(b)
    ensures Unwrap(a).wrapper == Unwrap(b).wrapper && Identifier(Unwrap(a).inner) == Identifier(Unwrap(b).inner)
  {
    WrapperIsKnown(a, 0);
    WrapperIsKnown(b, 0);
    NoSlash(Unwrap(a).wrapper);
    NoSlash(Unwrap(b).wrapper);
    SlashSplits(Unwrap(a).wrapper, Identifier(Unwrap(a).inner), Unwrap(b).wrapper, Identifier(Unwrap(b).inner));
  }

  lemma CombinedText(s: Option<Yaml>, i: Yaml)
    ensures ValueOf(Combine(s, i)) == ValueOf(i) && (Combine(s, i).Mapping? <==> i.Mapping?)
  {
  }

  /** Merging in a unit of the same identity keeps that identity. */
  lemma SameIdentity(s: Yaml, i: Yaml)
    requires s.Mapping? && i.Mapping? && DistinctKeys(i.entries)
    requires Identifier(s) == Identifier(i) && Identifier(i) != ""
    ensures Identifier(Merge(s, i)) == Identifier(i)
  {
    MergedValue(s.entries, i.entries, "identifier");
    MergedValue(s.entries, i.entries, "name");
    if Get(i.entries, "identifier").Some? {
      CombinedText(Get(s.entries, "identifier"), Get(i.entries, "identifier").value);
    }
    if Get(i.entries, "name").Some? {
      CombinedText(Get(s.entries, "name"), Get(i.entries, "name").value);
    }
  }

  lemma MergedHoldsMapping(s: Yaml, i: Yaml, key: string)
    requires s.Mapping? && i.Mapping? && DistinctKeys(i.entries)
    requires !HoldsMapping(s, key) && !HoldsMapping(i, key)
    ensures !HoldsMapping(Merge(s, i), key)
  {
    MergedValue(s.entries, i.entries, key);
    if Get(i.entries, key).Some? {
      CombinedText(Get(s.entries, key), Get(i.entries, key).value);
    }
  }

  lemma MergedDirect(s: Yaml, i: Yaml)
    requires Unwrap(s) == Keyed("_direct", s) && Unwrap(i) == Keyed("_direct", i) && DistinctKeys(i.entries)
    ensures Unwrap(Merge(s, i)) == Keyed("_direct", Merge(s, i))
  {
    DirectIs(s);
    DirectIs(i);
    DirectIs(Merge(s, i));
    forall j: nat | j < |WRAPPERS| ensures !HoldsMapping(Merge(s, i), WRAPPERS[j]) {
      MergedHoldsMapping(s, i, WRAPPERS[j]);
    }
    MergedValue(s.entries, i.entries, "identifier");
    MergedValue(s.entries, i.entries, "name");
  }

  lemma RewrappedIsKeyed(w: string, inner: Yaml)
    requires IsWrapper(w) && w != "_direct" && inner.Mapping?
    ensures Unwrap(Mapping([Entry(w, inner)])) == Keyed(w, inner)
  {
    var e := Mapping([Entry(w, inner)]);
    var k: nat :| k < |WRAPPERS| && WRAPPERS[k] == w;
    FindIs(e.entries, w, 0);
    forall j: nat | j < k ensures !HoldsMapping(e, WRAPPERS[j]) {
      DistinctWrappers(j, k);
      FindIsNot(e.entries, WRAPPERS[j]);
    }
    WrapperIsFirst(e, 0, k);
  }

  lemma DistinctWrappers(j: nat, k: nat)
    requires j < k < |WRAPPERS|
    ensures WRAPPERS[j] != WRAPPERS[k]
  {
    assert WRAPPERS[0] == "stage" && WRAPPERS[1] == "step" && WRAPPERS[2] == "stepGroup" && WRAPPERS[3] == "parallel";
  }

  lemma InnerIsUnique(e: Yaml, w: nat)
    requires Unique(e) && w <= |WRAPPERS|
    ensures UnwrapFrom(e, w).Keyed? ==> Unique(UnwrapFrom(e, w).inner) && DistinctKeys(UnwrapFrom(e, w).inner.entries)
    decreases |WRAPPERS| - w
  {
    if w < |WRAPPERS| {
      InnerIsUnique(e, w + 1);
    }
  }

  /** A merged element keeps its wrapper and its key. */
  lemma MergedElement(s: Yaml, u: Yaml)
    requires KeyOf(s).Some? && KeyOf(u) == KeyOf(s) && Unique(u)
    ensures var m := Merge(Unwrap(s).inner, Unwrap(u).inner);
      Unwrap(Rewrap(Unwrap(s).wrapper, m)) == Keyed(Unwrap(s).wrapper, m) &&
        KeyOf(Rewrap(Unwrap(s).wrapper, m)) == KeyOf(s)
  {
    var m := Merge(Unwrap(s).inner, Unwrap(u).inner);
    KeyParts(s, u);
    InnerIsUnique(u, 0);
    SameIdentity(Unwrap(s).inner, Unwrap(u).inner);
    WrapperIsKnown(s, 0);
    if Unwrap(s).wrapper == "_direct" {
      DirectIs(s);
      DirectIs(u);
      MergedDirect(s, u);
    } else {
      RewrappedIsKeyed(Unwrap(s).wrapper, m);
    }
  }

  lemma WrapperHolds(e: Yaml, w: nat)
    requires w <= |WRAPPERS|
    ensures var u := UnwrapFrom(e, w); u.Keyed? && u.wrapper != "_direct" ==> NodeGet(e, u.wrapper) == Some(u.inner)
    decreases |WRAPPERS| - w
  {
    if w < |WRAPPERS| {
      WrapperHolds(e, w + 1);
    }
  }

  /******* Arrays *******/

  lemma {:induction false} ElementsAre(ss: seq<Yaml>, ins: seq<Yaml>)
    ensures var r := MergeElements(ss, ins);
      |r| == |ss| && forall j :: 0 <= j < |ss| ==> r[j] == MergeElement(ss[j], ins)
  {
    if ss != [] {
      ElementsAre(ss[..|ss| - 1], ins);
    }
  }

  lemma LastIs(items: seq<Yaml>, j: nat)
    requires DistinctElements(items) && j < |items| && KeyOf(items[j]).Some?
    ensures LastWith(items, KeyOf(items[j]).value) == Some(j)
  {
    forall i | 0 <= i < |items| && i != j ensures KeyOf(items[i]) != KeyOf(items[j]) {
      if i < j {
        assert KeyOf(items[i]).Some? ==> KeyOf(items[i]) != KeyOf(items[j]);
      }
    }
  }

  /** A merged element still has the template element's key. */
  lemma ElementKey(s: Yaml, ins: seq<Yaml>)
    requires forall j :: 0 <= j < |ins| ==> Unique(ins[j])
    ensures KeyOf(MergeElement(s, ins)) == KeyOf(s)
  {
    if KeyOf(s).Some? {
      var at := LastWith(ins, KeyOf(s).value);
      if at.Some? {
        MergedElement(s, ins[at.value]);
      }
    }
  }

  lemma {:induction false} UnmatchedMembers(ss: seq<Yaml>, ins: seq<Yaml>, k: nat, u: Yaml)
    requires k <= |ins|
    ensures u in Unmatched(ss, ins, k) <==> IsNew(ss, u) && exists j :: 0 <= j < k && ins[j] == u
  {
    if k > 0 {
      UnmatchedMembers(ss, ins, k - 1, u);
    }
  }

  /**
    A keyed array merge yields the template's elements in their order with their
    keys unchanged, then exactly the inputs of no template element's key, in input order.
  */
  lemma MergedArray(ss: seq<Yaml>, ins: seq<Yaml>)
    requires SomeKeyed(ins) && forall j :: 0 <= j < |ins| ==> Unique(ins[j])
    ensures var r := MergeItems(ss, ins);
      && |r| >= |ss|
      && (forall j :: 0 <= j < |ss| ==> KeyOf(r[j]) == KeyOf(ss[j]) && (KeyOf(ss[j]).None? ==> r[j] == ss[j]))
      && r[|ss|..] == Unmatched(ss, ins, |ins|)
      && (forall u :: u in r[|ss|..] <==> u in ins && IsNew(ss, u))
  {
    ElementsAre(ss, ins);
    forall j | 0 <= j < |ss| ensures KeyOf(MergeElement(ss[j], ins)) == KeyOf(ss[j]) {
      ElementKey(ss[j], ins);
    }
    forall u ensures u in Unmatched(ss, ins, |ins|) <==> u in ins && IsNew(ss, u) {
      UnmatchedMembers(ss, ins, |ins|, u);
    }
  }

  lemma {:induction false} NoneUnmatched(ss: seq<Yaml>, ins: seq<Yaml>, k: nat)
    requires k <= |ins| && forall j :: 0 <= j < k ==> !IsNew(ss, ins[j])
    ensures Unmatched(ss, ins, k) == []
  {
    if k > 0 {
      NoneUnmatched(ss, ins, k - 1);
    }
  }

  lemma KeyIsFound(items: seq<Yaml>, j: nat)
    requires j < |items| && KeyOf(items[j]).Some?
    ensures LastWith(items, KeyOf(items[j]).value).Some?
  {
  }

  /** If every element merges to itself and every keyed input is matched, an array merge is the identity. */
  lemma StableArray(ss: seq<Yaml>, ins: seq<Yaml>)
    requires SomeKeyed(ins)
    requires forall j :: 0 <= j < |ss| ==> MergeElement(ss[j], ins) == ss[j]
    requires forall j :: 0 <= j < |ins| ==> !IsNew(ss, ins[j])
    ensures MergeItems(ss, ins) == ss
  {
    ElementsAre(ss, ins);
    NoneUnmatched(ss, ins, |ins|);
  }

  /** A matched wrapper is rebuilt around the merged unit alone. */
  lemma RewrapIs(u: Yaml, m: Yaml)
    requires KeyOf(u).Some?
    ensures Rewrap(Unwrap(u).wrapper, m) == u <==> SingleKey(u) && m == Unwrap(u).inner
  {
    var w := Unwrap(u).wrapper;
    if w == "_direct" {
      DirectIs(u);
    } else {
      WrapperHolds(u, 0);
      assert Find(u.entries, w).Some?;
      if |u.entries| == 1 {
        assert u.entries == [u.entries[0]];
      }
    }
  }

  /** The element a merge makes of an input it meets again. */
  lemma OwnElement(ins: seq<Yaml>, j: nat)
    requires DistinctElements(ins) && j < |ins| && KeyOf(ins[j]).Some?
    ensures MergeElement(ins[j], ins) == ins[j] <==>
      SingleKey(ins[j]) && Merge(Unwrap(ins[j]).inner, Unwrap(ins[j]).inner) == Unwrap(ins[j]).inner
  {
    LastIs(ins, j);
    RewrapIs(ins[j], Merge(Unwrap(ins[j]).inner, Unwrap(ins[j]).inner));
  }

  /** A single-key element has as little beside its units as its own unit. */
  lemma InnerHasNothingBeside(u: Yaml)
    requires KeyOf(u).Some? && SingleKey(u)
    ensures NothingBeside(u) <==> NothingBeside(Unwrap(u).inner)
  {
    var w := Unwrap(u).wrapper;
    if w == "_direct" {
      DirectIs(u);
    } else {
      WrapperHolds(u, 0);
      assert Find(u.entries, w) == Some(0);
    }
  }

  /** Which elements a self-merge leaves alone. */
  predicate KeepsItself(u: Yaml) {
    KeyOf(u).Some? ==> SingleKey(u) && NothingBeside(u)
  }

  /** No input is unmatched when the template is the input itself. */
  lemma SelfMatches(items: seq<Yaml>)
    requires SomeKeyed(items)
    ensures MergeItems(items, items) == MergeElements(items, items)
  {
    forall j | 0 <= j < |items| ensures !IsNew(items, items[j]) {
      if KeyOf(items[j]).Some? {
        KeyIsFound(items, j);
      }
    }
    NoneUnmatched(items, items, |items|);
    PlusNothing(MergeElements(items, items));
  }

  lemma SelfElements(items: seq<Yaml>)
    requires SomeKeyed(items)
    ensures MergeItems(items, items) == items <==>
      forall j :: 0 <= j < |items| ==> MergeElement(items[j], items) == items[j]
  {
    SelfMatches(items);
    ElementsAre(items, items);
    SameElements(items, MergeElements(items, items));
  }

  lemma SameElements<T>(s: seq<T>, r: seq<T>)
    requires |r| == |s|
    ensures r == s <==> forall j :: 0 <= j < |s| ==> r[j] == s[j]
  {
  }

  lemma SelfEntries(es: seq<Entry>)
    requires DistinctKeys(es)
    ensures MergeEntries(es, es) == es <==>
        forall i :: 0 <= i < |es| ==> Combine(Some(es[i].value), es[i].value) == es[i].value
  {
    forall i | 0 <= i < |es|
      ensures Get(es, es[i].key) == Some(es[i].value)
      ensures Get(MergeEntries(es, es), es[i].key) == Some(Combine(Some(es[i].value), es[i].value))
    {
      FindIs(es, es[i].key, i);
      MergedValue(es, es, es[i].key);
    }
    if forall i :: 0 <= i < |es| ==> Combine(Some(es[i].value), es[i].value) == es[i].value {
      NothingNew(es, es);
    }
  }

  lemma SelfElement(items: seq<Yaml>, j: nat)
    requires DistinctElements(items) && j < |items|
    requires KeyOf(items[j]).Some? ==>
      var inner := Unwrap(items[j]).inner; Combine(Some(inner), inner) == inner <==> NothingBeside(inner)
    ensures MergeElement(items[j], items) == items[j] <==> KeepsItself(items[j])
  {
    if KeyOf(items[j]).Some? {
      OwnElement(items, j);
      if SingleKey(items[j]) {
        InnerHasNothingBeside(items[j]);
      }
    }
  }

  /**
    Where keys are unique, merging a tree into itself changes nothing exactly when
    nothing stands beside a unit in any wrapper that the merge matches.
  */
  lemma {:induction false} SelfMergeIs(x: Yaml)
    requires Unique(x)
    ensures Combine(Some(x), x) == x <==> NothingBeside(x)
    decreases x
  {
    match x
    case Scalar(_) =>
    case Mapping(es) =>
      forall i | 0 <= i < |es| ensures Combine(Some(es[i].value), es[i].value) == es[i].value <==>
        NothingBeside(es[i].value) {
        SelfMergeIs(es[i].value);
      }
      SelfMapping(es);
    case Sequence(items) =>
      forall j | 0 <= j < |items| ensures MergeElement(items[j], items) == items[j] <==> KeepsItself(items[j]) {
        if KeyOf(items[j]).Some? {
          InnerIsUnique(items[j], 0);
          SelfMergeIs(Unwrap(items[j]).inner);
        }
        SelfElement(items, j);
      }
      SelfSequence(items);
  }

  lemma SelfMapping(es: seq<Entry>)
    requires DistinctKeys(es)
    requires forall i :: 0 <= i < |es| ==>
      (Combine(Some(es[i].value), es[i].value) == es[i].value <==> NothingBeside(es[i].value))
    ensures Combine(Some(Mapping(es)), Mapping(es)) == Mapping(es) <==> NothingBeside(Mapping(es))
  {
    SelfEntries(es);
  }

  lemma SelfSequence(items: seq<Yaml>)
    requires forall j :: 0 <= j < |items| ==> (MergeElement(items[j], items) == items[j] <==> KeepsItself(items[j]))
    ensures Combine(Some(Sequence(items)), Sequence(items)) == Sequence(items) <==> NothingBeside(Sequence(items))
  {
    NothingBesideMeans(items);
    if SomeKeyed(items) {
      SelfElements(items);
    } else {
      assert forall j :: 0 <= j < |items| ==> KeepsItself(items[j]);
    }
  }

  lemma NothingBesideMeans(items: seq<Yaml>)
    ensures NothingBeside(Sequence(items)) <==> forall j :: 0 <= j < |items| ==> KeepsItself(items[j])
  {
  }

  /** A merged template element is left alone when the same inputs come again. */
  lemma MergedAgain(x: Yaml, ins: seq<Yaml>)
    requires forall j :: 0 <= j < |ins| ==> Unique(ins[j])
    requires KeyOf(x).Some? ==>
      var at := LastWith(ins, KeyOf(x).value);
      at.Some? ==>
        var m, u := Merge(Unwrap(x).inner, Unwrap(ins[at.value]).inner), Unwrap(ins[at.value]).inner;
        Merge(m, u) == m
    ensures MergeElement(MergeElement(x, ins), ins) == MergeElement(x, ins)
  {
    if KeyOf(x).Some? {
      var at := LastWith(ins, KeyOf(x).value);
      if at.Some? {
        MergedElement(x, ins[at.value]);
      }
    }
  }

  /** An input that the merge appended is left alone when it comes again. */
  lemma AppendedAgain(ins: seq<Yaml>, l: nat)
    requires Unique(Sequence(ins)) && NothingBeside(Sequence(ins)) && l < |ins| && KeyOf(ins[l]).Some?
    ensures MergeElement(ins[l], ins) == ins[l]
  {
    InnerIsUnique(ins[l], 0);
    InnerHasNothingBeside(ins[l]);
    SelfMergeIs(Unwrap(ins[l]).inner);
    OwnElement(ins, l);
  }

  /** Merging the same inputs a second time changes nothing, for any template value. */
  lemma {:induction false} CombineAgain(s: Option<Yaml>, i: Yaml)
    requires Unique(i) && NothingBeside(i)
    ensures Combine(Some(Combine(s, i)), i) == Combine(s, i)
    decreases i
  {
    if s.Some? && s.value.Mapping? && i.Mapping? {
      var acc := MergeEntries(s.value.entries, i.entries);
      forall k | 0 <= k < |i.entries| ensures Holds(acc, i.entries[k]) {
        var e := i.entries[k];
        FindIs(i.entries, e.key, k);
        MergedValue(s.value.entries, i.entries, e.key);
        CombineAgain(Get(s.value.entries, e.key), e.value);
      }
      NothingNew(acc, i.entries);
    } else if s.Some? && s.value.Sequence? && i.Sequence? && SomeKeyed(i.items) {
      var r := MergeItems(s.value.items, i.items);
      forall j | 0 <= j < |r| ensures MergeElement(r[j], i.items) == r[j] {
        if j < |s.value.items| {
          var x := s.value.items[j];
          var at := if KeyOf(x).Some? then LastWith(i.items, KeyOf(x).value) else None;
          if at.Some? {
            InnerIsUnique(i.items[at.value], 0);
            InnerHasNothingBeside(i.items[at.value]);
            CombineAgain(Some(Unwrap(x).inner), Unwrap(i.items[at.value]).inner);
          }
          MergedAgain(x, i.items);
          ElementsAre(s.value.items, i.items);
        } else {
          MergedArray(s.value.items, i.items);
          assert r[j] in r[|s.value.items|..];
          var l :| 0 <= l < |i.items| && i.items[l] == r[j];
          AppendedAgain(i.items, l);
        }
      }
      EveryInputMatched(s.value.items, i.items);
      StableArray(r, i.items);
    } else {
      SelfMergeIs(i);
    }
  }

  /** After a merge no keyed input is unmatched. */
  lemma EveryInputMatched(ss: seq<Yaml>, ins: seq<Yaml>)
    requires SomeKeyed(ins) && forall j :: 0 <= j < |ins| ==> Unique(ins[j])
    ensures forall j :: 0 <= j < |ins| ==> !IsNew(MergeItems(ss, ins), ins[j])
  {
    MergedArray(ss, ins);
    var r := MergeItems(ss, ins);
    forall j | 0 <= j < |ins| && KeyOf(ins[j]).Some? ensures LastWith(r, KeyOf(ins[j]).value).Some? {
      var at := LastWith(ss, KeyOf(ins[j]).value);
      if at.Some? {
        KeyIsFound(r, at.value);
      } else {
        assert ins[j] in r[|ss|..];
        var l :| 0 <= l < |r| && r[l] == ins[j];
        KeyIsFound(r, l);
      }
    }
  }

  /******* MergeTemplateInputs *******/

  /** MergeTemplateInputs, with None for a nil node. */
  function MergeTemplate(spec: Option<Yaml>, inputs: Option<Yaml>): Option<Yaml> {
    if inputs.None? || !inputs.value.Mapping? then spec
    else if spec.None? then inputs
    else Some(Merge(spec.value, inputs.value))
  }

  /**
    The merge is idempotent and keeps a tree merged into itself: for inputs with
    unique keys and nothing beside a unit in its wrapper, and whatever the template is.
  */
  lemma MergeIsIdempotent(spec: Option<Yaml>, inputs: Option<Yaml>)
    requires inputs.Some? ==> Unique(inputs.value) && NothingBeside(inputs.value)
    ensures MergeTemplate(MergeTemplate(spec, inputs), inputs) == MergeTemplate(spec, inputs)
    ensures MergeTemplate(inputs, inputs) == inputs
  {
    if inputs.Some? && inputs.value.Mapping? {
      SelfMergeIs(inputs.value);
      if spec.Some? {
        CombineAgain(spec, inputs.value);
      }
    }
  }

  /** `inputs` merge idempotently onto `spec`. */
  predicate MergesOnce(spec: Yaml, inputs: Yaml) {
    Merge(Merge(spec, inputs), inputs) == Merge(spec, inputs)
  }

  /**
    Nothing beside a matched unit is also necessary: inputs with unique keys merge
    idempotently onto every template exactly when no wrapper that can be matched
    holds a second key.
  */
  lemma IdempotentExactly(inputs: Yaml)
    requires inputs.Mapping? && Unique(inputs)
    ensures (forall spec :: MergesOnce(spec, inputs)) <==> NothingBeside(inputs)
  {
    SelfMergeIs(inputs);
    if forall spec :: MergesOnce(spec, inputs) {
      assert MergesOnce(Scalar(""), inputs);
    }
    if NothingBeside(inputs) {
      forall spec ensures MergesOnce(spec, inputs) {
        MergeIsIdempotent(Some(spec), Some(inputs));
      }
    }
  }

  /** What the merge drops: a matched wrapper keeps its keys exactly when it has only the one. */
  lemma SiblingKeysAreLost(s: Yaml, ins: seq<Yaml>)
    requires KeyOf(s).Some? && Unwrap(s).wrapper != "_direct" && LastWith(ins, KeyOf(s).value).Some?
    ensures var r := MergeElement(s, ins);
      && s.Mapping? && r.Mapping? && Keys(r.entries) == [Unwrap(s).wrapper]
      && (Keys(r.entries) == Keys(s.entries) <==> SingleKey(s))
  {
    WrapperHolds(s, 0);
    var w := Unwrap(s).wrapper;
    assert Find(s.entries, w).Some?;
    if |s.entries| == 1 {
      assert s.entries[0].key == w;
      assert Keys(s.entries) == [w];
    }
  }

  /** Why keys have to be unique: the first of two equal keys takes the value of the second. */
  lemma RepeatedKeyIsOverwritten(key: string, v: string, w: string)
    ensures var x := Mapping([Entry(key, Scalar(v)), Entry(key, Scalar(w))]);
      Merge(x, x) == Mapping([Entry(key, Scalar(w)), Entry(key, Scalar(w))])
  {
    var es := [Entry(key, Scalar(v)), Entry(key, Scalar(w))];
    FindIs(es, key, 0);
    var once := es[0 := Entry(key, Scalar(v))];
    assert once == es;
    assert es[..1] == [es[0]] && es[..1][..0] == [];
    assert MergeEntries(es, []) == es;
    assert MergeEntries(es, es[..1]) == es;
    assert MergeEntries(es, es) == es[0 := Entry(key, Scalar(w))];
  }
}
