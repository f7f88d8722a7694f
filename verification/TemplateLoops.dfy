/**
  The loops of resolver/template.go and resolver/yaml_helpers.go, each proved
  against the function that specifies it.
*/
module TemplateLoops {
  import opened Common
  import opened YamlTree
  import opened Template

  method NodeGet(n: Yaml, key: string) returns (r: Option<Yaml>)
    ensures r == YamlTree.NodeGet(n, key)
  {
    if !n.Mapping? { return None; }
    for i := 0 to |n.entries|
      invariant forall j :: 0 <= j < i ==> n.entries[j].key != key
    {
      if n.entries[i].key == key {
        FindIs(n.entries, key, i);
        return Some(n.entries[i].value);
      }
    }
    FindIsNot(n.entries, key);
    return None;
  }

  /** nodeSet on a mapping's content: overwrites in place or appends. */
  method NodeSet(es: seq<Entry>, key: string, v: Yaml) returns (r: seq<Entry>)
    ensures r == Set(es, key, v)
  {
    for i := 0 to |es|
      invariant forall j :: 0 <= j < i ==> es[j].key != key
    {
      if es[i].key == key {
        FindIs(es, key, i);
        return es[i := Entry(es[i].key, v)];
      }
    }
    FindIsNot(es, key);
    return es + [Entry(key, v)];
  }

  /** nodeDeepClone: a fresh tree with the same content. */
  method NodeDeepClone(n: Yaml) returns (r: Yaml)
    ensures r == n
    decreases n
  {
    match n
    case Scalar(v) => r := Scalar(v);
    case Mapping(es) =>
      var content: seq<Entry> := [];
      for i := 0 to |es|
        invariant content == es[..i]
      {
        var v := NodeDeepClone(es[i].value);
        content := content + [Entry(es[i].key, v)];
      }
      r := Mapping(content);
    case Sequence(items) =>
      var content: seq<Yaml> := [];
      for i := 0 to |items|
        invariant content == items[..i]
      {
        var v := NodeDeepClone(items[i]);
        content := content + [v];
      }
      r := Sequence(content);
  }

  method MergeTemplateInputs(spec: Option<Yaml>, inputs: Option<Yaml>) returns (r: Option<Yaml>)
    ensures r == MergeTemplate(spec, inputs)
  {
    if inputs.None? || !inputs.value.Mapping? { return spec; }
    if spec.None? { return inputs; }
    var merged := MergeNodes(spec.value, inputs.value);
    return Some(merged);
  }

  method MergeNodes(spec: Yaml, inputs: Yaml) returns (r: Yaml)
    ensures r == Merge(spec, inputs)
    decreases inputs, 1
  {
    if !inputs.Mapping? { return spec; }
    if !spec.Mapping? { return inputs; }
    var result := NodeDeepClone(spec);
    var content := result.entries;
    for i := 0 to |inputs.entries|
      invariant content == MergeEntries(spec.entries, inputs.entries[..i])
    {
      var key, inputVal := inputs.entries[i].key, inputs.entries[i].value;
      assert inputs.entries[..i + 1][..i] == inputs.entries[..i];
      var specVal := NodeGet(Mapping(content), key);
      var v;
      if specVal.None? {
        v := NodeDeepClone(inputVal);
      } else if specVal.value.Mapping? && inputVal.Mapping? {
        v := MergeNodes(specVal.value, inputVal);
      } else if specVal.value.Sequence? && inputVal.Sequence? {
        var items := MergeArraysByIdentifier(specVal.value.items, inputVal.items);
        v := Sequence(items);
      } else {
        v := NodeDeepClone(inputVal);
      }
      content := NodeSet(content, key, v);
    }
    assert inputs.entries[..|inputs.entries|] == inputs.entries;
    return Mapping(content);
  }

  /** `index` maps every key among the inputs to the last unit that has it. */
  ghost predicate Indexes(index: map<string, Yaml>, ins: seq<Yaml>) {
    forall k: string :: IndexesKey(index, ins, k)
  }

  predicate IndexesKey(index: map<string, Yaml>, ins: seq<Yaml>, k: string) {
    var at := LastWith(ins, k);
    (k in index <==> at.Some?) && (at.Some? ==> index[k] == Unwrap(ins[at.value]).inner)
  }

  function WithElement(index: map<string, Yaml>, e: Yaml): map<string, Yaml> {
    if KeyOf(e).Some? then index[KeyOf(e).value := Unwrap(e).inner] else index
  }

  lemma IndexOneMore(index: map<string, Yaml>, front: seq<Yaml>, e: Yaml)
    requires Indexes(index, front)
    ensures Indexes(WithElement(index, e), front + [e])
  {
    var ins := front + [e];
    assert ins[..|front|] == front;
    forall k: string ensures IndexesKey(WithElement(index, e), ins, k) {
      assert IndexesKey(index, front, k);
    }
  }

  /** A key without an identifier is never indexed. */
  lemma NoEmptyIdentifier(ins: seq<Yaml>, w: string)
    requires IsWrapper(w)
    ensures LastWith(ins, w + "/" + "") == None
  {
    var at := LastWith(ins, w + "/" + "");
    if at.Some? {
      var u := Unwrap(ins[at.value]);
      WrapperIsKnown(ins[at.value], 0);
      NoSlash(u.wrapper);
      NoSlash(w);
      SlashSplits(u.wrapper, Identifier(u.inner), w, "");
      assert false;
    }
  }

  method IndexInputs(ins: seq<Yaml>) returns (index: map<string, Yaml>)
    ensures Indexes(index, ins)
    ensures index == map[] <==> !SomeKeyed(ins)
  {
    index := map[];
    for n := 0 to |ins|
      invariant Indexes(index, ins[..n])
      invariant index == map[] <==> forall j :: 0 <= j < n ==> KeyOf(ins[j]).None?
    {
      assert ins[..n + 1] == ins[..n] + [ins[n]];
      IndexOneMore(index, ins[..n], ins[n]);
      var u := Unwrap(ins[n]);
      if u.Unkeyed? { continue; }
      var id := Identifier(u.inner);
      if id != "" {
        index := index[u.wrapper + "/" + id := u.inner];
        assert u.wrapper + "/" + id in index;
      }
    }
    assert ins[..|ins|] == ins;
  }

  /** `used` holds the indexed keys that some of the template's elements have. */
  ghost predicate Used(used: set<string>, index: map<string, Yaml>, ss: seq<Yaml>) {
    forall k: string :: k in used <==> k in index && LastWith(ss, k).Some?
  }

  lemma UsedOneMore(used: set<string>, index: map<string, Yaml>, front: seq<Yaml>, s: Yaml)
    requires Used(used, index, front)
    ensures Used(used + (if KeyOf(s).Some? && KeyOf(s).value in index then {KeyOf(s).value}
        else {}), index, front + [s])
  {
    assert (front + [s])[..|front|] == front;
  }

  lemma ElementsOneMore(ss: seq<Yaml>, n: nat, ins: seq<Yaml>)
    requires n < |ss|
    ensures ss[..n + 1] == ss[..n] + [ss[n]]
    ensures MergeElements(ss[..n + 1], ins) == MergeElements(ss[..n], ins) + [MergeElement(ss[n], ins)]
  {
    assert ss[..n + 1][..n] == ss[..n];
  }

  /** One template element: merged with the input of its key, or cloned. */
  method MergeOne(s: Yaml, ins: seq<Yaml>, index: map<string, Yaml>) returns (r: Yaml, key: Option<string>)
    requires Indexes(index, ins)
    ensures r == MergeElement(s, ins)
    ensures key == if KeyOf(s).Some? && KeyOf(s).value in index then KeyOf(s) else None
    decreases ins, 0
  {
    var u := Unwrap(s);
    if u.Keyed? && Identifier(u.inner) != "" {
      var k := u.wrapper + "/" + Identifier(u.inner);
      assert IndexesKey(index, ins, k);
      if k in index {
        ghost var at := LastWith(ins, k).value;
        assert index[k] == Unwrap(ins[at]).inner;
        var inner := MergeNodes(u.inner, index[k]);
        return if u.wrapper == "_direct" then inner else Mapping([Entry(u.wrapper, inner)]), Some(k);
      }
    }
    r := NodeDeepClone(s);
    key := None;
  }

  method MergeMatched(ss: seq<Yaml>, ins: seq<Yaml>, index: map<string, Yaml>) returns (r: seq<Yaml>, used: set<string>)
    requires Indexes(index, ins)
    ensures r == MergeElements(ss, ins) && Used(used, index, ss)
    decreases ins, 1
  {
    r, used := [], {};
    for n := 0 to |ss|
      invariant r == MergeElements(ss[..n], ins) && Used(used, index, ss[..n])
    {
      ElementsOneMore(ss, n, ins);
      UsedOneMore(used, index, ss[..n], ss[n]);
      var merged, key := MergeOne(ss[n], ins, index);
      r := r + [merged];
      used := used + if key.Some? then {key.value} else {};
    }
    assert ss[..|ss|] == ss;
  }

  /** Whether an input is appended: its key is indexed and was not used. */
  method IsLeftOver(u: Yaml, index: map<string, Yaml>, used: set<string>, ghost ss: seq<Yaml>, ghost ins: seq<Yaml>)
    returns (b: bool)
    requires Indexes(index, ins) && Used(used, index, ss) && u in ins
    ensures b <==> IsNew(ss, u)
  {
    var unwrapped := Unwrap(u);
    if unwrapped.Unkeyed? { return false; }
    var key := unwrapped.wrapper + "/" + Identifier(unwrapped.inner);
    WrapperIsKnown(u, 0);
    assert IndexesKey(index, ins, key);
    if Identifier(unwrapped.inner) == "" {
      NoEmptyIdentifier(ins, unwrapped.wrapper);
    } else {
      ghost var n :| 0 <= n < |ins| && ins[n] == u;
      KeyIsFound(ins, n);
    }
    return key in index && key !in used;
  }

  method MergeArraysByIdentifier(ss: seq<Yaml>, ins: seq<Yaml>) returns (r: seq<Yaml>)
    ensures r == MergeItems(ss, ins)
    decreases ins, 2
  {
    var index := IndexInputs(ins);
    if |index| == 0 {
      var clone := NodeDeepClone(Sequence(ins));
      return clone.items;
    }
    var elements, used := MergeMatched(ss, ins, index);
    r := elements;
    for n := 0 to |ins|
      invariant r == elements + Unmatched(ss, ins, n)
    {
      var leftOver := IsLeftOver(ins[n], index, used, ss, ins);
      if leftOver {
        Appended(elements, Unmatched(ss, ins, n), ins[n]);
        var clone := NodeDeepClone(ins[n]);
        r := r + [clone];
      }
    }
  }
}
