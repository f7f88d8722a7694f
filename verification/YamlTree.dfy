/** YAML trees and access to their mappings (resolver/yaml_helpers.go, verifier/pipeline/yaml.go). */
module YamlTree {
  import opened Common

  /** A YAML node by its content.  A mapping keeps its keys in document order. */
  datatype Yaml = Scalar(value: string) | Mapping(entries: seq<Entry>) | Sequence(items: seq<Yaml>)

  datatype Entry = Entry(key: string, value: Yaml)

  function ValueOf(y: Yaml): string {
    if y.Scalar? then y.value else ""
  }

  /** The position of a key's first occurrence. */
  function Find(es: seq<Entry>, key: string): (r: Option<nat>)
    ensures r.Some? ==> r.value < |es| && es[r.value].key == key && forall i :: 0 <= i < r.value ==> es[i].key != key
    ensures r.None? ==> forall i :: 0 <= i < |es| ==> es[i].key != key
  {
    if es == [] then None
    else
      var front := Find(es[..|es| - 1], key);
      if front.Some? then front
      else if es[|es| - 1].key == key then Some(|es| - 1)
      else None
  }

  function Get(es: seq<Entry>, key: string): Option<Yaml> {
    var at := Find(es, key);
    if at.Some? then Some(es[at.value].value) else None
  }

  function Set(es: seq<Entry>, key: string, v: Yaml): seq<Entry> {
    var at := Find(es, key);
    if at.Some? then es[at.value := Entry(key, v)] else es + [Entry(key, v)]
  }

  /** nodeGet: nothing for a node that is no mapping. */
  function NodeGet(n: Yaml, key: string): (r: Option<Yaml>)
    ensures r.Some? ==> r.value < n
  {
    if n.Mapping? then Get(n.entries, key) else None
  }

  lemma FindAtMost(es: seq<Entry>, key: string, i: nat)
    requires i < |es| && es[i].key == key
    ensures Find(es, key).Some? && Find(es, key).value <= i
  {
  }

  lemma FindIs(es: seq<Entry>, key: string, at: nat)
    requires at < |es| && es[at].key == key && forall i :: 0 <= i < at ==> es[i].key != key
    ensures Find(es, key) == Some(at)
  {
    FindAtMost(es, key, at);
  }

  lemma FindIsNot(es: seq<Entry>, key: string)
    requires forall i :: 0 <= i < |es| ==> es[i].key != key
    ensures Find(es, key) == None
  {
  }

  lemma SetKeys(es: seq<Entry>, key: string, v: Yaml)
    ensures var r := Set(es, key, v);
      && |es| <= |r| <= |es| + 1
      && (forall i :: 0 <= i < |es| ==> r[i].key == es[i].key)
      && (Find(es, key).Some? ==> |r| == |es|)
      && (Find(es, key).None? ==> |r| == |es| + 1 && r[|es|].key == key)
  {
  }
}
