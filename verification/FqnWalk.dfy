/**
  The second resolver of FQNs: walking the YAML tree itself
  (verifier/pipeline/yaml.go: FindNodeByFQN, walkToNode, splitFQN).
*/
module FqnWalk {
  import opened Common
  import opened Text
  import opened YamlTree

  /** nodeGetScalar. */
  function TextAt(n: Yaml, key: string): string {
    var v := NodeGet(n, key);
    if v.Some? then ValueOf(v.value) else ""
  }

  function NonEmpty(segs: seq<string>): seq<string> {
    if segs == [] then []
    else NonEmpty(segs[..|segs| - 1]) + if segs[|segs| - 1] == "" then [] else [segs[|segs| - 1]]
  }

  /** The non-empty segments of a dotted name. */
  function Segments(fqn: string): seq<string> {
    NonEmpty(Split(fqn))
  }

  /******* The walk *******/

  const UNIT_KEYS := ["step", "stage", "stepGroup"]

  /** The first unit key from the `w`-th on under which the item holds a unit called `id`. */
  function MatchingUnit(item: Yaml, id: string, w: nat): (r: Option<Yaml>)
    requires w <= |UNIT_KEYS|
    ensures r.Some? ==> r.value < item
    decreases |UNIT_KEYS| - w
  {
    if w == |UNIT_KEYS| then None
    else
      var inner := NodeGet(item, UNIT_KEYS[w]);
      if inner.Some? && TextAt(inner.value, "identifier") == id then inner else MatchingUnit(item, id, w + 1)
  }

  /** Whether a list item settles the search, and how. */
  datatype Hit = Miss | Hit(found: Option<Yaml>)

  function WalkToNode(node: Yaml, segs: seq<string>): Option<Yaml>
    decreases node, |segs|, 0
  {
    if segs == [] then Some(node)
    else
      match node
      case Scalar(_) => None
      case Mapping(_) =>
        var v := NodeGet(node, segs[0]);
        if v.Some? then WalkToNode(v.value, segs[1..]) else None
      case Sequence(items) => WalkItems(items, 0, segs)
  }

  /** The list search from the `j`-th item on. */
  function WalkItems(items: seq<Yaml>, j: nat, segs: seq<string>): Option<Yaml>
    requires segs != [] && j <= |items|
    decreases items, |segs|, |items| - j
  {
    if j == |items| then None
    else
      var hit := if items[j].Mapping? then WalkItem(items[j], segs) else Miss;
      if hit.Hit? then hit.found else WalkItems(items, j + 1, segs)
  }

  /** A unit with the right identifier settles it; a `parallel` block only when something is found in it. */
  function WalkItem(item: Yaml, segs: seq<string>): Hit
    requires segs != []
    decreases item, |segs|, 1
  {
    var unit := MatchingUnit(item, segs[0], 0);
    if unit.Some? then Hit(WalkToNode(unit.value, segs[1..]))
    else
      var par := NodeGet(item, "parallel");
      var inside := if par.Some? then WalkToNode(par.value, segs) else None;
      if inside.Some? then Hit(inside)
      else if TextAt(item, "identifier") == segs[0] then Hit(WalkToNode(item, segs[1..]))
      else Miss
  }

  function FindNodeByFqn(root: Yaml, fqn: string): Option<Yaml> {
    if fqn == "" then None else WalkToNode(root, Segments(fqn))
  }

  /** The item holds a unit called `id` under the key. */
  predicate HoldsUnit(item: Yaml, key: string, id: string) {
    NodeGet(item, key).Some? && TextAt(NodeGet(item, key).value, "identifier") == id
  }

  /** A step is preferred to a stage, and a stage to a step group. */
  lemma UnitIsFirst(item: Yaml, id: string)
    ensures MatchingUnit(item, id, 0) ==
      if HoldsUnit(item, "step", id) then NodeGet(item, "step")
      else if HoldsUnit(item, "stage", id) then NodeGet(item, "stage")
      else if HoldsUnit(item, "stepGroup", id) then NodeGet(item, "stepGroup")
      else None
  {
    assert UNIT_KEYS[0] == "step" && UNIT_KEYS[1] == "stage" && UNIT_KEYS[2] == "stepGroup";
    assert MatchingUnit(item, id, 3) == None;
    assert MatchingUnit(item, id, 2) == if HoldsUnit(item, "stepGroup", id) then NodeGet(item, "stepGroup") else None;
  }

  /**
    What settles the search at one list item, wrapped or bare: a wrapped unit of
    that identifier, found or not further down; else what its `parallel` block
    holds, if anything; else the item itself, when it bears the identifier.
  */
  lemma ItemSettles(item: Yaml, segs: seq<string>)
    requires segs != []
    ensures var id, par := segs[0], NodeGet(item, "parallel");
      WalkItem(item, segs) ==
        if HoldsUnit(item, "step", id) then Hit(WalkToNode(NodeGet(item, "step").value, segs[1..]))
        else if HoldsUnit(item, "stage", id) then Hit(WalkToNode(NodeGet(item, "stage").value, segs[1..]))
        else if HoldsUnit(item, "stepGroup", id) then Hit(WalkToNode(NodeGet(item, "stepGroup").value, segs[1..]))
        else if par.Some? && WalkToNode(par.value, segs).Some? then Hit(WalkToNode(par.value, segs))
        else if TextAt(item, "identifier") == id then Hit(WalkToNode(item, segs[1..]))
        else Miss
  {
    UnitIsFirst(item, segs[0]);
  }

  /******* splitFQN *******/

  lemma {:induction false} NonEmptyConcat(a: seq<string>, b: seq<string>)
    ensures NonEmpty(a + b) == NonEmpty(a) + NonEmpty(b)
    decreases |b|
  {
    if b == [] {
      assert a + b == a;
    } else {
      var m := |b| - 1;
      assert (a + b)[..|a| + m] == a + b[..m];
      NonEmptyConcat(a, b[..m]);
    }
  }

  lemma NonEmptyOne(s: string)
    ensures NonEmpty([s]) == if s == "" then [] else [s]
  {
    assert [s][..0] == [];
  }

  lemma SegmentsAtDot(a: string, b: string)
    ensures Segments(a + "." + b) == Segments(a) + Segments(b)
  {
    SplitAtDot(a, b);
    NonEmptyConcat(Split(a), Split(b));
  }

  lemma SegmentsSingle(s: string)
    requires '.' !in s
    ensures Segments(s) == if s == "" then [] else [s]
  {
    SplitSingle(s);
    NonEmptyOne(s);
  }

  lemma SegmentsHead(s: string, i: nat)
    requires i < |s| && s[i] == '.' && '.' !in s[..i]
    ensures Segments(s) == (if i == 0 then [] else [s[..i]]) + Segments(s[i + 1..])
  {
    assert s == s[..i] + "." + s[i + 1..];
    SegmentsAtDot(s[..i], s[i + 1..]);
    SegmentsSingle(s[..i]);
  }

  lemma SliceOfTail<T>(s: seq<T>, start: nat, i: nat)
    requires start <= i < |s|
    ensures s[start..][..i - start] == s[start..i] && s[start..][i - start] == s[i] &&
        s[start..][i - start + 1..] == s[i + 1..]
  {
  }

  /** The segment that the dot at `i` ends, unless it is empty, comes next. */
  lemma SegmentEnds(fqn: string, start: nat, i: nat, segments: seq<string>)
    requires start <= i < |fqn| && fqn[i] == '.' && '.' !in fqn[start..i]
    requires Segments(fqn) == segments + Segments(fqn[start..])
    ensures Segments(fqn) == (if i > start then segments + [fqn[start..i]] else segments) + Segments(fqn[i + 1..])
  {
    SliceOfTail(fqn, start, i);
    SegmentsHead(fqn[start..], i - start);
    Associates(segments, [fqn[start..i]], Segments(fqn[i + 1..]));
    PlusNothing(Segments(fqn[i + 1..]));
  }

  lemma TailTaken<T>(s: seq<T>, start: nat, i: nat)
    requires start <= i < |s|
    ensures s[start..i + 1] == s[start..i] + [s[i]]
  {
  }

  method SplitFqn(fqn: string) returns (segments: seq<string>)
    ensures segments == Segments(fqn)
  {
    segments := [];
    var start := 0;
    assert fqn[0..] == fqn;
    for i := 0 to |fqn|
      invariant 0 <= start <= i
      invariant '.' !in fqn[start..i]
      invariant Segments(fqn) == segments + Segments(fqn[start..])
    {
      if fqn[i] == '.' {
        SegmentEnds(fqn, start, i, segments);
        if i > start {
          segments := segments + [fqn[start..i]];
        }
        start := i + 1;
      } else {
        TailTaken(fqn, start, i);
      }
    }
    assert fqn[start..] == fqn[start..|fqn|];
    SegmentsSingle(fqn[start..]);
    if start < |fqn| {
      segments := segments + [fqn[start..]];
    }
  }

  method FindNode(root: Option<Yaml>, fqn: string) returns (r: Option<Yaml>)
    ensures root.None? || fqn == "" ==> r == None
    ensures root.Some? && fqn != "" ==> r == WalkToNode(root.value, Segments(fqn))
    ensures r == if root.None? then None else FindNodeByFqn(root.value, fqn)
  {
    if root.None? || fqn == "" { return None; }
    var segments := SplitFqn(fqn);
    return WalkToNode(root.value, segments);
  }

  /******* Searching a list of single-key wrappers *******/

  /** Every item has one key, that of a unit or of a `parallel` block. */
  predicate Listed(items: seq<Yaml>)
    decreases items
  {
    forall i :: 0 <= i < |items| ==> IsListed(items[i])
  }

  predicate IsListed(item: Yaml)
    decreases item
  {
    item.Mapping? && |item.entries| == 1 &&
    var e := item.entries[0];
    (e.key in UNIT_KEYS && e.value.Mapping?) || (e.key == "parallel" && e.value.Sequence? && Listed(e.value.items))
  }

  function Body(item: Yaml): Yaml
    requires IsListed(item)
  {
    item.entries[0].value
  }

  predicate IsParallel(item: Yaml)
    requires IsListed(item)
  {
    item.entries[0].key == "parallel"
  }

  /** Some unit of the item, directly or within `parallel` blocks, is called `id`. */
  predicate HasId(item: Yaml, id: string)
    requires IsListed(item)
    decreases item
  {
    if IsParallel(item) then SomeHasId(Body(item).items, id) else TextAt(Body(item), "identifier") == id
  }

  predicate SomeHasId(items: seq<Yaml>, id: string)
    requires Listed(items)
    decreases items
  {
    exists i :: 0 <= i < |items| && HasId(items[i], id)
  }

  /** No identifier comes up in two items. */
  ghost predicate Apart(items: seq<Yaml>)
    requires Listed(items)
  {
    forall i, j, id: string :: 0 <= i < j < |items| && id != "" && HasId(items[i], id) ==> !HasId(items[j], id)
  }

  lemma SingleGet(item: Yaml, key: string)
    requires IsListed(item)
    ensures NodeGet(item, key) == if key == item.entries[0].key then Some(Body(item)) else None
  {
    if key == item.entries[0].key {
      FindIs(item.entries, key, 0);
    } else {
      FindIsNot(item.entries, key);
    }
  }

  lemma UnitMatches(item: Yaml, id: string, w: nat)
    requires IsListed(item) && w <= |UNIT_KEYS|
    ensures MatchingUnit(item, id, w) ==
      if (exists k :: w <= k < |UNIT_KEYS| && UNIT_KEYS[k] == item.entries[0].key) &&
        TextAt(Body(item), "identifier") == id
      then Some(Body(item)) else None
    decreases |UNIT_KEYS| - w
  {
    if w < |UNIT_KEYS| {
      SingleGet(item, UNIT_KEYS[w]);
      UnitMatches(item, id, w + 1);
    }
  }

  lemma KeysDiffer()
    ensures "parallel" !in UNIT_KEYS && "identifier" !in UNIT_KEYS
  {
    assert UNIT_KEYS[0] == "step" && UNIT_KEYS[1] == "stage" && UNIT_KEYS[2] == "stepGroup";
  }

  /** One item of the list: a unit of that name is entered, a `parallel` block is searched. */
  lemma ItemIs(item: Yaml, id: string, rest: seq<string>)
    requires IsListed(item) && id != ""
    ensures var segs := [id] + rest;
      WalkItem(item, segs) ==
        if IsParallel(item) then (var r := WalkItems(Body(item).items, 0, segs); if r.Some? then Hit(r) else Miss)
        else if TextAt(Body(item), "identifier") == id then Hit(WalkToNode(Body(item), rest))
        else Miss
  {
    var segs := [id] + rest;
    assert segs[1..] == rest;
    KeysDiffer();
    UnitMatches(item, id, 0);
    SingleGet(item, "parallel");
    SingleGet(item, "identifier");
    if !IsParallel(item) {
      var k :| 0 <= k < |UNIT_KEYS| && UNIT_KEYS[k] == item.entries[0].key;
    }
  }

  /** A name that no item holds is not found. */
  lemma {:induction false} NotListed(items: seq<Yaml>, j: nat, id: string, rest: seq<string>)
    requires Listed(items) && id != "" && j <= |items|
    requires forall k :: j <= k < |items| ==> !HasId(items[k], id)
    ensures WalkItems(items, j, [id] + rest) == None
    decreases items, |items| - j
  {
    if j < |items| {
      ItemIs(items[j], id, rest);
      if IsParallel(items[j]) {
        assert !HasId(items[j], id) && !SomeHasId(Body(items[j]).items, id);
        NotListed(Body(items[j]).items, 0, id, rest);
      }
      NotListed(items, j + 1, id, rest);
    }
  }

  /** What the search finds in the one item that holds the name. */
  function Inside(item: Yaml, id: string, rest: seq<string>): Option<Yaml>
    requires IsListed(item)
  {
    if IsParallel(item) then WalkItems(Body(item).items, 0, [id] + rest) else WalkToNode(Body(item), rest)
  }

  lemma {:induction false} WalkHits(items: seq<Yaml>, j: nat, i: nat, id: string, rest: seq<string>)
    requires Listed(items) && Apart(items) && id != "" && j <= i < |items| && HasId(items[i], id)
    ensures WalkItems(items, j, [id] + rest) == Inside(items[i], id, rest)
    decreases i - j
  {
    ItemIs(items[j], id, rest);
    if j < i {
      if IsParallel(items[j]) {
        assert !HasId(items[j], id) && !SomeHasId(Body(items[j]).items, id);
        NotListed(Body(items[j]).items, 0, id, rest);
      }
      WalkHits(items, j + 1, i, id, rest);
    } else {
      NotListed(items, i + 1, id, rest);
    }
  }
}
