/** Dotted names: splitting and joining on '.', as Go's strings package does it. */
module Text {
  import opened Common

  /** unicode.IsSpace. */
  predicate IsSpace(c: char) {
    c in "\t\n\U{000B}\U{000C}\r \U{0085}\U{00A0}\U{1680}\U{2028}\U{2029}\U{202F}\U{205F}\U{3000}" ||
      '\U{2000}' <= c <= '\U{200A}'
  }

  /** strings.Split(s, "."): never empty, one segment more than there are dots. */
  function Split(s: string): (segs: seq<string>)
    ensures |segs| >= 1
  {
    if s == "" then [""]
    else
      var rest := Split(s[1..]);
      if s[0] == '.' then [""] + rest else Prepend(s[0], rest)
  }

  /** The first segment gains a leading character. */
  function Prepend(c: char, segs: seq<string>): (r: seq<string>)
    requires segs != []
    ensures |r| == |segs|
  {
    [[c] + segs[0]] + segs[1..]
  }

  /** strings.Join(segs, "."). */
  function Join(segs: seq<string>): string {
    if segs == [] then ""
    else if |segs| == 1 then segs[0]
    else segs[0] + "." + Join(segs[1..])
  }

  /** strings.Count(s, "."). */
  function Dots(s: string): nat {
    if s == "" then 0 else (if s[0] == '.' then 1 else 0) + Dots(s[1..])
  }

  lemma {:induction false} DotsConcat(a: string, b: string)
    ensures Dots(a + b) == Dots(a) + Dots(b)
  {
    if a == "" {
      assert a + b == b;
    } else {
      DotsConcat(a[1..], b);
      assert (a + b)[1..] == a[1..] + b;
    }
  }

  lemma {:induction false} NoDots(s: string)
    ensures Dots(s) == 0 <==> '.' !in s
  {
    if s != "" {
      NoDots(s[1..]);
      assert s == [s[0]] + s[1..];
    }
  }

  lemma {:induction false} SplitCount(s: string)
    ensures |Split(s)| == Dots(s) + 1
  {
    if s != "" {
      SplitCount(s[1..]);
    }
  }

  lemma {:induction false} JoinSplit(s: string)
    ensures Join(Split(s)) == s
  {
    if s != "" {
      JoinSplit(s[1..]);
      var rest := Split(s[1..]);
      assert s == [s[0]] + s[1..];
      if s[0] == '.' {
        assert ([""] + rest)[1..] == rest;
      } else {
        assert Prepend(s[0], rest)[1..] == rest[1..];
      }
    }
  }

  lemma SplitCons(c: char, t: string)
    ensures Split([c] + t) == if c == '.' then [""] + Split(t) else Prepend(c, Split(t))
  {
    HeadTail(c, t);
  }

  lemma PrependConcat(c: char, u: seq<string>, v: seq<string>)
    requires u != []
    ensures Prepend(c, u + v) == Prepend(c, u) + v
  {
  }

  lemma DotCons(c: char, t: string, b: string)
    ensures ([c] + t) + "." + b == [c] + (t + "." + b)
  {
    Associates([c], t, ".");
    Associates([c], t + ".", b);
  }

  /** Splitting distributes over a dot. */
  lemma {:induction false} SplitAtDot(a: string, b: string)
    ensures Split(a + "." + b) == Split(a) + Split(b)
    decreases |a|
  {
    if a == "" {
      PlusNothing(".");
      SplitCons('.', b);
    } else {
      SplitAtDot(a[1..], b);
      Uncons(a);
      SplitConsAtDot(a[0], a[1..], b);
    }
  }

  lemma SplitConsAtDot(c: char, t: string, b: string)
    requires Split(t + "." + b) == Split(t) + Split(b)
    ensures Split(([c] + t) + "." + b) == Split([c] + t) + Split(b)
  {
    DotCons(c, t, b);
    SplitCons(c, t + "." + b);
    SplitCons(c, t);
    PrependConcat(c, Split(t), Split(b));
    Associates([""], Split(t), Split(b));
  }

  /** A name followed by nothing or by a dot keeps its segments in front. */
  lemma SplitPrefix(a: string, t: string)
    requires t == "" || t[0] == '.'
    ensures Dots(a) + 1 <= |Split(a + t)|
    ensures Split(a + t)[..Dots(a) + 1] == Split(a)
    ensures Join(Split(a + t)[..Dots(a) + 1]) == a
  {
    SplitCount(a);
    JoinSplit(a);
    if t == "" {
      PlusNothing(a);
    } else {
      SplitPiece(a, t);
      WholeConcat(Split(a), Split(t[1..]));
    }
  }

  lemma SplitPiece(l: string, q: string)
    requires q != "" && q[0] == '.'
    ensures Split(l + q) == Split(l) + Split(q[1..])
  {
    Uncons(q);
    Associates(l, ".", q[1..]);
    SplitAtDot(l, q[1..]);
  }

  /** Without a dot there is one segment. */
  lemma {:induction false} SplitSingle(s: string)
    requires '.' !in s
    ensures Split(s) == [s]
  {
    if s != "" {
      assert forall c :: c in s[1..] ==> c in s;
      SplitSingle(s[1..]);
      assert s == [s[0]] + s[1..];
    }
  }

  lemma {:induction false} SegmentsHaveNoDots(s: string)
    ensures forall i :: 0 <= i < |Split(s)| ==> '.' !in Split(s)[i]
  {
    if s != "" {
      SegmentsHaveNoDots(s[1..]);
    }
  }

  lemma {:induction false} JoinAppend(segs: seq<string>, s: string)
    requires segs != []
    ensures Join(segs + [s]) == Join(segs) + "." + s
  {
    if |segs| > 1 {
      JoinAppend(segs[1..], s);
      assert (segs + [s])[1..] == segs[1..] + [s];
    } else {
      assert (segs + [s])[1..] == [s];
    }
  }

  /** Splitting undoes joining dot-free segments. */
  lemma {:induction false} SplitJoin(segs: seq<string>)
    requires segs != [] && forall i :: 0 <= i < |segs| ==> '.' !in segs[i]
    ensures Split(Join(segs)) == segs
  {
    SplitSingle(segs[0]);
    if |segs| > 1 {
      SplitJoin(segs[1..]);
      SplitAtDot(segs[0], Join(segs[1..]));
      assert segs == [segs[0]] + segs[1..];
    }
  }

  /** A dot-free tail extends the last segment. */
  lemma {:induction false} SplitAppend(s: string, c: string)
    requires '.' !in c
    ensures Split(s + c) == Lengthened(Split(s), c)
  {
    if s == "" {
      PlusNothing(c);
      SplitSingle(c);
    } else {
      SplitAppend(s[1..], c);
      Uncons(s);
      SplitConsAppend(s[0], s[1..], c);
    }
  }

  /** The segments with `c` added to the last one. */
  function Lengthened(segs: seq<string>, c: string): seq<string>
    requires segs != []
  {
    segs[..|segs| - 1] + [segs[|segs| - 1] + c]
  }

  lemma LengthenedIs(segs: seq<string>, c: string)
    requires segs != []
    ensures var r := Lengthened(segs, c);
      |r| == |segs| && r[|segs| - 1] == segs[|segs| - 1] + c && forall i :: 0 <= i < |segs| - 1 ==> r[i] == segs[i]
  {
  }

  lemma SplitConsAppend(h: char, t: string, c: string)
    requires Split(t + c) == Lengthened(Split(t), c)
    ensures Split(([h] + t) + c) == Lengthened(Split([h] + t), c)
  {
    Associates([h], t, c);
    SplitCons(h, t + c);
    SplitCons(h, t);
    PrependAppend(h, Split(t), c);
  }

  /** Adding at the front and at the back of a segment list commute. */
  lemma PrependAppend(h: char, segs: seq<string>, c: string)
    requires segs != []
    ensures Prepend(h, Lengthened(segs, c)) == Lengthened(Prepend(h, segs), c)
    ensures [""] + Lengthened(segs, c) == Lengthened([""] + segs, c)
  {
    var n := |segs| - 1;
    if n == 0 {
      Associates([h], segs[0], c);
    }
  }

  /******* The fixed parts of names *******/

  lemma PipelineStages()
    ensures "" + "pipeline.stages" == "pipeline" + "." + "stages"
  {
  }

  lemma ExecutionText()
    ensures ".spec.execution." == "." + "spec" + "." + "execution" + "."
  {
  }

  lemma StepsText()
    ensures ".steps" == "." + "steps" && ".spec.execution.steps" == ".spec.execution." + "steps"
  {
  }

  lemma RollbackStepsText()
    ensures ".spec.execution.rollbackSteps" == ".spec.execution." + "rollbackSteps"
  {
  }

  lemma AssociatesThrice(f: string, a: string, b: string, c: string)
    ensures f + ("." + a + "." + b + "." + c) == f + "." + a + "." + b + "." + c
  {
  }

  /** What a container puts between its own name and its children's. */
  lemma TailTexts(f: string)
    ensures f + ".steps" == f + "." + "steps"
    ensures f + ".spec.execution.steps" == f + "." + "spec" + "." + "execution" + "." + "steps"
    ensures f + ".spec.execution.rollbackSteps" == f + "." + "spec" + "." + "execution" + "." + "rollbackSteps"
  {
    StepsText();
    ExecutionText();
    RollbackStepsText();
    Associates(f, ".", "steps");
    AssociatesThrice(f, "spec", "execution", "steps");
    AssociatesThrice(f, "spec", "execution", "rollbackSteps");
  }
}
