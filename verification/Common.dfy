/** Small shared vocabulary: optional values and results. */
module Common {
  datatype Option<+T> = None | Some(value: T)

  datatype Result<+T, +E> = Ok(value: T) | Err(error: E)

  /** No element occurs twice. */
  predicate Distinct<T(==)>(s: seq<T>) {
    forall i, j :: 0 <= i < j < |s| ==> s[i] != s[j]
  }

  /******* Sequences *******/

  lemma Associates<T>(a: seq<T>, b: seq<T>, c: seq<T>)
    ensures (a + b) + c == a + (b + c)
  {
  }

  lemma PlusNothing<T>(a: seq<T>)
    ensures a + [] == a && [] + a == a
  {
  }

  lemma ConcatFront<T>(a: seq<T>, b: seq<T>)
    requires b != []
    ensures (a + b)[..|a + b| - 1] == a + b[..|b| - 1] && (a + b)[|a + b| - 1] == b[|b| - 1]
  {
  }

  lemma Taken<T>(s: seq<T>, k: nat)
    requires k < |s|
    ensures s[..k + 1] == s[..k] + [s[k]] && s[..k + 1][..k] == s[..k]
  {
  }

  lemma HeadTail<T>(x: T, s: seq<T>)
    ensures ([x] + s)[0] == x && ([x] + s)[1..] == s
  {
  }

  lemma Uncons<T>(s: seq<T>)
    requires s != []
    ensures s == [s[0]] + s[1..]
  {
  }

  lemma FrontAndLast<T>(s: seq<T>)
    requires s != []
    ensures s == s[..|s| - 1] + [s[|s| - 1]]
  {
  }

  lemma InFront<T>(a: seq<T>, b: seq<T>, k: nat)
    requires k < |a|
    ensures (a + b)[k] == a[k] && (a + b)[..k] == a[..k]
  {
  }

  lemma InBack<T>(a: seq<T>, b: seq<T>, k: nat)
    requires |a| <= k < |a + b|
    ensures (a + b)[k] == b[k - |a|] && (a + b)[k] in b
  {
  }

  lemma InPrefix<T>(a: seq<T>, b: seq<T>, k: nat, y: T)
    requires |a| <= k <= |a + b| && y in a
    ensures y in (a + b)[..k]
  {
    var i :| 0 <= i < |a| && a[i] == y;
    assert (a + b)[..k][i] == y;
  }

  lemma WholeConcat<T>(a: seq<T>, b: seq<T>)
    ensures (a + b)[..|a|] == a && (a + b)[|a|..] == b
  {
  }

  /******* Products *******/

  /** One row of a product: `x` combined with every element of `ys`. */
  function Row<A, B, C>(x: A, ys: seq<B>, f: (A, B) -> C): (r: seq<C>)
    ensures |r| == |ys| && forall i :: 0 <= i < |ys| ==> r[i] == f(x, ys[i])
  {
    seq(|ys|, i requires 0 <= i < |ys| => f(x, ys[i]))
  }

  /** The product of two lists, the first varying slowest. */
  function Cross<A, B, C>(xs: seq<A>, ys: seq<B>, f: (A, B) -> C): seq<C> {
    if xs == [] then []
    else Cross(xs[..|xs| - 1], ys, f) + Row(xs[|xs| - 1], ys, f)
  }

  /** The product gains one row per element of `xs`. */
  lemma CrossSnoc<A, B, C>(xs: seq<A>, ys: seq<B>, f: (A, B) -> C, i: nat)
    requires i < |xs|
    ensures Cross(xs[..i + 1], ys, f) == Cross(xs[..i], ys, f) + Row(xs[i], ys, f)
  {
    assert xs[..i + 1][..i] == xs[..i];
  }

  /** A row grows element by element. */
  lemma RowSnoc<A, B, C>(x: A, ys: seq<B>, f: (A, B) -> C, i: nat)
    requires i < |ys|
    ensures Row(x, ys, f)[..i + 1] == Row(x, ys, f)[..i] + [f(x, ys[i])]
  {
  }

  /** Everything in a product combines two members. */
  lemma {:induction false} CrossElim<A, B, C>(xs: seq<A>, ys: seq<B>, f: (A, B) -> C, z: C) returns (x: A, y: B)
    requires z in Cross(xs, ys, f)
    ensures x in xs && y in ys && z == f(x, y)
  {
    var front, last := xs[..|xs| - 1], xs[|xs| - 1];
    if z in Row(last, ys, f) {
      var i :| 0 <= i < |ys| && Row(last, ys, f)[i] == z;
      x, y := last, ys[i];
    } else {
      x, y := CrossElim(front, ys, f, z);
    }
  }

  /** Every combination of two members is in the product. */
  lemma {:induction false} CrossIntro<A, B, C>(xs: seq<A>, ys: seq<B>, f: (A, B) -> C, x: A, y: B)
    requires x in xs && y in ys
    ensures f(x, y) in Cross(xs, ys, f)
  {
    var front, last := xs[..|xs| - 1], xs[|xs| - 1];
    assert xs == front + [last];
    if x == last {
      var i :| 0 <= i < |ys| && ys[i] == y;
      assert Row(last, ys, f)[i] == f(x, y);
    } else {
      CrossIntro(front, ys, f, x, y);
    }
  }

  lemma {:induction false} CrossLength<A, B, C>(xs: seq<A>, ys: seq<B>, f: (A, B) -> C)
    ensures |Cross(xs, ys, f)| == |xs| * |ys|
  {
    if xs != [] {
      CrossLength(xs[..|xs| - 1], ys, f);
      assert |xs| * |ys| == (|xs| - 1) * |ys| + |ys|;
    }
  }

  /** The cell of row `i` and column `j`. */
  lemma {:induction false} CrossCell<A, B, C>(xs: seq<A>, ys: seq<B>, f: (A, B) -> C, i: nat, j: nat)
    requires i < |xs| && j < |ys|
    ensures i * |ys| + j < |Cross(xs, ys, f)| && Cross(xs, ys, f)[i * |ys| + j] == f(xs[i], ys[j])
  {
    var m := |xs| - 1;
    CrossLength(xs[..m], ys, f);
    if i == m {
      assert Cross(xs, ys, f)[i * |ys| + j] == Row(xs[m], ys, f)[j];
    } else {
      CrossCell(xs[..m], ys, f, i, j);
    }
  }

  /** Quotient and remainder are the row and column of position `k`. */
  lemma DivMod(k: nat, m: nat, n: nat)
    requires k < m * n
    ensures n > 0 && k / n < m && k % n < n && (k / n) * n + k % n == k
  {
    assert m * 0 == 0;
    var i := k / n;
    assert i * n + k % n == k;
    if i >= m {
      MulMonotone(m, i, n);
    }
  }

  lemma MulMonotone(a: nat, b: nat, n: nat)
    requires a <= b
    ensures a * n <= b * n
  {
  }
}
