/** Decimal numerals, as strconv.Itoa writes them. */
module Digits {

  const DIGITS := "0123456789"

  function Itoa(n: nat): (s: string)
    ensures s != "" && (|s| == 1 <==> n < 10)
    ensures forall i :: 0 <= i < |s| ==> '0' <= s[i] <= '9'
  {
    if n < 10 then [DIGITS[n]] else Itoa(n / 10) + [DIGITS[n % 10]]
  }

  lemma {:induction false} ItoaInjective(a: nat, b: nat)
    requires Itoa(a) == Itoa(b)
    ensures a == b
  {
    var s := Itoa(a);
    var last := s[|s| - 1];
    assert last == DIGITS[a % 10] && last == DIGITS[b % 10];
    assert a % 10 == b % 10;
    if a >= 10 && b >= 10 {
      assert Itoa(a / 10) == s[..|s| - 1] == Itoa(b / 10);
      ItoaInjective(a / 10, b / 10);
    }
  }

  /** `s` is `u`, the underscore at `|u|`, and `x`. */
  lemma LastUnderscore(s: string, u: string, x: string)
    requires s == u + "_" + x && forall i :: 0 <= i < |x| ==> x[i] != '_'
    ensures |u| < |s| && s[|u|] == '_' && s[..|u|] == u && s[|u| + 1..] == x
    ensures forall k :: |u| < k < |s| ==> s[k] != '_'
  {
    forall k | |u| < k < |s| ensures s[k] == x[k - |u| - 1] {}
  }

  /** A numeral after the last underscore can be read back. */
  lemma NumeralInjective(s: string, u: string, a: nat, v: string, b: nat)
    requires s == u + "_" + Itoa(a) && s == v + "_" + Itoa(b)
    ensures u == v && a == b
  {
    LastUnderscore(s, u, Itoa(a));
    LastUnderscore(s, v, Itoa(b));
    assert |u| == |v|;
    ItoaInjective(a, b);
  }

  /** What a string of digits reads as in base ten. */
  function Reading(s: string): int {
    if s == "" then 0 else 10 * Reading(s[..|s| - 1]) + (s[|s| - 1] as int - '0' as int)
  }

  /** The numeral of a number reads as that number and has no leading zero. */
  lemma {:induction false} ItoaReadsBack(n: nat)
    ensures Reading(Itoa(n)) == n && (n > 0 ==> Itoa(n)[0] != '0')
  {
    assert DIGITS[n % 10] as int - '0' as int == n % 10;
    if n >= 10 {
      ItoaReadsBack(n / 10);
      assert Itoa(n)[..|Itoa(n)| - 1] == Itoa(n / 10);
    } else {
      assert Itoa(n)[..0] == "";
    }
  }
}
