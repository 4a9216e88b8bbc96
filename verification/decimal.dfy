/**
  Decimal rendering of the non-negative integer ids the workspace hands out, as a
  JavaScript template literal such as `Notebook ${id}` produces it, together with a
  parser that inverts it. The round trip is what makes generated names distinct.
 */
module Decimal {

  const Digits: string := "0123456789"

  predicate IsDigit(c: char) {
    '0' <= c <= '9'
  }

  function DigitValue(c: char): (d: nat)
    requires IsDigit(c)
    ensures d < 10 && Digits[d] == c
  {
    c as int - '0' as int
  }

  /** The shortest decimal spelling of `n`: digits only, no leading zero. */
  function Show(n: nat): (s: string)
    ensures |s| >= 1
    ensures forall i :: 0 <= i < |s| ==> IsDigit(s[i])
    ensures n > 0 ==> s[0] != '0'
    ensures n < 10 <==> |s| == 1
  {
    if n < 10 then [Digits[n]] else Show(n / 10) + [Digits[n % 10]]
  }

  /** Reads a string of digits back as a number (most significant digit first). */
  function Parse(s: string): nat
    requires forall i :: 0 <= i < |s| ==> IsDigit(s[i])
  {
    if |s| == 0 then 0 else Parse(s[..|s| - 1]) * 10 + DigitValue(s[|s| - 1])
  }

  lemma {:induction false} ParseShow(n: nat)
    ensures Parse(Show(n)) == n
  {
    if n >= 10 {
      var s := Show(n);
      assert s[..|s| - 1] == Show(n / 10);
      ParseShow(n / 10);
    }
  }

  lemma ShowInjective(a: nat, b: nat)
    ensures Show(a) == Show(b) ==> a == b
  {
    ParseShow(a);
    ParseShow(b);
  }

  /** `${prefix}${n}`: the generated default name of a numbered item. */
  function Label(prefix: string, n: nat): string {
    prefix + Show(n)
  }

  /** Two labels with the same prefix coincide only for the same number. */
  lemma LabelInjective(prefix: string, a: nat, b: nat)
    ensures Label(prefix, a) == Label(prefix, b) <==> a == b
  {
    if Label(prefix, a) == Label(prefix, b) {
      assert Show(a) == Label(prefix, a)[|prefix|..];
      assert Show(b) == Label(prefix, b)[|prefix|..];
      ShowInjective(a, b);
    }
  }
}
