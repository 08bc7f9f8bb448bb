/** Decimal rendering and parsing of natural numbers: strconv.Itoa and Atoi on digits. */
module Decimal {

  predicate IsDigit(c: char)
  {
    '0' <= c <= '9'
  }

  predicate AllDigits(s: string)
  {
    forall i :: 0 <= i < |s| ==> IsDigit(s[i])
  }

  function DigitOf(d: nat): (c: char)
    requires d < 10
    ensures IsDigit(c) && ValueOf(c) == d
  {
    '0' + d as char
  }

  function ValueOf(c: char): (d: nat)
    requires IsDigit(c)
  {
    (c - '0') as nat
  }

  function Itoa(n: nat): (s: string)
    ensures |s| >= 1 && AllDigits(s)
  {
    if n < 10 then [DigitOf(n)] else Itoa(n / 10) + [DigitOf(n % 10)]
  }

  function Atoi(s: string): (n: nat)
    requires AllDigits(s)
  {
    if s == [] then 0 else Atoi(s[..|s| - 1]) * 10 + ValueOf(s[|s| - 1])
  }

  /** Decimal: the rendering of 10 n + d is that of n, without a leading zero, followed by the d-th digit. */
  lemma {:induction false} DecimalDigits(n: nat, d: nat)
    requires d < 10
    ensures Itoa(10 * n + d) == (if n == 0 then "" else Itoa(n)) + ["0123456789"[d]]
  {
    assert "0123456789"[d] == '0' + d as char;
    if n > 0 {
      assert (10 * n + d) / 10 == n && (10 * n + d) % 10 == d;
    }
  }

  /** Parsing the rendering of a number gives the number back. */
  lemma {:induction false} AtoiItoa(n: nat)
    ensures Atoi(Itoa(n)) == n
  {
    if n >= 10 {
      AtoiItoa(n / 10);
      var s := Itoa(n);
      assert s[..|s| - 1] == Itoa(n / 10);
    } else {
      var s := Itoa(n);
      assert s[..|s| - 1] == [];
      assert Atoi(s) == Atoi([]) * 10 + ValueOf(s[0]);
    }
  }
}
