/** The hand-written integer printer both the batch and the queue use. */
module Decimal {

  predicate IsDigit(c: char) {
    '0' <= c <= '9'
  }

  function Digit(d: nat): char
    requires d < 10
  {
    '0' + d as char
  }

  function DigitValue(c: char): nat
    requires IsDigit(c)
  {
    c as int - '0' as int
  }

  /** Positional value of a string of digits, most significant first. */
  function Value(s: string): nat
    requires forall c :: c in s ==> IsDigit(c)
  {
    if s == [] then 0 else Value(s[..|s| - 1]) * 10 + DigitValue(s[|s| - 1])
  }

  /** A canonical decimal numeral: digits, and no leading zero but in "0" itself. */
  predicate IsNumeral(s: string) {
    s != [] && (forall c :: c in s ==> IsDigit(c)) && (s[0] == '0' ==> s == "0")
  }

  lemma LastDigit(s: string)
    requires s != [] && forall c :: c in s ==> IsDigit(c)
    ensures Value(s) / 10 == Value(s[..|s| - 1]) && Value(s) % 10 == DigitValue(s[|s| - 1])
  {
    var q, d := Value(s[..|s| - 1]), DigitValue(s[|s| - 1]);
    assert Value(s) == 10 * q + d && d < 10;
  }

  /** A number has one canonical numeral only. */
  lemma {:induction false} NumeralUnique(a: string, b: string)
    requires IsNumeral(a) && IsNumeral(b) && Value(a) == Value(b)
    ensures a == b
  {
    var a', b' := a[..|a| - 1], b[..|b| - 1];
    LastDigit(a);
    LastDigit(b);
    assert a == a' + [a[|a| - 1]] && b == b' + [b[|b| - 1]];
    if a' != [] {
      NumeralIsPositive(a');
    }
    if b' != [] {
      NumeralIsPositive(b');
    }
    if a' != [] && b' != [] {
      NumeralUnique(a', b');
    }
  }

  lemma {:induction false} NumeralIsPositive(s: string)
    requires s != [] && (forall c :: c in s ==> IsDigit(c)) && s[0] != '0'
    ensures Value(s) > 0
  {
    if |s| > 1 {
      assert s[..|s| - 1][0] == s[0];
      NumeralIsPositive(s[..|s| - 1]);
    }
  }

  lemma {:induction false} ValueOfConcat(d: char, s: string)
    requires IsDigit(d) && forall c :: c in s ==> IsDigit(c)
    ensures Value([d] + s) == DigitValue(d) * Power10(|s|) + Value(s)
  {
    if s == [] {
      assert [d] + s == [d] && [d][..0] == [];
    } else {
      var n := |s| - 1;
      assert ([d] + s)[..n + 1] == [d] + s[..n];
      ValueOfConcat(d, s[..n]);
    }
  }

  function Power10(n: nat): nat {
    if n == 0 then 1 else 10 * Power10(n - 1)
  }

  /** The printer as a function: the numeral of a number. */
  function Numeral(n: nat): string {
    if n < 10 then [Digit(n)] else Numeral(n / 10) + [Digit(n % 10)]
  }

  lemma {:induction false} NumeralIsCanonical(n: nat)
    ensures IsNumeral(Numeral(n)) && Value(Numeral(n)) == n
    ensures n > 0 ==> Numeral(n)[0] != '0'
  {
    if n < 10 {
      assert Numeral(n)[..0] == [];
    } else {
      NumeralIsCanonical(n / 10);
      assert Numeral(n)[..|Numeral(n)| - 1] == Numeral(n / 10);
    }
  }

  /** Different numbers print differently. */
  lemma NumeralInjective(m: nat, n: nat)
    requires Numeral(m) == Numeral(n)
    ensures m == n
  {
    NumeralIsCanonical(m);
    NumeralIsCanonical(n);
  }

  lemma SplitDigit(n: nat, p: nat)
    ensures n * p == n / 10 * (10 * p) + n % 10 * p
  {
    assert n == n / 10 * 10 + n % 10;
  }

  /** Prints every non-negative number as its canonical numeral; a negative one as nothing. */
  method Itoa(i: int) returns (s: string)
    ensures i < 0 ==> s == ""
    ensures i >= 0 ==> s == Numeral(i)
  {
    if i == 0 {
      return "0";
    }
    var b: string := [];
    var n := i;
    while n > 0
      invariant i > 0 ==> n >= 0
      invariant forall c :: c in b ==> IsDigit(c)
      invariant i > 0 ==> n * Power10(|b|) + Value(b) == i
      invariant i > 0 && n == 0 ==> b != [] && b[0] != '0'
      invariant i < 0 ==> n == i && b == []
    {
      var d := Digit(n % 10);
      ValueOfConcat(d, b);
      SplitDigit(n, Power10(|b|));
      b := [d] + b;
      n := n / 10;
    }
    if i > 0 {
      NumeralIsCanonical(i);
      NumeralUnique(b, Numeral(i));
    }
    return b;
  }
}
