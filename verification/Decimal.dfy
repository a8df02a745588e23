/** Decimal notation of natural numbers. */
module Decimal {

  predicate IsDigit(c: char) {
    '0' <= c <= '9'
  }

  predicate Digits(s: string) {
    forall c <- s :: IsDigit(c)
  }

  /** `Number.parseInt` and `Number` on a string of digits. */
  function ParseDec(s: string): nat
    requires Digits(s)
  {
    if s == "" then 0 else 10 * ParseDec(s[..|s| - 1]) + DigitValue(s[|s| - 1])
  }

  function DigitValue(c: char): (n: nat)
    requires IsDigit(c)
    ensures n < 10
  {
    c as int - '0' as int
  }

  /** `String(n)`. */
  function Dec(n: nat): (s: string)
    ensures Digits(s) && s != ""
  {
    var last := [('0' as int + n % 10) as char];
    if n < 10 then last else Dec(n / 10) + last
  }

  function Pow10(e: nat): nat {
    if e == 0 then 1 else 10 * Pow10(e - 1)
  }

  lemma {:induction false} ParseDecOfDec(n: nat)
    ensures ParseDec(Dec(n)) == n
  {
    var last := [('0' as int + n % 10) as char];
    if n < 10 {
      assert last[..0] == "";
    } else {
      ParseDecOfDec(n / 10);
      assert (Dec(n / 10) + last)[..|Dec(n / 10)|] == Dec(n / 10);
    }
  }

  lemma TenTimes(x: nat, p: nat)
    ensures x * (10 * p) == 10 * (x * p)
  {
  }

  lemma {:induction false} ParseDecConcat(a: string, b: string)
    requires Digits(a) && Digits(b)
    ensures Digits(a + b) && ParseDec(a + b) == ParseDec(a) * Pow10(|b|) + ParseDec(b)
  {
    hide DigitValue;
    if b == "" {
      assert a + b == a;
    } else {
      var init := b[..|b| - 1];
      ParseDecConcat(a, init);
      assert (a + b)[..|a + b| - 1] == a + init;
      TenTimes(ParseDec(a), Pow10(|init|));
      assert Pow10(|b|) == 10 * Pow10(|init|);
    }
  }

  lemma {:induction false} ParseDecBelow(s: string)
    requires Digits(s)
    ensures ParseDec(s) < Pow10(|s|)
  {
    if s != "" {
      ParseDecBelow(s[..|s| - 1]);
    }
  }

  lemma Pow10Small()
    ensures Pow10(1) == 10 && Pow10(2) == 100 && Pow10(4) == 10000
  {
    assert Pow10(0) == 1 && Pow10(1) == 10 * Pow10(0) && Pow10(2) == 10 * Pow10(1);
    assert Pow10(3) == 10 * Pow10(2) && Pow10(4) == 10 * Pow10(3);
  }
}
