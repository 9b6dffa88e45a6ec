/** Decimal rendering of natural numbers, as `fmt.Sprintf("%d", n)` writes
    them, and the facts about it that id suffixing relies on. */
module Decimal {

  function Pow10(n: nat): (r: nat)
    ensures r >= 1
  {
    if n == 0 then 1 else 10 * Pow10(n - 1)
  }

  function DigitChar(d: nat): (c: char)
    requires d < 10
    ensures '0' <= c <= '9' && c as int - '0' as int == d
  {
    (d + '0' as int) as char
  }

  /** `fmt.Sprintf("%d", n)` for n >= 0. */
  function Itoa(n: nat): (s: string)
    ensures |s| >= 1
    ensures forall i :: 0 <= i < |s| ==> '0' <= s[i] <= '9'
  {
    if n < 10 then [DigitChar(n)] else Itoa(n / 10) + [DigitChar(n % 10)]
  }

  /** Reads a string of decimal digits back as a number. */
  function Atoi(s: string): nat {
    if |s| == 0 then 0
    else 10 * Atoi(s[..|s| - 1]) + (if '0' <= s[|s| - 1] <= '9' then s[|s| - 1] as int - '0' as int else 0)
  }

  /** Reading back what `Itoa` writes gives the number again. */
  lemma {:induction false} AtoiItoa(n: nat)
    ensures Atoi(Itoa(n)) == n
  {
    if n >= 10 {
      var s := Itoa(n);
      assert s[..|s| - 1] == Itoa(n / 10);
      AtoiItoa(n / 10);
    }
  }

  /** So different numbers are written differently. */
  lemma ItoaInjective(m: nat, n: nat)
    requires Itoa(m) == Itoa(n)
    ensures m == n
  {
    AtoiItoa(m);
    AtoiItoa(n);
  }

  /** A number of at least 10^k takes more than k digits. */
  lemma {:induction false} ItoaLong(n: nat, k: nat)
    requires n >= Pow10(k)
    ensures |Itoa(n)| > k
  {
    if k > 0 {
      assert n / 10 >= Pow10(k - 1);
      ItoaLong(n / 10, k - 1);
    }
  }
}
