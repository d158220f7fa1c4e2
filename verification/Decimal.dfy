/** Decimal numerals as printf writes them, and as snprintf cuts them off. */
module Decimal {

  function Digit(d: nat): char
    requires d < 10
  {
    "0123456789"[d]
  }

  function Value(c: char): nat {
    if '0' <= c <= '9' then c as int - '0' as int else 0
  }

  /** "%d" of a non-negative number. */
  function Numeral(n: nat): (s: string)
    ensures |s| > 0
    ensures forall i :: 0 <= i < |s| ==> '0' <= s[i] <= '9'
  {
    if n < 10 then [Digit(n)] else Numeral(n / 10) + [Digit(n % 10)]
  }

  /** "%d". */
  function Printed(n: int): string {
    if n < 0 then "-" + Numeral(-n) else Numeral(n)
  }

  /** snprintf into a buffer of `size` bytes, the terminator included. */
  function Cut(s: string, size: nat): string
    requires size > 0
  {
    if |s| < size then s else s[..size - 1]
  }

  /** The number a run of digits stands for. */
  function Number(s: string): nat {
    if s == [] then 0 else Number(s[..|s| - 1]) * 10 + Value(s[|s| - 1])
  }

  lemma {:induction false} NumberOfNumeral(n: nat)
    ensures Number(Numeral(n)) == n
  {
    if n < 10 {
      assert Numeral(n)[..0] == [];
    } else {
      NumberOfNumeral(n / 10);
      assert Numeral(n)[..|Numeral(n)| - 1] == Numeral(n / 10);
    }
  }

  /** Different numbers have different numerals. */
  lemma NumeralInjective(a: nat, b: nat)
    requires Numeral(a) == Numeral(b)
    ensures a == b
  {
    NumberOfNumeral(a);
    NumberOfNumeral(b);
  }

  function Power10(k: nat): nat {
    if k == 0 then 1 else 10 * Power10(k - 1)
  }

  lemma Powers()
    ensures Power10(3) == 1_000 && Power10(4) == 10_000
    ensures Power10(6) == 1_000_000 && Power10(7) == 10_000_000
  {
    assert Power10(2) == 100;
    assert Power10(5) == 100_000;
  }

  /** A number below 10^k has at most k digits, and one from 10^k on has more. */
  lemma {:induction false} NumeralLength(n: nat, k: nat)
    requires k > 0
    ensures |Numeral(n)| <= k <==> n < Power10(k)
    decreases k
  {
    if n >= 10 {
      if k == 1 {
        assert Power10(1) == 10;
      } else {
        NumeralLength(n / 10, k - 1);
      }
    } else {
      PowerAtLeast10(k);
    }
  }

  lemma {:induction false} PowerAtLeast10(k: nat)
    requires k > 0
    ensures Power10(k) >= 10
  {
    if k > 1 { PowerAtLeast10(k - 1); }
  }

  /** The sign is in front. */
  lemma SignShown(n: int)
    ensures Printed(n) != "" && (Printed(n)[0] == '-' <==> n < 0)
    ensures n < 0 ==> Printed(n)[1..] == Numeral(-n)
  {
  }

  /** Different integers are printed differently. */
  lemma {:induction false} PrintedInjective(a: int, b: int)
    requires Printed(a) == Printed(b)
    ensures a == b
  {
    SignShown(a);
    SignShown(b);
    if a < 0 {
      NumeralInjective(-a, -b);
    } else {
      NumeralInjective(a, b);
    }
  }
}
