/**
 * The part of sscanf the mode string parser uses: directives applied one after another to the
 * input that is left, until one of them does not match.
 *
 * Numbers too large for their target are taken as glibc takes them on a 64-bit machine: read as a
 * 64-bit long, clamped, and cut to 32 bits.
 */
module Scanf {
  import opened Machine
  import opened Decimal

  predicate IsSpace(c: char) {
    c == ' ' || c == '\t' || c == '\n' || c == '\r' || c as int == 11 || c as int == 12
  }

  predicate IsDigit(c: char) {
    '0' <= c <= '9'
  }

  function SkipSpace(t: string): string {
    if t != "" && IsSpace(t[0]) then SkipSpace(t[1..]) else t
  }

  /** The digits t starts with. */
  function Digits(t: string): (d: string)
    ensures |d| <= |t|
  {
    if t != "" && IsDigit(t[0]) then [t[0]] + Digits(t[1..]) else ""
  }

  /** What t starts with before the first c. */
  function Before(t: string, c: char): (b: string)
    ensures |b| <= |t|
  {
    if t != "" && t[0] != c then [t[0]] + Before(t[1..], c) else ""
  }

  /** What t starts with before the first white space. */
  function Word(t: string): (w: string)
    ensures |w| <= |t|
  {
    if t != "" && !IsSpace(t[0]) then [t[0]] + Word(t[1..]) else ""
  }

  /** "%d", "%u", "%m[^c]", "%ms", white space, and a character that stands for itself. */
  datatype Directive = Int | Unsigned | Until(c: char) | Text | Blank | Literal(c: char)

  /** A format: directives in order. */
  datatype Format = Done | Then(first: Directive, rest: Format)

  datatype Value = Number(n: int) | Chars(s: string)

  /** A directive finds a value and leaves the rest of the input, or does not match. */
  datatype Found = NoMatch | Got(value: Value, rest: string)

  const TWO63 := 0x8000_0000_0000_0000

  /** The value "%d" stores in an int. */
  function AsInt(n: int): (r: int)
    ensures -0x8000_0000 <= r < 0x8000_0000
  {
    var long := if n < -TWO63 then -TWO63 else if n >= TWO63 then TWO63 - 1 else n;
    var low := long % TWO32;
    if low < 0x8000_0000 then low else low - TWO32
  }

  /** The value "%u" stores in an unsigned int. */
  function AsUnsigned(n: int): (r: nat)
    ensures r < TWO32
  {
    if -2 * TWO63 < n < 2 * TWO63 then n % TWO32 else TWO32 - 1
  }

  /** White space, a sign, digits. */
  function ScanNumber(t: string, signed: bool): Found {
    var a := SkipSpace(t);
    var b := if a != "" && (a[0] == '-' || a[0] == '+') then a[1..] else a;
    var d := Digits(b);
    if d == "" then NoMatch
    else
      var n := if a[0] == '-' then -(Decimal.Number(d) as int) else Decimal.Number(d);
      Got(Number(if signed then AsInt(n) else AsUnsigned(n)), b[|d|..])
  }

  function Convert(d: Directive, t: string): Found
    requires !d.Blank? && !d.Literal?
  {
    match d
    case Int => ScanNumber(t, true)
    case Unsigned => ScanNumber(t, false)
    case Until(c) => var b := Before(t, c); if b == "" then NoMatch else Got(Chars(b), t[|b|..])
    case Text => var w := Word(SkipSpace(t)); if w == "" then NoMatch else Got(Chars(w), SkipSpace(t)[|w|..])
  }

  /** The values converted, in order; how many there are is what sscanf returns. */
  function Scan(t: string, format: Format): (r: seq<Value>)
    decreases format
  {
    match format
    case Done => []
    case Then(Blank, rest) => Scan(SkipSpace(t), rest)
    case Then(Literal(c), rest) => if t != "" && t[0] == c then Scan(t[1..], rest) else []
    case Then(d, rest) =>
      match Convert(d, t)
      case NoMatch => []
      case Got(v, left) => [v] + Scan(left, rest)
  }

  // ---------------------------------------------------------------- what printing wrote is read back

  /** The input is at its end or does not go on with a digit. */
  predicate NumberEnds(t: string) {
    t == "" || !IsDigit(t[0])
  }

  lemma {:induction false} DigitsOf(d: string, rest: string)
    requires (forall i :: 0 <= i < |d| ==> IsDigit(d[i])) && NumberEnds(rest)
    ensures Digits(d + rest) == d
  {
    if d == "" {
      assert d + rest == rest;
    } else {
      assert (d + rest)[1..] == d[1..] + rest;
      DigitsOf(d[1..], rest);
    }
  }

  /** A numeral, followed by anything but a digit, is read in full. */
  lemma NumeralRead(n: nat, rest: string, signed: bool)
    requires NumberEnds(rest)
    ensures ScanNumber(Numeral(n) + rest, signed)
         == Got(Number(if signed then AsInt(n) else AsUnsigned(n)), rest)
  {
    var d := Numeral(n);
    assert (d + rest)[0] == d[0];
    DigitsOf(d, rest);
    NumberOfNumeral(n);
    assert (d + rest)[|d|..] == rest;
  }

  lemma DigitsRead(n: nat, rest: string, t: string)
    requires NumberEnds(rest) && t == Numeral(n) + rest
    ensures t != "" && Digits(t) == Numeral(n) && t[|Numeral(n)|..] == rest && Decimal.Number(Digits(t)) == n
  {
    DigitsOf(Numeral(n), rest);
    NumberOfNumeral(n);
  }

  /** A sign in front of a numeral is read with it. */
  lemma SignedRead(n: nat, rest: string, negative: bool, s: string)
    requires NumberEnds(rest) && n < 0x8000_0000
    requires s == [if negative then '-' else '+'] + (Numeral(n) + rest)
    ensures ScanNumber(s, true) == Got(Number(if negative then 0 - n as int else n as int), rest)
  {
    var t, d := Numeral(n) + rest, Numeral(n);
    assert Digits(t) == d && t[|d|..] == rest && Decimal.Number(d) == n by { DigitsRead(n, rest, t); }
    assert s[1..] == t;
    if negative {
      ScanMinus(s, t, d);
      AsIntSigned(0 - n as int);
    } else {
      ScanPlus(s, t, d);
      AsIntSigned(n);
    }
  }

  lemma ScanMinus(s: string, t: string, d: string)
    requires s != "" && s[0] == '-' && s[1..] == t && d == Digits(t) && d != ""
    ensures ScanNumber(s, true) == Got(Number(AsInt(-(Decimal.Number(d) as int))), t[|d|..])
  {
    assert SkipSpace(s) == s;
  }

  lemma ScanPlus(s: string, t: string, d: string)
    requires s != "" && s[0] == '+' && s[1..] == t && d == Digits(t) && d != ""
    ensures ScanNumber(s, true) == Got(Number(AsInt(Decimal.Number(d))), t[|d|..])
  {
    assert SkipSpace(s) == s;
  }

  lemma {:induction false} BeforeOf(b: string, rest: string, c: char)
    requires c !in b && (rest == "" || rest[0] == c)
    ensures Before(b + rest, c) == b
  {
    if b == "" {
      assert b + rest == rest;
    } else {
      assert (b + rest)[1..] == b[1..] + rest;
      BeforeOf(b[1..], rest, c);
    }
  }

  lemma {:induction false} WordOf(w: string)
    requires forall i :: 0 <= i < |w| ==> !IsSpace(w[i])
    ensures Word(w) == w
  {
    if w != "" { WordOf(w[1..]); }
  }

  // One directive at a time.

  lemma ScanInt(n: nat, left: string, rest: Format)
    requires NumberEnds(left)
    ensures Scan(Numeral(n) + left, Then(Int, rest)) == [Number(AsInt(n))] + Scan(left, rest)
  {
    NumeralRead(n, left, true);
  }

  lemma ScanUnsigned(n: nat, left: string, rest: Format)
    requires NumberEnds(left)
    ensures Scan(Numeral(n) + left, Then(Unsigned, rest)) == [Number(AsUnsigned(n))] + Scan(left, rest)
  {
    NumeralRead(n, left, false);
  }

  lemma ScanLiteral(c: char, left: string, rest: Format)
    ensures Scan([c] + left, Then(Literal(c), rest)) == Scan(left, rest)
  {
    assert ([c] + left)[1..] == left;
  }

  lemma ScanUntil(b: string, left: string, c: char, rest: Format)
    requires b != "" && c !in b && (left == "" || left[0] == c)
    ensures Scan(b + left, Then(Until(c), rest)) == [Chars(b)] + Scan(left, rest)
  {
    BeforeOf(b, left, c);
    assert (b + left)[|b|..] == left;
  }

  lemma ScanBlank(left: string, rest: Format)
    requires left == "" || !IsSpace(left[0])
    ensures Scan(" " + left, Then(Blank, rest)) == Scan(left, rest)
    ensures Scan(left, Then(Blank, rest)) == Scan(left, rest)
  {
    assert (" " + left)[1..] == left;
    assert SkipSpace(left) == left;
    assert SkipSpace(" " + left) == SkipSpace((" " + left)[1..]);
  }

  /** A conversion finds nothing at the end of the input, and neither does a literal. */
  lemma ScanEnd(d: Directive, rest: Format)
    requires !d.Blank?
    ensures Scan("", Then(d, rest)) == []
  {
  }

  lemma AsIntSame(n: nat)
    requires n < 0x8000_0000
    ensures AsInt(n) == n
  {
  }

  lemma AsIntSigned(n: int)
    requires -0x8000_0000 <= n < 0x8000_0000
    ensures AsInt(n) == n
  {
  }

  lemma AsUnsignedSame(n: nat)
    requires n < TWO32
    ensures AsUnsigned(n) == n
  {
  }

  lemma AsIntCut(n: nat)
    requires n < TWO32
    ensures AsInt(n) % TWO32 == n
  {
  }

  /** A number too large for its target is clamped to 64 bits first and then cut to 32. */
  lemma AsIntWraps(n: int)
    ensures n >= 0x8000_0000_0000_0000 ==> AsInt(n) == -1
    ensures n < -0x8000_0000_0000_0000 ==> AsInt(n) == 0
    ensures -0x8000_0000_0000_0000 <= n < 0x8000_0000_0000_0000 ==> (n - AsInt(n)) % 0x1_0000_0000 == 0
  {
  }

  lemma AsUnsignedWraps(n: nat)
    ensures n >= 0x1_0000_0000_0000_0000 ==> AsUnsigned(n) == 0xFFFF_FFFF
    ensures n < 0x1_0000_0000_0000_0000 ==> (n - AsUnsigned(n)) % 0x1_0000_0000 == 0
  {
  }
}
