/**
 * The mode string parser (compositor-drm-help.c:270-332) and the format it is documented to read
 * (drm-help-client.h:88-90).
 */
module ModeString {
  import opened Options
  import opened Machine
  import opened Decimal
  import opened Scanf

  datatype Ratio = NoRatio | R4x3 | R16x9 | R64x27 | R256x135

  /** drm_helper_mode; the flags are DRM_MODE_FLAG_INTERLACE and DRM_MODE_FLAG_DBLSCAN. */
  datatype Mode = Mode(width: int, height: int, refresh: nat, interlaced: bool, doubled: bool, ratio: Ratio)

  // "%dx%m[^@]@%d %u:%u", from its end to its start, and "%d%ms".
  const DENOMINATOR := Then(Unsigned, Done)
  const COLON := Then(Literal(':'), DENOMINATOR)
  const NUMERATOR := Then(Unsigned, COLON)
  const GAP := Then(Blank, NUMERATOR)
  const RATE := Then(Int, GAP)
  const AT := Then(Literal('@'), RATE)
  const BODY := Then(Until('@'), AT)
  const CROSS := Then(Literal('x'), BODY)
  const MODE_FORMAT := Then(Int, CROSS)
  const HEIGHT_FORMAT := Then(Int, Then(Text, Done))

  function RatioOf(a: int, b: int): Ratio {
    if a == 4 && b == 3 then R4x3
    else if a == 16 && b == 9 then R16x9
    else if a == 64 && b == 27 then R64x27
    else if a == 256 && b == 135 then R256x135
    else NoRatio
  }

  function Num(v: seq<Value>, i: nat): int {
    if i < |v| && v[i].Number? then v[i].n else 0
  }

  function Str(v: seq<Value>, i: nat): string {
    if i < |v| && v[i].Chars? then v[i].s else ""
  }

  /**
   * The second scan is refused only when it returns 0: a height of nothing but white space makes
   * it return EOF, which is let through.
   */
  predicate HeightRefused(height: string) {
    Scan(height, HEIGHT_FORMAT) == [] && SkipSpace(height) != ""
  }

  /** What the parser makes of the values of the two scans. */
  function ModeFrom(v: seq<Value>): Option<Mode> {
    if (|v| != 2 && |v| != 3 && |v| != 5) || HeightRefused(Str(v, 1)) then None
    else
      var h := Scan(Str(v, 1), HEIGHT_FORMAT);
      Some(Mode(Num(v, 0), Num(h, 0), Num(v, 2) % TWO32, 'i' in Str(h, 1), 'd' in Str(h, 1),
                if |v| == 5 then RatioOf(Num(v, 3), Num(v, 4)) else NoRatio))
  }

  /** What parse_modestring answers. */
  function Parse(s: string): Option<Mode> {
    ModeFrom(Scan(s, MODE_FORMAT))
  }

  /** parse_modestring. */
  method ParseModestring(s: string) returns (mode: Option<Mode>)
    ensures mode == Parse(s)
  {
    var v := Scan(s, MODE_FORMAT);
    var ratio := NoRatio;
    if |v| == 5 {
      ratio := RatioOf(Num(v, 3), Num(v, 4));
    }
    if |v| != 2 && |v| != 3 && |v| != 5 {
      return None;
    }
    if HeightRefused(Str(v, 1)) {
      return None;
    }
    var h := Scan(Str(v, 1), HEIGHT_FORMAT);
    var interlaced, doubled := ReadFlags(Str(h, 1));
    return Some(Mode(Num(v, 0), Num(h, 0), Num(v, 2) % TWO32, interlaced, doubled, ratio));
  }

  /** The loop over the letters after the height; letters it does not know are skipped. */
  method ReadFlags(others: string) returns (interlaced: bool, doubled: bool)
    ensures interlaced <==> 'i' in others
    ensures doubled <==> 'd' in others
  {
    interlaced, doubled := false, false;
    for k := 0 to |others|
      invariant interlaced <==> 'i' in others[..k]
      invariant doubled <==> 'd' in others[..k]
    {
      match others[k]
      case 'i' => interlaced := true;
      case 'd' => doubled := true;
      case _ =>
    }
    assert others[..|others|] == others;
  }

  // ---------------------------------------------------------------- the documented format

  datatype Suffix = Plain | Interlaced | Doubled

  function SuffixText(x: Suffix): string {
    match x
    case Plain => ""
    case Interlaced => "i"
    case Doubled => "d"
  }

  /** A height and at most one letter. */
  function Body(h: nat, x: Suffix): (s: string)
    ensures s != ""
  {
    Numeral(h) + SuffixText(x)
  }

  function RatioText(r: Ratio): string {
    match r
    case NoRatio => ""
    case R4x3 => " 4:3"
    case R16x9 => " 16:9"
    case R64x27 => " 64:27"
    case R256x135 => " 256:135"
  }

  /** WxH[i|d] and what follows it. */
  function Size(w: nat, h: nat, x: Suffix, more: string): string {
    Numeral(w) + (['x'] + (Body(h, x) + more))
  }

  /** @R and what follows it. */
  function Rate(r: nat, more: string): string {
    ['@'] + (Numeral(r) + more)
  }

  /** The documented format: WxH[i|d] with an optional @R and, after that, an optional A:B. */
  function Documented(w: nat, h: nat, x: Suffix, refresh: Option<nat>, ratio: Ratio): string
    requires refresh.None? ==> ratio.NoRatio?
  {
    Size(w, h, x, if refresh.Some? then Rate(refresh.value, RatioText(ratio)) else "")
  }

  // ---------------------------------------------------------------- proofs

  lemma BodyHasNoAt(h: nat, x: Suffix)
    ensures '@' !in Body(h, x)
  {
  }

  /** The directives up to the body. */
  lemma ScanSize(w: nat, h: nat, x: Suffix, more: string)
    requires w < 0x8000_0000 && (more == "" || more[0] == '@')
    ensures Scan(Size(w, h, x, more), MODE_FORMAT) == [Number(w), Chars(Body(h, x))] + Scan(more, AT)
  {
    BodyHasNoAt(h, x);
    ScanWidthAndBody(w, Body(h, x), more);
  }

  lemma ScanWidthAndBody(w: nat, body: string, more: string)
    requires w < 0x8000_0000 && body != "" && '@' !in body && (more == "" || more[0] == '@')
    ensures Scan(Numeral(w) + (['x'] + (body + more)), MODE_FORMAT) == [Number(w), Chars(body)] + Scan(more, AT)
  {
    var t := ['x'] + (body + more);
    assert Scan(t, CROSS) == [Chars(body)] + Scan(more, AT) by { ScanCross(body, more); }
    assert Scan(Numeral(w) + t, MODE_FORMAT) == [Number(w)] + Scan(t, CROSS) by { ScanWidth(w, t); }
    Joined(Number(w), Chars(body), Scan(more, AT));
  }

  lemma Joined(a: Value, b: Value, v: seq<Value>)
    ensures [a] + ([b] + v) == [a, b] + v
  {
  }

  lemma ScanWidth(w: nat, t: string)
    requires w < 0x8000_0000 && NumberEnds(t)
    ensures Scan(Numeral(w) + t, MODE_FORMAT) == [Number(w)] + Scan(t, CROSS)
  {
    ScanInt(w, t, CROSS);
    AsIntSame(w);
  }

  lemma ScanCross(body: string, more: string)
    requires body != "" && '@' !in body && (more == "" || more[0] == '@')
    ensures Scan(['x'] + (body + more), CROSS) == [Chars(body)] + Scan(more, AT)
  {
    ScanLiteral('x', body + more, BODY);
    ScanUntil(body, more, '@', AT);
  }

  /** The '@' and the refresh rate. */
  lemma ScanRate(r: nat, more: string)
    requires NumberEnds(more)
    ensures Scan(Rate(r, more), AT) == [Number(AsInt(r))] + Scan(more, GAP)
  {
    ScanLiteral('@', Numeral(r) + more, RATE);
    ScanInt(r, more, GAP);
  }

  /** A blank, the numerator, and what is left. */
  lemma ScanNumerator(n: nat, more: string)
    requires NumberEnds(more)
    ensures Scan(" " + (Numeral(n) + more), GAP) == [Number(AsUnsigned(n))] + Scan(more, COLON)
  {
    var t := Numeral(n) + more;
    assert t[0] == Numeral(n)[0];
    ScanBlank(t, NUMERATOR);
    ScanUnsigned(n, more, COLON);
  }

  lemma ScanDenominator(d: nat)
    ensures Scan([':'] + Numeral(d), COLON) == [Number(AsUnsigned(d))]
  {
    ScanLiteral(':', Numeral(d), DENOMINATOR);
    assert Numeral(d) + "" == Numeral(d);
    ScanUnsigned(d, "", Done);
  }

  /** The second scan, on a height and at most one letter. */
  lemma ScanBody(h: nat, x: Suffix)
    requires h < 0x8000_0000
    ensures Scan(Body(h, x), HEIGHT_FORMAT) == [Number(h)] + if x.Plain? then [] else [Chars(SuffixText(x))]
  {
    var t := SuffixText(x);
    ScanInt(h, t, Then(Text, Done));
    AsIntSame(h);
    WordOf(t);
    assert SkipSpace(t) == t;
    assert t[|t|..] == "";
  }

  function ModeOf(w: nat, h: nat, x: Suffix, refresh: nat, ratio: Ratio): Mode {
    Mode(w, h, refresh, x.Interlaced?, x.Doubled?, ratio)
  }

  /** The mode, from values that begin with a width and a body. */
  lemma ParseFromValues(s: string, w: nat, h: nat, x: Suffix, r: nat, ratio: Ratio, v: seq<Value>)
    requires h < 0x8000_0000 && Scan(s, MODE_FORMAT) == v
    requires (|v| == 2 || |v| == 3 || |v| == 5) && v[0] == Number(w) && v[1] == Chars(Body(h, x))
    requires r == Num(v, 2) % TWO32 && ratio == if |v| == 5 then RatioOf(Num(v, 3), Num(v, 4)) else NoRatio
    ensures Parse(s) == Some(ModeOf(w, h, x, r, ratio))
  {
    ScanBody(h, x);
  }

  /** The values of WxH[i|d]. */
  lemma ScanTwo(s: string, w: nat, h: nat, x: Suffix)
    requires w < 0x8000_0000 && s == Size(w, h, x, "")
    ensures Scan(s, MODE_FORMAT) == [Number(w), Chars(Body(h, x))]
  {
    ScanSize(w, h, x, "");
    ScanEnd(Literal('@'), RATE);
  }

  /** The values of WxH[i|d]@R. */
  lemma ScanThree(w: nat, h: nat, x: Suffix, r: nat)
    requires w < 0x8000_0000
    ensures Scan(Size(w, h, x, Rate(r, "")), MODE_FORMAT) == [Number(w), Chars(Body(h, x)), Number(AsInt(r))]
  {
    ScanSize(w, h, x, Rate(r, ""));
    ScanRate(r, "");
    ScanBlank("", NUMERATOR);
    ScanEnd(Unsigned, COLON);
  }

  /** The values of WxH[i|d]@R A followed by something other than a digit. */
  lemma ScanFour(w: nat, h: nat, x: Suffix, r: nat, n: nat, more: string)
    requires w < 0x8000_0000 && NumberEnds(more)
    ensures Scan(Size(w, h, x, Rate(r, " " + (Numeral(n) + more))), MODE_FORMAT)
         == [Number(w), Chars(Body(h, x)), Number(AsInt(r)), Number(AsUnsigned(n))] + Scan(more, COLON)
  {
    var tail := " " + (Numeral(n) + more);
    var rest := Scan(more, COLON);
    assert Scan(tail, GAP) == [Number(AsUnsigned(n))] + rest by { ScanNumerator(n, more); }
    assert Scan(Rate(r, tail), AT) == [Number(AsInt(r))] + Scan(tail, GAP) by { ScanRate(r, tail); }
    ScanSize(w, h, x, Rate(r, tail));
    JoinedFour(Number(w), Chars(Body(h, x)), Number(AsInt(r)), Number(AsUnsigned(n)), rest);
  }

  lemma JoinedFour(a: Value, b: Value, c: Value, d: Value, v: seq<Value>)
    ensures [a, b] + ([c] + ([d] + v)) == [a, b, c, d] + v
  {
  }

  /** The values of WxH[i|d]@R A:B. */
  lemma ScanFive(s: string, w: nat, h: nat, x: Suffix, r: nat, n: nat, d: nat)
    requires w < 0x8000_0000 && n < TWO32 && d < TWO32
    requires s == Size(w, h, x, Rate(r, " " + (Numeral(n) + ([':'] + Numeral(d)))))
    ensures Scan(s, MODE_FORMAT) == [Number(w), Chars(Body(h, x)), Number(AsInt(r)), Number(n), Number(d)]
  {
    ScanFour(w, h, x, r, n, [':'] + Numeral(d));
    ScanDenominator(d);
    AsUnsignedSame(n);
    AsUnsignedSame(d);
  }

  lemma ParseFromFive(s: string, w: nat, h: nat, x: Suffix, r: nat, n: nat, d: nat, rate: int)
    requires h < 0x8000_0000 && r == rate % TWO32
    requires Scan(s, MODE_FORMAT) == [Number(w), Chars(Body(h, x)), Number(rate), Number(n), Number(d)]
    ensures Parse(s) == Some(ModeOf(w, h, x, r, RatioOf(n, d)))
  {
    ParseFromValues(s, w, h, x, r, RatioOf(n, d), Scan(s, MODE_FORMAT));
  }

  /** WxH[i|d]@R A:B for any A and B: the ratio is kept if it is one of the four known ones. */
  lemma ParseNumbers(s: string, w: nat, h: nat, x: Suffix, r: nat, n: nat, d: nat)
    requires w < 0x8000_0000 && h < 0x8000_0000 && r < TWO32 && n < TWO32 && d < TWO32
    requires s == Size(w, h, x, Rate(r, " " + (Numeral(n) + ([':'] + Numeral(d)))))
    ensures Parse(s) == Some(ModeOf(w, h, x, r, RatioOf(n, d)))
  {
    ScanFive(s, w, h, x, r, n, d);
    AsIntCut(r);
    ParseFromFive(s, w, h, x, r, n, d, AsInt(r));
  }

  /**
   * Of all aspect numbers, exactly the four known pairs give a ratio, each its own; any other pair is
   * accepted without one.
   */
  lemma ParseRatio(s: string, w: nat, h: nat, x: Suffix, r: nat, n: nat, d: nat)
    requires w < 0x8000_0000 && h < 0x8000_0000 && r < TWO32 && n < TWO32 && d < TWO32
    requires s == Size(w, h, x, Rate(r, " " + (Numeral(n) + ([':'] + Numeral(d)))))
    ensures Parse(s).Some?
    ensures Parse(s).value.ratio == R4x3 <==> n == 4 && d == 3
    ensures Parse(s).value.ratio == R16x9 <==> n == 16 && d == 9
    ensures Parse(s).value.ratio == R64x27 <==> n == 64 && d == 27
    ensures Parse(s).value.ratio == R256x135 <==> n == 256 && d == 135
  {
    ParseNumbers(s, w, h, x, r, n, d);
  }

  /** WxH[i|d]. */
  lemma ParseSize(s: string, w: nat, h: nat, x: Suffix)
    requires w < 0x8000_0000 && h < 0x8000_0000 && s == Size(w, h, x, "")
    ensures Parse(s) == Some(ModeOf(w, h, x, 0, NoRatio))
  {
    var v := [Number(w), Chars(Body(h, x))];
    assert Scan(s, MODE_FORMAT) == v by { ScanTwo(s, w, h, x); }
    assert |v| == 2 && v[0] == Number(w) && v[1] == Chars(Body(h, x));
    assert Num(v, 2) == 0;
    ParseFromValues(s, w, h, x, 0, NoRatio, v);
  }

  /** WxH[i|d]@R. */
  lemma ParseRate(s: string, w: nat, h: nat, x: Suffix, r: nat)
    requires w < 0x8000_0000 && h < 0x8000_0000 && r < TWO32 && s == Size(w, h, x, Rate(r, ""))
    ensures Parse(s) == Some(ModeOf(w, h, x, r, NoRatio))
  {
    var v := [Number(w), Chars(Body(h, x)), Number(AsInt(r))];
    assert Scan(s, MODE_FORMAT) == v by { ScanThree(w, h, x, r); }
    AsIntCut(r);
    ParseFromValues(s, w, h, x, r, NoRatio, v);
  }

  /** An aspect numerator without a denominator is refused, with or without the colon. */
  lemma NoDenominator(w: nat, h: nat, x: Suffix, r: nat, n: nat, colon: bool)
    requires w < 0x8000_0000
    ensures Parse(Size(w, h, x, Rate(r, " " + (Numeral(n) + if colon then [':'] + "" else "")))) == None
  {
    ScanFour(w, h, x, r, n, if colon then [':'] + "" else "");
    ScanLiteral(':', "", DENOMINATOR);
    ScanEnd(Unsigned, Done);
    ScanEnd(Literal(':'), DENOMINATOR);
  }

  function RatioWidth(r: Ratio): nat {
    match r
    case NoRatio => 0
    case R4x3 => 4
    case R16x9 => 16
    case R64x27 => 64
    case R256x135 => 256
  }

  function RatioHeight(r: Ratio): nat {
    match r
    case NoRatio => 0
    case R4x3 => 3
    case R16x9 => 9
    case R64x27 => 27
    case R256x135 => 135
  }

  lemma RatioNumerals(r: Ratio)
    requires !r.NoRatio?
    ensures RatioText(r) == " " + (Numeral(RatioWidth(r)) + ([':'] + Numeral(RatioHeight(r))))
    ensures RatioOf(RatioWidth(r), RatioHeight(r)) == r
  {
    match r
    case R4x3 =>
    case R16x9 => NumeralTwo(16);
    case R64x27 => NumeralTwo(64); NumeralTwo(27);
    case R256x135 => RatioNumeralsWide();
  }

  lemma RatioNumeralsWide()
    ensures RatioText(R256x135) == " " + (Numeral(256) + ([':'] + Numeral(135)))
  {
    NumeralThree(256);
    NumeralThree(135);
  }

  lemma NumeralTwo(n: nat)
    requires 10 <= n < 100
    ensures Numeral(n) == [Digit(n / 10), Digit(n % 10)]
  {
  }

  lemma NumeralThree(n: nat)
    requires 100 <= n < 1000
    ensures Numeral(n) == [Digit(n / 100), Digit(n / 10 % 10), Digit(n % 10)]
  {
    NumeralTwo(n / 10);
    assert n / 10 / 10 == n / 100;
  }

  /**
   * The parser undoes the documented format: any non-negative 32-bit size and rate, any letter,
   * with or without a rate, and with any of the four aspect ratios after it.
   */
  lemma ParseUndoesDocumented(s: string, w: nat, h: nat, x: Suffix, refresh: Option<nat>, ratio: Ratio)
    requires w < 0x8000_0000 && h < 0x8000_0000 && (refresh.Some? ==> refresh.value < TWO32)
    requires (refresh.None? ==> ratio.NoRatio?) && s == Documented(w, h, x, refresh, ratio)
    ensures Parse(s) == Some(ModeOf(w, h, x, if refresh.Some? then refresh.value else 0, ratio))
  {
    if refresh.None? {
      ParseSize(s, w, h, x);
    } else if ratio.NoRatio? {
      ParseRate(s, w, h, x, refresh.value);
    } else {
      RatioNumerals(ratio);
      ParseNumbers(s, w, h, x, refresh.value, RatioWidth(ratio), RatioHeight(ratio));
    }
  }

  // ---------------------------------------------------------------- letters and signs

  /** The mode without a rate, from what the two scans find. */
  lemma ParseFromScans(s: string, w: int, body: string, v: seq<Value>, hv: seq<Value>)
    requires Scan(s, MODE_FORMAT) == v && v == [Number(w), Chars(body)]
    requires Scan(body, HEIGHT_FORMAT) == hv && hv != []
    ensures Parse(s) == Some(Mode(w, Num(hv, 0), 0, 'i' in Str(hv, 1), 'd' in Str(hv, 1), NoRatio))
  {
    ModeFromTwo(v, w, body, hv);
  }

  lemma ModeFromTwo(v: seq<Value>, w: int, body: string, hv: seq<Value>)
    requires |v| == 2 && v[0] == Number(w) && v[1] == Chars(body)
    requires Scan(body, HEIGHT_FORMAT) == hv && hv != []
    ensures ModeFrom(v) == Some(Mode(w, Num(hv, 0), 0, 'i' in Str(hv, 1), 'd' in Str(hv, 1), NoRatio))
  {
    assert Str(v, 1) == body && Num(v, 0) == w && Num(v, 2) == 0;
    assert !HeightRefused(body);
  }

  /** Any letters may follow the height: an i and a d count wherever they stand, the others do not. */
  lemma ParseLetters(s: string, w: nat, h: nat, letters: string, body: string)
    requires w < 0x8000_0000 && h < 0x8000_0000 && '@' !in letters && NumberEnds(letters)
    requires forall k :: 0 <= k < |letters| ==> !IsSpace(letters[k])
    requires body == Numeral(h) + letters && s == Numeral(w) + (['x'] + (body + ""))
    ensures Parse(s) == Some(Mode(w, h, 0, 'i' in letters, 'd' in letters, NoRatio))
  {
    assert '@' !in body && body != "";
    var v, hv := [Number(w), Chars(body)], [Number(h)] + if letters == "" then [] else [Chars(letters)];
    assert Scan(s, MODE_FORMAT) == v by {
      ScanWidthAndBody(w, body, "");
      ScanEnd(Literal('@'), RATE);
    }
    assert Scan(body, HEIGHT_FORMAT) == hv by { ScanLetters(h, letters); }
    assert Num(hv, 0) == h && Str(hv, 1) == letters;
    ParseFromScans(s, w, body, v, hv);
  }

  lemma ScanLetters(h: nat, letters: string)
    requires h < 0x8000_0000 && NumberEnds(letters) && forall k :: 0 <= k < |letters| ==> !IsSpace(letters[k])
    ensures Scan(Numeral(h) + letters, HEIGHT_FORMAT)
         == [Number(h)] + if letters == "" then [] else [Chars(letters)]
  {
    ScanInt(h, letters, Then(Text, Done));
    AsIntSame(h);
    WordOf(letters);
    assert SkipSpace(letters) == letters;
    assert letters[|letters|..] == "";
  }

  /** A width is read with its sign. */
  lemma ParseSigned(s: string, w: int, h: nat, body: string, t: string)
    requires -0x8000_0000 < w < 0x8000_0000 && h < 0x8000_0000 && body == Numeral(h)
    requires t == ['x'] + (body + "")
    requires s == if w < 0 then ['-'] + (Numeral(-w) + t) else ['+'] + (Numeral(w) + t)
    ensures Parse(s) == Some(Mode(w, h, 0, false, false, NoRatio))
  {
    var v, hv := [Number(w), Chars(body)], [Number(h)];
    assert Scan(t, CROSS) == [Chars(body)] by {
      ScanCross(body, "");
      ScanEnd(Literal('@'), RATE);
    }
    assert Scan(s, MODE_FORMAT) == v by { ScanSigned(s, w, t); }
    assert Scan(body, HEIGHT_FORMAT) == hv by {
      assert Numeral(h) + "" == body;
      ScanLetters(h, "");
    }
    ParseFromScans(s, w, body, v, hv);
  }

  lemma ScanSigned(s: string, w: int, t: string)
    requires -0x8000_0000 < w < 0x8000_0000 && NumberEnds(t)
    requires s == if w < 0 then ['-'] + (Numeral(-w) + t) else ['+'] + (Numeral(w) + t)
    ensures Scan(s, MODE_FORMAT) == [Number(w)] + Scan(t, CROSS)
  {
    SignedRead(if w < 0 then -w else w, t, w < 0, s);
  }

  // ---------------------------------------------------------------- which heights are let through

  /** After white space and at most one sign there is a digit. */
  predicate StartsNumber(t: string) {
    var a := SkipSpace(t);
    var b := if a != "" && (a[0] == '-' || a[0] == '+') then a[1..] else a;
    b != "" && IsDigit(b[0])
  }

  predicate AllBlank(t: string) {
    forall i :: 0 <= i < |t| ==> IsSpace(t[i])
  }

  lemma {:induction false} BlankSkipped(t: string)
    ensures SkipSpace(t) == "" <==> AllBlank(t)
  {
    if t != "" && IsSpace(t[0]) {
      BlankSkipped(t[1..]);
      assert AllBlank(t[1..]) ==> forall i :: 0 < i < |t| ==> t[i] == t[1..][i - 1];
      assert AllBlank(t) ==> forall i :: 0 <= i < |t| - 1 ==> t[1..][i] == t[i + 1];
    }
  }

  /** The second scan finds a height exactly in a text that starts with a number. */
  lemma HeightFound(t: string)
    ensures Scan(t, HEIGHT_FORMAT) == [] <==> !StartsNumber(t)
    ensures HeightRefused(t) <==> !StartsNumber(t) && !AllBlank(t)
  {
    BlankSkipped(t);
  }

  /**
   * Whatever follows the x is accepted exactly if what comes before the first '@' starts with a
   * number or is nothing but white space, and what comes after it converts to none, one or three
   * numbers.  Without a number the height is 0.
   */
  lemma AcceptedIff(s: string, w: nat, body: string, more: string)
    requires w < 0x8000_0000 && body != "" && '@' !in body && (more == "" || more[0] == '@')
    requires s == Numeral(w) + (['x'] + (body + more))
    ensures Parse(s).Some? <==>
      (StartsNumber(body) || AllBlank(body)) && |Scan(more, AT)| != 2 && |Scan(more, AT)| <= 3
    ensures Parse(s).Some? && !StartsNumber(body) ==> Parse(s).value.height == 0
    ensures Parse(s).Some? ==> Parse(s).value.width == w
  {
    var v := Scan(s, MODE_FORMAT);
    ScanWidthAndBody(w, body, more);
    AcceptedFrom(s, w, body, Scan(more, AT), v);
  }

  lemma AcceptedFrom(s: string, w: nat, body: string, rest: seq<Value>, v: seq<Value>)
    requires Scan(s, MODE_FORMAT) == v && v == [Number(w), Chars(body)] + rest
    ensures Parse(s).Some? <==> (StartsNumber(body) || AllBlank(body)) && |rest| != 2 && |rest| <= 3
    ensures Parse(s).Some? && !StartsNumber(body) ==> Parse(s).value.height == 0
    ensures Parse(s).Some? ==> Parse(s).value.width == w
  {
    assert v[0] == Number(w) && v[1] == Chars(body) && |v| == 2 + |rest|;
    HeightFound(body);
  }

  /** Nothing between the x and the '@', or the end, is refused. */
  lemma NothingRefused(s: string, w: nat, more: string)
    requires w < 0x8000_0000 && (more == "" || more[0] == '@')
    requires s == Numeral(w) + (['x'] + more)
    ensures Parse(s) == None
  {
    assert Scan(['x'] + more, CROSS) == [] by {
      ScanLiteral('x', more, BODY);
      assert Before(more, '@') == "";
    }
    ScanWidth(w, ['x'] + more);
  }

  /** Without a rate, or with one: the part before the '@' decides alone. */
  lemma AcceptedWithRate(s: string, w: nat, body: string, refresh: Option<nat>)
    requires w < 0x8000_0000 && body != "" && '@' !in body
    requires s == Numeral(w) + (['x'] + (body + if refresh.Some? then Rate(refresh.value, "") else ""))
    ensures Parse(s).Some? <==> StartsNumber(body) || AllBlank(body)
    ensures Parse(s).Some? && !StartsNumber(body) ==> Parse(s).value.height == 0
    ensures Parse(s).Some? ==> Parse(s).value.width == w
  {
    RateOnly(refresh);
    AcceptedIff(s, w, body, if refresh.Some? then Rate(refresh.value, "") else "");
  }

  lemma RateOnly(refresh: Option<nat>)
    ensures |Scan(if refresh.Some? then Rate(refresh.value, "") else "", AT)| <= 1
  {
    if refresh.Some? {
      ScanRate(refresh.value, "");
      ScanBlank("", NUMERATOR);
      ScanEnd(Unsigned, COLON);
    } else {
      ScanEnd(Literal('@'), RATE);
    }
  }

  /** So blanks in place of a height are taken for a height of 0. */
  lemma BlankHeight(s: string, w: nat)
    requires w < 0x8000_0000 && s == Numeral(w) + (['x'] + (" " + ""))
    ensures Parse(s).Some? && Parse(s).value.height == 0
  {
    AcceptedWithRate(s, w, " ", None);
  }
}
