/**
 * The framebuffer surface: blits into one page while another is on display, then asks the
 * hardware to pan (hwalFBSurface.cpp:43-63, 304-375).
 */
module FbSurface {
  import opened Options
  import opened Machine
  import opened BlitGeometry

  datatype Error = Success | Invalid | Io

  /** mCurSurface before the first successful blit. */
  const UNSET := 255

  /** Which page a blit writes, and what it leaves for mCurSurface and yoffset if the pan succeeds. */
  datatype Plan = Plan(page: nat, next: nat, yoffset: nat)

  /**
   * The choice of the page.  `junk` is the value of the local variable when no branch sets it:
   * with a single surface, or when mCurSurface is none of 255, 0 and 1.
   */
  function Choose(s: Screen, current: nat, yoffset: nat, junk: nat): Plan {
    if s.surfaces == 1 then Plan(0, junk, 0)
    else if current == UNSET then Plan(0, 0, 0)
    else if current == 0 then Plan(1, 1, s.yres)
    else if current == 1 then Plan(0, 0, 0)
    else Plan(0, junk, yoffset)
  }

  /** How the bytes of a row of the image follow those of the row before. */
  function Stride(s: Screen, width: nat): nat {
    width * s.pixel
  }

  /** The clipped rectangle lies inside the framebuffer and the image supplies all of it. */
  ghost predicate BlitFits(s: Screen, src: seq<byte>, a: Area, width: nat, height: nat) {
    Fits(a, Line(s), AllRows(s)) && Supplies(src, Stride(s, width), a)
  }

  lemma ClipFits(s: Screen, src: seq<byte>, page: nat, x: nat, y: nat, width: nat, height: nat)
    requires Possible(s) && x < s.xres && y < s.yres && page < 2 && page < s.surfaces
    requires |src| == Start(height, Stride(s, width))
    ensures BlitFits(s, src, Clip(s, page, x, y, width, height), width, height)
  {
    var a := Clip(s, page, x, y, width, height);
    var w := Min(width, s.xres - x);
    MulMono(x + w, s.xres, s.pixel);
    MulMono(w, width, s.pixel);
    MulMono(page + 1, s.surfaces, s.yres);
    if a.height < height { RowsApart(a.height, height, Stride(s, width)); }
  }

  lemma MulMono(a: nat, b: nat, c: nat)
    requires a <= b
    ensures a * c <= b * c
  {
  }

  // The byte counts of the code: where row i of the page goes, where it comes from, how long it is.

  function RowOffset(bits: nat, bytesPerLine: nat, x: nat, y: nat, i: nat): nat {
    x * (bits / 8) + (y + i) * bytesPerLine
  }

  function SourceOffset(bits: nat, width: nat, i: nat): nat {
    i * width * bits / 8
  }

  function RowBytes(bits: nat, wReal: nat): nat {
    wReal * bits / 8
  }

  /** The byte addresses the code computes are the row starts of the clipped rectangle. */
  lemma Addresses(s: Screen, bits: nat, page: nat, x: nat, y: nat, i: nat, width: nat, wReal: nat)
    requires Possible(s) && bits == 8 * s.pixel
    ensures Start(PageRow(s, page, 0), Line(s)) + RowOffset(bits, Line(s), x, y, i)
         == Start(PageRow(s, page, y + i), Line(s)) + x * s.pixel
    ensures SourceOffset(bits, width, i) == Start(i, Stride(s, width))
    ensures RowBytes(bits, wReal) == wReal * s.pixel
  {
    assert bits / 8 == s.pixel;
    assert Start(PageRow(s, page, y + i), Line(s)) == Start(PageRow(s, page, 0), Line(s)) + (y + i) * Line(s) by {
      StartIs(y + i, Line(s));
      StartAdds(PageRow(s, page, 0), y + i, Line(s));
    }
    assert SourceOffset(bits, width, i) == Start(i, Stride(s, width)) by {
      StartIs(i, Stride(s, width));
      Associates(i, width, s.pixel);
      BitsToBytes(i * width, s.pixel, bits);
    }
    BitsToBytes(wReal, s.pixel, bits);
  }

  lemma BitsToBytes(n: nat, pixel: nat, bits: nat)
    requires bits == 8 * pixel
    ensures n * bits / 8 == n * pixel
  {
    Associates(n, pixel, 8);
    assert pixel * 8 == bits;
  }

  lemma Associates(a: int, b: int, c: int)
    ensures a * b * c == a * (b * c)
  {
  }

  /** buffer_len is the length of one page. */
  lemma PageLength(s: Screen, bits: nat)
    requires bits == 8 * s.pixel
    ensures s.xres * s.yres * bits / 8 == Start(s.yres, Line(s))
  {
    StartIs(s.yres, Line(s));
    assert s.xres * s.yres * bits == 8 * (s.xres * s.yres * s.pixel);
    assert s.xres * s.yres * s.pixel == s.yres * (s.xres * s.pixel);
  }

  lemma {:induction false} StartAdds(a: nat, b: nat, line: nat)
    ensures Start(a + b, line) == Start(a, line) + Start(b, line)
    decreases b
  {
    if b > 0 { StartAdds(a, b - 1, line); }
  }

  /** The framebuffer once the first n rows of the clipped image are copied in. */
  ghost function Partial(s: Screen, before: seq<byte>, src: seq<byte>, page: nat,
                         x: nat, y: nat, width: nat, height: nat, n: nat): seq<byte>
    requires x < s.xres && y < s.yres
    requires BlitFits(s, src, Clip(s, page, x, y, width, height), width, height)
    requires |before| == Start(AllRows(s), Line(s)) && n <= Min(height, s.yres - y)
  {
    Rows(before, Line(s), AllRows(s), src, Stride(s, width), Clip(s, page, x, y, width, height), n)
  }

  lemma PartialNone(s: Screen, before: seq<byte>, src: seq<byte>, page: nat, x: nat, y: nat, width: nat, height: nat)
    requires x < s.xres && y < s.yres
    requires BlitFits(s, src, Clip(s, page, x, y, width, height), width, height)
    requires |before| == Start(AllRows(s), Line(s))
    ensures Partial(s, before, src, page, x, y, width, height, 0) == before
  {
  }

  lemma PartialNext(s: Screen, before: seq<byte>, src: seq<byte>, page: nat,
                    x: nat, y: nat, width: nat, height: nat, n: nat, at: nat, from: nat, len: nat)
    requires x < s.xres && y < s.yres
    requires BlitFits(s, src, Clip(s, page, x, y, width, height), width, height)
    requires |before| == Start(AllRows(s), Line(s)) && n < Min(height, s.yres - y)
    requires at == Start(PageRow(s, page, y + n), Line(s)) + x * s.pixel
    requires from == Start(n, Stride(s, width)) && len == Min(width, s.xres - x) * s.pixel
    ensures at + len <= |before| && from + len <= |src|
    ensures Partial(s, before, src, page, x, y, width, height, n + 1)
         == CopyRow(Partial(s, before, src, page, x, y, width, height, n), at, src[from..from + len])
  {
    RowsNext(before, Line(s), AllRows(s), src, Stride(s, width), Clip(s, page, x, y, width, height), n, at, from);
  }

  /** `now` is `before` with the clipped image copied in row by row. */
  ghost predicate Blitted(s: Screen, before: seq<byte>, now: seq<byte>, src: seq<byte>, page: nat,
                          x: nat, y: nat, width: nat, height: nat)
    requires x < s.xres && y < s.yres
  {
    && BlitFits(s, src, Clip(s, page, x, y, width, height), width, height)
    && |before| == Start(AllRows(s), Line(s))
    && now == Partial(s, before, src, page, x, y, width, height, Min(height, s.yres - y))
  }

  /** Where byte c of row r of page q lies. */
  function Place(s: Screen, q: nat, r: nat, c: nat): nat {
    Start(PageRow(s, q, r), Line(s)) + c
  }

  /**
   * A blit replaces exactly the bytes of the clipped rectangle on its page, each by the matching
   * byte of the image; every other byte of every page stays.
   */
  lemma BlitPixel(s: Screen, before: seq<byte>, now: seq<byte>, src: seq<byte>, page: nat,
                  x: nat, y: nat, width: nat, height: nat, q: nat, r: nat, c: nat)
    requires x < s.xres && y < s.yres && page < s.surfaces
    requires Blitted(s, before, now, src, page, x, y, width, height)
    requires q < s.surfaces && r < s.yres && c < Line(s)
    ensures |now| == |before| && Place(s, q, r, c) < |now|
    ensures var a, k := Clip(s, page, x, y, width, height), Place(s, q, r, c);
      if q == page && y <= r < y + a.height && a.left <= c < a.left + a.width
      then var from := Start(r - y, Stride(s, width)) + (c - a.left);
           from < |src| && now[k] == src[from]
      else now[k] == before[k]
  {
    BlitPixelAt(s, before, now, src, page, x, y, width, height, q, r, c, Clip(s, page, x, y, width, height),
                PageRow(s, q, r), Line(s), Stride(s, width));
  }

  lemma BlitPixelAt(s: Screen, before: seq<byte>, now: seq<byte>, src: seq<byte>, page: nat, x: nat, y: nat,
                    width: nat, height: nat, q: nat, r: nat, c: nat, a: Area, row: nat, line: nat, stride: nat)
    requires x < s.xres && y < s.yres && Blitted(s, before, now, src, page, x, y, width, height)
    requires q < s.surfaces && r < s.yres && c < line
    requires a == Clip(s, page, x, y, width, height)
    requires row == PageRow(s, q, r) && line == Line(s) && stride == Stride(s, width)
    ensures var k := Start(row, line) + c;
      && k < |before| == |now|
      && if q == page && y <= r < y + a.height && a.left <= c < a.left + a.width
         then var from := Start(r - y, stride) + (c - a.left);
              from < |src| && now[k] == src[from]
         else now[k] == before[k]
  {
    assert Painted(before, now, line, src, stride, a, a.height, row, c) by {
      BlitPainted(s, before, now, src, page, x, y, width, height, a, q, r, c, line, stride, row);
    }
    var inRows := q == page && y <= r < y + a.height;
    assert (inRows <==> a.top <= row < a.top + a.height) && (inRows ==> r - y == row - a.top) by {
      SamePage(s, page, y, a.height, q, r);
    }
    PaintedAt(before, now, line, src, stride, a, row, c, Start(row, line) + c, r - y, inRows);
  }

  /** What being painted means for the byte at k. */
  lemma PaintedAt(before: seq<byte>, now: seq<byte>, line: nat, src: seq<byte>, stride: nat, a: Area,
                  row: nat, c: nat, k: nat, i: int, inRows: bool)
    requires Painted(before, now, line, src, stride, a, a.height, row, c) && k == Start(row, line) + c
    requires inRows <==> a.top <= row < a.top + a.height
    requires inRows ==> i == row - a.top
    ensures k < |before| == |now|
    ensures if inRows && a.left <= c < a.left + a.width
            then i >= 0 && Start(i, stride) + (c - a.left) < |src| && now[k] == src[Start(i, stride) + (c - a.left)]
            else now[k] == before[k]
  {
  }

  lemma BlitPainted(s: Screen, before: seq<byte>, now: seq<byte>, src: seq<byte>, page: nat, x: nat, y: nat,
                    width: nat, height: nat, a: Area, q: nat, r: nat, c: nat, line: nat, stride: nat, row: nat)
    requires x < s.xres && y < s.yres && Blitted(s, before, now, src, page, x, y, width, height)
    requires a == Clip(s, page, x, y, width, height)
    requires q < s.surfaces && r < s.yres && c < line
    requires line == Line(s) && stride == Stride(s, width) && row == PageRow(s, q, r)
    ensures Painted(before, now, line, src, stride, a, a.height, row, c)
  {
    RowInPage(s, q, r);
    RowsPixel(before, line, AllRows(s), src, stride, a, a.height, row, c);
  }

  lemma RowInPage(s: Screen, q: nat, r: nat)
    requires q < s.surfaces && r < s.yres
    ensures PageRow(s, q, r) < AllRows(s)
  {
    MulMono(q + 1, s.surfaces, s.yres);
  }

  /** A row of one page is never a row of another. */
  lemma SamePage(s: Screen, page: nat, y: nat, height: nat, q: nat, r: nat)
    requires r < s.yres && y + height <= s.yres
    ensures PageRow(s, page, y) <= PageRow(s, q, r) < PageRow(s, page, y) + height <==> q == page && y <= r < y + height
  {
    if q < page { PagesApart(s, q, r, page, y); }
    if page < q { PagesApart(s, page, y + height, q, r); }
  }

  lemma PagesApart(s: Screen, q: nat, r: nat, page: nat, y: nat)
    requires q < page && r <= s.yres
    ensures PageRow(s, q, r) <= PageRow(s, page, y)
    ensures r < s.yres ==> PageRow(s, q, r) < PageRow(s, page, y)
  {
    MulMono(q + 1, page, s.yres);
    assert (q + 1) * s.yres == q * s.yres + s.yres;
  }

  /** The columns of the clipped rectangle, among those of the screen. */
  lemma ClipColumns(xres: nat, pixel: nat, x: nat, width: nat, c: nat)
    requires x < xres && c < xres * pixel
    ensures x * pixel <= c < x * pixel + Min(width, xres - x) * pixel <==> x * pixel <= c < (x + width) * pixel
  {
    assert (x + width) * pixel == x * pixel + width * pixel;
    assert xres * pixel == x * pixel + (xres - x) * pixel;
    if xres - x <= width { MulMono(xres - x, width, pixel); }
  }

  /**
   * The same in numbers: of the bytes of the screen, exactly those of the pixels from (x, y) on, as
   * many as the image is wide and high, take those of the image; so what hangs over is cut off.
   */
  lemma BlitBytes(s: Screen, before: seq<byte>, now: seq<byte>, src: seq<byte>, page: nat,
                  x: nat, y: nat, width: nat, height: nat, q: nat, r: nat, c: nat)
    requires x < s.xres && y < s.yres && page < s.surfaces
    requires Blitted(s, before, now, src, page, x, y, width, height)
    requires q < s.surfaces && r < s.yres && c < s.xres * s.pixel
    ensures var k := (q * s.yres + r) * (s.xres * s.pixel) + c;
      && 0 <= k < |before| == |now|
      && if q == page && y <= r < y + height && x * s.pixel <= c < (x + width) * s.pixel
         then var from := (r - y) * (width * s.pixel) + (c - x * s.pixel);
              0 <= from < |src| && now[k] == src[from]
         else now[k] == before[k]
  {
    assert Line(s) == s.xres * s.pixel && PageRow(s, q, r) == q * s.yres + r;
    BlitPixel(s, before, now, src, page, x, y, width, height, q, r, c);
    StartIs(PageRow(s, q, r), Line(s));
    ClipColumns(s.xres, s.pixel, x, width, c);
    if y <= r { StartIs(r - y, Stride(s, width)); }
  }

  // ---------------------------------------------------------------- page flipping over a run

  /** mCurSurface, the row on display, and mVarInfo.yoffset. */
  datatype Flip = Flip(current: nat, shown: nat, yoffset: nat)

  /** A valid blit: whether its pan succeeds, and the junk its local variable starts with. */
  datatype Blit = Blit(panned: bool, junk: nat)

  function Next(s: Screen, f: Flip, b: Blit): Flip {
    var p := Choose(s, f.current, f.yoffset, b.junk);
    if b.panned then Flip(p.next, p.yoffset, p.yoffset) else f.(yoffset := p.yoffset)
  }

  function After(s: Screen, f: Flip, blits: seq<Blit>): Flip {
    if blits == [] then f else Next(s, After(s, f, blits[..|blits| - 1]), blits[|blits| - 1])
  }

  function Successes(blits: seq<Blit>): nat {
    if blits == [] then 0
    else Successes(blits[..|blits| - 1]) + if blits[|blits| - 1].panned then 1 else 0
  }

  /**
   * With two or more surfaces, over every run including failing pans: the n-th successful blit
   * shows page 0 or 1 in turn, mCurSurface names that page, and the page on display starts there.
   */
  lemma {:induction false} PagesAlternate(s: Screen, f: Flip, blits: seq<Blit>)
    requires s.surfaces >= 2 && f.current == UNSET
    ensures var g, n := After(s, f, blits), Successes(blits);
      && g.current == (if n == 0 then UNSET else (n - 1) % 2)
      && g.shown == (if n == 0 then f.shown else (n - 1) % 2 * s.yres)
  {
    if blits != [] { PagesAlternate(s, f, blits[..|blits| - 1]); }
  }

  /**
   * After every run, with any number of surfaces, a blit whose pan succeeds puts on display the page
   * that it wrote, the first blit included.
   */
  lemma ShowsWhatItWrote(s: Screen, f: Flip, blits: seq<Blit>, junk: nat)
    requires Possible(s) && f.current == UNSET
    ensures var g := After(s, f, blits);
      var page := Choose(s, g.current, g.yoffset, junk).page;
      page < s.surfaces && Next(s, g, Blit(true, junk)).shown == page * s.yres
  {
    if s.surfaces >= 2 {
      PagesAlternate(s, f, blits);
    }
  }

  /**
   * So after it the rows on display hold the clipped image, and around it what the page held before:
   * `shown` is the row that the display starts at.
   */
  lemma BlitShown(s: Screen, f: Flip, blits: seq<Blit>, junk: nat, before: seq<byte>, now: seq<byte>, src: seq<byte>,
                  x: nat, y: nat, width: nat, height: nat, r: nat, c: nat)
    requires Possible(s) && f.current == UNSET && x < s.xres && y < s.yres
    requires var g := After(s, f, blits);
      Blitted(s, before, now, src, Choose(s, g.current, g.yoffset, junk).page, x, y, width, height)
    requires r < s.yres && c < s.xres * s.pixel
    ensures var shown := Next(s, After(s, f, blits), Blit(true, junk)).shown;
      var k := (shown + r) * (s.xres * s.pixel) + c;
      && 0 <= k < |before| == |now|
      && if y <= r < y + height && x * s.pixel <= c < (x + width) * s.pixel
         then var from := (r - y) * (width * s.pixel) + (c - x * s.pixel);
              0 <= from < |src| && now[k] == src[from]
         else now[k] == before[k]
  {
    ShowsWhatItWrote(s, f, blits, junk);
    var g := After(s, f, blits);
    var page := Choose(s, g.current, g.yoffset, junk).page;
    BlitBytes(s, before, now, src, page, x, y, width, height, page, r, c);
  }

  /** The blit that follows is not aimed at the page on display. */
  predicate AimsElsewhere(s: Screen, f: Flip, blits: seq<Blit>, junk: nat) {
    Choose(s, After(s, f, blits).current, After(s, f, blits).yoffset, junk).page * s.yres != After(s, f, blits).shown
  }

  /**
   * Once a blit has succeeded, no blit writes the page on display, failing pans or not: exactly
   * when there are at least two surfaces.
   */
  lemma DisplayedPageUntouched(s: Screen)
    requires Possible(s)
    ensures s.surfaces >= 2 <==>
      forall f: Flip, blits, junk | f.current == UNSET && Successes(blits) > 0 :: AimsElsewhere(s, f, blits, junk)
  {
    if s.surfaces >= 2 {
      forall f: Flip, blits, junk | f.current == UNSET && Successes(blits) > 0
        ensures AimsElsewhere(s, f, blits, junk)
      {
        PagesAlternate(s, f, blits);
      }
    } else {
      var f, blits := Flip(UNSET, 0, 0), [Blit(true, 0)];
      assert blits[..0] == [];
      assert Successes(blits) == 1;
      assert After(s, f, blits) == Flip(0, 0, 0);
      assert !AimsElsewhere(s, f, blits, 0);
    }
  }

  /**
   * With two or more surfaces, once a blit has succeeded, the next one leaves every byte of the
   * page on display as it is, whatever it copies and however the pans went.
   */
  lemma DisplayedBytesStay(s: Screen, f: Flip, blits: seq<Blit>, junk: nat, page: nat, before: seq<byte>,
                           now: seq<byte>, src: seq<byte>, x: nat, y: nat, width: nat, height: nat,
                           q: nat, r: nat, c: nat)
    requires Possible(s) && s.surfaces >= 2 && f.current == UNSET && Successes(blits) > 0
    requires page == Choose(s, After(s, f, blits).current, After(s, f, blits).yoffset, junk).page
    requires x < s.xres && y < s.yres && Blitted(s, before, now, src, page, x, y, width, height)
    requires q < s.surfaces && q * s.yres == After(s, f, blits).shown && r < s.yres && c < Line(s)
    ensures Place(s, q, r, c) < |before| == |now| && now[Place(s, q, r, c)] == before[Place(s, q, r, c)]
  {
    PagesAlternate(s, f, blits);
    BlitPixel(s, before, now, src, page, x, y, width, height, q, r, c);
  }

  class Surface {
    const screen: Screen
    const memory: array<byte>
    /** mBitspp and bits_per_pixel, mBytepl. */
    const bits: nat
    const bytesPerLine: nat
    var curSurface: nat
    var yoffset: nat
    /** The hardware: the row its display starts at. */
    var shown: nat

    ghost predicate Valid()
      reads this
    {
      && Possible(screen) && bits == 8 * screen.pixel && bytesPerLine == Line(screen)
      && memory.Length == Start(AllRows(screen), Line(screen))
      // once a blit has succeeded, the page on display is the one mCurSurface names
      && (screen.surfaces >= 2 ==> curSurface in {UNSET, 0, 1})
      && (screen.surfaces >= 2 && curSurface != UNSET ==> shown == curSurface * screen.yres)
    }

    /** A surface whose mode was set and whose memory was mapped; `shown` is what was there. */
    constructor (screen: Screen, shown: nat)
      requires Possible(screen)
      ensures Valid() && curSurface == UNSET && this.screen == screen && fresh(memory)
    {
      this.screen, bits, bytesPerLine := screen, 8 * screen.pixel, Line(screen);
      curSurface, yoffset, this.shown := UNSET, shown, shown;
      memory := new byte[Start(AllRows(screen), Line(screen))];
    }

    /** memcpy into the framebuffer. */
    method CopyBytes(at: nat, src: seq<byte>, from: nat, n: nat)
      requires at + n <= memory.Length && from + n <= |src|
      modifies memory
      ensures memory[..] == CopyRow(old(memory[..]), at, src[from..from + n])
    {
      ghost var before := memory[..];
      forall k | 0 <= k < n {
        memory[at + k] := src[from + k];
      }
      assert forall k :: 0 <= k < memory.Length ==>
        memory[k] == if at <= k < at + n then src[from + k - at] else before[k];
      assert memory[..] == CopyRow(before, at, src[from..from + n]);
    }

    /** The page to write: its byte offset, and what mCurSurface is to become. */
    method ChoosePage(junk: nat) returns (cur: nat, base: nat)
      requires Valid()
      modifies this`yoffset
      ensures var p := Choose(screen, curSurface, old(yoffset), junk);
        cur == p.next && yoffset == p.yoffset && base == Start(PageRow(screen, p.page, 0), Line(screen))
      ensures Choose(screen, curSurface, old(yoffset), junk).page < 2
      ensures Choose(screen, curSurface, old(yoffset), junk).page < screen.surfaces
    {
      var bufferLen := screen.xres * screen.yres * bits / 8;
      PageLength(screen, bits);
      cur, base := junk, 0;
      if screen.surfaces == 1 {
        yoffset := 0;
      } else {
        if curSurface == UNSET {
          cur := 0;
          yoffset := 0;
        }
        if curSurface == 0 {
          cur := 1;
          yoffset := screen.yres;
          base := base + bufferLen;
        }
        if curSurface == 1 {
          yoffset := 0;
          cur := 0;
        }
      }
    }

    /** Where row i goes, where it comes from and how long it is, as the code computes them. */
    method RowAddress(base: nat, ghost page: nat, x: nat, y: nat, i: nat, width: nat, wReal: nat)
      returns (loc: nat, from: nat, n: nat)
      requires Valid() && base == Start(PageRow(screen, page, 0), Line(screen))
      ensures base + loc == Start(PageRow(screen, page, y + i), Line(screen)) + x * screen.pixel
      ensures from == Start(i, Stride(screen, width))
      ensures n == wReal * screen.pixel
    {
      Addresses(screen, bits, page, x, y, i, width, wReal);
      loc := RowOffset(bits, bytesPerLine, x, y, i);
      from := SourceOffset(bits, width, i);
      n := RowBytes(bits, wReal);
    }

    /** The row loop of blitImage. */
    method CopyImage(src: seq<byte>, base: nat, ghost page: nat, x: nat, y: nat, width: nat, height: nat, wReal: nat,
                     hReal: nat)
      requires Valid() && x < screen.xres && y < screen.yres
      requires wReal == Min(width, screen.xres - x) && hReal == Min(height, screen.yres - y)
      requires page < 2 && page < screen.surfaces && base == Start(PageRow(screen, page, 0), Line(screen))
      requires |src| == Start(height, Stride(screen, width))
      modifies memory
      ensures Blitted(screen, old(memory[..]), memory[..], src, page, x, y, width, height)
    {
      ClipFits(screen, src, page, x, y, width, height);
      ghost var mem := memory[..];
      PartialNone(screen, mem, src, page, x, y, width, height);
      for i := 0 to hReal
        invariant memory[..] == Partial(screen, mem, src, page, x, y, width, height, i)
      {
        CopyOneRow(src, base, page, x, y, width, height, wReal, i, mem);
      }
    }

    /** One turn of the row loop; `mem` is the memory before the first. */
    method CopyOneRow(src: seq<byte>, base: nat, ghost page: nat, x: nat, y: nat, width: nat, ghost height: nat,
                      wReal: nat, i: nat, ghost mem: seq<byte>)
      requires Valid() && x < screen.xres && y < screen.yres && wReal == Min(width, screen.xres - x)
      requires base == Start(PageRow(screen, page, 0), Line(screen)) && i < Min(height, screen.yres - y)
      requires BlitFits(screen, src, Clip(screen, page, x, y, width, height), width, height)
      requires |mem| == Start(AllRows(screen), Line(screen))
      requires memory[..] == Partial(screen, mem, src, page, x, y, width, height, i)
      modifies memory
      ensures memory[..] == Partial(screen, mem, src, page, x, y, width, height, i + 1)
    {
      var loc, from, n := RowAddress(base, page, x, y, i, width, wReal);
      PartialNext(screen, mem, src, page, x, y, width, height, i, base + loc, from, n);
      CopyBytes(base + loc, src, from, n);
    }

    /**
     * blitImage.  `image` is None for a null pointer; `panned` is whether the pan ioctl succeeds.
     */
    method BlitImage(image: Option<seq<byte>>, x: nat, y: nat, width: nat, height: nat, panned: bool, junk: nat)
      returns (e: Error)
      requires Valid()
      requires x < 0x1_0000 && y < 0x1_0000 && width < 0x1_0000 && height < 0x1_0000
      requires image.Some? ==> |image.value| == Start(height, Stride(screen, width))
      modifies this`curSurface, this`yoffset, this`shown, memory
      ensures Valid()
      ensures e == Invalid <==> x >= screen.xres || y >= screen.yres || image.None?
      ensures e == Invalid ==> memory[..] == old(memory[..])
      ensures e == Invalid ==> curSurface == old(curSurface) && yoffset == old(yoffset) && shown == old(shown)
      ensures e != Invalid ==> (e == Success <==> panned)
      ensures e != Invalid ==>
        Flip(curSurface, shown, yoffset) == Next(screen, old(Flip(curSurface, shown, yoffset)), Blit(panned, junk))
      ensures e != Invalid ==>
        var page := Choose(screen, old(curSurface), old(yoffset), junk).page;
        Blitted(screen, old(memory[..]), memory[..], image.value, page, x, y, width, height)
    {
      if x >= screen.xres || y >= screen.yres || image == None {
        return Invalid;
      }
      ghost var p := Choose(screen, curSurface, yoffset, junk);
      var src := image.value;
      var wReal := if x + width > screen.xres then screen.xres - x else width;
      var hReal := if y + height > screen.yres then screen.yres - y else height;
      var cur, base := ChoosePage(junk);
      CopyImage(src, base, p.page, x, y, width, height, wReal, hReal);
      if !panned {
        return Io;
      }
      shown := yoffset;
      curSurface := cur;
      return Success;
    }
  }
}
