/**
 * The clipped copy of an image into a linear framebuffer, as a function on byte sequences
 * (hwalFBSurface.cpp:304-362).
 *
 * The framebuffer is a stack of rows of `line` bytes, one page of `yres` rows per surface.
 */
module BlitGeometry {
  import opened Machine

  /** Screen size in pixels, bytes per pixel and number of surfaces. */
  datatype Screen = Screen(xres: nat, yres: nat, pixel: nat, surfaces: nat)

  /** 16 or 32 bits per pixel, at most 1920x1080 (hwalFBSurface.cpp:19-27, 94-172). */
  ghost predicate Possible(s: Screen) {
    0 < s.xres <= 1920 && 0 < s.yres <= 1080 && (s.pixel == 2 || s.pixel == 4) && s.surfaces > 0
  }

  /** line_length, taken as the width of one row of pixels. */
  function Line(s: Screen): nat {
    s.xres * s.pixel
  }

  /** Where a rectangle lies: first row and byte column, height in rows and width in bytes. */
  datatype Area = Area(top: nat, left: nat, height: nat, width: nat)

  ghost predicate Fits(a: Area, line: nat, rows: nat) {
    a.left + a.width <= line && a.top + a.height <= rows
  }

  function Min(a: int, b: int): int {
    if a < b then a else b
  }

  /** How many rows the framebuffer has. */
  function AllRows(s: Screen): nat {
    s.yres * s.surfaces
  }

  /** The row of the framebuffer that is row r of a page. */
  function PageRow(s: Screen, page: nat, r: nat): nat {
    page * s.yres + r
  }

  /** The visible part of an image placed at pixel (x, y) of a page. */
  function Clip(s: Screen, page: nat, x: nat, y: nat, width: nat, height: nat): Area
    requires x < s.xres && y < s.yres
  {
    Area(PageRow(s, page, y), x * s.pixel, Min(height, s.yres - y), Min(width, s.xres - x) * s.pixel)
  }

  /** memcpy. */
  function CopyRow(mem: seq<byte>, at: nat, row: seq<byte>): (r: seq<byte>)
    requires at + |row| <= |mem|
    ensures |r| == |mem|
  {
    mem[..at] + row + mem[at + |row|..]
  }

  /** Where row r starts: r * line, said without a product. */
  function Start(r: nat, line: nat): nat {
    if r == 0 then 0 else Start(r - 1, line) + line
  }

  lemma {:induction false} StartIs(r: nat, line: nat)
    ensures Start(r, line) == r * line
  {
    if r > 0 {
      StartIs(r - 1, line);
      assert r * line == (r - 1) * line + line;
    }
  }

  /** The source has a row of `stride` bytes for every row of the rectangle. */
  ghost predicate Supplies(src: seq<byte>, stride: nat, a: Area) {
    a.width <= stride && Start(a.height, stride) <= |src|
  }

  /** Every row copy stays inside the source and inside the framebuffer. */
  lemma RowInside(mem: seq<byte>, line: nat, rows: nat, src: seq<byte>, stride: nat, a: Area, i: nat)
    requires Fits(a, line, rows) && |mem| == Start(rows, line) && Supplies(src, stride, a) && i < a.height
    ensures Start(i, stride) + a.width <= |src|
    ensures Start(a.top + i, line) + a.left + a.width <= |mem|
  {
    RowsApart(i, a.height, stride);
    RowsApart(a.top + i, rows, line);
  }

  lemma {:induction false} RowsApart(r: nat, q: nat, line: nat)
    requires r < q
    ensures Start(r, line) + line <= Start(q, line)
    decreases q
  {
    if r < q - 1 { RowsApart(r, q - 1, line); }
  }

  /** The framebuffer after the first n row copies. */
  function Rows(mem: seq<byte>, line: nat, rows: nat, src: seq<byte>, stride: nat, a: Area, n: nat): (r: seq<byte>)
    requires Fits(a, line, rows) && |mem| == Start(rows, line) && Supplies(src, stride, a) && n <= a.height
    ensures |r| == |mem|
  {
    if n == 0 then mem
    else
      RowInside(mem, line, rows, src, stride, a, n - 1);
      CopyRow(Rows(mem, line, rows, src, stride, a, n - 1), Start(a.top + n - 1, line) + a.left,
              src[Start(n - 1, stride)..Start(n - 1, stride) + a.width])
  }

  lemma RowsNext(mem: seq<byte>, line: nat, rows: nat, src: seq<byte>, stride: nat, a: Area, n: nat, at: nat, from: nat)
    requires Fits(a, line, rows) && |mem| == Start(rows, line) && Supplies(src, stride, a) && n < a.height
    requires at == Start(a.top + n, line) + a.left && from == Start(n, stride)
    ensures at + a.width <= |mem| && from + a.width <= |src|
    ensures Rows(mem, line, rows, src, stride, a, n + 1)
         == CopyRow(Rows(mem, line, rows, src, stride, a, n), at, src[from..from + a.width])
  {
    RowInside(mem, line, rows, src, stride, a, n);
  }

  /** A byte has one row and one column. */
  lemma OnePlace(r: nat, c: nat, q: nat, d: nat, line: nat)
    requires c < line && d < line && Start(r, line) + c == Start(q, line) + d
    ensures r == q && c == d
  {
    if r < q { RowsApart(r, q, line); }
    if q < r { RowsApart(q, r, line); }
  }

  predicate Inside(a: Area, n: nat, r: nat, c: nat) {
    a.top <= r < a.top + n && a.left <= c < a.left + a.width
  }

  function SourceIndex(a: Area, stride: nat, r: nat, c: nat): int
    requires a.top <= r
  {
    Start(r - a.top, stride) + (c - a.left)
  }

  /** Which bytes belong to a stretch of n bytes in row q. */
  lemma InRow(line: nat, left: nat, n: nat, q: nat, r: nat, c: nat)
    requires c < line && left + n <= line
    ensures Start(q, line) + left <= Start(r, line) + c < Start(q, line) + left + n <==> r == q && left <= c < left + n
  {
    var k, at := Start(r, line) + c, Start(q, line) + left;
    if at <= k < at + n {
      OnePlace(r, c, q, left + (k - at), line);
    }
  }

  /** One row copy: the row is replaced and every other byte stays. */
  lemma RowPixel(mem: seq<byte>, line: nat, rows: nat, row: seq<byte>, left: nat, q: nat, r: nat, c: nat, at: nat,
                 k: nat)
    requires |mem| == Start(rows, line) && q < rows && r < rows && c < line && left + |row| <= line
    requires at == Start(q, line) + left && k == Start(r, line) + c
    ensures k < |mem| && at + |row| <= |mem|
    ensures CopyRow(mem, at, row)[k] == if r == q && left <= c < left + |row| then row[c - left] else mem[k]
  {
    RowsApart(r, rows, line);
    RowsApart(q, rows, line);
    InRow(line, left, |row|, q, r, c);
    CopiedAt(mem, at, row, k);
  }

  lemma CopiedAt(mem: seq<byte>, at: nat, row: seq<byte>, k: nat)
    requires at + |row| <= |mem| && k < |mem|
    ensures CopyRow(mem, at, row)[k] == if at <= k < at + |row| then row[k - at] else mem[k]
  {
  }

  /** What byte (r, c) holds once the first n rows of the rectangle are copied. */
  ghost predicate Painted(mem: seq<byte>, now: seq<byte>, line: nat, src: seq<byte>, stride: nat, a: Area, n: nat,
                          r: nat, c: nat) {
    var k := Start(r, line) + c;
    && k < |mem| == |now|
    && if Inside(a, n, r, c)
       then 0 <= SourceIndex(a, stride, r, c) < |src| && now[k] == src[SourceIndex(a, stride, r, c)]
       else now[k] == mem[k]
  }

  lemma PaintRow(mem: seq<byte>, before: seq<byte>, now: seq<byte>, line: nat, rows: nat, src: seq<byte>, stride: nat,
                 a: Area, n: nat, at: nat, from: nat, r: nat, c: nat)
    requires Fits(a, line, rows) && Supplies(src, stride, a) && n < a.height && r < rows && c < line
    requires |mem| == |before| == Start(rows, line)
    requires at == Start(a.top + n, line) + a.left && from == Start(n, stride)
    requires at + a.width <= |mem| && from + a.width <= |src|
    requires now == CopyRow(before, at, src[from..from + a.width])
    requires Painted(mem, before, line, src, stride, a, n, r, c)
    ensures Painted(mem, now, line, src, stride, a, n + 1, r, c)
  {
    RowPixel(before, line, rows, src[from..from + a.width], a.left, a.top + n, r, c, at, Start(r, line) + c);
  }

  /**
   * After n row copies, the bytes of the first n rows of the rectangle are the matching source
   * bytes and every other byte of the framebuffer is what it was.
   */
  lemma {:induction false} RowsPixel(mem: seq<byte>, line: nat, rows: nat, src: seq<byte>, stride: nat, a: Area, n: nat,
                                     r: nat, c: nat)
    requires Fits(a, line, rows) && |mem| == Start(rows, line) && Supplies(src, stride, a) && n <= a.height
    requires r < rows && c < line
    ensures Painted(mem, Rows(mem, line, rows, src, stride, a, n), line, src, stride, a, n, r, c)
  {
    if n == 0 {
      RowsApart(r, rows, line);
    } else {
      RowsPixel(mem, line, rows, src, stride, a, n - 1, r, c);
      var before := Rows(mem, line, rows, src, stride, a, n - 1);
      var at, from := Start(a.top + n - 1, line) + a.left, Start(n - 1, stride);
      RowsNext(mem, line, rows, src, stride, a, n - 1, at, from);
      PaintRow(mem, before, CopyRow(before, at, src[from..from + a.width]), line, rows, src, stride, a, n - 1, at,
               from, r, c);
    }
  }
}
