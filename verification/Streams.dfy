/**
 * What becomes of a stream that carries more than one message, and of a message that is too long
 * (ipc.c:133-192).
 */
module Streams {
  import opened Options
  import opened Machine
  import opened Framing

  // ---------------------------------------------------------------- too long

  /** Growing over a message that does not fit finds nothing. */
  lemma {:induction false} GrowTooLong<J>(script: seq<Arrival>, parse: seq<byte> -> Option<J>, memory: nat -> bool,
                                          size: nat, steps: nat, i: nat, got: seq<byte>, ret: int, m: seq<byte>)
    requires Proper(script) && 0 < size && i <= steps && OneMessage(parse, m)
    requires m == got + Stream(script) && |got| + Room(steps - i, size) < |m|
    requires forall k :: i <= k < steps ==> memory(k)
    requires i == steps ==> ret > 0
    ensures var r := Grow(script, parse, memory, size, steps, i, got, ret);
      r.data.None? && r.ret > 0
    decreases steps - i
  {
    if i < steps {
      FillProgress(script, parse, got, size, 0, m);
      var c := Fill(script, parse, got, size, 0);
      GrowTooLong(c.rest, parse, memory, size, steps, i + 1, c.got, c.ret, m);
    }
  }

  /**
   * However the reads cut up a stream that carries one message, that message is the answer exactly
   * if it fits into the growth steps; otherwise the answer is the empty object and -1.
   */
  lemma AnsweredIffFits<J>(script: seq<Arrival>, parse: seq<byte> -> Option<J>, memory: nat -> bool, size: nat)
    requires Proper(script) && 0 < size <= MAX_REQUEST && parse([]).None?
    requires OneMessage(parse, Stream(script)) && forall k :: 0 <= k < MAX_REQUEST / size ==> memory(k)
    ensures var a, m := Request(script, parse, memory, size), Stream(script);
      if |m| <= (MAX_REQUEST / size) * size then a.data == Parsed(parse(m).value) && a.ret > 0
      else a.data == Empty && a.ret == -1
  {
    var m := Stream(script);
    if m == [] {
      assert false;
    } else if |m| <= (MAX_REQUEST / size) * size {
      FragmentationInvariant(script, parse, memory, size);
    } else {
      assert [] + m == m;
      StepsFit(size);
      RoomIs(MAX_REQUEST / size, size);
      GrowTooLong(script, parse, memory, size, MAX_REQUEST / size, 0, [], 0, m);
    }
  }

  // ---------------------------------------------------------------- more than one message

  /** `m` is what a parser finds first that takes no notice of what follows a message. */
  ghost predicate FirstMessage<J>(parse: seq<byte> -> Option<J>, m: seq<byte>) {
    OneMessage(parse, m) && forall more: seq<byte> :: parse(m + more) == parse(m)
  }

  /** Some arrival ends d bytes into the stream. */
  ghost predicate ArrivalEnds(script: seq<Arrival>, d: nat) {
    || d == 0
    || (script != [] && script[0].Data? && |script[0].bytes| <= d && ArrivalEnds(script[1..], d - |script[0].bytes|))
  }

  /** Some growth step ends d bytes on. */
  ghost predicate StepEnds(size: nat, d: nat)
    requires size > 0
  {
    d == 0 || (size <= d && StepEnds(size, d - size))
  }

  /** One read inside a message, or over its end. */
  lemma ReadLands(script: seq<Arrival>, n: nat, d: nat)
    requires Proper(script) && n > 0 && 0 < d <= |Stream(script)|
    ensures var r := Read(script, n);
      && r.ret > 0 && |r.bytes| == r.ret
      && (r.ret >= d ==> (r.ret == d <==> ArrivalEnds(script, d) || n == d))
      && (r.ret < d ==> (ArrivalEnds(r.rest, d - r.ret) <==> ArrivalEnds(script, d)))
  {
    ReadTakes(script, n);
    var r := Read(script, n);
    if |script[0].bytes| > n {
      assert r.rest[1..] == script[1..];
    }
  }

  ghost predicate Begins(m: seq<byte>, s: seq<byte>) {
    |m| <= |s| && s[..|m|] == m
  }

  lemma BeginsOn(m: seq<byte>, got: seq<byte>, bytes: seq<byte>, rest: seq<byte>)
    requires Begins(m, got + (bytes + rest))
    ensures Begins(m, (got + bytes) + rest)
    ensures |got + bytes| < |m| ==> got + bytes == m[..|got + bytes|]
    ensures |got + bytes| >= |m| ==> got + bytes == m + (got + bytes)[|m|..]
  {
    assert (got + bytes) + rest == got + (bytes + rest);
    assert forall i :: 0 <= i < |got + bytes| && i < |m| ==> (got + bytes)[i] == m[i] by {
      assert forall i :: 0 <= i < |m| ==> ((got + bytes) + rest)[i] == m[i];
    }
  }

  /** What a fill promises about a message that begins in the buffer. */
  ghost predicate Landed<J>(script: seq<Arrival>, parse: seq<byte> -> Option<J>, got: seq<byte>, left: nat,
                            m: seq<byte>, r: Scan<J>)
    requires |got| < |m|
  {
    var d := |m| - |got|;
    && r.ret > 0 && Proper(r.rest) && Begins(m, r.got + Stream(r.rest))
    && (d <= left ==> r.data == parse(m) && |m| <= |r.got| && (|r.got| == |m| <==> ArrivalEnds(script, d) || d == left))
    && (d > left ==> r.data.None? && |r.got| == |got| + left)
    && (d > left ==> (ArrivalEnds(r.rest, d - left) <==> ArrivalEnds(script, d)))
  }

  lemma {:induction false} FillLands<J>(script: seq<Arrival>, parse: seq<byte> -> Option<J>, got: seq<byte>, left: nat,
                                        ret: int, m: seq<byte>)
    requires Proper(script) && left > 0 && FirstMessage(parse, m)
    requires |got| < |m| && Begins(m, got + Stream(script))
    ensures Landed(script, parse, got, left, m, Fill(script, parse, got, left, ret))
    decreases left
  {
    var d := |m| - |got|;
    ReadTakes(script, left);
    ReadLands(script, left, d);
    var x := Read(script, left);
    var all := got + x.bytes;
    BeginsOn(m, got, x.bytes, Stream(x.rest));
    if x.ret < d {
      assert parse(all).None?;
      if x.ret < left {
        FillLands(x.rest, parse, all, left - x.ret, x.ret, m);
      }
    } else {
      assert parse(all) == parse(m);
    }
  }

  lemma {:induction false} GrowLands<J>(script: seq<Arrival>, parse: seq<byte> -> Option<J>, memory: nat -> bool,
                                        size: nat, steps: nat, i: nat, got: seq<byte>, ret: int, m: seq<byte>)
    requires Proper(script) && 0 < size && i <= steps && FirstMessage(parse, m)
    requires |got| < |m| <= |got| + Room(steps - i, size) && Begins(m, got + Stream(script))
    requires forall k :: i <= k < steps ==> memory(k)
    ensures var r, d := Grow(script, parse, memory, size, steps, i, got, ret), |m| - |got|;
      && r.data == parse(m) && r.ret > 0 && |m| <= |r.got|
      && (|r.got| == |m| <==> ArrivalEnds(script, d) || StepEnds(size, d))
    decreases steps - i
  {
    assert i < steps;
    var d := |m| - |got|;
    FillLands(script, parse, got, size, 0, m);
    var c := Fill(script, parse, got, size, 0);
    if d > size {
      GrowLands(c.rest, parse, memory, size, steps, i + 1, c.got, c.ret, m);
    }
  }

  /**
   * A message in front of a longer stream is answered all the same.  What follows it is still to
   * come exactly if some read ends where the message ends: because an arrival does, or because a
   * growth step does.  Otherwise the bytes read behind the message go with the buffer.
   */
  lemma NextMessageKept<J>(script: seq<Arrival>, parse: seq<byte> -> Option<J>, memory: nat -> bool, size: nat,
                           m: seq<byte>)
    requires Proper(script) && 0 < size <= MAX_REQUEST && FirstMessage(parse, m) && Begins(m, Stream(script))
    requires 0 < |m| <= (MAX_REQUEST / size) * size && forall k :: 0 <= k < MAX_REQUEST / size ==> memory(k)
    ensures var a := Request(script, parse, memory, size);
      && a.data == Parsed(parse(m).value) && a.ret > 0
      && (Stream(a.rest) == Stream(script)[|m|..] <==> ArrivalEnds(script, |m|) || StepEnds(size, |m|))
  {
    Fits(|m|, size);
    GrowKeeps(script, parse, memory, size, MAX_REQUEST / size, m);
  }

  lemma Fits(n: nat, size: nat)
    requires 0 < size <= MAX_REQUEST && n <= (MAX_REQUEST / size) * size
    ensures MAX_REQUEST / size >= 1 && n <= Room(MAX_REQUEST / size, size)
  {
    StepsFit(size);
    RoomIs(MAX_REQUEST / size, size);
  }

  lemma GrowKeeps<J>(script: seq<Arrival>, parse: seq<byte> -> Option<J>, memory: nat -> bool, size: nat, steps: nat,
                     m: seq<byte>)
    requires Proper(script) && 0 < size && FirstMessage(parse, m) && Begins(m, Stream(script))
    requires 0 < |m| <= Room(steps, size) && forall k :: 0 <= k < steps ==> memory(k)
    ensures var c := Grow(script, parse, memory, size, steps, 0, [], 0);
      && c.data == parse(m) && c.ret > 0
      && (Stream(c.rest) == Stream(script)[|m|..] <==> ArrivalEnds(script, |m|) || StepEnds(size, |m|))
  {
    var c := Grow(script, parse, memory, size, steps, 0, [], 0);
    GrowLandsFirst(script, parse, memory, size, steps, m, Stream(script), c);
    GrowTakesFirst(script, parse, memory, size, steps, Stream(script), c);
    Kept(Stream(script), c.got, Stream(c.rest), |m|);
  }

  lemma GrowLandsFirst<J>(script: seq<Arrival>, parse: seq<byte> -> Option<J>, memory: nat -> bool, size: nat,
                          steps: nat, m: seq<byte>, stream: seq<byte>, c: Scan<J>)
    requires Proper(script) && 0 < size && FirstMessage(parse, m) && Begins(m, stream) && stream == Stream(script)
    requires 0 < |m| <= Room(steps, size) && forall k :: 0 <= k < steps ==> memory(k)
    requires c == Grow(script, parse, memory, size, steps, 0, [], 0)
    ensures c.data == parse(m) && c.ret > 0 && |m| <= |c.got|
    ensures |c.got| == |m| <==> ArrivalEnds(script, |m|) || StepEnds(size, |m|)
  {
    assert [] + stream == stream;
    GrowLands(script, parse, memory, size, steps, 0, [], 0, m);
  }

  lemma GrowTakesFirst<J>(script: seq<Arrival>, parse: seq<byte> -> Option<J>, memory: nat -> bool, size: nat,
                          steps: nat, stream: seq<byte>, c: Scan<J>)
    requires Proper(script) && 0 < size && stream == Stream(script)
    requires c == Grow(script, parse, memory, size, steps, 0, [], 0)
    ensures stream == c.got + Stream(c.rest)
  {
    assert [] + stream == stream;
    GrowTakes(script, parse, memory, size, steps, 0, [], 0);
  }

  lemma Kept(stream: seq<byte>, got: seq<byte>, rest: seq<byte>, n: nat)
    requires stream == got + rest && n <= |got|
    ensures rest == stream[n..] <==> |got| == n
  {
  }

  // ---------------------------------------------------------------- no message at all

  /** The stream ends properly rather than breaking. */
  ghost predicate Ends(script: seq<Arrival>) {
    script == [] || script[0].End? || (script[0].Data? && Ends(script[1..]))
  }

  /** The parser finds nothing in the bytes so far, however many more are read. */
  ghost predicate Silent<J>(parse: seq<byte> -> Option<J>, got: seq<byte>, stream: seq<byte>) {
    forall k :: 0 <= k <= |stream| ==> parse(got + stream[..k]).None?
  }

  lemma SilentOn<J>(parse: seq<byte> -> Option<J>, got: seq<byte>, bytes: seq<byte>, rest: seq<byte>)
    requires Silent(parse, got, bytes + rest)
    ensures Silent(parse, got + bytes, rest) && parse(got + bytes).None?
  {
    forall k | 0 <= k <= |rest| ensures parse((got + bytes) + rest[..k]).None? {
      assert (got + bytes) + rest[..k] == got + (bytes + rest)[..|bytes| + k];
    }
    assert (got + bytes) + rest[..0] == got + bytes;
  }

  lemma ReadEnds(script: seq<Arrival>, n: nat)
    requires Proper(script) && n > 0
    ensures var r := Read(script, n);
      && Ends(r.rest) == Ends(script)
      && (Stream(script) == [] ==> r.ret == if Ends(script) then 0 else -1)
      && (Stream(script) != [] ==> r.ret > 0)
  {
    if script != [] && script[0].Data? && |script[0].bytes| > n {
      assert Read(script, n).rest[1..] == script[1..];
    }
  }

  /** A fill that finds nothing takes what there is of the stream, and tells its end from a break. */
  ghost predicate Drained<J>(script: seq<Arrival>, got: seq<byte>, left: nat, r: Scan<J>) {
    && r.data.None? && Proper(r.rest) && Ends(r.rest) == Ends(script)
    && r.got + Stream(r.rest) == got + Stream(script)
    && (|Stream(script)| >= left ==> r.ret > 0 && |r.got| == |got| + left)
    && (|Stream(script)| < left ==> r.ret == (if Ends(script) then 0 else -1) && Stream(r.rest) == [])
  }

  lemma {:induction false} FillDrains<J>(script: seq<Arrival>, parse: seq<byte> -> Option<J>, got: seq<byte>,
                                         left: nat, ret: int)
    requires Proper(script) && left > 0 && Silent(parse, got, Stream(script))
    ensures Drained(script, got, left, Fill(script, parse, got, left, ret))
    decreases left
  {
    ReadTakes(script, left);
    ReadEnds(script, left);
    var x := Read(script, left);
    var all := got + x.bytes;
    SilentOn(parse, got, x.bytes, Stream(x.rest));
    assert all + Stream(x.rest) == got + Stream(script);
    if 0 < x.ret < left {
      FillDrains(x.rest, parse, all, left - x.ret, x.ret);
    }
  }

  /** The same for the growth steps, up to n, where memory or the steps run out. */
  lemma {:induction false} GrowDrains<J>(script: seq<Arrival>, parse: seq<byte> -> Option<J>, memory: nat -> bool,
                                         size: nat, steps: nat, i: nat, n: nat, got: seq<byte>, ret: int)
    requires Proper(script) && 0 < size && i <= n <= steps && Silent(parse, got, Stream(script))
    requires (forall k :: i <= k < n ==> memory(k)) && (n < steps ==> !memory(n)) && (i == steps ==> ret > 0)
    ensures var r := Grow(script, parse, memory, size, steps, i, got, ret);
      && r.data.None? && r.got + Stream(r.rest) == got + Stream(script)
      && (if |Stream(script)| < Room(n - i, size)
          then r.ret == (if Ends(script) then 0 else -1) && Stream(r.rest) == []
          else (r.ret == -1 || r.ret > 0) && |r.got| == |got| + Room(n - i, size))
    decreases steps - i
  {
    if i < n {
      FillDrains(script, parse, got, size, 0);
      var c := Fill(script, parse, got, size, 0);
      if c.ret > 0 {
        SilentLater(parse, got, Stream(script), c.got, Stream(c.rest));
        GrowDrains(c.rest, parse, memory, size, steps, i + 1, n, c.got, c.ret);
      }
    }
  }

  lemma SilentLater<J>(parse: seq<byte> -> Option<J>, got: seq<byte>, stream: seq<byte>, all: seq<byte>,
                       rest: seq<byte>)
    requires Silent(parse, got, stream) && all + rest == got + stream && |got| <= |all|
    ensures Silent(parse, all, rest)
  {
    var bytes := all[|got|..];
    assert all == got + bytes by { assert (all + rest)[..|got|] == got; }
    assert stream == bytes + rest by { assert (all + rest)[|got|..] == stream; }
    SilentOn(parse, got, bytes, rest);
  }

  /**
   * A stream in which the parser finds no message is answered with the empty object.  With n growth
   * steps before the first failed realloc, or all of them, the returned value is 0 exactly if the
   * peer ended the stream before the room of n steps was filled, and -1 otherwise: the stream broke,
   * or there was no room to see its end.
   */
  lemma NoMessage<J>(script: seq<Arrival>, parse: seq<byte> -> Option<J>, memory: nat -> bool, size: nat, n: nat)
    requires Proper(script) && 0 < size <= MAX_REQUEST && n <= MAX_REQUEST / size
    requires forall k :: 0 <= k <= |Stream(script)| ==> parse(Stream(script)[..k]).None?
    requires (forall k :: 0 <= k < n ==> memory(k)) && (n < MAX_REQUEST / size ==> !memory(n))
    ensures var a := Request(script, parse, memory, size);
      && a.data == Empty
      && a.ret == (if Ends(script) && |Stream(script)| < n * size then 0 else -1)
      && a.got == if |Stream(script)| < n * size then Stream(script) else Stream(script)[..n * size]
  {
    var steps, room := MAX_REQUEST / size, n * size;
    assert steps >= 1 by { StepsFit(size); }
    assert Room(n - 0, size) == room by { RoomIs(n, size); }
    assert Silent(parse, [], Stream(script)) by { SilentAtFirst(parse, Stream(script)); }
    assert [] + Stream(script) == Stream(script);
    GrowDrains(script, parse, memory, size, steps, 0, n, [], 0);
    var c := Grow(script, parse, memory, size, steps, 0, [], 0);
    Unread(Stream(script), c.got, Stream(c.rest), room);
  }

  lemma SilentAtFirst<J>(parse: seq<byte> -> Option<J>, stream: seq<byte>)
    requires forall k :: 0 <= k <= |stream| ==> parse(stream[..k]).None?
    ensures Silent(parse, [], stream)
  {
    forall k | 0 <= k <= |stream| ensures parse([] + stream[..k]).None? {
      assert [] + stream[..k] == stream[..k];
    }
  }

  lemma Unread(stream: seq<byte>, got: seq<byte>, rest: seq<byte>, room: nat)
    requires got + rest == stream && if |stream| < room then rest == [] else |got| == room
    ensures got == if |stream| < room then stream else stream[..room]
  {
  }
}
