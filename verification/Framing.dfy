/**
 * Reading one JSON message from a stream socket into a growing buffer (ipc.c:133-192).
 *
 * The JSON parser is any function from the bytes read so far to a message or nothing.
 */
module Framing {
  import opened Options
  import opened Machine

  /** What the socket delivers next.  A socket with nothing left is at its end. */
  datatype Arrival = Data(bytes: seq<byte>) | End | Broken

  /** MAX_REQUEST_BUFFER_SIZE. */
  const MAX_REQUEST := 1024 * 1024 * 3

  /** A read that succeeds delivers at least one byte. */
  ghost predicate Proper(script: seq<Arrival>) {
    forall i :: 0 <= i < |script| && script[i].Data? ==> |script[i].bytes| > 0
  }

  /** The bytes to come before the stream ends or breaks. */
  ghost function Stream(script: seq<Arrival>): seq<byte> {
    if script == [] || !script[0].Data? then [] else script[0].bytes + Stream(script[1..])
  }

  datatype Received = Received(ret: int, bytes: seq<byte>, rest: seq<Arrival>)

  /** One read of at most n bytes. */
  function Read(script: seq<Arrival>, n: nat): (r: Received)
    requires n > 0
    ensures r.ret <= n
  {
    if script == [] || script[0].End? then Received(0, [], script)
    else if script[0].Broken? then Received(-1, [], script)
    else
      var all := script[0].bytes;
      if |all| <= n then Received(|all|, all, script[1..])
      else Received(n, all[..n], [Data(all[n..])] + script[1..])
  }

  lemma ReadTakes(script: seq<Arrival>, n: nat)
    requires n > 0 && Proper(script)
    ensures var r := Read(script, n);
      && Proper(r.rest) && r.ret <= n
      && Stream(script) == r.bytes + Stream(r.rest)
      && (r.ret > 0 ==> |r.bytes| == r.ret)
      && (r.ret <= 0 ==> r.bytes == [] && Stream(script) == [] && r.rest == script)
  {
    var r := Read(script, n);
    if r.ret > 0 && |script[0].bytes| > n {
      assert r.rest[1..] == script[1..];
      assert script[0].bytes == r.bytes + r.rest[0].bytes;
    }
  }

  // ---------------------------------------------------------------- the two nested loops

  datatype Scan<J> = Scan(ret: int, data: Option<J>, got: seq<byte>, rest: seq<Arrival>)

  /** read_and_check_complete: fills `left` more bytes of the buffer, parsing after every read. */
  function Fill<J>(script: seq<Arrival>, parse: seq<byte> -> Option<J>, got: seq<byte>, left: nat, ret: int)
    : (r: Scan<J>)
    decreases left
  {
    if left == 0 then Scan(ret, None, got, script)
    else
      var x := Read(script, left);
      if x.ret < 0 then Scan(x.ret, None, got, x.rest)
      else
        var all := got + x.bytes;
        if parse(all).Some? || x.ret == 0 then Scan(x.ret, parse(all), all, x.rest)
        else Fill(x.rest, parse, all, left - x.ret, x.ret)
  }

  /** The growth steps of read_request from step i on; `memory` tells which realloc succeeds. */
  function Grow<J>(script: seq<Arrival>, parse: seq<byte> -> Option<J>, memory: nat -> bool, size: nat, steps: nat,
                   i: nat, got: seq<byte>, ret: int): (r: Scan<J>)
    requires i <= steps
    decreases steps - i
  {
    if i == steps then Scan(ret, None, got, script)
    else if !memory(i) then Scan(-1, None, got, script)
    else
      var c := Fill(script, parse, got, size, 0);
      if c.data.Some? || c.ret <= 0 then c
      else Grow(c.rest, parse, memory, size, steps, i + 1, c.got, c.ret)
  }

  /** What read_request hands out: a parsed message, or the empty object it makes up. */
  datatype Message<J> = Parsed(value: J) | Empty

  datatype Answer<J> = Answer(ret: int, data: Message<J>, got: seq<byte>, rest: seq<Arrival>)

  /** read_request; `size` is the socket's receive buffer size. */
  function Request<J>(script: seq<Arrival>, parse: seq<byte> -> Option<J>, memory: nat -> bool, size: nat)
    : (r: Answer<J>)
    requires 0 < size <= MAX_REQUEST
  {
    var s := Grow(script, parse, memory, size, MAX_REQUEST / size, 0, [], 0);
    match s.data
    case Some(j) => Answer(s.ret, Parsed(j), s.got, s.rest)
    case None => Answer(if s.ret > 0 then -1 else s.ret, Empty, s.got, s.rest)
  }

  // ---------------------------------------------------------------- the buffer holds the stream

  /** What has been read is a piece of the stream, in order, and the rest is still to come. */
  ghost predicate Took(script: seq<Arrival>, got: seq<byte>, all: seq<byte>, rest: seq<Arrival>) {
    Proper(rest) && got + Stream(script) == all + Stream(rest) && got <= all
  }

  /** What a fill promises. */
  ghost predicate Filled<J>(script: seq<Arrival>, parse: seq<byte> -> Option<J>, got: seq<byte>, left: nat,
                            r: Scan<J>) {
    && Took(script, got, r.got, r.rest)
    && |r.got| <= |got| + left
    && (r.data.Some? ==> parse(r.got) == r.data)
    && (r.data.None? && r.ret > 0 ==> |r.got| == |got| + left)
    && (r.ret <= 0 ==> Stream(r.rest) == [])
    && (r.ret == 0 && parse(got).None? ==> r.data.None?)
    && (r.data.Some? ==> r.ret >= 0)
  }

  /** A fill that goes on after a read that completed nothing. */
  lemma FilledOn<J>(script: seq<Arrival>, parse: seq<byte> -> Option<J>, got: seq<byte>, left: nat,
                    bytes: seq<byte>, rest: seq<Arrival>, r: Scan<J>)
    requires Stream(script) == bytes + Stream(rest) && |bytes| <= left && parse(got + bytes).None?
    requires Filled(rest, parse, got + bytes, left - |bytes|, r)
    ensures Filled(script, parse, got, left, r)
  {
    assert (got + bytes) + Stream(rest) == got + Stream(script);
  }

  /** A fill that one read ends. */
  lemma FilledAtOnce<J>(script: seq<Arrival>, parse: seq<byte> -> Option<J>, got: seq<byte>, left: nat, all: seq<byte>,
                        x: Received, r: Scan<J>)
    requires Proper(script) && left > 0 && x == Read(script, left) && all == got + x.bytes
    requires x.ret <= 0 || parse(all).Some? || x.ret == left
    requires r == if x.ret < 0 then Scan(x.ret, None, got, x.rest) else Scan(x.ret, parse(all), all, x.rest)
    ensures Filled(script, parse, got, left, r)
  {
    ReadTakes(script, left);
    assert all + Stream(x.rest) == got + Stream(script);
    if x.ret <= 0 {
      assert all == got;
    }
  }

  lemma {:induction false} FillTakes<J>(script: seq<Arrival>, parse: seq<byte> -> Option<J>, got: seq<byte>,
                                        left: nat, ret: int)
    requires Proper(script) && left > 0
    ensures Filled(script, parse, got, left, Fill(script, parse, got, left, ret))
    decreases left
  {
    ReadTakes(script, left);
    var x := Read(script, left);
    var all := got + x.bytes;
    if x.ret > 0 && parse(all).None? && left > x.ret {
      FillTakes(x.rest, parse, all, left - x.ret, x.ret);
      FilledOn(script, parse, got, left, x.bytes, x.rest, Fill(x.rest, parse, all, left - x.ret, x.ret));
    } else {
      FilledAtOnce(script, parse, got, left, all, x, Fill(script, parse, got, left, ret));
    }
  }

  lemma {:induction false} GrowTakes<J>(script: seq<Arrival>, parse: seq<byte> -> Option<J>, memory: nat -> bool,
                                        size: nat, steps: nat, i: nat, got: seq<byte>, ret: int)
    requires Proper(script) && 0 < size && i <= steps
    ensures var r := Grow(script, parse, memory, size, steps, i, got, ret);
      && Took(script, got, r.got, r.rest)
      && (r.data.Some? ==> parse(r.got) == r.data && r.ret >= 0)
      && (r.data.Some? && parse(got).None? ==> r.ret > 0)
      && (i < steps && r.ret == 0 ==> Stream(r.rest) == [])
    decreases steps - i
  {
    if i < steps && memory(i) {
      FillTakes(script, parse, got, size, 0);
      var c := Fill(script, parse, got, size, 0);
      if !(c.data.Some? || c.ret <= 0) {
        FillFailed(script, parse, got, size, 0);
        GrowTakes(c.rest, parse, memory, size, steps, i + 1, c.got, c.ret);
      }
    }
  }

  /** What the buffer grows by in n steps. */
  ghost function Room(n: nat, size: nat): nat {
    if n == 0 then 0 else size + Room(n - 1, size)
  }

  lemma {:induction false} RoomIs(n: nat, size: nat)
    ensures Room(n, size) == n * size
  {
    if n > 0 {
      RoomIs(n - 1, size);
      assert n * size == (n - 1) * size + size;
    }
  }

  lemma {:induction false} GrowBounded<J>(script: seq<Arrival>, parse: seq<byte> -> Option<J>, memory: nat -> bool,
                                          size: nat, steps: nat, i: nat, got: seq<byte>, ret: int)
    requires Proper(script) && 0 < size && i <= steps
    ensures |Grow(script, parse, memory, size, steps, i, got, ret).got| <= |got| + Room(steps - i, size)
    decreases steps - i
  {
    if i < steps {
      if memory(i) {
        FillTakes(script, parse, got, size, 0);
        var c := Fill(script, parse, got, size, 0);
        if !(c.data.Some? || c.ret <= 0) {
          GrowBounded(c.rest, parse, memory, size, steps, i + 1, c.got, c.ret);
        }
      }
    }
  }

  /** A fill that ends without a message has parsed everything it read, to no avail. */
  lemma {:induction false} FillFailed<J>(script: seq<Arrival>, parse: seq<byte> -> Option<J>, got: seq<byte>,
                                         left: nat, ret: int)
    requires Proper(script) && left > 0
    ensures var r := Fill(script, parse, got, left, ret);
      r.data.None? && r.ret > 0 ==> parse(r.got).None?
    decreases left
  {
    var x := Read(script, left);
    ReadTakes(script, left);
    if x.ret >= 0 {
      var all := got + x.bytes;
      if !(parse(all).Some? || x.ret == 0) && left > x.ret {
        FillFailed(x.rest, parse, all, left - x.ret, x.ret);
      }
    }
  }

  lemma StepsFit(size: nat)
    requires 0 < size <= MAX_REQUEST
    ensures MAX_REQUEST / size >= 1 && (MAX_REQUEST / size) * size <= MAX_REQUEST
  {
  }

  /**
   * The answer is a message or the empty object; the bytes read are the stream's first bytes, at
   * most 3 MiB of them; and the returned value is positive exactly for a parsed message, as long
   * as the parser finds nothing in no bytes.
   */
  lemma RequestSound<J>(script: seq<Arrival>, parse: seq<byte> -> Option<J>, memory: nat -> bool, size: nat)
    requires Proper(script) && 0 < size <= MAX_REQUEST
    ensures var a := Request(script, parse, memory, size);
      && Stream(script) == a.got + Stream(a.rest) && Proper(a.rest)
      && |a.got| <= MAX_REQUEST
      && (a.data.Parsed? ==> parse(a.got) == Some(a.data.value))
      && (parse([]).None? ==> (a.ret > 0 <==> a.data.Parsed?))
      && (a.ret == 0 ==> Stream(a.rest) == [])
  {
    StepsFit(size);
    GrowTakes(script, parse, memory, size, MAX_REQUEST / size, 0, [], 0);
    GrowBounded(script, parse, memory, size, MAX_REQUEST / size, 0, [], 0);
    RoomIs(MAX_REQUEST / size, size);
    assert [] + Stream(script) == Stream(script);
  }

  /**
   * The premise on empty input is exact: without it, a peer that closes at once is answered with
   * a message and the return value 0.
   */
  lemma PositiveIffParsed<J>(parse: seq<byte> -> Option<J>)
    ensures parse([]).None? <==>
      forall script, memory: nat -> bool, size: nat | Proper(script) && 0 < size <= MAX_REQUEST ::
        (Request(script, parse, memory, size).ret > 0 <==> Request(script, parse, memory, size).data.Parsed?)
  {
    if parse([]).None? {
      forall script, memory: nat -> bool, size: nat | Proper(script) && 0 < size <= MAX_REQUEST
        ensures Request(script, parse, memory, size).ret > 0 <==> Request(script, parse, memory, size).data.Parsed?
      {
        RequestSound(script, parse, memory, size);
      }
    } else {
      var memory := (i: nat) => true;
      var a := Request([], parse, memory, MAX_REQUEST);
      assert Proper([]);
      assert [] + Read([], MAX_REQUEST).bytes == [];
      assert a.data.Parsed? && a.ret == 0;
    }
  }

  // ---------------------------------------------------------------- fragmentation does not matter

  /** `m` is a message none of whose proper prefixes is one. */
  ghost predicate OneMessage<J>(parse: seq<byte> -> Option<J>, m: seq<byte>) {
    parse(m).Some? && forall k :: 0 <= k < |m| ==> parse(m[..k]).None?
  }

  /** Filling either completes the message or reads on inside it. */
  lemma {:induction false} FillProgress<J>(script: seq<Arrival>, parse: seq<byte> -> Option<J>, got: seq<byte>,
                                           left: nat, ret: int, m: seq<byte>)
    requires Proper(script) && left > 0 && OneMessage(parse, m)
    requires m == got + Stream(script) && |got| < |m|
    ensures var r := Fill(script, parse, got, left, ret);
      && r.ret > 0 && Proper(r.rest) && m == r.got + Stream(r.rest)
      && (if |m| <= |got| + left then r.data == parse(m) && r.got == m
          else r.data.None? && |r.got| == |got| + left)
    decreases left
  {
    ReadTakes(script, left);
    var x := Read(script, left);
    var all := got + x.bytes;
    assert Stream(script) != [];
    assert all + Stream(x.rest) == m;
    if |all| < |m| {
      assert all == m[..|all|];
      if left > x.ret { FillProgress(x.rest, parse, all, left - x.ret, x.ret, m); }
    } else {
      assert all == m;
    }
  }

  lemma {:induction false} GrowProgress<J>(script: seq<Arrival>, parse: seq<byte> -> Option<J>, memory: nat -> bool,
                                           size: nat, steps: nat, i: nat, got: seq<byte>, ret: int, m: seq<byte>)
    requires Proper(script) && 0 < size && i <= steps && OneMessage(parse, m)
    requires m == got + Stream(script) && |got| < |m| <= |got| + Room(steps - i, size)
    requires forall k :: i <= k < steps ==> memory(k)
    ensures var r := Grow(script, parse, memory, size, steps, i, got, ret);
      r.data == parse(m) && r.ret > 0 && r.got == m
    decreases steps - i
  {
    assert i < steps;
    FillProgress(script, parse, got, size, 0, m);
    var c := Fill(script, parse, got, size, 0);
    if c.data.None? {
      GrowProgress(c.rest, parse, memory, size, steps, i + 1, c.got, c.ret, m);
    }
  }

  /**
   * However the reads cut up a stream that carries one message of at most the size limit, and
   * whatever the growth step, the answer is that message.
   */
  lemma FragmentationInvariant<J>(script: seq<Arrival>, parse: seq<byte> -> Option<J>, memory: nat -> bool, size: nat)
    requires Proper(script) && 0 < size <= MAX_REQUEST
    requires OneMessage(parse, Stream(script)) && 0 < |Stream(script)| <= (MAX_REQUEST / size) * size
    requires forall k :: 0 <= k < MAX_REQUEST / size ==> memory(k)
    ensures var a := Request(script, parse, memory, size);
      a.data == Parsed(parse(Stream(script)).value) && a.ret > 0 && a.got == Stream(script)
  {
    assert [] + Stream(script) == Stream(script);
    RoomIs(MAX_REQUEST / size, size);
    GrowProgress(script, parse, memory, size, MAX_REQUEST / size, 0, [], 0, Stream(script));
  }
}
