/** The two nested reading loops over a growing buffer (ipc.c:91-102, 133-192). */
module RequestReader {
  import opened Options
  import opened Machine
  import opened Framing

  class Socket {
    var script: seq<Arrival>

    constructor (script: seq<Arrival>)
      ensures this.script == script
    {
      this.script := script;
    }

    /** socket_read: writes what arrives at `pos`, and nothing else. */
    method ReadInto(buffer: array<byte>, pos: nat, n: nat) returns (ret: int)
      requires n > 0 && pos + n <= buffer.Length && Proper(script)
      modifies this, buffer
      ensures var r := Read(old(script), n);
        && ret == r.ret && script == r.rest && Proper(script)
        && |r.bytes| <= n && (ret >= 0 ==> ret == |r.bytes|)
        && buffer[..pos + |r.bytes|] == old(buffer[..pos]) + r.bytes
        && buffer[pos + |r.bytes|..] == old(buffer[..])[pos + |r.bytes|..]
    {
      ReadTakes(script, n);
      var r := Read(script, n);
      Store(buffer, pos, r.bytes);
      script := r.rest;
      ret := r.ret;
    }
  }

  /** What read() does to the buffer. */
  method Store(buffer: array<byte>, pos: nat, bytes: seq<byte>)
    requires pos + |bytes| <= buffer.Length
    modifies buffer
    ensures buffer[..pos + |bytes|] == old(buffer[..pos]) + bytes
    ensures buffer[pos + |bytes|..] == old(buffer[..])[pos + |bytes|..]
  {
    ghost var before := buffer[..];
    forall i | 0 <= i < |bytes| {
      buffer[pos + i] := bytes[i];
    }
    assert forall i :: 0 <= i < pos ==> buffer[i] == before[i];
  }

  /** read_and_check_complete. */
  method ReadAndCheckComplete<J>(sock: Socket, buffer: array<byte>, pos: nat, len: nat, parse: seq<byte> -> Option<J>)
    returns (ret: int, data: Option<J>, ghost got: nat)
    requires len > 0 && pos + len <= buffer.Length && Proper(sock.script)
    modifies sock, buffer
    ensures got <= buffer.Length && Proper(sock.script)
    ensures Fill(old(sock.script), parse, old(buffer[..pos]), len, 0) == Scan(ret, data, buffer[..got], sock.script)
  {
    ghost var goal := Fill(sock.script, parse, buffer[..pos], len, 0);
    ret, data := 0, None;
    var left: nat, now: nat := len, pos;
    while left > 0
      invariant Proper(sock.script) && pos <= now && now + left == pos + len
      invariant data == None
      invariant goal == Fill(sock.script, parse, buffer[..now], left, ret)
      decreases left
    {
      ghost var r := Read(sock.script, left);
      ret := sock.ReadInto(buffer, now, left);
      if ret < 0 {
        got := now;
        assert buffer[..now + 0] == buffer[..now];
        return;
      }
      data := parse(buffer[..now + ret]);
      if data != None || ret == 0 {
        got := now + ret;
        return;
      }
      left := left - ret;
      now := now + ret;
    }
    got := now;
  }

  /** realloc, then memset of the new part. */
  method Enlarge(buffer: array<byte>, size: nat) returns (r: array<byte>)
    ensures fresh(r) && r.Length == buffer.Length + size
    ensures r[..buffer.Length] == buffer[..]
    ensures forall i :: buffer.Length <= i < r.Length ==> r[i] == 0
  {
    r := new byte[buffer.Length + size](i => 0);
    forall i | 0 <= i < buffer.Length {
      r[i] := buffer[i];
    }
  }

  /** read_request.  `memory` tells which realloc succeeds. */
  method ReadRequest<J>(sock: Socket, parse: seq<byte> -> Option<J>, memory: nat -> bool, size: nat)
    returns (ret: int, data: Message<J>)
    requires 0 < size <= MAX_REQUEST && Proper(sock.script)
    modifies sock
    ensures var a := Request(old(sock.script), parse, memory, size);
      ret == a.ret && data == a.data && sock.script == a.rest
    ensures data.Parsed? ==> exists m :: m <= Stream(old(sock.script)) && parse(m) == Some(data.value)
    ensures parse([]).None? ==> (ret > 0 <==> data.Parsed?)
  {
    RequestSound(sock.script, parse, memory, size);
    var steps := MAX_REQUEST / size;
    StepsFit(size);
    ghost var goal := Grow(sock.script, parse, memory, size, steps, 0, [], 0);
    var buffer := new byte[0];
    var found: Option<J> := None;
    ret := 0;
    var i := 0;
    ghost var got := 0;
    while i < steps
      invariant i <= steps && Proper(sock.script) && fresh(buffer)
      invariant found == None && got == buffer.Length
      invariant goal == Grow(sock.script, parse, memory, size, steps, i, buffer[..], ret)
    {
      if !memory(i) {
        ret := -1;
        break;
      }
      var oldSize := buffer.Length;
      ghost var before := buffer[..];
      buffer := Enlarge(buffer, size);
      assert buffer[..oldSize] == before;
      ghost var script := sock.script;
      ret, found, got := ReadAndCheckComplete(sock, buffer, oldSize, size, parse);
      if found != None || ret <= 0 {
        break;
      }
      FillTakes(script, parse, before, size, 0);
      assert buffer[..got] == buffer[..];
      i := i + 1;
    }
    if found == None {
      data := Empty;
      if ret > 0 {
        ret := -1;
      }
    } else {
      data := Parsed(found.value);
    }
  }
}
