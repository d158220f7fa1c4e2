/**
 * The loops behind the "get modes" reply: the server's, which add one member at a time, and the
 * client's, which build and free linked lists (compositor-drm-help.c:148-201, 459-473;
 * drm-help-client.c:142-190, 248-266).
 */
module ModesLists {
  import opened Options
  import opened Json
  import opened ModesReply

  // ---------------------------------------------------------------- the server's loops

  lemma {:induction false} AddAllLast(m: Members, pairs: Members, x: (string, Json))
    ensures AddAll(m, pairs + [x]) == Add(AddAll(m, pairs), x.0, x.1)
    decreases pairs
  {
    if pairs == [] {
      assert ([x])[1..] == [];
      assert pairs + [x] == [x];
    } else {
      assert (pairs + [x])[1..] == pairs[1..] + [x];
      AddAllLast(Add(m, pairs[0].0, pairs[0].1), pairs[1..], x);
    }
  }

  /** One of the element loops of dumpConnectorInfo. */
  method DumpElements(values: seq<Json>) returns (members: Members)
    ensures members == AddAll([], Numbered(values))
  {
    members := [];
    for i := 0 to |values|
      invariant members == AddAll([], Numbered(values)[..i])
    {
      members := Add(members, ElementKey(i), values[i]);
      AddAllLast([], Numbered(values)[..i], Numbered(values)[i]);
      assert Numbered(values)[..i + 1] == Numbered(values)[..i] + [Numbered(values)[i]];
    }
    assert Numbered(values)[..|values|] == Numbered(values);
  }

  /** The loop of "get modes" over the connector list. */
  method GetModes(cs: seq<Option<ConnectorInfo>>) returns (reply: Members)
    ensures reply == Reply(cs)
  {
    reply := [];
    var i := 0;
    while i < |cs|
      invariant i <= |cs|
      invariant AddAll([], Listed(cs)) == AddAll(reply, Listed(cs[i..]))
    {
      ghost var rest := cs[i..];
      assert rest[0] == cs[i] && rest[1..] == cs[i + 1..];
      if cs[i] != None {
        ghost var x := (ConnectorKey(cs[i].value.id), DumpConnector(cs[i].value));
        assert Listed(rest) == [x] + Listed(rest[1..]);
        assert Listed(rest)[1..] == Listed(rest[1..]);
        reply := Add(reply, ConnectorKey(cs[i].value.id), DumpConnector(cs[i].value));
      } else {
        assert Listed(rest) == Listed(rest[1..]);
      }
      i := i + 1;
    }
  }

  // ---------------------------------------------------------------- the client's lists

  /** drm_output_mode_list.  `live` is the allocator's view. */
  class ModeNode {
    var mode: OutputMode
    var next: ModeNode?
    var live: bool

    constructor ()
      ensures next == null && live
    {
      mode, next, live := OutputMode("", 0, 0, 0), null, true;
    }
  }

  ghost predicate ModeChain(first: ModeNode?, nodes: seq<ModeNode>)
    reads nodes
  {
    && (first == null <==> nodes == [])
    && (nodes != [] ==> first == nodes[0] && nodes[|nodes| - 1].next == null)
    && (forall i {:trigger nodes[i].next} :: 0 <= i < |nodes| - 1 ==> nodes[i].next == nodes[i + 1])
    && (forall i, j :: 0 <= i < j < |nodes| ==> nodes[i] != nodes[j])
    && (forall i :: 0 <= i < |nodes| ==> nodes[i].live)
  }

  ghost function Modes(nodes: seq<ModeNode>): (r: seq<OutputMode>)
    reads nodes
    ensures |r| == |nodes| && forall i :: 0 <= i < |r| ==> r[i] == nodes[i].mode
  {
    seq(|nodes|, i requires 0 <= i < |nodes| reads nodes => nodes[i].mode)
  }

  /** The modes of a chain of owned nodes.  (An Option, so that a proof that only carries it need not open it.) */
  ghost function Chained(first: ModeNode?, nodes: seq<ModeNode>, owned: set<ModeNode>): Option<seq<OutputMode>>
    reads owned
  {
    if (forall i :: 0 <= i < |nodes| ==> nodes[i] in owned) && ModeChain(first, nodes) then Some(Modes(nodes)) else None
  }

  /** The last node of a chain under construction; none when the chain is empty. */
  ghost predicate IsLast(last: ModeNode?, nodes: seq<ModeNode>) {
    if nodes == [] then last == null else last == nodes[|nodes| - 1]
  }

  /** `*curr_mode = node`. */
  method LinkMode(first: ModeNode?, last: ModeNode?, node: ModeNode, ghost nodes: seq<ModeNode>)
    returns (start: ModeNode)
    requires ModeChain(first, nodes) && IsLast(last, nodes)
    requires node !in nodes && node.next == null && node.live
    modifies if last == null then {} else {last}
    ensures ModeChain(start, nodes + [node]) && Modes(nodes) == old(Modes(nodes))
  {
    if last == null {
      start := node;
    } else {
      start := first;
      last.next := node;
    }
  }

  /** `*curr_mode = NULL`. */
  method UnlinkMode(first: ModeNode, last: ModeNode?, ghost node: ModeNode, ghost nodes: seq<ModeNode>)
    returns (start: ModeNode?)
    requires IsLast(last, nodes) && node !in nodes
    requires |nodes| > 0 ==> first == nodes[0]
    requires forall i {:trigger nodes[i].next} :: 0 <= i < |nodes| - 1 ==> nodes[i].next == nodes[i + 1]
    requires forall i, j :: 0 <= i < j < |nodes| ==> nodes[i] != nodes[j]
    requires forall i :: 0 <= i < |nodes| ==> nodes[i].live
    modifies if last == null then {} else {last}
    ensures ModeChain(start, nodes) && Modes(nodes) == old(Modes(nodes))
  {
    if last == null {
      start := null;
    } else {
      start := first;
      last.next := null;
    }
  }

  /**
   * The inner loop of dump_modes.  The place the next node goes to is `first`, or the `next` of
   * the last node.  A node that cannot be filled is freed and its place cleared.
   */
  method ReadModes(m: Members, text: Json -> string)
    returns (first: ModeNode?, ghost nodes: seq<ModeNode>, ghost owned: set<ModeNode>)
    ensures Chained(first, nodes, owned) == Some(DecodeModes(m, text)) && fresh(owned)
  {
    ghost var full := DecodeModes(m, text);
    ModesShape(m, text);
    first, nodes, owned := ReadModesLoop(m, text, full);
  }

  ghost predicate ModeAt(m: Members, full: seq<OutputMode>, text: Json -> string, k: nat)
    requires k < |full| <= |m|
  {
    DecodeMode(m[k].1, text) == Some(full[k])
  }

  /** Mode by mode, up to the first element that holds none. */
  ghost predicate Modewise(m: Members, full: seq<OutputMode>, text: Json -> string) {
    && |full| <= |m|
    && (forall k :: 0 <= k < |full| ==> ModeAt(m, full, text, k))
    && (|full| < |m| ==> DecodeMode(m[|full|].1, text) == None)
  }

  lemma ModewiseMore(m: Members, more: Members, rest: seq<OutputMode>, full: seq<OutputMode>, text: Json -> string)
    requires m != [] && DecodeMode(m[0].1, text).Some? && more == m[1..] && Modewise(more, rest, text)
    requires full == [DecodeMode(m[0].1, text).value] + rest
    ensures Modewise(m, full, text)
  {
    forall k | 0 <= k < |full| ensures ModeAt(m, full, text, k) {
      if k > 0 { assert ModeAt(more, rest, text, k - 1); }
    }
  }

  lemma {:induction false} ModesShape(m: Members, text: Json -> string)
    ensures Modewise(m, DecodeModes(m, text), text)
  {
    if m != [] && DecodeMode(m[0].1, text).Some? {
      ModesShape(m[1..], text);
      ModewiseMore(m, m[1..], DecodeModes(m[1..], text), DecodeModes(m, text), text);
    }
  }

  method ReadModesLoop(m: Members, text: Json -> string, ghost full: seq<OutputMode>)
    returns (first: ModeNode?, ghost nodes: seq<ModeNode>, ghost owned: set<ModeNode>)
    requires Modewise(m, full, text)
    ensures Chained(first, nodes, owned) == Some(full) && fresh(owned)
  {
    first, nodes, owned := null, [], {};
    var last: ModeNode? := null;
    var i := 0;
    EmptyChain();
    TakeNone(full);
    while i < |m|
      invariant i <= |full| && IsLast(last, nodes) && fresh(owned)
      invariant Chained(first, nodes, owned) == Some(full[..i])
      decreases |m| - i
    {
      var mode := DecodeMode(m[i].1, text);
      assert i < |full| ==> ModeAt(m, full, text, i);
      if i < |full| { Snoc(full, i); } else { TakeAll(full, i); }
      var done;
      first, last, done, nodes, owned := ReadOneMode(mode, first, last, nodes, owned, full[..i]);
      if done {
        return;
      }
      i := i + 1;
    }
    TakeAll(full, i);
  }

  lemma EmptyChain()
    ensures Chained(null, [], {}) == Some([])
  {
    assert Modes([]) == [];
  }

  lemma TakeNone<T>(s: seq<T>)
    ensures s[..0] == []
  {
  }

  lemma TakeAll<T>(s: seq<T>, i: nat)
    requires i == |s|
    ensures s[..i] == s
  {
  }

  lemma Snoc<T>(s: seq<T>, i: nat)
    requires i < |s|
    ensures s[..i] + [s[i]] == s[..i + 1]
  {
  }

  /** The loop body, for what the element holds. */
  method ReadOneMode(mode: Option<OutputMode>, before: ModeNode?, lastBefore: ModeNode?,
                     ghost nodesBefore: seq<ModeNode>, ghost ownedBefore: set<ModeNode>, ghost read: seq<OutputMode>)
    returns (first: ModeNode?, last: ModeNode?, done: bool, ghost nodes: seq<ModeNode>, ghost owned: set<ModeNode>)
    requires Chained(before, nodesBefore, ownedBefore) == Some(read) && IsLast(lastBefore, nodesBefore)
    modifies ownedBefore
    ensures IsLast(last, nodes) && fresh(owned - ownedBefore)
    ensures done <==> mode.None?
    ensures Chained(first, nodes, owned) == Some(if mode.Some? then read + [mode.value] else read)
  {
    var node := new ModeNode();
    first := LinkMode(before, lastBefore, node, nodesBefore);
    if mode == None {
      node.live := false;
      assert forall i :: 0 <= i < |nodesBefore| ==> (nodesBefore + [node])[i] == nodesBefore[i];
      first := UnlinkMode(first, lastBefore, node, nodesBefore);
      last, done, nodes, owned := lastBefore, true, nodesBefore, ownedBefore;
      assert Modes(nodes) == read;
    } else {
      node.mode := mode.value;
      last, done, nodes, owned := node, false, nodesBefore + [node], ownedBefore + {node};
      assert Modes(nodes) == read + [mode.value];
    }
  }

  /** drm_connection_list; `info` holds its numbers, with no modes. */
  class ConnectionNode {
    var info: Connection
    var modes: ModeNode?
    var next: ConnectionNode?
    ghost var position: nat
    ghost var modeNodes: seq<ModeNode>
    ghost var owned: set<ModeNode>

    constructor ()
      ensures modes == null && next == null && modeNodes == [] && owned == {}
    {
      info, modes, next := Connection(0, 0, 0, 0, 0, 0, 0, []), null, null;
      modeNodes, owned := [], {};
    }

    /** The connection the node and its mode list stand for; None if the list is not in order. */
    ghost function Shown(): Option<Connection>
      reads `info, `modes, `modeNodes, `owned, owned
    {
      var shown := Chained(modes, modeNodes, owned);
      if shown.Some? then Some(info.(modes := shown.value)) else None
    }

    /** Takes over the numbers and reads the mode list, if there is one. */
    method Fill(numbers: Connection, list: Option<Json>, text: Json -> string)
      requires numbers.modes == []
      modifies `info, `modes, `modeNodes, `owned
      ensures Shown() == Some(numbers.(modes := if list.Some? then DecodeModes(MembersOf(list.value), text) else []))
      ensures fresh(owned)
    {
      var first: ModeNode? := null;
      ghost var nodes: seq<ModeNode>, all: set<ModeNode> := [], {};
      if list != None {
        first, nodes, all := ReadModes(MembersOf(list.value), text);
      }
      Adopt(numbers, first, nodes, all, if list.Some? then DecodeModes(MembersOf(list.value), text) else []);
    }

    method Adopt(numbers: Connection, first: ModeNode?, ghost nodes: seq<ModeNode>,
                 ghost all: set<ModeNode>, ghost read: seq<OutputMode>)
      requires Chained(first, nodes, all) == Some(read) && numbers.modes == []
      modifies `info, `modes, `modeNodes, `owned
      ensures Shown() == Some(numbers.(modes := read)) && owned == all
    {
      info, modes := numbers, first;
      modeNodes, owned := nodes, all;
    }
  }

  /**
   * The list dump_modes builds.  `last` is the node whose `next` the cursor points at; null when
   * the cursor points at the start of the list.
   */
  class ConnectionList {
    var first: ConnectionNode?
    var last: ConnectionNode?
    ghost var nodes: seq<ConnectionNode>
    ghost var heads: set<ConnectionNode>
    ghost var all: set<ModeNode>
    ghost var shown: seq<Connection>

    /** The nodes are linked in order, none twice. */
    ghost predicate Linked()
      reads this, heads
    {
      && (if nodes == [] then first == null && last == null else first == nodes[0] && last == nodes[|nodes| - 1])
      && (forall i :: 0 <= i < |nodes| ==> nodes[i] in heads && nodes[i].position == i)
      && (last != null ==> last.next == null)
      && (forall i {:trigger nodes[i].next} :: 0 <= i < |nodes| - 1 ==> nodes[i].next == nodes[i + 1])
    }

    /** The nodes, if they are linked.  (An Option, so that a proof that only carries it need not open it.) */
    ghost function Order(): Option<seq<ConnectionNode>>
      reads this, heads
    {
      if Linked() then Some(nodes) else None
    }

    /** The linked nodes stand for `shown`. */
    ghost predicate Valid()
      reads this, heads, all
    {
      && Order() == Some(nodes) && |shown| == |nodes|
      && (forall i :: 0 <= i < |nodes| ==>
            nodes[i] in heads && nodes[i].owned <= all && nodes[i].Shown() == Some(shown[i]))
    }

    /** What the list stands for. */
    ghost function Holds(): Option<seq<Connection>>
      reads this, heads, all
    {
      if Valid() then Some(shown) else None
    }

    constructor ()
      ensures Holds() == Some([]) && heads == {} && all == {}
    {
      first, last := null, null;
      nodes, heads, all, shown := [], {}, {}, [];
    }

    /** `*curr = node; curr = &node->next`. */
    method Link(node: ConnectionNode, ghost c: Connection)
      requires Order() == Some(nodes) && node !in heads && node.next == null
      modifies this, heads`next, node`position
      ensures nodes == old(nodes) + [node] && heads == old(heads) + {node} && Order() == Some(nodes)
      ensures shown == old(shown) + [c] && all == old(all) + node.owned
    {
      if last == null {
        first := node;
      } else {
        last.next := node;
      }
      last := node;
      node.position := |nodes|;
      nodes, heads := nodes + [node], heads + {node};
      shown, all := shown + [c], all + node.owned;
    }

    /** Links a node that stands for c. */
    method Add(node: ConnectionNode, ghost c: Connection)
      requires Valid() && node !in heads && node.next == null && node.Shown() == Some(c)
      modifies this, heads`next, node`position
      ensures Valid() && shown == old(shown) + [c]
      ensures heads == old(heads) + {node} && all == old(all) + node.owned
    {
      ghost var before, cs := nodes, shown;
      Link(node, c);
      forall i | 0 <= i < |before| ensures before[i].Shown() == Some(cs[i]) {
        assert before[i].Shown() == old(before[i].Shown());
      }
      assert node.Shown() == old(node.Shown());
      assert forall i :: 0 <= i < |before| ==> nodes[i] == before[i] && shown[i] == cs[i];
    }

    /** One turn of the outer loop; false when the connection has no mode list. */
    method Read(j: Json, text: Json -> string, ghost before: seq<Connection>) returns (hasModes: bool)
      requires Holds() == Some(before)
      modifies this, heads`next
      ensures Holds() == Some(before + [DecodeConnection(j, text)])
      ensures fresh(heads - old(heads)) && fresh(all - old(all))
      ensures hasModes == Get(j, "modes").Some?
    {
      var node;
      node, hasModes := NewConnection(j, text);
      Add(node, DecodeConnection(j, text));
    }
  }

  method NewConnection(j: Json, text: Json -> string) returns (node: ConnectionNode, hasModes: bool)
    ensures fresh(node) && node.next == null && fresh(node.owned)
    ensures node.Shown() == Some(DecodeConnection(j, text))
    ensures hasModes == Get(j, "modes").Some?
  {
    node := new ConnectionNode();
    var list := Get(j, "modes");
    hasModes := list != None;
    node.Fill(DecodeNumbers(j), list, text);
  }

  /** dump_modes.  A connection without a mode list stays, as the last one. */
  method DumpModes(data: Option<Members>, text: Json -> string) returns (conn: ConnectionList)
    ensures fresh(conn) && fresh(conn.heads) && fresh(conn.all)
    ensures conn.Holds() == Some(if data.Some? then Decode(data.value, text) else [])
  {
    conn := new ConnectionList();
    if data != None {
      DecodeShape(data.value, text);
      TakeNone(Decode(data.value, text));
      ReadAll(conn, data.value, text, Decode(data.value, text));
    }
  }

  /** The outer loop. */
  method ReadAll(conn: ConnectionList, m: Members, text: Json -> string, ghost full: seq<Connection>)
    requires conn.Holds() == Some(full[..0]) && conn.heads == {} && conn.all == {} && Elementwise(m, full, text)
    modifies conn
    ensures conn.Holds() == Some(full) && fresh(conn.heads) && fresh(conn.all)
  {
    var i := 0;
    var hasModes := true;
    while i < |m| && hasModes
      invariant i <= |full| <= |m| && (i == |full| ==> i == |m| || !hasModes) && (!hasModes ==> i == |full|)
      invariant conn.Holds() == Some(full[..i]) && fresh(conn.heads) && fresh(conn.all)
      decreases |m| - i
    {
      hasModes := ReadElement(conn, m, i, text, full);
      i := i + 1;
    }
    TakeAll(full, i);
  }

  /** One turn of the outer loop. */
  method ReadElement(conn: ConnectionList, m: Members, i: nat, text: Json -> string, ghost full: seq<Connection>)
    returns (hasModes: bool)
    requires Elementwise(m, full, text) && i < |full| && conn.Holds() == Some(full[..i])
    modifies conn, conn.heads`next
    ensures conn.Holds() == Some(full[..i + 1])
    ensures fresh(conn.heads - old(conn.heads)) && fresh(conn.all - old(conn.all))
    ensures hasModes ==> i + 1 < |full| || |full| == |m|
    ensures !hasModes ==> i + 1 == |full|
  {
    assert ElementAt(m, full, text, i);
    Snoc(full, i);
    hasModes := conn.Read(m[i].1, text, full[..i]);
  }

  /**
   * The two ends on the reply as a value: the client holds every live connector with every mode, in
   * order, exactly when the printed keys are distinct and no connector has more than 10^7 modes.
   */
  method DumpReply(cs: seq<Option<ConnectorInfo>>, text: Json -> string) returns (conn: ConnectionList)
    requires AllSane(cs)
    ensures conn.Holds().Some?
    ensures conn.Holds() == Some(AllSeen(cs)) <==> DistinctKeys(Listed(cs)) && AllShort(cs)
  {
    var reply := GetModes(cs);
    conn := DumpModes(Some(reply), text);
    RoundTrip(cs, text);
  }

  ghost predicate ElementAt(m: Members, full: seq<Connection>, text: Json -> string, k: nat)
    requires k < |full| <= |m|
  {
    full[k] == DecodeConnection(m[k].1, text) && (k < |full| - 1 ==> Get(m[k].1, "modes").Some?)
  }

  /** Decoding goes element by element, up to the first one without a mode list, included. */
  ghost predicate Elementwise(m: Members, full: seq<Connection>, text: Json -> string) {
    && |full| <= |m| && (full == [] <==> m == [])
    && (forall k :: 0 <= k < |full| ==> ElementAt(m, full, text, k))
    && (0 < |full| < |m| ==> Get(m[|full| - 1].1, "modes").None?)
  }

  lemma ElementwiseMore(m: Members, more: Members, rest: seq<Connection>, full: seq<Connection>, text: Json -> string)
    requires m != [] && Get(m[0].1, "modes").Some? && more == m[1..] && Elementwise(more, rest, text)
    requires full == [DecodeConnection(m[0].1, text)] + rest
    ensures Elementwise(m, full, text)
  {
    forall k | 0 <= k < |full| ensures ElementAt(m, full, text, k) {
      if k > 0 { assert ElementAt(more, rest, text, k - 1); }
    }
  }

  lemma ElementwiseEnd(m: Members, text: Json -> string)
    requires m != [] && Get(m[0].1, "modes").None?
    ensures Elementwise(m, [DecodeConnection(m[0].1, text)], text)
  {
  }

  lemma {:induction false} DecodeShape(m: Members, text: Json -> string)
    ensures Elementwise(m, Decode(m, text), text)
  {
    if m != [] {
      if Get(m[0].1, "modes").Some? {
        DecodeShape(m[1..], text);
        ElementwiseMore(m, m[1..], Decode(m[1..], text), Decode(m, text), text);
      } else {
        ElementwiseEnd(m, text);
      }
    }
  }

  // ---------------------------------------------------------------- freeing

  /** free_modes: every node of the list is freed, each once. */
  method FreeModes(data: ModeNode, ghost nodes: seq<ModeNode>)
    requires ModeChain(data, nodes)
    modifies nodes`live
    ensures forall n :: n in nodes ==> !n.live
    decreases |nodes|
  {
    if data.next != null {
      assert |nodes| > 1;
      FreeModes(data.next, nodes[1..]);
    } else {
      assert nodes == [data];
    }
    FreeMode(data);
  }

  /** free of one node: it must not have been freed before. */
  method FreeMode(data: ModeNode)
    requires data.live
    modifies data`live
    ensures !data.live
  {
    data.live := false;
  }
}
