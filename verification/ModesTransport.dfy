/**
 * "get modes" from the socket to the list: the reply as a stream of bytes, read by the client and
 * decoded (ipc.c:154-192, 369-376; drm-help-client.c:113-133, 142-194).
 *
 * The JSON library is taken at its word: its parser reads back the text its printer wrote, and no
 * proper prefix of that text is a message.
 */
module ModesTransport {
  import opened Options
  import opened Machine
  import opened Json
  import opened Framing
  import opened RequestReader
  import opened Streams
  import opened ModesReply
  import opened ModesLists

  /** The bytes still to come are the text of the reply for these connectors, and nothing else. */
  ghost predicate Carries(script: seq<Arrival>, parse: seq<byte> -> Option<Json>, cs: seq<Option<ConnectorInfo>>) {
    && Proper(script) && parse([]).None?
    && OneMessage(parse, Stream(script))
    && parse(Stream(script)) == Some(JObject(Reply(cs)))
  }

  /** What send_cmd_sync hands to dump_modes. */
  function HandedOut(ret: int, data: Message<Json>): Option<Members> {
    if ret < 0 then None
    else match data
      case Parsed(j) => Some(MembersOf(j))
      case Empty => Some([])
  }

  /** The connections the client decodes from an answer. */
  function Understood(a: Answer<Json>, text: Json -> string): seq<Connection> {
    var m := HandedOut(a.ret, a.data);
    if m.Some? then Decode(m.value, text) else []
  }

  /**
   * However the reads cut up the reply: the client understands every live connector with every
   * mode, in order, exactly if the reply fits into the client's buffer, the printed connector keys
   * are distinct and no connector has more than 10^7 modes, or there is no connector at all.
   */
  lemma ReplyUnderstood(cs: seq<Option<ConnectorInfo>>, script: seq<Arrival>, parse: seq<byte> -> Option<Json>,
                        memory: nat -> bool, size: nat, text: Json -> string)
    requires 0 < size <= MAX_REQUEST && forall k :: 0 <= k < MAX_REQUEST / size ==> memory(k)
    requires AllSane(cs) && Carries(script, parse, cs)
    ensures var u := Understood(Request(script, parse, memory, size), text);
      var fits := |Stream(script)| <= (MAX_REQUEST / size) * size;
      && (u == AllSeen(cs) <==> AllSeen(cs) == [] || (fits && DistinctKeys(Listed(cs)) && AllShort(cs)))
      && (!fits ==> u == [])
  {
    AnsweredIffFits(script, parse, memory, size);
    RoundTrip(cs, text);
    if AllSeen(cs) == [] {
      ListedRoundTrip(cs, text);
      assert Reply(cs) == [];
    }
  }

  /** drm_help_client_get_connection, once the command is sent. */
  method GetConnections(sock: Socket, ghost cs: seq<Option<ConnectorInfo>>, parse: seq<byte> -> Option<Json>,
                        memory: nat -> bool, size: nat, text: Json -> string)
    returns (conn: ConnectionList)
    requires 0 < size <= MAX_REQUEST && forall k :: 0 <= k < MAX_REQUEST / size ==> memory(k)
    requires AllSane(cs) && Carries(sock.script, parse, cs)
    modifies sock
    ensures conn.Holds().Some?
    ensures conn.Holds() == Some(AllSeen(cs)) <==>
      || AllSeen(cs) == []
      || (|Stream(old(sock.script))| <= (MAX_REQUEST / size) * size && DistinctKeys(Listed(cs)) && AllShort(cs))
  {
    ReplyUnderstood(cs, sock.script, parse, memory, size, text);
    ghost var a := Request(sock.script, parse, memory, size);
    var ret, data := ReadRequest(sock, parse, memory, size);
    conn := DumpModes(HandedOut(ret, data), text);
    assert conn.Holds() == Some(Understood(a, text));
  }
}
