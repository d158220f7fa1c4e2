/**
 * The reply to "get modes": what the server writes for its connectors
 * (compositor-drm-help.c:145-201, 459-473) and what the client reads back
 * (drm-help-client.c:13-28, 142-190), as functions on JSON values.
 */
module ModesReply {
  import opened Options
  import opened Machine
  import opened Json
  import opened Decimal

  // ---------------------------------------------------------------- integers as C keeps them

  /** A value stored in an int32_t. */
  function Int32(n: int): (r: int)
    ensures -0x8000_0000 <= r < 0x8000_0000
  {
    var low := n % TWO32;
    if low < 0x8000_0000 then low else low - TWO32
  }

  /** A value stored in a uint32_t. */
  function UInt32(n: int): nat {
    n % TWO32
  }

  // ---------------------------------------------------------------- the server's side

  /** drmModeModeInfo; `name` is the text before its terminator. */
  datatype ModeInfo = ModeInfo(name: string, vrefresh: nat, hdisplay: nat, hsyncStart: nat, hsyncEnd: nat, htotal: nat,
                               vdisplay: nat, vsyncStart: nat, vsyncEnd: nat, vtotal: nat, clock: nat,
                               flags: nat, kind: nat)

  /** The parts of drmModeConnector the reply is made of. */
  datatype ConnectorInfo = ConnectorInfo(id: nat, connection: int, kind: nat, encoderId: nat, mmWidth: nat,
                                         mmHeight: nat, props: seq<nat>, encoders: seq<nat>, modes: seq<ModeInfo>)

  /** json_object_new_int. */
  function Number32(n: int): Json {
    JInt(Int32(n))
  }

  /** The members of one mode. */
  function ModeMembers(m: ModeInfo): Members {
    [("name", JString(m.name)), ("vrefresh", Number32(m.vrefresh)), ("hdisplay", Number32(m.hdisplay)),
     ("hsync_start", Number32(m.hsyncStart)), ("hsync_end", Number32(m.hsyncEnd)), ("htotal", Number32(m.htotal)),
     ("vdisplay", Number32(m.vdisplay)), ("vsync_start", Number32(m.vsyncStart)), ("vsync_end", Number32(m.vsyncEnd)),
     ("vtotal", Number32(m.vtotal)), ("clock", Number32(m.clock)), ("flags", Number32(m.flags)),
     ("type", Number32(m.kind))]
  }

  function DumpMode(m: ModeInfo): Json {
    JObject(AddAll([], ModeMembers(m)))
  }

  /** The key of element i: "%d" in a buffer of 8 bytes. */
  function ElementKey(i: nat): string {
    Cut(Printed(i), 8)
  }

  /** The key of a connector: "%d" of its id, an int, in a buffer of 5 bytes. */
  function ConnectorKey(id: nat): string {
    Cut(Printed(Int32(id)), 5)
  }

  /** Elements under their keys, from number `from` on. */
  function Numbered(values: seq<Json>): (r: Members)
    ensures |r| == |values|
    ensures forall i :: 0 <= i < |r| ==> r[i] == (ElementKey(i), values[i])
  {
    seq(|values|, i requires 0 <= i < |values| => (ElementKey(i), values[i]))
  }

  function NumberList(values: seq<nat>): (r: seq<Json>)
    ensures |r| == |values|
  {
    seq(|values|, i requires 0 <= i < |values| => Number32(values[i]))
  }

  function ModeList(modes: seq<ModeInfo>): (r: seq<Json>)
    ensures |r| == |modes|
    ensures forall i :: 0 <= i < |r| ==> r[i] == DumpMode(modes[i])
  {
    seq(|modes|, i requires 0 <= i < |modes| => DumpMode(modes[i]))
  }

  /** The members of one connector. */
  function ConnectorMembers(c: ConnectorInfo): Members {
    [("connection", Number32(c.connection)), ("connection_type", Number32(c.kind)),
     ("encoder_id", Number32(c.encoderId)), ("mmWidth", Number32(c.mmWidth)), ("mmHeight", Number32(c.mmHeight)),
     ("count_props", Number32(|c.props|)), ("props", JObject(AddAll([], Numbered(NumberList(c.props))))),
     ("count_encoders", Number32(|c.encoders|)), ("encoders", JObject(AddAll([], Numbered(NumberList(c.encoders))))),
     ("count_modes", Number32(|c.modes|)), ("modes", JObject(AddAll([], Numbered(ModeList(c.modes)))))]
  }

  /** dumpConnectorInfo for a connector that is there. */
  function DumpConnector(c: ConnectorInfo): Json {
    JObject(AddAll([], ConnectorMembers(c)))
  }

  /** The connectors of the list under their keys; a hole contributes nothing. */
  function Listed(cs: seq<Option<ConnectorInfo>>): Members {
    if cs == [] then []
    else (if cs[0].Some? then [(ConnectorKey(cs[0].value.id), DumpConnector(cs[0].value))] else []) + Listed(cs[1..])
  }

  /** The reply to "get modes". */
  function Reply(cs: seq<Option<ConnectorInfo>>): Members {
    AddAll([], Listed(cs))
  }

  // ---------------------------------------------------------------- the client's side

  /** drm_output_mode; the name is a buffer of 32 bytes, without a terminator if it is full. */
  datatype OutputMode = OutputMode(name: string, width: nat, height: nat, refresh: nat)

  /** drm_connection_list, without its links. */
  datatype Connection = Connection(id: int, kind: int, encoderId: int, mmWidth: int, mmHeight: int,
                                   countEncoders: int, countModes: int, modes: seq<OutputMode>)

  const NAME_LEN := 32

  /** json_object_get_int, for the values the server writes. */
  function GetInt(j: Option<Json>): int {
    if j.Some? && j.value.JInt? then j.value.n else 0
  }

  /** json_object_get_string; `text` renders a value that is not a string. */
  function GetString(j: Option<Json>, text: Json -> string): Option<string> {
    match j
    case None => None
    case Some(JString(s)) => Some(s)
    case Some(v) => Some(text(v))
  }

  /** json_format_to_drm_output_mode; None for a mode without a name. */
  function DecodeMode(j: Json, text: Json -> string): Option<OutputMode> {
    var name := GetString(Get(j, "name"), text);
    if name.None? then None
    else Some(OutputMode(if |name.value| < NAME_LEN then name.value else name.value[..NAME_LEN],
                         UInt32(GetInt(Get(j, "hdisplay"))), UInt32(GetInt(Get(j, "vdisplay"))),
                         UInt32(GetInt(Get(j, "vrefresh")))))
  }

  /** The modes up to the first one without a name. */
  function DecodeModes(m: Members, text: Json -> string): seq<OutputMode> {
    if m == [] then []
    else match DecodeMode(m[0].1, text)
      case None => []
      case Some(mode) => [mode] + DecodeModes(m[1..], text)
  }

  /** The members of an object; anything else has none. */
  function MembersOf(j: Json): Members {
    if j.JObject? then j.members else []
  }

  function DecodeNumbers(j: Json): Connection {
    Connection(GetInt(Get(j, "connection")), GetInt(Get(j, "connection_type")), GetInt(Get(j, "encoder_id")),
               GetInt(Get(j, "mmWidth")), GetInt(Get(j, "mmHeight")), GetInt(Get(j, "count_encoders")),
               GetInt(Get(j, "count_modes")), [])
  }

  function DecodeModeList(j: Json, text: Json -> string): seq<OutputMode> {
    var modes := Get(j, "modes");
    if modes.Some? then DecodeModes(MembersOf(modes.value), text) else []
  }

  function DecodeConnection(j: Json, text: Json -> string): Connection {
    DecodeNumbers(j).(modes := DecodeModeList(j, text))
  }

  /** dump_modes: a connection without modes ends the list, and is its last element. */
  function Decode(m: Members, text: Json -> string): seq<Connection> {
    if m == [] then []
    else
      [DecodeConnection(m[0].1, text)] + (if Get(m[0].1, "modes").None? then [] else Decode(m[1..], text))
  }

  // ---------------------------------------------------------------- round trip

  /** What the client is to see of one mode and of one connector. */
  function ModeSeen(m: ModeInfo): OutputMode {
    OutputMode(m.name, m.hdisplay, m.vdisplay, m.vrefresh)
  }

  function ModesSeen(ms: seq<ModeInfo>): seq<OutputMode> {
    seq(|ms|, i requires 0 <= i < |ms| => ModeSeen(ms[i]))
  }

  function Seen(c: ConnectorInfo): Connection {
    Connection(c.connection, Int32(c.kind), Int32(c.encoderId), Int32(c.mmWidth), Int32(c.mmHeight),
               |c.encoders|, |c.modes|, ModesSeen(c.modes))
  }

  function AllSeen(cs: seq<Option<ConnectorInfo>>): seq<Connection> {
    if cs == [] then []
    else (if cs[0].Some? then [Seen(cs[0].value)] else []) + AllSeen(cs[1..])
  }

  /** Values the kernel's types allow, and names that fit their buffers. */
  ghost predicate Sane(m: ModeInfo) {
    |m.name| < NAME_LEN && m.vrefresh < TWO32 && m.hdisplay < 0x1_0000 && m.vdisplay < 0x1_0000
  }

  ghost predicate SaneConnector(c: ConnectorInfo) {
    && -0x8000_0000 <= c.connection < 0x8000_0000 && c.id < TWO32
    && |c.encoders| < 0x8000_0000 && |c.modes| < 0x8000_0000
    && forall i :: 0 <= i < |c.modes| ==> Sane(c.modes[i])
  }

  lemma ModeKeysDistinct(m: ModeInfo)
    ensures DistinctKeys(ModeMembers(m))
  {
  }

  lemma ConnectorKeysDistinct(c: ConnectorInfo)
    ensures DistinctKeys(ConnectorMembers(c))
  {
  }

  /** One member of a mode, found by its key. */
  lemma ModeMember(m: ModeInfo, k: nat)
    requires k < 13
    ensures Get(DumpMode(m), ModeMembers(m)[k].0) == Some(ModeMembers(m)[k].1)
  {
    ModeKeysDistinct(m);
    AddAllDistinct(ModeMembers(m));
    GetAt(ModeMembers(m), k);
  }

  lemma ConnectorMember(c: ConnectorInfo, k: nat)
    requires k < 11
    ensures Get(DumpConnector(c), ConnectorMembers(c)[k].0) == Some(ConnectorMembers(c)[k].1)
  {
    ConnectorKeysDistinct(c);
    AddAllDistinct(ConnectorMembers(c));
    GetAt(ConnectorMembers(c), k);
  }

  /** An unsigned 32-bit value survives the way through json_object_new_int. */
  lemma SurvivesInt32(n: nat)
    requires n < TWO32
    ensures UInt32(Int32(n)) == n
  {
  }

  lemma ModeRoundTrip(m: ModeInfo, text: Json -> string)
    requires Sane(m)
    ensures DecodeMode(DumpMode(m), text) == Some(ModeSeen(m))
    ensures ModeSeen(m) == OutputMode(m.name, m.hdisplay, m.vdisplay, m.vrefresh)
  {
    ModeMember(m, 0);
    ModeMember(m, 1);
    ModeMember(m, 2);
    ModeMember(m, 6);
    SurvivesInt32(m.vrefresh);
    SurvivesInt32(m.hdisplay);
    SurvivesInt32(m.vdisplay);
  }

  /** A name that fills the client's buffer is cut to its 32 bytes. */
  lemma NameCut(m: ModeInfo, text: Json -> string)
    ensures DecodeMode(DumpMode(m), text).Some?
    ensures DecodeMode(DumpMode(m), text).value.name == if |m.name| < 32 then m.name else m.name[..32]
  {
    ModeMember(m, 0);
  }

  /** A member that holds an int32_t. */
  predicate Carries(j: Json, key: string, n: int) {
    Get(j, key) == Some(JInt(Int32(n)))
  }

  /** Every field of a mode is written under its own name. */
  lemma ModeWritten(m: ModeInfo)
    ensures Get(DumpMode(m), "name") == Some(JString(m.name))
    ensures Carries(DumpMode(m), "vrefresh", m.vrefresh) && Carries(DumpMode(m), "hdisplay", m.hdisplay)
    ensures Carries(DumpMode(m), "hsync_start", m.hsyncStart) && Carries(DumpMode(m), "hsync_end", m.hsyncEnd)
    ensures Carries(DumpMode(m), "htotal", m.htotal) && Carries(DumpMode(m), "vdisplay", m.vdisplay)
    ensures Carries(DumpMode(m), "vsync_start", m.vsyncStart) && Carries(DumpMode(m), "vsync_end", m.vsyncEnd)
    ensures Carries(DumpMode(m), "vtotal", m.vtotal) && Carries(DumpMode(m), "clock", m.clock)
    ensures Carries(DumpMode(m), "flags", m.flags) && Carries(DumpMode(m), "type", m.kind)
  {
    var ms := ModeMembers(m);
    assert forall k :: 0 <= k < 13 ==> Get(DumpMode(m), ms[k].0) == Some(ms[k].1) by {
      forall k | 0 <= k < 13 ensures Get(DumpMode(m), ms[k].0) == Some(ms[k].1) { ModeMember(m, k); }
    }
    assert ms[0].0 == "name" && ms[1].0 == "vrefresh" && ms[2].0 == "hdisplay" && ms[3].0 == "hsync_start";
    assert ms[4].0 == "hsync_end" && ms[5].0 == "htotal" && ms[6].0 == "vdisplay" && ms[7].0 == "vsync_start";
    assert ms[8].0 == "vsync_end" && ms[9].0 == "vtotal" && ms[10].0 == "clock" && ms[11].0 == "flags";
    assert ms[12].0 == "type";
  }

  lemma {:induction false} ModesRoundTrip(m: Members, ms: seq<ModeInfo>, text: Json -> string)
    requires |m| == |ms| && forall i :: 0 <= i < |ms| ==> ReadAs(m[i].1, ms[i], text)
    ensures DecodeModes(m, text) == ModesSeen(ms)
  {
    if m != [] {
      assert ReadAs(m[0].1, ms[0], text);
      assert forall i :: 0 <= i < |ms| - 1 ==> ReadAs(m[1..][i].1, ms[1..][i], text);
      ModesRoundTrip(m[1..], ms[1..], text);
      SeenStep(ms);
    }
  }

  ghost predicate ReadAs(j: Json, m: ModeInfo, text: Json -> string) {
    DecodeMode(j, text) == Some(ModeSeen(m))
  }

  lemma SeenStep(ms: seq<ModeInfo>)
    requires ms != []
    ensures ModesSeen(ms) == [ModeSeen(ms[0])] + ModesSeen(ms[1..])
  {
  }

  // Numbers of elements below 10^7 have distinct keys; the next one takes the key of 10^6.

  const MAX_ELEMENTS := 10_000_000

  lemma SevenDigits(n: nat)
    ensures |Numeral(n)| <= 7 <==> n < MAX_ELEMENTS
  {
    NumeralLength(n, 7);
    Powers();
  }

  lemma ElementKeyIs(i: nat)
    requires i < MAX_ELEMENTS
    ensures ElementKey(i) == Numeral(i)
  {
    SevenDigits(i);
  }

  lemma NumberedDistinct(values: seq<Json>)
    ensures DistinctKeys(Numbered(values)) <==> |values| <= MAX_ELEMENTS
  {
    var r := Numbered(values);
    if |values| <= MAX_ELEMENTS {
      forall i, j | 0 <= i < j < |r| ensures r[i].0 != r[j].0 {
        ElementKeyIs(i);
        ElementKeyIs(j);
        if Numeral(i) == Numeral(j) { NumeralInjective(i, j); }
      }
    } else {
      ElementKeyIs(1_000_000);
      SevenDigits(MAX_ELEMENTS);
      assert Numeral(MAX_ELEMENTS) == Numeral(1_000_000) + [Digit(0)];
      NumeralLength(1_000_000, 6);
      SevenDigits(1_000_000);
      Powers();
      assert r[1_000_000].0 == r[MAX_ELEMENTS].0;
    }
  }

  /** The members under "modes" of a connector. */
  function ModeTable(c: ConnectorInfo): Members {
    AddAll([], Numbered(ModeList(c.modes)))
  }

  lemma {:induction false} DecodeModesLength(m: Members, text: Json -> string)
    ensures |DecodeModes(m, text)| <= |m|
  {
    if m != [] { DecodeModesLength(m[1..], text); }
  }

  /** All modes come back exactly when their numbers have distinct keys. */
  lemma ModeTableRoundTrip(c: ConnectorInfo, text: Json -> string)
    requires SaneConnector(c)
    ensures |c.modes| <= MAX_ELEMENTS ==> DecodeModes(ModeTable(c), text) == ModesSeen(c.modes)
    ensures |c.modes| > MAX_ELEMENTS ==> |DecodeModes(ModeTable(c), text)| < |c.modes|
  {
    var numbered := Numbered(ModeList(c.modes));
    NumberedDistinct(ModeList(c.modes));
    if |c.modes| <= MAX_ELEMENTS {
      AddAllDistinct(numbered);
      forall i | 0 <= i < |c.modes| ensures ReadAs(numbered[i].1, c.modes[i], text) {
        ModeRoundTrip(c.modes[i], text);
      }
      ModesRoundTrip(numbered, c.modes, text);
    } else {
      assert [] + numbered == numbered;
      AddAllCollides([], numbered);
      DecodeModesLength(ModeTable(c), text);
    }
  }

  lemma ConnectorNumbers(c: ConnectorInfo)
    ensures Get(DumpConnector(c), "connection") == Some(Number32(c.connection))
    ensures Get(DumpConnector(c), "connection_type") == Some(Number32(c.kind))
    ensures Get(DumpConnector(c), "encoder_id") == Some(Number32(c.encoderId))
    ensures Get(DumpConnector(c), "mmWidth") == Some(Number32(c.mmWidth))
    ensures Get(DumpConnector(c), "mmHeight") == Some(Number32(c.mmHeight))
  {
    ConnectorMember(c, 0);
    ConnectorMember(c, 1);
    ConnectorMember(c, 2);
    ConnectorMember(c, 3);
    ConnectorMember(c, 4);
  }

  lemma ConnectorCounts(c: ConnectorInfo)
    ensures Get(DumpConnector(c), "count_encoders") == Some(Number32(|c.encoders|))
    ensures Get(DumpConnector(c), "count_modes") == Some(Number32(|c.modes|))
    ensures Get(DumpConnector(c), "modes") == Some(JObject(ModeTable(c)))
  {
    ConnectorMember(c, 7);
    ConnectorMember(c, 9);
    ConnectorMember(c, 10);
  }

  lemma ConnectionRoundTrip(c: ConnectorInfo, text: Json -> string)
    requires SaneConnector(c)
    ensures Get(DumpConnector(c), "modes").Some?
    ensures DecodeConnection(DumpConnector(c), text) == Seen(c) <==> |c.modes| <= MAX_ELEMENTS
  {
    ConnectorNumbers(c);
    ConnectorCounts(c);
    ModeTableRoundTrip(c, text);
    DecodedFrom(DumpConnector(c), c, text);
  }

  /** What the client reads of a connector with at most 10^7 modes, value by value. */
  lemma ConnectionRead(c: ConnectorInfo, text: Json -> string, r: Connection)
    requires SaneConnector(c) && |c.modes| <= 10_000_000 && r == DecodeConnection(DumpConnector(c), text)
    ensures r.id == c.connection && r.countEncoders == |c.encoders| && r.countModes == |c.modes| == |r.modes|
    ensures r.kind == Int32(c.kind) && r.encoderId == Int32(c.encoderId)
    ensures r.mmWidth == Int32(c.mmWidth) && r.mmHeight == Int32(c.mmHeight)
    ensures forall i :: 0 <= i < |c.modes| ==>
              r.modes[i].name == c.modes[i].name && r.modes[i].refresh == c.modes[i].vrefresh
              && r.modes[i].width == c.modes[i].hdisplay && r.modes[i].height == c.modes[i].vdisplay
  {
    ConnectionRoundTrip(c, text);
  }

  /** The properties and the encoders are written under their numbers, with how many there are. */
  lemma NumbersWritten(c: ConnectorInfo, j: Json)
    requires j == DumpConnector(c)
    ensures Carries(j, "count_props", |c.props|) && Carries(j, "count_encoders", |c.encoders|)
    ensures Get(j, "props").Some? && Get(j, "encoders").Some?
    ensures |c.props| <= 10_000_000 ==>
              forall i :: 0 <= i < |c.props| ==> Carries(Get(j, "props").value, Numeral(i), c.props[i])
    ensures |c.encoders| <= 10_000_000 ==>
              forall i :: 0 <= i < |c.encoders| ==> Carries(Get(j, "encoders").value, Numeral(i), c.encoders[i])
  {
    ConnectorCounts(c);
    ConnectorMember(c, 5);
    ConnectorMember(c, 6);
    ConnectorMember(c, 8);
    if |c.props| <= 10_000_000 { ListWritten(c.props); }
    if |c.encoders| <= 10_000_000 { ListWritten(c.encoders); }
  }

  lemma ListWritten(values: seq<nat>)
    requires |values| <= 10_000_000
    ensures forall i :: 0 <= i < |values| ==>
              Carries(JObject(AddAll([], Numbered(NumberList(values)))), Numeral(i), values[i])
  {
    var numbered := Numbered(NumberList(values));
    NumberedDistinct(NumberList(values));
    AddAllDistinct(numbered);
    forall i | 0 <= i < |values| ensures Carries(JObject(numbered), Numeral(i), values[i]) {
      ElementKeyIs(i);
      GetAt(numbered, i);
    }
  }

  /** An object with the members of a connector is read as that connector. */
  lemma DecodedFrom(j: Json, c: ConnectorInfo, text: Json -> string)
    requires SaneConnector(c)
    requires Get(j, "connection") == Some(Number32(c.connection)) && Get(j, "connection_type") == Some(Number32(c.kind))
    requires Get(j, "encoder_id") == Some(Number32(c.encoderId))
    requires Get(j, "mmWidth") == Some(Number32(c.mmWidth)) && Get(j, "mmHeight") == Some(Number32(c.mmHeight))
    requires Get(j, "count_encoders") == Some(Number32(|c.encoders|))
             && Get(j, "count_modes") == Some(Number32(|c.modes|))
    requires Get(j, "modes").Some? && Get(j, "modes").value.JObject?
    ensures DecodeConnection(j, text) == Seen(c).(modes := DecodeModes(Get(j, "modes").value.members, text))
  {
    Int32Same(c.connection);
    Int32Same(|c.encoders|);
    Int32Same(|c.modes|);
  }

  lemma Int32Same(n: int)
    requires -0x8000_0000 <= n < 0x8000_0000
    ensures Int32(n) == n
  {
  }

  ghost predicate AllSane(cs: seq<Option<ConnectorInfo>>) {
    forall i :: 0 <= i < |cs| && cs[i].Some? ==> SaneConnector(cs[i].value)
  }

  ghost predicate AllShort(cs: seq<Option<ConnectorInfo>>) {
    forall i :: 0 <= i < |cs| && cs[i].Some? ==> |cs[i].value.modes| <= MAX_ELEMENTS
  }

  /** Reading the members one by one. */
  lemma {:induction false} ListedRoundTrip(cs: seq<Option<ConnectorInfo>>, text: Json -> string)
    requires AllSane(cs)
    ensures |Listed(cs)| == |AllSeen(cs)|
    ensures Decode(Listed(cs), text) == AllSeen(cs) <==> AllShort(cs)
  {
    if cs != [] {
      ListedRoundTrip(cs[1..], text);
      assert AllShort(cs) <==> AllShort(cs[1..]) && (cs[0].Some? ==> |cs[0].value.modes| <= MAX_ELEMENTS);
      if cs[0].Some? {
        ConnectionRoundTrip(cs[0].value, text);
        var first := (ConnectorKey(cs[0].value.id), DumpConnector(cs[0].value));
        assert Listed(cs) == [first] + Listed(cs[1..]);
        assert Decode(Listed(cs), text) == [DecodeConnection(first.1, text)] + Decode(Listed(cs[1..]), text);
        HeadTail(DecodeConnection(first.1, text), Decode(Listed(cs[1..]), text), Seen(cs[0].value), AllSeen(cs[1..]));
      } else {
        assert Listed(cs) == Listed(cs[1..]);
        assert AllSeen(cs) == AllSeen(cs[1..]);
      }
    }
  }

  lemma HeadTail(a: Connection, s: seq<Connection>, b: Connection, t: seq<Connection>)
    ensures [a] + s == [b] + t <==> a == b && s == t
  {
    if [a] + s == [b] + t {
      assert ([a] + s)[0] == ([b] + t)[0];
      assert ([a] + s)[1..] == s && ([b] + t)[1..] == t;
    }
  }

  lemma {:induction false} DecodeLength(m: Members, text: Json -> string)
    ensures |Decode(m, text)| <= |m|
  {
    if m != [] { DecodeLength(m[1..], text); }
  }

  /**
   * The client reads back every live connector, in order, with every mode, exactly when the
   * printed keys of the connectors are distinct and no connector has more than 10^7 modes.
   */
  lemma RoundTrip(cs: seq<Option<ConnectorInfo>>, text: Json -> string)
    requires AllSane(cs)
    ensures Decode(Reply(cs), text) == AllSeen(cs) <==> DistinctKeys(Listed(cs)) && AllShort(cs)
  {
    ListedRoundTrip(cs, text);
    if DistinctKeys(Listed(cs)) {
      AddAllDistinct(Listed(cs));
    } else {
      assert [] + Listed(cs) == Listed(cs);
      AddAllCollides([], Listed(cs));
      DecodeLength(Reply(cs), text);
    }
  }

  /** What the client is to see: the live connectors in list order, a hole nowhere. */
  lemma {:induction false} SeenInOrder(cs: seq<Option<ConnectorInfo>>, last: Option<ConnectorInfo>)
    ensures AllSeen([]) == []
    ensures AllSeen(cs + [last]) == AllSeen(cs) + if last.Some? then [Seen(last.value)] else []
  {
    if cs == [] {
      assert [] + [last] == [last];
      assert [last][1..] == [];
    } else {
      SeenInOrder(cs[1..], last);
      assert (cs + [last])[1..] == cs[1..] + [last];
    }
  }

  /** Reading ends at the first mode without a name, whatever follows it. */
  lemma {:induction false} ModesEnd(named: Members, nameless: (string, Json), more: Members, text: Json -> string)
    requires Get(nameless.1, "name").None?
    ensures DecodeModes(named + ([nameless] + more), text) == DecodeModes(named, text)
  {
    if named == [] {
      assert named + ([nameless] + more) == [nameless] + more;
    } else {
      assert (named + ([nameless] + more))[1..] == named[1..] + ([nameless] + more);
      ModesEnd(named[1..], nameless, more, text);
    }
  }

  /** And reading ends behind the first connection without modes, which is still part of the list. */
  lemma {:induction false} ConnectionsEnd(before: Members, last: (string, Json), more: Members, text: Json -> string)
    requires Get(last.1, "modes").None?
    ensures Decode(before + ([last] + more), text) == Decode(before + [last], text)
    ensures Decode([last] + more, text) == [DecodeNumbers(last.1)]
  {
    if before == [] {
      assert before + ([last] + more) == [last] + more && before + [last] == [last];
    } else {
      assert (before + ([last] + more))[1..] == before[1..] + ([last] + more);
      assert (before + [last])[1..] == before[1..] + [last];
      ConnectionsEnd(before[1..], last, more, text);
    }
  }

  // ---------------------------------------------------------------- which ids are safe

  ghost predicate DistinctIds(cs: seq<Option<ConnectorInfo>>) {
    forall i, j :: 0 <= i < j < |cs| && cs[i].Some? && cs[j].Some? ==> cs[i].value.id != cs[j].value.id
  }

  /** A number that fits is printed in full. */
  lemma KeyOfShort(n: nat, size: nat)
    requires size >= 2 && n < Power10(size - 1) && n < 0x8000_0000
    ensures Cut(Printed(Int32(n)), size) == Numeral(n)
  {
    NumeralLength(n, size - 1);
    Int32Same(n);
  }

  lemma ConnectorKeyIs(id: nat)
    requires id < 10_000
    ensures ConnectorKey(id) == Numeral(id)
  {
    Powers();
    KeyOfShort(id, 5);
  }

  lemma {:induction false} ListedKeys(cs: seq<Option<ConnectorInfo>>, k: nat)
    requires k < |Listed(cs)|
    ensures exists i :: 0 <= i < |cs| && cs[i].Some? && Listed(cs)[k].0 == ConnectorKey(cs[i].value.id)
  {
    var n := if cs[0].Some? then 1 else 0;
    if k < n {
      assert Listed(cs)[k].0 == ConnectorKey(cs[0].value.id);
    } else {
      ListedKeys(cs[1..], k - n);
      var i :| 0 <= i < |cs| - 1 && cs[1..][i].Some? && Listed(cs[1..])[k - n].0 == ConnectorKey(cs[1..][i].value.id);
      assert cs[i + 1] == cs[1..][i];
      assert Listed(cs)[k] == Listed(cs[1..])[k - n];
    }
  }

  /** Distinct ids of at most four digits have distinct keys. */
  lemma {:induction false} SmallIdsDistinct(cs: seq<Option<ConnectorInfo>>)
    requires DistinctIds(cs) && forall i :: 0 <= i < |cs| && cs[i].Some? ==> cs[i].value.id < 10_000
    ensures DistinctKeys(Listed(cs))
  {
    if cs != [] {
      SmallIdsDistinct(cs[1..]);
      var rest := Listed(cs[1..]);
      if cs[0].Some? {
        forall k | 0 <= k < |rest| ensures rest[k].0 != ConnectorKey(cs[0].value.id) {
          ListedKeys(cs[1..], k);
          var i :| 0 <= i < |cs| - 1 && cs[1..][i].Some? && rest[k].0 == ConnectorKey(cs[1..][i].value.id);
          assert cs[i + 1] == cs[1..][i];
          ConnectorKeyIs(cs[0].value.id);
          ConnectorKeyIs(cs[i + 1].value.id);
          var a, b := cs[0].value.id, cs[i + 1].value.id;
          if Numeral(a) == Numeral(b) { NumeralInjective(a, b); }
        }
        assert Listed(cs) == [(ConnectorKey(cs[0].value.id), DumpConnector(cs[0].value))] + rest;
      } else {
        assert Listed(cs) == rest;
      }
    }
  }

  /** The promise for connectors as they come: distinct ids of at most four digits. */
  lemma RoundTripSmallIds(cs: seq<Option<ConnectorInfo>>, text: Json -> string)
    requires AllSane(cs) && AllShort(cs) && DistinctIds(cs)
    requires forall i :: 0 <= i < |cs| && cs[i].Some? ==> cs[i].value.id < 10_000
    ensures Decode(Reply(cs), text) == AllSeen(cs)
  {
    SmallIdsDistinct(cs);
    RoundTrip(cs, text);
  }

  /** Ids that differ in the fifth digit only share a key, and one connector is lost. */
  lemma LongIdsCollide(cs: seq<Option<ConnectorInfo>>, text: Json -> string)
    requires AllSane(cs) && |cs| >= 2 && cs[0].Some? && cs[1].Some?
    requires 10_000 <= cs[0].value.id < 100_000 && cs[0].value.id / 10 == cs[1].value.id / 10
    ensures Decode(Reply(cs), text) != AllSeen(cs)
  {
    SameKey(cs[0].value.id, cs[1].value.id);
    ListedTwo(cs);
    CollisionLoses(cs, 0, 1, text);
  }

  lemma SameKey(i: nat, j: nat)
    requires 10_000 <= i < 100_000 && i / 10 == j / 10
    ensures ConnectorKey(i) == ConnectorKey(j)
  {
    ConnectorKeyOf(i, i / 10, i % 10);
    ConnectorKeyOf(j, j / 10, j % 10);
  }

  lemma ListedTwo(cs: seq<Option<ConnectorInfo>>)
    requires |cs| >= 2 && cs[0].Some? && cs[1].Some?
    ensures |Listed(cs)| >= 2
    ensures Listed(cs)[0].0 == ConnectorKey(cs[0].value.id) && Listed(cs)[1].0 == ConnectorKey(cs[1].value.id)
  {
    assert cs[1..][0] == cs[1];
    var rest := Listed(cs[1..]);
    assert rest == [(ConnectorKey(cs[1].value.id), DumpConnector(cs[1].value))] + Listed(cs[1..][1..]);
    assert Listed(cs) == [(ConnectorKey(cs[0].value.id), DumpConnector(cs[0].value))] + rest;
  }

  lemma CollisionLoses(cs: seq<Option<ConnectorInfo>>, i: nat, j: nat, text: Json -> string)
    requires AllSane(cs) && i < j < |Listed(cs)| && Listed(cs)[i].0 == Listed(cs)[j].0
    ensures Decode(Reply(cs), text) != AllSeen(cs)
  {
    RoundTrip(cs, text);
  }

  /** The fifth digit of an id is cut off. */
  lemma ConnectorKeyOf(id: nat, n: nat, d: nat)
    requires 1_000 <= n < 10_000 && d < 10 && id == 10 * n + d
    ensures ConnectorKey(id) == Numeral(n)
  {
    Powers();
    NumeralLength(n, 4);
    NumeralLength(n, 3);
    Int32Same(id);
    Appended(n, d);
    CutAppended(Numeral(n), Digit(d), 5);
  }

  lemma Appended(n: nat, d: nat)
    requires n > 0 && d < 10
    ensures Numeral(10 * n + d) == Numeral(n) + [Digit(d)]
  {
  }

  lemma CutAppended(s: string, c: char, size: nat)
    requires |s| + 1 == size
    ensures Cut(s + [c], size) == s
  {
  }
}
