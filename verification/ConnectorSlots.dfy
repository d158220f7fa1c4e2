/**
 * The connector list as a sequence of slots, and as the plain sequence of connectors it stands
 * for (compositor-drm-help.c:46-87, 225-268, 459-514, 638-781).
 */
module ConnectorSlots {
  import opened Options

  /** A drmModeConnector: where it lives, its connector_id and its connector_type. */
  datatype Connector = Connector(address: nat, id: int, kind: int)

  const HDMI_A := 11
  const HDMI_B := 12

  predicate IsHdmi(c: Connector) {
    c.kind == HDMI_A || c.kind == HDMI_B
  }

  /** A drm_property_info: the KMS id and the write still to be made. */
  datatype Prop = Prop(id: nat, needChange: bool, newValue: nat)

  /** DRM_CONNECTOR_PROPERTY__COUNT, and the names the properties are known by. */
  const COUNT := 3
  const NAMES: seq<string> := ["Content Protection", "Color Depth", "Color Space"]

  /** connector_props: no id known, nothing to write. */
  const CLEAN: seq<Prop> := [Prop(0, false, 0), Prop(0, false, 0), Prop(0, false, 0)]

  datatype Slot = Slot(data: Option<Connector>, props: seq<Prop>)

  /** What DRM answers for one connector: the id of each property it has. */
  type Ids = ids: seq<Option<nat>> | |ids| == COUNT witness [None, None, None]

  /** update_connector_props: takes over the ids found and keeps everything else. */
  function Refresh(props: seq<Prop>, ids: Ids): (r: seq<Prop>)
    requires |props| == COUNT
    ensures |r| == COUNT
    ensures forall i :: 0 <= i < COUNT ==> Pending(r[i]) == Pending(props[i])
  {
    seq(COUNT, i requires 0 <= i < COUNT =>
      if ids[i].Some? then props[i].(id := ids[i].value) else props[i])
  }

  /** The value waiting to be written, if any. */
  function Pending(p: Prop): Option<nat> {
    if p.needChange then Some(p.newValue) else None
  }

  // ---------------------------------------------------------------- slots

  /** Connectors without gaps, except that the head may be a hole, and one empty tail. */
  ghost predicate WellFormed(s: seq<Slot>) {
    && |s| >= 1
    && s[|s| - 1].data.None?
    && (forall i :: 0 < i < |s| - 1 ==> s[i].data.Some?)
    && (forall i :: 0 <= i < |s| ==> |s[i].props| == COUNT)
  }

  function Find(s: seq<Slot>, c: Connector, from: nat): (r: Option<nat>)
    requires |s| >= 1 && from <= |s| - 1
    ensures r.Some? ==> from <= r.value < |s| - 1 && s[r.value].data == Some(c)
    ensures r.Some? ==> forall i :: from <= i < r.value ==> s[i].data != Some(c)
    ensures r.None? ==> forall i :: from <= i < |s| - 1 ==> s[i].data != Some(c)
    decreases |s| - from
  {
    if from == |s| - 1 then None
    else if s[from].data == Some(c) then Some(from)
    else Find(s, c, from + 1)
  }

  /** help_append_connector. */
  function Append(s: seq<Slot>, c: Connector, ids: Ids): seq<Slot>
    requires WellFormed(s)
  {
    match Find(s, c, 0)
    case Some(i) => s[i := s[i].(props := Refresh(s[i].props, ids))]
    case None => s[|s| - 1 := Slot(Some(c), Refresh(CLEAN, ids))] + [Slot(None, CLEAN)]
  }

  /** help_update_connector. */
  function Replace(s: seq<Slot>, older: Option<Connector>, newer: Connector, ids: Ids): seq<Slot>
    requires WellFormed(s)
  {
    if older.Some? && Find(s, older.value, 0).Some? then
      s[Find(s, older.value, 0).value := Slot(Some(newer), Refresh(CLEAN, ids))]
    else Append(s, newer, ids)
  }

  /** help_delete_connector: the head becomes a hole, any other node goes away. */
  function Delete(s: seq<Slot>, c: Option<Connector>): seq<Slot>
    requires WellFormed(s)
  {
    if c.None? then s
    else match Find(s, c.value, 0)
      case None => s
      case Some(i) => if i == 0 then s[0 := s[0].(data := None)] else s[..i] + s[i + 1..]
  }

  /** One property of a "set connector range properties" message. */
  function SetSlot(x: Slot, i: nat, value: nat): Slot
    requires i < |x.props|
  {
    if x.data.Some? && IsHdmi(x.data.value)
    then x.(props := x.props[i := x.props[i].(needChange := true, newValue := value)])
    else x
  }

  function SetAll(s: seq<Slot>, i: nat, value: nat): (r: seq<Slot>)
    requires WellFormed(s) && i < COUNT
    ensures WellFormed(r) && |r| == |s|
  {
    seq(|s|, k requires 0 <= k < |s| => if k < |s| - 1 then SetSlot(s[k], i, value) else s[k])
  }

  /** One drmModeAtomicAddProperty call. */
  datatype Request = Request(connectorId: int, propId: nat, value: nat)

  function SlotRequests(x: Slot, from: nat): seq<Request>
    requires from <= |x.props|
    decreases |x.props| - from
  {
    if x.data.None? || from == |x.props| then []
    else
      var p := x.props[from];
      (if p.needChange then [Request(x.data.value.id, p.id, p.newValue)] else []) + SlotRequests(x, from + 1)
  }

  /** Everything one help_atomic_req_add_prop asks for, the tail excluded. */
  function Requests(s: seq<Slot>, from: nat): seq<Request>
    requires WellFormed(s) && from <= |s| - 1
    decreases |s| - from
  {
    if from == |s| - 1 then [] else SlotRequests(s[from], 0) + Requests(s, from + 1)
  }

  function Settled(props: seq<Prop>): seq<Prop> {
    seq(|props|, i requires 0 <= i < |props| => props[i].(needChange := false))
  }

  function FlushSlot(x: Slot): Slot {
    if x.data.Some? then x.(props := Settled(x.props)) else x
  }

  /** The list after help_atomic_req_add_prop; a hole keeps what it holds. */
  function Flush(s: seq<Slot>): (r: seq<Slot>)
    requires WellFormed(s)
    ensures WellFormed(r) && |r| == |s|
  {
    seq(|s|, k requires 0 <= k < |s| => if k < |s| - 1 then FlushSlot(s[k]) else s[k])
  }

  /** What DRM answers for a connector, if it answers at all. */
  function IdsFor(answers: map<Connector, Ids>, c: Connector): Ids {
    if c in answers then answers[c] else [None, None, None]
  }

  function RefreshSlot(x: Slot, answers: map<Connector, Ids>): Slot
    requires |x.props| == COUNT
  {
    if x.data.Some? then x.(props := Refresh(x.props, IdsFor(answers, x.data.value))) else x
  }

  /** What "get modes" does to the list: it asks DRM for the ids of every connector. */
  function RefreshAll(s: seq<Slot>, answers: map<Connector, Ids>): (r: seq<Slot>)
    requires WellFormed(s)
    ensures WellFormed(r) && |r| == |s|
  {
    seq(|s|, k requires 0 <= k < |s| => if k < |s| - 1 then RefreshSlot(s[k], answers) else s[k])
  }
}

/** The connector list as the plain sequence of connectors a caller sees. */
module ConnectorItems {
  import opened Options
  import opened ConnectorSlots

  datatype Item = Item(connector: Connector, props: seq<Prop>)

  /** The slots in use, in order. */
  function Items(s: seq<Slot>): (r: seq<Item>)
    requires WellFormed(s)
    ensures |r| == |s| - 1 - Skipped(s)
    ensures forall i :: 0 <= i < |r| ==> s[i + Skipped(s)] == Slot(Some(r[i].connector), r[i].props)
  {
    seq(|s| - 1 - Skipped(s), i requires 0 <= i < |s| - 1 - Skipped(s) =>
      Item(s[i + Skipped(s)].data.value, s[i + Skipped(s)].props))
  }

  /** 1 when the head is a hole in front of the tail. */
  function Skipped(s: seq<Slot>): nat
    requires WellFormed(s)
  {
    if |s| >= 2 && s[0].data.None? then 1 else 0
  }

  function IndexOf(xs: seq<Item>, c: Connector): (r: Option<nat>)
    ensures r.Some? ==> r.value < |xs| && xs[r.value].connector == c
    ensures r.Some? ==> forall i :: 0 <= i < r.value ==> xs[i].connector != c
    ensures r.None? ==> forall i :: 0 <= i < |xs| ==> xs[i].connector != c
  {
    if xs == [] then None
    else if xs[0].connector == c then Some(0)
    else match IndexOf(xs[1..], c) case None => None case Some(i) => Some(i + 1)
  }

  // The operations on a plain sequence: append if absent, replace the first or append, remove
  // the first.

  function AppendItem(xs: seq<Item>, c: Connector, ids: Ids): seq<Item>
    requires AllProps(xs)
  {
    match IndexOf(xs, c)
    case Some(i) => xs[i := Item(c, Refresh(xs[i].props, ids))]
    case None => xs + [Item(c, Refresh(CLEAN, ids))]
  }

  function ReplaceItem(xs: seq<Item>, older: Option<Connector>, newer: Connector, ids: Ids): seq<Item>
    requires AllProps(xs)
  {
    if older.Some? && IndexOf(xs, older.value).Some?
    then xs[IndexOf(xs, older.value).value := Item(newer, Refresh(CLEAN, ids))]
    else AppendItem(xs, newer, ids)
  }

  function DeleteItem(xs: seq<Item>, c: Option<Connector>): seq<Item> {
    if c.None? then xs
    else match IndexOf(xs, c.value)
      case None => xs
      case Some(i) => xs[..i] + xs[i + 1..]
  }

  function SetItems(xs: seq<Item>, i: nat, value: nat): (r: seq<Item>)
    requires AllProps(xs) && i < COUNT
    ensures AllProps(r) && |r| == |xs|
  {
    seq(|xs|, k requires 0 <= k < |xs| =>
      if IsHdmi(xs[k].connector)
      then xs[k].(props := xs[k].props[i := xs[k].props[i].(needChange := true, newValue := value)])
      else xs[k])
  }

  function FlushItems(xs: seq<Item>): (r: seq<Item>)
    requires AllProps(xs)
    ensures AllProps(r) && |r| == |xs|
  {
    seq(|xs|, k requires 0 <= k < |xs| => xs[k].(props := Settled(xs[k].props)))
  }

  function RefreshItems(xs: seq<Item>, answers: map<Connector, Ids>): (r: seq<Item>)
    requires AllProps(xs)
    ensures AllProps(r) && |r| == |xs|
  {
    seq(|xs|, k requires 0 <= k < |xs| =>
      xs[k].(props := Refresh(xs[k].props, IdsFor(answers, xs[k].connector))))
  }

  predicate AllProps(xs: seq<Item>) {
    forall i :: 0 <= i < |xs| ==> |xs[i].props| == COUNT
  }

  // ---------------------------------------------------------------- refinement

  lemma FindIsIndexOf(s: seq<Slot>, c: Connector)
    requires WellFormed(s)
    ensures Find(s, c, 0) == match IndexOf(Items(s), c) case None => None case Some(i) => Some(i + Skipped(s))
  {
    var xs, k := Items(s), Skipped(s);
    var f, x := Find(s, c, 0), IndexOf(xs, c);
    if f.Some? { assert xs[f.value - k].connector == c; }
    if x.Some? { assert s[x.value + k].data == Some(c); }
  }

  lemma AppendRefines(s: seq<Slot>, c: Connector, ids: Ids)
    requires WellFormed(s)
    ensures WellFormed(Append(s, c, ids)) && AllProps(Items(s))
    ensures Items(Append(s, c, ids)) == AppendItem(Items(s), c, ids)
  {
    FindIsIndexOf(s, c);
  }

  lemma ReplaceRefines(s: seq<Slot>, older: Option<Connector>, newer: Connector, ids: Ids)
    requires WellFormed(s)
    ensures WellFormed(Replace(s, older, newer, ids)) && AllProps(Items(s))
    ensures Items(Replace(s, older, newer, ids)) == ReplaceItem(Items(s), older, newer, ids)
  {
    if older.Some? { FindIsIndexOf(s, older.value); }
    AppendRefines(s, newer, ids);
  }

  lemma DeleteRefines(s: seq<Slot>, c: Option<Connector>)
    requires WellFormed(s)
    ensures WellFormed(Delete(s, c))
    ensures Items(Delete(s, c)) == DeleteItem(Items(s), c)
  {
    if c.Some? && Find(s, c.value, 0).Some? {
      DeleteFoundRefines(s, c.value, Find(s, c.value, 0).value, Find(s, c.value, 0).value - Skipped(s));
    } else if c.Some? {
      assert IndexOf(Items(s), c.value) == None by { FindIsIndexOf(s, c.value); }
    }
  }

  lemma DeleteFoundRefines(s: seq<Slot>, c: Connector, k: nat, i: int)
    requires WellFormed(s) && Find(s, c, 0) == Some(k) && i == k - Skipped(s)
    ensures WellFormed(Delete(s, Some(c)))
    ensures Items(Delete(s, Some(c))) == DeleteItem(Items(s), Some(c))
  {
    var xs := Items(s);
    assert 0 <= i < |xs| && DeleteItem(xs, Some(c)) == xs[..i] + xs[i + 1..] by { FindIsIndexOf(s, c); }
    if k == 0 {
      DeleteHead(s);
      assert Delete(s, Some(c)) == s[0 := s[0].(data := None)];
      assert i == 0 && xs[..i] + xs[i + 1..] == xs[1..];
    } else {
      assert Delete(s, Some(c)) == s[..k] + s[k + 1..];
      DeleteInner(s, k, i, s[..k] + s[k + 1..]);
    }
  }

  lemma DeleteHead(s: seq<Slot>)
    requires WellFormed(s) && |s| >= 2 && s[0].data.Some?
    ensures WellFormed(s[0 := s[0].(data := None)])
    ensures Items(s[0 := s[0].(data := None)]) == Items(s)[1..]
  {
  }

  lemma DeleteInner(s: seq<Slot>, k: nat, i: nat, t: seq<Slot>)
    requires WellFormed(s) && 0 < k < |s| - 1 && i == k - Skipped(s) && t == s[..k] + s[k + 1..]
    ensures WellFormed(t) && Items(t) == Items(s)[..i] + Items(s)[i + 1..]
  {
    assert forall j :: 0 <= j < |t| ==> t[j] == s[if j < k then j else j + 1];
    assert WellFormed(t) && Skipped(t) == Skipped(s);
  }

  lemma SetRefines(s: seq<Slot>, i: nat, value: nat)
    requires WellFormed(s) && i < COUNT
    ensures AllProps(Items(s)) && Items(SetAll(s, i, value)) == SetItems(Items(s), i, value)
  {
  }

  lemma FlushRefines(s: seq<Slot>)
    requires WellFormed(s)
    ensures AllProps(Items(s)) && Items(Flush(s)) == FlushItems(Items(s))
  {
  }

  lemma RefreshRefines(s: seq<Slot>, answers: map<Connector, Ids>)
    requires WellFormed(s)
    ensures AllProps(Items(s)) && Items(RefreshAll(s, answers)) == RefreshItems(Items(s), answers)
    ensures forall k, i :: 0 <= k < |Items(s)| && 0 <= i < COUNT ==>
              Pending(Items(RefreshAll(s, answers))[k].props[i]) == Pending(Items(s)[k].props[i])
  {
  }
}
