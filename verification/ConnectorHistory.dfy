/**
 * Runs of the connector list: what it holds after any history of calls, and which property writes
 * a flush makes (compositor-drm-help.c:159-164, 225-258, 459-514, 638-781).
 */
module ConnectorHistory {
  import opened Options
  import opened ConnectorSlots
  import opened ConnectorItems

  datatype Event =
    | Appended(c: Connector, ids: Ids)
    | Replaced(older: Option<Connector>, newer: Connector, ids: Ids)
    | Deleted(gone: Option<Connector>)
    | PropertySet(i: nat, value: nat)
    | Flushed
    | ModesRead(answers: map<Connector, Ids>)

  predicate Possible(e: Event) {
    e.PropertySet? ==> e.i < COUNT
  }

  type History = h: seq<Event> | forall k :: 0 <= k < |h| ==> Possible(h[k])

  /** The static head alone. */
  const START: seq<Slot> := [Slot(None, CLEAN)]

  function Step(s: seq<Slot>, e: Event): (r: seq<Slot>)
    requires WellFormed(s) && Possible(e)
    ensures WellFormed(r)
  {
    match e
    case Appended(c, ids) => AppendRefines(s, c, ids); Append(s, c, ids)
    case Replaced(older, newer, ids) => ReplaceRefines(s, older, newer, ids); Replace(s, older, newer, ids)
    case Deleted(gone) => DeleteRefines(s, gone); Delete(s, gone)
    case PropertySet(i, value) => SetAll(s, i, value)
    case Flushed => Flush(s)
    case ModesRead(answers) => RefreshAll(s, answers)
  }

  function Run(h: History): (r: seq<Slot>)
    ensures WellFormed(r)
  {
    if h == [] then START else Step(Run(h[..|h| - 1]), h[|h| - 1])
  }

  function StepItems(xs: seq<Item>, e: Event): (r: seq<Item>)
    requires AllProps(xs) && Possible(e)
    ensures AllProps(r)
  {
    match e
    case Appended(c, ids) => AppendItem(xs, c, ids)
    case Replaced(older, newer, ids) => ReplaceItem(xs, older, newer, ids)
    case Deleted(gone) => DeleteItem(xs, gone)
    case PropertySet(i, value) => SetItems(xs, i, value)
    case Flushed => FlushItems(xs)
    case ModesRead(answers) => RefreshItems(xs, answers)
  }

  function RunItems(h: History): (r: seq<Item>)
    ensures AllProps(r)
  {
    if h == [] then [] else StepItems(RunItems(h[..|h| - 1]), h[|h| - 1])
  }

  /** Over every run the linked slots stand for the plain sequence. */
  lemma {:induction false} RunRefines(h: History)
    ensures Items(Run(h)) == RunItems(h)
  {
    if h != [] {
      var earlier, e := h[..|h| - 1], h[|h| - 1];
      RunRefines(earlier);
      var s := Run(earlier);
      match e
      case Appended(c, ids) => AppendRefines(s, c, ids);
      case Replaced(older, newer, ids) => ReplaceRefines(s, older, newer, ids);
      case Deleted(gone) => DeleteRefines(s, gone);
      case PropertySet(i, value) => SetRefines(s, i, value);
      case Flushed => FlushRefines(s);
      case ModesRead(answers) => RefreshRefines(s, answers);
    }
  }

  // ---------------------------------------------------------------- distinctness

  ghost predicate Distinct(xs: seq<Item>) {
    forall i, j :: 0 <= i < j < |xs| ==> xs[i].connector != xs[j].connector
  }

  predicate Holds(xs: seq<Item>, c: Connector) {
    IndexOf(xs, c).Some?
  }

  /** The one call that puts a connector in twice: it replaces a connector by another listed one. */
  predicate Duplicates(xs: seq<Item>, e: Event) {
    && e.Replaced? && e.older.Some? && e.older != Some(e.newer)
    && Holds(xs, e.older.value) && Holds(xs, e.newer)
  }

  lemma DistinctKept(xs: seq<Item>, e: Event)
    requires AllProps(xs) && Possible(e) && Distinct(xs)
    ensures Distinct(StepItems(xs, e)) <==> !Duplicates(xs, e)
  {
    if Duplicates(xs, e) {
      var i, j := IndexOf(xs, e.older.value).value, IndexOf(xs, e.newer).value;
      var r := StepItems(xs, e);
      assert r[i].connector == e.newer && r[j].connector == e.newer && i != j;
    }
  }

  /** A history in which no call puts a connector in twice. */
  predicate Clean(h: History) {
    forall k :: 0 <= k < |h| ==> !Duplicates(RunItems(h[..k]), h[k])
  }

  lemma CleanPrefix(h: History)
    requires h != [] && Clean(h)
    ensures Clean(h[..|h| - 1])
  {
    forall k | 0 <= k < |h| - 1 ensures h[..|h| - 1][..k] == h[..k] {}
  }

  lemma {:induction false} RunDistinct(h: History)
    requires Clean(h)
    ensures Distinct(RunItems(h))
  {
    if h != [] {
      CleanPrefix(h);
      RunDistinct(h[..|h| - 1]);
      DistinctKept(RunItems(h[..|h| - 1]), h[|h| - 1]);
    }
  }

  // ---------------------------------------------------------------- pending property writes

  /** The connectors listed after a history, told from the calls alone. */
  ghost function Live(h: History): set<Connector> {
    if h == [] then {}
    else
      var before := Live(h[..|h| - 1]);
      match h[|h| - 1]
      case Appended(c, _) => before + {c}
      case Replaced(older, newer, _) => (if older.Some? then before - {older.value} else before) + {newer}
      case Deleted(gone) => if gone.Some? then before - {gone.value} else before
      case PropertySet(_, _) => before
      case Flushed => before
      case ModesRead(_) => before
  }

  /** Whether a call puts a connector in afresh, forgetting the writes asked for before. */
  ghost predicate Enters(live: set<Connector>, e: Event, c: Connector) {
    match e
    case Appended(d, _) => d == c && c !in live
    case Replaced(older, newer, _) => newer == c && (c !in live || (older.Some? && older.value in live))
    case _ => false
  }

  /**
   * The last value set for a property of an HDMI connector (type 11 or 12) since it was last put in
   * or last flushed, told from the calls alone.
   */
  ghost function LastSet(h: History, c: Connector, i: nat): Option<nat> {
    if h == [] || (c.kind != 11 && c.kind != 12) then None
    else
      var earlier, e := h[..|h| - 1], h[|h| - 1];
      if e.Flushed? || Enters(Live(earlier), e, c) then None
      else if e.PropertySet? && e.i == i && c in Live(earlier) then Some(e.value)
      else LastSet(earlier, c, i)
  }

  /** What DRM answers, in this call, for the properties of a connector. */
  ghost function Answered(e: Event, c: Connector): Option<Ids> {
    match e
    case Appended(d, ids) => if d == c then Some(ids) else None
    case Replaced(_, newer, ids) => if newer == c then Some(ids) else None
    case ModesRead(answers) => if c in answers then Some(answers[c]) else None
    case _ => None
  }

  /**
   * The last id that DRM answered for a property of a connector since it was last put in, told from
   * the calls alone; 0 if there was none.
   */
  ghost function LastId(h: History, c: Connector, i: nat): nat
    requires i < COUNT
  {
    if h == [] then 0
    else
      var earlier, e := h[..|h| - 1], h[|h| - 1];
      var a := Answered(e, c);
      if a.Some? && a.value[i].Some? then a.value[i].value
      else if Enters(Live(earlier), e, c) then 0
      else LastId(earlier, c, i)
  }

  /** The list and the calls agree on who is listed and on what is waiting to be written. */
  ghost predicate Agrees(xs: seq<Item>, h: History) {
    && AllProps(xs) && Distinct(xs)
    && (forall c :: c in Live(h) <==> Holds(xs, c))
    && (forall k, i :: 0 <= k < |xs| && 0 <= i < COUNT ==> WaitsFor(xs[k], i, h))
  }

  ghost predicate WaitsFor(x: Item, i: nat, h: History)
    requires i < COUNT
  {
    && |x.props| == COUNT
    && Pending(x.props[i]) == LastSet(h, x.connector, i)
    && x.props[i].id == LastId(h, x.connector, i)
  }

  lemma AppendAgrees(xs: seq<Item>, h: History)
    requires h != [] && h[|h| - 1].Appended? && Agrees(xs, h[..|h| - 1])
    ensures Agrees(StepItems(xs, h[|h| - 1]), h)
  {
    var c, ids := h[|h| - 1].c, h[|h| - 1].ids;
    var r := StepItems(xs, h[|h| - 1]);
    assert Live(h) == Live(h[..|h| - 1]) + {c};
    DistinctKept(xs, h[|h| - 1]);
    forall k, i | 0 <= k < |r| && 0 <= i < COUNT ensures WaitsFor(r[k], i, h) {
      if k < |xs| {
        assert WaitsFor(xs[k], i, h[..|h| - 1]);
        assert Holds(xs, xs[k].connector);
      }
    }
    assert forall k :: 0 <= k < |xs| ==> r[k].connector == xs[k].connector;
    if IndexOf(xs, c).None? { assert r[|xs|].connector == c; }
    forall d ensures d in Live(h) <==> Holds(r, d) {
      HoldsIs(xs, d);
      HoldsIs(r, d);
      if d in Live(h[..|h| - 1]) {
        var k :| 0 <= k < |xs| && xs[k].connector == d;
        assert r[k].connector == d;
      }
    }
  }

  /** Being held, said with a position. */
  lemma HoldsIs(xs: seq<Item>, c: Connector)
    ensures Holds(xs, c) <==> exists k :: 0 <= k < |xs| && xs[k].connector == c
  {
  }

  /** Who is held once the connector at position `at` is replaced. */
  lemma HoldsReplaced(xs: seq<Item>, at: nat, x: Item, d: Connector)
    requires Distinct(xs) && at < |xs|
    ensures Holds(xs[at := x], d) <==> d == x.connector || (Holds(xs, d) && xs[at].connector != d)
  {
    var r := xs[at := x];
    HoldsIs(xs, d);
    HoldsIs(r, d);
    if d == x.connector {
      assert r[at].connector == d;
    } else if exists k :: 0 <= k < |xs| && k != at && xs[k].connector == d {
      var k :| 0 <= k < |xs| && k != at && xs[k].connector == d;
      assert r[k].connector == d;
    }
  }

  lemma ReplaceAgrees(xs: seq<Item>, h: History)
    requires h != [] && h[|h| - 1].Replaced? && Agrees(xs, h[..|h| - 1])
    requires !Duplicates(xs, h[|h| - 1])
    ensures Agrees(StepItems(xs, h[|h| - 1]), h)
  {
    var e := h[|h| - 1];
    var r := StepItems(xs, e);
    DistinctKept(xs, e);
    if e.older.Some? && Holds(xs, e.older.value) {
      var at := IndexOf(xs, e.older.value).value;
      var x := Item(e.newer, Refresh(CLEAN, e.ids));
      assert r == xs[at := x];
      forall k, i | 0 <= k < |r| && 0 <= i < COUNT ensures WaitsFor(r[k], i, h) {
        if k != at {
          assert WaitsFor(xs[k], i, h[..|h| - 1]);
          assert xs[k].connector != e.newer by { HoldsIs(xs, e.newer); }
        }
      }
      forall d ensures d in Live(h) <==> Holds(r, d) {
        HoldsReplaced(xs, at, x, d);
      }
    } else {
      ReplaceAppends(xs, h, h[..|h| - 1] + [Appended(e.newer, e.ids)]);
    }
  }

  /** A replacement of a connector that is not listed is an append. */
  lemma ReplaceAppends(xs: seq<Item>, h: History, h': History)
    requires h != [] && h[|h| - 1].Replaced? && Agrees(xs, h[..|h| - 1])
    requires h[|h| - 1].older.Some? ==> !Holds(xs, h[|h| - 1].older.value)
    requires h' == h[..|h| - 1] + [Appended(h[|h| - 1].newer, h[|h| - 1].ids)]
    ensures Agrees(StepItems(xs, h[|h| - 1]), h)
  {
    var e := h[|h| - 1];
    var r := StepItems(xs, e);
    assert h'[..|h| - 1] == h[..|h| - 1];
    AppendAgrees(xs, h');
    assert e.older.Some? ==> e.older.value !in Live(h[..|h| - 1]);
    assert Live(h) == Live(h');
    forall k, i | 0 <= k < |r| && 0 <= i < COUNT ensures WaitsFor(r[k], i, h) {
      assert WaitsFor(r[k], i, h');
    }
  }

  lemma DeleteAgrees(xs: seq<Item>, h: History)
    requires h != [] && h[|h| - 1].Deleted? && Agrees(xs, h[..|h| - 1])
    ensures Agrees(StepItems(xs, h[|h| - 1]), h)
  {
    var e := h[|h| - 1];
    var r := StepItems(xs, e);
    DistinctKept(xs, e);
    if e.gone.Some? && Holds(xs, e.gone.value) {
      var at := IndexOf(xs, e.gone.value).value;
      assert r == xs[..at] + xs[at + 1..];
      DeleteLeaves(xs, r, h, at);
    } else {
      assert r == xs && (e.gone.Some? ==> e.gone.value !in Live(h[..|h| - 1]));
      forall k, i | 0 <= k < |r| && 0 <= i < COUNT ensures WaitsFor(r[k], i, h) {
        assert WaitsFor(xs[k], i, h[..|h| - 1]);
      }
    }
  }

  lemma DeleteLeaves(xs: seq<Item>, r: seq<Item>, h: History, at: nat)
    requires h != [] && Agrees(xs, h[..|h| - 1]) && at < |xs|
    requires h[|h| - 1] == Deleted(Some(xs[at].connector)) && r == xs[..at] + xs[at + 1..]
    requires Distinct(r)
    ensures Agrees(r, h)
  {
    forall k, i | 0 <= k < |r| && 0 <= i < COUNT ensures WaitsFor(r[k], i, h) {
      assert r[k] == xs[if k < at then k else k + 1];
      assert WaitsFor(xs[if k < at then k else k + 1], i, h[..|h| - 1]);
    }
    forall d ensures d in Live(h) <==> Holds(r, d) {
      HoldsBut(xs, r, at, d);
    }
  }

  /** Who is held once the connector at position `at` is taken out. */
  lemma HoldsBut(xs: seq<Item>, r: seq<Item>, at: nat, d: Connector)
    requires Distinct(xs) && at < |xs| && r == xs[..at] + xs[at + 1..]
    ensures Holds(r, d) <==> Holds(xs, d) && xs[at].connector != d
  {
    HoldsIs(xs, d);
    HoldsIs(r, d);
    assert forall k :: 0 <= k < |r| ==> r[k] == xs[if k < at then k else k + 1];
    if exists k :: 0 <= k < |xs| && k != at && xs[k].connector == d {
      var k :| 0 <= k < |xs| && k != at && xs[k].connector == d;
      assert r[if k < at then k else k - 1].connector == d;
    }
  }

  lemma SetAgrees(xs: seq<Item>, h: History)
    requires h != [] && (h[|h| - 1].PropertySet? || h[|h| - 1].Flushed?) && Agrees(xs, h[..|h| - 1])
    ensures Agrees(StepItems(xs, h[|h| - 1]), h)
  {
    var r := StepItems(xs, h[|h| - 1]);
    assert forall k :: 0 <= k < |xs| ==> r[k].connector == xs[k].connector;
    forall k, i | 0 <= k < |r| && 0 <= i < COUNT ensures WaitsFor(r[k], i, h) {
      assert WaitsFor(xs[k], i, h[..|h| - 1]);
      assert Holds(xs, xs[k].connector);
    }
    SameHeld(xs, r);
  }

  lemma RefreshAgrees(xs: seq<Item>, h: History)
    requires h != [] && h[|h| - 1].ModesRead? && Agrees(xs, h[..|h| - 1])
    ensures Agrees(StepItems(xs, h[|h| - 1]), h)
  {
    var r := StepItems(xs, h[|h| - 1]);
    assert forall k :: 0 <= k < |xs| ==> r[k].connector == xs[k].connector;
    forall k, i | 0 <= k < |r| && 0 <= i < COUNT ensures WaitsFor(r[k], i, h) {
      assert WaitsFor(xs[k], i, h[..|h| - 1]);
    }
    SameHeld(xs, r);
  }

  /** The same connectors are held. */
  lemma SameHeld(xs: seq<Item>, r: seq<Item>)
    requires |xs| == |r| && forall k :: 0 <= k < |xs| ==> r[k].connector == xs[k].connector
    ensures forall d :: Holds(r, d) <==> Holds(xs, d)
  {
    forall d ensures Holds(r, d) <==> Holds(xs, d) {
      HoldsIs(xs, d);
      HoldsIs(r, d);
      if Holds(xs, d) {
        var k :| 0 <= k < |xs| && xs[k].connector == d;
        assert r[k].connector == d;
      }
    }
  }

  /**
   * Over every run that never lists a connector twice, the listed connectors are the live ones,
   * each waits for exactly the last value set since it was put in or flushed, and each property has
   * the last id that DRM answered for it.
   */
  lemma {:induction false} RunAgrees(h: History)
    requires Clean(h)
    ensures Agrees(RunItems(h), h)
  {
    if h != [] {
      CleanPrefix(h);
      RunAgrees(h[..|h| - 1]);
      var xs, e := RunItems(h[..|h| - 1]), h[|h| - 1];
      assert !Duplicates(RunItems(h[..|h| - 1]), h[|h| - 1]);
      match e
      case Appended(_, _) => AppendAgrees(xs, h);
      case Replaced(_, _, _) => ReplaceAgrees(xs, h);
      case Deleted(_) => DeleteAgrees(xs, h);
      case PropertySet(_, _) => SetAgrees(xs, h);
      case Flushed => SetAgrees(xs, h);
      case ModesRead(_) => RefreshAgrees(xs, h);
    }
  }

  // ---------------------------------------------------------------- what a flush asks for

  /** The writes owed to one connector, from property `from` on, told from the calls alone. */
  ghost function Owed(c: Connector, h: History, from: nat): seq<Request>
    requires from <= COUNT
    decreases COUNT - from
  {
    if from == COUNT then []
    else
      var v := LastSet(h, c, from);
      (if v.Some? then [Request(c.id, LastId(h, c, from), v.value)] else []) + Owed(c, h, from + 1)
  }

  ghost function OwedToAll(xs: seq<Item>, h: History): seq<Request> {
    if xs == [] then [] else Owed(xs[0].connector, h, 0) + OwedToAll(xs[1..], h)
  }

  lemma {:induction false} SlotOwed(x: Item, h: History, from: nat)
    requires from <= COUNT && |x.props| == COUNT
    requires forall i :: 0 <= i < COUNT ==> WaitsFor(x, i, h)
    ensures SlotRequests(Slot(Some(x.connector), x.props), from) == Owed(x.connector, h, from)
    decreases COUNT - from
  {
    if from < COUNT {
      assert WaitsFor(x, from, h);
      SlotOwed(x, h, from + 1);
    }
  }

  lemma {:induction false} RequestsOwed(s: seq<Slot>, h: History, k: nat)
    requires WellFormed(s) && AllProps(Items(s)) && k <= |Items(s)|
    requires forall j, i :: 0 <= j < |Items(s)| && 0 <= i < COUNT ==> WaitsFor(Items(s)[j], i, h)
    ensures Requests(s, Skipped(s) + k) == OwedToAll(Items(s)[k..], h)
    decreases |Items(s)| - k
  {
    var xs := Items(s);
    if k < |xs| {
      SlotOwed(xs[k], h, 0);
      RequestsOwed(s, h, k + 1);
      assert xs[k..][1..] == xs[k + 1..];
    }
  }

  /**
   * One flush asks, connector by connector in list order, for exactly the writes owed: one per
   * listed HDMI connector and property set since that connector was put in or last flushed, with
   * the last value set and the last id that DRM answered for the property.
   */
  lemma FlushAsksForOwed(h: History)
    requires Clean(h)
    ensures Requests(Run(h), 0) == OwedToAll(RunItems(h), h)
  {
    RunAgrees(h);
    RunRefines(h);
    RequestsOwed(Run(h), h, 0);
    assert Items(Run(h))[0..] == Items(Run(h));
  }

  lemma {:induction false} NothingToFlush(s: seq<Slot>, from: nat)
    requires WellFormed(s) && from <= |s| - 1
    requires forall k, i :: 0 <= k < |s| - 1 && s[k].data.Some? && 0 <= i < COUNT ==> !s[k].props[i].needChange
    ensures Requests(s, from) == []
    decreases |s| - from
  {
    if from < |s| - 1 {
      assert forall i :: 0 <= i <= COUNT ==> SlotRequests(s[from], i) == [] by { SlotClean(s[from]); }
      NothingToFlush(s, from + 1);
    }
  }

  lemma SlotClean(x: Slot)
    requires |x.props| == COUNT
    requires x.data.Some? ==> forall i :: 0 <= i < COUNT ==> !x.props[i].needChange
    ensures forall i :: 0 <= i <= COUNT ==> SlotRequests(x, i) == []
  {
    assert SlotRequests(x, 3) == [] && SlotRequests(x, 2) == [] && SlotRequests(x, 1) == [];
  }

  /** A second flush with no set in between asks for nothing, whatever the list holds. */
  lemma SecondFlushEmpty(s: seq<Slot>)
    requires WellFormed(s)
    ensures Requests(Flush(s), 0) == []
  {
    NothingToFlush(Flush(s), 0);
  }

  ghost predicate OnlyHdmiWaits(xs: seq<Item>) {
    AllProps(xs) && forall k, i :: 0 <= k < |xs| && 0 <= i < COUNT ==> MayWait(xs[k], i)
  }

  predicate MayWait(x: Item, i: nat)
    requires i < COUNT && |x.props| == COUNT
  {
    Pending(x.props[i]).Some? ==> x.connector.kind == 11 || x.connector.kind == 12
  }

  lemma PutInWaits(xs: seq<Item>, c: Connector, ids: Ids)
    requires OnlyHdmiWaits(xs)
    ensures OnlyHdmiWaits(AppendItem(xs, c, ids))
  {
    var r := AppendItem(xs, c, ids);
    forall k, i | 0 <= k < |r| && 0 <= i < COUNT ensures MayWait(r[k], i) {
      if k < |xs| { assert MayWait(xs[k], i); }
    }
  }

  lemma StepWaits(xs: seq<Item>, e: Event)
    requires OnlyHdmiWaits(xs) && Possible(e)
    ensures OnlyHdmiWaits(StepItems(xs, e))
  {
    var r := StepItems(xs, e);
    match e
    case Appended(c, ids) => PutInWaits(xs, c, ids);
    case Replaced(older, newer, ids) =>
      PutInWaits(xs, newer, ids);
      if older.Some? && IndexOf(xs, older.value).Some? {
        forall k, i | 0 <= k < |r| && 0 <= i < COUNT ensures MayWait(r[k], i) {
          assert MayWait(xs[k], i);
        }
      }
    case Deleted(gone) =>
      var at := if gone.Some? && Holds(xs, gone.value) then IndexOf(xs, gone.value).value else |xs|;
      forall k, i | 0 <= k < |r| && 0 <= i < COUNT ensures MayWait(r[k], i) {
        assert MayWait(xs[if k < at then k else k + 1], i);
      }
    case _ =>
      forall k, i | 0 <= k < |r| && 0 <= i < COUNT ensures MayWait(r[k], i) {
        assert MayWait(xs[k], i);
      }
  }

  /** Over every run, clean or not, a connector that is not HDMI is never asked a write. */
  lemma {:induction false} NonHdmiNeverPending(h: History)
    ensures OnlyHdmiWaits(RunItems(h))
  {
    if h != [] {
      NonHdmiNeverPending(h[..|h| - 1]);
      StepWaits(RunItems(h[..|h| - 1]), h[|h| - 1]);
    }
  }
}
