/**
 * What the calls alone tell of the compositor output list: which outputs it holds, and which of
 * their nodes have a back link that names a freed node (compositor-drm-help.c:815-942).
 */
module OutputHistory {
  import opened Options
  import opened OutputSlots
  import opened OutputRuns

  /**
   * The entries, whether the node of each has a stale back link, whether the tail has one, and
   * whether an output was ever registered.
   */
  datatype View = View(entries: seq<Entry>, stale: seq<bool>, tailStale: bool, extended: bool)

  const NOTHING := View([], [], false, false)

  /** Entry k leaves: its successor is linked afresh, or the last node moves up and the tail stays behind. */
  function Without(v: View, k: nat): (r: View)
    requires k < |v.entries| == |v.stale|
    ensures |r.entries| == |r.stale| == |v.entries| - 1
  {
    var n := |v.entries|;
    if k == n - 1 && k > 0 then v.(entries := Drop(v.entries, k), stale := v.stale[..k], tailStale := false)
    else if k > 0 then v.(entries := Drop(v.entries, k), stale := v.stale[..k] + [false] + v.stale[k + 2..])
    else if n == 1 then v.(entries := [], stale := [])
    else v.(entries := Drop(v.entries, 0), stale := [false] + v.stale[1..n - 1], tailStale := true)
  }

  /** A new entry goes into a free head, or onto the tail with the tail's back link. */
  function With(v: View, e: Entry, memory: bool): View {
    if v.entries == [] && v.extended then v.(entries := [e], stale := [false])
    else if memory then View(v.entries + [e], v.stale + [v.tailStale], false, true)
    else v
  }

  /** The documented effect of one call. */
  function Expect(v: View, c: Call): (r: View)
    requires |v.entries| == |v.stale|
    ensures |r.entries| == |r.stale|
  {
    match c
    case Switched(output, enable) =>
      var i := IndexOf(v.entries, output);
      if i.Some? then v.(entries := v.entries[i.value := v.entries[i.value].(enable := enable)]) else v
    case Updated(older, newer, memory) =>
      var i, j := IndexOf(v.entries, older), IndexOf(v.entries, newer);
      if older == newer then v
      else if newer.None? then
        if i.Some? then Without(v, i.value) else v
      else
        var added := Entry(newer.value, false);
        if i.Some? && j.Some? then Without(v.(entries := v.entries[i.value := added]), j.value)
        else if i.Some? then v.(entries := v.entries[i.value := added])
        else if j.Some? then v.(entries := v.entries[j.value := added])
        else With(v, added, memory)
  }

  /** Whether a call unlinks a node with a stale back link. */
  predicate Faults(v: View, c: Call)
    requires |v.entries| == |v.stale|
  {
    c.Updated?
    && match Gone(v.entries, c.older, c.newer)
       case None => false
       case Some(k) => if k > 0 then v.stale[k] else |v.entries| > 1 && v.stale[|v.entries| - 1]
  }

  function Known(calls: seq<Call>): (v: View)
    ensures |v.entries| == |v.stale|
  {
    if calls == [] then NOTHING else Expect(Known(calls[..|calls| - 1]), calls[|calls| - 1])
  }

  // ---------------------------------------------------------------- the view and the list agree

  /** The view tells the entries and the back links of the list. */
  ghost predicate Describes(v: View, s: seq<Slot>) {
    && WellFormed(s)
    && Entries(s) == v.entries && |v.stale| == |v.entries|
    && (forall i :: 0 <= i < |v.stale| ==> v.stale[i] == !s[i].linked)
    && v.tailStale == !s[|s| - 1].linked
    && (v.extended <==> |s| >= 2)
  }

  ghost predicate Matches(s: seq<Slot>, v: View) {
    Distinct(s) && Describes(v, s)
  }

  /** Whether slot i has a good back link once slot k was emptied and the list tidied up. */
  function LinkedAfter(s: seq<Slot>, k: nat, i: nat): bool
    requires i < |s|
  {
    if k > 0 then (if i < k then s[i].linked else i == k || i + 1 == |s| || s[i + 1].linked)
    else if |s| <= 2 then s[i].linked
    else i < |s| - 2 && s[i].linked
  }

  lemma FinishLinks(s: seq<Slot>, k: nat)
    requires WellFormed(s) && k < Count(s) && ((k == 0 && |s| == 2) || s[if k > 0 then k else |s| - 2].linked)
    ensures var r := Finish(s[k := Slot(None, false, s[k].linked)]);
      && r.Some? && |r.value| == (if k == 0 && |s| == 2 then 2 else |s| - 1)
      && forall i :: 0 <= i < |r.value| ==> r.value[i].linked == LinkedAfter(s, k, i)
  {
    var t := s[k := Slot(None, false, s[k].linked)];
    if k > 0 {
      ShrinkOne(t, 1, k);
      HeadStays(Unlink(t, k));
    } else {
      ShrinkNothing(t, 1);
    }
  }

  /** The view without entry k describes a list with the entries and back links that are left. */
  lemma WithoutDescribes(s: seq<Slot>, v: View, k: nat, r: seq<Slot>)
    requires WellFormed(s) && Describes(v, s) && k < |v.entries|
    requires WellFormed(r) && Entries(r) == Drop(v.entries, k)
    requires |r| == if k == 0 && |s| == 2 then 2 else |s| - 1
    requires forall i :: 0 <= i < |r| ==> r[i].linked == LinkedAfter(s, k, i)
    ensures Describes(Without(v, k), r)
  {
    var u := Without(v, k);
    assert |v.entries| == |s| - 1 && |u.entries| == |v.entries| - 1;
    forall i | 0 <= i < |u.stale| ensures u.stale[i] == !r[i].linked {
      StaleWithout(s, v, k, i);
    }
    assert u.tailStale == !r[|r| - 1].linked;
  }

  /** Which mark stands at position i once entry k is out. */
  lemma MarkAt(v: View, k: nat, i: nat)
    requires k < |v.entries| == |v.stale| && i < |v.entries| - 1
    ensures Without(v, k).stale[i] ==
      if k > 0 then (if i < k then v.stale[i] else i > k && v.stale[i + 1]) else i > 0 && v.stale[i]
  {
    if k > 0 && k < |v.entries| - 1 {
      var u := v.stale[..k] + [false] + v.stale[k + 2..];
      assert Without(v, k).stale == u;
      if i > k { assert u[i] == v.stale[k + 2..][i - k - 1]; }
    }
  }

  lemma StaleWithout(s: seq<Slot>, v: View, k: nat, i: nat)
    requires WellFormed(s) && k < |v.entries| == |v.stale| == |s| - 1 && i < |v.entries| - 1
    requires forall j :: 0 <= j < |v.stale| ==> v.stale[j] == !s[j].linked
    ensures Without(v, k).stale[i] == !LinkedAfter(s, k, i)
  {
    MarkAt(v, k, i);
    assert v.stale[i] == !s[i].linked && v.stale[i + 1] == !s[i + 1].linked;
  }

  /** Taking entry k out of a list that its view describes, even one that holds an output twice. */
  lemma RemovalDescribed(s: seq<Slot>, v: View, k: nat, r: Option<seq<Slot>>)
    requires WellFormed(s) && Describes(v, s) && k < |v.entries|
    requires r == Finish(s[k := Slot(None, false, s[k].linked)])
    ensures r.Some? <==> !(if k > 0 then v.stale[k] else |v.entries| > 1 && v.stale[|v.entries| - 1])
    ensures r.Some? ==> Describes(Without(v, k), r.value)
  {
    FinishDrop(s, k);
    assert |v.entries| == |s| - 1;
    if r.Some? {
      FinishLinks(s, k);
      WithoutDescribes(s, v, k, r.value);
    }
  }

  lemma InPlaceMatches(s: seq<Slot>, v: View, i: nat, e: Entry)
    requires WellFormed(s) && Matches(s, v) && i < |v.entries|
    ensures var t := s[i := Slot(Some(e.output), e.enable, s[i].linked)];
      Distinct(t) ==> Matches(t, v.(entries := v.entries[i := e]))
  {
    var t := s[i := Slot(Some(e.output), e.enable, s[i].linked)];
    assert WellFormed(t);
    assert Entries(t) == Entries(s)[i := e];
  }

  lemma AppendMatches(s: seq<Slot>, v: View, o: Output, memory: bool, t: seq<Slot>)
    requires WellFormed(s) && Matches(s, v)
    requires t == if s[0].data.None? && |s| >= 2 then s[0 := Slot(Some(o), false, true)]
                  else if memory then s[|s| - 1 := Slot(Some(o), false, s[|s| - 1].linked)] + [Slot(None, false, true)]
                  else s
    ensures Describes(With(v, Entry(o, false), memory), t)
  {
    EntriesAppended(s, o, memory);
    if s[0].data.None? && |s| >= 2 {
      HeadDescribed(s, v, o, t);
    } else if memory {
      TailDescribed(s, v, o, t);
    } else {
      assert v.entries != [] || !v.extended;
    }
  }

  lemma HeadDescribed(s: seq<Slot>, v: View, o: Output, t: seq<Slot>)
    requires WellFormed(s) && Describes(v, s) && s[0].data.None? && |s| >= 2
    requires WellFormed(t) && t == s[0 := Slot(Some(o), false, true)] && Entries(t) == Entries(s) + [Entry(o, false)]
    ensures Describes(With(v, Entry(o, false), true), t) && Describes(With(v, Entry(o, false), false), t)
  {
    assert v.entries == [] && |s| == 2;
    assert [] + [Entry(o, false)] == [Entry(o, false)];
  }

  lemma TailDescribed(s: seq<Slot>, v: View, o: Output, t: seq<Slot>)
    requires WellFormed(s) && Describes(v, s) && !(s[0].data.None? && |s| >= 2)
    requires WellFormed(t) && Entries(t) == Entries(s) + [Entry(o, false)]
    requires t == s[|s| - 1 := Slot(Some(o), false, s[|s| - 1].linked)] + [Slot(None, false, true)]
    ensures Describes(With(v, Entry(o, false), true), t)
  {
    assert |v.entries| == |s| - 1;
    var u := With(v, Entry(o, false), true);
    forall i | 0 <= i < |u.stale| ensures u.stale[i] == !t[i].linked {
      assert t[i].linked == s[i].linked;
    }
  }

  lemma SwitchMatches(s: seq<Slot>, v: View, output: Option<Output>, enable: bool)
    requires WellFormed(s) && Matches(s, v)
    ensures Matches(Switch(s, output, enable), Expect(v, Switched(output, enable)))
  {
    SwitchCorrect(s, output, enable);
    if output.Some? { FindIsIndexOf(s, output.value); }
  }

  lemma IndexAbsent(s: seq<Slot>, o: Option<Output>)
    requires WellFormed(s)
    ensures IndexOf(Entries(s), o) == if o.Some? then Find(s, o, 0) else None
    ensures IndexOf(Entries(s), o).None? <==> Absent(s, o)
  {
    if o.Some? { FindIsIndexOf(s, o.value); }
  }

  /** `t` and `u` are list and view with the newer output on the slot of the older one as well. */
  lemma MoveDescribed(s: seq<Slot>, v: View, older: Output, newer: Output, memory: bool, i: nat, j: nat,
                      t: seq<Slot>, u: View, r: Option<seq<Slot>>)
    requires WellFormed(s) && Matches(s, v)
    requires older != newer && HeldAt(s, Some(older), i) && HeldAt(s, Some(newer), j)
    requires i < |v.entries| && j < |v.entries|
    requires t == s[i := Slot(Some(newer), false, s[i].linked)]
    requires u == v.(entries := v.entries[i := Entry(newer, false)])
    requires r == Update(s, Some(older), Some(newer), memory)
    ensures r.Some? <==> !(if j > 0 then v.stale[j] else |v.entries| > 1 && v.stale[|v.entries| - 1])
    ensures r.Some? ==> Describes(Without(u, j), r.value)
  {
    assert i != j && t[j] == s[j];
    assert r == Finish(t[j := Slot(None, false, t[j].linked)]) by { UpdateMoves(s, older, newer, memory, i, j); }
    assert WellFormed(t) && Entries(t) == u.entries by { EntriesWritten(s, i, newer); }
    assert Describes(u, t) by { WrittenDescribed(s, v, i, t, u); }
    RemovalDescribed(t, u, j, r);
  }

  lemma WrittenDescribed(s: seq<Slot>, v: View, i: nat, t: seq<Slot>, u: View)
    requires WellFormed(s) && Describes(v, s) && i < |v.entries|
    requires WellFormed(t) && |t| == |s| && (forall k :: 0 <= k < |t| ==> t[k].linked == s[k].linked)
    requires Entries(t) == u.entries && u == v.(entries := u.entries) && |u.entries| == |v.entries|
    ensures Describes(u, t)
  {
  }

  /** Updates that take an output out, told from the view. */
  lemma RemovalMatches(s: seq<Slot>, v: View, older: Output, memory: bool, r: Option<seq<Slot>>)
    requires WellFormed(s) && Matches(s, v) && r == Update(s, Some(older), None, memory)
    ensures r.Some? <==> !Faults(v, Updated(Some(older), None, memory))
    ensures r.Some? ==> Describes(Expect(v, Updated(Some(older), None, memory)), r.value)
  {
    IndexAbsent(s, Some(older));
    var i := IndexOf(v.entries, Some(older));
    if i.Some? {
      UpdateRemoves(s, older, memory, i.value);
      RemovalDescribed(s, v, i.value, r);
    } else {
      UpdateNothing(s, older, memory);
    }
  }

  /** Updates that keep every output on its node or add one, told from the view. */
  lemma AdditionMatches(s: seq<Slot>, v: View, older: Option<Output>, newer: Output, memory: bool, r: seq<Slot>)
    requires WellFormed(s) && Matches(s, v) && Update(s, older, Some(newer), memory) == Some(r) && Distinct(r)
    requires older != Some(newer) && (IndexOf(v.entries, older).None? || IndexOf(v.entries, Some(newer)).None?)
    ensures Describes(Expect(v, Updated(older, Some(newer), memory)), r)
  {
    IndexAbsent(s, older);
    IndexAbsent(s, Some(newer));
    var i, j := IndexOf(v.entries, older), IndexOf(v.entries, Some(newer));
    if i.Some? || j.Some? {
      var k := if i.Some? then i.value else j.value;
      UpdateInPlace(s, older, newer, memory, k);
      InPlaceMatches(s, v, k, Entry(newer, false));
    } else {
      UpdateAppends(s, older, newer, memory);
      AppendMatches(s, v, newer, memory, r);
    }
  }

  /** One update, told from the view. */
  lemma UpdateMatches(s: seq<Slot>, v: View, older: Option<Output>, newer: Option<Output>, memory: bool,
                      r: Option<seq<Slot>>)
    requires WellFormed(s) && Matches(s, v) && r == Update(s, older, newer, memory)
    ensures r.Some? <==> !Faults(v, Updated(older, newer, memory))
    ensures r.Some? ==> Matches(r.value, Expect(v, Updated(older, newer, memory)))
  {
    if r.Some? {
      assert Distinct(r.value) by { UpdateOutputs(s, older, newer, memory); }
    }
    if older != newer {
      if newer.None? {
        RemovalMatches(s, v, older.value, memory, r);
      } else if IndexOf(v.entries, older).Some? && IndexOf(v.entries, newer).Some? {
        MoveMatches(s, v, older.value, newer.value, memory, r);
      } else {
        assert r.Some? && !Faults(v, Updated(older, newer, memory)) by { UpdateCorrect(s, older, newer, memory); }
        AdditionMatches(s, v, older, newer.value, memory, r.value);
      }
    }
  }

  /** Updates that move an output onto the node of another, told from the view. */
  lemma MoveMatches(s: seq<Slot>, v: View, older: Output, newer: Output, memory: bool, r: Option<seq<Slot>>)
    requires WellFormed(s) && Matches(s, v) && r == Update(s, Some(older), Some(newer), memory) && older != newer
    requires IndexOf(v.entries, Some(older)).Some? && IndexOf(v.entries, Some(newer)).Some?
    ensures r.Some? <==> !Faults(v, Updated(Some(older), Some(newer), memory))
    ensures r.Some? ==> Describes(Expect(v, Updated(Some(older), Some(newer), memory)), r.value)
  {
    IndexAbsent(s, Some(older));
    IndexAbsent(s, Some(newer));
    var i, j := IndexOf(v.entries, Some(older)).value, IndexOf(v.entries, Some(newer)).value;
    var t := s[i := Slot(Some(newer), false, s[i].linked)];
    var u := v.(entries := v.entries[i := Entry(newer, false)]);
    MoveDescribed(s, v, older, newer, memory, i, j, t, u, r);
  }

  /** No call of the run takes out an output whose node the calls before it left with a stale back link. */
  predicate NeverFaults(calls: seq<Call>) {
    calls == []
    || (NeverFaults(calls[..|calls| - 1]) && !Faults(Known(calls[..|calls| - 1]), calls[|calls| - 1]))
  }

  /**
   * Over every run, told from the calls alone: the run goes through if and only if no call takes out
   * an output whose node was left with a stale back link; the entries, and the nodes with a stale
   * back link, are then those the calls tell.
   */
  lemma {:induction false} RunKnown(calls: seq<Call>)
    ensures Run(calls).Some? <==> NeverFaults(calls)
    ensures Run(calls).Some? ==> Matches(Run(calls).value, Known(calls))
  {
    if calls != [] {
      RunKnown(calls[..|calls| - 1]);
      if Run(calls[..|calls| - 1]).Some? {
        StepMatches(Run(calls[..|calls| - 1]).value, Known(calls[..|calls| - 1]), calls[|calls| - 1]);
      }
    }
  }

  lemma StepMatches(s: seq<Slot>, v: View, c: Call)
    requires WellFormed(s) && Matches(s, v)
    ensures Step(s, c).Some? <==> !Faults(v, c)
    ensures Step(s, c).Some? ==> Matches(Step(s, c).value, Expect(v, c))
  {
    match c
    case Switched(output, enable) => SwitchMatches(s, v, output, enable);
    case Updated(older, newer, memory) => UpdateMatches(s, v, older, newer, memory, Update(s, older, newer, memory));
  }

  // ---------------------------------------------------------------- the registered outputs

  ghost predicate BothNew(older: Option<Output>, newer: Option<Output>, before: set<Output>) {
    AsSet(older) !! before && AsSet(newer) !! before
  }

  /**
   * The outputs a run has registered and not taken back.  A new output is left out if memory fails
   * while the list has no free head, which it has once it was emptied.
   */
  ghost function Registered(calls: seq<Call>): set<Output>
    decreases |calls|, 0
  {
    if calls == [] then {}
    else
      var earlier := calls[..|calls| - 1];
      var before := Registered(earlier);
      match calls[|calls| - 1]
      case Switched(_, _) => before
      case Updated(older, newer, memory) =>
        if older == newer then before
        else if !memory && !(before == {} && EverRegistered(earlier)) && BothNew(older, newer, before) then before
        else before - AsSet(older) + AsSet(newer)
  }

  ghost predicate EverRegistered(calls: seq<Call>)
    decreases |calls|, 1
  {
    calls != [] && (EverRegistered(calls[..|calls| - 1]) || Registered(calls) != {})
  }

  lemma OutputsIndex(es: seq<Entry>, o: Option<Output>)
    ensures AsSet(o) !! Outputs(es) <==> IndexOf(es, o).None?
    ensures Outputs(es) == {} <==> es == []
  {
    if IndexOf(es, o).Some? { assert es[IndexOf(es, o).value].output in Outputs(es); }
    if es != [] { assert es[0].output in Outputs(es); }
  }

  /** The outputs after one update that goes through, memory failing or not. */
  lemma UpdateRegisters(s: seq<Slot>, older: Option<Output>, newer: Option<Output>, memory: bool)
    requires WellFormed(s) && Distinct(s) && Update(s, older, newer, memory).Some? && older != newer
    ensures var t, before := Update(s, older, newer, memory).value, Outputs(Entries(s));
      && WellFormed(t)
      && Outputs(Entries(t)) ==
           if !HasRoom(s, memory) && BothNew(older, newer, before) then before
           else before - AsSet(older) + AsSet(newer)
  {
    UpdateOutputs(s, older, newer, memory);
    UpdateCorrect(s, older, newer, memory);
    OutputsIndex(Entries(s), older);
    OutputsIndex(Entries(s), newer);
    if !HasRoom(s, memory) {
      DistinctEntries(s);
      ExchangeOutputs(Entries(s), older, newer);
      ExchangeWithoutRoom(Entries(s), older, newer);
    }
  }

  /** What one call that goes through does to the registered outputs. */
  lemma StepRegisters(s: seq<Slot>, t: seq<Slot>, c: Call)
    requires WellFormed(s) && Distinct(s) && Step(s, c) == Some(t)
    ensures WellFormed(t)
    ensures var before := Outputs(Entries(s));
      Outputs(Entries(t)) ==
        if c.Switched? || c.older == c.newer then before
        else if !c.memory && !(before == {} && |s| >= 2) && BothNew(c.older, c.newer, before) then before
        else before - AsSet(c.older) + AsSet(c.newer)
  {
    match c
    case Switched(output, enable) => SwitchKeepsOutputs(s, output, enable);
    case Updated(older, newer, memory) =>
      OutputsIndex(Entries(s), None);
      if older != newer { UpdateRegisters(s, older, newer, memory); }
  }

  /** The list has a second node once an output was registered, and only then. */
  lemma {:induction false} RunExtended(calls: seq<Call>)
    requires Run(calls).Some?
    ensures WellFormed(Run(calls).value) && (|Run(calls).value| >= 2 <==> Known(calls).extended)
    ensures |Run(calls).value| == 1 ==> Outputs(Entries(Run(calls).value)) == {}
  {
    RunKnown(calls);
    OutputsIndex(Entries(Run(calls).value), None);
  }

  lemma ExtendedStep(v: View, c: Call)
    requires |v.entries| == |v.stale| && (v.entries != [] ==> v.extended)
    ensures Expect(v, c).extended <==> v.extended || Expect(v, c).entries != []
  {
  }

  /** Over every run, failing allocations included, the list holds exactly the registered outputs. */
  lemma {:induction false} RunOutputs(calls: seq<Call>)
    requires Run(calls).Some?
    ensures WellFormed(Run(calls).value) && Outputs(Entries(Run(calls).value)) == Registered(calls)
    ensures |Run(calls).value| >= 2 <==> EverRegistered(calls)
  {
    RunExtended(calls);
    if calls != [] {
      var earlier, c := calls[..|calls| - 1], calls[|calls| - 1];
      RunWellFormed(earlier);
      RunOutputs(earlier);
      RunExtended(earlier);
      StepRegisters(Run(earlier).value, Run(calls).value, c);
      RunKnown(earlier);
      RunKnown(calls);
      ExtendedStep(Known(earlier), c);
      OutputsIndex(Entries(Run(calls).value), None);
    }
  }

  lemma SwitchKeepsOutputs(s: seq<Slot>, output: Option<Output>, enable: bool)
    requires WellFormed(s) && Distinct(s)
    ensures WellFormed(Switch(s, output, enable)) && |Switch(s, output, enable)| == |s|
    ensures Outputs(Entries(Switch(s, output, enable))) == Outputs(Entries(s))
  {
    SwitchCorrect(s, output, enable);
    var a, b := Entries(s), Entries(Switch(s, output, enable));
    assert forall i :: 0 <= i < |a| ==> b[i].output == a[i].output;
  }
}
