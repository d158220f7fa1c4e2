/**
 * What updates and switches of the compositor output list add up to: the set of registered
 * outputs, their enable flags, and every run of calls (compositor-drm-help.c:815-942).
 */
module OutputRuns {
  import opened Options
  import opened OutputSlots

  ghost predicate NoDuplicates(es: seq<Entry>) {
    forall i, j :: 0 <= i < j < |es| ==> es[i].output != es[j].output
  }

  ghost function Outputs(es: seq<Entry>): set<Output> {
    set i | 0 <= i < |es| :: es[i].output
  }

  ghost function OutputsBut(es: seq<Entry>, k: nat): set<Output> {
    set i | 0 <= i < |es| && i != k :: es[i].output
  }

  ghost predicate DistinctBut(es: seq<Entry>, k: nat) {
    forall i, j :: 0 <= i < j < |es| && i != k && j != k ==> es[i].output != es[j].output
  }

  ghost function AsSet(o: Option<Output>): set<Output> {
    if o.None? then {} else {o.value}
  }

  /** Where position i of Drop(es, k) comes from. */
  function Origin(es: seq<Entry>, k: nat, i: nat): (at: nat)
    requires k < |es| && i < |es| - 1
    ensures at < |es| && at != k
  {
    if k == 0 then (if i == 0 then |es| - 1 else i) else if i < k then i else i + 1
  }

  /** Removing a position takes out that entry and no other; only a promoted entry changes. */
  lemma DropOutputs(es: seq<Entry>, k: nat)
    requires k < |es| && DistinctBut(es, k)
    ensures NoDuplicates(Drop(es, k))
    ensures Outputs(Drop(es, k)) == OutputsBut(es, k)
    ensures forall i :: 0 <= i < |es| - 1 ==>
      Drop(es, k)[i] == if k == 0 && i == 0 then Entry(es[|es| - 1].output, false) else es[Origin(es, k, i)]
  {
    var d := Drop(es, k);
    assert |d| == |es| - 1;
    assert forall i :: 0 <= i < |d| ==> d[i].output == es[Origin(es, k, i)].output;
    forall i | 0 <= i < |es| && i != k ensures es[i].output in Outputs(d) {
      var at := if k == 0 then (if i == |es| - 1 then 0 else i) else if i < k then i else i - 1;
      assert d[at].output == es[i].output;
    }
  }

  lemma OverwriteOutputs(es: seq<Entry>, k: nat, e: Entry)
    requires NoDuplicates(es) && k < |es|
    ensures Outputs(es[k := e]) == Outputs(es) - {es[k].output} + {e.output}
    ensures forall j :: 0 <= j < |es| && j != k ==>
      OutputsBut(es[k := e], j) == Outputs(es) - {es[k].output} - {es[j].output} + {e.output}
  {
    var t := es[k := e];
    assert t[k] == e && forall i :: 0 <= i < |es| && i != k ==> t[i] == es[i];
    assert e.output in Outputs(t);
    forall i | 0 <= i < |es| && i != k ensures es[i].output in Outputs(t) {
      assert t[i].output == es[i].output;
    }
    forall j | 0 <= j < |es| && j != k
      ensures OutputsBut(t, j) == Outputs(es) - {es[k].output} - {es[j].output} + {e.output}
    {
      assert t[k].output in OutputsBut(t, j);
      forall i | 0 <= i < |es| && i != k && i != j ensures es[i].output in OutputsBut(t, j) {
        assert t[i].output == es[i].output;
      }
    }
  }

  lemma AppendOutputs(es: seq<Entry>, e: Entry)
    ensures Outputs(es + [e]) == Outputs(es) + {e.output}
  {
    var t := es + [e];
    assert t[|es|] == e && forall i :: 0 <= i < |es| ==> t[i] == es[i];
    forall i | 0 <= i < |es| ensures es[i].output in Outputs(t) {
      assert t[i].output == es[i].output;
    }
    assert t[|es|].output in Outputs(t);
  }

  lemma ExchangeMoved(es: seq<Entry>, i: nat, j: nat, added: Entry)
    requires NoDuplicates(es) && i < |es| && j < |es| && i != j
    requires es[j].output == added.output && !added.enable
    ensures var r := Drop(es[i := added], j);
      NoDuplicates(r) && Outputs(r) == Outputs(es) - {es[i].output} + {added.output} && added in r
  {
    OverwriteOutputs(es, i, added);
    DropOutputs(es[i := added], j);
    DropKeeps(es[i := added], j, i);
  }

  /**
   * After an update the registered outputs are the old ones without `older` and with `newer`,
   * each once, and `newer` is disabled.
   */
  lemma ExchangeOutputs(es: seq<Entry>, older: Option<Output>, newer: Option<Output>)
    requires NoDuplicates(es) && older != newer
    ensures var r := Exchange(es, older, newer, true);
      && NoDuplicates(r)
      && Outputs(r) == Outputs(es) - AsSet(older) + AsSet(newer)
      && (newer.Some? ==> Entry(newer.value, false) in r)
  {
    var i, j := IndexOf(es, older), IndexOf(es, newer);
    var r := Exchange(es, older, newer, true);
    if newer.None? {
      if i.Some? { DropOutputs(es, i.value); }
    } else {
      var added := Entry(newer.value, false);
      if i.Some? && j.Some? {
        ExchangeMoved(es, i.value, j.value, added);
      } else if i.Some? || j.Some? {
        var k := if i.Some? then i.value else j.value;
        OverwriteOutputs(es, k, added);
        assert r[k] == added;
      } else {
        AppendOutputs(es, added);
        assert r[|es|] == added;
      }
    }
  }

  /** An entry not dropped is still there, disabled if it was promoted. */
  lemma DropKeeps(es: seq<Entry>, k: nat, i: nat)
    requires k < |es| && i < |es| && i != k
    ensures (if k == 0 && i == |es| - 1 then Entry(es[i].output, false) else es[i]) in Drop(es, k)
  {
    var at := if k == 0 then (if i == |es| - 1 then 0 else i) else if i < k then i else i - 1;
    assert Drop(es, k)[at] == if k == 0 && i == |es| - 1 then Entry(es[i].output, false) else es[i];
  }

  /** The entry of a promoted output: the last one, when the first is dropped. */
  ghost predicate Promoted(es: seq<Entry>, older: Option<Output>, newer: Option<Output>, o: Output) {
    && (newer.Some? ==> IndexOf(es, older).Some? && IndexOf(es, newer).Some?)
    && |es| > 1 && es[|es| - 1].output == o
    && Some(es[0].output) == if newer.Some? then newer else older
  }

  lemma FlagsMoved(es: seq<Entry>, i: nat, j: nat, k: nat, added: Entry)
    requires NoDuplicates(es) && i < |es| && j < |es| && k < |es| && i != j && k != i
    requires es[j].output == added.output && !added.enable
    ensures (if k == j then added
             else if j == 0 && k == |es| - 1 then Entry(es[k].output, false)
             else es[k]) in Drop(es[i := added], j)
  {
    DropKeeps(es[i := added], j, if k == j then i else k);
  }

  /**
   * An output that stays registered keeps its flag, with two exceptions: `newer` itself, and the
   * output promoted into the head, which comes out disabled.
   */
  lemma ExchangeFlags(es: seq<Entry>, older: Option<Output>, newer: Option<Output>, memory: bool, o: Output,
                      enable: bool)
    requires NoDuplicates(es) && older != newer
    requires Entry(o, enable) in es && Some(o) != older
    ensures Entry(o, if Some(o) == newer || Promoted(es, older, newer, o) then false else enable)
            in Exchange(es, older, newer, memory)
  {
    var i, j := IndexOf(es, older), IndexOf(es, newer);
    var r := Exchange(es, older, newer, memory);
    var k :| 0 <= k < |es| && es[k] == Entry(o, enable);
    assert forall m :: 0 <= m < |es| ==> (es[m].output == o <==> m == k);
    if newer.None? {
      if i.Some? { DropKeeps(es, i.value, k); }
    } else {
      var added := Entry(newer.value, false);
      if i.Some? && j.Some? {
        assert es[i.value].output != o && (es[j.value].output == o <==> Some(o) == newer);
        assert Some(es[0].output) == newer <==> j.value == 0;
        assert Promoted(es, older, newer, o) <==> |es| > 1 && j.value == 0 && k == |es| - 1;
        FlagsMoved(es, i.value, j.value, k, added);
        assert r == Drop(es[i.value := added], j.value);
      } else if i.Some? || j.Some? {
        var at := if i.Some? then i.value else j.value;
        assert r[at] == added && (k != at ==> r[k] == es[k]);
      } else if memory {
        assert r[k] == es[k];
      }
    }
  }

  /** A switch changes the flag of the named output, if registered, and nothing else. */
  lemma SwitchCorrect(s: seq<Slot>, output: Option<Output>, enable: bool)
    requires WellFormed(s) && Distinct(s)
    ensures var t := Switch(s, output, enable);
      && WellFormed(t) && Distinct(t)
      && |Entries(t)| == |Entries(s)|
      && (forall i :: 0 <= i < |s| ==> t[i].linked == s[i].linked)
      && (forall i :: 0 <= i < |Entries(s)| ==>
            Entries(t)[i] ==
              if Some(Entries(s)[i].output) == output then Entries(s)[i].(enable := enable) else Entries(s)[i])
  {
    if output.Some? {
      FindIsIndexOf(s, output.value);
    }
  }

  lemma DistinctEntries(s: seq<Slot>)
    requires WellFormed(s)
    ensures Distinct(s) <==> NoDuplicates(Entries(s))
  {
    var es := Entries(s);
    assert forall i :: 0 <= i < |es| ==> s[i].data == Some(es[i].output);
    if Distinct(s) {
      forall i, j | 0 <= i < j < |es| ensures es[i].output != es[j].output {
        assert s[i].data != s[j].data;
      }
    }
  }

  // ---------------------------------------------------------------- runs

  datatype Call =
    | Updated(older: Option<Output>, newer: Option<Output>, memory: bool)
    | Switched(output: Option<Output>, enable: bool)

  function Step(s: seq<Slot>, c: Call): Option<seq<Slot>>
    requires |s| >= 1
  {
    match c
    case Updated(older, newer, memory) => Update(s, older, newer, memory)
    case Switched(output, enable) => Some(Switch(s, output, enable))
  }

  /** The list before the first call: the static head alone (compositor-drm-help.c:123). */
  const START: seq<Slot> := [Slot(None, false, true)]

  /** The list after a run; None once a call has followed a link into a freed node. */
  function Run(calls: seq<Call>): (r: Option<seq<Slot>>)
    ensures r.Some? ==> |r.value| >= 1
  {
    if calls == [] then Some(START)
    else match Run(calls[..|calls| - 1])
      case None => None
      case Some(s) => Step(s, calls[|calls| - 1])
  }

  /** Over every run, as far as it goes: one empty tail, no gaps, each output at most once. */
  lemma {:induction false} RunWellFormed(calls: seq<Call>)
    requires Run(calls).Some?
    ensures WellFormed(Run(calls).value) && Distinct(Run(calls).value)
  {
    if calls != [] {
      RunWellFormed(calls[..|calls| - 1]);
      StepWellFormed(Run(calls[..|calls| - 1]).value, calls[|calls| - 1]);
    }
  }

  lemma StepWellFormed(s: seq<Slot>, c: Call)
    requires WellFormed(s) && Distinct(s) && Step(s, c).Some?
    ensures WellFormed(Step(s, c).value) && Distinct(Step(s, c).value)
  {
    match c
    case Switched(output, enable) => SwitchCorrect(s, output, enable);
    case Updated(older, newer, memory) =>
      UpdateCorrect(s, older, newer, memory);
      UpdateOutputs(s, older, newer, memory);
  }

  /** The registered outputs after one update that goes through. */
  lemma UpdateOutputs(s: seq<Slot>, older: Option<Output>, newer: Option<Output>, memory: bool)
    requires WellFormed(s) && Distinct(s) && Update(s, older, newer, memory).Some?
    ensures var t := Update(s, older, newer, memory).value;
      && WellFormed(t) && Distinct(t)
      && (older != newer && HasRoom(s, memory) ==>
          Outputs(Entries(t)) == Outputs(Entries(s)) - AsSet(older) + AsSet(newer))
  {
    UpdateCorrect(s, older, newer, memory);
    DistinctEntries(s);
    var t := Update(s, older, newer, memory).value;
    DistinctEntries(t);
    if older != newer {
      ExchangeOutputs(Entries(s), older, newer);
      if !HasRoom(s, memory) { ExchangeWithoutRoom(Entries(s), older, newer); }
    }
  }

  lemma ExchangeWithoutRoom(es: seq<Entry>, older: Option<Output>, newer: Option<Output>)
    requires older != newer
    ensures Exchange(es, older, newer, false) ==
      if newer.Some? && IndexOf(es, older).None? && IndexOf(es, newer).None? then es
      else Exchange(es, older, newer, true)
  {
  }

  /** No call of the run moves the last output into the head. */
  ghost predicate NeverPromotes(calls: seq<Call>) {
    forall i :: 0 <= i < |calls| && calls[i].Updated? && Run(calls[..i]).Some? && WellFormed(Run(calls[..i]).value) ==>
      !Promotes(Run(calls[..i]).value, calls[i].older, calls[i].newer)
  }

  /** A run without a promotion never follows a link into a freed node. */
  lemma {:induction false} RunWithoutPromotion(calls: seq<Call>)
    requires NeverPromotes(calls)
    ensures Run(calls).Some? && AllLinked(Run(calls).value)
  {
    if calls != [] {
      var n := |calls| - 1;
      var earlier, c := calls[..n], calls[n];
      forall i | 0 <= i < n ensures earlier[..i] == calls[..i] {}
      RunWithoutPromotion(earlier);
      RunWellFormed(earlier);
      var s := Run(earlier).value;
      match c
      case Switched(output, enable) => SwitchCorrect(s, output, enable);
      case Updated(older, newer, memory) => UpdateCorrect(s, older, newer, memory);
    }
  }

  /**
   * The one call that goes wrong: a run that has gone well so far goes on exactly when the next
   * call unlinks no node whose back link names a freed one.
   */
  lemma RunGoesOn(calls: seq<Call>, c: Call)
    requires Run(calls).Some?
    ensures WellFormed(Run(calls).value)
    ensures Run(calls + [c]).Some? <==>
      c.Switched? || var u := Unlinked(Run(calls).value, c.older, c.newer);
                     u.None? || Run(calls).value[u.value].linked
  {
    RunWellFormed(calls);
    assert (calls + [c])[..|calls|] == calls;
    if c.Updated? { UpdateCorrect(Run(calls).value, c.older, c.newer, c.memory); }
  }

  lemma RunThen(calls: seq<Call>, s: seq<Slot>, c: Call)
    requires Run(calls) == Some(s)
    ensures |s| >= 1 && Run(calls + [c]) == Step(s, c)
  {
    assert (calls + [c])[..|calls|] == calls;
  }

  /** Taking the first of two outputs away moves the second into the head. */
  lemma PromoteSecond(a: Output, b: Output, linked: bool)
    requires a != b
    ensures Update([Slot(Some(a), false, true), Slot(Some(b), false, linked), Slot(None, false, true)],
                   Some(a), None, true)
      == if linked then Some([Slot(Some(b), false, true), Slot(None, false, false)]) else None
  {
    var s := [Slot(Some(a), false, true), Slot(Some(b), false, linked), Slot(None, false, true)];
    UpdateRemoves(s, a, true, 0);
    var t := s[0 := Slot(None, false, true)];
    ShrinkNothing(t, 1);
    if linked {
      assert Promote(t).value == [Slot(Some(b), false, true), Slot(None, false, false)];
    }
  }

  /** Registering a second output turns the tail, with its back link, into that output's node. */
  lemma AppendSecond(a: Output, b: Output, linked: bool)
    requires a != b
    ensures Update([Slot(Some(a), false, true), Slot(None, false, linked)], None, Some(b), true)
      == Some([Slot(Some(a), false, true), Slot(Some(b), false, linked), Slot(None, false, true)])
  {
    var s := [Slot(Some(a), false, true), Slot(None, false, linked)];
    UpdateAppends(s, None, b, true);
    assert s[1 := Slot(Some(b), false, linked)] + [Slot(None, false, true)]
        == [Slot(Some(a), false, true), Slot(Some(b), false, linked), Slot(None, false, true)];
  }

  lemma AppendFirst(a: Output)
    ensures Update(START, None, Some(a), true) == Some([Slot(Some(a), false, true), Slot(None, false, true)])
  {
    UpdateAppends(START, None, a, true);
    assert START[0 := Slot(Some(a), false, true)] + [Slot(None, false, true)]
        == [Slot(Some(a), false, true), Slot(None, false, true)];
  }

  /** Registering two outputs and taking the first one away. */
  lemma RunPromotes(a: Output, b: Output)
    requires a != b
    ensures Run([Updated(None, Some(a), true)] + [Updated(None, Some(b), true)] + [Updated(Some(a), None, true)])
      == Some([Slot(Some(b), false, true), Slot(None, false, false)])
  {
    var c1, c2, c3 := Updated(None, Some(a), true), Updated(None, Some(b), true), Updated(Some(a), None, true);
    AppendFirst(a);
    RunThen([], START, c1);
    assert [] + [c1] == [c1];
    AppendSecond(a, b, true);
    RunThen([c1], [Slot(Some(a), false, true), Slot(None, false, true)], c2);
    PromoteSecond(a, b, true);
    RunThen([c1] + [c2], [Slot(Some(a), false, true), Slot(Some(b), false, true), Slot(None, false, true)], c3);
  }

  /**
   * Promotion leaves the tail's back link on the freed node.  Registering two outputs, removing
   * the first, registering a third and removing the head again makes the second promotion follow
   * that link.
   */
  lemma RunCanGoWrong(a: Output, b: Output, c: Output)
    requires a != b && a != c && b != c
    ensures Run([Updated(None, Some(a), true)] + [Updated(None, Some(b), true)] + [Updated(Some(a), None, true)]
                + [Updated(None, Some(c), true)] + [Updated(Some(b), None, true)]).None?
  {
    var r3 := [Updated(None, Some(a), true)] + [Updated(None, Some(b), true)] + [Updated(Some(a), None, true)];
    var s3 := [Slot(Some(b), false, true), Slot(None, false, false)];
    var s4 := [Slot(Some(b), false, true), Slot(Some(c), false, false), Slot(None, false, true)];
    RunPromotes(a, b);
    AppendSecond(b, c, false);
    RunThen(r3, s3, Updated(None, Some(c), true));
    PromoteSecond(b, c, false);
    RunThen(r3 + [Updated(None, Some(c), true)], s4, Updated(Some(b), None, true));
  }
}
