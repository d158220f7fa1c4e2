/**
 * The compositor output list seen as a sequence of slots, front to back, the empty tail
 * included (compositor-drm-help.c:96-102, 815-942).
 *
 * A slot is what one list node holds.  `linked` says whether the node's back link names its
 * predecessor; it is false when the back link still names a node that has been freed.
 */
module OutputSlots {
  import opened Options

  /** The address of a compositor output; NULL is None. */
  type Output = nat

  datatype Slot = Slot(data: Option<Output>, enable: bool, linked: bool)

  /** What a caller of the helper can see of one registered output. */
  datatype Entry = Entry(output: Output, enable: bool)

  // ---------------------------------------------------------------- list shape

  /** The list as every call leaves it: outputs first, without gaps, then one empty tail. */
  ghost predicate WellFormed(s: seq<Slot>) {
    && |s| >= 1
    && s[0].linked
    && s[|s| - 1].data.None?
    && (forall i :: 0 < i < |s| - 1 ==> s[i].data.Some?)
    && (|s| >= 3 ==> s[0].data.Some?)
    && (forall i :: 0 <= i < |s| && s[i].enable ==> s[i].data.Some?)
  }

  ghost predicate Distinct(s: seq<Slot>) {
    forall i, j :: 0 <= i < j < |s| && s[i].data.Some? ==> s[i].data != s[j].data
  }

  /** How many outputs a well-formed list holds. */
  function Count(s: seq<Slot>): (n: nat)
    requires WellFormed(s)
    ensures n <= |s| - 1
    ensures forall i :: 0 <= i < n ==> s[i].data.Some?
    ensures forall i :: n <= i < |s| ==> s[i].data.None?
  {
    if s[0].data.None? then 0 else |s| - 1
  }

  /** The registered outputs, in list order. */
  function Entries(s: seq<Slot>): (es: seq<Entry>)
    requires WellFormed(s)
    ensures |es| == Count(s)
    ensures forall i :: 0 <= i < |es| ==> s[i].data == Some(es[i].output) && s[i].enable == es[i].enable
  {
    seq(Count(s), i requires 0 <= i < Count(s) => Entry(s[i].data.value, s[i].enable))
  }

  // ---------------------------------------------------------------- the passes of one update

  /** First position at or after `from`, tail excluded, whose slot holds `d`. */
  function Find(s: seq<Slot>, d: Option<Output>, from: nat): (r: Option<nat>)
    requires |s| >= 1 && from <= |s| - 1
    ensures r.Some? ==> from <= r.value < |s| - 1 && s[r.value].data == d
    ensures r.Some? ==> forall i :: from <= i < r.value ==> s[i].data != d
    ensures r.None? ==> forall i :: from <= i < |s| - 1 ==> s[i].data != d
    decreases |s| - from
  {
    if from == |s| - 1 then None
    else if s[from].data == d then Some(from)
    else Find(s, d, from + 1)
  }

  datatype Cleared = Cleared(slots: seq<Slot>, at: Option<nat>)

  /**
   * Empties every slot holding `newer` other than the one to be updated; when none was chosen
   * yet, the first slot holding `newer` becomes the chosen one.
   */
  function ClearOthers(s: seq<Slot>, newer: Option<Output>, at: Option<nat>, from: nat): (r: Cleared)
    requires |s| >= 1 && from <= |s| - 1
    ensures |r.slots| == |s|
    ensures at.Some? ==> r.at == at
    ensures at.None? && r.at.Some? ==> r.at.value < |s| - 1
    decreases |s| - from
  {
    if from == |s| - 1 then Cleared(s, at)
    else if s[from].data != newer then ClearOthers(s, newer, at, from + 1)
    else if at.None? then ClearOthers(s, newer, Some(from), from + 1)
    else if at == Some(from) then ClearOthers(s, newer, at, from + 1)
    else ClearOthers(s[from := s[from].(data := None, enable := false)], newer, at, from + 1)
  }

  /** What the pass leaves: the chosen slot keeps the newer output, and no other slot does. */
  lemma {:induction false} ClearOthersIs(s: seq<Slot>, newer: Option<Output>, at: Option<nat>, from: nat)
    requires |s| >= 1 && from <= |s| - 1
    ensures var r := ClearOthers(s, newer, at, from);
      && r.at == (if at.Some? then at else Find(s, newer, from))
      && forall k :: 0 <= k < |s| ==>
           r.slots[k] == if from <= k < |s| - 1 && s[k].data == newer && r.at != Some(k)
                         then s[k].(data := None, enable := false) else s[k]
    decreases |s| - from
  {
    if from < |s| - 1 {
      if s[from].data != newer || at == Some(from) {
        ClearOthersIs(s, newer, at, from + 1);
      } else if at.None? {
        ClearOthersIs(s, newer, Some(from), from + 1);
      } else {
        ClearOthersIs(s[from := s[from].(data := None, enable := false)], newer, at, from + 1);
      }
    }
  }

  /** Where the newer output goes: the chosen slot, else the first empty one, else the tail. */
  function Seek(s: seq<Slot>, at: Option<nat>): (pos: nat)
    requires |s| >= 1
    requires at.Some? ==> at.value < |s| - 1
    ensures pos < |s|
  {
    if at.Some? then at.value
    else if Find(s, None, 0).Some? then Find(s, None, 0).value
    else |s| - 1
  }

  /** Writes the newer output; a list without room first gets a fresh empty tail. */
  function Place(s: seq<Slot>, newer: Option<Output>, pos: nat): (r: seq<Slot>)
    requires pos < |s|
  {
    var written := s[pos := s[pos].(data := newer, enable := false)];
    if pos == |s| - 1 && newer.Some? then written + [Slot(None, false, true)] else written
  }

  /**
   * Unlinks every empty slot between head and tail.  None when a slot to unlink has a back link
   * that names a freed node.
   */
  function Shrink(s: seq<Slot>, from: nat): (r: Option<seq<Slot>>)
    requires 1 <= from <= |s|
    ensures r.Some? ==> |r.value| >= 1
    decreases |s| - from
  {
    if from >= |s| - 1 then Some(s)
    else if s[from].data.Some? then Shrink(s, from + 1)
    else if !s[from].linked then None
    else Shrink(Unlink(s, from), from)
  }

  function Unlink(s: seq<Slot>, k: nat): (r: seq<Slot>)
    requires k + 1 < |s|
  {
    s[..k] + [s[k + 1].(linked := true)] + s[k + 2..]
  }

  /**
   * Moves the last output into an empty head.  The head keeps its own enable flag and the tail
   * keeps naming the moved node, which is freed.
   */
  function Promote(s: seq<Slot>): (r: Option<seq<Slot>>)
    requires |s| >= 1
    ensures r.Some? ==> |r.value| >= 1
  {
    var last := |s| - 2;
    if s[0].data.Some? || last < 1 then Some(s)
    else if !s[last].linked then None
    else Some([s[0].(data := s[last].data)] + s[1..last] + [s[last + 1].(linked := false)])
  }

  /** The last two passes. */
  function Finish(s: seq<Slot>): (r: Option<seq<Slot>>)
    requires |s| >= 1
    ensures r.Some? ==> |r.value| >= 1
  {
    match Shrink(s, 1)
    case None => None
    case Some(t) => Promote(t)
  }

  /**
   * One call of help_updata_compositor_output.  `memory` is whether calloc succeeds.
   * None: the call follows a back link into a freed node.
   */
  function Update(s: seq<Slot>, older: Option<Output>, newer: Option<Output>, memory: bool): (r: Option<seq<Slot>>)
    requires |s| >= 1
    ensures r.Some? ==> |r.value| >= 1
  {
    if older == newer then Some(s)
    else
      var found := Find(s, if older.None? then newer else older, 0);
      var cleared := ClearOthers(s, newer, found, 0);
      var pos := Seek(cleared.slots, cleared.at);
      if pos == |s| - 1 && newer.Some? && !memory then Some(cleared.slots)
      else Finish(Place(cleared.slots, newer, pos))
  }

  /** One call of help_switch_compositor_output. */
  function Switch(s: seq<Slot>, output: Option<Output>, enable: bool): (r: seq<Slot>)
    requires |s| >= 1
  {
    if output.None? then s
    else
      match Find(s, output, 0)
      case None => s
      case Some(i) => s[i := s[i].(enable := enable)]
  }

  // ---------------------------------------------------------------- what an update means

  /** Position of an output among the entries. */
  function IndexOf(es: seq<Entry>, o: Option<Output>): (r: Option<nat>)
    ensures r.Some? ==> r.value < |es| && Some(es[r.value].output) == o
    ensures r.Some? ==> forall i :: 0 <= i < r.value ==> Some(es[i].output) != o
    ensures r.None? ==> forall i :: 0 <= i < |es| ==> Some(es[i].output) != o
  {
    if es == [] then None
    else if Some(es[0].output) == o then Some(0)
    else match IndexOf(es[1..], o) case None => None case Some(i) => Some(i + 1)
  }

  /** Removal of one output: the last one takes the place of the first, disabled. */
  function Drop(es: seq<Entry>, k: nat): (r: seq<Entry>)
    requires k < |es|
  {
    if k > 0 then es[..k] + es[k + 1..]
    else if |es| == 1 then []
    else [Entry(es[|es| - 1].output, false)] + es[1..|es| - 1]
  }

  /** The documented effect of one update, on entries alone. */
  function Exchange(es: seq<Entry>, older: Option<Output>, newer: Option<Output>, memory: bool): seq<Entry> {
    var i, j := IndexOf(es, older), IndexOf(es, newer);
    if older == newer then es
    else if newer.None? then
      if i.Some? then Drop(es, i.value) else es
    else
      var added := Entry(newer.value, false);
      if i.Some? && j.Some? then Drop(es[i.value := added], j.value)
      else if i.Some? then es[i.value := added]
      else if j.Some? then es[j.value := added]
      else if memory then es + [added]
      else es
  }

  /** The position a call takes out of the list, if any. */
  function Gone(es: seq<Entry>, older: Option<Output>, newer: Option<Output>): (r: Option<nat>)
    ensures r.Some? ==> r.value < |es|
  {
    if older == newer || IndexOf(es, older).None? then None
    else if newer.None? then IndexOf(es, older)
    else IndexOf(es, newer)
  }

  /** The position whose node a call unlinks and frees, if any: the last one for a promotion. */
  function Unlinked(s: seq<Slot>, older: Option<Output>, newer: Option<Output>): (r: Option<nat>)
    requires WellFormed(s)
    ensures r.Some? ==> 0 < r.value < |s| - 1
  {
    match Gone(Entries(s), older, newer)
    case None => None
    case Some(k) => if k > 0 then Some(k) else if |s| >= 3 then Some(|s| - 2) else None
  }

  /** Whether a call moves the last output into the head. */
  predicate Promotes(s: seq<Slot>, older: Option<Output>, newer: Option<Output>)
    requires WellFormed(s)
  {
    Gone(Entries(s), older, newer) == Some(0) && |s| >= 3
  }

  /** Every back link names the predecessor. */
  ghost predicate AllLinked(s: seq<Slot>) {
    forall i :: 0 <= i < |s| ==> s[i].linked
  }

  // ---------------------------------------------------------------- proofs

  lemma FindIsIndexOf(s: seq<Slot>, o: Output)
    requires WellFormed(s)
    ensures Find(s, Some(o), 0) == IndexOf(Entries(s), Some(o))
  {
    var es := Entries(s);
    var f, x := Find(s, Some(o), 0), IndexOf(es, Some(o));
    if f.Some? { assert Some(es[f.value].output) == Some(o); }
    if x.Some? { assert s[x.value].data == Some(o); }
  }

  lemma {:induction false} ShrinkNothing(s: seq<Slot>, from: nat)
    requires 1 <= from <= |s|
    requires forall i :: from <= i < |s| - 1 ==> s[i].data.Some?
    ensures Shrink(s, from) == Some(s)
    decreases |s| - from
  {
    if from < |s| - 1 { ShrinkNothing(s, from + 1); }
  }

  lemma {:induction false} ShrinkOne(s: seq<Slot>, from: nat, k: nat)
    requires 1 <= from <= k < |s| - 1
    requires forall i :: from <= i < |s| - 1 ==> (s[i].data.None? <==> i == k)
    ensures Shrink(s, from) == if s[k].linked then Some(Unlink(s, k)) else None
    decreases |s| - from
  {
    if from < k {
      ShrinkOne(s, from + 1, k);
    } else if s[k].linked {
      ShrinkNothing(Unlink(s, k), k);
    }
  }

  /** The passes that tidy up leave a well-formed list as it is. */
  lemma FinishNothing(s: seq<Slot>)
    requires WellFormed(s)
    ensures Finish(s) == Some(s)
  {
    ShrinkNothing(s, 1);
  }

  predicate Absent(s: seq<Slot>, o: Option<Output>)
    requires |s| >= 1
  {
    o.None? || Find(s, o, 0).None?
  }

  predicate HeldAt(s: seq<Slot>, o: Option<Output>, i: nat)
    requires |s| >= 1
  {
    o.Some? && Find(s, o, 0) == Some(i)
  }

  /** A pass that finds nothing to clear and ends with slot i chosen. */
  lemma ClearsNothing(s: seq<Slot>, newer: Output, found: Option<nat>, i: nat)
    requires WellFormed(s) && Distinct(s)
    requires (found == Some(i) && Absent(s, Some(newer))) || (found == None && HeldAt(s, Some(newer), i))
          || (found == Some(i) && HeldAt(s, Some(newer), i))
    ensures ClearOthers(s, Some(newer), found, 0) == Cleared(s, Some(i))
  {
    ClearOthersIs(s, Some(newer), found, 0);
    var r := ClearOthers(s, Some(newer), found, 0);
    assert r.at == Some(i);
    assert r.slots == s;
  }

  /** An update that overwrites one slot and leaves every other alone. */
  lemma UpdateInPlace(s: seq<Slot>, older: Option<Output>, newer: Output, memory: bool, i: nat)
    requires WellFormed(s) && Distinct(s)
    requires older != Some(newer)
    requires || (HeldAt(s, older, i) && Absent(s, Some(newer)))
             || (Absent(s, older) && HeldAt(s, Some(newer), i))
    ensures Update(s, older, Some(newer), memory) == Some(s[i := Slot(Some(newer), false, s[i].linked)])
  {
    var found := Find(s, if older.None? then Some(newer) else older, 0);
    ClearsNothing(s, newer, found, i);
    PlaceInPlace(s, newer, i, s[i := Slot(Some(newer), false, s[i].linked)]);
  }

  lemma PlaceInPlace(s: seq<Slot>, newer: Output, i: nat, t: seq<Slot>)
    requires WellFormed(s) && i < |s| - 1 && s[i].data.Some? && t == s[i := Slot(Some(newer), false, s[i].linked)]
    ensures Finish(Place(s, Some(newer), i)) == Some(t)
  {
    assert Place(s, Some(newer), i) == t;
    assert WellFormed(t);
    FinishNothing(t);
  }

  /** An update that registers an output when neither argument is in the list. */
  lemma UpdateAppends(s: seq<Slot>, older: Option<Output>, newer: Output, memory: bool)
    requires WellFormed(s) && Distinct(s)
    requires older != Some(newer) && Absent(s, older) && Absent(s, Some(newer))
    ensures Update(s, older, Some(newer), memory) == Some(
        if s[0].data.None? && |s| >= 2 then s[0 := Slot(Some(newer), false, true)]
        else if memory then s[|s| - 1 := Slot(Some(newer), false, s[|s| - 1].linked)] + [Slot(None, false, true)]
        else s)
  {
    var found := Find(s, if older.None? then Some(newer) else older, 0);
    assert found.None?;
    ClearOthersIs(s, Some(newer), found, 0);
    var cleared := ClearOthers(s, Some(newer), found, 0);
    assert cleared.at.None?;
    assert cleared.slots == s;
    var pos := Seek(s, None);
    assert pos == if s[0].data.None? && |s| >= 2 then 0 else |s| - 1;
    if pos < |s| - 1 || memory {
      FinishNothing(Place(s, Some(newer), pos));
    }
  }

  /** Unlinking the emptied slot k leaves the list without that entry. */
  lemma UnlinkDrops(s: seq<Slot>, t: seq<Slot>, k: nat)
    requires WellFormed(s) && 0 < k < Count(s) && t == s[k := Slot(None, false, s[k].linked)]
    ensures var r := Unlink(t, k);
      && WellFormed(r) && Entries(r) == Entries(s)[..k] + Entries(s)[k + 1..]
      && (AllLinked(s) ==> AllLinked(r))
  {
    var r := Unlink(t, k);
    assert |r| == |s| - 1;
    assert forall i :: 0 <= i < |r| ==>
      r[i].data == s[if i < k then i else i + 1].data && r[i].enable == s[if i < k then i else i + 1].enable;
    assert forall i :: 0 <= i < |r| && i != k ==> r[i].linked == s[if i < k then i else i + 1].linked;
    assert WellFormed(r);
  }

  /** Moving the last output into the emptied head. */
  lemma PromoteDrops(s: seq<Slot>, t: seq<Slot>)
    requires WellFormed(s) && s[0].data.Some? && t == s[0 := Slot(None, false, s[0].linked)]
    ensures Promote(t).Some? <==> |s| == 2 || s[|s| - 2].linked
    ensures Promote(t).Some? ==> WellFormed(Promote(t).value) && Entries(Promote(t).value) == Drop(Entries(s), 0)
    ensures Promote(t).Some? && AllLinked(s) ==> (AllLinked(Promote(t).value) <==> |s| == 2)
  {
    if |s| > 2 && s[|s| - 2].linked {
      var r := Promote(t).value;
      assert |r| == |s| - 1 && r[|r| - 1] == t[|s| - 1].(linked := false);
      assert forall i :: 1 <= i < |r| - 1 ==> r[i] == s[i];
      assert r[0] == Slot(s[|s| - 2].data, false, s[0].linked);
      assert WellFormed(r);
    }
  }

  /** Clearing one slot of a well-formed list and tidying up. */
  lemma FinishDrop(s: seq<Slot>, k: nat)
    requires WellFormed(s) && k < Count(s)
    ensures var r := Finish(s[k := Slot(None, false, s[k].linked)]);
      var u := if k > 0 then k else |s| - 2;
      && (r.Some? <==> u == 0 || s[u].linked)
      && (r.Some? ==> WellFormed(r.value) && Entries(r.value) == Drop(Entries(s), k))
      && (r.Some? && AllLinked(s) ==> (AllLinked(r.value) <==> k > 0 || |s| == 2))
  {
    var t := s[k := Slot(None, false, s[k].linked)];
    if k > 0 {
      ShrinkOne(t, 1, k);
      UnlinkDrops(s, t, k);
      HeadStays(Unlink(t, k));
    } else {
      ShrinkNothing(t, 1);
      PromoteDrops(s, t);
    }
  }

  lemma HeadStays(s: seq<Slot>)
    requires |s| >= 1 && s[0].data.Some?
    ensures Promote(s) == Some(s)
  {
  }

  /** An update that only removes. */
  lemma UpdateRemoves(s: seq<Slot>, older: Output, memory: bool, k: nat)
    requires WellFormed(s) && Distinct(s) && HeldAt(s, Some(older), k)
    ensures Update(s, Some(older), None, memory) == Finish(s[k := Slot(None, false, s[k].linked)])
  {
    ClearOthersIs(s, None, Some(k), 0);
    var cleared := ClearOthers(s, None, Some(k), 0);
    assert cleared.slots == s;
  }

  /** An update that moves the newer output onto the slot of the older one. */
  lemma UpdateMoves(s: seq<Slot>, older: Output, newer: Output, memory: bool, i: nat, j: nat)
    requires WellFormed(s) && Distinct(s)
    requires older != newer && HeldAt(s, Some(older), i) && HeldAt(s, Some(newer), j)
    ensures var t := s[i := Slot(Some(newer), false, s[i].linked)];
      && WellFormed(t)
      && Update(s, Some(older), Some(newer), memory) == Finish(t[j := Slot(None, false, s[j].linked)])
  {
    var t := s[i := Slot(Some(newer), false, s[i].linked)];
    ClearOthersIs(s, Some(newer), Some(i), 0);
    var cleared := ClearOthers(s, Some(newer), Some(i), 0);
    assert cleared.slots == s[j := Slot(None, false, s[j].linked)];
    assert Place(cleared.slots, Some(newer), i) == t[j := Slot(None, false, s[j].linked)];
  }

  /** A removal of something that is not there. */
  lemma UpdateNothing(s: seq<Slot>, older: Output, memory: bool)
    requires WellFormed(s) && Distinct(s) && Absent(s, Some(older))
    ensures Update(s, Some(older), None, memory) == Some(s)
  {
    ClearOthersIs(s, None, None, 0);
    var cleared := ClearOthers(s, None, None, 0);
    assert cleared.slots == s;
    var pos := Seek(s, cleared.at);
    assert Place(s, None, pos) == s;
    FinishNothing(s);
  }

  lemma EntriesWritten(s: seq<Slot>, i: nat, o: Output)
    requires WellFormed(s) && i < Count(s)
    ensures var t := s[i := Slot(Some(o), false, s[i].linked)];
      WellFormed(t) && Entries(t) == Entries(s)[i := Entry(o, false)] && (AllLinked(s) ==> AllLinked(t))
  {
  }

  lemma EntriesAppended(s: seq<Slot>, o: Output, memory: bool)
    requires WellFormed(s)
    ensures var t := if s[0].data.None? && |s| >= 2 then s[0 := Slot(Some(o), false, true)]
                     else if memory
                     then s[|s| - 1 := Slot(Some(o), false, s[|s| - 1].linked)] + [Slot(None, false, true)]
                     else s;
      && WellFormed(t) && (AllLinked(s) ==> AllLinked(t))
      && Entries(t) == if memory || (s[0].data.None? && |s| >= 2) then Entries(s) + [Entry(o, false)] else Entries(s)
  {
  }

  /**
   * The update goes through exactly when the node it unlinks, if any, has a good back link; the
   * list is then well formed again and holds exactly the entries the documented effect names.
   */
  ghost predicate Meets(s: seq<Slot>, older: Option<Output>, newer: Option<Output>, memory: bool)
    requires WellFormed(s)
  {
    var r, u := Update(s, older, newer, memory), Unlinked(s, older, newer);
    && (r.Some? <==> u.None? || s[u.value].linked)
    && (r.Some? ==> WellFormed(r.value))
    && (r.Some? ==> Entries(r.value) == Exchange(Entries(s), older, newer, HasRoom(s, memory)))
    && (r.Some? && AllLinked(s) ==> (AllLinked(r.value) <==> !Promotes(s, older, newer)))
  }

  /** A list emptied earlier keeps its head free, so the next output needs no memory. */
  predicate HasRoom(s: seq<Slot>, memory: bool)
    requires WellFormed(s)
  {
    memory || (s[0].data.None? && |s| >= 2)
  }

  lemma RemovalMeets(s: seq<Slot>, older: Output, memory: bool)
    requires WellFormed(s) && Distinct(s)
    ensures Meets(s, Some(older), None, memory)
  {
    FindIsIndexOf(s, older);
    var i := Find(s, Some(older), 0);
    if i.Some? {
      UpdateRemoves(s, older, memory, i.value);
      FinishDrop(s, i.value);
    } else {
      UpdateNothing(s, older, memory);
    }
  }

  lemma MovedBy(s: seq<Slot>, t: seq<Slot>, older: Output, newer: Output, memory: bool, i: nat, j: nat,
                r: Option<seq<Slot>>)
    requires WellFormed(s) && Distinct(s)
    requires older != newer && HeldAt(s, Some(older), i) && HeldAt(s, Some(newer), j)
    requires t == s[i := Slot(Some(newer), false, s[i].linked)] && r == Update(s, Some(older), Some(newer), memory)
    ensures WellFormed(t) && i < Count(s) && j < Count(s)
    ensures r.Some? <==> (if j > 0 then j else |s| - 2) == 0 || s[if j > 0 then j else |s| - 2].linked
    ensures r.Some? ==> WellFormed(r.value) && Entries(r.value) == Drop(Entries(s)[i := Entry(newer, false)], j)
    ensures r.Some? && AllLinked(s) ==> (AllLinked(r.value) <==> j > 0 || |s| == 2)
  {
    assert i != j && t[j] == s[j];
    assert r == Finish(t[j := Slot(None, false, t[j].linked)]) by { UpdateMoves(s, older, newer, memory, i, j); }
    EntriesWritten(s, i, newer);
    FinishDrop(t, j);
  }

  lemma ExchangeMoves(es: seq<Entry>, older: Output, newer: Output, memory: bool, i: nat, j: nat)
    requires older != newer && IndexOf(es, Some(older)) == Some(i) && IndexOf(es, Some(newer)) == Some(j)
    ensures Exchange(es, Some(older), Some(newer), memory) == Drop(es[i := Entry(newer, false)], j)
    ensures Gone(es, Some(older), Some(newer)) == Some(j)
  {
  }

  lemma MoveMeets(s: seq<Slot>, older: Output, newer: Output, memory: bool, i: nat, j: nat)
    requires WellFormed(s) && Distinct(s)
    requires older != newer && HeldAt(s, Some(older), i) && HeldAt(s, Some(newer), j)
    ensures Meets(s, Some(older), Some(newer), memory)
  {
    FindIsIndexOf(s, older);
    FindIsIndexOf(s, newer);
    ExchangeMoves(Entries(s), older, newer, HasRoom(s, memory), i, j);
    MovedBy(s, s[i := Slot(Some(newer), false, s[i].linked)], older, newer, memory, i, j,
            Update(s, Some(older), Some(newer), memory));
  }

  lemma NotAmongEntries(s: seq<Slot>, o: Option<Output>)
    requires WellFormed(s) && Absent(s, o)
    ensures IndexOf(Entries(s), o) == None
  {
    if o.Some? { FindIsIndexOf(s, o.value); }
  }

  lemma ExchangeAdds(es: seq<Entry>, older: Option<Output>, newer: Output, memory: bool)
    requires older != Some(newer) && IndexOf(es, older) == None && IndexOf(es, Some(newer)) == None
    ensures Exchange(es, older, Some(newer), memory) == if memory then es + [Entry(newer, false)] else es
    ensures Gone(es, older, Some(newer)) == None
  {
  }

  lemma AppendMeets(s: seq<Slot>, older: Option<Output>, newer: Output, memory: bool)
    requires WellFormed(s) && Distinct(s)
    requires older != Some(newer) && Absent(s, older) && Absent(s, Some(newer))
    ensures Meets(s, older, Some(newer), memory)
  {
    NotAmongEntries(s, older);
    NotAmongEntries(s, Some(newer));
    ExchangeAdds(Entries(s), older, newer, HasRoom(s, memory));
    UpdateAppends(s, older, newer, memory);
    EntriesAppended(s, newer, memory);
  }

  lemma OverwriteMeets(s: seq<Slot>, older: Option<Output>, newer: Output, memory: bool, i: nat)
    requires WellFormed(s) && Distinct(s) && older != Some(newer)
    requires || (HeldAt(s, older, i) && Absent(s, Some(newer)))
             || (Absent(s, older) && HeldAt(s, Some(newer), i))
    ensures Meets(s, older, Some(newer), memory)
  {
    if older.Some? { FindIsIndexOf(s, older.value); }
    FindIsIndexOf(s, newer);
    UpdateInPlace(s, older, newer, memory, i);
    EntriesWritten(s, i, newer);
  }

  lemma UpdateCorrect(s: seq<Slot>, older: Option<Output>, newer: Option<Output>, memory: bool)
    requires WellFormed(s) && Distinct(s)
    ensures Meets(s, older, newer, memory)
  {
    if older != newer {
      if newer.None? {
        RemovalMeets(s, older.value, memory);
      } else if Absent(s, older) && Absent(s, newer) {
        AppendMeets(s, older, newer.value, memory);
      } else if Absent(s, older) || Absent(s, newer) {
        OverwriteMeets(s, older, newer.value, memory, Find(s, if Absent(s, older) then newer else older, 0).value);
      } else {
        MoveMeets(s, older.value, newer.value, memory, Find(s, older, 0).value, Find(s, newer, 0).value);
      }
    }
  }
}
