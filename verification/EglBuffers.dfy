/**
 * The explicit synchronisation protocol of the EGL sample, one buffer event at a time
 * (simple-dmabuf-egl-yuv-on-osd.c:150-182, 594-618, 724-734, 853-963).
 */
module EglBuffers {
  import opened Options

  const NUM_BUFFERS := 3

  /** A release object or a fence, numbered in the order in which they came into being. */
  type Token = nat

  /** The fields of struct buffer that the protocol changes; `fence` is None when the descriptor is -1. */
  datatype Buf = Buf(busy: bool, release: Option<Token>, fence: Option<Token>)

  const FREE := Buf(false, None, None)

  datatype Status = Running | Aborted | TornDown

  /**
   * The window's buffers, and what the world outside knows: which buffer each live release object
   * was asked for, how many release objects and fences there have been, which fences EGL was given
   * and which were closed.
   */
  datatype State = State(bufs: seq<Buf>, owner: map<Token, nat>, released: nat, received: nat,
                         handed: seq<Token>, closed: seq<Token>, status: Status)

  const START := State([FREE, FREE, FREE], map[], 0, 0, [], [], Running)

  /**
   * What can happen.  A redraw carries the answers of EGL: whether the fence could be imported,
   * whether waiting for it worked, and whether the acquire fence could be made.
   */
  datatype Event =
    | Redraw(imported: bool, waited: bool, acquired: bool)
    | FencedRelease(release: Token)
    | ImmediateRelease(release: Token)
    | Teardown

  /** The compositor sends one event to each release object that is still there. */
  predicate Enabled(s: State, e: Event) {
    && s.status == Running
    && match e
       case FencedRelease(r) => r in s.owner
       case ImmediateRelease(r) => r in s.owner
       case _ => true
  }

  // ---------------------------------------------------------------- redraw

  /** The first buffer that is not busy. */
  function NextBuffer(bufs: seq<Buf>, from: nat): (r: Option<nat>)
    requires from <= |bufs|
    ensures r.Some? ==> from <= r.value < |bufs| && !bufs[r.value].busy
    ensures r.Some? ==> forall i :: from <= i < r.value ==> bufs[i].busy
    ensures r.None? ==> forall i :: from <= i < |bufs| ==> bufs[i].busy
    decreases |bufs| - from
  {
    if from == |bufs| then None
    else if !bufs[from].busy then Some(from)
    else NextBuffer(bufs, from + 1)
  }

  /** wait_for_buffer_release_fence on buffer i, when it holds a fence. */
  function WaitFence(s: State, i: nat, imported: bool, waited: bool): State
    requires i < |s.bufs|
  {
    if s.bufs[i].fence.None? then s
    else if !imported then s.(status := Aborted)
    else s.(bufs := s.bufs[i := s.bufs[i].(fence := None)],
            handed := s.handed + [s.bufs[i].fence.value],
            status := if waited then s.status else Aborted)
  }

  /** The rest of redraw: a release object is asked for and the buffer is committed. */
  function Commit(s: State, i: nat, acquired: bool): State
    requires i < |s.bufs|
  {
    if s.status != Running then s
    else if !acquired then s.(status := Aborted)
    else s.(bufs := s.bufs[i := s.bufs[i].(busy := true, release := Some(s.released))],
            owner := s.owner[s.released := i],
            released := s.released + 1)
  }

  function Redrawn(s: State, imported: bool, waited: bool, acquired: bool): State {
    match NextBuffer(s.bufs, 0)
    case None => s.(status := Aborted)
    case Some(i) => Commit(WaitFence(s, i, imported, waited), i, acquired)
  }

  // ---------------------------------------------------------------- release

  /** The assertions of both release handlers, for an event on `r` delivered to buffer i. */
  predicate HandlerAccepts(s: State, r: Token, i: nat) {
    i < |s.bufs| && s.bufs[i].release == Some(r) && s.bufs[i].fence == None
  }

  /** A release handler; a fence that comes along is kept with the buffer. */
  function Released(s: State, r: Token, fenced: bool): Option<State>
    requires r in s.owner
  {
    var i := s.owner[r];
    if !HandlerAccepts(s, r, i) then None
    else Some(s.(bufs := s.bufs[i := Buf(false, None, if fenced then Some(s.received) else None)],
                 owner := s.owner - {r},
                 received := s.received + if fenced then 1 else 0))
  }

  // ---------------------------------------------------------------- teardown

  /** buffer_free on buffer i. */
  function Freed(s: State, i: nat): State
    requires i < |s.bufs|
  {
    var b := s.bufs[i];
    s.(bufs := s.bufs[i := Buf(b.busy, None, None)],
       owner := if b.release.Some? then s.owner - {b.release.value} else s.owner,
       closed := if b.fence.Some? then s.closed + [b.fence.value] else s.closed)
  }

  /** The loop of destroy_window, from buffer i on. */
  function FreedFrom(s: State, i: nat): (t: State)
    requires i <= |s.bufs|
    decreases |s.bufs| - i
  {
    if i == |s.bufs| then s.(status := TornDown) else FreedFrom(Freed(s, i), i + 1)
  }

  // ---------------------------------------------------------------- runs

  /** One event; None if an assertion of a release handler fails. */
  function Step(s: State, e: Event): Option<State>
    requires Enabled(s, e)
  {
    match e
    case Redraw(imported, waited, acquired) => Some(Redrawn(s, imported, waited, acquired))
    case FencedRelease(r) => Released(s, r, true)
    case ImmediateRelease(r) => Released(s, r, false)
    case Teardown => Some(FreedFrom(s, 0))
  }

  /** A run; events that cannot happen are skipped. */
  function Run(es: seq<Event>): Option<State> {
    if es == [] then Some(START)
    else
      var s := Run(es[..|es| - 1]);
      if s.None? then None
      else if !Enabled(s.value, es[|es| - 1]) then s
      else Step(s.value, es[|es| - 1])
  }

  // ---------------------------------------------------------------- what every run keeps

  /** A buffer is busy exactly when it holds a release object, and then it holds no fence. */
  predicate BufSound(b: Buf) {
    (b.busy <==> b.release.Some?) && (b.busy ==> b.fence.None?)
  }

  /** The live release objects are exactly those that the buffers hold. */
  ghost predicate OwnersAgree(s: State) {
    && (forall r :: r in s.owner ==> r < s.released && s.owner[r] < |s.bufs| && s.bufs[s.owner[r]].release == Some(r))
    && (forall i :: 0 <= i < |s.bufs| && s.bufs[i].release.Some? ==>
          s.bufs[i].release.value in s.owner && s.owner[s.bufs[i].release.value] == i)
  }

  function One(held: Option<Token>, f: Token): nat {
    if held == Some(f) then 1 else 0
  }

  /** How many buffers hold fence f. */
  function Held(bufs: seq<Buf>, f: Token): nat {
    if bufs == [] then 0 else One(bufs[0].fence, f) + Held(bufs[1..], f)
  }

  function Times(s: seq<Token>, f: Token): nat {
    if s == [] then 0 else Times(s[..|s| - 1], f) + if s[|s| - 1] == f then 1 else 0
  }

  /** In how many places fence f is: given to EGL, closed, or still held by a buffer. */
  function Places(s: State, f: Token): nat {
    Times(s.handed, f) + Times(s.closed, f) + Held(s.bufs, f)
  }

  /** Every fence received is in one place, and no other fence is anywhere. */
  ghost predicate FencesAccounted(s: State) {
    forall f: Token :: Places(s, f) == if f < s.received then 1 else 0
  }

  ghost predicate Sound(s: State) {
    && |s.bufs| == NUM_BUFFERS
    && (s.status != TornDown ==> forall i :: 0 <= i < |s.bufs| ==> BufSound(s.bufs[i]))
    && OwnersAgree(s)
    && FencesAccounted(s)
  }

  lemma {:induction false} HeldUpdate(bufs: seq<Buf>, i: nat, b: Buf, f: Token)
    requires i < |bufs|
    ensures Held(bufs[i := b], f) + One(bufs[i].fence, f) == Held(bufs, f) + One(b.fence, f)
  {
    if i == 0 {
      assert bufs[i := b][1..] == bufs[1..];
    } else {
      assert bufs[i := b][1..] == bufs[1..][i - 1 := b];
      HeldUpdate(bufs[1..], i - 1, b, f);
    }
  }

  lemma TimesAppend(s: seq<Token>, x: Token, f: Token)
    ensures Times(s + [x], f) == Times(s, f) + if x == f then 1 else 0
  {
    assert (s + [x])[..|s|] == s;
  }

  /** Replacing a buffer by one with the same fence moves no fence. */
  lemma SameFence(s: State, t: State, i: nat)
    requires i < |s.bufs| && FencesAccounted(s)
    requires |t.bufs| == |s.bufs| && t.bufs == s.bufs[i := t.bufs[i]] && t.bufs[i].fence == s.bufs[i].fence
    requires t.handed == s.handed && t.closed == s.closed && t.received == s.received
    ensures FencesAccounted(t)
  {
    forall f: Token ensures Places(t, f) == if f < t.received then 1 else 0 {
      assert Places(s, f) == if f < s.received then 1 else 0;
      HeldUpdate(s.bufs, i, t.bufs[i], f);
    }
  }

  /** The fence of a buffer moves to EGL or is closed. */
  lemma FenceLeaves(s: State, t: State, i: nat, x: Token)
    requires i < |s.bufs| && FencesAccounted(s)
    requires s.bufs[i].fence == Some(x) && |t.bufs| == |s.bufs|
    requires t.bufs == s.bufs[i := t.bufs[i]] && t.bufs[i].fence == None
    requires t.received == s.received
    requires || (t.handed == s.handed + [x] && t.closed == s.closed)
             || (t.handed == s.handed && t.closed == s.closed + [x])
    ensures FencesAccounted(t)
  {
    forall f: Token ensures Places(t, f) == if f < t.received then 1 else 0 {
      assert Places(s, f) == if f < s.received then 1 else 0;
      HeldUpdate(s.bufs, i, t.bufs[i], f);
      TimesAppend(s.handed, x, f);
      TimesAppend(s.closed, x, f);
    }
  }

  /** A fence arrives at a buffer without one. */
  lemma FenceArrives(s: State, t: State, i: nat)
    requires i < |s.bufs| && FencesAccounted(s)
    requires s.bufs[i].fence == None && |t.bufs| == |s.bufs|
    requires t.bufs == s.bufs[i := t.bufs[i]] && t.bufs[i].fence == Some(s.received)
    requires t.handed == s.handed && t.closed == s.closed && t.received == s.received + 1
    ensures FencesAccounted(t)
  {
    forall f: Token ensures Places(t, f) == if f < t.received then 1 else 0 {
      assert Places(s, f) == if f < s.received then 1 else 0;
      HeldUpdate(s.bufs, i, t.bufs[i], f);
    }
  }

  lemma WaitFenceSound(s: State, i: nat, imported: bool, waited: bool)
    requires Sound(s) && s.status == Running && i < |s.bufs| && !s.bufs[i].busy
    ensures Sound(WaitFence(s, i, imported, waited))
    ensures WaitFence(s, i, imported, waited).status == Running ==>
              WaitFence(s, i, imported, waited).bufs[i] == FREE
  {
    var t := WaitFence(s, i, imported, waited);
    if s.bufs[i].fence.Some? && imported {
      FenceLeaves(s, t, i, s.bufs[i].fence.value);
    } else {
      SameFence(s, t, i);
    }
  }

  lemma CommitSound(s: State, i: nat, acquired: bool)
    requires Sound(s) && s.status != TornDown && i < |s.bufs| && (s.status == Running ==> s.bufs[i] == FREE)
    ensures Sound(Commit(s, i, acquired))
  {
    SameFence(s, Commit(s, i, acquired), i);
  }

  /** A release event finds the buffer that waits for it: the assertions hold. */
  lemma ReleasedSound(s: State, r: Token, fenced: bool)
    requires Sound(s) && s.status == Running && r in s.owner
    ensures Released(s, r, fenced).Some? && Sound(Released(s, r, fenced).value)
  {
    var i := s.owner[r];
    assert BufSound(s.bufs[i]);
    var t := Released(s, r, fenced).value;
    if fenced { FenceArrives(s, t, i); } else { SameFence(s, t, i); }
  }

  /** The loop of destroy_window closes the fence and destroys the release object of every buffer. */
  lemma {:induction false} FreedFromSound(s: State, i: nat)
    requires |s.bufs| == NUM_BUFFERS && OwnersAgree(s) && FencesAccounted(s) && i <= |s.bufs|
    requires forall j :: 0 <= j < i ==> s.bufs[j].release == None && s.bufs[j].fence == None
    ensures Sound(FreedFrom(s, i)) && FreedFrom(s, i).status == TornDown
    ensures FreedFrom(s, i).handed == s.handed && FreedFrom(s, i).received == s.received
    ensures forall j :: 0 <= j < NUM_BUFFERS ==>
              FreedFrom(s, i).bufs[j].release == None && FreedFrom(s, i).bufs[j].fence == None
    decreases |s.bufs| - i
  {
    if i < |s.bufs| {
      var t := Freed(s, i);
      if s.bufs[i].fence.Some? { FenceLeaves(s, t, i, s.bufs[i].fence.value); } else { SameFence(s, t, i); }
      FreedFromSound(t, i + 1);
    } else {
      SameBuffers(s, FreedFrom(s, i));
    }
  }

  lemma SameBuffers(s: State, t: State)
    requires FencesAccounted(s) && t.bufs == s.bufs
    requires t.handed == s.handed && t.closed == s.closed && t.received == s.received
    ensures FencesAccounted(t)
  {
    forall f: Token ensures Places(t, f) == if f < t.received then 1 else 0 {
      assert Places(s, f) == if f < s.received then 1 else 0;
    }
  }

  lemma RedrawnSound(s: State, imported: bool, waited: bool, acquired: bool)
    requires Sound(s) && s.status == Running
    ensures Sound(Redrawn(s, imported, waited, acquired))
  {
    match NextBuffer(s.bufs, 0)
    case None => SameBuffers(s, s.(status := Aborted));
    case Some(i) =>
      WaitFenceSound(s, i, imported, waited);
      CommitSound(WaitFence(s, i, imported, waited), i, acquired);
  }

  /** Every event keeps the protocol sound, and no assertion of a release handler fails. */
  lemma StepSound(s: State, e: Event)
    requires Sound(s) && Enabled(s, e)
    ensures Step(s, e).Some? && Sound(Step(s, e).value)
  {
    match e
    case Redraw(imported, waited, acquired) => RedrawnSound(s, imported, waited, acquired);
    case FencedRelease(r) => ReleasedSound(s, r, true);
    case ImmediateRelease(r) => ReleasedSound(s, r, false);
    case Teardown => FreedFromSound(s, 0);
  }

  /**
   * For every order of redraws, release events and the teardown: no assertion of a release handler
   * fails, a buffer is busy exactly when it holds a release object, a busy buffer holds no fence,
   * and each fence received is given to EGL, closed, or held, never two of these.
   */
  lemma {:induction false} RunSound(es: seq<Event>)
    ensures Run(es).Some? && Sound(Run(es).value)
  {
    if es == [] {
      forall f: Token ensures Places(START, f) == 0 { NothingHeld(START.bufs, f); }
    } else {
      RunSound(es[..|es| - 1]);
      var s := Run(es[..|es| - 1]).value;
      if Enabled(s, es[|es| - 1]) { StepSound(s, es[|es| - 1]); }
    }
  }

  /** After the teardown no release object is live and each fence was given to EGL or closed, once. */
  lemma TeardownLeavesNothing(s: State, t: State, f: Token)
    requires Sound(s) && s.status == Running && Step(s, Teardown) == Some(t)
    ensures t.owner == map[]
    ensures Times(t.handed, f) + Times(t.closed, f) == if f < t.received then 1 else 0
    ensures Times(t.handed, f) == Times(s.handed, f)
  {
    FreedFromSound(s, 0);
    assert Places(t, f) == if f < t.received then 1 else 0;
    NothingHeld(t.bufs, f);
  }

  lemma {:induction false} NothingHeld(bufs: seq<Buf>, f: Token)
    requires forall j :: 0 <= j < |bufs| ==> bufs[j].fence == None
    ensures Held(bufs, f) == 0
  {
    if bufs != [] { NothingHeld(bufs[1..], f); }
  }

  /** A redraw finds no buffer exactly when every buffer waits for a release event. */
  lemma NoBufferIff(s: State)
    requires Sound(s) && s.status == Running
    ensures NextBuffer(s.bufs, 0) == None <==> forall i :: 0 <= i < NUM_BUFFERS ==> i in s.owner.Values
  {
    if NextBuffer(s.bufs, 0) == None {
      forall i | 0 <= i < NUM_BUFFERS ensures i in s.owner.Values {
        assert BufSound(s.bufs[i]);
        var r := s.bufs[i].release.value;
        assert r in s.owner && s.owner[r] == i;
      }
    } else {
      var i := NextBuffer(s.bufs, 0).value;
      assert BufSound(s.bufs[i]);
      assert i !in s.owner.Values;
    }
  }

  // ---------------------------------------------------------------- what a redraw and a release achieve

  /** With every buffer waiting for a release event a redraw only ends the sample. */
  lemma RedrawWithoutBuffer(s: State, imported: bool, waited: bool, acquired: bool)
    requires |s.bufs| == NUM_BUFFERS && s.status == Running
    requires forall j :: 0 <= j < NUM_BUFFERS ==> s.bufs[j].busy
    ensures Step(s, Redraw(imported, waited, acquired)) == Some(s.(status := Aborted))
  {
  }

  /**
   * A redraw with buffer i the first that is not busy.  It gives up exactly when the acquire fence
   * fails, or the buffer holds a fence that cannot be imported or waited for.  Otherwise buffer i
   * becomes busy with the new release object and no fence; either way the fence it held goes to EGL
   * unless the import failed, and the other buffers stay as they are.
   */
  lemma RedrawDoes(s: State, i: nat, imported: bool, waited: bool, acquired: bool, t: State)
    requires Sound(s) && s.status == Running && i < NUM_BUFFERS && !s.bufs[i].busy
    requires forall j :: 0 <= j < i ==> s.bufs[j].busy
    requires Step(s, Redraw(imported, waited, acquired)) == Some(t)
    ensures t.status == Aborted <==> !acquired || (s.bufs[i].fence.Some? && (!imported || !waited))
    ensures t.status != Aborted ==>
              && t.status == Running && t.bufs[i] == Buf(true, Some(s.released), None)
              && t.released == s.released + 1 && t.owner == s.owner[s.released := i]
    ensures t.status == Aborted ==>
              && !t.bufs[i].busy && t.bufs[i].release == None && t.released == s.released && t.owner == s.owner
              && t.bufs[i].fence == if imported then None else s.bufs[i].fence
    ensures t.handed == s.handed + if s.bufs[i].fence.Some? && imported then [s.bufs[i].fence.value] else []
    ensures t.closed == s.closed && t.received == s.received && |t.bufs| == NUM_BUFFERS
    ensures forall j :: 0 <= j < NUM_BUFFERS && j != i ==> t.bufs[j] == s.bufs[j]
  {
    assert BufSound(s.bufs[i]);
    assert NextBuffer(s.bufs, 0) == Some(i);
  }

  /**
   * An event on a live release object frees the one buffer that waits for it; a fence that comes
   * along is the newest one and stays with that buffer.
   */
  lemma ReleaseDoes(s: State, r: Token, i: nat, fenced: bool, t: State)
    requires Sound(s) && s.status == Running && i < NUM_BUFFERS && s.bufs[i].release == Some(r)
    requires Enabled(s, FencedRelease(r))
    requires Step(s, if fenced then FencedRelease(r) else ImmediateRelease(r)) == Some(t)
    ensures t.bufs[i] == Buf(false, None, if fenced then Some(s.received) else None) && |t.bufs| == NUM_BUFFERS
    ensures t.received == (if fenced then s.received + 1 else s.received) && t.released == s.released
    ensures t.handed == s.handed && t.closed == s.closed && t.status == Running
    ensures r !in t.owner && forall q :: q in s.owner && q != r ==> q in t.owner && t.owner[q] == s.owner[q]
    ensures forall j :: 0 <= j < NUM_BUFFERS && j != i ==> t.bufs[j] == s.bufs[j]
  {
    assert s.owner[r] == i;
  }
}
