/**
 * Who owns a capture buffer: the driver's queue or the compositor
 * (simple-dmabuf-v4l.c:121-172, 398-444, 634-675).
 */
module V4lCapture {
  import opened Options

  const NUM_BUFFERS := 3

  /** How queue() ends: where it stops, or that it goes through. */
  datatype Queueing = QueryFails | QueueFails | PlanesDiffer | Goes

  /** The driver takes the buffer before the planes are compared. */
  predicate Takes(q: Queueing) {
    q.PlanesDiffer? || q.Goes?
  }

  /**
   * `queued` is what the driver holds, whether filled yet or not; `lost` is what neither the driver
   * nor the compositor holds any more.
   */
  datatype State = State(busy: seq<bool>, queued: set<nat>, lost: set<nat>, running: bool)

  datatype Event =
    | Redraw(got: Option<nat>)
    | Release(index: nat, q: Queueing)

  /** What an event leads to; the first two are the assertions of redraw. */
  datatype Outcome = AllBusy | BusyDequeued | Next(s: State)

  const START := State([false, false, false], {0, 1, 2}, {}, true)

  /** The driver gives back what it holds; the compositor releases what it was given. */
  predicate Enabled(s: State, e: Event)
    requires |s.busy| == NUM_BUFFERS
  {
    match e
    case Redraw(got) => got.Some? ==> got.value in s.queued && got.value < NUM_BUFFERS
    case Release(i, _) => i < NUM_BUFFERS && s.busy[i]
  }

  /** How many buffers are busy, as the loop of redraw counts them. */
  function CountBusy(busy: seq<bool>): (n: nat)
    ensures n <= |busy|
  {
    if busy == [] then 0 else CountBusy(busy[..|busy| - 1]) + if busy[|busy| - 1] then 1 else 0
  }

  /** queue(). */
  function Queued(s: State, i: nat, q: Queueing): State {
    if Takes(q) then s.(queued := s.queued + {i}) else s.(lost := s.lost + {i})
  }

  function Step(s: State, e: Event): Outcome
    requires |s.busy| == NUM_BUFFERS && Enabled(s, e)
  {
    match e
    case Redraw(got) =>
      if CountBusy(s.busy) == NUM_BUFFERS then AllBusy
      else if got.None? then Next(s.(running := false))
      else if s.busy[got.value] then BusyDequeued
      else Next(s.(queued := s.queued - {got.value}, busy := s.busy[got.value := true]))
    case Release(i, q) =>
      var t := Queued(s.(busy := s.busy[i := false]), i, q);
      Next(if q.Goes? then t else t.(running := false))
  }

  /** A run; events that cannot happen are skipped, and nothing follows a failed assertion. */
  function Run(es: seq<Event>): Outcome {
    if es == [] then Next(START)
    else
      var o := Run(es[..|es| - 1]);
      if !o.Next? || |o.s.busy| != NUM_BUFFERS || !Enabled(o.s, es[|es| - 1]) then o
      else Step(o.s, es[|es| - 1])
  }

  /** Whether every ioctl of the event succeeds, in the eyes of the caller. */
  predicate Succeeds(e: Event) {
    match e
    case Redraw(got) => got.Some?
    case Release(_, q) => q.Goes?
  }

  // ---------------------------------------------------------------- what every run keeps

  /** Each buffer has exactly one owner: the compositor, the driver, or nobody any more. */
  ghost predicate Owned(s: State) {
    && |s.busy| == NUM_BUFFERS
    && (forall i :: 0 <= i < NUM_BUFFERS && s.busy[i] ==> i !in s.queued && i !in s.lost)
    && (forall i :: 0 <= i < NUM_BUFFERS && !s.busy[i] ==> (i in s.queued <==> i !in s.lost))
    && (forall i :: i in s.queued || i in s.lost ==> i < NUM_BUFFERS)
  }

  lemma CountOfThree(busy: seq<bool>)
    requires |busy| == NUM_BUFFERS
    ensures CountBusy(busy) == NUM_BUFFERS <==> busy[0] && busy[1] && busy[2]
  {
    assert busy[..2][..1] == busy[..1] && busy[..1][..0] == [];
    assert CountBusy(busy[..1]) == if busy[0] then 1 else 0;
    assert CountBusy(busy[..2]) == CountBusy(busy[..1]) + if busy[1] then 1 else 0;
  }

  /** No event dequeues a busy buffer, and the owners stay unique. */
  lemma StepOwned(s: State, e: Event)
    requires Owned(s) && Enabled(s, e)
    ensures Step(s, e) != BusyDequeued
    ensures Step(s, e).Next? ==> Owned(Step(s, e).s)
  {
  }

  /**
   * Over every run, whatever fails in it: no buffer is both queued and busy, so the assertion
   * behind the dequeue never fires.
   */
  lemma {:induction false} RunOwned(es: seq<Event>)
    ensures Run(es) != BusyDequeued
    ensures Run(es).Next? ==> Owned(Run(es).s)
  {
    if es != [] {
      var o := Run(es[..|es| - 1]);
      RunOwned(es[..|es| - 1]);
      if o.Next? && Enabled(o.s, es[|es| - 1]) { StepOwned(o.s, es[|es| - 1]); }
    }
  }

  /** While no call fails, queued and busy together are all the buffers, and the sample keeps running. */
  lemma {:induction false} RunKeepsAll(es: seq<Event>)
    requires forall i :: 0 <= i < |es| ==> Succeeds(es[i])
    ensures Run(es).Next? ==> Run(es).s.lost == {} && Run(es).s.running
    ensures Run(es).Next? ==> |Run(es).s.busy| == NUM_BUFFERS
    ensures Run(es).Next? ==> Run(es).s.queued + (set i | 0 <= i < NUM_BUFFERS && Run(es).s.busy[i]) == {0, 1, 2}
  {
    RunOwned(es);
    if es != [] {
      RunKeepsAll(es[..|es| - 1]);
    }
  }

  /**
   * The check before the dequeue: it lets the redraw through exactly when the driver holds a buffer
   * or one is lost.  So it guards against waiting forever if and only if no buffer is lost or the
   * driver still holds one.
   */
  lemma CheckMeans(s: State)
    requires Owned(s)
    ensures CountBusy(s.busy) < NUM_BUFFERS <==> s.queued != {} || s.lost != {}
    ensures (CountBusy(s.busy) < NUM_BUFFERS <==> s.queued != {}) <==> (s.lost == {} || s.queued != {})
  {
    CountOfThree(s.busy);
    if s.busy[0] && s.busy[1] && s.busy[2] {
      assert s.queued == {} && s.lost == {};
    } else {
      var i := if !s.busy[0] then 0 else if !s.busy[1] then 1 else 2;
      assert i in s.queued || i in s.lost;
    }
  }

  /** While no call fails, the check is exactly that the driver holds a buffer. */
  lemma CheckExact(es: seq<Event>)
    requires (forall i :: 0 <= i < |es| ==> Succeeds(es[i])) && Run(es).Next?
    ensures |Run(es).s.busy| == NUM_BUFFERS
    ensures CountBusy(Run(es).s.busy) < NUM_BUFFERS <==> Run(es).s.queued != {}
  {
    RunOwned(es);
    RunKeepsAll(es);
    CheckMeans(Run(es).s);
  }

  /** A buffer is lost only by a release whose queue() stops before the driver takes it. */
  lemma LostOnlyByRelease(s: State, e: Event, i: nat)
    requires Owned(s) && Enabled(s, e) && Step(s, e).Next?
    ensures i in Step(s, e).s.lost <==>
              i in s.lost || (e.Release? && e.index == i && (e.q == QueryFails || e.q == QueueFails))
  {
  }

  /** Where an event moves a buffer; the sample goes on while it ran and the event went through. */
  lemma StepMoves(s: State, e: Event, t: State)
    requires Owned(s) && Enabled(s, e) && Step(s, e) == Next(t)
    ensures e.Redraw? ==> (forall i :: i in t.queued <==> i in s.queued && e.got != Some(i)) && t.lost == s.lost
    ensures e.Redraw? ==> forall i :: 0 <= i < NUM_BUFFERS ==> t.busy[i] == (s.busy[i] || e.got == Some(i))
    ensures e.Release? ==> forall i :: 0 <= i < NUM_BUFFERS ==> t.busy[i] == (s.busy[i] && i != e.index)
    ensures e.Release? ==>
              forall i :: i in t.queued <==> i in s.queued || (i == e.index && (e.q == PlanesDiffer || e.q == Goes))
    ensures t.running <==> s.running && if e.Redraw? then e.got.Some? else e.q == Goes
  {
  }

  /** A redraw is stopped by the busy count exactly when the compositor holds every buffer. */
  lemma StoppedIff(s: State, got: Option<nat>)
    requires Owned(s) && Enabled(s, Redraw(got))
    ensures Step(s, Redraw(got)) == AllBusy <==> s.busy[0] && s.busy[1] && s.busy[2]
  {
    CountOfThree(s.busy);
  }

  /**
   * One failed release is enough: the sample is to stop, but a redraw that is delivered before it
   * looks at `running` passes the check and waits for a driver that holds nothing.
   */
  lemma CanWaitForever(es: seq<Event>)
    requires es == [Redraw(Some(0)), Redraw(Some(1)), Redraw(Some(2)), Release(0, QueueFails)]
    ensures Run(es) == Next(State([false, true, true], {}, {0}, false))
    ensures Run(es).Next? ==> CountBusy(Run(es).s.busy) < NUM_BUFFERS
  {
    RunFour(es);
    CountOfThree([false, true, true]);
  }

  lemma RunFour(es: seq<Event>)
    requires es == [Redraw(Some(0)), Redraw(Some(1)), Redraw(Some(2)), Release(0, QueueFails)]
    ensures Run(es) == Next(State([false, true, true], {}, {0}, false))
  {
    var a, b, c := es[..1], es[..2], es[..3];
    assert a[..0] == [] && b[..1] == a && c[..2] == b && es[..3] == c;
    CountOfThree([false, false, false]);
    CountOfThree([true, false, false]);
    CountOfThree([true, true, false]);
    assert Run(a) == Next(State([true, false, false], {1, 2}, {}, true));
    assert Run(b) == Next(State([true, true, false], {2}, {}, true));
    assert Run(c) == Next(State([true, true, true], {}, {}, true));
  }

  // ---------------------------------------------------------------- the callbacks

  class Window {
    const busy: array<bool>
    var running: bool
    ghost var queued: set<nat>
    ghost var lost: set<nat>

    ghost function View(): State
      reads this, busy
    {
      State(busy[..], queued, lost, running)
    }

    ghost predicate Valid()
      reads this, busy
    {
      Owned(View())
    }

    /** queue_initial_buffers; `answers` are the ends of the calls of queue() and of the exports. */
    constructor (answers: seq<(Queueing, bool)>)
      requires |answers| == NUM_BUFFERS
      ensures fresh(busy)
      ensures running <==> forall i :: 0 <= i < NUM_BUFFERS ==> answers[i].0.Goes? && answers[i].1
      ensures running ==> Valid() && View() == START
    {
      busy := new bool[NUM_BUFFERS](_ => false);
      running, queued, lost := true, {}, {};
      new;
      for i := 0 to NUM_BUFFERS
        invariant running <==> forall j :: 0 <= j < i ==> answers[j].0.Goes? && answers[j].1
        invariant running ==> busy[..] == [false, false, false] && lost == {}
        invariant running ==> forall j :: j in queued <==> 0 <= j < i
        invariant busy.Length == NUM_BUFFERS
      {
        var queuedIt := Queue(i, answers[i].0);
        if !queuedIt || !answers[i].1 {
          running := false;
          return;
        }
      }
    }

    /** queue(). */
    method Queue(i: nat, q: Queueing) returns (ok: bool)
      modifies this`queued, this`lost
      ensures ok <==> q.Goes?
      ensures View() == Queued(old(View()), i, q)
    {
      if q.QueryFails? {
        lost := lost + {i};
        return false;
      }
      if q.QueueFails? {
        lost := lost + {i};
        return false;
      }
      queued := queued + {i};
      if q.PlanesDiffer? {
        return false;
      }
      return true;
    }

    /** buffer_release. */
    method BufferRelease(i: nat, q: Queueing)
      requires Valid() && Enabled(View(), Release(i, q))
      modifies this, busy
      ensures Valid() && Next(View()) == Step(old(View()), Release(i, q))
    {
      busy[i] := false;
      var ok := Queue(i, q);
      if !ok {
        running := false;
      }
    }

    /**
     * redraw; `got` is what the driver answers.  `stopped` is whether the check of the busy count
     * fails; the assertion on the dequeued buffer holds.
     */
    method DrawNext(got: Option<nat>) returns (stopped: bool)
      requires Valid() && Enabled(View(), Redraw(got))
      modifies this, busy
      ensures Valid()
      ensures stopped ==> Step(old(View()), Redraw(got)) == AllBusy && View() == old(View())
      ensures !stopped ==> Step(old(View()), Redraw(got)) == Next(View())
    {
      var numBusy := 0;
      for index := 0 to NUM_BUFFERS
        invariant numBusy == CountBusy(busy[..index])
      {
        assert busy[..index + 1][..index] == busy[..index];
        if busy[index] {
          numBusy := numBusy + 1;
        }
      }
      assert busy[..NUM_BUFFERS] == busy[..];
      if numBusy == NUM_BUFFERS {
        return true;
      }
      if got == None {
        running := false;
        return false;
      }
      assert !busy[got.value];
      queued := queued - {got.value};
      busy[got.value] := true;
      return false;
    }
  }
}
