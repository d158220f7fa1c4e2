/**
 * Stopping the IPC server: every interleaving of the server thread and the destroyer over the
 * shared status and context (ipc.c:228-247, 307-314, 390-425).  One step is one access to shared
 * state or one call; status is volatile and taken as sequentially consistent.
 */
module Shutdown {
  import opened Options

  /** server_status, in the order of ipc.h:43-48. */
  datatype Status = Inited | Listening | GoingToStop | Stopped

  function Order(s: Status): nat {
    match s
    case Inited => 0
    case Listening => 1
    case GoingToStop => 2
    case Stopped => 3
  }

  /** Where the server thread is. */
  datatype Thread =
    | Starting                  // about to write LISTENING
    | Checking                  // about to test the loop condition
    | Selecting(count: nat)     // in select() over the descriptors below count
    | Serving(left: nat)        // in a pass with that many descriptors left
    | Leaving                   // left the loop, about to test for GOINGTOSTOP
    | Finishing                 // about to close the clients and write STOPED
    | Exited                    // returned; no access to the context any more

  /** Where server_destory is. */
  datatype Destroyer =
    | Idle
    | Observing                 // about to read the status once
    | Announcing                // about to write GOINGTOSTOP
    | Connecting                // about to make the wake-up connection
    | Waiting                   // spinning until STOPED
    | Closing                   // about to close the listening socket
    | Joining                   // in pthread_join
    | Freeing                   // about to free the context
    | Done

  /**
   * `pending`: a wake-up connection waits to be accepted.  `woken`: it has been made.
   * `saw`: the status server_destory read.
   */
  datatype State = State(status: Status, thread: Thread, destroyer: Destroyer,
                         pending: bool, woken: bool, freed: bool, saw: Option<Status>)

  /** A started server before anybody destroys it. */
  const START := State(Inited, Starting, Idle, false, false, false, None)

  /**
   * Who moves.  ThreadGoes: `ok` is whether select() reports descriptors, `traffic` whether some
   * other client is ready, `count` is max_fd + 1, `takes` whether this turn accepts the wake-up
   * connection.  DestroyerGoes: `ok` is whether the wake-up connection succeeds.
   */
  datatype Move =
    | ThreadGoes(ok: bool, traffic: bool, count: nat, takes: bool)
    | DestroyerGoes(ok: bool)

  /** The thread's next step; None when it is blocked or gone. */
  function ThreadStep(s: State, m: Move): Option<State>
    requires m.ThreadGoes?
  {
    match s.thread
    case Starting => Some(s.(status := Listening, thread := Checking))
    case Checking => Some(s.(thread := if s.status == Listening then Selecting(m.count) else Leaving))
    case Selecting(count) =>
      if !m.ok then Some(s.(thread := Checking))
      else if s.pending || m.traffic then Some(s.(thread := Serving(count)))
      else None
    case Serving(left) =>
      if left == 0 then Some(s.(thread := Checking))
      else Some(s.(thread := Serving(left - 1), pending := s.pending && !m.takes))
    case Leaving => Some(s.(thread := if s.status == GoingToStop then Finishing else Exited))
    case Finishing => Some(s.(status := Stopped, thread := Exited))
    case Exited => None
  }

  /** The destroyer's next step; None when it is blocked or done. */
  function DestroyerStep(s: State, m: Move): Option<State>
    requires m.DestroyerGoes?
  {
    match s.destroyer
    case Idle => Some(s.(destroyer := Observing))
    case Observing =>
      Some(s.(saw := Some(s.status),
              destroyer := match s.status
                           case Inited => Closing
                           case Listening => Announcing
                           case GoingToStop => Waiting
                           case Stopped => Closing))
    case Announcing => Some(s.(status := GoingToStop, destroyer := Connecting))
    case Connecting => Some(s.(pending := s.pending || m.ok, woken := s.woken || m.ok, destroyer := Waiting))
    case Waiting => Some(if s.status == Stopped then s.(destroyer := Closing) else s)
    case Closing => Some(s.(destroyer := Joining))
    case Joining => if s.thread == Exited then Some(s.(destroyer := Freeing)) else None
    case Freeing => Some(s.(freed := true, destroyer := Done))
    case Done => None
  }

  function Step(s: State, m: Move): Option<State> {
    if m.ThreadGoes? then ThreadStep(s, m) else DestroyerStep(s, m)
  }

  /** The state after a run; None when some move was not possible. */
  function Run(s: State, ms: seq<Move>): Option<State>
    decreases ms
  {
    if ms == [] then Some(s)
    else match Step(s, ms[0])
      case None => None
      case Some(t) => Run(t, ms[1..])
  }

  // ---------------------------------------------------------------- safety

  ghost predicate Safe(s: State) {
    // the thread and the status
    && (s.thread == Starting <==> s.status == Inited)
    && (s.thread == Finishing ==> s.status == GoingToStop)
    && (s.thread == Leaving ==> s.status == GoingToStop)
    && (s.thread == Exited <==> s.status == Stopped)
    // the destroyer and what it saw
    && (s.saw.None? <==> s.destroyer in {Idle, Observing})
    && (s.saw.Some? ==> s.saw.value in {Inited, Listening})
    && (s.saw == Some(Listening) ==> s.status != Inited)
    && (s.destroyer == Announcing ==> s.saw == Some(Listening) && s.status == Listening)
    && (s.destroyer in {Connecting, Waiting} ==> s.saw == Some(Listening))
    && (s.status in {GoingToStop, Stopped} <==> s.saw == Some(Listening) && s.destroyer != Announcing)
    && (s.destroyer in {Closing, Joining} && s.saw == Some(Listening) ==> s.status == Stopped)
    && (s.destroyer in {Freeing, Done} ==> s.thread == Exited)
    && (s.freed <==> s.destroyer == Done)
    // the wake-up connection
    && (s.woken ==> s.status in {GoingToStop, Stopped})
    && (s.woken && s.thread.Selecting? ==> s.pending)
  }

  lemma StepSafe(s: State, m: Move)
    requires Safe(s) && Step(s, m).Some?
    ensures Safe(Step(s, m).value)
  {
  }

  lemma {:induction false} RunSafe(s: State, ms: seq<Move>)
    requires Safe(s) && Run(s, ms).Some?
    ensures Safe(Run(s, ms).value)
    decreases ms
  {
    if ms != [] {
      StepSafe(s, ms[0]);
      RunSafe(Step(s, ms[0]).value, ms[1..]);
    }
  }

  /** In every interleaving the status moves forward one value at a time. */
  lemma StatusForward(ms: seq<Move>, m: Move)
    requires Run(START, ms).Some? && Step(Run(START, ms).value, m).Some?
    ensures var s := Run(START, ms).value;
      Order(s.status) <= Order(Step(s, m).value.status) <= Order(s.status) + 1
  {
    RunSafe(START, ms);
  }

  /**
   * In every interleaving the context is freed only after the thread's last access: whoever may
   * still move the thread finds the context there.
   */
  lemma FreedAfterLastAccess(ms: seq<Move>)
    requires Run(START, ms).Some?
    ensures var s := Run(START, ms).value;
      && (s.freed ==> s.thread == Exited && s.status == Stopped)
      && (s.freed ==> forall m: Move :: m.ThreadGoes? ==> ThreadStep(s, m).None?)
  {
    RunSafe(START, ms);
  }

  /**
   * server_destory returns only if it saw LISTENING.  Called before the thread has written
   * LISTENING it stops nothing and waits in pthread_join for ever.
   */
  lemma ReturnsOnlyIfItSawListening(ms: seq<Move>)
    requires Run(START, ms).Some?
    ensures var s := Run(START, ms).value;
      && (s.destroyer == Done ==> s.saw == Some(Listening))
      && (s.saw == Some(Inited) ==> s.thread != Exited && s.destroyer in {Closing, Joining})
  {
    RunSafe(START, ms);
  }

  // ---------------------------------------------------------------- stopping in bounded time

  /** The thread's steps to STOPED once the stop is announced and the wake-up is under way. */
  function StepsLeft(t: Thread): nat {
    match t
    case Starting => 0
    case Selecting(count) => count + 5
    case Serving(left) => left + 4
    case Checking => 3
    case Leaving => 2
    case Finishing => 1
    case Exited => 0
  }

  ghost predicate Stopping(s: State) {
    Safe(s) && s.woken
  }

  /** The thread is never blocked before it is through. */
  lemma NeverBlocked(s: State)
    requires Stopping(s) && s.status != Stopped
    ensures forall m: Move :: m.ThreadGoes? ==> ThreadStep(s, m).Some?
  {
  }

  lemma StoppingStep(s: State, m: Move)
    requires Stopping(s) && Step(s, m).Some?
    ensures var t := Step(s, m).value;
      Stopping(t) && StepsLeft(t.thread) == if !m.ThreadGoes? then StepsLeft(s.thread)
        else if s.thread.Selecting? && !m.ok then 3 else StepsLeft(s.thread) - 1
  {
  }

  function ThreadMoves(ms: seq<Move>): nat {
    if ms == [] then 0 else (if ms[0].ThreadGoes? then 1 else 0) + ThreadMoves(ms[1..])
  }

  /**
   * From any state in which the stop is announced and the wake-up connection made, in every
   * interleaving, the thread writes STOPED after at most as many of its steps as descriptors are
   * left in the current pass, plus a constant.
   */
  lemma {:induction false} StopsInTime(s: State, ms: seq<Move>)
    requires Stopping(s) && Run(s, ms).Some?
    ensures var t := Run(s, ms).value;
      && ThreadMoves(ms) + StepsLeft(t.thread) <= StepsLeft(s.thread)
      && (ThreadMoves(ms) == StepsLeft(s.thread) ==> t.status == Stopped)
    decreases ms
  {
    if ms != [] {
      StoppingStep(s, ms[0]);
      StopsInTime(Step(s, ms[0]).value, ms[1..]);
    }
  }

  /** From the start: the bound holds from the moment the wake-up connection is made. */
  lemma ReachesStopped(before: seq<Move>, after: seq<Move>)
    requires Run(START, before).Some? && Run(START, before).value.woken
    requires Run(Run(START, before).value, after).Some?
    ensures var s, t := Run(START, before).value, Run(Run(START, before).value, after).value;
      ThreadMoves(after) <= StepsLeft(s.thread) && (ThreadMoves(after) == StepsLeft(s.thread) ==> t.status == Stopped)
  {
    RunSafe(START, before);
    StopsInTime(Run(START, before).value, after);
  }

  // ---------------------------------------------------------------- returning

  lemma {:induction false} RunConcat(s: State, a: seq<Move>, b: seq<Move>)
    requires Run(s, a).Some?
    ensures Run(s, a + b) == Run(Run(s, a).value, b)
    decreases a
  {
    if a == [] {
      assert a + b == b;
    } else {
      assert (a + b)[1..] == a[1..] + b;
      RunConcat(Step(s, a[0]).value, a[1..], b);
    }
  }

  /** The destroyer's steps to its return once the thread has written STOPED. */
  function Rank(d: Destroyer): nat {
    match d
    case Idle => 0
    case Observing => 0
    case Announcing => 6
    case Connecting => 5
    case Waiting => 4
    case Closing => 3
    case Joining => 2
    case Freeing => 1
    case Done => 0
  }

  function DestroyerMoves(ms: seq<Move>): nat {
    if ms == [] then 0 else (if ms[0].DestroyerGoes? then 1 else 0) + DestroyerMoves(ms[1..])
  }

  /** After STOPED the destroyer is never blocked before it has returned. */
  lemma DestroyerGoesOn(s: State)
    requires Safe(s) && s.status == Stopped && s.destroyer != Done
    ensures forall m: Move :: m.DestroyerGoes? ==> DestroyerStep(s, m).Some?
  {
  }

  /** After STOPED every step of the destroyer brings it one nearer to its return, in every interleaving. */
  lemma {:induction false} DestroyerRank(s: State, ms: seq<Move>)
    requires Safe(s) && s.status == Stopped && Run(s, ms).Some?
    ensures Run(s, ms).value.status == Stopped
    ensures DestroyerMoves(ms) + Rank(Run(s, ms).value.destroyer) == Rank(s.destroyer)
    decreases ms
  {
    if ms != [] {
      StepSafe(s, ms[0]);
      DestroyerRank(Step(s, ms[0]).value, ms[1..]);
    }
  }

  /**
   * A destroyer that saw LISTENING and whose wake-up connection was made returns, in every
   * interleaving: after as many steps of the thread as descriptors are left in its pass, plus a
   * constant, the status is STOPED, and after five more of its own steps at the latest it is done.
   */
  lemma ReturnsInTime(before: seq<Move>, first: seq<Move>, second: seq<Move>)
    requires Run(START, before).Some? && Run(START, before).value.woken
    requires Run(Run(START, before).value, first).Some?
    requires ThreadMoves(first) == StepsLeft(Run(START, before).value.thread)
    requires Run(Run(Run(START, before).value, first).value, second).Some?
    ensures var s := Run(Run(START, before).value, first).value;
      && s.status == Stopped && Rank(s.destroyer) <= 5
      && (DestroyerMoves(second) == Rank(s.destroyer) ==> Run(s, second).value.destroyer == Done)
  {
    RunSafe(START, before);
    StopsInTime(Run(START, before).value, first);
    RunSafe(Run(START, before).value, first);
    var s := Run(Run(START, before).value, first).value;
    DestroyerRank(s, second);
    RunSafe(s, second);
  }

  /** A destroyer that saw INITED never returns. */
  lemma {:induction false} NeverReturns(s: State, ms: seq<Move>)
    requires Safe(s) && s.saw == Some(Inited) && Run(s, ms).Some?
    ensures Run(s, ms).value.saw == Some(Inited) && Run(s, ms).value.destroyer != Done
    decreases ms
  {
    if ms != [] {
      StepSafe(s, ms[0]);
      NeverReturns(Step(s, ms[0]).value, ms[1..]);
    }
  }

  /** Thread steps that lead to STOPED. */
  lemma {:induction false} CanStop(s: State) returns (ms: seq<Move>)
    requires Stopping(s)
    ensures Run(s, ms).Some? && Safe(Run(s, ms).value) && Run(s, ms).value.status == Stopped
    ensures Run(s, ms).value.destroyer == s.destroyer
    decreases StepsLeft(s.thread)
  {
    if s.status == Stopped {
      ms := [];
    } else {
      var m := ThreadGoes(true, false, 0, false);
      NeverBlocked(s);
      StoppingStep(s, m);
      var rest := CanStop(Step(s, m).value);
      ms := [m] + rest;
      assert ms[1..] == rest;
    }
  }

  /** Destroyer steps that lead from STOPED to the return. */
  lemma {:induction false} CanFinish(s: State) returns (ms: seq<Move>)
    requires Safe(s) && s.status == Stopped && s.destroyer != Idle && s.destroyer != Observing
    ensures Run(s, ms).Some? && Run(s, ms).value.destroyer == Done
    decreases Rank(s.destroyer)
  {
    if s.destroyer == Done {
      ms := [];
    } else {
      var m := DestroyerGoes(true);
      DestroyerGoesOn(s);
      StepSafe(s, m);
      var rest := CanFinish(Step(s, m).value);
      ms := [m] + rest;
      assert ms[1..] == rest;
    }
  }

  /** A run from the announcement on in which the wake-up connection is made and the destroyer returns. */
  lemma CanReturn(s: State) returns (ms: seq<Move>)
    requires Safe(s) && s.destroyer == Announcing
    ensures Run(s, ms).Some? && Run(s, ms).value.destroyer == Done
  {
    var m := DestroyerGoes(true);
    var a := Step(s, m).value;
    var b := Step(a, m).value;
    StepSafe(s, m);
    StepSafe(a, m);
    var first := CanStop(b);
    var second := CanFinish(Run(b, first).value);
    RunConcat(b, first, second);
    var two := [m] + [m];
    assert two[1..] == [m];
    assert Run(a, [m]) == Some(b);
    assert Run(s, two) == Some(b);
    ms := two + (first + second);
    RunConcat(s, two, first + second);
  }

  ghost predicate MayReturn(s: State) {
    exists ms: seq<Move> :: Run(s, ms).Some? && Run(s, ms).value.destroyer == Done
  }

  /**
   * What the destroyer reads decides, in every interleaving: once it has read the status, it may
   * return if and only if that was LISTENING.  The only other value it can read is INITED.
   */
  lemma ReturnsIffListening(before: seq<Move>, m: Move)
    requires Run(START, before).Some? && Run(START, before).value.destroyer == Observing && m.DestroyerGoes?
    ensures var s := Run(START, before).value;
      && (MayReturn(Step(s, m).value) <==> s.status == Listening)
      && (s.status != Listening ==> s.status == Inited)
  {
    RunSafe(START, before);
    var s := Run(START, before).value;
    StepSafe(s, m);
    var t := Step(s, m).value;
    if s.status == Listening {
      var ms := CanReturn(t);
    } else {
      forall ms: seq<Move> | Run(t, ms).Some? ensures Run(t, ms).value.destroyer != Done {
        NeverReturns(t, ms);
      }
    }
  }

  /** A destroyer that is faster than the server thread reads INITED. */
  lemma CanReadInited()
    ensures Run(START, [DestroyerGoes(true), DestroyerGoes(true)]).Some?
    ensures Run(START, [DestroyerGoes(true), DestroyerGoes(true)]).value.saw == Some(Inited)
  {
    var m := DestroyerGoes(true);
    assert [m, m][1..] == [m];
    assert Run(START.(destroyer := Observing), [m]).Some?;
  }

  /** Without the wake-up connection the thread can stay in select() for ever. */
  lemma CanBlockUnwoken(count: nat)
    ensures var go, go2 := ThreadGoes(true, false, count, false), DestroyerGoes(false);
      var r := Run(START, [go, go, go2, go2, go2, go2]);
      && r.Some? && !r.value.woken && r.value.destroyer == Waiting && r.value.status == GoingToStop
      && ThreadStep(r.value, go).None?
  {
    var go, go2 := ThreadGoes(true, false, count, false), DestroyerGoes(false);
    var s1 := START.(status := Listening, thread := Checking);
    var s2 := s1.(thread := Selecting(count));
    var s3 := s2.(destroyer := Observing);
    var s4 := s3.(saw := Some(Listening), destroyer := Announcing);
    var s5 := s4.(status := GoingToStop, destroyer := Connecting);
    var s6 := s5.(destroyer := Waiting);
    assert Run(s5, [go2]) == Some(s6);
    assert Run(s4, [go2, go2]) == Run(s5, [go2, go2][1..]);
    assert Run(s3, [go2, go2, go2]) == Run(s4, [go2, go2, go2][1..]);
    assert Run(s2, [go2, go2, go2, go2]) == Run(s3, [go2, go2, go2, go2][1..]);
    assert Run(s1, [go, go2, go2, go2, go2]) == Run(s2, [go, go2, go2, go2, go2][1..]);
    assert Run(START, [go, go, go2, go2, go2, go2]) == Run(s1, [go, go, go2, go2, go2, go2][1..]);
  }
}
