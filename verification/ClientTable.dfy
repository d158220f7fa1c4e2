/**
 * The IPC server's client table as a value, and one pass of the server loop over the descriptors
 * select() reported (ipc.c:195-305, documented at ipc.h:58-69).
 */
module ClientTable {
  import opened Options
  import opened Machine
  import opened Framing

  /** MAX_CONNECTOR and FD_SETSIZE. */
  const MAX_CONNECTOR := 50
  const FD_SETSIZE := 1024

  /** setup_sfd, sfd[..connector_count], socket_set and max_fd. */
  datatype Table = Table(setup: int, clients: seq<int>, registered: set<int>, maxFd: int)

  ghost predicate Distinct(s: seq<int>) {
    forall i, j :: 0 <= i < j < |s| ==> s[i] != s[j]
  }

  ghost predicate IsMax(m: int, s: set<int>) {
    m in s && forall f :: f in s ==> f <= m
  }

  /**
   * No descriptor twice; the set select() watches is the listening descriptor and exactly the
   * clients; max_fd is its maximum.
   */
  ghost predicate Valid(t: Table) {
    && |t.clients| <= MAX_CONNECTOR
    && Distinct(t.clients)
    && t.setup !in t.clients
    && (forall f :: f in t.registered <==> f == t.setup || f in t.clients)
    && (forall f :: f in t.registered ==> 0 <= f < FD_SETSIZE)
    && IsMax(t.maxFd, t.registered)
  }

  function IndexOf(s: seq<int>, f: int): (r: nat)
    ensures r <= |s| && (r < |s| ==> s[r] == f)
    ensures forall i :: 0 <= i < r ==> s[i] != f
  {
    if s == [] || s[0] == f then 0 else 1 + IndexOf(s[1..], f)
  }

  function Max(a: int, b: int): int {
    if a < b then b else a
  }

  function MaxOf(s: seq<int>, floor: int): (m: int)
    ensures floor <= m && (m == floor || m in s)
    ensures forall f :: f in s ==> f <= m
  {
    if s == [] then floor
    else
      assert s == s[..|s| - 1] + [s[|s| - 1]];
      Max(MaxOf(s[..|s| - 1], floor), s[|s| - 1])
  }

  /** The last client takes the place of the one that leaves. */
  function SwapOut(s: seq<int>, k: nat): (r: seq<int>)
    requires k < |s|
    ensures |r| == |s| - 1
  {
    s[k := s[|s| - 1]][..|s| - 1]
  }

  function AcceptClient(t: Table, fd: int): Table {
    t.(clients := t.clients + [fd], registered := t.registered + {fd}, maxFd := Max(t.maxFd, fd))
  }

  function CloseClient(t: Table, fd: int): Table {
    var k := IndexOf(t.clients, fd);
    var clients := if k < |t.clients| then SwapOut(t.clients, k) else t.clients;
    t.(clients := clients, registered := t.registered - {fd}, maxFd := Max(MaxOf(clients, 0), t.setup))
  }

  /** accept() hands out a descriptor that is not in use; fewer than 50 clients are connected. */
  predicate Acceptable(t: Table, fd: int) {
    0 <= fd < FD_SETSIZE && fd !in t.registered && |t.clients| < MAX_CONNECTOR
  }

  lemma ValidStart(socket: int)
    requires 0 <= socket < FD_SETSIZE
    ensures Valid(Table(socket, [], {socket}, socket))
  {
  }

  lemma ClientsAreRegistered(t: Table)
    requires Valid(t)
    ensures forall f :: f in t.clients ==> f in t.registered && 0 <= f
    ensures forall f :: f in t.registered && f != t.setup ==> f in t.clients
  {
  }

  lemma AcceptKeeps(t: Table, fd: int)
    requires Valid(t) && Acceptable(t, fd)
    ensures Valid(AcceptClient(t, fd))
  {
    var r := AcceptClient(t, fd);
    assert fd !in t.clients;
    assert forall f :: f in r.clients <==> f in t.clients || f == fd;
  }

  /** Swapping out leaves every other client, each once. */
  lemma SwapOutKeeps(s: seq<int>, k: nat)
    requires Distinct(s) && k < |s|
    ensures Distinct(SwapOut(s, k))
    ensures forall f :: f in SwapOut(s, k) <==> f in s && f != s[k]
  {
    var r := SwapOut(s, k);
    assert forall i :: 0 <= i < |r| ==> r[i] == s[if i == k then |s| - 1 else i];
    forall f | f in s && f != s[k] ensures f in r {
      var i :| 0 <= i < |s| && s[i] == f;
      assert r[if i == |s| - 1 then k else i] == f;
    }
  }

  lemma CloseKeeps(t: Table, fd: int)
    requires Valid(t) && fd in t.registered && fd != t.setup
    ensures Valid(CloseClient(t, fd))
    ensures CloseClient(t, fd).registered == t.registered - {fd}
  {
    var k := IndexOf(t.clients, fd);
    assert k < |t.clients|;
    SwapOutKeeps(t.clients, k);
    var r := CloseClient(t, fd);
    assert t.setup in t.registered;
  }

  // ---------------------------------------------------------------- one pass

  /** A message handed to the handler, and whether its client was closed in the same step. */
  datatype Dispatch<J> = Dispatch(fd: int, message: J, closed: bool)

  datatype Progress<J> = Progress(table: Table, log: seq<Dispatch<J>>)

  /**
   * What the environment does during one pass: what accept() returns if asked, what read_request
   * answers for each descriptor, and how many members a message has.
   */
  datatype World<!J> = World(accepted: int, answer: int -> Answer<J>, members: J -> nat, handler: bool)

  /** The turn of descriptor i. */
  function Turn<J>(p: Progress<J>, ready: set<int>, w: World<J>, i: int): Progress<J> {
    if i !in ready then p
    else if i == p.table.setup then
      if w.accepted == -1 then p else p.(table := AcceptClient(p.table, w.accepted))
    else
      var a := w.answer(i);
      var closed := a.ret <= 0;
      var table := if closed then CloseClient(p.table, i) else p.table;
      var log := if w.handler && a.data.Parsed? && w.members(a.data.value) > 0
                 then p.log + [Dispatch(i, a.data.value, closed)] else p.log;
      Progress(table, log)
  }

  /** The state after the turns of the descriptors below n. */
  function Pass<J>(p: Progress<J>, ready: set<int>, w: World<J>, n: nat): Progress<J> {
    if n == 0 then p else Turn(Pass(p, ready, w, n - 1), ready, w, n - 1)
  }

  /** accept() behaves when the turn of the listening descriptor comes. */
  predicate Feasible<J>(p: Progress<J>, ready: set<int>, w: World<J>) {
    w.accepted == -1 || p.table.setup < 0 || Acceptable(Pass(p, ready, w, p.table.setup).table, w.accepted)
  }

  lemma TurnKeeps<J>(p: Progress<J>, ready: set<int>, w: World<J>, i: int)
    requires Valid(p.table) && (i in ready ==> i in p.table.registered)
    requires i == p.table.setup && w.accepted != -1 ==> Acceptable(p.table, w.accepted)
    ensures var t := Turn(p, ready, w, i).table;
      && Valid(t) && t.setup == p.table.setup
      && (forall f :: f in p.table.registered && f != i ==> f in t.registered)
  {
    if i in ready {
      if i == p.table.setup {
        if w.accepted != -1 { AcceptKeeps(p.table, w.accepted); }
      } else {
        CloseKeeps(p.table, i);
      }
    }
  }

  /**
   * Every table a pass goes through is valid, and a descriptor whose turn is still to come is
   * still registered, even when accept() reuses the number of one closed earlier in the pass.
   */
  lemma {:induction false} PassKeeps<J>(p: Progress<J>, ready: set<int>, w: World<J>, n: nat)
    requires Valid(p.table) && ready <= p.table.registered && Feasible(p, ready, w)
    ensures var t := Pass(p, ready, w, n).table;
      && Valid(t) && t.setup == p.table.setup
      && (forall f :: f in ready && n <= f ==> f in t.registered)
  {
    if n > 0 {
      PassKeeps(p, ready, w, n - 1);
      PassStepKeeps(p.table, Pass(p, ready, w, n - 1), Pass(p, ready, w, n), ready, w, n);
    }
  }

  lemma PassStepKeeps<J>(t: Table, q: Progress<J>, r: Progress<J>, ready: set<int>, w: World<J>, n: nat)
    requires n > 0 && Valid(q.table) && q.table.setup == t.setup && r == Turn(q, ready, w, n - 1)
    requires forall f :: f in ready && n - 1 <= f ==> f in q.table.registered
    requires n - 1 == t.setup && w.accepted != -1 ==> Acceptable(q.table, w.accepted)
    ensures Valid(r.table) && r.table.setup == t.setup
    ensures forall f :: f in ready && n <= f ==> f in r.table.registered
  {
    TurnKeeps(q, ready, w, n - 1);
  }

  /** Every descriptor select() reported gets its turn: max_fd bounds the pass. */
  lemma PassReachesAll(t: Table, ready: set<int>)
    requires Valid(t) && ready <= t.registered
    ensures forall f :: f in ready ==> 0 <= f < t.maxFd + 1
  {
  }

  /** The clients a pass has closed by the turn of descriptor n. */
  ghost function Closed<J>(setup: int, ready: set<int>, w: World<J>, n: nat): set<int> {
    set f | f in ready && f < n && f != setup && w.answer(f).ret <= 0
  }

  /** The client a pass has accepted by the turn of descriptor n. */
  ghost function Accepted<J>(setup: int, ready: set<int>, w: World<J>, n: nat): set<int> {
    if setup in ready && setup < n && w.accepted != -1 then {w.accepted} else {}
  }

  /** What one turn does to the watched descriptors. */
  lemma TurnRegistered<J>(p: Progress<J>, ready: set<int>, w: World<J>, i: int)
    requires Valid(p.table) && (i in ready ==> i in p.table.registered)
    ensures Turn(p, ready, w, i).table.registered ==
      if i !in ready then p.table.registered
      else if i == p.table.setup then p.table.registered + (if w.accepted == -1 then {} else {w.accepted})
      else if w.answer(i).ret <= 0 then p.table.registered - {i}
      else p.table.registered
  {
    if i in ready && i != p.table.setup { CloseKeeps(p.table, i); }
  }

  /** The descriptors after a pass: those before, without the ones closed, with the one accepted. */
  lemma {:induction false} PassRegistered<J>(p: Progress<J>, ready: set<int>, w: World<J>, n: nat)
    requires Valid(p.table) && ready <= p.table.registered && Feasible(p, ready, w)
    ensures Pass(p, ready, w, n).table.registered
         == p.table.registered - Closed(p.table.setup, ready, w, n) + Accepted(p.table.setup, ready, w, n)
  {
    if n == 0 {
      assert Closed(p.table.setup, ready, w, 0) == {} by { PassReachesAll(p.table, ready); }
    } else {
      PassRegistered(p, ready, w, n - 1);
      PassKeeps(p, ready, w, n - 1);
      var q := Pass(p, ready, w, n - 1);
      TurnRegistered(q, ready, w, n - 1);
      ClosedStep(p.table, ready, w, n);
      AcceptedStep(p, ready, w, n);
      RegisteredStep(p, q, ready, w, n, Turn(q, ready, w, n - 1).table.registered);
    }
  }

  lemma RegisteredStep<J>(p: Progress<J>, q: Progress<J>, ready: set<int>, w: World<J>, n: nat, registered: set<int>)
    requires n > 0 && q.table.setup == p.table.setup
    requires q.table.registered
          == p.table.registered - Closed(p.table.setup, ready, w, n - 1) + Accepted(p.table.setup, ready, w, n - 1)
    requires n - 1 in ready ==> n - 1 !in Accepted(p.table.setup, ready, w, n - 1)
    requires registered ==
      if n - 1 !in ready then q.table.registered
      else if n - 1 == q.table.setup then q.table.registered + (if w.accepted == -1 then {} else {w.accepted})
      else if w.answer(n - 1).ret <= 0 then q.table.registered - {n - 1}
      else q.table.registered
    requires Closed(p.table.setup, ready, w, n) == Closed(p.table.setup, ready, w, n - 1)
      + if n - 1 in ready && n - 1 != p.table.setup && w.answer(n - 1).ret <= 0 then {n - 1} else {}
    requires Accepted(p.table.setup, ready, w, n) == Accepted(p.table.setup, ready, w, n - 1)
      + if n - 1 in ready && n - 1 == p.table.setup && w.accepted != -1 then {w.accepted} else {}
    ensures registered == p.table.registered - Closed(p.table.setup, ready, w, n) + Accepted(p.table.setup, ready, w, n)
  {
    if n - 1 in ready {
      var setup := p.table.setup;
      TakeOut(p.table.registered, Closed(setup, ready, w, n - 1), Accepted(setup, ready, w, n - 1), n - 1);
    }
  }

  lemma TakeOut(all: set<int>, closed: set<int>, accepted: set<int>, i: int)
    requires i !in accepted
    ensures all - closed + accepted - {i} == all - (closed + {i}) + accepted
  {
  }

  lemma AcceptedStep<J>(p: Progress<J>, ready: set<int>, w: World<J>, n: nat)
    requires Valid(p.table) && ready <= p.table.registered && Feasible(p, ready, w) && n > 0
    ensures Accepted(p.table.setup, ready, w, n) == Accepted(p.table.setup, ready, w, n - 1)
      + if n - 1 in ready && n - 1 == p.table.setup && w.accepted != -1 then {w.accepted} else {}
    ensures n - 1 in ready ==> n - 1 !in Accepted(p.table.setup, ready, w, n - 1)
  {
    if w.accepted != -1 { AcceptedIsNew(p, ready, w); }
  }

  lemma ClosedStep<J>(t: Table, ready: set<int>, w: World<J>, n: nat)
    requires n > 0
    ensures Closed(t.setup, ready, w, n) == Closed(t.setup, ready, w, n - 1)
      + if n - 1 in ready && n - 1 != t.setup && w.answer(n - 1).ret <= 0 then {n - 1} else {}
  {
  }

  /** The number accept() returns is not one whose turn is still to come. */
  lemma AcceptedIsNew<J>(p: Progress<J>, ready: set<int>, w: World<J>)
    requires Valid(p.table) && ready <= p.table.registered && Feasible(p, ready, w)
    requires w.accepted != -1
    ensures forall f :: f in ready && f >= p.table.setup ==> f != w.accepted
  {
    assert p.table.setup in p.table.registered;
    PassKeeps(p, ready, w, p.table.setup);
  }

  // ---------------------------------------------------------------- pass after pass

  /** One turn of the server loop: what select() reports and what the environment does in the pass. */
  datatype Round<!J> = Round(ready: set<int>, w: World<J>)

  function ServeRound<J>(t: Table, r: Round<J>): Progress<J>
    requires 0 <= t.maxFd
  {
    Pass(Progress(t, []), r.ready, r.w, t.maxFd + 1)
  }

  /** select() reports watched descriptors, and accept() behaves. */
  predicate PossibleRound<J>(t: Table, r: Round<J>) {
    r.ready <= t.registered && Feasible(Progress(t, []), r.ready, r.w)
  }

  /** The table after a run of passes; None if some pass was not possible. */
  ghost function Rounds<J>(t: Table, rs: seq<Round<J>>): Option<Table> {
    if rs == [] then Some(t)
    else
      match Rounds(t, rs[..|rs| - 1])
      case None => None
      case Some(u) =>
        if 0 <= u.maxFd && PossibleRound(u, rs[|rs| - 1]) then Some(ServeRound(u, rs[|rs| - 1]).table) else None
  }

  /** The clients connected after a run, told from what the rounds accepted and closed. */
  ghost function Connected<J>(setup: int, rs: seq<Round<J>>): set<int> {
    if rs == [] then {}
    else
      var r := rs[|rs| - 1];
      Connected(setup, rs[..|rs| - 1])
      - (set f | f in r.ready && f != setup && r.w.answer(f).ret <= 0)
      + (if setup in r.ready && r.w.accepted != -1 then {r.w.accepted} else {})
  }

  lemma RoundKeeps<J>(t: Table, r: Round<J>, connected: set<int>)
    requires Valid(t) && PossibleRound(t, r) && t.registered == {t.setup} + connected && t.setup !in connected
    ensures 0 <= t.maxFd
    ensures var u := ServeRound(t, r).table;
      && Valid(u) && u.setup == t.setup && t.setup !in connected
      && u.registered == {t.setup} + (connected - (set f | f in r.ready && f != t.setup && r.w.answer(f).ret <= 0)
                                      + (if t.setup in r.ready && r.w.accepted != -1 then {r.w.accepted} else {}))
  {
    assert t.maxFd in t.registered;
    var p: Progress<J>, n := Progress(t, []), t.maxFd + 1;
    PassKeeps(p, r.ready, r.w, n);
    PassRegistered(p, r.ready, r.w, n);
    PassReachesAll(t, r.ready);
    assert Closed(t.setup, r.ready, r.w, n) == set f | f in r.ready && f != t.setup && r.w.answer(f).ret <= 0;
    assert Accepted(t.setup, r.ready, r.w, n) ==
      if t.setup in r.ready && r.w.accepted != -1 then {r.w.accepted} else {};
  }

  /** The number accept() returns is never that of the listening descriptor. */
  lemma AcceptedIsNotSetup<J>(t: Table, r: Round<J>)
    requires Valid(t) && PossibleRound(t, r) && t.setup in r.ready && r.w.accepted != -1
    ensures r.w.accepted != t.setup
  {
    AcceptedIsNew(Progress(t, []), r.ready, r.w);
  }

  lemma OnlyListening(t: Table)
    requires Valid(t) && t.clients == []
    ensures t.registered == {t.setup}
  {
    ClientsAreRegistered(t);
    assert t.setup in t.registered;
    assert forall f :: f in t.registered ==> f == t.setup || f in t.clients;
  }

  /**
   * Over every run of passes the table stays valid, and the watched descriptors are the listening
   * one and exactly the clients accepted and not closed since, however numbers are reused.
   */
  lemma {:induction false} RoundsRegistered<J>(t: Table, rs: seq<Round<J>>)
    requires Valid(t) && t.clients == [] && Rounds(t, rs).Some?
    ensures var u := Rounds(t, rs).value;
      && Valid(u) && u.setup == t.setup && t.setup !in Connected(t.setup, rs)
      && u.registered == {t.setup} + Connected(t.setup, rs)
  {
    if rs == [] {
      OnlyListening(t);
    } else {
      var earlier, r := rs[..|rs| - 1], rs[|rs| - 1];
      RoundsRegistered(t, earlier);
      var u := Rounds(t, earlier).value;
      RoundKeeps(u, r, Connected(t.setup, earlier));
      if t.setup in r.ready && r.w.accepted != -1 { AcceptedIsNotSetup(u, r); }
    }
  }

  // ---------------------------------------------------------------- dispatching

  /**
   * A client closed in a step never has a message dispatched, so a reply always has a receiver.
   */
  lemma {:induction false} NoDispatchAfterClose<J>(p: Progress<J>, ready: set<int>, w: World<J>, n: nat)
    requires forall f :: w.answer(f).data.Parsed? ==> w.answer(f).ret > 0
    requires forall k :: 0 <= k < |p.log| ==> !p.log[k].closed
    ensures forall k :: 0 <= k < |Pass(p, ready, w, n).log| ==> !Pass(p, ready, w, n).log[k].closed
  {
    if n > 0 { NoDispatchAfterClose(p, ready, w, n - 1); }
  }

  /** A reported client whose answer is a message with members. */
  ghost predicate HasMessage<J>(setup: int, ready: set<int>, w: World<J>, f: int) {
    f in ready && f != setup && w.handler && w.answer(f).data.Parsed? && w.members(w.answer(f).data.value) > 0
  }

  ghost predicate IsDispatch<J>(w: World<J>, d: Dispatch<J>) {
    w.answer(d.fd).data == Parsed(d.message) && (d.closed <==> w.answer(d.fd).ret <= 0)
  }

  /**
   * A pass hands the handler the message of every reported client that sent one, each once, in the
   * order of their descriptors, and nothing else.
   */
  lemma {:induction false} PassDispatches<J>(p: Progress<J>, ready: set<int>, w: World<J>, n: nat)
    requires p.log == [] && forall f :: f in ready ==> 0 <= f
    ensures Pass(p, ready, w, n).table.setup == p.table.setup
    ensures var log := Pass(p, ready, w, n).log;
      && (forall k :: 0 <= k < |log| ==>
            HasMessage(p.table.setup, ready, w, log[k].fd) && IsDispatch(w, log[k]) && log[k].fd < n)
      && (forall j, k :: 0 <= j < k < |log| ==> log[j].fd < log[k].fd)
      && (forall f :: HasMessage(p.table.setup, ready, w, f) && f < n ==> exists k :: 0 <= k < |log| && log[k].fd == f)
  {
    if n > 0 {
      PassDispatches(p, ready, w, n - 1);
      var before, log := Pass(p, ready, w, n - 1).log, Pass(p, ready, w, n).log;
      assert forall k :: 0 <= k < |before| ==> log[k] == before[k];
      if HasMessage(p.table.setup, ready, w, n - 1) {
        assert log[|before|].fd == n - 1;
      }
      forall f | HasMessage(p.table.setup, ready, w, f) && f < n - 1
        ensures exists k :: 0 <= k < |log| && log[k].fd == f
      {
        var k :| 0 <= k < |before| && before[k].fd == f;
        assert log[k].fd == f;
      }
    }
  }

  /** What select() reported is what each descriptor has to say. */
  ghost predicate AnswersFrom<J(!new)>(w: World<J>, scripts: int -> seq<Arrival>, parse: seq<byte> -> Option<J>,
                                       memory: nat -> bool, size: nat)
    requires 0 < size <= MAX_REQUEST
  {
    forall f :: Proper(scripts(f)) && w.answer(f) == Request(scripts(f), parse, memory, size)
  }

  /** The same for answers that read_request really gives, whatever the clients send. */
  lemma ReplyHasReceiver<J(!new)>(p: Progress<J>, ready: set<int>, w: World<J>, n: nat, scripts: int -> seq<Arrival>,
                                  parse: seq<byte> -> Option<J>, memory: nat -> bool, size: nat)
    requires 0 < size <= MAX_REQUEST && parse([]).None?
    requires AnswersFrom(w, scripts, parse, memory, size) && p.log == []
    ensures forall k :: 0 <= k < |Pass(p, ready, w, n).log| ==> !Pass(p, ready, w, n).log[k].closed
  {
    forall f ensures w.answer(f).data.Parsed? ==> w.answer(f).ret > 0 {
      assert Proper(scripts(f));
      RequestSound(scripts(f), parse, memory, size);
    }
    NoDispatchAfterClose(p, ready, w, n);
  }
}
