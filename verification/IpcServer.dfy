/** The IPC server's loop on its table, an array updated in place (ipc.c:195-316). */
module IpcServer {
  import opened Options
  import opened Framing
  import opened ClientTable

  class Server {
    const setup: int
    const sfd: array<int>
    var connectorCount: nat
    var socketSet: set<int>
    var maxFd: int

    ghost function Abstract(): Table
      reads this, sfd
      requires connectorCount <= sfd.Length
    {
      Table(setup, sfd[..connectorCount], socketSet, maxFd)
    }

    /** Slots after the last client hold -1. */
    ghost predicate Consistent()
      reads this, sfd
    {
      && sfd.Length == MAX_CONNECTOR && connectorCount <= MAX_CONNECTOR
      && (forall k :: connectorCount <= k < MAX_CONNECTOR ==> sfd[k] == -1)
      && Valid(Abstract())
    }

    /** server_create, once the listening socket is there. */
    constructor (socket: int)
      requires 0 <= socket < FD_SETSIZE
      ensures Consistent() && fresh(sfd)
      ensures Abstract() == Table(socket, [], {socket}, socket)
    {
      setup, connectorCount, socketSet, maxFd := socket, 0, {socket}, socket;
      sfd := new int[MAX_CONNECTOR](i => -1);
      new;
      ValidStart(socket);
      assert sfd[..connectorCount] == [];
    }

    method AddClient(fd: int)
      requires Consistent() && Acceptable(Abstract(), fd)
      modifies this, sfd
      ensures Consistent() && Abstract() == AcceptClient(old(Abstract()), fd)
    {
      ghost var t := Abstract();
      AcceptKeeps(t, fd);
      sfd[connectorCount] := fd;
      connectorCount := connectorCount + 1;
      socketSet := socketSet + {fd};
      maxFd := if maxFd > fd then maxFd else fd;
      assert sfd[..connectorCount] == t.clients + [fd];
      assert Abstract() == AcceptClient(t, fd);
    }

    /**
     * Closes a client: one loop both moves the last client into the free slot and recomputes the
     * maximum.
     */
    method RemoveClient(fd: int)
      requires Consistent() && fd in socketSet && fd != setup
      modifies this, sfd
      ensures Consistent() && Abstract() == CloseClient(old(Abstract()), fd)
    {
      CloseKeeps(Abstract(), fd);
      ClientsAreRegistered(Abstract());
      socketSet := socketSet - {fd};
      var max := Sweep(fd);
      if max < setup {
        max := setup;
      }
      maxFd := max;
    }

    method Sweep(fd: int) returns (max: int)
      requires sfd.Length == MAX_CONNECTOR && connectorCount <= MAX_CONNECTOR
      requires Distinct(sfd[..connectorCount]) && fd in sfd[..connectorCount] && fd != -1
      requires forall j :: connectorCount <= j < MAX_CONNECTOR ==> sfd[j] == -1
      requires forall f :: f in sfd[..connectorCount] ==> 0 <= f
      modifies this`connectorCount, sfd
      ensures connectorCount == old(connectorCount) - 1
      ensures var s := old(sfd[..connectorCount]);
        sfd[..connectorCount] == SwapOut(s, IndexOf(s, fd))
      ensures forall j :: connectorCount <= j < MAX_CONNECTOR ==> sfd[j] == -1
      ensures max == MaxOf(sfd[..connectorCount], 0)
    {
      ghost var s := sfd[..connectorCount];
      ghost var k := IndexOf(s, fd);
      ghost var r := SwapOut(s, k);
      max := 0;
      var tmp := 0;
      while tmp < connectorCount
        invariant sfd.Length == MAX_CONNECTOR && tmp <= |s|
        invariant connectorCount == if tmp <= k then |s| else |r|
        invariant sfd[..connectorCount] == if tmp <= k then s else r
        invariant forall j :: connectorCount <= j < MAX_CONNECTOR ==> sfd[j] == -1
        invariant max == MaxOf(r[..if tmp <= |r| then tmp else |r|], 0)
        decreases |s| - tmp
      {
        max := SweepTurn(tmp, fd, max, s, k, r);
        tmp := tmp + 1;
      }
      assert r[..|r|] == r;
    }

    /** One turn of the loop: before the client is found, at it, or behind it. */
    method SweepTurn(tmp: nat, fd: int, before: int, ghost s: seq<int>, ghost k: nat, ghost r: seq<int>)
      returns (max: int)
      requires sfd.Length == MAX_CONNECTOR && tmp < connectorCount <= MAX_CONNECTOR
      requires Distinct(s) && k == IndexOf(s, fd) && k < |s| && r == SwapOut(s, k)
      requires forall f :: f in s ==> 0 <= f
      requires connectorCount == if tmp <= k then |s| else |r|
      requires sfd[..connectorCount] == if tmp <= k then s else r
      requires forall j :: connectorCount <= j < MAX_CONNECTOR ==> sfd[j] == -1
      requires before == MaxOf(r[..if tmp <= |r| then tmp else |r|], 0)
      modifies this`connectorCount, sfd
      ensures connectorCount == if tmp < k then |s| else |r|
      ensures sfd[..connectorCount] == if tmp < k then s else r
      ensures forall j :: connectorCount <= j < MAX_CONNECTOR ==> sfd[j] == -1
      ensures max == MaxOf(r[..if tmp < |r| then tmp + 1 else |r|], 0)
    {
      SweepStep(s, k, fd, tmp);
      max := SweepAt(tmp, fd, before);
    }

    /** The body of the loop. */
    method SweepAt(tmp: nat, fd: int, before: int) returns (max: int)
      requires sfd.Length == MAX_CONNECTOR && tmp < connectorCount <= MAX_CONNECTOR
      requires forall j :: connectorCount <= j < MAX_CONNECTOR ==> sfd[j] == -1
      modifies this`connectorCount, sfd
      ensures forall j :: connectorCount <= j < MAX_CONNECTOR ==> sfd[j] == -1
      ensures var s := old(sfd[..connectorCount]);
        && connectorCount == (if s[tmp] == fd then |s| - 1 else |s|)
        && sfd[..connectorCount] == (if s[tmp] == fd then SwapOut(s, tmp) else s)
        && max == Max(before, if tmp < connectorCount then sfd[..connectorCount][tmp] else -1)
    {
      if sfd[tmp] == fd {
        connectorCount := connectorCount - 1;
        sfd[tmp] := sfd[connectorCount];
        sfd[connectorCount] := -1;
      }
      max := if before < sfd[tmp] then sfd[tmp] else before;
    }

    /**
     * One pass of the loop over what select() reported.  `count` is read before the pass; max_fd
     * may change during it.
     */
    method ServePass<J>(ready: set<int>, w: World<J>) returns (log: seq<Dispatch<J>>)
      requires Consistent() && ready <= socketSet
      requires Feasible(Progress(Abstract(), []), ready, w)
      modifies this, sfd
      ensures Consistent()
      ensures Progress(Abstract(), log) == Pass(Progress(old(Abstract()), []), ready, w, old(maxFd) + 1)
    {
      log := [];
      ghost var p: Progress<J> := Progress(Abstract(), []);
      var count := maxFd + 1;
      for i := 0 to count
        invariant Consistent()
        invariant Progress(Abstract(), log) == Pass(p, ready, w, i)
      {
        PassKeeps(p, ready, w, i);
        if i in ready {
          assert i in socketSet;
          if setup == i {
            if w.accepted != -1 {
              AddClient(w.accepted);
            }
          } else {
            var a := w.answer(i);
            var fdClosed := false;
            if a.ret <= 0 {
              RemoveClient(i);
              fdClosed := true;
            }
            if w.handler && a.data.Parsed? && w.members(a.data.value) > 0 {
              log := log + [Dispatch(i, a.data.value, fdClosed)];
            }
          }
        }
      }
    }

    /** The server loop for as long as `rounds` lasts. */
    method ServeRounds<J>(rounds: seq<Round<J>>)
      requires Consistent() && Rounds(Abstract(), rounds).Some?
      modifies this, sfd
      ensures Consistent() && Some(Abstract()) == Rounds(old(Abstract()), rounds)
    {
      ghost var t := Abstract();
      var i := 0;
      while i < |rounds|
        invariant i <= |rounds|
        invariant Consistent() && Some(Abstract()) == Rounds(t, rounds[..i])
      {
        RoundsPrefix(t, rounds, i);
        var _ := ServePass(rounds[i].ready, rounds[i].w);
        i := i + 1;
      }
      assert rounds[..i] == rounds;
    }

    /** The end of the server thread: every client is closed. */
    method CloseAll()
      requires Consistent()
      modifies this`connectorCount, sfd
      ensures connectorCount == 0 && forall k :: 0 <= k < MAX_CONNECTOR ==> sfd[k] == -1
    {
      for i := 0 to connectorCount
        invariant connectorCount == old(connectorCount)
        invariant forall k :: 0 <= k < i || connectorCount <= k < MAX_CONNECTOR ==> sfd[k] == -1
      {
        sfd[i] := -1;
      }
      connectorCount := 0;
    }
  }

  /** A run that is possible is possible one round at a time. */
  lemma {:induction false} RoundsPrefix<J>(t: Table, rs: seq<Round<J>>, i: nat)
    requires Rounds(t, rs).Some? && i < |rs|
    ensures Rounds(t, rs[..i]).Some? && Rounds(t, rs[..i + 1]).Some?
    ensures var u := Rounds(t, rs[..i]).value;
      0 <= u.maxFd && PossibleRound(u, rs[i]) && Rounds(t, rs[..i + 1]) == Some(ServeRound(u, rs[i]).table)
    decreases |rs|
  {
    if i == |rs| - 1 {
      assert rs[..i + 1] == rs;
    } else {
      var earlier := rs[..|rs| - 1];
      RoundsPrefix(t, earlier, i);
      assert earlier[..i] == rs[..i] && earlier[..i + 1] == rs[..i + 1];
    }
  }

  /** Before position k nothing is found, at k the client leaves, after k the moved ones follow. */
  lemma SweepStep(s: seq<int>, k: nat, fd: int, tmp: nat)
    requires Distinct(s) && k == IndexOf(s, fd) && k < |s|
    requires tmp < |s| && (tmp > k ==> tmp < |s| - 1)
    ensures var r := SwapOut(s, k);
      && (tmp <= k ==> (s[tmp] == fd <==> tmp == k))
      && (tmp > k ==> r[tmp] != fd)
      && (tmp < k ==> r[tmp] == s[tmp])
      && (tmp < |r| ==> MaxOf(r[..tmp + 1], 0) == Max(MaxOf(r[..tmp], 0), r[tmp]))
  {
    var r := SwapOut(s, k);
    SwapOutKeeps(s, k);
    if tmp < |r| {
      MaxStep(r, tmp);
      assert r[tmp] in r;
    }
  }

  lemma MaxStep(s: seq<int>, k: nat)
    requires k < |s|
    ensures MaxOf(s[..k + 1], 0) == Max(MaxOf(s[..k], 0), s[k])
  {
    assert s[..k + 1][..k] == s[..k];
  }
}
