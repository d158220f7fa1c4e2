/** The window of the EGL sample as its callbacks change it in place. */
module EglWindow {
  import opened Options
  import opened EglBuffers

  /** struct buffer. */
  class Buffer {
    var busy: bool
    var release: Option<Token>
    var fence: Option<Token>

    constructor ()
      ensures !busy && release == None && fence == None
    {
      busy, release, fence := false, None, None;
    }

    function Value(): Buf
      reads this
    {
      Buf(busy, release, fence)
    }
  }

  class Window {
    const buffers: array<Buffer>
    var status: Status
    ghost var owner: map<Token, nat>
    ghost var handed: seq<Token>
    ghost var closed: seq<Token>
    var released: nat
    var received: nat

    ghost predicate Shape()
      reads this, buffers
    {
      && buffers.Length == NUM_BUFFERS
      && buffers[0] != buffers[1] && buffers[0] != buffers[2] && buffers[1] != buffers[2]
    }

    ghost function Bufs(): (bufs: seq<Buf>)
      reads this, buffers, buffers[..]
      requires Shape()
      ensures |bufs| == NUM_BUFFERS
    {
      [buffers[0].Value(), buffers[1].Value(), buffers[2].Value()]
    }

    ghost function View(): State
      reads this, buffers, buffers[..]
      requires Shape()
    {
      State(Bufs(), owner, released, received, handed, closed, status)
    }

    ghost predicate Valid()
      reads this, buffers, buffers[..]
    {
      Shape() && Sound(View())
    }

    constructor ()
      ensures Shape() && View() == START && fresh(buffers) && fresh(buffers[..])
    {
      var a := new Buffer();
      var b := new Buffer();
      var c := new Buffer();
      buffers := new Buffer[NUM_BUFFERS][a, b, c];
      status, owner, handed, closed, released, received := Running, map[], [], [], 0, 0;
    }

    /** window_next_buffer. */
    method Next() returns (i: Option<nat>)
      requires Shape()
      ensures i == NextBuffer(Bufs(), 0)
    {
      for k := 0 to NUM_BUFFERS
        invariant NextBuffer(Bufs(), 0) == NextBuffer(Bufs(), k)
      {
        assert Bufs()[k].busy == buffers[k].busy;
        if !buffers[k].busy {
          return Some(k);
        }
      }
      return None;
    }

    /** wait_for_buffer_release_fence. */
    method Wait(i: nat, imported: bool, waited: bool)
      requires Shape() && i < NUM_BUFFERS && buffers[i].fence.Some?
      modifies this, buffers[i]
      ensures Shape() && View() == WaitFence(old(View()), i, imported, waited)
    {
      if !imported {
        status := Aborted;
        return;
      }
      handed := handed + [buffers[i].fence.value];
      buffers[i].fence := None;
      if !waited {
        status := Aborted;
      }
      assert Bufs() == old(Bufs())[i := old(Bufs())[i].(fence := None)];
    }

    /** redraw. */
    method Redraw(imported: bool, waited: bool, acquired: bool)
      requires Valid() && status == Running
      modifies this, buffers[..]
      ensures Valid() && View() == Redrawn(old(View()), imported, waited, acquired)
    {
      RedrawnSound(View(), imported, waited, acquired);
      var next := Next();
      if next == None {
        status := Aborted;
        return;
      }
      var i := next.value;
      if buffers[i].fence != None {
        Wait(i, imported, waited);
      }
      CommitBuffer(i, acquired);
    }

    /** The end of redraw. */
    method CommitBuffer(i: nat, acquired: bool)
      requires Shape() && i < NUM_BUFFERS
      modifies this, buffers[i]
      ensures Shape() && View() == Commit(old(View()), i, acquired)
    {
      if status != Running {
        return;
      }
      if !acquired {
        status := Aborted;
        return;
      }
      buffers[i].release := Some(released);
      owner := owner[released := i];
      released := released + 1;
      buffers[i].busy := true;
      assert Bufs() == old(Bufs())[i := old(Bufs())[i].(busy := true, release := Some(old(released)))];
    }

    /** buffer_fenced_release and buffer_immediate_release; the event goes to the buffer it was asked for. */
    method HandleRelease(i: nat, r: Token, fenced: bool)
      requires Valid() && status == Running && r in owner && owner[r] == i
      modifies this, buffers[..]
      ensures Valid() && Some(View()) == Released(old(View()), r, fenced)
    {
      ReleasedSound(View(), r, fenced);
      assert Bufs()[i] == buffers[i].Value();
      assert Some(r) == buffers[i].release;
      assert buffers[i].fence == None;
      TakeBack(i, r, fenced);
    }

    method TakeBack(i: nat, r: Token, fenced: bool)
      requires Shape() && i < NUM_BUFFERS && buffers[i].fence == None
      modifies this, buffers[i]
      ensures Shape()
      ensures View() == old(View()).(
                bufs := old(Bufs())[i := Buf(false, None, if fenced then Some(old(received)) else None)],
                owner := old(owner) - {r},
                received := old(received) + if fenced then 1 else 0)
    {
      buffers[i].busy := false;
      if fenced {
        buffers[i].fence := Some(received);
        received := received + 1;
      }
      buffers[i].release := None;
      owner := owner - {r};
      assert Bufs() == old(Bufs())[i := Buf(false, None, if fenced then Some(old(received)) else None)];
    }

    /** buffer_free. */
    method Free(i: nat)
      requires Shape() && i < NUM_BUFFERS
      modifies this, buffers[i]
      ensures Shape() && View() == Freed(old(View()), i)
    {
      if buffers[i].fence != None {
        closed := closed + [buffers[i].fence.value];
      }
      if buffers[i].release != None {
        owner := owner - {buffers[i].release.value};
      }
      buffers[i].fence, buffers[i].release := None, None;
      assert Bufs() == old(Bufs())[i := Buf(old(Bufs())[i].busy, None, None)];
    }

    /** destroy_window. */
    method Destroy()
      requires Valid() && status == Running
      modifies this, buffers[..]
      ensures Valid() && View() == FreedFrom(old(View()), 0)
    {
      FreedFromSound(View(), 0);
      ghost var s := View();
      for i := 0 to NUM_BUFFERS
        invariant Shape() && FreedFrom(View(), i) == FreedFrom(s, 0)
      {
        Free(i);
      }
      status := TornDown;
    }
  }
}
