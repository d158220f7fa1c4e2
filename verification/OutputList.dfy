/**
 * The compositor output list on the heap: a doubly linked list with a static head and an empty
 * tail, relinked and freed in place by five passes (compositor-drm-help.c:815-942).
 */
module OutputList {
  import opened Options
  import opened OutputSlots
  import opened OutputRuns

  /** A list node.  `live` is the allocator's view: false once the node has been freed. */
  class Node {
    var prev: Node?
    var next: Node?
    var data: Option<Output>
    var enable: bool
    var live: bool

    /** A zeroed node, as calloc returns it. */
    constructor ()
      ensures prev == null && next == null && data == None && !enable && live
    {
      prev, next, data, enable, live := null, null, None, false, true;
    }
  }

  /** The slots once the last output has moved into the head. */
  lemma LastTaken(t: seq<Slot>, s: seq<Slot>, data: Option<Output>)
    requires |s| >= 3 && |t| == |s| - 1 && t[0] == s[0].(data := data)
    requires forall i :: 1 <= i < |s| - 2 ==> t[i] == s[i]
    requires t[|s| - 2] == s[|s| - 1].(linked := false)
    ensures t == [s[0].(data := data)] + s[1..|s| - 2] + [s[|s| - 1].(linked := false)]
  {
  }

  /** The slots once node i is unlinked. */
  lemma UnlinkedSlots(t: seq<Slot>, s: seq<Slot>, i: nat)
    requires 0 < i < |s| - 1 && |t| == |s| - 1 && t[i] == s[i + 1].(linked := true)
    requires forall k :: 0 <= k < |t| && k != i ==> t[k] == s[if k < i then k else k + 1]
    ensures t == Unlink(s, i)
  {
  }

  /** The shrink pass leaves a slot that holds an output, the head and the tail. */
  lemma ShrinkPasses(s: seq<Slot>, i: nat)
    requires i < |s| && (s[i].data.Some? || i == 0 || i == |s| - 1)
    ensures Shrink(s, if i == 0 then 1 else i) == Shrink(s, i + 1)
  {
  }

  class CompositorOutputs {
    /** g_output_list: never freed. */
    const head: Node
    ghost var nodes: seq<Node>
    ghost var dead: set<Node>
    ghost var repr: set<Node>

    /**
     * `next` runs through `nodes`; `prev` names the predecessor or a node that has been freed.
     */
    ghost predicate Chain()
      reads this, nodes, dead
    {
      && |nodes| >= 1 && nodes[0] == head && head.prev == null
      && (forall i, j :: 0 <= i < j < |nodes| ==> nodes[i] != nodes[j])
      && (forall i :: 0 <= i < |nodes| ==> nodes[i] in repr && nodes[i].live && nodes[i] !in dead)
      && (forall i {:trigger nodes[i].next} :: 0 <= i < |nodes| - 1 ==> nodes[i].next == nodes[i + 1])
      && nodes[|nodes| - 1].next == null
      && (forall i {:trigger nodes[i].prev} :: 1 <= i < |nodes| ==>
            nodes[i].prev == nodes[i - 1] || nodes[i].prev in dead)
      && (forall d :: d in dead ==> !d.live)
    }

    ghost function SlotAt(i: nat): Slot
      requires i < |nodes|
      reads this, nodes
    {
      Slot(nodes[i].data, nodes[i].enable, i == 0 || nodes[i].prev == nodes[i - 1])
    }

    ghost function Slots(): (s: seq<Slot>)
      reads this, nodes
      ensures |s| == |nodes|
      ensures forall i :: 0 <= i < |s| ==> s[i] == SlotAt(i)
    {
      seq(|nodes|, i requires 0 <= i < |nodes| reads this, nodes => SlotAt(i))
    }

    /** What every call leaves behind. */
    ghost predicate Valid()
      reads this, nodes, dead
    {
      Chain() && WellFormed(Slots()) && Distinct(Slots())
    }

    constructor ()
      ensures Valid() && Slots() == START && fresh(repr)
    {
      head := new Node();
      new;
      nodes, dead, repr := [head], {}, {head};
    }

    /** First pass: the slot of the output to replace. */
    method FindSlot(target: Option<Output>) returns (updated: bool, index: nat)
      requires Chain()
      ensures Find(Slots(), target, 0) == if updated then Some(index) else None
    {
      updated, index := false, 0;
      var current := head;
      while current.next != null
        invariant index < |nodes| && current == nodes[index]
        invariant Find(Slots(), target, 0) == Find(Slots(), target, index)
        decreases |nodes| - index
      {
        if current.data == target {
          updated := true;
          return;
        }
        current := current.next;
        index := index + 1;
      }
    }

    /** Writes one node; the links stay. */
    method Write(current: Node, ghost i: nat, data: Option<Output>, enable: bool)
      requires Chain() && i < |nodes| && current == nodes[i]
      modifies current`data, current`enable
      ensures Chain()
      ensures Slots() == old(Slots())[i := old(Slots())[i].(data := data, enable := enable)]
    {
      current.data := data;
      current.enable := enable;
    }

    /** The slots of a chain.  (An Option, so that a proof that only carries it need not open it.) */
    ghost function Held(): Option<seq<Slot>>
      reads this, nodes, dead
    {
      if Chain() then Some(Slots()) else None
    }

    /** Write, on the slots. */
    method WriteSlot(current: Node, ghost i: nat, data: Option<Output>, enable: bool, ghost s: seq<Slot>)
      requires Held() == Some(s) && i < |s| && |s| == |nodes| && current == nodes[i]
      modifies current`data, current`enable
      ensures Held() == Some(s[i := s[i].(data := data, enable := enable)])
    {
      Write(current, i, data, enable);
    }

    /** Second pass: no slot but the one to update keeps the newer output. */
    method ClearDuplicates(newer: Option<Output>, found: bool, at: nat) returns (updated: bool, index: nat)
      requires Chain()
      modifies repr`data, repr`enable
      ensures Chain()
      ensures ClearOthers(old(Slots()), newer, if found then Some(at) else None, 0)
           == Cleared(Slots(), if updated then Some(index) else None)
    {
      ghost var t;
      updated, index, t := ClearLoop(newer, found, at, Slots(),
                                     ClearOthers(Slots(), newer, if found then Some(at) else None, 0));
    }

    method ClearLoop(newer: Option<Output>, found: bool, at: nat, ghost s: seq<Slot>, ghost goal: Cleared)
      returns (updated: bool, index: nat, ghost t: seq<Slot>)
      requires Held() == Some(s) && |s| >= 1
      requires goal == ClearOthers(s, newer, if found then Some(at) else None, 0)
      modifies repr`data, repr`enable
      ensures Held() == Some(t) && goal == Cleared(t, if updated then Some(index) else None)
    {
      updated, index, t := found, at, s;
      var current, i := head, 0;
      while current.next != null
        invariant Held() == Some(t) && i < |t| && |t| == |nodes| && current == nodes[i]
        invariant goal == ClearOthers(t, newer, if updated then Some(index) else None, i)
        decreases |nodes| - i
      {
        assert current in repr;
        updated, index, t := ClearTurn(current, i, newer, updated, index, t, goal);
        current := current.next;
        i := i + 1;
      }
    }

    /** The loop body. */
    method ClearTurn(current: Node, i: nat, newer: Option<Output>, found: bool, at: nat, ghost s: seq<Slot>,
                     ghost goal: Cleared)
      returns (updated: bool, index: nat, ghost t: seq<Slot>)
      requires Held() == Some(s) && i < |s| - 1 && |s| == |nodes| && current == nodes[i]
      requires goal == ClearOthers(s, newer, if found then Some(at) else None, i)
      modifies current`data, current`enable
      ensures Held() == Some(t) && |t| == |s|
      ensures goal == ClearOthers(t, newer, if updated then Some(index) else None, i + 1)
    {
      updated, index, t := found, at, s;
      assert current.data == s[i].data;
      if current.data == newer {
        if updated && index != i {
          WriteSlot(current, i, None, false, s);
          t := s[i := s[i].(data := None, enable := false)];
        } else if !updated {
          updated := true;
          index := i;
        }
      }
    }

    /** Third pass: the slot the newer output goes to. */
    method SeekSlot(found: bool, at: nat) returns (current: Node, updated: bool, ghost pos: nat)
      requires Chain()
      requires found ==> at < |nodes| - 1
      ensures pos < |nodes| && current == nodes[pos]
      ensures pos == Seek(Slots(), if found then Some(at) else None)
      ensures updated <==> Seek(Slots(), if found then Some(at) else None) < |nodes| - 1
      ensures current == nodes[Seek(Slots(), if found then Some(at) else None)]
    {
      current, updated, pos := head, found, 0;
      var index := 0;
      while current.next != null
        invariant index == pos < |nodes| && current == nodes[pos]
        invariant updated == found
        invariant found ==> pos <= at
        invariant !found ==> Find(Slots(), None, 0) == Find(Slots(), None, pos)
        decreases |nodes| - index
      {
        if updated && index == at {
          break;
        }
        if !updated && current.data == None {
          updated := true;
          break;
        }
        current := current.next;
        index, pos := index + 1, pos + 1;
      }
    }

    /** Appends the fresh empty tail. */
    method Extend(tail: Node)
      requires Chain() && tail == nodes[|nodes| - 1]
      modifies this`nodes, this`repr, tail`next
      ensures Chain() && dead == old(dead)
      ensures fresh(repr - old(repr)) && old(repr) <= repr
      ensures |nodes| == |old(nodes)| + 1 && nodes[..|old(nodes)|] == old(nodes)
      ensures Slots() == old(Slots()) + [Slot(None, false, true)]
    {
      var n := new Node();
      assert n !in nodes && n !in dead;
      tail.next := n;
      n.prev := tail;
      n.next := null;
      nodes, repr := nodes + [n], repr + {n};
    }

    /** Unlinks and frees an empty node that has a good back link. */
    method Remove(current: Node, ghost i: nat)
      requires Chain() && 1 <= i < |nodes| - 1 && current == nodes[i]
      requires current.prev == nodes[i - 1]
      modifies this`nodes, this`dead, current`live, current.prev`next, current.next`prev
      ensures Chain() && dead == old(dead) + {current}
      ensures nodes == old(nodes)[..i] + old(nodes)[i + 1..]
      ensures Slots() == Unlink(old(Slots()), i)
    {
      ghost var s, was := Slots(), nodes;
      UnlinkNode(current, i);
      ghost var t := Slots();
      assert t[i] == SlotAt(i) && nodes[i] == was[i + 1];
      forall k | 0 <= k < |t| && k != i ensures t[k] == s[if k < i then k else k + 1] {
        assert t[k] == SlotAt(k) && nodes[k] == was[if k < i then k else k + 1];
        assert k > 0 ==> nodes[k - 1] == was[if k - 1 < i then k - 1 else k];
      }
      UnlinkedSlots(t, s, i);
    }

    method UnlinkNode(current: Node, ghost i: nat)
      requires Chain() && 1 <= i < |nodes| - 1 && current == nodes[i]
      requires current.prev == nodes[i - 1]
      modifies this`nodes, this`dead, current`live, current.prev`next, current.next`prev
      ensures Chain() && nodes == old(nodes)[..i] + old(nodes)[i + 1..]
      ensures nodes[i].prev == nodes[i - 1] && dead == old(dead) + {current}
    {
      current.prev.next := current.next;
      current.next.prev := current.prev;
      current.live := false;
      nodes := nodes[..i] + nodes[i + 1..];
      dead := dead + {current};
    }

    /**
     * Fifth pass: removes every empty node between head and tail.  Stops at the first one whose
     * back link names a freed node (`fault`), which the code would follow.
     */
    method ShrinkEmpty() returns (lastElement: Node, fault: bool)
      requires Chain()
      modifies this`nodes, this`dead, repr
      ensures fault <==> Shrink(old(Slots()), 1).None?
      ensures !fault ==> Chain() && Some(Slots()) == Shrink(old(Slots()), 1)
      ensures !fault ==> lastElement == if |nodes| >= 2 then nodes[|nodes| - 2] else head
    {
      lastElement, fault := head, false;
      var current: Node? := head;
      ghost var i, s := 0, Slots();
      ghost var goal := Shrink(s, 1);
      while current != null
        invariant Held() == Some(s) && i <= |s| && |s| == |nodes|
        invariant if i == |s| then current == null else current == nodes[i]
        invariant lastElement == nodes[LastBefore(i, |s|)]
        invariant goal == Shrink(s, if i == 0 then 1 else i)
        decreases |s| - i
      {
        assert s[i].data == current.data && (current == head <==> i == 0) && (current.next == null <==> i == |s| - 1);
        if current.data == None && current != head && current.next != null {
          current, fault, s := ShrinkNode(current, i, s, goal);
          if fault {
            return;
          }
        } else {
          ShrinkPasses(s, i);
          if current.next != null {
            lastElement := current;
          }
          i := i + 1;
        }
        current := current.next;
      }
    }

    /** Where the last node passed stands, when the loop is at position i of n. */
    static ghost function LastBefore(i: nat, n: nat): (k: nat)
      ensures n > 0 && i <= n ==> k < n
    {
      if i == n && n >= 2 then n - 2 else if i == n || i == 0 then 0 else i - 1
    }

    /** The body of the loop for a node to remove; it goes on from the node before. */
    method ShrinkNode(current: Node, ghost i: nat, ghost s: seq<Slot>, ghost goal: Option<seq<Slot>>)
      returns (before: Node, fault: bool, ghost t: seq<Slot>)
      requires Held() == Some(s) && 1 <= i < |s| - 1 && |s| == |nodes| && current == nodes[i]
      requires s[i].data == None && goal == Shrink(s, i)
      modifies this`nodes, this`dead, repr
      ensures fault ==> goal == None
      ensures !fault ==> Held() == Some(t) && |t| == |nodes| == |s| - 1 && goal == Shrink(t, i)
      ensures !fault ==> before == nodes[i - 1] && nodes == old(nodes)[..i] + old(nodes)[i + 1..]
    {
      before, fault, t := current, false, s;
      assert nodes[i] in repr && nodes[i - 1] in repr && nodes[i + 1] in repr;
      assert s[i] == SlotAt(i);
      if !current.prev.live {
        fault := true;
        return;
      }
      before := current.prev;
      Remove(current, i);
      t := Unlink(s, i);
    }

    /** Moves the last output into the empty head, as the memcpy of the smaller struct does it. */
    method PromoteLast(last: Node) returns (fault: bool)
      requires Chain()
      requires last == if |nodes| >= 2 then nodes[|nodes| - 2] else head
      modifies this`nodes, this`dead, repr
      ensures fault <==> Promote(old(Slots())).None?
      ensures !fault ==> Chain() && Some(Slots()) == Promote(old(Slots()))
    {
      fault := false;
      assert head.data == Slots()[0].data;
      if head.data == None && last != head {
        ghost var n := |nodes|;
        assert last.prev == nodes[n - 3] || last.prev in dead;
        if !last.prev.live {
          fault := true;
          return;
        }
        MoveToHead(last);
      }
    }

    method MoveToHead(last: Node)
      requires Chain() && |nodes| >= 3 && last == nodes[|nodes| - 2]
      requires last.prev == nodes[|nodes| - 3]
      modifies this`nodes, this`dead, last, last.prev`next, head`next, head`prev, head`data
      ensures Chain() && dead == old(dead) + {last}
      ensures nodes == old(nodes)[..|old(nodes)| - 2] + [old(nodes)[|old(nodes)| - 1]]
      ensures Slots() == [old(Slots())[0].(data := old(Slots())[|old(nodes)| - 2].data)]
                         + old(Slots())[1..|old(nodes)| - 2]
                         + [old(Slots())[|old(nodes)| - 1].(linked := false)]
    {
      ghost var s, was, n := Slots(), nodes, |nodes|;
      CopyToHead(last);
      ghost var t := Slots();
      assert t[0] == SlotAt(0) && s[n - 2].data == old(last.data);
      assert t[n - 2] == SlotAt(n - 2) && nodes[n - 2] == was[n - 1];
      forall i | 1 <= i < n - 2 ensures t[i] == s[i] {
        assert t[i] == SlotAt(i) && nodes[i] == was[i] && nodes[i - 1] == was[i - 1];
      }
      LastTaken(t, s, s[n - 2].data);
    }

    /** The links: the last node leaves, and the tail keeps naming it. */
    method CopyToHead(last: Node)
      requires Chain() && |nodes| >= 3 && last == nodes[|nodes| - 2]
      requires last.prev == nodes[|nodes| - 3]
      modifies this`nodes, this`dead, last, last.prev`next, head`next, head`prev, head`data
      ensures Chain() && |nodes| == |old(nodes)| - 1 && head.data == old(last.data)
      ensures nodes == old(nodes)[..|old(nodes)| - 2] + [old(nodes)[|old(nodes)| - 1]]
      ensures nodes[|nodes| - 1].prev != nodes[|nodes| - 2] && dead == old(dead) + {last}
    {
      ghost var was, n := nodes, |nodes|;
      last.prev.next := last.next;
      last.next := head.next;
      last.prev := null;
      head.prev, head.next, head.data := last.prev, last.next, last.data;
      last.live := false;
      nodes := nodes[..|nodes| - 2] + [nodes[|nodes| - 1]];
      dead := dead + {last};
      assert nodes[n - 2] == was[n - 1] && forall i :: 0 <= i < n - 2 ==> nodes[i] == was[i];
    }

    /** The last two passes together. */
    method Tidy() returns (fault: bool)
      requires Chain()
      modifies this`nodes, this`dead, repr
      ensures fault <==> Finish(old(Slots())).None?
      ensures !fault ==> Chain() && Some(Slots()) == Finish(old(Slots()))
    {
      var last;
      last, fault := ShrinkEmpty();
      if !fault {
        fault := PromoteLast(last);
      }
    }

    /**
     * help_updata_compositor_output.  `memory` is whether calloc succeeds; `fault` reports that
     * the code went through a back link into a freed node.
     */
    method UpdateOutput(older: Option<Output>, newer: Option<Output>, memory: bool) returns (fault: bool)
      requires Valid()
      modifies this, repr
      ensures fault <==> var u := Unlinked(old(Slots()), older, newer);
                         u.Some? && !old(Slots())[u.value].linked
      ensures !fault ==> Valid() && Some(Slots()) == Update(old(Slots()), older, newer, memory)
      ensures !fault ==>
        Entries(Slots()) == Exchange(old(Entries(Slots())), older, newer, old(HasRoom(Slots(), memory)))
      ensures fresh(repr - old(repr)) && old(repr) <= repr
    {
      fault := false;
      if older == newer {
        return;
      }
      UpdateCorrect(Slots(), older, newer, memory);
      fault := UpdatePasses(older, newer, memory);
      if !fault {
        UpdateOutputs(old(Slots()), older, newer, memory);
      }
    }

    method UpdatePasses(older: Option<Output>, newer: Option<Output>, memory: bool) returns (fault: bool)
      requires Chain() && older != newer
      modifies this, repr
      ensures fault <==> Update(old(Slots()), older, newer, memory).None?
      ensures !fault ==> Chain() && Some(Slots()) == Update(old(Slots()), older, newer, memory)
      ensures fresh(repr - old(repr)) && old(repr) <= repr
    {
      var placed := ChooseAndPlace(older, newer, memory);
      fault := false;
      if placed {
        fault := Tidy();
      }
    }

    /** First four passes. */
    method ChooseAndPlace(older: Option<Output>, newer: Option<Output>, memory: bool) returns (placed: bool)
      requires Chain() && older != newer
      modifies this`nodes, this`repr, repr
      ensures Chain() && fresh(repr - old(repr)) && old(repr) <= repr
      ensures Update(old(Slots()), older, newer, memory) == if placed then Finish(Slots()) else Some(Slots())
    {
      ghost var s := Slots();
      var updated, index := FindSlot(if older == None then newer else older);
      ghost var found := Find(s, if older == None then newer else older, 0);
      updated, index := ClearDuplicates(newer, updated, index);
      ghost var cleared := ClearOthers(s, newer, found, 0);
      assert cleared == Cleared(Slots(), if updated then Some(index) else None);
      placed := PlaceNewer(updated, index, newer, memory);
    }

    /** Third and fourth pass: finds the place for the newer output and writes it there. */
    method PlaceNewer(found: bool, at: nat, newer: Option<Output>, memory: bool) returns (placed: bool)
      requires Chain() && (found ==> at < |nodes| - 1)
      modifies this`nodes, this`repr, repr
      ensures Chain() && fresh(repr - old(repr)) && old(repr) <= repr
      ensures var s, pos := old(Slots()), Seek(old(Slots()), if found then Some(at) else None);
        && (placed <==> !(pos == |s| - 1 && newer.Some? && !memory))
        && Slots() == if placed then Place(s, newer, pos) else s
    {
      var current, updated;
      ghost var pos;
      current, updated, pos := SeekSlot(found, at);
      if !updated && newer != None && !memory {
        return false;
      }
      WriteNewer(current, pos, updated, newer);
      return true;
    }

    /** Writes the newer output, into a tail that gets a successor if need be. */
    method WriteNewer(current: Node, ghost pos: nat, updated: bool, newer: Option<Output>)
      requires Chain() && pos < |nodes| && current == nodes[pos]
      requires updated <==> pos < |nodes| - 1
      modifies this`nodes, this`repr, current
      ensures Chain() && dead == old(dead)
      ensures Slots() == Place(old(Slots()), newer, pos)
      ensures fresh(repr - old(repr)) && old(repr) <= repr
    {
      if !updated && newer != None {
        Extend(current);
      }
      Write(current, pos, newer, false);
    }

    /** help_switch_compositor_output. */
    method SwitchOutput(output: Option<Output>, enable: bool)
      requires Valid()
      modifies repr`data, repr`enable
      ensures Valid() && Slots() == Switch(old(Slots()), output, enable)
    {
      if output == None {
        return;
      }
      SwitchCorrect(Slots(), output, enable);
      SwitchLinked(output, enable, Slots());
    }

    method SwitchLinked(output: Option<Output>, enable: bool, ghost s: seq<Slot>)
      requires Held() == Some(s) && |s| >= 1 && output != None
      modifies repr`data, repr`enable
      ensures Held() == Some(Switch(s, output, enable))
    {
      var current, i := head, 0;
      while current.next != null
        invariant Held() == Some(s) && i < |s| && |s| == |nodes| && current == nodes[i]
        invariant Find(s, output, 0) == Find(s, output, i)
        decreases |nodes| - i
      {
        assert current.data == s[i].data && current in repr;
        if output == current.data {
          WriteSlot(current, i, current.data, enable, s);
          return;
        }
        current := current.next;
        i := i + 1;
      }
    }
  }
}
