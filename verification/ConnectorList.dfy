/**
 * The connector list on the heap: a doubly linked list with a static head and an empty tail
 * (compositor-drm-help.c:134, 474-514, 638-781).
 */
module ConnectorList {
  import opened Options
  import opened ConnectorSlots
  import opened ConnectorItems
  import opened ConnectorHistory

  class Node {
    var prev: Node?
    var next: Node?
    var data: Option<Connector>
    var props: seq<Prop>

    constructor ()
      ensures prev == null && next == null && data == None && props == CLEAN
    {
      prev, next, data, props := null, null, None, CLEAN;
    }
  }

  lemma Extended(t: seq<Slot>, s: seq<Slot>, x: Slot, y: Slot)
    requires |s| >= 1 && |t| == |s| + 1 && t[|s| - 1] == x && t[|s|] == y
    requires forall i :: 0 <= i < |s| - 1 ==> t[i] == s[i]
    ensures t == s[|s| - 1 := x] + [y]
  {
  }

  lemma DeleteFound(s: seq<Slot>, c: Connector, pos: nat)
    requires WellFormed(s) && Find(s, c, 0) == Some(pos)
    ensures pos < |s| - 1
    ensures Delete(s, Some(c)) == if pos == 0 then s[0 := s[0].(data := None)] else s[..pos] + s[pos + 1..]
  {
  }

  lemma DeleteAbsent(s: seq<Slot>, c: Connector)
    requires WellFormed(s) && Find(s, c, 0) == None
    ensures Delete(s, Some(c)) == s
  {
  }

  lemma WrittenAgain(s: seq<Slot>, x: Slot, z: Slot, y: Slot)
    requires |s| >= 1
    ensures (s[|s| - 1 := x] + [y])[|s| - 1] == x
    ensures (s[|s| - 1 := x] + [y])[|s| - 1 := z] == s[|s| - 1 := z] + [y]
  {
  }

  class Connectors {
    /** global_connector_list: never freed. */
    const head: Node
    ghost var nodes: seq<Node>
    ghost var repr: set<Node>

    /** Acyclic and doubly linked: `next` and `prev` are inverse along `nodes`. */
    ghost predicate Chain()
      reads this, nodes
    {
      && |nodes| >= 1 && nodes[0] == head && head.prev == null
      && (forall i, j :: 0 <= i < j < |nodes| ==> nodes[i] != nodes[j])
      && (forall i :: 0 <= i < |nodes| ==> nodes[i] in repr)
      && (forall i {:trigger nodes[i].next} :: 0 <= i < |nodes| - 1 ==> nodes[i].next == nodes[i + 1])
      && nodes[|nodes| - 1].next == null
      && (forall i {:trigger nodes[i].prev} :: 1 <= i < |nodes| ==> nodes[i].prev == nodes[i - 1])
    }

    ghost function Slots(): (s: seq<Slot>)
      reads this, nodes
      ensures |s| == |nodes|
      ensures forall i :: 0 <= i < |s| ==> s[i] == Slot(nodes[i].data, nodes[i].props)
    {
      seq(|nodes|, i requires 0 <= i < |nodes| reads this, nodes => Slot(nodes[i].data, nodes[i].props))
    }

    ghost predicate Valid()
      reads this, nodes
    {
      Chain() && WellFormed(Slots())
    }

    constructor ()
      ensures Valid() && Slots() == START && fresh(repr)
    {
      head := new Node();
      new;
      nodes, repr := [head], {head};
    }

    /** The slots of a chain.  (An Option, so that a proof that only carries it need not open it.) */
    ghost function Linked(): Option<seq<Slot>>
      reads this, nodes
    {
      if Chain() then Some(Slots()) else None
    }

    /** The search loop the operations share: the node of `c`, or the tail. */
    method Seek(c: Connector, ghost s: seq<Slot>) returns (current: Node, exist: bool, ghost pos: nat)
      requires Linked() == Some(s)
      ensures |s| >= 1 && |nodes| == |s| && pos < |s| && current == nodes[pos]
      ensures Find(s, c, 0) == if exist then Some(pos) else None
      ensures !exist ==> pos == |s| - 1
      ensures exist <==> Find(s, c, 0).Some?
      ensures current == nodes[if Find(s, c, 0).Some? then Find(s, c, 0).value else |s| - 1]
    {
      current, exist, pos := head, false, 0;
      while current.next != null
        invariant pos < |nodes| && current == nodes[pos]
        invariant Find(s, c, 0) == Find(s, c, pos)
        decreases |nodes| - pos
      {
        if current.data == Some(c) {
          exist := true;
          break;
        }
        current, pos := current.next, pos + 1;
      }
    }

    /** Writes one node; the links stay. */
    method Write(current: Node, ghost i: nat, data: Option<Connector>, props: seq<Prop>)
      requires Chain() && i < |nodes| && current == nodes[i]
      modifies current`data, current`props
      ensures Chain() && Slots() == old(Slots())[i := Slot(data, props)]
    {
      current.data := data;
      current.props := props;
    }

    /** help_append_connector. */
    method AppendConnector(c: Connector, ids: Ids)
      requires Valid()
      modifies this, repr
      ensures Valid() && Slots() == Append(old(Slots()), c, ids)
      ensures fresh(repr - old(repr)) && old(repr) <= repr
    {
      AppendRefines(Slots(), c, ids);
      AppendLinked(c, ids, Slots());
    }

    method AppendLinked(c: Connector, ids: Ids, ghost s: seq<Slot>)
      requires Linked() == Some(s) && WellFormed(s)
      modifies this, repr
      ensures Linked() == Some(Append(s, c, ids))
      ensures fresh(repr - old(repr)) && old(repr) <= repr
    {
      var current, exist;
      ghost var pos;
      current, exist, pos := Seek(c, s);
      if exist {
        UpdateProps(current, pos, ids, s);
      } else {
        Extend(current, c, s);
        WrittenAgain(s, Slot(Some(c), CLEAN), Slot(Some(c), Refresh(CLEAN, ids)), Slot(None, CLEAN));
        UpdateProps(current, pos, ids, s[|s| - 1 := Slot(Some(c), CLEAN)] + [Slot(None, CLEAN)]);
      }
    }

    /** update_connector_props on one node. */
    method UpdateProps(current: Node, ghost pos: nat, ids: Ids, ghost s: seq<Slot>)
      requires Linked() == Some(s) && pos < |s| == |nodes| && current == nodes[pos] && |s[pos].props| == COUNT
      modifies current`data, current`props
      ensures Linked() == Some(s[pos := s[pos].(props := Refresh(s[pos].props, ids))])
    {
      assert s[pos] == Slot(current.data, current.props);
      Write(current, pos, current.data, Refresh(current.props, ids));
    }

    /** Turns the empty tail into the node of `c`, in front of a fresh tail. */
    method Extend(tail: Node, c: Connector, ghost s: seq<Slot>)
      requires Linked() == Some(s) && |s| == |nodes| >= 1 && tail == nodes[|nodes| - 1]
      modifies this`nodes, this`repr, tail
      ensures Linked() == Some(s[|s| - 1 := Slot(Some(c), CLEAN)] + [Slot(None, CLEAN)])
      ensures |nodes| == |s| + 1 && tail == nodes[|s| - 1]
      ensures fresh(repr - old(repr)) && old(repr) <= repr
    {
      ghost var was := nodes;
      LinkTail(tail, c);
      ghost var t := Slots();
      assert nodes[|s|] == nodes[|nodes| - 1] && nodes[|s| - 1] == tail;
      forall i | 0 <= i < |s| - 1 ensures t[i] == s[i] {
        assert nodes[i] == was[i];
      }
      Extended(t, s, Slot(Some(c), CLEAN), Slot(None, CLEAN));
    }

    /** Fills the tail and links a fresh one behind it. */
    method LinkTail(tail: Node, c: Connector)
      requires Chain() && tail == nodes[|nodes| - 1]
      modifies this`nodes, this`repr, tail
      ensures Chain() && |nodes| == |old(nodes)| + 1 && nodes[..|old(nodes)|] == old(nodes)
      ensures tail.data == Some(c) && tail.props == CLEAN
      ensures nodes[|nodes| - 1].data == None && nodes[|nodes| - 1].props == CLEAN
      ensures fresh(repr - old(repr)) && old(repr) <= repr
    {
      tail.data := Some(c);
      var n := new Node();
      tail.next := n;
      n.prev := tail;
      n.next := null;
      n.data := None;
      tail.props := CLEAN;
      assert n !in nodes;
      nodes, repr := nodes + [n], repr + {n};
    }

    /** help_update_connector. */
    method UpdateConnector(older: Option<Connector>, newer: Connector, ids: Ids)
      requires Valid()
      modifies this, repr
      ensures Valid() && Slots() == Replace(old(Slots()), older, newer, ids)
      ensures fresh(repr - old(repr)) && old(repr) <= repr
    {
      ReplaceRefines(Slots(), older, newer, ids);
      UpdateLinked(older, newer, ids, Slots());
    }

    method UpdateLinked(older: Option<Connector>, newer: Connector, ids: Ids, ghost s: seq<Slot>)
      requires Linked() == Some(s) && WellFormed(s)
      modifies this, repr
      ensures Linked() == Some(Replace(s, older, newer, ids))
      ensures fresh(repr - old(repr)) && old(repr) <= repr
    {
      var updated := false;
      if older != None {
        var current;
        ghost var pos;
        current, updated, pos := Seek(older.value, s);
        if updated {
          Write(current, pos, Some(newer), Refresh(CLEAN, ids));
        }
      }
      if !updated {
        AppendLinked(newer, ids, s);
      }
    }

    /** help_delete_connector. */
    method DeleteConnector(c: Option<Connector>)
      requires Valid()
      modifies this, repr
      ensures Valid() && Slots() == Delete(old(Slots()), c)
      ensures repr == old(repr)
    {
      if c == None {
        return;
      }
      DeleteRefines(Slots(), c);
      DeleteLinked(c.value, Slots());
    }

    method DeleteLinked(c: Connector, ghost s: seq<Slot>)
      requires Linked() == Some(s) && WellFormed(s)
      modifies this, repr
      ensures Linked() == Some(Delete(s, Some(c))) && repr == old(repr)
    {
      var current, exist;
      ghost var pos;
      current, exist, pos := Seek(c, s);
      if exist {
        DeleteFound(s, c, pos);
        TakeOut(current, pos, s);
      } else {
        DeleteAbsent(s, c);
      }
    }

    /** A connector leaves: the head becomes a hole, any other node is unlinked. */
    method TakeOut(current: Node, ghost pos: nat, ghost s: seq<Slot>)
      requires Linked() == Some(s) && pos < |s| - 1 && |s| == |nodes| && current == nodes[pos]
      modifies this`nodes, repr
      ensures Linked() == Some(if pos == 0 then s[0 := s[0].(data := None)] else s[..pos] + s[pos + 1..])
      ensures repr == old(repr)
    {
      if current == head {
        assert s[0] == Slot(current.data, current.props);
        Write(current, pos, None, current.props);
      } else {
        Unlink(current, pos);
      }
    }

    method Unlink(current: Node, ghost i: nat)
      requires Chain() && 1 <= i < |nodes| - 1 && current == nodes[i]
      modifies this`nodes, current.prev, current.next
      ensures Chain() && Slots() == old(Slots())[..i] + old(Slots())[i + 1..]
      ensures repr == old(repr)
    {
      current.prev.next := current.next;
      current.next.prev := current.prev;
      nodes := nodes[..i] + nodes[i + 1..];
    }

    /** Sets one property on every HDMI connector. */
    method SetProperty(i: nat, value: nat)
      requires Valid() && i < COUNT
      modifies repr
      ensures Valid() && Slots() == SetAll(old(Slots()), i, value)
    {
      var current := head;
      ghost var k := 0;
      while current.next != null
        invariant Chain() && k < |nodes| && current == nodes[k]
        invariant forall j :: 0 <= j < k ==> Slots()[j] == SetSlot(old(Slots())[j], i, value)
        invariant forall j :: k <= j < |nodes| ==> Slots()[j] == old(Slots())[j]
        decreases |nodes| - k
      {
        assert Slots()[k] == Slot(current.data, current.props);
        if current.data != None && IsHdmi(current.data.value) {
          var p := current.props[i].(needChange := true, newValue := value);
          Write(current, k, current.data, current.props[i := p]);
        }
        current, k := current.next, k + 1;
      }
      assert Slots() == SetAll(old(Slots()), i, value);
    }

    /** The loop of "get modes", as far as it changes the list. */
    method RefreshProperties(answers: map<Connector, Ids>)
      requires Valid()
      modifies repr
      ensures Valid() && Slots() == RefreshAll(old(Slots()), answers)
    {
      var current := head;
      ghost var k := 0;
      ghost var s := Slots();
      ghost var now := s;
      while current.next != null
        invariant k < |nodes| == |s| == |now| && current == nodes[k] && Linked() == Some(now)
        invariant RefreshedTo(now, s, k, answers)
        decreases |nodes| - k
      {
        RefreshNode(current, k, answers, now);
        RefreshedOne(now, s, k, answers);
        now := now[k := RefreshSlot(now[k], answers)];
        current, k := current.next, k + 1;
      }
      RefreshedAll(now, s, k, answers);
    }

    /** The loop body for one node. */
    method RefreshNode(current: Node, ghost k: nat, answers: map<Connector, Ids>, ghost s: seq<Slot>)
      requires Linked() == Some(s) && k < |s| - 1 && |s| == |nodes| && current == nodes[k] && |s[k].props| == COUNT
      modifies current`data, current`props
      ensures Linked() == Some(s[k := RefreshSlot(s[k], answers)])
    {
      assert s[k] == Slot(current.data, current.props);
      if current.data != None {
        Write(current, k, current.data, Refresh(current.props, IdsFor(answers, current.data.value)));
      } else {
        assert s[k := s[k]] == s;
      }
    }

    /**
     * The body of a "set connector range properties" message: every known name with a value that
     * could be read is set, in message order.
     */
    method SetProperties(values: seq<(string, Option<nat>)>)
      requires Valid()
      modifies repr
      ensures Valid() && Slots() == SetMany(old(Slots()), values)
    {
      var n := 0;
      while n < |values|
        invariant Valid() && n <= |values|
        invariant SetMany(old(Slots()), values) == SetMany(Slots(), values[n..])
      {
        var i := 0;
        while i < COUNT && NAMES[i] != values[n].0
          invariant i <= COUNT
          invariant NameIndex(values[n].0, 0) == NameIndex(values[n].0, i)
        {
          i := i + 1;
        }
        assert values[n..][0] == values[n] && values[n..][1..] == values[n + 1..];
        if i < COUNT && values[n].1 != None {
          SetProperty(i, values[n].1.value);
        }
        n := n + 1;
      }
    }

    /**
     * help_atomic_req_add_prop.  `accept` is what drmModeAtomicAddProperty answers; a write is
     * settled whether or not it is accepted.
     */
    method AddProperties(accept: Request -> int) returns (requests: seq<Request>, ret: int)
      requires Valid()
      modifies repr
      ensures Valid() && Slots() == Flush(old(Slots()))
      ensures requests == Requests(old(Slots()), 0)
      ensures ret == if exists r :: r in requests && accept(r) <= 0 then -1 else 0
    {
      requests, ret := [], 0;
      var current := head;
      ghost var k := 0;
      ghost var s := Slots();
      ghost var now := s;
      NothingBefore(requests, Requests(s, 0));
      while current.next != null
        invariant k < |nodes| == |s| && current == nodes[k] && Linked() == Some(now)
        invariant FlushedTo(now, s, k)
        invariant Requests(s, 0) == requests + Requests(s, k)
        invariant ret == if Refused(requests, accept) then -1 else 0
        decreases |nodes| - k
      {
        RequestsNext(requests, s, k);
        var more, bad := FlushNode(current, k, accept, now);
        RefusedConcat(requests, more, accept);
        FlushedOne(now, s, k);
        now := now[k := FlushSlot(now[k])];
        requests := requests + more;
        if bad {
          ret := -1;
        }
        current, k := current.next, k + 1;
      }
      FlushedAll(now, s, k);
      NothingLeft(requests, s);
    }

    /** The loop body for one node. */
    method FlushNode(current: Node, ghost k: nat, accept: Request -> int, ghost s: seq<Slot>)
      returns (requests: seq<Request>, bad: bool)
      requires Linked() == Some(s) && k < |s| - 1 && |s| == |nodes| && current == nodes[k] && |s[k].props| == COUNT
      modifies current`data, current`props
      ensures Linked() == Some(s[k := FlushSlot(s[k])])
      ensures requests == SlotRequests(s[k], 0)
      ensures bad <==> Refused(requests, accept)
    {
      assert s[k] == Slot(current.data, current.props);
      requests, bad := [], false;
      if current.data != None {
        var props;
        props, requests, bad := AddNode(current.data.value, current.props, accept);
        Write(current, k, current.data, props);
      } else {
        assert s[k := s[k]] == s;
      }
    }

    /** The loop over the properties of one connector. */
    method AddNode(c: Connector, before: seq<Prop>, accept: Request -> int)
      returns (props: seq<Prop>, requests: seq<Request>, bad: bool)
      requires |before| == COUNT
      ensures props == Settled(before)
      ensures requests == SlotRequests(Slot(Some(c), before), 0)
      ensures bad <==> Refused(requests, accept)
    {
      props, requests, bad := before, [], false;
      var i := 0;
      while i < COUNT
        invariant i <= COUNT == |props|
        invariant forall j :: 0 <= j < COUNT ==>
          props[j] == if j < i then before[j].(needChange := false) else before[j]
        invariant SlotRequests(Slot(Some(c), before), 0) == requests + SlotRequests(Slot(Some(c), before), i)
        invariant bad <==> Refused(requests, accept)
      {
        if props[i].needChange {
          var r := Request(c.id, props[i].id, props[i].newValue);
          props := props[i := props[i].(needChange := false)];
          RefusedConcat(requests, [r], accept);
          AddOne(requests, r, SlotRequests(Slot(Some(c), before), i + 1));
          requests := requests + [r];
          bad := bad || accept(r) <= 0;
        }
        i := i + 1;
      }
    }
  }

  /** `now` is `s` with the first k slots flushed. */
  ghost predicate FlushedTo(now: seq<Slot>, s: seq<Slot>, k: nat) {
    && |now| == |s|
    && (forall j :: 0 <= j < |s| ==> now[j] == if j < k then FlushSlot(s[j]) else s[j])
  }

  lemma FlushedOne(now: seq<Slot>, s: seq<Slot>, k: nat)
    requires FlushedTo(now, s, k) && k < |s|
    ensures now[k] == s[k] && FlushedTo(now[k := FlushSlot(now[k])], s, k + 1)
  {
  }

  lemma FlushedAll(now: seq<Slot>, s: seq<Slot>, k: nat)
    requires WellFormed(s) && FlushedTo(now, s, k) && k == |s| - 1
    ensures now == Flush(s)
  {
  }

  /** `now` is `s` with the ids of the first k slots refreshed. */
  ghost predicate RefreshedTo(now: seq<Slot>, s: seq<Slot>, k: nat, answers: map<Connector, Ids>) {
    && |now| == |s|
    && (forall j :: 0 <= j < |s| ==> |s[j].props| == COUNT)
    && (forall j :: 0 <= j < |s| ==> now[j] == if j < k then RefreshSlot(s[j], answers) else s[j])
  }

  lemma RefreshedOne(now: seq<Slot>, s: seq<Slot>, k: nat, answers: map<Connector, Ids>)
    requires RefreshedTo(now, s, k, answers) && k < |s|
    ensures |now[k].props| == COUNT && RefreshedTo(now[k := RefreshSlot(now[k], answers)], s, k + 1, answers)
  {
  }

  lemma RefreshedAll(now: seq<Slot>, s: seq<Slot>, k: nat, answers: map<Connector, Ids>)
    requires WellFormed(s) && RefreshedTo(now, s, k, answers) && k == |s| - 1
    ensures now == RefreshAll(s, answers)
  {
  }

  lemma NothingLeft(done: seq<Request>, s: seq<Slot>)
    requires WellFormed(s)
    ensures done + Requests(s, |s| - 1) == done
  {
  }

  lemma NothingBefore(none: seq<Request>, all: seq<Request>)
    requires none == []
    ensures none + all == all
  {
  }

  lemma RequestsNext(done: seq<Request>, s: seq<Slot>, k: nat)
    requires WellFormed(s) && k < |s| - 1
    ensures done + Requests(s, k) == (done + SlotRequests(s[k], 0)) + Requests(s, k + 1)
  {
  }

  lemma AddOne(a: seq<Request>, r: Request, b: seq<Request>)
    ensures a + ([r] + b) == (a + [r]) + b
  {
  }

  ghost predicate Refused(requests: seq<Request>, accept: Request -> int) {
    exists r :: r in requests && accept(r) <= 0
  }

  lemma RefusedConcat(a: seq<Request>, b: seq<Request>, accept: Request -> int)
    ensures Refused(a + b, accept) <==> Refused(a, accept) || Refused(b, accept)
  {
  }

  function NameIndex(name: string, from: nat): (r: nat)
    requires from <= COUNT
    ensures from <= r <= COUNT
    decreases COUNT - from
  {
    if from == COUNT || NAMES[from] == name then from else NameIndex(name, from + 1)
  }

  function SetMany(s: seq<Slot>, values: seq<(string, Option<nat>)>): (r: seq<Slot>)
    requires WellFormed(s)
    ensures WellFormed(r)
    decreases values
  {
    if values == [] then s
    else
      var (name, v) := values[0];
      var i := NameIndex(name, 0);
      SetMany(if i < COUNT && v.Some? then SetAll(s, i, v.value) else s, values[1..])
  }

  // ---------------------------------------------------------------- which property a name sets

  /** The last value in a message that could be read and stands under a name. */
  function LastNamed(values: seq<(string, Option<nat>)>, name: string): Option<nat> {
    if values == [] then None
    else
      var later := LastNamed(values[1..], name);
      if later.Some? then later else if values[0].0 == name then values[0].1 else None
  }

  lemma NameOf(name: string, i: nat)
    requires i < COUNT
    ensures NameIndex(name, 0) == i <==> name == ["Content Protection", "Color Depth", "Color Space"][i]
  {
    assert NAMES[0] != NAMES[1] && NAMES[0] != NAMES[2] && NAMES[1] != NAMES[2] by {
      assert |NAMES[0]| == 18 && |NAMES[1]| == 11 && NAMES[1][6] == 'D' && NAMES[2][6] == 'S';
    }
    assert NameIndex(name, 2) == 2 <==> name == NAMES[2];
    assert NameIndex(name, 1) == 1 <==> name == NAMES[1];
  }

  /**
   * A message leaves, for each property of each listed HDMI connector, the last readable value under
   * that property's own name to be written, if there is one; everything else stays.
   */
  lemma {:induction false} SetManyNamed(s: seq<Slot>, values: seq<(string, Option<nat>)>, k: nat, i: nat)
    requires WellFormed(s) && k < |s| && i < COUNT
    ensures |SetMany(s, values)| == |s|
    ensures var x, y := s[k], SetMany(s, values)[k];
      var v := LastNamed(values, ["Content Protection", "Color Depth", "Color Space"][i]);
      && y.data == x.data && |y.props| == COUNT
      && y.props[i] == if k < |s| - 1 && x.data.Some? && x.data.value.kind in {11, 12} && v.Some?
                       then Prop(x.props[i].id, true, v.value) else x.props[i]
    decreases values
  {
    if values != [] {
      var (name, v) := values[0];
      var j := NameIndex(name, 0);
      NameOf(name, i);
      SetManyNamed(if j < COUNT && v.Some? then SetAll(s, j, v.value) else s, values[1..], k, i);
    }
  }
}
