/** The ring of tasks deferred to the next repaint (compositor-drm-help.c:104-109, 334-365). */
module TaskRing {
  import opened Options

  /** MAX_TASK_NUM. */
  const SLOTS := 10

  class TaskQueue<T> {
    const task: array<Option<T>>
    var putIndex: nat
    var getIndex: nat

    /** How many tasks wait. */
    ghost function Count(): (n: nat)
      reads this
      requires putIndex < SLOTS && getIndex < SLOTS
      ensures n < SLOTS && (getIndex + n) % SLOTS == putIndex
    {
      if getIndex <= putIndex then putIndex - getIndex else putIndex + SLOTS - getIndex
    }

    /** Slots from the get index to the put index hold tasks, the others are null. */
    ghost predicate Valid()
      reads this, task
    {
      && task.Length == SLOTS && putIndex < SLOTS && getIndex < SLOTS
      && (forall i {:trigger At(i)} :: 0 <= i < SLOTS ==> (task[At(i)].Some? <==> i < Count()))
    }

    /** The slot i places after the get index. */
    ghost function At(i: nat): (k: nat)
      reads this
      ensures getIndex < SLOTS ==> k < SLOTS
    {
      if getIndex + i < SLOTS then getIndex + i else if i < SLOTS then getIndex + i - SLOTS else 0
    }

    /** The waiting tasks, the oldest first. */
    ghost function Contents(): (s: seq<T>)
      reads this, task
      requires Valid()
      ensures |s| == Count()
    {
      seq(Count(), i requires 0 <= i && Valid() && i < Count() reads this, task =>
        assert task[At(i)].Some?;
        task[At(i)].value)
    }

    constructor ()
      ensures Valid() && Contents() == [] && fresh(task)
    {
      task := new Option<T>[SLOTS](i => None);
      putIndex, getIndex := 0, 0;
    }

    /** schedule_task.  `copied` is whether its deep copy succeeds. */
    method Schedule(x: T, copied: bool) returns (ok: bool)
      requires Valid()
      modifies this, task
      ensures Valid()
      ensures ok <==> |old(Contents())| < SLOTS - 1 && copied
      ensures Contents() == if ok then old(Contents()) + [x] else old(Contents())
    {
      var next := (putIndex + 1) % SLOTS;
      if next == getIndex {
        return false;
      }
      if !copied {
        return false;
      }
      ghost var n := Count();
      assert At(n) == putIndex;
      task[putIndex] := Some(x);
      putIndex := next;
      assert Count() == n + 1;
      assert forall i :: 0 <= i < SLOTS ==> At(i) == old(At(i));
      return true;
    }

    /** have_task. */
    method HaveTask() returns (have: bool)
      requires Valid()
      ensures have <==> Contents() != []
    {
      have := getIndex != putIndex;
    }

    /** get_task. */
    method GetTask() returns (x: Option<T>)
      requires Valid()
      modifies this, task
      ensures Valid()
      ensures old(Contents()) == [] ==> x == None && Contents() == []
      ensures old(Contents()) != [] ==> x == Some(old(Contents())[0]) && Contents() == old(Contents())[1..]
    {
      var next := (getIndex + 1) % SLOTS;
      var have := HaveTask();
      if !have {
        return None;
      }
      assert At(0) == getIndex;
      x := task[getIndex];
      task[getIndex] := None;
      getIndex := next;
      assert Count() == old(Count()) - 1;
      assert forall i :: 0 <= i < SLOTS - 1 ==> At(i) == old(At(i + 1));
      assert At(SLOTS - 1) == old(At(0));
    }
  }
}
