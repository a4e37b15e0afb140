/** The table of child processes and their exit callbacks. */
module Children {
  import opened Bytes

  const PROC_ALLOC := 8

  datatype Callback = Callback(entry: u32, args: u32)

  datatype Child = Child(used: bool, pid: u32, cbs: seq<Callback>)

  /** `nProc` and `nExit` are the counters the VM keeps beside the slots. */
  datatype ChildTable = ChildTable(slots: seq<Child>, nProc: int, nExit: int)

  datatype Option<T> = None | Some(value: T)

  const FREE_SLOT := Child(false, 0, [])

  function FirstFree(slots: seq<Child>, from: nat): (p: nat)
    requires from <= |slots|
    ensures from <= p <= |slots| && (p < |slots| ==> !slots[p].used)
    ensures forall k :: from <= k < p ==> slots[k].used
    decreases |slots| - from
  {
    if from == |slots| || !slots[from].used then from else FirstFree(slots, from + 1)
  }

  function Roomy(t: ChildTable): (slots: seq<Child>) {
    if t.nProc >= |t.slots| then t.slots + seq(PROC_ALLOC, _ => FREE_SLOT) else t.slots
  }

  /** `save_child_proc`; no result stands for the `abort()` after an unsuccessful slot search. */
  function SaveChild(t: ChildTable, pid: u32): Option<ChildTable> {
    var slots := Roomy(t);
    var p := FirstFree(slots, 0);
    if p == |slots| then None
    else Some(ChildTable(slots[p := Child(true, pid, [])], t.nProc + 1, t.nExit))
  }

  /** `find_proc`: the first used slot with this pid. */
  function FindProc(slots: seq<Child>, pid: u32, from: nat): (p: nat)
    requires from <= |slots|
    ensures from <= p <= |slots| && (p < |slots| ==> slots[p].used && slots[p].pid == pid)
    ensures forall k :: from <= k < p ==> !(slots[k].used && slots[k].pid == pid)
    decreases |slots| - from
  {
    if from == |slots| || (slots[from].used && slots[from].pid == pid) then from
    else FindProc(slots, pid, from + 1)
  }

  function AddCallback(t: ChildTable, p: nat, cb: Callback): ChildTable
    requires p < |t.slots|
  {
    var ch := t.slots[p];
    ChildTable(t.slots[p := ch.(cbs := ch.cbs + [cb])], t.nProc, t.nExit + 1)
  }

  /** A terminated child gives up its slot and its callbacks. */
  function Release(t: ChildTable, p: nat): ChildTable
    requires p < |t.slots|
  {
    var ch := t.slots[p];
    ChildTable(t.slots[p := Child(false, ch.pid, [])], t.nProc - 1, t.nExit - |ch.cbs|)
  }

  // ---- What the counters count

  function UsedCount(slots: seq<Child>): (n: nat)
    ensures n <= |slots|
  {
    if slots == [] then 0
    else UsedCount(slots[..|slots| - 1]) + (if slots[|slots| - 1].used then 1 else 0)
  }

  function CallbackCount(slots: seq<Child>): nat {
    if slots == [] then 0
    else CallbackCount(slots[..|slots| - 1]) + (if slots[|slots| - 1].used then |slots[|slots| - 1].cbs| else 0)
  }

  predicate UniquePids(slots: seq<Child>) {
    forall i, j :: 0 <= i < j < |slots| && slots[i].used && slots[j].used ==> slots[i].pid != slots[j].pid
  }

  ghost predicate Counted(t: ChildTable) {
    && t.nProc == UsedCount(t.slots)
    && t.nExit == CallbackCount(t.slots)
  }

  lemma {:induction false} CountsAfterUpdate(slots: seq<Child>, p: nat, ch: Child)
    requires p < |slots|
    ensures UsedCount(slots[p := ch])
            == UsedCount(slots) - (if slots[p].used then 1 else 0) + (if ch.used then 1 else 0)
    ensures CallbackCount(slots[p := ch])
            == CallbackCount(slots) - (if slots[p].used then |slots[p].cbs| else 0) + (if ch.used then |ch.cbs| else 0)
  {
    var n := |slots| - 1;
    if p == n {
      assert slots[p := ch][..n] == slots[..n];
    } else {
      CountsAfterUpdate(slots[..n], p, ch);
      assert slots[p := ch][..n] == slots[..n][p := ch];
    }
  }

  lemma {:induction false} CountsAfterGrowth(slots: seq<Child>, n: nat)
    ensures UsedCount(slots + seq(n, _ => FREE_SLOT)) == UsedCount(slots)
    ensures CallbackCount(slots + seq(n, _ => FREE_SLOT)) == CallbackCount(slots)
  {
    if n == 0 {
      assert slots + seq(0, _ => FREE_SLOT) == slots;
    } else {
      CountsAfterGrowth(slots, n - 1);
      var s := slots + seq(n, _ => FREE_SLOT);
      assert s[..|s| - 1] == slots + seq(n - 1, _ => FREE_SLOT);
    }
  }

  /** Full count means full table. */
  lemma {:induction false} AllUsed(slots: seq<Child>)
    requires forall k :: 0 <= k < |slots| ==> slots[k].used
    ensures UsedCount(slots) == |slots|
  {
    if slots != [] {
      AllUsed(slots[..|slots| - 1]);
    }
  }

  /** The abort after the slot search is unreachable, and the counters stay right. */
  lemma SaveChildCounts(t: ChildTable, pid: u32)
    requires Counted(t)
    ensures SaveChild(t, pid).Some? && Counted(SaveChild(t, pid).value)
    ensures UniquePids(t.slots) && FindProc(t.slots, pid, 0) == |t.slots|
            ==> UniquePids(SaveChild(t, pid).value.slots)
  {
    var slots := Roomy(t);
    CountsAfterGrowth(t.slots, PROC_ALLOC);
    var p := FirstFree(slots, 0);
    if p == |slots| {
      AllUsed(slots);
      assert false;
    }
    CountsAfterUpdate(slots, p, Child(true, pid, []));
  }

  lemma AddCallbackCounts(t: ChildTable, p: nat, cb: Callback)
    requires Counted(t) && p < |t.slots| && t.slots[p].used
    ensures Counted(AddCallback(t, p, cb))
    ensures UniquePids(t.slots) ==> UniquePids(AddCallback(t, p, cb).slots)
  {
    CountsAfterUpdate(t.slots, p, t.slots[p].(cbs := t.slots[p].cbs + [cb]));
  }

  lemma ReleaseCounts(t: ChildTable, p: nat)
    requires Counted(t) && p < |t.slots| && t.slots[p].used
    ensures t.nProc > 0 && Counted(Release(t, p))
    ensures UniquePids(t.slots) ==> UniquePids(Release(t, p).slots)
  {
    CountsAfterUpdate(t.slots, p, Child(false, t.slots[p].pid, []));
  }

  /** Exit callbacks are pending exactly when some live child has one. */
  lemma {:induction false} PendingMeansLiveCallback(slots: seq<Child>)
    ensures CallbackCount(slots) > 0 <==> exists k :: 0 <= k < |slots| && slots[k].used && slots[k].cbs != []
  {
    if slots != [] {
      var front := slots[..|slots| - 1];
      PendingMeansLiveCallback(front);
      if CallbackCount(front) > 0 {
        var k :| 0 <= k < |front| && front[k].used && front[k].cbs != [];
        assert slots[k].used && slots[k].cbs != [];
      }
      if k :| 0 <= k < |slots| && slots[k].used && slots[k].cbs != [] {
        assert k < |front| ==> front[k] == slots[k];
      }
    }
  }
}
