/** What a started child, a registered callback and a report leave in the child table, and what a callback is handed. */
module ChildLaws {
  import opened Bytes
  import opened Isa
  import opened Decoder
  import opened Children
  import opened World
  import opened ByteMachine
  import opened EventLaunch
  import opened DataLaws

  // ---- The table

  /** Children other than the one in slot `p` are as before. */
  predicate OthersKept(slots: seq<Child>, slots': seq<Child>, p: nat) {
    |slots| <= |slots'| && forall k :: 0 <= k < |slots| && k != p ==> slots'[k] == slots[k]
  }

  /** A started child takes a slot that was free, with its pid and no callbacks; new slots are free. */
  lemma StartTakesSlot(t: ChildTable, pid: u32)
    ensures var r := SaveChild(t, pid);
            r.Some? ==>
              |r.value.slots| == |t.slots| + (if t.nProc >= |t.slots| then 8 else 0)
              && exists p :: 0 <= p < |r.value.slots| && (p < |t.slots| ==> !t.slots[p].used)
                          && r.value.slots[p] == Child(true, pid, []) && OthersKept(t.slots, r.value.slots, p)
                          && (forall k :: |t.slots| <= k < |r.value.slots| && k != p ==> !r.value.slots[k].used)
                          && r.value.nProc == t.nProc + 1 && r.value.nExit == t.nExit
  {
    var r := SaveChild(t, pid);
    if r.Some? {
      var p := FirstFree(Roomy(t), 0);
      assert r.value.slots[p] == Child(true, pid, []);
    }
  }

  /** Registering puts the callback after the child's others; a release leaves the slot free. */
  lemma TableUpdates(t: ChildTable, p: nat, cb: Callback)
    requires p < |t.slots|
    ensures var r := AddCallback(t, p, cb);
            && OthersKept(t.slots, r.slots, p) && |r.slots| == |t.slots| && r.nProc == t.nProc && r.nExit == t.nExit + 1
            && r.slots[p] == Child(t.slots[p].used, t.slots[p].pid, t.slots[p].cbs + [cb])
    ensures var r := Release(t, p);
            && OthersKept(t.slots, r.slots, p) && |r.slots| == |t.slots| && !r.slots[p].used && r.slots[p].cbs == []
            && r.nProc == t.nProc - 1 && r.nExit == t.nExit - |t.slots[p].cbs|
  {}

  /**
   * A child that `waitpid` reports gives up its slot exactly when it exited or was signalled; else it keeps the slot
   * and its callbacks. Other children are as before.
   */
  lemma ReportReleases(f: Fired, pid: u32, s: Status, codesz: nat, p: nat)
    requires f.Fired? && p < |f.w.kids.slots| && f.w.kids.nProc != 0 && UniquePids(f.w.kids.slots)
    requires f.w.kids.slots[p].used && f.w.kids.slots[p].pid == pid
    ensures var r := FireProcEvents(f, [Reaped(pid, s)], 0, codesz);
            r.Fired? ==>
              && |r.w.kids.slots| == |f.w.kids.slots| && OthersKept(f.w.kids.slots, r.w.kids.slots, p)
              && (if s.exited != 0 || s.signaled != 0 then !r.w.kids.slots[p].used && r.w.kids.slots[p].cbs == []
                  else r.w.kids == f.w.kids)
  {
    hide FireCallbacks;
    var q := FindProc(f.w.kids.slots, pid, 0);
    assert q == p;
    var g := FireCallbacks(f, f.w.kids.slots[p].cbs, 0, pid, s, codesz);
    NoMoreReports(ReapChild(f, p, pid, s, codesz), [Reaped(pid, s)], codesz);
  }

  /** When `waitpid` has nothing to report, or fails, the table stays; a failure leaves its error number. */
  lemma NothingReported(f: Fired, errno: u32, codesz: nat)
    requires f.Fired? && f.w.kids.nProc != 0
    ensures FireProcEvents(f, [NoChild], 0, codesz) == f
    ensures FireProcEvents(f, [WaitError(errno)], 0, codesz) == f.(w := f.w.(errno := errno))
  {}

  lemma NoMoreReports(f: Fired, waits: seq<Wait>, codesz: nat)
    ensures FireProcEvents(f, waits, |waits|, codesz) == f
  {}

  // ---- What a callback is handed

  /**
   * An exit callback with its block in memory finds there, in this order, the pid, whether the child exited and with
   * which status, whether it was signalled and by which signal, whether it was stopped, and whether it continued, eight
   * bytes each. Nothing else changes but a flag where the callback's address is no code.
   */
  lemma CallbackReads(w: World, cb: Callback, pid: u32, s: Status, codesz: nat)
    requires cb.args + 56 <= |w.mem|
    ensures var r := FireCallback(w, cb, pid, s, codesz);
            && r.Fired? && |r.w.mem| == |w.mem| && r.events == 1
            && r.w == w.(mem := r.w.mem, exceptions := r.w.exceptions)
            && (forall k :: 0 <= k < |w.mem| && (k < cb.args || cb.args + 56 <= k) ==> r.w.mem[k] == w.mem[k])
            && Load64(r.w.mem, cb.args) == Some(pid)
            && Load64(r.w.mem, cb.args + 8) == Some(s.exited) && Load64(r.w.mem, cb.args + 16) == Some(s.exitStatus)
            && Load64(r.w.mem, cb.args + 24) == Some(s.signaled) && Load64(r.w.mem, cb.args + 32) == Some(s.termSig)
            && Load64(r.w.mem, cb.args + 40) == Some(s.stopped) && Load64(r.w.mem, cb.args + 48) == Some(s.continued)
            && (if cb.entry < codesz then r.spawns == [Func(cb.entry, cb.args, 0)] && r.w.exceptions == w.exceptions
                else r.spawns == [] && FlagSet(w.exceptions, r.w.exceptions, 4))
  {
    var block := StatusBlock(pid, s);
    var m := Splice(w.mem, cb.args, block);
    assert DerefOk(cb.args, 56, |w.mem|) by { BlockPasses(cb.args, |w.mem|); }
    SpliceOutside(w.mem, cb.args, block);
    FaultBits(w.exceptions);
    SpliceReads(w.mem, cb.args, block, cb.args, 56);
    hide Raise, FlagSet, Splice, DerefOk, Load64, StatusBlock;
    BlockLoads(m, cb.args, pid, s);
  }

  /** A callback whose block fails the check is passed over, with the memory flag. */
  lemma BadBlockPassedOver(w: World, cb: Callback, pid: u32, s: Status, codesz: nat)
    requires !DerefOk(cb.args, 56, |w.mem|)
    ensures var r := FireCallback(w, cb, pid, s, codesz);
            && r.Fired? && r.spawns == [] && r.events == 0
            && r.w == w.(exceptions := r.w.exceptions) && FlagSet(w.exceptions, r.w.exceptions, 1)
  {
    FaultBits(w.exceptions);
    hide Raise, FlagSet, DerefOk;
  }

  lemma BlockPasses(args: u32, memsz: nat)
    requires args + 56 <= memsz
    ensures DerefOk(args, 56, memsz)
  {
    ReferencePasses(args, 56, memsz);
  }

  lemma BlockLoads(m: seq<byte>, at: nat, pid: u32, s: Status)
    requires at + 56 <= |m| && m[at..at + 56] == StatusBlock(pid, s)
    ensures Load64(m, at) == Some(pid)
    ensures Load64(m, at + 8) == Some(s.exited) && Load64(m, at + 16) == Some(s.exitStatus)
    ensures Load64(m, at + 24) == Some(s.signaled) && Load64(m, at + 32) == Some(s.termSig)
    ensures Load64(m, at + 40) == Some(s.stopped) && Load64(m, at + 48) == Some(s.continued)
  {
    hide ToLE, Load64, StatusBlock;
    BlockWords(pid, s);
    var block := StatusBlock(pid, s);
    WordLoads(m, at, block, 0, pid);
    WordLoads(m, at, block, 8, s.exited);
    WordLoads(m, at, block, 16, s.exitStatus);
    WordLoads(m, at, block, 24, s.signaled);
    WordLoads(m, at, block, 32, s.termSig);
    WordLoads(m, at, block, 40, s.stopped);
    WordLoads(m, at, block, 48, s.continued);
  }

  lemma BlockWords(pid: u32, s: Status)
    ensures var b := StatusBlock(pid, s);
            && b[0..8] == ToLE(pid, 8) && b[8..16] == ToLE(s.exited, 8) && b[16..24] == ToLE(s.exitStatus, 8)
            && b[24..32] == ToLE(s.signaled, 8) && b[32..40] == ToLE(s.termSig, 8)
            && b[40..48] == ToLE(s.stopped, 8) && b[48..56] == ToLE(s.continued, 8)
  {
    hide ToLE;
  }

  lemma WordLoads(m: seq<byte>, at: nat, block: seq<byte>, off: nat, v: u64)
    requires off + 8 <= |block| && at + |block| <= |m| && m[at..at + |block|] == block
    requires block[off..off + 8] == ToLE(v, 8)
    ensures Load64(m, at + off) == Some(v)
  {
    hide ToLE;
    HoldsWithin(m, at, block, off, ToLE(v, 8));
    Capacities();
    LoadFitting(v, 8);
  }

  /** In the procedure started for it `argv` stores the address of that block. */
  lemma CallbackArgument(w: World, entry: u32, args: u32, a: u32, codesz: nat, inp: Input)
    requires a + 4 <= |w.mem|
    ensures var p := NewProc(Func(entry, args, 0));
            var e := Effects(Argv, [RefPtr(a)], w, TopOf(p.cstack), codesz, inp);
            p.iptr == entry && |p.cstack| == 1 && e.Next? && Stored(w, e.w, a, 4, args)
  {
    hide Stored, Store;
    StoreStores(w, a, 4, args);
  }
}
