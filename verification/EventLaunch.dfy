/**
 * What events ask for, and what firing them does: to the world, to the procedure list, and whether it is defined at
 * all.
 */
module EventLaunch {
  import opened Bytes
  import opened Isa
  import opened Decoder
  import opened Timers
  import opened Children
  import opened World

  // ---- Requests and their admission

  lemma {:induction false} AdmittedConcat(a: seq<Spawn>, b: seq<Spawn>, codesz: nat)
    ensures Admitted(a + b, codesz) == Admitted(a, codesz) + Admitted(b, codesz)
  {
    if b == [] {
      assert a + b == a;
    } else {
      var front := b[..|b| - 1];
      AdmittedConcat(a, front, codesz);
      assert (a + b)[..|a + b| - 1] == a + front;
    }
  }

  /** Every request is admitted exactly when all addresses are code; then no flag is touched. */
  lemma {:induction false} AllAdmitted(w: World, spawns: seq<Spawn>, codesz: nat)
    ensures |Admitted(spawns, codesz)| <= |spawns|
    ensures |Admitted(spawns, codesz)| == |spawns| <==> forall k :: 0 <= k < |spawns| ==> spawns[k].entry < codesz
    ensures |Admitted(spawns, codesz)| == |spawns|
            ==> Admitted(spawns, codesz) == spawns && Admit(w, spawns, codesz) == w
  {
    if spawns != [] {
      var front := spawns[..|spawns| - 1];
      AllAdmitted(w, front, codesz);
      assert spawns == front + [spawns[|spawns| - 1]];
    }
  }

  lemma {:induction false} NoneAdmitted(spawns: seq<Spawn>, codesz: nat)
    ensures Admitted(spawns, codesz) == [] <==> forall k :: 0 <= k < |spawns| ==> spawns[k].entry >= codesz
  {
    if spawns != [] {
      var front := spawns[..|spawns| - 1];
      NoneAdmitted(front, codesz);
      assert spawns == front + [spawns[|spawns| - 1]];
    }
  }

  // ---- Timers

  function TimeNow(clock: Clock): Timespec {
    if clock.Now? then clock.t else Timespec(0, 0)
  }

  function DueTimers(w: World, clock: Clock): seq<Timer> {
    Sweep(w.timers, 0, TimeNow(clock)).1
  }

  /**
   * Timers are conserved: those that were there are those that fired and those that remain, each once. Those that
   * fired were due and the remaining ones are not. Each that fired starts one procedure with an empty stack at its
   * callback, in the order they fired, and no flag is raised, exactly when all those callbacks are inside the code.
   */
  lemma TimersFireOnce(w: World, clock: Clock, codesz: nat)
    ensures var now := TimeNow(clock);
            var fired := DueTimers(w, clock);
            var r := FireTimerEvents(w, clock, codesz);
            && multiset(r.w.timers) + multiset(fired) == multiset(w.timers)
            && (forall k :: 0 <= k < |r.w.timers| ==> !Come(r.w.timers[k].expires, now))
            && (forall k :: 0 <= k < |fired| ==> Come(fired[k].expires, now))
            && r.events == |fired|
            && (|r.spawns| == |fired| <==> forall k :: 0 <= k < |fired| ==> fired[k].iptr < codesz)
            && (|r.spawns| == |fired| ==>
                  && r.w.exceptions == w.exceptions
                  && forall k :: 0 <= k < |fired| ==> r.spawns[k] == Plain(fired[k].iptr))
  {
    hide Sweep, Due, Come, Admit, Admitted;
    var now := TimeNow(clock);
    SweepPartitions(w.timers, 0, now);
    var (left, fired) := Sweep(w.timers, 0, now);
    var w' := w.(timers := left, errno := if clock.Now? then w.errno else clock.errno);
    AllAdmitted(w', Launched(fired), codesz);
    assert forall k :: 0 <= k < |fired| ==> Launched(fired)[k] == Plain(fired[k].iptr);
  }

  // ---- Exit callbacks

  /** A callback asks for a procedure if its argument block passes the check. */
  function Request(cb: Callback, memsz: nat): (r: seq<Spawn>)
    ensures |r| <= 1
  {
    if DerefOk(cb.args, 56, memsz) then [Func(cb.entry, cb.args, 0)] else []
  }

  function Requests(cbs: seq<Callback>, memsz: nat): (r: seq<Spawn>)
    ensures |r| <= |cbs|
  {
    if cbs == [] then [] else Request(cbs[0], memsz) + Requests(cbs[1..], memsz)
  }

  /** Every argument block that passes the check lies in memory; the check adds in 32 bits, so this is not for free. */
  predicate BlocksInside(cbs: seq<Callback>, memsz: nat) {
    forall c :: 0 <= c < |cbs| ==> DerefOk(cbs[c].args, 56, memsz) ==> cbs[c].args + 56 <= memsz
  }

  lemma {:induction false} RequestsConcat(a: seq<Callback>, b: seq<Callback>, memsz: nat)
    ensures Requests(a + b, memsz) == Requests(a, memsz) + Requests(b, memsz)
  {
    hide Request;
    if a == [] {
      assert a + b == b;
    } else {
      RequestsConcat(a[1..], b, memsz);
      assert (a + b)[1..] == a[1..] + b && (a + b)[0] == a[0];
      Associates(Request(a[0], memsz), Requests(a[1..], memsz), Requests(b, memsz));
    }
  }

  lemma Associates(a: seq<Spawn>, b: seq<Spawn>, c: seq<Spawn>)
    ensures a + (b + c) == (a + b) + c
  {}

  lemma BlocksConcat(a: seq<Callback>, b: seq<Callback>, memsz: nat)
    ensures BlocksInside(a + b, memsz) <==> BlocksInside(a, memsz) && BlocksInside(b, memsz)
  {
    hide DerefOk;
    if BlocksInside(a + b, memsz) {
      assert forall c :: 0 <= c < |a| ==> (a + b)[c] == a[c];
      assert forall c :: 0 <= c < |b| ==> (a + b)[|a| + c] == b[c];
    }
  }

  /** The requests are those of the callbacks that pass the check. */
  lemma {:induction false} RequestedBy(cbs: seq<Callback>, memsz: nat, sp: Spawn)
    ensures sp in Requests(cbs, memsz)
            <==> exists c :: 0 <= c < |cbs| && DerefOk(cbs[c].args, 56, memsz)
                             && sp == Func(cbs[c].entry, cbs[c].args, 0)
  {
    if cbs != [] {
      RequestedBy(cbs[1..], memsz, sp);
      if c :| 0 <= c < |cbs| && DerefOk(cbs[c].args, 56, memsz) && sp == Func(cbs[c].entry, cbs[c].args, 0) {
        assert c > 0 ==> cbs[1..][c - 1] == cbs[c];
      }
      if c :| 0 <= c < |cbs| - 1 && DerefOk(cbs[1..][c].args, 56, memsz)
              && sp == Func(cbs[1..][c].entry, cbs[1..][c].args, 0) {
        assert cbs[c + 1] == cbs[1..][c];
      }
    }
  }

  /** The world's parts that firing callbacks leaves alone. */
  predicate SameOutline(w: World, w': World) {
    w'.kids == w.kids && w'.timers == w.timers && |w'.mem| == |w.mem| && w'.tick == w.tick
  }

  /** `f` and then the requests `more`, admitted and counted. */
  predicate FiredThen(f: Fired, g: Fired, more: seq<Spawn>, codesz: nat)
    requires f.Fired?
  {
    g.Fired? && g.spawns == f.spawns + Admitted(more, codesz) && g.events == f.events + |more|
  }

  lemma OneCallbackFires(f: Fired, cb: Callback, pid: u32, s: Status, codesz: nat)
    requires f.Fired?
    ensures var g := After(f, FireCallback(f.w, cb, pid, s, codesz));
            if BlocksInside([cb], |f.w.mem|) then FiredThen(f, g, Requests([cb], |f.w.mem|), codesz)
                && SameOutline(f.w, g.w)
            else g.FiredUndefined?
  {
    hide StatusBlock, Splice, Raise;
    assert BlocksInside([cb], |f.w.mem|) <==> (DerefOk(cb.args, 56, |f.w.mem|) ==> cb.args + 56 <= |f.w.mem|) by {
      assert [cb][0] == cb;
    }
    assert [cb][1..] == [] && Admitted([], codesz) == [];
    var sp := Func(cb.entry, cb.args, 0);
    assert [sp][..0] == [] && Admitted([sp], codesz) == if sp.entry >= codesz then [] else [sp];
    assert f.spawns + [] == f.spawns;
  }

  /**
   * Firing a child's callbacks is defined exactly when every block that passes the check lies in memory; then it asks
   * for one procedure for each callback that passes, in the order of registration.
   */
  lemma {:induction false} CallbacksFire(f: Fired, cbs: seq<Callback>, c: nat, pid: u32, s: Status, codesz: nat)
    requires f.Fired? && c <= |cbs|
    ensures var g := FireCallbacks(f, cbs, c, pid, s, codesz);
            if BlocksInside(cbs[c..], |f.w.mem|)
            then FiredThen(f, g, Requests(cbs[c..], |f.w.mem|), codesz) && SameOutline(f.w, g.w)
            else g.FiredUndefined?
    decreases |cbs| - c
  {
    hide FireCallback, BlocksInside, Admitted;
    if c < |cbs| {
      var g := After(f, FireCallback(f.w, cbs[c], pid, s, codesz));
      var (one, rest) := ([cbs[c]], cbs[c + 1..]);
      assert cbs[c..] == one + rest;
      RequestsConcat(one, rest, |f.w.mem|);
      BlocksConcat(one, rest, |f.w.mem|);
      OneCallbackFires(f, cbs[c], pid, s, codesz);
      if g.Fired? {
        CallbacksFire(g, cbs, c + 1, pid, s, codesz);
        AdmittedConcat(Requests(one, |f.w.mem|), Requests(rest, |f.w.mem|), codesz);
      }
    } else {
      NothingToFire(f, cbs[c..], codesz);
    }
  }

  lemma NothingToFire(f: Fired, cbs: seq<Callback>, codesz: nat)
    requires f.Fired? && cbs == []
    ensures BlocksInside(cbs, |f.w.mem|) && FiredThen(f, f, Requests(cbs, |f.w.mem|), codesz)
  {
    assert Admitted([], codesz) == [];
  }

  // ---- Child processes

  /** A block whose end wraps around passes the check that `onexit` makes, and firing it is not defined. */
  lemma WrappedBlockPasses(w: World, pid: u32, s: Status, codesz: nat)
    requires |w.mem| == 200
    ensures DerefOk(0xFFFFFFF0, 56, |w.mem|) && !BlocksInside([Callback(0, 0xFFFFFFF0)], |w.mem|)
    ensures FireCallback(w, Callback(0, 0xFFFFFFF0), pid, s, codesz).FiredUndefined?
  {
    var cb := Callback(0, 0xFFFFFFF0);
    assert [cb][0] == cb;
  }

  /** The callbacks of the children reported, in order, and the table once the terminated ones are released. */
  datatype Reported = Reported(cbs: seq<Callback>, kids: ChildTable)

  function AfterReport(t: ChildTable, p: nat, s: Status): ChildTable
    requires p < |t.slots|
  {
    if Terminated(s) then Release(t, p) else t
  }

  function Reports(t: ChildTable, waits: seq<Wait>, k: nat): Reported
    requires k <= |waits|
    decreases |waits| - k
  {
    if t.nProc == 0 || k == |waits| || !waits[k].Reaped? then Reported([], t)
    else
      var p := FindProc(t.slots, waits[k].pid, 0);
      if p == |t.slots| then Reported([], t)
      else
        var rest := Reports(AfterReport(t, p, waits[k].status), waits, k + 1);
        Reported(t.slots[p].cbs + rest.cbs, rest.kids)
  }

  lemma ReapFires(f: Fired, p: nat, pid: u32, s: Status, codesz: nat)
    requires f.Fired? && p < |f.w.kids.slots|
    ensures var cbs := f.w.kids.slots[p].cbs;
            var g := ReapChild(f, p, pid, s, codesz);
            if BlocksInside(cbs, |f.w.mem|)
            then FiredThen(f, g, Requests(cbs, |f.w.mem|), codesz)
                 && SameOutline(f.w.(kids := AfterReport(f.w.kids, p, s)), g.w)
            else g.FiredUndefined?
  {
    hide FireCallbacks, BlocksInside, Admitted, Release, Requests;
    var cbs := f.w.kids.slots[p].cbs;
    CallbacksFire(f, cbs, 0, pid, s, codesz);
    assert cbs[0..] == cbs;
  }

  /** Handling `waitpid` answers is defined, asks for procedures and releases children as the reported ones say. */
  lemma {:induction false} ProcsFire(f: Fired, waits: seq<Wait>, k: nat, codesz: nat)
    requires f.Fired? && k <= |waits|
    ensures var r := Reports(f.w.kids, waits, k);
            var g := FireProcEvents(f, waits, k, codesz);
            if BlocksInside(r.cbs, |f.w.mem|)
            then FiredThen(f, g, Requests(r.cbs, |f.w.mem|), codesz) && SameOutline(f.w.(kids := r.kids), g.w)
            else g.FiredUndefined?
    decreases |waits| - k
  {
    hide ReapChild, BlocksInside, Admitted, AfterReport, Requests, Terminated;
    var t, n := f.w.kids, |f.w.mem|;
    NothingToFire(f, [], codesz);
    if t.nProc != 0 && k < |waits| && waits[k].Reaped? {
      var p := FindProc(t.slots, waits[k].pid, 0);
      if p < |t.slots| {
        var cbs := t.slots[p].cbs;
        var g := ReapChild(f, p, waits[k].pid, waits[k].status, codesz);
        ReapFires(f, p, waits[k].pid, waits[k].status, codesz);
        var rest := Reports(AfterReport(t, p, waits[k].status), waits, k + 1).cbs;
        RequestsConcat(cbs, rest, n);
        BlocksConcat(cbs, rest, n);
        if g.Fired? {
          ProcsFire(g, waits, k + 1, codesz);
          FiredTwice(f, g, FireProcEvents(g, waits, k + 1, codesz), Requests(cbs, n), Requests(rest, n), codesz);
        }
      }
    }
  }

  lemma FiredTwice(f: Fired, g: Fired, h: Fired, a: seq<Spawn>, b: seq<Spawn>, codesz: nat)
    requires f.Fired? && g.Fired?
    ensures FiredThen(f, g, a, codesz) && FiredThen(g, h, b, codesz) ==> FiredThen(f, h, a + b, codesz)
  {
    AdmittedConcat(a, b, codesz);
  }

  // ---- All events of one kind after the other

  /** What timers, file and socket events and child processes together ask for. */
  function EventRequests(w: World, e: Events): seq<Spawn> {
    Launched(DueTimers(w, e.clock)) + e.io.spawns + Requests(Reports(w.kids, e.waits, 0).cbs, |w.mem|)
  }

  predicate EventsDefined(w: World, e: Events) {
    BlocksInside(Reports(w.kids, e.waits, 0).cbs, |w.mem|)
  }

  /**
   * Firing all events is defined exactly when the reported children's blocks that pass the check lie in memory. It
   * counts every request, and starts those inside the code.
   */
  lemma EventsFire(w: World, e: Events, codesz: nat)
    ensures var g := FireVmEvents(w, e, codesz);
            if EventsDefined(w, e)
            then
              && g.Fired? && g.spawns == Admitted(EventRequests(w, e), codesz) && g.events == |EventRequests(w, e)|
              && g.w.kids == Reports(w.kids, e.waits, 0).kids && |g.w.mem| == |w.mem|
              && g.w.timers == Sweep(w.timers, 0, TimeNow(e.clock)).0
            else g.FiredUndefined?
  {
    hide Sweep, FireProcEvents, Admitted, Admit, Requests, Reports, BlocksInside;
    var t := FireTimerEvents(w, e.clock, codesz);
    var io := FireIoEvents(t.w, e.io, codesz);
    var f := After(t, io);
    ProcsFire(f, e.waits, 0, codesz);
    AdmittedConcat(Launched(DueTimers(w, e.clock)), e.io.spawns, codesz);
    AdmittedConcat(Launched(DueTimers(w, e.clock)) + e.io.spawns,
                   Requests(Reports(w.kids, e.waits, 0).cbs, |w.mem|), codesz);
  }

  // ---- The other places where events fire

  /** Without events there are no new procedures. */
  lemma NoEventsNoProcs(w: World, e: Events, codesz: nat)
    ensures var f := FireVmEvents(w, e, codesz);
            f.Fired? && f.events == 0 ==> f.spawns == []
  {
    hide FireVmEvents, EventRequests, EventsDefined;
    EventsFire(w, e, codesz);
  }

  /** What the events and the cleanup before a system call ask for. */
  function CallRequests(w: World, inp: Input): seq<Spawn> {
    EventRequests(w, inp.sys) + Requests(CleanupReports(w, inp).cbs, |w.mem|)
  }

  function CleanupReports(w: World, inp: Input): Reported {
    Reports(Reports(w.kids, inp.sys.waits, 0).kids, inp.sysCleanup, 0)
  }

  predicate CallDefined(w: World, inp: Input) {
    EventsDefined(w, inp.sys) && BlocksInside(CleanupReports(w, inp).cbs, |w.mem|)
  }

  lemma CallEventsFire(w: World, codesz: nat, inp: Input)
    ensures var g := SyscallEvents(w, codesz, inp);
            if CallDefined(w, inp)
            then
              && g.Fired? && g.spawns == Admitted(CallRequests(w, inp), codesz) && g.events == |CallRequests(w, inp)|
              && g.w.kids == CleanupReports(w, inp).kids && |g.w.mem| == |w.mem|
              && g.w.timers == Sweep(w.timers, 0, TimeNow(inp.sys.clock)).0
            else g.FiredUndefined?
  {
    hide Sweep, FireVmEvents, FireProcEvents, Admitted, Requests, Reports, BlocksInside, EventRequests;
    EventsFire(w, inp.sys, codesz);
    var f := FireVmEvents(w, inp.sys, codesz);
    if f.Fired? {
      ProcsFire(f, inp.sysCleanup, 0, codesz);
      AdmittedConcat(EventRequests(w, inp.sys), Requests(CleanupReports(w, inp).cbs, |w.mem|), codesz);
    } else {
      UndefinedStays(f, inp.sysCleanup, codesz);
    }
  }

  lemma UndefinedStays(f: Fired, waits: seq<Wait>, codesz: nat)
    requires f.FiredUndefined?
    ensures FireProcEvents(f, waits, 0, codesz).FiredUndefined?
  {}

  /** The children reported in the cleanup that every so many instructions bring. */
  function TickReports(w: World, inp: Input): Reported {
    if (w.tick + 1) % VM_CLEANUP_PERIOD != 0 then Reported([], w.kids) else Reports(w.kids, inp.cleanup, 0)
  }

  lemma TickFires(w: World, codesz: nat, inp: Input)
    ensures var r := TickReports(w, inp);
            var g := Tick(w, codesz, inp);
            if BlocksInside(r.cbs, |w.mem|)
            then
              && g.Fired? && g.spawns == Admitted(Requests(r.cbs, |w.mem|), codesz)
              && g.w.kids == r.kids && g.w.timers == w.timers && |g.w.mem| == |w.mem|
            else g.FiredUndefined?
  {
    hide FireProcEvents, Admitted, Requests, Reports, BlocksInside;
    var f := NoEvents(w.(tick := w.tick + 1));
    NothingToFire(f, [], codesz);
    ProcsFire(f, inp.cleanup, 0, codesz);
  }

  // ---- Which callbacks are left

  predicate HasCallback(t: ChildTable, cb: Callback) {
    exists k :: 0 <= k < |t.slots| && cb in t.slots[k].cbs
  }

  lemma ReleaseLosesOwn(t: ChildTable, p: nat, cb: Callback)
    requires p < |t.slots|
    ensures HasCallback(t, cb) <==> HasCallback(Release(t, p), cb) || cb in t.slots[p].cbs
  {
    var u := Release(t, p);
    if k :| 0 <= k < |t.slots| && cb in t.slots[k].cbs {
      assert k != p ==> cb in u.slots[k].cbs;
    }
    if k :| 0 <= k < |u.slots| && cb in u.slots[k].cbs {
      assert cb in t.slots[k].cbs;
    }
  }

  /** Nothing is lost: a registered callback is still there afterwards, or it was among those fired. */
  lemma {:induction false} ReportsKeepOrFire(t: ChildTable, waits: seq<Wait>, k: nat, cb: Callback)
    requires k <= |waits|
    ensures var r := Reports(t, waits, k);
            HasCallback(t, cb) <==> HasCallback(r.kids, cb) || cb in r.cbs
    decreases |waits| - k
  {
    hide HasCallback, Release;
    if t.nProc != 0 && k < |waits| && waits[k].Reaped? {
      var p := FindProc(t.slots, waits[k].pid, 0);
      if p < |t.slots| {
        ReleaseLosesOwn(t, p, cb);
        OwnsCallback(t, p, cb);
        ReportsKeepOrFire(AfterReport(t, p, waits[k].status), waits, k + 1, cb);
      }
    }
  }

  lemma OwnsCallback(t: ChildTable, p: nat, cb: Callback)
    requires p < |t.slots|
    ensures cb in t.slots[p].cbs ==> HasCallback(t, cb)
  {}

  lemma {:induction false} AdmittedMembers(spawns: seq<Spawn>, codesz: nat, sp: Spawn)
    ensures sp in Admitted(spawns, codesz) <==> sp in spawns && sp.entry < codesz
  {
    if spawns != [] {
      var front := spawns[..|spawns| - 1];
      AdmittedMembers(front, codesz, sp);
      assert spawns == front + [spawns[|spawns| - 1]];
    }
  }
}
