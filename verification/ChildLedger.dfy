/** Exit callbacks over the life of child processes: each registered callback fires once. */
module ChildLedger {
  import opened Bytes
  import opened Isa
  import opened Decoder
  import opened Timers
  import opened Children
  import opened World
  import opened EventLaunch
  import opened SyscallLaws
  import opened ByteMachine
  import opened Bracketing
  import opened Halting

  // ---- Registered addresses are inside the code

  ghost predicate InCode(t: ChildTable, codesz: nat) {
    forall cb :: HasCallback(t, cb) ==> cb.entry < codesz
  }

  lemma ReportsInCode(t: ChildTable, waits: seq<Wait>, codesz: nat)
    requires InCode(t, codesz)
    ensures var r := Reports(t, waits, 0);
            InCode(r.kids, codesz) && forall k :: 0 <= k < |r.cbs| ==> r.cbs[k].entry < codesz
  {
    hide Reports, HasCallback;
    var r := Reports(t, waits, 0);
    forall cb | HasCallback(r.kids, cb) || cb in r.cbs
      ensures cb.entry < codesz
    {
      ReportsKeepOrFire(t, waits, 0, cb);
    }
    assert forall k :: 0 <= k < |r.cbs| ==> r.cbs[k] in r.cbs;
  }

  /** Then nothing that children ask for is refused. */
  lemma RequestsAdmitted(cbs: seq<Callback>, memsz: nat, codesz: nat)
    requires forall k :: 0 <= k < |cbs| ==> cbs[k].entry < codesz
    ensures Admitted(Requests(cbs, memsz), codesz) == Requests(cbs, memsz)
  {
    hide Admitted, Requests;
    var asked := Requests(cbs, memsz);
    forall k | 0 <= k < |asked|
      ensures asked[k].entry < codesz
    {
      RequestedBy(cbs, memsz, asked[k]);
    }
    AllAdmitted(World([], 0, 0, 0, [], ChildTable([], 0, 0), 0), asked, codesz);
  }

  lemma DispatchInCode(w: World, id: nat, argv: u32, retv: u32, codesz: nat, inp: Input)
    requires InCode(w.kids, codesz)
    ensures var r := Dispatch(w, id, argv, retv, codesz, inp);
            r.Some? ==> InCode(r.value.kids, codesz)
  {
    hide SysTimeout, SysOnExit, HasCallback, SaveChild, TimeoutPasses, Load32, Load64, Answers, AddCallback,
      FindProc, Raise, DerefOk;
    TimeoutRegisters(w, argv, retv, codesz, inp.clock);
    OnExitRegisters(w, argv, retv, codesz);
    var r := Dispatch(w, id, argv, retv, codesz, inp);
    if r.Some? {
      forall cb | HasCallback(r.value.kids, cb)
        ensures cb.entry < codesz
      {
        if id == SYS_ONEXIT && OnExitPasses(w, argv, retv, codesz) {
          var added := Callback(Load64(w.mem, argv + 16).value % WORD32, Load64(w.mem, argv + 8).value % WORD32);
          AddedCallback(w.kids, FindProc(w.kids.slots, Load64(w.mem, argv).value % WORD32, 0), added, cb);
        } else if inp.foreign.child.Some? {
          SavedChildCallbacks(w.kids, inp.foreign.child.value, cb);
        }
      }
    }
  }

  lemma SyscallInCode(os: seq<Operand>, w: World, codesz: nat, inp: Input)
    requires |os| == 3 && InCode(w.kids, codesz)
    ensures var e := SyscallEffect(w, os, codesz, inp);
            !e.Undefined? ==> InCode(e.w.kids, codesz)
  {
    hide InCode, SyscallEvents, CallDefined, Dispatch, Admitted, CallRequests, Reports, ArgValue, Raise;
    CallEventsFire(w, codesz, inp);
    ReportsInCode(w.kids, inp.sys.waits, codesz);
    ReportsInCode(Reports(w.kids, inp.sys.waits, 0).kids, inp.sysCleanup, codesz);
    var f := SyscallEvents(w, codesz, inp);
    if f.Fired? {
      var w' := f.w.(tick := 0);
      var (i, a, r) := (ArgValue(os[0], w'.mem), ArgValue(os[1], w'.mem), ArgValue(os[2], w'.mem));
      if i.Some? && a.Some? && r.Some? {
        DispatchInCode(w', i.value % 0x1_0000, a.value % WORD32, r.value % WORD32, codesz, inp);
      }
    }
  }

  lemma EffectInCode(op: Op, os: seq<Operand>, w: World, top: Option<Top>, codesz: nat, inp: Input)
    requires |os| == Arity(op) && InCode(w.kids, codesz)
    ensures var e := Effects(op, os, w, top, codesz, inp);
            !e.Undefined? ==> InCode(e.w.kids, codesz)
  {
    hide Effects, InCode, SyscallEffect;
    if op.Syscall? {
      SyscallHandler(os, w, top, codesz, inp);
      SyscallInCode(os, w, codesz, inp);
    } else {
      DataKeepsRegistrations(op, os, w, top, codesz, inp);
    }
  }

  // ---- The ledger

  /** A callback fired when memory had `memsz` bytes. */
  datatype Firing = Firing(cb: Callback, memsz: nat)

  function Firings(cbs: seq<Callback>, memsz: nat): (r: seq<Firing>)
    ensures |r| == |cbs|
  {
    seq(|cbs|, k requires 0 <= k < |cbs| => Firing(cbs[k], memsz))
  }

  function CallbacksOf(fired: seq<Firing>): (r: seq<Callback>)
    ensures |r| == |fired|
  {
    seq(|fired|, k requires 0 <= k < |fired| => fired[k].cb)
  }

  /** The procedures started for what fired: one for each callback whose argument block passes the check. */
  function LaunchesOf(fired: seq<Firing>): seq<Spawn> {
    if fired == [] then [] else Request(fired[0].cb, fired[0].memsz) + LaunchesOf(fired[1..])
  }

  lemma {:induction false} LaunchesConcat(a: seq<Firing>, b: seq<Firing>)
    ensures LaunchesOf(a + b) == LaunchesOf(a) + LaunchesOf(b)
  {
    hide Request;
    if a == [] {
      assert a + b == b;
    } else {
      LaunchesConcat(a[1..], b);
      assert (a + b)[1..] == a[1..] + b && (a + b)[0] == a[0];
      Associates(Request(a[0].cb, a[0].memsz), LaunchesOf(a[1..]), LaunchesOf(b));
    }
  }

  lemma {:induction false} LaunchesOfFirings(cbs: seq<Callback>, memsz: nat)
    ensures LaunchesOf(Firings(cbs, memsz)) == Requests(cbs, memsz)
  {
    hide Request;
    if cbs != [] {
      LaunchesOfFirings(cbs[1..], memsz);
      assert Firings(cbs, memsz)[1..] == Firings(cbs[1..], memsz);
    }
  }

  /** What happens to the child table: a child starts, a callback is registered, a child is reported. */
  datatype ChildOp = Start(pid: u32) | Register(pid: u32, cb: Callback) | Report(pid: u32, terminated: bool, memsz: nat)

  /** The table, the callbacks ever registered, those fired in order, and those released with their child. */
  datatype History = History(table: ChildTable, registered: multiset<Callback>, fired: seq<Firing>,
                             released: multiset<Callback>)

  function Apply(h: History, op: ChildOp): History {
    match op
    case Start(pid) =>
      var t := SaveChild(h.table, pid);
      if t.None? then h else h.(table := t.value)
    case Register(pid, cb) =>
      var q := FindProc(h.table.slots, pid, 0);
      if q == |h.table.slots| then h
      else h.(table := AddCallback(h.table, q, cb), registered := h.registered + multiset{cb})
    case Report(pid, terminated, memsz) =>
      var q := FindProc(h.table.slots, pid, 0);
      if q == |h.table.slots| then h
      else
        var cbs := h.table.slots[q].cbs;
        h.(table := if terminated then Release(h.table, q) else h.table,
           fired := h.fired + Firings(cbs, memsz),
           released := if terminated then h.released + multiset(cbs) else h.released)
  }

  function Replay(h: History, ops: seq<ChildOp>): History
    decreases |ops|
  {
    if ops == [] then h else Replay(Apply(h, ops[0]), ops[1..])
  }

  lemma {:induction false} ReplayConcat(h: History, a: seq<ChildOp>, b: seq<ChildOp>)
    ensures Replay(h, a + b) == Replay(Replay(h, a), b)
    decreases |a|
  {
    hide Apply;
    if a == [] {
      assert a + b == b;
    } else {
      ReplayConcat(Apply(h, a[0]), a[1..], b);
      assert (a + b)[1..] == a[1..] + b;
    }
  }

  // ---- What a round does to the child table

  /** The children reported by `waitpid` answers. */
  function ReportOps(t: ChildTable, waits: seq<Wait>, k: nat, memsz: nat): seq<ChildOp>
    requires k <= |waits|
    decreases |waits| - k
  {
    if t.nProc == 0 || k == |waits| || !waits[k].Reaped? then []
    else
      var p := FindProc(t.slots, waits[k].pid, 0);
      if p == |t.slots| then []
      else
        [Report(waits[k].pid, Terminated(waits[k].status), memsz)]
        + ReportOps(AfterReport(t, p, waits[k].status), waits, k + 1, memsz)
  }

  /** Table `t`, with `more` callbacks fired since `h`. */
  predicate Follows(h: History, g: History, t: ChildTable, more: seq<Firing>) {
    g.table == t && g.fired == h.fired + more
  }

  lemma {:induction false} ReportsReplay(h: History, waits: seq<Wait>, k: nat, memsz: nat)
    requires k <= |waits|
    ensures var r := Reports(h.table, waits, k);
            Follows(h, Replay(h, ReportOps(h.table, waits, k, memsz)), r.kids, Firings(r.cbs, memsz))
    decreases |waits| - k
  {
    hide Release, FindProc, Terminated;
    var t := h.table;
    assert h.fired + [] == h.fired;
    if t.nProc != 0 && k < |waits| && waits[k].Reaped? {
      var p := FindProc(t.slots, waits[k].pid, 0);
      if p < |t.slots| {
        var op := Report(waits[k].pid, Terminated(waits[k].status), memsz);
        var (cbs, rest) := (t.slots[p].cbs, Reports(AfterReport(t, p, waits[k].status), waits, k + 1).cbs);
        ReportsReplay(Apply(h, op), waits, k + 1, memsz);
        assert Firings(cbs + rest, memsz) == Firings(cbs, memsz) + Firings(rest, memsz);
        assert h.fired + (Firings(cbs, memsz) + Firings(rest, memsz))
            == h.fired + Firings(cbs, memsz) + Firings(rest, memsz);
        var ops := ReportOps(t, waits, k, memsz);
        assert ops[0] == op && ops[1..] == ReportOps(AfterReport(t, p, waits[k].status), waits, k + 1, memsz);
      }
    }
  }

  /** What a system call itself does. */
  function DispatchOps(w: World, id: nat, argv: u32, retv: u32, codesz: nat, inp: Input): seq<ChildOp> {
    if id == SYS_ONEXIT && OnExitPasses(w, argv, retv, codesz) then
      [Register(Load64(w.mem, argv).value % WORD32,
                Callback(Load64(w.mem, argv + 16).value % WORD32, Load64(w.mem, argv + 8).value % WORD32))]
    else if (id == SYS_EXEC || id == SYS_RUN) && inp.foreign.child.Some? then [Start(inp.foreign.child.value)]
    else []
  }

  lemma DispatchReplay(h: History, w: World, id: nat, argv: u32, retv: u32, codesz: nat, inp: Input)
    requires h.table == w.kids
    ensures var r := Dispatch(w, id, argv, retv, codesz, inp);
            r.Some? ==> Follows(h, Replay(h, DispatchOps(w, id, argv, retv, codesz, inp)), r.value.kids, [])
  {
    hide SysTimeout, SysOnExit, SaveChild, TimeoutPasses, OnExitPasses, Load32, Load64, Answers, AddCallback,
      FindProc, Raise;
    TimeoutRegisters(w, argv, retv, codesz, inp.clock);
    OnExitRegisters(w, argv, retv, codesz);
    assert h.fired + [] == h.fired;
    OnExitFinds(w, argv, retv, codesz);
  }

  lemma OnExitFinds(w: World, argv: u32, retv: u32, codesz: nat)
    ensures OnExitPasses(w, argv, retv, codesz)
            ==> FindProc(w.kids.slots, Load64(w.mem, argv).value % WORD32, 0) < |w.kids.slots|
  {}

  /** The reports before a system call, and what the call does if it goes through. */
  function CallOps(w: World, os: seq<Operand>, codesz: nat, inp: Input): seq<ChildOp>
    requires |os| == 3
  {
    var n := |w.mem|;
    var reported := ReportOps(w.kids, inp.sys.waits, 0, n)
                    + ReportOps(Reports(w.kids, inp.sys.waits, 0).kids, inp.sysCleanup, 0, n);
    var f := SyscallEvents(w, codesz, inp);
    if f.FiredUndefined? then reported
    else
      var w' := f.w.(tick := 0);
      var (i, a, r) := (ArgValue(os[0], w'.mem), ArgValue(os[1], w'.mem), ArgValue(os[2], w'.mem));
      if i.None? || a.None? || r.None? || i.value % 0x1_0000 >= N_SYSCALLS then reported
      else reported + DispatchOps(w', i.value % 0x1_0000, a.value % WORD32, r.value % WORD32, codesz, inp)
  }

  function CallFirings(w: World, inp: Input): seq<Firing> {
    Firings(Reports(w.kids, inp.sys.waits, 0).cbs, |w.mem|) + Firings(CleanupReports(w, inp).cbs, |w.mem|)
  }

  lemma FollowsTwice(h: History, g: History, f: History, t: ChildTable, u: ChildTable, a: seq<Firing>, b: seq<Firing>)
    requires Follows(h, g, t, a) && Follows(g, f, u, b)
    ensures Follows(h, f, u, a + b)
  {}

  lemma CallReplay(h: History, os: seq<Operand>, w: World, codesz: nat, inp: Input)
    requires |os| == 3 && h.table == w.kids
    ensures var e := SyscallEffect(w, os, codesz, inp);
            !e.Undefined? ==> Follows(h, Replay(h, CallOps(w, os, codesz, inp)), e.w.kids, CallFirings(w, inp))
  {
    hide Follows, SyscallEvents, CallDefined, Dispatch, Admitted, CallRequests, Reports, ArgValue, Raise, Replay,
      ReportOps, Firings, DispatchOps;
    var n := |w.mem|;
    var (r1, r2) := (Reports(w.kids, inp.sys.waits, 0), CleanupReports(w, inp));
    var (o1, o2) := (ReportOps(w.kids, inp.sys.waits, 0, n), ReportOps(r1.kids, inp.sysCleanup, 0, n));
    CallEventsFire(w, codesz, inp);
    ReportsReplay(h, inp.sys.waits, 0, n);
    var h1 := Replay(h, o1);
    FollowsTable(h, h1, r1.kids, Firings(r1.cbs, n));
    ReportsReplay(h1, inp.sysCleanup, 0, n);
    var h2 := Replay(h1, o2);
    ReplayConcat(h, o1, o2);
    FollowsTwice(h, h1, h2, r1.kids, r2.kids, Firings(r1.cbs, n), Firings(r2.cbs, n));
    FollowsTable(h1, h2, r2.kids, Firings(r2.cbs, n));
    var f := SyscallEvents(w, codesz, inp);
    if f.Fired? {
      var w' := f.w.(tick := 0);
      var (i, a, r) := (ArgValue(os[0], w'.mem), ArgValue(os[1], w'.mem), ArgValue(os[2], w'.mem));
      if i.Some? && a.Some? && r.Some? && i.value % 0x1_0000 < N_SYSCALLS {
        var o3 := DispatchOps(w', i.value % 0x1_0000, a.value % WORD32, r.value % WORD32, codesz, inp);
        var d := Dispatch(w', i.value % 0x1_0000, a.value % WORD32, r.value % WORD32, codesz, inp);
        DispatchReplay(h2, w', i.value % 0x1_0000, a.value % WORD32, r.value % WORD32, codesz, inp);
        ReplayConcat(h, o1 + o2, o3);
        if d.Some? {
          FollowsTwice(h, h2, Replay(h2, o3), r2.kids, d.value.kids, CallFirings(w, inp), []);
          assert CallFirings(w, inp) + [] == CallFirings(w, inp);
        }
      }
    }
  }

  lemma FollowsTable(h: History, g: History, t: ChildTable, more: seq<Firing>)
    requires Follows(h, g, t, more)
    ensures g.table == t
  {}

  function TickOps(w: World, inp: Input): seq<ChildOp> {
    if (w.tick + 1) % VM_CLEANUP_PERIOD != 0 then [] else ReportOps(w.kids, inp.cleanup, 0, |w.mem|)
  }

  /** What the instruction of the head brings, and the cleanup after it. */
  function HeadOps(table: Table, code: seq<byte>, t: State, inp: Input): seq<ChildOp>
    requires ValidTable(table)
  {
    if t.procs == [] then []
    else
      var e := HeadEffect(table, code, t, inp);
      if e.None? || e.value.Undefined? then []
      else
        (if HeadCalls(table, code, t) then CallOps(t.w, HeadOperands(table, code, t), |code|, inp) else [])
        + (if e.value.Halt? then [] else TickOps(e.value.w, inp))
  }

  predicate HeadCalls(table: Table, code: seq<byte>, t: State)
    requires ValidTable(table) && t.procs != []
  {
    var p := t.procs[0];
    p.iptr < |code|
    && var d := Decode(table, code, |t.w.mem|, p.iptr);
       d.Decoded? && d.opcode < |table| && table[d.opcode].Syscall?
  }

  function HeadOperands(table: Table, code: seq<byte>, t: State): (os: seq<Operand>)
    requires ValidTable(table) && t.procs != [] && HeadCalls(table, code, t)
    ensures |os| == 3
  {
    Decode(table, code, |t.w.mem|, t.procs[0].iptr).operands
  }

  function HeadFirings(table: Table, code: seq<byte>, t: State, inp: Input): seq<Firing>
    requires ValidTable(table)
  {
    if t.procs == [] then []
    else
      var e := HeadEffect(table, code, t, inp);
      if e.None? || e.value.Undefined? then []
      else
        (if HeadCalls(table, code, t) then CallFirings(t.w, inp) else [])
        + (if e.value.Halt? then [] else Firings(TickReports(e.value.w, inp).cbs, |e.value.w.mem|))
  }

  /** What one round does to the child table: reports that wake the machine, then the head's part. */
  function StepOps(table: Table, code: seq<byte>, s: State, inp: Input): seq<ChildOp>
    requires ValidTable(table)
  {
    (if WakesByEvents(s, inp) then ReportOps(s.w.kids, inp.idle.waits, 0, |s.w.mem|) else [])
    + HeadOps(table, code, Awake(|code|, s, inp), inp)
  }

  predicate WakesByEvents(s: State, inp: Input) {
    s.procs == [] && PendingEvents(s.w, inp.ioPending)
  }

  function StepFirings(table: Table, code: seq<byte>, s: State, inp: Input): seq<Firing>
    requires ValidTable(table)
  {
    (if WakesByEvents(s, inp) then Firings(Reports(s.w.kids, inp.idle.waits, 0).cbs, |s.w.mem|) else [])
    + HeadFirings(table, code, Awake(|code|, s, inp), inp)
  }

  lemma TickReplay(h: History, w: World, codesz: nat, inp: Input)
    requires h.table == w.kids
    ensures var g := Tick(w, codesz, inp);
            g.Fired? ==> Follows(h, Replay(h, TickOps(w, inp)), g.w.kids, Firings(TickReports(w, inp).cbs, |w.mem|))
  {
    hide Tick, ReportOps, Reports, BlocksInside, Replay, Admitted, Requests;
    TickFires(w, codesz, inp);
    ReportsReplay(h, inp.cleanup, 0, |w.mem|);
    ReplayNothing(h);
  }

  /** The table before the cleanup, and the callbacks fired for the call. */
  lemma EffectReplay(h: History, op: Op, os: seq<Operand>, w: World, top: Option<Top>, codesz: nat, inp: Input)
    requires |os| == Arity(op) && h.table == w.kids
    ensures var e := Effects(op, os, w, top, codesz, inp);
            !e.Undefined? ==>
              Follows(h, Replay(h, if op.Syscall? then CallOps(w, os, codesz, inp) else []), e.w.kids,
                      if op.Syscall? then CallFirings(w, inp) else [])
  {
    hide Effects, SyscallEffect, CallOps, CallFirings;
    assert h.fired + [] == h.fired;
    if op.Syscall? {
      SyscallHandler(os, w, top, codesz, inp);
      CallReplay(h, os, w, codesz, inp);
    } else {
      DataKeepsRegistrations(op, os, w, top, codesz, inp);
    }
  }

  lemma HeadReplay(h: History, table: Table, code: seq<byte>, t: State, inp: Input)
    requires ValidTable(table) && h.table == t.w.kids
    ensures var r := RunHead(table, code, t, inp);
            !r.Crashed? ==> Follows(h, Replay(h, HeadOps(table, code, t, inp)), r.s.w.kids,
                                    HeadFirings(table, code, t, inp))
  {
    hide Decode, Effects, Tick, Apply, CallOps, CallFirings, TickOps, TickReports, ByteMachine.Apply, Firings, Replay;
    ReplayNothing(h);
    if t.procs != [] && HeadEffect(table, code, t, inp).Some? && !HeadEffect(table, code, t, inp).value.Undefined? {
      var d := Decode(table, code, |t.w.mem|, t.procs[0].iptr);
      var e := HeadEffect(table, code, t, inp).value;
      EffectReplay(h, table[d.opcode], d.operands, t.w, TopOf(t.procs[0].cstack), |code|, inp);
      var (o1, f1) :=
        if HeadCalls(table, code, t) then (CallOps(t.w, d.operands, |code|, inp), CallFirings(t.w, inp)) else ([], []);
      var h1 := Replay(h, o1);
      ReplayConcat(h, o1, []);
      assert o1 + [] == o1 && f1 + [] == f1;
      if !e.Halt? {
        TickReplay(h1, e.w, |code|, inp);
        ReplayConcat(h, o1, TickOps(e.w, inp));
        var g := Tick(e.w, |code|, inp);
        if g.Fired? {
          FollowsTwice(h, h1, Replay(h1, TickOps(e.w, inp)), e.w.kids, g.w.kids, f1,
                       Firings(TickReports(e.w, inp).cbs, |e.w.mem|));
        }
      }
    }
  }

  lemma ReplayNothing(h: History)
    ensures Replay(h, []) == h && Follows(h, h, h.table, [])
  {
    assert h.fired + [] == h.fired;
  }

  /** The child table after a round is the one its operations lead to, and they fire what the round fires. */
  lemma StepReplay(h: History, table: Table, code: seq<byte>, s: State, inp: Input)
    requires ValidTable(table) && h.table == s.w.kids
    ensures var r := Step(table, code, s, inp);
            !r.Crashed? ==> Follows(h, Replay(h, StepOps(table, code, s, inp)), r.s.w.kids,
                                    StepFirings(table, code, s, inp))
  {
    hide RunHead, FireVmEvents, HeadOps, HeadFirings, ReportOps, Reports, Firings, Replay, EventsDefined, Admitted,
      EventRequests;
    ReplayNothing(h);
    EventsFire(s.w, inp.idle, |code|);
    ReportsReplay(h, inp.idle.waits, 0, |s.w.mem|);
    var t := Awake(|code|, s, inp);
    var (o1, f1) := if WakesByEvents(s, inp)
                    then (ReportOps(s.w.kids, inp.idle.waits, 0, |s.w.mem|),
                          Firings(Reports(s.w.kids, inp.idle.waits, 0).cbs, |s.w.mem|))
                    else ([], []);
    var h1 := Replay(h, o1);
    ReplayConcat(h, o1, HeadOps(table, code, t, inp));
    NoHead(table, code, t, inp);
    assert o1 + [] == o1 && f1 + [] == f1;
    if h1.table == t.w.kids {
      HeadReplay(h1, table, code, t, inp);
      var r := RunHead(table, code, t, inp);
      if !r.Crashed? {
        FollowsTwice(h, h1, Replay(h1, HeadOps(table, code, t, inp)), h1.table, r.s.w.kids, f1,
                     HeadFirings(table, code, t, inp));
      }
    }
  }

  lemma NoHead(table: Table, code: seq<byte>, t: State, inp: Input)
    requires ValidTable(table)
    ensures t.procs == [] ==> HeadOps(table, code, t, inp) == [] && HeadFirings(table, code, t, inp) == []
  {}

  // ---- The procedures a round starts for children

  /** What handling `waitpid` answers adds to the procedures already asked for. */
  function ProcSpawns(f: Fired, waits: seq<Wait>, codesz: nat): seq<Spawn> {
    var g := FireProcEvents(f, waits, 0, codesz);
    if f.Fired? && g.Fired? && |f.spawns| <= |g.spawns| then g.spawns[|f.spawns|..] else []
  }

  lemma ProcSpawnsAre(f: Fired, waits: seq<Wait>, codesz: nat)
    requires f.Fired? && InCode(f.w.kids, codesz)
    ensures var r := Reports(f.w.kids, waits, 0);
            FireProcEvents(f, waits, 0, codesz).Fired?
            ==> ProcSpawns(f, waits, codesz) == LaunchesOf(Firings(r.cbs, |f.w.mem|)) && InCode(r.kids, codesz)
  {
    hide InCode, FireProcEvents, Reports, Requests, Admitted, BlocksInside, LaunchesOf, Firings;
    var r := Reports(f.w.kids, waits, 0);
    ProcsFire(f, waits, 0, codesz);
    ReportsInCode(f.w.kids, waits, codesz);
    RequestsAdmitted(r.cbs, |f.w.mem|, codesz);
    LaunchesOfFirings(r.cbs, |f.w.mem|);
  }

  function EventSpawns(w: World, e: Events, codesz: nat): seq<Spawn> {
    var t := FireTimerEvents(w, e.clock, codesz);
    ProcSpawns(After(t, FireIoEvents(t.w, e.io, codesz)), e.waits, codesz)
  }

  lemma EventSpawnsAre(w: World, e: Events, codesz: nat)
    requires InCode(w.kids, codesz) && FireVmEvents(w, e, codesz).Fired?
    ensures EventSpawns(w, e, codesz) == LaunchesOf(Firings(Reports(w.kids, e.waits, 0).cbs, |w.mem|))
    ensures InCode(FireVmEvents(w, e, codesz).w.kids, codesz)
  {
    hide InCode, FireProcEvents, Reports, ProcSpawns, LaunchesOf, Firings, Admitted, Admit, EventsDefined, Sweep;
    var t := FireTimerEvents(w, e.clock, codesz);
    ProcSpawnsAre(After(t, FireIoEvents(t.w, e.io, codesz)), e.waits, codesz);
    EventsFire(w, e, codesz);
  }

  function CallSpawns(w: World, codesz: nat, inp: Input): seq<Spawn> {
    EventSpawns(w, inp.sys, codesz) + ProcSpawns(FireVmEvents(w, inp.sys, codesz), inp.sysCleanup, codesz)
  }

  lemma CallSpawnsAre(w: World, codesz: nat, inp: Input)
    requires InCode(w.kids, codesz) && SyscallEvents(w, codesz, inp).Fired?
    ensures CallSpawns(w, codesz, inp) == LaunchesOf(CallFirings(w, inp))
  {
    hide InCode, FireVmEvents, FireProcEvents, Reports, ProcSpawns, EventSpawns, LaunchesOf, Firings, EventsDefined,
      Admitted, EventRequests;
    var f := FireVmEvents(w, inp.sys, codesz);
    if f.FiredUndefined? {
      UndefinedStays(f, inp.sysCleanup, codesz);
    } else {
      EventsFire(w, inp.sys, codesz);
      EventSpawnsAre(w, inp.sys, codesz);
      ProcSpawnsAre(f, inp.sysCleanup, codesz);
      LaunchesConcat(Firings(Reports(w.kids, inp.sys.waits, 0).cbs, |w.mem|),
                     Firings(CleanupReports(w, inp).cbs, |w.mem|));
    }
  }

  function TickSpawns(w: World, codesz: nat, inp: Input): seq<Spawn> {
    var w' := w.(tick := w.tick + 1);
    if w'.tick % VM_CLEANUP_PERIOD != 0 then [] else ProcSpawns(NoEvents(w'), inp.cleanup, codesz)
  }

  lemma TickSpawnsAre(w: World, codesz: nat, inp: Input)
    requires InCode(w.kids, codesz) && Tick(w, codesz, inp).Fired?
    ensures TickSpawns(w, codesz, inp) == LaunchesOf(Firings(TickReports(w, inp).cbs, |w.mem|))
    ensures InCode(Tick(w, codesz, inp).w.kids, codesz)
  {
    hide InCode, FireProcEvents, Reports, ProcSpawns;
    ProcSpawnsAre(NoEvents(w.(tick := w.tick + 1)), inp.cleanup, codesz);
    TickFires(w, codesz, inp);
  }

  function HeadSpawns(table: Table, code: seq<byte>, t: State, inp: Input): seq<Spawn>
    requires ValidTable(table)
  {
    if t.procs == [] then []
    else
      var e := HeadEffect(table, code, t, inp);
      if e.None? || e.value.Undefined? then []
      else
        (if HeadCalls(table, code, t) then CallSpawns(t.w, |code|, inp) else [])
        + (if e.value.Halt? then [] else TickSpawns(e.value.w, |code|, inp))
  }

  lemma HeadSpawnsAre(table: Table, code: seq<byte>, t: State, inp: Input)
    requires ValidTable(table) && InCode(t.w.kids, |code|) && !RunHead(table, code, t, inp).Crashed?
    ensures HeadSpawns(table, code, t, inp) == LaunchesOf(HeadFirings(table, code, t, inp))
    ensures InCode(RunHead(table, code, t, inp).s.w.kids, |code|)
  {
    hide InCode, Decode, Effects, Tick, Apply, ByteMachine.Apply, CallSpawns, TickSpawns, CallFirings, TickReports,
      Firings;
    if t.procs != [] && HeadEffect(table, code, t, inp).Some? && !HeadEffect(table, code, t, inp).value.Undefined? {
      var d := Decode(table, code, |t.w.mem|, t.procs[0].iptr);
      var e := HeadEffect(table, code, t, inp).value;
      EffectInCode(table[d.opcode], d.operands, t.w, TopOf(t.procs[0].cstack), |code|, inp);
      if HeadCalls(table, code, t) {
        CallIsDefined(d.operands, t.w, TopOf(t.procs[0].cstack), |code|, inp);
        CallSpawnsAre(t.w, |code|, inp);
      }
      if !e.Halt? {
        TickSpawnsAre(e.w, |code|, inp);
        LaunchesConcat(if HeadCalls(table, code, t) then CallFirings(t.w, inp) else [],
                       Firings(TickReports(e.w, inp).cbs, |e.w.mem|));
      } else {
        LaunchesConcat(if HeadCalls(table, code, t) then CallFirings(t.w, inp) else [], []);
      }
    }
  }

  lemma CallIsDefined(os: seq<Operand>, w: World, top: Option<Top>, codesz: nat, inp: Input)
    requires |os| == 3
    ensures !Effects(Syscall, os, w, top, codesz, inp).Undefined? ==> SyscallEvents(w, codesz, inp).Fired?
  {
    hide SyscallEvents, Dispatch;
  }

  function StepSpawns(table: Table, code: seq<byte>, s: State, inp: Input): seq<Spawn>
    requires ValidTable(table)
  {
    (if WakesByEvents(s, inp) then EventSpawns(s.w, inp.idle, |code|) else [])
    + HeadSpawns(table, code, Awake(|code|, s, inp), inp)
  }

  /** A round starts, for children, exactly the procedures that its firings launch. */
  lemma StepSpawnsAre(table: Table, code: seq<byte>, s: State, inp: Input)
    requires ValidTable(table) && InCode(s.w.kids, |code|) && !Step(table, code, s, inp).Crashed?
    ensures StepSpawns(table, code, s, inp) == LaunchesOf(StepFirings(table, code, s, inp))
    ensures InCode(Step(table, code, s, inp).s.w.kids, |code|)
  {
    hide InCode, RunHead, FireVmEvents, HeadSpawns, HeadFirings, EventSpawns, Reports, Firings, LaunchesOf,
      EventsDefined, Admitted, EventRequests;
    var t := Awake(|code|, s, inp);
    NoHeadSpawns(table, code, t, inp);
    NoHead(table, code, t, inp);
    if WakesByEvents(s, inp) {
      EventSpawnsAre(s.w, inp.idle, |code|);
    }
    if t.procs != [] || Step(table, code, s, inp) == RunHead(table, code, t, inp) {
      HeadSpawnsAre(table, code, t, inp);
    }
    LaunchesConcat(if WakesByEvents(s, inp) then Firings(Reports(s.w.kids, inp.idle.waits, 0).cbs, |s.w.mem|) else [],
                   HeadFirings(table, code, t, inp));
    assert LaunchesOf([]) == [] by { NothingLaunched(); }
  }

  lemma NothingLaunched()
    ensures LaunchesOf([]) == []
  {}

  lemma NoHeadSpawns(table: Table, code: seq<byte>, t: State, inp: Input)
    requires ValidTable(table)
    ensures t.procs == [] ==> HeadSpawns(table, code, t, inp) == []
  {}

  // ---- Runs

  function RunOps(table: Table, code: seq<byte>, s: State, inputs: seq<Input>): seq<ChildOp>
    requires ValidTable(table)
    decreases |inputs|
  {
    if inputs == [] then []
    else
      var r := Step(table, code, s, inputs[0]);
      StepOps(table, code, s, inputs[0]) + (if r.Running? then RunOps(table, code, r.s, inputs[1..]) else [])
  }

  /** The procedures started for children over the run, in order. */
  function RunSpawns(table: Table, code: seq<byte>, s: State, inputs: seq<Input>): seq<Spawn>
    requires ValidTable(table)
    decreases |inputs|
  {
    if inputs == [] then []
    else
      var r := Step(table, code, s, inputs[0]);
      StepSpawns(table, code, s, inputs[0]) + (if r.Running? then RunSpawns(table, code, r.s, inputs[1..]) else [])
  }

  /**
   * Over any run from a state whose registered addresses are inside the code, they stay so; the child table is the
   * one that the run's starts, registrations and reports lead to; and the procedures started for children are those
   * launched for the callbacks these fire, one for each whose argument block passes the check, in order.
   */
  lemma {:induction false} RunFollowsLedger(h: History, table: Table, code: seq<byte>, s: State, inputs: seq<Input>)
    requires ValidTable(table) && h.table == s.w.kids && InCode(s.w.kids, |code|)
    requires !Run(table, code, s, inputs).Crashed?
    ensures var g := Replay(h, RunOps(table, code, s, inputs));
            var r := Run(table, code, s, inputs);
            && g.table == r.s.w.kids && InCode(r.s.w.kids, |code|)
            && h.fired <= g.fired && RunSpawns(table, code, s, inputs) == LaunchesOf(g.fired[|h.fired|..])
    decreases |inputs|
  {
    hide Step, StepOps, StepSpawns, StepFirings, InCode, LaunchesOf, Apply;
    NothingLaunched();
    assert h.fired[|h.fired|..] == [];
    if inputs != [] {
      var r := Step(table, code, s, inputs[0]);
      var ops := StepOps(table, code, s, inputs[0]);
      var h1 := Replay(h, ops);
      StepReplay(h, table, code, s, inputs[0]);
      StepSpawnsAre(table, code, s, inputs[0]);
      if r.Running? {
        var rest := RunOps(table, code, r.s, inputs[1..]);
        RunFollowsLedger(h1, table, code, r.s, inputs[1..]);
        ReplayConcat(h, ops, rest);
        var g := Replay(h1, rest);
        LaunchesConcat(h1.fired[|h.fired|..], g.fired[|h1.fired|..]);
        assert h1.fired[|h.fired|..] == StepFirings(table, code, s, inputs[0]);
        assert g.fired[|h.fired|..] == h1.fired[|h.fired|..] + g.fired[|h1.fired|..];
      } else {
        ReplayConcat(h, ops, []);
        assert ops + [] == ops;
        assert h1.fired[|h.fired|..] == StepFirings(table, code, s, inputs[0]);
      }
    }
  }

  // ---- Conservation

  /** The operating system never hands out the pid of a child that has not been reaped. */
  predicate FreshPids(h: History, ops: seq<ChildOp>)
    decreases |ops|
  {
    ops == []
    || ((ops[0].Start? ==> FindProc(h.table.slots, ops[0].pid, 0) == |h.table.slots|)
        && FreshPids(Apply(h, ops[0]), ops[1..]))
  }

  /** Children are only reported when they have terminated: the flags to hear of stopped ones are not passed. */
  predicate OnlyTerminated(ops: seq<ChildOp>) {
    forall k :: 0 <= k < |ops| && ops[k].Report? ==> ops[k].terminated
  }

  /** The callbacks of live children. */
  function Waiting(slots: seq<Child>): multiset<Callback> {
    if slots == [] then multiset{}
    else Waiting(slots[..|slots| - 1]) + LiveCallbacks(slots[|slots| - 1])
  }

  function LiveCallbacks(ch: Child): multiset<Callback> {
    if ch.used then multiset(ch.cbs) else multiset{}
  }

  lemma {:induction false} WaitingAfterUpdate(slots: seq<Child>, p: nat, ch: Child)
    requires p < |slots|
    ensures Waiting(slots[p := ch]) + LiveCallbacks(slots[p]) == Waiting(slots) + LiveCallbacks(ch)
  {
    hide LiveCallbacks;
    var n := |slots| - 1;
    if p == n {
      assert slots[p := ch][..n] == slots[..n];
    } else {
      WaitingAfterUpdate(slots[..n], p, ch);
      assert slots[p := ch][..n] == slots[..n][p := ch];
      Regroup(Waiting(slots[..n][p := ch]), LiveCallbacks(slots[p]), Waiting(slots[..n]), LiveCallbacks(ch),
              LiveCallbacks(slots[n]));
    }
  }

  lemma Regroup(a: multiset<Callback>, x: multiset<Callback>, b: multiset<Callback>, y: multiset<Callback>,
                z: multiset<Callback>)
    requires a + x == b + y
    ensures a + z + x == b + z + y
  {
    assert a + z + x == (a + x) + z && b + z + y == (b + y) + z;
  }

  lemma WaitingOneMore(slots: seq<Child>, ch: Child)
    ensures Waiting(slots + [ch]) == Waiting(slots) + LiveCallbacks(ch)
  {
    assert (slots + [ch])[..|slots|] == slots;
  }

  lemma {:induction false} WaitingAfterGrowth(slots: seq<Child>, n: nat)
    ensures Waiting(slots + seq(n, _ => FREE_SLOT)) == Waiting(slots)
  {
    hide Waiting;
    if n == 0 {
      assert slots + seq(0, _ => FREE_SLOT) == slots;
    } else {
      var less := slots + seq(n - 1, _ => FREE_SLOT);
      WaitingAfterGrowth(slots, n - 1);
      WaitingOneMore(less, FREE_SLOT);
      assert slots + seq(n, _ => FREE_SLOT) == less + [FREE_SLOT];
    }
  }

  /** Every callback ever registered was released with its child or waits with a live one. */
  predicate Balanced(h: History) {
    h.registered == h.released + Waiting(h.table.slots)
  }

  ghost predicate Sound(h: History) {
    Counted(h.table) && UniquePids(h.table.slots) && Balanced(h)
  }

  lemma SoundStart(h: History, pid: u32)
    requires Sound(h) && FindProc(h.table.slots, pid, 0) == |h.table.slots|
    ensures Sound(Apply(h, Start(pid)))
  {
    hide Counted, UniquePids, Waiting;
    var slots := Roomy(h.table);
    SaveChildCounts(h.table, pid);
    WaitingAfterGrowth(h.table.slots, PROC_ALLOC);
    var p := FirstFree(slots, 0);
    WaitingAfterUpdate(slots, p, Child(true, pid, []));
    assert LiveCallbacks(Child(true, pid, [])) == multiset{};
    Cancel(Waiting(slots[p := Child(true, pid, [])]), Waiting(h.table.slots), multiset{});
  }

  lemma SoundRegister(h: History, pid: u32, cb: Callback)
    requires Sound(h)
    ensures Sound(Apply(h, Register(pid, cb)))
  {
    hide Counted, UniquePids, Waiting;
    var slots := h.table.slots;
    var q := FindProc(slots, pid, 0);
    if q < |slots| {
      var ch := slots[q].(cbs := slots[q].cbs + [cb]);
      AddCallbackCounts(h.table, q, cb);
      WaitingAfterUpdate(slots, q, ch);
      assert LiveCallbacks(ch) == LiveCallbacks(slots[q]) + multiset{cb};
      assert Waiting(slots[q := ch]) == Waiting(slots) + multiset{cb} by {
        Cancel(Waiting(slots[q := ch]), Waiting(slots) + multiset{cb}, LiveCallbacks(slots[q]));
      }
    }
  }

  lemma Cancel(a: multiset<Callback>, b: multiset<Callback>, c: multiset<Callback>)
    requires a + c == b + c
    ensures a == b
  {
    assert a == (a + c) - c && b == (b + c) - c;
  }

  lemma SoundReport(h: History, pid: u32, terminated: bool, memsz: nat)
    requires Sound(h)
    ensures Sound(Apply(h, Report(pid, terminated, memsz)))
  {
    hide Counted, UniquePids, Waiting, Firings;
    var slots := h.table.slots;
    var q := FindProc(slots, pid, 0);
    if q < |slots| && terminated {
      ReleaseCounts(h.table, q);
      var gone := Child(false, slots[q].pid, []);
      WaitingAfterUpdate(slots, q, gone);
      assert Waiting(slots) + LiveCallbacks(gone) == Waiting(slots);
    }
  }

  /** What fired is what was released. */
  predicate FiredOnce(h: History) {
    multiset(CallbacksOf(h.fired)) == h.released
  }

  lemma OnceApply(h: History, op: ChildOp)
    requires FiredOnce(h) && (op.Report? ==> op.terminated)
    ensures FiredOnce(Apply(h, op))
  {
    if op.Report? && FindProc(h.table.slots, op.pid, 0) < |h.table.slots| {
      var cbs := h.table.slots[FindProc(h.table.slots, op.pid, 0)].cbs;
      assert CallbacksOf(h.fired + Firings(cbs, op.memsz)) == CallbacksOf(h.fired) + cbs;
    }
  }

  /**
   * Conservation over any history of starts, registrations and reports: the counters count, pids stay unique, and the
   * callbacks registered are those released and those still waiting. If only terminated children are reported, those
   * released are those fired: each callback fires once, or waits.
   */
  lemma {:induction false} CallbacksConserved(h: History, ops: seq<ChildOp>)
    requires Sound(h) && FreshPids(h, ops)
    ensures Sound(Replay(h, ops))
    ensures FiredOnce(h) && OnlyTerminated(ops) ==> FiredOnce(Replay(h, ops))
    decreases |ops|
  {
    hide Sound, Apply, FiredOnce;
    if ops != [] {
      match ops[0] {
        case Start(pid) => SoundStart(h, pid);
        case Register(pid, cb) => SoundRegister(h, pid, cb);
        case Report(pid, terminated, memsz) => SoundReport(h, pid, terminated, memsz);
      }
      if FiredOnce(h) && OnlyTerminated(ops) {
        OnceApply(h, ops[0]);
      }
      CallbacksConserved(Apply(h, ops[0]), ops[1..]);
    }
  }

  /** A history that starts with the callbacks now waiting. */
  function Opening(t: ChildTable): History {
    History(t, Waiting(t.slots), [], multiset{})
  }

  /**
   * Each callback is launched once. Over any run whose children have fresh pids and are reported when they have
   * terminated, the callbacks that waited at the start or were registered since are those that fired and those that
   * still wait, none twice; and for each that fired with a good argument block one procedure was started, in order.
   */
  lemma CallbacksLaunchedOnce(table: Table, code: seq<byte>, s: State, inputs: seq<Input>)
    requires ValidTable(table) && InCode(s.w.kids, |code|) && Counted(s.w.kids) && UniquePids(s.w.kids.slots)
    requires !Run(table, code, s, inputs).Crashed?
    ensures var ops := RunOps(table, code, s, inputs);
            var g := Replay(Opening(s.w.kids), ops);
            FreshPids(Opening(s.w.kids), ops) && OnlyTerminated(ops) ==>
              && g.registered == multiset(CallbacksOf(g.fired)) + Waiting(Run(table, code, s, inputs).s.w.kids.slots)
              && RunSpawns(table, code, s, inputs) == LaunchesOf(g.fired)
  {
    hide Run, RunOps, RunSpawns, Replay, InCode, Counted, UniquePids, Waiting, FreshPids, OnlyTerminated,
      CallbacksOf, LaunchesOf;
    var h := Opening(s.w.kids);
    var ops := RunOps(table, code, s, inputs);
    var g := Replay(h, ops);
    RunFollowsLedger(h, table, code, s, inputs);
    assert g.fired[0..] == g.fired;
    if FreshPids(h, ops) && OnlyTerminated(ops) {
      NothingFired(h);
      CallbacksConserved(h, ops);
    }
  }

  lemma NothingFired(h: History)
    requires h.fired == [] && h.released == multiset{}
    ensures FiredOnce(h) && (h.registered == Waiting(h.table.slots) ==> Balanced(h))
  {
    assert CallbacksOf([]) == [];
  }
}
