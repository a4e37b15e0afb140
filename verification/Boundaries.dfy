/** Where control can stray, and that it never leaves instruction boundaries otherwise. */
module Boundaries {
  import opened Bytes
  import opened Isa
  import opened Program
  import opened Encoding
  import opened Decoder
  import opened Timers
  import opened Children
  import opened World
  import opened EventLaunch
  import opened SyscallLaws
  import opened ByteMachine
  import opened SourceMachine
  import opened Simulation

  /** Every emitted jump and call takes its target from a code label. */
  ghost predicate LabelTargets(p: Program, debug: Mode)
    requires Valid(p)
  {
    forall i :: 0 <= i < |p.instns| && Kept(p, debug, i) && Transfers(OpAt(p, i)) ==> NamesCode(p, i)
  }

  predicate Transfers(op: Op) {
    op.Jmp? || op.JTrue? || op.JFalse? || op.Call?
  }

  // ---- Which launches stray

  /** An address past the code is refused, so what is admitted strays exactly when what is asked for does. */
  lemma AdmittedResolve(p: Program, debug: Mode, spawns: seq<Spawn>)
    requires Valid(p)
    ensures AllResolve(p, debug, Admitted(spawns, CodeSize(p, debug))) <==> AllResolve(p, debug, spawns)
  {
    var codesz := CodeSize(p, debug);
    var admitted := Admitted(spawns, codesz);
    forall k | 0 <= k < |admitted|
      ensures admitted[k] in spawns
    {
      AdmittedMembers(spawns, codesz, admitted[k]);
    }
    forall k | 0 <= k < |spawns|
      ensures Resolve(p, debug, spawns[k].entry).Some? || spawns[k] in admitted
    {
      AdmittedMembers(spawns, codesz, spawns[k]);
    }
    hide Resolve;
  }

  /** The head executes an instruction, and its effect. */
  ghost function HeadDoes(p: Program, debug: Mode, t: SState, inp: Input): Option<Effect>
    requires Fits(p, debug)
  {
    if t.procs == [] then None
    else
      var i := NextInstn(p, debug, t.procs[0].pc);
      if i == |p.instns| then None
      else
        match SourceDecode(p, debug, |t.w.mem|, i)
        case Decoded(_, os, _) =>
          Some(Effects(OpAt(p, i), os, t.w, STopOf(t.procs[0].stack), CodeSize(p, debug), inp))
        case _ => None
  }

  ghost predicate HeadIsSyscall(p: Program, debug: Mode, t: SState)
    requires Fits(p, debug)
  {
    t.procs != []
    && var i := NextInstn(p, debug, t.procs[0].pc);
       i < |p.instns| && OpAt(p, i).Syscall?
  }

  /** What a system call with operands `os` itself starts, once the events before it have fired. */
  function CallLaunch(os: seq<Operand>, w: World, codesz: nat, inp: Input): seq<Spawn>
    requires |os| == 3
  {
    var f := SyscallEvents(w, codesz, inp);
    if f.FiredUndefined? then []
    else
      var w' := f.w.(tick := 0);
      var (i, a, r) := (ArgValue(os[0], w'.mem), ArgValue(os[1], w'.mem), ArgValue(os[2], w'.mem));
      if i.None? || a.None? || r.None? || i.value % 0x1_0000 >= N_SYSCALLS then []
      else OwnRequests(w', i.value % 0x1_0000, a.value % WORD32, r.value % WORD32, inp)
  }

  /** The head makes a `connect` that connects at once, to start a callback where no instruction is. */
  ghost predicate HeadConnectsAstray(p: Program, debug: Mode, t: SState, inp: Input)
    requires Fits(p, debug)
  {
    HeadIsSyscall(p, debug, t)
    && var d := SourceDecode(p, debug, |t.w.mem|, NextInstn(p, debug, t.procs[0].pc));
       d.Decoded? && !AllResolve(p, debug, CallLaunch(d.operands, t.w, CodeSize(p, debug), inp))
  }

  /**
   * The head's instruction launches a procedure at an address that is no instruction's place: through an event that
   * fires before a system call, through the call itself, or through a child reported in the periodic cleanup.
   */
  ghost predicate HeadStrays(p: Program, debug: Mode, t: SState, inp: Input)
    requires Fits(p, debug)
  {
    var e := HeadDoes(p, debug, t, inp);
    e.Some? && !e.value.Undefined?
    && ((HeadIsSyscall(p, debug, t) && !AllResolve(p, debug, CallRequests(t.w, inp)))
        || HeadConnectsAstray(p, debug, t, inp)
        || (!e.value.Halt? && CleanupStrays(p, debug, e.value.w, inp)))
  }

  ghost predicate CleanupStrays(p: Program, debug: Mode, w: World, inp: Input)
    requires Valid(p)
  {
    var cbs := TickReports(w, inp).cbs;
    BlocksInside(cbs, |w.mem|) && !AllResolve(p, debug, Requests(cbs, |w.mem|))
  }

  /** With nothing to run, an event wakes the machine by launching at an address that is no instruction's place. */
  ghost predicate WakesAstray(p: Program, debug: Mode, s: SState, inp: Input)
    requires Valid(p)
  {
    s.procs == [] && PendingEvents(s.w, inp.ioPending) && EventsDefined(s.w, inp.idle)
    && !AllResolve(p, debug, EventRequests(s.w, inp.idle))
  }

  /** The state whose head procedure this round runs, after waiting for events if there was none. */
  ghost function Awake(p: Program, debug: Mode, s: SState, inp: Input): Option<SState>
    requires Valid(p)
  {
    if s.procs != [] then Some(s)
    else
      match Idle(s.w, CodeSize(p, debug), inp)
      case Woken(w, spawns) =>
        if AllResolve(p, debug, spawns) then Some(SState(w, SNewProcs(p, debug, spawns))) else None
      case _ => None
  }

  /** A due timer, an event, a reported child's callback or an immediate `connect` launches where no instruction is. */
  ghost predicate LaunchesAstray(p: Program, debug: Mode, s: SState, inp: Input)
    requires Fits(p, debug)
  {
    || WakesAstray(p, debug, s, inp)
    || (Awake(p, debug, s, inp).Some? && HeadStrays(p, debug, Awake(p, debug, s, inp).value, inp))
  }

  /** A system call that goes through brings the procedures that its events ask for, and that it asks for itself. */
  lemma CallStrays(p: Program, debug: Mode, os: seq<Operand>, w: World, inp: Input)
    requires Valid(p) && |os| == 3
    ensures var e := SyscallEffect(w, os, CodeSize(p, debug), inp);
            (e.Undefined? || e.Halt? || e.Sys?)
            && (e.Halt? || e.Sys? ==>
                  (AllResolve(p, debug, e.spawns)
                   <==> AllResolve(p, debug, CallRequests(w, inp))
                        && AllResolve(p, debug, CallLaunch(os, w, CodeSize(p, debug), inp))))
  {
    hide Resolve, AllResolve, SyscallEvents, CallDefined, CallRequests, Dispatch, Admitted, OwnRequests, ArgValue,
      Raise;
    CallEventsFire(w, CodeSize(p, debug), inp);
    AdmittedResolve(p, debug, CallRequests(w, inp));
    var own := CallLaunch(os, w, CodeSize(p, debug), inp);
    AdmittedResolve(p, debug, own);
    NoneResolve(p, debug);
    BothResolve(p, debug, Admitted(CallRequests(w, inp), CodeSize(p, debug)), Admitted(own, CodeSize(p, debug)));
  }

  lemma BothResolve(p: Program, debug: Mode, a: seq<Spawn>, b: seq<Spawn>)
    requires Valid(p)
    ensures AllResolve(p, debug, a + b) <==> AllResolve(p, debug, a) && AllResolve(p, debug, b)
  {
    hide Resolve;
    var c := a + b;
    assert forall k :: 0 <= k < |b| ==> c[|a| + k] == b[k];
    assert forall k :: 0 <= k < |a| ==> c[k] == a[k];
  }

  lemma FinishStrays(p: Program, debug: Mode, w: World, procs: seq<SProc>, inp: Input)
    requires Valid(p)
    ensures SFinish(p, debug, w, procs, inp).Stray? <==> CleanupStrays(p, debug, w, inp)
  {
    hide Tick, Resolve, AllResolve, TickReports, BlocksInside, Requests, SNewProcs, Admitted;
    TickFires(w, CodeSize(p, debug), inp);
    AdmittedResolve(p, debug, Requests(TickReports(w, inp).cbs, |w.mem|));
  }

  lemma NoneResolve(p: Program, debug: Mode)
    requires Valid(p)
    ensures AllResolve(p, debug, [])
  {}

  lemma ExecuteStrays(p: Program, debug: Mode, i: nat, os: seq<Operand>, w: World, head: SProc, rest: seq<SProc>,
                      inp: Input)
    requires Fits(p, debug) && LabelTargets(p, debug)
    requires i < |p.instns| && Kept(p, debug, i) && |os| == Arity(OpAt(p, i))
    ensures var e := Effects(OpAt(p, i), os, w, STopOf(head.stack), CodeSize(p, debug), inp);
            SExecute(p, debug, i, os, w, head, rest, inp).Stray?
            <==> !e.Undefined?
                 && ((OpAt(p, i).Syscall?
                      && !(AllResolve(p, debug, CallRequests(w, inp))
                           && AllResolve(p, debug, CallLaunch(os, w, CodeSize(p, debug), inp))))
                     || (!e.Halt? && CleanupStrays(p, debug, e.w, inp)))
  {
    hide Effects, SyscallEffect, SFinish, AllResolve, Resolve, NamedIndex, SNewProcs, SReturned, Rescheduled,
      ArgValue, NamesCode, CleanupStrays, CallRequests, CallLaunch;
    var e := Effects(OpAt(p, i), os, w, STopOf(head.stack), CodeSize(p, debug), inp);
    if OpAt(p, i).Syscall? {
      SyscallHandler(os, w, STopOf(head.stack), CodeSize(p, debug), inp);
      CallStrays(p, debug, os, w, inp);
    } else {
      DataKeepsRegistrations(OpAt(p, i), os, w, STopOf(head.stack), CodeSize(p, debug), inp);
      NoneResolve(p, debug);
    }
    TransferTarget(OpAt(p, i), os, w, STopOf(head.stack), CodeSize(p, debug), inp);
    if !e.Undefined? && !e.Halt? && SApply(p, debug, i, e, head, rest).Some? {
      FinishStrays(p, debug, e.w, SApply(p, debug, i, e, head, rest).value, inp);
    }
  }

  lemma RunHeadStrays(p: Program, debug: Mode, t: SState, inp: Input)
    requires Fits(p, debug) && LabelTargets(p, debug)
    ensures SRunHead(p, debug, t, inp).Stray? <==> HeadStrays(p, debug, t, inp)
  {
    hide SExecute, Effects, AllResolve, Resolve, RefsOk, SourceOperands, LabelTargets, CleanupStrays, CallRequests,
      CallLaunch;
    if t.procs != [] {
      var i := NextInstn(p, debug, t.procs[0].pc);
      if i < |p.instns| {
        var d := SourceDecode(p, debug, |t.w.mem|, i);
        if d.Decoded? {
          ExecuteStrays(p, debug, i, d.operands, t.w, t.procs[0].(pc := i + 1), t.procs[1..], inp);
        }
      }
    }
  }

  /**
   * In a program whose jumps and calls name code labels, control strays in a round exactly when that round launches a
   * procedure where no instruction is: for a timer that is due, a file or socket event, a callback of a child
   * reported, whose argument block passes the check, or a `connect` that connects at once.
   */
  lemma StraysOnlyByLaunch(p: Program, debug: Mode, s: SState, inp: Input)
    requires Fits(p, debug) && LabelTargets(p, debug)
    ensures SStep(p, debug, s, inp).Stray? <==> LaunchesAstray(p, debug, s, inp)
  {
    hide SRunHead, HeadStrays, Resolve, AllResolve, LabelTargets, FireVmEvents, EventRequests, EventsDefined,
      Admitted;
    NoneResolve(p, debug);
    if s.procs != [] {
      RunHeadStrays(p, debug, s, inp);
    } else {
      EventsFire(s.w, inp.idle, CodeSize(p, debug));
      AdmittedResolve(p, debug, EventRequests(s.w, inp.idle));
      var t := Awake(p, debug, s, inp);
      if t.Some? {
        RunHeadStrays(p, debug, t.value, inp);
      }
    }
  }

  // ---- Which registrations make that possible

  /** Every address registered for a later launch is the place of an instruction, or past the code. */
  ghost predicate SafeWorld(p: Program, debug: Mode, w: World)
    requires Valid(p)
  {
    SafeTimers(p, debug, w.timers) && SafeKids(p, debug, w.kids)
  }

  ghost predicate SafeTimers(p: Program, debug: Mode, timers: seq<Timer>)
    requires Valid(p)
  {
    forall t :: t in timers ==> Resolve(p, debug, t.iptr).Some?
  }

  ghost predicate SafeKids(p: Program, debug: Mode, t: ChildTable)
    requires Valid(p)
  {
    forall cb :: HasCallback(t, cb) ==> Resolve(p, debug, cb.entry).Some?
  }

  ghost predicate SafeCallbacks(p: Program, debug: Mode, cbs: seq<Callback>)
    requires Valid(p)
  {
    forall cb :: cb in cbs ==> Resolve(p, debug, cb.entry).Some?
  }

  /** File and socket callbacks only start at instructions. */
  ghost predicate SafeInput(p: Program, debug: Mode, inp: Input)
    requires Valid(p)
  {
    AllResolve(p, debug, inp.idle.io.spawns) && AllResolve(p, debug, inp.sys.io.spawns)
  }

  /** What is due was registered, and what remains was. */
  lemma SweepMembers(timers: seq<Timer>, now: Timespec, t: Timer)
    ensures var (left, fired) := Sweep(timers, 0, now);
            t in timers <==> t in left || t in fired
  {
    SweepPartitions(timers, 0, now);
    var (left, fired) := Sweep(timers, 0, now);
    assert t in multiset(timers) <==> t in multiset(left) + multiset(fired);
  }

  lemma SafeSweep(p: Program, debug: Mode, timers: seq<Timer>, now: Timespec)
    requires Valid(p) && SafeTimers(p, debug, timers)
    ensures var (left, fired) := Sweep(timers, 0, now);
            SafeTimers(p, debug, left) && AllResolve(p, debug, Launched(fired))
  {
    hide Resolve, Sweep;
    var (left, fired) := Sweep(timers, 0, now);
    forall t | t in left || t in fired
      ensures Resolve(p, debug, t.iptr).Some?
    {
      SweepMembers(timers, now, t);
    }
    assert forall k :: 0 <= k < |fired| ==> fired[k] in fired && Launched(fired)[k].entry == fired[k].iptr;
  }

  /** The children's callbacks are safe exactly when those fired and those left are. */
  lemma SafeReports(p: Program, debug: Mode, t: ChildTable, waits: seq<Wait>)
    requires Valid(p)
    ensures var r := Reports(t, waits, 0);
            SafeKids(p, debug, t) <==> SafeKids(p, debug, r.kids) && SafeCallbacks(p, debug, r.cbs)
  {
    hide Resolve, Reports, HasCallback;
    var r := Reports(t, waits, 0);
    forall cb: Callback
      ensures HasCallback(t, cb) <==> HasCallback(r.kids, cb) || cb in r.cbs
    {
      ReportsKeepOrFire(t, waits, 0, cb);
    }
  }

  lemma SafeRequests(p: Program, debug: Mode, cbs: seq<Callback>, memsz: nat)
    requires Valid(p) && SafeCallbacks(p, debug, cbs)
    ensures AllResolve(p, debug, Requests(cbs, memsz))
  {
    hide Resolve, Requests, DerefOk;
    forall k | 0 <= k < |Requests(cbs, memsz)|
      ensures Resolve(p, debug, Requests(cbs, memsz)[k].entry).Some?
    {
      RequestedBy(cbs, memsz, Requests(cbs, memsz)[k]);
    }
  }

  lemma SafeEvents(p: Program, debug: Mode, w: World, e: Events)
    requires Valid(p) && SafeWorld(p, debug, w) && AllResolve(p, debug, e.io.spawns)
    ensures AllResolve(p, debug, EventRequests(w, e))
    ensures SafeTimers(p, debug, Sweep(w.timers, 0, TimeNow(e.clock)).0)
        && SafeKids(p, debug, Reports(w.kids, e.waits, 0).kids)
  {
    hide Resolve, Sweep, Reports, Requests, SafeTimers, SafeKids, SafeCallbacks;
    SafeSweep(p, debug, w.timers, TimeNow(e.clock));
    SafeReports(p, debug, w.kids, e.waits);
    SafeRequests(p, debug, Reports(w.kids, e.waits, 0).cbs, |w.mem|);
  }

  lemma SafeCallEvents(p: Program, debug: Mode, w: World, inp: Input)
    requires Valid(p) && SafeWorld(p, debug, w)
    ensures AllResolve(p, debug, inp.sys.io.spawns) ==> AllResolve(p, debug, CallRequests(w, inp))
    ensures var f := SyscallEvents(w, CodeSize(p, debug), inp);
            f.Fired? ==> SafeWorld(p, debug, f.w)
  {
    hide Resolve, Sweep, Reports, Requests, SafeTimers, SafeKids, SafeCallbacks, EventRequests, CallDefined,
      SyscallEvents;
    CallEventsFire(w, CodeSize(p, debug), inp);
    SafeSweep(p, debug, w.timers, TimeNow(inp.sys.clock));
    SafeReports(p, debug, w.kids, inp.sys.waits);
    SafeReports(p, debug, Reports(w.kids, inp.sys.waits, 0).kids, inp.sysCleanup);
    SafeRequests(p, debug, CleanupReports(w, inp).cbs, |w.mem|);
    if AllResolve(p, debug, inp.sys.io.spawns) { SafeEvents(p, debug, w, inp.sys); }
  }

  /**
   * The call registers an address that is no instruction's place: every check passes, and the argument block names
   * it.
   */
  ghost predicate RegistersAstray(p: Program, debug: Mode, w: World, id: nat, argv: u32, retv: u32, inp: Input)
    requires Valid(p)
  {
    var codesz := CodeSize(p, debug);
    || (id == SYS_TIMEOUT && TimeoutPasses(w, argv, retv, codesz, inp.clock)
        && Resolve(p, debug, Load32(w.mem, argv).value).None?)
    || (id == SYS_ONEXIT && OnExitPasses(w, argv, retv, codesz)
        && Resolve(p, debug, Load64(w.mem, argv + 16).value % WORD32).None?)
  }

  /** Every callback with an unsafe address has an argument block that passes the check. */
  ghost predicate UnsafeOnesPass(p: Program, debug: Mode, t: ChildTable, memsz: nat)
    requires Valid(p)
  {
    forall cb :: HasCallback(t, cb) && Resolve(p, debug, cb.entry).None? ==> DerefOk(cb.args, 56, memsz)
  }

  lemma TimeoutIsSafe(p: Program, debug: Mode, w: World, argv: u32, retv: u32, inp: Input)
    requires Valid(p) && SafeWorld(p, debug, w)
    ensures var r := SysTimeout(w, argv, retv, CodeSize(p, debug), inp.clock);
            r.Some? ==> |r.value.mem| == |w.mem| && r.value.kids == w.kids
                        && (SafeTimers(p, debug, r.value.timers)
                            <==> !RegistersAstray(p, debug, w, SYS_TIMEOUT, argv, retv, inp))
  {
    hide Resolve, SysTimeout, Load32, Load64, Answers, SafeKids, Expiry, OnExitPasses, TimeoutPasses;
    TimeoutRegisters(w, argv, retv, CodeSize(p, debug), inp.clock);
    var r := SysTimeout(w, argv, retv, CodeSize(p, debug), inp.clock);
    if r.Some? && TimeoutPasses(w, argv, retv, CodeSize(p, debug), inp.clock) {
      var t := r.value.timers[|w.timers|];
      assert t in r.value.timers;
      assert forall x :: x in r.value.timers <==> x in w.timers || x == t;
    }
  }

  lemma OnExitIsSafe(p: Program, debug: Mode, w: World, argv: u32, retv: u32, inp: Input)
    requires Valid(p) && SafeWorld(p, debug, w)
    ensures var r := SysOnExit(w, argv, retv, CodeSize(p, debug));
            r.Some? ==> |r.value.mem| == |w.mem| && r.value.timers == w.timers
                        && UnsafeOnesPass(p, debug, r.value.kids, |w.mem|)
                        && (SafeKids(p, debug, r.value.kids)
                            <==> !RegistersAstray(p, debug, w, SYS_ONEXIT, argv, retv, inp))
  {
    hide Resolve, SysOnExit, Load32, Load64, Answers, SafeTimers, DerefOk, FindProc, AddCallback, HasCallback,
      TimeoutPasses;
    OnExitRegisters(w, argv, retv, CodeSize(p, debug));
    var r := SysOnExit(w, argv, retv, CodeSize(p, debug));
    if r.Some? && OnExitPasses(w, argv, retv, CodeSize(p, debug)) {
      var new1 := Callback(Load64(w.mem, argv + 16).value % WORD32, Load64(w.mem, argv + 8).value % WORD32);
      forall cb: Callback
        ensures HasCallback(r.value.kids, cb) <==> HasCallback(w.kids, cb) || cb == new1
      {
        AddedCallback(w.kids, FindProc(w.kids.slots, Load64(w.mem, argv).value % WORD32, 0), new1, cb);
      }
    }
  }

  lemma ForeignIsSafe(p: Program, debug: Mode, w: World, id: nat, f: Foreign)
    requires Valid(p) && SafeWorld(p, debug, w)
    ensures var r := SysForeign(w, id, f);
            r.Some? ==> SafeWorld(p, debug, r.value)
  {
    hide Resolve, SaveChild, HasCallback, Raise;
    if f.child.Some? {
      forall cb: Callback
        ensures SaveChild(w.kids, f.child.value).Some? && HasCallback(SaveChild(w.kids, f.child.value).value, cb)
                ==> HasCallback(w.kids, cb)
      {
        SavedChildCallbacks(w.kids, f.child.value, cb);
      }
    }
  }

  lemma DispatchIsSafe(p: Program, debug: Mode, w: World, id: nat, argv: u32, retv: u32, inp: Input)
    requires Valid(p) && SafeWorld(p, debug, w)
    ensures var r := Dispatch(w, id, argv, retv, CodeSize(p, debug), inp);
            r.Some? ==>
              && (SafeWorld(p, debug, r.value) <==> !RegistersAstray(p, debug, w, id, argv, retv, inp))
              && UnsafeOnesPass(p, debug, r.value.kids, |r.value.mem|)
  {
    hide Resolve, SysTimeout, SysOnExit, SysConnect, SysForeign, SafeTimers, HasCallback, TimeoutPasses,
      OnExitPasses, ConnectPasses, ConnectTries, Answers, OwnRequests, Load32, Load64;
    ConnectStarts(w, argv, retv, CodeSize(p, debug), inp);
    TimeoutIsSafe(p, debug, w, argv, retv, inp);
    OnExitIsSafe(p, debug, w, argv, retv, inp);
    ForeignIsSafe(p, debug, w, id, inp.foreign);
  }

  /** The head makes a system call that registers an address that is no instruction's place. */
  ghost predicate HeadRegistersAstray(p: Program, debug: Mode, t: SState, inp: Input)
    requires Fits(p, debug)
  {
    HeadIsSyscall(p, debug, t)
    && var i := NextInstn(p, debug, t.procs[0].pc);
       var d := SourceDecode(p, debug, |t.w.mem|, i);
       d.Decoded? && CallRegistersAstray(p, debug, d.operands, t.w, inp)
  }

  /** The same of a call with operands `os`, read once the events before it have fired. */
  ghost predicate CallRegistersAstray(p: Program, debug: Mode, os: seq<Operand>, w: World, inp: Input)
    requires Valid(p) && |os| == 3
  {
    var f := SyscallEvents(w, CodeSize(p, debug), inp);
    f.Fired?
    && var m := f.w.mem;
       ArgValue(os[0], m).Some? && ArgValue(os[1], m).Some? && ArgValue(os[2], m).Some?
       && var id := ArgValue(os[0], m).value % 0x1_0000;
          id < N_SYSCALLS
          && RegistersAstray(p, debug, f.w.(tick := 0), id, ArgValue(os[1], m).value % WORD32,
                             ArgValue(os[2], m).value % WORD32, inp)
  }

  lemma CallIsSafe(p: Program, debug: Mode, os: seq<Operand>, w: World, inp: Input)
    requires Valid(p) && |os| == 3 && SafeWorld(p, debug, w)
    ensures var e := SyscallEffect(w, os, CodeSize(p, debug), inp);
            e.Sys? ==>
              && (SafeWorld(p, debug, e.w) <==> !CallRegistersAstray(p, debug, os, w, inp))
              && UnsafeOnesPass(p, debug, e.w.kids, |e.w.mem|)
  {
    hide Resolve, SafeTimers, SafeKids, SyscallEvents, Dispatch, ArgValue, RegistersAstray, UnsafeOnesPass, Raise;
    SafeCallEvents(p, debug, w, inp);
    var f := SyscallEvents(w, CodeSize(p, debug), inp);
    if f.Fired? {
      var m := f.w.mem;
      if ArgValue(os[0], m).Some? && ArgValue(os[1], m).Some? && ArgValue(os[2], m).Some? {
        DispatchIsSafe(p, debug, f.w.(tick := 0), ArgValue(os[0], m).value % 0x1_0000,
                       ArgValue(os[1], m).value % WORD32, ArgValue(os[2], m).value % WORD32, inp);
      }
    }
  }

  /** The cleanup does not hide a bad registration: its callback stays, or launching it strays. */
  lemma FinishIsSafe(p: Program, debug: Mode, w: World, procs: seq<SProc>, inp: Input)
    requires Valid(p) && UnsafeOnesPass(p, debug, w.kids, |w.mem|)
    ensures var r := SFinish(p, debug, w, procs, inp);
            r.SRunning? ==> (SafeWorld(p, debug, r.s.w) <==> SafeWorld(p, debug, w))
  {
    hide Tick, Resolve, Reports, Requests, SafeTimers, HasCallback, BlocksInside, SNewProcs, Admitted, DerefOk;
    var r := TickReports(w, inp);
    TickFires(w, CodeSize(p, debug), inp);
    AdmittedResolve(p, debug, Requests(r.cbs, |w.mem|));
    SafeReports(p, debug, w.kids, inp.cleanup);
    if SFinish(p, debug, w, procs, inp).SRunning? && AllResolve(p, debug, Requests(r.cbs, |w.mem|)) {
      forall cb | cb in r.cbs
        ensures Resolve(p, debug, cb.entry).Some?
      {
        ReportsKeepOrFire(w.kids, inp.cleanup, 0, cb);
        RequestedBy(r.cbs, |w.mem|, Func(cb.entry, cb.args, 0));
        var c :| 0 <= c < |r.cbs| && r.cbs[c] == cb;
        if DerefOk(cb.args, 56, |w.mem|) {
          var k :| 0 <= k < |Requests(r.cbs, |w.mem|)|
                   && Requests(r.cbs, |w.mem|)[k] == Func(cb.entry, cb.args, 0);
          assert Resolve(p, debug, Requests(r.cbs, |w.mem|)[k].entry).Some?;
        }
      }
      assert SafeCallbacks(p, debug, r.cbs);
    }
  }

  lemma SameRegistrations(p: Program, debug: Mode, w: World, e: Effect)
    requires Valid(p) && SafeWorld(p, debug, w) && !e.Undefined? && e.w.timers == w.timers && e.w.kids == w.kids
    ensures SafeWorld(p, debug, e.w) && UnsafeOnesPass(p, debug, e.w.kids, |e.w.mem|)
  {}

  /** The world after the head's instruction is safe exactly when the instruction is no call that registers astray. */
  lemma EffectIsSafe(p: Program, debug: Mode, i: nat, os: seq<Operand>, w: World, top: Option<Top>, inp: Input)
    requires Valid(p) && i < |p.instns| && |os| == Arity(OpAt(p, i)) && SafeWorld(p, debug, w)
    ensures var e := Effects(OpAt(p, i), os, w, top, CodeSize(p, debug), inp);
            !e.Undefined? && !e.Halt? ==>
              && UnsafeOnesPass(p, debug, e.w.kids, |e.w.mem|)
              && (SafeWorld(p, debug, e.w) <==> !(OpAt(p, i).Syscall? && CallRegistersAstray(p, debug, os, w, inp)))
  {
    hide Effects, SyscallEffect, SafeWorld, CallRegistersAstray, UnsafeOnesPass, Resolve;
    var e := Effects(OpAt(p, i), os, w, top, CodeSize(p, debug), inp);
    if OpAt(p, i).Syscall? {
      SyscallHandler(os, w, top, CodeSize(p, debug), inp);
      CallStrays(p, debug, os, w, inp);
      CallIsSafe(p, debug, os, w, inp);
    } else if !e.Undefined? {
      DataKeepsRegistrations(OpAt(p, i), os, w, top, CodeSize(p, debug), inp);
      SameRegistrations(p, debug, w, e);
    }
  }

  lemma ExecuteIsSafe(p: Program, debug: Mode, i: nat, os: seq<Operand>, w: World, head: SProc, rest: seq<SProc>,
                      inp: Input)
    requires Valid(p) && i < |p.instns| && |os| == Arity(OpAt(p, i)) && SafeWorld(p, debug, w)
    ensures var r := SExecute(p, debug, i, os, w, head, rest, inp);
            r.SRunning? ==>
              (SafeWorld(p, debug, r.s.w) <==> !(OpAt(p, i).Syscall? && CallRegistersAstray(p, debug, os, w, inp)))
  {
    hide Effects, SFinish, SafeWorld, CallRegistersAstray, UnsafeOnesPass, SApply, AllResolve;
    var e := Effects(OpAt(p, i), os, w, STopOf(head.stack), CodeSize(p, debug), inp);
    EffectIsSafe(p, debug, i, os, w, STopOf(head.stack), inp);
    if !e.Undefined? && !e.Halt? && SApply(p, debug, i, e, head, rest).Some? {
      FinishIsSafe(p, debug, e.w, SApply(p, debug, i, e, head, rest).value, inp);
    }
  }

  lemma RunHeadIsSafe(p: Program, debug: Mode, t: SState, inp: Input)
    requires Fits(p, debug) && SafeWorld(p, debug, t.w)
    ensures var r := SRunHead(p, debug, t, inp);
            r.SRunning? ==> (SafeWorld(p, debug, r.s.w) <==> !HeadRegistersAstray(p, debug, t, inp))
  {
    hide SExecute, SafeWorld, CallRegistersAstray, RefsOk, SourceOperands;
    if t.procs != [] {
      var i := NextInstn(p, debug, t.procs[0].pc);
      if i < |p.instns| {
        var d := SourceDecode(p, debug, |t.w.mem|, i);
        if d.Decoded? {
          ExecuteIsSafe(p, debug, i, d.operands, t.w, t.procs[0].(pc := i + 1), t.procs[1..], inp);
        }
      }
    }
  }

  lemma SafeIdle(p: Program, debug: Mode, w: World, inp: Input)
    requires Valid(p) && SafeWorld(p, debug, w)
    ensures match Idle(w, CodeSize(p, debug), inp)
            case Slept(w') => SafeWorld(p, debug, w')
            case Woken(w', _) => SafeWorld(p, debug, w')
            case _ => true
  {
    hide Resolve, FireVmEvents, SafeTimers, SafeKids, Sweep, Reports, EventRequests, EventsDefined;
    EventsFire(w, inp.idle, CodeSize(p, debug));
    SafeSweep(p, debug, w.timers, TimeNow(inp.idle.clock));
    SafeReports(p, debug, w.kids, inp.idle.waits);
  }

  ghost predicate RoundRegistersAstray(p: Program, debug: Mode, s: SState, inp: Input)
    requires Fits(p, debug)
  {
    var t := Awake(p, debug, s, inp);
    t.Some? && HeadRegistersAstray(p, debug, t.value, inp)
  }

  /**
   * A round leaves the safe states exactly when its head makes a `timeout` or `onexit` call every check of which
   * passes, and whose argument block names an address that is no instruction's place.
   */
  lemma LeavesSafetyByRegistration(p: Program, debug: Mode, s: SState, inp: Input)
    requires Fits(p, debug) && SafeWorld(p, debug, s.w)
    ensures var r := SStep(p, debug, s, inp);
            r.SRunning? ==> (!SafeWorld(p, debug, r.s.w) <==> RoundRegistersAstray(p, debug, s, inp))
  {
    hide SRunHead, HeadRegistersAstray, SafeWorld, Idle, AllResolve;
    SafeIdle(p, debug, s.w, inp);
    var t := Awake(p, debug, s, inp);
    if t.Some? {
      RunHeadIsSafe(p, debug, t.value, inp);
    }
  }

  lemma SafeHead(p: Program, debug: Mode, t: SState, inp: Input)
    requires Fits(p, debug) && SafeWorld(p, debug, t.w) && SafeInput(p, debug, inp)
    requires !HeadRegistersAstray(p, debug, t, inp) && !HeadConnectsAstray(p, debug, t, inp)
    ensures !HeadStrays(p, debug, t, inp)
  {
    hide Effects, SafeWorld, CallRegistersAstray, UnsafeOnesPass, AllResolve, CallRequests, RefsOk, SourceOperands,
      CleanupStrays, HeadConnectsAstray;
    SafeCallEvents(p, debug, t.w, inp);
    if t.procs != [] {
      var i := NextInstn(p, debug, t.procs[0].pc);
      if i < |p.instns| {
        var d := SourceDecode(p, debug, |t.w.mem|, i);
        if d.Decoded? {
          var e := Effects(OpAt(p, i), d.operands, t.w, STopOf(t.procs[0].stack), CodeSize(p, debug), inp);
          EffectIsSafe(p, debug, i, d.operands, t.w, STopOf(t.procs[0].stack), inp);
          if !e.Undefined? && !e.Halt? {
            SafeCleanup(p, debug, e.w, inp);
          }
        }
      }
    }
  }

  lemma SafeCleanup(p: Program, debug: Mode, w: World, inp: Input)
    requires Valid(p) && SafeWorld(p, debug, w)
    ensures !CleanupStrays(p, debug, w, inp)
  {
    hide Resolve, Reports, Requests, SafeTimers, SafeKids, AllResolve;
    SafeReports(p, debug, w.kids, inp.cleanup);
    SafeRequests(p, debug, TickReports(w, inp).cbs, |w.mem|);
  }

  /** The round hands a system call an address that is no instruction's place, to register or to start there. */
  ghost predicate RoundCallsAstray(p: Program, debug: Mode, s: SState, inp: Input)
    requires Fits(p, debug)
  {
    var t := Awake(p, debug, s, inp);
    t.Some? && (HeadRegistersAstray(p, debug, t.value, inp) || HeadConnectsAstray(p, debug, t.value, inp))
  }

  /** From a safe state, a round that hands no such address to a system call launches nothing astray. */
  lemma SafeRoundLaunches(p: Program, debug: Mode, s: SState, inp: Input)
    requires Fits(p, debug) && SafeWorld(p, debug, s.w) && SafeInput(p, debug, inp)
    requires !RoundCallsAstray(p, debug, s, inp)
    ensures !LaunchesAstray(p, debug, s, inp)
  {
    hide SafeWorld, Idle, AllResolve, EventRequests, EventsDefined, HeadStrays, HeadRegistersAstray,
      HeadConnectsAstray;
    SafeEvents(p, debug, s.w, inp.idle);
    SafeIdle(p, debug, s.w, inp);
    var t := Awake(p, debug, s, inp);
    if t.Some? {
      SafeHead(p, debug, t.value, inp);
    }
  }

  // ---- Runs

  /** No round of the run launches where no instruction is. */
  ghost predicate NoStrayLaunch(p: Program, debug: Mode, s: SState, inputs: seq<Input>)
    requires Fits(p, debug)
    decreases |inputs|
  {
    inputs == [] || (!LaunchesAstray(p, debug, s, inputs[0])
                     && (SStep(p, debug, s, inputs[0]).SRunning?
                         ==> NoStrayLaunch(p, debug, SStep(p, debug, s, inputs[0]).s, inputs[1..])))
  }

  /** A run strays exactly when one of its rounds launches where no instruction is. */
  lemma {:induction false} RunStraysIff(p: Program, debug: Mode, s: SState, inputs: seq<Input>)
    requires Fits(p, debug) && LabelTargets(p, debug)
    ensures SRun(p, debug, s, inputs).Stray? <==> !NoStrayLaunch(p, debug, s, inputs)
    decreases |inputs|
  {
    hide SStep, LaunchesAstray, LabelTargets;
    if inputs != [] {
      StraysOnlyByLaunch(p, debug, s, inputs[0]);
      var r := SStep(p, debug, s, inputs[0]);
      if r.SRunning? {
        RunStraysIff(p, debug, r.s, inputs[1..]);
      }
    }
  }

  /** No round of the run hands a system call an address that is no instruction's place. */
  ghost predicate NoStrayCall(p: Program, debug: Mode, s: SState, inputs: seq<Input>)
    requires Fits(p, debug)
    decreases |inputs|
  {
    inputs == [] || (!RoundCallsAstray(p, debug, s, inputs[0])
                     && (SStep(p, debug, s, inputs[0]).SRunning?
                         ==> NoStrayCall(p, debug, SStep(p, debug, s, inputs[0]).s, inputs[1..])))
  }

  /** A run that starts safe and hands system calls only instructions' places launches only there. */
  lemma {:induction false} CalledWellLaunchesWell(p: Program, debug: Mode, s: SState, inputs: seq<Input>)
    requires Fits(p, debug) && SafeWorld(p, debug, s.w) && NoStrayCall(p, debug, s, inputs)
    requires forall k :: 0 <= k < |inputs| ==> SafeInput(p, debug, inputs[k])
    ensures NoStrayLaunch(p, debug, s, inputs)
    decreases |inputs|
  {
    hide SStep, LaunchesAstray, HeadRegistersAstray, HeadConnectsAstray, Awake, SafeWorld, SafeInput;
    if inputs != [] {
      SafeRoundLaunches(p, debug, s, inputs[0]);
      LeavesSafetyByRegistration(p, debug, s, inputs[0]);
      var r := SStep(p, debug, s, inputs[0]);
      if r.SRunning? {
        CalledWellLaunchesWell(p, debug, r.s, inputs[1..]);
      }
    }
  }

  /** An address where a procedure may be: the place of an emitted instruction, or past the code. */
  ghost predicate Boundary(p: Program, debug: Mode, v: nat)
    requires Valid(p)
  {
    v >= CodeSize(p, debug) || exists k :: 0 <= k < |p.instns| && Kept(p, debug, k) && Layout(p, debug, k) == v
  }

  ghost predicate StackOnBoundaries(p: Program, debug: Mode, stack: seq<Frame>)
    requires Valid(p)
  {
    forall f :: 0 <= f < |stack| ==> stack[f].retAddress == NONE32 || Boundary(p, debug, stack[f].retAddress)
  }

  ghost predicate OnBoundaries(p: Program, debug: Mode, procs: seq<Proc>)
    requires Valid(p)
  {
    forall k :: 0 <= k < |procs| ==> Boundary(p, debug, procs[k].iptr) && StackOnBoundaries(p, debug, procs[k].cstack)
  }

  lemma RelPcBoundary(p: Program, debug: Mode, b: nat, pc: nat)
    requires Valid(p) && RelPc(p, debug, b, pc)
    ensures Boundary(p, debug, b)
  {
    var k := NextKept(p, debug, pc);
    if k < |p.instns| {
      LayoutOfSkipped(p, debug, pc, k);
      assert Kept(p, debug, k) && Layout(p, debug, k) == b;
    }
  }

  lemma RelProcsBoundaries(p: Program, debug: Mode, b: seq<Proc>, s: seq<SProc>)
    requires Valid(p) && RelProcs(p, debug, b, s)
    ensures OnBoundaries(p, debug, b)
  {
    hide Boundary, RelPc;
    forall k | 0 <= k < |b|
      ensures Boundary(p, debug, b[k].iptr) && StackOnBoundaries(p, debug, b[k].cstack)
    {
      assert RelProc(p, debug, b[k], s[k]);
      RelPcBoundary(p, debug, b[k].iptr, s[k].pc);
      forall f | 0 <= f < |b[k].cstack|
        ensures b[k].cstack[f].retAddress == NONE32 || Boundary(p, debug, b[k].cstack[f].retAddress)
      {
        assert RelFrame(p, debug, b[k].cstack[f], s[k].stack[f]);
        if s[k].stack[f].resume.To? {
          RelPcBoundary(p, debug, b[k].cstack[f].retAddress, s[k].stack[f].resume.pc);
        }
      }
    }
  }

  /**
   * Control stays on instruction boundaries in every reachable state: after any number of rounds, every
   * procedure's next address and every saved return address other than the sentinel is an emitted
   * instruction's place or past the code.
   */
  lemma ControlStaysOnBoundaries(p: Program, debug: Mode, b: State, s: SState, inputs: seq<Input>)
    requires Fits(p, debug) && LabelTargets(p, debug) && RelState(p, debug, b, s)
    requires NoStrayLaunch(p, debug, s, inputs)
    ensures var r := Run(p.table, Image(p, debug), b, inputs);
            !r.Crashed? ==> OnBoundaries(p, debug, r.s.procs)
  {
    hide Run, SRun, OnBoundaries, NoStrayLaunch, LabelTargets, RelProcs;
    Simulates(p, debug, b, s, inputs);
    RunStraysIff(p, debug, s, inputs);
    var r := SRun(p, debug, s, inputs);
    if r.SRunning? || r.SExited? {
      RelProcsBoundaries(p, debug, Run(p.table, Image(p, debug), b, inputs).s.procs, r.s.procs);
    }
  }

  // ---- Where a run starts, and where a jump to a label can fail

  /**
   * The image stores the entry label's instruction index as the start address. It is the entry
   * instruction's address exactly when the bytes before that instruction number as many as its index.
   */
  lemma EntryStarts(p: Program, debug: Mode, entry: nat, w: World)
    requires Fits(p, debug) && entry < |p.instns| && NextKept(p, debug, entry) < |p.instns|
    ensures RelState(p, debug, State(w, [Proc(entry, [])]), SState(w, [SProc(entry, [])]))
            <==> Layout(p, debug, entry) == entry
  {
    var b, s := [Proc(entry, [])], [SProc(entry, [])];
    assert RelProcs(p, debug, b, s) <==> RelProc(p, debug, b[0], s[0]);
  }

  /** With nothing skipped, that is exactly the first instruction. */
  lemma {:induction false} EntryAtZero(p: Program, debug: Mode, entry: nat)
    requires Valid(p) && entry <= |p.instns| && forall k :: 0 <= k < entry ==> Kept(p, debug, k)
    ensures Layout(p, debug, entry) >= 2 * entry
    ensures Layout(p, debug, entry) == entry <==> entry == 0
  {
    if entry > 0 {
      EntryAtZero(p, debug, entry - 1);
    }
  }

  /** A taken jump to a code label faults exactly when nothing is emitted at or after the label. */
  lemma LabelJumpFaults(p: Program, debug: Mode, i: nat, w: World, inp: Input)
    requires Fits(p, debug) && i < |p.instns| && OpAt(p, i).Jmp? && NamesCode(p, i)
    ensures var e := Effects(Jmp, SourceOperands(p, debug, p.instns[i].args), w, None, CodeSize(p, debug), inp);
            if NextKept(p, debug, NamedIndex(p, i)) == |p.instns| then e == Fail(w, E_BAD_INSTN_POINTER)
            else e == Goto(w, Layout(p, debug, NamedIndex(p, i)))
  {
    RelLabel(p, debug, i);
    OffsetsFit(p, debug, NamedIndex(p, i));
    PlaceInCode(p, debug, NamedIndex(p, i));
    ModIsRemainder(SourceOperands(p, debug, p.instns[i].args)[0].value, WORD32, 0,
                   SourceOperands(p, debug, p.instns[i].args)[0].value);
  }
}
