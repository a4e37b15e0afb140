/** What the machine keeps true over every run, and why it can stop. */
module Halting {
  import opened Bytes
  import opened Isa
  import opened Decoder
  import opened Children
  import opened World
  import opened ByteMachine
  import opened EventLaunch

  // ---- The child counters are right in every reachable state

  ghost predicate CountedFired(f: Fired) {
    f.Fired? ==> Counted(f.w.kids)
  }

  lemma {:induction false} CountedProcs(f: Fired, waits: seq<Wait>, k: nat, codesz: nat)
    requires k <= |waits| && CountedFired(f)
    ensures CountedFired(FireProcEvents(f, waits, k, codesz))
    decreases |waits| - k
  {
    hide FireCallbacks, Counted;
    if f.Fired? && k < |waits| && waits[k].Reaped? {
      var q := FindProc(f.w.kids.slots, waits[k].pid, 0);
      if q < |f.w.kids.slots| {
        ReleaseCounts(f.w.kids, q);
        CountedProcs(ReapChild(f, q, waits[k].pid, waits[k].status, codesz), waits, k + 1, codesz);
      }
    }
  }

  lemma CountedEvents(w: World, e: Events, codesz: nat)
    requires Counted(w.kids)
    ensures CountedFired(FireVmEvents(w, e, codesz))
  {
    hide FireProcEvents, Counted, Admitted;
    var t := FireTimerEvents(w, e.clock, codesz);
    CountedProcs(After(t, FireIoEvents(t.w, e.io, codesz)), e.waits, 0, codesz);
  }

  /** With right counters the slot search never fails, so recording a started child never aborts. */
  lemma CountedDispatch(w: World, id: nat, argv: u32, retv: u32, codesz: nat, inp: Input)
    requires Counted(w.kids)
    ensures var r := Dispatch(w, id, argv, retv, codesz, inp);
            r.Some? ==> Counted(r.value.kids)
    ensures SysForeign(w, id, inp.foreign).Some?
  {
    hide Counted, SaveChild, AddCallback, Connect, DerefOk, Raise, ToLE, Splice, HandleBlock, Load32, Expiry;
    if inp.foreign.child.Some? {
      SaveChildCounts(w.kids, inp.foreign.child.value);
    }
    if id == SYS_ONEXIT && argv + 24 <= |w.mem| {
      var q := FindProc(w.kids.slots, Load64(w.mem, argv).value % WORD32, 0);
      if q < |w.kids.slots| {
        AddCallbackCounts(w.kids, q, Callback(Load64(w.mem, argv + 16).value % WORD32,
                                              Load64(w.mem, argv + 8).value % WORD32));
      }
    }
  }

  lemma CountedEffects(op: Op, os: seq<Operand>, w: World, top: Option<Top>, codesz: nat, inp: Input)
    requires |os| == Arity(op) && Counted(w.kids)
    ensures var e := Effects(op, os, w, top, codesz, inp);
            !e.Undefined? ==> Counted(e.w.kids)
  {
    hide Alu2, ToLE, Load32, Load64, Raise, Splice, Counted, SyscallEffect;
    if op.Syscall? {
      CountedSyscall(os, w, codesz, inp);
    }
  }

  lemma CountedSyscall(os: seq<Operand>, w: World, codesz: nat, inp: Input)
    requires |os| == 3 && Counted(w.kids)
    ensures var e := SyscallEffect(w, os, codesz, inp);
            !e.Undefined? ==> Counted(e.w.kids)
  {
    hide Counted, FireVmEvents, FireProcEvents, Dispatch;
    CountedEvents(w, inp.sys, codesz);
    CountedProcs(FireVmEvents(w, inp.sys, codesz), inp.sysCleanup, 0, codesz);
    var f := FireProcEvents(FireVmEvents(w, inp.sys, codesz), inp.sysCleanup, 0, codesz);
    if f.Fired? {
      var w' := f.w.(tick := 0);
      var (i, a, r) := (ArgValue(os[0], w'.mem), ArgValue(os[1], w'.mem), ArgValue(os[2], w'.mem));
      if i.Some? && a.Some? && r.Some? {
        CountedDispatch(w', i.value % 0x1_0000, a.value % WORD32, r.value % WORD32, codesz, inp);
      }
    }
  }

  lemma CountedTick(w: World, codesz: nat, inp: Input)
    requires Counted(w.kids)
    ensures CountedFired(Tick(w, codesz, inp))
  {
    hide Counted, FireProcEvents;
    CountedProcs(NoEvents(w.(tick := w.tick + 1)), inp.cleanup, 0, codesz);
  }

  lemma CountedRunHead(table: Table, code: seq<byte>, s: State, inp: Input)
    requires ValidTable(table) && Counted(s.w.kids)
    ensures var r := RunHead(table, code, s, inp);
            !r.Crashed? ==> Counted(r.s.w.kids)
  {
    hide Counted, Decode, Effects, Tick, Apply;
    if s.procs != [] && s.procs[0].iptr < |code| {
      var d := Decode(table, code, |s.w.mem|, s.procs[0].iptr);
      if d.Decoded? && d.opcode < |table| {
        CountedEffects(table[d.opcode], d.operands, s.w, TopOf(s.procs[0].cstack), |code|, inp);
        var e := Effects(table[d.opcode], d.operands, s.w, TopOf(s.procs[0].cstack), |code|, inp);
        if !e.Undefined? {
          CountedTick(e.w, |code|, inp);
        }
      }
    }
  }

  lemma CountedStep(table: Table, code: seq<byte>, s: State, inp: Input)
    requires ValidTable(table) && Counted(s.w.kids)
    ensures var r := Step(table, code, s, inp);
            !r.Crashed? ==> Counted(r.s.w.kids)
  {
    hide Counted, RunHead, FireVmEvents;
    CountedEvents(s.w, inp.idle, |code|);
    if s.procs != [] {
      CountedRunHead(table, code, s, inp);
    } else {
      var r := Idle(s.w, |code|, inp);
      if r.Woken? {
        CountedRunHead(table, code, State(r.w, NewProcs(r.spawns)), inp);
      }
    }
  }

  /** In every reachable state the counters count: callbacks are pending exactly when a live child has one. */
  lemma {:induction false} CountedRun(table: Table, code: seq<byte>, s: State, inputs: seq<Input>)
    requires ValidTable(table) && Counted(s.w.kids)
    ensures var r := Run(table, code, s, inputs);
            !r.Crashed? ==>
              Counted(r.s.w.kids)
              && (r.s.w.kids.nExit > 0
                  <==> exists k :: 0 <= k < |r.s.w.kids.slots|
                                   && r.s.w.kids.slots[k].used && r.s.w.kids.slots[k].cbs != [])
    decreases |inputs|
  {
    hide Step;
    if inputs == [] {
      PendingMeansLiveCallback(s.w.kids.slots);
    } else {
      CountedStep(table, code, s, inputs[0]);
      var r := Step(table, code, s, inputs[0]);
      if r.Running? {
        CountedRun(table, code, r.s, inputs[1..]);
      } else if r.Exited? {
        PendingMeansLiveCallback(r.s.w.kids.slots);
      }
    }
  }

  // ---- Why the machine stops

  /** The head executes `abrt` with an operand whose low 32 bits are all zero. */
  predicate AbortsWithZero(table: Table, code: seq<byte>, t: State, inp: Input)
    requires ValidTable(table)
  {
    t.procs != [] && t.procs[0].iptr < |code|
    && var d := Decode(table, code, |t.w.mem|, t.procs[0].iptr);
       d.Decoded? && d.opcode < |table| && table[d.opcode] == Abrt
       && ArgValue(d.operands[0], t.w.mem).Some? && ArgValue(d.operands[0], t.w.mem).value % WORD32 == 0
  }

  /** The state whose head runs in this round. */
  function Awake(codesz: nat, s: State, inp: Input): State {
    if s.procs != [] then s
    else
      match Idle(s.w, codesz, inp)
      case Woken(w, spawns) => State(w, NewProcs(spawns))
      case _ => s
  }

  lemma FaultBitsNonzero(table: Table, code: seq<byte>, memsz: nat, iptr: nat)
    ensures var d := Decode(table, code, memsz, iptr);
            d.Fault? ==> d.bits != 0
  {
    hide WordAt;
    if |code| >= iptr + 2 {
      var word := WordAt(code, iptr, 2);
      var index := (word / 8) % 256;
      ArgFaultsNonzero(code, memsz, iptr, word, 0, ArgCount(table, index), [], 2);
      if |code| >= iptr + 3 {
        ArgFaultsNonzero(code, memsz, iptr, word, code[iptr + 2], ArgCount(table, index), [], 3);
      }
    }
  }

  lemma {:induction false} ArgFaultsNonzero(code: seq<byte>, memsz: nat, iptr: nat, word: nat, sizes: nat, n: nat,
                                            done: seq<Operand>, offset: nat)
    ensures var d := DecodeArgs(code, memsz, iptr, word, sizes, n, done, offset);
            d.Fault? ==> d.bits != 0
    decreases n - |done|
  {
    hide WordAt, Bit, WidthAt;
    if |done| < n {
      var a := DecodeArg(code, memsz, iptr, offset, word, sizes, |done|);
      if a.ArgRead? {
        ArgFaultsNonzero(code, memsz, iptr, word, sizes, n, done + [a.operand], offset + a.width);
      }
    }
  }

  /** A handler that gives up leaves a flag set, unless it is `abrt` told to set none. */
  lemma HaltsFlagged(op: Op, os: seq<Operand>, w: World, top: Option<Top>, codesz: nat, inp: Input)
    requires |os| == Arity(op)
    ensures var e := Effects(op, os, w, top, codesz, inp);
            e.Halt? && e.w.exceptions == 0
            ==> op == Abrt && ArgValue(os[0], w.mem).Some? && ArgValue(os[0], w.mem).value % WORD32 == 0
    ensures op == Abrt && ArgValue(os[0], w.mem).Some?
            ==> var e := Effects(op, os, w, top, codesz, inp);
                e.Halt? && (e.w.exceptions == 0 <==> w.exceptions == 0 && ArgValue(os[0], w.mem).value % WORD32 == 0)
  {
    hide Alu2, ToLE, Load32, Load64, Raise, Splice, SyscallEffect;
    FailFlags(w, E_ARITHMETIC);
    FailFlags(w, E_MEM_FAULT);
    FailFlags(w, E_BAD_INSTN_POINTER);
    match op {
      case Syscall => SyscallHaltsFlagged(os, w, codesz, inp);
      case Assert =>
        if ArgValue(os[0], w.mem).Some? { FailFlags(w.(assertId := ArgValue(os[0], w.mem).value), E_ASSERT_FAILED); }
      case Abrt =>
        if ArgValue(os[0], w.mem).Some? { RaiseNonzero(w.exceptions, ArgValue(os[0], w.mem).value % WORD32); }
      case _ =>
    }
  }

  lemma FailFlags(w: World, bits: u32)
    requires bits != 0
    ensures Fail(w, bits).w.exceptions != 0
  {
    RaiseNonzero(w.exceptions, bits);
  }

  lemma SyscallHaltsFlagged(os: seq<Operand>, w: World, codesz: nat, inp: Input)
    requires |os| == 3
    ensures var e := SyscallEffect(w, os, codesz, inp);
            e.Halt? ==> e.w.exceptions != 0
  {
    hide FireVmEvents, FireProcEvents, Dispatch, Raise;
    forall flags: u32
      ensures Raise(flags, E_BAD_SYSCALL) != 0
    {
      RaiseNonzero(flags, E_BAD_SYSCALL);
    }
  }

  /**
   * Halting. A round ends the run in exactly three ways: there was no procedure and no event pending; or an
   * exception flag is set; or the program executed `abrt` asking for no flag while none was set.
   */
  lemma WhyItStops(table: Table, code: seq<byte>, s: State, inp: Input)
    requires ValidTable(table) && Step(table, code, s, inp).Exited?
    ensures var e := Step(table, code, s, inp).s;
            if s.procs == [] && s.w.timers == [] && !inp.ioPending && s.w.kids.nExit <= 0 then e == s
            else e.w.exceptions != 0 || AbortsWithZero(table, code, Awake(|code|, s, inp), inp)
    ensures var t := Awake(|code|, s, inp);
            t.procs != [] && AbortsWithZero(table, code, t, inp)
            ==> (Step(table, code, s, inp).s.w.exceptions == 0 <==> t.w.exceptions == 0)
  {
    hide Decode, Effects, Tick, Idle, Raise, Apply;
    var t := Awake(|code|, s, inp);
    IdleStops(s.w, |code|, inp);
    assert t.procs != [] ==> Step(table, code, s, inp) == RunHead(table, code, t, inp);
    if t.procs != [] && t.procs[0].iptr < |code| {
      FaultBitsNonzero(table, code, |t.w.mem|, t.procs[0].iptr);
      var d := Decode(table, code, |t.w.mem|, t.procs[0].iptr);
      if d.Fault? {
        RaiseNonzero(t.w.exceptions, d.bits);
      } else if d.Decoded? && d.opcode < |table| {
        HaltsFlagged(table[d.opcode], d.operands, t.w, TopOf(t.procs[0].cstack), |code|, inp);
      }
    }
  }

  lemma IdleStops(w: World, codesz: nat, inp: Input)
    ensures Idle(w, codesz, inp).NothingPending? <==> !PendingEvents(w, inp.ioPending)
  {
    hide FireVmEvents;
  }

  // ---- Waking up to nothing

  /**
   * With no procedure left, events wake the machine to an empty list, whose head it then dereferences, exactly when
   * some event is counted and every procedure that the events ask for is at an address outside the code.
   */
  lemma WakesToNothing(table: Table, code: seq<byte>, s: State, inp: Input)
    requires ValidTable(table) && s.procs == []
    ensures var asked := EventRequests(s.w, inp.idle);
            Idle(s.w, |code|, inp).Woken? && Awake(|code|, s, inp).procs == []
            <==>
            && PendingEvents(s.w, inp.ioPending) && EventsDefined(s.w, inp.idle)
            && asked != [] && forall k :: 0 <= k < |asked| ==> asked[k].entry >= |code|
    ensures Idle(s.w, |code|, inp).Woken? && Awake(|code|, s, inp).procs == [] ==> Step(table, code, s, inp).Crashed?
  {
    hide RunHead, FireVmEvents, Admitted, EventRequests, EventsDefined;
    EventsFire(s.w, inp.idle, |code|);
    NoneAdmitted(EventRequests(s.w, inp.idle), |code|);
    EmptyHeadCrashes(table, code, Awake(|code|, s, inp), inp);
  }

  lemma EmptyHeadCrashes(table: Table, code: seq<byte>, t: State, inp: Input)
    requires ValidTable(table)
    ensures t.procs == [] ==> RunHead(table, code, t, inp).Crashed?
  {}

  /**
   * `timeout` refuses only addresses beyond `codesz`: the address `codesz` itself, which no launch admits, is
   * registered.
   */
  lemma TimeoutAccepts(w: World, argv: u32, retv: u32, codesz: nat, clock: Clock)
    requires argv + 12 <= |w.mem| < WORD32 && retv + 8 <= |w.mem| && clock.Now?
    ensures var r := SysTimeout(w, argv, retv, codesz, clock);
            var entry := WordAt(w.mem, argv, 4);
            r.Some? && (r.value.timers != w.timers <==> entry <= codesz)
            && (entry == codesz ==> r.value.timers[|w.timers|].iptr == codesz)
  {
    ModIsRemainder(argv + 12, WORD32, 0, argv + 12);
    ModIsRemainder(retv + 8, WORD32, 0, retv + 8);
    hide ToLE, WordAt, Expiry, Splice;
  }
}
