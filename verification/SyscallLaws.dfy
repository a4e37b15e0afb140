/** What the interpreted system calls do for the program that makes them. */
module SyscallLaws {
  import opened Bytes
  import opened Isa
  import opened Decoder
  import opened Timers
  import opened Children
  import opened World
  import opened EventLaunch

  /** Every check of `timeout` succeeds, and what it reads and writes lies in memory. */
  predicate TimeoutPasses(w: World, argv: u32, retv: u32, codesz: nat, clock: Clock) {
    && DerefOk(argv, 12, |w.mem|) && DerefOk(retv, 8, |w.mem|) && argv + 12 <= |w.mem| && retv + 8 <= |w.mem|
    && Load32(w.mem, argv).value <= codesz && clock.Now?
  }

  /** The word stored as a call's result, where one can be stored. */
  predicate Answers(mem: seq<byte>, retv: u32, failed: bool) {
    DerefOk(retv, 8, |mem|) ==> Load64(mem, retv) == Some(if failed then 1 else 0)
  }

  lemma StoredAnswer(mem: seq<byte>, retv: u32, v: u64)
    requires retv + 8 <= |mem|
    ensures Load64(Splice(mem, retv, ToLE(v, 8)), retv) == Some(v)
  {
    SpliceReads(mem, retv, ToLE(v, 8), retv, 8);
    Capacities();
    LoadFitting(v, 8);
  }

  lemma RefusalAnswers(w: World, errno: u32, retv: u32)
    ensures var r := Refuse(w, errno, retv, DerefOk(retv, 8, |w.mem|));
            r.Some? ==> r.value == w.(errno := errno, mem := r.value.mem) && |r.value.mem| == |w.mem|
                        && Answers(r.value.mem, retv, true)
  {
    hide ToLE, Splice, Load64;
    if retv + 8 <= |w.mem| {
      StoredAnswer(w.mem, retv, 1);
    }
  }

  /**
   * `timeout` answers 0 and registers one timer, for the address and delay in its argument block, exactly when every
   * check passes; otherwise it answers 1 and registers nothing.
   */
  lemma TimeoutRegisters(w: World, argv: u32, retv: u32, codesz: nat, clock: Clock)
    ensures var r := SysTimeout(w, argv, retv, codesz, clock);
            var passes := TimeoutPasses(w, argv, retv, codesz, clock);
            r.Some? ==>
              && r.value == w.(mem := r.value.mem, errno := r.value.errno, timers := r.value.timers)
              && |r.value.mem| == |w.mem| && Answers(r.value.mem, retv, !passes)
              && r.value.errno == (if !DerefOk(argv, 12, |w.mem|) || !DerefOk(retv, 8, |w.mem|) then 14
                                   else if Load32(w.mem, argv).value > codesz then 22
                                   else if clock.ClockError? then clock.errno else w.errno)
              && r.value.timers == if passes
                   then w.timers + [Timer(Expiry(clock.t, Load64(w.mem, argv + 4).value), Load32(w.mem, argv).value)]
                   else w.timers
  {
    hide Expiry, Load32, ToLE, Splice, Answers;
    RefusalAnswers(w, EFAULT, retv);
    RefusalAnswers(w, EINVAL, retv);
    if clock.ClockError? { RefusalAnswers(w, clock.errno, retv); }
    if retv + 8 <= |w.mem| { ZeroAnswer(w.mem, retv); }
  }

  lemma ZeroAnswer(mem: seq<byte>, retv: u32)
    requires retv + 8 <= |mem|
    ensures Answers(Splice(mem, retv, ToLE(0, 8)), retv, false)
  {
    StoredAnswer(mem, retv, 0);
  }

  /** Every check of `onexit` succeeds, what it reads and writes lies in memory, and the child is known. */
  predicate OnExitPasses(w: World, argv: u32, retv: u32, codesz: nat) {
    && DerefOk(argv, 8, |w.mem|) && DerefOk(retv, 8, |w.mem|) && argv + 24 <= |w.mem| && retv + 8 <= |w.mem|
    && DerefOk(Load64(w.mem, argv + 8).value % WORD32, 56, |w.mem|) && Load64(w.mem, argv + 16).value < codesz
    && FindProc(w.kids.slots, Load64(w.mem, argv).value % WORD32, 0) < |w.kids.slots|
  }

  /**
   * `onexit` answers 0 and adds one callback to the child it names exactly when every check passes; otherwise it
   * answers 1 and no child has changed. The callback's address is inside the code, and its argument block passes the
   * check.
   */
  lemma OnExitRegisters(w: World, argv: u32, retv: u32, codesz: nat)
    ensures var r := SysOnExit(w, argv, retv, codesz);
            var passes := OnExitPasses(w, argv, retv, codesz);
            r.Some? ==>
              && r.value.timers == w.timers && r.value.tick == w.tick && |r.value.mem| == |w.mem|
              && (if !DerefOk(argv, 8, |w.mem|) || !DerefOk(retv, 8, |w.mem|) then
                    r.value.errno == 14 && r.value.exceptions == Raise(w.exceptions, E_MEM_FAULT)
                  else
                    r.value.exceptions == w.exceptions
                    && r.value.errno
                       == (if !DerefOk(Load64(w.mem, argv + 8).value % WORD32, 56, |w.mem|) then 14
                           else if Load64(w.mem, argv + 16).value >= codesz then 22
                           else if passes then w.errno else 10))
              && Answers(r.value.mem, retv, !passes)
              && (!passes ==> r.value.kids == w.kids)
              && (passes ==>
                    var cb := Callback(Load64(w.mem, argv + 16).value % WORD32, Load64(w.mem, argv + 8).value % WORD32);
                    && cb.entry == Load64(w.mem, argv + 16).value % WORD32 <= Load64(w.mem, argv + 16).value < codesz
                    && DerefOk(cb.args, 56, |w.mem|)
                    && r.value.kids == AddCallback(w.kids, FindProc(w.kids.slots, Load64(w.mem, argv).value % WORD32,
                                                                    0), cb))
  {
    hide Load64, ToLE, Splice, Answers, AddCallback, FindProc;
    RefusalAnswers(Flag(w, E_MEM_FAULT), EFAULT, retv);
    RefusalAnswers(w, EFAULT, retv);
    RefusalAnswers(w, EINVAL, retv);
    RefusalAnswers(w, ECHILD, retv);
    if retv + 8 <= |w.mem| { ZeroAnswer(w.mem, retv); }
  }

  /** A `connect` may be tried: the checks before it succeed, and what is read lies in memory. */
  predicate ConnectTries(mem: seq<byte>, argv: u32, retv: u32) {
    && DerefOk(argv, 20, |mem|) && DerefOk(retv, 8, |mem|) && argv + 20 <= |mem|
    && DerefOk(Load32(mem, argv + 8).value, 6, |mem|) && Load32(mem, argv + 8).value + 6 <= |mem|
  }

  /** It connects at once, and the callback's argument block passes the check and lies in memory. */
  predicate ConnectPasses(mem: seq<byte>, argv: u32, retv: u32, c: Attempt) {
    && c.Connected? && ConnectTries(mem, argv, retv)
    && DerefOk(Load32(mem, argv + 12).value, 16, |mem|) && Load32(mem, argv + 12).value + 16 <= |mem|
  }

  /**
   * `connect` asks for one procedure, at the address and with the arguments its argument block names, exactly when it
   * connects at once and every check passes; the callback gets the handle and no error. It answers 0 then and when the
   * connection is under way, otherwise 1. The address is not checked: outside the code it only raises a flag.
   */
  lemma ConnectStarts(w: World, argv: u32, retv: u32, codesz: nat, inp: Input)
    ensures var r := SysConnect(w, argv, retv, codesz, inp.attempt);
            var passes := ConnectPasses(w.mem, argv, retv, inp.attempt);
            r.Some? ==>
              && r.value == w.(mem := r.value.mem, errno := r.value.errno, exceptions := r.value.exceptions)
              && |r.value.mem| == |w.mem|
              && Answers(r.value.mem, retv, !passes && !(inp.attempt.UnderWay? && ConnectTries(w.mem, argv, retv)))
              && r.value.errno == (if !DerefOk(argv, 20, |w.mem|) || !DerefOk(retv, 8, |w.mem|) then 14
                                   else if inp.attempt.BadHandle? then 9
                                   else if !ConnectTries(w.mem, argv, retv) then 14
                                   else if inp.attempt.Failed? then inp.attempt.errno
                                   else if passes || inp.attempt.UnderWay? then w.errno else 14)
              && OwnRequests(w, SYS_CONNECT, argv, retv, inp)
                 == (if passes then [Func(Load32(w.mem, argv + 16).value, Load32(w.mem, argv + 12).value, 0)] else [])
              && r.value.exceptions == (if passes && Load32(w.mem, argv + 16).value >= codesz
                                        then Raise(w.exceptions, E_BAD_INSTN_POINTER) else w.exceptions)
              && (passes ==>
                    var args := Load32(w.mem, argv + 12).value;
                    args + 16 <= retv || retv + 8 <= args
                    ==> Load64(r.value.mem, args + 8) == Some(0)
                        && Load64(r.value.mem, args)
                           == Some((Load64(w.mem, argv).value + WORD32 - 1) % WORD32 + 1))
  {
    hide Load32, Load64, ToLE, Splice, Answers, HandleBlock, Raise, Refuse, DerefOk;
    RefusalAnswers(w, EFAULT, retv);
    RefusalAnswers(w, EBADF, retv);
    if inp.attempt.Failed? { RefusalAnswers(w, inp.attempt.errno, retv); }
    if retv + 8 <= |w.mem| { ZeroAnswer(w.mem, retv); }
    var d := Connect(w.mem, argv, retv, inp.attempt);
    if d.Starts? && retv + 8 <= |w.mem| {
      OneRequest(w.(mem := Splice(w.mem, d.args, HandleBlock(d.handle))), Func(d.entry, d.args, 0), codesz);
      ZeroAnswer(Splice(w.mem, d.args, HandleBlock(d.handle)), retv);
      if d.args + 16 <= retv || retv + 8 <= d.args { HandleKept(w.mem, d.args, d.handle, retv); }
    }
  }

  lemma OneRequest(w: World, sp: Spawn, codesz: nat)
    ensures Admit(w, [sp], codesz) == if sp.entry >= codesz then Flag(w, E_BAD_INSTN_POINTER) else w
  {}

  /** The callback's words are there after the answer, unless that is stored over them. */
  lemma HandleKept(mem: seq<byte>, args: u32, handle: u64, retv: u32)
    requires args + 16 <= |mem| && retv + 8 <= |mem| && (args + 16 <= retv || retv + 8 <= args)
    ensures var m := Splice(Splice(mem, args, HandleBlock(handle)), retv, ToLE(0, 8));
            && Load64(m, args) == Some((handle + WORD32 - 1) % WORD32 + 1)
            && Load64(m, args + 8) == Some(0)
  {
    hide ToLE, Splice, HandleBlock;
    var m := Splice(mem, args, HandleBlock(handle));
    SpliceReads(mem, args, HandleBlock(handle), args, 16);
    SpliceReads(m, retv, ToLE(0, 8), args, 16);
    HandleLoads(Splice(m, retv, ToLE(0, 8)), args, handle);
  }

  lemma HandleLoads(m: seq<byte>, args: nat, handle: u64)
    requires args + 16 <= |m| && m[args..args + 16] == HandleBlock(handle)
    ensures Load64(m, args) == Some((handle + WORD32 - 1) % WORD32 + 1) && Load64(m, args + 8) == Some(0)
  {
    hide ToLE;
    var h := (handle + WORD32 - 1) % WORD32 + 1;
    assert m[args..args + 8] == HandleBlock(handle)[..8] == ToLE(h, 8);
    assert m[args + 8..args + 16] == HandleBlock(handle)[8..] == ToLE(0, 8);
    Capacities();
    LoadFitting(h, 8);
    LoadFitting(0, 8);
  }

  // ---- What changes registrations

  /** Only a system call touches what is registered for later. */
  lemma DataKeepsRegistrations(op: Op, os: seq<Operand>, w: World, top: Option<Top>, codesz: nat, inp: Input)
    requires |os| == Arity(op) && !op.Syscall?
    ensures var e := Effects(op, os, w, top, codesz, inp);
            !e.Undefined? ==> e.w.timers == w.timers && e.w.kids == w.kids && !e.Sys? && (e.Halt? ==> e.spawns == [])
  {
    hide Alu2, ToLE, Load32, Load64, Raise, Splice;
  }

  lemma SyscallHandler(os: seq<Operand>, w: World, top: Option<Top>, codesz: nat, inp: Input)
    requires |os| == 3
    ensures Effects(Syscall, os, w, top, codesz, inp) == SyscallEffect(w, os, codesz, inp)
  {}

  lemma AddedCallback(t: ChildTable, q: nat, new1: Callback, cb: Callback)
    requires q < |t.slots|
    ensures HasCallback(AddCallback(t, q, new1), cb) <==> HasCallback(t, cb) || cb == new1
  {
    var u := AddCallback(t, q, new1);
    assert u.slots[q].cbs == t.slots[q].cbs + [new1];
    if k :| 0 <= k < |t.slots| && cb in t.slots[k].cbs {
      assert cb in u.slots[k].cbs;
    }
    if k :| 0 <= k < |u.slots| && cb in u.slots[k].cbs {
      assert k != q ==> cb in t.slots[k].cbs;
    }
  }

  lemma SavedChildCallbacks(t: ChildTable, pid: u32, cb: Callback)
    ensures var u := SaveChild(t, pid);
            u.Some? && HasCallback(u.value, cb) ==> HasCallback(t, cb)
  {
    var slots := Roomy(t);
    var u := SaveChild(t, pid);
    if u.Some? {
      if k :| 0 <= k < |u.value.slots| && cb in u.value.slots[k].cbs {
        assert k < |t.slots| && cb in t.slots[k].cbs;
      }
    }
  }
}
