/**
 * The virtual machine as an object whose methods update its fields, arrays and lists, proved against the byte
 * machine.
 */
module VmExec {
  import opened Bytes
  import opened Isa
  import opened Decoder
  import opened Timers
  import opened Children
  import opened World
  import opened EventLaunch
  import Spec = World
  import opened ByteMachine
  import Scheduler
  import SyscallLaws

  /** A handler returned 0, returned -1, or reached outside memory. */
  datatype Outcome = Proceeded | GaveUp | WentWild

  datatype LoopStatus = GoesOn | Left | Broke

  class Vm {
    const table: Table
    const code: seq<byte>
    const sched: Scheduler.Runnable   // the list of procedures; the head is running

    var memory: array<byte>
    var exceptions: u32
    var errorNo: u32
    var assertId: u64
    var timers: array<Timer>
    var childProc: seq<Child>
    var nProc: int
    var nExitCallbacks: int
    var sinceCleanup: nat
    var iptr: nat               // address of the instruction being executed
    var instns: nat

    constructor (table: Table, code: seq<byte>, bytes: seq<byte>)
      requires ValidTable(table)
      ensures Valid() && this.table == table && this.code == code && fresh(timers) && fresh(memory)
          && fresh(sched.Repr())
      ensures TheState() == State(World(bytes, 0, 0, 0, [], ChildTable([], 0, 0), 0), [])
    {
      this.table, this.code := table, code;
      sched := new Scheduler.Runnable();
      memory := new byte[|bytes|](k requires 0 <= k < |bytes| => bytes[k]);
      exceptions, errorNo, assertId := 0, 0, 0;
      timers := new Timer[0];
      childProc, nProc, nExitCallbacks, sinceCleanup := [], 0, 0, 0;
      iptr, instns := 0, 0;
      new;
      hide Scheduler.Runnable.Valid;
      assert memory[..] == bytes && timers[..] == [];
    }

    /** The list is sound, and shares nothing with the rest of the machine. */
    ghost predicate Valid()
      reads this, sched, sched.Repr()
    {
      ValidTable(table) && sched.Valid()
      && this !in sched.Repr() && timers !in sched.Repr() && memory !in sched.Repr()
    }

    /** What every method keeps: a sound machine, made of what it was made of and of what was allocated since. */
    twostate predicate Held()
      reads this, sched, sched.Repr()
    {
      && Valid() && fresh(sched.Repr() - old(sched.Repr()))
      && (timers == old(timers) || fresh(timers)) && (memory == old(memory) || fresh(memory))
    }

    ghost function TheWorld(): World
      reads this, timers, memory
    {
      World(memory[..], exceptions, errorNo, assertId, timers[..], ChildTable(childProc, nProc, nExitCallbacks),
            sinceCleanup)
    }

    ghost function TheState(): State
      reads this, timers, memory, sched
    {
      State(TheWorld(), sched.procs)
    }

    // ---- Procedures

    method MakeProcedure(entry: u32) returns (ok: bool)
      requires Valid()
      modifies this`exceptions, sched.Repr()
      ensures Held() && (ok <==> entry < |code|)
      ensures TheWorld() == if ok then old(TheWorld()) else Flag(old(TheWorld()), E_BAD_INSTN_POINTER)
      ensures sched.procs == if ok then old(sched.procs) + [Proc(entry, [])] else old(sched.procs)
    {
      hide Scheduler.Runnable.Valid, Raise;
      if entry >= |code| {
        exceptions := Raise(exceptions, E_BAD_INSTN_POINTER);
        return false;
      }
      var t := sched.MakeProcedure(entry);
      return true;
    }

    method MakeFuncProcedure(entry: u32, argv: u32, retv: u32) returns (ok: bool)
      requires Valid()
      modifies this`exceptions, sched.Repr()
      ensures Held() && (ok <==> entry < |code|)
      ensures TheWorld() == if ok then old(TheWorld()) else Flag(old(TheWorld()), E_BAD_INSTN_POINTER)
      ensures sched.procs
              == if ok then old(sched.procs) + [Proc(entry, [Frame(retv, argv, NONE32)])] else old(sched.procs)
    {
      hide Scheduler.Runnable.Valid, Raise;
      if entry >= |code| {
        exceptions := Raise(exceptions, E_BAD_INSTN_POINTER);
        return false;
      }
      sched.MakeFuncProcedure(entry, Frame(retv, argv, NONE32));
      return true;
    }

    // ---- Timers

    method FireTimerEvents(clock: Clock) returns (events: nat)
      requires Valid()
      modifies this`errorNo, this`timers, this`exceptions, sched.Repr(), timers
      ensures Held()
      ensures var f := Spec.FireTimerEvents(old(TheWorld()), clock, |code|);
              TheWorld() == f.w && sched.procs == old(sched.procs) + NewProcs(f.spawns) && events == f.events
    {
      hide Scheduler.Runnable.Valid, Sweep, Admit, Admitted, NewProcs, Launched;
      var now := Timespec(0, 0);
      if clock.Now? { now := clock.t; } else { errorNo := clock.errno; }
      ghost var (left, fired) := Sweep(timers[..], 0, now);
      ghost var w := TheWorld();
      events := SweepTimers(now);
      AdmitFlags(w, w.(timers := left), Launched(fired), |code|);
    }

    /** The flags and procedures after launching `fired`, from world `w` and procedures `procs`. */
    ghost predicate HasLaunched(w: World, procs: seq<Proc>, fired: seq<Timer>)
      reads this`exceptions, sched`procs
    {
      exceptions == Admit(w, Launched(fired), |code|).exceptions
      && sched.procs == procs + NewProcs(Admitted(Launched(fired), |code|))
    }

    method LaunchTimer(t: Timer, ghost w: World, ghost procs: seq<Proc>, ghost fired: seq<Timer>)
      requires Valid() && HasLaunched(w, procs, fired)
      modifies this`exceptions, sched.Repr()
      ensures Held() && HasLaunched(w, procs, fired + [t])
    {
      hide Scheduler.Runnable.Valid, Admit, Admitted, NewProcs, Launched, Raise;
      LaunchOneMore(w, fired, t, |code|);
      var ok := MakeProcedure(t.iptr);
    }

    /** Timer `i` of the first `n` is overwritten by the last of them. */
    method SwapOut(i: nat, n: nat)
      requires i < n <= timers.Length
      modifies timers
      ensures timers[..n - 1] == SwapRemove(old(timers[..n]), i)
    {
      if i + 1 < n {
        timers[i] := timers[n - 1];
      }
    }

    /** `realloc` to the first `n` timers. */
    method KeepTimers(n: nat)
      requires n <= timers.Length
      modifies this`timers
      ensures timers == old(timers) || fresh(timers)
      ensures timers.Length == n && timers[..] == old(timers[..n])
    {
      if n != timers.Length {
        var kept := new Timer[n];
        forall k | 0 <= k < n {
          kept[k] := timers[k];
        }
        timers := kept;
      }
    }

    /** The loop over the timers, removing each that is due by moving the last one into its place. */
    method SweepTimers(now: Timespec) returns (events: nat)
      requires Valid()
      modifies this`timers, this`exceptions, sched.Repr(), timers
      ensures Held()
      ensures var (left, fired) := Sweep(old(timers[..]), 0, now);
              && timers[..] == left && events == |fired|
              && HasLaunched(old(TheWorld()), old(sched.procs), fired)
    {
      hide Scheduler.Runnable.Valid, Sweep, HasLaunched, SwapRemove;
      events := 0;
      var n := timers.Length;
      var i := 0;
      ghost var w, procs, goal := TheWorld(), sched.procs, Sweep(timers[..], 0, now);
      ghost var fired: seq<Timer> := [];
      LaunchedNone();
      assert timers[..n] == timers[..];
      PrefixNone(goal);
      while i < n
        invariant 0 <= i <= n <= timers.Length && timers == old(timers) && Held()
        invariant goal == Prefixed(fired, Sweep(timers[..n], i, now))
        invariant events == |fired|
        invariant HasLaunched(w, procs, fired)
        decreases n - i, n
      {
        SweepUnfold(timers[..n], i, now, fired);
        if Due(now, timers[i]) {
          events := events + 1;
          LaunchTimer(timers[i], w, procs, fired);
          fired := fired + [timers[i]];
          SwapOut(i, n);
          n := n - 1;
          i := i - 1;   // unsigned in the source: at 0 this wraps, and the increment below wraps it back
        }
        i := i + 1;
      }
      SweepDone(timers[..n], fired, now);
      KeepTimers(n);
    }

    lemma LaunchedNone()
      ensures HasLaunched(TheWorld(), sched.procs, [])
    {
      LaunchNone(TheWorld(), |code|);
    }

    // ---- Files and sockets

    /** The world and the procedures are what `f` says, on top of the procedures `procs`. */
    ghost predicate Shows(f: Fired, procs: seq<Proc>)
      reads this, timers, memory, sched
    {
      f.Fired? && TheWorld() == f.w && sched.procs == procs + NewProcs(f.spawns)
    }

    /** Bytes the outside changed in memory. */
    method CopyIn(bytes: seq<byte>)
      requires |bytes| == memory.Length
      modifies memory
      ensures memory[..] == bytes
    {
      forall k | 0 <= k < |bytes| {
        memory[k] := bytes[k];
      }
    }

    /** File and socket events as the outside supplies them: changed bytes, an error number, callbacks. */
    method FireIoEvents(io: Io, ghost f: Fired, ghost procs: seq<Proc>) returns (events: nat)
      requires Valid() && Shows(f, procs)
      modifies memory, this`errorNo, this`exceptions, sched.Repr()
      ensures Held() && Shows(After(f, Spec.FireIoEvents(f.w, io, |code|)), procs)
      ensures events == |io.spawns|
    {
      hide Scheduler.Runnable.Valid, Admit, Admitted, NewProcs;
      if |io.mem| == memory.Length { CopyIn(io.mem); }
      errorNo := io.errno;
      ghost var w := TheWorld();
      LaunchSpawns(io.spawns);
      events := |io.spawns|;
      NewProcsConcat(f.spawns, Admitted(io.spawns, |code|));
    }

    /** The first `k` requests have been dealt with, from world `w` and procedures `start`. */
    ghost predicate Launching(w: World, start: seq<Proc>, spawns: seq<Spawn>, k: nat)
      requires k <= |spawns|
      reads this, timers, memory, sched
    {
      && TheWorld() == Admit(w, spawns[..k], |code|)
      && sched.procs == start + NewProcs(Admitted(spawns[..k], |code|))
    }

    method LaunchNext(ghost w: World, ghost start: seq<Proc>, spawns: seq<Spawn>, k: nat)
      requires Valid() && k < |spawns| && Launching(w, start, spawns, k)
      modifies this`exceptions, sched.Repr()
      ensures Held() && Launching(w, start, spawns, k + 1)
    {
      hide Scheduler.Runnable.Valid, Admit, Admitted, NewProcs, Flag;
      AdmitOneMore(w, spawns, k, |code|);
      var ok := LaunchSpawn(spawns[k]);
    }

    method LaunchSpawns(spawns: seq<Spawn>)
      requires Valid()
      modifies this`exceptions, sched.Repr()
      ensures Held() && TheWorld() == Admit(old(TheWorld()), spawns, |code|)
      ensures sched.procs == old(sched.procs) + NewProcs(Admitted(spawns, |code|))
    {
      ghost var w, start := TheWorld(), sched.procs;
      hide Scheduler.Runnable.Valid, Admit, Admitted, NewProcs;
      AdmitNone(w, |code|);
      assert spawns[..0] == [] && spawns[..|spawns|] == spawns;
      for k := 0 to |spawns|
        invariant Held() && Launching(w, start, spawns, k)
      {
        LaunchNext(w, start, spawns, k);
      }
    }

    method LaunchSpawn(sp: Spawn) returns (ok: bool)
      requires Valid()
      modifies this`exceptions, sched.Repr()
      ensures Held() && (ok <==> sp.entry < |code|)
      ensures TheWorld() == if ok then old(TheWorld()) else Flag(old(TheWorld()), E_BAD_INSTN_POINTER)
      ensures sched.procs == if ok then old(sched.procs) + [NewProc(sp)] else old(sched.procs)
    {
      hide Scheduler.Runnable.Valid, Raise;
      if sp.Plain? {
        ok := MakeProcedure(sp.entry);
      } else {
        ok := MakeFuncProcedure(sp.entry, sp.argv, sp.retv);
      }
    }

    // ---- Child processes

    /** `find_proc`: the slot of the child with this pid, or the number of slots. */
    method FindChild(pid: u32) returns (p: nat)
      ensures p == FindProc(childProc, pid, 0)
    {
      p := 0;
      while p < |childProc|
        invariant p <= |childProc| && FindProc(childProc, pid, 0) == FindProc(childProc, pid, p)
      {
        if childProc[p].used && childProc[p].pid == pid { return; }
        p := p + 1;
      }
    }

    /** `save_child_proc`: grow the slots if all are taken, then use the first free one; false is the abort. */
    method SaveChildProc(pid: u32) returns (ok: bool)
      modifies this`childProc, this`nProc
      ensures var r := SaveChild(old(ChildTable(childProc, nProc, nExitCallbacks)), pid);
              ok == r.Some? && (ok ==> ChildTable(childProc, nProc, nExitCallbacks) == r.value)
    {
      if nProc >= |childProc| {
        childProc := childProc + seq(PROC_ALLOC, _ => FREE_SLOT);
      }
      var p := 0;
      while p < |childProc|
        invariant p <= |childProc| && FirstFree(childProc, 0) == FirstFree(childProc, p)
      {
        if !childProc[p].used {
          childProc := childProc[p := Child(true, pid, [])];
          nProc := nProc + 1;
          return true;
        }
        p := p + 1;
      }
      return false;
    }

    /** An n-byte word stored in place. */
    method PutBytes(at: nat, n: nat, v: nat)
      requires at + n <= memory.Length
      modifies memory
      ensures memory[..] == Splice(old(memory[..]), at, ToLE(v, n))
    {
      var word := ToLE(v, n);
      forall k | 0 <= k < n {
        memory[at + k] := word[k];
      }
    }

    /** The seven words of a status block, one after the other. */
    method PutStatus(at: nat, pid: u32, s: Status)
      requires at + 56 <= memory.Length
      modifies memory
      ensures memory[..] == Splice(old(memory[..]), at, StatusBlock(pid, s))
    {
      var words: seq<u64> := [pid, s.exited, s.exitStatus, s.signaled, s.termSig, s.stopped, s.continued];
      ghost var before := memory[..];
      BlockOfWords(pid, s);
      hide ToLE, Splice, StatusBlock, WordBytes;
      NoWords(before, at);
      for i := 0 to 7
        invariant memory[..] == Splice(before, at, WordBytes(words[..i]))
      {
        WordsStep(words, i);
        PutBytes(at + 8 * i, 8, words[i]);
        SpliceOnward(before, at, WordBytes(words[..i]), ToLE(words[i], 8));
      }
      assert words[..7] == words;
    }

    method FireOneCallback(cb: Callback, pid: u32, s: Status, ghost f: Fired, ghost procs: seq<Proc>)
      returns (events: nat, wild: bool)
      requires Valid() && Shows(f, procs)
      modifies memory, this`exceptions, sched.Repr()
      ensures var g := FireCallback(f.w, cb, pid, s, |code|);
              && wild == g.FiredUndefined?
              && (!wild ==> Held() && Shows(After(f, g), procs) && events == g.events)
    {
      hide Scheduler.Runnable.Valid, StatusBlock, Splice, Raise;
      assert f.spawns + [] == f.spawns;
      if !DerefOk(cb.args, 56, memory.Length) {
        exceptions := Raise(exceptions, E_MEM_FAULT);
        return 0, false;
      }
      if cb.args + 56 > memory.Length { return 0, true; }
      PutStatus(cb.args, pid, s);
      var ok := MakeFuncProcedure(cb.entry, cb.args, 0);
      NewProcsConcat(f.spawns, [Func(cb.entry, cb.args, 0)]);
      return 1, false;
    }

    /** `fire_events_of_proc`. */
    method FireEventsOfProc(p: nat, pid: u32, s: Status, ghost f: Fired, ghost procs: seq<Proc>)
      returns (events: nat, wild: bool)
      requires Valid() && p < |childProc| && Shows(f, procs)
      modifies memory, this`exceptions, sched.Repr()
      ensures var g := FireCallbacks(f, childProc[p].cbs, 0, pid, s, |code|);
              && wild == g.FiredUndefined?
              && (!wild ==> Held() && Shows(g, procs) && f.events + events == g.events)
    {
      hide Scheduler.Runnable.Valid, FireCallback, NewProcs;
      var cbs := childProc[p].cbs;
      ghost var now, goal := f, FireCallbacks(f, cbs, 0, pid, s, |code|);
      events := 0;
      for c := 0 to |cbs|
        invariant Held() && Shows(now, procs) && now.events == f.events + events
        invariant goal == FireCallbacks(now, cbs, c, pid, s, |code|)
      {
        ghost var g := FireCallback(now.w, cbs[c], pid, s, |code|);
        var n, bad := FireOneCallback(cbs[c], pid, s, now, procs);
        if bad { return events, true; }
        events := events + n;
        now := After(now, g);
      }
      wild := false;
    }

    /** One reported child: its callbacks fire, and if it terminated its slot is given up. */
    method FireChild(p: nat, pid: u32, s: Status, ghost f: Fired, ghost procs: seq<Proc>)
      returns (events: nat, wild: bool)
      requires Valid() && p < |childProc| && Shows(f, procs)
      modifies memory, this`exceptions, sched.Repr(), this`childProc, this`nProc, this`nExitCallbacks
      ensures var g := ReapChild(f, p, pid, s, |code|);
              && wild == g.FiredUndefined?
              && (!wild ==> Held() && Shows(g, procs) && f.events + events == g.events)
    {
      hide Scheduler.Runnable.Valid, FireCallbacks, NewProcs;
      events, wild := FireEventsOfProc(p, pid, s, f, procs);
      if !wild && Terminated(s) {
        GiveUpSlot(p);
      }
    }

    /** `fire_proc_events`: children are reaped until there is none to report. */
    method FireProcEvents(waits: seq<Wait>, ghost f: Fired, ghost procs: seq<Proc>) returns (events: nat, wild: bool)
      requires Valid() && Shows(f, procs)
      modifies memory, this`errorNo, this`exceptions, sched.Repr(), this`childProc, this`nProc, this`nExitCallbacks
      ensures var g := Spec.FireProcEvents(f, waits, 0, |code|);
              && wild == g.FiredUndefined?
              && (!wild ==> Held() && Shows(g, procs) && f.events + events == g.events)
    {
      hide Scheduler.Runnable.Valid, ReapChild, NewProcs;
      ghost var now := f;
      var k := 0;
      events, wild := 0, false;
      while nProc != 0 && k < |waits| && !waits[k].NoChild?
        invariant k <= |waits| && Held() && Shows(now, procs) && now.events == f.events + events
        invariant Spec.FireProcEvents(f, waits, 0, |code|) == Spec.FireProcEvents(now, waits, k, |code|)
        decreases |waits| - k
      {
        if waits[k].WaitError? {
          errorNo := waits[k].errno;
          return;
        }
        var p := FindChild(waits[k].pid);
        if p == |childProc| { return; }
        var n, bad := FireChild(p, waits[k].pid, waits[k].status, now, procs);
        if bad { return events, true; }
        events := events + n;
        now := ReapChild(now, p, waits[k].pid, waits[k].status, |code|);
        k := k + 1;
      }
    }

    /** A terminated child's callbacks are freed and uncounted, and its slot is free again. */
    method GiveUpSlot(p: nat)
      requires p < |childProc|
      modifies this`childProc, this`nProc, this`nExitCallbacks
      ensures ChildTable(childProc, nProc, nExitCallbacks)
              == Release(old(ChildTable(childProc, nProc, nExitCallbacks)), p)
    {
      var ch := childProc[p];
      if |ch.cbs| > 0 {
        nExitCallbacks := nExitCallbacks - |ch.cbs|;
        ch := ch.(cbs := []);
      }
      childProc := childProc[p := ch.(used := false)];
      nProc := nProc - 1;
    }

    /** `fire_vm_events`. */
    method FireVmEvents(e: Events) returns (events: nat, wild: bool)
      requires Valid()
      modifies this, memory, timers, sched.Repr()
      ensures var g := Spec.FireVmEvents(old(TheWorld()), e, |code|);
              && wild == g.FiredUndefined?
              && (!wild ==> Held() && Shows(g, old(sched.procs)) && events == g.events)
    {
      hide Scheduler.Runnable.Valid, NewProcs, Spec.FireTimerEvents, Spec.FireIoEvents, Spec.FireProcEvents;
      ghost var t := Spec.FireTimerEvents(TheWorld(), e.clock, |code|);
      ghost var procs := sched.procs;
      var n1 := FireTimerEvents(e.clock);
      ghost var i := Spec.FireIoEvents(t.w, e.io, |code|);
      var n2 := FireIoEvents(e.io, t, procs);
      var n3;
      n3, wild := FireProcEvents(e.waits, After(t, i), procs);
      IoEventCount(t.w, e.io, |code|);
      events := n1 + n2 + n3;
    }

    // ---- Instruction handlers

    /** The handler did what effect `e` says, starting from the procedures `before`. */
    twostate predicate Did(e: Effect, before: seq<Proc>, o: Outcome)
      requires before != []
      reads this, timers, memory, sched, sched.Repr()
    {
      if e.Undefined? then o.WentWild?
      else if e.Halt? then o.GaveUp? && Held() && TheWorld() == e.w && sched.procs == before + NewProcs(e.spawns)
      else o.Proceeded? && Held() && TheWorld() == e.w && sched.procs == Apply(e, before[0], before[1..])
    }

    method StoreWord(at: nat, n: nat, v: nat) returns (o: Outcome)
      requires Valid() && sched.procs != []
      modifies memory
      ensures Did(Done(Store(old(TheWorld()), at, n, v)), sched.procs, o)
    {
      hide Scheduler.Runnable.Valid, ToLE, Splice;
      if at + n > memory.Length { return WentWild; }
      PutBytes(at, n, v);
      return Proceeded;
    }

    method PutWord(dest: Operand, n: nat, v: nat) returns (o: Outcome)
      requires Valid() && sched.procs != []
      modifies memory
      ensures Did(Done(Put(old(TheWorld()), dest, n, v)), sched.procs, o)
    {
      hide Scheduler.Runnable.Valid, ToLE, Splice;
      if !dest.RefPtr? { return WentWild; }
      o := StoreWord(dest.addr, n, v);
    }

    method RaiseFlags(bits: u32) returns (o: Outcome)
      requires Valid() && sched.procs != []
      modifies this`exceptions
      ensures Did(Fail(old(TheWorld()), bits), sched.procs, o)
    {
      hide Scheduler.Runnable.Valid, Raise;
      exceptions := Raise(exceptions, bits);
      return GaveUp;
    }

    /** Arithmetic, bitwise, relational and logical instructions with a result to store. */
    method OpBinary(f: BinOp, dest: Operand, x: Option<u64>, y: Option<u64>) returns (o: Outcome)
      requires Valid() && sched.procs != []
      modifies memory, this`exceptions
      ensures Did(PutBin(old(TheWorld()), dest, Bin(f, x, y)), sched.procs, o)
    {
      hide Scheduler.Runnable.Valid, Bin, Put, Raise;
      match Bin(f, x, y) {
        case BinUndefined => o := WentWild;
        case BinFault => o := RaiseFlags(E_ARITHMETIC);
        case BinValue(v) => o := PutWord(dest, 8, v);
      }
    }

    /** The other ones: a result to store, unless reading the operand went wild. */
    method OpUnary(dest: Operand, r: Option<u64>) returns (o: Outcome)
      requires Valid() && sched.procs != []
      modifies memory
      ensures Did(if r.None? then Undefined else Done(Put(old(TheWorld()), dest, 8, r.value)), sched.procs, o)
    {
      hide Scheduler.Runnable.Valid, Put;
      if r.None? { return WentWild; }
      o := PutWord(dest, 8, r.value);
    }

    /** `memcpy`, byte by byte, between ranges that do not overlap. */
    method CopyBytes(d: nat, s: nat, n: nat)
      requires d + n <= memory.Length && s + n <= memory.Length && (d + n <= s || s + n <= d)
      modifies memory
      ensures memory[..] == Splice(old(memory[..]), d, old(memory[s..s + n]))
    {
      ghost var before := memory[..];
      for k := 0 to n
        invariant memory[..] == Splice(before, d, before[s..s + k])
      {
        ghost var now := memory[..];
        memory[d + k] := memory[s + k];
        CopyOnward(before, d, s, k);
        assert memory[..] == now[d + k := now[s + k]];
      }
    }

    method OpCopy(os: seq<Operand>) returns (o: Outcome)
      requires Valid() && sched.procs != [] && |os| == 3
      modifies memory
      ensures Did(CopyEffect(old(TheWorld()), os), sched.procs, o)
    {
      hide Scheduler.Runnable.Valid, ArgValue, Splice;
      var n := ArgValue(os[2], memory[..]);
      if n.None? || !os[0].RefPtr? || !os[1].RefPtr? { return WentWild; }
      var d, s, k := os[0].addr, os[1].addr, n.value;
      if d + k > memory.Length || s + k > memory.Length || (k > 0 && d < s + k && s < d + k) { return WentWild; }
      if k > 0 { CopyBytes(d, s, k); } else { NothingCopied(memory[..], d, s); }
      return Proceeded;
    }

    method OpRead(width: nat, os: seq<Operand>) returns (o: Outcome)
      requires Valid() && sched.procs != [] && |os| == 3
      modifies memory, this`exceptions
      ensures Did(ReadEffect(old(TheWorld()), width, os), sched.procs, o)
    {
      hide Scheduler.Runnable.Valid, Load32, ArgValue, Put, Raise;
      var base := if os[1].RefPtr? then Load32(memory[..], os[1].addr) else None;
      var offset := ArgValue(os[2], memory[..]);
      if base.None? || offset.None? { return WentWild; }
      var at := Sum32(base.value, offset.value);
      if !DerefOk(at, width, memory.Length) {
        o := RaiseFlags(E_MEM_FAULT);
        return;
      }
      var v := Load(memory[..], at, width);
      if v.None? { return WentWild; }
      o := PutWord(os[0], width, v.value);
    }

    method OpWrite(width: nat, os: seq<Operand>) returns (o: Outcome)
      requires Valid() && sched.procs != [] && |os| == 3
      modifies memory, this`exceptions
      ensures Did(WriteEffect(old(TheWorld()), width, os), sched.procs, o)
    {
      hide Scheduler.Runnable.Valid, ArgValue, Store, Raise;
      var base := ArgValue(os[0], memory[..]);
      var offset := ArgValue(os[1], memory[..]);
      if base.None? || offset.None? { return WentWild; }
      var at := Sum32(base.value, offset.value);
      if !DerefOk(at, width, memory.Length) {
        o := RaiseFlags(E_MEM_FAULT);
        return;
      }
      var v := ArgValue(os[2], memory[..]);
      if v.None? { return WentWild; }
      o := StoreWord(at, width, v.value);
    }

    /** `do_jump`. */
    method DoJump(target: Option<u64>) returns (o: Outcome)
      requires Valid() && sched.procs != []
      modifies this`exceptions, sched.Repr()
      ensures Did(JumpEffect(old(TheWorld()), target, |code|), old(sched.procs), o)
    {
      hide Scheduler.Runnable.Valid, Raise;
      if target.None? { return WentWild; }
      var to := target.value % WORD32;
      if to >= |code| {
        exceptions := Raise(exceptions, E_BAD_INSTN_POINTER);
        return GaveUp;
      }
      sched.SetIptr(to);
      return Proceeded;
    }

    method OpBranch(os: seq<Operand>, on: bool) returns (o: Outcome)
      requires Valid() && sched.procs != [] && |os| == 2
      modifies this`exceptions, sched.Repr()
      ensures Did(BranchEffect(old(TheWorld()), os, on, |code|), old(sched.procs), o)
    {
      hide Scheduler.Runnable.Valid, ArgValue, JumpEffect, Raise;
      var c := ArgValue(os[1], memory[..]);
      if c.None? { return WentWild; }
      if (c.value != 0) == on {
        o := DoJump(ArgValue(os[0], memory[..]));
      } else {
        o := Proceeded;
      }
    }

    method OpCall(os: seq<Operand>) returns (o: Outcome)
      requires Valid() && sched.procs != [] && |os| == 3
      modifies sched.Repr()
      ensures Did(CallEffect(old(TheWorld()), os), old(sched.procs), o)
    {
      hide Scheduler.Runnable.Valid, ArgValue;
      var t, a, r := ArgValue(os[0], memory[..]), ArgValue(os[1], memory[..]), ArgValue(os[2], memory[..]);
      if t.None? || a.None? || r.None? { return WentWild; }
      var at := sched.HeadIptr();
      sched.PushFrame(Frame(r.value % WORD32, a.value % WORD32, at % WORD32));
      sched.SetIptr(t.value % WORD32);
      return Proceeded;
    }

    method OpRet() returns (o: Outcome)
      requires Valid() && sched.procs != []
      modifies sched.Repr()
      ensures Did(Leave(old(TheWorld())), old(sched.procs), o)
    {
      hide Scheduler.Runnable.Valid;
      o := Proceeded;
      var empty, top := sched.TopFrame();
      if empty {
        sched.DeleteCurrent();
        return;
      }
      var retAddress := sched.PopFrame();
      if retAddress == NONE32 {
        sched.DeleteCurrent();
        return;
      }
      sched.SetIptr(retAddress);
    }

    method OpArgv(os: seq<Operand>) returns (o: Outcome)
      requires Valid() && sched.procs != [] && |os| == 1
      modifies memory
      ensures Did(ArgvEffect(old(TheWorld()), os, TopOf(sched.procs[0].cstack)), sched.procs, o)
    {
      hide Scheduler.Runnable.Valid, Put;
      var args: u32 := 0;
      var empty, top := sched.TopFrame();
      if !empty { args := top.args; }
      o := PutWord(os[0], 4, args);
    }

    method OpAbrt(os: seq<Operand>) returns (o: Outcome)
      requires Valid() && sched.procs != [] && |os| == 1
      modifies this`exceptions
      ensures var bits := ArgValue(os[0], memory[..]);
              Did(if bits.None? then Undefined else Fail(old(TheWorld()), bits.value % WORD32), sched.procs, o)
    {
      hide Scheduler.Runnable.Valid, ArgValue, Raise;
      var bits := ArgValue(os[0], memory[..]);
      if bits.None? { return WentWild; }
      o := RaiseFlags(bits.value % WORD32);
    }

    method OpAssert(os: seq<Operand>) returns (o: Outcome)
      requires Valid() && sched.procs != [] && |os| == 2
      modifies this`exceptions, this`assertId
      ensures Did(AssertEffect(old(TheWorld()), os), sched.procs, o)
    {
      hide Scheduler.Runnable.Valid, ArgValue, Raise;
      var c := ArgValue(os[1], memory[..]);
      if c.None? { return WentWild; }
      if c.value == 0 { return Proceeded; }
      var id := ArgValue(os[0], memory[..]);
      if id.None? { return WentWild; }
      assertId := id.value;
      o := RaiseFlags(E_ASSERT_FAILED);
    }

    lemma NothingDone(procs: seq<Proc>)
      requires Valid() && procs == sched.procs != []
      ensures Did(Next(TheWorld()), procs, Proceeded)
    {}

    method OpRetv(os: seq<Operand>) returns (o: Outcome)
      requires Valid() && sched.procs != [] && |os| == 1
      modifies memory, this`exceptions
      ensures Did(RetvEffect(old(TheWorld()), os, TopOf(sched.procs[0].cstack)), sched.procs, o)
    {
      hide Scheduler.Runnable.Valid, ArgValue, Store, Raise;
      var empty, top := sched.TopFrame();
      if empty || !DerefOk(top.retval, 8, memory.Length) {
        o := RaiseFlags(E_MEM_FAULT);
        return;
      }
      var v := ArgValue(os[0], memory[..]);
      if v.None? { return WentWild; }
      o := StoreWord(top.retval, 8, v.value);
    }

    // ---- System calls

    /** A call's result on the world; no result is an access outside memory, or an abort. */
    twostate predicate Called(r: Option<World>, ok: bool)
      reads this, timers, memory, sched, sched.Repr()
    {
      ok == r.Some? && (ok ==> Held() && TheWorld() == r.value)
    }

    method RefuseCall(errno: u32, retv: u32, retOk: bool) returns (ok: bool)
      requires Valid()
      modifies memory, this`errorNo
      ensures Called(Refuse(old(TheWorld()), errno, retv, retOk), ok)
    {
      hide Scheduler.Runnable.Valid, ToLE, Splice;
      errorNo := errno;
      if !retOk { return true; }
      if retv + 8 > memory.Length { return false; }
      PutBytes(retv, 8, 1);
      return true;
    }

    /** `realloc` to one timer more. */
    method MakeVmTimer(expires: Timespec, entry: u32)
      modifies this`timers
      ensures fresh(timers) && timers[..] == old(timers[..]) + [Timer(expires, entry)]
    {
      var n := timers.Length;
      var more := new Timer[n + 1];
      forall k | 0 <= k < n {
        more[k] := timers[k];
      }
      more[n] := Timer(expires, entry);
      timers := more;
    }

    method SysTimeout(argv: u32, retv: u32, clock: Clock) returns (ok: bool)
      requires Valid()
      modifies memory, this`errorNo, this`timers
      ensures Called(Spec.SysTimeout(old(TheWorld()), argv, retv, |code|, clock), ok)
    {
      hide Scheduler.Runnable.Valid, ToLE, Splice, Load32, Load64;
      var retOk := DerefOk(retv, 8, memory.Length);
      if !DerefOk(argv, 12, memory.Length) || !retOk {
        ok := RefuseCall(EFAULT, retv, retOk);
        return;
      }
      var entry, millis := Load32(memory[..], argv), Load64(memory[..], argv + 4);
      if entry.None? || millis.None? { return false; }
      if entry.value > |code| {
        ok := RefuseCall(EINVAL, retv, true);
        return;
      }
      if clock.ClockError? {
        ok := RefuseCall(clock.errno, retv, true);
        return;
      }
      MakeVmTimer(Expiry(clock.t, millis.value), entry.value);
      if retv + 8 > memory.Length { return false; }
      PutBytes(retv, 8, 0);
      return true;
    }

    method SysOnExit(argv: u32, retv: u32) returns (ok: bool)
      requires Valid()
      modifies memory, this`errorNo, this`exceptions, this`childProc, this`nExitCallbacks
      ensures Called(Spec.SysOnExit(old(TheWorld()), argv, retv, |code|), ok)
    {
      hide Scheduler.Runnable.Valid, ToLE, Splice, Load64, Raise;
      var retOk := DerefOk(retv, 8, memory.Length);
      if !DerefOk(argv, 8, memory.Length) || !retOk {
        exceptions := Raise(exceptions, E_MEM_FAULT);
        ok := RefuseCall(EFAULT, retv, retOk);
        return;
      }
      var pid, args, entry := Load64(memory[..], argv), Load64(memory[..], argv + 8), Load64(memory[..], argv + 16);
      if pid.None? || args.None? || entry.None? { return false; }
      if !DerefOk(args.value % WORD32, 56, memory.Length) {
        ok := RefuseCall(EFAULT, retv, true);
        return;
      }
      if entry.value >= |code| {
        ok := RefuseCall(EINVAL, retv, true);
        return;
      }
      var p := FindChild(pid.value % WORD32);
      if p == |childProc| {
        ok := RefuseCall(ECHILD, retv, true);
        return;
      }
      var cb := Callback(entry.value % WORD32, args.value % WORD32);
      childProc := childProc[p := childProc[p].(cbs := childProc[p].cbs + [cb])];
      nExitCallbacks := nExitCallbacks + 1;
      if retv + 8 > memory.Length { return false; }
      PutBytes(retv, 8, 0);
      return true;
    }

    /** The connection is there: its callback is handed the handle, and starts; the call answers 0. */
    method StartConnected(handle: u64, args: u32, entry: u32, retv: u32) returns (ok: bool)
      requires Valid() && args + 16 <= memory.Length
      modifies memory, this`exceptions, sched.Repr()
      ensures var w := old(TheWorld()).(mem := Splice(old(memory[..]), args, HandleBlock(handle)));
              Called(Store(Admit(w, [Func(entry, args, 0)], |code|), retv, 8, 0), ok)
      ensures ok ==> sched.procs == old(sched.procs) + NewProcs(Admitted([Func(entry, args, 0)], |code|))
    {
      hide Scheduler.Runnable.Valid, ToLE, Splice, Raise;
      var h := (handle + WORD32 - 1) % WORD32 + 1;
      ghost var mem := memory[..];
      PutBytes(args, 8, h);
      PutBytes(args + 8, 8, 0);
      SpliceOnward(mem, args, ToLE(h, 8), ToLE(0, 8));
      assert memory[..] == Splice(mem, args, HandleBlock(handle));
      SyscallLaws.OneRequest(TheWorld(), Func(entry, args, 0), |code|);
      AdmittedOnly(Func(entry, args, 0), |code|);
      var admitted := MakeFuncProcedure(entry, args, 0);
      if retv + 8 > memory.Length { return false; }
      PutBytes(retv, 8, 0);
      return true;
    }

    /** `sys_connect`. */
    method SysConnect(argv: u32, retv: u32, c: Attempt) returns (ok: bool)
      requires Valid()
      modifies memory, this`errorNo, this`exceptions, sched.Repr()
      ensures Called(Spec.SysConnect(old(TheWorld()), argv, retv, |code|, c), ok)
      ensures ok ==>
                sched.procs
                == old(sched.procs) + NewProcs(Admitted(ConnectRequests(old(memory[..]), argv, retv, c), |code|))
    {
      hide Scheduler.Runnable.Valid, ToLE, Splice, Raise, Load32, Load64, Admit, Admitted, HandleBlock;
      AdmitNone(TheWorld(), |code|);
      var retOk := DerefOk(retv, 8, memory.Length);
      if !DerefOk(argv, 20, memory.Length) || !retOk {
        ok := RefuseCall(EFAULT, retv, retOk);
        return;
      }
      var handle, addr := Load64(memory[..], argv), Load32(memory[..], argv + 8);
      if handle.None? { return false; }
      if c.BadHandle? {
        ok := RefuseCall(EBADF, retv, true);
        return;
      }
      if addr.None? { return false; }
      if !DerefOk(addr.value, 6, memory.Length) {
        ok := RefuseCall(EFAULT, retv, true);
        return;
      }
      var args, entry := Load32(memory[..], argv + 12), Load32(memory[..], argv + 16);
      if addr.value + 6 > memory.Length || args.None? || entry.None? { return false; }
      match c
      case Connected =>
        if !DerefOk(args.value, 16, memory.Length) {
          ok := RefuseCall(EFAULT, retv, true);
          return;
        }
        if args.value + 16 > memory.Length { return false; }
        ok := StartConnected(handle.value, args.value, entry.value, retv);
      case UnderWay =>
        if retv + 8 > memory.Length { return false; }
        PutBytes(retv, 8, 0);
        ok := true;
      case Failed(errno) =>
        ok := RefuseCall(errno, retv, true);
    }

    /** A call the model does not interpret; `exec` and `run` record the child they started. */
    method SysForeign(id: nat, f: Foreign) returns (ok: bool)
      requires Valid()
      modifies this`memory, this`errorNo, this`exceptions, this`childProc, this`nProc
      ensures Called(Spec.SysForeign(old(TheWorld()), id, f), ok)
    {
      hide Scheduler.Runnable.Valid, Raise, SaveChild;
      memory := new byte[|f.mem|](k requires 0 <= k < |f.mem| => f.mem[k]);
      assert memory[..] == f.mem;
      errorNo := f.errno;
      exceptions := Raise(exceptions, f.faults);
      ok := true;
      if (id == SYS_EXEC || id == SYS_RUN) && f.child.Some? {
        ok := SaveChildProc(f.child.value);
      }
    }

    /** `sys_yield`: the head moves to the end of the list. */
    method SysYield()
      requires Valid() && sched.procs != []
      modifies sched.Repr()
      ensures Held() && sched.procs == Rescheduled(old(sched.procs), true)
    {
      hide Scheduler.Runnable.Valid;
      sched.Yield();
    }

    method CallSystem(id: nat, argv: u32, retv: u32, inp: Input) returns (ok: bool)
      requires Valid() && sched.procs != [] && id < N_SYSCALLS
      modifies this, memory, sched.Repr()
      ensures Called(Dispatch(old(TheWorld()), id, argv, retv, |code|, inp), ok)
      ensures ok ==>
                var own := OwnRequests(old(TheWorld()), id, argv, retv, inp);
                sched.procs == Rescheduled(old(sched.procs) + NewProcs(Admitted(own, |code|)), id == SYS_YIELD)
    {
      hide Scheduler.Runnable.Valid, Spec.SysTimeout, Spec.SysOnExit, Spec.SysConnect, Spec.SysForeign,
        ConnectRequests, Admitted;
      AdmitNone(TheWorld(), |code|);
      if id == SYS_TIMEOUT {
        ok := SysTimeout(argv, retv, inp.clock);
      } else if id == SYS_YIELD {
        SysYield();
        ok := true;
      } else if id == SYS_CONNECT {
        ok := SysConnect(argv, retv, inp.attempt);
      } else if id == SYS_ONEXIT {
        ok := SysOnExit(argv, retv);
      } else {
        ok := SysForeign(id, inp.foreign);
      }
    }

    /** All events and a cleanup, before a system call. */
    method FireBeforeCall(inp: Input) returns (wild: bool)
      requires Valid()
      modifies this, memory, timers, sched.Repr()
      ensures var g := SyscallEvents(old(TheWorld()), |code|, inp);
              && wild == g.FiredUndefined?
              && (!wild ==>
                    && Held() && TheWorld() == g.w.(tick := 0)
                    && sched.procs == old(sched.procs) + NewProcs(g.spawns))
    {
      hide Scheduler.Runnable.Valid, Spec.FireVmEvents, Spec.FireProcEvents, NewProcs;
      ghost var f, procs := Spec.FireVmEvents(TheWorld(), inp.sys, |code|), sched.procs;
      var n;
      n, wild := FireVmEvents(inp.sys);
      if wild {
        UndefinedStays(f, inp.sysCleanup, |code|);
        return;
      }
      n, wild := FireProcEvents(inp.sysCleanup, f, procs);
      sinceCleanup := 0;
    }

    /** `op_syscall_3`: events and a cleanup first, then the operands are read and the call is made. */
    method OpSyscall(os: seq<Operand>, inp: Input) returns (o: Outcome)
      requires Valid() && sched.procs != [] && |os| == 3
      modifies this, memory, timers, sched.Repr()
      ensures Did(SyscallEffect(old(TheWorld()), os, |code|, inp), old(sched.procs), o)
    {
      hide Scheduler.Runnable.Valid, SyscallEvents, NewProcs, ArgValue, Raise, Rescheduled, Dispatch, OwnRequests,
        Admitted;
      ghost var procs, g := sched.procs, SyscallEvents(TheWorld(), |code|, inp);
      var wild := FireBeforeCall(inp);
      if wild { return WentWild; }
      var i, a, r := ArgValue(os[0], memory[..]), ArgValue(os[1], memory[..]), ArgValue(os[2], memory[..]);
      if i.None? || a.None? || r.None? { return WentWild; }
      var id := i.value % 0x1_0000;
      if id >= N_SYSCALLS {
        exceptions := Raise(exceptions, E_BAD_SYSCALL);
        return GaveUp;
      }
      ghost var own := OwnRequests(TheWorld(), id, a.value % WORD32, r.value % WORD32, inp);
      NewProcsConcat(g.spawns, Admitted(own, |code|));
      assert sched.procs + NewProcs(Admitted(own, |code|))
          == [procs[0]] + procs[1..] + NewProcs(g.spawns + Admitted(own, |code|));
      var ok := CallSystem(id, a.value % WORD32, r.value % WORD32, inp);
      return if ok then Proceeded else WentWild;
    }

    /** Running the handler of the decoded instruction. */
    method ExecInstn(op: Op, os: seq<Operand>, inp: Input) returns (o: Outcome)
      requires Valid() && sched.procs != [] && |os| == Arity(op)
      modifies this, memory, timers, sched.Repr()
      ensures Did(Effects(op, os, old(TheWorld()), TopOf(old(sched.procs[0].cstack)), |code|, inp), old(sched.procs), o)
    {
      hide Scheduler.Runnable.Valid, PutBin, Bin, CopyEffect, ReadEffect, WriteEffect, JumpEffect, BranchEffect,
        CallEffect, SyscallEffect, ArgvEffect, RetvEffect, Put, ArgValue, DestValue, Raise, UnaryTo, UnaryInPlace,
        Did;
      match op {
        case Nop =>
          o := Proceeded;
          NothingDone(sched.procs);
        case Bin3(f) => o := OpBinary(f, os[0], ArgValue(os[1], memory[..]), ArgValue(os[2], memory[..]));
        case Bin2(f) => o := OpBinary(f, os[0], DestValue(os[0], memory[..]), ArgValue(os[1], memory[..]));
        case Un2(u) =>
          var x := ArgValue(os[1], memory[..]);
          o := OpUnary(os[0], if x.None? then None else Some(UnaryTo(u, x.value)));
        case Un1(u) =>
          var x := DestValue(os[0], memory[..]);
          o := OpUnary(os[0], if x.None? then None else Some(UnaryInPlace(u, x.value)));
        case Cp => o := OpCopy(os);
        case Read(n) => o := OpRead(n, os);
        case Write(n) => o := OpWrite(n, os);
        case Jmp => o := DoJump(ArgValue(os[0], memory[..]));
        case JTrue => o := OpBranch(os, true);
        case JFalse => o := OpBranch(os, false);
        case Call => o := OpCall(os);
        case Syscall => o := OpSyscall(os, inp);
        case Ret => o := OpRet();
        case Argv => o := OpArgv(os);
        case Retv => o := OpRetv(os);
        case Assert => o := OpAssert(os);
        case Abrt => o := OpAbrt(os);
      }
    }

    // ---- The main loop

    /** The object ended the round as the byte machine does. */
    twostate predicate Ended(r: Round, st: LoopStatus)
      reads this, timers, memory, sched, sched.Repr()
    {
      match r
      case Running(s) => st.GoesOn? && Held() && TheState() == s
      case Exited(s) => st.Left? && Held() && TheState() == s
      case Crashed => st.Broke?
    }

    /** Fires what is due and counts from zero again. */
    method CleanupVm(waits: seq<Wait>) returns (wild: bool)
      requires Valid()
      modifies this, memory, sched.Repr()
      ensures var f := Spec.FireProcEvents(NoEvents(old(TheWorld())), waits, 0, |code|);
              && wild == f.FiredUndefined?
              && (!wild ==> Held() && TheState() == State(f.w.(tick := 0), old(sched.procs) + NewProcs(f.spawns)))
    {
      hide Scheduler.Runnable.Valid, Spec.FireProcEvents;
      ghost var procs := sched.procs;
      assert procs + [] == procs;
      var n;
      n, wild := FireProcEvents(waits, NoEvents(TheWorld()), procs);
      sinceCleanup := 0;
    }

    method CountInstn(inp: Input) returns (wild: bool)
      requires Valid()
      modifies this, memory, sched.Repr()
      ensures Ended(Finish(old(TheWorld()), old(sched.procs), |code|, inp), if wild then Broke else GoesOn)
    {
      hide Scheduler.Runnable.Valid, Spec.FireProcEvents;
      instns := instns + 1;
      sinceCleanup := sinceCleanup + 1;
      wild := false;
      if sinceCleanup % VM_CLEANUP_PERIOD == 0 {
        wild := CleanupVm(inp.cleanup);
      } else {
        assert sched.procs + [] == sched.procs;
      }
    }

    /** Decode at the head's address, advance it, run the handler, count. */
    method RunProcedure(inp: Input) returns (st: LoopStatus)
      requires Valid()
      modifies this, memory, timers, sched.Repr()
      ensures Ended(RunHead(table, code, old(TheState()), inp), st)
    {
      hide Scheduler.Runnable.Valid, Decode, Raise, NewProcs, ByteMachine.Execute;
      var empty := sched.IsEmpty();
      if empty { return Broke; }
      iptr := sched.HeadIptr();
      if iptr >= |code| {
        sched.DeleteCurrent();
        return GoesOn;
      }
      var d := DecodeInstn(table, code, memory.Length, iptr);
      st := RunDecoded(d, inp);
    }

    /** The instruction decoded at the head's address. */
    method RunDecoded(d: Decoded, inp: Input) returns (st: LoopStatus)
      requires Valid() && sched.procs != [] && iptr == sched.procs[0].iptr
      requires d.Decoded? && d.opcode < |table| ==> |d.operands| == Arity(table[d.opcode])
      modifies this, memory, timers, sched.Repr()
      ensures Ended(match d
                    case WildRead => Crashed
                    case Fault(bits) => Exited(State(Flag(old(TheWorld()), bits), old(sched.procs)))
                    case Decoded(opcode, os, length) =>
                      if opcode >= |table| then Crashed
                      else
                        var p := old(sched.procs)[0];
                        ByteMachine.Execute(table[opcode], os, old(TheWorld()), p.(iptr := p.iptr + length),
                                            old(sched.procs)[1..], |code|, inp), st)
    {
      hide Scheduler.Runnable.Valid, Effects, Finish, Raise, Apply, NewProcs, ByteMachine.Execute;
      match d {
        case WildRead => return Broke;
        case Fault(bits) =>
          exceptions := Raise(exceptions, bits);
          return Left;
        case Decoded(opcode, os, length) =>
          sched.SetIptr(iptr + length);
          if opcode >= |table| { return Broke; }
          st := Execute(table[opcode], os, inp);
      }
    }

    /** The handler of a decoded instruction, and the count. */
    method Execute(op: Op, os: seq<Operand>, inp: Input) returns (st: LoopStatus)
      requires Valid() && sched.procs != [] && |os| == Arity(op)
      modifies this, memory, timers, sched.Repr()
      ensures Ended(ByteMachine.Execute(op, os, old(TheWorld()), old(sched.procs)[0], old(sched.procs)[1..], |code|,
                                        inp), st)
    {
      hide Scheduler.Runnable.Valid, Effects, Finish, Apply, NewProcs;
      ghost var procs := sched.procs;
      assert procs == [procs[0]] + procs[1..];
      var o := ExecInstn(op, os, inp);
      match o {
        case WentWild => return Broke;
        case GaveUp => return Left;
        case Proceeded =>
          var wild := CountInstn(inp);
          return if wild then Broke else GoesOn;
      }
    }

    /** One round of the main loop. */
    method Round(inp: Input) returns (st: LoopStatus)
      requires Valid()
      modifies this, memory, timers, sched.Repr()
      ensures Ended(Step(table, code, old(TheState()), inp), st)
    {
      hide Scheduler.Runnable.Valid, RunHead, Spec.FireVmEvents;
      var empty := sched.IsEmpty();
      if empty {
        if timers.Length == 0 && !inp.ioPending && nExitCallbacks <= 0 { return Left; }
        ghost var f := Spec.FireVmEvents(TheWorld(), inp.idle, |code|);
        var events, wild := FireVmEvents(inp.idle);
        if wild { return Broke; }
        assert [] + NewProcs(f.spawns) == NewProcs(f.spawns);
        if events == 0 {
          NoEventsNoProcs(old(TheWorld()), inp.idle, |code|);
          if inp.sleepErrno.Some? { errorNo := inp.sleepErrno.value; }
          return GoesOn;
        }
      }
      st := RunProcedure(inp);
    }

    /**
     * `execute_vm` for as many rounds as the outside world supplies input for, and the cleanup after the loop.
     */
    method ExecuteVm(inputs: seq<Input>, last: seq<Wait>) returns (st: LoopStatus)
      requires Valid()
      modifies this, memory, timers, sched.Repr()
      ensures var r := Run(table, code, old(TheState()), inputs);
              if r.Exited? then
                var f := Spec.FireProcEvents(NoEvents(r.s.w), last, 0, |code|);
                if f.FiredUndefined? then st.Broke?
                else st.Left? && TheState() == State(f.w.(tick := 0), r.s.procs + NewProcs(f.spawns))
              else Ended(r, st)
    {
      hide Scheduler.Runnable.Valid, Step, Spec.FireProcEvents, NewProcs;
      st := GoesOn;
      ghost var s0 := TheState();
      for k := 0 to |inputs|
        invariant st.GoesOn? && Held()
        invariant Run(table, code, s0, inputs) == Run(table, code, TheState(), inputs[k..])
      {
        assert inputs[k..][0] == inputs[k] && inputs[k..][1..] == inputs[k + 1..];
        st := Round(inputs[k]);
        if st.Broke? { return; }
        if st.Left? {
          var wild := CleanupVm(last);
          return if wild then Broke else Left;
        }
      }
    }
  }

  /** `make_vm`: nothing but one procedure at the entry, or a flag and none if the entry is outside the code. */
  method MakeVm(table: Table, code: seq<byte>, bytes: seq<byte>, entry: u32) returns (vm: Vm)
    requires ValidTable(table)
    ensures fresh(vm) && fresh(vm.timers) && fresh(vm.memory) && fresh(vm.sched.Repr())
    ensures vm.Valid() && vm.table == table && vm.code == code
    ensures var w := World(bytes, 0, 0, 0, [], ChildTable([], 0, 0), 0);
            vm.TheState()
            == (if entry < |code| then State(w, [Proc(entry, [])]) else State(Flag(w, E_BAD_INSTN_POINTER), []))
  {
    hide Scheduler.Runnable.Valid, Flag;
    vm := new Vm(table, code, bytes);
    var ok := vm.MakeProcedure(entry);
    vm.iptr := NONE32;
  }

  // ---- Lemmas on the functions that the methods follow

  lemma NothingCopied(s: seq<byte>, d: nat, from: nat)
    requires d <= |s| && from <= |s|
    ensures Splice(s, d, s[from..from]) == s
  {}

  /** One byte more of a copy between ranges that do not overlap. */
  lemma CopyOnward(s: seq<byte>, d: nat, from: nat, k: nat)
    requires d + k < |s| && from + k < |s| && (d + k < from || from + k < d)
    ensures Splice(s, d, s[from..from + k])[from + k] == s[from + k]
    ensures Splice(s, d, s[from..from + k + 1]) == Splice(s, d, s[from..from + k])[d + k := s[from + k]]
  {}

  function WordBytes(words: seq<u64>): (s: seq<byte>)
    ensures |s| == 8 * |words|
  {
    if words == [] then [] else WordBytes(words[..|words| - 1]) + ToLE(words[|words| - 1], 8)
  }

  lemma BlockOfWords(pid: u32, s: Status)
    ensures StatusBlock(pid, s)
            == WordBytes([pid, s.exited, s.exitStatus, s.signaled, s.termSig, s.stopped, s.continued])
  {
    hide ToLE;
    var words: seq<u64> := [pid, s.exited, s.exitStatus, s.signaled, s.termSig, s.stopped, s.continued];
    assert words[..6] == [pid, s.exited, s.exitStatus, s.signaled, s.termSig, s.stopped];
    assert words[..6][..5] == words[..5] && words[..5][..4] == words[..4] && words[..4][..3] == words[..3];
    assert words[..3][..2] == words[..2] && words[..2][..1] == words[..1] && words[..1][..0] == [];
    assert WordBytes(words[..1]) == ToLE(pid, 8);
    assert WordBytes(words[..2]) == ToLE(pid, 8) + ToLE(s.exited, 8);
    assert WordBytes(words[..3]) == WordBytes(words[..2]) + ToLE(s.exitStatus, 8);
    assert WordBytes(words[..4]) == WordBytes(words[..3]) + ToLE(s.signaled, 8);
    assert WordBytes(words[..5]) == WordBytes(words[..4]) + ToLE(s.termSig, 8);
  }

  lemma NoWords(s: seq<byte>, at: nat)
    requires at <= |s|
    ensures WordBytes([]) == [] && Splice(s, at, []) == s
  {}

  lemma WordsStep(words: seq<u64>, i: nat)
    requires i < |words|
    ensures WordBytes(words[..i + 1]) == WordBytes(words[..i]) + ToLE(words[i], 8)
  {
    assert words[..i + 1][..i] == words[..i];
  }

  /** Writing on where the last write ended is one longer write. */
  lemma SpliceOnward(s: seq<byte>, at: nat, t: seq<byte>, u: seq<byte>)
    requires at + |t| + |u| <= |s|
    ensures Splice(Splice(s, at, t), at + |t|, u) == Splice(s, at, t + u)
  {}

  lemma IoEventCount(w: World, io: Io, codesz: nat)
    ensures Spec.FireIoEvents(w, io, codesz).events == |io.spawns|
  {}

  lemma AdmitNone(w: World, codesz: nat)
    ensures Admit(w, [], codesz) == w && NewProcs(Admitted([], codesz)) == []
  {}

  lemma AdmittedOnly(sp: Spawn, codesz: nat)
    ensures NewProcs(Admitted([sp], codesz)) == (if sp.entry >= codesz then [] else [NewProc(sp)])
  {}

  lemma AdmitOneMore(w: World, spawns: seq<Spawn>, k: nat, codesz: nat)
    requires k < |spawns|
    ensures var bad := spawns[k].entry >= codesz;
            && Admit(w, spawns[..k + 1], codesz)
               == (if bad then Flag(Admit(w, spawns[..k], codesz), E_BAD_INSTN_POINTER)
                   else Admit(w, spawns[..k], codesz))
            && NewProcs(Admitted(spawns[..k + 1], codesz))
               == NewProcs(Admitted(spawns[..k], codesz)) + (if bad then [] else [NewProc(spawns[k])])
  {
    assert spawns[..k + 1][..k] == spawns[..k];
    if spawns[k].entry < codesz {
      NewProcsConcat(Admitted(spawns[..k], codesz), [spawns[k]]);
      assert NewProcs([spawns[k]]) == [NewProc(spawns[k])];
    }
  }

  function Prefixed(fired: seq<Timer>, r: (seq<Timer>, seq<Timer>)): (seq<Timer>, seq<Timer>) {
    (r.0, fired + r.1)
  }

  lemma SweepUnfold(ts: seq<Timer>, i: nat, now: Timespec, fired: seq<Timer>)
    requires i < |ts|
    ensures Prefixed(fired, Sweep(ts, i, now))
            == if Due(now, ts[i]) then Prefixed(fired + [ts[i]], Sweep(SwapRemove(ts, i), i, now))
               else Prefixed(fired, Sweep(ts, i + 1, now))
  {
    if Due(now, ts[i]) {
      var more := Sweep(SwapRemove(ts, i), i, now).1;
      assert fired + ([ts[i]] + more) == (fired + [ts[i]]) + more;
    }
  }

  lemma PrefixNone(r: (seq<Timer>, seq<Timer>))
    ensures Prefixed([], r) == r
  {
    assert [] + r.1 == r.1;
  }

  lemma SweepDone(ts: seq<Timer>, fired: seq<Timer>, now: Timespec)
    ensures Prefixed(fired, Sweep(ts, |ts|, now)) == (ts, fired)
  {
    assert fired + [] == fired;
  }

  /** Refusals depend only on the flags set before. */
  lemma {:induction false} AdmitFlags(w: World, w': World, spawns: seq<Spawn>, codesz: nat)
    requires w.exceptions == w'.exceptions
    ensures Admit(w, spawns, codesz).exceptions == Admit(w', spawns, codesz).exceptions
  {
    if spawns != [] {
      AdmitFlags(w, w', spawns[..|spawns| - 1], codesz);
    }
  }

  lemma LaunchNone(w: World, codesz: nat)
    ensures Admit(w, Launched([]), codesz) == w && NewProcs(Admitted(Launched([]), codesz)) == []
  {}

  /** One more launch request at the end. */
  lemma LaunchOneMore(w: World, fired: seq<Timer>, t: Timer, codesz: nat)
    ensures var (a, b) := (Launched(fired), Launched(fired + [t]));
            && b == a + [Plain(t.iptr)]
            && Admit(w, b, codesz)
               == (if t.iptr >= codesz then Flag(Admit(w, a, codesz), E_BAD_INSTN_POINTER) else Admit(w, a, codesz))
            && Admitted(b, codesz) == Admitted(a, codesz) + (if t.iptr >= codesz then [] else [Plain(t.iptr)])
            && NewProcs(Admitted(b, codesz))
               == NewProcs(Admitted(a, codesz)) + (if t.iptr >= codesz then [] else [Proc(t.iptr, [])])
  {
    var (a, b) := (Launched(fired), Launched(fired + [t]));
    assert b == a + [Plain(t.iptr)];
    assert b[..|b| - 1] == a;
  }
}
