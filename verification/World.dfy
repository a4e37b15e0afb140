/** The machine state that holds no control flow, and how events and instructions change it. */
module World {
  import opened Bytes
  import opened Isa
  import opened Decoder
  import opened Timers
  import opened Children

  /** `tick` counts instructions since the last cleanup. */
  datatype World = World(mem: seq<byte>, exceptions: u32, errno: u32, assertId: u64,
                         timers: seq<Timer>, kids: ChildTable, tick: nat)

  /** `sys_yield`: the head goes to the end, unless it is alone. */
  function Rescheduled<T>(procs: seq<T>, yielding: bool): (r: seq<T>)
    ensures |r| == |procs|
  {
    if yielding && |procs| > 1 then procs[1..] + [procs[0]] else procs
  }

  /** A request to append a procedure: at an address with an empty stack, or with one bottom frame. */
  datatype Spawn = Plain(entry: u32) | Func(entry: u32, argv: u32, retv: u32)

  // ---- What the outside world supplies

  /** The wait-status macros applied to one status. */
  datatype Status = Status(exited: u64, exitStatus: u64, signaled: u64, termSig: u64, stopped: u64, continued: u64)

  datatype Wait = NoChild | WaitError(errno: u32) | Reaped(pid: u32, status: Status)

  datatype Clock = Now(t: Timespec) | ClockError(errno: u32)

  /** File and socket events: bytes they changed in memory, an error number, callbacks they started. */
  datatype Io = Io(mem: seq<byte>, errno: u32, spawns: seq<Spawn>)

  datatype Events = Events(clock: Clock, io: Io, waits: seq<Wait>)

  /** A system call this model does not interpret: the memory, flags and error number it leaves behind. */
  datatype Foreign = Foreign(mem: seq<byte>, faults: u32, errno: u32, child: Option<u32>)

  /** What becomes of a `connect`: no open socket has the handle, or the connection is there, under way or refused. */
  datatype Attempt = BadHandle | Connected | UnderWay | Failed(errno: u32)

  /** Everything one round of the main loop reads from outside. */
  datatype Input = Input(idle: Events, ioPending: bool, sleepErrno: Option<u32>,
                         sys: Events, sysCleanup: seq<Wait>, clock: Clock, attempt: Attempt, foreign: Foreign,
                         cleanup: seq<Wait>)

  // ---- Memory

  function Load(mem: seq<byte>, at: nat, n: nat): (v: Option<nat>)
    ensures v.Some? <==> at + n <= |mem|
    ensures v.Some? ==> v.value < Capacity(n)
  {
    if at + n <= |mem| then Some(WordAt(mem, at, n)) else None
  }

  function Load64(mem: seq<byte>, at: nat): (v: Option<u64>)
    ensures v.Some? <==> at + 8 <= |mem|
  {
    Capacities();
    if at + 8 <= |mem| then Some(WordAt(mem, at, 8)) else None
  }

  function Load32(mem: seq<byte>, at: nat): (v: Option<u32>)
    ensures v.Some? <==> at + 4 <= |mem|
  {
    Capacities();
    if at + 4 <= |mem| then Some(WordAt(mem, at, 4)) else None
  }

  function Store(w: World, at: nat, n: nat, v: nat): Option<World> {
    if at + n <= |w.mem| then Some(w.(mem := Splice(w.mem, at, ToLE(v, n)))) else None
  }

  /** `arg_value`: an immediate as it is, a reference through its address; none is a wild read. */
  function ArgValue(o: Operand, mem: seq<byte>): Option<u64> {
    match o
    case ImmVal(v) => Some(v)
    case RefPtr(a) => Load64(mem, a)
  }

  /** A store through an operand's pointer; an immediate there is not a pointer into memory. */
  function Put(w: World, o: Operand, n: nat, v: nat): Option<World> {
    if o.RefPtr? then Store(w, o.addr, n, v) else None
  }

  function Flag(w: World, bits: u32): World {
    w.(exceptions := Raise(w.exceptions, bits))
  }

  // ---- Events

  /** `make_procedure` refuses an address outside the code, and flags it. */
  function Admit(w: World, spawns: seq<Spawn>, codesz: nat): (r: World)
    ensures r == w.(exceptions := r.exceptions)
  {
    if spawns == [] then w
    else
      var w' := Admit(w, spawns[..|spawns| - 1], codesz);
      if spawns[|spawns| - 1].entry >= codesz then Flag(w', E_BAD_INSTN_POINTER) else w'
  }

  /** The requests that do become procedures. */
  function Admitted(spawns: seq<Spawn>, codesz: nat): (r: seq<Spawn>)
    ensures forall k :: 0 <= k < |r| ==> r[k].entry < codesz && r[k] in spawns
  {
    if spawns == [] then []
    else
      var front := Admitted(spawns[..|spawns| - 1], codesz);
      var last := spawns[|spawns| - 1];
      if last.entry >= codesz then front else front + [last]
  }

  /**
   * The world after events, the procedures they created, and how many events there were; an event whose
   * procedure is refused still counts. `FiredUndefined` is an access outside memory.
   */
  datatype Fired = Fired(w: World, spawns: seq<Spawn>, events: nat) | FiredUndefined

  function FireTimerEvents(w: World, clock: Clock, codesz: nat): (r: Fired)
    ensures r.Fired?
  {
    var now := if clock.Now? then clock.t else Timespec(0, 0);
    var (left, fired) := Sweep(w.timers, 0, now);
    var spawns := Launched(fired);
    var w' := w.(timers := left, errno := if clock.Now? then w.errno else clock.errno);
    Fired(Admit(w', spawns, codesz), Admitted(spawns, codesz), |fired|)
  }

  function Launched(fired: seq<Timer>): (r: seq<Spawn>)
    ensures |r| == |fired|
  {
    seq(|fired|, k requires 0 <= k < |fired| => Plain(fired[k].iptr))
  }

  function FireIoEvents(w: World, io: Io, codesz: nat): (r: Fired)
    ensures r.Fired?
  {
    var w' := w.(mem := if |io.mem| == |w.mem| then io.mem else w.mem, errno := io.errno);
    Fired(Admit(w', io.spawns, codesz), Admitted(io.spawns, codesz), |io.spawns|)
  }

  /** The seven words handed to an exit callback. */
  function StatusBlock(pid: u32, s: Status): (b: seq<byte>)
    ensures |b| == 56
  {
    ToLE(pid, 8) + ToLE(s.exited, 8) + ToLE(s.exitStatus, 8) + ToLE(s.signaled, 8)
    + ToLE(s.termSig, 8) + ToLE(s.stopped, 8) + ToLE(s.continued, 8)
  }

  /** What firing one callback does; a callback whose argument block is bad is passed over. */
  function FireCallback(w: World, cb: Callback, pid: u32, s: Status, codesz: nat): (r: Fired)
    ensures r.Fired? ==> r.w.kids == w.kids && r.w.timers == w.timers && |r.w.mem| == |w.mem|
  {
    if !DerefOk(cb.args, 56, |w.mem|) then Fired(Flag(w, E_MEM_FAULT), [], 0)
    else if cb.args + 56 > |w.mem| then FiredUndefined
    else
      var w' := w.(mem := Splice(w.mem, cb.args, StatusBlock(pid, s)));
      if cb.entry >= codesz then Fired(Flag(w', E_BAD_INSTN_POINTER), [], 1)
      else Fired(w', [Func(cb.entry, cb.args, 0)], 1)
  }

  /** `fire_events_of_proc` from callback `c` on, after what fired before. */
  function FireCallbacks(f: Fired, cbs: seq<Callback>, c: nat, pid: u32, s: Status, codesz: nat): (r: Fired)
    requires c <= |cbs|
    ensures f.Fired? && r.Fired? ==> r.w.kids == f.w.kids && r.w.timers == f.w.timers && |r.w.mem| == |f.w.mem|
    decreases |cbs| - c
  {
    if f.FiredUndefined? || c == |cbs| then f
    else FireCallbacks(After(f, FireCallback(f.w, cbs[c], pid, s, codesz)), cbs, c + 1, pid, s, codesz)
  }

  /** One group of events after another. */
  function After(f: Fired, g: Fired): Fired
    requires f.Fired?
  {
    if g.FiredUndefined? then g else Fired(g.w, f.spawns + g.spawns, f.events + g.events)
  }

  predicate Terminated(s: Status) {
    s.exited != 0 || s.signaled != 0
  }

  /** `fire_proc_events` from the k-th answer of `waitpid` on, after what fired before. */
  function FireProcEvents(f: Fired, waits: seq<Wait>, k: nat, codesz: nat): Fired
    requires k <= |waits|
    decreases |waits| - k
  {
    if f.FiredUndefined? || f.w.kids.nProc == 0 || k == |waits| || waits[k].NoChild? then f
    else if waits[k].WaitError? then f.(w := f.w.(errno := waits[k].errno))
    else
      var p := FindProc(f.w.kids.slots, waits[k].pid, 0);
      if p == |f.w.kids.slots| then f
      else FireProcEvents(ReapChild(f, p, waits[k].pid, waits[k].status, codesz), waits, k + 1, codesz)
  }

  /** The callbacks of the child in slot `p` fire; if it terminated, it gives up the slot. */
  function ReapChild(f: Fired, p: nat, pid: u32, s: Status, codesz: nat): Fired
    requires f.Fired? && p < |f.w.kids.slots|
  {
    var g := FireCallbacks(f, f.w.kids.slots[p].cbs, 0, pid, s, codesz);
    if g.Fired? && Terminated(s) then g.(w := g.w.(kids := Release(g.w.kids, p))) else g
  }

  /** `fire_vm_events`: timers, then files and sockets, then child processes. */
  function FireVmEvents(w: World, e: Events, codesz: nat): Fired {
    var t := FireTimerEvents(w, e.clock, codesz);
    FireProcEvents(After(t, FireIoEvents(t.w, e.io, codesz)), e.waits, 0, codesz)
  }

  function NoEvents(w: World): Fired {
    Fired(w, [], 0)
  }

  predicate PendingEvents(w: World, ioPending: bool) {
    w.timers != [] || ioPending || w.kids.nExit > 0
  }

  // ---- Data instructions

  datatype BinEval = BinValue(v: u64) | BinFault | BinUndefined

  /** `x op y` where reading either operand may be wild; `&&` and `||` do not always read `y`. */
  function Bin(f: BinOp, x: Option<u64>, y: Option<u64>): BinEval {
    if f.Div? || f.Mod? then
      if y.None? then BinUndefined
      else if y.value == 0 then BinFault
      else if x.None? then BinUndefined
      else Alu2(f, x.value, y.value)
    else if x.None? then BinUndefined
    else if (f.LAnd? && x.value == 0) || (f.LOr? && x.value != 0) then BinValue(Truth(f.LOr?))
    else if y.None? then BinUndefined
    else Alu2(f, x.value, y.value)
  }

  function Alu2(f: BinOp, x: u64, y: u64): BinEval {
    match Alu(f, x, y)
    case Value(v) => BinValue(v)
    case DivideByZero => BinFault
    case ShiftTooFar => BinUndefined
  }

  /** Return-value and argument pointers of the innermost call. */
  datatype Top = Top(argv: u32, retv: u32)

  /** What an instruction does: to the world, and what it asks of the running procedure. */
  datatype Effect =
    | Next(w: World)
    | Goto(w: World, target: u32)
    | Enter(w: World, target: u32, argv: u32, retv: u32)
    | Leave(w: World)
    | Sys(w: World, spawns: seq<Spawn>, yielding: bool)
    | Halt(w: World, spawns: seq<Spawn>)
    | Undefined

  function Fail(w: World, bits: u32): Effect {
    Halt(Flag(w, bits), [])
  }

  function Done(r: Option<World>): Effect {
    if r.Some? then Next(r.value) else Undefined
  }

  function PutBin(w: World, dest: Operand, e: BinEval): Effect {
    match e
    case BinValue(v) => Done(Put(w, dest, 8, v))
    case BinFault => Fail(w, E_ARITHMETIC)
    case BinUndefined => Undefined
  }

  /** The address a `read` or `write` goes to: base plus offset in 32 bits. */
  function Sum32(a: u64, b: u64): u32 {
    (a % WORD32 + b % WORD32) % WORD32
  }

  function ReadEffect(w: World, width: nat, os: seq<Operand>): Effect
    requires |os| == 3
  {
    var base := if os[1].RefPtr? then Load32(w.mem, os[1].addr) else None;
    var offset := ArgValue(os[2], w.mem);
    if base.None? || offset.None? then Undefined
    else
      var at := Sum32(base.value, offset.value);
      if !DerefOk(at, width, |w.mem|) then Fail(w, E_MEM_FAULT)
      else
        var v := Load(w.mem, at, width);
        if v.None? then Undefined else Done(Put(w, os[0], width, v.value))
  }

  function WriteEffect(w: World, width: nat, os: seq<Operand>): Effect
    requires |os| == 3
  {
    var base := ArgValue(os[0], w.mem);
    var offset := ArgValue(os[1], w.mem);
    if base.None? || offset.None? then Undefined
    else
      var at := Sum32(base.value, offset.value);
      if !DerefOk(at, width, |w.mem|) then Fail(w, E_MEM_FAULT)
      else
        var v := ArgValue(os[2], w.mem);
        if v.None? then Undefined else Done(Store(w, at, width, v.value))
  }

  /** `memcpy` between overlapping or outside ranges is undefined. */
  function CopyEffect(w: World, os: seq<Operand>): Effect
    requires |os| == 3
  {
    var n := ArgValue(os[2], w.mem);
    if n.None? || !os[0].RefPtr? || !os[1].RefPtr? then Undefined
    else
      var (d, s) := (os[0].addr, os[1].addr);
      if d + n.value > |w.mem| || s + n.value > |w.mem| then Undefined
      else if n.value > 0 && d < s + n.value && s < d + n.value then Undefined
      else Next(w.(mem := Splice(w.mem, d, w.mem[s..s + n.value])))
  }

  /** `do_jump`. */
  function JumpEffect(w: World, target: Option<u64>, codesz: nat): Effect {
    if target.None? then Undefined
    else if target.value % WORD32 >= codesz then Fail(w, E_BAD_INSTN_POINTER)
    else Goto(w, target.value % WORD32)
  }

  function BranchEffect(w: World, os: seq<Operand>, on: bool, codesz: nat): Effect
    requires |os| == 2
  {
    var c := ArgValue(os[1], w.mem);
    if c.None? then Undefined
    else if (c.value != 0) == on then JumpEffect(w, ArgValue(os[0], w.mem), codesz)
    else Next(w)
  }

  function CallEffect(w: World, os: seq<Operand>): Effect
    requires |os| == 3
  {
    var (t, a, r) := (ArgValue(os[0], w.mem), ArgValue(os[1], w.mem), ArgValue(os[2], w.mem));
    if t.None? || a.None? || r.None? then Undefined
    else Enter(w, t.value % WORD32, a.value % WORD32, r.value % WORD32)
  }

  function ArgvEffect(w: World, os: seq<Operand>, top: Option<Top>): Effect
    requires |os| == 1
  {
    Done(Put(w, os[0], 4, if top.Some? then top.value.argv else 0))
  }

  function RetvEffect(w: World, os: seq<Operand>, top: Option<Top>): Effect
    requires |os| == 1
  {
    if top.None? || !DerefOk(top.value.retv, 8, |w.mem|) then Fail(w, E_MEM_FAULT)
    else
      var v := ArgValue(os[0], w.mem);
      if v.None? then Undefined else Done(Store(w, top.value.retv, 8, v.value))
  }

  function AssertEffect(w: World, os: seq<Operand>): Effect
    requires |os| == 2
  {
    var c := ArgValue(os[1], w.mem);
    if c.None? then Undefined
    else if c.value == 0 then Next(w)
    else
      var id := ArgValue(os[0], w.mem);
      if id.None? then Undefined else Fail(w.(assertId := id.value), E_ASSERT_FAILED)
  }

  // ---- System calls

  const N_SYSCALLS := 30
  const SYS_TIMEOUT := 3
  const SYS_YIELD := 4
  const SYS_CONNECT := 17
  const SYS_EXEC := 24
  const SYS_RUN := 25
  const SYS_ONEXIT := 27

  const EBADF: u32 := 9
  const EFAULT: u32 := 14
  const EINVAL: u32 := 22
  const ECHILD: u32 := 10

  /** Reporting failure to the program: an error number, and 1 as the result where it can be stored. */
  function Refuse(w: World, errno: u32, retv: u32, retOk: bool): Option<World> {
    if retOk then Store(w.(errno := errno), retv, 8, 1) else Some(w.(errno := errno))
  }

  function Expiry(now: Timespec, millis: u64): Timespec {
    Timespec(now.sec + millis / 1000, now.nsec + 1000000 * (millis % 1000))
  }

  function SysTimeout(w: World, argv: u32, retv: u32, codesz: nat, clock: Clock): Option<World> {
    var retOk := DerefOk(retv, 8, |w.mem|);
    if !DerefOk(argv, 12, |w.mem|) || !retOk then Refuse(w, EFAULT, retv, retOk)
    else
      var entry := Load32(w.mem, argv);
      var millis := Load64(w.mem, argv + 4);
      if entry.None? || millis.None? then None
      else if entry.value > codesz then Refuse(w, EINVAL, retv, true)
      else if clock.ClockError? then Refuse(w, clock.errno, retv, true)
      else Store(w.(timers := w.timers + [Timer(Expiry(clock.t, millis.value), entry.value)]), retv, 8, 0)
  }

  /** Both pointers are checked, and either failing check sets the memory fault flag. */
  function SysOnExit(w: World, argv: u32, retv: u32, codesz: nat): Option<World> {
    var retOk := DerefOk(retv, 8, |w.mem|);
    if !DerefOk(argv, 8, |w.mem|) || !retOk then Refuse(Flag(w, E_MEM_FAULT), EFAULT, retv, retOk)
    else
      var pid := Load64(w.mem, argv);
      var args := Load64(w.mem, argv + 8);
      var entry := Load64(w.mem, argv + 16);
      if pid.None? || args.None? || entry.None? then None
      else if !DerefOk(args.value % WORD32, 56, |w.mem|) then Refuse(w, EFAULT, retv, true)
      else if entry.value >= codesz then Refuse(w, EINVAL, retv, true)
      else
        var p := FindProc(w.kids.slots, pid.value % WORD32, 0);
        if p == |w.kids.slots| then Refuse(w, ECHILD, retv, true)
        else Store(w.(kids := AddCallback(w.kids, p, Callback(entry.value % WORD32, args.value % WORD32))), retv, 8, 0)
  }

  /** How far a `connect` gets: an error, a callback to start, one to wait for, or a read outside memory. */
  datatype Connecting = Rejected(errno: u32) | Starts(handle: u64, args: u32, entry: u32) | Waits | ReadsWild

  function Connect(mem: seq<byte>, argv: u32, retv: u32, c: Attempt): (r: Connecting)
    ensures r.Starts? ==> r.args + 16 <= |mem|
  {
    if !DerefOk(argv, 20, |mem|) || !DerefOk(retv, 8, |mem|) then Rejected(EFAULT)
    else
      var (handle, addr) := (Load64(mem, argv), Load32(mem, argv + 8));
      if handle.None? then ReadsWild
      else if c.BadHandle? then Rejected(EBADF)
      else if addr.None? then ReadsWild
      else if !DerefOk(addr.value, 6, |mem|) then Rejected(EFAULT)
      else
        var (args, entry) := (Load32(mem, argv + 12), Load32(mem, argv + 16));
        if addr.value + 6 > |mem| || args.None? || entry.None? then ReadsWild
        else if c.UnderWay? then Waits
        else if c.Failed? then Rejected(c.errno)
        else if !DerefOk(args.value, 16, |mem|) then Rejected(EFAULT)
        else if args.value + 16 > |mem| then ReadsWild
        else Starts(handle.value, args.value, entry.value)
  }

  /** The two words handed to a connection's callback: the handle, as its 32-bit index gives it back, and no error. */
  function HandleBlock(handle: u64): (b: seq<byte>)
    ensures |b| == 16
  {
    ToLE((handle + WORD32 - 1) % WORD32 + 1, 8) + ToLE(0, 8)
  }

  function SysConnect(w: World, argv: u32, retv: u32, codesz: nat, c: Attempt): Option<World> {
    match Connect(w.mem, argv, retv, c)
    case Rejected(errno) => Refuse(w, errno, retv, DerefOk(retv, 8, |w.mem|))
    case Waits => Store(w, retv, 8, 0)
    case ReadsWild => None
    case Starts(handle, args, entry) =>
      var w' := w.(mem := Splice(w.mem, args, HandleBlock(handle)));
      Store(Admit(w', [Func(entry, args, 0)], codesz), retv, 8, 0)
  }

  /** A connection made at once asks for its callback. */
  function ConnectRequests(mem: seq<byte>, argv: u32, retv: u32, c: Attempt): seq<Spawn> {
    match Connect(mem, argv, retv, c)
    case Starts(_, args, entry) => [Func(entry, args, 0)]
    case _ => []
  }

  /** The procedures a call itself asks for. */
  function OwnRequests(w: World, id: nat, argv: u32, retv: u32, inp: Input): seq<Spawn> {
    if id == SYS_CONNECT then ConnectRequests(w.mem, argv, retv, inp.attempt) else []
  }

  /** A call the model does not interpret; `exec` and `run` also record the child they started. */
  function SysForeign(w: World, id: nat, f: Foreign): Option<World> {
    var w' := Flag(w.(mem := f.mem, errno := f.errno), f.faults);
    if (id == SYS_EXEC || id == SYS_RUN) && f.child.Some? then
      var kids := SaveChild(w'.kids, f.child.value);
      if kids.None? then None else Some(w'.(kids := kids.value))
    else Some(w')
  }

  function Dispatch(w: World, id: nat, argv: u32, retv: u32, codesz: nat, inp: Input): Option<World> {
    if id == SYS_TIMEOUT then SysTimeout(w, argv, retv, codesz, inp.clock)
    else if id == SYS_YIELD then Some(w)
    else if id == SYS_CONNECT then SysConnect(w, argv, retv, codesz, inp.attempt)
    else if id == SYS_ONEXIT then SysOnExit(w, argv, retv, codesz)
    else SysForeign(w, id, inp.foreign)
  }

  /** The events and the cleanup before a system call. */
  function SyscallEvents(w: World, codesz: nat, inp: Input): Fired {
    FireProcEvents(FireVmEvents(w, inp.sys, codesz), inp.sysCleanup, 0, codesz)
  }

  /** `op_syscall_3`: all events fire and a cleanup runs before the operands are even read. */
  function SyscallEffect(w: World, os: seq<Operand>, codesz: nat, inp: Input): Effect
    requires |os| == 3
  {
    var f := SyscallEvents(w, codesz, inp);
    if f.FiredUndefined? then Undefined
    else
      var w' := f.w.(tick := 0);
      var (i, a, r) := (ArgValue(os[0], w'.mem), ArgValue(os[1], w'.mem), ArgValue(os[2], w'.mem));
      if i.None? || a.None? || r.None? then Undefined
      else
        var id := i.value % 0x1_0000;
        if id >= N_SYSCALLS then Halt(Flag(w', E_BAD_SYSCALL), f.spawns)
        else
          var own := OwnRequests(w', id, a.value % WORD32, r.value % WORD32, inp);
          match Dispatch(w', id, a.value % WORD32, r.value % WORD32, codesz, inp)
          case None => Undefined
          case Some(w'') => Sys(w'', f.spawns + Admitted(own, codesz), id == SYS_YIELD)
  }

  /** The handler of each operation. */
  function Effects(op: Op, os: seq<Operand>, w: World, top: Option<Top>, codesz: nat, inp: Input): Effect
    requires |os| == Arity(op)
  {
    match op
    case Nop => Next(w)
    case Bin3(f) => PutBin(w, os[0], Bin(f, ArgValue(os[1], w.mem), ArgValue(os[2], w.mem)))
    case Bin2(f) => PutBin(w, os[0], Bin(f, DestValue(os[0], w.mem), ArgValue(os[1], w.mem)))
    case Un2(u) =>
      var x := ArgValue(os[1], w.mem);
      if x.None? then Undefined else Done(Put(w, os[0], 8, UnaryTo(u, x.value)))
    case Un1(u) =>
      var x := DestValue(os[0], w.mem);
      if x.None? then Undefined else Done(Put(w, os[0], 8, UnaryInPlace(u, x.value)))
    case Cp => CopyEffect(w, os)
    case Read(n) => ReadEffect(w, n, os)
    case Write(n) => WriteEffect(w, n, os)
    case Jmp => JumpEffect(w, ArgValue(os[0], w.mem), codesz)
    case JTrue => BranchEffect(w, os, true, codesz)
    case JFalse => BranchEffect(w, os, false, codesz)
    case Call => CallEffect(w, os)
    case Syscall => SyscallEffect(w, os, codesz, inp)
    case Ret => Leave(w)
    case Argv => ArgvEffect(w, os, top)
    case Retv => RetvEffect(w, os, top)
    case Assert => AssertEffect(w, os)
    case Abrt =>
      var bits := ArgValue(os[0], w.mem);
      if bits.None? then Undefined else Fail(w, bits.value % WORD32)
  }

  /** A destination that is also read goes through its pointer, so it must be a reference. */
  function DestValue(o: Operand, mem: seq<byte>): Option<u64> {
    if o.RefPtr? then Load64(mem, o.addr) else None
  }

  // ---- The parts of a round around the instruction

  /** `vm_fire_events` with no procedure to run. */
  datatype IdleRound = NothingPending | Slept(w: World) | Woken(w: World, spawns: seq<Spawn>) | IdleUndefined

  function Idle(w: World, codesz: nat, inp: Input): IdleRound {
    if !PendingEvents(w, inp.ioPending) then NothingPending
    else
      match FireVmEvents(w, inp.idle, codesz)
      case FiredUndefined => IdleUndefined
      case Fired(w', spawns, events) =>
        if events == 0 then Slept(if inp.sleepErrno.Some? then w'.(errno := inp.sleepErrno.value) else w')
        else Woken(w', spawns)
  }

  const VM_CLEANUP_PERIOD := 20

  /** Counting the instruction, and the cleanup every so many of them. */
  function Tick(w: World, codesz: nat, inp: Input): Fired {
    var w' := w.(tick := w.tick + 1);
    if w'.tick % VM_CLEANUP_PERIOD != 0 then NoEvents(w')
    else
      var f := FireProcEvents(NoEvents(w'), inp.cleanup, 0, codesz);
      if f.Fired? then f.(w := f.w.(tick := 0)) else f
  }
}
