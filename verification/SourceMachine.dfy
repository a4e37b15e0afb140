/** The meaning of a program on its own instructions: control is an instruction index, never a byte offset. */
module SourceMachine {
  import opened Bytes
  import opened Isa
  import opened Program
  import opened Decoder
  import opened Children
  import opened World

  datatype Resume = EndOfProc | To(pc: nat)

  datatype SFrame = SFrame(retval: u32, args: u32, resume: Resume)

  datatype SProc = SProc(pc: nat, stack: seq<SFrame>)

  datatype SState = SState(w: World, procs: seq<SProc>)

  /**
   * `Stray`: control was sent to a number that is not the place of an instruction, by a jump or call or by launching a
   * procedure there.
   */
  datatype SRound = SRunning(s: SState) | SExited(s: SState) | SCrashed | Stray

  /** The instruction a code address stands for; any address past the code is the end of the program. */
  ghost function Resolve(p: Program, debug: Mode, v: nat): (r: Option<nat>)
    requires Valid(p)
    ensures r.Some? ==> r.value <= |p.instns|
  {
    if v >= CodeSize(p, debug) then Some(|p.instns|)
    else if k :| 0 <= k < |p.instns| && Kept(p, debug, k) && Layout(p, debug, k) == v then Some(k)
    else None
  }

  /** The label that the first operand of instruction `i` takes the address of, if it is a code label. */
  ghost predicate NamesCode(p: Program, i: nat)
    requires Valid(p) && i < |p.instns|
  {
    var args := p.instns[i].args;
    |args| > 0 && args[0].ImmLbl? && !p.labels[args[0].name].isMemRef
  }

  ghost function NamedIndex(p: Program, i: nat): (k: nat)
    requires Valid(p) && i < |p.instns| && NamesCode(p, i)
    ensures k < |p.instns|
  {
    assert ValidArg(p, p.instns[i].args[0]);
    p.labels[p.instns[i].args[0].name].offset
  }

  /** Where a transfer of control by instruction `i` goes: to the named label, or to a computed address. */
  ghost function Target(p: Program, debug: Mode, i: nat, v: nat): (r: Option<nat>)
    requires Valid(p) && i < |p.instns|
    ensures r.Some? ==> r.value <= |p.instns|
  {
    if NamesCode(p, i) then Some(NamedIndex(p, i)) else Resolve(p, debug, v)
  }

  ghost predicate AllResolve(p: Program, debug: Mode, spawns: seq<Spawn>)
    requires Valid(p)
  {
    forall k :: 0 <= k < |spawns| ==> Resolve(p, debug, spawns[k].entry).Some?
  }

  ghost function SNewProc(p: Program, debug: Mode, sp: Spawn): SProc
    requires Valid(p) && Resolve(p, debug, sp.entry).Some?
  {
    var pc := Resolve(p, debug, sp.entry).value;
    match sp
    case Plain(_) => SProc(pc, [])
    case Func(_, argv, retv) => SProc(pc, [SFrame(retv, argv, EndOfProc)])
  }

  ghost function SNewProcs(p: Program, debug: Mode, spawns: seq<Spawn>): (r: seq<SProc>)
    requires Valid(p) && AllResolve(p, debug, spawns)
    ensures |r| == |spawns|
  {
    seq(|spawns|, k requires 0 <= k < |spawns| => SNewProc(p, debug, spawns[k]))
  }

  function STopOf(stack: seq<SFrame>): Option<Top> {
    if stack == [] then None else Some(Top(stack[|stack| - 1].args, stack[|stack| - 1].retval))
  }

  function SReturned(p: SProc): seq<SProc> {
    if p.stack == [] then []
    else
      match p.stack[|p.stack| - 1].resume
      case EndOfProc => []
      case To(pc) => [SProc(pc, p.stack[..|p.stack| - 1])]
  }

  /** The procedure list after instruction `i`; none when it strayed. */
  ghost function SApply(p: Program, debug: Mode, i: nat, e: Effect, head: SProc, rest: seq<SProc>): Option<seq<SProc>>
    requires Valid(p) && i < |p.instns|
    requires e.Next? || e.Goto? || e.Enter? || e.Leave? || e.Sys?
  {
    match e
    case Next(_) => Some([head] + rest)
    case Goto(_, t) =>
      var k := Target(p, debug, i, t);
      if k.None? then None else Some([head.(pc := k.value)] + rest)
    case Enter(_, t, argv, retv) =>
      var k := Target(p, debug, i, t);
      if k.None? then None
      else Some([SProc(k.value, head.stack + [SFrame(retv, argv, To(head.pc))])] + rest)
    case Leave(_) => Some(SReturned(head) + rest)
    case Sys(_, spawns, yielding) =>
      if !AllResolve(p, debug, spawns) then None
      else Some(Rescheduled([head] + rest + SNewProcs(p, debug, spawns), yielding))
  }

  ghost function SFinish(p: Program, debug: Mode, w: World, procs: seq<SProc>, inp: Input): SRound
    requires Valid(p)
  {
    match Tick(w, CodeSize(p, debug), inp)
    case FiredUndefined => SCrashed
    case Fired(w', spawns, _) =>
      if AllResolve(p, debug, spawns) then SRunning(SState(w', procs + SNewProcs(p, debug, spawns))) else Stray
  }

  ghost function SExecute(p: Program, debug: Mode, i: nat, os: seq<Operand>, w: World, head: SProc, rest: seq<SProc>,
                          inp: Input): SRound
    requires Valid(p) && i < |p.instns| && |os| == Arity(OpAt(p, i))
  {
    var e := Effects(OpAt(p, i), os, w, STopOf(head.stack), CodeSize(p, debug), inp);
    if e.Undefined? then SCrashed
    else if e.Halt? then
      if AllResolve(p, debug, e.spawns)
      then SExited(SState(e.w, [head] + rest + SNewProcs(p, debug, e.spawns)))
      else Stray
    else
      match SApply(p, debug, i, e, head, rest)
      case None => Stray
      case Some(procs) => SFinish(p, debug, e.w, procs, inp)
  }

  /** The instruction executed from `pc`: skipped ones do nothing; the instruction count is the end. */
  ghost function NextInstn(p: Program, debug: Mode, pc: nat): (i: nat)
    requires Valid(p)
    ensures i <= |p.instns| && (i < |p.instns| ==> Kept(p, debug, i))
  {
    if pc >= |p.instns| then |p.instns| else NextKept(p, debug, pc)
  }

  /** The head procedure passes over debug-only instructions that were not kept, and executes the next one. */
  ghost function SRunHead(p: Program, debug: Mode, s: SState, inp: Input): SRound
    requires Fits(p, debug)
  {
    if s.procs == [] then SCrashed
    else
      var i := NextInstn(p, debug, s.procs[0].pc);
      if i == |p.instns| then SRunning(s.(procs := s.procs[1..]))
      else
        match SourceDecode(p, debug, |s.w.mem|, i)
        case Fault(bits) => SExited(s.(w := Flag(s.w, bits)))
        case Decoded(_, os, _) => SExecute(p, debug, i, os, s.w, s.procs[0].(pc := i + 1), s.procs[1..], inp)
  }

  ghost function SStep(p: Program, debug: Mode, s: SState, inp: Input): SRound
    requires Fits(p, debug)
  {
    if s.procs != [] then SRunHead(p, debug, s, inp)
    else
      match Idle(s.w, CodeSize(p, debug), inp)
      case NothingPending => SExited(s)
      case IdleUndefined => SCrashed
      case Slept(w) => SRunning(s.(w := w))
      case Woken(w, spawns) =>
        if AllResolve(p, debug, spawns) then SRunHead(p, debug, SState(w, SNewProcs(p, debug, spawns)), inp) else Stray
  }

  ghost function SRun(p: Program, debug: Mode, s: SState, inputs: seq<Input>): SRound
    requires Fits(p, debug)
    decreases |inputs|
  {
    if inputs == [] then SRunning(s)
    else
      match SStep(p, debug, s, inputs[0])
      case SRunning(s') => SRun(p, debug, s', inputs[1..])
      case other => other
  }
}
