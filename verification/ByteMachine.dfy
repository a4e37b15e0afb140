/** The interpreter over code bytes: one round of `execute_vm`, as a function of state and outside input. */
module ByteMachine {
  import opened Bytes
  import opened Isa
  import opened Decoder
  import opened Children
  import opened World

  datatype Frame = Frame(retval: u32, args: u32, retAddress: u32)

  /** A procedure: next instruction address and call stack, innermost frame last. */
  datatype Proc = Proc(iptr: nat, cstack: seq<Frame>)

  /** The head of `procs` is running. */
  datatype State = State(w: World, procs: seq<Proc>)

  /** `Crashed` stands for an access the C program makes outside its own data. */
  datatype Round = Running(s: State) | Exited(s: State) | Crashed

  function NewProc(sp: Spawn): Proc {
    match sp
    case Plain(e) => Proc(e, [])
    case Func(e, argv, retv) => Proc(e, [Frame(retv, argv, NONE32)])
  }

  function NewProcs(spawns: seq<Spawn>): (r: seq<Proc>)
    ensures |r| == |spawns|
  {
    seq(|spawns|, k requires 0 <= k < |spawns| => NewProc(spawns[k]))
  }

  lemma NewProcsConcat(a: seq<Spawn>, b: seq<Spawn>)
    ensures NewProcs(a + b) == NewProcs(a) + NewProcs(b)
  {}

  function TopOf(stack: seq<Frame>): Option<Top> {
    if stack == [] then None else Some(Top(stack[|stack| - 1].args, stack[|stack| - 1].retval))
  }

  /** The running procedure after `ret`: none if it has no frame, or returned through the -1 sentinel. */
  function Returned(p: Proc): seq<Proc> {
    if p.cstack == [] then []
    else
      var top := p.cstack[|p.cstack| - 1];
      if top.retAddress == NONE32 then [] else [Proc(top.retAddress, p.cstack[..|p.cstack| - 1])]
  }

  /** The procedure list after the running instruction, `p` being the head past that instruction. */
  function Apply(e: Effect, p: Proc, rest: seq<Proc>): seq<Proc>
    requires e.Next? || e.Goto? || e.Enter? || e.Leave? || e.Sys?
  {
    match e
    case Next(_) => [p] + rest
    case Goto(_, t) => [p.(iptr := t)] + rest
    case Enter(_, t, argv, retv) => [Proc(t, p.cstack + [Frame(retv, argv, p.iptr % WORD32)])] + rest
    case Leave(_) => Returned(p) + rest
    case Sys(_, spawns, yielding) =>
      Rescheduled([p] + rest + NewProcs(spawns), yielding)
  }

  /** The end of a round that executed an instruction. */
  function Finish(w: World, procs: seq<Proc>, codesz: nat, inp: Input): Round {
    match Tick(w, codesz, inp)
    case FiredUndefined => Crashed
    case Fired(w', spawns, _) => Running(State(w', procs + NewProcs(spawns)))
  }

  /** Executing an instruction whose operands are known, `p` being the head past it. */
  function Execute(op: Op, os: seq<Operand>, w: World, p: Proc, rest: seq<Proc>, codesz: nat, inp: Input): Round
    requires |os| == Arity(op)
  {
    var e := Effects(op, os, w, TopOf(p.cstack), codesz, inp);
    if e.Undefined? then Crashed
    else if e.Halt? then Exited(State(e.w, [p] + rest + NewProcs(e.spawns)))
    else Finish(e.w, Apply(e, p, rest), codesz, inp)
  }

  /** The part of a round that runs the head procedure. */
  function RunHead(table: Table, code: seq<byte>, s: State, inp: Input): Round
    requires ValidTable(table)
  {
    if s.procs == [] then Crashed   // the list is dereferenced although every event's procedure was refused
    else
      var p := s.procs[0];
      if p.iptr >= |code| then Running(s.(procs := s.procs[1..]))
      else
        match Decode(table, code, |s.w.mem|, p.iptr)
        case WildRead => Crashed
        case Fault(bits) => Exited(s.(w := Flag(s.w, bits)))
        case Decoded(opcode, os, length) =>
          if opcode >= |table| then Crashed
          else Execute(table[opcode], os, s.w, p.(iptr := p.iptr + length), s.procs[1..], |code|, inp)
  }

  /** One round of the main loop. */
  function Step(table: Table, code: seq<byte>, s: State, inp: Input): Round
    requires ValidTable(table)
  {
    if s.procs != [] then RunHead(table, code, s, inp)
    else
      match Idle(s.w, |code|, inp)
      case NothingPending => Exited(s)
      case IdleUndefined => Crashed
      case Slept(w) => Running(s.(w := w))
      case Woken(w, spawns) => RunHead(table, code, State(w, NewProcs(spawns)), inp)
  }

  /** As many rounds as there are inputs, unless the machine stops first. */
  function Run(table: Table, code: seq<byte>, s: State, inputs: seq<Input>): Round
    requires ValidTable(table)
    decreases |inputs|
  {
    if inputs == [] then Running(s)
    else
      match Step(table, code, s, inputs[0])
      case Running(s') => Run(table, code, s', inputs[1..])
      case Exited(s') => Exited(s')
      case Crashed => Crashed
  }
}
