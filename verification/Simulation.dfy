/** Running the emitted bytes simulates the source program. */
module Simulation {
  import opened Bytes
  import opened Isa
  import opened Program
  import opened Encoding
  import opened Decoder
  import opened Children
  import opened World
  import opened ByteMachine
  import opened SourceMachine

  // ---- How the two machines' states correspond

  /** Address `b` is where index `pc` continues. */
  ghost predicate RelPc(p: Program, debug: Mode, b: nat, pc: nat)
    requires Valid(p)
  {
    pc <= |p.instns|
    && if NextKept(p, debug, pc) == |p.instns| then b >= CodeSize(p, debug) else b == Layout(p, debug, pc)
  }

  ghost predicate RelFrame(p: Program, debug: Mode, b: Frame, s: SFrame)
    requires Valid(p)
  {
    b.retval == s.retval && b.args == s.args
    && match s.resume
       case EndOfProc => b.retAddress == NONE32
       case To(pc) => b.retAddress != NONE32 && RelPc(p, debug, b.retAddress, pc)
  }

  ghost predicate RelStack(p: Program, debug: Mode, b: seq<Frame>, s: seq<SFrame>)
    requires Valid(p)
  {
    |b| == |s| && forall k :: 0 <= k < |b| ==> RelFrame(p, debug, b[k], s[k])
  }

  ghost predicate RelProc(p: Program, debug: Mode, b: Proc, s: SProc)
    requires Valid(p)
  {
    RelPc(p, debug, b.iptr, s.pc) && RelStack(p, debug, b.cstack, s.stack)
  }

  ghost predicate RelProcs(p: Program, debug: Mode, b: seq<Proc>, s: seq<SProc>)
    requires Valid(p)
  {
    |b| == |s| && forall k :: 0 <= k < |b| ==> RelProc(p, debug, b[k], s[k])
  }

  ghost predicate RelState(p: Program, debug: Mode, b: State, s: SState)
    requires Valid(p)
  {
    b.w == s.w && RelProcs(p, debug, b.procs, s.procs)
  }

  ghost predicate RelRound(p: Program, debug: Mode, b: Round, s: SRound)
    requires Valid(p)
  {
    match s
    case SRunning(s') => b.Running? && RelState(p, debug, b.s, s')
    case SExited(s') => b.Exited? && RelState(p, debug, b.s, s')
    case SCrashed => b.Crashed?
    case Stray => true
  }

  // ---- Addresses

  lemma PlaceInCode(p: Program, debug: Mode, pc: nat)
    requires Valid(p) && pc <= |p.instns|
    ensures NextKept(p, debug, pc) < |p.instns| <==> Layout(p, debug, pc) < CodeSize(p, debug)
    ensures Layout(p, debug, pc) <= CodeSize(p, debug)
  {
    LayoutMonotone(p, debug, pc, |p.instns|);
    LayoutGap(p, debug, pc, |p.instns|);
  }

  lemma RelOwnPlace(p: Program, debug: Mode, pc: nat)
    requires Valid(p) && pc <= |p.instns|
    ensures RelPc(p, debug, Layout(p, debug, pc), pc)
  {
    PlaceInCode(p, debug, pc);
  }

  lemma RelResolved(p: Program, debug: Mode, v: nat)
    requires Valid(p) && Resolve(p, debug, v).Some?
    ensures RelPc(p, debug, v, Resolve(p, debug, v).value)
  {}

  /** A label operand's value leads where the label does, even when nothing is emitted after the label. */
  lemma RelLabel(p: Program, debug: Mode, i: nat)
    requires Fits(p, debug) && i < |p.instns| && NamesCode(p, i)
    ensures var os := SourceOperands(p, debug, p.instns[i].args);
            |os| > 0 && os[0].ImmVal? && os[0].value < WORD32 && RelPc(p, debug, os[0].value, NamedIndex(p, i))
  {
    assert ValidArg(p, p.instns[i].args[0]);
    OffsetsFit(p, debug, NamedIndex(p, i));
    PlaceInCode(p, debug, NamedIndex(p, i));
  }

  lemma RelTop(p: Program, debug: Mode, b: seq<Frame>, s: seq<SFrame>)
    requires Valid(p) && RelStack(p, debug, b, s)
    ensures TopOf(b) == STopOf(s)
  {}

  lemma RelNewProcs(p: Program, debug: Mode, spawns: seq<Spawn>)
    requires Valid(p) && AllResolve(p, debug, spawns)
    ensures RelProcs(p, debug, NewProcs(spawns), SNewProcs(p, debug, spawns))
  {
    forall k | 0 <= k < |spawns|
      ensures RelProc(p, debug, NewProcs(spawns)[k], SNewProcs(p, debug, spawns)[k])
    {
      RelResolved(p, debug, spawns[k].entry);
    }
  }

  lemma RelConcat(p: Program, debug: Mode, b1: seq<Proc>, s1: seq<SProc>, b2: seq<Proc>, s2: seq<SProc>)
    requires Valid(p) && RelProcs(p, debug, b1, s1) && RelProcs(p, debug, b2, s2)
    ensures RelProcs(p, debug, b1 + b2, s1 + s2)
  {}

  // ---- One instruction

  /** Control leaves for another instruction only through the value of the first operand. */
  lemma TransferTarget(op: Op, os: seq<Operand>, w: World, top: Option<Top>, codesz: nat, inp: Input)
    requires |os| == Arity(op)
    ensures var e := Effects(op, os, w, top, codesz, inp);
            e.Goto? || e.Enter? ==>
              (op.Jmp? || op.JTrue? || op.JFalse? || op.Call?)
              && ArgValue(os[0], w.mem).Some? && e.target == ArgValue(os[0], w.mem).value % WORD32
  {
    hide SyscallEffect, CopyEffect, ReadEffect, WriteEffect, PutBin, RetvEffect, Put;
    match op {
      case Syscall => SyscallStays(w, os, codesz, inp);
      case Cp => CopyStays(w, os);
      case Read(n) => ReadStays(w, n, os);
      case Write(n) => WriteStays(w, n, os);
      case Bin3(f) => BinStays(w, os[0], Bin(f, ArgValue(os[1], w.mem), ArgValue(os[2], w.mem)));
      case Bin2(f) => BinStays(w, os[0], Bin(f, DestValue(os[0], w.mem), ArgValue(os[1], w.mem)));
      case Retv => RetvStays(w, os, top);
      case _ =>
    }
  }

  predicate Stays(e: Effect) {
    !e.Goto? && !e.Enter?
  }

  lemma SyscallStays(w: World, os: seq<Operand>, codesz: nat, inp: Input)
    requires |os| == 3
    ensures Stays(SyscallEffect(w, os, codesz, inp))
  {}

  lemma CopyStays(w: World, os: seq<Operand>)
    requires |os| == 3
    ensures Stays(CopyEffect(w, os))
  {}

  lemma ReadStays(w: World, n: nat, os: seq<Operand>)
    requires |os| == 3
    ensures Stays(ReadEffect(w, n, os))
  {}

  lemma WriteStays(w: World, n: nat, os: seq<Operand>)
    requires |os| == 3
    ensures Stays(WriteEffect(w, n, os))
  {}

  lemma BinStays(w: World, o: Operand, e: BinEval)
    ensures Stays(PutBin(w, o, e))
  {}

  lemma RetvStays(w: World, os: seq<Operand>, top: Option<Top>)
    requires |os| == 1
    ensures Stays(RetvEffect(w, os, top))
  {}

  /** Both machines send control to corresponding places. */
  lemma RelTarget(p: Program, debug: Mode, i: nat, w: World, top: Option<Top>, inp: Input)
    requires Fits(p, debug) && i < |p.instns|
    ensures var e := Effects(OpAt(p, i), SourceOperands(p, debug, p.instns[i].args), w, top, CodeSize(p, debug), inp);
            (e.Goto? || e.Enter?) && Target(p, debug, i, e.target).Some?
            ==> RelPc(p, debug, e.target, Target(p, debug, i, e.target).value)
  {
    var os := SourceOperands(p, debug, p.instns[i].args);
    var e := Effects(OpAt(p, i), os, w, top, CodeSize(p, debug), inp);
    TransferTarget(OpAt(p, i), os, w, top, CodeSize(p, debug), inp);
    hide Effects, RelPc, Resolve, SourceOperands, ValidInstn, NamesCode, NamedIndex;
    if (e.Goto? || e.Enter?) && Target(p, debug, i, e.target).Some? {
      if NamesCode(p, i) {
        RelLabel(p, debug, i);
        ModIsRemainder(os[0].value, WORD32, 0, os[0].value);
      } else {
        RelResolved(p, debug, e.target);
      }
    }
  }

  lemma RelCall(p: Program, debug: Mode, b: seq<Frame>, s: seq<SFrame>, argv: u32, retv: u32, at: u32, pc: nat)
    requires Valid(p) && RelStack(p, debug, b, s) && RelPc(p, debug, at, pc) && at != NONE32
    ensures RelStack(p, debug, b + [Frame(retv, argv, at)], s + [SFrame(retv, argv, To(pc))])
  {}

  lemma RelReturn(p: Program, debug: Mode, b: Proc, s: SProc)
    requires Valid(p) && RelProc(p, debug, b, s)
    ensures RelProcs(p, debug, Returned(b), SReturned(s))
  {
    if b.cstack != [] {
      assert RelFrame(p, debug, b.cstack[|b.cstack| - 1], s.stack[|s.stack| - 1]);
    }
  }

  lemma RelHead(p: Program, debug: Mode, b: Proc, s: SProc, rest: seq<Proc>, srest: seq<SProc>)
    requires Valid(p) && RelProc(p, debug, b, s) && RelProcs(p, debug, rest, srest)
    ensures RelProcs(p, debug, [b] + rest, [s] + srest)
    ensures RelProcs(p, debug, rest + [b], srest + [s])
  {}

  /** The procedure lists still correspond after the instruction. */
  lemma RelApply(p: Program, debug: Mode, i: nat, e: Effect, b: Proc, s: SProc, rest: seq<Proc>, srest: seq<SProc>)
    requires Fits(p, debug) && i < |p.instns|
    requires e.Next? || e.Goto? || e.Enter? || e.Leave? || e.Sys?
    requires RelProc(p, debug, b, s) && RelProcs(p, debug, rest, srest) && b.iptr < NONE32
    requires (e.Goto? || e.Enter?) && Target(p, debug, i, e.target).Some?
             ==> RelPc(p, debug, e.target, Target(p, debug, i, e.target).value)
    ensures SApply(p, debug, i, e, s, srest).Some?
            ==> RelProcs(p, debug, Apply(e, b, rest), SApply(p, debug, i, e, s, srest).value)
  {
    hide RelPc, RelProcs, RelStack, Resolve, Rescheduled, NewProcs, SNewProcs, Returned, SReturned;
    if SApply(p, debug, i, e, s, srest).Some? {
      match e {
        case Next(_) =>
          RelHead(p, debug, b, s, rest, srest);
        case Goto(_, t) =>
          RelHead(p, debug, b.(iptr := t), s.(pc := Target(p, debug, i, t).value), rest, srest);
        case Enter(_, t, argv, retv) =>
          RelCall(p, debug, b.cstack, s.stack, argv, retv, b.iptr, s.pc);
          RelHead(p, debug, Proc(t, b.cstack + [Frame(retv, argv, b.iptr)]),
                  SProc(Target(p, debug, i, t).value, s.stack + [SFrame(retv, argv, To(s.pc))]), rest, srest);
        case Leave(_) =>
          RelReturn(p, debug, b, s);
          RelConcat(p, debug, Returned(b), SReturned(s), rest, srest);
        case Sys(_, spawns, yielding) =>
          RelNewProcs(p, debug, spawns);
          RelHead(p, debug, b, s, rest, srest);
          RelConcat(p, debug, [b] + rest, [s] + srest, NewProcs(spawns), SNewProcs(p, debug, spawns));
          RelRescheduled(p, debug, [b] + rest + NewProcs(spawns), [s] + srest + SNewProcs(p, debug, spawns), yielding);
      }
    }
  }

  lemma RelRescheduled(p: Program, debug: Mode, b: seq<Proc>, s: seq<SProc>, yielding: bool)
    requires Valid(p) && RelProcs(p, debug, b, s)
    ensures RelProcs(p, debug, Rescheduled(b, yielding), Rescheduled(s, yielding))
  {}

  // ---- One round

  lemma RelFinish(p: Program, debug: Mode, w: World, b: seq<Proc>, s: seq<SProc>, inp: Input)
    requires Valid(p) && RelProcs(p, debug, b, s)
    ensures RelRound(p, debug, Finish(w, b, CodeSize(p, debug), inp), SFinish(p, debug, w, s, inp))
  {
    hide Tick, RelProcs, NewProcs, SNewProcs, AllResolve;
    match Tick(w, CodeSize(p, debug), inp) {
      case FiredUndefined =>
      case Fired(w', spawns, _) =>
        if AllResolve(p, debug, spawns) {
          RelNewProcs(p, debug, spawns);
          RelConcat(p, debug, b, s, NewProcs(spawns), SNewProcs(p, debug, spawns));
        }
    }
  }

  lemma RelExecute(p: Program, debug: Mode, i: nat, w: World, b: Proc, s: SProc, rest: seq<Proc>, srest: seq<SProc>,
                   inp: Input)
    requires Fits(p, debug) && i < |p.instns|
    requires RelProc(p, debug, b, s) && RelProcs(p, debug, rest, srest) && b.iptr < NONE32
    ensures var os := SourceOperands(p, debug, p.instns[i].args);
            RelRound(p, debug, Execute(OpAt(p, i), os, w, b, rest, CodeSize(p, debug), inp),
                     SExecute(p, debug, i, os, w, s, srest, inp))
  {
    hide Effects, RelProcs, RelPc, RelStack, NewProcs, SNewProcs, AllResolve, Apply, SApply, Finish, SFinish, Target,
      SourceOperand, ValidArg;
    var os := SourceOperands(p, debug, p.instns[i].args);
    RelTop(p, debug, b.cstack, s.stack);
    var e := Effects(OpAt(p, i), os, w, TopOf(b.cstack), CodeSize(p, debug), inp);
    RelTarget(p, debug, i, w, TopOf(b.cstack), inp);
    if e.Undefined? {
    } else if e.Halt? {
      if AllResolve(p, debug, e.spawns) {
        RelNewProcs(p, debug, e.spawns);
        RelHead(p, debug, b, s, rest, srest);
        RelConcat(p, debug, [b] + rest, [s] + srest, NewProcs(e.spawns), SNewProcs(p, debug, e.spawns));
      }
    } else {
      RelApply(p, debug, i, e, b, s, rest, srest);
      var procs := SApply(p, debug, i, e, s, srest);
      if procs.Some? {
        RelFinish(p, debug, e.w, Apply(e, b, rest), procs.value, inp);
      }
    }
  }

  lemma RelTail(p: Program, debug: Mode, b: seq<Proc>, s: seq<SProc>)
    requires Valid(p) && RelProcs(p, debug, b, s) && b != []
    ensures RelProc(p, debug, b[0], s[0]) && RelProcs(p, debug, b[1..], s[1..])
  {}

  /** The head's address is the place of the instruction the source executes next, or past the code. */
  lemma RelNext(p: Program, debug: Mode, b: nat, pc: nat)
    requires Valid(p) && RelPc(p, debug, b, pc)
    ensures var i := NextInstn(p, debug, pc);
            if i == |p.instns| then b >= CodeSize(p, debug)
            else b == Layout(p, debug, i) < CodeSize(p, debug)
                 && Layout(p, debug, i + 1) == b + InstnSize(p.instns[i])
                 && Layout(p, debug, i + 1) <= CodeSize(p, debug)
  {
    hide ValidInstn, InstnSize;
    var i := NextInstn(p, debug, pc);
    if i < |p.instns| {
      LayoutOfSkipped(p, debug, pc, i);
      PlaceInCode(p, debug, pc);
      PlaceInCode(p, debug, i + 1);
    }
  }

  lemma RelRunHead(p: Program, debug: Mode, b: State, s: SState, inp: Input)
    requires Fits(p, debug) && RelState(p, debug, b, s)
    ensures RelRound(p, debug, RunHead(p.table, Image(p, debug), b, inp), SRunHead(p, debug, s, inp))
  {
    hide RelProcs, RelPc, RelStack, Execute, SExecute, Decode, RefsOk, Image, NextInstn, SourceOperands, NextKept,
      Layout;
    RelSizes(p, debug, b.procs, s.procs);
    if |b.procs| > 0 {
      RelTail(p, debug, b.procs, s.procs);
      RelNext(p, debug, b.procs[0].iptr, s.procs[0].pc);
      var i := NextInstn(p, debug, s.procs[0].pc);
      if i < |p.instns| {
        RoundTrip(p, debug, |b.w.mem|, i);
        RelOwnPlace(p, debug, i + 1);
        if SourceDecode(p, debug, |b.w.mem|, i).Decoded? {
          RelExecute(p, debug, i, b.w, b.procs[0].(iptr := Layout(p, debug, i + 1)), s.procs[0].(pc := i + 1),
                     b.procs[1..], s.procs[1..], inp);
        }
      }
    }
  }

  lemma RelStep(p: Program, debug: Mode, b: State, s: SState, inp: Input)
    requires Fits(p, debug) && RelState(p, debug, b, s)
    ensures RelRound(p, debug, Step(p.table, Image(p, debug), b, inp), SStep(p, debug, s, inp))
  {
    hide RelProcs, RunHead, SRunHead, Idle, Image, NewProcs, SNewProcs, AllResolve;
    if |b.procs| > 0 {
      RelSizes(p, debug, b.procs, s.procs);
      RelRunHead(p, debug, b, s, inp);
    } else {
      RelSizes(p, debug, b.procs, s.procs);
      match Idle(b.w, CodeSize(p, debug), inp) {
        case Woken(w, spawns) =>
          if AllResolve(p, debug, spawns) {
            RelNewProcs(p, debug, spawns);
            RelRunHead(p, debug, State(w, NewProcs(spawns)), SState(w, SNewProcs(p, debug, spawns)), inp);
          }
        case _ =>
      }
    }
  }

  lemma RelSizes(p: Program, debug: Mode, b: seq<Proc>, s: seq<SProc>)
    requires Valid(p) && RelProcs(p, debug, b, s)
    ensures |b| == |s|
  {}

  /**
   * Compiler correctness over whole runs. For every program, every pair of corresponding states and
   * everything the outside world supplies, running the emitted bytes ends as the source does, in a
   * corresponding state, unless the source sends control to a number that is no instruction's place.
   */
  lemma {:induction false} Simulates(p: Program, debug: Mode, b: State, s: SState, inputs: seq<Input>)
    requires Fits(p, debug) && RelState(p, debug, b, s)
    ensures RelRound(p, debug, Run(p.table, Image(p, debug), b, inputs), SRun(p, debug, s, inputs))
    decreases |inputs|
  {
    hide RelState, Step, SStep, Image;
    if inputs != [] {
      RelStep(p, debug, b, s, inputs[0]);
      var r := SStep(p, debug, s, inputs[0]);
      if r.SRunning? {
        Simulates(p, debug, Step(p.table, Image(p, debug), b, inputs[0]).s, r.s, inputs[1..]);
      }
    }
  }
}
