/** What one round of the machine does, said without the functions that define it. */
module RoundLaws {
  import opened Bytes
  import opened Isa
  import opened Program
  import opened Encoding
  import opened Decoder
  import opened Children
  import opened World
  import opened ByteMachine
  import opened EventLaunch
  import opened Halting
  import opened DataLaws
  import opened OperandLaws

  // ---- Jumps

  /** The head is about to execute an instruction that the decoder reads as `d`. */
  ghost predicate HeadDecodes(table: Table, code: seq<byte>, s: State, d: Decoded) {
    && ValidTable(table) && s.procs != [] && s.procs[0].iptr < |code|
    && d == Decode(table, code, |s.w.mem|, s.procs[0].iptr) && d.Decoded? && d.opcode < |table|
  }

  /** The round stopped the machine, and all it did was to advance the head and to set flag `bit`. */
  ghost predicate StoppedWith(s: State, d: Decoded, r: Round, bit: nat)
    requires s.procs != [] && d.Decoded?
  {
    var p := s.procs[0];
    && r.Exited? && r.s.procs == [p.(iptr := p.iptr + d.length)] + s.procs[1..]
    && r.s.w == s.w.(exceptions := r.s.w.exceptions) && FlagSet(s.w.exceptions, r.s.w.exceptions, bit)
  }

  /**
   * The round left the head at `at` with its stack as it was, and the other procedures after it; between cleanups it
   * did nothing else.
   */
  ghost predicate HeadGoesTo(s: State, r: Round, at: nat)
    requires s.procs != []
  {
    var procs := [s.procs[0].(iptr := at)] + s.procs[1..];
    && !r.Exited?
    && (r.Running? ==> procs <= r.s.procs)
    && ((s.w.tick + 1) % 20 != 0 ==> r == Running(State(s.w.(tick := s.w.tick + 1), procs)))
  }

  /** Every twentieth instruction brings a cleanup, which counts from zero again; no other does. */
  lemma TickCounts(w: World, codesz: nat, inp: Input)
    ensures (w.tick + 1) % 20 != 0 ==> Tick(w, codesz, inp) == Fired(w.(tick := w.tick + 1), [], 0)
    ensures (w.tick + 1) % 20 == 0 && Tick(w, codesz, inp).Fired? ==>
              Tick(w, codesz, inp).w.tick == 0
              && Tick(w, codesz, inp).w.kids == Reports(w.kids, inp.cleanup, 0).kids
  {
    hide FireProcEvents, Reports, BlocksInside, Requests, Admitted;
    TickFires(w, codesz, inp);
  }

  /**
   * A jump whose operands are readable: `jmp` always, `jtrue` when its second operand is not 0 and `jfalse` when it
   * is 0 sends the head to the low 32 bits of the first; otherwise it goes on with the next instruction. A jump taken
   * to an address past the code stops the machine with the instruction pointer flag.
   */
  lemma JumpRound(table: Table, code: seq<byte>, s: State, inp: Input, d: Decoded, target: u64, c: u64)
    requires HeadDecodes(table, code, s, d) && |d.operands| > 0 && Gives(d.operands[0], s.w.mem, target)
    requires table[d.opcode] == Jmp || table[d.opcode] == JTrue || table[d.opcode] == JFalse
    requires table[d.opcode] != Jmp ==> |d.operands| > 1 && Gives(d.operands[1], s.w.mem, c)
    ensures var r := Step(table, code, s, inp);
            var taken := table[d.opcode] == Jmp || (c != 0 && table[d.opcode] == JTrue)
                         || (c == 0 && table[d.opcode] == JFalse);
            if !taken then HeadGoesTo(s, r, s.procs[0].iptr + d.length)
            else if target % WORD32 >= |code| then StoppedWith(s, d, r, 4)
            else HeadGoesTo(s, r, target % WORD32)
  {
    hide Decode, Gives, Effects, FlagSet, ByteMachine.Execute;
    var (op, os, p) := (table[d.opcode], d.operands, s.procs[0]);
    var next := p.(iptr := p.iptr + d.length);
    JumpDoes(op, os, s.w, TopOf(p.cstack), |code|, inp, target, c);
    ExecuteGoes(op, os, s, next, |code|, inp);
  }

  lemma JumpDoes(op: Op, os: seq<Operand>, w: World, top: Option<Top>, codesz: nat, inp: Input, target: u64, c: u64)
    requires (op == Jmp || op == JTrue || op == JFalse) && |os| == Arity(op)
    requires Gives(os[0], w.mem, target) && (op != Jmp ==> Gives(os[1], w.mem, c))
    ensures var e := Effects(op, os, w, top, codesz, inp);
            if (op == JTrue && c == 0) || (op == JFalse && c != 0) then e == Next(w)
            else if target % WORD32 >= codesz then
              e.Halt? && e.spawns == [] && e.w == w.(exceptions := e.w.exceptions)
              && FlagSet(w.exceptions, e.w.exceptions, 4)
            else e == Goto(w, target % WORD32)
  {
    hide Gives, ArgValue, Raise, FlagSet;
    GivenIsRead(os[0], w.mem, target);
    if op != Jmp { GivenIsRead(os[1], w.mem, c); }
    FaultBits(w.exceptions);
  }

  /** The rest of a round whose instruction goes on, jumps or stops; `p` is the head past that instruction. */
  lemma ExecuteGoes(op: Op, os: seq<Operand>, s: State, p: Proc, codesz: nat, inp: Input)
    requires |os| == Arity(op) && s.procs != [] && p.cstack == s.procs[0].cstack
    ensures var r := ByteMachine.Execute(op, os, s.w, p, s.procs[1..], codesz, inp);
            var e := Effects(op, os, s.w, TopOf(p.cstack), codesz, inp);
            && (e == Next(s.w) ==> HeadGoesTo(s, r, p.iptr))
            && (e.Goto? && e.w == s.w ==> HeadGoesTo(s, r, e.target))
            && (e.Halt? && e.spawns == [] ==> r == Exited(State(e.w, [p] + s.procs[1..])))
  {
    hide Effects, Tick;
    TickCounts(s.w, codesz, inp);
    NothingNew();
    assert s.procs[0].(iptr := p.iptr) == p;
  }

  lemma NothingNew()
    ensures NewProcs([]) == []
  {}

  /**
   * In assembled code: from the place of a conditional jump that names a code label, the head goes to the place of the
   * next instruction emitted at or after the label when the jump is taken, and else to the next instruction's place.
   * The jump faults exactly when it is taken and nothing is emitted there.
   */
  lemma LabelBranchRound(p: Program, debug: Mode, s: State, inp: Input, i: nat, l: string, c: u64, d: Decoded)
    requires Fits(p, debug) && i < |p.instns| && Kept(p, debug, i)
    requires HeadDecodes(p.table, Image(p, debug), s, d) && s.procs[0].iptr == Layout(p, debug, i)
    requires (OpAt(p, i) == JTrue || OpAt(p, i) == JFalse) && p.instns[i].args[0] == ImmLbl(l)
    requires l in p.labels && !p.labels[l].isMemRef && p.labels[l].offset <= |p.instns|
    requires |d.operands| > 1 && Gives(d.operands[1], s.w.mem, c)
    ensures var r := Step(p.table, Image(p, debug), s, inp);
            var taken := (c != 0 && OpAt(p, i) == JTrue) || (c == 0 && OpAt(p, i) == JFalse);
            var next := NextKept(p, debug, p.labels[l].offset);
            if !taken then HeadGoesTo(s, r, Layout(p, debug, i + 1))
            else if next == |p.instns| then StoppedWith(s, d, r, 4)
            else HeadGoesTo(s, r, Layout(p, debug, next))
  {
    hide Decode, Image, Layout, Gives, HeadGoesTo, StoppedWith, Step, InstnSize, NextKept;
    BranchDecodes(p, debug, |s.w.mem|, i, l, d);
    NextPlace(p, debug, i);
    var v := d.operands[0].value;
    ImmediateGives(d.operands[0], s.w.mem);
    ModIsRemainder(v, WORD32, 0, v);
    assert p.table[d.opcode] == OpAt(p, i);
    hide HeadDecodes, Kept, Fits, Valid;
    JumpRound(p.table, Image(p, debug), s, inp, d, v, c);
  }

  lemma BranchDecodes(p: Program, debug: Mode, memsz: nat, i: nat, l: string, d: Decoded)
    requires Fits(p, debug) && i < |p.instns| && Kept(p, debug, i)
    requires d == Decode(p.table, Image(p, debug), memsz, Layout(p, debug, i)) && d.Decoded?
    requires |p.instns[i].args| > 0 && p.instns[i].args[0] == ImmLbl(l)
    requires l in p.labels && !p.labels[l].isMemRef && p.labels[l].offset <= |p.instns|
    ensures d.opcode == p.instns[i].opcode && d.length == InstnSize(p.instns[i])
    ensures |d.operands| > 0 && d.operands[0].ImmVal?
    ensures var (v, next) := (d.operands[0].value, NextKept(p, debug, p.labels[l].offset));
            && v < WORD32
            && (if next == |p.instns| then v >= |Image(p, debug)|
                else v == Layout(p, debug, next) < |Image(p, debug)|)
  {
    hide Decode, Image, Layout, StandsFor, RefsOk, SourceOperand, InstnSize;
    OperandsMeanTheirSource(p, debug, memsz, i, 0);
    RoundTrip(p, debug, memsz, i);
    LabelGoes(p, debug, l, d.operands[0].value);
  }

  lemma ImmediateGives(o: Operand, mem: seq<byte>)
    ensures o.ImmVal? ==> Gives(o, mem, o.value)
  {}

  lemma NextPlace(p: Program, debug: Mode, i: nat)
    requires Fits(p, debug) && i < |p.instns| && Kept(p, debug, i)
    ensures Layout(p, debug, i + 1) == Layout(p, debug, i) + InstnSize(p.instns[i])
  {}

  lemma LabelGoes(p: Program, debug: Mode, l: string, v: nat)
    requires Fits(p, debug) && l in p.labels && !p.labels[l].isMemRef && p.labels[l].offset <= |p.instns|
    requires StandsFor(p, debug, l, v)
    ensures var next := NextKept(p, debug, p.labels[l].offset);
            && v < WORD32
            && (if next == |p.instns| then v >= |Image(p, debug)|
                else v == Layout(p, debug, next) < |Image(p, debug)|)
  {
    hide Layout, Image;
    var next := NextKept(p, debug, p.labels[l].offset);
    if next < |p.instns| {
      LayoutMonotone(p, debug, next, |p.instns|);
    }
  }

  // ---- Code that is no instruction

  /** At the head's address stand two bytes of code: an opcode above three bits. */
  predicate HeadWord(code: seq<byte>, s: State, opcode: nat, bits: nat) {
    && s.procs != [] && s.procs[0].iptr + 2 <= |code| && bits < 8
    && code[s.procs[0].iptr] as int + 256 * (code[s.procs[0].iptr + 1] as int) == 8 * opcode + bits
  }

  /**
   * An opcode beyond the table, by its low eight bits, stops the machine with the instruction code flag. The first one
   * beyond passes that check and is called through the table's empty last entry.
   */
  lemma UnknownOpcode(table: Table, code: seq<byte>, s: State, inp: Input, opcode: nat, bits: nat)
    requires ValidTable(table) && HeadWord(code, s, opcode, bits)
    ensures var r := Step(table, code, s, inp);
            && (opcode % 256 > |table| ==>
                  && r.Exited? && r.s == State(s.w.(exceptions := r.s.w.exceptions), s.procs)
                  && FlagSet(s.w.exceptions, r.s.w.exceptions, 5))
            && (opcode == |table| < 256 && bits == 0 ==> r.Crashed?)
  {
    HeadWordRead(code, s, opcode, bits);
    FaultBits(s.w.exceptions);
    hide WordAt, Raise, FlagSet, Effects;
  }

  lemma HeadWordRead(code: seq<byte>, s: State, opcode: nat, bits: nat)
    requires HeadWord(code, s, opcode, bits)
    ensures var word := WordAt(code, s.procs[0].iptr, 2);
            word / 8 == opcode && word % 8 == bits
  {
    var at := s.procs[0].iptr;
    var two := code[at..at + 2];
    assert two[1..] == [code[at + 1]] && [code[at + 1]][1..] == [];
    assert FromLE(two) == code[at] as int + 256 * FromLE(two[1..]);
    ModIsRemainder(8 * opcode + bits, 8, opcode, bits);
  }

  /** Code that ends within an instruction's first two bytes stops the machine with the instruction pointer flag. */
  lemma CutHeader(table: Table, code: seq<byte>, s: State, inp: Input)
    requires ValidTable(table) && s.procs != [] && s.procs[0].iptr < |code| < s.procs[0].iptr + 2
    ensures var r := Step(table, code, s, inp);
            && r.Exited? && r.s == State(s.w.(exceptions := r.s.w.exceptions), s.procs)
            && FlagSet(s.w.exceptions, r.s.w.exceptions, 4)
  {
    FaultBits(s.w.exceptions);
    hide Raise, FlagSet, Effects;
  }

  // ---- System calls

  /**
   * Once the events before a system call have fired, its operands are read in order: the low 16 bits of the first are
   * the call's number, the low 32 of the others its argument and result pointers. Numbers from 30 on stop the machine
   * with the system call flag.
   */
  lemma SyscallReads(os: seq<Operand>, w: World, codesz: nat, inp: Input, f: Fired, i: u64, a: u64, r: u64)
    requires |os| == 3 && f == SyscallEvents(w, codesz, inp) && f.Fired?
    requires Gives(os[0], f.w.mem, i) && Gives(os[1], f.w.mem, a) && Gives(os[2], f.w.mem, r)
    ensures var e := SyscallEffect(w, os, codesz, inp);
            var (w', id) := (f.w.(tick := 0), i % 0x1_0000);
            if id >= 30 then
              e.Halt? && e.spawns == f.spawns && e.w == w'.(exceptions := e.w.exceptions)
              && FlagSet(w'.exceptions, e.w.exceptions, 6)
            else
              var d := Dispatch(w', id, a % WORD32, r % WORD32, codesz, inp);
              (e.Undefined? <==> d.None?)
              && (d.Some? ==> e.Sys? && e.w == d.value && f.spawns <= e.spawns && (e.yielding <==> id == 4))
  {
    hide SyscallEvents, Gives, ArgValue, Raise, FlagSet, Dispatch, OwnRequests, Admitted;
    GivenIsRead(os[0], f.w.mem, i);
    GivenIsRead(os[1], f.w.mem, a);
    GivenIsRead(os[2], f.w.mem, r);
    FaultBits(f.w.exceptions);
  }

  // ---- When the main loop ends

  /** Some live child has an exit callback. */
  predicate CallbackWaits(t: ChildTable) {
    exists k :: 0 <= k < |t.slots| && t.slots[k].used && t.slots[k].cbs != []
  }

  /**
   * With no procedure left, a round ends the run, and changes nothing, exactly when there is no timer, no file or
   * socket event is pending, and no live child has an exit callback. Otherwise it sleeps when no event asks for a
   * procedure.
   */
  lemma EndsWhenNothingWaits(table: Table, code: seq<byte>, s: State, inp: Input)
    requires ValidTable(table) && s.procs == [] && Counted(s.w.kids)
    ensures var r := Step(table, code, s, inp);
            var waits := s.w.timers != [] || inp.ioPending || CallbackWaits(s.w.kids);
            && (r == Exited(s) <==> !waits)
            && (waits && EventsDefined(s.w, inp.idle) && EventRequests(s.w, inp.idle) == []
                ==> r.Running? && r.s.procs == []
                    && (inp.sleepErrno.Some? ==> r.s.w.errno == inp.sleepErrno.value))
  {
    hide RunHead, FireVmEvents, EventRequests, EventsDefined, Admitted, CallbackCount;
    PendingMeansLiveCallback(s.w.kids.slots);
    EventsFire(s.w, inp.idle, |code|);
    match Idle(s.w, |code|, inp)
    case Woken(w, spawns) => RunHeadKeepsSome(table, code, State(w, NewProcs(spawns)), inp);
    case _ =>
  }

  /** A round that runs a procedure and ends there leaves that procedure in the list. */
  lemma RunHeadKeepsSome(table: Table, code: seq<byte>, t: State, inp: Input)
    requires ValidTable(table)
    ensures RunHead(table, code, t, inp).Exited? ==> RunHead(table, code, t, inp).s.procs != []
  {
    hide Decode, Effects, Tick, Apply;
  }

  /** So it is in every state that a run reaches from one whose counters are right. */
  lemma RunEndsWhenNothingWaits(table: Table, code: seq<byte>, s: State, inputs: seq<Input>, inp: Input)
    requires ValidTable(table) && Counted(s.w.kids)
    ensures var r := Run(table, code, s, inputs);
            r.Running? && r.s.procs == [] ==>
              (Step(table, code, r.s, inp) == Exited(r.s)
               <==> r.s.w.timers == [] && !inp.ioPending && !CallbackWaits(r.s.w.kids))
  {
    hide Run, Step, Counted, CallbackWaits;
    CountedRun(table, code, s, inputs);
    var r := Run(table, code, s, inputs);
    if r.Running? && r.s.procs == [] {
      EndsWhenNothingWaits(table, code, r.s, inp);
    }
  }
}
