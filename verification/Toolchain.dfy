/** From a parsed program to the end of its run: code generation, data, start-up and execution together. */
module Toolchain {
  import opened Bytes
  import opened Isa
  import opened Program
  import opened Encoding
  import opened Decoder
  import opened Assembler
  import opened DataSegment
  import opened Children
  import opened World
  import opened ByteMachine
  import opened SourceMachine
  import opened Simulation
  import opened Boundaries
  import opened VmExec

  function StartWorld(memory: seq<byte>): World {
    World(memory, 0, 0, 0, [], ChildTable([], 0, 0), 0)
  }

  /** The source program about to execute instruction `entry`. */
  function StartState(memory: seq<byte>, entry: nat): SState {
    SState(StartWorld(memory), [SProc(entry, [])])
  }

  /** The object is where the byte machine's run has got to, the last cleanup included once it left the loop. */
  ghost predicate CameTo(r: Round, last: seq<Wait>, vm: Vm, st: LoopStatus)
    reads vm, vm.timers, vm.memory, vm.sched
  {
    match r
    case Running(s) => st.GoesOn? && vm.TheState() == s
    case Exited(s) =>
      var f := FireProcEvents(NoEvents(s.w), last, 0, |vm.code|);
      if f.FiredUndefined? then st.Broke?
      else st.Left? && vm.TheState() == State(f.w.(tick := 0), s.procs + NewProcs(f.spawns))
    case Crashed => st.Broke?
  }

  /** The object is where the source program's run has got to. */
  ghost predicate RanAs(p: Program, debug: Mode, r: SRound, last: seq<Wait>, vm: Vm, st: LoopStatus)
    requires Valid(p)
    reads vm, vm.timers, vm.memory, vm.sched
  {
    match r
    case SRunning(s) => st.GoesOn? && RelState(p, debug, vm.TheState(), s)
    case SExited(s) =>
      var f := FireProcEvents(NoEvents(s.w), last, 0, CodeSize(p, debug));
      if f.FiredUndefined? then st.Broke?
      else
        && st.Left? && vm.TheWorld() == f.w.(tick := 0)
        && |s.procs| <= |vm.sched.procs| && RelProcs(p, debug, vm.sched.procs[..|s.procs|], s.procs)
    case SCrashed => st.Broke?
    case Stray => true
  }

  /** The entry label's instruction is emitted, or one after it, and its place is its index. */
  ghost predicate EntryInPlace(p: Program, debug: Mode, entry: nat)
    requires Valid(p)
  {
    entry < |p.instns| && NextKept(p, debug, entry) < |p.instns| && Layout(p, debug, entry) == entry
  }

  /** A program whose entry label stands where its index says starts at that instruction. */
  lemma Starts(p: Program, debug: Mode, entry: nat, memory: seq<byte>)
    requires Fits(p, debug) && EntryInPlace(p, debug, entry)
    ensures entry < CodeSize(p, debug) && entry < WORD32
    ensures RelState(p, debug, State(StartWorld(memory), [Proc(entry, [])]), StartState(memory, entry))
  {
    EntryStarts(p, debug, entry, StartWorld(memory));
    PlaceInCode(p, debug, entry);
    OffsetsFit(p, debug, entry);
  }

  /** What the object did for the byte machine, it did for the source program. */
  lemma RanForSource(p: Program, debug: Mode, b: State, s: SState, inputs: seq<Input>, last: seq<Wait>, vm: Vm,
                     st: LoopStatus)
    requires Fits(p, debug) && RelState(p, debug, b, s) && vm.code == Image(p, debug)
    requires CameTo(Run(p.table, Image(p, debug), b, inputs), last, vm, st)
    ensures RanAs(p, debug, SRun(p, debug, s, inputs), last, vm, st)
  {
    hide Run, SRun, RelProc, FireProcEvents, Image;
    Simulates(p, debug, b, s, inputs);
  }

  /** The instructions' offsets when generation is done. */
  ghost function Offsets(p: Program, debug: Mode): (r: seq<u32>)
    requires Fits(p, debug)
    ensures |r| == |p.instns| && forall j :: 0 <= j < |r| ==> r[j] == MemOffset(p, debug, j)
  {
    seq(|p.instns|, j requires 0 <= j < |p.instns| => OffsetOf(p, debug, j))
  }

  ghost function OffsetOf(p: Program, debug: Mode, j: nat): u32
    requires Fits(p, debug) && j < |p.instns|
  {
    OffsetsFit(p, debug, j);
    MemOffset(p, debug, j)
  }

  /** The image can be written: every data label resolves, and the entry label is a code label. */
  ghost predicate Builds(p: Program, debug: Mode, refs: seq<LabelRef>, entryLabel: string)
    requires Fits(p, debug) && CodeLabelsIn(p.labels, |p.instns|)
  {
    && (forall k :: 0 <= k < |refs| ==> Resolves(refs[k], p.labels, Offsets(p, debug)))
    && entryLabel in p.labels && !p.labels[entryLabel].isMemRef
  }

  /** Code generation and the filling in of the data segment. */
  method Build(p: Program, debug: Mode, data: Segment, entryLabel: string)
    returns (built: bool, code: seq<byte>, entry: u32)
    requires Fits(p, debug) && CodeLabelsIn(p.labels, |p.instns|) && data.Valid()
    modifies data.memory
    ensures built <==> Builds(p, debug, data.labelRefs, entryLabel)
    ensures built ==>
              && SlotsIn(data.labelRefs, |old(data.memory[..])|)
              && data.memory[..] == Resolved(old(data.memory[..]), data.labelRefs, p.labels, Offsets(p, debug))
              && code == Image(p, debug) && entry == p.labels[entryLabel].offset
  {
    hide Image, Valid, Layout, NextKept, MemOffset;
    entry := 0;
    var memOffset := new u32[|p.instns|](_ => NONE32);
    var buffer, size := ParseToBytecode(p, debug, memOffset);
    code := buffer[..size];
    assert memOffset[..] == Offsets(p, debug);
    built := data.ResolveLabelRefs(p.labels, memOffset[..]);
    if built {
      built := entryLabel in p.labels && !p.labels[entryLabel].isMemRef;
      if built {
        entry := p.labels[entryLabel].offset;
      }
    }
  }

  /** Starting the image and running it for as many rounds as the outside world supplies input for. */
  method Start(table: Table, code: seq<byte>, memory: seq<byte>, entry: u32, inputs: seq<Input>, last: seq<Wait>)
    returns (vm: Vm, st: LoopStatus)
    requires ValidTable(table)
    ensures fresh(vm) && vm.code == code
    ensures entry < |code| ==>
              CameTo(Run(table, code, State(StartWorld(memory), [Proc(entry, [])]), inputs), last, vm, st)
  {
    hide Run, FireProcEvents, Flag, Vm.Valid;
    vm := MakeVm(table, code, memory, entry);
    st := vm.ExecuteVm(inputs, last);
  }

  /**
   * Assembling a program, resolving its data, and executing the image for as many rounds as the outside world
   * supplies input for, does what the source program does, from the entry label's instruction and the resolved data.
   * The start address in the image is that instruction's index, hence the condition on its place.
   */
  method AssembleAndRun(p: Program, debug: Mode, data: Segment, entryLabel: string, inputs: seq<Input>, last: seq<Wait>)
    returns (built: bool, vm: Vm?, st: LoopStatus)
    requires Fits(p, debug) && CodeLabelsIn(p.labels, |p.instns|) && data.Valid()
    modifies data.memory
    ensures built <==> Builds(p, debug, data.labelRefs, entryLabel)
    ensures built ==>
              && vm != null && fresh(vm) && vm.code == Image(p, debug)
              && SlotsIn(data.labelRefs, |old(data.memory[..])|)
              && var bytes := Resolved(old(data.memory[..]), data.labelRefs, p.labels, Offsets(p, debug));
                 var entry := p.labels[entryLabel].offset;
                 data.memsz <= |bytes|
                 && (EntryInPlace(p, debug, entry) ==>
                       RanAs(p, debug, SRun(p, debug, StartState(bytes[..data.memsz], entry), inputs), last, vm, st))
  {
    assert ValidTable(p.table);
    hide Image, Run, SRun, RelState, RelProcs, FireProcEvents, Valid, Layout, NextKept, CameTo, RanAs, Builds,
      Resolved, Offsets, EntryInPlace;
    vm, st := null, GoesOn;
    var code, entry;
    built, code, entry := Build(p, debug, data, entryLabel);
    if built {
      var memory := data.memory[..data.memsz];
      var started, status := Start(p.table, code, memory, entry, inputs, last);
      vm, st := started, status;
      if EntryInPlace(p, debug, entry) {
        Starts(p, debug, entry, memory);
        RanForSource(p, debug, State(StartWorld(memory), [Proc(entry, [])]), StartState(memory, entry), inputs, last,
                     started, st);
      }
    }
  }
}
