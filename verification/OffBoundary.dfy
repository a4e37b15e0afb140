/** A program of one instruction that starts a procedure inside that instruction. */
module OffBoundary {
  import opened Bytes
  import opened Isa
  import opened Program
  import opened Encoding
  import opened Decoder
  import opened Children
  import opened World
  import opened ByteMachine
  import opened Boundaries
  import SyscallLaws

  /** `syscall` of `connect`, with the argument block at 0 and the answer at 36. */
  const CONNECTING := Program([Syscall], [SrcInstn(0, [Imm(17, 1), Imm(0, 1), Imm(36, 1)])], map[])

  /** Handle 1, the socket address at 0, the callback's arguments at 20, and 1 as its address; then room. */
  const MEMORY: seq<byte> := ToLE(1, 8) + ToLE(0, 4) + ToLE(20, 4) + ToLE(1, 4) + ToLE(0, 24)

  function Fresh(): World {
    World(MEMORY, 0, 0, 0, [], ChildTable([], 0, 0), 0)
  }

  /** The connection is there at once, and no file or socket has an event. */
  predicate ConnectsAtOnce(inp: Input) {
    inp.attempt.Connected? && inp.sys.io == Io([], 0, [])
  }

  lemma OneMoreByte(args: seq<Arg>, a: Arg)
    ensures a.Imm? && a.width == 1 ==> ArgsSize(args + [a]) == ArgsSize(args) + 1
  {
    assert (args + [a])[..|args|] == args;
  }

  lemma OnePlace(debug: Mode)
    ensures Fits(CONNECTING, debug) && CodeSize(CONNECTING, debug) == 6 && Kept(CONNECTING, debug, 0)
    ensures Layout(CONNECTING, debug, 0) == 0 && !Boundary(CONNECTING, debug, 1)
    ensures InstnSize(CONNECTING.instns[0]) == 6
  {
    var args := CONNECTING.instns[0].args;
    OneMoreByte([], args[0]);
    OneMoreByte([args[0]], args[1]);
    OneMoreByte([args[0], args[1]], args[2]);
    assert args == [args[0]] + [args[1]] + [args[2]] && IsImm(args[0]);
    assert Layout(CONNECTING, debug, 1) == Layout(CONNECTING, debug, 0) + 6;
  }

  lemma BlockRead()
    ensures |MEMORY| == 44 && Load64(MEMORY, 0) == Some(1)
    ensures Load32(MEMORY, 8) == Some(0) && Load32(MEMORY, 12) == Some(20) && Load32(MEMORY, 16) == Some(1)
  {
    hide ToLE;
    assert MEMORY[0..8] == ToLE(1, 8) && MEMORY[8..12] == ToLE(0, 4);
    assert MEMORY[12..16] == ToLE(20, 4) && MEMORY[16..20] == ToLE(1, 4);
    Capacities();
    LoadFitting(1, 8);
    LoadFitting(0, 4);
    LoadFitting(20, 4);
    LoadFitting(1, 4);
  }

  /**
   * Jumps, timers, events and children aside, control leaves the instruction boundaries: the call's own procedure is at
   * address 1, and the only instruction is at 0.
   */
  lemma ConnectLeavesBoundaries(debug: Mode, inp: Input)
    requires ConnectsAtOnce(inp)
    ensures Fits(CONNECTING, debug) && LabelTargets(CONNECTING, debug)
    ensures var r := Step(CONNECTING.table, Image(CONNECTING, debug), State(Fresh(), [Proc(0, [])]), inp);
            && r.Running? && r.s.procs == [Proc(6, []), Proc(1, [Frame(0, 20, NONE32)])]
            && !OnBoundaries(CONNECTING, debug, r.s.procs)
  {
    OnePlace(debug);
    HeadDecodes(debug);
    hide Decode, ToLE, Step, OnBoundaries, Boundary, Layout, CodeSize, Image, MEMORY;
    HeadCalls(Image(CONNECTING, debug), inp);
    NotThere(debug, [Proc(6, []), Proc(1, [Frame(0, 20, NONE32)])]);
  }

  lemma HeadDecodes(debug: Mode)
    requires Fits(CONNECTING, debug)
    ensures Decode([Syscall], Image(CONNECTING, debug), |MEMORY|, 0)
            == Decoded(0, [ImmVal(17), ImmVal(0), ImmVal(36)], 6)
  {
    OnePlace(debug);
    hide Decode, ToLE, Layout, CodeSize, Image, InstnSize;
    RoundTrip(CONNECTING, debug, |MEMORY|, 0);
    assert SourceOperands(CONNECTING, debug, CONNECTING.instns[0].args) == [ImmVal(17), ImmVal(0), ImmVal(36)];
  }

  lemma HeadCalls(code: seq<byte>, inp: Input)
    requires ConnectsAtOnce(inp) && |code| == 6
    requires Decode([Syscall], code, |MEMORY|, 0) == Decoded(0, [ImmVal(17), ImmVal(0), ImmVal(36)], 6)
    ensures var r := Step([Syscall], code, State(Fresh(), [Proc(0, [])]), inp);
            r.Running? && r.s.procs == [Proc(6, []), Proc(1, [Frame(0, 20, NONE32)])]
  {
    hide Decode, ToLE, SyscallEffect;
    CallStarts(Fresh(), [ImmVal(17), ImmVal(0), ImmVal(36)], |code|, inp);
    SyscallLaws.SyscallHandler([ImmVal(17), ImmVal(0), ImmVal(36)], Fresh(), None, |code|, inp);
    hide Effects;
  }

  lemma NotThere(debug: Mode, procs: seq<Proc>)
    requires Fits(CONNECTING, debug) && !Boundary(CONNECTING, debug, 1) && |procs| == 2 && procs[1].iptr == 1
    ensures !OnBoundaries(CONNECTING, debug, procs)
  {}

  lemma NothingFires(inp: Input)
    requires ConnectsAtOnce(inp)
    ensures var f := SyscallEvents(Fresh(), 6, inp);
            f.Fired? && f.spawns == [] && f.w == Fresh().(errno := f.w.errno)
  {
    hide ToLE;
    BlockRead();
  }

  lemma Connects(c: Attempt)
    requires c.Connected?
    ensures Connect(MEMORY, 0, 36, c) == Starts(1, 20, 1)
  {
    BlockRead();
    hide MEMORY, Load32, Load64;
  }

  lemma CallGoesThrough(w: World, inp: Input)
    requires w.mem == MEMORY && inp.attempt.Connected?
    ensures var r := Dispatch(w, 17, 0, 36, 6, inp);
            r.Some? && r.value.tick == w.tick
    ensures Admitted(OwnRequests(w, 17, 0, 36, inp), 6) == [Func(1, 20, 0)]
  {
    BlockRead();
    Connects(inp.attempt);
    hide MEMORY, Connect, ToLE, HandleBlock, Splice, Admit, Raise;
  }

  lemma CallStarts(w: World, os: seq<Operand>, codesz: nat, inp: Input)
    requires w == Fresh() && os == [ImmVal(17), ImmVal(0), ImmVal(36)] && codesz == 6 && ConnectsAtOnce(inp)
    ensures var e := SyscallEffect(w, os, codesz, inp);
            e.Sys? && e.spawns == [Func(1, 20, 0)] && !e.yielding && e.w.tick == 0
  {
    NothingFires(inp);
    var f := SyscallEvents(w, codesz, inp);
    var w' := f.w.(tick := 0);
    CallGoesThrough(w', inp);
    hide MEMORY, SyscallEvents, Dispatch, OwnRequests, Admitted, SyscallEffect;
    Through(w, os, codesz, inp, f, w');
  }

  lemma Through(w: World, os: seq<Operand>, codesz: nat, inp: Input, f: Fired, w': World)
    requires f == SyscallEvents(w, codesz, inp) && f.Fired? && f.spawns == [] && w' == f.w.(tick := 0)
    requires os == [ImmVal(17), ImmVal(0), ImmVal(36)]
    requires var r := Dispatch(w', 17, 0, 36, codesz, inp); r.Some? && r.value.tick == w'.tick
    requires Admitted(OwnRequests(w', 17, 0, 36, inp), codesz) == [Func(1, 20, 0)]
    ensures var e := SyscallEffect(w, os, codesz, inp);
            e.Sys? && e.spawns == [Func(1, 20, 0)] && !e.yielding && e.w.tick == 0
  {
    hide SyscallEvents, Dispatch, OwnRequests, Admitted, Raise;
    assert ArgValue(os[0], w'.mem) == Some(17) && ArgValue(os[1], w'.mem) == Some(0);
    assert ArgValue(os[2], w'.mem) == Some(36);
    assert 17 % 0x1_0000 == 17 && 0 % WORD32 == 0 && 36 % WORD32 == 36;
    assert f.spawns + [Func(1, 20, 0)] == [Func(1, 20, 0)];
  }
}
