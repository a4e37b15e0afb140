/** Procedures over whole runs: whose turn it is, and how calls and returns match up. */
module Bracketing {
  import opened Bytes
  import opened Isa
  import opened Decoder
  import opened Children
  import opened World
  import opened ByteMachine

  /** What a round does with the head of the procedure list. */
  datatype Turn = KeepsRunning | Yields | Ends

  /** The effect of the instruction the head is about to execute, if it gets to execute one. */
  function HeadEffect(table: Table, code: seq<byte>, s: State, inp: Input): Option<Effect>
    requires ValidTable(table) && s.procs != []
  {
    var p := s.procs[0];
    if p.iptr >= |code| then None
    else
      var d := Decode(table, code, |s.w.mem|, p.iptr);
      if !d.Decoded? || d.opcode >= |table| then None
      else Some(Effects(table[d.opcode], d.operands, s.w, TopOf(p.cstack), |code|, inp))
  }

  /** The turn an executed instruction makes, with `n` procedures in the list. */
  function TurnBy(e: Effect, p: Proc, n: nat): Turn {
    if e.Leave? && Returned(p) == [] then Ends
    else if e.Sys? && e.yielding && n + |e.spawns| > 1 then Yields
    else KeepsRunning
  }

  function TurnAt(e: Option<Effect>, procs: seq<Proc>): Turn
    requires procs != []
  {
    if e.None? then Ends else TurnBy(e.value, procs[0], |procs|)
  }

  function TurnOf(table: Table, code: seq<byte>, s: State, inp: Input): Turn
    requires ValidTable(table) && s.procs != []
  {
    TurnAt(HeadEffect(table, code, s, inp), s.procs)
  }

  function MovedAt(e: Option<Effect>, procs: seq<Proc>, k: nat): Option<nat>
    requires k < |procs|
  {
    match TurnAt(e, procs)
    case KeepsRunning => Some(k)
    case Ends => if k == 0 then None else Some(k - 1)
    case Yields => if k > 0 then Some(k - 1) else Some(|procs| + |e.value.spawns| - 1)
  }

  /** Where the procedure at position `k` is after the round, if it has not ended. */
  function Moved(table: Table, code: seq<byte>, s: State, inp: Input, k: nat): Option<nat>
    requires ValidTable(table) && k < |s.procs|
  {
    MovedAt(HeadEffect(table, code, s, inp), s.procs, k)
  }

  /** The head's own state after executing an instruction with effect `e`, `p` being past it. */
  function HeadAfter(e: Effect, p: Proc): Proc {
    match e
    case Goto(_, t) => p.(iptr := t)
    case Enter(_, t, argv, retv) => Proc(t, p.cstack + [Frame(retv, argv, p.iptr % WORD32)])
    case Leave(_) => if Returned(p) == [] then p else Returned(p)[0]
    case _ => p
  }

  /** The head past the instruction at its address. */
  function PastInstn(table: Table, code: seq<byte>, s: State): Proc
    requires ValidTable(table) && s.procs != []
  {
    var p := s.procs[0];
    var d := Decode(table, code, |s.w.mem|, p.iptr);
    if d.Decoded? then p.(iptr := p.iptr + d.length) else p
  }

  /** Where the procedure at `k` of the list `[p] + rest` is in the list after the instruction. */
  lemma Applied(e: Effect, p: Proc, rest: seq<Proc>, k: nat)
    requires e.Next? || e.Goto? || e.Enter? || e.Leave? || e.Sys?
    requires k <= |rest|
    ensures var q := Apply(e, p, rest); var now := if k == 0 then HeadAfter(e, p) else rest[k - 1];
            match TurnBy(e, p, |rest| + 1)
            case KeepsRunning => k < |q| && q[k] == now
            case Ends => k > 0 ==> k - 1 < |q| && q[k - 1] == now
            case Yields =>
              var j := if k > 0 then k - 1 else |rest| + |e.spawns|;
              j < |q| && q[j] == now
  {
    match e {
      case Sys(_, spawns, yielding) =>
        assert ([p] + rest + NewProcs(spawns))[k] == if k == 0 then p else rest[k - 1];
      case _ =>
    }
  }

  /** What the head is after executing its instruction. */
  function HeadNext(table: Table, code: seq<byte>, s: State, inp: Input): Option<Proc>
    requires ValidTable(table) && s.procs != []
  {
    HeadThen(HeadEffect(table, code, s, inp), PastInstn(table, code, s))
  }

  function HeadThen(e: Option<Effect>, past: Proc): Option<Proc> {
    if e.None? then None else Some(HeadAfter(e.value, past))
  }

  /** The procedure at `k` of `before` is at `at` in `procs`: as it was, or as its instruction left the head. */
  predicate Continues(procs: seq<Proc>, before: seq<Proc>, k: nat, at: Option<nat>, head: Option<Proc>)
    requires k < |before|
  {
    match at
    case None => k == 0
    case Some(j) => j < |procs| && if k > 0 then procs[j] == before[k] else head == Some(procs[j])
  }

  /** The list after a round, given the effect of the head's instruction. */
  predicate LeftBy(e: Option<Effect>, past: Proc, before: seq<Proc>, procs: seq<Proc>)
    requires before != []
  {
    if e.None? then procs == before[1..]
    else
      && (e.value.Next? || e.value.Goto? || e.value.Enter? || e.value.Leave? || e.value.Sys?)
      && Apply(e.value, past, before[1..]) <= procs && Returned(past) == Returned(before[0])
  }

  /** What a round leaves is what the head's instruction left, and possibly more procedures behind. */
  lemma RoundApplies(table: Table, code: seq<byte>, s: State, inp: Input)
    requires ValidTable(table) && s.procs != [] && Step(table, code, s, inp).Running?
    ensures LeftBy(HeadEffect(table, code, s, inp), PastInstn(table, code, s), s.procs,
                   Step(table, code, s, inp).s.procs)
  {
    hide Decode, Effects, Tick, Apply;
  }

  lemma AllContinue(e: Option<Effect>, past: Proc, before: seq<Proc>, procs: seq<Proc>, k: nat)
    requires k < |before| && LeftBy(e, past, before, procs)
    ensures Continues(procs, before, k, MovedAt(e, before, k), HeadThen(e, past))
  {
    if e.Some? {
      Applied(e.value, past, before[1..], k);
      hide Apply, HeadAfter, Returned;
    }
  }

  /** Procedures that do not run are not touched; the running one changes only as its instruction says. */
  lemma RoundMoves(table: Table, code: seq<byte>, s: State, inp: Input, k: nat)
    requires ValidTable(table) && k < |s.procs| && Step(table, code, s, inp).Running?
    ensures Continues(Step(table, code, s, inp).s.procs, s.procs, k, Moved(table, code, s, inp, k),
                      HeadNext(table, code, s, inp))
  {
    hide Step, HeadEffect, PastInstn, LeftBy, Continues, MovedAt, HeadThen;
    RoundApplies(table, code, s, inp);
    AllContinue(HeadEffect(table, code, s, inp), PastInstn(table, code, s), s.procs,
                Step(table, code, s, inp).s.procs, k);
  }

  // ---- Turns

  /** The state after the inputs and where the procedure at `k` has moved to, while it lives and the machine runs. */
  function Follow(table: Table, code: seq<byte>, s: State, inputs: seq<Input>, k: nat): (r: Option<(State, nat)>)
    requires ValidTable(table) && k < |s.procs|
    ensures r.Some? ==> r.value.1 < |r.value.0.procs|
    ensures r.Some? ==> Run(table, code, s, inputs) == Running(r.value.0)
    decreases |inputs|
  {
    if inputs == [] then Some((s, k))
    else
      var r := Step(table, code, s, inputs[0]);
      var j := Moved(table, code, s, inputs[0], k);
      if !r.Running? || j.None? then None
      else
        RoundMoves(table, code, s, inputs[0], k);
        Follow(table, code, r.s, inputs[1..], j.value)
  }

  /** Rounds in which the head yielded or ended. */
  function Turns(table: Table, code: seq<byte>, s: State, inputs: seq<Input>): nat
    requires ValidTable(table)
    decreases |inputs|
  {
    if inputs == [] || s.procs == [] then 0
    else
      (if TurnOf(table, code, s, inputs[0]).KeepsRunning? then 0 else 1)
      + (var r := Step(table, code, s, inputs[0]); if r.Running? then Turns(table, code, r.s, inputs[1..]) else 0)
  }

  /** The procedure at `k` is not at the head in any state before the last. */
  predicate Waits(table: Table, code: seq<byte>, s: State, inputs: seq<Input>, k: nat)
    requires ValidTable(table)
    decreases |inputs|
  {
    k < |s.procs|
    && (inputs == []
        || (k > 0
            && var r := Step(table, code, s, inputs[0]);
               r.Running?
               && Waits(table, code, r.s, inputs[1..],
                        if TurnOf(table, code, s, inputs[0]).KeepsRunning? then k else k - 1)))
  }

  lemma WaitingMoves(table: Table, code: seq<byte>, s: State, inp: Input, k: nat)
    requires ValidTable(table) && 0 < k < |s.procs|
    ensures Moved(table, code, s, inp, k) == Some(if TurnOf(table, code, s, inp).KeepsRunning? then k else k - 1)
  {
    hide HeadEffect, TurnBy;
  }

  /**
   * First in, first out: while it waits, the procedure at position `k` is untouched and one place nearer the
   * head for each yield or end of a head, whatever is appended meanwhile; so it runs after exactly `k` of them.
   */
  lemma {:induction false} TurnComes(table: Table, code: seq<byte>, s: State, inputs: seq<Input>, k: nat)
    requires ValidTable(table) && Waits(table, code, s, inputs, k)
    ensures var f := Follow(table, code, s, inputs, k);
            && f.Some? && f.value.0.procs[f.value.1] == s.procs[k]
            && f.value.1 == k - Turns(table, code, s, inputs)
            && (f.value.1 == 0 <==> Turns(table, code, s, inputs) == k)
    decreases |inputs|
  {
    hide Step, TurnOf, Moved, HeadNext;
    if inputs != [] {
      RoundMoves(table, code, s, inputs[0], k);
      WaitingMoves(table, code, s, inputs[0], k);
      var j := if TurnOf(table, code, s, inputs[0]).KeepsRunning? then k else k - 1;
      TurnComes(table, code, Step(table, code, s, inputs[0]).s, inputs[1..], j);
    }
  }

  // ---- Calls and returns

  /** The procedure at `k` lives on, with more than `h` frames, in this and every later state. */
  predicate Inside(table: Table, code: seq<byte>, s: State, inputs: seq<Input>, k: nat, h: nat)
    requires ValidTable(table)
    decreases |inputs|
  {
    k < |s.procs| && |s.procs[k].cstack| > h
    && (inputs == []
        || (var r := Step(table, code, s, inputs[0]);
            var j := Moved(table, code, s, inputs[0], k);
            r.Running? && j.Some? && Inside(table, code, r.s, inputs[1..], j.value, h)))
  }

  /** One instruction pushes a frame, pops one, or leaves the stack alone. */
  lemma HeadStack(e: Effect, p: Proc, h: nat)
    requires |p.cstack| > h
    ensures var q := HeadAfter(e, p);
            && (|q.cstack| > h ==> q.cstack[..h + 1] == p.cstack[..h + 1])
            && (|q.cstack| <= h ==> e.Leave? && |p.cstack| == h + 1 && q == Proc(p.cstack[h].retAddress, p.cstack[..h]))
  {}

  lemma RoundKeepsFrames(table: Table, code: seq<byte>, s: State, inp: Input, k: nat, h: nat)
    requires ValidTable(table) && k < |s.procs| && |s.procs[k].cstack| > h
    requires Step(table, code, s, inp).Running? && Moved(table, code, s, inp, k).Some?
    ensures var q := Step(table, code, s, inp).s.procs; var j := Moved(table, code, s, inp, k).value;
            && j < |q|
            && (|q[j].cstack| > h ==> q[j].cstack[..h + 1] == s.procs[k].cstack[..h + 1])
            && (|q[j].cstack| <= h ==>
                  k == 0 && HeadEffect(table, code, s, inp).Some? && HeadEffect(table, code, s, inp).value.Leave?
                  && |s.procs[k].cstack| == h + 1
                  && q[j] == Proc(s.procs[k].cstack[h].retAddress, s.procs[k].cstack[..h]))
  {
    hide Step, HeadEffect, TurnOf, HeadAfter;
    RoundMoves(table, code, s, inp, k);
    if k == 0 {
      HeadStack(HeadEffect(table, code, s, inp).value, PastInstn(table, code, s), h);
    }
  }

  /** While a call is being served, its frame and all frames below it stay as they are. */
  lemma {:induction false} FramesKept(table: Table, code: seq<byte>, s: State, inputs: seq<Input>, k: nat, h: nat)
    requires ValidTable(table) && Inside(table, code, s, inputs, k, h)
    ensures var f := Follow(table, code, s, inputs, k);
            && f.Some? && |f.value.0.procs[f.value.1].cstack| > h
            && f.value.0.procs[f.value.1].cstack[..h + 1] == s.procs[k].cstack[..h + 1]
    decreases |inputs|
  {
    hide Step, Moved;
    if inputs != [] {
      RoundKeepsFrames(table, code, s, inputs[0], k, h);
      FramesKept(table, code, Step(table, code, s, inputs[0]).s, inputs[1..],
                 Moved(table, code, s, inputs[0], k).value, h);
    }
  }

  /** The procedure at `k` is serving the call that pushed `frame` onto `below`. */
  predicate Serving(s: State, k: nat, below: seq<Frame>, frame: Frame) {
    k < |s.procs| && |s.procs[k].cstack| > |below|
    && s.procs[k].cstack[..|below|] == below && s.procs[k].cstack[|below|] == frame
  }

  /**
   * If the procedure at `k` comes out of the call in this round, then it is the head, it executes `ret`, and it
   * resumes where the frame says with the stack below it.
   */
  predicate ComesBack(table: Table, code: seq<byte>, s: State, inp: Input, k: nat, below: seq<Frame>, frame: Frame)
    requires ValidTable(table)
  {
    k < |s.procs|
    && var r, j := Step(table, code, s, inp), Moved(table, code, s, inp, k);
       r.Running? && j.Some? ==>
         j.value < |r.s.procs|
         && (Serving(r.s, j.value, below, frame)
             || (k == 0 && HeadEffect(table, code, s, inp).Some? && HeadEffect(table, code, s, inp).value.Leave?
                 && r.s.procs[j.value] == Proc(frame.retAddress, below)))
  }

  lemma ServingStep(table: Table, code: seq<byte>, s: State, inp: Input, k: nat, below: seq<Frame>, frame: Frame)
    requires ValidTable(table) && Serving(s, k, below, frame)
    ensures ComesBack(table, code, s, inp, k, below, frame)
  {
    hide Step, HeadEffect, Moved;
    if Step(table, code, s, inp).Running? && Moved(table, code, s, inp, k).Some? {
      RoundKeepsFrames(table, code, s, inp, k, |below|);
      var j := Moved(table, code, s, inp, k).value;
      var q := Step(table, code, s, inp).s.procs[j].cstack;
      if |q| > |below| {
        assert s.procs[k].cstack[..|below| + 1] == below + [frame];
        PrefixParts(q, below, frame);
      }
    }
  }

  /** The head of `s` executes a call. */
  predicate Calls(table: Table, code: seq<byte>, s: State, inp: Input)
    requires ValidTable(table)
  {
    s.procs != [] && Step(table, code, s, inp).Running?
    && HeadEffect(table, code, s, inp).Some? && HeadEffect(table, code, s, inp).value.Enter?
  }

  /** The frame that call pushes: its pointers, and the address right after it. */
  function CallFrame(table: Table, code: seq<byte>, s: State, inp: Input): Frame
    requires ValidTable(table) && Calls(table, code, s, inp)
  {
    var e := HeadEffect(table, code, s, inp).value;
    Frame(e.retv, e.argv, PastInstn(table, code, s).iptr % WORD32)
  }

  lemma CallPushes(table: Table, code: seq<byte>, s: State, inp: Input)
    requires ValidTable(table) && |code| < NONE32 && Calls(table, code, s, inp)
    ensures var f := CallFrame(table, code, s, inp);
            Serving(Step(table, code, s, inp).s, 0, s.procs[0].cstack, f)
            && f.retAddress == PastInstn(table, code, s).iptr != NONE32
  {
    hide Step, Effects, DecodeArgs;
    RoundMoves(table, code, s, inp, 0);
    var after := PastInstn(table, code, s).iptr;
    ModIsRemainder(after, WORD32, 0, after);
  }

  /**
   * Call and return match up under interleaving. The head of `s` executes a call. While the call is being served,
   * whatever other procedures run or are created, the caller's frames and the call's own frame are untouched; and
   * the round in which the stack first comes back to the caller's height is a `ret` by that same procedure, which
   * resumes right after the call with the caller's stack.
   */
  lemma CallReturns(table: Table, code: seq<byte>, s: State, call: Input, mid: seq<Input>, last: Input)
    requires ValidTable(table) && |code| < NONE32 && Calls(table, code, s, call)
    requires Inside(table, code, Step(table, code, s, call).s, mid, 0, |s.procs[0].cstack|)
    ensures var frame := CallFrame(table, code, s, call);
            var f := Follow(table, code, Step(table, code, s, call).s, mid, 0);
            && frame.retAddress == PastInstn(table, code, s).iptr
            && f.Some? && Serving(f.value.0, f.value.1, s.procs[0].cstack, frame)
            && ComesBack(table, code, f.value.0, last, f.value.1, s.procs[0].cstack, frame)
  {
    hide Step, Inside, Follow, CallFrame, ComesBack, HeadEffect;
    var below := s.procs[0].cstack;
    var frame := CallFrame(table, code, s, call);
    var s1 := Step(table, code, s, call).s;
    CallPushes(table, code, s, call);
    FramesKept(table, code, s1, mid, 0, |below|);
    var (s2, k) := Follow(table, code, s1, mid, 0).value;
    assert s1.procs[0].cstack[..|below| + 1] == below + [frame];
    PrefixParts(s2.procs[k].cstack, below, frame);
    ServingStep(table, code, s2, last, k, below, frame);
  }

  lemma PrefixParts(s: seq<Frame>, t: seq<Frame>, f: Frame)
    requires |s| > |t| && s[..|t| + 1] == t + [f]
    ensures s[..|t|] == t && s[|t|] == f
  {
    assert s[..|t| + 1][..|t|] == s[..|t|];
    assert s[..|t| + 1][|t|] == s[|t|];
  }

  // ---- Callback procedures

  /** Only a bottom frame returns through the sentinel. */
  predicate SentinelAtBottom(stack: seq<Frame>) {
    forall f :: 0 < f < |stack| ==> stack[f].retAddress != NONE32
  }

  predicate SentinelsAtBottom(procs: seq<Proc>) {
    forall k :: 0 <= k < |procs| ==> SentinelAtBottom(procs[k].cstack)
  }

  lemma BottomAfter(e: Effect, p: Proc, rest: seq<Proc>)
    requires SentinelAtBottom(p.cstack) && SentinelsAtBottom(rest) && p.iptr < NONE32
    requires e.Next? || e.Goto? || e.Enter? || e.Leave? || e.Sys?
    ensures SentinelsAtBottom(Apply(e, p, rest))
  {}

  lemma SentinelsStay(table: Table, code: seq<byte>, s: State, inp: Input)
    requires ValidTable(table) && |code| < NONE32 && SentinelsAtBottom(s.procs)
    ensures var r := Step(table, code, s, inp);
            r.Running? ==> SentinelsAtBottom(r.s.procs)
  {
    hide RunHead, Idle;
    if s.procs != [] {
      SentinelsStayHead(table, code, s, inp);
    } else {
      var r := Idle(s.w, |code|, inp);
      if r.Woken? {
        SentinelsStayHead(table, code, State(r.w, NewProcs(r.spawns)), inp);
      }
    }
  }

  lemma SentinelsStayHead(table: Table, code: seq<byte>, s: State, inp: Input)
    requires ValidTable(table) && |code| < NONE32 && SentinelsAtBottom(s.procs)
    ensures var r := RunHead(table, code, s, inp);
            r.Running? ==> SentinelsAtBottom(r.s.procs)
  {
    hide Decode, Effects, Tick, Apply, SentinelAtBottom;
    if s.procs != [] && s.procs[0].iptr < |code| {
      var d := Decode(table, code, |s.w.mem|, s.procs[0].iptr);
      if d.Decoded? && d.opcode < |table| {
        var p := PastInstn(table, code, s);
        var e := Effects(table[d.opcode], d.operands, s.w, TopOf(p.cstack), |code|, inp);
        if !e.Undefined? && !e.Halt? {
          BottomAfter(e, p, s.procs[1..]);
          var f := Tick(e.w, |code|, inp);
          if f.Fired? { NewBottoms(f.spawns); }
        }
      }
    }
  }

  lemma NewBottoms(spawns: seq<Spawn>)
    ensures SentinelsAtBottom(NewProcs(spawns))
  {}

  /** A procedure started by an event ends exactly when it runs past the code or its bottom frame returns. */
  lemma CallbackEnds(table: Table, code: seq<byte>, s: State, inp: Input, k: nat)
    requires ValidTable(table) && SentinelsAtBottom(s.procs) && Step(table, code, s, inp).Running?
    requires k < |s.procs| && s.procs[k].cstack != [] && s.procs[k].cstack[0].retAddress == NONE32
    ensures Moved(table, code, s, inp, k).None?
            <==> k == 0 && (s.procs[0].iptr >= |code|
                            || (HeadEffect(table, code, s, inp).Some? && HeadEffect(table, code, s, inp).value.Leave?
                                && |s.procs[0].cstack| == 1))
    ensures var j := Moved(table, code, s, inp, k);
            var q := Step(table, code, s, inp).s.procs;
            j.Some? ==> j.value < |q| && q[j.value].cstack != [] && q[j.value].cstack[0] == s.procs[k].cstack[0]
  {
    hide Effects;
    RoundMoves(table, code, s, inp, k);
    if Moved(table, code, s, inp, k).Some? {
      RoundKeepsFrames(table, code, s, inp, k, 0);
    }
  }

  /** `argv` stores the argument pointer of the innermost call, and 0 outside any call. */
  lemma ArgvStoresPointer(w: World, a: u32, stack: seq<Frame>)
    requires a + 4 <= |w.mem|
    ensures var e := ArgvEffect(w, [RefPtr(a)], TopOf(stack));
            e.Next? && Load32(e.w.mem, a) == Some(if stack == [] then 0 else stack[|stack| - 1].args)
  {
    var v: u32 := if stack == [] then 0 else stack[|stack| - 1].args;
    SpliceReads(w.mem, a, ToLE(v, 4), a, 4);
    Capacities();
    LoadFitting(v, 4);
  }

  /** `retv` stores its operand where the innermost call wants its result, and nowhere else. */
  lemma RetvStoresResult(w: World, o: Operand, stack: seq<Frame>)
    requires stack != [] && stack[|stack| - 1].retval + 8 <= |w.mem| < WORD32 && ArgValue(o, w.mem).Some?
    ensures var e := RetvEffect(w, [o], TopOf(stack));
            var r := stack[|stack| - 1].retval;
            e.Next? && Load64(e.w.mem, r) == ArgValue(o, w.mem) && |e.w.mem| == |w.mem|
            && (forall k :: 0 <= k < |w.mem| && (k < r || r + 8 <= k) ==> e.w.mem[k] == w.mem[k])
  {
    var v := ArgValue(o, w.mem).value;
    var r := stack[|stack| - 1].retval;
    SpliceReads(w.mem, r, ToLE(v, 8), r, 8);
    Capacities();
    LoadFitting(v, 8);
    ModIsRemainder(r + 8, WORD32, 0, r + 8);
  }

  /** The caller, past its call instruction, once it has entered the function. */
  function Callee(w: World, os: seq<Operand>, p: Proc): (q: Proc)
    requires |os| == 3 && CallEffect(w, os).Enter?
    ensures q.cstack != []
  {
    Apply(CallEffect(w, os), p, [])[0]
  }

  lemma CallOperands(w: World, os: seq<Operand>, p: Proc)
    requires |os| == 3 && CallEffect(w, os).Enter?
    ensures ArgValue(os[0], w.mem).Some? && ArgValue(os[1], w.mem).Some? && ArgValue(os[2], w.mem).Some?
    ensures var top := Callee(w, os, p).cstack[|p.cstack|];
            && |Callee(w, os, p).cstack| == |p.cstack| + 1
            && top.args == ArgValue(os[1], w.mem).value % WORD32 && top.retval == ArgValue(os[2], w.mem).value % WORD32
  {
    hide ArgValue;
  }

  /** In the called function `argv` yields the call's second operand, and `retv` stores where its third says. */
  lemma CalleeSeesPointers(w: World, os: seq<Operand>, p: Proc, a: u32, o: Operand)
    requires |os| == 3 && CallEffect(w, os).Enter? && a + 4 <= |w.mem| < WORD32
    requires ArgValue(os[1], w.mem).Some? && ArgValue(os[2], w.mem).Some? && ArgValue(o, w.mem).Some?
    requires ArgValue(os[2], w.mem).value % WORD32 + 8 <= |w.mem|
    ensures var top := TopOf(Callee(w, os, p).cstack);
            var got := ArgvEffect(w, [RefPtr(a)], top);
            var gave := RetvEffect(w, [o], top);
            && got.Next? && Load32(got.w.mem, a) == Some(ArgValue(os[1], w.mem).value % WORD32)
            && gave.Next? && Load64(gave.w.mem, ArgValue(os[2], w.mem).value % WORD32) == ArgValue(o, w.mem)
  {
    hide ArgValue, Load32, Load64, ArgvEffect, RetvEffect, CallEffect, Callee;
    CallOperands(w, os, p);
    ArgvStoresPointer(w, a, Callee(w, os, p).cstack);
    RetvStoresResult(w, o, Callee(w, os, p).cstack);
  }
}
