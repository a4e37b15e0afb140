/** What a round adds to the procedure list, and that the procedures started for children are among it, in order. */
module RoundStarts {
  import opened Bytes
  import opened Isa
  import opened Decoder
  import opened Children
  import opened World
  import opened EventLaunch
  import opened SyscallLaws
  import opened ByteMachine
  import opened Bracketing
  import opened Halting
  import opened ChildLedger

  /** All of `a` is in `b`, in the same order, with other elements in between. */
  ghost predicate Within<T>(a: seq<T>, b: seq<T>)
    decreases |b|
  {
    a == [] || (b != [] && ((a[0] == b[0] && Within(a[1..], b[1..])) || Within(a, b[1..])))
  }

  lemma {:induction false} WithinItself<T>(a: seq<T>)
    ensures Within(a, a)
  {
    if a != [] {
      WithinItself(a[1..]);
    }
  }

  lemma {:induction false} WithinBoth<T>(a: seq<T>, b: seq<T>, c: seq<T>, d: seq<T>)
    requires Within(a, b) && Within(c, d)
    ensures Within(a + c, b + d)
    decreases |b|
  {
    if b == [] {
      assert a + c == c && b + d == d;
    } else {
      assert (b + d)[1..] == b[1..] + d;
      if a != [] && a[0] == b[0] && Within(a[1..], b[1..]) {
        WithinBoth(a[1..], b[1..], c, d);
        assert (a + c)[1..] == a[1..] + c;
      } else {
        WithinBoth(a, b[1..], c, d);
      }
    }
  }

  lemma WithinPadded<T>(a: seq<T>, before: seq<T>, b: seq<T>, after: seq<T>)
    requires Within(a, b)
    ensures Within(a, before + b + after)
  {
    WithinBoth([], before, a, b);
    assert [] + a == a;
    WithinBoth(a, before + b, [], after);
    assert a + [] == a;
  }

  /** The procedures that the events of an idle round start. */
  function Woken(s: State, codesz: nat, inp: Input): seq<Spawn> {
    if WakesByEvents(s, inp) && FireVmEvents(s.w, inp.idle, codesz).Fired?
    then FireVmEvents(s.w, inp.idle, codesz).spawns
    else []
  }

  /** Those that the head's instruction and the cleanup after it start. */
  function Started(table: Table, code: seq<byte>, t: State, inp: Input): seq<Spawn>
    requires ValidTable(table)
  {
    var e := if t.procs == [] then None else HeadEffect(table, code, t, inp);
    if e.None? || e.value.Undefined? then []
    else
      (if e.value.Halt? || e.value.Sys? then e.value.spawns else [])
      + (if e.value.Halt? then [] else LateStarts(e.value.w, |code|, inp))
  }

  function LateStarts(w: World, codesz: nat, inp: Input): seq<Spawn> {
    var g := Tick(w, codesz, inp);
    if g.Fired? then g.spawns else []
  }

  lemma ProcSpawnsWithin(f: Fired, waits: seq<Wait>, codesz: nat)
    ensures var g := FireProcEvents(f, waits, 0, codesz);
            f.Fired? && g.Fired? ==> g.spawns == f.spawns + ProcSpawns(f, waits, codesz)
  {
    hide FireProcEvents, Reports, Requests, Admitted, BlocksInside;
    if f.Fired? {
      ProcsFire(f, waits, 0, codesz);
    }
  }

  lemma EventSpawnsWithin(w: World, e: Events, codesz: nat)
    ensures var g := FireVmEvents(w, e, codesz);
            g.Fired? ==> Within(EventSpawns(w, e, codesz), g.spawns)
  {
    hide FireProcEvents, ProcSpawns, Admitted, Admit;
    var t := FireTimerEvents(w, e.clock, codesz);
    var f := After(t, FireIoEvents(t.w, e.io, codesz));
    ProcSpawnsWithin(f, e.waits, codesz);
    var own := EventSpawns(w, e, codesz);
    WithinItself(own);
    WithinPadded(own, f.spawns, own, []);
    assert f.spawns + own + [] == f.spawns + own;
  }

  lemma CallSpawnsWithin(w: World, os: seq<Operand>, codesz: nat, inp: Input)
    requires |os| == 3
    ensures var e := SyscallEffect(w, os, codesz, inp);
            e.Sys? || e.Halt? ==> Within(CallSpawns(w, codesz, inp), e.spawns)
  {
    hide FireVmEvents, FireProcEvents, ProcSpawns, EventSpawns, Dispatch, OwnRequests, Admitted, ArgValue, Raise;
    var f := FireVmEvents(w, inp.sys, codesz);
    if f.FiredUndefined? {
      UndefinedStays(f, inp.sysCleanup, codesz);
    } else {
      EventSpawnsWithin(w, inp.sys, codesz);
      ProcSpawnsWithin(f, inp.sysCleanup, codesz);
      var late := ProcSpawns(f, inp.sysCleanup, codesz);
      WithinItself(late);
      WithinBoth(EventSpawns(w, inp.sys, codesz), f.spawns, late, late);
      var e := SyscallEffect(w, os, codesz, inp);
      if e.Sys? || e.Halt? {
        var own := e.spawns[|f.spawns + late|..];
        assert e.spawns == [] + (f.spawns + late) + own;
        WithinPadded(CallSpawns(w, codesz, inp), [], f.spawns + late, own);
      }
    }
  }

  lemma TickSpawnsWithin(w: World, codesz: nat, inp: Input)
    ensures Tick(w, codesz, inp).Fired? ==> TickSpawns(w, codesz, inp) == LateStarts(w, codesz, inp)
  {
    hide FireProcEvents, ProcSpawns;
    ProcSpawnsWithin(NoEvents(w.(tick := w.tick + 1)), inp.cleanup, codesz);
  }

  lemma HeadSpawnsWithin(table: Table, code: seq<byte>, t: State, inp: Input)
    requires ValidTable(table) && !RunHead(table, code, t, inp).Crashed?
    ensures Within(HeadSpawns(table, code, t, inp), Started(table, code, t, inp))
  {
    hide Decode, Effects, Tick, ByteMachine.Apply, CallSpawns, TickSpawns, SyscallEffect;
    if t.procs != [] && HeadEffect(table, code, t, inp).Some? && !HeadEffect(table, code, t, inp).value.Undefined? {
      var d := Decode(table, code, |t.w.mem|, t.procs[0].iptr);
      var e := HeadEffect(table, code, t, inp).value;
      var late := if e.Halt? then [] else LateStarts(e.w, |code|, inp);
      var called := if e.Halt? || e.Sys? then e.spawns else [];
      if HeadCalls(table, code, t) {
        SyscallHandler(d.operands, t.w, TopOf(t.procs[0].cstack), |code|, inp);
        CallSpawnsWithin(t.w, d.operands, |code|, inp);
        SyscallOutcome(d.operands, t.w, |code|, inp);
      }
      if !e.Halt? { TickSpawnsWithin(e.w, |code|, inp); }
      WithinItself(late);
      WithinBoth(if HeadCalls(table, code, t) then CallSpawns(t.w, |code|, inp) else [], called, late, late);
    }
  }

  lemma SyscallOutcome(os: seq<Operand>, w: World, codesz: nat, inp: Input)
    requires |os| == 3
    ensures var e := SyscallEffect(w, os, codesz, inp);
            e.Undefined? || e.Halt? || e.Sys?
  {
    hide SyscallEvents, Dispatch, OwnRequests, Admitted;
  }

  /** Procedures started by the instruction, and then by the cleanup, stand in the list in that order. */
  lemma AppliedWithin(e: Effect, p: Proc, rest: seq<Proc>)
    requires e.Next? || e.Goto? || e.Enter? || e.Leave? || e.Sys?
    ensures var (list, news) := (ByteMachine.Apply(e, p, rest), if e.Sys? then e.spawns else []);
            Within(NewProcs(news), list) && |list| <= |rest| + 1 + |news| <= |list| + 1
  {
    if e.Sys? {
      var news := NewProcs(e.spawns);
      WithinItself(news);
      WithinPadded(news, [p] + rest, news, []);
      WithinPadded(news, rest, news, [p]);
      assert [p] + rest + news + [] == [p] + rest + news;
      assert ([p] + rest + news)[1..] + [p] == rest + news + [p];
    }
  }

  lemma HeadStarts(table: Table, code: seq<byte>, t: State, inp: Input)
    requires ValidTable(table) && !RunHead(table, code, t, inp).Crashed?
    ensures var (r, news) := (RunHead(table, code, t, inp), Started(table, code, t, inp));
            Within(NewProcs(news), r.s.procs) && |r.s.procs| <= |t.procs| + |news| <= |r.s.procs| + 1
  {
    hide Decode, Effects, Tick, ByteMachine.Apply, NewProcs;
    NewProcsConcat([], []);
    if t.procs != [] && HeadEffect(table, code, t, inp).Some? && !HeadEffect(table, code, t, inp).value.Undefined? {
      var e := HeadEffect(table, code, t, inp).value;
      var p := t.procs[0].(iptr := t.procs[0].iptr + Decode(table, code, |t.w.mem|, t.procs[0].iptr).length);
      if e.Halt? {
        var news := NewProcs(e.spawns);
        assert e.spawns + [] == e.spawns;
        WithinItself(news);
        WithinPadded(news, [p] + t.procs[1..], news, []);
        assert [p] + t.procs[1..] + news + [] == [p] + t.procs[1..] + news;
      } else {
        var called := if e.Sys? then e.spawns else [];
        var late := LateStarts(e.w, |code|, inp);
        AppliedWithin(e, p, t.procs[1..]);
        NewProcsConcat(called, late);
        WithinItself(NewProcs(late));
        WithinBoth(NewProcs(called), ByteMachine.Apply(e, p, t.procs[1..]), NewProcs(late), NewProcs(late));
      }
    }
  }

  lemma NothingToRun(table: Table, code: seq<byte>, t: State, inp: Input)
    requires ValidTable(table)
    ensures t.procs == [] ==> Started(table, code, t, inp) == [] && RunHead(table, code, t, inp).Crashed?
  {}

  /**
   * What a round starts is in the list afterwards. Procedures started by waking events make up the list that the head
   * is taken from; those started by the head's instruction and the cleanup are in the list at the end, in order, with
   * the procedures that were there, one fewer at most. Those for children are among them, in order.
   */
  lemma RoundStarts(table: Table, code: seq<byte>, s: State, inp: Input)
    requires ValidTable(table) && !Step(table, code, s, inp).Crashed?
    ensures var t := Awake(|code|, s, inp);
            var (r, woken, started) := (Step(table, code, s, inp), Woken(s, |code|, inp), Started(table, code, t, inp));
            && t.procs == s.procs + NewProcs(woken)
            && Within(NewProcs(started), r.s.procs)
            && |r.s.procs| <= |t.procs| + |started| <= |r.s.procs| + 1
            && Within(StepSpawns(table, code, s, inp), woken + started)
  {
    hide RunHead, FireVmEvents, HeadSpawns, EventSpawns, Started, EventRequests, EventsDefined, Admitted;
    var t := Awake(|code|, s, inp);
    NothingToRun(table, code, t, inp);
    EventsFire(s.w, inp.idle, |code|);
    NoEventsNoProcs(s.w, inp.idle, |code|);
    EventSpawnsWithin(s.w, inp.idle, |code|);
    assert s.procs + NewProcs([]) == s.procs;
    if t.procs != [] {
      HeadStarts(table, code, t, inp);
      HeadSpawnsWithin(table, code, t, inp);
    } else {
      NoHeadSpawns(table, code, t, inp);
    }
    WithinBoth(if WakesByEvents(s, inp) then EventSpawns(s.w, inp.idle, |code|) else [], Woken(s, |code|, inp),
               HeadSpawns(table, code, t, inp), Started(table, code, t, inp));
  }
}
