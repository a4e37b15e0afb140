/** A parsed assembly program, and where each of its instructions will be placed. */
module Program {
  import opened Bytes
  import opened Isa

  datatype Arg =
    | RefNum(value: u64)
    | Imm(value: u64, width: nat)
    | RefLbl(name: string)
    | ImmLbl(name: string)

  predicate IsImm(a: Arg) {
    a.Imm? || a.ImmLbl?
  }

  datatype SrcInstn = SrcInstn(opcode: nat, args: seq<Arg>)

  /** `offset` is a data address when `isMemRef`, otherwise an instruction index. */
  datatype Label = Label(offset: u32, isMemRef: bool)

  datatype Program = Program(table: Table, instns: seq<SrcInstn>, labels: map<string, Label>)

  /** The mode `basm` is run in: `-g` keeps the debug-only instructions. */
  type Mode = bool

  predicate ValidWidth(w: nat) {
    w == 1 || w == 2 || w == 4 || w == 8
  }

  predicate ValidArg(p: Program, a: Arg) {
    match a
    case RefNum(_) => true
    case Imm(v, w) => ValidWidth(w) && v < Capacity(w)
    case RefLbl(l) => KnownLabel(p, l)
    case ImmLbl(l) => KnownLabel(p, l)
  }

  predicate KnownLabel(p: Program, l: string) {
    l in p.labels && (p.labels[l].isMemRef || p.labels[l].offset < |p.instns|)
  }

  /** Every code label stands before one of the `n` instructions. */
  ghost predicate CodeLabelsIn(labels: map<string, Label>, n: nat) {
    forall l :: l in labels && !labels[l].isMemRef ==> labels[l].offset < n
  }

  predicate ValidInstn(p: Program, i: SrcInstn) {
    && i.opcode < |p.table|
    && |i.args| == Arity(p.table[i.opcode])
    && forall k :: 0 <= k < |i.args| ==> ValidArg(p, i.args[k])
  }

  /** What a parse with no errors guarantees, code labels at the very end of the file excepted. */
  ghost predicate Valid(p: Program) {
    && ValidTable(p.table)
    && forall k :: 0 <= k < |p.instns| ==> ValidInstn(p, p.instns[k])
  }

  function OpAt(p: Program, i: nat): Op
    requires i < |p.instns| && p.instns[i].opcode < |p.table|
  {
    p.table[p.instns[i].opcode]
  }

  /** Whether instruction `i` is emitted. */
  predicate Kept(p: Program, debug: Mode, i: nat)
    requires i < |p.instns| && p.instns[i].opcode < |p.table|
  {
    debug || !DebugOnly(OpAt(p, i))
  }

  function ArgSize(a: Arg): nat {
    if a.Imm? then a.width else 4
  }

  function ArgsSize(args: seq<Arg>): nat {
    if args == [] then 0 else ArgsSize(args[..|args| - 1]) + ArgSize(args[|args| - 1])
  }

  predicate HasImm(args: seq<Arg>) {
    exists k :: 0 <= k < |args| && IsImm(args[k])
  }

  function InstnSize(i: SrcInstn): (n: nat)
    ensures n >= 2
  {
    2 + (if HasImm(i.args) then 1 else 0) + ArgsSize(i.args)
  }

  /** Bytes emitted for the first `i` instructions. */
  ghost function Layout(p: Program, debug: Mode, i: nat): nat
    requires Valid(p) && i <= |p.instns|
  {
    if i == 0 then 0
    else Layout(p, debug, i - 1) + (if Kept(p, debug, i - 1) then InstnSize(p.instns[i - 1]) else 0)
  }

  ghost function CodeSize(p: Program, debug: Mode): nat
    requires Valid(p)
  {
    Layout(p, debug, |p.instns|)
  }

  /** The first emitted instruction at or after `i`, or the instruction count if there is none. */
  ghost function NextKept(p: Program, debug: Mode, i: nat): (k: nat)
    requires Valid(p) && i <= |p.instns|
    ensures i <= k <= |p.instns|
    ensures k < |p.instns| ==> Kept(p, debug, k)
    ensures forall j :: i <= j < k ==> !Kept(p, debug, j)
    decreases |p.instns| - i
  {
    if i == |p.instns| || Kept(p, debug, i) then i else NextKept(p, debug, i + 1)
  }

  /** The `mem_offset` of instruction `i` when generation is done. */
  ghost function MemOffset(p: Program, debug: Mode, i: nat): nat
    requires Valid(p) && i <= |p.instns|
  {
    if NextKept(p, debug, i) < |p.instns| then Layout(p, debug, i) else NONE32
  }

  lemma {:induction false} LayoutMonotone(p: Program, debug: Mode, i: nat, j: nat)
    requires Valid(p) && i <= j <= |p.instns|
    ensures Layout(p, debug, i) <= Layout(p, debug, j)
    ensures forall k :: i <= k < j && Kept(p, debug, k) ==> Layout(p, debug, i) < Layout(p, debug, j)
    decreases j - i
  {
    hide ValidInstn, InstnSize;
    if i < j {
      LayoutMonotone(p, debug, i, j - 1);
    }
  }

  /** Skipped instructions occupy no bytes: they share the place of the next emitted one. */
  lemma {:induction false} LayoutOfSkipped(p: Program, debug: Mode, i: nat, j: nat)
    requires Valid(p) && i <= j <= |p.instns|
    requires forall k :: i <= k < j ==> !Kept(p, debug, k)
    ensures Layout(p, debug, i) == Layout(p, debug, j)
    decreases j - i
  {
    hide ValidInstn, InstnSize;
    if i < j {
      LayoutOfSkipped(p, debug, i, j - 1);
    }
  }

  /** Distinct emitted instructions have distinct places. */
  lemma LayoutInjective(p: Program, debug: Mode, i: nat, j: nat)
    requires Valid(p) && i < |p.instns| && j < |p.instns|
    requires Kept(p, debug, i) && Kept(p, debug, j)
    requires Layout(p, debug, i) == Layout(p, debug, j)
    ensures i == j
  {
    if i < j {
      LayoutMonotone(p, debug, i, j);
    } else if j < i {
      LayoutMonotone(p, debug, j, i);
    }
  }

  /** Two places differ exactly when an emitted instruction lies between them. */
  lemma LayoutGap(p: Program, debug: Mode, i: nat, j: nat)
    requires Valid(p) && i <= j <= |p.instns|
    ensures Layout(p, debug, i) == Layout(p, debug, j) <==> NextKept(p, debug, i) >= j
  {
    var k := NextKept(p, debug, i);
    if k >= j {
      LayoutOfSkipped(p, debug, i, j);
    } else {
      LayoutMonotone(p, debug, i, j);
      assert Kept(p, debug, k);
    }
  }
}
