/** The two-pass reference assembler: place every instruction first, then write each one out. */
module Encoding {
  import opened Bytes
  import opened Program

  function ImmBit(args: seq<Arg>, j: nat): (b: nat)
    ensures b < 2
  {
    if j < |args| && IsImm(args[j]) then 1 else 0
  }

  /** Bit `j` is set when argument `j` is an immediate. */
  function ImmFlags(args: seq<Arg>): (f: nat)
    ensures f < 8
  {
    ImmBit(args, 0) + 2 * ImmBit(args, 1) + 4 * ImmBit(args, 2)
  }

  /** Base-2 logarithm of a width; like the source, 3 for anything but 1, 2 and 4. */
  function Log2(n: nat): (l: nat)
    ensures l < 4
  {
    match n
    case 1 => 0
    case 2 => 1
    case 4 => 2
    case _ => 3
  }

  function SizeBits(args: seq<Arg>, j: nat): (b: nat)
    ensures b < 4
  {
    if j < |args| && IsImm(args[j]) then Log2(ArgSize(args[j])) else 0
  }

  /** Two bits an argument: the logarithm of each immediate's width. */
  function SizeByte(args: seq<Arg>): (b: byte) {
    SizeBits(args, 0) + 4 * SizeBits(args, 1) + 16 * SizeBits(args, 2)
  }

  function Header(i: SrcInstn): (s: seq<byte>)
    requires |i.args| <= 3
    ensures |s| == 2 + (if HasImm(i.args) then 1 else 0)
  {
    FlagsNonzero(i.args);
    ToLE(i.opcode * 8 + ImmFlags(i.args), 2) + (if ImmFlags(i.args) != 0 then [SizeByte(i.args)] else [])
  }

  lemma FlagsNonzero(args: seq<Arg>)
    requires |args| <= 3
    ensures ImmFlags(args) != 0 <==> HasImm(args)
  {
    if ImmBit(args, 0) == 1 { assert IsImm(args[0]); }
    if ImmBit(args, 1) == 1 { assert IsImm(args[1]); }
    if ImmBit(args, 2) == 1 { assert IsImm(args[2]); }
  }

  /** The number a label operand stands for: a data address, or the place of an instruction. */
  ghost function LabelValue(p: Program, debug: Mode, name: string): nat
    requires Valid(p) && KnownLabel(p, name)
  {
    if p.labels[name].isMemRef then p.labels[name].offset else MemOffset(p, debug, p.labels[name].offset)
  }

  ghost function EncodeArg(p: Program, debug: Mode, a: Arg): (s: seq<byte>)
    requires Valid(p) && ValidArg(p, a)
    ensures |s| == ArgSize(a)
  {
    match a
    case RefNum(v) => ToLE(v, 4)
    case Imm(v, w) => ToLE(v, w)
    case RefLbl(l) => ToLE(LabelValue(p, debug, l), 4)
    case ImmLbl(l) => ToLE(LabelValue(p, debug, l), 4)
  }

  ghost function EncodeArgs(p: Program, debug: Mode, args: seq<Arg>): (s: seq<byte>)
    requires Valid(p) && forall k :: 0 <= k < |args| ==> ValidArg(p, args[k])
    ensures |s| == ArgsSize(args)
  {
    if args == [] then []
    else EncodeArgs(p, debug, args[..|args| - 1]) + EncodeArg(p, debug, args[|args| - 1])
  }

  ghost function EncodeInstn(p: Program, debug: Mode, i: SrcInstn): (s: seq<byte>)
    requires Valid(p) && ValidInstn(p, i)
    ensures |s| == InstnSize(i)
  {
    Header(i) + EncodeArgs(p, debug, i.args)
  }

  /** The code of the first `i` instructions. */
  ghost function RefCode(p: Program, debug: Mode, i: nat): (s: seq<byte>)
    requires Valid(p) && i <= |p.instns|
    ensures |s| == Layout(p, debug, i)
  {
    if i == 0 then []
    else if Kept(p, debug, i - 1) then RefCode(p, debug, i - 1) + EncodeInstn(p, debug, p.instns[i - 1])
    else RefCode(p, debug, i - 1)
  }

  ghost function Image(p: Program, debug: Mode): (s: seq<byte>)
    requires Valid(p)
    ensures |s| == CodeSize(p, debug)
  {
    RefCode(p, debug, |p.instns|)
  }

  /** Each emitted instruction's encoding sits at its own place in the finished code. */
  lemma {:induction false} CodeAt(p: Program, debug: Mode, i: nat, n: nat)
    requires Valid(p) && i < n <= |p.instns| && Kept(p, debug, i)
    ensures Holds(RefCode(p, debug, n), Layout(p, debug, i), EncodeInstn(p, debug, p.instns[i]))
    decreases n - i
  {
    hide Holds, EncodeInstn, ValidInstn;
    var e := EncodeInstn(p, debug, p.instns[n - 1]);
    var c := RefCode(p, debug, n - 1);
    if n == i + 1 {
      HoldsAtEnd(c, e);
    } else {
      CodeAt(p, debug, i, n - 1);
      HoldsInPrefix(c, e, Layout(p, debug, i), EncodeInstn(p, debug, p.instns[i]));
    }
  }
}
