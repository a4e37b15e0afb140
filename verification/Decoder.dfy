/** Reading one instruction back from the code bytes. */
module Decoder {
  import opened Bytes
  import opened Isa
  import opened Program
  import opened Encoding

  const E_ARITHMETIC: u32 := 0x1
  const E_MEM_FAULT: u32 := 0x2
  const E_BAD_INSTN_POINTER: u32 := 0x10
  const E_BAD_INSTN_CODE: u32 := 0x20
  const E_BAD_SYSCALL: u32 := 0x40
  const E_ASSERT_FAILED: u32 := 0x80

  /** A decoded argument: an immediate, zero-extended, or an address in VM memory. */
  datatype Operand = ImmVal(value: u64) | RefPtr(addr: u32)

  /** `WildRead` stands for a read outside the code array, which the bounds checks do not rule out. */
  datatype Decoded =
    | Decoded(opcode: nat, operands: seq<Operand>, length: nat)
    | Fault(bits: u32)
    | WildRead

  /** `deref_mem_ptr`: the sum is computed in 32 bits. */
  predicate DerefOk(addr: u32, size: nat, memsz: nat) {
    (addr + size) % WORD32 <= memsz
  }

  function Bit(w: nat, j: nat): nat {
    (w / Pow2(j)) % 2
  }

  function WidthAt(sizes: nat, j: nat): nat {
    Pow2((sizes / Pow2(2 * j)) % 4)
  }

  datatype DecodedArg = ArgRead(operand: Operand, width: nat) | ArgFault(bits: u32) | ArgWild

  function WordAt(code: seq<byte>, at: nat, n: nat): (v: nat)
    requires at + n <= |code|
    ensures v < Capacity(n)
  {
    StoreAfterLoad(code[at..at + n]);
    FromLE(code[at..at + n])
  }

  /** Argument `j` of the instruction at `iptr`, whose bytes start `offset` further on. */
  function DecodeArg(code: seq<byte>, memsz: nat, iptr: nat, offset: nat, word: nat, sizes: nat, j: nat): DecodedArg {
    Capacities();
    if Bit(word, j) == 1 then
      var n := WidthAt(sizes, j);
      if |code| < iptr + n then ArgFault(E_BAD_INSTN_POINTER)
      else if |code| < iptr + offset + n then ArgWild
      else
        WidthIsWord(sizes, j);
        ArgRead(ImmVal(WordAt(code, iptr + offset, n)), n)
    else if |code| < iptr + 4 then ArgFault(E_BAD_INSTN_POINTER)
    else if |code| < iptr + offset + 4 then ArgWild
    else
      var ref := WordAt(code, iptr + offset, 4);
      if DerefOk(ref, 4, memsz) then ArgRead(RefPtr(ref), 4) else ArgFault(E_MEM_FAULT)
  }

  /**
   * The bounds check of an operand measures its bytes from the start of the instruction. It faults when even that many
   * are not there, and reads past the code when the instruction's earlier bytes make the difference.
   */
  lemma CheckForgetsOffset(code: seq<byte>, memsz: nat, iptr: nat, offset: nat, word: nat, sizes: nat, j: nat)
    ensures var n := if Bit(word, j) == 1 then WidthAt(sizes, j) else 4;
            var a := DecodeArg(code, memsz, iptr, offset, word, sizes, j);
            && (a == ArgFault(E_BAD_INSTN_POINTER) <==> |code| - iptr < n)
            && (a.ArgWild? <==> n <= |code| - iptr < offset + n)
  {
    hide Bit, WidthAt, WordAt, DerefOk;
  }

  /**
   * `abrt` with eight bytes to come, of which the code holds six: the eighth and ninth are read past the code's end.
   */
  lemma ReadsPastCode(code: seq<byte>)
    requires |code| == 9 && code[..3] == [1, 0, 3]
    ensures Decode([Abrt], code, 0, 0) == WildRead
  {
    assert code[0..2] == [1, 0] && code[2] == code[..3][2] == 3;
    assert FromLE([1, 0]) == 1 by { assert [1 as byte, 0][1..] == [0] && [0 as byte][1..] == []; }
    assert Pow2(0) == 1 && Pow2(3) == 8;
    CheckForgetsOffset(code, 0, 0, 3, 1, 3, 0);
  }

  lemma WidthIsWord(sizes: nat, j: nat)
    ensures ValidWidth(WidthAt(sizes, j)) && Capacity(WidthAt(sizes, j)) <= WORD64
  {
    Capacities();
    var k := (sizes / Pow2(2 * j)) % 4;
    assert Pow2(0) == 1 && Pow2(1) == 2 && Pow2(2) == 4 && Pow2(3) == 8;
    assert k == 0 || k == 1 || k == 2 || k == 3;
  }

  function DecodeArgs(code: seq<byte>, memsz: nat, iptr: nat, word: nat, sizes: nat, n: nat,
                      done: seq<Operand>, offset: nat): (r: Decoded)
    ensures r.Decoded? && |done| <= n ==> r.opcode == word / 8 && |r.operands| == n
    ensures r.Decoded? && iptr + offset <= |code| ==> offset <= r.length && iptr + r.length <= |code|
    decreases n - |done|
  {
    if |done| >= n then Decoded(word / 8, done, offset)
    else
      match DecodeArg(code, memsz, iptr, offset, word, sizes, |done|)
      case ArgRead(o, w) => DecodeArgs(code, memsz, iptr, word, sizes, n, done + [o], offset + w)
      case ArgFault(bits) => Fault(bits)
      case ArgWild => WildRead
  }

  /** The argument count of a table index; the entry just past the table is the zeroed terminator. */
  function ArgCount(table: Table, opcode: nat): nat {
    if opcode < |table| then Arity(table[opcode]) else 0
  }

  function Decode(table: Table, code: seq<byte>, memsz: nat, iptr: nat): (r: Decoded)
    ensures r.Decoded? && r.opcode < |table| && ValidTable(table) ==> |r.operands| == Arity(table[r.opcode])
    ensures r.Decoded? ==> r.length >= 2 && iptr + r.length <= |code|
  {
    if |code| < iptr + 2 then Fault(E_BAD_INSTN_POINTER)
    else
      var word := WordAt(code, iptr, 2);
      var index := (word / 8) % 256;
      if index > |table| then Fault(E_BAD_INSTN_CODE)
      else if word % 8 == 0 then DecodeArgs(code, memsz, iptr, word, 0, ArgCount(table, index), [], 2)
      else if |code| < iptr + 3 then WildRead
      else DecodeArgs(code, memsz, iptr, word, code[iptr + 2], ArgCount(table, index), [], 3)
  }

  /** `decode_instn`: the loop over the arguments, stopping at the first one that cannot be read. */
  method DecodeInstn(table: Table, code: seq<byte>, memsz: nat, iptr: nat) returns (r: Decoded)
    ensures r == Decode(table, code, memsz, iptr)
  {
    hide DecodeArg, WordAt, Arity;
    if |code| < iptr + 2 { return Fault(E_BAD_INSTN_POINTER); }
    var word := WordAt(code, iptr, 2);
    var index := (word / 8) % 256;
    if index > |table| { return Fault(E_BAD_INSTN_CODE); }
    var offset, sizes := 2, 0;
    if word % 8 != 0 {
      if |code| < iptr + 3 { return WildRead; }
      sizes := code[iptr + 2] as int;
      offset := 3;
    }
    var operands := [];
    var n := ArgCount(table, index);
    for i := 0 to n
      invariant |operands| == i
      invariant Decode(table, code, memsz, iptr) == DecodeArgs(code, memsz, iptr, word, sizes, n, operands, offset)
    {
      var a := DecodeArg(code, memsz, iptr, offset, word, sizes, i);
      match a {
        case ArgRead(o, w) => operands, offset := operands + [o], offset + w;
        case ArgFault(bits) => return Fault(bits);
        case ArgWild => return WildRead;
      }
    }
    r := Decoded(word / 8, operands, offset);
  }

  // ---- What decoding yields on emitted code

  /** The code is small enough for every offset in it to be a 32-bit number other than -1. */
  ghost predicate Fits(p: Program, debug: Mode) {
    Valid(p) && CodeSize(p, debug) <= 0xFFFF_FF00
  }

  lemma OffsetsFit(p: Program, debug: Mode, i: nat)
    requires Fits(p, debug) && i <= |p.instns|
    ensures Layout(p, debug, i) <= CodeSize(p, debug) < NONE32
    ensures MemOffset(p, debug, i) < WORD32
  {
    LayoutMonotone(p, debug, i, |p.instns|);
  }

  ghost function SourceOperand(p: Program, debug: Mode, a: Arg): Operand
    requires Fits(p, debug) && ValidArg(p, a)
  {
    match a
    case RefNum(v) => RefPtr(v % WORD32)
    case Imm(v, _) => ImmVal(v)
    case RefLbl(l) => RefPtr(Label32(p, debug, l))
    case ImmLbl(l) => ImmVal(Label32(p, debug, l))
  }

  ghost function Label32(p: Program, debug: Mode, name: string): u32
    requires Fits(p, debug) && KnownLabel(p, name)
  {
    if !p.labels[name].isMemRef then OffsetsFit(p, debug, p.labels[name].offset); LabelValue(p, debug, name)
    else LabelValue(p, debug, name)
  }

  ghost function SourceOperands(p: Program, debug: Mode, args: seq<Arg>): (s: seq<Operand>)
    requires Fits(p, debug) && forall k :: 0 <= k < |args| ==> ValidArg(p, args[k])
    ensures |s| == |args|
  {
    seq(|args|, k requires 0 <= k < |args| => SourceOperand(p, debug, args[k]))
  }

  /** Whether every reference among the operands passes the decoder's four-byte check. */
  predicate RefsOk(os: seq<Operand>, memsz: nat) {
    forall k :: 0 <= k < |os| && os[k].RefPtr? ==> DerefOk(os[k].addr, 4, memsz)
  }

  /** What instruction `i` of the source means to the interpreter. */
  ghost function SourceDecode(p: Program, debug: Mode, memsz: nat, i: nat): Decoded
    requires Fits(p, debug) && i < |p.instns|
  {
    var instn := p.instns[i];
    var os := SourceOperands(p, debug, instn.args);
    if RefsOk(os, memsz) then Decoded(instn.opcode, os, InstnSize(instn)) else Fault(E_MEM_FAULT)
  }

  lemma UnpackFlags(opcode: nat, a: nat, b: nat, c: nat)
    requires a < 2 && b < 2 && c < 2
    ensures var w := opcode * 8 + (a + 2 * b + 4 * c);
            w / 8 == opcode && w % 8 == a + 2 * b + 4 * c && w % 2 == a && (w / 2) % 2 == b && (w / 4) % 2 == c
  {
    var w := opcode * 8 + (a + 2 * b + 4 * c);
    ModIsRemainder(w, 8, opcode, a + 2 * b + 4 * c);
    ModIsRemainder(w, 2, opcode * 4 + (b + 2 * c), a);
    ModIsRemainder(w, 4, opcode * 2 + c, a + 2 * b);
    ModIsRemainder(w / 2, 2, opcode * 2 + c, b);
    ModIsRemainder(w / 4, 2, opcode, c);
  }

  lemma BitsOfWord(opcode: nat, args: seq<Arg>, j: nat)
    requires j < |args| <= 3
    ensures Bit(opcode * 8 + ImmFlags(args), j) == ImmBit(args, j)
    ensures (opcode * 8 + ImmFlags(args)) / 8 == opcode
    ensures (opcode * 8 + ImmFlags(args)) % 8 == ImmFlags(args)
  {
    UnpackFlags(opcode, ImmBit(args, 0), ImmBit(args, 1), ImmBit(args, 2));
    SmallPowers();
    hide Pow2, ImmBit;
    assert j == 0 || j == 1 || j == 2;
  }

  lemma Unpack(a: nat, b: nat, c: nat)
    requires a < 4 && b < 4 && c < 4
    ensures (a + 4 * b + 16 * c) % 4 == a
    ensures ((a + 4 * b + 16 * c) / 4) % 4 == b
    ensures ((a + 4 * b + 16 * c) / 16) % 4 == c
  {
    var w := a + 4 * b + 16 * c;
    ModIsRemainder(w, 4, b + 4 * c, a);
    ModIsRemainder(w, 16, c, a + 4 * b);
    ModIsRemainder(w / 4, 4, c, b);
    ModIsRemainder(w / 16, 4, 0, c);
  }

  lemma WidthOfLog(w: nat)
    requires ValidWidth(w)
    ensures Pow2(Log2(w)) == w
  {
    SmallPowers();
  }

  lemma ImmSizeBits(args: seq<Arg>, j: nat)
    requires j < |args| && IsImm(args[j])
    ensures SizeBits(args, j) == Log2(ArgSize(args[j]))
  {}

  lemma WidthsOfSizes(args: seq<Arg>, j: nat)
    requires j < |args| <= 3 && IsImm(args[j]) && ValidWidth(ArgSize(args[j]))
    ensures WidthAt(SizeByte(args), j) == ArgSize(args[j])
  {
    Unpack(SizeBits(args, 0), SizeBits(args, 1), SizeBits(args, 2));
    SmallPowers();
    hide Pow2, SizeBits, Log2, ArgSize;
    var s := SizeByte(args);
    if j == 0 {
      ModIsRemainder(s, 1, s, 0);
    } else if j == 1 {
      assert WidthAt(s, 1) == Pow2((s / 4) % 4);
    } else {
      assert WidthAt(s, 2) == Pow2((s / 16) % 4);
    }
    WidthOfLog(ArgSize(args[j]));
    ImmSizeBits(args, j);
  }

  /** An argument's bytes sit at the sum of the earlier arguments' sizes. */
  lemma {:induction false} ArgAt(p: Program, debug: Mode, args: seq<Arg>, j: nat)
    requires Valid(p) && j < |args| && forall k :: 0 <= k < |args| ==> ValidArg(p, args[k])
    ensures Holds(EncodeArgs(p, debug, args), ArgsSize(args[..j]), EncodeArg(p, debug, args[j]))
  {
    var front := args[..|args| - 1];
    var last := EncodeArg(p, debug, args[|args| - 1]);
    if j == |args| - 1 {
      HoldsAtEnd(EncodeArgs(p, debug, front), last);
    } else {
      ArgAt(p, debug, front, j);
      assert front[..j] == args[..j];
      HoldsInPrefix(EncodeArgs(p, debug, front), last, ArgsSize(args[..j]), EncodeArg(p, debug, args[j]));
    }
  }

  /** Three facts about a word stored at a place: its bytes, its value, and that it is inside. */
  lemma WordHeld(s: seq<byte>, at: nat, v: nat, n: nat)
    requires Holds(s, at, ToLE(v, n))
    ensures at + n <= |s| && WordAt(s, at, n) == v % Capacity(n)
  {
    LoadAfterStore(v, n);
  }

  /** Where argument `j` of the instruction at `iptr` starts, relative to `iptr`. */
  function ArgOffset(i: SrcInstn, j: nat): nat
    requires j <= |i.args| <= 3
  {
    |Header(i)| + ArgsSize(i.args[..j])
  }

  lemma ArgOffsetStep(i: SrcInstn, j: nat)
    requires j < |i.args| <= 3
    ensures ArgOffset(i, j + 1) == ArgOffset(i, j) + ArgSize(i.args[j])
  {
    assert i.args[..j + 1][..j] == i.args[..j];
  }

  lemma ArgOffsetEnd(i: SrcInstn)
    requires |i.args| <= 3
    ensures ArgOffset(i, |i.args|) == InstnSize(i)
  {
    assert i.args[..|i.args|] == i.args;
  }

  function Word(i: SrcInstn): nat {
    i.opcode * 8 + ImmFlags(i.args)
  }

  lemma ArgHeld(p: Program, debug: Mode, code: seq<byte>, iptr: nat, i: SrcInstn, j: nat)
    requires Valid(p) && ValidInstn(p, i) && j < |i.args|
    requires Holds(code, iptr, EncodeInstn(p, debug, i))
    ensures Holds(code, iptr + ArgOffset(i, j), EncodeArg(p, debug, i.args[j]))
    ensures iptr + InstnSize(i) <= |code|
  {
    hide Header, EncodeArg;
    ArgAt(p, debug, i.args, j);
    HoldsAfter(Header(i), EncodeArgs(p, debug, i.args), ArgsSize(i.args[..j]), EncodeArg(p, debug, i.args[j]));
    HoldsWithin(code, iptr, EncodeInstn(p, debug, i), ArgOffset(i, j), EncodeArg(p, debug, i.args[j]));
  }

  /** One argument survives: width choice, size packing, the stored bytes, and zero-extension. */
  lemma DecodeArgRoundTrip(p: Program, debug: Mode, code: seq<byte>, memsz: nat, iptr: nat, i: SrcInstn, j: nat)
    requires Fits(p, debug) && ValidInstn(p, i) && j < |i.args|
    requires Holds(code, iptr, EncodeInstn(p, debug, i))
    ensures var o := SourceOperand(p, debug, i.args[j]);
            DecodeArg(code, memsz, iptr, ArgOffset(i, j), Word(i), SizeByte(i.args), j)
            == if o.RefPtr? && !DerefOk(o.addr, 4, memsz) then ArgFault(E_MEM_FAULT) else ArgRead(o, ArgSize(i.args[j]))
  {
    hide Capacity, EncodeInstn, ArgOffset, ImmFlags, SizeByte, WidthAt, Bit, LabelValue, Holds, WordAt, EncodeArg,
      DerefOk;
    var a := i.args[j];
    var off := ArgOffset(i, j);
    ArgHeld(p, debug, code, iptr, i, j);
    ArgValueHeld(p, debug, code, iptr + off, a);
    BitsOfWord(i.opcode, i.args, j);
    if IsImm(a) {
      WidthsOfSizes(i.args, j);
    }
  }

  /** The number an argument's bytes spell. */
  lemma ArgValueHeld(p: Program, debug: Mode, code: seq<byte>, at: nat, a: Arg)
    requires Fits(p, debug) && ValidArg(p, a) && Holds(code, at, EncodeArg(p, debug, a))
    ensures at + ArgSize(a) <= |code|
    ensures var o := SourceOperand(p, debug, a);
            WordAt(code, at, ArgSize(a)) == if o.ImmVal? then o.value else o.addr
  {
    hide Capacity, Holds, WordAt, ToLE, LabelValue;
    Capacities();
    match a {
      case RefNum(v) =>
        WordHeld(code, at, v, 4);
      case Imm(v, w) =>
        WordHeld(code, at, v, w);
        ModIsRemainder(v, Capacity(w), 0, v);
      case RefLbl(l) =>
        WordHeld(code, at, Label32(p, debug, l), 4);
      case ImmLbl(l) =>
        WordHeld(code, at, Label32(p, debug, l), 4);
    }
  }

  lemma {:induction false} DecodeArgsRoundTrip(p: Program, debug: Mode, code: seq<byte>, memsz: nat, iptr: nat,
                                               i: SrcInstn, j: nat)
    requires Fits(p, debug) && ValidInstn(p, i) && j <= |i.args|
    requires Holds(code, iptr, EncodeInstn(p, debug, i))
    requires RefsOk(SourceOperands(p, debug, i.args)[..j], memsz)
    ensures var os := SourceOperands(p, debug, i.args);
            DecodeArgs(code, memsz, iptr, Word(i), SizeByte(i.args), |i.args|, os[..j], ArgOffset(i, j))
            == if RefsOk(os, memsz) then Decoded(i.opcode, os, InstnSize(i)) else Fault(E_MEM_FAULT)
    decreases |i.args| - j
  {
    hide Holds, EncodeInstn, DecodeArg, SourceOperand, SizeByte, DerefOk, ArgOffset, ValidArg, Valid;
    var os := SourceOperands(p, debug, i.args);
    if j == |i.args| {
      assert os[..j] == os;
      ArgOffsetEnd(i);
    } else {
      DecodeArgRoundTrip(p, debug, code, memsz, iptr, i, j);
      ArgOffsetStep(i, j);
      assert os[..j] + [os[j]] == os[..j + 1];
      if !(os[j].RefPtr? && !DerefOk(os[j].addr, 4, memsz)) {
        DecodeArgsRoundTrip(p, debug, code, memsz, iptr, i, j + 1);
      }
    }
  }

  /** The header's bytes: the opcode word, then the size byte when there is an immediate. */
  lemma HeaderHeld(p: Program, debug: Mode, code: seq<byte>, iptr: nat, i: SrcInstn)
    requires ValidTable(p.table) && Valid(p) && ValidInstn(p, i)
    requires Holds(code, iptr, EncodeInstn(p, debug, i))
    ensures iptr + |Header(i)| <= |code|
    ensures WordAt(code, iptr, 2) == Word(i) && Word(i) / 8 == i.opcode
    ensures Word(i) % 8 == 0 ==> |Header(i)| == 2 && SizeByte(i.args) == 0
    ensures Word(i) % 8 != 0 ==> |Header(i)| == 3 && code[iptr + 2] == SizeByte(i.args)
  {
    hide ToLE, FromLE, Header, SizeByte, Holds, EncodeArgs, WordAt, ImmFlags;
    HoldsAtStart(Header(i), EncodeArgs(p, debug, i.args));
    HoldsWithin(code, iptr, EncodeInstn(p, debug, i), 0, Header(i));
    HeaderParts(i);
    FlagsNonzero(i.args);
    HoldsWithin(code, iptr, Header(i), 0, ToLE(Word(i), 2));
    Capacities();
    WordHeld(code, iptr, Word(i), 2);
    HoldsInside(code, iptr, Header(i));
    if ImmFlags(i.args) != 0 {
      HoldsWithin(code, iptr, Header(i), 2, [SizeByte(i.args)]);
      ByteHeld(code, iptr + 2, SizeByte(i.args));
    } else {
      NoSizes(i.args);
    }
  }

  lemma HeaderParts(i: SrcInstn)
    requires |i.args| <= 3
    ensures Holds(Header(i), 0, ToLE(Word(i), 2))
    ensures ImmFlags(i.args) != 0 ==> Holds(Header(i), 2, [SizeByte(i.args)])
  {
    HoldsAtEnd(ToLE(Word(i), 2), [SizeByte(i.args)]);
  }

  lemma NoSizes(args: seq<Arg>)
    requires ImmFlags(args) == 0
    ensures SizeByte(args) == 0
  {}

  lemma NoRefs(os: seq<Operand>, memsz: nat)
    ensures RefsOk(os[..0], memsz)
  {}

  /** Wherever an instruction's encoding stands, decoding there recovers the instruction and its size. */
  lemma DecodeEncoding(p: Program, debug: Mode, code: seq<byte>, memsz: nat, iptr: nat, i: SrcInstn)
    requires Fits(p, debug) && ValidInstn(p, i)
    requires Holds(code, iptr, EncodeInstn(p, debug, i))
    ensures var os := SourceOperands(p, debug, i.args);
            Decode(p.table, code, memsz, iptr)
            == if RefsOk(os, memsz) then Decoded(i.opcode, os, InstnSize(i)) else Fault(E_MEM_FAULT)
  {
    hide Holds, EncodeInstn, DecodeArgs, SourceOperand, RefsOk, Header, ImmFlags, SizeByte, WordAt;
    var os := SourceOperands(p, debug, i.args);
    HeaderHeld(p, debug, code, iptr, i);
    assert RefsOk(os[..0], memsz) by { NoRefs(os, memsz); }
    DecodeArgsRoundTrip(p, debug, code, memsz, iptr, i, 0);
    assert os[..0] == [];
  }

  /** Decoding the finished code at the place of an emitted instruction recovers that instruction. */
  lemma RoundTrip(p: Program, debug: Mode, memsz: nat, i: nat)
    requires Fits(p, debug) && i < |p.instns| && Kept(p, debug, i)
    ensures Decode(p.table, Image(p, debug), memsz, Layout(p, debug, i)) == SourceDecode(p, debug, memsz, i)
  {
    CodeAt(p, debug, i, |p.instns|);
    DecodeEncoding(p, debug, Image(p, debug), memsz, Layout(p, debug, i), p.instns[i]);
  }

  // ---- The disassembler's linear sweep

  /** The places of the emitted instructions among the first `n`, in order. */
  ghost function Places(p: Program, debug: Mode, n: nat): seq<nat>
    requires Valid(p) && n <= |p.instns|
  {
    if n == 0 then []
    else if Kept(p, debug, n - 1) then Places(p, debug, n - 1) + [Layout(p, debug, n - 1)]
    else Places(p, debug, n - 1)
  }

  /** Every emitted instruction names only memory that exists. */
  ghost predicate AllRefsOk(p: Program, debug: Mode, memsz: nat)
    requires Fits(p, debug)
  {
    forall k :: 0 <= k < |p.instns| && Kept(p, debug, k) ==> RefsOk(SourceOperands(p, debug, p.instns[k].args), memsz)
  }

  /** Instruction `k` is emitted and names memory outside a memory of `memsz` bytes. */
  ghost predicate BadRefAt(p: Program, debug: Mode, memsz: nat, k: nat)
    requires Fits(p, debug) && k < |p.instns|
  {
    Kept(p, debug, k) && !RefsOk(SourceOperands(p, debug, p.instns[k].args), memsz)
  }

  /** `dbg_disasm` over the whole code: decode, step by the decoded length, stop at the first failure. */
  method Disassemble(table: Table, code: seq<byte>, memsz: nat, ghost p: Program, ghost debug: Mode)
    returns (addrs: seq<nat>, failed: bool)
    requires Fits(p, debug) && table == p.table && code == Image(p, debug)
    ensures failed <==> !AllRefsOk(p, debug, memsz)
    ensures !failed ==> addrs == Places(p, debug, |p.instns|)
    ensures failed ==> exists k :: 0 <= k < |p.instns| && BadRefAt(p, debug, memsz, k)
                               && (forall j :: 0 <= j < k ==> !BadRefAt(p, debug, memsz, j))
                               && addrs == Places(p, debug, k)
  {
    hide Decode, RefsOk, SourceOperands, Image, AllRefsOk, Places, Layout, ValidInstn;
    SweepStarts(p, debug);
    addrs := [];
    var addr := 0;
    ghost var k := NextKept(p, debug, 0);
    SkipPlaces(p, debug, 0, k);
    while addr < |code|
      invariant k <= |p.instns| && k == NextKept(p, debug, k)
      invariant addr == Layout(p, debug, k) && addrs == Places(p, debug, k)
      invariant forall j :: 0 <= j < k ==> !BadRefAt(p, debug, memsz, j)
      decreases |p.instns| - k
    {
      SweepStep(p, debug, memsz, k);
      var d := DecodeInstn(table, code, memsz, addr);
      if !d.Decoded? {
        BadRefMatters(p, debug, memsz);
        return addrs, true;
      }
      addrs := addrs + [addr];
      addr := addr + d.length;
      ghost var next := NextKept(p, debug, k + 1);
      SkipPlaces(p, debug, k + 1, next);
      k := next;
    }
    if k < |p.instns| {
      LayoutMonotone(p, debug, k, |p.instns|);
    }
    failed := false;
    BadRefMatters(p, debug, memsz);
  }

  lemma SweepStarts(p: Program, debug: Mode)
    requires Valid(p)
    ensures Places(p, debug, 0) == [] && Layout(p, debug, 0) == 0
  {}

  lemma SweepStep(p: Program, debug: Mode, memsz: nat, k: nat)
    requires Fits(p, debug) && k < |p.instns| && Kept(p, debug, k)
    ensures var d := Decode(p.table, Image(p, debug), memsz, Layout(p, debug, k));
            if BadRefAt(p, debug, memsz, k) then !d.Decoded?
            else d.Decoded? && d.length == InstnSize(p.instns[k])
    ensures Places(p, debug, k + 1) == Places(p, debug, k) + [Layout(p, debug, k)]
    ensures Layout(p, debug, k + 1) == Layout(p, debug, k) + InstnSize(p.instns[k])
  {
    RoundTrip(p, debug, memsz, k);
  }

  lemma BadRefMatters(p: Program, debug: Mode, memsz: nat)
    requires Fits(p, debug)
    ensures AllRefsOk(p, debug, memsz) <==> forall k :: 0 <= k < |p.instns| ==> !BadRefAt(p, debug, memsz, k)
  {
    forall j | 0 <= j < |p.instns| && Kept(p, debug, j) && !BadRefAt(p, debug, memsz, j)
      ensures RefsOk(SourceOperands(p, debug, p.instns[j].args), memsz)
    {}
  }

  lemma {:induction false} SkipPlaces(p: Program, debug: Mode, i: nat, j: nat)
    requires Valid(p) && i <= j <= |p.instns| && forall k :: i <= k < j ==> !Kept(p, debug, k)
    ensures Places(p, debug, i) == Places(p, debug, j) && Layout(p, debug, i) == Layout(p, debug, j)
    ensures NextKept(p, debug, i) == NextKept(p, debug, j)
    decreases j - i
  {
    hide ValidInstn, InstnSize;
    if i < j {
      SkipPlaces(p, debug, i + 1, j);
    }
  }
}
