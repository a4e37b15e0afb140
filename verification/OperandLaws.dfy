/** What an operand written in the source is in the finished code, and that data slots agree with it about labels. */
module OperandLaws {
  import opened Bytes
  import opened Isa
  import opened Program
  import opened Encoding
  import opened Decoder
  import opened DataSegment

  /**
   * What the decoder reads in the finished code at an emitted instruction is what the source says. A number is itself;
   * a reference is its low 32 bits. A data label is the offset recorded for it; a code label is the place of the next
   * instruction emitted at or after it, and all ones where there is none.
   */
  lemma OperandsMeanTheirSource(p: Program, debug: Mode, memsz: nat, i: nat, k: nat)
    requires Fits(p, debug) && i < |p.instns| && Kept(p, debug, i) && k < |p.instns[i].args|
    ensures var d := Decode(p.table, Image(p, debug), memsz, Layout(p, debug, i));
            d.Decoded? ==>
              && d.opcode == p.instns[i].opcode && |d.operands| == |p.instns[i].args|
              && match p.instns[i].args[k]
                 case Imm(v, _) => d.operands[k] == ImmVal(v)
                 case RefNum(v) => d.operands[k] == RefPtr(v % WORD32)
                 case ImmLbl(l) =>
                   && l in p.labels && d.operands[k].ImmVal?
                   && StandsFor(p, debug, l, d.operands[k].value)
                 case RefLbl(l) =>
                   && l in p.labels && d.operands[k].RefPtr?
                   && StandsFor(p, debug, l, d.operands[k].addr)
  {
    hide Decode, Image, Layout, RefsOk;
    RoundTrip(p, debug, memsz, i);
    assert ValidInstn(p, p.instns[i]) && ValidArg(p, p.instns[i].args[k]);
    if p.instns[i].args[k].RefLbl? || p.instns[i].args[k].ImmLbl? {
      LabelStands(p, debug, p.instns[i].args[k].name);
    }
  }

  /** `v` is what the label means: a data label's offset, or where control goes from a code label. */
  ghost predicate StandsFor(p: Program, debug: Mode, l: string, v: nat)
    requires Valid(p) && l in p.labels
  {
    if p.labels[l].isMemRef then v == p.labels[l].offset
    else
      var at := p.labels[l].offset;
      (forall k :: at <= k < |p.instns| && Kept(p, debug, k) && (forall j :: at <= j < k ==> !Kept(p, debug, j))
                   ==> v == Layout(p, debug, k))
      && ((forall k :: at <= k < |p.instns| ==> !Kept(p, debug, k)) ==> v == 0xFFFF_FFFF)
  }

  lemma LabelStands(p: Program, debug: Mode, l: string)
    requires Fits(p, debug) && KnownLabel(p, l)
    ensures StandsFor(p, debug, l, Label32(p, debug, l))
  {
    hide Layout, ValidTable;
    if !p.labels[l].isMemRef {
      var at := p.labels[l].offset;
      var n := NextKept(p, debug, at);
      forall k | at <= k < |p.instns| && Kept(p, debug, k) && (forall j :: at <= j < k ==> !Kept(p, debug, j))
        ensures Label32(p, debug, l) == Layout(p, debug, k)
      {
        assert n == k;
        LayoutOfSkipped(p, debug, at, k);
      }
    }
  }

  /** Slots of four and eight bytes hold any label's number whole. */
  lemma SlotHolds(s: seq<byte>, at: nat, v: u32, size: nat)
    requires Holds(s, at, ToLE(v, size)) && (size == 4 || size == 8)
    ensures at + size <= |s| && WordAt(s, at, size) == v
  {
    hide ToLE, WordAt, Holds;
    Capacities();
    WordHeld(s, at, v, size);
    ModIsRemainder(v, Capacity(size), 0, v);
  }

  /**
   * An instruction and a data slot that name the same label hold the same number: what resolving leaves in the slot is
   * what the decoder reads for the operand, for data labels the offset recorded for them.
   */
  lemma SlotsAgreeWithOperands(p: Program, debug: Mode, memsz: nat, i: nat, k: nat, l: string, d: Decoded,
                               s: seq<byte>, refs: seq<LabelRef>, memOffset: seq<u32>, j: nat, data: seq<byte>)
    requires Fits(p, debug) && i < |p.instns| && Kept(p, debug, i) && k < |p.instns[i].args|
    requires |memOffset| == |p.instns| && forall n :: 0 <= n < |memOffset| ==> memOffset[n] == MemOffset(p, debug, n)
    requires SlotsIn(refs, |s|) && Apart(refs) && data == Resolved(s, refs, p.labels, memOffset)
    requires d == Decode(p.table, Image(p, debug), memsz, Layout(p, debug, i)) && d.Decoded?
    requires p.instns[i].args[k] == ImmLbl(l) || p.instns[i].args[k] == RefLbl(l)
    requires j < |refs| && refs[j].name == l && (refs[j].size == 4 || refs[j].size == 8)
    ensures refs[j].at + refs[j].size <= |data| && |d.operands| == |p.instns[i].args| && l in p.labels
    ensures var word := WordAt(data, refs[j].at, refs[j].size);
            && (p.instns[i].args[k] == ImmLbl(l) ==> d.operands[k].ImmVal? && d.operands[k].value == word)
            && (p.instns[i].args[k] == RefLbl(l) ==> d.operands[k].RefPtr? && d.operands[k].addr == word)
            && (p.labels[l].isMemRef ==> word == p.labels[l].offset)
  {
    hide Decode, Image, Layout, RefsOk, Resolved, Apart, Holds, WordAt, ToLE;
    RoundTrip(p, debug, memsz, i);
    assert ValidInstn(p, p.instns[i]) && ValidArg(p, p.instns[i].args[k]);
    ResolvedSlots(s, refs, p.labels, memOffset, j);
    SlotHolds(data, refs[j].at, AddressOf(refs[j], p.labels, memOffset), refs[j].size);
  }

  /** Bytes are emitted for every instruction but `assert`, and for that one when debugging. */
  lemma OnlyAssertIsSkipped(p: Program, debug: Mode, i: nat)
    requires Valid(p) && i < |p.instns|
    ensures Layout(p, debug, i + 1) == Layout(p, debug, i) <==> OpAt(p, i) == Assert && !debug
  {}

  predicate IsImmediate(args: seq<Arg>, j: nat) {
    j < |args| && (args[j].Imm? || args[j].ImmLbl?)
  }

  /** Two bits for the width of argument `j`: 0 to 3 for one, two, four and eight bytes; none for a reference. */
  predicate WidthBits(args: seq<Arg>, j: nat, b: nat) {
    if !IsImmediate(args, j) then b == 0
    else
      var width := if args[j].Imm? then args[j].width else 4;
      (b == 0 && width == 1) || (b == 1 && width == 2) || (b == 2 && width == 4) || (b == 3 && width == 8)
  }

  ghost predicate WidthsPacked(args: seq<Arg>, sizes: nat) {
    exists a: nat, b: nat, c: nat :: WidthBits(args, 0, a) && WidthBits(args, 1, b) && WidthBits(args, 2, c)
                                     && sizes == a + 4 * b + 16 * c
  }

  function Immediates(args: seq<Arg>): nat {
    (if IsImmediate(args, 0) then 1 else 0) + (if IsImmediate(args, 1) then 2 else 0)
    + (if IsImmediate(args, 2) then 4 else 0)
  }

  /** At `at` stand, low byte first, the opcode and three bits for the immediates; then, if any, their widths. */
  ghost predicate StartsWith(code: seq<byte>, at: nat, i: SrcInstn) {
    && at + 2 <= |code|
    && code[at] as int + 256 * (code[at + 1] as int) == 8 * i.opcode + Immediates(i.args)
    && (Immediates(i.args) != 0 ==> at + 3 <= |code| && WidthsPacked(i.args, code[at + 2]))
  }

  /** The instruction format, in bytes, at the place of every emitted instruction. */
  lemma InstnFormat(p: Program, debug: Mode, i: nat)
    requires Fits(p, debug) && i < |p.instns| && Kept(p, debug, i)
    ensures StartsWith(Image(p, debug), Layout(p, debug, i), p.instns[i])
  {
    hide Image, Layout, CodeSize, Header, StartsWith, RefCode;
    CodeAt(p, debug, i, |p.instns|);
    var (at, instn) := (Layout(p, debug, i), p.instns[i]);
    var header := Header(instn);
    ImageIsCode(p, debug);
    HoldsAtStart(header, EncodeArgs(p, debug, instn.args));
    HoldsWithin(Image(p, debug), at, EncodeInstn(p, debug, instn), 0, header);
    HeaderFormat(p, instn);
    StartsHeld(Image(p, debug), at, instn, header);
  }

  lemma ImageIsCode(p: Program, debug: Mode)
    requires Valid(p)
    ensures Image(p, debug) == RefCode(p, debug, |p.instns|)
  {}

  lemma StartsHeld(code: seq<byte>, at: nat, i: SrcInstn, header: seq<byte>)
    requires Holds(code, at, header) && StartsWith(header, 0, i)
    ensures StartsWith(code, at, i)
  {
    hide WidthsPacked, Immediates;
    forall k | 0 <= k < |header|
      ensures code[at + k] == header[k]
    {
      assert code[at..at + |header|][k] == header[k];
    }
  }

  lemma HeaderFormat(p: Program, i: SrcInstn)
    requires ValidTable(p.table) && ValidInstn(p, i)
    ensures StartsWith(Header(i), 0, i)
  {
    hide ToLE, WidthsPacked, ImmFlags, ValidInstn;
    assert |i.args| <= 3 && i.opcode < 256 by { assert ValidInstn(p, i); ArityOf(p, i); }
    FlagsAreImmediates(i);
    HeaderBytes(i);
    PackedWidths(p, i);
  }

  lemma ArityOf(p: Program, i: SrcInstn)
    requires ValidTable(p.table) && ValidInstn(p, i)
    ensures |i.args| <= 3 && i.opcode < 256
  {}

  lemma FlagsAreImmediates(i: SrcInstn)
    ensures ImmFlags(i.args) == Immediates(i.args)
  {}

  lemma HeaderBytes(i: SrcInstn)
    requires |i.args| <= 3 && i.opcode < 256
    ensures |Header(i)| == (if ImmFlags(i.args) != 0 then 3 else 2)
    ensures Header(i)[0] as int + 256 * (Header(i)[1] as int) == 8 * i.opcode + ImmFlags(i.args)
    ensures ImmFlags(i.args) != 0 ==> Header(i)[2] == SizeByte(i.args)
  {
    hide ToLE, ImmFlags, SizeByte, HasImm;
    var word := i.opcode * 8 + ImmFlags(i.args);
    ByteOfWord(word, 2, 0);
    ByteOfWord(word, 2, 1);
    Capacities();
    assert word < 256 * 256;
  }

  lemma PackedWidths(p: Program, i: SrcInstn)
    requires ValidInstn(p, i)
    ensures WidthsPacked(i.args, SizeByte(i.args))
  {
    hide SizeBits, WidthBits;
    WidthLog(p, i, 0);
    WidthLog(p, i, 1);
    WidthLog(p, i, 2);
  }

  lemma WidthLog(p: Program, i: SrcInstn, j: nat)
    requires ValidInstn(p, i)
    ensures WidthBits(i.args, j, SizeBits(i.args, j))
  {
    if j < |i.args| {
      assert ValidArg(p, i.args[j]);
    }
  }
}
