/** One-pass code generation with delayed references, proved equal to the two-pass reference. */
module Assembler {
  import opened Bytes
  import opened Isa
  import opened Program
  import opened Encoding
  import opened Decoder

  const BLOCK := 256

  /** A label operand still to be filled in: where its four bytes go, and the instruction it names. */
  datatype Ref = Ref(offset: nat, instn: nat)

  // ---- What the delayed references mean

  ghost predicate RefsInside(p: Program, refs: seq<Ref>, n: nat) {
    forall k :: 0 <= k < |refs| ==> refs[k].offset + 4 <= n && refs[k].instn < |p.instns|
  }

  /** The bytes after filling in `refs` from left to right. */
  ghost function Patched(p: Program, debug: Mode, s: seq<byte>, refs: seq<Ref>): (r: seq<byte>)
    requires Valid(p) && RefsInside(p, refs, |s|)
    ensures |r| == |s|
  {
    if refs == [] then s
    else
      var k := |refs| - 1;
      Splice(Patched(p, debug, s, refs[..k]), refs[k].offset, ToLE(MemOffset(p, debug, refs[k].instn), 4))
  }

  /** Bytes appended beyond every delayed reference are untouched by the filling in. */
  lemma {:induction false} PatchedAppend(p: Program, debug: Mode, s: seq<byte>, t: seq<byte>, refs: seq<Ref>)
    requires Valid(p) && RefsInside(p, refs, |s|)
    ensures RefsInside(p, refs, |s + t|)
    ensures Patched(p, debug, s + t, refs) == Patched(p, debug, s, refs) + t
  {
    if refs != [] {
      var k := |refs| - 1;
      PatchedAppend(p, debug, s, t, refs[..k]);
      SpliceAppend(Patched(p, debug, s, refs[..k]), t, refs[k].offset, ToLE(MemOffset(p, debug, refs[k].instn), 4));
    }
  }

  /** Filling in the references changes no byte but the four of each reference. */
  lemma {:induction false} PatchedElsewhere(p: Program, debug: Mode, s: seq<byte>, refs: seq<Ref>, i: nat)
    requires Valid(p) && RefsInside(p, refs, |s|) && i < |s|
    requires forall k :: 0 <= k < |refs| ==> !(refs[k].offset <= i < refs[k].offset + 4)
    ensures Patched(p, debug, s, refs)[i] == s[i]
  {
    hide MemOffset, ToLE;
    if refs != [] {
      PatchedElsewhere(p, debug, s, refs[..|refs| - 1], i);
    }
  }

  lemma SpliceAppend(s: seq<byte>, t: seq<byte>, at: nat, u: seq<byte>)
    requires at + |u| <= |s|
    ensures Splice(s + t, at, u) == Splice(s, at, u) + t
  {}

  /** A new delayed reference to four bytes at the end: whatever they hold, they will be filled in. */
  lemma PatchedReserve(p: Program, debug: Mode, s: seq<byte>, t: seq<byte>, refs: seq<Ref>, i: nat)
    requires Valid(p) && RefsInside(p, refs, |s|) && |t| == 4 && i < |p.instns|
    ensures var refs' := refs + [Ref(|s|, i)];
            RefsInside(p, refs', |s + t|)
            && Patched(p, debug, s + t, refs') == Patched(p, debug, s, refs) + ToLE(MemOffset(p, debug, i), 4)
  {
    PatchedAppend(p, debug, s, t, refs);
    var refs' := refs + [Ref(|s|, i)];
    assert refs'[..|refs'| - 1] == refs;
  }

  // ---- Writing into the buffer

  /** An n-byte store at `offset`. */
  method WriteWord(buffer: array<byte>, offset: nat, value: nat, n: nat)
    requires offset + n <= buffer.Length
    modifies buffer
    ensures buffer[..] == Splice(old(buffer[..]), offset, ToLE(value, n))
  {
    var word := ToLE(value, n);
    forall k | 0 <= k < n {
      buffer[offset + k] := word[k];
    }
  }

  /** `s` becomes `target` once the delayed references are filled in. */
  ghost predicate Stands(p: Program, debug: Mode, s: seq<byte>, refs: seq<Ref>, target: seq<byte>)
    requires Valid(p)
  {
    RefsInside(p, refs, |s|) && Patched(p, debug, s, refs) == target
  }

  lemma StandsAppend(p: Program, debug: Mode, s: seq<byte>, refs: seq<Ref>, target: seq<byte>, t: seq<byte>)
    requires Valid(p) && Stands(p, debug, s, refs, target)
    ensures Stands(p, debug, s + t, refs, target + t)
  {
    PatchedAppend(p, debug, s, t, refs);
  }

  lemma StandsReserve(p: Program, debug: Mode, s: seq<byte>, refs: seq<Ref>, target: seq<byte>, t: seq<byte>, i: nat)
    requires Valid(p) && Stands(p, debug, s, refs, target) && |t| == 4 && i < |p.instns|
    ensures Stands(p, debug, s + t, refs + [Ref(|s|, i)], target + ToLE(MemOffset(p, debug, i), 4))
  {
    PatchedReserve(p, debug, s, t, refs, i);
  }

  /** Writing at the end of the used part extends it by what was written. */
  lemma SpliceAtEnd(s: seq<byte>, n: nat, t: seq<byte>)
    requires n + |t| <= |s|
    ensures Splice(s, n, t)[..n + |t|] == s[..n] + t
  {}

  /** The offsets recorded so far: final below `b`, still -1 from `b` on. */
  ghost predicate Recorded(p: Program, debug: Mode, offsets: seq<u32>, b: nat)
    requires Fits(p, debug)
  {
    && |offsets| == |p.instns| && b <= |p.instns|
    && (forall j :: 0 <= j < b ==> offsets[j] == Layout(p, debug, j))
    && (forall j :: b <= j < |p.instns| ==> offsets[j] == NONE32)
  }

  lemma RecordedIsFinal(p: Program, debug: Mode, offsets: seq<u32>, i: nat, j: nat)
    requires Fits(p, debug) && j <= i < |p.instns| && Kept(p, debug, i) && Recorded(p, debug, offsets, i + 1)
    ensures offsets[j] == MemOffset(p, debug, j)
  {
    assert NextKept(p, debug, j) <= i;
  }

  /** One operand of instruction `i`; a label of a later instruction is left for afterwards. */
  method WriteArg(p: Program, ghost debug: Mode, buffer: array<byte>, offset: nat, memOffset: array<u32>,
                  i: nat, a: Arg, refs: seq<Ref>, ghost target: seq<byte>)
    returns (refs': seq<Ref>)
    requires Fits(p, debug) && i < |p.instns| && Kept(p, debug, i) && ValidArg(p, a)
    requires Recorded(p, debug, memOffset[..], i + 1)
    requires offset + ArgSize(a) <= buffer.Length
    requires Stands(p, debug, buffer[..offset], refs, target)
    modifies buffer
    ensures Stands(p, debug, buffer[..offset + ArgSize(a)], refs', target + EncodeArg(p, debug, a))
  {
    hide Stands;
    ghost var before := buffer[..];
    if a.RefLbl? || a.ImmLbl? {
      var lbl := p.labels[a.name];
      if !lbl.isMemRef && lbl.offset > i {
        StandsReserve(p, debug, before[..offset], refs, target, before[offset..offset + 4], lbl.offset);
        assert before[..offset] + before[offset..offset + 4] == buffer[..offset + 4];
        return refs + [Ref(offset, lbl.offset)];
      }
      if lbl.isMemRef {
        WriteWord(buffer, offset, lbl.offset, 4);
      } else {
        RecordedIsFinal(p, debug, memOffset[..], i, lbl.offset);
        WriteWord(buffer, offset, memOffset[lbl.offset], 4);
      }
    } else {
      WriteWord(buffer, offset, a.value, ArgSize(a));
    }
    refs' := refs;
    SpliceAtEnd(before, offset, EncodeArg(p, debug, a));
    StandsAppend(p, debug, before[..offset], refs, target, EncodeArg(p, debug, a));
  }

  /** `write_args`: the operands of instruction `i`, one after the other. */
  method WriteArgs(p: Program, ghost debug: Mode, buffer: array<byte>, start: nat, memOffset: array<u32>,
                   i: nat, refs0: seq<Ref>, ghost target: seq<byte>)
    returns (offset: nat, refs: seq<Ref>)
    requires Fits(p, debug) && i < |p.instns| && Kept(p, debug, i)
    requires Recorded(p, debug, memOffset[..], i + 1)
    requires start + ArgsSize(p.instns[i].args) <= buffer.Length
    requires Stands(p, debug, buffer[..start], refs0, target)
    modifies buffer
    ensures offset == start + ArgsSize(p.instns[i].args)
    ensures Stands(p, debug, buffer[..offset], refs, target + EncodeArgs(p, debug, p.instns[i].args))
  {
    hide Stands, Recorded, EncodeArgs, EncodeArg, ArgsSize;
    offset, refs := start, refs0;
    var args := p.instns[i].args;
    ArgsStart(p, debug, args);
    assert target + [] == target;
    for j := 0 to |args|
      invariant offset == start + ArgsSize(args[..j]) <= buffer.Length
      invariant Stands(p, debug, buffer[..offset], refs, target + EncodeArgs(p, debug, args[..j]))
    {
      ArgsStep(p, debug, args, j);
      ghost var sofar := target + EncodeArgs(p, debug, args[..j]);
      refs := WriteArg(p, debug, buffer, offset, memOffset, i, args[j], refs, sofar);
      assert sofar + EncodeArg(p, debug, args[j]) == target + EncodeArgs(p, debug, args[..j + 1]);
      offset := offset + ArgSize(args[j]);
    }
    assert args[..|args|] == args;
  }

  lemma ArgsStart(p: Program, debug: Mode, args: seq<Arg>)
    requires Valid(p)
    ensures args[..0] == [] && ArgsSize(args[..0]) == 0 && EncodeArgs(p, debug, args[..0]) == []
  {}

  lemma ArgsStep(p: Program, debug: Mode, args: seq<Arg>, j: nat)
    requires Valid(p) && j < |args| && forall k :: 0 <= k < |args| ==> ValidArg(p, args[k])
    ensures ArgsSize(args[..j + 1]) == ArgsSize(args[..j]) + ArgSize(args[j]) <= ArgsSize(args)
    ensures EncodeArgs(p, debug, args[..j + 1]) == EncodeArgs(p, debug, args[..j]) + EncodeArg(p, debug, args[j])
    decreases |args|
  {
    assert args[..j + 1][..j] == args[..j];
    if j + 1 < |args| {
      ArgsStep(p, debug, args[..|args| - 1], j);
      assert args[..|args| - 1][..j + 1] == args[..j + 1];
    } else {
      assert args[..j + 1] == args;
    }
  }

  // ---- One instruction

  lemma LayoutStep(args: seq<Arg>, j: nat)
    requires j < |args| <= 3
    ensures ImmFlags(args[..j + 1]) == ImmFlags(args[..j]) + ImmBit(args, j) * Pow2(j)
    ensures SizeByte(args[..j + 1]) == SizeByte(args[..j]) + SizeBits(args, j) * Pow2(2 * j)
    ensures ArgsSize(args[..j + 1]) == ArgsSize(args[..j]) + ArgSize(args[j])
  {
    assert args[..j + 1][..j] == args[..j];
    SmallPowers();
    hide Pow2, Log2, ArgSize;
    assert j == 0 || j == 1 || j == 2;
  }

  /** `compute_layout`; the bits set in each round are new, so setting them is adding them. */
  method ComputeLayout(i: SrcInstn) returns (opIR: nat, iSz: byte, size: nat)
    requires |i.args| <= 3
    ensures opIR == Word(i) && iSz == SizeByte(i.args) && size == InstnSize(i)
  {
    hide Pow2, ImmFlags, SizeByte, SizeBits, ArgsSize, Log2;
    LayoutStart(i.args);
    opIR, iSz, size := i.opcode * 8, 0, 2;
    for j := 0 to |i.args|
      invariant opIR == i.opcode * 8 + ImmFlags(i.args[..j])
      invariant iSz == SizeByte(i.args[..j])
      invariant size == 2 + ArgsSize(i.args[..j])
    {
      LayoutStep(i.args, j);
      if IsImm(i.args[j]) {
        ImmSizeBits(i.args, j);
        opIR := opIR + Pow2(j);
        iSz := iSz + Log2(ArgSize(i.args[j])) * Pow2(2 * j);
      } else {
        NoSizeBits(i.args, j);
      }
      size := size + ArgSize(i.args[j]);
    }
    assert i.args[..|i.args|] == i.args;
    FlagsNonzero(i.args);
    ModIsRemainder(opIR, 8, i.opcode, ImmFlags(i.args));
    if opIR % 8 != 0 {
      size := size + 1;
    }
  }

  lemma LayoutStart(args: seq<Arg>)
    ensures ImmFlags(args[..0]) == 0 && SizeByte(args[..0]) == 0 && ArgsSize(args[..0]) == 0
  {}

  lemma NoSizeBits(args: seq<Arg>, j: nat)
    requires j < |args| && !IsImm(args[j])
    ensures SizeBits(args, j) == 0
  {}

  /** `realloc` to a larger size: the contents move over, the rest is whatever was there. */
  method Grow(buffer: array<byte>, n: nat) returns (bigger: array<byte>)
    requires n >= buffer.Length
    ensures fresh(bigger) && bigger.Length == n && bigger[..buffer.Length] == buffer[..]
  {
    bigger := new byte[n];
    forall k | 0 <= k < buffer.Length {
      bigger[k] := buffer[k];
    }
  }

  /** One past the last emitted instruction before `i`. */
  ghost function LastKept(p: Program, debug: Mode, i: nat): (b: nat)
    requires Valid(p) && i <= |p.instns|
    ensures b <= i && (b > 0 ==> Kept(p, debug, b - 1))
    ensures forall j :: b <= j < i ==> !Kept(p, debug, j)
  {
    if i == 0 || Kept(p, debug, i - 1) then i else LastKept(p, debug, i - 1)
  }

  /** Records the place of instruction `i`, and of the skipped instructions just before it. */
  method RecordOffset(p: Program, ghost debug: Mode, memOffset: array<u32>, i: nat, offset: u32)
    requires Fits(p, debug) && i < |p.instns| && Recorded(p, debug, memOffset[..], LastKept(p, debug, i))
    requires offset == Layout(p, debug, i)
    modifies memOffset
    ensures Recorded(p, debug, memOffset[..], i + 1)
  {
    hide ValidInstn, Kept, InstnSize;
    ghost var b := LastKept(p, debug, i);
    forall j | 0 <= j <= i
      ensures Layout(p, debug, j) < NONE32
      ensures b <= j ==> Layout(p, debug, j) == offset
    {
      OffsetsFit(p, debug, j);
      if b <= j { LayoutOfSkipped(p, debug, j, i); }
    }
    assert memOffset.Length == |p.instns|;
    memOffset[i] := offset;
    var j := i;
    while j > 0 && memOffset[j - 1] == NONE32
      invariant b <= j <= i
      invariant forall k :: 0 <= k < b ==> memOffset[k] == Layout(p, debug, k)
      invariant forall k :: b <= k < j || i < k < memOffset.Length ==> memOffset[k] == NONE32
      invariant forall k :: j <= k <= i ==> memOffset[k] == offset
    {
      j := j - 1;
      memOffset[j] := offset;
    }
    assert j == b;
  }

  lemma AllRecorded(p: Program, debug: Mode, offsets: seq<u32>)
    requires Fits(p, debug) && Recorded(p, debug, offsets, LastKept(p, debug, |p.instns|))
    ensures forall j :: 0 <= j < |p.instns| ==> offsets[j] == MemOffset(p, debug, j)
  {
    var b := LastKept(p, debug, |p.instns|);
    forall j | 0 <= j < |p.instns|
      ensures offsets[j] == MemOffset(p, debug, j)
    {
      if j < b {
        assert NextKept(p, debug, j) <= b - 1;
      }
    }
  }

  /** Adds blocks until `need` bytes fit, keeping the first `used`. */
  method EnsureBlocks(buffer: array<byte>, used: nat, nBlocks: nat, need: nat)
    returns (bigger: array<byte>, blocks: nat)
    requires used <= buffer.Length == nBlocks * BLOCK
    ensures bigger == buffer || fresh(bigger)
    ensures bigger.Length == blocks * BLOCK >= need && used <= bigger.Length
    ensures bigger[..used] == buffer[..used]
  {
    bigger, blocks := buffer, nBlocks;
    while need > blocks * BLOCK
      invariant used <= bigger.Length == blocks * BLOCK
      invariant bigger == buffer || fresh(bigger)
      invariant bigger[..used] == buffer[..used]
      decreases need - blocks * BLOCK
    {
      blocks := blocks + 1;
      var next := Grow(bigger, blocks * BLOCK);
      assert next[..used] == next[..bigger.Length][..used];
      bigger := next;
    }
  }

  // ---- The whole program

  /** The state after the first `i` instructions: the used part of the buffer, the references, the offsets. */
  ghost predicate Emitted(p: Program, debug: Mode, s: seq<byte>, refs: seq<Ref>, offsets: seq<u32>, i: nat)
    requires Fits(p, debug) && i <= |p.instns|
  {
    && |s| == Layout(p, debug, i)
    && Stands(p, debug, s, refs, RefCode(p, debug, i))
    && Recorded(p, debug, offsets, LastKept(p, debug, i))
  }

  lemma EmittedStart(p: Program, debug: Mode, offsets: seq<u32>)
    requires Fits(p, debug) && |offsets| == |p.instns|
    requires forall j :: 0 <= j < |offsets| ==> offsets[j] == NONE32
    ensures Emitted(p, debug, [], [], offsets, 0)
  {}

  lemma EmittedSkip(p: Program, debug: Mode, s: seq<byte>, refs: seq<Ref>, offsets: seq<u32>, i: nat)
    requires Fits(p, debug) && i < |p.instns| && !Kept(p, debug, i) && Emitted(p, debug, s, refs, offsets, i)
    ensures Emitted(p, debug, s, refs, offsets, i + 1)
  {
    hide Stands, Recorded, ValidInstn;
  }

  lemma EmittedAll(p: Program, debug: Mode, s: seq<byte>, refs: seq<Ref>, offsets: seq<u32>)
    requires Fits(p, debug) && Emitted(p, debug, s, refs, offsets, |p.instns|)
    ensures Stands(p, debug, s, refs, Image(p, debug)) && |offsets| == |p.instns|
    ensures forall j :: 0 <= j < |p.instns| ==> offsets[j] == MemOffset(p, debug, j)
  {
    AllRecorded(p, debug, offsets);
  }

  /** `parse_to_bytecode`: one pass over the instructions, then the delayed references. */
  method ParseToBytecode(p: Program, debug: Mode, memOffset: array<u32>) returns (buffer: array<byte>, size: nat)
    requires Fits(p, debug)
    requires memOffset.Length == |p.instns| && forall j :: 0 <= j < |p.instns| ==> memOffset[j] == NONE32
    modifies memOffset
    ensures size == CodeSize(p, debug) <= buffer.Length
    ensures buffer[..size] == Image(p, debug)
    ensures forall j :: 0 <= j < |p.instns| ==> memOffset[j] == MemOffset(p, debug, j)
  {
    hide Emitted, ValidArg, Arity;
    buffer := new byte[0];
    size := 0;
    var nBlocks := 0;
    var refs: seq<Ref> := [];
    EmittedStart(p, debug, memOffset[..]);
    for i := 0 to |p.instns|
      invariant size <= buffer.Length == nBlocks * BLOCK
      invariant fresh(buffer)
      invariant Emitted(p, debug, buffer[..size], refs, memOffset[..], i)
    {
      if DebugOnly(OpAt(p, i)) && !debug {
        EmittedSkip(p, debug, buffer[..size], refs, memOffset[..], i);
      } else {
        buffer, size, nBlocks, refs := EmitNext(p, debug, buffer, size, nBlocks, memOffset, i, refs);
      }
    }
    EmittedAll(p, debug, buffer[..size], refs, memOffset[..]);
    PatchAll(p, debug, buffer, size, memOffset, refs);
  }

  lemma KeptStep(p: Program, debug: Mode, i: nat)
    requires Fits(p, debug) && i < |p.instns| && Kept(p, debug, i)
    ensures LastKept(p, debug, i + 1) == i + 1
    ensures Layout(p, debug, i + 1) == Layout(p, debug, i) + InstnSize(p.instns[i])
    ensures ValidInstn(p, p.instns[i]) && |p.instns[i].args| <= 3 && Layout(p, debug, i) < NONE32
  {
    OffsetsFit(p, debug, i);
  }

  /** Emits instruction `i`: layout, room, offsets, bytes. */
  method EmitNext(p: Program, ghost debug: Mode, buffer0: array<byte>, size0: nat, nBlocks0: nat,
                  memOffset: array<u32>, i: nat, refs0: seq<Ref>)
    returns (buffer: array<byte>, size: nat, nBlocks: nat, refs: seq<Ref>)
    requires Fits(p, debug) && i < |p.instns| && Kept(p, debug, i)
    requires size0 <= buffer0.Length == nBlocks0 * BLOCK
    requires Emitted(p, debug, buffer0[..size0], refs0, memOffset[..], i)
    modifies buffer0, memOffset
    ensures buffer == buffer0 || fresh(buffer)
    ensures size <= buffer.Length == nBlocks * BLOCK
    ensures Emitted(p, debug, buffer[..size], refs, memOffset[..], i + 1)
  {
    KeptStep(p, debug, i);
    hide Emitted, ValidArg, InstnSize, Layout, Word, SizeByte, Kept, Valid, Fits;
    var opIR, iSz, length := ComputeLayout(p.instns[i]);
    buffer, nBlocks := EnsureBlocks(buffer0, size0, nBlocks0, size0 + length);
    size, refs := EmitAt(p, debug, buffer, size0, memOffset, i, opIR, iSz, refs0);
  }

  /** Records the offset of instruction `i` and writes it where there is room. */
  method EmitAt(p: Program, ghost debug: Mode, buffer: array<byte>, start: nat, memOffset: array<u32>, i: nat,
                opIR: nat, iSz: byte, refs0: seq<Ref>)
    returns (offset: nat, refs: seq<Ref>)
    requires Fits(p, debug) && i < |p.instns| && Kept(p, debug, i)
    requires opIR == Word(p.instns[i]) && iSz == SizeByte(p.instns[i].args)
    requires start + InstnSize(p.instns[i]) <= buffer.Length
    requires Emitted(p, debug, buffer[..start], refs0, memOffset[..], i)
    modifies buffer, memOffset
    ensures offset <= buffer.Length && Emitted(p, debug, buffer[..offset], refs, memOffset[..], i + 1)
  {
    KeptStep(p, debug, i);
    hide Stands, Recorded, ValidArg, InstnSize, Layout, LastKept, RefCode, Word, SizeByte, Kept, Valid, Fits;
    ghost var s := buffer[..start];
    RecordOffset(p, debug, memOffset, i, start);
    assert buffer[..start] == s;
    ghost var offsets := memOffset[..];
    offset, refs := EmitInstn(p, debug, buffer, start, memOffset, i, opIR, iSz, refs0);
    assert memOffset[..] == offsets;
  }

  /** The header, then the operands. */
  method EmitInstn(p: Program, ghost debug: Mode, buffer: array<byte>, start: nat, memOffset: array<u32>, i: nat,
                   opIR: nat, iSz: byte, refs0: seq<Ref>)
    returns (offset: nat, refs: seq<Ref>)
    requires Fits(p, debug) && i < |p.instns| && Kept(p, debug, i)
    requires Recorded(p, debug, memOffset[..], i + 1)
    requires opIR == Word(p.instns[i]) && iSz == SizeByte(p.instns[i].args)
    requires start + InstnSize(p.instns[i]) <= buffer.Length
    requires Stands(p, debug, buffer[..start], refs0, RefCode(p, debug, i))
    modifies buffer
    ensures offset == start + InstnSize(p.instns[i])
    ensures Stands(p, debug, buffer[..offset], refs, RefCode(p, debug, i + 1))
  {
    hide Stands, Recorded, EncodeArgs, ValidArg, LastKept, Header, Word, SizeByte;
    var instn := p.instns[i];
    ghost var s := buffer[..start];
    var at := WriteHeader(instn, buffer, start, opIR, iSz);
    assert buffer[..at] == s + Header(instn);
    StandsAppend(p, debug, s, refs0, RefCode(p, debug, i), Header(instn));
    offset, refs := WriteArgs(p, debug, buffer, at, memOffset, i, refs0, RefCode(p, debug, i) + Header(instn));
    assert RefCode(p, debug, i) + Header(instn) + EncodeArgs(p, debug, instn.args) == RefCode(p, debug, i + 1);
  }

  /** The opcode word, and the size byte if any operand is an immediate. */
  method WriteHeader(instn: SrcInstn, buffer: array<byte>, start: nat, opIR: nat, iSz: byte) returns (offset: nat)
    requires |instn.args| <= 3 && opIR == Word(instn) && iSz == SizeByte(instn.args)
    requires start + |Header(instn)| <= buffer.Length
    modifies buffer
    ensures offset == start + |Header(instn)|
    ensures buffer[..offset] == old(buffer[..start]) + Header(instn)
  {
    hide ImmFlags, SizeByte, ToLE;
    FlagsNonzero(instn.args);
    ModIsRemainder(opIR, 8, instn.opcode, ImmFlags(instn.args));
    WriteWord(buffer, start, opIR, 2);
    offset := start + 2;
    if opIR % 8 != 0 {
      buffer[offset] := iSz;
      offset := offset + 1;
    }
  }

  /** Fills in the delayed references. */
  method PatchAll(p: Program, ghost debug: Mode, buffer: array<byte>, size: nat, memOffset: array<u32>, refs: seq<Ref>)
    requires Fits(p, debug) && size <= buffer.Length && memOffset.Length == |p.instns|
    requires forall j :: 0 <= j < |p.instns| ==> memOffset[j] == MemOffset(p, debug, j)
    requires Stands(p, debug, buffer[..size], refs, Image(p, debug))
    modifies buffer
    ensures buffer[..size] == Image(p, debug)
  {
    hide ValidInstn, MemOffset, Image;
    ghost var s := buffer[..size];
    for k := 0 to |refs|
      invariant RefsInside(p, refs[..k], size) && buffer[..size] == Patched(p, debug, s, refs[..k])
    {
      assert refs[..k + 1][..k] == refs[..k];
      ghost var before := buffer[..];
      WriteWord(buffer, refs[k].offset, memOffset[refs[k].instn], 4);
      SplicePrefix(before, size, refs[k].offset, ToLE(memOffset[refs[k].instn], 4));
    }
    assert refs[..|refs|] == refs;
  }

  lemma SplicePrefix(s: seq<byte>, n: nat, at: nat, t: seq<byte>)
    requires at + |t| <= n <= |s|
    ensures Splice(s, at, t)[..n] == Splice(s[..n], at, t)
  {}
}
