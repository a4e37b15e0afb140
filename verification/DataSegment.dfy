/** The data segment: growth in zeroed blocks, and the late filling in of label addresses. */
module DataSegment {
  import opened Bytes
  import opened Program

  /** Four or eight bytes reserved for a label's address. */
  datatype LabelRef = LabelRef(name: string, at: nat, size: nat)

  /** `s` grown to `n` bytes with zeros. */
  function Padded(s: seq<byte>, n: nat): (r: seq<byte>)
    requires |s| <= n
    ensures |r| == n
  {
    s + seq(n - |s|, _ => 0)
  }

  lemma PadThenPad(s: seq<byte>, m: nat, n: nat)
    requires |s| <= m <= n
    ensures Padded(Padded(s, m), n) == Padded(s, n)
  {}

  /** Writing byte by byte, growing in between, is writing all at once into what it grew to. */
  lemma WriteOneMore(s: seq<byte>, m: nat, n: nat, at: nat, t: seq<byte>, b: byte)
    requires |s| <= m <= n && at + |t| <= m && at + |t| + 1 <= n
    ensures Splice(Padded(Splice(Padded(s, m), at, t), n), at + |t|, [b]) == Splice(Padded(s, n), at, t + [b])
  {}

  // ---- The growth loop, in 32 bits

  /** The size after `rounds` of adding a block. */
  function SizeAfter(capacity: nat, block: nat, rounds: nat): u32 {
    (capacity + rounds * block) % WORD32
  }

  /** The loop that adds blocks until `alloc` is reached comes to an end. */
  ghost predicate LoopEnds(alloc: u32, capacity: u32, block: nat) {
    exists rounds: nat :: SizeAfter(capacity, block, rounds) >= alloc
  }

  /** Adding blocks with wrap-around visits every multiple of `unit` from where it starts, `turns` rounds a step. */
  predicate Visits(block: nat, unit: nat, turns: nat) {
    0 < unit <= block && WORD32 % unit == 0 && block % unit == 0 && (turns * block) % WORD32 == unit
  }

  /** The two block sizes of the source: 512 bytes, and 10 when it is compiled with assertions. */
  lemma SourceBlocks()
    ensures Visits(512, 512, 1) && Visits(10, 2, 1288490189)
  {}

  /** The greatest size the loop can arrive at. */
  function Highest(capacity: u32, unit: nat): int
    requires unit > 0
  {
    WORD32 - unit + capacity % unit
  }

  lemma MultiplesBelow(t: int, top: int, unit: nat, r: nat)
    requires unit > 0 && unit * t + r < unit * top && r < unit
    ensures unit * t <= unit * (top - 1)
  {
    if t > top - 1 {
      MulMono(top, t, unit);
    }
  }

  lemma InUnits(unit: nat, k: int, size: nat, count: nat)
    requires size == unit * count
    ensures k * size == unit * (k * count)
  {}

  lemma Distributes(unit: nat, a: int, b: int, c: int)
    ensures unit * (a + b - c) == unit * a + unit * b - unit * c
  {}

  lemma SizeKeepsRemainder(capacity: u32, block: nat, unit: nat, turns: nat, rounds: nat)
    requires Visits(block, unit, turns)
    ensures SizeAfter(capacity, block, rounds) % unit == capacity % unit
    ensures SizeAfter(capacity, block, rounds) <= Highest(capacity, unit)
  {
    var sum := capacity + rounds * block;
    var (q, b, w, c) := (sum / WORD32, block / unit, WORD32 / unit, capacity / unit);
    var v := SizeAfter(capacity, block, rounds);
    var t := c + rounds * b - q * w;
    assert v == sum - q * WORD32;
    hide SizeAfter;
    InUnits(unit, rounds, block, b);
    InUnits(unit, q, WORD32, w);
    assert unit * t == unit * c + unit * (rounds * b) - unit * (q * w) by { Distributes(unit, c, rounds * b, q * w); }
    ModIsRemainder(v, unit, t, capacity % unit);
    MultiplesBelow(t, w, unit, capacity % unit);
  }

  lemma ReachesHighest(capacity: u32, block: nat, unit: nat, turns: nat) returns (rounds: nat)
    requires Visits(block, unit, turns)
    ensures SizeAfter(capacity, block, rounds) == Highest(capacity, unit)
  {
    var (c, w, q) := (capacity / unit, WORD32 / unit, (turns * block) / WORD32);
    MultiplesBelow(c, w, unit, capacity % unit);
    var d := w - 1 - c;
    if d < 0 { MulMono(d, -1, unit); }
    rounds := d * turns;
    assert capacity + rounds * block == (d * q) * WORD32 + Highest(capacity, unit) by {
      assert rounds * block == d * (turns * block);
      assert d * (turns * block) == d * (q * WORD32) + d * unit;
      assert d * unit == w * unit - unit - c * unit;
    }
    ModIsRemainder(capacity + rounds * block, WORD32, d * q, Highest(capacity, unit));
  }

  /** The growth loop ends exactly when the request does not exceed the last size before wrap-around. */
  lemma LoopEndsIff(alloc: u32, capacity: u32, block: nat, unit: nat, turns: nat)
    requires Visits(block, unit, turns)
    ensures LoopEnds(alloc, capacity, block) <==> alloc <= Highest(capacity, unit)
  {
    if rounds: nat :| SizeAfter(capacity, block, rounds) >= alloc {
      SizeKeepsRemainder(capacity, block, unit, turns, rounds);
    }
    if alloc <= Highest(capacity, unit) {
      var rounds := ReachesHighest(capacity, block, unit, turns);
      assert SizeAfter(capacity, block, rounds) >= alloc;
    }
  }

  lemma OneRound(capacity: u32, block: nat, rounds: nat)
    requires rounds > 0
    ensures SizeAfter(SizeAfter(capacity, block, 1), block, rounds - 1) == SizeAfter(capacity, block, rounds)
  {
    var rest := (rounds - 1) * block;
    var q := (capacity + block) / WORD32;
    var t := (capacity + block) % WORD32 + rest;
    assert capacity + rounds * block == (q + t / WORD32) * WORD32 + t % WORD32;
    ModIsRemainder(capacity + rounds * block, WORD32, q + t / WORD32, t % WORD32);
  }

  predicate OnGrid(size: nat, unit: nat) {
    unit > 0 && size % unit == 0
  }

  lemma GridStart(size: nat, unit: nat)
    requires unit > 0
    ensures OnGrid(size, unit) <==> size % unit == 0
  {}

  /** A round of the loop brings the end one round nearer. */
  lemma LoopRound(size: u32, block: nat, unit: nat, turns: nat, rounds: nat, alloc: u32)
    requires Visits(block, unit, turns) && OnGrid(size, unit) && SizeAfter(size, block, rounds) >= alloc > size
    ensures rounds > 0 && OnGrid(SizeAfter(size, block, 1), unit)
    ensures SizeAfter(SizeAfter(size, block, 1), block, rounds - 1) >= alloc
  {
    if rounds == 0 {
      ModIsRemainder(size, WORD32, 0, size);
      assert false;
    }
    OneRound(size, block, rounds);
    SizeKeepsRemainder(size, block, unit, turns, 1);
  }

  /** The size asked for before writing at a given offset: in 32 bits, an absent size counting as -1. */
  function MinAlloc(size: u32, offset: u32): u32 {
    (offset + if size != 0 then size else 1) % WORD32
  }

  /**
   * A directive with an offset but no size asks for one byte less than the offset; at offset 0 that is the whole
   * address space, and the growth loop never ends.
   */
  lemma OffsetWithoutSize(offset: u32, capacity: u32, block: nat, unit: nat, turns: nat)
    requires Visits(block, unit, turns)
    ensures LoopEnds(MinAlloc(NONE32, offset), capacity, block)
            <==> if offset == 0 then capacity % unit == unit - 1 else offset - 1 <= Highest(capacity, unit)
    ensures capacity == 0 && unit > 1 ==> !LoopEnds(MinAlloc(NONE32, 0), capacity, block)
  {
    LoopEndsIff(MinAlloc(NONE32, offset), capacity, block, unit, turns);
    LoopEndsIff(MinAlloc(NONE32, 0), capacity, block, unit, turns);
    if offset > 0 {
      ModIsRemainder(offset + NONE32, WORD32, 1, offset - 1);
    }
  }

  /**
   * How an operation on the segment ends: normally, in a growth loop that goes round for ever, or outside the
   * allocation.
   */
  datatype Outcome = Done | Hangs | Wild

  /** Storing `n` bytes at `at` where sizes up to `top` can be allocated. */
  function StoreOutcome(at: u32, n: nat, top: int): Outcome {
    if (at + n) % WORD32 > top then Hangs else if at + n >= WORD32 then Wild else Done
  }

  /**
   * Whether a string or file directive completes, from its size, its offset and how many bytes it writes: the bytes
   * and the explicit size must end at or below `top`, and offset 0 needs a size.
   */
  predicate Completes(size: u32, offset: u32, memsz: u32, n: nat, top: int) {
    var origin := if offset != NONE32 then offset else memsz;
    && origin + n <= top
    && (offset == 0 ==> size != NONE32)
    && (size != NONE32 ==> (origin + size) % WORD32 <= top)
  }

  class Segment {
    const block: nat            // growth step, in bytes
    const unit: nat
    ghost const turns: nat
    var memory: array<byte>     // all that is allocated
    var memsz: nat              // bytes in use
    var labelRefs: seq<LabelRef>
    ghost var written: set<int>

    ghost predicate Valid()
      reads this, memory
    {
      && Visits(block, unit, turns) && unit > 1
      && memsz <= memory.Length < WORD32 && memory.Length % unit == 0
      && (forall k :: 0 <= k < |labelRefs| ==> labelRefs[k].at + labelRefs[k].size <= memory.Length
                                               && (labelRefs[k].size == 4 || labelRefs[k].size == 8))
      && (forall i :: 0 <= i < memory.Length && i !in written ==> memory[i] == 0)
    }

    /** The greatest size that can be allocated. */
    function Top(): int {
      WORD32 - unit
    }

    constructor (block: nat, unit: nat, ghost turns: nat)
      requires Visits(block, unit, turns) && unit > 1
      ensures Valid() && memsz == 0 && labelRefs == [] && written == {} && fresh(memory) && memory.Length == 0
      ensures this.block == block && this.unit == unit
    {
      this.block, this.unit, this.turns := block, unit, turns;
      memory := new byte[0];
      memsz, labelRefs, written := 0, [], {};
    }

    lemma CapacityBelowTop()
      requires Valid()
      ensures memsz <= memory.Length <= Top() < NONE32 && Highest(memory.Length, unit) == Top()
    {
      LoopEndsIff(memory.Length, memory.Length, block, unit, turns);
      assert SizeAfter(memory.Length, block, 0) >= memory.Length;
    }

    /** The growth loop, for a request it can reach. */
    method Grow(alloc: u32) returns (newSize: u32)
      requires Valid() && alloc <= Top()
      ensures newSize >= alloc && newSize % unit == 0
      ensures newSize == memory.Length || newSize > memory.Length
    {
      CapacityBelowTop();
      ghost var rounds := ReachesHighest(memory.Length, block, unit, turns);
      hide SizeAfter, Visits, OnGrid, Highest;
      GridStart(memory.Length, unit);
      newSize := memory.Length;
      while alloc > newSize
        invariant OnGrid(newSize, unit) && (newSize == memory.Length || alloc > memory.Length)
        invariant SizeAfter(newSize, block, rounds) >= alloc
        decreases rounds
      {
        LoopRound(newSize, block, unit, turns, rounds, alloc);
        newSize := SizeAfter(newSize, block, 1);
        rounds := rounds - 1;
      }
      GridStart(newSize, unit);
    }

    /** `ensure_memory_alloc`: whole blocks, zeroed. */
    method EnsureMemoryAlloc(alloc: u32) returns (o: Outcome)
      requires Valid()
      modifies this`memory
      ensures Valid() && (memory == old(memory) || fresh(memory))
      ensures o == if alloc <= Top() then Done else Hangs
      ensures o.Done? ==> memory.Length >= alloc
      ensures memory.Length >= old(memory.Length) && memory[..] == Padded(old(memory[..]), memory.Length)
    {
      CapacityBelowTop();
      assert memory[..] == Padded(memory[..], memory.Length);
      if alloc > memsz {
        if alloc > Top() {
          LoopEndsIff(alloc, memory.Length, block, unit, turns);
          assert !LoopEnds(alloc, memory.Length, block);
          return Hangs;
        }
        var newSize := Grow(alloc);
        if newSize > memory.Length {
          var was := memory;
          var now := new byte[newSize];
          forall i | 0 <= i < newSize {
            now[i] := if i < was.Length then was[i] else 0;
          }
          memory := now;
          assert memory[..] == Padded(was[..], newSize);
        }
      }
      return Done;
    }

    /** `write_to_memory`: the size in use becomes the end of what was written, even if it was larger. */
    method WriteToMemory(src: seq<byte>, at: u32) returns (o: Outcome)
      requires Valid() && |src| < WORD32
      modifies this`memory, this`memsz, this`written, memory
      ensures Valid() && (memory == old(memory) || fresh(memory))
      ensures o == StoreOutcome(at, |src|, Top())
      ensures o.Done? ==>
                && old(memory.Length) <= memory.Length && at + |src| <= memory.Length
                && memory[..] == Splice(Padded(old(memory[..]), memory.Length), at, src)
                && memsz == at + |src| && written == old(written) + Range(at, at + |src|)
    {
      CapacityBelowTop();
      EndInWords(at, |src|);
      o := EnsureMemoryAlloc((at + |src|) % WORD32);
      if o.Hangs? { return; }
      if at + |src| > memory.Length { return Wild; }
      ghost var s := memory[..];
      forall k | 0 <= k < |src| {
        memory[at + k] := src[k];
      }
      assert memory[..] == Splice(s, at, src);
      memsz := at + |src|;
      written := written + Range(at, at + |src|);
      assert forall i :: 0 <= i < memory.Length && i !in written ==> memory[i] == s[i] && s[i] == 0;
    }

    /** `set_memory_size`: an explicit size trims or extends what is in use. */
    method SetMemorySize(origin: u32, size: u32) returns (o: Outcome)
      requires Valid()
      modifies this`memory, this`memsz
      ensures Valid() && (memory == old(memory) || fresh(memory))
      ensures o == if size == NONE32 || (origin + size) % WORD32 <= Top() then Done else Hangs
      ensures memory.Length >= old(memory.Length) && memory[..] == Padded(old(memory[..]), memory.Length)
      ensures o.Done? ==> memsz == if size == NONE32 then old(memsz) else (origin + size) % WORD32
    {
      CapacityBelowTop();
      assert memory[..] == Padded(memory[..], memory.Length);
      o := Done;
      if size != NONE32 {
        var total := (size + origin) % WORD32;
        if total > memsz {
          o := EnsureMemoryAlloc(total);
          if o.Hangs? { return; }
        }
        memsz := total;
      }
    }

    method EnsureMemoryAtOffset(size: u32, offset: u32) returns (o: Outcome)
      requires Valid()
      modifies this`memory
      ensures Valid() && (memory == old(memory) || fresh(memory))
      ensures o == if offset == NONE32 || MinAlloc(size, offset) <= Top() then Done else Hangs
      ensures memory.Length >= old(memory.Length) && memory[..] == Padded(old(memory[..]), memory.Length)
    {
      assert memory[..] == Padded(memory[..], memory.Length);
      if offset == NONE32 { return Done; }
      o := EnsureMemoryAlloc(MinAlloc(size, offset));
    }

    /** Writing a string or a file: each byte extends what is in use by one. */
    method WriteEach(bytes: seq<byte>, at: u32) returns (o: Outcome)
      requires Valid() && bytes != [] && at < NONE32
      modifies this`memory, this`memsz, this`written, memory
      ensures Valid() && (memory == old(memory) || fresh(memory))
      ensures o == if at + |bytes| <= Top() then Done else Hangs
      ensures o.Done? ==>
                && old(memory.Length) <= memory.Length && at + |bytes| <= memory.Length
                && memory[..] == Splice(Padded(old(memory[..]), memory.Length), at, bytes)
                && memsz == at + |bytes| && written == old(written) + Range(at, at + |bytes|)
    {
      hide Splice, Padded, Range, Wrote, Visits;
      ghost var s, wrote := memory[..], written;
      SmallEnd(at, 1);
      o := WriteToMemory(bytes[..1], at);
      if !o.Done? { return; }
      WroteFirst(s, at, bytes[..1], wrote);
      for k := 1 to |bytes|
        invariant Valid() && (memory == old(memory) || fresh(memory))
        invariant o.Done? && at + k <= Top() && Wrote(s, at, bytes[..k], wrote)
      {
        o := WriteNext(bytes[k], s, at, bytes[..k], wrote);
        if !o.Done? { return; }
        assert bytes[..k + 1] == bytes[..k] + [bytes[k]];
      }
      assert bytes[..|bytes|] == bytes;
      WroteAll(s, at, bytes, wrote);
    }

    /** The bytes `t` have been written at `at` into `s`, grown as needed. */
    ghost predicate Wrote(s: seq<byte>, at: nat, t: seq<byte>, before: set<int>)
      reads this, memory
    {
      && |s| <= memory.Length && at + |t| <= memory.Length && memsz == at + |t|
      && memory[..] == Splice(Padded(s, memory.Length), at, t)
      && written == before + Range(at, at + |t|)
    }

    lemma WroteFirst(s: seq<byte>, at: nat, t: seq<byte>, before: set<int>)
      requires |s| <= memory.Length && at + |t| <= memory.Length && memsz == at + |t|
      requires memory[..] == Splice(Padded(s, memory.Length), at, t) && written == before + Range(at, at + |t|)
      ensures Wrote(s, at, t, before)
    {}

    lemma WroteAll(s: seq<byte>, at: nat, t: seq<byte>, before: set<int>)
      requires Wrote(s, at, t, before)
      ensures |s| <= memory.Length && at + |t| <= memory.Length && memsz == at + |t|
      ensures memory[..] == Splice(Padded(s, memory.Length), at, t) && written == before + Range(at, at + |t|)
    {}

    method WriteNext(b: byte, ghost s: seq<byte>, ghost at: nat, ghost t: seq<byte>, ghost before: set<int>)
      returns (o: Outcome)
      requires Valid() && Wrote(s, at, t, before)
      modifies this`memory, this`memsz, this`written, memory
      ensures Valid() && (memory == old(memory) || fresh(memory))
      ensures o == if at + |t| + 1 <= Top() then Done else Hangs
      ensures o.Done? ==> Wrote(s, at, t + [b], before)
    {
      CapacityBelowTop();
      hide Splice, Padded, Visits;
      ghost var m := memory.Length;
      SmallEnd(memsz, 1);
      o := WriteToMemory([b], memsz);
      if o.Done? {
        WriteOneMore(s, m, memory.Length, at, t, b);
      }
    }

    /** Room for the directive, and its bytes one after the other. */
    method PlaceBytes(bytes: seq<byte>, size: u32, offset: u32, origin: u32) returns (o: Outcome)
      requires Valid() && bytes != [] && origin == (if offset != NONE32 then offset else memsz)
      modifies this`memory, this`memsz, this`written, memory
      ensures Valid() && (memory == old(memory) || fresh(memory))
      ensures o == if (offset == NONE32 || MinAlloc(size, offset) <= Top()) && origin + |bytes| <= Top()
                   then Done else Hangs
      ensures o.Done? ==>
                && old(memory.Length) <= memory.Length && memsz == origin + |bytes| <= memory.Length
                && memory[..] == Splice(Padded(old(memory[..]), memory.Length), origin, bytes)
                && written == old(written) + Range(origin, origin + |bytes|)
    {
      CapacityBelowTop();
      hide Splice, Padded, Range, MinAlloc, Visits;
      ghost var s := memory[..];
      o := EnsureMemoryAtOffset(size, offset);
      if !o.Done? { return; }
      ghost var m := memory.Length;
      o := WriteEach(bytes, origin);
      if !o.Done? { return; }
      PadThenPad(s, m, memory.Length);
    }

    /**
     * A string or file directive: room, the bytes one after the other, and the explicit size at the end. Where it
     * does not complete, a growth loop goes round for ever.
     */
    method AddBytes(bytes: seq<byte>, size: u32, offset: u32) returns (o: Outcome, origin: nat)
      requires Valid() && bytes != []
      modifies this`memory, this`memsz, this`written, memory
      ensures Valid() && (memory == old(memory) || fresh(memory))
      ensures o == if Completes(size, offset, old(memsz), |bytes|, Top()) then Done else Hangs
      ensures o.Done? ==>
                && origin == (if offset != NONE32 then offset else old(memsz))
                && old(memory.Length) <= memory.Length && origin + |bytes| <= memory.Length
                && memory[..] == Splice(Padded(old(memory[..]), memory.Length), origin, bytes)
                && memsz == (if size != NONE32 then (origin + size) % WORD32 else origin + |bytes|)
                && written == old(written) + Range(origin, origin + |bytes|)
    {
      CapacityBelowTop();
      CompletesStepwise(size, offset, memsz, |bytes|, Top());
      hide Splice, Padded, Range, MinAlloc, Completes, Visits;
      ghost var s := memory[..];
      origin := if offset != NONE32 then offset else memsz;
      o := PlaceBytes(bytes, size, offset, origin);
      if !o.Done? { return; }
      ghost var m := memory.Length;
      o := SetMemorySize(origin, size);
      SplicePadded(s, m, memory.Length, origin, bytes);
    }

    /** Room for a label's address, holding zeros. */
    method ReserveSlot(size: u32, offset: u32, at: u32) returns (o: Outcome)
      requires Valid() && (size == 4 || size == 8) && at == (if offset != NONE32 then offset else memsz)
      modifies this`memory, this`memsz, this`written, memory
      ensures Valid() && (memory == old(memory) || fresh(memory))
      ensures o == StoreOutcome(at, size, Top())
      ensures o.Done? ==>
                && old(memory.Length) <= memory.Length && at + size == memsz <= memory.Length
                && (size + at) % WORD32 == memsz && written == old(written) + Range(at, at + size)
                && memory[..] == Splice(Padded(old(memory[..]), memory.Length), at, ToLE(0, size))
    {
      hide Splice, Padded, ToLE, Range, Visits;
      ghost var s := memory[..];
      o := EnsureMemoryAtOffset(size, offset);
      if !o.Done? { return; }
      ghost var m := memory.Length;
      o := WriteToMemory(ToLE(0, size), at);
      if !o.Done? { return; }
      PadThenPad(s, m, memory.Length);
      SmallEnd(at, size);
    }

    /**
     * `add_label_to_memory`: zeros for now, and a note of where the address goes; false for a size other than 4 or 8.
     */
    method AddLabelRef(name: string, size0: u32, offset: u32) returns (ok: bool, o: Outcome)
      requires Valid()
      modifies this`memory, this`memsz, this`written, this`labelRefs, memory
      ensures Valid() && (memory == old(memory) || fresh(memory))
      ensures ok <==> size0 == NONE32 || size0 == 4 || size0 == 8
      ensures !ok ==> labelRefs == old(labelRefs) && memsz == old(memsz)
                      && memory == old(memory) && memory[..] == old(memory[..])
      ensures ok ==>
                var size := if size0 == NONE32 then 4 else size0;
                var at := if offset != NONE32 then offset else old(memsz);
                && o == StoreOutcome(at, size, Top())
                && (o.Done? ==>
                      && labelRefs == [LabelRef(name, at, size)] + old(labelRefs)
                      && old(memory.Length) <= memory.Length && at + size == memsz
                      && memory[..] == Splice(Padded(old(memory[..]), memory.Length), at, ToLE(0, size)))
    {
      o := Done;
      var size := if size0 == NONE32 then 4 else size0;
      if size != 4 && size != 8 { return false, o; }
      hide Splice, Padded, ToLE, Range, Visits;
      ok := true;
      var at := if offset != NONE32 then offset else memsz;
      o := ReserveSlot(size, offset, at);
      if !o.Done? { return; }
      labelRefs := [LabelRef(name, at, size)] + labelRefs;
      memsz := (size + at) % WORD32;   // what was written is what the size says, so nothing more is allocated
    }

    method WriteSlot(ref: LabelRef, value: u32)
      requires ref.at + ref.size <= memory.Length
      modifies memory
      ensures memory[..] == Splice(old(memory[..]), ref.at, ToLE(value, ref.size))
    {
      var word := ToLE(value, ref.size);
      forall i | 0 <= i < ref.size {
        memory[ref.at + i] := word[i];
      }
    }

    /** `resolve_data_label_refs`: stops at the first label that is missing or whose instruction has no place. */
    method ResolveLabelRefs(labels: map<string, Label>, memOffset: seq<u32>) returns (ok: bool)
      requires Valid() && CodeLabelsIn(labels, |memOffset|)
      modifies memory
      ensures ok <==> forall k :: 0 <= k < |labelRefs| ==> Resolves(labelRefs[k], labels, memOffset)
      ensures ok ==> memory[..] == Resolved(old(memory[..]), labelRefs, labels, memOffset)
    {
      hide Splice, ToLE;
      ghost var s := memory[..];
      for k := 0 to |labelRefs|
        invariant forall i :: 0 <= i < k ==> Resolves(labelRefs[i], labels, memOffset)
        invariant SlotsIn(labelRefs, memory.Length)
        invariant memory[..] == Resolved(s, labelRefs[..k], labels, memOffset)
      {
        var ref := labelRefs[k];
        assert labelRefs[..k + 1][..k] == labelRefs[..k];
        if ref.name !in labels { return false; }
        var value := labels[ref.name].offset;
        if !labels[ref.name].isMemRef {
          value := memOffset[labels[ref.name].offset];
          if value == NONE32 { return false; }
        }
        WriteSlot(ref, value);
      }
      assert labelRefs[..|labelRefs|] == labelRefs;
      return true;
    }
  }

  lemma SmallEnd(at: nat, n: nat)
    ensures at + n < WORD32 ==> (at + n) % WORD32 == at + n
  {
    if at + n < WORD32 { ModIsRemainder(at + n, WORD32, 0, at + n); }
  }

  lemma EndInWords(at: u32, n: nat)
    requires n < WORD32
    ensures (at + n) % WORD32 == if at + n < WORD32 then at + n else at + n - WORD32
  {
    if at + n < WORD32 {
      ModIsRemainder(at + n, WORD32, 0, at + n);
    } else {
      ModIsRemainder(at + n, WORD32, 1, at + n - WORD32);
    }
  }

  /** The three growth requests of a string or file directive are all met exactly when it completes. */
  lemma CompletesStepwise(size: u32, offset: u32, memsz: u32, n: nat, top: int)
    requires n > 0 && top < NONE32 && memsz <= top
    ensures var origin := if offset != NONE32 then offset else memsz;
            Completes(size, offset, memsz, n, top)
            <==> (offset == NONE32 || MinAlloc(size, offset) <= top)
                 && origin + n <= top
                 && (size == NONE32 || (origin + size) % WORD32 <= top)
  {
    if offset != NONE32 {
      EndInWords(offset, if size != 0 then size else 1);
    }
  }

  function Range(a: int, b: int): (r: set<int>)
    ensures forall i :: i in r <==> a <= i < b
    decreases b - a
  {
    if a >= b then {} else Range(a, b - 1) + {b - 1}
  }

  lemma SplicePadded(s: seq<byte>, m: nat, n: nat, at: nat, t: seq<byte>)
    requires |s| <= m <= n && at + |t| <= m
    ensures Padded(Splice(Padded(s, m), at, t), n) == Splice(Padded(s, n), at, t)
  {}

  // ---- What resolving leaves behind

  /** The label exists, and if it is a code label its instruction has a place. */
  predicate Resolves(r: LabelRef, labels: map<string, Label>, memOffset: seq<u32>)
    requires r.name in labels && !labels[r.name].isMemRef ==> labels[r.name].offset < |memOffset|
  {
    r.name in labels && (labels[r.name].isMemRef || memOffset[labels[r.name].offset] != NONE32)
  }

  /** A label's final address; 0 stands for none. */
  function AddressOf(r: LabelRef, labels: map<string, Label>, memOffset: seq<u32>): u32 {
    if r.name !in labels then 0
    else if labels[r.name].isMemRef then labels[r.name].offset
    else if labels[r.name].offset < |memOffset| then memOffset[labels[r.name].offset]
    else 0
  }

  ghost predicate SlotsIn(refs: seq<LabelRef>, n: nat) {
    forall k :: 0 <= k < |refs| ==> refs[k].at + refs[k].size <= n
  }

  ghost function Resolved(s: seq<byte>, refs: seq<LabelRef>, labels: map<string, Label>, memOffset: seq<u32>):
      (r: seq<byte>)
    requires SlotsIn(refs, |s|)
    ensures |r| == |s|
  {
    if refs == [] then s
    else
      var k := |refs| - 1;
      Splice(Resolved(s, refs[..k], labels, memOffset), refs[k].at,
             ToLE(AddressOf(refs[k], labels, memOffset), refs[k].size))
  }

  ghost predicate Apart(refs: seq<LabelRef>) {
    forall i, j :: 0 <= i < j < |refs|
      ==> refs[i].at + refs[i].size <= refs[j].at || refs[j].at + refs[j].size <= refs[i].at
  }

  /** Slots that do not overlap each end up holding their label's address. */
  lemma {:induction false} ResolvedSlots(s: seq<byte>, refs: seq<LabelRef>, labels: map<string, Label>,
                                         memOffset: seq<u32>, k: nat)
    requires SlotsIn(refs, |s|) && Apart(refs) && k < |refs|
    ensures Holds(Resolved(s, refs, labels, memOffset), refs[k].at,
                  ToLE(AddressOf(refs[k], labels, memOffset), refs[k].size))
  {
    hide AddressOf, Holds, Splice, ToLE;
    var n := |refs| - 1;
    var before := Resolved(s, refs[..n], labels, memOffset);
    var last := ToLE(AddressOf(refs[n], labels, memOffset), refs[n].size);
    if k < n {
      assert refs[..n][k] == refs[k];
      ResolvedSlots(s, refs[..n], labels, memOffset, k);
      HoldsElsewhere(before, refs[n].at, last, refs[k].at, ToLE(AddressOf(refs[k], labels, memOffset), refs[k].size));
    } else {
      HoldsSpliced(before, refs[n].at, last);
    }
  }

  /** Bytes in no slot stay as they were. */
  lemma {:induction false} ResolvedElsewhere(s: seq<byte>, refs: seq<LabelRef>, labels: map<string, Label>,
                                             memOffset: seq<u32>, i: nat)
    requires SlotsIn(refs, |s|) && i < |s|
    requires forall k :: 0 <= k < |refs| ==> !(refs[k].at <= i < refs[k].at + refs[k].size)
    ensures Resolved(s, refs, labels, memOffset)[i] == s[i]
  {
    if refs != [] {
      ResolvedElsewhere(s, refs[..|refs| - 1], labels, memOffset, i);
    }
  }
}
