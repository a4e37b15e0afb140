/** Call-stack storage: an array that grows and shrinks in steps, with slack so that it does so rarely. */
module CallStack {
  import opened Bytes
  import opened ByteMachine

  const FUNC_STACK_ALLOC_SZ := 64

  /** One and a half steps. */
  const STACK_FREE_THRESHOLD := 96

  datatype StackOp = Push | Pop

  /** How many frames there are, and how many the storage holds. */
  datatype Extent = Extent(size: nat, alloc: nat)

  /** The storage after an operation. */
  function Resized(e: Extent, op: StackOp): Extent
    requires op.Pop? ==> e.size > 0
  {
    match op
    case Push => Extent(e.size + 1, if e.alloc < e.size + 1 then e.alloc + FUNC_STACK_ALLOC_SZ else e.alloc)
    case Pop =>
      var size := e.size - 1;
      Extent(size, if e.alloc - size >= STACK_FREE_THRESHOLD then e.alloc - FUNC_STACK_ALLOC_SZ else e.alloc)
  }

  /** Whole steps, and between none and 95 frames of slack. */
  predicate WellSized(e: Extent) {
    e.alloc % FUNC_STACK_ALLOC_SZ == 0 && 0 <= e.alloc - e.size < STACK_FREE_THRESHOLD
  }

  lemma ResizedWell(e: Extent, op: StackOp)
    requires WellSized(e) && (op.Pop? ==> e.size > 0)
    ensures WellSized(Resized(e, op))
  {
    ModIsRemainder(e.alloc, 64, e.alloc / 64, 0);
    ModIsRemainder(e.alloc + 64, 64, e.alloc / 64 + 1, 0);
    ModIsRemainder(e.alloc - 64, 64, e.alloc / 64 - 1, 0);
  }

  // ---- How often the storage is reallocated

  predicate Reallocates(e: Extent, op: StackOp)
    requires op.Pop? ==> e.size > 0
  {
    Resized(e, op).alloc != e.alloc
  }

  /** The least number of operations after which a reallocation can have happened. */
  function Distance(e: Extent): int {
    var slack := e.alloc - e.size;
    if slack + 1 <= STACK_FREE_THRESHOLD - slack then slack + 1 else STACK_FREE_THRESHOLD - slack
  }

  /** An operation brings the next reallocation nearer by at most one; a reallocation puts it 33 off. */
  lemma DistanceStep(e: Extent, op: StackOp)
    requires WellSized(e) && (op.Pop? ==> e.size > 0)
    ensures Distance(Resized(e, op)) >= Distance(e) - 1
    ensures Reallocates(e, op) ==> Distance(e) == 1 && Distance(Resized(e, op)) == 33
  {}

  function DepthAfter(depth: nat, op: StackOp): nat
    requires op.Pop? ==> depth > 0
  {
    if op.Push? then depth + 1 else depth - 1
  }

  /** No pop of an empty stack. */
  predicate Playable(depth: nat, ops: seq<StackOp>)
    decreases |ops|
  {
    ops == [] || ((ops[0].Pop? ==> depth > 0) && Playable(DepthAfter(depth, ops[0]), ops[1..]))
  }

  function Reallocations(e: Extent, ops: seq<StackOp>): nat
    requires Playable(e.size, ops)
    decreases |ops|
  {
    if ops == [] then 0
    else (if Reallocates(e, ops[0]) then 1 else 0) + Reallocations(Resized(e, ops[0]), ops[1..])
  }

  /** Any two reallocations are at least 33 pushes or pops apart. */
  lemma {:induction false} ReallocationsApart(e: Extent, op: StackOp, ops: seq<StackOp>)
    requires WellSized(e) && Playable(e.size, [op] + ops) && Reallocates(e, op) && |ops| < 33
    ensures ([op] + ops)[1..] == ops && Reallocations(Resized(e, op), ops) == 0
  {
    assert ([op] + ops)[1..] == ops;
    DistanceStep(e, op);
    ResizedWell(e, op);
    QuietWhileFar(Resized(e, op), ops);
  }

  lemma {:induction false} QuietWhileFar(e: Extent, ops: seq<StackOp>)
    requires WellSized(e) && Playable(e.size, ops) && |ops| < Distance(e)
    ensures Reallocations(e, ops) == 0
    decreases |ops|
  {
    if ops != [] {
      DistanceStep(e, ops[0]);
      ResizedWell(e, ops[0]);
      QuietWhileFar(Resized(e, ops[0]), ops[1..]);
    }
  }

  /** Over any history the reallocations number at most a 33rd of the operations, and a constant. */
  lemma {:induction false} ReallocationsLinear(e: Extent, ops: seq<StackOp>)
    requires WellSized(e) && Playable(e.size, ops)
    ensures 33 * Reallocations(e, ops) <= |ops| + 48 - Distance(e)
    decreases |ops|
  {
    if ops != [] {
      DistanceStep(e, ops[0]);
      ResizedWell(e, ops[0]);
      ReallocationsLinear(Resized(e, ops[0]), ops[1..]);
    }
  }

  // ---- The size in bytes, as the source reallocates it

  const FRAME_SIZE := 12

  /** How large the block is after an operation: growing counts frames, shrinking forgets to. */
  function BlockAfter(e: Extent, block: nat, op: StackOp): nat
    requires op.Pop? ==> e.size > 0
  {
    if !Reallocates(e, op) then block
    else if op.Push? then FRAME_SIZE * Resized(e, op).alloc
    else Resized(e, op).alloc
  }

  /** Every live frame stays inside the block throughout the history. */
  predicate FramesInside(e: Extent, block: nat, ops: seq<StackOp>)
    requires Playable(e.size, ops)
    decreases |ops|
  {
    FRAME_SIZE * e.size <= block
    && (ops == [] || FramesInside(Resized(e, ops[0]), BlockAfter(e, block, ops[0]), ops[1..]))
  }

  /** Some pop of the history shrinks the storage. */
  predicate Shrinks(e: Extent, ops: seq<StackOp>)
    requires Playable(e.size, ops)
    decreases |ops|
  {
    ops != [] && ((ops[0].Pop? && Reallocates(e, ops[0])) || Shrinks(Resized(e, ops[0]), ops[1..]))
  }

  /** A pop that shrinks the storage leaves live frames outside the block, every time. */
  lemma ShrinkLosesFrames(e: Extent, block: nat)
    requires WellSized(e) && e.size > 0 && Reallocates(e, Pop)
    ensures FRAME_SIZE * Resized(e, Pop).size > BlockAfter(e, block, Pop)
  {
    ModIsRemainder(e.alloc, 64, e.alloc / 64, 0);
  }

  /** The source keeps all frames over a history exactly when no pop in it shrinks the storage. */
  lemma {:induction false} InsideIffNoShrink(e: Extent, ops: seq<StackOp>)
    requires WellSized(e) && Playable(e.size, ops)
    ensures FramesInside(e, FRAME_SIZE * e.alloc, ops) <==> !Shrinks(e, ops)
    decreases |ops|
  {
    if ops != [] {
      ResizedWell(e, ops[0]);
      if ops[0].Pop? && Reallocates(e, ops[0]) {
        ShrinkLosesFrames(e, FRAME_SIZE * e.alloc);
      } else {
        InsideIffNoShrink(Resized(e, ops[0]), ops[1..]);
      }
    }
  }

  /** The least capacity for that many frames: `n` rounded up to whole steps. */
  function Steps(n: nat): nat {
    (n + FUNC_STACK_ALLOC_SZ - 1) / FUNC_STACK_ALLOC_SZ * FUNC_STACK_ALLOC_SZ
  }

  /**
   * Having been `peak` deep, the stack never comes back by a step and a half from the capacity that took: something a
   * program can be checked for by counting its calls and returns.
   */
  predicate StaysClose(depth: nat, peak: nat, ops: seq<StackOp>)
    requires Playable(depth, ops)
    decreases |ops|
  {
    ops == []
    || (var d := DepthAfter(depth, ops[0]);
        && (ops[0].Pop? ==> Steps(peak) < d + STACK_FREE_THRESHOLD)
        && StaysClose(d, if d > peak then d else peak, ops[1..]))
  }

  lemma StepsOfNext(n: nat)
    ensures n <= Steps(n) < n + FUNC_STACK_ALLOC_SZ && Steps(n) % FUNC_STACK_ALLOC_SZ == 0
    ensures Steps(n + 1) == if Steps(n) == n then Steps(n) + FUNC_STACK_ALLOC_SZ else Steps(n)
  {
    var q := (n + 63) / 64;
    ModIsRemainder(q * 64, 64, q, 0);
    if (n + 63) % 64 == 63 {
      ModIsRemainder(n + 64, 64, q + 1, 0);
    } else {
      ModIsRemainder(n + 64, 64, q, (n + 63) % 64 + 1);
    }
  }

  lemma {:induction false} CloseIffNoShrink(depth: nat, peak: nat, ops: seq<StackOp>)
    requires depth <= peak && Steps(peak) < depth + STACK_FREE_THRESHOLD && Playable(depth, ops)
    ensures WellSized(Extent(depth, Steps(peak)))
    ensures StaysClose(depth, peak, ops) <==> !Shrinks(Extent(depth, Steps(peak)), ops)
    decreases |ops|
  {
    StepsOfNext(peak);
    hide Steps;
    if ops != [] {
      var d := DepthAfter(depth, ops[0]);
      assert ops[0].Push?
             ==> Resized(Extent(depth, Steps(peak)), Push) == Extent(d, Steps(if d > peak then d else peak));
      if ops[0].Push? || Steps(peak) < d + STACK_FREE_THRESHOLD {
        CloseIffNoShrink(d, if d > peak then d else peak, ops[1..]);
      }
    }
  }

  /** The source keeps every frame of a procedure exactly when its calls and returns stay that close. */
  lemma FramesInsideIffClose(ops: seq<StackOp>)
    requires Playable(0, ops)
    ensures FramesInside(Extent(0, 0), 0, ops) <==> StaysClose(0, 0, ops)
  {
    CloseIffNoShrink(0, 0, ops);
    InsideIffNoShrink(Extent(0, 0), ops);
  }

  /** The depth after the history, if it never exceeds `most`. */
  predicate NeverDeeper(depth: nat, most: nat, ops: seq<StackOp>)
    requires Playable(depth, ops)
    decreases |ops|
  {
    depth <= most && (ops == [] || NeverDeeper(DepthAfter(depth, ops[0]), most, ops[1..]))
  }

  /** A procedure that never has more than 64 calls open loses nothing. */
  lemma {:induction false} ShallowStaysClose(depth: nat, peak: nat, ops: seq<StackOp>)
    requires depth <= peak <= FUNC_STACK_ALLOC_SZ && Playable(depth, ops)
        && NeverDeeper(depth, FUNC_STACK_ALLOC_SZ, ops)
    ensures StaysClose(depth, peak, ops)
    decreases |ops|
  {
    assert (peak + 63) / 64 <= 1;
    if ops != [] {
      var d := DepthAfter(depth, ops[0]);
      ShallowStaysClose(d, if d > peak then d else peak, ops[1..]);
    }
  }

  /** One call more, and returning to a depth of 32, loses frames. */
  lemma DeepThenShallowLoses(ops: seq<StackOp>)
    requires ops == seq(65, _ => Push) + seq(33, _ => Pop)
    ensures Playable(0, ops) && !FramesInside(Extent(0, 0), 0, ops)
  {
    Climbs(0, ops);
    FramesInsideIffClose(ops);
  }

  lemma {:induction false} Climbs(depth: nat, ops: seq<StackOp>)
    requires depth <= 65 && ops == seq(65 - depth, _ => Push) + seq(33, _ => Pop)
    ensures Playable(depth, ops) && !StaysClose(depth, depth, ops)
    decreases 65 - depth
  {
    if depth < 65 {
      assert ops[1..] == seq(65 - depth - 1, _ => Push) + seq(33, _ => Pop);
      Climbs(depth + 1, ops[1..]);
    } else {
      assert ops == seq(33, _ => Pop);
      Falls(65, ops);
    }
  }

  lemma {:induction false} Falls(depth: nat, ops: seq<StackOp>)
    requires 33 <= depth <= 65 && ops == seq(depth - 32, _ => Pop)
    ensures Playable(depth, ops) && !StaysClose(depth, 65, ops)
    decreases depth
  {
    assert ops[0] == Pop && ops[1..] == seq(depth - 33, _ => Pop);
    if depth > 33 {
      Falls(depth - 1, ops[1..]);
    }
  }

  // ---- The storage itself

  class Stack {
    var cstack: array<Frame>
    var size: nat

    ghost predicate Valid()
      reads this
    {
      size <= cstack.Length && WellSized(Size())
    }

    ghost function Size(): Extent
      reads this
    {
      Extent(size, cstack.Length)
    }

    ghost function Contents(): seq<Frame>
      requires Valid()
      reads this, cstack
    {
      cstack[..size]
    }

    constructor ()
      ensures Valid() && Contents() == [] && Size() == Extent(0, 0) && fresh(cstack)
    {
      cstack := new Frame[0];
      size := 0;
    }

    /** `realloc`: the frames that fit move over. */
    method Reallocate(n: nat)
      requires size <= n && size <= cstack.Length
      modifies this`cstack
      ensures fresh(cstack) && cstack.Length == n && cstack[..size] == old(cstack[..size])
    {
      var was := cstack;
      var now := new Frame[n](_ => Frame(0, 0, 0));
      forall k | 0 <= k < size {
        now[k] := was[k];
      }
      assert now[..size] == was[..size];
      cstack := now;
    }

    /** `push_call_stack`. */
    method Push(frame: Frame)
      requires Valid()
      modifies this, cstack
      ensures Valid() && Contents() == old(Contents()) + [frame]
      ensures Size() == Resized(old(Size()), StackOp.Push)
      ensures cstack == old(cstack) || fresh(cstack)
    {
      ResizedWell(Size(), StackOp.Push);
      hide WellSized;
      ghost var frames := cstack[..size];
      if cstack.Length < size + 1 {
        Reallocate(cstack.Length + FUNC_STACK_ALLOC_SZ);
      }
      cstack[size] := frame;
      assert cstack[..size] == frames;
      size := size + 1;
      assert cstack[..size] == frames + [frame];
    }

    /** `pop_call_stack`; the storage keeps as many frames as its capacity says. */
    method Pop() returns (retAddress: u32)
      requires Valid() && Contents() != []
      modifies this
      ensures Valid() && old(Contents()) == Contents() + [old(Contents())[|old(Contents())| - 1]]
      ensures retAddress == old(Contents())[|old(Contents())| - 1].retAddress
      ensures Size() == Resized(old(Size()), StackOp.Pop)
      ensures cstack == old(cstack) || fresh(cstack)
    {
      ResizedWell(Size(), StackOp.Pop);
      hide WellSized;
      ghost var frames := cstack[..size];
      size := size - 1;
      retAddress := cstack[size].retAddress;
      assert cstack[..size] == frames[..size];
      if cstack.Length - size >= STACK_FREE_THRESHOLD {
        Reallocate(cstack.Length - FUNC_STACK_ALLOC_SZ);
      }
    }
  }
}
