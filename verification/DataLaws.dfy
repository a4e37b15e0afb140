/** What the data instructions mean for the values and the memory they work on. */
module DataLaws {
  import opened Bytes
  import opened Isa
  import opened Decoder
  import opened Children
  import opened World

  lemma HalveTwice(v: nat, c: nat)
    requires c > 0
    ensures v / (2 * c) == (v / 2) / c
  {
    var h := v / 2;
    var q, m := h / c, h % c;
    assert h == q * c + m;
    assert v == q * (2 * c) + (2 * m + v % 2) by {
      assert v == 2 * h + v % 2;
      assert q * (2 * c) == 2 * (q * c);
    }
    ModIsRemainder(v, 2 * c, q, 2 * m + v % 2);
  }

  lemma ShiftedBit(v: nat, j: nat)
    requires j > 0
    ensures Bit(v, j) == Bit(v / 2, j - 1)
  {
    HalveTwice(v, Pow2(j - 1));
  }

  lemma LowBit(b: nat, r: nat)
    requires b < 2
    ensures Bit(b + 2 * r, 0) == b && (b + 2 * r) / 2 == r
  {
    ModIsRemainder(b + 2 * r, 2, r, b);
    ModIsRemainder(b + 2 * r, 1, b + 2 * r, 0);
  }

  /** Bitwise instructions combine each pair of bits alone. */
  lemma {:induction false} BitsCombine(f: BitFn, x: nat, y: nat, k: nat, j: nat)
    requires j < k
    ensures Bit(Bitwise(f, x, y, k), j) == BitApply(f, Bit(x, j), Bit(y, j))
  {
    hide Bit;
    var low, rest := BitApply(f, x % 2, y % 2), Bitwise(f, x / 2, y / 2, k - 1);
    LowBit(low, rest);
    if j == 0 {
      LowBit(x % 2, x / 2);
      LowBit(y % 2, y / 2);
    } else {
      ShiftedBit(low + 2 * rest, j);
      ShiftedBit(x, j);
      ShiftedBit(y, j);
      BitsCombine(f, x / 2, y / 2, k - 1, j - 1);
    }
  }

  lemma {:induction false} BitOfMultiple(x: nat, y: nat, j: nat)
    ensures Bit(x * Pow2(y), j) == if j < y then 0 else Bit(x, j - y)
  {
    hide Bit;
    if y == 0 {
      assert x * Pow2(0) == x;
    } else {
      var v := x * Pow2(y - 1);
      assert x * Pow2(y) == 0 + 2 * v;
      LowBit(0, v);
      if j > 0 {
        ShiftedBit(0 + 2 * v, j);
        BitOfMultiple(x, y - 1, j - 1);
      }
    }
  }

  lemma {:induction false} BitOfQuotient(x: nat, y: nat, j: nat, q: nat)
    requires q == x / Pow2(y)
    ensures Bit(q, j) == Bit(x, j + y)
    decreases y
  {
    hide Bit;
    if y == 0 {
      assert x / Pow2(0) == x;
    } else {
      HalveTwice(x, Pow2(y - 1));
      BitOfQuotient(x / 2, y - 1, j, q);
      ShiftedBit(x, j + y);
    }
  }

  /** The low bits of a number are those of its remainder. */
  lemma {:induction false} BitOfRemainder(v: nat, k: nat, j: nat)
    requires j < k
    ensures Bit(v % Pow2(k), j) == Bit(v, j)
  {
    hide Bit;
    var low, rest := v % 2, (v / 2) % Pow2(k - 1);
    var q := (v / 2) / Pow2(k - 1);
    assert v == q * Pow2(k) + (low + 2 * rest) by {
      assert v / 2 == q * Pow2(k - 1) + rest;
      assert q * Pow2(k) == 2 * (q * Pow2(k - 1));
    }
    ModIsRemainder(v, Pow2(k), q, low + 2 * rest);
    LowBit(low, rest);
    LowBit(low, v / 2);
    if j > 0 {
      ShiftedBit(low + 2 * rest, j);
      ShiftedBit(v, j);
      BitOfRemainder(v / 2, k - 1, j - 1);
    }
  }

  /** Shifts by less than 64 move every bit by that many places; what leaves the word is lost and zeros come in. */
  lemma ShiftsMoveBits(x: u64, y: u64, j: nat)
    requires y < 64 && j < 64
    ensures Alu(Shl, x, y).Value? && Alu(Shr, x, y).Value?
    ensures Bit(Alu(Shl, x, y).v, j) == if j < y then 0 else Bit(x, j - y)
    ensures Bit(Alu(Shr, x, y).v, j) == Bit(x, j + y)
  {
    hide Bit, Pow2;
    Pow2Words();
    BitOfRemainder(x * Pow2(y), 64, j);
    BitOfMultiple(x, y, j);
    if Pow2(y) > x {
      ModIsRemainder(x, Pow2(y), 0, x);
    }
    BitOfQuotient(x, y, j, Quotient(x, Pow2(y)));
  }

  /**
   * `div` and `mod` fault together, exactly on zero; otherwise they are quotient and remainder of the same division.
   */
  lemma QuotientAndRemainder(x: u64, y: u64)
    ensures Alu(Div, x, y).DivideByZero? <==> y == 0
    ensures Alu(Mod, x, y).DivideByZero? <==> y == 0
    ensures y != 0 ==> var (q, r) := (Alu(Div, x, y).v, Alu(Mod, x, y).v); x == q * y + r && r < y
  {
    if 0 < x < y {
      ModIsRemainder(x, y, 0, x);
    }
  }

  // ---- What an instruction reads, stores and flags

  /** The operand gives the value: an immediate itself, a reference the eight bytes it refers to. */
  predicate Gives(o: Operand, mem: seq<byte>, v: u64) {
    match o
    case ImmVal(x) => x == v
    case RefPtr(a) => Holds(mem, a, ToLE(v, 8))
  }

  lemma GivenIsRead(o: Operand, mem: seq<byte>, v: u64)
    ensures ArgValue(o, mem) == Some(v) <==> Gives(o, mem, v)
  {
    if o.RefPtr? && o.addr + 8 <= |mem| {
      hide ToLE, FromLE, Capacity;
      Capacities();
      LoadFitting(v, 8);
      StoreAfterLoad(mem[o.addr..o.addr + 8]);
    }
  }

  /** Only memory changed, and there only `n` bytes from `at` on, which now hold `v`. */
  predicate Stored(w: World, w': World, at: nat, n: nat, v: nat) {
    && w' == w.(mem := w'.mem) && |w'.mem| == |w.mem| && Holds(w'.mem, at, ToLE(v, n))
    && forall k :: 0 <= k < |w.mem| && (k < at || at + n <= k) ==> w'.mem[k] == w.mem[k]
  }

  lemma StoreStores(w: World, at: nat, n: nat, v: nat)
    ensures Store(w, at, n, v).Some? <==> at + n <= |w.mem|
    ensures at + n <= |w.mem| ==> Stored(w, Store(w, at, n, v).value, at, n, v)
  {
    hide ToLE, Splice, Holds;
    if at + n <= |w.mem| {
      HoldsSpliced(w.mem, at, ToLE(v, n));
      SpliceOutside(w.mem, at, ToLE(v, n));
    }
  }

  /** Flag `bit` is set and every other one is as before. */
  predicate FlagSet(before: u32, after: u32, bit: nat) {
    forall j :: 0 <= j < 32 ==> Bit(after, j) == if j == bit then 1 else Bit(before, j)
  }

  /** Or-ing combines each pair of flags alone. */
  lemma RaiseCombines(flags: u32, bits: u32, j: nat)
    requires j < 32
    ensures Bit(Raise(flags, bits), j) == if Bit(flags, j) == 1 || Bit(bits, j) == 1 then 1 else 0
  {
    hide Bitwise, Bit;
    BitsCombine(BitOr, flags, bits, 32, j);
    BitIsDigit(flags, j);
    BitIsDigit(bits, j);
  }

  lemma BitIsDigit(v: nat, j: nat)
    ensures Bit(v, j) < 2
  {}

  lemma RaisesOne(flags: u32, bits: u32, bit: nat)
    requires bits == Pow2(bit) && bit < 32
    ensures FlagSet(flags, Raise(flags, bits), bit)
  {
    hide Raise, Bit, Pow2;
    assert bits == 1 * Pow2(bit);
    forall j | 0 <= j < 32
      ensures Bit(Raise(flags, bits), j) == if j == bit then 1 else Bit(flags, j)
    {
      RaiseCombines(flags, bits, j);
      BitOfMultiple(1, bit, j);
      BitsOfOne(if j < bit then 0 else j - bit);
      BitIsDigit(flags, j);
    }
  }

  lemma BitsOfOne(j: nat)
    ensures Bit(1, j) == if j == 0 then 1 else 0
  {
    if j > 0 {
      ShiftedBit(1, j);
      ModIsRemainder(0, Pow2(j - 1), 0, 0);
    } else {
      assert Pow2(0) == 1;
    }
  }

  /** The fault flags: arithmetic, memory, instruction pointer, instruction code, system call number, assertion. */
  lemma FaultBits(flags: u32)
    ensures FlagSet(flags, Raise(flags, E_ARITHMETIC), 0) && FlagSet(flags, Raise(flags, E_MEM_FAULT), 1)
    ensures FlagSet(flags, Raise(flags, E_BAD_INSTN_POINTER), 4) && FlagSet(flags, Raise(flags, E_BAD_INSTN_CODE), 5)
    ensures FlagSet(flags, Raise(flags, E_BAD_SYSCALL), 6) && FlagSet(flags, Raise(flags, E_ASSERT_FAILED), 7)
  {
    hide Raise, FlagSet;
    assert Pow2(0) == 1 && Pow2(1) == 2 && Pow2(4) == 16;
    assert Pow2(5) == 32 && Pow2(6) == 64 && Pow2(7) == 128;
    RaisesOne(flags, E_ARITHMETIC, 0);
    RaisesOne(flags, E_MEM_FAULT, 1);
    RaisesOne(flags, E_BAD_INSTN_POINTER, 4);
    RaisesOne(flags, E_BAD_INSTN_CODE, 5);
    RaisesOne(flags, E_BAD_SYSCALL, 6);
    RaisesOne(flags, E_ASSERT_FAILED, 7);
  }

  // ---- Instructions with a result

  /** `r` is a 64-bit `x op y`, said of the numbers and their bits. */
  ghost predicate Computes(f: BinOp, x: u64, y: u64, r: u64) {
    match f
    case Add => r == x + y || r == x + y - WORD64
    case Sub => r == x - y || r == x - y + WORD64
    case Mul => exists q: nat :: x * y == q * WORD64 + r
    case Div => r * y <= x < r * y + y
    case Mod => r < y && exists q: nat :: x == q * y + r
    case Eq => r == if x == y then 1 else 0
    case Ne => r == if x == y then 0 else 1
    case Gt => r == if y < x then 1 else 0
    case Lt => r == if x < y then 1 else 0
    case Ge => r == if x < y then 0 else 1
    case Le => r == if y < x then 0 else 1
    case LAnd => r == if x == 0 || y == 0 then 0 else 1
    case LOr => r == if x == 0 && y == 0 then 0 else 1
    case And => forall j :: 0 <= j < 64 ==> (Bit(r, j) == 1 <==> Bit(x, j) == 1 && Bit(y, j) == 1)
    case Or => forall j :: 0 <= j < 64 ==> (Bit(r, j) == 1 <==> Bit(x, j) == 1 || Bit(y, j) == 1)
    case Xor => forall j :: 0 <= j < 64 ==> (Bit(r, j) == 1 <==> Bit(x, j) != Bit(y, j))
    case Shl => forall j :: 0 <= j < 64 ==> Bit(r, j) == if j < y then 0 else Bit(x, j - y)
    case Shr => forall j :: 0 <= j < 64 ==> Bit(r, j) == Bit(x, j + y)
  }

  predicate DividesByZero(f: BinOp, y: u64) {
    (f.Div? || f.Mod?) && y == 0
  }

  predicate ShiftsOut(f: BinOp, y: u64) {
    (f.Shl? || f.Shr?) && y >= 64
  }

  lemma AluComputes(f: BinOp, x: u64, y: u64)
    requires !DividesByZero(f, y) && !ShiftsOut(f, y)
    ensures Alu(f, x, y).Value? && Computes(f, x, y, Alu(f, x, y).v)
  {
    if f.Div? || f.Mod? {
      DivisionComputes(f, x, y);
    } else if f.And? || f.Or? || f.Xor? {
      BitsCompute(f, x, y);
    } else if f.Shl? || f.Shr? {
      ShiftsCompute(f, x, y);
    } else if f.Mul? {
      ProductComputes(x, y);
    } else {
      hide Bitwise, Quotient, Pow2, Bit;
    }
  }

  lemma DivisionComputes(f: BinOp, x: u64, y: u64)
    requires (f.Div? || f.Mod?) && y != 0
    ensures Alu(f, x, y).Value? && Computes(f, x, y, Alu(f, x, y).v)
  {
    hide Alu, Bit;
    QuotientAndRemainder(x, y);
    DivisionHasValue(Div, x, y);
    DivisionHasValue(Mod, x, y);
    var (q, r) := (Alu(Div, x, y).v, Alu(Mod, x, y).v);
    assert x == q * y + r && r < y;
    if f.Div? {
      assert Computes(Div, x, y, q);
    } else {
      assert exists k: nat :: x == k * y + r;
    }
  }

  lemma DivisionHasValue(f: BinOp, x: u64, y: u64)
    requires (f.Div? || f.Mod?) && y != 0
    ensures Alu(f, x, y).Value?
  {}

  lemma ProductComputes(x: u64, y: u64)
    ensures Alu(Mul, x, y).Value? && Computes(Mul, x, y, Alu(Mul, x, y).v)
  {
    hide Bit, Bitwise, Quotient;
    var p: nat := x * y;
    var q: nat := p / WORD64;
    assert p == q * WORD64 + p % WORD64;
  }

  lemma BitsCompute(f: BinOp, x: u64, y: u64)
    requires f.And? || f.Or? || f.Xor?
    ensures Alu(f, x, y).Value? && Computes(f, x, y, Alu(f, x, y).v)
  {
    hide Bitwise, Bit;
    var g := if f.And? then BitAnd else if f.Or? then BitOr else BitXor;
    forall j | 0 <= j < 64
      ensures Bit(x, j) < 2 && Bit(y, j) < 2 && Bit(Bitwise(g, x, y, 64), j) == BitApply(g, Bit(x, j), Bit(y, j))
    {
      BitsCombine(g, x, y, 64, j);
      BitIsDigit(x, j);
      BitIsDigit(y, j);
    }
  }

  lemma ShiftsCompute(f: BinOp, x: u64, y: u64)
    requires (f.Shl? || f.Shr?) && y < 64
    ensures Alu(f, x, y).Value? && Computes(f, x, y, Alu(f, x, y).v)
  {
    hide Bit, Alu;
    forall j | 0 <= j < 64
      ensures Alu(f, x, y).Value?
      ensures Bit(Alu(f, x, y).v, j) == if f.Shr? then Bit(x, j + y) else if j < y then 0 else Bit(x, j - y)
    {
      ShiftsMoveBits(x, y, j);
    }
    ShiftsMoveBits(x, y, 0);
  }

  /** What a binary instruction does whose destination is `dest` and whose operands have the values `x` and `y`. */
  ghost predicate DoesBinary(w: World, e: Effect, f: BinOp, dest: Operand, x: u64, y: u64) {
    if DividesByZero(f, y) then
      e.Halt? && e.spawns == [] && e.w == w.(exceptions := e.w.exceptions)
      && FlagSet(w.exceptions, e.w.exceptions, 0)
    else if ShiftsOut(f, y) || dest.ImmVal? || dest.addr + 8 > |w.mem| then e.Undefined?
    else e.Next? && exists r: u64 :: Computes(f, x, y, r) && Stored(w, e.w, dest.addr, 8, r)
  }

  lemma PutComputes(w: World, f: BinOp, dest: Operand, x: u64, y: u64)
    ensures DoesBinary(w, PutBin(w, dest, Bin(f, Some(x), Some(y))), f, dest, x, y)
  {
    hide Alu, Raise, Stored, Store, Computes, FlagSet;
    if DividesByZero(f, y) {
      FaultBits(w.exceptions);
    } else if ShiftsOut(f, y) {
      ShiftTooFarFails(f, x, y);
    } else {
      AluComputes(f, x, y);
      BinIsAlu(f, x, y);
      if dest.RefPtr? { StoreStores(w, dest.addr, 8, Alu(f, x, y).v); }
    }
  }

  lemma ShiftTooFarFails(f: BinOp, x: u64, y: u64)
    ensures ShiftsOut(f, y) ==> Alu(f, x, y).ShiftTooFar?
  {}

  /** Leaving out the second operand of `&&` and `||` does not change their values. */
  lemma BinIsAlu(f: BinOp, x: u64, y: u64)
    requires !DividesByZero(f, y)
    ensures Bin(f, Some(x), Some(y)) == Alu2(f, x, y)
  {}

  /**
   * An instruction with three operands stores `x op y`, `x` and `y` being the second's and third's values in that
   * order, and changes nothing else; or it faults on a zero divisor with the arithmetic flag. It is undefined exactly
   * for a shift by 64 or more and a destination outside memory.
   */
  lemma ThreeOperands(f: BinOp, os: seq<Operand>, w: World, top: Option<Top>, codesz: nat, inp: Input, x: u64, y: u64)
    requires |os| == 3 && Gives(os[1], w.mem, x) && Gives(os[2], w.mem, y)
    ensures DoesBinary(w, Effects(Bin3(f), os, w, top, codesz, inp), f, os[0], x, y)
  {
    hide Gives, PutBin, Bin, ArgValue, DoesBinary;
    GivenIsRead(os[1], w.mem, x);
    GivenIsRead(os[2], w.mem, y);
    PutComputes(w, f, os[0], x, y);
  }

  /** One with two operands takes the destination's value first. */
  lemma TwoOperands(f: BinOp, os: seq<Operand>, w: World, top: Option<Top>, codesz: nat, inp: Input, x: u64, y: u64)
    requires |os| == 2 && os[0].RefPtr? && Gives(os[0], w.mem, x) && Gives(os[1], w.mem, y)
    ensures DoesBinary(w, Effects(Bin2(f), os, w, top, codesz, inp), f, os[0], x, y)
  {
    hide Gives, PutBin, Bin, DoesBinary;
    GivenIsRead(os[0], w.mem, x);
    GivenIsRead(os[1], w.mem, y);
    PutComputes(w, f, os[0], x, y);
  }

  /** `&&` with 0 and `||` with anything else do not read their second operand. */
  lemma ShortCircuits(os: seq<Operand>, w: World, top: Option<Top>, codesz: nat, inp: Input, x: u64)
    requires |os| == 3 && Gives(os[1], w.mem, x) && os[0].RefPtr? && os[0].addr + 8 <= |w.mem|
    ensures x == 0 ==> var e := Effects(Bin3(LAnd), os, w, top, codesz, inp);
                       e.Next? && Stored(w, e.w, os[0].addr, 8, 0)
    ensures x != 0 ==> var e := Effects(Bin3(LOr), os, w, top, codesz, inp);
                       e.Next? && Stored(w, e.w, os[0].addr, 8, 1)
  {
    hide Gives, ArgValue, Stored, Store;
    GivenIsRead(os[1], w.mem, x);
    StoreStores(w, os[0].addr, 8, if x == 0 then 0 else 1);
  }

  /** `div` and `mod` look at the divisor first: zero faults, whether or not the dividend can be read. */
  lemma DivisorFirst(f: BinOp, os: seq<Operand>, w: World, top: Option<Top>, codesz: nat, inp: Input)
    requires |os| == 3 && (f.Div? || f.Mod?) && Gives(os[2], w.mem, 0)
    ensures var e := Effects(Bin3(f), os, w, top, codesz, inp);
            e.Halt? && e.spawns == [] && e.w == w.(exceptions := e.w.exceptions)
            && FlagSet(w.exceptions, e.w.exceptions, 0)
  {
    hide Gives, ArgValue, Raise, FlagSet;
    GivenIsRead(os[2], w.mem, 0);
    FaultBits(w.exceptions);
  }

  /** `r` is what an instruction with one operand stores for `x`. */
  predicate ComputesOne(u: UnOp, x: u64, r: u64) {
    match u
    case Not => r + x == WORD64 - 1
    case LNot => r == if x == 0 then 1 else 0
    case LBool => r == if x == 0 then 0 else 1
  }

  /** The one-operand operations with a destination of their own; undefined exactly for one outside memory. */
  lemma OneOperand(u: UnOp, os: seq<Operand>, w: World, top: Option<Top>, codesz: nat, inp: Input, x: u64)
    requires |os| == 2 && Gives(os[1], w.mem, x)
    ensures var e := Effects(Un2(u), os, w, top, codesz, inp);
            if os[0].ImmVal? || os[0].addr + 8 > |w.mem| then e.Undefined?
            else e.Next? && exists r: u64 :: ComputesOne(u, x, r) && Stored(w, e.w, os[0].addr, 8, r)
  {
    hide Gives, ArgValue, Stored, Store;
    GivenIsRead(os[1], w.mem, x);
    assert ComputesOne(u, x, UnaryTo(u, x));
    if os[0].RefPtr? { StoreStores(w, os[0].addr, 8, UnaryTo(u, x)); }
  }

  /** In place they do the same, but for `not`, which stores the operand back. */
  lemma InPlace(u: UnOp, os: seq<Operand>, w: World, top: Option<Top>, codesz: nat, inp: Input, x: u64)
    requires |os| == 1 && os[0].RefPtr? && Gives(os[0], w.mem, x)
    ensures var e := Effects(Un1(u), os, w, top, codesz, inp);
            e.Next? && exists r: u64 :: (if u == Not then r == x else ComputesOne(u, x, r))
                                        && Stored(w, e.w, os[0].addr, 8, r)
  {
    hide Stored, Store, ToLE;
    GivenIsRead(os[0], w.mem, x);
    StoreStores(w, os[0].addr, 8, UnaryInPlace(u, x));
    assert u != Not ==> ComputesOne(u, x, UnaryInPlace(u, x));
  }

  /** `assert` stops the machine exactly when its second operand is not 0; the first names the assertion. */
  lemma AssertStops(os: seq<Operand>, w: World, top: Option<Top>, codesz: nat, inp: Input, id: u64, c: u64)
    requires |os| == 2 && Gives(os[0], w.mem, id) && Gives(os[1], w.mem, c)
    ensures var e := Effects(Assert, os, w, top, codesz, inp);
            if c == 0 then e == Next(w)
            else e.Halt? && e.spawns == [] && e.w == w.(assertId := id, exceptions := e.w.exceptions)
                 && FlagSet(w.exceptions, e.w.exceptions, 7)
  {
    hide Gives, ArgValue, Raise, FlagSet;
    GivenIsRead(os[0], w.mem, id);
    GivenIsRead(os[1], w.mem, c);
    FaultBits(w.exceptions);
  }

  /** `abrt` stops the machine and sets the flags that its operand has in its low 32 bits. */
  lemma AbortFlags(os: seq<Operand>, w: World, top: Option<Top>, codesz: nat, inp: Input, bits: u64, j: nat)
    requires |os| == 1 && Gives(os[0], w.mem, bits) && j < 32
    ensures var e := Effects(Abrt, os, w, top, codesz, inp);
            e.Halt? && e.spawns == [] && e.w == w.(exceptions := e.w.exceptions)
            && (Bit(e.w.exceptions, j) == 1 <==> Bit(w.exceptions, j) == 1 || Bit(bits, j) == 1)
  {
    hide Gives, ArgValue, Raise, Bit;
    GivenIsRead(os[0], w.mem, bits);
    RaiseCombines(w.exceptions, bits % WORD32, j);
    Pow2Words();
    BitOfRemainder(bits, 32, j);
  }

  /** A `write` stores the operand's low bytes at destination plus offset, and changes nothing else. */
  lemma WriteStores(w: World, n: nat, os: seq<Operand>)
    requires |os| == 3 && WriteEffect(w, n, os).Next?
    ensures var w' := WriteEffect(w, n, os).w;
            var at := Sum32(ArgValue(os[0], w.mem).value, ArgValue(os[1], w.mem).value);
            && w' == w.(mem := w'.mem) && |w'.mem| == |w.mem| && at + n <= |w.mem| && DerefOk(at, n, |w.mem|)
            && Load(w'.mem, at, n) == Some(ArgValue(os[2], w.mem).value % Capacity(n))
            && (forall k :: 0 <= k < |w.mem| && (k < at || at + n <= k) ==> w'.mem[k] == w.mem[k])
  {
    var at := Sum32(ArgValue(os[0], w.mem).value, ArgValue(os[1], w.mem).value);
    var v := ArgValue(os[2], w.mem).value;
    HoldsSpliced(w.mem, at, ToLE(v, n));
    WordHeld(Splice(w.mem, at, ToLE(v, n)), at, v, n);
    hide ToLE, WordAt, ArgValue;
  }

  lemma WriteHadOperands(w: World, n: nat, os: seq<Operand>)
    requires |os| == 3 && WriteEffect(w, n, os).Next?
    ensures ArgValue(os[0], w.mem).Some? && ArgValue(os[1], w.mem).Some? && ArgValue(os[2], w.mem).Some?
  {}

  /** A `read` through the same address and offset gets back what the `write` stored. */
  lemma WriteThenRead(w: World, n: nat, os: seq<Operand>, dest: Operand, pointer: u32, offset: Operand)
    requires |os| == 3 && WriteEffect(w, n, os).Next?
    requires var m := WriteEffect(w, n, os).w.mem;
             && ArgValue(os[0], w.mem).Some? && Load32(m, pointer) == Some(ArgValue(os[0], w.mem).value % WORD32)
             && ArgValue(offset, m).Some? && ArgValue(offset, m) == ArgValue(os[1], w.mem)
    ensures var w' := WriteEffect(w, n, os).w;
            ReadEffect(w', n, [dest, RefPtr(pointer), offset])
            == Done(Put(w', dest, n, ArgValue(os[2], w.mem).value % Capacity(n)))
  {
    WriteStores(w, n, os);
    WriteHadOperands(w, n, os);
    hide WriteEffect, ReadEffect, DerefOk, Load, ArgValue, Load32, Sum32, Put, Capacity;
    SameAddress(ArgValue(os[0], w.mem).value, ArgValue(os[1], w.mem).value);
    ReadFinds(WriteEffect(w, n, os).w, n, dest, pointer, offset);
  }

  lemma SameAddress(base: u64, offset: u64)
    ensures Sum32(base % WORD32, offset) == Sum32(base, offset)
  {
    ModIsRemainder(base % WORD32, WORD32, 0, base % WORD32);
  }

  lemma ReadFinds(w: World, n: nat, dest: Operand, pointer: u32, offset: Operand)
    requires Load32(w.mem, pointer).Some? && ArgValue(offset, w.mem).Some?
    ensures var at := Sum32(Load32(w.mem, pointer).value, ArgValue(offset, w.mem).value);
            DerefOk(at, n, |w.mem|) && Load(w.mem, at, n).Some?
            ==> ReadEffect(w, n, [dest, RefPtr(pointer), offset]) == Done(Put(w, dest, n, Load(w.mem, at, n).value))
  {}

  /** Storing a word where it was read changes nothing. */
  lemma StoreBack(mem: seq<byte>, at: nat, n: nat)
    requires at + n <= |mem|
    ensures Splice(mem, at, ToLE(WordAt(mem, at, n), n)) == mem
  {
    hide ToLE, FromLE, Capacity;
    StoreAfterLoad(mem[at..at + n]);
    SpliceSame(mem, at, n);
  }

  lemma SpliceSame(mem: seq<byte>, at: nat, n: nat)
    requires at + n <= |mem|
    ensures Splice(mem, at, mem[at..at + n]) == mem
  {}

  /** `not` with one operand leaves the operand as it is, and so never complements it. */
  lemma NotInPlaceDoesNothing(w: World, a: u32, top: Option<Top>, codesz: nat, inp: Input)
    requires a + 8 <= |w.mem|
    ensures Effects(Un1(Not), [RefPtr(a)], w, top, codesz, inp) == Next(w)
    ensures var x := Load64(w.mem, a).value;
            Effects(Un2(Not), [RefPtr(a), RefPtr(a)], w, top, codesz, inp) == Done(Put(w, RefPtr(a), 8, WORD64 - 1 - x))
            && WORD64 - 1 - x != x
  {
    hide ToLE, WordAt, Splice;
    StoreBack(w.mem, a, 8);
  }

  lemma SpliceOutside(s: seq<byte>, at: nat, t: seq<byte>)
    requires at + |t| <= |s|
    ensures forall k :: 0 <= k < |s| && (k < at || at + |t| <= k) ==> Splice(s, at, t)[k] == s[k]
  {}

  /**
   * A copy that is defined leaves the source's bytes at the destination, and changes nothing else, the source
   * included.
   */
  lemma CopyMoves(w: World, os: seq<Operand>)
    requires |os| == 3 && CopyEffect(w, os).Next?
    ensures var w' := CopyEffect(w, os).w;
            var (d, s, n) := (os[0].addr, os[1].addr, ArgValue(os[2], w.mem).value);
            && w' == w.(mem := w'.mem) && |w'.mem| == |w.mem| && d + n <= |w.mem| && s + n <= |w.mem|
            && w'.mem[d..d + n] == w.mem[s..s + n] == w'.mem[s..s + n]
            && (forall k :: 0 <= k < |w.mem| && (k < d || d + n <= k) ==> w'.mem[k] == w.mem[k])
  {
    var (d, s, n) := (os[0].addr, os[1].addr, ArgValue(os[2], w.mem).value);
    SpliceReads(w.mem, d, w.mem[s..s + n], d, n);
    SpliceReads(w.mem, d, w.mem[s..s + n], s, n);
    SpliceOutside(w.mem, d, w.mem[s..s + n]);
    hide ArgValue, Splice;
  }

  /** It is defined exactly between readable ranges that do not overlap. */
  lemma CopyDefined(w: World, os: seq<Operand>, n: u64)
    requires |os| == 3 && Gives(os[2], w.mem, n)
    ensures CopyEffect(w, os).Next?
            <==> os[0].RefPtr? && os[1].RefPtr? && os[0].addr + n <= |w.mem| && os[1].addr + n <= |w.mem|
                 && (n == 0 || os[0].addr + n <= os[1].addr || os[1].addr + n <= os[0].addr)
    ensures !CopyEffect(w, os).Next? ==> CopyEffect(w, os).Undefined?
  {
    hide Gives, ArgValue;
    GivenIsRead(os[2], w.mem, n);
  }

  // ---- Loads and stores through a pointer and an offset

  /** The check adds in 32 bits: a sum that wraps around passes if what is left of it is in range. */
  lemma ReferencePasses(addr: u32, size: nat, memsz: nat)
    requires size < WORD32
    ensures DerefOk(addr, size, memsz)
            <==> (if addr + size < WORD32 then addr + size else addr + size - WORD32) <= memsz
  {
    if addr + size < WORD32 {
      ModIsRemainder(addr + size, WORD32, 0, addr + size);
    } else {
      ModIsRemainder(addr + size, WORD32, 1, addr + size - WORD32);
    }
  }

  lemma SumOfLowWords(base: u64, offset: u64)
    ensures Sum32(base, offset) == (base + offset) % WORD32
  {
    var (p, q) := (base / WORD32, offset / WORD32);
    var low := base % WORD32 + offset % WORD32;
    assert base + offset == (p + q + low / WORD32) * WORD32 + low % WORD32;
    ModIsRemainder(base + offset, WORD32, p + q + low / WORD32, low % WORD32);
  }

  /**
   * A `read` stores at its destination the word of its width that stands at pointer plus offset, and changes nothing
   * else. Where the check fails it stops the machine with the memory flag.
   */
  lemma ReadLoads(n: nat, os: seq<Operand>, w: World, top: Option<Top>, codesz: nat, inp: Input,
                  base: u32, offset: u64, v: nat)
    requires |os| == 3 && os[1].RefPtr? && Holds(w.mem, os[1].addr, ToLE(base, 4)) && Gives(os[2], w.mem, offset)
    ensures var e := Effects(Read(n), os, w, top, codesz, inp);
            var at := (base + offset) % WORD32;
            if !DerefOk(at, n, |w.mem|) then
              e.Halt? && e.spawns == [] && e.w == w.(exceptions := e.w.exceptions)
              && FlagSet(w.exceptions, e.w.exceptions, 1)
            else if at + n > |w.mem| || os[0].ImmVal? || os[0].addr + n > |w.mem| then e.Undefined?
            else v < Capacity(n) && Holds(w.mem, at, ToLE(v, n)) ==> e.Next? && Stored(w, e.w, os[0].addr, n, v)
  {
    GivenIsRead(os[2], w.mem, offset);
    PointerRead(w.mem, os[1].addr, base);
    SumOfLowWords(base, offset);
    FaultBits(w.exceptions);
    hide Gives, ArgValue, Raise, FlagSet, Stored, Store, ToLE, Load32, Sum32, Capacity, DerefOk, Holds;
    var at := (base + offset) % WORD32;
    if at + n <= |w.mem| && v < Capacity(n) && Holds(w.mem, at, ToLE(v, n)) {
      WordHeld(w.mem, at, v, n);
      ModIsRemainder(v, Capacity(n), 0, v);
      if os[0].RefPtr? { StoreStores(w, os[0].addr, n, v); }
    }
    DestinationOutside(w, os[0], n);
  }

  lemma PointerRead(mem: seq<byte>, a: nat, v: u32)
    requires Holds(mem, a, ToLE(v, 4))
    ensures Load32(mem, a) == Some(v)
  {
    hide ToLE;
    Capacities();
    LoadFitting(v, 4);
  }

  lemma DestinationOutside(w: World, o: Operand, n: nat)
    ensures o.ImmVal? || o.addr + n > |w.mem| ==> forall v: nat :: Put(w, o, n, v).None?
  {}

  /** A `write` stores its operand's low bytes there, under the same check. */
  lemma WritesThrough(n: nat, os: seq<Operand>, w: World, top: Option<Top>, codesz: nat, inp: Input,
                      base: u64, offset: u64, v: u64)
    requires |os| == 3 && Gives(os[0], w.mem, base) && Gives(os[1], w.mem, offset) && Gives(os[2], w.mem, v)
    ensures var e := Effects(Write(n), os, w, top, codesz, inp);
            var at := (base + offset) % WORD32;
            if !DerefOk(at, n, |w.mem|) then
              e.Halt? && e.spawns == [] && e.w == w.(exceptions := e.w.exceptions)
              && FlagSet(w.exceptions, e.w.exceptions, 1)
            else if at + n > |w.mem| then e.Undefined?
            else e.Next? && Stored(w, e.w, at, n, v)
  {
    GivenIsRead(os[0], w.mem, base);
    GivenIsRead(os[1], w.mem, offset);
    GivenIsRead(os[2], w.mem, v);
    SumOfLowWords(base, offset);
    FaultBits(w.exceptions);
    hide Gives, ArgValue, Raise, FlagSet, Stored, Store, ToLE, Sum32, DerefOk;
    StoreStores(w, (base + offset) % WORD32, n, v);
  }

  // ---- A function's arguments and result

  /** `argv` stores the innermost call's argument pointer, or 0 outside any call. */
  lemma ArgvStores(os: seq<Operand>, w: World, top: Option<Top>, codesz: nat, inp: Input)
    requires |os| == 1
    ensures var e := Effects(Argv, os, w, top, codesz, inp);
            if os[0].ImmVal? || os[0].addr + 4 > |w.mem| then e.Undefined?
            else e.Next? && Stored(w, e.w, os[0].addr, 4, if top.Some? then top.value.argv else 0)
  {
    hide Stored, Store;
    if os[0].RefPtr? { StoreStores(w, os[0].addr, 4, if top.Some? then top.value.argv else 0); }
  }

  /**
   * `retv` stores its operand at the innermost call's result pointer, and nothing else; outside any call, or where that
   * pointer fails the check, it stops the machine with the memory flag.
   */
  lemma RetvStores(os: seq<Operand>, w: World, top: Option<Top>, codesz: nat, inp: Input, v: u64)
    requires |os| == 1 && Gives(os[0], w.mem, v)
    ensures var e := Effects(Retv, os, w, top, codesz, inp);
            if top.None? || !DerefOk(top.value.retv, 8, |w.mem|) then
              e.Halt? && e.spawns == [] && e.w == w.(exceptions := e.w.exceptions)
              && FlagSet(w.exceptions, e.w.exceptions, 1)
            else if top.value.retv + 8 > |w.mem| then e.Undefined?
            else e.Next? && Stored(w, e.w, top.value.retv, 8, v)
  {
    hide Gives, ArgValue, Raise, FlagSet, Stored, Store, DerefOk;
    GivenIsRead(os[0], w.mem, v);
    FaultBits(w.exceptions);
    if top.Some? { StoreStores(w, top.value.retv, 8, v); }
  }
}
