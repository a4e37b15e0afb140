/** The instruction set: operations, their operand counts, and 64-bit arithmetic. */
module Isa {
  import opened Bytes

  datatype BinOp =
    | Add | Sub | Mul | Div | Mod
    | Eq | Ne | Gt | Lt | Ge | Le
    | LAnd | LOr
    | And | Or | Xor | Shl | Shr

  datatype UnOp = Not | LNot | LBool

  /** One constructor per handler family; the arity is part of the handler's name in the source. */
  datatype Op =
    | Nop
    | Bin3(bin: BinOp)   // dest = a op b
    | Bin2(bin: BinOp)   // dest = dest op a
    | Un2(un: UnOp)      // dest = op a
    | Un1(un: UnOp)      // dest = op dest
    | Cp
    | Read(width: nat)
    | Write(width: nat)
    | Jmp | JTrue | JFalse
    | Call | Syscall | Ret
    | Argv | Retv
    | Assert | Abrt

  function Arity(op: Op): (n: nat)
    ensures n <= 3
  {
    match op
    case Nop | Ret => 0
    case Un1(_) | Jmp | Argv | Retv | Abrt => 1
    case Bin2(_) | Un2(_) | JTrue | JFalse | Assert => 2
    case Bin3(_) | Cp | Read(_) | Write(_) | Call | Syscall => 3
  }

  /** `F_Debug_Only_Instn` is set on `assert` alone. */
  predicate DebugOnly(op: Op) {
    op == Assert
  }

  /** The definition table after sorting: an instruction's opcode is its index here. */
  type Table = seq<Op>

  predicate ValidTable(t: Table) {
    0 < |t| <= 256
  }

  function Pow2(k: nat): (r: nat)
    ensures r > 0
  {
    if k == 0 then 1 else 2 * Pow2(k - 1)
  }

  lemma SmallPowers()
    ensures Pow2(0) == 1 && Pow2(1) == 2 && Pow2(2) == 4 && Pow2(3) == 8 && Pow2(4) == 16
  {}

  lemma Pow2Words()
    ensures Pow2(32) == WORD32 && Pow2(64) == WORD64
  {
    assert Pow2(8) == 0x100;
    assert Pow2(16) == 0x1_0000;
    assert Pow2(24) == 0x100_0000;
    assert Pow2(32) == WORD32;
    assert Pow2(40) == 0x100 * WORD32;
    assert Pow2(48) == 0x1_0000 * WORD32;
    assert Pow2(56) == 0x100_0000 * WORD32;
  }

  datatype BitFn = BitAnd | BitOr | BitXor

  function BitApply(f: BitFn, x: nat, y: nat): (r: nat)
    requires x < 2 && y < 2
    ensures r < 2
  {
    match f
    case BitAnd => if x == 1 && y == 1 then 1 else 0
    case BitOr => if x == 1 || y == 1 then 1 else 0
    case BitXor => if x != y then 1 else 0
  }

  /** The bitwise combination of the low `k` bits. */
  function Bitwise(f: BitFn, x: nat, y: nat, k: nat): (r: nat)
    ensures r < Pow2(k)
  {
    if k == 0 then 0 else BitApply(f, x % 2, y % 2) + 2 * Bitwise(f, x / 2, y / 2, k - 1)
  }

  /** Setting exception flags: `vm->exceptions |= bits`. */
  function Raise(flags: u32, bits: u32): (r: u32) {
    Pow2Words();
    Bitwise(BitOr, flags, bits, 32)
  }

  lemma {:induction false} OrZero(x: nat, y: nat, k: nat)
    requires x < Pow2(k) && y < Pow2(k)
    ensures Bitwise(BitOr, x, y, k) == 0 <==> x == 0 && y == 0
  {
    if k > 0 {
      OrZero(x / 2, y / 2, k - 1);
    }
  }

  /** No flag is ever cleared: the flag word is nonzero afterwards exactly when something was or became set. */
  lemma RaiseNonzero(flags: u32, bits: u32)
    ensures Raise(flags, bits) != 0 <==> flags != 0 || bits != 0
  {
    Pow2Words();
    OrZero(flags, bits, 32);
  }

  datatype AluResult = Value(v: u64) | DivideByZero | ShiftTooFar

  function Truth(b: bool): u64 {
    if b then 1 else 0
  }

  /** The 64-bit result of `x op y`; C leaves shifts by 64 or more undefined. */
  function Alu(op: BinOp, x: u64, y: u64): AluResult {
    Pow2Words();
    match op
    case Add => Value((x + y) % WORD64)
    case Sub => Value((x - y) % WORD64)
    case Mul => Value((x * y) % WORD64)
    case Div => if y == 0 then DivideByZero else Value(Quotient(x, y))
    case Mod => if y == 0 then DivideByZero else Value(x % y)
    case Eq => Value(Truth(x == y))
    case Ne => Value(Truth(x != y))
    case Gt => Value(Truth(x > y))
    case Lt => Value(Truth(x < y))
    case Ge => Value(Truth(x >= y))
    case Le => Value(Truth(x <= y))
    case LAnd => Value(Truth(x != 0 && y != 0))
    case LOr => Value(Truth(x != 0 || y != 0))
    case And => Value(Bitwise(BitAnd, x, y, 64))
    case Or => Value(Bitwise(BitOr, x, y, 64))
    case Xor => Value(Bitwise(BitXor, x, y, 64))
    case Shl => if y >= 64 then ShiftTooFar else Value((x * Pow2(y)) % WORD64)
    case Shr => if y >= 64 then ShiftTooFar else Value(Quotient(x, Pow2(y)))
  }

  function Quotient(x: u64, y: nat): (q: u64)
    requires y > 0
  {
    if y > x then 0 else
    var q := x / y;
    assert q <= x by { if q > x { MulMono(1, y, q); } }
    assert 0 <= q by { if q < 0 { MulMono(q, -1, y); } }
    q
  }

  /** `not` with one operand stores the operand back unchanged; with two it complements. */
  function UnaryTo(op: UnOp, x: u64): u64 {
    match op
    case Not => WORD64 - 1 - x
    case LNot => Truth(x == 0)
    case LBool => Truth(x != 0)
  }

  function UnaryInPlace(op: UnOp, x: u64): u64 {
    if op == Not then x else UnaryTo(op, x)
  }
}
