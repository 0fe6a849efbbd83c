/** Numeric values of the ARP language and their arithmetic. Floating point numbers are their bit
    patterns; what the processor does with them is a parameter, so every theorem holds for any
    floating point unit. */
module Values {
  import opened Options

  datatype Ty = TUnknown | TInt | TFloat | TDouble | TChar | TBool | TPtr

  function TyCode(t: Ty): nat {
    match t
    case TUnknown => 0 case TInt => 1 case TFloat => 2 case TDouble => 3
    case TChar => 4 case TBool => 6 case TPtr => 7
  }

  function TyOfCode(c: int): Ty {
    if c == 1 then TInt else if c == 2 then TFloat else if c == 3 then TDouble
    else if c == 4 then TChar else if c == 6 then TBool else if c == 7 then TPtr else TUnknown
  }

  datatype Value =
    | VInt(i: int)      // 64-bit signed
    | VFloat(f: nat)    // 32-bit pattern
    | VDouble(d: nat)   // 64-bit pattern
    | VChar(c: nat)     // 32-bit code point
    | VBool(b: nat)     // 0 or 1
    | VPtr(p: nat)      // 64-bit address

  function TypeOf(v: Value): Ty {
    match v
    case VInt(_) => TInt case VFloat(_) => TFloat case VDouble(_) => TDouble
    case VChar(_) => TChar case VBool(_) => TBool case VPtr(_) => TPtr
  }

  datatype ArithOp = Plus | Minus | Times | Over

  /** The processor's conversions and floating point operations. */
  datatype Cpu = Cpu(
    i64ToF64: int -> nat, f64ToI64: nat -> int,
    u64ToF64: nat -> nat, f64ToU64: nat -> nat, f64ToU32: nat -> nat, f64ToI32: nat -> int,
    i64ToF32: int -> nat, f32ToI64: nat -> int, u64ToF32: nat -> nat,
    widen: nat -> nat, narrow: nat -> nat,
    f64Op: (ArithOp, nat, nat) -> nat, f32Op: (ArithOp, nat, nat) -> nat,
    f64Neg: nat -> nat, f32Neg: nat -> nat,
    f64Lt: (nat, nat) -> bool, f64Eq: (nat, nat) -> bool, f64IsNan: nat -> bool,
    f32Lt: (nat, nat) -> bool, f32Eq: (nat, nat) -> bool)

  const I64_MIN: int := -0x8000_0000_0000_0000
  const I64_LIMIT: int := 0x8000_0000_0000_0000
  const U64_LIMIT: int := 0x1_0000_0000_0000_0000
  const F64_MINUS_2_63: nat := 0xC3E0_0000_0000_0000
  const F64_2_63: nat := 0x43E0_0000_0000_0000

  predicate InI64(x: int) { I64_MIN <= x < I64_LIMIT }

  /** Two's complement reading of the low 64 bits. */
  function Wrap64(x: int): int {
    var u := x % U64_LIMIT;
    if u < I64_LIMIT then u else u - U64_LIMIT
  }

  function TruncDiv(x: int, y: int): int
    requires y != 0
  {
    if (x < 0) == (y < 0) then Abs(x) / Abs(y) else -(Abs(x) / Abs(y))
  }

  function TruncMod(x: int, y: int): int
    requires y != 0
  {
    x - TruncDiv(x, y) * y
  }

  function Abs(x: int): nat { if x < 0 then -x else x }

  // ----- conversions

  function ToI64(cpu: Cpu, v: Value): int {
    match v
    case VInt(i) => i
    case VFloat(f) => cpu.f32ToI64(f)
    case VDouble(d) => cpu.f64ToI64(d)
    case VChar(c) => c
    case VBool(b) => b
    case VPtr(p) => Wrap64(p)
  }

  function ToF32(cpu: Cpu, v: Value): nat {
    match v
    case VInt(i) => cpu.i64ToF32(i)
    case VFloat(f) => f
    case VDouble(d) => cpu.narrow(d)
    case VChar(c) => cpu.u64ToF32(c)
    case VBool(b) => cpu.u64ToF32(b)
    case VPtr(p) => cpu.u64ToF32(p)
  }

  function ToF64(cpu: Cpu, v: Value): nat {
    match v
    case VInt(i) => cpu.i64ToF64(i)
    case VFloat(f) => cpu.widen(f)
    case VDouble(d) => d
    case VChar(c) => cpu.u64ToF64(c)
    case VBool(b) => cpu.u64ToF64(b)
    case VPtr(p) => cpu.u64ToF64(p)
  }

  function Rank(t: Ty): nat {
    match t
    case TBool => 1 case TChar => 2 case TInt => 3 case TFloat => 4 case TDouble => 5
    case TPtr => 20 case TUnknown => 0
  }

  function Promote(a: Ty, b: Ty): Ty {
    if a == TUnknown then b else if b == TUnknown then a else if a == b then a
    else if a == TPtr && b == TInt then TPtr
    else if b == TPtr && a == TInt then TPtr
    else if Rank(a) >= Rank(b) then a else b
  }

  function MakeBool(b: bool): Value { VBool(if b then 1 else 0) }

  /** Conversion to a declared type; None where the language refuses it. */
  function Coerce(cpu: Cpu, v: Value, t: Ty): Option<Value> {
    if t == TUnknown || TypeOf(v) == t then Some(v) else
    match t
    case TInt => Some(VInt(ToI64(cpu, v)))
    case TFloat => Some(VFloat(ToF32(cpu, v)))
    case TDouble => Some(VDouble(ToF64(cpu, v)))
    case TChar => if v.VInt? then Some(VChar(v.i % 0x1_0000_0000)) else None
    case TBool => Some(MakeBool(ToI64(cpu, v) != 0))
    case TPtr => Some(VPtr(ToI64(cpu, v) % U64_LIMIT))
    case TUnknown => Some(v)
  }

  predicate Assignable(declared: Ty, actual: Ty) {
    declared == actual || declared == TUnknown ||
    match declared
    case TDouble => actual == TInt || actual == TFloat || actual == TChar || actual == TBool
    case TFloat => actual == TInt || actual == TChar || actual == TBool
    case TInt => actual == TBool || actual == TChar
    case TBool => actual == TInt
    case TChar => actual == TInt
    case TPtr => actual == TInt
    case TUnknown => true
  }

  // ----- arithmetic

  function Sum(cpu: Cpu, op: ArithOp, x: int, y: int): Value
    requires op != Over
  {
    var r := match op case Plus => x + y case Minus => x - y case Times => x * y case Over => 0;
    if InI64(r) then VInt(r) else VDouble(cpu.f64Op(op, cpu.i64ToF64(x), cpu.i64ToF64(y)))
  }

  /** arp_value_add, _sub, _mul and _div: 64-bit results that overflow become doubles. */
  function Arith(cpu: Cpu, op: ArithOp, a: Value, b: Value): Option<Value> {
    match Promote(TypeOf(a), TypeOf(b))
    case TInt =>
      var x, y := ToI64(cpu, a), ToI64(cpu, b);
      if op != Over then Some(Sum(cpu, op, x, y))
      else if y == 0 || (x == I64_MIN && y == -1) then None
      else Some(VInt(TruncDiv(x, y)))
    case TFloat => Some(VFloat(cpu.f32Op(op, ToF32(cpu, a), ToF32(cpu, b))))
    case TDouble => Some(VDouble(cpu.f64Op(op, ToF64(cpu, a), ToF64(cpu, b))))
    case TPtr =>
      if op == Plus then Some(VPtr((ToI64(cpu, a) + ToI64(cpu, b)) % U64_LIMIT))
      else if op == Minus then Some(VPtr((ToI64(cpu, a) - ToI64(cpu, b)) % U64_LIMIT))
      else None
    case _ => None
  }

  function Modulo(cpu: Cpu, a: Value, b: Value): Option<Value> {
    match Promote(TypeOf(a), TypeOf(b))
    case TInt =>
      var x, y := ToI64(cpu, a), ToI64(cpu, b);
      if y == 0 then None
      else if x == I64_MIN && y == -1 then Some(VInt(0))
      else Some(VInt(TruncMod(x, y)))
    case TFloat =>
      var x, y := ToF32(cpu, a), ToF32(cpu, b);
      if cpu.f32Eq(y, 0) then None else
      var q := cpu.i64ToF32(cpu.f32ToI64(cpu.f32Op(Over, x, y)));
      Some(VFloat(cpu.f32Op(Minus, x, cpu.f32Op(Times, q, y))))
    case TDouble =>
      var x, y := ToF64(cpu, a), ToF64(cpu, b);
      if cpu.f64Eq(y, 0) then None else
      var q := cpu.i64ToF64(cpu.f64ToI64(cpu.f64Op(Over, x, y)));
      Some(VDouble(cpu.f64Op(Minus, x, cpu.f64Op(Times, q, y))))
    case _ => None
  }

  datatype BitOp = Shl | Shr | And64 | Or64 | Xor64

  function Pow2(n: nat): (r: nat)
    ensures r > 0
  {
    if n == 0 then 1 else 2 * Pow2(n - 1)
  }

  /** The low n bits of x and y combined one by one, and the sign above them likewise. */
  function BitByBit(f: (bool, bool) -> bool, x: int, y: int, n: nat): int
    decreases n
  {
    if n == 0 then (if f(x < 0, y < 0) then -1 else 0)
    else 2 * BitByBit(f, x / 2, y / 2, n - 1) + (if f(x % 2 == 1, y % 2 == 1) then 1 else 0)
  }

  function Bitwise(cpu: Cpu, op: BitOp, a: Value, b: Value): Option<Value> {
    var x, y := ToI64(cpu, a), ToI64(cpu, b);
    match op
    case Shl => if 0 <= y <= 63 then Some(VInt(Wrap64(x * Pow2(y)))) else None
    case Shr => if 0 <= y <= 63 then Some(VInt(x / Pow2(y))) else None
    case And64 => Some(VInt(BitByBit((p: bool, q: bool) => p && q, x, y, 63)))
    case Or64 => Some(VInt(BitByBit((p: bool, q: bool) => p || q, x, y, 63)))
    case Xor64 => Some(VInt(BitByBit((p: bool, q: bool) => p != q, x, y, 63)))
  }

  function Negate(cpu: Cpu, a: Value): Option<Value> {
    match a
    case VInt(i) => Some(VInt(Wrap64(-i)))
    case VFloat(f) => Some(VFloat(cpu.f32Neg(f)))
    case VDouble(d) => Some(VDouble(cpu.f64Neg(d)))
    case VBool(b) => Some(VInt(-(b as int)))
    case VChar(c) => Some(VInt(-(c as int)))
    case VPtr(_) => None
  }

  predicate Truthy(cpu: Cpu, v: Value) {
    match v
    case VInt(i) => i != 0
    case VFloat(f) => !cpu.f32Eq(f, 0)
    case VDouble(d) => !cpu.f64Eq(d, 0)
    case VChar(c) => c != 0
    case VBool(b) => b != 0
    case VPtr(p) => p != 0
  }

  predicate IsNan(cpu: Cpu, v: Value) {
    match v
    case VFloat(f) => cpu.f64IsNan(cpu.widen(f))
    case VDouble(d) => cpu.f64IsNan(d)
    case _ => false
  }

  datatype CmpOp = Eq | Neq | Lt | Lte | Gt | Gte

  function Sign(lt: bool, gt: bool): int { if lt then -1 else if gt then 1 else 0 }

  function CmpHolds(op: CmpOp, c: int): bool {
    match op
    case Eq => c == 0 case Neq => c != 0 case Lt => c < 0
    case Lte => c <= 0 case Gt => c > 0 case Gte => c >= 0
  }

  function Compare(cpu: Cpu, op: CmpOp, a: Value, b: Value): Option<bool> {
    match Promote(TypeOf(a), TypeOf(b))
    case TInt =>
      var x, y := ToI64(cpu, a), ToI64(cpu, b);
      Some(CmpHolds(op, Sign(x < y, x > y)))
    case TPtr =>
      var x, y := ToI64(cpu, a), ToI64(cpu, b);
      Some(CmpHolds(op, Sign(x < y, x > y)))
    case TFloat =>
      var x, y := ToF32(cpu, a), ToF32(cpu, b);
      Some(CmpHolds(op, Sign(cpu.f32Lt(x, y), cpu.f32Lt(y, x))))
    case TDouble =>
      var x, y := ToF64(cpu, a), ToF64(cpu, b);
      Some(CmpHolds(op, Sign(cpu.f64Lt(x, y), cpu.f64Lt(y, x))))
    case _ => None
  }

  datatype BinOp = Ar(ar: ArithOp) | Rem | Bit(bit: BitOp) | Cmp(cmp: CmpOp) | LAnd | LOr

  /** Both operands at hand; the logical operators see two values like any other. */
  function Apply(cpu: Cpu, op: BinOp, a: Value, b: Value): Option<Value> {
    match op
    case Ar(o) => Arith(cpu, o, a, b)
    case Rem => Modulo(cpu, a, b)
    case Bit(o) => Bitwise(cpu, o, a, b)
    case Cmp(o) => (match Compare(cpu, o, a, b) case None => None case Some(r) => Some(MakeBool(r)))
    case LAnd => Some(MakeBool(Truthy(cpu, a) && Truthy(cpu, b)))
    case LOr => Some(MakeBool(Truthy(cpu, a) || Truthy(cpu, b)))
  }
}
