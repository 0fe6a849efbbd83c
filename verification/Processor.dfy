/** What an IEEE 754 processor guarantees, and the values that survive being carried in a double. */
module Processor {
  import opened Options
  import opened Values
  import opened Language

  const EXACT_LIMIT: nat := 0x20_0000_0000_0000 // 2^53
  const U32_LIMIT: nat := 0x1_0000_0000

  /** n without its factors of two. */
  function OddPart(n: nat): (r: nat)
    ensures r <= n
  {
    if n > 0 && n % 2 == 0 then OddPart(n / 2) else n
  }

  /** A whole number of at most 53 significant bits. */
  predicate Exact53(x: int) { OddPart(Abs(x)) <= EXACT_LIMIT }

  /** A 32-bit pattern of a signalling NaN: all exponent bits, a mantissa, the quiet bit clear. */
  predicate Signalling(f: nat) {
    f / 0x80_0000 % 0x100 == 0xFF && f % 0x80_0000 != 0 && f / 0x40_0000 % 2 == 0
  }

  // ----- the processor

  /** Equality is an equivalence on numbers, and a NaN equals nothing. */
  ghost predicate Comparisons(cpu: Cpu) {
    && (forall a: nat, b: nat :: cpu.f64Eq(a, b) ==> cpu.f64Eq(b, a) && !cpu.f64IsNan(a))
    && (forall a: nat, b: nat, c: nat :: cpu.f64Eq(a, b) && cpu.f64Eq(b, c) ==> cpu.f64Eq(a, c))
    && (forall a: nat :: !cpu.f64IsNan(a) ==> cpu.f64Eq(a, a))
  }

  /** Conversions to double give zero for zero only, and never a NaN; widening keeps zero. */
  ghost predicate ZeroKept(cpu: Cpu) {
    && (forall x: int :: InI64(x) ==> !cpu.f64IsNan(cpu.i64ToF64(x)) && (cpu.f64Eq(cpu.i64ToF64(x), 0) <==> x == 0))
    && (forall x: nat :: x < U64_LIMIT ==> !cpu.f64IsNan(cpu.u64ToF64(x)) && (cpu.f64Eq(cpu.u64ToF64(x), 0) <==> x == 0))
    && (forall f: nat :: f < U32_LIMIT ==> (cpu.f64Eq(cpu.widen(f), 0) <==> cpu.f32Eq(f, 0)))
  }

  /** Conversions from double stay in their type. */
  ghost predicate InRange(cpu: Cpu) {
    && (forall d: nat :: InI64(cpu.f64ToI64(d)) && cpu.f64ToU64(d) < U64_LIMIT)
    && (forall d: nat :: cpu.f64ToU32(d) < U32_LIMIT && cpu.narrow(d) < U32_LIMIT)
  }

  /** There and back is exact for what has at most 53 significant bits, and for nothing else. */
  ghost predicate RoundTrips(cpu: Cpu) {
    && (forall x: int :: InI64(x) ==> (cpu.f64ToI64(cpu.i64ToF64(x)) == x <==> Exact53(x)))
    && (forall x: nat :: x < U64_LIMIT ==> (cpu.f64ToU64(cpu.u64ToF64(x)) == x <==> Exact53(x)))
    && (forall x: nat :: x < U32_LIMIT ==> cpu.f64ToU32(cpu.u64ToF64(x)) == x)
    && (forall f: nat :: f < U32_LIMIT ==> (cpu.narrow(cpu.widen(f)) == f <==> !Signalling(f)))
    && cpu.f64ToI32(cpu.u64ToF64(0)) == 0 && cpu.f64ToI32(cpu.u64ToF64(1)) == 1
  }

  /** An exactly converted 64-bit integer lies from -2^63 up to below 2^63. */
  ghost predicate Bounded(cpu: Cpu) {
    forall x: int :: InI64(x) && Exact53(x) ==>
      && (cpu.f64Lt(F64_MINUS_2_63, cpu.i64ToF64(x)) || cpu.f64Eq(F64_MINUS_2_63, cpu.i64ToF64(x)))
      && cpu.f64Lt(cpu.i64ToF64(x), F64_2_63)
  }

  ghost predicate Ieee(cpu: Cpu) {
    Comparisons(cpu) && ZeroKept(cpu) && InRange(cpu) && RoundTrips(cpu) && Bounded(cpu)
  }

  /** Codes of a simple processor with all those guarantees; the last three bits tell the kinds of
      number apart: 0 for zero and for numbers that are not whole, 1 and 5 for positive and negative whole
      numbers, 2 for floats, 3 for what is not a number. */
  function IntCode(x: int): nat {
    if !Exact53(x) then 9 else if x == 0 then 0 else if x > 0 then 8 * x + 1 else 8 * -x + 5
  }

  function CodeInt(d: nat): int {
    var x: int := if d % 8 == 1 then d / 8 else if d % 8 == 5 then -((d / 8) as int) else 0;
    if InI64(x) then x else 0
  }

  function NatCode(x: nat): nat { if !Exact53(x) then 9 else if x == 0 then 0 else 8 * x + 1 }
  function CodeNat(d: nat): nat { if d % 8 == 1 && d / 8 < U64_LIMIT then d / 8 else 0 }
  function CodeU32(d: nat): nat { CodeNat(d) % U32_LIMIT }
  function FloatCode(f: nat): nat { if f == 0 then 0 else 8 * f + 2 }
  function CodeFloat(d: nat): nat { if d % 8 == 2 && !Signalling(d / 8) then d / 8 % U32_LIMIT else 0 }
  function SameCode(a: nat, b: nat): bool { a == b && a % 8 != 3 }

  function SampleCpu(): Cpu {
    Cpu(IntCode, CodeInt, NatCode, CodeNat, CodeU32, CodeInt,
        (x: int) => 0, (f: nat) => 0, (x: nat) => 0,
        FloatCode, CodeFloat,
        (op: ArithOp, a: nat, b: nat) => if op == Over && a == 0 && b == 0 then 3 else 0,
        (op: ArithOp, a: nat, b: nat) => 0,
        (a: nat) => a, (a: nat) => a,
        (a: nat, b: nat) => true, SameCode, (a: nat) => a % 8 == 3,
        (a: nat, b: nat) => true, (a: nat, b: nat) => a == b)
  }

  lemma SampleInts(x: int)
    ensures IntCode(x) % 8 != 3 && (IntCode(x) == 0 <==> x == 0)
    ensures InI64(x) ==> (CodeInt(IntCode(x)) == x <==> Exact53(x))
  {
    SmallOdd();
    hide OddPart;
  }

  lemma SampleNats(x: nat)
    ensures NatCode(x) % 8 != 3 && (NatCode(x) == 0 <==> x == 0)
    ensures x < U64_LIMIT ==> (CodeNat(NatCode(x)) == x <==> Exact53(x))
    ensures x < U32_LIMIT ==> CodeU32(NatCode(x)) == x
  {
    SmallOdd();
    hide OddPart;
  }

  lemma SampleFloats(f: nat)
    ensures f < U32_LIMIT ==> (CodeFloat(FloatCode(f)) == f <==> !Signalling(f))
    ensures FloatCode(f) == 0 <==> f == 0
  {
  }

  lemma SmallOdd()
    ensures OddPart(0) == 0 && OddPart(1) == 1
  {
  }

  lemma SampleZeros()
    ensures ZeroKept(SampleCpu())
  {
    hide IntCode, NatCode, FloatCode;
    var cpu := SampleCpu();
    forall x: int | InI64(x) ensures !cpu.f64IsNan(cpu.i64ToF64(x)) && (cpu.f64Eq(cpu.i64ToF64(x), 0) <==> x == 0) {
      SampleInts(x);
    }
    forall x: nat | x < U64_LIMIT ensures !cpu.f64IsNan(cpu.u64ToF64(x)) && (cpu.f64Eq(cpu.u64ToF64(x), 0) <==> x == 0) {
      SampleNats(x);
    }
    forall f: nat | f < U32_LIMIT ensures cpu.f64Eq(cpu.widen(f), 0) <==> cpu.f32Eq(f, 0) {
      SampleFloats(f);
    }
  }

  lemma SampleTrips()
    ensures RoundTrips(SampleCpu())
  {
    hide IntCode, CodeInt, NatCode, CodeNat, CodeU32, FloatCode, CodeFloat, Exact53, Signalling;
    var cpu := SampleCpu();
    forall x: int | InI64(x) ensures cpu.f64ToI64(cpu.i64ToF64(x)) == x <==> Exact53(x) { SampleInts(x); }
    forall x: nat | x < U64_LIMIT ensures cpu.f64ToU64(cpu.u64ToF64(x)) == x <==> Exact53(x) { SampleNats(x); }
    forall x: nat | x < U32_LIMIT ensures cpu.f64ToU32(cpu.u64ToF64(x)) == x { SampleNats(x); }
    forall f: nat | f < U32_LIMIT ensures cpu.narrow(cpu.widen(f)) == f <==> !Signalling(f) { SampleFloats(f); }
    SampleBools();
  }

  lemma SampleRest()
    ensures Comparisons(SampleCpu()) && InRange(SampleCpu()) && Bounded(SampleCpu())
  {
    hide IntCode, CodeInt, NatCode, CodeNat, CodeU32, FloatCode, CodeFloat, Exact53, Signalling;
    SampleRange();
  }

  /** The guarantees can be met. */
  lemma SampleIsIeee()
    ensures Ieee(SampleCpu())
  {
    hide SampleCpu, ZeroKept, RoundTrips, Comparisons, InRange, Bounded;
    SampleZeros();
    SampleTrips();
    SampleRest();
  }

  lemma SampleBools()
    ensures CodeInt(NatCode(0)) == 0 && CodeInt(NatCode(1)) == 1
  {
    SmallOdd();
  }

  lemma SampleRange()
    ensures forall d: nat :: InI64(CodeInt(d)) && CodeNat(d) < U64_LIMIT && CodeU32(d) < U32_LIMIT && CodeFloat(d) < U32_LIMIT
  {
  }

  // ----- values carried in a double

  /** A value of its type that a double can carry: integers and pointers of at most 53 significant
      bits, floats that are no signalling NaN, and all doubles, characters and truth values. */
  predicate Carried(v: Value) {
    match v
    case VInt(i) => InI64(i) && Exact53(i)
    case VFloat(f) => f < U32_LIMIT && !Signalling(f)
    case VDouble(_) => true
    case VChar(c) => c < U32_LIMIT
    case VBool(b) => b <= 1
    case VPtr(p) => p < U64_LIMIT && Exact53(p)
  }

  lemma ThereAndBack(cpu: Cpu, v: Value)
    ensures Unbox(cpu, Box(cpu, v)) == Some(
      match v
      case VInt(i) => VInt(cpu.f64ToI64(cpu.i64ToF64(i)))
      case VFloat(f) => VFloat(cpu.narrow(cpu.widen(f)))
      case VDouble(d) => VDouble(d)
      case VChar(c) => VChar(cpu.f64ToU32(cpu.u64ToF64(c)))
      case VBool(b) => MakeBool(cpu.f64ToI32(cpu.u64ToF64(b)) != 0)
      case VPtr(p) => VPtr(cpu.f64ToU64(cpu.u64ToF64(p))))
  {
  }

  lemma IntFits(cpu: Cpu, i: int)
    requires InRange(cpu) && RoundTrips(cpu)
    ensures Fits(cpu, VInt(i)) <==> Carried(VInt(i))
  {
    hide Exact53, Signalling, Box, Unbox;
    var d := cpu.i64ToF64(i);
    assert InI64(cpu.f64ToI64(d));
    ThereAndBack(cpu, VInt(i));
  }

  lemma PtrFits(cpu: Cpu, p: nat)
    requires InRange(cpu) && RoundTrips(cpu)
    ensures Fits(cpu, VPtr(p)) <==> Carried(VPtr(p))
  {
    hide Exact53, Signalling, Box, Unbox;
    var d := cpu.u64ToF64(p);
    assert cpu.f64ToU64(d) < U64_LIMIT;
    ThereAndBack(cpu, VPtr(p));
  }

  lemma FloatFits(cpu: Cpu, f: nat)
    requires InRange(cpu) && RoundTrips(cpu)
    ensures Fits(cpu, VFloat(f)) <==> Carried(VFloat(f))
  {
    hide Exact53, Signalling, Box, Unbox;
    var d := cpu.widen(f);
    assert cpu.narrow(d) < U32_LIMIT;
    ThereAndBack(cpu, VFloat(f));
  }

  lemma CharFits(cpu: Cpu, c: nat)
    requires InRange(cpu) && RoundTrips(cpu)
    ensures Fits(cpu, VChar(c)) <==> Carried(VChar(c))
  {
    hide Exact53, Signalling, Box, Unbox;
    var d := cpu.u64ToF64(c);
    assert cpu.f64ToU32(d) < U32_LIMIT;
    ThereAndBack(cpu, VChar(c));
  }

  lemma BoolFits(cpu: Cpu, b: nat)
    requires RoundTrips(cpu)
    ensures Fits(cpu, VBool(b)) <==> Carried(VBool(b))
  {
    hide Exact53, Signalling, Box, Unbox;
    ThereAndBack(cpu, VBool(b));
    assert b == 0 || b == 1 || b > 1;
  }

  /** A value survives being carried in a double if and only if it is one of those. */
  lemma FitsExact(cpu: Cpu, v: Value)
    requires Ieee(cpu)
    ensures Fits(cpu, v) <==> Carried(v)
  {
    hide Comparisons, ZeroKept, Bounded, InRange, RoundTrips, Carried, Fits;
    match v
    case VInt(i) => IntFits(cpu, i);
    case VFloat(f) => FloatFits(cpu, f);
    case VDouble(d) => DoubleFits(cpu, d);
    case VChar(c) => CharFits(cpu, c);
    case VBool(b) => BoolFits(cpu, b);
    case VPtr(p) => PtrFits(cpu, p);
  }

  lemma DoubleFits(cpu: Cpu, d: nat)
    ensures Fits(cpu, VDouble(d)) && Carried(VDouble(d))
  {
  }

  /** All whole numbers up to 2^53 are carried. */
  lemma SmallCarried(v: Value)
    requires (v.VInt? && Abs(v.i) <= EXACT_LIMIT) || (v.VPtr? && v.p <= EXACT_LIMIT)
    ensures Carried(v)
  {
  }

  /** Where the ranges end: 2^53 is carried, 2^53 + 1 is not, and 2^53 + 2 is; of the NaNs, the one of only
      the first mantissa bit is, and the ones without that bit are not. */
  lemma CarriedLimits()
    ensures Carried(VInt(0x20_0000_0000_0000)) && !Carried(VInt(0x20_0000_0000_0001)) && Carried(VInt(0x20_0000_0000_0002))
    ensures Carried(VPtr(0x20_0000_0000_0000)) && !Carried(VPtr(0x20_0000_0000_0001))
    ensures Carried(VFloat(0x7FC0_0000)) && !Carried(VFloat(0x7FBF_FFFF)) && !Carried(VFloat(0x7F80_0001)) && Carried(VFloat(0x7F80_0000))
  {
    hide OddPart;
    SmallCarried(VInt(0x20_0000_0000_0000));
    SmallCarried(VPtr(0x20_0000_0000_0000));
    OddIs(0x20_0000_0000_0001);
    OddIs(0x10_0000_0000_0001);
    TwiceIs(0x10_0000_0000_0001);
  }

  lemma OddIs(n: nat)
    requires n % 2 == 1
    ensures OddPart(n) == n
  {
  }

  lemma TwiceIs(n: nat)
    requires n > 0
    ensures OddPart(2 * n) == OddPart(n)
  {
    assert 2 * n / 2 == n;
  }

  // ----- truth

  /** The compiled test of a value carried in a register agrees with the interpreter's truth if and
      only if the value is a number. */
  lemma BoxTestAgrees(cpu: Cpu, v: Value)
    requires Ieee(cpu) && Carried(v)
    ensures TestsFalse(cpu, Box(cpu, v)) == !Truthy(cpu, v) <==> !IsNan(cpu, v)
  {
    hide InRange, RoundTrips, Bounded, Exact53, Signalling;
  }

  lemma LiteralTestAgrees(cpu: Cpu, d: nat)
    requires Ieee(cpu)
    ensures var v := Literal(cpu, d);
      TestsFalse(cpu, Cell(TyCode(TypeOf(v)), d)) == !Truthy(cpu, v) <==> !IsNan(cpu, v)
  {
    hide RoundTrips, Bounded;
    if IntLiteral(cpu, d) {
      var back := cpu.i64ToF64(cpu.f64ToI64(d));
      assert cpu.f64Eq(d, 0) ==> cpu.f64Eq(back, d) && cpu.f64Eq(back, 0);
      assert cpu.f64Eq(back, 0) ==> cpu.f64Eq(d, 0);
    }
  }

  /** The same for what compiled code leaves for any tree: a literal as written, or a carried value. */
  lemma TestAgrees(cpu: Cpu, e: Expr, s: Store, v: Value)
    requires Ieee(cpu) && StrictEval(cpu, e, s) == Some(v)
    ensures TestsFalse(cpu, ResultCell(cpu, e, v)) == !Truthy(cpu, v) <==> !IsNan(cpu, v)
  {
    hide Ieee, IntLiteral, TestsFalse, Truthy, Box;
    if e.Num? {
      LiteralTestAgrees(cpu, e.bits);
    } else {
      StrictFits(cpu, e, s, v);
      FitsExact(cpu, v);
      BoxTestAgrees(cpu, v);
    }
  }

  lemma StrictFits(cpu: Cpu, e: Expr, s: Store, v: Value)
    requires StrictEval(cpu, e, s) == Some(v) && !e.Num?
    ensures Fits(cpu, v)
  {
    hide Fits, Apply, Negate;
  }

  // ----- whole trees

  /** Every subtree evaluates, and to a value a double can carry. Literals are in the code itself. */
  predicate CarriedE(cpu: Cpu, e: Expr, s: Store) {
    && (match e
        case Num(_) => true
        case Var(_) => true
        case Neg(o) => CarriedE(cpu, o, s)
        case Bin(_, l, r) => CarriedE(cpu, l, s) && CarriedE(cpu, r, s))
    && (e.Num? || (Eval(cpu, e, s).Some? && Carried(Eval(cpu, e, s).value)))
  }

  /** Strict evaluation succeeds if and only if every subtree evaluates to a value a double can
      carry; it is then the interpreter's. */
  lemma {:induction false} StrictExact(cpu: Cpu, e: Expr, s: Store)
    requires Ieee(cpu)
    ensures StrictEval(cpu, e, s).Some? <==> CarriedE(cpu, e, s)
    ensures CarriedE(cpu, e, s) ==> StrictEval(cpu, e, s) == Eval(cpu, e, s)
  {
    hide Ieee, Fits, Carried, Apply, Negate, Truthy;
    StrictIsEval(cpu, e, s);
    match e
    case Num(_) =>
    case Var(n) =>
      if Get(s, n).Some? { FitsExact(cpu, Get(s, n).value); }
    case Neg(o) =>
      StrictExact(cpu, o, s);
      if Eval(cpu, e, s).Some? { FitsExact(cpu, Eval(cpu, e, s).value); }
    case Bin(op, l, r) =>
      StrictExact(cpu, l, s);
      StrictExact(cpu, r, s);
      if Eval(cpu, l, s).Some? && Eval(cpu, r, s).Some? { BothEvaluate(cpu, op, l, r, s); }
      if Eval(cpu, e, s).Some? { FitsExact(cpu, Eval(cpu, e, s).value); }
  }

  /** With both operands evaluated, stopping early changes nothing. */
  lemma BothEvaluate(cpu: Cpu, op: BinOp, l: Expr, r: Expr, s: Store)
    requires Eval(cpu, l, s).Some? && Eval(cpu, r, s).Some?
    ensures Eval(cpu, Bin(op, l, r), s) == Apply(cpu, op, Eval(cpu, l, s).value, Eval(cpu, r, s).value)
  {
    hide Arith, Modulo, Bitwise, Compare, Truthy;
  }

  // ----- whole runs

  /** A condition of carried values whose value is a number. */
  predicate CarriedCond(cpu: Cpu, c: Expr, s: Store) {
    CarriedE(cpu, c, s) && Eval(cpu, c, s).Some? && !IsNan(cpu, Eval(cpu, c, s).value)
  }

  /** Every expression the interpreter meets while running st from s is carried, and every condition
      it meets is a number. */
  predicate CarriedS(cpu: Cpu, st: Stmt, s: Store, fuel: nat)
    decreases fuel, st, 1
  {
    match st
    case ExprS(e) => CarriedE(cpu, e, s)
    case Assign(_, e) => CarriedE(cpu, e, s)
    case DeclareS(_, _, e) => CarriedE(cpu, e, s)
    case Return(e) => CarriedE(cpu, e, s)
    case If(c, thn) =>
      CarriedCond(cpu, c, s) && (Truthy(cpu, Eval(cpu, c, s).value) ==> CarriedB(cpu, thn, s, fuel))
    case IfElse(c, thn, els) =>
      CarriedCond(cpu, c, s) && CarriedB(cpu, if Truthy(cpu, Eval(cpu, c, s).value) then thn else els, s, fuel)
    case Loop(body) =>
      fuel > 0 ==>
        && CarriedB(cpu, body, s, fuel)
        && (match ExecB(cpu, Interpreted, body, s, fuel)
            case Normal(s') => CarriedS(cpu, st, s', fuel - 1)
            case Continued(s') => CarriedS(cpu, st, s', fuel - 1)
            case _ => true)
    case _ => true
  }

  predicate CarriedB(cpu: Cpu, b: Block, s: Store, fuel: nat)
    decreases fuel, b, 0
  {
    match b
    case Nil => true
    case Cons(hd, tl) =>
      && CarriedS(cpu, hd, s, fuel)
      && (match ExecS(cpu, Interpreted, hd, s, fuel)
          case Normal(s') => CarriedB(cpu, tl, s', fuel)
          case _ => true)
  }

  lemma CarriedTruth(cpu: Cpu, c: Expr, s: Store)
    requires Ieee(cpu)
    ensures CarriedCond(cpu, c, s) <==> TruthOf(cpu, Checked, c, s).Some?
    ensures CarriedCond(cpu, c, s) ==>
      && TruthOf(cpu, Checked, c, s) == TruthOf(cpu, Interpreted, c, s) == Some(Truthy(cpu, Eval(cpu, c, s).value))
      && TruthOf(cpu, Coded, c, s) == TruthOf(cpu, Interpreted, c, s)
  {
    hide Ieee, CarriedE, StrictEval, Eval, TestsFalse, Truthy, ResultCell;
    StrictExact(cpu, c, s);
    if StrictEval(cpu, c, s).Some? {
      TestAgrees(cpu, c, s, StrictEval(cpu, c, s).value);
    }
  }

  /** A run of carried values whose conditions are numbers is the same run for the interpreter, for
      checked evaluation and for compiled code; and only such runs pass the checks. */
  lemma {:induction false} CheckedExactS(cpu: Cpu, st: Stmt, s: Store, fuel: nat)
    requires Ieee(cpu)
    ensures CarriedS(cpu, st, s, fuel) ==>
      ExecS(cpu, Checked, st, s, fuel) == ExecS(cpu, Coded, st, s, fuel) == ExecS(cpu, Interpreted, st, s, fuel)
    ensures ExecS(cpu, Checked, st, s, fuel) != Failed ==> CarriedS(cpu, st, s, fuel)
    decreases fuel, st, 1
  {
    hide Ieee, CarriedE, CarriedCond, StrictEval, Eval, TestsFalse, Truthy, ResultCell, Set, Declare, TruthOf;
    match st
    case ExprS(e) => StrictExact(cpu, e, s);
    case Assign(_, e) => StrictExact(cpu, e, s);
    case DeclareS(_, _, e) => StrictExact(cpu, e, s);
    case Return(e) => StrictExact(cpu, e, s);
    case If(c, thn) =>
      CarriedTruth(cpu, c, s);
      CheckedExact(cpu, thn, s, fuel);
    case IfElse(c, thn, els) =>
      CarriedTruth(cpu, c, s);
      CheckedExact(cpu, thn, s, fuel);
      CheckedExact(cpu, els, s, fuel);
    case Loop(body) =>
      if fuel > 0 {
        CheckedExact(cpu, body, s, fuel);
        var o := ExecB(cpu, Interpreted, body, s, fuel);
        if o.Normal? || o.Continued? {
          CheckedExactS(cpu, st, o.s, fuel - 1);
        }
      }
    case _ =>
  }

  lemma {:induction false} CheckedExact(cpu: Cpu, b: Block, s: Store, fuel: nat)
    requires Ieee(cpu)
    ensures CarriedB(cpu, b, s, fuel) ==>
      ExecB(cpu, Checked, b, s, fuel) == ExecB(cpu, Coded, b, s, fuel) == ExecB(cpu, Interpreted, b, s, fuel)
    ensures ExecB(cpu, Checked, b, s, fuel) != Failed ==> CarriedB(cpu, b, s, fuel)
    decreases fuel, b, 0
  {
    hide Ieee, CarriedS, ExecS;
    match b
    case Nil =>
    case Cons(hd, tl) =>
      CheckedExactS(cpu, hd, s, fuel);
      var o := ExecS(cpu, Interpreted, hd, s, fuel);
      if o.Normal? {
        CheckedExact(cpu, tl, o.s, fuel);
      }
  }
}
