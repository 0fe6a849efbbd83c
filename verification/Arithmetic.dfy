/** What the operations of the language compute, in terms of the integers they stand for. */
module Arithmetic {
  import opened Options
  import opened Values
  import opened Language
  import opened Processor
  import opened MachineCode
  import opened Machine
  import opened CodeGen
  import opened ExprCorrect
  import opened Agreement
  import MathSyntax
  import MathTrees

  // ----- integers

  /** A 64-bit signed integer. */
  predicate Fits64(x: int) { -0x8000_0000_0000_0000 <= x <= 0x7FFF_FFFF_FFFF_FFFF }

  /** Sum, difference and product of two integers are those of the integers they stand for whenever that
      is a 64-bit integer; otherwise the doubles of the operands are added, subtracted or multiplied. */
  lemma Sums(cpu: Cpu, x: int, y: int)
    requires Fits64(x) && Fits64(y)
    ensures Apply(cpu, Ar(Plus), VInt(x), VInt(y)) ==
      Some(if Fits64(x + y) then VInt(x + y) else VDouble(cpu.f64Op(Plus, cpu.i64ToF64(x), cpu.i64ToF64(y))))
    ensures Apply(cpu, Ar(Minus), VInt(x), VInt(y)) ==
      Some(if Fits64(x - y) then VInt(x - y) else VDouble(cpu.f64Op(Minus, cpu.i64ToF64(x), cpu.i64ToF64(y))))
    ensures Apply(cpu, Ar(Times), VInt(x), VInt(y)) ==
      Some(if Fits64(x * y) then VInt(x * y) else VDouble(cpu.f64Op(Times, cpu.i64ToF64(x), cpu.i64ToF64(y))))
  {
  }

  /** r is what is left of x after taking q times y, nearest zero and of the sign of x. */
  ghost predicate Divides(x: int, y: int, q: int, r: int) {
    x == q * y + r && (if r < 0 then -r else r) < (if y < 0 then -y else y) && (r > 0 ==> x > 0) && (r < 0 ==> x < 0)
  }

  lemma Signs(x: int, y: int)
    ensures (-x) * y == -(x * y) && x * (-y) == -(x * y) && (-x) * (-y) == x * y
  {
  }

  lemma AbsTimes(x: int, y: int)
    ensures Abs(x * y) == Abs(x) * Abs(y)
  {
    Signs(x, y);
    Positive(Abs(x), Abs(y));
  }

  lemma Positive(m: nat, n: nat)
    ensures m * n >= 0 && (n >= 1 ==> m * n >= m) && (n >= 2 ==> m * n >= m + m) && (m >= 1 ==> m * n >= n)
  {
    if n >= 2 {
      assert m * n == m + m + m * (n - 2) && m * (n - 2) >= 0;
    }
    if m >= 1 {
      assert m * n == n + (m - 1) * n && (m - 1) * n >= 0;
    }
  }

  lemma Parts(a: nat, b: nat)
    requires b > 0
    ensures a == a / b * b + a % b && 0 <= a % b < b
  {
  }

  lemma Truncated(x: int, y: int)
    requires y != 0
    ensures Divides(x, y, TruncDiv(x, y), TruncMod(x, y))
  {
    hide Divides;
    Parts(Abs(x), Abs(y));
    Cut(x, y, Abs(x) / Abs(y), Abs(x) % Abs(y));
  }

  lemma Cut(x: int, y: int, k: nat, m: nat)
    requires Abs(x) == k * Abs(y) + m && m < Abs(y)
    ensures var q := if (x < 0) == (y < 0) then k else -(k as int); Divides(x, y, q, x - q * y)
  {
    CutProduct(x, y, k);
  }

  lemma CutProduct(x: int, y: int, k: int)
    ensures (if (x < 0) == (y < 0) then k else -k) * y == if x < 0 then -(k * Abs(y)) else k * Abs(y)
  {
    Signs(k, y);
  }

  /** Division and remainder of integers: refused for zero and for -2^63 by -1, whose remainder is
      zero; otherwise the quotient cut off toward zero and the remainder of the sign of the dividend. */
  lemma Quotients(cpu: Cpu, x: int, y: int) returns (q: int, r: int)
    requires Fits64(x) && Fits64(y)
    ensures y == 0 ==> Apply(cpu, Ar(Over), VInt(x), VInt(y)) == None && Apply(cpu, Rem, VInt(x), VInt(y)) == None
    ensures x == -0x8000_0000_0000_0000 && y == -1 ==>
      Apply(cpu, Ar(Over), VInt(x), VInt(y)) == None && Apply(cpu, Rem, VInt(x), VInt(y)) == Some(VInt(0))
    ensures y != 0 && !(x == -0x8000_0000_0000_0000 && y == -1) ==>
      && Apply(cpu, Ar(Over), VInt(x), VInt(y)) == Some(VInt(q)) && Apply(cpu, Rem, VInt(x), VInt(y)) == Some(VInt(r))
      && Divides(x, y, q, r) && Fits64(q) && Fits64(r)
  {
    hide Divides, TruncDiv, TruncMod;
    q, r := 0, 0;
    if y != 0 && !(x == -0x8000_0000_0000_0000 && y == -1) {
      q, r := TruncDiv(x, y), TruncMod(x, y);
      Truncated(x, y);
      QuotientFits(x, y, q, r);
    }
  }

  lemma QuotientFits(x: int, y: int, q: int, r: int)
    requires Fits64(x) && Fits64(y) && y != 0 && !(x == -0x8000_0000_0000_0000 && y == -1) && Divides(x, y, q, r)
    ensures Fits64(q) && Fits64(r)
  {
    var p := q * y;
    AbsTimes(q, y);
    Positive(Abs(q), Abs(y));
    if Abs(q) == 0x8000_0000_0000_0000 {
      assert Abs(y) == 1;
      Signs(q, 1);
    }
  }

  lemma Distributes(a: int, b: int, y: int)
    ensures (a - b) * y == a * y - b * y
  {
  }

  /** There is only one such pair. */
  lemma OneQuotient(x: int, y: int, q: int, r: int, q': int, r': int)
    requires y != 0 && Divides(x, y, q, r) && Divides(x, y, q', r')
    ensures q == q' && r == r'
  {
    var d := q - q';
    Distributes(q, q', y);
    AbsTimes(d, y);
    Positive(Abs(d), Abs(y));
  }

  /** A truth value as the language has it. */
  function Truth(b: bool): Option<Value> { Some(VBool(if b then 1 else 0)) }

  /** Each comparison of integers is the relation it names. */
  lemma Comparisons64(cpu: Cpu, x: int, y: int)
    ensures Apply(cpu, Cmp(Eq), VInt(x), VInt(y)) == Truth(x == y)
    ensures Apply(cpu, Cmp(Neq), VInt(x), VInt(y)) == Truth(x != y)
    ensures Apply(cpu, Cmp(Lt), VInt(x), VInt(y)) == Truth(x < y)
    ensures Apply(cpu, Cmp(Lte), VInt(x), VInt(y)) == Truth(x <= y)
    ensures Apply(cpu, Cmp(Gt), VInt(x), VInt(y)) == Truth(x > y)
    ensures Apply(cpu, Cmp(Gte), VInt(x), VInt(y)) == Truth(x >= y)
  {
  }

  /** Negation of an integer, which leaves -2^63 as it is, and of a truth value or character. */
  lemma Negations(cpu: Cpu, x: int, n: nat)
    requires Fits64(x)
    ensures Negate(cpu, VInt(x)) == Some(VInt(if x == -0x8000_0000_0000_0000 then x else -x))
    ensures Negate(cpu, VBool(n)) == Negate(cpu, VChar(n)) == Some(VInt(-(n as int)))
    ensures Negate(cpu, VPtr(n)) == None
  {
  }

  // ----- bits

  /** Bit k of a two's complement integer of any width. */
  function BitOf(x: int, k: nat): bool
    decreases k
  {
    if k == 0 then x % 2 == 1 else BitOf(x / 2, k - 1)
  }

  lemma {:induction false} CombinedBits(f: (bool, bool) -> bool, x: int, y: int, n: nat, k: nat)
    requires k < n
    ensures BitOf(BitByBit(f, x, y, n), k) == f(BitOf(x, k), BitOf(y, k))
    decreases k
  {
    var r, high := BitByBit(f, x, y, n), BitByBit(f, x / 2, y / 2, n - 1);
    Halves(f, x, y, n);
    hide BitByBit;
    if k > 0 {
      CombinedBits(f, x / 2, y / 2, n - 1, k - 1);
    }
  }

  lemma Halves(f: (bool, bool) -> bool, x: int, y: int, n: nat)
    requires n > 0
    ensures BitByBit(f, x, y, n) / 2 == BitByBit(f, x / 2, y / 2, n - 1)
    ensures (BitByBit(f, x, y, n) % 2 == 1) == f(x % 2 == 1, y % 2 == 1)
  {
    var high := BitByBit(f, x / 2, y / 2, n - 1);
    assert BitByBit(f, x, y, n) == 2 * high + (if f(x % 2 == 1, y % 2 == 1) then 1 else 0);
  }

  lemma {:induction false} CombinedSign(f: (bool, bool) -> bool, x: int, y: int, n: nat)
    requires 0 - Pow2(n) <= x < Pow2(n) && 0 - Pow2(n) <= y < Pow2(n)
    ensures 0 - Pow2(n) <= BitByBit(f, x, y, n) < Pow2(n)
    ensures BitByBit(f, x, y, n) < 0 <==> f(x < 0, y < 0)
    decreases n
  {
    if n > 0 {
      CombinedSign(f, x / 2, y / 2, n - 1);
    }
  }

  /** r is the 64-bit integer whose bits and sign are those of x and y combined. */
  ghost predicate Bitwise64(f: (bool, bool) -> bool, x: int, y: int, r: int) {
    Fits64(r) && (r < 0 <==> f(x < 0, y < 0)) && forall k: nat :: k < 63 ==> BitOf(r, k) == f(BitOf(x, k), BitOf(y, k))
  }

  lemma Combined64(f: (bool, bool) -> bool, x: int, y: int)
    requires Fits64(x) && Fits64(y)
    ensures Bitwise64(f, x, y, BitByBit(f, x, y, 63))
  {
    hide BitByBit, BitOf;
    Power63();
    CombinedSign(f, x, y, 63);
    forall k: nat | k < 63 ensures BitOf(BitByBit(f, x, y, 63), k) == f(BitOf(x, k), BitOf(y, k)) {
      CombinedBits(f, x, y, 63, k);
    }
  }

  lemma Power63()
    ensures Pow2(63) == 0x8000_0000_0000_0000
  {
    Power(8);
    Power(16);
    Power(24);
    Power(32);
    Power(40);
    Power(48);
    Power(56);
    assert Pow2(63) == 128 * Pow2(56);
  }

  lemma Power(n: nat)
    requires n >= 8
    ensures Pow2(n) == 256 * Pow2(n - 8)
  {
    assert Pow2(n) == 2 * Pow2(n - 1) && Pow2(n - 1) == 2 * Pow2(n - 2) && Pow2(n - 2) == 2 * Pow2(n - 3) && Pow2(n - 3) == 2 * Pow2(n - 4);
    assert Pow2(n - 4) == 2 * Pow2(n - 5) && Pow2(n - 5) == 2 * Pow2(n - 6) && Pow2(n - 6) == 2 * Pow2(n - 7) && Pow2(n - 7) == 2 * Pow2(n - 8);
  }

  /** The logical operations on bits, for all pairs of 64-bit integers. */
  lemma Masks(cpu: Cpu, x: int, y: int) returns (a: int, o: int, e: int)
    requires Fits64(x) && Fits64(y)
    ensures Apply(cpu, Bit(And64), VInt(x), VInt(y)) == Some(VInt(a)) && Bitwise64((p: bool, q: bool) => p && q, x, y, a)
    ensures Apply(cpu, Bit(Or64), VInt(x), VInt(y)) == Some(VInt(o)) && Bitwise64((p: bool, q: bool) => p || q, x, y, o)
    ensures Apply(cpu, Bit(Xor64), VInt(x), VInt(y)) == Some(VInt(e)) && Bitwise64((p: bool, q: bool) => p != q, x, y, e)
  {
    hide BitByBit, Bitwise64, Fits64;
    var f, g, h := (p: bool, q: bool) => p && q, (p: bool, q: bool) => p || q, (p: bool, q: bool) => p != q;
    a, o, e := BitByBit(f, x, y, 63), BitByBit(g, x, y, 63), BitByBit(h, x, y, 63);
    Combined64(f, x, y);
    Combined64(g, x, y);
    Combined64(h, x, y);
  }

  /** Bits and sign determine a number. */
  lemma {:induction false} SameBits(x: int, y: int, n: nat)
    requires 0 - Pow2(n) <= x < Pow2(n) && 0 - Pow2(n) <= y < Pow2(n) && (x < 0 <==> y < 0)
    requires forall k: nat :: k < n ==> BitOf(x, k) == BitOf(y, k)
    ensures x == y
    decreases n
  {
    if n > 0 {
      assert BitOf(x, 0) == BitOf(y, 0);
      forall k: nat | k < n - 1 ensures BitOf(x / 2, k) == BitOf(y / 2, k) {
        assert BitOf(x, k + 1) == BitOf(y, k + 1);
      }
      SameBits(x / 2, y / 2, n - 1);
    }
  }

  // ----- shifts

  /** The 64-bit integer that differs from x by a multiple of 2^64. */
  ghost predicate Wraps(x: int, r: int) { Fits64(r) && (r - x) % 0x1_0000_0000_0000_0000 == 0 }

  /** A shift by 0 to 63 places, and no other, is done: left by doubling that often, losing what leaves the
      word, and right by halving that often, rounding down. */
  lemma Shifts(cpu: Cpu, x: int, y: int) returns (l: int, r: int)
    requires Fits64(x)
    ensures y < 0 || y > 63 ==>
      Apply(cpu, Bit(Shl), VInt(x), VInt(y)) == None && Apply(cpu, Bit(Shr), VInt(x), VInt(y)) == None
    ensures 0 <= y <= 63 ==>
      && Apply(cpu, Bit(Shl), VInt(x), VInt(y)) == Some(VInt(l)) && Apply(cpu, Bit(Shr), VInt(x), VInt(y)) == Some(VInt(r))
      && Wraps(Doubled(x, y), l) && r == Halved(x, y)
  {
    l, r := 0, 0;
    if 0 <= y <= 63 {
      l, r := Wrap64(x * Pow2(y)), x / Pow2(y);
      DoubledIs(x, y);
      HalvedIs(x, y);
      WrapIs(x * Pow2(y));
    }
  }

  function Doubled(x: int, n: nat): int
    decreases n
  {
    if n == 0 then x else 2 * Doubled(x, n - 1)
  }

  function Halved(x: int, n: nat): int
    decreases n
  {
    if n == 0 then x else Halved(x, n - 1) / 2
  }

  lemma {:induction false} DoubledIs(x: int, n: nat)
    ensures Doubled(x, n) == x * Pow2(n)
    decreases n
  {
    if n > 0 {
      DoubledIs(x, n - 1);
      assert x * (2 * Pow2(n - 1)) == 2 * (x * Pow2(n - 1));
    }
  }

  lemma {:induction false} HalvedIs(x: int, n: nat)
    ensures Halved(x, n) == x / Pow2(n)
    decreases n
  {
    if n > 0 {
      HalvedIs(x, n - 1);
      HalfOf(x, Pow2(n - 1));
    }
  }

  lemma HalfOf(x: int, p: nat)
    requires p > 0
    ensures x / p / 2 == x / (2 * p)
  {
    var q := x / p;
    var s, t := q / 2, q % 2;
    PartsOf(x, p);
    PartsOf(x, 2 * p);
    Distributes(2 * s, -t, p);
    var u := x / (2 * p);
    var low := t * p + x % p;
    assert low >= 0 && low < 2 * p;
    assert x == s * (2 * p) + low;
    OnePart(s, low, u, x % (2 * p), 2 * p);
  }

  lemma PartsOf(x: int, p: int)
    requires p > 0
    ensures x == x / p * p + x % p && 0 <= x % p < p
  {
  }

  lemma OnePart(s: int, low: int, u: int, rest: int, p: int)
    requires s * p + low == u * p + rest && 0 <= low < p && 0 <= rest < p
    ensures s == u
  {
    Distributes(s, u, p);
    AbsTimes(s - u, p);
    Positive(Abs(s - u), p);
  }

  lemma WrapIs(x: int)
    ensures Wraps(x, Wrap64(x))
  {
  }

  // ----- operands of other types

  /** Integers, characters and truth values. */
  predicate Whole(v: Value) {
    match v
    case VInt(i) => Fits64(i)
    case VChar(c) => c <= 0xFFFF_FFFF
    case VBool(b) => b <= 1
    case _ => false
  }

  function IntOf(v: Value): int
    requires Whole(v)
  {
    match v case VInt(i) => i case VChar(c) => c case VBool(b) => b
  }

  /** Next to an integer, characters and truth values act as the integers they stand for, whatever the
      operation. */
  lemma ActAsIntegers(cpu: Cpu, op: BinOp, a: Value, b: Value)
    requires Whole(a) && Whole(b) && (a.VInt? || b.VInt?)
    ensures Apply(cpu, op, a, b) == Apply(cpu, op, VInt(IntOf(a)), VInt(IntOf(b)))
  {
    hide BitByBit, Pow2, TruncDiv, TruncMod, Wrap64;
  }

  /** Among themselves they are not added, multiplied, divided or compared; bits, shifts and logic take
      them as integers. */
  lemma NoIntegerAmong(cpu: Cpu, op: BinOp, a: Value, b: Value)
    requires Whole(a) && Whole(b) && !a.VInt? && !b.VInt?
    ensures Apply(cpu, op, a, b) == if op.Ar? || op.Rem? || op.Cmp? then None else Apply(cpu, op, VInt(IntOf(a)), VInt(IntOf(b)))
  {
    hide BitByBit, Pow2, TruncDiv, TruncMod, Wrap64;
  }

  /** Addresses and integers add and subtract modulo 2^64, are neither multiplied nor divided, and compare
      as signed integers. */
  lemma Addresses64(cpu: Cpu, p: nat, i: int)
    requires p <= 0xFFFF_FFFF_FFFF_FFFF && Fits64(i)
    ensures Apply(cpu, Ar(Plus), VPtr(p), VInt(i)) == Some(VPtr((p + i) % 0x1_0000_0000_0000_0000))
    ensures Apply(cpu, Ar(Minus), VPtr(p), VInt(i)) == Some(VPtr((p - i) % 0x1_0000_0000_0000_0000))
    ensures Apply(cpu, Ar(Times), VPtr(p), VInt(i)) == Apply(cpu, Ar(Over), VPtr(p), VInt(i)) == Apply(cpu, Rem, VPtr(p), VInt(i)) == None
    ensures p <= 0x7FFF_FFFF_FFFF_FFFF ==> Apply(cpu, Cmp(Lt), VPtr(p), VInt(i)) == Truth(p < i)
    ensures p > 0x7FFF_FFFF_FFFF_FFFF ==> Apply(cpu, Cmp(Lt), VPtr(p), VInt(i)) == Truth(p - 0x1_0000_0000_0000_0000 < i)
  {
    hide Wrap64;
    WrapAddress(p);
    OneRound(p + i);
    OneRound(p - i);
  }

  lemma WrapAddress(p: nat)
    requires p <= 0xFFFF_FFFF_FFFF_FFFF
    ensures Wrap64(p) == if p <= 0x7FFF_FFFF_FFFF_FFFF then p else p - 0x1_0000_0000_0000_0000
  {
  }

  lemma OneRound(z: int)
    ensures (z - 0x1_0000_0000_0000_0000) % 0x1_0000_0000_0000_0000 == z % 0x1_0000_0000_0000_0000
  {
  }

  /** With a double on either side and no address, both become doubles, and the processor's operation of
      that name is applied to them, left operand first. */
  lemma Doubles(cpu: Cpu, op: ArithOp, x: nat, y: nat, v: Value)
    requires Whole(v)
    ensures Apply(cpu, Ar(op), VDouble(x), VDouble(y)) == Some(VDouble(cpu.f64Op(op, x, y)))
    ensures Apply(cpu, Ar(op), VDouble(x), v) == Some(VDouble(cpu.f64Op(op, x, AsDouble(cpu, v))))
    ensures Apply(cpu, Ar(op), v, VDouble(y)) == Some(VDouble(cpu.f64Op(op, AsDouble(cpu, v), y)))
    ensures Apply(cpu, Cmp(Lt), VDouble(x), VDouble(y)) == Truth(cpu.f64Lt(x, y))
    ensures Apply(cpu, Cmp(Gt), VDouble(x), VDouble(y)) == Truth(!cpu.f64Lt(x, y) && cpu.f64Lt(y, x))
    ensures Apply(cpu, Cmp(Eq), VDouble(x), VDouble(y)) == Truth(!cpu.f64Lt(x, y) && !cpu.f64Lt(y, x))
  {
  }

  function AsDouble(cpu: Cpu, v: Value): nat
    requires Whole(v)
  {
    if v.VInt? then cpu.i64ToF64(v.i) else cpu.u64ToF64(IntOf(v))
  }

  // ----- logic

  /** What counts as false: zero. */
  predicate IsTrue(cpu: Cpu, v: Value)
    requires Whole(v)
  {
    IntOf(v) != 0
  }

  /** Conjunction and disjunction of integers, and of trees: the right operand is not evaluated when the
      left one decides, and the result is a truth value. */
  lemma Logic(cpu: Cpu, l: Expr, r: Expr, s: Store, a: Value, b: Value)
    requires Whole(a) && Whole(b) && Eval(cpu, l, s) == Some(a)
    ensures Apply(cpu, LAnd, a, b) == Truth(IsTrue(cpu, a) && IsTrue(cpu, b))
    ensures Apply(cpu, LOr, a, b) == Truth(IsTrue(cpu, a) || IsTrue(cpu, b))
    ensures !IsTrue(cpu, a) ==> Eval(cpu, Bin(LAnd, l, r), s) == Truth(false)
    ensures IsTrue(cpu, a) ==> Eval(cpu, Bin(LOr, l, r), s) == Truth(true)
    ensures Eval(cpu, r, s) == Some(b) ==>
      && Eval(cpu, Bin(LAnd, l, r), s) == Truth(IsTrue(cpu, a) && IsTrue(cpu, b))
      && Eval(cpu, Bin(LOr, l, r), s) == Truth(IsTrue(cpu, a) || IsTrue(cpu, b))
  {
  }

  // ----- conversions

  /** A variable declared with a type takes values of that type, and of these others. */
  lemma AssignableTypes(d: Ty, a: Ty)
    ensures Assignable(d, a) <==>
      || d == a || d == TUnknown
      || (d == TInt && (a == TChar || a == TBool))
      || (d == TDouble && (a == TInt || a == TFloat || a == TChar || a == TBool))
      || (d == TFloat && (a == TInt || a == TChar || a == TBool))
      || ((d == TBool || d == TChar || d == TPtr) && a == TInt)
  {
  }

  /** Conversions between whole types: to an integer the same number, to a character its low 32 bits, to a
      truth value whether it is not zero, to an address its low 64 bits. */
  lemma Conversions(cpu: Cpu, v: Value)
    requires Whole(v)
    ensures Coerce(cpu, v, TInt) == Some(VInt(IntOf(v)))
    ensures Coerce(cpu, v, TBool) == Truth(IntOf(v) != 0)
    ensures v.VInt? ==> Coerce(cpu, v, TChar) == Some(VChar(v.i % 0x1_0000_0000))
    ensures Coerce(cpu, v, TPtr) == Some(VPtr(IntOf(v) % 0x1_0000_0000_0000_0000))
    ensures Coerce(cpu, v, TDouble) == Some(VDouble(AsDouble(cpu, v)))
  {
  }

  // ----- variables

  /** A local of the running function hides the context's variable of that name, in reading and not in
      writing: an assignment goes to the context, leaves all locals and all other names as they were, and
      keeps a declared type, to which the value is converted if the type takes it at all. */
  lemma Assignments(cpu: Cpu, s: Store, n: Name, v: Value, other: Name)
    requires n != []
    ensures n in s.locals ==> Get(s, n) == Some(s.locals[n])
    ensures n !in s.locals && n in s.vars ==> Get(s, n) == Some(s.vars[n].value)
    ensures n !in s.locals && n !in s.vars ==> Get(s, n) == None
    ensures var t := if n in s.vars then s.vars[n].declared else TUnknown;
      var w := if !Assignable(t, TypeOf(v)) then None else Coerce(cpu, v, t);
      && Set(cpu, s, n, v).Some? == w.Some?
      && (w.Some? ==>
            var s' := Set(cpu, s, n, v).value;
            && s'.locals == s.locals && n in s'.vars && s'.vars[n] == Slot(t, w.value)
            && Get(s', n) == (if n in s.locals then Get(s, n) else w)
            && (other != n ==> Get(s', other) == Get(s, other)))
  {
    hide Coerce, Assignable;
    CoerceUnknown(cpu, v);
  }

  lemma CoerceUnknown(cpu: Cpu, v: Value)
    ensures Coerce(cpu, v, TUnknown) == Some(v) && Assignable(TUnknown, TypeOf(v))
  {
  }

  /** A declaration converts to the type declared and remembers it; its value is that of the variable. */
  lemma Declarations(cpu: Cpu, s: Store, n: Name, t: Ty, v: Value, other: Name)
    requires n != [] && t != TUnknown
    ensures Declare(cpu, s, n, t, v).Some? == (Assignable(t, TypeOf(v)) && Coerce(cpu, v, t).Some?)
    ensures Declare(cpu, s, n, t, v).Some? ==>
      var (s', w) := Declare(cpu, s, n, t, v).value;
      && Some(w) == Coerce(cpu, v, t) && s'.locals == s.locals && n in s'.vars && s'.vars[n] == Slot(t, w)
      && (n !in s.locals ==> Get(s', n) == Some(w))
      && (other != n ==> Get(s', other) == Get(s, other))
  {
    hide Coerce, Assignable;
  }

  // ----- compiled

  /** The code of an operation on two integer variables leaves what the operation gives on their values,
      if those and the result can be carried. */
  lemma CompiledOperation(env: Env, op: BinOp, a: Name, b: Name, x: int, y: int, na: int, ends: Ends, m: State) returns (m1: State)
    requires Ieee(env.cpu) && AddrOk(env.addr) && NameOk(a) && NameOk(b) && |m.slots| == JIT_MAX_DEPTH
    requires NamesAt(env, GenE(env.cpu, Bin(op, Var(a), Var(b)), 0), na)
    requires Get(m.store, a) == Some(VInt(x)) && Get(m.store, b) == Some(VInt(y)) && Carried(VInt(x)) && Carried(VInt(y))
    requires Apply(env.cpu, op, VInt(x), VInt(y)).Some? && Carried(Apply(env.cpu, op, VInt(x), VInt(y)).value)
    ensures Straight(env, GenE(env.cpu, Bin(op, Var(a), Var(b)), 0), na, ends, m) == Some(m1)
    ensures m1.store == m.store && Unbox(env.cpu, m1.regs) == Apply(env.cpu, op, VInt(x), VInt(y))
  {
    hide Ieee, AddrOk, NameOk, NamesAt, GenE, Straight, Unbox, Carried, Arith, Modulo, Bitwise, Compare, Size;
    var e := Bin(op, Var(a), Var(b));
    assert Eval(env.cpu, Var(a), m.store) == Some(VInt(x)) && Eval(env.cpu, Var(b), m.store) == Some(VInt(y));
    assert CarriedE(env.cpu, Var(a), m.store) && CarriedE(env.cpu, Var(b), m.store);
    BothEvaluate(env.cpu, op, Var(a), Var(b), m.store);
    assert AcceptsE(Var(a), 0) && AcceptsE(Var(b), 1);
    m1 := ExprAgrees(env, e, 0, na, ends, m);
  }

  /** The compiled product of two variables is their product, and so for sum and difference, as long as
      all three numbers have a magnitude of at most 2^53. */
  lemma CompiledProduct(env: Env, op: ArithOp, a: Name, b: Name, x: int, y: int, na: int, ends: Ends, m: State) returns (m1: State)
    requires Ieee(env.cpu) && AddrOk(env.addr) && NameOk(a) && NameOk(b) && |m.slots| == JIT_MAX_DEPTH && op != Over
    requires NamesAt(env, GenE(env.cpu, Bin(Ar(op), Var(a), Var(b)), 0), na)
    requires Get(m.store, a) == Some(VInt(x)) && Get(m.store, b) == Some(VInt(y))
    requires Small(x) && Small(y) && Small(match op case Plus => x + y case Minus => x - y case _ => x * y)
    ensures Straight(env, GenE(env.cpu, Bin(Ar(op), Var(a), Var(b)), 0), na, ends, m) == Some(m1)
    ensures op == Plus ==> Unbox(env.cpu, m1.regs) == Some(VInt(x + y))
    ensures op == Minus ==> Unbox(env.cpu, m1.regs) == Some(VInt(x - y))
    ensures op == Times ==> Unbox(env.cpu, m1.regs) == Some(VInt(x * y))
  {
    hide Ieee, AddrOk, NameOk, NamesAt, GenE, Straight, Unbox, Carried, Apply;
    SmallCarried(VInt(x));
    SmallCarried(VInt(y));
    Sums(env.cpu, x, y);
    var z := match op case Plus => x + y case Minus => x - y case _ => x * y;
    SmallCarried(VInt(z));
    m1 := CompiledOperation(env, Ar(op), a, b, x, y, na, ends, m);
  }

  /** Division and remainder of two variables, compiled, divide. */
  lemma CompiledQuotient(env: Env, op: BinOp, a: Name, b: Name, x: int, y: int, na: int, ends: Ends, m: State) returns (m1: State, q: int, r: int)
    requires Ieee(env.cpu) && AddrOk(env.addr) && NameOk(a) && NameOk(b) && |m.slots| == JIT_MAX_DEPTH && (op == Ar(Over) || op == Rem)
    requires NamesAt(env, GenE(env.cpu, Bin(op, Var(a), Var(b)), 0), na)
    requires Get(m.store, a) == Some(VInt(x)) && Get(m.store, b) == Some(VInt(y)) && Small(x) && Small(y) && y != 0
    ensures Straight(env, GenE(env.cpu, Bin(op, Var(a), Var(b)), 0), na, ends, m) == Some(m1)
    ensures Divides(x, y, q, r) && Unbox(env.cpu, m1.regs) == Some(VInt(if op == Rem then r else q))
  {
    hide Ieee, AddrOk, NameOk, NamesAt, GenE, Straight, Unbox, Carried, Apply, Divides;
    SmallCarried(VInt(x));
    SmallCarried(VInt(y));
    q, r := Quotients(env.cpu, x, y);
    SmallQuotient(x, y, q, r);
    SmallCarried(VInt(q));
    SmallCarried(VInt(r));
    m1 := CompiledOperation(env, op, a, b, x, y, na, ends, m);
  }

  /** A number of magnitude up to 2^53. */
  predicate Small(x: int) { -0x20_0000_0000_0000 <= x <= 0x20_0000_0000_0000 }

  lemma SmallQuotient(x: int, y: int, q: int, r: int)
    requires Small(x) && y != 0 && Divides(x, y, q, r)
    ensures Small(q) && Small(r)
  {
    AbsTimes(q, y);
    Positive(Abs(q), Abs(y));
  }

  // ----- constants in the format of IEEE 754

  /** The 64 bits are those of the fraction p/q, negative or not: section 3.4 of IEEE 754-2008, for
      numbers whose exponent is not at an end of its range. */
  predicate IsBinary64(bits: nat, negative: bool, p: nat, q: nat) {
    var e, m := bits / 0x10_0000_0000_0000 % 2048, bits % 0x10_0000_0000_0000 + 0x10_0000_0000_0000;
    && (bits / 0x8000_0000_0000_0000 == if negative then 1 else 0) && 0 < e < 2047
    && if e <= 1075 then m * q == p * Pow2(1075 - e) else m * Pow2(e - 1075) * q == p
  }

  lemma Power49()
    ensures Pow2(49) == 0x2_0000_0000_0000 && Pow2(53) == 0x20_0000_0000_0000 && Pow2(11) == 2048
  {
    Power(8);
    Power(9);
    Power(17);
    Power(25);
    Power(33);
    Power(41);
    Power(49);
    Power(11);
    assert Pow2(53) == 2 * Pow2(52) && Pow2(52) == 2 * Pow2(51) && Pow2(51) == 2 * Pow2(50) && Pow2(50) == 2 * Pow2(49);
  }

  lemma TenIs()
    ensures IsBinary64(0x4024_0000_0000_0000, false, 10, 1)
  {
    hide Pow2;
    Power49();
    assert 0x4024_0000_0000_0000 / 0x10_0000_0000_0000 == 1026 && 0x4024_0000_0000_0000 % 0x10_0000_0000_0000 == 0x4_0000_0000_0000;
  }

  lemma EndsAre()
    ensures IsBinary64(0x43E0_0000_0000_0000, false, 0x8000_0000_0000_0000, 1)
    ensures IsBinary64(0xC3E0_0000_0000_0000, true, 0x8000_0000_0000_0000, 1)
  {
    hide Pow2;
    Power49();
    assert 0x43E0_0000_0000_0000 / 0x10_0000_0000_0000 == 1086 && 0x43E0_0000_0000_0000 % 0x10_0000_0000_0000 == 0;
    assert 0xC3E0_0000_0000_0000 / 0x10_0000_0000_0000 == 3134 && 0xC3E0_0000_0000_0000 % 0x10_0000_0000_0000 == 0;
  }

  lemma HalfIs()
    ensures IsBinary64(0x3FE0_0000_0000_0000, false, 1, 2)
  {
    hide Pow2;
    Power49();
    assert 0x3FE0_0000_0000_0000 / 0x10_0000_0000_0000 == 1022 && 0x3FE0_0000_0000_0000 % 0x10_0000_0000_0000 == 0;
  }

  /** The constants of the model that are doubles: ten, both ends of the 64-bit integers, and one half. */
  lemma Constants()
    ensures IsBinary64(MathTrees.F64_TEN, false, 10, 1)
    ensures IsBinary64(F64_2_63, false, 0x8000_0000_0000_0000, 1) && IsBinary64(F64_MINUS_2_63, true, 0x8000_0000_0000_0000, 1)
    ensures IsBinary64(HALF, false, 1, 2)
  {
    hide IsBinary64;
    TenIs();
    EndsAre();
    HalfIs();
  }

  /** A literal with two digits behind the point is its whole part plus the first digit over ten plus the
      second over ten times ten, added up in that order. */
  lemma TwoPlaces(cpu: Cpu, w: int, d: nat, e: nat)
    ensures var ten := 0x4024_0000_0000_0000;
      MathTrees.Build(cpu, MathSyntax.Frac(w, [d, e])) ==
      MathTrees.NodeNum(cpu.f64Op(Plus, cpu.i64ToF64(w),
        cpu.f64Op(Plus, cpu.f64Op(Plus, 0, cpu.f64Op(Over, cpu.i64ToF64(d), ten)),
                  cpu.f64Op(Over, cpu.i64ToF64(e), cpu.f64Op(Times, ten, ten)))))
  {
    assert [d, e][..1] == [d] && [d][..0] == [];
    assert MathTrees.Fraction(cpu, [d]) == cpu.f64Op(Plus, 0, cpu.f64Op(Over, cpu.i64ToF64(d), MathTrees.F64_TEN));
  }

  /** A literal is an integer when it lies from -2^63 to below 2^63 and converting it there and back leaves
      it; otherwise it stays the double it is. */
  lemma Literals(cpu: Cpu, d: nat)
    ensures Literal(cpu, d).VInt? <==>
      && (cpu.f64Lt(0xC3E0_0000_0000_0000, d) || cpu.f64Eq(0xC3E0_0000_0000_0000, d)) && cpu.f64Lt(d, 0x43E0_0000_0000_0000)
      && cpu.f64Eq(d, cpu.i64ToF64(cpu.f64ToI64(d)))
    ensures Literal(cpu, d) == VInt(cpu.f64ToI64(d)) || Literal(cpu, d) == VDouble(d)
  {
  }

  /** The numbers of the types, which compiled code carries in its type register and writes into
      declarations. */
  lemma TypeNumbers(cpu: Cpu, v: Value)
    ensures Box(cpu, v).ty == match v case VInt(_) => 1 case VFloat(_) => 2 case VDouble(_) => 3 case VChar(_) => 4 case VBool(_) => 6 case VPtr(_) => 7
    ensures TyOfCode(Box(cpu, v).ty) == TypeOf(v)
  {
  }
}
