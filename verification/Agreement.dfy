/** Where compiled code and the interpreter agree, and the two kinds of program on which they do not. */
module Agreement {
  import opened Options
  import opened Values
  import opened Language
  import opened Processor
  import opened MachineCode
  import opened Machine
  import opened CodeGen
  import opened ExprCorrect
  import opened StmtCorrect

  /** For every call-free numeric tree the compiler accepts at depth d, if all its subtrees evaluate
      to values a double can carry -- whole numbers up to 2^53 among them -- the code leaves exactly
      the interpreter's value and type in the registers and changes neither the store nor any slot
      below d. */
  lemma ExprAgrees(env: Env, e: Expr, d: nat, na: int, ends: Ends, m: State) returns (m1: State)
    requires Ieee(env.cpu) && AddrOk(env.addr) && AcceptsE(e, d) && |m.slots| == JIT_MAX_DEPTH
    requires NamesAt(env, GenE(env.cpu, e, d), na) && CarriedE(env.cpu, e, m.store)
    ensures Straight(env, GenE(env.cpu, e, d), na, ends, m) == Some(m1)
    ensures Eval(env.cpu, e, m.store).Some? && Unbox(env.cpu, m1.regs) == Eval(env.cpu, e, m.store)
    ensures Keeps(m, m1, d, Size(GenE(env.cpu, e, d)))
  {
    hide Ieee, AddrOk, NamesAt, GenE, Straight, ResultCell, Unbox, StrictEval, Eval, AcceptsE;
    StrictExact(env.cpu, e, m.store);
    var v := StrictEval(env.cpu, e, m.store).value;
    m1 := ExprStraight(env, e, d, na, ends, m, v);
    CellUnboxes(env.cpu, e, m.store, v);
  }

  /** Reading a variable through compiled code is exact if and only if a double can carry its value. */
  lemma VariableReadExact(env: Env, n: Name, v: Value, na: int, ends: Ends, m: State) returns (m1: State)
    requires Ieee(env.cpu) && AddrOk(env.addr) && NamesAt(env, GenE(env.cpu, Var(n), 0), na) && Get(m.store, n) == Some(v)
    ensures Straight(env, GenE(env.cpu, Var(n), 0), na, ends, m) == Some(m1)
    ensures Unbox(env.cpu, m1.regs) == Eval(env.cpu, Var(n), m.store) <==> Carried(v)
  {
    hide Ieee, AddrOk, NamesAt, Box, Unbox, GenE, Carried;
    m1 := VarRuns(env, n, v, 0, na, ends, m);
    FitsExact(env.cpu, v);
  }

  /** A variable holding 2^53 + 1 is read wrongly on every such processor. */
  lemma BigIntegerMisread(env: Env, n: Name, na: int, ends: Ends, m: State) returns (m1: State)
    requires Ieee(env.cpu) && AddrOk(env.addr) && NamesAt(env, GenE(env.cpu, Var(n), 0), na)
    requires Get(m.store, n) == Some(VInt(EXACT_LIMIT + 1))
    ensures Straight(env, GenE(env.cpu, Var(n), 0), na, ends, m) == Some(m1)
    ensures Eval(env.cpu, Var(n), m.store) == Some(VInt(EXACT_LIMIT + 1))
    ensures Unbox(env.cpu, m1.regs) != Some(VInt(EXACT_LIMIT + 1))
  {
    hide Ieee, AddrOk, NamesAt, Unbox, GenE, Straight;
    m1 := VariableReadExact(env, n, VInt(EXACT_LIMIT + 1), na, ends, m);
    assert OddPart(EXACT_LIMIT + 1) == EXACT_LIMIT + 1;
  }

  /** A compiled function ends as the interpreter's run of its body ends, if along that run every
      expression's values can be carried and every condition is a number. */
  lemma FunctionAgrees(cpu: Cpu, b: Block, addr: Symbol -> nat, s: Store, m0: State, fuel: nat) returns (n: nat, m1: State)
    requires Ieee(cpu) && AcceptsB(b, 0) && AddrOk(addr) && NamesOk(Body(cpu, b)) && |FunctionBytes(cpu, b, addr)| < 0x8000_0000
    requires Entry(m0, s) && CarriedB(cpu, b, s, fuel) && ExecB(cpu, Interpreted, b, s, fuel) != Failed
    ensures Run(Env(cpu, addr, FunctionBytes(cpu, b, addr)), m0, n) == Some(m1)
    ensures EndsAs(cpu, ExecB(cpu, Interpreted, b, s, fuel), n, m1, fuel)
  {
    hide Ieee, AcceptsB, AddrOk, NamesOk, FunctionBytes, ExecB, CarriedB, Run, Unbox, GenB;
    CheckedExact(cpu, b, s, fuel);
    n, m1 := FunctionRuns(cpu, b, addr, s, m0, fuel);
  }

  /** A program the interpreter would run for ever has a compiled form that never halts and is never
      stuck. */
  lemma DivergenceAgrees(cpu: Cpu, b: Block, addr: Symbol -> nat, s: Store, m0: State, k: nat)
    requires Ieee(cpu) && AcceptsB(b, 0) && AddrOk(addr) && NamesOk(Body(cpu, b)) && |FunctionBytes(cpu, b, addr)| < 0x8000_0000
    requires Entry(m0, s)
    requires forall fuel: nat :: CarriedB(cpu, b, s, fuel) && ExecB(cpu, Interpreted, b, s, fuel) == OutOfFuel
    ensures Run(Env(cpu, addr, FunctionBytes(cpu, b, addr)), m0, k).Some?
    ensures !Run(Env(cpu, addr, FunctionBytes(cpu, b, addr)), m0, k).value.halted
  {
    hide Ieee, AcceptsB, AddrOk, NamesOk, FunctionBytes, ExecB, CarriedB, Run, GenB;
    forall fuel: nat ensures ExecB(cpu, Coded, b, s, fuel) == OutOfFuel {
      assert CarriedB(cpu, b, s, fuel) && ExecB(cpu, Interpreted, b, s, fuel) == OutOfFuel;
      CheckedExact(cpu, b, s, fuel);
    }
    DivergenceKept(cpu, b, addr, s, m0, k);
  }

  // ----- a condition that is not a number

  const HALF: nat := 0x3FE0_0000_0000_0000

  /** 0.5 is neither whole nor zero, 0.5 - 0.5 is zero, and zero over zero is not a number. */
  ghost predicate HalfFacts(cpu: Cpu) {
    && cpu.f64ToI64(HALF) == 0 && !cpu.f64Eq(HALF, 0)
    && cpu.f64Op(Minus, HALF, HALF) == 0 && cpu.f64IsNan(cpu.f64Op(Over, 0, 0))
  }

  function Zero(): Expr { Bin(Ar(Minus), Num(HALF), Num(HALF)) }

  /** (0.5 - 0.5) / (0.5 - 0.5) */
  function ZeroOverZero(): Expr { Bin(Ar(Over), Zero(), Zero()) }

  /** Returns 0.5 if the condition holds, and zero otherwise. */
  function NanProgram(): Block {
    Cons(IfElse(ZeroOverZero(), Cons(Return(Num(HALF)), Nil), Cons(Return(Zero()), Nil)), Nil)
  }

  lemma HalfIsDouble(cpu: Cpu)
    requires Ieee(cpu) && HalfFacts(cpu)
    ensures Literal(cpu, HALF) == VDouble(HALF)
  {
    hide RoundTrips, Bounded, InRange;
    assert cpu.f64Eq(cpu.i64ToF64(0), 0);
    if cpu.f64Eq(HALF, cpu.i64ToF64(0)) {
      assert false;
    }
  }

  lemma ZeroValue(cpu: Cpu, s: Store)
    requires Ieee(cpu) && HalfFacts(cpu)
    ensures Eval(cpu, Zero(), s) == StrictEval(cpu, Zero(), s) == Some(VDouble(0))
    ensures Eval(cpu, ZeroOverZero(), s) == StrictEval(cpu, ZeroOverZero(), s) == Some(VDouble(cpu.f64Op(Over, 0, 0)))
  {
    hide Ieee, Literal;
    HalfIsDouble(cpu);
    assert Eval(cpu, Num(HALF), s) == StrictEval(cpu, Num(HALF), s) == Some(VDouble(HALF));
  }

  lemma NanBranches(cpu: Cpu, s: Store, fuel: nat)
    requires Ieee(cpu) && HalfFacts(cpu)
    ensures ExecB(cpu, Interpreted, NanProgram(), s, fuel) == Returned(s, Some(VDouble(HALF)))
    ensures ExecB(cpu, Coded, NanProgram(), s, fuel) == Returned(s, Some(VDouble(0)))
  {
    hide Literal, ZeroKept, InRange, RoundTrips, Bounded, Eval, StrictEval;
    HalfIsDouble(cpu);
    ZeroValue(cpu, s);
    HalfValue(cpu, s);
    var c := ZeroOverZero();
    assert TruthOf(cpu, Interpreted, c, s) == Some(true);
    assert TruthOf(cpu, Coded, c, s) == Some(false);
    assert ExecS(cpu, Interpreted, Return(Num(HALF)), s, fuel) == Returned(s, Some(VDouble(HALF)));
    assert ExecS(cpu, Coded, Return(Zero()), s, fuel) == Returned(s, Some(VDouble(0)));
    assert ExecB(cpu, Interpreted, Cons(Return(Num(HALF)), Nil), s, fuel) == Returned(s, Some(VDouble(HALF)));
    assert ExecB(cpu, Coded, Cons(Return(Zero()), Nil), s, fuel) == Returned(s, Some(VDouble(0)));
  }

  lemma HalfValue(cpu: Cpu, s: Store)
    ensures Eval(cpu, Num(HALF), s) == Some(Literal(cpu, HALF))
  {
  }

  // ----- short code

  lemma {:induction false} SizeBound(c: Code)
    ensures Size(c) <= 23 * |c|
  {
    if c != [] { SizeBound(c[1..]); }
  }

  predicate ShortNames(c: Code) { forall k :: 0 <= k < |c| && c[k].LeaName? ==> |c[k].n| < 100 }

  lemma {:induction false} BlobBound(c: Code)
    requires ShortNames(c)
    ensures BlobLen(c) <= 100 * |c|
  {
    if c != [] { BlobBound(c[1..]); }
  }

  /** A body of up to a hundred items with short names is far below the 2 GB displacements reach. */
  lemma ShortFunction(cpu: Cpu, b: Block, addr: Symbol -> nat)
    requires AcceptsB(b, 0) && |Body(cpu, b)| <= 100 && ShortNames(Body(cpu, b))
    ensures NamesOk(Body(cpu, b)) && |FunctionBytes(cpu, b, addr)| <= 20_000
  {
    hide Size, Enc, GenB, NamesOk, AcceptsB, ShortNames;
    GenNamesB(cpu, b, 0, PROLOGUE_LEN);
    var c := Body(cpu, b);
    SizeBound(c);
    BlobBound(c);
    BlobSize(c);
    EncLen(Prologue);
    EncLen(Epilogue);
    EmitSize(c, PROLOGUE_LEN, NamesStart(c), FunctionEnds(c), addr);
  }

  lemma ZeroCode(cpu: Cpu, d: nat)
    ensures |GenE(cpu, Zero(), d)| == 15 && ShortNames(GenE(cpu, Zero(), d))
    ensures |GenE(cpu, Num(HALF), d)| == 3 && ShortNames(GenE(cpu, Num(HALF), d))
  {
    hide IntLiteral;
  }

  lemma QuotientCode(cpu: Cpu, d: nat)
    ensures |GenE(cpu, ZeroOverZero(), d)| == 39 && ShortNames(GenE(cpu, ZeroOverZero(), d))
  {
    hide Zero;
    ZeroCode(cpu, d);
    ZeroCode(cpu, d + 1);
  }

  lemma NanCode(cpu: Cpu, addr: Symbol -> nat)
    ensures AcceptsB(NanProgram(), 0) && NamesOk(Body(cpu, NanProgram()))
    ensures |FunctionBytes(cpu, NanProgram(), addr)| < 0x8000_0000
  {
    hide GenB, NamesOk, AcceptsB, FunctionBytes, NanProgram, ShortNames;
    NanAccepted();
    NanBody(cpu);
    ShortFunction(cpu, NanProgram(), addr);
  }

  lemma NanAccepted()
    ensures AcceptsB(NanProgram(), 0)
  {
    assert AcceptsE(Zero(), 0) && AcceptsE(Zero(), 1);
  }

  lemma NanBody(cpu: Cpu)
    ensures |Body(cpu, NanProgram())| <= 100 && ShortNames(Body(cpu, NanProgram()))
  {
    hide Size, GenE, Zero, ZeroOverZero;
    QuotientCode(cpu, 0);
    ZeroCode(cpu, 0);
  }

  /** The program's compiled code. */
  function NanBytes(cpu: Cpu, addr: Symbol -> nat): Bytes {
    NanCode(cpu, addr);
    FunctionBytes(cpu, NanProgram(), addr)
  }

  /** On a condition that is not a number the interpreter takes the one branch and compiled code the
      other: the same program returns 0.5 interpreted and zero compiled. */
  lemma NanTakesOtherBranch(cpu: Cpu, addr: Symbol -> nat, s: Store, m0: State) returns (n: nat, m1: State)
    requires Ieee(cpu) && HalfFacts(cpu) && AddrOk(addr) && Entry(m0, s)
    ensures ExecB(cpu, Interpreted, NanProgram(), s, 0) == Returned(s, Some(VDouble(HALF)))
    ensures Run(Env(cpu, addr, NanBytes(cpu, addr)), m0, n) == Some(m1)
    ensures m1.halted && m1.store == s && Unbox(cpu, JitResult(m1)) == Some(VDouble(0))
  {
    hide Ieee, HalfFacts, AddrOk, ExecB, Run, Unbox, GenB, NamesOk, AcceptsB, FunctionBytes, NanProgram;
    NanBranches(cpu, s, 0);
    NanCode(cpu, addr);
    n, m1 := FunctionRuns(cpu, NanProgram(), addr, s, m0, 0);
  }
}
