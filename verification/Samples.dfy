/** A processor, addresses and programs that meet the conditions of the agreement theorems together. */
module Samples {
  import opened Options
  import opened Values
  import opened Language
  import opened Processor
  import opened MachineCode
  import opened Machine
  import opened CodeGen
  import opened Blocks
  import opened SourceText
  import opened ExprCorrect
  import opened StmtCorrect
  import opened Agreement
  import opened Backpatch
  import opened JitBuffers
  import opened Finishing
  import ExecFile
  import ExecLoader

  /** The machine as a function is entered, its registers and frame empty. */
  function Fresh(s: Store): State {
    State(0, EMPTY, 0, 0, false, seq(JIT_MAX_DEPTH, k => EMPTY), EMPTY, EMPTY, s, false)
  }

  /** The name x. */
  const X: Name := [0x78]

  function Holding(v: Value): Store { Store(map[], map[X := Slot(TUnknown, v)]) }

  // ----- a loop that counts down

  function Unit(cpu: Cpu): Expr { Num(cpu.i64ToF64(1)) }

  function Less(cpu: Cpu): Expr { Bin(Ar(Minus), Var(X), Unit(cpu)) }

  function TurnBody(cpu: Cpu): Block {
    Cons(IfElse(Var(X), Cons(Assign(X, Less(cpu)), Nil), Cons(Return(Var(X)), Nil)), Nil)
  }

  /** loop: if x then x = x - 1 else return x */
  function CountDown(cpu: Cpu): Block { Cons(Loop(TurnBody(cpu)), Nil) }

  lemma UnitIsOne(cpu: Cpu, s: Store)
    requires Ieee(cpu)
    ensures Eval(cpu, Unit(cpu), s) == Some(VInt(1))
  {
    hide Ieee, Literal;
    LiteralBack(cpu, 1);
    assert OddPart(1) == 1;
  }

  lemma VariableValue(cpu: Cpu, n: nat)
    requires n <= EXACT_LIMIT
    ensures Eval(cpu, Var(X), Holding(VInt(n))) == Some(VInt(n)) && Carried(VInt(n))
    ensures CarriedE(cpu, Var(X), Holding(VInt(n))) && CarriedCond(cpu, Var(X), Holding(VInt(n)))
  {
    SmallCarried(VInt(n));
    hide OddPart;
  }

  lemma LessValue(cpu: Cpu, n: nat)
    requires Ieee(cpu) && 0 < n <= EXACT_LIMIT
    ensures CarriedE(cpu, Less(cpu), Holding(VInt(n))) && Eval(cpu, Less(cpu), Holding(VInt(n))) == Some(VInt(n - 1))
  {
    hide Ieee, Exact53, Literal, CarriedCond;
    var s := Holding(VInt(n));
    UnitIsOne(cpu, s);
    VariableValue(cpu, n);
    VariableValue(cpu, n - 1);
    assert Arith(cpu, Minus, VInt(n), VInt(1)) == Some(VInt(n - 1));
    assert Eval(cpu, Less(cpu), s) == Apply(cpu, Ar(Minus), VInt(n), VInt(1)) == Some(VInt(n - 1));
  }

  lemma TurnRuns(cpu: Cpu, n: nat, fuel: nat)
    requires Ieee(cpu) && 0 < n <= EXACT_LIMIT
    ensures CarriedB(cpu, TurnBody(cpu), Holding(VInt(n)), fuel)
    ensures ExecB(cpu, Interpreted, TurnBody(cpu), Holding(VInt(n)), fuel) == Normal(Holding(VInt(n - 1)))
  {
    hide Ieee, Less, CarriedE, CarriedCond, Carried;
    LessValue(cpu, n);
    VariableValue(cpu, n);
    var s := Holding(VInt(n));
    var thn, els := Cons(Assign(X, Less(cpu)), Nil), Cons(Return(Var(X)), Nil);
    assert Eval(cpu, Var(X), s) == Some(VInt(n));
    assert s.vars[X := Slot(TUnknown, VInt(n - 1))] == Holding(VInt(n - 1)).vars;
    assert Set(cpu, s, X, VInt(n - 1)) == Some(Holding(VInt(n - 1)));
    assert ExecS(cpu, Interpreted, Assign(X, Less(cpu)), s, fuel) == Normal(Holding(VInt(n - 1)));
    assert ExecB(cpu, Interpreted, thn, s, fuel) == Normal(Holding(VInt(n - 1)));
    assert CarriedB(cpu, thn, s, fuel);
    assert CarriedS(cpu, IfElse(Var(X), thn, els), s, fuel);
  }

  lemma TurnEnds(cpu: Cpu, fuel: nat)
    requires Ieee(cpu)
    ensures CarriedB(cpu, TurnBody(cpu), Holding(VInt(0)), fuel)
    ensures ExecB(cpu, Interpreted, TurnBody(cpu), Holding(VInt(0)), fuel) == Returned(Holding(VInt(0)), Some(VInt(0)))
  {
    hide Ieee, Less, CarriedE, CarriedCond, Carried;
    VariableValue(cpu, 0);
    var s := Holding(VInt(0));
    var thn, els := Cons(Assign(X, Less(cpu)), Nil), Cons(Return(Var(X)), Nil);
    assert Eval(cpu, Var(X), s) == Some(VInt(0));
    assert ExecS(cpu, Interpreted, Return(Var(X)), s, fuel) == Returned(s, Some(VInt(0)));
    assert ExecB(cpu, Interpreted, els, s, fuel) == Returned(s, Some(VInt(0)));
    assert CarriedB(cpu, els, s, fuel);
    assert CarriedS(cpu, IfElse(Var(X), thn, els), s, fuel);
  }

  lemma {:induction false} LoopCounts(cpu: Cpu, n: nat, fuel: nat)
    requires Ieee(cpu) && n <= EXACT_LIMIT && n < fuel
    ensures CarriedS(cpu, Loop(TurnBody(cpu)), Holding(VInt(n)), fuel)
    ensures ExecS(cpu, Interpreted, Loop(TurnBody(cpu)), Holding(VInt(n)), fuel) == Returned(Holding(VInt(0)), Some(VInt(0)))
  {
    hide Ieee, TurnBody, ExecB, CarriedB;
    if n == 0 {
      TurnEnds(cpu, fuel);
    } else {
      TurnRuns(cpu, n, fuel);
      LoopCounts(cpu, n - 1, fuel - 1);
    }
  }

  lemma CountsDown(cpu: Cpu, n: nat)
    requires Ieee(cpu) && n <= EXACT_LIMIT
    ensures CarriedB(cpu, CountDown(cpu), Holding(VInt(n)), n + 1)
    ensures ExecB(cpu, Interpreted, CountDown(cpu), Holding(VInt(n)), n + 1) == Returned(Holding(VInt(0)), Some(VInt(0)))
  {
    hide Ieee, TurnBody, ExecS, CarriedS;
    LoopCounts(cpu, n, n + 1);
  }

  lemma CountDownAccepted(cpu: Cpu)
    requires cpu.i64ToF64(1) < 0x1_0000_0000_0000_0000
    ensures AcceptsB(CountDown(cpu), 0)
  {
    var thn, els := Cons(Assign(X, Less(cpu)), Nil), Cons(Return(Var(X)), Nil);
    assert AcceptsE(Var(X), 0) && AcceptsE(Unit(cpu), 1) && AcceptsE(Less(cpu), 0);
    assert AcceptsS(thn.hd, 1) && AcceptsS(els.hd, 1);
    assert AcceptsB(thn, 1) && AcceptsB(els, 1);
    assert AcceptsS(TurnBody(cpu).hd, 1);
    JumpsOfOne(thn.hd);
    JumpsOfOne(els.hd);
    JumpsOfOne(TurnBody(cpu).hd);
  }

  lemma JumpsOfOne(s: Stmt)
    ensures CountBreaks(Cons(s, Nil)) == BreaksIn(s) && CountContinues(Cons(s, Nil)) == ContinuesIn(s)
  {
  }

  /** Code of at most `most` items with short names. */
  predicate Short(c: Code, most: nat) { |c| <= most && ShortNames(c) }

  lemma ShortApp(a: Code, x: nat, b: Code, y: nat)
    requires Short(a, x) && Short(b, y)
    ensures Short(a + b, x + y)
  {
  }

  lemma LessCode(cpu: Cpu)
    ensures Short(GenE(cpu, Var(X), 0), 3) && Short(GenE(cpu, Less(cpu), 0), 20)
  {
    hide IntLiteral;
    assert Short(GenE(cpu, Var(X), 0), 3);
    assert Short(GenE(cpu, Unit(cpu), 1), 3);
  }

  lemma OnlyCode(cpu: Cpu, st: Stmt, pos: int)
    ensures GenB(cpu, Cons(st, Nil), pos) == GenS(cpu, st, pos)
  {
    hide GenS;
  }

  lemma BranchCode(cpu: Cpu, pos: int)
    ensures Short(GenS(cpu, Assign(X, Less(cpu)), pos), 26) && Short(GenS(cpu, Return(Var(X)), pos), 5)
  {
    hide GenE, Less, Size;
    LessCode(cpu);
  }

  lemma TurnCode(cpu: Cpu, pos: int)
    ensures Short(GenB(cpu, TurnBody(cpu), pos), 38)
  {
    hide GenE, GenB, GenS, Less, Size, Short;
    var thn, els := Cons(Assign(X, Less(cpu)), Nil), Cons(Return(Var(X)), Nil);
    var head := GenE(cpu, Var(X), 0);
    var p := pos + Size(head) + 14;
    var body := GenB(cpu, thn, p);
    var q := p + Size(body) + 5;
    var other := GenB(cpu, els, q);
    LessCode(cpu);
    BranchCode(cpu, p);
    BranchCode(cpu, q);
    OnlyCode(cpu, thn.hd, p);
    OnlyCode(cpu, els.hd, q);
    OnlyCode(cpu, TurnBody(cpu).hd, pos);
    IfElseCode(cpu, Var(X), thn, els, pos);
    JumpsShort(q);
    JumpsShort(q + Size(other));
    ShortApp(head, 3, [Op(TestZero), JeTo(At(q))], 2);
    ShortApp(head + [Op(TestZero), JeTo(At(q))], 5, body, 26);
    ShortApp(head + [Op(TestZero), JeTo(At(q))] + body, 31, [JmpTo(At(q + Size(other)))], 2);
    ShortApp(head + [Op(TestZero), JeTo(At(q))] + body + [JmpTo(At(q + Size(other)))], 33, other, 5);
  }

  lemma JumpsShort(p: int)
    ensures Short([Op(TestZero), JeTo(At(p))], 2) && Short([JmpTo(At(p))], 2)
  {
  }

  lemma SettleShort(c: Code, most: nat, t: Target, p: int)
    requires Short(c, most)
    ensures Short(Settle(c, t, p), most)
  {
  }

  lemma CountDownCode(cpu: Cpu)
    ensures Short(Body(cpu, CountDown(cpu)), 40)
  {
    hide TurnBody, Size, Short, Settle;
    var inner, pos: int := GenB(cpu, TurnBody(cpu), PROLOGUE_LEN), PROLOGUE_LEN;
    TurnCode(cpu, pos);
    JumpsShort(pos);
    ShortApp(inner, 38, [JmpTo(At(pos))], 2);
    var end := pos + Size(inner) + 5;
    SettleShort(inner + [JmpTo(At(pos))], 40, LoopEnd, end);
    SettleShort(Settle(inner + [JmpTo(At(pos))], LoopEnd, end), 40, LoopStart, pos);
    OnlyCode(cpu, Loop(TurnBody(cpu)), pos);
  }

  // ----- counting down, compiled

  /** On every IEEE 754 processor, wherever the helpers live, and for every number up to 2^53: the loop
      written as text, read, compiled in either mode, loaded and run counts the number down and returns
      zero. */
  lemma CountDownRuns(cpu: Cpu, addr: Symbol -> nat, aot: bool, k: nat, m0: State) returns (n: nat, m1: State)
    requires Ieee(cpu) && AddrOk(addr) && cpu.i64ToF64(1) < 0x1_0000_0000_0000_0000
    requires k <= EXACT_LIMIT && Entry(m0, Holding(VInt(k)))
    ensures LinesHaveText(cpu, RenderB(CountDown(cpu))) && NamesOk(Body(cpu, CountDown(cpu)))
    ensures ReadLines(cpu, WriteLines(cpu, RenderB(CountDown(cpu)))) == Some(RenderB(CountDown(cpu)))
    ensures ParseB(RenderB(CountDown(cpu))) == Some(CountDown(cpu))
    ensures Run(Env(cpu, addr, LoadedCode(cpu, CountDown(cpu), aot, addr)), m0, n) == Some(m1)
    ensures m1.halted && m1.store == Holding(VInt(0)) && Unbox(cpu, JitResult(m1)) == Some(VInt(0))
  {
    hide Ieee, AddrOk, CountDown, LinesHaveText, NamesOk, Body, FunctionBytes, CarriedB, ExecB, RenderB, Run, LoadedCode,
         AcceptsB, ShortNames, Unbox, ReadLines, WriteLines, ParseB;
    var b := CountDown(cpu);
    CountDownAccepted(cpu);
    CountDownCode(cpu);
    CountsDown(cpu, k);
    ShortFunction(cpu, b, addr);
    CountDownText(cpu);
    n, m1 := SourceRuns(cpu, b, aot, addr, Holding(VInt(k)), m0, k + 1);
  }

  lemma CountDownLines(cpu: Cpu)
    ensures RenderB(CountDown(cpu)) ==
      [LoopLine, IfLine(Var(X)), Line.One(Assign(X, Less(cpu))), ElseLine, Line.One(Return(Var(X))), EndIfLine, EndLoopLine]
  {
    hide Less;
    var thn, els := Cons(Assign(X, Less(cpu)), Nil), Cons(Return(Var(X)), Nil);
    assert RenderB(thn) == [Line.One(thn.hd)] && RenderB(els) == [Line.One(els.hd)];
    assert RenderS(TurnBody(cpu).hd) == [IfLine(Var(X)), Line.One(thn.hd), ElseLine, Line.One(els.hd), EndIfLine];
    assert RenderB(TurnBody(cpu)) == RenderS(TurnBody(cpu).hd);
  }

  lemma CountDownText(cpu: Cpu)
    requires Ieee(cpu)
    ensures LinesHaveText(cpu, RenderB(CountDown(cpu)))
  {
    hide RenderB, CountDown, HasText, Less;
    CountDownLines(cpu);
    XHasText(cpu);
    LessHasText(cpu);
  }

  lemma XHasText(cpu: Cpu)
    ensures HasText(cpu, Var(X))
  {
  }

  lemma LessHasText(cpu: Cpu)
    requires Ieee(cpu)
    ensures HasText(cpu, Less(cpu))
  {
    assert OddPart(1) == 1;
    XHasText(cpu);
  }

  // ----- through a file

  lemma {:induction false} FewAddresses(c: Code, at: int)
    ensures |Addresses(Fields(c, at))| <= |c|
    decreases |c|
  {
    hide FieldsOf, Addresses;
    NoFields(LoopEnd);
    if c != [] {
      FewAddresses(c[1..], at + ItemLen(c[0]));
      AddressesApp(FieldsOf(c[0], at), Fields(c[1..], at + ItemLen(c[0])));
      ItemAddress(c[0], at);
    }
  }

  lemma SmallFile(fn: ExecFile.Fn)
    requires ExecFile.FnOk(fn) && fn.name == X && fn.params == [] && |fn.code| <= 20_000 && |fn.relocs| <= 100
    ensures ExecFile.AllOk([fn]) && ExecFile.FileSize(ExecFile.Sections([fn])) < ExecFile.WORD_LIMIT
  {
    hide ExecFile.FnOk;
    assert [fn][..|[fn]| - 1] == [];
    var a := ExecFile.Sections([fn]);
    assert ExecFile.Joined([]) == [];
    assert a == ExecFile.Collect(ExecFile.Collected([]), fn);
    assert a.st.buf == [] + NameBytes(X) && a.code == [] + fn.code && a.relocs == [] + fn.relocs && |a.heads| == 1;
  }

  function Program(cpu: Cpu): seq<ExecLoader.Source> { [ExecLoader.Source(X, [], CountDown(cpu))] }

  lemma ProgramOk(cpu: Cpu, home: Symbol -> nat)
    requires AddrOk(home) && cpu.i64ToF64(1) < 0x1_0000_0000_0000_0000
    ensures ExecLoader.SourceOk(cpu, Program(cpu)[0])
    ensures ExecFile.FileSize(ExecFile.Sections(ExecLoader.CompiledAll(cpu, Program(cpu), home))) < ExecFile.WORD_LIMIT
  {
    hide AddrOk, CountDown, Body, FunctionBytes, NamesOk, AcceptsB, ShortNames, Fields, Addresses,
         ExecFile.FnOk, ExecFile.FileSize, ExecFile.Sections, ExecFile.AllOk;
    var b := CountDown(cpu);
    CountDownAccepted(cpu);
    CountDownCode(cpu);
    ShortFunction(cpu, b, NoAddress);
    FewAddresses(Body(cpu, b), PROLOGUE_LEN);
    assert ExecLoader.SourceOk(cpu, Program(cpu)[0]);
    ExecLoader.LoadedIsDirect(cpu, X, [], b, home);
    var fns := ExecLoader.CompiledAll(cpu, Program(cpu), home);
    SmallFile(fns[0]);
    assert fns == [fns[0]];
  }

  /** The loop as a file, compiled with the helpers at `home`. */
  ghost function ProgramFile(cpu: Cpu, home: Symbol -> nat): Bytes
    requires AddrOk(home) && cpu.i64ToF64(1) < 0x1_0000_0000_0000_0000
  {
    ProgramOk(cpu, home);
    ExecLoader.ProgramLoads(cpu, Program(cpu), home, home);
    ExecFile.FileBytes(ExecFile.Sections(ExecLoader.CompiledAll(cpu, Program(cpu), home)))
  }

  /** The loop compiled into a file with the helpers in one place, and loaded with them in another: what
      is registered for it counts down when run. */
  lemma FileCountsDown(cpu: Cpu, home: Symbol -> nat, addr: Symbol -> nat, k: nat, m0: State)
    returns (code: Bytes, n: nat, m1: State)
    requires Ieee(cpu) && AddrOk(home) && AddrOk(addr) && cpu.i64ToF64(1) < 0x1_0000_0000_0000_0000
    requires k <= EXACT_LIMIT && Entry(m0, Holding(VInt(k)))
    ensures ExecFile.Load(ProgramFile(cpu, home), addr) == Some([ExecFile.Loaded(X, [], code)])
    ensures Run(Env(cpu, addr, code), m0, n) == Some(m1)
    ensures m1.halted && m1.store == Holding(VInt(0)) && Unbox(cpu, JitResult(m1)) == Some(VInt(0))
  {
    hide Ieee, AddrOk, CountDown, NamesOk, Body, FunctionBytes, Run, Unbox, RenderB, LinesHaveText, ExecLoader.SourceOk,
         ExecFile.Load, ExecFile.FileBytes, ExecFile.Sections, ExecFile.FileSize, ExecFile.OffsOk, ExecLoader.CompiledAll;
    ProgramOk(cpu, home);
    ExecLoader.ProgramLoads(cpu, Program(cpu), home, addr);
    n, m1 := CountDownRuns(cpu, addr, false, k, m0);
    code := FunctionBytes(cpu, CountDown(cpu), addr);
    var r := ExecFile.Load(ProgramFile(cpu, home), addr);
    assert r.value[0] == ExecFile.Loaded(X, [], code);
    assert r.value == [ExecFile.Loaded(X, [], code)];
  }

  // ----- a loop that never ends

  function Forever(): Block { Cons(Loop(Nil), Nil) }

  lemma {:induction false} LoopSpins(cpu: Cpu, s: Store, fuel: nat)
    ensures CarriedS(cpu, Loop(Nil), s, fuel) && ExecS(cpu, Interpreted, Loop(Nil), s, fuel) == OutOfFuel
  {
    if fuel > 0 {
      LoopSpins(cpu, s, fuel - 1);
    }
  }

  lemma ForeverSpins(cpu: Cpu, s: Store, fuel: nat)
    ensures CarriedB(cpu, Forever(), s, fuel) && ExecB(cpu, Interpreted, Forever(), s, fuel) == OutOfFuel
  {
    LoopSpins(cpu, s, fuel);
  }

  lemma ForeverCode(cpu: Cpu, addr: Symbol -> nat)
    ensures AcceptsB(Forever(), 0) && NamesOk(Body(cpu, Forever()))
    ensures |FunctionBytes(cpu, Forever(), addr)| < 0x8000_0000
  {
    hide FunctionBytes;
    assert Short(Body(cpu, Forever()), 1);
    ShortFunction(cpu, Forever(), addr);
  }

  /** The bytes of an empty loop turn for ever. */
  lemma ForeverRuns(cpu: Cpu, addr: Symbol -> nat, s: Store, m0: State, k: nat)
    requires Ieee(cpu) && AddrOk(addr) && Entry(m0, s)
    ensures NamesOk(Body(cpu, Forever()))
    ensures var m := Run(Env(cpu, addr, FunctionBytes(cpu, Forever(), addr)), m0, k); m.Some? && !m.value.halted
  {
    hide Ieee, AddrOk, AcceptsB, NamesOk, FunctionBytes, ExecB, CarriedB, Run, Body, Forever;
    ForeverCode(cpu, addr);
    forall fuel: nat ensures CarriedB(cpu, Forever(), s, fuel) && ExecB(cpu, Interpreted, Forever(), s, fuel) == OutOfFuel {
      ForeverSpins(cpu, s, fuel);
    }
    DivergenceAgrees(cpu, Forever(), addr, s, m0, k);
  }

  // ----- one processor, one set of addresses

  lemma FreshEntry(s: Store)
    ensures Entry(Fresh(s), s)
  {
  }

  lemma SampleUnit()
    ensures SampleCpu().i64ToF64(1) == 9
  {
    assert OddPart(1) == 1;
  }

  /** The sample processor has the facts about 0.5 as well. */
  lemma SampleHalf()
    ensures HalfFacts(SampleCpu())
  {
  }

  /** All conditions of SourceRuns, and so of LinesRun and FunctionAgrees, are met together by the sample
      processor and addresses, in both modes and for every number up to 2^53. */
  lemma SampleCountsDown(aot: bool, k: nat) returns (n: nat, m1: State)
    requires k <= EXACT_LIMIT
    ensures AddrOk(SampleAddr) && NamesOk(Body(SampleCpu(), CountDown(SampleCpu())))
    ensures var cpu := SampleCpu();
      && Run(Env(cpu, SampleAddr, LoadedCode(cpu, CountDown(cpu), aot, SampleAddr)), Fresh(Holding(VInt(k))), n) == Some(m1)
      && m1.halted && m1.store == Holding(VInt(0)) && Unbox(cpu, JitResult(m1)) == Some(VInt(0))
  {
    hide SampleCpu, Ieee, AddrOk, SampleAddr, Fresh, Holding, CountDown, NamesOk, Body, LinesHaveText, RenderB, Run,
         LoadedCode, Unbox;
    SampleIsIeee();
    SampleAddrOk();
    FreshEntry(Holding(VInt(k)));
    SampleUnit();
    n, m1 := CountDownRuns(SampleCpu(), SampleAddr, aot, k, Fresh(Holding(VInt(k))));
  }

  /** And those of NanTakesOtherBranch: a machine on which the program interpreted returns 0.5 and
      compiled returns zero. */
  lemma SampleNan(s: Store) returns (n: nat, m1: State)
    ensures ExecB(SampleCpu(), Interpreted, NanProgram(), s, 0) == Returned(s, Some(VDouble(HALF)))
    ensures Run(Env(SampleCpu(), SampleAddr, NanBytes(SampleCpu(), SampleAddr)), Fresh(s), n) == Some(m1)
    ensures m1.halted && m1.store == s && Unbox(SampleCpu(), JitResult(m1)) == Some(VDouble(0))
  {
    hide SampleCpu, Ieee, HalfFacts, AddrOk, SampleAddr, Fresh, NanProgram, NanBytes, ExecB, Run, Unbox;
    SampleIsIeee();
    SampleHalf();
    SampleAddrOk();
    FreshEntry(s);
    n, m1 := NanTakesOtherBranch(SampleCpu(), SampleAddr, s, Fresh(s));
  }

  // ----- an integer that is misread

  function Mention(): Block { Cons(ExprS(Var(X)), Nil) }

  lemma MentionCode(cpu: Cpu, addr: Symbol -> nat)
    ensures AcceptsB(Mention(), 0) && Body(cpu, Mention()) == GenE(cpu, Var(X), 0) && NamesOk(Body(cpu, Mention()))
    ensures |FunctionBytes(cpu, Mention(), addr)| < 0x8000_0000
  {
    hide FunctionBytes, GenE;
    LessCode(cpu);
    OnlyCode(cpu, ExprS(Var(X)), PROLOGUE_LEN);
    assert AcceptsE(Var(X), 0);
    ShortFunction(cpu, Mention(), addr);
  }

  /** A function that mentions x, on the sample processor. */
  function MentionEnv(): Env {
    MentionCode(SampleCpu(), SampleAddr);
    Env(SampleCpu(), SampleAddr, FunctionBytes(SampleCpu(), Mention(), SampleAddr))
  }

  /** And those of BigIntegerMisread: where x holds 2^53 + 1, its code leaves another number in the
      registers. */
  lemma SampleMisread(ends: Ends) returns (na: int, m1: State)
    ensures Straight(MentionEnv(), GenE(SampleCpu(), Var(X), 0), na, ends, Fresh(Holding(VInt(EXACT_LIMIT + 1)))) == Some(m1)
    ensures Unbox(SampleCpu(), m1.regs) != Some(VInt(EXACT_LIMIT + 1))
  {
    hide SampleCpu, Ieee, AddrOk, SampleAddr, NamesOk, FunctionBytes, Straight, GenE, Unbox, HasAt, Blob, Emit, EnvOk,
         Mention, AcceptsB;
    SampleIsIeee();
    SampleAddrOk();
    MentionCode(SampleCpu(), SampleAddr);
    var env := FunctionLaid(SampleCpu(), Mention(), SampleAddr);
    na := NamesStart(Body(SampleCpu(), Mention()));
    assert NamesAt(env, GenE(env.cpu, Var(X), 0), na);
    m1 := BigIntegerMisread(env, X, na, ends, Fresh(Holding(VInt(EXACT_LIMIT + 1))));
  }
}
