/** Running the code of a statement, a block and a whole function does what the program means, read
    with the branches the compiled tests take; Agreement compares that with the interpreter. */
module StmtCorrect {
  import opened Options
  import opened Values
  import opened Language
  import opened MachineCode
  import opened Machine
  import opened CodeGen
  import opened ExprCorrect

  /** The final bytes of c lie at `at` and its names at `na`. */
  ghost predicate Laid(env: Env, c: Code, at: int, na: int, ends: Ends) {
    && EnvOk(env) && NamesOk(c)
    && HasAt(env.code, at, Emit(c, at, na, ends, env.addr))
    && HasAt(env.code, na, Blob(c))
  }

  lemma LaidSplit(env: Env, a: Code, b: Code, at: int, na: int, ends: Ends)
    requires Laid(env, a + b, at, na, ends)
    ensures Laid(env, a, at, na, ends) && Laid(env, b, at + Size(a), na + BlobLen(a), ends)
  {
    hide HasAt, EnvOk, NamesOk, Size, BlobLen, Emit;
    EmitApp(a, b, at, na, ends, env.addr);
    EmitSize(a, at, na, ends, env.addr);
    HasSplit(env.code, at, Emit(a, at, na, ends, env.addr), Emit(b, at + Size(a), na + BlobLen(a), ends, env.addr));
    NamesAtSplit(env, a, b, na);
  }

  lemma LaidBounds(env: Env, c: Code, at: int, na: int, ends: Ends)
    requires Laid(env, c, at, na, ends)
    ensures 0 <= at && at + Size(c) <= |env.code| < 0x8000_0000
    ensures 0 <= na && na + BlobLen(c) <= |env.code|
  {
    EmitSize(c, at, na, ends, env.addr);
    BlobSize(c);
  }

  /** A running machine with its frame in place. */
  ghost predicate Ready(m: State) { !m.halted && |m.slots| == JIT_MAX_DEPTH }

  ghost predicate EndsOk(env: Env, ends: Ends) {
    && 0 <= ends.loopEnd <= |env.code| && 0 <= ends.loopStart <= |env.code| && 0 <= ends.functionEnd <= |env.code|
  }

  // ----- pieces

  lemma PlainRuns(env: Env, c: Code, na: int, ends: Ends, m: State, m1: State)
    requires Laid(env, c, m.pc, na, ends) && Plain(c) && Ready(m)
    requires Straight(env, c, na, ends, m) == Some(m1)
    ensures Run(env, m, |c|) == Some(m1) && m1.pc == m.pc + Size(c) && !m1.halted
  {
    hide HasAt, EnvOk, NamesOk, Plain;
    LaidBounds(env, c, m.pc, na, ends);
    StraightRuns(env, c, na, ends, m, m1);
  }

  /** An expression's code run where it lies. */
  lemma ExprRuns(env: Env, e: Expr, na: int, ends: Ends, m: State, v: Value) returns (n: nat, m1: State)
    requires Laid(env, GenE(env.cpu, e, 0), m.pc, na, ends) && Ready(m) && AcceptsE(e, 0)
    requires StrictEval(env.cpu, e, m.store) == Some(v)
    ensures Run(env, m, n) == Some(m1) && Ready(m1)
    ensures m1.pc == m.pc + Size(GenE(env.cpu, e, 0)) && m1.store == m.store
    ensures m1.regs == ResultCell(env.cpu, e, v)
  {
    hide HasAt, GenE, StrictEval, AcceptsE, Straight, Plain, NamesOk, AddrOk, ResultCell;
    m1 := ExprStraight(env, e, 0, na, ends, m, v);
    ExprPlain(env.cpu, e, 0);
    n := |GenE(env.cpu, e, 0)|;
    PlainRuns(env, GenE(env.cpu, e, 0), na, ends, m, m1);
  }

  lemma RunThen(env: Env, m: State, a: nat, m1: State, b: nat, m2: State)
    requires Run(env, m, a) == Some(m1) && Run(env, m1, b) == Some(m2)
    ensures Run(env, m, a + b) == Some(m2)
  {
    RunAdd(env, m, a, m1, b);
  }

  lemma LaidOne(env: Env, x: Item, at: int, na: int, ends: Ends)
    requires Laid(env, [x], at, na, ends)
    ensures HasAt(env.code, at, Enc(Final(x, at, na, ends, env.addr)))
    ensures 0 <= at && at + ItemLen(x) <= |env.code| < 0x8000_0000
  {
    hide HasAt, AddrOk, Enc, Final;
    LaidBounds(env, [x], at, na, ends);
    EmitOne(x, at, na, ends, env.addr);
    Sizes(x, x, x);
  }

  lemma EmitOne(x: Item, at: int, na: int, ends: Ends, addr: Symbol -> nat)
    ensures Emit([x], at, na, ends, addr) == Enc(Final(x, at, na, ends, addr))
  {
    hide Enc, Final;
    assert [x][1..] == [];
    assert Emit([x], at, na, ends, addr) == Enc(Final(x, at, na, ends, addr)) + [];
  }

  lemma JumpRuns(env: Env, t: Target, na: int, ends: Ends, m: State)
    requires Laid(env, [JmpTo(t)], m.pc, na, ends) && Ready(m) && 0 <= Settled(t, ends) <= |env.code|
    ensures Run(env, m, 1) == Some(m.(pc := Settled(t, ends)))
  {
    hide HasAt, Decode, Laid, Enc, Settled, Run;
    LaidOne(env, JmpTo(t), m.pc, na, ends);
    RunOne(env, m, Jmp(Settled(t, ends) - (m.pc + 5)));
  }

  /** The test of a condition: falls through when true, jumps to p when false. */
  lemma TestRuns(env: Env, p: int, na: int, ends: Ends, m: State)
    requires Laid(env, [Op(TestZero), JeTo(At(p))], m.pc, na, ends) && Ready(m) && 0 <= p <= |env.code|
    ensures Run(env, m, 2) == Some(m.(pc := if TestsFalse(env.cpu, m.regs) then p else m.pc + 14, zf := TestsFalse(env.cpu, m.regs)))
  {
    hide HasAt, Decode, TestsFalse, Laid, Enc, Run, Size, BlobLen, EnvOk;
    var a: Code, b: Code := [Op(TestZero)], [JeTo(At(p))];
    assert [Op(TestZero), JeTo(At(p))] == a + b;
    LaidSplit(env, a, b, m.pc, na, ends);
    Sizes(a[0], b[0], b[0]);
    LaidOne(env, a[0], m.pc, na, ends);
    LaidOne(env, b[0], m.pc + 8, na + BlobLen(a), ends);
    RunOne(env, m, TestZero);
    var m1 := m.(pc := m.pc + 8, zf := TestsFalse(env.cpu, m.regs));
    RunOne(env, m1, Je(p - (m.pc + 14)));
    var m2 := if m1.zf then m1.(pc := p) else m1.(pc := m1.pc + 6);
    RunThen(env, m, 1, m1, 1, m2);
  }

  // ----- what a statement's code does

  /** After n steps from m the machine is at m1, where the outcome says it should be. */
  ghost predicate Lands(env: Env, m: State, n: nat, m1: State, out: Out, end: int, ends: Ends, fuel: nat) {
    out != Failed ==>
      && Run(env, m, n) == Some(m1) && Ready(m1)
      && match out
         case Normal(s) => m1.pc == end && m1.store == s
         case Broke(s) => n > 0 && m1.pc == ends.loopEnd && m1.store == s
         case Continued(s) => n > 0 && m1.pc == ends.loopStart && m1.store == s
         case Returned(s, r) => m1.pc == ends.functionEnd && m1.store == s && (r.Some? ==> Unbox(env.cpu, m1.trace) == r)
         case OutOfFuel => n >= fuel
         case Failed => true
  }

  lemma LandsAfter(env: Env, m: State, a: nat, m1: State, b: nat, m2: State, out: Out, end: int, ends: Ends, fuel: nat)
    requires Run(env, m, a) == Some(m1) && Lands(env, m1, b, m2, out, end, ends, fuel)
    ensures Lands(env, m, a + b, m2, out, end, ends, fuel)
  {
    RunAdd(env, m, a, m1, b);
  }

  lemma StoreTail(env: Env, n: Name, v: Value, s': Store, na: int, ends: Ends, m: State) returns (m1: State)
    requires AddrOk(env.addr) && NamesAt(env, AssignTail(n), na) && Ready(m)
    requires Unbox(env.cpu, m.regs) == Some(v) && Set(env.cpu, m.store, n, v) == Some(s')
    ensures Straight(env, AssignTail(n), na, ends, m) == Some(m1)
    ensures m1.store == s' && Ready(m1)
  {
    hide AddrOk, DoItem, Unbox, Set, HasAt, CStr, Blob, SymbolId, SymbolAt;
    var c := AssignTail(n);
    NameRead(env, c, 1, na);
    assert c[..1] == [c[0]];
    assert BlobLen(c[..1]) == 0;
    StoreItem(env, 0, na, ends, m);
    var r1 := m.(pc := m.pc + 21, slots := m.slots[0 := m.regs]);
    StraightStep(env, c, na, ends, m, r1);
    var c1 := c[1..];
    assert c1[0] == LeaName(n);
    LeaItem(env, n, na, ends, r1);
    var r2 := r1.(pc := r1.pc + 7, rdi := na);
    StraightStep(env, c1, na, ends, r1, r2);
    var n2, c2 := na + NameLen(c1[0]), c1[1..];
    assert c2 == [Op(LoadSlot(0)), CallSym(TraceFromRegs), CallSym(SetVariable), Op(LoadSlot(0))];
    m1 := StoreTail2(env, n, v, s', n2, ends, r2);
  }

  lemma StoreTail2(env: Env, n: Name, v: Value, s': Store, na: int, ends: Ends, m: State) returns (m1: State)
    requires AddrOk(env.addr) && Ready(m) && CStr(env.code, m.rdi) == n
    requires Unbox(env.cpu, m.slots[0]) == Some(v) && Set(env.cpu, m.store, n, v) == Some(s')
    ensures Straight(env, [Op(LoadSlot(0)), CallSym(TraceFromRegs), CallSym(SetVariable), Op(LoadSlot(0))], na, ends, m) == Some(m1)
    ensures m1.store == s' && Ready(m1)
  {
    hide AddrOk, DoItem, Unbox, Set, CStr, SymbolId, SymbolAt;
    var c: Code := [Op(LoadSlot(0)), CallSym(TraceFromRegs), CallSym(SetVariable), Op(LoadSlot(0))];
    LoadItem(env, 0, na, ends, m);
    var r1 := m.(pc := m.pc + 21, regs := m.slots[0]);
    StraightStep(env, c, na, ends, m, r1);
    var c1 := c[1..];
    assert c1[0] == CallSym(TraceFromRegs);
    CallFromRegs(env, na, ends, r1);
    var r2 := r1.(pc := r1.pc + 12, trace := r1.regs, regs := EMPTY, rsi := 0);
    StraightStep(env, c1, na, ends, r1, r2);
    var c2 := c1[1..];
    assert c2[0] == CallSym(SetVariable);
    var r3 := r2.(pc := r2.pc + 12, store := s');
    CallReaches(env, SetVariable, na, ends, r2, r3);
    r3 := AfterCall(SetVariable, r3);
    StraightStep(env, c2, na, ends, r2, r3);
    var c3 := c2[1..];
    assert c3 == [Op(LoadSlot(0))];
    LoadItem(env, 0, na, ends, r3);
    m1 := r3.(pc := r3.pc + 21, regs := r3.slots[0]);
    StraightStep(env, c3, na, ends, r3, m1);
  }

  function AssignTail(n: Name): Code {
    [Op(StoreSlot(0)), LeaName(n), Op(LoadSlot(0)), CallSym(TraceFromRegs), CallSym(SetVariable), Op(LoadSlot(0))]
  }

  function DeclareTail(n: Name, t: Ty): Code {
    [Op(StoreSlot(0)), Op(LoadSlot(0)), CallSym(TraceFromRegs), LeaName(n), Op(MovEsi(TyCode(t))), CallSym(DeclareVariable), LoadTrace]
  }

  lemma EsiItem(env: Env, k: nat, na: int, ends: Ends, m: State)
    ensures DoItem(env, Op(MovEsi(k)), na, ends, m) == Some(m.(pc := m.pc + 5, rsi := k))
  {
  }

  lemma DeclareTailRuns(env: Env, n: Name, t: Ty, v: Value, p: (Store, Value), na: int, ends: Ends, m: State) returns (m1: State)
    requires AddrOk(env.addr) && NamesAt(env, DeclareTail(n, t), na) && Ready(m)
    requires Unbox(env.cpu, m.regs) == Some(v) && Declare(env.cpu, m.store, n, t, v) == Some(p)
    ensures Straight(env, DeclareTail(n, t), na, ends, m) == Some(m1)
    ensures m1.store == p.0 && Ready(m1)
  {
    hide AddrOk, DoItem, Unbox, Declare, HasAt, CStr, Blob, SymbolId, SymbolAt;
    var c := DeclareTail(n, t);
    NameRead(env, c, 3, na);
    assert BlobLen(c[..3]) == 0 by {
      assert c[..3][1..][1..][1..] == [];
      assert BlobLen(c[..3][1..][1..]) == 0;
      assert BlobLen(c[..3][1..]) == 0;
    }
    StoreItem(env, 0, na, ends, m);
    var r1 := m.(pc := m.pc + 21, slots := m.slots[0 := m.regs]);
    StraightStep(env, c, na, ends, m, r1);
    var c1 := c[1..];
    assert c1[0] == Op(LoadSlot(0));
    LoadItem(env, 0, na, ends, r1);
    var r2 := r1.(pc := r1.pc + 21);
    StraightStep(env, c1, na, ends, r1, r2);
    var c2 := c1[1..];
    assert c2[0] == CallSym(TraceFromRegs);
    CallFromRegs(env, na, ends, r2);
    var r3 := r2.(pc := r2.pc + 12, trace := m.regs, regs := EMPTY, rsi := 0);
    StraightStep(env, c2, na, ends, r2, r3);
    var c3 := c2[1..];
    assert c3 == [LeaName(n), Op(MovEsi(TyCode(t))), CallSym(DeclareVariable), LoadTrace];
    m1 := DeclareTail2(env, n, t, v, p, na, ends, r3);
  }

  lemma DeclareTail2(env: Env, n: Name, t: Ty, v: Value, p: (Store, Value), na: int, ends: Ends, m: State) returns (m1: State)
    requires AddrOk(env.addr) && Ready(m) && CStr(env.code, na) == n
    requires Unbox(env.cpu, m.trace) == Some(v) && Declare(env.cpu, m.store, n, t, v) == Some(p)
    ensures Straight(env, [LeaName(n), Op(MovEsi(TyCode(t))), CallSym(DeclareVariable), LoadTrace], na, ends, m) == Some(m1)
    ensures m1.store == p.0 && Ready(m1)
  {
    hide AddrOk, DoItem, Unbox, Declare, CStr, SymbolId, SymbolAt, Box, TyCode, TyOfCode;
    var c: Code := [LeaName(n), Op(MovEsi(TyCode(t))), CallSym(DeclareVariable), LoadTrace];
    LeaItem(env, n, na, ends, m);
    var r1 := m.(pc := m.pc + 7, rdi := na);
    StraightStep(env, c, na, ends, m, r1);
    var n1, c1 := na + NameLen(c[0]), c[1..];
    assert c1[0] == Op(MovEsi(TyCode(t)));
    EsiItem(env, TyCode(t), n1, ends, r1);
    var r2 := r1.(pc := r1.pc + 5, rsi := TyCode(t));
    StraightStep(env, c1, n1, ends, r1, r2);
    var c2 := c1[1..];
    assert c2 == [CallSym(DeclareVariable), LoadTrace];
    TyRoundTrip(t);
    var r3 := r2.(pc := r2.pc + 12, store := p.0, trace := Box(env.cpu, p.1));
    CallReaches(env, DeclareVariable, n1, ends, r2, r3);
    r3 := AfterCall(DeclareVariable, r3);
    StraightStep(env, c2, n1, ends, r2, r3);
    assert c2[1..] == [LoadTrace];
    ResultItem(env, n1, ends, r3);
    m1 := r3.(pc := r3.pc + 23, regs := r3.trace);
    StraightStep(env, c2[1..], n1, ends, r3, m1);
  }

  lemma TyRoundTrip(t: Ty)
    ensures TyOfCode(TyCode(t)) == t
  {
  }

  lemma TailsPlain(n: Name, t: Ty)
    ensures Plain(AssignTail(n)) && Plain(DeclareTail(n, t)) && Plain([CallSym(ReturnFromRegs)])
  {
  }

  // ----- statements without nested blocks

  lemma AssignRuns(env: Env, n: Name, e: Expr, na: int, ends: Ends, m: State) returns (k: nat, m1: State)
    requires AcceptsS(Assign(n, e), 0) && Ready(m)
    requires Laid(env, GenS(env.cpu, Assign(n, e), m.pc), m.pc, na, ends)
    ensures Lands(env, m, k, m1, ExecS(env.cpu, Coded, Assign(n, e), m.store, 0), m.pc + Size(GenS(env.cpu, Assign(n, e), m.pc)), ends, 0)
  {
    hide Laid, GenE, StrictEval, AcceptsE, Run, Straight, Unbox, Set, NameOk, Plain, Ready;
    k, m1 := 0, m;
    var head, tail := GenE(env.cpu, e, 0), AssignTail(n);
    assert GenS(env.cpu, Assign(n, e), m.pc) == head + tail;
    var v := StrictEval(env.cpu, e, m.store);
    if v.Some? && Set(env.cpu, m.store, n, v.value).Some? {
      var s' := Set(env.cpu, m.store, n, v.value).value;
      LaidSplit(env, head, tail, m.pc, na, ends);
      SizeApp(head, tail);
      var k1, r := ExprRuns(env, e, na, ends, m, v.value);
      CellUnboxes(env.cpu, e, m.store, v.value);
      LaidNames(env, tail, r.pc, na + BlobLen(head), ends);
      m1 := StoreTail(env, n, v.value, s', na + BlobLen(head), ends, r);
      TailsPlain(n, TInt);
      PlainRuns(env, tail, na + BlobLen(head), ends, r, m1);
      RunThen(env, m, k1, r, |tail|, m1);
      k := k1 + |tail|;
    }
  }

  lemma LaidNames(env: Env, c: Code, at: int, na: int, ends: Ends)
    requires Laid(env, c, at, na, ends)
    ensures NamesAt(env, c, na) && AddrOk(env.addr)
  {
  }

  lemma DeclareRuns(env: Env, n: Name, t: Ty, e: Expr, na: int, ends: Ends, m: State) returns (k: nat, m1: State)
    requires AcceptsS(DeclareS(n, t, e), 0) && Ready(m)
    requires Laid(env, GenS(env.cpu, DeclareS(n, t, e), m.pc), m.pc, na, ends)
    ensures Lands(env, m, k, m1, ExecS(env.cpu, Coded, DeclareS(n, t, e), m.store, 0), m.pc + Size(GenS(env.cpu, DeclareS(n, t, e), m.pc)), ends, 0)
  {
    hide Laid, GenE, StrictEval, AcceptsE, Run, Straight, Unbox, Declare, NameOk, Plain, Ready;
    k, m1 := 0, m;
    var head, tail := GenE(env.cpu, e, 0), DeclareTail(n, t);
    assert GenS(env.cpu, DeclareS(n, t, e), m.pc) == head + tail;
    var v := StrictEval(env.cpu, e, m.store);
    if v.Some? && Declare(env.cpu, m.store, n, t, v.value).Some? {
      var p := Declare(env.cpu, m.store, n, t, v.value).value;
      LaidSplit(env, head, tail, m.pc, na, ends);
      SizeApp(head, tail);
      var k1, r := ExprRuns(env, e, na, ends, m, v.value);
      CellUnboxes(env.cpu, e, m.store, v.value);
      LaidNames(env, tail, r.pc, na + BlobLen(head), ends);
      m1 := DeclareTailRuns(env, n, t, v.value, p, na + BlobLen(head), ends, r);
      TailsPlain(n, t);
      PlainRuns(env, tail, na + BlobLen(head), ends, r, m1);
      RunThen(env, m, k1, r, |tail|, m1);
      k := k1 + |tail|;
    }
  }

  lemma ReturnCall(env: Env, na: int, ends: Ends, m: State)
    requires AddrOk(env.addr)
    ensures Straight(env, [CallSym(ReturnFromRegs)], na, ends, m)
         == Some(m.(pc := m.pc + 12, trace := m.regs, regs := EMPTY, rsi := 0, rdi := 0))
  {
    hide SymbolId, SymbolAt, AddrOk, DoItem;
    var c: Code := [CallSym(ReturnFromRegs)];
    CallReaches(env, ReturnFromRegs, na, ends, m, m.(pc := m.pc + 12, trace := m.regs));
    var r := m.(pc := m.pc + 12, trace := m.regs, regs := EMPTY, rsi := 0, rdi := 0);
    StraightStep(env, c, na, ends, m, r);
    assert c[1..] == [];
    StraightNil(env, na + NameLen(c[0]), ends, r);
  }

  lemma ReturnCode(cpu: Cpu, e: Expr, pos: int)
    ensures GenS(cpu, Return(e), pos) == GenE(cpu, e, 0) + ([CallSym(ReturnFromRegs)] + [JmpTo(FunctionEnd)])
  {
    hide GenE;
    assert [CallSym(ReturnFromRegs)] + [JmpTo(FunctionEnd)] == [CallSym(ReturnFromRegs), JmpTo(FunctionEnd)];
  }

  lemma ReturnRuns(env: Env, e: Expr, na: int, ends: Ends, m: State) returns (k: nat, m1: State)
    requires AcceptsE(e, 0) && Ready(m) && EndsOk(env, ends)
    requires Laid(env, GenS(env.cpu, Return(e), m.pc), m.pc, na, ends)
    ensures Lands(env, m, k, m1, ExecS(env.cpu, Coded, Return(e), m.store, 0), m.pc + Size(GenS(env.cpu, Return(e), m.pc)), ends, 0)
  {
    hide Laid, GenE, GenS, StrictEval, AcceptsE, Run, Straight, Unbox, Plain, AddrOk, ResultCell, Size, BlobLen;
    k, m1 := 0, m;
    var head := GenE(env.cpu, e, 0);
    var call: Code, jump: Code := [CallSym(ReturnFromRegs)], [JmpTo(FunctionEnd)];
    ReturnCode(env.cpu, e, m.pc);
    var v := StrictEval(env.cpu, e, m.store);
    if v.Some? {
      LaidSplit(env, head, call + jump, m.pc, na, ends);
      var n1 := na + BlobLen(head);
      LaidSplit(env, call, jump, m.pc + Size(head), n1, ends);
      Sizes(call[0], call[0], call[0]);
      var k1, r := ExprRuns(env, e, na, ends, m, v.value);
      CellUnboxes(env.cpu, e, m.store, v.value);
      LaidNames(env, call, r.pc, n1, ends);
      ReturnCall(env, n1, ends, r);
      var r2 := r.(pc := r.pc + 12, trace := r.regs, regs := EMPTY, rsi := 0, rdi := 0);
      TailsPlain([], TInt);
      PlainRuns(env, call, n1, ends, r, r2);
      RunThen(env, m, k1, r, 1, r2);
      JumpRuns(env, FunctionEnd, n1 + BlobLen(call), ends, r2);
      m1 := r2.(pc := ends.functionEnd);
      RunThen(env, m, k1 + 1, r2, 1, m1);
      k := k1 + 2;
    }
  }

  lemma StraightNil(env: Env, na: int, ends: Ends, m: State)
    ensures Straight(env, [], na, ends, m) == Some(m)
  {
  }

  // ----- conditionals and loops

  /** A condition's code and its test: on to the next instruction where the test holds, to p where it does
      not. */
  lemma CondRuns(env: Env, c: Expr, b: bool, p: int, na: int, ends: Ends, m: State) returns (k: nat, m1: State)
    requires AcceptsE(c, 0) && Ready(m) && 0 <= p <= |env.code|
    requires Laid(env, GenE(env.cpu, c, 0) + [Op(TestZero), JeTo(At(p))], m.pc, na, ends)
    requires TruthOf(env.cpu, Coded, c, m.store) == Some(b)
    ensures Run(env, m, k) == Some(m1) && Ready(m1) && m1.store == m.store
    ensures m1.pc == if b then m.pc + Size(GenE(env.cpu, c, 0)) + 14 else p
  {
    hide Laid, GenE, StrictEval, AcceptsE, Run, TestsFalse, ResultCell, Truthy;
    var head, test := GenE(env.cpu, c, 0), [Op(TestZero), JeTo(At(p))];
    LaidSplit(env, head, test, m.pc, na, ends);
    var v := StrictEval(env.cpu, c, m.store).value;
    var k1, r := ExprRuns(env, c, na, ends, m, v);
    TestRuns(env, p, na + BlobLen(head), ends, r);
    m1 := r.(pc := if TestsFalse(env.cpu, r.regs) then p else r.pc + 14, zf := TestsFalse(env.cpu, r.regs));
    RunThen(env, m, k1, r, 2, m1);
    k := k1 + 2;
  }

  lemma IfShape(cpu: Cpu, c: Expr, thn: Block, pos: int) returns (p: int)
    ensures p == pos + Size(GenE(cpu, c, 0)) + 14
    ensures GenS(cpu, If(c, thn), pos)
         == (GenE(cpu, c, 0) + [Op(TestZero), JeTo(At(p + Size(GenB(cpu, thn, p))))]) + GenB(cpu, thn, p)
    ensures Size(GenS(cpu, If(c, thn), pos)) == p - pos + Size(GenB(cpu, thn, p))
    ensures Size(GenE(cpu, c, 0) + [Op(TestZero), JeTo(At(p + Size(GenB(cpu, thn, p))))]) == p - pos
  {
    hide GenE, GenB, Size;
    p := pos + Size(GenE(cpu, c, 0)) + 14;
    var test: Code := [Op(TestZero), JeTo(At(p + Size(GenB(cpu, thn, p))))];
    SizeApp(GenE(cpu, c, 0), test);
    Sizes(test[0], test[1], test[1]);
    SizeApp(GenE(cpu, c, 0) + test, GenB(cpu, thn, p));
  }

  lemma IfElseShape(cpu: Cpu, c: Expr, thn: Block, els: Block, pos: int) returns (p: int, q: int, end: int)
    ensures p == pos + Size(GenE(cpu, c, 0)) + 14 && q == p + Size(GenB(cpu, thn, p)) + 5
    ensures end == q + Size(GenB(cpu, els, q))
    ensures GenS(cpu, IfElse(c, thn, els), pos)
         == (GenE(cpu, c, 0) + [Op(TestZero), JeTo(At(q))]) + (GenB(cpu, thn, p) + ([JmpTo(At(end))] + GenB(cpu, els, q)))
    ensures Size(GenS(cpu, IfElse(c, thn, els), pos)) == end - pos
    ensures Size(GenE(cpu, c, 0) + [Op(TestZero), JeTo(At(q))]) == p - pos
  {
    hide GenE, GenB, GenS, Size;
    p := pos + Size(GenE(cpu, c, 0)) + 14;
    var body := GenB(cpu, thn, p);
    q := p + Size(body) + 5;
    var other := GenB(cpu, els, q);
    end := q + Size(other);
    var test: Code, jump: Code := [Op(TestZero), JeTo(At(q))], [JmpTo(At(end))];
    IfElseCode(cpu, c, thn, els, pos);
    Nested(GenE(cpu, c, 0), test, body, jump, other);
    SizeApp(GenE(cpu, c, 0), test);
    Sizes(test[0], test[1], test[1]);
    Sizes(jump[0], jump[0], jump[0]);
    SizeApp(GenE(cpu, c, 0) + test, body + (jump + other));
    SizeApp(body, jump + other);
    SizeApp(jump, other);
  }

  /** The loop's code emitted inside its surroundings is its body and back jump emitted with the
      loop's own ends. */
  lemma LoopLaid(env: Env, body: Block, pos: int, na: int, ends: Ends) returns (inner: Code, end: int)
    requires Laid(env, GenS(env.cpu, Loop(body), pos), pos, na, ends) && NamesOk(GenB(env.cpu, body, pos))
    ensures inner == GenB(env.cpu, body, pos) && end == pos + Size(inner) + 5
    ensures Size(GenS(env.cpu, Loop(body), pos)) == end - pos && end <= |env.code| && 0 <= pos
    ensures Laid(env, inner + [JmpTo(At(pos))], pos, na, Ends(end, pos, ends.functionEnd))
  {
    hide GenB, HasAt, EnvOk, Settle;
    inner := GenB(env.cpu, body, pos);
    end := pos + Size(inner) + 5;
    var c := inner + [JmpTo(At(pos))];
    var settled := Settle(Settle(c, LoopEnd, end), LoopStart, pos);
    assert GenS(env.cpu, Loop(body), pos) == settled;
    SettleSize(c, LoopEnd, end);
    SettleSize(Settle(c, LoopEnd, end), LoopStart, pos);
    SizeApp(inner, [JmpTo(At(pos))]);
    Sizes(JmpTo(At(pos)), JmpTo(At(pos)), JmpTo(At(pos)));
    LaidBounds(env, settled, pos, na, ends);
    SettleEmit(c, pos, na, ends, end, pos, env.addr);
    assert NamesOk(c);
    SettleBlob(c, LoopEnd, end);
    SettleBlob(Settle(c, LoopEnd, end), LoopStart, pos);
  }

  lemma NamesApp(a: Code, b: Code)
    requires NamesOk(a) && NamesOk(b)
    ensures NamesOk(a + b)
  {
    hide NameOk;
  }

  lemma {:induction false} GenNames(cpu: Cpu, st: Stmt, loops: nat, pos: int)
    requires AcceptsS(st, loops)
    ensures NamesOk(GenS(cpu, st, pos))
    decreases st, 1
  {
    hide NameOk, AcceptsE, GenE, Settle, GenB;
    match st
    case ExprS(e) => ExprPlain(cpu, e, 0);
    case Assign(n, e) =>
      ExprPlain(cpu, e, 0);
      NamesApp(GenE(cpu, e, 0), AssignTail(n));
    case DeclareS(n, t, e) =>
      ExprPlain(cpu, e, 0);
      NamesApp(GenE(cpu, e, 0), DeclareTail(n, t));
    case If(c, thn) => IfNames(cpu, c, thn, loops, pos);
    case IfElse(c, thn, els) => IfElseNames(cpu, c, thn, els, loops, pos);
    case Loop(body) =>
      GenNamesB(cpu, body, loops + 1, pos);
      var inner := GenB(cpu, body, pos);
      NamesApp(inner, [JmpTo(At(pos))]);
      var c := inner + [JmpTo(At(pos))];
      SettleBlob(c, LoopEnd, pos + Size(inner) + 5);
      SettleBlob(Settle(c, LoopEnd, pos + Size(inner) + 5), LoopStart, pos);
    case Return(e) =>
      ExprPlain(cpu, e, 0);
      NamesApp(GenE(cpu, e, 0), [CallSym(ReturnFromRegs), JmpTo(FunctionEnd)]);
    case _ =>
  }

  lemma {:induction false} IfNames(cpu: Cpu, c: Expr, thn: Block, loops: nat, pos: int)
    requires AcceptsS(If(c, thn), loops)
    ensures NamesOk(GenS(cpu, If(c, thn), pos))
    decreases If(c, thn), 0
  {
    hide NameOk, AcceptsE, GenE, GenB, GenS;
    ExprPlain(cpu, c, 0);
    var p := IfShape(cpu, c, thn, pos);
    GenNamesB(cpu, thn, loops, p);
    var test: Code := [Op(TestZero), JeTo(At(p + Size(GenB(cpu, thn, p))))];
    NamesApp(GenE(cpu, c, 0), test);
    NamesApp(GenE(cpu, c, 0) + test, GenB(cpu, thn, p));
  }

  lemma {:induction false} IfElseNames(cpu: Cpu, c: Expr, thn: Block, els: Block, loops: nat, pos: int)
    requires AcceptsS(IfElse(c, thn, els), loops)
    ensures NamesOk(GenS(cpu, IfElse(c, thn, els), pos))
    decreases IfElse(c, thn, els), 0
  {
    hide NameOk, AcceptsE, GenE, GenB, GenS;
    ExprPlain(cpu, c, 0);
    var p, q, end := IfElseShape(cpu, c, thn, els, pos);
    GenNamesB(cpu, thn, loops, p);
    GenNamesB(cpu, els, loops, q);
    var test: Code, jump: Code := [Op(TestZero), JeTo(At(q))], [JmpTo(At(end))];
    NamesApp(GenE(cpu, c, 0), test);
    NamesApp(jump, GenB(cpu, els, q));
    NamesApp(GenB(cpu, thn, p), jump + GenB(cpu, els, q));
    NamesApp(GenE(cpu, c, 0) + test, GenB(cpu, thn, p) + (jump + GenB(cpu, els, q)));
  }

  lemma {:induction false} GenNamesB(cpu: Cpu, b: Block, loops: nat, pos: int)
    requires AcceptsB(b, loops)
    ensures NamesOk(GenB(cpu, b, pos))
    decreases b, 0
  {
    hide NamesOk, GenS, AcceptsS;
    match b
    case Nil => assert NamesOk([]) by { NoItems(); }
    case Cons(hd, tl) =>
      GenNames(cpu, hd, loops, pos);
      GenNamesB(cpu, tl, loops, pos + Size(GenS(cpu, hd, pos)));
      NamesApp(GenS(cpu, hd, pos), GenB(cpu, tl, pos + Size(GenS(cpu, hd, pos))));
  }

  lemma NoItems()
    ensures NamesOk([])
  {
  }

  /** The code of a statement does what the statement means: it reaches its end, the loop's end or
      start, or the epilogue, with the store -- and for a returned value the trace -- the coded run
      gives; and while the coded run is still turning loops, so is the machine. */
  lemma {:induction false} StmtRuns(env: Env, st: Stmt, loops: nat, na: int, ends: Ends, m: State, fuel: nat) returns (n: nat, m1: State)
    requires AcceptsS(st, loops) && Ready(m) && EndsOk(env, ends)
    requires Laid(env, GenS(env.cpu, st, m.pc), m.pc, na, ends)
    ensures Lands(env, m, n, m1, ExecS(env.cpu, Coded, st, m.store, fuel), m.pc + Size(GenS(env.cpu, st, m.pc)), ends, fuel)
    decreases fuel, st, 1
  {
    hide Laid, GenE, GenB, GenS, StrictEval, AcceptsE, Run, Set, Declare, Unbox, Size;
    match st
    case Assign(x, e) => n, m1 := AssignRuns(env, x, e, na, ends, m);
    case DeclareS(x, t, e) => n, m1 := DeclareRuns(env, x, t, e, na, ends, m);
    case If(c, thn) => n, m1 := IfRuns(env, c, thn, loops, na, ends, m, fuel);
    case IfElse(c, thn, els) => n, m1 := IfElseRuns(env, c, thn, els, loops, na, ends, m, fuel);
    case Loop(body) => n, m1 := LoopRuns(env, body, loops, na, ends, m, fuel);
    case Return(e) => n, m1 := ReturnRuns(env, e, na, ends, m);
    case _ => n, m1 := LeafRuns(env, st, na, ends, m, fuel);
  }

  lemma LeafRuns(env: Env, st: Stmt, na: int, ends: Ends, m: State, fuel: nat) returns (n: nat, m1: State)
    requires st.Skip? || st.ExprS? || st.Break? || st.Continue? || st.ReturnVoid?
    requires (st.ExprS? ==> AcceptsE(st.e, 0)) && Ready(m) && EndsOk(env, ends)
    requires Laid(env, GenS(env.cpu, st, m.pc), m.pc, na, ends)
    ensures Lands(env, m, n, m1, ExecS(env.cpu, Coded, st, m.store, fuel), m.pc + Size(GenS(env.cpu, st, m.pc)), ends, fuel)
  {
    hide Laid, GenE, GenB, StrictEval, AcceptsE, Run, Unbox;
    n, m1 := 0, m;
    match st
    case Skip => RunZero(env, m);
    case ExprS(e) =>
      var v := StrictEval(env.cpu, e, m.store);
      if v.Some? {
        n, m1 := ExprRuns(env, e, na, ends, m, v.value);
      }
    case Break =>
      JumpRuns(env, LoopEnd, na, ends, m);
      n, m1 := 1, m.(pc := ends.loopEnd);
    case Continue =>
      JumpRuns(env, LoopStart, na, ends, m);
      n, m1 := 1, m.(pc := ends.loopStart);
    case ReturnVoid =>
      JumpRuns(env, FunctionEnd, na, ends, m);
      n, m1 := 1, m.(pc := ends.functionEnd);
  }

  lemma RunZero(env: Env, m: State)
    ensures Run(env, m, 0) == Some(m)
  {
  }

  lemma ExecIf(cpu: Cpu, c: Expr, thn: Block, loops: nat, s: Store, fuel: nat)
    requires AcceptsS(If(c, thn), loops)
    ensures AcceptsE(c, 0) && AcceptsB(thn, loops)
    ensures ExecS(cpu, Coded, If(c, thn), s, fuel) ==
      match TruthOf(cpu, Coded, c, s)
      case None => Failed
      case Some(b) => if b then ExecB(cpu, Coded, thn, s, fuel) else Normal(s)
  {
    hide AcceptsE, AcceptsB, TruthOf, ExecB;
  }

  /** Where the pieces of a condition without else lie. */
  lemma IfLaid(env: Env, c: Expr, thn: Block, pos: int, na: int, ends: Ends) returns (p: int, end: int, n1: int)
    requires Laid(env, GenS(env.cpu, If(c, thn), pos), pos, na, ends)
    ensures p == pos + Size(GenE(env.cpu, c, 0)) + 14
    ensures end == p + Size(GenB(env.cpu, thn, p)) == pos + Size(GenS(env.cpu, If(c, thn), pos))
    ensures 0 <= end <= |env.code|
    ensures Laid(env, GenE(env.cpu, c, 0) + [Op(TestZero), JeTo(At(end))], pos, na, ends)
    ensures Laid(env, GenB(env.cpu, thn, p), p, n1, ends)
  {
    hide Laid, GenE, GenB, GenS, Size, BlobLen;
    p := IfShape(env.cpu, c, thn, pos);
    var body := GenB(env.cpu, thn, p);
    end := p + Size(body);
    var front := GenE(env.cpu, c, 0) + [Op(TestZero), JeTo(At(end))];
    LaidSplit(env, front, body, pos, na, ends);
    n1 := na + BlobLen(front);
    LaidBounds(env, body, p, n1, ends);
    SizeSome(body);
  }

  lemma SizeSome(c: Code)
    ensures Size(c) >= 0 && (c == [] ==> Size(c) == 0)
  {
  }

  lemma {:induction false} IfRuns(env: Env, c: Expr, thn: Block, loops: nat, na: int, ends: Ends, m: State, fuel: nat) returns (n: nat, m1: State)
    requires AcceptsS(If(c, thn), loops) && Ready(m) && EndsOk(env, ends)
    requires Laid(env, GenS(env.cpu, If(c, thn), m.pc), m.pc, na, ends)
    ensures Lands(env, m, n, m1, ExecS(env.cpu, Coded, If(c, thn), m.store, fuel), m.pc + Size(GenS(env.cpu, If(c, thn), m.pc)), ends, fuel)
    decreases fuel, If(c, thn), 0
  {
    hide Laid, GenE, GenB, GenS, AcceptsE, Run, TruthOf, Lands, AcceptsB, AcceptsS, ExecS, ExecB, EndsOk, Size, BlobLen;
    n, m1 := 0, m;
    ExecIf(env.cpu, c, thn, loops, m.store, fuel);
    var cond := TruthOf(env.cpu, Coded, c, m.store);
    if cond.Some? {
      var p, end, n1 := IfLaid(env, c, thn, m.pc, na, ends);
      var k, r := CondRuns(env, c, cond.value, end, na, ends, m);
      if cond.value {
        var j;
        j, m1 := BlockRuns(env, thn, loops, n1, ends, r, fuel);
        LandsAfter(env, m, k, r, j, m1, ExecB(env.cpu, Coded, thn, m.store, fuel), end, ends, fuel);
        n := k + j;
      } else {
        n, m1 := k, r;
        LandsNormal(env, m, n, m1, m.store, end, ends, fuel);
      }
    } else {
      LandsFailed(env, m, n, m1, m.pc + Size(GenS(env.cpu, If(c, thn), m.pc)), ends, fuel);
    }
  }

  lemma LandsNormal(env: Env, m: State, n: nat, m1: State, s: Store, end: int, ends: Ends, fuel: nat)
    requires Run(env, m, n) == Some(m1) && Ready(m1) && m1.pc == end && m1.store == s
    ensures Lands(env, m, n, m1, Normal(s), end, ends, fuel)
  {
  }

  lemma LandsFailed(env: Env, m: State, n: nat, m1: State, end: int, ends: Ends, fuel: nat)
    ensures Lands(env, m, n, m1, Failed, end, ends, fuel)
  {
  }

  /** A then-branch that ends normally jumps over the else-branch. */
  lemma JumpOver(env: Env, m: State, k: nat, r: State, out: Out, at: int, end: int, na: int, ends: Ends, fuel: nat) returns (n: nat, m1: State)
    requires Lands(env, m, k, r, out, at, ends, fuel) && 0 <= end <= |env.code|
    requires Laid(env, [JmpTo(At(end))], at, na, ends)
    ensures Lands(env, m, n, m1, out, end, ends, fuel)
  {
    hide Laid, Run;
    n, m1 := k, r;
    if out.Normal? {
      JumpRuns(env, At(end), na, ends, r);
      m1 := r.(pc := end);
      RunThen(env, m, k, r, 1, m1);
      n := k + 1;
    }
  }

  lemma ExecIfElse(cpu: Cpu, c: Expr, thn: Block, els: Block, loops: nat, s: Store, fuel: nat)
    requires AcceptsS(IfElse(c, thn, els), loops)
    ensures AcceptsE(c, 0) && AcceptsB(thn, loops) && AcceptsB(els, loops)
    ensures ExecS(cpu, Coded, IfElse(c, thn, els), s, fuel) ==
      match TruthOf(cpu, Coded, c, s)
      case None => Failed
      case Some(b) => ExecB(cpu, Coded, if b then thn else els, s, fuel)
  {
    hide AcceptsE, AcceptsB, TruthOf, ExecB;
  }

  /** Where the pieces of a two-way condition lie, code and names. */
  lemma IfElseLaid(env: Env, c: Expr, thn: Block, els: Block, pos: int, na: int, ends: Ends)
    returns (p: int, q: int, end: int, n1: int, n2: int, n3: int)
    requires Laid(env, GenS(env.cpu, IfElse(c, thn, els), pos), pos, na, ends)
    ensures p == pos + Size(GenE(env.cpu, c, 0)) + 14 && q - 5 == p + Size(GenB(env.cpu, thn, p))
    ensures end == q + Size(GenB(env.cpu, els, q)) == pos + Size(GenS(env.cpu, IfElse(c, thn, els), pos))
    ensures 0 <= q <= |env.code| && 0 <= end <= |env.code|
    ensures Laid(env, GenE(env.cpu, c, 0) + [Op(TestZero), JeTo(At(q))], pos, na, ends)
    ensures Laid(env, GenB(env.cpu, thn, p), p, n1, ends)
    ensures Laid(env, [JmpTo(At(end))], q - 5, n2, ends)
    ensures Laid(env, GenB(env.cpu, els, q), q, n3, ends)
  {
    hide Laid, GenE, GenB, GenS, Size, BlobLen;
    p, q, end := IfElseShape(env.cpu, c, thn, els, pos);
    var body, other := GenB(env.cpu, thn, p), GenB(env.cpu, els, q);
    var jump: Code := [JmpTo(At(end))];
    var front := GenE(env.cpu, c, 0) + [Op(TestZero), JeTo(At(q))];
    LaidSplit(env, front, body + (jump + other), pos, na, ends);
    n1 := na + BlobLen(front);
    LaidSplit(env, body, jump + other, p, n1, ends);
    n2 := n1 + BlobLen(body);
    LaidSplit(env, jump, other, p + Size(body), n2, ends);
    n3 := n2 + BlobLen(jump);
    Sizes(jump[0], jump[0], jump[0]);
    LaidBounds(env, jump, q - 5, n2, ends);
    LaidBounds(env, other, q, n3, ends);
  }

  lemma {:induction false} IfElseRuns(env: Env, c: Expr, thn: Block, els: Block, loops: nat, na: int, ends: Ends, m: State, fuel: nat) returns (n: nat, m1: State)
    requires AcceptsS(IfElse(c, thn, els), loops) && Ready(m) && EndsOk(env, ends)
    requires Laid(env, GenS(env.cpu, IfElse(c, thn, els), m.pc), m.pc, na, ends)
    ensures Lands(env, m, n, m1, ExecS(env.cpu, Coded, IfElse(c, thn, els), m.store, fuel), m.pc + Size(GenS(env.cpu, IfElse(c, thn, els), m.pc)), ends, fuel)
    decreases fuel, IfElse(c, thn, els), 0
  {
    hide Laid, GenE, GenB, GenS, AcceptsE, Run, TruthOf, AcceptsB, AcceptsS, ExecS, ExecB, Lands, EndsOk, Size, BlobLen;
    n, m1 := 0, m;
    ExecIfElse(env.cpu, c, thn, els, loops, m.store, fuel);
    var cond := TruthOf(env.cpu, Coded, c, m.store);
    if cond.Some? {
      var p, q, end, n1, n2, n3 := IfElseLaid(env, c, thn, els, m.pc, na, ends);
      var k, r := CondRuns(env, c, cond.value, q, na, ends, m);
      if cond.value {
        var j, r2 := BlockRuns(env, thn, loops, n1, ends, r, fuel);
        var out := ExecB(env.cpu, Coded, thn, m.store, fuel);
        LandsAfter(env, m, k, r, j, r2, out, q - 5, ends, fuel);
        n, m1 := JumpOver(env, m, k + j, r2, out, q - 5, end, n2, ends, fuel);
      } else {
        var j;
        j, m1 := BlockRuns(env, els, loops, n3, ends, r, fuel);
        LandsAfter(env, m, k, r, j, m1, ExecB(env.cpu, Coded, els, m.store, fuel), end, ends, fuel);
        n := k + j;
      }
    } else {
      LandsFailed(env, m, n, m1, m.pc + Size(GenS(env.cpu, IfElse(c, thn, els), m.pc)), ends, fuel);
    }
  }

  lemma {:induction false} LoopRuns(env: Env, body: Block, loops: nat, na: int, ends: Ends, m: State, fuel: nat) returns (n: nat, m1: State)
    requires AcceptsS(Loop(body), loops) && Ready(m) && EndsOk(env, ends)
    requires Laid(env, GenS(env.cpu, Loop(body), m.pc), m.pc, na, ends)
    ensures Lands(env, m, n, m1, ExecS(env.cpu, Coded, Loop(body), m.store, fuel), m.pc + Size(GenS(env.cpu, Loop(body), m.pc)), ends, fuel)
    decreases fuel, Loop(body), 0
  {
    hide Laid, GenE, GenB, GenS, Run, AcceptsB, Size, BlobLen;
    var pos := m.pc;
    GenNamesB(env.cpu, body, loops + 1, pos);
    var inner, end := LoopLaid(env, body, pos, na, ends);
    var own := Ends(end, pos, ends.functionEnd);
    n, m1 := 0, m;
    if fuel == 0 {
      RunZero(env, m);
    } else {
      var jump: Code := [JmpTo(At(pos))];
      LaidSplit(env, inner, jump, pos, na, own);
      var out := ExecB(env.cpu, Coded, body, m.store, fuel);
      var k, r := BlockRuns(env, body, loops + 1, na, own, m, fuel);
      n, m1 := k, r;
      if out.Normal? || out.Continued? {
        if out.Normal? {
          JumpRuns(env, At(pos), na + BlobLen(inner), own, r);
          var r2 := r.(pc := pos);
          RunThen(env, m, k, r, 1, r2);
          k, r := k + 1, r2;
        }
        var j;
        j, m1 := StmtRuns(env, Loop(body), loops, na, ends, r, fuel - 1);
        LoopAgain(env, m, k, r, j, m1, ExecS(env.cpu, Coded, Loop(body), r.store, fuel - 1), end, ends, fuel);
        n := k + j;
      }
    }
  }

  lemma LoopAgain(env: Env, m: State, k: nat, r: State, j: nat, m1: State, out: Out, end: int, ends: Ends, fuel: nat)
    requires k > 0 && fuel > 0 && Run(env, m, k) == Some(r) && Lands(env, r, j, m1, out, end, ends, fuel - 1)
    ensures Lands(env, m, k + j, m1, out, end, ends, fuel)
  {
    RunAdd(env, m, k, r, j);
  }

  lemma {:induction false} BlockRuns(env: Env, b: Block, loops: nat, na: int, ends: Ends, m: State, fuel: nat) returns (n: nat, m1: State)
    requires AcceptsB(b, loops) && Ready(m) && EndsOk(env, ends)
    requires Laid(env, GenB(env.cpu, b, m.pc), m.pc, na, ends)
    ensures Lands(env, m, n, m1, ExecB(env.cpu, Coded, b, m.store, fuel), m.pc + Size(GenB(env.cpu, b, m.pc)), ends, fuel)
    decreases fuel, b, 0
  {
    hide Laid, GenS, Run, AcceptsS, ExecS, Size, BlobLen, EndsOk;
    n, m1 := 0, m;
    match b
    case Nil => RunZero(env, m); SizeSome([]);
    case Cons(hd, tl) =>
      var first := GenS(env.cpu, hd, m.pc);
      var rest := GenB(env.cpu, tl, m.pc + Size(first));
      LaidSplit(env, first, rest, m.pc, na, ends);
      SizeApp(first, rest);
      var k, r := StmtRuns(env, hd, loops, na, ends, m, fuel);
      n, m1 := k, r;
      if ExecS(env.cpu, Coded, hd, m.store, fuel).Normal? {
        var j;
        j, m1 := BlockRuns(env, tl, loops, na + BlobLen(first), ends, r, fuel);
        LandsAfter(env, m, k, r, j, m1, ExecB(env.cpu, Coded, tl, r.store, fuel), r.pc + Size(rest), ends, fuel);
        n := k + j;
      }
  }

  // ----- a whole function

  lemma {:induction false} NoEscapeS(cpu: Cpu, st: Stmt, s: Store, fuel: nat)
    requires AcceptsS(st, 0)
    ensures !ExecS(cpu, Coded, st, s, fuel).Broke? && !ExecS(cpu, Coded, st, s, fuel).Continued?
    decreases fuel, st, 1
  {
    hide StrictEval, TruthOf, Set, Declare;
    match st
    case If(_, thn) => NoEscape(cpu, thn, s, fuel);
    case IfElse(_, thn, els) =>
      NoEscape(cpu, thn, s, fuel);
      NoEscape(cpu, els, s, fuel);
    case Loop(body) =>
      if fuel > 0 {
        var o := ExecB(cpu, Coded, body, s, fuel);
        if o.Normal? || o.Continued? {
          NoEscapeS(cpu, st, o.s, fuel - 1);
        }
      }
    case _ =>
  }

  /** A function body the compiler accepts never breaks out of nothing. */
  lemma {:induction false} NoEscape(cpu: Cpu, b: Block, s: Store, fuel: nat)
    requires AcceptsB(b, 0)
    ensures !ExecB(cpu, Coded, b, s, fuel).Broke? && !ExecB(cpu, Coded, b, s, fuel).Continued?
    decreases fuel, b, 0
  {
    match b
    case Nil =>
    case Cons(hd, tl) =>
      NoEscapeS(cpu, hd, s, fuel);
      var o := ExecS(cpu, Coded, hd, s, fuel);
      if o.Normal? {
        NoEscape(cpu, tl, o.s, fuel);
      }
  }

  /** The machine as machine_jit_execute_typed enters it: at the first byte, both trace cells
      cleared, registers and frame holding anything. */
  ghost predicate Entry(m: State, s: Store) {
    m.pc == 0 && Ready(m) && m.trace == EMPTY && m.left == EMPTY && m.store == s
  }

  /** What the caller gets: the trace, or the numeric register as a double if the trace is empty. */
  function JitResult(m: State): Cell {
    if m.trace.ty != TyCode(TUnknown) then m.trace else Cell(TyCode(TDouble), m.regs.num)
  }

  lemma FunctionLaid(cpu: Cpu, b: Block, addr: Symbol -> nat) returns (env: Env)
    requires AcceptsB(b, 0) && AddrOk(addr) && NamesOk(Body(cpu, b)) && |FunctionBytes(cpu, b, addr)| < 0x8000_0000
    ensures env == Env(cpu, addr, FunctionBytes(cpu, b, addr))
    ensures HasAt(env.code, 0, Enc(Prologue))
    ensures Laid(env, Body(cpu, b), PROLOGUE_LEN, NamesStart(Body(cpu, b)), FunctionEnds(Body(cpu, b)))
    ensures HasAt(env.code, FunctionEnds(Body(cpu, b)).functionEnd, Enc(Epilogue))
  {
    hide GenB, Enc, AddrOk, NameOk;
    var c := Body(cpu, b);
    var ends := FunctionEnds(c);
    var code := FunctionBytes(cpu, b, addr);
    env := Env(cpu, addr, code);
    var body := Emit(c, PROLOGUE_LEN, NamesStart(c), ends, addr);
    EncLen(Prologue);
    EncLen(Epilogue);
    EmitSize(c, PROLOGUE_LEN, NamesStart(c), ends, addr);
    assert HasAt(code, 0, code);
    HasSplit(code, 0, Enc(Prologue) + body + Enc(Epilogue), Blob(c));
    HasSplit(code, 0, Enc(Prologue) + body, Enc(Epilogue));
    HasSplit(code, 0, Enc(Prologue), body);
  }

  /** After n steps the machine is where a run that ended with `out` says: halted with that store and,
      for a returned value, that value and type in the result; or still running. */
  ghost predicate EndsAs(cpu: Cpu, out: Out, n: nat, m: State, fuel: nat) {
    match out
    case Normal(s) => m.halted && m.store == s
    case Returned(s, r) => m.halted && m.store == s && (r.Some? ==> Unbox(cpu, JitResult(m)) == r)
    case OutOfFuel => !m.halted && n >= fuel
    case _ => false
  }

  /** A compiled function run from its first byte ends exactly as the coded run of its body ends:
      same store and, for a returned value, that value and type in the result; and as long as the
      coded run is still turning loops the machine keeps running too. */
  lemma FunctionRuns(cpu: Cpu, b: Block, addr: Symbol -> nat, s: Store, m0: State, fuel: nat) returns (n: nat, m1: State)
    requires AcceptsB(b, 0) && AddrOk(addr) && NamesOk(Body(cpu, b)) && |FunctionBytes(cpu, b, addr)| < 0x8000_0000
    requires Entry(m0, s) && ExecB(cpu, Coded, b, s, fuel) != Failed
    ensures Run(Env(cpu, addr, FunctionBytes(cpu, b, addr)), m0, n) == Some(m1)
    ensures EndsAs(cpu, ExecB(cpu, Coded, b, s, fuel), n, m1, fuel)
  {
    hide GenB, Enc, AddrOk, NamesOk, AcceptsB, FunctionBytes, Laid, HasAt, Run, Decode, Unbox;
    var env := FunctionLaid(cpu, b, addr);
    var c := Body(cpu, b);
    var ends, na := FunctionEnds(c), NamesStart(c);
    LaidBounds(env, c, PROLOGUE_LEN, na, ends);
    RunOne(env, m0, Prologue);
    var r0 := m0.(pc := PROLOGUE_LEN);
    var k, r := BlockRuns(env, b, 0, na, ends, r0, fuel);
    var out := ExecB(cpu, Coded, b, s, fuel);
    NoEscape(cpu, b, s, fuel);
    LandsAfter(env, m0, 1, r0, k, r, out, PROLOGUE_LEN + Size(c), ends, fuel);
    n, m1 := 1 + k, r;
    if out.Normal? || out.Returned? {
      RunOne(env, r, Epilogue);
      m1 := r.(pc := r.pc + 5, halted := true);
      RunThen(env, m0, n, r, 1, m1);
      n := n + 1;
      UnboxKnown(cpu, m1.trace);
    }
  }

  lemma UnboxKnown(cpu: Cpu, c: Cell)
    ensures Unbox(cpu, c).Some? ==> c.ty != TyCode(TUnknown)
  {
  }

  /** Steps already taken were possible, and a machine that goes on has not halted. */
  lemma {:induction false} RunPrefix(env: Env, m: State, n: nat, k: nat)
    requires Run(env, m, n).Some? && k <= n
    ensures Run(env, m, k).Some?
    ensures k < n ==> !Run(env, m, k).value.halted
    decreases n
  {
    hide Step;
    if k > 0 {
      RunPrefix(env, Step(env, m).value, n - 1, k - 1);
    } else if k < n {
      HaltedStays(env, m);
    }
  }

  lemma HaltedStays(env: Env, m: State)
    ensures m.halted ==> Step(env, m).None?
  {
  }

  /** A program whose coded run never ends has a compiled form that never halts and is never
      stuck. */
  lemma DivergenceKept(cpu: Cpu, b: Block, addr: Symbol -> nat, s: Store, m0: State, k: nat)
    requires AcceptsB(b, 0) && AddrOk(addr) && NamesOk(Body(cpu, b)) && |FunctionBytes(cpu, b, addr)| < 0x8000_0000
    requires Entry(m0, s) && forall fuel: nat :: ExecB(cpu, Coded, b, s, fuel) == OutOfFuel
    ensures Run(Env(cpu, addr, FunctionBytes(cpu, b, addr)), m0, k).Some?
    ensures !Run(Env(cpu, addr, FunctionBytes(cpu, b, addr)), m0, k).value.halted
  {
    hide FunctionBytes, Run, AcceptsB, AddrOk, NamesOk, ExecB;
    var n, m1 := FunctionRuns(cpu, b, addr, s, m0, k + 1);
    RunPrefix(Env(cpu, addr, FunctionBytes(cpu, b, addr)), m0, n, k);
  }
}
