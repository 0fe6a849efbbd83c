/** Running the code of an expression leaves its value in the registers. */
module ExprCorrect {
  import opened Options
  import opened Values
  import opened Language
  import opened MachineCode
  import opened Machine
  import opened CodeGen

  // ----- straight-line execution of items

  function DoItem(env: Env, x: Item, na: int, ends: Ends, m: State): Option<State> {
    Do(env, Final(x, m.pc, na, ends, env.addr), m.(pc := m.pc + ItemLen(x)))
  }

  function Straight(env: Env, c: Code, na: int, ends: Ends, m: State): Option<State>
    decreases |c|
  {
    if c == [] then Some(m) else
    match DoItem(env, c[0], na, ends, m)
    case None => None
    case Some(m1) => Straight(env, c[1..], na + NameLen(c[0]), ends, m1)
  }

  lemma {:induction false} StraightApp(env: Env, a: Code, b: Code, na: int, ends: Ends, m: State, m1: State)
    requires Straight(env, a, na, ends, m) == Some(m1)
    ensures Straight(env, a + b, na, ends, m) == Straight(env, b, na + BlobLen(a), ends, m1)
    decreases |a|
  {
    hide DoItem;
    if a == [] {
      assert a + b == b;
    } else {
      assert (a + b)[1..] == a[1..] + b;
      StraightApp(env, a[1..], b, na + NameLen(a[0]), ends, DoItem(env, a[0], na, ends, m).value, m1);
    }
  }

  /** Code without jumps whose operands fit their fields. */
  predicate Plain(c: Code) {
    forall k :: 0 <= k < |c| ==> PlainItem(c[k])
  }

  predicate PlainItem(x: Item) {
    match x
    case Op(i) => Encodable(i) && !i.Jmp? && !i.Je? && !i.Epilogue?
    case JmpTo(_) => false
    case JeTo(_) => false
    case CallSym(s) => Modelled(s)
    case _ => true
  }

  ghost predicate EnvOk(env: Env) {
    AddrOk(env.addr) && |env.code| < 0x8000_0000
  }

  lemma PlainDo(env: Env, x: Item, na: int, ends: Ends, m: State, m1: State)
    requires PlainItem(x) && DoItem(env, x, na, ends, m) == Some(m1)
    ensures m1.pc == m.pc + ItemLen(x) && m1.halted == m.halted
  {
    hide Do;
    PlainStep(env, Final(x, m.pc, na, ends, env.addr), m.(pc := m.pc + ItemLen(x)), m1);
  }

  lemma PlainStep(env: Env, i: Instr, m: State, m1: State)
    requires !i.Jmp? && !i.Je? && !i.Epilogue? && Do(env, i, m) == Some(m1)
    ensures m1.pc == m.pc && m1.halted == m.halted
  {
    hide TestsFalse, CallAt;
    if i.CallAbs? {
      CallKeeps(env, i.addr, m);
    }
  }

  /** No helper moves the program counter or stops the machine. */
  lemma CallKeeps(env: Env, a: nat, m: State)
    ensures var r := CallAt(env, a, m); r.Some? ==> r.value.pc == m.pc && r.value.halted == m.halted
  {
    hide SymbolId, SymbolAt, Helper;
    if SymbolId(env.addr, a) != SYMBOL_COUNT {
      HelperKeeps(env, SymbolAt(SymbolId(env.addr, a)), m);
    }
  }

  lemma HelperKeeps(env: Env, s: Symbol, m: State)
    ensures var r := Helper(env, s, m); r.Some? ==> r.value.pc == m.pc && r.value.halted == m.halted
  {
    hide Combine;
  }

  lemma FinalEncodable(env: Env, x: Item, at: int, na: int, ends: Ends)
    requires EnvOk(env) && PlainItem(x) && 0 <= at <= |env.code| - ItemLen(x)
    requires x.LeaName? ==> 0 <= na <= |env.code|
    ensures Encodable(Final(x, at, na, ends, env.addr)) && Len(Final(x, at, na, ends, env.addr)) == ItemLen(x)
  {
  }

  /** Straight-line items whose bytes lie at pc and whose names lie at na run as they should. */
  lemma {:induction false} StraightRuns(env: Env, c: Code, na: int, ends: Ends, m: State, m1: State)
    requires EnvOk(env) && Plain(c) && !m.halted
    requires HasAt(env.code, m.pc, Emit(c, m.pc, na, ends, env.addr))
    requires 0 <= na && na + BlobLen(c) <= |env.code|
    requires Straight(env, c, na, ends, m) == Some(m1)
    ensures Run(env, m, |c|) == Some(m1) && m1.pc == m.pc + Size(c) && !m1.halted
    decreases |c|
  {
    hide Do, Enc, Decode, HasAt, Final, PlainItem, EnvOk;
    if c != [] {
      var x := c[0];
      var i := Final(x, m.pc, na, ends, env.addr);
      var tail := Emit(c[1..], m.pc + ItemLen(x), na + NameLen(x), ends, env.addr);
      assert PlainItem(x);
      HasSplit(env.code, m.pc, Enc(i), tail);
      FieldRoom(env, x, m.pc, na, ends);
      EncLen(i);
      RunOne(env, m, i);
      var m' := DoItem(env, x, na, ends, m).value;
      PlainDo(env, x, na, ends, m, m');
      StraightRuns(env, c[1..], na + NameLen(x), ends, m', m1);
      RunAdd(env, m, 1, m', |c| - 1);
    }
  }

  lemma FieldRoom(env: Env, x: Item, at: int, na: int, ends: Ends)
    requires EnvOk(env) && PlainItem(x) && HasAt(env.code, at, Enc(Final(x, at, na, ends, env.addr)))
    requires x.LeaName? ==> 0 <= na <= |env.code|
    ensures Encodable(Final(x, at, na, ends, env.addr)) && Len(Final(x, at, na, ends, env.addr)) == ItemLen(x)
  {
    hide Enc;
    EncLen(Final(x, at, na, ends, env.addr));
    assert Len(Final(x, at, na, ends, env.addr)) == ItemLen(x);
    FinalEncodable(env, x, at, na, ends);
  }

  // ----- single items

  lemma StraightStep(env: Env, c: Code, na: int, ends: Ends, m: State, m1: State)
    requires c != [] && DoItem(env, c[0], na, ends, m) == Some(m1)
    ensures Straight(env, c, na, ends, m) == Straight(env, c[1..], na + NameLen(c[0]), ends, m1)
  {
  }

  /** A call through a helper's address reaches that helper. */
  lemma CallReaches(env: Env, s: Symbol, na: int, ends: Ends, m: State, m1: State)
    requires AddrOk(env.addr) && Modelled(s)
    requires Helper(env, s, m.(pc := m.pc + 12)) == Some(m1)
    ensures DoItem(env, CallSym(s), na, ends, m) == Some(AfterCall(s, m1))
  {
    hide Helper, AddrOk, SymbolAt, SymbolId;
    SymbolFound(env.addr, s);
  }

  lemma CallFromRegs(env: Env, na: int, ends: Ends, m: State)
    requires AddrOk(env.addr)
    ensures DoItem(env, CallSym(TraceFromRegs), na, ends, m) == Some(m.(pc := m.pc + 12, trace := m.regs, regs := EMPTY, rsi := 0))
  {
    hide AddrOk, DoItem;
    CallReaches(env, TraceFromRegs, na, ends, m, m.(pc := m.pc + 12, trace := m.regs));
  }

  lemma CallCapture(env: Env, na: int, ends: Ends, m: State)
    requires AddrOk(env.addr)
    ensures DoItem(env, CallSym(CaptureLeft), na, ends, m) == Some(m.(pc := m.pc + 12, left := m.trace, trace := EMPTY, regs := EMPTY, rsi := 0, rdi := 0))
  {
    hide AddrOk, DoItem;
    CallReaches(env, CaptureLeft, na, ends, m, m.(pc := m.pc + 12, left := m.trace, trace := EMPTY));
  }

  lemma StoreItem(env: Env, d: nat, na: int, ends: Ends, m: State)
    requires d < |m.slots|
    ensures DoItem(env, Op(StoreSlot(d)), na, ends, m) == Some(m.(pc := m.pc + 21, slots := m.slots[d := m.regs]))
  {
  }

  lemma LoadItem(env: Env, d: nat, na: int, ends: Ends, m: State)
    requires d < |m.slots|
    ensures DoItem(env, Op(LoadSlot(d)), na, ends, m) == Some(m.(pc := m.pc + 21, regs := m.slots[d]))
  {
  }

  lemma ResultItem(env: Env, na: int, ends: Ends, m: State)
    ensures DoItem(env, LoadTrace, na, ends, m) == Some(m.(pc := m.pc + 23, regs := m.trace))
  {
  }

  lemma LeaItem(env: Env, n: Name, na: int, ends: Ends, m: State)
    ensures DoItem(env, LeaName(n), na, ends, m) == Some(m.(pc := m.pc + 7, rdi := na))
  {
  }

  lemma Sizes(a: Item, b: Item, c: Item)
    ensures Size([a]) == ItemLen(a) && Size([a, b]) == ItemLen(a) + ItemLen(b)
    ensures Size([a, b, c]) == ItemLen(a) + ItemLen(b) + ItemLen(c)
  {
    hide ItemLen;
    assert [b][1..] == [] && [a, b][1..] == [b] && [a, b, c][1..] == [b, c] && [b, c][1..] == [c] && [a][1..] == [] && [c][1..] == [];
    assert Size([c]) == ItemLen(c);
    assert Size([b]) == ItemLen(b);
    assert Size([b, c]) == ItemLen(b) + ItemLen(c);
  }

  lemma NamesParts(c: Code, k: nat)
    requires NamesOk(c) && k < |c| && c[k].LeaName?
    ensures NamesOk(c[..k]) && NamesOk([c[k]] + c[k + 1..]) && NamesOk(c[k + 1..]) && NameOk(c[k].n)
  {
    hide NameOk;
  }

  lemma BlobHead(x: Item, c: Code)
    requires x.LeaName? && NameOk(x.n) && NamesOk([x] + c) && NamesOk(c)
    ensures Blob([x] + c) == NameBytes(x.n) + Blob(c)
  {
    hide NameOk, NameBytes;
    assert ([x] + c)[1..] == c;
  }

  /** The bytes of one name. */
  lemma NameRead(env: Env, c: Code, k: nat, na: int)
    requires NamesOk(c) && HasAt(env.code, na, Blob(c)) && k < |c| && c[k].LeaName?
    ensures CStr(env.code, na + BlobLen(c[..k])) == c[k].n
  {
    hide HasAt, CStr, NameBytes, NameOk, NamesOk, Blob, BlobLen;
    var front, rest := c[..k], [c[k]] + c[k + 1..];
    assert c == front + rest;
    NamesParts(c, k);
    BlobApp(front, rest);
    BlobSize(front);
    HasSplit(env.code, na, Blob(front), Blob(rest));
    BlobHead(c[k], c[k + 1..]);
    HasSplit(env.code, na + BlobLen(c[..k]), NameBytes(c[k].n), Blob(c[k + 1..]));
    CStrRead(env.code, na + BlobLen(c[..k]), c[k].n);
  }

  // ----- expressions

  /** Everything but the registers, the trace cells and the slots from d on is as before. */
  ghost predicate Keeps(m: State, m1: State, d: nat, len: int) {
    && m1.pc == m.pc + len && m1.store == m.store && m1.halted == m.halted
    && |m1.slots| == |m.slots| && (forall k :: 0 <= k < d && k < |m.slots| ==> m1.slots[k] == m.slots[k])
  }

  ghost predicate NamesAt(env: Env, c: Code, na: int) { NamesOk(c) && HasAt(env.code, na, Blob(c)) }

  lemma NamesAtSplit(env: Env, a: Code, b: Code, na: int)
    requires NamesAt(env, a + b, na)
    ensures NamesAt(env, a, na) && NamesAt(env, b, na + BlobLen(a))
  {
    hide NameOk;
    forall k | 0 <= k < |a| && a[k].LeaName? ensures NameOk(a[k].n) {
      assert (a + b)[k] == a[k];
    }
    forall k | 0 <= k < |b| && b[k].LeaName? ensures NameOk(b[k].n) {
      assert (a + b)[|a| + k] == b[k];
    }
    BlobApp(a, b);
    BlobSize(a);
    HasSplit(env.code, na, Blob(a), Blob(b));
  }

  lemma ImmItem(env: Env, bits: nat, na: int, ends: Ends, m: State)
    ensures DoItem(env, Op(LoadImm(bits)), na, ends, m) == Some(m.(pc := m.pc + 15, regs := Cell(m.regs.ty, bits)))
  {
  }

  lemma TypeItem(env: Env, ty: nat, na: int, ends: Ends, m: State)
    ensures DoItem(env, Op(MovEdx(ty)), na, ends, m) == Some(m.(pc := m.pc + 5, regs := Cell(ty, m.regs.num)))
  {
  }

  lemma XorItem(env: Env, na: int, ends: Ends, m: State)
    ensures DoItem(env, Op(XorRcx), na, ends, m) == Some(m.(pc := m.pc + 3))
  {
  }

  lemma NumRuns(env: Env, bits: nat, d: nat, na: int, ends: Ends, m: State) returns (m1: State)
    ensures Straight(env, GenE(env.cpu, Num(bits), d), na, ends, m) == Some(m1)
    ensures m1.regs == ResultCell(env.cpu, Num(bits), Literal(env.cpu, bits)) && Keeps(m, m1, d, Size(GenE(env.cpu, Num(bits), d)))
  {
    hide IntLiteral, SymbolAt, CallAt, DoItem;
    var c := GenE(env.cpu, Num(bits), d);
    var ty := TyCode(if IntLiteral(env.cpu, bits) then TInt else TDouble);
    ImmItem(env, bits, na, ends, m);
    TypeItem(env, ty, na, ends, m.(pc := m.pc + 15, regs := Cell(m.regs.ty, bits)));
    XorItem(env, na, ends, m.(pc := m.pc + 20, regs := Cell(ty, bits)));
    m1 := m.(pc := m.pc + 15, regs := Cell(m.regs.ty, bits));
    StraightStep(env, c, na, ends, m, m1);
    assert c[1..] == [Op(MovEdx(ty)), Op(XorRcx)];
    var m2 := m1.(pc := m1.pc + 5, regs := Cell(ty, bits));
    StraightStep(env, c[1..], na, ends, m1, m2);
    assert c[1..][1..] == [Op(XorRcx)];
    m1 := m2.(pc := m2.pc + 3);
    StraightStep(env, c[1..][1..], na, ends, m2, m1);
    Sizes(c[0], c[1], c[2]);
  }

  lemma VarRuns(env: Env, n: Name, v: Value, d: nat, na: int, ends: Ends, m: State) returns (m1: State)
    requires AddrOk(env.addr) && NamesAt(env, GenE(env.cpu, Var(n), d), na) && Get(m.store, n) == Some(v)
    ensures Straight(env, GenE(env.cpu, Var(n), d), na, ends, m) == Some(m1)
    ensures m1.regs == Box(env.cpu, v) && Keeps(m, m1, d, Size(GenE(env.cpu, Var(n), d)))
  {
    hide SymbolAt, SymbolId, AddrOk, HasAt, DoItem, Box, CStr, Get, Blob;
    var c: Code := [LeaName(n), CallSym(GetVariable), LoadTrace];
    NameRead(env, c, 0, na);
    assert c[..0] == [];
    var n1 := na + NameLen(c[0]);
    LeaItem(env, n, na, ends, m);
    var r1 := m.(pc := m.pc + 7, rdi := na);
    StraightStep(env, c, na, ends, m, r1);
    assert c[1..] == [CallSym(GetVariable), LoadTrace];
    var r2 := r1.(pc := r1.pc + 12, trace := Box(env.cpu, v));
    CallReaches(env, GetVariable, n1, ends, r1, r2);
    r2 := AfterCall(GetVariable, r2);
    StraightStep(env, c[1..], n1, ends, r1, r2);
    assert c[1..][1..] == [LoadTrace];
    ResultItem(env, n1, ends, r2);
    m1 := r2.(pc := r2.pc + 23, regs := r2.trace);
    StraightStep(env, c[1..][1..], n1, ends, r2, m1);
    Sizes(c[0], c[1], c[2]);
  }

  lemma NegTail(env: Env, cell: Cell, v: Value, w: Value, d: nat, na: int, ends: Ends, m: State) returns (m1: State)
    requires AddrOk(env.addr) && m.regs == cell && Unbox(env.cpu, cell) == Some(v) && Negate(env.cpu, v) == Some(w)
    ensures Straight(env, [CallSym(TraceFromRegs), CallSym(NegRt), LoadTrace], na, ends, m) == Some(m1)
    ensures m1.regs == Box(env.cpu, w) && Keeps(m, m1, d, 47)
  {
    hide SymbolAt, SymbolId, AddrOk, Box, Unbox, Negate, DoItem;
    var c: Code := [CallSym(TraceFromRegs), CallSym(NegRt), LoadTrace];
    CallFromRegs(env, na, ends, m);
    var s1 := m.(pc := m.pc + 12, trace := m.regs, regs := EMPTY, rsi := 0);
    StraightStep(env, c, na, ends, m, s1);
    assert c[1..] == [CallSym(NegRt), LoadTrace];
    var r2 := s1.(pc := s1.pc + 12, trace := Box(env.cpu, w));
    CallReaches(env, NegRt, na, ends, s1, r2);
    r2 := AfterCall(NegRt, r2);
    StraightStep(env, c[1..], na, ends, s1, r2);
    assert c[1..][1..] == [LoadTrace];
    ResultItem(env, na, ends, r2);
    m1 := r2.(pc := r2.pc + 23, regs := r2.trace);
    StraightStep(env, c[1..][1..], na, ends, r2, m1);
  }

  /** Both operands are fetched from their slots: the left one ends in `left`, the right one in
      the trace. */
  lemma OperandsRun(env: Env, a: Cell, b: Cell, d: nat, na: int, ends: Ends, m: State) returns (m1: State)
    requires AddrOk(env.addr) && d + 1 < |m.slots| && m.slots[d] == a && m.regs == b
    ensures Straight(env, Operands(d), na, ends, m) == Some(m1)
    ensures m1.left == a && m1.trace == b && Keeps(m, m1, d, 99)
  {
    hide AddrOk, DoItem;
    var c := Operands(d);
    StoreItem(env, d + 1, na, ends, m);
    var r1 := m.(pc := m.pc + 21, slots := m.slots[d + 1 := b]);
    StraightStep(env, c, na, ends, m, r1);
    var c1 := c[1..];
    assert c1[0] == Op(LoadSlot(d));
    LoadItem(env, d, na, ends, r1);
    var r2 := r1.(pc := r1.pc + 21, regs := a);
    StraightStep(env, c1, na, ends, r1, r2);
    var c2 := c1[1..];
    assert c2[0] == CallSym(TraceFromRegs);
    CallFromRegs(env, na, ends, r2);
    var r3 := r2.(pc := r2.pc + 12, trace := a, regs := EMPTY, rsi := 0);
    StraightStep(env, c2, na, ends, r2, r3);
    var c3 := c2[1..];
    assert c3 == [CallSym(CaptureLeft), Op(LoadSlot(d + 1)), CallSym(TraceFromRegs)];
    m1 := SecondOperand(env, b, d, na, ends, r3);
  }

  lemma SecondOperand(env: Env, b: Cell, d: nat, na: int, ends: Ends, m: State) returns (m1: State)
    requires AddrOk(env.addr) && d + 1 < |m.slots| && m.slots[d + 1] == b
    ensures Straight(env, [CallSym(CaptureLeft), Op(LoadSlot(d + 1)), CallSym(TraceFromRegs)], na, ends, m) == Some(m1)
    ensures m1.left == m.trace && m1.trace == b && m1.slots == m.slots && Keeps(m, m1, d, 45)
  {
    hide AddrOk, DoItem;
    var c: Code := [CallSym(CaptureLeft), Op(LoadSlot(d + 1)), CallSym(TraceFromRegs)];
    CallCapture(env, na, ends, m);
    var r1 := m.(pc := m.pc + 12, left := m.trace, trace := EMPTY, regs := EMPTY, rsi := 0, rdi := 0);
    StraightStep(env, c, na, ends, m, r1);
    var c1 := c[1..];
    assert c1 == [Op(LoadSlot(d + 1)), CallSym(TraceFromRegs)];
    LoadItem(env, d + 1, na, ends, r1);
    var r2 := r1.(pc := r1.pc + 21, regs := b);
    StraightStep(env, c1, na, ends, r1, r2);
    assert c1[1..] == [CallSym(TraceFromRegs)];
    CallFromRegs(env, na, ends, r2);
    m1 := r2.(pc := r2.pc + 12, trace := b, regs := EMPTY, rsi := 0);
    StraightStep(env, c1[1..], na, ends, r2, m1);
  }

  function CombineTail(op: BinOp): Code { CmpArg(op) + [CallSym(HelperOf(op)), LoadTrace] }

  lemma HelperCombines(env: Env, op: BinOp, a: Value, b: Value, v: Value, m: State)
    requires Unbox(env.cpu, m.left) == Some(a) && Unbox(env.cpu, m.trace) == Some(b) && Apply(env.cpu, op, a, b) == Some(v)
    requires op.Cmp? ==> m.rdi == CmpCode(op.cmp)
    ensures Helper(env, HelperOf(op), m) == Some(m.(trace := Box(env.cpu, v), left := EMPTY))
  {
    hide Unbox, Apply, Box;
  }

  lemma CombineRuns(env: Env, op: BinOp, a: Value, b: Value, v: Value, d: nat, na: int, ends: Ends, m: State) returns (m1: State)
    requires AddrOk(env.addr)
    requires Unbox(env.cpu, m.left) == Some(a) && Unbox(env.cpu, m.trace) == Some(b) && Apply(env.cpu, op, a, b) == Some(v)
    ensures Straight(env, CombineTail(op), na, ends, m) == Some(m1)
    ensures m1.regs == Box(env.cpu, v) && Keeps(m, m1, d, Size(CombineTail(op)))
  {
    hide SymbolAt, SymbolId, AddrOk, Box, Unbox, Apply, HelperOf, Helper, DoItem;
    var h := HelperOf(op);
    HelperModelled(op);
    var tail: Code := [CallSym(h), LoadTrace];
    SizeApp(CmpArg(op), tail);
    var r1 := m;
    if op.Cmp? {
      Sizes(CmpArg(op)[0], tail[0], tail[1]);
      r1 := m.(pc := m.pc + 5, rdi := CmpCode(op.cmp));
      EdiItem(env, CmpCode(op.cmp), na, ends, m);
      StraightStep(env, CombineTail(op), na, ends, m, r1);
      assert CombineTail(op)[1..] == tail;
    } else {
      assert CombineTail(op) == tail;
    }
    var s1 := r1.(pc := r1.pc + 12);
    HelperCombines(env, op, a, b, v, s1);
    var r2 := s1.(trace := Box(env.cpu, v), left := EMPTY);
    CallReaches(env, h, na, ends, r1, r2);
    r2 := AfterCall(h, r2);
    StraightStep(env, tail, na, ends, r1, r2);
    assert tail[1..] == [LoadTrace];
    ResultItem(env, na, ends, r2);
    m1 := r2.(pc := r2.pc + 23, regs := r2.trace);
    StraightStep(env, tail[1..], na, ends, r2, m1);
    Sizes(tail[0], tail[1], tail[1]);
  }

  lemma EdiItem(env: Env, k: nat, na: int, ends: Ends, m: State)
    ensures DoItem(env, Op(MovEdi(k)), na, ends, m) == Some(m.(pc := m.pc + 5, rdi := k))
  {
  }

  lemma HelperModelled(op: BinOp)
    ensures Modelled(HelperOf(op))
  {
  }

  /** Cells the compiler leaves always unbox to the value. */
  lemma CellUnboxes(cpu: Cpu, e: Expr, s: Store, v: Value)
    requires StrictEval(cpu, e, s) == Some(v)
    ensures Unbox(cpu, ResultCell(cpu, e, v)) == Some(v)
  {
  }

  /** For every call-free numeric tree the compiler accepts at depth d, if all its subtrees
      evaluate and fit, the code leaves exactly the interpreter's value and type in the registers
      and changes neither the store nor any slot below d. */
  lemma {:induction false} ExprStraight(env: Env, e: Expr, d: nat, na: int, ends: Ends, m: State, v: Value) returns (m1: State)
    requires AddrOk(env.addr) && AcceptsE(e, d) && |m.slots| == JIT_MAX_DEPTH
    requires NamesAt(env, GenE(env.cpu, e, d), na)
    requires StrictEval(env.cpu, e, m.store) == Some(v)
    ensures Straight(env, GenE(env.cpu, e, d), na, ends, m) == Some(m1)
    ensures m1.regs == ResultCell(env.cpu, e, v)
    ensures Keeps(m, m1, d, Size(GenE(env.cpu, e, d)))
    decreases e
  {
    hide AddrOk, NamesAt, ResultCell, Box, Unbox, DoItem, IntLiteral;
    match e
    case Num(bits) => m1 := NumRuns(env, bits, d, na, ends, m);
    case Var(n) =>
      m1 := VarRuns(env, n, v, d, na, ends, m);
      BoxedResult(env.cpu, e, v);
    case Neg(o) =>
      var c: Code := [CallSym(TraceFromRegs), CallSym(NegRt), LoadTrace];
      var u := StrictEval(env.cpu, o, m.store).value;
      var first := GenE(env.cpu, o, d);
      NamesAtSplit(env, first, c, na);
      var r1 := ExprStraight(env, o, d, na, ends, m, u);
      CellUnboxes(env.cpu, o, m.store, u);
      m1 := NegTail(env, r1.regs, u, v, d, na + BlobLen(first), ends, r1);
      StraightApp(env, first, c, na, ends, m, r1);
      SizeApp(first, c);
      Sizes(c[0], c[1], c[2]);
      BoxedResult(env.cpu, e, v);
    case Bin(op, l, r) => m1 := BinStraight(env, op, l, r, d, na, ends, m, v);
  }

  lemma BoxedResult(cpu: Cpu, e: Expr, v: Value)
    requires !e.Num?
    ensures ResultCell(cpu, e, v) == Box(cpu, v)
  {
  }

  lemma {:induction false} BinStraight(env: Env, op: BinOp, l: Expr, r: Expr, d: nat, na: int, ends: Ends, m: State, v: Value) returns (m1: State)
    requires AddrOk(env.addr) && AcceptsE(Bin(op, l, r), d) && |m.slots| == JIT_MAX_DEPTH
    requires NamesAt(env, GenE(env.cpu, Bin(op, l, r), d), na)
    requires StrictEval(env.cpu, Bin(op, l, r), m.store) == Some(v)
    ensures Straight(env, GenE(env.cpu, Bin(op, l, r), d), na, ends, m) == Some(m1)
    ensures m1.regs == ResultCell(env.cpu, Bin(op, l, r), v)
    ensures Keeps(m, m1, d, Size(GenE(env.cpu, Bin(op, l, r), d)))
    decreases Bin(op, l, r), 0
  {
    hide AddrOk, NamesAt, ResultCell, Box, Unbox, Apply, Fits, CombineTail, DoItem, Operands, Straight, GenE, Size, BlobLen;
    var cpu := env.cpu;
    var a, b := StrictEval(cpu, l, m.store).value, StrictEval(cpu, r, m.store).value;
    var cl, cr := GenE(cpu, l, d), GenE(cpu, r, d + 1);
    var save: Code := [Op(StoreSlot(d))];
    var tail := CombineTail(op);
    var c4 := Operands(d) + tail;
    var c3 := cr + c4;
    var c2 := save + c3;
    BinShape(cpu, op, l, r, d);
    NamesAtSplit(env, cl, c2, na);
    var n2 := na + BlobLen(cl);
    NamesAtSplit(env, save, c3, n2);
    NoNames(d);
    NamesAtSplit(env, cr, c4, n2);

    var m2 := ExprStraight(env, l, d, na, ends, m, a);
    StraightApp(env, cl, c2, na, ends, m, m2);
    StoreItem(env, d, n2, ends, m2);
    var m3 := m2.(pc := m2.pc + 21, slots := m2.slots[d := m2.regs]);
    StraightStep(env, c2, n2, ends, m2, m3);
    assert c2[1..] == c3;
    var m4 := ExprStraight(env, r, d + 1, n2, ends, m3, b);
    StraightApp(env, cr, c4, n2, ends, m3, m4);
    assert m4.slots[d] == m2.regs;
    var n4 := n2 + BlobLen(cr);
    var m5 := OperandsRun(env, m2.regs, m4.regs, d, n4, ends, m4);
    StraightApp(env, Operands(d), tail, n4, ends, m4, m5);
    CellUnboxes(cpu, l, m.store, a);
    CellUnboxes(cpu, r, m.store, b);
    m1 := CombineRuns(env, op, a, b, v, d, n4, ends, m5);
    BoxedResult(cpu, Bin(op, l, r), v);
    BinSize(cpu, op, l, r, d);
  }

  lemma NoNames(d: nat)
    ensures BlobLen([Op(StoreSlot(d))]) == 0 && BlobLen(Operands(d)) == 0
  {
    var c := Operands(d);
    assert BlobLen(c[4..][1..]) == 0 && BlobLen(c[4..]) == 0;
    assert c[3..][1..] == c[4..] && c[2..][1..] == c[3..] && c[1..][1..] == c[2..];
    assert BlobLen(c[3..]) == 0;
    assert BlobLen(c[2..]) == 0;
    assert BlobLen(c[1..]) == 0;
  }

  lemma BinShape(cpu: Cpu, op: BinOp, l: Expr, r: Expr, d: nat)
    ensures GenE(cpu, Bin(op, l, r), d)
         == GenE(cpu, l, d) + ([Op(StoreSlot(d))] + (GenE(cpu, r, d + 1) + (Operands(d) + CombineTail(op))))
  {
    hide Operands, CmpArg, HelperOf, IntLiteral;
    var a, b := GenE(cpu, l, d), GenE(cpu, r, d + 1);
    Nested(a, [Op(StoreSlot(d))], b, Operands(d), CmpArg(op) + [CallSym(HelperOf(op)), LoadTrace]);
    assert a + [Op(StoreSlot(d))] + b + Operands(d) + CmpArg(op) + [CallSym(HelperOf(op)), LoadTrace]
        == a + [Op(StoreSlot(d))] + b + Operands(d) + (CmpArg(op) + [CallSym(HelperOf(op)), LoadTrace]);
  }

  lemma BinSize(cpu: Cpu, op: BinOp, l: Expr, r: Expr, d: nat)
    ensures Size(GenE(cpu, Bin(op, l, r), d))
         == Size(GenE(cpu, l, d)) + 21 + Size(GenE(cpu, r, d + 1)) + 99 + Size(CombineTail(op))
  {
    hide GenE;
    BinShape(cpu, op, l, r, d);
    var c4 := Operands(d) + CombineTail(op);
    var c3 := GenE(cpu, r, d + 1) + c4;
    SizeApp(GenE(cpu, l, d), [Op(StoreSlot(d))] + c3);
    SizeApp([Op(StoreSlot(d))], c3);
    SizeApp(GenE(cpu, r, d + 1), c4);
    SizeApp(Operands(d), CombineTail(op));
    OperandsSize(d);
  }

  lemma OperandsSize(d: nat)
    ensures Size(Operands(d)) == 99
  {
    var c := Operands(d);
    Sizes(c[0], c[1], c[2]);
    Sizes(c[3], c[4], c[5]);
    assert c == [c[0], c[1], c[2]] + [c[3], c[4], c[5]];
    SizeApp([c[0], c[1], c[2]], [c[3], c[4], c[5]]);
  }

  lemma PlainApp(a: Code, b: Code)
    requires Plain(a) && NamesOk(a) && Plain(b) && NamesOk(b)
    ensures Plain(a + b) && NamesOk(a + b)
  {
    hide PlainItem, NameOk;
  }

  lemma TailPlain(op: BinOp, d: nat)
    requires d + 2 <= JIT_MAX_DEPTH
    ensures Plain(Operands(d) + CombineTail(op)) && NamesOk(Operands(d) + CombineTail(op))
    ensures Plain([Op(StoreSlot(d))]) && NamesOk([Op(StoreSlot(d))])
  {
    HelperModelled(op);
    hide HelperOf;
    assert Plain(Operands(d)) && NamesOk(Operands(d));
    assert Plain(CmpArg(op)) && NamesOk(CmpArg(op));
    assert Plain([CallSym(HelperOf(op)), LoadTrace]) && NamesOk([CallSym(HelperOf(op)), LoadTrace]);
    PlainApp(CmpArg(op), [CallSym(HelperOf(op)), LoadTrace]);
    PlainApp(Operands(d), CombineTail(op));
  }

  /** Expression code has no jumps and its operands fit their fields. */
  lemma {:induction false} ExprPlain(cpu: Cpu, e: Expr, d: nat)
    requires AcceptsE(e, d)
    ensures Plain(GenE(cpu, e, d)) && NamesOk(GenE(cpu, e, d))
  {
    hide NameOk;
    match e
    case Num(_) =>
    case Var(_) =>
    case Neg(o) =>
      ExprPlain(cpu, o, d);
      PlainApp(GenE(cpu, o, d), [CallSym(TraceFromRegs), CallSym(NegRt), LoadTrace]);
    case Bin(op, l, r) =>
      ExprPlain(cpu, l, d);
      ExprPlain(cpu, r, d + 1);
      TailPlain(op, d);
      BinShape(cpu, op, l, r, d);
      var c4 := Operands(d) + CombineTail(op);
      PlainApp(GenE(cpu, r, d + 1), c4);
      PlainApp([Op(StoreSlot(d))], GenE(cpu, r, d + 1) + c4);
      PlainApp(GenE(cpu, l, d), [Op(StoreSlot(d))] + (GenE(cpu, r, d + 1) + c4));
  }
}
