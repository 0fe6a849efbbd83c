/** The code generator: what is emitted for each expression and statement, with jump targets and
    name references still symbolic, and what the bytes are once they are settled. */
module CodeGen {
  import opened Values
  import opened Language
  import opened MachineCode

  /** Where a jump goes: settled, or waiting for the enclosing loop's end or start, or for the
      function's epilogue. */
  datatype Target = At(pos: int) | LoopEnd | LoopStart | FunctionEnd

  datatype Item =
    | Op(i: Instr)
    | CallSym(s: Symbol)
    | LoadTrace
    | LeaName(n: Name)
    | JmpTo(t: Target)
    | JeTo(t: Target)

  type Code = seq<Item>

  function ItemLen(x: Item): nat {
    match x
    case Op(i) => Len(i) case CallSym(_) => 12 case LoadTrace => 23
    case LeaName(_) => 7 case JmpTo(_) => 5 case JeTo(_) => 6
  }

  function Size(c: Code): nat {
    if c == [] then 0 else ItemLen(c[0]) + Size(c[1..])
  }

  // ----- expressions

  function HelperOf(op: BinOp): Symbol {
    match op
    case Ar(o) => (match o case Plus => AddRt case Minus => SubRt case Times => MulRt case Over => DivRt)
    case Rem => ModRt
    case Bit(o) => (match o case Shl => ShlRt case Shr => ShrRt case And64 => BitAndRt case Or64 => BitOrRt case Xor64 => BitXorRt)
    case Cmp(_) => CompareRt
    case LAnd => AndRt
    case LOr => OrRt
  }

  function CmpCode(op: CmpOp): nat {
    match op case Eq => 0 case Neq => 1 case Lt => 2 case Lte => 3 case Gt => 4 case Gte => 5
  }

  function CmpArg(op: BinOp): Code { if op.Cmp? then [Op(MovEdi(CmpCode(op.cmp)))] else [] }

  /** Left and right wait in slots d and d + 1 because evaluating the right operand may itself
      use the left trace. */
  function Operands(d: nat): Code {
    [Op(StoreSlot(d + 1)), Op(LoadSlot(d)), CallSym(TraceFromRegs), CallSym(CaptureLeft),
     Op(LoadSlot(d + 1)), CallSym(TraceFromRegs)]
  }

  function GenE(cpu: Cpu, e: Expr, d: nat): Code {
    match e
    case Num(bits) =>
      [Op(LoadImm(bits)), Op(MovEdx(TyCode(if IntLiteral(cpu, bits) then TInt else TDouble))), Op(XorRcx)]
    case Var(n) => [LeaName(n), CallSym(GetVariable), LoadTrace]
    case Neg(o) => GenE(cpu, o, d) + [CallSym(TraceFromRegs), CallSym(NegRt), LoadTrace]
    case Bin(op, l, r) =>
      GenE(cpu, l, d) + [Op(StoreSlot(d))] + GenE(cpu, r, d + 1) + Operands(d) + CmpArg(op) + [CallSym(HelperOf(op)), LoadTrace]
  }

  /** The compiler refuses a tree that would need a seventeenth slot, and a literal or name it
      could not have been given. */
  predicate AcceptsE(e: Expr, d: nat) {
    match e
    case Num(bits) => bits < 0x1_0000_0000_0000_0000
    case Var(n) => NameOk(n)
    case Neg(o) => AcceptsE(o, d)
    case Bin(_, l, r) => d + 2 <= JIT_MAX_DEPTH && AcceptsE(l, d) && AcceptsE(r, d + 1)
  }

  // ----- statements

  const MAX_LOOP_DEPTH: nat := 16
  const MAX_LOOP_JUMPS: nat := 32

  function GenS(cpu: Cpu, s: Stmt, pos: int): Code
    decreases s, 1
  {
    match s
    case Skip => []
    case ExprS(e) => GenE(cpu, e, 0)
    case Assign(n, e) =>
      GenE(cpu, e, 0) + [Op(StoreSlot(0)), LeaName(n), Op(LoadSlot(0)), CallSym(TraceFromRegs), CallSym(SetVariable), Op(LoadSlot(0))]
    case DeclareS(n, t, e) =>
      GenE(cpu, e, 0) + [Op(StoreSlot(0)), Op(LoadSlot(0)), CallSym(TraceFromRegs), LeaName(n), Op(MovEsi(TyCode(t))), CallSym(DeclareVariable), LoadTrace]
    case If(c, thn) =>
      var head := GenE(cpu, c, 0);
      var p := pos + Size(head) + 14;
      var body := GenB(cpu, thn, p);
      head + [Op(TestZero), JeTo(At(p + Size(body)))] + body
    case IfElse(c, thn, els) =>
      var head := GenE(cpu, c, 0);
      var p := pos + Size(head) + 14;
      var body := GenB(cpu, thn, p);
      var q := p + Size(body) + 5;
      var other := GenB(cpu, els, q);
      head + [Op(TestZero), JeTo(At(q))] + body + [JmpTo(At(q + Size(other)))] + other
    case Loop(body) =>
      var inner := GenB(cpu, body, pos);
      Settle(Settle(inner + [JmpTo(At(pos))], LoopEnd, pos + Size(inner) + 5), LoopStart, pos)
    case Break => [JmpTo(LoopEnd)]
    case Continue => [JmpTo(LoopStart)]
    case Return(e) => GenE(cpu, e, 0) + [CallSym(ReturnFromRegs), JmpTo(FunctionEnd)]
    case ReturnVoid => [JmpTo(FunctionEnd)]
  }

  function GenB(cpu: Cpu, b: Block, pos: int): Code
    decreases b, 0
  {
    match b
    case Nil => []
    case Cons(hd, tl) =>
      var first := GenS(cpu, hd, pos);
      first + GenB(cpu, tl, pos + Size(first))
  }

  /** Directs every jump waiting for t to p. */
  function Settle(c: Code, t: Target, p: int): (r: Code)
    ensures |r| == |c|
  {
    seq(|c|, k requires 0 <= k < |c| => SettleItem(c[k], t, p))
  }

  function SettleItem(x: Item, t: Target, p: int): Item {
    match x
    case JmpTo(u) => if u == t then JmpTo(At(p)) else x
    case JeTo(u) => if u == t then JeTo(At(p)) else x
    case _ => x
  }

  function CountBreaks(b: Block): nat {
    match b
    case Nil => 0
    case Cons(hd, tl) => BreaksIn(hd) + CountBreaks(tl)
  }

  function BreaksIn(s: Stmt): nat {
    match s
    case Break => 1
    case If(_, t) => CountBreaks(t)
    case IfElse(_, t, e) => CountBreaks(t) + CountBreaks(e)
    case _ => 0
  }

  function CountContinues(b: Block): nat {
    match b
    case Nil => 0
    case Cons(hd, tl) => ContinuesIn(hd) + CountContinues(tl)
  }

  function ContinuesIn(s: Stmt): nat {
    match s
    case Continue => 1
    case If(_, t) => CountContinues(t)
    case IfElse(_, t, e) => CountContinues(t) + CountContinues(e)
    case _ => 0
  }

  /** What mc_compile_block accepts inside `loops` enclosing loops: loop jumps only inside a loop,
      at most 16 loops deep, at most 32 breaks and 32 continues a loop. */
  predicate AcceptsS(s: Stmt, loops: nat) {
    match s
    case Skip => true
    case ExprS(e) => AcceptsE(e, 0)
    case Assign(n, e) => n != [] && NameOk(n) && AcceptsE(e, 0)
    case DeclareS(n, t, e) => n != [] && NameOk(n) && t != TUnknown && AcceptsE(e, 0)
    case If(c, t) => AcceptsE(c, 0) && AcceptsB(t, loops)
    case IfElse(c, t, e) => AcceptsE(c, 0) && AcceptsB(t, loops) && AcceptsB(e, loops)
    case Loop(b) =>
      loops < MAX_LOOP_DEPTH && AcceptsB(b, loops + 1) && CountBreaks(b) <= MAX_LOOP_JUMPS && CountContinues(b) <= MAX_LOOP_JUMPS
    case Break => loops > 0
    case Continue => loops > 0
    case Return(e) => AcceptsE(e, 0)
    case ReturnVoid => true
  }

  predicate AcceptsB(b: Block, loops: nat) {
    match b
    case Nil => true
    case Cons(hd, tl) => AcceptsS(hd, loops) && AcceptsB(tl, loops)
  }

  lemma Nested(a: Code, b: Code, c: Code, d: Code, e: Code)
    ensures a + b + c + d + e == (a + b) + (c + (d + e))
  {
  }

  lemma IfElseCode(cpu: Cpu, c: Expr, thn: Block, els: Block, pos: int)
    ensures var head := GenE(cpu, c, 0);
      var p := pos + Size(head) + 14;
      var q := p + Size(GenB(cpu, thn, p)) + 5;
      GenS(cpu, IfElse(c, thn, els), pos)
      == head + [Op(TestZero), JeTo(At(q))] + GenB(cpu, thn, p) + [JmpTo(At(q + Size(GenB(cpu, els, q))))] + GenB(cpu, els, q)
  {
    hide GenE, GenB, Size;
  }

  // ----- from items to bytes

  function NamesOf(c: Code): seq<Name> {
    if c == [] then [] else (if c[0].LeaName? then [c[0].n] else []) + NamesOf(c[1..])
  }

  function BlobLen(c: Code): nat {
    if c == [] then 0 else (if c[0].LeaName? then |c[0].n| + 1 else 0) + BlobLen(c[1..])
  }

  /** Settled positions of the three kinds of waiting jump. */
  datatype Ends = Ends(loopEnd: int, loopStart: int, functionEnd: int)

  function Settled(t: Target, ends: Ends): int {
    match t
    case At(p) => p
    case LoopEnd => ends.loopEnd
    case LoopStart => ends.loopStart
    case FunctionEnd => ends.functionEnd
  }

  /** The instruction an item becomes at position `at` when its name, if any, is stored at `na`. */
  function Final(x: Item, at: int, na: int, ends: Ends, addr: Symbol -> nat): Instr {
    match x
    case Op(i) => i
    case CallSym(s) => CallAbs(addr(s))
    case LoadTrace => LoadResult(addr(TraceData))
    case LeaName(_) => LeaRdi(na - (at + 7))
    case JmpTo(t) => Jmp(Settled(t, ends) - (at + 5))
    case JeTo(t) => Je(Settled(t, ends) - (at + 6))
  }

  function NameLen(x: Item): nat { if x.LeaName? then |x.n| + 1 else 0 }

  function Emit(c: Code, at: int, na: int, ends: Ends, addr: Symbol -> nat): Bytes {
    if c == [] then [] else
    Enc(Final(c[0], at, na, ends, addr)) + Emit(c[1..], at + ItemLen(c[0]), na + NameLen(c[0]), ends, addr)
  }

  /** The names a piece of code refers to, NUL-terminated, one copy per reference, in order. */
  function Blob(c: Code): Bytes
    requires NamesOk(c)
  {
    if c == [] then [] else (if c[0].LeaName? then NameBytes(c[0].n) else []) + Blob(c[1..])
  }

  predicate NamesOk(c: Code) { forall k :: 0 <= k < |c| && c[k].LeaName? ==> NameOk(c[k].n) }

  // ----- a whole function

  const PROLOGUE_LEN: int := 11

  function Body(cpu: Cpu, b: Block): Code { GenB(cpu, b, PROLOGUE_LEN) }

  function FunctionEnds(c: Code): Ends { Ends(0, 0, PROLOGUE_LEN + Size(c)) }

  function NamesStart(c: Code): int { PROLOGUE_LEN + Size(c) + 5 }

  /** Prologue, body, epilogue, names. */
  function FunctionBytes(cpu: Cpu, b: Block, addr: Symbol -> nat): Bytes
    requires NamesOk(Body(cpu, b))
  {
    var c := Body(cpu, b);
    Enc(Prologue) + Emit(c, PROLOGUE_LEN, NamesStart(c), FunctionEnds(c), addr) + Enc(Epilogue) + Blob(c)
  }

  // ----- concatenation

  lemma {:induction false} SizeApp(a: Code, b: Code)
    ensures Size(a + b) == Size(a) + Size(b)
  {
    if a == [] {
      assert a + b == b;
    } else {
      assert (a + b)[1..] == a[1..] + b;
      SizeApp(a[1..], b);
    }
  }

  lemma {:induction false} BlobLenApp(a: Code, b: Code)
    ensures BlobLen(a + b) == BlobLen(a) + BlobLen(b)
  {
    if a == [] {
      assert a + b == b;
    } else {
      assert (a + b)[1..] == a[1..] + b;
      BlobLenApp(a[1..], b);
    }
  }

  lemma {:induction false} EmitApp(a: Code, b: Code, at: int, na: int, ends: Ends, addr: Symbol -> nat)
    ensures Emit(a + b, at, na, ends, addr) ==
            Emit(a, at, na, ends, addr) + Emit(b, at + Size(a), na + BlobLen(a), ends, addr)
    decreases |a|
  {
    hide Enc, Final;
    if a == [] {
      assert a + b == b;
    } else {
      assert (a + b)[1..] == a[1..] + b;
      EmitApp(a[1..], b, at + ItemLen(a[0]), na + NameLen(a[0]), ends, addr);
    }
  }

  lemma NamesOkApp(a: Code, b: Code)
    requires NamesOk(a) && NamesOk(b)
    ensures NamesOk(a + b)
  {
    hide NameOk;
  }

  lemma NamesOkTail(c: Code)
    requires c != [] && NamesOk(c)
    ensures NamesOk(c[1..]) && (c[0].LeaName? ==> NameOk(c[0].n))
  {
    hide NameOk;
  }

  lemma {:induction false} BlobApp(a: Code, b: Code)
    requires NamesOk(a) && NamesOk(b)
    ensures NamesOk(a + b) && Blob(a + b) == Blob(a) + Blob(b)
  {
    hide NameBytes, NameOk, NamesOk;
    NamesOkApp(a, b);
    if a == [] {
      assert a + b == b;
    } else {
      assert (a + b)[1..] == a[1..] + b;
      NamesOkTail(a);
      NamesOkTail(a + b);
      BlobApp(a[1..], b);
    }
  }

  lemma {:induction false} BlobSize(c: Code)
    requires NamesOk(c)
    ensures |Blob(c)| == BlobLen(c)
  {
    if c != [] {
      BlobSize(c[1..]);
    }
  }

  lemma FinalLen(x: Item, at: int, na: int, ends: Ends, addr: Symbol -> nat)
    ensures |Enc(Final(x, at, na, ends, addr))| == ItemLen(x)
  {
    hide Enc;
    EncLen(Final(x, at, na, ends, addr));
  }

  lemma {:induction false} EmitSize(c: Code, at: int, na: int, ends: Ends, addr: Symbol -> nat)
    ensures |Emit(c, at, na, ends, addr)| == Size(c)
    decreases |c|
  {
    hide Enc, Final, ItemLen;
    if c != [] {
      FinalLen(c[0], at, na, ends, addr);
      EmitSize(c[1..], at + ItemLen(c[0]), na + NameLen(c[0]), ends, addr);
    }
  }

  lemma {:induction false} SettleSize(c: Code, t: Target, p: int)
    ensures Size(Settle(c, t, p)) == Size(c) && BlobLen(Settle(c, t, p)) == BlobLen(c)
  {
    if c != [] {
      assert Settle(c, t, p)[1..] == Settle(c[1..], t, p);
      SettleSize(c[1..], t, p);
    }
  }

  lemma SettleNext(c: Code, t: Target, p: int)
    ensures |Settle(c, t, p)| == |c|
    ensures c != [] ==> Settle(c, t, p)[0] == SettleItem(c[0], t, p) && Settle(c, t, p)[1..] == Settle(c[1..], t, p)
  {
  }

  lemma SettledItem(x: Item, at: int, na: int, ends: Ends, loopEnd: int, loopStart: int, addr: Symbol -> nat)
    ensures var y := SettleItem(SettleItem(x, LoopEnd, loopEnd), LoopStart, loopStart);
      && ItemLen(y) == ItemLen(x) && NameLen(y) == NameLen(x)
      && Final(y, at, na, ends, addr) == Final(x, at, na, Ends(loopEnd, loopStart, ends.functionEnd), addr)
  {
  }

  /** Settling the loop's own jumps and then emitting is emitting with the loop's ends. */
  lemma {:induction false} SettleEmit(c: Code, at: int, na: int, ends: Ends, loopEnd: int, loopStart: int, addr: Symbol -> nat)
    ensures Emit(Settle(Settle(c, LoopEnd, loopEnd), LoopStart, loopStart), at, na, ends, addr)
         == Emit(c, at, na, Ends(loopEnd, loopStart, ends.functionEnd), addr)
    decreases |c|
  {
    hide Enc, Settle, SettleItem, Final, ItemLen, NameLen;
    SettleNext(c, LoopEnd, loopEnd);
    SettleNext(Settle(c, LoopEnd, loopEnd), LoopStart, loopStart);
    if c != [] {
      SettledItem(c[0], at, na, ends, loopEnd, loopStart, addr);
      SettleEmit(c[1..], at + ItemLen(c[0]), na + NameLen(c[0]), ends, loopEnd, loopStart, addr);
    }
  }

  lemma {:induction false} SettleBlob(c: Code, t: Target, p: int)
    requires NamesOk(c)
    ensures NamesOk(Settle(c, t, p)) && Blob(Settle(c, t, p)) == Blob(c)
  {
    hide NameOk, NameBytes;
    if c != [] {
      assert Settle(c, t, p)[1..] == Settle(c[1..], t, p);
      SettleBlob(c[1..], t, p);
    }
  }
}
