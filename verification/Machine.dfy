/** The machine that runs compiled code: it decodes the bytes at pc and executes what it finds. */
module Machine {
  import opened Options
  import opened Values
  import opened Language
  import opened MachineCode

  /** Where the helpers live, what the processor computes, and the code in memory. */
  datatype Env = Env(cpu: Cpu, addr: Symbol -> nat, code: Bytes)

  /** regs is the numeric and the type register; slots are the frame's typed slots; trace and left
      are the two global result cells. Text pointers are not part of this model. */
  datatype State = State(
    pc: int, regs: Cell, rdi: int, rsi: int, zf: bool,
    slots: seq<Cell>, trace: Cell, left: Cell, store: Store, halted: bool)

  const EMPTY: Cell := Cell(0, 0)

  function OpOf(s: Symbol): Option<BinOp> {
    match s
    case AddRt => Some(Ar(Plus)) case SubRt => Some(Ar(Minus)) case MulRt => Some(Ar(Times)) case DivRt => Some(Ar(Over))
    case ModRt => Some(Rem) case ShlRt => Some(Bit(Shl)) case ShrRt => Some(Bit(Shr))
    case BitAndRt => Some(Bit(And64)) case BitOrRt => Some(Bit(Or64)) case BitXorRt => Some(Bit(Xor64))
    case AndRt => Some(LAnd) case OrRt => Some(LOr)
    case _ => None
  }

  /** Result cell of a binary helper: operands of unknown type leave an arithmetic trace alone and
      make a logical one false; a refused operation clears it. */
  function Combine(cpu: Cpu, op: BinOp, left: Cell, trace: Cell): Cell {
    match (Unbox(cpu, left), Unbox(cpu, trace))
    case (Some(a), Some(b)) =>
      (match Apply(cpu, op, a, b)
       case Some(v) => Box(cpu, v)
       case None => if op.Cmp? then Box(cpu, MakeBool(false)) else EMPTY)
    case _ => if op.Cmp? || op == LAnd || op == LOr then Box(cpu, MakeBool(false)) else trace
  }

  function CmpOfCode(c: int): Option<CmpOp> {
    if c == 0 then Some(Eq) else if c == 1 then Some(Neq) else if c == 2 then Some(Lt)
    else if c == 3 then Some(Lte) else if c == 4 then Some(Gt) else if c == 5 then Some(Gte) else None
  }

  /** What a helper does to trace, left and store, given the argument registers. */
  function Helper(env: Env, s: Symbol, m: State): Option<State> {
    var cpu := env.cpu;
    match s
    case GetVariable =>
      (match Get(m.store, CStr(env.code, m.rdi))
       case Some(v) => Some(m.(trace := Box(cpu, v)))
       case None => Some(m.(trace := EMPTY)))
    case SetVariable =>
      (match Unbox(cpu, m.trace)
       case None => None
       case Some(v) =>
         match Set(cpu, m.store, CStr(env.code, m.rdi), v)
         case None => Some(m)
         case Some(s') => Some(m.(store := s')))
    case DeclareVariable =>
      (match Unbox(cpu, m.trace)
       case None => None
       case Some(v) =>
         match Declare(cpu, m.store, CStr(env.code, m.rdi), TyOfCode(m.rsi), v)
         case None => Some(m.(trace := EMPTY))
         case Some(p) => Some(m.(store := p.0, trace := Box(cpu, p.1))))
    case CaptureLeft => Some(m.(left := m.trace, trace := EMPTY))
    case TraceFromRegs => Some(m.(trace := m.regs))
    case ReturnFromRegs => Some(m.(trace := m.regs))
    case NegRt =>
      (match Unbox(cpu, m.trace)
       case None => Some(m)
       case Some(v) =>
         match Negate(cpu, v)
         case None => Some(m)
         case Some(w) => Some(m.(trace := Box(cpu, w))))
    case CompareRt =>
      (match CmpOfCode(m.rdi)
       case None => Some(m.(trace := Box(cpu, MakeBool(false)), left := EMPTY))
       case Some(op) => Some(m.(trace := Combine(cpu, Cmp(op), m.left, m.trace), left := EMPTY)))
    case _ =>
      match OpOf(s)
      case None => None
      case Some(op) => Some(m.(trace := Combine(cpu, op, m.left, m.trace), left := EMPTY))
  }

  /** A call clobbers the value and argument registers; only the helper that stores the registers
      into the trace keeps rdi. */
  function AfterCall(s: Symbol, m: State): State {
    m.(regs := EMPTY, rsi := 0, rdi := if s == TraceFromRegs then m.rdi else 0)
  }

  function CallAt(env: Env, a: nat, m: State): Option<State> {
    var id := SymbolId(env.addr, a);
    if id == SYMBOL_COUNT then None else
    match Helper(env, SymbolAt(id), m)
    case None => None
    case Some(m') => Some(AfterCall(SymbolAt(id), m'))
  }

  /** Executes one instruction; pc already points behind it. */
  function Do(env: Env, i: Instr, m: State): Option<State> {
    match i
    case Prologue => Some(m)
    case LoadImm(bits) => Some(m.(regs := Cell(m.regs.ty, bits)))
    case MovEdx(imm) => Some(m.(regs := Cell(imm, m.regs.num)))
    case XorRcx => Some(m)
    case LeaRdi(disp) => Some(m.(rdi := m.pc + disp))
    case CallAbs(a) => CallAt(env, a, m)
    case LoadResult(a) => if a == env.addr(TraceData) then Some(m.(regs := m.trace)) else None
    case StoreSlot(d) => if d < |m.slots| then Some(m.(slots := m.slots[d := m.regs])) else None
    case LoadSlot(d) => if d < |m.slots| then Some(m.(regs := m.slots[d])) else None
    case MovEdi(imm) => Some(m.(rdi := imm))
    case MovEsi(imm) => Some(m.(rsi := imm))
    case TestZero => Some(m.(zf := TestsFalse(env.cpu, m.regs)))
    case Je(disp) => Some(if m.zf then m.(pc := m.pc + disp) else m)
    case Jmp(disp) => Some(m.(pc := m.pc + disp))
    case Epilogue => Some(m.(halted := true))
  }

  function Step(env: Env, m: State): Option<State> {
    if m.halted then None else
    match Decode(env.code, m.pc)
    case None => None
    case Some(i) => Do(env, i, m.(pc := m.pc + Len(i)))
  }

  /** The state after n steps, if the machine gets that far. */
  function Run(env: Env, m: State, n: nat): Option<State>
    decreases n
  {
    if n == 0 then Some(m) else
    match Step(env, m)
    case None => None
    case Some(m') => Run(env, m', n - 1)
  }

  lemma {:induction false} RunAdd(env: Env, m: State, a: nat, m1: State, b: nat)
    requires Run(env, m, a) == Some(m1)
    ensures Run(env, m, a + b) == Run(env, m1, b)
    decreases a
  {
    hide Step;
    if a > 0 {
      RunAdd(env, Step(env, m).value, a - 1, m1, b);
    }
  }

  /** One instruction whose bytes lie at pc. */
  lemma RunOne(env: Env, m: State, i: Instr)
    requires !m.halted && Encodable(i) && HasAt(env.code, m.pc, Enc(i))
    ensures Run(env, m, 1) == Do(env, i, m.(pc := m.pc + Len(i)))
  {
    hide Decode, Enc, Do;
    DecodeEnc(env.code, m.pc, i);
    assert Run(env, m, 1) == match Step(env, m) case None => None case Some(m') => Run(env, m', 0);
  }
}
