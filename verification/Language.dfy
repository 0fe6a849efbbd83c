/** Expressions and statements of the language, the variable store, and their direct meaning. */
module Language {
  import opened Options
  import opened Values

  /** A C string without its terminating NUL: bytes 1..255. */
  type Name = seq<int>

  datatype Expr =
    | Num(bits: nat)
    | Var(name: Name)
    | Neg(operand: Expr)
    | Bin(op: BinOp, left: Expr, right: Expr)

  // ----- variables

  datatype Slot = Slot(declared: Ty, value: Value)

  datatype Store = Store(locals: map<Name, Value>, vars: map<Name, Slot>)

  /** Locals of the running function hide the context's variables. */
  function Get(s: Store, n: Name): Option<Value> {
    if n in s.locals then Some(s.locals[n])
    else if n in s.vars then Some(s.vars[n].value)
    else None
  }

  /** Assignment always writes the context's variable, converting to its declared type. */
  function Set(cpu: Cpu, s: Store, n: Name, v: Value): Option<Store> {
    if n == [] then None
    else if n in s.vars && s.vars[n].declared != TUnknown then
      var t := s.vars[n].declared;
      if !Assignable(t, TypeOf(v)) then None else
      match Coerce(cpu, v, t)
      case None => None
      case Some(w) => Some(s.(vars := s.vars[n := Slot(t, w)]))
    else
      Some(s.(vars := s.vars[n := Slot(TUnknown, v)]))
  }

  function Declare(cpu: Cpu, s: Store, n: Name, t: Ty, v: Value): Option<(Store, Value)> {
    if n == [] || t == TUnknown || !Assignable(t, TypeOf(v)) then None else
    match Coerce(cpu, v, t)
    case None => None
    case Some(w) => Some((s.(vars := s.vars[n := Slot(t, w)]), w))
  }

  // ----- the interpreter

  /** A literal is an integer when converting it there and back loses nothing. */
  predicate IntLiteral(cpu: Cpu, d: nat) {
    && cpu.f64Eq(d, cpu.i64ToF64(cpu.f64ToI64(d)))
    && (cpu.f64Lt(F64_MINUS_2_63, d) || cpu.f64Eq(F64_MINUS_2_63, d))
    && cpu.f64Lt(d, F64_2_63)
  }

  function Literal(cpu: Cpu, d: nat): Value {
    if IntLiteral(cpu, d) then VInt(cpu.f64ToI64(d)) else VDouble(d)
  }

  /** ast_evaluate_typed on call-free numeric trees: && and || stop at the left operand when it
      decides. */
  function Eval(cpu: Cpu, e: Expr, s: Store): Option<Value> {
    match e
    case Num(d) => Some(Literal(cpu, d))
    case Var(n) => Get(s, n)
    case Neg(o) => (match Eval(cpu, o, s) case None => None case Some(v) => Negate(cpu, v))
    case Bin(op, l, r) =>
      match Eval(cpu, l, s)
      case None => None
      case Some(a) =>
        if op == LAnd && !Truthy(cpu, a) then Some(MakeBool(false))
        else if op == LOr && Truthy(cpu, a) then Some(MakeBool(true))
        else
          match Eval(cpu, r, s)
          case None => None
          case Some(b) =>
            if op == LAnd || op == LOr then Some(MakeBool(Truthy(cpu, b))) else Apply(cpu, op, a, b)
  }

  // ----- values in registers

  /** What the numeric register and the type register hold between instructions. */
  datatype Cell = Cell(ty: int, num: nat)

  function Box(cpu: Cpu, v: Value): Cell {
    match v
    case VInt(i) => Cell(TyCode(TInt), cpu.i64ToF64(i))
    case VFloat(f) => Cell(TyCode(TFloat), cpu.widen(f))
    case VDouble(d) => Cell(TyCode(TDouble), d)
    case VChar(c) => Cell(TyCode(TChar), cpu.u64ToF64(c))
    case VBool(b) => Cell(TyCode(TBool), cpu.u64ToF64(b))
    case VPtr(p) => Cell(TyCode(TPtr), cpu.u64ToF64(p))
  }

  function Unbox(cpu: Cpu, c: Cell): Option<Value> {
    match TyOfCode(c.ty)
    case TInt => Some(VInt(cpu.f64ToI64(c.num)))
    case TFloat => Some(VFloat(cpu.narrow(c.num)))
    case TDouble => Some(VDouble(c.num))
    case TChar => Some(VChar(cpu.f64ToU32(c.num)))
    case TBool => Some(MakeBool(cpu.f64ToI32(c.num) != 0))
    case TPtr => Some(VPtr(cpu.f64ToU64(c.num)))
    case TUnknown => None
  }

  /** v survives being carried in a double. */
  predicate Fits(cpu: Cpu, v: Value) { Unbox(cpu, Box(cpu, v)) == Some(v) }

  /** Every subtree evaluates -- also the right operand of && and || -- and every value read or
      computed fits. */
  function StrictEval(cpu: Cpu, e: Expr, s: Store): Option<Value> {
    match e
    case Num(d) => Some(Literal(cpu, d))
    case Var(n) => Fitting(cpu, Get(s, n))
    case Neg(o) =>
      (match StrictEval(cpu, o, s) case None => None case Some(v) => Fitting(cpu, Negate(cpu, v)))
    case Bin(op, l, r) =>
      match (StrictEval(cpu, l, s), StrictEval(cpu, r, s))
      case (Some(a), Some(b)) => Fitting(cpu, Apply(cpu, op, a, b))
      case _ => None
  }

  function Fitting(cpu: Cpu, v: Option<Value>): Option<Value> {
    if v.Some? && Fits(cpu, v.value) then v else None
  }

  /** Strict evaluation only ever narrows the interpreter: where it succeeds, so does the
      interpreter, with the same value. */
  lemma {:induction false} StrictIsEval(cpu: Cpu, e: Expr, s: Store)
    ensures StrictEval(cpu, e, s).Some? ==> Eval(cpu, e, s) == StrictEval(cpu, e, s)
  {
    match e
    case Num(_) =>
    case Var(_) =>
    case Neg(o) => StrictIsEval(cpu, o, s);
    case Bin(op, l, r) =>
      StrictIsEval(cpu, l, s);
      StrictIsEval(cpu, r, s);
  }

  // ----- statements

  datatype Stmt =
    | Skip
    | ExprS(e: Expr)
    | Assign(name: Name, e: Expr)
    | DeclareS(name: Name, ty: Ty, e: Expr)
    | If(c: Expr, thn: Block)
    | IfElse(c: Expr, thn: Block, els: Block)
    | Loop(body: Block)
    | Break
    | Continue
    | Return(e: Expr)
    | ReturnVoid

  datatype Block = Nil | Cons(hd: Stmt, tl: Block)

  datatype Out =
    | Normal(s: Store)
    | Broke(s: Store)
    | Continued(s: Store)
    | Returned(s: Store, result: Option<Value>)
    | Failed
    | OutOfFuel

  /** The register cell a compiled expression leaves: a literal as written, anything else boxed. */
  function ResultCell(cpu: Cpu, e: Expr, v: Value): Cell {
    if e.Num? then Cell(TyCode(TypeOf(v)), e.bits) else Box(cpu, v)
  }

  /** The compiled test treats zero and NaN as false. */
  predicate TestsFalse(cpu: Cpu, c: Cell) { cpu.f64Eq(c.num, 0) || cpu.f64IsNan(c.num) }

  /** Whose meaning: the interpreter's; the interpreter's, failing where a value does not fit or a
      condition is not a number; or that of compiled code, which fails where a value does not fit
      and takes the branch its test takes. */
  datatype Reading = Interpreted | Checked | Coded

  function ValueOf(cpu: Cpu, how: Reading, e: Expr, s: Store): Option<Value> {
    if how == Interpreted then Eval(cpu, e, s) else StrictEval(cpu, e, s)
  }

  function TruthOf(cpu: Cpu, how: Reading, c: Expr, s: Store): Option<bool> {
    match ValueOf(cpu, how, c, s)
    case None => None
    case Some(v) =>
      match how
      case Interpreted => Some(Truthy(cpu, v))
      case Checked => if IsNan(cpu, v) then None else Some(Truthy(cpu, v))
      case Coded => Some(!TestsFalse(cpu, ResultCell(cpu, c, v)))
  }

  /** Direct meaning of a statement; fuel bounds the loop turns still allowed. */
  function ExecS(cpu: Cpu, how: Reading, st: Stmt, s: Store, fuel: nat): Out
    decreases fuel, st, 1
  {
    match st
    case Skip => Normal(s)
    case ExprS(e) => if ValueOf(cpu, how, e, s).Some? then Normal(s) else Failed
    case Assign(n, e) =>
      (match ValueOf(cpu, how, e, s)
       case None => Failed
       case Some(v) => (match Set(cpu, s, n, v) case None => Failed case Some(s') => Normal(s')))
    case DeclareS(n, t, e) =>
      (match ValueOf(cpu, how, e, s)
       case None => Failed
       case Some(v) => (match Declare(cpu, s, n, t, v) case None => Failed case Some(p) => Normal(p.0)))
    case If(c, thn) =>
      (match TruthOf(cpu, how, c, s)
       case None => Failed
       case Some(b) => if b then ExecB(cpu, how, thn, s, fuel) else Normal(s))
    case IfElse(c, thn, els) =>
      (match TruthOf(cpu, how, c, s)
       case None => Failed
       case Some(b) => if b then ExecB(cpu, how, thn, s, fuel) else ExecB(cpu, how, els, s, fuel))
    case Loop(body) =>
      if fuel == 0 then OutOfFuel else
      (match ExecB(cpu, how, body, s, fuel)
       case Normal(s') => ExecS(cpu, how, st, s', fuel - 1)
       case Continued(s') => ExecS(cpu, how, st, s', fuel - 1)
       case Broke(s') => Normal(s')
       case o => o)
    case Break => Broke(s)
    case Continue => Continued(s)
    case Return(e) =>
      (match ValueOf(cpu, how, e, s) case None => Failed case Some(v) => Returned(s, Some(v)))
    case ReturnVoid => Returned(s, None)
  }

  function ExecB(cpu: Cpu, how: Reading, b: Block, s: Store, fuel: nat): Out
    decreases fuel, b, 0
  {
    match b
    case Nil => Normal(s)
    case Cons(hd, tl) =>
      match ExecS(cpu, how, hd, s, fuel)
      case Normal(s') => ExecB(cpu, how, tl, s', fuel)
      case o => o
  }

  /** A checked run that does not fail is the interpreter's run. */
  lemma {:induction false} CheckedStmtIsDirect(cpu: Cpu, st: Stmt, s: Store, fuel: nat)
    ensures ExecS(cpu, Checked, st, s, fuel) != Failed ==>
            ExecS(cpu, Interpreted, st, s, fuel) == ExecS(cpu, Checked, st, s, fuel)
    decreases fuel, st, 1
  {
    hide Set, Declare, Eval, StrictEval, TestsFalse, ResultCell;
    match st
    case ExprS(e) => StrictIsEval(cpu, e, s);
    case Assign(_, e) => StrictIsEval(cpu, e, s);
    case DeclareS(_, _, e) => StrictIsEval(cpu, e, s);
    case If(c, thn) =>
      StrictIsEval(cpu, c, s);
      CheckedIsDirect(cpu, thn, s, fuel);
    case IfElse(c, thn, els) =>
      StrictIsEval(cpu, c, s);
      CheckedIsDirect(cpu, thn, s, fuel);
      CheckedIsDirect(cpu, els, s, fuel);
    case Loop(body) =>
      if fuel > 0 {
        CheckedIsDirect(cpu, body, s, fuel);
        var o := ExecB(cpu, Checked, body, s, fuel);
        if o.Normal? || o.Continued? {
          CheckedStmtIsDirect(cpu, st, o.s, fuel - 1);
        }
      }
    case Return(e) => StrictIsEval(cpu, e, s);
    case _ =>
  }

  lemma {:induction false} CheckedIsDirect(cpu: Cpu, b: Block, s: Store, fuel: nat)
    ensures ExecB(cpu, Checked, b, s, fuel) != Failed ==>
            ExecB(cpu, Interpreted, b, s, fuel) == ExecB(cpu, Checked, b, s, fuel)
    decreases fuel, b, 0
  {
    match b
    case Nil =>
    case Cons(hd, tl) =>
      CheckedStmtIsDirect(cpu, hd, s, fuel);
      var o := ExecS(cpu, Checked, hd, s, fuel);
      if o.Normal? {
        CheckedIsDirect(cpu, tl, o.s, fuel);
      }
  }
}
