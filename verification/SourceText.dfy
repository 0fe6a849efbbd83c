/** From the text of an expression to the run of its compiled code. */
module SourceText {
  import opened Options
  import opened Values
  import opened Language
  import opened Processor
  import opened MachineCode
  import opened Machine
  import opened CodeGen
  import opened Blocks
  import opened Backpatch
  import opened JitBuffers
  import opened Finishing
  import opened Relocation
  import StmtCorrect
  import MathSyntax
  import opened MathTrees

  /** The call-free numeric trees, which both the interpreter and the compiler take as they are. */
  function ToExpr(n: Node): Option<Expr> {
    match n
    case NodeNum(d) => Some(Num(d))
    case NodeVar(x) => Some(Var(x))
    case NodeNeg(o) => (match ToExpr(o) case None => None case Some(e) => Some(Neg(e)))
    case NodeBin(op, l, r) =>
      (match (ToExpr(l), ToExpr(r)) case (Some(a), Some(b)) => Some(Bin(op, a, b)) case _ => None)
    case _ => None
  }

  /** What a text says, as an expression of that kind. */
  function ReadExpr(cpu: Cpu, text: MathSyntax.Text): Option<Expr> {
    match ParseTree(cpu, text) case None => None case Some(n) => ToExpr(n)
  }

  /** A whole number below 2^63 written in a program is that number if and only if it has at most 53
      significant bits, for its literal is kept as a double. */
  lemma WholeLiteral(cpu: Cpu, v: nat, s: Store)
    requires Ieee(cpu) && v < I64_LIMIT
    ensures ReadExpr(cpu, MathSyntax.ShowDigits(v)) == Some(Num(cpu.i64ToF64(v)))
    ensures Eval(cpu, Num(cpu.i64ToF64(v)), s) == Some(VInt(v)) <==> Exact53(v)
  {
    hide MathSyntax.Parse, MathSyntax.Show, MathSyntax.ShowDigits, MathSyntax.Good, Exact53, Ieee, Literal;
    ShowWhole(v);
    ParseShowTree(cpu, MathSyntax.Num(v));
    LiteralBack(cpu, v);
  }

  lemma ShowWhole(v: nat)
    requires v < I64_LIMIT
    ensures MathSyntax.Good(MathSyntax.Num(v)) && MathSyntax.Show(9, MathSyntax.Num(v)) == MathSyntax.ShowDigits(v)
  {
  }

  lemma LiteralBack(cpu: Cpu, v: nat)
    requires Ieee(cpu) && v < I64_LIMIT
    ensures Literal(cpu, cpu.i64ToF64(v)) == VInt(v) <==> Exact53(v)
  {
    hide InRange, Exact53;
    assert InI64(v);
    var d := cpu.i64ToF64(v);
    assert !cpu.f64IsNan(d) && cpu.f64Eq(d, d);
  }

  // ----- lines whose expressions are text

  type Text = MathSyntax.Text

  datatype TextLine =
    | TIf(cond: Text) | TElse | TEndIf | TLoop | TEndLoop
    | TSkip | TExpr(e: Text) | TAssign(name: Name, e: Text) | TDeclare(name: Name, ty: Ty, e: Text)
    | TBreak | TContinue | TReturn(e: Text) | TReturnVoid

  function ReadLine(cpu: Cpu, l: TextLine): Option<Line> {
    match l
    case TIf(t) => (match ReadExpr(cpu, t) case None => None case Some(e) => Some(IfLine(e)))
    case TElse => Some(ElseLine)
    case TEndIf => Some(EndIfLine)
    case TLoop => Some(LoopLine)
    case TEndLoop => Some(EndLoopLine)
    case TSkip => Some(One(Skip))
    case TExpr(t) => (match ReadExpr(cpu, t) case None => None case Some(e) => Some(One(ExprS(e))))
    case TAssign(n, t) => (match ReadExpr(cpu, t) case None => None case Some(e) => Some(One(Assign(n, e))))
    case TDeclare(n, ty, t) => (match ReadExpr(cpu, t) case None => None case Some(e) => Some(One(DeclareS(n, ty, e))))
    case TBreak => Some(One(Break))
    case TContinue => Some(One(Continue))
    case TReturn(t) => (match ReadExpr(cpu, t) case None => None case Some(e) => Some(One(Return(e))))
    case TReturnVoid => Some(One(ReturnVoid))
  }

  function ReadLines(cpu: Cpu, ls: seq<TextLine>): Option<seq<Line>> {
    if ls == [] then Some([]) else
    match (ReadLine(cpu, ls[0]), ReadLines(cpu, ls[1..]))
    case (Some(l), Some(r)) => Some([l] + r)
    case _ => None
  }

  // ----- writing a program

  predicate Bytewise(n: Name) { forall k :: 0 <= k < |n| ==> 0 <= n[k] < 256 }

  /** An expression that has a text: whole numbers that convert there and back, names that are names. */
  predicate HasText(cpu: Cpu, e: Expr) {
    match e
    case Num(d) => Printable(cpu, NodeNum(d))
    case Var(x) => Bytewise(x) && MathSyntax.GoodName(x)
    case Neg(o) => HasText(cpu, o)
    case Bin(_, l, r) => HasText(cpu, l) && HasText(cpu, r)
  }

  function FromExpr(cpu: Cpu, e: Expr): (n: Node)
    requires HasText(cpu, e)
    ensures Printable(cpu, n) && ToExpr(n) == Some(e)
  {
    match e
    case Num(d) => NodeNum(d)
    case Var(x) => NodeVar(x)
    case Neg(o) => NodeNeg(FromExpr(cpu, o))
    case Bin(op, l, r) => NodeBin(op, FromExpr(cpu, l), FromExpr(cpu, r))
  }

  /** Its text, with as few parentheses as the ladder allows. */
  function WriteExpr(cpu: Cpu, e: Expr): (t: Text)
    requires HasText(cpu, e)
  {
    BuildBack(cpu, FromExpr(cpu, e));
    MathSyntax.Show(9, Unbuild(cpu, FromExpr(cpu, e)))
  }

  lemma WriteRead(cpu: Cpu, e: Expr)
    requires HasText(cpu, e)
    ensures ReadExpr(cpu, WriteExpr(cpu, e)) == Some(e)
  {
    hide FromExpr, Unbuild, ParseTree, MathSyntax.Show, HasText;
    TreeRoundTrip(cpu, FromExpr(cpu, e));
  }

  predicate LineHasText(cpu: Cpu, l: Line) {
    match l
    case IfLine(c) => HasText(cpu, c)
    case One(ExprS(e)) => HasText(cpu, e)
    case One(Assign(_, e)) => HasText(cpu, e)
    case One(DeclareS(_, _, e)) => HasText(cpu, e)
    case One(Return(e)) => HasText(cpu, e)
    case _ => true
  }

  function WriteLine(cpu: Cpu, l: Line): (t: TextLine)
    requires LineHasText(cpu, l)
  {
    match l
    case IfLine(c) => TIf(WriteExpr(cpu, c))
    case ElseLine => TElse
    case EndIfLine => TEndIf
    case LoopLine => TLoop
    case EndLoopLine => TEndLoop
    case One(ExprS(e)) => TExpr(WriteExpr(cpu, e))
    case One(Assign(n, e)) => TAssign(n, WriteExpr(cpu, e))
    case One(DeclareS(n, ty, e)) => TDeclare(n, ty, WriteExpr(cpu, e))
    case One(Return(e)) => TReturn(WriteExpr(cpu, e))
    case One(ReturnVoid) => TReturnVoid
    case One(Break) => TBreak
    case One(Continue) => TContinue
    case One(_) => TSkip
  }

  ghost predicate LinesHaveText(cpu: Cpu, ls: seq<Line>) { forall k :: 0 <= k < |ls| ==> LineHasText(cpu, ls[k]) }

  function WriteLines(cpu: Cpu, ls: seq<Line>): (r: seq<TextLine>)
    requires LinesHaveText(cpu, ls)
  {
    if ls == [] then [] else [WriteLine(cpu, ls[0])] + WriteLines(cpu, ls[1..])
  }

  lemma LineBack(cpu: Cpu, l: Line)
    requires LineHasText(cpu, l)
    ensures ReadLine(cpu, WriteLine(cpu, l)) == Some(l)
  {
    hide HasText, ReadExpr, WriteExpr;
    match l
    case IfLine(c) => WriteRead(cpu, c);
    case One(ExprS(e)) => WriteRead(cpu, e);
    case One(Assign(_, e)) => WriteRead(cpu, e);
    case One(DeclareS(_, _, e)) => WriteRead(cpu, e);
    case One(Return(e)) => WriteRead(cpu, e);
    case _ =>
  }

  lemma {:induction false} LinesBack(cpu: Cpu, ls: seq<Line>)
    requires LinesHaveText(cpu, ls)
    ensures ReadLines(cpu, WriteLines(cpu, ls)) == Some(ls)
    decreases |ls|
  {
    hide LineHasText, ReadLine, WriteLine;
    if ls != [] {
      LineBack(cpu, ls[0]);
      LinesBack(cpu, ls[1..]);
      assert WriteLines(cpu, ls)[1..] == WriteLines(cpu, ls[1..]);
      assert ls == [ls[0]] + ls[1..];
    }
  }

  // ----- from text to a run

  /** Relocatable code after loading, or directly emitted code. */
  ghost function LoadedCode(cpu: Cpu, b: Block, aot: bool, addr: Symbol -> nat): Bytes
    requires AddrOk(addr) && NamesOk(Body(cpu, b))
  {
    RelocatedIsDirect(cpu, b, addr);
    if aot then PatchAll(FunctionBytes(cpu, b, NoAddress), RelocPatches(BodyRelocs(cpu, b, addr), addr)) else FunctionBytes(cpu, b, addr)
  }

  /** A program through its text: any block whose expressions have texts, written as lines of text, is
      read back as those lines, and what the compiler makes of them -- in either mode, loaded where
      relocatable -- runs as the interpreter runs the block, under the conditions of LinesRun. */
  lemma SourceRuns(cpu: Cpu, b: Block, aot: bool, addr: Symbol -> nat, s: Store, m0: State, fuel: nat) returns (n: nat, m1: State)
    requires Ieee(cpu) && AddrOk(addr) && AcceptsB(b, 0) && LinesHaveText(cpu, RenderB(b))
    requires NamesOk(Body(cpu, b)) && |FunctionBytes(cpu, b, addr)| < 0x8000_0000
    requires StmtCorrect.Entry(m0, s) && CarriedB(cpu, b, s, fuel) && ExecB(cpu, Interpreted, b, s, fuel) != Failed
    ensures ReadLines(cpu, WriteLines(cpu, RenderB(b))) == Some(RenderB(b)) && ParseB(RenderB(b)) == Some(b)
    ensures Run(Env(cpu, addr, LoadedCode(cpu, b, aot, addr)), m0, n) == Some(m1)
    ensures StmtCorrect.EndsAs(cpu, ExecB(cpu, Interpreted, b, s, fuel), n, m1, fuel)
  {
    hide Ieee, AddrOk, AcceptsB, NamesOk, FunctionBytes, CarriedB, ExecB, LinesHaveText, ReadLines, WriteLines,
         RenderB, ParseB, Run, Unbox, PatchAll, AllWithin, RelocPatches, BodyRelocs, GenB;
    LinesBack(cpu, RenderB(b));
    ParseRender(b);
    n, m1 := LinesRun(cpu, RenderB(b), aot, addr, s, m0, fuel);
  }
}
