/** The tree the parser builds: as the text has it, but with every literal turned into a double. */
module MathTrees {
  import opened Options
  import opened Values
  import opened MathSyntax
  import opened MathRoundTrip

  datatype Node =
    | NodeNum(bits: nat)
    | NodeText(text: Text)
    | NodeVar(name: Text)
    | NodeCall(fn: Text, args: seq<Node>)
    | NodeArray(elems: seq<Node>)
    | NodeNeg(operand: Node)
    | NodeBin(op: BinOp, left: Node, right: Node)

  const F64_TEN: nat := 0x4024_0000_0000_0000

  /** The divisor of the digit n places behind the point. */
  function Divisor(cpu: Cpu, n: nat): nat {
    if n == 0 then F64_TEN else cpu.f64Op(Times, Divisor(cpu, n - 1), F64_TEN)
  }

  /** The digits behind the point as the code adds them up. */
  function Fraction(cpu: Cpu, ds: seq<nat>): nat {
    if ds == [] then 0 else
    var n := |ds| - 1;
    cpu.f64Op(Plus, Fraction(cpu, ds[..n]), cpu.f64Op(Over, cpu.i64ToF64(ds[n]), Divisor(cpu, n)))
  }

  function Build(cpu: Cpu, a: Ast): Node
    decreases a
  {
    match a
    case Num(v) => NodeNum(cpu.i64ToF64(v))
    case Frac(w, ds) => NodeNum(cpu.f64Op(Plus, cpu.i64ToF64(w), Fraction(cpu, ds)))
    case Str(t) => NodeText(t)
    case Var(x) => NodeVar(x)
    case Call(f, args) => NodeCall(f, BuildAll(cpu, args))
    case Arr(es) => NodeArray(BuildAll(cpu, es))
    case Neg(o) => NodeNeg(Build(cpu, o))
    case Bin(op, l, r) => NodeBin(op, Build(cpu, l), Build(cpu, r))
  }

  function BuildAll(cpu: Cpu, xs: seq<Ast>): (r: seq<Node>)
    ensures |r| == |xs|
    decreases xs
  {
    if xs == [] then [] else [Build(cpu, xs[0])] + BuildAll(cpu, xs[1..])
  }

  /** math_parse_ast. */
  function ParseTree(cpu: Cpu, s: Text): Option<Node> {
    match Parse(s) case None => None case Some(a) => Some(Build(cpu, a))
  }

  // ----- printing a tree

  /** A tree that has a text without rounding: whole numbers that convert there and back, and good
      names and strings. */
  predicate Printable(cpu: Cpu, n: Node) {
    match n
    case NodeNum(d) => 0 <= cpu.f64ToI64(d) < I64_LIMIT && cpu.i64ToF64(cpu.f64ToI64(d)) == d
    case NodeText(t) => Good(Str(t))
    case NodeVar(x) => GoodName(x)
    case NodeCall(f, args) => GoodName(f) && forall k :: 0 <= k < |args| ==> Printable(cpu, args[k])
    case NodeArray(es) => forall k :: 0 <= k < |es| ==> Printable(cpu, es[k])
    case NodeNeg(o) => Printable(cpu, o)
    case NodeBin(_, l, r) => Printable(cpu, l) && Printable(cpu, r)
  }

  function Unbuild(cpu: Cpu, n: Node): Ast
    decreases n
  {
    match n
    case NodeNum(d) => Num(cpu.f64ToI64(d))
    case NodeText(t) => Str(t)
    case NodeVar(x) => Var(x)
    case NodeCall(f, args) => Call(f, UnbuildAll(cpu, args))
    case NodeArray(es) => Arr(UnbuildAll(cpu, es))
    case NodeNeg(o) => Neg(Unbuild(cpu, o))
    case NodeBin(op, l, r) => Bin(op, Unbuild(cpu, l), Unbuild(cpu, r))
  }

  function UnbuildAll(cpu: Cpu, xs: seq<Node>): (r: seq<Ast>)
    ensures |r| == |xs|
    decreases xs
  {
    if xs == [] then [] else [Unbuild(cpu, xs[0])] + UnbuildAll(cpu, xs[1..])
  }

  lemma {:induction false} BuildBack(cpu: Cpu, n: Node)
    requires Printable(cpu, n)
    ensures Good(Unbuild(cpu, n)) && Build(cpu, Unbuild(cpu, n)) == n
    decreases n, 1
  {
    match n
    case NodeCall(f, args) => BuildAllBack(cpu, args);
    case NodeArray(es) => BuildAllBack(cpu, es);
    case NodeNeg(o) => BuildBack(cpu, o);
    case NodeBin(_, l, r) =>
      BuildBack(cpu, l);
      BuildBack(cpu, r);
    case _ =>
  }

  lemma {:induction false} BuildAllBack(cpu: Cpu, xs: seq<Node>)
    requires forall k :: 0 <= k < |xs| ==> Printable(cpu, xs[k])
    ensures forall k :: 0 <= k < |xs| ==> Good(UnbuildAll(cpu, xs)[k])
    ensures BuildAll(cpu, UnbuildAll(cpu, xs)) == xs
    decreases xs, 0
  {
    hide Build, Unbuild, Good, Printable;
    if xs != [] {
      BuildBack(cpu, xs[0]);
      BuildAllBack(cpu, xs[1..]);
      var r := UnbuildAll(cpu, xs);
      assert r[0] == Unbuild(cpu, xs[0]) && r[1..] == UnbuildAll(cpu, xs[1..]);
      forall k | 0 <= k < |xs| ensures Good(r[k]) {
        assert k > 0 ==> r[k] == r[1..][k - 1];
      }
      assert xs == [xs[0]] + xs[1..];
    }
  }

  /** The parser undoes the printer on the trees it builds. */
  lemma TreeRoundTrip(cpu: Cpu, n: Node)
    requires Printable(cpu, n)
    ensures Good(Unbuild(cpu, n)) && ParseTree(cpu, Show(9, Unbuild(cpu, n))) == Some(n)
  {
    hide Parse, Show, Good;
    BuildBack(cpu, n);
    ParseShow(Unbuild(cpu, n));
  }

  /** Whatever a text says -- fractions included -- its tree is the one built from the printed form. */
  lemma ParseShowTree(cpu: Cpu, a: Ast)
    requires Good(a)
    ensures ParseTree(cpu, Show(9, a)) == Some(Build(cpu, a))
  {
    hide Parse, Show, Good, Build;
    ParseShow(a);
  }

  lemma {:induction false} BuildOneMore(cpu: Cpu, xs: seq<Ast>, x: Ast)
    ensures BuildAll(cpu, xs + [x]) == BuildAll(cpu, xs) + [Build(cpu, x)]
    decreases |xs|
  {
    hide Build;
    if xs == [] {
      assert [x][1..] == [];
    } else {
      assert (xs + [x])[1..] == xs[1..] + [x];
      BuildOneMore(cpu, xs[1..], x);
    }
  }
}
