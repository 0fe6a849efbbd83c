/** What the compiler accepts, in numbers: depth of expressions, nesting of loops, jumps of a loop. */
module Limits {
  import opened Values
  import opened Language
  import opened MachineCode
  import opened CodeGen

  /** n operators nested to the right of one another. */
  function RightNested(n: nat, op: BinOp, leaf: Expr): Expr {
    if n == 0 then leaf else Bin(op, leaf, RightNested(n - 1, op, leaf))
  }

  /** n operators nested to the left of one another. */
  function LeftNested(n: nat, op: BinOp, leaf: Expr): Expr {
    if n == 0 then leaf else Bin(op, LeftNested(n - 1, op, leaf), leaf)
  }

  lemma {:induction false} RightFrom(n: nat, op: BinOp, leaf: Expr, d: nat)
    requires forall k: nat :: AcceptsE(leaf, k)
    ensures AcceptsE(RightNested(n, op, leaf), d) <==> n == 0 || n + d <= 15
    decreases n
  {
    if n > 0 {
      RightFrom(n - 1, op, leaf, d + 1);
    }
  }

  lemma {:induction false} LeftFrom(n: nat, op: BinOp, leaf: Expr)
    requires forall k: nat :: AcceptsE(leaf, k)
    ensures AcceptsE(LeftNested(n, op, leaf), 0)
    decreases n
  {
    if n > 0 {
      LeftFrom(n - 1, op, leaf);
    }
  }

  /** Operators nest to the right at most 15 deep, and to the left without limit. */
  lemma ExpressionDepth(n: nat, op: BinOp, x: Name)
    requires NameOk(x)
    ensures AcceptsE(RightNested(n, op, Var(x)), 0) <==> n <= 15
    ensures AcceptsE(LeftNested(n, op, Var(x)), 0)
  {
    hide NameOk;
    RightFrom(n, op, Var(x), 0);
    LeftFrom(n, op, Var(x));
  }

  /** n loops inside one another. */
  function Nest(n: nat): Block { if n == 0 then Nil else Cons(Loop(Nest(n - 1)), Nil) }

  lemma {:induction false} NestFrom(n: nat, loops: nat)
    ensures AcceptsB(Nest(n), loops) <==> n == 0 || n + loops <= 16
    ensures CountBreaks(Nest(n)) == CountContinues(Nest(n)) == 0
    decreases n
  {
    if n > 0 {
      NestFrom(n - 1, loops + 1);
    }
  }

  /** Loops nest at most 16 deep. */
  lemma LoopDepth(n: nat)
    ensures AcceptsB(Nest(n), 0) <==> n <= 16
  {
    NestFrom(n, 0);
  }

  /** The same statement n times. */
  function Times(n: nat, s: Stmt): Block { if n == 0 then Nil else Cons(s, Times(n - 1, s)) }

  lemma {:induction false} Jumps(n: nat)
    ensures CountBreaks(Times(n, Break)) == n && CountContinues(Times(n, Break)) == 0
    ensures CountContinues(Times(n, Continue)) == n && CountBreaks(Times(n, Continue)) == 0
    ensures AcceptsB(Times(n, Break), 1) && AcceptsB(Times(n, Continue), 1)
    ensures n > 0 ==> !AcceptsB(Times(n, Break), 0) && !AcceptsB(Times(n, Continue), 0)
    decreases n
  {
    if n > 0 {
      Jumps(n - 1);
    }
  }

  /** A loop holds at most 32 breaks and 32 continues of its own; outside a loop there is none. */
  lemma LoopJumps(n: nat)
    ensures AcceptsB(Cons(Loop(Times(n, Break)), Nil), 0) <==> n <= 32
    ensures AcceptsB(Cons(Loop(Times(n, Continue)), Nil), 0) <==> n <= 32
    ensures n > 0 ==> !AcceptsB(Times(n, Break), 0) && !AcceptsB(Times(n, Continue), 0)
  {
    Jumps(n);
  }
}
