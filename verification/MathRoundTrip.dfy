/** Parsing what was printed gives the tree back, with nothing left over. */
module MathRoundTrip {
  import opened Options
  import opened Values
  import opened MathSyntax

  // ----- blanks

  lemma SpacesIdem(s: Text)
    ensures Spaces(Spaces(s)) == Spaces(s)
  {
  }

  lemma SpacesSkip(s: Text)
    ensures Spaces([SPACE] + s) == Spaces(s)
  {
    assert ([SPACE] + s)[1..] == s;
  }

  lemma SpacesNone(s: Text)
    requires s == [] || !IsSpace(s[0])
    ensures Spaces(s) == s
  {
  }

  lemma {:induction false} LevelSpaces(n: nat, s: Text)
    requires n <= 8
    ensures Level(n, s) == Level(n, Spaces(s))
    decreases n
  {
    hide Tail, Factor;
    if n == 0 {
      FactorSpaces(s);
    } else {
      LevelSpaces(n - 1, s);
    }
  }

  lemma FactorSpaces(s: Text)
    ensures Factor(s) == Factor(Spaces(s))
  {
    hide Comparison, List, Number, NameLen, StringLen, NumberStarts;
    SpacesIdem(s);
  }

  // ----- what may follow an operand

  predicate Ends(tail: Text) { tail == [] || Delim(tail[0]) }

  /** No operator of levels 1 to n begins here, nor, at level 9, a comparison. */
  ghost predicate Stops(n: nat, t: Text) {
    (forall k :: 1 <= k <= n && k <= 8 ==> OpAt(k, t) == None) && (n >= 9 ==> CmpAt(t) == None)
  }

  ghost predicate Follow(n: nat, tail: Text) {
    Ends(tail) && At(Spaces(tail), 0) != OPEN && Stops(n, Spaces(tail))
  }

  lemma FollowDown(n: nat, m: nat, tail: Text)
    requires Follow(n, tail) && m <= n
    ensures Follow(m, tail)
  {
    hide OpAt, CmpAt, Spaces, Ends;
  }

  /** An operator between blanks stops every tighter level and is found at its own. */
  lemma OperatorFollows(op: BinOp, x: Text)
    ensures var t := [SPACE] + Symbol(op) + [SPACE] + x;
            && Follow(LevelOf(op) - 1, t)
            && Spaces(t) == Symbol(op) + [SPACE] + x
            && (if op.Cmp? then CmpAt(Spaces(t)) == Some((op.cmp, |Symbol(op)|)) else OpAt(LevelOf(op), Spaces(t)) == Some((op, |Symbol(op)|)))
            && Spaces(t)[|Symbol(op)|..] == [SPACE] + x
  {
    var t := [SPACE] + Symbol(op) + [SPACE] + x;
    var u := Symbol(op) + [SPACE] + x;
    assert t == [SPACE] + u;
    assert !IsSpace(u[0]);
    SpacesSkip(u);
    SpacesNone(u);
    assert u[|Symbol(op)|..] == [SPACE] + x;
    assert u[|Symbol(op)|] == SPACE;
    StopsHere(op, u);
  }

  lemma StopsHere(op: BinOp, u: Text)
    requires |u| > |Symbol(op)| && u[..|Symbol(op)|] == Symbol(op) && u[|Symbol(op)|] == SPACE
    ensures Stops(LevelOf(op) - 1, u) && At(u, 0) != OPEN
    ensures if op.Cmp? then CmpAt(u) == Some((op.cmp, |Symbol(op)|)) else OpAt(LevelOf(op), u) == Some((op, |Symbol(op)|))
  {
    assert u[0] == Symbol(op)[0];
    assert |Symbol(op)| == 2 ==> u[1] == Symbol(op)[1];
  }

  /** A comma or a closing mark ends everything. */
  lemma CloserFollows(c: Byte, x: Text)
    requires c == CLOSE || c == UNBRACE || c == COMMA
    ensures Follow(9, [c] + x) && Spaces([c] + x) == [c] + x
  {
    SpacesNone([c] + x);
  }

  lemma NothingFollows()
    ensures Follow(9, [])
  {
  }

  // ----- literals

  function DigitsOf(n: nat): seq<nat>
    decreases n
  {
    if n < 10 then [n] else DigitsOf(n / 10) + [n % 10]
  }

  lemma {:induction false} DigitsValue(n: nat)
    ensures Decimal(DigitsOf(n)) == n && DigitsOf(n) != []
    ensures forall k :: 0 <= k < |DigitsOf(n)| ==> DigitsOf(n)[k] < 10
    decreases n
  {
    if n < 10 {
      assert [n][..0] == [];
      assert Decimal([n]) == n;
    } else {
      DigitsValue(n / 10);
      var ds := DigitsOf(n / 10) + [n % 10];
      assert ds[..|ds| - 1] == DigitsOf(n / 10);
    }
  }

  /** Not a digit of either script. */
  predicate NoDigit(s: Text) { !IsDigit(At(s, 0)) && !IsArabicDigit(s) }

  lemma {:induction false} ReadFraction(ds: seq<nat>, rest: Text)
    requires (forall k :: 0 <= k < |ds| ==> ds[k] < 10) && NoDigit(rest)
    ensures Digits(ShowFraction(ds) + rest) == Run(ds, rest)
    decreases |ds|
  {
    hide Digits;
    if ds == [] {
      assert ShowFraction(ds) + rest == rest;
      DigitsStop(rest);
    } else {
      var s := ShowFraction(ds) + rest;
      ReadFraction(ds[1..], rest);
      assert s == [0x30 + ds[0]] + (ShowFraction(ds[1..]) + rest);
      DigitsStep(ds[0], ShowFraction(ds[1..]) + rest);
      assert ds == [ds[0]] + ds[1..];
    }
  }

  lemma DigitsStop(s: Text)
    requires NoDigit(s)
    ensures Digits(s) == Run([], s)
  {
  }

  lemma DigitsStep(d: nat, s: Text)
    requires d < 10
    ensures Digits([0x30 + d] + s) == Run([d] + Digits(s).ds, Digits(s).rest)
  {
    hide IsArabicDigit;
    var t: Text := [0x30 + d] + s;
    assert t[0] == 0x30 + d && IsDigit(t[0]) && t[1..] == s;
  }

  lemma {:induction false} ShowAsFraction(n: nat)
    ensures (forall k :: 0 <= k < |DigitsOf(n)| ==> DigitsOf(n)[k] < 10) && ShowDigits(n) == ShowFraction(DigitsOf(n))
    decreases n
  {
    DigitsValue(n);
    if n >= 10 {
      ShowAsFraction(n / 10);
      FractionApp(DigitsOf(n / 10), n % 10);
    } else {
      assert [n][1..] == [];
      assert ShowFraction([n]) == [0x30 + n] + [];
    }
  }

  lemma {:induction false} FractionApp(ds: seq<nat>, d: nat)
    requires (forall k :: 0 <= k < |ds| ==> ds[k] < 10) && d < 10
    ensures (forall k :: 0 <= k < |ds + [d]| ==> (ds + [d])[k] < 10)
    ensures ShowFraction(ds + [d]) == ShowFraction(ds) + [0x30 + d]
    decreases |ds|
  {
    var e := ds + [d];
    if ds == [] {
      assert e[1..] == [];
      assert ShowFraction(e) == [0x30 + d] + [];
    } else {
      assert e[1..] == ds[1..] + [d];
      FractionApp(ds[1..], d);
    }
  }

  lemma {:induction false} DigitsHead(n: nat)
    ensures ShowDigits(n) != [] && IsDigit(ShowDigits(n)[0]) && (n > 0 ==> ShowDigits(n)[0] != 0x30) && (n == 0 ==> ShowDigits(n) == [0x30])
    decreases n
  {
    if n >= 10 {
      DigitsHead(n / 10);
    }
  }

  lemma ReadDigits(n: nat, rest: Text)
    requires NoDigit(rest)
    ensures Digits(ShowDigits(n) + rest) == Run(DigitsOf(n), rest)
  {
    ShowAsFraction(n);
    ReadFraction(DigitsOf(n), rest);
  }

  lemma NotHex(n: nat, rest: Text)
    requires rest == [] || Delim(rest[0]) || rest[0] == DOT
    ensures var s := ShowDigits(n) + rest; !(At(s, 0) == 0x30 && (At(s, 1) == 0x78 || At(s, 1) == 0x58))
    ensures At(ShowDigits(n) + rest, 0) == ShowDigits(n)[0]
  {
    DigitsHead(n);
  }

  lemma Wrapped(n: nat)
    requires n < I64_LIMIT
    ensures Wrap64(n) == n
  {
  }

  lemma ReadNum(n: nat, tail: Text)
    requires n < I64_LIMIT && Ends(tail)
    ensures Number(ShowDigits(n) + tail) == Some(Parsed(Num(n), tail))
  {
    hide Digits, HexDigits, ShowDigits, Decimal;
    NotHex(n, tail);
    ReadDigits(n, tail);
    DigitsValue(n);
    Wrapped(n);
  }

  lemma ReadFrac(n: nat, ds: seq<nat>, tail: Text)
    requires n < I64_LIMIT && (forall k :: 0 <= k < |ds| ==> ds[k] < 10) && Ends(tail)
    ensures Number(ShowDigits(n) + [DOT] + ShowFraction(ds) + tail) == Some(Parsed(Frac(n, ds), tail))
  {
    hide Digits, HexDigits, ShowDigits, ShowFraction, Decimal, Number, Wrap64;
    var f := ShowFraction(ds) + tail;
    var rest := [DOT] + f;
    Dotted(ShowDigits(n), ShowFraction(ds), tail);
    NotHex(n, rest);
    ReadDigits(n, rest);
    ReadFraction(ds, tail);
    DigitsValue(n);
    Wrapped(n);
    PointNumber(ShowDigits(n) + rest, f);
  }

  lemma Dotted(a: Text, b: Text, tail: Text)
    ensures a + [DOT] + b + tail == a + ([DOT] + (b + tail))
  {
  }

  lemma PointNumber(s: Text, f: Text)
    requires !(At(s, 0) == 0x30 && (At(s, 1) == 0x78 || At(s, 1) == 0x58))
    requires Digits(s).rest == [DOT] + f && Digits(s).ds != []
    ensures Number(s) == Some(Parsed(Frac(Wrap64(Decimal(Digits(s).ds)), Digits(f).ds), Digits(f).rest))
  {
    hide Digits, Decimal, Wrap64;
    assert ([DOT] + f)[1..] == f;
  }

  lemma {:induction false} ReadName(x: Text, tail: Text)
    requires (forall k :: 0 <= k < |x| ==> !Delim(x[k])) && Ends(tail)
    ensures NameLen(x + tail) == |x|
    decreases |x|
  {
    if x == [] {
      assert x + tail == tail;
    } else {
      assert (x + tail)[1..] == x[1..] + tail;
      ReadName(x[1..], tail);
    }
  }

  lemma {:induction false} ReadString(x: Text, tail: Text)
    requires forall k :: 0 <= k < |x| ==> x[k] != QUOTE
    ensures StringLen(x + [QUOTE] + tail) == |x|
    decreases |x|
  {
    var s := x + [QUOTE] + tail;
    if x != [] {
      assert s[1..] == x[1..] + [QUOTE] + tail;
      ReadString(x[1..], tail);
    }
  }

  // ----- first characters

  /** What a printed tree can begin with. */
  predicate HeadOk(s: Text) { s != [] && !IsSpace(s[0]) && s[0] != CLOSE && s[0] != UNBRACE }

  lemma {:induction false} ShowHead(n: nat, a: Ast)
    requires Good(a)
    ensures HeadOk(Show(n, a))
    decreases a
  {
    hide ShowDigits, ShowFraction, ShowList, Symbol, LevelOf;
    if !(n < Needs(a)) {
      match a
      case Num(v) => DigitsHead(v);
      case Frac(w, _) => DigitsHead(w);
      case Var(x) => assert !Delim(x[0]);
      case Call(f, _) => assert !Delim(f[0]);
      case Bin(op, l, _) => ShowHead(if op.Cmp? then 8 else LevelOf(op), l);
      case _ =>
    }
  }

  /** A printed tree begins where the text does: no blanks to skip. */
  lemma ShowStarts(n: nat, a: Ast, tail: Text)
    requires Good(a)
    ensures Spaces(Show(n, a) + tail) == Show(n, a) + tail
    ensures Show(n, a) != [] && (Show(n, a) + tail)[0] == Show(n, a)[0]
  {
    hide Show;
    ShowHead(n, a);
    SpacesNone(Show(n, a) + tail);
  }

  // ----- reading back

  function LevelX(n: nat, s: Text): Option<Parsed>
    requires n <= 9
  {
    if n == 9 then Comparison(s) else Level(n, s)
  }

  /** Reading at level n what was printed at level n gives the tree and leaves the tail, blanks aside. */
  ghost predicate Reads(n: nat, a: Ast, tail: Text)
    requires n <= 9 && Good(a)
  {
    var r := LevelX(n, Show(n, a) + tail);
    r.Some? && r.value.ast == a && Spaces(r.value.rest) == Spaces(tail)
  }

  lemma TailSpaces(n: nat, a: Ast, s: Text, t: Text)
    requires 0 < n <= 8 && Spaces(s) == Spaces(t)
    ensures Tail(n, a, s) == Tail(n, a, t)
  {
    hide Level, OpAt, Spaces;
  }

  lemma TailStops(n: nat, a: Ast, tail: Text)
    requires 0 < n <= 8 && OpAt(n, Spaces(tail)) == None
    ensures Tail(n, a, tail) == Some(Parsed(a, Spaces(tail)))
  {
    hide Level;
  }

  /** One operator of level n taken off the tail. */
  lemma TailTakes(n: nat, l: Ast, op: BinOp, r: Ast, tail: Text)
    requires 0 < n <= 8 && LevelOf(op) == n && Good(r) && Reads(n - 1, r, tail)
    ensures Tail(n, l, [SPACE] + Symbol(op) + [SPACE] + (Show(n - 1, r) + tail)) == Tail(n, Bin(op, l, r), tail)
  {
    hide Level, OpAt, Spaces, Show, Symbol, LevelOf;
    var x := Show(n - 1, r) + tail;
    var s := [SPACE] + Symbol(op) + [SPACE] + x;
    OperatorFollows(op, x);
    NotCmp(op);
    SpacesSkip(x);
    LevelSpaces(n - 1, [SPACE] + x);
    LevelSpaces(n - 1, x);
    var p := Level(n - 1, x).value;
    TailSpaces(n, Bin(op, l, r), p.rest, tail);
  }

  lemma NotCmp(op: BinOp)
    requires LevelOf(op) <= 8
    ensures !op.Cmp? && LevelOf(op) >= 1
  {
  }

  function Flag(n: nat, a: Ast): nat { if n < Needs(a) then 1 else 0 }

  /** At levels 1 to 8 an operand is read as far as the operators of its level go on. */
  lemma {:induction false} ReadUpTo(n: nat, a: Ast, tail: Text)
    requires 1 <= n <= 8 && Good(a) && Follow(n - 1, tail)
    ensures Level(n, Show(n, a) + tail) == Tail(n, a, tail)
    decreases a, Flag(n, a), n, 0
  {
    hide Level, Tail, Follow, OpAt, Symbol, Show;
    LevelIs(n, Show(n, a) + tail);
    if a.Bin? && LevelOf(a.op) == n {
      NotCmp(a.op);
      var x := Show(n - 1, a.right) + tail;
      var t := [SPACE] + Symbol(a.op) + [SPACE] + x;
      assert Show(n, a) + tail == Show(n, a.left) + t by { ShowBin(n, a, tail); }
      OperatorFollows(a.op, x);
      ReadUpTo(n, a.left, t);
      ReadBack(n - 1, a.right, tail);
      TailTakes(n, a.left, a.op, a.right, tail);
    } else {
      ShowSame(n, a);
      ReadBack(n - 1, a, tail);
      var p := Level(n - 1, Show(n - 1, a) + tail).value;
      TailSpaces(n, a, p.rest, tail);
    }
  }

  lemma LevelIs(n: nat, s: Text)
    requires 1 <= n <= 8
    ensures Level(n, s) == match Level(n - 1, s) case None => None case Some(p) => Tail(n, p.ast, p.rest)
  {
  }

  lemma ShowBin(n: nat, a: Ast, tail: Text)
    requires Good(a) && a.Bin? && LevelOf(a.op) == n <= 8 && !a.op.Cmp? && n >= 1
    ensures Show(n, a) + tail == Show(n, a.left) + ([SPACE] + Symbol(a.op) + [SPACE] + (Show(n - 1, a.right) + tail))
  {
    hide Symbol;
    var l, r := Show(n, a.left), Show(n - 1, a.right);
    assert Show(n, a) == l + [SPACE] + Symbol(a.op) + [SPACE] + r;
  }

  /** Where a tree's own level is not n, level n prints it as the level below does. */
  lemma ShowSame(n: nat, a: Ast)
    requires Good(a) && n >= 1 && !(a.Bin? && LevelOf(a.op) == n)
    ensures Show(n, a) == Show(n - 1, a) && Flag(n - 1, a) == Flag(n, a)
  {
    hide Symbol, ShowList, ShowDigits, ShowFraction;
  }

  /** Parsing undoes printing at every level. */
  lemma {:induction false} ReadBack(n: nat, a: Ast, tail: Text)
    requires n <= 9 && Good(a) && Follow(n, tail)
    ensures Reads(n, a, tail)
    decreases a, Flag(n, a), n, 1
  {
    hide Level, Tail, Comparison, Factor, Follow, OpAt, CmpAt, Show, Symbol;
    if n == 0 {
      LevelZero(Show(0, a) + tail);
      ReadFactor(a, tail);
    } else if n <= 8 {
      FollowDown(n, n - 1, tail);
      ReadUpTo(n, a, tail);
      FollowStops(n, tail);
      TailStops(n, a, tail);
      SpacesIdem(tail);
    } else if a.Bin? && a.op.Cmp? {
      FollowDown(9, 8, tail);
      ReadBack(8, a.right, tail);
      var x := Show(8, a.right) + tail;
      var t := [SPACE] + Symbol(a.op) + [SPACE] + x;
      OperatorFollows(a.op, x);
      ReadBack(8, a.left, t);
      ReadComparison(a, tail);
    } else {
      FollowDown(9, 8, tail);
      ShowNine(a);
      ReadBack(8, a, tail);
      FollowStops(9, tail);
      ComparisonStops(Show(9, a) + tail, tail);
    }
  }

  lemma LevelZero(s: Text)
    ensures Level(0, s) == Factor(s)
  {
  }

  lemma FollowStops(n: nat, tail: Text)
    requires Follow(n, tail) && 1 <= n
    ensures if n <= 8 then OpAt(n, Spaces(tail)) == None else CmpAt(Spaces(tail)) == None
  {
    hide OpAt, CmpAt;
  }

  lemma ShowNine(a: Ast)
    requires Good(a) && !(a.Bin? && a.op.Cmp?)
    ensures Show(9, a) == Show(8, a) && Flag(8, a) == Flag(9, a) == 0
  {
    hide Symbol, ShowList, ShowDigits, ShowFraction;
  }

  lemma ComparisonStops(s: Text, tail: Text)
    requires Level(8, s).Some? && Spaces(Level(8, s).value.rest) == Spaces(tail) && CmpAt(Spaces(tail)) == None
    ensures Comparison(s) == Some(Parsed(Level(8, s).value.ast, Spaces(tail)))
    ensures Spaces(Spaces(tail)) == Spaces(tail)
  {
    hide Level, CmpAt;
  }

  lemma ReadComparison(a: Ast, tail: Text)
    requires Good(a) && a.Bin? && a.op.Cmp? && Reads(8, a.right, tail)
    requires Reads(8, a.left, [SPACE] + Symbol(a.op) + [SPACE] + (Show(8, a.right) + tail))
    ensures Reads(9, a, tail)
  {
    hide Level, CmpAt, OpAt, Symbol, Spaces;
    var x := Show(8, a.right) + tail;
    var t := [SPACE] + Symbol(a.op) + [SPACE] + x;
    ShowCmp(a, tail);
    OperatorFollows(a.op, x);
    SpacesSkip(x);
    ShowStarts(8, a.right, tail);
  }

  lemma ShowCmp(a: Ast, tail: Text)
    requires Good(a) && a.Bin? && a.op.Cmp?
    ensures Show(9, a) + tail == Show(8, a.left) + ([SPACE] + Symbol(a.op) + [SPACE] + (Show(8, a.right) + tail))
  {
    hide Symbol;
    var l, r := Show(8, a.left), Show(8, a.right);
    assert Show(9, a) == l + [SPACE] + Symbol(a.op) + [SPACE] + r;
  }

  // ----- factors

  ghost predicate ReadsFactor(s: Text, a: Ast, tail: Text) {
    var r := Factor(s);
    r.Some? && r.value.ast == a && Spaces(r.value.rest) == Spaces(tail)
  }

  lemma {:induction false} ReadFactor(a: Ast, tail: Text)
    requires Good(a) && Follow(0, tail)
    ensures ReadsFactor(Show(0, a) + tail, a, tail)
    decreases a, Flag(0, a), 0, 0
  {
    hide Factor, Level, Tail, Comparison, List, Follow, Show, ShowList, ShowDigits, ShowFraction;
    assert Ends(tail) by { FollowEnds(0, tail); }
    if 0 < Needs(a) {
      ShowParen(a, tail);
      CloserFollows(CLOSE, tail);
      ReadBack(9, a, [CLOSE] + tail);
      FactorParen(Show(9, a), a, tail);
    } else {
      match a
      case Num(v) => FactorNum(a, tail);
      case Frac(w, ds) => FactorNum(a, tail);
      case Str(t) => FactorString(t, tail);
      case Var(x) => FactorVar(x, tail);
      case Call(f, args) =>
        ReadList(CLOSE, args, tail);
        FactorCall(f, args, tail);
      case Arr(es) =>
        ReadList(UNBRACE, es, tail);
        FactorArray(es, tail);
      case Neg(o) =>
        ReadFactor(o, tail);
        FactorNeg(o, tail);
    }
  }

  lemma FollowEnds(n: nat, tail: Text)
    requires Follow(n, tail)
    ensures Ends(tail)
  {
    hide Spaces, Stops;
  }

  lemma NeedsAtMost(a: Ast)
    ensures Needs(a) <= 9
  {
  }

  lemma ShowParen(a: Ast, tail: Text)
    requires Good(a) && 0 < Needs(a)
    ensures Show(0, a) + tail == [OPEN] + (Show(9, a) + ([CLOSE] + tail))
    ensures Flag(9, a) == 0 && Flag(0, a) == 1
  {
    hide LevelOf, Symbol, ShowList, ShowDigits, ShowFraction;
    var x := Show(9, a);
    assert Show(0, a) == [OPEN] + x + [CLOSE];
    assert Needs(a) <= 9 by { NeedsAtMost(a); }
  }

  lemma FactorParen(x: Text, a: Ast, tail: Text)
    requires Comparison(x + ([CLOSE] + tail)).Some?
    requires var p := Comparison(x + ([CLOSE] + tail)).value; p.ast == a && Spaces(p.rest) == [CLOSE] + tail
    ensures ReadsFactor([OPEN] + (x + ([CLOSE] + tail)), a, tail)
  {
    hide Comparison, List, Number, NameLen, StringLen, NumberStarts;
    var s := [OPEN] + (x + ([CLOSE] + tail));
    SpacesNone(s);
    assert s[1..] == x + ([CLOSE] + tail);
    assert ([CLOSE] + tail)[1..] == tail;
  }

  lemma FactorNum(a: Ast, tail: Text)
    requires Good(a) && (a.Num? || a.Frac?) && Ends(tail)
    ensures ReadsFactor(Show(0, a) + tail, a, tail)
  {
    hide Comparison, List, Number, NameLen, StringLen, ShowDigits, ShowFraction;
    var n := if a.Num? then a.v else a.whole;
    DigitsHead(n);
    if a.Num? {
      ReadNum(n, tail);
    } else {
      ReadFrac(n, a.digits, tail);
    }
    SpacesNone(Show(0, a) + tail);
  }

  lemma FactorString(t: Text, tail: Text)
    requires Good(Str(t))
    ensures ReadsFactor(Show(0, Str(t)) + tail, Str(t), tail)
  {
    hide Comparison, List, Number, NameLen, StringLen, NumberStarts;
    var s := [QUOTE] + t + [QUOTE] + tail;
    assert s[1..] == t + [QUOTE] + tail;
    ReadString(t, tail);
    SpacesNone(s);
    assert s[1..|t| + 1] == t && s[|t| + 2..] == tail;
  }

  /** A good name followed by anything that ends a name is read as a name. */
  lemma NameStarts(x: Text, tail: Text)
    requires GoodName(x) && Ends(tail)
    ensures var s := x + tail;
            && Spaces(s) == s && s != [] && s[0] != OPEN && s[0] != BRACE && s[0] != MINUS && s[0] != QUOTE && !NumberStarts(s)
            && NameLen(s) == |x| > 0 && s[..|x|] == x && s[|x|..] == tail
  {
    var s := x + tail;
    ReadName(x, tail);
    assert !Delim(x[0]) && s[0] == x[0];
    SpacesNone(s);
    assert |x| >= 2 ==> s[1] == x[1];
    assert s[..|x|] == x && s[|x|..] == tail;
  }

  lemma FactorVar(x: Text, tail: Text)
    requires GoodName(x) && Follow(0, tail)
    ensures ReadsFactor(Show(0, Var(x)) + tail, Var(x), tail)
  {
    hide Comparison, List, Number, NameLen, StringLen, NumberStarts, GoodName, OpAt, CmpAt;
    NameStarts(x, tail);
    SpacesIdem(tail);
  }

  lemma FactorCall(f: Text, args: seq<Ast>, tail: Text)
    requires Good(Call(f, args)) && List(CLOSE, ShowList(args) + [CLOSE] + tail) == Some(ParsedList(args, tail))
    ensures ReadsFactor(Show(0, Call(f, args)) + tail, Call(f, args), tail)
  {
    hide Comparison, List, Number, NameLen, StringLen, NumberStarts, GoodName, ShowList;
    var rest := [OPEN] + ShowList(args) + [CLOSE] + tail;
    assert Show(0, Call(f, args)) + tail == f + rest;
    NameStarts(f, rest);
    SpacesNone(rest);
    assert rest[1..] == ShowList(args) + [CLOSE] + tail;
  }

  lemma FactorArray(es: seq<Ast>, tail: Text)
    requires Good(Arr(es)) && List(UNBRACE, ShowList(es) + [UNBRACE] + tail) == Some(ParsedList(es, tail))
    ensures ReadsFactor(Show(0, Arr(es)) + tail, Arr(es), tail)
  {
    hide Comparison, List, Number, NameLen, StringLen, NumberStarts, ShowList;
    var s := [BRACE] + ShowList(es) + [UNBRACE] + tail;
    SpacesNone(s);
    assert s[1..] == ShowList(es) + [UNBRACE] + tail;
  }

  lemma ShowNeg(o: Ast, tail: Text)
    requires Good(o)
    ensures Show(0, Neg(o)) + tail == [MINUS] + (Show(0, o) + tail)
  {
  }

  lemma FactorNeg(o: Ast, tail: Text)
    requires Good(o) && ReadsFactor(Show(0, o) + tail, o, tail)
    ensures ReadsFactor(Show(0, Neg(o)) + tail, Neg(o), tail)
  {
    hide Factor, Show;
    var s := [MINUS] + (Show(0, o) + tail);
    ShowNeg(o, tail);
    SpacesNone(s);
    assert s[1..] == Show(0, o) + tail;
    FactorMinus(s);
  }

  // ----- lists

  lemma {:induction false} ReadList(close: Byte, xs: seq<Ast>, tail: Text)
    requires (close == CLOSE || close == UNBRACE) && forall k :: 0 <= k < |xs| ==> Good(xs[k])
    ensures List(close, ShowList(xs) + [close] + tail) == Some(ParsedList(xs, tail))
    decreases xs, 1
  {
    hide Comparison, Items, Show, Good;
    var s := ShowList(xs) + [close] + tail;
    if xs == [] {
      assert s == [close] + tail;
      SpacesNone(s);
      assert s[1..] == tail;
    } else {
      ReadItems(close, xs, tail);
      ListHead(xs);
      SpacesNone(s);
    }
  }

  lemma ListHead(xs: seq<Ast>)
    requires xs != [] && forall k :: 0 <= k < |xs| ==> Good(xs[k])
    ensures HeadOk(ShowList(xs))
  {
    hide Show, Good;
    ShowHead(9, xs[0]);
  }

  lemma {:induction false} ReadItems(close: Byte, xs: seq<Ast>, tail: Text)
    requires (close == CLOSE || close == UNBRACE) && xs != [] && forall k :: 0 <= k < |xs| ==> Good(xs[k])
    ensures Items(close, ShowList(xs) + [close] + tail) == Some(ParsedList(xs, tail))
    decreases xs, 0
  {
    hide Comparison, Show, Good, Follow;
    var first := Show(9, xs[0]);
    if |xs| == 1 {
      CloserFollows(close, tail);
      assert ShowList(xs) + [close] + tail == first + ([close] + tail);
      ReadBack(9, xs[0], [close] + tail);
      assert ([close] + tail)[1..] == tail && xs == [xs[0]];
    } else {
      var more := ShowList(xs[1..]) + [close] + tail;
      var rest := [COMMA] + ([SPACE] + more);
      assert ShowList(xs) + [close] + tail == first + rest;
      CloserFollows(COMMA, [SPACE] + more);
      ReadBack(9, xs[0], rest);
      assert rest[1..] == [SPACE] + more;
      SpacesSkip(more);
      ListHead(xs[1..]);
      SpacesNone(more);
      ReadItems(close, xs[1..], tail);
      assert xs == [xs[0]] + xs[1..];
    }
  }

  // ----- the whole text

  /** Printing any tree with the fewest parentheses the ladder allows and parsing the text returns the
      same tree with nothing left over. */
  lemma ParseShow(a: Ast)
    requires Good(a)
    ensures Parse(Show(9, a)) == Some(a)
  {
    hide Comparison, Show;
    NothingFollows();
    ReadBack(9, a, []);
    assert Show(9, a) + [] == Show(9, a);
    assert Spaces([]) == [];
  }

  /** Comparisons do not chain: a comparison followed by another comparison sign is refused, whatever
      comes after. In particular a > 0 && b < 10 is a comparison of a with 0 && b, followed by one. */
  lemma ComparisonsDoNotChain(a: Ast, op: CmpOp, x: Text)
    requires Good(a) && a.Bin? && a.op.Cmp?
    ensures Parse(Show(9, a) + ([SPACE] + Symbol(Cmp(op)) + [SPACE] + x)) == None
  {
    hide Comparison, Show, Symbol, Spaces, Follow;
    var tail := [SPACE] + Symbol(Cmp(op)) + [SPACE] + x;
    OperatorFollows(Cmp(op), x);
    ReadBack(8, a.right, tail);
    var y := Show(8, a.right) + tail;
    OperatorFollows(a.op, y);
    ReadBack(8, a.left, [SPACE] + Symbol(a.op) + [SPACE] + y);
    ReadComparison(a, tail);
  }
}
