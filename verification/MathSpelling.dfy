/** How numbers, operators and marks are spelled, byte by byte, and what the parser reads in them. */
module MathSpelling {
  import opened Options
  import opened Values
  import opened MathSyntax
  import opened MathRoundTrip

  // ----- a text that is one operand

  lemma {:induction false} AloneAtLevel(s: Text, a: Ast, n: nat)
    requires Factor(s) == Some(Parsed(a, [])) && n <= 8
    ensures Level(n, s) == Some(Parsed(a, []))
    decreases n
  {
    hide Factor;
    if n > 0 {
      AloneAtLevel(s, a, n - 1);
      NoOperator(n);
    }
  }

  lemma NoOperator(n: nat)
    ensures Spaces([]) == [] && OpAt(n, []) == None && CmpAt([]) == None
  {
  }

  lemma Alone(s: Text, a: Ast)
    requires Factor(s) == Some(Parsed(a, []))
    ensures Parse(s) == Some(a)
  {
    hide Factor, Level;
    AloneAtLevel(s, a, 8);
    NoOperator(8);
  }

  /** A text that begins with a digit of either script is read as a number. */
  lemma NumberAlone(s: Text, v: int)
    requires NumberStarts(s) && s != [] && Number(s) == Some(Parsed(Num(v), []))
    ensures Parse(s) == Some(Num(v))
  {
    hide Number, Parse, Factor;
    SpacesNone(s);
    FactorNumber(s);
    Alone(s, Num(v));
  }

  // ----- hexadecimal

  const UPPER: string := "0123456789ABCDEF"
  const LOWER: string := "0123456789abcdef"

  function HexByte(d: nat, upper: bool): Byte
    requires d < 16
  {
    HexBytes(d);
    if upper then UPPER[d] as int else LOWER[d] as int
  }

  lemma HexBytes(d: nat)
    requires d < 16
    ensures 0 <= UPPER[d] as int < 256 && 0 <= LOWER[d] as int < 256
    ensures HexDigit(UPPER[d] as int) == d && HexDigit(LOWER[d] as int) == d
  {
  }

  /** n in hexadecimal digits; the digit for 16^k is a capital where `upper` says so for k. */
  function ShowHex(n: nat, upper: nat -> bool, k: nat): (t: Text)
    ensures t != []
    decreases n
  {
    if n < 16 then [HexByte(n, upper(k))] else ShowHex(n / 16, upper, k + 1) + [HexByte(n % 16, upper(k))]
  }

  function HexValues(n: nat): (r: seq<nat>)
    ensures r != []
    decreases n
  {
    if n < 16 then [n] else HexValues(n / 16) + [n % 16]
  }

  lemma {:induction false} HexValue(n: nat)
    ensures Hexadecimal(HexValues(n)) == n
    decreases n
  {
    if n < 16 {
      assert [n][..0] == [] && Hexadecimal([]) == 0;
    } else {
      HexValue(n / 16);
      var ds := HexValues(n / 16) + [n % 16];
      assert ds[..|ds| - 1] == HexValues(n / 16);
    }
  }

  lemma {:induction false} ReadHex(n: nat, upper: nat -> bool, k: nat, rest: Text)
    ensures HexDigits(ShowHex(n, upper, k) + rest) == Run(HexValues(n) + HexDigits(rest).ds, HexDigits(rest).rest)
    decreases n
  {
    hide HexDigits, HexByte;
    if n < 16 {
      HexStep(n, upper(k), rest);
    } else {
      var last: Text := [HexByte(n % 16, upper(k))];
      ReadHex(n / 16, upper, k + 1, last + rest);
      HexStep(n % 16, upper(k), rest);
      assert ShowHex(n, upper, k) + rest == ShowHex(n / 16, upper, k + 1) + (last + rest);
      assert HexValues(n) + HexDigits(rest).ds == HexValues(n / 16) + ([n % 16] + HexDigits(rest).ds);
    }
  }

  lemma HexStep(d: nat, upper: bool, rest: Text)
    requires d < 16
    ensures HexDigits([HexByte(d, upper)] + rest) == Run([d] + HexDigits(rest).ds, HexDigits(rest).rest)
  {
    HexBytes(d);
    var s: Text := [HexByte(d, upper)] + rest;
    assert s[1..] == rest;
  }

  /** Every number below 2^64 written in hexadecimal, capitals and small letters mixed in any way, behind 0x
      or 0X, is read as that number, from 2^63 on as the negative one with the same 64 bits. */
  lemma HexLiteral(n: nat, upper: nat -> bool, capital: bool)
    requires n < 0x1_0000_0000_0000_0000
    ensures Parse([0x30, if capital then 0x58 else 0x78] + ShowHex(n, upper, 0)) ==
      Some(Num(if n < 0x8000_0000_0000_0000 then n else n - 0x1_0000_0000_0000_0000))
  {
    hide Parse, HexDigits, ShowHex, HexValues, Hexadecimal;
    var s: Text := [0x30, if capital then 0x58 else 0x78] + ShowHex(n, upper, 0);
    assert s[2..] == ShowHex(n, upper, 0);
    ReadHex(n, upper, 0, []);
    assert ShowHex(n, upper, 0) + [] == ShowHex(n, upper, 0);
    HexNone();
    assert HexValues(n) + [] == HexValues(n);
    HexValue(n);
    NumberAlone(s, Wrap64(n));
  }

  lemma HexNone()
    ensures HexDigits([]) == Run([], [])
  {
  }

  // ----- decimal digits of both scripts

  /** The UTF-8 form of a code point from 0x80 to 0x7FF: section 3 of RFC 3629. */
  function TwoBytes(c: nat): Text
    requires 0x80 <= c < 0x800
  {
    [0xC0 + c / 64, 0x80 + c % 64]
  }

  /** A decimal digit: from U+0660 on in the Arabic script, and as ASCII otherwise. */
  function DigitText(d: nat, arabic: bool): Text
    requires d < 10
  {
    if arabic then TwoBytes(0x660 + d) else ["0123456789"[d] as int]
  }

  /** n in decimal digits; the digit for 10^k is of the Arabic script where `arabic` says so for k. */
  function ShowMixed(n: nat, arabic: nat -> bool, k: nat): (t: Text)
    ensures t != []
    decreases n
  {
    if n < 10 then DigitText(n, arabic(k)) else ShowMixed(n / 10, arabic, k + 1) + DigitText(n % 10, arabic(k))
  }

  lemma MixedStep(d: nat, arabic: bool, rest: Text)
    requires d < 10
    ensures Digits(DigitText(d, arabic) + rest) == Run([d] + Digits(rest).ds, Digits(rest).rest)
  {
    var s := DigitText(d, arabic) + rest;
    if arabic {
      assert s[0] == 0xD9 && s[1] == 0xA0 + d && s[2..] == rest;
    } else {
      assert s[0] == 0x30 + d && s[1..] == rest;
    }
  }

  lemma {:induction false} ReadMixed(n: nat, arabic: nat -> bool, k: nat, rest: Text)
    ensures Digits(ShowMixed(n, arabic, k) + rest) == Run(DigitsOf(n) + Digits(rest).ds, Digits(rest).rest)
    decreases n
  {
    hide Digits, DigitText;
    if n < 10 {
      MixedStep(n, arabic(k), rest);
    } else {
      var last := DigitText(n % 10, arabic(k));
      ReadMixed(n / 10, arabic, k + 1, last + rest);
      MixedStep(n % 10, arabic(k), rest);
      assert ShowMixed(n, arabic, k) + rest == ShowMixed(n / 10, arabic, k + 1) + (last + rest);
      assert DigitsOf(n) + Digits(rest).ds == DigitsOf(n / 10) + ([n % 10] + Digits(rest).ds);
    }
  }

  lemma {:induction false} MixedHead(n: nat, arabic: nat -> bool, k: nat)
    ensures var t := ShowMixed(n, arabic, k);
      (IsDigit(t[0]) || IsArabicDigit(t)) && (forall j :: 0 <= j < |t| ==> t[j] != 0x78 && t[j] != 0x58)
    decreases n
  {
    if n >= 10 {
      MixedHead(n / 10, arabic, k + 1);
    }
  }

  /** Every number below 2^63 written in decimal digits of both scripts, mixed in any way, is read as that
      number. */
  lemma MixedLiteral(n: nat, arabic: nat -> bool)
    requires n < 0x8000_0000_0000_0000
    ensures Parse(ShowMixed(n, arabic, 0)) == Some(Num(n))
  {
    hide Parse, Digits, HexDigits, ShowMixed, Decimal, DigitsOf;
    var s := ShowMixed(n, arabic, 0);
    MixedHead(n, arabic, 0);
    ReadMixed(n, arabic, 0, []);
    assert s + [] == s;
    DigitsStop([]);
    assert DigitsOf(n) + [] == DigitsOf(n);
    DigitsValue(n);
    Wrapped(n);
    NumberAlone(s, n);
  }

  // ----- names and operators without blanks

  /** Letters, the underscore, digits behind the first place, and all bytes of other scripts. */
  predicate NameByte(c: int) { 0x41 <= c <= 0x5A || 0x61 <= c <= 0x7A || c == 0x5F || 0x80 <= c < 0x100 || 0x30 <= c <= 0x39 }

  predicate PlainName(x: Text) {
    x != [] && (forall k :: 0 <= k < |x| ==> NameByte(x[k])) && !(0x30 <= x[0] <= 0x39) && !(|x| >= 2 && x[0] == 0xD9 && 0xA0 <= x[1] <= 0xA9)
  }

  lemma PlainIsGood(x: Text)
    requires PlainName(x)
    ensures GoodName(x)
  {
    forall k | 0 <= k < |x| ensures !Delim(x[k]) && x[k] != 0 {
      assert NameByte(x[k]);
    }
  }

  /** How each operator is written. */
  function Sign(op: BinOp): Text {
    match op
    case Ar(Plus) => Ascii("+") case Ar(Minus) => Ascii("-") case Ar(Times) => Ascii("*") case Ar(Over) => Ascii("/")
    case Rem => Ascii("%") case Bit(Shl) => Ascii("<<") case Bit(Shr) => Ascii(">>")
    case Bit(And64) => Ascii("&") case Bit(Or64) => Ascii("|") case Bit(Xor64) => Ascii("^")
    case LAnd => Ascii("&&") case LOr => Ascii("||")
    case Cmp(Eq) => Ascii("==") case Cmp(Neq) => Ascii("!=")
    case Cmp(Lt) => Ascii("<") case Cmp(Lte) => Ascii("<=") case Cmp(Gt) => Ascii(">") case Cmp(Gte) => Ascii(">=")
  }

  function Ascii(s: string): (t: Text)
    requires |s| <= 2 && forall k :: 0 <= k < |s| ==> s[k] as int < 128
    ensures |t| == |s| && forall k :: 0 <= k < |s| ==> t[k] == s[k] as int
  {
    seq(|s|, k requires 0 <= k < |s| => s[k] as int)
  }

  lemma SignIs(op: BinOp)
    ensures Sign(op) == Symbol(op)
  {
    var t := Sign(op);
    assert |t| == |Symbol(op)|;
  }

  /** Spaces and tabs. */
  predicate Blank(b: Text) { forall k :: 0 <= k < |b| ==> b[k] == 0x20 || b[k] == 0x09 }

  lemma {:induction false} SkipBlank(b: Text, s: Text)
    requires Blank(b)
    ensures Spaces(b + s) == Spaces(s)
    decreases |b|
  {
    if b == [] {
      assert b + s == s;
    } else {
      assert (b + s)[1..] == b[1..] + s;
      SkipBlank(b[1..], s);
    }
  }

  /** Behind an operator comes a blank or a name. */
  predicate AfterOp(u: Text, n: nat) { n < |u| && (NameByte(u[n]) || u[n] == 0x20 || u[n] == 0x09) }

  lemma FoundAt(op: BinOp, u: Text)
    requires Sign(op) <= u && AfterOp(u, |Sign(op)|)
    ensures Spaces(u) == u && At(u, 0) != OPEN && Delim(u[0])
    ensures forall k :: 1 <= k < LevelOf(op) && k <= 8 ==> OpAt(k, u) == None
    ensures if op.Cmp? then CmpAt(u) == Some((op.cmp, |Sign(op)|)) else OpAt(LevelOf(op), u) == Some((op, |Sign(op)|))
  {
    SignIs(op);
    assert u[0] == Symbol(op)[0];
    assert |Symbol(op)| == 2 ==> u[1] == Symbol(op)[1];
    assert |Symbol(op)| == 1 ==> At(u, 1) == u[1];
  }

  /** A name before an operator or at the end, blanks before it or not. */
  lemma NameBefore(b: Text, x: Text, rest: Text)
    requires Blank(b) && PlainName(x) && Ends(rest) && At(Spaces(rest), 0) != OPEN
    ensures Factor(b + x + rest) == Some(Parsed(Var(x), Spaces(rest)))
  {
    hide NumberStarts, Spaces, GoodName, Delim, PlainName, Factor, NameLen, List;
    PlainIsGood(x);
    SkipBlank(b, x + rest);
    assert b + x + rest == b + (x + rest);
    NameStarts(x, rest);
    FactorNamed(b + x + rest);
  }

  lemma EndsAfter(c: Text, u: Text)
    requires Blank(c) && u != [] && Delim(u[0])
    ensures Ends(c + u)
  {
    if c != [] {
      assert (c + u)[0] == c[0];
    } else {
      assert c + u == u;
    }
  }

  /** Two names with an operator between them, blanks anywhere or nowhere. */
  function Two(op: BinOp, x: Text, y: Text, a: Text, b: Text, c: Text): Text { a + x + (b + (Sign(op) + (c + y))) }

  lemma {:induction false} TwoAtLevel(op: BinOp, x: Text, y: Text, a: Text, b: Text, c: Text, n: nat)
    requires PlainName(x) && PlainName(y) && Blank(a) && Blank(b) && Blank(c) && n <= 8
    ensures n < LevelOf(op) ==> Level(n, Two(op, x, y, a, b, c)) == Some(Parsed(Var(x), Sign(op) + (c + y)))
    ensures n >= LevelOf(op) ==> Level(n, Two(op, x, y, a, b, c)) == Some(Parsed(Bin(op, Var(x), Var(y)), []))
    decreases n
  {
    hide Factor, Level, Tail, Spaces, Sign, PlainName, LevelOf, OpAt, Delim;
    var s, u := Two(op, x, y, a, b, c), Sign(op) + (c + y);
    OperatorHere(op, c, y);
    if n == 0 {
      EndsAfter(b, u);
      SkipBlank(b, u);
      NameBefore(a, x, b + u);
      LevelZero(s);
      LevelPositive(op);
    } else {
      TwoAtLevel(op, x, y, a, b, c, n - 1);
      LevelIs(n, s);
      if n < LevelOf(op) {
        TailStops(n, Var(x), u);
      } else if n == LevelOf(op) {
        LevelPositive(op);
        LastName(c, y, n - 1);
        TailOne(n, Var(x), op, u, c + y, Var(y));
      } else {
        NoOperator(n);
        TailStops(n, Bin(op, Var(x), Var(y)), []);
      }
    }
  }

  lemma LevelPositive(op: BinOp)
    ensures 1 <= LevelOf(op) <= 9 && (op.Cmp? <==> LevelOf(op) == 9)
  {
  }

  /** What stands between the names, seen from the operator on. */
  lemma OperatorHere(op: BinOp, c: Text, y: Text)
    requires PlainName(y) && Blank(c)
    ensures var u := Sign(op) + (c + y);
      && Spaces(u) == u && u != [] && At(u, 0) != OPEN && Delim(u[0]) && |Sign(op)| <= |u| && u[|Sign(op)|..] == c + y
      && (forall k :: 1 <= k < LevelOf(op) && k <= 8 ==> OpAt(k, u) == None)
      && (if op.Cmp? then CmpAt(u) == Some((op.cmp, |Sign(op)|)) else OpAt(LevelOf(op), u) == Some((op, |Sign(op)|)))
  {
    hide Spaces, Delim, OpAt, CmpAt, LevelOf, Sign;
    var u := Sign(op) + (c + y);
    SignLength(op);
    assert u[|Sign(op)|] == (c + y)[0];
    assert NameByte(y[0]);
    FoundAt(op, u);
  }

  lemma SignLength(op: BinOp)
    ensures 1 <= |Sign(op)| <= 2
  {
  }

  lemma LastName(c: Text, y: Text, n: nat)
    requires PlainName(y) && Blank(c) && n <= 8
    ensures Level(n, c + y) == Some(Parsed(Var(y), []))
  {
    hide Factor, Level, Spaces, PlainName;
    NoOperator(0);
    NameBefore(c, y, []);
    assert c + y + [] == c + y;
    AloneAtLevel(c + y, Var(y), n);
  }

  lemma TailOne(n: nat, l: Ast, op: BinOp, u: Text, rest: Text, r: Ast)
    requires 1 <= n <= 8 && Spaces(u) == u && |Sign(op)| <= |u| && u[|Sign(op)|..] == rest
    requires OpAt(n, u) == Some((op, |Sign(op)|)) && Level(n - 1, rest) == Some(Parsed(r, []))
    ensures Tail(n, l, u) == Some(Parsed(Bin(op, l, r), []))
  {
    hide Level, OpAt, Sign, Spaces;
    NoOperator(n);
    TailStops(n, Bin(op, l, r), []);
  }

  /** Two names with an operator between them, with blanks or without, are that operator on them. */
  lemma TwoNames(op: BinOp, x: Text, y: Text, a: Text, b: Text, c: Text)
    requires PlainName(x) && PlainName(y) && Blank(a) && Blank(b) && Blank(c)
    ensures Parse(Two(op, x, y, a, b, c)) == Some(Bin(op, Var(x), Var(y)))
  {
    hide Level, Spaces, Sign, PlainName, LevelOf, OpAt, CmpAt, Two, Delim;
    var s, u := Two(op, x, y, a, b, c), Sign(op) + (c + y);
    TwoAtLevel(op, x, y, a, b, c, 8);
    LevelPositive(op);
    OperatorHere(op, c, y);
    NoOperator(8);
    if op.Cmp? {
      LastName(c, y, 8);
      LevelSpaces(8, c + y);
    }
  }

  // ----- which operator binds first

  /** The operators from the tightest to the loosest. */
  const LADDER: seq<set<BinOp>> := [
    {Ar(Times), Ar(Over), Rem}, {Ar(Plus), Ar(Minus)}, {Bit(Shl), Bit(Shr)}, {Bit(And64)}, {Bit(Xor64)}, {Bit(Or64)},
    {LAnd}, {LOr}, {Cmp(Eq), Cmp(Neq), Cmp(Lt), Cmp(Lte), Cmp(Gt), Cmp(Gte)}]

  /** Of two operators between three names the tighter one takes its operands first, and of two equally
      tight ones the left one. */
  lemma BindsFirst(x: Text, y: Text, z: Text, op: BinOp, i: nat, oq: BinOp, j: nat)
    requires PlainName(x) && PlainName(y) && PlainName(z) && i < 9 && j < 9 && op in LADDER[i] && oq in LADDER[j] && !(i == 8 && j == 8)
    ensures Parse(x + [0x20] + Sign(op) + [0x20] + (y + [0x20] + Sign(oq) + [0x20] + z)) ==
      Some(if i <= j then Bin(oq, Bin(op, Var(x), Var(y)), Var(z)) else Bin(op, Var(x), Bin(oq, Var(y), Var(z))))
  {
    hide Parse, PlainName, GoodName, Sign, Symbol, LevelOf;
    PlainIsGood(x);
    PlainIsGood(y);
    PlainIsGood(z);
    OnLadder(op, i);
    OnLadder(oq, j);
    SignIs(op);
    SignIs(oq);
    var s := x + [0x20] + Sign(op) + [0x20] + (y + [0x20] + Sign(oq) + [0x20] + z);
    if i <= j {
      ShowLeft(x, y, z, op, oq);
      ParseShow(Bin(oq, Bin(op, Var(x), Var(y)), Var(z)));
      assert s == x + [0x20] + Symbol(op) + [0x20] + y + [0x20] + Symbol(oq) + [0x20] + z;
    } else {
      ShowRight(x, y, z, op, oq);
      ParseShow(Bin(op, Var(x), Bin(oq, Var(y), Var(z))));
    }
  }

  lemma OnLadder(op: BinOp, i: nat)
    requires i < 9 && op in LADDER[i]
    ensures LevelOf(op) == i + 1 && (op.Cmp? <==> i == 8)
  {
  }

  lemma ShowLeft(x: Text, y: Text, z: Text, op: BinOp, oq: BinOp)
    requires GoodName(x) && GoodName(y) && GoodName(z) && 1 <= LevelOf(op) <= LevelOf(oq) <= 9 && !op.Cmp?
    requires oq.Cmp? <==> LevelOf(oq) == 9
    requires LevelOf(op) <= 8
    ensures Good(Bin(op, Var(x), Var(y))) && Good(Var(z)) && Good(Bin(oq, Bin(op, Var(x), Var(y)), Var(z)))
    ensures Show(9, Bin(oq, Bin(op, Var(x), Var(y)), Var(z))) == x + [0x20] + Symbol(op) + [0x20] + y + [0x20] + Symbol(oq) + [0x20] + z
  {
    hide GoodName, Symbol, LevelOf;
    var l := Bin(op, Var(x), Var(y));
    var n := if oq.Cmp? then 8 else LevelOf(oq);
    assert Show(n, l) == x + [0x20] + Symbol(op) + [0x20] + y;
    assert Show(if oq.Cmp? then 8 else LevelOf(oq) - 1, Var(z)) == z;
  }

  lemma ShowRight(x: Text, y: Text, z: Text, op: BinOp, oq: BinOp)
    requires GoodName(x) && GoodName(y) && GoodName(z) && 1 <= LevelOf(oq) < LevelOf(op) <= 9 && !oq.Cmp?
    requires op.Cmp? <==> LevelOf(op) == 9
    ensures Good(Var(x)) && Good(Bin(oq, Var(y), Var(z))) && Good(Bin(op, Var(x), Bin(oq, Var(y), Var(z))))
    ensures Show(9, Bin(op, Var(x), Bin(oq, Var(y), Var(z)))) == x + [0x20] + Symbol(op) + [0x20] + (y + [0x20] + Symbol(oq) + [0x20] + z)
  {
    hide GoodName, Symbol, LevelOf;
    var r := Bin(oq, Var(y), Var(z));
    assert Show(if op.Cmp? then 8 else LevelOf(op) - 1, r) == y + [0x20] + Symbol(oq) + [0x20] + z;
    assert Show(if op.Cmp? then 8 else LevelOf(op), Var(x)) == x;
  }

  // ----- marks

  /** Parentheses, calls, arrays, strings, the minus sign and the decimal point, in ASCII. */
  lemma Marks(a: Ast, b: Ast, f: Text, t: Text, w: nat)
    requires Good(a) && Good(b) && PlainName(f) && (forall k :: 0 <= k < |t| ==> t[k] != 0x22 && t[k] != 0) && w < 0x8000_0000_0000_0000
    ensures a.Bin? ==> Parse([0x2D, 0x28] + Show(9, a) + [0x29]) == Some(Neg(a))
    ensures Parse(f + [0x28] + Show(9, a) + [0x2C, 0x20] + Show(9, b) + [0x29]) == Some(Call(f, [a, b]))
    ensures Parse(f + [0x28, 0x29]) == Some(Call(f, []))
    ensures Parse([0x7B] + Show(9, a) + [0x2C, 0x20] + Show(9, b) + [0x7D]) == Some(Arr([a, b]))
    ensures Parse([0x22] + t + [0x22]) == Some(Str(t))
    ensures Parse(ShowDigits(w) + [0x2E, 0x35]) == Some(Frac(w, [5]))
  {
    hide Parse, Show, ShowList, PlainName, GoodName, ShowDigits;
    PlainIsGood(f);
    if a.Bin? {
      MinusParen(a);
      ParseShow(Neg(a));
    }
    PairShown(a, b, f);
    ParseShow(Call(f, [a, b]));
    ParseShow(Call(f, []));
    EmptyCall(f);
    ParseShow(Arr([a, b]));
    ParseShow(Str(t));
    StringShown(t);
    ParseShow(Frac(w, [5]));
    HalfShown(w);
  }

  lemma MinusParen(a: Ast)
    requires Good(a) && a.Bin?
    ensures Show(9, Neg(a)) == [0x2D, 0x28] + Show(9, a) + [0x29]
  {
    assert LevelOf(a.op) > 0;
    assert Show(0, a) == [0x28] + Show(9, a) + [0x29];
    assert Show(9, Neg(a)) == [0x2D] + Show(0, a);
  }

  lemma PairShown(a: Ast, b: Ast, f: Text)
    requires Good(a) && Good(b) && GoodName(f)
    ensures Show(9, Call(f, [a, b])) == f + [0x28] + Show(9, a) + [0x2C, 0x20] + Show(9, b) + [0x29]
    ensures Show(9, Arr([a, b])) == [0x7B] + Show(9, a) + [0x2C, 0x20] + Show(9, b) + [0x7D]
  {
    hide GoodName;
    assert [a, b][1..] == [b];
    assert ShowList([b]) == Show(9, b);
    assert ShowList([a, b]) == Show(9, a) + [0x2C, 0x20] + Show(9, b);
    assert Show(9, Call(f, [a, b])) == f + [0x28] + ShowList([a, b]) + [0x29];
    assert Show(9, Arr([a, b])) == [0x7B] + ShowList([a, b]) + [0x7D];
  }

  lemma EmptyCall(f: Text)
    requires GoodName(f)
    ensures Show(9, Call(f, [])) == f + [0x28, 0x29]
  {
    hide GoodName;
    assert Show(9, Call(f, [])) == f + [0x28] + ShowList([]) + [0x29];
  }

  lemma StringShown(t: Text)
    requires forall k :: 0 <= k < |t| ==> t[k] != 0x22 && t[k] != 0
    ensures Show(9, Str(t)) == [0x22] + t + [0x22]
  {
  }

  lemma HalfShown(w: nat)
    requires w < 0x8000_0000_0000_0000
    ensures Show(9, Frac(w, [5])) == ShowDigits(w) + [0x2E, 0x35]
  {
    hide ShowDigits;
    assert [5][1..] == [];
    assert ShowFraction([5]) == [0x35] + [];
  }

  /** Either spelling of three comparisons. */
  lemma OtherSpellings(x: Text, y: Text)
    requires PlainName(x) && PlainName(y)
    ensures Parse(x + [0x3D, 0x21] + y) == Some(Bin(Cmp(Neq), Var(x), Var(y)))
    ensures Parse(x + [0x3E, 0x21] + y) == Some(Bin(Cmp(Gt), Var(x), Var(y)))
    ensures Parse(x + [0x3C, 0x21] + y) == Some(Bin(Cmp(Lt), Var(x), Var(y)))
  {
    hide Parse;
    Spelled([0x3D, 0x21], Neq, x, y);
    Spelled([0x3E, 0x21], Gt, x, y);
    Spelled([0x3C, 0x21], Lt, x, y);
  }

  lemma Spelled(m: Text, op: CmpOp, x: Text, y: Text)
    requires PlainName(x) && PlainName(y) && |m| == 2 && m[1] == 0x21
    requires (m[0] == 0x3D && op == Neq) || (m[0] == 0x3E && op == Gt) || (m[0] == 0x3C && op == Lt)
    ensures Parse(x + m + y) == Some(Bin(Cmp(op), Var(x), Var(y)))
  {
    hide Level, PlainName;
    var s, u := x + m + y, m + y;
    assert s == [] + x + u && u[0] == m[0] && u[1] == m[1] && u[2..] == y;
    NameBefore([], x, u);
    MarkStops(u);
    BeforeMark(s, Var(x), u, 8);
    NoOperator(8);
    LastName([], y, 8);
    assert [] + y == y;
    LevelSpaces(8, y);
  }

  lemma MarkStops(u: Text)
    requires |u| >= 2 && u[1] == 0x21 && u[0] in {0x3D, 0x3E, 0x3C}
    ensures Spaces(u) == u && forall k :: 1 <= k <= 8 ==> OpAt(k, u) == None
  {
  }

  lemma {:induction false} BeforeMark(s: Text, a: Ast, u: Text, n: nat)
    requires Factor(s) == Some(Parsed(a, u)) && Spaces(u) == u && n <= 8 && forall k :: 1 <= k <= 8 ==> OpAt(k, u) == None
    ensures Level(n, s) == Some(Parsed(a, u))
    decreases n
  {
    hide Factor, Level, OpAt, Spaces;
    if n == 0 {
      LevelZero(s);
    } else {
      BeforeMark(s, a, u, n - 1);
      LevelIs(n, s);
      TailStops(n, a, u);
    }
  }
}
