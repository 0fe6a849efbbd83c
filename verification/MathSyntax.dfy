/** Expression syntax: the precedence ladder as a parser on text, and a printer that uses as few
    parentheses as the ladder allows. Parsing what was printed gives the tree back. */
module MathSyntax {
  import opened Options
  import opened Values

  type Byte = b: int | 0 <= b < 256
  type Text = seq<Byte>

  /** Trees; a number keeps what its literal says: a whole part and, after a point, decimal digits. */
  datatype Ast =
    | Num(v: int)
    | Frac(whole: int, digits: seq<nat>)
    | Str(text: Text)
    | Var(name: Text)
    | Call(fn: Text, args: seq<Ast>)
    | Arr(elems: seq<Ast>)
    | Neg(operand: Ast)
    | Bin(op: BinOp, left: Ast, right: Ast)

  datatype Parsed = Parsed(ast: Ast, rest: Text)

  datatype ParsedList = ParsedList(asts: seq<Ast>, rest: Text)

  // ----- characters

  const SPACE: int := 0x20
  const TAB: int := 0x09
  const OPEN: int := 0x28
  const CLOSE: int := 0x29
  const COMMA: int := 0x2C
  const MINUS: int := 0x2D
  const DOT: int := 0x2E
  const QUOTE: int := 0x22
  const BRACE: int := 0x7B
  const UNBRACE: int := 0x7D

  /** The character at k; 0 past the end. */
  function At(s: Text, k: nat): int { if k < |s| then s[k] else 0 }

  predicate IsSpace(c: int) { c == SPACE || c == TAB }

  function Spaces(s: Text): (r: Text)
    ensures |r| <= |s| && (r == [] || !IsSpace(r[0]))
  {
    if s != [] && IsSpace(s[0]) then Spaces(s[1..]) else s
  }

  /** + - * / % ( ) , > < = ! & | ^ { } and blanks end a name. */
  predicate Delim(c: int) {
    c in {0x20, 0x09, 0x2B, 0x2D, 0x2A, 0x2F, 0x25, 0x28, 0x29, 0x2C, 0x3E, 0x3C, 0x3D, 0x21, 0x26, 0x7C, 0x5E, 0x7B, 0x7D}
  }

  predicate IsDigit(c: int) { 0x30 <= c <= 0x39 }

  /** An Arabic-Indic digit: U+0660 to U+0669 in UTF-8. */
  predicate IsArabicDigit(s: Text) { |s| >= 2 && s[0] == 0xD9 && 0xA0 <= s[1] <= 0xA9 }

  predicate NumberStarts(s: Text) { IsDigit(At(s, 0)) || At(s, 0) == DOT || IsArabicDigit(s) }

  // ----- numbers

  datatype Run = Run(ds: seq<nat>, rest: Text)

  /** The decimal digits, of either script, at the front. */
  function Digits(s: Text): (r: Run)
    ensures |r.rest| <= |s| && (r.ds != [] ==> |r.rest| < |s|)
  {
    if s != [] && IsDigit(s[0]) then var r := Digits(s[1..]); Run([s[0] - 0x30] + r.ds, r.rest)
    else if IsArabicDigit(s) then var r := Digits(s[2..]); Run([s[1] - 0xA0] + r.ds, r.rest)
    else Run([], s)
  }

  function Decimal(ds: seq<nat>): nat {
    if ds == [] then 0 else Decimal(ds[..|ds| - 1]) * 10 + ds[|ds| - 1]
  }

  function HexDigit(c: int): int {
    if IsDigit(c) then c - 0x30 else if 0x41 <= c <= 0x46 then c - 0x41 + 10 else if 0x61 <= c <= 0x66 then c - 0x61 + 10 else -1
  }

  function HexDigits(s: Text): (r: Run)
    ensures |r.rest| <= |s| && (r.ds != [] ==> |r.rest| < |s|)
  {
    if s != [] && HexDigit(s[0]) >= 0 then var r := HexDigits(s[1..]); Run([HexDigit(s[0])] + r.ds, r.rest) else Run([], s)
  }

  function Hexadecimal(ds: seq<nat>): nat {
    if ds == [] then 0 else Hexadecimal(ds[..|ds| - 1]) * 16 + ds[|ds| - 1]
  }

  /** parse_number_value; arithmetic wraps at 64 bits. */
  function Number(s: Text): (r: Option<Parsed>)
    ensures r.Some? ==> |r.value.rest| < |s|
  {
    if At(s, 0) == 0x30 && (At(s, 1) == 0x78 || At(s, 1) == 0x58) then
      var h := HexDigits(s[2..]);
      if h.ds == [] then None else Some(Parsed(Num(Wrap64(Hexadecimal(h.ds))), h.rest))
    else
      var w := Digits(s);
      if At(w.rest, 0) == DOT then
        var f := Digits(w.rest[1..]);
        if w.ds == [] && f.ds == [] then None else Some(Parsed(Frac(Wrap64(Decimal(w.ds)), f.ds), f.rest))
      else if w.ds == [] then None
      else Some(Parsed(Num(Wrap64(Decimal(w.ds))), w.rest))
  }

  // ----- names and strings

  function NameLen(s: Text): (n: nat)
    ensures n <= |s|
  {
    if s == [] || Delim(s[0]) then 0 else NameLen(s[1..]) + 1
  }

  function StringLen(s: Text): (n: nat)
    ensures n <= |s|
  {
    if s == [] || s[0] == QUOTE then 0 else StringLen(s[1..]) + 1
  }

  // ----- the ladder

  /** The operator of level n at the front of a text, and its length: 1 * / %; 2 + -; 3 shifts; 4 &;
      5 ^; 6 |; 7 &&; 8 ||. */
  function OpAt(n: nat, s: Text): (r: Option<(BinOp, nat)>)
    ensures r.Some? ==> 0 < r.value.1 <= |s|
  {
    var a, b := At(s, 0), At(s, 1);
    if n == 1 then
      if a == 0x2A then Some((Ar(Times), 1)) else if a == 0x2F then Some((Ar(Over), 1)) else if a == 0x25 then Some((Rem, 1)) else None
    else if n == 2 then
      if a == 0x2B then Some((Ar(Plus), 1)) else if a == 0x2D then Some((Ar(Minus), 1)) else None
    else if n == 3 then
      if a == 0x3C && b == 0x3C then Some((Bit(Shl), 2)) else if a == 0x3E && b == 0x3E then Some((Bit(Shr), 2)) else None
    else if n == 4 then if a == 0x26 && b != 0x26 then Some((Bit(And64), 1)) else None
    else if n == 5 then if a == 0x5E then Some((Bit(Xor64), 1)) else None
    else if n == 6 then if a == 0x7C && b != 0x7C then Some((Bit(Or64), 1)) else None
    else if n == 7 then if a == 0x26 && b == 0x26 then Some((LAnd, 2)) else None
    else if n == 8 then if a == 0x7C && b == 0x7C then Some((LOr, 2)) else None
    else None
  }

  function CmpAt(s: Text): (r: Option<(CmpOp, nat)>)
    ensures r.Some? ==> 0 < r.value.1 <= |s|
  {
    var a, b := At(s, 0), At(s, 1);
    if a == 0x3D && b == 0x3D then Some((Eq, 2))
    else if a == 0x21 && b == 0x3D then Some((Neq, 2))
    else if a == 0x3D && b == 0x21 then Some((Neq, 2))
    else if a == 0x3E && b == 0x3D then Some((Gte, 2))
    else if a == 0x3C && b == 0x3D then Some((Lte, 2))
    else if a == 0x3E && b == 0x21 then Some((Gt, 2))
    else if a == 0x3C && b == 0x21 then Some((Lt, 2))
    else if a == 0x3E then Some((Gt, 1))
    else if a == 0x3C then Some((Lt, 1))
    else None
  }

  /** Levels 1 to 8: operands of the level below, joined from the left. */
  function Level(n: nat, s: Text): (r: Option<Parsed>)
    requires n <= 8
    ensures r.Some? ==> |r.value.rest| < |s|
    decreases |s|, 2 * n + 1
  {
    if n == 0 then Factor(s) else
    match Level(n - 1, s)
    case None => None
    case Some(p) => Tail(n, p.ast, p.rest)
  }

  function Tail(n: nat, left: Ast, s: Text): (r: Option<Parsed>)
    requires 0 < n <= 8
    ensures r.Some? ==> |r.value.rest| <= |s|
    decreases |s|, 2 * n
  {
    var t := Spaces(s);
    match OpAt(n, t)
    case None => Some(Parsed(left, t))
    case Some(o) =>
      match Level(n - 1, t[o.1..])
      case None => None
      case Some(p) => Tail(n, Bin(o.0, left, p.ast), p.rest)
  }

  /** parse_comparison: at most one comparison, loosest of all. */
  function Comparison(s: Text): (r: Option<Parsed>)
    ensures r.Some? ==> |r.value.rest| < |s|
    decreases |s|, 20
  {
    match Level(8, s)
    case None => None
    case Some(p) =>
      var t := Spaces(p.rest);
      match CmpAt(t)
      case None => Some(Parsed(p.ast, t))
      case Some(c) =>
        match Level(8, Spaces(t[c.1..]))
        case None => None
        case Some(q) => Some(Parsed(Bin(Cmp(c.0), p.ast, q.ast), q.rest))
  }

  function Factor(s: Text): (r: Option<Parsed>)
    ensures r.Some? ==> |r.value.rest| < |s|
    decreases |s|, 0
  {
    var t := Spaces(s);
    if t == [] then None
    else if t[0] == OPEN then
      match Comparison(t[1..])
      case None => None
      case Some(p) => var u := Spaces(p.rest); if At(u, 0) == CLOSE then Some(Parsed(p.ast, u[1..])) else None
    else if t[0] == BRACE then
      match List(UNBRACE, t[1..])
      case None => None
      case Some(l) => Some(Parsed(Arr(l.asts), l.rest))
    else if t[0] == MINUS then
      match Factor(t[1..])
      case None => None
      case Some(p) => Some(Parsed(Neg(p.ast), p.rest))
    else if t[0] == QUOTE then
      var n := StringLen(t[1..]);
      if n + 1 < |t| then Some(Parsed(Str(t[1..n + 1]), t[n + 2..])) else None
    else if NumberStarts(t) then Number(t)
    else
      var n := NameLen(t);
      if n == 0 then None else
      var u := Spaces(t[n..]);
      if At(u, 0) == OPEN then
        match List(CLOSE, u[1..])
        case None => None
        case Some(l) => Some(Parsed(Call(t[..n], l.asts), l.rest))
      else Some(Parsed(Var(t[..n]), u))
  }

  lemma FactorBrace(s: Text)
    requires Spaces(s) != [] && Spaces(s)[0] == BRACE
    ensures Factor(s) == match List(UNBRACE, Spaces(s)[1..]) case None => None case Some(l) => Some(Parsed(Arr(l.asts), l.rest))
  {
    hide Comparison, List, Number, NameLen, StringLen, NumberStarts, Spaces;
  }

  lemma FactorMinus(s: Text)
    requires Spaces(s) != [] && Spaces(s)[0] == MINUS
    ensures Factor(s) == match Factor(Spaces(s)[1..]) case None => None case Some(p) => Some(Parsed(Neg(p.ast), p.rest))
  {
    hide Comparison, List, Number, NameLen, StringLen, NumberStarts, Spaces;
  }

  lemma FactorQuote(s: Text)
    requires Spaces(s) != [] && Spaces(s)[0] == QUOTE
    ensures var t, n := Spaces(s), StringLen(Spaces(s)[1..]);
      Factor(s) == if n + 1 < |t| then Some(Parsed(Str(t[1..n + 1]), t[n + 2..])) else None
  {
    hide Comparison, List, Number, NameLen, StringLen, NumberStarts, Spaces;
  }

  /** First byte of none of the marked forms. */
  predicate Unmarked(t: Text) { t != [] && t[0] != OPEN && t[0] != BRACE && t[0] != MINUS && t[0] != QUOTE }

  /** A name of n bytes: a call when a list follows, else a variable. */
  function Named(t: Text, n: nat): Option<Parsed>
    requires n <= |t|
  {
    if n == 0 then None else
    var u := Spaces(t[n..]);
    if At(u, 0) == OPEN then
      match List(CLOSE, u[1..])
      case None => None
      case Some(l) => Some(Parsed(Call(t[..n], l.asts), l.rest))
    else Some(Parsed(Var(t[..n]), u))
  }

  lemma FactorNamed(s: Text)
    requires Unmarked(Spaces(s)) && !NumberStarts(Spaces(s))
    ensures Factor(s) == Named(Spaces(s), NameLen(Spaces(s)))
  {
    hide Comparison, List, Number, NameLen, StringLen, NumberStarts, Spaces;
  }

  lemma FactorNumber(s: Text)
    requires Unmarked(Spaces(s)) && NumberStarts(Spaces(s))
    ensures Factor(s) == Number(Spaces(s))
  {
    hide Comparison, List, Number, NameLen, StringLen, NumberStarts, Spaces;
  }

  lemma FactorOpen(s: Text)
    requires Spaces(s) != [] && Spaces(s)[0] == OPEN
    ensures Factor(s) ==
      match Comparison(Spaces(s)[1..])
      case None => None
      case Some(p) => var u := Spaces(p.rest); if At(u, 0) == CLOSE then Some(Parsed(p.ast, u[1..])) else None
  {
    hide Comparison, List, Number, NameLen, StringLen, NumberStarts, Spaces;
  }

  lemma FactorNothing(s: Text)
    requires Spaces(s) == []
    ensures Factor(s) == None
  {
    hide Spaces;
  }

  /** Items up to a closing mark, separated by commas; possibly none. */
  function List(close: int, s: Text): (r: Option<ParsedList>)
    ensures r.Some? ==> |r.value.rest| <= |s|
    decreases |s|, 30
  {
    var t := Spaces(s);
    if At(t, 0) == close && t != [] then Some(ParsedList([], t[1..])) else Items(close, t)
  }

  function Items(close: int, s: Text): (r: Option<ParsedList>)
    ensures r.Some? ==> |r.value.rest| <= |s|
    decreases |s|, 25
  {
    match Comparison(s)
    case None => None
    case Some(p) =>
      var u := Spaces(p.rest);
      if At(u, 0) == close && u != [] then Some(ParsedList([p.ast], u[1..]))
      else if At(u, 0) != COMMA then None
      else
        match Items(close, Spaces(u[1..]))
        case None => None
        case Some(l) => Some(ParsedList([p.ast] + l.asts, l.rest))
  }

  /** math_parse_ast: the whole text must be one expression. */
  function Parse(s: Text): Option<Ast> {
    match Comparison(s)
    case None => None
    case Some(p) => if Spaces(p.rest) == [] then Some(p.ast) else None
  }

  // ----- the printer

  function LevelOf(op: BinOp): nat {
    match op
    case Ar(Times) => 1 case Ar(Over) => 1 case Rem => 1
    case Ar(Plus) => 2 case Ar(Minus) => 2
    case Bit(Shl) => 3 case Bit(Shr) => 3
    case Bit(And64) => 4 case Bit(Xor64) => 5 case Bit(Or64) => 6
    case LAnd => 7 case LOr => 8 case Cmp(_) => 9
  }

  function Symbol(op: BinOp): Text {
    match op
    case Ar(Times) => [0x2A] case Ar(Over) => [0x2F] case Rem => [0x25]
    case Ar(Plus) => [0x2B] case Ar(Minus) => [0x2D]
    case Bit(Shl) => [0x3C, 0x3C] case Bit(Shr) => [0x3E, 0x3E]
    case Bit(And64) => [0x26] case Bit(Xor64) => [0x5E] case Bit(Or64) => [0x7C]
    case LAnd => [0x26, 0x26] case LOr => [0x7C, 0x7C]
    case Cmp(Eq) => [0x3D, 0x3D] case Cmp(Neq) => [0x21, 0x3D] case Cmp(Lt) => [0x3C]
    case Cmp(Lte) => [0x3C, 0x3D] case Cmp(Gt) => [0x3E] case Cmp(Gte) => [0x3E, 0x3D]
  }

  /** The loosest level a tree needs; parentheses let it stand at any. */
  function Needs(a: Ast): nat { if a.Bin? then LevelOf(a.op) else 0 }

  function ShowDigits(n: nat): Text
    decreases n
  {
    if n < 10 then [0x30 + n] else ShowDigits(n / 10) + [0x30 + n % 10]
  }

  function ShowFraction(ds: seq<nat>): Text
    requires forall k :: 0 <= k < |ds| ==> ds[k] < 10
  {
    if ds == [] then [] else [0x30 + ds[0]] + ShowFraction(ds[1..])
  }

  predicate GoodName(n: Text) { n != [] && !NumberStarts(n) && n[0] != QUOTE && forall k :: 0 <= k < |n| ==> !Delim(n[k]) && n[k] != 0 }

  /** Trees that a text can denote: literals as written, names that are names, strings without quotes,
      and no NUL, at which the text would end. */
  predicate Good(a: Ast) {
    match a
    case Num(v) => 0 <= v < I64_LIMIT
    case Frac(w, ds) => 0 <= w < I64_LIMIT && forall k :: 0 <= k < |ds| ==> ds[k] < 10
    case Str(t) => forall k :: 0 <= k < |t| ==> t[k] != QUOTE && t[k] != 0
    case Var(n) => GoodName(n)
    case Call(f, args) => GoodName(f) && forall k :: 0 <= k < |args| ==> Good(args[k])
    case Arr(es) => forall k :: 0 <= k < |es| ==> Good(es[k])
    case Neg(o) => Good(o)
    case Bin(_, l, r) => Good(l) && Good(r)
  }

  /** A tree as the text of an operand at level n. */
  function Show(n: nat, a: Ast): Text
    requires Good(a)
    decreases a, if n < Needs(a) then 1 else 0
  {
    if n < Needs(a) then [OPEN] + Show(9, a) + [CLOSE] else
    match a
    case Num(v) => ShowDigits(v)
    case Frac(w, ds) => ShowDigits(w) + [DOT] + ShowFraction(ds)
    case Str(t) => [QUOTE] + t + [QUOTE]
    case Var(x) => x
    case Call(f, args) => f + [OPEN] + ShowList(args) + [CLOSE]
    case Arr(es) => [BRACE] + ShowList(es) + [UNBRACE]
    case Neg(o) => [MINUS] + Show(0, o)
    case Bin(op, l, r) =>
      Show(if op.Cmp? then 8 else LevelOf(op), l) + [SPACE] + Symbol(op) + [SPACE] + Show(if op.Cmp? then 8 else LevelOf(op) - 1, r)
  }

  function ShowList(xs: seq<Ast>): Text
    requires forall k :: 0 <= k < |xs| ==> Good(xs[k])
    decreases xs
  {
    if xs == [] then []
    else if |xs| == 1 then Show(9, xs[0])
    else Show(9, xs[0]) + [COMMA, SPACE] + ShowList(xs[1..])
  }
}
