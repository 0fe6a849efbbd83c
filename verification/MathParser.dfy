/** The parser in place: one cursor moving over the text, a loop at each level of the ladder. */
module MathParsers {
  import opened Options
  import opened Values
  import opened MathSyntax
  import opened MathTrees

  class MathParser {
    const cpu: Cpu
    const text: Text
    var pos: nat

    ghost predicate Valid()
      reads this
    {
      pos <= |text|
    }

    /** What is left to read. */
    function Rest(): Text
      requires Valid()
      reads this
    {
      text[pos..]
    }

    constructor (cpu: Cpu, text: Text)
      ensures this.cpu == cpu && this.text == text && Valid() && Rest() == text
    {
      this.cpu, this.text, pos := cpu, text, 0;
    }

    /** The character k places ahead; 0 past the end. */
    method Peek(k: nat) returns (c: int)
      requires Valid()
      ensures c == At(Rest(), k)
    {
      c := if pos + k < |text| then text[pos + k] else 0;
    }

    method Advance(k: nat)
      requires Valid() && pos + k <= |text|
      modifies this`pos
      ensures Valid() && Rest() == old(Rest())[k..] && pos == old(pos) + k
    {
      pos := pos + k;
    }

    method SkipSpaces()
      requires Valid()
      modifies this`pos
      ensures Valid() && Rest() == Spaces(old(Rest())) && pos >= old(pos)
    {
      while pos < |text| && IsSpace(text[pos])
        invariant old(pos) <= pos <= |text| && Spaces(Rest()) == Spaces(old(Rest()))
      {
        assert Rest()[1..] == text[pos + 1..];
        pos := pos + 1;
      }
    }

    // ----- literals

    /** The decimal digit at the cursor, of either script, and its length; -1 when there is none. */
    method DigitHere() returns (d: int, step: nat)
      requires Valid()
      ensures d < 0 ==> Digits(Rest()) == Run([], Rest())
      ensures d >= 0 ==> 0 < step && pos + step <= |text| && Digits(Rest()) == After([d], Digits(text[pos + step..]))
    {
      hide Digits;
      DigitsUnfold(text, pos);
      d, step := -1, 1;
      if pos < |text| && IsDigit(text[pos]) {
        d := text[pos] - 0x30;
      } else if pos + 1 < |text| && text[pos] == 0xD9 && 0xA0 <= text[pos + 1] <= 0xA9 {
        d, step := text[pos + 1] - 0xA0, 2;
      }
    }

    /** Decimal digits of either script, as a number so far and a list. */
    method ReadDigits() returns (ds: seq<nat>, value: nat)
      requires Valid()
      modifies this`pos
      ensures Valid() && pos >= old(pos)
      ensures Digits(old(Rest())) == Run(ds, Rest()) && value == Decimal(ds)
    {
      hide Decimal, Digits;
      ds, value := [], 0;
      DecimalNone();
      var going := true;
      while going
        invariant old(pos) <= pos <= |text| && value == Decimal(ds)
        invariant Digits(old(Rest())) == After(ds, Digits(Rest()))
        invariant !going ==> Digits(Rest()) == Run([], Rest())
        decreases |text| - pos, going
      {
        var d, step := DigitHere();
        if d < 0 {
          going := false;
        } else {
          DecimalNext(ds, d);
          AfterTwice(ds, d, Digits(text[pos + step..]));
          ds, value := ds + [d], value * 10 + d;
          pos := pos + step;
        }
      }
      assert ds + [] == ds;
    }

    /** The digits behind a point, added up as the code adds them: each over ten times the divisor of
        the one before. */
    method ReadFraction() returns (count: nat, fraction: nat, ghost ds: seq<nat>)
      requires Valid()
      modifies this`pos
      ensures Valid() && pos >= old(pos)
      ensures Digits(old(Rest())) == Run(ds, Rest()) && count == |ds| && fraction == Fraction(cpu, ds)
    {
      hide Digits, Fraction, Divisor, Spaces;
      ds, count, fraction := [], 0, 0;
      FractionNone(cpu);
      var divisor := F64_TEN;
      var going := true;
      while going
        invariant old(pos) <= pos <= |text| && count == |ds| && fraction == Fraction(cpu, ds) && divisor == Divisor(cpu, |ds|)
        invariant Digits(old(Rest())) == After(ds, Digits(Rest()))
        invariant !going ==> Digits(Rest()) == Run([], Rest())
        decreases |text| - pos, going
      {
        var d, step := DigitHere();
        if d < 0 {
          going := false;
        } else {
          FractionNext(cpu, ds, d);
          AfterTwice(ds, d, Digits(text[pos + step..]));
          fraction := cpu.f64Op(Plus, fraction, cpu.f64Op(Over, cpu.i64ToF64(d), divisor));
          divisor := cpu.f64Op(Times, divisor, F64_TEN);
          ds, count := ds + [d], count + 1;
          pos := pos + step;
        }
      }
      assert ds + [] == ds;
    }

    method ReadHexDigits() returns (count: nat, value: nat)
      requires Valid()
      modifies this`pos
      ensures Valid() && pos >= old(pos)
      ensures var h := HexDigits(old(Rest())); count == |h.ds| && Rest() == h.rest && value == Hexadecimal(h.ds)
    {
      hide Hexadecimal, HexDigits, HexDigit;
      count, value := 0, 0;
      ghost var ds: seq<nat> := [];
      HexNone();
      while pos < |text| && HexDigit(text[pos]) >= 0
        invariant old(pos) <= pos <= |text| && count == |ds| && value == Hexadecimal(ds)
        invariant HexDigits(old(Rest())) == After(ds, HexDigits(Rest()))
      {
        var d := HexDigit(text[pos]);
        HexUnfold(text, pos);
        AfterTwice(ds, d, HexDigits(text[pos + 1..]));
        HexNext(ds, d);
        ds, count, value := ds + [d], count + 1, value * 16 + d;
        pos := pos + 1;
      }
      HexUnfold(text, pos);
      assert ds + [] == ds;
    }

    /** A literal, as the double it stands for. */
    method ParseNumber() returns (r: Option<Node>)
      requires Valid()
      modifies this`pos
      ensures Valid() && Agrees(r, Number(old(Rest())))
    {
      hide Digits, HexDigits, Decimal, Hexadecimal, Wrap64, Fraction;
      var a := Peek(0);
      var b := Peek(1);
      if a == 0x30 && (b == 0x78 || b == 0x58) {
        Advance(2);
        var count, value := ReadHexDigits();
        return if count == 0 then None else Some(NodeNum(cpu.i64ToF64(Wrap64(value))));
      }
      var ds, whole := ReadDigits();
      a := Peek(0);
      if a == DOT {
        Advance(1);
        var count, fraction, _ := ReadFraction();
        return if |ds| + count == 0 then None else Some(NodeNum(cpu.f64Op(Plus, cpu.i64ToF64(Wrap64(whole)), fraction)));
      }
      r := if |ds| == 0 then None else Some(NodeNum(cpu.i64ToF64(Wrap64(whole))));
    }

    /** Where a parse that succeeds ends, and with what tree. */
    ghost predicate Agrees(r: Option<Node>, spec: Option<Parsed>)
      requires Valid()
      reads this
    {
      match spec case None => r == None case Some(p) => r == Some(Build(cpu, p.ast)) && Rest() == p.rest
    }

    ghost predicate AgreesList(r: Option<seq<Node>>, spec: Option<ParsedList>)
      requires Valid()
      reads this
    {
      match spec case None => r == None case Some(p) => r == Some(BuildAll(cpu, p.asts)) && Rest() == p.rest
    }

    /** The characters up to the next delimiter. */
    method ReadName() returns (name: Text)
      requires Valid()
      modifies this`pos
      ensures Valid()
      ensures var n := NameLen(old(Rest())); name == old(Rest())[..n] && Rest() == old(Rest())[n..] && pos == old(pos) + n
    {
      name := [];
      while pos < |text| && !Delim(text[pos])
        invariant old(pos) <= pos <= |text| && name == text[old(pos)..pos]
        invariant NameLen(old(Rest())) == pos - old(pos) + NameLen(Rest())
      {
        assert Rest()[1..] == text[pos + 1..];
        assert text[old(pos)..pos + 1] == text[old(pos)..pos] + [text[pos]];
        name := name + [text[pos]];
        pos := pos + 1;
      }
    }

    /** A string after its opening quote. */
    method ReadString() returns (r: Option<Text>)
      requires Valid()
      modifies this`pos
      ensures Valid() && pos >= old(pos)
      ensures var s, n := old(Rest()), StringLen(old(Rest()));
              if n < |s| then r == Some(s[..n]) && Rest() == s[n + 1..] else r == None
    {
      var content: Text := [];
      while pos < |text| && text[pos] != QUOTE
        invariant old(pos) <= pos <= |text| && content == text[old(pos)..pos]
        invariant StringLen(old(Rest())) == pos - old(pos) + StringLen(Rest())
      {
        assert Rest()[1..] == text[pos + 1..];
        assert text[old(pos)..pos + 1] == text[old(pos)..pos] + [text[pos]];
        content := content + [text[pos]];
        pos := pos + 1;
      }
      if pos == |text| {
        return None;
      }
      assert Rest()[0] == QUOTE && StringLen(Rest()) == 0;
      assert old(Rest())[..pos - old(pos)] == content;
      pos := pos + 1;
      r := Some(content);
    }

    // ----- the ladder

    method ParseFactor() returns (r: Option<Node>)
      requires Valid()
      modifies this`pos
      ensures Valid() && Agrees(r, Factor(old(Rest())))
      decreases |Rest()|, 0
    {
      hide Comparison, List, Number, NameLen, StringLen, Spaces, Factor, Build, BuildAll;
      ghost var s := Rest();
      SkipSpaces();
      ghost var t := Rest();
      if pos == |text| {
        FactorNothing(s);
        return None;
      }
      var c := Peek(0);
      if c == OPEN {
        FactorOpen(s);
        Advance(1);
        var inner := ParseComparison();
        if inner.None? {
          return None;
        }
        SkipSpaces();
        c := Peek(0);
        if c != CLOSE {
          return None;
        }
        Advance(1);
        return inner;
      }
      if c == BRACE {
        FactorBrace(s);
        Advance(1);
        var es := ParseList(UNBRACE);
        if es.None? {
          return None;
        }
        BuildArray(cpu, List(UNBRACE, t[1..]).value.asts);
        return Some(NodeArray(es.value));
      }
      if c == MINUS {
        FactorMinus(s);
        Advance(1);
        var o := ParseFactor();
        if o.None? {
          return None;
        }
        BuildNeg(cpu, Factor(t[1..]).value.ast);
        return Some(NodeNeg(o.value));
      }
      if c == QUOTE {
        FactorQuote(s);
        Advance(1);
        var q := ReadString();
        StringParts(t);
        if q.None? {
          return None;
        }
        BuildText(cpu, q.value);
        return Some(NodeText(q.value));
      }
      var d := Peek(1);
      if IsDigit(c) || c == DOT || (c == 0xD9 && 0xA0 <= d <= 0xA9) {
        FactorNumber(s);
        r := ParseNumber();
        return;
      }
      FactorNamed(s);
      var name := ReadName();
      if |name| == 0 {
        return None;
      }
      SkipSpaces();
      c := Peek(0);
      if c == OPEN {
        Advance(1);
        ghost var u := Rest();
        var args := ParseList(CLOSE);
        if args.None? {
          return None;
        }
        BuildCall(cpu, name, List(CLOSE, u).value.asts);
        return Some(NodeCall(name, args.value));
      }
      BuildVar(cpu, name);
      r := Some(NodeVar(name));
    }

    /** Levels 1 to 8: an operand of the level below, then as many operators of this level as follow. */
    method ParseLevel(n: nat) returns (r: Option<Node>)
      requires Valid() && n <= 8
      modifies this`pos
      ensures Valid() && Agrees(r, Level(n, old(Rest())))
      decreases |Rest()|, 2 * n + 1
    {
      hide Factor, OpAt, Spaces, Tail, Level, Build;
      ghost var s := Rest();
      LevelUnfold(n, s);
      if n == 0 {
        r := ParseFactor();
        return;
      }
      r := ParseLevel(n - 1);
      if r.None? {
        return;
      }
      var left := r.value;
      ghost var tree := Level(n - 1, s).value.ast;
      while true
        invariant Valid() && |Rest()| < |s| && r == Some(left) && left == Build(cpu, tree)
        invariant Level(n, s) == Tail(n, tree, Rest())
        decreases |Rest()|
      {
        TailUnfold(n, tree, Rest());
        SkipSpaces();
        var o := OpAt(n, Rest());
        if o.None? {
          return;
        }
        Advance(o.value.1);
        ghost var from := Rest();
        var right := ParseLevel(n - 1);
        if right.None? {
          return None;
        }
        BuildBin(cpu, o.value.0, tree, Level(n - 1, from).value.ast);
        tree := Bin(o.value.0, tree, Level(n - 1, from).value.ast);
        left := NodeBin(o.value.0, left, right.value);
        r := Some(left);
      }
    }

    method ParseComparison() returns (r: Option<Node>)
      requires Valid()
      modifies this`pos
      ensures Valid() && Agrees(r, Comparison(old(Rest())))
      decreases |Rest()|, 20
    {
      hide Level, CmpAt, Spaces, Build;
      ghost var s := Rest();
      r := ParseLevel(8);
      if r.None? {
        return;
      }
      SkipSpaces();
      var c := CmpAt(Rest());
      if c.None? {
        return;
      }
      Advance(c.value.1);
      SkipSpaces();
      ghost var from := Rest();
      var right := ParseLevel(8);
      if right.None? {
        return None;
      }
      BuildBin(cpu, Cmp(c.value.0), Level(8, s).value.ast, Level(8, from).value.ast);
      r := Some(NodeBin(Cmp(c.value.0), r.value, right.value));
    }

    /** Arguments or elements up to the closing mark. */
    method ParseList(close: int) returns (r: Option<seq<Node>>)
      requires Valid() && (close == CLOSE || close == UNBRACE)
      modifies this`pos
      ensures Valid() && AgreesList(r, List(close, old(Rest())))
      decreases |Rest()|, 30
    {
      hide Comparison, Spaces, Items, Build;
      SkipSpaces();
      var c := Peek(0);
      if c == close {
        Advance(1);
        return Some([]);
      }
      ghost var s := Rest();
      var xs: seq<Node> := [];
      ghost var trees: seq<Ast> := [];
      JoinNothing(Items(close, s));
      while true
        invariant Valid() && |Rest()| <= |s| <= |old(Rest())| && xs == BuildAll(cpu, trees)
        invariant Items(close, s) == Join(trees, Items(close, Rest()))
        decreases |Rest()|
      {
        ItemsUnfold(close, Rest());
        ghost var from := Rest();
        var x := ParseComparison();
        if x.None? {
          return None;
        }
        ghost var tree := Comparison(from).value.ast;
        BuildOneMore(cpu, trees, tree);
        SkipSpaces();
        c := Peek(0);
        if c == close {
          Advance(1);
          return Some(xs + [x.value]);
        }
        if c != COMMA {
          return None;
        }
        Advance(1);
        SkipSpaces();
        JoinTwice(trees, tree, Items(close, Rest()));
        xs, trees := xs + [x.value], trees + [tree];
      }
    }
  }

  lemma ParseIs(s: Text)
    ensures Parse(s) == match Comparison(s) case None => None case Some(p) => if Spaces(p.rest) == [] then Some(p.ast) else None
  {
    hide Comparison, Spaces;
  }

  /** math_parse_ast. */
  method ParseText(cpu: Cpu, text: Text) returns (r: Option<Node>)
    ensures r == ParseTree(cpu, text)
  {
    hide Comparison, Spaces, Parse, Build;
    ParseIs(text);
    var p := new MathParser(cpu, text);
    r := p.ParseComparison();
    if r.Some? {
      p.SkipSpaces();
      if p.pos < |text| {
        r := None;
      }
    }
  }

  // ----- the tree built for each form

  lemma BuildVar(cpu: Cpu, x: Text)
    ensures Build(cpu, Var(x)) == NodeVar(x)
  {
  }

  lemma BuildText(cpu: Cpu, t: Text)
    ensures Build(cpu, Str(t)) == NodeText(t)
  {
  }

  lemma BuildCall(cpu: Cpu, f: Text, xs: seq<Ast>)
    ensures Build(cpu, Call(f, xs)) == NodeCall(f, BuildAll(cpu, xs))
  {
  }

  lemma BuildArray(cpu: Cpu, xs: seq<Ast>)
    ensures Build(cpu, Arr(xs)) == NodeArray(BuildAll(cpu, xs))
  {
  }

  lemma BuildNeg(cpu: Cpu, o: Ast)
    ensures Build(cpu, Neg(o)) == NodeNeg(Build(cpu, o))
  {
  }

  lemma BuildBin(cpu: Cpu, op: BinOp, l: Ast, r: Ast)
    ensures Build(cpu, Bin(op, l, r)) == NodeBin(op, Build(cpu, l), Build(cpu, r))
  {
  }

  lemma FractionNone(cpu: Cpu)
    ensures Fraction(cpu, []) == 0 && Divisor(cpu, 0) == F64_TEN
  {
  }

  lemma FractionNext(cpu: Cpu, ds: seq<nat>, d: nat)
    ensures Fraction(cpu, ds + [d]) == cpu.f64Op(Plus, Fraction(cpu, ds), cpu.f64Op(Over, cpu.i64ToF64(d), Divisor(cpu, |ds|)))
    ensures Divisor(cpu, |ds| + 1) == cpu.f64Op(Times, Divisor(cpu, |ds|), F64_TEN)
  {
    assert (ds + [d])[..|ds|] == ds;
  }

  function After(ds: seq<nat>, r: Run): Run { Run(ds + r.ds, r.rest) }

  lemma AfterTwice(ds: seq<nat>, d: nat, r: Run)
    ensures After(ds, After([d], r)) == After(ds + [d], r)
  {
    assert ds + ([d] + r.ds) == ds + [d] + r.ds;
  }

  lemma DigitsUnfold(text: Text, pos: nat)
    requires pos <= |text|
    ensures Digits(text[pos..]) ==
            if pos < |text| && IsDigit(text[pos]) then After([text[pos] - 0x30], Digits(text[pos + 1..]))
            else if pos + 1 < |text| && text[pos] == 0xD9 && 0xA0 <= text[pos + 1] <= 0xA9 then After([text[pos + 1] - 0xA0], Digits(text[pos + 2..]))
            else Run([], text[pos..])
  {
    var s := text[pos..];
    assert s != [] ==> s[1..] == text[pos + 1..];
    assert |s| >= 2 ==> s[2..] == text[pos + 2..];
  }

  lemma DecimalNone()
    ensures Decimal([]) == 0
  {
  }

  lemma DecimalNext(ds: seq<nat>, d: nat)
    ensures Decimal(ds + [d]) == Decimal(ds) * 10 + d
  {
    assert (ds + [d])[..|ds|] == ds;
  }

  lemma HexUnfold(text: Text, pos: nat)
    requires pos <= |text|
    ensures HexDigits(text[pos..]) ==
            if pos < |text| && HexDigit(text[pos]) >= 0 then After([HexDigit(text[pos])], HexDigits(text[pos + 1..]))
            else Run([], text[pos..])
  {
    var s := text[pos..];
    assert s != [] ==> s[1..] == text[pos + 1..];
  }

  lemma HexNone()
    ensures Hexadecimal([]) == 0
  {
  }

  lemma HexNext(ds: seq<nat>, d: nat)
    ensures Hexadecimal(ds + [d]) == Hexadecimal(ds) * 16 + d
  {
    assert (ds + [d])[..|ds|] == ds;
  }

  lemma StringParts(t: Text)
    requires t != []
    ensures var n := StringLen(t[1..]);
            n + 1 < |t| ==> t[1..][..n] == t[1..n + 1] && t[1..][n + 1..] == t[n + 2..]
  {
  }

  lemma LevelUnfold(n: nat, s: Text)
    requires n <= 8
    ensures Level(n, s) ==
            if n == 0 then Factor(s)
            else match Level(n - 1, s) case None => None case Some(p) => Tail(n, p.ast, p.rest)
  {
    hide Factor, Tail;
  }

  lemma TailUnfold(n: nat, left: Ast, s: Text)
    requires 0 < n <= 8
    ensures Tail(n, left, s) ==
            match OpAt(n, Spaces(s))
            case None => Some(Parsed(left, Spaces(s)))
            case Some(o) =>
              match Level(n - 1, Spaces(s)[o.1..])
              case None => None
              case Some(p) => Tail(n, Bin(o.0, left, p.ast), p.rest)
  {
    hide Level, OpAt, Spaces;
  }

  function Join(xs: seq<Ast>, r: Option<ParsedList>): Option<ParsedList> {
    match r case None => None case Some(l) => Some(ParsedList(xs + l.asts, l.rest))
  }

  lemma JoinNothing(r: Option<ParsedList>)
    ensures Join([], r) == r
  {
    assert r.Some? ==> [] + r.value.asts == r.value.asts;
  }

  lemma JoinTwice(xs: seq<Ast>, x: Ast, r: Option<ParsedList>)
    ensures Join(xs, Join([x], r)) == Join(xs + [x], r)
  {
    assert r.Some? ==> xs + ([x] + r.value.asts) == xs + [x] + r.value.asts;
  }

  lemma ItemsUnfold(close: int, s: Text)
    ensures Items(close, s) ==
            match Comparison(s)
            case None => None
            case Some(p) =>
              var u := Spaces(p.rest);
              if At(u, 0) == close && u != [] then Some(ParsedList([p.ast], u[1..]))
              else if At(u, 0) != COMMA then None
              else Join([p.ast], Items(close, Spaces(u[1..])))
  {
    hide Comparison, Spaces;
  }
}
