/** Lines and blocks: how the compiler finds the end of a condition or loop, and why the blocks it
    reads from a list of lines are the only ones those lines can mean. */
module Blocks {
  import opened Options
  import opened Language

  predicate Simple(s: Stmt) { !s.If? && !s.IfElse? && !s.Loop? }

  type SimpleStmt = s: Stmt | Simple(s) witness Skip

  /** A source line as the block compiler tells them apart; an empty line is One(Skip). */
  datatype Line = IfLine(c: Expr) | ElseLine | EndIfLine | LoopLine | EndLoopLine | One(st: SimpleStmt)

  /** Which pair of line tests the search was given. */
  datatype Kind = OfIf | OfLoop

  predicate IsStart(k: Kind, l: Line) { if k.OfIf? then l.IfLine? else l.LoopLine? }

  predicate IsEnd(k: Kind, l: Line) { if k.OfIf? then l.EndIfLine? else l.EndLoopLine? }

  predicate IsElse(k: Kind, l: Line) { k.OfIf? && l.ElseLine? }

  /** Position of the matching end and of the first else at depth one. */
  datatype Match = Match(end: nat, els: Option<nat>)

  function Later(m: Option<Match>): Option<Match> {
    match m
    case None => None
    case Some(Match(e, None)) => Some(Match(e + 1, None))
    case Some(Match(e, Some(l))) => Some(Match(e + 1, Some(l + 1)))
  }

  /** The search over the lines that follow the opening line, at the given depth. */
  function Scan(lines: seq<Line>, k: Kind, depth: nat): Option<Match>
    requires depth > 0
  {
    if lines == [] then None
    else if IsStart(k, lines[0]) then Later(Scan(lines[1..], k, depth + 1))
    else if IsEnd(k, lines[0]) then
      if depth == 1 then Some(Match(0, None)) else Later(Scan(lines[1..], k, depth - 1))
    else if IsElse(k, lines[0]) && depth == 1 then
      match Scan(lines[1..], k, depth)
      case None => None
      case Some(m) => Some(Match(m.end + 1, Some(0)))
    else Later(Scan(lines[1..], k, depth))
  }

  /** A search result moved n lines down, with an else already seen taking precedence. */
  function Moved(m: Option<Match>, n: nat, seen: Option<nat>): Option<Match> {
    match m
    case None => None
    case Some(m) =>
      Some(Match(m.end + n,
                 if seen.Some? then seen else match m.els case None => None case Some(l) => Some(l + n)))
  }

  /** One turn of the search loop, with j lines behind it and els the else seen so far. */
  lemma SearchStep(l: Line, rest: seq<Line>, k: Kind, depth: nat, j: nat, els: Option<nat>)
    requires depth > 0
    ensures Moved(Scan([l] + rest, k, depth), j, els) ==
            if IsStart(k, l) then Moved(Scan(rest, k, depth + 1), j + 1, els)
            else if IsEnd(k, l) then
              (if depth == 1 then Some(Match(j, els)) else Moved(Scan(rest, k, depth - 1), j + 1, els))
            else if IsElse(k, l) && depth == 1 && els == None then Moved(Scan(rest, k, depth), j + 1, Some(j))
            else Moved(Scan(rest, k, depth), j + 1, els)
  {
    hide Scan, IsStart, IsEnd, IsElse;
    ScanStep(l, rest, k, depth);
  }

  lemma SearchEnds(k: Kind, depth: nat, j: nat, els: Option<nat>)
    requires depth > 0
    ensures Moved(Scan([], k, depth), j, els) == None
  {
  }

  method FindBlockEnd(lines: seq<Line>, start: nat, k: Kind) returns (r: Option<Match>)
    requires start < |lines|
    ensures r == Moved(Scan(lines[start + 1..], k, 1), start + 1, None)
  {
    hide IsStart, IsEnd, IsElse, Scan, Moved;
    var depth := 1;
    var els: Option<nat> := None;
    var j := start + 1;
    while j < |lines|
      invariant start < j <= |lines| && depth > 0
      invariant Moved(Scan(lines[j..], k, depth), j, els) == Moved(Scan(lines[start + 1..], k, 1), start + 1, None)
    {
      assert lines[j..] == [lines[j]] + lines[j + 1..];
      SearchStep(lines[j], lines[j + 1..], k, depth, j, els);
      if IsStart(k, lines[j]) {
        depth := depth + 1;
      } else if IsEnd(k, lines[j]) {
        depth := depth - 1;
        if depth == 0 {
          return Some(Match(j, els));
        }
      } else if IsElse(k, lines[j]) && depth == 1 && els == None {
        els := Some(j);
      }
      j := j + 1;
    }
    assert lines[j..] == [];
    SearchEnds(k, depth, j, els);
    return None;
  }

  lemma {:induction false} ScanFound(lines: seq<Line>, k: Kind, depth: nat)
    requires depth > 0 && Scan(lines, k, depth).Some?
    ensures var m := Scan(lines, k, depth).value;
            && m.end < |lines| && IsEnd(k, lines[m.end])
            && (m.els.Some? ==> m.els.value < m.end && IsElse(k, lines[m.els.value]))
    decreases |lines|
  {
    hide IsStart, IsElse;
    if IsStart(k, lines[0]) {
      ScanFound(lines[1..], k, depth + 1);
    } else if IsEnd(k, lines[0]) {
      if depth > 1 {
        ScanFound(lines[1..], k, depth - 1);
      }
    } else {
      ScanFound(lines[1..], k, depth);
    }
  }

  // ----- reading and writing blocks

  /** One statement's worth of lines, with the bodies still to be read. */
  datatype Piece =
    | Alone(st: SimpleStmt)
    | Framed(open: Line, body: seq<Line>)
    | Divided(c: Expr, thn: seq<Line>, els: seq<Line>)

  function CloseOf(open: Line): Line { if open.IfLine? then EndIfLine else EndLoopLine }

  function Joined(p: Piece): seq<Line> {
    match p
    case Alone(st) => [One(st)]
    case Framed(open, body) => [open] + body + [CloseOf(open)]
    case Divided(c, thn, els) => [IfLine(c)] + thn + [ElseLine] + els + [EndIfLine]
  }

  predicate PieceOk(p: Piece) { p.Framed? ==> p.open.IfLine? || p.open.LoopLine? }

  lemma CutAt(s: seq<Line>, i: nat)
    requires i < |s|
    ensures s[..i] + [s[i]] + s[i + 1..] == s
  {
  }

  /** Cuts out the lines between the first line and the end found for it. */
  function SplitFramed(lines: seq<Line>, m: Match): (r: (Piece, seq<Line>))
    requires m.end + 1 < |lines| && (lines[0].IfLine? || lines[0].LoopLine?) && lines[m.end + 1] == CloseOf(lines[0])
    ensures PieceOk(r.0) && Joined(r.0) + r.1 == lines
  {
    CutAt(lines, m.end + 1);
    assert lines[..m.end + 1] == [lines[0]] + lines[1..m.end + 1];
    (Framed(lines[0], lines[1..m.end + 1]), lines[m.end + 2..])
  }

  /** The same with an else between them. */
  function SplitDivided(lines: seq<Line>, e: nat, l: nat): (r: (Piece, seq<Line>))
    requires l < e && e + 1 < |lines| && lines[0].IfLine? && lines[l + 1] == ElseLine && lines[e + 1] == EndIfLine
    ensures PieceOk(r.0) && Joined(r.0) + r.1 == lines
  {
    CutAt(lines, e + 1);
    CutAt(lines[..e + 1], l + 1);
    assert lines[..e + 1][l + 2..] == lines[l + 2..e + 1];
    assert lines[..e + 1][..l + 1] == [lines[0]] + lines[1..l + 1];
    (Divided(lines[0].c, lines[1..l + 1], lines[l + 2..e + 1]), lines[e + 2..])
  }

  /** Takes the first statement's lines off. */
  function Split(lines: seq<Line>): (r: Option<(Piece, seq<Line>)>)
    requires lines != []
    ensures r.Some? ==> PieceOk(r.value.0) && Joined(r.value.0) + r.value.1 == lines
  {
    hide Scan, SplitFramed, SplitDivided;
    match lines[0]
    case One(st) => Some((Alone(st), lines[1..]))
    case IfLine(c) =>
      (match Scan(lines[1..], OfIf, 1)
       case None => None
       case Some(m) =>
         ScanFound(lines[1..], OfIf, 1);
         Some(if m.els.None? then SplitFramed(lines, m) else SplitDivided(lines, m.end, m.els.value)))
    case LoopLine =>
      (match Scan(lines[1..], OfLoop, 1)
       case None => None
       case Some(m) =>
         ScanFound(lines[1..], OfLoop, 1);
         Some(SplitFramed(lines, m)))
    case _ => None
  }

  /** The block the compiler takes the lines to be; None where it gives up. */
  function ParseB(lines: seq<Line>): Option<Block>
    decreases |lines|
  {
    if lines == [] then Some(Nil) else
    match Split(lines)
    case None => None
    case Some((Alone(st), rest)) => ConsTo(st, ParseB(rest))
    case Some((Framed(open, body), rest)) =>
      (match ParseB(body)
       case None => None
       case Some(b) => ConsTo(if open.IfLine? then If(open.c, b) else Loop(b), ParseB(rest)))
    case Some((Divided(c, thn, els), rest)) =>
      (match ParseB(thn)
       case None => None
       case Some(t) =>
         match ParseB(els)
         case None => None
         case Some(e) => ConsTo(IfElse(c, t, e), ParseB(rest)))
  }

  /** The first statement and the lines after it. */
  function First(lines: seq<Line>): Option<(Stmt, seq<Line>)>
    requires lines != []
  {
    match Split(lines)
    case None => None
    case Some((Alone(st), rest)) => Some((st, rest))
    case Some((Framed(open, body), rest)) =>
      (match ParseB(body)
       case None => None
       case Some(b) => Some((if open.IfLine? then If(open.c, b) else Loop(b), rest)))
    case Some((Divided(c, thn, els), rest)) =>
      (match ParseB(thn)
       case None => None
       case Some(t) =>
         match ParseB(els)
         case None => None
         case Some(e) => Some((IfElse(c, t, e), rest)))
  }

  lemma FirstParsed(lines: seq<Line>)
    requires lines != []
    ensures ParseB(lines) == match First(lines) case None => None case Some((st, rest)) => ConsTo(st, ParseB(rest))
  {
    hide Split;
  }

  /** Splitting in terms of the positions a search in the whole list finds. */
  lemma SplitAt(lines: seq<Line>, i: nat)
    requires i < |lines| && (lines[i].IfLine? || lines[i].LoopLine?)
    ensures var m := Moved(Scan(lines[i + 1..], if lines[i].IfLine? then OfIf else OfLoop, 1), i + 1, None);
            match m
            case None => Split(lines[i..]) == None
            case Some(Match(e, None)) =>
              i < e < |lines| && Split(lines[i..]) == Some((Framed(lines[i], lines[i + 1..e]), lines[e + 1..]))
            case Some(Match(e, Some(l))) =>
              i < l < e < |lines| &&
              if lines[i].IfLine? then Split(lines[i..]) == Some((Divided(lines[i].c, lines[i + 1..l], lines[l + 1..e]), lines[e + 1..]))
              else Split(lines[i..]) == Some((Framed(lines[i], lines[i + 1..e]), lines[e + 1..]))
  {
    hide Scan, Joined;
    var k := if lines[i].IfLine? then OfIf else OfLoop;
    var s := lines[i..];
    assert s[1..] == lines[i + 1..] && s[0] == lines[i];
    if Scan(lines[i + 1..], k, 1).Some? {
      ScanFound(lines[i + 1..], k, 1);
      var m := Scan(lines[i + 1..], k, 1).value;
      var e := m.end + i + 1;
      assert s[1..m.end + 1] == lines[i + 1..e] && s[m.end + 2..] == lines[e + 1..];
      if m.els.Some? {
        var l := m.els.value + i + 1;
        assert s[1..m.els.value + 1] == lines[i + 1..l] && s[m.els.value + 2..m.end + 1] == lines[l + 1..e];
      }
    }
  }

  /** The condition that begins at line i, in the same terms. */
  lemma FirstIfAt(lines: seq<Line>, i: nat)
    requires i < |lines| && lines[i].IfLine?
    ensures var m := Moved(Scan(lines[i + 1..], OfIf, 1), i + 1, None);
            match m
            case None => First(lines[i..]) == None
            case Some(Match(e, None)) =>
              i < e < |lines| && var b := ParseB(lines[i + 1..e]);
              First(lines[i..]) == if b.None? then None else Some((If(lines[i].c, b.value), lines[e + 1..]))
            case Some(Match(e, Some(l))) =>
              i < l < e < |lines| && var t, b := ParseB(lines[i + 1..l]), ParseB(lines[l + 1..e]);
              First(lines[i..]) == if t.None? || b.None? then None else Some((IfElse(lines[i].c, t.value, b.value), lines[e + 1..]))
  {
    hide Scan, Split, ParseB, First, Moved;
    SplitAt(lines, i);
    FirstBySplit(lines[i..]);
  }

  lemma FirstBySplit(lines: seq<Line>)
    requires lines != []
    ensures Split(lines).None? ==> First(lines) == None
    ensures Split(lines).Some? && Split(lines).value.0.Framed? && Split(lines).value.0.open.IfLine? ==>
      var p, rest, b := Split(lines).value.0, Split(lines).value.1, ParseB(Split(lines).value.0.body);
      First(lines) == if b.None? then None else Some((If(p.open.c, b.value), rest))
    ensures Split(lines).Some? && Split(lines).value.0.Divided? ==>
      var p, rest := Split(lines).value.0, Split(lines).value.1;
      var t, b := ParseB(p.thn), ParseB(p.els);
      First(lines) == if t.None? || b.None? then None else Some((IfElse(p.c, t.value, b.value), rest))
  {
    hide Split, ParseB;
  }

  function ConsTo(st: Stmt, rest: Option<Block>): Option<Block> {
    match rest case None => None case Some(b) => Some(Cons(st, b))
  }

  function RenderS(st: Stmt): seq<Line>
    decreases st, 1
  {
    match st
    case If(c, thn) => [IfLine(c)] + RenderB(thn) + [EndIfLine]
    case IfElse(c, thn, els) => [IfLine(c)] + RenderB(thn) + [ElseLine] + RenderB(els) + [EndIfLine]
    case Loop(body) => [LoopLine] + RenderB(body) + [EndLoopLine]
    case _ => [One(st)]
  }

  /** The lines a block is written as. */
  function RenderB(b: Block): seq<Line>
    decreases b, 0
  {
    match b case Nil => [] case Cons(hd, tl) => RenderS(hd) + RenderB(tl)
  }

  // ----- a whole block never ends a search

  lemma ScanStep(l: Line, rest: seq<Line>, k: Kind, depth: nat)
    requires depth > 0
    ensures Scan([l] + rest, k, depth) ==
            if IsStart(k, l) then Later(Scan(rest, k, depth + 1))
            else if IsEnd(k, l) then (if depth == 1 then Some(Match(0, None)) else Later(Scan(rest, k, depth - 1)))
            else if IsElse(k, l) && depth == 1 then
              (match Scan(rest, k, depth) case None => None case Some(m) => Some(Match(m.end + 1, Some(0))))
            else Later(Scan(rest, k, depth))
  {
    assert ([l] + rest)[1..] == rest;
  }

  lemma MovedTwice(m: Option<Match>, a: nat, b: nat)
    ensures Moved(Moved(m, a, None), b, None) == Moved(m, a + b, None)
  {
  }

  /** One line that neither opens, closes nor divides only moves the search on. */
  lemma ScanPast(l: Line, rest: seq<Line>, k: Kind, depth: nat)
    requires depth > 0 && !IsStart(k, l) && !IsEnd(k, l) && (depth > 1 || !IsElse(k, l))
    ensures Scan([l] + rest, k, depth) == Moved(Scan(rest, k, depth), 1, None)
  {
    ScanStep(l, rest, k, depth);
  }

  /** A search enters a written statement and leaves it at the depth it had, having taken no end
      and no else from inside. */
  lemma {:induction false} ScanOverS(st: Stmt, rest: seq<Line>, k: Kind, depth: nat)
    requires depth > 0
    ensures Scan(RenderS(st) + rest, k, depth) == Moved(Scan(rest, k, depth), |RenderS(st)|, None)
    decreases st, 1
  {
    hide Scan, Moved, RenderB;
    match st
    case If(c, thn) =>
      OverFramed(IfLine(c), thn, EndIfLine, rest, k, depth);
    case IfElse(c, thn, els) =>
      OverDivided(c, thn, els, rest, k, depth);
    case Loop(body) =>
      OverFramed(LoopLine, body, EndLoopLine, rest, k, depth);
    case _ => ScanPast(One(st), rest, k, depth);
  }

  lemma {:induction false} ScanOverB(b: Block, rest: seq<Line>, k: Kind, depth: nat)
    requires depth > 0
    ensures Scan(RenderB(b) + rest, k, depth) == Moved(Scan(rest, k, depth), |RenderB(b)|, None)
    decreases b, 0
  {
    hide Scan, RenderS;
    match b
    case Nil => assert RenderB(b) + rest == rest;
    case Cons(hd, tl) =>
      assert RenderB(b) + rest == RenderS(hd) + (RenderB(tl) + rest);
      ScanOverS(hd, RenderB(tl) + rest, k, depth);
      ScanOverB(tl, rest, k, depth);
      MovedTwice(Scan(rest, k, depth), |RenderB(tl)|, |RenderS(hd)|);
  }

  /** The same for an opening line, a block and its closing line. */
  lemma {:induction false} OverFramed(open: Line, b: Block, close: Line, rest: seq<Line>, k: Kind, depth: nat)
    requires depth > 0 && ((open.IfLine? && close == EndIfLine) || (open.LoopLine? && close == EndLoopLine))
    ensures Scan(([open] + RenderB(b) + [close]) + rest, k, depth) == Moved(Scan(rest, k, depth), |RenderB(b)| + 2, None)
    decreases b, 1
  {
    hide Scan, RenderB;
    var tail := [close] + rest;
    assert [open] + RenderB(b) + [close] + rest == [open] + (RenderB(b) + tail);
    ScanStep(open, RenderB(b) + tail, k, depth);
    var d := if IsStart(k, open) then depth + 1 else depth;
    ScanOverB(b, tail, k, d);
    ScanStep(close, rest, k, d);
  }

  lemma DividedText(c: Expr, t: seq<Line>, e: seq<Line>, rest: seq<Line>)
    ensures [IfLine(c)] + t + [ElseLine] + e + [EndIfLine] + rest
         == [IfLine(c)] + (t + ([ElseLine] + (e + ([EndIfLine] + rest))))
    ensures |[IfLine(c)] + t + [ElseLine] + e + [EndIfLine]| == |t| + |e| + 3
  {
  }

  lemma MovedAlong(m: Option<Match>, a: nat, b: nat)
    ensures Later(Moved(Moved(Moved(Later(m), a, None), 1, None), b, None)) == Moved(m, a + b + 3, None)
    ensures Later(Moved(Moved(Moved(Moved(m, 1, None), a, None), 1, None), b, None)) == Moved(m, a + b + 3, None)
  {
  }

  lemma {:induction false} OverDivided(c: Expr, thn: Block, els: Block, rest: seq<Line>, k: Kind, depth: nat)
    requires depth > 0
    ensures Scan(RenderS(IfElse(c, thn, els)) + rest, k, depth)
         == Moved(Scan(rest, k, depth), |RenderS(IfElse(c, thn, els))|, None)
    decreases IfElse(c, thn, els), 0
  {
    hide Scan, RenderB, Moved, Later;
    var t3 := [EndIfLine] + rest;
    var t2 := RenderB(els) + t3;
    var t1 := [ElseLine] + t2;
    DividedText(c, RenderB(thn), RenderB(els), rest);
    var d := if k.OfIf? then depth + 1 else depth;
    ScanStep(IfLine(c), RenderB(thn) + t1, k, depth);
    ScanOverB(thn, t1, k, d);
    ScanPast(ElseLine, t2, k, d);
    ScanOverB(els, t3, k, d);
    ScanStep(EndIfLine, rest, k, d);
    MovedAlong(Scan(rest, k, depth), |RenderB(els)|, |RenderB(thn)|);
  }

  /** The search from an opening line finds that line's own end and own else, whatever is nested
      between them and whatever follows. */
  lemma FindsOwnEnd(thn: Block, els: Block, rest: seq<Line>)
    ensures Scan(RenderB(thn) + ([EndIfLine] + rest), OfIf, 1) == Some(Match(|RenderB(thn)|, None))
    ensures Scan(RenderB(thn) + ([EndLoopLine] + rest), OfLoop, 1) == Some(Match(|RenderB(thn)|, None))
    ensures Scan(RenderB(thn) + ([ElseLine] + (RenderB(els) + ([EndIfLine] + rest))), OfIf, 1)
         == Some(Match(|RenderB(thn)| + 1 + |RenderB(els)|, Some(|RenderB(thn)|)))
  {
    hide Scan, RenderB;
    var close := [EndIfLine] + rest;
    ScanStep(EndIfLine, rest, OfIf, 1);
    ScanStep(EndLoopLine, rest, OfLoop, 1);
    ScanOverB(thn, close, OfIf, 1);
    ScanOverB(thn, [EndLoopLine] + rest, OfLoop, 1);
    ScanOverB(els, close, OfIf, 1);
    ScanStep(ElseLine, RenderB(els) + close, OfIf, 1);
    ScanOverB(thn, [ElseLine] + (RenderB(els) + close), OfIf, 1);
  }

  // ----- the lines of a block mean that block, and nothing else is accepted

  lemma SplitOne(st: SimpleStmt, rest: seq<Line>)
    ensures Split(Joined(Alone(st)) + rest) == Some((Alone(st), rest))
  {
    assert ([One(st)] + rest)[1..] == rest;
  }

  lemma SplitBack(open: Line, t: seq<Line>, rest: seq<Line>)
    requires open.IfLine? || open.LoopLine?
    requires Scan(t + ([CloseOf(open)] + rest), if open.IfLine? then OfIf else OfLoop, 1) == Some(Match(|t|, None))
    ensures Split(Joined(Framed(open, t)) + rest) == Some((Framed(open, t), rest))
  {
    hide Scan, SplitFramed, Joined, PieceOk;
    var lines := Joined(Framed(open, t)) + rest;
    FramedLines(open, t, rest);
    FramedBack(open, t, rest);
  }

  lemma FramedLines(open: Line, t: seq<Line>, rest: seq<Line>)
    ensures var lines := Joined(Framed(open, t)) + rest;
      |lines| == |t| + 2 + |rest| && lines[0] == open && lines[|t| + 1] == CloseOf(open)
      && lines[1..] == t + ([CloseOf(open)] + rest)
  {
    var lines := Joined(Framed(open, t)) + rest;
    assert lines == [open] + (t + ([CloseOf(open)] + rest));
  }

  lemma FramedBack(open: Line, t: seq<Line>, rest: seq<Line>)
    requires open.IfLine? || open.LoopLine?
    ensures var lines := Joined(Framed(open, t)) + rest;
      |lines| == |t| + 2 + |rest| && lines[0] == open && lines[|t| + 1] == CloseOf(open)
      && SplitFramed(lines, Match(|t|, None)) == (Framed(open, t), rest)
  {
    hide CloseOf;
    FramedLines(open, t, rest);
    var lines := Joined(Framed(open, t)) + rest;
    assert lines[1..|t| + 1] == t;
    assert lines[|t| + 2..] == rest;
  }

  lemma SplitDividedBack(c: Expr, t: seq<Line>, e: seq<Line>, rest: seq<Line>)
    requires Scan(t + ([ElseLine] + (e + ([EndIfLine] + rest))), OfIf, 1) == Some(Match(|t| + 1 + |e|, Some(|t|)))
    ensures Split(Joined(Divided(c, t, e)) + rest) == Some((Divided(c, t, e), rest))
  {
    hide Scan, SplitDivided, Joined, PieceOk;
    var lines := Joined(Divided(c, t, e)) + rest;
    JoinedDivided(c, t, e);
    DividedLines(lines, c, t, e, rest);
    DividedBack(lines, c, t, e, rest);
  }

  lemma JoinedDivided(c: Expr, t: seq<Line>, e: seq<Line>)
    ensures Joined(Divided(c, t, e)) == [IfLine(c)] + t + [ElseLine] + e + [EndIfLine]
  {
  }

  lemma DividedLines(lines: seq<Line>, c: Expr, t: seq<Line>, e: seq<Line>, rest: seq<Line>)
    requires lines == [IfLine(c)] + t + [ElseLine] + e + [EndIfLine] + rest
    ensures lines[0] == IfLine(c) && lines[|t| + 1] == ElseLine && lines[|t| + 2 + |e|] == EndIfLine
    ensures lines[1..] == t + ([ElseLine] + (e + ([EndIfLine] + rest)))
  {
  }

  lemma DividedBack(lines: seq<Line>, c: Expr, t: seq<Line>, e: seq<Line>, rest: seq<Line>)
    requires lines == [IfLine(c)] + t + [ElseLine] + e + [EndIfLine] + rest
    ensures lines[|t| + 1] == ElseLine && lines[|t| + 2 + |e|] == EndIfLine
    ensures SplitDivided(lines, |t| + 1 + |e|, |t|) == (Divided(c, t, e), rest)
  {
    DividedLines(lines, c, t, e, rest);
    assert lines[1..|t| + 1] == t;
    assert lines[|t| + 2..|t| + 2 + |e|] == e;
    assert lines[|t| + |e| + 3..] == rest;
  }

  lemma {:induction false} ParseRenderS(st: Stmt, rest: seq<Line>)
    ensures ParseB(RenderS(st) + rest) == ConsTo(st, ParseB(rest))
    decreases st, 1
  {
    hide Scan, RenderB, Split;
    match st
    case If(c, thn) =>
      FindsOwnEnd(thn, thn, rest);
      ParseRender(thn);
      SplitBack(IfLine(c), RenderB(thn), rest);
    case IfElse(c, thn, els) =>
      FindsOwnEnd(thn, els, rest);
      ParseRender(thn);
      ParseRender(els);
      SplitDividedBack(c, RenderB(thn), RenderB(els), rest);
    case Loop(body) =>
      FindsOwnEnd(body, body, rest);
      ParseRender(body);
      SplitBack(LoopLine, RenderB(body), rest);
    case _ =>
      SplitOne(st, rest);
  }

  /** Reading back the lines a block is written as gives that block. */
  lemma {:induction false} ParseRender(b: Block)
    ensures ParseB(RenderB(b)) == Some(b)
    decreases b, 0
  {
    hide RenderS;
    match b
    case Nil =>
    case Cons(hd, tl) =>
      ParseRenderS(hd, RenderB(tl));
      ParseRender(tl);
  }

  /** Lines the compiler accepts are exactly the lines of the block it read: a stray or missing
      else, end of condition or end of loop is never accepted. */
  lemma {:induction false} RenderParse(lines: seq<Line>)
    requires ParseB(lines).Some?
    ensures RenderB(ParseB(lines).value) == lines
    decreases |lines|
  {
    hide Split;
    if lines != [] {
      var (p, rest) := Split(lines).value;
      RenderParse(rest);
      match p
      case Alone(st) =>
      case Framed(open, body) => RenderParse(body);
      case Divided(c, thn, els) =>
        RenderParse(thn);
        RenderParse(els);
    }
  }
}
