/** A script as pieces -- code, strings, line comments and nested group comments -- and what is left of each
    once comments are removed. */
module CommentPieces {
  import opened Options
  import opened Comments

  // ----- one piece

  /** A line comment, from U+061B to the next line feed, leaves the line feed; one that runs to the end of
      the script leaves nothing. */
  lemma LineComments(c: Text, rest: Text)
    requires (forall k :: 0 <= k < |c| ==> c[k] != 10) && (c == [] || c[0] != 0x2A)
    ensures Clean([0xD8, 0x9B] + c + [10] + rest, 0, false) == Prepend(10, Clean(rest, 0, false))
    ensures Clean([0xD8, 0x9B] + c, 0, false) == Some([])
  {
    hide Clean, FromLineEnd;
    var s: Text, e: Text := [0xD8, 0x9B] + c + [10] + rest, [0xD8, 0x9B] + c;
    assert s[2..] == c + ([10] + rest) && e[2..] == c + [];
    assert s[2] == if c == [] then 10 else c[0];
    CleanStep(s, 0, false);
    CleanStep(e, 0, false);
    UpTo(c, [10] + rest);
    UpTo(c, []);
    NewlineKept([10] + rest);
    assert ([10] + rest)[1..] == rest;
    CleanEnd([], 0, false);
    JoinedNone(Clean([], 0, false));
  }

  lemma {:induction false} UpTo(c: Text, rest: Text)
    requires (forall k :: 0 <= k < |c| ==> c[k] != 10) && (rest == [] || rest[0] == 10)
    ensures FromLineEnd(c + rest) == rest
    decreases |c|
  {
    if c == [] {
      assert c + rest == rest;
    } else {
      assert (c + rest)[1..] == c[1..] + rest;
      UpTo(c[1..], rest);
    }
  }

  /** The two bytes of the mark at position k. */
  predicate MarkAt(s: Text, k: nat) { k + 1 < |s| && s[k] == 0xD8 && s[k + 1] == 0x9B }

  /** Bytes outside strings that begin no mark are copied in order, line feeds among them. */
  lemma {:induction false} CodeCopied(t: Text, rest: Text)
    requires forall k :: 0 <= k < |t| ==> t[k] != 0x22 && !MarkAt(t + rest, k)
    ensures Clean(t + rest, 0, false) == Joined(t, Clean(rest, 0, false))
    decreases |t|
  {
    hide Clean;
    var s := t + rest;
    if t == [] {
      assert s == rest;
      JoinedNone(Clean(rest, 0, false));
    } else {
      assert s[1..] == t[1..] + rest && !MarkAt(s, 0);
      forall k | 0 <= k < |t[1..]| ensures t[1..][k] != 0x22 && !MarkAt(t[1..] + rest, k) {
        assert t[1..][k] == t[k + 1] && !MarkAt(s, k + 1);
      }
      CodeCopied(t[1..], rest);
      CleanStep(s, 0, false);
      JoinedMore(t[0], t[1..], Clean(rest, 0, false));
      assert t == [t[0]] + t[1..];
    }
  }

  lemma JoinedMore(b: Byte, head: Text, rest: Option<Text>)
    ensures Prepend(b, Joined(head, rest)) == Joined([b] + head, rest)
  {
    if rest.Some? {
      assert [b] + (head + rest.value) == [b] + head + rest.value;
    }
  }

  lemma {:induction false} InsideString(t: Text, rest: Text)
    requires forall k :: 0 <= k < |t| ==> t[k] != 0x22
    ensures Clean(t + rest, 0, true) == Joined(t, Clean(rest, 0, true))
    decreases |t|
  {
    hide Clean;
    var s := t + rest;
    if t == [] {
      assert s == rest;
      JoinedNone(Clean(rest, 0, true));
    } else {
      assert s[1..] == t[1..] + rest;
      InsideString(t[1..], rest);
      CleanStep(s, 0, true);
      JoinedMore(t[0], t[1..], Clean(rest, 0, true));
      assert t == [t[0]] + t[1..];
    }
  }

  /** A string is copied with its quotes, whatever marks it contains; one that is not closed is copied to the
      end. */
  lemma StringCopied(t: Text, rest: Text)
    requires forall k :: 0 <= k < |t| ==> t[k] != 0x22
    ensures Clean([0x22] + t + [0x22] + rest, 0, false) == Joined([0x22] + t + [0x22], Clean(rest, 0, false))
    ensures Clean([0x22] + t, 0, false) == Some([0x22] + t)
  {
    hide Clean;
    var s: Text, e: Text, q: Text := [0x22] + t + [0x22] + rest, [0x22] + t, [0x22] + rest;
    assert s[1..] == t + q && e[1..] == t + [] && q[1..] == rest;
    CleanStep(s, 0, false);
    InsideString(t, q);
    CleanStep(q, 0, true);
    JoinedOne(t, 0x22, Clean(rest, 0, false));
    JoinedMore(0x22, t + [0x22], Clean(rest, 0, false));
    assert [0x22] + (t + [0x22]) == [0x22] + t + [0x22];
    CleanStep(e, 0, false);
    InsideString(t, []);
    CleanEnd(t, 0, true);
  }

  // ----- group comments

  const OPENING: Text := [0xD8, 0x9B, 0x2A]
  const CLOSING: Text := [0x2A, 0xD8, 0x9B]

  /** What stands inside a group comment: text, or text around another group comment. */
  datatype Inner = Flat(t: Text) | Around(t: Text, nested: Inner, more: Inner)

  function InnerText(i: Inner): Text {
    match i
    case Flat(t) => t
    case Around(t, nested, more) => t + (OPENING + (InnerText(nested) + (CLOSING + InnerText(more))))
  }

  /** No group mark begins in t, read with the mark behind it. */
  predicate NoGroupMark(t: Text, mark: Text) {
    forall k :: 0 <= k < |t| ==> !(OPENING <= (t + mark)[k..]) && !(CLOSING <= (t + mark)[k..])
  }

  predicate InnerOk(i: Inner) {
    match i
    case Flat(t) => NoGroupMark(t, CLOSING)
    case Around(t, nested, more) => NoGroupMark(t, OPENING) && InnerOk(nested) && InnerOk(more)
  }

  lemma {:induction false} TextSkipped(t: Text, mark: Text, rest: Text, depth: nat)
    requires NoGroupMark(t, mark) && |mark| == 3 && depth > 0
    ensures Clean(t + (mark + rest), depth, false) == Clean(mark + rest, depth, false)
    decreases |t|
  {
    hide Clean;
    var s := t + (mark + rest);
    if t == [] {
      assert s == mark + rest;
    } else {
      assert s[1..] == t[1..] + (mark + rest);
      NoMarkHere(t, mark, rest);
      forall k | 0 <= k < |t[1..]| ensures !(OPENING <= (t[1..] + mark)[k..]) && !(CLOSING <= (t[1..] + mark)[k..]) {
        assert (t[1..] + mark)[k..] == (t + mark)[k + 1..];
      }
      TextSkipped(t[1..], mark, rest, depth);
      CleanStep(s, depth, false);
    }
  }

  lemma NoMarkHere(t: Text, mark: Text, rest: Text)
    requires NoGroupMark(t, mark) && |mark| == 3 && t != []
    ensures !IsOpen(t + (mark + rest)) && !IsClose(t + (mark + rest))
  {
    var s, u := t + (mark + rest), t + mark;
    assert u[0..] == u && s[..3] == u[..3];
    assert !(OPENING <= u) && !(CLOSING <= u);
  }

  lemma MarkTaken(rest: Text, depth: nat)
    ensures depth > 0 ==> Clean(OPENING + rest, depth, false) == Clean(rest, depth + 1, false)
    ensures depth > 0 ==> Clean(CLOSING + rest, depth, false) == Clean(rest, depth - 1, false)
    ensures Clean(OPENING + rest, 0, false) == Clean(rest, 1, false)
  {
    hide Clean;
    assert (OPENING + rest)[3..] == rest && (CLOSING + rest)[3..] == rest;
    CleanStep(OPENING + rest, depth, false);
    CleanStep(CLOSING + rest, depth, false);
    CleanStep(OPENING + rest, 0, false);
  }

  lemma {:induction false} InnerSkipped(i: Inner, rest: Text, depth: nat)
    requires InnerOk(i) && depth > 0
    ensures Clean(InnerText(i) + (CLOSING + rest), depth, false) == Clean(rest, depth - 1, false)
    decreases i
  {
    hide Clean, NoGroupMark;
    match i
    case Flat(t) =>
      TextSkipped(t, CLOSING, rest, depth);
      MarkTaken(rest, depth);
    case Around(t, nested, more) =>
      var tail := InnerText(more) + (CLOSING + rest);
      var body := InnerText(nested) + (CLOSING + tail);
      assert InnerText(i) + (CLOSING + rest) == t + (OPENING + body) by { Regroup(t, InnerText(nested), InnerText(more), rest); }
      TextSkipped(t, OPENING, body, depth);
      MarkTaken(body, depth);
      InnerSkipped(nested, tail, depth + 1);
      InnerSkipped(more, rest, depth);
  }

  lemma Regroup(t: Text, a: Text, b: Text, rest: Text)
    ensures t + (OPENING + (a + (CLOSING + b))) + (CLOSING + rest) == t + (OPENING + (a + (CLOSING + (b + (CLOSING + rest)))))
  {
  }

  /** A group comment, with any others inside it, leaves nothing; one that is not closed makes cleaning
      fail. */
  lemma GroupDropped(i: Inner, t: Text, rest: Text)
    requires InnerOk(i)
    ensures Clean(OPENING + (InnerText(i) + (CLOSING + rest)), 0, false) == Clean(rest, 0, false)
    ensures NoGroupMark(t, []) ==> Clean(OPENING + t, 0, false) == None
  {
    hide Clean, NoGroupMark;
    MarkTaken(InnerText(i) + (CLOSING + rest), 0);
    InnerSkipped(i, rest, 1);
    if NoGroupMark(t, []) {
      MarkTaken(t, 0);
      NeverClosed(t);
    }
  }

  lemma {:induction false} NeverClosed(t: Text)
    requires NoGroupMark(t, [])
    ensures Clean(t, 1, false) == None
    decreases |t|
  {
    hide Clean;
    if t == [] {
      CleanEnd([], 1, false);
    } else {
      assert (t + [])[0..] == t;
      assert !(OPENING <= t) && !(CLOSING <= t);
      forall k | 0 <= k < |t[1..]| ensures !(OPENING <= (t[1..] + [])[k..]) && !(CLOSING <= (t[1..] + [])[k..]) {
        assert (t[1..] + [])[k..] == (t + [])[k + 1..];
      }
      CleanStep(t, 1, false);
      NeverClosed(t[1..]);
    }
  }

  // ----- a script of pieces

  datatype Piece = Code(t: Text) | Str(t: Text) | LineComment(t: Text) | Group(i: Inner)

  function PieceText(p: Piece): Text {
    match p
    case Code(t) => t
    case Str(t) => [0x22] + t + [0x22]
    case LineComment(t) => [0xD8, 0x9B] + t + [10]
    case Group(i) => OPENING + (InnerText(i) + CLOSING)
  }

  /** What is left of a piece. */
  function PieceKept(p: Piece): Text {
    match p case Code(t) => t case Str(t) => [0x22] + t + [0x22] case LineComment(_) => [10] case Group(_) => []
  }

  function Written(ps: seq<Piece>): Text { if ps == [] then [] else PieceText(ps[0]) + Written(ps[1..]) }

  function Kept(ps: seq<Piece>): Text { if ps == [] then [] else PieceKept(ps[0]) + Kept(ps[1..]) }

  /** Code begins no string and no comment, read with what follows it; a string has no quote inside, a line
      comment no line feed and no star at its beginning. */
  ghost predicate PieceOk(p: Piece, next: Text) {
    match p
    case Code(t) => forall k :: 0 <= k < |t| ==> t[k] != 0x22 && !MarkAt(t + next, k)
    case Str(t) => forall k :: 0 <= k < |t| ==> t[k] != 0x22
    case LineComment(t) => (forall k :: 0 <= k < |t| ==> t[k] != 10) && (t == [] || t[0] != 0x2A)
    case Group(i) => InnerOk(i)
  }

  ghost predicate PiecesOk(ps: seq<Piece>, next: Text)
    decreases |ps|
  {
    ps == [] || (PieceOk(ps[0], Written(ps[1..]) + next) && PiecesOk(ps[1..], next))
  }

  lemma PieceCleaned(p: Piece, next: Text)
    requires PieceOk(p, next)
    ensures Clean(PieceText(p) + next, 0, false) == Joined(PieceKept(p), Clean(next, 0, false))
  {
    hide Clean, InnerOk;
    match p
    case Code(t) => CodeCopied(t, next);
    case Str(t) => StringCopied(t, next);
    case LineComment(t) =>
      LineComments(t, next);
      JoinedNone(Clean(next, 0, false));
      JoinedOne([], 10, Clean(next, 0, false));
      JoinedNone(Prepend(10, Clean(next, 0, false)));
    case Group(i) =>
      GroupDropped(i, [], next);
      assert OPENING + (InnerText(i) + CLOSING) + next == OPENING + (InnerText(i) + (CLOSING + next));
      JoinedNone(Clean(next, 0, false));
  }

  /** Any script of pieces is cleaned piece by piece, in order, whatever follows it. */
  lemma {:induction false} PiecesCleaned(ps: seq<Piece>, next: Text)
    requires PiecesOk(ps, next)
    ensures Clean(Written(ps) + next, 0, false) == Joined(Kept(ps), Clean(next, 0, false))
    decreases |ps|
  {
    hide Clean, PieceOk, PieceText, PieceKept;
    if ps == [] {
      assert Written(ps) + next == next;
      JoinedNone(Clean(next, 0, false));
    } else {
      var rest := Written(ps[1..]) + next;
      assert Written(ps) + next == PieceText(ps[0]) + rest;
      PieceCleaned(ps[0], rest);
      PiecesCleaned(ps[1..], next);
      JoinedTwice(PieceKept(ps[0]), Kept(ps[1..]), Clean(next, 0, false));
    }
  }

  lemma JoinedTwice(a: Text, b: Text, rest: Option<Text>)
    ensures Joined(a, Joined(b, rest)) == Joined(a + b, rest)
  {
    if rest.Some? {
      assert a + (b + rest.value) == a + b + rest.value;
    }
  }

  /** A whole script of pieces. */
  lemma ScriptCleaned(ps: seq<Piece>)
    requires PiecesOk(ps, [])
    ensures Clean(Written(ps), 0, false) == Some(Kept(ps))
  {
    hide Clean, PiecesOk;
    PiecesCleaned(ps, []);
    assert Written(ps) + [] == Written(ps);
    CleanEnd(Kept(ps), 0, false);
  }

  // ----- lines

  /** Line feeds in a text. */
  function Feeds(t: Text): nat { if t == [] then 0 else (if t[0] == 10 then 1 else 0) + Feeds(t[1..]) }

  lemma {:induction false} FeedsApp(a: Text, b: Text)
    ensures Feeds(a + b) == Feeds(a) + Feeds(b)
  {
    if a == [] {
      assert a + b == b;
    } else {
      assert (a + b)[1..] == a[1..] + b;
      FeedsApp(a[1..], b);
    }
  }

  lemma {:induction false} NoFeeds(t: Text)
    requires forall k :: 0 <= k < |t| ==> t[k] != 10
    ensures Feeds(t) == 0
    decreases |t|
  {
    if t != [] {
      NoFeeds(t[1..]);
    }
  }

  lemma PieceFeeds(p: Piece, next: Text)
    requires PieceOk(p, next) && !p.Group?
    ensures Feeds(PieceKept(p)) == Feeds(PieceText(p))
  {
    if p.LineComment? {
      FeedsApp([0xD8, 0x9B] + p.t, [10]);
      FeedsApp([0xD8, 0x9B], p.t);
      NoFeeds(p.t);
      NoFeeds([0xD8, 0x9B]);
    }
  }

  /** Without group comments a script keeps its line feeds, and so its lines. */
  lemma {:induction false} LinesKept(ps: seq<Piece>, next: Text)
    requires PiecesOk(ps, next) && forall k :: 0 <= k < |ps| ==> !ps[k].Group?
    ensures Feeds(Kept(ps)) == Feeds(Written(ps))
    decreases |ps|
  {
    hide PieceOk, PieceText, PieceKept;
    if ps != [] {
      PieceFeeds(ps[0], Written(ps[1..]) + next);
      LinesKept(ps[1..], next);
      FeedsApp(PieceText(ps[0]), Written(ps[1..]));
      FeedsApp(PieceKept(ps[0]), Kept(ps[1..]));
    }
  }
}
