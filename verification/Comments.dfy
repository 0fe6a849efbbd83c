/** Removing comments from a script: a line comment from U+061B to the end of its line, nested group
    comments, and strings left as they are. */
module Comments {
  import opened Options

  type Byte = b: int | 0 <= b < 256
  type Text = seq<Byte>

  const QUOTE: Byte := 0x22
  const STAR: Byte := 0x2A
  const NEWLINE: Byte := 0x0A

  predicate IsSemi(s: Text) { |s| >= 2 && s[0] == 0xD8 && s[1] == 0x9B }

  predicate IsOpen(s: Text) { |s| >= 3 && s[0] == 0xD8 && s[1] == 0x9B && s[2] == STAR }

  predicate IsClose(s: Text) { |s| >= 3 && s[0] == STAR && s[1] == 0xD8 && s[2] == 0x9B }

  /** What is left from the end of the line on, the newline included. */
  function FromLineEnd(s: Text): (r: Text)
    ensures |r| <= |s|
  {
    if s == [] || s[0] == NEWLINE then s else FromLineEnd(s[1..])
  }

  function Prepend(b: Byte, t: Option<Text>): Option<Text> {
    match t case None => None case Some(x) => Some([b] + x)
  }

  /** The text without comments, read from a point inside `depth` group comments or inside a string;
      None when a group comment is not closed. */
  function Clean(s: Text, depth: nat, inString: bool): Option<Text>
    decreases |s|
  {
    if s == [] then (if depth > 0 then None else Some([]))
    else if depth > 0 then
      if IsClose(s) then Clean(s[3..], depth - 1, inString)
      else if IsOpen(s) then Clean(s[3..], depth + 1, inString)
      else Clean(s[1..], depth, inString)
    else if inString then Prepend(s[0], Clean(s[1..], 0, s[0] != QUOTE))
    else if s[0] == QUOTE then Prepend(s[0], Clean(s[1..], 0, true))
    else if IsOpen(s) then Clean(s[3..], 1, false)
    else if IsSemi(s) then Clean(FromLineEnd(s[2..]), 0, false)
    else Prepend(s[0], Clean(s[1..], 0, false))
  }

  function Joined(head: Text, rest: Option<Text>): Option<Text> {
    match rest case None => None case Some(x) => Some(head + x)
  }

  lemma NewlineKept(s: Text)
    requires s != [] && s[0] == NEWLINE
    ensures Clean(s, 0, false) == Prepend(NEWLINE, Clean(s[1..], 0, false))
  {
  }

  lemma JoinedOne(head: Text, b: Byte, rest: Option<Text>)
    ensures Joined(head, Prepend(b, rest)) == Joined(head + [b], rest)
  {
    if rest.Some? {
      assert head + ([b] + rest.value) == head + [b] + rest.value;
    }
  }

  /** The end of the line position i is on. */
  method SkipLine(script: Text, i: nat) returns (k: nat)
    requires i <= |script|
    ensures i <= k <= |script| && script[k..] == FromLineEnd(script[i..])
  {
    hide FromLineEnd;
    k := i;
    while k < |script| && script[k] != NEWLINE
      invariant i <= k <= |script| && FromLineEnd(script[k..]) == FromLineEnd(script[i..])
    {
      LineStep(script[k..]);
      assert script[k..][1..] == script[k + 1..];
      k := k + 1;
    }
    LineStep(script[k..]);
  }

  /** comment_remove: one pass with two cursors, a nesting depth and an in-string flag. */
  method CommentRemove(script: Text) returns (ok: bool, out: array<Byte>, size: nat)
    ensures ok <==> Clean(script, 0, false).Some?
    ensures ok ==> size < out.Length && out[..size] == Clean(script, 0, false).value && out[size] == 0
  {
    hide Clean, FromLineEnd, Prepend, Joined;
    var n := |script|;
    out := new Byte[n + 1];
    var i, j, depth, inString := 0, 0, 0, false;
    assert out[..0] == [] && script[0..] == script;
    JoinedNone(Clean(script, 0, false));
    while i < n
      invariant 0 <= j <= i <= n == |script| && depth >= 0 && out.Length == n + 1
      invariant Joined(out[..j], Clean(script[i..], depth, inString)) == Clean(script, 0, false)
      decreases n - i
    {
      var s := script[i..];
      CleanStep(s, depth, inString);
      if depth > 0 {
        if IsClose(s) {
          depth := depth - 1;
          i := i + 3;
        } else if IsOpen(s) {
          depth := depth + 1;
          i := i + 3;
        } else {
          i := i + 1;
        }
      } else if inString {
        if script[i] == QUOTE {
          inString := false;
        }
        Copied(out[..j], script, i, inString);
        out[j] := script[i];
        assert out[..j + 1] == out[..j] + [script[i]];
        i, j := i + 1, j + 1;
      } else if script[i] == QUOTE {
        inString := true;
        Copied(out[..j], script, i, true);
        out[j] := script[i];
        assert out[..j + 1] == out[..j] + [script[i]];
        i, j := i + 1, j + 1;
      } else if IsOpen(s) {
        depth := 1;
        i := i + 3;
      } else if IsSemi(s) {
        assert s[2..] == script[i + 2..];
        i := SkipLine(script, i + 2);
        if i < n && script[i] == NEWLINE {
          NewlineKept(script[i..]);
          Copied(out[..j], script, i, false);
          out[j] := script[i];
          assert out[..j + 1] == out[..j] + [script[i]];
          i, j := i + 1, j + 1;
        }
      } else {
        Copied(out[..j], script, i, false);
        out[j] := script[i];
        assert out[..j + 1] == out[..j] + [script[i]];
        i, j := i + 1, j + 1;
      }
    }
    assert script[i..] == [];
    CleanEnd(out[..j], depth, inString);
    if depth > 0 {
      return false, out, 0;
    }
    out[j] := 0;
    ok, size := true, j;
  }

  lemma JoinedNone(t: Option<Text>)
    ensures Joined([], t) == t
  {
    assert t.Some? ==> [] + t.value == t.value;
  }

  /** One turn of the loop. */
  lemma CleanStep(s: Text, depth: nat, inString: bool)
    requires s != []
    ensures Clean(s, depth, inString) ==
            if depth > 0 then
              (if IsClose(s) then Clean(s[3..], depth - 1, inString)
               else if IsOpen(s) then Clean(s[3..], depth + 1, inString)
               else Clean(s[1..], depth, inString))
            else if inString then Prepend(s[0], Clean(s[1..], 0, s[0] != QUOTE))
            else if s[0] == QUOTE then Prepend(s[0], Clean(s[1..], 0, true))
            else if IsOpen(s) then Clean(s[3..], 1, false)
            else if IsSemi(s) then Clean(FromLineEnd(s[2..]), 0, false)
            else Prepend(s[0], Clean(s[1..], 0, false))
  {
  }

  lemma CleanEnd(head: Text, depth: nat, inString: bool)
    ensures Joined(head, Clean([], depth, inString)) == if depth > 0 then None else Some(head)
  {
    assert head + [] == head;
  }

  lemma Copied(head: Text, script: Text, i: nat, b: bool)
    requires i < |script|
    ensures script[i..][1..] == script[i + 1..] && script[i..][0] == script[i]
    ensures Joined(head, Prepend(script[i], Clean(script[i + 1..], 0, b))) == Joined(head + [script[i]], Clean(script[i + 1..], 0, b))
  {
    JoinedOne(head, script[i], Clean(script[i + 1..], 0, b));
  }

  lemma LineStep(s: Text)
    ensures FromLineEnd(s) == if s == [] || s[0] == NEWLINE then s else FromLineEnd(s[1..])
  {
  }

  // ----- text with no mark outside its strings

  predicate MarkFree(s: Text, inString: bool)
    decreases |s|
  {
    s == [] ||
    if inString then MarkFree(s[1..], s[0] != QUOTE)
    else if s[0] == QUOTE then MarkFree(s[1..], true)
    else !IsSemi(s) && MarkFree(s[1..], false)
  }

  /** Cleaning leaves a text as it is if and only if the text has no comment mark outside its strings. */
  lemma {:induction false} UnchangedIffMarkFree(s: Text, inString: bool)
    ensures Clean(s, 0, inString) == Some(s) <==> MarkFree(s, inString)
    decreases |s|
  {
    if s != [] {
      var b := if inString then s[0] != QUOTE else s[0] == QUOTE;
      assert s == [s[0]] + s[1..];
      if !inString && s[0] != QUOTE && IsSemi(s) {
        if IsOpen(s) {
          Shorter(s[3..], 1, false);
        } else {
          Shorter(FromLineEnd(s[2..]), 0, false);
        }
      } else {
        UnchangedIffMarkFree(s[1..], b);
        PrependSame(s, Clean(s[1..], 0, b));
      }
    }
  }

  lemma PrependSame(s: Text, t: Option<Text>)
    requires s != []
    ensures Prepend(s[0], t) == Some(s) <==> t == Some(s[1..])
  {
    if t.Some? && [s[0]] + t.value == s {
      assert t.value == ([s[0]] + t.value)[1..];
    }
    assert s == [s[0]] + s[1..];
  }

  /** Cleaning never lengthens a text. */
  lemma {:induction false} Shorter(s: Text, depth: nat, inString: bool)
    ensures Clean(s, depth, inString).Some? ==> |Clean(s, depth, inString).value| <= |s|
    decreases |s|
  {
    if s != [] {
      if depth > 0 {
        if IsClose(s) {
          Shorter(s[3..], depth - 1, inString);
        } else if IsOpen(s) {
          Shorter(s[3..], depth + 1, inString);
        } else {
          Shorter(s[1..], depth, inString);
        }
      } else if inString {
        Shorter(s[1..], 0, s[0] != QUOTE);
      } else if s[0] == QUOTE {
        Shorter(s[1..], 0, true);
      } else if IsOpen(s) {
        Shorter(s[3..], 1, false);
      } else if IsSemi(s) {
        Shorter(FromLineEnd(s[2..]), 0, false);
      } else {
        Shorter(s[1..], 0, false);
      }
    }
  }

  // ----- UTF-8

  predicate Tail(b: Byte) { 0x80 <= b <= 0xBF }

  /** Well-formed UTF-8: the byte sequences of section 4 of RFC 3629. */
  predicate Utf8(s: Text)
    decreases |s|
  {
    s == [] ||
    if s[0] <= 0x7F then Utf8(s[1..])
    else if 0xC2 <= s[0] <= 0xDF then |s| >= 2 && Tail(s[1]) && Utf8(s[2..])
    else if 0xE0 <= s[0] <= 0xEF then
      |s| >= 3 && Tail(s[1]) && Tail(s[2]) && (s[0] == 0xE0 ==> s[1] >= 0xA0) && (s[0] == 0xED ==> s[1] <= 0x9F) && Utf8(s[3..])
    else
      0xF0 <= s[0] <= 0xF4 && |s| >= 4 && Tail(s[1]) && Tail(s[2]) && Tail(s[3])
      && (s[0] == 0xF0 ==> s[1] >= 0x90) && (s[0] == 0xF4 ==> s[1] <= 0x8F) && Utf8(s[4..])
  }

  /** Every 0xD8 begins a two-byte character. */
  ghost predicate Paired(s: Text) {
    forall k :: 0 <= k < |s| && s[k] == 0xD8 ==> PairAt(s, k)
  }

  predicate PairAt(s: Text, k: nat) { k + 1 < |s| && Tail(s[k + 1]) }

  lemma PairedTail(s: Text, n: nat)
    requires Paired(s) && n <= |s|
    ensures Paired(s[n..])
  {
    forall k | 0 <= k < |s[n..]| && s[n..][k] == 0xD8 ensures PairAt(s[n..], k) {
      assert PairAt(s, n + k);
    }
  }

  lemma {:induction false} Utf8Paired(s: Text)
    requires Utf8(s)
    ensures Paired(s)
    decreases |s|
  {
    if s != [] {
      var n := if s[0] <= 0x7F then 1 else if s[0] <= 0xDF then 2 else if s[0] <= 0xEF then 3 else 4;
      Utf8Paired(s[n..]);
      forall k | 0 <= k < |s| && s[k] == 0xD8 ensures PairAt(s, k) {
        if k >= n {
          assert s[n..][k - n] == s[k];
          assert PairAt(s[n..], k - n);
        }
      }
    }
  }

  lemma {:induction false} LineEndSuffix(s: Text)
    requires Paired(s)
    ensures Paired(FromLineEnd(s))
    decreases |s|
  {
    if s != [] && s[0] != NEWLINE {
      PairedTail(s, 1);
      LineEndSuffix(s[1..]);
    }
  }

  // ----- what cleaning leaves

  /** The bytes inside strings, quotes included, of the text outside comments. */
  function Quoted(s: Text, depth: nat, inString: bool): Text
    decreases |s|
  {
    if s == [] then []
    else if depth > 0 then
      if IsClose(s) then Quoted(s[3..], depth - 1, inString)
      else if IsOpen(s) then Quoted(s[3..], depth + 1, inString)
      else Quoted(s[1..], depth, inString)
    else if inString then [s[0]] + Quoted(s[1..], 0, s[0] != QUOTE)
    else if s[0] == QUOTE then [s[0]] + Quoted(s[1..], 0, true)
    else if IsOpen(s) then Quoted(s[3..], 1, false)
    else if IsSemi(s) then Quoted(FromLineEnd(s[2..]), 0, false)
    else Quoted(s[1..], 0, false)
  }

  /** After a byte 0xD8 that is copied outside a string, the next byte is copied too. */
  lemma NextCopied(s: Text)
    requires s != [] && s[0] == 0xD8 && Paired(s) && !IsSemi(s) && Clean(s[1..], 0, false).Some?
    ensures var t := Clean(s[1..], 0, false).value; t != [] && t[0] == s[1] && t[0] != 0x9B
  {
    assert PairAt(s, 0);
    assert s[1..][0] == s[1];
    assert Clean(s[1..], 0, false) == Prepend(s[1], Clean(s[1..][1..], 0, false));
  }

  /** On text whose 0xD8 bytes are paired, what cleaning leaves has no mark outside strings, and the
      same strings, byte for byte. */
  lemma {:induction false} CleanLeaves(s: Text, depth: nat, inString: bool)
    requires Paired(s) && Clean(s, depth, inString).Some? && (depth > 0 ==> !inString)
    ensures MarkFree(Clean(s, depth, inString).value, inString)
    ensures Quoted(Clean(s, depth, inString).value, 0, inString) == Quoted(s, depth, inString)
    decreases |s|
  {
    hide Paired;
    if s != [] {
      var t := Clean(s, depth, inString).value;
      PairedTail(s, 1);
      if |s| >= 3 {
        PairedTail(s, 3);
      }
      if depth > 0 {
        if IsClose(s) {
          CleanLeaves(s[3..], depth - 1, inString);
        } else if IsOpen(s) {
          CleanLeaves(s[3..], depth + 1, inString);
        } else {
          CleanLeaves(s[1..], depth, inString);
        }
      } else if inString {
        CleanLeaves(s[1..], 0, s[0] != QUOTE);
        assert t[1..] == Clean(s[1..], 0, s[0] != QUOTE).value;
      } else if s[0] == QUOTE {
        CleanLeaves(s[1..], 0, true);
        assert t[1..] == Clean(s[1..], 0, true).value;
      } else if IsOpen(s) {
        CleanLeaves(s[3..], 1, false);
      } else if IsSemi(s) {
        PairedTail(s, 2);
        LineEndSuffix(s[2..]);
        CleanLeaves(FromLineEnd(s[2..]), 0, false);
      } else {
        CleanLeaves(s[1..], 0, false);
        assert t[1..] == Clean(s[1..], 0, false).value;
        if s[0] == 0xD8 {
          NextCopied(s);
        }
        assert !IsSemi(t) && !IsOpen(t);
      }
    }
  }

  /** Cleaning well-formed UTF-8 twice is cleaning it once; its strings are kept verbatim and no comment
      mark is left outside them. */
  lemma CleanTwice(s: Text)
    requires Utf8(s) && Clean(s, 0, false).Some?
    ensures var t := Clean(s, 0, false).value;
            && Clean(t, 0, false) == Some(t) && MarkFree(t, false) && Quoted(t, 0, false) == Quoted(s, 0, false)
  {
    Utf8Paired(s);
    CleanLeaves(s, 0, false);
    UnchangedIffMarkFree(Clean(s, 0, false).value, false);
  }

  // ----- when a second cleaning changes something

  /** Outside strings and comments, a copied 0xD8 is followed by nothing but comments up to a byte
      0x9B: the two halves of a mark, brought together by cleaning. `half` says that the last byte
      copied was such a 0xD8. */
  predicate Straddles(s: Text, depth: nat, inString: bool, half: bool)
    decreases |s|
  {
    if s == [] then false
    else if depth > 0 then
      if IsClose(s) then Straddles(s[3..], depth - 1, inString, half)
      else if IsOpen(s) then Straddles(s[3..], depth + 1, inString, half)
      else Straddles(s[1..], depth, inString, half)
    else if inString then Straddles(s[1..], 0, s[0] != QUOTE, false)
    else if s[0] == QUOTE then Straddles(s[1..], 0, true, false)
    else if IsOpen(s) then Straddles(s[3..], 1, false, half)
    else if IsSemi(s) then Straddles(FromLineEnd(s[2..]), 0, false, half)
    else (half && s[0] == 0x9B) || Straddles(s[1..], 0, false, s[0] == 0xD8)
  }

  /** What cleaning leaves, from anywhere in the text, has a mark of its own or completes one begun
      before it, if and only if the text straddles one. */
  lemma {:induction false} MarkLeft(s: Text, depth: nat, inString: bool, half: bool)
    requires Clean(s, depth, inString).Some? && (depth > 0 ==> !inString) && (half ==> !inString)
    ensures var t := Clean(s, depth, inString).value;
      Straddles(s, depth, inString, half) <==> !MarkFree(t, inString) || (half && t != [] && t[0] == 0x9B)
    decreases |s|
  {
    if s != [] {
      var t := Clean(s, depth, inString).value;
      if depth > 0 {
        MarkLeft(if IsClose(s) || IsOpen(s) then s[3..] else s[1..],
          if IsClose(s) then depth - 1 else if IsOpen(s) then depth + 1 else depth, inString, half);
      } else if inString {
        MarkLeft(s[1..], 0, s[0] != QUOTE, false);
        assert t[1..] == Clean(s[1..], 0, s[0] != QUOTE).value;
      } else if s[0] == QUOTE {
        MarkLeft(s[1..], 0, true, false);
        assert t[1..] == Clean(s[1..], 0, true).value;
      } else if IsOpen(s) {
        MarkLeft(s[3..], 1, false, half);
      } else if IsSemi(s) {
        MarkLeft(FromLineEnd(s[2..]), 0, false, half);
      } else {
        MarkLeft(s[1..], 0, false, s[0] == 0xD8);
        assert t[1..] == Clean(s[1..], 0, false).value;
      }
    }
  }

  /** Cleaning twice is cleaning once if and only if the text straddles no mark: no copied 0xD8 and
      copied 0x9B with only comments between them. */
  lemma TwiceExact(s: Text)
    requires Clean(s, 0, false).Some?
    ensures var t := Clean(s, 0, false).value;
      Clean(t, 0, false) == Some(t) <==> !Straddles(s, 0, false, false)
  {
    MarkLeft(s, 0, false, false);
    UnchangedIffMarkFree(Clean(s, 0, false).value, false);
  }

  /** On bytes that are not UTF-8 a comment can hide between the two halves of a mark: cleaning again
      then removes more. */
  lemma NotOnAllBytes()
    ensures var s: Text := [0xD8, 0xD8, 0x9B, 0x2A, 0x2A, 0xD8, 0x9B, 0x9B];
            && !Utf8(s) && Clean(s, 0, false) == Some([0xD8, 0x9B]) && Clean([0xD8, 0x9B], 0, false) == Some([])
  {
    var s: Text := [0xD8, 0xD8, 0x9B, 0x2A, 0x2A, 0xD8, 0x9B, 0x9B];
    var a, b, c: Text := s[1..], [0x2A, 0xD8, 0x9B, 0x9B], [0x9B];
    assert a == [0xD8, 0x9B, 0x2A, 0x2A, 0xD8, 0x9B, 0x9B] && a[3..] == b && b[3..] == c && c[1..] == [];
    CleanStep(c, 0, false);
    var e: Text := [];
    assert Clean(e, 0, false) == Some(e) && c[1..] == e && [c[0]] + e == c;
    assert Clean(c, 0, false) == Some(c);
    CleanStep(b, 1, false);
    CleanStep(a, 0, false);
    CleanStep(s, 0, false);
    var t: Text := [0xD8, 0x9B];
    assert [s[0]] + c == t;
    assert t[2..] == [] && FromLineEnd(t[2..]) == [];
    CleanStep(t, 0, false);
  }
}
