/** The end of a function: its returns directed to the epilogue, its names placed after it, and --
    for relocatable code -- its helper addresses written by the loader. */
module Finishing {
  import opened Options
  import opened Values
  import opened Language
  import opened MachineCode
  import opened CodeGen
  import opened Backpatch
  import opened JitBuffers

  // ----- waiting jumps of a block are its breaks and continues

  function Counted(t: Target, breaks: nat, continues: nat): nat {
    match t case LoopEnd => breaks case LoopStart => continues case _ => 0
  }

  lemma {:induction false} JumpsMiddle(a: Code, b: Code, at: int, t: Target)
    ensures Jumps(Fields(a + b, at), t) == Jumps(Fields(a, at), t) + Jumps(Fields(b, at + Size(a)), t)
  {
    hide Jumps, Fields;
    FieldsApp(a, b, at);
    JumpsApp(Fields(a, at), Fields(b, at + Size(a)), t);
  }

  lemma JumpCount(x: Item, at: int, t: Target)
    requires x.JmpTo? || x.JeTo?
    ensures Jumps(Fields([x], at), t) == if x.t == t then [FieldsOf(x, at)[0].off] else []
  {
    OneItem(x, at);
    OneField(FieldsOf(x, at)[0], t);
    assert FieldsOf(x, at) == [FieldsOf(x, at)[0]];
  }

  lemma PlainCount(x: Item, at: int, t: Target)
    requires !x.JmpTo? && !x.JeTo?
    ensures Jumps(Fields([x], at), t) == []
  {
    NoJumpsNone([x], at, t);
  }

  /** The code of a statement leaves as many jumps waiting for the enclosing loop's end and start as
      the statement has breaks and continues of that loop. */
  lemma {:induction false} JumpsCounted(cpu: Cpu, st: Stmt, pos: int, at: int, t: Target)
    requires t == LoopEnd || t == LoopStart
    ensures |Jumps(Fields(GenS(cpu, st, pos), at), t)| == Counted(t, BreaksIn(st), ContinuesIn(st))
    decreases st, 1
  {
    hide GenS, Jumps, Fields, BreaksIn, ContinuesIn;
    match st
    case If(c, thn) => IfCounted(cpu, c, thn, pos, at, t);
    case IfElse(c, thn, els) => IfElseCounted(cpu, c, thn, els, pos, at, t);
    case Loop(body) => WholeLoopCounted(cpu, body, pos, at, t);
    case Assign(n, e) => AssignCounted(cpu, n, e, pos, at, t);
    case DeclareS(n, ty, e) => DeclareCounted(cpu, n, ty, e, pos, at, t);
    case _ => LeafCounted(cpu, st, pos, at, t);
  }

  lemma LeafCounted(cpu: Cpu, st: Stmt, pos: int, at: int, t: Target)
    requires t == LoopEnd || t == LoopStart
    requires st.Skip? || st.ExprS? || st.Break? || st.Continue? || st.Return? || st.ReturnVoid?
    ensures |Jumps(Fields(GenS(cpu, st, pos), at), t)| == Counted(t, BreaksIn(st), ContinuesIn(st))
  {
    hide GenE, Jumps, Fields, CountBreaks, CountContinues;
    match st
    case Skip => NoFieldsAt(at); NoFields(t);
    case ExprS(e) => ExprJumps(cpu, e, 0, at, t);
    case Break => JumpCount(JmpTo(LoopEnd), at, t);
    case Continue => JumpCount(JmpTo(LoopStart), at, t);
    case Return(e) => ReturnCounted(cpu, e, at, t);
    case ReturnVoid => JumpCount(JmpTo(FunctionEnd), at, t);
  }

  lemma AssignCounted(cpu: Cpu, n: Name, e: Expr, pos: int, at: int, t: Target)
    requires t == LoopEnd || t == LoopStart
    ensures |Jumps(Fields(GenS(cpu, Assign(n, e), pos), at), t)| == Counted(t, BreaksIn(Assign(n, e)), ContinuesIn(Assign(n, e)))
  {
    hide GenE, Jumps, Fields, CountBreaks, CountContinues;
    TailCounted(cpu, e, [Op(StoreSlot(0)), LeaName(n), Op(LoadSlot(0)), CallSym(TraceFromRegs), CallSym(SetVariable), Op(LoadSlot(0))], at, t);
  }

  lemma DeclareCounted(cpu: Cpu, n: Name, ty: Ty, e: Expr, pos: int, at: int, t: Target)
    requires t == LoopEnd || t == LoopStart
    ensures |Jumps(Fields(GenS(cpu, DeclareS(n, ty, e), pos), at), t)|
         == Counted(t, BreaksIn(DeclareS(n, ty, e)), ContinuesIn(DeclareS(n, ty, e)))
  {
    hide GenE, Jumps, Fields, CountBreaks, CountContinues;
    TailCounted(cpu, e, [Op(StoreSlot(0)), Op(LoadSlot(0)), CallSym(TraceFromRegs), LeaName(n), Op(MovEsi(TyCode(ty))), CallSym(DeclareVariable), LoadTrace], at, t);
  }

  lemma {:induction false} IfCounted(cpu: Cpu, c: Expr, thn: Block, pos: int, at: int, t: Target)
    requires t == LoopEnd || t == LoopStart
    ensures |Jumps(Fields(GenS(cpu, If(c, thn), pos), at), t)| == Counted(t, BreaksIn(If(c, thn)), ContinuesIn(If(c, thn)))
    decreases If(c, thn), 0
  {
    hide GenE, GenB, Jumps, Fields, CountBreaks, CountContinues;
    var p := pos + Size(GenE(cpu, c, 0)) + 14;
    var body := GenB(cpu, thn, p);
    HeadCounted(cpu, c, p + Size(body), body, at, t);
    JumpsCountedB(cpu, thn, p, at + Size(GenE(cpu, c, 0)) + 14, t);
  }

  lemma WholeLoopCounted(cpu: Cpu, body: Block, pos: int, at: int, t: Target)
    requires t == LoopEnd || t == LoopStart
    ensures |Jumps(Fields(GenS(cpu, Loop(body), pos), at), t)| == Counted(t, BreaksIn(Loop(body)), ContinuesIn(Loop(body)))
  {
    hide GenB, Jumps, Fields, Settle, CountBreaks, CountContinues;
    var inner := GenB(cpu, body, pos) + [JmpTo(At(pos))];
    LoopCounted(inner, pos + Size(GenB(cpu, body, pos)) + 5, pos, at, t);
  }

  lemma TailCounted(cpu: Cpu, e: Expr, tail: Code, at: int, t: Target)
    requires Jumpless(tail)
    ensures Jumps(Fields(GenE(cpu, e, 0) + tail, at), t) == []
  {
    hide GenE, Jumps, Fields;
    JumpsMiddle(GenE(cpu, e, 0), tail, at, t);
    ExprJumps(cpu, e, 0, at, t);
    NoJumpsNone(tail, at + Size(GenE(cpu, e, 0)), t);
  }

  lemma LoopCounted(c: Code, end: int, start: int, at: int, t: Target)
    requires t == LoopEnd || t == LoopStart
    ensures Jumps(Fields(Settle(Settle(c, LoopEnd, end), LoopStart, start), at), t) == []
  {
    hide Jumps, Fields, Settle;
    SettleFields(c, LoopEnd, end, at, t);
    SettleFields(Settle(c, LoopEnd, end), LoopStart, start, at, t);
  }

  lemma ReturnCounted(cpu: Cpu, e: Expr, at: int, t: Target)
    requires t == LoopEnd || t == LoopStart
    ensures Jumps(Fields(GenE(cpu, e, 0) + [CallSym(ReturnFromRegs), JmpTo(FunctionEnd)], at), t) == []
  {
    hide GenE, Jumps, Fields;
    var call: Code, jump: Code := [CallSym(ReturnFromRegs)], [JmpTo(FunctionEnd)];
    var at2 := at + Size(GenE(cpu, e, 0));
    assert [CallSym(ReturnFromRegs), JmpTo(FunctionEnd)] == call + jump;
    JumpsMiddle(GenE(cpu, e, 0), call + jump, at, t);
    ExprJumps(cpu, e, 0, at, t);
    JumpsMiddle(call, jump, at2, t);
    NoJumpsNone(call, at2, t);
    JumpCount(jump[0], at2 + Size(call), t);
  }

  lemma NoFieldsAt(at: int)
    ensures Fields([], at) == []
  {
  }

  /** A condition's test adds no waiting jump. */
  lemma HeadCounted(cpu: Cpu, c: Expr, target: int, rest: Code, at: int, t: Target)
    requires !t.At?
    ensures Jumps(Fields(GenE(cpu, c, 0) + [Op(TestZero), JeTo(At(target))] + rest, at), t)
         == Jumps(Fields(rest, at + Size(GenE(cpu, c, 0)) + 14), t)
  {
    hide GenE, Jumps, Fields;
    var head := GenE(cpu, c, 0);
    var test: Code, je: Code := [Op(TestZero)], [JeTo(At(target))];
    var at2 := at + Size(head);
    assert head + [Op(TestZero), JeTo(At(target))] + rest == head + (test + (je + rest));
    assert Size(test) == 8 && Size(je) == 6 by { assert test[1..] == [] && je[1..] == []; }
    JumpsMiddle(head, test + (je + rest), at, t);
    ExprJumps(cpu, c, 0, at, t);
    JumpsMiddle(test, je + rest, at2, t);
    PlainCount(test[0], at2, t);
    JumpsMiddle(je, rest, at2 + 8, t);
    JumpCount(je[0], at2 + 8, t);
  }

  lemma {:induction false} IfElseCounted(cpu: Cpu, c: Expr, thn: Block, els: Block, pos: int, at: int, t: Target)
    requires t == LoopEnd || t == LoopStart
    ensures |Jumps(Fields(GenS(cpu, IfElse(c, thn, els), pos), at), t)|
         == Counted(t, BreaksIn(IfElse(c, thn, els)), ContinuesIn(IfElse(c, thn, els)))
    decreases IfElse(c, thn, els), 0
  {
    hide GenE, GenB, GenS, Jumps, Fields, CountBreaks, CountContinues, Size;
    IfElseCode(cpu, c, thn, els, pos);
    var head := GenE(cpu, c, 0);
    var p := pos + Size(head) + 14;
    var body := GenB(cpu, thn, p);
    var q := p + Size(body) + 5;
    var other := GenB(cpu, els, q);
    var test: Code, jump: Code := [Op(TestZero), JeTo(At(q))], [JmpTo(At(q + Size(other)))];
    Nested(head, test, body, jump, other);
    var at2 := at + Size(head) + 14;
    JumpSize(q + Size(other));
    HeadCounted(cpu, c, q, body + (jump + other), at, t);
    JumpsMiddle(body, jump + other, at2, t);
    JumpsMiddle(jump, other, at2 + Size(body), t);
    JumpCount(jump[0], at2 + Size(body), t);
    JumpsCountedB(cpu, thn, p, at2, t);
    JumpsCountedB(cpu, els, q, at2 + Size(body) + 5, t);
  }

  lemma {:induction false} JumpsCountedB(cpu: Cpu, b: Block, pos: int, at: int, t: Target)
    requires t == LoopEnd || t == LoopStart
    ensures |Jumps(Fields(GenB(cpu, b, pos), at), t)| == Counted(t, CountBreaks(b), CountContinues(b))
    decreases b, 0
  {
    hide GenS, Jumps, Fields, BreaksIn, ContinuesIn;
    match b
    case Nil => NoFieldsAt(at); NoFields(t);
    case Cons(hd, tl) =>
      var first := GenS(cpu, hd, pos);
      JumpsMiddle(first, GenB(cpu, tl, pos + Size(first)), at, t);
      JumpsCounted(cpu, hd, pos, at, t);
      JumpsCountedB(cpu, tl, pos + Size(first), at + Size(first), t);
  }

  lemma {:induction false} NoLooseS(st: Stmt)
    requires AcceptsS(st, 0)
    ensures BreaksIn(st) == 0 && ContinuesIn(st) == 0
    decreases st, 1
  {
    match st
    case If(_, t) => NoLoose(t);
    case IfElse(_, t, e) => NoLoose(t); NoLoose(e);
    case _ =>
  }

  /** Outside every loop the compiler accepts no break and no continue. */
  lemma {:induction false} NoLoose(b: Block)
    requires AcceptsB(b, 0)
    ensures CountBreaks(b) == 0 && CountContinues(b) == 0
    decreases b, 0
  {
    match b
    case Nil =>
    case Cons(hd, tl) => NoLooseS(hd); NoLoose(tl);
  }

  // ----- finishing

  lemma {:induction false} NothingWaits(c: Code, at: int, na: int, k: Known, e: int, s: int)
    requires Jumps(Fields(c, at), LoopEnd) == [] && Jumps(Fields(c, at), LoopStart) == []
    ensures Holes(c, at, na, k) == Holes(c, at, na, k.(loopEnd := Some(e), loopStart := Some(s)))
    decreases |c|
  {
    hide Enc, Jumps, FieldsOf, HoleInstr;
    if c != [] {
      var at2 := at + ItemLen(c[0]);
      JumpsApp(FieldsOf(c[0], at), Fields(c[1..], at2), LoopEnd);
      JumpsApp(FieldsOf(c[0], at), Fields(c[1..], at2), LoopStart);
      ItemSettled(c[0], at, na, k, e, s);
      NothingWaits(c[1..], at2, na + NameLen(c[0]), k, e, s);
    }
  }

  lemma ItemSettled(x: Item, at: int, na: int, k: Known, e: int, s: int)
    requires Jumps(FieldsOf(x, at), LoopEnd) == [] && Jumps(FieldsOf(x, at), LoopStart) == []
    ensures HoleInstr(x, at, na, k) == HoleInstr(x, at, na, k.(loopEnd := Some(e), loopStart := Some(s)))
  {
  }

  ghost predicate RefsOk(refs: seq<NameRef>) { forall i :: 0 <= i < |refs| ==> NameOk(refs[i].name) }

  /** The names, one NUL-terminated copy after another. */
  ghost function Copies(refs: seq<NameRef>): Bytes
    requires RefsOk(refs)
  {
    if refs == [] then [] else Copies(refs[..|refs| - 1]) + NameBytes(refs[|refs| - 1].name)
  }

  lemma {:induction false} CopiesFront(refs: seq<NameRef>)
    requires refs != [] && RefsOk(refs)
    ensures Copies(refs) == NameBytes(refs[0].name) + Copies(refs[1..])
    decreases |refs|
  {
    hide NameOk, NameBytes;
    var n := |refs| - 1;
    if n > 0 {
      var tail := refs[1..];
      CopiesFront(refs[..n]);
      assert refs[..n][1..] == tail[..n - 1] && tail[n - 1] == refs[n] && refs[..n][0] == refs[0];
      assert Copies(tail) == Copies(tail[..n - 1]) + NameBytes(refs[n].name);
    } else {
      assert Copies(refs[..0]) == [] && Copies(refs[1..]) == [];
    }
  }

  lemma {:induction false} CopiesAreBlob(c: Code, at: int)
    requires NamesOk(c)
    ensures RefsOk(Names(Fields(c, at)))
    ensures Copies(Names(Fields(c, at))) == Blob(c)
    decreases |c|
  {
    hide NameOk, NameBytes, Copies, Names, Fields;
    if c == [] {
      NoFieldsAt(at);
      NoFields(LoopEnd);
      assert Copies([]) == [] by { NoCopies(); }
    } else {
      var at2 := at + ItemLen(c[0]);
      assert Fields(c, at) == FieldsOf(c[0], at) + Fields(c[1..], at2) by { FieldsOpened(c, at); }
      var rest := Names(Fields(c[1..], at2));
      Backpatch.NamesApp(FieldsOf(c[0], at), Fields(c[1..], at2));
      CopiesAreBlob(c[1..], at2);
      ItemName(c[0], at);
      if c[0].LeaName? {
        var refs := [NameRef(at + 3, c[0].n)] + rest;
        assert refs[1..] == rest;
        CopiesFront(refs);
      } else {
        assert [] + rest == rest;
      }
    }
  }

  lemma FieldsOpened(c: Code, at: int)
    requires c != []
    ensures Fields(c, at) == FieldsOf(c[0], at) + Fields(c[1..], at + ItemLen(c[0]))
  {
  }

  lemma NoCopies()
    ensures Copies([]) == []
  {
  }

  lemma ItemName(x: Item, at: int)
    ensures Names(FieldsOf(x, at)) == if x.LeaName? then [NameRef(at + 3, x.n)] else []
  {
    NoFields(LoopEnd);
    if FieldsOf(x, at) != [] {
      OneField(FieldsOf(x, at)[0], LoopEnd);
      assert FieldsOf(x, at) == [FieldsOf(x, at)[0]];
    }
  }

  lemma ReturnsDirected(mode: Mode, c: Code)
    ensures var raw := Enc(Prologue) + Blank(mode, c, PROLOGUE_LEN) + Enc(Epilogue);
            var end := PROLOGUE_LEN + Size(c);
            var pr := JumpPatches(Jumps(Fields(c, PROLOGUE_LEN), FunctionEnd), end);
            var k := After(Nothing(AddressIn(mode)), Settling(FunctionEnd, end));
            && |raw| == NamesStart(c) && AllWithin(pr, |raw|)
            && PatchAll(raw, pr) == Enc(Prologue) + Holes(c, PROLOGUE_LEN, NamesStart(c), k) + Enc(Epilogue)
  {
    hide Holes, Fields, Jumps, PatchAll, AllWithin, JumpPatches, Enc, Size, After;
    var na, end := NamesStart(c), PROLOGUE_LEN + Size(c);
    var k := Nothing(AddressIn(mode));
    EncLen(Prologue);
    EncLen(Epilogue);
    NamelessAnywhere(c, PROLOGUE_LEN, 0, na, k);
    HolesSize(c, PROLOGUE_LEN, na, k);
    JumpRound(Fields(c, PROLOGUE_LEN), na, FunctionEnd, end);
    RoundFills(Enc(Prologue), c, na, k, Settling(FunctionEnd, end), Enc(Epilogue));
  }

  lemma NamesPlaced(c: Code, k: Known)
    requires NamesOk(c)
    ensures var pre, post := Enc(Prologue), Enc(Epilogue);
            var raw := pre + Holes(c, PROLOGUE_LEN, NamesStart(c), k) + post + Blob(c);
            var pn := NamePatches(Names(Fields(c, PROLOGUE_LEN)), NamesStart(c));
            && |raw| == NamesStart(c) + BlobLen(c) && AllWithin(pn, |raw|)
            && PatchAll(raw, pn) == pre + Holes(c, PROLOGUE_LEN, NamesStart(c), After(k, Naming)) + post + Blob(c)
  {
    hide Holes, Fields, Names, PatchAll, AllWithin, NamePatches, Enc, Size, After, Blob, NamesOk;
    var na := NamesStart(c);
    var pre, post := Enc(Prologue), Enc(Epilogue);
    EncLen(Prologue);
    EncLen(Epilogue);
    BlobSize(c);
    HolesSize(c, PROLOGUE_LEN, na, k);
    NameRound(Fields(c, PROLOGUE_LEN), na);
    RoundFills(pre, c, na, k, Naming, post + Blob(c));
    Regroup(pre, Holes(c, PROLOGUE_LEN, na, k), post, Blob(c));
    Reassociate(pre + Holes(c, PROLOGUE_LEN, na, k), post, Blob(c));
    Reassociate(pre + Holes(c, PROLOGUE_LEN, na, After(k, Naming)), post, Blob(c));
  }

  lemma Reassociate(a: Bytes, b: Bytes, c: Bytes)
    ensures a + (b + c) == a + b + c
  {
  }

  /** Directing the returns of c to the end of its code, appending its names and directing the
      references to them turns raw into out. */
  ghost predicate Finishes(raw: Bytes, c: Code, fs: seq<Field>, out: Bytes)
    requires NamesOk(c)
  {
    var pr := JumpPatches(Jumps(fs, FunctionEnd), PROLOGUE_LEN + Size(c));
    var pn := NamePatches(Names(fs), |raw|);
    && |raw| == NamesStart(c) && AllWithin(pr, |raw|) && AllWithin(pn, |raw| + BlobLen(c))
    && |PatchAll(raw, pr) + Blob(c)| == |raw| + BlobLen(c)
    && PatchAll(PatchAll(raw, pr) + Blob(c), pn) == out
  }

  /** Code emitted with holes, its returns directed, its names appended and its name references
      written is exactly the function's code as defined in one piece. */
  lemma FinishExact(mode: Mode, cpu: Cpu, b: Block)
    requires AcceptsB(b, 0) && NamesOk(Body(cpu, b))
    ensures Finishes(Enc(Prologue) + Blank(mode, Body(cpu, b), PROLOGUE_LEN) + Enc(Epilogue),
                     Body(cpu, b), Fields(Body(cpu, b), PROLOGUE_LEN), FunctionBytes(cpu, b, AddressIn(mode)))
  {
    hide Holes, Blank, Fields, Jumps, Names, PatchAll, AllWithin, JumpPatches, NamePatches, Enc, GenB, Blob, NamesOk, Size;
    var c := Body(cpu, b);
    var k := After(Nothing(AddressIn(mode)), Settling(FunctionEnd, PROLOGUE_LEN + Size(c)));
    ReturnsDirected(mode, c);
    NamesPlaced(c, k);
    JumpsCountedB(cpu, b, PROLOGUE_LEN, PROLOGUE_LEN, LoopEnd);
    JumpsCountedB(cpu, b, PROLOGUE_LEN, PROLOGUE_LEN, LoopStart);
    NoLoose(b);
    NothingWaits(c, PROLOGUE_LEN, NamesStart(c), After(k, Naming), 0, 0);
    NoHoles(c, PROLOGUE_LEN, NamesStart(c), FunctionEnds(c), AddressIn(mode));
  }

  // ----- every displacement reaches what it stands for

  predicate TargetInside(x: Item, lo: int, hi: int) {
    (x.JmpTo? || x.JeTo?) && x.t.At? ==> lo <= x.t.pos <= hi
  }

  ghost predicate TargetsInside(c: Code, lo: int, hi: int) {
    forall k :: 0 <= k < |c| ==> TargetInside(c[k], lo, hi)
  }

  lemma TargetsApp(a: Code, b: Code, lo: int, mid: int, hi: int)
    requires TargetsInside(a, lo, mid) && mid <= hi && TargetsInside(b, mid, hi) && lo <= mid
    ensures TargetsInside(a + b, lo, hi)
  {
    forall k | 0 <= k < |a + b| ensures TargetInside((a + b)[k], lo, hi) {
      if k < |a| {
        assert TargetInside(a[k], lo, mid);
      } else {
        assert TargetInside(b[k - |a|], mid, hi);
      }
    }
  }

  lemma JumplessInside(c: Code, lo: int, hi: int)
    requires Jumpless(c)
    ensures TargetsInside(c, lo, hi)
  {
  }

  /** A statement's settled jumps stay within the statement's own code. */
  lemma {:induction false} StmtTargets(cpu: Cpu, st: Stmt, pos: int)
    ensures TargetsInside(GenS(cpu, st, pos), pos, pos + Size(GenS(cpu, st, pos)))
    decreases st, 1
  {
    hide GenE, GenB, Size, TargetsInside, Settle;
    match st
    case Skip => JumplessInside([], pos, pos + Size([]));
    case ExprS(e) => ExprNoJumps(cpu, e, 0); JumplessInside(GenE(cpu, e, 0), pos, pos + Size(GenE(cpu, e, 0)));
    case Assign(n, e) =>
      TailTargets(cpu, e, [Op(StoreSlot(0)), LeaName(n), Op(LoadSlot(0)), CallSym(TraceFromRegs), CallSym(SetVariable), Op(LoadSlot(0))], pos);
    case DeclareS(n, t, e) =>
      TailTargets(cpu, e, [Op(StoreSlot(0)), Op(LoadSlot(0)), CallSym(TraceFromRegs), LeaName(n), Op(MovEsi(TyCode(t))), CallSym(DeclareVariable), LoadTrace], pos);
    case If(c, thn) => IfTargets(cpu, c, thn, pos);
    case IfElse(c, thn, els) => IfElseTargets(cpu, c, thn, els, pos);
    case Loop(body) => LoopTargets(cpu, body, pos);
    case Break => FreeTarget([JmpTo(LoopEnd)], pos);
    case Continue => FreeTarget([JmpTo(LoopStart)], pos);
    case Return(e) =>
      TailTargets(cpu, e, [CallSym(ReturnFromRegs), JmpTo(FunctionEnd)], pos);
    case ReturnVoid => FreeTarget([JmpTo(FunctionEnd)], pos);
  }

  lemma FreeTarget(c: Code, pos: int)
    requires forall k :: 0 <= k < |c| ==> c[k].JmpTo? ==> !c[k].t.At?
    requires forall k :: 0 <= k < |c| ==> !c[k].JeTo?
    ensures TargetsInside(c, pos, pos + Size(c))
  {
  }

  lemma TailTargets(cpu: Cpu, e: Expr, tail: Code, pos: int)
    requires forall k :: 0 <= k < |tail| ==> tail[k].JmpTo? ==> !tail[k].t.At?
    requires forall k :: 0 <= k < |tail| ==> !tail[k].JeTo?
    ensures TargetsInside(GenE(cpu, e, 0) + tail, pos, pos + Size(GenE(cpu, e, 0) + tail))
  {
    hide GenE, Size, TargetsInside;
    var p := pos + Size(GenE(cpu, e, 0));
    ExprNoJumps(cpu, e, 0);
    JumplessInside(GenE(cpu, e, 0), pos, p);
    FreeTarget(tail, p);
    SizeApp(GenE(cpu, e, 0), tail);
    TargetsApp(GenE(cpu, e, 0), tail, pos, p, p + Size(tail));
  }

  lemma {:induction false} IfTargets(cpu: Cpu, c: Expr, thn: Block, pos: int)
    ensures TargetsInside(GenS(cpu, If(c, thn), pos), pos, pos + Size(GenS(cpu, If(c, thn), pos)))
    decreases If(c, thn), 0
  {
    hide GenE, GenB, TargetsInside;
    var head := GenE(cpu, c, 0);
    var p := pos + Size(head) + 14;
    var body := GenB(cpu, thn, p);
    var end := p + Size(body);
    HeadTargets(cpu, c, end, pos, end, body);
    BlockTargets(cpu, thn, p);
    TargetsWiden(body, p, end, pos, end);
    SplitTargets(head + [Op(TestZero), JeTo(At(end))], body, pos, end);
  }

  lemma TargetsWiden(c: Code, lo: int, hi: int, lo2: int, hi2: int)
    requires TargetsInside(c, lo, hi) && lo2 <= lo && hi <= hi2
    ensures TargetsInside(c, lo2, hi2)
  {
    forall k | 0 <= k < |c| ensures TargetInside(c[k], lo2, hi2) {
      assert TargetInside(c[k], lo, hi);
    }
  }

  lemma SplitTargets(a: Code, b: Code, lo: int, hi: int)
    requires TargetsInside(a, lo, hi) && TargetsInside(b, lo, hi)
    ensures TargetsInside(a + b, lo, hi)
  {
    forall k | 0 <= k < |a + b| ensures TargetInside((a + b)[k], lo, hi) {
      assert if k < |a| then TargetInside(a[k], lo, hi) else TargetInside(b[k - |a|], lo, hi);
    }
  }

  lemma HeadTargets(cpu: Cpu, c: Expr, target: int, lo: int, hi: int, body: Code)
    requires lo <= target <= hi
    ensures TargetsInside(GenE(cpu, c, 0) + [Op(TestZero), JeTo(At(target))], lo, hi)
    ensures Size(GenE(cpu, c, 0) + [Op(TestZero), JeTo(At(target))] + body) == Size(GenE(cpu, c, 0)) + 14 + Size(body)
  {
    hide GenE;
    var test: Code := [Op(TestZero), JeTo(At(target))];
    ExprNoJumps(cpu, c, 0);
    JumplessInside(GenE(cpu, c, 0), lo, hi);
    SplitTargets(GenE(cpu, c, 0), test, lo, hi);
    SizeApp(GenE(cpu, c, 0), test);
    SizeApp(GenE(cpu, c, 0) + test, body);
    assert test[1..] == [JeTo(At(target))] && test[1..][1..] == [];
    assert Size(test[1..]) == 6;
  }

  lemma JumpSize(p: int)
    ensures Size([JmpTo(At(p))]) == 5
  {
    assert [JmpTo(At(p))][1..] == [];
  }

  lemma {:induction false} IfElseTargets(cpu: Cpu, c: Expr, thn: Block, els: Block, pos: int)
    ensures TargetsInside(GenS(cpu, IfElse(c, thn, els), pos), pos, pos + Size(GenS(cpu, IfElse(c, thn, els), pos)))
    decreases IfElse(c, thn, els), 0
  {
    hide GenE, GenB, GenS, TargetsInside, Size;
    IfElseCode(cpu, c, thn, els, pos);
    var head := GenE(cpu, c, 0);
    var p := pos + Size(head) + 14;
    var body := GenB(cpu, thn, p);
    var q := p + Size(body) + 5;
    var other := GenB(cpu, els, q);
    var end := q + Size(other);
    var test: Code, jump: Code := [Op(TestZero), JeTo(At(q))], [JmpTo(At(end))];
    HeadTargets(cpu, c, q, pos, end, body + jump + other);
    BlockTargets(cpu, thn, p);
    BlockTargets(cpu, els, q);
    TargetsWiden(body, p, p + Size(body), pos, end);
    TargetsWiden(other, q, end, pos, end);
    assert TargetsInside(jump, pos, end) by { OneTarget(JmpTo(At(end)), pos, end); }
    SplitTargets(head + test, body, pos, end);
    SplitTargets(head + test + body, jump, pos, end);
    SplitTargets(head + test + body + jump, other, pos, end);
    SizeApp(body + jump, other);
    SizeApp(body, jump);
    JumpSize(end);
    Appended(head + test, body, jump, other);
  }

  lemma OneTarget(x: Item, lo: int, hi: int)
    requires TargetInside(x, lo, hi)
    ensures TargetsInside([x], lo, hi)
  {
  }

  lemma {:induction false} LoopTargets(cpu: Cpu, body: Block, pos: int)
    ensures TargetsInside(GenS(cpu, Loop(body), pos), pos, pos + Size(GenS(cpu, Loop(body), pos)))
    decreases Loop(body), 0
  {
    hide GenB, TargetsInside, Settle;
    var inner := GenB(cpu, body, pos);
    var c := inner + [JmpTo(At(pos))];
    var end := pos + Size(inner) + 5;
    BlockTargets(cpu, body, pos);
    TargetsWiden(inner, pos, pos + Size(inner), pos, end);
    OneTarget(JmpTo(At(pos)), pos, end);
    SplitTargets(inner, [JmpTo(At(pos))], pos, end);
    SizeApp(inner, [JmpTo(At(pos))]);
    assert [JmpTo(At(pos))][1..] == [];
    SettleTargets(c, LoopEnd, end, pos, end);
    SettleTargets(Settle(c, LoopEnd, end), LoopStart, pos, pos, end);
    SettleSize(c, LoopEnd, end);
    SettleSize(Settle(c, LoopEnd, end), LoopStart, pos);
  }

  lemma SettleTargets(c: Code, t: Target, p: int, lo: int, hi: int)
    requires TargetsInside(c, lo, hi) && lo <= p <= hi
    ensures TargetsInside(Settle(c, t, p), lo, hi)
  {
    forall k | 0 <= k < |c| ensures TargetInside(Settle(c, t, p)[k], lo, hi) {
      assert TargetInside(c[k], lo, hi);
    }
  }

  lemma {:induction false} BlockTargets(cpu: Cpu, b: Block, pos: int)
    ensures TargetsInside(GenB(cpu, b, pos), pos, pos + Size(GenB(cpu, b, pos)))
    decreases b, 0
  {
    hide GenS, TargetsInside;
    match b
    case Nil => JumplessInside([], pos, pos);
    case Cons(hd, tl) =>
      var first := GenS(cpu, hd, pos);
      var mid := pos + Size(first);
      StmtTargets(cpu, hd, pos);
      BlockTargets(cpu, tl, mid);
      SizeApp(first, GenB(cpu, tl, mid));
      TargetsApp(first, GenB(cpu, tl, mid), pos, mid, mid + Size(GenB(cpu, tl, mid)));
  }

  /** In a finished function every jump displacement, read as a signed little-endian number and
      added to the address after it, gives the jump's target, inside the function; and every name
      reference points at a NUL-terminated copy of its name. */
  lemma DisplacementsExact(cpu: Cpu, b: Block, addr: Symbol -> nat, k: nat)
    requires NamesOk(Body(cpu, b)) && |FunctionBytes(cpu, b, addr)| < 0x8000_0000 && k < |Body(cpu, b)|
    ensures var c, code := Body(cpu, b), FunctionBytes(cpu, b, addr);
            var at := PROLOGUE_LEN + Size(c[..k]);
            && (c[k].JmpTo? && (c[k].t.At? || c[k].t == FunctionEnd) ==>
                  at + 5 + S32(code, at + 1) == Settled(c[k].t, FunctionEnds(c)) && PROLOGUE_LEN <= at + 5 + S32(code, at + 1) <= PROLOGUE_LEN + Size(c))
            && (c[k].JeTo? && c[k].t.At? ==>
                  at + 6 + S32(code, at + 2) == c[k].t.pos && PROLOGUE_LEN <= c[k].t.pos <= PROLOGUE_LEN + Size(c))
            && (c[k].LeaName? ==> CStr(code, at + 7 + S32(code, at + 3)) == c[k].n)
  {
    hide GenB, Enc, Emit, Blob, Size, HasAt, S32, CStr, Le32, NameOk, TargetsInside, FunctionBytes;
    var c, code := Body(cpu, b), FunctionBytes(cpu, b, addr);
    var ends, na := FunctionEnds(c), NamesStart(c);
    var a, x, rest := c[..k], c[k], c[k + 1..];
    var at, nk := PROLOGUE_LEN + Size(a), na + BlobLen(a);
    assert c == a + ([x] + rest);
    Located(cpu, b, addr, a, x, rest);
    BlockTargets(cpu, b, PROLOGUE_LEN);
    assert TargetInside(c[k], PROLOGUE_LEN, PROLOGUE_LEN + Size(c)) by { TargetAt(c, k, PROLOGUE_LEN, PROLOGUE_LEN + Size(c)); }
    var i := Final(x, at, nk, ends, addr);
    match x
    case JmpTo(t) =>
      if t.At? || t == FunctionEnd {
        FieldOf(code, at, i);
      }
    case JeTo(t) =>
      if t.At? {
        FieldOf(code, at, i);
      }
    case LeaName(n) =>
      FieldOf(code, at, i);
      CStrRead(code, nk, n);
    case _ =>
  }

  lemma TargetAt(c: Code, k: nat, lo: int, hi: int)
    requires TargetsInside(c, lo, hi) && k < |c|
    ensures TargetInside(c[k], lo, hi)
  {
  }

  lemma FieldOf(code: Bytes, at: int, i: Instr)
    requires HasAt(code, at, Enc(i)) && Encodable(i)
    ensures i.Jmp? ==> S32(code, at + 1) == i.disp
    ensures i.Je? ==> S32(code, at + 2) == i.disp
    ensures i.LeaRdi? ==> S32(code, at + 3) == i.disp
  {
    hide Le32, HasAt, S32;
    match i
    case Jmp(d) => DecodeField(code, at, [0xE9], d);
    case Je(d) => DecodeField(code, at, [0x0F, 0x84], d);
    case LeaRdi(d) => DecodeField(code, at, [0x48, 0x8D, 0x3D], d);
    case _ =>
  }

  /** Where an item of the body and its name lie in the finished function. */
  lemma Located(cpu: Cpu, b: Block, addr: Symbol -> nat, a: Code, x: Item, rest: Code)
    requires NamesOk(Body(cpu, b)) && Body(cpu, b) == a + ([x] + rest)
    ensures var c, code := Body(cpu, b), FunctionBytes(cpu, b, addr);
            var at, nk := PROLOGUE_LEN + Size(a), NamesStart(c) + BlobLen(a);
            && HasAt(code, at, Enc(Final(x, at, nk, FunctionEnds(c), addr)))
            && (x.LeaName? ==> NameOk(x.n) && HasAt(code, nk, NameBytes(x.n)))
            && 0 <= at && at + ItemLen(x) <= PROLOGUE_LEN + Size(c) <= |code| && nk + NameLen(x) <= |code|
  {
    hide GenB, Enc, Emit, Blob, Size, HasAt, BlobLen;
    var c, code := Body(cpu, b), FunctionBytes(cpu, b, addr);
    var ends, na := FunctionEnds(c), NamesStart(c);
    var at, nk := PROLOGUE_LEN + Size(a), na + BlobLen(a);
    var body := Emit(c, PROLOGUE_LEN, na, ends, addr);
    EncLen(Prologue);
    EncLen(Epilogue);
    EmitSize(c, PROLOGUE_LEN, na, ends, addr);
    BlobSize(c);
    WholeAt(code);
    HasSplit(code, 0, Enc(Prologue) + body + Enc(Epilogue), Blob(c));
    HasSplit(code, 0, Enc(Prologue) + body, Enc(Epilogue));
    HasSplit(code, 0, Enc(Prologue), body);
    EmitApp(a, [x] + rest, PROLOGUE_LEN, na, ends, addr);
    EmitSize(a, PROLOGUE_LEN, na, ends, addr);
    var i := Enc(Final(x, at, nk, ends, addr));
    var tail := Emit(rest, at + ItemLen(x), nk + NameLen(x), ends, addr);
    HasSplit(code, PROLOGUE_LEN, Emit(a, PROLOGUE_LEN, na, ends, addr), Emit([x] + rest, at, nk, ends, addr));
    HeadEmitted(x, rest, at, nk, ends, addr);
    HasSplit(code, at, i, tail);
    SizeApp(a, [x] + rest);
    BlobLenApp(a, [x] + rest);
    if x.LeaName? {
      assert x == c[|a|];
      assert NamesOk(a) && NamesOk([x] + rest) by { NamesParts(a, [x] + rest); }
      BlobApp(a, [x] + rest);
      BlobSize(a);
      HasSplit(code, na, Blob(a), Blob([x] + rest));
      NameFirst(x, rest);
      HasSplit(code, nk, NameBytes(x.n), Blob(rest));
    }
  }

  lemma WholeAt(code: Bytes)
    ensures HasAt(code, 0, code)
  {
  }

  lemma NamesParts(a: Code, b: Code)
    requires NamesOk(a + b)
    ensures NamesOk(a) && NamesOk(b)
  {
    hide NameOk;
    assert forall k :: 0 <= k < |a| ==> a[k] == (a + b)[k];
    assert forall k :: 0 <= k < |b| ==> b[k] == (a + b)[|a| + k];
  }

  lemma NameFirst(x: Item, rest: Code)
    requires x.LeaName? && NamesOk([x] + rest)
    ensures NameOk(x.n) && NamesOk(rest) && Blob([x] + rest) == NameBytes(x.n) + Blob(rest)
  {
    hide NameOk, NameBytes;
    NamesParts([x], rest);
    assert ([x] + rest)[0] == x && ([x] + rest)[1..] == rest;
  }

  lemma HeadEmitted(x: Item, rest: Code, at: int, na: int, ends: Ends, addr: Symbol -> nat)
    ensures Emit([x] + rest, at, na, ends, addr) ==
            Enc(Final(x, at, na, ends, addr)) + Emit(rest, at + ItemLen(x), na + NameLen(x), ends, addr)
    ensures Size([x] + rest) == ItemLen(x) + Size(rest)
    ensures BlobLen([x] + rest) == NameLen(x) + BlobLen(rest)
  {
    hide Enc, Final;
    assert ([x] + rest)[1..] == rest;
  }

  // ----- the two emission modes agree

  /** The relocations remembered for a compiled body. */
  function BodyRelocs(cpu: Cpu, b: Block, addr: Symbol -> nat): seq<Reloc> {
    RelocsOf(Addresses(Fields(Body(cpu, b), PROLOGUE_LEN)), addr)
  }

  /** What the loader writes: for each relocation the 64-bit address of the symbol with that number. */
  function RelocPatches(relocs: seq<Reloc>, addr: Symbol -> nat): (r: seq<Patch>)
    ensures |r| == |relocs|
  {
    seq(|relocs|, i requires 0 <= i < |relocs| => Patch(relocs[i].off, Le64(addr(SymbolAt(relocs[i].id)))))
  }

  lemma {:induction false} OnlyModelled(cpu: Cpu, e: Expr, d: nat)
    ensures AllModelled(GenE(cpu, e, d))
    decreases e
  {
    hide IntLiteral;
    match e
    case Num(_) =>
    case Var(_) =>
    case Neg(o) => OnlyModelled(cpu, o, d);
    case Bin(op, l, r) =>
      OnlyModelled(cpu, l, d);
      OnlyModelled(cpu, r, d + 1);
      assert Modelled(HelperOf(op));
  }

  predicate AllModelled(c: Code) { forall k :: 0 <= k < |c| && c[k].CallSym? ==> Modelled(c[k].s) }

  lemma {:induction false} StmtModelled(cpu: Cpu, st: Stmt, pos: int)
    ensures AllModelled(GenS(cpu, st, pos))
    decreases st, 1
  {
    hide GenE, GenB;
    match st
    case ExprS(e) => OnlyModelled(cpu, e, 0);
    case Assign(_, e) => OnlyModelled(cpu, e, 0);
    case DeclareS(_, _, e) => OnlyModelled(cpu, e, 0);
    case If(c, thn) =>
      OnlyModelled(cpu, c, 0);
      BlockModelled(cpu, thn, pos + Size(GenE(cpu, c, 0)) + 14);
    case IfElse(c, thn, els) => IfElseModelled(cpu, c, thn, els, pos);
    case Loop(body) => BlockModelled(cpu, body, pos);
    case Return(e) => OnlyModelled(cpu, e, 0);
    case _ =>
  }

  lemma ModelledApp(a: Code, b: Code)
    requires AllModelled(a) && AllModelled(b)
    ensures AllModelled(a + b)
  {
  }

  lemma {:induction false} IfElseModelled(cpu: Cpu, c: Expr, thn: Block, els: Block, pos: int)
    ensures AllModelled(GenS(cpu, IfElse(c, thn, els), pos))
    decreases IfElse(c, thn, els), 0
  {
    hide GenE, GenB, GenS, AllModelled, Size;
    IfElseCode(cpu, c, thn, els, pos);
    var head := GenE(cpu, c, 0);
    var p := pos + Size(head) + 14;
    var body := GenB(cpu, thn, p);
    var q := p + Size(body) + 5;
    var other := GenB(cpu, els, q);
    OnlyModelled(cpu, c, 0);
    BlockModelled(cpu, thn, p);
    BlockModelled(cpu, els, q);
    var test: Code, jump: Code := [Op(TestZero), JeTo(At(q))], [JmpTo(At(q + Size(other)))];
    NoCalls(test);
    NoCalls(jump);
    ModelledApp(head, test);
    ModelledApp(head + test, body);
    ModelledApp(head + test + body, jump);
    ModelledApp(head + test + body + jump, other);
  }

  lemma NoCalls(c: Code)
    requires forall k :: 0 <= k < |c| ==> !c[k].CallSym?
    ensures AllModelled(c)
  {
  }

  lemma {:induction false} BlockModelled(cpu: Cpu, b: Block, pos: int)
    ensures AllModelled(GenB(cpu, b, pos))
    decreases b, 0
  {
    hide GenS;
    match b
    case Nil =>
    case Cons(hd, tl) =>
      StmtModelled(cpu, hd, pos);
      BlockModelled(cpu, tl, pos + Size(GenS(cpu, hd, pos)));
  }

  lemma {:induction false} AddressesModelled(c: Code, at: int)
    requires AllModelled(c)
    ensures forall i :: 0 <= i < |Addresses(Fields(c, at))| ==> Modelled(Addresses(Fields(c, at))[i].s)
    decreases |c|
  {
    hide FieldsOf, Addresses;
    NoFields(LoopEnd);
    if c != [] {
      var at2 := at + ItemLen(c[0]);
      assert c[0].CallSym? ==> Modelled(c[0].s);
      assert AllModelled(c[1..]);
      AddressesModelled(c[1..], at2);
      AddressesApp(FieldsOf(c[0], at), Fields(c[1..], at2));
      ItemAddress(c[0], at);
    }
  }

  lemma ItemAddress(x: Item, at: int)
    ensures |Addresses(FieldsOf(x, at))| <= 1
    ensures Addresses(FieldsOf(x, at)) != [] ==>
              Addresses(FieldsOf(x, at))[0].s == if x.CallSym? then x.s else TraceData
    ensures Addresses(FieldsOf(x, at)) != [] ==> x.CallSym? || x.LoadTrace?
  {
    NoFields(LoopEnd);
    if FieldsOf(x, at) != [] {
      OneField(FieldsOf(x, at)[0], LoopEnd);
      assert FieldsOf(x, at) == [FieldsOf(x, at)[0]];
    }
  }

  /** The relocations do not depend on where the helpers live while compiling: code compiled in one place
      can be loaded in another. */
  lemma RelocsPortable(cpu: Cpu, b: Block, here: Symbol -> nat, there: Symbol -> nat)
    requires AddrOk(here) && AddrOk(there)
    ensures BodyRelocs(cpu, b, here) == BodyRelocs(cpu, b, there)
  {
    hide Fields, Addresses, GenB, SymbolId, AddrOk, Modelled, AllModelled;
    BlockModelled(cpu, b, PROLOGUE_LEN);
    AddressesModelled(Body(cpu, b), PROLOGUE_LEN);
    var rs := Addresses(Fields(Body(cpu, b), PROLOGUE_LEN));
    forall i | 0 <= i < |rs| ensures SymbolId(here, here(rs[i].s)) == SymbolId(there, there(rs[i].s)) {
      SameSymbolId(here, there, rs[i].s);
    }
  }

  /** Writing the remembered relocations into relocatable code gives, byte for byte, the code that
      direct emission gives; and every relocation names a symbol the loader knows. */
  lemma RelocatedIsDirect(cpu: Cpu, b: Block, addr: Symbol -> nat)
    requires AddrOk(addr) && NamesOk(Body(cpu, b))
    ensures var code := FunctionBytes(cpu, b, NoAddress);
            var ps := RelocPatches(BodyRelocs(cpu, b, addr), addr);
            && AllWithin(ps, |code|)
            && PatchAll(code, ps) == FunctionBytes(cpu, b, addr)
    ensures forall r :: r in BodyRelocs(cpu, b, addr) ==> r.id < SYMBOL_COUNT
  {
    hide Holes, Fields, Addresses, PatchAll, AllWithin, Enc, GenB, Blob, NamesOk, SymbolId, SymbolAt, AddrOk, Le64, Modelled, AllModelled;
    var c := Body(cpu, b);
    var fs := Fields(c, PROLOGUE_LEN);
    var na, ends := NamesStart(c), FunctionEnds(c);
    var pre, post := Enc(Prologue), Enc(Epilogue) + Blob(c);
    EncLen(Prologue);
    var k := Known(Some(ends.loopEnd), Some(ends.loopStart), Some(ends.functionEnd), true, NoAddress);
    NoHoles(c, PROLOGUE_LEN, na, ends, NoAddress);
    NoHoles(c, PROLOGUE_LEN, na, ends, addr);
    RoundFills(pre, c, na, k, Addressing(addr), post);
    AddressRound(fs, na, addr);
    BlockModelled(cpu, b, PROLOGUE_LEN);
    AddressesModelled(c, PROLOGUE_LEN);
    var rs := Addresses(fs);
    forall i | 0 <= i < |rs| ensures SymbolId(addr, addr(rs[i].s)) < SYMBOL_COUNT && SymbolAt(SymbolId(addr, addr(rs[i].s))) == rs[i].s {
      SymbolFound(addr, rs[i].s);
    }
    assert RelocPatches(BodyRelocs(cpu, b, addr), addr) == AddressPatches(rs, addr);
    var e0, e1 := Emit(c, PROLOGUE_LEN, na, ends, NoAddress), Emit(c, PROLOGUE_LEN, na, ends, addr);
    assert pre + e0 + post == pre + e0 + Enc(Epilogue) + Blob(c);
    assert pre + e1 + post == pre + e1 + Enc(Epilogue) + Blob(c);
    EmitSize(c, PROLOGUE_LEN, na, ends, NoAddress);
  }
}
