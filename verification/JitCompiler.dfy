/** The compiler itself: one pass over a function's lines that appends code to a buffer, leaves
    displacements and names empty, and writes them in once it knows them. */
module JitCompiler {
  import opened Options
  import opened Values
  import opened Language
  import opened MachineCode
  import opened CodeGen
  import opened Blocks
  import opened Backpatch
  import opened JitBuffers
  import opened Finishing
  import StmtCorrect

  // ----- what the parsed input already guarantees

  /** Literals are 64-bit doubles and names are C strings. */
  predicate WellTyped(e: Expr) {
    match e
    case Num(bits) => bits < 0x1_0000_0000_0000_0000
    case Var(n) => NameOk(n)
    case Neg(o) => WellTyped(o)
    case Bin(_, l, r) => WellTyped(l) && WellTyped(r)
  }

  predicate WellTypedLine(l: Line) {
    match l
    case IfLine(c) => WellTyped(c)
    case One(ExprS(e)) => WellTyped(e)
    case One(Assign(n, e)) => NameOk(n) && WellTyped(e)
    case One(DeclareS(n, t, e)) => n != [] && NameOk(n) && t != TUnknown && WellTyped(e)
    case One(Return(e)) => WellTyped(e)
    case _ => true
  }

  ghost predicate WellTypedLines(lines: seq<Line>) { forall k :: 0 <= k < |lines| ==> WellTypedLine(lines[k]) }

  // ----- what is accepted in a given state of the buffer

  /** The innermost open loop has room for this many more breaks and continues. */
  predicate Room(loops: seq<LoopCtx>, breaks: nat, continues: nat) {
    loops != [] ==>
      && |loops[|loops| - 1].breaks| + breaks <= MAX_LOOP_JUMPS
      && |loops[|loops| - 1].continues| + continues <= MAX_LOOP_JUMPS
  }

  predicate AcceptedS(s: Buf, st: Stmt) {
    AcceptsS(st, |s.loops|) && Room(s.loops, BreaksIn(st), ContinuesIn(st))
  }

  predicate AcceptedB(s: Buf, b: Block) {
    AcceptsB(b, |s.loops|) && Room(s.loops, CountBreaks(b), CountContinues(b))
  }

  /** Displacements within this much more code fit in 32 bits. */
  predicate Small(s: Buf, more: nat) { |s.bytes| + more < 0x8000_0000 }

  function CodeS(cpu: Cpu, s: Buf, st: Stmt): Code { GenS(cpu, st, |s.bytes|) }

  function CodeB(cpu: Cpu, s: Buf, b: Block): Code { GenB(cpu, b, |s.bytes|) }

  ghost predicate MustS(cpu: Cpu, s: Buf, st: Stmt) { AcceptedS(s, st) && Small(s, Size(CodeS(cpu, s, st))) }

  ghost predicate MustB(cpu: Cpu, s: Buf, b: Block) { AcceptedB(s, b) && Small(s, Size(CodeB(cpu, s, b))) }

  ghost predicate DidS(cpu: Cpu, mode: Mode, s: Buf, now: Buf, st: Stmt) {
    AcceptedS(s, st) && now == Grown(mode, s, CodeS(cpu, s, st))
  }

  ghost predicate DidB(cpu: Cpu, mode: Mode, s: Buf, now: Buf, b: Block) {
    AcceptedB(s, b) && now == Grown(mode, s, CodeB(cpu, s, b))
  }

  lemma DidBuffer(cpu: Cpu, mode: Mode, s: Buf, now: Buf, b: Block)
    requires DidB(cpu, mode, s, now, b)
    ensures now == Grown(mode, s, CodeB(cpu, s, b))
  {
  }

  lemma DidRoom(cpu: Cpu, mode: Mode, s: Buf, now: Buf, b: Block)
    requires DidB(cpu, mode, s, now, b)
    ensures Room(s.loops, CountBreaks(b) + 0, CountContinues(b) + 0)
  {
  }

  /** Emitting a block uses up exactly its own breaks and continues. */
  lemma GrownRoom(cpu: Cpu, mode: Mode, s: Buf, b: Block, pos: int, breaks: nat, continues: nat)
    ensures Room(Grown(mode, s, GenB(cpu, b, pos)).loops, breaks, continues)
        <==> Room(s.loops, CountBreaks(b) + breaks, CountContinues(b) + continues)
  {
    hide Jumps, Fields, GenB, Names, Addresses, Blank;
    JumpsCountedB(cpu, b, pos, |s.bytes|, LoopEnd);
    JumpsCountedB(cpu, b, pos, |s.bytes|, LoopStart);
  }

  /** Code without jumps leaves the loops and the waiting returns alone. */
  lemma GrownPlain(mode: Mode, s: Buf, c: Code)
    requires Jumpless(c)
    ensures Grown(mode, s, c).loops == s.loops && Grown(mode, s, c).exits == s.exits
    ensures |Grown(mode, s, c).bytes| == |s.bytes| + Size(c)
  {
    hide Jumps, Fields, Names, Addresses, Blank, LoopsWith;
    NoJumpsNone(c, |s.bytes|, LoopEnd);
    NoJumpsNone(c, |s.bytes|, LoopStart);
    NoJumpsNone(c, |s.bytes|, FunctionEnd);
    LoopsTwice(s.loops, [], [], [], []);
    GrownSize(mode, s, c);
  }

  /** A waiting jump is an empty jump whose place is remembered. */
  lemma GrownWaiting(mode: Mode, s: Buf, t: Target)
    requires !t.At?
    ensures var d := Grown(mode, s, [HoleJump(false)]);
            Grown(mode, s, [JmpTo(t)]) ==
            match t
            case LoopEnd => d.(loops := LoopsWith(s.loops, [|s.bytes| + 1], []))
            case LoopStart => d.(loops := LoopsWith(s.loops, [], [|s.bytes| + 1]))
            case FunctionEnd => d.(exits := s.exits + [|s.bytes| + 1])
  {
    hide Names, Addresses, Jumps, Fields, LoopsWith, Enc, Blank;
    var at := |s.bytes|;
    JumpLists(false, 0, at, LoopEnd);
    JumpLists(false, 0, at, LoopStart);
    JumpLists(false, 0, at, FunctionEnd);
    JumpCount(JmpTo(t), at, LoopEnd);
    JumpCount(JmpTo(t), at, LoopStart);
    JumpCount(JmpTo(t), at, FunctionEnd);
    OneItem(JmpTo(t), at);
    OneField(FieldsOf(JmpTo(t), at)[0], t);
    assert FieldsOf(JmpTo(t), at) == [FieldsOf(JmpTo(t), at)[0]];
    BlankJump(mode, false, 0, at);
    BlankOne(mode, JmpTo(t), at);
  }

  // ----- conditions and loops, assembled

  /** After a condition's code and its empty test. */
  function Front(cpu: Cpu, mode: Mode, s: Buf, c: Expr): Buf {
    Grown(mode, Grown(mode, s, GenE(cpu, c, 0)), [Op(TestZero), HoleJump(true)])
  }

  lemma FrontSize(cpu: Cpu, mode: Mode, s: Buf, c: Expr)
    ensures var s2 := Front(cpu, mode, s, c);
            && s2 == Grown(mode, s, GenE(cpu, c, 0) + [Op(TestZero)] + [HoleJump(true)])
            && |s2.bytes| == |s.bytes| + Size(GenE(cpu, c, 0)) + 14 && s2.loops == s.loops && s2.exits == s.exits
    ensures Size(GenE(cpu, c, 0) + [Op(TestZero)]) == Size(GenE(cpu, c, 0)) + 8
    ensures |Grown(mode, s, GenE(cpu, c, 0)).bytes| == |s.bytes| + Size(GenE(cpu, c, 0))
  {
    hide Grown, GenE;
    var head := GenE(cpu, c, 0);
    var test: Code := [Op(TestZero), HoleJump(true)];
    ExprNoJumps(cpu, c, 0);
    GrownPlain(mode, s, head);
    assert Jumpless(test);
    GrownPlain(mode, Grown(mode, s, head), test);
    GrownApp(mode, s, head, test);
    assert head + test == head + [Op(TestZero)] + [HoleJump(true)];
    SizeApp(head, [Op(TestZero)]);
    assert [Op(TestZero)][1..] == [] && test[1..] == [HoleJump(true)];
    JumpsSame(true, 0);
  }

  lemma HoleFacts()
    ensures Jumpless([HoleJump(false)]) && Jumpless([HoleJump(true)]) && DispOff(true) == 2 && DispOff(false) == 1
  {
  }

  lemma IfSize(cpu: Cpu, s: Buf, c: Expr, thn: Block)
    ensures var p := |s.bytes| + Size(GenE(cpu, c, 0)) + 14;
            Size(CodeS(cpu, s, If(c, thn))) == p - |s.bytes| + Size(GenB(cpu, thn, p))
  {
    hide GenE, GenB, Size;
    var p := |s.bytes| + Size(GenE(cpu, c, 0)) + 14;
    HeadTargets(cpu, c, p + Size(GenB(cpu, thn, p)), 0, p + Size(GenB(cpu, thn, p)), GenB(cpu, thn, p));
  }

  lemma IfElseSize(cpu: Cpu, s: Buf, c: Expr, thn: Block, els: Block)
    ensures var p := |s.bytes| + Size(GenE(cpu, c, 0)) + 14;
            var q := p + Size(GenB(cpu, thn, p)) + 5;
            Size(CodeS(cpu, s, IfElse(c, thn, els))) == q - |s.bytes| + Size(GenB(cpu, els, q))
  {
    hide GenE, GenB, Size;
    var p := |s.bytes| + Size(GenE(cpu, c, 0)) + 14;
    var body := GenB(cpu, thn, p);
    var q := p + Size(body) + 5;
    var other := GenB(cpu, els, q);
    var head := GenE(cpu, c, 0) + [Op(TestZero), JeTo(At(q))];
    var jump: Code := [JmpTo(At(q + Size(other)))];
    HeadTargets(cpu, c, q, 0, q, body + jump + other);
    SizeApp(body + jump, other);
    SizeApp(body, jump);
    JumpsSame(false, q + Size(other));
    assert Size(jump) == 5 by { HoleFacts(); }
    assert head + body + jump + other == head + (body + jump + other);
  }

  /** Head, test, body, and the test's jump directed past the body. */
  lemma IfBuilt(cpu: Cpu, mode: Mode, s: Buf, c: Expr, thn: Block, s3: Buf)
    requires s3 == Grown(mode, Front(cpu, mode, s, c), CodeB(cpu, Front(cpu, mode, s, c), thn))
    ensures var off := |s.bytes| + Size(GenE(cpu, c, 0)) + 10;
            var patch := Patch(off, Le32(|s3.bytes| - (off + 4)));
            && off + 4 <= |s3.bytes| && Within(patch, |s3.bytes|)
            && s3.(bytes := PatchAt(s3.bytes, patch)) == Grown(mode, s, CodeS(cpu, s, If(c, thn)))
            && |s3.bytes| == |s.bytes| + Size(CodeS(cpu, s, If(c, thn)))
  {
    hide Grown, GenE, GenB, Le32, PatchAt, Within, Front, Size, HoleJump;
    var s2 := Front(cpu, mode, s, c);
    var head, body := GenE(cpu, c, 0), CodeB(cpu, s2, thn);
    FrontSize(cpu, mode, s, c);
    GrownApp(mode, s, head + [Op(TestZero)] + [HoleJump(true)], body);
    GrownSize(mode, s2, body);
    var p := |s3.bytes|;
    HoleFacts();
    JumpDirected(mode, s, head + [Op(TestZero)], true, body, p);
    assert head + [Op(TestZero)] + [JeTo(At(p))] + body == head + [Op(TestZero), JeTo(At(p))] + body;
    IfSize(cpu, s, c, thn);
  }

  /** What has been emitted when the else-branch begins, the test's jump now directed to it. */
  function ToElse(cpu: Cpu, s: Buf, c: Expr, thn: Block): Code {
    var p := |s.bytes| + Size(GenE(cpu, c, 0)) + 14;
    GenE(cpu, c, 0) + [Op(TestZero)] + [JeTo(At(p + Size(GenB(cpu, thn, p)) + 5))] + (GenB(cpu, thn, p) + [HoleJump(false)])
  }

  /** The same with an else: the test's jump goes past the jump over the else-branch. */
  lemma ElseReached(cpu: Cpu, mode: Mode, s: Buf, c: Expr, thn: Block, s3: Buf)
    requires s3 == Grown(mode, Front(cpu, mode, s, c), CodeB(cpu, Front(cpu, mode, s, c), thn))
    ensures var s4 := Grown(mode, s3, [HoleJump(false)]);
            var off := |s.bytes| + Size(GenE(cpu, c, 0)) + 10;
            var patch := Patch(off, Le32(|s4.bytes| - (off + 4)));
            && off + 4 <= |s4.bytes| && Within(patch, |s4.bytes|)
            && s4.(bytes := PatchAt(s4.bytes, patch)) == Grown(mode, s, ToElse(cpu, s, c, thn))
            && s4.loops == s3.loops && |s4.bytes| == |s3.bytes| + 5 == off + 9 + Size(CodeB(cpu, Front(cpu, mode, s, c), thn))
  {
    hide Grown, GenE, GenB, Le32, PatchAt, Within, Size, HoleJump, DispOff, Front;
    var s2 := Front(cpu, mode, s, c);
    var head, body := GenE(cpu, c, 0), CodeB(cpu, s2, thn);
    var jump: Code := [HoleJump(false)];
    HoleFacts();
    FrontSize(cpu, mode, s, c);
    GrownApp(mode, s2, body, jump);
    GrownApp(mode, s, head + [Op(TestZero)] + [HoleJump(true)], body + jump);
    GrownSize(mode, s2, body);
    GrownPlain(mode, s3, jump);
    JumpsSame(false, 0);
    JumpDirected(mode, s, head + [Op(TestZero)], true, body + jump, |Grown(mode, s3, jump).bytes|);
  }

  lemma ElseBuilt(cpu: Cpu, mode: Mode, s: Buf, c: Expr, thn: Block, els: Block, s6: Buf)
    requires var s5 := Grown(mode, s, ToElse(cpu, s, c, thn)); s6 == Grown(mode, s5, CodeB(cpu, s5, els))
    ensures var s5 := Grown(mode, s, ToElse(cpu, s, c, thn));
            var patch := Patch(|s5.bytes| - 4, Le32(|s6.bytes| - |s5.bytes|));
            && Corrects(s6, patch, Grown(mode, s, CodeS(cpu, s, IfElse(c, thn, els))))
            && |s6.bytes| == |s.bytes| + Size(CodeS(cpu, s, IfElse(c, thn, els)))
  {
    hide Grown, GenE, GenB, GenS, Le32, PatchAt, Within, Size, HoleJump, DispOff, ToElse, BeforeOver;
    var s5 := Grown(mode, s, ToElse(cpu, s, c, thn));
    var a, other := BeforeOver(cpu, s, c, thn), CodeB(cpu, s5, els);
    var end := |s6.bytes|;
    HoleFacts();
    ToElseSize(cpu, mode, s, c, thn);
    ToElseCode(cpu, s, c, thn);
    GrownApp(mode, s, a + [HoleJump(false)], other);
    GrownSize(mode, s5, other);
    SizeApp(a, [HoleJump(false)]);
    JumpsSame(false, end);
    JumpDirected(mode, s, a, false, other, end);
    IfElseCode(cpu, s, c, thn, els);
    IfElseSize(cpu, s, c, thn, els);
  }

  /** Everything up to the jump over the else-branch. */
  function BeforeOver(cpu: Cpu, s: Buf, c: Expr, thn: Block): Code {
    var p := |s.bytes| + Size(GenE(cpu, c, 0)) + 14;
    GenE(cpu, c, 0) + [Op(TestZero)] + [JeTo(At(p + Size(GenB(cpu, thn, p)) + 5))] + GenB(cpu, thn, p)
  }

  lemma ToElseCode(cpu: Cpu, s: Buf, c: Expr, thn: Block)
    ensures ToElse(cpu, s, c, thn) == BeforeOver(cpu, s, c, thn) + [HoleJump(false)]
  {
    hide GenE, GenB, Size, HoleJump;
  }

  lemma IfElseCode(cpu: Cpu, s: Buf, c: Expr, thn: Block, els: Block)
    ensures var q := |s.bytes| + Size(GenE(cpu, c, 0)) + 14 + Size(GenB(cpu, thn, |s.bytes| + Size(GenE(cpu, c, 0)) + 14)) + 5;
            CodeS(cpu, s, IfElse(c, thn, els)) == BeforeOver(cpu, s, c, thn) + [JmpTo(At(q + Size(GenB(cpu, els, q))))] + GenB(cpu, els, q)
  {
    hide GenE, GenB, Size;
  }

  lemma ToElseSize(cpu: Cpu, mode: Mode, s: Buf, c: Expr, thn: Block)
    ensures var p := |s.bytes| + Size(GenE(cpu, c, 0)) + 14;
            && |Grown(mode, s, ToElse(cpu, s, c, thn)).bytes| == p + Size(GenB(cpu, thn, p)) + 5
            && Size(ToElse(cpu, s, c, thn)) == p - |s.bytes| + Size(GenB(cpu, thn, p)) + 5
  {
    hide Grown, GenE, GenB, HoleJump;
    var p := |s.bytes| + Size(GenE(cpu, c, 0)) + 14;
    var head, body := GenE(cpu, c, 0), GenB(cpu, thn, p);
    var jump: Code := [HoleJump(false)];
    var je: Code := [JeTo(At(p + Size(body) + 5))];
    JumpsSame(false, 0);
    JumpsSame(true, p + Size(body) + 5);
    HoleFacts();
    FrontSize(cpu, mode, s, c);
    SizeApp(head + [Op(TestZero)], je);
    SizeApp(head + [Op(TestZero)] + je, body + jump);
    SizeApp(body, jump);
    GrownSize(mode, s, ToElse(cpu, s, c, thn));
  }

  // ----- what acceptance of a condition says of its parts

  lemma IfMust(cpu: Cpu, mode: Mode, s: Buf, c: Expr, thn: Block)
    requires MustS(cpu, s, If(c, thn))
    ensures AcceptsE(c, 0) && MustB(cpu, Front(cpu, mode, s, c), thn)
    ensures Small(s, Size(CodeS(cpu, s, If(c, thn))))
  {
    hide Grown, GenE, GenB, Size, Front, AcceptsE, AcceptsB, CountBreaks, CountContinues;
    FrontSize(cpu, mode, s, c);
    IfSize(cpu, s, c, thn);
  }

  lemma IfDid(cpu: Cpu, mode: Mode, s: Buf, c: Expr, thn: Block, s3: Buf)
    requires AcceptsE(c, 0) && DidB(cpu, mode, Front(cpu, mode, s, c), s3, thn)
    ensures AcceptedS(s, If(c, thn))
  {
    hide Grown, GenE, GenB, Size, Front, AcceptsE, AcceptsB, CountBreaks, CountContinues;
    FrontSize(cpu, mode, s, c);
  }

  lemma ElseMust(cpu: Cpu, mode: Mode, s: Buf, c: Expr, thn: Block, els: Block)
    requires MustS(cpu, s, IfElse(c, thn, els))
    ensures AcceptsE(c, 0) && MustB(cpu, Front(cpu, mode, s, c), thn) && MustB(cpu, Grown(mode, s, ToElse(cpu, s, c, thn)), els)
    ensures |Grown(mode, s, ToElse(cpu, s, c, thn)).bytes| <= |s.bytes| + Size(CodeS(cpu, s, IfElse(c, thn, els))) < 0x8000_0000
  {
    hide Grown, GenE, GenB, Size, Front, AcceptsE, AcceptsB, CountBreaks, CountContinues, ToElse;
    FrontSize(cpu, mode, s, c);
    IfElseSize(cpu, s, c, thn, els);
    ToElseSize(cpu, mode, s, c, thn);
    ToElseRoom(cpu, mode, s, c, thn, CountBreaks(els), CountContinues(els));
  }

  /** At the else-branch the innermost loop has gathered what the then-branch added. */
  lemma ToElseRoom(cpu: Cpu, mode: Mode, s: Buf, c: Expr, thn: Block, breaks: nat, continues: nat)
    ensures |Grown(mode, s, ToElse(cpu, s, c, thn)).loops| == |s.loops|
    ensures Room(Grown(mode, s, ToElse(cpu, s, c, thn)).loops, breaks, continues)
        <==> Room(s.loops, CountBreaks(thn) + breaks, CountContinues(thn) + continues)
  {
    hide Grown, GenE, GenB, Size, CountBreaks, CountContinues, Le32, PatchAt, ToElse, Room, Front;
    var s2 := Front(cpu, mode, s, c);
    var s3 := Grown(mode, s2, CodeB(cpu, s2, thn));
    FrontSize(cpu, mode, s, c);
    ElseReached(cpu, mode, s, c, thn, s3);
    GrownSize(mode, s, ToElse(cpu, s, c, thn));
    GrownRoom(cpu, mode, s2, thn, |s2.bytes|, breaks, continues);
  }

  lemma ElseDid(cpu: Cpu, mode: Mode, s: Buf, c: Expr, thn: Block, els: Block, s3: Buf, s6: Buf)
    requires AcceptsE(c, 0) && DidB(cpu, mode, Front(cpu, mode, s, c), s3, thn)
    requires DidB(cpu, mode, Grown(mode, s, ToElse(cpu, s, c, thn)), s6, els)
    ensures AcceptedS(s, IfElse(c, thn, els))
  {
    hide Grown, GenE, GenB, Size, Front, AcceptsE, AcceptsB, CountBreaks, CountContinues, ToElse;
    FrontSize(cpu, mode, s, c);
    ToElseRoom(cpu, mode, s, c, thn, CountBreaks(els), CountContinues(els));
  }

  /** Offsets of waiting jumps lie inside the code that waits. */
  lemma {:induction false} JumpsInside(c: Code, at: int, t: Target)
    ensures forall k :: 0 <= k < |Jumps(Fields(c, at), t)| ==> at <= Jumps(Fields(c, at), t)[k] <= at + Size(c) - 4
    decreases |c|
  {
    hide FieldsOf, Jumps;
    NoFields(t);
    if c != [] {
      JumpsInside(c[1..], at + ItemLen(c[0]), t);
      JumpsApp(FieldsOf(c[0], at), Fields(c[1..], at + ItemLen(c[0])), t);
      ItemJumpsInside(c[0], at, t);
    }
  }

  lemma ItemJumpsInside(x: Item, at: int, t: Target)
    ensures forall k :: 0 <= k < |Jumps(FieldsOf(x, at), t)| ==> at <= Jumps(FieldsOf(x, at), t)[k] <= at + ItemLen(x) - 4
  {
    NoFields(t);
    var fs := FieldsOf(x, at);
    if fs != [] {
      OneField(fs[0], t);
      assert fs == [fs[0]];
    }
  }

  /** A jumpless piece emitted while other loops are open. */
  lemma GrownElsewhere(mode: Mode, s: Buf, c: Code, loops: seq<LoopCtx>)
    requires Jumpless(c)
    ensures Grown(mode, s.(loops := loops), c) == Grown(mode, s, c).(loops := loops)
  {
    hide Jumps, Fields, Names, Addresses, Blank, LoopsWith;
    NoJumpsNone(c, |s.bytes|, LoopEnd);
    NoJumpsNone(c, |s.bytes|, LoopStart);
    LoopsTwice(loops, [], [], [], []);
  }

  /** Body, empty back jump, and the back jump directed to the start; the loop's own record has
      gathered exactly the body's breaks and continues. */
  lemma LoopBuilt(cpu: Cpu, mode: Mode, s: Buf, body: Block, s2: Buf)
    requires s2 == Grown(mode, LoopOpened(s), CodeB(cpu, s, body))
    ensures var pos := |s.bytes|;
            var c := LoopCode(cpu, s, body);
            var s4 := Grown(mode, s2.(loops := s.loops), [HoleJump(false)]);
            var end := pos + Size(CodeB(cpu, s, body)) + 5;
            var patch := Patch(|s2.bytes| + 1, Le32(pos - end));
            && s2.loops == s.loops + [LoopCtx(pos, Jumps(Fields(c, pos), LoopEnd), Jumps(Fields(c, pos), LoopStart))]
            && |s4.bytes| == end == |s2.bytes| + 5 && Size(c) == end - pos && Within(patch, |s4.bytes|)
            && s4.(bytes := PatchAt(s4.bytes, patch)) == Grown(mode, s, c).(loops := s.loops)
  {
    hide GenB, Le32, PatchAt, Within, Jumps, Fields, Names, Addresses, Blank, Grown, LoopsWith;
    var pos := |s.bytes|;
    var s1 := s.(loops := s.loops + [LoopCtx(pos, [], [])]);
    var inner := CodeB(cpu, s, body);
    var c := inner + [JmpTo(At(pos))];
    GrownSize(mode, s1, inner);
    JumpsSame(false, pos);
    SizeApp(inner, [JmpTo(At(pos))]);
    GrownElsewhere(mode, s2, [HoleJump(false)], s.loops);
    GrownApp(mode, s1, inner, [HoleJump(false)]);
    GrownSize(mode, s2, [HoleJump(false)]);
    JumpDirected(mode, s1, inner, false, [], pos);
    assert inner + [HoleJump(false)] + [] == inner + [HoleJump(false)] && c + [] == c;
    OwnLoop(mode, s, inner, s2);
    JumpsMiddle(inner, [JmpTo(At(pos))], pos, LoopEnd);
    JumpsMiddle(inner, [JmpTo(At(pos))], pos, LoopStart);
    JumpCount(JmpTo(At(pos)), pos + Size(inner), LoopEnd);
    JumpCount(JmpTo(At(pos)), pos + Size(inner), LoopStart);
    OtherLoops(mode, s, c, s.loops + [LoopCtx(pos, [], [])]);
    assert forall offs: seq<int> :: offs + [] == offs;
  }

  lemma OwnLoop(mode: Mode, s: Buf, c: Code, s2: Buf)
    requires s2 == Grown(mode, s.(loops := s.loops + [LoopCtx(|s.bytes|, [], [])]), c)
    ensures s2.loops == s.loops + [LoopCtx(|s.bytes|, Jumps(Fields(c, |s.bytes|), LoopEnd), Jumps(Fields(c, |s.bytes|), LoopStart))]
  {
    hide Jumps, Fields, Names, Addresses, Blank;
    var loops := s.loops + [LoopCtx(|s.bytes|, [], [])];
    assert loops[..|loops| - 1] == s.loops;
    assert [] + Jumps(Fields(c, |s.bytes|), LoopEnd) == Jumps(Fields(c, |s.bytes|), LoopEnd);
    assert [] + Jumps(Fields(c, |s.bytes|), LoopStart) == Jumps(Fields(c, |s.bytes|), LoopStart);
  }

  /** Which loops are open matters only for the loops. */
  lemma OtherLoops(mode: Mode, s: Buf, c: Code, loops: seq<LoopCtx>)
    ensures Grown(mode, s.(loops := loops), c).(loops := s.loops) == Grown(mode, s, c).(loops := s.loops)
  {
    hide Jumps, Fields, Names, Addresses, Blank, LoopsWith;
  }

  // ----- what acceptance of a loop says of its body

  function LoopCode(cpu: Cpu, s: Buf, body: Block): Code { CodeB(cpu, s, body) + [JmpTo(At(|s.bytes|))] }

  function LoopOpened(s: Buf): Buf { s.(loops := s.loops + [LoopCtx(|s.bytes|, [], [])]) }

  lemma LoopSize(cpu: Cpu, s: Buf, body: Block)
    ensures Size(LoopCode(cpu, s, body)) == Size(CodeB(cpu, s, body)) + 5
    ensures Size(CodeS(cpu, s, Loop(body))) == Size(CodeB(cpu, s, body)) + 5
  {
    hide GenB, Settle;
    var c := LoopCode(cpu, s, body);
    var end := |s.bytes| + Size(CodeB(cpu, s, body)) + 5;
    SizeApp(CodeB(cpu, s, body), [JmpTo(At(|s.bytes|))]);
    JumpsSame(false, |s.bytes|);
    SettleSize(c, LoopEnd, end);
    SettleSize(Settle(c, LoopEnd, end), LoopStart, |s.bytes|);
  }

  lemma LoopMust(cpu: Cpu, s: Buf, body: Block)
    requires MustS(cpu, s, Loop(body))
    ensures |s.loops| < MAX_LOOP_DEPTH && MustB(cpu, LoopOpened(s), body)
    ensures |s.bytes| + Size(CodeB(cpu, s, body)) + 5 < 0x8000_0000
  {
    hide GenB, Size, AcceptsB, CountBreaks, CountContinues, GenS;
    LoopSize(cpu, s, body);
  }

  lemma LoopDid(cpu: Cpu, mode: Mode, s: Buf, body: Block, s2: Buf)
    requires |s.loops| < MAX_LOOP_DEPTH && DidB(cpu, mode, LoopOpened(s), s2, body) && Room(s.loops, 0, 0)
    ensures AcceptedS(s, Loop(body))
    ensures s2 == Grown(mode, LoopOpened(s), CodeB(cpu, s, body))
  {
    hide GenB, Size, AcceptsB, CountBreaks, CountContinues, Grown;
  }

  /** Two rounds of patches turn one buffer into another. */
  ghost predicate Closes(raw: Buf, pe: seq<Patch>, ps: seq<Patch>, out: Buf) {
    && AllWithin(pe, |raw.bytes|) && AllWithin(ps, |raw.bytes|)
    && raw.(bytes := PatchAll(PatchAll(raw.bytes, pe), ps)) == out
  }

  /** One patch turns one buffer into another. */
  ghost predicate Corrects(raw: Buf, p: Patch, out: Buf) {
    Within(p, |raw.bytes|) && raw.(bytes := PatchAt(raw.bytes, p)) == out
  }

  /** Closing the loop: its breaks and continues lie in its code, and directing them completes it. */
  lemma LoopEnds(cpu: Cpu, mode: Mode, s: Buf, body: Block, breaks: seq<int>, continues: seq<int>)
    requires breaks == Jumps(Fields(LoopCode(cpu, s, body), |s.bytes|), LoopEnd)
    requires continues == Jumps(Fields(LoopCode(cpu, s, body), |s.bytes|), LoopStart)
    ensures var start := |s.bytes|;
            var end := start + Size(CodeB(cpu, s, body)) + 5;
            var s5 := Grown(mode, s, LoopCode(cpu, s, body)).(loops := s.loops);
            var pe, ps := JumpPatches(breaks, end), JumpPatches(continues, start);
            && |s5.bytes| == end && Closes(s5, pe, ps, Grown(mode, s, CodeS(cpu, s, Loop(body))))
            && (end < 0x8000_0000 ==>
                  && (forall k :: 0 <= k < |breaks| ==> Signed32(end - (breaks[k] + 4)))
                  && (forall k :: 0 <= k < |continues| ==> Signed32(start - (continues[k] + 4))))
  {
    hide GenB, Grown, Jumps, Fields, JumpPatches, AllWithin, PatchAll, Settle, Size;
    var start, c := |s.bytes|, LoopCode(cpu, s, body);
    var end := start + Size(CodeB(cpu, s, body)) + 5;
    LoopSize(cpu, s, body);
    GrownSize(mode, s, c);
    LoopClosed(mode, s, c, start, end);
    JumpsInside(c, start, LoopEnd);
    JumpsInside(c, start, LoopStart);
  }

  // ----- a block, statement by statement

  function Concat(a: Block, b: Block): Block {
    match a case Nil => b case Cons(hd, tl) => Cons(hd, Concat(tl, b))
  }

  function Prepend(a: Block, b: Option<Block>): Option<Block> {
    match b case None => None case Some(x) => Some(Concat(a, x))
  }

  lemma {:induction false} ConcatAssoc(a: Block, b: Block, c: Block)
    ensures Concat(Concat(a, b), c) == Concat(a, Concat(b, c)) && Concat(a, Nil) == a
    decreases a
  {
    match a
    case Nil =>
    case Cons(_, tl) => ConcatAssoc(tl, b, c);
  }

  lemma {:induction false} ConcatCode(cpu: Cpu, a: Block, b: Block, pos: int)
    ensures GenB(cpu, Concat(a, b), pos) == GenB(cpu, a, pos) + GenB(cpu, b, pos + Size(GenB(cpu, a, pos)))
    decreases a
  {
    hide GenS, GenB, Size;
    match a
    case Nil =>
      NilCode(cpu, pos);
      assert GenB(cpu, b, pos) == [] + GenB(cpu, b, pos);
    case Cons(hd, tl) =>
      var first := GenS(cpu, hd, pos);
      var p := pos + Size(first);
      ConsCode(cpu, hd, tl, pos);
      ConsCode(cpu, hd, Concat(tl, b), pos);
      ConcatCode(cpu, tl, b, p);
      SizeApp(first, GenB(cpu, tl, p));
      CodeAssoc(first, GenB(cpu, tl, p), GenB(cpu, b, pos + Size(GenB(cpu, a, pos))));
  }

  lemma NilCode(cpu: Cpu, pos: int)
    ensures GenB(cpu, Nil, pos) == [] && Size([]) == 0
  {
  }

  lemma ConsCode(cpu: Cpu, hd: Stmt, tl: Block, pos: int)
    ensures GenB(cpu, Cons(hd, tl), pos) == GenS(cpu, hd, pos) + GenB(cpu, tl, pos + Size(GenS(cpu, hd, pos)))
  {
    hide GenS, Size;
  }

  lemma CodeAssoc(a: Code, b: Code, c: Code)
    ensures a + (b + c) == a + b + c
  {
  }

  lemma {:induction false} ConcatAccepted(a: Block, b: Block, loops: nat)
    ensures AcceptsB(Concat(a, b), loops) <==> AcceptsB(a, loops) && AcceptsB(b, loops)
    ensures CountBreaks(Concat(a, b)) == CountBreaks(a) + CountBreaks(b)
    ensures CountContinues(Concat(a, b)) == CountContinues(a) + CountContinues(b)
    decreases a
  {
    hide AcceptsS, BreaksIn, ContinuesIn;
    match a
    case Nil =>
    case Cons(_, tl) => ConcatAccepted(tl, b, loops);
  }

  lemma OneCode(cpu: Cpu, st: Stmt, pos: int)
    ensures GenB(cpu, Cons(st, Nil), pos) == GenS(cpu, st, pos)
    ensures CountBreaks(Cons(st, Nil)) == BreaksIn(st) && CountContinues(Cons(st, Nil)) == ContinuesIn(st)
    ensures forall loops: nat :: AcceptsB(Cons(st, Nil), loops) <==> AcceptsS(st, loops)
  {
    hide GenS, AcceptsS, BreaksIn, ContinuesIn;
    assert GenB(cpu, Nil, pos + Size(GenS(cpu, st, pos))) == [];
    assert GenS(cpu, st, pos) + [] == GenS(cpu, st, pos);
  }

  /** One more statement compiled extends the block compiled so far. */
  lemma BlockStep(cpu: Cpu, mode: Mode, s: Buf, now: Buf, done: Block, st: Stmt, after: Buf)
    requires DidB(cpu, mode, s, now, done) && DidS(cpu, mode, now, after, st)
    ensures DidB(cpu, mode, s, after, Concat(done, Cons(st, Nil)))
  {
    hide GenB, GenS, Grown, AcceptsB, AcceptsS, CountBreaks, CountContinues, BreaksIn, ContinuesIn, Size, Room;
    var one := Cons(st, Nil);
    ConcatCode(cpu, done, one, |s.bytes|);
    ConcatAccepted(done, one, |s.loops|);
    OneCode(cpu, st, |now.bytes|);
    GrownSize(mode, s, CodeB(cpu, s, done));
    GrownApp(mode, s, CodeB(cpu, s, done), CodeS(cpu, now, st));
    GrownRoom(cpu, mode, s, done, |s.bytes|, BreaksIn(st), ContinuesIn(st));
  }

  /** If the whole block must be accepted, so must its next statement. */
  lemma BlockMust(cpu: Cpu, mode: Mode, s: Buf, now: Buf, done: Block, st: Stmt, rest: Block)
    requires DidB(cpu, mode, s, now, done) && MustB(cpu, s, Concat(done, Cons(st, rest)))
    ensures MustS(cpu, now, st)
  {
    hide GenB, GenS, Grown, AcceptsB, AcceptsS, CountBreaks, CountContinues, BreaksIn, ContinuesIn, Size;
    var more := Cons(st, rest);
    ConcatCode(cpu, done, more, |s.bytes|);
    SizeApp(CodeB(cpu, s, done), GenB(cpu, more, |s.bytes| + Size(CodeB(cpu, s, done))));
    ConcatAccepted(done, more, |s.loops|);
    GrownSize(mode, s, CodeB(cpu, s, done));
    FirstOf(cpu, st, rest, |now.bytes|, |s.loops|);
    GrownRoom(cpu, mode, s, done, |s.bytes|, BreaksIn(st), ContinuesIn(st));
  }

  lemma FirstOf(cpu: Cpu, st: Stmt, rest: Block, pos: int, loops: nat)
    ensures Size(GenS(cpu, st, pos)) <= Size(GenB(cpu, Cons(st, rest), pos))
    ensures AcceptsB(Cons(st, rest), loops) ==> AcceptsS(st, loops)
    ensures CountBreaks(Cons(st, rest)) >= BreaksIn(st) && CountContinues(Cons(st, rest)) >= ContinuesIn(st)
  {
    hide GenS, Size, AcceptsS, BreaksIn, ContinuesIn;
    SizeApp(GenS(cpu, st, pos), GenB(cpu, rest, pos + Size(GenS(cpu, st, pos))));
  }

  lemma NothingDone(cpu: Cpu, mode: Mode, s: Buf)
    requires Room(s.loops, 0, 0)
    ensures DidB(cpu, mode, s, s, Nil)
  {
    hide Grown;
    GrownNothing(mode, s);
  }

  lemma NextFirst(lines: seq<Line>, i: nat, next: nat, done: Block, st: Stmt)
    requires i < next <= |lines| && First(lines[i..]) == Some((st, lines[next..]))
    requires ParseB(lines) == Prepend(done, ParseB(lines[i..]))
    ensures ParseB(lines) == Prepend(Concat(done, Cons(st, Nil)), ParseB(lines[next..]))
    ensures ParseB(lines).Some? ==> exists rest :: ParseB(lines).value == Concat(done, Cons(st, rest))
  {
    hide ParseB, First;
    FirstParsed(lines[i..]);
    var r := ParseB(lines[next..]);
    if r.Some? {
      ConcatAssoc(done, Cons(st, Nil), r.value);
      assert ParseB(lines).value == Concat(done, Cons(st, r.value));
    }
  }

  lemma OneFirst(lines: seq<Line>, i: nat)
    requires i < |lines| && lines[i].One?
    ensures First(lines[i..]) == Some((lines[i].st, lines[i + 1..]))
  {
    hide Scan, ParseB;
    assert lines[i..][1..] == lines[i + 1..];
  }

  lemma StrayFirst(lines: seq<Line>, i: nat)
    requires i < |lines| && (lines[i].ElseLine? || lines[i].EndIfLine? || lines[i].EndLoopLine?)
    ensures ParseB(lines[i..]) == None
  {
    hide Scan;
  }

  // ----- a single item

  lemma GrownOp(mode: Mode, s: Buf, i: Instr)
    ensures Grown(mode, s, [Op(i)]) == s.(bytes := s.bytes + Enc(i))
  {
    hide Enc, Blank, LoopsWith;
    BlankOne(mode, Op(i), |s.bytes|);
    OneItem(Op(i), |s.bytes|);
    LoopsTwice(s.loops, [], [], [], []);
  }

  lemma GrownAddress(mode: Mode, s: Buf, x: Item)
    requires x.CallSym? || x.LoadTrace?
    ensures var sym := if x.CallSym? then x.s else TraceData;
            var a := AddressIn(mode)(sym);
            Grown(mode, s, [x]) ==
            s.(bytes := s.bytes + Enc(if x.CallSym? then CallAbs(a) else LoadResult(a)),
               relocs := s.relocs + if mode.aot then [Reloc(|s.bytes| + 2, SymbolId(mode.addr, mode.addr(sym)))] else [])
  {
    hide Enc, Blank, LoopsWith, Jumps, Names, Addresses, SymbolId;
    var at := |s.bytes|;
    BlankOne(mode, x, at);
    OneItem(x, at);
    var f := FieldsOf(x, at);
    assert f == [f[0]];
    OneField(f[0], LoopEnd);
    OneField(f[0], LoopStart);
    OneField(f[0], FunctionEnd);
    LoopsTwice(s.loops, [], [], [], []);
  }

  lemma GrownName(mode: Mode, s: Buf, n: Name)
    ensures Grown(mode, s, [LeaName(n)]) ==
            s.(bytes := s.bytes + Enc(LeaRdi(0)), refs := s.refs + [NameRef(|s.bytes| + 3, n)])
  {
    hide Enc, Blank, LoopsWith, Jumps, Names, Addresses;
    var at := |s.bytes|;
    BlankOne(mode, LeaName(n), at);
    OneItem(LeaName(n), at);
    var f := FieldsOf(LeaName(n), at);
    assert f == [f[0]];
    OneField(f[0], LoopEnd);
    OneField(f[0], LoopStart);
    OneField(f[0], FunctionEnd);
    LoopsTwice(s.loops, [], [], [], []);
  }

  class JitBuffer {
    const cpu: Cpu
    const mode: Mode
    var bytes: Bytes
    var refs: seq<NameRef>
    var relocs: seq<Reloc>
    var loops: seq<LoopCtx>
    var exits: seq<int>

    function Buffer(): Buf
      reads this
    {
      Buf(bytes, refs, relocs, loops, exits)
    }

    constructor (cpu: Cpu, mode: Mode)
      ensures this.cpu == cpu && this.mode == mode && Buffer() == Buf([], [], [], [], [])
    {
      this.cpu, this.mode := cpu, mode;
      bytes, refs, relocs, loops, exits := [], [], [], [], [];
    }

    method EmitBytes(bs: Bytes)
      modifies this
      ensures Buffer() == old(Buffer()).(bytes := old(bytes) + bs)
    {
      bytes := bytes + bs;
    }

    method Emit(i: Instr)
      modifies this
      ensures Buffer() == Grown(mode, old(Buffer()), [Op(i)])
    {
      hide Grown, Enc;
      GrownOp(mode, Buffer(), i);
      EmitBytes(Enc(i));
    }

    method StoreTypedSlot(d: nat) returns (ok: bool)
      modifies this
      ensures ok == (d < JIT_MAX_DEPTH)
      ensures ok ==> Buffer() == Grown(mode, old(Buffer()), [Op(StoreSlot(d))])
    {
      hide Grown;
      ok := d < JIT_MAX_DEPTH;
      if ok {
        Emit(StoreSlot(d));
      }
    }

    method LoadTypedSlot(d: nat) returns (ok: bool)
      modifies this
      ensures ok == (d < JIT_MAX_DEPTH)
      ensures ok ==> Buffer() == Grown(mode, old(Buffer()), [Op(LoadSlot(d))])
    {
      hide Grown;
      ok := d < JIT_MAX_DEPTH;
      if ok {
        Emit(LoadSlot(d));
      }
    }

    /** Number of the first symbol at address a. */
    method HelperSymbolId(a: nat) returns (id: nat)
      ensures id == SymbolId(mode.addr, a)
    {
      hide SymbolAt;
      id := 0;
      while id < SYMBOL_COUNT
        invariant id <= SYMBOL_COUNT && FirstAt(mode.addr, a, id) == SymbolId(mode.addr, a)
      {
        if mode.addr(SymbolAt(id)) == a {
          return;
        }
        id := id + 1;
      }
    }

    /** Emits op, the address of s (or a remembered hole for it) and tail. */
    method EmitAddress(op: Bytes, s: Symbol, tail: Bytes) returns (ok: bool)
      requires AddrOk(mode.addr)
      modifies this
      ensures Modelled(s) ==> ok
      ensures ok ==> Buffer() == old(Buffer()).(
                bytes := old(bytes) + (op + Le64(AddressIn(mode)(s)) + tail),
                relocs := old(relocs) + if mode.aot then [Reloc(|old(bytes)| + |op|, SymbolId(mode.addr, mode.addr(s)))] else [])
    {
      hide SymbolId, Le64, SymbolAt, AddrOk, Modelled;
      ghost var was := bytes;
      if mode.aot {
        var id := HelperSymbolId(mode.addr(s));
        if Modelled(s) {
          SymbolFound(mode.addr, s);
        }
        if id == SYMBOL_COUNT {
          return false;
        }
        EmitBytes(op);
        relocs := relocs + [Reloc(|bytes|, id)];
        EmitBytes(Le64(0));
      } else {
        EmitBytes(op);
        EmitBytes(Le64(mode.addr(s)));
      }
      EmitBytes(tail);
      ok := true;
      Appended(was, op, Le64(AddressIn(mode)(s)), tail);
    }

    method CallHelper(s: Symbol) returns (ok: bool)
      requires AddrOk(mode.addr)
      modifies this
      ensures Modelled(s) ==> ok
      ensures ok ==> Buffer() == Grown(mode, old(Buffer()), [CallSym(s)])
    {
      hide Grown, SymbolId, Le64, AddrOk;
      GrownAddress(mode, Buffer(), CallSym(s));
      ok := EmitAddress([0x48, 0xB8], s, [0xFF, 0xD0]);
    }

    method LoadTypedResult() returns (ok: bool)
      requires AddrOk(mode.addr)
      modifies this
      ensures ok && Buffer() == Grown(mode, old(Buffer()), [LoadTrace])
    {
      hide Grown, SymbolId, Le64, AddrOk;
      GrownAddress(mode, Buffer(), LoadTrace);
      ok := EmitAddress([0x49, 0xBB], TraceData, [0x41, 0x8B, 0x13, 0xF2, 0x41, 0x0F, 0x10, 0x43, 0x08, 0x49, 0x8B, 0x4B, 0x10]);
    }

    method EmitNameRef(n: Name)
      modifies this
      ensures Buffer() == Grown(mode, old(Buffer()), [LeaName(n)])
    {
      hide Grown, Le32;
      GrownName(mode, Buffer(), n);
      EmitBytes([0x48, 0x8D, 0x3D]);
      var disp := |bytes|;
      EmitBytes(Le32(0));
      refs := refs + [NameRef(disp, n)];
      assert bytes == old(bytes) + ([0x48, 0x8D, 0x3D] + Le32(0));
    }

    /** An empty jump; disp is where its displacement lies. */
    method EmitJmp() returns (disp: int)
      modifies this
      ensures disp == |old(bytes)| + 1 && Buffer() == Grown(mode, old(Buffer()), [HoleJump(false)])
    {
      hide Grown, Le32;
      GrownOp(mode, Buffer(), Jmp(0));
      EmitBytes([0xE9]);
      disp := |bytes|;
      EmitBytes(Le32(0));
      assert bytes == old(bytes) + ([0xE9] + Le32(0));
    }

    method EmitJe() returns (disp: int)
      modifies this
      ensures disp == |old(bytes)| + 2 && Buffer() == Grown(mode, old(Buffer()), [HoleJump(true)])
    {
      hide Grown, Le32;
      GrownOp(mode, Buffer(), Je(0));
      EmitBytes([0x0F, 0x84]);
      disp := |bytes|;
      EmitBytes(Le32(0));
      assert bytes == old(bytes) + ([0x0F, 0x84] + Le32(0));
    }

    /** The test of a condition and an empty jump taken when it is false. */
    method EmitJumpIfTypedFalse() returns (disp: int)
      modifies this
      ensures disp == |old(bytes)| + 10 && Buffer() == Grown(mode, old(Buffer()), [Op(TestZero), HoleJump(true)])
    {
      hide Grown;
      ghost var was := Buffer();
      Emit(TestZero);
      GrownSize(mode, was, [Op(TestZero)]);
      assert Size([Op(TestZero)]) == 8 by { assert [Op(TestZero)][1..] == []; }
      disp := EmitJe();
      GrownApp(mode, was, [Op(TestZero)], [HoleJump(true)]);
      assert [Op(TestZero), HoleJump(true)] == [Op(TestZero)] + [HoleJump(true)];
    }

    /** Writes a displacement over four bytes already emitted. */
    method PatchRel32(off: nat, target: int) returns (ok: bool)
      requires off + 4 <= |bytes|
      modifies this
      ensures ok == Signed32(target - (off + 4)) && |bytes| == |old(bytes)|
      ensures ok ==> Buffer() == old(Buffer()).(bytes := PatchAt(old(bytes), Patch(off, Le32(target - (off + 4)))))
    {
      var d := target - (off + 4);
      if !(-0x8000_0000 <= d < 0x8000_0000) {
        return false;
      }
      bytes := bytes[off := d % 256][off + 1 := d / 0x100 % 256][off + 2 := d / 0x1_0000 % 256][off + 3 := d / 0x100_0000 % 256];
      FourBytes(old(bytes), off, d);
      ok := true;
    }

    /** Directs every remembered jump to target. */
    method PatchJumps(offs: seq<int>, target: int) returns (ok: bool)
      requires AllWithin(JumpPatches(offs, target), |bytes|)
      modifies this
      ensures (forall k :: 0 <= k < |offs| ==> Signed32(target - (offs[k] + 4))) ==> ok
      ensures ok ==> Buffer() == old(Buffer()).(bytes := PatchAll(old(bytes), JumpPatches(offs, target)))
    {
      hide PatchAt, Le32;
      ghost var ps := JumpPatches(offs, target);
      var k := 0;
      PatchNone(bytes);
      assert ps[..0] == [];
      while k < |offs|
        invariant 0 <= k <= |offs| && |bytes| == |old(bytes)|
        invariant AllWithin(ps[..k], |bytes|)
        invariant Buffer() == old(Buffer()).(bytes := PatchAll(old(bytes), ps[..k]))
      {
        assert Within(ps[k], |old(bytes)|);
        ok := PatchRel32(offs[k], target);
        if !ok {
          return;
        }
        assert ps[..k + 1] == ps[..k] + [ps[k]];
        PatchNext(old(bytes), ps, k);
        k := k + 1;
      }
      assert ps[..k] == ps;
      ok := true;
    }

    // ----- expressions

    method CompileNumber(bits: nat)
      modifies this
      ensures Buffer() == Grown(mode, old(Buffer()), GenE(cpu, Num(bits), 0))
    {
      hide Grown, IntLiteral, Encodable;
      ghost var was := Buffer();
      var isInt := IntLiteral(cpu, bits);
      var edx := MovEdx(TyCode(if isInt then TInt else TDouble));
      Emit(LoadImm(bits));
      Emit(edx);
      GrownApp(mode, was, [Op(LoadImm(bits))], [Op(edx)]);
      Emit(XorRcx);
      GrownApp(mode, was, [Op(LoadImm(bits))] + [Op(edx)], [Op(XorRcx)]);
      assert GenE(cpu, Num(bits), 0) == [Op(LoadImm(bits))] + [Op(edx)] + [Op(XorRcx)];
    }

    method CompileVariable(n: Name)
      requires AddrOk(mode.addr)
      modifies this
      ensures Buffer() == Grown(mode, old(Buffer()), GenE(cpu, Var(n), 0))
    {
      hide Grown, AddrOk;
      ghost var was := Buffer();
      EmitNameRef(n);
      var ok := CallHelper(GetVariable);
      GrownApp(mode, was, [LeaName(n)], [CallSym(GetVariable)]);
      ok := LoadTypedResult();
      GrownApp(mode, was, [LeaName(n)] + [CallSym(GetVariable)], [LoadTrace]);
      assert GenE(cpu, Var(n), 0) == [LeaName(n)] + [CallSym(GetVariable)] + [LoadTrace];
    }

    /** The helper call that ends an operation, and its result. */
    method CallAndLoad(s: Symbol) returns (ok: bool)
      requires AddrOk(mode.addr)
      modifies this
      ensures Modelled(s) ==> ok
      ensures ok ==> Buffer() == Grown(mode, old(Buffer()), [CallSym(s), LoadTrace])
    {
      hide Grown, AddrOk;
      ghost var was := Buffer();
      ok := CallHelper(s);
      if ok {
        ok := LoadTypedResult();
        GrownApp(mode, was, [CallSym(s)], [LoadTrace]);
        assert [CallSym(s), LoadTrace] == [CallSym(s)] + [LoadTrace];
      }
    }

    /** Slot d into the trace. */
    method LoadToTrace(d: nat) returns (ok: bool)
      requires AddrOk(mode.addr)
      modifies this
      ensures ok == (d < JIT_MAX_DEPTH)
      ensures ok ==> Buffer() == Grown(mode, old(Buffer()), [Op(LoadSlot(d)), CallSym(TraceFromRegs)])
    {
      hide Grown, AddrOk;
      ghost var was := Buffer();
      ok := LoadTypedSlot(d);
      if ok {
        ok := CallHelper(TraceFromRegs);
        GrownApp(mode, was, [Op(LoadSlot(d))], [CallSym(TraceFromRegs)]);
        assert [Op(LoadSlot(d)), CallSym(TraceFromRegs)] == [Op(LoadSlot(d))] + [CallSym(TraceFromRegs)];
      }
    }

    /** Left operand into slot base, right into the next, then both to where the helpers look. */
    method CompileOperands(e: Expr, base: nat) returns (ok: bool)
      requires AddrOk(mode.addr) && e.Bin? && WellTyped(e.left) && WellTyped(e.right)
      modifies this
      ensures ok == (base + 2 <= JIT_MAX_DEPTH && AcceptsE(e.left, base) && AcceptsE(e.right, base + 1))
      ensures ok ==> Buffer() == Grown(mode, old(Buffer()),
                GenE(cpu, e.left, base) + [Op(StoreSlot(base))] + GenE(cpu, e.right, base + 1) + Operands(base))
      decreases e, 0
    {
      hide Grown, AddrOk, GenE, AcceptsE, WellTyped;
      if base + 2 > JIT_MAX_DEPTH {
        return false;
      }
      ghost var was := Buffer();
      ghost var c1, c2 := GenE(cpu, e.left, base), GenE(cpu, e.right, base + 1);
      ok := CompileExpr(e.left, base);
      if !ok { return; }
      ok := StoreTypedSlot(base);
      GrownApp(mode, was, c1, [Op(StoreSlot(base))]);
      ok := CompileExpr(e.right, base + 1);
      if !ok { return; }
      GrownApp(mode, was, c1 + [Op(StoreSlot(base))], c2);
      ghost var c := c1 + [Op(StoreSlot(base))] + c2;
      ok := StoreTypedSlot(base + 1);
      GrownApp(mode, was, c, [Op(StoreSlot(base + 1))]);
      c := c + [Op(StoreSlot(base + 1))];
      ok := LoadToTrace(base);
      GrownApp(mode, was, c, [Op(LoadSlot(base)), CallSym(TraceFromRegs)]);
      c := c + [Op(LoadSlot(base)), CallSym(TraceFromRegs)];
      ok := CallHelper(CaptureLeft);
      GrownApp(mode, was, c, [CallSym(CaptureLeft)]);
      c := c + [CallSym(CaptureLeft)];
      ok := LoadToTrace(base + 1);
      GrownApp(mode, was, c, [Op(LoadSlot(base + 1)), CallSym(TraceFromRegs)]);
      c := c + [Op(LoadSlot(base + 1)), CallSym(TraceFromRegs)];
      assert c == c1 + [Op(StoreSlot(base))] + c2 + Operands(base);
    }

    method CompileExpr(e: Expr, depth: nat) returns (ok: bool)
      requires AddrOk(mode.addr) && WellTyped(e)
      modifies this
      ensures ok == AcceptsE(e, depth)
      ensures ok ==> Buffer() == Grown(mode, old(Buffer()), GenE(cpu, e, depth))
      decreases e, 1
    {
      hide Grown, AddrOk, Operands;
      ghost var was := Buffer();
      match e
      case Num(bits) =>
        CompileNumber(bits);
        ok := true;
      case Var(n) =>
        CompileVariable(n);
        ok := true;
      case Neg(o) =>
        ok := CompileExpr(o, depth);
        if ok {
          ok := CallHelper(TraceFromRegs);
          GrownApp(mode, was, GenE(cpu, o, depth), [CallSym(TraceFromRegs)]);
          ok := CallAndLoad(NegRt);
          GrownApp(mode, was, GenE(cpu, o, depth) + [CallSym(TraceFromRegs)], [CallSym(NegRt), LoadTrace]);
          assert GenE(cpu, e, depth) == GenE(cpu, o, depth) + [CallSym(TraceFromRegs)] + [CallSym(NegRt), LoadTrace];
        }
      case Bin(op, l, r) =>
        ok := CompileOperands(e, depth);
        if ok {
          ghost var c := GenE(cpu, l, depth) + [Op(StoreSlot(depth))] + GenE(cpu, r, depth + 1) + Operands(depth);
          if op.Cmp? {
            Emit(MovEdi(CmpCode(op.cmp)));
            GrownApp(mode, was, c, [Op(MovEdi(CmpCode(op.cmp)))]);
          } else {
            assert c + [] == c;
          }
          HelperModelled(op);
          ok := CallAndLoad(HelperOf(op));
          GrownApp(mode, was, c + CmpArg(op), [CallSym(HelperOf(op)), LoadTrace]);
        }
    }

    // ----- statements without nested blocks

    method CompileLoopControl(isBreak: bool) returns (ok: bool)
      modifies this
      ensures ok == (old(loops) != [] &&
                var top := old(loops)[|old(loops)| - 1];
                if isBreak then |top.breaks| < MAX_LOOP_JUMPS else |top.continues| < MAX_LOOP_JUMPS)
      ensures ok ==> Buffer() == Grown(mode, old(Buffer()), [JmpTo(if isBreak then LoopEnd else LoopStart)])
    {
      hide Grown;
      if loops == [] {
        return false;
      }
      GrownWaiting(mode, Buffer(), if isBreak then LoopEnd else LoopStart);
      GrownPlain(mode, Buffer(), [HoleJump(false)]);
      var disp := EmitJmp();
      var n := |loops| - 1;
      var top := loops[n];
      if isBreak {
        if |top.breaks| >= MAX_LOOP_JUMPS {
          return false;
        }
        loops := loops[n := top.(breaks := top.breaks + [disp])];
        assert top.continues + [] == top.continues;
      } else {
        if |top.continues| >= MAX_LOOP_JUMPS {
          return false;
        }
        loops := loops[n := top.(continues := top.continues + [disp])];
        assert top.breaks + [] == top.breaks;
      }
      assert loops == LoopsWith(old(loops), if isBreak then [disp] else [], if isBreak then [] else [disp]);
      ok := true;
    }

    method CompileReturnVoid()
      modifies this
      ensures Buffer() == Grown(mode, old(Buffer()), [JmpTo(FunctionEnd)])
    {
      hide Grown;
      GrownWaiting(mode, Buffer(), FunctionEnd);
      GrownPlain(mode, Buffer(), [HoleJump(false)]);
      var disp := EmitJmp();
      exits := exits + [disp];
    }

    method CompileReturn(e: Expr) returns (ok: bool)
      requires AddrOk(mode.addr) && WellTyped(e)
      modifies this
      ensures ok == AcceptsE(e, 0)
      ensures ok ==> Buffer() == Grown(mode, old(Buffer()), CodeS(cpu, old(Buffer()), Return(e)))
    {
      hide Grown, AddrOk, GenE, AcceptsE;
      ghost var was := Buffer();
      ok := CompileExpr(e, 0);
      if ok {
        ghost var c := GenE(cpu, e, 0);
        ok := CallHelper(ReturnFromRegs);
        GrownApp(mode, was, c, [CallSym(ReturnFromRegs)]);
        CompileReturnVoid();
        GrownApp(mode, was, c + [CallSym(ReturnFromRegs)], [JmpTo(FunctionEnd)]);
        assert c + [CallSym(ReturnFromRegs)] + [JmpTo(FunctionEnd)] == c + [CallSym(ReturnFromRegs), JmpTo(FunctionEnd)];
      }
    }

    method CompileAssign(n: Name, e: Expr) returns (ok: bool)
      requires AddrOk(mode.addr) && WellTyped(e)
      modifies this
      ensures ok == (n != [] && AcceptsE(e, 0))
      ensures ok ==> Buffer() == Grown(mode, old(Buffer()), CodeS(cpu, old(Buffer()), Assign(n, e)))
    {
      hide Grown, AddrOk, GenE, AcceptsE;
      if n == [] {
        return false;
      }
      ghost var was := Buffer();
      ok := CompileExpr(e, 0);
      if ok {
        ghost var c := GenE(cpu, e, 0);
        ok := StoreTypedSlot(0);
        GrownApp(mode, was, c, [Op(StoreSlot(0))]);
        EmitNameRef(n);
        GrownApp(mode, was, c + [Op(StoreSlot(0))], [LeaName(n)]);
        ok := LoadToTrace(0);
        GrownApp(mode, was, c + [Op(StoreSlot(0))] + [LeaName(n)], [Op(LoadSlot(0)), CallSym(TraceFromRegs)]);
        ghost var d := c + [Op(StoreSlot(0))] + [LeaName(n)] + [Op(LoadSlot(0)), CallSym(TraceFromRegs)];
        ok := CallHelper(SetVariable);
        GrownApp(mode, was, d, [CallSym(SetVariable)]);
        ok := LoadTypedSlot(0);
        GrownApp(mode, was, d + [CallSym(SetVariable)], [Op(LoadSlot(0))]);
        assert d + [CallSym(SetVariable)] + [Op(LoadSlot(0))] ==
               c + [Op(StoreSlot(0)), LeaName(n), Op(LoadSlot(0)), CallSym(TraceFromRegs), CallSym(SetVariable), Op(LoadSlot(0))];
      }
    }

    method CompileDeclaration(n: Name, t: Ty, e: Expr) returns (ok: bool)
      requires AddrOk(mode.addr) && WellTyped(e)
      modifies this
      ensures ok == AcceptsE(e, 0)
      ensures ok ==> Buffer() == Grown(mode, old(Buffer()), CodeS(cpu, old(Buffer()), DeclareS(n, t, e)))
    {
      hide Grown, AddrOk, GenE, AcceptsE, TyCode;
      ghost var was := Buffer();
      ok := CompileExpr(e, 0);
      if ok {
        ghost var c := GenE(cpu, e, 0);
        ok := StoreTypedSlot(0);
        GrownApp(mode, was, c, [Op(StoreSlot(0))]);
        ok := LoadToTrace(0);
        GrownApp(mode, was, c + [Op(StoreSlot(0))], [Op(LoadSlot(0)), CallSym(TraceFromRegs)]);
        ghost var d := c + [Op(StoreSlot(0))] + [Op(LoadSlot(0)), CallSym(TraceFromRegs)];
        EmitNameRef(n);
        GrownApp(mode, was, d, [LeaName(n)]);
        Emit(MovEsi(TyCode(t)));
        GrownApp(mode, was, d + [LeaName(n)], [Op(MovEsi(TyCode(t)))]);
        ok := CallAndLoad(DeclareVariable);
        GrownApp(mode, was, d + [LeaName(n)] + [Op(MovEsi(TyCode(t)))], [CallSym(DeclareVariable), LoadTrace]);
        assert d + [LeaName(n)] + [Op(MovEsi(TyCode(t)))] + [CallSym(DeclareVariable), LoadTrace] ==
               c + [Op(StoreSlot(0)), Op(LoadSlot(0)), CallSym(TraceFromRegs), LeaName(n), Op(MovEsi(TyCode(t))), CallSym(DeclareVariable), LoadTrace];
      }
    }

    method CompileSimple(st: SimpleStmt) returns (ok: bool)
      requires AddrOk(mode.addr) && WellTypedLine(One(st)) && Room(loops, 0, 0)
      modifies this
      ensures ok ==> DidS(cpu, mode, old(Buffer()), Buffer(), st)
      ensures AcceptedS(old(Buffer()), st) ==> ok
      ensures MustS(cpu, old(Buffer()), st) ==> ok
    {
      hide Grown, AddrOk, GenE, AcceptsE, NameOk, WellTyped;
      match st
      case Skip =>
        GrownNothing(mode, Buffer());
        ok := true;
      case Break => ok := CompileLoopControl(true);
      case Continue => ok := CompileLoopControl(false);
      case Return(e) => ok := CompileReturn(e);
      case ReturnVoid =>
        CompileReturnVoid();
        ok := true;
      case DeclareS(n, t, e) => ok := CompileDeclaration(n, t, e);
      case Assign(n, e) => ok := CompileAssign(n, e);
      case ExprS(e) => ok := CompileExpr(e, 0);
    }

    // ----- blocks

    method CompileIf(lines: seq<Line>, i: nat) returns (ok: bool, next: nat)
      requires AddrOk(mode.addr) && WellTypedLines(lines) && Room(loops, 0, 0)
      requires i < |lines| && lines[i].IfLine?
      modifies this
      ensures ok ==> i < next <= |lines| && First(lines[i..]).Some? && First(lines[i..]).value.1 == lines[next..]
      ensures ok ==> DidS(cpu, mode, old(Buffer()), Buffer(), First(lines[i..]).value.0)
      ensures First(lines[i..]).Some? && MustS(cpu, old(Buffer()), First(lines[i..]).value.0) ==> ok
      decreases |lines|, 0
    {
      hide Grown, AddrOk, GenE, GenB, AcceptsE, AcceptedS, AcceptedB, WellTyped, Scan, Le32, Room, Size, ParseB, Split, First, MustS, MustB, DidB, DidS, PatchAt, Front, ToElse;
      next := i;
      FirstIfAt(lines, i);
      var m := FindBlockEnd(lines, i, OfIf);
      if m.None? {
        return false, i;
      }
      var end := m.value.end;
      next := end + 1;
      if m.value.els.None? {
        ok := CompileThenOnly(lines, i, end);
      } else {
        ok := CompileThenElse(lines, i, m.value.els.value, end);
      }
    }

    method CompileThenOnly(lines: seq<Line>, i: nat, end: nat) returns (ok: bool)
      requires AddrOk(mode.addr) && WellTypedLines(lines) && Room(loops, 0, 0)
      requires i < end < |lines| && lines[i].IfLine?
      modifies this
      ensures ok ==> ParseB(lines[i + 1..end]).Some? && DidS(cpu, mode, old(Buffer()), Buffer(), If(lines[i].c, ParseB(lines[i + 1..end]).value))
      ensures ParseB(lines[i + 1..end]).Some? && MustS(cpu, old(Buffer()), If(lines[i].c, ParseB(lines[i + 1..end]).value)) ==> ok
      decreases |lines[i + 1..end]|, 2
    {
      hide Grown, AddrOk, GenE, GenB, AcceptsE, AcceptedS, AcceptedB, WellTyped, Le32, Room, Size, ParseB, MustS, MustB, DidB, PatchAt, GenS;
      ghost var was := Buffer();
      var c := lines[i].c;
      assert WellTypedLine(lines[i]);
      ghost var thn := ParseB(lines[i + 1..end]);
      if thn.Some? && MustS(cpu, was, If(c, thn.value)) {
        IfMust(cpu, mode, was, c, thn.value);
      }
      ok := CompileExpr(c, 0);
      if !ok { return; }
      FrontSize(cpu, mode, was, c);
      var disp := EmitJumpIfTypedFalse();
      assert Buffer() == Front(cpu, mode, was, c);
      ok := CompileBlock(lines[i + 1..end]);
      if !ok { return; }
      assert DidB(cpu, mode, Front(cpu, mode, was, c), Buffer(), thn.value);
      IfDid(cpu, mode, was, c, thn.value, Buffer());
      DidBuffer(cpu, mode, Front(cpu, mode, was, c), Buffer(), thn.value);
      IfBuilt(cpu, mode, was, c, thn.value, Buffer());
      ok := PatchRel32(disp, |bytes|);
    }

    method CompileThenElse(lines: seq<Line>, i: nat, els: nat, end: nat) returns (ok: bool)
      requires AddrOk(mode.addr) && WellTypedLines(lines) && Room(loops, 0, 0)
      requires i < els < end < |lines| && lines[i].IfLine?
      modifies this
      ensures var t, e := ParseB(lines[i + 1..els]), ParseB(lines[els + 1..end]);
              && (ok ==> t.Some? && e.Some? && DidS(cpu, mode, old(Buffer()), Buffer(), IfElse(lines[i].c, t.value, e.value)))
              && (t.Some? && e.Some? && MustS(cpu, old(Buffer()), IfElse(lines[i].c, t.value, e.value)) ==> ok)
      decreases |lines[i + 1..end]|, 3
    {
      hide Grown, AddrOk, GenE, GenB, AcceptsE, AcceptedS, AcceptedB, WellTyped, Le32, Room, Size, ParseB, MustS, MustB, DidB, DidS, PatchAt, GenS, ToElse;
      ghost var was := Buffer();
      var c := lines[i].c;
      assert WellTypedLine(lines[i]);
      ghost var t, e := ParseB(lines[i + 1..els]), ParseB(lines[els + 1..end]);
      if t.Some? && e.Some? && MustS(cpu, was, IfElse(c, t.value, e.value)) {
        ElseMust(cpu, mode, was, c, t.value, e.value);
      }
      ok := CompileExpr(c, 0);
      if !ok { return; }
      FrontSize(cpu, mode, was, c);
      var disp := EmitJumpIfTypedFalse();
      assert Buffer() == Front(cpu, mode, was, c);
      ok := CompileBlock(lines[i + 1..els]);
      if !ok { return; }
      ghost var s3 := Buffer();
      assert DidB(cpu, mode, Front(cpu, mode, was, c), s3, t.value);
      DidBuffer(cpu, mode, Front(cpu, mode, was, c), s3, t.value);
      ElseReached(cpu, mode, was, c, t.value, s3);
      var over := EmitJmp();
      ok := PatchRel32(disp, |bytes|);
      if !ok { return; }
      assert Buffer() == Grown(mode, was, ToElse(cpu, was, c, t.value));
      ok := CompileElse(lines, els, end, over, was, c, t.value, s3);
    }

    /** The else-branch; over is where the jump past it lies. */
    method CompileElse(lines: seq<Line>, els: nat, end: nat, over: nat, ghost was: Buf, ghost c: Expr, ghost thn: Block, ghost s3: Buf)
      returns (ok: bool)
      requires AddrOk(mode.addr) && WellTypedLines(lines) && els < end < |lines|
      requires AcceptsE(c, 0) && DidB(cpu, mode, Front(cpu, mode, was, c), s3, thn)
      requires Buffer() == Grown(mode, was, ToElse(cpu, was, c, thn)) && over == |bytes| - 4
      modifies this
      ensures var e := ParseB(lines[els + 1..end]);
              && (ok ==> e.Some? && DidS(cpu, mode, was, Buffer(), IfElse(c, thn, e.value)))
              && (e.Some? && MustS(cpu, was, IfElse(c, thn, e.value)) ==> ok)
      decreases |lines[els + 1..end]|, 2
    {
      hide Grown, AddrOk, GenE, GenB, AcceptsE, AcceptedS, AcceptedB, WellTyped, Le32, Room, Size, ParseB, MustS, MustB, DidB, PatchAt, GenS, ToElse, Front;
      ghost var e := ParseB(lines[els + 1..end]);
      if e.Some? && MustS(cpu, was, IfElse(c, thn, e.value)) {
        ElseMust(cpu, mode, was, c, thn, e.value);
      }
      ToElseRoom(cpu, mode, was, c, thn, 0, 0);
      DidRoom(cpu, mode, Front(cpu, mode, was, c), s3, thn);
      FrontSize(cpu, mode, was, c);
      ghost var s5 := Buffer();
      ok := CompileBlock(lines[els + 1..end]);
      if !ok { return; }
      ElseDid(cpu, mode, was, c, thn, e.value, s3, Buffer());
      DidBuffer(cpu, mode, s5, Buffer(), e.value);
      ElseBuilt(cpu, mode, was, c, thn, e.value, Buffer());
      ok := PatchRel32(over, |bytes|);
    }

    method CompileLoop(lines: seq<Line>, i: nat) returns (ok: bool, next: nat)
      requires AddrOk(mode.addr) && WellTypedLines(lines) && Room(loops, 0, 0)
      requires i < |lines| && lines[i].LoopLine?
      modifies this
      ensures ok ==> i < next <= |lines| && First(lines[i..]).Some? && First(lines[i..]).value.1 == lines[next..]
      ensures ok ==> DidS(cpu, mode, old(Buffer()), Buffer(), First(lines[i..]).value.0)
      ensures First(lines[i..]).Some? && MustS(cpu, old(Buffer()), First(lines[i..]).value.0) ==> ok
      decreases |lines|, 0
    {
      hide Grown, AddrOk, GenB, AcceptedS, AcceptedB, WellTyped, Scan, Room, ParseB, Split, MustS, MustB, DidB, DidS;
      SplitAt(lines, i);
      next := i;
      var m := FindBlockEnd(lines, i, OfLoop);
      if m.None? {
        return false, i;
      }
      next := m.value.end + 1;
      ok := CompileLoopBody(lines, i, m.value.end);
    }

    method CompileLoopBody(lines: seq<Line>, i: nat, end: nat) returns (ok: bool)
      requires AddrOk(mode.addr) && WellTypedLines(lines) && Room(loops, 0, 0)
      requires i < end < |lines|
      modifies this
      ensures ok ==> ParseB(lines[i + 1..end]).Some? && DidS(cpu, mode, old(Buffer()), Buffer(), Loop(ParseB(lines[i + 1..end]).value))
      ensures ParseB(lines[i + 1..end]).Some? && MustS(cpu, old(Buffer()), Loop(ParseB(lines[i + 1..end]).value)) ==> ok
      decreases |lines[i + 1..end]|, 2
    {
      hide Grown, AddrOk, GenB, GenS, AcceptedS, AcceptedB, WellTyped, Le32, Size, ParseB, MustS, MustB, DidB, PatchAt, PatchAll, AllWithin, JumpPatches, Jumps, Fields, Within;
      ghost var was := Buffer();
      ghost var body := ParseB(lines[i + 1..end]);
      if body.Some? && MustS(cpu, was, Loop(body.value)) {
        LoopMust(cpu, was, body.value);
      }
      if |loops| >= MAX_LOOP_DEPTH {
        return false;
      }
      loops := loops + [LoopCtx(|bytes|, [], [])];
      assert Buffer() == LoopOpened(was);
      ok := CompileBlock(lines[i + 1..end]);
      if !ok { return; }
      LoopDid(cpu, mode, was, body.value, Buffer());
      LoopBuilt(cpu, mode, was, body.value, Buffer());
      var ctx := loops[|loops| - 1];
      loops := loops[..|loops| - 1];
      LoopEnds(cpu, mode, was, body.value, ctx.breaks, ctx.continues);
      ok := CloseLoop(ctx, was, body.value);
    }

    /** The jump back, and the loop's own jumps directed. */
    method CloseLoop(ctx: LoopCtx, ghost was: Buf, ghost body: Block) returns (ok: bool)
      requires var s4 := Grown(mode, Buffer(), [HoleJump(false)]);
               var c := LoopCode(cpu, was, body);
               var end := ctx.start + Size(CodeB(cpu, was, body)) + 5;
               var patch := Patch(|bytes| + 1, Le32(ctx.start - end));
               && ctx.start == |was.bytes| && |s4.bytes| == end == |bytes| + 5 && Within(patch, |s4.bytes|)
               && s4.(bytes := PatchAt(s4.bytes, patch)) == Grown(mode, was, c).(loops := was.loops)
               && ctx.breaks == Jumps(Fields(c, |was.bytes|), LoopEnd) && ctx.continues == Jumps(Fields(c, |was.bytes|), LoopStart)
      modifies this
      ensures ok ==> Buffer() == Grown(mode, was, CodeS(cpu, was, Loop(body)))
      ensures |was.bytes| + Size(CodeB(cpu, was, body)) + 5 < 0x8000_0000 ==> ok
    {
      hide Grown, GenB, GenS, Le32, Size, PatchAt, PatchAll, AllWithin, JumpPatches, Jumps, Fields, Within, LoopCode;
      LoopEnds(cpu, mode, was, body, ctx.breaks, ctx.continues);
      var back := EmitJmp();
      ok := PatchRel32(back, ctx.start);
      if !ok { return; }
      var end := |bytes|;
      ok := PatchJumps(ctx.breaks, end);
      if !ok { return; }
      ok := PatchJumps(ctx.continues, ctx.start);
    }

    method CompileBlock(lines: seq<Line>) returns (ok: bool)
      requires AddrOk(mode.addr) && WellTypedLines(lines) && Room(loops, 0, 0)
      modifies this
      ensures ok ==> ParseB(lines).Some? && DidB(cpu, mode, old(Buffer()), Buffer(), ParseB(lines).value)
      ensures ParseB(lines).Some? && MustB(cpu, old(Buffer()), ParseB(lines).value) ==> ok
      decreases |lines|, 1
    {
      hide Grown, AddrOk, GenB, GenS, AcceptedS, AcceptedB, WellTyped, ParseB, First, Split, MustS, MustB, DidB, DidS, CountBreaks, CountContinues;
      ghost var was := Buffer();
      ghost var done := Nil;
      NothingDone(cpu, mode, was);
      var i := 0;
      assert lines[0..] == lines;
      while i < |lines|
        invariant 0 <= i <= |lines|
        invariant ParseB(lines) == Prepend(done, ParseB(lines[i..]))
        invariant DidB(cpu, mode, was, Buffer(), done)
        invariant Room(loops, 0, 0)
        decreases |lines| - i
      {
        ghost var now := Buffer();
        var next := i + 1;
        assert WellTypedLine(lines[i]);
        match lines[i] {
          case One(st) =>
            OneFirst(lines, i);
            ok := CompileSimple(st);
          case IfLine(_) => ok, next := CompileIf(lines, i);
          case LoopLine => ok, next := CompileLoop(lines, i);
          case _ =>
            StrayFirst(lines, i);
            ok := false;
        }
        ghost var first := First(lines[i..]);
        if !ok {
          if ParseB(lines).Some? && MustB(cpu, was, ParseB(lines).value) {
            MustGoOn(cpu, mode, was, now, lines, i, done);
          }
          return;
        }
        NextFirst(lines, i, next, done, first.value.0);
        BlockStep(cpu, mode, was, now, done, first.value.0, Buffer());
        done := Concat(done, Cons(first.value.0, Nil));
        DidBuffer(cpu, mode, was, Buffer(), done);
        DidRoom(cpu, mode, was, Buffer(), done);
        GrownRoom(cpu, mode, was, done, |was.bytes|, 0, 0);
        i := next;
      }
      assert lines[i..] == [];
      ConcatAssoc(done, Nil, Nil);
      assert ParseB(lines) == Some(done) by { ParseNothing(); }
      ok := true;
    }

    // ----- a whole function

    /** Appends a copy of every name; offs says where each begins. */
    method AppendNames() returns (offs: seq<int>)
      requires RefsOk(refs)
      modifies this
      ensures Buffer() == old(Buffer()).(bytes := old(bytes) + Copies(old(refs)))
      ensures |offs| == |refs| && forall j :: 0 <= j < |refs| ==> offs[j] == NameAt(refs, |old(bytes)|, j) && 0 <= offs[j] <= |bytes|
    {
      hide NameOk, NameBytes, NameAt, Copies;
      ghost var start, names := |bytes|, refs;
      offs := [];
      var k := 0;
      CopiesNone(refs);
      assert refs[..0] == [];
      NameAtStart(refs, start);
      while k < |refs|
        invariant refs == names && 0 <= k <= |refs| && |offs| == k && RefsOk(names[..k])
        invariant Buffer() == old(Buffer()).(bytes := old(bytes) + Copies(names[..k]))
        invariant |bytes| == NameAt(names, start, k)
        invariant forall j :: 0 <= j < k ==> offs[j] == NameAt(names, start, j) && 0 <= offs[j] <= |bytes|
      {
        offs := offs + [|bytes|];
        CopiesNext(refs, k);
        NameAtNext(refs, start, k);
        EmitBytes(NameBytes(refs[k].name));
        k := k + 1;
      }
      assert names[..k] == names;
    }

    /** Appends every name and writes the displacement of every reference to it. */
    method FinalizeNames() returns (ok: bool)
      requires RefsOk(refs)
      requires AllWithin(NamePatches(refs, |bytes|), |bytes|)
      modifies this
      ensures AllWithin(NamePatches(old(refs), |old(bytes)|), |old(bytes) + Copies(old(refs))|)
      ensures |bytes| == |old(bytes) + Copies(old(refs))|
      ensures ok ==> Buffer() == old(Buffer()).(bytes := PatchAll(old(bytes) + Copies(old(refs)), NamePatches(old(refs), |old(bytes)|)))
      ensures |bytes| < 0x8000_0000 ==> ok
    {
      hide NameOk, PatchAt, Le32, NameAt, Copies;
      ghost var start, names := |bytes|, refs;
      ghost var ps := NamePatches(refs, start);
      var offs := AppendNames();
      ghost var raw := bytes;
      WidenPatches(ps, start, |bytes|);
      var k := 0;
      PatchNone(bytes);
      assert ps[..0] == [];
      while k < |refs|
        invariant refs == names && |ps| == |names| == |offs| && 0 <= k <= |refs| && |bytes| == |raw|
        invariant AllWithin(ps[..k], |bytes|)
        invariant Buffer() == old(Buffer()).(bytes := PatchAll(raw, ps[..k]))
      {
        assert Within(ps[k], start);
        ok := PatchRel32(refs[k].off, offs[k]);
        if !ok {
          return;
        }
        PatchNext(raw, ps, k);
        k := k + 1;
      }
      assert ps[..k] == ps;
      ok := true;
    }

    /** Compiles a function's lines. It succeeds only when they are those of a block the compiler
        accepts, and always then if the code stays below 2 GB, beyond which displacements need not
        fit; the buffer then holds that function's code: prologue, body, epilogue
        and names, every displacement written, and for relocatable code the places where helper
        addresses belong. */
    method CompileFunction(lines: seq<Line>) returns (ok: bool)
      requires AddrOk(mode.addr) && WellTypedLines(lines)
      modifies this
      ensures ok ==>
                && lines != [] && ParseB(lines).Some?
                && var b := ParseB(lines).value;
                && AcceptsB(b, 0) && NamesOk(Body(cpu, b))
                && bytes == FunctionBytes(cpu, b, AddressIn(mode))
                && relocs == (if mode.aot then BodyRelocs(cpu, b, mode.addr) else [])
      ensures (&& lines != [] && ParseB(lines).Some? && AcceptsB(ParseB(lines).value, 0)
               && FunctionSize(cpu, ParseB(lines).value) < 0x8000_0000) ==> ok
    {
      hide Grown, AddrOk, GenB, WellTyped, ParseB, Copies, Fields, Jumps, Names, Addresses, Blank, JumpPatches, NamePatches, PatchAll, AllWithin, Enc, AcceptsB, NamesOk, Blob, Size, BlobLen;
      if lines == [] {
        return false;
      }
      bytes, refs, relocs, loops, exits := [], [], [], [], [];
      EmitBytes(Enc(Prologue));
      EncLen(Prologue);
      assert [] + Enc(Prologue) == Enc(Prologue);
      ghost var start := Buffer();
      ok := CompileBlock(lines);
      if !ok {
        BlockSmall(cpu, lines, start);
        return;
      }
      ghost var b := ParseB(lines).value;
      StmtCorrect.GenNamesB(cpu, b, 0, PROLOGUE_LEN);
      DidBuffer(cpu, mode, start, Buffer(), b);
      AfterBlock(cpu, mode, start, Buffer(), b);
      FinishExact(mode, cpu, b);
      CopiesAreBlob(Body(cpu, b), PROLOGUE_LEN);
      JumpsInside(Body(cpu, b), PROLOGUE_LEN, FunctionEnd);
      NamePatchesWithin(cpu, b);
      BlobSize(Body(cpu, b));
      EncLen(Epilogue);
      var epilogueStart := |bytes|;
      EmitBytes(Enc(Epilogue));
      ok := PatchJumps(exits, epilogueStart);
      if !ok { return; }
      ok := FinalizeNames();
    }
  }

  /** Length of the finished code. */
  function FunctionSize(cpu: Cpu, b: Block): nat {
    NamesStart(Body(cpu, b)) + BlobLen(Body(cpu, b))
  }

  lemma CopiesNone(refs: seq<NameRef>)
    ensures RefsOk(refs[..0]) && Copies(refs[..0]) == []
  {
  }

  lemma CopiesNext(refs: seq<NameRef>, k: nat)
    requires k < |refs| && RefsOk(refs)
    ensures RefsOk(refs[..k]) && RefsOk(refs[..k + 1]) && Copies(refs[..k + 1]) == Copies(refs[..k]) + NameBytes(refs[k].name)
    ensures |NameBytes(refs[k].name)| == |refs[k].name| + 1
  {
    hide NameOk;
    assert refs[..k + 1][..k] == refs[..k];
  }

  lemma NameAtNext(refs: seq<NameRef>, na: int, k: nat)
    requires k < |refs|
    ensures NameAt(refs, na, k + 1) == NameAt(refs, na, k) + |refs[k].name| + 1
  {
  }

  lemma WidenPatches(ps: seq<Patch>, n: nat, m: nat)
    requires AllWithin(ps, n) && n <= m
    ensures AllWithin(ps, m)
  {
  }

  /** A body refused although its lines make a block: the block is not accepted, or is too long. */
  lemma BlockSmall(cpu: Cpu, lines: seq<Line>, start: Buf)
    requires |start.bytes| == PROLOGUE_LEN && start.loops == []
    requires ParseB(lines).Some? ==> !MustB(cpu, start, ParseB(lines).value)
    ensures ParseB(lines).Some? && AcceptsB(ParseB(lines).value, 0) ==>
              NamesStart(Body(cpu, ParseB(lines).value)) >= 0x8000_0000
  {
    hide GenB, AcceptsB, ParseB;
  }

  lemma AfterBlock(cpu: Cpu, mode: Mode, start: Buf, now: Buf, b: Block)
    requires start == Buf(Enc(Prologue), [], [], [], []) && now == Grown(mode, start, CodeB(cpu, start, b))
    ensures var c := Body(cpu, b);
            var fs := Fields(c, PROLOGUE_LEN);
            && now.bytes == Enc(Prologue) + Blank(mode, c, PROLOGUE_LEN) && |now.bytes| == PROLOGUE_LEN + Size(c)
            && now.refs == Names(fs) && now.exits == Jumps(fs, FunctionEnd) && now.loops == []
            && now.relocs == if mode.aot then BodyRelocs(cpu, b, mode.addr) else []
  {
    hide GenB, Fields, Names, Jumps, Addresses, Blank, Enc, RelocsOf;
    EncLen(Prologue);
    BlankSize(mode, Body(cpu, b), PROLOGUE_LEN);
  }

  /** Name references lie in the body, before the names. */
  lemma NamePatchesWithin(cpu: Cpu, b: Block)
    ensures var c := Body(cpu, b);
            AllWithin(NamePatches(Names(Fields(c, PROLOGUE_LEN)), NamesStart(c)), NamesStart(c))
  {
    hide GenB, Names, Fields, Le32, NameAt;
    var c := Body(cpu, b);
    NamesInside(c, PROLOGUE_LEN);
  }

  lemma {:induction false} NamesInside(c: Code, at: int)
    ensures forall k :: 0 <= k < |Names(Fields(c, at))| ==> at <= Names(Fields(c, at))[k].off <= at + Size(c) - 4
    decreases |c|
  {
    hide FieldsOf, Names;
    NoFields(LoopEnd);
    if c != [] {
      NamesInside(c[1..], at + ItemLen(c[0]));
      NamesApp(FieldsOf(c[0], at), Fields(c[1..], at + ItemLen(c[0])));
      ItemName(c[0], at);
    }
  }

  lemma ParseNothing()
    ensures ParseB([]) == Some(Nil)
  {
  }

  /** If the whole list of lines must be accepted, so must the statement at line i. */
  lemma MustGoOn(cpu: Cpu, mode: Mode, was: Buf, now: Buf, lines: seq<Line>, i: nat, done: Block)
    requires i < |lines| && ParseB(lines) == Prepend(done, ParseB(lines[i..])) && DidB(cpu, mode, was, now, done)
    requires ParseB(lines).Some? && MustB(cpu, was, ParseB(lines).value)
    ensures First(lines[i..]).Some? && MustS(cpu, now, First(lines[i..]).value.0)
    ensures ParseB(lines[i..]).Some?
  {
    hide ParseB, First, MustS, MustB, DidB;
    FirstParsed(lines[i..]);
    var (st, rest) := First(lines[i..]).value;
    BlockMust(cpu, mode, was, now, done, st, ParseB(rest).value);
  }

  lemma HelperModelled(op: BinOp)
    ensures Modelled(HelperOf(op))
  {
  }

  lemma FourBytes(code: Bytes, off: nat, d: int)
    requires off + 4 <= |code|
    ensures code[off := d % 256][off + 1 := d / 0x100 % 256][off + 2 := d / 0x1_0000 % 256][off + 3 := d / 0x100_0000 % 256]
         == PatchAt(code, Patch(off, Le32(d)))
  {
    Le32At(d);
  }

  lemma PatchNext(code: Bytes, ps: seq<Patch>, k: nat)
    requires k < |ps| && AllWithin(ps, |code|)
    ensures AllWithin(ps[..k], |code|) && AllWithin(ps[..k + 1], |code|)
    ensures PatchAll(code, ps[..k + 1]) == PatchAt(PatchAll(code, ps[..k]), ps[k])
  {
    hide PatchAt;
    assert ps[..k + 1][..k] == ps[..k];
  }
}
