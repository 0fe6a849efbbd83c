/** The compiler's buffer as a value: bytes, remembered names and addresses, the stack of open
    loops and the waiting returns; and what emitting a piece of code does to it. */
module JitBuffers {
  import opened Options
  import opened Values
  import opened Language
  import opened MachineCode
  import opened CodeGen
  import opened Backpatch

  /** A place in relocatable code where the address of symbol number id belongs. */
  datatype Reloc = Reloc(off: int, id: nat)

  datatype LoopCtx = LoopCtx(start: int, breaks: seq<int>, continues: seq<int>)

  datatype Buf = Buf(bytes: Bytes, refs: seq<NameRef>, relocs: seq<Reloc>, loops: seq<LoopCtx>, exits: seq<int>)

  /** Direct emission writes helper addresses; relocatable emission writes zeros and remembers. */
  datatype Mode = Mode(aot: bool, addr: Symbol -> nat)

  function NoAddress(s: Symbol): nat { 0 }

  function AddressIn(mode: Mode): Symbol -> nat { if mode.aot then NoAddress else mode.addr }

  function RelocsOf(rs: seq<AddressRef>, addr: Symbol -> nat): (r: seq<Reloc>)
    ensures |r| == |rs|
  {
    seq(|rs|, i requires 0 <= i < |rs| => Reloc(rs[i].off, SymbolId(addr, addr(rs[i].s))))
  }

  function Remembered(mode: Mode, rs: seq<AddressRef>): seq<Reloc> {
    if mode.aot then RelocsOf(rs, mode.addr) else []
  }

  /** The innermost open loop learns of breaks and continues. */
  function LoopsWith(loops: seq<LoopCtx>, breaks: seq<int>, continues: seq<int>): (r: seq<LoopCtx>)
    ensures |r| == |loops|
  {
    if loops == [] then [] else
    var top := loops[|loops| - 1];
    loops[..|loops| - 1] + [LoopCtx(top.start, top.breaks + breaks, top.continues + continues)]
  }

  function Blank(mode: Mode, c: Code, at: int): Bytes { Holes(c, at, 0, Nothing(AddressIn(mode))) }

  /** The buffer after code c has been emitted, its waiting fields empty but remembered. */
  function Grown(mode: Mode, s: Buf, c: Code): Buf {
    var fs := Fields(c, |s.bytes|);
    Buf(s.bytes + Blank(mode, c, |s.bytes|), s.refs + Names(fs), s.relocs + Remembered(mode, Addresses(fs)),
        LoopsWith(s.loops, Jumps(fs, LoopEnd), Jumps(fs, LoopStart)), s.exits + Jumps(fs, FunctionEnd))
  }

  lemma LoopsTwice(loops: seq<LoopCtx>, a: seq<int>, b: seq<int>, c: seq<int>, d: seq<int>)
    ensures LoopsWith(LoopsWith(loops, a, b), c, d) == LoopsWith(loops, a + c, b + d)
    ensures LoopsWith(loops, [], []) == loops
  {
    if loops != [] {
      var n := |loops| - 1;
      assert loops[n].breaks + a + c == loops[n].breaks + (a + c);
      assert loops[n].continues + b + d == loops[n].continues + (b + d);
      assert LoopsWith(loops, a, b)[..n] == loops[..n];
      assert loops[n].breaks + [] == loops[n].breaks && loops[n].continues + [] == loops[n].continues;
      assert loops == loops[..n] + [loops[n]];
    }
  }

  lemma RelocsApp(mode: Mode, a: seq<AddressRef>, b: seq<AddressRef>)
    ensures Remembered(mode, a + b) == Remembered(mode, a) + Remembered(mode, b)
  {
    hide SymbolId;
  }

  lemma BlankApp(mode: Mode, a: Code, b: Code, at: int)
    ensures Blank(mode, a + b, at) == Blank(mode, a, at) + Blank(mode, b, at + Size(a))
  {
    hide Holes, BlobLen, Size;
    var k := Nothing(AddressIn(mode));
    HolesApp(a, b, at, 0, k);
    NamelessAnywhere(b, at + Size(a), BlobLen(a), 0, k);
  }

  lemma BlankSize(mode: Mode, c: Code, at: int)
    ensures |Blank(mode, c, at)| == Size(c)
  {
    HolesSize(c, at, 0, Nothing(AddressIn(mode)));
  }

  lemma GrownSize(mode: Mode, s: Buf, c: Code)
    ensures |Grown(mode, s, c).bytes| == |s.bytes| + Size(c) && |Grown(mode, s, c).loops| == |s.loops|
  {
    hide Blank;
    BlankSize(mode, c, |s.bytes|);
  }

  lemma GrownNothing(mode: Mode, s: Buf)
    ensures Grown(mode, s, []) == s
  {
    LoopsTwice(s.loops, [], [], [], []);
    assert Remembered(mode, []) == [];
  }

  /** Emitting one piece after another is emitting both. */
  lemma GrownApp(mode: Mode, s: Buf, a: Code, b: Code)
    ensures Grown(mode, Grown(mode, s, a), b) == Grown(mode, s, a + b)
  {
    hide Blank, Fields, Jumps, Names, Addresses, LoopsWith, Remembered;
    var at := |s.bytes|;
    var fa, fb := Fields(a, at), Fields(b, at + Size(a));
    BlankApp(mode, a, b, at);
    BlankSize(mode, a, at);
    FieldsApp(a, b, at);
    ListsApp(fa, fb, LoopEnd);
    ListsApp(fa, fb, LoopStart);
    ListsApp(fa, fb, FunctionEnd);
    RelocsApp(mode, Addresses(fa), Addresses(fb));
    LoopsTwice(s.loops, Jumps(fa, LoopEnd), Jumps(fa, LoopStart), Jumps(fb, LoopEnd), Jumps(fb, LoopStart));
  }

  // ----- a single jump directed later

  function HoleJump(je: bool): Item { Op(if je then Je(0) else Jmp(0)) }

  function RealJump(je: bool, p: int): Item { if je then JeTo(At(p)) else JmpTo(At(p)) }

  /** Offset of the displacement inside a jump. */
  function DispOff(je: bool): nat { if je then 2 else 1 }

  lemma JumpsSame(je: bool, p: int)
    ensures ItemLen(HoleJump(je)) == ItemLen(RealJump(je, p)) == DispOff(je) + 4
    ensures BlobLen([HoleJump(je)]) == BlobLen([RealJump(je, p)]) == 0
    ensures Size([HoleJump(je)]) == Size([RealJump(je, p)]) == DispOff(je) + 4
  {
    assert [HoleJump(je)][1..] == [] && [RealJump(je, p)][1..] == [];
  }

  lemma JumpLists(je: bool, p: int, at: int, t: Target)
    requires !t.At?
    ensures Jumps(Fields([HoleJump(je)], at), t) == [] == Jumps(Fields([RealJump(je, p)], at), t)
    ensures Names(Fields([HoleJump(je)], at)) == [] == Names(Fields([RealJump(je, p)], at))
    ensures Addresses(Fields([HoleJump(je)], at)) == [] == Addresses(Fields([RealJump(je, p)], at))
  {
    OneItem(HoleJump(je), at);
    OneItem(RealJump(je, p), at);
    NoFields(t);
    var f := FieldsOf(RealJump(je, p), at);
    assert f == [f[0]];
    OneField(f[0], t);
  }

  lemma OneItem(x: Item, at: int)
    ensures Fields([x], at) == FieldsOf(x, at)
  {
    assert [x][1..] == [];
  }

  lemma BlankJump(mode: Mode, je: bool, p: int, at: int)
    ensures Blank(mode, [HoleJump(je)], at) == Enc(if je then Je(0) else Jmp(0))
    ensures Blank(mode, [RealJump(je, p)], at) == Enc(if je then Je(p - (at + 6)) else Jmp(p - (at + 5)))
  {
    hide Enc;
    BlankOne(mode, HoleJump(je), at);
    BlankOne(mode, RealJump(je, p), at);
  }

  lemma BlankOne(mode: Mode, x: Item, at: int)
    ensures Blank(mode, [x], at) == Enc(HoleInstr(x, at, 0, Nothing(AddressIn(mode))))
  {
    hide Enc, HoleInstr;
    var k := Nothing(AddressIn(mode));
    var c: Code := [x];
    assert c[1..] == [];
    assert Holes(c[1..], at + ItemLen(x), NameLen(x), k) == [];
    assert Holes(c, at, 0, k) == Enc(HoleInstr(x, at, 0, k)) + [];
  }

  /** Writing a jump's displacement over the zero it was emitted with is the same as having
      emitted the jump with its target known, wherever it lies in the code. */
  lemma JumpDirected(mode: Mode, s: Buf, a: Code, je: bool, b: Code, p: int)
    ensures var off := |s.bytes| + Size(a) + DispOff(je);
            var before := Grown(mode, s, a + [HoleJump(je)] + b);
            var patch := Patch(off, Le32(p - (off + 4)));
            && Within(patch, |before.bytes|)
            && before.(bytes := PatchAt(before.bytes, patch)) == Grown(mode, s, a + [RealJump(je, p)] + b)
  {
    hide Blank, Fields, Jumps, Names, Addresses, LoopsWith, Remembered, Le32, Enc, PatchAt, Within;
    var at := |s.bytes| + Size(a);
    JumpBytes(mode, s.bytes, a, je, b, p);
    JumpsSame(je, p);
    MiddleLists(|s.bytes|, a, HoleJump(je), b, LoopEnd);
    MiddleLists(|s.bytes|, a, HoleJump(je), b, LoopStart);
    MiddleLists(|s.bytes|, a, HoleJump(je), b, FunctionEnd);
    MiddleLists(|s.bytes|, a, RealJump(je, p), b, LoopEnd);
    MiddleLists(|s.bytes|, a, RealJump(je, p), b, LoopStart);
    MiddleLists(|s.bytes|, a, RealJump(je, p), b, FunctionEnd);
    JumpLists(je, p, at, LoopEnd);
    JumpLists(je, p, at, LoopStart);
    JumpLists(je, p, at, FunctionEnd);
  }

  lemma MiddleLists(at: int, a: Code, x: Item, b: Code, t: Target)
    ensures var at2 := at + Size(a);
            var fa, fx, fb := Fields(a, at), Fields([x], at2), Fields(b, at2 + Size([x]));
            var fs := Fields(a + [x] + b, at);
            && Jumps(fs, t) == Jumps(fa, t) + Jumps(fx, t) + Jumps(fb, t)
            && Names(fs) == Names(fa) + Names(fx) + Names(fb)
            && Addresses(fs) == Addresses(fa) + Addresses(fx) + Addresses(fb)
  {
    hide Fields, Jumps, Names, Addresses;
    SizeApp(a, [x]);
    FieldsApp(a + [x], b, at);
    FieldsApp(a, [x], at);
    ListsApp(Fields(a + [x], at), Fields(b, at + Size(a + [x])), t);
    ListsApp(Fields(a, at), Fields([x], at + Size(a)), t);
  }

  lemma JumpSpot(je: bool, at: int, p: int)
    ensures var before, o, bs := Enc(if je then Je(0) else Jmp(0)), DispOff(je), Le32(p - (at + DispOff(je) + 4));
      && 0 <= o && o + |bs| <= |before| && |bs| == 4
      && before[..o] + bs + before[o + 4..] == Enc(if je then Je(p - (at + 6)) else Jmp(p - (at + 5)))
  {
    hide Le32, Enc;
    Le32Len(p - (at + DispOff(je) + 4));
    if je {
      JeSpot(at, 0, p - (at + 6));
    } else {
      JmpSpot(at, 0, p - (at + 5));
    }
  }

  lemma Le32Len(x: int)
    ensures |Le32(x)| == 4
  {
  }

  lemma JumpBytes(mode: Mode, pre: Bytes, a: Code, je: bool, b: Code, p: int)
    ensures var off := |pre| + Size(a) + DispOff(je);
            var before := pre + Blank(mode, a + [HoleJump(je)] + b, |pre|);
            && Within(Patch(off, Le32(p - (off + 4))), |before|)
            && PatchAt(before, Patch(off, Le32(p - (off + 4)))) == pre + Blank(mode, a + [RealJump(je, p)] + b, |pre|)
  {
    hide Blank, Le32, Enc, DispOff, Size, PatchAt, Within, ItemLen, HoleJump, RealJump, BlobLen;
    var at := |pre| + Size(a);
    var x, y := [HoleJump(je)], [RealJump(je, p)];
    JumpsSame(je, p);
    BlankApp(mode, a + x, b, |pre|);
    BlankApp(mode, a, x, |pre|);
    BlankApp(mode, a + y, b, |pre|);
    BlankApp(mode, a, y, |pre|);
    SizeApp(a, x);
    SizeApp(a, y);
    BlankSize(mode, a, |pre|);
    BlankJump(mode, je, p, at);
    var ba, bb := Blank(mode, a, |pre|), Blank(mode, b, at + DispOff(je) + 4);
    var before := Enc(if je then Je(0) else Jmp(0));
    var bs := Le32(p - (at + DispOff(je) + 4));
    JumpSpot(je, at, p);
    SpotPatched(pre + ba, before, DispOff(je), bs, bb);
    Appended(pre, ba, before, bb);
    Appended(pre, ba, before[..DispOff(je)] + bs + before[DispOff(je) + 4..], bb);
  }

  lemma Appended<T>(a: seq<T>, b: seq<T>, c: seq<T>, d: seq<T>)
    ensures (a + b) + c + d == a + (b + c + d)
  {
  }

  // ----- closing a loop

  /** Directing the remembered breaks to the loop's end and the continues to its start leaves the
      code of the whole loop, and nothing remembered of its jumps. */
  lemma LoopClosed(mode: Mode, s: Buf, c: Code, start: int, end: int)
    ensures var fs := Fields(c, |s.bytes|);
            var pe, ps := JumpPatches(Jumps(fs, LoopEnd), end), JumpPatches(Jumps(fs, LoopStart), start);
            var one := Grown(mode, s, c);
            && AllWithin(pe, |one.bytes|) && AllWithin(ps, |one.bytes|)
            && Buf(PatchAll(PatchAll(one.bytes, pe), ps), one.refs, one.relocs, s.loops, one.exits)
            == Grown(mode, s, Settle(Settle(c, LoopEnd, end), LoopStart, start))
  {
    hide Holes, Fields, Jumps, Names, Addresses, LoopsWith, Remembered, PatchAll, AllWithin, JumpPatches, RoundPatches, Settle;
    var at := |s.bytes|;
    var k := Nothing(AddressIn(mode));
    var r1, r2 := Settling(LoopEnd, end), Settling(LoopStart, start);
    var d := Settle(c, LoopEnd, end);
    var fs := Fields(c, at);
    HolesSize(c, at, 0, k);
    JumpRound(fs, 0, LoopEnd, end);
    JumpRound(fs, 0, LoopStart, start);
    RoundFills(s.bytes, c, 0, k, r1, []);
    RoundFills(s.bytes, c, 0, After(k, r1), r2, []);
    SettleHoles(c, LoopEnd, end, at, 0, After(k, r2));
    SettleHoles(d, LoopStart, start, at, 0, k);
    HolesTwice(k, end, start);
    SettleFields(c, LoopEnd, end, at, FunctionEnd);
    SettleFields(c, LoopEnd, end, at, LoopEnd);
    SettleFields(c, LoopEnd, end, at, LoopStart);
    SettleFields(d, LoopStart, start, at, FunctionEnd);
    SettleFields(d, LoopStart, start, at, LoopEnd);
    SettleFields(d, LoopStart, start, at, LoopStart);
    LoopsTwice(s.loops, [], [], [], []);
    assert s.bytes + Holes(c, at, 0, k) + [] == s.bytes + Holes(c, at, 0, k);
  }

  lemma HolesTwice(k: Known, end: int, start: int)
    ensures After(After(k, Settling(LoopStart, start)), Settling(LoopEnd, end)) == After(After(k, Settling(LoopEnd, end)), Settling(LoopStart, start))
  {
  }

  // ----- counting a loop's jumps

  lemma {:induction false} ExprJumps(cpu: Cpu, e: Expr, d: nat, at: int, t: Target)
    ensures Jumps(Fields(GenE(cpu, e, d), at), t) == []
  {
    ExprNoJumps(cpu, e, d);
    NoJumpsNone(GenE(cpu, e, d), at, t);
  }

  predicate Jumpless(c: Code) { forall k :: 0 <= k < |c| ==> !c[k].JmpTo? && !c[k].JeTo? }

  lemma {:induction false} ExprNoJumps(cpu: Cpu, e: Expr, d: nat)
    ensures Jumpless(GenE(cpu, e, d))
    decreases e
  {
    hide IntLiteral, HelperOf, Operands, CmpArg, Jumpless;
    match e
    case Num(_) => LeafJumpless(cpu, e, d);
    case Var(_) => LeafJumpless(cpu, e, d);
    case Neg(o) =>
      ExprNoJumps(cpu, o, d);
      NoneJump([CallSym(TraceFromRegs), CallSym(NegRt), LoadTrace]);
      JumplessApp(GenE(cpu, o, d), [CallSym(TraceFromRegs), CallSym(NegRt), LoadTrace]);
    case Bin(op, l, r) =>
      ExprNoJumps(cpu, l, d);
      ExprNoJumps(cpu, r, d + 1);
      BinJumpless(GenE(cpu, l, d), GenE(cpu, r, d + 1), op, d);
  }

  lemma LeafJumpless(cpu: Cpu, e: Expr, d: nat)
    requires e.Num? || e.Var?
    ensures Jumpless(GenE(cpu, e, d))
  {
    hide IntLiteral;
  }

  lemma JumplessApp(a: Code, b: Code)
    requires Jumpless(a) && Jumpless(b)
    ensures Jumpless(a + b)
  {
  }

  lemma NoneJump(c: Code)
    requires forall k :: 0 <= k < |c| ==> !c[k].JmpTo? && !c[k].JeTo?
    ensures Jumpless(c)
  {
  }

  lemma BinJumpless(a: Code, b: Code, op: BinOp, d: nat)
    requires Jumpless(a) && Jumpless(b)
    ensures Jumpless(a + [Op(StoreSlot(d))] + b + Operands(d) + CmpArg(op) + [CallSym(HelperOf(op)), LoadTrace])
  {
    hide HelperOf, Jumpless;
    NoneJump([Op(StoreSlot(d))]);
    NoneJump(Operands(d));
    NoneJump(CmpArg(op));
    NoneJump([CallSym(HelperOf(op)), LoadTrace]);
    JumplessApp(a, [Op(StoreSlot(d))]);
    JumplessApp(a + [Op(StoreSlot(d))], b);
    JumplessApp(a + [Op(StoreSlot(d))] + b, Operands(d));
    JumplessApp(a + [Op(StoreSlot(d))] + b + Operands(d), CmpArg(op));
    JumplessApp(a + [Op(StoreSlot(d))] + b + Operands(d) + CmpArg(op), [CallSym(HelperOf(op)), LoadTrace]);
  }

  lemma {:induction false} NoJumpsNone(c: Code, at: int, t: Target)
    requires Jumpless(c)
    ensures Jumps(Fields(c, at), t) == []
    decreases |c|
  {
    hide FieldsOf, Jumps;
    NoFields(t);
    if c != [] {
      assert !c[0].JmpTo? && !c[0].JeTo?;
      ItemNoJump(c[0], at, t);
      NoJumpsNone(c[1..], at + ItemLen(c[0]), t);
      JumpsApp(FieldsOf(c[0], at), Fields(c[1..], at + ItemLen(c[0])), t);
    }
  }

  lemma ItemNoJump(x: Item, at: int, t: Target)
    requires !x.JmpTo? && !x.JeTo?
    ensures Jumps(FieldsOf(x, at), t) == []
  {
  }
}
