/** Fields written later: jump displacements, name displacements and helper addresses are emitted
    as zero, remembered, and filled in once their value is known. Filling in gives the final code. */
module Backpatch {
  import opened Options
  import opened Values
  import opened Language
  import opened MachineCode
  import opened CodeGen

  // ----- writing over bytes already emitted

  datatype Patch = Patch(off: int, bs: Bytes)

  predicate Within(p: Patch, size: nat) { 0 <= p.off && p.off + |p.bs| <= size }

  function PatchAt(code: Bytes, p: Patch): (r: Bytes)
    requires Within(p, |code|)
    ensures |r| == |code|
  {
    code[..p.off] + p.bs + code[p.off + |p.bs|..]
  }

  ghost predicate AllWithin(ps: seq<Patch>, size: nat) { forall k :: 0 <= k < |ps| ==> Within(ps[k], size) }

  /** All patches, first to last. */
  ghost function PatchAll(code: Bytes, ps: seq<Patch>): (r: Bytes)
    requires AllWithin(ps, |code|)
    ensures |r| == |code|
    decreases |ps|
  {
    if ps == [] then code else
    assert AllWithin(ps[..|ps| - 1], |code|);
    PatchAt(PatchAll(code, ps[..|ps| - 1]), ps[|ps| - 1])
  }

  lemma {:induction false} PatchAllApp(code: Bytes, a: seq<Patch>, b: seq<Patch>)
    requires AllWithin(a, |code|) && AllWithin(b, |code|)
    ensures AllWithin(a + b, |code|) && PatchAll(code, a + b) == PatchAll(PatchAll(code, a), b)
    decreases |b|
  {
    hide PatchAt, Within;
    if b == [] {
      assert a + b == a;
    } else {
      var n := |b| - 1;
      assert (a + b)[..|a| + n] == a + b[..n];
      assert (a + b)[|a| + n] == b[n];
      PatchAllApp(code, a, b[..n]);
      assert AllWithin(a + b, |code|);
    }
  }

  lemma PatchOne(code: Bytes, p: Patch)
    requires Within(p, |code|)
    ensures AllWithin([p], |code|) && PatchAll(code, [p]) == PatchAt(code, p)
  {
    assert [p][..0] == [];
    assert PatchAll(code, [p][..0]) == code;
  }

  // ----- the fields of a piece of code

  datatype What = AddressOf(s: Symbol) | JumpTo(t: Target) | NameOf(n: Name)

  datatype Field = Field(off: int, what: What)

  function Width(f: Field): nat { if f.what.AddressOf? then 8 else 4 }

  function FieldsOf(x: Item, at: int): seq<Field> {
    match x
    case Op(_) => []
    case CallSym(s) => [Field(at + 2, AddressOf(s))]
    case LoadTrace => [Field(at + 2, AddressOf(TraceData))]
    case LeaName(n) => [Field(at + 3, NameOf(n))]
    case JmpTo(t) => [Field(at + 1, JumpTo(t))]
    case JeTo(t) => [Field(at + 2, JumpTo(t))]
  }

  function Fields(c: Code, at: int): seq<Field>
    decreases |c|
  {
    if c == [] then [] else FieldsOf(c[0], at) + Fields(c[1..], at + ItemLen(c[0]))
  }

  lemma {:induction false} FieldsApp(a: Code, b: Code, at: int)
    ensures Fields(a + b, at) == Fields(a, at) + Fields(b, at + Size(a))
    decreases |a|
  {
    hide FieldsOf;
    if a == [] {
      assert a + b == b;
    } else {
      assert (a + b)[1..] == a[1..] + b;
      FieldsApp(a[1..], b, at + ItemLen(a[0]));
    }
  }

  ghost predicate Apart(fs: seq<Field>, lo: int, hi: int) {
    && (forall k :: 0 <= k < |fs| ==> lo <= fs[k].off && fs[k].off + Width(fs[k]) <= hi)
    && (forall j, k :: 0 <= j < k < |fs| ==> fs[j].off + Width(fs[j]) <= fs[k].off)
  }

  /** Every field lies inside the code, and no two of them -- address, jump or name -- share a byte. */
  lemma {:induction false} FieldsApart(c: Code, at: int)
    ensures Apart(Fields(c, at), at, at + Size(c))
    decreases |c|
  {
    hide FieldsOf, Width, ItemLen;
    if c != [] {
      ItemFieldInside(c[0], at);
      FieldsApart(c[1..], at + ItemLen(c[0]));
    }
  }

  lemma ItemFieldInside(x: Item, at: int)
    ensures |FieldsOf(x, at)| <= 1 && Apart(FieldsOf(x, at), at, at + ItemLen(x))
  {
  }

  // ----- what the emitter remembers

  datatype NameRef = NameRef(off: int, name: Name)

  datatype AddressRef = AddressRef(off: int, s: Symbol)

  /** Offsets of the jumps waiting for t. */
  function Jumps(fs: seq<Field>, t: Target): seq<int> {
    if fs == [] then [] else JumpOf(fs[0], t) + Jumps(fs[1..], t)
  }

  function JumpOf(f: Field, t: Target): seq<int> { if f.what == JumpTo(t) then [f.off] else [] }

  function Names(fs: seq<Field>): seq<NameRef> {
    if fs == [] then [] else
    NameRefOf(fs[0]) + Names(fs[1..])
  }

  function NameRefOf(f: Field): seq<NameRef> {
    if f.what.NameOf? then [NameRef(f.off, f.what.n)] else []
  }

  function Addresses(fs: seq<Field>): seq<AddressRef> {
    if fs == [] then [] else
    AddressRefOf(fs[0]) + Addresses(fs[1..])
  }

  function AddressRefOf(f: Field): seq<AddressRef> {
    if f.what.AddressOf? then [AddressRef(f.off, f.what.s)] else []
  }

  lemma {:induction false} JumpsApp(a: seq<Field>, b: seq<Field>, t: Target)
    ensures Jumps(a + b, t) == Jumps(a, t) + Jumps(b, t)
  {
    hide JumpOf;
    if a == [] {
      assert a + b == b;
    } else {
      assert (a + b)[1..] == a[1..] + b;
      JumpsApp(a[1..], b, t);
    }
  }

  lemma {:induction false} NamesApp(a: seq<Field>, b: seq<Field>)
    ensures Names(a + b) == Names(a) + Names(b)
  {
    hide NameRefOf;
    if a == [] {
      assert a + b == b;
    } else {
      assert (a + b)[1..] == a[1..] + b;
      NamesApp(a[1..], b);
    }
  }

  lemma {:induction false} AddressesApp(a: seq<Field>, b: seq<Field>)
    ensures Addresses(a + b) == Addresses(a) + Addresses(b)
  {
    hide AddressRefOf;
    if a == [] {
      assert a + b == b;
    } else {
      assert (a + b)[1..] == a[1..] + b;
      AddressesApp(a[1..], b);
    }
  }

  // ----- emission with some fields still zero

  /** Which fields are filled in: jumps to a known end, names once their copies are placed, and
      helper addresses as given (zero in relocatable code). */
  datatype Known = Known(loopEnd: Option<int>, loopStart: Option<int>, functionEnd: Option<int>, names: bool, addr: Symbol -> nat)

  function Nothing(addr: Symbol -> nat): Known { Known(None, None, None, false, addr) }

  function KnownAt(t: Target, k: Known): Option<int> {
    match t case At(p) => Some(p) case LoopEnd => k.loopEnd case LoopStart => k.loopStart case FunctionEnd => k.functionEnd
  }

  function Rel(t: Target, end: int, k: Known): int {
    match KnownAt(t, k) case None => 0 case Some(p) => p - end
  }

  function HoleInstr(x: Item, at: int, na: int, k: Known): Instr {
    match x
    case Op(i) => i
    case CallSym(s) => CallAbs(k.addr(s))
    case LoadTrace => LoadResult(k.addr(TraceData))
    case LeaName(_) => LeaRdi(if k.names then na - (at + 7) else 0)
    case JmpTo(t) => Jmp(Rel(t, at + 5, k))
    case JeTo(t) => Je(Rel(t, at + 6, k))
  }

  function Holes(c: Code, at: int, na: int, k: Known): Bytes
    decreases |c|
  {
    if c == [] then [] else
    Enc(HoleInstr(c[0], at, na, k)) + Holes(c[1..], at + ItemLen(c[0]), na + NameLen(c[0]), k)
  }

  lemma {:induction false} HolesApp(a: Code, b: Code, at: int, na: int, k: Known)
    ensures Holes(a + b, at, na, k) == Holes(a, at, na, k) + Holes(b, at + Size(a), na + BlobLen(a), k)
    decreases |a|
  {
    hide Enc, HoleInstr;
    if a == [] {
      assert a + b == b;
    } else {
      assert (a + b)[1..] == a[1..] + b;
      HolesApp(a[1..], b, at + ItemLen(a[0]), na + NameLen(a[0]), k);
    }
  }

  lemma HoleLen(x: Item, at: int, na: int, k: Known)
    ensures |Enc(HoleInstr(x, at, na, k))| == ItemLen(x)
  {
    EncLen(HoleInstr(x, at, na, k));
  }

  lemma {:induction false} HolesSize(c: Code, at: int, na: int, k: Known)
    ensures |Holes(c, at, na, k)| == Size(c)
    decreases |c|
  {
    hide Enc, HoleInstr;
    if c != [] {
      HoleLen(c[0], at, na, k);
      HolesSize(c[1..], at + ItemLen(c[0]), na + NameLen(c[0]), k);
    }
  }

  /** With every field known nothing is left as a hole. */
  lemma {:induction false} NoHoles(c: Code, at: int, na: int, ends: Ends, addr: Symbol -> nat)
    ensures Holes(c, at, na, Known(Some(ends.loopEnd), Some(ends.loopStart), Some(ends.functionEnd), true, addr))
         == Emit(c, at, na, ends, addr)
    decreases |c|
  {
    hide Enc;
    if c != [] {
      NoHoles(c[1..], at + ItemLen(c[0]), na + NameLen(c[0]), ends, addr);
    }
  }

  /** Before the names are placed it does not matter where they would go. */
  lemma {:induction false} NamelessAnywhere(c: Code, at: int, na: int, nb: int, k: Known)
    requires !k.names
    ensures Holes(c, at, na, k) == Holes(c, at, nb, k)
    decreases |c|
  {
    hide Enc;
    if c != [] {
      NamelessAnywhere(c[1..], at + ItemLen(c[0]), na + NameLen(c[0]), nb + NameLen(c[0]), k);
    }
  }

  // ----- filling in

  /** One round of patches: a settled jump target, the names, or the helper addresses. */
  datatype Round = Settling(t: Target, p: int) | Naming | Addressing(addr: Symbol -> nat)

  function After(k: Known, r: Round): Known {
    match r
    case Settling(LoopEnd, p) => k.(loopEnd := Some(p))
    case Settling(LoopStart, p) => k.(loopStart := Some(p))
    case Settling(FunctionEnd, p) => k.(functionEnd := Some(p))
    case Settling(At(_), _) => k
    case Naming => k.(names := true)
    case Addressing(addr) => k.(addr := addr)
  }

  /** The patches a round makes to code c at `at` whose names start at na. */
  function RoundPatches(fs: seq<Field>, na: int, r: Round): seq<Patch> {
    if fs == [] then [] else
    FieldPatch(fs[0], na, r) + RoundPatches(fs[1..], na + FieldNameLen(fs[0]), r)
  }

  function FieldNameLen(f: Field): nat { if f.what.NameOf? then |f.what.n| + 1 else 0 }

  function FieldPatch(f: Field, na: int, r: Round): seq<Patch> {
    match r
    case Settling(t, p) => if f.what == JumpTo(t) then [Patch(f.off, Le32(p - (f.off + 4)))] else []
    case Naming => if f.what.NameOf? then [Patch(f.off, Le32(na - (f.off + 4)))] else []
    case Addressing(addr) => if f.what.AddressOf? then [Patch(f.off, Le64(addr(f.what.s)))] else []
  }

  /** Patch p, made inside an instruction lying at `at`, turns its bytes into others. */
  ghost predicate Turns(at: int, before: Bytes, p: Patch, after: Bytes) {
    var o := p.off - at;
    && 0 <= o && o + |p.bs| <= |before|
    && after == before[..o] + p.bs + before[o + |p.bs|..]
  }

  /** The patch of an instruction's field, if the round makes one, turns the instruction with the
      field as it was into the instruction with the field filled. */
  lemma FieldSpot(x: Item, at: int, na: int, k: Known, r: Round)
    requires !(r.Settling? && r.t.At?)
    ensures var ps := if FieldsOf(x, at) == [] then [] else FieldPatch(FieldsOf(x, at)[0], na, r);
            var before, after := Enc(HoleInstr(x, at, na, k)), Enc(HoleInstr(x, at, na, After(k, r)));
            && |ps| <= 1
            && (ps == [] ==> after == before)
            && (ps != [] ==> Turns(at, before, ps[0], after))
  {
    hide Le32, Le64, Turns, Enc;
    match x
    case Op(_) =>
    case CallSym(s) => CallSpot(at, k.addr(s), After(k, r).addr(s));
    case LoadTrace => LoadSpot(at, k.addr(TraceData), After(k, r).addr(TraceData));
    case LeaName(n) => LeaSpot(at, if k.names then na - (at + 7) else 0, na - (at + 7));
    case JmpTo(t) => JmpSpot(at, Rel(t, at + 5, k), Rel(t, at + 5, After(k, r)));
    case JeTo(t) => JeSpot(at, Rel(t, at + 6, k), Rel(t, at + 6, After(k, r)));
  }

  lemma CallSpot(at: int, x: nat, y: nat)
    ensures Turns(at, Enc(CallAbs(x)), Patch(at + 2, Le64(y)), Enc(CallAbs(y)))
  {
    hide Le64;
    AddressSpot([0x48, 0xB8], x, y, [0xFF, 0xD0]);
  }

  lemma LoadSpot(at: int, x: nat, y: nat)
    ensures Turns(at, Enc(LoadResult(x)), Patch(at + 2, Le64(y)), Enc(LoadResult(y)))
  {
    hide Le64;
    AddressSpot([0x49, 0xBB], x, y, [0x41, 0x8B, 0x13, 0xF2, 0x41, 0x0F, 0x10, 0x43, 0x08, 0x49, 0x8B, 0x4B, 0x10]);
  }

  lemma LeaSpot(at: int, x: int, y: int)
    ensures Turns(at, Enc(LeaRdi(x)), Patch(at + 3, Le32(y)), Enc(LeaRdi(y)))
  {
    hide Le32;
    FieldSpot32([0x48, 0x8D, 0x3D], x, y);
  }

  lemma JmpSpot(at: int, x: int, y: int)
    ensures Turns(at, Enc(Jmp(x)), Patch(at + 1, Le32(y)), Enc(Jmp(y)))
  {
    hide Le32;
    FieldSpot32([0xE9], x, y);
  }

  lemma JeSpot(at: int, x: int, y: int)
    ensures Turns(at, Enc(Je(x)), Patch(at + 2, Le32(y)), Enc(Je(y)))
  {
    hide Le32;
    FieldSpot32([0x0F, 0x84], x, y);
  }

  lemma AddressSpot(a: Bytes, x: nat, y: nat, b: Bytes)
    ensures a + Le64(y) + b == (a + Le64(x) + b)[..|a|] + Le64(y) + (a + Le64(x) + b)[|a| + 8..]
  {
    hide Le64;
    assert (a + Le64(x) + b)[..|a|] == a;
    assert (a + Le64(x) + b)[|a| + 8..] == b;
  }

  lemma FieldSpot32(a: Bytes, x: int, y: int)
    ensures a + Le32(y) == (a + Le32(x))[..|a|] + Le32(y) + (a + Le32(x))[|a| + 4..]
  {
    hide Le32;
    assert (a + Le32(x))[..|a|] == a;
    assert (a + Le32(x))[|a| + 4..] == [];
  }

  lemma OnePatch(x: Item, at: int, na: int, r: Round)
    ensures RoundPatches(FieldsOf(x, at), na, r) ==
      if FieldsOf(x, at) == [] then [] else FieldPatch(FieldsOf(x, at)[0], na, r)
  {
    hide FieldPatch;
    var fs := FieldsOf(x, at);
    if fs != [] {
      assert fs[1..] == [] && RoundPatches(fs[1..], na + FieldNameLen(fs[0]), r) == [];
    }
  }

  lemma PatchNone(code: Bytes)
    ensures AllWithin([], |code|) && PatchAll(code, []) == code
  {
  }

  lemma ItemFilled(pre: Bytes, x: Item, na: int, k: Known, r: Round, post: Bytes)
    requires !(r.Settling? && r.t.At?)
    ensures var ps := RoundPatches(FieldsOf(x, |pre|), na, r);
            && AllWithin(ps, |pre| + ItemLen(x) + |post|)
            && |pre + Enc(HoleInstr(x, |pre|, na, k)) + post| == |pre| + ItemLen(x) + |post|
            && PatchAll(pre + Enc(HoleInstr(x, |pre|, na, k)) + post, ps) == pre + Enc(HoleInstr(x, |pre|, na, After(k, r))) + post
  {
    hide Enc, HoleInstr, FieldPatch, ItemLen, FieldsOf, RoundPatches, PatchAll, PatchAt, Within, AllWithin;
    var fs := FieldsOf(x, |pre|);
    var ps := RoundPatches(fs, na, r);
    var before := Enc(HoleInstr(x, |pre|, na, k));
    HoleLen(x, |pre|, na, k);
    FieldSpot(x, |pre|, na, k, r);
    OnePatch(x, |pre|, na, r);
    if ps == [] {
      PatchNone(pre + before + post);
    } else {
      var p := ps[0];
      assert ps == [p];
      var o := p.off - |pre|;
      SpotPatched(pre, before, o, p.bs, post);
      PatchOne(pre + before + post, p);
    }
  }

  lemma SpotPatched(pre: Bytes, before: Bytes, o: int, bs: Bytes, post: Bytes)
    requires 0 <= o && o + |bs| <= |before|
    ensures Within(Patch(|pre| + o, bs), |pre + before + post|)
    ensures PatchAt(pre + before + post, Patch(|pre| + o, bs)) == pre + (before[..o] + bs + before[o + |bs|..]) + post
  {
    var s := pre + before + post;
    assert s[..|pre| + o] == pre + before[..o];
    assert s[|pre| + o + |bs|..] == before[o + |bs|..] + post;
  }

  lemma {:induction false} RoundApp(a: seq<Field>, b: seq<Field>, na: int, r: Round)
    ensures RoundPatches(a + b, na, r) == RoundPatches(a, na, r) + RoundPatches(b, na + NamesLen(a), r)
    decreases |a|
  {
    hide FieldPatch;
    if a == [] {
      assert a + b == b;
    } else {
      assert (a + b)[1..] == a[1..] + b;
      RoundApp(a[1..], b, na + FieldNameLen(a[0]), r);
    }
  }

  function NamesLen(fs: seq<Field>): nat {
    if fs == [] then 0 else FieldNameLen(fs[0]) + NamesLen(fs[1..])
  }

  lemma ItemNamesLen(x: Item, at: int)
    ensures NamesLen(FieldsOf(x, at)) == NameLen(x)
  {
    var fs := FieldsOf(x, at);
    if fs != [] {
      assert fs[1..] == [];
    }
  }

  /** A round of patches over a piece of code, wherever it lies among other bytes, turns the code
      with those fields empty into the code with those fields filled, and touches nothing else. */
  lemma {:induction false} RoundFills(pre: Bytes, c: Code, na: int, k: Known, r: Round, post: Bytes)
    requires !(r.Settling? && r.t.At?)
    ensures var ps := RoundPatches(Fields(c, |pre|), na, r);
            && AllWithin(ps, |pre| + Size(c) + |post|)
            && |pre + Holes(c, |pre|, na, k) + post| == |pre| + Size(c) + |post|
            && PatchAll(pre + Holes(c, |pre|, na, k) + post, ps) == pre + Holes(c, |pre|, na, After(k, r)) + post
    decreases |c|
  {
    hide Enc, HoleInstr, FieldPatch, FieldsOf, PatchAll, ItemLen, After, Holes, Fields, RoundPatches, AllWithin;
    if c == [] {
      RoundOnNone(pre, na, k, r, post);
    } else {
      var x, rest := c[0], c[1..];
      var at, na2 := |pre| + ItemLen(x), na + NameLen(x);
      var k2 := After(k, r);
      var f1, f2 := FieldsOf(x, |pre|), Fields(rest, at);
      var p1, p2 := RoundPatches(f1, na, r), RoundPatches(f2, na2, r);
      var head, head2 := Enc(HoleInstr(x, |pre|, na, k)), Enc(HoleInstr(x, |pre|, na, k2));
      var tail, tail2 := Holes(rest, at, na2, k), Holes(rest, at, na2, k2);
      Opened(c, |pre|, na, k);
      Opened(c, |pre|, na, k2);
      HolesSize(rest, at, na2, k);
      HoleLen(x, |pre|, na, k);
      HoleLen(x, |pre|, na, k2);
      RoundApp(f1, f2, na, r);
      ItemNamesLen(x, |pre|);
      ItemFilled(pre, x, na, k, r, tail + post);
      RoundFills(pre + head2, rest, na2, k, r, post);
      Regroup(pre, head, tail, post);
      Regroup(pre, head2, tail, post);
      Regroup(pre, head2, tail2, post);
      PatchAllApp(pre + head + (tail + post), p1, p2);
    }
  }

  lemma Opened(c: Code, at: int, na: int, k: Known)
    requires c != []
    ensures Holes(c, at, na, k) == Enc(HoleInstr(c[0], at, na, k)) + Holes(c[1..], at + ItemLen(c[0]), na + NameLen(c[0]), k)
    ensures Fields(c, at) == FieldsOf(c[0], at) + Fields(c[1..], at + ItemLen(c[0]))
    ensures Size(c) == ItemLen(c[0]) + Size(c[1..])
  {
  }

  lemma RoundOnNone(pre: Bytes, na: int, k: Known, r: Round, post: Bytes)
    ensures RoundPatches(Fields([], |pre|), na, r) == [] && Holes([], |pre|, na, k) == [] && Holes([], |pre|, na, After(k, r)) == []
    ensures PatchAll(pre + [] + post, []) == pre + [] + post && AllWithin([], |pre| + |post|)
  {
  }

  lemma Regroup(a: Bytes, b: Bytes, c: Bytes, d: Bytes)
    ensures a + b + (c + d) == a + (b + c) + d == (a + b) + c + d
  {
  }

  // ----- rounds made from what was remembered

  function JumpPatches(offs: seq<int>, p: int): (r: seq<Patch>)
    ensures |r| == |offs|
  {
    seq(|offs|, i requires 0 <= i < |offs| => Patch(offs[i], Le32(p - (offs[i] + 4))))
  }

  /** Where copy i of the names goes when the first one goes to na. */
  function NameAt(refs: seq<NameRef>, na: int, i: nat): int
    requires i <= |refs|
  {
    if i == 0 then na else NameAt(refs, na, i - 1) + |refs[i - 1].name| + 1
  }

  function NamePatches(refs: seq<NameRef>, na: int): (r: seq<Patch>)
    ensures |r| == |refs|
  {
    seq(|refs|, i requires 0 <= i < |refs| => Patch(refs[i].off, Le32(NameAt(refs, na, i) - (refs[i].off + 4))))
  }

  function AddressPatches(rs: seq<AddressRef>, addr: Symbol -> nat): (r: seq<Patch>)
    ensures |r| == |rs|
  {
    seq(|rs|, i requires 0 <= i < |rs| => Patch(rs[i].off, Le64(addr(rs[i].s))))
  }

  lemma JumpPatchesApp(a: seq<int>, b: seq<int>, p: int)
    ensures JumpPatches(a + b, p) == JumpPatches(a, p) + JumpPatches(b, p)
  {
    hide Le32;
  }

  lemma JumpPatchesOne(f: Field, na: int, t: Target, p: int)
    ensures JumpPatches(JumpOf(f, t), p) == FieldPatch(f, na, Settling(t, p))
  {
    hide Le32;
  }

  lemma {:induction false} JumpRound(fs: seq<Field>, na: int, t: Target, p: int)
    ensures RoundPatches(fs, na, Settling(t, p)) == JumpPatches(Jumps(fs, t), p)
    decreases |fs|
  {
    hide JumpPatches, JumpOf, FieldPatch, FieldNameLen;
    if fs == [] {
      assert JumpPatches([], p) == [] by { JumpPatchesNone(p); }
    } else {
      JumpRound(fs[1..], na + FieldNameLen(fs[0]), t, p);
      JumpPatchesOne(fs[0], na, t, p);
      JumpPatchesApp(JumpOf(fs[0], t), Jumps(fs[1..], t), p);
    }
  }

  lemma JumpPatchesNone(p: int)
    ensures JumpPatches([], p) == []
  {
  }

  lemma {:induction false} NameAtTail(refs: seq<NameRef>, na: int, i: nat)
    requires i < |refs|
    ensures NameAt(refs, na, i + 1) == NameAt(refs[1..], na + |refs[0].name| + 1, i)
  {
    if i > 0 {
      NameAtTail(refs, na, i - 1);
    }
  }

  lemma NamePatchesTail(refs: seq<NameRef>, na: int)
    requires refs != []
    ensures NamePatches(refs, na) ==
            [Patch(refs[0].off, Le32(na - (refs[0].off + 4)))] + NamePatches(refs[1..], na + |refs[0].name| + 1)
  {
    hide Le32, NameAt;
    var r := NamePatches(refs, na);
    var t := NamePatches(refs[1..], na + |refs[0].name| + 1);
    NameAtStart(refs, na);
    forall i: nat | i < |t| ensures r[i + 1] == t[i] {
      NameAtTail(refs, na, i);
    }
  }

  lemma NameAtStart(refs: seq<NameRef>, na: int)
    ensures NameAt(refs, na, 0) == na
  {
  }

  lemma {:induction false} NameRound(fs: seq<Field>, na: int)
    ensures RoundPatches(fs, na, Naming) == NamePatches(Names(fs), na)
    decreases |fs|
  {
    hide Le32, NamePatches;
    if fs == [] {
      assert NamePatches([], na) == [] by { NamePatchesNone(na); }
    } else {
      NameRound(fs[1..], na + FieldNameLen(fs[0]));
      var rest := Names(fs[1..]);
      if fs[0].what.NameOf? {
        assert Names(fs) == [NameRef(fs[0].off, fs[0].what.n)] + rest;
        assert Names(fs)[1..] == rest;
        NamePatchesTail(Names(fs), na);
      } else {
        assert Names(fs) == rest;
      }
    }
  }

  lemma NamePatchesNone(na: int)
    ensures NamePatches([], na) == []
  {
  }

  lemma AddressPatchesApp(a: seq<AddressRef>, b: seq<AddressRef>, addr: Symbol -> nat)
    ensures AddressPatches(a + b, addr) == AddressPatches(a, addr) + AddressPatches(b, addr)
  {
    hide Le64;
  }

  lemma AddressPatchesOne(f: Field, na: int, addr: Symbol -> nat)
    ensures AddressPatches(AddressRefOf(f), addr) == FieldPatch(f, na, Addressing(addr))
    ensures AddressPatches([], addr) == []
  {
    hide Le64;
  }

  lemma {:induction false} AddressRound(fs: seq<Field>, na: int, addr: Symbol -> nat)
    ensures RoundPatches(fs, na, Addressing(addr)) == AddressPatches(Addresses(fs), addr)
    decreases |fs|
  {
    hide AddressPatches, AddressRefOf, FieldPatch, FieldNameLen;
    if fs == [] {
      assert AddressPatches([], addr) == [] by { AddressPatchesOne(Field(0, NameOf([])), 0, addr); }
    } else {
      AddressRound(fs[1..], na + FieldNameLen(fs[0]), addr);
      AddressPatchesOne(fs[0], na, addr);
      AddressPatchesApp(AddressRefOf(fs[0]), Addresses(fs[1..]), addr);
    }
  }

  // ----- settled code

  lemma SettleHole(x: Item, t: Target, p: int, at: int, na: int, k: Known)
    requires !t.At?
    ensures var y := SettleItem(x, t, p);
      && ItemLen(y) == ItemLen(x) && NameLen(y) == NameLen(x)
      && HoleInstr(y, at, na, k) == HoleInstr(x, at, na, After(k, Settling(t, p)))
  {
  }

  /** Code whose jumps were directed is code with those jumps filled in. */
  lemma {:induction false} SettleHoles(c: Code, t: Target, p: int, at: int, na: int, k: Known)
    requires !t.At?
    ensures Holes(Settle(c, t, p), at, na, k) == Holes(c, at, na, After(k, Settling(t, p)))
    decreases |c|
  {
    hide Enc, Settle, SettleItem, HoleInstr, After, ItemLen, NameLen;
    SettleNext(c, t, p);
    if c != [] {
      SettleHole(c[0], t, p, at, na, k);
      SettleHoles(c[1..], t, p, at + ItemLen(c[0]), na + NameLen(c[0]), k);
    }
  }

  lemma {:induction false} SettleFields(c: Code, t: Target, p: int, at: int, u: Target)
    requires !t.At? && !u.At?
    ensures Jumps(Fields(Settle(c, t, p), at), u) == if u == t then [] else Jumps(Fields(c, at), u)
    ensures Names(Fields(Settle(c, t, p), at)) == Names(Fields(c, at))
    ensures Addresses(Fields(Settle(c, t, p), at)) == Addresses(Fields(c, at))
    decreases |c|
  {
    hide Jumps, Names, Addresses, FieldsOf, SettleItem;
    var d := Settle(c, t, p);
    NoFields(u);
    if c == [] {
      assert d == [];
    } else {
      var at2 := at + ItemLen(c[0]);
      assert d[1..] == Settle(c[1..], t, p) && d[0] == SettleItem(c[0], t, p);
      SettleFields(c[1..], t, p, at2, u);
      SettleItemFields(c[0], t, p, at, u);
      ListsApp(FieldsOf(c[0], at), Fields(c[1..], at2), u);
      ListsApp(FieldsOf(d[0], at), Fields(d[1..], at2), u);
    }
  }

  lemma NoFields(u: Target)
    ensures Jumps([], u) == [] && Names([]) == [] && Addresses([]) == []
  {
  }

  lemma ListsApp(a: seq<Field>, b: seq<Field>, u: Target)
    ensures Jumps(a + b, u) == Jumps(a, u) + Jumps(b, u) && Names(a + b) == Names(a) + Names(b)
    ensures Addresses(a + b) == Addresses(a) + Addresses(b)
  {
    JumpsApp(a, b, u);
    NamesApp(a, b);
    AddressesApp(a, b);
  }

  lemma OneField(f: Field, u: Target)
    ensures Jumps([f], u) == JumpOf(f, u)
    ensures Names([f]) == NameRefOf(f)
    ensures Addresses([f]) == AddressRefOf(f)
  {
    assert [f][1..] == [];
  }

  lemma SettleItemFields(x: Item, t: Target, p: int, at: int, u: Target)
    requires !t.At? && !u.At?
    ensures ItemLen(SettleItem(x, t, p)) == ItemLen(x)
    ensures Jumps(FieldsOf(SettleItem(x, t, p), at), u) == if u == t then [] else Jumps(FieldsOf(x, at), u)
    ensures Names(FieldsOf(SettleItem(x, t, p), at)) == Names(FieldsOf(x, at))
    ensures Addresses(FieldsOf(SettleItem(x, t, p), at)) == Addresses(FieldsOf(x, at))
  {
    hide Jumps, Names, Addresses;
    NoFields(u);
    var fs, gs := FieldsOf(x, at), FieldsOf(SettleItem(x, t, p), at);
    if fs != [] {
      OneField(fs[0], u);
      OneField(gs[0], u);
      assert fs == [fs[0]] && gs == [gs[0]];
    }
  }
}
