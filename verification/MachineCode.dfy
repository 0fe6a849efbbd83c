/** Bytes and instructions: encoding, decoding, and the helpers' symbol table. */
module MachineCode {
  import opened Options

  type Byte = b: int | 0 <= b < 256
  type Bytes = seq<Byte>

  // ----- little-endian numbers

  function Le32(x: int): (r: Bytes)
    ensures |r| == 4
  {
    [x % 256, x / 0x100 % 256, x / 0x1_0000 % 256, x / 0x100_0000 % 256]
  }

  function Le64(x: nat): (r: Bytes)
    ensures |r| == 8
  {
    Le32(x % 0x1_0000_0000) + Le32(x / 0x1_0000_0000)
  }

  /** The byte at k; 0 outside the code. */
  function B(code: Bytes, k: int): int {
    if 0 <= k < |code| then code[k] else 0
  }

  function U32(code: Bytes, k: int): nat {
    B(code, k) + 0x100 * B(code, k + 1) + 0x1_0000 * B(code, k + 2) + 0x100_0000 * B(code, k + 3)
  }

  /** A 32-bit field read as a signed number. */
  function S32(code: Bytes, k: int): int {
    if U32(code, k) < 0x8000_0000 then U32(code, k) else U32(code, k) - 0x1_0000_0000
  }

  function U64(code: Bytes, k: int): nat {
    U32(code, k) + 0x1_0000_0000 * U32(code, k + 4)
  }

  ghost predicate HasAt(code: Bytes, k: int, bs: Bytes) {
    0 <= k && k + |bs| <= |code| && code[k..k + |bs|] == bs
  }

  lemma HasByte(code: Bytes, k: int, bs: Bytes, j: nat)
    requires HasAt(code, k, bs) && j < |bs|
    ensures B(code, k + j) == bs[j]
  {
    assert code[k..k + |bs|][j] == bs[j];
  }

  lemma HasSplit(code: Bytes, k: int, a: Bytes, b: Bytes)
    ensures HasAt(code, k, a + b) <==> HasAt(code, k, a) && HasAt(code, k + |a|, b)
  {
    if HasAt(code, k, a + b) {
      assert code[k..k + |a|] == (a + b)[..|a|] == a;
      assert code[k + |a|..k + |a| + |b|] == (a + b)[|a|..] == b;
    }
    if HasAt(code, k, a) && HasAt(code, k + |a|, b) {
      assert code[k..k + |a| + |b|] == code[k..k + |a|] + code[k + |a|..k + |a| + |b|];
    }
  }

  lemma Digits(x: nat)
    requires x < 0x1_0000_0000
    ensures x == x % 256 + 0x100 * (x / 0x100 % 256) + 0x1_0000 * (x / 0x1_0000 % 256) + 0x100_0000 * (x / 0x100_0000 % 256)
  {
    var a := x / 0x100;
    var b := x / 0x1_0000;
    var c := x / 0x100_0000;
    assert b == a / 0x100;
    assert c == b / 0x100;
    assert c < 256;
  }

  lemma Shifted(y: int)
    ensures (y - 0x1_0000_0000) % 256 == y % 256
    ensures (y - 0x1_0000_0000) / 0x100 == y / 0x100 - 0x100_0000
    ensures (y - 0x1_0000_0000) / 0x1_0000 == y / 0x1_0000 - 0x1_0000
    ensures (y - 0x1_0000_0000) / 0x100_0000 == y / 0x100_0000 - 0x100
  {
  }

  lemma ModShifted(a: int, n: int)
    ensures (a - 0x100 * n) % 0x100 == a % 0x100
  {
  }

  /** Adding 2^32 changes none of the four bytes. */
  lemma DigitsShift(x: int)
    ensures Le32(x) == Le32(x + 0x1_0000_0000)
  {
    var y := x + 0x1_0000_0000;
    Shifted(y);
    ModShifted(y / 0x100, 0x1_0000);
    ModShifted(y / 0x1_0000, 0x100);
    ModShifted(y / 0x100_0000, 1);
  }

  lemma ReadU32(code: Bytes, k: int, x: nat)
    requires x < 0x1_0000_0000 && HasAt(code, k, Le32(x))
    ensures U32(code, k) == x
  {
    hide HasAt, Le32;
    HasByte(code, k, Le32(x), 0);
    HasByte(code, k, Le32(x), 1);
    HasByte(code, k, Le32(x), 2);
    HasByte(code, k, Le32(x), 3);
    Le32At(x);
    Digits(x);
  }

  lemma Le32At(x: int)
    ensures Le32(x)[0] == x % 256 && Le32(x)[1] == x / 0x100 % 256
    ensures Le32(x)[2] == x / 0x1_0000 % 256 && Le32(x)[3] == x / 0x100_0000 % 256
  {
  }

  /** A displacement written with Le32 reads back as itself. */
  lemma ReadS32(code: Bytes, k: int, x: int)
    requires -0x8000_0000 <= x < 0x8000_0000 && HasAt(code, k, Le32(x))
    ensures S32(code, k) == x
  {
    if x >= 0 {
      ReadU32(code, k, x);
    } else {
      DigitsShift(x);
      ReadU32(code, k, x + 0x1_0000_0000);
    }
  }

  lemma ReadU64(code: Bytes, k: int, x: nat)
    requires x < 0x1_0000_0000_0000_0000 && HasAt(code, k, Le64(x))
    ensures U64(code, k) == x
  {
    hide Le32, HasAt;
    HasSplit(code, k, Le32(x % 0x1_0000_0000), Le32(x / 0x1_0000_0000));
    ReadU32(code, k, x % 0x1_0000_0000);
    ReadU32(code, k + 4, x / 0x1_0000_0000);
  }

  // ----- instructions

  const TYPED_SLOT_SIZE: int := 24
  const JIT_MAX_DEPTH: nat := 16

  /** The instruction groups the compiler emits, one constructor per emitting routine. Jump and
      name displacements are relative to the end of the field that holds them. */
  datatype Instr =
    | Prologue
    | LoadImm(bits: nat)          // rax := bits; xmm0 := rax
    | MovEdx(imm: nat)
    | XorRcx
    | LeaRdi(disp: int)
    | CallAbs(addr: nat)          // rax := addr; call rax
    | LoadResult(addr: nat)       // edx, xmm0, rcx := the trace cell at addr
    | StoreSlot(d: nat)           // frame slot d := xmm0, rcx, edx
    | LoadSlot(d: nat)
    | MovEdi(imm: nat)
    | MovEsi(imm: nat)
    | TestZero                    // ucomisd xmm0, 0
    | Je(disp: int)
    | Jmp(disp: int)
    | Epilogue

  function SlotDisp(d: nat): int { -TYPED_SLOT_SIZE * (d + 1) }

  function Enc(i: Instr): Bytes {
    match i
    case Prologue => [0x55, 0x48, 0x89, 0xE5, 0x48, 0x81, 0xEC, 0x00, 0x02, 0x00, 0x00]
    case LoadImm(bits) => [0x48, 0xB8] + Le64(bits) + [0x66, 0x48, 0x0F, 0x6E, 0xC0]
    case MovEdx(imm) => [0xBA] + Le32(imm)
    case XorRcx => [0x48, 0x31, 0xC9]
    case LeaRdi(disp) => [0x48, 0x8D, 0x3D] + Le32(disp)
    case CallAbs(addr) => [0x48, 0xB8] + Le64(addr) + [0xFF, 0xD0]
    case LoadResult(addr) =>
      [0x49, 0xBB] + Le64(addr) + [0x41, 0x8B, 0x13, 0xF2, 0x41, 0x0F, 0x10, 0x43, 0x08, 0x49, 0x8B, 0x4B, 0x10]
    case StoreSlot(d) =>
      [0xF2, 0x0F, 0x11, 0x85] + Le32(SlotDisp(d)) + [0x48, 0x89, 0x8D] + Le32(SlotDisp(d) + 8) + [0x89, 0x95] + Le32(SlotDisp(d) + 16)
    case LoadSlot(d) =>
      [0xF2, 0x0F, 0x10, 0x85] + Le32(SlotDisp(d)) + [0x48, 0x8B, 0x8D] + Le32(SlotDisp(d) + 8) + [0x8B, 0x95] + Le32(SlotDisp(d) + 16)
    case MovEdi(imm) => [0xBF] + Le32(imm)
    case MovEsi(imm) => [0xBE] + Le32(imm)
    case TestZero => [0x66, 0x0F, 0x57, 0xC9, 0x66, 0x0F, 0x2E, 0xC1]
    case Je(disp) => [0x0F, 0x84] + Le32(disp)
    case Jmp(disp) => [0xE9] + Le32(disp)
    case Epilogue => [0x48, 0x89, 0xEC, 0x5D, 0xC3]
  }

  function Len(i: Instr): nat {
    match i
    case Prologue => 11 case LoadImm(_) => 15 case MovEdx(_) => 5 case XorRcx => 3 case LeaRdi(_) => 7
    case CallAbs(_) => 12 case LoadResult(_) => 23 case StoreSlot(_) => 21 case LoadSlot(_) => 21
    case MovEdi(_) => 5 case MovEsi(_) => 5 case TestZero => 8 case Je(_) => 6 case Jmp(_) => 5 case Epilogue => 5
  }

  lemma EncLen(i: Instr)
    ensures |Enc(i)| == Len(i)
  {
    hide Le32;
  }

  predicate Signed32(x: int) { -0x8000_0000 <= x < 0x8000_0000 }

  /** Operands that fit their fields. */
  predicate Encodable(i: Instr) {
    match i
    case LoadImm(bits) => bits < 0x1_0000_0000_0000_0000
    case MovEdx(imm) => imm < 0x1_0000_0000
    case LeaRdi(disp) => Signed32(disp)
    case CallAbs(addr) => addr < 0x1_0000_0000_0000_0000
    case LoadResult(addr) => addr < 0x1_0000_0000_0000_0000
    case StoreSlot(d) => d < JIT_MAX_DEPTH
    case LoadSlot(d) => d < JIT_MAX_DEPTH
    case MovEdi(imm) => imm < 0x1_0000_0000
    case MovEsi(imm) => imm < 0x1_0000_0000
    case Je(disp) => Signed32(disp)
    case Jmp(disp) => Signed32(disp)
    case _ => true
  }

  /** The frame slot a 24-byte slot displacement names, when it names one. */
  function SlotOf(disp: int): Option<nat> {
    if disp < 0 && disp % TYPED_SLOT_SIZE == 0 && -disp / TYPED_SLOT_SIZE <= JIT_MAX_DEPTH
    then Some(-disp / TYPED_SLOT_SIZE - 1) else None
  }

  function SlotInstr(code: Bytes, k: int): Option<nat> {
    if S32(code, k + 11) == S32(code, k + 4) + 8 && S32(code, k + 17) == S32(code, k + 4) + 16
    then SlotOf(S32(code, k + 4)) else None
  }

  /** What the processor finds at k. */
  function Decode(code: Bytes, k: int): Option<Instr> {
    if B(code, k) == 0x55 then Some(Prologue)
    else if B(code, k) == 0x48 then
      if B(code, k + 1) == 0xB8 then
        if B(code, k + 10) == 0x66 then Some(LoadImm(U64(code, k + 2)))
        else if B(code, k + 10) == 0xFF then Some(CallAbs(U64(code, k + 2)))
        else None
      else if B(code, k + 1) == 0x31 then Some(XorRcx)
      else if B(code, k + 1) == 0x8D && B(code, k + 2) == 0x3D then Some(LeaRdi(S32(code, k + 3)))
      else if B(code, k + 1) == 0x89 && B(code, k + 2) == 0xEC then Some(Epilogue)
      else None
    else if B(code, k) == 0x49 && B(code, k + 1) == 0xBB then Some(LoadResult(U64(code, k + 2)))
    else if B(code, k) == 0xBA then Some(MovEdx(U32(code, k + 1)))
    else if B(code, k) == 0xBF then Some(MovEdi(U32(code, k + 1)))
    else if B(code, k) == 0xBE then Some(MovEsi(U32(code, k + 1)))
    else if B(code, k) == 0x66 && B(code, k + 2) == 0x57 then Some(TestZero)
    else if B(code, k) == 0x0F && B(code, k + 1) == 0x84 then Some(Je(S32(code, k + 2)))
    else if B(code, k) == 0xE9 then Some(Jmp(S32(code, k + 1)))
    else if B(code, k) == 0xF2 && B(code, k + 2) == 0x11 then
      (match SlotInstr(code, k) case None => None case Some(d) => Some(StoreSlot(d)))
    else if B(code, k) == 0xF2 && B(code, k + 2) == 0x10 then
      (match SlotInstr(code, k) case None => None case Some(d) => Some(LoadSlot(d)))
    else None
  }

  lemma DecodeSlot(code: Bytes, k: int, a: Bytes, b: Bytes, c: Bytes, d: nat)
    requires |a| == 4 && |b| == 3 && |c| == 2 && d < JIT_MAX_DEPTH
    requires HasAt(code, k, a + Le32(SlotDisp(d)) + b + Le32(SlotDisp(d) + 8) + c + Le32(SlotDisp(d) + 16))
    ensures SlotInstr(code, k) == Some(d)
    ensures B(code, k) == a[0] && B(code, k + 1) == a[1] && B(code, k + 2) == a[2]
  {
    hide Le32, HasAt, S32;
    var x := SlotDisp(d);
    HasSplit(code, k, a + Le32(x) + b + Le32(x + 8) + c, Le32(x + 16));
    HasSplit(code, k, a + Le32(x) + b + Le32(x + 8), c);
    HasSplit(code, k, a + Le32(x) + b, Le32(x + 8));
    HasSplit(code, k, a + Le32(x), b);
    HasSplit(code, k, a, Le32(x));
    ReadS32(code, k + 4, x);
    ReadS32(code, k + 11, x + 8);
    ReadS32(code, k + 17, x + 16);
    HasByte(code, k, a, 0);
    HasByte(code, k, a, 1);
    HasByte(code, k, a, 2);
  }

  lemma DecodeImm(code: Bytes, k: int, a: Bytes, x: nat, b: Bytes)
    requires |a| == 2 && |b| > 0 && x < 0x1_0000_0000_0000_0000 && HasAt(code, k, a + Le64(x) + b)
    ensures U64(code, k + 2) == x && B(code, k) == a[0] && B(code, k + 1) == a[1] && B(code, k + 10) == b[0]
  {
    hide Le64, HasAt, U64;
    HasSplit(code, k, a + Le64(x), b);
    HasSplit(code, k, a, Le64(x));
    ReadU64(code, k + 2, x);
    HasByte(code, k, a, 0);
    HasByte(code, k, a, 1);
    HasByte(code, k + 10, b, 0);
  }

  lemma DecodeField(code: Bytes, k: int, a: Bytes, x: int)
    requires 0 < |a| <= 3 && HasAt(code, k, a + Le32(x))
    ensures Signed32(x) ==> S32(code, k + |a|) == x
    ensures 0 <= x < 0x1_0000_0000 ==> U32(code, k + |a|) == x
    ensures B(code, k) == a[0] && (|a| > 1 ==> B(code, k + 1) == a[1]) && (|a| > 2 ==> B(code, k + 2) == a[2])
  {
    hide Le32, HasAt, S32, U32;
    HasSplit(code, k, a, Le32(x));
    if Signed32(x) {
      ReadS32(code, k + |a|, x);
    }
    if 0 <= x < 0x1_0000_0000 {
      ReadU32(code, k + |a|, x);
    }
    HasByte(code, k, a, 0);
    if |a| > 1 {
      HasByte(code, k, a, 1);
    }
    if |a| > 2 {
      HasByte(code, k, a, 2);
    }
  }

  /** Decoding the bytes of an instruction gives the instruction back. */
  lemma DecodeEnc(code: Bytes, k: int, i: Instr)
    requires HasAt(code, k, Enc(i)) && Encodable(i)
    ensures Decode(code, k) == Some(i)
  {
    hide Le32, Le64, HasAt, U32, S32, U64, B, SlotInstr;
    match i
    case Prologue => HasByte(code, k, Enc(i), 0);
    case LoadImm(x) => DecodeImm(code, k, [0x48, 0xB8], x, [0x66, 0x48, 0x0F, 0x6E, 0xC0]);
    case CallAbs(x) => DecodeImm(code, k, [0x48, 0xB8], x, [0xFF, 0xD0]);
    case LoadResult(x) =>
      DecodeImm(code, k, [0x49, 0xBB], x, [0x41, 0x8B, 0x13, 0xF2, 0x41, 0x0F, 0x10, 0x43, 0x08, 0x49, 0x8B, 0x4B, 0x10]);
    case MovEdx(x) => DecodeField(code, k, [0xBA], x);
    case MovEdi(x) => DecodeField(code, k, [0xBF], x);
    case MovEsi(x) => DecodeField(code, k, [0xBE], x);
    case Jmp(x) => DecodeField(code, k, [0xE9], x);
    case Je(x) => DecodeField(code, k, [0x0F, 0x84], x);
    case LeaRdi(x) =>
      DecodeField(code, k, [0x48, 0x8D, 0x3D], x);
    case StoreSlot(d) => DecodeSlot(code, k, [0xF2, 0x0F, 0x11, 0x85], [0x48, 0x89, 0x8D], [0x89, 0x95], d);
    case LoadSlot(d) => DecodeSlot(code, k, [0xF2, 0x0F, 0x10, 0x85], [0x48, 0x8B, 0x8D], [0x8B, 0x95], d);
    case XorRcx => HasByte(code, k, Enc(i), 0); HasByte(code, k, Enc(i), 1);
    case Epilogue => HasByte(code, k, Enc(i), 0); HasByte(code, k, Enc(i), 1); HasByte(code, k, Enc(i), 2);
    case TestZero => HasByte(code, k, Enc(i), 0); HasByte(code, k, Enc(i), 2);
  }

  // ----- C strings in the code

  predicate NameOk(n: seq<int>) { forall j :: 0 <= j < |n| ==> 0 < n[j] < 256 }

  /** The bytes from k up to the next NUL (or the end). */
  function CStr(code: Bytes, k: int): seq<int>
    decreases |code| - k
  {
    if k < 0 || k >= |code| || code[k] == 0 then [] else [code[k]] + CStr(code, k + 1)
  }

  function NameBytes(n: seq<int>): Bytes
    requires NameOk(n)
  {
    seq(|n|, j requires 0 <= j < |n| => n[j] as Byte) + [0]
  }

  lemma {:induction false} CStrRead(code: Bytes, k: int, n: seq<int>)
    requires NameOk(n) && HasAt(code, k, NameBytes(n))
    ensures CStr(code, k) == n
    decreases |n|
  {
    HasByte(code, k, NameBytes(n), 0);
    if n != [] {
      assert NameBytes(n) == [n[0] as Byte] + NameBytes(n[1..]);
      HasSplit(code, k, [n[0] as Byte], NameBytes(n[1..]));
      CStrRead(code, k + 1, n[1..]);
      assert n == [n[0]] + n[1..];
    }
  }

  // ----- the symbol table

  /** Runtime helpers and the one data cell that compiled code refers to by address. */
  datatype Symbol =
    | GetVariable | SetVariable | DeclareVariable | CaptureLeft
    | AddRt | SubRt | MulRt | DivRt | NegRt | CompareRt | AndRt | OrRt
    | TraceFromRegs | ModRt | ShlRt | ShrRt | BitAndRt | BitOrRt | BitXorRt
    | ReturnFromRegs | TraceData
    | Unmodelled(id: nat)

  const SYMBOL_COUNT: nat := 62

  /** Entry k of the table; division and negation are listed twice. */
  function SymbolAt(k: nat): Symbol {
    if k == 0 then GetVariable else if k == 1 then SetVariable else if k == 2 then DeclareVariable
    else if k == 5 then CaptureLeft else if k == 6 then AddRt else if k == 7 then SubRt
    else if k == 8 then MulRt else if k == 9 || k == 17 then DivRt else if k == 10 || k == 24 then NegRt
    else if k == 11 then CompareRt else if k == 12 then AndRt else if k == 13 then OrRt
    else if k == 15 then TraceFromRegs else if k == 18 then ModRt else if k == 19 then ShlRt
    else if k == 20 then ShrRt else if k == 21 then BitAndRt else if k == 22 then BitOrRt
    else if k == 23 then BitXorRt else if k == 60 then ReturnFromRegs else if k == 61 then TraceData
    else Unmodelled(k)
  }

  function Place(s: Symbol): nat {
    match s
    case GetVariable => 0 case SetVariable => 1 case DeclareVariable => 2 case CaptureLeft => 5
    case AddRt => 6 case SubRt => 7 case MulRt => 8 case DivRt => 9 case NegRt => 10 case CompareRt => 11
    case AndRt => 12 case OrRt => 13 case TraceFromRegs => 15 case ModRt => 18 case ShlRt => 19
    case ShrRt => 20 case BitAndRt => 21 case BitOrRt => 22 case BitXorRt => 23 case ReturnFromRegs => 60
    case TraceData => 61 case Unmodelled(k) => k
  }

  /** First table entry at address a, from k on; SYMBOL_COUNT when there is none. */
  function FirstAt(addr: Symbol -> nat, a: nat, k: nat): (r: nat)
    requires k <= SYMBOL_COUNT
    ensures k <= r <= SYMBOL_COUNT
    ensures r < SYMBOL_COUNT ==> addr(SymbolAt(r)) == a
    ensures forall j :: k <= j < r ==> addr(SymbolAt(j)) != a
    decreases SYMBOL_COUNT - k
  {
    if k == SYMBOL_COUNT || addr(SymbolAt(k)) == a then k else FirstAt(addr, a, k + 1)
  }

  function SymbolId(addr: Symbol -> nat, a: nat): nat { FirstAt(addr, a, 0) }

  predicate Modelled(s: Symbol) { !s.Unmodelled? }

  /** The symbols the table lists: those modelled, and the places held by others. */
  predicate InTable(s: Symbol) { s.Unmodelled? ==> s.id < SYMBOL_COUNT }

  /** The table's symbols live at nonzero 64-bit addresses, and no modelled one shares its address. */
  ghost predicate AddrOk(addr: Symbol -> nat) {
    && (forall s :: InTable(s) ==> 0 < addr(s) < 0x1_0000_0000_0000_0000)
    && (forall s, t :: Modelled(s) && InTable(t) && addr(s) == addr(t) ==> s == t)
  }

  lemma Entries(k: nat)
    requires k < SYMBOL_COUNT
    ensures InTable(SymbolAt(k))
  {
  }

  lemma Placed(s: Symbol)
    requires Modelled(s)
    ensures Place(s) < SYMBOL_COUNT && SymbolAt(Place(s)) == s
  {
  }

  /** The table finds every helper the compiler uses by its address. */
  lemma SymbolFound(addr: Symbol -> nat, s: Symbol)
    requires AddrOk(addr) && Modelled(s)
    ensures SymbolId(addr, addr(s)) < SYMBOL_COUNT && SymbolAt(SymbolId(addr, addr(s))) == s
  {
    hide FirstAt, SymbolAt, Place;
    Placed(s);
    var r := FirstAt(addr, addr(s), 0);
    assert r <= Place(s);
    Entries(r);
  }

  lemma FirstNumbers()
    ensures SymbolAt(0) == GetVariable && SymbolAt(1) == SetVariable && SymbolAt(2) == DeclareVariable && SymbolAt(5) == CaptureLeft
    ensures SymbolAt(6) == AddRt && SymbolAt(7) == SubRt && SymbolAt(8) == MulRt && SymbolAt(9) == DivRt
  {
  }

  lemma MiddleNumbers()
    ensures SymbolAt(10) == NegRt && SymbolAt(11) == CompareRt && SymbolAt(12) == AndRt && SymbolAt(13) == OrRt
    ensures SymbolAt(15) == TraceFromRegs && SymbolAt(17) == DivRt && SymbolAt(18) == ModRt
  {
  }

  lemma LastNumbers()
    ensures SymbolAt(19) == ShlRt && SymbolAt(20) == ShrRt && SymbolAt(21) == BitAndRt && SymbolAt(22) == BitOrRt && SymbolAt(23) == BitXorRt
    ensures SymbolAt(24) == NegRt && SymbolAt(60) == ReturnFromRegs && SymbolAt(61) == TraceData
  {
  }

  /** The numbers by which a file names the helpers: the places of the table, from nought. */
  lemma SymbolNumbers()
    ensures SymbolAt(0) == GetVariable && SymbolAt(1) == SetVariable && SymbolAt(2) == DeclareVariable && SymbolAt(5) == CaptureLeft
    ensures SymbolAt(6) == AddRt && SymbolAt(7) == SubRt && SymbolAt(8) == MulRt && SymbolAt(9) == DivRt && SymbolAt(10) == NegRt
    ensures SymbolAt(11) == CompareRt && SymbolAt(12) == AndRt && SymbolAt(13) == OrRt && SymbolAt(15) == TraceFromRegs
    ensures SymbolAt(17) == DivRt && SymbolAt(18) == ModRt && SymbolAt(19) == ShlRt && SymbolAt(20) == ShrRt
    ensures SymbolAt(21) == BitAndRt && SymbolAt(22) == BitOrRt && SymbolAt(23) == BitXorRt
    ensures SymbolAt(24) == NegRt && SymbolAt(60) == ReturnFromRegs && SymbolAt(61) == TraceData
  {
    hide SymbolAt;
    FirstNumbers();
    MiddleNumbers();
    LastNumbers();
  }

  /** Where the helpers live does not matter to the number of a symbol. */
  lemma SameSymbolId(here: Symbol -> nat, there: Symbol -> nat, s: Symbol)
    requires AddrOk(here) && AddrOk(there) && Modelled(s)
    ensures SymbolId(here, here(s)) == SymbolId(there, there(s))
  {
    hide FirstAt, SymbolAt, AddrOk;
    SymbolFound(here, s);
    SymbolFound(there, s);
  }

  /** Addresses such as a linker would assign. */
  function SampleAddr(s: Symbol): nat {
    if s.Unmodelled? then 100 + s.id else 1 + Place(s)
  }

  /** There are such addresses. */
  lemma SampleAddrOk()
    ensures AddrOk(SampleAddr)
  {
    hide SampleAddr, Place;
    forall s | InTable(s) ensures 0 < SampleAddr(s) < 0x1_0000_0000_0000_0000 {
      SampleBounds(s);
    }
    forall s, t | Modelled(s) && InTable(t) && SampleAddr(s) == SampleAddr(t) ensures s == t {
      SampleApart(s, t);
    }
  }

  lemma SampleBounds(s: Symbol)
    requires InTable(s)
    ensures 0 < SampleAddr(s) < 200
  {
  }

  lemma SampleApart(s: Symbol, t: Symbol)
    requires Modelled(s) && InTable(t) && SampleAddr(s) == SampleAddr(t)
    ensures s == t
  {
    hide SymbolAt, Place;
    Placed(s);
    if Modelled(t) {
      Placed(t);
    }
  }
}
