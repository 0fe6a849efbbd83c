/** Loading relocatable code: the loader writes helper addresses into a copy of the code, and what
    it then holds runs as the source says. */
module Relocation {
  import opened Options
  import opened Values
  import opened Language
  import opened MachineCode
  import opened Machine
  import opened CodeGen
  import opened Blocks
  import opened Backpatch
  import opened JitBuffers
  import opened Finishing
  import opened Processor
  import StmtCorrect
  import Agreement

  /** A relocation the loader accepts for code of the given size. */
  predicate RelocOk(r: Reloc, size: nat) { 0 <= r.off && r.off + 8 <= size && r.id < SYMBOL_COUNT }

  ghost predicate RelocsOk(relocs: seq<Reloc>, size: nat) { forall k :: 0 <= k < |relocs| ==> RelocOk(relocs[k], size) }

  /** Writes eight bytes in place. */
  method Write64(code: array<Byte>, off: nat, x: nat)
    requires off + 8 <= code.Length
    modifies code
    ensures code[..] == PatchAt(old(code[..]), Patch(off, Le64(x)))
  {
    hide Le64, Le32;
    var bs := Le64(x);
    var j := 0;
    while j < 8
      invariant 0 <= j <= 8
      invariant forall k :: 0 <= k < code.Length ==> code[k] == if off <= k < off + j then bs[k - off] else old(code[k])
    {
      code[off + j] := bs[j];
      j := j + 1;
    }
    var was := old(code[..]);
    assert forall k :: 0 <= k < code.Length ==> code[..][k] == PatchAt(was, Patch(off, bs))[k];
    assert |code[..]| == |PatchAt(was, Patch(off, bs))|;
  }

  /** Applies a function's relocations to its code in place; stops at the first one out of range or
      naming no symbol. */
  method ApplyRelocs(code: array<Byte>, relocs: seq<Reloc>, addr: Symbol -> nat) returns (ok: bool)
    modifies code
    ensures ok <==> RelocsOk(relocs, code.Length)
    ensures ok ==> AllWithin(RelocPatches(relocs, addr), code.Length)
    ensures ok ==> code[..] == PatchAll(old(code[..]), RelocPatches(relocs, addr))
  {
    hide PatchAt, Le64, SymbolAt, PatchAll;
    ghost var ps := RelocPatches(relocs, addr);
    ghost var was := code[..];
    var k := 0;
    PatchNone(was);
    assert ps[..0] == [];
    while k < |relocs|
      invariant 0 <= k <= |relocs|
      invariant RelocsOk(relocs[..k], code.Length)
      invariant AllWithin(ps[..k], code.Length) && code[..] == PatchAll(was, ps[..k])
    {
      var r := relocs[k];
      if !(0 <= r.off && r.off + 8 <= code.Length) || r.id >= SYMBOL_COUNT {
        return false;
      }
      Write64(code, r.off, addr(SymbolAt(r.id)));
      assert ps[..k + 1] == ps[..k] + [ps[k]] && Within(ps[k], code.Length);
      MorePatches(was, ps, k);
      assert relocs[..k + 1] == relocs[..k] + [relocs[k]];
      k := k + 1;
    }
    assert ps[..k] == ps && relocs[..k] == relocs;
    ok := true;
  }

  lemma MorePatches(code: Bytes, ps: seq<Patch>, k: nat)
    requires k < |ps| && AllWithin(ps[..k + 1], |code|)
    ensures AllWithin(ps[..k], |code|) && Within(ps[k], |code|)
    ensures PatchAll(code, ps[..k + 1]) == PatchAt(PatchAll(code, ps[..k]), ps[k])
  {
    hide PatchAt;
    assert ps[..k + 1][..k] == ps[..k] && ps[..k + 1][k] == ps[k];
  }

  /** Relocations the compiler records are always ones the loader accepts. */
  lemma OwnRelocsAccepted(cpu: Cpu, b: Block, addr: Symbol -> nat)
    requires AddrOk(addr) && NamesOk(Body(cpu, b))
    ensures RelocsOk(BodyRelocs(cpu, b, addr), |FunctionBytes(cpu, b, NoAddress)|)
  {
    hide FunctionBytes, AddrOk, NamesOk, PatchAll, Le64, SymbolAt, GenB, SymbolId, Fields;
    RelocatedIsDirect(cpu, b, addr);
    var rs := BodyRelocs(cpu, b, addr);
    var ps := RelocPatches(rs, addr);
    forall k | 0 <= k < |rs| ensures RelocOk(rs[k], |FunctionBytes(cpu, b, NoAddress)|) {
      assert Within(ps[k], |FunctionBytes(cpu, b, NoAddress)|) && rs[k] in rs;
      assert ps[k] == Patch(rs[k].off, Le64(addr(SymbolAt(rs[k].id))));
    }
  }

  /** No two holes of a compiled body share a byte, none shares one with a jump or name
      displacement, and all lie inside the body. */
  lemma HolesApart(cpu: Cpu, b: Block)
    ensures Apart(Fields(Body(cpu, b), PROLOGUE_LEN), PROLOGUE_LEN, PROLOGUE_LEN + Size(Body(cpu, b)))
    ensures forall r :: r in Addresses(Fields(Body(cpu, b), PROLOGUE_LEN)) ==>
              exists f :: f in Fields(Body(cpu, b), PROLOGUE_LEN) && f.off == r.off && f.what == AddressOf(r.s)
  {
    hide GenB, Fields, Size;
    FieldsApart(Body(cpu, b), PROLOGUE_LEN);
    AddressesAreFields(Fields(Body(cpu, b), PROLOGUE_LEN));
  }

  lemma {:induction false} AddressesAreFields(fs: seq<Field>)
    ensures forall r :: r in Addresses(fs) ==> exists f :: f in fs && f.off == r.off && f.what == AddressOf(r.s)
  {
    if fs != [] {
      AddressesAreFields(fs[1..]);
      forall r | r in Addresses(fs) ensures exists f :: f in fs && f.off == r.off && f.what == AddressOf(r.s) {
        if r in Addresses(fs[1..]) {
          var f :| f in fs[1..] && f.off == r.off && f.what == AddressOf(r.s);
          assert f in fs;
        } else {
          assert fs[0] in fs;
        }
      }
    }
  }

  /** From lines to a run: the lines of a block, compiled in either mode -- relocatable code after
      its relocations have been applied -- give code that, entered with store s, halts with the store
      and the value the interpreter's run of the block ends with, if that run does not fail, the
      values it meets can be carried in a double, and the conditions it meets are numbers. */
  lemma LinesRun(cpu: Cpu, lines: seq<Line>, aot: bool, addr: Symbol -> nat, s: Store, m0: State, fuel: nat) returns (n: nat, m1: State)
    requires AddrOk(addr) && ParseB(lines).Some? && AcceptsB(ParseB(lines).value, 0)
    requires NamesOk(Body(cpu, ParseB(lines).value))
    requires |FunctionBytes(cpu, ParseB(lines).value, addr)| < 0x8000_0000
    requires Ieee(cpu) && StmtCorrect.Entry(m0, s)
    requires CarriedB(cpu, ParseB(lines).value, s, fuel) && ExecB(cpu, Interpreted, ParseB(lines).value, s, fuel) != Failed
    ensures var b := ParseB(lines).value;
            var relocs := BodyRelocs(cpu, b, addr);
            && lines == RenderB(b)
            && AllWithin(RelocPatches(relocs, addr), |FunctionBytes(cpu, b, NoAddress)|)
            && var code := if aot then PatchAll(FunctionBytes(cpu, b, NoAddress), RelocPatches(relocs, addr)) else FunctionBytes(cpu, b, addr);
            && Run(Env(cpu, addr, code), m0, n) == Some(m1)
            && StmtCorrect.EndsAs(cpu, ExecB(cpu, Interpreted, b, s, fuel), n, m1, fuel)
  {
    hide Ieee, CarriedB, ExecB, FunctionBytes, AddrOk, NamesOk, AcceptsB, ParseB, Run, PatchAll, AllWithin, RelocPatches, BodyRelocs, GenB;
    var b := ParseB(lines).value;
    RenderParse(lines);
    RelocatedIsDirect(cpu, b, addr);
    n, m1 := Agreement.FunctionAgrees(cpu, b, addr, s, m0, fuel);
  }
}
