/** Building and loading executable files in place: growing buffers, padding loops, a string table
    searched before it grows, and the loader's registration loop. */
module ExecLoader {
  import opened Options
  import opened MachineCode
  import opened Backpatch
  import opened JitBuffers
  import opened Finishing
  import opened Relocation
  import opened ExecFile
  import Values
  import Language
  import CodeGen

  class ExecBuilder {
    var known: seq<Name>
    var offs: seq<nat>
    var stringBuf: Bytes
    var codeBuf: Bytes
    var relocBuf: seq<Reloc>
    var heads: seq<Head>
    var entryOff: nat
    var entrySize: nat

    function State(): Acc
      reads this
    {
      Acc(Strings(known, offs, stringBuf), codeBuf, relocBuf, heads, entryOff, entrySize)
    }

    constructor ()
      ensures State() == EMPTY_ACC
    {
      known, offs, stringBuf, codeBuf, relocBuf, heads, entryOff, entrySize := [], [], [], [], [], [], 0, 0;
    }

    /** aot_st_add: the offset of a string, added at the end unless an equal one is there. */
    method AddString(s: Name) returns (off: nat)
      requires NameOk(s) && |known| == |offs|
      modifies this
      ensures var (st, o) := StAdd(old(State()).st, s); State() == old(State()).(st := st) && off == o
      ensures |known| == |offs|
    {
      hide NameOk, NameBytes;
      var i := 0;
      while i < |known|
        invariant 0 <= i <= |known| && State() == old(State())
        invariant forall k :: 0 <= k < i ==> known[k] != s
      {
        if known[i] == s {
          FoundAt(known, s, i);
          return offs[i];
        }
        i := i + 1;
      }
      FoundAt(known, s, i);
      off := |stringBuf|;
      stringBuf := stringBuf + NameBytes(s);
      known, offs := known + [s], offs + [off];
    }

    method AddFunction(f: Fn)
      requires NameOk(f.name) && NameOk(Joined(f.params)) && |known| == |offs|
      modifies this
      ensures State() == Collect(old(State()), f) && |known| == |offs|
    {
      hide NameOk, Joined, StAdd;
      var nameOff := AddString(f.name);
      var paramsOff, paramsLen := 0, 0;
      if f.params != [] {
        var text := JoinParams(f.params);
        paramsOff := AddString(text);
        paramsLen := |text|;
      } else {
        assert Joined(f.params) == [] by { NoParams(); }
      }
      var codeOff, relocFirst := |codeBuf|, |relocBuf|;
      codeBuf := codeBuf + f.code;
      relocBuf := relocBuf + f.relocs;
      heads := heads + [Head(nameOff, |f.name|, codeOff, |f.code|, |f.params|, relocFirst, |f.relocs|, paramsOff, paramsLen)];
      if f.name == MAIN {
        entryOff, entrySize := codeOff, |f.code|;
      }
    }

    /** The whole file: header, function headers, strings, code and relocations, each section padded
        to its alignment byte by byte. */
    method Assemble() returns (file: Bytes)
      requires OffsOk(relocBuf)
      ensures file == FileBytes(State())
    {
      hide Words, HeaderWords, HeadsWords, RelocsWords, Pad, StringsAt, CodeAt, RelocsAt;
      var a := State();
      file := Words(HeaderWords(a)) + Words(HeadsWords(heads));
      file := PadTo(file, StringsAt(|heads|));
      file := file + stringBuf;
      file := PadTo(file, CodeAt(a));
      file := file + codeBuf;
      file := PadTo(file, RelocsAt(a));
      file := file + Words(RelocsWords(relocBuf));
    }
  }

  lemma {:induction false} FoundAt(ss: seq<Name>, s: Name, i: nat)
    requires i <= |ss| && forall k :: 0 <= k < i ==> ss[k] != s
    ensures i == |ss| || ss[i] == s ==> IndexOf(ss, s) == i
    decreases i
  {
    if i > 0 {
      FoundAt(ss[1..], s, i - 1);
    }
  }

  lemma NoParams()
    ensures Joined([]) == []
  {
  }

  method PadTo(s: Bytes, target: nat) returns (r: Bytes)
    ensures r == Pad(s, target)
  {
    r := s;
    while |r| < target
      invariant Pad(r, target) == Pad(s, target)
      decreases target - |r|
    {
      r := r + [0];
    }
  }

  /** The parameter names as one text, a line feed between neighbours. */
  method JoinParams(ps: seq<Name>) returns (text: Name)
    requires ps != []
    ensures text == Joined(ps)
  {
    hide Joined;
    text := [];
    var i := 0;
    assert ps[0..] == ps;
    while i < |ps|
      invariant 0 <= i <= |ps|
      invariant i < |ps| ==> text + Joined(ps[i..]) == Joined(ps)
      invariant i == |ps| ==> text == Joined(ps)
    {
      JoinStep(ps[i..]);
      assert ps[i..][1..] == ps[i + 1..] && ps[i..][0] == ps[i];
      text := text + ps[i];
      if i + 1 < |ps| {
        text := text + [LINE_FEED];
      }
      i := i + 1;
    }
  }

  lemma JoinStep(ps: seq<Name>)
    requires ps != []
    ensures Joined(ps) == if |ps| == 1 then ps[0] else ps[0] + [LINE_FEED] + Joined(ps[1..])
  {
  }

  /** arp_aot_compile, from the compiled functions on. */
  method BuildFile(fns: seq<Fn>) returns (file: Bytes)
    requires AllOk(fns) && (forall k :: 0 <= k < |fns| ==> NameOk(fns[k].name) && NameOk(Joined(fns[k].params)))
    ensures OffsOk(Collected(fns).relocs) && file == FileBytes(Collected(fns))
  {
    hide NameOk, Joined, Collect, FileBytes, FnOk;
    var b := new ExecBuilder();
    var i := 0;
    assert fns[..0] == [];
    while i < |fns|
      invariant 0 <= i <= |fns| && fresh(b) && b.State() == Collected(fns[..i]) && |b.known| == |b.offs|
    {
      assert fns[..i + 1][..i] == fns[..i];
      b.AddFunction(fns[i]);
      i := i + 1;
    }
    assert fns[..i] == fns;
    CollectedRelocs(fns);
    file := b.Assemble();
  }

  // ----- loading

  /** The parameter names of a text of lines: cut at line feeds until argc names are found or the text
      ends; the names must be exactly argc and use up the text. */
  method CutParams(text: Name, argc: nat) returns (ps: Option<seq<Name>>)
    requires argc > 0
    ensures ps == Cut(text, argc)
  {
    hide LineLen, Cut;
    var names: seq<Name> := [];
    var p := 0;
    assert text[0..] == text;
    AheadNothing(Cut(text, argc));
    while |names| < argc
      invariant 0 <= p <= |text| && |names| <= argc
      invariant if |names| < argc then Cut(text, argc) == Ahead(names, Cut(text[p..], argc - |names|))
                else Cut(text, argc) == if p == |text| then Some(names) else None
      decreases argc - |names|
    {
      var start := p;
      while p < |text| && text[p] != LINE_FEED
        invariant start <= p <= |text| && LineLen(text[start..]) == p - start + LineLen(text[p..])
      {
        LineLenStep(text[p..]);
        assert text[p..][1..] == text[p + 1..];
        p := p + 1;
      }
      LineLenStep(text[p..]);
      assert text[start..][..p - start] == text[start..p];
      CutStep(text[start..], argc - |names|);
      if p < |text| {
        AheadTwice(names, text[start..p], Cut(text[start..][p - start + 1..], if argc - |names| > 1 then argc - |names| - 1 else 1));
      }
      names := names + [text[start..p]];
      if p < |text| {
        assert text[start..][p - start + 1..] == text[p + 1..];
        p := p + 1;
      } else {
        assert text[start..] == text[start..p];
        return if |names| == argc then Some(names) else None;
      }
    }
    ps := if p == |text| then Some(names) else None;
  }

  function Ahead(names: seq<Name>, r: Option<seq<Name>>): Option<seq<Name>> {
    match r case None => None case Some(x) => Some(names + x)
  }

  lemma AheadNothing(r: Option<seq<Name>>)
    ensures Ahead([], r) == r
  {
    assert r.Some? ==> [] + r.value == r.value;
  }

  lemma AheadTwice(names: seq<Name>, n: Name, r: Option<seq<Name>>)
    ensures Ahead(names, Ahead([n], r)) == Ahead(names + [n], r)
  {
    assert r.Some? ==> names + ([n] + r.value) == names + [n] + r.value;
  }

  lemma LineLenStep(t: Name)
    ensures LineLen(t) == if t == [] || t[0] == LINE_FEED then 0 else LineLen(t[1..]) + 1
  {
  }

  lemma CutStep(t: Name, argc: nat)
    requires argc > 0
    ensures var n := LineLen(t);
            Cut(t, argc) ==
            if n == |t| then (if argc == 1 then Some([t]) else None)
            else if argc == 1 then (if n + 1 == |t| then Some([t[..n]]) else None)
            else Ahead([t[..n]], Cut(t[n + 1..], argc - 1))
  {
  }

  /** function_register_aot: in place of a function of the same name, else at the end. */
  method RegisterFunction(reg: seq<Loaded>, f: Loaded) returns (r: seq<Loaded>)
    ensures r == Register(reg, f)
  {
    var i := 0;
    while i < |reg|
      invariant 0 <= i <= |reg| && forall k :: 0 <= k < i ==> reg[k].name != f.name
    {
      if reg[i].name == f.name {
        RegisteredAt(reg, f.name, i);
        return reg[i := f];
      }
      i := i + 1;
    }
    RegisteredAt(reg, f.name, i);
    r := reg + [f];
  }

  lemma {:induction false} RegisteredAt(reg: seq<Loaded>, name: Name, i: nat)
    requires i <= |reg| && forall k :: 0 <= k < i ==> reg[k].name != name
    ensures i == |reg| || reg[i].name == name ==> Registered(reg, name) == i
  {
  }

  /** Copies a function's code out of the file and applies its relocations to the copy. */
  method LoadCode(file: Bytes, at: nat, n: nat, relocs: seq<Reloc>, addr: Symbol -> nat) returns (code: Option<Bytes>)
    requires at + n <= |file|
    ensures code == Relocated(file[at..at + n], relocs, addr)
  {
    hide PatchAll, RelocPatches, RelocsOk, AllWithin;
    var copy := new Byte[n];
    var i := 0;
    while i < n
      invariant 0 <= i <= n && forall k :: 0 <= k < i ==> copy[k] == file[at + k]
    {
      copy[i] := file[at + i];
      i := i + 1;
    }
    assert copy[..] == file[at..at + n];
    var ok := ApplyRelocs(copy, relocs, addr);
    code := if ok then Some(copy[..]) else None;
  }

  method LoadFunction(file: Bytes, h: Header, f: Head, addr: Symbol -> nat) returns (r: Option<Loaded>)
    requires HeaderOk(file, h)
    ensures r == LoadFn(file, h, f, addr)
  {
    hide Relocated, CStr, Cut, ReadRelocs, TextAt;
    if f.nameOff + f.nameLen >= h.stringsSize {
      return None;
    }
    if f.codeSize == 0 || f.codeOff + f.codeSize > h.codeSize {
      return None;
    }
    if f.relocCount > 0 && f.relocFirst + f.relocCount > h.relocCount {
      return None;
    }
    var code := LoadCode(file, h.codeOff + f.codeOff, f.codeSize, ReadRelocs(file, h.relocOff + 8 * f.relocFirst, f.relocCount), addr);
    if code.None? {
      return None;
    }
    var name := CStr(file, h.stringsOff + f.nameOff);
    if f.paramCount == 0 {
      return Some(Loaded(name, [], code.value));
    }
    if f.paramsLen == 0 || f.paramsOff + f.paramsLen >= h.stringsSize {
      return None;
    }
    var ps := CutParams(TextAt(file, h.stringsOff + f.paramsOff, f.paramsLen), f.paramCount);
    r := match ps case None => None case Some(x) => Some(Loaded(name, x, code.value));
  }

  /** arp_aot_execute and, with the functions registered already, arp_aot_execute_library, up to the call of
      the entry function. */
  method LoadFile(file: Bytes, start: seq<Loaded>, addr: Symbol -> nat) returns (r: Option<seq<Loaded>>)
    ensures r == LoadInto(file, start, addr)
  {
    hide HeaderOk, LoadFn, ReadHead, ReadHeader, Register, Registered;
    if |file| < HEADER_SIZE {
      return None;
    }
    var h := ReadHeader(file);
    if !HeaderOk(file, h) {
      return None;
    }
    var reg := start;
    var i := 0;
    while i < h.count
      invariant 0 <= i <= h.count && LoadUpTo(file, h, i, start, addr) == Some(reg)
    {
      var f := LoadFunction(file, h, ReadHead(file, HEADER_SIZE + i * FUNC_SIZE), addr);
      if f.None? {
        Stopped(file, h, i, h.count, start, addr);
        return None;
      }
      reg := RegisterFunction(reg, f.value);
      i := i + 1;
    }
    r := if h.flags % 2 == 1 && Registered(reg, MAIN) == |reg| then None else Some(reg);
  }

  /** A function that fails to load makes the whole load fail. */
  lemma {:induction false} Stopped(file: Bytes, h: Header, i: nat, n: nat, start: seq<Loaded>, addr: Symbol -> nat)
    requires HeaderOk(file, h) && i < n && LoadFn(file, h, ReadHead(file, HEADER_SIZE + i * FUNC_SIZE), addr) == None
    ensures LoadUpTo(file, h, n, start, addr) == None
    decreases n
  {
    hide HeaderOk, LoadFn, ReadHead, Register;
    if i < n - 1 {
      Stopped(file, h, i, n - 1, start, addr);
    }
  }

  // ----- from the compiler through the file

  /** A function body compiled relocatably, as it goes into a file. */
  function Compiled(cpu: Values.Cpu, name: Name, params: seq<Name>, b: Language.Block, addr: Symbol -> nat): Fn
    requires CodeGen.NamesOk(CodeGen.Body(cpu, b))
  {
    Fn(name, params, CodeGen.FunctionBytes(cpu, b, NoAddress), BodyRelocs(cpu, b, addr))
  }

  /** What the compiler puts into a file is always fit to be loaded, and what the loader registers for it
      is byte for byte the code compiled directly into memory. */
  lemma LoadedIsDirect(cpu: Values.Cpu, name: Name, params: seq<Name>, b: Language.Block, addr: Symbol -> nat)
    requires AddrOk(addr) && CodeGen.NamesOk(CodeGen.Body(cpu, b))
    requires NameOk(name) && ParamsOk(params) && |params| < 0x1_0000
    ensures FnOk(Compiled(cpu, name, params, b, addr))
    ensures Image(Compiled(cpu, name, params, b, addr), addr) == Loaded(name, params, CodeGen.FunctionBytes(cpu, b, addr))
  {
    hide NameOk, ParamsOk, PatchAll, RelocPatches, BodyRelocs, AddrOk, AllWithin, CodeGen.NamesOk, RelocsOk;
    OwnRelocsAccepted(cpu, b, addr);
    RelocatedIsDirect(cpu, b, addr);
    CodeNonempty(cpu, b);
  }

  /** A function as its source gives it. */
  datatype Source = Source(name: Name, params: seq<Name>, body: Language.Block)

  /** What the parser and the compiler guarantee of it: names without NUL, parameter names without line
      feed and not empty. */
  ghost predicate SourceOk(cpu: Values.Cpu, f: Source) {
    && NameOk(f.name) && ParamsOk(f.params) && ParamsNamed(f.params) && |f.params| < 0x1_0000
    && CodeGen.NamesOk(CodeGen.Body(cpu, f.body))
  }

  lemma AllSources(cpu: Values.Cpu, fs: seq<Source>)
    requires forall k :: 0 <= k < |fs| ==> SourceOk(cpu, fs[k])
    ensures forall k :: 0 <= k < |fs| ==> CodeGen.NamesOk(CodeGen.Body(cpu, fs[k].body))
  {
    hide NameOk, ParamsOk, CodeGen.NamesOk;
    forall k | 0 <= k < |fs| ensures CodeGen.NamesOk(CodeGen.Body(cpu, fs[k].body)) {
      assert SourceOk(cpu, fs[k]);
    }
  }

  lemma AllFit(cpu: Values.Cpu, fs: seq<Source>, addr: Symbol -> nat)
    requires AddrOk(addr) && forall k :: 0 <= k < |fs| ==> SourceOk(cpu, fs[k])
    ensures forall k :: 0 <= k < |fs| ==>
      CodeGen.NamesOk(CodeGen.Body(cpu, fs[k].body)) && FnOk(Compiled(cpu, fs[k].name, fs[k].params, fs[k].body, addr))
  {
    hide NameOk, ParamsOk, Compiled, FnOk, CodeGen.NamesOk, AddrOk;
    AllSources(cpu, fs);
    forall k | 0 <= k < |fs| ensures FnOk(Compiled(cpu, fs[k].name, fs[k].params, fs[k].body, addr)) {
      assert SourceOk(cpu, fs[k]);
      LoadedIsDirect(cpu, fs[k].name, fs[k].params, fs[k].body, addr);
    }
  }

  ghost function CompiledAll(cpu: Values.Cpu, fs: seq<Source>, addr: Symbol -> nat): (r: seq<Fn>)
    requires AddrOk(addr) && forall k :: 0 <= k < |fs| ==> SourceOk(cpu, fs[k])
    ensures |r| == |fs| && AllOk(r)
    ensures forall k :: 0 <= k < |fs| ==>
      CodeGen.NamesOk(CodeGen.Body(cpu, fs[k].body)) && r[k] == Compiled(cpu, fs[k].name, fs[k].params, fs[k].body, addr)
  {
    hide NameOk, ParamsOk, Compiled, FnOk, CodeGen.NamesOk, AddrOk;
    AllSources(cpu, fs);
    AllFit(cpu, fs, addr);
    seq(|fs|, k requires 0 <= k < |fs| => Compiled(cpu, fs[k].name, fs[k].params, fs[k].body, addr))
  }

  lemma CompiledSame(cpu: Values.Cpu, fs: seq<Source>, home: Symbol -> nat, addr: Symbol -> nat)
    requires AddrOk(home) && AddrOk(addr) && forall k :: 0 <= k < |fs| ==> SourceOk(cpu, fs[k])
    ensures CompiledAll(cpu, fs, home) == CompiledAll(cpu, fs, addr)
  {
    hide SourceOk, AddrOk, BodyRelocs, CompiledAll, CodeGen.NamesOk, CodeGen.FunctionBytes, AllOk;
    var a, b := CompiledAll(cpu, fs, home), CompiledAll(cpu, fs, addr);
    forall k | 0 <= k < |fs| ensures a[k] == b[k] {
      RelocsPortable(cpu, fs[k].body, home, addr);
    }
  }

  /** A whole program through its file, compiled with the helpers in one place and loaded with them in
      another: what loading registers for the functions of any program is, in order, their names, their
      parameter names and the code compiled directly into the memory loaded to. */
  lemma ProgramLoads(cpu: Values.Cpu, fs: seq<Source>, home: Symbol -> nat, addr: Symbol -> nat)
    requires AddrOk(home) && AddrOk(addr) && (forall k :: 0 <= k < |fs| ==> SourceOk(cpu, fs[k]))
    requires forall i, j :: 0 <= i < j < |fs| ==> fs[i].name != fs[j].name
    requires FileSize(Sections(CompiledAll(cpu, fs, home))) < WORD_LIMIT
    ensures OffsOk(Sections(CompiledAll(cpu, fs, home)).relocs)
    ensures var r := Load(FileBytes(Sections(CompiledAll(cpu, fs, home))), addr);
      && r.Some? && |r.value| == |fs|
      && forall k :: 0 <= k < |fs| ==>
           CodeGen.NamesOk(CodeGen.Body(cpu, fs[k].body))
           && r.value[k] == Loaded(fs[k].name, fs[k].params, CodeGen.FunctionBytes(cpu, fs[k].body, addr))
  {
    hide NameOk, ParamsOk, FnOk, CodeGen.NamesOk, AddrOk, Load, FileBytes, FileSize, Sections, OffsOk;
    CompiledSame(cpu, fs, home, addr);
    var fns := CompiledAll(cpu, fs, addr);
    forall k | 0 <= k < |fs| ensures ParamsNamed(fns[k].params) && fns[k].name == fs[k].name {
      assert SourceOk(cpu, fs[k]);
    }
    LoadNamed(fns, addr);
    forall k | 0 <= k < |fs|
      ensures CodeGen.NamesOk(CodeGen.Body(cpu, fs[k].body))
        && Images(fns, addr)[k] == Loaded(fs[k].name, fs[k].params, CodeGen.FunctionBytes(cpu, fs[k].body, addr))
    {
      assert SourceOk(cpu, fs[k]);
      LoadedIsDirect(cpu, fs[k].name, fs[k].params, fs[k].body, addr);
    }
  }

  lemma CodeNonempty(cpu: Values.Cpu, b: Language.Block)
    requires CodeGen.NamesOk(CodeGen.Body(cpu, b))
    ensures CodeGen.FunctionBytes(cpu, b, NoAddress) != []
  {
    hide CodeGen.GenB, CodeGen.Emit, CodeGen.Blob;
    EncLen(Prologue);
  }
}
