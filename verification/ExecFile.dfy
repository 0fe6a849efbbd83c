/** The executable file: compiled functions with their names, parameter names and relocations laid out
    in one file, and the loader that reads it back. */
module ExecFile {
  import opened Options
  import opened MachineCode
  import opened Backpatch
  import opened JitBuffers
  import opened Finishing
  import opened Relocation

  type Name = seq<int>

  const EXEC_MAGIC: nat := 0x45505241
  const EXEC_VERSION: nat := 20
  const HEADER_SIZE: nat := 48
  const FUNC_SIZE: nat := 36
  const WORD_LIMIT: nat := 0x1_0000_0000
  const LINE_FEED: int := 10

  /** A compiled function as it goes into the file. */
  datatype Fn = Fn(name: Name, params: seq<Name>, code: Bytes, relocs: seq<Reloc>)

  /** A function as the loader registers it. */
  datatype Loaded = Loaded(name: Name, params: seq<Name>, code: Bytes)

  /** Header of one function inside the file. */
  datatype Head = Head(nameOff: nat, nameLen: nat, codeOff: nat, codeSize: nat, paramCount: nat,
                       relocFirst: nat, relocCount: nat, paramsOff: nat, paramsLen: nat)

  // ----- words

  function Words(ws: seq<nat>): (r: Bytes)
    ensures |r| == 4 * |ws|
  {
    if ws == [] then [] else Le32(ws[0]) + Words(ws[1..])
  }

  ghost predicate Small(ws: seq<nat>) { forall k :: 0 <= k < |ws| ==> ws[k] < WORD_LIMIT }

  lemma {:induction false} WordAt(file: Bytes, at: int, ws: seq<nat>, k: nat)
    requires HasAt(file, at, Words(ws)) && Small(ws) && k < |ws|
    ensures U32(file, at + 4 * k) == ws[k]
    decreases k
  {
    hide HasAt, Le32, U32;
    HasSplit(file, at, Le32(ws[0]), Words(ws[1..]));
    if k == 0 {
      ReadU32(file, at, ws[0]);
    } else {
      WordAt(file, at + 4, ws[1..], k - 1);
    }
  }

  lemma {:induction false} WordsApp(a: seq<nat>, b: seq<nat>)
    ensures Words(a + b) == Words(a) + Words(b)
  {
    hide Le32;
    if a == [] {
      assert a + b == b;
    } else {
      assert (a + b)[1..] == a[1..] + b;
      WordsApp(a[1..], b);
    }
  }

  // ----- parameter names

  /** The names joined by line feeds. */
  function Joined(ps: seq<Name>): Name {
    if ps == [] then [] else if |ps| == 1 then ps[0] else ps[0] + [LINE_FEED] + Joined(ps[1..])
  }

  ghost predicate ParamsOk(ps: seq<Name>) {
    forall k :: 0 <= k < |ps| ==> NameOk(ps[k]) && LINE_FEED !in ps[k]
  }

  lemma {:induction false} JoinedOk(ps: seq<Name>)
    requires ParamsOk(ps)
    ensures NameOk(Joined(ps))
  {
    if |ps| > 1 {
      assert NameOk(ps[0]);
      assert forall k :: 0 <= k < |ps[1..]| ==> ps[1..][k] == ps[k + 1];
      JoinedOk(ps[1..]);
    }
  }

  /** Length of the line at the front of a text. */
  function LineLen(t: Name): (n: nat)
    ensures n <= |t|
  {
    if t == [] || t[0] == LINE_FEED then 0 else LineLen(t[1..]) + 1
  }

  /** The loader's cutting of a text into argc names: a name ends at a line feed or at the end; all of
      the text must be used up by exactly argc names. */
  function Cut(t: Name, argc: nat): Option<seq<Name>>
    requires argc > 0
    decreases argc
  {
    var n := LineLen(t);
    if n == |t| then (if argc == 1 then Some([t]) else None)
    else if argc == 1 then (if n + 1 == |t| then Some([t[..n]]) else None)
    else match Cut(t[n + 1..], argc - 1) case None => None case Some(r) => Some([t[..n]] + r)
  }

  lemma {:induction false} LineOf(p: Name, rest: Name)
    requires LINE_FEED !in p
    ensures LineLen(p) == |p| && LineLen(p + [LINE_FEED] + rest) == |p|
  {
    var t := p + [LINE_FEED] + rest;
    if p != [] {
      assert t[1..] == p[1..] + [LINE_FEED] + rest;
      LineOf(p[1..], rest);
    }
  }

  /** Cutting what was joined gives the names back. */
  lemma {:induction false} CutJoined(ps: seq<Name>)
    requires ParamsOk(ps) && ps != []
    ensures Cut(Joined(ps), |ps|) == Some(ps)
  {
    hide NameOk, LineLen;
    assert LINE_FEED !in ps[0];
    if |ps| == 1 {
      LineOf(ps[0], []);
      assert ps == [ps[0]];
    } else {
      var rest := Joined(ps[1..]);
      var t := ps[0] + [LINE_FEED] + rest;
      LineOf(ps[0], rest);
      assert forall k :: 0 <= k < |ps[1..]| ==> ps[1..][k] == ps[k + 1];
      CutJoined(ps[1..]);
      CutFirst(ps[0], rest, |ps| - 1);
      assert ps == [ps[0]] + ps[1..];
    }
  }

  lemma CutFirst(p: Name, rest: Name, argc: nat)
    requires argc > 0 && LINE_FEED !in p
    ensures Cut(p + [LINE_FEED] + rest, argc + 1) == match Cut(rest, argc) case None => None case Some(r) => Some([p] + r)
  {
    var t := p + [LINE_FEED] + rest;
    LineOf(p, rest);
    assert t[..|p|] == p && t[|p| + 1..] == rest;
  }

  // ----- the string table

  datatype Strings = Strings(known: seq<Name>, offs: seq<nat>, buf: Bytes)

  function IndexOf(ss: seq<Name>, s: Name): (i: nat)
    ensures i <= |ss| && (i < |ss| ==> ss[i] == s)
  {
    if ss == [] || ss[0] == s then 0 else IndexOf(ss[1..], s) + 1
  }

  ghost predicate StringsOk(t: Strings) {
    |t.known| == |t.offs| && forall i :: 0 <= i < |t.known| ==> Stored(t.buf, t.offs[i], t.known[i])
  }

  /** A NUL-terminated copy of s lies at off. */
  ghost predicate Stored(buf: Bytes, off: int, s: Name) { NameOk(s) && HasAt(buf, off, NameBytes(s)) }

  /** Adds a string unless it is there already; where it is. */
  function StAdd(t: Strings, s: Name): (r: (Strings, nat))
    requires NameOk(s) && |t.known| == |t.offs|
  {
    var i := IndexOf(t.known, s);
    if i < |t.known| then (t, t.offs[i])
    else (Strings(t.known + [s], t.offs + [|t.buf|], t.buf + NameBytes(s)), |t.buf|)
  }

  lemma HasAtGrows(buf: Bytes, more: Bytes, off: int, bs: Bytes)
    requires HasAt(buf, off, bs)
    ensures HasAt(buf + more, off, bs)
  {
    assert (buf + more)[off..off + |bs|] == buf[off..off + |bs|];
  }

  lemma HasAtEnd(buf: Bytes, bs: Bytes)
    ensures HasAt(buf + bs, |buf|, bs)
  {
    assert (buf + bs)[|buf|..|buf| + |bs|] == bs;
  }

  lemma StAddOk(t: Strings, s: Name)
    requires StringsOk(t) && NameOk(s)
    ensures var (u, off) := StAdd(t, s);
            StringsOk(u) && t.buf <= u.buf && Stored(u.buf, off, s)
  {
    hide NameOk, NameBytes, HasAt;
    var i := IndexOf(t.known, s);
    if i == |t.known| {
      var u := StAdd(t, s).0;
      HasAtEnd(t.buf, NameBytes(s));
      forall k | 0 <= k < |u.known| ensures Stored(u.buf, u.offs[k], u.known[k]) {
        if k < |t.known| {
          HasAtGrows(t.buf, NameBytes(s), t.offs[k], NameBytes(t.known[k]));
        }
      }
    }
  }

  // ----- collecting functions

  datatype Acc = Acc(st: Strings, code: Bytes, relocs: seq<Reloc>, heads: seq<Head>, entryOff: nat, entrySize: nat)

  const EMPTY_ACC: Acc := Acc(Strings([], [], []), [], [], [], 0, 0)

  /** The name of the entry function. */
  const MAIN: Name := [0x5F, 0x5F, 0x6D, 0x61, 0x69, 0x6E, 0x5F, 0x5F]

  ghost predicate FnOk(f: Fn) {
    && NameOk(f.name) && ParamsOk(f.params) && |f.params| < 0x1_0000 && f.code != []
    && RelocsOk(f.relocs, |f.code|)
  }

  function Collect(a: Acc, f: Fn): Acc
    requires NameOk(f.name) && NameOk(Joined(f.params)) && |a.st.known| == |a.st.offs|
  {
    var (st1, nameOff) := StAdd(a.st, f.name);
    var (st2, paramsOff) := if f.params == [] then (st1, 0) else StAdd(st1, Joined(f.params));
    var head := Head(nameOff, |f.name|, |a.code|, |f.code|, |f.params|, |a.relocs|, |f.relocs|, paramsOff, |Joined(f.params)|);
    Acc(st2, a.code + f.code, a.relocs + f.relocs, a.heads + [head],
        if f.name == MAIN then |a.code| else a.entryOff, if f.name == MAIN then |f.code| else a.entrySize)
  }

  /** A header says where its function's parts are. */
  ghost predicate HeadOk(a: Acc, f: Fn, h: Head) {
    && Stored(a.st.buf, h.nameOff, f.name) && h.nameLen == |f.name|
    && HasAt(a.code, h.codeOff, f.code) && h.codeSize == |f.code|
    && h.paramCount == |f.params| && h.paramsLen == |Joined(f.params)|
    && (f.params != [] ==> Stored(a.st.buf, h.paramsOff, Joined(f.params)))
    && h.relocFirst + h.relocCount <= |a.relocs| && a.relocs[h.relocFirst..h.relocFirst + h.relocCount] == f.relocs
  }

  ghost predicate AccOk(a: Acc, fns: seq<Fn>) {
    && StringsOk(a.st) && |a.heads| == |fns|
    && (forall k :: 0 <= k < |fns| ==> HeadOk(a, fns[k], a.heads[k]))
    && (a.entrySize > 0 <==> HasMain(fns)) && a.entryOff + a.entrySize <= |a.code|
  }

  ghost predicate HasMain(fns: seq<Fn>) { exists k :: 0 <= k < |fns| && fns[k].name == MAIN }

  lemma HeadStays(a: Acc, b: Acc, f: Fn, h: Head)
    requires HeadOk(a, f, h) && a.st.buf <= b.st.buf && a.code <= b.code && a.relocs <= b.relocs
    ensures HeadOk(b, f, h)
  {
    hide NameOk, NameBytes;
    assert b.st.buf == a.st.buf + b.st.buf[|a.st.buf|..];
    assert b.code == a.code + b.code[|a.code|..];
    HasAtGrows(a.st.buf, b.st.buf[|a.st.buf|..], h.nameOff, NameBytes(f.name));
    HasAtGrows(a.code, b.code[|a.code|..], h.codeOff, f.code);
    if f.params != [] {
      HasAtGrows(a.st.buf, b.st.buf[|a.st.buf|..], h.paramsOff, NameBytes(Joined(f.params)));
    }
    assert b.relocs[h.relocFirst..h.relocFirst + h.relocCount] == a.relocs[h.relocFirst..h.relocFirst + h.relocCount];
  }

  /** Collecting one more function keeps every earlier header right and makes the new one right. */
  lemma CollectOk(a: Acc, fns: seq<Fn>, f: Fn)
    requires AccOk(a, fns) && FnOk(f) && NameOk(Joined(f.params))
    ensures AccOk(Collect(a, f), fns + [f])
  {
    hide NameOk, NameBytes, HasAt, Joined, HeadOk, RelocsOk, ParamsOk;
    var b := Collect(a, f);
    StAddOk(a.st, f.name);
    var (st1, _) := StAdd(a.st, f.name);
    if f.params != [] {
      StAddOk(st1, Joined(f.params));
    }
    assert a.st.buf <= b.st.buf && a.code <= b.code && a.relocs <= b.relocs;
    forall k | 0 <= k < |fns + [f]| ensures HeadOk(b, (fns + [f])[k], b.heads[k]) {
      if k < |fns| {
        HeadStays(a, b, fns[k], a.heads[k]);
      } else {
        NewHead(a, f);
      }
    }
    assert (fns + [f])[|fns|] == f;
    if a.entrySize > 0 {
      var k :| 0 <= k < |fns| && fns[k].name == MAIN;
      assert (fns + [f])[k].name == MAIN;
    }
  }

  lemma NewHead(a: Acc, f: Fn)
    requires StringsOk(a.st) && NameOk(f.name) && NameOk(Joined(f.params))
    ensures HeadOk(Collect(a, f), f, Collect(a, f).heads[|a.heads|])
  {
    hide NameOk, NameBytes, HasAt, Joined;
    var b := Collect(a, f);
    StAddOk(a.st, f.name);
    var (st1, nameOff) := StAdd(a.st, f.name);
    HasAtEnd(a.code, f.code);
    assert b.relocs[|a.relocs|..|a.relocs| + |f.relocs|] == f.relocs;
    if f.params != [] {
      StAddOk(st1, Joined(f.params));
      assert b.st.buf == st1.buf + b.st.buf[|st1.buf|..];
      HasAtGrows(st1.buf, b.st.buf[|st1.buf|..], nameOff, NameBytes(f.name));
    }
  }

  function Collected(fns: seq<Fn>): (a: Acc)
    requires forall k :: 0 <= k < |fns| ==> NameOk(fns[k].name) && NameOk(Joined(fns[k].params))
    ensures |a.st.known| == |a.st.offs| && |a.heads| == |fns|
  {
    if fns == [] then EMPTY_ACC else Collect(Collected(fns[..|fns| - 1]), fns[|fns| - 1])
  }

  ghost predicate AllOk(fns: seq<Fn>) { forall k :: 0 <= k < |fns| ==> FnOk(fns[k]) }

  lemma AllNamesOk(fns: seq<Fn>)
    requires AllOk(fns)
    ensures forall k :: 0 <= k < |fns| ==> NameOk(fns[k].name) && NameOk(Joined(fns[k].params))
  {
    hide NameOk, Joined, RelocsOk, ParamsOk;
    forall k | 0 <= k < |fns| ensures NameOk(fns[k].name) && NameOk(Joined(fns[k].params)) {
      assert FnOk(fns[k]);
      JoinedOk(fns[k].params);
    }
  }

  lemma {:induction false} CollectedOk(fns: seq<Fn>)
    requires AllOk(fns) && forall k :: 0 <= k < |fns| ==> NameOk(fns[k].name) && NameOk(Joined(fns[k].params))
    ensures AccOk(Collected(fns), fns)
  {
    hide NameOk, Joined, FnOk, Collect, HeadOk, Stored;
    if fns != [] {
      var n := |fns| - 1;
      assert AllOk(fns[..n]) by { assert forall k :: 0 <= k < n ==> FnOk(fns[k]); }
      CollectedOk(fns[..n]);
      assert FnOk(fns[n]);
      CollectOk(Collected(fns[..n]), fns[..n], fns[n]);
      assert fns == fns[..n] + [fns[n]];
    }
  }

  // ----- the file

  function Align16(x: nat): (r: nat)
    ensures x <= r < x + 16 && r % 16 == 0
  {
    (x + 15) / 16 * 16
  }

  function Align8(x: nat): (r: nat)
    ensures x <= r < x + 8 && r % 8 == 0
  {
    (x + 7) / 8 * 8
  }

  function HeadWords(h: Head): seq<nat> {
    [h.nameOff, h.nameLen, h.codeOff, h.codeSize, h.paramCount, h.relocFirst, h.relocCount, h.paramsOff, h.paramsLen]
  }

  function HeadsWords(hs: seq<Head>): (r: seq<nat>)
    ensures |r| == 9 * |hs|
  {
    if hs == [] then [] else HeadsWords(hs[..|hs| - 1]) + HeadWords(hs[|hs| - 1])
  }

  function RelocsWords(rs: seq<Reloc>): (r: seq<nat>)
    requires forall k :: 0 <= k < |rs| ==> rs[k].off >= 0
    ensures |r| == 2 * |rs|
    ensures forall k :: 0 <= k < |rs| ==> r[2 * k] == rs[k].off && r[2 * k + 1] == rs[k].id
  {
    if rs == [] then [] else RelocsWords(rs[..|rs| - 1]) + [rs[|rs| - 1].off, rs[|rs| - 1].id]
  }

  function StringsAt(n: nat): nat { Align16(HEADER_SIZE + n * FUNC_SIZE) }

  function CodeAt(a: Acc): nat { Align16(StringsAt(|a.heads|) + |a.st.buf|) }

  function RelocsAt(a: Acc): nat { Align8(CodeAt(a) + |a.code|) }

  function FileSize(a: Acc): nat { RelocsAt(a) + 8 * |a.relocs| }

  function HeaderWords(a: Acc): seq<nat> {
    [EXEC_MAGIC, EXEC_VERSION, a.entryOff, a.entrySize, StringsAt(|a.heads|), |a.st.buf|, |a.heads|,
     if a.entrySize > 0 then 1 else 0, CodeAt(a), |a.code|, RelocsAt(a), |a.relocs|]
  }

  function Pad(s: Bytes, to: nat): (r: Bytes)
    ensures |s| <= to ==> |r| == to && s <= r
    ensures |s| > to ==> r == s
    decreases if |s| < to then to - |s| else 0
  {
    if |s| < to then Pad(s + [0], to) else s
  }

  ghost predicate OffsOk(rs: seq<Reloc>) { forall k :: 0 <= k < |rs| ==> rs[k].off >= 0 }

  function FileBytes(a: Acc): Bytes
    requires OffsOk(a.relocs)
  {
    var f1 := Words(HeaderWords(a)) + Words(HeadsWords(a.heads));
    var f2 := Pad(f1, StringsAt(|a.heads|)) + a.st.buf;
    var f3 := Pad(f2, CodeAt(a)) + a.code;
    Pad(f3, RelocsAt(a)) + Words(RelocsWords(a.relocs))
  }

  // ----- reading the file back

  function ReadHead(file: Bytes, at: nat): Head {
    Head(U32(file, at), U32(file, at + 4), U32(file, at + 8), U32(file, at + 12), U32(file, at + 16) % 0x1_0000,
         U32(file, at + 20), U32(file, at + 24), U32(file, at + 28), U32(file, at + 32))
  }

  /** The twelve words of the file header. */
  datatype Header = Header(magic: nat, version: nat, entryOff: nat, entrySize: nat, stringsOff: nat, stringsSize: nat,
                           count: nat, flags: nat, codeOff: nat, codeSize: nat, relocOff: nat, relocCount: nat)

  function ReadHeader(file: Bytes): Header {
    Header(U32(file, 0), U32(file, 4), U32(file, 8), U32(file, 12), U32(file, 16), U32(file, 20),
           U32(file, 24), U32(file, 28), U32(file, 32), U32(file, 36), U32(file, 40), U32(file, 44))
  }

  /** The checks made before any section is touched. */
  predicate HeaderOk(file: Bytes, h: Header) {
    && h.magic == EXEC_MAGIC && h.version == EXEC_VERSION
    && HEADER_SIZE + h.count * FUNC_SIZE <= |file|
    && h.stringsOff + h.stringsSize <= |file| && h.codeOff + h.codeSize <= |file|
    && h.relocOff + h.relocCount * 8 <= |file|
  }

  function ReadRelocs(file: Bytes, at: nat, n: nat): (r: seq<Reloc>)
    ensures |r| == n
  {
    seq(n, k requires 0 <= k < n => Reloc(U32(file, at + 8 * k), U32(file, at + 8 * k + 4)))
  }

  /** The code of a function once its relocations are applied; None when one of them is out of range. */
  ghost function Relocated(code: Bytes, relocs: seq<Reloc>, addr: Symbol -> nat): Option<Bytes> {
    if RelocsOk(relocs, |code|) && AllWithin(RelocPatches(relocs, addr), |code|)
    then Some(PatchAll(code, RelocPatches(relocs, addr))) else None
  }

  /** Loading one function: the bounds of its name and code, its relocations, its parameter names. */
  ghost function LoadFn(file: Bytes, h: Header, f: Head, addr: Symbol -> nat): Option<Loaded>
    requires HeaderOk(file, h)
  {
    if f.nameOff + f.nameLen >= h.stringsSize then None
    else if f.codeSize == 0 || f.codeOff + f.codeSize > h.codeSize then None
    else if f.relocCount > 0 && f.relocFirst + f.relocCount > h.relocCount then None
    else
      var code := file[h.codeOff + f.codeOff..h.codeOff + f.codeOff + f.codeSize];
      match Relocated(code, ReadRelocs(file, h.relocOff + 8 * f.relocFirst, f.relocCount), addr)
      case None => None
      case Some(code) =>
        var name := CStr(file, h.stringsOff + f.nameOff);
        if f.paramCount == 0 then Some(Loaded(name, [], code))
        else if f.paramsLen == 0 || f.paramsOff + f.paramsLen >= h.stringsSize then None
        else
          match Cut(TextAt(file, h.stringsOff + f.paramsOff, f.paramsLen), f.paramCount)
          case None => None
          case Some(ps) => Some(Loaded(name, ps, code))
  }

  /** The parameter text as the loader's string functions see it: up to its first NUL. */
  function TextAt(file: Bytes, at: nat, n: nat): Name
    requires at + n <= |file|
  {
    CStr(file[at..at + n], 0)
  }

  /** Registering replaces a function of the same name, else adds one at the end. */
  function Register(reg: seq<Loaded>, f: Loaded): seq<Loaded> {
    var i := Registered(reg, f.name);
    if i < |reg| then reg[i := f] else reg + [f]
  }

  function Registered(reg: seq<Loaded>, name: Name): (i: nat)
    ensures i <= |reg| && (i < |reg| ==> reg[i].name == name) && forall k :: 0 <= k < i ==> reg[k].name != name
  {
    if reg == [] || reg[0].name == name then 0 else Registered(reg[1..], name) + 1
  }

  /** The first n functions of the file registered in order, behind those of `start`. */
  ghost function LoadUpTo(file: Bytes, h: Header, n: nat, start: seq<Loaded>, addr: Symbol -> nat): Option<seq<Loaded>>
    requires HeaderOk(file, h)
  {
    if n == 0 then Some(start) else
    LoadNext(file, h, LoadUpTo(file, h, n - 1, start, addr), n, addr)
  }

  /** Loading the n-th function after those before it. */
  ghost function LoadNext(file: Bytes, h: Header, before: Option<seq<Loaded>>, n: nat, addr: Symbol -> nat): Option<seq<Loaded>>
    requires HeaderOk(file, h) && n > 0
  {
    match before
    case None => None
    case Some(reg) =>
      match LoadFn(file, h, ReadHead(file, HEADER_SIZE + (n - 1) * FUNC_SIZE), addr)
      case None => None
      case Some(f) => Some(Register(reg, f))
  }

  /** What is registered once a file is loaded beside the functions of `start`: those of the program for
      a library, none for a program. None when any check fails, or when the file names an entry function
      that is not there. */
  ghost function LoadInto(file: Bytes, start: seq<Loaded>, addr: Symbol -> nat): Option<seq<Loaded>> {
    var h := ReadHeader(file);
    if |file| < HEADER_SIZE || !HeaderOk(file, h) then None else
    match LoadUpTo(file, h, h.count, start, addr)
    case None => None
    case Some(reg) => if h.flags % 2 == 1 && Registered(reg, MAIN) == |reg| then None else Some(reg)
  }

  ghost function Load(file: Bytes, addr: Symbol -> nat): Option<seq<Loaded>> { LoadInto(file, [], addr) }

  /** Functions registered one after the other. */
  function RegisterAll(reg: seq<Loaded>, fs: seq<Loaded>): seq<Loaded> {
    if fs == [] then reg else Register(RegisterAll(reg, fs[..|fs| - 1]), fs[|fs| - 1])
  }

  // ----- where everything lies in a built file

  ghost predicate LaidOut(file: Bytes, a: Acc) {
    && OffsOk(a.relocs) && |file| == FileSize(a) < WORD_LIMIT
    && HasAt(file, 0, Words(HeaderWords(a))) && HasAt(file, HEADER_SIZE, Words(HeadsWords(a.heads)))
    && HasAt(file, StringsAt(|a.heads|), a.st.buf) && HasAt(file, CodeAt(a), a.code)
    && HasAt(file, RelocsAt(a), Words(RelocsWords(a.relocs)))
  }

  lemma PadKeeps(s: Bytes, to: nat, at: int, bs: Bytes)
    requires HasAt(s, at, bs) && |s| <= to
    ensures HasAt(Pad(s, to), at, bs)
  {
    hide Pad;
    var p := Pad(s, to);
    assert p == s + p[|s|..];
    HasAtGrows(s, p[|s|..], at, bs);
  }

  lemma FileLaidOut(a: Acc)
    requires OffsOk(a.relocs) && FileSize(a) < WORD_LIMIT
    ensures LaidOut(FileBytes(a), a)
  {
    hide HeaderWords, HeadsWords, RelocsWords, Words, Pad, HasAt, Align16, Align8;
    assert |HeaderWords(a)| == 12 by { HeaderLen(a); }
    var w1, w2, w3 := Words(HeaderWords(a)), Words(HeadsWords(a.heads)), Words(RelocsWords(a.relocs));
    var f1 := w1 + w2;
    var p1 := Pad(f1, StringsAt(|a.heads|));
    var f2 := p1 + a.st.buf;
    var p2 := Pad(f2, CodeAt(a));
    var f3 := p2 + a.code;
    var p3 := Pad(f3, RelocsAt(a));
    var f := p3 + w3;
    HasAtEnd([], w1);
    assert [] + w1 == w1;
    HasAtGrows(w1, w2, 0, w1);
    HasAtEnd(w1, w2);
    Carry(f1, StringsAt(|a.heads|), a.st.buf, 0, w1);
    Carry(f1, StringsAt(|a.heads|), a.st.buf, 48, w2);
    HasAtEnd(p1, a.st.buf);
    Carry(f2, CodeAt(a), a.code, 0, w1);
    Carry(f2, CodeAt(a), a.code, 48, w2);
    Carry(f2, CodeAt(a), a.code, |p1|, a.st.buf);
    HasAtEnd(p2, a.code);
    Carry(f3, RelocsAt(a), w3, 0, w1);
    Carry(f3, RelocsAt(a), w3, 48, w2);
    Carry(f3, RelocsAt(a), w3, |p1|, a.st.buf);
    Carry(f3, RelocsAt(a), w3, |p2|, a.code);
    HasAtEnd(p3, w3);
  }

  lemma HeaderLen(a: Acc)
    ensures |HeaderWords(a)| == 12
  {
  }

  lemma Carry(s: Bytes, to: nat, more: Bytes, at: int, bs: Bytes)
    requires HasAt(s, at, bs) && |s| <= to
    ensures HasAt(Pad(s, to) + more, at, bs)
  {
    hide Pad, HasAt;
    PadKeeps(s, to, at, bs);
    HasAtGrows(Pad(s, to), more, at, bs);
  }

  // ----- reading what was laid out

  lemma HasAtNested(file: Bytes, at: nat, section: Bytes, off: int, bs: Bytes)
    requires HasAt(file, at, section) && HasAt(section, off, bs)
    ensures HasAt(file, at + off, bs)
  {
    var s, part := file[at..at + |section|], file[at + off..at + off + |bs|];
    forall i | 0 <= i < |bs| ensures part[i] == bs[i] {
      assert section[off..off + |bs|][i] == section[off + i] == s[off + i] == file[at + off + i];
    }
  }

  lemma HeaderSmall(a: Acc, fns: seq<Fn>)
    requires AccOk(a, fns) && FileSize(a) < WORD_LIMIT
    ensures Small(HeaderWords(a))
  {
    hide HeadOk, StringsOk, HasMain;
  }

  function HeaderWord(a: Acc, j: nat): nat
    requires j < 12
  {
    HeaderWords(a)[j]
  }

  lemma HeaderFromWords(file: Bytes, a: Acc)
    requires forall j: nat :: j < 12 ==> U32(file, 0 + 4 * j) == HeaderWord(a, j)
    ensures ReadHeader(file) == Header(EXEC_MAGIC, EXEC_VERSION, a.entryOff, a.entrySize, StringsAt(|a.heads|), |a.st.buf|,
                                       |a.heads|, if a.entrySize > 0 then 1 else 0, CodeAt(a), |a.code|, RelocsAt(a), |a.relocs|)
  {
    hide U32, StringsAt, CodeAt, RelocsAt;
    assert HeaderWord(a, 0) == EXEC_MAGIC;
    assert HeaderWord(a, 1) == EXEC_VERSION;
    assert HeaderWord(a, 2) == a.entryOff;
    assert HeaderWord(a, 3) == a.entrySize;
    assert HeaderWord(a, 4) == StringsAt(|a.heads|);
    assert HeaderWord(a, 5) == |a.st.buf|;
    assert HeaderWord(a, 6) == |a.heads|;
    assert HeaderWord(a, 7) == if a.entrySize > 0 then 1 else 0;
    assert HeaderWord(a, 8) == CodeAt(a);
    assert HeaderWord(a, 9) == |a.code|;
    assert HeaderWord(a, 10) == RelocsAt(a);
    assert HeaderWord(a, 11) == |a.relocs|;
  }

  lemma HeaderRead(file: Bytes, a: Acc, fns: seq<Fn>)
    requires AccOk(a, fns) && LaidOut(file, a)
    ensures ReadHeader(file) == Header(EXEC_MAGIC, EXEC_VERSION, a.entryOff, a.entrySize, StringsAt(|a.heads|), |a.st.buf|,
                                       |a.heads|, if a.entrySize > 0 then 1 else 0, CodeAt(a), |a.code|, RelocsAt(a), |a.relocs|)
    ensures HeaderOk(file, ReadHeader(file))
  {
    hide HasAt, U32, Words, AccOk, StringsAt, CodeAt, RelocsAt;
    HeaderSmall(a, fns);
    forall j: nat | j < 12 ensures U32(file, 0 + 4 * j) == HeaderWord(a, j) {
      WordAt(file, 0, HeaderWords(a), j);
    }
    HeaderFromWords(file, a);
    SectionsInside(a);
  }

  lemma SectionsInside(a: Acc)
    ensures HEADER_SIZE + |a.heads| * FUNC_SIZE <= StringsAt(|a.heads|)
    ensures StringsAt(|a.heads|) + |a.st.buf| <= CodeAt(a) && CodeAt(a) + |a.code| <= RelocsAt(a) && RelocsAt(a) + 8 * |a.relocs| == FileSize(a)
  {
  }

  lemma {:induction false} HeadsWordAt(hs: seq<Head>, k: nat, j: nat)
    requires k < |hs| && j < 9
    ensures HeadsWords(hs)[9 * k + j] == WordOf(hs[k], j)
    decreases |hs|
  {
    var n := |hs| - 1;
    if k < n {
      HeadsWordAt(hs[..n], k, j);
    }
  }

  function WordOf(h: Head, j: nat): nat
    requires j < 9
  {
    HeadWords(h)[j]
  }

  lemma HeadFields(a: Acc, f: Fn, h: Head)
    requires HeadOk(a, f, h) && FnOk(f) && NameOk(Joined(f.params))
    ensures h.nameOff + h.nameLen < |a.st.buf| && h.codeOff + h.codeSize <= |a.code| && h.codeSize > 0
    ensures f.params != [] ==> h.paramsOff + h.paramsLen < |a.st.buf|
    ensures h.relocFirst + h.relocCount <= |a.relocs| && h.paramCount == |f.params| < 0x1_0000
  {
    hide NameOk, Joined, RelocsOk, ParamsOk;
    NameBytesLen(f.name);
    if f.params != [] {
      NameBytesLen(Joined(f.params));
    }
  }

  lemma NameBytesLen(n: Name)
    requires NameOk(n)
    ensures |NameBytes(n)| == |n| + 1
  {
  }

  ghost predicate HeadSmall(a: Acc, h: Head) {
    && h.nameOff + h.nameLen < FileSize(a) && h.codeOff + h.codeSize < FileSize(a) && h.relocFirst + h.relocCount <= |a.relocs|
    && h.paramsOff + h.paramsLen < FileSize(a) && h.paramCount < 0x1_0000
  }

  lemma {:induction false} CollectedSmall(fns: seq<Fn>, n: nat, k: nat)
    requires AllOk(fns) && (forall i :: 0 <= i < |fns| ==> NameOk(fns[i].name) && NameOk(Joined(fns[i].params)))
    requires k < n <= |fns|
    ensures fns[k].params == [] ==> Collected(fns[..n]).heads[k].paramsOff == 0 && Collected(fns[..n]).heads[k].paramsLen == 0
    decreases n
  {
    hide NameOk, StAdd, FnOk;
    assert fns[..n][..n - 1] == fns[..n - 1] && fns[..n][n - 1] == fns[n - 1];
    if k < n - 1 {
      CollectedSmall(fns, n - 1, k);
    }
  }

  /** Nine words that lie at `at` make the header they are the words of. */
  lemma HeadFromWords(file: Bytes, at: nat, h: Head)
    requires forall j: nat :: j < 9 ==> U32(file, at + 4 * j) == WordOf(h, j)
    requires h.paramCount < 0x1_0000
    ensures ReadHead(file, at) == h
  {
    hide U32;
    assert WordOf(h, 0) == h.nameOff;
    assert WordOf(h, 1) == h.nameLen;
    assert WordOf(h, 2) == h.codeOff;
    assert WordOf(h, 3) == h.codeSize;
    assert WordOf(h, 4) == h.paramCount;
    assert WordOf(h, 5) == h.relocFirst;
    assert WordOf(h, 6) == h.relocCount;
    assert WordOf(h, 7) == h.paramsOff;
    assert WordOf(h, 8) == h.paramsLen;
  }

  lemma WordAtAs(file: Bytes, ws: seq<nat>, i: nat, at: nat)
    requires HasAt(file, HEADER_SIZE, Words(ws)) && Small(ws) && i < |ws| && at == HEADER_SIZE + 4 * i
    ensures U32(file, at) == ws[i]
  {
    hide HasAt, U32, Words, Small;
    WordAt(file, HEADER_SIZE, ws, i);
  }

  /** Header k read back. */
  lemma HeadRead(file: Bytes, fns: seq<Fn>, k: nat)
    requires AllOk(fns) && (forall i :: 0 <= i < |fns| ==> NameOk(fns[i].name) && NameOk(Joined(fns[i].params)))
    requires LaidOut(file, Collected(fns)) && k < |fns|
    ensures ReadHead(file, HEADER_SIZE + k * FUNC_SIZE) == Collected(fns).heads[k]
  {
    hide HasAt, Words, NameOk, Joined, HeadsWords, StringsAt, CodeAt, RelocsAt, AllOk, Collected, Small, ReadHead;
    AllHeadsSmall(fns);
    assert HeadSmall(Collected(fns), Collected(fns).heads[k]);
    var hs, at := Collected(fns).heads, HEADER_SIZE + k * FUNC_SIZE;
    forall j: nat | j < 9 ensures U32(file, at + 4 * j) == WordOf(hs[k], j) {
      HeadsWordAt(hs, k, j);
      WordAtAs(file, HeadsWords(hs), 9 * k + j, at + 4 * j);
    }
    HeadFromWords(file, at, hs[k]);
  }

  lemma AllHeadsSmall(fns: seq<Fn>)
    requires AllOk(fns) && (forall i :: 0 <= i < |fns| ==> NameOk(fns[i].name) && NameOk(Joined(fns[i].params)))
    requires FileSize(Collected(fns)) < WORD_LIMIT
    ensures var a := Collected(fns);
            (forall k :: 0 <= k < |a.heads| ==> HeadSmall(a, a.heads[k])) && Small(HeadsWords(a.heads))
  {
    hide NameOk, Joined, Collected, HeadOk, StringsAt, CodeAt, RelocsAt, FnOk;
    var a := Collected(fns);
    CollectedOk(fns);
    SectionsInside(a);
    forall k: nat | k < |a.heads| ensures HeadSmall(a, a.heads[k]) {
      assert FnOk(fns[k]);
      HeadFields(a, fns[k], a.heads[k]);
      CollectedSmall(fns, |fns|, k);
      assert fns[..|fns|] == fns;
      FileNonempty(a);
    }
    SmallHeads(a, a.heads);
  }

  lemma FileNonempty(a: Acc)
    ensures FileSize(a) >= HEADER_SIZE && FileSize(a) > |a.st.buf| && FileSize(a) > |a.code|
  {
  }

  lemma {:induction false} SmallHeads(a: Acc, hs: seq<Head>)
    requires FileSize(a) < WORD_LIMIT && forall k :: 0 <= k < |hs| ==> HeadSmall(a, hs[k])
    ensures Small(HeadsWords(hs))
    decreases |hs|
  {
    hide FileSize;
    if hs != [] {
      SmallHeads(a, hs[..|hs| - 1]);
      assert HeadSmall(a, hs[|hs| - 1]);
      RelocCountSmall(a);
    }
  }

  lemma RelocCountSmall(a: Acc)
    ensures |a.relocs| <= FileSize(a)
  {
  }

  // ----- one function loaded

  lemma RelocsRead(file: Bytes, a: Acc, first: nat, n: nat)
    requires LaidOut(file, a) && first + n <= |a.relocs| && forall k :: 0 <= k < |a.relocs| ==> a.relocs[k].off < WORD_LIMIT && a.relocs[k].id < WORD_LIMIT
    ensures ReadRelocs(file, RelocsAt(a) + 8 * first, n) == a.relocs[first..first + n]
  {
    hide HasAt, U32, Words, RelocsAt, CodeAt, StringsAt, RelocsWords;
    var ws := RelocsWords(a.relocs);
    assert Small(ws) by { RelocWordsSmall(a.relocs); }
    var at := RelocsAt(a);
    forall k: nat | k < n ensures U32(file, at + 8 * first + 8 * k) == a.relocs[first + k].off && U32(file, at + 8 * first + 8 * k + 4) == a.relocs[first + k].id {
      WordAt(file, at, ws, 2 * (first + k));
      WordAt(file, at, ws, 2 * (first + k) + 1);
      assert at + 4 * (2 * (first + k)) == at + 8 * first + 8 * k;
      assert at + 4 * (2 * (first + k) + 1) == at + 8 * first + 8 * k + 4;
    }
  }

  lemma {:induction false} RelocWordsSmall(rs: seq<Reloc>)
    requires forall k :: 0 <= k < |rs| ==> 0 <= rs[k].off < WORD_LIMIT && rs[k].id < WORD_LIMIT
    ensures Small(RelocsWords(rs))
  {
    if rs != [] {
      RelocWordsSmall(rs[..|rs| - 1]);
    }
  }

  lemma {:induction false} CStrOf(n: Name, bs: Bytes, k: nat)
    requires NameOk(n) && |bs| == |n| && (forall i :: 0 <= i < |n| ==> bs[i] == n[i]) && k <= |n|
    ensures CStr(bs, k) == n[k..]
    decreases |n| - k
  {
    if k < |n| {
      CStrOf(n, bs, k + 1);
      assert n[k..] == [n[k]] + n[k + 1..];
    }
  }

  lemma TextRead(file: Bytes, at: nat, n: Name)
    requires NameOk(n) && HasAt(file, at, NameBytes(n))
    ensures at + |n| <= |file| && TextAt(file, at, |n|) == n
  {
    hide NameOk, CStr;
    NameBytesLen(n);
    var bs := file[at..at + |n|];
    forall i | 0 <= i < |n| ensures bs[i] == n[i] {
      assert file[at..at + |NameBytes(n)|][i] == NameBytes(n)[i];
    }
    CStrOf(n, bs, 0);
    assert n[0..] == n;
  }

  lemma RelocatedOk(code: Bytes, relocs: seq<Reloc>, addr: Symbol -> nat)
    requires RelocsOk(relocs, |code|)
    ensures AllWithin(RelocPatches(relocs, addr), |code|)
    ensures Relocated(code, relocs, addr) == Some(PatchAll(code, RelocPatches(relocs, addr)))
  {
    hide PatchAll, Le64, SymbolAt;
    var ps := RelocPatches(relocs, addr);
    forall k | 0 <= k < |ps| ensures Within(ps[k], |code|) {
      assert RelocOk(relocs[k], |code|);
      assert ps[k] == Patch(relocs[k].off, Le64(addr(SymbolAt(relocs[k].id))));
    }
  }

  /** What a function should be registered as. */
  ghost function Image(f: Fn, addr: Symbol -> nat): Loaded
    requires FnOk(f)
  {
    RelocatedOk(f.code, f.relocs, addr);
    Loaded(f.name, f.params, PatchAll(f.code, RelocPatches(f.relocs, addr)))
  }

  /** A function with one parameter whose name is empty is the one thing the loader will not take; no
      parameter list the parser accepts holds an empty name. */
  predicate Loadable(f: Fn) { f.params != [[]] }

  lemma JoinedEmpty(ps: seq<Name>)
    requires ps != []
    ensures |Joined(ps)| == 0 <==> ps == [[]]
  {
  }

  lemma FnLoads(file: Bytes, a: Acc, fns: seq<Fn>, f: Fn, h: Head, addr: Symbol -> nat)
    requires AccOk(a, fns) && LaidOut(file, a) && HeadOk(a, f, h) && FnOk(f) && NameOk(Joined(f.params)) && HeaderOk(file, ReadHeader(file))
    requires forall k :: 0 <= k < |a.relocs| ==> a.relocs[k].off < WORD_LIMIT && a.relocs[k].id < WORD_LIMIT
    ensures LoadFn(file, ReadHeader(file), h, addr) == if Loadable(f) then Some(Image(f, addr)) else None
  {
    hide HasAt, NameOk, Joined, RelocsOk, ParamsOk, CStr, Cut, NameBytes, PatchAll, StringsAt, CodeAt, RelocsAt, StringsOk, Relocated, TextAt, HasMain, ReadRelocs, LaidOut, RelocPatches, HeadOk, AccOk, HeaderOk;
    HeaderRead(file, a, fns);
    HeadFields(a, f, h);
    CodeLoads(file, a, fns, f, h, addr);
    NamesLoad(file, a, fns, f, h);
  }

  /** Code and relocations found through a header. */
  lemma CodeLoads(file: Bytes, a: Acc, fns: seq<Fn>, f: Fn, h: Head, addr: Symbol -> nat)
    requires LaidOut(file, a) && HeadOk(a, f, h) && FnOk(f)
    requires forall k :: 0 <= k < |a.relocs| ==> a.relocs[k].off < WORD_LIMIT && a.relocs[k].id < WORD_LIMIT
    ensures CodeAt(a) + h.codeOff + h.codeSize <= |file|
    ensures file[CodeAt(a) + h.codeOff..CodeAt(a) + h.codeOff + h.codeSize] == f.code
    ensures ReadRelocs(file, RelocsAt(a) + 8 * h.relocFirst, h.relocCount) == f.relocs
    ensures Relocated(f.code, f.relocs, addr) == Some(Image(f, addr).code)
  {
    hide HasAt, NameOk, Joined, RelocsOk, ParamsOk, PatchAll, StringsAt, CodeAt, RelocsAt, Relocated, ReadRelocs, RelocPatches, AllWithin;
    HasAtNested(file, CodeAt(a), a.code, h.codeOff, f.code);
    SliceIs(file, CodeAt(a) + h.codeOff, f.code);
    RelocsRead(file, a, h.relocFirst, h.relocCount);
    RelocatedOk(f.code, f.relocs, addr);
  }

  lemma NamesLie(file: Bytes, a: Acc, f: Fn, h: Head)
    requires LaidOut(file, a) && HeadOk(a, f, h) && FnOk(f)
    ensures HasAt(file, StringsAt(|a.heads|), a.st.buf) && NameOk(f.name) && ParamsOk(f.params)
    ensures HasAt(a.st.buf, h.nameOff, NameBytes(f.name))
    ensures h.paramCount == |f.params| && h.paramsLen == |Joined(f.params)|
    ensures f.params != [] ==> NameOk(Joined(f.params)) && HasAt(a.st.buf, h.paramsOff, NameBytes(Joined(f.params)))
  {
    hide HasAt, NameOk, Joined, RelocsOk, ParamsOk, NameBytes, StringsAt, CodeAt, RelocsAt;
  }

  /** Name and parameter names found through a header. */
  lemma NamesLoad(file: Bytes, a: Acc, fns: seq<Fn>, f: Fn, h: Head)
    requires LaidOut(file, a) && HeadOk(a, f, h) && FnOk(f) && NameOk(Joined(f.params))
    ensures CStr(file, StringsAt(|a.heads|) + h.nameOff) == f.name
    ensures f.params != [] ==>
              && StringsAt(|a.heads|) + h.paramsOff + h.paramsLen <= |file|
              && Cut(TextAt(file, StringsAt(|a.heads|) + h.paramsOff, h.paramsLen), h.paramCount) == Some(f.params)
              && (h.paramsLen == 0 <==> !Loadable(f))
  {
    hide HasAt, NameOk, Joined, RelocsOk, ParamsOk, CStr, Cut, NameBytes, StringsAt, CodeAt, RelocsAt, TextAt, LaidOut, HeadOk, FnOk;
    NamesLie(file, a, f, h);
    HasAtNested(file, StringsAt(|a.heads|), a.st.buf, h.nameOff, NameBytes(f.name));
    CStrRead(file, StringsAt(|a.heads|) + h.nameOff, f.name);
    if f.params != [] {
      HasAtNested(file, StringsAt(|a.heads|), a.st.buf, h.paramsOff, NameBytes(Joined(f.params)));
      TextRead(file, StringsAt(|a.heads|) + h.paramsOff, Joined(f.params));
      JoinedEmpty(f.params);
      CutJoined(f.params);
    }
  }

  lemma SliceIs(file: Bytes, at: int, bs: Bytes)
    requires HasAt(file, at, bs)
    ensures 0 <= at && at + |bs| <= |file| && file[at..at + |bs|] == bs
  {
  }

  // ----- the whole file loaded

  ghost predicate Distinct(fns: seq<Fn>) { forall i, j :: 0 <= i < j < |fns| ==> fns[i].name != fns[j].name }

  ghost function Images(fns: seq<Fn>, addr: Symbol -> nat): (r: seq<Loaded>)
    requires AllOk(fns)
    ensures |r| == |fns|
  {
    seq(|fns|, k requires 0 <= k < |fns| => Image(fns[k], addr))
  }

  lemma {:induction false} NotRegistered(reg: seq<Loaded>, name: Name)
    requires forall k :: 0 <= k < |reg| ==> reg[k].name != name
    ensures Registered(reg, name) == |reg|
  {
    if reg != [] {
      NotRegistered(reg[1..], name);
    }
  }

  /** A function of a distinctly named list is not registered before its turn. */
  lemma NewName(fns: seq<Fn>, k: nat, addr: Symbol -> nat)
    requires AllOk(fns) && Distinct(fns) && k < |fns|
    ensures Registered(Images(fns, addr)[..k], fns[k].name) == k
    ensures Image(fns[k], addr).name == fns[k].name
  {
    hide FnOk, Registered, PatchAll;
    NotRegistered(Images(fns, addr)[..k], fns[k].name);
  }

  /** Function k of a built file loads as itself, unless it is not loadable. */
  lemma OneLoads(file: Bytes, fns: seq<Fn>, k: nat, addr: Symbol -> nat)
    requires AllOk(fns) && (forall i :: 0 <= i < |fns| ==> NameOk(fns[i].name) && NameOk(Joined(fns[i].params)))
    requires LaidOut(file, Collected(fns)) && HeaderOk(file, ReadHeader(file)) && k < |fns|
    ensures FnOk(fns[k])
    ensures LoadFn(file, ReadHeader(file), ReadHead(file, HEADER_SIZE + k * FUNC_SIZE), addr)
         == if Loadable(fns[k]) then Some(Image(fns[k], addr)) else None
  {
    hide Collected, NameOk, Joined, LaidOut, HeaderOk, LoadFn, AccOk, FnOk, ReadHead, ReadHeader, Loadable, HeadOk, OffsOk;
    CollectedOk(fns);
    CollectedRelocs(fns);
    CodeSmall(file, Collected(fns));
    HeadRead(file, fns, k);
    HeadIs(Collected(fns), fns, k);
    FnLoads(file, Collected(fns), fns, fns[k], Collected(fns).heads[k], addr);
  }

  lemma LoadSteps(file: Bytes, h: Header, n: nat, start: seq<Loaded>, addr: Symbol -> nat)
    requires HeaderOk(file, h)
    ensures LoadUpTo(file, h, 0, start, addr) == Some(start)
    ensures n > 0 ==> LoadUpTo(file, h, n, start, addr) == LoadNext(file, h, LoadUpTo(file, h, n - 1, start, addr), n, addr)
  {
    hide HeaderOk, LoadFn, ReadHead, Register;
  }

  lemma RegisterNew(reg: seq<Loaded>, f: Loaded)
    requires Registered(reg, f.name) == |reg|
    ensures Register(reg, f) == reg + [f]
  {
  }

  lemma {:induction false} UpToLoads(file: Bytes, fns: seq<Fn>, n: nat, start: seq<Loaded>, addr: Symbol -> nat)
    requires AllOk(fns) && (forall i :: 0 <= i < |fns| ==> NameOk(fns[i].name) && NameOk(Joined(fns[i].params)))
    requires LaidOut(file, Collected(fns)) && HeaderOk(file, ReadHeader(file)) && n <= |fns|
    requires forall k :: 0 <= k < |fns| ==> Loadable(fns[k])
    ensures LoadUpTo(file, ReadHeader(file), n, start, addr) == Some(RegisterAll(start, Images(fns, addr)[..n]))
    decreases n
  {
    hide Collected, NameOk, Joined, LaidOut, HeaderOk, LoadFn, FnOk, ReadHead, ReadHeader, Registered, Loadable, LoadUpTo, Register;
    LoadSteps(file, ReadHeader(file), n, start, addr);
    if n > 0 {
      UpToLoads(file, fns, n - 1, start, addr);
      OneLoads(file, fns, n - 1, addr);
      var fs := Images(fns, addr)[..n];
      assert fs[..n - 1] == Images(fns, addr)[..n - 1] && fs[n - 1] == Image(fns[n - 1], addr);
    }
  }

  lemma {:induction false} AllNew(fns: seq<Fn>, n: nat, addr: Symbol -> nat)
    requires AllOk(fns) && Distinct(fns) && n <= |fns|
    ensures RegisterAll([], Images(fns, addr)[..n]) == Images(fns, addr)[..n]
    decreases n
  {
    hide FnOk, Registered, Register, Distinct;
    if n > 0 {
      var fs := Images(fns, addr)[..n];
      AllNew(fns, n - 1, addr);
      NewName(fns, n - 1, addr);
      RegisterNew(Images(fns, addr)[..n - 1], fs[n - 1]);
      assert fs[..n - 1] == Images(fns, addr)[..n - 1];
      assert fs == fs[..n - 1] + [fs[n - 1]];
    }
  }

  // ----- looking functions up

  /** function_find: the first function of that name. */
  function Found(reg: seq<Loaded>, name: Name): Option<Loaded> {
    if Registered(reg, name) < |reg| then Some(reg[Registered(reg, name)]) else None
  }

  /** No two registered functions have the same name. */
  predicate NamesApart(reg: seq<Loaded>) { forall i, j :: 0 <= i < j < |reg| ==> reg[i].name != reg[j].name }

  /** Registering a function makes it the one found under its name, in the place of the one found there
      before or else behind all others, and changes what is found under no other name. */
  lemma RegisterFinds(reg: seq<Loaded>, f: Loaded, name: Name)
    ensures Found(Register(reg, f), name) == if name == f.name then Some(f) else Found(reg, name)
    ensures |Register(reg, f)| == |reg| + if Found(reg, f.name) == None then 1 else 0
    ensures forall k :: 0 <= k < |reg| ==>
      Register(reg, f)[k].name == reg[k].name && (reg[k].name != f.name ==> Register(reg, f)[k] == reg[k])
    ensures NamesApart(reg) ==> NamesApart(Register(reg, f))
  {
    hide Registered;
    var r, i := Register(reg, f), Registered(reg, f.name);
    var j, k := Registered(reg, name), Registered(r, name);
    assert forall n :: 0 <= n < |reg| ==> r[n].name == reg[n].name && (n != i ==> r[n] == reg[n]);
    if name == f.name {
      assert r[i] == f;
      assert k == i;
    } else if j < |reg| {
      assert r[j].name == name;
      assert k == j;
    } else {
      assert k == |r|;
    }
  }

  /** The one of a list of functions found under a name: the last of that name. */
  function LastOf(fs: seq<Loaded>, name: Name): Option<Loaded> {
    if fs == [] then None
    else if fs[|fs| - 1].name == name then Some(fs[|fs| - 1]) else LastOf(fs[..|fs| - 1], name)
  }

  lemma {:induction false} RegisterAllFinds(reg: seq<Loaded>, fs: seq<Loaded>, name: Name)
    ensures Found(RegisterAll(reg, fs), name) == if LastOf(fs, name).Some? then LastOf(fs, name) else Found(reg, name)
    ensures |RegisterAll(reg, fs)| >= |reg| && forall k :: 0 <= k < |reg| ==> RegisterAll(reg, fs)[k].name == reg[k].name
    ensures NamesApart(reg) ==> NamesApart(RegisterAll(reg, fs))
    decreases |fs|
  {
    hide Found, Register, NamesApart;
    if fs != [] {
      var n := |fs| - 1;
      RegisterAllFinds(reg, fs[..n], name);
      RegisterFinds(RegisterAll(reg, fs[..n]), fs[n], name);
    }
  }

  lemma CodeSmall(file: Bytes, a: Acc)
    requires LaidOut(file, a)
    ensures |a.code| < WORD_LIMIT
  {
  }

  lemma HeadIs(a: Acc, fns: seq<Fn>, k: nat)
    requires AccOk(a, fns) && k < |fns|
    ensures HeadOk(a, fns[k], a.heads[k])
  {
  }

  lemma {:induction false} CollectedRelocs(fns: seq<Fn>)
    requires AllOk(fns) && (forall i :: 0 <= i < |fns| ==> NameOk(fns[i].name) && NameOk(Joined(fns[i].params)))
    ensures var a := Collected(fns);
            OffsOk(a.relocs) && (|a.code| < WORD_LIMIT ==> forall k :: 0 <= k < |a.relocs| ==> a.relocs[k].off < WORD_LIMIT && a.relocs[k].id < WORD_LIMIT)
  {
    hide NameOk, Joined, ParamsOk, StAdd;
    if fns != [] {
      var n := |fns| - 1;
      assert AllOk(fns[..n]) by { assert forall k :: 0 <= k < n ==> FnOk(fns[k]); }
      CollectedRelocs(fns[..n]);
      assert FnOk(fns[n]);
      assert forall k :: 0 <= k < |fns[n].relocs| ==> RelocOk(fns[n].relocs[k], |fns[n].code|);
    }
  }

  /** Loading the file built from any distinctly named functions passes every check and registers the
      same functions in the same order, with the same names, the same parameter names and their
      relocated code. Only a list made by hand can hold the one function that stops it: its single
      parameter has an empty name. */
  lemma LoadBuilt(fns: seq<Fn>, addr: Symbol -> nat)
    requires AllOk(fns) && (forall i :: 0 <= i < |fns| ==> NameOk(fns[i].name) && NameOk(Joined(fns[i].params)))
    requires Distinct(fns) && FileSize(Collected(fns)) < WORD_LIMIT
    ensures OffsOk(Collected(fns).relocs)
    ensures (forall k :: 0 <= k < |fns| ==> Loadable(fns[k])) ==> Load(FileBytes(Collected(fns)), addr) == Some(Images(fns, addr))
    ensures !(forall k :: 0 <= k < |fns| ==> Loadable(fns[k])) ==> Load(FileBytes(Collected(fns)), addr) == None
  {
    hide Collected, NameOk, Joined, LaidOut, FnOk, Loadable, FileBytes, FileSize, LoadUpTo, HeaderOk, Registered, AccOk, Images, StringsAt, CodeAt, RelocsAt, HasMain;
    CollectedRelocs(fns);
    CollectedOk(fns);
    var a := Collected(fns);
    var file := FileBytes(a);
    FileLaidOut(a);
    HeaderRead(file, a, fns);
    LaidLong(file, a);
    EntryKnown(a, fns);
    if forall k :: 0 <= k < |fns| ==> Loadable(fns[k]) {
      UpToLoads(file, fns, |fns|, [], addr);
      AllNew(fns, |fns|, addr);
      assert Images(fns, addr)[..|fns|] == Images(fns, addr);
      if HasMain(fns) {
        MainRegistered(fns, addr);
      }
    } else {
      var k :| 0 <= k < |fns| && !Loadable(fns[k]);
      UpToFails(file, fns, |fns|, k, [], addr);
    }
  }

  /** A library loaded beside the functions registered already: each of its functions is found under its
      name from then on, a function of the program with that name no longer is, and every other function
      is found as before, at its place. */
  lemma LibraryLoads(fns: seq<Fn>, reg: seq<Loaded>, name: Name, addr: Symbol -> nat)
    requires AllOk(fns) && FileSize(Sections(fns)) < WORD_LIMIT
    requires forall k :: 0 <= k < |fns| ==> ParamsNamed(fns[k].params)
    ensures OffsOk(Sections(fns).relocs)
    ensures var r := LoadInto(FileBytes(Sections(fns)), reg, addr);
      && r.Some?
      && Found(r.value, name) == (if LastOf(Images(fns, addr), name).Some? then LastOf(Images(fns, addr), name) else Found(reg, name))
      && |r.value| >= |reg| && (forall k :: 0 <= k < |reg| ==> r.value[k].name == reg[k].name)
      && (NamesApart(reg) ==> NamesApart(r.value))
  {
    hide Collected, NameOk, Joined, LaidOut, FnOk, Loadable, FileBytes, FileSize, LoadUpTo, HeaderOk, Registered, AccOk, Images, StringsAt, CodeAt, RelocsAt, HasMain, Found, LastOf, NamesApart;
    AllNamesOk(fns);
    forall k | 0 <= k < |fns| ensures Loadable(fns[k]) {
      assert ParamsNamed(fns[k].params);
      NamedLoads(fns[k]);
    }
    CollectedRelocs(fns);
    CollectedOk(fns);
    var a := Collected(fns);
    var file := FileBytes(a);
    FileLaidOut(a);
    HeaderRead(file, a, fns);
    LaidLong(file, a);
    EntryKnown(a, fns);
    UpToLoads(file, fns, |fns|, reg, addr);
    var fs := Images(fns, addr);
    assert fs[..|fns|] == fs by { ImagesLength(fns, addr); }
    RegisterAllFinds(reg, fs, name);
    RegisterAllFinds(reg, fs, MAIN);
    if HasMain(fns) {
      MainLast(fns, addr);
      FoundIn(RegisterAll(reg, fs), MAIN);
    }
  }

  lemma NamedLoads(f: Fn)
    requires ParamsNamed(f.params)
    ensures Loadable(f)
  {
    if |f.params| == 1 {
      assert f.params[0] != [];
    }
  }

  lemma ImagesLength(fns: seq<Fn>, addr: Symbol -> nat)
    requires AllOk(fns)
    ensures |Images(fns, addr)| == |fns|
  {
    hide FnOk;
  }

  lemma FoundIn(reg: seq<Loaded>, name: Name)
    requires Found(reg, name).Some?
    ensures Registered(reg, name) < |reg|
  {
  }

  lemma MainLast(fns: seq<Fn>, addr: Symbol -> nat)
    requires AllOk(fns) && HasMain(fns)
    ensures LastOf(Images(fns, addr), MAIN).Some?
  {
    hide FnOk, PatchAll, LastOf;
    var k :| 0 <= k < |fns| && fns[k].name == MAIN;
    assert Images(fns, addr)[k].name == MAIN;
    HasLast(Images(fns, addr), MAIN, k);
  }

  lemma {:induction false} HasLast(fs: seq<Loaded>, name: Name, k: nat)
    requires k < |fs| && fs[k].name == name
    ensures LastOf(fs, name).Some?
    decreases |fs|
  {
    if fs[|fs| - 1].name != name {
      HasLast(fs[..|fs| - 1], name, k);
    }
  }

  /** Everything a list of functions puts into the sections of its file. */
  ghost function Sections(fns: seq<Fn>): Acc
    requires AllOk(fns)
  {
    AllNamesOk(fns);
    Collected(fns)
  }

  /** The parser of parameter lists accepts no empty name. */
  predicate ParamsNamed(ps: seq<Name>) { forall k :: 0 <= k < |ps| ==> ps[k] != [] }

  /** With parameters that have names, as all the compiler registers do, loading a built file always
      succeeds. */
  lemma LoadNamed(fns: seq<Fn>, addr: Symbol -> nat)
    requires AllOk(fns) && Distinct(fns) && FileSize(Sections(fns)) < WORD_LIMIT
    requires forall k :: 0 <= k < |fns| ==> ParamsNamed(fns[k].params)
    ensures OffsOk(Sections(fns).relocs) && Load(FileBytes(Sections(fns)), addr) == Some(Images(fns, addr))
  {
    hide NameOk, FnOk, FileSize, FileBytes, Load, Images, Collected, OffsOk;
    AllNamesOk(fns);
    forall k | 0 <= k < |fns| ensures Loadable(fns[k]) {
      assert ParamsNamed(fns[k].params);
      NamedLoads(fns[k]);
    }
    LoadBuilt(fns, addr);
  }

  lemma EntryKnown(a: Acc, fns: seq<Fn>)
    requires AccOk(a, fns)
    ensures (a.entrySize > 0 <==> HasMain(fns)) && |a.heads| == |fns|
  {
  }

  lemma LaidLong(file: Bytes, a: Acc)
    requires LaidOut(file, a)
    ensures |file| >= HEADER_SIZE
  {
    FileNonempty(a);
  }

  lemma MainRegistered(fns: seq<Fn>, addr: Symbol -> nat)
    requires AllOk(fns) && HasMain(fns)
    ensures Registered(Images(fns, addr), MAIN) < |fns|
  {
    hide FnOk, PatchAll, Registered;
    var k :| 0 <= k < |fns| && fns[k].name == MAIN;
    assert Images(fns, addr)[k].name == MAIN;
  }

  /** A function that cannot be loaded stops the loading. */
  lemma {:induction false} UpToFails(file: Bytes, fns: seq<Fn>, n: nat, k: nat, start: seq<Loaded>, addr: Symbol -> nat)
    requires AllOk(fns) && (forall i :: 0 <= i < |fns| ==> NameOk(fns[i].name) && NameOk(Joined(fns[i].params)))
    requires LaidOut(file, Collected(fns)) && HeaderOk(file, ReadHeader(file)) && k < n <= |fns| && !Loadable(fns[k])
    ensures LoadUpTo(file, ReadHeader(file), n, start, addr) == None
    decreases n
  {
    hide Collected, NameOk, Joined, LaidOut, HeaderOk, LoadFn, AccOk, FnOk, ReadHead, ReadHeader, Registered, Loadable;
    if k < n - 1 {
      UpToFails(file, fns, n - 1, k, start, addr);
    } else {
      OneLoads(file, fns, k, addr);
    }
  }

  // ----- the format, and what is checked

  /** A file begins with the letters ARPE and the version 20; its function table is at 48, its sections
      follow in order, the first two at multiples of 16 and the relocations at a multiple of 8. */
  lemma Format(fns: seq<Fn>)
    requires AllOk(fns) && FileSize(Sections(fns)) < 0x1_0000_0000
    ensures OffsOk(Sections(fns).relocs)
    ensures var a, file := Sections(fns), FileBytes(Sections(fns));
      && |file| >= 48 && U32(file, 0) == 0x45505241 && U32(file, 4) == 20 && U32(file, 24) == |fns|
      && U32(file, 16) % 16 == 0 && 48 + 36 * |fns| <= U32(file, 16) < 48 + 36 * |fns| + 16
      && U32(file, 32) % 16 == 0 && U32(file, 16) + U32(file, 20) <= U32(file, 32) < U32(file, 16) + U32(file, 20) + 16
      && U32(file, 40) % 8 == 0 && U32(file, 32) + U32(file, 36) <= U32(file, 40) < U32(file, 32) + U32(file, 36) + 8
      && |file| == U32(file, 40) + 8 * U32(file, 44)
      && HasAt(file, U32(file, 16), a.st.buf) && HasAt(file, U32(file, 32), a.code)
  {
    hide Collected, NameOk, Joined, FnOk, FileBytes, HeaderOk, AccOk, HasAt, U32, Words;
    AllNamesOk(fns);
    CollectedRelocs(fns);
    CollectedOk(fns);
    var a := Collected(fns);
    FileLaidOut(a);
    HeaderRead(FileBytes(a), a, fns);
    LaidLong(FileBytes(a), a);
    EntryKnown(a, fns);
  }

  /** Parameter names stand in the strings with a line feed between them. */
  lemma ParameterText(p: Name, ps: seq<Name>)
    requires ps != []
    ensures Joined([]) == [] && Joined([p]) == p && Joined([p] + ps) == p + [10] + Joined(ps)
  {
    assert ([p] + ps)[1..] == ps;
  }

  /** The entry a file names is the code of its function __main__, if it has one. */
  lemma {:induction false} EntryIs(fns: seq<Fn>) returns (k: nat)
    requires AllOk(fns) && (forall i :: 0 <= i < |fns| ==> NameOk(fns[i].name) && NameOk(Joined(fns[i].params)))
    requires exists i :: 0 <= i < |fns| && fns[i].name == [0x5F, 0x5F, 0x6D, 0x61, 0x69, 0x6E, 0x5F, 0x5F]
    ensures k < |fns| && fns[k].name == [0x5F, 0x5F, 0x6D, 0x61, 0x69, 0x6E, 0x5F, 0x5F]
    ensures HasAt(Collected(fns).code, Collected(fns).entryOff, fns[k].code) && Collected(fns).entrySize == |fns[k].code|
    decreases |fns|
  {
    hide NameOk, Joined, FnOk, HasAt, StAdd;
    var n := |fns| - 1;
    var before := Collected(fns[..n]);
    if fns[n].name == MAIN {
      k := n;
      HasAtEnd(before.code, fns[n].code);
    } else {
      var i :| 0 <= i < |fns| && fns[i].name == MAIN;
      assert fns[..n][i].name == MAIN;
      k := EntryIs(fns[..n]);
      HasAtGrows(before.code, fns[n].code, before.entryOff, fns[k].code);
    }
  }

  /** Whatever file is accepted, by a program or a library load: it begins with those letters and that
      version, every section lies inside it, and for every function in its table the name ends inside the
      strings, the code is not empty and lies inside the code section, and the relocations lie inside
      theirs and write inside the code, to the addresses of symbols there are. */
  lemma AcceptedIsChecked(file: Bytes, start: seq<Loaded>, addr: Symbol -> nat, k: nat)
    requires LoadInto(file, start, addr).Some?
    ensures |file| >= 48 && U32(file, 0) == 0x45505241 && U32(file, 4) == 20
    ensures 48 + U32(file, 24) * 36 <= |file| && U32(file, 16) + U32(file, 20) <= |file|
    ensures U32(file, 32) + U32(file, 36) <= |file| && U32(file, 40) + U32(file, 44) * 8 <= |file|
    ensures k < U32(file, 24) ==>
      var f := ReadHead(file, 48 + k * 36);
      && f.nameOff + f.nameLen < U32(file, 20) && f.codeSize > 0 && f.codeOff + f.codeSize <= U32(file, 36)
      && (f.relocCount > 0 ==> f.relocFirst + f.relocCount <= U32(file, 44))
      && (f.paramCount > 0 ==> f.paramsLen > 0 && f.paramsOff + f.paramsLen < U32(file, 20))
      && forall j: nat :: j < f.relocCount ==> RelocInside(file, f, j)
  {
    hide U32, LoadFn, ReadHead, LoadUpTo, RelocInside;
    var h := ReadHeader(file);
    if k < h.count {
      AllLoad(file, h, h.count, start, addr, k);
      var f := ReadHead(file, 48 + k * 36);
      LoadsChecked(file, h, f, addr);
    }
  }

  /** Relocation j of function f writes eight bytes inside its code and names one of the 62 symbols. */
  predicate RelocInside(file: Bytes, f: Head, j: nat) {
    var at := U32(file, 40) + 8 * (f.relocFirst + j);
    U32(file, at) + 8 <= f.codeSize && U32(file, at + 4) < 62
  }

  lemma {:induction false} AllLoad(file: Bytes, h: Header, n: nat, start: seq<Loaded>, addr: Symbol -> nat, k: nat)
    requires HeaderOk(file, h) && LoadUpTo(file, h, n, start, addr).Some? && k < n
    ensures LoadFn(file, h, ReadHead(file, HEADER_SIZE + k * FUNC_SIZE), addr).Some?
    decreases n
  {
    hide HeaderOk, LoadFn, ReadHead, Register;
    if k < n - 1 {
      AllLoad(file, h, n - 1, start, addr, k);
    }
  }

  lemma LoadsChecked(file: Bytes, h: Header, f: Head, addr: Symbol -> nat)
    requires HeaderOk(file, h) && LoadFn(file, h, f, addr).Some?
    ensures f.nameOff + f.nameLen < h.stringsSize && f.codeSize > 0 && f.codeOff + f.codeSize <= h.codeSize
    ensures f.relocCount > 0 ==> f.relocFirst + f.relocCount <= h.relocCount
    ensures f.paramCount > 0 ==> f.paramsLen > 0 && f.paramsOff + f.paramsLen < h.stringsSize
    ensures h == ReadHeader(file) ==> forall j: nat :: j < f.relocCount ==> RelocInside(file, f, j)
  {
    hide PatchAll, AllWithin, RelocPatches, U32, CStr, Cut, TextAt;
    var relocs := ReadRelocs(file, h.relocOff + 8 * f.relocFirst, f.relocCount);
    forall j: nat | j < f.relocCount && h == ReadHeader(file) ensures RelocInside(file, f, j) {
      assert RelocOk(relocs[j], f.codeSize);
    }
  }
}
