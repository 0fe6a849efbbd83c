/** The identity map paging_init builds, and every state reachable from it. */
module IdentityMapProof {
  import opened Options
  import opened FrameBits
  import opened PageTables
  import opened MapPageProof
  import opened AddressSpaceProof

  const TABLES: nat := 64

  /** Gigabytes to map: RAM rounded up, at least 4, at most 64. */
  function GbCount(ram: nat): (gb: nat)
    ensures 4 <= gb <= TABLES
  {
    var r := if ram < 0x1_0000_0000 then 0x1_0000_0000 else ram;
    var n := (r + 0x3FFF_FFFF) / 0x4000_0000;
    if n > TABLES then TABLES else n
  }

  function PdEntry(t: nat, i: nat): nat {
    t * 0x4000_0000 + i * 0x20_0000 + (PAGE_PRESENT + PAGE_WRITE + PAGE_HUGE)
  }

  function PdTable(t: nat): seq<nat> { seq(ENTRIES, (i: nat) => PdEntry(t, i)) }

  function PdptEntry(pds: nat, gb: nat, t: nat): nat {
    if t < gb then pds + t * PAGE_SIZE + (PAGE_PRESENT + PAGE_WRITE) else 0
  }

  function PdptTable(pds: nat, gb: nat): seq<nat> { seq(ENTRIES, (t: nat) => PdptEntry(pds, gb, t)) }

  function Pml4Table(pdpt: nat): seq<nat> { ZeroTable()[0 := pdpt + (PAGE_PRESENT + PAGE_WRITE)] }

  /** Table t of the page directories lies t frames after the first. */
  function PdTables(pds: nat, n: nat): Mem {
    if n == 0 then map[] else PdTables(pds, n - 1)[pds + (n - 1) * PAGE_SIZE := PdTable(n - 1)]
  }

  function InitMem(pml4: nat, pdpt: nat, pds: nat, gb: nat): Mem {
    PdTables(pds, gb)[pdpt := PdptTable(pds, gb)][pml4 := Pml4Table(pdpt)]
  }

  /** The statically placed tables: aligned, apart from each other, below the frames handed out. */
  ghost predicate StaticLayout(pml4: nat, pdpt: nat, pds: nat, base: nat) {
    && pml4 % PAGE_SIZE == 0 && pdpt % PAGE_SIZE == 0 && pds % PAGE_SIZE == 0 && base % PAGE_SIZE == 0
    && pml4 != pdpt && pml4 > 0
    && !(pds <= pml4 < pds + TABLES * PAGE_SIZE) && !(pds <= pdpt < pds + TABLES * PAGE_SIZE)
    && pml4 < base && pdpt < base && pds + TABLES * PAGE_SIZE <= base
  }

  ghost function InitTree(pml4: nat, pdpt: nat, pds: nat, gb: nat): Tree {
    PdNodes(pml4, pdpt, pds, gb)[pdpt := Node(3, pml4, 0, pml4)][pml4 := Node(4, 0, 0, pml4)]
  }

  ghost function PdNodes(pml4: nat, pdpt: nat, pds: nat, n: nat): Tree {
    if n == 0 then map[] else PdNodes(pml4, pdpt, pds, n - 1)[pds + (n - 1) * PAGE_SIZE := Node(2, pdpt, n - 1, pml4)]
  }

  lemma {:induction false} PdTablesAt(pml4: nat, pdpt: nat, pds: nat, n: nat, f: nat)
    ensures f in PdTables(pds, n) <==> exists t: nat :: t < n && f == pds + t * PAGE_SIZE
    ensures forall t: nat :: t < n ==> pds + t * PAGE_SIZE in PdTables(pds, n) && PdTables(pds, n)[pds + t * PAGE_SIZE] == PdTable(t)
    ensures forall t: nat :: t < n ==>
              pds + t * PAGE_SIZE in PdNodes(pml4, pdpt, pds, n) && PdNodes(pml4, pdpt, pds, n)[pds + t * PAGE_SIZE] == Node(2, pdpt, t, pml4)
    ensures f in PdNodes(pml4, pdpt, pds, n) <==> f in PdTables(pds, n)
  {
    hide PdTable;
    PdNodesAt(pml4, pdpt, pds, n, f);
    if n > 0 {
      PdTablesAt(pml4, pdpt, pds, n - 1, f);
      assert f == pds + (n - 1) * PAGE_SIZE ==> exists t: nat :: t < n && f == pds + t * PAGE_SIZE;
    }
  }

  lemma {:induction false} PdNodesAt(pml4: nat, pdpt: nat, pds: nat, n: nat, f: nat)
    ensures forall t: nat :: t < n ==>
              pds + t * PAGE_SIZE in PdNodes(pml4, pdpt, pds, n) && PdNodes(pml4, pdpt, pds, n)[pds + t * PAGE_SIZE] == Node(2, pdpt, t, pml4)
    ensures f in PdNodes(pml4, pdpt, pds, n) <==> f in PdTables(pds, n)
  {
    hide PdTable;
    if n > 0 {
      PdNodesAt(pml4, pdpt, pds, n - 1, f);
    }
  }

  /** Entry reads of the initial tables. */
  lemma InitEntry(pml4: nat, pdpt: nat, pds: nat, base: nat, gb: nat, f: nat, i: nat)
    requires StaticLayout(pml4, pdpt, pds, base) && gb <= TABLES
    ensures var mem := InitMem(pml4, pdpt, pds, gb);
            && (f == pml4 ==> Entry(mem, f, i) == if i == 0 then pdpt + 3 else 0)
            && (f == pdpt ==> Entry(mem, f, i) == if i < gb then pds + i * PAGE_SIZE + 3 else 0)
            && (forall t: nat :: t < gb && f == pds + t * PAGE_SIZE ==>
                  Entry(mem, f, i) == if i < ENTRIES then PdEntry(t, i) else 0)
  {
    hide PdEntry;
    PdTablesAt(pml4, pdpt, pds, gb, f);
  }

  lemma PdEntryBits(t: nat, i: nat)
    ensures var e := PdEntry(t, i);
            Present(e) && Huge(e) && Attrs(e) == 0x83 && WithoutHuge(Attrs(e)) == 3 && Writable(e) && !UserMode(e)
    ensures i < ENTRIES ==> HugeAddr(PdEntry(t, i)) == t * 0x4000_0000 + i * 0x20_0000
  {
    hide Present, Huge, Attrs, HugeAddr, Writable, UserMode;
    var q := t * 0x4_0000 + i * 0x200;
    var h := t * 0x200 + i;
    assert PdEntry(t, i) == 0x1000 * q + 0x83 && PdEntry(t, i) == 0x20_0000 * h + 0x83;
    LowBits(q);
    HighBits(h);
  }

  lemma LowBits(q: nat)
    ensures var e := 0x1000 * q + 0x83; Present(e) && Huge(e) && Attrs(e) == 0x83 && WithoutHuge(Attrs(e)) == 3 && Writable(e) && !UserMode(e)
  {
    PtrBits(0x1000 * q, 0x83);
  }

  lemma HighBits(h: nat)
    ensures HugeAddr(0x20_0000 * h + 0x83) == 0x20_0000 * h
  {
  }

  lemma InitNode(pml4: nat, pdpt: nat, pds: nat, base: nat, gb: nat, f: nat) returns (t: nat)
    requires StaticLayout(pml4, pdpt, pds, base) && gb <= TABLES
    requires f in InitTree(pml4, pdpt, pds, gb)
    ensures f == pml4 || f == pdpt || (t < gb && f == pds + t * PAGE_SIZE && f != pml4 && f != pdpt)
    ensures InitTree(pml4, pdpt, pds, gb)[f] ==
            if f == pml4 then Node(4, 0, 0, pml4) else if f == pdpt then Node(3, pml4, 0, pml4) else Node(2, pdpt, t, pml4)
  {
    PdTablesAt(pml4, pdpt, pds, gb, f);
    t := 0;
    if f != pml4 && f != pdpt {
      t :| t < gb && f == pds + t * PAGE_SIZE;
    }
  }

  lemma InitTreeAt(pml4: nat, pdpt: nat, pds: nat, base: nat, gb: nat, t: nat)
    requires StaticLayout(pml4, pdpt, pds, base) && gb <= TABLES
    ensures var tree := InitTree(pml4, pdpt, pds, gb);
            && pml4 in tree && tree[pml4] == Node(4, 0, 0, pml4)
            && pdpt in tree && tree[pdpt] == Node(3, pml4, 0, pml4)
            && (t < gb ==> pds + t * PAGE_SIZE in tree && tree[pds + t * PAGE_SIZE] == Node(2, pdpt, t, pml4))
  {
    PdTablesAt(pml4, pdpt, pds, gb, 0);
  }

  lemma InitNodeOk(pml4: nat, pdpt: nat, pds: nat, base: nat, gb: nat, f: nat)
    requires StaticLayout(pml4, pdpt, pds, base) && 1 <= gb <= TABLES
    requires f in InitTree(pml4, pdpt, pds, gb)
    ensures NodeOk(InitMem(pml4, pdpt, pds, gb), InitTree(pml4, pdpt, pds, gb), pml4, f)
  {
    hide PdEntry, Present, Huge, Addr, Attrs, Entry;
    var mem, tree := InitMem(pml4, pdpt, pds, gb), InitTree(pml4, pdpt, pds, gb);
    InitEntry(pml4, pdpt, pds, base, gb, pml4, 0);
    PtrBits(pdpt, 3);
    ThreeBits();
    var t := InitNode(pml4, pdpt, pds, base, gb, f);
    if f != pml4 && f != pdpt {
      PdTablesAt(pml4, pdpt, pds, gb, f);
      assert f in mem && mem[f] == PdTable(t);
      assert f % 0x1000 == 0;
      InitEntry(pml4, pdpt, pds, base, gb, pdpt, t);
      PtrBits(pds + t * PAGE_SIZE, 3);
    }
  }

  lemma InitEntryOk(pml4: nat, pdpt: nat, pds: nat, base: nat, gb: nat, f: nat, i: nat)
    requires StaticLayout(pml4, pdpt, pds, base) && 1 <= gb <= TABLES
    requires f in InitTree(pml4, pdpt, pds, gb)
    ensures EntryOk(InitMem(pml4, pdpt, pds, gb), InitTree(pml4, pdpt, pds, gb), pml4, f, i)
  {
    hide PdEntry, Present, Huge, Addr, Attrs, Entry, InitMem, InitTree;
    var t := InitNode(pml4, pdpt, pds, base, gb, f);
    InitTreeAt(pml4, pdpt, pds, base, gb, i);
    InitEntry(pml4, pdpt, pds, base, gb, f, i);
    PtrBits(0, 0);
    ThreeBits();
    if f == pml4 {
      PtrBits(pdpt, 3);
    } else if f == pdpt {
      if i < gb {
        PtrBits(pds + i * PAGE_SIZE, 3);
      }
    } else {
      PdEntryBits(t, i);
    }
  }

  lemma InitInv(pml4: nat, pdpt: nat, pds: nat, base: nat, gb: nat)
    requires StaticLayout(pml4, pdpt, pds, base) && 1 <= gb <= TABLES
    ensures Inv(InitMem(pml4, pdpt, pds, gb), InitTree(pml4, pdpt, pds, gb), pml4)
  {
    hide PdEntry, Present, Huge, Addr, Attrs, Entry, InitMem, InitTree;
    InitTreeAt(pml4, pdpt, pds, base, gb, 0);
    var mem, tree := InitMem(pml4, pdpt, pds, gb), InitTree(pml4, pdpt, pds, gb);
    InitEntry(pml4, pdpt, pds, base, gb, pml4, 0);
    PtrBits(pdpt, 3);
    ThreeBits();
    forall f: nat | f in tree ensures NodeOk(mem, tree, pml4, f) {
      InitNodeOk(pml4, pdpt, pds, base, gb, f);
    }
    forall f: nat, i: nat | f in tree ensures EntryOk(mem, tree, pml4, f, i) {
      InitEntryOk(pml4, pdpt, pds, base, gb, f, i);
    }
  }

  lemma ThreeBits()
    ensures Present(3) && !Huge(3) && Writable(3) && !UserMode(3)
  {
  }

  /** paging_init maps every address below the covered gigabytes to itself, writable, and nothing
      above. */
  lemma InitWalk(pml4: nat, pdpt: nat, pds: nat, base: nat, gb: nat, v: nat)
    requires StaticLayout(pml4, pdpt, pds, base) && 1 <= gb <= TABLES && v < 0x1_0000_0000_0000
    ensures Walk(InitMem(pml4, pdpt, pds, gb), pml4, v) ==
            if v < gb * 0x4000_0000 then Some(Leaf(v, PAGE_PRESENT + PAGE_WRITE, true, false)) else None
  {
    hide PdEntry, Present, Huge, Addr, Attrs, Entry, HugeAddr, WithoutHuge, InitMem, Writable, UserMode;
    InitEntry(pml4, pdpt, pds, base, gb, pml4, I4(v));
    PtrBits(pdpt, 3);
    PtrBits(0, 0);
    ThreeBits();
    Indices(v);
    if I4(v) == 0 {
      InitEntry(pml4, pdpt, pds, base, gb, pdpt, I3(v));
      if I3(v) < gb {
        PtrBits(pds + I3(v) * PAGE_SIZE, 3);
        InitEntry(pml4, pdpt, pds, base, gb, pds + I3(v) * PAGE_SIZE, I2(v));
        PdEntryBits(I3(v), I2(v));
      }
    }
  }

  /** All of RAM up to 64 GB, and the first 4 GB in any case, is mapped to itself, writable and closed to
      user mode; from 64 GB on, and a gigabyte past RAM and 4 GB, nothing is. */
  lemma RamCovered(pml4: nat, pdpt: nat, pds: nat, base: nat, ram: nat, v: nat)
    requires StaticLayout(pml4, pdpt, pds, base) && v < 0x1_0000_0000_0000
    ensures v < 0x1_0000_0000 || (v < ram && v < 0x10_0000_0000) ==>
      Walk(InitMem(pml4, pdpt, pds, GbCount(ram)), pml4, v) == Some(Leaf(v, 3, true, false))
    ensures v >= 0x10_0000_0000 || (v >= 0x1_0000_0000 && v >= ram + 0x4000_0000) ==>
      Walk(InitMem(pml4, pdpt, pds, GbCount(ram)), pml4, v) == None
  {
    hide InitMem, Walk, GbCount;
    Gigabytes(ram);
    InitWalk(pml4, pdpt, pds, base, GbCount(ram), v);
  }

  lemma Gigabytes(ram: nat)
    ensures var b := GbCount(ram) * 0x4000_0000;
      && 0x1_0000_0000 <= b <= 0x10_0000_0000 && (ram <= 0x10_0000_0000 ==> ram <= b)
      && (ram > 0x10_0000_0000 ==> b == 0x10_0000_0000)
      && (b < ram + 0x4000_0000 || b == 0x1_0000_0000)
  {
  }

  lemma Indices(v: nat)
    requires v < 0x1_0000_0000_0000
    ensures v == I4(v) * 0x80_0000_0000 + I3(v) * 0x4000_0000 + I2(v) * 0x20_0000 + v % HUGE_SIZE
  {
    var a := v / 0x20_0000;
    var b := a / 512;
    assert v / 0x4000_0000 == b;
    assert v / 0x80_0000_0000 == b / 512;
    assert b / 512 < 512;
  }
}
