/** Four-level page tables as they lie in physical memory: the table frames, the walk the
    processor does (Intel SDM Volume 3A, section 4.5), and what map_page does to both. */
module PageTables {
  import opened Options
  import opened FrameBits

  const ENTRIES: nat := 512
  const PAGE_PRESENT: nat := 1
  const PAGE_WRITE: nat := 2
  const PAGE_USER: nat := 4
  const PAGE_HUGE: nat := 128
  const HUGE_SIZE: nat := 0x20_0000
  const GIANT_SIZE: nat := 0x4000_0000

  /** Page-aligned physical address to the 512 entries stored in that frame. */
  type Mem = map<nat, seq<nat>>

  function I4(v: nat): (i: nat) ensures i < 512 { v / 0x80_0000_0000 % 512 }
  function I3(v: nat): (i: nat) ensures i < 512 { v / 0x4000_0000 % 512 }
  function I2(v: nat): (i: nat) ensures i < 512 { v / 0x20_0000 % 512 }
  function I1(v: nat): (i: nat) ensures i < 512 { v / 0x1000 % 512 }

  predicate Present(e: nat) { e % 2 == 1 }
  predicate Huge(e: nat) { e / 128 % 2 == 1 }
  predicate Writable(e: nat) { e / 2 % 2 == 1 }
  predicate UserMode(e: nat) { e / 4 % 2 == 1 }
  function Addr(e: nat): nat { e - e % 0x1000 }
  function HugeAddr(e: nat): nat { e - e % 0x20_0000 }
  function Attrs(e: nat): nat { e % 0x1000 }

  /** attrs | PAGE_PRESENT */
  function WithPresent(attrs: nat): nat { if attrs % 2 == 0 then attrs + 1 else attrs }
  /** attrs & PAGE_USER */
  function UserBit(attrs: nat): nat { if attrs / 4 % 2 == 1 then PAGE_USER else 0 }
  /** attrs & ~PAGE_HUGE */
  function WithoutHuge(attrs: nat): nat { if Huge(attrs) then attrs - PAGE_HUGE else attrs }

  /** A read of entry i of the table in frame t; memory never written reads as zero. */
  function Entry(mem: Mem, t: nat, i: nat): nat {
    if t in mem && i < |mem[t]| then mem[t][i] else 0
  }

  function SetEntry(mem: Mem, t: nat, i: nat, e: nat): Mem {
    if t in mem && i < |mem[t]| then
      var table: seq<nat> := mem[t][i := e];
      mem[t := table]
    else mem
  }

  function ZeroTable(): seq<nat> { seq(ENTRIES, _ => 0) }

  // ----- the walk

  datatype Leaf = Leaf(phys: nat, attrs: nat, writable: bool, user: bool)

  /** Physical address and leaf attributes of v, size bit aside, from the root table, and whether it may be
      written and used in user mode: whether every entry on the way allows that (section 4.6 there). */
  function Walk(mem: Mem, root: nat, v: nat): Option<Leaf> {
    var e4 := Entry(mem, root, I4(v));
    if !Present(e4) then None else
    var e3 := Entry(mem, Addr(e4), I3(v));
    if !Present(e3) then None
    else if Huge(e3) then 
      Some(Leaf(e3 - e3 % GIANT_SIZE + v % GIANT_SIZE, WithoutHuge(Attrs(e3)), Writable(e4) && Writable(e3), UserMode(e4) && UserMode(e3)))
    else
    var e2 := Entry(mem, Addr(e3), I2(v));
    if !Present(e2) then None
    else if Huge(e2) then 
      Some(Leaf(HugeAddr(e2) + v % HUGE_SIZE, WithoutHuge(Attrs(e2)),
                Writable(e4) && Writable(e3) && Writable(e2), UserMode(e4) && UserMode(e3) && UserMode(e2)))
    else
    var e1 := Entry(mem, Addr(e2), I1(v));
    if !Present(e1) then None else 
      Some(Leaf(Addr(e1) + v % 0x1000, Attrs(e1), Writable(e4) && Writable(e3) && Writable(e2) && Writable(e1),
                UserMode(e4) && UserMode(e3) && UserMode(e2) && UserMode(e1)))
  }

  /** Whether every entry there is on the way to v's page, page tables included and the page itself not,
      lets it be written. */
  predicate WayWritable(mem: Mem, root: nat, v: nat) {
    var e4 := Entry(mem, root, I4(v));
    if !Present(e4) then true else
    var e3 := Entry(mem, Addr(e4), I3(v));
    if !Present(e3) then Writable(e4) else
    var e2 := Entry(mem, Addr(e3), I2(v));
    Writable(e4) && Writable(e3) && (Present(e2) ==> Writable(e2))
  }

  /** The same for user mode. */
  predicate WayUser(mem: Mem, root: nat, v: nat) {
    var e4 := Entry(mem, root, I4(v));
    if !Present(e4) then true else
    var e3 := Entry(mem, Addr(e4), I3(v));
    if !Present(e3) then UserMode(e4) else
    var e2 := Entry(mem, Addr(e3), I2(v));
    UserMode(e4) && UserMode(e3) && (Present(e2) ==> UserMode(e2))
  }

  /** What address w of v's page is to become: writable and open to user mode if the flags say so and the
      tables that were on the way before do. */
  function MappedLeaf(mem: Mem, root: nat, v: nat, phys: nat, flags: nat, w: nat): Leaf {
    Leaf(Addr(phys) + w % 0x1000, WithPresent(flags), Writable(flags) && WayWritable(mem, root, v), UserMode(flags) && WayUser(mem, root, v))
  }

  // ----- map_page

  /** Table frames together with the allocator's bits. */
  datatype Space = Space(mem: Mem, bits: seq<bool>)

  /** Zeroes frame f and hangs it under entry i of table t. */
  function Link(mem: Mem, t: nat, i: nat, f: nat, attrs: nat): Mem {
    SetEntry(mem[f := ZeroTable()], t, i, f + attrs)
  }

  function EnsureTable(s: Space, base: nat, t: nat, i: nat, flags: nat): (r: Space)
    ensures |r.bits| == |s.bits|
  {
    if Present(Entry(s.mem, t, i)) then s else
    var (bits, f) := AllocSpec(s.bits, base);
    Space(Link(s.mem, t, i, f, PAGE_PRESENT + PAGE_WRITE + UserBit(flags)), bits)
  }

  /** The 512 small pages that stand for one huge page. */
  function SplitTable(e: nat): seq<nat> {
    seq(ENTRIES, (i: nat) => SplitEntry(e, i))
  }

  function SplitEntry(e: nat, i: nat): nat {
    HugeAddr(e) + i * 0x1000 + WithPresent(WithoutHuge(Attrs(e)))
  }

  function Split(mem: Mem, t: nat, i: nat, f: nat): Mem {
    var e := Entry(mem, t, i);
    SetEntry(mem[f := SplitTable(e)], t, i, f + WithPresent(WithoutHuge(Attrs(e))))
  }

  function EnsurePt(s: Space, base: nat, pd: nat, i: nat, flags: nat): (r: Space)
    ensures |r.bits| == |s.bits|
  {
    var e := Entry(s.mem, pd, i);
    if !Present(e) then EnsureTable(s, base, pd, i, flags)
    else if Huge(e) then
      var (bits, f) := AllocSpec(s.bits, base);
      Space(Split(s.mem, pd, i, f), bits)
    else s
  }

  function LeafEntry(phys: nat, flags: nat): nat { Addr(phys) + WithPresent(flags) }

  function MapPageSpec(s: Space, base: nat, root: nat, v: nat, phys: nat, flags: nat): (r: Space)
    ensures |r.bits| == |s.bits|
  {
    var s1 := EnsureTable(s, base, root, I4(v), flags);
    var pdpt := Addr(Entry(s1.mem, root, I4(v)));
    var s2 := EnsureTable(s1, base, pdpt, I3(v), flags);
    var pd := Addr(Entry(s2.mem, pdpt, I3(v)));
    var s3 := EnsurePt(s2, base, pd, I2(v), flags);
    var pt := Addr(Entry(s3.mem, pd, I2(v)));
    Space(SetEntry(s3.mem, pt, I1(v), LeafEntry(phys, flags)), s3.bits)
  }

  /** How many table frames mapping v under root will take. */
  function Missing(mem: Mem, root: nat, v: nat): (n: nat)
    ensures n <= 3
  {
    var e4 := Entry(mem, root, I4(v));
    if !Present(e4) then 3 else
    var e3 := Entry(mem, Addr(e4), I3(v));
    if !Present(e3) then 2 else
    var e2 := Entry(mem, Addr(e3), I2(v));
    if !Present(e2) || Huge(e2) then 1 else 0
  }

  // ----- the shape of live tables

  /** Where a live table hangs and which address space's root it belongs to. */
  datatype Node = Node(lvl: nat, parent: nat, slot: nat, owner: nat)
  type Tree = map<nat, Node>

  predicate IsPtr(lvl: nat, e: nat) { 2 <= lvl <= 4 && Present(e) && (lvl == 2 ==> !Huge(e)) }

  ghost predicate IsRoot(tree: Tree, r: nat) { r in tree && tree[r].lvl == 4 }

  /** Every table other than a root hangs in exactly the slot recorded for it; every root shares
      slot 0 with the kernel's. */
  ghost predicate NodeOk(mem: Mem, tree: Tree, kernel: nat, f: nat)
    requires f in tree
  {
    var n := tree[f];
    && f in mem && |mem[f]| == ENTRIES && f % 0x1000 == 0 && 1 <= n.lvl <= 4
    && (n.lvl == 4 ==> n.owner == f && Entry(mem, f, 0) == Entry(mem, kernel, 0))
    && (n.lvl < 4 ==>
          && n.parent in tree && tree[n.parent].lvl == n.lvl + 1 && n.slot < ENTRIES
          && IsPtr(n.lvl + 1, Entry(mem, n.parent, n.slot))
          && Addr(Entry(mem, n.parent, n.slot)) == f
          && n.owner == tree[n.parent].owner
          && (n.lvl == 3 && n.slot == 0 ==> n.parent == kernel))
  }

  ghost predicate EntryOk(mem: Mem, tree: Tree, kernel: nat, f: nat, i: nat)
    requires f in tree
  {
    var e := Entry(mem, f, i);
    && (tree[f].lvl == 3 && Present(e) ==> !Huge(e))
    && (IsPtr(tree[f].lvl, e) ==>
          && Addr(e) in tree && tree[Addr(e)].lvl + 1 == tree[f].lvl && tree[Addr(e)].slot == i
          && tree[Addr(e)].parent == (if tree[f].lvl == 4 && i == 0 then kernel else f))
  }

  ghost predicate Inv(mem: Mem, tree: Tree, kernel: nat) {
    && IsRoot(tree, kernel)
    && Present(Entry(mem, kernel, 0))
    && (forall f :: f in tree ==> NodeOk(mem, tree, kernel, f))
    && (forall f, i :: f in tree ==> EntryOk(mem, tree, kernel, f, i))
  }

  /** No live table's frame can be handed out again. */
  ghost predicate TablesTaken(tree: Tree, bits: seq<bool>, base: nat) {
    forall f :: f in tree ==> Taken(bits, base, f)
  }

  /** tree' keeps every node of tree and adds only tables below root level. */
  ghost predicate Extends(tree: Tree, tree': Tree) {
    && (forall f :: f in tree ==> f in tree' && tree'[f] == tree[f])
    && (forall f :: f in tree' && f !in tree ==> tree'[f].lvl < 4)
  }

  /** Every live root translates every address in mem' as in mem. */
  ghost predicate SameWalks(tree: Tree, mem: Mem, mem': Mem) {
    forall r, v :: IsRoot(tree, r) ==> Walk(mem', r, v) == Walk(mem, r, v)
  }

  /** The tables on the way to any page allow writing as before, and user mode if the flags ask for it. */
  ghost predicate SameWays(tree: Tree, mem: Mem, mem': Mem, flags: nat) {
    forall r, v :: IsRoot(tree, r) ==>
      WayWritable(mem', r, v) == WayWritable(mem, r, v) && (UserMode(flags) ==> WayUser(mem', r, v) == WayUser(mem, r, v))
  }

  // ----- a walk from a live root stays inside the tree

  lemma Descend(mem: Mem, tree: Tree, kernel: nat, f: nat, i: nat)
    requires Inv(mem, tree, kernel) && f in tree && IsPtr(tree[f].lvl, Entry(mem, f, i))
    ensures i < ENTRIES
    ensures Addr(Entry(mem, f, i)) in tree && tree[Addr(Entry(mem, f, i))].lvl + 1 == tree[f].lvl
    ensures tree[Addr(Entry(mem, f, i))].slot == i
    ensures tree[Addr(Entry(mem, f, i))].parent == (if tree[f].lvl == 4 && i == 0 then kernel else f)
    ensures tree[f].lvl < 4 ==> tree[Addr(Entry(mem, f, i))].owner == tree[f].owner
  {
    assert NodeOk(mem, tree, kernel, f);
    assert EntryOk(mem, tree, kernel, f, i);
    assert NodeOk(mem, tree, kernel, Addr(Entry(mem, f, i)));
  }

  // ----- linking a fresh zeroed table

  lemma LinkEntry(mem: Mem, t: nat, i: nat, f: nat, attrs: nat, t': nat, i': nat)
    requires t in mem && i < |mem[t]| && f != t && t' != f
    ensures Entry(Link(mem, t, i, f, attrs), t', i') == if t' == t && i' == i then f + attrs else Entry(mem, t', i')
  {
  }

  lemma LinkEntryNew(mem: Mem, t: nat, i: nat, f: nat, attrs: nat, i': nat)
    requires t in mem && i < |mem[t]| && f != t
    ensures Entry(Link(mem, t, i, f, attrs), f, i') == 0
  {
  }

  lemma LowTwelve(q: nat, a: nat)
    requires a < 0x1000
    ensures (0x1000 * q + a) % 0x1000 == a && (0x1000 * q + a) / 0x1000 == q
  {
  }

  lemma ParityShift(n: nat, a: nat)
    ensures (2 * n + a) % 2 == a % 2
  {
  }

  lemma Quotient(x: nat, q: nat, r: nat)
    requires x == 128 * q + r && r < 128
    ensures x / 128 == q
  {
  }

  lemma BitZero(q: nat, a: nat)
    ensures (0x1000 * q + a) % 2 == a % 2
  {
    ParityShift(0x800 * q, a);
  }

  lemma BitSeven(q: nat, a: nat)
    ensures (0x1000 * q + a) / 128 % 2 == a / 128 % 2
  {
    Quotient(0x1000 * q + a, 32 * q + a / 128, a % 128);
    ParityShift(16 * q, a / 128);
  }

  lemma PtrBits(f: nat, attrs: nat)
    requires f % 0x1000 == 0 && attrs < 0x1000
    ensures Addr(f + attrs) == f && Attrs(f + attrs) == attrs
    ensures Present(f + attrs) == Present(attrs) && Huge(f + attrs) == Huge(attrs)
    ensures Writable(f + attrs) == Writable(attrs) && UserMode(f + attrs) == UserMode(attrs)
    ensures !Present(0)
  {
    var q := f / 0x1000;
    assert f == 0x1000 * q;
    LowTwelve(q, attrs);
    BitZero(q, attrs);
    BitSeven(q, attrs);
    BitsOneTwo(q, attrs);
  }

  lemma BitsOneTwo(q: nat, a: nat)
    ensures (0x1000 * q + a) / 2 % 2 == a / 2 % 2 && (0x1000 * q + a) / 4 % 2 == a / 4 % 2
  {
    assert (0x1000 * q + a) / 2 == 0x800 * q + a / 2 && (0x1000 * q + a) / 4 == 0x400 * q + a / 4;
    ParityShift(0x400 * q, a / 2);
    ParityShift(0x200 * q, a / 4);
  }

  lemma LinkWalk(mem: Mem, tree: Tree, kernel: nat, t: nat, i: nat, f: nat, attrs: nat, r: nat, v: nat)
    requires Inv(mem, tree, kernel) && t in tree && tree[t].lvl >= 2 && i < ENTRIES
    requires f !in tree && f % 0x1000 == 0 && attrs < 0x1000 && Present(attrs) && !Huge(attrs)
    requires !Present(Entry(mem, t, i)) && IsRoot(tree, r)
    ensures Walk(Link(mem, t, i, f, attrs), r, v) == Walk(mem, r, v)
  {
    hide I4, I3, I2, I1, Addr, Huge, Present, Attrs, HugeAddr, WithPresent, WithoutHuge, Writable, UserMode;
    var mem' := Link(mem, t, i, f, attrs);
    assert NodeOk(mem, tree, kernel, t);
    PtrBits(f, attrs);
    LinkEntryNew(mem, t, i, f, attrs, I3(v));
    LinkEntryNew(mem, t, i, f, attrs, I2(v));
    LinkEntryNew(mem, t, i, f, attrs, I1(v));
    LinkEntry(mem, t, i, f, attrs, r, I4(v));
    var e4 := Entry(mem, r, I4(v));
    if Present(e4) {
      Descend(mem, tree, kernel, r, I4(v));
      var p3 := Addr(e4);
      assert EntryOk(mem, tree, kernel, p3, I3(v));
      LinkEntry(mem, t, i, f, attrs, p3, I3(v));
      var e3 := Entry(mem, p3, I3(v));
      if Present(e3) {
        Descend(mem, tree, kernel, p3, I3(v));
        var p2 := Addr(e3);
        LinkEntry(mem, t, i, f, attrs, p2, I2(v));
        var e2 := Entry(mem, p2, I2(v));
        if Present(e2) && !Huge(e2) {
          Descend(mem, tree, kernel, p2, I2(v));
          LinkEntry(mem, t, i, f, attrs, Addr(e2), I1(v));
        }
      }
    }
  }

  /** A new writable table hinders nothing, nor user mode if it is open to that. */
  lemma LinkWay(mem: Mem, tree: Tree, kernel: nat, t: nat, i: nat, f: nat, attrs: nat, r: nat, v: nat)
    requires Inv(mem, tree, kernel) && t in tree && tree[t].lvl >= 2 && i < ENTRIES
    requires f !in tree && f % 0x1000 == 0 && attrs < 0x1000 && Present(attrs) && !Huge(attrs) && Writable(attrs)
    requires !Present(Entry(mem, t, i)) && IsRoot(tree, r)
    ensures WayWritable(Link(mem, t, i, f, attrs), r, v) == WayWritable(mem, r, v)
    ensures UserMode(attrs) ==> WayUser(Link(mem, t, i, f, attrs), r, v) == WayUser(mem, r, v)
  {
    hide I4, I3, I2, I1, Addr, Huge, Present, Attrs, HugeAddr, WithPresent, WithoutHuge, Writable, UserMode;
    assert NodeOk(mem, tree, kernel, t);
    PtrBits(f, attrs);
    LinkEntryNew(mem, t, i, f, attrs, I3(v));
    LinkEntryNew(mem, t, i, f, attrs, I2(v));
    LinkEntry(mem, t, i, f, attrs, r, I4(v));
    var e4 := Entry(mem, r, I4(v));
    if Present(e4) {
      Descend(mem, tree, kernel, r, I4(v));
      var p3 := Addr(e4);
      assert EntryOk(mem, tree, kernel, p3, I3(v));
      LinkEntry(mem, t, i, f, attrs, p3, I3(v));
      var e3 := Entry(mem, p3, I3(v));
      if Present(e3) {
        Descend(mem, tree, kernel, p3, I3(v));
        LinkEntry(mem, t, i, f, attrs, Addr(e3), I2(v));
      }
    }
  }

  /** The tree after a fresh table f is hung under (t, i). */
  ghost function Grown(tree: Tree, t: nat, i: nat, f: nat): Tree
    requires t in tree && tree[t].lvl >= 1
  {
    tree[f := Node(tree[t].lvl - 1, t, i, tree[t].owner)]
  }

  lemma LinkNode(mem: Mem, tree: Tree, kernel: nat, t: nat, i: nat, f: nat, attrs: nat, g: nat)
    requires Inv(mem, tree, kernel) && t in tree && tree[t].lvl >= 2 && i < ENTRIES
    requires f !in tree && f % 0x1000 == 0 && attrs < 0x1000 && Present(attrs) && !Huge(attrs)
    requires !Present(Entry(mem, t, i))
    requires g in Grown(tree, t, i, f)
    ensures NodeOk(Link(mem, t, i, f, attrs), Grown(tree, t, i, f), kernel, g)
  {
    hide Present, Huge, Addr, Entry;
    assert NodeOk(mem, tree, kernel, t);
    PtrBits(f, attrs);
    LinkEntry(mem, t, i, f, attrs, kernel, 0);
    assert tree[t].lvl == 4 ==> i != 0;
    if g == f {
      LinkEntry(mem, t, i, f, attrs, t, i);
    } else {
      assert NodeOk(mem, tree, kernel, g);
      LinkEntry(mem, t, i, f, attrs, g, 0);
      if tree[g].lvl < 4 {
        LinkEntry(mem, t, i, f, attrs, tree[g].parent, tree[g].slot);
      }
    }
  }

  lemma LinkEntryOk(mem: Mem, tree: Tree, kernel: nat, t: nat, i: nat, f: nat, attrs: nat, g: nat, j: nat)
    requires Inv(mem, tree, kernel) && t in tree && tree[t].lvl >= 2 && i < ENTRIES
    requires f !in tree && f % 0x1000 == 0 && attrs < 0x1000 && Present(attrs) && !Huge(attrs)
    requires !Present(Entry(mem, t, i))
    requires g in Grown(tree, t, i, f)
    ensures EntryOk(Link(mem, t, i, f, attrs), Grown(tree, t, i, f), kernel, g, j)
  {
    hide Present, Huge, Addr, Entry;
    assert NodeOk(mem, tree, kernel, t);
    PtrBits(f, attrs);
    assert tree[t].lvl == 4 ==> i != 0;
    if g == f {
      LinkEntryNew(mem, t, i, f, attrs, j);
    } else {
      LinkEntry(mem, t, i, f, attrs, g, j);
      assert EntryOk(mem, tree, kernel, g, j);
    }
  }

  lemma LinkInv(mem: Mem, tree: Tree, kernel: nat, t: nat, i: nat, f: nat, attrs: nat)
    requires Inv(mem, tree, kernel) && t in tree && tree[t].lvl >= 2 && i < ENTRIES
    requires f !in tree && f % 0x1000 == 0 && attrs < 0x1000 && Present(attrs) && !Huge(attrs)
    requires !Present(Entry(mem, t, i))
    ensures Inv(Link(mem, t, i, f, attrs), Grown(tree, t, i, f), kernel)
  {
    hide Present, Huge, Addr, Link, Entry, NodeOk, EntryOk;
    var mem', tree' := Link(mem, t, i, f, attrs), Grown(tree, t, i, f);
    assert NodeOk(mem, tree, kernel, t) && NodeOk(mem, tree, kernel, kernel);
    forall g | g in tree' ensures NodeOk(mem', tree', kernel, g) {
      LinkNode(mem, tree, kernel, t, i, f, attrs, g);
    }
    forall g, j | g in tree' ensures EntryOk(mem', tree', kernel, g, j) {
      LinkEntryOk(mem, tree, kernel, t, i, f, attrs, g, j);
    }
    LinkRoom(mem, tree, kernel, t);
    LinkEntry(mem, t, i, f, attrs, kernel, 0);
  }

  lemma LinkRoom(mem: Mem, tree: Tree, kernel: nat, t: nat)
    requires t in tree && NodeOk(mem, tree, kernel, t)
    ensures t in mem && |mem[t]| == ENTRIES
  {
  }

  // ----- splitting a huge page

  lemma SplitEntryAt(mem: Mem, t: nat, i: nat, f: nat, t': nat, i': nat)
    requires t in mem && i < |mem[t]| && f != t
    ensures Entry(Split(mem, t, i, f), t', i') ==
            if t' == t && i' == i then f + WithPresent(WithoutHuge(Attrs(Entry(mem, t, i))))
            else if t' == f then (if i' < ENTRIES then SplitEntry(Entry(mem, t, i), i') else 0)
            else Entry(mem, t', i')
  {
  }

  /** Piece i of a split huge page points at the i-th 4 KB of it with the same attributes. */
  lemma SplitPiece(e: nat, i: nat)
    requires Present(e) && Huge(e) && i < ENTRIES
    ensures var p := SplitEntry(e, i);
            Present(p) && Addr(p) == HugeAddr(e) + i * 0x1000 && Attrs(p) == WithoutHuge(Attrs(e))
            && Writable(p) == Writable(e) && UserMode(p) == UserMode(e)
  {
    hide Attrs, WithoutHuge, WithPresent, Present, Huge, Addr, Writable, UserMode;
    HugeAttrs(e);
    var q := 0x200 * (e / 0x20_0000);
    assert HugeAddr(e) == 0x1000 * q;
    var f := 0x1000 * (q + i);
    assert f % 0x1000 == 0;
    PtrBits(f, WithoutHuge(Attrs(e)));
  }

  lemma HugeAttrs(e: nat)
    requires Present(e) && Huge(e)
    ensures Huge(Attrs(e)) && PAGE_HUGE <= Attrs(e) < 0x1000
    ensures WithPresent(WithoutHuge(Attrs(e))) == WithoutHuge(Attrs(e)) == Attrs(e) - PAGE_HUGE
    ensures Present(WithoutHuge(Attrs(e))) && !Huge(WithoutHuge(Attrs(e)))
    ensures Writable(WithoutHuge(Attrs(e))) == Writable(e) && UserMode(WithoutHuge(Attrs(e))) == UserMode(e)
  {
    hide Present, Huge, Writable, UserMode;
    SameLowBits(e);
    WithoutSize(Attrs(e));
  }

  lemma SameLowBits(e: nat)
    ensures var a := e % 0x1000;
      Present(a) == Present(e) && Huge(a) == Huge(e) && Writable(a) == Writable(e) && UserMode(a) == UserMode(e)
  {
    var q, a := e / 0x1000, e % 0x1000;
    assert e == 0x1000 * q + a;
    BitZero(q, a);
    BitSeven(q, a);
    BitsOneTwo(q, a);
  }

  lemma WithoutSize(a: nat)
    requires a < 0x1000 && Present(a) && Huge(a)
    ensures a >= PAGE_HUGE && WithPresent(a - PAGE_HUGE) == a - PAGE_HUGE
    ensures Present(a - PAGE_HUGE) && !Huge(a - PAGE_HUGE)
    ensures Writable(a - PAGE_HUGE) == Writable(a) && UserMode(a - PAGE_HUGE) == UserMode(a)
  {
    assert (a - 128) / 128 == a / 128 - 1;
    assert (a - 128) / 2 == a / 2 - 64 && (a - 128) / 4 == a / 4 - 32;
  }

  lemma OffsetInHuge(v: nat)
    ensures v % HUGE_SIZE == I1(v) * 0x1000 + v % 0x1000
  {
    var q := v / 0x1000;
    assert v == 0x1000 * q + v % 0x1000;
    assert q == 512 * (q / 512) + q % 512;
    assert v == HUGE_SIZE * (q / 512) + (q % 512 * 0x1000 + v % 0x1000);
    assert v / HUGE_SIZE == q / 512;
  }

  lemma SplitWalk(mem: Mem, tree: Tree, kernel: nat, t: nat, i: nat, f: nat, r: nat, v: nat)
    requires Inv(mem, tree, kernel) && t in tree && tree[t].lvl == 2 && i < ENTRIES
    requires f !in tree && f % 0x1000 == 0
    requires Present(Entry(mem, t, i)) && Huge(Entry(mem, t, i)) && IsRoot(tree, r)
    ensures Walk(Split(mem, t, i, f), r, v) == Walk(mem, r, v)
  {
    hide I4, I3, I2, I1, Addr, Huge, Present, Attrs, HugeAddr, WithPresent, WithoutHuge, Writable, UserMode;
    var mem' := Split(mem, t, i, f);
    var e := Entry(mem, t, i);
    assert NodeOk(mem, tree, kernel, t);
    HugeAttrs(e);
    PtrBits(f, WithoutHuge(Attrs(e)));
    SplitEntryAt(mem, t, i, f, r, I4(v));
    assert NodeOk(mem, tree, kernel, r);
    var e4 := Entry(mem, r, I4(v));
    if Present(e4) {
      Descend(mem, tree, kernel, r, I4(v));
      var p3 := Addr(e4);
      assert EntryOk(mem, tree, kernel, p3, I3(v));
      SplitEntryAt(mem, t, i, f, p3, I3(v));
      var e3 := Entry(mem, p3, I3(v));
      if Present(e3) {
        Descend(mem, tree, kernel, p3, I3(v));
        var p2 := Addr(e3);
        SplitEntryAt(mem, t, i, f, p2, I2(v));
        var e2 := Entry(mem, p2, I2(v));
        if p2 == t && I2(v) == i {
          SplitEntryAt(mem, t, i, f, f, I1(v));
          SplitPiece(e, I1(v));
          OffsetInHuge(v);
        } else if Present(e2) && !Huge(e2) {
          Descend(mem, tree, kernel, p2, I2(v));
          SplitEntryAt(mem, t, i, f, Addr(e2), I1(v));
        }
      }
    }
  }

  lemma SplitWay(mem: Mem, tree: Tree, kernel: nat, t: nat, i: nat, f: nat, r: nat, v: nat)
    requires Inv(mem, tree, kernel) && t in tree && tree[t].lvl == 2 && i < ENTRIES
    requires f !in tree && f % 0x1000 == 0
    requires Present(Entry(mem, t, i)) && Huge(Entry(mem, t, i)) && IsRoot(tree, r)
    ensures WayWritable(Split(mem, t, i, f), r, v) == WayWritable(mem, r, v)
    ensures WayUser(Split(mem, t, i, f), r, v) == WayUser(mem, r, v)
  {
    hide I4, I3, I2, I1, Addr, Huge, Present, Attrs, HugeAddr, WithPresent, WithoutHuge, Writable, UserMode;
    var e := Entry(mem, t, i);
    assert NodeOk(mem, tree, kernel, t) && NodeOk(mem, tree, kernel, r);
    HugeAttrs(e);
    PtrBits(f, WithoutHuge(Attrs(e)));
    SplitEntryAt(mem, t, i, f, r, I4(v));
    var e4 := Entry(mem, r, I4(v));
    if Present(e4) {
      Descend(mem, tree, kernel, r, I4(v));
      var p3 := Addr(e4);
      assert EntryOk(mem, tree, kernel, p3, I3(v));
      SplitEntryAt(mem, t, i, f, p3, I3(v));
      var e3 := Entry(mem, p3, I3(v));
      if Present(e3) {
        Descend(mem, tree, kernel, p3, I3(v));
        SplitEntryAt(mem, t, i, f, Addr(e3), I2(v));
      }
    }
  }

  lemma SplitInv(mem: Mem, tree: Tree, kernel: nat, t: nat, i: nat, f: nat)
    requires Inv(mem, tree, kernel) && t in tree && tree[t].lvl == 2 && i < ENTRIES
    requires f !in tree && f % 0x1000 == 0
    requires Present(Entry(mem, t, i)) && Huge(Entry(mem, t, i))
    ensures Inv(Split(mem, t, i, f), Grown(tree, t, i, f), kernel)
  {
    hide Present, Huge, Addr, HugeAddr, Attrs, WithPresent, WithoutHuge, SplitEntry, Entry;
    var mem', tree' := Split(mem, t, i, f), Grown(tree, t, i, f);
    var e := Entry(mem, t, i);
    assert NodeOk(mem, tree, kernel, t);
    HugeAttrs(e);
    PtrBits(f, WithoutHuge(Attrs(e)));
    SplitEntryAt(mem, t, i, f, kernel, 0);
    forall g | g in tree' ensures NodeOk(mem', tree', kernel, g) {
      if g == f {
        SplitEntryAt(mem, t, i, f, t, i);
      } else {
        assert NodeOk(mem, tree, kernel, g);
        SplitEntryAt(mem, t, i, f, g, 0);
        if tree[g].lvl < 4 {
          SplitEntryAt(mem, t, i, f, tree[g].parent, tree[g].slot);
        }
      }
    }
    forall g, j | g in tree' ensures EntryOk(mem', tree', kernel, g, j) {
      SplitEntryAt(mem, t, i, f, g, j);
      if g != f {
        assert EntryOk(mem, tree, kernel, g, j);
      }
    }
  }

  // ----- writing a leaf

  ghost predicate SamePage(v: nat, v': nat) {
    I4(v) == I4(v') && I3(v) == I3(v') && I2(v) == I2(v') && I1(v) == I1(v')
  }

  /** The page table a walk of v from root ends in. */
  ghost predicate ReachesPt(mem: Mem, root: nat, v: nat, pt: nat) {
    var e4 := Entry(mem, root, I4(v));
    var e3 := Entry(mem, Addr(e4), I3(v));
    var e2 := Entry(mem, Addr(e3), I2(v));
    IsPtr(4, e4) && Present(e3) && !Huge(e3) && IsPtr(2, e2) && Addr(e2) == pt
  }

  /** Two walks end in one page table only along the same slots, and from two different roots
      only through the shared slot 0. */
  lemma PtPathUnique(mem: Mem, tree: Tree, kernel: nat, r: nat, v: nat, r': nat, v': nat, pt: nat)
    requires Inv(mem, tree, kernel) && IsRoot(tree, r) && IsRoot(tree, r')
    requires ReachesPt(mem, r, v, pt) && ReachesPt(mem, r', v', pt)
    ensures I4(v) == I4(v') && I3(v) == I3(v') && I2(v) == I2(v')
    ensures r == r' || I4(v) == 0
    ensures pt in tree && tree[pt].lvl == 1
  {
    hide I4, I3, I2, I1, Addr, Huge, Present, Attrs, HugeAddr, WithPresent, WithoutHuge;
    PathDown(mem, tree, kernel, r, v, pt);
    PathDown(mem, tree, kernel, r', v', pt);
  }

  lemma PathDown(mem: Mem, tree: Tree, kernel: nat, r: nat, v: nat, pt: nat)
    requires Inv(mem, tree, kernel) && IsRoot(tree, r) && ReachesPt(mem, r, v, pt)
    ensures pt in tree && tree[pt].lvl == 1 && tree[pt].slot == I2(v)
    ensures tree[pt].parent in tree && tree[tree[pt].parent].lvl == 2 && tree[tree[pt].parent].slot == I3(v)
    ensures tree[tree[pt].parent].parent in tree
    ensures tree[tree[tree[pt].parent].parent].slot == I4(v)
    ensures tree[tree[tree[pt].parent].parent].parent == if I4(v) == 0 then kernel else r
  {
    hide I4, I3, I2, I1, Addr, Huge, Present, Attrs, HugeAddr, WithPresent, WithoutHuge;
    Descend(mem, tree, kernel, r, I4(v));
    var p3 := Addr(Entry(mem, r, I4(v)));
    Descend(mem, tree, kernel, p3, I3(v));
    Descend(mem, tree, kernel, Addr(Entry(mem, p3, I3(v))), I2(v));
  }

  lemma LeafEntryBits(phys: nat, flags: nat)
    requires flags < 0x1000
    ensures Present(LeafEntry(phys, flags))
    ensures Addr(LeafEntry(phys, flags)) == Addr(phys)
    ensures Attrs(LeafEntry(phys, flags)) == WithPresent(flags)
    ensures Writable(LeafEntry(phys, flags)) == Writable(flags) && UserMode(LeafEntry(phys, flags)) == UserMode(flags)
  {
    assert Addr(phys) % 0x1000 == 0;
    PtrBits(Addr(phys), WithPresent(flags));
    assert WithPresent(flags) / 2 == flags / 2 && WithPresent(flags) / 4 == flags / 4;
  }

  lemma SetEntryAt(mem: Mem, t: nat, i: nat, e: nat, t': nat, i': nat)
    requires t in mem && i < |mem[t]|
    ensures Entry(SetEntry(mem, t, i, e), t', i') == if t' == t && i' == i then e else Entry(mem, t', i')
  {
  }

  lemma LeafWalk(mem: Mem, tree: Tree, kernel: nat, root: nat, v: nat, pt: nat, phys: nat, flags: nat, r: nat, w: nat)
    requires Inv(mem, tree, kernel) && IsRoot(tree, root) && IsRoot(tree, r)
    requires ReachesPt(mem, root, v, pt) && flags < 0x1000
    ensures Walk(SetEntry(mem, pt, I1(v), LeafEntry(phys, flags)), r, w) ==
            if SamePage(v, w) && (r == root || I4(v) == 0)
            then Some(MappedLeaf(mem, root, v, phys, flags, w))
            else Walk(mem, r, w)
  {
    hide I4, I3, I2, I1, Addr, Huge, Present, Attrs, HugeAddr, WithPresent, WithoutHuge, Writable, UserMode;
    hide LeafEntry;
    var e := LeafEntry(phys, flags);
    var mem' := SetEntry(mem, pt, I1(v), e);
    PathDown(mem, tree, kernel, root, v, pt);
    assert NodeOk(mem, tree, kernel, pt) && NodeOk(mem, tree, kernel, root) && NodeOk(mem, tree, kernel, r);
    LeafEntryBits(phys, flags);
    SetEntryAt(mem, pt, I1(v), e, r, I4(w));
    var e4 := Entry(mem, r, I4(w));
    if Present(e4) {
      Descend(mem, tree, kernel, r, I4(w));
      var p3 := Addr(e4);
      assert EntryOk(mem, tree, kernel, p3, I3(w));
      SetEntryAt(mem, pt, I1(v), e, p3, I3(w));
      var e3 := Entry(mem, p3, I3(w));
      if Present(e3) {
        Descend(mem, tree, kernel, p3, I3(w));
        var p2 := Addr(e3);
        SetEntryAt(mem, pt, I1(v), e, p2, I2(w));
        var e2 := Entry(mem, p2, I2(w));
        if Present(e2) && !Huge(e2) {
          SetEntryAt(mem, pt, I1(v), e, Addr(e2), I1(w));
          if Addr(e2) == pt {
            PtPathUnique(mem, tree, kernel, root, v, r, w, pt);
          }
        }
      }
    }
  }

  lemma LeafInv(mem: Mem, tree: Tree, kernel: nat, pt: nat, i: nat, e: nat)
    requires Inv(mem, tree, kernel) && pt in tree && tree[pt].lvl == 1 && i < ENTRIES
    ensures Inv(SetEntry(mem, pt, i, e), tree, kernel)
  {
    var mem' := SetEntry(mem, pt, i, e);
    assert NodeOk(mem, tree, kernel, pt);
    SetEntryAt(mem, pt, i, e, kernel, 0);
    forall g | g in tree ensures NodeOk(mem', tree, kernel, g) {
      assert NodeOk(mem, tree, kernel, g);
      SetEntryAt(mem, pt, i, e, g, 0);
      if tree[g].lvl < 4 {
        SetEntryAt(mem, pt, i, e, tree[g].parent, tree[g].slot);
      }
    }
    forall g, j | g in tree ensures EntryOk(mem', tree, kernel, g, j) {
      assert EntryOk(mem, tree, kernel, g, j);
      SetEntryAt(mem, pt, i, e, g, j);
    }
  }
}
