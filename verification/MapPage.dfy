/** map_page over a whole machine: live tables of every address space, the allocator's bits and
    the frames the spaces have mapped in their own half. */
module MapPageProof {
  import opened Options
  import opened FrameBits
  import opened PageTables

  /** `tree` records the live tables; `claims` gives each frame mapped above the shared half the
      root of the space that mapped it. */
  datatype Sys = Sys(mem: Mem, bits: seq<bool>, tree: Tree, claims: map<nat, nat>)

  ghost predicate LeafOk(s: Sys, base: nat, kernel: nat, f: nat, i: nat)
    requires f in s.tree
  {
    var e := Entry(s.mem, f, i);
    s.tree[f].owner != kernel && Present(e) ==>
      && (s.tree[f].lvl == 2 ==> !Huge(e))
      && (s.tree[f].lvl == 1 && Tracked(s.bits, base, Addr(e)) ==>
            Addr(e) in s.claims && s.claims[Addr(e)] == s.tree[f].owner)
  }

  ghost predicate ClaimOk(s: Sys, base: nat, x: nat)
    requires x in s.claims
  {
    && x % PAGE_SIZE == 0 && Tracked(s.bits, base, x) && Taken(s.bits, base, x) && x !in s.tree
    && IsRoot(s.tree, s.claims[x])
  }

  ghost predicate SysInv(s: Sys, base: nat, kernel: nat) {
    && base % PAGE_SIZE == 0
    && Inv(s.mem, s.tree, kernel)
    && TablesTaken(s.tree, s.bits, base)
    && (forall f, i :: f in s.tree ==> LeafOk(s, base, kernel, f, i))
    && (forall x :: x in s.claims ==> ClaimOk(s, base, x))
  }

  ghost predicate EntriesKeptBut(s: Sys, s': Sys, t: nat, i: nat) {
    forall f, j :: f in s.tree && !(f == t && j == i) ==> Entry(s'.mem, f, j) == Entry(s.mem, f, j)
  }

  /** Only frame f's bit moved, and f was free, tracked and aligned. */
  ghost predicate TookFrame(bits: seq<bool>, bits': seq<bool>, base: nat, f: nat) {
    && f % PAGE_SIZE == 0 && Tracked(bits, base, f) && !Taken(bits, base, f) && Taken(bits', base, f)
    && |bits'| == |bits| && FreeCount(bits') == FreeCount(bits) - 1
    && (forall x: nat :: x % PAGE_SIZE == 0 && x != f ==> (Taken(bits', base, x) <==> Taken(bits, base, x)))
  }

  lemma AllocTakes(bits: seq<bool>, base: nat)
    requires base % PAGE_SIZE == 0 && FreeCount(bits) > 0
    ensures TookFrame(bits, AllocSpec(bits, base).0, base, AllocSpec(bits, base).1)
  {
    AllocFresh(bits, base, 0);
    forall x: nat | x % PAGE_SIZE == 0 && x != AllocSpec(bits, base).1
      ensures Taken(AllocSpec(bits, base).0, base, x) <==> Taken(bits, base, x)
    {
      AllocFresh(bits, base, x);
    }
  }

  /** A taken frame is neither a live table nor claimed afterwards if it was free before. */
  lemma FreshIsUnused(s: Sys, base: nat, kernel: nat, f: nat)
    requires SysInv(s, base, kernel) && f % PAGE_SIZE == 0 && !Taken(s.bits, base, f)
    ensures f !in s.tree && f !in s.claims
  {
    assert f in s.claims ==> ClaimOk(s, base, f);
  }

  /** s' is s with one more live table f hung under (t, i). */
  ghost predicate GrewBy(s: Sys, s': Sys, base: nat, t: nat, i: nat, f: nat) {
    && t in s.tree && s.tree[t].lvl >= 2
    && f !in s.tree && f !in s.claims && TookFrame(s.bits, s'.bits, base, f)
    && s'.tree == Grown(s.tree, t, i, f) && s'.claims == s.claims
    && EntriesKeptBut(s, s', t, i)
  }

  lemma GrewInv(s: Sys, s': Sys, base: nat, kernel: nat, t: nat, i: nat, f: nat)
    requires SysInv(s, base, kernel) && GrewBy(s, s', base, t, i, f)
    requires Inv(s'.mem, s'.tree, kernel)
    requires forall j :: LeafOk(s', base, kernel, f, j)
    requires LeafOk(s', base, kernel, t, i)
    ensures SysInv(s', base, kernel) && Extends(s.tree, s'.tree)
  {
    hide LeafOk, ClaimOk, Inv, EntriesKeptBut, TookFrame, Taken;
    forall g | g in s'.tree ensures Taken(s'.bits, base, g) {
      GrewTaken(s, s', base, kernel, t, i, f, g);
    }
    forall g, j | g in s'.tree ensures LeafOk(s', base, kernel, g, j) {
      if g != f && !(g == t && j == i) {
        GrewLeaf(s, s', base, kernel, t, i, f, g, j);
      }
    }
    forall x: nat | x in s'.claims ensures ClaimOk(s', base, x) {
      GrewClaim(s, s', base, kernel, t, i, f, x);
    }
    GrewExtends(s, s', base, kernel, t, i, f);
  }

  lemma GrewExtends(s: Sys, s': Sys, base: nat, kernel: nat, t: nat, i: nat, f: nat)
    requires SysInv(s, base, kernel) && GrewBy(s, s', base, t, i, f)
    ensures Extends(s.tree, s'.tree)
  {
    hide LeafOk, ClaimOk, EntriesKeptBut, TookFrame, EntryOk;
    assert NodeOk(s.mem, s.tree, kernel, t);
  }

  lemma GrewTaken(s: Sys, s': Sys, base: nat, kernel: nat, t: nat, i: nat, f: nat, g: nat)
    requires SysInv(s, base, kernel) && GrewBy(s, s', base, t, i, f) && g in s'.tree
    ensures Taken(s'.bits, base, g)
  {
    hide LeafOk, ClaimOk, EntriesKeptBut, Taken, Tracked, EntryOk;
    if g != f {
      assert NodeOk(s.mem, s.tree, kernel, g);
    }
  }

  lemma GrewClaim(s: Sys, s': Sys, base: nat, kernel: nat, t: nat, i: nat, f: nat, x: nat)
    requires SysInv(s, base, kernel) && GrewBy(s, s', base, t, i, f) && x in s.claims
    ensures x in s'.claims && ClaimOk(s', base, x)
  {
    hide LeafOk, EntriesKeptBut, Inv, Taken;
    assert ClaimOk(s, base, x);
  }

  lemma GrewLeaf(s: Sys, s': Sys, base: nat, kernel: nat, t: nat, i: nat, f: nat, g: nat, j: nat)
    requires SysInv(s, base, kernel) && GrewBy(s, s', base, t, i, f)
    requires g in s.tree && !(g == t && j == i)
    ensures g in s'.tree && LeafOk(s', base, kernel, g, j)
  {
    hide Present, Huge, Addr, Taken, Inv;
    assert LeafOk(s, base, kernel, g, j);
  }

  lemma TableAttrs(flags: nat)
    ensures var a := PAGE_PRESENT + PAGE_WRITE + UserBit(flags);
      a < 0x1000 && Present(a) && !Huge(a) && Writable(a) && (UserMode(a) <==> UserMode(flags))
  {
  }

  lemma LinkGrows(s: Sys, s': Sys, base: nat, kernel: nat, t: nat, i: nat, f: nat, attrs: nat)
    requires SysInv(s, base, kernel) && t in s.tree && s.tree[t].lvl >= 2 && i < ENTRIES
    requires !Present(Entry(s.mem, t, i)) && f !in s.tree && f !in s.claims
    requires attrs < 0x1000 && Present(attrs) && !Huge(attrs) && TookFrame(s.bits, s'.bits, base, f)
    requires s' == Sys(Link(s.mem, t, i, f, attrs), s'.bits, Grown(s.tree, t, i, f), s.claims)
    ensures GrewBy(s, s', base, t, i, f)
    ensures Entry(s'.mem, t, i) == f + attrs
    ensures forall j :: Entry(s'.mem, f, j) == 0
  {
    hide Taken, Tracked, Attrs, Addr, Present, Huge, Link;
    assert NodeOk(s.mem, s.tree, kernel, t);
    forall g, j | g in s.tree && !(g == t && j == i) ensures Entry(s'.mem, g, j) == Entry(s.mem, g, j) {
      LinkEntry(s.mem, t, i, f, attrs, g, j);
    }
    LinkEntry(s.mem, t, i, f, attrs, t, i);
    forall j ensures Entry(s'.mem, f, j) == 0 {
      LinkEntryNew(s.mem, t, i, f, attrs, j);
    }
  }

  lemma NewLeaves(s: Sys, base: nat, kernel: nat, t: nat, i: nat, f: nat)
    requires f in s.tree && t in s.tree && s.tree[t].lvl >= 2 && !Huge(Entry(s.mem, t, i))
    requires forall j :: Entry(s.mem, f, j) == 0
    ensures LeafOk(s, base, kernel, t, i) && forall j :: LeafOk(s, base, kernel, f, j)
  {
    hide Addr, Huge, Tracked, Entry;
  }

  lemma LinkStage(s: Sys, base: nat, kernel: nat, t: nat, i: nat, flags: nat) returns (s': Sys, f: nat)
    requires SysInv(s, base, kernel) && t in s.tree && s.tree[t].lvl >= 2 && i < ENTRIES
    requires !Present(Entry(s.mem, t, i)) && FreeCount(s.bits) > 0
    ensures Space(s'.mem, s'.bits) == EnsureTable(Space(s.mem, s.bits), base, t, i, flags)
    ensures SysInv(s', base, kernel) && GrewBy(s, s', base, t, i, f) && Extends(s.tree, s'.tree)
    ensures SameWalks(s.tree, s.mem, s'.mem) && SameWays(s.tree, s.mem, s'.mem, flags)
    ensures IsPtr(s.tree[t].lvl, Entry(s'.mem, t, i)) && !Huge(Entry(s'.mem, t, i)) && Addr(Entry(s'.mem, t, i)) == f
    ensures forall j :: Entry(s'.mem, f, j) == 0
  {
    hide Taken, Tracked, Walk, Attrs, Addr, Present, Huge, UserBit, Link, Entry, EntryOk, ClaimOk, TablesTaken, LeafOk,
         WayWritable, WayUser, Writable, UserMode;
    var attrs := PAGE_PRESENT + PAGE_WRITE + UserBit(flags);
    TableAttrs(flags);
    AllocTakes(s.bits, base);
    var (bits, fr) := AllocSpec(s.bits, base);
    f := fr;
    FreshIsUnused(s, base, kernel, f);
    s' := Sys(Link(s.mem, t, i, f, attrs), bits, Grown(s.tree, t, i, f), s.claims);
    LinkGrows(s, s', base, kernel, t, i, f, attrs);
    assert NodeOk(s.mem, s.tree, kernel, t);
    LinkInv(s.mem, s.tree, kernel, t, i, f, attrs);
    PtrBits(f, attrs);
    NewLeaves(s', base, kernel, t, i, f);
    GrewInv(s, s', base, kernel, t, i, f);
    forall r, v | IsRoot(s.tree, r) ensures Walk(s'.mem, r, v) == Walk(s.mem, r, v) {
      LinkWalk(s.mem, s.tree, kernel, t, i, f, attrs, r, v);
    }
    forall r, v | IsRoot(s.tree, r)
      ensures WayWritable(s'.mem, r, v) == WayWritable(s.mem, r, v) && (UserMode(flags) ==> WayUser(s'.mem, r, v) == WayUser(s.mem, r, v))
    {
      LinkWay(s.mem, s.tree, kernel, t, i, f, attrs, r, v);
    }
  }

  lemma SplitStage(s: Sys, base: nat, kernel: nat, t: nat, i: nat, flags: nat) returns (s': Sys, f: nat)
    requires SysInv(s, base, kernel) && t in s.tree && s.tree[t].lvl == 2 && i < ENTRIES
    requires Present(Entry(s.mem, t, i)) && Huge(Entry(s.mem, t, i)) && FreeCount(s.bits) > 0
    ensures Space(s'.mem, s'.bits) == EnsurePt(Space(s.mem, s.bits), base, t, i, flags)
    ensures SysInv(s', base, kernel) && GrewBy(s, s', base, t, i, f) && Extends(s.tree, s'.tree)
    ensures SameWalks(s.tree, s.mem, s'.mem) && SameWays(s.tree, s.mem, s'.mem, flags)
    ensures IsPtr(2, Entry(s'.mem, t, i)) && Addr(Entry(s'.mem, t, i)) == f
    ensures s.tree[t].owner == kernel
  {
    hide Taken, Tracked, Walk, Attrs, Addr, Present, Huge, UserBit, Split, Entry, EntryOk, ClaimOk, TablesTaken,
         WayWritable, WayUser, Writable, UserMode;
    AllocTakes(s.bits, base);
    var (bits, fr) := AllocSpec(s.bits, base);
    f := fr;
    FreshIsUnused(s, base, kernel, f);
    s' := Sys(Split(s.mem, t, i, f), bits, Grown(s.tree, t, i, f), s.claims);
    assert NodeOk(s.mem, s.tree, kernel, t);
    assert LeafOk(s, base, kernel, t, i);
    SplitInv(s.mem, s.tree, kernel, t, i, f);
    forall g, j | g in s.tree && !(g == t && j == i) ensures Entry(s'.mem, g, j) == Entry(s.mem, g, j) {
      SplitEntryAt(s.mem, t, i, f, g, j);
    }
    SplitEntryAt(s.mem, t, i, f, t, i);
    HugeAttrs(Entry(s.mem, t, i));
    PtrBits(f, WithoutHuge(Attrs(Entry(s.mem, t, i))));
    GrewInv(s, s', base, kernel, t, i, f);
    forall r, v | IsRoot(s.tree, r) ensures Walk(s'.mem, r, v) == Walk(s.mem, r, v) {
      SplitWalk(s.mem, s.tree, kernel, t, i, f, r, v);
    }
    forall r, v | IsRoot(s.tree, r)
      ensures WayWritable(s'.mem, r, v) == WayWritable(s.mem, r, v) && WayUser(s'.mem, r, v) == WayUser(s.mem, r, v)
    {
      SplitWay(s.mem, s.tree, kernel, t, i, f, r, v);
    }
  }

  /** One level of map_page: afterwards the slot holds a table pointer, every translation is as
      it was, and at most one frame was taken, as a table of the same space. */
  lemma EnsureStage(s: Sys, base: nat, kernel: nat, t: nat, i: nat, flags: nat) returns (s': Sys)
    requires SysInv(s, base, kernel) && t in s.tree && s.tree[t].lvl >= 2 && i < ENTRIES
    requires !IsPtr(s.tree[t].lvl, Entry(s.mem, t, i)) ==> FreeCount(s.bits) > 0
    ensures Space(s'.mem, s'.bits) ==
            if s.tree[t].lvl == 2 then EnsurePt(Space(s.mem, s.bits), base, t, i, flags)
            else EnsureTable(Space(s.mem, s.bits), base, t, i, flags)
    ensures SysInv(s', base, kernel) && Extends(s.tree, s'.tree)
    ensures SameWalks(s.tree, s.mem, s'.mem) && SameWays(s.tree, s.mem, s'.mem, flags)
    ensures IsPtr(s.tree[t].lvl, Entry(s'.mem, t, i))
    ensures if IsPtr(s.tree[t].lvl, Entry(s.mem, t, i)) then s' == s
            else GrewBy(s, s', base, t, i, Addr(Entry(s'.mem, t, i)))
    ensures !Present(Entry(s.mem, t, i)) ==> forall j :: Entry(s'.mem, Addr(Entry(s'.mem, t, i)), j) == 0
  {
    var e := Entry(s.mem, t, i);
    assert EntryOk(s.mem, s.tree, kernel, t, i);
    assert NodeOk(s.mem, s.tree, kernel, t);
    var f;
    if !Present(e) {
      s', f := LinkStage(s, base, kernel, t, i, flags);
    } else if s.tree[t].lvl == 2 && Huge(e) {
      s', f := SplitStage(s, base, kernel, t, i, flags);
    } else {
      s' := s;
    }
  }

  /** The first three levels of map_page, one state per level. */
  ghost predicate Stages(s: Sys, s1: Sys, s2: Sys, s3: Sys, base: nat, kernel: nat, root: nat, v: nat, flags: nat) {
    && Space(s1.mem, s1.bits) == EnsureTable(Space(s.mem, s.bits), base, root, I4(v), flags)
    && IsPtr(4, Entry(s1.mem, root, I4(v)))
    && var pdpt := Addr(Entry(s1.mem, root, I4(v)));
    && pdpt in s1.tree && s1.tree[pdpt].lvl == 3
    && Space(s2.mem, s2.bits) == EnsureTable(Space(s1.mem, s1.bits), base, pdpt, I3(v), flags)
    && IsPtr(3, Entry(s2.mem, pdpt, I3(v))) && Entry(s2.mem, root, I4(v)) == Entry(s1.mem, root, I4(v))
    && var pd := Addr(Entry(s2.mem, pdpt, I3(v)));
    && pd in s2.tree && s2.tree[pd].lvl == 2
    && Space(s3.mem, s3.bits) == EnsurePt(Space(s2.mem, s2.bits), base, pd, I2(v), flags)
    && IsPtr(2, Entry(s3.mem, pd, I2(v))) && Entry(s3.mem, pdpt, I3(v)) == Entry(s2.mem, pdpt, I3(v))
    && Entry(s3.mem, root, I4(v)) == Entry(s1.mem, root, I4(v))
    && (if IsPtr(4, Entry(s.mem, root, I4(v))) then s1 == s else GrewBy(s, s1, base, root, I4(v), pdpt))
    && (s2 != s1 ==> GrewBy(s1, s2, base, pdpt, I3(v), pd))
    && (s3 != s2 ==> GrewBy(s2, s3, base, pd, I2(v), Addr(Entry(s3.mem, pd, I2(v)))))
    && SysInv(s1, base, kernel) && SysInv(s2, base, kernel) && SysInv(s3, base, kernel)
    && Extends(s.tree, s1.tree) && Extends(s1.tree, s2.tree) && Extends(s2.tree, s3.tree)
  }

  /** The first three levels together: the page table for v exists and nothing translates
      differently. */
  lemma DescendStages(s: Sys, base: nat, kernel: nat, root: nat, v: nat, flags: nat) returns (s1: Sys, s2: Sys, s3: Sys)
    requires SysInv(s, base, kernel) && IsRoot(s.tree, root) && FreeCount(s.bits) >= Missing(s.mem, root, v)
    ensures Stages(s, s1, s2, s3, base, kernel, root, v, flags)
    ensures SameWalks(s.tree, s.mem, s3.mem) && SameWays(s.tree, s.mem, s3.mem, flags)
    ensures FreeCount(s3.bits) == FreeCount(s.bits) - Missing(s.mem, root, v)
  {
    hide I4, I3, I2, I1, Addr, Present, Huge, Attrs, EnsureTable, EnsurePt, Taken, Tracked, LeafOk, ClaimOk, NodeOk, TablesTaken, Walk,
         WayWritable, WayUser, Writable, UserMode;
    s1 := EnsureStage(s, base, kernel, root, I4(v), flags);
    Descend(s1.mem, s1.tree, kernel, root, I4(v));
    var pdpt := Addr(Entry(s1.mem, root, I4(v)));
    assert EntryOk(s1.mem, s1.tree, kernel, pdpt, I3(v));
    PtrBits(0, 0);
    s2 := EnsureStage(s1, base, kernel, pdpt, I3(v), flags);
    Descend(s2.mem, s2.tree, kernel, pdpt, I3(v));
    var pd := Addr(Entry(s2.mem, pdpt, I3(v)));
    assert FreeCount(s2.bits) == FreeCount(s.bits)
        - (if !Present(Entry(s.mem, root, I4(v))) then 2 else if !Present(Entry(s1.mem, pdpt, I3(v))) then 1 else 0);
    assert !Present(Entry(s1.mem, pdpt, I3(v))) ==> Entry(s2.mem, pd, I2(v)) == 0;
    s3 := EnsureStage(s2, base, kernel, pd, I2(v), flags);
    forall r: nat, w: nat | IsRoot(s.tree, r) ensures Walk(s3.mem, r, w) == Walk(s.mem, r, w) {
      assert Walk(s1.mem, r, w) == Walk(s.mem, r, w);
      assert Walk(s2.mem, r, w) == Walk(s1.mem, r, w);
    }
    WaysJoin(s, s1, s2, s3, flags);
  }

  lemma WaysJoin(s: Sys, s1: Sys, s2: Sys, s3: Sys, flags: nat)
    requires SameWays(s.tree, s.mem, s1.mem, flags) && SameWays(s1.tree, s1.mem, s2.mem, flags) && SameWays(s2.tree, s2.mem, s3.mem, flags)
    requires Extends(s.tree, s1.tree) && Extends(s1.tree, s2.tree)
    ensures SameWays(s.tree, s.mem, s3.mem, flags)
  {
    hide WayWritable, WayUser, UserMode;
    forall r: nat, w: nat | IsRoot(s.tree, r)
      ensures WayWritable(s3.mem, r, w) == WayWritable(s.mem, r, w) && (UserMode(flags) ==> WayUser(s3.mem, r, w) == WayUser(s.mem, r, w))
    {
      assert WayWritable(s1.mem, r, w) == WayWritable(s.mem, r, w);
      assert WayWritable(s2.mem, r, w) == WayWritable(s1.mem, r, w);
    }
  }

  // ----- the leaf

  /** Leaf frames belong to the space that maps them: above the shared half only a frame the
      bitmap does not track, or one that is allocated, is no live table and is not mapped by
      another space, may be mapped. */
  ghost predicate MayMap(s: Sys, base: nat, kernel: nat, root: nat, v: nat, phys: nat) {
    var x := Addr(phys);
    root == kernel || I4(v) == 0 || !Tracked(s.bits, base, x) ||
    (Taken(s.bits, base, x) && x !in s.tree && (x in s.claims ==> s.claims[x] == root))
  }

  lemma MayMapKept(s: Sys, s': Sys, base: nat, kernel: nat, root: nat, v: nat, phys: nat, t: nat, i: nat, f: nat)
    requires MayMap(s, base, kernel, root, v, phys)
    requires s' == s || GrewBy(s, s', base, t, i, f)
    ensures MayMap(s', base, kernel, root, v, phys)
  {
    hide I4;
    assert Addr(phys) % PAGE_SIZE == 0;
  }

  ghost function LeafClaims(s: Sys, base: nat, kernel: nat, root: nat, v: nat, phys: nat): map<nat, nat> {
    if root != kernel && I4(v) != 0 && Tracked(s.bits, base, Addr(phys)) then s.claims[Addr(phys) := root] else s.claims
  }

  lemma PtOwner(s: Sys, base: nat, kernel: nat, root: nat, v: nat, pt: nat)
    requires SysInv(s, base, kernel) && IsRoot(s.tree, root) && ReachesPt(s.mem, root, v, pt)
    ensures pt in s.tree && s.tree[pt].lvl == 1
    ensures s.tree[pt].owner == if I4(v) == 0 then kernel else root
  {
    hide I4, I3, I2, I1, Addr, Present, Huge, LeafOk, ClaimOk;
    PathDown(s.mem, s.tree, kernel, root, v, pt);
    var pd := s.tree[pt].parent;
    var pdpt := s.tree[pd].parent;
    assert NodeOk(s.mem, s.tree, kernel, pt) && NodeOk(s.mem, s.tree, kernel, pd) && NodeOk(s.mem, s.tree, kernel, pdpt);
    assert NodeOk(s.mem, s.tree, kernel, root) && NodeOk(s.mem, s.tree, kernel, kernel);
  }

  lemma LeafStage(s: Sys, base: nat, kernel: nat, root: nat, v: nat, pt: nat, phys: nat, flags: nat) returns (s': Sys)
    requires SysInv(s, base, kernel) && IsRoot(s.tree, root) && ReachesPt(s.mem, root, v, pt) && flags < 0x1000
    requires MayMap(s, base, kernel, root, v, phys)
    ensures s' == Sys(SetEntry(s.mem, pt, I1(v), LeafEntry(phys, flags)), s.bits, s.tree,
                      LeafClaims(s, base, kernel, root, v, phys))
    ensures SysInv(s', base, kernel)
  {
    hide I4, I3, I2, I1, Addr, Present, Huge, LeafEntry, Attrs, Taken, Tracked;
    var e := LeafEntry(phys, flags);
    s' := Sys(SetEntry(s.mem, pt, I1(v), e), s.bits, s.tree, LeafClaims(s, base, kernel, root, v, phys));
    PtOwner(s, base, kernel, root, v, pt);
    LeafInv(s.mem, s.tree, kernel, pt, I1(v), e);
    LeafEntryBits(phys, flags);
    assert NodeOk(s.mem, s.tree, kernel, pt);
    AddrAligned(phys);
    forall f, i | f in s'.tree ensures LeafOk(s', base, kernel, f, i) {
      SetEntryAt(s.mem, pt, I1(v), e, f, i);
      assert LeafOk(s, base, kernel, f, i);
    }
    forall x: nat | x in s'.claims ensures ClaimOk(s', base, x) {
      assert x in s.claims ==> ClaimOk(s, base, x);
    }
  }

  lemma AddrAligned(e: nat)
    ensures Addr(e) % PAGE_SIZE == 0
  {
  }

  /** What map_page means for every live address space at once: the page of v translates to phys
      with the given attributes in the space it was mapped through -- in every space if v lies in
      the shared half -- and every other address translates exactly as before, including the
      other pages of a huge page that had to be split. */
  ghost predicate MappedExactly(s: Sys, s': Sys, root: nat, v: nat, phys: nat, flags: nat) {
    forall r: nat, w: nat :: IsRoot(s.tree, r) ==>
      Walk(s'.mem, r, w) ==
        if SamePage(v, w) && (r == root || I4(v) == 0)
        then Some(MappedLeaf(s.mem, root, v, phys, flags, w))
        else Walk(s.mem, r, w)
  }

  /** Who pays for a mapping: exactly the new tables took frames, all of them free before, all
      for the space that owns the half v lies in. */
  ghost predicate TablesPaidBy(s: Sys, s': Sys, base: nat, owner: nat) {
    && |s'.bits| == |s.bits|
    && (forall x: nat :: x % PAGE_SIZE == 0 ==>
          (Taken(s'.bits, base, x) <==> Taken(s.bits, base, x) || (x in s'.tree && x !in s.tree)))
    && (forall x: nat :: x in s'.tree && x !in s.tree ==>
          s'.tree[x].owner == owner && Tracked(s.bits, base, x) && !Taken(s.bits, base, x))
  }

  lemma PaidOneMore(s: Sys, s1: Sys, s2: Sys, base: nat, t: nat, i: nat, f: nat, owner: nat)
    requires Extends(s.tree, s1.tree) && TablesPaidBy(s, s1, base, owner)
    requires s2 != s1 ==> GrewBy(s1, s2, base, t, i, f) && s1.tree[t].owner == owner
    ensures TablesPaidBy(s, s2, base, owner)
  {
    hide Taken;
    if s2 != s1 {
      assert Tracked(s.bits, base, f);
      forall x: nat | x % PAGE_SIZE == 0
        ensures Taken(s2.bits, base, x) <==> Taken(s.bits, base, x) || (x in s2.tree && x !in s.tree)
      {
      }
    }
  }

  lemma StagesPaid(s: Sys, s1: Sys, s2: Sys, s3: Sys, base: nat, kernel: nat, root: nat, v: nat, flags: nat)
    requires SysInv(s, base, kernel) && IsRoot(s.tree, root)
    requires Stages(s, s1, s2, s3, base, kernel, root, v, flags)
    ensures TablesPaidBy(s, s3, base, if I4(v) == 0 then kernel else root)
    ensures s3.claims == s.claims && Extends(s.tree, s3.tree)
  {
    hide I4, I3, I2, I1, Addr, Present, Huge, EnsureTable, EnsurePt, Taken, Tracked, LeafOk, ClaimOk, Inv, SysInv, TablesPaidBy, TookFrame;
    var owner := if I4(v) == 0 then kernel else root;
    var pdpt := Addr(Entry(s1.mem, root, I4(v)));
    var pd := Addr(Entry(s2.mem, pdpt, I3(v)));
    TopOwners(s, base, kernel, root);
    assert I4(v) == 0 ==> s1 == s;
    PaidNothing(s, base, owner);
    PaidOneMore(s, s, s1, base, root, I4(v), pdpt, owner);
    ChildOwner(s1, base, kernel, root, I4(v));
    ChildOwner(s2, base, kernel, pdpt, I3(v));
    TopOwners(s1, base, kernel, root);
    PaidOneMore(s, s1, s2, base, pdpt, I3(v), pd, owner);
    PaidOneMore(s, s2, s3, base, pd, I2(v), Addr(Entry(s3.mem, pd, I2(v))), owner);
  }

  lemma PaidNothing(s: Sys, base: nat, owner: nat)
    ensures TablesPaidBy(s, s, base, owner)
  {
  }

  lemma TopOwners(s: Sys, base: nat, kernel: nat, root: nat)
    requires SysInv(s, base, kernel) && IsRoot(s.tree, root)
    ensures kernel in s.tree && s.tree[root].owner == root && s.tree[kernel].owner == kernel
    ensures IsPtr(4, Entry(s.mem, root, 0))
  {
    assert NodeOk(s.mem, s.tree, kernel, root) && NodeOk(s.mem, s.tree, kernel, kernel);
  }

  lemma ChildOwner(s: Sys, base: nat, kernel: nat, f: nat, i: nat)
    requires SysInv(s, base, kernel) && f in s.tree && IsPtr(s.tree[f].lvl, Entry(s.mem, f, i))
    ensures Addr(Entry(s.mem, f, i)) in s.tree
    ensures s.tree[Addr(Entry(s.mem, f, i))].owner == if s.tree[f].lvl == 4 && i == 0 then kernel else s.tree[f].owner
  {
    hide Addr, Present, Huge;
    Descend(s.mem, s.tree, kernel, f, i);
    assert NodeOk(s.mem, s.tree, kernel, Addr(Entry(s.mem, f, i)));
    assert NodeOk(s.mem, s.tree, kernel, kernel);
  }

  /** Mapping an unmapped page overwrites no leaf, and the new leaf sits in a page table of the
      space that owns v's half. */
  ghost predicate LeafAdded(s: Sys, s': Sys, owner: nat, root: nat, v: nat, e: nat) {
    && (exists pt :: pt in s'.tree && s'.tree[pt].lvl == 1 && s'.tree[pt].owner == owner && Entry(s'.mem, pt, I1(v)) == e)
    && (Walk(s.mem, root, v) == None ==>
          forall f, i :: f in s.tree && s.tree[f].lvl == 1 && Present(Entry(s.mem, f, i)) ==>
            Entry(s'.mem, f, i) == Entry(s.mem, f, i))
  }

  lemma LeafIsAdded(s: Sys, s1: Sys, s2: Sys, s3: Sys, s': Sys, base: nat, kernel: nat, root: nat, v: nat, pt: nat, e: nat, flags: nat)
    requires SysInv(s, base, kernel) && IsRoot(s.tree, root) && SameWalks(s.tree, s.mem, s3.mem)
    requires Stages(s, s1, s2, s3, base, kernel, root, v, flags) && ReachesPt(s3.mem, root, v, pt)
    requires s'.mem == SetEntry(s3.mem, pt, I1(v), e) && s'.tree == s3.tree
    ensures LeafAdded(s, s', if I4(v) == 0 then kernel else root, root, v, e)
  {
    hide I4, I3, I2, I1, Addr, Huge, EnsureTable, EnsurePt, Taken, Tracked, LeafOk, ClaimOk, TookFrame, Present;
    PtOwner(s3, base, kernel, root, v, pt);
    assert NodeOk(s3.mem, s3.tree, kernel, pt);
    SetEntryAt(s3.mem, pt, I1(v), e, pt, I1(v));
    if Walk(s.mem, root, v) == None {
      assert Walk(s3.mem, root, v) == None;
      assert !Present(Entry(s3.mem, pt, I1(v)));
      forall f, i | f in s.tree && s.tree[f].lvl == 1 && Present(Entry(s.mem, f, i))
        ensures Entry(s'.mem, f, i) == Entry(s.mem, f, i)
      {
        assert Entry(s3.mem, f, i) == Entry(s.mem, f, i) by {
          assert Entry(s1.mem, f, i) == Entry(s.mem, f, i);
          assert Entry(s2.mem, f, i) == Entry(s1.mem, f, i);
        }
        SetEntryAt(s3.mem, pt, I1(v), e, f, i);
      }
    }
  }

  lemma MapPage(s: Sys, base: nat, kernel: nat, root: nat, v: nat, phys: nat, flags: nat) returns (s': Sys)
    requires SysInv(s, base, kernel) && IsRoot(s.tree, root) && flags < 0x1000
    requires FreeCount(s.bits) >= Missing(s.mem, root, v)
    requires MayMap(s, base, kernel, root, v, phys)
    ensures Space(s'.mem, s'.bits) == MapPageSpec(Space(s.mem, s.bits), base, root, v, phys, flags)
    ensures SysInv(s', base, kernel) && Extends(s.tree, s'.tree)
    ensures MappedExactly(s, s', root, v, phys, flags)
    ensures FreeCount(s'.bits) == FreeCount(s.bits) - Missing(s.mem, root, v)
    ensures TablesPaidBy(s, s', base, if I4(v) == 0 then kernel else root)
    ensures s'.claims == LeafClaims(s, base, kernel, root, v, phys)
    ensures LeafAdded(s, s', if I4(v) == 0 then kernel else root, root, v, LeafEntry(phys, flags))
  {
    hide I4, I3, I2, I1, Addr, Present, Huge, Attrs, EnsureTable, EnsurePt, Taken, Tracked, LeafEntry,
         MayMap, LeafClaims, Inv, SysInv, Walk, Missing, TookFrame, TablesPaidBy, LeafAdded, MappedExactly, EntriesKeptBut;
    var s1, s2, s3 := DescendStages(s, base, kernel, root, v, flags);
    var pdpt := Addr(Entry(s1.mem, root, I4(v)));
    var pd := Addr(Entry(s2.mem, pdpt, I3(v)));
    var pt := Addr(Entry(s3.mem, pd, I2(v)));
    NoGiant(s3, base, kernel, pdpt, I3(v));
    assert ReachesPt(s3.mem, root, v, pt);
    MayMapKept(s, s1, base, kernel, root, v, phys, root, I4(v), pdpt);
    MayMapKept(s1, s2, base, kernel, root, v, phys, pdpt, I3(v), pd);
    MayMapKept(s2, s3, base, kernel, root, v, phys, pd, I2(v), pt);
    s' := LeafStage(s3, base, kernel, root, v, pt, phys, flags);
    StagesPaid(s, s1, s2, s3, base, kernel, root, v, flags);
    SamePaid(s, s3, s', base, if I4(v) == 0 then kernel else root);
    SameTracked(s, s3, base, kernel, root, v, phys);
    LeafIsAdded(s, s1, s2, s3, s', base, kernel, root, v, pt, LeafEntry(phys, flags), flags);
    LeafMapsExactly(s, s3, s', base, kernel, root, v, pt, phys, flags);
  }

  lemma LeafMapsExactly(s: Sys, s3: Sys, s': Sys, base: nat, kernel: nat, root: nat, v: nat, pt: nat, phys: nat, flags: nat)
    requires SysInv(s3, base, kernel) && IsRoot(s.tree, root) && Extends(s.tree, s3.tree) && flags < 0x1000
    requires ReachesPt(s3.mem, root, v, pt) && SameWalks(s.tree, s.mem, s3.mem) && SameWays(s.tree, s.mem, s3.mem, flags)
    requires s'.mem == SetEntry(s3.mem, pt, I1(v), LeafEntry(phys, flags))
    ensures MappedExactly(s, s', root, v, phys, flags)
  {
    hide I4, I3, I2, I1, Addr, Present, Huge, LeafEntry, Inv, SysInv, Walk, ReachesPt, SetEntry, WayWritable, WayUser, Writable, UserMode;
    InvOf(s3, base, kernel);
    assert WayWritable(s3.mem, root, v) == WayWritable(s.mem, root, v);
    forall r: nat, w: nat | IsRoot(s.tree, r)
      ensures Walk(s'.mem, r, w) ==
        if SamePage(v, w) && (r == root || I4(v) == 0)
        then Some(MappedLeaf(s.mem, root, v, phys, flags, w))
        else Walk(s.mem, r, w)
    {
      LeafWalk(s3.mem, s3.tree, kernel, root, v, pt, phys, flags, r, w);
      assert Walk(s3.mem, r, w) == Walk(s.mem, r, w);
    }
  }

  lemma SamePaid(s: Sys, s3: Sys, s': Sys, base: nat, owner: nat)
    requires TablesPaidBy(s, s3, base, owner) && s'.bits == s3.bits && s'.tree == s3.tree
    ensures TablesPaidBy(s, s', base, owner)
  {
    hide Taken, Tracked;
  }

  lemma SameTracked(s: Sys, s3: Sys, base: nat, kernel: nat, root: nat, v: nat, phys: nat)
    requires s3.claims == s.claims && |s3.bits| == |s.bits|
    ensures LeafClaims(s3, base, kernel, root, v, phys) == LeafClaims(s, base, kernel, root, v, phys)
  {
  }

  lemma InvOf(s: Sys, base: nat, kernel: nat)
    requires SysInv(s, base, kernel)
    ensures Inv(s.mem, s.tree, kernel)
  {
  }

  lemma NoGiant(s: Sys, base: nat, kernel: nat, f: nat, i: nat)
    requires SysInv(s, base, kernel) && f in s.tree && s.tree[f].lvl == 3 && Present(Entry(s.mem, f, i))
    ensures !Huge(Entry(s.mem, f, i))
  {
    assert EntryOk(s.mem, s.tree, kernel, f, i);
  }

  // ----- without frames

  /** With no frame left every missing table becomes frame 0, cleared each time it is taken: in a space
      that has no table on the way, the page asked for is not mapped, and frame 0 holds its leaf. */
  lemma OutOfFrames(s: Space, base: nat, root: nat, v: nat, phys: nat, flags: nat)
    requires FreeCount(s.bits) == 0 && flags < 0x1000
    requires root in s.mem && |s.mem[root]| == ENTRIES && root != 0 && !Present(Entry(s.mem, root, I4(v)))
    requires I3(v) != I2(v) && I3(v) != I1(v)
    ensures Walk(MapPageSpec(s, base, root, v, phys, flags).mem, root, v) == None
    ensures Entry(MapPageSpec(s, base, root, v, phys, flags).mem, 0, I1(v)) == LeafEntry(phys, flags)
    ensures MapPageSpec(s, base, root, v, phys, flags).bits == s.bits
  {
    hide I4, I3, I2, I1, FreeCount, AllocSpec, LeafEntry, Link, Entry, SetEntry, Present, Huge, Addr, UserBit;
    NoFrameLeft(s.bits, base);
    var a := PAGE_PRESENT + PAGE_WRITE + UserBit(flags);
    PointerBits(flags);
    var m1 := Link(s.mem, root, I4(v), 0, a);
    LinkZero(s.mem, root, I4(v), a);
    var m2 := Link(m1, 0, I3(v), 0, a);
    LinkZero(m1, 0, I3(v), a);
    var m3 := Link(m2, 0, I2(v), 0, a);
    LinkZero(m2, 0, I2(v), a);
    var m4 := SetEntry(m3, 0, I1(v), LeafEntry(phys, flags));
    SetEntryAt(m3, 0, I1(v), LeafEntry(phys, flags), 0, I1(v));
    SetEntryAt(m3, 0, I1(v), LeafEntry(phys, flags), 0, I3(v));
    SetEntryAt(m3, 0, I1(v), LeafEntry(phys, flags), root, I4(v));
    assert MapPageSpec(s, base, root, v, phys, flags) == Space(m4, s.bits);
  }

  lemma PointerBits(flags: nat)
    ensures var a := PAGE_PRESENT + PAGE_WRITE + UserBit(flags); Present(a) && !Huge(a) && Addr(a) == 0
    ensures !Present(0)
  {
  }

  /** Frame 0 hung below a table. */
  lemma LinkZero(mem: Mem, t: nat, i: nat, a: nat)
    requires (t == 0 || (t in mem && |mem[t]| == ENTRIES)) && i < ENTRIES
    ensures var m := Link(mem, t, i, 0, a);
      && 0 in m && |m[0]| == ENTRIES && Entry(m, t, i) == a
      && (forall j: nat :: Entry(m, 0, j) == if t == 0 && j == i then a else 0)
      && (forall u: nat, j: nat :: u != 0 && u != t ==> Entry(m, u, j) == Entry(mem, u, j))
  {
  }

  lemma {:induction false} NoFrameLeft(bits: seq<bool>, base: nat)
    requires FreeCount(bits) == 0
    ensures AllocSpec(bits, base) == (bits, 0)
  {
    var i := FirstFree(bits, 0);
    if i < |bits| {
      FreeCountTake(bits, i);
    }
  }
}
