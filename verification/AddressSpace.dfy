/** Address spaces: creation with the shared kernel slot, recursive tear-down, and what both keep
    over any run. */
module AddressSpaceProof {
  import opened Options
  import opened FrameBits
  import opened PageTables
  import opened MapPageProof

  // ----- address_space_create

  /** A zeroed root with the kernel's slot 0 copied in. */
  function NewRoot(mem: Mem, f: nat, kernel: nat): Mem {
    SetEntry(mem[f := ZeroTable()], f, 0, Entry(mem, kernel, 0))
  }

  /** The new root, or 0 when no frame is left. */
  function CreateSpec(sp: Space, base: nat, kernel: nat): (r: (Space, nat)) {
    var (bits, f) := AllocSpec(sp.bits, base);
    if f == 0 then (Space(sp.mem, bits), 0) else (Space(NewRoot(sp.mem, f, kernel), bits), f)
  }

  lemma NewRootEntry(mem: Mem, f: nat, kernel: nat, t: nat, i: nat)
    requires f != kernel
    ensures Entry(NewRoot(mem, f, kernel), t, i) ==
            if t == f then (if i == 0 then Entry(mem, kernel, 0) else 0) else Entry(mem, t, i)
  {
  }

  ghost function WithRoot(tree: Tree, f: nat): Tree { tree[f := Node(4, 0, 0, f)] }

  lemma NewRootInv(mem: Mem, tree: Tree, kernel: nat, f: nat)
    requires Inv(mem, tree, kernel) && f !in tree && f % 0x1000 == 0
    ensures Inv(NewRoot(mem, f, kernel), WithRoot(tree, f), kernel)
  {
    hide Addr, Huge, Present, Entry;
    var mem', tree' := NewRoot(mem, f, kernel), WithRoot(tree, f);
    PtrBits(0, 0);
    NewRootEntry(mem, f, kernel, kernel, 0);
    forall g | g in tree' ensures NodeOk(mem', tree', kernel, g) {
      NewRootEntry(mem, f, kernel, g, 0);
      if g != f {
        assert NodeOk(mem, tree, kernel, g);
        if tree[g].lvl < 4 {
          NewRootEntry(mem, f, kernel, tree[g].parent, tree[g].slot);
        }
      }
    }
    forall g, j | g in tree' ensures EntryOk(mem', tree', kernel, g, j) {
      NewRootEntry(mem, f, kernel, g, j);
      assert EntryOk(mem, tree, kernel, if g == f then kernel else g, j);
    }
  }

  lemma NewRootWalk(mem: Mem, tree: Tree, kernel: nat, f: nat, r: nat, v: nat)
    requires Inv(mem, tree, kernel) && f !in tree && f % 0x1000 == 0
    requires IsRoot(tree, r) || r == f
    ensures Walk(NewRoot(mem, f, kernel), r, v) ==
            if r != f then Walk(mem, r, v) else if I4(v) == 0 then Walk(mem, kernel, v) else None
  {
    hide I4, I3, I2, I1, Addr, Huge, Present, Entry;
    PtrBits(0, 0);
    var q := if r == f then kernel else r;
    NewRootEntry(mem, f, kernel, r, I4(v));
    if r != f || I4(v) == 0 {
      var e4 := Entry(mem, q, I4(v));
      if Present(e4) {
        Descend(mem, tree, kernel, q, I4(v));
        var p3 := Addr(e4);
        assert EntryOk(mem, tree, kernel, p3, I3(v));
        NewRootEntry(mem, f, kernel, p3, I3(v));
        var e3 := Entry(mem, p3, I3(v));
        if Present(e3) {
          Descend(mem, tree, kernel, p3, I3(v));
          NewRootEntry(mem, f, kernel, Addr(e3), I2(v));
          var e2 := Entry(mem, Addr(e3), I2(v));
          if Present(e2) && !Huge(e2) {
            Descend(mem, tree, kernel, Addr(e3), I2(v));
            NewRootEntry(mem, f, kernel, Addr(e2), I1(v));
          }
        }
      }
    }
  }

  lemma NewRootSys(s: Sys, s': Sys, base: nat, kernel: nat, f: nat)
    requires SysInv(s, base, kernel) && TookFrame(s.bits, s'.bits, base, f) && f !in s.tree && f !in s.claims && f != kernel
    requires s' == Sys(NewRoot(s.mem, f, kernel), s'.bits, WithRoot(s.tree, f), s.claims) && Inv(s'.mem, s'.tree, kernel)
    ensures SysInv(s', base, kernel)
  {
    hide Entry, Taken, EntryOk, LeafOk, ClaimOk, Tracked;
    forall g, j | g in s'.tree ensures LeafOk(s', base, kernel, g, j) {
      NewRootLeaf(s, s', base, kernel, f, g, j);
    }
    forall g | g in s'.tree ensures Taken(s'.bits, base, g) {
      if g != f {
        assert NodeOk(s.mem, s.tree, kernel, g);
      }
    }
    forall x: nat | x in s'.claims ensures ClaimOk(s', base, x) {
      NewRootClaim(s, s', base, kernel, f, x);
    }
  }

  lemma KernelLive(s: Sys, base: nat, kernel: nat)
    requires SysInv(s, base, kernel)
    ensures kernel in s.tree
  {
  }

  lemma NewRootLeaf(s: Sys, s': Sys, base: nat, kernel: nat, f: nat, g: nat, j: nat)
    requires SysInv(s, base, kernel) && TookFrame(s.bits, s'.bits, base, f) && f != kernel
    requires s' == Sys(NewRoot(s.mem, f, kernel), s'.bits, WithRoot(s.tree, f), s.claims) && g in s'.tree
    ensures LeafOk(s', base, kernel, g, j)
  {
    hide Addr, Huge, Present, Entry, Taken, Inv;
    NewRootEntry(s.mem, f, kernel, g, j);
    if g != f {
      assert LeafOk(s, base, kernel, g, j);
    }
  }

  lemma NewRootClaim(s: Sys, s': Sys, base: nat, kernel: nat, f: nat, x: nat)
    requires SysInv(s, base, kernel) && TookFrame(s.bits, s'.bits, base, f) && f !in s.tree && f !in s.claims && x in s.claims
    requires s' == Sys(s'.mem, s'.bits, WithRoot(s.tree, f), s.claims)
    ensures ClaimOk(s', base, x)
  {
    hide Taken, Inv, LeafOk;
    assert ClaimOk(s, base, x);
  }

  /** A new space translates the shared half as the kernel does and nothing else; no other space
      notices. */
  lemma Create(s: Sys, base: nat, kernel: nat) returns (s': Sys, f: nat)
    requires SysInv(s, base, kernel) && FreeCount(s.bits) > 0 && base > 0
    ensures CreateSpec(Space(s.mem, s.bits), base, kernel) == (Space(s'.mem, s'.bits), f)
    ensures SysInv(s', base, kernel) && TookFrame(s.bits, s'.bits, base, f)
    ensures f !in s.tree && f !in s.claims && s'.tree == WithRoot(s.tree, f) && s'.claims == s.claims
    ensures SameWalks(s.tree, s.mem, s'.mem)
    ensures forall v: nat :: Walk(s'.mem, f, v) == if I4(v) == 0 then Walk(s.mem, kernel, v) else None
    ensures forall g, j :: g in s.tree ==> Entry(s'.mem, g, j) == Entry(s.mem, g, j)
  {
    hide I4, Addr, Huge, Present, Entry, Walk, Taken, LeafOk, ClaimOk, Inv, NewRoot;
    AllocTakes(s.bits, base);
    f := AllocSpec(s.bits, base).1;
    assert f >= base;
    FreshIsUnused(s, base, kernel, f);
    KernelLive(s, base, kernel);
    s' := Sys(NewRoot(s.mem, f, kernel), AllocSpec(s.bits, base).0, WithRoot(s.tree, f), s.claims);
    NewRootInv(s.mem, s.tree, kernel, f);
    forall g, j | g in s.tree ensures Entry(s'.mem, g, j) == Entry(s.mem, g, j) {
      NewRootEntry(s.mem, f, kernel, g, j);
    }
    NewRootSys(s, s', base, kernel, f);
    forall r: nat, v: nat | IsRoot(s.tree, r) || r == f
      ensures Walk(s'.mem, r, v) ==
              if r != f then Walk(s.mem, r, v) else if I4(v) == 0 then Walk(s.mem, kernel, v) else None
    {
      NewRootWalk(s.mem, s.tree, kernel, f, r, v);
    }
  }

  // ----- address_space_destroy

  /** Frames freed for the first n entries of a page table. */
  function PtFrames(mem: Mem, pt: nat, n: nat): seq<nat> {
    if n == 0 then [] else
    var e := Entry(mem, pt, n - 1);
    PtFrames(mem, pt, n - 1) + (if Present(e) then [Addr(e)] else [])
  }

  function PdFrames(mem: Mem, pd: nat, n: nat): seq<nat> {
    if n == 0 then [] else PdFrames(mem, pd, n - 1) + PdEntryFrames(mem, Entry(mem, pd, n - 1))
  }

  function PdEntryFrames(mem: Mem, e: nat): seq<nat> {
    if !Present(e) then []
    else if Huge(e) then [HugeAddr(e)]
    else PtFrames(mem, Addr(e), ENTRIES) + [Addr(e)]
  }

  function PdptFrames(mem: Mem, pdpt: nat, n: nat): seq<nat> {
    if n == 0 then [] else PdptFrames(mem, pdpt, n - 1) + PdptEntryFrames(mem, Entry(mem, pdpt, n - 1))
  }

  function PdptEntryFrames(mem: Mem, e: nat): seq<nat> {
    if !Present(e) then [] else PdFrames(mem, Addr(e), ENTRIES) + [Addr(e)]
  }

  /** Root entries 1 up to n; entry 0 is the kernel's. */
  function RootFrames(mem: Mem, root: nat, n: nat): seq<nat> {
    if n <= 1 then [] else RootFrames(mem, root, n - 1) + RootEntryFrames(mem, Entry(mem, root, n - 1))
  }

  function RootEntryFrames(mem: Mem, e: nat): seq<nat> {
    if !Present(e) then [] else PdptFrames(mem, Addr(e), ENTRIES) + [Addr(e)]
  }

  function FreeAll(bits: seq<bool>, base: nat, xs: seq<nat>): (r: seq<bool>)
    ensures |r| == |bits|
  {
    if xs == [] then bits else FreeSpec(FreeAll(bits, base, xs[..|xs| - 1]), base, xs[|xs| - 1])
  }

  function DestroySpec(sp: Space, base: nat, root: nat): Space {
    if root == 0 then sp
    else Space(sp.mem, FreeAll(sp.bits, base, RootFrames(sp.mem, root, ENTRIES) + [root]))
  }

  lemma {:induction false} FreeAllAppend(bits: seq<bool>, base: nat, xs: seq<nat>, ys: seq<nat>)
    ensures FreeAll(bits, base, xs + ys) == FreeAll(FreeAll(bits, base, xs), base, ys)
  {
    if ys == [] {
      assert xs + ys == xs;
    } else {
      assert (xs + ys)[..|xs + ys| - 1] == xs + ys[..|ys| - 1];
      FreeAllAppend(bits, base, xs, ys[..|ys| - 1]);
    }
  }

  ghost predicate Aligned(xs: seq<nat>) { forall k :: 0 <= k < |xs| ==> xs[k] % PAGE_SIZE == 0 }

  /** Freeing a list clears exactly the tracked frames on it. */
  lemma {:induction false} FreeAllExact(bits: seq<bool>, base: nat, xs: seq<nat>, x: nat)
    requires base % PAGE_SIZE == 0 && x % PAGE_SIZE == 0 && Tracked(bits, base, x) && Aligned(xs)
    ensures Taken(FreeAll(bits, base, xs), base, x) <==> Taken(bits, base, x) && x !in xs
  {
    if xs != [] {
      var ys, y := xs[..|xs| - 1], xs[|xs| - 1];
      FreeAllExact(bits, base, ys, x);
      assert xs == ys + [y];
      if base <= y {
        FrameOfIndex(base, y);
        FrameOfIndex(base, x);
      }
    }
  }

  // ----- which frames those are

  /** Frame x lies below space `owner`: one of its tables, or a leaf of one of them. */
  ghost predicate LeafAt(mem: Mem, tree: Tree, f: nat, i: nat, owner: nat, x: nat) {
    && f in tree && tree[f].lvl == 1 && tree[f].owner == owner && i < ENTRIES
    && Present(Entry(mem, f, i)) && Addr(Entry(mem, f, i)) == x
  }

  ghost predicate Below(mem: Mem, tree: Tree, owner: nat, x: nat) {
    || (x in tree && tree[x].owner == owner)
    || (exists f, i :: LeafAt(mem, tree, f, i, owner, x))
  }

  ghost predicate AllBelow(mem: Mem, tree: Tree, owner: nat, xs: seq<nat>) {
    forall k :: 0 <= k < |xs| ==> xs[k] % PAGE_SIZE == 0 && Below(mem, tree, owner, xs[k])
  }

  lemma {:induction false} PtFramesBelow(mem: Mem, tree: Tree, pt: nat, n: nat)
    requires pt in tree && tree[pt].lvl == 1 && n <= ENTRIES
    ensures AllBelow(mem, tree, tree[pt].owner, PtFrames(mem, pt, n))
  {
    hide Present;
    if n > 0 {
      PtFramesBelow(mem, tree, pt, n - 1);
      AddrAligned(Entry(mem, pt, n - 1));
      assert Present(Entry(mem, pt, n - 1)) ==>
          LeafAt(mem, tree, pt, n - 1, tree[pt].owner, Addr(Entry(mem, pt, n - 1)));
    }
  }

  lemma {:induction false} PdFramesBelow(s: Sys, base: nat, kernel: nat, pd: nat, n: nat)
    requires SysInv(s, base, kernel) && pd in s.tree && s.tree[pd].lvl == 2 && s.tree[pd].owner != kernel && n <= ENTRIES
    ensures AllBelow(s.mem, s.tree, s.tree[pd].owner, PdFrames(s.mem, pd, n))
  {
    hide Present, Huge, Addr, Entry, Below;
    if n > 0 {
      PdFramesBelow(s, base, kernel, pd, n - 1);
      var e := Entry(s.mem, pd, n - 1);
      assert LeafOk(s, base, kernel, pd, n - 1);
      if Present(e) {
        ChildOwner(s, base, kernel, pd, n - 1);
        Descend(s.mem, s.tree, kernel, pd, n - 1);
        PtFramesBelow(s.mem, s.tree, Addr(e), ENTRIES);
        AddrAligned(e);
        TableBelow(s.mem, s.tree, Addr(e));
      }
    }
  }

  lemma TableBelow(mem: Mem, tree: Tree, f: nat)
    requires f in tree
    ensures Below(mem, tree, tree[f].owner, f)
  {
  }

  lemma {:induction false} PdptFramesBelow(s: Sys, base: nat, kernel: nat, pdpt: nat, n: nat)
    requires SysInv(s, base, kernel) && pdpt in s.tree && s.tree[pdpt].lvl == 3 && s.tree[pdpt].owner != kernel && n <= ENTRIES
    ensures AllBelow(s.mem, s.tree, s.tree[pdpt].owner, PdptFrames(s.mem, pdpt, n))
  {
    hide Present, Huge, Addr, Entry, Below;
    if n > 0 {
      PdptFramesBelow(s, base, kernel, pdpt, n - 1);
      var e := Entry(s.mem, pdpt, n - 1);
      if Present(e) {
        ChildOwner(s, base, kernel, pdpt, n - 1);
        Descend(s.mem, s.tree, kernel, pdpt, n - 1);
        PdFramesBelow(s, base, kernel, Addr(e), ENTRIES);
        AddrAligned(e);
        TableBelow(s.mem, s.tree, Addr(e));
      }
    }
  }

  lemma {:induction false} RootFramesBelow(s: Sys, base: nat, kernel: nat, root: nat, n: nat)
    requires SysInv(s, base, kernel) && IsRoot(s.tree, root) && root != kernel && n <= ENTRIES
    ensures AllBelow(s.mem, s.tree, root, RootFrames(s.mem, root, n))
  {
    hide Present, Huge, Addr, Entry, Below, AllBelow, Inv, PdptFrames;
    if n <= 1 {
      NoneBelow(s.mem, s.tree, root);
    } else {
      RootFramesBelow(s, base, kernel, root, n - 1);
      TopOwners(s, base, kernel, root);
      var e := Entry(s.mem, root, n - 1);
      NoneBelow(s.mem, s.tree, root);
      if Present(e) {
        InvOf(s, base, kernel);
        ChildOwner(s, base, kernel, root, n - 1);
        Descend(s.mem, s.tree, kernel, root, n - 1);
        PdptFramesBelow(s, base, kernel, Addr(e), ENTRIES);
        AddrAligned(e);
        TableBelow(s.mem, s.tree, Addr(e));
        OneBelow(s.mem, s.tree, root, Addr(e));
        BothBelow(s.mem, s.tree, root, PdptFrames(s.mem, Addr(e), ENTRIES), [Addr(e)]);
      }
      BothBelow(s.mem, s.tree, root, RootFrames(s.mem, root, n - 1), RootEntryFrames(s.mem, e));
    }
  }

  lemma NoneBelow(mem: Mem, tree: Tree, owner: nat)
    ensures AllBelow(mem, tree, owner, [])
  {
  }

  lemma OneBelow(mem: Mem, tree: Tree, owner: nat, x: nat)
    requires x % PAGE_SIZE == 0 && Below(mem, tree, owner, x)
    ensures AllBelow(mem, tree, owner, [x])
  {
    hide Below;
  }

  lemma BothBelow(mem: Mem, tree: Tree, owner: nat, xs: seq<nat>, ys: seq<nat>)
    requires AllBelow(mem, tree, owner, xs) && AllBelow(mem, tree, owner, ys)
    ensures AllBelow(mem, tree, owner, xs + ys)
  {
    hide Below;
  }

  // ----- and none is missed

  lemma {:induction false} PtHas(mem: Mem, pt: nat, n: nat, i: nat)
    requires i < n && Present(Entry(mem, pt, i))
    ensures Addr(Entry(mem, pt, i)) in PtFrames(mem, pt, n)
  {
    if i < n - 1 {
      PtHas(mem, pt, n - 1, i);
    }
  }

  lemma {:induction false} PdHas(mem: Mem, pd: nat, n: nat, i: nat, x: nat)
    requires i < n && x in PdEntryFrames(mem, Entry(mem, pd, i))
    ensures x in PdFrames(mem, pd, n)
  {
    hide PdEntryFrames, Entry;
    if i < n - 1 {
      PdHas(mem, pd, n - 1, i, x);
    }
  }

  lemma {:induction false} PdptHas(mem: Mem, pdpt: nat, n: nat, i: nat, x: nat)
    requires i < n && x in PdptEntryFrames(mem, Entry(mem, pdpt, i))
    ensures x in PdptFrames(mem, pdpt, n)
  {
    hide PdptEntryFrames, Entry;
    if i < n - 1 {
      PdptHas(mem, pdpt, n - 1, i, x);
    }
  }

  lemma {:induction false} RootHas(mem: Mem, root: nat, n: nat, i: nat, x: nat)
    requires 1 <= i < n && x in RootEntryFrames(mem, Entry(mem, root, i))
    ensures x in RootFrames(mem, root, n)
  {
    hide RootEntryFrames, Entry;
    if i < n - 1 {
      RootHas(mem, root, n - 1, i, x);
    }
  }

  /** What hangs under a level-3 table of a space, the table included, is on the list. */
  lemma PdptListed(s: Sys, base: nat, kernel: nat, root: nat, pdpt: nat, x: nat)
    requires SysInv(s, base, kernel) && IsRoot(s.tree, root) && root != kernel
    requires pdpt in s.tree && s.tree[pdpt].lvl == 3 && s.tree[pdpt].owner == root
    requires x == pdpt || x in PdptFrames(s.mem, pdpt, ENTRIES)
    ensures x in RootFrames(s.mem, root, ENTRIES)
  {
    hide Present, Huge, Addr, Entry;
    assert NodeOk(s.mem, s.tree, kernel, pdpt);
    var p, i := s.tree[pdpt].parent, s.tree[pdpt].slot;
    assert NodeOk(s.mem, s.tree, kernel, p);
    TopOwners(s, base, kernel, root);
    RootHas(s.mem, root, ENTRIES, i, x);
  }

  lemma PdListed(s: Sys, base: nat, kernel: nat, root: nat, pd: nat, x: nat)
    requires SysInv(s, base, kernel) && IsRoot(s.tree, root) && root != kernel
    requires pd in s.tree && s.tree[pd].lvl == 2 && s.tree[pd].owner == root
    requires x == pd || x in PdFrames(s.mem, pd, ENTRIES)
    ensures x in RootFrames(s.mem, root, ENTRIES)
  {
    hide Present, Huge, Addr, Entry;
    assert NodeOk(s.mem, s.tree, kernel, pd);
    var p, i := s.tree[pd].parent, s.tree[pd].slot;
    PdptHas(s.mem, p, ENTRIES, i, x);
    PdptListed(s, base, kernel, root, p, x);
  }

  lemma PtListed(s: Sys, base: nat, kernel: nat, root: nat, pt: nat, x: nat)
    requires SysInv(s, base, kernel) && IsRoot(s.tree, root) && root != kernel
    requires pt in s.tree && s.tree[pt].lvl == 1 && s.tree[pt].owner == root
    requires x == pt || x in PtFrames(s.mem, pt, ENTRIES)
    ensures x in RootFrames(s.mem, root, ENTRIES)
  {
    hide Present, Huge, Addr, Entry;
    assert NodeOk(s.mem, s.tree, kernel, pt);
    var p, i := s.tree[pt].parent, s.tree[pt].slot;
    PdHas(s.mem, p, ENTRIES, i, x);
    PdListed(s, base, kernel, root, p, x);
  }

  /** address_space_destroy frees exactly the frames below the space. */
  lemma DestroyList(s: Sys, base: nat, kernel: nat, root: nat, x: nat)
    requires SysInv(s, base, kernel) && IsRoot(s.tree, root) && root != kernel
    ensures x in RootFrames(s.mem, root, ENTRIES) + [root] <==> Below(s.mem, s.tree, root, x)
    ensures Aligned(RootFrames(s.mem, root, ENTRIES) + [root])
  {
    hide Present, Huge, Addr, Entry;
    RootFramesBelow(s, base, kernel, root, ENTRIES);
    TopOwners(s, base, kernel, root);
    assert NodeOk(s.mem, s.tree, kernel, root);
    if x in s.tree && s.tree[x].owner == root {
      assert NodeOk(s.mem, s.tree, kernel, x);
      if s.tree[x].lvl == 1 {
        PtListed(s, base, kernel, root, x, x);
      } else if s.tree[x].lvl == 2 {
        PdListed(s, base, kernel, root, x, x);
      } else if s.tree[x].lvl == 3 {
        PdptListed(s, base, kernel, root, x, x);
      }
    } else if exists f, i :: LeafAt(s.mem, s.tree, f, i, root, x) {
      var f, i :| LeafAt(s.mem, s.tree, f, i, root, x);
      PtHas(s.mem, f, ENTRIES, i);
      PtListed(s, base, kernel, root, f, x);
    }
  }

  ghost function WithoutSpace(tree: Tree, root: nat): Tree {
    map f | f in tree && tree[f].owner != root :: tree[f]
  }

  ghost function WithoutClaims(claims: map<nat, nat>, root: nat): map<nat, nat> {
    map x | x in claims && claims[x] != root :: claims[x]
  }

  lemma WithoutSpaceInv(mem: Mem, tree: Tree, kernel: nat, root: nat)
    requires Inv(mem, tree, kernel) && IsRoot(tree, root) && root != kernel
    ensures Inv(mem, WithoutSpace(tree, root), kernel)
  {
    hide Present, Huge, Addr, Entry;
    var tree' := WithoutSpace(tree, root);
    assert NodeOk(mem, tree, kernel, kernel);
    forall f | f in tree' ensures NodeOk(mem, tree', kernel, f) {
      assert NodeOk(mem, tree, kernel, f);
    }
    forall f, i | f in tree' ensures EntryOk(mem, tree', kernel, f, i) {
      assert EntryOk(mem, tree, kernel, f, i);
      if IsPtr(tree[f].lvl, Entry(mem, f, i)) {
        var c := Addr(Entry(mem, f, i));
        assert NodeOk(mem, tree, kernel, c);
        assert NodeOk(mem, tree, kernel, f);
      }
    }
  }

  /** A frame the bitmap tracks lies below a space exactly when it is one of its tables or is
      claimed by it (only one direction: a claim may outlive the mapping that made it). */
  lemma BelowIsOwned(s: Sys, base: nat, kernel: nat, root: nat, x: nat)
    requires SysInv(s, base, kernel) && root != kernel && Tracked(s.bits, base, x)
    requires Below(s.mem, s.tree, root, x)
    ensures (x in s.tree && s.tree[x].owner == root) || (x in s.claims && s.claims[x] == root)
  {
    hide Present, Huge, Addr, Entry;
    if !(x in s.tree && s.tree[x].owner == root) {
      var f, i :| LeafAt(s.mem, s.tree, f, i, root, x);
      assert LeafOk(s, base, kernel, f, i);
    }
  }

  /** Tear-down leaves every other space's tables, leaves and translations intact. */
  lemma Destroy(s: Sys, base: nat, kernel: nat, root: nat) returns (s': Sys)
    requires SysInv(s, base, kernel) && IsRoot(s.tree, root) && root != kernel && root != 0
    ensures Space(s'.mem, s'.bits) == DestroySpec(Space(s.mem, s.bits), base, root)
    ensures s' == Sys(s.mem, s'.bits, WithoutSpace(s.tree, root), WithoutClaims(s.claims, root)) && |s'.bits| == |s.bits|
    ensures SysInv(s', base, kernel)
    ensures forall x: nat :: x % PAGE_SIZE == 0 && Tracked(s.bits, base, x) ==>
              (Taken(s'.bits, base, x) <==> Taken(s.bits, base, x) && !Below(s.mem, s.tree, root, x))
    ensures forall r :: IsRoot(s'.tree, r) <==> IsRoot(s.tree, r) && r != root
  {
    hide Present, Huge, Addr, Entry, Tracked, Below, FreeAll;
    var xs := RootFrames(s.mem, root, ENTRIES) + [root];
    s' := Sys(s.mem, FreeAll(s.bits, base, xs), WithoutSpace(s.tree, root), WithoutClaims(s.claims, root));
    WithoutSpaceInv(s.mem, s.tree, kernel, root);
    DestroyList(s, base, kernel, root, 0);
    forall x: nat | x % PAGE_SIZE == 0 && Tracked(s.bits, base, x)
      ensures Taken(s'.bits, base, x) <==> Taken(s.bits, base, x) && !Below(s.mem, s.tree, root, x)
    {
      DestroyList(s, base, kernel, root, x);
      FreeAllExact(s.bits, base, xs, x);
    }
    SameTracking(s.bits, s'.bits, base);
    forall f | f in s'.tree ensures Taken(s'.bits, base, f) {
      assert NodeOk(s.mem, s.tree, kernel, f);
      assert f in s.claims ==> ClaimOk(s, base, f);
      if Tracked(s.bits, base, f) && Below(s.mem, s.tree, root, f) {
        BelowIsOwned(s, base, kernel, root, f);
      }
    }
    forall f, i | f in s'.tree ensures LeafOk(s', base, kernel, f, i) {
      assert LeafOk(s, base, kernel, f, i);
    }
    forall x: nat | x in s'.claims ensures ClaimOk(s', base, x) {
      assert ClaimOk(s, base, x);
      if Below(s.mem, s.tree, root, x) {
        BelowIsOwned(s, base, kernel, root, x);
      }
    }
    forall r ensures IsRoot(s'.tree, r) <==> IsRoot(s.tree, r) && r != root {
      if r in s.tree {
        assert NodeOk(s.mem, s.tree, kernel, r);
      }
    }
  }

  lemma SameTracking(bits: seq<bool>, bits': seq<bool>, base: nat)
    requires |bits'| == |bits|
    ensures forall x: nat :: Tracked(bits', base, x) <==> Tracked(bits, base, x)
    ensures forall x: nat :: !Tracked(bits', base, x) ==> Taken(bits', base, x)
  {
  }

  // ----- create, map, destroy: nothing leaks and nothing else is freed

  /** Every frame is either as in bits0 or owned by the space, never both. */
  ghost predicate Accounts(s: Sys, bits0: seq<bool>, base: nat, root: nat) {
    && |s.bits| == |bits0|
    && (forall x: nat :: x % PAGE_SIZE == 0 && Tracked(bits0, base, x) ==>
          && (Taken(s.bits, base, x) <==> Taken(bits0, base, x) || Below(s.mem, s.tree, root, x))
          && (Below(s.mem, s.tree, root, x) ==> !Taken(bits0, base, x)))
  }

  lemma BitsFromFrames(a: seq<bool>, b: seq<bool>, base: nat)
    requires base % PAGE_SIZE == 0 && |a| == |b|
    requires forall x: nat :: x % PAGE_SIZE == 0 && Tracked(a, base, x) ==> (Taken(a, base, x) <==> Taken(b, base, x))
    ensures a == b
  {
    forall i | 0 <= i < |a| ensures a[i] == b[i] {
      IndexOfFrame(base, i);
      assert Tracked(a, base, base + i * PAGE_SIZE);
    }
  }

  /** Allocate a frame and map it at a so far unmapped page above the shared half. */
  function MapFresh(sp: Space, base: nat, root: nat, v: nat, flags: nat): Space {
    var (bits, phys) := AllocSpec(sp.bits, base);
    MapPageSpec(Space(sp.mem, bits), base, root, v, phys, flags)
  }

  function MapAllFresh(sp: Space, base: nat, root: nat, vs: seq<nat>, flags: nat): Space
  {
    if vs == [] then sp else MapFresh(MapAllFresh(sp, base, root, vs[..|vs| - 1], flags), base, root, vs[|vs| - 1], flags)
  }

  lemma AllocLeaf(s: Sys, base: nat, kernel: nat) returns (s1: Sys, x: nat)
    requires SysInv(s, base, kernel) && FreeCount(s.bits) > 0
    ensures AllocSpec(s.bits, base) == (s1.bits, x)
    ensures s1 == Sys(s.mem, s1.bits, s.tree, s.claims) && SysInv(s1, base, kernel)
    ensures TookFrame(s.bits, s1.bits, base, x) && x !in s.tree && x !in s.claims
  {
    hide Present, Huge, Addr, Entry, Tracked, Taken;
    AllocTakes(s.bits, base);
    x := AllocSpec(s.bits, base).1;
    s1 := Sys(s.mem, AllocSpec(s.bits, base).0, s.tree, s.claims);
    FreshIsUnused(s, base, kernel, x);
    SameTracking(s.bits, s1.bits, base);
    forall f | f in s1.tree ensures Taken(s1.bits, base, f) {
      assert NodeOk(s.mem, s.tree, kernel, f);
    }
    forall f, i | f in s1.tree ensures LeafOk(s1, base, kernel, f, i) {
      assert LeafOk(s, base, kernel, f, i);
    }
    forall y: nat | y in s1.claims ensures ClaimOk(s1, base, y) {
      assert ClaimOk(s, base, y);
    }
  }

  /** Every claim of the space is backed by a mapping. */
  ghost predicate ClaimsBacked(s: Sys, root: nat) {
    forall x :: x in s.claims && s.claims[x] == root ==> Below(s.mem, s.tree, root, x)
  }

  lemma BelowGrows(s: Sys, s': Sys, root: nat, v: nat, x: nat, flags: nat, y: nat)
    requires Extends(s.tree, s'.tree) && Walk(s.mem, root, v) == None && x % PAGE_SIZE == 0 && flags < 0x1000
    requires LeafAdded(s, s', root, root, v, LeafEntry(x, flags))
    requires Below(s.mem, s.tree, root, y) || y == x || (y in s'.tree && y !in s.tree && s'.tree[y].owner == root)
    ensures Below(s'.mem, s'.tree, root, y)
  {
    hide Walk, I1, I2, I3, I4, LeafEntry;
    LeafEntryBits(x, flags);
    if y == x {
      var pt :| pt in s'.tree && s'.tree[pt].lvl == 1 && s'.tree[pt].owner == root && Entry(s'.mem, pt, I1(v)) == LeafEntry(x, flags);
      assert LeafAt(s'.mem, s'.tree, pt, I1(v), root, x);
    } else if Below(s.mem, s.tree, root, y) && !(y in s.tree && s.tree[y].owner == root) {
      var f, i :| LeafAt(s.mem, s.tree, f, i, root, y);
      assert LeafAt(s'.mem, s'.tree, f, i, root, y);
    }
  }

  lemma BelowExactly(s: Sys, s': Sys, base: nat, kernel: nat, root: nat, v: nat, x: nat, flags: nat, y: nat)
    requires Extends(s.tree, s'.tree) && Walk(s.mem, root, v) == None && x % PAGE_SIZE == 0 && flags < 0x1000
    requires LeafAdded(s, s', root, root, v, LeafEntry(x, flags))
    requires SysInv(s', base, kernel) && root != kernel && Tracked(s'.bits, base, y)
    requires ClaimsBacked(s, root) && (forall z :: z in s'.claims && s'.claims[z] == root ==> z == x || (z in s.claims && s.claims[z] == root))
    requires forall z: nat :: z in s'.tree && z !in s.tree ==> s'.tree[z].owner == root
    ensures Below(s'.mem, s'.tree, root, y) <==>
            Below(s.mem, s.tree, root, y) || y == x || (y in s'.tree && y !in s.tree)
  {
    hide Walk, I1, I2, I3, I4, LeafEntry, SysInv, Below, LeafAdded, Tracked, LeafAt;
    if Below(s'.mem, s'.tree, root, y) {
      BelowIsOwned(s', base, kernel, root, y);
      if y in s.tree && s.tree[y].owner == root {
        TableBelow(s.mem, s.tree, y);
      }
    }
    if Below(s.mem, s.tree, root, y) || y == x || (y in s'.tree && y !in s.tree) {
      BelowGrows(s, s', root, v, x, flags, y);
    }
  }

  lemma MapFreshStep(s: Sys, bits0: seq<bool>, base: nat, kernel: nat, root: nat, v: nat, flags: nat) returns (s': Sys)
    requires SysInv(s, base, kernel) && IsRoot(s.tree, root) && root != kernel
    requires I4(v) != 0 && Walk(s.mem, root, v) == None && flags < 0x1000
    requires FreeCount(s.bits) >= 1 + Missing(s.mem, root, v)
    requires Accounts(s, bits0, base, root) && ClaimsBacked(s, root)
    ensures Space(s'.mem, s'.bits) == MapFresh(Space(s.mem, s.bits), base, root, v, flags)
    ensures SysInv(s', base, kernel) && IsRoot(s'.tree, root)
    ensures Accounts(s', bits0, base, root) && ClaimsBacked(s', root)
    ensures FreeCount(s'.bits) == FreeCount(s.bits) - 1 - Missing(s.mem, root, v)
    ensures forall w: nat :: !SamePage(v, w) ==> Walk(s'.mem, root, w) == Walk(s.mem, root, w)
    ensures Walk(s'.mem, root, v) != None
  {
    hide I4, I3, I2, I1, Walk, Present, Huge, Addr, Entry, Tracked, Taken, Below, LeafEntry, MapPageSpec, Missing, LeafAdded, SysInv;
    var s1, x := AllocLeaf(s, base, kernel);
    AddrOfAligned(x);
    s' := MapPage(s1, base, kernel, root, v, x, flags);
    SameTracking(bits0, s'.bits, base);
    SameTracking(bits0, s.bits, base);
    SameTracking(bits0, s1.bits, base);
    LeafAddedFrom(s, s1, s', root, v, x, flags);
    forall y: nat | y % PAGE_SIZE == 0 && Tracked(bits0, base, y)
      ensures Taken(s'.bits, base, y) <==> Taken(bits0, base, y) || Below(s'.mem, s'.tree, root, y)
      ensures Below(s'.mem, s'.tree, root, y) ==> !Taken(bits0, base, y)
    {
      BelowExactly(s, s', base, kernel, root, v, x, flags, y);
      assert Taken(s'.bits, base, y) <==> Taken(s.bits, base, y) || y == x || (y in s'.tree && y !in s.tree);
    }
    forall y | y in s'.claims && s'.claims[y] == root ensures Below(s'.mem, s'.tree, root, y) {
      BelowGrows(s, s', root, v, x, flags, y);
    }
  }

  lemma AddrOfAligned(x: nat)
    requires x % PAGE_SIZE == 0
    ensures Addr(x) == x
  {
  }

  lemma LeafAddedFrom(s: Sys, s1: Sys, s': Sys, root: nat, v: nat, x: nat, flags: nat)
    requires s1 == Sys(s.mem, s1.bits, s.tree, s.claims)
    requires LeafAdded(s1, s', root, root, v, LeafEntry(x, flags))
    ensures LeafAdded(s, s', root, root, v, LeafEntry(x, flags))
  {
  }

  ghost predicate DistinctUpperPages(vs: seq<nat>) {
    && (forall i :: 0 <= i < |vs| ==> I4(vs[i]) != 0)
    && (forall i, j :: 0 <= i < j < |vs| ==> !SamePage(vs[i], vs[j]))
  }

  /** Upper pages outside vs are still unmapped, those in vs are mapped. */
  ghost predicate MapsExactly(mem: Mem, root: nat, vs: seq<nat>) {
    && (forall i :: 0 <= i < |vs| ==> Walk(mem, root, vs[i]) != None)
    && (forall w: nat :: I4(w) != 0 && (forall i :: 0 <= i < |vs| ==> !SamePage(vs[i], w)) ==> Walk(mem, root, w) == None)
  }

  /** For each page in turn there is a free frame for it and for every table it still lacks. */
  ghost predicate EnoughFor(sp: Space, base: nat, root: nat, vs: seq<nat>, flags: nat)
    decreases |vs|
  {
    vs == [] ||
    var ws := vs[..|vs| - 1];
    var t := MapAllFresh(sp, base, root, ws, flags);
    EnoughFor(sp, base, root, ws, flags) && FreeCount(t.bits) >= 1 + Missing(t.mem, root, vs[|vs| - 1])
  }

  lemma MapsOneMore(mem: Mem, mem': Mem, root: nat, vs: seq<nat>, v: nat)
    requires MapsExactly(mem, root, vs) && Walk(mem', root, v) != None
    requires forall i :: 0 <= i < |vs| ==> !SamePage(vs[i], v)
    requires forall w: nat :: !SamePage(v, w) ==> Walk(mem', root, w) == Walk(mem, root, w)
    ensures MapsExactly(mem', root, vs + [v])
  {
    hide Walk, I4, SamePage;
    var ws := vs + [v];
    forall i | 0 <= i < |ws| ensures Walk(mem', root, ws[i]) != None {
      if i < |vs| {
        SamePageSymmetric(vs[i], v);
        assert Walk(mem', root, vs[i]) == Walk(mem, root, vs[i]);
      }
    }
    forall w: nat | I4(w) != 0 && (forall i :: 0 <= i < |ws| ==> !SamePage(ws[i], w))
      ensures Walk(mem', root, w) == None
    {
      assert !SamePage(ws[|vs|], w);
      forall i | 0 <= i < |vs| ensures !SamePage(vs[i], w) {
        assert ws[i] == vs[i];
      }
    }
  }

  lemma {:induction false} MapAllSteps(s: Sys, bits0: seq<bool>, base: nat, kernel: nat, root: nat, vs: seq<nat>, flags: nat) returns (s': Sys)
    requires SysInv(s, base, kernel) && IsRoot(s.tree, root) && root != kernel && flags < 0x1000
    requires DistinctUpperPages(vs) && EnoughFor(Space(s.mem, s.bits), base, root, vs, flags)
    requires MapsExactly(s.mem, root, [])
    requires Accounts(s, bits0, base, root) && ClaimsBacked(s, root)
    ensures Space(s'.mem, s'.bits) == MapAllFresh(Space(s.mem, s.bits), base, root, vs, flags)
    ensures SysInv(s', base, kernel) && IsRoot(s'.tree, root)
    ensures Accounts(s', bits0, base, root) && ClaimsBacked(s', root)
    ensures FreeCount(s'.bits) >= FreeCount(s.bits) - 4 * |vs|
    ensures MapsExactly(s'.mem, root, vs)
  {
    hide I4, SamePage, Walk, Accounts, SysInv, ClaimsBacked, MapFresh, MapsExactly, Missing, FreeCount;
    if vs == [] {
      s' := s;
    } else {
      var ws, v := vs[..|vs| - 1], vs[|vs| - 1];
      var s1 := MapAllSteps(s, bits0, base, kernel, root, ws, flags);
      forall i | 0 <= i < |ws| ensures !SamePage(ws[i], v) {
        assert ws[i] == vs[i];
      }
      StillUnmapped(s1.mem, root, ws, v);
      s' := MapFreshStep(s1, bits0, base, kernel, root, v, flags);
      MapsOneMore(s1.mem, s'.mem, root, ws, v);
      assert ws + [v] == vs;
    }
  }

  /** Four frames a page are always enough: the page's own and at most three tables. */
  lemma {:induction false} FourEach(s: Sys, bits0: seq<bool>, base: nat, kernel: nat, root: nat, vs: seq<nat>, flags: nat)
    requires SysInv(s, base, kernel) && IsRoot(s.tree, root) && root != kernel && flags < 0x1000
    requires DistinctUpperPages(vs) && FreeCount(s.bits) >= 4 * |vs|
    requires MapsExactly(s.mem, root, [])
    requires Accounts(s, bits0, base, root) && ClaimsBacked(s, root)
    ensures EnoughFor(Space(s.mem, s.bits), base, root, vs, flags)
    decreases |vs|
  {
    hide I4, SamePage, Walk, Accounts, SysInv, ClaimsBacked, MapFresh, MapsExactly, Missing, FreeCount;
    if vs != [] {
      var ws := vs[..|vs| - 1];
      FourEach(s, bits0, base, kernel, root, ws, flags);
      var s1 := MapAllSteps(s, bits0, base, kernel, root, ws, flags);
    }
  }

  lemma StillUnmapped(mem: Mem, root: nat, vs: seq<nat>, v: nat)
    requires MapsExactly(mem, root, vs) && I4(v) != 0
    requires forall i :: 0 <= i < |vs| ==> !SamePage(vs[i], v)
    ensures Walk(mem, root, v) == None
  {
  }

  lemma SamePageSymmetric(v: nat, w: nat)
    ensures SamePage(v, w) <==> SamePage(w, v)
  {
  }

  lemma BaseAligned(s: Sys, base: nat, kernel: nat)
    requires SysInv(s, base, kernel)
    ensures base % PAGE_SIZE == 0 && kernel in s.tree
  {
  }

  /** A space just created owns its root and nothing else. */
  lemma CreateAccounts(s: Sys, s1: Sys, base: nat, kernel: nat, root: nat)
    requires SysInv(s, base, kernel) && SysInv(s1, base, kernel) && TookFrame(s.bits, s1.bits, base, root)
    requires root !in s.tree && s1.tree == WithRoot(s.tree, root) && s1.claims == s.claims && root != kernel
    ensures Accounts(s1, s.bits, base, root) && ClaimsBacked(s1, root)
  {
    hide Tracked, Taken, Present, Huge, Addr, Entry, Below, SysInv;
    forall y: nat | Tracked(s1.bits, base, y) ensures Below(s1.mem, s1.tree, root, y) <==> y == root {
      if Below(s1.mem, s1.tree, root, y) {
        BelowIsOwned(s1, base, kernel, root, y);
        OwnersLive(s, base, kernel, root, y);
      }
      TableBelow(s1.mem, s1.tree, root);
    }
    SameTracking(s.bits, s1.bits, base);
    forall y: nat ensures y in s1.claims ==> s1.claims[y] != root {
      OwnersLive(s, base, kernel, root, y);
    }
  }

  /** Nothing belongs to a frame that is no live root. */
  lemma OwnersLive(s: Sys, base: nat, kernel: nat, root: nat, y: nat)
    requires SysInv(s, base, kernel) && root !in s.tree
    ensures y in s.tree ==> s.tree[y].owner != root
    ensures y in s.claims ==> s.claims[y] != root
  {
    hide Tracked, Taken, Present, Huge, Addr, Entry;
    assert y in s.claims ==> ClaimOk(s, base, y);
    if y in s.tree {
      assert NodeOk(s.mem, s.tree, kernel, y);
      if s.tree[y].lvl < 4 {
        var p := s.tree[y].parent;
        assert NodeOk(s.mem, s.tree, kernel, p);
        if s.tree[p].lvl < 4 {
          var q := s.tree[p].parent;
          assert NodeOk(s.mem, s.tree, kernel, q);
          if s.tree[q].lvl < 4 {
            assert NodeOk(s.mem, s.tree, kernel, s.tree[q].parent);
          }
        }
      }
    }
  }

  /** Creating a space, mapping each of any number of different pages above the shared half with a
      freshly allocated frame, and destroying the space returns the frame bitmap to its exact
      starting value, if for every page there is a frame for it and for each table it still lacks. */
  lemma CreateMapDestroy(s: Sys, base: nat, kernel: nat, vs: seq<nat>, flags: nat)
    requires SysInv(s, base, kernel) && base > 0 && flags < 0x1000
    requires DistinctUpperPages(vs) && FreeCount(s.bits) >= 1
    requires var (sp, root) := CreateSpec(Space(s.mem, s.bits), base, kernel); EnoughFor(sp, base, root, vs, flags)
    ensures var (sp, root) := CreateSpec(Space(s.mem, s.bits), base, kernel);
            root != 0 && DestroySpec(MapAllFresh(sp, base, root, vs, flags), base, root).bits == s.bits
  {
    hide I4, Walk, Taken, Tracked, Below, DestroySpec, SysInv, CreateSpec, AllocSpec, MapAllFresh,
         SamePage, Accounts, FreeCount, Extends, Inv, ClaimsBacked, EnoughFor;
    var s1, root := Create(s, base, kernel);
    BaseAligned(s, base, kernel);
    TrackedAbove(s.bits, base, root);
    CreateAccounts(s, s1, base, kernel, root);
    var s2 := MapAllSteps(s1, s.bits, base, kernel, root, vs, flags);
    var s3 := Destroy(s2, base, kernel, root);
    BackToStart(s, s2, s3, base, root);
  }

  /** Four spare frames a page, and one for the root, are enough for any pages. */
  lemma FourEachSuffice(s: Sys, base: nat, kernel: nat, vs: seq<nat>, flags: nat)
    requires SysInv(s, base, kernel) && base > 0 && flags < 0x1000
    requires DistinctUpperPages(vs) && FreeCount(s.bits) >= 1 + 4 * |vs|
    ensures var (sp, root) := CreateSpec(Space(s.mem, s.bits), base, kernel); EnoughFor(sp, base, root, vs, flags)
  {
    hide I4, Walk, Taken, Tracked, Below, SysInv, CreateSpec, AllocSpec, MapAllFresh,
         SamePage, Accounts, FreeCount, Extends, Inv, ClaimsBacked, EnoughFor;
    var s1, root := Create(s, base, kernel);
    BaseAligned(s, base, kernel);
    TrackedAbove(s.bits, base, root);
    CreateAccounts(s, s1, base, kernel, root);
    FourEach(s1, s.bits, base, kernel, root, vs, flags);
  }

  lemma BackToStart(s: Sys, s2: Sys, s3: Sys, base: nat, root: nat)
    requires base % PAGE_SIZE == 0 && Accounts(s2, s.bits, base, root) && |s3.bits| == |s2.bits|
    requires forall x: nat :: x % PAGE_SIZE == 0 && Tracked(s2.bits, base, x) ==>
               (Taken(s3.bits, base, x) <==> Taken(s2.bits, base, x) && !Below(s2.mem, s2.tree, root, x))
    ensures s3.bits == s.bits
  {
    hide Taken, Tracked, Below;
    SameTracking(s.bits, s3.bits, base);
    SameTracking(s.bits, s2.bits, base);
    BitsFromFrames(s3.bits, s.bits, base);
  }

  lemma TrackedAbove(bits: seq<bool>, base: nat, x: nat)
    requires Tracked(bits, base, x)
    ensures x >= base
  {
  }
}
