/** Arbitrary runs of page allocation, freeing, mapping, and creating and destroying address spaces. */
module MemoryRuns {
  import opened Options
  import opened FrameBits
  import opened PageTables
  import opened MapPageProof
  import opened AddressSpaceProof
  import opened IdentityMapProof

  /** Tables and bits, the live roots, the frames handed to clients, and for each frame mapped
      above the shared half the root of the space it was mapped in. */
  datatype Machine = Machine(sp: Space, roots: set<nat>, handed: set<nat>, claims: map<nat, nat>)

  datatype Op =
    | AllocPage
    | FreePage(phys: nat)
    | MapTo(root: nat, v: nat, phys: nat, flags: nat)
    | CreateSpace
    | DestroySpace(root: nat)

  function Apply(m: Machine, base: nat, kernel: nat, op: Op): Machine {
    match op
    case AllocPage =>
      var (bits, f) := AllocSpec(m.sp.bits, base);
      m.(sp := Space(m.sp.mem, bits), handed := if f == 0 then m.handed else m.handed + {f})
    case FreePage(phys) =>
      m.(sp := Space(m.sp.mem, FreeSpec(m.sp.bits, base, phys)), handed := m.handed - {phys})
    case MapTo(root, v, phys, flags) =>
      m.(sp := MapPageSpec(m.sp, base, root, v, phys, flags),
         claims := if root != kernel && I4(v) != 0 && Tracked(m.sp.bits, base, Addr(phys))
                   then m.claims[Addr(phys) := root] else m.claims)
    case CreateSpace =>
      var (sp, f) := CreateSpec(m.sp, base, kernel);
      m.(sp := sp, roots := if f == 0 then m.roots else m.roots + {f})
    case DestroySpace(root) =>
      Machine(DestroySpec(m.sp, base, root), m.roots - {root},
              set x | x in m.handed && !(x in m.claims && m.claims[x] == root),
              map x | x in m.claims && m.claims[x] != root :: m.claims[x])
  }

  /** What callers owe: live roots only, attribute bits only, enough frames for the tables, never
      the kernel's own space destroyed, of the allocator's frames only those freed that the caller was
      handed and has in no space's own half, and above the shared half only frames that are not the
      allocator's or that the caller was handed and no other space has mapped. */
  ghost predicate Allowed(m: Machine, base: nat, kernel: nat, op: Op) {
    match op
    case AllocPage => true
    case FreePage(phys) => !Tracked(m.sp.bits, base, phys) || (phys in m.handed && phys !in m.claims)
    case MapTo(root, v, phys, flags) =>
      && root in m.roots && flags < 0x1000 && FreeCount(m.sp.bits) >= Missing(m.sp.mem, root, v)
      && (root == kernel || I4(v) == 0 || !Tracked(m.sp.bits, base, Addr(phys)) ||
          (Addr(phys) in m.handed && (Addr(phys) in m.claims ==> m.claims[Addr(phys)] == root)))
    case CreateSpace => true
    case DestroySpace(root) => root in m.roots && root != kernel
  }

  ghost function SysOf(m: Machine, tree: Tree): Sys { Sys(m.sp.mem, m.sp.bits, tree, m.claims) }

  ghost predicate HandedOk(m: Machine, tree: Tree, base: nat, x: nat) {
    x % PAGE_SIZE == 0 && Tracked(m.sp.bits, base, x) && Taken(m.sp.bits, base, x) && x !in tree
  }

  ghost predicate Backed(m: Machine, tree: Tree, base: nat, kernel: nat) {
    && SysInv(SysOf(m, tree), base, kernel)
    && (forall r :: r in m.roots <==> IsRoot(tree, r))
    && (forall x: nat :: x in m.handed ==> HandedOk(m, tree, base, x))
    && m.claims.Keys <= m.handed && 0 !in m.roots
  }

  ghost predicate Healthy(m: Machine, base: nat, kernel: nat) {
    base > 0 && exists tree :: Backed(m, tree, base, kernel)
  }

  lemma AllocKeeps(m: Machine, tree: Tree, base: nat, kernel: nat)
    requires base > 0 && Backed(m, tree, base, kernel)
    ensures Backed(Apply(m, base, kernel, AllocPage), tree, base, kernel)
  {
    hide Tracked, Taken, Present, Huge, Addr, Entry, SysInv, FreeCount;
    var s := SysOf(m, tree);
    if FreeCount(m.sp.bits) == 0 {
      NoFrameLeft(m.sp.bits, base);
    } else {
      var s1, x := AllocLeaf(s, base, kernel);
      SameTracking(s.bits, s1.bits, base);
      TrackedAbove(s.bits, base, x);
      var m' := Apply(m, base, kernel, AllocPage);
      forall y: nat | y in m'.handed ensures HandedOk(m', tree, base, y) {
        assert y != x ==> HandedOk(m, tree, base, y);
      }
    }
  }

  lemma FreeOthers(bits: seq<bool>, base: nat, x: nat, y: nat)
    requires base % PAGE_SIZE == 0 && x % PAGE_SIZE == 0 && y % PAGE_SIZE == 0 && x != y && Taken(bits, base, y)
    ensures Taken(FreeSpec(bits, base, x), base, y)
  {
    if base <= x && base <= y {
      FrameOfIndex(base, x);
      FrameOfIndex(base, y);
    }
  }

  lemma FreePageKeeps(m: Machine, tree: Tree, base: nat, kernel: nat, x: nat)
    requires Backed(m, tree, base, kernel) && Allowed(m, base, kernel, FreePage(x))
    ensures Backed(Apply(m, base, kernel, FreePage(x)), tree, base, kernel)
  {
    hide Taken, Present, Huge, Addr, Entry;
    var m' := Apply(m, base, kernel, FreePage(x));
    var s, s' := SysOf(m, tree), SysOf(m', tree);
    SameTracking(s.bits, s'.bits, base);
    hide Tracked;
    assert x in m.handed ==> HandedOk(m, tree, base, x);
    if x in m.handed {
      hide FreeSpec;
      forall f | f in tree ensures Taken(s'.bits, base, f) {
        assert NodeOk(s.mem, tree, kernel, f);
        FreeOthers(s.bits, base, x, f);
      }
      forall f, i | f in tree ensures LeafOk(s', base, kernel, f, i) {
        assert LeafOk(s, base, kernel, f, i);
      }
      forall y: nat | y in s.claims ensures ClaimOk(s', base, y) {
        assert ClaimOk(s, base, y);
        FreeOthers(s.bits, base, x, y);
      }
      forall y: nat | y in m'.handed ensures HandedOk(m', tree, base, y) {
        assert HandedOk(m, tree, base, y);
        FreeOthers(s.bits, base, x, y);
      }
    } else {
      assert m' == m;
    }
  }

  lemma MapKeeps(m: Machine, tree: Tree, base: nat, kernel: nat, root: nat, v: nat, phys: nat, flags: nat) returns (tree': Tree)
    requires base > 0 && Backed(m, tree, base, kernel) && Allowed(m, base, kernel, MapTo(root, v, phys, flags))
    ensures Backed(Apply(m, base, kernel, MapTo(root, v, phys, flags)), tree', base, kernel)
    ensures MappedExactly(SysOf(m, tree), SysOf(Apply(m, base, kernel, MapTo(root, v, phys, flags)), tree'), root, v, phys, flags)
  {
    hide Tracked, Taken, Present, Huge, Addr, Entry, SysInv, FreeCount, MapPageSpec, I4, Missing, LeafAdded, Walk;
    var s := SysOf(m, tree);
    var x := Addr(phys);
    assert x in m.handed ==> HandedOk(m, tree, base, x);
    var s' := MapPage(s, base, kernel, root, v, phys, flags);
    tree' := s'.tree;
    var m' := Apply(m, base, kernel, MapTo(root, v, phys, flags));
    assert SysOf(m', tree') == s';
    SameTracking(s.bits, s'.bits, base);
    forall y: nat | y in m'.handed ensures HandedOk(m', tree', base, y) {
      assert HandedOk(m, tree, base, y);
    }
  }

  lemma CreateKeeps(m: Machine, tree: Tree, base: nat, kernel: nat) returns (tree': Tree)
    requires base > 0 && Backed(m, tree, base, kernel)
    ensures Backed(Apply(m, base, kernel, CreateSpace), tree', base, kernel)
  {
    hide Tracked, Taken, Present, Huge, Addr, Entry, SysInv, FreeCount, I4, Walk, AllocSpec;
    var s := SysOf(m, tree);
    var m' := Apply(m, base, kernel, CreateSpace);
    if FreeCount(m.sp.bits) == 0 {
      NoFrameLeft(m.sp.bits, base);
      tree' := tree;
      assert m' == m;
    } else {
      var s', f := Create(s, base, kernel);
      tree' := s'.tree;
      TrackedAbove(s.bits, base, f);
      SameTracking(s.bits, s'.bits, base);
      assert SysOf(m', tree') == s';
      forall y: nat | y in m'.handed ensures HandedOk(m', tree', base, y) {
        assert HandedOk(m, tree, base, y);
      }
    }
  }

  lemma DestroyKeeps(m: Machine, tree: Tree, base: nat, kernel: nat, root: nat) returns (tree': Tree)
    requires base > 0 && Backed(m, tree, base, kernel) && Allowed(m, base, kernel, DestroySpace(root)) && root != 0
    ensures Backed(Apply(m, base, kernel, DestroySpace(root)), tree', base, kernel)
  {
    hide Tracked, Taken, Present, Huge, Addr, Entry, SysInv, Below, DestroySpec;
    var s := SysOf(m, tree);
    var s' := Destroy(s, base, kernel, root);
    tree' := s'.tree;
    var m' := Apply(m, base, kernel, DestroySpace(root));
    assert SysOf(m', tree') == s';
    SameTracking(s.bits, s'.bits, base);
    forall y: nat | y in m'.handed ensures HandedOk(m', tree', base, y) {
      assert HandedOk(m, tree, base, y);
      if Below(s.mem, s.tree, root, y) {
        BelowIsOwned(s, base, kernel, root, y);
      }
    }
  }

  lemma LiveRootNotZero(m: Machine, tree: Tree, base: nat, kernel: nat, root: nat)
    requires Backed(m, tree, base, kernel) && root in m.roots
    ensures root != 0
  {
  }

  /** Every operation keeps the tables, the bits and the ownership of frames consistent. */
  lemma ApplyKeeps(m: Machine, base: nat, kernel: nat, op: Op)
    requires Healthy(m, base, kernel) && Allowed(m, base, kernel, op)
    ensures Healthy(Apply(m, base, kernel, op), base, kernel)
  {
    hide Apply, Backed;
    var tree :| Backed(m, tree, base, kernel);
    var tree' := tree;
    match op
    case AllocPage => AllocKeeps(m, tree, base, kernel);
    case FreePage(phys) => FreePageKeeps(m, tree, base, kernel, phys);
    case MapTo(root, v, phys, flags) => tree' := MapKeeps(m, tree, base, kernel, root, v, phys, flags);
    case CreateSpace => tree' := CreateKeeps(m, tree, base, kernel);
    case DestroySpace(root) =>
      LiveRootNotZero(m, tree, base, kernel, root);
      tree' := DestroyKeeps(m, tree, base, kernel, root);
  }

  function Run(m: Machine, base: nat, kernel: nat, ops: seq<Op>): Machine {
    if ops == [] then m else Apply(Run(m, base, kernel, ops[..|ops| - 1]), base, kernel, ops[|ops| - 1])
  }

  ghost predicate AllAllowed(m: Machine, base: nat, kernel: nat, ops: seq<Op>) {
    forall i :: 0 <= i < |ops| ==> Allowed(Run(m, base, kernel, ops[..i]), base, kernel, ops[i])
  }

  lemma {:induction false} RunKeeps(m: Machine, base: nat, kernel: nat, ops: seq<Op>)
    requires Healthy(m, base, kernel) && AllAllowed(m, base, kernel, ops)
    ensures Healthy(Run(m, base, kernel, ops), base, kernel)
  {
    hide Apply, Healthy, Allowed;
    if ops != [] {
      var n := |ops| - 1;
      forall i | 0 <= i < n ensures Allowed(Run(m, base, kernel, ops[..n][..i]), base, kernel, ops[..n][i]) {
        assert ops[..n][..i] == ops[..i];
        assert Allowed(Run(m, base, kernel, ops[..i]), base, kernel, ops[i]);
      }
      RunKeeps(m, base, kernel, ops[..n]);
      ApplyKeeps(Run(m, base, kernel, ops[..n]), base, kernel, ops[n]);
    }
  }

  /** Every live space translates the first 512 GB exactly as the kernel does. */
  ghost predicate KernelHalfShared(m: Machine, kernel: nat) {
    forall r: nat, v: nat :: r in m.roots && I4(v) == 0 ==> Walk(m.sp.mem, r, v) == Walk(m.sp.mem, kernel, v)
  }

  lemma HealthyShares(m: Machine, base: nat, kernel: nat)
    requires Healthy(m, base, kernel)
    ensures KernelHalfShared(m, kernel)
  {
    hide I4, I3, I2, I1, Present, Huge, Addr, Entry;
    var tree :| Backed(m, tree, base, kernel);
    forall r: nat, v: nat | r in m.roots && I4(v) == 0
      ensures Walk(m.sp.mem, r, v) == Walk(m.sp.mem, kernel, v)
    {
      assert NodeOk(m.sp.mem, tree, kernel, r);
    }
  }

  /** The machine as start-up leaves it: identity map, cleared bitmap, the kernel's space only. */
  function Boot(pml4: nat, pdpt: nat, pds: nat, ram: nat, bits: seq<bool>): Machine {
    Machine(Space(InitMem(pml4, pdpt, pds, GbCount(ram)), bits), {pml4}, {}, map[])
  }

  lemma BootHealthy(pml4: nat, pdpt: nat, pds: nat, ram: nat, bits: seq<bool>, base: nat)
    requires StaticLayout(pml4, pdpt, pds, base)
    ensures Healthy(Boot(pml4, pdpt, pds, ram, bits), base, pml4)
  {
    hide Present, Huge, Addr, Entry, InitMem, InitTree, GbCount;
    var gb := GbCount(ram);
    var tree := InitTree(pml4, pdpt, pds, gb);
    var m := Boot(pml4, pdpt, pds, ram, bits);
    InitInv(pml4, pdpt, pds, base, gb);
    InitTreeAt(pml4, pdpt, pds, base, gb, 0);
    forall f: nat | f in tree
      ensures Taken(bits, base, f) && tree[f].owner == pml4 && (tree[f].lvl == 4 <==> f == pml4)
    {
      var t := InitNode(pml4, pdpt, pds, base, gb, f);
    }
    assert Backed(m, tree, base, pml4);
  }

  /** Whatever sequence of allocations, frees, mappings, creations and destructions follows start-up, in
      whichever spaces, every live space still sees the kernel half as the kernel does. */
  lemma KernelHalfStaysShared(pml4: nat, pdpt: nat, pds: nat, ram: nat, bits: seq<bool>, base: nat, ops: seq<Op>)
    requires StaticLayout(pml4, pdpt, pds, base)
    requires AllAllowed(Boot(pml4, pdpt, pds, ram, bits), base, pml4, ops)
    ensures Healthy(Run(Boot(pml4, pdpt, pds, ram, bits), base, pml4, ops), base, pml4)
    ensures KernelHalfShared(Run(Boot(pml4, pdpt, pds, ram, bits), base, pml4, ops), pml4)
  {
    hide Healthy, AllAllowed, Run, Boot, KernelHalfShared;
    BootHealthy(pml4, pdpt, pds, ram, bits, base);
    RunKeeps(Boot(pml4, pdpt, pds, ram, bits), base, pml4, ops);
    HealthyShares(Run(Boot(pml4, pdpt, pds, ram, bits), base, pml4, ops), base, pml4);
  }

  /** In any healthy machine a mapping changes one page of one space, or of all spaces when the
      page lies in the kernel half, and nothing else anywhere. */
  lemma MapChangesOnePage(m: Machine, base: nat, kernel: nat, root: nat, v: nat, phys: nat, flags: nat, r: nat, w: nat)
    requires Healthy(m, base, kernel) && Allowed(m, base, kernel, MapTo(root, v, phys, flags)) && r in m.roots
    ensures Walk(Apply(m, base, kernel, MapTo(root, v, phys, flags)).sp.mem, r, w) ==
            if SamePage(v, w) && (r == root || I4(v) == 0)
            then Some(MappedLeaf(m.sp.mem, root, v, phys, flags, w))
            else Walk(m.sp.mem, r, w)
  {
    hide Apply, Walk, I4, I3, I2, I1, Addr;
    var tree :| Backed(m, tree, base, kernel);
    var tree' := MapKeeps(m, tree, base, kernel, root, v, phys, flags);
  }

  /** Destroying a space changes no translation of any other. */
  lemma DestroyChangesNothingElse(m: Machine, base: nat, kernel: nat, root: nat, r: nat, v: nat)
    requires Healthy(m, base, kernel) && Allowed(m, base, kernel, DestroySpace(root))
    requires r in Apply(m, base, kernel, DestroySpace(root)).roots
    ensures r in m.roots && r != root
    ensures Walk(Apply(m, base, kernel, DestroySpace(root)).sp.mem, r, v) == Walk(m.sp.mem, r, v)
  {
  }

  // ----- what happens to the others leaves a space alone

  predicate Away(op: Op, r: nat) {
    (op.MapTo? ==> op.root != r) && (op.DestroySpace? ==> op.root != r)
  }

  /** An operation neither mapping through r nor destroying it leaves r's own half as it was. */
  lemma OpLeavesAlone(m: Machine, base: nat, kernel: nat, op: Op, r: nat, v: nat)
    requires Healthy(m, base, kernel) && Allowed(m, base, kernel, op) && r in m.roots && Away(op, r) && I4(v) != 0
    ensures r in Apply(m, base, kernel, op).roots
    ensures Walk(Apply(m, base, kernel, op).sp.mem, r, v) == Walk(m.sp.mem, r, v)
  {
    hide Walk, I4, I3, I2, I1, Addr, Healthy, Missing, MapPageSpec, AllocSpec, FreeCount, CreateSpec;
    match op
    case AllocPage =>
    case FreePage(_) =>
    case MapTo(root, w, phys, flags) => MapChangesOnePage(m, base, kernel, root, w, phys, flags, r, v);
    case CreateSpace => CreateChangesNothingElse(m, base, kernel, r, v);
    case DestroySpace(root) => DestroyChangesNothingElse(m, base, kernel, root, r, v);
  }

  lemma CreateChangesNothingElse(m: Machine, base: nat, kernel: nat, r: nat, v: nat)
    requires Healthy(m, base, kernel) && r in m.roots
    ensures Walk(Apply(m, base, kernel, CreateSpace).sp.mem, r, v) == Walk(m.sp.mem, r, v)
  {
    hide Walk, I4, I3, I2, I1, Addr, FreeCount, SysInv, AllocSpec;
    var tree :| Backed(m, tree, base, kernel);
    var s := SysOf(m, tree);
    if FreeCount(m.sp.bits) == 0 {
      NoFrameLeft(m.sp.bits, base);
    } else {
      var s', f := Create(s, base, kernel);
      assert IsRoot(s.tree, r);
    }
  }

  /** Over any allowed run that neither maps through r nor destroys it, whatever happens in other
      spaces, r translates every address above the first 512 GB as it did. */
  lemma {:induction false} RunLeavesAlone(m: Machine, base: nat, kernel: nat, ops: seq<Op>, r: nat, v: nat)
    requires Healthy(m, base, kernel) && AllAllowed(m, base, kernel, ops) && r in m.roots && I4(v) != 0
    requires forall i :: 0 <= i < |ops| ==> Away(ops[i], r)
    ensures r in Run(m, base, kernel, ops).roots
    ensures Walk(Run(m, base, kernel, ops).sp.mem, r, v) == Walk(m.sp.mem, r, v)
  {
    hide Apply, Healthy, Allowed, Walk, I4;
    if ops != [] {
      var n := |ops| - 1;
      forall i | 0 <= i < n ensures Allowed(Run(m, base, kernel, ops[..n][..i]), base, kernel, ops[..n][i]) {
        assert ops[..n][..i] == ops[..i];
        assert Allowed(Run(m, base, kernel, ops[..i]), base, kernel, ops[i]);
      }
      RunKeeps(m, base, kernel, ops[..n]);
      RunLeavesAlone(m, base, kernel, ops[..n], r, v);
      OpLeavesAlone(Run(m, base, kernel, ops[..n]), base, kernel, ops[n], r, v);
    }
  }
}
