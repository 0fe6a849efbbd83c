/** The page and address-space managers as they run: tables written in place, one allocator. */
module PageManagers {
  import opened FrameBits
  import opened FrameAllocators
  import opened PageTables
  import opened AddressSpaceProof
  import opened IdentityMapProof

  class PageManager {
    var mem: Mem
    var kernelPml4: nat
    const frames: FrameAllocator

    /** Builds the identity map in the statically placed tables. */
    constructor (frames: FrameAllocator, pml4: nat, pdpt: nat, pds: nat, ram: nat)
      requires StaticLayout(pml4, pdpt, pds, frames.base)
      ensures this.frames == frames && kernelPml4 == pml4
      ensures mem == InitMem(pml4, pdpt, pds, GbCount(ram))
    {
      this.frames := frames;
      kernelPml4 := pml4;
      mem := map[];
      new;
      var gb := GbCount(ram);
      var t := 0;
      while t < gb
        invariant t <= gb && this.frames == frames && kernelPml4 == pml4
        invariant mem == PdTables(pds, t)
      {
        FillPd(pds + t * PAGE_SIZE, t);
        t := t + 1;
      }
      LinkPdpt(pdpt, pds, gb);
      ZeroFrame(pml4);
      Write(pml4, 0, pdpt + (PAGE_PRESENT + PAGE_WRITE));
      assert mem[pml4] == Pml4Table(pdpt);
    }

    /** The huge pages of one gigabyte. */
    method FillPd(pd: nat, t: nat)
      modifies this`mem
      ensures mem == old(mem)[pd := PdTable(t)]
    {
      ZeroFrame(pd);
      ghost var before := mem;
      var i := 0;
      while i < ENTRIES
        invariant i <= ENTRIES && pd in mem && mem == before[pd := mem[pd]] && |mem[pd]| == ENTRIES
        invariant forall k :: 0 <= k < i ==> mem[pd][k] == PdEntry(t, k)
      {
        Write(pd, i, t * 0x4000_0000 + i * 0x20_0000 + (PAGE_PRESENT + PAGE_WRITE + PAGE_HUGE));
        i := i + 1;
      }
      assert mem[pd] == PdTable(t);
    }

    method LinkPdpt(pdpt: nat, pds: nat, gb: nat)
      requires gb <= TABLES
      modifies this`mem
      ensures mem == old(mem)[pdpt := PdptTable(pds, gb)]
    {
      ZeroFrame(pdpt);
      ghost var before := mem;
      var t := 0;
      while t < gb
        invariant t <= gb && pdpt in mem && mem == before[pdpt := mem[pdpt]] && |mem[pdpt]| == ENTRIES
        invariant forall k :: 0 <= k < ENTRIES ==> mem[pdpt][k] == PdptEntry(pds, t, k)
      {
        Write(pdpt, t, pds + t * PAGE_SIZE + (PAGE_PRESENT + PAGE_WRITE));
        t := t + 1;
      }
      assert mem[pdpt] == PdptTable(pds, gb);
    }

    /** Every entry of the frame is empty, every other frame as it was. */
    method ZeroFrame(f: nat)
      modifies this`mem
      ensures forall i :: Entry(mem, f, i) == 0
      ensures forall g, i :: g != f ==> Entry(mem, g, i) == Entry(old(mem), g, i)
      ensures mem == old(mem)[f := ZeroTable()]
    {
      mem := mem[f := ZeroTable()];
    }

    /** One entry of a table there is room for, every other as it was. */
    method Write(t: nat, i: nat, e: nat)
      modifies this`mem
      ensures forall g, k :: !(g == t && k == i) ==> Entry(mem, g, k) == Entry(old(mem), g, k)
      ensures t in old(mem) && i < |old(mem)[t]| ==> Entry(mem, t, i) == e
      ensures mem == SetEntry(old(mem), t, i, e)
    {
      mem := SetEntry(mem, t, i, e);
    }

    /** Allocates, zeroes and hangs a table where entry i of table t has none. */
    method NewTable(t: nat, i: nat, flags: nat)
      requires !Present(Entry(mem, t, i))
      modifies this`mem, frames.bitmap
      ensures Space(mem, frames.Bits()) == EnsureTable(Space(old(mem), old(frames.Bits())), frames.base, t, i, flags)
    {
      var f := frames.AllocFrame();
      ZeroFrame(f);
      Write(t, i, f + (PAGE_PRESENT + PAGE_WRITE + UserBit(flags)));
    }

    /** Replaces a huge page by a table of 512 small ones. */
    method SplitHuge(pd: nat, i: nat)
      requires Present(Entry(mem, pd, i)) && Huge(Entry(mem, pd, i))
      modifies this`mem, frames.bitmap
      ensures Space(mem, frames.Bits()) == EnsurePt(Space(old(mem), old(frames.Bits())), frames.base, pd, i, 0)
    {
      hide HugeAddr, Attrs, WithPresent, WithoutHuge, AllocSpec;
      var e := Entry(mem, pd, i);
      var hugePhys := HugeAddr(e);
      var hugeFlags := WithoutHuge(Attrs(e));
      var pt := frames.AllocFrame();
      ZeroFrame(pt);
      ghost var before, bits := mem, frames.Bits();
      var k := 0;
      while k < ENTRIES
        invariant frames.Bits() == bits
        invariant k <= ENTRIES && pt in mem && mem == before[pt := mem[pt]] && |mem[pt]| == ENTRIES
        invariant forall j :: 0 <= j < k ==> mem[pt][j] == SplitEntry(e, j)
      {
        Write(pt, k, hugePhys + k * 0x1000 + WithPresent(hugeFlags));
        k := k + 1;
      }
      assert mem[pt] == SplitTable(e);
      assert mem == old(mem)[pt := SplitTable(e)];
      Write(pd, i, pt + WithPresent(hugeFlags));
    }

    /** Maps one 4 KB page, growing or splitting tables on the way down. */
    method MapPage(pml4: nat, virt: nat, phys: nat, flags: nat)
      modifies this`mem, frames.bitmap
      ensures Space(mem, frames.Bits()) ==
              MapPageSpec(Space(old(mem), old(frames.Bits())), frames.base, pml4, virt, phys, flags)
    {
      hide I1, I2, I3, I4, Addr, Present, Huge, LeafEntry, EnsureTable, EnsurePt;
      TableThere(Space(mem, frames.Bits()), frames.base, pml4, I4(virt), flags);
      if !Present(Entry(mem, pml4, I4(virt))) {
        NewTable(pml4, I4(virt), flags);
      }
      var pdpt := Addr(Entry(mem, pml4, I4(virt)));
      TableThere(Space(mem, frames.Bits()), frames.base, pdpt, I3(virt), flags);
      if !Present(Entry(mem, pdpt, I3(virt))) {
        NewTable(pdpt, I3(virt), flags);
      }
      var pd := Addr(Entry(mem, pdpt, I3(virt)));
      var pdEntry := Entry(mem, pd, I2(virt));
      SmallTableThere(Space(mem, frames.Bits()), frames.base, pd, I2(virt), flags);
      if !Present(pdEntry) {
        NewTable(pd, I2(virt), flags);
      } else if Huge(pdEntry) {
        SplitHuge(pd, I2(virt));
      }
      var pt := Addr(Entry(mem, pd, I2(virt)));
      Write(pt, I1(virt), LeafEntry(phys, flags));
    }

    static lemma TableThere(s: Space, base: nat, t: nat, i: nat, flags: nat)
      ensures Present(Entry(s.mem, t, i)) ==> EnsureTable(s, base, t, i, flags) == s
    {
      hide Present, Entry;
    }

    static lemma SmallTableThere(s: Space, base: nat, t: nat, i: nat, flags: nat)
      ensures var e := Entry(s.mem, t, i);
        EnsurePt(s, base, t, i, flags) ==
          if !Present(e) then EnsureTable(s, base, t, i, flags) else if Huge(e) then EnsurePt(s, base, t, i, 0) else s
    {
      hide Present, Huge, Entry, EnsureTable;
    }

    /** The root of a new space, or 0 when no frame is left. */
    method CreateSpace() returns (root: nat)
      modifies this`mem, frames.bitmap
      ensures (Space(mem, frames.Bits()), root) == CreateSpec(Space(old(mem), old(frames.Bits())), frames.base, kernelPml4)
    {
      root := frames.AllocFrame();
      if root == 0 { return; }
      var kernelSlot := Entry(mem, kernelPml4, 0);
      ZeroFrame(root);
      Write(root, 0, kernelSlot);
    }

    /** Frees everything hanging below root entries 1..511, then the root itself. */
    method DestroySpace(root: nat)
      modifies frames.bitmap
      ensures Space(mem, frames.Bits()) == DestroySpec(Space(mem, old(frames.Bits())), frames.base, root)
    {
      if root == 0 { return; }
      hide Addr, Present, Huge, PdptFrames, Entry;
      ghost var bits := frames.Bits();
      var i := 1;
      while i < ENTRIES
        invariant 1 <= i <= ENTRIES
        invariant frames.Bits() == FreeAll(bits, frames.base, RootFrames(mem, root, i))
      {
        var e := Entry(mem, root, i);
        if Present(e) {
          FreeBelowPdpt(Addr(e));
          frames.FreeFrame(Addr(e));
          Folded(bits, RootFrames(mem, root, i), PdptFrames(mem, Addr(e), ENTRIES), Addr(e));
        } else {
          assert RootFrames(mem, root, i) + [] == RootFrames(mem, root, i);
        }
        i := i + 1;
      }
      frames.FreeFrame(root);
      var xs := RootFrames(mem, root, ENTRIES);
      assert (xs + [root])[..|xs|] == xs;
    }

    method FreeBelowPdpt(pdpt: nat)
      modifies frames.bitmap
      ensures frames.Bits() == FreeAll(old(frames.Bits()), frames.base, PdptFrames(mem, pdpt, ENTRIES))
    {
      hide Addr, Present, Huge, PdFrames, FreeAll, Entry;
      ghost var bits := frames.Bits();
      Folded0(bits);
      var j := 0;
      while j < ENTRIES
        invariant 0 <= j <= ENTRIES
        invariant frames.Bits() == FreeAll(bits, frames.base, PdptFrames(mem, pdpt, j))
      {
        var e := Entry(mem, pdpt, j);
        if Present(e) {
          FreeBelowPd(Addr(e));
          frames.FreeFrame(Addr(e));
          Folded(bits, PdptFrames(mem, pdpt, j), PdFrames(mem, Addr(e), ENTRIES), Addr(e));
        } else {
          assert PdptFrames(mem, pdpt, j) + [] == PdptFrames(mem, pdpt, j);
        }
        j := j + 1;
      }
    }

    method FreeBelowPd(pd: nat)
      modifies frames.bitmap
      ensures frames.Bits() == FreeAll(old(frames.Bits()), frames.base, PdFrames(mem, pd, ENTRIES))
    {
      hide Addr, Present, Huge, PtFrames, FreeAll, Entry, HugeAddr;
      ghost var bits := frames.Bits();
      Folded0(bits);
      var k := 0;
      while k < ENTRIES
        invariant 0 <= k <= ENTRIES
        invariant frames.Bits() == FreeAll(bits, frames.base, PdFrames(mem, pd, k))
      {
        var e := Entry(mem, pd, k);
        if !Present(e) {
          assert PdFrames(mem, pd, k) + [] == PdFrames(mem, pd, k);
        } else if Huge(e) {
          Folded0(frames.Bits());
          frames.FreeFrame(HugeAddr(e));
          Folded(bits, PdFrames(mem, pd, k), [], HugeAddr(e));
          assert [] + [HugeAddr(e)] == [HugeAddr(e)];
        } else {
          FreeBelowPt(Addr(e));
          frames.FreeFrame(Addr(e));
          Folded(bits, PdFrames(mem, pd, k), PtFrames(mem, Addr(e), ENTRIES), Addr(e));
        }
        k := k + 1;
      }
    }

    method FreeBelowPt(pt: nat)
      modifies frames.bitmap
      ensures frames.Bits() == FreeAll(old(frames.Bits()), frames.base, PtFrames(mem, pt, ENTRIES))
    {
      hide Addr, Present, FreeAll, Entry;
      ghost var bits := frames.Bits();
      Folded0(bits);
      var l := 0;
      while l < ENTRIES
        invariant 0 <= l <= ENTRIES
        invariant frames.Bits() == FreeAll(bits, frames.base, PtFrames(mem, pt, l))
      {
        var e := Entry(mem, pt, l);
        if Present(e) {
          Folded0(frames.Bits());
          frames.FreeFrame(Addr(e));
          Folded(bits, PtFrames(mem, pt, l), [], Addr(e));
          assert [] + [Addr(e)] == [Addr(e)];
        } else {
          assert PtFrames(mem, pt, l) + [] == PtFrames(mem, pt, l);
        }
        l := l + 1;
      }
    }

    /** Freeing an empty list changes nothing. */
    lemma Folded0(bits: seq<bool>)
      ensures FreeAll(bits, frames.base, []) == bits
    {
    }

    /** Freeing xs, then ys, then y is freeing the concatenation. */
    lemma Folded(bits: seq<bool>, xs: seq<nat>, ys: seq<nat>, y: nat)
      ensures FreeSpec(FreeAll(FreeAll(bits, frames.base, xs), frames.base, ys), frames.base, y)
           == FreeAll(bits, frames.base, xs + (ys + [y]))
    {
      FreeAllAppend(bits, frames.base, xs, ys + [y]);
      var zs := ys + [y];
      assert zs[..|zs| - 1] == ys;
    }
  }
}
