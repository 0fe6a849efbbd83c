/** The kernel heap as a value: a list of blocks, first fit with splitting, and freeing with merging. */
module HeapBlocks {
  import opened Options

  const HEAP_START: nat := 0x800_0000
  const PAGE: nat := 4096
  const HEADER_SIZE: nat := 32
  const MIN_SPLIT: nat := 32
  const WORD: nat := 0x1_0000_0000_0000_0000

  datatype Blk = Blk(addr: nat, size: nat, used: bool)

  datatype Heap = Heap(blocks: seq<Blk>, current: nat, end: nat)

  // ----- sizes, in 64-bit arithmetic

  function Align16(x: nat): nat { (x + 15) % WORD / 16 * 16 }

  /** Bytes a request takes, header included, as the code computes it. */
  function Needed(size: nat): nat { (HEADER_SIZE + Align16(size)) % WORD }

  /** The computed size covers the request exactly when neither rounding up nor adding the header
      wraps around. */
  lemma NeededCovers(size: nat)
    requires 0 < size < WORD
    ensures Needed(size) >= size + HEADER_SIZE <==> size <= WORD - 48
    ensures size <= WORD - 48 ==> Needed(size) % 16 == 0 && 48 <= Needed(size) < size + HEADER_SIZE + 16
  {
    hide Align16;
    RoundedUp(size);
    var a := Align16(size);
    Wrapped(HEADER_SIZE + a);
  }

  /** Rounding up, unless it wraps. */
  lemma RoundedUp(size: nat)
    requires 0 < size < WORD
    ensures Align16(size) % 16 == 0 && Align16(size) < WORD
    ensures size <= WORD - 16 ==> size <= Align16(size) < size + 16
    ensures size > WORD - 16 ==> Align16(size) == 0
  {
    Sixteens(size + 15);
    if size > WORD - 16 {
      assert (size + 15) % WORD == size + 15 - WORD;
    }
  }

  lemma Sixteens(x: nat)
    ensures x / 16 * 16 <= x < x / 16 * 16 + 16 && x / 16 * 16 % 16 == 0
  {
  }

  lemma Wrapped(x: nat)
    requires x < 2 * WORD
    ensures x % WORD == if x < WORD then x else x - WORD
  {
  }

  /** The largest request: a block of 32 bytes, header only, would be handed out for it. */
  lemma HugeRequestGetsNothing()
    ensures Needed(WORD - 1) == HEADER_SIZE
  {
  }

  // ----- well-formed heaps

  ghost predicate BlockOk(b: Blk) { b.addr % 16 == 0 && b.size % 16 == 0 && b.size >= 48 }

  /** Blocks lie one after another from HEAP_START to current, with no gap and no overlap. */
  ghost predicate Tiled(blocks: seq<Blk>, current: nat) {
    && (forall i :: 0 <= i < |blocks| ==> BlockOk(blocks[i]))
    && (forall i :: 0 <= i < |blocks| - 1 ==> Joins(blocks, i))
    && (if blocks == [] then current == HEAP_START
        else blocks[0].addr == HEAP_START && End(blocks[|blocks| - 1]) == current)
  }

  ghost predicate Joins(blocks: seq<Blk>, i: int)
    requires 0 <= i < |blocks| - 1
  {
    End(blocks[i]) == blocks[i + 1].addr
  }

  function End(b: Blk): nat { b.addr + b.size }

  /** No two neighbours are both free. */
  ghost predicate Merged(blocks: seq<Blk>) {
    forall i :: 0 <= i < |blocks| - 1 ==> AnyUsed(blocks, i)
  }

  ghost predicate AnyUsed(blocks: seq<Blk>, i: int)
    requires 0 <= i < |blocks| - 1
  {
    blocks[i].used || blocks[i + 1].used
  }

  ghost predicate HeapInv(h: Heap) {
    Tiled(h.blocks, h.current) && Merged(h.blocks) && h.current <= h.end && h.end % PAGE == 0
  }

  /** Blocks do not overlap, in list order and in address order alike. */
  lemma {:induction false} Apart(blocks: seq<Blk>, current: nat, i: nat, j: nat)
    requires Tiled(blocks, current) && i < j < |blocks|
    ensures End(blocks[i]) <= blocks[j].addr && HEAP_START <= blocks[i].addr && End(blocks[j]) <= current
    decreases j - i
  {
    hide BlockOk;
    if i + 1 < j {
      Apart(blocks, current, i + 1, j);
      assert Joins(blocks, i) && BlockOk(blocks[i + 1]);
      Bounds(blocks, current, i);
    } else {
      assert Joins(blocks, i);
      Bounds(blocks, current, i);
      Bounds(blocks, current, j);
    }
  }

  lemma {:induction false} AtLeastStart(blocks: seq<Blk>, current: nat, i: nat)
    requires Tiled(blocks, current) && i < |blocks|
    ensures HEAP_START <= blocks[i].addr
    decreases i
  {
    hide BlockOk;
    if i > 0 {
      AtLeastStart(blocks, current, i - 1);
      assert Joins(blocks, i - 1);
    }
  }

  lemma {:induction false} AtMostCurrent(blocks: seq<Blk>, current: nat, i: nat)
    requires Tiled(blocks, current) && i < |blocks|
    ensures End(blocks[i]) <= current
    decreases |blocks| - i
  {
    hide BlockOk;
    if i + 1 < |blocks| {
      AtMostCurrent(blocks, current, i + 1);
      assert Joins(blocks, i);
    }
  }

  lemma Bounds(blocks: seq<Blk>, current: nat, i: nat)
    requires Tiled(blocks, current) && i < |blocks|
    ensures HEAP_START <= blocks[i].addr && End(blocks[i]) <= current && BlockOk(blocks[i])
  {
    hide BlockOk;
    AtLeastStart(blocks, current, i);
    AtMostCurrent(blocks, current, i);
  }

  /** A block is determined by its address. */
  lemma SameAddr(blocks: seq<Blk>, current: nat, i: nat, j: nat)
    requires Tiled(blocks, current) && i < |blocks| && j < |blocks| && blocks[i].addr == blocks[j].addr
    ensures i == j
  {
    if i < j {
      Apart(blocks, current, i, j);
      Bounds(blocks, current, i);
    } else if j < i {
      Apart(blocks, current, j, i);
      Bounds(blocks, current, j);
    }
  }

  // ----- replacing a stretch of blocks by others that cover the same bytes

  /** A nonempty run of adjoining blocks from address a to address e. */
  ghost predicate Run(s: seq<Blk>, a: nat, e: nat) {
    && s != [] && s[0].addr == a && End(s[|s| - 1]) == e
    && (forall i :: 0 <= i < |s| ==> BlockOk(s[i]))
    && (forall i :: 0 <= i < |s| - 1 ==> Joins(s, i))
  }

  lemma RunSplit(a: seq<Blk>, b: seq<Blk>)
    requires a != [] && b != []
    ensures Run(a + b, a[0].addr, End(b[|b| - 1])) <==>
            Run(a, a[0].addr, b[0].addr) && Run(b, b[0].addr, End(b[|b| - 1]))
  {
    hide BlockOk;
    var s := a + b;
    if Run(s, a[0].addr, End(b[|b| - 1])) {
      forall i | 0 <= i < |a| - 1 ensures Joins(a, i) {
        assert Joins(s, i);
      }
      forall i | 0 <= i < |b| - 1 ensures Joins(b, i) {
        assert Joins(s, |a| + i);
      }
      assert forall i :: 0 <= i < |a| ==> BlockOk(s[i]) && s[i] == a[i];
      assert forall i :: 0 <= i < |b| ==> BlockOk(s[|a| + i]) && s[|a| + i] == b[i];
      assert Joins(s, |a| - 1);
    }
    if Run(a, a[0].addr, b[0].addr) && Run(b, b[0].addr, End(b[|b| - 1])) {
      forall i | 0 <= i < |s| - 1 ensures Joins(s, i) {
        if i < |a| - 1 {
          assert Joins(a, i);
        } else if i >= |a| {
          assert Joins(b, i - |a|);
        }
      }
      forall i | 0 <= i < |s| ensures BlockOk(s[i]) {
        assert if i < |a| then BlockOk(a[i]) else BlockOk(b[i - |a|]);
      }
    }
  }

  lemma TiledRun(blocks: seq<Blk>, current: nat)
    requires blocks != []
    ensures Tiled(blocks, current) <==> Run(blocks, HEAP_START, current)
  {
    hide BlockOk;
  }

  lemma ReplaceAfter(a: seq<Blk>, x: seq<Blk>, y: seq<Blk>, lo: nat, hi: nat)
    requires Run(a + x, lo, hi) && x != [] && Run(y, x[0].addr, End(x[|x| - 1]))
    ensures Run(a + y, lo, hi)
  {
    hide Run;
    RunEnds(y, x[0].addr, End(x[|x| - 1]));
    RunEnds(a + x, lo, hi);
    if a != [] {
      RunSplit(a, x);
      RunSplit(a, y);
    } else {
      assert a + x == x && a + y == y;
    }
  }

  /** Swapping a run for another over the same bytes keeps the tiling. */
  lemma Replace(a: seq<Blk>, x: seq<Blk>, y: seq<Blk>, b: seq<Blk>, current: nat)
    requires Tiled(a + x + b, current) && x != [] && Run(y, x[0].addr, End(x[|x| - 1]))
    ensures Tiled(a + y + b, current)
  {
    hide Tiled, Run;
    RunEnds(y, x[0].addr, End(x[|x| - 1]));
    TiledRun(a + x + b, current);
    TiledRun(a + y + b, current);
    if b != [] {
      RunEnds(a + x + b, HEAP_START, current);
      RunSplit(a + x, b);
      RunEnds(a + x, (a + x)[0].addr, b[0].addr);
      ReplaceAfter(a, x, y, HEAP_START, b[0].addr);
      RunSplit(a + y, b);
      RunEnds(a + y, HEAP_START, b[0].addr);
    } else {
      assert a + x + b == a + x && a + y + b == a + y;
      ReplaceAfter(a, x, y, HEAP_START, current);
    }
  }

  lemma RunEnds(s: seq<Blk>, a: nat, e: nat)
    requires Run(s, a, e)
    ensures s != [] && s[0].addr == a && End(s[|s| - 1]) == e
  {
  }

  // ----- allocation

  /** The first free block, in address order, of at least `total` bytes. */
  function FirstFit(blocks: seq<Blk>, total: nat, from: nat): (i: nat)
    requires from <= |blocks|
    ensures from <= i <= |blocks|
    ensures i < |blocks| ==> !blocks[i].used && blocks[i].size >= total
    ensures forall k :: from <= k < i ==> blocks[k].used || blocks[k].size < total
    decreases |blocks| - from
  {
    if from == |blocks| || (!blocks[from].used && blocks[from].size >= total) then from else FirstFit(blocks, total, from + 1)
  }

  /** Block i, cut if what is left over is worth keeping. */
  function Cut(b: Blk, total: nat): (r: seq<Blk>)
    requires b.size >= total
    ensures |r| == 1 || |r| == 2
  {
    if b.size <= total + MIN_SPLIT then [b] else [Blk(b.addr, total, b.used), Blk(b.addr + total, b.size - total, false)]
  }

  function Use(s: seq<Blk>): seq<Blk>
    requires s != []
  {
    s[0 := s[0].(used := true)]
  }

  function Placed(blocks: seq<Blk>, i: nat, total: nat): seq<Blk>
    requires i < |blocks| && blocks[i].size >= total
  {
    blocks[..i] + Use(Cut(blocks[i], total)) + blocks[i + 1..]
  }

  /** Where the heap would end after `total` more bytes, as the code computes it. */
  function Sum(h: Heap, total: nat): nat { Add64(h.current, total) }

  function Add64(a: nat, b: nat): nat { (a + b) % WORD }

  /** Pages to map before that sum is no longer above the end. */
  function PagesFor(h: Heap, total: nat): nat {
    if Sum(h, total) <= h.end then 0 else (Sum(h, total) - h.end + PAGE - 1) / PAGE
  }

  /** The request is served from a free block, or the new end of the heap does not wrap around. */
  predicate Safe(h: Heap, total: nat) {
    FirstFit(h.blocks, total, 0) < |h.blocks| || h.current + total < WORD
  }

  /** Outcome of an allocation: the heap, the payload address (0 when memory is exhausted) and the
      page frames left. */
  datatype Grant = Grant(h: Heap, p: nat, frames: nat)

  /** An allocation of `total` bytes, header included. */
  function MallocSpec(h: Heap, total: nat, frames: nat): Grant {
    var i := FirstFit(h.blocks, total, 0);
    if i < |h.blocks| then Grant(h.(blocks := Placed(h.blocks, i, total)), h.blocks[i].addr + HEADER_SIZE, frames)
    else if frames < PagesFor(h, total) then Grant(h.(end := h.end + frames * PAGE), 0, 0)
    else Grant(Heap(h.blocks + [Blk(h.current, total, true)], Sum(h, total), h.end + PagesFor(h, total) * PAGE),
               h.current + HEADER_SIZE, frames - PagesFor(h, total))
  }

  lemma CutRun(b: Blk, total: nat)
    requires BlockOk(b) && b.size >= total >= 48 && total % 16 == 0
    ensures Run(Use(Cut(b, total)), b.addr, End(b))
  {
    var rest := b.size - total;
    assert rest % 16 == 0;
  }

  lemma PlacedTiled(blocks: seq<Blk>, current: nat, i: nat, total: nat)
    requires Tiled(blocks, current) && i < |blocks| && blocks[i].size >= total >= 48 && total % 16 == 0
    ensures Tiled(Placed(blocks, i, total), current)
  {
    hide BlockOk, Run, Cut, Use;
    assert blocks == blocks[..i] + [blocks[i]] + blocks[i + 1..];
    assert BlockOk(blocks[i]);
    CutRun(blocks[i], total);
    Replace(blocks[..i], [blocks[i]], Use(Cut(blocks[i], total)), blocks[i + 1..], current);
  }

  lemma PlacedMerged(blocks: seq<Blk>, i: nat, total: nat)
    requires Merged(blocks) && i < |blocks| && blocks[i].size >= total && !blocks[i].used
    ensures Merged(Placed(blocks, i, total))
  {
    var r := Placed(blocks, i, total);
    var n := |Cut(blocks[i], total)|;
    forall k | 0 <= k < |r| - 1 ensures AnyUsed(r, k) {
      if k < i - 1 {
        assert AnyUsed(blocks, k);
      } else if k == i - 1 || k == i {
        assert r[i].used;
      } else if k == i + 1 && n == 2 {
        assert r[k + 1] == blocks[i + 1];
        assert AnyUsed(blocks, i);
      } else {
        assert r[k] == blocks[k - n + 1] && r[k + 1] == blocks[k - n + 2];
        assert AnyUsed(blocks, k - n + 1);
      }
    }
  }

  lemma Appended(blocks: seq<Blk>, current: nat, total: nat)
    requires Tiled(blocks, current) && Merged(blocks) && total % 16 == 0 && total >= 48
    ensures Tiled(blocks + [Blk(current, total, true)], current + total) && Merged(blocks + [Blk(current, total, true)])
  {
    var r := blocks + [Blk(current, total, true)];
    AlignedCurrent(blocks, current);
    forall k | 0 <= k < |r| - 1 ensures Joins(r, k) && AnyUsed(r, k) {
      if k < |blocks| - 1 {
        assert Joins(blocks, k) && AnyUsed(blocks, k);
      }
    }
  }

  lemma AlignedCurrent(blocks: seq<Blk>, current: nat)
    requires Tiled(blocks, current)
    ensures current % 16 == 0 && current >= HEAP_START
  {
    if blocks != [] {
      Bounds(blocks, current, |blocks| - 1);
    }
  }

  lemma PagesEnough(h: Heap, total: nat)
    requires h.end % PAGE == 0
    ensures Sum(h, total) <= h.end + PagesFor(h, total) * PAGE
    ensures forall k: nat :: k < PagesFor(h, total) ==> Sum(h, total) > h.end + k * PAGE
    ensures forall k: nat :: (h.end + k * PAGE) % PAGE == 0
  {
    hide Sum;
    var n := PagesFor(h, total);
    if n > 0 {
      var short := Sum(h, total) - h.end;
      assert (short + PAGE - 1) / PAGE == n && n * PAGE >= short && (n - 1) * PAGE < short;
      forall k: nat | k < n ensures Sum(h, total) > h.end + k * PAGE {
        assert k * PAGE <= (n - 1) * PAGE;
      }
    }
  }

  /** Block b is what the allocation handed out. */
  predicate Granted(h: Heap, g: Grant, total: nat, b: Blk) {
    && b.used && g.p == b.addr + HEADER_SIZE && b.size >= total && b !in h.blocks
    && g.p % 16 == 0 && End(b) <= g.h.end
  }

  predicate NoneFits(blocks: seq<Blk>, total: nat) { forall b :: b in blocks && !b.used ==> b.size < total }

  /** Without wrapping, allocation keeps the heap well formed, and what it hands out is a 16-aligned payload inside the
      mapped range, in a used block of at least the size asked for that held no one's payload
      before; every block that was in use stays as it was. */
  lemma MallocKeeps(h: Heap, total: nat, frames: nat)
    requires HeapInv(h) && total % 16 == 0 && total >= 48 && Safe(h, total)
    ensures HeapInv(MallocSpec(h, total, frames).h)
    ensures MallocSpec(h, total, frames).p != 0 ==>
              exists b :: b in MallocSpec(h, total, frames).h.blocks && Granted(h, MallocSpec(h, total, frames), total, b)
    ensures forall b :: b in h.blocks && b.used ==> b in MallocSpec(h, total, frames).h.blocks
    ensures MallocSpec(h, total, frames).p == 0 ==> MallocSpec(h, total, frames).h.blocks == h.blocks && NoneFits(h.blocks, total)
  {
    hide BlockOk, Tiled, Merged, Placed, PagesFor, Granted, NoneFits;
    var g := MallocSpec(h, total, frames);
    var i := FirstFit(h.blocks, total, 0);
    if i < |h.blocks| {
      ServedKeeps(h, total, frames, i);
      assert g.h.blocks[i] in g.h.blocks;
    } else {
      GrownKeeps(h, total, frames);
      if g.p != 0 {
        assert Blk(h.current, total, true) in g.h.blocks;
      }
    }
  }

  lemma ServedKeeps(h: Heap, total: nat, frames: nat, i: nat)
    requires HeapInv(h) && total % 16 == 0 && total >= 48
    requires i == FirstFit(h.blocks, total, 0) < |h.blocks|
    ensures var g := MallocSpec(h, total, frames);
            && HeapInv(g.h) && g.p != 0 && i < |g.h.blocks| && Granted(h, g, total, g.h.blocks[i])
            && forall b :: b in h.blocks && b.used ==> b in g.h.blocks
  {
    hide BlockOk, Tiled, Merged, Placed;
    var g := MallocSpec(h, total, frames);
    PlacedTiled(h.blocks, h.current, i, total);
    PlacedMerged(h.blocks, i, total);
    PlacedHolds(h.blocks, h.current, i, total);
    Bounds(g.h.blocks, h.current, i);
    OkFacts(g.h.blocks[i]);
  }

  lemma MallocEnd(h: Heap, total: nat, frames: nat)
    requires FirstFit(h.blocks, total, 0) == |h.blocks|
    ensures MallocSpec(h, total, frames) ==
      if frames < PagesFor(h, total) then Grant(h.(end := h.end + frames * PAGE), 0, 0)
      else Grant(Heap(h.blocks + [Blk(h.current, total, true)], Sum(h, total), h.end + PagesFor(h, total) * PAGE),
                 h.current + HEADER_SIZE, frames - PagesFor(h, total))
  {
    hide FirstFit, PagesFor, Sum;
  }

  lemma GrownKeeps(h: Heap, total: nat, frames: nat)
    requires HeapInv(h) && total % 16 == 0 && total >= 48 && h.current + total < WORD
    requires FirstFit(h.blocks, total, 0) == |h.blocks|
    ensures var g := MallocSpec(h, total, frames);
            && HeapInv(g.h) && (forall b :: b in h.blocks ==> b in g.h.blocks)
            && (g.p != 0 ==> g.h.blocks == h.blocks + [Blk(h.current, total, true)] && Granted(h, g, total, Blk(h.current, total, true)))
            && (g.p == 0 ==> g.h.blocks == h.blocks && NoneFits(h.blocks, total))
  {
    hide BlockOk, Tiled, Merged, Placed, PagesFor, FirstFit, MallocSpec, NoneFits, Sum;
    MallocEnd(h, total, frames);
    SumExact(h, total);
    NoFit(h.blocks, total);
    PagesEnough(h, total);
    AlignedCurrent(h.blocks, h.current);
    Appended(h.blocks, h.current, total);
    NotYet(h, Blk(h.current, total, true));
  }

  lemma SumExact(h: Heap, total: nat)
    requires h.current < WORD && total < WORD
    ensures Sum(h, total) == if h.current + total < WORD then h.current + total else h.current + total - WORD
  {
    Wrapped(h.current + total);
  }

  /** An allocation leaves a well-formed heap if and only if it is served from a free block or the new
      end of the heap does not wrap around. Otherwise it is granted without mapping a page: the block
      runs beyond the mapped range and the end of the heap moves down. */
  lemma MallocExact(h: Heap, total: nat, frames: nat)
    requires HeapInv(h) && total % 16 == 0 && 48 <= total < WORD && h.end < WORD
    ensures HeapInv(MallocSpec(h, total, frames).h) <==> Safe(h, total)
    ensures !Safe(h, total) ==>
      MallocSpec(h, total, frames) ==
      Grant(Heap(h.blocks + [Blk(h.current, total, true)], h.current + total - WORD, h.end), h.current + HEADER_SIZE, frames)
    ensures !Safe(h, total) ==> h.current + total - WORD < h.current && h.end < End(Blk(h.current, total, true))
  {
    hide BlockOk, FirstFit, Placed;
    if Safe(h, total) {
      hide MallocSpec, HeapInv, Granted, NoneFits;
      MallocKeeps(h, total, frames);
    } else {
      hide MallocSpec, Sum;
      MallocEnd(h, total, frames);
      SumExact(h, total);
      var bs := h.blocks + [Blk(h.current, total, true)];
      assert bs[|bs| - 1] == Blk(h.current, total, true);
    }
  }

  lemma NoFit(blocks: seq<Blk>, total: nat)
    requires FirstFit(blocks, total, 0) == |blocks|
    ensures NoneFits(blocks, total)
  {
  }

  lemma OkFacts(b: Blk)
    requires BlockOk(b)
    ensures b.addr % 16 == 0 && b.size % 16 == 0 && b.size >= 48
  {
  }

  lemma NotYet(h: Heap, b: Blk)
    requires Tiled(h.blocks, h.current) && b.addr == h.current
    ensures b !in h.blocks
  {
    if b in h.blocks {
      var k :| 0 <= k < |h.blocks| && h.blocks[k] == b;
      Bounds(h.blocks, h.current, k);
    }
  }

  lemma PlacedHolds(blocks: seq<Blk>, current: nat, i: nat, total: nat)
    requires Tiled(blocks, current) && i < |blocks| && blocks[i].size >= total && !blocks[i].used && Tiled(Placed(blocks, i, total), current)
    ensures var r := Placed(blocks, i, total);
            && i < |r| && r[i].used && r[i].addr == blocks[i].addr && r[i].size >= total
            && Blk(r[i].addr, r[i].size, true) !in blocks
            && (forall b :: b in blocks && b.used ==> b in r)
  {
    hide Tiled;
    var r := Placed(blocks, i, total);
    var x := Blk(r[i].addr, r[i].size, true);
    if x in blocks {
      var k :| 0 <= k < |blocks| && blocks[k] == x;
      SameAddr(blocks, current, i, k);
    }
    forall b | b in blocks && b.used ensures b in r {
      var k :| 0 <= k < |blocks| && blocks[k] == b;
      if k < i {
        assert r[k] == b;
      } else {
        var n := |Cut(blocks[i], total)|;
        assert r[k + n - 1] == b;
      }
    }
  }

  /** First fit is lowest fit: every free block below the one chosen is too small. */
  lemma LowestFit(h: Heap, total: nat, frames: nat, b: Blk)
    requires HeapInv(h) && FirstFit(h.blocks, total, 0) < |h.blocks|
    requires b in h.blocks && !b.used && b.size >= total
    ensures MallocSpec(h, total, frames).p <= b.addr + HEADER_SIZE
  {
    hide BlockOk;
    var i := FirstFit(h.blocks, total, 0);
    var k :| 0 <= k < |h.blocks| && h.blocks[k] == b;
    if i < k {
      Apart(h.blocks, h.current, i, k);
    }
  }

  // ----- freeing

  /** Index of the block at address a; |blocks| when there is none. */
  function IndexOf(blocks: seq<Blk>, a: int): (i: nat)
    ensures i <= |blocks|
    ensures i < |blocks| ==> blocks[i].addr == a
    ensures forall k :: 0 <= k < i ==> blocks[k].addr != a
  {
    if blocks == [] || blocks[0].addr == a then 0 else IndexOf(blocks[1..], a) + 1
  }

  /** Block i takes over the block after it. */
  function Merge(blocks: seq<Blk>, i: nat): seq<Blk>
    requires i + 1 < |blocks|
  {
    blocks[..i] + [Blk(blocks[i].addr, blocks[i].size + blocks[i + 1].size, blocks[i].used)] + blocks[i + 2..]
  }

  function MergeNext(blocks: seq<Blk>, i: nat): seq<Blk>
    requires i < |blocks|
  {
    if i + 1 < |blocks| && !blocks[i + 1].used then Merge(blocks, i) else blocks
  }

  function MergePrev(blocks: seq<Blk>, i: nat): seq<Blk>
    requires i < |blocks|
  {
    if i > 0 && !blocks[i - 1].used then MergeNext(blocks, i - 1) else blocks
  }

  function Freed(blocks: seq<Blk>, i: nat): seq<Blk>
    requires i < |blocks|
  {
    blocks[i := blocks[i].(used := false)]
  }

  function FreeAt(blocks: seq<Blk>, i: nat): seq<Blk>
    requires i < |blocks|
  {
    MergePrev(MergeNext(Freed(blocks, i), i), i)
  }

  /** Freeing a payload address: what is not the payload of a used block is left alone. */
  function FreeSpec(h: Heap, p: nat): Heap {
    var i := IndexOf(h.blocks, p - HEADER_SIZE);
    if p < HEADER_SIZE || i == |h.blocks| || !h.blocks[i].used then h else h.(blocks := FreeAt(h.blocks, i))
  }

  lemma MergeTiled(blocks: seq<Blk>, current: nat, i: nat)
    requires Tiled(blocks, current) && i + 1 < |blocks|
    ensures Tiled(Merge(blocks, i), current)
  {
    hide BlockOk, Run;
    var a, b := blocks[i], blocks[i + 1];
    assert blocks == blocks[..i] + [a, b] + blocks[i + 2..];
    assert Joins(blocks, i) && BlockOk(a) && BlockOk(b);
    var m := Blk(a.addr, a.size + b.size, a.used);
    assert Run([m], a.addr, End(b)) by { OneRun(a, b); }
    Replace(blocks[..i], [a, b], [m], blocks[i + 2..], current);
  }

  lemma OneRun(a: Blk, b: Blk)
    requires BlockOk(a) && BlockOk(b) && End(a) == b.addr
    ensures Run([Blk(a.addr, a.size + b.size, a.used)], a.addr, End(b))
  {
  }

  lemma FreedTiled(blocks: seq<Blk>, current: nat, i: nat)
    requires Tiled(blocks, current) && i < |blocks|
    ensures Tiled(Freed(blocks, i), current)
  {
    var r := Freed(blocks, i);
    forall k | 0 <= k < |r| - 1 ensures Joins(r, k) {
      assert Joins(blocks, k);
    }
    forall k | 0 <= k < |r| ensures BlockOk(r[k]) {
      assert BlockOk(blocks[k]);
    }
  }

  /** Neighbours everywhere except around block i. */
  ghost predicate MergedBut(blocks: seq<Blk>, i: nat) {
    forall k :: 0 <= k < |blocks| - 1 && k != i && k + 1 != i ==> AnyUsed(blocks, k)
  }

  lemma MergeNextMerged(blocks: seq<Blk>, i: nat)
    requires i < |blocks| && MergedBut(blocks, i) && !blocks[i].used
    ensures var r := MergeNext(blocks, i);
            && i < |r| && !r[i].used && r[i].addr == blocks[i].addr && r[..i] == blocks[..i]
            && forall k :: 0 <= k < |r| - 1 && k + 1 != i ==> AnyUsed(r, k)
  {
    var r := MergeNext(blocks, i);
    forall k | 0 <= k < |r| - 1 && k + 1 != i ensures AnyUsed(r, k) {
      if |r| == |blocks| {
        if k == i {
          assert r[i + 1].used;
        } else {
          assert AnyUsed(blocks, k);
        }
      } else if k < i {
        assert AnyUsed(blocks, k);
      } else if k == i {
        assert r[i + 1] == blocks[i + 2];
        assert AnyUsed(blocks, i + 1);
      } else {
        assert r[k] == blocks[k + 1] && r[k + 1] == blocks[k + 2];
        assert AnyUsed(blocks, k + 1);
      }
    }
  }

  lemma MergePrevMerged(blocks: seq<Blk>, i: nat)
    requires i < |blocks| && !blocks[i].used
    requires forall k :: 0 <= k < |blocks| - 1 && k + 1 != i ==> AnyUsed(blocks, k)
    ensures Merged(MergePrev(blocks, i))
  {
    var r := MergePrev(blocks, i);
    forall k | 0 <= k < |r| - 1 ensures AnyUsed(r, k) {
      if |r| == |blocks| {
        if k + 1 == i {
          assert blocks[i - 1].used;
        } else {
          assert AnyUsed(blocks, k);
        }
      } else if k < i - 1 {
        assert AnyUsed(blocks, k);
        assert r[k + 1].used == blocks[k + 1].used;
      } else {
        assert r[k + 1] == blocks[k + 2];
        assert AnyUsed(blocks, k + 1);
        assert k >= i ==> r[k] == blocks[k + 1];
      }
    }
  }

  lemma FreeAtKeeps(blocks: seq<Blk>, current: nat, i: nat)
    requires Tiled(blocks, current) && Merged(blocks) && i < |blocks| && blocks[i].used
    ensures Tiled(FreeAt(blocks, i), current) && Merged(FreeAt(blocks, i))
  {
    hide BlockOk, Tiled;
    var f := Freed(blocks, i);
    FreedTiled(blocks, current, i);
    assert MergedBut(f, i) by {
      forall k | 0 <= k < |f| - 1 && k != i && k + 1 != i ensures AnyUsed(f, k) {
        assert AnyUsed(blocks, k);
      }
    }
    MergeNextMerged(f, i);
    var g := MergeNext(f, i);
    if |g| < |f| {
      MergeTiled(f, current, i);
    }
    MergePrevMerged(g, i);
    if i > 0 && !g[i - 1].used {
      MergeTiled(g, current, i - 1);
    }
  }

  /** The used blocks. */
  function UsedOf(blocks: seq<Blk>): set<Blk> { set b | b in blocks && b.used }

  lemma FreeAtUsed(blocks: seq<Blk>, current: nat, i: nat)
    requires Tiled(blocks, current) && i < |blocks| && blocks[i].used
    ensures UsedOf(FreeAt(blocks, i)) == UsedOf(blocks) - {blocks[i]}
  {
    hide BlockOk, Tiled;
    var f := Freed(blocks, i);
    var g := MergeNext(f, i);
    MergeUsed(f, i);
    if i > 0 && !g[i - 1].used {
      MergeUsed(g, i - 1);
    }
    forall b ensures b in UsedOf(f) <==> b in UsedOf(blocks) - {blocks[i]} {
      if b in UsedOf(f) {
        var k :| 0 <= k < |f| && f[k] == b;
        assert k != i && blocks[k] == b;
        if b == blocks[i] {
          SameAddr(blocks, current, i, k);
        }
      }
      if b in UsedOf(blocks) - {blocks[i]} {
        var k :| 0 <= k < |blocks| && blocks[k] == b;
        assert f[k] == b;
      }
    }
  }

  lemma MergeUsed(blocks: seq<Blk>, i: nat)
    requires i < |blocks| && !blocks[i].used
    ensures UsedOf(MergeNext(blocks, i)) == UsedOf(blocks)
  {
    var r := MergeNext(blocks, i);
    if |r| < |blocks| {
      forall b: Blk | b.used ensures b in r <==> b in blocks {
        if b in r {
          var k :| 0 <= k < |r| && r[k] == b;
          assert b == if k < i then blocks[k] else blocks[k + 1];
        }
        if b in blocks {
          var k :| 0 <= k < |blocks| && blocks[k] == b;
          assert b == if k < i then r[k] else r[k - 1];
        }
      }
    }
  }

  /** Freeing keeps the heap well formed and takes exactly the freed block out of use; freeing a null
      or already freed address, or one the heap never handed out, changes nothing. */
  lemma FreeKeeps(h: Heap, p: nat)
    requires HeapInv(h)
    ensures HeapInv(FreeSpec(h, p))
    ensures UsedOf(FreeSpec(h, p).blocks) == (set b: Blk | b in UsedOf(h.blocks) && b.addr + HEADER_SIZE != p)
    ensures (forall b: Blk :: b in h.blocks && b.used ==> b.addr + HEADER_SIZE != p) ==> FreeSpec(h, p) == h
    ensures FreeSpec(FreeSpec(h, p), p) == FreeSpec(h, p)
  {
    hide BlockOk, Tiled, Merged, FreeAt;
    FreeOnce(h, p);
    var h1 := FreeSpec(h, p);
    FreeOnce(h1, p);
    assert forall b: Blk :: b in h1.blocks && b.used ==> b in UsedOf(h1.blocks);
  }

  lemma FreeOnce(h: Heap, p: nat)
    requires HeapInv(h)
    ensures HeapInv(FreeSpec(h, p))
    ensures UsedOf(FreeSpec(h, p).blocks) == (set b: Blk | b in UsedOf(h.blocks) && b.addr + HEADER_SIZE != p)
    ensures (forall b: Blk :: b in h.blocks && b.used ==> b.addr + HEADER_SIZE != p) ==> FreeSpec(h, p) == h
  {
    hide BlockOk, Tiled, Merged, FreeAt;
    var i := IndexOf(h.blocks, p - HEADER_SIZE);
    if p >= HEADER_SIZE && i < |h.blocks| && h.blocks[i].used {
      FreeAtKeeps(h.blocks, h.current, i);
      FreeAtUsed(h.blocks, h.current, i);
      forall b | b in UsedOf(h.blocks) ensures b == h.blocks[i] <==> b.addr + HEADER_SIZE == p {
        var k :| 0 <= k < |h.blocks| && h.blocks[k] == b;
        if b.addr + HEADER_SIZE == p {
          SameAddr(h.blocks, h.current, i, k);
        }
      }
    } else {
      forall b | b in UsedOf(h.blocks) ensures b.addr + HEADER_SIZE != p {
        var k :| 0 <= k < |h.blocks| && h.blocks[k] == b;
        if b.addr + HEADER_SIZE == p {
          assert i <= k;
          if i < k {
            SameAddr(h.blocks, h.current, i, k);
          }
        }
      }
    }
  }

  // ----- whole runs

  datatype Op = Malloc(size: nat) | Free(p: nat)

  datatype Machine = Machine(h: Heap, frames: nat)

  /** The heap as heap_init leaves it, or untouched when there was no frame. */
  function Boot(frames: nat): Machine {
    if frames == 0 then Machine(Heap([], HEAP_START, HEAP_START), 0)
    else Machine(Heap([Blk(HEAP_START, PAGE, false)], HEAP_START + PAGE, HEAP_START + PAGE), frames - 1)
  }

  function Apply(m: Machine, op: Op): Machine {
    match op
    case Malloc(size) =>
      if size == 0 then m else
      var g := MallocSpec(m.h, Needed(size), m.frames);
      Machine(g.h, g.frames)
    case Free(p) => m.(h := FreeSpec(m.h, p))
  }

  function Runs(m: Machine, ops: seq<Op>): Machine
    decreases |ops|
  {
    if ops == [] then m else Runs(Apply(m, ops[0]), ops[1..])
  }

  /** A request whose size does not wrap around when rounded up, nor the heap when it grows. */
  predicate SafeOp(m: Machine, op: Op) {
    op.Malloc? && op.size > 0 ==> op.size <= WORD - 48 && Safe(m.h, Needed(op.size))
  }

  predicate SafeRun(m: Machine, ops: seq<Op>)
    decreases |ops|
  {
    ops == [] || (SafeOp(m, ops[0]) && SafeRun(Apply(m, ops[0]), ops[1..]))
  }

  lemma StepKeeps(m: Machine, op: Op)
    requires HeapInv(m.h) && SafeOp(m, op)
    ensures HeapInv(Apply(m, op).h)
    ensures forall b :: b in UsedOf(m.h.blocks) && op != Free(b.addr + HEADER_SIZE) ==> b in UsedOf(Apply(m, op).h.blocks)
  {
    hide HeapInv, MallocSpec, FreeSpec, Needed, Safe;
    match op
    case Malloc(size) =>
      if size > 0 {
        NeededCovers(size);
        MallocKeeps(m.h, Needed(size), m.frames);
      }
    case Free(p) => FreeKeeps(m.h, p);
  }

  /** In every run of allocations and frees in which nothing wraps around, whatever the addresses
      freed: the blocks tile the heap, no two neighbours are both free, and the heap stays inside the
      mapped range. */
  lemma {:induction false} RunKeeps(m: Machine, ops: seq<Op>)
    requires HeapInv(m.h) && SafeRun(m, ops)
    ensures HeapInv(Runs(m, ops).h)
    decreases |ops|
  {
    hide HeapInv, Apply, SafeOp;
    if ops != [] {
      StepKeeps(m, ops[0]);
      RunKeeps(Apply(m, ops[0]), ops[1..]);
    }
  }

  // ----- which runs those are

  /** What the heap's end would be with every frame mapped: no call changes it. */
  function Limit(m: Machine): nat { m.h.end + m.frames * PAGE }

  lemma LimitKept(m: Machine, op: Op)
    ensures Limit(Apply(m, op)) == Limit(m)
  {
    hide FirstFit, Placed, Needed, Sum, FreeAt, IndexOf;
    if op.Malloc? && op.size > 0 {
      var n := PagesFor(m.h, Needed(op.size));
      hide PagesFor;
      assert m.frames >= n ==> (m.frames - n) * PAGE + n * PAGE == m.frames * PAGE;
    }
  }

  /** The step's outcome is sound: the block is computed large enough for the request, and the heap
      stays well formed and inside the mapped range. */
  ghost predicate Sound(m: Machine, op: Op) {
    && (op.Malloc? && op.size > 0 ==> Needed(op.size) >= op.size + HEADER_SIZE)
    && HeapInv(Apply(m, op).h)
  }

  ghost predicate SoundRun(m: Machine, ops: seq<Op>)
    decreases |ops|
  {
    ops == [] || (Sound(m, ops[0]) && SoundRun(Apply(m, ops[0]), ops[1..]))
  }

  predicate Sizes64(ops: seq<Op>) { forall k :: 0 <= k < |ops| && ops[k].Malloc? ==> ops[k].size < WORD }

  lemma StepExact(m: Machine, op: Op)
    requires HeapInv(m.h) && m.h.end < WORD && (op.Malloc? ==> op.size < WORD)
    ensures Sound(m, op) <==> SafeOp(m, op)
  {
    hide HeapInv, MallocSpec, FreeSpec, Needed, Safe;
    match op
    case Malloc(size) =>
      if size > 0 {
        NeededCovers(size);
        if size <= WORD - 48 {
          NeededBelow(size);
          MallocExact(m.h, Needed(size), m.frames);
        }
      }
    case Free(p) => FreeKeeps(m.h, p);
  }

  lemma NeededBelow(size: nat)
    ensures Needed(size) < WORD
  {
  }

  /** For all 64-bit sizes, as long as the memory there is ends below 2^64: every step of a run is sound
      if and only if, at every allocation, neither rounding up nor growing the heap wraps around. */
  lemma {:induction false} RunExact(m: Machine, ops: seq<Op>)
    requires HeapInv(m.h) && Limit(m) < WORD && Sizes64(ops)
    ensures SoundRun(m, ops) <==> SafeRun(m, ops)
    decreases |ops|
  {
    hide HeapInv, Apply, Sound, SafeOp;
    if ops != [] {
      StepExact(m, ops[0]);
      LimitKept(m, ops[0]);
      if SafeOp(m, ops[0]) {
        StepKeeps(m, ops[0]);
        RunExact(Apply(m, ops[0]), ops[1..]);
      }
    }
  }

  /** Each request and all the memory there is fit below 2^64 together. */
  predicate SizesOk(ops: seq<Op>, limit: nat) {
    forall k :: 0 <= k < |ops| && ops[k].Malloc? ==> ops[k].size + 48 + limit <= WORD
  }

  /** Nothing wraps around in a run of such requests, whatever came before. */
  lemma {:induction false} BoundedSafe(m: Machine, ops: seq<Op>)
    requires HeapInv(m.h) && SizesOk(ops, Limit(m))
    ensures SafeRun(m, ops)
    decreases |ops|
  {
    hide HeapInv, Apply, SafeOp;
    if ops != [] {
      BoundedStep(m, ops[0]);
      LimitKept(m, ops[0]);
      StepKeeps(m, ops[0]);
      BoundedSafe(Apply(m, ops[0]), ops[1..]);
    }
  }

  lemma BoundedStep(m: Machine, op: Op)
    requires HeapInv(m.h) && (op.Malloc? ==> op.size + 48 + Limit(m) <= WORD)
    ensures SafeOp(m, op)
  {
    hide Tiled, Merged, Needed, FirstFit;
    if op.Malloc? && op.size > 0 {
      NeededCovers(op.size);
    }
  }

  /** Right after start-up with one frame, a request of 2^64 - 64 bytes, whose size rounds up without
      wrapping, is granted though no page is mapped for it: its block runs past the mapped range, and
      the end of the heap moves 32 bytes down. */
  lemma WrappedGrant()
    ensures var m, total := Boot(1), Needed(WORD - 64);
      && total == WORD - 32 && !Safe(m.h, total)
      && MallocSpec(m.h, total, m.frames).p == m.h.current + HEADER_SIZE
      && Apply(m, Malloc(WORD - 64)) ==
         Machine(Heap(m.h.blocks + [Blk(m.h.current, total, true)], m.h.current - 32, m.h.end), m.frames)
      && m.h.end < m.h.current + total
      && !HeapInv(Apply(m, Malloc(WORD - 64)).h)
  {
    hide FirstFit, HeapInv, MallocSpec;
    var m := Boot(1);
    assert Needed(WORD - 64) == WORD - 32;
    BootInv(1);
    MallocExact(m.h, WORD - 32, m.frames);
  }

  // ----- payloads through a run

  predicate NotFreed(ops: seq<Op>, p: nat) { forall k :: 0 <= k < |ops| ==> ops[k] != Free(p) }

  /** A block in use stays, at its address and of its size, for as long as its payload is not freed. */
  lemma {:induction false} RunUsed(m: Machine, ops: seq<Op>, b: Blk)
    requires HeapInv(m.h) && SafeRun(m, ops) && b in UsedOf(m.h.blocks) && NotFreed(ops, b.addr + HEADER_SIZE)
    ensures HeapInv(Runs(m, ops).h) && b in UsedOf(Runs(m, ops).h.blocks)
    decreases |ops|
  {
    hide HeapInv, Apply, UsedOf, SafeOp;
    if ops != [] {
      StepKeeps(m, ops[0]);
      RunUsed(Apply(m, ops[0]), ops[1..], b);
    }
  }

  /** In every run in which nothing wraps around, a payload handed out and not freed since is still there
      at the end: 16-aligned, in a used block inside the mapped range, as large as was asked for, and
      clear of every other block in use, whenever those were handed out. */
  lemma LiveUntilFreed(m: Machine, before: seq<Op>, size: nat, after: seq<Op>) returns (b: Blk)
    requires HeapInv(m.h) && SafeRun(m, before) && size > 0
    requires SafeRun(Runs(m, before), [Malloc(size)] + after)
    requires var m1 := Runs(m, before); var p := MallocSpec(m1.h, Needed(size), m1.frames).p; p != 0 && NotFreed(after, p)
    ensures var m1 := Runs(m, before);
      var p := MallocSpec(m1.h, Needed(size), m1.frames).p;
      var m2 := Runs(Apply(m1, Malloc(size)), after);
      && HeapInv(m2.h) && b in UsedOf(m2.h.blocks)
      && p == b.addr + HEADER_SIZE && p % 16 == 0 && HEAP_START <= b.addr && p + size <= End(b) <= m2.h.end
      && b !in UsedOf(m1.h.blocks)
      && forall c :: c in UsedOf(m2.h.blocks) && c != b ==> End(b) <= c.addr || End(c) <= b.addr
  {
    hide HeapInv, MallocSpec, Needed, Safe;
    RunKeeps(m, before);
    var m1 := Runs(m, before);
    FirstSafe(m1, Malloc(size), after);
    NeededCovers(size);
    MallocKeeps(m1.h, Needed(size), m1.frames);
    var g := MallocSpec(m1.h, Needed(size), m1.frames);
    b :| b in g.h.blocks && Granted(m1.h, g, Needed(size), b);
    RunUsed(Apply(m1, Malloc(size)), after, b);
    var m2 := Runs(Apply(m1, Malloc(size)), after);
    PayloadInside(m2.h, b);
    forall c | c in UsedOf(m2.h.blocks) && c != b ensures End(b) <= c.addr || End(c) <= b.addr {
      PayloadsApart(m2.h, b, c);
    }
  }

  lemma FirstSafe(m: Machine, op: Op, after: seq<Op>)
    requires SafeRun(m, [op] + after)
    ensures SafeOp(m, op) && SafeRun(Apply(m, op), after)
  {
    hide SafeOp, Apply;
    assert ([op] + after)[1..] == after;
  }

  lemma PayloadInside(h: Heap, b: Blk)
    requires HeapInv(h) && b in h.blocks
    ensures HEAP_START <= b.addr && End(b) <= h.end && (b.addr + HEADER_SIZE) % 16 == 0
  {
    hide BlockOk, Tiled, Merged;
    var i :| 0 <= i < |h.blocks| && h.blocks[i] == b;
    Bounds(h.blocks, h.current, i);
    OkFacts(b);
  }

  lemma BootInv(frames: nat)
    ensures HeapInv(Boot(frames).h)
  {
  }

  /** Live payloads never overlap. */
  lemma PayloadsApart(h: Heap, b: Blk, c: Blk)
    requires HeapInv(h) && b in h.blocks && c in h.blocks && b != c
    ensures End(b) <= c.addr || End(c) <= b.addr
    ensures HEAP_START <= b.addr && End(b) <= h.end && (b.addr + HEADER_SIZE) % 16 == 0
  {
    hide BlockOk;
    var i :| 0 <= i < |h.blocks| && h.blocks[i] == b;
    var j :| 0 <= j < |h.blocks| && h.blocks[j] == c;
    Bounds(h.blocks, h.current, i);
    OkFacts(b);
    if i < j {
      Apart(h.blocks, h.current, i, j);
    } else {
      Apart(h.blocks, h.current, j, i);
    }
  }

  // ----- free undoes malloc

  /** Freeing what was just served from an existing block restores the block list exactly. */
  lemma MallocThenFree(h: Heap, total: nat, frames: nat)
    requires HeapInv(h) && total % 16 == 0 && total >= 48 && FirstFit(h.blocks, total, 0) < |h.blocks|
    ensures FreeSpec(MallocSpec(h, total, frames).h, MallocSpec(h, total, frames).p) == h
  {
    hide BlockOk, Tiled, Merged, FreeAt, Placed;
    var i := FirstFit(h.blocks, total, 0);
    var r := Placed(h.blocks, i, total);
    PlacedTiled(h.blocks, h.current, i, total);
    PlacedHolds(h.blocks, h.current, i, total);
    var k := IndexOf(r, h.blocks[i].addr);
    assert k <= i;
    SameAddr(r, h.current, k, i);
    PlacedFreed(h.blocks, h.current, i, total);
  }

  lemma PlacedFreed(blocks: seq<Blk>, current: nat, i: nat, total: nat)
    requires Merged(blocks) && i < |blocks| && blocks[i].size >= total && !blocks[i].used
    ensures i < |Placed(blocks, i, total)| && FreeAt(Placed(blocks, i, total), i) == blocks
  {
    var r := Placed(blocks, i, total);
    var f := Freed(r, i);
    var g := MergeNext(f, i);
    if i > 0 {
      assert AnyUsed(blocks, i - 1);
      assert f[i - 1] == blocks[i - 1];
    }
    if |Cut(blocks[i], total)| == 1 {
      assert f == blocks;
      if i + 1 < |blocks| {
        assert AnyUsed(blocks, i);
      }
    } else {
      assert f == blocks[..i] + [Blk(blocks[i].addr, total, false), Blk(blocks[i].addr + total, blocks[i].size - total, false)] + blocks[i + 1..];
      assert f[i + 2..] == blocks[i + 1..] && f[..i] == blocks[..i];
      assert g == blocks;
    }
  }

  // ----- freeing everything

  /** One free block from the heap's start to its current end. */
  predicate OneFree(h: Heap) {
    |h.blocks| == 1 && !h.blocks[0].used && h.blocks[0].addr == HEAP_START && End(h.blocks[0]) == h.current
  }

  lemma NotUsed(blocks: seq<Blk>, k: nat)
    requires k < |blocks| && UsedOf(blocks) == {}
    ensures !blocks[k].used
  {
    hide UsedOf;
    if blocks[k].used {
      UsedIn(blocks, k);
    }
  }

  lemma UsedIn(blocks: seq<Blk>, k: nat)
    requires k < |blocks| && blocks[k].used
    ensures blocks[k] in UsedOf(blocks)
  {
  }

  lemma FirstTwo(blocks: seq<Blk>)
    requires Merged(blocks) && |blocks| > 1
    ensures blocks[0].used || blocks[1].used
  {
    assert AnyUsed(blocks, 0);
  }

  lemma AtMostOne(blocks: seq<Blk>)
    requires Merged(blocks) && UsedOf(blocks) == {}
    ensures |blocks| <= 1
  {
    hide UsedOf, Merged;
    if |blocks| > 1 {
      NotUsed(blocks, 0);
      NotUsed(blocks, 1);
      FirstTwo(blocks);
    }
  }

  /** A heap with nothing in use is one free block covering all of it. */
  lemma NothingUsed(h: Heap)
    requires HeapInv(h) && UsedOf(h.blocks) == {} && h.blocks != []
    ensures OneFree(h)
  {
    hide UsedOf, Merged;
    AtMostOne(h.blocks);
    NotUsed(h.blocks, 0);
  }

  lemma FreeNonempty(h: Heap, p: nat)
    requires h.blocks != []
    ensures FreeSpec(h, p).blocks != [] && FreeSpec(h, p).current == h.current
  {
  }

  /** Freeing every live payload, in any order, leaves one free block covering the heap. */
  lemma {:induction false} FreeEverything(m: Machine, ps: seq<nat>)
    requires HeapInv(m.h) && m.h.blocks != []
    requires forall b: Blk :: b in UsedOf(m.h.blocks) ==> b.addr + HEADER_SIZE in ps
    ensures OneFree(Runs(m, Frees(ps)).h) && Runs(m, Frees(ps)).h.current == m.h.current
    decreases |ps|
  {
    hide HeapInv, FreeSpec;
    if ps == [] {
      assert UsedOf(m.h.blocks) == {};
      NothingUsed(m.h);
    } else {
      FreeKeeps(m.h, ps[0]);
      FreeNonempty(m.h, ps[0]);
      var m1 := m.(h := FreeSpec(m.h, ps[0]));
      assert Frees(ps)[0] == Free(ps[0]) && Frees(ps)[1..] == Frees(ps[1..]);
      FreeEverything(m1, ps[1..]);
    }
  }

  function Frees(ps: seq<nat>): (r: seq<Op>)
    ensures |r| == |ps|
  {
    seq(|ps|, k requires 0 <= k < |ps| => Free(ps[k]))
  }
}
