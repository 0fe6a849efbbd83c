/** The heap in place: block headers in memory, linked both ways, changed by kmalloc and kfree. */
module KernelHeaps {
  import opened HeapBlocks

  const BLOCK_USED: nat := 0xBEEF_CAFE_1234_5678
  const BLOCK_FREE: nat := 0xDEAD_BEEF_8765_4321

  datatype Header = Header(magic: nat, size: nat, next: nat, prev: nat)

  /** Headers by address. What a later write overlaps is no longer a header. */
  type Headers = map<nat, Header>

  /** block_init: a header written at a. */
  function Put(mem: Headers, a: nat, h: Header): Headers {
    (map k | k in mem && (k == a || k + HEADER_SIZE <= a || a + HEADER_SIZE <= k) :: mem[k])[a := h]
  }

  /** memset of a payload. */
  function Clear(mem: Headers, lo: nat, hi: nat): Headers {
    map k | k in mem && (k + HEADER_SIZE <= lo || hi <= k) :: mem[k]
  }

  function Magic(b: Blk): nat { if b.used then BLOCK_USED else BLOCK_FREE }

  function NextOf(blocks: seq<Blk>, i: int): nat { if 0 <= i + 1 < |blocks| then blocks[i + 1].addr else 0 }

  function PrevOf(blocks: seq<Blk>, i: int): nat { if 0 <= i - 1 < |blocks| then blocks[i - 1].addr else 0 }

  function LastOf(blocks: seq<Blk>): nat { PrevOf(blocks, |blocks|) }

  ghost predicate HeaderAt(mem: Headers, blocks: seq<Blk>, i: int)
    requires 0 <= i < |blocks|
  {
    && blocks[i].addr in mem
    && mem[blocks[i].addr] == Header(Magic(blocks[i]), blocks[i].size, NextOf(blocks, i), PrevOf(blocks, i))
  }

  /** A header marked used is a used block's. */
  ghost predicate NoFakes(mem: Headers, blocks: seq<Blk>) {
    forall a :: a in mem && mem[a].magic == BLOCK_USED ==> UsedAt(blocks, a)
  }

  ghost predicate UsedAt(blocks: seq<Blk>, a: nat) {
    exists i :: 0 <= i < |blocks| && blocks[i].addr == a && blocks[i].used
  }

  /** The headers in memory are the blocks' own, each linked to its neighbours. */
  ghost predicate Linked(mem: Headers, blocks: seq<Blk>) {
    (forall i :: 0 <= i < |blocks| ==> HeaderAt(mem, blocks, i)) && NoFakes(mem, blocks)
  }

  // ----- changing one block's mark

  function Mark(mem: Headers, a: nat, magic: nat): Headers {
    if a in mem then mem[a := mem[a].(magic := magic)] else mem
  }

  lemma MarkLinked(mem: Headers, blocks: seq<Blk>, current: nat, i: nat, used: bool)
    requires Linked(mem, blocks) && Tiled(blocks, current) && i < |blocks|
    ensures Linked(Mark(mem, blocks[i].addr, if used then BLOCK_USED else BLOCK_FREE), blocks[i := blocks[i].(used := used)])
  {
    hide Tiled;
    var r := blocks[i := blocks[i].(used := used)];
    assert HeaderAt(mem, blocks, i);
    var m := Mark(mem, blocks[i].addr, if used then BLOCK_USED else BLOCK_FREE);
    forall k | 0 <= k < |r| ensures HeaderAt(m, r, k) {
      assert HeaderAt(mem, blocks, k);
      if k != i && blocks[k].addr == blocks[i].addr {
        SameAddr(blocks, current, i, k);
      }
    }
    forall a | a in m && m[a].magic == BLOCK_USED ensures UsedAt(r, a) {
      if a == blocks[i].addr {
        assert r[i].addr == a && r[i].used;
      } else {
        assert UsedAt(blocks, a);
        var k :| 0 <= k < |blocks| && blocks[k].addr == a && blocks[k].used;
        assert r[k].addr == a && r[k].used;
      }
    }
  }

  // ----- replacing a stretch of blocks

  /** Memory m agrees with mem on every block outside a stretch, except for the links into it. */
  ghost predicate Relinked(mem: Headers, m: Headers, a: seq<Blk>, x: seq<Blk>, y: seq<Blk>, b: seq<Blk>) {
    && (forall k :: 0 <= k < |a| ==> a[k].addr in m && a[k].addr in mem && m[a[k].addr] == mem[a[k].addr])
    && (forall k :: 1 <= k < |b| ==> b[k].addr in m && b[k].addr in mem && m[b[k].addr] == mem[b[k].addr])
    && (b != [] ==> b[0].addr in m && b[0].addr in mem && y != [] && m[b[0].addr] == mem[b[0].addr].(prev := y[|y| - 1].addr))
    && (forall k :: |a| <= k < |a| + |y| ==> HeaderAt(m, a + y + b, k))
  }

  lemma RelinkedHeaders(mem: Headers, m: Headers, a: seq<Blk>, x: seq<Blk>, y: seq<Blk>, b: seq<Blk>)
    requires forall i :: 0 <= i < |a + x + b| ==> HeaderAt(mem, a + x + b, i)
    requires x != [] && y != [] && x[0].addr == y[0].addr && Relinked(mem, m, a, x, y, b)
    ensures forall i :: 0 <= i < |a + y + b| ==> HeaderAt(m, a + y + b, i)
  {
    var s, r := a + x + b, a + y + b;
    forall i | 0 <= i < |r| ensures HeaderAt(m, r, i) {
      if i < |a| {
        assert HeaderAt(mem, s, i);
        assert r[i] == a[i] == s[i];
        assert NextOf(r, i) == NextOf(s, i);
      } else if i < |a| + |y| {
        assert HeaderAt(m, a + y + b, i);
      } else {
        var k := i - |a| - |y|;
        assert HeaderAt(mem, s, |a| + |x| + k);
        assert r[i] == b[k] == s[|a| + |x| + k];
        assert NextOf(r, i) == NextOf(s, |a| + |x| + k);
      }
    }
  }

  // ----- splitting

  function SplitMem(mem: Headers, b: nat, total: nat): Headers
    requires b in mem && mem[b].size >= total && total >= 48
    requires mem[b].next == 0 || mem[b].next in Put(mem, b + total, Header(BLOCK_FREE, mem[b].size - total, mem[b].next, b))
  {
    var rem := b + total;
    var m1 := Put(mem, rem, Header(BLOCK_FREE, mem[b].size - total, mem[b].next, b));
    var m2 := if mem[b].next == 0 then m1 else m1[mem[b].next := m1[mem[b].next].(prev := rem)];
    m2[b := mem[b].(size := total, next := rem)]
  }

  /** What splitting block i does to the header of block k. */
  lemma SplitElsewhere(mem: Headers, blocks: seq<Blk>, current: nat, i: nat, total: nat, k: nat)
    requires Linked(mem, blocks) && Tiled(blocks, current) && i < |blocks| && k < |blocks| && k != i
    requires total >= 48 && blocks[i].size > total + MIN_SPLIT
    requires SplitReady(mem, blocks, i, total)
    ensures var m, a, rem := SplitMem(mem, blocks[i].addr, total), blocks[k].addr, blocks[i].addr + total;
            && a in mem && a in m && a != rem
            && m[a] == if k == i + 1 then mem[a].(prev := rem) else mem[a]
  {
    hide Tiled, NoFakes;
    Around(blocks, current, i);
    assert HeaderAt(mem, blocks, i) && HeaderAt(mem, blocks, k);
    if i + 1 < |blocks| && k != i + 1 && blocks[k].addr == blocks[i + 1].addr {
      SameAddr(blocks, current, i + 1, k);
    }
  }

  /** The remainder's header does not fall on its neighbours'. */
  ghost predicate SplitReady(mem: Headers, blocks: seq<Blk>, i: nat, total: nat)
    requires i < |blocks| && blocks[i].size > total
  {
    var b := blocks[i].addr;
    && b in mem && mem[b].size == blocks[i].size
    && (mem[b].next == 0 || mem[b].next in Put(mem, b + total, Header(BLOCK_FREE, mem[b].size - total, mem[b].next, b)))
  }

  lemma SplitIsReady(mem: Headers, blocks: seq<Blk>, current: nat, i: nat, total: nat)
    requires Linked(mem, blocks) && Tiled(blocks, current) && i < |blocks|
    requires total >= 48 && total % 16 == 0 && blocks[i].size > total + MIN_SPLIT
    ensures SplitReady(mem, blocks, i, total)
    ensures mem[blocks[i].addr].next == 0 <==> i + 1 == |blocks|
  {
    hide Tiled, NoFakes;
    Around(blocks, current, i);
    assert HeaderAt(mem, blocks, i);
    if i + 1 < |blocks| {
      assert HeaderAt(mem, blocks, i + 1);
      var rest := blocks[i].size - total;
      assert rest % 16 == 0 && rest >= HEADER_SIZE by { OkFacts(blocks[i]); }
    }
  }

  lemma SplitLinked(mem: Headers, blocks: seq<Blk>, current: nat, i: nat, total: nat)
    requires Linked(mem, blocks) && Tiled(blocks, current) && i < |blocks| && !blocks[i].used
    requires total >= 48 && total % 16 == 0 && blocks[i].size > total + MIN_SPLIT
    ensures SplitReady(mem, blocks, i, total)
    ensures Linked(SplitMem(mem, blocks[i].addr, total), blocks[..i] + Cut(blocks[i], total) + blocks[i + 1..])
    ensures mem[blocks[i].addr].next == 0 <==> i + 1 == |blocks|
  {
    hide Tiled, NoFakes, Relinked;
    var blk := blocks[i];
    var b, rem := blk.addr, blk.addr + total;
    var x, y, pre, post := [blk], Cut(blk, total), blocks[..i], blocks[i + 1..];
    SplitIsReady(mem, blocks, current, i, total);
    assert blocks == pre + x + post;
    var m := SplitMem(mem, b, total);
    var r := pre + y + post;
    SplitOwn(mem, blocks, current, i, total, r);
    SplitRelinked(mem, blocks, current, i, total);
    RelinkedHeaders(mem, m, pre, x, y, post);
    assert HeaderAt(mem, blocks, i);
    SplitFakes(mem, blocks, i, total);
  }

  lemma SplitOwn(mem: Headers, blocks: seq<Blk>, current: nat, i: nat, total: nat, r: seq<Blk>)
    requires Linked(mem, blocks) && Tiled(blocks, current) && i < |blocks| && !blocks[i].used
    requires total >= 48 && blocks[i].size > total + MIN_SPLIT && SplitReady(mem, blocks, i, total)
    requires r == blocks[..i] + Cut(blocks[i], total) + blocks[i + 1..]
    ensures i + 1 < |r| && HeaderAt(SplitMem(mem, blocks[i].addr, total), r, i)
    ensures HeaderAt(SplitMem(mem, blocks[i].addr, total), r, i + 1)
  {
    hide Tiled, NoFakes;
    var blk := blocks[i];
    var b, rem := blk.addr, blk.addr + total;
    assert HeaderAt(mem, blocks, i);
    assert r[i] == Blk(b, total, false) && r[i + 1] == Blk(rem, blk.size - total, false);
    assert i + 1 < |blocks| ==> r[i + 2] == blocks[i + 1];
    assert i > 0 ==> r[i - 1] == blocks[i - 1];
    assert NextOf(r, i + 1) == NextOf(blocks, i) && PrevOf(r, i) == PrevOf(blocks, i);
    assert NextOf(r, i) == rem && PrevOf(r, i + 1) == b;
    if i + 1 < |blocks| {
      SplitElsewhere(mem, blocks, current, i, total, i + 1);
    }
    Around(blocks, current, i);
    var m := SplitMem(mem, b, total);
    assert m[b] == mem[b].(size := total, next := rem);
    assert m[rem] == Header(BLOCK_FREE, blk.size - total, mem[b].next, b);
  }

  lemma SplitRelinked(mem: Headers, blocks: seq<Blk>, current: nat, i: nat, total: nat)
    requires Linked(mem, blocks) && Tiled(blocks, current) && i < |blocks| && !blocks[i].used
    requires total >= 48 && blocks[i].size > total + MIN_SPLIT && SplitReady(mem, blocks, i, total)
    requires var r := blocks[..i] + Cut(blocks[i], total) + blocks[i + 1..];
             i + 1 < |r| && HeaderAt(SplitMem(mem, blocks[i].addr, total), r, i) && HeaderAt(SplitMem(mem, blocks[i].addr, total), r, i + 1)
    ensures Relinked(mem, SplitMem(mem, blocks[i].addr, total), blocks[..i], [blocks[i]], Cut(blocks[i], total), blocks[i + 1..])
  {
    hide Tiled, NoFakes, HeaderAt, SplitMem;
    var m, rem := SplitMem(mem, blocks[i].addr, total), blocks[i].addr + total;
    forall k: nat | k < |blocks| && k != i
      ensures blocks[k].addr in mem && blocks[k].addr in m
      ensures m[blocks[k].addr] == if k == i + 1 then mem[blocks[k].addr].(prev := rem) else mem[blocks[k].addr]
    {
      SplitElsewhere(mem, blocks, current, i, total, k);
    }
  }

  lemma SplitFakes(mem: Headers, blocks: seq<Blk>, i: nat, total: nat)
    requires NoFakes(mem, blocks) && i < |blocks| && !blocks[i].used && blocks[i].size > total + MIN_SPLIT && total >= 48
    requires SplitReady(mem, blocks, i, total) && mem[blocks[i].addr].magic == BLOCK_FREE
    ensures NoFakes(SplitMem(mem, blocks[i].addr, total), blocks[..i] + Cut(blocks[i], total) + blocks[i + 1..])
  {
    var m := SplitMem(mem, blocks[i].addr, total);
    var r := blocks[..i] + Cut(blocks[i], total) + blocks[i + 1..];
    forall a | a in m && m[a].magic == BLOCK_USED ensures UsedAt(r, a) {
      assert a in mem && mem[a].magic == BLOCK_USED;
      assert UsedAt(blocks, a);
      var k :| 0 <= k < |blocks| && blocks[k].addr == a && blocks[k].used;
      assert r[if k < i then k else k + 1] == blocks[k];
    }
  }

  /** Addresses around block i: others keep clear of it, by at least a header. */
  lemma Around(blocks: seq<Blk>, current: nat, i: nat)
    requires Tiled(blocks, current) && i < |blocks|
    ensures blocks[i].addr >= HEAP_START && BlockOk(blocks[i])
    ensures forall k :: 0 <= k < |blocks| && k != i ==>
              BlockOk(blocks[k]) && blocks[k].addr >= HEAP_START && (End(blocks[k]) <= blocks[i].addr || End(blocks[i]) <= blocks[k].addr)
  {
    Bounds(blocks, current, i);
    forall k | 0 <= k < |blocks| && k != i
      ensures BlockOk(blocks[k]) && blocks[k].addr >= HEAP_START && (End(blocks[k]) <= blocks[i].addr || End(blocks[i]) <= blocks[k].addr)
    {
      Bounds(blocks, current, k);
      if k < i {
        Apart(blocks, current, k, i);
      } else {
        Apart(blocks, current, i, k);
      }
    }
  }

  // ----- merging

  function MergeMem(mem: Headers, b: nat): Headers
    requires b in mem && mem[b].next in mem && (mem[mem[b].next].next == 0 || mem[mem[b].next].next in mem)
  {
    var n := mem[mem[b].next];
    var m := mem[b := mem[b].(size := mem[b].size + n.size, next := n.next)];
    if n.next == 0 then m else m[n.next := m[n.next].(prev := b)]
  }

  /** Where the headers around a pair of neighbours point. */
  lemma PairLinks(mem: Headers, blocks: seq<Blk>, current: nat, i: nat)
    requires Linked(mem, blocks) && Tiled(blocks, current) && i + 1 < |blocks|
    ensures var b, c := blocks[i].addr, blocks[i + 1].addr;
            && b in mem && c in mem && mem[b].next == c && b != c && b > 0 && c > 0
            && mem[b] == Header(Magic(blocks[i]), blocks[i].size, c, PrevOf(blocks, i))
            && mem[c] == Header(Magic(blocks[i + 1]), blocks[i + 1].size, NextOf(blocks, i + 1), b)
            && (if i + 2 < |blocks| then mem[c].next == blocks[i + 2].addr && mem[c].next in mem && mem[c].next != b && mem[c].next != c && mem[c].next > 0
                else mem[c].next == 0)
  {
    hide Tiled, BlockOk;
    assert HeaderAt(mem, blocks, i) && HeaderAt(mem, blocks, i + 1);
    Apart(blocks, current, i, i + 1);
    Bounds(blocks, current, i);
    OkFacts(blocks[i]);
    if i + 2 < |blocks| {
      assert HeaderAt(mem, blocks, i + 2);
      Apart(blocks, current, i, i + 2);
      Apart(blocks, current, i + 1, i + 2);
      Bounds(blocks, current, i + 1);
      OkFacts(blocks[i + 1]);
    }
  }

  lemma MergeElsewhere(mem: Headers, blocks: seq<Blk>, current: nat, i: nat, k: nat)
    requires Linked(mem, blocks) && Tiled(blocks, current) && i + 1 < |blocks| && k < |blocks| && k != i && k != i + 2
    requires blocks[i].addr in mem && mem[blocks[i].addr].next in mem
    requires var n := mem[mem[blocks[i].addr].next].next; n == 0 || n in mem
    ensures blocks[k].addr in mem && blocks[k].addr in MergeMem(mem, blocks[i].addr)
    ensures MergeMem(mem, blocks[i].addr)[blocks[k].addr] == mem[blocks[k].addr]
  {
    hide Tiled;
    PairLinks(mem, blocks, current, i);
    assert HeaderAt(mem, blocks, k);
    if blocks[k].addr == blocks[i].addr {
      SameAddr(blocks, current, i, k);
    }
    if i + 2 < |blocks| && blocks[k].addr == blocks[i + 2].addr {
      SameAddr(blocks, current, i + 2, k);
    }
  }

  lemma MergeLinked(mem: Headers, blocks: seq<Blk>, current: nat, i: nat)
    requires Linked(mem, blocks) && Tiled(blocks, current) && i + 1 < |blocks| && !blocks[i + 1].used
    ensures var b := blocks[i].addr;
            && b in mem && mem[b].next == blocks[i + 1].addr && mem[b].next in mem
            && (mem[mem[b].next].next == 0 || mem[mem[b].next].next in mem)
            && Linked(MergeMem(mem, b), Merge(blocks, i))
            && (mem[mem[b].next].next == 0 <==> i + 2 == |blocks|)
  {
    hide Tiled, NoFakes, Relinked;
    var b, c := blocks[i], blocks[i + 1];
    var x, pre, post := [b, c], blocks[..i], blocks[i + 2..];
    var y := [Blk(b.addr, b.size + c.size, b.used)];
    PairLinks(mem, blocks, current, i);
    assert blocks == pre + x + post;
    var m := MergeMem(mem, b.addr);
    var r := Merge(blocks, i);
    assert r == pre + y + post;
    assert r[i] == y[0];
    assert i + 2 < |blocks| ==> r[i + 1] == blocks[i + 2];
    assert i > 0 ==> r[i - 1] == blocks[i - 1];
    assert NextOf(r, i) == NextOf(blocks, i + 1);
    assert PrevOf(r, i) == PrevOf(blocks, i);
    assert HeaderAt(m, r, i);
    MergeRelinked(mem, blocks, current, i);
    RelinkedHeaders(mem, m, pre, x, y, post);
    MergeFakes(mem, blocks, i, m);
  }

  lemma MergeRelinked(mem: Headers, blocks: seq<Blk>, current: nat, i: nat)
    requires Linked(mem, blocks) && Tiled(blocks, current) && i + 1 < |blocks|
    requires blocks[i].addr in mem && mem[blocks[i].addr].next in mem
    requires var n := mem[mem[blocks[i].addr].next].next; n == 0 || n in mem
    requires HeaderAt(MergeMem(mem, blocks[i].addr), Merge(blocks, i), i)
    ensures var b, c := blocks[i], blocks[i + 1];
            Relinked(mem, MergeMem(mem, b.addr), blocks[..i], [b, c], [Blk(b.addr, b.size + c.size, b.used)], blocks[i + 2..])
  {
    hide Tiled, NoFakes, HeaderAt;
    PairLinks(mem, blocks, current, i);
    var m := MergeMem(mem, blocks[i].addr);
    forall k: nat | k < |blocks| && k != i && k != i + 2 ensures blocks[k].addr in mem && blocks[k].addr in m && m[blocks[k].addr] == mem[blocks[k].addr] {
      MergeElsewhere(mem, blocks, current, i, k);
    }
  }

  lemma MergeFakes(mem: Headers, blocks: seq<Blk>, i: nat, m: Headers)
    requires Linked(mem, blocks) && i + 1 < |blocks| && !blocks[i + 1].used
    requires forall a :: a in m ==> a in mem && m[a].magic == mem[a].magic
    ensures NoFakes(m, Merge(blocks, i))
  {
    var r := Merge(blocks, i);
    forall a | a in m && m[a].magic == BLOCK_USED ensures UsedAt(r, a) {
      assert UsedAt(blocks, a);
      var k :| 0 <= k < |blocks| && blocks[k].addr == a && blocks[k].used;
      var j := if k <= i then k else k - 1;
      assert r[j].addr == a && r[j].used;
    }
  }

  // ----- appending

  function AppendMem(mem: Headers, last: nat, a: nat, bytes: nat): Headers
    requires last == 0 || last in Put(mem, a, Header(BLOCK_FREE, bytes, 0, last))
  {
    var m := Put(mem, a, Header(BLOCK_FREE, bytes, 0, last));
    if last == 0 then m else m[last := m[last].(next := a)]
  }

  lemma AppendLinked(mem: Headers, blocks: seq<Blk>, current: nat, bytes: nat)
    requires Linked(mem, blocks) && Tiled(blocks, current)
    ensures LastOf(blocks) == 0 || LastOf(blocks) in Put(mem, current, Header(BLOCK_FREE, bytes, 0, LastOf(blocks)))
    ensures LastOf(blocks) == 0 <==> blocks == []
    ensures Linked(AppendMem(mem, LastOf(blocks), current, bytes), blocks + [Blk(current, bytes, false)])
  {
    hide Tiled;
    var n, last := |blocks|, LastOf(blocks);
    var m1 := Put(mem, current, Header(BLOCK_FREE, bytes, 0, last));
    forall k | 0 <= k < n ensures blocks[k].addr in m1 && blocks[k].addr in mem && m1[blocks[k].addr] == mem[blocks[k].addr] && blocks[k].addr != current && blocks[k].addr > 0 {
      assert HeaderAt(mem, blocks, k);
      Bounds(blocks, current, k);
    }
    var r := blocks + [Blk(current, bytes, false)];
    var m := AppendMem(mem, last, current, bytes);
    forall k | 0 <= k < |r| ensures HeaderAt(m, r, k) {
      if k < n {
        assert HeaderAt(mem, blocks, k);
        if k < n - 1 && blocks[k].addr == last {
          SameAddr(blocks, current, k, n - 1);
        }
      }
    }
    forall a | a in m && m[a].magic == BLOCK_USED ensures UsedAt(r, a) {
      assert UsedAt(blocks, a);
      var k :| 0 <= k < n && blocks[k].addr == a && blocks[k].used;
      assert r[k] == blocks[k];
    }
  }

  // ----- clearing a payload

  lemma ClearLinked(mem: Headers, blocks: seq<Blk>, current: nat, i: nat, size: nat)
    requires Linked(mem, blocks) && Tiled(blocks, current) && i < |blocks| && HEADER_SIZE + size <= blocks[i].size
    ensures Linked(Clear(mem, blocks[i].addr + HEADER_SIZE, blocks[i].addr + HEADER_SIZE + size), blocks)
  {
    hide Tiled;
    var m := Clear(mem, blocks[i].addr + HEADER_SIZE, blocks[i].addr + HEADER_SIZE + size);
    Around(blocks, current, i);
    forall k | 0 <= k < |blocks| ensures HeaderAt(m, blocks, k) {
      assert HeaderAt(mem, blocks, k);
    }
    forall a | a in m && m[a].magic == BLOCK_USED ensures UsedAt(blocks, a) {
      assert a in mem;
    }
  }

  function FirstOf(blocks: seq<Blk>): nat { if blocks == [] then 0 else blocks[0].addr }

  /** A used header in memory is the block found by its address, and that block is used. */
  lemma UsedFound(mem: Headers, blocks: seq<Blk>, current: nat, a: nat)
    requires Linked(mem, blocks) && Tiled(blocks, current) && a in mem
    ensures mem[a].magic == BLOCK_USED <==> IndexOf(blocks, a) < |blocks| && blocks[IndexOf(blocks, a)].used
  {
    hide Tiled;
    var j := IndexOf(blocks, a);
    if j < |blocks| {
      HeaderHere(mem, blocks, j);
    }
    if mem[a].magic == BLOCK_USED {
      assert UsedAt(blocks, a);
      var k :| 0 <= k < |blocks| && blocks[k].addr == a && blocks[k].used;
      assert j <= k;
      SameAddr(blocks, current, j, k);
    }
  }

  class KernelHeap {
    var mem: Headers
    var first: nat
    var last: nat
    var heapCurrent: nat
    var heapEnd: nat
    /** Page frames the frame allocator can still give. */
    var frames: nat
    /** The blocks, in order. */
    ghost var blocks: seq<Blk>

    ghost predicate Valid()
      reads this
    {
      && Chained() && Tiled(blocks, heapCurrent) && heapCurrent <= heapEnd
    }

    /** The headers are linked both ways, and all the memory there is fits below 2^64. */
    ghost predicate Chained()
      reads this
    {
      && Linked(mem, blocks) && heapEnd % PAGE == 0 && heapEnd + frames * PAGE < WORD
      && first == FirstOf(blocks) && last == LastOf(blocks)
    }

    ghost function Abs(): Heap
      reads this
    {
      Heap(blocks, heapCurrent, heapEnd)
    }

    /** heap_init: one mapped page holding one free block, or nothing when there is no frame. */
    constructor (frames: nat)
      requires HEAP_START + frames * PAGE < WORD
      ensures Valid() && Machine(Abs(), this.frames) == Boot(frames)
    {
      mem, first, last, heapCurrent, heapEnd, blocks := map[], 0, 0, HEAP_START, HEAP_START, [];
      this.frames := frames;
      if frames > 0 {
        this.frames := frames - 1;
        heapEnd := HEAP_START + PAGE;
        mem := map[HEAP_START := Header(BLOCK_FREE, PAGE, 0, 0)];
        first, last := HEAP_START, HEAP_START;
        heapCurrent := HEAP_START + PAGE;
        blocks := [Blk(HEAP_START, PAGE, false)];
      }
    }

    method HeapMapOnePage() returns (ok: bool)
      modifies this`frames, this`heapEnd
      ensures ok == (old(frames) > 0)
      ensures frames == (if ok then old(frames) - 1 else 0) && heapEnd == (if ok then old(heapEnd) + PAGE else old(heapEnd))
    {
      if frames == 0 {
        return false;
      }
      frames := frames - 1;
      heapEnd := heapEnd + PAGE;
      ok := true;
    }

    /** A free block of the given size at the end of the heap; 0 when memory is exhausted. The blocks
        still tile the heap unless its end wraps around. */
    method HeapAppend(size: nat) returns (b: nat)
      requires Valid() && size % 16 == 0 && 48 <= size < WORD
      modifies this
      ensures Chained() && (old(heapCurrent) + size < WORD ==> Valid())
      ensures var pages := PagesFor(old(Abs()), size);
              if old(frames) < pages then b == 0 && frames == 0 && Abs() == old(Abs()).(end := old(heapEnd) + old(frames) * PAGE)
              else b == old(heapCurrent) && b != 0 && frames == old(frames) - pages
                   && Abs() == Heap(old(blocks) + [Blk(b, size, false)], Sum(old(Abs()), size), old(heapEnd) + pages * PAGE)
    {
      hide Linked, Tiled, BlockOk, PagesFor, Add64, LastOf, FirstOf, Put;
      AlignedCurrent(blocks, heapCurrent);
      SumExact(Abs(), size);
      PagesEnough(Abs(), size);
      Multiple16(size);
      Multiple16(heapCurrent);
      var bytes := Align16(size);
      heapCurrent := Align16(heapCurrent);
      ghost var n, pages := 0, PagesFor(Abs(), size);
      while Add64(heapCurrent, bytes) > heapEnd
        invariant n <= pages && n <= old(frames)
        invariant mem == old(mem) && first == old(first) && last == old(last) && blocks == old(blocks) && heapCurrent == old(heapCurrent)
        invariant heapEnd == old(heapEnd) + n * PAGE && frames == old(frames) - n
        decreases frames
      {
        assert n != pages;
        var ok := HeapMapOnePage();
        if !ok {
          assert n == old(frames);
          return 0;
        }
        n := n + 1;
      }
      assert n == pages;
      b := heapCurrent;
      AppendLinked(mem, blocks, heapCurrent, bytes);
      AppendTiled(blocks, heapCurrent, bytes);
      AppendEnds(blocks, heapCurrent, bytes);
      mem := Put(mem, b, Header(BLOCK_FREE, bytes, 0, last));
      if last != 0 {
        mem := mem[last := mem[last].(next := b)];
      } else {
        first := b;
      }
      last := b;
      heapCurrent := Add64(heapCurrent, bytes);
      blocks := blocks + [Blk(b, bytes, false)];
    }

    /** Cuts free block b, keeping `total` bytes in it, when the rest is worth keeping. */
    method BlockSplit(b: nat, payload: nat, ghost i: nat)
      requires Valid() && i < |blocks| && blocks[i].addr == b && !blocks[i].used
      requires var total := HEADER_SIZE + payload; total % 16 == 0 && 48 <= total <= blocks[i].size
      modifies this
      ensures Valid() && heapCurrent == old(heapCurrent) && heapEnd == old(heapEnd) && frames == old(frames)
      ensures blocks == old(blocks)[..i] + Cut(old(blocks)[i], HEADER_SIZE + payload) + old(blocks)[i + 1..]
    {
      hide Tiled, BlockOk, NoFakes, Linked, Cut, LastOf, FirstOf, Put;
      var total := HEADER_SIZE + payload;
      HeaderHere(mem, blocks, i);
      CutSmall(blocks, i, total);
      var h := mem[b];
      if h.size <= total + MIN_SPLIT {
        return;
      }
      SplitLinked(mem, blocks, heapCurrent, i, total);
      CutTiled(blocks, heapCurrent, i, total);
      var rem := b + total;
      ghost var r := blocks[..i] + Cut(blocks[i], total) + blocks[i + 1..];
      SplitEnds(blocks, i, total);
      ghost var was := mem;
      mem := Put(mem, rem, Header(BLOCK_FREE, h.size - total, h.next, b));
      if h.next != 0 {
        mem := mem[h.next := mem[h.next].(prev := rem)];
      } else {
        last := rem;
      }
      mem := mem[b := h.(size := total, next := rem)];
      assert mem == SplitMem(was, b, total);
      blocks := r;
    }

    /** Block b takes over the next block when that one is free. */
    method CoalesceNext(b: nat, ghost i: nat)
      requires Valid() && i < |blocks| && blocks[i].addr == b
      modifies this
      ensures Valid() && heapCurrent == old(heapCurrent) && heapEnd == old(heapEnd) && frames == old(frames)
      ensures blocks == MergeNext(old(blocks), i)
    {
      hide Tiled, BlockOk, NoFakes;
      assert HeaderAt(mem, blocks, i);
      if i + 1 < |blocks| {
        assert HeaderAt(mem, blocks, i + 1);
        Bounds(blocks, heapCurrent, i + 1);
      }
      var n := mem[b].next;
      if n == 0 || mem[n].magic != BLOCK_FREE {
        return;
      }
      MergeLinked(mem, blocks, heapCurrent, i);
      MergeTiled(blocks, heapCurrent, i);
      MergeEnds(blocks, i);
      ghost var was := mem;
      var h := mem[n];
      mem := mem[b := mem[b].(size := mem[b].size + h.size, next := h.next)];
      if h.next != 0 {
        mem := mem[h.next := mem[h.next].(prev := b)];
      } else {
        last := b;
      }
      assert mem == MergeMem(was, b);
      blocks := Merge(blocks, i);
    }

    /** The previous block, when free, takes over block b. */
    method CoalescePrev(b: nat, ghost i: nat)
      requires Valid() && i < |blocks| && blocks[i].addr == b && !blocks[i].used
      modifies this
      ensures Valid() && heapCurrent == old(heapCurrent) && heapEnd == old(heapEnd) && frames == old(frames)
      ensures blocks == MergePrev(old(blocks), i)
    {
      hide Tiled, BlockOk, NoFakes;
      assert HeaderAt(mem, blocks, i);
      if i > 0 {
        assert HeaderAt(mem, blocks, i - 1);
        Bounds(blocks, heapCurrent, i - 1);
      }
      var p := mem[b].prev;
      if p == 0 || mem[p].magic != BLOCK_FREE {
        return;
      }
      CoalesceNext(p, i - 1);
    }

    /** First fit, split, mark used, clear; or a new block at the end. */
    method Kmalloc(size: nat) returns (p: nat)
      requires Valid() && size <= WORD - 48 && (size > 0 ==> Safe(Abs(), Needed(size)))
      modifies this
      ensures Valid()
      ensures size == 0 ==> p == 0 && Abs() == old(Abs()) && frames == old(frames)
      ensures size > 0 ==> Grant(Abs(), p, frames) == MallocSpec(old(Abs()), Needed(size), old(frames))
    {
      hide Tiled, BlockOk, NoFakes, Linked, PagesFor, Needed, Align16, Placed, Cut, LastOf, FirstFit, MallocSpec;
      if size == 0 {
        return 0;
      }
      NeededCovers(size);
      var payload := Align16(size);
      NeededSum(size);
      ghost var total := HEADER_SIZE + payload;
      var b := first;
      ghost var i := 0;
      while b != 0
        invariant Valid() && Abs() == old(Abs()) && frames == old(frames)
        invariant i <= |blocks| && b == (if i < |blocks| then blocks[i].addr else 0)
        invariant FirstFit(blocks, total, 0) == FirstFit(blocks, total, i)
        decreases |blocks| - i
      {
        HeaderHere(mem, blocks, i);
        FitStep(blocks, total, i);
        if mem[b].magic != BLOCK_FREE || mem[b].size < HEADER_SIZE + payload {
          b := mem[b].next;
          i := i + 1;
          if i < |blocks| {
            Bounds(blocks, heapCurrent, i);
          }
          continue;
        }
        BlockSplit(b, payload, i);
        CutHead(old(blocks), i, total);
        MallocHere(old(Abs()), i, total, frames);
        p := MarkUsed(b, size, i);
        return;
      }
      assert i == |blocks| by { if i < |blocks| { Bounds(blocks, heapCurrent, i); } }
      FitStep(blocks, total, i);
      MallocEnd(Abs(), total, frames);
      b := HeapAppend(HEADER_SIZE + payload);
      if b == 0 {
        return 0;
      }
      p := MarkUsed(b, size, |blocks| - 1);
    }

    /** Marks block b used and clears its payload. */
    method MarkUsed(b: nat, size: nat, ghost i: nat) returns (p: nat)
      requires Valid() && i < |blocks| && blocks[i].addr == b && HEADER_SIZE + size <= blocks[i].size
      modifies this
      ensures Valid() && p == b + HEADER_SIZE
      ensures blocks == old(blocks)[i := old(blocks)[i].(used := true)]
      ensures heapCurrent == old(heapCurrent) && heapEnd == old(heapEnd) && frames == old(frames)
    {
      hide Tiled, BlockOk, NoFakes, Linked;
      HeaderHere(mem, blocks, i);
      MarkLinked(mem, blocks, heapCurrent, i, true);
      MarkTiled(blocks, heapCurrent, i, true);
      MarkEnds(blocks, i, true);
      mem := mem[b := mem[b].(magic := BLOCK_USED)];
      blocks := blocks[i := blocks[i].(used := true)];
      p := b + HEADER_SIZE;
      ClearLinked(mem, blocks, heapCurrent, i, size);
      mem := Clear(mem, p, p + size);
    }

    /** Marks free and merges with free neighbours; a null, foreign or already freed address is left
        alone. The caller passes null, an address outside the heap, or one below which a header has
        not been overwritten. */
    method Kfree(ptr: nat)
      requires Valid()
      requires HEADER_SIZE <= ptr && HEAP_START <= ptr - HEADER_SIZE < heapEnd ==> ptr - HEADER_SIZE in mem
      modifies this
      ensures Valid() && Abs() == FreeSpec(old(Abs()), ptr) && frames == old(frames)
    {
      hide Tiled, BlockOk, NoFakes, Linked;
      ghost var i := IndexOf(blocks, ptr - HEADER_SIZE);
      if i < |blocks| {
        Bounds(blocks, heapCurrent, i);
        OkFacts(blocks[i]);
      }
      if ptr < HEADER_SIZE || ptr - HEADER_SIZE < HEAP_START || ptr - HEADER_SIZE >= heapEnd {
        return;
      }
      var b := ptr - HEADER_SIZE;
      UsedFound(mem, blocks, heapCurrent, b);
      if mem[b].magic != BLOCK_USED {
        return;
      }
      MarkLinked(mem, blocks, heapCurrent, i, false);
      MarkTiled(blocks, heapCurrent, i, false);
      MarkEnds(blocks, i, false);
      mem := mem[b := mem[b].(magic := BLOCK_FREE)];
      blocks := blocks[i := blocks[i].(used := false)];
      CoalesceNext(b, i);
      MergedHead(Freed(old(blocks), i), i);
      CoalescePrev(b, i);
    }
  }

  lemma Multiple16(x: nat)
    requires x % 16 == 0 && x < WORD
    ensures Align16(x) == x
  {
  }

  lemma NeededSum(size: nat)
    requires 0 < size <= WORD - 48
    ensures Needed(size) == HEADER_SIZE + Align16(size) && size <= Align16(size) < size + 16
  {
    hide Align16;
    RoundedUp(size);
    Wrapped(HEADER_SIZE + Align16(size));
  }

  lemma HeaderHere(mem: Headers, blocks: seq<Blk>, i: nat)
    requires Linked(mem, blocks) && i < |blocks|
    ensures HeaderAt(mem, blocks, i)
  {
  }

  lemma AppendTiled(blocks: seq<Blk>, current: nat, bytes: nat)
    requires Tiled(blocks, current) && bytes % 16 == 0 && bytes >= 48
    ensures Tiled(blocks + [Blk(current, bytes, false)], current + bytes) && current > 0
  {
    var r := blocks + [Blk(current, bytes, false)];
    AlignedCurrent(blocks, current);
    forall k | 0 <= k < |r| - 1 ensures Joins(r, k) {
      if k < |blocks| - 1 {
        assert Joins(blocks, k);
      }
    }
  }

  lemma AppendEnds(blocks: seq<Blk>, current: nat, bytes: nat)
    ensures FirstOf(blocks + [Blk(current, bytes, false)]) == if blocks == [] then current else FirstOf(blocks)
    ensures LastOf(blocks + [Blk(current, bytes, false)]) == current
  {
  }

  lemma MarkTiled(blocks: seq<Blk>, current: nat, i: nat, used: bool)
    requires Tiled(blocks, current) && i < |blocks|
    ensures Tiled(blocks[i := blocks[i].(used := used)], current)
  {
    var r := blocks[i := blocks[i].(used := used)];
    forall k | 0 <= k < |r| - 1 ensures Joins(r, k) {
      assert Joins(blocks, k);
    }
    forall k | 0 <= k < |r| ensures BlockOk(r[k]) {
      assert BlockOk(blocks[k]);
    }
  }

  lemma MarkEnds(blocks: seq<Blk>, i: nat, used: bool)
    requires i < |blocks|
    ensures FirstOf(blocks[i := blocks[i].(used := used)]) == FirstOf(blocks)
    ensures LastOf(blocks[i := blocks[i].(used := used)]) == LastOf(blocks)
  {
  }

  lemma CutTiled(blocks: seq<Blk>, current: nat, i: nat, total: nat)
    requires Tiled(blocks, current) && i < |blocks| && blocks[i].size >= total >= 48 && total % 16 == 0
    ensures Tiled(blocks[..i] + Cut(blocks[i], total) + blocks[i + 1..], current)
  {
    hide BlockOk, HeapBlocks.Run, Cut, Tiled;
    assert blocks == blocks[..i] + [blocks[i]] + blocks[i + 1..];
    Bounds(blocks, current, i);
    CutAsRun(blocks[i], total);
    Replace(blocks[..i], [blocks[i]], Cut(blocks[i], total), blocks[i + 1..], current);
  }

  lemma CutAsRun(b: Blk, total: nat)
    requires BlockOk(b) && b.size >= total >= 48 && total % 16 == 0
    ensures HeapBlocks.Run(Cut(b, total), b.addr, End(b))
  {
    var rest := b.size - total;
    assert rest % 16 == 0;
  }

  lemma SplitEnds(blocks: seq<Blk>, i: nat, total: nat)
    requires i < |blocks| && blocks[i].size > total + MIN_SPLIT
    ensures var r := blocks[..i] + Cut(blocks[i], total) + blocks[i + 1..];
            && FirstOf(r) == FirstOf(blocks)
            && LastOf(r) == if i + 1 == |blocks| then blocks[i].addr + total else LastOf(blocks)
  {
  }

  lemma CutSmall(blocks: seq<Blk>, i: nat, total: nat)
    requires i < |blocks| && blocks[i].size >= total
    ensures blocks[i].size <= total + MIN_SPLIT ==> blocks[..i] + Cut(blocks[i], total) + blocks[i + 1..] == blocks
  {
  }

  lemma FitStep(blocks: seq<Blk>, total: nat, i: nat)
    requires i <= |blocks|
    ensures FirstFit(blocks, total, i) ==
      if i == |blocks| || (!blocks[i].used && blocks[i].size >= total) then i else FirstFit(blocks, total, i + 1)
  {
  }

  lemma MallocHere(h: Heap, i: nat, total: nat, frames: nat)
    requires FirstFit(h.blocks, total, 0) == i < |h.blocks|
    ensures h.blocks[i].size >= total
    ensures MallocSpec(h, total, frames) == Grant(h.(blocks := Placed(h.blocks, i, total)), h.blocks[i].addr + HEADER_SIZE, frames)
  {
    hide FirstFit, Placed;
  }

  lemma CutHead(blocks: seq<Blk>, i: nat, total: nat)
    requires i < |blocks| && blocks[i].size >= total && !blocks[i].used
    ensures var r := blocks[..i] + Cut(blocks[i], total) + blocks[i + 1..];
            && i < |r| && r[i].addr == blocks[i].addr && r[i].size >= total && !r[i].used
            && r[i := r[i].(used := true)] == Placed(blocks, i, total)
  {
  }

  lemma MergeEnds(blocks: seq<Blk>, i: nat)
    requires i + 1 < |blocks|
    ensures FirstOf(Merge(blocks, i)) == FirstOf(blocks)
    ensures LastOf(Merge(blocks, i)) == if i + 2 == |blocks| then blocks[i].addr else LastOf(blocks)
  {
  }

  lemma MergedHead(blocks: seq<Blk>, i: nat)
    requires i < |blocks|
    ensures var r := MergeNext(blocks, i); i < |r| && r[i].addr == blocks[i].addr && r[i].used == blocks[i].used
  {
  }
}
