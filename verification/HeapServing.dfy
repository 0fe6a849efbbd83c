/** How much memory an allocation hands out, where, and what stays free. */
module HeapServing {
  import opened HeapBlocks

  /** Block i is the first free one of at least `total` bytes. */
  ghost predicate Chosen(h: Heap, total: nat, i: nat) {
    && i < |h.blocks| && !h.blocks[i].used && h.blocks[i].size >= total
    && forall k :: 0 <= k < i ==> h.blocks[k].used || h.blocks[k].size < total
  }

  ghost predicate NoneChosen(h: Heap, total: nat) {
    forall k :: 0 <= k < |h.blocks| ==> h.blocks[k].used || h.blocks[k].size < total
  }

  /** A request served from a free block gets the first `total` bytes of it when more than 32 bytes would be
      left over, which then follow as a free block, and all of it otherwise. Nothing else changes. */
  lemma ServedExactly(h: Heap, total: nat, frames: nat, i: nat)
    requires Chosen(h, total, i)
    ensures var b, g := h.blocks[i], MallocSpec(h, total, frames);
      && g.p == b.addr + 32 && g.frames == frames && g.h.current == h.current && g.h.end == h.end
      && (b.size > total + 32 ==>
            g.h.blocks == h.blocks[..i] + [Blk(b.addr, total, true), Blk(b.addr + total, b.size - total, false)] + h.blocks[i + 1..])
      && (b.size <= total + 32 ==> g.h.blocks == h.blocks[..i] + [Blk(b.addr, b.size, true)] + h.blocks[i + 1..])
  {
    var f := FirstFit(h.blocks, total, 0);
    assert f == i;
  }

  /** With no such block the heap grows by exactly `total` bytes, if the frames left suffice for the pages
      that takes, and by no page more; otherwise every frame left is mapped and nothing is granted. */
  lemma GrownExactly(h: Heap, total: nat, frames: nat)
    requires HeapInv(h) && NoneChosen(h, total) && h.current + total < 0x1_0000_0000_0000_0000
    ensures var g := MallocSpec(h, total, frames);
      if h.current + total <= h.end + 4096 * frames then
        && g.p == h.current + 32 && g.h.blocks == h.blocks + [Blk(h.current, total, true)] && g.h.current == h.current + total
        && g.frames <= frames && g.h.end == h.end + 4096 * (frames - g.frames)
        && g.h.current <= g.h.end && (g.frames < frames ==> g.h.end < g.h.current + 4096)
      else g == Grant(Heap(h.blocks, h.current, h.end + 4096 * frames), 0, 0)
  {
    hide Tiled, Merged, PagesFor, Sum;
    assert FirstFit(h.blocks, total, 0) == |h.blocks|;
    MallocEnd(h, total, frames);
    SumIs(h, total);
    var n := PagesFor(h, total);
    PagesEnough(h, total);
    if frames < n {
      assert h.current + total > h.end + frames * PAGE;
    } else {
      assert n * PAGE <= frames * PAGE;
      if n > 0 {
        assert h.current + total > h.end + (n - 1) * PAGE;
      }
    }
  }

  lemma SumIs(h: Heap, total: nat)
    requires h.current + total < 0x1_0000_0000_0000_0000
    ensures Sum(h, total) == h.current + total
  {
    SumExact(h, total);
  }

  /** A request of `size` bytes takes at least 32 bytes more, at most 47 more, and 16-byte steps. */
  lemma RequestSize(size: nat)
    requires 0 < size <= 0x1_0000_0000_0000_0000 - 48
    ensures size + 32 <= Needed(size) <= size + 47 && Needed(size) % 16 == 0
  {
    hide Needed;
    NeededCovers(size);
  }

  /** What is handed out never exceeds the request by more than 79 bytes: the header, rounding up, and a
      rest too small to keep. */
  lemma LittleWasted(h: Heap, size: nat, frames: nat) returns (b: Blk)
    requires HeapInv(h) && 0 < size <= 0x1_0000_0000_0000_0000 - 48 && Safe(h, Needed(size))
    requires MallocSpec(h, Needed(size), frames).p != 0
    ensures b in MallocSpec(h, Needed(size), frames).h.blocks && b.used && b !in h.blocks
    ensures MallocSpec(h, Needed(size), frames).p == b.addr + 32 && size + 32 <= b.size <= size + 79
  {
    hide HeapInv, Needed, MallocSpec, FirstFit, Granted, NoneFits;
    var total := Needed(size);
    RequestSize(size);
    MallocKeeps(h, total, frames);
    var g := MallocSpec(h, total, frames);
    b :| b in g.h.blocks && Granted(h, g, total, b);
    GrantedParts(h, g, total, b);
    var i := FirstFit(h.blocks, total, 0);
    if i < |h.blocks| {
      ServedExactly(h, total, frames, i);
      ServedBlock(h, total, frames, i, b);
    } else {
      assert NoneChosen(h, total);
      MallocEnd(h, total, frames);
    }
  }

  lemma GrantedParts(h: Heap, g: Grant, total: nat, b: Blk)
    requires Granted(h, g, total, b)
    ensures b.used && g.p == b.addr + 32 && b.size >= total && b !in h.blocks
  {
  }

  lemma ServedBlock(h: Heap, total: nat, frames: nat, i: nat, b: Blk)
    requires Chosen(h, total, i) && b in MallocSpec(h, total, frames).h.blocks && b !in h.blocks && b.used
    ensures b.size <= total + 32
  {
    hide MallocSpec;
    ServedExactly(h, total, frames, i);
  }

  // ----- every byte is accounted for

  function Bytes(blocks: seq<Blk>, used: bool): nat {
    if blocks == [] then 0 else (if blocks[0].used == used then blocks[0].size else 0) + Bytes(blocks[1..], used)
  }

  lemma {:induction false} BytesApp(a: seq<Blk>, b: seq<Blk>, used: bool)
    ensures Bytes(a + b, used) == Bytes(a, used) + Bytes(b, used)
  {
    if a == [] {
      assert a + b == b;
    } else {
      assert (a + b)[1..] == a[1..] + b;
      BytesApp(a[1..], b, used);
    }
  }

  lemma BytesAround(a: seq<Blk>, x: seq<Blk>, b: seq<Blk>, used: bool)
    ensures Bytes(a + x + b, used) == Bytes(a, used) + Bytes(x, used) + Bytes(b, used)
  {
    BytesApp(a + x, b, used);
    BytesApp(a, x, used);
  }

  lemma BytesOne(x: Blk, used: bool)
    ensures Bytes([x], used) == if x.used == used then x.size else 0
  {
    assert [x][1..] == [];
  }

  lemma BytesTwo(x: Blk, y: Blk, used: bool)
    ensures Bytes([x, y], used) == (if x.used == used then x.size else 0) + (if y.used == used then y.size else 0)
  {
    assert [x, y] == [x] + [y];
    BytesApp([x], [y], used);
    BytesOne(x, used);
    BytesOne(y, used);
  }

  /** Used and free bytes together are all bytes from the heap's start at 0x8000000 to its current end. */
  lemma {:induction false} Accounted(blocks: seq<Blk>, current: nat)
    requires Tiled(blocks, current)
    ensures Bytes(blocks, true) + Bytes(blocks, false) == current - 0x800_0000
    decreases |blocks|
  {
    if blocks != [] {
      var n := |blocks| - 1;
      var init, last := blocks[..n], blocks[n];
      assert blocks == init + [last];
      forall k | 0 <= k < |init| - 1 ensures Joins(init, k) {
        assert Joins(blocks, k);
      }
      forall k | 0 <= k < |init| ensures BlockOk(init[k]) {
        assert BlockOk(blocks[k]);
      }
      if n > 0 {
        assert Joins(blocks, n - 1);
      }
      Accounted(init, last.addr);
      BytesApp(init, [last], true);
      BytesApp(init, [last], false);
      BytesOne(last, true);
      BytesOne(last, false);
    }
  }

  /** A served request moves exactly the bytes of its block from free to used: `total` of them when more
      than 32 would be left over. */
  lemma ServedBytes(h: Heap, total: nat, frames: nat, i: nat)
    requires Chosen(h, total, i)
    ensures var b, r := h.blocks[i], MallocSpec(h, total, frames).h.blocks;
      var given := if b.size > total + 32 then total else b.size;
      && Bytes(r, true) == Bytes(h.blocks, true) + given && Bytes(r, false) == Bytes(h.blocks, false) - given
  {
    hide MallocSpec, Chosen, Bytes;
    ServedExactly(h, total, frames, i);
    ChosenSize(h, total, i);
    var b := h.blocks[i];
    var pre, post := h.blocks[..i], h.blocks[i + 1..];
    assert h.blocks == pre + [b] + post;
    var whole, cut, rest := Blk(b.addr, b.size, true), Blk(b.addr, total, true), Blk(b.addr + total, b.size - total, false);
    forall used: bool
      ensures Bytes(h.blocks, used) == Bytes(pre, used) + Bytes([b], used) + Bytes(post, used)
      ensures Bytes(pre + [whole] + post, used) == Bytes(pre, used) + Bytes([whole], used) + Bytes(post, used)
      ensures Bytes(pre + [cut, rest] + post, used) == Bytes(pre, used) + Bytes([cut, rest], used) + Bytes(post, used)
      ensures Bytes([b], used) == (if b.used == used then b.size else 0)
      ensures Bytes([whole], used) == (if used then b.size else 0)
      ensures Bytes([cut, rest], used) == if used then total else b.size - total
    {
      BytesAround(pre, [b], post, used);
      BytesAround(pre, [whole], post, used);
      BytesAround(pre, [cut, rest], post, used);
      BytesOne(b, used);
      BytesOne(whole, used);
      BytesTwo(cut, rest, used);
    }
  }

  lemma ChosenSize(h: Heap, total: nat, i: nat)
    requires Chosen(h, total, i)
    ensures i < |h.blocks| && !h.blocks[i].used && h.blocks[i].size >= total
  {
  }

  // ----- the first requests

  /** Start-up with a frame leaves one free block of 4096 bytes at 0x8000000. The first two requests of 16
      bytes get payloads at 0x8000020 and 0x8000050, and 4000 bytes stay free behind them. */
  lemma FirstRequests(frames: nat)
    requires frames > 0
    ensures Boot(frames) == Machine(Heap([Blk(0x800_0000, 4096, false)], 0x800_1000, 0x800_1000), frames - 1)
    ensures var m1 := Apply(Boot(frames), Malloc(16));
      && MallocSpec(Boot(frames).h, Needed(16), frames - 1).p == 0x800_0020
      && m1 == Machine(Heap([Blk(0x800_0000, 48, true), Blk(0x800_0030, 4048, false)], 0x800_1000, 0x800_1000), frames - 1)
      && MallocSpec(m1.h, Needed(16), frames - 1).p == 0x800_0050
      && Apply(m1, Malloc(16)).h.blocks == [Blk(0x800_0000, 48, true), Blk(0x800_0030, 48, true), Blk(0x800_0060, 4000, false)]
  {
    hide MallocSpec;
    assert Needed(16) == 48;
    var h0 := Boot(frames).h;
    ServedExactly(h0, 48, frames - 1, 0);
    var h1 := MallocSpec(h0, 48, frames - 1).h;
    assert h1.blocks == [Blk(0x800_0000, 48, true), Blk(0x800_0030, 4048, false)];
    ServedExactly(h1, 48, frames - 1, 1);
  }
}
