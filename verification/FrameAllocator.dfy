/** The physical frame allocator: one bit per 4 KB frame, packed eight to a byte. */
module FrameBits {

  const PAGE_SIZE: nat := 4096

  /** Index of the first clear bit at or after `from`; |bits| when there is none. */
  function FirstFree(bits: seq<bool>, from: nat): (i: nat)
    requires from <= |bits|
    ensures from <= i <= |bits|
    ensures forall k :: from <= k < i ==> bits[k]
    ensures i < |bits| ==> !bits[i]
    decreases |bits| - from
  {
    if from == |bits| || !bits[from] then from else FirstFree(bits, from + 1)
  }

  function FreeCount(bits: seq<bool>): nat {
    if bits == [] then 0 else (if bits[0] then 0 else 1) + FreeCount(bits[1..])
  }

  lemma {:induction false} FreeCountAppend(a: seq<bool>, b: seq<bool>)
    ensures FreeCount(a + b) == FreeCount(a) + FreeCount(b)
  {
    if a == [] {
      assert a + b == b;
    } else {
      assert (a + b)[1..] == a[1..] + b;
      FreeCountAppend(a[1..], b);
    }
  }

  /** Taking a clear bit lowers the number of free frames by exactly one. */
  lemma {:induction false} FreeCountTake(bits: seq<bool>, i: nat)
    requires i < |bits| && !bits[i]
    ensures FreeCount(bits[i := true]) == FreeCount(bits) - 1
  {
    assert bits == bits[..i] + ([false] + bits[i + 1..]);
    assert bits[i := true] == bits[..i] + ([true] + bits[i + 1..]);
    FreeCountAppend(bits[..i], [false] + bits[i + 1..]);
    FreeCountAppend(bits[..i], [true] + bits[i + 1..]);
  }

  lemma {:induction false} FreeCountAllSet(bits: seq<bool>)
    requires forall k :: 0 <= k < |bits| ==> bits[k]
    ensures FreeCount(bits) == 0
  {
    if bits != [] {
      FreeCountAllSet(bits[1..]);
    }
  }

  lemma FirstFreeIs(bits: seq<bool>, from: nat, i: nat)
    requires from <= i < |bits| && !bits[i]
    requires forall k :: from <= k < i ==> bits[k]
    ensures FirstFree(bits, from) == i
  {
  }

  /** What alloc_frame does to the bits and which address it hands out (0: exhausted). */
  function AllocSpec(bits: seq<bool>, base: nat): (r: (seq<bool>, nat))
    ensures |r.0| == |bits|
  {
    var i := FirstFree(bits, 0);
    if i < |bits| then (bits[i := true], base + i * PAGE_SIZE) else (bits, 0)
  }

  /** A frame address free_frame acts on. */
  predicate Tracked(bits: seq<bool>, base: nat, frame: nat) {
    base <= frame && (frame - base) / PAGE_SIZE < |bits|
  }

  /** The bit of a tracked frame; frames outside the bitmap count as taken. */
  predicate Taken(bits: seq<bool>, base: nat, frame: nat) {
    Tracked(bits, base, frame) ==> bits[(frame - base) / PAGE_SIZE]
  }

  function FreeSpec(bits: seq<bool>, base: nat, frame: nat): (r: seq<bool>)
    ensures |r| == |bits|
  {
    if Tracked(bits, base, frame) then bits[(frame - base) / PAGE_SIZE := false] else bits
  }

  /** Freshness: with a frame left, the address handed out was tracked and free, is page
      aligned, is taken afterwards, and no other frame's bit moves. */
  lemma AllocFresh(bits: seq<bool>, base: nat, frame: nat)
    requires base % PAGE_SIZE == 0 && frame % PAGE_SIZE == 0
    requires FreeCount(bits) > 0
    ensures var (bits', f) := AllocSpec(bits, base);
            && f % PAGE_SIZE == 0 && Tracked(bits, base, f)
            && !Taken(bits, base, f) && Taken(bits', base, f)
            && FreeCount(bits') == FreeCount(bits) - 1
            && (frame != f ==> (Taken(bits', base, frame) <==> Taken(bits, base, frame)))
  {
    var i := FirstFree(bits, 0);
    if i == |bits| {
      FreeCountAllSet(bits);
      assert false;
    }
    FreeCountTake(bits, i);
    IndexOfFrame(base, i);
    if base <= frame {
      FrameOfIndex(base, frame);
    }
  }

  lemma IndexOfFrame(base: nat, i: nat)
    requires base % PAGE_SIZE == 0
    ensures (base + i * PAGE_SIZE - base) / PAGE_SIZE == i
    ensures (base + i * PAGE_SIZE) % PAGE_SIZE == 0
  {
  }

  lemma FrameOfIndex(base: nat, frame: nat)
    requires base % PAGE_SIZE == 0 && frame % PAGE_SIZE == 0 && base <= frame
    ensures frame == base + (frame - base) / PAGE_SIZE * PAGE_SIZE
  {
  }

  /** alloc_frame followed by free_frame of its result restores the bitmap; when the bitmap is
      exhausted both calls leave it alone (address 0 lies below every usable base). */
  lemma AllocFreeRoundTrip(bits: seq<bool>, base: nat)
    requires base > 0
    ensures FreeSpec(AllocSpec(bits, base).0, base, AllocSpec(bits, base).1) == bits
  {
    var i := FirstFree(bits, 0);
    if i < |bits| {
      assert (base + i * PAGE_SIZE - base) / PAGE_SIZE == i;
      assert bits[i := true][i := false] == bits;
    }
  }

  // ----- layout chosen at start-up

  function AlignUp(x: nat): nat { (x + PAGE_SIZE - 1) / PAGE_SIZE * PAGE_SIZE }

  function TotalFrames(kernelEnd: nat, lastFrame: nat): nat
    requires AlignUp(kernelEnd) <= lastFrame
  {
    (lastFrame - AlignUp(kernelEnd)) / PAGE_SIZE
  }

  function BitmapBytes(kernelEnd: nat, lastFrame: nat): nat
    requires AlignUp(kernelEnd) <= lastFrame
  {
    (TotalFrames(kernelEnd, lastFrame) + 7) / 8
  }

  function BitmapFrames(kernelEnd: nat, lastFrame: nat): nat
    requires AlignUp(kernelEnd) <= lastFrame
  {
    (BitmapBytes(kernelEnd, lastFrame) + PAGE_SIZE - 1) / PAGE_SIZE
  }

  function BaseFrame(kernelEnd: nat, lastFrame: nat): nat
    requires AlignUp(kernelEnd) <= lastFrame
  {
    AlignUp(kernelEnd) + BitmapFrames(kernelEnd, lastFrame) * PAGE_SIZE
  }

  function InitialBits(kernelEnd: nat, lastFrame: nat): seq<bool>
    requires AlignUp(kernelEnd) <= lastFrame
  {
    seq(8 * BitmapBytes(kernelEnd, lastFrame), i => i < BitmapFrames(kernelEnd, lastFrame))
  }

  /** Start-up marks as many leading bits as the bitmap takes frames, so the first frame handed out lies
      twice that many frames behind the kernel: one frame for every 32768 frames of memory, rounded up. */
  lemma FirstFrame(kernelEnd: nat, lastFrame: nat, n: nat)
    requires AlignUp(kernelEnd) <= lastFrame
    requires 32768 * n >= (lastFrame - AlignUp(kernelEnd)) / 4096 > 32768 * (n - 1)
    requires n < |InitialBits(kernelEnd, lastFrame)|
    ensures AllocSpec(InitialBits(kernelEnd, lastFrame), BaseFrame(kernelEnd, lastFrame)).1 == AlignUp(kernelEnd) + 8192 * n
    ensures forall i :: 0 <= i < |InitialBits(kernelEnd, lastFrame)| ==> InitialBits(kernelEnd, lastFrame)[i] == (i < n)
  {
    BitmapSize(TotalFrames(kernelEnd, lastFrame), n);
    FirstFreeIs(InitialBits(kernelEnd, lastFrame), 0, n);
  }

  lemma BitmapSize(total: nat, n: nat)
    requires 32768 * n >= total > 32768 * (n - 1)
    ensures ((total + 7) / 8 + PAGE_SIZE - 1) / PAGE_SIZE == n
  {
    var bytes := (total + 7) / 8;
    assert 8 * bytes >= total && 8 * bytes < total + 8;
    assert 4096 * n >= bytes > 4096 * (n - 1);
  }

  /** The bit count is taken from the first frame after the kernel but bits are translated from
      a later base, so a frame the allocator can hand out ends inside RAM exactly when its index
      stays below the total less the frames the bitmap occupies. */
  lemma FrameInsideRam(kernelEnd: nat, lastFrame: nat, i: nat)
    requires AlignUp(kernelEnd) <= lastFrame
    ensures BaseFrame(kernelEnd, lastFrame) + i * PAGE_SIZE + PAGE_SIZE <= lastFrame
       <==> i + BitmapFrames(kernelEnd, lastFrame) < TotalFrames(kernelEnd, lastFrame)
  {
    var room := lastFrame - AlignUp(kernelEnd);
    assert room / PAGE_SIZE * PAGE_SIZE <= room < room / PAGE_SIZE * PAGE_SIZE + PAGE_SIZE;
  }

  /** A machine on which the last frame handed out does lie beyond RAM. */
  lemma FrameBeyondRamExists()
    ensures AlignUp(0x100000) <= 0x4000000
    ensures exists i: nat :: i < |InitialBits(0x100000, 0x4000000)|
              && !InitialBits(0x100000, 0x4000000)[i]
              && BaseFrame(0x100000, 0x4000000) + i * PAGE_SIZE + PAGE_SIZE > 0x4000000
  {
    assert TotalFrames(0x100000, 0x4000000) == 16128;
    assert BitmapBytes(0x100000, 0x4000000) == 2016;
    assert !InitialBits(0x100000, 0x4000000)[16127];
    FrameInsideRam(0x100000, 0x4000000, 16127);
  }
}

module FrameAllocators {
  import opened FrameBits

  /** 1 << k within a byte. */
  function Mask(k: nat): bv8
    requires k < 8
  {
    if k == 0 then 1 else if k == 1 then 2 else if k == 2 then 4 else if k == 3 then 8
    else if k == 4 then 16 else if k == 5 then 32 else if k == 6 then 64 else 128
  }

  predicate Bit(b: bv8, k: nat)
    requires k < 8
  {
    b & Mask(k) != 0
  }

  function WithBit(b: bv8, k: nat): bv8
    requires k < 8
  {
    b | Mask(k)
  }

  function WithoutBit(b: bv8, k: nat): bv8
    requires k < 8
  {
    b & !Mask(k)
  }

  lemma BitSet(b: bv8, k: nat, j: nat)
    requires k < 8 && j < 8
    ensures Bit(WithBit(b, k), j) <==> (j == k || Bit(b, j))
  {
  }

  lemma BitClear(b: bv8, k: nat, j: nat)
    requires k < 8 && j < 8
    ensures Bit(WithoutBit(b, k), j) <==> (j != k && Bit(b, j))
  {
  }

  lemma SameBit(i: nat, k: nat)
    ensures i / 8 == k / 8 && i % 8 == k % 8 <==> i == k
  {
  }

  class FrameAllocator {
    var bitmap: array<bv8>
    var base: nat

    ghost function Bits(): (s: seq<bool>)
      reads this, bitmap
      ensures |s| == 8 * bitmap.Length
    {
      seq(8 * bitmap.Length, i requires 0 <= i < 8 * bitmap.Length reads this, bitmap => Bit(bitmap[i / 8], i % 8))
    }

    /** Clears a bitmap covering everything from the end of the kernel image to the end of RAM
        and reserves the leading bits for the frames the bitmap itself occupies. */
    constructor (kernelEnd: nat, lastFrame: nat)
      requires AlignUp(kernelEnd) <= lastFrame
      ensures fresh(bitmap)
      ensures base == BaseFrame(kernelEnd, lastFrame)
      ensures Bits() == InitialBits(kernelEnd, lastFrame)
    {
      var size := BitmapBytes(kernelEnd, lastFrame);
      var frames := (size + PAGE_SIZE - 1) / PAGE_SIZE;
      bitmap := new bv8[size](_ => 0);
      base := AlignUp(kernelEnd) + frames * PAGE_SIZE;
      new;
      var i := 0;
      while i < frames
        invariant 0 <= i <= frames && frames <= 8 * bitmap.Length && bitmap.Length == size
        invariant fresh(bitmap)
        invariant base == BaseFrame(kernelEnd, lastFrame)
        invariant Bits() == seq(8 * size, k => k < i)
      {
        SetBit(i);
        i := i + 1;
      }
    }

    method SetBit(i: nat)
      requires i < 8 * bitmap.Length
      modifies bitmap
      ensures Bits() == old(Bits())[i := true]
    {
      var was := bitmap[i / 8];
      bitmap[i / 8] := WithBit(was, i % 8);
      hide Bit, WithBit, WithoutBit;
      forall k | 0 <= k < 8 * bitmap.Length
        ensures Bits()[k] == old(Bits())[i := true][k]
      {
        SameBit(i, k);
        BitSet(was, i % 8, k % 8);
      }
    }

    method ClearBit(i: nat)
      requires i < 8 * bitmap.Length
      modifies bitmap
      ensures Bits() == old(Bits())[i := false]
    {
      var was := bitmap[i / 8];
      bitmap[i / 8] := WithoutBit(was, i % 8);
      hide Bit, WithBit, WithoutBit;
      forall k | 0 <= k < 8 * bitmap.Length
        ensures Bits()[k] == old(Bits())[i := false][k]
      {
        SameBit(i, k);
        BitClear(was, i % 8, k % 8);
      }
    }

    /** First clear bit wins; 0 when every bit is set. */
    method AllocFrame() returns (frame: nat)
      modifies bitmap
      ensures (Bits(), frame) == AllocSpec(old(Bits()), base)
    {
      var total := bitmap.Length * 8;
      var i := 0;
      while i < total
        invariant 0 <= i <= total
        invariant forall k :: 0 <= k < i ==> Bits()[k]
        invariant Bits() == old(Bits())
      {
        if bitmap[i / 8] & Mask(i % 8) == 0 {
          FirstFreeIs(Bits(), 0, i);
          SetBit(i);
          frame := base + i * PAGE_SIZE;
          return;
        }
        assert Bits()[i];
        i := i + 1;
      }
      frame := 0;
    }

    /** Clears the frame's bit; addresses the bitmap does not track are ignored. */
    method FreeFrame(frame: nat)
      modifies bitmap
      ensures Bits() == FreeSpec(old(Bits()), base, frame)
    {
      if frame < base { return; }
      var index := (frame - base) / PAGE_SIZE;
      if index >= bitmap.Length * 8 { return; }
      ClearBit(index);
    }
  }
}
