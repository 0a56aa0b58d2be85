/** Allocation bits packed into bytes: `get_bit` and `set_bit` of crates/kiseki-block/src/allocator.rs. */
module Bitmap {
  import opened Base

  function TwoTo(n: nat): nat { if n == 0 then 1 else 2 * TwoTo(n - 1) }

  /** Bit i of a number, `(b >> i) & 1 == 1`: shift right i times and look at the lowest bit. */
  predicate BitOf(b: nat, i: nat) { if i == 0 then b % 2 == 1 else BitOf(b / 2, i - 1) }

  /** `b | 1 << i` or `b & !(1 << i)`: bit i replaced, the lower and higher bits kept. */
  function WithBit(b: nat, i: nat, v: bool): nat {
    if i == 0 then b / 2 * 2 + (if v then 1 else 0) else WithBit(b / 2, i - 1, v) * 2 + b % 2
  }

  /** Writing one bit changes that bit and no other, and stays inside the word. */
  lemma {:induction false} WithBitBits(b: nat, i: nat, v: bool, j: nat)
    ensures BitOf(WithBit(b, i, v), j) == if i == j then v else BitOf(b, j)
  {
    if i > 0 && j > 0 {
      WithBitBits(b / 2, i - 1, v, j - 1);
    }
  }

  lemma {:induction false} WithBitBound(b: nat, i: nat, v: bool, n: nat)
    requires i < n && b < TwoTo(n)
    ensures WithBit(b, i, v) < TwoTo(n)
  {
    assert TwoTo(n) == 2 * TwoTo(n - 1) && b / 2 < TwoTo(n - 1);
    if i > 0 {
      WithBitBound(b / 2, i - 1, v, n - 1);
    }
  }

  lemma {:induction false} BitsDetermine(a: nat, b: nat, n: nat)
    requires a < TwoTo(n) && b < TwoTo(n)
    requires forall i: nat :: i < n ==> BitOf(a, i) == BitOf(b, i)
    ensures a == b
  {
    if n > 0 {
      assert BitOf(a, 0) == BitOf(b, 0);
      forall i: nat | i < n - 1
        ensures BitOf(a / 2, i) == BitOf(b / 2, i)
      {
        assert BitOf(a, i + 1) == BitOf(b, i + 1);
      }
      BitsDetermine(a / 2, b / 2, n - 1);
    }
  }

  lemma {:induction false} ByteWidth()
    ensures TwoTo(8) == 256
  {
    assert TwoTo(4) == 16;
  }

  /* ---------------------------------------------------------------- the bitmap */

  /** A block past the end of the bitmap counts as allocated. */
  predicate GetBit(bitmap: Bytes, block: nat) {
    if block / 8 < |bitmap| then BitOf(bitmap[block / 8], block % 8) else true
  }

  function SetByte(b: byte, i: nat, v: bool): byte
    requires i < 8
  {
    ByteWidth();
    WithBitBound(b, i, v, 8);
    WithBit(b, i, v)
  }

  /** A block past the end of the bitmap is silently left alone. */
  function SetBit(bitmap: Bytes, block: nat, v: bool): (r: Bytes)
    ensures |r| == |bitmap|
  {
    if block / 8 < |bitmap| then bitmap[block / 8 := SetByte(bitmap[block / 8], block % 8, v)] else bitmap
  }

  lemma {:induction false} GetSet(bitmap: Bytes, block: nat, v: bool, other: nat)
    ensures GetBit(SetBit(bitmap, block, v), other) ==
            if other == block && block / 8 < |bitmap| then v else GetBit(bitmap, other)
  {
    if other / 8 == block / 8 < |bitmap| {
      WithBitBits(bitmap[block / 8], block % 8, v, other % 8);
    }
  }

  /** Blocks s, s + 1, …, s + n - 1 written one after the other. */
  function SetRange(bitmap: Bytes, s: nat, n: nat, v: bool): (r: Bytes)
    ensures |r| == |bitmap|
  {
    if n == 0 then bitmap else SetBit(SetRange(bitmap, s, n - 1, v), s + n - 1, v)
  }

  lemma {:induction false} GetSetRange(bitmap: Bytes, s: nat, n: nat, v: bool, other: nat)
    ensures GetBit(SetRange(bitmap, s, n, v), other) ==
            if s <= other < s + n && other / 8 < |bitmap| then v else GetBit(bitmap, other)
  {
    if n > 0 {
      GetSetRange(bitmap, s, n - 1, v, other);
      GetSet(SetRange(bitmap, s, n - 1, v), s + n - 1, v, other);
    }
  }

  /** Two bitmaps of the same size with the same bits are the same bytes. */
  lemma {:induction false} SameBits(a: Bytes, b: Bytes)
    requires |a| == |b|
    requires forall block: nat :: block < 8 * |a| ==> GetBit(a, block) == GetBit(b, block)
    ensures a == b
  {
    forall n | 0 <= n < |a|
      ensures a[n] == b[n]
    {
      forall i: nat | i < 8
        ensures BitOf(a[n], i) == BitOf(b[n], i)
      {
        assert GetBit(a, 8 * n + i) == GetBit(b, 8 * n + i);
        assert (8 * n + i) / 8 == n && (8 * n + i) % 8 == i;
      }
      ByteWidth();
      BitsDetermine(a[n], b[n], 8);
    }
  }
}
