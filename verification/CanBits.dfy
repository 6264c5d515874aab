/** Bitmaps: bytes whose bits are numbered from the most significant one on. */
module CanBits {
  /** Bit `k` of a byte, counted from the most significant one. */
  function Bit(d: bv8, k: nat): bool
    requires k < 8
  {
    if k == 0 then d & 0x80 != 0
    else if k == 1 then d & 0x40 != 0
    else if k == 2 then d & 0x20 != 0
    else if k == 3 then d & 0x10 != 0
    else if k == 4 then d & 0x08 != 0
    else if k == 5 then d & 0x04 != 0
    else if k == 6 then d & 0x02 != 0
    else d & 0x01 != 0
  }

  function ByteBits(d: bv8): (s: seq<bool>)
    ensures |s| == 8 && forall k :: 0 <= k < 8 ==> s[k] == Bit(d, k)
  {
    seq(8, k requires 0 <= k < 8 => Bit(d, k))
  }

  function BitAt(bitmap: seq<bv8>, i: nat): bool
    requires i < 8 * |bitmap|
  {
    Bit(bitmap[i / 8], i % 8)
  }

  /** The bits [start, end). */
  function BitsOf(bitmap: seq<bv8>, start: nat, end: nat): (s: seq<bool>)
    requires start <= end <= 8 * |bitmap|
    ensures |s| == end - start
    ensures forall i :: 0 <= i < |s| ==> s[i] == BitAt(bitmap, start + i)
  {
    seq(end - start, i requires 0 <= i < end - start => BitAt(bitmap, start + i))
  }

  lemma ByteAt(bitmap: seq<bv8>, j: nat)
    requires j < |bitmap|
    ensures BitsOf(bitmap, 8 * j, 8 * j + 8) == ByteBits(bitmap[j])
  {
    forall k | 0 <= k < 8 ensures BitsOf(bitmap, 8 * j, 8 * j + 8)[k] == ByteBits(bitmap[j])[k] {
      assert (8 * j + k) / 8 == j && (8 * j + k) % 8 == k;
    }
  }

  /** Element `i` of a row of sixteen. */
  function Pick<T>(i: bv16, a0: T, a1: T, a2: T, a3: T, a4: T, a5: T, a6: T, a7: T,
                   a8: T, a9: T, a10: T, a11: T, a12: T, a13: T, a14: T, a15: T): T {
    if i & 8 == 0 then
      if i & 4 == 0 then
        if i & 2 == 0 then (if i & 1 == 0 then a0 else a1) else (if i & 1 == 0 then a2 else a3)
      else
        if i & 2 == 0 then (if i & 1 == 0 then a4 else a5) else (if i & 1 == 0 then a6 else a7)
    else
      if i & 4 == 0 then
        if i & 2 == 0 then (if i & 1 == 0 then a8 else a9) else (if i & 1 == 0 then a10 else a11)
      else
        if i & 2 == 0 then (if i & 1 == 0 then a12 else a13) else (if i & 1 == 0 then a14 else a15)
  }
}
