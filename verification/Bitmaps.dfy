/** On-disk bitmaps: bit i of a bitmap is bit i mod 8 of byte i / 8, 4096 bits to a block. */
module Bitmaps {
  import opened Bytes

  type Disk = seq<Block>

  /** (x >> k) & 1 */
  predicate BitOf(x: nat, k: nat)
    decreases k
  {
    if k == 0 then x % 2 == 1 else BitOf(x / 2, k - 1)
  }

  /** x | (1 << k), or x & ~(1 << k) */
  function SetBitOf(x: nat, k: nat, v: bool): (y: nat)
    decreases k
  {
    if k == 0 then x / 2 * 2 + (if v then 1 else 0) else SetBitOf(x / 2, k - 1, v) * 2 + x % 2
  }

  function Pow2(k: nat): (p: nat)
    ensures p > 0
  {
    if k == 0 then 1 else 2 * Pow2(k - 1)
  }

  /** In a number of n bits the result has n bits. */
  lemma {:induction false} SetBitBound(x: nat, k: nat, v: bool, n: nat)
    requires k < n && x < Pow2(n)
    ensures SetBitOf(x, k, v) < Pow2(n)
    decreases k
  {
    if k > 0 { SetBitBound(x / 2, k - 1, v, n - 1); }
  }

  /** Setting one bit changes that bit and no other. */
  lemma {:induction false} BitOfSet(x: nat, k: nat, v: bool, j: nat)
    ensures BitOf(SetBitOf(x, k, v), j) == if j == k then v else BitOf(x, j)
    decreases k
  {
    if k > 0 && j > 0 { BitOfSet(x / 2, k - 1, v, j - 1); }
  }

  /** The amount by which a number changes when bit k is set or cleared: nothing or 2 to the k. */
  lemma {:induction false} SetBitDelta(x: nat, k: nat, v: bool)
    ensures SetBitOf(x, k, v) == if v == BitOf(x, k) then x else if v then x + Pow2(k) else x - Pow2(k)
    decreases k
  {
    if k > 0 { SetBitDelta(x / 2, k - 1, v); }
  }

  function SetByte(x: Byte, k: nat, v: bool): Byte
    requires k < 8
  {
    SetBitBound(x, k, v, 8);
    assert Pow2(8) == 256;
    SetBitOf(x, k, v)
  }

  predicate InBitmap(d: Disk, start: nat, i: nat) { start + i / 8 / 512 < |d| }

  /** bitmap_get */
  predicate BitAt(d: Disk, start: nat, i: nat)
    requires InBitmap(d, start, i)
  {
    BitOf(d[start + i / 8 / 512][i / 8 % 512], i % 8)
  }

  /** bitmap_set */
  function SetBitAt(d: Disk, start: nat, i: nat, v: bool): (e: Disk)
    requires InBitmap(d, start, i)
    ensures |e| == |d|
  {
    var lba := start + i / 8 / 512;
    d[lba := d[lba][i / 8 % 512 := SetByte(d[lba][i / 8 % 512], i % 8, v)]]
  }

  /** A bitmap is a set of numbers: setting a bit is a set update, at any two indices. */
  lemma BitAtSet(d: Disk, start: nat, i: nat, v: bool, j: nat)
    requires InBitmap(d, start, i) && InBitmap(d, start, j)
    ensures BitAt(SetBitAt(d, start, i, v), start, j) == if j == i then v else BitAt(d, start, j)
  {
    hide BitOf, SetByte;
    SetByteBit(d[start + i / 8 / 512][i / 8 % 512], i % 8, v, j % 8);
    SameBit(i, j);
  }

  lemma SetByteBit(x: Byte, k: nat, v: bool, j: nat)
    requires k < 8 && j < 8
    ensures BitOf(SetByte(x, k, v), j) == if j == k then v else BitOf(x, j)
  {
    BitOfSet(x, k, v, j);
  }

  /** Block, byte and bit together name the index. */
  lemma SameBit(i: nat, j: nat)
    ensures i == j <==> i / 8 / 512 == j / 8 / 512 && i / 8 % 512 == j / 8 % 512 && i % 8 == j % 8
  {
  }

  /** Only the block that holds the bit changes, and in it one byte. */
  lemma SetBitFrame(d: Disk, start: nat, i: nat, v: bool, b: nat)
    requires InBitmap(d, start, i) && b < |d|
    ensures b != start + i / 4096 ==> SetBitAt(d, start, i, v)[b] == d[b]
    ensures forall o :: 0 <= o < 512 && (b != start + i / 4096 || o != i / 8 % 512)
              ==> SetBitAt(d, start, i, v)[b][o] == d[b][o]
  {
    assert i / 8 / 512 == i / 4096;
  }

  /** n bits of a bitmap as flags. */
  function Bits(d: Disk, start: nat, n: nat): (s: seq<bool>)
    requires n == 0 || InBitmap(d, start, n - 1)
    ensures |s| == n
    ensures forall i :: 0 <= i < n ==> InBitmap(d, start, i) && s[i] == BitAt(d, start, i)
  {
    seq(n, i requires 0 <= i < n => BitsIn(d, start, n, i); BitAt(d, start, i))
  }

  lemma BitsIn(d: Disk, start: nat, n: nat, i: nat)
    requires i < n && InBitmap(d, start, n - 1)
    ensures InBitmap(d, start, i)
  {
  }

  lemma BitsSet(d: Disk, start: nat, n: nat, i: nat, v: bool)
    requires i < n && InBitmap(d, start, n - 1)
    ensures InBitmap(d, start, i) && Bits(SetBitAt(d, start, i, v), start, n) == Bits(d, start, n)[i := v]
  {
    BitsIn(d, start, n, i);
    var e := SetBitAt(d, start, i, v);
    forall j | 0 <= j < n ensures Bits(e, start, n)[j] == Bits(d, start, n)[i := v][j] {
      BitsIn(d, start, n, j);
      BitAtSet(d, start, i, v, j);
    }
  }

  /** A bitmap reads the same on disks that agree on its blocks. */
  lemma BitsFrame(d: Disk, e: Disk, start: nat, n: nat)
    requires |e| == |d| && (n == 0 || InBitmap(d, start, n - 1))
    requires forall b :: start <= b < |d| && (b - start) * 4096 < n ==> e[b] == d[b]
    ensures Bits(e, start, n) == Bits(d, start, n)
  {
    forall j | 0 <= j < n ensures Bits(e, start, n)[j] == Bits(d, start, n)[j] {
      BitsIn(d, start, n, j);
      assert j / 8 / 512 == j / 4096;
      var b := start + j / 4096;
      assert (b - start) * 4096 < n;
    }
  }
}
