/** Where the regions of a volume lie, and how format sizes them. */
module Layout {
  import opened Bytes

  const BITS := 4096
  const INODE_SIZE := 76
  const INODES_PER_BLOCK := 6

  /** The numbers kept in the superblock. */
  datatype Layout = Layout(fsSize: nat, inodeCount: nat, ibStart: nat, bbStart: nat, itStart: nat, dataStart: nat)

  /** Regions in order, and each large enough for what is kept in it. */
  predicate GoodLayout(l: Layout) {
    && 1 <= l.ibStart <= l.bbStart <= l.itStart <= l.dataStart < l.fsSize < 0x8000_0000 && l.inodeCount < 0x8000_0000
    && l.inodeCount <= BITS * (l.bbStart - l.ibStart)
    && l.fsSize - l.dataStart <= BITS * (l.itStart - l.bbStart)
    && l.inodeCount <= INODES_PER_BLOCK * (l.dataStart - l.itStart)
  }

  // ---------------------------------------------------------------------
  // The sizing loop

  /** Bitmap blocks needed for the data blocks that remain when b blocks go to the bitmap, out of t in all. */
  function Need(t: nat, b: nat): nat
    requires b <= t
  {
    CeilDiv(t - b, BITS)
  }

  /** The bitmap size that is neither too small nor too large, where there is one. */
  function Settled(t: nat): nat { if t % 4097 == 0 then t / 4097 else t / 4097 + 1 }

  /** b is a fixpoint exactly when it is the settled size and t mod 4097 is not 1. */
  lemma FixpointUnique(t: nat, b: nat)
    requires b <= t
    ensures Need(t, b) == b <==> b == Settled(t) && t % 4097 != 1
  {
    var k, r := t / 4097, t % 4097;
    assert t == 4097 * k + r;
    if b <= k - 1 {
      assert t - b >= 4096 * k + 1;
    } else if b >= k + 2 {
      assert t - b <= 4096 * (k + 1);
    }
  }

  /** One round of the loop: with t = 4097 k + r, a guess within 4096 above k - 1 lands on k or k + 1. */
  lemma NeedNear(t: nat, b: nat)
    requires b <= t
    ensures var k, r := t / 4097, t % 4097;
            && (b < k + r <= b + 4096 ==> Need(t, b) == k + 1)
            && (k + r <= b < k + r + 4096 ==> Need(t, b) == k)
  {
    assert t == 4097 * (t / 4097) + t % 4097;
  }

  /** The first round, from the guess 1. */
  lemma NeedFirst(t: nat)
    requires 2 <= t < 0x8000_0000
    ensures var k := t / 4097; k <= Need(t, 1) <= k + 130 && (t % 4097 == 1 ==> k < Need(t, 1))
  {
    assert t == 4097 * (t / 4097) + t % 4097;
  }

  /** One round in 32-bit unsigned arithmetic, where the blocks to share may be too few. */
  function NeedWrapped(t: int, b: nat): (n: nat)
    ensures n < 0x10_0000
  {
    (((t - b) % TWO32 + BITS - 1) % TWO32) / BITS
  }

  lemma NoWrap(t: nat, b: nat)
    requires b <= t < 0x8000_0000
    ensures NeedWrapped(t, b) == Need(t, b)
  {
    assert (t - b) % TWO32 == t - b && (t - b + BITS - 1) % TWO32 == t - b + BITS - 1;
  }

  /** The guess b before round iter. */
  predicate Guess(t: int, iter: nat, b: nat) {
    var k := t / 4097;
    && b < 0x10_0000
    && (iter == 0 ==> b == 1)
    && (t == 1 ==> b == if iter % 2 == 0 then 1 else 0)
    && (t >= 2 ==>
          && b < t
          && (iter == 1 ==> k <= b <= k + 130 && (t % 4097 == 1 ==> k < b))
          && (iter == 2 ==> (b == k && t % 4097 <= 1) || ((b == k || b == k + 1) && t % 4097 > 1))
          && (iter >= 3 && t % 4097 != 1 ==> b == Settled(t))
          && (iter >= 2 && t % 4097 == 1 ==> b == if iter % 2 == 0 then k else k + 1))
  }

  /** What is known when the loop ends. */
  ghost predicate Fitted(t: int, b: nat) {
    && b < 0x10_0000 && (b < t <==> t >= 2)
    && (t >= 2 && t % 4097 != 1 ==> b == Settled(t) && Need(t, b) == b)
    && (t >= 2 && t % 4097 == 1 ==> t - b == BITS * b + 1)
    && (t >= 2 ==> (t - b <= BITS * b <==> t % 4097 != 1))
  }

  lemma GuessRound(t: int, iter: nat, b: nat)
    requires t < 0x8000_0000 && Guess(t, iter, b) && iter < 8
    ensures var n := NeedWrapped(t, b); if n == b then Fitted(t, b) else Guess(t, iter + 1, n)
  {
    if t >= 2 {
      NoWrap(t, b);
      hide NeedWrapped;
      FixpointUnique(t, b);
      NeedFirst(t);
      NeedNear(t, b);
    } else if t == 1 {
      assert NeedWrapped(1, 1) == 0 && NeedWrapped(1, 0) == 1;
    }
  }

  lemma GuessLast(t: int, b: nat)
    requires t < 0x8000_0000 && Guess(t, 8, b)
    ensures Fitted(t, b)
  {
    if t >= 2 { FixpointUnique(t, b); }
  }

  /**
   * The bitmap size when t blocks are to be shared between bitmap and data: at most 8 rounds from 1. With two blocks
   * or more it leaves a data block, and settles on the one size that fits unless t mod 4097 is 1; then the last data
   * block has no bit in the bitmap. With fewer it leaves none.
   */
  method SizeBitmap(t: int) returns (b: nat)
    requires t < 0x8000_0000
    ensures b < 0x10_0000 && (b < t <==> t >= 2)
    ensures t >= 2 && t % 4097 != 1 ==> b == Settled(t) && Need(t, b) == b
    ensures t >= 2 && t % 4097 == 1 ==> t - b == BITS * b + 1
    ensures t >= 2 ==> (t - b <= BITS * b <==> t % 4097 != 1)
  {
    b := 1;
    var iter := 0;
    assert Guess(t, 0, 1);
    while iter < 8
      invariant 0 <= iter <= 8 && Guess(t, iter, b)
    {
      hide Guess, NeedWrapped;
      GuessRound(t, iter, b);
      var nb := NeedWrapped(t, b);
      if nb == b { return; }
      b := nb;
      iter := iter + 1;
    }
    GuessLast(t, b);
  }

  // ---------------------------------------------------------------------
  // The layout format chooses

  function TableBlocks(n: nat): nat { CeilDiv(INODE_SIZE * n, 512) }

  function InodeBitmapBlocks(n: nat): nat { CeilDiv(n, BITS) }

  function Placed(total: nat, n: nat, b: nat): Layout {
    var ib := InodeBitmapBlocks(n);
    Layout(total, n, 1, 1 + ib, 1 + ib + b, 1 + ib + b + TableBlocks(n))
  }

  /** Inode i has its slot inside the table exactly when i is at most six per table block. */
  lemma SlotInTable(l: Layout, i: nat)
    requires 1 <= i && l.itStart <= l.dataStart
    ensures l.itStart + (i - 1) / INODES_PER_BLOCK < l.dataStart <==> i <= INODES_PER_BLOCK * (l.dataStart - l.itStart)
  {
  }

  /**
   * The table is sized for 76 bytes an inode but stores 6 to a block. It holds all n inodes exactly when it has a
   * block for every six of them; it always does up to 12 inodes and never from 55 on.
   */
  lemma TableFits(n: nat)
    ensures n <= INODES_PER_BLOCK * TableBlocks(n) <==> CeilDiv(n, INODES_PER_BLOCK) <= TableBlocks(n)
    ensures n <= 12 ==> n <= INODES_PER_BLOCK * TableBlocks(n)
    ensures n >= 55 ==> n > INODES_PER_BLOCK * TableBlocks(n)
  {
    assert 512 * TableBlocks(n) <= 76 * n + 511;
    assert 512 * TableBlocks(n) >= 76 * n;
    assert INODES_PER_BLOCK * CeilDiv(n, INODES_PER_BLOCK) >= n > INODES_PER_BLOCK * (CeilDiv(n, INODES_PER_BLOCK) - 1);
  }

  /** The blocks left for bitmap and data when the other regions are placed; may be negative. */
  function Shared(total: nat, n: nat): int { total - 1 - InodeBitmapBlocks(n) - TableBlocks(n) }

  /**
   * The layout part of format. It succeeds if and only if there are ten blocks in all and two to share between
   * bitmap and data. Then the regions are in order, and the layout is good exactly when those to share are not 1
   * modulo 4097 and the table has a block for every six inodes.
   */
  method FormatLayout(total: nat, n: nat) returns (ok: bool, l: Layout)
    requires total < 0x8000_0000 && INODE_SIZE * n + 511 < TWO32
    ensures ok <==> total >= 10 && Shared(total, n) >= 2
    ensures ok ==>
      && l.fsSize == total && l.inodeCount == n
      && 1 == l.ibStart <= l.bbStart <= l.itStart <= l.dataStart < total
      && l.bbStart - l.ibStart == InodeBitmapBlocks(n) && l.dataStart - l.itStart == TableBlocks(n)
      && n <= BITS * (l.bbStart - l.ibStart)
      && (total - l.dataStart <= BITS * (l.itStart - l.bbStart) <==> Shared(total, n) % 4097 != 1)
      && (GoodLayout(l) <==> Shared(total, n) % 4097 != 1 && CeilDiv(n, INODES_PER_BLOCK) <= TableBlocks(n))
  {
    l := Placed(total, n, 1);
    if total < 10 { return false, l; }
    var t := Shared(total, n);
    SharedRange(total, n);
    var b := SizeBitmap(t);
    DataLeft(t, b);
    var data := (t - b) % TWO32;
    if data == 0 || data >= 0x8000_0000 { return false, l; }
    PlacedOrder(total, n, b);
    return true, Placed(total, n, b);
  }

  lemma SharedRange(total: nat, n: nat)
    requires total < 0x8000_0000 && INODE_SIZE * n + 511 < TWO32
    ensures -0x200_0000 < Shared(total, n) < 0x8000_0000 && n < 0x8000_0000
  {
    assert 512 * TableBlocks(n) <= INODE_SIZE * n + 511;
    assert BITS * InodeBitmapBlocks(n) <= n + 4095;
  }

  /** The test on the data blocks, taken as a signed number. */
  lemma DataLeft(t: int, b: nat)
    requires -0x200_0000 < t < 0x8000_0000 && b < 0x10_0000
    ensures 0 < (t - b) % TWO32 < 0x8000_0000 <==> b < t
  {
  }

  lemma PlacedOrder(total: nat, n: nat, b: nat)
    requires total < 0x8000_0000 && n < 0x8000_0000 && b < Shared(total, n)
    ensures var l := Placed(total, n, b); var t := Shared(total, n);
            && l.fsSize == total && l.inodeCount == n
            && 1 == l.ibStart <= l.bbStart <= l.itStart <= l.dataStart < total
            && l.bbStart - l.ibStart == InodeBitmapBlocks(n) && l.dataStart - l.itStart == TableBlocks(n)
            && l.itStart - l.bbStart == b && total - l.dataStart == t - b
            && n <= BITS * (l.bbStart - l.ibStart)
            && (GoodLayout(l) <==> t - b <= BITS * b && CeilDiv(n, INODES_PER_BLOCK) <= TableBlocks(n))
  {
    TableFits(n);
    assert BITS * InodeBitmapBlocks(n) >= n;
    hide TableBlocks, InodeBitmapBlocks, CeilDiv;
  }

  /**
   * The kernel formats 10000 blocks with 1024 inodes: 152 table blocks hold 912 inodes, and the slot of inode
   * 913 is the first data block, which format gives to the root directory.
   */
  lemma KernelFormat()
    ensures var l := Placed(10000, 1024, 3);
            && Need(10000 - 1 - InodeBitmapBlocks(1024) - TableBlocks(1024), 3) == 3
            && l.dataStart == 157 && !GoodLayout(l)
            && l.itStart + (913 - 1) / INODES_PER_BLOCK == l.dataStart
  {
  }
}
