/** Where the bytes and bits of a volume lie on its disk. */
module OnDisk {
  import opened Bytes
  import opened Volume
  import opened BlockMap
  import opened FileData
  import opened Inodes
  import opened Directory
  import opened Bitmaps
  import opened Layout
  import opened Device

  // ---------------------------------------------------------------------
  // Bits

  /** Bit k is worth 2 to the k. */
  lemma {:induction false} BitOfIs(x: nat, k: nat)
    ensures BitOf(x, k) <==> x / Pow2(k) % 2 == 1
    decreases k
  {
    if k > 0 {
      BitOfIs(x / 2, k - 1);
      Halves(x, Pow2(k - 1));
    }
  }

  lemma Halves(x: nat, p: nat)
    requires p > 0
    ensures x / 2 / p == x / (2 * p)
  {
    var q, r := x / (2 * p), x % (2 * p);
    assert x == 2 * p * q + r;
    assert x / 2 == p * q + r / 2;
    assert r / 2 < p;
    Quotient(p, q, r / 2);
  }

  lemma Quotient(p: nat, q: nat, r: nat)
    requires r < p
    ensures (p * q + r) / p == q
  {
    var x := p * q + r;
    Unique(p, x / p, x % p, q, r);
  }

  lemma Unique(p: nat, d: nat, m: nat, q: nat, r: nat)
    requires m < p && r < p && p * d + m == p * q + r
    ensures d == q
  {
    assert p * (d - q) == r - m;
    if d > q { Larger(p, d - q); }
    if q > d { Larger(p, q - d); }
  }

  lemma Larger(p: nat, k: nat)
    requires k > 0
    ensures p * k >= p
  {
  }

  /** Bit i of the bitmap that starts at a block is bit i mod 8 of byte i / 8, counted from there, the low bit first. */
  lemma BitPlace(d: Disk, start: nat, i: nat)
    requires InBitmap(d, start, i)
    ensures BitAt(d, start, i) <==> (d[start + i / 4096][i / 8 % 512] as nat) / Pow2(i % 8) % 2 == 1
  {
    assert i / 8 / 512 == i / 4096;
    BitOfIs(d[start + i / 4096][i / 8 % 512], i % 8);
  }

  /** Which inodes and data blocks are in use. */
  lemma UsedPlace(l: Layout, d: Disk, n: nat, p: nat)
    requires Device.Fits(l, d) && 1 <= n <= l.inodeCount && l.dataStart <= p < l.fsSize
    ensures var v := ValueOf(l, d); var i, b := n - 1, p - l.dataStart;
            && InBitmap(d, l.ibStart, i) && InBitmap(d, l.bbStart, b)
            && (v.inoUsed[i] <==> (d[l.ibStart + i / 4096][i / 8 % 512] as nat) / Pow2(i % 8) % 2 == 1)
            && (Used(v, p) <==> (d[l.bbStart + b / 4096][b / 8 % 512] as nat) / Pow2(b % 8) % 2 == 1)
  {
    hide BitAt, Pow2;
    assert Bits(d, l.ibStart, l.inodeCount)[n - 1] == BitAt(d, l.ibStart, n - 1);
    assert Bits(d, l.bbStart, DataBlocks(l))[p - l.dataStart] == BitAt(d, l.bbStart, p - l.dataStart);
    BitPlace(d, l.ibStart, n - 1);
    BitPlace(d, l.bbStart, p - l.dataStart);
  }

  // ---------------------------------------------------------------------
  // Inodes and entries

  /** Word k of inode slot n: mode, size, links, six direct pointers, indirect and double-indirect pointer. */
  function SlotWord(l: Layout, d: Disk, n: nat, k: nat): Word
    requires Device.Fits(l, d) && 1 <= n <= l.inodeCount && k < 11
  {
    WordAt(d[l.itStart + (n - 1) / 6], (n - 1) % 6 * 76 + 4 * k)
  }

  lemma InodePlace(l: Layout, d: Disk, n: nat, i: nat)
    requires Device.Fits(l, d) && 1 <= n <= l.inodeCount && i < 6
    ensures var a := GetInode(ValueOf(l, d), n);
            && a.mode == SlotWord(l, d, n, 0) && a.size == SlotWord(l, d, n, 1) && a.links == SlotWord(l, d, n, 2)
            && a.direct[i] == SlotWord(l, d, n, 3 + i)
            && a.indirect == SlotWord(l, d, n, 9) && a.dbl == SlotWord(l, d, n, 10)
  {
    assert GetInode(ValueOf(l, d), n) == InodeOn(l, d, n);
    hide WordAt, ValueOf, GetInode;
    FieldPlace(d[l.itStart + (n - 1) / 6], (n - 1) % 6, i);
  }

  lemma FieldPlace(b: Block, j: nat, i: nat)
    requires j < 6 && i < 6
    ensures var a := DecodeInode(b, j); var o := j * 76;
            && a.mode == WordAt(b, o) && a.size == WordAt(b, o + 4) && a.links == WordAt(b, o + 8)
            && a.direct[i] == WordAt(b, o + 4 * (3 + i))
            && a.indirect == WordAt(b, o + 36) && a.dbl == WordAt(b, o + 40)
  {
    hide WordAt;
    assert 76 * j == j * 76;
  }

  /** An entry: inode number, type, length of the name, two spare bytes, and 64 bytes for the name. */
  lemma EntryPlace(b: Block, j: nat, i: nat)
    requires j < 7 && i < 64
    ensures var e := EntryAt(b, j); var o := 72 * j;
            && e.ino == WordAt(b, o) && e.typ == b[o + 4] && e.len == b[o + 5] && e.name[i] == b[o + 8 + i]
  {
    hide WordAt;
  }

  // ---------------------------------------------------------------------
  // File bytes

  /** The block that holds byte o of file n, found on the raw disk by the pointers of the three tiers; 0 if none. */
  function RawBlock(l: Layout, d: Disk, n: nat, o: nat): Word
    requires Device.Fits(l, d) && 1 <= n <= l.inodeCount
  {
    var b := o / 512;
    if b < 6 then SlotWord(l, d, n, 3 + b)
    else if b < 6 + 128 then RawPtr(d, SlotWord(l, d, n, 9), b - 6)
    else if b < 6 + 128 + 128 * 128 then
      RawPtr(d, RawPtr(d, SlotWord(l, d, n, 10), (b - 134) / 128), (b - 134) % 128)
    else 0
  }

  /** The j-th of the 128 words of block q. */
  function RawPtr(d: Disk, q: Word, j: nat): Word
    requires j < 128
  {
    if q == 0 || q >= |d| then 0 else WordAt(d[q], 4 * j)
  }

  lemma RawSub(l: Layout, d: Disk, q: Word, j: nat)
    requires Device.Fits(l, d) && j < 128 && (q == 0 || InData(ValueOf(l, d), q))
    ensures Sub(ValueOf(l, d), q, j) == RawPtr(d, q, j)
  {
    hide WordAt, Bits, Table;
  }

  /**
   * The bytes of a file, read off the raw disk: byte o is byte o mod 512 of the block its pointers lead to, and a hole
   * where one of them is missing.
   */
  lemma FilePlace(l: Layout, d: Disk, n: nat, o: nat)
    requires Device.Fits(l, d) && 1 <= n <= l.inodeCount && Owned(ValueOf(l, d))
    ensures var p := RawBlock(l, d, n, o);
            && p < |d|
            && FileByte(ValueOf(l, d), n, o) == if p == 0 then Hole else Val(d[p][o % 512])
  {
    hide WordAt, Bits, Table, SlotWord, Own, Sub, RawPtr;
    var v := ValueOf(l, d);
    var b := o / 512;
    InodePlace(l, d, n, if b < 6 then b else 0);
    Pointers(v, n);
    if b >= 134 && b < MAP_LIMIT {
      RawSub(l, d, v.inodes[n - 1].dbl, (b - 134) / 128);
      RawSub(l, d, P(v, v.inodes[n - 1], DblSlot((b - 134) / 128)), (b - 134) % 128);
    } else if b >= 6 && b < 134 {
      RawSub(l, d, v.inodes[n - 1].indirect, b - 6);
    }
    DataPlace(l, d, Lookup(v, v.inodes[n - 1], b));
  }

  lemma Pointers(v: Vol, n: nat)
    requires Owned(v) && 1 <= n <= |v.inodes|
    ensures var a := v.inodes[n - 1];
            && (forall k :: P(v, a, k) == 0 || InData(v, P(v, a, k)))
            && (a.indirect == 0 || InData(v, a.indirect)) && (a.dbl == 0 || InData(v, a.dbl))
  {
    var a := v.inodes[n - 1];
    assert P(v, a, Ind) == a.indirect && P(v, a, Dbl) == a.dbl;
  }

  lemma DataPlace(l: Layout, d: Disk, p: Word)
    requires Device.Fits(l, d) && (p == 0 || InData(ValueOf(l, d), p))
    ensures p < |d| && (p != 0 ==> Blk(ValueOf(l, d), p) == d[p])
  {
    hide Bits, Table;
  }
}
