/** The volume as it lies on a disk of 512-byte blocks: what the byte-level edits do to the value. */
module Device {
  import opened Bytes
  import opened Bitmaps
  import opened Layout
  import opened Volume
  import opened Inodes

  // ---------------------------------------------------------------------
  // Inode slots: 76 bytes each, six to a block

  function Words(b: seq<Byte>, o: nat, n: nat): (s: seq<Word>)
    requires o + 4 * n <= |b|
    ensures |s| == n && forall k :: 0 <= k < n ==> s[k] == WordAt(b, o + 4 * k)
  {
    seq(n, k requires 0 <= k < n => WordAt(b, o + 4 * k))
  }

  function Flatten(ws: seq<Word>): (s: seq<Byte>)
    ensures |s| == 4 * |ws|
  {
    if ws == [] then [] else WordBytes(ws[0]) + Flatten(ws[1..])
  }

  lemma {:induction false} FlattenAt(ws: seq<Word>, k: nat)
    requires k < |ws|
    ensures WordAt(Flatten(ws), 4 * k) == ws[k]
  {
    if k == 0 {
      WordAtBytes(ws[0]);
    } else {
      FlattenAt(ws[1..], k - 1);
      assert WordAt(Flatten(ws), 4 * k) == WordAt(Flatten(ws[1..]), 4 * (k - 1));
    }
  }

  function DecodeInode(b: Block, j: nat): Inode
    requires j < 6
  {
    var w := Words(b, 76 * j, 11);
    Inode(w[0], w[1], w[2], w[3..9], w[9], w[10], b[76 * j + 44..76 * j + 76])
  }

  function EncodeInode(ino: Inode): (s: seq<Byte>)
    ensures |s| == 76
  {
    Flatten([ino.mode, ino.size, ino.links] + ino.direct + [ino.indirect, ino.dbl]) + ino.pad
  }

  function PutInodeIn(b: Block, j: nat, ino: Inode): Block
    requires j < 6
  {
    Splice(b, 76 * j, EncodeInode(ino))
  }

  lemma WordAtSplice(b: seq<Byte>, o: nat, s: seq<Byte>, k: nat)
    requires o + |s| <= |b| && k + 4 <= |s|
    ensures WordAt(Splice(b, o, s), o + k) == WordAt(s, k)
  {
  }

  /** Storing one inode changes that inode slot and no other. */
  lemma DecodePut(b: Block, j: nat, ino: Inode, i: nat)
    requires j < 6 && i < 6
    ensures DecodeInode(PutInodeIn(b, j, ino), i) == if i == j then ino else DecodeInode(b, i)
  {
    var c := PutInodeIn(b, j, ino);
    if i == j {
      DecodeSame(b, j, ino);
    } else {
      forall k | 0 <= k < 11 ensures WordAt(c, 76 * i + 4 * k) == WordAt(b, 76 * i + 4 * k) {
      }
      assert Words(c, 76 * i, 11) == Words(b, 76 * i, 11);
      assert c[76 * i + 44..76 * i + 76] == b[76 * i + 44..76 * i + 76];
    }
  }

  lemma DecodeSame(b: Block, j: nat, ino: Inode)
    requires j < 6
    ensures DecodeInode(PutInodeIn(b, j, ino), j) == ino
  {
    var ws: seq<Word> := [ino.mode, ino.size, ino.links] + ino.direct + [ino.indirect, ino.dbl];
    var s := EncodeInode(ino);
    var c := PutInodeIn(b, j, ino);
    forall k | 0 <= k < 11 ensures WordAt(c, 76 * j + 4 * k) == ws[k] {
      FlattenAt(ws, k);
      WordAtSplice(b, 76 * j, s, 4 * k);
      WordAtPrefix(Flatten(ws), ino.pad, 4 * k);
    }
    assert Words(c, 76 * j, 11) == ws;
    assert ws[3..9] == ino.direct;
    assert c[76 * j + 44..76 * j + 76] == s[44..76] == ino.pad;
  }

  lemma WordAtPrefix(s: seq<Byte>, t: seq<Byte>, k: nat)
    requires k + 4 <= |s|
    ensures WordAt(s + t, k) == WordAt(s, k)
  {
  }

  // ---------------------------------------------------------------------
  // The value of a disk

  predicate Fits(l: Layout, d: Disk) { GoodLayout(l) && |d| >= l.fsSize }

  function SlotBlock(l: Layout, n: nat): nat
    requires n > 0
  {
    l.itStart + (n - 1) / 6
  }

  function InodeOn(l: Layout, d: Disk, n: nat): Inode
    requires Fits(l, d) && 1 <= n <= l.inodeCount
  {
    DecodeInode(d[SlotBlock(l, n)], (n - 1) % 6)
  }

  function Table(l: Layout, d: Disk): (s: seq<Inode>)
    requires Fits(l, d)
    ensures |s| == l.inodeCount && forall i :: 0 <= i < |s| ==> s[i] == InodeOn(l, d, i + 1)
  {
    seq(l.inodeCount, i requires 0 <= i < l.inodeCount => InodeOn(l, d, i + 1))
  }

  function DataBlocks(l: Layout): nat
    requires GoodLayout(l)
  {
    l.fsSize - l.dataStart
  }

  /** The volume that the blocks of d encode. */
  function ValueOf(l: Layout, d: Disk): (v: Vol)
    requires Fits(l, d)
    ensures WF(v) && v.base == l.dataStart && |v.data| == DataBlocks(l) && |v.inodes| == l.inodeCount
  {
    Vol(d[0], l.dataStart, Bits(d, l.ibStart, l.inodeCount), Table(l, d), Bits(d, l.bbStart, DataBlocks(l)),
        d[l.dataStart..l.fsSize])
  }

  lemma TableFrame(l: Layout, d: Disk, e: Disk)
    requires Fits(l, d) && |e| == |d| && forall b :: l.itStart <= b < l.dataStart ==> e[b] == d[b]
    ensures Table(l, e) == Table(l, d)
  {
    hide DecodeInode;
    forall i | 0 <= i < l.inodeCount ensures Table(l, e)[i] == Table(l, d)[i] {
      assert l.itStart <= SlotBlock(l, i + 1) < l.dataStart;
    }
  }

  /** Setting a bit of the block bitmap: only that bit of the value changes. */
  lemma SetBlockBit(l: Layout, d: Disk, i: nat, v: bool)
    requires Fits(l, d) && i < DataBlocks(l)
    ensures InBitmap(d, l.bbStart, i)
    ensures var e := SetBitAt(d, l.bbStart, i, v); var x := ValueOf(l, d); ValueOf(l, e) == x.(used := x.used[i := v])
  {
    BitsSet(d, l.bbStart, DataBlocks(l), i, v);
    var e := SetBitAt(d, l.bbStart, i, v);
    forall b | 0 <= b < |d| && b != l.bbStart + i / 4096 ensures e[b] == d[b] { SetBitFrame(d, l.bbStart, i, v, b); }
    assert l.bbStart <= l.bbStart + i / 4096 < l.itStart;
    hide SetBitAt;
    BitsFrame(d, e, l.ibStart, l.inodeCount);
    TableFrame(l, d, e);
    assert e[l.dataStart..l.fsSize] == d[l.dataStart..l.fsSize];
  }

  lemma SetInodeBit(l: Layout, d: Disk, i: nat, v: bool)
    requires Fits(l, d) && i < l.inodeCount
    ensures InBitmap(d, l.ibStart, i)
    ensures var e := SetBitAt(d, l.ibStart, i, v); var x := ValueOf(l, d);
            ValueOf(l, e) == x.(inoUsed := x.inoUsed[i := v])
  {
    BitsSet(d, l.ibStart, l.inodeCount, i, v);
    var e := SetBitAt(d, l.ibStart, i, v);
    forall b | 0 <= b < |d| && b != l.ibStart + i / 4096 ensures e[b] == d[b] { SetBitFrame(d, l.ibStart, i, v, b); }
    assert l.ibStart <= l.ibStart + i / 4096 < l.bbStart;
    hide SetBitAt;
    BitsFrame(d, e, l.bbStart, DataBlocks(l));
    TableFrame(l, d, e);
    assert e[l.dataStart..l.fsSize] == d[l.dataStart..l.fsSize];
  }

  /** Writing a data block. */
  lemma WriteData(l: Layout, d: Disk, p: nat, b: Block)
    requires Fits(l, d) && l.dataStart <= p < l.fsSize
    ensures ValueOf(l, d[p := b]) == SetBlk(ValueOf(l, d), p, b)
  {
    var e := d[p := b];
    BitsFrame(d, e, l.ibStart, l.inodeCount);
    BitsFrame(d, e, l.bbStart, DataBlocks(l));
    TableFrame(l, d, e);
    assert e[l.dataStart..l.fsSize] == d[l.dataStart..l.fsSize][p - l.dataStart := b];
  }

  /** Writing an inode slot. */
  lemma WriteSlot(l: Layout, d: Disk, n: nat, ino: Inode)
    requires Fits(l, d) && 1 <= n <= l.inodeCount
    ensures SlotBlock(l, n) < |d|
    ensures var s := SlotBlock(l, n);
            ValueOf(l, d[s := PutInodeIn(d[s], (n - 1) % 6, ino)]) == PutInode(ValueOf(l, d), n, ino)
  {
    var s := SlotBlock(l, n);
    var b := PutInodeIn(d[s], (n - 1) % 6, ino);
    var e := d[s := b];
    assert l.itStart <= s < l.dataStart;
    BitsFrame(d, e, l.ibStart, l.inodeCount);
    BitsFrame(d, e, l.bbStart, DataBlocks(l));
    assert e[l.dataStart..l.fsSize] == d[l.dataStart..l.fsSize];
    TableSet(l, d, n, ino);
  }

  lemma TableSet(l: Layout, d: Disk, n: nat, ino: Inode)
    requires Fits(l, d) && 1 <= n <= l.inodeCount
    ensures SlotBlock(l, n) < |d|
    ensures var s := SlotBlock(l, n); Table(l, d[s := PutInodeIn(d[s], (n - 1) % 6, ino)]) == Table(l, d)[n - 1 := ino]
  {
    hide DecodeInode, PutInodeIn;
    var s := SlotBlock(l, n);
    var b := PutInodeIn(d[s], (n - 1) % 6, ino);
    var e := d[s := b];
    var t, u := Table(l, d)[n - 1 := ino], Table(l, e);
    forall i | 0 <= i < l.inodeCount ensures u[i] == t[i] {
      DecodePut(d[s], (n - 1) % 6, ino, i % 6);
      SlotIndexIs(i, n - 1);
    }
  }

  lemma SlotIndexIs(i: nat, j: nat)
    ensures i == j <==> i / 6 == j / 6 && i % 6 == j % 6
  {
  }

  /** Reading through the layout is reading the value. */
  lemma ReadBack(l: Layout, d: Disk)
    requires Fits(l, d)
    ensures forall p :: l.dataStart <= p < l.fsSize ==> Blk(ValueOf(l, d), p) == d[p]
    ensures forall n :: 1 <= n <= l.inodeCount ==> GetInode(ValueOf(l, d), n) == InodeOn(l, d, n)
    ensures forall i :: 0 <= i < DataBlocks(l)
              ==> InBitmap(d, l.bbStart, i) && (BitAt(d, l.bbStart, i) <==> ValueOf(l, d).used[i])
    ensures forall i :: 0 <= i < l.inodeCount
              ==> InBitmap(d, l.ibStart, i) && (BitAt(d, l.ibStart, i) <==> ValueOf(l, d).inoUsed[i])
  {
    hide DecodeInode, BitAt;
  }
}
