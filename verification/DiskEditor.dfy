/** The disk editor: a second implementation of the block map on the same image. */
module DiskEditor {
  import opened Bytes
  import opened Volume
  import opened BlockMap
  import opened FileData
  import opened Inodes
  import opened Device

  // ---------------------------------------------------------------------
  // Enough free blocks

  /** A walk takes at most one block for each level, and with that many free it does not fail. */
  lemma {:induction false} WalkCount(v: Vol, t: seq<Inode>, n: nat, ks: seq<Key>)
    requires WF(v) && Own(v, t) && n < |t| && Ready(v, t[n], ks)
    ensures var g := Walk(v, t[n], ks, true);
            && FreeCount(g.v.used) + |ks| >= FreeCount(v.used)
            && (FreeCount(v.used) >= |ks| ==> g.phys >= 0)
    decreases |ks|
  {
    hide Own, Grow, P, Grew, DataKept;
    if P(v, t[n], ks[0]) != 0 {
      if |ks| > 1 {
        OwnedIsUsed(v, t, n, ks[0]);
        ReadyNext(v, t[n], ks);
        WalkCount(v, t, n, ks[1..]);
      }
    } else {
      var h := Grow(v, t[n], ks[0]);
      GrowCount(v, t[n], ks[0]);
      if h.phys >= 0 && |ks| > 1 {
        GrownReady(v, t, n, ks);
        WalkCount(h.v, t[n := h.ino], n, ks[1..]);
      }
    }
  }

  lemma GrownReady(v: Vol, t: seq<Inode>, n: nat, ks: seq<Key>)
    requires WF(v) && Own(v, t) && n < |t| && Ready(v, t[n], ks) && |ks| > 1
    requires P(v, t[n], ks[0]) == 0 && Grow(v, t[n], ks[0]).phys >= 0
    ensures var h := Grow(v, t[n], ks[0]); Own(h.v, t[n := h.ino]) && Ready(h.v, h.ino, ks[1..])
  {
    var h := Grow(v, t[n], ks[0]);
    GrowGrew(v, t, n, ks[0]);
    GrowOwn(v, t, n, ks[0]);
    OwnedIsUsed(h.v, t[n := h.ino], n, ks[0]);
    ReadyNext(h.v, h.ino, ks);
  }

  /** Three free blocks are enough for any index within the map. */
  lemma ThreeSuffice(v: Vol, t: seq<Inode>, n: nat, l: nat)
    requires WF(v) && Own(v, t) && n < |t| && l < MAP_LIMIT
    ensures var g := GetBlock(v, t[n], l, true);
            FreeCount(g.v.used) + 3 >= FreeCount(v.used) && (FreeCount(v.used) >= 3 ==> g.phys >= 0)
  {
    PathIsChain(l);
    WalkCount(v, t, n, PathOf(l));
  }

  // ---------------------------------------------------------------------
  // Whole files

  /** The data as put stores it: whole blocks, the last one filled up with zeros. */
  function Padded(data: seq<Byte>): (p: seq<Byte>)
    ensures |p| == 512 * CeilDiv(|data|, 512) && |data| <= |p| && p[..|data|] == data
  {
    data + Zeros(512 * CeilDiv(|data|, 512) - |data|)
  }

  /** Block i of the data. */
  function Chunk(data: seq<Byte>, i: nat): Block
    requires i < CeilDiv(|data|, 512)
  {
    Padded(data)[512 * i..512 * i + 512]
  }

  /** Blocks b and on of a file, one after the other, up to block n. */
  function CatFrom(v: Vol, ino: Inode, b: nat, n: nat): seq<Byte>
    decreases n - b
  {
    if b >= n then [] else Blk(v, Lookup(v, ino, b)) + CatFrom(v, ino, b + 1, n)
  }

  /** No block within the size is missing. */
  ghost predicate Whole(v: Vol, ino: Inode) { forall b :: 0 <= b < CeilDiv(ino.size, 512) ==> Lookup(v, ino, b) != 0 }

  /** cat */
  function Cat(v: Vol, n: int): seq<Byte> {
    var ino := GetInode(v, n);
    var s := CatFrom(v, ino, 0, CeilDiv(ino.size, 512));
    s[..Min(ino.size, |s|)]
  }

  lemma {:induction false} CatAt(v: Vol, ino: Inode, b: nat, n: nat)
    requires b <= n
    ensures |CatFrom(v, ino, b, n)| == 512 * (n - b)
    ensures forall o :: 0 <= o < 512 * (n - b)
              ==> CatFrom(v, ino, b, n)[o] == Blk(v, Lookup(v, ino, b + o / 512))[o % 512]
    decreases n - b
  {
    hide Lookup, Blk;
    if b < n {
      CatAt(v, ino, b + 1, n);
      var r := CatFrom(v, ino, b + 1, n);
      var s := CatFrom(v, ino, b, n);
      forall o | 0 <= o < 512 * (n - b) ensures s[o] == Blk(v, Lookup(v, ino, b + o / 512))[o % 512] {
        if o >= 512 {
          assert s[o] == r[o - 512];
          assert b + 1 + (o - 512) / 512 == b + o / 512 && (o - 512) % 512 == o % 512;
        }
      }
    }
  }

  /** On a file without holes cat prints the bytes of the file, as many as the size says. */
  lemma CatBytes(v: Vol, n: int, o: nat)
    requires WF(v) && Whole(v, GetInode(v, n)) && o < GetInode(v, n).size
    ensures |Cat(v, n)| == GetInode(v, n).size && FileByte(v, n, o) == Val(Cat(v, n)[o])
  {
    hide Lookup, CatFrom;
    var ino := GetInode(v, n);
    CatAt(v, ino, 0, CeilDiv(ino.size, 512));
    assert o / 512 < CeilDiv(ino.size, 512);
  }

  /** On a file without holes cat is the kernel's read of the whole file. */
  lemma CatIsRead(v: Vol, n: int)
    requires WF(v) && Whole(v, GetInode(v, n))
    ensures Cat(v, n) == ReadFile(v, n, 0, GetInode(v, n).size)
  {
    hide ReadFrom, Lookup, ByteAt, CatFrom, Blk;
    var ino := GetInode(v, n);
    var m := CeilDiv(ino.size, 512);
    CatAt(v, ino, 0, m);
    ReadIsPrefix(v, ino, 0, ino.size);
    var r := ReadFrom(v, ino, 0, ino.size);
    if |r| < ino.size { NoHole(v, ino, |r|); }
    forall o | 0 <= o < ino.size ensures Cat(v, n)[o] == r[o] {
      NoHole(v, ino, o);
      assert ByteAt(v, ino, 0 + o) == Val(r[o]);
    }
    assert ino.size > 0 ==> ReadFile(v, n, 0, ino.size) == r;
  }

  lemma NoHole(v: Vol, ino: Inode, o: nat)
    requires Whole(v, ino) && o < ino.size
    ensures ByteAt(v, ino, o) == Val(Blk(v, Lookup(v, ino, o / 512))[o % 512])
  {
    assert o / 512 < CeilDiv(ino.size, 512);
    assert Lookup(v, ino, o / 512) != 0;
  }

  /** The inode as the editor reads it: without the padding. */
  function Bare(ino: Inode): Inode { ino.(pad := Zeros(32)) }

  /** What put does to the blocks of an existing file before it writes. */
  function Emptied(v: Vol, n: int): (w: Vol)
    requires WF(v)
    ensures WF(w) && SameFrame(v, w)
  {
    var a := Bare(GetInode(v, n));
    PutInode(v.(used := ClearBits(v.used, v.base, FreedPtrs(v, a))), n, FreedInode(a).(size := 0))
  }

  /** The block phase of put: the old blocks go, the data goes in, block by block. */
  function Put(v: Vol, n: int, data: seq<Byte>): (w: Vol)
    requires WF(v) && |data| < TWO32
    ensures WF(w) && SameFrame(v, w)
  {
    var u := Emptied(v, n);
    var r := WriteFrom(u, GetInode(u, n), 0, Padded(data));
    PutInode(r.v, n, r.ino.(size := |data|))
  }

  /** Every block of the data finds a place. */
  predicate PutFits(v: Vol, n: int, data: seq<Byte>)
    requires WF(v)
  {
    WriteFrom(Emptied(v, n), GetInode(Emptied(v, n), n), 0, Padded(data)).n == |Padded(data)|
  }

  lemma EmptiedOwned(v: Vol, n: int)
    requires Owned(v) && InoValid(v, n)
    ensures Owned(Emptied(v, n))
  {
    var x := Inodes.FreeInode(v, n);
    var w := Emptied(v, n);
    FreeInodeOwned(v, n);
    assert FreedPtrs(v, Bare(v.inodes[n - 1])) == FreedPtrs(v, v.inodes[n - 1]);
    hide Own, FreedPtrs, ClearBits;
    OwnFields(x, x.inodes, w, w.inodes);
  }

  /**
   * Before it writes, put gives back what free_inode would, and no bit besides; the pointers to it are gone, but not
   * those of the double-indirect tree.
   */
  lemma EmptiedExact(v: Vol, n: int, p: int, k: Key)
    requires WF(v) && InoValid(v, n)
    ensures var w := Emptied(v, n); var a := v.inodes[n - 1];
            && (Used(w, p) <==> Used(v, p) && !exists j :: FreedKey(a, j) && P(v, a, j) == p)
            && P(w, w.inodes[n - 1], k) == if FreedKey(a, k) then 0 else P(v, a, k)
  {
    var a := v.inodes[n - 1];
    var x, w := Inodes.FreeInode(v, n), Emptied(v, n);
    assert FreedPtrs(v, Bare(a)) == FreedPtrs(v, a);
    hide FreedPtrs, ClearBits;
    FreeUsed(v, n, p);
    FreePtr(v, n, n - 1, k);
    PtrFields(x, w, x.inodes[n - 1], w.inodes[n - 1], k);
  }

  /** The slot after put: the old mode and links, the new size, no padding; and the inode bitmap as it was. */
  lemma PutAttrs(v: Vol, n: int, data: seq<Byte>)
    requires Owned(v) && InoValid(v, n) && |data| < TWO32
    ensures var w := Put(v, n, data); var a, b := GetInode(v, n), GetInode(w, n);
            && b.mode == a.mode && b.links == a.links && b.size == |data| && b.pad == Zeros(32)
            && w.inoUsed == v.inoUsed
            && (forall m :: InoValid(v, m) && m != n ==> GetInode(w, m) == GetInode(v, m))
  {
    var u := Emptied(v, n);
    EmptiedOwned(v, n);
    hide WriteFrom, Grew, Own, OthersKept, Padded, FreedPtrs, ClearBits;
    var r := WriteFrom(u, u.inodes[n - 1], 0, Padded(data));
    WriteKeeps(u, u.inodes, n - 1, 0, Padded(data));
    GrewShape(u, u.inodes, n - 1, r.v, r.ino);
  }

  /**
   * What put stored, cat returns, whatever the file held before; ownership is kept, and the bytes of every other
   * file too.
   */
  lemma PutThenCat(v: Vol, n: int, data: seq<Byte>)
    requires Owned(v) && InoValid(v, n) && |data| < TWO32 && PutFits(v, n, data)
    ensures var w := Put(v, n, data); Owned(w) && Cat(w, n) == data
  {
    var u := Emptied(v, n);
    EmptiedOwned(v, n);
    var a := GetInode(u, n);
    var p := Padded(data);
    var r := WriteFrom(u, a, 0, p);
    var w := Put(v, n, data);
    var ino := GetInode(w, n);
    WriteKeeps(u, u.inodes, n - 1, 0, p);
    GrewShape(u, u.inodes, n - 1, r.v, r.ino);
    PutOwned(u, n, r.v, r.ino, |data|);
    hide WriteFrom, Grew, Own, OthersKept, Padded, Cat, ByteAt, Emptied, Put, FreedPtrs, FreedInode, ClearBits, Lookup;
    forall o | 0 <= o < |p| ensures ByteAt(w, ino, o) == Val(p[o]) {
      WriteBytes(u, u.inodes, n - 1, 0, p, o);
      assert p[..|p|] == p;
      ByteFields(r.v, w, r.ino, ino, o);
    }
    CatBack(w, n, p, data);
  }

  lemma CatBack(w: Vol, n: int, p: seq<Byte>, data: seq<Byte>)
    requires WF(w) && GetInode(w, n).size == |data| && |p| == 512 * CeilDiv(|data|, 512) && |data| <= |p|
             && p[..|data|] == data
    requires forall o :: 0 <= o < |p| ==> ByteAt(w, GetInode(w, n), o) == Val(p[o])
    ensures Cat(w, n) == data
  {
    var ino := GetInode(w, n);
    var m := CeilDiv(|data|, 512);
    CatAt(w, ino, 0, m);
    forall o | 0 <= o < |p| ensures CatFrom(w, ino, 0, m)[o] == p[o] {
      assert ByteAt(w, ino, o) == Val(p[o]);
    }
    assert CatFrom(w, ino, 0, m) == p;
  }

  lemma PutOwned(u: Vol, n: int, v: Vol, ino: Inode, size: Word)
    requires WF(u) && InoValid(u, n) && SameShape(u, v) && Own(v, u.inodes[n - 1 := ino])
    ensures var w := PutInode(v, n, ino.(size := size));
            Owned(w) && GetInode(w, n) == ino.(size := size) && w.data == v.data && w.base == v.base
  {
    var w := PutInode(v, n, ino.(size := size));
    OwnFields(v, u.inodes[n - 1 := ino], w, w.inodes);
  }

  /** The other files keep their bytes. */
  lemma PutIsolated(v: Vol, n: int, data: seq<Byte>, m: int, o: nat)
    requires Owned(v) && InoValid(v, n) && |data| < TWO32 && InoValid(v, m) && m != n
    ensures FileByte(Put(v, n, data), m, o) == FileByte(v, m, o)
  {
    hide WriteFrom, Grew, Own, OthersKept, Padded, ByteAt, Undisturbed, Emptied, Put;
    var u := Emptied(v, n);
    EmptiedOwned(v, n);
    EmptiedShape(v, n);
    var p := Padded(data);
    var r := WriteFrom(u, u.inodes[n - 1], 0, p);
    PutShape(v, n, data);
    WriteKeeps(u, u.inodes, n - 1, 0, p);
    GrewShape(u, u.inodes, n - 1, r.v, r.ino);
    GrewUndisturbed(u, u.inodes, n - 1, r.v, r.ino, m - 1);
    var a := v.inodes[m - 1];
    ByteFields(v, u, a, a, o);
    UndisturbedBytes(u, r.v, a, o);
    ByteFields(r.v, Put(v, n, data), a, a, o);
  }

  lemma EmptiedShape(v: Vol, n: int)
    requires WF(v) && InoValid(v, n)
    ensures var u := Emptied(v, n);
            && u.data == v.data && u.base == v.base && |u.inodes| == |v.inodes|
            && (forall m :: 0 <= m < |v.inodes| && m != n - 1 ==> u.inodes[m] == v.inodes[m])
  {
    hide ClearBits, FreedPtrs, FreedInode;
  }

  lemma PutShape(v: Vol, n: int, data: seq<Byte>)
    requires WF(v) && InoValid(v, n) && |data| < TWO32
    ensures var u := Emptied(v, n); var r := WriteFrom(u, u.inodes[n - 1], 0, Padded(data)); var w := Put(v, n, data);
            && w == PutInode(r.v, n, r.ino.(size := |data|)) && w.data == r.v.data && w.base == r.v.base
  {
    hide WriteFrom, Padded, Emptied;
  }

  /** Three free blocks for each block of data are enough. */
  lemma {:induction false} PutSucceeds(v: Vol, t: seq<Inode>, n: nat, i: nat, p: seq<Byte>)
    requires WF(v) && Own(v, t) && n < |t| && |p| % 512 == 0 && i + |p| / 512 <= MAP_LIMIT
    requires FreeCount(v.used) >= 3 * (|p| / 512)
    ensures WriteFrom(v, t[n], 512 * i, p).n == |p|
    decreases |p|
  {
    hide WriteFrom, Own, Grew, OthersKept, FirstChunk, FreeCount;
    if p == [] {
      WriteNothing(v, t[n], 512 * i, Hole, 0);
    } else {
      var f := FirstChunk(v, t[n], 512 * i, p);
      WriteUnfold(v, t[n], 512 * i, p);
      FirstChunkEffect(v, t, n, 512 * i, p);
      FirstFits(v, t, n, i, p);
      PutSucceeds(f.v, t[n := f.ino], n, i + 1, p[512..]);
    }
  }

  lemma FirstFits(v: Vol, t: seq<Inode>, n: nat, i: nat, p: seq<Byte>)
    requires WF(v) && Own(v, t) && n < |t| && |p| >= 512 && i < MAP_LIMIT && FreeCount(v.used) >= 3
    ensures var f := FirstChunk(v, t[n], 512 * i, p); f.n == 512 && FreeCount(f.v.used) + 3 >= FreeCount(v.used)
  {
    hide GetBlock, Own, FreeCount;
    ThreeSuffice(v, t, n, i);
    assert 512 * i / 512 == i && 512 * i % 512 == 0;
  }

  lemma {:induction false} CountClear(used: seq<bool>, base: nat, ps: seq<Word>)
    ensures FreeCount(ClearBits(used, base, ps)) >= FreeCount(used)
    decreases |ps|
  {
    hide FreeCount;
    if ps != [] {
      CountClear(used, base, ps[..|ps| - 1]);
      var p := ps[|ps| - 1];
      if p != 0 && base <= p < base + |used| { CountUnset(ClearBits(used, base, ps[..|ps| - 1]), p - base); }
    }
  }

  /** So put never runs short when three blocks are free for each block of data. */
  lemma PutFitsIf(v: Vol, n: int, data: seq<Byte>)
    requires Owned(v) && InoValid(v, n) && CeilDiv(|data|, 512) <= MAP_LIMIT
    requires FreeCount(v.used) >= 3 * CeilDiv(|data|, 512)
    ensures PutFits(v, n, data)
  {
    hide WriteFrom, Own, FreeCount, Padded, Emptied;
    var u := Emptied(v, n);
    EmptiedOwned(v, n);
    EmptiedShape(v, n);
    EmptiedUsed(v, n);
    PutSucceeds(u, u.inodes, n - 1, 0, Padded(data));
  }

  lemma EmptiedUsed(v: Vol, n: int)
    requires WF(v) && InoValid(v, n)
    ensures FreeCount(Emptied(v, n).used) >= FreeCount(v.used)
  {
    hide FreeCount, ClearBits, FreedPtrs;
    CountClear(v.used, v.base, FreedPtrs(v, Bare(v.inodes[n - 1])));
  }

  // ---------------------------------------------------------------------
  // Deleting

  /** A pointer block's pointers, and the block itself. */
  function Branch(v: Vol, q: Word): seq<Word> { if q == 0 then [] else Ptrs(Blk(v, q)) + [q] }

  /** What hangs at the first i pointers of a double-indirect block. */
  function Branches(v: Vol, b: Block, i: nat): seq<Word>
    requires i <= 128
  {
    if i == 0 then [] else Branches(v, b, i - 1) + Branch(v, PtrAt(b, i - 1))
  }

  function DblTree(v: Vol, q: Word): seq<Word> { if q == 0 then [] else Branches(v, Blk(v, q), 128) + [q] }

  /** Everything the freeing phase of delete gives back. */
  function AllPtrs(v: Vol, ino: Inode): seq<Word> { FreedPtrs(v, ino) + DblTree(v, ino.dbl) }

  /** The freeing phase of delete: bits of blocks and inode cleared, the slot zeroed. */
  function Delete(v: Vol, n: int): (w: Vol)
    requires WF(v)
    ensures WF(w) && SameFrame(v, w)
  {
    if !InoValid(v, n) then v
    else v.(used := ClearBits(v.used, v.base, AllPtrs(v, v.inodes[n - 1])),
            inoUsed := v.inoUsed[n - 1 := false],
            inodes := v.inodes[n - 1 := ZERO_INODE])
  }

  /** Slot a of the block q leads to p: it names p, or a pointer block that does. */
  ghost predicate Leads(v: Vol, q: Word, a: nat, p: Word) {
    Sub(v, q, a) == p || exists b: nat :: Sub(v, Sub(v, q, a), b) == p
  }

  lemma {:induction false} BranchesAre(v: Vol, q: Word, i: nat, p: Word)
    requires i <= 128 && p != 0 && q != 0
    ensures p in Branches(v, Blk(v, q), i) <==> exists a: nat :: a < i && Leads(v, q, a, p)
    decreases i
  {
    hide Blk, Branch, Leads;
    if i > 0 {
      BranchesAre(v, q, i - 1, p);
      BranchLeads(v, q, i - 1, p);
      assert Branches(v, Blk(v, q), i) == Branches(v, Blk(v, q), i - 1) + Branch(v, Sub(v, q, i - 1));
    }
  }

  lemma BranchLeads(v: Vol, q: Word, a: nat, p: Word)
    requires p != 0
    ensures p in Branch(v, Sub(v, q, a)) <==> Leads(v, q, a, p)
  {
    hide Sub, Branch;
    BranchIs(v, Sub(v, q, a), p);
  }

  lemma BranchIs(v: Vol, q: Word, p: Word)
    requires p != 0
    ensures p in Branch(v, q) <==> q == p || exists b: nat :: Sub(v, q, b) == p
  {
    if q != 0 {
      var s := Ptrs(Blk(v, q));
      if p in s {
        var j :| 0 <= j < 128 && s[j] == p;
        assert Sub(v, q, j) == p;
      }
      if b: nat :| Sub(v, q, b) == p { assert s[b] == p; }
    }
  }

  /** The keys delete gives back: all within the size. */
  predicate DeletedKey(ino: Inode, k: Key) { k.Direct? ==> k.i < FreedDirects(ino) }

  lemma AllPtrsAre(v: Vol, ino: Inode, p: Word)
    requires p != 0
    ensures p in AllPtrs(v, ino) <==> exists k :: DeletedKey(ino, k) && P(v, ino, k) == p
  {
    hide Blk;
    FreedPtrsAre(v, ino, p);
    DblTreeIs(v, ino, p);
    if p in AllPtrs(v, ino) {
      if p in FreedPtrs(v, ino) {
        var k :| FreedKey(ino, k) && P(v, ino, k) == p;
        assert DeletedKey(ino, k);
      } else {
        var k :| DblKey(k) && P(v, ino, k) == p;
        assert DeletedKey(ino, k);
      }
    }
    if k :| DeletedKey(ino, k) && P(v, ino, k) == p {
      assert DblKey(k) || FreedKey(ino, k);
    }
  }

  lemma DblTreeIs(v: Vol, ino: Inode, p: Word)
    requires p != 0
    ensures p in DblTree(v, ino.dbl) <==> exists k :: DblKey(k) && P(v, ino, k) == p
  {
    hide Blk, Branches;
    if ino.dbl != 0 {
      BranchesAre(v, ino.dbl, 128, p);
      if p == ino.dbl { assert P(v, ino, Dbl) == p; }
      if a: nat :| a < 128 && Leads(v, ino.dbl, a, p) {
        if Sub(v, ino.dbl, a) == p {
          assert P(v, ino, DblSlot(a)) == p;
        } else {
          var b: nat :| Sub(v, Sub(v, ino.dbl, a), b) == p;
          assert P(v, ino, Leaf(a, b)) == p;
        }
      }
      if k :| DblKey(k) && P(v, ino, k) == p {
        match k
        case Dbl =>
        case DblSlot(a) => assert a < 128 && Leads(v, ino.dbl, a, p);
        case Leaf(a, b) => assert a < 128 && Leads(v, ino.dbl, a, p);
      }
    } else if k :| DblKey(k) && P(v, ino, k) == p {
      assert false;
    }
  }

  /**
   * With no direct pointer beyond the size, delete clears exactly the bits of the blocks the inode owned, the whole
   * double-indirect tree with them.
   */
  lemma DeleteExact(v: Vol, n: int, p: int)
    requires Owned(v) && InoValid(v, n) && DirectBound(v.inodes[n - 1]) && p != 0
    ensures Used(Delete(v, n), p) <==> Used(v, p) && !Holds(v, v.inodes[n - 1], p)
  {
    var ino := v.inodes[n - 1];
    if InData(v, p) {
      ClearBitsIs(v.used, v.base, AllPtrs(v, ino), p - v.base);
      AllPtrsAre(v, ino, p);
      forall k | P(v, ino, k) == p ensures DeletedKey(ino, k) {
      }
    }
  }

  /** Delete keeps ownership, and leaves every other file's bytes. */
  lemma DeleteOwned(v: Vol, n: int)
    requires Owned(v) && InoValid(v, n)
    ensures Owned(Delete(v, n))
    ensures forall m, o: nat :: InoValid(v, m) && m != n ==> FileByte(Delete(v, n), m, o) == FileByte(v, m, o)
  {
    var w := Delete(v, n);
    var ino := v.inodes[n - 1];
    hide AllPtrs, ByteAt;
    forall m, k | 0 <= m < |v.inodes| && P(w, w.inodes[m], k) != 0
      ensures P(w, w.inodes[m], k) == P(v, v.inodes[m], k) && Used(w, P(w, w.inodes[m], k))
    {
      if m == n - 1 { ZeroInodeEmpty(w, k); }
      PtrFields(v, w, v.inodes[m], v.inodes[m], k);
      var p := P(v, v.inodes[m], k);
      ClearBitsIs(v.used, v.base, AllPtrs(v, ino), p - v.base);
      AllPtrsAre(v, ino, p);
    }
    OwnShrink(v, v.inodes, w, w.inodes);
    forall m, o: nat | InoValid(v, m) && m != n ensures FileByte(w, m, o) == FileByte(v, m, o) {
      ByteFields(v, w, v.inodes[m - 1], v.inodes[m - 1], o);
    }
  }

  /** Delete clears the slot and its bit, and changes no block and no other slot. */
  lemma DeleteLeaves(v: Vol, n: int, m: int)
    requires WF(v) && InoValid(v, n)
    ensures var w := Delete(v, n);
            && GetInode(w, n) == Inode(0, 0, 0, [0, 0, 0, 0, 0, 0], 0, 0, Zeros(32))
            && w.inoUsed == v.inoUsed[n - 1 := false] && w.data == v.data
            && (InoValid(v, m) && m != n ==> GetInode(w, m) == GetInode(v, m))
  {
    hide AllPtrs, ClearBits;
  }

  /** The two ways of freeing agree on the bitmap if and only if the file had no double-indirect tree. */
  lemma SameFreeingIff(v: Vol, n: int)
    requires Owned(v) && InoValid(v, n) && DirectBound(v.inodes[n - 1])
    ensures Delete(v, n).used == Inodes.FreeInode(v, n).used <==> v.inodes[n - 1].dbl == 0
  {
    if v.inodes[n - 1].dbl == 0 {
      SameFreeing(v, n);
    } else {
      OtherFreeing(v, n);
    }
  }

  lemma SameFreeing(v: Vol, n: int)
    requires WF(v) && InoValid(v, n) && v.inodes[n - 1].dbl == 0
    ensures Delete(v, n).used == Inodes.FreeInode(v, n).used
  {
    assert AllPtrs(v, v.inodes[n - 1]) == FreedPtrs(v, v.inodes[n - 1]);
    hide ClearBits, AllPtrs, FreedPtrs;
  }

  lemma OtherFreeing(v: Vol, n: int)
    requires Owned(v) && InoValid(v, n) && DirectBound(v.inodes[n - 1]) && v.inodes[n - 1].dbl != 0
    ensures Delete(v, n).used != Inodes.FreeInode(v, n).used
  {
    var ino := v.inodes[n - 1];
    assert P(v, ino, Dbl) == ino.dbl;
    assert Used(v, ino.dbl);
    hide ClearBits, AllPtrs, FreedPtrs, Own, P, DirectBound, Delete, Inodes.FreeInode;
    DeleteExact(v, n, ino.dbl);
    FreeExact(v, n, ino.dbl);
    OnlyDbl(v, n);
    assert Holds(v, ino, ino.dbl);
  }

  lemma OnlyDbl(v: Vol, n: int)
    requires Owned(v) && InoValid(v, n) && v.inodes[n - 1].dbl != 0
    ensures forall k :: P(v, v.inodes[n - 1], k) == v.inodes[n - 1].dbl ==> DblKey(k)
  {
    assert P(v, v.inodes[n - 1], Dbl) == v.inodes[n - 1].dbl;
  }
}
