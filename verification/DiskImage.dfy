/** The image file as the disk editor reads and rewrites it, block by block. */
module DiskImage {
  import opened Bytes
  import opened Bitmaps
  import opened Layout
  import opened Volume
  import opened BlockMap
  import opened FileData
  import opened Inodes
  import opened Device
  import opened DiskEditor
  import opened IpoFs

  /** Where allocation is asked for, it succeeds. */
  ghost predicate Succeeds(v: Vol, ino: Inode, ks: seq<Key>, alloc: bool)
    requires WF(v) && |ks| > 0
  {
    alloc ==> Walk(v, ino, ks, alloc).phys >= 0
  }

  class Image {
    const sb: Layout
    var disk: seq<Block>

    constructor (l: Layout, d: seq<Block>)
      requires Fits(l, d)
      ensures Valid() && sb == l && disk == d
    {
      sb, disk := l, d;
    }

    ghost predicate Valid()
      reads this
    {
      Fits(sb, disk)
    }

    ghost function V(): (v: Vol)
      requires Valid()
      reads this
      ensures WF(v) && v.base == sb.dataStart && |v.data| == DataBlocks(sb) && |v.inodes| == sb.inodeCount
    {
      ValueOf(sb, disk)
    }

    method ReadBlock(p: nat) returns (b: Block)
      requires Valid() && InData(V(), p)
      ensures b == Blk(V(), p)
    {
      ReadBack(sb, disk);
      b := disk[p];
    }

    method WriteBlock(p: nat, b: Block)
      requires Valid() && InData(V(), p)
      modifies this`disk
      ensures Valid() && V() == SetBlk(old(V()), p, b)
    {
      WriteData(sb, disk, p, b);
      disk := disk[p := b];
    }

    /** bitmap_get */
    method BitmapGet(start: nat, bit: nat) returns (b: bool)
      requires InBitmap(disk, start, bit)
      ensures b == BitAt(disk, start, bit)
    {
      b := BitOf(disk[start + bit / 8 / 512][bit / 8 % 512], bit % 8);
    }

    /** bitmap_set: the same update of the same block as the kernel's. */
    method BitmapSet(start: nat, bit: nat, val: bool)
      requires InBitmap(disk, start, bit)
      modifies this`disk
      ensures disk == SetBitAt(old(disk), start, bit, val)
    {
      var off := bit / 8 % 512;
      var buf := disk[start + bit / 8 / 512];
      buf := buf[off := SetByte(buf[off], bit % 8, val)];
      disk := disk[start + bit / 8 / 512 := buf];
    }

    /** read_inode: the padding is not read. */
    method ReadInode(n: int) returns (ok: bool, ino: Inode)
      requires Valid()
      ensures ok <==> InoValid(V(), n)
      ensures ok ==> ino == Bare(GetInode(V(), n))
    {
      hide Bits, DecodeInode;
      if n <= 0 || n > sb.inodeCount { return false, ZERO_INODE; }
      ok, ino := true, Bare(DecodeInode(disk[sb.itStart + (n - 1) / 6], (n - 1) % 6));
    }

    method WriteInode(n: int, ino: Inode)
      requires Valid() && InoValid(V(), n)
      modifies this`disk
      ensures Valid() && V() == PutInode(old(V()), n, ino)
    {
      hide ValueOf, GoodLayout, SlotBlock, PutInodeIn, PutInode, DecodeInode;
      WriteSlot(sb, disk, n, ino);
      var block := SlotBlock(sb, n);
      disk := disk[block := PutInodeIn(disk[block], (n - 1) % 6, ino)];
    }

    method AllocateBlock() returns (r: int)
      requires Valid()
      modifies this`disk
      ensures Valid() && V() == AllocBlock(old(V())).v && r == AllocBlock(old(V())).phys
    {
      hide Bits, Table, SetBitAt, BitAt;
      ReadBack(sb, disk);
      var total := sb.fsSize - sb.dataStart;
      for i := 0 to total
        invariant disk == old(disk) && Valid()
        invariant FirstFree(V().used, i) == FirstFree(V().used, 0)
      {
        var used := BitmapGet(sb.bbStart, i);
        if !used {
          SetBlockBit(sb, disk, i, true);
          BitmapSet(sb.bbStart, i, true);
          WriteData(sb, disk, sb.dataStart + i, ZERO_BLOCK);
          disk := disk[sb.dataStart + i := ZERO_BLOCK];
          return sb.dataStart + i;
        }
      }
      return -1;
    }

    // -------------------------------------------------------------------
    // The block map

    /**
     * get_block_for_inode: wherever the kernel's map does not fail for want of a block, this one returns the same
     * block and leaves the same disk and the same inode.
     */
    method GetBlockForInode(inode: Inode, logical: nat, alloc: bool) returns (ino: Inode, phys: int)
      requires Valid() && Own(V(), [inode])
      requires alloc && logical < MAP_LIMIT ==> GetBlock(V(), inode, logical, alloc).phys >= 0
      modifies this`disk
      ensures Valid() && V() == GetBlock(old(V()), inode, logical, alloc).v
      ensures ino == GetBlock(old(V()), inode, logical, alloc).ino
              && phys == GetBlock(old(V()), inode, logical, alloc).phys
      ensures !alloc ==> disk == old(disk)
    {
      hide ValueOf, Own, Fits, Bits;
      ino := inode;
      ghost var v := V();
      if logical < 6 {
        WalkLevel(v, ino, [Direct(logical)], alloc);
        if ino.direct[logical] == 0 {
          if !alloc { return ino, -1; }
          phys := AllocateBlock();
          ino := ino.(direct := ino.direct[logical := phys]);
        }
        return ino, ino.direct[logical];
      }
      var idx := logical - 6;
      if idx < 128 {
        ino, phys := Single(ino, idx, alloc);
        return;
      }
      idx := idx - 128;
      if idx >= 128 * 128 { return ino, -1; }
      ino, phys := Double(ino, idx, alloc);
    }

    method Single(inode: Inode, idx: nat, alloc: bool) returns (ino: Inode, phys: int)
      requires Valid() && Own(V(), [inode]) && idx < 128 && Succeeds(V(), inode, [Ind, IndSlot(idx)], alloc)
      modifies this`disk
      ensures Valid()
      ensures var g := Walk(old(V()), inode, [Ind, IndSlot(idx)], alloc); V() == g.v && ino == g.ino && phys == g.phys
      ensures !alloc ==> disk == old(disk)
    {
      hide ValueOf, Own, Fits, Walk, Bits, PtrAt, PutPtr;
      ino := inode;
      ghost var v := V();
      ghost var h := Level(v, ino, Ind, alloc);
      WalkLevel(v, ino, [Ind, IndSlot(idx)], alloc);
      if ino.indirect == 0 {
        if !alloc { return ino, -1; }
        var block := AllocateBlock();
        AllocClear(v);
        ino := ino.(indirect := block);
        WriteBlock(block, ZERO_BLOCK);
      }
      LevelDone(v, inode, Ind, alloc);
      assert V() == h.v && ino == h.ino && ino.indirect == h.phys;
      WalkLevel(h.v, h.ino, [IndSlot(idx)], alloc);
      assert [Ind, IndSlot(idx)][1..] == [IndSlot(idx)];
      var ibuf := ReadBlock(ino.indirect);
      phys := PtrAt(ibuf, idx);
      if phys == 0 {
        if !alloc { return ino, -1; }
        phys := AllocateBlock();
        AllocKeeps(h.v, ino.indirect);
        ibuf := PutPtr(ibuf, idx, phys);
        WriteBlock(ino.indirect, ibuf);
      }
    }

    method Double(inode: Inode, idx: nat, alloc: bool) returns (ino: Inode, phys: int)
      requires Valid() && Own(V(), [inode]) && idx < 128 * 128
      requires Succeeds(V(), inode, [Dbl, DblSlot(idx / 128), Leaf(idx / 128, idx % 128)], alloc)
      modifies this`disk
      ensures Valid()
      ensures var g := Walk(old(V()), inode, [Dbl, DblSlot(idx / 128), Leaf(idx / 128, idx % 128)], alloc);
              V() == g.v && ino == g.ino && phys == g.phys
      ensures !alloc ==> disk == old(disk)
    {
      hide ValueOf, Own, Fits, Walk, Bits, PtrAt, PutPtr;
      ino := inode;
      ghost var v := V();
      var diIdx, siIdx := idx / 128, idx % 128;
      ghost var ks := [Dbl, DblSlot(diIdx), Leaf(diIdx, siIdx)];
      ghost var h := Level(v, ino, Dbl, alloc);
      WalkLevel(v, ino, ks, alloc);
      if ino.dbl == 0 {
        if !alloc { return ino, -1; }
        var block := AllocateBlock();
        AllocClear(v);
        ino := ino.(dbl := block);
        WriteBlock(block, ZERO_BLOCK);
      }
      LevelDone(v, inode, Dbl, alloc);
      assert V() == h.v && ino == h.ino && ino.dbl == h.phys;
      assert ks[1..] == [DblSlot(diIdx), Leaf(diIdx, siIdx)];
      ino, phys := Lower(ino, diIdx, siIdx, alloc);
    }

    method Lower(inode: Inode, diIdx: nat, siIdx: nat, alloc: bool) returns (ino: Inode, phys: int)
      requires Valid() && Own(V(), [inode]) && diIdx < 128 && siIdx < 128
      requires inode.dbl != 0 && Used(V(), inode.dbl)
               && Succeeds(V(), inode, [DblSlot(diIdx), Leaf(diIdx, siIdx)], alloc)
      modifies this`disk
      ensures Valid()
      ensures var g := Walk(old(V()), inode, [DblSlot(diIdx), Leaf(diIdx, siIdx)], alloc);
              V() == g.v && ino == g.ino && phys == g.phys
      ensures !alloc ==> disk == old(disk)
    {
      hide ValueOf, Own, Fits, Walk, Bits, PtrAt, PutPtr;
      ino := inode;
      ghost var v := V();
      ghost var ks := [DblSlot(diIdx), Leaf(diIdx, siIdx)];
      ghost var h := Level(v, ino, DblSlot(diIdx), alloc);
      WalkLevel(v, ino, ks, alloc);
      assert ks[1..] == [Leaf(diIdx, siIdx)];
      var dibuf := ReadBlock(ino.dbl);
      var siPtr: int := PtrAt(dibuf, diIdx);
      if siPtr == 0 {
        if !alloc { return ino, -1; }
        siPtr := AllocateBlock();
        AllocClear(v);
        AllocKeeps(v, ino.dbl);
        dibuf := PutPtr(dibuf, diIdx, siPtr);
        ClearAfter(V(), ino.dbl, dibuf, siPtr);
        WriteBlock(ino.dbl, dibuf);
        WriteBlock(siPtr, ZERO_BLOCK);
      }
      LevelDone(v, inode, DblSlot(diIdx), alloc);
      assert V() == h.v && ino == h.ino && siPtr == h.phys;
      WalkLevel(h.v, h.ino, [Leaf(diIdx, siIdx)], alloc);
      assert ParentPtr(h.v, ino, Leaf(diIdx, siIdx)) == siPtr;
      var sibuf := ReadBlock(siPtr);
      phys := PtrAt(sibuf, siIdx);
      if phys == 0 {
        if !alloc { return ino, -1; }
        phys := AllocateBlock();
        AllocKeeps(h.v, siPtr);
        sibuf := PutPtr(sibuf, siIdx, phys);
        WriteBlock(siPtr, sibuf);
      }
    }
  
    // -------------------------------------------------------------------
    // Freeing

    method FreeBlock(p: nat)
      requires Valid() && InData(V(), p)
      modifies this`disk
      ensures Valid() && V() == old(V()).(used := old(V()).used[p - sb.dataStart := false])
    {
      hide Bits, Table, SetBitAt;
      SetBlockBit(sb, disk, p - sb.dataStart, false);
      BitmapSet(sb.bbStart, p - sb.dataStart, false);
    }

    method FreeDirects(inode: Inode) returns (ino: Inode)
      requires Valid() && InUse(V(), inode)
      modifies this`disk
      ensures Valid()
      ensures V() == old(V()).(used := ClearBits(old(V()).used, sb.dataStart, inode.direct[..FreedDirects(inode)]))
      ensures ino == inode.(direct := Zeros6(FreedDirects(inode)) + inode.direct[FreedDirects(inode)..])
    {
      hide ValueOf, Fits, ClearBits, Zeros6, P;
      DirectStart(inode.direct);
      ClearNone(V());
      ino := inode;
      ghost var v := V();
      var nblocks := if ino.size > 0 then CeilDiv(ino.size, 512) else 0;
      for i := 0 to Min(6, nblocks)
        invariant i <= FreedDirects(inode) && Valid()
        invariant V() == v.(used := ClearBits(v.used, v.base, inode.direct[..i]))
        invariant ino == inode.(direct := Zeros6(i) + inode.direct[i..])
      {
        DirectStep(inode.direct, i);
        ClearBitsStep(v.used, v.base, inode.direct[..i], inode.direct[i]);
        if ino.direct[i] != 0 {
          DirectInData(v, inode, i);
          FreeBlock(ino.direct[i]);
        }
        ino := ino.(direct := ino.direct[i := 0]);
      }
    }

    /** The blocks a pointer block names, then the block itself. */
    method FreeTable(block: Word, ghost v: Vol, ghost ds: seq<Word>)
      requires Valid() && WF(v) && TableInData(v, block) && V() == v.(used := ClearBits(v.used, v.base, ds))
      modifies this`disk
      ensures Valid() && V() == v.(used := ClearBits(v.used, v.base, ds + Branch(v, block)))
    {
      hide ValueOf, Fits, PtrAt, ClearBits;
      var ibuf := ReadBlock(block);
      assert ibuf == Blk(v, block);
      assert ds + Ptrs(ibuf)[..0] == ds;
      for i := 0 to 128
        invariant Valid()
        invariant V() == v.(used := ClearBits(v.used, v.base, ds + Ptrs(ibuf)[..i]))
      {
        var p := PtrAt(ibuf, i);
        ClearBitsStep(v.used, v.base, ds + Ptrs(ibuf)[..i], p);
        if p != 0 { FreeBlock(p); }
        assert ds + Ptrs(ibuf)[..i + 1] == (ds + Ptrs(ibuf)[..i]) + [p];
      }
      assert Ptrs(ibuf)[..128] == Ptrs(ibuf);
      ClearBitsStep(v.used, v.base, ds + Ptrs(ibuf), block);
      FreeBlock(block);
      assert ds + (Ptrs(ibuf) + [block]) == (ds + Ptrs(ibuf)) + [block];
    }

    /** Direct and single-indirect blocks, as put and delete both free them. */
    method FreeLower(inode: Inode) returns (ino: Inode)
      requires Valid() && InUse(V(), inode)
      modifies this`disk
      ensures Valid() && V() == old(V()).(used := ClearBits(old(V()).used, sb.dataStart, FreedPtrs(old(V()), inode)))
      ensures ino == FreedInode(inode)
    {
      hide V, Valid, ClearBits, Ptrs, InUse, Blk;
      ghost var v := V();
      ghost var ds := inode.direct[..FreedDirects(inode)];
      FreedPtrsIs(v, inode);
      ino := FreeDirects(inode);
      if ino.indirect != 0 {
        IndirectTable(v, inode);
        FreeTable(ino.indirect, v, ds);
        ino := ino.(indirect := 0);
      }
    }

    /** The double-indirect tree, branch by branch. */
    method FreeDouble(block: Word, ghost inode: Inode, ghost v: Vol, ghost ds: seq<Word>)
      requires Valid() && WF(v) && InUse(v, inode) && block == inode.dbl != 0
      requires V() == v.(used := ClearBits(v.used, v.base, ds))
      modifies this`disk
      ensures Valid() && V() == v.(used := ClearBits(v.used, v.base, ds + DblTree(v, block)))
    {
      hide ValueOf, Fits, PtrAt, ClearBits, P, Branch, InUse;
      DoubleInData(v, inode);
      var dibuf := ReadBlock(block);
      assert dibuf == Blk(v, block);
      assert ds + Branches(v, dibuf, 0) == ds;
      for di := 0 to 128
        invariant Valid()
        invariant V() == v.(used := ClearBits(v.used, v.base, ds + Branches(v, dibuf, di)))
      {
        var siPtr := PtrAt(dibuf, di);
        BranchesStep(v, dibuf, di, ds);
        if siPtr != 0 {
          SlotTable(v, inode, di);
          FreeTable(siPtr, v, ds + Branches(v, dibuf, di));
        }
      }
      ClearBitsStep(v.used, v.base, ds + Branches(v, dibuf, 128), block);
      FreeBlock(block);
      assert ds + (Branches(v, dibuf, 128) + [block]) == (ds + Branches(v, dibuf, 128)) + [block];
    }

    /** The freeing phase of delete. */
    method Delete(n: int)
      requires Valid() && Owned(V()) && InoValid(V(), n)
      modifies this`disk
      ensures Valid() && V() == DiskEditor.Delete(old(V()), n)
    {
      hide Own, ClearBits, AllPtrs, FreedPtrs, Bits, Table, SetBitAt, DecodeInode, PutInodeIn;
      FreeAll(n);
      SetInodeBit(sb, disk, n - 1, false);
      BitmapSet(sb.ibStart, n - 1, false);
      WriteInode(n, ZERO_INODE);
    }

    method FreeAll(n: int)
      requires Valid() && Owned(V()) && InoValid(V(), n)
      modifies this`disk
      ensures Valid()
      ensures var v := old(V()); V() == v.(used := ClearBits(v.used, sb.dataStart, AllPtrs(v, v.inodes[n - 1])))
    {
      hide V, Valid, ClearBits, Own, P, InUse, FreedPtrs, DblTree;
      var _, inode: Inode := ReadInode(n);
      ghost var v := V();
      BareInUse(v, n);
      var ino := FreeLower(inode);
      AllPtrsIs(v, inode);
      if ino.dbl != 0 { FreeDouble(ino.dbl, inode, v, FreedPtrs(v, inode)); }
    }

    // -------------------------------------------------------------------
    // Whole files

    /** The read loop of cat. */
    method Cat(n: int) returns (data: seq<Byte>)
      requires Valid() && Owned(V()) && InoValid(V(), n) && Whole(V(), GetInode(V(), n))
      modifies this`disk
      ensures disk == old(disk) && Valid() && data == DiskEditor.Cat(V(), n)
    {
      hide V, Valid, Own, Lookup, CatFrom, Blk, GetBlock, Whole, WF;
      var _, inode: Inode := ReadInode(n);
      ghost var v := V();
      BareInUse(v, n);
      data := [];
      var blocks := CeilDiv(inode.size, 512);
      for b := 0 to blocks
        invariant disk == old(disk) && Valid() && data + CatFrom(v, inode, b, blocks) == CatFrom(v, inode, 0, blocks)
      {
        CatStep(v, n, b);
        var _, phys := GetBlockForInode(inode, b, false);
        var buf := ReadBlock(phys);
        data := data + buf;
      }
      CatEnds(v, n, data);
      data := data[..Min(inode.size, |data|)];
    }

    /** The data phase of put. */
    method PutData(inode: Inode, data: seq<Byte>) returns (ino: Inode)
      requires Valid() && Own(V(), [inode]) && WriteFrom(V(), inode, 0, Padded(data)).n == |Padded(data)|
      modifies this`disk
      ensures Valid() && var r := WriteFrom(old(V()), inode, 0, Padded(data)); V() == r.v && ino == r.ino
    {
      hide V, Valid, Own, WriteFrom, GetBlock, Blk, SetBlk, Padded, WF, Splice, Zeros;
      ghost var v, p := V(), Padded(data);
      ino := inode;
      var size := |data|;
      var blocks := if size > 0 then CeilDiv(size, 512) else 0;
      assert p[0..] == p;
      for i := 0 to blocks
        invariant Valid() && Own(V(), [ino])
        invariant Rest(v, inode, V(), ino, p, i)
      {
        ghost var w, a := V(), ino;
        RestStep(v, inode, w, a, p, i);
        ChunkIs(data, i);
        var phys;
        ino, phys := GetBlockForInode(ino, i, true);
        var chunk := data[i * 512..Min((i + 1) * 512, size)];
        if |chunk| < 512 { chunk := chunk + Zeros(512 - |chunk|); }
        WriteBlock(phys, chunk);
      }
      RestEnds(v, inode, V(), ino, p, blocks);
    }

    /** The block phase of put: free, write, and store the new size. */
    method Put(target: int, data: seq<Byte>)
      requires Valid() && Owned(V()) && InoValid(V(), target) && |data| < TWO32 && PutFits(V(), target, data)
      modifies this`disk
      ensures Valid() && V() == DiskEditor.Put(old(V()), target, data)
    {
      hide V, Valid, Own, WriteFrom, Padded, FreedPtrs, ClearBits, FreedInode, InUse, WF;
      var _, inode: Inode := ReadInode(target);
      ghost var v := V();
      BareInUse(v, target);
      inode := FreeLower(inode);
      inode := inode.(size := 0);
      WriteInode(target, inode);
      EmptiedIs(v, target);
      inode := PutData(inode, data);
      WriteInode(target, inode.(size := |data|));
    }
  }

  // ---------------------------------------------------------------------
  // Facts about values the methods use

  /** A pointer block and what it names lie in the data area. */
  ghost predicate TableInData(v: Vol, q: Word) {
    q != 0 && InData(v, q) && forall j :: 0 <= j < 128 && PtrAt(Blk(v, q), j) != 0 ==> InData(v, PtrAt(Blk(v, q), j))
  }

  lemma IndirectTable(v: Vol, ino: Inode)
    requires WF(v) && InUse(v, ino) && ino.indirect != 0
    ensures TableInData(v, ino.indirect)
  {
    IndirectInData(v, ino);
    forall j | 0 <= j < 128 && PtrAt(Blk(v, ino.indirect), j) != 0 ensures InData(v, PtrAt(Blk(v, ino.indirect), j)) {
      SlotInData(v, ino, j);
    }
  }

  lemma SlotTable(v: Vol, ino: Inode, i: nat)
    requires WF(v) && InUse(v, ino) && ino.dbl != 0 && i < 128 && PtrAt(Blk(v, ino.dbl), i) != 0
    ensures TableInData(v, PtrAt(Blk(v, ino.dbl), i))
  {
    var q := PtrAt(Blk(v, ino.dbl), i);
    assert P(v, ino, DblSlot(i)) == q;
    forall j | 0 <= j < 128 && PtrAt(Blk(v, q), j) != 0 ensures InData(v, PtrAt(Blk(v, q), j)) {
      assert P(v, ino, Leaf(i, j)) == PtrAt(Blk(v, q), j);
    }
  }

  lemma DoubleInData(v: Vol, ino: Inode)
    requires WF(v) && InUse(v, ino) && ino.dbl != 0
    ensures InData(v, ino.dbl)
  {
    assert P(v, ino, Dbl) == ino.dbl;
  }

  lemma BranchesStep(v: Vol, b: Block, i: nat, ds: seq<Word>)
    requires i < 128
    ensures var q := PtrAt(b, i);
            && ds + Branches(v, b, i + 1) == (ds + Branches(v, b, i)) + Branch(v, q)
            && (q == 0 ==> ds + Branches(v, b, i + 1) == ds + Branches(v, b, i))
  {
  }

  lemma AllPtrsIs(v: Vol, ino: Inode)
    ensures AllPtrs(v, ino) == FreedPtrs(v, ino) + DblTree(v, ino.dbl)
    ensures ino.dbl == 0 ==> AllPtrs(v, ino) == FreedPtrs(v, ino)
    ensures AllPtrs(v, Bare(ino)) == AllPtrs(v, ino)
  {
  }

  lemma BareInUse(v: Vol, n: int)
    requires Owned(v) && InoValid(v, n)
    ensures var a := Bare(GetInode(v, n)); InUse(v, a) && Own(v, [a])
    ensures forall l :: Lookup(v, Bare(GetInode(v, n)), l) == Lookup(v, GetInode(v, n), l)
    ensures AllPtrs(v, Bare(GetInode(v, n))) == AllPtrs(v, v.inodes[n - 1])
  {
    var a := v.inodes[n - 1];
    OwnedInUse(v, n);
    OwnFields(v, [a], v, [Bare(a)]);
    forall k ensures P(v, Bare(a), k) == P(v, a, k) { PtrFields(v, v, a, Bare(a), k); }
  }

  lemma CatStep(v: Vol, n: int, b: nat)
    requires Owned(v) && InoValid(v, n) && Whole(v, GetInode(v, n)) && b < CeilDiv(GetInode(v, n).size, 512)
    ensures var a := Bare(GetInode(v, n)); var g := GetBlock(v, a, b, false); var m := CeilDiv(a.size, 512);
            && g.v == v && g.phys > 0 && InData(v, g.phys)
            && CatFrom(v, a, b, m) == Blk(v, g.phys) + CatFrom(v, a, b + 1, m)
  {
    var a := Bare(GetInode(v, n));
    BareInUse(v, n);
    GetBlockLookup(v, a, b);
    MappedInData(v, a, b);
    hide Lookup, Blk;
    assert Lookup(v, GetInode(v, n), b) != 0;
  }

  lemma CatEnds(v: Vol, n: int, data: seq<Byte>)
    requires Owned(v) && InoValid(v, n)
    requires var a := Bare(GetInode(v, n)); var m := CeilDiv(a.size, 512);
             data + CatFrom(v, a, m, m) == CatFrom(v, a, 0, m)
    ensures DiskEditor.Cat(v, n) == data[..Min(GetInode(v, n).size, |data|)]
  {
    BareInUse(v, n);
    var a := GetInode(v, n);
    var m := CeilDiv(a.size, 512);
    assert data + [] == data;
    CatBare(v, a, Bare(a), 0, m);
  }

  lemma {:induction false} CatBare(v: Vol, a: Inode, b: Inode, i: nat, m: nat)
    requires forall l :: Lookup(v, b, l) == Lookup(v, a, l)
    ensures CatFrom(v, b, i, m) == CatFrom(v, a, i, m)
    decreases m - i
  {
    if i < m { CatBare(v, a, b, i + 1, m); }
  }

  /** The data phase between two blocks: the rest of the write is still to come, and will not run short. */
  ghost predicate Rest(v: Vol, a: Inode, w: Vol, ino: Inode, p: seq<Byte>, i: nat) {
    && WF(v) && WF(w) && 512 * i <= |p| && |p| % 512 == 0
    && (var r := WriteFrom(w, ino, 512 * i, p[512 * i..]);
        512 * i + r.n == |p| && WriteFrom(v, a, 0, p) == Wrote(r.v, r.ino, |p|))
  }

  lemma RestStep(v: Vol, a: Inode, w: Vol, ino: Inode, p: seq<Byte>, i: nat)
    requires Rest(v, a, w, ino, p, i) && Own(w, [ino]) && 512 * i < |p|
    ensures var g := GetBlock(w, ino, i, true); var b: Block := p[512 * i..512 * i + 512];
            var x := SetBlk(g.v, g.phys, b);
            && g.phys > 0 && InData(g.v, g.phys) && Own(x, [g.ino]) && Rest(v, a, x, g.ino, p, i + 1)
  {
    hide WriteFrom, Own, GetBlock, Blk, SetBlk, Grew, OthersKept;
    var s := p[512 * i..];
    assert 512 * i / 512 == i && 512 * i % 512 == 0;
    var t := [ino];
    assert t[0] == ino;
    WriteUnfold(w, ino, 512 * i, s);
    FirstChunkEffect(w, t, 0, 512 * i, s);
    var f := FirstChunk(w, ino, 512 * i, s);
    var g := GetBlock(w, ino, i, true);
    RoundKeeps(w, t, 0, i, g.ino, g.phys);
    assert t[0 := f.ino] == [f.ino];
    assert f.n > 0;
    var b: Block := p[512 * i..512 * i + 512];
    assert s[..512] == b;
    WholeSplice(Blk(g.v, g.phys), b);
    assert s[512..] == p[512 * (i + 1)..];
  }

  lemma WholeSplice(a: Block, b: Block)
    ensures Splice(a, 0, b) == b
  {
  }

  lemma RestEnds(v: Vol, a: Inode, w: Vol, ino: Inode, p: seq<Byte>, i: nat)
    requires Rest(v, a, w, ino, p, i) && 512 * i == |p|
    ensures WriteFrom(v, a, 0, p) == Wrote(w, ino, |p|)
  {
    assert p[512 * i..] == [];
  }

  /** Block i of the data, filled up with zeros, is block i of the padded data. */
  lemma ChunkIs(data: seq<Byte>, i: nat)
    requires i < CeilDiv(|data|, 512)
    ensures var c := data[i * 512..Min((i + 1) * 512, |data|)];
            && |c| <= 512 && |Padded(data)| >= 512 * i + 512
            && Padded(data)[512 * i..512 * i + 512] == if |c| < 512 then c + Zeros(512 - |c|) else c
  {
  }

  lemma EmptiedIs(v: Vol, n: int)
    requires Owned(v) && InoValid(v, n)
    ensures var a := Bare(GetInode(v, n)); var u := Emptied(v, n);
            && u == PutInode(v.(used := ClearBits(v.used, v.base, FreedPtrs(v, a))), n, FreedInode(a).(size := 0))
            && GetInode(u, n) == FreedInode(a).(size := 0) && Own(u, [GetInode(u, n)])
  {
    hide ClearBits, FreedPtrs, FreedInode, Own;
    EmptiedOwned(v, n);
    OwnOne(Emptied(v, n), Emptied(v, n).inodes, n - 1);
  }
}
