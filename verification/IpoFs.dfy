/** The file system as it runs: one disk of blocks, edited in place. */
module IpoFs {
  import opened Bytes
  import opened Bitmaps
  import opened Layout
  import opened Volume
  import opened BlockMap
  import opened FileData
  import opened Inodes
  import opened Device
  import opened EmptyWrite
  import opened Runs
  import opened Transfer
  import opened Directory
  import opened Api
  import opened VolTree
  import opened Calls

  // ---------------------------------------------------------------------
  // Facts about values the methods use

  lemma ClearNone(v: Vol)
    requires WF(v)
    ensures v.(used := ClearBits(v.used, v.base, [])) == v
  {
  }

  lemma DirectInData(v: Vol, ino: Inode, i: nat)
    requires WF(v) && InUse(v, ino) && i < 6 && ino.direct[i] != 0
    ensures InData(v, ino.direct[i])
  {
    assert P(v, ino, Direct(i)) == ino.direct[i];
  }

  lemma IndirectInData(v: Vol, ino: Inode)
    requires WF(v) && InUse(v, ino) && ino.indirect != 0
    ensures InData(v, ino.indirect)
  {
    assert P(v, ino, Ind) == ino.indirect;
  }

  lemma SlotInData(v: Vol, ino: Inode, i: nat)
    requires WF(v) && InUse(v, ino) && ino.indirect != 0 && i < 128 && PtrAt(Blk(v, ino.indirect), i) != 0
    ensures InData(v, PtrAt(Blk(v, ino.indirect), i))
  {
    assert P(v, ino, IndSlot(i)) == PtrAt(Blk(v, ino.indirect), i);
  }

  lemma OwnedInUse(v: Vol, n: int)
    requires Owned(v) && InoValid(v, n)
    ensures InUse(v, v.inodes[n - 1]) && Own(v, [v.inodes[n - 1]])
  {
    OwnOne(v, v.inodes, n - 1);
  }

  lemma FreedPtrsIs(v: Vol, a: Inode)
    ensures FreedPtrs(v, a)
            == a.direct[..FreedDirects(a)] + (if a.indirect == 0 then [] else Ptrs(Blk(v, a.indirect)) + [a.indirect])
    ensures a.indirect == 0 ==> FreedPtrs(v, a) == a.direct[..FreedDirects(a)]
  {
  }

  /** Ownership of a table is ownership of each of its inodes alone. */
  lemma OwnOne(v: Vol, t: seq<Inode>, n: nat)
    requires WF(v) && Own(v, t) && n < |t|
    ensures Own(v, [t[n]]) && InUse(v, t[n])
  {
    assert forall m :: 0 <= m < |[t[n]]| ==> [t[n]][m] == t[n];
    hide P;
  }

  class FileSystem {
    const sb: Layout
    var disk: seq<Block>
    var fds: seq<Fd>
    var mounted: bool

    constructor (l: Layout, d: seq<Block>)
      requires Fits(l, d)
      ensures Valid() && sb == l && disk == d && !mounted && |fds| == 32
      ensures forall i :: 0 <= i < 32 ==> !fds[i].used
    {
      sb, disk, mounted := l, d, false;
      fds := seq(32, _ => Fd(false, 0));
    }

    ghost predicate Valid()
      reads this
    {
      Fits(sb, disk)
    }

    ghost function V(): (v: Vol)
      requires Valid()
      reads this
      ensures WF(v) && v.base == sb.dataStart && |v.data| == DataBlocks(sb) && |v.inodes| == sb.inodeCount
    {
      ValueOf(sb, disk)
    }

    // -------------------------------------------------------------------
    // Bitmaps

    /** bitmap_get: one bit of one byte of one block. */
    method BitmapGet(start: nat, i: nat) returns (b: bool)
      requires InBitmap(disk, start, i)
      ensures b == BitAt(disk, start, i)
    {
      var byteIndex := i / 8;
      var buf := disk[start + byteIndex / 512];
      b := BitOf(buf[byteIndex % 512], i % 8);
    }

    /** bitmap_set: a read-modify-write of one block. */
    method BitmapSet(start: nat, i: nat, v: bool)
      requires InBitmap(disk, start, i)
      modifies this`disk
      ensures disk == SetBitAt(old(disk), start, i, v)
    {
      var byteIndex := i / 8;
      var lba := start + byteIndex / 512;
      var buf := disk[lba];
      var inblock := byteIndex % 512;
      buf := buf[inblock := SetByte(buf[inblock], i % 8, v)];
      disk := disk[lba := buf];
    }

    // -------------------------------------------------------------------
    // Inodes

    method ReadInode(n: int) returns (ok: bool, ino: Inode)
      requires Valid()
      ensures ok <==> InoValid(V(), n)
      ensures ok ==> ino == GetInode(V(), n)
    {
      hide Bits, DecodeInode;
      if n <= 0 || n > sb.inodeCount { return false, ZERO_INODE; }
      var idx := n - 1;
      ok, ino := true, DecodeInode(disk[sb.itStart + idx / 6], idx % 6);
    }

    method WriteInode(n: int, ino: Inode) returns (ok: bool)
      requires Valid()
      modifies this`disk
      ensures Valid() && V() == PutInode(old(V()), n, ino)
      ensures ok <==> InoValid(V(), n)
    {
      if n <= 0 || n > sb.inodeCount { return false; }
      hide ValueOf, GoodLayout, SlotBlock, PutInodeIn, PutInode, DecodeInode;
      WriteSlot(sb, disk, n, ino);
      var block := SlotBlock(sb, n);
      disk := disk[block := PutInodeIn(disk[block], (n - 1) % 6, ino)];
      ok := true;
    }

    /** allocate_inode: the least free inode, zeroed; -1 exactly when all are taken. */
    method AllocateInode() returns (r: int)
      requires Valid()
      modifies this`disk
      ensures Valid() && V() == AllocInode(old(V())).v && r == AllocInode(old(V())).phys
    {
      hide Bits, Table, SetBitAt, BitAt;
      ReadBack(sb, disk);
      var i := 0;
      while i < sb.inodeCount
        invariant 0 <= i <= sb.inodeCount && disk == old(disk) && Valid()
        invariant FirstFree(V().inoUsed, i) == FirstFree(V().inoUsed, 0)
      {
        var used := BitmapGet(sb.ibStart, i);
        if !used {
          SetInodeBit(sb, disk, i, true);
          BitmapSet(sb.ibStart, i, true);
          var _ := WriteInode(i + 1, ZERO_INODE);
          return i + 1;
        }
        i := i + 1;
      }
      return -1;
    }

    /** allocate_block: the least free block, cleared; -1 exactly when all are taken. */
    method AllocateBlock() returns (r: int)
      requires Valid()
      modifies this`disk
      ensures Valid() && V() == AllocBlock(old(V())).v && r == AllocBlock(old(V())).phys
    {
      hide Bits, Table, SetBitAt, BitAt;
      ReadBack(sb, disk);
      var total := sb.fsSize - sb.dataStart;
      var i := 0;
      while i < total
        invariant 0 <= i <= total && disk == old(disk) && Valid()
        invariant FirstFree(V().used, i) == FirstFree(V().used, 0)
      {
        var used := BitmapGet(sb.bbStart, i);
        if !used {
          SetBlockBit(sb, disk, i, true);
          BitmapSet(sb.bbStart, i, true);
          WriteData(sb, disk, sb.dataStart + i, ZERO_BLOCK);
          disk := disk[sb.dataStart + i := ZERO_BLOCK];
          return sb.dataStart + i;
        }
        i := i + 1;
      }
      return -1;
    }

    method BlockRead(p: nat) returns (b: Block)
      requires Valid() && InData(V(), p)
      ensures b == Blk(V(), p)
    {
      ReadBack(sb, disk);
      b := disk[p];
    }

    method BlockWrite(p: nat, b: Block)
      requires Valid() && InData(V(), p)
      modifies this`disk
      ensures Valid() && V() == SetBlk(old(V()), p, b)
    {
      WriteData(sb, disk, p, b);
      disk := disk[p := b];
    }

    /** free_block: the bit of a data block is cleared. */
    method FreeBlock(p: nat) returns (ok: bool)
      requires Valid() && p < sb.fsSize
      modifies this`disk
      ensures Valid() && (ok <==> p >= sb.dataStart)
      ensures if ok then InData(V(), p) && V() == old(V()).(used := old(V()).used[p - sb.dataStart := false])
              else disk == old(disk)
    {
      hide Bits, Table, SetBitAt;
      if p < sb.dataStart { return false; }
      SetBlockBit(sb, disk, p - sb.dataStart, false);
      BitmapSet(sb.bbStart, p - sb.dataStart, false);
      ok := true;
    }

    /** The first loop of free_inode: the direct pointers within the size. */
    method FreeDirect(inode: Inode) returns (ino: Inode)
      requires Valid() && InUse(V(), inode)
      modifies this`disk
      ensures Valid()
      ensures V() == old(V()).(used := ClearBits(old(V()).used, sb.dataStart, inode.direct[..FreedDirects(inode)]))
      ensures ino == inode.(direct := Zeros6(FreedDirects(inode)) + inode.direct[FreedDirects(inode)..])
    {
      hide ValueOf, Fits, ClearBits, Zeros6, P;
      DirectStart(inode.direct);
      ClearNone(V());
      ino := inode;
      ghost var v := V();
      var nblocks := CeilDiv(ino.size, 512);
      var i := 0;
      while i < 6 && i < nblocks
        invariant 0 <= i <= FreedDirects(inode) && Valid()
        invariant V() == v.(used := ClearBits(v.used, v.base, inode.direct[..i]))
        invariant ino == inode.(direct := Zeros6(i) + inode.direct[i..])
      {
        DirectStep(inode.direct, i);
        ClearBitsStep(v.used, v.base, inode.direct[..i], inode.direct[i]);
        if ino.direct[i] != 0 {
          DirectInData(v, inode, i);
          var _ := FreeBlock(ino.direct[i]);
        }
        ino := ino.(direct := ino.direct[i := 0]);
        i := i + 1;
      }
    }

    /** The second loop of free_inode: what the indirect block points to, and the block itself. */
    method FreeIndirect(block: Word, ghost inode: Inode, ghost v: Vol, ghost ds: seq<Word>)
      requires Valid() && WF(v) && InUse(v, inode) && block == inode.indirect != 0
      requires V() == v.(used := ClearBits(v.used, v.base, ds))
      modifies this`disk
      ensures Valid() && V() == v.(used := ClearBits(v.used, v.base, ds + (Ptrs(Blk(v, block)) + [block])))
    {
      hide ValueOf, Fits, PtrAt, ClearBits, P;
      IndirectInData(v, inode);
      var ibuf := BlockRead(block);
      assert ibuf == Blk(v, block);
      assert ds + Ptrs(ibuf)[..0] == ds;
      var i := 0;
      while i < 128
        invariant 0 <= i <= 128 && Valid()
        invariant V() == v.(used := ClearBits(v.used, v.base, ds + Ptrs(ibuf)[..i]))
      {
        var p := PtrAt(ibuf, i);
        ClearBitsStep(v.used, v.base, ds + Ptrs(ibuf)[..i], p);
        if p != 0 {
          SlotInData(v, inode, i);
          var _ := FreeBlock(p);
        }
        assert ds + Ptrs(ibuf)[..i + 1] == (ds + Ptrs(ibuf)[..i]) + [p];
        i := i + 1;
      }
      assert Ptrs(ibuf)[..128] == Ptrs(ibuf);
      ClearBitsStep(v.used, v.base, ds + Ptrs(ibuf), block);
      var _ := FreeBlock(block);
      assert ds + (Ptrs(ibuf) + [block]) == (ds + Ptrs(ibuf)) + [block];
    }

    /** The blocks of an inode, both loops of free_inode. */
    method FreeBlocks(n: int) returns (ino: Inode)
      requires Valid() && Owned(V()) && InoValid(V(), n)
      modifies this`disk
      ensures Valid() && ino == FreedInode(GetInode(old(V()), n))
      ensures V() == old(V()).(used := ClearBits(old(V()).used, sb.dataStart,
              FreedPtrs(old(V()), GetInode(old(V()), n))))
    {
      hide V, Valid, ClearBits, Ptrs, Own, P, InUse;
      var _, a: Inode := ReadInode(n);
      ghost var v := V();
      ghost var ds := a.direct[..FreedDirects(a)];
      OwnedInUse(v, n);
      FreedPtrsIs(v, a);
      ino := FreeDirect(a);
      if ino.indirect != 0 {
        FreeIndirect(ino.indirect, a, v, ds);
        ino := ino.(indirect := 0);
      }
    }

    /** free_inode */
    method FreeInode(n: int) returns (ok: bool)
      requires Valid() && Owned(V())
      modifies this`disk
      ensures Valid() && V() == Inodes.FreeInode(old(V()), n)
      ensures ok <==> InoValid(V(), n)
    {
      if n <= 0 || n > sb.inodeCount { return false; }
      hide Own, ClearBits, FreedPtrs, FreedInode, Bits, Table, SetBitAt, DecodeInode;
      var ino := FreeBlocks(n);
      SetInodeBit(sb, disk, n - 1, false);
      BitmapSet(sb.ibStart, n - 1, false);
      var _ := WriteInode(n, ino);
      ok := true;
    }

    // -------------------------------------------------------------------
    // The block map

    /** get_data_block_for_inode, in its three tiers. */
    method GetDataBlock(inode: Inode, l: nat, alloc: bool) returns (ino: Inode, phys: int)
      requires Valid() && Own(V(), [inode])
      modifies this`disk
      ensures Valid() && V() == GetBlock(old(V()), inode, l, alloc).v
      ensures ino == GetBlock(old(V()), inode, l, alloc).ino && phys == GetBlock(old(V()), inode, l, alloc).phys
      ensures !alloc ==> disk == old(disk)
    {
      hide ValueOf, Own, Fits, Bits;
      ino := inode;
      ghost var v := V();
      if l < 6 {
        WalkLevel(v, ino, [Direct(l)], alloc);
        if ino.direct[l] == 0 {
          if !alloc { return ino, -1; }
          phys := AllocateBlock();
          if phys < 0 { return ino, -1; }
          ino := ino.(direct := ino.direct[l := phys]);
        }
        return ino, ino.direct[l];
      }
      var idx := l - 6;
      if idx < 128 {
        ino, phys := SingleIndirect(ino, idx, alloc);
        return;
      }
      idx := idx - 128;
      if idx >= 128 * 128 { return ino, -1; }
      ino, phys := DoubleIndirect(ino, idx, alloc);
    }

    /** The single-indirect tier. */
    method SingleIndirect(inode: Inode, idx: nat, alloc: bool) returns (ino: Inode, phys: int)
      requires Valid() && Own(V(), [inode]) && idx < 128
      modifies this`disk
      ensures Valid()
      ensures var g := Walk(old(V()), inode, [Ind, IndSlot(idx)], alloc); V() == g.v && ino == g.ino && phys == g.phys
      ensures !alloc ==> disk == old(disk)
    {
      hide ValueOf, Own, Fits, Walk, Bits, PtrAt, PutPtr;
      ino := inode;
      ghost var v := V();
      ghost var h := Level(v, ino, Ind, alloc);
      WalkLevel(v, ino, [Ind, IndSlot(idx)], alloc);
      if ino.indirect == 0 {
        if !alloc { return ino, -1; }
        var block := AllocateBlock();
        if block < 0 { return ino, -1; }
        AllocClear(v);
        ino := ino.(indirect := block);
        BlockWrite(block, ZERO_BLOCK);
      }
      LevelDone(v, inode, Ind, alloc);
      assert V() == h.v && ino == h.ino && ino.indirect == h.phys;
      assert [Ind, IndSlot(idx)][1..] == [IndSlot(idx)];
      phys := LastLevel(ino.indirect, idx, alloc, ino, IndSlot(idx));
    }

    /** The pointer at slot idx of pointer block q, allocated if need be: the last level of either indirect tier. */
    method LastLevel(q: nat, idx: nat, alloc: bool, ghost ino: Inode, ghost k: Key) returns (phys: int)
      requires Valid() && Own(V(), [ino]) && ValidKey(k) && !RootKey(k) && SlotIndex(k) == idx
      requires q == ParentPtr(V(), ino, k) && q > 0 && Used(V(), q)
      modifies this`disk
      ensures Valid()
      ensures var g := Walk(old(V()), ino, [k], alloc); V() == g.v && ino == g.ino && phys == g.phys
      ensures !alloc ==> disk == old(disk)
    {
      hide ValueOf, Own, Fits, Walk, Bits, PtrAt, PutPtr;
      ghost var v := V();
      WalkLevel(v, ino, [k], alloc);
      var ibuf := BlockRead(q);
      phys := PtrAt(ibuf, idx);
      if phys == 0 {
        if !alloc { return -1; }
        phys := AllocateBlock();
        if phys < 0 { return -1; }
        AllocKeeps(v, q);
        ibuf := PutPtr(ibuf, idx, phys);
        BlockWrite(q, ibuf);
      }
    }

    /** The double-indirect tier. */
    method DoubleIndirect(inode: Inode, idx: nat, alloc: bool) returns (ino: Inode, phys: int)
      requires Valid() && Own(V(), [inode]) && idx < 128 * 128
      modifies this`disk
      ensures Valid()
      ensures var g := Walk(old(V()), inode, [Dbl, DblSlot(idx / 128), Leaf(idx / 128, idx % 128)], alloc);
              V() == g.v && ino == g.ino && phys == g.phys
      ensures !alloc ==> disk == old(disk)
    {
      hide ValueOf, Own, Fits, Walk, Bits, PtrAt, PutPtr;
      ino := inode;
      ghost var v := V();
      var diIdx, siIdx := idx / 128, idx % 128;
      ghost var ks := [Dbl, DblSlot(diIdx), Leaf(diIdx, siIdx)];
      ghost var h := Level(v, ino, Dbl, alloc);
      WalkLevel(v, ino, ks, alloc);
      if ino.dbl == 0 {
        if !alloc { return ino, -1; }
        var block := AllocateBlock();
        if block < 0 { return ino, -1; }
        AllocClear(v);
        ino := ino.(dbl := block);
        BlockWrite(block, ZERO_BLOCK);
      }
      LevelDone(v, inode, Dbl, alloc);
      assert V() == h.v && ino == h.ino && ino.dbl == h.phys;
      assert ks[1..] == [DblSlot(diIdx), Leaf(diIdx, siIdx)];
      ino, phys := DoubleLower(ino, diIdx, siIdx, alloc);
    }

    /** The two lower levels of the double-indirect tier. */
    method DoubleLower(inode: Inode, diIdx: nat, siIdx: nat, alloc: bool) returns (ino: Inode, phys: int)
      requires Valid() && Own(V(), [inode]) && diIdx < 128 && siIdx < 128
      requires inode.dbl != 0 && Used(V(), inode.dbl)
      modifies this`disk
      ensures Valid()
      ensures var g := Walk(old(V()), inode, [DblSlot(diIdx), Leaf(diIdx, siIdx)], alloc);
              V() == g.v && ino == g.ino && phys == g.phys
      ensures !alloc ==> disk == old(disk)
    {
      hide ValueOf, Own, Fits, Walk, Bits, PtrAt, PutPtr;
      ino := inode;
      ghost var v := V();
      ghost var ks := [DblSlot(diIdx), Leaf(diIdx, siIdx)];
      ghost var h := Level(v, ino, DblSlot(diIdx), alloc);
      WalkLevel(v, ino, ks, alloc);
      assert ks[1..] == [Leaf(diIdx, siIdx)];
      var dibuf := BlockRead(ino.dbl);
      var si: int := PtrAt(dibuf, diIdx);
      if si == 0 {
        if !alloc { return ino, -1; }
        si := AllocateBlock();
        if si < 0 { return ino, -1; }
        AllocClear(v);
        AllocKeeps(v, ino.dbl);
        dibuf := PutPtr(dibuf, diIdx, si);
        ClearAfter(V(), ino.dbl, dibuf, si);
        BlockWrite(ino.dbl, dibuf);
        BlockWrite(si, ZERO_BLOCK);
      }
      LevelDone(v, inode, DblSlot(diIdx), alloc);
      assert V() == h.v && ino == h.ino && si == h.phys;
      assert ParentPtr(h.v, ino, Leaf(diIdx, siIdx)) == si;
      phys := LastLevel(si, siIdx, alloc, ino, Leaf(diIdx, siIdx));
    }

    // -------------------------------------------------------------------
    // Read and write

    ghost function State(): (s: Fs)
      requires Valid()
      reads this
      ensures s.v == V() && s.fds == fds
    {
      Fs(V(), fds)
    }

    /** The loop of ipo_fs_write. */
    method WriteLoop(start: Inode, buf: seq<Byte>, offset: nat, ghost n: int) returns (inode: Inode, written: nat)
      requires Valid() && Owned(V()) && InoValid(V(), n) && start == GetInode(V(), n) && offset + |buf| < TWO32
      modifies this`disk
      ensures Valid()
      ensures var r := Rounds(old(V()), old(V()).inodes[n - 1], offset / 512, LastOf(offset, |buf|), offset, buf, 0);
              V() == r.v && inode == r.ino && written == r.n
    {
      hide V, Valid, Own, Splice, Going, Rounds, GetBlock, Blk, SetBlk, SameFrame, WF, GetInode, Owned;
      ghost var v := V();
      var size := |buf|;
      var firstBlock := offset / 512;
      var lastBlock := LastOf(offset, size);
      inode, written := start, 0;
      var b := firstBlock;
      GoingStart(v, n, offset, buf);
      while b <= lastBlock
        invariant Valid() && 0 <= written <= size && firstBlock <= b
        invariant Going(v, n - 1, V(), inode, b, lastBlock, offset, buf, written)
        decreases lastBlock + 1 - b
      {
        ghost var w, ino := V(), inode;
        GoingReady(v, n - 1, w, ino, b, lastBlock, offset, buf, written);
        var phys;
        inode, phys := GetDataBlock(inode, b, true);
        if phys < 0 {
          GoingFails(v, n - 1, w, ino, b, lastBlock, offset, buf, written);
          return;
        }
        GoingOn(v, n - 1, w, ino, b, lastBlock, offset, buf, written);
        var tmp := BlockRead(phys);
        var blockOffset := if b == firstBlock then offset % 512 else 0;
        var towrite := 512 - blockOffset;
        if towrite > size - written { towrite := size - written; }
        tmp := Splice(tmp, blockOffset, buf[written..written + towrite]);
        BlockWrite(phys, tmp);
        written := written + towrite;
        b := b + 1;
      }
      GoingDone(v, n - 1, V(), inode, b, lastBlock, offset, buf, written);
    }

    /** ipo_fs_write: the number of bytes written, or -1. */
    method Write(fd: int, buf: seq<Byte>, offset: nat) returns (r: int)
      requires Valid() && Owned(V()) && offset + |buf| < TWO32
      modifies this`disk
      ensures Valid() && V() == Runs.Write(old(State()), fd, buf, offset).v
              && r == Runs.Write(old(State()), fd, buf, offset).ret
    {
      hide V, Valid, Own, WriteEmpty, WriteFile, Rounds, WF;
      if fd < 0 || fd >= |fds| || !fds[fd].used { return -1; }
      var ok, inode: Inode := ReadInode(fds[fd].ino);
      if !ok { return -1; }
      ghost var v, n := V(), fds[fd].ino;
      WriteIs(v, n, offset, buf);
      var written;
      inode, written := WriteLoop(inode, buf, offset, n);
      if offset + written > inode.size { inode := inode.(size := offset + written); }
      var _ := WriteInode(fds[fd].ino, inode);
      r := written;
    }

    /** ipo_fs_read: the bytes read; r is their number, or -1. */
    method Read(fd: int, size: nat, offset: nat) returns (r: int, out: seq<Byte>)
      requires Valid() && Owned(V()) && offset + size < TWO32
      modifies this`disk
      ensures disk == old(disk) && V() == old(V())
      ensures r == -1 <==> !FdValid(old(State()), fd) || !InoValid(V(), fds[fd].ino)
      ensures r != -1 ==> out == ReadFile(V(), fds[fd].ino, offset, size) && r == |out|
    {
      hide V, Valid, Own, WF, GetBlock, Blk, Lookup, ByteAt, ReadFrom, RoundLen;
      out := [];
      if fd < 0 || fd >= |fds| || !fds[fd].used { return -1, []; }
      var ok, inode: Inode := ReadInode(fds[fd].ino);
      if !ok { return -1, []; }
      if offset >= inode.size { return 0, []; }
      OwnedInUse(V(), fds[fd].ino);
      var n := if offset + size > inode.size then inode.size - offset else size;
      if n == 0 {
        NothingToRead(V(), inode, offset);
        out := ReadNothing(inode, offset);
        return 0, [];
      }
      out := ReadLoop(inode, n, offset);
      r := |out|;
    }

    /** With nothing to copy the loop still looks blocks up, until one is missing. */
    method ReadNothing(inode: Inode, offset: nat) returns (out: seq<Byte>)
      requires Valid() && Own(V(), [inode]) && offset < TWO32
      modifies this`disk
      ensures disk == old(disk) && out == []
    {
      out := [];
      var b, lastBlock := offset / 512, LastOf(offset, 0);
      while b <= lastBlock
        invariant disk == old(disk)
        decreases lastBlock + 1 - b
      {
        var _, phys := GetDataBlock(inode, b, false);
        if phys < 0 { break; }
        b := b + 1;
      }
    }

    /** The loop of ipo_fs_read. */
    method ReadLoop(inode: Inode, size: nat, offset: nat) returns (out: seq<Byte>)
      requires Valid() && Own(V(), [inode]) && 0 < size && offset + size < TWO32
      modifies this`disk
      ensures disk == old(disk) && Valid() && out == ReadFrom(V(), inode, offset, size)
    {
      hide V, Valid, Own, WF, GetBlock, Blk, Lookup, ByteAt, ReadFrom, RoundAt, RoundLen, InStep, LastOf;
      ghost var v := V();
      var firstBlock, lastBlock := offset / 512, LastOf(offset, size);
      out := [];
      var copied, b := 0, firstBlock;
      StepStart(offset, size);
      while b <= lastBlock
        invariant disk == old(disk) && Valid() && V() == v && |out| == copied <= size
        invariant InStep(b, lastBlock, offset, size, copied)
        invariant out + ReadFrom(v, inode, offset + copied, size - copied) == ReadFrom(v, inode, offset, size)
        decreases lastBlock + 1 - b
      {
        StepNotDone(b, lastBlock, offset, size, copied);
        ReadRound(v, inode, b, lastBlock, offset, size, copied, out);
        var _, phys := GetDataBlock(inode, b, false);
        if phys < 0 { return; }
        MappedInData(v, inode, b);
        var tmp := BlockRead(phys);
        var blockOffset := RoundAt(b, offset);
        var tocopy := RoundLen(b, offset, size - copied);
        out := out + tmp[blockOffset..blockOffset + tocopy];
        copied := copied + tocopy;
        b := b + 1;
      }
      StepDone(b, lastBlock, offset, size, copied);
      NothingToRead(v, inode, offset + copied);
      assert out + [] == out;
    }
  }

  lemma NothingToRead(v: Vol, ino: Inode, o: nat)
    requires WF(v)
    ensures ReadFrom(v, ino, o, 0) == []
  {
  }

  lemma StepNotDone(b: nat, last: nat, offset: nat, size: nat, copied: nat)
    requires InStep(b, last, offset, size, copied) && b <= last
    ensures copied < size
  {
  }

  lemma StepDone(b: nat, last: nat, offset: nat, size: nat, copied: nat)
    requires InStep(b, last, offset, size, copied) && b > last
    ensures copied == size
  {
    if copied < size { StepArith(b, last, offset, size, copied); }
  }

  /** One round of the read loop moves its bytes from what is still to come to what is out. */
  lemma ReadRound(v: Vol, ino: Inode, b: nat, last: nat, offset: nat, size: nat, copied: nat, out: seq<Byte>)
    requires WF(v) && InStep(b, last, offset, size, copied) && copied < size
    ensures var n := RoundLen(b, offset, size - copied); var g := GetBlock(v, ino, b, false);
            var o := RoundAt(b, offset);
            && o + n <= 512 && copied + n <= size && InStep(b + 1, last, offset, size, copied + n)
            && out + ReadFrom(v, ino, offset + copied, size - copied)
               == (if g.phys < 0 then out
                  else (out + Blk(v, g.phys)[o..o + n]) + ReadFrom(v, ino, offset + (copied + n), size - (copied + n)))
  {
    hide GetBlock, Blk, ReadFrom, RoundAt, RoundLen, InStep;
    StepArith(b, last, offset, size, copied);
    ReadStep(v, ino, b, last, offset, size, copied);
    var n := RoundLen(b, offset, size - copied);
    assert offset + (copied + n) == offset + copied + n && size - (copied + n) == size - copied - n;
    assert out + [] == out;
    RoundFits(b, last, offset, size, copied + n);
  }

  lemma RoundFits(b: nat, last: nat, offset: nat, size: nat, copied: nat)
    requires InStep(b + 1, last, offset, size, copied)
    ensures copied <= size
  {
  }

  lemma MappedInData(v: Vol, ino: Inode, l: nat)
    requires WF(v) && Own(v, [ino]) && GetBlock(v, ino, l, false).phys >= 0
    ensures InData(v, GetBlock(v, ino, l, false).phys) && GetBlock(v, ino, l, false).phys > 0
  {
    GetBlockLookup(v, ino, l);
    assert P(v, [ino][0], LeafOf(l)) == Lookup(v, ino, l);
  }

  /** The state of the write loop: what is still to come makes up the whole. */
  ghost predicate Going(v: Vol, n: int, w: Vol, ino: Inode, b: nat, last: nat, offset: nat, buf: seq<Byte>,
      written: nat) {
    && WF(v) && WF(w) && 0 <= n < |v.inodes| && w.inodes == v.inodes && Own(w, v.inodes[n := ino]) && written <= |buf|
    && Rounds(v, v.inodes[n], offset / 512, last, offset, buf, 0) == Rounds(w, ino, b, last, offset, buf, written)
  }

  lemma GoingStart(v: Vol, n: int, offset: nat, buf: seq<Byte>)
    requires Owned(v) && InoValid(v, n) && offset + |buf| < TWO32
    ensures Going(v, n - 1, v, GetInode(v, n), offset / 512, LastOf(offset, |buf|), offset, buf, 0)
  {
    assert v.inodes[n - 1 := v.inodes[n - 1]] == v.inodes;
  }

  lemma GoingReady(v: Vol, n: int, w: Vol, ino: Inode, b: nat, last: nat, offset: nat, buf: seq<Byte>, written: nat)
    requires Going(v, n, w, ino, b, last, offset, buf, written)
    ensures Own(w, [ino])
  {
    OwnOne(w, v.inodes[n := ino], n);
  }

  lemma GoingFails(v: Vol, n: int, w: Vol, ino: Inode, b: nat, last: nat, offset: nat, buf: seq<Byte>, written: nat)
    requires Going(v, n, w, ino, b, last, offset, buf, written) && b <= last && GetBlock(w, ino, b, true).phys < 0
    ensures var g := GetBlock(w, ino, b, true);
            Rounds(v, v.inodes[n], offset / 512, last, offset, buf, 0) == Wrote(g.v, g.ino, written)
  {
  }

  lemma GoingDone(v: Vol, n: int, w: Vol, ino: Inode, b: nat, last: nat, offset: nat, buf: seq<Byte>, written: nat)
    requires Going(v, n, w, ino, b, last, offset, buf, written) && b > last
    ensures Rounds(v, v.inodes[n], offset / 512, last, offset, buf, 0) == Wrote(w, ino, written)
  {
  }

  lemma GoingOn(v: Vol, n: int, w: Vol, ino: Inode, b: nat, last: nat, offset: nat, buf: seq<Byte>, written: nat)
    requires Going(v, n, w, ino, b, last, offset, buf, written) && b <= last && GetBlock(w, ino, b, true).phys >= 0
    ensures var g := GetBlock(w, ino, b, true); var k := RoundLen(b, offset, |buf| - written);
            var x := SetBlk(g.v, g.phys, Splice(Blk(g.v, g.phys), RoundAt(b, offset), buf[written..written + k]));
            && InData(g.v, g.phys) && g.phys > 0
            && Going(v, n, x, g.ino, b + 1, last, offset, buf, written + k)
  {
    hide GetBlock, Own, Blk, SetBlk, Splice, Lookup, RoundAt, RoundLen;
    RoundAdds(b, offset, |buf|, written);
    var g := GetBlock(w, ino, b, true);
    var k := RoundLen(b, offset, |buf| - written);
    var c := Splice(Blk(g.v, g.phys), RoundAt(b, offset), buf[written..written + k]);
    var u := v.inodes[n := ino];
    RoundKeeps(w, u, n, b, g.ino, g.phys);
    var z := u[n := g.ino];
    assert z == v.inodes[n := g.ino];
    RoundWrites(g.v, z, n, b, g.phys, c);
    SetBlkWF(g.v, g.phys, c);
  }

  lemma RoundAdds(b: nat, offset: nat, size: nat, written: nat)
    requires written <= size
    ensures var k := RoundLen(b, offset, size - written); written + k <= size && RoundAt(b, offset) + k <= 512
  {
  }

  lemma SetBlkWF(v: Vol, p: int, b: Block)
    requires WF(v)
    ensures WF(SetBlk(v, p, b)) && SetBlk(v, p, b).inodes == v.inodes
  {
  }

  /** GetDataBlock inside the write loop. */
  lemma RoundKeeps(w: Vol, u: seq<Inode>, n: nat, b: nat, ino: Inode, phys: int)
    requires WF(w) && n < |u| && Own(w, u)
    requires ino == GetBlock(w, u[n], b, true).ino && phys == GetBlock(w, u[n], b, true).phys
    ensures var g := GetBlock(w, u[n], b, true);
            Own(g.v, u[n := ino]) && g.v.inodes == w.inodes
                && (phys >= 0 ==> InData(g.v, phys) && phys == Lookup(g.v, ino, b) && phys > 0)
  {
    GetBlockAlloc(w, u, n, b);
    GrewShape(w, u, n, GetBlock(w, u[n], b, true).v, ino);
    hide GetBlock, P;
    if phys >= 0 {
      assert u[n := ino][n] == ino && P(GetBlock(w, u[n], b, true).v, u[n := ino][n], LeafOf(b)) == phys;
    }
  }

  lemma RoundWrites(w: Vol, u: seq<Inode>, n: nat, b: nat, phys: int, c: Block)
    requires WF(w) && n < |u| && Own(w, u) && phys == Lookup(w, u[n], b) && phys > 0
    ensures Own(SetBlk(w, phys, c), u) && SetBlk(w, phys, c).inodes == w.inodes
  {
    PathIsChain(b);
    DataWriteGrew(w, u, n, LeafOf(b), c);
  }

  /** The loop and the write-back are the write call on the value. */
  lemma WriteIs(v: Vol, n: int, offset: nat, buf: seq<Byte>)
    requires Owned(v) && InoValid(v, n) && offset + |buf| < TWO32
    ensures var r := Rounds(v, v.inodes[n - 1], offset / 512, LastOf(offset, |buf|), offset, buf, 0);
            var ino := r.ino.(size := Max(r.ino.size, offset + r.n));
            (if buf == [] then PutInode(r.v, n, ino) == WriteEmpty(v, n, offset) && r.n == 0
             else Written(PutInode(r.v, n, ino), r.n) == WriteFile(v, n, offset, buf))
  {
    hide Rounds, Touch, WriteFrom, Own, WF, RoundLen, Splice;
    if buf == [] {
      EmptyIs(v, n, offset);
    } else {
      NonEmptyIs(v, n, offset, buf);
    }
  }

  lemma EmptyIs(v: Vol, n: int, offset: nat)
    requires Owned(v) && InoValid(v, n) && offset < TWO32
    ensures var r := Rounds(v, v.inodes[n - 1], offset / 512, LastOf(offset, 0), offset, [], 0);
            PutInode(r.v, n, r.ino.(size := Max(r.ino.size, offset))) == WriteEmpty(v, n, offset) && r.n == 0
  {
    var a := v.inodes[n - 1];
    RoundsAreTouch(v, a, offset / 512, LastOf(offset, 0), offset);
    TouchKeeps(v, v.inodes, n - 1, offset / 512, LastBlock(offset));
    var r := Touch(v, a, offset / 512, LastBlock(offset));
    GrewShape(v, v.inodes, n - 1, r.v, r.ino);
    hide Rounds, Touch, Own, Grew;
  }

  lemma NonEmptyIs(v: Vol, n: int, offset: nat, buf: seq<Byte>)
    requires Owned(v) && InoValid(v, n) && offset + |buf| < TWO32 && buf != []
    ensures var r := Rounds(v, v.inodes[n - 1], offset / 512, LastOf(offset, |buf|), offset, buf, 0);
            Written(PutInode(r.v, n, r.ino.(size := Max(r.ino.size, offset + r.n))), r.n)
                == WriteFile(v, n, offset, buf)
  {
    hide Rounds, WriteFrom, Own, Grew, OthersKept;
    var a := v.inodes[n - 1];
    StepStart(offset, |buf|);
    RoundsAreWrite(v, a, offset / 512, LastOf(offset, |buf|), offset, buf, 0);
    assert buf[0..] == buf;
    WriteKeeps(v, v.inodes, n - 1, offset, buf);
    var r := WriteFrom(v, a, offset, buf);
    GrewShape(v, v.inodes, n - 1, r.v, r.ino);
  }
}
