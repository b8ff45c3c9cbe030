/** ipo_fs_format on disk: layout, zeroed regions, root, /app and /autorun. */
module IpoFormat {
  import opened Bytes
  import opened Bitmaps
  import opened Layout
  import opened Volume
  import opened BlockMap
  import opened Inodes
  import opened Device
  import opened Directory
  import opened Api
  import opened VolTree
  import opened Calls
  import opened Runs
  import opened IpoFs
  import Format
  import IpoDir
  import T = Tree

  // ---------------------------------------------------------------------
  // Zeroed regions

  lemma {:induction false} ZeroBit(k: nat)
    ensures !BitOf(0, k)
    decreases k
  {
    if k > 0 { ZeroBit(k - 1); }
  }

  lemma ZeroSlot(j: nat)
    requires j < 6
    ensures DecodeInode(ZERO_BLOCK, j) == ZERO_INODE
  {
    var b := ZERO_BLOCK;
    forall k | 0 <= k < 11 ensures WordAt(b, 76 * j + 4 * k) == 0 {
    }
    var w := Words(b, 76 * j, 11);
    assert w[3..9] == [0, 0, 0, 0, 0, 0];
    assert b[76 * j + 44..76 * j + 76] == Zeros(32);
  }

  /** A disk whose bitmaps and inode table are zero encodes the blank volume. */
  lemma BlankDisk(l: Layout, d: Disk)
    requires Fits(l, d) && forall b :: 1 <= b < l.dataStart ==> d[b] == ZERO_BLOCK
    ensures ValueOf(l, d) == Format.Blank(d[0], l.dataStart, l.inodeCount, d[l.dataStart..l.fsSize])
  {
    hide DecodeInode;
    var v := ValueOf(l, d);
    var w := Format.Blank(d[0], l.dataStart, l.inodeCount, d[l.dataStart..l.fsSize]);
    forall i | 0 <= i < l.inodeCount ensures !v.inoUsed[i] && v.inodes[i] == ZERO_INODE {
      ZeroBit(i % 8);
      ZeroSlot(i % 6);
      assert l.itStart <= SlotBlock(l, i + 1) < l.dataStart;
    }
    forall i | 0 <= i < DataBlocks(l) ensures !v.used[i] { ZeroBit(i % 8); }
    assert v.inoUsed == w.inoUsed && v.inodes == w.inodes && v.used == w.used;
  }

  /** Writes zeros over blocks lo to hi - 1. */
  method ZeroBlocks(d: seq<Block>, lo: nat, hi: nat) returns (e: seq<Block>)
    requires lo <= hi <= |d|
    ensures |e| == |d| && forall b :: 0 <= b < |d| ==> e[b] == if lo <= b < hi then ZERO_BLOCK else d[b]
  {
    e := d;
    var i := 0;
    while i < hi - lo
      invariant 0 <= i <= hi - lo && |e| == |d|
      invariant forall b :: 0 <= b < |d| ==> e[b] == if lo <= b < lo + i then ZERO_BLOCK else d[b]
    {
      e := e[lo + i := ZERO_BLOCK];
      i := i + 1;
    }
  }

  // ---------------------------------------------------------------------
  // Root, /app and /autorun

  /** A block for directory n, with its dots. */
  method GiveDots(fs: FileSystem, n: Word, parent: Word, mode: Word) returns (ok: bool)
    requires fs.Valid() && InoValid(fs.V(), n)
    modifies fs`disk
    ensures fs.Valid() && fs.V() == Format.GiveDots(old(fs.V()), n, parent, mode).v
            && ok == Format.GiveDots(old(fs.V()), n, parent, mode).ok
  {
    hide FileSystem.V, FileSystem.Valid, PutEntry, Format.Dots;
    AllocCases(fs.V());
    var block := fs.AllocateBlock();
    if block < 0 { return false; }
    DotsIs(n, parent);
    var buf := PutEntry(ZERO_BLOCK, 0, NewEnt(DOT, n, TYPE_DIR));
    buf := PutEntry(buf, 1, NewEnt(DOTDOT, parent, TYPE_DIR));
    fs.BlockWrite(block, buf);
    var _ := fs.WriteInode(n, Format.DirInode(mode, block));
    ok := true;
  }

  lemma AllocCases(v: Vol)
    requires WF(v)
    ensures var a := AllocBlock(v); if a.phys < 0 then a.v == v else InData(a.v, a.phys) && a.phys < TWO32
  {
  }

  lemma DotsIs(n: Word, parent: Word)
    ensures Format.Dots(n, parent)
            == PutEntry(PutEntry(ZERO_BLOCK, 0, NewEnt(DOT, n, TYPE_DIR)), 1, NewEnt(DOTDOT, parent, TYPE_DIR))
  {
  }

  method TakeInode(fs: FileSystem, mode: Word, links: Word) returns (r: int)
    requires fs.Valid()
    modifies fs`disk
    ensures fs.Valid() && fs.V() == Format.TakeInode(old(fs.V()), mode, links).v
            && r == Format.TakeInode(old(fs.V()), mode, links).phys
  {
    hide FileSystem.V, FileSystem.Valid, AllocInode;
    r := fs.AllocateInode();
    if r < 0 { return; }
    var _ := fs.WriteInode(r, NEW_FILE.(mode := mode, links := links));
  }

  /** What making /app and /autorun relies on between the steps. */
  lemma TakenOwned(v: Vol, mode: Word, links: Word)
    requires WF(v) && Owned(v)
    ensures var a := Format.TakeInode(v, mode, links);
            if a.phys < 0 then a.v == v
            else Owned(a.v) && 0 < a.phys < TWO32 && InoValid(a.v, a.phys) && InoValid(v, a.phys)
                 && (var r := Format.GiveDots(a.v, a.phys, 1, mode); r.ok ==> Owned(r.v))
  {
    var a := Format.TakeInode(v, mode, links);
    NoneTaken(v, mode, links);
    if a.phys > 0 {
      hide Own, Format.TakeInode, Format.GiveDots, OffX, Full;
      Format.TakeInodeOff(v, mode, links);
      if Format.GiveDots(a.v, a.phys, 1, mode).ok {
        Format.NotFullIfOk(a.v, a.phys, 1, mode);
        Format.GiveDotsOff(a.v, a.phys, 1, mode);
      }
    }
  }

  lemma NoneTaken(v: Vol, mode: Word, links: Word)
    requires WF(v)
    ensures var a := Format.TakeInode(v, mode, links); a.phys < 0 ==> a.v == v
    ensures Format.TakeInode(v, mode, links).phys != 0
  {
  }

  method MakeApp(fs: FileSystem) returns (ok: bool)
    requires fs.Valid() && Owned(fs.V())
    modifies fs`disk
    ensures fs.Valid() && fs.V() == Format.MakeApp(old(fs.V())).v && ok == Format.MakeApp(old(fs.V())).ok
  {
    hide FileSystem.V, FileSystem.Valid, Owned, Format.TakeInode, Format.GiveDots, DirAdd, WF;
    var mode := TYPE_DIR + Format.PROTECTED_FLAG;
    TakenOwned(fs.V(), mode, 2);
    var app := TakeInode(fs, mode, 2);
    if app < 0 { return false; }
    ok := GiveDots(fs, app, 1, mode);
    if !ok { return false; }
    ok := IpoDir.AddEntry(fs, 1, Format.APP, app, TYPE_DIR);
  }

  method MakeAutorun(fs: FileSystem) returns (ok: bool)
    requires fs.Valid() && Owned(fs.V())
    modifies fs`disk
    ensures fs.Valid() && fs.V() == Format.MakeAutorun(old(fs.V())).v && ok == Format.MakeAutorun(old(fs.V())).ok
  {
    hide FileSystem.V, FileSystem.Valid, Owned, Format.TakeInode, DirAdd, WF;
    TakenOwned(fs.V(), 2 + Format.PROTECTED_FLAG, 1);
    var autorun := TakeInode(fs, 2 + Format.PROTECTED_FLAG, 1);
    if autorun < 0 { return false; }
    ok := IpoDir.AddEntry(fs, 1, Format.AUTORUN, autorun, 2);
  }

  /** Marks inode 1 and stores the root. */
  method TakeRoot(fs: FileSystem)
    requires fs.Valid() && fs.sb.inodeCount > 0
    modifies fs`disk
    ensures fs.Valid() && fs.V() == Format.TakeRoot(old(fs.V()))
  {
    hide Bits, Table, SetBitAt, DecodeInode, PutInodeIn;
    SetInodeBit(fs.sb, fs.disk, 0, true);
    fs.BitmapSet(fs.sb.ibStart, 0, true);
    var _ := fs.WriteInode(1, NEW_FILE.(mode := TYPE_DIR, links := 2));
  }

  /** The volume format starts from, and what holds once the root is there. */
  lemma RootReady(v: Vol)
    requires Owned(v) && DirsOK(v) && TreeOf(v) == map[] && |v.inodes| > 0 && v.inodes[0] == ZERO_INODE
    ensures var r := Format.GiveDots(Format.TakeRoot(v), 1, 1, TYPE_DIR);
            r.ok ==> FsInv(r.v) && Owned(r.v) && (var a := Format.MakeApp(r.v); a.ok ==> Owned(a.v))
  {
    var w := Format.TakeRoot(v);
    if Format.GiveDots(w, 1, 1, TYPE_DIR).ok {
      Format.NotFullIfOk(w, 1, 1, TYPE_DIR);
      assert w.used == v.used;
      Format.RootMade(v);
      var r := Format.GiveDots(w, 1, 1, TYPE_DIR).v;
      hide Own, DirsOK, T.TreeInv, Format.MakeApp, Format.GiveDots, Format.TakeRoot, TreeOf;
      FsInvIs(r);
      if Format.MakeApp(r).ok {
        Format.AppMade(r);
        FsInvIs(Format.MakeApp(r).v);
      }
    }
  }

  lemma Encodes(fs: FileSystem, l: Layout, d: Disk)
    requires fs.sb == l && fs.disk == d && Fits(l, d)
    ensures fs.Valid() && fs.V() == ValueOf(l, d)
  {
  }

  /**
   * ipo_fs_format. It fails where no layout can be made; where the layout made is good, it leaves the volume the runs
   * start from, or fails where that volume cannot be made.
   */
  method FormatDisk(d: seq<Block>, super: Block, total: nat, inodes: nat) returns (ok: bool, fs: FileSystem?)
    requires total < 0x8000_0000 && 0 < inodes && INODE_SIZE * inodes + 511 < TWO32 && total <= |d|
    requires Shared(total, inodes) >= 2 ==>
      Shared(total, inodes) % 4097 != 1 && CeilDiv(inodes, INODES_PER_BLOCK) <= TableBlocks(inodes)
    ensures total < 10 || Shared(total, inodes) < 2 ==> !ok && fs == null
    ensures total >= 10 && Shared(total, inodes) >= 2 ==>
      fs != null && fresh(fs) && fs.Valid() && fs.sb.fsSize == total && fs.sb.inodeCount == inodes
    ensures total >= 10 && Shared(total, inodes) >= 2 ==> var b := fs.sb.dataStart;
              && 0 < b < total && b + |d[b..total]| < 0x8000_0000
              && (var r := Format.FormatVol(Format.Blank(super, b, inodes, d[b..total])); fs.V() == r.v && ok == r.ok)
  {
    hide FileSystem.V, FileSystem.Valid, ValueOf, Format.TakeRoot, Format.GiveDots, Format.MakeApp, Format.MakeAutorun,
      Owned, DirsOK,
      TreeOf, FsInv, WF, TableBlocks, InodeBitmapBlocks, Shared;
    var laid, l := FormatLayout(total, inodes);
    if !laid { return false, null; }
    var e := d[0 := super];
    e := ZeroBlocks(e, l.ibStart, l.bbStart);
    e := ZeroBlocks(e, l.bbStart, l.itStart);
    e := ZeroBlocks(e, l.itStart, l.dataStart);
    fs := new FileSystem(l, e);
    assert e[l.dataStart..total] == d[l.dataStart..total];
    ghost var v := Format.Blank(super, l.dataStart, inodes, d[l.dataStart..total]);
    BlankDisk(l, e);
    Encodes(fs, l, e);
    Format.BlankOwned(super, l.dataStart, inodes, d[l.dataStart..total]);
    RootReady(v);
    TakeRoot(fs);
    ok := GiveDots(fs, 1, 1, TYPE_DIR);
    if !ok { return; }
    ok := MakeApp(fs);
    if !ok { return; }
    ok := MakeAutorun(fs);
  }
}
