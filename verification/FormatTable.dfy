/** The inode table that format leaves. */
module FormatTable {
  import opened Bytes
  import opened Volume
  import opened BlockMap
  import opened Inodes
  import opened Directory
  import opened Format

  const ROOT_MODE: Word := 1
  const APP_MODE: Word := 0x8000_0001
  const AUTORUN_MODE: Word := 0x8000_0002

  /** An inode with no block but the first. */
  function OneBlock(mode: Word, size: Word, links: Word, block: Word): Inode {
    Inode(mode, size, links, [block, 0, 0, 0, 0, 0], 0, 0, Zeros(32))
  }

  /** Adding an entry to the first block of a directory moves its size on and changes no other slot. */
  lemma AddTable(v: Vol, d: int, name: seq<Byte>, n: Word, typ: Byte)
    requires WF(v) && InoValid(v, d) && GetInode(v, d).size <= 6 * 72 && GetInode(v, d).direct[0] != 0
    requires DirAdd(v, d, name, n, typ).ok
    ensures var din := GetInode(v, d); var w := DirAdd(v, d, name, n, typ).v;
            w.inodes == v.inodes[d - 1 := din.(size := din.size + 72)]
  {
    var din := GetInode(v, d);
    var e := SlotCount(din);
    assert e / 7 == 0 && PathOf(0) == [Direct(0)];
    assert GetBlock(v, din, 0, true) == Got(v, din, P(v, din, Direct(0)));
    hide GetBlock, FindFrom, PutEntry, Blk, NewEnt, ValidName;
  }

  /** The next free slot and the next free block, as format takes them. */
  lemma DotsTable(v: Vol, n: Word, parent: Word, mode: Word, b: nat)
    requires WF(v) && InoValid(v, n) && OnlyFirst(v.used, b) && b < |v.used|
    ensures var r := GiveDots(v, n, parent, mode);
            && r.ok && r.v.inodes == v.inodes[n - 1 := OneBlock(mode, 144, 2, v.base + b)]
            && r.v.inoUsed == v.inoUsed && OnlyFirst(r.v.used, b + 1)
  {
    OnlyFirstNext(v.used, b);
    hide Dots;
  }

  lemma TakeTable(v: Vol, mode: Word, links: Word, k: nat)
    requires WF(v) && OnlyFirst(v.inoUsed, k) && k < |v.inoUsed|
    ensures var a := TakeInode(v, mode, links);
            && a.phys == k + 1 && a.v.used == v.used && OnlyFirst(a.v.inoUsed, k + 1)
            && a.v.inodes == v.inodes[k := Inode(mode, 0, links, [0, 0, 0, 0, 0, 0], 0, 0, Zeros(32))]
  {
    OnlyFirstNext(v.inoUsed, k);
  }

  lemma RootTable(v: Vol)
    requires WF(v) && |v.inodes| >= 3 && OnlyFirst(v.inoUsed, 0) && OnlyFirst(v.used, 0) && |v.used| >= 2
    ensures var r := GiveDots(TakeRoot(v), 1, 1, TYPE_DIR).v;
            && r.inodes == v.inodes[0 := OneBlock(ROOT_MODE, 144, 2, v.base)]
            && OnlyFirst(r.inoUsed, 1) && OnlyFirst(r.used, 1)
  {
    OnlyFirstNext(v.inoUsed, 0);
    DotsTable(TakeRoot(v), 1, 1, TYPE_DIR, 0);
    hide GiveDots;
  }

  lemma AppTable(v: Vol)
    requires WF(v) && |v.inodes| >= 3 && OnlyFirst(v.inoUsed, 1) && OnlyFirst(v.used, 1) && |v.used| >= 2
    requires v.inodes[0] == OneBlock(ROOT_MODE, 144, 2, v.base) && MakeApp(v).ok
    ensures var r := MakeApp(v).v;
            r.inodes == v.inodes[0 := OneBlock(ROOT_MODE, 216, 2, v.base)]
                [1 := OneBlock(APP_MODE, 144, 2, v.base + 1)]
  {
    TakeTable(v, TYPE_DIR + PROTECTED_FLAG, 2, 1);
    var a := TakeInode(v, TYPE_DIR + PROTECTED_FLAG, 2);
    DotsTable(a.v, a.phys, 1, TYPE_DIR + PROTECTED_FLAG, 1);
    var d := GiveDots(a.v, a.phys, 1, TYPE_DIR + PROTECTED_FLAG).v;
    AddTable(d, 1, APP, a.phys, TYPE_DIR);
    hide TakeInode, GiveDots, DirAdd, OnlyFirst, WF;
  }

  lemma AutorunTable(v: Vol)
    requires WF(v) && |v.inodes| >= 3 && OnlyFirst(v.inoUsed, 2)
    requires v.inodes[0] == OneBlock(ROOT_MODE, 216, 2, v.base) && MakeAutorun(v).ok
    ensures var r := MakeAutorun(v).v;
            r.inodes == v.inodes[0 := OneBlock(ROOT_MODE, 288, 2, v.base)]
                [2 := Inode(AUTORUN_MODE, 0, 1, [0, 0, 0, 0, 0, 0], 0, 0, Zeros(32))]
  {
    TakeTable(v, 2 + PROTECTED_FLAG, 1, 2);
    var a := TakeInode(v, 2 + PROTECTED_FLAG, 1);
    AddTable(a.v, 1, AUTORUN, a.phys, 2);
    hide TakeInode, DirAdd, OnlyFirst;
  }

  /**
   * The inode table after format: the root in the first data block with four slots and two links, "/app" in the second
   * with two slots and two links, "/autorun" an empty file with one link, both protected, and zeros from there on.
   */
  lemma FormatInodes(super: Block, base: nat, inodes: nat, data: seq<Block>)
    requires 0 < base && base + |data| < 0x8000_0000 && 3 <= inodes < 0x8000_0000 && 2 <= |data|
    ensures var t := FormatVol(Blank(super, base, inodes, data)).v.inodes;
            && |t| == inodes
            && t[0] == OneBlock(ROOT_MODE, 4 * 72, 2, base)
            && t[1] == OneBlock(APP_MODE, 2 * 72, 2, base + 1)
            && t[2] == Inode(AUTORUN_MODE, 0, 1, [0, 0, 0, 0, 0, 0], 0, 0, Zeros(32))
            && (forall i :: 3 <= i < inodes ==> t[i] == ZERO_INODE)
  {
    var v := Blank(super, base, inodes, data);
    FormatOk(super, base, inodes, data);
    TableSteps(v);
    hide FormatVol, OnlyFirst;
  }

  lemma FormatOk(super: Block, base: nat, inodes: nat, data: seq<Block>)
    requires 0 < base && base + |data| < 0x8000_0000 && 3 <= inodes < 0x8000_0000 && 2 <= |data|
    ensures FormatVol(Blank(super, base, inodes, data)).ok
  {
    FormatIff(super, base, inodes, data);
    hide FormatVol;
  }

  lemma TableSteps(v: Vol)
    requires WF(v) && |v.inodes| >= 3 && OnlyFirst(v.inoUsed, 0) && OnlyFirst(v.used, 0) && |v.used| >= 2
    requires FormatVol(v).ok
    ensures FormatVol(v).v.inodes == v.inodes
                [0 := OneBlock(ROOT_MODE, 288, 2, v.base)][1 := OneBlock(APP_MODE, 144, 2, v.base + 1)]
                [2 := Inode(AUTORUN_MODE, 0, 1, [0, 0, 0, 0, 0, 0], 0, 0, Zeros(32))]
  {
    hide GiveDots, TakeRoot, MakeApp, MakeAutorun, OnlyFirst, OneBlock;
    RootTable(v);
    var r := GiveDots(TakeRoot(v), 1, 1, TYPE_DIR).v;
    AppTable(r);
    AppBits(r);
    AutorunTable(MakeApp(r).v);
  }

  lemma AppBits(v: Vol)
    requires WF(v) && |v.inodes| >= 3 && OnlyFirst(v.inoUsed, 1) && OnlyFirst(v.used, 1) && |v.used| >= 2
    requires v.inodes[0] == OneBlock(ROOT_MODE, 144, 2, v.base) && MakeApp(v).ok
    ensures OnlyFirst(MakeApp(v).v.inoUsed, 2)
  {
    TakeTable(v, TYPE_DIR + PROTECTED_FLAG, 2, 1);
    var a := TakeInode(v, TYPE_DIR + PROTECTED_FLAG, 2);
    DotsTable(a.v, a.phys, 1, TYPE_DIR + PROTECTED_FLAG, 1);
    var d := GiveDots(a.v, a.phys, 1, TYPE_DIR + PROTECTED_FLAG).v;
    AddInoUsed(d, 1, APP, a.phys, TYPE_DIR);
    hide TakeInode, GiveDots, DirAdd, OnlyFirst;
  }

  lemma AddInoUsed(v: Vol, d: int, name: seq<Byte>, n: Word, typ: Byte)
    requires WF(v) && InoValid(v, d) && GetInode(v, d).size <= 6 * 72 && GetInode(v, d).direct[0] != 0
    ensures DirAdd(v, d, name, n, typ).v.inoUsed == v.inoUsed
  {
    var din := GetInode(v, d);
    assert SlotCount(din) / 7 == 0 && PathOf(0) == [Direct(0)];
    assert GetBlock(v, din, 0, true) == Got(v, din, P(v, din, Direct(0)));
    hide GetBlock, FindFrom, PutEntry, Blk, NewEnt, ValidName;
  }
}
