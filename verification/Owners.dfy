/** Ownership of blocks on its own: every call keeps it on every volume, whatever the directories there hold. */
module Owners {
  import opened Bytes
  import opened Volume
  import opened BlockMap
  import opened FileData
  import opened Inodes
  import opened Directory
  import opened Paths
  import opened Api
  import opened EmptyWrite

  /** What a call must keep: ownership of blocks, and direct pointers within the sizes if they were. */
  ghost predicate Kept(v: Vol, w: Vol) {
    Owned(w) && (Bounded(v) ==> Bounded(w)) && |w.inodes| == |v.inodes|
  }

  lemma KeptTrans(v: Vol, w: Vol, x: Vol)
    requires Kept(v, w) && Kept(w, x)
    ensures Kept(v, x)
  {
    hide Owned, Bounded;
  }

  lemma KeptRefl(v: Vol)
    requires Owned(v)
    ensures Kept(v, v)
  {
  }

  // ---------------------------------------------------------------------
  // The edits of a directory

  /** A block is stored over one that the inode maps at index l, or nowhere if it maps none. */
  lemma StoreKept(v: Vol, d: int, l: nat, b: Block)
    requires Owned(v)
    ensures var w := SetBlk(v, Lookup(v, GetInode(v, d), l), b);
            && Kept(v, w) && w.inodes == v.inodes && w.used == v.used && w.inoUsed == v.inoUsed
            && (forall m, k :: P(w, GetInode(v, m), k) == P(v, GetInode(v, m), k))
  {
    hide Own, P, Bounded;
    var p := Lookup(v, GetInode(v, d), l);
    var w := SetBlk(v, p, b);
    if p == 0 {
      assert !InData(v, 0);
    } else {
      if !InoValid(v, d) { NoBlocks(v, l); }
      PathIsChain(l);
      SetBlkShape(v, p, b);
      DataWriteGrew(v, v.inodes, d - 1, LeafOf(l), b);
    }
    forall m, k ensures P(w, GetInode(v, m), k) == P(v, GetInode(v, m), k) {
      ZeroInodeEmpty(v, k);
      ZeroInodeEmpty(w, k);
    }
    SameBounds(v, w);
  }

  /** Seen from any other inode, storing such a block does nothing. */
  lemma StoreUndisturbed(v: Vol, d: int, l: nat, b: Block, m: int)
    requires Owned(v) && InoValid(v, m) && m != d
    ensures Undisturbed(v, SetBlk(v, Lookup(v, GetInode(v, d), l), b), GetInode(v, m))
  {
    hide Own, P, Undisturbed;
    var p := Lookup(v, GetInode(v, d), l);
    if p == 0 {
      assert SetBlk(v, p, b) == v;
      FieldsUndisturbed(v, v, GetInode(v, m));
    } else {
      if !InoValid(v, d) { NoBlocks(v, l); }
      PathIsChain(l);
      DataWriteUndisturbed(v, v.inodes, d - 1, LeafOf(l), b, m - 1);
    }
  }

  lemma NoBlocks(v: Vol, l: nat)
    ensures Lookup(v, ZERO_INODE, l) == 0
  {
    if l < MAP_LIMIT { ZeroInodeEmpty(v, LeafOf(l)); }
  }

  lemma SameBounds(v: Vol, w: Vol)
    requires w.inodes == v.inodes
    ensures Bounded(v) ==> Bounded(w)
  {
  }

  lemma AddKept(v: Vol, d: int, name: Name, n: Word, typ: Byte)
    requires Owned(v)
    ensures var r := DirAdd(v, d, name, n, typ); Kept(v, r.v) && r.v.inoUsed == v.inoUsed
  {
    hide Own, GetBlock, SetBlk, FindFrom, Bounded, PutEntry;
    var din := GetInode(v, d);
    if InoValid(v, d) && IsDir(din.mode) && ValidName(name) && FindFrom(v, din, name, 0) == SlotCount(din) {
      if GetBlock(v, din, SlotCount(din) / 7, true).phys < 0 {
        RefusedKept(v, d, SlotCount(din) / 7);
      } else {
        AppendKept(v, d, NewEnt(name, n, typ));
      }
    }
  }

  /** A growth that stops half-way: the inode on disk is the old one. */
  lemma RefusedKept(v: Vol, d: int, l: nat)
    requires Owned(v) && InoValid(v, d)
    ensures var g := GetBlock(v, GetInode(v, d), l, true); Kept(v, g.v) && g.v.inoUsed == v.inoUsed
  {
    hide Own, P, GetBlock, Lookup, Bounded, DataKept;
    var t := v.inodes;
    var g := GetBlock(v, t[d - 1], l, true);
    GetBlockAlloc(v, t, d - 1, l);
    StaleOwn(v, t, d - 1, g.v, g.ino);
    GrewShape(v, t, d - 1, g.v, g.ino);
    hide Grew;
    SameBounds(v, g.v);
  }

  lemma AppendKept(v: Vol, d: int, ent: DirEnt)
    requires Owned(v) && InoValid(v, d)
    requires GetBlock(v, GetInode(v, d), SlotCount(GetInode(v, d)) / 7, true).phys >= 0
    ensures var din := GetInode(v, d); var e := SlotCount(din); var g := GetBlock(v, din, e / 7, true);
            var x := SetBlk(g.v, g.phys, PutEntry(Blk(g.v, g.phys), e % 7, ent));
            var w := PutInode(x, d, g.ino.(size := (din.size + 72) % TWO32));
            Kept(v, w) && w.inoUsed == v.inoUsed
  {
    hide Own, Grew, DataKept, P, GetBlock, Lookup, SetBlk, PutEntry, Blk, DirectBound;
    var din := GetInode(v, d);
    var t := v.inodes;
    var e := SlotCount(din);
    var g := GetBlock(v, din, e / 7, true);
    var b := PutEntry(Blk(g.v, g.phys), e % 7, ent);
    var x := SetBlk(g.v, g.phys, b);
    var u := t[d - 1 := g.ino];
    var jno := g.ino.(size := (din.size + 72) % TWO32);
    var w := PutInode(x, d, jno);
    AppendPrep(v, d);
    SetBlkShape(g.v, g.phys, b);
    DataWriteGrew(g.v, u, d - 1, LeafOf(e / 7), b);
    OwnFields(x, u, w, w.inodes);
    if DirectBound(din) { SlotGrown(v, d); }
  }

  /** The directory inode with one more slot mapped and counted. */
  lemma SlotGrown(v: Vol, d: int)
    requires Owned(v) && InoValid(v, d) && DirectBound(GetInode(v, d))
    requires GetBlock(v, GetInode(v, d), SlotCount(GetInode(v, d)) / 7, true).phys >= 0
    ensures var din := GetInode(v, d); var g := GetBlock(v, din, SlotCount(din) / 7, true);
            DirectBound(g.ino.(size := (din.size + 72) % TWO32))
  {
    hide Own, GetBlock, DirectBound;
    var din := GetInode(v, d);
    var l := SlotCount(din) / 7;
    var g := GetBlock(v, din, l, true);
    GrownDirects(v, v.inodes, d - 1, l);
    GrownBound(din, g.ino, l);
  }

  lemma GrownDirects(v: Vol, t: seq<Inode>, n: nat, l: nat)
    requires WF(v) && Own(v, t) && n < |t| && GetBlock(v, t[n], l, true).phys >= 0
    ensures l < MAP_LIMIT && forall i :: 0 <= i < 6 && i != l
                               ==> GetBlock(v, t[n], l, true).ino.direct[i] == t[n].direct[i]
  {
    var g := GetBlock(v, t[n], l, true);
    GetBlockAlloc(v, t, n, l);
    hide Own, Grew, DataKept, GetBlock, Lookup;
    forall i | 0 <= i < 6 && i != l ensures g.ino.direct[i] == t[n].direct[i] {
      if Direct(i) == LeafOf(l) { LeafOfInjective(i, l); }
      assert P(g.v, g.ino, Direct(i)) == P(v, t[n], Direct(i));
    }
  }

  lemma GrownBound(a: Inode, b: Inode, l: nat)
    requires DirectBound(a) && l == a.size / 72 / 7 && l < MAP_LIMIT
    requires forall i :: 0 <= i < 6 && i != l ==> b.direct[i] == a.direct[i]
    ensures DirectBound(b.(size := (a.size + 72) % TWO32))
  {
    var c := b.(size := (a.size + 72) % TWO32);
    assert a.size / 72 < 7 * l + 7;
    assert c.size == a.size + 72;
    forall i | 0 <= i < 6 && c.direct[i] != 0 ensures i < CeilDiv(c.size, 512) {
      if i == l {
        assert a.size >= 504 * l;
      } else {
        assert a.direct[i] != 0;
      }
    }
  }

  /** The blocks an add takes are held by the directory afterwards, and it touches no other inode. */
  lemma AddTakes(v: Vol, d: int, name: Name, n: Word, typ: Byte)
    requires Owned(v) && DirAdd(v, d, name, n, typ).ok
    ensures var w := DirAdd(v, d, name, n, typ).v;
            && (forall p :: Used(v, p) ==> Used(w, p))
            && (forall p :: Used(w, p) && !Used(v, p) ==> Holds(w, GetInode(w, d), p))
            && (forall m :: m != d ==> GetInode(w, m) == GetInode(v, m))
            && w.inoUsed == v.inoUsed && InoValid(v, d)
  {
    hide Own, GetBlock, SetBlk, FindFrom, PutEntry;
    var din := GetInode(v, d);
    var t := v.inodes;
    var e := SlotCount(din);
    var g := GetBlock(v, din, e / 7, true);
    var b := PutEntry(Blk(g.v, g.phys), e % 7, NewEnt(name, n, typ));
    var x := SetBlk(g.v, g.phys, b);
    var w := DirAdd(v, d, name, n, typ).v;
    GetBlockAlloc(v, t, d - 1, e / 7);
    AppendPrep(v, d);
    SetBlkShape(g.v, g.phys, b);
    var u := t[d - 1 := g.ino];
    hide DataKept, Blk, P;
    DataWriteGrew(g.v, u, d - 1, LeafOf(e / 7), b);
    var jno := g.ino.(size := (din.size + 72) % TWO32);
    assert w == PutInode(x, d, jno);
    forall k ensures P(w, jno, k) == P(g.v, g.ino, k) {
      PtrFields(x, w, g.ino, jno, k);
      assert P(x, u[d - 1], k) == P(g.v, u[d - 1], k);
    }
    forall p | Used(w, p) && !Used(v, p) ensures Holds(w, jno, p) {
      assert Used(g.v, p);
      var k :| P(g.v, g.ino, k) == p;
      assert P(w, jno, k) == p;
    }
  }

  lemma RemoveKept(v: Vol, d: int, name: Name)
    requires Owned(v)
    ensures var r := DirRemove(v, d, name);
            && Kept(v, r.v) && r.v.inodes == v.inodes && r.v.used == v.used && r.v.inoUsed == v.inoUsed
            && (forall m, k :: P(r.v, GetInode(v, m), k) == P(v, GetInode(v, m), k))
  {
    hide Own, RemoveFrom, Bounded, PutEntry, Kept, EntryOf, Buried, Lookup, SetBlk, P;
    KeptRefl(v);
    var din := GetInode(v, d);
    var e := RemoveFrom(v, din, name, 0);
    var p := Lookup(v, din, e / 7);
    var b := PutEntry(Blk(v, p), e % 7, Buried(EntryOf(v, din, e)));
    StoreKept(v, d, e / 7, b);
  }

  lemma SetSlotKept(v: Vol, d: int, e: nat, ino: Word)
    requires Owned(v)
    ensures var w := SetSlotIno(v, d, e, ino); Kept(v, w) && w.inodes == v.inodes
  {
    hide Own, Bounded, PutEntry, Kept, EntryOf, Lookup, SetBlk;
    var din := GetInode(v, d);
    var p := Lookup(v, din, e / 7);
    StoreKept(v, d, e / 7, PutEntry(Blk(v, p), e % 7, EntryOf(v, din, e).(ino := ino)));
  }

  // ---------------------------------------------------------------------
  // The calls

  lemma TakeKept(v: Vol, typ: Byte)
    requires Owned(v) && AllocInode(v).phys > 0
    ensures var n := AllocInode(v).phys; var w := PutInode(AllocInode(v).v, n, NEW_FILE.(mode := typ));
            n < TWO32 && InoValid(v, n) && Kept(v, AllocInode(v).v) && Kept(v, w)
  {
    var a := AllocInode(v);
    var n := a.phys;
    var w := PutInode(a.v, n, NEW_FILE.(mode := typ));
    AllocInodeOwned(v);
    hide Own;
    OwnFields(a.v, a.v.inodes, w, w.inodes);
    hide FirstFree;
    if Bounded(v) { assert DirectBound(NEW_FILE.(mode := typ)); }
  }

  lemma FreeKept(v: Vol, n: int)
    requires Owned(v)
    ensures Kept(v, FreeInode(v, n))
  {
    FreeInodeOwned(v, n);
    hide Own, Bounded;
  }

  /** Create in steps, from any volume and for files and directories alike. */
  lemma CreateSteps(v: Vol, path: seq<Byte>, typ: Byte)
    requires Owned(v) && AllocInode(v).phys > 0
    requires var p := ResolveParent(v, path); p.Target? && ValidName(p.name) && DirFind(v, p.parent, p.name).NotFound?
    ensures var n := AllocInode(v).phys; var w := PutInode(AllocInode(v).v, n, NEW_FILE.(mode := typ));
            var p := ResolveParent(v, path);
            && n < TWO32 && Kept(v, AllocInode(v).v) && Kept(v, w)
            && (var r := DirAdd(w, p.parent, p.name, n, typ);
                && Kept(w, r.v)
                && Create(v, path, typ) == if r.ok then Called(r.v, n) else Called(FreeInode(r.v, n), -1))
  {
    hide Own, Bounded, Kept, ResolveParent, DirFind, AllocInode, DirAdd, FreeInode, ValidName;
    var p := ResolveParent(v, path);
    var n := AllocInode(v).phys;
    var w := PutInode(AllocInode(v).v, n, NEW_FILE.(mode := typ));
    TakeKept(v, typ);
    KeptOwned(v, w);
    AddKept(w, p.parent, p.name, n, typ);
  }

  lemma KeptOwned(v: Vol, w: Vol)
    requires Kept(v, w)
    ensures Owned(w)
  {
  }

  lemma CreateKept(v: Vol, path: seq<Byte>, typ: Byte)
    requires Owned(v)
    ensures Kept(v, Create(v, path, typ).v)
  {
    hide Own, Bounded, Kept, ResolveParent, DirFind, AllocInode, DirAdd, FreeInode, ValidName, PutInode;
    var p := ResolveParent(v, path);
    KeptRefl(v);
    if p.Target? && ValidName(p.name) && DirFind(v, p.parent, p.name).NotFound? && AllocInode(v).phys > 0 {
      var n := AllocInode(v).phys;
      var w := PutInode(AllocInode(v).v, n, NEW_FILE.(mode := typ));
      CreateSteps(v, path, typ);
      var r := DirAdd(w, p.parent, p.name, n, typ);
      KeptTrans(v, w, r.v);
      KeptOwned(w, r.v);
      FreeKept(r.v, n);
      KeptTrans(v, r.v, FreeInode(r.v, n));
    } else {
      AllocOne(v);
    }
  }

  lemma AllocOne(v: Vol)
    requires WF(v)
    ensures AllocInode(v).phys > 0 || AllocInode(v) == Alloc(v, -1)
  {
  }

  lemma DeleteKept(v: Vol, path: seq<Byte>)
    requires Owned(v)
    ensures Kept(v, Delete(v, path).v)
  {
    hide Own, Bounded, Kept, ResolveParent, DirFind, DirRemove, FreeInode, GetInode;
    var p := ResolveParent(v, path);
    KeptRefl(v);
    if p.Target? && DirFind(v, p.parent, p.name).Found? {
      var n := DirFind(v, p.parent, p.name).ent.ino;
      var r := DirRemove(v, p.parent, p.name);
      RemoveKept(v, p.parent, p.name);
      KeptOwned(v, r.v);
      FreeKept(r.v, n);
      KeptTrans(v, r.v, FreeInode(r.v, n));
    }
  }

  lemma MoveKept(v: Vol, p: Plan)
    requires Owned(v) && p.MoveTo?
    ensures Kept(v, MoveEntry(v, p).v)
  {
    hide Own, Bounded, Kept, DirAdd, DirRemove, SetSlotIno, GetInode;
    var a := DirAdd(v, p.newParent, p.newName, p.ent.ino, p.ent.typ);
    AddKept(v, p.newParent, p.newName, p.ent.ino, p.ent.typ);
    KeptOwned(v, a.v);
    RemoveKept(a.v, p.oldParent, p.oldName);
    KeptTrans(v, a.v, DirRemove(a.v, p.oldParent, p.oldName).v);
    if 0 <= p.newParent < TWO32 {
      var w := SetSlotIno(a.v, p.ent.ino, 1, p.newParent);
      SetSlotKept(a.v, p.ent.ino, 1, p.newParent);
      KeptTrans(v, a.v, w);
      KeptOwned(v, w);
      RemoveKept(w, p.oldParent, p.oldName);
      KeptTrans(v, w, DirRemove(w, p.oldParent, p.oldName).v);
    }
  }

  lemma RenameKept(v: Vol, oldpath: seq<Byte>, newpath: seq<Byte>)
    requires Owned(v)
    ensures Kept(v, Rename(v, oldpath, newpath).v)
  {
    hide Own, Bounded, Kept, RenamePlan, MoveEntry;
    KeptRefl(v);
    var p := RenamePlan(v, oldpath, newpath);
    if p.MoveTo? { MoveKept(v, p); }
  }

  lemma WriteKept(v: Vol, n: int, offset: nat, buf: seq<Byte>)
    requires Owned(v) && InoValid(v, n) && offset + |buf| < TWO32
    ensures Kept(v, WriteFile(v, n, offset, buf).v)
  {
    hide Own, WriteFile, DirectBound;
    var w := WriteFile(v, n, offset, buf).v;
    WriteFileOwned(v, n, offset, buf);
    if Bounded(v) { WriteFileBounded(v, n, offset, buf); }
  }

  /** A zero-byte write keeps all sizes in bounds exactly when it keeps that of its own file. */
  lemma EmptyKept(v: Vol, n: int, offset: nat)
    requires Owned(v) && InoValid(v, n) && offset < TWO32
    ensures var w := WriteEmpty(v, n, offset);
            && Owned(w) && |w.inodes| == |v.inodes|
            && (Bounded(v) ==> (Bounded(w) <==> DirectBound(GetInode(w, n))))
  {
    hide Own, WriteEmpty, DirectBound, Undisturbed;
    var w := WriteEmpty(v, n, offset);
    WriteEmptyKeeps(v, n, offset);
    forall i | 0 <= i < |v.inodes| && i != n - 1 ensures w.inodes[i] == v.inodes[i] {
      assert GetInode(w, i + 1) == GetInode(v, i + 1);
    }
  }
}
