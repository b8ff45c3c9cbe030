/** Directories on disk: scans over the mapped slots, and the read-modify-write of one slot. */
module IpoDir {
  import opened Bytes
  import opened Volume
  import opened BlockMap
  import opened FileData
  import opened Inodes
  import opened Directory
  import opened Api
  import opened VolTree
  import opened IpoFs

  /** The block of a directory slot, as the scans find it. */
  lemma SlotBlockIs(v: Vol, d: int, e: nat)
    requires Owned(v) && InoValid(v, d)
    ensures var din := GetInode(v, d); var p := Lookup(v, din, e / 7);
            && Own(v, [din])
            && GetBlock(v, din, e / 7, false) == Got(v, din, if p == 0 then -1 else p as int)
            && (p != 0 ==> InData(v, p))
            && (e / 7 < 6 ==> p == din.direct[e / 7])
            && EntryOf(v, din, e) == (if p == 0 then ZERO_ENT else EntryAt(Blk(v, p), e % 7))
  {
    var din := GetInode(v, d);
    OwnOne(v, v.inodes, d - 1);
    GetBlockLookup(v, din, e / 7);
    if e / 7 < MAP_LIMIT { assert P(v, v.inodes[d - 1], LeafOf(e / 7)) == Lookup(v, din, e / 7); }
    hide Own, GetBlock, EntryAt, Blk;
  }

  lemma NothingAtZero(name: seq<Byte>)
    ensures !FindMatches(ZERO_ENT, name) && !RemoveMatches(ZERO_ENT, name)
  {
  }

  /** dir_find_entry: the first slot that carries the name. */
  method FindEntry(fs: FileSystem, d: int, name: seq<Byte>) returns (f: Found)
    requires fs.Valid() && Owned(fs.V())
    modifies fs`disk
    ensures fs.disk == old(fs.disk) && f == DirFind(fs.V(), d, name)
  {
    hide FileSystem.V, FileSystem.Valid, Own, WF, GetBlock, Blk, Lookup, EntryOf, FindMatches, EntryAt;
    var ok, din: Inode := fs.ReadInode(d);
    if !ok || !IsDir(din.mode) { return NotFound; }
    ghost var v := fs.V();
    NothingAtZero(name);
    var entries := din.size / 72;
    var e := 0;
    while e < entries
      invariant 0 <= e <= entries == SlotCount(din) && fs.disk == old(fs.disk)
      invariant FindFrom(v, din, name, e) == FindFrom(v, din, name, 0)
    {
      SlotBlockIs(v, d, e);
      var phys: int;
      if e / 7 < 6 {
        phys := din.direct[e / 7];
      } else {
        var _, p := fs.GetDataBlock(din, e / 7, false);
        phys := if p < 0 then 0 else p;
      }
      if phys != 0 {
        var buf := fs.BlockRead(phys);
        var de := EntryAt(buf, e % 7);
        if FindMatches(de, name) { return Found(e, de); }
      }
      e := e + 1;
    }
    return NotFound;
  }

  /** dir_add_entry: the slot past the last one takes the entry. */
  method AddEntry(fs: FileSystem, d: int, name: seq<Byte>, ino: Word, typ: Byte) returns (ok: bool)
    requires fs.Valid() && Owned(fs.V())
    modifies fs`disk
    ensures fs.Valid() && fs.V() == DirAdd(old(fs.V()), d, name, ino, typ).v
            && ok == DirAdd(old(fs.V()), d, name, ino, typ).ok
  {
    hide FileSystem.V, FileSystem.Valid, Own, WF, GetBlock, Blk, Lookup, FindFrom, EntryOf, FindMatches, EntryAt,
      PutEntry, SetBlk;
    ghost var v := fs.V();
    var good, din: Inode := fs.ReadInode(d);
    if !good || !IsDir(din.mode) || !ValidName(name) { return false; }
    var f := FindEntry(fs, d, name);
    if f.Found? { return false; }
    var entries := din.size / 72;
    SlotBlockIs(v, d, entries);
    NewBlockInData(v, d, entries / 7);
    var phys;
    din, phys := fs.GetDataBlock(din, entries / 7, true);
    if phys < 0 { return false; }
    var buf := fs.BlockRead(phys);
    buf := PutEntry(buf, entries % 7, NewEnt(name, ino, typ));
    fs.BlockWrite(phys, buf);
    SizeKept(v, d, entries / 7);
    din := din.(size := (din.size + 72) % TWO32);
    var _ := fs.WriteInode(d, din);
    ok := true;
  }

  /** A block got for a directory is a data block. */
  lemma NewBlockInData(v: Vol, d: int, l: nat)
    requires Owned(v) && InoValid(v, d)
    ensures var g := GetBlock(v, GetInode(v, d), l, true); g.phys >= 0 ==> InData(g.v, g.phys)
  {
    var g := GetBlock(v, GetInode(v, d), l, true);
    RoundKeeps(v, v.inodes, d - 1, l, g.ino, g.phys);
  }

  lemma SizeKept(v: Vol, d: int, l: nat)
    requires Owned(v) && InoValid(v, d)
    ensures GetBlock(v, GetInode(v, d), l, true).ino.size == GetInode(v, d).size
  {
    GetBlockAlloc(v, v.inodes, d - 1, l);
    hide GetBlock, Own, P;
  }

  /** Comparing the stored name with "." or ".." is comparing the name looked for. */
  lemma DotNames(e: DirEnt, name: seq<Byte>)
    requires RemoveMatches(e, name) && NoNul(name)
    ensures SameUpTo(e.name, DOT, 0, 64) <==> name == DOT
    ensures SameUpTo(e.name, DOTDOT, 0, 64) <==> name == DOTDOT
  {
    SameUpToIs(e.name, name, 0, 64);
    SameUpToIs(e.name, DOT, 0, 64);
    SameUpToIs(e.name, DOTDOT, 0, 64);
    hide SameUpTo;
    assert CharAt(e.name, 0) == CharAt(name, 0);
    assert |name| >= 1 ==> CharAt(e.name, 1) == CharAt(name, 1);
    assert |name| >= 2 ==> CharAt(e.name, 2) == CharAt(name, 2);
    assert forall k :: CharAt(DOT, k) == (if k == 0 then 46 else 0);
    assert forall k :: CharAt(DOTDOT, k) == (if k < 2 then 46 else 0);
  }

  /** dir_remove_entry: the first slot that carries the name is buried, unless it is protected or a dot entry. */
  method RemoveEntry(fs: FileSystem, d: int, name: seq<Byte>) returns (ok: bool)
    requires fs.Valid() && Owned(fs.V()) && NoNul(name)
    modifies fs`disk
    ensures fs.Valid() && fs.V() == DirRemove(old(fs.V()), d, name).v && ok == DirRemove(old(fs.V()), d, name).ok
  {
    hide FileSystem.V, FileSystem.Valid, Own, WF, GetBlock, Blk, Lookup, EntryOf, RemoveMatches, EntryAt, PutEntry,
      SetBlk, Buried;
    var good, din: Inode := fs.ReadInode(d);
    if !good { return false; }
    ghost var v := fs.V();
    NothingAtZero(name);
    var entries := din.size / 72;
    var e := 0;
    while e < entries
      invariant 0 <= e <= entries == SlotCount(din) && fs.disk == old(fs.disk)
      invariant RemoveFrom(v, din, name, e) == RemoveFrom(v, din, name, 0)
    {
      SlotBlockIs(v, d, e);
      var _, phys := fs.GetDataBlock(din, e / 7, false);
      if phys >= 0 {
        var buf := fs.BlockRead(phys);
        var de := EntryAt(buf, e % 7);
        if RemoveMatches(de, name) {
          var found, target: Inode := fs.ReadInode(de.ino);
          if found && Protected(target.mode) { return false; }
          DotNames(de, name);
          if SameUpTo(de.name, DOT, 0, 64) || SameUpTo(de.name, DOTDOT, 0, 64) { return false; }
          buf := PutEntry(buf, e % 7, Buried(de));
          fs.BlockWrite(phys, buf);
          return true;
        }
      }
      e := e + 1;
    }
    return false;
  }
}
