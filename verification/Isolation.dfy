/**
 * Isolation: calls on one file leave slot, block map and bytes of every other file as they were, on every owned
 * volume.
 */
module Isolation {
  import opened Bytes
  import opened Volume
  import opened BlockMap
  import opened FileData
  import opened Inodes
  import opened Directory
  import opened Paths
  import opened Api
  import opened Owners
  import opened VolTree
  import opened Calls
  import opened EmptyWrite
  import opened Runs
  import opened Format
  import opened Conservation
  import T = Tree

  /** File f is the same in both volumes. */
  ghost predicate SameFile(v: Vol, w: Vol, f: int) {
    GetInode(w, f) == GetInode(v, f) && Undisturbed(v, w, GetInode(v, f))
  }

  /** Same slot, same block map, same bytes. */
  lemma SameFileBytes(v: Vol, w: Vol, f: int, o: nat, k: Key)
    requires SameFile(v, w, f)
    ensures FileByte(w, f, o) == FileByte(v, f, o) && P(w, GetInode(w, f), k) == P(v, GetInode(v, f), k)
  {
    UndisturbedBytes(v, w, GetInode(v, f), o);
  }

  lemma SameFileTrans(v: Vol, w: Vol, x: Vol, f: int)
    requires SameFile(v, w, f) && SameFile(w, x, f)
    ensures SameFile(v, x, f)
  {
    UndisturbedTrans(v, w, x, GetInode(v, f));
  }

  lemma SameFileRefl(v: Vol, f: int)
    ensures SameFile(v, v, f)
  {
  }

  lemma SameFileFields(v: Vol, w: Vol, f: int)
    requires v.base == w.base && v.data == w.data && GetInode(w, f) == GetInode(v, f)
    ensures SameFile(v, w, f)
  {
    FieldsUndisturbed(v, w, GetInode(v, f));
  }

  predicate IsFile(v: Vol, f: int)
    requires WF(v)
  {
    Allocated(v, f) && !IsDir(GetInode(v, f).mode)
  }

  /** What a call does for a file it has no business with: the file is the same, and still a file. */
  ghost predicate Spared(v: Vol, w: Vol, f: int)
    requires WF(v) && WF(w)
  {
    SameFile(v, w, f) && IsFile(w, f)
  }

  lemma SparedIs(v: Vol, w: Vol, f: int)
    requires WF(v) && WF(w) && IsFile(v, f) && SameFile(v, w, f) && |w.inodes| == |v.inodes|
    requires 1 <= f <= |v.inodes| ==> w.inoUsed[f - 1]
    ensures Spared(v, w, f)
  {
  }

  lemma SparedTrans(v: Vol, w: Vol, x: Vol, f: int)
    requires WF(v) && WF(w) && WF(x) && Spared(v, w, f) && Spared(w, x, f)
    ensures Spared(v, x, f)
  {
    SameFileTrans(v, w, x, f);
  }

  lemma SparedRefl(v: Vol, f: int)
    requires WF(v) && IsFile(v, f)
    ensures Spared(v, v, f)
  {
    SameFileRefl(v, f);
  }

  lemma SparedFile(v: Vol, w: Vol, f: int)
    requires WF(v) && WF(w) && Spared(v, w, f)
    ensures IsFile(w, f) && InoValid(w, f) && GetInode(w, f) == GetInode(v, f)
  {
  }

  // ---------------------------------------------------------------------
  // The edits of a directory

  /** A block stored over one of another inode. */
  lemma StoreSpares(v: Vol, d: int, l: nat, b: Block, f: int)
    requires Owned(v) && IsFile(v, f) && f != d
    ensures Spared(v, SetBlk(v, Lookup(v, GetInode(v, d), l), b), f)
  {
    hide Own, Undisturbed, Lookup;
    var w := SetBlk(v, Lookup(v, GetInode(v, d), l), b);
    StoreUndisturbed(v, d, l, b, f);
    SparedIs(v, w, f);
  }

  lemma AddSpares(v: Vol, d: int, name: Name, n: Word, typ: Byte, f: int)
    requires Owned(v) && IsFile(v, f)
    ensures Spared(v, DirAdd(v, d, name, n, typ).v, f)
  {
    hide Own, GetBlock, FindFrom, PutEntry, IsFile, Spared;
    var din := GetInode(v, d);
    SparedRefl(v, f);
    if InoValid(v, d) && IsDir(din.mode) && ValidName(name) && FindFrom(v, din, name, 0) == SlotCount(din) {
      NotThatDir(v, d, f);
      GrowSpares(v, d, SlotCount(din) / 7, f);
      if GetBlock(v, din, SlotCount(din) / 7, true).phys >= 0 { AppendSpares(v, d, NewEnt(name, n, typ), f); }
    }
  }

  lemma NotThatDir(v: Vol, d: int, f: int)
    requires WF(v) && IsFile(v, f) && IsDir(GetInode(v, d).mode)
    ensures d != f && InoValid(v, f)
  {
  }

  /** Getting a block for one inode, seen from another. */
  lemma GrowSpares(v: Vol, d: int, l: nat, f: int)
    requires Owned(v) && InoValid(v, d) && IsFile(v, f) && f != d
    ensures Spared(v, GetBlock(v, GetInode(v, d), l, true).v, f)
  {
    hide Own, P, GetBlock, Lookup, DataKept, Undisturbed;
    var t := v.inodes;
    var g := GetBlock(v, t[d - 1], l, true);
    GetBlockAlloc(v, t, d - 1, l);
    GrewShape(v, t, d - 1, g.v, g.ino);
    hide Grew;
    GetBlockUndisturbed(v, t, d - 1, l, f - 1);
    SparedIs(v, g.v, f);
  }

  lemma AppendSpares(v: Vol, d: int, ent: DirEnt, f: int)
    requires Owned(v) && InoValid(v, d) && IsFile(v, f) && f != d
    requires GetBlock(v, GetInode(v, d), SlotCount(GetInode(v, d)) / 7, true).phys >= 0
    ensures var din := GetInode(v, d); var e := SlotCount(din); var g := GetBlock(v, din, e / 7, true);
            var x := SetBlk(g.v, g.phys, PutEntry(Blk(g.v, g.phys), e % 7, ent));
            Spared(v, PutInode(x, d, g.ino.(size := (din.size + 72) % TWO32)), f)
  {
    hide Own, P, GetBlock, Lookup, SetBlk, PutEntry, Blk, Undisturbed;
    var din := GetInode(v, d);
    var t := v.inodes;
    var e := SlotCount(din);
    var g := GetBlock(v, din, e / 7, true);
    var b := PutEntry(Blk(g.v, g.phys), e % 7, ent);
    var x := SetBlk(g.v, g.phys, b);
    var u := t[d - 1 := g.ino];
    var w := PutInode(x, d, g.ino.(size := (din.size + 72) % TWO32));
    AppendPrep(v, d);
    SetBlkShape(g.v, g.phys, b);
    GetBlockUndisturbed(v, t, d - 1, e / 7, f - 1);
    DataWriteUndisturbed(g.v, u, d - 1, LeafOf(e / 7), b, f - 1);
    FieldsUndisturbed(x, w, t[f - 1]);
    UndisturbedTrans(v, g.v, x, t[f - 1]);
    UndisturbedTrans(v, x, w, t[f - 1]);
    SparedIs(v, w, f);
  }

  lemma RemoveSpares(v: Vol, d: int, name: Name, f: int)
    requires Owned(v) && IsFile(v, f) && f != d
    ensures Spared(v, DirRemove(v, d, name).v, f)
  {
    hide Own, RemoveFrom, PutEntry, EntryOf, Buried, Lookup, SetBlk, Spared, IsFile;
    SparedRefl(v, f);
    var din := GetInode(v, d);
    var e := RemoveFrom(v, din, name, 0);
    StoreSpares(v, d, e / 7, PutEntry(Blk(v, Lookup(v, din, e / 7)), e % 7, Buried(EntryOf(v, din, e))), f);
  }

  lemma SetSlotSpares(v: Vol, d: int, e: nat, ino: Word, f: int)
    requires Owned(v) && IsFile(v, f) && f != d
    ensures Spared(v, SetSlotIno(v, d, e, ino), f)
  {
    hide Own, PutEntry, EntryOf, Lookup, SetBlk, Spared, IsFile;
    var din := GetInode(v, d);
    StoreSpares(v, d, e / 7, PutEntry(Blk(v, Lookup(v, din, e / 7)), e % 7, EntryOf(v, din, e).(ino := ino)), f);
  }

  lemma FreeSpares(v: Vol, n: int, f: int)
    requires WF(v) && IsFile(v, f) && f != n
    ensures Spared(v, FreeInode(v, n), f)
  {
    hide ClearBits, FreedPtrs, FreedInode, Undisturbed;
    SameFileFields(v, FreeInode(v, n), f);
    SparedIs(v, FreeInode(v, n), f);
  }

  lemma TakeSpares(v: Vol, typ: Byte, f: int)
    requires WF(v) && IsFile(v, f) && AllocInode(v).phys > 0
    ensures var n := AllocInode(v).phys; n != f && Spared(v, PutInode(AllocInode(v).v, n, NEW_FILE.(mode := typ)), f)
  {
    hide Undisturbed;
    var w := PutInode(AllocInode(v).v, AllocInode(v).phys, NEW_FILE.(mode := typ));
    SameFileFields(v, w, f);
    SparedIs(v, w, f);
  }

  // ---------------------------------------------------------------------
  // The calls

  /** Create, of files and directories, disturbs no file. */
  lemma CreateIsolated(v: Vol, path: seq<Byte>, typ: Byte, f: int)
    requires Owned(v) && IsFile(v, f)
    ensures Spared(v, Create(v, path, typ).v, f)
  {
    hide Own, Bounded, ResolveParent, DirFind, AllocInode, DirAdd, FreeInode, ValidName, PutInode, Spared, IsFile, Kept;
    var p := ResolveParent(v, path);
    SparedRefl(v, f);
    if p.Target? && ValidName(p.name) && DirFind(v, p.parent, p.name).NotFound? && AllocInode(v).phys > 0 {
      var n := AllocInode(v).phys;
      var w := PutInode(AllocInode(v).v, n, NEW_FILE.(mode := typ));
      CreateSteps(v, path, typ);
      TakeSpares(v, typ, f);
      KeptOwned(v, w);
      SparedFile(v, w, f);
      var r := DirAdd(w, p.parent, p.name, n, typ);
      AddSpares(w, p.parent, p.name, n, typ, f);
      SparedTrans(v, w, r.v, f);
      SparedFile(v, r.v, f);
      FreeSpares(r.v, n, f);
      SparedTrans(v, r.v, FreeInode(r.v, n), f);
    } else {
      NoCreate(v, path, typ);
    }
  }

  /** The inode a path's last entry names, or 0. */
  function Victim(v: Vol, path: seq<Byte>): int {
    var p := ResolveParent(v, path);
    if p.Target? && DirFind(v, p.parent, p.name).Found? then DirFind(v, p.parent, p.name).ent.ino else 0
  }

  /** Delete disturbs no file but the one deleted. */
  lemma DeleteIsolated(v: Vol, path: seq<Byte>, f: int)
    requires Owned(v) && IsFile(v, f) && Victim(v, path) != f
    ensures Spared(v, Delete(v, path).v, f)
  {
    hide Own, Bounded, ResolveParent, DirRemove, FreeInode, GetInode, Spared, IsFile, FindFrom;
    var p := ResolveParent(v, path);
    SparedRefl(v, f);
    if p.Target? && DirFind(v, p.parent, p.name).Found? {
      var n := DirFind(v, p.parent, p.name).ent.ino;
      var r := DirRemove(v, p.parent, p.name);
      NotThatDir(v, p.parent, f);
      RemoveSpares(v, p.parent, p.name, f);
      SparedFile(v, r.v, f);
      FreeSpares(r.v, n, f);
      SparedTrans(v, r.v, FreeInode(r.v, n), f);
    }
  }

  lemma WriteIsolated(v: Vol, n: int, offset: nat, buf: seq<Byte>, f: int)
    requires Owned(v) && InoValid(v, n) && InoValid(v, f) && f != n && offset + |buf| < TWO32
    ensures SameFile(v, WriteFile(v, n, offset, buf).v, f) && SameFile(v, WriteEmpty(v, n, offset), f)
  {
    hide Own, WriteFile, WriteEmpty, Undisturbed;
    WriteFileIsolated(v, n, offset, buf, f);
    WriteEmptyKeeps(v, n, offset);
  }

  /** The plan moves an entry that calls file f a directory: then rename stores a parent into the file's first block. */
  predicate Mistaken(p: Plan, f: int) { p.MoveTo? && p.ent.typ == TYPE_DIR && p.ent.ino == f }

  /** A rename disturbs no file, as long as no entry calls the file a directory. */
  lemma RenameIsolated(v: Vol, oldpath: seq<Byte>, newpath: seq<Byte>, f: int)
    requires Owned(v) && IsFile(v, f) && !Mistaken(RenamePlan(v, oldpath, newpath), f)
    ensures Spared(v, Rename(v, oldpath, newpath).v, f)
  {
    hide Own, RenamePlan, MoveEntry, Spared, IsFile;
    SparedRefl(v, f);
    var p := RenamePlan(v, oldpath, newpath);
    if p.MoveTo? {
      PlanDir(v, oldpath, newpath);
      NotThatDir(v, p.oldParent, f);
      MoveSpares(v, p, f);
    }
  }

  lemma PlanDir(v: Vol, oldpath: seq<Byte>, newpath: seq<Byte>)
    requires RenamePlan(v, oldpath, newpath).MoveTo?
    ensures IsDir(GetInode(v, RenamePlan(v, oldpath, newpath).oldParent).mode)
  {
    hide RenamePlan, ResolveParent, Resolve, IsDescendant, ValidName, FindFrom, GetInode;
    PlanParts(v, oldpath, newpath);
  }

  lemma MoveSpares(v: Vol, p: Plan, f: int)
    requires Owned(v) && IsFile(v, f) && p.MoveTo? && f != p.oldParent && !Mistaken(p, f)
    ensures Spared(v, MoveEntry(v, p).v, f)
  {
    hide Own, Bounded, DirAdd, DirRemove, SetSlotIno, GetInode, Spared, IsFile, Kept;
    var a := DirAdd(v, p.newParent, p.newName, p.ent.ino, p.ent.typ);
    AddKept(v, p.newParent, p.newName, p.ent.ino, p.ent.typ);
    KeptOwned(v, a.v);
    AddSpares(v, p.newParent, p.newName, p.ent.ino, p.ent.typ, f);
    SparedFile(v, a.v, f);
    RemoveSpares(a.v, p.oldParent, p.oldName, f);
    SparedTrans(v, a.v, DirRemove(a.v, p.oldParent, p.oldName).v, f);
    if p.ent.typ == TYPE_DIR && 0 <= p.newParent < TWO32 {
      var w := SetSlotIno(a.v, p.ent.ino, 1, p.newParent);
      SetSlotKept(a.v, p.ent.ino, 1, p.newParent);
      KeptOwned(a.v, w);
      SetSlotSpares(a.v, p.ent.ino, 1, p.newParent, f);
      SparedTrans(v, a.v, w, f);
      SparedFile(v, w, f);
      RemoveSpares(w, p.oldParent, p.oldName, f);
      SparedTrans(v, w, DirRemove(w, p.oldParent, p.oldName).v, f);
    }
  }

  /** In a tree no entry does: there a rename disturbs no file at all. */
  lemma TreeNotMistaken(v: Vol, oldpath: seq<Byte>, newpath: seq<Byte>, f: int)
    requires WF(v) && FsInv(v) && NoNul(oldpath) && NoNul(newpath) && IsFile(v, f)
    ensures !Mistaken(RenamePlan(v, oldpath, newpath), f)
  {
    hide FsInv, RenamePlan, T.Entry, Plain, ValidName, DirFind, T.Find;
    if RenamePlan(v, oldpath, newpath).MoveTo? { PlanIs(v, oldpath, newpath); }
  }

  // ---------------------------------------------------------------------
  // Isolation over runs

  /** The call neither writes through a descriptor of file f, nor deletes f, nor renames f as a directory. */
  ghost predicate Spares(s: Fs, op: Op, f: int) {
    match op
    case WriteOp(fd, buf, offset) => FdValid(s, fd) ==> s.fds[fd].ino != f
    case DeleteOp(path) => Victim(s.v, path) != f
    case RenameOp(oldpath, newpath) => !Mistaken(RenamePlan(s.v, oldpath, newpath), f)
    case _ => true
  }

  lemma WriteSpares(s: Fs, fd: int, buf: seq<Byte>, offset: nat, f: int)
    requires Owned(s.v) && offset + |buf| < TWO32 && IsFile(s.v, f) && (FdValid(s, fd) ==> s.fds[fd].ino != f)
    ensures Spared(s.v, Write(s, fd, buf, offset).v, f)
  {
    hide Own, WriteFile, WriteEmpty, SameFile, Undisturbed;
    SameFileRefl(s.v, f);
    if FdValid(s, fd) && InoValid(s.v, s.fds[fd].ino) {
      var n := s.fds[fd].ino;
      WriteIsolated(s.v, n, offset, buf, f);
      WriteFlags(s.v, n, offset, buf);
    }
    SparedIs(s.v, Write(s, fd, buf, offset).v, f);
  }

  lemma WriteFlags(v: Vol, n: int, offset: nat, buf: seq<Byte>)
    requires Owned(v) && InoValid(v, n) && offset + |buf| < TWO32
    ensures WriteFile(v, n, offset, buf).v.inoUsed == v.inoUsed && WriteEmpty(v, n, offset).inoUsed == v.inoUsed
  {
    WriteFileOwned(v, n, offset, buf);
    WriteEmptyKeeps(v, n, offset);
    hide Own, WriteFile, WriteEmpty, Undisturbed;
  }

  lemma StepSpares(s: Fs, op: Op, f: int)
    requires Owned(s.v) && Sized(op) && Spares(s, op, f) && IsFile(s.v, f)
    ensures Spared(s.v, Step(s, op).v, f)
  {
    hide Own, IsFile, Spared, Create, Open, Delete, Rename, Write, Victim, Mistaken, RenamePlan;
    SparedRefl(s.v, f);
    match op
    case CreateOp(path, typ) => CreateIsolated(s.v, path, typ, f);
    case OpenOp(path) =>
    case WriteOp(fd, buf, offset) => WriteSpares(s, fd, buf, offset, f);
    case DeleteOp(path) => DeleteIsolated(s.v, path, f);
    case RenameOp(oldpath, newpath) => RenameIsolated(s.v, oldpath, newpath, f);
  }

  ghost predicate SparesAll(s: Fs, ops: seq<Op>, f: int)
    requires WF(s.v) && AllSized(ops)
    decreases |ops|
  {
    ops == [] || (Spares(s, ops[0], f) && SparesAll(Step(s, ops[0]), ops[1..], f))
  }

  /**
   * Over every run from every owned volume, a file that the calls spare keeps its inode, its block map and its bytes:
   * directories may be created, descriptors may be stale, and renames may go anywhere.
   */
  lemma {:induction false} RunIsolated(s: Fs, ops: seq<Op>, f: int, o: nat, k: Key)
    requires Owned(s.v) && AllSized(ops) && SparesAll(s, ops, f) && IsFile(s.v, f)
    ensures var r := Run(s, ops);
            && IsFile(r.v, f) && GetInode(r.v, f) == GetInode(s.v, f)
            && FileByte(r.v, f, o) == FileByte(s.v, f, o) && P(r.v, GetInode(r.v, f), k) == P(s.v, GetInode(s.v, f), k)
    decreases |ops|
  {
    hide Own, Step, IsFile, SameFile, Spares, P, FileByte, GetInode;
    if ops != [] {
      var r := Step(s, ops[0]);
      StepOwned(s, ops[0]);
      StepSpares(s, ops[0], f);
      SparedFile(s.v, r.v, f);
      SameFileBytes(s.v, r.v, f, o, k);
      RunIsolated(r, ops[1..], f, o, k);
    }
  }

  /** The same from any state that calls lead to after format. */
  lemma EveryRunIsolated(super: Block, base: nat, inodes: nat, data: seq<Block>, before: seq<Op>, ops: seq<Op>,
                         f: int, o: nat, k: Key)
    requires 0 < base && base + |data| < 0x8000_0000 && inodes < 0x8000_0000 && AllSized(before) && AllSized(ops)
    requires var s := Run(Fresh(super, base, inodes, data), before); IsFile(s.v, f) && SparesAll(s, ops, f)
    ensures var s := Run(Fresh(super, base, inodes, data), before); var r := Run(s, ops);
            && IsFile(r.v, f) && GetInode(r.v, f) == GetInode(s.v, f)
            && FileByte(r.v, f, o) == FileByte(s.v, f, o) && P(r.v, GetInode(r.v, f), k) == P(s.v, GetInode(s.v, f), k)
  {
    hide Own, Bounded, Fresh, Run, IsFile, SparesAll, P, FileByte, GetInode;
    FreshKept(super, base, inodes, data);
    RunOwned(Fresh(super, base, inodes, data), before);
    RunIsolated(Run(Fresh(super, base, inodes, data), before), ops, f, o, k);
  }
}
