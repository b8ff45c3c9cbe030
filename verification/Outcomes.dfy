/** When the calls succeed, and what they hand back to the caller. */
module Outcomes {
  import opened Bytes
  import opened Volume
  import opened BlockMap
  import opened FileData
  import opened Inodes
  import opened Directory
  import opened Paths
  import opened Api
  import opened VolTree
  import opened Calls
  import opened EmptyWrite
  import opened Runs
  import opened Dotless
  import opened DotDot
  import Lifecycle
  import T = Tree
  import TreePaths

  // ---------------------------------------------------------------------
  // Open

  /** The path leads to an inode that is not a directory. */
  predicate ToFile(v: Vol, path: seq<Byte>) {
    InoValid(v, Resolve(v, path)) && !IsDir(GetInode(v, Resolve(v, path)).mode)
  }

  /**
   * Open hands back the least descriptor that was not in use, which now refers to the inode the path leads to, and no
   * other descriptor changes; or -1 and no change, if and only if the path leads to no file or all are in use.
   */
  lemma OpenOutcome(s: Fs, path: seq<Byte>)
    ensures var (fds, r) := Open(s, path);
            && (r < 0 <==> !ToFile(s.v, path) || forall i :: 0 <= i < |s.fds| ==> s.fds[i].used)
            && (r < 0 ==> r == -1 && fds == s.fds)
            && (r >= 0 ==>
                  && r < |s.fds| == |fds| && !s.fds[r].used && fds[r] == Fd(true, Resolve(s.v, path))
                  && (forall i :: 0 <= i < |fds| && i != r ==> fds[i] == s.fds[i])
                  && (forall i :: 0 <= i < r ==> s.fds[i].used))
  {
    hide Resolve;
    var k := FreeFd(s.fds, 0);
    if k < |s.fds| { assert !s.fds[k].used; }
  }

  /** On a tree that is: the path walks to a node without directory mode. */
  lemma OpenOnTree(s: Fs, path: seq<Byte>)
    requires Sound(s.v) && NoNul(path)
    ensures var t := TreeOf(s.v); var n := TreePaths.Walk(t, 1, Tokens(path));
            ToFile(s.v, path) <==> n in t && !T.DirIn(t, n)
  {
    SoundRoot(s.v);
    TokensPlain(path);
    SoundWalk(s.v, 1, Tokens(path));
    hide Sound, Owned, DirsOK, Linked, TreePaths.Walk, ResolveFrom, Tokens;
  }

  // ---------------------------------------------------------------------
  // Write

  /** The descriptor is in use and its inode number is one of the table. */
  predicate FdGood(s: Fs, fd: int) { 0 <= fd < |s.fds| && s.fds[fd].used && 1 <= s.fds[fd].ino <= |s.v.inodes| }

  /**
   * A write hands back how many bytes of the buffer are in the file, and -1 if and only if the descriptor is bad. Those
   * bytes, from the front of the buffer, are at the offset afterwards, every other byte is as it was, and the size has
   * grown to their end; they are fewer than the buffer only where the block map ends or no block is free.
   */
  lemma WriteOutcome(s: Fs, fd: int, buf: seq<Byte>, offset: nat, o: nat)
    requires Owned(s.v) && offset + |buf| < TWO32
    ensures var r := Write(s, fd, buf, offset); var w := r.ret;
            && (w == -1 <==> !FdGood(s, fd)) && (w == -1 ==> r.v == s.v)
            && (w != -1 ==> 0 <= w <= |buf|)
            && (w != -1 && buf != [] ==>
                  var n := s.fds[fd].ino;
                  && FileByte(r.v, n, o) == AfterWrite(FileByte(s.v, n, o), o, offset, buf[..w])
                  && GetInode(r.v, n).size == Max(GetInode(s.v, n).size, offset + w)
                  && (w < |buf|
                      ==> ((offset + w) / 512 >= MAP_LIMIT || Full(r.v)) && FileByte(r.v, n, offset + w) == Hole))
  {
    hide WriteFile, WriteEmpty, FileByte, AfterWrite, WF, Own, Full;
    if FdGood(s, fd) && buf != [] {
      var n := s.fds[fd].ino;
      WriteFileBytes(s.v, n, offset, buf, o);
      if WriteFile(s.v, n, offset, buf).n < |buf| { WriteFileStops(s.v, n, offset, buf); }
    }
  }

  lemma WriteFileStops(v: Vol, n: int, offset: nat, buf: seq<Byte>)
    requires Owned(v) && InoValid(v, n) && offset + |buf| < TWO32 && WriteFile(v, n, offset, buf).n < |buf|
    ensures var r := WriteFile(v, n, offset, buf);
            ((offset + r.n) / 512 >= MAP_LIMIT || Full(r.v)) && FileByte(r.v, n, offset + r.n) == Hole
  {
    hide WriteFrom, WriteFile, ByteAt, Own, FirstFree;
    var r := WriteFrom(v, v.inodes[n - 1], offset, buf);
    var w := WriteFile(v, n, offset, buf);
    WriteFileIs(v, n, offset, buf);
    WriteStops(v, v.inodes, n - 1, offset, buf);
    ByteFields(r.v, w.v, r.ino, w.v.inodes[n - 1], offset + r.n);
  }

  /**
   * A write of zero bytes hands back 0; no byte of the file changes, the size comes to the offset at least, and holes
   * are filled with zeros from the offset up to some block: the last one of the (possibly wrapped) range, or the first
   * one there was no block for.
   */
  lemma EmptyWriteOutcome(s: Fs, fd: int, offset: nat) returns (stop: nat)
    requires Owned(s.v) && FdGood(s, fd) && offset < TWO32
    ensures var r := Write(s, fd, [], offset); var n := s.fds[fd].ino;
            var last := if offset == 0 then (TWO32 - 1) / 512 else (offset - 1) / 512;
            && r.ret == 0 && GetInode(r.v, n).size == Max(GetInode(s.v, n).size, offset)
            && offset / 512 <= stop <= Max(offset / 512, last + 1)
            && (stop <= last ==> (stop >= MAP_LIMIT || Full(r.v)) && FileByte(r.v, n, 512 * stop) == Hole)
            && (forall o: nat :: FileByte(r.v, n, o)
                                 == if FileByte(s.v, n, o).Hole? && offset / 512 <= o / 512 < stop then Val(0)
                                    else FileByte(s.v, n, o))
  {
    hide WriteEmpty, ByteAt, WF, Own, Full;
    var n := s.fds[fd].ino;
    stop := WriteEmptyBytes(s.v, n, offset);
    var w := WriteEmpty(s.v, n, offset);
    assert FileByte(w, n, 512 * stop) == Hole <==> Lookup(w, GetInode(w, n), stop) == 0 by {
      HoleAt(w, GetInode(w, n), stop);
    }
  }

  lemma HoleAt(v: Vol, ino: Inode, l: nat)
    ensures ByteAt(v, ino, 512 * l) == Hole <==> Lookup(v, ino, l) == 0
  {
    assert 512 * l / 512 == l;
  }

  /**
   * What a write stored a read through any descriptor for the same inode gives back, whatever the size of its buffer.
   */
  lemma WriteThenRead(s: Fs, fd: int, buf: seq<Byte>, offset: nat, size: nat)
    requires Owned(s.v) && FdGood(s, fd) && offset + |buf| < TWO32 && buf != []
    ensures var r := Write(s, fd, buf, offset); var got := ReadFile(r.v, s.fds[fd].ino, offset, size);
            0 <= r.ret && |got| >= Min(size, r.ret) && got[..Min(size, r.ret)] == buf[..Min(size, r.ret)]
  {
    hide WriteFile, ReadFile, FileByte, AfterWrite, WF, Own;
    ReadAfterWrite(s.v, s.fds[fd].ino, offset, buf, size);
    var w := WriteFile(s.v, s.fds[fd].ino, offset, buf);
    assert buf[..w.n][..Min(size, w.n)] == buf[..Min(size, w.n)];
  }

  // ---------------------------------------------------------------------
  // Adding an entry

  /** There are free blocks enough for the place behind the last slot of directory d. */
  predicate SlotRoom(v: Vol, d: int) {
    var l := SlotCount(GetInode(v, d)) / 7;
    l < MAP_LIMIT && Missing(v, GetInode(v, d), PathOf(l)) <= FreeCount(v.used)
  }

  lemma AddIff(v: Vol, d: int, name: Name, ino: Word, typ: Byte)
    requires Owned(v) && DirsOK(v) && Allocated(v, d)
    ensures DirAdd(v, d, name, ino, typ).ok
            <==> && T.DirIn(TreeOf(v), d) && ValidName(name)
                 && T.Find(TreeOf(v)[d].log, name) == |TreeOf(v)[d].log| && SlotRoom(v, d)
  {
    hide Own, DirOK, GetBlock, FindFrom, LogFind, Missing, FreeCount, PathOf, Log, Blk, PutEntry;
    var din := GetInode(v, d);
    assert TreeOf(v)[d] == NodeOf(v, d);
    if IsDir(din.mode) && ValidName(name) {
      AllocatedDirOK(v, d);
      ValidNameNoNul(name);
      ScansFind(v, din, name, 0);
      GetBlockIff(v, v.inodes, d - 1, SlotCount(din) / 7);
    }
  }

  // ---------------------------------------------------------------------
  // Create

  /** The inode numbers not in use. */
  predicate FreeIno(v: Vol, n: int) { 1 <= n <= |v.inodes| && n <= |v.inoUsed| && !v.inoUsed[n - 1] }

  /**
   * Create succeeds if and only if the path has a parent directory, the name is valid and not taken there, an inode is
   * free, and there are blocks for one more slot. It hands back the least free inode, which is then a file of size 0
   * with one link, the type given as its mode, and no blocks; a failure hands back -1.
   */
  lemma CreateOutcome(v: Vol, path: seq<Byte>, typ: Byte)
    requires Sound(v) && NoNul(path)
    ensures var r := Create(v, path, typ); var p := ResolveParent(v, path); var t := TreeOf(v);
            && (r.ret > 0 <==>
                  && p.Target? && T.DirIn(t, p.parent) && ValidName(p.name)
                  && T.Find(t[p.parent].log, p.name) == |t[p.parent].log|
                  && (exists n :: FreeIno(v, n)) && SlotRoom(v, p.parent))
            && (r.ret <= 0 ==> r.ret == -1)
            && (r.ret > 0 ==>
                  && FreeIno(v, r.ret) && (forall n :: 1 <= n < r.ret ==> !FreeIno(v, n))
                  && GetInode(r.v, r.ret) == Inode(typ, 0, 1, [0, 0, 0, 0, 0, 0], 0, 0, Zeros(32)))
  {
    hide Sound, Owned, DirsOK, ResolveParent, TreeOf, T.Find, T.DirIn, AllocInode, Create, ValidName, Allocated,
      SlotRoom, DirFind, FreeIno;
    SoundRoot(v);
    var p := ResolveParent(v, path);
    FreeInoIs(v);
    if p.Target? { SoundParent(v, path); }
    if p.Target? && ValidName(p.name) && DirFind(v, p.parent, p.name).NotFound? && AllocInode(v).phys > 0 {
      CreateFits(v, path, typ);
      CreateIs(v, path, typ);
      if Create(v, path, typ).ret > 0 { CreatedInode(v, path, typ); }
    } else {
      NoCreate(v, path, typ);
      if p.Target? && T.DirIn(TreeOf(v), p.parent) && ValidName(p.name) { NameFreeIff(v, p.parent, p.name); }
    }
  }

  lemma FreeInoIs(v: Vol)
    requires WF(v)
    ensures var k := AllocInode(v).phys;
            && (k > 0 <==> exists n :: FreeIno(v, n)) && (k <= 0 ==> k == -1)
            && (k > 0 ==> FreeIno(v, k) && forall n :: 1 <= n < k ==> !FreeIno(v, n))
  {
    var i := FirstFree(v.inoUsed, 0);
    if i < |v.inoUsed| { assert FreeIno(v, i + 1); }
  }

  lemma NameFreeIff(v: Vol, d: int, name: Name)
    requires Owned(v) && DirsOK(v) && Allocated(v, d) && T.DirIn(TreeOf(v), d) && ValidName(name)
    ensures DirFind(v, d, name).NotFound? <==> T.Find(TreeOf(v)[d].log, name) == |TreeOf(v)[d].log|
  {
    ValidNameNoNul(name);
    DirFindIn(v, d, name);
    hide Own, DirsOK, TreeOf, DirFind, T.Find;
  }

  /** With the checks passed, the add decides. */
  lemma CreateFits(v: Vol, path: seq<Byte>, typ: Byte)
    requires Sound(v) && NoNul(path) && AllocInode(v).phys > 0
    requires var p := ResolveParent(v, path); p.Target? && ValidName(p.name) && DirFind(v, p.parent, p.name).NotFound?
    ensures var n := AllocInode(v).phys; var p := ResolveParent(v, path); var t := TreeOf(v);
            DirAdd(PutInode(AllocInode(v).v, n, NEW_FILE.(mode := typ)), p.parent, p.name, n, typ).ok
            <==> T.DirIn(t, p.parent) && T.Find(t[p.parent].log, p.name) == |t[p.parent].log| && SlotRoom(v, p.parent)
  {
    hide Sound, Own, DirsOK, ResolveParent, TreeOf, T.Find, T.DirIn, AllocInode, ValidName, Allocated, SlotRoom,
      DirFind, DirAdd, OffX, Bounded;
    SoundRoot(v);
    SoundParent(v, path);
    var p := ResolveParent(v, path);
    var n := AllocInode(v).phys;
    var w := PutInode(AllocInode(v).v, n, NEW_FILE.(mode := typ));
    TakenNumber(v);
    TakeTree(v, typ);
    OldNode(v, w, n, p.parent);
    AddIff(w, p.parent, p.name, n, typ);
    SameSlotRoom(v, typ, p.parent);
    TakenSame(v, w, n, p.parent, typ);
  }

  lemma TakenSame(v: Vol, w: Vol, n: int, d: int, typ: Byte)
    requires WF(v) && WF(w) && d != n && TreeOf(w) == TreeOf(v)[n := T.Node(typ, [])]
    ensures T.DirIn(TreeOf(w), d) <==> T.DirIn(TreeOf(v), d)
    ensures T.DirIn(TreeOf(v), d) ==> TreeOf(w)[d] == TreeOf(v)[d]
  {
    hide TreeOf;
  }

  /** Taking an inode takes no block. */
  lemma SameSlotRoom(v: Vol, typ: Byte, d: int)
    requires WF(v) && AllocInode(v).phys > 0 && d != AllocInode(v).phys
    ensures SlotRoom(PutInode(AllocInode(v).v, AllocInode(v).phys, NEW_FILE.(mode := typ)), d) <==> SlotRoom(v, d)
  {
    var w := PutInode(AllocInode(v).v, AllocInode(v).phys, NEW_FILE.(mode := typ));
    assert GetInode(w, d) == GetInode(v, d) && w.used == v.used && w.data == v.data && w.base == v.base;
    hide AllocInode, P, PathOf, Missing, FreeCount, PutInode;
    var l := SlotCount(GetInode(v, d)) / 7;
    forall k ensures P(w, GetInode(w, d), k) == P(v, GetInode(v, d), k) {
      PtrFields(v, w, GetInode(v, d), GetInode(w, d), k);
    }
    MissingSame(v, GetInode(v, d), w, GetInode(w, d), PathOf(l));
  }

  lemma CreatedInode(v: Vol, path: seq<Byte>, typ: Byte)
    requires Sound(v) && NoNul(path) && Create(v, path, typ).ret > 0
    ensures var r := Create(v, path, typ); GetInode(r.v, r.ret) == Inode(typ, 0, 1, [0, 0, 0, 0, 0, 0], 0, 0, Zeros(32))
  {
    hide Sound, Own, DirsOK, ResolveParent, Create, Allocated, Bounded;
    SoundRoot(v);
    Lifecycle.CreateMade(v, path, typ);
    SoundParent(v, path);
    OldAllocated(v, ResolveParent(v, path).parent, Create(v, path, typ).ret);
  }

  lemma OldAllocated(v: Vol, d: int, n: int)
    requires WF(v) && Allocated(v, d) && InoValid(v, n) && !v.inoUsed[n - 1]
    ensures d != n
  {
  }

  // ---------------------------------------------------------------------
  // Rename

  /** The old path of a rename: an entry of the tree, or the root, or nothing. */
  lemma OldIs(v: Vol, path: seq<Byte>)
    requires WF(v) && FsInv(v) && NoNul(path)
    ensures var p := ResolveParent(v, path); var o := Resolve(v, path); var t := TreeOf(v);
            && (o >= 0 && o != 1 <==> p.Target? && DirFind(v, p.parent, p.name).Found?)
            && (o >= 0 ==> InoValid(v, o) && o in t && GetInode(v, o).mode == t[o].mode)
            && (o >= 0 && o != 1 ==>
                  var e := DirFind(v, p.parent, p.name).ent;
                  e.ino == o && (e.typ == TYPE_DIR <==> T.DirIn(t, o)) && ValidName(p.name))
            && (p.Target? ==> Allocated(v, p.parent))
  {
    hide FsInv, ResolveFrom, Tokens, T.TreeInv, T.Entry, DirFind, Plain, ValidName, Allocated, Own, DirsOK;
    var p := ResolveParent(v, path);
    FsInvIs(v);
    if p.Target? {
      ResolveComposes(v, path);
      ParentIs(v, path);
      if DirFind(v, p.parent, p.name).Found? {
        FoundEntry(v, p.parent, p.name);
        NameValid(TreeOf(v), p.parent, DirFind(v, p.parent, p.name).slot);
      }
    }
    if Resolve(v, path) >= 0 {
      EndOfPath(v, path);
      ResolvedMode(v, Resolve(v, path));
      if !p.Target? && Resolve(v, path) != 1 { TargetUnless(v, path); }
    }
  }

  lemma NameValid(t: T.Tree, d: int, e: int)
    requires T.TreeInv(t) && exists n :: T.Entry(t, d, e, n)
    ensures ValidName(t[d].log[e].name)
  {
    var n :| T.Entry(t, d, e, n);
    assert T.GoodEntry(t, d, e, n);
  }

  lemma ResolvedMode(v: Vol, n: int)
    requires WF(v) && n in TreeOf(v)
    ensures InoValid(v, n) && GetInode(v, n).mode == TreeOf(v)[n].mode
  {
  }

  lemma TargetUnless(v: Vol, path: seq<Byte>)
    requires WF(v) && FsInv(v) && NoNul(path) && Resolve(v, path) >= 0 && Resolve(v, path) != 1
    ensures ResolveParent(v, path).Target?
  {
    EndOfPath(v, path);
    hide FsInv, Tokens, TreePaths.Walk;
  }

  /** Where a rename puts things: in the directory the new path leads to, under the old name, or where the path says. */
  function NewPlace(v: Vol, oldpath: seq<Byte>, newpath: seq<Byte>): Target {
    if Resolve(v, newpath) < 0 then ResolveParent(v, newpath)
    else if ResolveParent(v, oldpath).NoTarget? then NoTarget
    else Target(Resolve(v, newpath), ResolveParent(v, oldpath).name)
  }

  /** The reasons to refuse a rename that can be told before looking whether the new name is taken. */
  ghost predicate Barred(v: Vol, o: int, n: int, q: Target)
    requires WF(v)
  {
    var t := TreeOf(v);
    || o !in t || Protected(t[o].mode)
    || q.NoTarget? || !ValidName(q.name) || !T.DirIn(t, q.parent)
    || (n >= 0 && T.DirIn(t, o) && T.Inside(t, o, n))
  }

  /** The two paths of a rename, as the lookups of the code see them. */
  lemma PlanCases(v: Vol, oldpath: seq<Byte>, newpath: seq<Byte>)
    requires WF(v) && FsInv(v) && NoNul(oldpath) && NoNul(newpath) && oldpath != [SLASH]
    requires Resolve(v, oldpath) > 1 && Resolve(v, newpath) != Resolve(v, oldpath)
    ensures var o, n, q := Resolve(v, oldpath), Resolve(v, newpath), NewPlace(v, oldpath, newpath);
            var p := RenamePlan(v, oldpath, newpath); var t := TreeOf(v);
            && (q.Target? ==> Allocated(v, q.parent))
            && (!Barred(v, o, n, q) ==>
                  var there := TreePaths.Step(t, q.parent, q.name);
                  if there == o then p == Same
                  else if there >= 0 then p == Refuse
                  else p.MoveTo? && p.ent.ino == o && p.newParent == q.parent && p.newName == q.name)
            && (Barred(v, o, n, q) ==> p == Refuse || (p.MoveTo? && !T.DirIn(t, p.newParent)))
  {
    hide FsInv, ResolveFrom, Tokens, T.TreeInv, T.Entry, DirFind, Plain, ValidName, Own, DirsOK, TreePaths.Step,
      T.Inside, IsDescendant, TreeOf, Protected, Resolve, ResolveParent, T.Find;
    FsInvIs(v);
    var o, n, q := Resolve(v, oldpath), Resolve(v, newpath), NewPlace(v, oldpath, newpath);
    OldIs(v, oldpath);
    OldIs(v, newpath);
    if q.Target? {
      PlaceKnown(v, oldpath, newpath);
      if ValidName(q.name) {
        ValidNameNoNul(q.name);
        DirFindIsStep(v, q.parent, q.name);
      }
    }
    if n >= 0 && T.DirIn(TreeOf(v), n) { DescendantDecides(v, o, n); }
    if n >= 0 && !T.DirIn(TreeOf(v), n) && ResolveParent(v, newpath).Target? { ResolveComposes(v, newpath); }
  }

  lemma PlaceKnown(v: Vol, oldpath: seq<Byte>, newpath: seq<Byte>)
    requires WF(v) && FsInv(v) && NoNul(oldpath) && NoNul(newpath) && NewPlace(v, oldpath, newpath).Target?
    ensures Allocated(v, NewPlace(v, oldpath, newpath).parent)
  {
    if Resolve(v, newpath) >= 0 { ResolvedAllocated(v, newpath); } else { ParentIs(v, newpath); }
  }

  /**
   * Rename succeeds without a change where both paths lead to one inode, or the name to move to already names it. It
   * moves the entry if and only if the inode is neither the root nor protected, the new place is a directory not inside
   * it (where the new path exists), the new name is valid and free, and there are blocks for one more slot there.
   */
  lemma RenameOutcome(v: Vol, oldpath: seq<Byte>, newpath: seq<Byte>)
    requires WF(v) && FsInv(v) && NoNul(oldpath) && NoNul(newpath)
    ensures var r := Rename(v, oldpath, newpath); var p := RenamePlan(v, oldpath, newpath); var t := TreeOf(v);
            var o, n, q := Resolve(v, oldpath), Resolve(v, newpath), NewPlace(v, oldpath, newpath);
            if oldpath == [SLASH] || o < 0 || (o == 1 && n != 1) then r == Edited(v, false)
            else if o == n then r == Edited(v, true)
            else if Barred(v, o, n, q) then !r.ok
            else
              var there := TreePaths.Step(t, q.parent, q.name);
              if there >= 0 then r == Edited(v, there == o)
              else (r.ok <==> SlotRoom(v, q.parent))
                   && p.MoveTo? && p.ent.ino == o && p.newParent == q.parent && p.newName == q.name
  {
    hide FsInv, ResolveFrom, Tokens, T.TreeInv, T.Entry, DirFind, Plain, ValidName, Own, DirsOK, TreePaths.Step,
      T.Inside, IsDescendant, TreeOf, Protected, Resolve, ResolveParent, T.Find, Barred, MoveEntry, NewPlace, SlotRoom,
      DirAdd, GetInode, RenamePlan;
    var o, n, q := Resolve(v, oldpath), Resolve(v, newpath), NewPlace(v, oldpath, newpath);
    var p := RenamePlan(v, oldpath, newpath);
    FsInvIs(v);
    ResolvePositive(v, oldpath);
    if oldpath != [SLASH] && o > 1 && o != n {
      PlanCases(v, oldpath, newpath);
      if p.MoveTo? {
        PlanOKIs(v, oldpath, newpath);
        MoveEffect(v, p);
        AddDecides(v, p);
        if !Barred(v, o, n, q) { NotBarred(v, o, n, q); }
      }
    } else {
      PlanTrivial(v, oldpath, newpath);
    }
  }

  lemma NotBarred(v: Vol, o: int, n: int, q: Target)
    requires WF(v) && !Barred(v, o, n, q)
    ensures q.Target? && T.DirIn(TreeOf(v), q.parent)
  {
    hide T.Inside, TreeOf;
  }

  lemma ResolvePositive(v: Vol, path: seq<Byte>)
    requires WF(v) && FsInv(v) && NoNul(path)
    ensures Resolve(v, path) != 0
  {
    FsInvIs(v);
    OldIs(v, path);
    assert 0 !in TreeOf(v);
    hide Resolve, TreeOf;
  }

  lemma PlanTrivial(v: Vol, oldpath: seq<Byte>, newpath: seq<Byte>)
    requires WF(v) && FsInv(v) && NoNul(oldpath)
    requires var o, n := Resolve(v, oldpath), Resolve(v, newpath); oldpath == [SLASH] || o < 0 || o == 1 || o == n
    ensures RenamePlan(v, oldpath, newpath)
            == if oldpath != [SLASH] && Resolve(v, oldpath) == Resolve(v, newpath) >= 0 then Same else Refuse
  {
    OldIs(v, oldpath);
    hide FsInv, DirFind, Resolve, ResolveParent, IsDescendant, ValidName;
  }

  lemma AddDecides(v: Vol, p: Plan)
    requires PlanOK(v, p)
    ensures WF(v)
    ensures DirAdd(v, p.newParent, p.newName, p.ent.ino, p.ent.typ).ok
            <==> T.DirIn(TreeOf(v), p.newParent) && SlotRoom(v, p.newParent)
  {
    PlanFacts(v, p);
    AddIff(v, p.newParent, p.newName, p.ent.ino, p.ent.typ);
    hide FsInv, DirAdd, SlotRoom, TreeOf, T.Find, T.Entry, Plain;
  }
}
