/**
 * Blocks that no delete gives back: when a delete leaves a block of the file marked in use with no inode to own it, and
 * two runs from format that do so, by a write of zero bytes and by the double-indirect tier.
 */
module Leaks {
  import opened Bytes
  import opened Volume
  import opened BlockMap
  import opened FileData
  import opened Inodes
  import opened Directory
  import opened Paths
  import opened Api
  import opened EmptyWrite
  import opened Owners
  import opened VolTree
  import opened Calls
  import opened Runs
  import opened Format
  import opened Dotless
  import opened Isolation
  import opened Lifecycle
  import opened Conservation
  import Orphans
  import T = Tree

  /** The block is marked in use, and no allocated inode points to it. */
  ghost predicate Leaked(v: Vol, p: int)
    requires WF(v)
  {
    Used(v, p) && forall m, k :: Allocated(v, m) ==> P(v, GetInode(v, m), k) != p
  }

  /** A path that leads to a file which can be deleted. */
  ghost predicate Deletable(v: Vol, path: seq<Byte>, n: int)
    requires WF(v)
  {
    && Sound(v) && NoNul(path) && Resolve(v, path) == n && IsFile(v, n) && !Protected(GetInode(v, n).mode)
    && FileEntries(TreeOf(v), n)
  }

  /** Deleting a file leaks the block at a key if and only if free_inode does not look at that key. */
  lemma DeleteLeaksIff(v: Vol, path: seq<Byte>, n: int, k: Key)
    requires WF(v) && Deletable(v, path, n) && P(v, GetInode(v, n), k) != 0
    ensures var w := Delete(v, path).v;
            && InoValid(v, n) && w.inoUsed == v.inoUsed[n - 1 := false]
            && (Leaked(w, P(v, GetInode(v, n), k)) <==> !FreedKey(GetInode(v, n), k))
  {
    hide Sound, Resolve, NoNul, FileEntries, TreeOf, Delete, DirRemove, FreeInode, P, Own, Bounded;
    SoundRoot(v);
    FileDeleted(v, path, n);
    var d := ResolveParent(v, path);
    var x := DirRemove(v, d.parent, d.name).v;
    RemoveKept(v, d.parent, d.name);
    FreedFlags(x, n);
    FreedLeaks(v, x, n, k);
  }

  lemma FreedLeaks(v: Vol, x: Vol, n: int, k: Key)
    requires Owned(v) && Owned(x) && InoValid(v, n) && x.inodes == v.inodes && x.used == v.used && x.base == v.base
    requires forall m, j :: P(x, GetInode(v, m), j) == P(v, GetInode(v, m), j)
    requires P(v, GetInode(v, n), k) != 0
    ensures Leaked(FreeInode(x, n), P(v, GetInode(v, n), k)) <==> !FreedKey(GetInode(v, n), k)
  {
    hide P, FreedKey;
    var ino := v.inodes[n - 1];
    var p := P(v, ino, k);
    var w := FreeInode(x, n);
    assert P(x, GetInode(v, n), k) == p;
    FreeUsed(x, n, p);
    forall j | P(x, ino, j) == p ensures j == k { assert P(x, GetInode(v, n), j) == p; }
    forall m, j | Allocated(w, m) ensures P(w, GetInode(w, m), j) != p {
      FreePtr(x, n, m - 1, j);
      assert P(x, GetInode(v, m), j) == P(v, GetInode(v, m), j);
    }
    hide FreeInode;
  }

  // ---------------------------------------------------------------------
  // The two writes

  /** A direct pointer beyond the size is one that free_inode does not look at. */
  lemma BeyondSize(ino: Inode) returns (k: Key)
    requires !DirectBound(ino)
    ensures k.Direct? && k.i < 6 && ino.direct[k.i] != 0 && !FreedKey(ino, k)
  {
    var i :| 0 <= i < 6 && ino.direct[i] != 0 && !(i < CeilDiv(ino.size, 512));
    k := Direct(i);
  }

  /** What a zero-byte write hangs at a missing key was free. */
  lemma EmptyTakes(v: Vol, n: int, k: Key)
    requires Owned(v) && InoValid(v, n) && P(v, GetInode(v, n), k) == 0
    ensures var w := WriteEmpty(v, n, 0); P(w, GetInode(w, n), k) != 0 ==> !Used(v, P(w, GetInode(w, n), k))
  {
    hide Own, Touch, P, OthersKept;
    var t := v.inodes;
    var r := Touch(v, t[n - 1], 0, LastBlock(0));
    var w := WriteEmpty(v, n, 0);
    TouchKeeps(v, t, n - 1, 0, LastBlock(0));
    GrewShape(v, t, n - 1, r.v, r.ino);
    PtrFields(r.v, w, r.ino, w.inodes[n - 1], k);
  }

  /** One byte written where the double-indirect tier begins leaves a double-indirect block, if a block is free. */
  lemma DblMade(v: Vol, t: seq<Inode>, n: nat, b: Byte)
    requires WF(v) && Own(v, t) && n < |t| && !Full(v)
    ensures WriteFrom(v, t[n], NEAR, [b]).ino.dbl != 0
  {
    hide Own, GetBlock, Grew, OthersKept, DataKept, FirstChunk, WriteFrom, Full, AfterWrite;
    var f := FirstChunk(v, t[n], NEAR, [b]);
    WriteUnfold(v, t[n], NEAR, [b]);
    FirstChunkEffect(v, t, n, NEAR, [b]);
    ChunkMakes(v, t, n, b);
    if f.n > 0 {
      WriteNothing(f.v, f.ino, NEAR + f.n, Hole, 0);
      assert [b][f.n..] == [];
    }
  }

  lemma ChunkMakes(v: Vol, t: seq<Inode>, n: nat, b: Byte)
    requires WF(v) && Own(v, t) && n < |t| && !Full(v)
    ensures FirstChunk(v, t[n], NEAR, [b]).ino.dbl != 0
  {
    hide Own, GetBlock, Full;
    assert NEAR / 512 == 134;
    BlockMakes(v, t, n);
  }

  lemma BlockMakes(v: Vol, t: seq<Inode>, n: nat)
    requires WF(v) && Own(v, t) && n < |t| && !Full(v)
    ensures GetBlock(v, t[n], 134, true).ino.dbl != 0
  {
    var ks := PathOf(134);
    assert ks == [Dbl, DblSlot(0), Leaf(0, 0)] && ks[1..] == [DblSlot(0), Leaf(0, 0)];
    assert P(v, t[n], Dbl) == t[n].dbl;
    if t[n].dbl != 0 {
      GetBlockAlloc(v, t, n, 134);
      assert P(GetBlock(v, t[n], 134, true).v, GetBlock(v, t[n], 134, true).ino, Dbl) != 0;
    } else {
      GrowTakes(v, t[n], Dbl);
      GrowGrew(v, t, n, Dbl);
      GrowOwn(v, t, n, Dbl);
      var h := Grow(v, t[n], Dbl);
      var u := t[n := h.ino];
      OwnedIsUsed(h.v, u, n, Dbl);
      ReadyNext(h.v, h.ino, ks);
      WalkAlloc(h.v, u, n, ks[1..]);
      var g := Walk(h.v, h.ino, ks[1..], true);
      assert P(g.v, g.ino, Dbl) == P(h.v, u[n], Dbl) != 0;
      WalkLevel(v, t[n], ks, true);
    }
  }

  // ---------------------------------------------------------------------
  // From format

  const FILE: Byte := 2

  /** The new file in the root of a formatted volume, with one data block still free. */
  lemma NewFile(v: Vol)
    requires WF(v) && FsInv(v) && TreeOf(v) == FormatTree() && OnlyFirst(v.inoUsed, 3) && OnlyFirst(v.used, 2)
    requires |v.inodes| >= 4 && |v.used| >= 3
    ensures var c := Create(v, Orphans.PATH_D, FILE); var w := c.v;
            && c.ret == 4 && Deletable(w, Orphans.PATH_D, 4) && Took(w, w, 4) && w.used == v.used
            && InoValid(v, 4) && w.inoUsed == v.inoUsed[3 := true] && !v.inoUsed[3] && !Full(w)
            && GetInode(w, 4) == NEW_FILE.(mode := FILE)
  {
    FsInvIs(v);
    TreeLinked(TreeOf(v));
    SoundIs(v);
    Orphans.Trees();
    Orphans.NamesPlain();
    Orphans.SpareBlock(v);
    Orphans.Parents(v);
    hide Sound, TreeOf, Create, ResolveParent, OnlyFirst, T.Create, FormatTree, T.Find, FsInv, Full, Linked, T.TreeInv,
      ValidName, Plain,
      NoNul, Tokens, DirsOK, Own, Took, FileEntries, Resolve, IsFile;
    Orphans.CreateGoes(v, Orphans.PATH_D, FILE, 1, Orphans.D, 3);
    CreateReady(v, Orphans.PATH_D, FILE);
    CreateMade(v, Orphans.PATH_D, FILE);
    Orphans.SameFull(v, Create(v, Orphans.PATH_D, FILE).v);
    NewMode(Create(v, Orphans.PATH_D, FILE).v, 4, FILE);
  }

  /** Create and open "/d", then one call. */
  function Start(op: Op): seq<Op> { OpenOps(Orphans.PATH_D, FILE) + [op] }

  /** The state in which that call is made. */
  function AtCall(s: Fs, w: Vol): Fs
    requires |s.fds| > 0
  {
    Fs(w, s.fds[0 := Fd(true, 4)])
  }

  lemma StartRun(s: Fs, op: Op, w: Vol)
    requires WF(s.v) && WF(w) && Sized(op) && |s.fds| > 0 && !s.fds[0].used
    requires Create(s.v, Orphans.PATH_D, FILE) == Called(w, 4) && Deletable(w, Orphans.PATH_D, 4)
    ensures AllSized(Start(op)) && Run(s, Start(op)) == Step(AtCall(s, w), op)
    ensures AllSized(Start(op) + [DeleteOp(Orphans.PATH_D)])
    ensures Run(s, Start(op) + [DeleteOp(Orphans.PATH_D)]).v == Delete(Step(AtCall(s, w), op).v, Orphans.PATH_D).v
  {
    hide Create, WF, Step, Sound, Resolve, FileEntries, IsFile, NoNul;
    var path := Orphans.PATH_D;
    Opened(s, path, FILE, w, 4);
    RunAppend(s, OpenOps(path, FILE), [op]);
    OneStep(AtCall(s, w), op);
    var d := DeleteOp(path);
    RunAppend(s, Start(op), [d]);
    OneStep(Run(s, Start(op)), d);
    DeleteStepIs(Run(s, Start(op)), path);
  }

  lemma DeleteStepIs(s: Fs, path: seq<Byte>)
    requires WF(s.v)
    ensures Step(s, DeleteOp(path)).v == Delete(s.v, path).v
  {
  }

  /** Bits of r against those of v0: the inode bits are the same, and block p is taken for good. */
  ghost predicate Lost(v0: Vol, r: Vol, p: int)
    requires WF(v0) && WF(r)
  {
    r.inoUsed == v0.inoUsed && !Used(v0, p) && Leaked(r, p)
  }

  lemma FreshFds(super: Block, base: nat, inodes: nat, data: seq<Block>)
    requires 0 < base && base + |data| < 0x8000_0000 && 4 <= inodes < 0x8000_0000 && 3 <= |data|
    ensures var s := Fresh(super, base, inodes, data);
            && |s.fds| > 0 && !s.fds[0].used && |s.v.inodes| >= 4 && |s.v.used| >= 3
            && FsInv(s.v) && TreeOf(s.v) == FormatTree() && OnlyFirst(s.v.inoUsed, 3) && OnlyFirst(s.v.used, 2)
  {
    hide FormatVol, FsInv, TreeOf, FormatTree, HasProtected;
    FormatSucceeds(super, base, inodes, data);
  }

  /** A deletable file, written to: it stays so. */
  lemma EmptyDeletable(v: Vol, n: int, path: seq<Byte>)
    requires WF(v) && Deletable(v, path, n)
    ensures Deletable(WriteEmpty(v, n, 0), path, n) && InoValid(v, n) && WriteEmpty(v, n, 0).inoUsed == v.inoUsed
  {
    hide Sound, TreeOf, NoNul, Resolve, FileEntries, WriteEmpty, Own, DirsOK, Linked, OffX, IsFile;
    SoundRoot(v);
    NotDirIn(v, n);
    FileOrFree(v, n);
    EmptyTree(v, n, 0);
    WriteEmptyKeeps(v, n, 0);
    var w := WriteEmpty(v, n, 0);
    SoundIs(w);
    FileByTree(v, w, n);
    SameResolve(v, w, path);
  }

  /**
   * A write of zero bytes at offset 0 to a new file leaves a direct block beyond the size, and deleting the file leaves
   * that block in use with nobody to own it.
   */
  lemma EmptyWriteLeaks(super: Block, base: nat, inodes: nat, data: seq<Block>) returns (p: int)
    requires 0 < base && base + |data| < 0x8000_0000 && 4 <= inodes < 0x8000_0000 && 3 <= |data|
    ensures var s := Fresh(super, base, inodes, data); var ops := Start(WriteOp(0, [], 0));
            && AllSized(ops) && AllSized(ops + [DeleteOp(Orphans.PATH_D)])
            && !Bounded(Run(s, ops).v)
            && Lost(s.v, Run(s, ops + [DeleteOp(Orphans.PATH_D)]).v, p)
  {
    hide *;
    var s := Fresh(super, base, inodes, data);
    var op := WriteOp(0, [], 0);
    var v := s.v;
    var w := Create(v, Orphans.PATH_D, FILE).v;
    FreshFds(super, base, inodes, data);
    NewFile(v);
    EmptyOp(s, w, op);
    StartRun(s, op, w);
    p := EmptyLost(v, w);
  }

  lemma EmptyOp(s: Fs, w: Vol, op: Op)
    requires |s.fds| > 0 && WF(w) && Deletable(w, Orphans.PATH_D, 4) && op == WriteOp(0, [], 0)
    ensures Sized(op) && Step(AtCall(s, w), op).v == WriteEmpty(w, 4, 0)
  {
    NotDirIn(w, 4);
    hide WriteEmpty, Deletable;
  }

  lemma LostIs(v: Vol, w: Vol, r: Vol, p: int)
    requires WF(v) && WF(w) && WF(r) && SameFrame(v, w) && w.used == v.used && !Used(w, p) && Leaked(r, p)
             && InoValid(v, 4)
    requires w.inoUsed == v.inoUsed[3 := true] && !v.inoUsed[3] && r.inoUsed == w.inoUsed[3 := false]
    ensures Lost(v, r, p)
  {
  }

  lemma DirectPtr(v: Vol, ino: Inode, k: Key)
    requires k.Direct? && k.i < 6
    ensures P(v, ino, k) == ino.direct[k.i]
  {
  }

  lemma NoDirects(ino: Inode, typ: Byte, i: nat)
    requires ino == NEW_FILE.(mode := typ) && i < 6
    ensures ino.direct[i] == 0
  {
  }

  lemma EmptyLost(v: Vol, w: Vol) returns (p: int)
    requires WF(v) && WF(w) && Deletable(w, Orphans.PATH_D, 4) && Took(w, w, 4) && w.used == v.used && SameFrame(v, w)
    requires GetInode(w, 4) == NEW_FILE.(mode := FILE) && InoValid(v, 4)
    requires w.inoUsed == v.inoUsed[3 := true] && !v.inoUsed[3] && !Full(w)
    ensures var u := WriteEmpty(w, 4, 0); !Bounded(u) && Lost(v, Delete(u, Orphans.PATH_D).v, p)
  {
    hide Sound, Deletable, Took, Full, Leaked, Lost, P, WriteEmpty, Delete, FreedKey, Own, DirectBound, Bounded, Used,
      SameFrame, WF,
      GetInode, InoValid;
    var u := WriteEmpty(w, 4, 0);
    EmptyUnbounded(w);
    EmptyDeletable(w, 4, Orphans.PATH_D);
    SoundOwned(w, Orphans.PATH_D, 4);
    var k := BeyondSize(GetInode(u, 4));
    DirectPtr(w, GetInode(w, 4), k);
    DirectPtr(u, GetInode(u, 4), k);
    NoDirects(GetInode(w, 4), FILE, k.i);
    p := P(u, GetInode(u, 4), k);
    EmptyTakes(w, 4, k);
    DeleteLeaksIff(u, Orphans.PATH_D, 4, k);
    LostIs(v, w, Delete(u, Orphans.PATH_D).v, p);
  }

  lemma SoundOwned(v: Vol, path: seq<Byte>, n: int)
    requires WF(v) && Deletable(v, path, n)
    ensures Owned(v)
  {
  }

  lemma EmptyUnbounded(w: Vol)
    requires WF(w) && Took(w, w, 4) && GetInode(w, 4) == NEW_FILE.(mode := FILE) && !Full(w)
    ensures !DirectBound(GetInode(WriteEmpty(w, 4, 0), 4)) && !Bounded(WriteEmpty(w, 4, 0))
  {
    assert Owned(w) && InoValid(w, 4) && DirectBound(w.inodes[3]);
    FreeLeft(w);
    hide Took, Own, WriteEmpty, FreeCount, DirectBound, Full;
    EmptyWriteBoundedIff(w, 4, 0);
    var u := WriteEmpty(w, 4, 0);
    assert GetInode(u, 4) == u.inodes[3];
  }

  lemma FreeLeft(v: Vol)
    requires !Full(v)
    ensures FreeCount(v.used) > 0
  {
    CountSet(v.used, FirstFree(v.used, 0));
  }

  /**
   * One byte written at offset 134 * 512 of a new file leaves a double-indirect block, and deleting the file leaves
   * that block in use with nobody to own it.
   */
  lemma DoubleLeaks(super: Block, base: nat, inodes: nat, data: seq<Block>, b: Byte) returns (p: int)
    requires 0 < base && base + |data| < 0x8000_0000 && 4 <= inodes < 0x8000_0000 && 3 <= |data|
    ensures var s := Fresh(super, base, inodes, data); var ops := Start(WriteOp(0, [b], NEAR));
            && AllSized(ops) && AllSized(ops + [DeleteOp(Orphans.PATH_D)])
            && GetInode(Run(s, ops).v, 4).dbl != 0
            && Lost(s.v, Run(s, ops + [DeleteOp(Orphans.PATH_D)]).v, p)
  {
    hide *;
    var s := Fresh(super, base, inodes, data);
    var op := WriteOp(0, [b], NEAR);
    var v := s.v;
    var w := Create(v, Orphans.PATH_D, FILE).v;
    FreshFds(super, base, inodes, data);
    NewFile(v);
    ByteOp(s, w, op, b);
    StartRun(s, op, w);
    p := ByteLost(v, w, b);
  }

  lemma ByteOp(s: Fs, w: Vol, op: Op, b: Byte)
    requires |s.fds| > 0 && WF(w) && Deletable(w, Orphans.PATH_D, 4) && op == WriteOp(0, [b], NEAR)
    ensures Sized(op) && NEAR + 1 < TWO32 && Step(AtCall(s, w), op).v == WriteFile(w, 4, NEAR, [b]).v
  {
    NotDirIn(w, 4);
    hide WriteFile, Deletable;
  }

  lemma ByteDeletable(v: Vol, n: int, c: Chunk, path: seq<Byte>)
    requires WF(v) && Deletable(v, path, n) && Took(v, v, n) && GoodChunk(c)
    ensures var w := WriteOne(v, n, c);
            Deletable(w, path, n) && InoValid(v, n) && w.inoUsed == v.inoUsed && Took(v, w, n)
  {
    hide Sound, TreeOf, NoNul, Resolve, FileEntries, WriteOne, IsFile, Took, GoodChunk;
    NotDirIn(v, n);
    WriteTook(v, v, n, c);
    SameMode(v, WriteOne(v, n, c), n);
    WriteOneTree(v, n, c);
    SameResolve(v, WriteOne(v, n, c), path);
  }

  lemma ByteLost(v: Vol, w: Vol, b: Byte) returns (p: int)
    requires WF(v) && WF(w) && Deletable(w, Orphans.PATH_D, 4) && Took(w, w, 4) && w.used == v.used && SameFrame(v, w)
    requires InoValid(v, 4) && w.inoUsed == v.inoUsed[3 := true] && !v.inoUsed[3] && !Full(w)
    ensures NEAR + 1 < TWO32
    ensures var u := WriteFile(w, 4, NEAR, [b]).v; GetInode(u, 4).dbl != 0 && Lost(v, Delete(u, Orphans.PATH_D).v, p)
  {
    hide *;
    var c := Chunk(NEAR, [b]);
    ByteChunk(w, b);
    var u := WriteOne(w, 4, c);
    ByteDeletable(w, 4, c, Orphans.PATH_D);
    ByteDouble(w, b);
    p := GetInode(u, 4).dbl;
    DblPtr(u, GetInode(u, 4));
    TookFree(w, u, 4, Dbl);
    DblNotFreed(GetInode(u, 4));
    DeleteLeaksIff(u, Orphans.PATH_D, 4, Dbl);
    LostIs(v, w, Delete(u, Orphans.PATH_D).v, p);
  }

  lemma ByteChunk(w: Vol, b: Byte)
    requires WF(w)
    ensures NEAR + 1 < TWO32
    ensures var c := Chunk(NEAR, [b]); GoodChunk(c) && WriteOne(w, 4, c) == WriteFile(w, 4, NEAR, [b]).v
  {
    hide WriteFile;
  }

  lemma DblPtr(v: Vol, ino: Inode)
    ensures P(v, ino, Dbl) == ino.dbl
  {
  }

  lemma DblNotFreed(ino: Inode)
    ensures !FreedKey(ino, Dbl)
  {
  }

  lemma TookFree(v0: Vol, v: Vol, n: int, k: Key)
    requires Took(v0, v, n) && P(v, GetInode(v, n), k) != 0
    ensures !Used(v0, P(v, GetInode(v, n), k))
  {
    assert GetInode(v, n) == v.inodes[n - 1];
    hide P, Own;
  }

  lemma ByteDouble(w: Vol, b: Byte)
    requires WF(w) && Took(w, w, 4) && !Full(w)
    ensures NEAR + 1 < TWO32 && GetInode(WriteFile(w, 4, NEAR, [b]).v, 4).dbl != 0
  {
    assert Owned(w) && InoValid(w, 4);
    hide Took, Own, WriteFrom, WriteFile, Full;
    DblMade(w, w.inodes, 3, b);
    WriteFileIs(w, 4, NEAR, [b]);
  }
}
