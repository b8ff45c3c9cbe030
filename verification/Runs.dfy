/** Runs of the file system: what every sequence of calls keeps. */
module Runs {
  import opened Bytes
  import opened Volume
  import opened BlockMap
  import opened FileData
  import opened Inodes
  import opened Directory
  import opened Paths
  import opened Api
  import opened VolTree
  import opened Calls
  import opened EmptyWrite
  import opened Owners
  import T = Tree

  datatype Fd = Fd(used: bool, ino: int)

  /** A mounted file system: the volume and the table of descriptors. */
  datatype Fs = Fs(v: Vol, fds: seq<Fd>)

  /** First free descriptor from i on, or the table size. */
  function FreeFd(fds: seq<Fd>, i: nat): (r: nat)
    requires i <= |fds|
    ensures i <= r <= |fds| && (r < |fds| ==> !fds[r].used)
    ensures forall j :: i <= j < r ==> fds[j].used
    decreases |fds| - i
  {
    if i == |fds| || !fds[i].used then i else FreeFd(fds, i + 1)
  }

  /** ipo_fs_open: the descriptor table after the call, and the descriptor or -1. */
  function Open(s: Fs, path: seq<Byte>): (r: (seq<Fd>, int))
    ensures |r.0| == |s.fds|
  {
    var n := Resolve(s.v, path);
    if !InoValid(s.v, n) || IsDir(GetInode(s.v, n).mode) || FreeFd(s.fds, 0) == |s.fds| then (s.fds, -1)
    else (s.fds[FreeFd(s.fds, 0) := Fd(true, n)], FreeFd(s.fds, 0) as int)
  }

  predicate FdValid(s: Fs, fd: int) { 0 <= fd < |s.fds| && s.fds[fd].used }

  /** ipo_fs_write */
  function Write(s: Fs, fd: int, buf: seq<Byte>, offset: nat): (r: Called)
    requires WF(s.v) && offset + |buf| < TWO32
    ensures WF(r.v) && SameFrame(s.v, r.v)
  {
    if !FdValid(s, fd) || !InoValid(s.v, s.fds[fd].ino) then Called(s.v, -1)
    else if buf == [] then Called(WriteEmpty(s.v, s.fds[fd].ino, offset), 0)
    else
      var r := WriteFile(s.v, s.fds[fd].ino, offset, buf);
      Called(r.v, r.n)
  }

  datatype Op =
    | CreateOp(path: seq<Byte>, typ: Byte)
    | OpenOp(path: seq<Byte>)
    | WriteOp(fd: int, buf: seq<Byte>, offset: nat)
    | DeleteOp(path: seq<Byte>)
    | RenameOp(oldpath: seq<Byte>, newpath: seq<Byte>)

  /** No 32-bit overflow in a write: all that ownership asks of a call. */
  predicate Sized(op: Op) { op.WriteOp? ==> op.offset + |op.buf| < TWO32 }

  predicate AllSized(ops: seq<Op>) { forall i :: 0 <= i < |ops| ==> Sized(ops[i]) }

  /**
   * What the tree asks of a call: C strings as paths, no directories made by create (it writes no dots), no 32-bit
   * overflow in a write, and no directory renamed to a fresh name inside itself.
   */
  ghost predicate Legal(s: Fs, op: Op)
    requires WF(s.v)
  {
    match op
    case CreateOp(path, typ) => NoNul(path) && typ % 2 == 0
    case OpenOp(path) => NoNul(path)
    case WriteOp(fd, buf, offset) => offset + |buf| < TWO32
    case DeleteOp(path) => NoNul(path)
    case RenameOp(oldpath, newpath) => NoNul(oldpath) && NoNul(newpath) && FreshOutside(s.v, oldpath, newpath)
  }

  ghost function Step(s: Fs, op: Op): (r: Fs)
    requires WF(s.v) && Sized(op)
    ensures WF(r.v) && SameFrame(s.v, r.v)
  {
    match op
    case CreateOp(path, typ) => s.(v := Create(s.v, path, typ).v)
    case OpenOp(path) => s.(fds := Open(s, path).0)
    case WriteOp(fd, buf, offset) => s.(v := Write(s, fd, buf, offset).v)
    case DeleteOp(path) => s.(v := Delete(s.v, path).v)
    case RenameOp(oldpath, newpath) => s.(v := Rename(s.v, oldpath, newpath).v)
  }

  /** Descriptors may outlive their file, but none ever refers to a directory. */
  ghost predicate FdsOK(s: Fs)
    requires WF(s.v)
  {
    forall i :: 0 <= i < |s.fds| && s.fds[i].used ==> InoValid(s.v, s.fds[i].ino) && !T.DirIn(TreeOf(s.v), s.fds[i].ino)
  }

  ghost predicate SysInv(s: Fs) { FsInv(s.v) && FdsOK(s) }

  // ---------------------------------------------------------------------
  // Protected entries

  /** Every entry of a protected inode of t is still there in u. */
  ghost predicate ProtectedStay(t: T.Tree, u: T.Tree) {
    forall d, e, n :: T.Entry(t, d, e, n) && n in t && Protected(t[n].mode)
      ==> T.Entry(u, d, e, n) && u[d].log[e] == t[d].log[e] && n in u && u[n].mode == t[n].mode
  }

  lemma ProtectedTrans(t: T.Tree, u: T.Tree, w: T.Tree)
    requires ProtectedStay(t, u) && ProtectedStay(u, w)
    ensures ProtectedStay(t, w)
  {
  }

  lemma CreateProtected(t: T.Tree, d: int, name: Name, n: Word, typ: Byte)
    requires T.TreeInv(t) && T.DirIn(t, d) && n !in t
    ensures ProtectedStay(t, T.Create(t, d, name, n, typ))
  {
    hide T.TreeInv;
  }

  lemma DeleteProtected(t: T.Tree, d: int, e: int, n: int)
    requires T.TreeInv(t) && T.Entry(t, d, e, n) && n in t && !Protected(t[n].mode)
             && (T.DirIn(t, n) ==> |t[n].log| <= 2)
    ensures ProtectedStay(t, T.Delete(t, d, e, n))
  {
    T.DeleteEntries(t, d, e, n);
    hide T.TreeInv;
  }

  lemma MoveProtected(t: T.Tree, d: int, e: int, m: int, q: int, name: Name)
    requires T.MoveReady(t, d, e, m, q, name) && m in t && !Protected(t[m].mode)
    ensures ProtectedStay(t, T.Move(t, d, e, m, q, name))
  {
    var u := T.Move(t, d, e, m, q, name);
    forall x, f, k | T.Entry(t, x, f, k) && k in t && Protected(t[k].mode)
      ensures T.Entry(u, x, f, k) && u[x].log[f] == t[x].log[f] && k in u && u[k].mode == t[k].mode
    {
      T.MoveEntry(t, d, e, m, q, name, x, f, k);
      T.MoveLog(t, d, e, m, q, name, k);
    }
    hide T.TreeInv;
  }

  // ---------------------------------------------------------------------
  // Every step, every run

  /** What a step does to the tree keeps descriptors off directories. */
  lemma FdsKept(s: Fs, r: Fs)
    requires WF(s.v) && WF(r.v) && FdsOK(s) && r.fds == s.fds && |r.v.inodes| == |s.v.inodes|
    requires forall n :: T.DirIn(TreeOf(r.v), n) ==> T.DirIn(TreeOf(s.v), n)
    ensures FdsOK(r)
  {
  }

  lemma CreateStep(s: Fs, path: seq<Byte>, typ: Byte)
    requires WF(s.v) && SysInv(s) && NoNul(path) && typ % 2 == 0
    ensures var r := s.(v := Create(s.v, path, typ).v); SysInv(r) && ProtectedStay(TreeOf(s.v), TreeOf(r.v))
  {
    FsInvIs(s.v);
    hide FsInv, Create, ResolveParent, T.Find, TreeOf, ValidName, FdsOK, Own, DirsOK, T.TreeInv, NoNul, T.Create;
    var c := Create(s.v, path, typ);
    CreateEffect(s.v, path, typ);
    var r := s.(v := c.v);
    FsInvIs(r.v);
    if c.ret > 0 {
      var p := ResolveParent(s.v, path);
      CreateProtected(TreeOf(s.v), p.parent, p.name, c.ret, typ);
      forall n | T.DirIn(TreeOf(r.v), n) ensures T.DirIn(TreeOf(s.v), n) {
        CreateDirs(TreeOf(s.v), p.parent, p.name, c.ret, typ, n);
      }
    }
    FdsKept(s, r);
  }

  lemma CreateDirs(t: T.Tree, d: int, name: Name, n: Word, typ: Byte, x: int)
    requires d in t && d != n && T.DirIn(T.Create(t, d, name, n, typ), x) && typ % 2 == 0
    ensures T.DirIn(t, x)
  {
  }

  lemma OpenStep(s: Fs, path: seq<Byte>)
    requires WF(s.v) && SysInv(s) && NoNul(path)
    ensures SysInv(s.(fds := Open(s, path).0))
  {
    FsInvIs(s.v);
    hide FsInv, Resolve, FreeFd, Own, DirsOK, T.TreeInv;
    var r := s.(fds := Open(s, path).0);
    var n := Resolve(s.v, path);
    forall i | 0 <= i < |r.fds| && r.fds[i].used
      ensures InoValid(r.v, r.fds[i].ino)
              && !T.DirIn(TreeOf(r.v), r.fds[i].ino)
    {
      if r.fds[i] != s.fds[i] { assert r.fds[i].ino == n && !IsDir(GetInode(s.v, n).mode); }
    }
  }

  lemma WriteStep(s: Fs, fd: int, buf: seq<Byte>, offset: nat)
    requires WF(s.v) && SysInv(s) && offset + |buf| < TWO32
    ensures var r := s.(v := Write(s, fd, buf, offset).v); SysInv(r) && TreeOf(r.v) == TreeOf(s.v)
  {
    FsInvIs(s.v);
    hide FsInv, WriteFile, WriteEmpty, TreeOf, Own, DirsOK, T.TreeInv, DirectBound;
    var r := s.(v := Write(s, fd, buf, offset).v);
    FsInvIs(r.v);
    if FdValid(s, fd) && InoValid(s.v, s.fds[fd].ino) {
      var n := s.fds[fd].ino;
      FileOrFree(s.v, n);
      if buf == [] {
        EmptyTree(s.v, n, offset);
      } else {
        WriteTree(s.v, n, offset, buf);
        WriteFileOwned(s.v, n, offset, buf);
      }
    }
    FdsKept(s, r);
  }

  lemma FileOrFree(v: Vol, n: int)
    requires WF(v) && !T.DirIn(TreeOf(v), n)
    ensures Allocated(v, n) ==> !IsDir(GetInode(v, n).mode)
  {
  }

  lemma EmptyTree(v: Vol, n: int, offset: nat)
    requires Owned(v) && DirsOK(v) && InoValid(v, n) && offset < TWO32
    requires Allocated(v, n) ==> !IsDir(GetInode(v, n).mode)
    ensures var w := WriteEmpty(v, n, offset);
            Owned(w) && DirsOK(w) && TreeOf(w) == TreeOf(v) && |w.inodes| == |v.inodes|
  {
    var w := WriteEmpty(v, n, offset);
    WriteEmptyKeeps(v, n, offset);
    hide WriteEmpty, Own, Undisturbed, DirOK;
    assert OffX(v, w, n);
    OffTree(v, w, n);
    if Allocated(v, n) { assert NodeOf(w, n) == NodeOf(v, n); }
  }

  lemma DeleteStep(s: Fs, path: seq<Byte>)
    requires WF(s.v) && SysInv(s) && NoNul(path)
    ensures var r := s.(v := Delete(s.v, path).v); SysInv(r) && ProtectedStay(TreeOf(s.v), TreeOf(r.v))
  {
    FsInvIs(s.v);
    hide FsInv, Delete, ResolveParent, DirFind, TreeOf, FdsOK, T.Delete, Own, DirsOK, T.TreeInv, NoNul, T.Entry;
    var c := Delete(s.v, path);
    DeleteEffect(s.v, path);
    var r := s.(v := c.v);
    var t := TreeOf(s.v);
    ProtectedRefl(t);
    if c.ok {
      FsInvIs(r.v);
      var p := ResolveParent(s.v, path);
      var f := DirFind(s.v, p.parent, p.name);
      EntryIn(t, p.parent, f.slot, f.ent.ino);
      DeleteProtected(t, p.parent, f.slot, f.ent.ino);
      forall n | T.DirIn(TreeOf(r.v), n) ensures T.DirIn(t, n) { DeleteDirs(t, p.parent, f.slot, f.ent.ino, n); }
      FdsKept(s, r);
    }
  }

  lemma MoveDir(t: T.Tree, d: int, e: int, m: int, q: int, name: Name)
    requires T.MoveReady(t, d, e, m, q, name)
    ensures d in t && T.Entry(t, d, e, m)
  {
  }

  lemma EntryIn(t: T.Tree, d: int, e: int, n: int)
    requires T.TreeInv(t) && T.Entry(t, d, e, n)
    ensures n in t
  {
    assert T.GoodEntry(t, d, e, n);
  }

  lemma DeleteDirs(t: T.Tree, d: int, e: int, n: int, x: int)
    requires T.Entry(t, d, e, n) && T.DirIn(T.Delete(t, d, e, n), x)
    ensures T.DirIn(t, x)
  {
  }

  lemma RenameStep(s: Fs, oldpath: seq<Byte>, newpath: seq<Byte>)
    requires WF(s.v) && SysInv(s) && NoNul(oldpath) && NoNul(newpath) && FreshOutside(s.v, oldpath, newpath)
    ensures var r := s.(v := Rename(s.v, oldpath, newpath).v); SysInv(r) && ProtectedStay(TreeOf(s.v), TreeOf(r.v))
  {
    FsInvIs(s.v);
    hide FsInv, Rename, RenamePlan, TreeOf, FdsOK, T.Move, T.MoveReady, FreshOutside, Own, DirsOK, T.TreeInv, NoNul,
      T.Entry;
    var c := Rename(s.v, oldpath, newpath);
    var p := RenamePlan(s.v, oldpath, newpath);
    RenameEffect(s.v, oldpath, newpath);
    var r := s.(v := c.v);
    var t := TreeOf(s.v);
    ProtectedRefl(t);
    FsInvIs(r.v);
    if c.ok && p.MoveTo? {
      T.MoveReadyFacts(t, p.oldParent, p.slot, p.ent.ino, p.newParent, p.newName);
      MoveDir(t, p.oldParent, p.slot, p.ent.ino, p.newParent, p.newName);
      MoveProtected(t, p.oldParent, p.slot, p.ent.ino, p.newParent, p.newName);
      forall n | T.DirIn(TreeOf(r.v), n) ensures T.DirIn(t, n) {
        T.MoveLog(t, p.oldParent, p.slot, p.ent.ino, p.newParent, p.newName, p.oldParent);
        if n in t { T.MoveLog(t, p.oldParent, p.slot, p.ent.ino, p.newParent, p.newName, n); }
      }
    }
    FdsKept(s, r);
  }

  ghost function Run(s: Fs, ops: seq<Op>): (r: Fs)
    requires WF(s.v) && AllSized(ops)
    ensures WF(r.v) && SameFrame(s.v, r.v)
    decreases |ops|
  {
    if ops == [] then s else Run(Step(s, ops[0]), ops[1..])
  }

  /** A run in two parts. */
  lemma {:induction false} RunAppend(s: Fs, a: seq<Op>, b: seq<Op>)
    requires WF(s.v) && AllSized(a) && AllSized(b)
    ensures AllSized(a + b) && Run(s, a + b) == Run(Run(s, a), b)
    decreases |a|
  {
    hide Step, WF;
    if a == [] {
      assert a + b == b;
    } else {
      assert (a + b)[1..] == a[1..] + b;
      RunAppend(Step(s, a[0]), a[1..], b);
    }
  }

  ghost predicate LegalRun(s: Fs, ops: seq<Op>)
    requires WF(s.v)
    ensures LegalRun(s, ops) ==> AllSized(ops)
    decreases |ops|
  {
    ops == [] || (Legal(s, ops[0]) && LegalRun(Step(s, ops[0]), ops[1..]))
  }

  lemma StepKeeps(s: Fs, op: Op)
    requires WF(s.v) && SysInv(s) && Legal(s, op)
    ensures SysInv(Step(s, op)) && ProtectedStay(TreeOf(s.v), TreeOf(Step(s, op).v))
  {
    ProtectedRefl(TreeOf(s.v));
    hide SysInv, ProtectedStay, TreeOf, Create, Open, Delete, Rename, Write, WF, SameFrame;
    match op
    case CreateOp(path, typ) => CreateStep(s, path, typ);
    case OpenOp(path) => OpenStep(s, path);
    case WriteOp(fd, buf, offset) => WriteStep(s, fd, buf, offset);
    case DeleteOp(path) => DeleteStep(s, path);
    case RenameOp(oldpath, newpath) => RenameStep(s, oldpath, newpath);
  }

  lemma ProtectedRefl(t: T.Tree)
    ensures ProtectedStay(t, t)
  {
  }

  /**
   * Every run of calls keeps ownership of blocks, the directories and the tree, and protected entries stay
   * where they are.
   */
  lemma {:induction false} RunKeeps(s: Fs, ops: seq<Op>)
    requires WF(s.v) && SysInv(s) && LegalRun(s, ops)
    ensures SysInv(Run(s, ops)) && ProtectedStay(TreeOf(s.v), TreeOf(Run(s, ops).v))
    decreases |ops|
  {
    assert WF(s.v);
    hide SysInv, ProtectedStay, Step, TreeOf, Legal, WF, SameFrame;
    if ops == [] {
      ProtectedRefl(TreeOf(s.v));
    } else {
      var r := Step(s, ops[0]);
      StepKeeps(s, ops[0]);
      RunKeeps(r, ops[1..]);
      ProtectedTrans(TreeOf(s.v), TreeOf(r.v), TreeOf(Run(s, ops).v));
    }
  }

  // ---------------------------------------------------------------------
  // Ownership over all runs

  lemma StepOwned(s: Fs, op: Op)
    requires Owned(s.v) && Sized(op)
    ensures Owned(Step(s, op).v)
  {
    hide Own, Create, Delete, Rename, Open, Bounded, Write;
    match op
    case CreateOp(path, typ) => CreateKept(s.v, path, typ);
    case OpenOp(path) =>
    case WriteOp(fd, buf, offset) => WriteOwned(s, fd, buf, offset);
    case DeleteOp(path) => DeleteKept(s.v, path);
    case RenameOp(oldpath, newpath) => RenameKept(s.v, oldpath, newpath);
  }

  lemma WriteOwned(s: Fs, fd: int, buf: seq<Byte>, offset: nat)
    requires Owned(s.v) && offset + |buf| < TWO32
    ensures Owned(Write(s, fd, buf, offset).v)
    ensures buf != [] ==> Kept(s.v, Write(s, fd, buf, offset).v)
  {
    hide Own, WriteFile, WriteEmpty, Bounded, Kept;
    KeptRefl(s.v);
    if FdValid(s, fd) && InoValid(s.v, s.fds[fd].ino) {
      var n := s.fds[fd].ino;
      if buf == [] {
        EmptyKept(s.v, n, offset);
      } else {
        WriteKept(s.v, n, offset, buf);
        KeptOwned(s.v, WriteFile(s.v, n, offset, buf).v);
      }
    } else {
      KeptOwned(s.v, s.v);
    }
  }

  /**
   * Every sequence of create (of files and directories), open, write, delete and rename keeps ownership: the calls
   * may fail, descriptors may be stale, and the directories need not form a tree.
   */
  lemma {:induction false} RunOwned(s: Fs, ops: seq<Op>)
    requires Owned(s.v) && AllSized(ops)
    ensures Owned(Run(s, ops).v)
    decreases |ops|
  {
    hide Own, Step;
    if ops != [] {
      StepOwned(s, ops[0]);
      RunOwned(Step(s, ops[0]), ops[1..]);
    }
  }

  /** The pointer of inode n at key k, if there is one, names a block in use, and no other pointer names that block. */
  ghost predicate SoleOwner(v: Vol, n: int, k: Key)
    requires WF(v)
  {
    var p := P(v, GetInode(v, n), k);
    p != 0 ==> Used(v, p) && forall m, j :: P(v, GetInode(v, m), j) == p ==> m == n && j == k
  }

  /** Ownership, spelled out for the inode slots of any state such a run reaches. */
  lemma RunOwnership(s: Fs, ops: seq<Op>, n: int, k: Key)
    requires Owned(s.v) && AllSized(ops)
    ensures SoleOwner(Run(s, ops).v, n, k)
  {
    hide Run, Own, SoleOwner;
    RunOwned(s, ops);
    OwnedMeans(Run(s, ops).v, n, k);
  }

  lemma OwnedMeans(v: Vol, n: int, k: Key)
    requires Owned(v)
    ensures SoleOwner(v, n, k)
  {
    ZeroInodeEmpty(v, k);
    forall m, j | P(v, GetInode(v, m), j) == P(v, GetInode(v, n), k) != 0 ensures m == n && j == k {
      ZeroInodeEmpty(v, j);
    }
    hide P;
  }
}
