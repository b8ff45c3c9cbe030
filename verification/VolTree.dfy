/** The tree a volume stands for, and how edits of the volume edit the tree. */
module VolTree {
  import opened Bytes
  import opened Volume
  import opened BlockMap
  import opened FileData
  import opened Inodes
  import opened Directory
  import opened Paths
  import opened Tree
  import opened Api
  import TreePaths

  predicate Allocated(v: Vol, n: int)
    requires WF(v)
  {
    InoValid(v, n) && v.inoUsed[n - 1]
  }

  function NodeOf(v: Vol, n: int): Node {
    var ino := GetInode(v, n);
    Node(ino.mode, if IsDir(ino.mode) then Log(v, ino) else [])
  }

  function TreeOf(v: Vol): (t: Tree)
    requires WF(v)
    ensures forall n :: n in t <==> Allocated(v, n)
    ensures forall n :: n in t ==> t[n] == NodeOf(v, n)
  {
    TreeUpTo(v, |v.inodes|)
  }

  /** The nodes of the first k inodes. */
  function TreeUpTo(v: Vol, k: nat): (t: Tree)
    requires WF(v) && k <= |v.inodes|
    ensures forall n :: n in t <==> n <= k && Allocated(v, n)
    ensures forall n :: n in t ==> t[n] == NodeOf(v, n)
  {
    if k == 0 then map[]
    else if Allocated(v, k) then TreeUpTo(v, k - 1)[k := NodeOf(v, k)]
    else TreeUpTo(v, k - 1)
  }

  ghost predicate DirsOK(v: Vol)
    requires WF(v)
  {
    forall n :: Allocated(v, n) && IsDir(GetInode(v, n).mode) ==> DirOK(v, GetInode(v, n))
  }

  /** The invariant of the file system. */
  ghost predicate FsInv(v: Vol) { Owned(v) && DirsOK(v) && TreeInv(TreeOf(v)) }

  /** Seen from every inode but x, nothing happened. */
  ghost predicate OffX(v: Vol, w: Vol, x: int) {
    && WF(v) && WF(w) && |w.inodes| == |v.inodes|
    && (forall m :: InoValid(v, m) && m != x
          ==> && (Allocated(w, m) <==> Allocated(v, m)) && GetInode(w, m) == GetInode(v, m)
              && Undisturbed(v, w, GetInode(v, m)))
  }

  /** Then the trees differ at x only. */
  lemma OffTree(v: Vol, w: Vol, x: int)
    requires OffX(v, w, x) && InoValid(v, x)
    ensures TreeOf(w) == if Allocated(w, x) then TreeOf(v)[x := NodeOf(w, x)] else TreeOf(v) - {x}
    ensures DirsOK(v) && (Allocated(w, x) && IsDir(GetInode(w, x).mode) ==> DirOK(w, GetInode(w, x))) ==> DirsOK(w)
  {
    hide NodeOf, GetInode, Undisturbed, DirOK;
    forall m | InoValid(v, m) && m != x
      ensures NodeOf(w, m) == NodeOf(v, m) && (DirOK(v, GetInode(v, m)) ==> DirOK(w, GetInode(w, m)))
    {
      OffNode(v, w, m);
    }
    var t, u := TreeOf(v), TreeOf(w);
    var s := if Allocated(w, x) then t[x := NodeOf(w, x)] else t - {x};
    assert forall n :: n in u <==> n in s;
    assert forall n :: n in u ==> u[n] == s[n];
  }

  lemma OffNode(v: Vol, w: Vol, m: int)
    requires Undisturbed(v, w, GetInode(v, m)) && GetInode(w, m) == GetInode(v, m)
    ensures NodeOf(w, m) == NodeOf(v, m) && (DirOK(v, GetInode(v, m)) ==> DirOK(w, GetInode(w, m)))
  {
    UndisturbedLog(v, w, GetInode(v, m));
    hide Undisturbed, DirOK, Log;
  }

  lemma LogEditOff(v: Vol, w: Vol, d: int, log: seq<Slot>)
    requires LogEdit(v, w, d, log)
    ensures OffX(v, w, d)
  {
    hide Own, Undisturbed, DirOK, Log;
  }

  /** Replacing the log of an allocated directory. */
  lemma EditTree(v: Vol, w: Vol, d: int, log: seq<Slot>)
    requires LogEdit(v, w, d, log) && Allocated(v, d) && IsDir(GetInode(v, d).mode) && DirsOK(v)
    ensures Owned(w) && DirsOK(w) && Allocated(w, d)
    ensures TreeOf(w) == TreeOf(v)[d := Node(GetInode(v, d).mode, log)]
  {
    LogEditOff(v, w, d, log);
    OffTree(v, w, d);
    assert Owned(w);
    hide Own, Undisturbed, DirOK, Log;
  }

  /** Taking inode slot n for a fresh file. */
  lemma TakeTree(v: Vol, typ: Byte)
    requires Owned(v) && DirsOK(v) && AllocInode(v).phys > 0
    ensures var n := AllocInode(v).phys; var w := PutInode(AllocInode(v).v, n, NEW_FILE.(mode := typ));
            && Owned(w) && DirsOK(w) && OffX(v, w, n) && !Allocated(v, n) && Allocated(w, n) && InoValid(v, n)
            && TreeOf(w) == TreeOf(v)[n := Node(typ, [])]
            && (Bounded(v) ==> Bounded(w))
            && w.used == v.used && w.base == v.base && w.super == v.super && |w.data| == |v.data|
  {
    var a := AllocInode(v);
    var n := a.phys;
    var w := PutInode(a.v, n, NEW_FILE.(mode := typ));
    AllocInodeOwned(v);
    TakeOwned(v, typ);
    forall m | InoValid(v, m) && m != n ensures Undisturbed(v, w, GetInode(v, m)) {
      FieldsUndisturbed(v, w, GetInode(v, m));
    }
    hide Undisturbed, Own, DirOK;
    assert OffX(v, w, n);
    OffTree(v, w, n);
  }

  lemma TakeOwned(v: Vol, typ: Byte)
    requires Owned(v) && AllocInode(v).phys > 0
    ensures var n := AllocInode(v).phys; var w := PutInode(AllocInode(v).v, n, NEW_FILE.(mode := typ)); Owned(w)
  {
    var a := AllocInode(v);
    var n := a.phys;
    var w := PutInode(a.v, n, NEW_FILE.(mode := typ));
    AllocInodeOwned(v);
    hide Own;
    OwnFields(a.v, a.v.inodes, w, w.inodes);
  }

  /** Giving inode n back. */
  lemma FreeTree(v: Vol, n: int)
    requires Owned(v) && DirsOK(v) && InoValid(v, n)
    ensures var w := FreeInode(v, n);
            Owned(w) && DirsOK(w) && OffX(v, w, n) && TreeOf(w) == TreeOf(v) - {n}
  {
    var w := FreeInode(v, n);
    FreeInodeOwned(v, n);
    forall m | InoValid(v, m) && m != n ensures Undisturbed(v, w, GetInode(v, m)) {
      FieldsUndisturbed(v, w, GetInode(v, m));
    }
    hide Undisturbed, Own, DirOK, ClearBits, FreedInode;
    assert OffX(v, w, n);
    OffTree(v, w, n);
  }

  /** Writing file data leaves the tree alone. */
  lemma WriteTree(v: Vol, n: int, offset: nat, buf: seq<Byte>)
    requires Owned(v) && DirsOK(v) && InoValid(v, n) && offset + |buf| < TWO32
    requires Allocated(v, n) ==> !IsDir(GetInode(v, n).mode)
    ensures var w := WriteFile(v, n, offset, buf).v;
            Owned(w) && DirsOK(w) && OffX(v, w, n) && TreeOf(w) == TreeOf(v)
  {
    var w := WriteFile(v, n, offset, buf).v;
    WriteFileOwned(v, n, offset, buf);
    assert Owned(w);
    hide WriteFile, Own, Undisturbed, DirOK;
    forall m | InoValid(v, m) && m != n ensures GetInode(w, m) == GetInode(v, m) && Undisturbed(v, w, GetInode(v, m)) {
      WriteFileIsolated(v, n, offset, buf, m);
    }
    assert OffX(v, w, n);
    OffTree(v, w, n);
    if Allocated(v, n) { assert NodeOf(w, n) == NodeOf(v, n); }
  }

  // ---------------------------------------------------------------------
  // Resolution on the volume is walking the tree

  /** A lookup in a stored directory, with or without a tree around it. */
  lemma DirFindIn(v: Vol, d: int, s: Name)
    requires Owned(v) && DirsOK(v) && Allocated(v, d) && NoNul(s)
    ensures var f := DirFind(v, d, s); var t := TreeOf(v);
            && TreePaths.Step(t, d, s) == (if f.Found? then f.ent.ino else -1)
            && (f.Found? ==> DirIn(t, d) && f.slot == Find(t[d].log, s) < |t[d].log|
                             && t[d].log[f.slot] == SlotOf(f.ent) && f.ent.ino != 0)
            && (f.NotFound? && DirIn(t, d) ==> Find(t[d].log, s) == |t[d].log|)
  {
    hide Own, EntryOf, FindFrom, RemoveFrom, LogFind, DirOK, GetInode, Log, TreeOf;
    var din := GetInode(v, d);
    assert TreeOf(v)[d] == NodeOf(v, d);
    if IsDir(din.mode) {
      assert DirOK(v, din);
      ScansFind(v, din, s, 0);
    }
  }

  lemma DirFindIsStep(v: Vol, d: int, s: Name)
    requires FsInv(v) && Allocated(v, d) && NoNul(s)
    ensures var f := DirFind(v, d, s); var t := TreeOf(v);
            && TreePaths.Step(t, d, s) == (if f.Found? then f.ent.ino else -1)
            && (f.Found? ==> DirIn(t, d) && f.slot == Find(t[d].log, s) < |t[d].log|
                             && t[d].log[f.slot] == SlotOf(f.ent) && f.ent.ino != 0)
            && (f.NotFound? && DirIn(t, d) ==> Find(t[d].log, s) == |t[d].log|)
  {
    hide Own, DirsOK, TreeInv, TreeOf, DirFind, TreePaths.Step, Find;
    DirFindIn(v, d, s);
  }

  lemma {:induction false} ResolveIsWalk(v: Vol, cur: int, toks: seq<Name>)
    requires FsInv(v) && Allocated(v, cur) && AllPlain(toks)
    ensures ResolveFrom(v, cur, toks) == TreePaths.Walk(TreeOf(v), cur, toks)
    ensures ResolveFrom(v, cur, toks) >= 0 ==> Allocated(v, ResolveFrom(v, cur, toks))
    decreases |toks|
  {
    hide FsInv, DirFind, TreeOf, Allocated, TreePaths.Step, Plain;
    if toks != [] {
      assert Plain(toks[0]);
      ResolveStep(v, cur, toks[0]);
      var f := DirFind(v, cur, toks[0]);
      if f.Found? {
        ResolveIsWalk(v, f.ent.ino, toks[1..]);
      }
    }
  }

  lemma ResolveStep(v: Vol, cur: int, s: Name)
    requires FsInv(v) && Allocated(v, cur) && Plain(s)
    ensures var f := DirFind(v, cur, s);
            && TreePaths.Step(TreeOf(v), cur, s) == (if f.Found? then f.ent.ino else -1)
            && (f.Found? ==> Allocated(v, f.ent.ino))
  {
    assert TreeInv(TreeOf(v));
    hide Own, TreeInv, TreeOf, DirFind;
    DirFindIsStep(v, cur, s);
    if DirFind(v, cur, s).Found? { TreePaths.StepEntry(TreeOf(v), cur, s); }
  }

  /** What a resolved parent is, in the tree. */
  lemma ParentIs(v: Vol, path: seq<Byte>)
    requires FsInv(v) && NoNul(path) && ResolveParent(v, path).Target?
    ensures var p := ResolveParent(v, path); Allocated(v, p.parent) && Plain(p.name)
  {
    var toks := Tokens(path);
    TokensPlain(path);
    assert Plain(toks[|toks| - 1]);
    assert Allocated(v, 1) by { assert DirIn(TreeOf(v), 1); }
    ResolveIsWalk(v, 1, toks[..|toks| - 1]);
  }
}
