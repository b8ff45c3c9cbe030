/** What each call does to the tree. */
module Calls {
  import opened Bytes
  import opened Volume
  import opened BlockMap
  import opened FileData
  import opened Inodes
  import opened Directory
  import opened Paths
  import opened Api
  import opened VolTree
  import T = Tree
  import TreePaths

  lemma DirOfTree(v: Vol, d: int)
    requires FsInv(v) && T.DirIn(TreeOf(v), d)
    ensures InoValid(v, d) && Allocated(v, d) && IsDir(GetInode(v, d).mode) && DirOK(v, GetInode(v, d))
    ensures TreeOf(v)[d] == T.Node(GetInode(v, d).mode, Log(v, GetInode(v, d)))
  {
  }

  /** A refused lookup in a directory: the name is free there. */
  lemma FreeName(v: Vol, d: int, s: Name)
    requires FsInv(v) && Allocated(v, d) && NoNul(s) && DirFind(v, d, s).NotFound?
    ensures T.DirIn(TreeOf(v), d) ==> T.Find(TreeOf(v)[d].log, s) == |TreeOf(v)[d].log|
  {
    hide FsInv, DirFind, TreeOf;
    DirFindIsStep(v, d, s);
  }

  lemma FindIs(log: seq<Slot>, s: Name)
    ensures T.Find(log, s) == LogFind(log, s, 0)
  {
  }

  // ---------------------------------------------------------------------
  // Create

  /** Create, for files and directories alike: a node with an empty log and its entry, or no change. */
  lemma CreateEffect(v: Vol, path: seq<Byte>, typ: Byte)
    requires FsInv(v) && NoNul(path)
    ensures var r := Create(v, path, typ); var p := ResolveParent(v, path);
            && Owned(r.v) && DirsOK(r.v)
            && (if r.ret > 0 then
                  && p.Target? && T.DirIn(TreeOf(v), p.parent) && r.ret !in TreeOf(v) && r.ret < TWO32
                  && ValidName(p.name) && T.Find(TreeOf(v)[p.parent].log, p.name) == |TreeOf(v)[p.parent].log|
                  && TreeOf(r.v) == T.Create(TreeOf(v), p.parent, p.name, r.ret, typ)
                else TreeOf(r.v) == TreeOf(v))
            && (FsInv(r.v) <==> r.ret <= 0 || typ % 2 == 0)
  {
    FsInvIs(v);
    hide FsInv, Own, DirsOK, T.TreeInv, ResolveParent, TreeOf, Create, Allocated, T.Find, T.DirIn, T.Create, ValidName;
    var r := Create(v, path, typ);
    var p := ResolveParent(v, path);
    if p.Target? { ParentIs(v, path); }
    CreateTree(v, path, typ);
    FsInvIs(r.v);
    if r.ret > 0 { T.CreateKeeps(TreeOf(v), p.parent, p.name, r.ret, typ); }
  }

  /** The same on volumes that need not hold a tree, as long as the parent directory is an allocated inode. */
  lemma CreateTree(v: Vol, path: seq<Byte>, typ: Byte)
    requires Owned(v) && DirsOK(v)
    requires ResolveParent(v, path).Target? ==> Allocated(v, ResolveParent(v, path).parent)
    ensures var r := Create(v, path, typ); var p := ResolveParent(v, path);
            && Owned(r.v) && DirsOK(r.v)
            && (if r.ret > 0 then
                  && p.Target? && T.DirIn(TreeOf(v), p.parent) && r.ret !in TreeOf(v) && r.ret < TWO32
                  && ValidName(p.name) && T.Find(TreeOf(v)[p.parent].log, p.name) == |TreeOf(v)[p.parent].log|
                  && TreeOf(r.v) == T.Create(TreeOf(v), p.parent, p.name, r.ret, typ)
                else TreeOf(r.v) == TreeOf(v))
  {
    hide Own, DirsOK, ResolveParent, DirFind, TreeOf, T.Find, T.Create, AllocInode, DirAdd, FreeInode, ValidName,
      Allocated;
    var p := ResolveParent(v, path);
    if p.Target? && ValidName(p.name) && DirFind(v, p.parent, p.name).NotFound? && AllocInode(v).phys > 0 {
      ValidNameNoNul(p.name);
      DirFindIn(v, p.parent, p.name);
      CreateFresh(v, path, typ);
    } else {
      NoCreate(v, path, typ);
    }
  }

  lemma CreateFresh(v: Vol, path: seq<Byte>, typ: Byte)
    requires Owned(v) && DirsOK(v) && AllocInode(v).phys > 0
    requires var p := ResolveParent(v, path);
             && p.Target? && Allocated(v, p.parent) && ValidName(p.name) && DirFind(v, p.parent, p.name).NotFound?
    ensures var r := Create(v, path, typ); var p := ResolveParent(v, path);
            && Owned(r.v) && DirsOK(r.v)
            && (if r.ret > 0 then
                  && T.DirIn(TreeOf(v), p.parent) && r.ret !in TreeOf(v) && r.ret < TWO32
                  && TreeOf(r.v) == T.Create(TreeOf(v), p.parent, p.name, r.ret, typ)
                else TreeOf(r.v) == TreeOf(v))
  {
    hide DirAdd, Own, DirOK, DirsOK, FreeInode, AllocInode, ResolveParent, DirFind, TreeOf, Create, OffX, NodeOf,
      Bounded;
    var p := ResolveParent(v, path);
    var t := TreeOf(v);
    TakenNumber(v);
    CreateIs(v, path, typ);
    var n := AllocInode(v).phys;
    var w := PutInode(AllocInode(v).v, n, NEW_FILE.(mode := typ));
    TakeTree(v, typ);
    OldNode(v, w, n, p.parent);
    AddOutcome(w, p.parent, p.name, n, typ);
    var r := DirAdd(w, p.parent, p.name, n, typ);
    if r.ok {
      CreateIsAdd(t, p.parent, p.name, n, typ);
    } else {
      FreeTree(r.v, n);
      assert t[n := T.Node(typ, [])] - {n} == t;
    }
  }

  lemma FsInvIs(v: Vol)
    ensures FsInv(v) <==> Owned(v) && DirsOK(v) && T.TreeInv(TreeOf(v))
    ensures Owned(v) ==> WF(v)
  {
  }

  lemma TakenNumber(v: Vol)
    requires WF(v) && AllocInode(v).phys > 0
    ensures AllocInode(v).phys < TWO32
  {
  }

  lemma CreateIsAdd(t: T.Tree, d: int, name: Name, n: Word, typ: Byte)
    requires d in t && d != n
    ensures T.Create(t, d, name, n, typ) == T.Add(t[n := T.Node(typ, [])], d, name, n, typ)
  {
  }

  lemma CreateIs(v: Vol, path: seq<Byte>, typ: Byte)
    requires WF(v) && AllocInode(v).phys > 0
    requires var p := ResolveParent(v, path); p.Target? && ValidName(p.name) && DirFind(v, p.parent, p.name).NotFound?
    ensures var p := ResolveParent(v, path); var n := AllocInode(v).phys;
            var r := DirAdd(PutInode(AllocInode(v).v, n, NEW_FILE.(mode := typ)), p.parent, p.name, n, typ);
            Create(v, path, typ) == if r.ok then Called(r.v, n) else Called(FreeInode(r.v, n), -1)
  {
    hide ResolveParent, DirAdd, FreeInode, DirFind;
  }

  lemma NoCreate(v: Vol, path: seq<Byte>, typ: Byte)
    requires WF(v)
    requires var p := ResolveParent(v, path);
             !(p.Target? && ValidName(p.name) && DirFind(v, p.parent, p.name).NotFound? && AllocInode(v).phys > 0)
    ensures Create(v, path, typ) == Called(v, -1)
  {
  }

  lemma OldNode(v: Vol, w: Vol, n: int, d: int)
    requires WF(v) && WF(w) && OffX(v, w, n) && Allocated(v, d) && !Allocated(v, n) && InoValid(v, n)
    ensures d != n && Allocated(w, d) && InoValid(w, n)
  {
  }

  /** The outcome of adding an entry to an allocated inode. */
  lemma AddOutcome(w: Vol, d: int, name: Name, n: Word, typ: Byte)
    requires Owned(w) && DirsOK(w) && Allocated(w, d) && n != 0
    ensures var r := DirAdd(w, d, name, n, typ);
            && Owned(r.v) && DirsOK(r.v) && r.v.inoUsed == w.inoUsed && |r.v.inodes| == |w.inodes|
            && (if r.ok then T.DirIn(TreeOf(w), d) && TreeOf(r.v) == T.Add(TreeOf(w), d, name, n, typ)
                else TreeOf(r.v) == TreeOf(w))
  {
    hide DirAdd, Own, DirOK, DirsOK, LogEdit, Log, LogFind, Full;
    var r := DirAdd(w, d, name, n, typ);
    if !IsDir(GetInode(w, d).mode) {
      AddToFile(w, d, name, n, typ);
    } else {
      AllocatedDirOK(w, d);
      DirAddEffect(w, d, name, n, typ);
      var log := Log(w, GetInode(w, d));
      assert TreeOf(w)[d] == T.Node(GetInode(w, d).mode, log);
      var after := if r.ok then log + [Live(name, n, typ)] else log;
      EditTree(w, r.v, d, after);
      LogEditShape(w, r.v, d, after);
    }
  }

  lemma LogEditShape(v: Vol, w: Vol, d: int, log: seq<Slot>)
    requires LogEdit(v, w, d, log)
    ensures w.inoUsed == v.inoUsed && |w.inodes| == |v.inodes| && GetInode(w, d).mode == GetInode(v, d).mode
  {
  }

  lemma AddToFile(w: Vol, d: int, name: Name, n: Word, typ: Byte)
    requires WF(w) && !IsDir(GetInode(w, d).mode)
    ensures DirAdd(w, d, name, n, typ) == Edited(w, false)
  {
  }

  lemma AllocatedDirOK(v: Vol, d: int)
    requires WF(v) && DirsOK(v) && Allocated(v, d) && IsDir(GetInode(v, d).mode)
    ensures DirOK(v, GetInode(v, d))
  {
  }

  // ---------------------------------------------------------------------
  // Delete

  /** A found name, in the tree: a proper entry for an allocated inode. */
  lemma FoundEntry(v: Vol, d: int, s: Name)
    requires FsInv(v) && Allocated(v, d) && Plain(s) && DirFind(v, d, s).Found?
    ensures var f := DirFind(v, d, s); var t := TreeOf(v);
            && T.Entry(t, d, f.slot, f.ent.ino) && f.slot == T.Find(t[d].log, s) && t[d].log[f.slot].name == s
            && t[d].log[f.slot].typ == f.ent.typ && f.ent.ino in t && f.ent.ino != 1
            && (f.ent.typ == 1 <==> T.DirIn(t, f.ent.ino))
  {
    var t := TreeOf(v);
    DirFindIsStep(v, d, s);
    var f := DirFind(v, d, s);
    TreePaths.StepEntry(t, d, s);
    assert T.GoodEntry(t, d, f.slot, f.ent.ino);
    hide FsInv, DirFind, TreeOf, T.TreeInv;
  }

  lemma DeleteEffect(v: Vol, path: seq<Byte>)
    requires FsInv(v) && NoNul(path)
    ensures var r := Delete(v, path); var p := ResolveParent(v, path); var t := TreeOf(v);
            if r.ok then
              && p.Target? && DirFind(v, p.parent, p.name).Found?
              && (var f := DirFind(v, p.parent, p.name);
                  && T.Entry(t, p.parent, f.slot, f.ent.ino) && t[p.parent].log[f.slot].name == p.name
                  && !Protected(t[f.ent.ino].mode) && (T.DirIn(t, f.ent.ino) ==> |t[f.ent.ino].log| <= 2)
                  && TreeOf(r.v) == T.Delete(t, p.parent, f.slot, f.ent.ino))
              && FsInv(r.v)
            else r.v == v
  {
    hide DirRemove, FreeInode, Own, TreeOf, DirFind, ResolveParent, FsInv, Log, DirOK, Allocated;
    FsInvIs(v);
    var p := ResolveParent(v, path);
    var r := Delete(v, path);
    if p.Target? && DirFind(v, p.parent, p.name).Found? {
      ParentIs(v, path);
      FoundEntry(v, p.parent, p.name);
      var f := DirFind(v, p.parent, p.name);
      RemoveOutcome(v, p.parent, p.name);
      if r.ok {
        DeleteDone(v, p.parent, p.name);
      }
    }
  }

  /** dir_remove_entry on a found name. */
  lemma RemoveOutcome(v: Vol, d: int, s: Name)
    requires FsInv(v) && Allocated(v, d) && Plain(s) && DirFind(v, d, s).Found?
    ensures var f := DirFind(v, d, s); var r := DirRemove(v, d, s);
            && (r.ok <==> !(InoValid(v, f.ent.ino) && Protected(GetInode(v, f.ent.ino).mode)))
            && (if r.ok then LogEdit(v, r.v, d, Log(v, GetInode(v, d))[f.slot := Tomb])
               && f.slot < SlotCount(GetInode(v, d))
                else r.v == v)
  {
    FoundEntry(v, d, s);
    DirOfTree(v, d);
    DirFindIsStep(v, d, s);
    hide DirRemove, Own, TreeOf, FsInv, DirOK, LogEdit, DirFind, Log, LogFind, Allocated;
    DirRemoveEffect(v, d, s);
    FindIs(Log(v, GetInode(v, d)), s);
  }

  lemma DeleteDone(v: Vol, d: int, s: Name)
    requires FsInv(v) && Allocated(v, d) && Plain(s) && DirFind(v, d, s).Found?
    requires var f := DirFind(v, d, s);
             !Protected(GetInode(v, f.ent.ino).mode) && (f.ent.typ == TYPE_DIR ==> GetInode(v, f.ent.ino).size <= 144)
    ensures var f := DirFind(v, d, s); var r := DirRemove(v, d, s); var w := FreeInode(r.v, f.ent.ino);
            var t := TreeOf(v);
            && r.ok && FsInv(w) && T.Entry(t, d, f.slot, f.ent.ino) && t[d].log[f.slot].name == s
            && !Protected(t[f.ent.ino].mode)
            && (T.DirIn(t, f.ent.ino) ==> |t[f.ent.ino].log| <= 2)
            && TreeOf(w) == T.Delete(t, d, f.slot, f.ent.ino)
  {
    var f := DirFind(v, d, s);
    var t := TreeOf(v);
    var n := f.ent.ino;
    FoundEntry(v, d, s);
    RemoveOutcome(v, d, s);
    DirOfTree(v, d);
    assert t[n] == NodeOf(v, n);
    hide DirRemove, FreeInode, Own, DirOK, T.TreeInv, LogEdit, DirFind, Log, TreeOf;
    var r := DirRemove(v, d, s);
    var log := Log(v, GetInode(v, d))[f.slot := Tomb];
    EditTree(v, r.v, d, log);
    LogEditShape(v, r.v, d, log);
    FreeTree(r.v, n);
    T.DeleteKeeps(t, d, f.slot, n);
  }

  // ---------------------------------------------------------------------
  // The descendant test

  lemma DotDotBlock(v: Vol, din: Inode)
    requires DirOK(v, din) && SlotCount(din) >= 2
    ensures din.direct[0] != 0 && EntryAt(Blk(v, din.direct[0]), 1) == EntryOf(v, din, 1)
  {
    assert GoodSlot(v, din, 0);
    assert Lookup(v, din, 0) == P(v, din, Direct(0));
    hide EntryAt, GoodEnt, Blk;
  }

  lemma ParNotSelf(t: T.Tree, d: int)
    requires T.TreeInv(t) && T.DirIn(t, d) && d != 1
    ensures T.Par(t, d) != d && T.DirIn(t, T.Par(t, d)) && T.Par(t, d) > 0
  {
    T.ParIsDir(t, d);
    assert T.Up(t, d, 1) == T.Par(t, d) by { assert T.Up(t, T.Par(t, d), 0) == T.Par(t, d); }
    TreePaths.NoUpLoop(t, d, 1);
    T.NoNegative(t, T.Par(t, d));
  }

  lemma NextUpIsPar(v: Vol, cur: int)
    requires FsInv(v) && T.DirIn(TreeOf(v), cur) && cur != 1
    ensures NextUp(v, cur) == T.Par(TreeOf(v), cur) && T.DirIn(TreeOf(v), T.Par(TreeOf(v), cur))
  {
    FsInvIs(v);
    var t := TreeOf(v);
    var din := GetInode(v, cur);
    DirOfTree(v, cur);
    ParNotSelf(t, cur);
    hide Own, T.TreeInv, FsInv, TreeOf, EntryAt, EntryOf, DirOK, Blk;
    assert |t[cur].log| >= 2;
    DotDotBlock(v, din);
    assert Log(v, din)[1] == SlotOf(EntryOf(v, din, 1));
  }

  lemma AvoidsStep(t: T.Tree, cur: int, i: nat, anc: int)
    requires i > 0
    ensures T.Avoids(t, cur, i, anc) <==> cur != anc && T.Avoids(t, T.Par(t, cur), i - 1, anc)
  {
    assert T.Up(t, cur, 0) == cur;
    if T.Avoids(t, cur, i, anc) {
      forall j: nat | j < i - 1 ensures T.Up(t, T.Par(t, cur), j) != anc { assert T.Up(t, cur, j + 1) != anc; }
    }
    if cur != anc && T.Avoids(t, T.Par(t, cur), i - 1, anc) {
      forall j: nat | j < i ensures T.Up(t, cur, j) != anc {
        if j > 0 { assert T.Up(t, cur, j) == T.Up(t, T.Par(t, cur), j - 1); }
      }
    }
  }

  lemma {:induction false} HitsIsUp(v: Vol, anc: int, cur: int, i: nat)
    requires FsInv(v) && T.DirIn(TreeOf(v), cur) && anc != 1
    ensures Hits(v, anc, cur, i) <==> T.Up(TreeOf(v), cur, i) == anc && T.Avoids(TreeOf(v), cur, i, anc)
    decreases i
  {
    FsInvIs(v);
    hide FsInv, TreeOf, NextUp, Own, DirsOK, T.TreeInv, T.Par, WF;
    var t := TreeOf(v);
    T.NoNegative(t, cur);
    if cur == 1 {
      TreePaths.UpRoot(t, i);
    } else if i > 0 {
      NextUpIsPar(v, cur);
      HitsIsUp(v, anc, T.Par(t, cur), i - 1);
      AvoidsStep(t, cur, i, anc);
    }
  }

  /** is_descendant decides the ancestor relation of the ".." chain. */
  lemma DescendantDecides(v: Vol, anc: int, node: int)
    requires FsInv(v) && T.DirIn(TreeOf(v), node) && anc != 1
    ensures IsDescendant(v, anc, node) <==> T.Inside(TreeOf(v), anc, node)
  {
    var t := TreeOf(v);
    if i: nat :| Hits(v, anc, node, i) {
      HitsIsUp(v, anc, node, i);
    }
    if j: nat :| T.Up(t, node, j) == anc {
      T.FirstMeeting(t, node, j + 1, anc);
      var i: nat :| i < j + 1 && T.Up(t, node, i) == anc && T.Avoids(t, node, i, anc);
      HitsIsUp(v, anc, node, i);
    }
  }

  // ---------------------------------------------------------------------
  // Rename

  /** Where the new name does not exist yet the code makes no descendant test; the caller must see to it. */
  ghost predicate FreshOutside(v: Vol, oldpath: seq<Byte>, newpath: seq<Byte>)
    requires WF(v)
  {
    var p := RenamePlan(v, oldpath, newpath);
    p.MoveTo? && p.ent.typ == TYPE_DIR && Resolve(v, newpath) < 0 ==> !T.Inside(TreeOf(v), p.ent.ino, p.newParent)
  }

  /** A plan to move is about a live entry, an allocated target parent and a free name. */
  lemma PlanIs(v: Vol, oldpath: seq<Byte>, newpath: seq<Byte>)
    requires FsInv(v) && NoNul(oldpath) && NoNul(newpath) && RenamePlan(v, oldpath, newpath).MoveTo?
    ensures var p := RenamePlan(v, oldpath, newpath); var t := TreeOf(v);
            && T.Entry(t, p.oldParent, p.slot, p.ent.ino) && t[p.oldParent].log[p.slot].name == p.oldName
            && p.slot == T.Find(t[p.oldParent].log, p.oldName) && Plain(p.oldName)
            && t[p.oldParent].log[p.slot].typ == p.ent.typ && p.ent.ino in t && p.ent.ino != 1
            && (p.ent.typ == 1 <==> T.DirIn(t, p.ent.ino)) && !Protected(t[p.ent.ino].mode)
            && Allocated(v, p.newParent) && ValidName(p.newName) && DirFind(v, p.newParent, p.newName).NotFound?
            && (Resolve(v, newpath) >= 0 && p.ent.typ == 1
               ==> T.DirIn(t, p.newParent) && !T.Inside(t, p.ent.ino, p.newParent))
  {
    FsInvIs(v);
    PlanParts(v, oldpath, newpath);
    PlanOld(v, oldpath, newpath);
    PlanNew(v, oldpath, newpath);
    hide *;
  }

  /** The parts of a plan, as the code computes them. */
  lemma PlanParts(v: Vol, oldpath: seq<Byte>, newpath: seq<Byte>)
    requires RenamePlan(v, oldpath, newpath).MoveTo?
    ensures var p := RenamePlan(v, oldpath, newpath); var op := ResolveParent(v, oldpath);
            var f := DirFind(v, op.parent, op.name);
            var n := Resolve(v, newpath); var np := ResolveParent(v, newpath);
            && op.Target? && f.Found? && p.oldParent == op.parent && p.oldName == op.name && p.slot == f.slot
            && p.ent == f.ent
            && !Protected(GetInode(v, f.ent.ino).mode)
            && ValidName(p.newName) && DirFind(v, p.newParent, p.newName).NotFound?
            && (if n >= 0 && IsDir(GetInode(v, n).mode)
                then p.newParent == n && p.newName == op.name
                    && !(f.ent.typ == TYPE_DIR && IsDescendant(v, f.ent.ino, n))
                else np.Target? && p.newParent == np.parent && p.newName == np.name)
  {
    hide DirFind, ResolveParent, Resolve, IsDescendant, ValidName, GetInode;
  }

  lemma PlanOld(v: Vol, oldpath: seq<Byte>, newpath: seq<Byte>)
    requires FsInv(v) && NoNul(oldpath) && RenamePlan(v, oldpath, newpath).MoveTo?
    ensures var p := RenamePlan(v, oldpath, newpath); var t := TreeOf(v);
            && T.Entry(t, p.oldParent, p.slot, p.ent.ino) && t[p.oldParent].log[p.slot].name == p.oldName
            && p.slot == T.Find(t[p.oldParent].log, p.oldName) && Plain(p.oldName)
            && t[p.oldParent].log[p.slot].typ == p.ent.typ && p.ent.ino in t && p.ent.ino != 1
            && (p.ent.typ == 1 <==> T.DirIn(t, p.ent.ino)) && !Protected(t[p.ent.ino].mode)
  {
    FsInvIs(v);
    PlanParts(v, oldpath, newpath);
    hide FsInv, DirFind, T.TreeInv, IsDescendant, RenamePlan, ResolveParent, Resolve, Own, DirsOK, Plain, ValidName;
    var t := TreeOf(v);
    var op := ResolveParent(v, oldpath);
    ParentIs(v, oldpath);
    FoundEntry(v, op.parent, op.name);
  }

  lemma PlanNew(v: Vol, oldpath: seq<Byte>, newpath: seq<Byte>)
    requires FsInv(v) && NoNul(oldpath) && NoNul(newpath) && RenamePlan(v, oldpath, newpath).MoveTo?
    ensures var p := RenamePlan(v, oldpath, newpath); var t := TreeOf(v);
            && Allocated(v, p.newParent) && ValidName(p.newName) && DirFind(v, p.newParent, p.newName).NotFound?
            && (Resolve(v, newpath) >= 0 && p.ent.typ == 1
               ==> T.DirIn(t, p.newParent) && !T.Inside(t, p.ent.ino, p.newParent))
  {
    FsInvIs(v);
    PlanParts(v, oldpath, newpath);
    PlanOld(v, oldpath, newpath);
    hide FsInv, DirFind, T.TreeInv, IsDescendant, RenamePlan, ResolveParent, Resolve, Own, DirsOK, Plain, ValidName,
      T.Inside, T.Entry, T.Find, TreeOf, Allocated;
    var p := RenamePlan(v, oldpath, newpath);
    var n := Resolve(v, newpath);
    if n >= 0 && IsDir(GetInode(v, n).mode) {
      ResolvedAllocated(v, newpath);
      DirInTree(v, n);
      DescendantDecides(v, p.ent.ino, n);
    } else {
      ParentIs(v, newpath);
      ResolveComposes(v, newpath);
    }
  }

  lemma DirInTree(v: Vol, n: int)
    requires WF(v) && Allocated(v, n) && IsDir(GetInode(v, n).mode)
    ensures T.DirIn(TreeOf(v), n)
  {
  }

  lemma ResolvedAllocated(v: Vol, path: seq<Byte>)
    requires FsInv(v) && NoNul(path) && Resolve(v, path) >= 0
    ensures Allocated(v, Resolve(v, path))
  {
    TokensPlain(path);
    assert Allocated(v, 1) by { assert T.DirIn(TreeOf(v), 1); }
    ResolveIsWalk(v, 1, Tokens(path));
  }

  /** The facts about a plan that its writes rely on. */
  ghost predicate PlanOK(v: Vol, p: Plan) {
    && FsInv(v) && p.MoveTo?
    && (var t := TreeOf(v);
        && T.Entry(t, p.oldParent, p.slot, p.ent.ino) && t[p.oldParent].log[p.slot].name == p.oldName
        && p.slot == T.Find(t[p.oldParent].log, p.oldName) && Plain(p.oldName)
        && t[p.oldParent].log[p.slot].typ == p.ent.typ && p.ent.ino in t && p.ent.ino != 1
        && (p.ent.typ == 1 <==> T.DirIn(t, p.ent.ino)) && !Protected(t[p.ent.ino].mode)
        && Allocated(v, p.newParent) && ValidName(p.newName)
        && (T.DirIn(t, p.newParent) ==> T.Find(t[p.newParent].log, p.newName) == |t[p.newParent].log|))
  }

  lemma PlanOKIs(v: Vol, oldpath: seq<Byte>, newpath: seq<Byte>)
    requires FsInv(v) && NoNul(oldpath) && NoNul(newpath) && RenamePlan(v, oldpath, newpath).MoveTo?
    ensures PlanOK(v, RenamePlan(v, oldpath, newpath))
  {
    FsInvIs(v);
    PlanIs(v, oldpath, newpath);
    hide FsInv, DirFind, T.TreeInv, IsDescendant, RenamePlan, ResolveParent, Resolve, Own, DirsOK, Plain, ValidName,
      T.Inside, T.Entry, T.Find, TreeOf, Allocated;
    var p := RenamePlan(v, oldpath, newpath);
    ValidNameNoNul(p.newName);
    FreeName(v, p.newParent, p.newName);
  }

  /** The volume after the entry was added and ".." was set. */
  function Relinked(v: Vol, p: Plan): (w: Vol)
    requires WF(v) && p.MoveTo?
    ensures WF(w)
  {
    var a := DirAdd(v, p.newParent, p.newName, p.ent.ino, p.ent.typ).v;
    if p.ent.typ == TYPE_DIR && GetInode(a, p.ent.ino).direct[0] != 0 && 0 <= p.newParent < TWO32
    then SetSlotIno(a, p.ent.ino, 1, p.newParent) else a
  }

  lemma PlanTree(v: Vol, p: Plan)
    requires PlanOK(v, p) && T.DirIn(TreeOf(v), p.newParent)
    ensures 0 <= p.newParent < TWO32
    ensures T.MoveReady(TreeOf(v), p.oldParent, p.slot, p.ent.ino, p.newParent, p.newName)
  {
  }

  lemma RelinkedTree(v: Vol, p: Plan)
    requires PlanOK(v, p) && DirAdd(v, p.newParent, p.newName, p.ent.ino, p.ent.typ).ok
    ensures T.DirIn(TreeOf(v), p.newParent) && 0 <= p.newParent < TWO32
    ensures var t1 := T.Add(TreeOf(v), p.newParent, p.newName, p.ent.ino, p.ent.typ); var w := Relinked(v, p);
            && Owned(w) && DirsOK(w)
            && TreeOf(w) == (if p.ent.typ == 1 then T.SetPar(t1, p.ent.ino, p.newParent) else t1)
            && (var a := DirAdd(v, p.newParent, p.newName, p.ent.ino, p.ent.typ).v;
                if p.ent.typ == 1 then OffX(a, w, p.ent.ino) else w == a)
  {
    PlanFacts(v, p);
    hide PlanOK, FsInv;
    RelinkStep(v, p);
  }

  lemma RelinkStep(v: Vol, p: Plan)
    requires p.MoveTo? && Owned(v) && DirsOK(v) && Allocated(v, p.newParent) && 0 < p.newParent < TWO32
             && p.ent.ino != 0
    requires DirAdd(v, p.newParent, p.newName, p.ent.ino, p.ent.typ).ok
    requires p.ent.typ == 1 ==> var t := TreeOf(v); var m := p.ent.ino;
             T.DirIn(t, m) && |t[m].log| >= 2 && t[m].log[1].Live?
    ensures T.DirIn(TreeOf(v), p.newParent)
    ensures var t1 := T.Add(TreeOf(v), p.newParent, p.newName, p.ent.ino, p.ent.typ); var w := Relinked(v, p);
            && Owned(w) && DirsOK(w)
            && TreeOf(w) == (if p.ent.typ == 1 then T.SetPar(t1, p.ent.ino, p.newParent) else t1)
            && (var a := DirAdd(v, p.newParent, p.newName, p.ent.ino, p.ent.typ).v;
                if p.ent.typ == 1 then OffX(a, w, p.ent.ino) else w == a)
  {
    hide DirAdd, Own, DirsOK, SetSlotIno, TreeOf, T.SetPar, OffX;
    var t := TreeOf(v);
    var m := p.ent.ino;
    var a := DirAdd(v, p.newParent, p.newName, m, p.ent.typ).v;
    AddOutcome(v, p.newParent, p.newName, m, p.ent.typ);
    if p.ent.typ == 1 {
      var t1 := T.Add(t, p.newParent, p.newName, m, p.ent.typ);
      assert T.DirIn(t1, m) && t1[m].log[1] == t[m].log[1];
      SetParTree(a, m, p.newParent);
    }
  }

  lemma PlanFacts(v: Vol, p: Plan)
    requires PlanOK(v, p)
    ensures WF(v) && Owned(v) && DirsOK(v) && p.MoveTo?
    ensures p.ent.ino != 0 && p.ent.ino in TreeOf(v) && (p.ent.typ == 1 <==> T.DirIn(TreeOf(v), p.ent.ino))
            && Allocated(v, p.newParent)
    ensures 0 < p.newParent < TWO32
    ensures p.ent.typ == 1 ==> var t := TreeOf(v); var m := p.ent.ino;
            T.DirIn(t, m) && |t[m].log| >= 2 && t[m].log[1].Live?
  {
    var t := TreeOf(v);
    if T.DirIn(t, p.ent.ino) { assert T.Dotted(t, p.ent.ino); }
    hide Own, DirsOK, NodeOf;
  }

  lemma SetParTree(a: Vol, m: int, q: Word)
    requires Owned(a) && DirsOK(a) && T.DirIn(TreeOf(a), m) && q != 0
    requires |TreeOf(a)[m].log| >= 2 && TreeOf(a)[m].log[1].Live?
    ensures var w := SetSlotIno(a, m, 1, q);
            && GetInode(a, m).direct[0] != 0 && Owned(w) && DirsOK(w) && TreeOf(w) == T.SetPar(TreeOf(a), m, q)
            && OffX(a, w, m)
  {
    var din := GetInode(a, m);
    AllocatedDirOK(a, m);
    DotDotBlock(a, din);
    hide Own, DirsOK, SetSlotIno, DirOK, LogEdit;
    SetSlotInoEffect(a, m, 1, q);
    var log := Log(a, din);
    EditTree(a, SetSlotIno(a, m, 1, q), m, log[1 := log[1].(ino := q)]);
    LogEditOff(a, SetSlotIno(a, m, 1, q), m, log[1 := log[1].(ino := q)]);
  }

  /** In the directory left behind, the old name is still at its slot. */
  lemma OldSlot(t: T.Tree, d: int, e: int, m: int, q: int, name: Name, s: Name)
    requires T.MoveReady(t, d, e, m, q, name) && t[d].log[e].name == s && e == T.Find(t[d].log, s) && s != DOT
             && s != DOTDOT
    ensures var typ := t[d].log[e].typ; var t1 := T.Add(t, q, name, m, typ);
            var t2 := if typ == 1 then T.SetPar(t1, m, q) else t1;
            && T.DirIn(t2, d) && T.Find(t2[d].log, s) == e < |t2[d].log| && t2[d].log[e] == t[d].log[e] && m in t2
            && t2[m].mode == t[m].mode
            && T.Bury(t2, d, e) == T.Move(t, d, e, m, q, name)
  {
    T.MoveReadyFacts(t, d, e, m, q, name);
    assert T.Dotted(t, d);
    var typ := t[d].log[e].typ;
    hide T.TreeInv;
    TreePaths.FindMoved(t[d].log, d == q, d == m && typ == 1, name, m, typ, q, s);
  }

  lemma MoveEffect(v: Vol, p: Plan)
    requires PlanOK(v, p)
    ensures var r := MoveEntry(v, p); var t := TreeOf(v);
            && Owned(r.v) && DirsOK(r.v)
            && (r.ok <==> DirAdd(v, p.newParent, p.newName, p.ent.ino, p.ent.typ).ok)
            && (if r.ok then
                  && 0 <= p.newParent < TWO32 && T.MoveReady(t, p.oldParent, p.slot, p.ent.ino, p.newParent, p.newName)
                  && TreeOf(r.v) == T.Move(t, p.oldParent, p.slot, p.ent.ino, p.newParent, p.newName)
                else TreeOf(r.v) == t)
  {
    FsInvIs(v);
    var t := TreeOf(v);
    var r := MoveEntry(v, p);
    if !DirAdd(v, p.newParent, p.newName, p.ent.ino, p.ent.typ).ok {
      hide DirAdd, FsInv, Own, DirsOK;
      AddOutcome(v, p.newParent, p.newName, p.ent.ino, p.ent.typ);
    } else {
      RelinkedTree(v, p);
      PlanTree(v, p);
      var w := Relinked(v, p);
      assert r == DirRemove(w, p.oldParent, p.oldName);
      hide DirAdd, FsInv, Own, DirsOK, T.TreeInv, DirRemove, Relinked, MoveEntry, T.MoveReady, T.Entry;
      OldSlot(t, p.oldParent, p.slot, p.ent.ino, p.newParent, p.newName, p.oldName);
      BuryTree(w, p.oldParent, p.slot, p.oldName);
    }
  }

  /** Removing a name from an allocated directory buries its slot, unless the inode it names is protected. */
  lemma BuryTree(w: Vol, d: int, e: nat, s: Name)
    requires Owned(w) && DirsOK(w) && T.DirIn(TreeOf(w), d) && Plain(s)
    requires T.Find(TreeOf(w)[d].log, s) == e < |TreeOf(w)[d].log|
    requires var m := TreeOf(w)[d].log[e].ino; m in TreeOf(w) && !Protected(TreeOf(w)[m].mode)
    ensures var r := DirRemove(w, d, s);
            r.ok && Owned(r.v) && DirsOK(r.v) && TreeOf(r.v) == T.Bury(TreeOf(w), d, e) && OffX(w, r.v, d)
  {
    AllocatedDirOK(w, d);
    hide Own, DirsOK, DirRemove, DirOK, LogEdit, LogFind;
    DirRemoveEffect(w, d, s);
    var log := Log(w, GetInode(w, d));
    FindIs(log, s);
    EditTree(w, DirRemove(w, d, s).v, d, log[e := Tomb]);
    LogEditOff(w, DirRemove(w, d, s).v, d, log[e := Tomb]);
  }

  /**
   * A rename either changes nothing in the tree, or moves one entry; the tree invariant survives it, given
   * that a directory is not renamed to a fresh name inside itself.
   */
  lemma RenameEffect(v: Vol, oldpath: seq<Byte>, newpath: seq<Byte>)
    requires FsInv(v) && NoNul(oldpath) && NoNul(newpath)
    ensures var r := Rename(v, oldpath, newpath); var p := RenamePlan(v, oldpath, newpath); var t := TreeOf(v);
            && Owned(r.v) && DirsOK(r.v)
            && (if r.ok && p.MoveTo? then
                  && 0 <= p.newParent < TWO32 && T.MoveReady(t, p.oldParent, p.slot, p.ent.ino, p.newParent, p.newName)
                  && !Protected(t[p.ent.ino].mode)
                  && TreeOf(r.v) == T.Move(t, p.oldParent, p.slot, p.ent.ino, p.newParent, p.newName)
                else TreeOf(r.v) == t)
            && (FreshOutside(v, oldpath, newpath) ==> FsInv(r.v))
  {
    FsInvIs(v);
    hide FsInv, Own, DirsOK, T.TreeInv, RenamePlan, MoveEntry, T.MoveReady, TreeOf, T.Move, Resolve;
    var p := RenamePlan(v, oldpath, newpath);
    var r := Rename(v, oldpath, newpath);
    FsInvIs(r.v);
    if p.MoveTo? {
      PlanOKIs(v, oldpath, newpath);
      MoveEffect(v, p);
      PlanProtected(v, p);
      if r.ok && FreshOutside(v, oldpath, newpath) {
        PlanIs(v, oldpath, newpath);
        T.MoveKeeps(TreeOf(v), p.oldParent, p.slot, p.ent.ino, p.newParent, p.newName);
      }
    }
  }

  lemma PlanProtected(v: Vol, p: Plan)
    requires PlanOK(v, p)
    ensures p.ent.ino in TreeOf(v) && !Protected(TreeOf(v)[p.ent.ino].mode)
  {
  }

  /** Renaming a directory to a fresh name keeps the tree if and only if the new place is not inside it. */
  lemma RenameKeepsIff(v: Vol, oldpath: seq<Byte>, newpath: seq<Byte>)
    requires FsInv(v) && NoNul(oldpath) && NoNul(newpath)
    requires RenamePlan(v, oldpath, newpath).MoveTo? && Rename(v, oldpath, newpath).ok
    requires RenamePlan(v, oldpath, newpath).ent.typ == TYPE_DIR
    ensures var p := RenamePlan(v, oldpath, newpath);
            FsInv(Rename(v, oldpath, newpath).v) <==> !T.Inside(TreeOf(v), p.ent.ino, p.newParent)
  {
    FsInvIs(v);
    PlanIs(v, oldpath, newpath);
    RenameEffect(v, oldpath, newpath);
    hide FsInv, Own, DirsOK, T.TreeInv, RenamePlan, MoveEntry, T.MoveReady, TreeOf, T.Move, Resolve, Rename, T.Entry,
      Plain, DirFind;
    var p := RenamePlan(v, oldpath, newpath);
    FsInvIs(Rename(v, oldpath, newpath).v);
    TreePaths.MoveKeepsIff(TreeOf(v), p.oldParent, p.slot, p.ent.ino, p.newParent, p.newName);
  }
}
