/**
 * Rename where directories may lack their dots. For a directory it stores the new parent into slot 1, which need not be
 * the ".." slot: exactly when that keeps every inode named once.
 */
module DotlessMoves {
  import opened Bytes
  import opened Volume
  import opened BlockMap
  import opened FileData
  import opened Inodes
  import opened Directory
  import opened Paths
  import opened Api
  import opened Owners
  import opened VolTree
  import opened Calls
  import opened Format
  import opened Dotless
  import T = Tree

  // ---------------------------------------------------------------------
  // The plan

  /** What holds when rename reaches its writes. */
  ghost predicate Going(v: Vol, p: Plan)
    requires WF(v)
  {
    && Sound(v) && p.MoveTo?
    && (var t := TreeOf(v); var m := p.ent.ino;
        && Proper(t, p.oldParent, p.slot, m) && t[p.oldParent].log[p.slot].name == p.oldName
        && t[p.oldParent].log[p.slot].typ == p.ent.typ && p.slot == T.Find(t[p.oldParent].log, p.oldName)
        && Plain(p.oldName) && m in t && m > 1 && p.oldParent != m
        && Allocated(v, p.newParent) && 0 < p.newParent < TWO32 && (p.newParent == 1 || Named(t, p.newParent))
        && ValidName(p.newName)
        && (T.DirIn(t, p.newParent) ==> T.Find(t[p.newParent].log, p.newName) == |t[p.newParent].log|))
  }

  lemma PlanGoing(v: Vol, oldpath: seq<Byte>, newpath: seq<Byte>)
    requires WF(v) && Sound(v) && NoNul(oldpath) && NoNul(newpath) && RenamePlan(v, oldpath, newpath).MoveTo?
    ensures Going(v, RenamePlan(v, oldpath, newpath))
  {
    OldGoing(v, oldpath, newpath);
    NewGoing(v, oldpath, newpath);
    hide *;
    GoingIs(v, RenamePlan(v, oldpath, newpath));
  }

  lemma GoingIs(v: Vol, p: Plan)
    requires WF(v) && Sound(v) && OldSide(v, p) && NewSide(v, p)
    ensures Going(v, p)
  {
    hide Sound, TreeOf, Proper, T.Find, Plain, ValidName, Named;
  }

  ghost predicate OldSide(v: Vol, p: Plan)
    requires WF(v)
  {
    && p.MoveTo?
    && (var t := TreeOf(v); var m := p.ent.ino;
        && Proper(t, p.oldParent, p.slot, m) && t[p.oldParent].log[p.slot].name == p.oldName
        && t[p.oldParent].log[p.slot].typ == p.ent.typ && p.slot == T.Find(t[p.oldParent].log, p.oldName)
        && Plain(p.oldName) && m in t && m > 1 && p.oldParent != m)
  }

  ghost predicate NewSide(v: Vol, p: Plan)
    requires WF(v)
  {
    && p.MoveTo?
    && (var t := TreeOf(v);
        && Allocated(v, p.newParent) && 0 < p.newParent < TWO32 && (p.newParent == 1 || Named(t, p.newParent))
        && ValidName(p.newName)
        && (T.DirIn(t, p.newParent) ==> T.Find(t[p.newParent].log, p.newName) == |t[p.newParent].log|))
  }

  lemma OldGoing(v: Vol, oldpath: seq<Byte>, newpath: seq<Byte>)
    requires WF(v) && Sound(v) && NoNul(oldpath) && RenamePlan(v, oldpath, newpath).MoveTo?
    ensures OldSide(v, RenamePlan(v, oldpath, newpath))
  {
    PlanParts(v, oldpath, newpath);
    hide RenamePlan, DirFind, ResolveParent, Resolve, IsDescendant, ValidName, GetInode, Sound, TreeOf, Proper, T.Find,
      Plain, SlotOf, Linked;
    var p := RenamePlan(v, oldpath, newpath);
    SoundRoot(v);
    SoundParent(v, oldpath);
    SoundStep(v, p.oldParent, p.oldName);
    FoundName(v, p.oldParent, p.oldName);
    EntFields(p.ent);
    ParentOther(v, oldpath, p.slot, p.ent.ino);
    ProperIn(TreeOf(v), p.oldParent, p.slot, p.ent.ino);
  }

  lemma FoundName(v: Vol, d: int, s: Name)
    requires Sound(v) && Allocated(v, d) && Plain(s) && DirFind(v, d, s).Found?
    ensures var f := DirFind(v, d, s); var t := TreeOf(v);
            d in t && f.slot < |t[d].log| && t[d].log[f.slot].Live? && t[d].log[f.slot].name == s
  {
    SoundRoot(v);
    DirFindIn(v, d, s);
    hide Sound, DirFind, TreeOf;
  }

  lemma EntFields(ent: DirEnt)
    ensures SlotOf(ent).Live? ==> SlotOf(ent).typ == ent.typ && SlotOf(ent).ino == ent.ino
  {
  }

  lemma ProperIn(t: T.Tree, d: int, e: int, n: int)
    requires Linked(t) && Proper(t, d, e, n)
    ensures n in t && n > 1 && d in t && 0 <= e < |t[d].log| && t[d].log[e].Live?
  {
  }

  lemma NewGoing(v: Vol, oldpath: seq<Byte>, newpath: seq<Byte>)
    requires WF(v) && Sound(v) && NoNul(oldpath) && NoNul(newpath) && RenamePlan(v, oldpath, newpath).MoveTo?
    ensures NewSide(v, RenamePlan(v, oldpath, newpath))
  {
    hide *;
    PlanParts(v, oldpath, newpath);
    var p := RenamePlan(v, oldpath, newpath);
    var n := Resolve(v, newpath);
    SoundRoot(v);
    TokensPlain(newpath);
    ResolveIs(v, newpath);
    if n >= 0 && IsDir(GetInode(v, n).mode) {
      SoundWalk(v, 1, Tokens(newpath));
      Reached(v, Tokens(newpath));
    } else {
      SoundParent(v, newpath);
      var front := Tokens(newpath)[..|Tokens(newpath)| - 1];
      SoundWalk(v, 1, front);
      Reached(v, front);
    }
    NameThere(v, p.newParent, p.newName);
    NewSideIs(v, p);
  }

  lemma NewSideIs(v: Vol, p: Plan)
    requires WF(v) && p.MoveTo? && Allocated(v, p.newParent) && ValidName(p.newName)
    requires (p.newParent <= 1 || Named(TreeOf(v), p.newParent)) && 0 < p.newParent < TWO32
    requires var t := TreeOf(v);
             T.DirIn(t, p.newParent) ==> T.Find(t[p.newParent].log, p.newName) == |t[p.newParent].log|
    ensures NewSide(v, p)
  {
    hide TreeOf, ValidName, T.Find, Named;
  }

  lemma ResolveIs(v: Vol, path: seq<Byte>)
    ensures Resolve(v, path) == ResolveFrom(v, 1, Tokens(path))
  {
  }

  lemma NameThere(v: Vol, d: int, s: Name)
    requires Sound(v) && Allocated(v, d) && ValidName(s) && DirFind(v, d, s).NotFound?
    ensures T.DirIn(TreeOf(v), d) ==> T.Find(TreeOf(v)[d].log, s) == |TreeOf(v)[d].log|
    ensures 0 < d < TWO32
  {
    SoundRoot(v);
    ValidNameNoNul(s);
    DirFindIn(v, d, s);
    hide Sound, DirFind, TreeOf;
  }

  /** What a path leads to is the root or has a proper entry. */
  lemma Reached(v: Vol, toks: seq<Name>)
    requires WF(v) && Sound(v) && AllPlain(toks)
    ensures var n := ResolveFrom(v, 1, toks); n <= 1 || Named(TreeOf(v), n)
  {
    var n := ResolveFrom(v, 1, toks);
    if n > 1 && !Named(TreeOf(v), n) { Unnamed(v, n, toks); }
    hide Sound, Named;
  }

  // ---------------------------------------------------------------------
  // Slot 1

  /** The name a stored entry has when it is live. */
  function StoredName(e: DirEnt): Name { e.name[..Min(64, e.len)] }

  /**
   * Slot 1 of directory m can take the new parent q: it is not there yet, or it is well stored under a dot name, or it
   * names q already.
   */
  ghost predicate SlotOneFits(v: Vol, m: int, q: Word) {
    SlotCount(GetInode(v, m)) < 2
    || (var e := EntryOf(v, GetInode(v, m), 1);
        GoodEnt(e.(ino := q)) && (StoredName(e) == DOT || StoredName(e) == DOTDOT || e.ino == q))
  }

  /** An add leaves the slots of every directory as they were, and appends to its own. */
  lemma AddSlots(v: Vol, d: int, name: Name, n: Word, typ: Byte, m: int, f: nat)
    requires Owned(v) && DirsOK(v) && Allocated(v, d) && InoValid(v, m) && n != 0 && DirAdd(v, d, name, n, typ).ok
    ensures var w := DirAdd(v, d, name, n, typ).v;
            && SlotCount(GetInode(w, m)) == SlotCount(GetInode(v, m)) + (if m == d then 1 else 0)
            && (m != d || f != SlotCount(GetInode(v, d))
               ==> EntryOf(w, GetInode(w, m), f) == EntryOf(v, GetInode(v, m), f))
            && (m == d && f == SlotCount(GetInode(v, d)) ==> EntryOf(w, GetInode(w, m), f).ino == n)
  {
    hide Own, DirsOK, LogEdit, EntryOf, Full, DirOK, GetBlock, PutEntry, FindFrom, SetBlk, Blk, Undisturbed;
    var w := DirAdd(v, d, name, n, typ).v;
    AllocatedDirOK(v, d);
    DirAddEffect(v, d, name, n, typ);
    LogEditSlots(v, w, d, Log(v, GetInode(v, d)) + [Live(name, n, typ)], m, f);
    AddAppendsSlot(v, d, NewEnt(name, n, typ), f);
  }

  lemma LogEditSlots(v: Vol, w: Vol, d: int, log: seq<Slot>, m: int, f: nat)
    requires LogEdit(v, w, d, log) && InoValid(v, m)
    ensures m != d ==>
              GetInode(w, m) == GetInode(v, m) && EntryOf(w, GetInode(w, m), f) == EntryOf(v, GetInode(v, m), f)
    ensures SlotCount(GetInode(w, d)) == |log|
  {
    hide DirOK, Own;
    if m != d { UndisturbedEntry(v, w, GetInode(v, m), f); }
  }

  lemma UndisturbedEntry(v: Vol, w: Vol, a: Inode, f: nat)
    requires Undisturbed(v, w, a)
    ensures EntryOf(w, a, f) == EntryOf(v, a, f)
  {
    if f / 7 < MAP_LIMIT { PathIsChain(f / 7); }
  }

  /** Storing into slot 1 of a directory that has no such slot yet. */
  lemma SetSpare(v: Vol, m: int, q: Word)
    requires Owned(v) && InoValid(v, m) && DirOK(v, GetInode(v, m)) && SlotCount(GetInode(v, m)) < 2
    ensures LogEdit(v, SetSlotIno(v, m, 1, q), m, Log(v, GetInode(v, m)))
  {
    hide EntryOf, SetBlk, Own, Grew, P, Blk, PutEntry, Undisturbed, GoodEnt;
    var din := GetInode(v, m);
    var p := Lookup(v, din, 0);
    var w := SetSlotIno(v, m, 1, q);
    SetSlotKept(v, m, 1, q);
    assert 1 / 7 == 0;
    if p == 0 {
      NoStore(v, m, q);
      LogEditRefl(v, m);
    } else {
      var ent := EntryOf(v, din, 1).(ino := q);
      SetBlkShape(v, p, PutEntry(Blk(v, p), 1, ent));
      forall k | InoValid(v, k) && k != m
        ensures GetInode(w, k) == GetInode(v, k)
                && Undisturbed(v, w, GetInode(v, k))
      {
        StoreUndisturbed(v, m, 0, PutEntry(Blk(v, p), 1, ent), k);
      }
      forall f: nat
        ensures EntryOf(w, din, f) == (if f == 1 then ent else EntryOf(v, din, f))
                && Lookup(w, din, f / 7) == Lookup(v, din, f / 7)
      {
        PutSlot(v, v.inodes, m - 1, 1, ent, f);
      }
      forall f | 0 <= f < SlotCount(din) ensures GoodSlot(w, din, f) { assert GoodSlot(v, din, f); }
      assert Log(w, din) == Log(v, din);
    }
  }

  lemma NoStore(v: Vol, m: int, q: Word)
    requires WF(v) && Lookup(v, GetInode(v, m), 0) == 0
    ensures SetSlotIno(v, m, 1, q) == v
  {
  }

  /** Storing into slot 1 of a directory that has one. */
  lemma SetSecond(v: Vol, m: int, q: Word)
    requires Owned(v) && InoValid(v, m) && DirOK(v, GetInode(v, m)) && SlotCount(GetInode(v, m)) >= 2
    ensures var w := SetSlotIno(v, m, 1, q); var e := EntryOf(v, GetInode(v, m), 1).(ino := q);
            && w.inodes == v.inodes && w.inoUsed == v.inoUsed && EntryOf(w, GetInode(w, m), 1) == e
            && (GoodEnt(e) ==> LogEdit(v, w, m, Log(v, GetInode(v, m))[1 := SlotOf(e)]))
  {
    hide EntryOf, SetBlk, Own, P, Blk, PutEntry, Undisturbed, GoodEnt, LogEdit;
    var din := GetInode(v, m);
    assert GoodSlot(v, din, 1);
    var e := EntryOf(v, din, 1).(ino := q);
    PutSlot(v, v.inodes, m - 1, 1, e, 1);
    SetSlotKept(v, m, 1, q);
    StoreKept(v, m, 0, PutEntry(Blk(v, Lookup(v, din, 0)), 1, e));
    if GoodEnt(e) { PutSlotEdit(v, m, 1, e); }
  }

  /** The volume after the add and the store into slot 1. */
  lemma RelinkedIs(v: Vol, p: Plan)
    requires WF(v) && p.MoveTo? && 0 <= p.newParent < TWO32
    ensures var a := DirAdd(v, p.newParent, p.newName, p.ent.ino, p.ent.typ).v;
            Relinked(v, p) == if p.ent.typ == TYPE_DIR then SetSlotIno(a, p.ent.ino, 1, p.newParent) else a
  {
    hide DirAdd, SetBlk, PutEntry, Blk;
    var a := DirAdd(v, p.newParent, p.newName, p.ent.ino, p.ent.typ).v;
    if GetInode(a, p.ent.ino).direct[0] == 0 {
      assert LeafOf(0) == Direct(0);
      NoStore(a, p.ent.ino, p.newParent);
    }
  }

  // ---------------------------------------------------------------------
  // In the tree

  /** The tree after the entry was added, slot 1 of m replaced where given, and the old entry buried. */
  function Moved(t: T.Tree, d: int, e: int, m: int, q: int, name: Name, typ: Byte, s: seq<Slot>): T.Tree
    requires d in t && q in t && m in t && 0 <= e < |t[d].log| && 0 <= m < TWO32
  {
    var t1 := T.Add(t, q, name, m, typ);
    var t2 := if s != [] && |t1[m].log| >= 2 then t1[m := T.Node(t1[m].mode, t1[m].log[1 := s[0]])] else t1;
    T.Bury(t2, d, e)
  }

  /** Without a change in slot 1, one entry moves. */
  lemma MovedProper(t: T.Tree, d: int, e: int, m: int, q: int, name: Name, typ: Byte, x: int, f: int, k: int)
    requires Linked(t) && Proper(t, d, e, m) && T.DirIn(t, q) && ValidName(name) && m < TWO32
    ensures var u := Moved(t, d, e, m, q, name, typ, []);
            Proper(u, x, f, k) <==> (Proper(t, x, f, k) && !(x == d && f == e)) || (x == q && f == |t[q].log| && k == m)
  {
    var u := Moved(t, d, e, m, q, name, typ, []);
    if x in t && x != d && x != q { assert u[x] == t[x]; }
  }

  lemma MovedLinked(t: T.Tree, d: int, e: int, m: int, q: int, name: Name, typ: Byte)
    requires Linked(t) && Proper(t, d, e, m) && T.DirIn(t, q) && ValidName(name) && m < TWO32
    ensures Linked(Moved(t, d, e, m, q, name, typ, []))
  {
    var u := Moved(t, d, e, m, q, name, typ, []);
    forall x, f, k
      ensures Proper(u, x, f, k)
              <==> (Proper(t, x, f, k) && !(x == d && f == e)) || (x == q && f == |t[q].log| && k == m)
    {
      MovedProper(t, d, e, m, q, name, typ, x, f, k);
    }
    assert u.Keys == t.Keys && T.DirIn(u, 1);
    hide Proper, Moved;
  }

  /** Slot 1 replaced by a live slot for q: every inode is named once if and only if that adds no proper entry. */
  lemma SetLinkedIff(t: T.Tree, d: int, e: int, m: int, q: int, name: Name, typ: Byte, s: Slot)
    requires Linked(t) && Proper(t, d, e, m) && T.DirIn(t, q) && T.DirIn(t, m) && ValidName(name) && m < TWO32 && d != m
    requires q == 1 || Named(t, q)
    requires var log := T.Add(t, q, name, m, typ)[m].log;
             |log| >= 2 && s.Live? && s.ino == q && (log[1].Live? ==> s == log[1].(ino := s.ino))
    ensures var log := T.Add(t, q, name, m, typ)[m].log;
            Linked(Moved(t, d, e, m, q, name, typ, [s])) <==> s.name == DOT || s.name == DOTDOT || log[1] == s
  {
    var u0 := Moved(t, d, e, m, q, name, typ, []);
    var u := Moved(t, d, e, m, q, name, typ, [s]);
    var log := T.Add(t, q, name, m, typ)[m].log;
    MovedLinked(t, d, e, m, q, name, typ);
    assert u0[m].log == log && u[m] == T.Node(t[m].mode, log[1 := s]);
    assert forall x :: x in t && x != m ==> u[x] == u0[x];
    assert u.Keys == u0.Keys == t.Keys;
    if s.name == DOT || s.name == DOTDOT || log[1] == s {
      SameProper(u0, u, m, s);
    } else {
      assert Proper(u, m, 1, q);
      if q != 1 {
        var x, f := OtherEntry(t, d, e, m, q, name, typ, u0);
        assert x != m || f != 1;
        assert Proper(u, x, f, q);
      }
    }
  }

  /** A slot replaced by one that is no proper entry where there was none, or by itself. */
  lemma SameProper(t: T.Tree, u: T.Tree, m: int, s: Slot)
    requires Linked(t) && m in t && |t[m].log| >= 2 && u == t[m := T.Node(t[m].mode, t[m].log[1 := s])] && s.Live?
    requires t[m].log[1] == s
             || ((s.name == DOT || s.name == DOTDOT) && (t[m].log[1].Live? ==> t[m].log[1].name == s.name))
    ensures Linked(u)
  {
    forall x, f, k ensures Proper(u, x, f, k) <==> Proper(t, x, f, k) {
      if x in t && x != m { assert u[x] == t[x]; }
    }
    assert T.DirIn(u, 1);
    hide Proper;
  }

  /** In the moved tree q has an entry that is not slot 1 of m, unless that slot names it. */
  lemma OtherEntry(t: T.Tree, d: int, e: int, m: int, q: int, name: Name, typ: Byte, u0: T.Tree)
        returns (x: int, f: int)
    requires Linked(t) && Proper(t, d, e, m) && T.DirIn(t, q) && m in t && ValidName(name) && m < TWO32 && Named(t, q)
             && d != m
    requires u0 == Moved(t, d, e, m, q, name, typ, [])
    ensures Proper(u0, x, f, q)
  {
    if q == m {
      x, f := q, |t[q].log|;
    } else {
      x, f :| Proper(t, x, f, q);
    }
    MovedProper(t, d, e, m, q, name, typ, x, f, q);
    hide Proper, Moved;
  }

  // ---------------------------------------------------------------------
  // On the volume

  /** A removal that goes ahead buries the slot found by the name. */
  lemma RemoveTree(w: Vol, d: int, e: nat, s: Name)
    requires Owned(w) && DirsOK(w) && T.DirIn(TreeOf(w), d) && NoNul(s) && DirRemove(w, d, s).ok
    requires T.Find(TreeOf(w)[d].log, s) == e < |TreeOf(w)[d].log|
    ensures var r := DirRemove(w, d, s); Owned(r.v) && DirsOK(r.v) && TreeOf(r.v) == T.Bury(TreeOf(w), d, e)
  {
    NodeIs(w, d);
    hide Own, DirsOK, DirRemove, DirOK, LogEdit, LogFind, TreeOf;
    DirRemoveEffect(w, d, s);
    var log := Log(w, GetInode(w, d));
    FindIs(log, s);
    EditTree(w, DirRemove(w, d, s).v, d, log[e := Tomb]);
  }

  /** The old entry is found where it was after the add, whatever happens to slot 1 of the moved directory. */
  lemma OldFound(t: T.Tree, d: int, e: int, m: int, q: int, name: Name, typ: Byte, s: Name)
    requires T.DirIn(t, d) && T.DirIn(t, q) && T.Find(t[q].log, name) == |t[q].log| && m in t && 0 <= m < TWO32
    requires T.Find(t[d].log, s) == e < |t[d].log|
    ensures var t1 := T.Add(t, q, name, m, typ); T.Find(t1[d].log, s) == e < |t1[d].log|
  {
    if d == q { T.FindAppend(t[q].log, name, m, typ, s); }
  }

  /** The parts of a rename that went ahead. */
  lemma MoveParts(v: Vol, p: Plan)
    requires WF(v) && Going(v, p) && MoveEntry(v, p).ok
    ensures var a := DirAdd(v, p.newParent, p.newName, p.ent.ino, p.ent.typ); var t := TreeOf(v);
            && a.ok && Owned(a.v) && DirsOK(a.v) && T.DirIn(t, p.newParent) && T.DirIn(t, p.oldParent) && p.ent.ino in t
            && a.v.inoUsed == v.inoUsed && |a.v.inodes| == |v.inodes|
            && TreeOf(a.v) == T.Add(t, p.newParent, p.newName, p.ent.ino, p.ent.typ)
            && MoveEntry(v, p) == DirRemove(Relinked(v, p), p.oldParent, p.oldName)
            && T.Find(TreeOf(a.v)[p.oldParent].log, p.oldName) == p.slot < |TreeOf(a.v)[p.oldParent].log|
            && NoNul(p.oldName) && Linked(t)
  {
    SoundRoot(v);
    ProperDir(TreeOf(v), p.oldParent, p.slot, p.ent.ino);
    hide Sound, Own, DirsOK, DirAdd, DirRemove, SetSlotIno, TreeOf, Linked, Proper, T.Find, Named, ValidName, GetInode;
    AddOutcome(v, p.newParent, p.newName, p.ent.ino, p.ent.typ);
    OldFound(TreeOf(v), p.oldParent, p.slot, p.ent.ino, p.newParent, p.newName, p.ent.typ, p.oldName);
  }

  lemma ProperDir(t: T.Tree, d: int, e: int, n: int)
    requires Proper(t, d, e, n)
    ensures T.DirIn(t, d) && 0 <= e < |t[d].log|
  {
  }

  /** Slot 1 was not touched, or is no slot yet. */
  lemma MoveUnset(v: Vol, p: Plan)
    requires WF(v) && Going(v, p) && MoveEntry(v, p).ok
    requires var a := DirAdd(v, p.newParent, p.newName, p.ent.ino, p.ent.typ).v; var w := Relinked(v, p);
             Owned(w) && DirsOK(w) && TreeOf(w) == TreeOf(a)
    ensures Sound(MoveEntry(v, p).v)
  {
    MoveParts(v, p);
    MoveWord(v, p);
    hide Own, DirsOK, DirAdd, DirRemove, SetSlotIno, TreeOf, Linked, Proper, T.Find, Named, ValidName, GetInode, Sound,
      MoveEntry, Relinked;
    var t := TreeOf(v);
    RemoveTree(Relinked(v, p), p.oldParent, p.slot, p.oldName);
    MovedLinked(t, p.oldParent, p.slot, p.ent.ino, p.newParent, p.newName, p.ent.typ);
    SoundIs(MoveEntry(v, p).v);
  }

  lemma MoveWord(v: Vol, p: Plan)
    requires WF(v) && Going(v, p)
    ensures p.MoveTo? && Proper(TreeOf(v), p.oldParent, p.slot, p.ent.ino) && ValidName(p.newName)
            && p.oldParent != p.ent.ino
    ensures 0 < p.newParent < TWO32 && (p.newParent == 1 || Named(TreeOf(v), p.newParent)) && Allocated(v, p.newParent)
    ensures p.ent.ino in TreeOf(v) && p.ent.ino != 0 && Sound(v)
  {
    hide Sound, TreeOf, Proper, ValidName, Named;
  }

  /** Slot 1 was overwritten by a well stored entry. */
  lemma MoveSet(v: Vol, p: Plan, s: Slot)
    requires WF(v) && Going(v, p) && MoveEntry(v, p).ok && T.DirIn(TreeOf(v), p.ent.ino)
    requires var a := DirAdd(v, p.newParent, p.newName, p.ent.ino, p.ent.typ).v; var m := p.ent.ino;
             var w := Relinked(v, p);
             && m in TreeOf(a) && |TreeOf(a)[m].log| >= 2 && Owned(w) && DirsOK(w)
             && TreeOf(w) == TreeOf(a)[m := T.Node(TreeOf(a)[m].mode, TreeOf(a)[m].log[1 := s])]
             && s.Live? && s.ino == p.newParent
             && (TreeOf(a)[m].log[1].Live? ==> s == TreeOf(a)[m].log[1].(ino := s.ino))
    ensures var a := DirAdd(v, p.newParent, p.newName, p.ent.ino, p.ent.typ).v;
            Sound(MoveEntry(v, p).v) <==> s.name == DOT || s.name == DOTDOT || TreeOf(a)[p.ent.ino].log[1] == s
  {
    MoveParts(v, p);
    MoveWord(v, p);
    hide Own, DirsOK, DirAdd, DirRemove, SetSlotIno, TreeOf, Linked, Proper, T.Find, Named, ValidName, GetInode,
      MoveEntry, Relinked, Going;
    var t := TreeOf(v);
    var w := Relinked(v, p);
    SetTree(t, p.oldParent, p.slot, p.ent.ino, p.newParent, p.newName, p.ent.typ, s, TreeOf(w));
    RemoveTree(w, p.oldParent, p.slot, p.oldName);
    SoundIff(MoveEntry(v, p).v);
    SetLinkedIff(t, p.oldParent, p.slot, p.ent.ino, p.newParent, p.newName, p.ent.typ, s);
  }

  lemma SoundIff(v: Vol)
    requires Owned(v) && DirsOK(v)
    ensures Sound(v) <==> Linked(TreeOf(v))
  {
  }

  lemma SetTree(t: T.Tree, d: int, e: int, m: int, q: int, name: Name, typ: Byte, s: Slot, u: T.Tree)
    requires T.DirIn(t, d) && T.DirIn(t, q) && m in t && 0 <= e < |t[d].log| && 0 <= m < TWO32 && d != m
    requires var t1 := T.Add(t, q, name, m, typ);
             |t1[m].log| >= 2 && u == t1[m := T.Node(t1[m].mode, t1[m].log[1 := s])]
    ensures var t1 := T.Add(t, q, name, m, typ); T.DirIn(u, d) && u[d] == t1[d]
    ensures T.Bury(u, d, e) == Moved(t, d, e, m, q, name, typ, [s])
  {
  }

  /** Slot 1 was overwritten by an entry that is not well stored. */
  lemma MoveBad(v: Vol, p: Plan)
    requires WF(v) && Going(v, p) && MoveEntry(v, p).ok && T.DirIn(TreeOf(v), p.ent.ino) && p.ent.typ == TYPE_DIR
    requires var a := DirAdd(v, p.newParent, p.newName, p.ent.ino, p.ent.typ).v; var din := GetInode(a, p.ent.ino);
             SlotCount(din) >= 2 && !GoodEnt(EntryOf(a, din, 1).(ino := p.newParent))
    ensures !Sound(MoveEntry(v, p).v)
  {
    MoveParts(v, p);
    MoveWord(v, p);
    RelinkedIs(v, p);
    var m := p.ent.ino;
    var a := DirAdd(v, p.newParent, p.newName, m, p.ent.typ).v;
    MovedDir(v, p, a);
    NodeIs(a, m);
    hide Own, DirsOK, DirAdd, DirRemove, SetSlotIno, TreeOf, Linked, Proper, T.Find, Named, ValidName, MoveEntry,
      Relinked, Going, EntryOf,
      GoodEnt, DirOK, Sound;
    var w := SetSlotIno(a, m, 1, p.newParent);
    SetSecond(a, m, p.newParent);
    SetSlotKept(a, m, 1, p.newParent);
    KeptOwned(a, w);
    StaysBad(w, p.oldParent, p.oldName, m);
  }

  lemma MovedDir(v: Vol, p: Plan, a: Vol)
    requires WF(v) && WF(a) && p.MoveTo? && p.newParent in TreeOf(v) && T.DirIn(TreeOf(v), p.ent.ino)
    requires TreeOf(a) == T.Add(TreeOf(v), p.newParent, p.newName, p.ent.ino, p.ent.typ)
    ensures T.DirIn(TreeOf(a), p.ent.ino)
  {
    hide TreeOf;
  }

  lemma StaysBad(w: Vol, d: int, s: Name, m: int)
    requires Owned(w) && Allocated(w, m) && IsDir(GetInode(w, m).mode) && m != d
    requires SlotCount(GetInode(w, m)) >= 2 && !GoodEnt(EntryOf(w, GetInode(w, m), 1))
    ensures !Sound(DirRemove(w, d, s).v)
  {
    hide Own, EntryOf, GoodEnt, Undisturbed;
    var x := DirRemove(w, d, s).v;
    RemoveKept(w, d, s);
    RemoveUndisturbed(w, d, s, m);
    UndisturbedEntry(w, x, GetInode(w, m), 1);
    assert GetInode(x, m) == GetInode(w, m);
    assert !GoodSlot(x, GetInode(x, m), 1);
    assert !DirOK(x, GetInode(x, m));
  }

  lemma RemoveUndisturbed(w: Vol, d: int, s: Name, m: int)
    requires Owned(w) && InoValid(w, m) && m != d
    ensures Undisturbed(w, DirRemove(w, d, s).v, GetInode(w, m))
  {
    hide Own, RemoveFrom, PutEntry, EntryOf, Buried, Lookup, SetBlk, Undisturbed;
    FieldsUndisturbed(w, w, GetInode(w, m));
    var din := GetInode(w, d);
    var e := RemoveFrom(w, din, s, 0);
    StoreUndisturbed(w, d, e / 7, PutEntry(Blk(w, Lookup(w, din, e / 7)), e % 7, Buried(EntryOf(w, din, e))), m);
  }

  /** The store into a slot 1 that is there, in the tree. */
  lemma SetSecondTree(a: Vol, m: int, q: Word)
    requires Owned(a) && DirsOK(a) && T.DirIn(TreeOf(a), m) && SlotCount(GetInode(a, m)) >= 2
    requires GoodEnt(EntryOf(a, GetInode(a, m), 1).(ino := q))
    ensures var w := SetSlotIno(a, m, 1, q); var t := TreeOf(a);
            var s := SlotOf(EntryOf(a, GetInode(a, m), 1).(ino := q));
            && Owned(w) && DirsOK(w) && |t[m].log| >= 2
            && t[m].log[1] == SlotOf(EntryOf(a, GetInode(a, m), 1))
            && TreeOf(w) == t[m := T.Node(t[m].mode, t[m].log[1 := s])]
  {
    NodeIs(a, m);
    hide Own, DirsOK, SetSlotIno, DirOK, LogEdit, TreeOf, EntryOf, GoodEnt, SlotOf;
    SetSecond(a, m, q);
    var log := Log(a, GetInode(a, m));
    EditTree(a, SetSlotIno(a, m, 1, q), m, log[1 := SlotOf(EntryOf(a, GetInode(a, m), 1).(ino := q))]);
  }

  lemma SetSpareTree(a: Vol, m: int, q: Word)
    requires Owned(a) && DirsOK(a) && T.DirIn(TreeOf(a), m) && SlotCount(GetInode(a, m)) < 2
    ensures var w := SetSlotIno(a, m, 1, q); Owned(w) && DirsOK(w) && TreeOf(w) == TreeOf(a)
  {
    NodeIs(a, m);
    hide Own, DirsOK, SetSlotIno, DirOK, LogEdit, TreeOf;
    SetSpare(a, m, q);
    var log := Log(a, GetInode(a, m));
    EditTree(a, SetSlotIno(a, m, 1, q), m, log);
    assert TreeOf(a)[m := TreeOf(a)[m]] == TreeOf(a);
  }

  lemma SlotParts(e: DirEnt, q: Word)
    requires q != 0
    ensures var s := SlotOf(e.(ino := q));
            && s.Live? && s.ino == q && s.name == StoredName(e) && (SlotOf(e).Live? ==> s == SlotOf(e).(ino := q))
            && (SlotOf(e) == s <==> e.ino == q)
  {
  }

  /** The add does not change the answer about slot 1, unless it appends that very slot, which then names m. */
  lemma FitsAfterAdd(v: Vol, p: Plan)
    requires WF(v) && Going(v, p) && DirAdd(v, p.newParent, p.newName, p.ent.ino, p.ent.typ).ok
             && T.DirIn(TreeOf(v), p.ent.ino)
    requires Owned(DirAdd(v, p.newParent, p.newName, p.ent.ino, p.ent.typ).v)
    ensures var a := DirAdd(v, p.newParent, p.newName, p.ent.ino, p.ent.typ).v;
            0 < p.newParent < TWO32 && (DirsOK(a) && T.DirIn(TreeOf(a), p.ent.ino)
            ==> (SlotOneFits(v, p.ent.ino, p.newParent) <==> SlotOneFits(a, p.ent.ino, p.newParent)))
  {
    var m := p.ent.ino;
    MoveWord(v, p);
    SoundRoot(v);
    NodeIs(v, m);
    var a := DirAdd(v, p.newParent, p.newName, m, p.ent.typ).v;
    if DirsOK(a) && T.DirIn(TreeOf(a), m) {
      NodeIs(a, m);
      if SlotCount(GetInode(a, m)) >= 2 { assert GoodSlot(a, GetInode(a, m), 1); }
      hide Own, DirsOK, DirAdd, TreeOf, Linked, Proper, Named, ValidName, Going, EntryOf, GetInode, GoodEnt, DirOK,
        Sound;
      AddSlots(v, p.newParent, p.newName, m, p.ent.typ, m, 1);
      SameEnt(EntryOf(a, GetInode(a, m), 1), p.newParent);
    }
  }

  lemma SameEnt(e: DirEnt, q: Word)
    ensures e.ino == q ==> e.(ino := q) == e
  {
  }

  /**
   * A rename that goes ahead, on a volume whose directories may lack dots and whose entries tell directories by type 1:
   * every inode stays named once if and only if, where a directory is moved, its slot 1 can take the new parent.
   */
  lemma RenameSoundIff(v: Vol, oldpath: seq<Byte>, newpath: seq<Byte>)
    requires WF(v) && Sound(v) && NoNul(oldpath) && NoNul(newpath)
    requires RenamePlan(v, oldpath, newpath).MoveTo? && Rename(v, oldpath, newpath).ok
    requires var p := RenamePlan(v, oldpath, newpath); p.ent.typ == TYPE_DIR ==> T.DirIn(TreeOf(v), p.ent.ino)
    ensures var p := RenamePlan(v, oldpath, newpath);
            && 0 <= p.newParent < TWO32
            && (Sound(Rename(v, oldpath, newpath).v)
               <==> p.ent.typ != TYPE_DIR || SlotOneFits(v, p.ent.ino, p.newParent))
  {
    hide *;
    PlanGoing(v, oldpath, newpath);
    var p := RenamePlan(v, oldpath, newpath);
    RenameMoves(v, oldpath, newpath);
    MoveSoundIff(v, p);
  }

  lemma RenameMoves(v: Vol, oldpath: seq<Byte>, newpath: seq<Byte>)
    requires WF(v) && RenamePlan(v, oldpath, newpath).MoveTo?
    ensures Rename(v, oldpath, newpath) == MoveEntry(v, RenamePlan(v, oldpath, newpath))
  {
  }

  lemma MoveSoundIff(v: Vol, p: Plan)
    requires WF(v) && Going(v, p) && p.MoveTo? && MoveEntry(v, p).ok
    requires p.ent.typ == TYPE_DIR ==> T.DirIn(TreeOf(v), p.ent.ino)
    ensures 0 <= p.newParent < TWO32
    ensures Sound(MoveEntry(v, p).v) <==> p.ent.typ != TYPE_DIR || SlotOneFits(v, p.ent.ino, p.newParent)
  {
    MoveParts(v, p);
    MoveWord(v, p);
    RelinkedIs(v, p);
    var m := p.ent.ino;
    var a := DirAdd(v, p.newParent, p.newName, m, p.ent.typ).v;
    if p.ent.typ != TYPE_DIR {
      hide *;
      MoveUnset(v, p);
    } else {
      MovedDir(v, p, a);
      FitsAfterAdd(v, p);
      hide Own, DirsOK, DirAdd, DirRemove, SetSlotIno, TreeOf, Linked, Proper, T.Find, Named, ValidName, GetInode,
        MoveEntry, Relinked,
        Going, EntryOf, GoodEnt, Sound, StoredName, SlotOf, T.Add;
      if SlotCount(GetInode(a, m)) < 2 {
        SetSpareTree(a, m, p.newParent);
        MoveUnset(v, p);
      } else {
        var e := EntryOf(a, GetInode(a, m), 1);
        if GoodEnt(e.(ino := p.newParent)) {
          SetSecondTree(a, m, p.newParent);
          SlotParts(e, p.newParent);
          MoveSet(v, p, SlotOf(e.(ino := p.newParent)));
        } else {
          MoveBad(v, p);
        }
      }
    }
  }
}
