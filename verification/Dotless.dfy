/**
 * Directories made by the create call have no "." and ".." slots. The delete call takes a directory of at most two
 * slots for empty, so it may cut off two children. What create and delete keep of such volumes, and when nothing is
 * cut off.
 */
module Dotless {
  import opened Bytes
  import opened Volume
  import opened Inodes
  import opened Directory
  import opened Paths
  import opened Api
  import opened Owners
  import opened VolTree
  import opened Calls
  import T = Tree
  import TreePaths

  /** A live entry under a proper name, in whatever slot. */
  predicate Proper(t: T.Tree, d: int, e: int, n: int) {
    T.DirIn(t, d) && 0 <= e < |t[d].log| && t[d].log[e].Live? && t[d].log[e].ino == n
    && t[d].log[e].name != DOT && t[d].log[e].name != DOTDOT
  }

  ghost predicate Named(t: T.Tree, n: int) { exists d, e :: Proper(t, d, e, n) }

  /** Every inode but the root has a proper entry. */
  ghost predicate AllNamed(t: T.Tree) { forall n :: n in t && n != 1 ==> Named(t, n) }

  /** What is left of the tree invariant where directories may lack their dots: no inode has two proper entries. */
  ghost predicate Linked(t: T.Tree) {
    && T.DirIn(t, 1) && 0 !in t
    && (forall d, e, n :: Proper(t, d, e, n) ==> n in t && n > 1)
    && (forall d, e, c, f, n :: Proper(t, d, e, n) && Proper(t, c, f, n) ==> d == c && e == f)
  }

  ghost predicate Sound(v: Vol) { Owned(v) && DirsOK(v) && Linked(TreeOf(v)) }

  /** Every volume with a tree is one of them. */
  lemma TreeLinked(t: T.Tree)
    requires T.TreeInv(t)
    ensures Linked(t) && AllNamed(t)
  {
    forall d, e, n | Proper(t, d, e, n) ensures T.Entry(t, d, e, n) && n in t && n > 1 {
      assert T.Dotted(t, d);
      assert T.GoodEntry(t, d, e, n);
      T.NoNegative(t, n);
    }
    forall n | n in t && n != 1 ensures Named(t, n) {
      assert T.HasEntry(t, n);
      var d, e :| T.Entry(t, d, e, n);
      assert T.GoodEntry(t, d, e, n);
      assert Proper(t, d, e, n);
    }
  }

  // ---------------------------------------------------------------------
  // Resolution

  lemma SoundStep(v: Vol, cur: int, s: Name)
    requires Sound(v) && Allocated(v, cur) && Plain(s)
    ensures var f := DirFind(v, cur, s); var t := TreeOf(v);
            && TreePaths.Step(t, cur, s) == (if f.Found? then f.ent.ino else -1)
            && (f.Found? ==>
                  && Proper(t, cur, f.slot, f.ent.ino) && f.slot == T.Find(t[cur].log, s)
                  && t[cur].log[f.slot] == SlotOf(f.ent) && Allocated(v, f.ent.ino))
  {
    DirFindIn(v, cur, s);
    hide Own, DirsOK, TreeOf, DirFind, TreePaths.Step;
  }

  /** Resolution on the volume is walking the tree. */
  lemma {:induction false} SoundWalk(v: Vol, cur: int, toks: seq<Name>)
    requires Sound(v) && Allocated(v, cur) && AllPlain(toks)
    ensures ResolveFrom(v, cur, toks) == TreePaths.Walk(TreeOf(v), cur, toks)
    ensures ResolveFrom(v, cur, toks) >= 0 ==> Allocated(v, ResolveFrom(v, cur, toks))
    decreases |toks|
  {
    hide Sound, DirFind, TreeOf, Allocated, TreePaths.Step, Plain, Proper;
    if toks != [] {
      assert Plain(toks[0]);
      SoundStep(v, cur, toks[0]);
      var f := DirFind(v, cur, toks[0]);
      if f.Found? { SoundWalk(v, f.ent.ino, toks[1..]); }
    }
  }

  lemma SoundRoot(v: Vol)
    requires Sound(v)
    ensures WF(v) && Owned(v) && DirsOK(v) && Linked(TreeOf(v)) && Allocated(v, 1)
  {
    assert T.DirIn(TreeOf(v), 1);
  }

  lemma SoundParent(v: Vol, path: seq<Byte>)
    requires Sound(v) && NoNul(path) && ResolveParent(v, path).Target?
    ensures var p := ResolveParent(v, path); Allocated(v, p.parent) && Plain(p.name)
    ensures var p := ResolveParent(v, path); var toks := Tokens(path);
            && AllPlain(toks) && |toks| > 0 && AllPlain(toks[..|toks| - 1]) && p.name == toks[|toks| - 1]
            && TreePaths.Walk(TreeOf(v), 1, toks[..|toks| - 1]) == p.parent
  {
    var toks := Tokens(path);
    TokensPlain(path);
    SoundRoot(v);
    assert Plain(toks[|toks| - 1]);
    SoundWalk(v, 1, toks[..|toks| - 1]);
    hide Sound;
  }

  /** No path leads to an inode without a proper entry. */
  lemma Unnamed(v: Vol, n: int, toks: seq<Name>)
    requires Sound(v) && n > 1 && !Named(TreeOf(v), n) && AllPlain(toks)
    ensures ResolveFrom(v, 1, toks) != n
  {
    SoundRoot(v);
    if toks != [] {
      var front, s := toks[..|toks| - 1], toks[|toks| - 1];
      assert toks == front + [s] && Plain(s);
      ResolveAppend(v, 1, front, s);
      SoundWalk(v, 1, front);
      hide Sound, DirFind, ResolveFrom, Proper, Plain;
      var x := ResolveFrom(v, 1, front);
      if x >= 0 { SoundStep(v, x, s); }
    }
  }

  // ---------------------------------------------------------------------
  // Create

  /** Create, of a file or a directory, adds one node and one entry or changes nothing, and keeps such volumes sound. */
  lemma CreateSound(v: Vol, path: seq<Byte>, typ: Byte)
    requires Sound(v) && NoNul(path)
    ensures var r := Create(v, path, typ); var p := ResolveParent(v, path);
            && Sound(r.v) && (AllNamed(TreeOf(v)) ==> AllNamed(TreeOf(r.v)))
            && (if r.ret > 0 then
                  && p.Target? && T.DirIn(TreeOf(v), p.parent) && r.ret !in TreeOf(v) && r.ret < TWO32
                  && TreeOf(r.v) == T.Create(TreeOf(v), p.parent, p.name, r.ret, typ)
                else TreeOf(r.v) == TreeOf(v))
  {
    SoundRoot(v);
    hide Sound, Own, DirsOK, Linked, AllNamed, ResolveParent, TreeOf, Create, Allocated, T.Find, T.DirIn, T.Create;
    var p := ResolveParent(v, path);
    if p.Target? { SoundParent(v, path); }
    CreateTree(v, path, typ);
    var r := Create(v, path, typ);
    if r.ret > 0 { CreateLinked(TreeOf(v), p.parent, p.name, r.ret, typ); }
    SoundIs(r.v);
  }

  lemma SoundIs(v: Vol)
    requires Owned(v) && DirsOK(v) && Linked(TreeOf(v))
    ensures Sound(v)
  {
  }

  lemma CreateLinked(t: T.Tree, d: int, name: Name, n: Word, typ: Byte)
    requires Linked(t) && T.DirIn(t, d) && n !in t && n > 0 && ValidName(name)
    ensures var u := T.Create(t, d, name, n, typ); Linked(u) && (AllNamed(t) ==> AllNamed(u))
  {
    var u := T.Create(t, d, name, n, typ);
    forall x, f, k ensures Proper(u, x, f, k) <==> Proper(t, x, f, k) || (x == d && f == |t[d].log| && k == n) {
      if x in t && x != d { assert u[x] == t[x]; }
    }
    forall k | k in u && k != 1 && AllNamed(t) ensures Named(u, k) {
      if k == n { assert Proper(u, d, |t[d].log|, n); } else {
        assert Named(t, k);
        var x, f :| Proper(t, x, f, k);
        assert Proper(u, x, f, k);
      }
    }
  }

  // ---------------------------------------------------------------------
  // Delete

  /** The tree after the entry is buried and the inode given back. */
  function Removed(t: T.Tree, d: int, e: int, n: int): T.Tree
    requires Proper(t, d, e, n)
  {
    T.Bury(t, d, e) - {n}
  }

  /** The test delete makes on the inode it found. */
  predicate Refuses(v: Vol, ent: DirEnt) {
    Protected(GetInode(v, ent.ino).mode) || (ent.typ == TYPE_DIR && GetInode(v, ent.ino).size > 144)
  }

  /** Delete buries one entry and gives back its inode, or changes nothing; exactly when it does which. */
  lemma DeleteSound(v: Vol, path: seq<Byte>)
    requires Sound(v) && NoNul(path)
    ensures var r := Delete(v, path); var p := ResolveParent(v, path); var t := TreeOf(v);
            && (r.ok <==>
                  && p.Target? && DirFind(v, p.parent, p.name).Found?
                  && !Refuses(v, DirFind(v, p.parent, p.name).ent))
            && (if r.ok then
                  var f := DirFind(v, p.parent, p.name); var n := f.ent.ino;
                  && n == Resolve(v, path) && n in t && Proper(t, p.parent, f.slot, n)
                  && t[p.parent].log[f.slot].typ == f.ent.typ
                  && Owned(r.v) && DirsOK(r.v) && TreeOf(r.v) == Removed(t, p.parent, f.slot, n)
                else r.v == v)
  {
    SoundRoot(v);
    hide Sound, Own, DirsOK, Linked, ResolveParent, TreeOf, Allocated, DirFind, DirRemove, FreeInode, Proper, Resolve,
      GetInode, Tokens, AllPlain, TreePaths.Walk, Plain, NoNul, Removed, Protected, WF;
    var p := ResolveParent(v, path);
    if p.Target? {
      SoundParent(v, path);
      ResolveComposes(v, path);
      if DirFind(v, p.parent, p.name).Found? { SoundRemoved(v, p.parent, p.name); }
    }
  }

  lemma SoundRemoved(v: Vol, d: int, s: Name)
    requires Sound(v) && Allocated(v, d) && Plain(s) && DirFind(v, d, s).Found?
    ensures var f := DirFind(v, d, s); var n := f.ent.ino; var r := DirRemove(v, d, s); var w := FreeInode(r.v, n);
            var t := TreeOf(v);
            && InoValid(v, n) && Proper(t, d, f.slot, n) && n in t && t[d].log[f.slot].typ == f.ent.typ
            && (r.ok <==> !Protected(GetInode(v, n).mode)) && (!r.ok ==> r.v == v)
            && (r.ok ==> Owned(w) && DirsOK(w) && TreeOf(w) == Removed(t, d, f.slot, n))
  {
    SoundRoot(v);
    SoundStep(v, d, s);
    DirFindIn(v, d, s);
    var f := DirFind(v, d, s);
    var n := f.ent.ino;
    var t := TreeOf(v);
    assert t[d] == NodeOf(v, d);
    AllocatedDirOK(v, d);
    hide Own, DirsOK, DirRemove, DirOK, LogEdit, LogFind, FreeInode, Log, TreeOf, DirFind, Linked, OffX;
    DirRemoveEffect(v, d, s);
    var r := DirRemove(v, d, s);
    var log := Log(v, GetInode(v, d));
    FindIs(log, s);
    if r.ok {
      EditTree(v, r.v, d, log[f.slot := Tomb]);
      LogEditShape(v, r.v, d, log[f.slot := Tomb]);
      FreeTree(r.v, n);
    }
  }

  /** A directory is not deleted through an entry of its own. */
  lemma {:induction false} NotOwnParent(v: Vol, n: int, e: int, toks: seq<Name>)
    requires Sound(v) && AllPlain(toks) && Proper(TreeOf(v), n, e, n)
    ensures ResolveFrom(v, 1, toks) != n
    decreases |toks|
  {
    SoundRoot(v);
    if toks != [] {
      var front, s := toks[..|toks| - 1], toks[|toks| - 1];
      assert toks == front + [s] && Plain(s);
      ResolveAppend(v, 1, front, s);
      SoundWalk(v, 1, front);
      NotOwnParent(v, n, e, front);
      var x := ResolveFrom(v, 1, front);
      if x >= 0 { SoundStep(v, x, s); }
      hide Sound, DirFind, ResolveFrom, Proper, Plain;
    }
  }

  /** The entries after a delete. */
  lemma RemovedProper(t: T.Tree, d: int, e: int, n: int, x: int, f: int, k: int)
    requires Proper(t, d, e, n) && d != n
    ensures Proper(Removed(t, d, e, n), x, f, k) <==> Proper(t, x, f, k) && x != n && !(x == d && f == e)
  {
    var u := Removed(t, d, e, n);
    if x in u && x != d { assert u[x] == t[x]; }
  }

  lemma RemovedLinked(t: T.Tree, d: int, e: int, n: int)
    requires Linked(t) && Proper(t, d, e, n) && d != n
    ensures Linked(Removed(t, d, e, n))
    ensures AllNamed(t) ==> (AllNamed(Removed(t, d, e, n)) <==> forall f, k :: !Proper(t, n, f, k))
    ensures forall f, k :: Proper(t, n, f, k) ==> k in Removed(t, d, e, n) && !Named(Removed(t, d, e, n), k)
  {
    var u := Removed(t, d, e, n);
    forall x, f, k ensures Proper(u, x, f, k) <==> Proper(t, x, f, k) && x != n && !(x == d && f == e) {
      RemovedProper(t, d, e, n, x, f, k);
    }
    hide Proper;
    forall f, k | Proper(t, n, f, k) ensures k in u && !Named(u, k) {
      assert k != n;
    }
    if AllNamed(t) && forall f, k :: !Proper(t, n, f, k) {
      forall m | m in u && m != 1 ensures Named(u, m) {
        assert Named(t, m);
        var x, f :| Proper(t, x, f, m);
        assert Proper(u, x, f, m);
      }
    }
    if f, k :| Proper(t, n, f, k) {
      assert k in u && k != 1 && !Named(u, k);
    }
  }

  /**
   * A successful delete keeps every other inode named if and only if the inode it deleted holds no proper entry; what
   * such entries name stays allocated, and no path leads there any more.
   */
  lemma DeleteOrphansIff(v: Vol, path: seq<Byte>)
    requires Sound(v) && AllNamed(TreeOf(v)) && NoNul(path) && Delete(v, path).ok
    ensures var w := Delete(v, path).v; var n := Resolve(v, path); var t := TreeOf(v);
            && Sound(w)
            && (AllNamed(TreeOf(w)) <==> forall f, k :: !Proper(t, n, f, k))
            && (forall f, k :: Proper(t, n, f, k) ==> Allocated(w, k) && !Named(TreeOf(w), k))
  {
    DeleteSound(v, path);
    SoundRoot(v);
    hide Sound, Own, DirsOK, Linked, AllNamed, ResolveParent, TreeOf, Allocated, T.Find, T.DirIn, DirFind, Delete,
      Proper, Named, Removed,
      Resolve, Refuses;
    var w := Delete(v, path).v;
    var p := ResolveParent(v, path);
    var f := DirFind(v, p.parent, p.name);
    var n := f.ent.ino;
    ParentOther(v, path, f.slot, n);
    RemovedLinked(TreeOf(v), p.parent, f.slot, n);
    SoundIs(w);
    forall g, k | Proper(TreeOf(v), n, g, k) ensures Allocated(w, k) { InTree(w, k); }
  }

  lemma InTree(v: Vol, n: int)
    requires WF(v)
    ensures n in TreeOf(v) <==> Allocated(v, n)
  {
  }

  lemma ParentOther(v: Vol, path: seq<Byte>, e: int, n: int)
    requires Sound(v) && NoNul(path) && ResolveParent(v, path).Target?
             && Proper(TreeOf(v), ResolveParent(v, path).parent, e, n)
    ensures ResolveParent(v, path).parent != n
  {
    var toks := Tokens(path);
    var p := ResolveParent(v, path);
    SoundParent(v, path);
    SoundRoot(v);
    SoundWalk(v, 1, toks[..|toks| - 1]);
    if p.parent == n { NotOwnParent(v, n, e, toks[..|toks| - 1]); }
    hide Sound, Proper, TreeOf;
  }

  /** No path leads to what a delete has orphaned. */
  lemma OrphanLost(v: Vol, path: seq<Byte>, f: int, k: int, other: seq<Byte>)
    requires Sound(v) && AllNamed(TreeOf(v)) && NoNul(path) && Delete(v, path).ok
             && Proper(TreeOf(v), Resolve(v, path), f, k)
    requires NoNul(other)
    ensures var w := Delete(v, path).v; Allocated(w, k) && Resolve(w, other) != k
  {
    SoundRoot(v);
    assert k > 1;
    hide Sound, AllNamed, TreeOf, Allocated, Delete, Proper, Named, Linked;
    DeleteOrphansIff(v, path);
    TokensPlain(other);
    Unnamed(Delete(v, path).v, k, Tokens(other));
  }
}
