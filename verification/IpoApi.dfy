/** The calls of the file system, on disk. */
module IpoApi {
  import opened Bytes
  import opened Volume
  import opened BlockMap
  import opened FileData
  import opened Inodes
  import opened Directory
  import opened Paths
  import opened Api
  import opened VolTree
  import opened Calls
  import opened Runs
  import opened Owners
  import opened IpoFs
  import IpoDir
  import IpoPath
  import T = Tree

  // ---------------------------------------------------------------------
  // Create, open, delete

  /** What create relies on between its steps. */
  lemma CreateOrder(v: Vol, path: seq<Byte>, typ: Byte)
    requires Owned(v) && AllocInode(v).phys > 0
    requires var p := ResolveParent(v, path);
             p.Target? && ValidName(p.name) && DirFind(v, p.parent, p.name).NotFound?
    ensures var n := AllocInode(v).phys; var w := PutInode(AllocInode(v).v, n, NEW_FILE.(mode := typ));
            var p := ResolveParent(v, path);
            && n < TWO32 && Owned(AllocInode(v).v) && Owned(w)
            && (var r := DirAdd(w, p.parent, p.name, n, typ);
                && Owned(r.v)
                && Api.Create(v, path, typ) == if r.ok then Called(r.v, n) else Called(FreeInode(r.v, n), -1))
  {
    hide Own, Bounded, Api.Create, ResolveParent, DirFind, AllocInode, PutInode, FreeInode, DirAdd;
    CreateSteps(v, path, typ);
  }

  /** ipo_fs_create */
  method Create(fs: FileSystem, path: seq<Byte>, typ: Byte) returns (r: int)
    requires fs.Valid() && Owned(fs.V()) && NoNul(path)
    modifies fs`disk
    ensures fs.Valid()
    ensures if fs.mounted then fs.V() == Api.Create(old(fs.V()), path, typ).v
            && r == Api.Create(old(fs.V()), path, typ).ret
            else fs.disk == old(fs.disk) && r == -1
  {
    hide FileSystem.V, FileSystem.Valid, Owned, ResolveParent, DirFind, AllocInode, DirAdd, Inodes.FreeInode, PutInode,
      WF;
    if !fs.mounted { return -1; }
    ghost var v := fs.V();
    var t := IpoPath.ResolveParent(fs, path);
    if t.NoTarget? || !ValidName(t.name) { return -1; }
    var f := IpoDir.FindEntry(fs, t.parent, t.name);
    if f.Found? { return -1; }
    AllocOne(v);
    if AllocInode(v).phys > 0 { CreateOrder(v, path, typ); }
    var ino := fs.AllocateInode();
    if ino < 0 { return -1; }
    var _ := fs.WriteInode(ino, NEW_FILE.(mode := typ));
    var ok := IpoDir.AddEntry(fs, t.parent, t.name, ino, typ);
    if !ok {
      var _ := fs.FreeInode(ino);
      return -1;
    }
    return ino;
  }

  /** ipo_fs_open: the first free descriptor, for a file. */
  method Open(fs: FileSystem, path: seq<Byte>) returns (r: int)
    requires fs.Valid() && Owned(fs.V()) && NoNul(path)
    modifies fs`disk, fs`fds
    ensures fs.disk == old(fs.disk)
    ensures (fs.fds, r) == if fs.mounted then Runs.Open(old(fs.State()), path) else (old(fs.fds), -1)
  {
    hide FileSystem.V, FileSystem.Valid, Owned, Api.Resolve, WF;
    if !fs.mounted { return -1; }
    var ino := IpoPath.Resolve(fs, path);
    if ino < 0 { return -1; }
    var ok, inode: Inode := fs.ReadInode(ino);
    if !ok || IsDir(inode.mode) { return -1; }
    var i := 0;
    while i < |fs.fds|
      invariant 0 <= i <= |fs.fds| && fs.disk == old(fs.disk) && fs.fds == old(fs.fds)
      invariant FreeFd(fs.fds, i) == FreeFd(fs.fds, 0)
    {
      if !fs.fds[i].used {
        fs.fds := fs.fds[i := Fd(true, ino)];
        return i;
      }
      i := i + 1;
    }
    return -1;
  }

  /** The last name of a path holds no NUL. */
  lemma LastNoNul(v: Vol, path: seq<Byte>)
    requires NoNul(path) && ResolveParent(v, path).Target?
    ensures NoNul(ResolveParent(v, path).name)
  {
    TokensPlain(path);
    assert Plain(Tokens(path)[|Tokens(path)| - 1]);
  }

  lemma RemovedOwned(v: Vol, path: seq<Byte>)
    requires Owned(v) && NoNul(path) && ResolveParent(v, path).Target?
    ensures var p := ResolveParent(v, path); NoNul(p.name) && Owned(DirRemove(v, p.parent, p.name).v)
  {
    LastNoNul(v, path);
    hide DirRemove, Own, ResolveParent, Bounded;
    RemoveKept(v, ResolveParent(v, path).parent, ResolveParent(v, path).name);
  }

  /** ipo_fs_delete */
  method Delete(fs: FileSystem, path: seq<Byte>) returns (ok: bool)
    requires fs.Valid() && Owned(fs.V()) && NoNul(path)
    modifies fs`disk
    ensures fs.Valid()
    ensures if fs.mounted then fs.V() == Api.Delete(old(fs.V()), path).v && ok == Api.Delete(old(fs.V()), path).ok
            else fs.disk == old(fs.disk) && !ok
  {
    hide FileSystem.V, FileSystem.Valid, Owned, ResolveParent, DirFind, DirRemove, Inodes.FreeInode, WF, NoNul,
      GetInode;
    if !fs.mounted { return false; }
    ghost var v := fs.V();
    var t := IpoPath.ResolveParent(fs, path);
    if t.NoTarget? { return false; }
    var f := IpoDir.FindEntry(fs, t.parent, t.name);
    if f.NotFound? { return false; }
    var found, target: Inode := fs.ReadInode(f.ent.ino);
    if !found || Protected(target.mode) { return false; }
    if f.ent.typ == TYPE_DIR {
      var _, din: Inode := fs.ReadInode(f.ent.ino);
      if din.size > 144 { return false; }
    }
    RemovedOwned(v, path);
    var removed := IpoDir.RemoveEntry(fs, t.parent, t.name);
    if !removed { return false; }
    var _ := fs.FreeInode(f.ent.ino);
    return true;
  }

  // ---------------------------------------------------------------------
  // The descendant test

  /** One round of is_descendant. */
  lemma ClimbStep(v: Vol, anc: int, cur: int)
    requires cur != 0 && cur != 1
    ensures Api.IsDescendant(v, anc, cur) <==> cur == anc || Api.IsDescendant(v, anc, NextUp(v, cur))
  {
    hide NextUp;
    if i: nat :| Hits(v, anc, cur, i) {
      if i > 0 { assert Hits(v, anc, NextUp(v, cur), i - 1); }
    }
    if cur == anc { assert Hits(v, anc, cur, 0); }
    if i: nat :| cur != anc && Hits(v, anc, NextUp(v, cur), i) { assert Hits(v, anc, cur, i + 1); }
  }

  lemma ClimbEnds(v: Vol, anc: int, cur: int)
    requires cur == 0 || cur == 1
    ensures !Api.IsDescendant(v, anc, cur)
  {
  }

  lemma NoZero(v: Vol, cur: int)
    ensures !Api.IsDescendant(v, 0, cur)
  {
    forall i: nat ensures !Hits(v, 0, cur, i) { NoZeroHit(v, cur, i); }
  }

  lemma {:induction false} NoZeroHit(v: Vol, cur: int, i: nat)
    ensures !Hits(v, 0, cur, i)
    decreases i
  {
    if i > 0 { NoZeroHit(v, NextUp(v, cur), i - 1); }
  }

  /** The loop started at cur stops within k rounds. */
  predicate StopsIn(v: Vol, anc: int, cur: int, k: nat)
    decreases k
  {
    cur == 0 || cur == 1 || cur == anc || (k > 0 && StopsIn(v, anc, NextUp(v, cur), k - 1))
  }

  ghost predicate Stops(v: Vol, anc: int, cur: int) { exists k: nat :: StopsIn(v, anc, cur, k) }

  /** On every tree the loop stops. */
  lemma TreeStops(v: Vol, anc: int, cur: int)
    requires FsInv(v) && T.DirIn(TreeOf(v), cur)
    ensures Stops(v, anc, cur)
  {
    assert T.ReachesRoot(TreeOf(v), cur);
    var k: nat :| T.Up(TreeOf(v), cur, k) == 1;
    TreeStopsIn(v, anc, cur, k);
  }

  lemma {:induction false} TreeStopsIn(v: Vol, anc: int, cur: int, k: nat)
    requires FsInv(v) && T.DirIn(TreeOf(v), cur) && T.Up(TreeOf(v), cur, k) == 1
    ensures StopsIn(v, anc, cur, k)
    decreases k
  {
    FsInvIs(v);
    hide FsInv, Own, DirsOK, T.TreeInv, TreeOf, NextUp;
    if cur != 1 {
      NextUpIsPar(v, cur);
      TreeStopsIn(v, anc, NextUp(v, cur), k - 1);
    }
  }

  lemma SlotZeroInData(v: Vol, d: int)
    requires Owned(v) && InoValid(v, d) && GetInode(v, d).direct[0] != 0
    ensures InData(v, GetInode(v, d).direct[0])
  {
    IpoDir.SlotBlockIs(v, d, 0);
  }

  /** is_descendant: it decides the relation whenever its loop stops. */
  method IsDescendant(fs: FileSystem, anc: int, node: int) returns (r: bool)
    requires fs.Valid() && Owned(fs.V()) && Stops(fs.V(), anc, node)
    ensures r <==> Api.IsDescendant(fs.V(), anc, node)
  {
    hide FileSystem.V, FileSystem.Valid, Own, Api.IsDescendant, EntryAt, Blk;
    ghost var v := fs.V();
    NoZero(v, node);
    ClimbEnds(v, anc, 0);
    if anc == 0 || node == 0 { return false; }
    var cur := node;
    ghost var k: nat :| StopsIn(v, anc, cur, k);
    while cur != 1 && cur != 0
      invariant StopsIn(v, anc, cur, k)
      invariant Api.IsDescendant(v, anc, node) <==> Api.IsDescendant(v, anc, cur)
      decreases k
    {
      ClimbStep(v, anc, cur);
      if cur == anc { return true; }
      var ok, din: Inode := fs.ReadInode(cur);
      if !ok || !IsDir(din.mode) || din.direct[0] == 0 { return false; }
      SlotZeroInData(v, cur);
      var buf := fs.BlockRead(din.direct[0]);
      var parent := EntryAt(buf, 1).ino;
      if parent == cur { return false; }
      cur := parent;
      k := k - 1;
    }
    ClimbEnds(v, anc, cur);
    return false;
  }

  // ---------------------------------------------------------------------
  // Rename

  /** Where rename asks whether its target lies inside the entry it moves, the loop stops. */
  ghost predicate TestStops(v: Vol, oldpath: seq<Byte>, newpath: seq<Byte>) {
    var n, op := Api.Resolve(v, newpath), ResolveParent(v, oldpath);
    n >= 0 && IsDir(GetInode(v, n).mode) && op.Target? ==>
      var f := DirFind(v, op.parent, op.name);
      f.Found? && f.ent.typ == TYPE_DIR ==> Stops(v, f.ent.ino, n)
  }

  /** On every tree it does, for all paths. */
  lemma TreeTestStops(v: Vol, oldpath: seq<Byte>, newpath: seq<Byte>)
    requires FsInv(v) && NoNul(newpath)
    ensures TestStops(v, oldpath, newpath)
  {
    hide Api.Resolve, ResolveParent, DirFind, GetInode, FsInv, Stops, TreeOf;
    var n, op := Api.Resolve(v, newpath), ResolveParent(v, oldpath);
    if n >= 0 && IsDir(GetInode(v, n).mode) && op.Target? && DirFind(v, op.parent, op.name).Found? {
      FsInvIs(v);
      ResolvedAllocated(v, newpath);
      DirInTree(v, n);
      TreeStops(v, DirFind(v, op.parent, op.name).ent.ino, n);
    }
  }

  /** What the writes of a rename rely on between its steps; r is their outcome. */
  ghost predicate MoveSteps(v: Vol, p: Plan, r: Edited)
    requires WF(v) && p.MoveTo?
  {
    var a := DirAdd(v, p.newParent, p.newName, p.ent.ino, p.ent.typ);
    && NoNul(p.oldName) && Owned(a.v)
    && r == (if a.ok then DirRemove(Relinked(v, p), p.oldParent, p.oldName) else Edited(a.v, false))
    && (a.ok ==>
          && 0 <= p.newParent < TWO32 && Owned(Relinked(v, p)) && InoValid(a.v, p.ent.ino)
          && Relinked(v, p) == (if p.ent.typ == TYPE_DIR && GetInode(a.v, p.ent.ino).direct[0] != 0
                                then SetSlotIno(a.v, p.ent.ino, 1, p.newParent) else a.v))
  }

  lemma MoveOrder(v: Vol, oldpath: seq<Byte>, newpath: seq<Byte>)
    requires Owned(v) && NoNul(oldpath) && RenamePlan(v, oldpath, newpath).MoveTo?
    ensures MoveSteps(v, RenamePlan(v, oldpath, newpath), Api.Rename(v, oldpath, newpath))
  {
    hide Own, RenamePlan, Api.MoveEntry, MoveSteps, ResolveParent, DirFind;
    PlanParts(v, oldpath, newpath);
    PlanValid(v, oldpath, newpath);
    LastNoNul(v, oldpath);
    PlanMoves(v, RenamePlan(v, oldpath, newpath));
  }

  lemma PlanValid(v: Vol, oldpath: seq<Byte>, newpath: seq<Byte>)
    requires RenamePlan(v, oldpath, newpath).MoveTo?
    ensures InoValid(v, RenamePlan(v, oldpath, newpath).ent.ino)
  {
    hide DirFind, ResolveParent, Api.Resolve, Api.IsDescendant, ValidName, GetInode;
  }

  lemma PlanMoves(v: Vol, p: Plan)
    requires Owned(v) && p.MoveTo? && NoNul(p.oldName) && InoValid(v, p.ent.ino)
    ensures MoveSteps(v, p, Api.MoveEntry(v, p))
  {
    var a := DirAdd(v, p.newParent, p.newName, p.ent.ino, p.ent.typ);
    AddNeeds(v, p.newParent, p.newName, p.ent.ino, p.ent.typ);
    hide DirAdd, Own, DirRemove, SetSlotIno, WF, NoNul, Bounded;
    AddKept(v, p.newParent, p.newName, p.ent.ino, p.ent.typ);
    if a.ok { SetSlotKept(a.v, p.ent.ino, 1, p.newParent); }
  }

  lemma AddNeeds(v: Vol, d: int, name: Name, n: Word, typ: Byte)
    requires WF(v)
    ensures DirAdd(v, d, name, n, typ).ok ==> InoValid(v, d) && 0 <= d < TWO32
  {
  }

  /** The ".." slot as rename edits it, through direct[0]. */
  method SetParent(fs: FileSystem, moved: Inode, ghost m: int, parent: Word)
    requires fs.Valid() && Owned(fs.V()) && InoValid(fs.V(), m) && moved == GetInode(fs.V(), m) && moved.direct[0] != 0
    modifies fs`disk
    ensures fs.Valid() && fs.V() == SetSlotIno(old(fs.V()), m, 1, parent)
  {
    hide FileSystem.V, FileSystem.Valid, Owned, EntryAt, PutEntry, Blk, SetBlk, GetBlock, WF;
    IpoDir.SlotBlockIs(fs.V(), m, 1);
    var buf := fs.BlockRead(moved.direct[0]);
    buf := PutEntry(buf, 1, EntryAt(buf, 1).(ino := parent));
    fs.BlockWrite(moved.direct[0], buf);
  }

  /** The writes of ipo_fs_rename. */
  method MoveEntry(fs: FileSystem, oldParent: int, oldName: Name, ent: DirEnt, newParent: int, newName: Name,
        ghost p: Plan,
                   ghost r: Edited)
    returns (ok: bool)
    requires fs.Valid() && WF(fs.V()) && Owned(fs.V()) && p.MoveTo? && MoveSteps(fs.V(), p, r)
    requires p.oldParent == oldParent && p.oldName == oldName && p.ent == ent && p.newParent == newParent
             && p.newName == newName
    modifies fs`disk
    ensures fs.Valid() && fs.V() == r.v && ok == r.ok
  {
    hide FileSystem.V, FileSystem.Valid, Owned, DirAdd, DirRemove, SetSlotIno, Relinked, WF, NoNul;
    var added := IpoDir.AddEntry(fs, newParent, newName, ent.ino, ent.typ);
    if !added { return false; }
    if ent.typ == TYPE_DIR {
      var found, moved: Inode := fs.ReadInode(ent.ino);
      if !found { return false; }
      if moved.direct[0] != 0 { SetParent(fs, moved, ent.ino, newParent); }
    }
    ok := IpoDir.RemoveEntry(fs, oldParent, oldName);
  }

  /** Where the entry goes: into an existing directory under its old name, or to the path given. */
  function NewPlace(v: Vol, newpath: seq<Byte>, oldName: Name): Target {
    var n := Api.Resolve(v, newpath);
    if n >= 0 && IsDir(GetInode(v, n).mode) then Target(n, oldName) else ResolveParent(v, newpath)
  }

  /** RenamePlan as the code decides it. */
  lemma PlanDecides(v: Vol, oldpath: seq<Byte>, newpath: seq<Byte>)
    ensures var o, n := Api.Resolve(v, oldpath), Api.Resolve(v, newpath); var op := ResolveParent(v, oldpath);
            var plan := RenamePlan(v, oldpath, newpath);
            && (oldpath == [SLASH] ==> plan == Refuse)
            && (oldpath != [SLASH] && o >= 0 && o == n ==> plan == Same)
            && (oldpath != [SLASH] && !(o >= 0 && o == n) ==>
                  && (op.NoTarget? ==> plan == Refuse)
                  && (op.Target? ==>
                        var f := DirFind(v, op.parent, op.name); var np := NewPlace(v, newpath, op.name);
                        && (f.NotFound? ==> plan == Refuse)
                        && (f.Found? ==> FoundDecides(v, op, f, n, np, plan))))
  {
    hide Api.Resolve, ResolveParent, DirFind, Api.IsDescendant, GetInode, ValidName;
  }

  ghost predicate FoundDecides(v: Vol, op: Target, f: Found, n: int, np: Target, plan: Plan)
    requires op.Target? && f.Found?
  {
    var bad := !InoValid(v, f.ent.ino) || Protected(GetInode(v, f.ent.ino).mode) || (n >= 0 && !InoValid(v, n))
               || (n >= 0 && IsDir(GetInode(v, n).mode) && f.ent.typ == TYPE_DIR && Api.IsDescendant(v, f.ent.ino, n))
               || np.NoTarget? || !ValidName(np.name);
    && (bad ==> plan == Refuse)
    && (!bad ==> var g := DirFind(v, np.parent, np.name);
                 plan == if g.NotFound? then MoveTo(op.parent, f.slot, f.ent, op.name, np.parent, np.name)
                         else if g.ent.ino == f.ent.ino then Same else Refuse)
  }

  /** ipo_fs_rename */
  method Rename(fs: FileSystem, oldpath: seq<Byte>, newpath: seq<Byte>) returns (ok: bool)
    requires fs.Valid() && Owned(fs.V()) && NoNul(oldpath) && NoNul(newpath) && TestStops(fs.V(), oldpath, newpath)
    modifies fs`disk
    ensures fs.Valid()
    ensures if fs.mounted then fs.V() == Api.Rename(old(fs.V()), oldpath, newpath).v
            && ok == Api.Rename(old(fs.V()), oldpath, newpath).ok
            else fs.disk == old(fs.disk) && !ok
  {
    hide FileSystem.V, FileSystem.Valid, Owned, WF, NoNul, RenamePlan, Api.MoveEntry, MoveSteps, DirFind, Api.Resolve,
      ResolveParent, GetInode, ValidName, Stops;
    if !fs.mounted { return false; }
    ghost var v := fs.V();
    PlanDecides(v, oldpath, newpath);
    ghost var plan := RenamePlan(v, oldpath, newpath);
    RenameIs(v, oldpath, newpath);
    if oldpath == [SLASH] { return false; }
    var oldIno := IpoPath.Resolve(fs, oldpath);
    var newIno := IpoPath.Resolve(fs, newpath);
    if oldIno >= 0 && newIno >= 0 && oldIno == newIno { return true; }
    var op := IpoPath.ResolveParent(fs, oldpath);
    if op.NoTarget? { return false; }
    var f := IpoDir.FindEntry(fs, op.parent, op.name);
    if f.NotFound? { return false; }
    var found, target: Inode := fs.ReadInode(f.ent.ino);
    if !found || Protected(target.mode) { return false; }
    var np;
    var maybeDir := IpoPath.Resolve(fs, newpath);
    if maybeDir >= 0 {
      var good, td: Inode := fs.ReadInode(maybeDir);
      if !good { return false; }
      if IsDir(td.mode) {
        if f.ent.typ == TYPE_DIR {
          var inside := IsDescendant(fs, f.ent.ino, maybeDir);
          if inside { return false; }
        }
        np := Target(maybeDir, op.name);
      } else {
        np := IpoPath.ResolveParent(fs, newpath);
      }
    } else {
      np := IpoPath.ResolveParent(fs, newpath);
    }
    if np.NoTarget? || !ValidName(np.name) { return false; }
    var g := IpoDir.FindEntry(fs, np.parent, np.name);
    if g.Found? { return g.ent.ino == f.ent.ino; }
    MoveOrder(v, oldpath, newpath);
    ok := MoveEntry(fs, op.parent, op.name, f.ent, np.parent, np.name, plan, Api.Rename(v, oldpath, newpath));
  }

  lemma RenameIs(v: Vol, oldpath: seq<Byte>, newpath: seq<Byte>)
    requires WF(v)
    ensures var p := RenamePlan(v, oldpath, newpath);
            !p.MoveTo? ==> Api.Rename(v, oldpath, newpath) == Edited(v, p.Same?)
  {
  }
}
