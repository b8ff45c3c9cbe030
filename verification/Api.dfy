/** The calls of the file system on a volume, and the tree they keep. */
module Api {
  import opened Bytes
  import opened Volume
  import opened BlockMap
  import opened FileData
  import opened Inodes
  import opened Directory
  import opened Paths
  import opened Tree

  // ---------------------------------------------------------------------
  // Path resolution

  datatype Found = NotFound | Found(slot: nat, ent: DirEnt)

  /** dir_find_entry */
  function DirFind(v: Vol, d: int, name: Name): Found {
    var din := GetInode(v, d);
    if !InoValid(v, d) || !IsDir(din.mode) then NotFound
    else
      var e := FindFrom(v, din, name, 0);
      if e < SlotCount(din) then Found(e, EntryOf(v, din, e)) else NotFound
  }

  /** Walks tokens from inode cur; -1 when a token is not found. */
  function ResolveFrom(v: Vol, cur: int, toks: seq<Name>): int
    decreases |toks|
  {
    if toks == [] then cur
    else
      var f := DirFind(v, cur, toks[0]);
      if f.NotFound? then -1 else ResolveFrom(v, f.ent.ino, toks[1..])
  }

  /** path_resolve */
  function Resolve(v: Vol, path: seq<Byte>): int { ResolveFrom(v, 1, Tokens(path)) }

  datatype Target = NoTarget | Target(parent: int, name: Name)

  /** path_resolve_parent */
  function ResolveParent(v: Vol, path: seq<Byte>): Target {
    var toks := Tokens(path);
    if toks == [] then NoTarget
    else
      var p := ResolveFrom(v, 1, toks[..|toks| - 1]);
      if p < 0 then NoTarget else Target(p, toks[|toks| - 1])
  }

  lemma {:induction false} ResolveAppend(v: Vol, cur: int, a: seq<Name>, s: Name)
    ensures ResolveFrom(v, cur, a + [s])
            == if a != [] && ResolveFrom(v, cur, a) < 0 then -1
               else var f := DirFind(v, ResolveFrom(v, cur, a), s); if f.Found? then f.ent.ino else -1
    decreases |a|
  {
    if a == [] {
      assert [s][1..] == [] && a + [s] == [s];
    } else {
      assert (a + [s])[1..] == a[1..] + [s];
      var f := DirFind(v, cur, a[0]);
      if f.Found? {
        ResolveAppend(v, f.ent.ino, a[1..], s);
        assert (a + [s])[0] == a[0];
      }
    }
  }

  /**
   * Resolution composes: for every path that has a parent, the path resolves to an inode exactly when the
   * parent directory has an entry of the last name for it.
   */
  lemma ResolveComposes(v: Vol, path: seq<Byte>)
    requires ResolveParent(v, path).Target?
    ensures var r := ResolveParent(v, path); var f := DirFind(v, r.parent, r.name);
            Resolve(v, path) == if f.Found? then f.ent.ino else -1
  {
    var toks := Tokens(path);
    assert toks == toks[..|toks| - 1] + [toks[|toks| - 1]];
    ResolveAppend(v, 1, toks[..|toks| - 1], toks[|toks| - 1]);
  }

  // ---------------------------------------------------------------------
  // The calls

  datatype Called = Called(v: Vol, ret: int)

  const NEW_FILE: Inode := Inode(0, 0, 1, [0, 0, 0, 0, 0, 0], 0, 0, Zeros(32))

  /** ipo_fs_create */
  function Create(v: Vol, path: seq<Byte>, typ: Byte): (r: Called)
    requires WF(v)
    ensures WF(r.v) && SameFrame(v, r.v)
  {
    var p := ResolveParent(v, path);
    if p.NoTarget? || !ValidName(p.name) || DirFind(v, p.parent, p.name).Found? then Called(v, -1)
    else
      var a := AllocInode(v);
      if a.phys < 0 then Called(v, -1)
      else
        var w := PutInode(a.v, a.phys, NEW_FILE.(mode := typ));
        var r := DirAdd(w, p.parent, p.name, a.phys, typ);
        if r.ok then Called(r.v, a.phys) else Called(FreeInode(r.v, a.phys), -1)
  }

  /** ipo_fs_delete */
  function Delete(v: Vol, path: seq<Byte>): (r: Edited)
    requires WF(v)
    ensures WF(r.v) && SameFrame(v, r.v)
  {
    var p := ResolveParent(v, path);
    if p.NoTarget? then Edited(v, false)
    else
      var f := DirFind(v, p.parent, p.name);
      if f.NotFound? || !InoValid(v, f.ent.ino) then Edited(v, false)
      else
        var tin := GetInode(v, f.ent.ino);
        if Protected(tin.mode) || (f.ent.typ == TYPE_DIR && tin.size > 144) then Edited(v, false)
        else
          var r := DirRemove(v, p.parent, p.name);
          if r.ok then Edited(FreeInode(r.v, f.ent.ino), true) else Edited(r.v, false)
  }

  /** The next inode on the ".." chain as is_descendant follows it, or 0 where the loop stops. */
  function NextUp(v: Vol, cur: int): int {
    var din := GetInode(v, cur);
    if !InoValid(v, cur) || !IsDir(din.mode) || din.direct[0] == 0 then 0
    else
      var parent := EntryAt(Blk(v, din.direct[0]), 1).ino;
      if parent == cur then 0 else parent
  }

  /** The loop of is_descendant, started at cur, meets anc in round i. */
  predicate Hits(v: Vol, anc: int, cur: int, i: nat)
    decreases i
  {
    cur != 0 && cur != 1 && if i == 0 then cur == anc else cur != anc && Hits(v, anc, NextUp(v, cur), i - 1)
  }

  /** is_descendant */
  ghost predicate IsDescendant(v: Vol, anc: int, node: int) { exists i: nat :: Hits(v, anc, node, i) }

  /** What rename will do: refuse, agree that nothing is to be done, or move an entry. */
  datatype Plan = Refuse | Same | MoveTo(oldParent: int, slot: nat, ent: DirEnt, oldName: Name, newParent: int,
      newName: Name)

  /** The part of ipo_fs_rename before its first write. */
  ghost function RenamePlan(v: Vol, oldpath: seq<Byte>, newpath: seq<Byte>): Plan {
    var o, n := Resolve(v, oldpath), Resolve(v, newpath);
    var op := ResolveParent(v, oldpath);
    if oldpath == [SLASH] then Refuse
    else if o >= 0 && o == n then Same
    else if op.NoTarget? then Refuse
    else
      var f := DirFind(v, op.parent, op.name);
      if f.NotFound? || !InoValid(v, f.ent.ino) || Protected(GetInode(v, f.ent.ino).mode) then Refuse
      else if n >= 0 && !InoValid(v, n) then Refuse
      else if n >= 0 && IsDir(GetInode(v, n).mode) && f.ent.typ == TYPE_DIR && IsDescendant(v, f.ent.ino, n) then Refuse
      else
        var np := if n >= 0 && IsDir(GetInode(v, n).mode) then Target(n, op.name) else ResolveParent(v, newpath);
        if np.NoTarget? || !ValidName(np.name) then Refuse
        else
          var g := DirFind(v, np.parent, np.name);
          if g.Found? then (if g.ent.ino == f.ent.ino then Same else Refuse)
          else MoveTo(op.parent, f.slot, f.ent, op.name, np.parent, np.name)
  }

  /** The writes of ipo_fs_rename. */
  function MoveEntry(v: Vol, p: Plan): (r: Edited)
    requires WF(v) && p.MoveTo?
    ensures WF(r.v) && SameFrame(v, r.v)
  {
    var a := DirAdd(v, p.newParent, p.newName, p.ent.ino, p.ent.typ);
    if !a.ok then Edited(a.v, false)
    else
      var w := if p.ent.typ == TYPE_DIR && GetInode(a.v, p.ent.ino).direct[0] != 0 && 0 <= p.newParent < TWO32
               then SetSlotIno(a.v, p.ent.ino, 1, p.newParent) else a.v;
      DirRemove(w, p.oldParent, p.oldName)
  }

  /** ipo_fs_rename */
  ghost function Rename(v: Vol, oldpath: seq<Byte>, newpath: seq<Byte>): (r: Edited)
    requires WF(v)
    ensures WF(r.v) && SameFrame(v, r.v)
  {
    var p := RenamePlan(v, oldpath, newpath);
    if p.MoveTo? then MoveEntry(v, p) else Edited(v, p.Same?)
  }
}
