/** What create, delete and rename do to path resolution. */
module PathEffects {
  import opened Bytes
  import opened Volume
  import opened Inodes
  import opened Directory
  import opened Paths
  import opened Api
  import opened VolTree
  import opened Calls
  import opened Dotless
  import T = Tree
  import TreePaths

  /** Resolution is a walk in the tree, from the root. */
  lemma ResolveWalks(v: Vol, toks: seq<Name>)
    requires WF(v) && FsInv(v) && AllPlain(toks)
    ensures ResolveFrom(v, 1, toks) == TreePaths.Walk(TreeOf(v), 1, toks)
    ensures TreePaths.PlainNames(toks)
  {
    assert Allocated(v, 1) by { assert T.DirIn(TreeOf(v), 1); }
    ResolveIsWalk(v, 1, toks);
    assert forall i :: 0 <= i < |toks| ==> Plain(toks[i]);
  }

  /** A resolved parent, as tokens. */
  lemma ParentTokens(v: Vol, path: seq<Byte>)
    requires WF(v) && FsInv(v) && NoNul(path) && ResolveParent(v, path).Target?
    ensures var toks := Tokens(path); var p := ResolveParent(v, path);
            && AllPlain(toks) && |toks| > 0 && AllPlain(toks[..|toks| - 1]) && toks == toks[..|toks| - 1] + [p.name]
            && TreePaths.Walk(TreeOf(v), 1, toks[..|toks| - 1]) == p.parent >= 0
            && TreePaths.PlainNames(toks) && TreePaths.PlainNames(toks[..|toks| - 1])
  {
    hide FsInv, TreeOf, WF, Plain, DirFind, Tokens, ResolveFrom, TreePaths.Walk, TreePaths.PlainNames;
    var toks := Tokens(path);
    TokensPlain(path);
    ResolveWalks(v, toks);
    ResolveWalks(v, toks[..|toks| - 1]);
  }

  // ---------------------------------------------------------------------
  // In the tree

  /** Every plain path after a create: the new one leads to the new inode, all others where they led, or nowhere. */
  lemma {:induction false} WalkCreate(t: T.Tree, d: int, name: Name, n: Word, typ: Byte, pd: seq<Name>,
        names: seq<Name>)
    requires T.TreeInv(t) && T.DirIn(t, d) && n !in t && T.Find(t[d].log, name) == |t[d].log|
    requires TreePaths.PlainNames(pd) && TreePaths.PlainNames(names) && TreePaths.Walk(t, 1, pd) == d
    ensures TreePaths.Walk(T.Create(t, d, name, n, typ), 1, names)
            == if names == pd + [name] then n else TreePaths.Walk(t, 1, names)
    decreases |names|
  {
    hide T.TreeInv, T.Find, T.Create, TreePaths.Step;
    var u := T.Create(t, d, name, n, typ);
    if names != [] {
      var front, s := names[..|names| - 1], names[|names| - 1];
      assert names == front + [s];
      WalkCreate(t, d, name, n, typ, pd, front);
      TreePaths.WalkLast(u, 1, front, s);
      TreePaths.WalkLast(t, 1, front, s);
      RootIn(t);
      T.NoNegative(t, d);
      StepCreate(t, d, name, n, typ, d, name);
      assert names == pd + [name] <==> front == pd && s == name by {
        assert (pd + [name])[..|pd|] == pd;
      }
      if front == pd + [name] {
        TreePaths.WalkLast(t, 1, pd, name);
        StepCreate(t, d, name, n, typ, n, s);
      } else if TreePaths.Walk(t, 1, front) >= 0 {
        var x := TreePaths.Walk(t, 1, front);
        TreePaths.WalkIn(t, 1, front);
        StepCreate(t, d, name, n, typ, x, s);
        if x == d { TreePaths.PathsUnique(t, front, pd); }
      }
    } else {
      RootIn(t);
    }
  }

  lemma StepCreate(t: T.Tree, d: int, name: Name, n: Word, typ: Byte, x: int, s: Name)
    requires T.DirIn(t, d) && n !in t && T.Find(t[d].log, name) == |t[d].log| && (x in t || x == n)
    ensures TreePaths.Step(T.Create(t, d, name, n, typ), x, s)
            == if x == n then -1 else if x == d && s == name then n else TreePaths.Step(t, x, s)
    ensures TreePaths.Step(t, d, name) == -1
  {
    var u := T.Create(t, d, name, n, typ);
    T.FindAppend(t[d].log, name, n, typ, s);
    if x != d && x != n { assert u[x] == t[x]; }
  }

  /** Nothing but dots to step by: an empty directory, or a file, leads nowhere. */
  lemma StepEmpty(t: T.Tree, n: int, s: Name)
    requires T.TreeInv(t) && (T.DirIn(t, n) ==> |t[n].log| <= 2) && s != DOT && s != DOTDOT
    ensures TreePaths.Step(t, n, s) == -1
  {
    if T.DirIn(t, n) { assert T.Dotted(t, n); }
  }

  /** Every plain path after a delete: one that led to the inode leads nowhere, all others as before. */
  lemma {:induction false} WalkDelete(t: T.Tree, d: int, e: int, n: int, names: seq<Name>)
    requires T.TreeInv(t) && T.Entry(t, d, e, n) && (T.DirIn(t, n) ==> |t[n].log| <= 2)
    requires TreePaths.PlainNames(names)
    ensures var r := TreePaths.Walk(t, 1, names);
            TreePaths.Walk(T.Delete(t, d, e, n), 1, names) == if r == n then -1 else r
    decreases |names|
  {
    var u := T.Delete(t, d, e, n);
    RootIn(t);
    EntryFacts(t, d, e, n);
    hide T.TreeInv, T.Find, T.Delete, TreePaths.Step, T.Entry;
    if names != [] {
      var front, s := names[..|names| - 1], names[|names| - 1];
      assert names == front + [s];
      WalkDelete(t, d, e, n, front);
      TreePaths.WalkLast(u, 1, front, s);
      TreePaths.WalkLast(t, 1, front, s);
      var x := TreePaths.Walk(t, 1, front);
      if x == n {
        StepEmpty(t, n, s);
      } else if x >= 0 {
        TreePaths.WalkIn(t, 1, front);
        StepDelete(t, d, e, n, x, s);
      }
    }
  }

  lemma StepDelete(t: T.Tree, d: int, e: int, n: int, x: int, s: Name)
    requires T.TreeInv(t) && T.Entry(t, d, e, n) && d != n && x in t && x != n && s != DOT && s != DOTDOT
    ensures var r := TreePaths.Step(t, x, s);
            TreePaths.Step(T.Delete(t, d, e, n), x, s) == if r == n then -1 else r
  {
    var u := T.Delete(t, d, e, n);
    T.NoNegative(t, d);
    EntryPositive(t, d, e, n);
    TreePaths.EntryStep(t, d, e, n);
    if TreePaths.Step(t, x, s) == n {
      TreePaths.StepEntry(t, x, s);
      assert x == d && T.Find(t[x].log, s) == e;
    }
    assert T.Dotted(t, d);
    hide T.TreeInv;
    if x == d { T.FindBury(t[d].log, e, s); } else { assert u[x] == t[x]; }
  }

  lemma EntryPositive(t: T.Tree, d: int, e: int, n: int)
    requires T.TreeInv(t) && T.Entry(t, d, e, n)
    ensures n > 0
  {
    assert T.GoodEntry(t, d, e, n);
    T.NoNegative(t, n);
  }

  lemma RootIn(t: T.Tree)
    requires T.TreeInv(t)
    ensures 1 in t && T.DirIn(t, 1)
  {
  }

  lemma EntryFacts(t: T.Tree, d: int, e: int, n: int)
    requires T.TreeInv(t) && T.Entry(t, d, e, n) && (T.DirIn(t, n) ==> |t[n].log| <= 2)
    ensures n != 1 && n > 0 && d != n && d in t
  {
    assert T.GoodEntry(t, d, e, n);
    T.NoNegative(t, n);
  }

  // ---------------------------------------------------------------------
  // On the volume

  /**
   * After a create, of a file or a directory, the path leads to the new inode, and every other path where it led
   * before, or nowhere still.
   */
  lemma CreateResolves(v: Vol, path: seq<Byte>, typ: Byte, other: seq<Byte>)
    requires WF(v) && FsInv(v) && NoNul(path) && NoNul(other) && Create(v, path, typ).ret > 0
    ensures var r := Create(v, path, typ);
            Resolve(r.v, other) == if Tokens(other) == Tokens(path) then r.ret else Resolve(v, other)
  {
    var r := Create(v, path, typ);
    var t := TreeOf(v);
    CreateEffect(v, path, typ);
    ParentTokens(v, path);
    TokensPlain(other);
    ResolveWalks(v, Tokens(other));
    FsInvIs(v);
    hide FsInv, Create, ResolveParent, TreeOf, T.Create, T.Find, T.DirIn, Sound, Owned, DirsOK, Linked, T.TreeInv,
      AllNamed, Allocated,
      Tokens, ResolveFrom;
    TreeLinked(t);
    SoundIs(v);
    CreateSound(v, path, typ);
    SoundRoot(r.v);
    SoundWalk(r.v, 1, Tokens(other));
    var p := ResolveParent(v, path);
    WalkCreate(t, p.parent, p.name, r.ret, typ, Tokens(path)[..|Tokens(path)| - 1], Tokens(other));
  }

  /**
   * After a delete every path that led to the inode leads nowhere, and every other path where it led, or nowhere
   * still.
   */
  lemma DeleteUnresolves(v: Vol, path: seq<Byte>, other: seq<Byte>)
    requires WF(v) && FsInv(v) && NoNul(path) && NoNul(other) && Delete(v, path).ok
    ensures var w := Delete(v, path).v; var n := Resolve(v, path);
            n > 0 && Resolve(w, other) == if Resolve(v, other) == n then -1 else Resolve(v, other)
  {
    var w := Delete(v, path).v;
    var t := TreeOf(v);
    DeleteEffect(v, path);
    ResolveComposes(v, path);
    TokensPlain(other);
    ResolveWalks(v, Tokens(other));
    ResolveWalks(w, Tokens(other));
    FsInvIs(v);
    hide FsInv, Delete, ResolveParent, TreeOf, T.Delete, T.Find, DirFind;
    var p := ResolveParent(v, path);
    var f := DirFind(v, p.parent, p.name);
    EntryPositive(t, p.parent, f.slot, f.ent.ino);
    WalkDelete(t, p.parent, f.slot, f.ent.ino, Tokens(other));
  }

  /** The tokens of the place a rename moves to: inside the directory named, or the new path itself. */
  function NewTokens(v: Vol, oldName: Name, newpath: seq<Byte>): seq<Name> {
    if Resolve(v, newpath) >= 0 then Tokens(newpath) + [oldName] else Tokens(newpath)
  }

  /** A successful move, told in the tree. */
  lemma RenameMoved(v: Vol, oldpath: seq<Byte>, newpath: seq<Byte>)
    requires WF(v) && FsInv(v) && NoNul(oldpath) && NoNul(newpath) && FreshOutside(v, oldpath, newpath)
    requires RenamePlan(v, oldpath, newpath).MoveTo? && Rename(v, oldpath, newpath).ok
    ensures var w := Rename(v, oldpath, newpath).v; var p := RenamePlan(v, oldpath, newpath); var t := TreeOf(v);
            && FsInv(w) && 0 <= p.newParent < TWO32
            && T.MoveReady(t, p.oldParent, p.slot, p.ent.ino, p.newParent, p.newName)
            && (T.DirIn(t, p.ent.ino) ==> !T.Inside(t, p.ent.ino, p.newParent))
            && T.Entry(t, p.oldParent, p.slot, p.ent.ino) && t[p.oldParent].log[p.slot].name == p.oldName
            && TreeOf(w) == T.Move(t, p.oldParent, p.slot, p.ent.ino, p.newParent, p.newName)
  {
    RenameEffect(v, oldpath, newpath);
    InsideGuard(v, oldpath, newpath);
    PlanIs(v, oldpath, newpath);
    hide FsInv, Rename, RenamePlan, TreeOf, T.Move, T.MoveReady, T.TreeInv, Owned, DirsOK, FreshOutside, Plain;
  }

  /** Where tokens lead after a rename, told on the volume before it. */
  function Redirected(v: Vol, m: int, o: seq<Name>, n: seq<Name>, toks: seq<Name>): int {
    if n <= toks then ResolveFrom(v, m, toks[|n|..])
    else if o <= toks then -1
    else ResolveFrom(v, 1, toks)
  }

  lemma RedirectedWalk(v: Vol, m: int, o: seq<Name>, n: seq<Name>, toks: seq<Name>)
    requires WF(v) && FsInv(v) && Allocated(v, m) && AllPlain(toks)
    ensures Redirected(v, m, o, n, toks) == TreePaths.Rerouted(TreeOf(v), m, o, n, toks)
  {
    hide FsInv, TreeOf, WF, Plain, Allocated, TreePaths.Walk, ResolveFrom;
    ResolveWalks(v, toks);
    if n <= toks {
      var rest := toks[|n|..];
      assert forall i :: 0 <= i < |rest| ==> rest[i] == toks[|n| + i];
      ResolveIsWalk(v, m, rest);
    }
  }

  /**
   * After a rename that moved an entry, for all tokens: what lay below the moved inode lies below the new place, the
   * old place and all below it lead nowhere, and every other path leads where it led before, or nowhere still.
   */
  lemma RenameRoutes(v: Vol, oldpath: seq<Byte>, newpath: seq<Byte>, toks: seq<Name>)
    requires WF(v) && FsInv(v) && NoNul(oldpath) && NoNul(newpath) && AllPlain(toks)
    requires FreshOutside(v, oldpath, newpath)
    requires RenamePlan(v, oldpath, newpath).MoveTo? && Rename(v, oldpath, newpath).ok
    ensures var w := Rename(v, oldpath, newpath).v; var p := RenamePlan(v, oldpath, newpath);
            ResolveFrom(w, 1, toks) == Redirected(v, p.ent.ino, Tokens(oldpath), NewTokens(v, p.oldName, newpath), toks)
  {
    RenameMoved(v, oldpath, newpath);
    RenameParts(v, oldpath, newpath);
    MovedIn(v, oldpath, newpath);
    hide FsInv, Rename, RenamePlan, TreeOf, T.Move, T.MoveReady, T.TreeInv, T.Entry, T.Inside, FreshOutside,
      ResolveFrom, Plain,
      NewTokens, TreePaths.Walk, TreePaths.Outside, TreePaths.PlainNames, WF, Redirected, TreePaths.Rerouted,
          Allocated, Tokens;
    var w := Rename(v, oldpath, newpath).v;
    var p := RenamePlan(v, oldpath, newpath);
    var o, n := Tokens(oldpath), NewTokens(v, p.oldName, newpath);
    ResolveWalks(v, toks);
    ResolveWalks(w, toks);
    RedirectedWalk(v, p.ent.ino, o, n, toks);
    TreePaths.RenamePaths(TreeOf(v), p.oldParent, p.slot, p.ent.ino, p.newParent, p.newName, o[..|o| - 1],
        n[..|n| - 1], toks);
  }

  lemma MovedIn(v: Vol, oldpath: seq<Byte>, newpath: seq<Byte>)
    requires WF(v) && FsInv(v) && NoNul(oldpath) && NoNul(newpath) && RenamePlan(v, oldpath, newpath).MoveTo?
    ensures Allocated(v, RenamePlan(v, oldpath, newpath).ent.ino)
  {
    PlanIs(v, oldpath, newpath);
    hide FsInv, RenamePlan, T.Entry, Plain;
  }

  /** The same for every path given as a string. */
  lemma RenameResolves(v: Vol, oldpath: seq<Byte>, newpath: seq<Byte>, other: seq<Byte>)
    requires WF(v) && FsInv(v) && NoNul(oldpath) && NoNul(newpath) && NoNul(other)
    requires FreshOutside(v, oldpath, newpath)
    requires RenamePlan(v, oldpath, newpath).MoveTo? && Rename(v, oldpath, newpath).ok
    ensures var w := Rename(v, oldpath, newpath).v; var p := RenamePlan(v, oldpath, newpath);
            var o, n, toks := Tokens(oldpath), NewTokens(v, p.oldName, newpath), Tokens(other);
            Resolve(w, other)
            == if n <= toks then ResolveFrom(v, p.ent.ino, toks[|n|..]) else if o <= toks then -1 else Resolve(v, other)
  {
    TokensPlain(other);
    hide FsInv, Rename, RenamePlan, FreshOutside, ResolveFrom, Plain, NewTokens, WF, Tokens;
    RenameRoutes(v, oldpath, newpath, Tokens(other));
  }

  /** After a rename, what lay below the old path lies below the new place, and nothing else does. */
  lemma RenameCarries(v: Vol, oldpath: seq<Byte>, newpath: seq<Byte>, rest: seq<Name>)
    requires WF(v) && FsInv(v) && NoNul(oldpath) && NoNul(newpath) && AllPlain(rest)
    requires FreshOutside(v, oldpath, newpath)
    requires RenamePlan(v, oldpath, newpath).MoveTo? && Rename(v, oldpath, newpath).ok
    ensures var w := Rename(v, oldpath, newpath).v; var p := RenamePlan(v, oldpath, newpath);
            ResolveFrom(w, 1, NewTokens(v, p.oldName, newpath) + rest) == ResolveFrom(v, 1, Tokens(oldpath) + rest)
  {
    RenameParts(v, oldpath, newpath);
    MovedIn(v, oldpath, newpath);
    var p := RenamePlan(v, oldpath, newpath);
    var o := Tokens(oldpath);
    var pq := NewTokens(v, p.oldName, newpath);
    AllPlainConcat(o, rest);
    AllPlainConcat(pq, rest);
    assert (pq + rest)[|pq|..] == rest;
    assert pq <= pq + rest;
    hide FsInv, Rename, RenamePlan, TreeOf, T.TreeInv, T.Entry, T.Inside, FreshOutside, ResolveFrom, AllPlain,
      NewTokens, TreePaths.Walk, TreePaths.PlainNames, WF, Tokens, Allocated;
    RenameRoutes(v, oldpath, newpath, pq + rest);
    ResolveWalks(v, o + rest);
    ResolveIsWalk(v, p.ent.ino, rest);
    TreePaths.WalkAppend(TreeOf(v), 1, o, rest);
    OldPathLeads(TreeOf(v), p.oldParent, p.slot, p.ent.ino, o[..|o| - 1], p.oldName);
    EntryPositive(TreeOf(v), p.oldParent, p.slot, p.ent.ino);
  }

  lemma AllPlainConcat(a: seq<Name>, b: seq<Name>)
    requires AllPlain(a) && AllPlain(b)
    ensures AllPlain(a + b)
  {
    hide Plain;
  }

  lemma OldPathLeads(t: T.Tree, d: int, e: int, m: int, pd: seq<Name>, s: Name)
    requires T.TreeInv(t) && T.Entry(t, d, e, m) && t[d].log[e].name == s && TreePaths.Walk(t, 1, pd) == d
    ensures TreePaths.Walk(t, 1, pd + [s]) == m
  {
    TreePaths.EntryStep(t, d, e, m);
    TreePaths.WalkLast(t, 1, pd, s);
    T.NoNegative(t, d);
  }

  /** A moved directory is never moved into itself. */
  lemma InsideGuard(v: Vol, oldpath: seq<Byte>, newpath: seq<Byte>)
    requires WF(v) && FsInv(v) && NoNul(oldpath) && NoNul(newpath) && FreshOutside(v, oldpath, newpath)
    requires RenamePlan(v, oldpath, newpath).MoveTo?
    ensures var p := RenamePlan(v, oldpath, newpath); var t := TreeOf(v);
            T.DirIn(t, p.ent.ino) ==> !T.Inside(t, p.ent.ino, p.newParent)
  {
    PlanIs(v, oldpath, newpath);
    hide FsInv, RenamePlan, TreeOf, Plain;
  }

  /** The tokens of both places of a rename, and where they lead. */
  lemma RenameParts(v: Vol, oldpath: seq<Byte>, newpath: seq<Byte>)
    requires WF(v) && FsInv(v) && NoNul(oldpath) && NoNul(newpath) && RenamePlan(v, oldpath, newpath).MoveTo?
    ensures var p := RenamePlan(v, oldpath, newpath); var t := TreeOf(v); var o := Tokens(oldpath);
            var pq := NewTokens(v, p.oldName, newpath);
            && |o| > 0 && AllPlain(o) && o == o[..|o| - 1] + [p.oldName] && TreePaths.PlainNames(o[..|o| - 1])
            && TreePaths.Walk(t, 1, o[..|o| - 1]) == p.oldParent
            && |pq| > 0 && AllPlain(pq) && pq == pq[..|pq| - 1] + [p.newName] && TreePaths.PlainNames(pq[..|pq| - 1])
            && TreePaths.Walk(t, 1, pq[..|pq| - 1]) == p.newParent
            && T.Entry(t, p.oldParent, p.slot, p.ent.ino) && t[p.oldParent].log[p.slot].name == p.oldName
            && T.TreeInv(t)
  {
    FsInvIs(v);
    OldParts(v, oldpath, newpath);
    NewParts(v, oldpath, newpath);
    hide *;
  }

  lemma OldParts(v: Vol, oldpath: seq<Byte>, newpath: seq<Byte>)
    requires WF(v) && FsInv(v) && NoNul(oldpath) && NoNul(newpath) && RenamePlan(v, oldpath, newpath).MoveTo?
    ensures var p := RenamePlan(v, oldpath, newpath); var t := TreeOf(v); var o := Tokens(oldpath);
            && |o| > 0 && AllPlain(o) && o == o[..|o| - 1] + [p.oldName] && TreePaths.PlainNames(o[..|o| - 1])
            && TreePaths.Walk(t, 1, o[..|o| - 1]) == p.oldParent
            && T.Entry(t, p.oldParent, p.slot, p.ent.ino) && t[p.oldParent].log[p.slot].name == p.oldName
            && Plain(p.oldName)
  {
    PlanParts(v, oldpath, newpath);
    PlanIs(v, oldpath, newpath);
    ParentTokens(v, oldpath);
    hide FsInv, RenamePlan, TreeOf, ResolveFrom, DirFind, T.Entry, Plain, ValidName, IsDescendant, ResolveParent,
      Tokens;
  }

  lemma NewParts(v: Vol, oldpath: seq<Byte>, newpath: seq<Byte>)
    requires WF(v) && FsInv(v) && NoNul(oldpath) && NoNul(newpath) && RenamePlan(v, oldpath, newpath).MoveTo?
    ensures var p := RenamePlan(v, oldpath, newpath); var t := TreeOf(v); var pq := NewTokens(v, p.oldName, newpath);
            && |pq| > 0 && AllPlain(pq) && pq == pq[..|pq| - 1] + [p.newName] && TreePaths.PlainNames(pq[..|pq| - 1])
            && TreePaths.Walk(t, 1, pq[..|pq| - 1]) == p.newParent
  {
    hide FsInv, RenamePlan, TreeOf, ResolveFrom, DirFind, T.Entry, Plain, ValidName, IsDescendant, ResolveParent,
      Tokens, WF, GetInode,
      TreePaths.Walk, NoNul;
    OldParts(v, oldpath, newpath);
    var p := RenamePlan(v, oldpath, newpath);
    if Resolve(v, newpath) >= 0 {
      NewIsDir(v, oldpath, newpath);
      TokensPlain(newpath);
      ResolveWalks(v, Tokens(newpath));
      AppendName(Tokens(newpath), p.oldName);
    } else {
      PlanParts(v, oldpath, newpath);
      ParentTokens(v, newpath);
    }
  }

  lemma AppendName(a: seq<Name>, s: Name)
    requires AllPlain(a) && Plain(s)
    ensures var r := a + [s]; AllPlain(r) && r[..|r| - 1] == a && r == r[..|r| - 1] + [s]
  {
    hide Plain;
  }

  /** A plan to move whose new path resolves is a move into that directory under the old name. */
  lemma NewIsDir(v: Vol, oldpath: seq<Byte>, newpath: seq<Byte>)
    requires WF(v) && RenamePlan(v, oldpath, newpath).MoveTo? && Resolve(v, newpath) >= 0
    ensures var p := RenamePlan(v, oldpath, newpath); p.newParent == Resolve(v, newpath) && p.newName == p.oldName
  {
    PlanParts(v, oldpath, newpath);
    if ResolveParent(v, newpath).Target? { ResolveComposes(v, newpath); }
    hide RenamePlan, Resolve, DirFind, ResolveParent, ValidName, IsDescendant, GetInode;
  }
}
