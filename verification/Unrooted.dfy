/**
 * A run from format that frees the root: a directory made by create gets two files, is renamed, and has its second file
 * deleted. The rename stored the root's number into the slot of that file.
 */
module Unrooted {
  import opened Bytes
  import opened Volume
  import opened BlockMap
  import opened Inodes
  import opened Directory
  import opened Paths
  import opened Api
  import opened Owners
  import opened VolTree
  import opened Calls
  import opened Runs
  import opened Format
  import opened Dotless
  import opened Orphans
  import IntoItself
  import T = Tree

  const E: Name := [101]
  const PATH_E: seq<Byte> := [SLASH] + E
  const PATH_EB: seq<Byte> := [SLASH] + E + [SLASH] + B

  lemma MoreNames()
    ensures Plain(E) && ValidName(E) && NoNul(PATH_E) && NoNul(PATH_EB) && NoNul(E) && NoNul(B) && NoNul(D)
    ensures Tokens(PATH_E) == [E] && Tokens(PATH_EB) == [E, B]
  {
    NamesPlain();
    assert forall i :: 0 <= i < |E| ==> NameChar(E[i]) && E[i] != 47 && E[i] != 0;
    OneToken(E);
    TwoTokens(E, B);
  }

  // ---------------------------------------------------------------------
  // The rename

  function RootLog(): seq<Slot> { IntoItself.FormatEntries() + [Live(D, 4, 1)] }

  function LogAfter(): seq<Slot> { IntoItself.FormatEntries() + [Tomb, Live(E, 4, 1)] }

  predicate TreeBefore(t: T.Tree) {
    1 in t && 4 in t && t[1] == T.Node(TYPE_DIR, RootLog()) && t[4] == T.Node(TYPE_DIR, [Live(A, 5, 2), Live(B, 6, 2)])
  }

  predicate TreeAfter(t: T.Tree) {
    1 in t && 4 in t && t[1] == T.Node(TYPE_DIR, LogAfter()) && t[4] == T.Node(TYPE_DIR, [Live(A, 5, 2), Live(B, 1, 2)])
  }

  /** The volume after the three creates, as far as it matters here. */
  ghost predicate Before(v: Vol)
    requires WF(v)
  {
    Sound(v) && TreeBefore(TreeOf(v))
  }

  /** The volume after the rename: the second slot of the directory names the root. */
  ghost predicate After(v: Vol)
    requires WF(v)
  {
    Owned(v) && DirsOK(v) && TreeAfter(TreeOf(v))
  }

  lemma RootFinds()
    ensures |RootLog()| == 5 && T.Find(RootLog(), D) == 4 && T.Find(RootLog(), E) == 5 && RootLog()[4] == Live(D, 4, 1)
    ensures T.Find(RootLog() + [Live(E, 4, 1)], D) == 4 && (RootLog() + [Live(E, 4, 1)])[4] == Live(D, 4, 1)
    ensures (RootLog() + [Live(E, 4, 1)])[4 := Tomb] == LogAfter()
  {
    T.FindAppend(IntoItself.FormatEntries(), D, 4, 1, E);
    T.FindAppend(RootLog(), E, 4, 1, D);
  }

  lemma AfterFinds()
    ensures |LogAfter()| == 6 && T.Find(LogAfter(), E) == 5 && LogAfter()[5] == Live(E, 4, 1)
    ensures T.Find([Live(A, 5, 2), Live(B, 1, 2)], B) == 1
  {
    var log := [Live(A, 5, 2), Live(B, 1, 2)];
    assert A[0] != B[0];
    assert LogFind(log, B, 1) == 1;
  }

  /** What rename finds. */
  lemma RenameFinds(v: Vol)
    requires WF(v) && Before(v)
    ensures Resolve(v, PATH_D) == 4 && Resolve(v, PATH_E) == -1
    ensures ResolveParent(v, PATH_D) == Target(1, D) && ResolveParent(v, PATH_E) == Target(1, E)
    ensures var f := DirFind(v, 1, D); f.Found? && f.ent.ino == 4 && f.ent.typ == TYPE_DIR && f.slot == 4
    ensures DirFind(v, 1, E).NotFound? && InoValid(v, 4) && GetInode(v, 4).mode == TYPE_DIR
  {
    SoundRoot(v);
    NodeIs(v, 4);
    RootLooks(v);
    NamesPlain();
    MoreNames();
    hide Sound, TreeOf, Plain, ValidName, DirFind, T.Find, RootLog, Own, DirsOK, TreeBefore, Linked;
    OneStepPath(v, D);
    OneStepPath(v, E);
    assert [D][..0] == [] && [E][..0] == [];
  }

  /** The two lookups in the root. */
  lemma RootLooks(v: Vol)
    requires WF(v) && Before(v)
    ensures var f := DirFind(v, 1, D); f.Found? && f.ent.ino == 4 && f.ent.typ == TYPE_DIR && f.slot == 4
    ensures DirFind(v, 1, E).NotFound?
  {
    SoundRoot(v);
    MoreNames();
    RootFinds();
    hide Sound, TreeOf, Plain, ValidName, DirFind, T.Find, RootLog, Own, DirsOK, Linked, SlotOf, NoNul, Tokens;
    DirFindIn(v, 1, D);
    DirFindIn(v, 1, E);
    SlotEnt(DirFind(v, 1, D));
  }

  lemma SlotEnt(f: Found)
    ensures f.Found? && SlotOf(f.ent).Live? ==> SlotOf(f.ent).typ == f.ent.typ && SlotOf(f.ent).ino == f.ent.ino
  {
  }

  lemma OneStepPath(v: Vol, s: Name)
    ensures ResolveFrom(v, 1, [s]) == (var f := DirFind(v, 1, s); if f.Found? then f.ent.ino else -1)
  {
    assert [s][1..] == [];
    hide DirFind;
  }

  lemma RenamePlanned(v: Vol)
    requires WF(v) && Before(v)
    ensures var f := DirFind(v, 1, D); f.Found? && RenamePlan(v, PATH_D, PATH_E) == MoveTo(1, f.slot, f.ent, D, 1, E)
  {
    RenameFinds(v);
    MoreNames();
    assert PATH_D != [SLASH] by { assert |PATH_D| == 2; }
    hide Sound, TreeOf, DirFind, ResolveParent, Resolve, IsDescendant, ValidName, Before;
  }

  /** The edits of rename, in the tree. */
  lemma TreeSteps(t: T.Tree)
    requires TreeBefore(t)
    ensures T.DirIn(t, 1) && T.DirIn(t, 4) && T.Find(t[1].log, E) == |t[1].log| == 5 && |t[4].log| == 2
            && t[4].log[1].Live?
    ensures var u := T.SetPar(T.Add(t, 1, E, 4, 1), 4, 1);
            && T.DirIn(u, 1) && T.Find(u[1].log, D) == 4 < |u[1].log| && u[1].log[4].Live? && u[1].log[4].ino == 4
            && 4 in u && u[4].mode == TYPE_DIR && TreeAfter(T.Bury(u, 1, 4))
  {
    RootFinds();
    hide RootLog, LogAfter, T.Find;
    var u := T.SetPar(T.Add(t, 1, E, 4, 1), 4, 1);
    assert u[1].log == RootLog() + [Live(E, 4, 1)];
    assert u[4].log == [Live(A, 5, 2), Live(B, 1, 2)];
  }

  lemma RenameDone(v: Vol)
    requires WF(v) && Before(v)
    ensures var r := Rename(v, PATH_D, PATH_E); r.ok && After(r.v)
  {
    SoundRoot(v);
    RenameFinds(v);
    RenamePlanned(v);
    TreeSteps(TreeOf(v));
    MoreNames();
    NamesPlain();
    var p := RenamePlan(v, PATH_D, PATH_E);
    AddGoes(v, 1, E, 4, TYPE_DIR);
    hide *;
    MoveDone(v, p);
    RenameByPlan(v);
  }

  lemma RenameByPlan(v: Vol)
    requires WF(v) && RenamePlan(v, PATH_D, PATH_E).MoveTo?
    ensures Rename(v, PATH_D, PATH_E) == MoveEntry(v, RenamePlan(v, PATH_D, PATH_E))
  {
  }

  lemma MoveDone(v: Vol, p: Plan)
    requires WF(v) && Owned(v) && DirsOK(v) && TreeBefore(TreeOf(v)) && p.MoveTo?
    requires p.oldParent == 1 && p.ent.ino == 4 && p.ent.typ == TYPE_DIR && p.oldName == D && p.newParent == 1
             && p.newName == E
    requires DirAdd(v, 1, E, 4, TYPE_DIR).ok
    ensures MoveEntry(v, p).ok && After(MoveEntry(v, p).v)
  {
    TreeSteps(TreeOf(v));
    NamesPlain();
    InTree(v, 1);
    hide TreeBefore, TreeAfter, DirAdd, DirRemove, SetSlotIno, TreeOf, Own, DirsOK, T.Find, Plain, RootLog, LogAfter,
      T.SetPar, T.Bury;
    RelinkStep(v, p);
    BuryTree(Relinked(v, p), 1, 4, D);
    AfterIs(MoveEntry(v, p).v);
  }

  lemma AfterIs(v: Vol)
    requires Owned(v) && DirsOK(v) && TreeAfter(TreeOf(v))
    ensures After(v)
  {
  }

  // ---------------------------------------------------------------------
  // The delete

  /** What delete finds: an entry for the root, of the type of a file. */
  lemma DeleteFinds(v: Vol)
    requires WF(v) && After(v)
    ensures ResolveParent(v, PATH_EB) == Target(4, B) && Allocated(v, 1) && Allocated(v, 4)
    ensures var f := DirFind(v, 4, B); f.Found? && f.ent.ino == 1 && f.ent.typ == TYPE_FILE
    ensures GetInode(v, 1).mode == TYPE_DIR && SlotCount(GetInode(v, 1)) == 6
  {
    hide *;
    AfterLooks(v);
    AfterNodes(v);
    MoreNames();
    OneStepPath(v, E);
    ParentOfTwo(v, PATH_EB, E, B);
  }

  lemma AfterNodes(v: Vol)
    requires WF(v) && After(v)
    ensures Allocated(v, 1) && Allocated(v, 4) && GetInode(v, 1).mode == TYPE_DIR && SlotCount(GetInode(v, 1)) == 6
  {
    AfterFinds();
    NodeIs(v, 1);
    InTree(v, 4);
    hide TreeOf, T.Find, LogAfter, Own, DirsOK;
  }

  /** The parent of a path of two tokens. */
  lemma ParentOfTwo(v: Vol, path: seq<Byte>, a: Name, b: Name)
    requires Tokens(path) == [a, b] && ResolveFrom(v, 1, [a]) >= 0
    ensures ResolveParent(v, path) == Target(ResolveFrom(v, 1, [a]), b)
  {
    assert [a, b][..1] == [a];
    hide Tokens, ResolveFrom;
  }

  lemma AfterLooks(v: Vol)
    requires WF(v) && After(v)
    ensures var f := DirFind(v, 1, E); f.Found? && f.ent.ino == 4
    ensures var f := DirFind(v, 4, B); f.Found? && f.ent.ino == 1 && f.ent.typ == TYPE_FILE
  {
    MoreNames();
    AfterFinds();
    InTree(v, 1);
    InTree(v, 4);
    hide TreeOf, Plain, ValidName, DirFind, T.Find, LogAfter, Own, DirsOK, SlotOf, NoNul, Tokens;
    DirFindIn(v, 1, E);
    DirFindIn(v, 4, B);
    SlotEnt(DirFind(v, 1, E));
    SlotEnt(DirFind(v, 4, B));
  }

  /** The root is freed: its slots can no longer be read. */
  lemma DeleteUnroots(v: Vol)
    requires WF(v) && After(v)
    ensures var r := Delete(v, PATH_EB);
            r.ok && !Allocated(r.v, 1) && GetInode(r.v, 1).direct[0] == 0 && SlotCount(GetInode(r.v, 1)) == 6
  {
    DeleteFinds(v);
    NamesPlain();
    AfterFinds();
    RootGone(v);
    var f := DirFind(v, 4, B);
    hide *;
    DeleteIs(v, f);
    FreedRoot(DirRemove(v, 4, B).v);
  }

  lemma RootGone(v: Vol)
    requires WF(v) && After(v)
    ensures var r := DirRemove(v, 4, B); r.ok && Owned(r.v) && r.v.inodes == v.inodes && InoValid(v, 1)
  {
    NamesPlain();
    AfterFinds();
    InTree(v, 1);
    hide TreeOf, Plain, ValidName, T.Find, LogAfter, Own, DirsOK, DirRemove, Bounded, T.Bury;
    BuryTree(v, 4, 1, B);
    RemoveKept(v, 4, B);
  }

  lemma DeleteIs(v: Vol, f: Found)
    requires WF(v) && ResolveParent(v, PATH_EB) == Target(4, B) && f == DirFind(v, 4, B) && f.Found? && f.ent.ino == 1
    requires f.ent.typ == TYPE_FILE && InoValid(v, 1) && GetInode(v, 1).mode == TYPE_DIR && DirRemove(v, 4, B).ok
    ensures Delete(v, PATH_EB) == Edited(FreeInode(DirRemove(v, 4, B).v, 1), true)
  {
    hide ResolveParent, DirFind, DirRemove, FreeInode, GetInode;
  }

  lemma FreedRoot(x: Vol)
    requires WF(x) && InoValid(x, 1) && SlotCount(GetInode(x, 1)) == 6
    ensures var w := FreeInode(x, 1);
            !Allocated(w, 1) && GetInode(w, 1).direct[0] == 0 && SlotCount(GetInode(w, 1)) == 6
  {
    assert FreedDirects(x.inodes[0]) >= 1;
    hide ClearBits, FreedPtrs;
  }

  /** In a directory without its first block nothing is found. */
  lemma NothingFound(v: Vol, d: int, s: Name)
    requires SlotCount(GetInode(v, d)) < 7 && GetInode(v, d).direct[0] == 0
    ensures DirFind(v, d, s).NotFound?
  {
    ScanNothing(v, GetInode(v, d), s, 0);
  }

  lemma {:induction false} ScanNothing(v: Vol, ino: Inode, s: Name, e: nat)
    requires SlotCount(ino) < 7 && ino.direct[0] == 0 && e <= SlotCount(ino)
    ensures FindFrom(v, ino, s, e) == SlotCount(ino)
    decreases SlotCount(ino) - e
  {
    if e < SlotCount(ino) {
      assert Lookup(v, ino, 0) == 0 && e / 7 == 0;
      ScanNothing(v, ino, s, e + 1);
    }
  }

  // ---------------------------------------------------------------------
  // The run

  function UnrootOps(): seq<Op> {
    [CreateOp(PATH_D, TYPE_DIR), CreateOp(PATH_A, TYPE_FILE), CreateOp(PATH_B, TYPE_FILE), RenameOp(PATH_D, PATH_E),
        DeleteOp(PATH_EB)]
  }

  lemma BeforeIs(v: Vol)
    requires Sound(v) && 4 in Tree1() && 4 in Tree2() && TreeOf(v) == Tree3()
    ensures WF(v) && Before(v)
  {
    SoundRoot(v);
    Trees();
    RootMode();
    hide TreeOf, Tree3, Tree2, Tree1, Sound, Own, DirsOK, Linked;
  }

  lemma RootMode()
    ensures 4 in Tree1() && 4 in Tree2() && 1 in Tree3() && Tree3()[1].mode == TYPE_DIR
  {
    Trees();
    hide FormatTree;
  }

  /**
   * From format on: create("/d", directory), create("/d/a"), create("/d/b"), rename("/d", "/e"), delete("/e/b"). The
   * last call frees inode 1, and no path but the root itself leads anywhere any more, "/app" and "/autorun" included.
   */
  lemma RunUnroots(super: Block, base: nat, inodes: nat, data: seq<Block>, other: seq<Byte>)
    requires 0 < base && base + |data| < 0x8000_0000 && 6 <= inodes < 0x8000_0000 && 3 <= |data| && Tokens(other) != []
    ensures AllSized(UnrootOps())
    ensures var v := Run(Fresh(super, base, inodes, data), UnrootOps()).v; !Allocated(v, 1) && Resolve(v, other) == -1
  {
    var ops := UnrootOps();
    var s := Fresh(super, base, inodes, data);
    FiveSteps(s);
    FormatSucceeds(super, base, inodes, data);
    hide Sound, TreeOf, Delete, Create, Rename, AllNamed, Tree1, Tree2, Tree3, FsInv, OnlyFirst, FormatTree, FormatVol,
      HasProtected,
      Tokens, Before, After, SlotCount, GetInode, DirFind;
    ThreeCreates(s.v);
    var v := Create(Create(Create(s.v, PATH_D, TYPE_DIR).v, PATH_A, TYPE_FILE).v, PATH_B, TYPE_FILE).v;
    BeforeIs(v);
    RenameDone(v);
    var x := Rename(v, PATH_D, PATH_E).v;
    DeleteUnroots(x);
    NothingFound(Delete(x, PATH_EB).v, 1, Tokens(other)[0]);
  }

  lemma FiveSteps(s: Fs)
    requires WF(s.v)
    ensures AllSized(UnrootOps())
    ensures var v := Create(Create(Create(s.v, PATH_D, TYPE_DIR).v, PATH_A, TYPE_FILE).v, PATH_B, TYPE_FILE).v;
            Run(s, UnrootOps()).v == Delete(Rename(v, PATH_D, PATH_E).v, PATH_EB).v
  {
    hide Create, Rename, Delete, WF, Write, Open;
    var ops := UnrootOps();
    var a := Step(s, ops[0]);
    var b := Step(a, ops[1]);
    var c := Step(b, ops[2]);
    var d := Step(c, ops[3]);
    OneMore(s, ops);
    OneMore(a, ops[1..]);
    OneMore(b, ops[2..]);
    OneMore(c, ops[3..]);
    OneMore(d, ops[4..]);
    assert ops[1..][1..] == ops[2..] && ops[2..][1..] == ops[3..] && ops[3..][1..] == ops[4..] && ops[4..][1..] == [];
  }
}
