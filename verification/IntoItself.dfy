/**
 * The rename that breaks the tree, through the calls: on a formatted volume with one more directory "/d", renaming
 * "/d" to "/d/x" goes ahead and cuts the directory off.
 */
module IntoItself {
  import opened Bytes
  import opened Volume
  import opened BlockMap
  import opened Inodes
  import opened Directory
  import opened Paths
  import opened Api
  import opened VolTree
  import opened Calls
  import opened Format
  import opened Runs
  import opened PathEffects
  import T = Tree
  import TreePaths

  const D: Name := [100]
  const X: Name := [120]
  const OLD: seq<Byte> := [SLASH] + D
  const NEW: seq<Byte> := [SLASH] + D + [SLASH] + X

  /** One more directory in the root, made as format makes "/app" but not protected. */
  function WithDir(v: Vol): (r: Edited)
    requires WF(v)
    ensures WF(r.v)
  {
    var a := TakeInode(v, TYPE_DIR, 2);
    if a.phys < 0 || a.phys >= TWO32 then Edited(a.v, false)
    else
      var d := GiveDots(a.v, a.phys, 1, TYPE_DIR);
      if !d.ok then d else DirAdd(d.v, 1, D, a.phys, TYPE_DIR)
  }

  function DirTree(): T.Tree { T.Link(FormatTree(), 1, D, 4, 1, DirNode(4, TYPE_DIR)) }

  lemma NamesPlain()
    ensures Plain(D) && Plain(X) && ValidName(D) && ValidName(X) && NoNul(OLD) && NoNul(NEW)
    ensures Tokens(OLD) == [D] && Tokens(NEW) == [D, X]
  {
    assert forall i :: 0 <= i < |D| ==> NameChar(D[i]) && D[i] != 47 && D[i] != 0;
    assert forall i :: 0 <= i < |X| ==> NameChar(X[i]) && X[i] != 47 && X[i] != 0;
    OneToken(D);
    TwoTokens(D, X);
  }

  /** The volume and its tree. */
  lemma WithDirMade(super: Block, base: nat, inodes: nat, data: seq<Block>)
    requires 0 < base && base + |data| < 0x8000_0000 && 4 <= inodes < 0x8000_0000 && 3 <= |data|
    ensures var r := WithDir(FormatVol(Blank(super, base, inodes, data)).v);
            r.ok && FsInv(r.v) && TreeOf(r.v) == DirTree()
  {
    hide FsInv, TreeOf, OnlyFirst, DirAdd, GiveDots, TakeInode, T.Link, FormatVol, ValidName, Plain;
    FormatSucceeds(super, base, inodes, data);
    NamesPlain();
    FormatLog();
    DirFits(FormatVol(Blank(super, base, inodes, data)).v, TYPE_DIR, D, 3, 2);
  }

  function FormatEntries(): seq<Slot> { [Live(DOT, 1, 1), Live(DOTDOT, 1, 1), Live(APP, 2, 1), Live(AUTORUN, 3, 2)] }

  lemma FormatLog()
    ensures 1 in FormatTree() && FormatTree()[1] == T.Node(TYPE_DIR, FormatEntries())
    ensures T.Find(FormatTree()[1].log, D) == 4 == |FormatTree()[1].log|
  {
    var t := T.Link(RootTree(), 1, APP, 2, 1, DirNode(2, TYPE_DIR + PROTECTED_FLAG));
    assert t[1].log == [Live(DOT, 1, 1), Live(DOTDOT, 1, 1), Live(APP, 2, 1)];
    assert FormatTree()[1].log == FormatEntries();
  }

  /** Where the two paths lead. */
  lemma DirWalks()
    ensures var t := DirTree();
            && T.DirIn(t, 1) && T.DirIn(t, 4) && t[4] == DirNode(4, TYPE_DIR)
            && TreePaths.Step(t, 1, D) == 4 && TreePaths.Step(t, 4, X) == -1
            && TreePaths.Walk(t, 1, [D]) == 4 && TreePaths.Walk(t, 1, [D, X]) == -1
  {
    FormatLog();
    var t := DirTree();
    assert t[1].log == FormatEntries() + [Live(D, 4, 1)];
    T.FindAppend(FormatEntries(), D, 4, 1, X);
    hide FormatTree, DirTree;
    assert [D, X][1..] == [X];
  }

  /** What rename finds. */
  lemma Finds(v: Vol)
    requires WF(v) && FsInv(v) && TreeOf(v) == DirTree()
    ensures Resolve(v, OLD) == 4 && Resolve(v, NEW) == -1
    ensures ResolveParent(v, OLD) == Target(1, D) && ResolveParent(v, NEW) == Target(4, X)
    ensures var f := DirFind(v, 1, D); f.Found? && f.ent.ino == 4 && f.ent.typ == TYPE_DIR
    ensures DirFind(v, 4, X).NotFound? && Allocated(v, 4) && GetInode(v, 4).mode == TYPE_DIR
  {
    hide FsInv, TreeOf, DirTree, Plain, ValidName, DirFind, WF, TreePaths.Step, TreePaths.Walk;
    NamesPlain();
    DirWalks();
    ResolveWalks(v, [D]);
    ResolveWalks(v, [D, X]);
    DirOfTree(v, 1);
    DirOfTree(v, 4);
    assert NoNul(D) && NoNul(X) by { PlainNoNul(); }
    DirFindIsStep(v, 1, D);
    DirFindIsStep(v, 4, X);
    FoundEntry(v, 1, D);
    assert [D, X][..1] == [D] && [D][..0] == [];
  }

  lemma PlainNoNul()
    ensures NoNul(D) && NoNul(X)
  {
  }

  /** The plan: nothing refuses it. */
  lemma Plans(v: Vol)
    requires WF(v) && FsInv(v) && TreeOf(v) == DirTree()
    ensures var f := DirFind(v, 1, D); f.Found? && RenamePlan(v, OLD, NEW) == MoveTo(1, f.slot, f.ent, D, 4, X)
  {
    hide FsInv, TreeOf, DirTree, DirFind, ResolveParent, Resolve, IsDescendant, ValidName;
    Finds(v);
    NamesPlain();
    assert OLD != [SLASH] by { assert |OLD| == 2; }
  }

  /**
   * From a formatted volume with the directory "/d", rename("/d", "/d/x") succeeds and the tree is broken: the new
   * name does not exist yet, so the descendant test is not made.
   */
  lemma RenameBreaks(super: Block, base: nat, inodes: nat, data: seq<Block>)
    requires 0 < base && base + |data| < 0x8000_0000 && 4 <= inodes < 0x8000_0000 && 3 <= |data|
    ensures var v := WithDir(FormatVol(Blank(super, base, inodes, data)).v).v; var r := Rename(v, OLD, NEW);
            && FsInv(v) && Resolve(v, OLD) == 4
            && RenamePlan(v, OLD, NEW).MoveTo? && RenamePlan(v, OLD, NEW).ent.typ == TYPE_DIR
            && !FreshOutside(v, OLD, NEW) && r.ok && !FsInv(r.v)
  {
    hide FsInv, TreeOf, DirTree, DirFind, ResolveParent, Resolve, RenamePlan, DirAdd, MoveEntry, PlanOK, Blank,
      FormatVol, WithDir,
      ValidName, Plain, Log, DirsOK, Own, WF;
    var v := WithDir(FormatVol(Blank(super, base, inodes, data)).v).v;
    WithDirMade(super, base, inodes, data);
    NamesPlain();
    FsInvIs(v);
    Finds(v);
    Plans(v);
    DirWalks();
    DirOfTree(v, 4);
    DotsHaveRoom();
    AddFits(v, 4, X, 4, TYPE_DIR);
    PlanOKIs(v, OLD, NEW);
    MoveEffect(v, RenamePlan(v, OLD, NEW));
    assert T.Up(DirTree(), 4, 0) == 4;
    assert T.Inside(TreeOf(v), 4, 4);
    RenameKeepsIff(v, OLD, NEW);
  }

  lemma DotsHaveRoom()
    ensures var log := DirNode(4, TYPE_DIR).log; |log| == 2 && T.Find(log, X) == |log|
  {
  }

  /** Runs may start from that volume too: every legal run keeps its tree of three directories. */
  lemma RunsWithDir(super: Block, base: nat, inodes: nat, data: seq<Block>, ops: seq<Op>)
    requires 0 < base && base + |data| < 0x8000_0000 && 4 <= inodes < 0x8000_0000 && 3 <= |data|
    requires LegalRun(Mounted(WithDir(FormatVol(Blank(super, base, inodes, data)).v).v), ops)
    ensures var s := Mounted(WithDir(FormatVol(Blank(super, base, inodes, data)).v).v);
            SysInv(Run(s, ops)) && ProtectedStay(TreeOf(s.v), TreeOf(Run(s, ops).v))
  {
    hide FsInv, TreeOf, DirTree, Blank, FormatVol, WithDir, Run, LegalRun, ProtectedStay;
    WithDirMade(super, base, inodes, data);
    var s := Mounted(WithDir(FormatVol(Blank(super, base, inodes, data)).v).v);
    assert SysInv(s);
    RunKeeps(s, ops);
  }

  /** A volume with no descriptor open. */
  function Mounted(v: Vol): Fs { Fs(v, seq(32, _ => Fd(false, 0))) }
}
