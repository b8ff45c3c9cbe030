/** A run from format that orphans two files: create("/d", directory), two files in it, delete("/d"). */
module Orphans {
  import opened Bytes
  import opened Volume
  import opened BlockMap
  import opened Inodes
  import opened Directory
  import opened Paths
  import opened Api
  import opened VolTree
  import opened Calls
  import opened Runs
  import opened Format
  import opened Dotless
  import opened PathEffects
  import IntoItself
  import T = Tree
  import TreePaths

  const D: Name := IntoItself.D
  const A: Name := [97]
  const B: Name := [98]
  const PATH_D: seq<Byte> := [SLASH] + D
  const PATH_A: seq<Byte> := [SLASH] + D + [SLASH] + A
  const PATH_B: seq<Byte> := [SLASH] + D + [SLASH] + B
  const TYPE_FILE: Byte := 2

  lemma NamesPlain()
    ensures Plain(D) && Plain(A) && Plain(B) && ValidName(D) && ValidName(A) && ValidName(B)
    ensures NoNul(PATH_D) && NoNul(PATH_A) && NoNul(PATH_B)
    ensures Tokens(PATH_D) == [D] && Tokens(PATH_A) == [D, A] && Tokens(PATH_B) == [D, B]
  {
    assert forall i :: 0 <= i < |D| ==> NameChar(D[i]) && D[i] != 47 && D[i] != 0;
    assert forall i :: 0 <= i < |A| ==> NameChar(A[i]) && A[i] != 47 && A[i] != 0;
    assert forall i :: 0 <= i < |B| ==> NameChar(B[i]) && B[i] != 47 && B[i] != 0;
    OneToken(D);
    TwoTokens(D, A);
    TwoTokens(D, B);
  }

  // ---------------------------------------------------------------------
  // When a create succeeds

  /** The first entry of a directory needs one free block. */
  lemma AddFirst(v: Vol, d: int, name: Name, n: Word, typ: Byte)
    requires Owned(v) && DirsOK(v) && Allocated(v, d) && IsDir(GetInode(v, d).mode)
    requires ValidName(name) && SlotCount(GetInode(v, d)) == 0 && !Full(v)
    ensures DirAdd(v, d, name, n, typ).ok
  {
    var din := GetInode(v, d);
    assert PathOf(0) == [Direct(0)];
    if P(v, din, Direct(0)) == 0 { GrowTakes(v, din, Direct(0)); }
    assert GetBlock(v, din, 0, true).phys >= 0;
    assert FindFrom(v, din, name, 0) == 0;
    hide GetBlock, Own, DirsOK;
  }

  lemma CreateGoes(v: Vol, path: seq<Byte>, typ: Byte, d: int, name: Name, k: nat)
    requires Sound(v) && NoNul(path) && ResolveParent(v, path) == Target(d, name) && ValidName(name)
    requires T.DirIn(TreeOf(v), d) && T.Find(TreeOf(v)[d].log, name) == |TreeOf(v)[d].log| < 7
    requires |TreeOf(v)[d].log| == 0 ==> !Full(v)
    requires OnlyFirst(v.inoUsed, k) && k < |v.inodes|
    ensures var r := Create(v, path, typ);
            && r.ret == k + 1 && OnlyFirst(r.v.inoUsed, k + 1) && Sound(r.v)
            && TreeOf(r.v) == T.Create(TreeOf(v), d, name, k + 1, typ)
            && (|TreeOf(v)[d].log| > 0 ==> r.v.used == v.used)
  {
    hide Sound, Own, DirsOK, DirAdd, FreeInode, AllocInode, ResolveParent, DirFind, TreeOf, Create, OffX, Allocated,
      Linked, T.Find,
      T.DirIn, OnlyFirst, T.Create, AllNamed, Full, Bounded, ValidName, GetInode, WF;
    SoundRoot(v);
    NameFree(v, d, name);
    FreshIno(v, k, typ);
    CreateIs(v, path, typ);
    var w := PutInode(AllocInode(v).v, k + 1, NEW_FILE.(mode := typ));
    TakeTree(v, typ);
    TakenNode(v, w, k + 1, d, typ);
    SameFull(v, w);
    AddGoes(w, d, name, k + 1, typ);
    CreateSound(v, path, typ);
  }

  lemma NameFree(v: Vol, d: int, name: Name)
    requires Sound(v) && T.DirIn(TreeOf(v), d) && ValidName(name)
             && T.Find(TreeOf(v)[d].log, name) == |TreeOf(v)[d].log|
    ensures DirFind(v, d, name).NotFound?
  {
    SoundRoot(v);
    ValidNameNoNul(name);
    NodeIs(v, d);
    DirFindIn(v, d, name);
    hide Sound, TreeOf, DirFind;
  }

  lemma TakenNode(v: Vol, w: Vol, n: int, d: int, typ: Byte)
    requires WF(v) && WF(w) && T.DirIn(TreeOf(v), d) && !Allocated(v, n) && TreeOf(w) == TreeOf(v)[n := T.Node(typ, [])]
    ensures T.DirIn(TreeOf(w), d) && TreeOf(w)[d] == TreeOf(v)[d]
  {
    assert d != n by { NodeIs(v, d); }
    hide TreeOf;
  }

  /** An add to a directory with a free name and room in its first block. */
  lemma AddGoes(w: Vol, d: int, name: Name, n: Word, typ: Byte)
    requires Owned(w) && DirsOK(w) && T.DirIn(TreeOf(w), d) && n != 0 && ValidName(name)
    requires T.Find(TreeOf(w)[d].log, name) == |TreeOf(w)[d].log| < 7 && (|TreeOf(w)[d].log| == 0 ==> !Full(w))
    ensures var r := DirAdd(w, d, name, n, typ);
            r.ok && r.v.inoUsed == w.inoUsed && (|TreeOf(w)[d].log| > 0 ==> r.v.used == w.used)
  {
    hide Own, DirsOK, DirAdd, TreeOf, T.Find, Full, Log, T.Add;
    NodeIs(w, d);
    if |TreeOf(w)[d].log| > 0 { AddFits(w, d, name, n, typ); } else { AddFirst(w, d, name, n, typ); }
    AddOutcome(w, d, name, n, typ);
  }

  lemma SameFull(v: Vol, w: Vol)
    requires w.used == v.used
    ensures Full(w) <==> Full(v)
  {
  }

  lemma FreshIno(v: Vol, k: nat, typ: Byte)
    requires WF(v) && OnlyFirst(v.inoUsed, k) && k < |v.inodes|
    ensures var a := AllocInode(v); var w := PutInode(a.v, a.phys, NEW_FILE.(mode := typ));
            a.phys == k + 1 < TWO32 && OnlyFirst(w.inoUsed, k + 1)
  {
    OnlyFirstNext(v.inoUsed, k);
  }

  // ---------------------------------------------------------------------
  // The trees on the way

  function Tree1(): T.Tree { T.Create(FormatTree(), 1, D, 4, TYPE_DIR) }

  function Tree2(): T.Tree
    requires 4 in Tree1()
  {
    T.Create(Tree1(), 4, A, 5, TYPE_FILE)
  }

  function Tree3(): T.Tree
    requires 4 in Tree1() && 4 in Tree2()
  {
    T.Create(Tree2(), 4, B, 6, TYPE_FILE)
  }

  lemma Trees()
    ensures 1 in FormatTree() && FormatTree()[1].mode == TYPE_DIR
            && T.Find(FormatTree()[1].log, D) == 4 == |FormatTree()[1].log|
    ensures T.DirIn(Tree1(), 1) && T.DirIn(Tree1(), 4) && Tree1()[4] == T.Node(TYPE_DIR, [])
            && TreePaths.Step(Tree1(), 1, D) == 4
    ensures T.DirIn(Tree2(), 1) && T.DirIn(Tree2(), 4) && Tree2()[4] == T.Node(TYPE_DIR, [Live(A, 5, 2)])
            && TreePaths.Step(Tree2(), 1, D) == 4
    ensures T.DirIn(Tree3(), 1) && T.DirIn(Tree3(), 4) && Tree3()[4] == T.Node(TYPE_DIR, [Live(A, 5, 2), Live(B, 6, 2)])
    ensures TreePaths.Step(Tree3(), 1, D) == 4 && Tree3()[1].log == IntoItself.FormatEntries() + [Live(D, 4, 1)]
    ensures T.Find([Live(A, 5, 2)], B) == 1
  {
    IntoItself.FormatLog();
    var log := IntoItself.FormatEntries() + [Live(D, 4, 1)];
    assert Tree1()[1].log == log;
    T.FindAppend(IntoItself.FormatEntries(), D, 4, 1, D);
    assert Tree2()[1].log == log && Tree2()[4].log == [Live(A, 5, 2)];
    assert Tree3()[1].log == log && Tree3()[4].log == [Live(A, 5, 2), Live(B, 6, 2)];
  }

  // ---------------------------------------------------------------------
  // The run

  /** The parents of the three paths. */
  lemma Parents(v: Vol)
    requires Sound(v)
    ensures ResolveParent(v, PATH_D) == Target(1, D)
    ensures TreePaths.Step(TreeOf(v), 1, D) == 4
            ==> ResolveParent(v, PATH_A) == Target(4, A) && ResolveParent(v, PATH_B) == Target(4, B)
  {
    NamesPlain();
    SoundRoot(v);
    SoundWalk(v, 1, [D]);
    hide Sound, TreeOf, DirFind, Plain, TreePaths.Step;
    assert [D, A][..1] == [D] && [D, B][..1] == [D] && [D][..0] == [];
  }

  function Ops(): seq<Op> {
    [CreateOp(PATH_D, TYPE_DIR), CreateOp(PATH_A, TYPE_FILE), CreateOp(PATH_B, TYPE_FILE), DeleteOp(PATH_D)]
  }

  /** The volume after the first create. */
  lemma FirstCreate(v: Vol)
    requires WF(v) && FsInv(v) && TreeOf(v) == FormatTree() && OnlyFirst(v.inoUsed, 3) && OnlyFirst(v.used, 2)
    requires |v.inodes| >= 6 && |v.used| >= 3
    ensures var a := Create(v, PATH_D, TYPE_DIR);
            && a.ret == 4 && Sound(a.v) && AllNamed(TreeOf(a.v)) && TreeOf(a.v) == Tree1() && OnlyFirst(a.v.inoUsed, 4)
            && !Full(a.v)
  {
    FsInvIs(v);
    hide Sound, TreeOf, Create, ResolveParent, OnlyFirst, T.Create, AllNamed, FormatTree, Tree2, Tree3, T.Find, FsInv,
      Full,
      TreePaths.Step, Linked, T.TreeInv, ValidName, Plain, NoNul, Tokens, DirsOK, Own;
    TreeLinked(TreeOf(v));
    SoundIs(v);
    Trees();
    NamesPlain();
    SpareBlock(v);
    Parents(v);
    RootIn(TreeOf(v));
    CreateGoes(v, PATH_D, TYPE_DIR, 1, D, 3);
    CreateSound(v, PATH_D, TYPE_DIR);
    SameFull(v, Create(v, PATH_D, TYPE_DIR).v);
  }

  /** The volume after the three creates. */
  lemma ThreeCreates(v: Vol)
    requires WF(v) && FsInv(v) && TreeOf(v) == FormatTree() && OnlyFirst(v.inoUsed, 3) && OnlyFirst(v.used, 2)
    requires |v.inodes| >= 6 && |v.used| >= 3
    ensures var a := Create(v, PATH_D, TYPE_DIR); var b := Create(a.v, PATH_A, TYPE_FILE);
            var c := Create(b.v, PATH_B, TYPE_FILE);
            && a.ret == 4 && b.ret == 5 && c.ret == 6
            && Sound(c.v) && AllNamed(TreeOf(c.v)) && 4 in Tree1() && 4 in Tree2() && TreeOf(c.v) == Tree3()
  {
    hide Sound, TreeOf, Create, ResolveParent, OnlyFirst, T.Create, AllNamed, FormatTree, Tree1, T.Find, FsInv, Full,
      TreePaths.Step, Linked, T.TreeInv, ValidName, Plain, NoNul, Tokens, WF;
    FirstCreate(v);
    Trees();
    NamesPlain();
    var a := Create(v, PATH_D, TYPE_DIR).v;
    Parents(a);
    EmptyFind(A);
    CreateGoes(a, PATH_A, TYPE_FILE, 4, A, 4);
    CreateSound(a, PATH_A, TYPE_FILE);
    var b := Create(a, PATH_A, TYPE_FILE).v;
    Parents(b);
    CreateGoes(b, PATH_B, TYPE_FILE, 4, B, 5);
    CreateSound(b, PATH_B, TYPE_FILE);
  }

  lemma SpareBlock(v: Vol)
    requires OnlyFirst(v.used, 2) && |v.used| >= 3
    ensures !Full(v)
  {
    NotFull(v, 2);
  }

  lemma EmptyFind(s: Name)
    ensures T.Find([], s) == 0
  {
  }

  /** Delete takes a stored directory for empty exactly when it has at most two slots, live or not. */
  lemma SizeTest(v: Vol, d: int)
    requires WF(v) && DirsOK(v) && T.DirIn(TreeOf(v), d)
    ensures GetInode(v, d).size > 144 <==> |TreeOf(v)[d].log| > 2
  {
    NodeIs(v, d);
  }

  /** The two entries of "/d", and the test of delete. */
  lemma ReadyToDelete(v: Vol)
    requires Sound(v) && 4 in Tree1() && 4 in Tree2() && TreeOf(v) == Tree3()
    ensures ResolveParent(v, PATH_D) == Target(1, D) && NoNul(PATH_D)
    ensures var f := DirFind(v, 1, D);
            f.Found? && f.ent.ino == 4 && Proper(TreeOf(v), 1, f.slot, 4) && !Refuses(v, f.ent)
    ensures Proper(TreeOf(v), 4, 0, 5) && Proper(TreeOf(v), 4, 1, 6)
  {
    Trees();
    NamesPlain();
    SoundRoot(v);
    hide Sound, TreeOf, ResolveParent, Tree1, Tree2, Tree3, T.Find, TreePaths.Step, Linked, DirFind, Plain, ValidName,
      NoNul,
      FormatTree, DirsOK, Own;
    Parents(v);
    SlotTyp(v);
    SizeTest(v, 4);
    NodeIs(v, 4);
    EntriesProper(TreeOf(v));
  }

  lemma EntriesProper(t: T.Tree)
    requires T.DirIn(t, 4) && t[4].log == [Live(A, 5, 2), Live(B, 6, 2)]
    ensures Proper(t, 4, 0, 5) && Proper(t, 4, 1, 6)
  {
  }

  /** "/d" holds two files and can be deleted; they stay allocated, and no path leads to them. */
  lemma DeleteOrphans(v: Vol, other: seq<Byte>)
    requires Sound(v) && AllNamed(TreeOf(v)) && 4 in Tree1() && 4 in Tree2() && TreeOf(v) == Tree3() && NoNul(other)
    ensures var r := Delete(v, PATH_D);
            && r.ok && !Allocated(r.v, 4) && Allocated(r.v, 5) && Allocated(r.v, 6)
            && Resolve(r.v, other) != 5 && Resolve(r.v, other) != 6
  {
    hide *;
    SoundRoot(v);
    ReadyToDelete(v);
    DeleteSound(v, PATH_D);
    var f := DirFind(v, 1, D);
    GoneNode(TreeOf(v), 1, f.slot, 4);
    InTree(Delete(v, PATH_D).v, 4);
    OrphanLost(v, PATH_D, 0, 5, other);
    OrphanLost(v, PATH_D, 1, 6, other);
  }

  lemma GoneNode(t: T.Tree, d: int, e: int, n: int)
    requires Proper(t, d, e, n)
    ensures n !in Removed(t, d, e, n)
  {
  }

  /** The entry of "/d". */
  lemma SlotTyp(v: Vol)
    requires Sound(v) && T.DirIn(TreeOf(v), 1) && TreePaths.Step(TreeOf(v), 1, D) == 4
    requires TreeOf(v)[1].log == IntoItself.FormatEntries() + [Live(D, 4, 1)]
    ensures var f := DirFind(v, 1, D);
            f.Found? && f.ent.ino == 4 && f.ent.typ == TYPE_DIR && Proper(TreeOf(v), 1, f.slot, 4)
  {
    hide Sound, TreeOf, DirFind, ValidName, NoNul, Tokens, IntoItself.FormatEntries, TreePaths.Step, SlotOf;
    SoundRoot(v);
    NamesPlain();
    SoundStep(v, 1, D);
    LastEntry(TreeOf(v)[1].log, DirFind(v, 1, D).slot);
    EntIs(DirFind(v, 1, D).ent);
  }

  lemma EntIs(ent: DirEnt)
    ensures SlotOf(ent).Live? ==> SlotOf(ent).typ == ent.typ && SlotOf(ent).ino == ent.ino
  {
  }

  lemma LastEntry(log: seq<Slot>, e: nat)
    requires log == IntoItself.FormatEntries() + [Live(D, 4, 1)] && e < |log| && log[e].Live? && log[e].ino == 4
    ensures log[e].typ == 1
  {
    assert log[0].ino == 1 && log[1].ino == 1 && log[2].ino == 2 && log[3].ino == 3;
  }

  /**
   * From format on: create("/d", directory), create("/d/a"), create("/d/b"), delete("/d"). All four succeed, and the
   * inodes of the two files, 5 and 6, stay allocated while no path leads to them any more.
   */
  lemma RunOrphans(super: Block, base: nat, inodes: nat, data: seq<Block>, other: seq<Byte>)
    requires 0 < base && base + |data| < 0x8000_0000 && 6 <= inodes < 0x8000_0000 && 3 <= |data| && NoNul(other)
    ensures AllSized(Ops())
    ensures var v := Run(Fresh(super, base, inodes, data), Ops()).v;
            && !Allocated(v, 4) && Allocated(v, 5) && Allocated(v, 6)
            && Resolve(v, other) != 5 && Resolve(v, other) != 6
  {
    hide Sound, TreeOf, Delete, Create, Rename, Write, Open, AllNamed, Tree1, Tree2, Tree3, Resolve, FsInv, OnlyFirst,
      FormatTree, FormatVol,
      HasProtected, NoNul;
    FormatSucceeds(super, base, inodes, data);
    var s := Fresh(super, base, inodes, data);
    ThreeCreates(s.v);
    var a := Step(s, Ops()[0]);
    var b := Step(a, Ops()[1]);
    var c := Step(b, Ops()[2]);
    DeleteOrphans(c.v, other);
    OneMore(s, Ops());
    OneMore(a, Ops()[1..]);
    OneMore(b, Ops()[2..]);
    OneMore(c, Ops()[3..]);
    assert Ops()[1..][1..] == Ops()[2..] && Ops()[2..][1..] == Ops()[3..] && Ops()[3..][1..] == [];
  }

  lemma OneMore(s: Fs, ops: seq<Op>)
    requires WF(s.v) && AllSized(ops) && ops != []
    ensures Run(s, ops) == Run(Step(s, ops[0]), ops[1..]) && Run(Step(s, ops[0]), []) == Step(s, ops[0])
  {
    hide Step, WF;
  }
}
