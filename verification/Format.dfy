/** The volume format leaves behind: the base of every run. */
module Format {
  import opened Bytes
  import opened Volume
  import opened BlockMap
  import opened FileData
  import opened Inodes
  import opened Directory
  import opened Paths
  import opened Api
  import opened VolTree
  import opened Calls
  import opened Runs
  import T = Tree
  import TreePaths

  const PROTECTED_FLAG := 0x8000_0000
  const APP: Name := [97, 112, 112]
  const AUTORUN: Name := [97, 117, 116, 111, 114, 117, 110]

  /** Bitmaps and inode table zeroed; the data blocks hold whatever the disk held. */
  function Blank(super: Block, base: nat, inodes: nat, data: seq<Block>): (v: Vol)
    requires 0 < base && base + |data| < 0x8000_0000 && inodes < 0x8000_0000
    ensures WF(v)
  {
    Vol(super, base, seq(inodes, _ => false), seq(inodes, _ => ZERO_INODE), seq(|data|, _ => false), data)
  }

  /** write_dir_dots */
  function Dots(self: Word, parent: Word): Block {
    PutEntry(PutEntry(ZERO_BLOCK, 0, NewEnt(DOT, self, 1)), 1, NewEnt(DOTDOT, parent, 1))
  }

  function DirInode(mode: Word, block: Word): Inode {
    Inode(mode, 144, 2, [block, 0, 0, 0, 0, 0], 0, 0, Zeros(32))
  }

  /** Gives directory n its first block and its two dots. */
  function GiveDots(v: Vol, n: Word, parent: Word, mode: Word): (r: Edited)
    requires WF(v)
    ensures WF(r.v) && SameFrame(v, r.v)
  {
    var a := AllocBlock(v);
    if a.phys < 0 then Edited(v, false)
    else Edited(PutInode(SetBlk(a.v, a.phys, Dots(n, parent)), n, DirInode(mode, a.phys)), true)
  }

  /** Marks inode slot 1 as taken, for the root. */
  function TakeRoot(v: Vol): (w: Vol)
    requires WF(v)
    ensures WF(w) && SameFrame(v, w)
  {
    if v.inoUsed == [] then v
        else PutInode(v.(inoUsed := v.inoUsed[0 := true]), 1, NEW_FILE.(mode := TYPE_DIR, links := 2))
  }

  /** Takes the next inode, with the given mode and link count. */
  function TakeInode(v: Vol, mode: Word, links: Word): (r: Alloc)
    requires WF(v)
    ensures WF(r.v) && SameFrame(v, r.v) && r.phys != 0
  {
    var a := AllocInode(v);
    if a.phys < 0 then a else Alloc(PutInode(a.v, a.phys, NEW_FILE.(mode := mode, links := links)), a.phys)
  }

  /** /app: a protected directory in the root. */
  function MakeApp(v: Vol): (r: Edited)
    requires WF(v)
    ensures WF(r.v) && SameFrame(v, r.v)
  {
    var a := TakeInode(v, TYPE_DIR + PROTECTED_FLAG, 2);
    if a.phys < 0 || a.phys >= TWO32 then Edited(a.v, false)
    else
      var d := GiveDots(a.v, a.phys, 1, TYPE_DIR + PROTECTED_FLAG);
      if !d.ok then d else DirAdd(d.v, 1, APP, a.phys, TYPE_DIR)
  }

  /** /autorun: a protected empty file in the root. */
  function MakeAutorun(v: Vol): (r: Edited)
    requires WF(v)
    ensures WF(r.v) && SameFrame(v, r.v)
  {
    var a := TakeInode(v, 2 + PROTECTED_FLAG, 1);
    if a.phys < 0 || a.phys >= TWO32 then Edited(a.v, false) else DirAdd(a.v, 1, AUTORUN, a.phys, 2)
  }

  /** ipo_fs_format, from the zeroed regions on. */
  function FormatVol(v: Vol): (r: Edited)
    requires WF(v)
    ensures WF(r.v) && SameFrame(v, r.v)
  {
    var d := GiveDots(TakeRoot(v), 1, 1, TYPE_DIR);
    if !d.ok then d
    else
      var a := MakeApp(d.v);
      if !a.ok then a else MakeAutorun(a.v)
  }

  // ---------------------------------------------------------------------
  // Fresh directories

  lemma DotsEntries(self: Word, parent: Word, j: nat)
    requires j < 7
    ensures EntryAt(Dots(self, parent), j)
            == if j == 0 then NewEnt(DOT, self, 1) else if j == 1 then NewEnt(DOTDOT, parent, 1) else ZERO_ENT
  {
    var b := PutEntry(ZERO_BLOCK, 0, NewEnt(DOT, self, 1));
    EntryAtZero(j);
    EntryAtPut(ZERO_BLOCK, 0, NewEnt(DOT, self, 1), j);
    EntryAtPut(b, 1, NewEnt(DOTDOT, parent, 1), j);
  }

  lemma DirInodePtrs(w: Vol, mode: Word, p: Word, k: Key)
    ensures P(w, DirInode(mode, p), k) == if k == Direct(0) then p else 0
  {
  }

  /** The pointers and blocks of every other inode are untouched. */
  lemma GiveDotsOff(v: Vol, n: Word, parent: Word, mode: Word)
    requires Owned(v) && InoValid(v, n) && !Full(v)
    ensures var r := GiveDots(v, n, parent, mode);
            r.ok && Owned(r.v) && OffX(v, r.v, n) && (Allocated(r.v, n) <==> Allocated(v, n))
  {
    var a := AllocBlock(v);
    var p := a.phys;
    var w := GiveDots(v, n, parent, mode).v;
    assert forall q :: q != p ==> Blk(w, q) == Blk(v, q);
    assert forall q :: Used(w, q) <==> Used(v, q) || q == p;
    assert !Used(v, p);
    forall m | InoValid(v, m) && m != n ensures GetInode(w, m) == GetInode(v, m) && Undisturbed(v, w, GetInode(v, m)) {
      FreshUndisturbed(v, w, v.inodes, m - 1, p);
    }
    forall m, k | 0 <= m < |v.inodes| && m != n - 1 ensures P(w, w.inodes[m], k) == P(v, v.inodes[m], k) {
      assert Undisturbed(v, w, GetInode(v, m + 1));
    }
    var mine := w.inodes[n - 1];
    forall k ensures P(w, mine, k) == if k == Direct(0) then p else 0 { DirInodePtrs(w, mode, p, k); }
    hide P, Blk, Undisturbed, GiveDots;
  }

  /** Changes to a block no pointer names disturb no inode. */
  lemma FreshUndisturbed(v: Vol, w: Vol, t: seq<Inode>, m: nat, p: int)
    requires WF(v) && Own(v, t) && m < |t| && !Used(v, p) && w.base == v.base
    requires forall q :: q != p ==> Blk(w, q) == Blk(v, q)
    ensures Undisturbed(v, w, t[m])
  {
    var a := t[m];
    forall k ensures P(w, a, k) == P(v, a, k) {
      assert P(v, a, Ind) == a.indirect && P(v, a, Dbl) == a.dbl;
      if k.Leaf? { assert P(v, a, DblSlot(k.i)) == Sub(v, a.dbl, k.i); }
      hide Blk, PtrAt;
    }
    hide P, Blk;
  }

  lemma GiveDotsBlock(v: Vol, n: Word, parent: Word, mode: Word)
    requires WF(v) && InoValid(v, n) && !Full(v)
    ensures var w := GiveDots(v, n, parent, mode).v; var ino := GetInode(w, n); var p := Lookup(w, ino, 0);
            && ino.mode == mode && ino.size == 144 && p != 0 && Blk(w, p) == Dots(n, parent)
  {
    hide Dots;
    var a := AllocBlock(v);
    var w := GiveDots(v, n, parent, mode).v;
    assert GetInode(w, n) == DirInode(mode, a.phys);
    DirInodePtrs(w, mode, a.phys, Direct(0));
  }

  lemma GiveDotsLog(v: Vol, n: Word, parent: Word, mode: Word)
    requires WF(v) && InoValid(v, n) && !Full(v) && n != 0 && parent != 0
    ensures var w := GiveDots(v, n, parent, mode).v; var ino := GetInode(w, n);
            && DirOK(w, ino) && ino.mode == mode
            && Log(w, ino) == [Live(DOT, n, 1), Live(DOTDOT, parent, 1)]
  {
    hide GiveDots, Lookup, Blk, Dots, NewEnt, GoodEnt, SlotOf, GetInode;
    var w := GiveDots(v, n, parent, mode).v;
    var ino := GetInode(w, n);
    GiveDotsBlock(v, n, parent, mode);
    DotsEntries(n, parent, 0);
    DotsEntries(n, parent, 1);
    NewEntGood(DOT, n, 1);
    NewEntGood(DOTDOT, parent, 1);
    assert EntryOf(w, ino, 0) == NewEnt(DOT, n, 1) && EntryOf(w, ino, 1) == NewEnt(DOTDOT, parent, 1);
    assert GoodSlot(w, ino, 0) && GoodSlot(w, ino, 1);
  }

  // ---------------------------------------------------------------------
  // The tree after format

  function DirNode(n: Word, mode: Word): T.Node { T.Node(mode, [Live(DOT, n, 1), Live(DOTDOT, 1, 1)]) }

  function RootTree(): T.Tree { map[1 := DirNode(1, TYPE_DIR)] }

  lemma RootTreeInv()
    ensures T.TreeInv(RootTree())
  {
    var t := RootTree();
    assert T.DirIn(t, 1) && T.Par(t, 1) == 1;
    assert T.Up(t, 1, 0) == 1;
    assert T.UniqueNames(t[1].log);
  }

  lemma BlankOwned(super: Block, base: nat, inodes: nat, data: seq<Block>)
    requires 0 < base && base + |data| < 0x8000_0000 && inodes < 0x8000_0000
    ensures var v := Blank(super, base, inodes, data); Owned(v) && DirsOK(v) && TreeOf(v) == map[]
  {
    var v := Blank(super, base, inodes, data);
    forall n, k | 0 <= n < |v.inodes| ensures P(v, v.inodes[n], k) == 0 { ZeroInodeEmpty(v, k); }
    assert forall n :: n !in TreeOf(v);
    hide P;
  }

  lemma TakeRootTree(v: Vol)
    requires Owned(v) && DirsOK(v) && TreeOf(v) == map[] && |v.inodes| > 0 && v.inodes[0] == ZERO_INODE
    ensures var w := TakeRoot(v);
            Owned(w) && OffX(v, w, 1) && Allocated(w, 1) && w.used == v.used
  {
    var w := TakeRoot(v);
    OwnFields(v, v.inodes, w, w.inodes);
    forall m | InoValid(v, m) && m != 1 ensures Undisturbed(v, w, GetInode(v, m)) {
      FieldsUndisturbed(v, w, GetInode(v, m));
    }
    hide Own, Undisturbed;
  }

  /** Root with its dots: a tree of one node. */
  lemma RootMade(v: Vol)
    requires Owned(v) && DirsOK(v) && TreeOf(v) == map[] && |v.inodes| > 0 && v.inodes[0] == ZERO_INODE && !Full(v)
    ensures var r := GiveDots(TakeRoot(v), 1, 1, TYPE_DIR);
            r.ok && FsInv(r.v) && TreeOf(r.v) == RootTree()
  {
    var w := TakeRoot(v);
    TakeRootTree(v);
    GiveDotsOff(w, 1, 1, TYPE_DIR);
    GiveDotsLog(w, 1, 1, TYPE_DIR);
    var x := GiveDots(w, 1, 1, TYPE_DIR).v;
    OffTrans(v, w, x, 1);
    hide Own, DirOK, TakeRoot, GiveDots, Undisturbed, OffX;
    OffTree(v, x, 1);
    assert TreeOf(x) == map[1 := NodeOf(x, 1)];
    RootTreeInv();
  }

  lemma OffTrans(v: Vol, w: Vol, x: Vol, n: int)
    requires OffX(v, w, n) && OffX(w, x, n)
    ensures OffX(v, x, n)
  {
    forall m | InoValid(v, m) && m != n ensures Undisturbed(v, x, GetInode(v, m)) {
      assert InoValid(w, m) && GetInode(w, m) == GetInode(v, m);
      UndisturbedTrans(v, w, x, GetInode(v, m));
    }
    hide Undisturbed;
  }

  /** Taking the next inode, whatever its mode. */
  lemma TakeInodeOff(v: Vol, mode: Word, links: Word)
    requires Owned(v) && TakeInode(v, mode, links).phys > 0
    ensures var a := TakeInode(v, mode, links);
            && Owned(a.v) && OffX(v, a.v, a.phys) && Allocated(a.v, a.phys) && !Allocated(v, a.phys)
            && InoValid(v, a.phys)
            && GetInode(a.v, a.phys) == NEW_FILE.(mode := mode, links := links) && a.v.used == v.used && a.phys < TWO32
  {
    var b := AllocInode(v);
    var a := TakeInode(v, mode, links);
    AllocInodeOwned(v);
    OwnFields(b.v, b.v.inodes, a.v, a.v.inodes);
    forall m | InoValid(v, m) && m != a.phys ensures Undisturbed(v, a.v, GetInode(v, m)) {
      FieldsUndisturbed(v, a.v, GetInode(v, m));
    }
    hide Own, Undisturbed;
  }

  /** Linking a freshly made node into the root. */
  lemma LinkRoot(v: Vol, x: Vol, n: Word, name: Name, typ: Byte)
    requires FsInv(v) && Owned(x) && OffX(v, x, n) && InoValid(v, n) && n != 1 && !Allocated(v, n) && Allocated(x, n)
    requires IsDir(GetInode(x, n).mode) ==> DirOK(x, GetInode(x, n))
    requires T.FreshNode(NodeOf(x, n), n, 1, typ)
    requires ValidName(name) && T.Find(TreeOf(v)[1].log, name) == |TreeOf(v)[1].log|
    ensures var r := DirAdd(x, 1, name, n, typ);
            r.ok ==> FsInv(r.v) && TreeOf(r.v) == T.Link(TreeOf(v), 1, name, n, typ, NodeOf(x, n))
  {
    FsInvIs(v);
    var t := TreeOf(v);
    assert T.DirIn(t, 1) by { PathRoot(t); }
    OffTree(v, x, n);
    var r := DirAdd(x, 1, name, n, typ);
    assert Allocated(x, 1) && n !in t;
    hide Own, DirOK, DirAdd, OffX, FsInv, T.TreeInv, NodeOf, T.FreshNode;
    AddOutcome(x, 1, name, n, typ);
    if r.ok {
      T.LinkKeeps(t, 1, name, n, typ, NodeOf(x, n));
      FsInvIs(r.v);
    }
  }

  lemma PathRoot(t: T.Tree)
    requires T.TreeInv(t)
    ensures T.DirIn(t, 1)
  {
  }

  lemma NamesValid()
    ensures ValidName(APP) && ValidName(AUTORUN) && APP != AUTORUN && Plain(APP) && Plain(AUTORUN)
  {
    assert forall i :: 0 <= i < |APP| ==> NameChar(APP[i]) && APP[i] != 47 && APP[i] != 0;
    assert forall i :: 0 <= i < |AUTORUN| ==> NameChar(AUTORUN[i]) && AUTORUN[i] != 47 && AUTORUN[i] != 0;
  }

  lemma AppMade(v: Vol)
    requires FsInv(v) && TreeOf(v) == RootTree() && MakeApp(v).ok
    ensures var w := MakeApp(v).v; var n := TakeInode(v, TYPE_DIR + PROTECTED_FLAG, 2).phys;
            var mode := TYPE_DIR + PROTECTED_FLAG;
            && FsInv(w) && 1 < n < TWO32 && T.FreshNode(DirNode(n, mode), n, 1, 1)
            && TreeOf(w) == T.Link(RootTree(), 1, APP, n, 1, DirNode(n, mode))
  {
    hide Own, DirOK, DirsOK, DirAdd, OffX, FsInv, T.TreeInv, TakeInode, GiveDots, TreeOf, Allocated, ValidName, T.Link,
      Full;
    FsInvIs(v);
    NamesValid();
    var mode := TYPE_DIR + PROTECTED_FLAG;
    var a := TakeInode(v, mode, 2);
    RootAllocated(v);
    TakeInodeOff(v, mode, 2);
    var n := a.phys;
    NotFullIfOk(a.v, n, 1, mode);
    GiveDotsOff(a.v, n, 1, mode);
    GiveDotsLog(a.v, n, 1, mode);
    var x := GiveDots(a.v, n, 1, mode).v;
    OffTrans(v, a.v, x, n);
    assert NodeOf(x, n) == DirNode(n, mode);
    LinkRoot(v, x, n, APP, 1);
  }

  lemma NotFullIfOk(v: Vol, n: Word, parent: Word, mode: Word)
    requires WF(v) && GiveDots(v, n, parent, mode).ok
    ensures !Full(v)
  {
  }

  lemma RootAllocated(v: Vol)
    requires FsInv(v)
    ensures Allocated(v, 1)
  {
    assert T.DirIn(TreeOf(v), 1);
  }

  lemma AutorunMade(v: Vol)
    requires FsInv(v) && MakeAutorun(v).ok && T.Find(TreeOf(v)[1].log, AUTORUN) == |TreeOf(v)[1].log|
    ensures var w := MakeAutorun(v).v; var n := TakeInode(v, 2 + PROTECTED_FLAG, 1).phys;
            var node := T.Node(2 + PROTECTED_FLAG, []);
            && FsInv(w) && 1 < n < TWO32 && n !in TreeOf(v) && T.FreshNode(node, n, 1, 2)
            && TreeOf(w) == T.Link(TreeOf(v), 1, AUTORUN, n, 2, node)
  {
    hide Own, DirOK, DirsOK, DirAdd, OffX, FsInv, T.TreeInv, TakeInode, TreeOf, Allocated, ValidName, T.Link, T.Find;
    FsInvIs(v);
    NamesValid();
    var a := TakeInode(v, 2 + PROTECTED_FLAG, 1);
    RootAllocated(v);
    TakeInodeOff(v, 2 + PROTECTED_FLAG, 1);
    NotInTree(v, a.phys);
    LinkRoot(v, a.v, a.phys, AUTORUN, 2);
  }

  lemma NotInTree(v: Vol, n: int)
    requires WF(v) && !Allocated(v, n)
    ensures n !in TreeOf(v)
  {
  }

  /** The two protected entries, and where they lead. */
  ghost predicate HasProtected(t: T.Tree, app: int, autorun: int) {
    && T.Entry(t, 1, 2, app) && t[1].log[2].name == APP && app in t && Protected(t[app].mode)
    && T.Entry(t, 1, 3, autorun) && t[1].log[3].name == AUTORUN && autorun in t && Protected(t[autorun].mode)
  }

  /** A successful format leaves the invariant of every run, and the two protected entries in the root. */
  lemma FormatEstablishes(super: Block, base: nat, inodes: nat, data: seq<Block>) returns (app: int, autorun: int)
    requires 0 < base && base + |data| < 0x8000_0000 && inodes < 0x8000_0000
    requires FormatVol(Blank(super, base, inodes, data)).ok
    ensures var s := Fresh(super, base, inodes, data);
            WF(s.v) && SysInv(s) && HasProtected(TreeOf(s.v), app, autorun)
  {
    hide Own, DirsOK, DirAdd, FsInv, T.TreeInv, TakeInode, GiveDots, TakeRoot, MakeApp, MakeAutorun, TreeOf, T.Link,
      Full, OffX, T.FreshNode,
      Plain, ValidName;
    var v := Blank(super, base, inodes, data);
    BlankOwned(super, base, inodes, data);
    if Full(v) || inodes == 0 {
      BlankFails(super, base, inodes, data);
    }
    RootMade(v);
    var r := GiveDots(TakeRoot(v), 1, 1, TYPE_DIR).v;
    AppMade(r);
    var a := MakeApp(r).v;
    app := TakeInode(r, TYPE_DIR + PROTECTED_FLAG, 2).phys;
    var app' := DirNode(app, TYPE_DIR + PROTECTED_FLAG);
    AppTree(app, app');
    AutorunMade(a);
    autorun := TakeInode(a, 2 + PROTECTED_FLAG, 1).phys;
    AutorunTree(app, app', autorun);
    FsInvIs(MakeAutorun(a).v);
  }

  lemma AppTree(n: Word, node: T.Node)
    requires n != 1
    ensures var t := T.Link(RootTree(), 1, APP, n, 1, node);
            1 in t && t[1].log == RootTree()[1].log + [Live(APP, n, 1)]
                && T.Find(t[1].log, AUTORUN) == 4 - 1 == |t[1].log|
            && n in t && t[n] == node
  {
    NamesValid();
    var log := RootTree()[1].log;
    T.FindAppend(log, APP, n, 1, AUTORUN);
  }

  lemma AutorunTree(app: Word, node: T.Node, n: Word)
    requires app != 1 && n != 1 && n != app && Protected(node.mode)
    ensures var t := T.Link(RootTree(), 1, APP, app, 1, node);
            HasProtected(T.Link(t, 1, AUTORUN, n, 2, T.Node(2 + PROTECTED_FLAG, [])), app, n)
  {
    AppTree(app, node);
  }

  /** Without an inode or a data block format fails. */
  lemma BlankFails(super: Block, base: nat, inodes: nat, data: seq<Block>)
    requires 0 < base && base + |data| < 0x8000_0000 && inodes < 0x8000_0000
    requires Full(Blank(super, base, inodes, data)) || inodes == 0
    ensures !FormatVol(Blank(super, base, inodes, data)).ok
  {
    var v := Blank(super, base, inodes, data);
    if inodes == 0 {
      var d := GiveDots(TakeRoot(v), 1, 1, TYPE_DIR);
      assert |d.v.inodes| == 0;
      assert AllocInode(d.v).phys < 0;
    } else {
      assert TakeRoot(v).used == v.used;
    }
  }

  /** In every state a run from format reaches, "/app" and "/autorun" still lead to the inodes format gave them. */
  lemma ProtectedForever(s: Fs, ops: seq<Op>, app: int, autorun: int)
    requires WF(s.v) && SysInv(s) && HasProtected(TreeOf(s.v), app, autorun) && LegalRun(s, ops)
    ensures var v := Run(s, ops).v;
            Resolve(v, [SLASH] + APP) == app && Resolve(v, [SLASH] + AUTORUN) == autorun
  {
    hide *;
    RunKeeps(s, ops);
    StillProtected(TreeOf(s.v), TreeOf(Run(s, ops).v), app, autorun);
    SysFs(Run(s, ops));
    ProtectedResolve(Run(s, ops).v, app, autorun);
    NamesValid();
    OneToken(APP);
    OneToken(AUTORUN);
    ResolveOne(Run(s, ops).v, APP);
    ResolveOne(Run(s, ops).v, AUTORUN);
  }

  /** The mounted file system right after format. */
  function Fresh(super: Block, base: nat, inodes: nat, data: seq<Block>): (s: Fs)
    requires 0 < base && base + |data| < 0x8000_0000 && inodes < 0x8000_0000
    ensures WF(s.v)
  {
    Fs(FormatVol(Blank(super, base, inodes, data)).v, seq(32, _ => Fd(false, 0)))
  }

  /**
   * From format on, whatever legal calls are made: blocks are owned, the directories form a tree, no descriptor
   * refers to a directory, and "/app" and "/autorun" lead where they led at first.
   */
  lemma EveryRun(super: Block, base: nat, inodes: nat, data: seq<Block>, ops: seq<Op>)
    requires 0 < base && base + |data| < 0x8000_0000 && inodes < 0x8000_0000
    requires FormatVol(Blank(super, base, inodes, data)).ok && LegalRun(Fresh(super, base, inodes, data), ops)
    ensures var s := Fresh(super, base, inodes, data); var r := Run(s, ops);
            && SysInv(r)
            && Resolve(r.v, [SLASH] + APP) == Resolve(s.v, [SLASH] + APP) >= 0
            && Resolve(r.v, [SLASH] + AUTORUN) == Resolve(s.v, [SLASH] + AUTORUN) >= 0
  {
    hide SysInv, TreeOf, HasProtected, Resolve, Run, LegalRun, FormatVol, Blank, WF;
    var s := Fresh(super, base, inodes, data);
    var app, autorun := FormatEstablishes(super, base, inodes, data);
    RunKeeps(s, ops);
    ProtectedForever(s, ops, app, autorun);
    NothingRun(s);
    ProtectedForever(s, [], app, autorun);
    HasPositive(TreeOf(s.v), app, autorun);
  }

  lemma NothingRun(s: Fs)
    requires WF(s.v)
    ensures LegalRun(s, []) && Run(s, []) == s
  {
  }

  lemma HasPositive(t: T.Tree, app: int, autorun: int)
    requires HasProtected(t, app, autorun)
    ensures app >= 0 && autorun >= 0
  {
  }

  lemma ResolveOne(v: Vol, s: Name)
    requires Tokens([SLASH] + s) == [s]
    ensures Resolve(v, [SLASH] + s) == ResolveFrom(v, 1, [s])
  {
    hide Tokens, ResolveFrom;
  }

  lemma SysFs(s: Fs)
    requires SysInv(s)
    ensures FsInv(s.v)
  {
  }

  lemma StillProtected(t: T.Tree, u: T.Tree, app: int, autorun: int)
    requires HasProtected(t, app, autorun) && ProtectedStay(t, u)
    ensures HasProtected(u, app, autorun)
  {
  }

  lemma ProtectedResolve(v: Vol, app: int, autorun: int)
    requires WF(v) && FsInv(v) && HasProtected(TreeOf(v), app, autorun)
    ensures ResolveFrom(v, 1, [APP]) == app && ResolveFrom(v, 1, [AUTORUN]) == autorun
  {
    hide FsInv, T.TreeInv, Own, DirsOK, TreeOf, ResolveFrom, WF, T.Entry, Plain;
    var t := TreeOf(v);
    FsInvIs(v);
    NamesValid();
    RootAllocated(v);
    TreePaths.EntryStep(t, 1, 2, app);
    TreePaths.EntryStep(t, 1, 3, autorun);
    ResolveIsWalk(v, 1, [APP]);
    ResolveIsWalk(v, 1, [AUTORUN]);
    TreePaths.WalkLast(t, 1, [], APP);
    TreePaths.WalkLast(t, 1, [], AUTORUN);
    assert [] + [APP] == [APP] && [] + [AUTORUN] == [AUTORUN];
  }

  // ---------------------------------------------------------------------
  // When format succeeds

  lemma NotFull(v: Vol, i: nat)
    requires i < |v.used| && !v.used[i]
    ensures !Full(v)
  {
  }

  /** In the first block of a directory there is room for seven entries. */
  lemma AddFits(v: Vol, d: int, name: Name, n: Word, typ: Byte)
    requires Owned(v) && DirsOK(v) && Allocated(v, d) && IsDir(GetInode(v, d).mode) && n != 0
    requires ValidName(name) && 0 < |Log(v, GetInode(v, d))| < 7
             && T.Find(Log(v, GetInode(v, d)), name) == |Log(v, GetInode(v, d))|
    ensures var r := DirAdd(v, d, name, n, typ); r.ok && r.v.used == v.used
  {
    hide Own, DirsOK, DirAdd, LogEdit, EntryOf, Full;
    AllocatedDirOK(v, d);
    var din := GetInode(v, d);
    FindIs(Log(v, din), name);
    assert GoodSlot(v, din, 0);
    DirAddEffect(v, d, name, n, typ);
    AddMapped(v, d, name, n, typ);
  }

  /** An add to a first block that is there takes no block. */
  lemma AddMapped(v: Vol, d: int, name: Name, n: Word, typ: Byte)
    requires WF(v) && SlotCount(GetInode(v, d)) < 7 && Lookup(v, GetInode(v, d), 0) != 0
    ensures DirAdd(v, d, name, n, typ).v.used == v.used
  {
    var din := GetInode(v, d);
    var e := SlotCount(din);
    assert PathOf(0) == [Direct(0)] && LeafOf(0) == Direct(0);
    assert GetBlock(v, din, 0, true) == Got(v, din, P(v, din, Direct(0)));
    assert e / 7 == 0;
    hide GetBlock, FindFrom, Blk, P;
  }

  /** The first k flags are set, and no others. */
  predicate OnlyFirst(s: seq<bool>, k: nat) { forall i :: 0 <= i < |s| ==> (s[i] <==> i < k) }

  lemma OnlyFirstNext(s: seq<bool>, k: nat)
    requires OnlyFirst(s, k) && k < |s|
    ensures FirstFree(s, 0) == k && OnlyFirst(s[k := true], k + 1)
  {
    assert !s[k];
  }

  /** The slots and bits after the root was made. */
  lemma RootBits(super: Block, base: nat, inodes: nat, data: seq<Block>)
    requires 0 < base && base + |data| < 0x8000_0000 && 3 <= inodes < 0x8000_0000 && 2 <= |data|
    ensures var v := Blank(super, base, inodes, data); var r := GiveDots(TakeRoot(v), 1, 1, TYPE_DIR).v;
            !Full(v) && OnlyFirst(r.used, 1) && OnlyFirst(r.inoUsed, 1)
  {
    var v := Blank(super, base, inodes, data);
    NotFull(v, 0);
    OnlyFirstNext(v.used, 0);
    hide Dots;
  }

  /** The tree right after format. */
  function FormatTree(): T.Tree {
    T.Link(T.Link(RootTree(), 1, APP, 2, 1, DirNode(2, TYPE_DIR + PROTECTED_FLAG)), 1, AUTORUN, 3, 2,
        T.Node(2 + PROTECTED_FLAG, []))
  }

  /**
   * With at least three inodes and two data blocks format succeeds: the root is 1, /app is 2, /autorun is 3, and just
   * the first three inodes and the first two data blocks are taken.
   */
  lemma FormatSucceeds(super: Block, base: nat, inodes: nat, data: seq<Block>)
    requires 0 < base && base + |data| < 0x8000_0000 && 3 <= inodes < 0x8000_0000 && 2 <= |data|
    ensures var r := FormatVol(Blank(super, base, inodes, data));
            && r.ok && FsInv(r.v) && TreeOf(r.v) == FormatTree() && HasProtected(TreeOf(r.v), 2, 3)
            && OnlyFirst(r.v.used, 2) && OnlyFirst(r.v.inoUsed, 3)
  {
    var v := Blank(super, base, inodes, data);
    RootBits(super, base, inodes, data);
    BlankOwned(super, base, inodes, data);
    hide Own, DirsOK, DirAdd, FsInv, T.TreeInv, GiveDots, TakeRoot, TreeOf, T.Link, Full, OffX, T.FreshNode,
      Plain, ValidName, Blank, AllocInode, FirstFree, Log, OnlyFirst;
    RootMade(v);
    var r := GiveDots(TakeRoot(v), 1, 1, TYPE_DIR).v;
    AppFits(r);
    var a := MakeApp(r).v;
    AppMade(r);
    var app := DirNode(2, TYPE_DIR + PROTECTED_FLAG);
    AppTree(2, app);
    AutorunFits(a);
    AutorunMade(a);
    AutorunTree(2, app, 3);
  }

  /** Format succeeds if and only if there are three inodes and two data blocks at least. */
  lemma FormatIff(super: Block, base: nat, inodes: nat, data: seq<Block>)
    requires 0 < base && base + |data| < 0x8000_0000 && inodes < 0x8000_0000
    ensures FormatVol(Blank(super, base, inodes, data)).ok <==> inodes >= 3 && |data| >= 2
  {
    hide FormatVol, Blank;
    if inodes >= 3 && |data| >= 2 {
      FormatSucceeds(super, base, inodes, data);
    } else if |data| < 2 {
      OneBlockFails(super, base, inodes, data);
    } else if FormatVol(Blank(super, base, inodes, data)).ok {
      var app, autorun := FormatEstablishes(super, base, inodes, data);
      ThreeInodes(Fresh(super, base, inodes, data).v, app, autorun);
      FreshInodes(super, base, inodes, data);
    }
  }

  lemma FreshInodes(super: Block, base: nat, inodes: nat, data: seq<Block>)
    requires 0 < base && base + |data| < 0x8000_0000 && inodes < 0x8000_0000
    ensures |Fresh(super, base, inodes, data).v.inodes| == inodes
  {
    hide FormatVol;
  }

  lemma ThreeInodes(v: Vol, app: int, autorun: int)
    requires WF(v) && FsInv(v) && HasProtected(TreeOf(v), app, autorun)
    ensures |v.inodes| >= 3
  {
    var t := TreeOf(v);
    assert T.GoodEntry(t, 1, 2, app) && T.GoodEntry(t, 1, 3, autorun);
    assert app != autorun;
  }

  lemma OneBlockFails(super: Block, base: nat, inodes: nat, data: seq<Block>)
    requires 0 < base && base + |data| < 0x8000_0000 && inodes < 0x8000_0000 && |data| < 2
    ensures !FormatVol(Blank(super, base, inodes, data)).ok
  {
    var v := Blank(super, base, inodes, data);
    if Full(v) {
      BlankFails(super, base, inodes, data);
    } else {
      var r := GiveDots(TakeRoot(v), 1, 1, TYPE_DIR).v;
      assert |r.used| == 1 && r.used[0];
      assert FirstFree(r.used, 0) == 1;
      hide Dots, FirstFree;
    }
  }

  lemma TakesNext(v: Vol, mode: Word, links: Word, k: nat)
    requires WF(v) && OnlyFirst(v.inoUsed, k) && k < |v.inoUsed|
    ensures var a := TakeInode(v, mode, links);
            a.phys == k + 1 && a.v.used == v.used && OnlyFirst(a.v.inoUsed, k + 1)
  {
    OnlyFirstNext(v.inoUsed, k);
  }

  lemma NodeIs(v: Vol, d: int)
    requires WF(v) && T.DirIn(TreeOf(v), d)
    ensures Allocated(v, d) && IsDir(GetInode(v, d).mode)
            && TreeOf(v)[d] == T.Node(GetInode(v, d).mode, Log(v, GetInode(v, d)))
    ensures DirsOK(v) ==> DirOK(v, GetInode(v, d))
  {
  }

  /** The root has room for up to seven entries in its first block. */
  lemma RootAddFits(v: Vol, x: Vol, n: Word, name: Name, typ: Byte)
    requires FsInv(v) && Owned(x) && OffX(v, x, n) && InoValid(v, n) && n > 1
    requires Allocated(x, n) && IsDir(GetInode(x, n).mode) ==> DirOK(x, GetInode(x, n))
    requires 0 < |TreeOf(v)[1].log| < 7 && ValidName(name) && T.Find(TreeOf(v)[1].log, name) == |TreeOf(v)[1].log|
    ensures var r := DirAdd(x, 1, name, n, typ); r.ok && r.v.inoUsed == x.inoUsed && r.v.used == x.used
  {
    hide Own, DirOK, DirsOK, DirAdd, FsInv, T.TreeInv, OffX, ValidName, TreeOf, NodeOf, GetInode, T.Find, T.Add;
    RootAllocated(v);
    FsInvIs(v);
    PathRoot(TreeOf(v));
    OffTree(v, x, n);
    assert TreeOf(x)[1] == TreeOf(v)[1];
    NodeIs(x, 1);
    AddFits(x, 1, name, n, typ);
    AddOutcome(x, 1, name, n, typ);
  }

  /** A directory with its two dots, at the next inode k + 1 and the next block b, linked into the root. */
  lemma DirFits(v: Vol, mode: Word, name: Name, k: nat, b: nat)
    requires FsInv(v) && OnlyFirst(v.inoUsed, k) && 1 <= k < |v.inodes| && OnlyFirst(v.used, b) && b < |v.used|
             && IsDir(mode)
    requires 0 < |TreeOf(v)[1].log| < 7 && ValidName(name) && T.Find(TreeOf(v)[1].log, name) == |TreeOf(v)[1].log|
    ensures TakeInode(v, mode, 2).phys == k + 1 < TWO32
    ensures var n := TakeInode(v, mode, 2).phys; var d := GiveDots(TakeInode(v, mode, 2).v, n, 1, mode);
            var r := DirAdd(d.v, 1, name, n, TYPE_DIR);
            && d.ok && r.ok && OnlyFirst(r.v.inoUsed, k + 1) && OnlyFirst(r.v.used, b + 1)
            && FsInv(r.v) && TreeOf(r.v) == T.Link(TreeOf(v), 1, name, k + 1, 1, DirNode(k + 1, mode))
  {
    hide Own, DirOK, DirsOK, DirAdd, FsInv, T.TreeInv, TakeInode, GiveDots, ValidName, FirstFree, OffX, TreeOf, Full,
      T.Find, GetInode,
      OnlyFirst, T.Link;
    FsInvIs(v);
    TakesNext(v, mode, 2, k);
    TakeInodeOff(v, mode, 2);
    var a := TakeInode(v, mode, 2);
    var n := a.phys;
    GiveDotsBits(a.v, n, 1, mode, b);
    GiveDotsOff(a.v, n, 1, mode);
    GiveDotsLog(a.v, n, 1, mode);
    var x := GiveDots(a.v, n, 1, mode).v;
    OffTrans(v, a.v, x, n);
    assert NodeOf(x, n) == DirNode(n, mode);
    RootAddFits(v, x, n, name, TYPE_DIR);
    RootAllocated(v);
    LinkRoot(v, x, n, name, 1);
  }

  lemma AppFits(v: Vol)
    requires FsInv(v) && TreeOf(v) == RootTree() && |v.inodes| >= 3 && OnlyFirst(v.inoUsed, 1) && OnlyFirst(v.used, 1)
             && |v.used| >= 2
    ensures MakeApp(v).ok && TakeInode(v, TYPE_DIR + PROTECTED_FLAG, 2).phys == 2
    ensures OnlyFirst(MakeApp(v).v.inoUsed, 2) && OnlyFirst(MakeApp(v).v.used, 2)
  {
    FsInvIs(v);
    hide Own, DirAdd, FsInv, TakeInode, GiveDots, ValidName, TreeOf, T.Find, OnlyFirst, T.Link;
    NamesValid();
    RootFindApp();
    DirFits(v, TYPE_DIR + PROTECTED_FLAG, APP, 1, 1);
  }

  lemma RootFindApp()
    ensures T.Find(RootTree()[1].log, APP) == 2 == |RootTree()[1].log|
  {
  }

  lemma GiveDotsBits(v: Vol, n: Word, parent: Word, mode: Word, b: nat)
    requires WF(v) && OnlyFirst(v.used, b) && b < |v.used|
    ensures !Full(v)
    ensures var r := GiveDots(v, n, parent, mode).v; r.inoUsed == v.inoUsed && OnlyFirst(r.used, b + 1)
  {
    OnlyFirstNext(v.used, b);
    hide Dots;
  }

  lemma AutorunFits(v: Vol)
    requires FsInv(v) && |v.inodes| >= 3 && OnlyFirst(v.inoUsed, 2)
    requires 0 < |TreeOf(v)[1].log| < 7 && T.Find(TreeOf(v)[1].log, AUTORUN) == |TreeOf(v)[1].log|
    ensures MakeAutorun(v).ok && TakeInode(v, 2 + PROTECTED_FLAG, 1).phys == 3
    ensures OnlyFirst(MakeAutorun(v).v.inoUsed, 3) && MakeAutorun(v).v.used == v.used
  {
    hide Own, DirOK, DirsOK, DirAdd, FsInv, T.TreeInv, TakeInode, ValidName, FirstFree, OffX, TreeOf, T.Find, OnlyFirst;
    var mode := 2 + PROTECTED_FLAG;
    FsInvIs(v);
    TakesNext(v, mode, 1, 2);
    TakeInodeOff(v, mode, 1);
    NamesValid();
    RootAddFits(v, TakeInode(v, mode, 1).v, 3, AUTORUN, 2);
  }
}
