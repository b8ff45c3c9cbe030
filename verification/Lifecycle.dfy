/** A file from create to delete: what it takes, and what comes back. */
module Lifecycle {
  import opened Bytes
  import opened Volume
  import opened BlockMap
  import opened FileData
  import opened Inodes
  import opened Directory
  import opened Paths
  import opened Api
  import opened EmptyWrite
  import opened Owners
  import opened VolTree
  import opened Calls
  import opened Runs
  import opened Dotless
  import opened Format
  import opened Isolation
  import opened PathEffects
  import T = Tree

  /** The arguments of a write call. */
  datatype Chunk = Chunk(offset: nat, buf: seq<Byte>)

  /** No 32-bit overflow, and not the write of zero bytes at offset 0, whose last block wraps around. */
  predicate GoodChunk(c: Chunk) { c.offset + |c.buf| < TWO32 && (c.buf == [] ==> c.offset > 0) }

  /** The bytes that the direct and the indirect tier hold. */
  const NEAR: nat := 134 * 512

  predicate NearChunk(c: Chunk) { c.offset + |c.buf| <= NEAR && (c.buf == [] ==> c.offset > 0) }

  function WriteOne(v: Vol, n: int, c: Chunk): (w: Vol)
    requires WF(v) && GoodChunk(c)
    ensures WF(w) && SameFrame(v, w)
  {
    if c.buf == [] then WriteEmpty(v, n, c.offset) else WriteFile(v, n, c.offset, c.buf).v
  }

  /** Any number of writes to inode n. */
  function Writes(v: Vol, n: int, cs: seq<Chunk>): (w: Vol)
    requires WF(v) && forall c :: c in cs ==> GoodChunk(c)
    ensures WF(w) && SameFrame(v, w)
    decreases |cs|
  {
    if cs == [] then v else Writes(WriteOne(v, n, cs[0]), n, cs[1..])
  }

  // ---------------------------------------------------------------------
  // The double-indirect tier is out of reach of near writes

  lemma GetBlockDbl(v: Vol, t: seq<Inode>, n: nat, l: nat)
    requires WF(v) && Own(v, t) && n < |t| && l < 134
    ensures GetBlock(v, t[n], l, true).ino.dbl == t[n].dbl
  {
    PathReady(v, t[n], l);
    WalkAlloc(v, t, n, PathOf(l));
    assert Dbl !in PathOf(l);
    var g := GetBlock(v, t[n], l, true);
    assert P(g.v, g.ino, Dbl) == g.ino.dbl && P(v, t[n], Dbl) == t[n].dbl;
    hide Own, Grew, DataKept, Walk, GetBlock;
  }

  /** A write that ends within the first 134 blocks leaves the double-indirect pointer alone. */
  lemma {:induction false} WriteDbl(v: Vol, t: seq<Inode>, n: nat, pos: nat, buf: seq<Byte>)
    requires WF(v) && Own(v, t) && n < |t| && pos + |buf| <= NEAR
    ensures WriteFrom(v, t[n], pos, buf).ino.dbl == t[n].dbl
    decreases |buf|
  {
    hide Own, GetBlock, WriteFrom, FirstChunk, Grew, OthersKept;
    if buf == [] {
      WriteNothing(v, t[n], pos, Hole, 0);
    } else {
      var f := FirstChunk(v, t[n], pos, buf);
      WriteUnfold(v, t[n], pos, buf);
      ChunkDbl(v, t, n, pos, buf);
      FirstChunkEffect(v, t, n, pos, buf);
      if f.n > 0 { WriteDbl(f.v, t[n := f.ino], n, pos + f.n, buf[f.n..]); }
    }
  }

  lemma ChunkDbl(v: Vol, t: seq<Inode>, n: nat, pos: nat, buf: seq<Byte>)
    requires WF(v) && Own(v, t) && n < |t| && pos + |buf| <= NEAR && buf != []
    ensures FirstChunk(v, t[n], pos, buf).ino.dbl == t[n].dbl
  {
    hide Own, GetBlock;
    GetBlockDbl(v, t, n, pos / 512);
  }

  lemma {:induction false} TouchDbl(v: Vol, t: seq<Inode>, n: nat, b: nat, last: nat)
    requires WF(v) && Own(v, t) && n < |t| && last < 134
    ensures Touch(v, t[n], b, last).ino.dbl == t[n].dbl
    decreases last + 1 - b
  {
    hide Own, GetBlock;
    if b <= last {
      var g := GetBlock(v, t[n], b, true);
      GetBlockDbl(v, t, n, b);
      GetBlockAlloc(v, t, n, b);
      if g.phys >= 0 { TouchDbl(g.v, t[n := g.ino], n, b + 1, last); }
    }
  }

  // ---------------------------------------------------------------------
  // What the writes take

  /** Beyond the blocks in use in v0, the blocks in use are exactly those inode n points to. */
  ghost predicate Took(v0: Vol, v: Vol, n: int) {
    && WF(v0) && Owned(v) && InoValid(v, n) && DirectBound(v.inodes[n - 1])
    && v.base == v0.base && |v.data| == |v0.data|
    && (forall p :: Used(v0, p) ==> Used(v, p))
    && AllReturned(v, v.inodes[n - 1], v0)
    && (forall p :: Used(v, p) && !Used(v0, p) ==> Holds(v, v.inodes[n - 1], p))
  }

  lemma GrewTook(v0: Vol, v: Vol, n: int, x: Vol, ino: Inode, w: Vol)
    requires Took(v0, v, n) && Grew(v, v.inodes, n - 1, x, ino)
    requires Owned(w) && InoValid(w, n) && DirectBound(w.inodes[n - 1]) && SamePtrFields(ino, w.inodes[n - 1])
    requires w.base == x.base && w.data == x.data && w.used == x.used
    ensures Took(v0, w, n)
  {
    hide Own;
    var a, b := v.inodes[n - 1], w.inodes[n - 1];
    forall k ensures P(w, b, k) == P(x, ino, k) { PtrFields(x, w, ino, b, k); }
    hide P;
    forall k | P(w, b, k) != 0 ensures !Used(v0, P(w, b, k)) {
      if P(v, a, k) != 0 { assert P(x, ino, k) == P(v, a, k); }
    }
    forall p | Used(w, p) && !Used(v0, p) ensures Holds(w, b, p) {
      assert Used(x, p);
      if Used(v, p) {
        var k :| P(v, a, k) == p;
        assert p > 0;
        assert P(w, b, k) == p;
      } else {
        var k :| P(x, ino, k) == p;
        assert P(w, b, k) == p;
      }
    }
  }

  /** The writes seen from all other inodes, and from the flags. */
  ghost predicate OnlyFile(v: Vol, w: Vol, n: int) {
    && w.inoUsed == v.inoUsed && |w.inodes| == |v.inodes| && GetInode(w, n).mode == GetInode(v, n).mode
    && (forall m :: InoValid(v, m) && m != n ==> GetInode(w, m) == GetInode(v, m) && Undisturbed(v, w, GetInode(v, m)))
  }

  lemma WriteTook(v0: Vol, v: Vol, n: int, c: Chunk)
    requires Took(v0, v, n) && GoodChunk(c)
    ensures Took(v0, WriteOne(v, n, c), n) && OnlyFile(v, WriteOne(v, n, c), n)
    ensures NearChunk(c) ==> GetInode(WriteOne(v, n, c), n).dbl == GetInode(v, n).dbl
  {
    assert WF(v) && Own(v, v.inodes) && InoValid(v, n) && DirectBound(v.inodes[n - 1]);
    hide *;
    if c.buf == [] { TouchTook(v0, v, n, c); } else { BytesTook(v0, v, n, c); }
  }

  lemma BytesTook(v0: Vol, v: Vol, n: int, c: Chunk)
    requires Took(v0, v, n) && GoodChunk(c) && c.buf != []
    requires WF(v) && Own(v, v.inodes) && InoValid(v, n) && DirectBound(v.inodes[n - 1])
    ensures Took(v0, WriteOne(v, n, c), n) && OnlyFile(v, WriteOne(v, n, c), n)
    ensures NearChunk(c) ==> GetInode(WriteOne(v, n, c), n).dbl == GetInode(v, n).dbl
  {
    hide Took, Own, Grew, OthersKept, WriteFrom, WriteFile, DirectBound, Undisturbed;
    var t := v.inodes;
    var r := WriteFrom(v, t[n - 1], c.offset, c.buf);
    var w := WriteFile(v, n, c.offset, c.buf).v;
    WriteFileOwned(v, n, c.offset, c.buf);
    WriteFileBounded(v, n, c.offset, c.buf);
    WriteKeeps(v, t, n - 1, c.offset, c.buf);
    WriteFileIs(v, n, c.offset, c.buf);
    GrewTook(v0, v, n, r.v, r.ino, w);
    if NearChunk(c) { WriteDbl(v, t, n - 1, c.offset, c.buf); }
    forall m | InoValid(v, m) && m != n ensures GetInode(w, m) == GetInode(v, m) && Undisturbed(v, w, GetInode(v, m)) {
      WriteFileIsolated(v, n, c.offset, c.buf, m);
    }
  }

  lemma TouchTook(v0: Vol, v: Vol, n: int, c: Chunk)
    requires Took(v0, v, n) && GoodChunk(c) && c.buf == []
    requires WF(v) && Own(v, v.inodes) && InoValid(v, n) && DirectBound(v.inodes[n - 1])
    ensures Took(v0, WriteOne(v, n, c), n) && OnlyFile(v, WriteOne(v, n, c), n)
    ensures NearChunk(c) ==> GetInode(WriteOne(v, n, c), n).dbl == GetInode(v, n).dbl
  {
    hide Took, Own, Grew, OthersKept, Touch, DirectBound, Undisturbed;
    var t := v.inodes;
    var b, last := c.offset / 512, LastBlock(c.offset);
    var r := Touch(v, t[n - 1], b, last);
    var w := WriteEmpty(v, n, c.offset);
    WriteEmptyKeeps(v, n, c.offset);
    EmptyWriteInside(v, n, c.offset);
    TouchKeeps(v, t, n - 1, b, last);
    GrewShape(v, t, n - 1, r.v, r.ino);
    GrewTook(v0, v, n, r.v, r.ino, w);
    if NearChunk(c) { TouchDbl(v, t, n - 1, b, last); }
  }

  lemma OnlyTrans(v: Vol, w: Vol, x: Vol, n: int)
    requires OnlyFile(v, w, n) && OnlyFile(w, x, n)
    ensures OnlyFile(v, x, n)
  {
    forall m | InoValid(v, m) && m != n ensures Undisturbed(v, x, GetInode(v, m)) {
      UndisturbedTrans(v, w, x, GetInode(v, m));
    }
    hide Undisturbed;
  }

  lemma OnlyRefl(v: Vol, n: int)
    ensures OnlyFile(v, v, n)
  {
  }

  lemma {:induction false} WritesTook(v0: Vol, v: Vol, n: int, cs: seq<Chunk>)
    requires Took(v0, v, n) && forall c :: c in cs ==> GoodChunk(c)
    ensures Took(v0, Writes(v, n, cs), n) && OnlyFile(v, Writes(v, n, cs), n)
    ensures (forall c :: c in cs ==> NearChunk(c)) ==> GetInode(Writes(v, n, cs), n).dbl == GetInode(v, n).dbl
    decreases |cs|
  {
    assert WF(v);
    hide Took, WriteOne, OnlyFile, GetInode, NearChunk, GoodChunk;
    if cs == [] {
      OnlyRefl(v, n);
    } else {
      var w := WriteOne(v, n, cs[0]);
      WriteTook(v0, v, n, cs[0]);
      WritesTook(v0, w, n, cs[1..]);
      OnlyTrans(v, w, Writes(w, n, cs[1..]), n);
    }
  }

  /** Freeing the inode gives all of that back if and only if it has no double-indirect tree. */
  lemma FreeTookIff(v0: Vol, w: Vol, n: int)
    requires Took(v0, w, n)
    ensures FreeInode(w, n).used == v0.used <==> GetInode(w, n).dbl == 0
  {
    var ino := w.inodes[n - 1];
    var x := FreeInode(w, n);
    hide Own;
    if ino.dbl == 0 {
      forall i | 0 <= i < |v0.used| ensures x.used[i] == v0.used[i] {
        var p := v0.base + i;
        assert Used(v0, p) <==> v0.used[i];
        assert Used(x, p) <==> x.used[i];
        FreeExact(w, n, p);
        if Used(w, p) && !Used(v0, p) {
          var k :| P(w, ino, k) == p;
          assert !DblKey(k);
        }
      }
    } else {
      assert P(w, ino, Dbl) == ino.dbl;
      FreeCompleteIff(w, n);
      FreeDblKept(v0, w, n);
    }
  }

  lemma FreeDblKept(v0: Vol, w: Vol, n: int)
    requires Took(v0, w, n) && w.inodes[n - 1].dbl != 0
    ensures FreeInode(w, n).used != v0.used
  {
    var ino := w.inodes[n - 1];
    var p := ino.dbl;
    assert P(w, ino, Dbl) == p;
    assert Used(w, p) && !Used(v0, p);
    FreeExact(w, n, p);
    if k :| !DblKey(k) && P(w, ino, k) == p { assert false; }
    assert Used(FreeInode(w, n), p);
    hide P;
  }

  /**
   * Taking an inode, any number of writes to it and freeing it put back every bit if and only if the writes left no
   * double-indirect tree; and writes that end within the first 134 blocks never make one.
   */
  lemma CreateWriteFree(v: Vol, cs: seq<Chunk>)
    requires Owned(v) && AllocInode(v).phys > 0
    requires forall c :: c in cs ==> GoodChunk(c)
    ensures var n := AllocInode(v).phys; var w := Writes(AllocInode(v).v, n, cs); var x := FreeInode(w, n);
            && x.inoUsed == v.inoUsed
            && (x.used == v.used <==> GetInode(w, n).dbl == 0)
            && ((forall c :: c in cs ==> NearChunk(c)) ==> x.used == v.used)
  {
    var a := AllocInode(v);
    AllocTook(v);
    WritesTook(v, a.v, a.phys, cs);
    FreeTookIff(v, Writes(a.v, a.phys, cs), a.phys);
    hide Writes, Took;
  }

  lemma AllocTook(v: Vol)
    requires Owned(v) && AllocInode(v).phys > 0
    ensures Took(v, AllocInode(v).v, AllocInode(v).phys) && GetInode(AllocInode(v).v, AllocInode(v).phys).dbl == 0
  {
    var a := AllocInode(v);
    AllocInodeOwned(v);
    hide Own;
    forall k ensures P(a.v, ZERO_INODE, k) == 0 { ZeroInodeEmpty(a.v, k); }
    hide P;
    assert forall p :: Used(v, p) <==> Used(a.v, p);
  }

  // ---------------------------------------------------------------------
  // Through the calls

  function WriteOps(fd: int, cs: seq<Chunk>): (ops: seq<Op>)
    decreases |cs|
  {
    if cs == [] then [] else [WriteOp(fd, cs[0].buf, cs[0].offset)] + WriteOps(fd, cs[1..])
  }

  lemma {:induction false} WritesRun(s: Fs, fd: int, n: int, cs: seq<Chunk>)
    requires WF(s.v) && FdValid(s, fd) && s.fds[fd].ino == n && InoValid(s.v, n) && forall c :: c in cs ==> GoodChunk(c)
    ensures AllSized(WriteOps(fd, cs)) && Run(s, WriteOps(fd, cs)) == s.(v := Writes(s.v, n, cs))
    decreases |cs|
  {
    hide WriteFile, WriteEmpty;
    if cs != [] {
      var ops := WriteOps(fd, cs);
      assert GoodChunk(cs[0]) && Sized(ops[0]) && ops[1..] == WriteOps(fd, cs[1..]);
      WritesRun(Step(s, ops[0]), fd, n, cs[1..]);
    }
  }

  /** Create, open, write through the descriptor, delete. */
  function Life(path: seq<Byte>, typ: Byte, fd: int, cs: seq<Chunk>): seq<Op> {
    [CreateOp(path, typ), OpenOp(path)] + WriteOps(fd, cs) + [DeleteOp(path)]
  }

  /** No entry calls inode n a directory. */
  ghost predicate FileEntries(t: T.Tree, n: int) { forall d, e :: Proper(t, d, e, n) ==> t[d].log[e].typ != 1 }

  /** What a successful create leaves for the writes and the delete. */
  lemma CreateReady(v: Vol, path: seq<Byte>, typ: Byte)
    requires Sound(v) && NoNul(path) && typ % 2 == 0 && Create(v, path, typ).ret > 0
    ensures var w := Create(v, path, typ).v; var n := Create(v, path, typ).ret;
            && Sound(w) && IsFile(w, n) && Resolve(w, path) == n && Took(w, w, n) && GetInode(w, n).dbl == 0
            && GetInode(w, n) == NEW_FILE.(mode := typ) && FileEntries(TreeOf(w), n)
            && ResolveParent(v, path).Target? && n != ResolveParent(v, path).parent
  {
    var r := Create(v, path, typ);
    var n := r.ret;
    SoundRoot(v);
    CreateSound(v, path, typ);
    SoundRoot(r.v);
    CreatedPath(v, path, typ);
    hide Sound, Own, DirsOK, Linked, ResolveParent, DirFind, FreeInode, TreeOf, Create, Took, IsFile, ValidName,
      Resolve, FileEntries;
    CreateMade(v, path, typ);
    FreshTook(r.v, n);
    NewIsFile(r.v, n, typ);
  }

  /** The path leads to the new inode, by an entry of the type given. */
  lemma CreatedPath(v: Vol, path: seq<Byte>, typ: Byte)
    requires Sound(v) && NoNul(path) && typ % 2 == 0 && Create(v, path, typ).ret > 0
    ensures var r := Create(v, path, typ);
            Resolve(r.v, path) == r.ret && FileEntries(TreeOf(r.v), r.ret) && Allocated(r.v, r.ret)
    ensures ResolveParent(v, path).Target? && ResolveParent(v, path).parent != Create(v, path, typ).ret
  {
    hide *;
    SoundRoot(v);
    var r := Create(v, path, typ);
    CreateSound(v, path, typ);
    NameWasFree(v, path, typ);
    SoundParent(v, path);
    var p := ResolveParent(v, path);
    NewNumber(v, path, typ);
    InTree(v, 1);
    CreatedTree(TreeOf(v), p.parent, p.name, r.ret, typ, Tokens(path));
    SoundRoot(r.v);
    InTree(r.v, r.ret);
    SoundWalk(r.v, 1, Tokens(path));
    ResolveTokens(r.v, path);
  }

  lemma CreatedTree(t: T.Tree, d: int, name: Name, n: int, typ: Byte, toks: seq<Name>)
    requires Linked(t) && T.DirIn(t, d) && d >= 0 && n !in t && 0 < n < TWO32 && typ % 2 == 0 && 1 in t
    requires T.Find(t[d].log, name) == |t[d].log| && AllPlain(toks) && toks != [] && toks[|toks| - 1] == name
    requires AllPlain(toks[..|toks| - 1]) && TreePaths.Walk(t, 1, toks[..|toks| - 1]) == d
    ensures var u := T.Create(t, d, name, n, typ);
            n in u && d != n && FileEntries(u, n) && TreePaths.Walk(u, 1, toks) == n
  {
    CreatedEntries(t, d, name, n, typ);
    hide Linked, T.Create, T.Find, FileEntries, TreePaths.Walk, TreePaths.Step, Plain;
    var front := toks[..|toks| - 1];
    assert toks == front + [name];
    PlainIs(front);
    WalkGrows(t, d, name, n, typ, 1, front);
    StepCreate(t, d, name, n, typ, d, name);
    TreePaths.WalkLast(T.Create(t, d, name, n, typ), 1, front, name);
  }

  /** Create, where it succeeds, takes an inode that was free. */
  lemma NewNumber(v: Vol, path: seq<Byte>, typ: Byte)
    requires Sound(v) && NoNul(path) && Create(v, path, typ).ret > 0
    ensures var r := Create(v, path, typ); r.ret !in TreeOf(v) && 0 < r.ret < TWO32
  {
    CreateSound(v, path, typ);
    hide Sound, TreeOf, Create, ResolveParent, T.Create, AllNamed;
  }

  lemma ResolveTokens(v: Vol, path: seq<Byte>)
    ensures Resolve(v, path) == ResolveFrom(v, 1, Tokens(path))
  {
  }

  lemma PlainIs(toks: seq<Name>)
    requires AllPlain(toks)
    ensures TreePaths.PlainNames(toks)
  {
    forall i | 0 <= i < |toks| ensures toks[i] != DOT && toks[i] != DOTDOT { assert Plain(toks[i]); }
  }

  lemma NameWasFree(v: Vol, path: seq<Byte>, typ: Byte)
    requires Sound(v) && NoNul(path) && Create(v, path, typ).ret > 0
    ensures var p := ResolveParent(v, path); var t := TreeOf(v);
            p.Target? && T.DirIn(t, p.parent) && T.Find(t[p.parent].log, p.name) == |t[p.parent].log| && p.parent > 0
  {
    SoundRoot(v);
    var p := ResolveParent(v, path);
    if p.Target? { SoundParent(v, path); }
    hide Sound, Own, DirsOK, Linked, ResolveParent, TreeOf, Create, T.Find, Plain;
    CreateTree(v, path, typ);
  }

  lemma CreatedEntries(t: T.Tree, d: int, name: Name, n: Word, typ: Byte)
    requires Linked(t) && T.DirIn(t, d) && n !in t && typ % 2 == 0
    ensures var u := T.Create(t, d, name, n, typ); FileEntries(u, n) && n in u && d != n
  {
    var u := T.Create(t, d, name, n, typ);
    forall x, f
      ensures Proper(u, x, f, n)
              <==> Proper(t, x, f, n) || (x == d && f == |t[d].log| && Proper(u, x, f, n))
    {
      if x in t && x != d { assert u[x] == t[x]; }
    }
  }

  /** A walk that gets somewhere gets there after a create too. */
  lemma {:induction false} WalkGrows(t: T.Tree, d: int, name: Name, n: Word, typ: Byte, x: int, names: seq<Name>)
    requires Linked(t) && T.DirIn(t, d) && n !in t && T.Find(t[d].log, name) == |t[d].log|
    requires x in t && TreePaths.PlainNames(names) && TreePaths.Walk(t, x, names) >= 0
    ensures TreePaths.Walk(T.Create(t, d, name, n, typ), x, names) == TreePaths.Walk(t, x, names)
    decreases |names|
  {
    if names != [] {
      var s := names[0];
      StepCreate(t, d, name, n, typ, x, s);
      var y := TreePaths.Step(t, x, s);
      assert Proper(t, x, T.Find(t[x].log, s), y);
      hide Linked, T.Create, T.Find, Proper;
      WalkGrows(t, d, name, n, typ, y, names[1..]);
    }
  }

  lemma NewIsFile(w: Vol, n: int, typ: Byte)
    requires WF(w) && Allocated(w, n) && GetInode(w, n) == NEW_FILE.(mode := typ) && typ % 2 == 0
    ensures IsFile(w, n)
  {
  }

  lemma FreshTook(w: Vol, n: int)
    requires Owned(w) && InoValid(w, n) && SamePtrFields(GetInode(w, n), ZERO_INODE)
    ensures Took(w, w, n) && GetInode(w, n).dbl == 0
  {
    var ino := w.inodes[n - 1];
    forall k ensures P(w, ino, k) == 0 { PtrFields(w, w, ZERO_INODE, ino, k); ZeroInodeEmpty(w, k); }
    hide P, Own;
  }

  /** The volume of a successful create, step by step. */
  lemma CreateMade(v: Vol, path: seq<Byte>, typ: Byte)
    requires Owned(v) && Create(v, path, typ).ret > 0
    ensures ResolveParent(v, path).Target?
    ensures var r := Create(v, path, typ); var w := r.v; var n := r.ret; var d := ResolveParent(v, path).parent;
            && InoValid(v, n) && !v.inoUsed[n - 1] && w.inoUsed == v.inoUsed[n - 1 := true]
            && (d != n ==> GetInode(w, n) == NEW_FILE.(mode := typ)) && InoValid(w, d)
            && w.base == v.base && |w.data| == |v.data|
            && (forall p :: Used(v, p) ==> Used(w, p))
            && (forall p :: Used(w, p) && !Used(v, p) ==> Holds(w, GetInode(w, d), p))
  {
    hide Own, ResolveParent, DirFind, FreeInode, DirAdd, ValidName, Bounded;
    var p := ResolveParent(v, path);
    var n := AllocInode(v).phys;
    var w := PutInode(AllocInode(v).v, n, NEW_FILE.(mode := typ));
    CreateSteps(v, path, typ);
    AddTakes(w, p.parent, p.name, n, typ);
    assert forall q :: Used(w, q) <==> Used(v, q);
    hide Holds;
  }

  lemma {:induction false} WritesTree(v: Vol, n: int, cs: seq<Chunk>)
    requires Sound(v) && IsFile(v, n) && forall c :: c in cs ==> GoodChunk(c)
    ensures var w := Writes(v, n, cs); Sound(w) && IsFile(w, n) && TreeOf(w) == TreeOf(v)
    decreases |cs|
  {
    SoundRoot(v);
    hide Sound, TreeOf, IsFile, WriteOne;
    if cs != [] {
      WriteOneTree(v, n, cs[0]);
      WritesTree(WriteOne(v, n, cs[0]), n, cs[1..]);
    }
  }

  lemma WriteOneTree(v: Vol, n: int, c: Chunk)
    requires Sound(v) && IsFile(v, n) && GoodChunk(c)
    ensures var w := WriteOne(v, n, c); Sound(w) && IsFile(w, n) && TreeOf(w) == TreeOf(v)
  {
    var w := WriteOne(v, n, c);
    SoundRoot(v);
    hide Sound, WriteFile, WriteEmpty, TreeOf, Own, DirsOK, Linked, OffX;
    if c.buf == [] { EmptyTree(v, n, c.offset); } else { WriteTree(v, n, c.offset, c.buf); }
    SoundIs(w);
    FileByTree(v, w, n);
  }

  lemma FileByTree(v: Vol, w: Vol, n: int)
    requires WF(v) && WF(w) && TreeOf(w) == TreeOf(v) && IsFile(v, n)
    ensures IsFile(w, n)
  {
    assert TreeOf(w)[n] == NodeOf(w, n) && TreeOf(v)[n] == NodeOf(v, n);
  }

  /** The same tree resolves the same. */
  lemma SameResolve(v: Vol, w: Vol, path: seq<Byte>)
    requires Sound(v) && Sound(w) && TreeOf(w) == TreeOf(v) && NoNul(path)
    ensures Resolve(w, path) == Resolve(v, path)
  {
    TokensPlain(path);
    SoundRoot(v);
    SoundRoot(w);
    SoundWalk(v, 1, Tokens(path));
    SoundWalk(w, 1, Tokens(path));
    hide Sound, TreeOf, ResolveFrom;
  }

  /** Deleting a file that is not protected: its entry is buried and its inode freed. */
  lemma FileDeleted(v: Vol, path: seq<Byte>, n: int)
    requires Sound(v) && NoNul(path) && Resolve(v, path) == n && IsFile(v, n) && !Protected(GetInode(v, n).mode)
    requires FileEntries(TreeOf(v), n)
    ensures ResolveParent(v, path).Target?
    ensures var p := ResolveParent(v, path); var r := Delete(v, path);
            r.ok && r.v == FreeInode(DirRemove(v, p.parent, p.name).v, n)
  {
    SoundRoot(v);
    HasParent(v, path);
    SoundParent(v, path);
    ResolveComposes(v, path);
    NotDirIn(v, n);
    var p := ResolveParent(v, path);
    SoundStep(v, p.parent, p.name);
    var f := DirFind(v, p.parent, p.name);
    EntTyp(f.ent);
    hide Sound, DirRemove, FreeInode, TreeOf, DirFind, ResolveParent, Resolve, Plain, Proper, SlotOf, T.Find, GetInode;
    assert f.ent.typ != 1;
    DeleteSound(v, path);
  }

  lemma EntTyp(ent: DirEnt)
    ensures SlotOf(ent).Live? ==> SlotOf(ent).typ == ent.typ
    ensures ent.ino != 0 ==> SlotOf(ent).Live?
  {
  }

  lemma NotDirIn(v: Vol, n: int)
    requires WF(v) && IsFile(v, n)
    ensures !T.DirIn(TreeOf(v), n) && InoValid(v, n)
  {
    assert TreeOf(v)[n] == NodeOf(v, n);
  }

  lemma HasParent(v: Vol, path: seq<Byte>)
    requires Sound(v) && NoNul(path) && IsFile(v, Resolve(v, path))
    ensures ResolveParent(v, path).Target?
  {
    var toks := Tokens(path);
    SoundRoot(v);
    NodeIs(v, 1);
    if toks != [] {
      var front := toks[..|toks| - 1];
      assert toks == front + [toks[|toks| - 1]];
      ResolveAppend(v, 1, front, toks[|toks| - 1]);
    }
    NotDirIn(v, Resolve(v, path));
    hide Sound, DirFind, ResolveFrom, Own, DirsOK;
  }

  lemma RemovedTook(v0: Vol, v: Vol, d: int, name: Name, n: int)
    requires Took(v0, v, n)
    ensures Took(v0, DirRemove(v, d, name).v, n)
  {
    assert Owned(v) && GetInode(v, n) == v.inodes[n - 1];
    hide DirRemove, Own, Bounded, P, DirectBound, Took;
    var x := DirRemove(v, d, name).v;
    RemoveKept(v, d, name);
    TookSame(v0, v, x, n);
  }

  lemma TookSame(v0: Vol, v: Vol, x: Vol, n: int)
    requires Took(v0, v, n) && Owned(x) && x.inodes == v.inodes && x.used == v.used && x.base == v.base
             && |x.data| == |v.data|
    requires forall k :: P(x, GetInode(v, n), k) == P(v, GetInode(v, n), k)
    ensures Took(v0, x, n)
  {
    var ino := GetInode(v, n);
    hide Own, P, DirectBound;
    forall p | Used(x, p) && !Used(v0, p) ensures Holds(x, ino, p) {
      assert Used(v, p);
      var k :| P(v, ino, k) == p;
      assert P(x, ino, k) == p;
    }
  }

  /** From the new file to its deletion: every block the writes took is free again. */
  lemma WrittenDeleted(v: Vol, n: int, cs: seq<Chunk>, path: seq<Byte>, m: int, k: Key)
    requires Sound(v) && IsFile(v, n) && Resolve(v, path) == n && NoNul(path) && !Protected(GetInode(v, n).mode)
    requires FileEntries(TreeOf(v), n)
    requires Took(v, v, n) && GetInode(v, n).dbl == 0 && InoValid(v, m) && m != n
    requires forall c :: c in cs ==> NearChunk(c)
    ensures forall c :: c in cs ==> GoodChunk(c)
    ensures var w := Delete(Writes(v, n, cs), path).v;
            && InoValid(v, n) && w.used == v.used && w.inoUsed == v.inoUsed[n - 1 := false]
            && GetInode(w, m) == GetInode(v, m)
            && P(w, GetInode(w, m), k) == P(v, GetInode(v, m), k)
  {
    forall c | c in cs ensures GoodChunk(c) { assert NearChunk(c); }
    SoundRoot(v);
    var u := Writes(v, n, cs);
    WritesTook(v, v, n, cs);
    WritesTree(v, n, cs);
    SameResolve(v, u, path);
    SameMode(v, u, n);
    FileDeleted(u, path, n);
    var p := ResolveParent(u, path);
    var x := DirRemove(u, p.parent, p.name).v;
    RemoveKept(u, p.parent, p.name);
    RemovedTook(v, u, p.parent, p.name, n);
    FreeTookIff(v, x, n);
    OtherPtr(v, u, x, n, m, k);
    NotDirIn(v, n);
    hide *;
    assert FreeInode(x, n) == Delete(u, path).v;
    FreedFlags(x, n);
  }

  lemma SameMode(v: Vol, w: Vol, n: int)
    requires OnlyFile(v, w, n)
    ensures GetInode(w, n).mode == GetInode(v, n).mode && w.inoUsed == v.inoUsed
  {
  }

  lemma FreedFlags(x: Vol, n: int)
    requires WF(x) && InoValid(x, n)
    ensures FreeInode(x, n).inoUsed == x.inoUsed[n - 1 := false]
  {
  }

  lemma OtherPtr(v: Vol, u: Vol, x: Vol, n: int, m: int, k: Key)
    requires WF(x) && OnlyFile(v, u, n) && InoValid(v, m) && InoValid(x, n) && m != n && x.inodes == u.inodes
    requires P(x, GetInode(u, m), k) == P(u, GetInode(u, m), k)
    ensures var w := FreeInode(x, n);
            GetInode(w, m) == GetInode(v, m) && P(w, GetInode(w, m), k) == P(v, GetInode(v, m), k)
  {
    assert GetInode(u, m) == GetInode(v, m) && Undisturbed(v, u, GetInode(v, m));
    FreePtr(x, n, m - 1, k);
    hide P;
  }

  /** The run of such a life, taken apart. */
  lemma LifeRun(s: Fs, path: seq<Byte>, typ: Byte, cs: seq<Chunk>)
    requires WF(s.v) && NoNul(path) && forall c :: c in cs ==> GoodChunk(c)
    requires var c := Create(s.v, path, typ);
             FreeFd(s.fds, 0) < |s.fds| && Resolve(c.v, path) == c.ret && IsFile(c.v, c.ret)
    ensures var c := Create(s.v, path, typ); var ops := Life(path, typ, FreeFd(s.fds, 0), cs);
            AllSized(ops) && Run(s, ops).v == Delete(Writes(c.v, c.ret, cs), path).v
  {
    hide Create, Delete, WF, Resolve, Writes, FreeFd, GoodChunk, IsFile, NoNul;
    var c := Create(s.v, path, typ);
    var fd := FreeFd(s.fds, 0);
    var a := OpenOps(path, typ);
    var b := [DeleteOp(path)];
    var ws := WriteOps(fd, cs);
    Opened(s, path, typ, c.v, c.ret);
    NotDirIn(c.v, c.ret);
    WritesRun(Run(s, a), fd, c.ret, cs);
    RunAppend(s, a, ws);
    RunAppend(s, a + ws, b);
    OneStep(Run(s, a + ws), b[0]);
  }

  lemma OneStep(s: Fs, op: Op)
    requires WF(s.v) && Sized(op)
    ensures Run(s, [op]) == Step(s, op)
  {
    hide Step, WF;
    assert [op][1..] == [];
  }

  function OpenOps(path: seq<Byte>, typ: Byte): (ops: seq<Op>)
    ensures AllSized(ops)
  {
    [CreateOp(path, typ), OpenOp(path)]
  }

  /** After create and open the first free descriptor refers to the new file. */
  lemma Opened(s: Fs, path: seq<Byte>, typ: Byte, v: Vol, n: int)
    requires WF(s.v) && FreeFd(s.fds, 0) < |s.fds|
    requires Create(s.v, path, typ) == Called(v, n) && WF(v) && Resolve(v, path) == n && IsFile(v, n)
    ensures Run(s, OpenOps(path, typ)) == Fs(v, s.fds[FreeFd(s.fds, 0) := Fd(true, n)])
  {
    hide Create, Resolve, FreeFd, Delete, Rename, Write, WF, IsFile, Open;
    var ops := OpenOps(path, typ);
    var x := Step(s, ops[0]);
    OneStep(x, ops[1]);
    OpenFile(x, path);
    assert ops[1..] == [ops[1]];
  }

  lemma OpenFile(s: Fs, path: seq<Byte>)
    requires WF(s.v) && FreeFd(s.fds, 0) < |s.fds| && IsFile(s.v, Resolve(s.v, path))
    ensures Open(s, path).0 == s.fds[FreeFd(s.fds, 0) := Fd(true, Resolve(s.v, path))]
  {
    hide Resolve, FreeFd;
  }

  /** The bits of r are those of v0, but for blocks that inode m holds in r. */
  ghost predicate GivenBack(v0: Vol, r: Vol, m: int)
    requires WF(v0) && WF(r)
  {
    && r.inoUsed == v0.inoUsed
    && (forall p :: Used(r, p) <==> Used(v0, p) || (p != 0 && Holds(r, GetInode(r, m), p)))
  }

  /**
   * Creating a file, writing to it through its descriptor any number of times within its first 134 blocks, and
   * deleting it: every inode bit is as it was, and the only blocks that stay taken are those the parent directory got
   * for the entry.
   */
  lemma FileLife(s: Fs, path: seq<Byte>, typ: Byte, cs: seq<Chunk>)
    requires WF(s.v) && Sound(s.v) && NoNul(path) && typ % 2 == 0
    requires Create(s.v, path, typ).ret > 0 && FreeFd(s.fds, 0) < |s.fds| && forall c :: c in cs ==> NearChunk(c)
    ensures AllSized(Life(path, typ, FreeFd(s.fds, 0), cs))
    ensures GivenBack(s.v, Run(s, Life(path, typ, FreeFd(s.fds, 0), cs)).v, ResolveParent(s.v, path).parent)
  {
    hide *;
    var v, n := Create(s.v, path, typ).v, Create(s.v, path, typ).ret;
    AllGood(cs);
    SoundRoot(s.v);
    CreateReady(s.v, path, typ);
    LifeRun(s, path, typ, cs);
    LifeBack(s.v, path, typ, cs);
  }

  lemma AllGood(cs: seq<Chunk>)
    requires forall c :: c in cs ==> NearChunk(c)
    ensures forall c :: c in cs ==> GoodChunk(c)
  {
    forall c | c in cs ensures GoodChunk(c) { assert NearChunk(c); }
  }

  lemma NewMode(v: Vol, n: int, typ: Byte)
    requires GetInode(v, n) == NEW_FILE.(mode := typ)
    ensures !Protected(GetInode(v, n).mode)
  {
  }

  lemma LifeBack(v0: Vol, path: seq<Byte>, typ: Byte, cs: seq<Chunk>)
    requires WF(v0) && Sound(v0) && NoNul(path) && typ % 2 == 0 && Create(v0, path, typ).ret > 0
    requires forall c :: c in cs ==> NearChunk(c) && GoodChunk(c)
    ensures ResolveParent(v0, path).Target?
    ensures var c := Create(v0, path, typ);
            GivenBack(v0, Delete(Writes(c.v, c.ret, cs), path).v, ResolveParent(v0, path).parent)
  {
    hide *;
    var c := Create(v0, path, typ);
    var v, n := c.v, c.ret;
    var u := Writes(v, n, cs);
    var w := Delete(u, path).v;
    SoundRoot(v0);
    CreateReady(v0, path, typ);
    CreateMade(v0, path, typ);
    var m := ResolveParent(v0, path).parent;
    NewMode(v, n, typ);
    WritesTree(v, n, cs);
    SoundRoot(u);
    DeleteKept(u, path);
    KeptOwned(u, w);
    WrittenDeleted(v, n, cs, path, m, Dbl);
    forall k ensures P(w, GetInode(w, m), k) == P(v, GetInode(v, m), k) { WrittenDeleted(v, n, cs, path, m, k); }
    LifeBits(v0, v, u, w, n, m);
  }

  lemma LifeBits(v0: Vol, v: Vol, u: Vol, w: Vol, n: int, m: int)
    requires WF(v0) && WF(v) && Owned(w) && InoValid(v0, n) && !v0.inoUsed[n - 1]
             && v.inoUsed == v0.inoUsed[n - 1 := true]
    requires SameFrame(v0, v) && SameFrame(v, u) && SameFrame(u, w)
    requires w.used == v.used && w.inoUsed == v.inoUsed[n - 1 := false] && GetInode(w, m) == GetInode(v, m)
    requires forall k :: P(w, GetInode(w, m), k) == P(v, GetInode(v, m), k)
    requires forall q :: Used(v0, q) ==> Used(v, q)
    requires forall q :: Used(v, q) && !Used(v0, q) ==> Holds(v, GetInode(v, m), q)
    ensures GivenBack(v0, w, m)
  {
    hide P;
    var d := GetInode(w, m);
    forall p ensures Used(w, p) <==> Used(v0, p) || (p != 0 && Holds(w, d, p)) {
      assert Used(w, p) <==> Used(v, p);
      if Used(v, p) && !Used(v0, p) {
        var k :| P(v, GetInode(v, m), k) == p;
        assert P(w, d, k) == p;
      }
      if p != 0 && Holds(w, d, p) {
        var k :| P(w, d, k) == p;
        if InoValid(w, m) { assert P(w, w.inodes[m - 1], k) == p; } else { ZeroInodeEmpty(w, k); }
      }
    }
  }
}
