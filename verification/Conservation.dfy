/** Direct pointers stay within the size over whole runs, so that deleting gives blocks back. */
module Conservation {
  import opened Bytes
  import opened Volume
  import opened BlockMap
  import opened FileData
  import opened Inodes
  import opened Directory
  import opened Api
  import opened VolTree
  import opened Calls
  import opened EmptyWrite
  import opened Owners
  import opened Runs
  import opened Format

  /**
   * The calls that leave direct pointers within the sizes: all but a zero-byte write at offset 0 to a file that does
   * not cover its direct slots, when more blocks are free than slots are missing within its size.
   */
  predicate Harmless(s: Fs, op: Op)
    requires WF(s.v)
  {
    if op.WriteOp? && op.buf == [] && op.offset == 0 && FdValid(s, op.fd) && InoValid(s.v, s.fds[op.fd].ino) then
      var a := GetInode(s.v, s.fds[op.fd].ino);
      var c := CeilDiv(a.size, 512);
      c >= 6 || FreeCount(s.v.used) <= Holes(a, 0, c)
    else true
  }

  /** A call keeps direct pointers within the sizes if and only if it is harmless. */
  lemma StepBoundedIff(s: Fs, op: Op)
    requires Owned(s.v) && Sized(op) && Bounded(s.v)
    ensures Bounded(Step(s, op).v) <==> Harmless(s, op)
  {
    hide Own, Create, Delete, Rename, Open, Bounded, FreeCount, Holes;
    match op
    case CreateOp(path, typ) => CreateKept(s.v, path, typ);
    case OpenOp(path) =>
    case WriteOp(fd, buf, offset) => WriteBoundedIff(s, fd, buf, offset);
    case DeleteOp(path) => DeleteKept(s.v, path);
    case RenameOp(oldpath, newpath) => RenameKept(s.v, oldpath, newpath);
  }

  lemma WriteBoundedIff(s: Fs, fd: int, buf: seq<Byte>, offset: nat)
    requires Owned(s.v) && offset + |buf| < TWO32 && Bounded(s.v)
    ensures Bounded(Write(s, fd, buf, offset).v) <==> Harmless(s, WriteOp(fd, buf, offset))
  {
    hide Own, WriteFile, WriteEmpty, FreeCount, Holes, DirectBound;
    if FdValid(s, fd) && InoValid(s.v, s.fds[fd].ino) {
      var n := s.fds[fd].ino;
      assert DirectBound(s.v.inodes[n - 1]);
      hide Bounded;
      if buf == [] {
        EmptyKept(s.v, n, offset);
        EmptyWriteBoundedIff(s.v, n, offset);
      } else {
        WriteKept(s.v, n, offset, buf);
      }
    }
  }

  ghost predicate HarmlessRun(s: Fs, ops: seq<Op>)
    requires WF(s.v) && AllSized(ops)
    decreases |ops|
  {
    ops == [] || (Harmless(s, ops[0]) && HarmlessRun(Step(s, ops[0]), ops[1..]))
  }

  predicate EmptyAtZero(op: Op) { op.WriteOp? && op.buf == [] && op.offset == 0 }

  /** What a caller can see to beforehand: no write of zero bytes at offset 0. */
  lemma {:induction false} NoEmptyAtZero(s: Fs, ops: seq<Op>)
    requires WF(s.v) && AllSized(ops) && forall i :: 0 <= i < |ops| ==> !EmptyAtZero(ops[i])
    ensures HarmlessRun(s, ops)
    decreases |ops|
  {
    hide Step, WF;
    if ops != [] {
      assert WF(Step(s, ops[0]).v);
      NoEmptyAtZero(Step(s, ops[0]), ops[1..]);
    }
  }

  /** Every run of harmless calls keeps direct pointers within the sizes. */
  lemma {:induction false} RunBounded(s: Fs, ops: seq<Op>)
    requires Owned(s.v) && AllSized(ops) && Bounded(s.v) && HarmlessRun(s, ops)
    ensures Bounded(Run(s, ops).v)
    decreases |ops|
  {
    hide Own, Bounded, Step, Harmless;
    if ops != [] {
      StepOwned(s, ops[0]);
      StepBoundedIff(s, ops[0]);
      RunBounded(Step(s, ops[0]), ops[1..]);
    }
  }

  /**
   * In every state such a run reaches, freeing any inode clears exactly the bits of the blocks it owned outside
   * its double-indirect tree, and all of them if and only if it has no such tree.
   */
  lemma RunFreeExact(s: Fs, ops: seq<Op>, n: int, p: int)
    requires Owned(s.v) && AllSized(ops) && Bounded(s.v) && HarmlessRun(s, ops)
    requires InoValid(Run(s, ops).v, n) && p != 0
    ensures var v := Run(s, ops).v; var ino := v.inodes[n - 1];
            && (Used(FreeInode(v, n), p) <==> Used(v, p) && !exists k :: !DblKey(k) && P(v, ino, k) == p)
            && (AllReturned(v, ino, FreeInode(v, n)) <==> ino.dbl == 0)
  {
    RunOwned(s, ops);
    RunBounded(s, ops);
    var v := Run(s, ops).v;
    assert Owned(v) && DirectBound(v.inodes[n - 1]);
    hide Run, P, Own, Bounded, FreeInode, HarmlessRun, Used, AllReturned, DirectBound;
    FreeExact(v, n, p);
    FreeCompleteIff(v, n);
  }

  // ---------------------------------------------------------------------
  // From format on

  /** Format starts runs off with direct pointers within the sizes. */
  lemma FormatBounded(super: Block, base: nat, inodes: nat, data: seq<Block>)
    requires 0 < base && base + |data| < 0x8000_0000 && inodes < 0x8000_0000
    ensures Kept(Blank(super, base, inodes, data), FormatVol(Blank(super, base, inodes, data)).v)
    ensures Bounded(FormatVol(Blank(super, base, inodes, data)).v)
  {
    hide Own, Kept, GiveDots, MakeApp, MakeAutorun, Bounded, Blank, TakeRoot;
    var v := Blank(super, base, inodes, data);
    BlankKept(super, base, inodes, data);
    var w := TakeRoot(v);
    KeptOwned(v, w);
    DotsKept(w, 1, 1, TYPE_DIR);
    var d := GiveDots(w, 1, 1, TYPE_DIR);
    KeptTrans(v, w, d.v);
    KeptOwned(w, d.v);
    AppKept(d.v);
    var a := MakeApp(d.v);
    KeptTrans(v, d.v, a.v);
    KeptOwned(d.v, a.v);
    AutorunKept(a.v);
    KeptTrans(v, a.v, MakeAutorun(a.v).v);
    KeptBounded(v, FormatVol(v).v);
  }

  lemma KeptBounded(v: Vol, w: Vol)
    requires Kept(v, w) && Bounded(v)
    ensures Bounded(w)
  {
  }

  lemma BlankKept(super: Block, base: nat, inodes: nat, data: seq<Block>)
    requires 0 < base && base + |data| < 0x8000_0000 && inodes < 0x8000_0000
    ensures var v := Blank(super, base, inodes, data); Bounded(v) && Kept(v, TakeRoot(v))
  {
    var v := Blank(super, base, inodes, data);
    BlankOwned(super, base, inodes, data);
    if inodes > 0 { TakeRootTree(v); }
    hide Own, OffX;
  }

  lemma DotsKept(v: Vol, n: Word, parent: Word, mode: Word)
    requires Owned(v) && (v.inodes == [] || InoValid(v, n))
    ensures Kept(v, GiveDots(v, n, parent, mode).v)
  {
    if !Full(v) && InoValid(v, n) { GiveDotsOff(v, n, parent, mode); }
    hide OffX, Dots;
  }

  lemma TakeInodeKept(v: Vol, mode: Word, links: Word)
    requires Owned(v)
    ensures var a := TakeInode(v, mode, links); Kept(v, a.v) && (a.phys > 0 ==> InoValid(a.v, a.phys))
  {
    if TakeInode(v, mode, links).phys > 0 {
      TakeInodeOff(v, mode, links);
      AllocInodeOwned(v);
    }
    hide Own, OffX;
  }

  lemma AppKept(v: Vol)
    requires Owned(v)
    ensures Kept(v, MakeApp(v).v)
  {
    hide Own, Kept, GiveDots, TakeInode, DirAdd;
    var mode := TYPE_DIR + PROTECTED_FLAG;
    var a := TakeInode(v, mode, 2);
    TakeInodeKept(v, mode, 2);
    KeptOwned(v, a.v);
    if 0 <= a.phys < TWO32 {
      var d := GiveDots(a.v, a.phys, 1, mode);
      DotsKept(a.v, a.phys, 1, mode);
      KeptTrans(v, a.v, d.v);
      KeptOwned(v, d.v);
      AddKept(d.v, 1, APP, a.phys, TYPE_DIR);
      KeptTrans(v, d.v, DirAdd(d.v, 1, APP, a.phys, TYPE_DIR).v);
    }
  }

  lemma AutorunKept(v: Vol)
    requires Owned(v)
    ensures Kept(v, MakeAutorun(v).v)
  {
    hide Own, Kept, TakeInode, DirAdd;
    var mode := 2 + PROTECTED_FLAG;
    var a := TakeInode(v, mode, 1);
    TakeInodeKept(v, mode, 1);
    KeptOwned(v, a.v);
    if 0 <= a.phys < TWO32 {
      AddKept(a.v, 1, AUTORUN, a.phys, 2);
      KeptTrans(v, a.v, DirAdd(a.v, 1, AUTORUN, a.phys, 2).v);
    }
  }

  lemma FreshKept(super: Block, base: nat, inodes: nat, data: seq<Block>)
    requires 0 < base && base + |data| < 0x8000_0000 && inodes < 0x8000_0000
    ensures var s := Fresh(super, base, inodes, data); Owned(s.v) && Bounded(s.v)
  {
    hide Own, Kept, Bounded, Blank, FormatVol;
    FormatBounded(super, base, inodes, data);
    KeptOwned(Blank(super, base, inodes, data), FormatVol(Blank(super, base, inodes, data)).v);
  }

  /**
   * Ownership from format on, over every sequence of calls: any pointer any inode slot holds in a state reached names
   * a data block whose bit is set, and no other place of any inode names the same block.
   */
  lemma EveryRunOwned(super: Block, base: nat, inodes: nat, data: seq<Block>, ops: seq<Op>, n: int, k: Key)
    requires 0 < base && base + |data| < 0x8000_0000 && inodes < 0x8000_0000 && AllSized(ops)
    ensures SoleOwner(Run(Fresh(super, base, inodes, data), ops).v, n, k)
  {
    hide Own, Bounded, Fresh, Run, SoleOwner;
    FreshKept(super, base, inodes, data);
    RunOwnership(Fresh(super, base, inodes, data), ops, n, k);
  }

  /** From format on, while no call writes zero bytes at offset 0, freeing an inode clears exactly what it owned. */
  lemma EveryRunFreeExact(super: Block, base: nat, inodes: nat, data: seq<Block>, ops: seq<Op>, n: int, p: int)
    requires 0 < base && base + |data| < 0x8000_0000 && inodes < 0x8000_0000 && AllSized(ops)
    requires forall i :: 0 <= i < |ops| ==> !EmptyAtZero(ops[i])
    requires 1 <= n <= inodes && p != 0
    ensures var v := Run(Fresh(super, base, inodes, data), ops).v; var ino := v.inodes[n - 1];
            && (Used(FreeInode(v, n), p) <==> Used(v, p) && !exists k :: !DblKey(k) && P(v, ino, k) == p)
            && (AllReturned(v, ino, FreeInode(v, n)) <==> ino.dbl == 0)
  {
    var s := Fresh(super, base, inodes, data);
    assert |Run(s, ops).v.inodes| == |s.v.inodes| == inodes;
    hide Own, Bounded, Fresh, Run, P, Used, FreeInode, AllReturned;
    FreshKept(super, base, inodes, data);
    NoEmptyAtZero(s, ops);
    RunFreeExact(s, ops, n, p);
  }
}
