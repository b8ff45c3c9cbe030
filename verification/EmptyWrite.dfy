/** A write of zero bytes: the last block index wraps around at offset 0, and the loop still allocates. */
module EmptyWrite {
  import opened Bytes
  import opened Volume
  import opened BlockMap
  import opened FileData
  import opened Inodes

  datatype Touched = Touched(v: Vol, ino: Inode)

  /** The write loop over blocks b..last when there is nothing to copy. */
  function Touch(v: Vol, ino: Inode, b: nat, last: nat): (r: Touched)
    requires WF(v)
    ensures WF(r.v) && SameFrame(v, r.v)
    decreases last + 1 - b
  {
    if b > last then Touched(v, ino)
    else
      var g := GetBlock(v, ino, b, true);
      if g.phys < 0 then Touched(g.v, g.ino) else Touch(g.v, g.ino, b + 1, last)
  }

  /** (offset + 0 - 1) / 512 in 32-bit unsigned arithmetic. */
  function LastBlock(offset: nat): nat
    requires offset < TWO32
  {
    ((offset + TWO32 - 1) % TWO32) / 512
  }

  /** What the write call does to the volume for size 0; it returns 0. */
  function WriteEmpty(v: Vol, n: int, offset: nat): (w: Vol)
    requires WF(v) && offset < TWO32
    ensures WF(w) && SameFrame(v, w)
  {
    var ino := GetInode(v, n);
    var r := Touch(v, ino, offset / 512, LastBlock(offset));
    PutInode(r.v, n, r.ino.(size := Max(ino.size, offset)))
  }

  lemma {:induction false} TouchKeeps(v: Vol, t: seq<Inode>, n: nat, b: nat, last: nat)
    requires WF(v) && Own(v, t) && n < |t|
    ensures var r := Touch(v, t[n], b, last);
            Grew(v, t, n, r.v, r.ino) && Own(r.v, t[n := r.ino]) && OthersKept(v, t, n, r.v)
    decreases last + 1 - b
  {
    hide Grew, Own, OthersKept, GetBlock;
    if b > last {
      GrewRefl(v, t, n);
      OthersKeptRefl(v, t, n);
      assert t[n := t[n]] == t;
    } else {
      var g := GetBlock(v, t[n], b, true);
      GetBlockKeeps(v, t, n, b);
      if g.phys >= 0 {
        var u := t[n := g.ino];
        var r := Touch(g.v, g.ino, b + 1, last);
        TouchKeeps(g.v, u, n, b + 1, last);
        assert u[n := r.ino] == t[n := r.ino];
        GrewTrans(v, t, n, g.v, g.ino, r.v, r.ino);
        OthersKeptTrans(v, t, n, g.v, g.ino, r.v);
      }
    }
  }

  lemma GetBlockKeeps(v: Vol, t: seq<Inode>, n: nat, l: nat)
    requires WF(v) && Own(v, t) && n < |t|
    ensures var g := GetBlock(v, t[n], l, true);
            Grew(v, t, n, g.v, g.ino) && Own(g.v, t[n := g.ino]) && OthersKept(v, t, n, g.v)
  {
    GetBlockAlloc(v, t, n, l);
    hide GetBlock, Own, P;
  }

  /** Ownership and isolation hold for a write of zero bytes too. */
  lemma WriteEmptyKeeps(v: Vol, n: int, offset: nat)
    requires Owned(v) && InoValid(v, n) && offset < TWO32
    ensures var w := WriteEmpty(v, n, offset);
            && Owned(w) && w.base == v.base && w.super == v.super && w.inoUsed == v.inoUsed && |w.inodes| == |v.inodes|
            && GetInode(w, n).mode == GetInode(v, n).mode
            && (forall m :: InoValid(v, m) && m != n
                  ==> GetInode(w, m) == GetInode(v, m) && Undisturbed(v, w, GetInode(v, m)))
  {
    hide Grew, Own, OthersKept, Touch, Undisturbed;
    var t := v.inodes;
    var r := Touch(v, t[n - 1], offset / 512, LastBlock(offset));
    var w := WriteEmpty(v, n, offset);
    TouchKeeps(v, t, n - 1, offset / 512, LastBlock(offset));
    GrewShape(v, t, n - 1, r.v, r.ino);
    OwnFields(r.v, t[n - 1 := r.ino], w, w.inodes);
    forall m | InoValid(v, m) && m != n ensures GetInode(w, m) == GetInode(v, m) && Undisturbed(v, w, GetInode(v, m)) {
      GrewUndisturbed(v, t, n - 1, r.v, r.ino, m - 1);
      FieldsUndisturbed(r.v, w, t[m - 1]);
      UndisturbedTrans(v, r.v, w, t[m - 1]);
    }
  }

  /** What getting the blocks from b to stop makes of a cell in block l: a hole there is filled with zero. */
  function AfterTouch(c: Cell, l: nat, b: nat, stop: nat): Cell {
    if c.Hole? && b <= l < stop then Val(0) else c
  }

  /** Getting one block: every byte stays, and a fresh block is zero. */
  lemma GetBlockBytes(v: Vol, t: seq<Inode>, n: nat, l: nat, o: nat)
    requires WF(v) && Own(v, t) && n < |t|
    ensures var g := GetBlock(v, t[n], l, true);
            ByteAt(g.v, g.ino, o) == AfterTouch(ByteAt(v, t[n], o), o / 512, l, if g.phys < 0 then l else l + 1)
  {
    hide GetBlock, Own, P;
    GetBlockAlloc(v, t, n, l);
    var k := LeafOf(o / 512);
    if o / 512 < MAP_LIMIT { PathIsChain(o / 512); }
    var g := GetBlock(v, t[n], l, true);
    assert P(v, t[n], k) != 0 ==> P(g.v, g.ino, k) == P(v, t[n], k);
    assert ZERO_BLOCK[o % 512] == 0;
  }

  /**
   * The loop gets the blocks from b on up to some block, which is the end of the range, the end of the map, or the one
   * that finds the volume full; no byte changes, and the fresh blocks are zero.
   */
  lemma {:induction false} TouchIs(v: Vol, t: seq<Inode>, n: nat, b: nat, last: nat) returns (stop: nat)
    requires WF(v) && Own(v, t) && n < |t| && b <= last + 1
    ensures var r := Touch(v, t[n], b, last);
            && b <= stop <= last + 1
            && (stop <= last ==> (stop >= MAP_LIMIT || Full(r.v)) && Lookup(r.v, r.ino, stop) == 0)
            && (forall o: nat :: ByteAt(r.v, r.ino, o) == AfterTouch(ByteAt(v, t[n], o), o / 512, b, stop))
    decreases last + 1 - b
  {
    hide Grew, Own, DataKept, GetBlock, ByteAt, Lookup;
    stop := b;
    if b <= last {
      var g := GetBlock(v, t[n], b, true);
      GetBlockAlloc(v, t, n, b);
      if g.phys >= 0 { stop := TouchIs(g.v, t[n := g.ino], n, b + 1, last); }
      forall o: nat
        ensures ByteAt(g.v, g.ino, o)
                == AfterTouch(ByteAt(v, t[n], o), o / 512, b, if g.phys < 0 then b else b + 1)
      {
        GetBlockBytes(v, t, n, b, o);
      }
    }
  }

  /**
   * What a write of zero bytes does to its file: the size comes to the offset at least, and the bytes are those of
   * TouchIs for the blocks from the offset to the wrapped last block.
   */
  lemma WriteEmptyBytes(v: Vol, n: int, offset: nat) returns (stop: nat)
    requires Owned(v) && InoValid(v, n) && offset < TWO32
    ensures var w := WriteEmpty(v, n, offset); var b := offset / 512;
            && GetInode(w, n).size == Max(GetInode(v, n).size, offset)
            && b <= stop <= Max(b, LastBlock(offset) + 1)
            && (stop <= LastBlock(offset) ==> (stop >= MAP_LIMIT || Full(w)) && Lookup(w, GetInode(w, n), stop) == 0)
            && (forall o: nat :: FileByte(w, n, o) == AfterTouch(FileByte(v, n, o), o / 512, b, stop))
  {
    hide Grew, Own, OthersKept, Touch, ByteAt, Lookup;
    var t := v.inodes;
    var b, last := offset / 512, LastBlock(offset);
    var r := Touch(v, t[n - 1], b, last);
    var w := WriteEmpty(v, n, offset);
    stop := TouchIs(v, t, n - 1, b, last);
    TouchKeeps(v, t, n - 1, b, last);
    GrewShape(v, t, n - 1, r.v, r.ino);
    var j := w.inodes[n - 1];
    forall o: nat ensures ByteAt(w, j, o) == ByteAt(r.v, r.ino, o) { ByteFields(r.v, w, r.ino, j, o); }
    LookupFields(r.v, w, r.ino, j, stop);
  }

  lemma LookupFields(v: Vol, w: Vol, a: Inode, b: Inode, l: nat)
    requires v.base == w.base && v.data == w.data && SamePtrFields(a, b)
    ensures Lookup(w, b, l) == Lookup(v, a, l)
  {
    if l < MAP_LIMIT { PtrFields(v, w, a, b, LeafOf(l)); }
  }

  /** Direct pointers outside the touched range stay. */
  lemma {:induction false} TouchDirect(v: Vol, t: seq<Inode>, n: nat, b: nat, last: nat, i: nat)
    requires WF(v) && Own(v, t) && n < |t| && i < 6 && !(b <= i <= last)
    ensures Touch(v, t[n], b, last).ino.direct[i] == t[n].direct[i]
    decreases last + 1 - b
  {
    if b <= last {
      GetBlockAlloc(v, t, n, b);
      hide Grew, Own, GetBlock, DataKept;
      var g := GetBlock(v, t[n], b, true);
      assert P(g.v, g.ino, Direct(i)) == P(v, t[n], Direct(i));
      if g.phys >= 0 { TouchDirect(g.v, t[n := g.ino], n, b + 1, last, i); }
    }
  }

  /** How many direct pointers from slot b on and below slot c are missing. */
  function Holes(ino: Inode, b: nat, c: nat): (n: nat)
    requires c <= 6
    ensures n > 0 ==> b < c
    decreases c - b
  {
    if b >= c then 0 else (if ino.direct[b] == 0 then 1 else 0) + Holes(ino, b + 1, c)
  }

  lemma {:induction false} HolesSame(a: Inode, d: Inode, b: nat, c: nat)
    requires c <= 6 && forall i :: b <= i < c ==> d.direct[i] == a.direct[i]
    ensures Holes(d, b, c) == Holes(a, b, c)
    decreases c - b
  {
    if b < c { HolesSame(a, d, b + 1, c); }
  }

  /** Getting direct block b: it costs one free block if the pointer is missing, and nothing else changes. */
  lemma DirectCost(v: Vol, t: seq<Inode>, n: nat, b: nat)
    requires WF(v) && Own(v, t) && n < |t| && b < 6
    ensures var g := GetBlock(v, t[n], b, true); var k := FreeCount(v.used);
            && Own(g.v, t[n := g.ino])
            && (g.phys >= 0 <==> t[n].direct[b] != 0 || k > 0)
            && (g.phys >= 0 <==> g.ino.direct[b] != 0)
            && (g.phys >= 0 ==> FreeCount(g.v.used) == if t[n].direct[b] != 0 then k else k - 1)
            && (forall i :: 0 <= i < 6 && i != b ==> g.ino.direct[i] == t[n].direct[i])
            && (g.phys < 0 ==> g.ino == t[n])
  {
    GetBlockAlloc(v, t, n, b);
    assert PathOf(b) == [Direct(b)];
    hide Own, FreeCount;
    if t[n].direct[b] == 0 { GrowCount(v, t[n], Direct(b)); }
  }

  /**
   * The loop from block b on, down to the first missing slot c: it fills the missing slots below c and comes to c if
   * and only if there are more free blocks than that; otherwise nothing from c on is mapped.
   */
  lemma {:induction false} TouchReaches(v: Vol, t: seq<Inode>, n: nat, b: nat, last: nat, c: nat)
    requires WF(v) && Own(v, t) && n < |t| && b <= c < 6 <= last && t[n].direct[c] == 0
    ensures var r := Touch(v, t[n], b, last).ino;
            if FreeCount(v.used) > Holes(t[n], b, c) then r.direct[c] != 0
            else forall i :: c <= i < 6 ==> r.direct[i] == t[n].direct[i]
    decreases c - b
  {
    hide Own, GetBlock, FreeCount;
    DirectCost(v, t, n, b);
    var g := GetBlock(v, t[n], b, true);
    var u := t[n := g.ino];
    if g.phys >= 0 {
      if b == c {
        TouchStays(g.v, u, n, b + 1, last, c);
      } else {
        HolesSame(t[n], g.ino, b + 1, c);
        TouchReaches(g.v, u, n, b + 1, last, c);
      }
    }
  }

  /** What is mapped stays mapped. */
  lemma TouchStays(v: Vol, t: seq<Inode>, n: nat, b: nat, last: nat, i: nat)
    requires WF(v) && Own(v, t) && n < |t| && i < 6 && t[n].direct[i] != 0
    ensures Touch(v, t[n], b, last).ino.direct[i] != 0
  {
    TouchKeeps(v, t, n, b, last);
    assert P(v, t[n], Direct(i)) != 0;
    hide Own, Touch, OthersKept;
  }

  lemma WriteEmptyIs(v: Vol, n: int, offset: nat)
    requires Owned(v) && InoValid(v, n) && offset < TWO32
    ensures var a := v.inodes[n - 1]; var b := Touch(v, a, offset / 512, LastBlock(offset)).ino;
            var w := GetInode(WriteEmpty(v, n, offset), n);
            w.direct == b.direct && w.size == Max(a.size, offset)
  {
    var t := v.inodes;
    var r := Touch(v, t[n - 1], offset / 512, LastBlock(offset));
    TouchKeeps(v, t, n - 1, offset / 512, LastBlock(offset));
    GrewShape(v, t, n - 1, r.v, r.ino);
    hide Own, Grew, OthersKept, Touch;
  }

  lemma EmptyWriteInside(v: Vol, n: int, offset: nat)
    requires Owned(v) && InoValid(v, n) && 0 < offset < TWO32 && DirectBound(v.inodes[n - 1])
    ensures DirectBound(GetInode(WriteEmpty(v, n, offset), n))
  {
    hide Own, WriteEmpty, Touch, GetInode, WF;
    WriteEmptyIs(v, n, offset);
    var w := GetInode(WriteEmpty(v, n, offset), n);
    forall i | 0 <= i < 6 && w.direct[i] != 0 ensures i < CeilDiv(w.size, 512) {
      if !(offset / 512 <= i <= LastBlock(offset)) {
        TouchDirect(v, v.inodes, n - 1, offset / 512, LastBlock(offset), i);
      }
    }
  }

  /**
   * A zero-byte write leaves no direct pointer beyond the size if and only if the offset is not 0, or the size covers
   * all direct blocks, or the free blocks all go into the direct slots that are missing within the size.
   */
  lemma EmptyWriteBoundedIff(v: Vol, n: int, offset: nat)
    requires Owned(v) && InoValid(v, n) && offset < TWO32 && DirectBound(v.inodes[n - 1])
    ensures var a := v.inodes[n - 1]; var c := CeilDiv(a.size, 512);
            DirectBound(GetInode(WriteEmpty(v, n, offset), n))
            <==> offset > 0 || c >= 6 || FreeCount(v.used) <= Holes(a, 0, c)
  {
    hide DirectBound, Own, WriteEmpty, FreeCount, Holes, GetInode, WF;
    if offset > 0 {
      EmptyWriteInside(v, n, offset);
    } else {
      EmptyWriteAtZero(v, n);
    }
  }

  lemma EmptyWriteAtZero(v: Vol, n: int)
    requires Owned(v) && InoValid(v, n) && DirectBound(v.inodes[n - 1])
    ensures var a := v.inodes[n - 1]; var c := CeilDiv(a.size, 512);
            DirectBound(GetInode(WriteEmpty(v, n, 0), n)) <==> c >= 6 || FreeCount(v.used) <= Holes(a, 0, c)
  {
    hide Own, WriteEmpty, Touch, DirectBound, GetInode, WF, FreeCount, Holes;
    WriteEmptyIs(v, n, 0);
    var a := v.inodes[n - 1];
    var w := GetInode(WriteEmpty(v, n, 0), n);
    var c := CeilDiv(a.size, 512);
    if c >= 6 {
      Covered(w);
    } else {
      BoundFree(a, c);
      TouchReaches(v, v.inodes, n - 1, 0, LastBlock(0), c);
      if FreeCount(v.used) > Holes(a, 0, c) { Exceeded(w, c); } else { SameBound(a, w, c); }
    }
  }

  lemma Covered(ino: Inode)
    requires CeilDiv(ino.size, 512) >= 6
    ensures DirectBound(ino)
  {
  }

  lemma BoundFree(a: Inode, c: nat)
    requires DirectBound(a) && c == CeilDiv(a.size, 512) < 6
    ensures a.direct[c] == 0
  {
  }

  lemma SameBound(a: Inode, b: Inode, c: nat)
    requires DirectBound(a) && b.size == a.size && c == CeilDiv(a.size, 512) && forall i :: c <= i < 6
                                                                                  ==> b.direct[i] == a.direct[i]
    ensures DirectBound(b)
  {
  }

  lemma Exceeded(ino: Inode, c: nat)
    requires c < 6 && c == CeilDiv(ino.size, 512) && ino.direct[c] != 0
    ensures !DirectBound(ino)
  {
  }
}
