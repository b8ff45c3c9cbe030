/** Inode slots: taking one, giving one back, and the file operations that read and write it. */
module Inodes {
  import opened Bytes
  import opened Volume
  import opened BlockMap
  import opened FileData

  predicate InoValid(v: Vol, n: int) { 1 <= n <= |v.inodes| }

  function GetInode(v: Vol, n: int): Inode {
    if InoValid(v, n) then v.inodes[n - 1] else ZERO_INODE
  }

  function PutInode(v: Vol, n: int, ino: Inode): (w: Vol)
    ensures SameFrame(v, w) && (WF(v) ==> WF(w))
  {
    if InoValid(v, n) then v.(inodes := v.inodes[n - 1 := ino]) else v
  }

  /** The volume-wide ownership invariant: it speaks of all inode slots, free ones too. */
  ghost predicate Owned(v: Vol) { WF(v) && Own(v, v.inodes) }

  /** No direct pointer lies beyond the size of its inode. */
  predicate DirectBound(ino: Inode) {
    forall i :: 0 <= i < 6 && ino.direct[i] != 0 ==> i < CeilDiv(ino.size, 512)
  }

  ghost predicate Bounded(v: Vol) { forall n :: 0 <= n < |v.inodes| ==> DirectBound(v.inodes[n]) }

  /** Pointers depend on the data blocks and on the inode's pointer fields only. */
  lemma PtrFields(v: Vol, w: Vol, a: Inode, b: Inode, k: Key)
    requires v.base == w.base && v.data == w.data
    requires a.direct == b.direct && a.indirect == b.indirect && a.dbl == b.dbl
    ensures P(w, b, k) == P(v, a, k)
  {
  }

  /** Dropping pointers keeps ownership. */
  lemma OwnShrink(v: Vol, t: seq<Inode>, w: Vol, u: seq<Inode>)
    requires WF(v) && WF(w) && Own(v, t) && |u| == |t|
    requires forall n, k :: 0 <= n < |t| && P(w, u[n], k) != 0
               ==> P(w, u[n], k) == P(v, t[n], k) && Used(w, P(w, u[n], k))
    ensures Own(w, u)
  {
  }

  predicate SamePtrFields(a: Inode, b: Inode) {
    a.direct == b.direct && a.indirect == b.indirect && a.dbl == b.dbl
  }

  /** Ownership does not look at sizes, modes or the stored table. */
  lemma OwnFields(v: Vol, t: seq<Inode>, w: Vol, u: seq<Inode>)
    requires WF(v) && WF(w) && Own(v, t) && |u| == |t|
    requires v.base == w.base && v.data == w.data && v.used == w.used
    requires forall n :: 0 <= n < |t| ==> SamePtrFields(t[n], u[n])
    ensures Own(w, u)
  {
    forall n, k | 0 <= n < |t| ensures P(w, u[n], k) == P(v, t[n], k) {
      PtrFields(v, w, t[n], u[n], k);
    }
    assert forall p :: Used(w, p) <==> Used(v, p);
  }

  // ---------------------------------------------------------------------
  // Taking an inode

  function AllocInode(v: Vol): (r: Alloc)
    requires WF(v)
    ensures WF(r.v) && SameFrame(v, r.v)
  {
    var i := FirstFree(v.inoUsed, 0);
    if i == |v.inoUsed| then Alloc(v, -1)
    else Alloc(v.(inoUsed := v.inoUsed[i := true], inodes := v.inodes[i := ZERO_INODE]), i + 1)
  }

  lemma AllocInodeOwned(v: Vol)
    requires Owned(v)
    ensures Owned(AllocInode(v).v)
    ensures Bounded(v) ==> Bounded(AllocInode(v).v)
  {
    var w := AllocInode(v).v;
    forall n, k | 0 <= n < |v.inodes| && P(w, w.inodes[n], k) != 0
      ensures P(w, w.inodes[n], k) == P(v, v.inodes[n], k) && Used(w, P(w, w.inodes[n], k))
    {
      PtrFields(v, w, w.inodes[n], w.inodes[n], k);
      if w.inodes[n] == ZERO_INODE {
        assert false by { ZeroInodeEmpty(w, k); }
      }
    }
    OwnShrink(v, v.inodes, w, w.inodes);
  }

  lemma ZeroInodeEmpty(v: Vol, k: Key)
    ensures P(v, ZERO_INODE, k) == 0
  {
  }

  // ---------------------------------------------------------------------
  // Giving an inode back

  /** All blocks an inode points to are in use. */
  ghost predicate InUse(v: Vol, ino: Inode)
    requires WF(v)
  {
    forall k :: P(v, ino, k) != 0 ==> Used(v, P(v, ino, k))
  }

  /** The 128 pointers of a pointer block. */
  function Ptrs(b: Block): (s: seq<Word>)
    ensures |s| == 128 && forall j :: 0 <= j < 128 ==> s[j] == PtrAt(b, j)
  {
    seq(128, j requires 0 <= j < 128 => PtrAt(b, j))
  }

  /** Clears, one after the other, the bits of the nonzero pointers in ps. */
  function ClearBits(used: seq<bool>, base: nat, ps: seq<Word>): (r: seq<bool>)
    ensures |r| == |used|
  {
    if ps == [] then used
    else
      var r := ClearBits(used, base, ps[..|ps| - 1]);
      var p := ps[|ps| - 1];
      if p != 0 && base <= p < base + |used| then r[p - base := false] else r
  }

  lemma ClearBitsStep(used: seq<bool>, base: nat, ps: seq<Word>, p: Word)
    ensures var r := ClearBits(used, base, ps);
            ClearBits(used, base, ps + [p]) == if p != 0 && base <= p < base + |used| then r[p - base := false] else r
  {
    assert (ps + [p])[..|ps|] == ps;
  }

  lemma {:induction false} ClearBitsIs(used: seq<bool>, base: nat, ps: seq<Word>, i: nat)
    requires i < |used| && base > 0
    ensures ClearBits(used, base, ps)[i] <==> used[i] && base + i !in ps
  {
    if ps != [] {
      ClearBitsIs(used, base, ps[..|ps| - 1], i);
      assert ps == ps[..|ps| - 1] + [ps[|ps| - 1]];
    }
  }

  /** How many direct pointers free_inode looks at. */
  function FreedDirects(ino: Inode): nat { Min(6, CeilDiv(ino.size, 512)) }

  function FreedPtrs(v: Vol, ino: Inode): seq<Word> {
    ino.direct[..FreedDirects(ino)] + if ino.indirect == 0 then [] else Ptrs(Blk(v, ino.indirect)) + [ino.indirect]
  }

  function FreedInode(ino: Inode): Inode {
    ino.(direct := Zeros6(FreedDirects(ino)) + ino.direct[FreedDirects(ino)..], indirect := 0)
  }

  /** One more direct pointer cleared. */
  lemma DirectStep(d: seq<Word>, i: nat)
    requires i < |d|
    ensures d[..i + 1] == d[..i] + [d[i]]
    ensures (Zeros6(i) + d[i..])[i] == d[i]
    ensures Zeros6(i + 1) + d[i + 1..] == (Zeros6(i) + d[i..])[i := 0]
  {
  }

  lemma DirectStart(d: seq<Word>)
    ensures d[..0] == [] && Zeros6(0) + d[0..] == d
  {
  }

  function Zeros6(n: nat): (s: seq<Word>)
    ensures |s| == n && forall i :: 0 <= i < n ==> s[i] == 0
  {
    seq(n, _ => 0)
  }

  function FreeInode(v: Vol, n: int): (w: Vol)
    requires WF(v)
    ensures WF(w) && SameFrame(v, w)
  {
    if !InoValid(v, n) then v
    else
      var ino := v.inodes[n - 1];
      v.(used := ClearBits(v.used, v.base, FreedPtrs(v, ino)),
         inoUsed := v.inoUsed[n - 1 := false],
         inodes := v.inodes[n - 1 := FreedInode(ino)])
  }

  /** The keys of the double-indirect tree. */
  predicate DblKey(k: Key) { k.Dbl? || k.DblSlot? || k.Leaf? }

  /** The keys free_inode gives back: all but the double-indirect tree. */
  predicate FreedKey(ino: Inode, k: Key) {
    k.Ind? || k.IndSlot? || (k.Direct? && k.i < FreedDirects(ino))
  }

  lemma FreedPtrsAre(v: Vol, ino: Inode, p: Word)
    requires p != 0
    ensures p in FreedPtrs(v, ino) <==> exists k :: FreedKey(ino, k) && P(v, ino, k) == p
  {
    var d := ino.direct[..FreedDirects(ino)];
    if p in FreedPtrs(v, ino) {
      if p in d {
        var i :| 0 <= i < |d| && d[i] == p;
        assert FreedKey(ino, Direct(i)) && P(v, ino, Direct(i)) == p;
      } else if p == ino.indirect {
        assert FreedKey(ino, Ind) && P(v, ino, Ind) == p;
      } else {
        var s := Ptrs(Blk(v, ino.indirect));
        var j :| 0 <= j < |s| && s[j] == p;
        assert FreedKey(ino, IndSlot(j)) && P(v, ino, IndSlot(j)) == p;
      }
    }
    if k :| FreedKey(ino, k) && P(v, ino, k) == p {
      match k
      case Direct(i) => assert d[i] == p;
      case Ind =>
      case IndSlot(i) => assert Ptrs(Blk(v, ino.indirect))[i] == p;
    }
  }

  lemma FreeUsed(v: Vol, n: int, p: int)
    requires WF(v) && InoValid(v, n)
    ensures var ino := v.inodes[n - 1];
            Used(FreeInode(v, n), p) <==> Used(v, p) && !exists k :: FreedKey(ino, k) && P(v, ino, k) == p
  {
    if InData(v, p) {
      ClearBitsIs(v.used, v.base, FreedPtrs(v, v.inodes[n - 1]), p - v.base);
      FreedPtrsAre(v, v.inodes[n - 1], p);
    }
  }

  lemma FreePtr(v: Vol, n: int, m: nat, k: Key)
    requires WF(v) && InoValid(v, n) && m < |v.inodes|
    ensures var w := FreeInode(v, n);
            P(w, w.inodes[m], k) == if m == n - 1 && FreedKey(v.inodes[m], k) then 0 else P(v, v.inodes[m], k)
  {
    var w := FreeInode(v, n);
    if m != n - 1 {
      PtrFields(v, w, v.inodes[m], v.inodes[m], k);
    }
  }

  /** free_inode keeps ownership: what it clears no other inode names. */
  lemma FreeInodeOwned(v: Vol, n: int)
    requires Owned(v)
    ensures Owned(FreeInode(v, n))
    ensures Bounded(v) ==> Bounded(FreeInode(v, n))
  {
    var w := FreeInode(v, n);
    if InoValid(v, n) {
      forall m, k | 0 <= m < |v.inodes| && P(w, w.inodes[m], k) != 0
        ensures P(w, w.inodes[m], k) == P(v, v.inodes[m], k) && Used(w, P(w, w.inodes[m], k))
      {
        FreePtr(v, n, m, k);
        FreeUsed(v, n, P(v, v.inodes[m], k));
      }
      OwnShrink(v, v.inodes, w, w.inodes);
    }
  }

  /**
   * Conservation: with no direct pointer beyond the size, free_inode clears exactly the bits of the blocks
   * the inode owned outside its double-indirect tree.
   */
  lemma FreeExact(v: Vol, n: int, p: int)
    requires Owned(v) && InoValid(v, n) && DirectBound(v.inodes[n - 1]) && p != 0
    ensures var ino := v.inodes[n - 1];
            Used(FreeInode(v, n), p) <==> Used(v, p) && !exists k :: !DblKey(k) && P(v, ino, k) == p
  {
    var ino := v.inodes[n - 1];
    FreeUsed(v, n, p);
    forall k | !DblKey(k) && P(v, ino, k) == p ensures FreedKey(ino, k) {
    }
  }

  ghost predicate AllReturned(v: Vol, ino: Inode, w: Vol)
    requires WF(w)
  {
    forall k :: P(v, ino, k) != 0 ==> !Used(w, P(v, ino, k))
  }

  /** All of an inode's blocks come back if and only if it had no double-indirect tree. */
  lemma FreeCompleteIff(v: Vol, n: int)
    requires Owned(v) && InoValid(v, n) && DirectBound(v.inodes[n - 1])
    ensures AllReturned(v, v.inodes[n - 1], FreeInode(v, n)) <==> v.inodes[n - 1].dbl == 0
  {
    var ino := v.inodes[n - 1];
    if ino.dbl == 0 {
      forall k | P(v, ino, k) != 0 ensures !Used(FreeInode(v, n), P(v, ino, k)) {
        FreeExact(v, n, P(v, ino, k));
      }
    } else {
      assert P(v, ino, Dbl) == ino.dbl;
      FreeUsed(v, n, ino.dbl);
      if k :| FreedKey(ino, k) && P(v, ino, k) == ino.dbl {
        assert false;
      }
    }
  }

  /**
   * What free_inode leaves: the bit of the inode is clear, no block and no other inode changes, and the slot keeps its
   * mode, size and links, and the pointer to its double-indirect tree.
   */
  lemma FreeLeaves(v: Vol, n: int, m: int)
    requires WF(v) && InoValid(v, n)
    ensures var w := FreeInode(v, n); var a, b := v.inodes[n - 1], w.inodes[n - 1];
            && SameAttrs(a, b) && b.dbl == a.dbl && b.indirect == 0
            && (forall i :: 0 <= i < 6 ==> b.direct[i] == if 512 * i < a.size then 0 else a.direct[i])
            && w.data == v.data && w.inoUsed == v.inoUsed[n - 1 := false]
            && (InoValid(v, m) && m != n ==> GetInode(w, m) == GetInode(v, m))
  {
    var a := v.inodes[n - 1];
    var k := FreedDirects(a);
    forall i | 0 <= i < 6 ensures FreedInode(a).direct[i] == if 512 * i < a.size then 0 else a.direct[i] {
      assert i < k <==> 512 * i < a.size;
    }
  }

  // ---------------------------------------------------------------------
  // Reading and writing a file

  datatype Written = Written(v: Vol, n: nat)

  /** What the write call does to the volume, for size > 0; the size grows even when nothing could be written. */
  function WriteFile(v: Vol, n: int, offset: nat, buf: seq<Byte>): (r: Written)
    requires WF(v) && offset + |buf| < TWO32
    ensures WF(r.v) && SameFrame(v, r.v) && r.n <= |buf|
  {
    var ino := GetInode(v, n);
    var r := WriteFrom(v, ino, offset, buf);
    Written(PutInode(r.v, n, r.ino.(size := Max(ino.size, offset + r.n))), r.n)
  }

  function ReadFile(v: Vol, n: int, offset: nat, size: nat): (r: seq<Byte>)
    requires WF(v)
    ensures |r| <= size
  {
    var ino := GetInode(v, n);
    if offset >= ino.size then [] else ReadFrom(v, ino, offset, Min(size, ino.size - offset))
  }

  /** ByteAt depends on the pointer fields and the data blocks only. */
  lemma ByteFields(v: Vol, w: Vol, a: Inode, b: Inode, o: nat)
    requires v.base == w.base && v.data == w.data
    requires a.direct == b.direct && a.indirect == b.indirect && a.dbl == b.dbl
    ensures ByteAt(w, b, o) == ByteAt(v, a, o)
  {
    if o / 512 < MAP_LIMIT { PtrFields(v, w, a, b, LeafOf(o / 512)); }
  }

  /** The cell at position o of file n. */
  function FileByte(v: Vol, n: int, o: nat): Cell { ByteAt(v, GetInode(v, n), o) }

  /** The volume a file write leaves, told apart from the loop that made it. */
  lemma WriteFileIs(v: Vol, n: int, offset: nat, buf: seq<Byte>)
    requires Owned(v) && InoValid(v, n) && offset + |buf| < TWO32
    ensures var r := WriteFrom(v, v.inodes[n - 1], offset, buf); var w := WriteFile(v, n, offset, buf);
            && SameShape(v, r.v) && SameAttrs(v.inodes[n - 1], r.ino)
            && w == Written(r.v.(inodes := v.inodes[n - 1 := r.ino.(size := Max(v.inodes[n - 1].size, offset + r.n))]),
               r.n)
  {
    hide WriteFrom, Grew, Own, OthersKept;
    var r := WriteFrom(v, v.inodes[n - 1], offset, buf);
    WriteKeeps(v, v.inodes, n - 1, offset, buf);
    GrewShape(v, v.inodes, n - 1, r.v, r.ino);
  }

  /** A write keeps ownership, and the table differs from the old one in slot n only. */
  lemma WriteFileOwned(v: Vol, n: int, offset: nat, buf: seq<Byte>)
    requires Owned(v) && InoValid(v, n) && offset + |buf| < TWO32
    ensures var w := WriteFile(v, n, offset, buf).v;
            && Owned(w) && w.base == v.base && w.super == v.super && w.inoUsed == v.inoUsed && |w.inodes| == |v.inodes|
            && (forall m :: 0 <= m < |v.inodes| && m != n - 1 ==> w.inodes[m] == v.inodes[m])
            && GetInode(w, n).mode == GetInode(v, n).mode
  {
    hide WriteFrom, WriteFile, Grew, Own, OthersKept;
    var r := WriteFrom(v, v.inodes[n - 1], offset, buf);
    var w := WriteFile(v, n, offset, buf).v;
    WriteKeeps(v, v.inodes, n - 1, offset, buf);
    WriteFileIs(v, n, offset, buf);
    OwnFields(r.v, v.inodes[n - 1 := r.ino], w, w.inodes);
  }

  lemma GrewShape(v: Vol, t: seq<Inode>, n: nat, w: Vol, ino: Inode)
    requires n < |t| && Grew(v, t, n, w, ino)
    ensures SameShape(v, w) && SameAttrs(t[n], ino)
  {
  }

  /**
   * Writing a file is an update of its byte sequence; the size becomes the larger of the old size and the
   * end of what was written.
   */
  lemma WriteFileBytes(v: Vol, n: int, offset: nat, buf: seq<Byte>, o: nat)
    requires Owned(v) && InoValid(v, n) && offset + |buf| < TWO32
    ensures var r := WriteFile(v, n, offset, buf);
            && FileByte(r.v, n, o) == AfterWrite(FileByte(v, n, o), o, offset, buf[..r.n])
            && GetInode(r.v, n).size == Max(GetInode(v, n).size, offset + r.n)
  {
    hide WriteFrom, WriteFile, ByteAt, Own;
    var r := WriteFrom(v, v.inodes[n - 1], offset, buf);
    var w := WriteFile(v, n, offset, buf).v;
    WriteFileIs(v, n, offset, buf);
    WriteBytes(v, v.inodes, n - 1, offset, buf, o);
    ByteFields(r.v, w, r.ino, w.inodes[n - 1], o);
  }

  lemma FieldsUndisturbed(v: Vol, w: Vol, a: Inode)
    requires v.base == w.base && v.data == w.data
    ensures Undisturbed(v, w, a)
  {
    forall k ensures P(w, a, k) == P(v, a, k) { PtrFields(v, w, a, a, k); }
  }

  /** Isolation: a write to inode n leaves slot, block map and blocks of every other inode as they were. */
  lemma WriteFileIsolated(v: Vol, n: int, offset: nat, buf: seq<Byte>, m: int)
    requires Owned(v) && InoValid(v, n) && InoValid(v, m) && m != n && offset + |buf| < TWO32
    ensures var w := WriteFile(v, n, offset, buf).v;
            GetInode(w, m) == GetInode(v, m) && Undisturbed(v, w, GetInode(v, m))
  {
    hide WriteFrom, WriteFile, Undisturbed, Grew, OthersKept, Own;
    var t := v.inodes;
    var r := WriteFrom(v, t[n - 1], offset, buf);
    var w := WriteFile(v, n, offset, buf).v;
    WriteKeeps(v, t, n - 1, offset, buf);
    WriteFileIs(v, n, offset, buf);
    GrewUndisturbed(v, t, n - 1, r.v, r.ino, m - 1);
    FieldsUndisturbed(r.v, w, t[m - 1]);
    UndisturbedTrans(v, r.v, w, t[m - 1]);
  }

  /** No direct pointer beyond the size: kept by every write of at least one byte. */
  lemma WriteFileBounded(v: Vol, n: int, offset: nat, buf: seq<Byte>)
    requires Owned(v) && InoValid(v, n) && offset + |buf| < TWO32 && DirectBound(v.inodes[n - 1])
    ensures DirectBound(GetInode(WriteFile(v, n, offset, buf).v, n))
  {
    hide WriteFile, ByteAt, Own, P;
    var a, w := GetInode(v, n), WriteFile(v, n, offset, buf);
    var b := GetInode(w.v, n);
    WriteFileBytes(v, n, offset, buf, 0);
    forall i | 0 <= i < 6 && b.direct[i] != 0 ensures i < CeilDiv(b.size, 512) {
      WriteFileBytes(v, n, offset, buf, 512 * i);
      DirectCell(w.v, b, i);
      DirectCell(v, a, i);
      if a.direct[i] == 0 {
        assert i <= (offset + w.n - 1) / 512;
      }
    }
  }

  lemma DirectCell(v: Vol, ino: Inode, i: nat)
    requires i < 6
    ensures ByteAt(v, ino, 512 * i) == Hole <==> ino.direct[i] == 0
  {
    assert LeafOf(i) == Direct(i) && P(v, ino, Direct(i)) == ino.direct[i];
  }

  /**
   * What a read hands back, for every offset and buffer size: the bytes of the file from there on, none past the size,
   * and fewer than asked for only at the size or at a hole.
   */
  lemma ReadFileIs(v: Vol, n: int, offset: nat, size: nat)
    requires WF(v)
    ensures var r := ReadFile(v, n, offset, size); var s := GetInode(v, n).size;
            && |r| <= size
            && (forall i :: 0 <= i < |r| ==> FileByte(v, n, offset + i) == Val(r[i]))
            && (if offset < s then offset + |r| <= s else r == [])
            && (|r| < size ==> offset + |r| >= s || FileByte(v, n, offset + |r|) == Hole)
  {
    hide ReadFrom, ByteAt;
    var ino := GetInode(v, n);
    if offset < ino.size { ReadIsPrefix(v, ino, offset, Min(size, ino.size - offset)); }
  }

  /**
   * Reading where a write began, into a buffer of any size: first what was written, then what the file held before,
   * with zeros in the rest of a fresh block.
   */
  lemma ReadAfterWrite(v: Vol, n: int, offset: nat, buf: seq<Byte>, size: nat)
    requires Owned(v) && InoValid(v, n) && offset + |buf| < TWO32
    ensures var w := WriteFile(v, n, offset, buf); var done := buf[..w.n];
            var r := ReadFile(w.v, n, offset, size); var k := Min(size, w.n);
            && |r| >= k && r[..k] == done[..k]
            && (forall i :: k <= i < |r| ==>
                    Val(r[i]) == AfterWrite(FileByte(v, n, offset + i), offset + i, offset, done))
            && (|r| < size ==> offset + |r| >= Max(GetInode(v, n).size, offset + w.n)
                               || AfterWrite(FileByte(v, n, offset + |r|), offset + |r|, offset, done) == Hole)
  {
    hide WriteFile, ReadFile, WF, Own, FileByte;
    var w := WriteFile(v, n, offset, buf);
    var r := ReadFile(w.v, n, offset, size);
    var k := Min(size, w.n);
    ReadFileIs(w.v, n, offset, size);
    forall o: nat
      ensures FileByte(w.v, n, o) == AfterWrite(FileByte(v, n, o), o, offset, buf[..w.n])
              && GetInode(w.v, n).size == Max(GetInode(v, n).size, offset + w.n)
    {
      WriteFileBytes(v, n, offset, buf, o);
    }
    if |r| < k {
      WriteFileBytes(v, n, offset, buf, offset + |r|);
      assert false;
    }
    forall i | 0 <= i < |r|
      ensures Val(r[i]) == AfterWrite(FileByte(v, n, offset + i), offset + i, offset, buf[..w.n])
    {
      assert FileByte(w.v, n, offset + i) == Val(r[i]);
    }
  }
}
