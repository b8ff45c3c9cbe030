/** A mounted volume as a value: allocation bits, inode slots and data blocks. */
module Volume {
  import opened Bytes

  const MAP_LIMIT := 6 + 128 + 128 * 128

  datatype RawInode = Inode(mode: Word, size: Word, links: Word, direct: seq<Word>, indirect: Word, dbl: Word,
      pad: seq<Byte>)

  type Inode = i: RawInode | |i.direct| == 6 && |i.pad| == 32
    witness Inode(0, 0, 0, [0, 0, 0, 0, 0, 0], 0, 0, seq(32, _ => 0))

  const ZERO_INODE: Inode := Inode(0, 0, 0, [0, 0, 0, 0, 0, 0], 0, 0, Zeros(32))

  /** Slot i of `inodes` holds inode number i + 1; data[i] is physical block base + i. */
  datatype Vol = Vol(super: Block, base: nat, inoUsed: seq<bool>, inodes: seq<Inode>, used: seq<bool>, data: seq<Block>)

  predicate WF(v: Vol) {
    && |v.inodes| == |v.inoUsed|
    && |v.data| == |v.used|
    && 0 < v.base
    && v.base + |v.data| < 0x8000_0000
    && |v.inodes| < 0x8000_0000
  }

  /** Calls change neither the superblock nor the dimensions of the volume. */
  predicate SameFrame(v: Vol, w: Vol) {
    && w.super == v.super && w.base == v.base
    && |w.inodes| == |v.inodes| && |w.inoUsed| == |v.inoUsed| && |w.data| == |v.data| && |w.used| == |v.used|
  }

  predicate InData(v: Vol, p: int) { v.base <= p < v.base + |v.data| }

  function Blk(v: Vol, p: int): Block {
    if InData(v, p) then v.data[p - v.base] else ZERO_BLOCK
  }

  predicate Used(v: Vol, p: int)
    requires WF(v)
  {
    InData(v, p) && v.used[p - v.base]
  }

  function SetBlk(v: Vol, p: int, b: Block): (r: Vol)
    ensures SameFrame(v, r)
  {
    if InData(v, p) then v.(data := v.data[p - v.base := b]) else v
  }

  // ---------------------------------------------------------------------
  // The pointer map of an inode: one key for each place a pointer may live.

  datatype Key =
    | Direct(i: nat)
    | Ind
    | Dbl
    | IndSlot(i: nat)
    | DblSlot(i: nat)
    | Leaf(i: nat, j: nat)

  predicate ValidKey(k: Key) {
    match k
    case Direct(i) => i < 6
    case IndSlot(i) => i < 128
    case DblSlot(i) => i < 128
    case Leaf(i, j) => i < 128 && j < 128
    case _ => true
  }

  /** Keys whose pointer names a block of file bytes; the others name pointer blocks. */
  predicate DataKey(k: Key) { k.Direct? || k.IndSlot? || k.Leaf? }

  function Sub(v: Vol, q: Word, j: nat): Word {
    if q == 0 || j >= 128 then 0 else PtrAt(Blk(v, q), j)
  }

  /** The pointer an inode holds at key k; 0 when there is none. */
  function P(v: Vol, ino: Inode, k: Key): Word {
    match k
    case Direct(i) => if i < 6 then ino.direct[i] else 0
    case Ind => ino.indirect
    case Dbl => ino.dbl
    case IndSlot(i) => Sub(v, ino.indirect, i)
    case DblSlot(i) => Sub(v, ino.dbl, i)
    case Leaf(i, j) => Sub(v, Sub(v, ino.dbl, i), j)
  }

  /** The block that holds the pointer of key k (0 for the keys kept in the inode itself). */
  function ParentPtr(v: Vol, ino: Inode, k: Key): Word {
    match k
    case IndSlot(_) => ino.indirect
    case DblSlot(_) => ino.dbl
    case Leaf(i, _) => Sub(v, ino.dbl, i)
    case _ => 0
  }

  predicate RootKey(k: Key) { k.Direct? || k.Ind? || k.Dbl? }

  function SlotIndex(k: Key): nat {
    match k
    case IndSlot(i) => i
    case DblSlot(i) => i
    case Leaf(_, j) => j
    case _ => 0
  }

  /** Every pointer of every inode in t names a block of the data area whose bit is set, and no block twice. */
  ghost predicate Own(v: Vol, t: seq<Inode>)
    requires WF(v)
  {
    && (forall n, k :: 0 <= n < |t| && P(v, t[n], k) != 0 ==> Used(v, P(v, t[n], k)))
    && (forall n, k, m, j :: 0 <= n < |t| && 0 <= m < |t| && P(v, t[n], k) != 0 && P(v, t[n], k) == P(v, t[m], j)
          ==> n == m && k == j)
  }

  // ---------------------------------------------------------------------
  // Allocation

  /** The least index at or after i whose flag is clear, or |s|. */
  function FirstFree(s: seq<bool>, i: nat): (r: nat)
    requires i <= |s|
    ensures i <= r <= |s|
    ensures forall j :: i <= j < r ==> s[j]
    ensures r < |s| ==> !s[r]
    decreases |s| - i
  {
    if i == |s| || !s[i] then i else FirstFree(s, i + 1)
  }

  predicate Full(v: Vol) { FirstFree(v.used, 0) == |v.used| }

  datatype Got = Got(v: Vol, ino: Inode, phys: int)

  datatype Alloc = Alloc(v: Vol, phys: int)

  /** Takes the least free block and clears it. */
  function AllocBlock(v: Vol): (r: Alloc)
    requires WF(v)
    ensures WF(r.v) && SameFrame(v, r.v)
  {
    var i := FirstFree(v.used, 0);
    if i == |v.used| then Alloc(v, -1)
    else Alloc(v.(used := v.used[i := true], data := v.data[i := ZERO_BLOCK]), v.base + i)
  }

  /** Stores pointer p at key k: in the inode, or in the pointer block q that holds k. */
  function SetPtr(v: Vol, ino: Inode, k: Key, q: Word, p: Word): (g: Got)
    requires WF(v) && ValidKey(k)
    requires RootKey(k) || InData(v, q)
    ensures WF(g.v) && SameFrame(v, g.v)
  {
    match k
    case Direct(i) => Got(v, ino.(direct := ino.direct[i := p]), p)
    case Ind => Got(v, ino.(indirect := p), p)
    case Dbl => Got(v, ino.(dbl := p), p)
    case _ => Got(SetBlk(v, q, PutPtr(Blk(v, q), SlotIndex(k), p)), ino, p)
  }

  predicate CanGrow(v: Vol, ino: Inode, k: Key)
    requires WF(v)
  {
    ValidKey(k) && (RootKey(k) || Used(v, ParentPtr(v, ino, k)))
  }

  /** Allocates a block and hangs it at key k. */
  function Grow(v: Vol, ino: Inode, k: Key): (g: Got)
    requires WF(v) && CanGrow(v, ino, k)
    ensures WF(g.v) && SameFrame(v, g.v)
  {
    var a := AllocBlock(v);
    if a.phys < 0 then Got(v, ino, -1) else SetPtr(a.v, ino, k, ParentPtr(v, ino, k), a.phys)
  }

  /**
   * What an allocation takes: the least block whose bit is clear, which is then set and the block zero, and nothing
   * else; -1 and no change if and only if every bit is set.
   */
  lemma AllocTakes(v: Vol, p: int)
    requires WF(v)
    ensures var a := AllocBlock(v);
            && (a.phys < 0 <==> forall i :: 0 <= i < |v.used| ==> v.used[i])
            && (a.phys < 0 ==> a == Alloc(v, -1))
            && (a.phys >= 0 ==>
                  && InData(v, a.phys) && !Used(v, a.phys) && (forall q :: v.base <= q < a.phys ==> Used(v, q))
                  && (Used(a.v, p) <==> Used(v, p) || p == a.phys)
                  && Blk(a.v, p) == (if p == a.phys then ZERO_BLOCK else Blk(v, p))
                  && a.v.inodes == v.inodes && a.v.inoUsed == v.inoUsed)
  {
    var i := FirstFree(v.used, 0);
    if i < |v.used| { assert !v.used[i]; }
  }

  // ---------------------------------------------------------------------
  // Counting free blocks

  function FreeCount(used: seq<bool>): (n: nat)
    ensures n <= |used|
  {
    if used == [] then 0 else FreeCount(used[..|used| - 1]) + if used[|used| - 1] then 0 else 1
  }

  lemma {:induction false} CountSet(used: seq<bool>, i: nat)
    requires i < |used| && !used[i]
    ensures FreeCount(used[i := true]) == FreeCount(used) - 1
    decreases |used|
  {
    var n := |used| - 1;
    if i == n {
      assert used[i := true][..n] == used[..n];
    } else {
      CountSet(used[..n], i);
      assert used[i := true][..n] == used[..n][i := true];
    }
  }

  lemma {:induction false} CountFull(used: seq<bool>)
    requires forall i :: 0 <= i < |used| ==> used[i]
    ensures FreeCount(used) == 0
    decreases |used|
  {
    if used != [] { CountFull(used[..|used| - 1]); }
  }

  lemma GrowCount(v: Vol, ino: Inode, k: Key)
    requires WF(v) && CanGrow(v, ino, k)
    ensures var g := Grow(v, ino, k);
            if g.phys < 0 then FreeCount(v.used) == 0 && g.v == v else FreeCount(g.v.used) == FreeCount(v.used) - 1
  {
    var i := FirstFree(v.used, 0);
    if i == |v.used| { CountFull(v.used); } else { CountSet(v.used, i); }
  }

  lemma {:induction false} CountUnset(used: seq<bool>, i: nat)
    requires i < |used|
    ensures FreeCount(used[i := false]) >= FreeCount(used)
    decreases |used|
  {
    var n := |used| - 1;
    if i == n {
      assert used[i := false][..n] == used[..n];
    } else {
      CountUnset(used[..n], i);
      assert used[i := false][..n] == used[..n][i := false];
    }
  }
}
