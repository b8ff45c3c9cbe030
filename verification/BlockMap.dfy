/** The three-tier block map: growing it one pointer at a time keeps every other pointer where it was. */
module BlockMap {
  import opened Bytes
  import opened Volume

  /** The bytes and bits Grow touches: the fresh block, its bit, and one pointer in the parent block. */
  lemma GrowBlocks(v: Vol, ino: Inode, k: Key)
    requires WF(v) && CanGrow(v, ino, k) && !Full(v)
    ensures var g := Grow(v, ino, k); var q := ParentPtr(v, ino, k);
            && g.phys > 0 && !Used(v, g.phys) && InData(v, g.phys)
            && (RootKey(k) || q != g.phys)
            && Blk(g.v, g.phys) == ZERO_BLOCK
            && (!RootKey(k) ==> Blk(g.v, q) == PutPtr(Blk(v, q), SlotIndex(k), g.phys))
            && (forall p :: p != g.phys && (RootKey(k) || p != q) ==> Blk(g.v, p) == Blk(v, p))
            && (forall p :: Used(g.v, p) <==> Used(v, p) || p == g.phys)
            && g.v.inodes == v.inodes && g.v.inoUsed == v.inoUsed && g.v.base == v.base && g.v.super == v.super
            && |g.v.data| == |v.data|
  {
  }

  /** Pointers of another inode are unchanged by a growth step. */
  lemma GrowOther(v: Vol, t: seq<Inode>, n: nat, k: Key, m: nat, j: Key)
    requires WF(v) && Own(v, t) && n < |t| && m < |t| && m != n
    requires CanGrow(v, t[n], k) && !Full(v)
    ensures P(Grow(v, t[n], k).v, t[m], j) == P(v, t[m], j)
  {
    var g := Grow(v, t[n], k);
    var q := ParentPtr(v, t[n], k);
    GrowBlocks(v, t[n], k);
    assert P(v, t[m], Ind) == t[m].indirect;
    assert P(v, t[m], Dbl) == t[m].dbl;
    assert RootKey(k) || P(v, t[n], ParentKey(k)) == q;
    if j.Leaf? {
      assert P(v, t[m], DblSlot(j.i)) == Sub(v, t[m].dbl, j.i);
    }
  }

  function ParentKey(k: Key): Key {
    match k
    case IndSlot(_) => Ind
    case DblSlot(_) => Dbl
    case Leaf(i, _) => DblSlot(i)
    case _ => k
  }

  /** Within its own inode a growth step sets exactly one pointer. */
  lemma GrowSelf(v: Vol, t: seq<Inode>, n: nat, k: Key, j: Key)
    requires WF(v) && Own(v, t) && n < |t|
    requires CanGrow(v, t[n], k) && !Full(v) && P(v, t[n], k) == 0
    ensures var g := Grow(v, t[n], k);
            P(g.v, g.ino, j) == if j == k then g.phys else P(v, t[n], j)
  {
    GrowBlocks(v, t[n], k);
    if RootKey(k) {
      GrowSelfRoot(v, t, n, k, j);
    } else {
      GrowSelfSlot(v, t, n, k, j);
    }
  }

  lemma GrowSelfRoot(v: Vol, t: seq<Inode>, n: nat, k: Key, j: Key)
    requires WF(v) && Own(v, t) && n < |t| && RootKey(k)
    requires CanGrow(v, t[n], k) && !Full(v) && P(v, t[n], k) == 0
    ensures var g := Grow(v, t[n], k);
            P(g.v, g.ino, j) == if j == k then g.phys else P(v, t[n], j)
  {
    var ino := t[n];
    GrowBlocks(v, ino, k);
    assert P(v, ino, Ind) == ino.indirect && P(v, ino, Dbl) == ino.dbl;
    if j.Leaf? || j.DblSlot? {
      assert P(v, ino, DblSlot(j.i)) == Sub(v, ino.dbl, j.i);
      if j.i < 128 { PtrAtZero(j.i); }
    }
    if ValidKey(j) && !RootKey(j) {
      PtrAtZero(SlotIndex(j));
    }
  }

  lemma GrowSelfSlot(v: Vol, t: seq<Inode>, n: nat, k: Key, j: Key)
    requires WF(v) && Own(v, t) && n < |t| && !RootKey(k)
    requires CanGrow(v, t[n], k) && !Full(v) && P(v, t[n], k) == 0
    ensures var g := Grow(v, t[n], k);
            P(g.v, g.ino, j) == if j == k then g.phys else P(v, t[n], j)
  {
    hide Grow, Blk, PutPtr, PtrAt;
    var ino := t[n];
    var g := Grow(v, ino, k);
    var q := ParentPtr(v, ino, k);
    GrowBlocks(v, ino, k);
    assert g.ino == ino by { assert Grow(v, ino, k).ino == ino by { GrowSlotInode(v, ino, k); } }
    assert P(v, ino, Ind) == ino.indirect && P(v, ino, Dbl) == ino.dbl && P(v, ino, ParentKey(k)) == q;
    if j.Leaf? {
      assert P(v, ino, DblSlot(j.i)) == Sub(v, ino.dbl, j.i);
    }
    if ValidKey(j) {
      PtrAtPut(Blk(v, q), SlotIndex(k), g.phys, SlotIndex(j));
      if !RootKey(j) { PtrAtZero(SlotIndex(j)); }
      if j.Leaf? && k.DblSlot? {
        PtrAtPut(Blk(v, q), k.i, g.phys, j.i);
      }
    }
  }

  lemma GrowSlotInode(v: Vol, ino: Inode, k: Key)
    requires WF(v) && CanGrow(v, ino, k) && !RootKey(k)
    ensures Grow(v, ino, k).ino == ino
  {
  }

  // ---------------------------------------------------------------------
  // What any number of growth steps on inode n keeps.

  ghost predicate SameShape(v: Vol, w: Vol) {
    && WF(v) && WF(w)
    && w.base == v.base && w.super == v.super && |w.data| == |v.data|
    && w.inodes == v.inodes && w.inoUsed == v.inoUsed
  }

  predicate SameAttrs(a: Inode, b: Inode) {
    a.mode == b.mode && a.size == b.size && a.links == b.links && a.pad == b.pad
  }

  ghost predicate Holds(v: Vol, ino: Inode, p: int) { exists k :: P(v, ino, k) == p }

  /** From v to w the pointers of t[n] only grew (into ino), by blocks that were free, and nothing leaked. */
  ghost predicate Grew(v: Vol, t: seq<Inode>, n: nat, w: Vol, ino: Inode)
    requires n < |t|
  {
    && SameShape(v, w) && SameAttrs(t[n], ino)
    && (forall k :: P(v, t[n], k) != 0 ==> P(w, ino, k) == P(v, t[n], k))
    && (forall k :: P(v, t[n], k) == 0 && P(w, ino, k) != 0 ==> !Used(v, P(w, ino, k)))
    && (forall m, k :: 0 <= m < |t| && m != n ==> P(w, t[m], k) == P(v, t[m], k))
    && (forall p :: Used(v, p) ==> Used(w, p))
    && (forall p :: Used(w, p) && !Used(v, p) ==> Holds(w, ino, p))
  }

  /** Blocks of file bytes keep their bytes, and the ones that are new are all zero. */
  ghost predicate DataKept(v: Vol, t: seq<Inode>, n: nat, w: Vol, ino: Inode)
    requires n < |t|
  {
    && (forall m, k :: 0 <= m < |t| && DataKey(k) && P(v, t[m], k) != 0
          ==> Blk(w, P(v, t[m], k)) == Blk(v, P(v, t[m], k)))
    && (forall k :: DataKey(k) && P(v, t[n], k) == 0 && P(w, ino, k) != 0 ==> Blk(w, P(w, ino, k)) == ZERO_BLOCK)
  }

  lemma GrowGrew(v: Vol, t: seq<Inode>, n: nat, k: Key)
    requires WF(v) && Own(v, t) && n < |t|
    requires CanGrow(v, t[n], k) && !Full(v) && P(v, t[n], k) == 0
    ensures var g := Grow(v, t[n], k);
            Grew(v, t, n, g.v, g.ino) && DataKept(v, t, n, g.v, g.ino) && P(g.v, g.ino, k) == g.phys
  {
    hide P, Sub, Blk, Grow, Own;
    var g := Grow(v, t[n], k);
    GrowBlocks(v, t[n], k);
    GrowAttrs(v, t[n], k);
    forall j ensures P(g.v, g.ino, j) == if j == k then g.phys else P(v, t[n], j) {
      GrowSelf(v, t, n, k, j);
    }
    forall m, j | 0 <= m < |t| && m != n ensures P(g.v, t[m], j) == P(v, t[m], j) {
      GrowOther(v, t, n, k, m, j);
    }
    GrowKeepsData(v, t, n, k);
  }

  lemma GrowAttrs(v: Vol, ino: Inode, k: Key)
    requires WF(v) && CanGrow(v, ino, k)
    ensures SameAttrs(ino, Grow(v, ino, k).ino)
  {
  }

  lemma GrowKeepsData(v: Vol, t: seq<Inode>, n: nat, k: Key)
    requires WF(v) && Own(v, t) && n < |t| && CanGrow(v, t[n], k) && !Full(v)
    ensures var g := Grow(v, t[n], k);
            forall m, j :: 0 <= m < |t| && DataKey(j) && P(v, t[m], j) != 0
                ==> Blk(g.v, P(v, t[m], j)) == Blk(v, P(v, t[m], j))
  {
    GrowBlocks(v, t[n], k);
    assert RootKey(k) || P(v, t[n], ParentKey(k)) == ParentPtr(v, t[n], k);
    hide P, Blk, Grow;
  }

  lemma GrowOwn(v: Vol, t: seq<Inode>, n: nat, k: Key)
    requires WF(v) && Own(v, t) && n < |t|
    requires CanGrow(v, t[n], k) && !Full(v) && P(v, t[n], k) == 0
    ensures var g := Grow(v, t[n], k); Own(g.v, t[n := g.ino])
  {
    var g := Grow(v, t[n], k);
    GrowBlocks(v, t[n], k);
    var u := t[n := g.ino];
    forall m, j | 0 <= m < |t| ensures P(g.v, u[m], j) == if m == n && j == k then g.phys else P(v, t[m], j) {
      if m == n { GrowSelf(v, t, n, k, j); } else { GrowOther(v, t, n, k, m, j); }
    }
  }

  lemma GrewRefl(v: Vol, t: seq<Inode>, n: nat)
    requires WF(v) && n < |t|
    ensures Grew(v, t, n, v, t[n]) && DataKept(v, t, n, v, t[n])
  {
  }

  lemma GrewTrans(v: Vol, t: seq<Inode>, n: nat, w: Vol, ino: Inode, x: Vol, jno: Inode)
    requires WF(v) && WF(w) && n < |t|
    requires Grew(v, t, n, w, ino) && Grew(w, t[n := ino], n, x, jno)
    ensures Grew(v, t, n, x, jno)
  {
    var u := t[n := ino];
    forall m, k | 0 <= m < |t| && m != n ensures P(x, t[m], k) == P(v, t[m], k) {
      assert u[m] == t[m];
    }
    forall p | Used(x, p) && !Used(v, p) ensures Holds(x, jno, p) {
      if Used(w, p) {
        var k :| P(w, ino, k) == p;
        assert P(x, jno, k) == p;
      }
    }
  }

  lemma DataKeptTrans(v: Vol, t: seq<Inode>, n: nat, w: Vol, ino: Inode, x: Vol, jno: Inode)
    requires WF(v) && WF(w) && n < |t|
    requires Grew(v, t, n, w, ino) && Grew(w, t[n := ino], n, x, jno)
    requires DataKept(v, t, n, w, ino) && DataKept(w, t[n := ino], n, x, jno)
    ensures DataKept(v, t, n, x, jno)
  {
    var u := t[n := ino];
    forall m, k | 0 <= m < |t| && DataKey(k) && P(v, t[m], k) != 0
      ensures Blk(x, P(v, t[m], k)) == Blk(v, P(v, t[m], k))
    {
      assert P(w, u[m], k) == P(v, t[m], k);
    }
    forall k | DataKey(k) && P(v, t[n], k) == 0 && P(x, jno, k) != 0
      ensures Blk(x, P(x, jno, k)) == ZERO_BLOCK
    {
      if P(w, ino, k) != 0 {
        assert P(w, u[n], k) == P(x, jno, k);
      }
    }
  }

  // ---------------------------------------------------------------------
  // Lookup and allocation of a logical block: a walk along the keys that lead to it.

  function LeafOf(l: nat): Key {
    if l < 6 then Direct(l)
    else if l < 134 then IndSlot(l - 6)
    else Leaf((l - 134) / 128, (l - 134) % 128)
  }

  function PathOf(l: nat): seq<Key> {
    if l < 6 then [Direct(l)]
    else if l < 134 then [Ind, IndSlot(l - 6)]
    else [Dbl, DblSlot((l - 134) / 128), Leaf((l - 134) / 128, (l - 134) % 128)]
  }

  ghost predicate Chain(ks: seq<Key>) {
    && |ks| > 0
    && (forall i :: 0 <= i < |ks| ==> ValidKey(ks[i]))
    && (forall i :: 0 < i < |ks| ==> !RootKey(ks[i]) && ParentKey(ks[i]) == ks[i - 1])
  }

  lemma PathIsChain(l: nat)
    requires l < MAP_LIMIT
    ensures Chain(PathOf(l)) && RootKey(PathOf(l)[0]) && PathOf(l)[|PathOf(l)| - 1] == LeafOf(l)
    ensures DataKey(LeafOf(l)) && ValidKey(LeafOf(l))
  {
  }

  /** Distinct logical indices are reached through distinct keys, and every data key is reached. */
  lemma LeafOfInjective(l: nat, m: nat)
    requires LeafOf(l) == LeafOf(m)
    ensures l == m
  {
  }

  function Walk(v: Vol, ino: Inode, ks: seq<Key>, alloc: bool): (g: Got)
    requires WF(v) && |ks| > 0
    ensures WF(g.v) && SameFrame(v, g.v)
    decreases |ks|
  {
    var p := P(v, ino, ks[0]);
    if p != 0 then
      if |ks| == 1 then Got(v, ino, p) else Walk(v, ino, ks[1..], alloc)
    else if !alloc || !CanGrow(v, ino, ks[0]) then Got(v, ino, -1)
    else
      var g := Grow(v, ino, ks[0]);
      if g.phys < 0 || |ks| == 1 then g else Walk(g.v, g.ino, ks[1..], alloc)
  }

  function GetBlock(v: Vol, ino: Inode, l: nat, alloc: bool): (g: Got)
    requires WF(v)
    ensures WF(g.v) && SameFrame(v, g.v)
  {
    if l >= MAP_LIMIT then Got(v, ino, -1) else Walk(v, ino, PathOf(l), alloc)
  }

  /** A walk ready to start: the block holding its first key is there. */
  ghost predicate Ready(v: Vol, ino: Inode, ks: seq<Key>)
    requires WF(v)
  {
    Chain(ks) && CanGrow(v, ino, ks[0])
  }

  lemma ReadyNext(v: Vol, ino: Inode, ks: seq<Key>)
    requires WF(v) && Chain(ks) && |ks| > 1 && Used(v, P(v, ino, ks[0]))
    ensures Ready(v, ino, ks[1..])
  {
    assert ks[1..][0] == ks[1];
    assert ParentPtr(v, ino, ks[1]) == P(v, ino, ks[0]);
  }

  /** Below a missing pointer there is nothing. */
  lemma {:induction false} UnmappedBelow(v: Vol, ino: Inode, ks: seq<Key>)
    requires Chain(ks) && P(v, ino, ks[0]) == 0
    ensures P(v, ino, ks[|ks| - 1]) == 0
    decreases |ks|
  {
    if |ks| > 1 {
      assert ks[1..][0] == ks[1] && ParentPtr(v, ino, ks[1]) == P(v, ino, ks[0]);
      UnmappedBelow(v, ino, ks[1..]);
    }
  }

  /** A walk that may not allocate changes nothing and returns the pointer at its last key. */
  lemma {:induction false} WalkLookup(v: Vol, ino: Inode, ks: seq<Key>)
    requires WF(v) && Chain(ks)
    ensures var p := P(v, ino, ks[|ks| - 1]);
            Walk(v, ino, ks, false) == Got(v, ino, if p == 0 then -1 else p)
    decreases |ks|
  {
    if P(v, ino, ks[0]) == 0 {
      UnmappedBelow(v, ino, ks);
    } else if |ks| > 1 {
      WalkLookup(v, ino, ks[1..]);
    }
  }

  lemma GrowFull(v: Vol, ino: Inode, k: Key)
    requires WF(v) && CanGrow(v, ino, k) && Full(v)
    ensures Grow(v, ino, k) == Got(v, ino, -1)
  {
  }

  lemma GrowTakes(v: Vol, ino: Inode, k: Key)
    requires WF(v) && CanGrow(v, ino, k) && !Full(v)
    ensures Grow(v, ino, k).phys > 0
  {
    GrowBlocks(v, ino, k);
  }

  lemma OwnedIsUsed(v: Vol, t: seq<Inode>, n: nat, k: Key)
    requires WF(v) && Own(v, t) && n < |t| && P(v, t[n], k) != 0
    ensures Used(v, P(v, t[n], k))
  {
  }

  /** An allocating walk: ownership is kept, existing mappings stay, and it fails only on a full volume. */
  lemma {:induction false} WalkAlloc(v: Vol, t: seq<Inode>, n: nat, ks: seq<Key>)
    requires WF(v) && Own(v, t) && n < |t| && Ready(v, t[n], ks)
    ensures var g := Walk(v, t[n], ks, true); var last := ks[|ks| - 1];
            && Grew(v, t, n, g.v, g.ino) && DataKept(v, t, n, g.v, g.ino) && Own(g.v, t[n := g.ino])
            && (forall k :: k !in ks ==> P(g.v, g.ino, k) == P(v, t[n], k))
            && (if g.phys < 0 then Full(g.v) && P(g.v, g.ino, last) == 0 else g.phys == P(g.v, g.ino, last) > 0)
    decreases |ks|
  {
    hide Own, Grew, DataKept, Grow, P, CanGrow;
    var g := Walk(v, t[n], ks, true);
    var p := P(v, t[n], ks[0]);
    if p != 0 {
      OwnedIsUsed(v, t, n, ks[0]);
      GrewRefl(v, t, n);
      assert t[n := t[n]] == t;
      if |ks| > 1 {
        ReadyNext(v, t[n], ks);
        WalkAlloc(v, t, n, ks[1..]);
      }
    } else if Full(v) {
      GrowFull(v, t[n], ks[0]);
      GrewRefl(v, t, n);
      assert t[n := t[n]] == t;
      UnmappedBelow(v, t[n], ks);
    } else {
      var h := Grow(v, t[n], ks[0]);
      GrowTakes(v, t[n], ks[0]);
      GrowGrew(v, t, n, ks[0]);
      GrowOwn(v, t, n, ks[0]);
      forall j ensures P(h.v, h.ino, j) == if j == ks[0] then h.phys else P(v, t[n], j) {
        GrowSelf(v, t, n, ks[0], j);
      }
      if |ks| > 1 {
        var u := t[n := h.ino];
        OwnedIsUsed(h.v, u, n, ks[0]);
        ReadyNext(h.v, h.ino, ks);
        WalkAlloc(h.v, u, n, ks[1..]);
        assert u[n := g.ino] == t[n := g.ino];
        GrewTrans(v, t, n, h.v, h.ino, g.v, g.ino);
        DataKeptTrans(v, t, n, h.v, h.ino, g.v, g.ino);
      }
    }
  }

  // ---------------------------------------------------------------------
  // The block map seen from its callers.

  /** The physical block of a logical index, or 0. */
  function Lookup(v: Vol, ino: Inode, l: nat): Word {
    if l >= MAP_LIMIT then 0 else P(v, ino, LeafOf(l))
  }

  lemma GetBlockLookup(v: Vol, ino: Inode, l: nat)
    requires WF(v)
    ensures GetBlock(v, ino, l, false) == Got(v, ino, if Lookup(v, ino, l) == 0 then -1 else Lookup(v, ino, l))
  {
    if l < MAP_LIMIT {
      PathIsChain(l);
      WalkLookup(v, ino, PathOf(l));
    }
  }

  lemma PathReady(v: Vol, ino: Inode, l: nat)
    requires WF(v) && l < MAP_LIMIT
    ensures Ready(v, ino, PathOf(l))
  {
    PathIsChain(l);
  }

  /**
   * The block map is a stable injection: allocating at l is seen by a later lookup of l, moves no other
   * logical block of any inode, never hands out a block some pointer already names, and a failure
   * (index beyond the map, or no free block) leaves every lookup as it was.
   */
  lemma GetBlockAlloc(v: Vol, t: seq<Inode>, n: nat, l: nat)
    requires WF(v) && Own(v, t) && n < |t|
    ensures var g := GetBlock(v, t[n], l, true);
            && Grew(v, t, n, g.v, g.ino) && DataKept(v, t, n, g.v, g.ino) && Own(g.v, t[n := g.ino])
            && (forall i :: i != l ==> Lookup(g.v, g.ino, i) == Lookup(v, t[n], i))
            && (if g.phys < 0 then (l >= MAP_LIMIT || Full(g.v)) && Lookup(g.v, g.ino, l) == 0 == Lookup(v, t[n], l)
                else l < MAP_LIMIT && g.phys == Lookup(g.v, g.ino, l) > 0)
            && (forall i :: Direct(i) != LeafOf(l) ==> P(g.v, g.ino, Direct(i)) == P(v, t[n], Direct(i)))
  {
    hide Own, DataKept, Walk, P;
    var g := GetBlock(v, t[n], l, true);
    if l >= MAP_LIMIT {
      GrewRefl(v, t, n);
      assert t[n := t[n]] == t;
    } else {
      PathIsChain(l);
      PathReady(v, t[n], l);
      WalkAlloc(v, t, n, PathOf(l));
      forall i | i != l ensures Lookup(g.v, g.ino, i) == Lookup(v, t[n], i) {
        if LeafOf(i) == LeafOf(l) { LeafOfInjective(i, l); }
        assert LeafOf(i) !in PathOf(l);
      }
      assert P(v, t[n], LeafOf(l)) != 0 ==> P(g.v, g.ino, LeafOf(l)) != 0;
    }
  }

  // ---------------------------------------------------------------------
  // What an allocation costs

  /** How many of the pointers along a path are missing. */
  function Missing(v: Vol, ino: Inode, ks: seq<Key>): (n: nat)
    ensures n <= |ks|
  {
    if ks == [] then 0 else (if P(v, ino, ks[0]) == 0 then 1 else 0) + Missing(v, ino, ks[1..])
  }

  ghost predicate Distinct(ks: seq<Key>) { forall i, j :: 0 <= i < j < |ks| ==> ks[i] != ks[j] }

  lemma {:induction false} MissingSame(v: Vol, a: Inode, w: Vol, b: Inode, ks: seq<Key>)
    requires forall k :: k in ks ==> P(w, b, k) == P(v, a, k)
    ensures Missing(w, b, ks) == Missing(v, a, ks)
    decreases |ks|
  {
    if ks != [] { MissingSame(v, a, w, b, ks[1..]); }
  }

  /** A walk succeeds if and only if there is a free block for every missing pointer on its path. */
  lemma {:induction false} WalkIff(v: Vol, t: seq<Inode>, n: nat, ks: seq<Key>)
    requires WF(v) && Own(v, t) && n < |t| && Ready(v, t[n], ks) && Distinct(ks)
    ensures Walk(v, t[n], ks, true).phys >= 0 <==> Missing(v, t[n], ks) <= FreeCount(v.used)
    decreases |ks|
  {
    hide Own, Grow, P, CanGrow, FreeCount;
    var rest := ks[1..];
    if P(v, t[n], ks[0]) != 0 {
      OwnedIsUsed(v, t, n, ks[0]);
      if |ks| > 1 {
        ReadyNext(v, t[n], ks);
        WalkIff(v, t, n, rest);
      }
    } else if Full(v) {
      GrowFull(v, t[n], ks[0]);
      GrowCount(v, t[n], ks[0]);
    } else {
      var h := Grow(v, t[n], ks[0]);
      GrowTakes(v, t[n], ks[0]);
      GrowCount(v, t[n], ks[0]);
      GrowOwn(v, t, n, ks[0]);
      forall k ensures P(h.v, h.ino, k) == if k == ks[0] then h.phys else P(v, t[n], k) {
        GrowSelf(v, t, n, ks[0], k);
      }
      MissingSame(v, t[n], h.v, h.ino, rest);
      if |ks| > 1 {
        var u := t[n := h.ino];
        OwnedIsUsed(h.v, u, n, ks[0]);
        ReadyNext(h.v, h.ino, ks);
        WalkIff(h.v, u, n, rest);
      }
    }
  }

  /**
   * A block can be had exactly below the end of the map and with a free block for every pointer missing on the way to
   * it: none where it is mapped, one to three elsewhere.
   */
  lemma GetBlockIff(v: Vol, t: seq<Inode>, n: nat, l: nat)
    requires WF(v) && Own(v, t) && n < |t|
    ensures GetBlock(v, t[n], l, true).phys >= 0
            <==> l < MAP_LIMIT && Missing(v, t[n], PathOf(l)) <= FreeCount(v.used)
  {
    hide Own, Walk, P, Missing, FreeCount;
    if l < MAP_LIMIT {
      PathReady(v, t[n], l);
      WalkIff(v, t, n, PathOf(l));
    }
  }

  /** A data block never doubles as a pointer block, nor as another logical block of any inode. */
  lemma LookupInjective(v: Vol, t: seq<Inode>, n: nat, l: nat, m: nat, k: Key)
    requires WF(v) && Own(v, t) && n < |t| && m < |t|
    requires Lookup(v, t[n], l) != 0 && P(v, t[m], k) == Lookup(v, t[n], l)
    ensures n == m && k == LeafOf(l)
  {
  }

  // ---------------------------------------------------------------------
  // The inode slot on disk lags behind the inode being edited.

  /** Read through the old inode, the new volume shows some of the pointers of the new inode and no others. */
  lemma StalePtr(v: Vol, t: seq<Inode>, n: nat, w: Vol, ino: Inode, k: Key)
    requires WF(v) && n < |t| && Grew(v, t, n, w, ino)
    ensures P(w, t[n], k) == 0 || P(w, t[n], k) == P(w, ino, k)
    ensures P(v, t[n], k) != 0 ==> P(w, t[n], k) == P(v, t[n], k)
  {
    assert P(v, t[n], Ind) != 0 ==> P(w, ino, Ind) == P(v, t[n], Ind);
    assert P(v, t[n], Dbl) != 0 ==> P(w, ino, Dbl) == P(v, t[n], Dbl);
    if k.Direct? {
      assert P(v, t[n], k) != 0 ==> P(w, ino, k) == P(v, t[n], k);
    }
  }

  /** Mid-call, before the inode is written back, ownership also holds of the table as it is on disk. */
  lemma StaleOwn(v: Vol, t: seq<Inode>, n: nat, w: Vol, ino: Inode)
    requires WF(v) && n < |t| && Grew(v, t, n, w, ino) && Own(w, t[n := ino])
    ensures Own(w, t)
  {
    var u := t[n := ino];
    forall m, k | 0 <= m < |t| && P(w, t[m], k) != 0 ensures P(w, t[m], k) == P(w, u[m], k) {
      if m == n { StalePtr(v, t, n, w, ino, k); }
    }
  }

  // ---------------------------------------------------------------------
  // One level of a walk

  /** The pointer at key k, allocated if need be. */
  function Level(v: Vol, ino: Inode, k: Key, alloc: bool): (g: Got)
    requires WF(v)
    ensures WF(g.v) && SameFrame(v, g.v)
  {
    if P(v, ino, k) != 0 then Got(v, ino, P(v, ino, k))
    else if !alloc || !CanGrow(v, ino, k) then Got(v, ino, -1)
    else Grow(v, ino, k)
  }

  /** A walk goes level by level and stops where one fails. */
  lemma WalkLevel(v: Vol, ino: Inode, ks: seq<Key>, alloc: bool)
    requires WF(v) && |ks| > 0
    ensures var h := Level(v, ino, ks[0], alloc);
            Walk(v, ino, ks, alloc) == if h.phys < 0 || |ks| == 1 then h else Walk(h.v, h.ino, ks[1..], alloc)
  {
  }

  /** A successful level leaves its pointer in place and in use; ownership of the one inode is kept. */
  lemma LevelDone(v: Vol, ino: Inode, k: Key, alloc: bool)
    requires WF(v) && Own(v, [ino]) && Level(v, ino, k, alloc).phys >= 0
    ensures var h := Level(v, ino, k, alloc);
            && P(h.v, h.ino, k) == h.phys && h.phys > 0 && Used(h.v, h.phys) && Own(h.v, [h.ino])
            && (forall p :: Used(v, p) ==> Used(h.v, p))
  {
    var t := [ino];
    assert t[0] == ino;
    if P(v, ino, k) == 0 {
      GrowBlocks(v, ino, k);
      GrowGrew(v, t, 0, k);
      GrowOwn(v, t, 0, k);
      assert t[0 := Grow(v, ino, k).ino] == [Grow(v, ino, k).ino];
    }
  }

  /** What an allocation does to a block that was in use. */
  lemma AllocKeeps(v: Vol, q: int)
    requires WF(v) && Used(v, q)
    ensures Blk(AllocBlock(v).v, q) == Blk(v, q) && Used(AllocBlock(v).v, q) && q != AllocBlock(v).phys
  {
  }

  /** A fresh block is clear already: clearing it once more changes nothing. */
  lemma AllocClear(v: Vol)
    requires WF(v) && AllocBlock(v).phys >= 0
    ensures var a := AllocBlock(v);
            InData(v, a.phys) && Used(a.v, a.phys) && Blk(a.v, a.phys) == ZERO_BLOCK
                && SetBlk(a.v, a.phys, ZERO_BLOCK) == a.v && a.phys > 0 && a.phys < TWO32
  {
    var a := AllocBlock(v);
    assert a.v.data[a.phys - v.base := ZERO_BLOCK] == a.v.data;
  }

  /** Clearing a fresh block after a pointer to it was stored elsewhere changes nothing either. */
  lemma ClearAfter(v: Vol, q: int, b: Block, p: int)
    requires WF(v) && InData(v, p) && InData(v, q) && p != q && Blk(v, p) == ZERO_BLOCK
    ensures SetBlk(SetBlk(v, q, b), p, ZERO_BLOCK) == SetBlk(v, q, b)
  {
    var w := SetBlk(v, q, b);
    assert w.data[p - v.base := ZERO_BLOCK] == w.data;
  }
}
