/** kmalloc and kfree on the bytes of the heap, headers in band. */
module Kmalloc {
  import opened Bytes
  import opened HeapBlocks

  // ---------------------------------------------------------------------
  // Headers in memory

  /** The header at o is that of b: size and magic as words, then the free flag. */
  ghost predicate HasHeader(m: seq<Byte>, o: nat, b: HeapBlocks.Block) {
    o + HEADER <= |m| && WordAt(m, o) == b.size && WordAt(m, o + 4) == b.magic && (m[o + 8] != 0 <==> b.free)
  }

  /** The headers, walked by size from 0, are exactly bs, and end at used. */
  ghost predicate Tiled(m: seq<Byte>, used: nat, bs: seq<HeapBlocks.Block>) {
    && End(bs) == used <= |m|
    && (forall i :: 0 <= i < |bs| ==> Tile(m, bs, i))
  }

  ghost predicate Tile(m: seq<Byte>, bs: seq<HeapBlocks.Block>, i: nat)
    requires i < |bs|
  {
    bs[i].size >= HEADER && HasHeader(m, Off(bs, i), bs[i])
  }

  lemma HeaderFrame(m: seq<Byte>, n: seq<Byte>, o: nat, b: HeapBlocks.Block)
    requires HasHeader(m, o, b) && |n| == |m| && forall a :: o <= a < o + HEADER ==> n[a] == m[a]
    ensures HasHeader(n, o, b)
  {
  }

  lemma Sizes(m: seq<Byte>, used: nat, bs: seq<HeapBlocks.Block>)
    requires Tiled(m, used, bs)
    ensures forall k :: 0 <= k < |bs| ==> bs[k].size >= HEADER
  {
    forall k | 0 <= k < |bs| ensures bs[k].size >= HEADER { assert Tile(m, bs, k); }
  }

  /** Where block i lies. */
  lemma Extent(m: seq<Byte>, used: nat, bs: seq<HeapBlocks.Block>, i: nat)
    requires Tiled(m, used, bs) && i < |bs|
    ensures HasHeader(m, Off(bs, i), bs[i]) && bs[i].size >= HEADER
            && Off(bs, i) + bs[i].size == Off(bs, i + 1) <= used <= |m|
  {
    assert Tile(m, bs, i);
    OffGrows(bs, i + 1, |bs|);
  }

  /** A memory that differs only inside block i, behind its header, is tiled alike. */
  lemma PayloadFrame(m: seq<Byte>, n: seq<Byte>, used: nat, bs: seq<HeapBlocks.Block>, i: nat)
    requires Tiled(m, used, bs) && |n| == |m| && i < |bs|
    requires forall a :: 0 <= a < used && !(Off(bs, i) + HEADER <= a < Off(bs, i) + bs[i].size) ==> n[a] == m[a]
    ensures Tiled(n, used, bs)
  {
    Sizes(m, used, bs);
    forall k | 0 <= k < |bs| ensures Tile(n, bs, k) {
      Extent(m, used, bs, k);
      if k < i { OffGrows(bs, k, i); }
      if i < k { OffGrows(bs, i, k); }
      HeaderFrame(m, n, Off(bs, k), bs[k]);
    }
  }

  /** Rewriting the header of block i without moving its end. */
  lemma HeaderSet(m: seq<Byte>, n: seq<Byte>, used: nat, bs: seq<HeapBlocks.Block>, i: nat, b: HeapBlocks.Block)
    requires Tiled(m, used, bs) && |n| == |m| && i < |bs| && b.size == bs[i].size && HasHeader(n, Off(bs, i), b)
    requires forall a :: 0 <= a < used && !(Off(bs, i) <= a < Off(bs, i) + bs[i].size) ==> n[a] == m[a]
    ensures Tiled(n, used, bs[i := b])
  {
    var cs := bs[i := b];
    Sizes(m, used, bs);
    OffSame(cs, bs, |bs|);
    forall k | 0 <= k < |cs| ensures Tile(n, cs, k) {
      OffSame(cs, bs, k);
      Extent(m, used, bs, k);
      if k < i { OffGrows(bs, k, i); }
      if i < k { OffGrows(bs, i, k); }
      if k != i { HeaderFrame(m, n, Off(bs, k), bs[k]); }
    }
  }

  /** A new block behind the last one. */
  lemma HeaderAppend(m: seq<Byte>, n: seq<Byte>, used: nat, bs: seq<HeapBlocks.Block>, b: HeapBlocks.Block)
    requires Tiled(m, used, bs) && |n| == |m| && b.size >= HEADER && used + b.size <= |m| && HasHeader(n, used, b)
    requires forall a :: 0 <= a < used ==> n[a] == m[a]
    ensures Tiled(n, used + b.size, bs + [b])
  {
    var cs := bs + [b];
    OffSame(cs, bs, |bs|);
    forall k | 0 <= k < |cs| ensures Tile(n, cs, k) {
      OffSame(cs, bs, k);
      if k < |bs| {
        Extent(m, used, bs, k);
        HeaderFrame(m, n, Off(bs, k), bs[k]);
      }
    }
  }

  /** The two headers of a block cut in two. */
  lemma HeaderCut(m: seq<Byte>, n: seq<Byte>, used: nat, bs: seq<HeapBlocks.Block>, i: nat, total: Word)
    requires Tiled(m, used, bs) && |n| == |m| && i < |bs| && HEADER <= total && total + HEADER <= bs[i].size
    requires var cs := Split(bs, i, total);
             HasHeader(n, Off(bs, i), cs[i]) && HasHeader(n, Off(bs, i) + total, cs[i + 1])
    requires forall a :: 0 <= a < used && !(Off(bs, i) <= a < Off(bs, i) + bs[i].size) ==> n[a] == m[a]
    ensures Tiled(n, used, Split(bs, i, total))
  {
    var cs := Split(bs, i, total);
    Sizes(m, used, bs);
    OffSplit(bs, i, total, |cs|);
    OffSame(cs, bs, i);
    assert Off(cs, i + 1) == Off(bs, i) + total;
    forall k | 0 <= k < |cs| ensures Tile(n, cs, k) {
      if k < i || k > i + 1 { CutTile(m, n, used, bs, i, total, k); }
    }
  }

  lemma CutTile(m: seq<Byte>, n: seq<Byte>, used: nat, bs: seq<HeapBlocks.Block>, i: nat, total: Word, k: nat)
    requires Tiled(m, used, bs) && |n| == |m| && i < |bs| && HEADER <= total && total + HEADER <= bs[i].size
    requires k <= |bs| && k != i && k != i + 1
    requires forall a :: 0 <= a < used && !(Off(bs, i) <= a < Off(bs, i) + bs[i].size) ==> n[a] == m[a]
    ensures Tile(n, Split(bs, i, total), k)
  {
    hide HasHeader, Tiled;
    var cs := Split(bs, i, total);
    Sizes(m, used, bs);
    if k < i {
      OffSame(cs, bs, k);
      Extent(m, used, bs, k);
      OffGrows(bs, k, i);
      HeaderFrame(m, n, Off(bs, k), bs[k]);
    } else {
      var j := k - 1;
      OffSplit(bs, i, total, k);
      Extent(m, used, bs, j);
      OffGrows(bs, i, j);
      HeaderFrame(m, n, Off(bs, j), bs[j]);
    }
  }

  // ---------------------------------------------------------------------
  // The allocator

  class Heap {
    const mem: array<Byte>
    var started: bool
    var used: nat
    ghost var blocks: seq<HeapBlocks.Block>

    constructor (m: array<Byte>)
      requires m.Length == HEAP_SIZE
      ensures Valid() && mem == m && !started && blocks == []
    {
      mem, started, used, blocks := m, false, 0, [];
    }

    ghost predicate Valid()
      reads this, mem
    {
      && mem.Length == HEAP_SIZE && used < HEAP_SIZE && (!started ==> used == 0 && blocks == [])
      && Tiled(mem[..], used, blocks)
      && (forall i :: 0 <= i < |blocks| ==> blocks[i].magic == MAGIC || blocks[i].magic == FREED_MAGIC)
    }

    /** kmalloc_init: the heap is empty again; its bytes are left as they are. */
    method Init()
      requires mem.Length == HEAP_SIZE
      modifies this
      ensures Valid() && started && blocks == []
    {
      started, used, blocks := true, 0, [];
    }

    method GetWord(o: nat) returns (w: Word)
      requires o + 4 <= mem.Length
      ensures w == WordAt(mem[..], o)
    {
      w := mem[o] as int + 256 * (mem[o + 1] as int) + 65536 * (mem[o + 2] as int) + 16777216 * (mem[o + 3] as int);
    }

    method SetWord(o: nat, w: Word)
      requires o + 4 <= mem.Length
      modifies mem
      ensures mem[..] == PutWord(old(mem[..]), o, w)
    {
      mem[o], mem[o + 1], mem[o + 2], mem[o + 3] := w % 256, w / 256 % 256, w / 65536 % 256, w / 16777216;
    }

    /** Writes the three fields of a header; nothing else changes. */
    method SetHeader(o: nat, b: HeapBlocks.Block)
      requires o + HEADER <= mem.Length
      modifies mem
      ensures HasHeader(mem[..], o, b)
      ensures forall a :: 0 <= a < mem.Length && !(o <= a < o + HEADER) ==> mem[a] == old(mem[a])
    {
      ghost var m := mem[..];
      SetWord(o, b.size);
      SetWord(o + 4, b.magic);
      WordAtPut(m, o, b.size);
      WordAtOther(PutWord(m, o, b.size), o + 4, b.magic, o);
      WordAtPut(PutWord(m, o, b.size), o + 4, b.magic);
      ghost var n := mem[..];
      mem[o + 8] := if b.free then 1 else 0;
      assert mem[..] == n[o + 8 := if b.free then 1 else 0];
    }

    /** find_free_block: the first free block with room, or -1. */
    method FindFreeBlock(size: nat) returns (o: int)
      requires Valid()
      ensures var f := Fit(blocks, size, 0); o == if f == |blocks| then -1 else Off(blocks, f) as int
    {
      var ptr := 0;
      ghost var i := 0;
      while ptr < used
        invariant 0 <= i <= |blocks| && ptr == Off(blocks, i)
        invariant Fit(blocks, size, i) == Fit(blocks, size, 0)
        decreases used - ptr
      {
        Sizes(mem[..], used, blocks);
        Extent(mem[..], used, blocks, i);
        var magic := GetWord(ptr + 4);
        if magic != MAGIC && magic != FREED_MAGIC { return -1; }
        var blockSize := GetWord(ptr);
        if mem[ptr + 8] != 0 && blockSize >= size + HEADER { return ptr; }
        ptr := ptr + blockSize;
        i := i + 1;
      }
      Sizes(mem[..], used, blocks);
      if i < |blocks| { OffGrows(blocks, i, |blocks|); }
      return -1;
    }
  
    /** split_block: the rest of the block gets a header of its own. */
    method SplitBlock(o: nat, needed: nat)
      requires needed + HEADER < TWO32 && o + HEADER <= mem.Length
      requires WordAt(mem[..], o) > needed + HEADER ==> o + needed + 2 * HEADER <= mem.Length
      modifies mem
      ensures var size, total := WordAt(old(mem[..]), o), needed + HEADER;
              if size <= total then mem[..] == old(mem[..])
              else
                && WordAt(mem[..], o) == total && HasHeader(mem[..], o + total, Block(size - total, MAGIC, true))
                && (forall a :: 0 <= a < mem.Length && !(o <= a < o + 4) && !(o + total <= a < o + total + HEADER)
                      ==> mem[a] == old(mem[a]))
    {
      var totalNeeded := needed + HEADER;
      var size := GetWord(o);
      if size <= totalNeeded { return; }
      SetHeader(o + totalNeeded, Block(size - totalNeeded, MAGIC, true));
      ghost var m := mem[..];
      SetWord(o, totalNeeded);
      WordAtPut(m, o, totalNeeded);
      HeaderFrame(m, mem[..], o + totalNeeded, Block(size - totalNeeded, MAGIC, true));
    }

    /** memset of the user bytes. */
    method Clear(p: nat, size: nat)
      requires p + size <= mem.Length
      modifies mem
      ensures forall a :: 0 <= a < mem.Length ==> mem[a] == if p <= a < p + size then 0 else old(mem[a])
    {
      var i := 0;
      while i < size
        invariant 0 <= i <= size
        invariant forall a :: 0 <= a < mem.Length ==> mem[a] == if p <= a < p + i then 0 else old(mem[a])
      {
        mem[p + i] := 0;
        i := i + 1;
      }
    }

    /** The first fit taken over, cut if it is larger than needed. */
    method Reuse(o: nat, size: nat)
      requires Valid() && 0 < size <= MAX_REQUEST && NoSliver(blocks, size)
      requires Fit(blocks, size, 0) < |blocks| && o == Off(blocks, Fit(blocks, size, 0))
      modifies this`blocks, mem
      ensures Valid() && blocks == HeapBlocks.Malloc(old(blocks), size).blocks
      ensures SameOutside(old(mem[..]), mem[..], o, o + Taken(old(blocks), size))
    {
      hide Fit, Tiled, HasHeader, Off, Split;
      ghost var m, bs, f := mem[..], blocks, Fit(blocks, size, 0);
      Extent(m, used, bs, f);
      HeaderFits(m, o, bs[f]);
      var blockSize := GetWord(o);
      if blockSize > size + HEADER {
        SplitBlock(o, size);
        ghost var n := mem[..];
        mem[o + 8] := 0;
        assert mem[..] == n[o + 8 := 0];
        CutIs(m, n, mem[..], used, bs, f, size + HEADER);
      } else {
        mem[o + 8] := 0;
        assert mem[..] == m[o + 8 := 0];
        WholeIs(m, mem[..], used, bs, f);
      }
      blocks := HeapBlocks.Malloc(bs, size).blocks;
      ReusedMagic(bs, size);
    }

    /**
     * kmalloc: the address of the user bytes, or -1. The request is served by the first fit, the bytes asked for
     * are zero, and nothing outside the block taken changes.
     */
    method Malloc(size: nat) returns (p: int)
      requires Valid() && size <= MAX_REQUEST && NoSliver(blocks, size)
      modifies this, mem
      ensures Valid()
      ensures var g := HeapBlocks.Malloc(old(blocks), size);
              if g.NoMemory? then p == -1 && blocks == old(blocks) && mem[..] == old(mem[..])
              else
                && blocks == g.blocks && p == Off(g.blocks, g.i) + HEADER && p + size <= used
                && mem[p..p + size] == Zeros(size)
                && SameOutside(old(mem[..]), mem[..], p - HEADER, p - HEADER + Taken(old(blocks), size))
    {
      hide Fit, Tiled, HasHeader, Off, Split, NoSliver, SameOutside, HeapBlocks.Malloc;
      ghost var bs, m := blocks, mem[..];
      MallocPlace(bs, size);
      if size == 0 { return -1; }
      if !started {
        NothingFits(size);
        Init();
      }
      var o := Take(size);
      if o < 0 { return -1; }
      ghost var f := HeapBlocks.Malloc(bs, size).i;
      Extent(mem[..], used, blocks, f);
      p := o + HEADER;
      ghost var n := mem[..];
      Clear(p, size);
      Cleared(m, n, mem[..], used, blocks, f, size, o + Taken(bs, size));
    }

    /** The block for a request: the first fit, or a new one at the end. */
    method Take(size: nat) returns (o: int)
      requires Valid() && started && 0 < size <= MAX_REQUEST && NoSliver(blocks, size)
      modifies this, mem
      ensures Valid() && started
      ensures var g := HeapBlocks.Malloc(old(blocks), size);
              if g.NoMemory? then o == -1 && blocks == old(blocks) && mem[..] == old(mem[..])
              else
                && blocks == g.blocks && o == Off(g.blocks, g.i)
                && SameOutside(old(mem[..]), mem[..], o, o + Taken(old(blocks), size))
    {
      hide Fit, Tiled, HasHeader, Off, Split, NoSliver, SameOutside;
      ghost var bs := blocks;
      FirstOff(bs, size);
      MallocPlace(bs, size);
      UsedIsEnd(mem[..], used, bs);
      o := FindFreeBlock(size);
      if o < 0 {
        var totalNeeded := size + HEADER;
        if used + totalNeeded >= HEAP_SIZE { return -1; }
        o := used;
        Extend(totalNeeded);
      } else {
        Reuse(o, size);
      }
    }

    /** A new block at the end of the heap. */
    method Extend(totalNeeded: Word)
      requires Valid() && totalNeeded >= HEADER && used + totalNeeded < HEAP_SIZE && started
      modifies this, mem
      ensures Valid() && blocks == old(blocks) + [Block(totalNeeded, MAGIC, false)] && used == old(used) + totalNeeded
      ensures started == old(started) && SameOutside(old(mem[..]), mem[..], old(used), used)
    {
      hide Tiled, HasHeader, Off;
      ghost var m := mem[..];
      var b := Block(totalNeeded, MAGIC, false);
      SetHeader(used, b);
      HeaderAppend(m, mem[..], used, blocks, b);
      blocks := blocks + [b];
      used := used + totalNeeded;
    }

    /** kfree: the header is checked, and marked free with the other magic. */
    method Free(p: int)
      requires Valid() && (p == -1 || (p >= HEADER && Boundary(blocks, p - HEADER)))
      modifies this`blocks, mem
      ensures Valid() && blocks == if p == -1 then old(blocks) else HeapBlocks.Free(old(blocks), p - HEADER)
      ensures if p == -1 then mem[..] == old(mem[..]) else SameOutside(old(mem[..]), mem[..], p - HEADER, p)
    {
      hide Tiled, HasHeader, Off, HeapBlocks.Free, PutWord;
      if p == -1 { return; }
      var o := p - HEADER;
      ghost var m, bs := mem[..], blocks;
      ghost var i :| 0 <= i < |bs| && Off(bs, i) == o;
      Extent(m, used, bs, i);
      HeaderFits(m, o, bs[i]);
      Sizes(m, used, bs);
      FreeIs(bs, i);
      var magic := GetWord(o + 4);
      if magic != MAGIC { return; }
      if mem[o + 8] != 0 { return; }
      mem[o + 8] := 1;
      SetWord(o + 4, FREED_MAGIC);
      FreedIs(m, mem[..], used, bs, i);
      blocks := bs[i := bs[i].(free := true, magic := FREED_MAGIC)];
    }
  }

  // ---------------------------------------------------------------------
  // Steps on the bytes

  ghost predicate SameOutside(m: seq<Byte>, n: seq<Byte>, lo: int, hi: int) {
    |n| == |m| && forall a :: 0 <= a < |m| && !(lo <= a < hi) ==> n[a] == m[a]
  }

  lemma HeaderFits(m: seq<Byte>, o: nat, b: HeapBlocks.Block)
    requires HasHeader(m, o, b)
    ensures o + HEADER <= |m| && WordAt(m, o) == b.size && WordAt(m, o + 4) == b.magic && (m[o + 8] != 0 <==> b.free)
  {
  }

  lemma CutIs(m: seq<Byte>, n: seq<Byte>, k: seq<Byte>, used: nat, bs: seq<HeapBlocks.Block>, f: nat, total: Word)
    requires Tiled(m, used, bs) && f < |bs| && |n| == |m| && HEADER < total && total + HEADER <= bs[f].size
    requires var o := Off(bs, f);
      && o + bs[f].size <= |m| && WordAt(n, o) == total
      && HasHeader(n, o + total, Block(bs[f].size - total, MAGIC, true))
      && (forall a :: 0 <= a < |m| && !(o <= a < o + 4) && !(o + total <= a < o + total + HEADER) ==> n[a] == m[a])
      && k == n[o + 8 := 0]
    ensures Tiled(k, used, Split(bs, f, total)) && SameOutside(m, k, Off(bs, f), Off(bs, f) + bs[f].size)
  {
    hide HasHeader, Tiled, Off;
    var o := Off(bs, f);
    Extent(m, used, bs, f);
    HeaderFrame(n, k, o + total, Block(bs[f].size - total, MAGIC, true));
    Shrunk(m, n, k, o, bs[f], total);
    HeaderCut(m, k, used, bs, f, total);
  }

  lemma Shrunk(m: seq<Byte>, n: seq<Byte>, k: seq<Byte>, o: nat, b: HeapBlocks.Block, total: Word)
    requires HasHeader(m, o, b) && |n| == |m| && WordAt(n, o) == total && k == n[o + 8 := 0]
    requires forall a :: o + 4 <= a < o + HEADER ==> n[a] == m[a]
    ensures HasHeader(k, o, b.(size := total, free := false))
  {
    assert forall a :: o <= a < o + 8 ==> k[a] == n[a];
  }

  lemma WholeIs(m: seq<Byte>, k: seq<Byte>, used: nat, bs: seq<HeapBlocks.Block>, f: nat)
    requires Tiled(m, used, bs) && f < |bs| && Off(bs, f) + HEADER <= |m| && k == m[Off(bs, f) + 8 := 0]
    ensures Tiled(k, used, bs[f := bs[f].(free := false)]) && SameOutside(m, k, Off(bs, f), Off(bs, f) + bs[f].size)
  {
    Extent(m, used, bs, f);
    HeaderSet(m, k, used, bs, f, bs[f].(free := false));
  }

  lemma FreedIs(m: seq<Byte>, k: seq<Byte>, used: nat, bs: seq<HeapBlocks.Block>, f: nat)
    requires Tiled(m, used, bs) && f < |bs| && Off(bs, f) + HEADER <= |m|
    requires k == PutWord(m[Off(bs, f) + 8 := 1], Off(bs, f) + 4, FREED_MAGIC)
    ensures Tiled(k, used, bs[f := bs[f].(free := true, magic := FREED_MAGIC)])
    ensures SameOutside(m, k, Off(bs, f), Off(bs, f) + HEADER)
  {
    hide HasHeader, Tiled, PutWord, Off;
    Extent(m, used, bs, f);
    MarkFreed(m, k, Off(bs, f), bs[f]);
    HeaderSet(m, k, used, bs, f, bs[f].(free := true, magic := FREED_MAGIC));
  }

  lemma MarkFreed(m: seq<Byte>, k: seq<Byte>, o: nat, b: HeapBlocks.Block)
    requires HasHeader(m, o, b) && k == PutWord(m[o + 8 := 1], o + 4, FREED_MAGIC)
    ensures HasHeader(k, o, b.(free := true, magic := FREED_MAGIC)) && SameOutside(m, k, o, o + HEADER)
  {
    var n := m[o + 8 := 1];
    WordAtPut(n, o + 4, FREED_MAGIC);
    WordAtOther(n, o + 4, FREED_MAGIC, o);
    WordAtFrame(m, n, o);
  }

  lemma WordAtFrame(m: seq<Byte>, n: seq<Byte>, o: nat)
    requires |n| == |m| && o + 4 <= |m| && forall a :: o <= a < o + 4 ==> n[a] == m[a]
    ensures WordAt(n, o) == WordAt(m, o)
  {
  }

  /** Zeroing the user bytes of block f, after what changed up to hi. */
  lemma Cleared(m: seq<Byte>, n: seq<Byte>, k: seq<Byte>, used: nat, bs: seq<HeapBlocks.Block>, f: nat, size: nat,
        hi: nat)
    requires Tiled(n, used, bs) && f < |bs| && bs[f].size >= size + HEADER && |k| == |n|
    requires var o := Off(bs, f);
      && o + bs[f].size <= |n| && o + bs[f].size <= hi && SameOutside(m, n, o, hi)
      && (forall a :: 0 <= a < |n| ==> k[a] == if o + HEADER <= a < o + HEADER + size then 0 else n[a])
    ensures Tiled(k, used, bs) && SameOutside(m, k, Off(bs, f), hi)
    ensures k[Off(bs, f) + HEADER..Off(bs, f) + HEADER + size] == Zeros(size)
  {
    hide Tiled, Off;
    UsedIsEnd(n, used, bs);
    PayloadFrame(n, k, used, bs, f);
  }

  lemma UsedIsEnd(m: seq<Byte>, used: nat, bs: seq<HeapBlocks.Block>)
    requires Tiled(m, used, bs)
    ensures used == End(bs) && used <= |m|
  {
  }

  lemma NothingFits(size: nat)
    ensures Fit([], size, 0) == 0
  {
  }

  lemma FirstOff(bs: seq<HeapBlocks.Block>, size: nat)
    ensures Fit(bs, size, 0) == |bs| ==> Off(bs, Fit(bs, size, 0)) == End(bs)
  {
  }

  lemma ReusedMagic(bs: seq<HeapBlocks.Block>, size: nat)
    requires 0 < size <= MAX_REQUEST && Fit(bs, size, 0) < |bs|
    requires forall i :: 0 <= i < |bs| ==> bs[i].magic == MAGIC || bs[i].magic == FREED_MAGIC
    ensures var rs := HeapBlocks.Malloc(bs, size).blocks;
            forall i :: 0 <= i < |rs| ==> rs[i].magic == MAGIC || rs[i].magic == FREED_MAGIC
  {
    hide Fit;
  }

  /** What kmalloc changes is no byte of any other block, header or payload. */
  lemma OtherBytes(m: seq<Byte>, n: seq<Byte>, used: nat, bs: seq<HeapBlocks.Block>, size: nat, j: nat)
    requires Tiled(m, used, bs) && 0 < size <= MAX_REQUEST && HeapBlocks.Malloc(bs, size).Got?
    requires j < |bs| && j != Fit(bs, size, 0)
    requires var g := HeapBlocks.Malloc(bs, size); var o := Off(g.blocks, g.i);
             SameOutside(m, n, o, o + Taken(bs, size))
    ensures Off(bs, j) + bs[j].size <= |m| == |n|
    ensures n[Off(bs, j)..Off(bs, j) + bs[j].size] == m[Off(bs, j)..Off(bs, j) + bs[j].size]
  {
    var f := Fit(bs, size, 0);
    MallocPlace(bs, size);
    Sizes(m, used, bs);
    Extent(m, used, bs, j);
    if j < f { OffGrows(bs, j, f); } else { OffGrows(bs, f, j); }
  }

  /** The block handed out lies where the first fit, or the end, was. */
  lemma MallocPlace(bs: seq<HeapBlocks.Block>, size: nat)
    requires size <= MAX_REQUEST
    ensures size == 0 ==> HeapBlocks.Malloc(bs, size).NoMemory?
    ensures HeapBlocks.Malloc(bs, size).Got? ==> var g := HeapBlocks.Malloc(bs, size);
            g.i == Fit(bs, size, 0) && Off(g.blocks, g.i) == Off(bs, g.i) && g.blocks[g.i].size >= size + HEADER
            && g.blocks[g.i].size <= Taken(bs, size)
  {
    if HeapBlocks.Malloc(bs, size).Got? { OffSame(HeapBlocks.Malloc(bs, size).blocks, bs, Fit(bs, size, 0)); }
  }

  // ---------------------------------------------------------------------
  // Slivers

  /** What split_block leaves when it cuts block i: the headers of the two parts, and all other bytes. */
  ghost predicate CutBytes(m: seq<Byte>, n: seq<Byte>, bs: seq<HeapBlocks.Block>, i: nat, total: Word)
    requires i < |bs| && total < bs[i].size
  {
    var o := Off(bs, i);
    && |n| == |m| && HEADER < total && o + total + HEADER <= |m| && WordAt(n, o) == total
    && HasHeader(n, o + total, Block(bs[i].size - total, MAGIC, true))
    && (forall a :: 0 <= a < |m| && !(o <= a < o + 4) && !(o + total <= a < o + total + HEADER) ==> n[a] == m[a])
  }

  /** Up to the block that was cut, every walk of the new memory goes as before. */
  lemma {:induction false} WalkSame(m: seq<Byte>, n: seq<Byte>, used: nat, bs: seq<HeapBlocks.Block>, i: nat,
        total: Word,
                                    cs: seq<HeapBlocks.Block>, j: nat)
    requires Tiled(m, used, bs) && i < |bs| && total < bs[i].size && CutBytes(m, n, bs, i, total) && Tiled(n, used, cs)
             && j <= i
    ensures j < |cs| && Off(cs, j) == Off(bs, j)
    decreases j
  {
    hide Tiled, CutBytes, WordAt;
    Extent(m, used, bs, j);
    if j > 0 {
      WalkSame(m, n, used, bs, i, total, cs, j - 1);
      SizeSeen(m, n, used, bs, i, total, j - 1);
      Extent(n, used, cs, j - 1);
    }
    UsedIsEnd(n, used, cs);
  }

  lemma SizeSeen(m: seq<Byte>, n: seq<Byte>, used: nat, bs: seq<HeapBlocks.Block>, i: nat, total: Word, j: nat)
    requires Tiled(m, used, bs) && i < |bs| && total < bs[i].size && CutBytes(m, n, bs, i, total) && j < i
    ensures Off(bs, j) + 4 <= |n| && WordAt(n, Off(bs, j)) == bs[j].size
  {
    Sizes(m, used, bs);
    Extent(m, used, bs, j);
    hide Tiled, Off;
    OffGrows(bs, j, i);
    WordAtFrame(m, n, Off(bs, j));
  }

  /** Cutting a block keeps the heap walkable if and only if the rest has room for its own header. */
  lemma CutTilesIff(m: seq<Byte>, n: seq<Byte>, used: nat, bs: seq<HeapBlocks.Block>, i: nat, total: Word)
    requires Tiled(m, used, bs) && i < |bs| && total < bs[i].size && CutBytes(m, n, bs, i, total)
    ensures (exists cs :: Tiled(n, used, cs)) <==> bs[i].size - total >= HEADER
  {
    var o := Off(bs, i);
    hide Tiled, HasHeader, CutBytes, Off;
    if cs :| Tiled(n, used, cs) { SliverSeen(m, n, used, bs, i, total, cs); }
    if bs[i].size - total >= HEADER { CutWalks(m, n, used, bs, i, total); }
  }

  lemma SliverSeen(m: seq<Byte>, n: seq<Byte>, used: nat, bs: seq<HeapBlocks.Block>, i: nat, total: Word,
        cs: seq<HeapBlocks.Block>)
    requires Tiled(m, used, bs) && i < |bs| && total < bs[i].size && CutBytes(m, n, bs, i, total) && Tiled(n, used, cs)
    ensures bs[i].size - total >= HEADER
  {
    WalkSame(m, n, used, bs, i, total, cs, i);
    Extent(m, used, bs, i);
    Extent(n, used, cs, i);
    hide Tiled;
    assert Off(cs, i + 1) == Off(bs, i) + total < used;
    UsedIsEnd(n, used, cs);
    Extent(n, used, cs, i + 1);
  }

  lemma CutWalks(m: seq<Byte>, n: seq<Byte>, used: nat, bs: seq<HeapBlocks.Block>, i: nat, total: Word)
    requires Tiled(m, used, bs) && i < |bs| && total < bs[i].size && CutBytes(m, n, bs, i, total)
    requires bs[i].size - total >= HEADER
    ensures exists cs :: Tiled(n, used, cs)
  {
    hide Tiled, HasHeader, Off;
    var o := Off(bs, i);
    Extent(m, used, bs, i);
    var k := n[o + 8 := 0];
    CutIs(m, n, k, used, bs, i, total);
    var cs := Split(bs, i, total);
    var c := cs[i].(free := n[o + 8] != 0);
    OffSame(cs, bs, i);
    Extent(k, used, cs, i);
    FlagBack(n, k, o, cs[i]);
    HeaderSet(k, n, used, cs, i, c);
  }

  lemma FlagBack(n: seq<Byte>, k: seq<Byte>, o: nat, b: HeapBlocks.Block)
    requires HasHeader(k, o, b) && |n| == |k| && k == n[o + 8 := 0]
    ensures HasHeader(n, o, b.(free := n[o + 8] != 0))
  {
    assert forall a :: o <= a < o + 8 ==> k[a] == n[a];
  }

  /** Slivers do occur: three calls lead to a heap whose first fit is one byte larger than a fourth needs. */
  lemma SliverReached()
    ensures var ops := [MallocOp(20), MallocOp(4), FreeOp(0)];
            LegalRun(EMPTY, ops) && !NoSliver(Run(EMPTY, ops).blocks, 19)
  {
    var ops := [MallocOp(20), MallocOp(4), FreeOp(0)];
    var b0, b1 := Block(32, MAGIC, false), Block(16, MAGIC, false);
    var s1 := State([b0], map[0 := 20]);
    assert [] + [b0] == [b0];
    assert Off([b0], 1) == 32;
    assert Fit([], 20, 0) == 0;
    assert Step(EMPTY, ops[0]) == s1;
    var s2 := State([b0, b1], map[0 := 20, 32 := 4]);
    assert Fit([b0], 4, 0) == 1;
    assert [b0] + [b1] == [b0, b1];
    assert Off([b0, b1], 1) == 32;
    assert Step(s1, ops[1]) == s2;
    var s3 := State([Block(32, FREED_MAGIC, true), b1], s2.asked);
    assert Step(s2, ops[2]) == s3;
    assert ops[1..] == [MallocOp(4), FreeOp(0)] && ops[1..][1..] == [FreeOp(0)] && [FreeOp(0)][1..] == [];
    assert LegalRun(s2, [FreeOp(0)]) && Run(s2, [FreeOp(0)]) == s3;
    assert LegalRun(s1, ops[1..]) && Run(s1, ops[1..]) == s3;
  }

  /** Bytes of the block a request takes, before it is cut. */
  function Taken(bs: seq<HeapBlocks.Block>, size: nat): nat {
    var f := Fit(bs, size, 0);
    if f < |bs| then bs[f].size else size + HEADER
  }
}
