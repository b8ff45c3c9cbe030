/** Reading and writing files: the block map behaves like one sparse sequence of bytes. */
module FileData {
  import opened Bytes
  import opened Volume
  import opened BlockMap

  /** One position of a file: a byte, or a hole where no block is mapped. */
  datatype Cell = Hole | Val(b: Byte)

  function ByteAt(v: Vol, ino: Inode, o: nat): Cell {
    var p := Lookup(v, ino, o / 512);
    if p == 0 then Hole else Val(Blk(v, p)[o % 512])
  }

  // ---------------------------------------------------------------------
  // Write

  datatype Wrote = Wrote(v: Vol, ino: Inode, n: nat)

  /** One round of the write loop: nothing is written when no block can be had. */
  function FirstChunk(v: Vol, ino: Inode, pos: nat, buf: seq<Byte>): (r: Wrote)
    requires WF(v) && buf != []
    ensures WF(r.v) && SameFrame(v, r.v) && r.n <= |buf|
  {
    var g := GetBlock(v, ino, pos / 512, true);
    if g.phys < 0 then Wrote(g.v, g.ino, 0)
    else
      var c := Min(512 - pos % 512, |buf|);
      Wrote(SetBlk(g.v, g.phys, Splice(Blk(g.v, g.phys), pos % 512, buf[..c])), g.ino, c)
  }

  /** Writes buf from byte position pos on, block by block, until done or until no block can be had. */
  function WriteFrom(v: Vol, ino: Inode, pos: nat, buf: seq<Byte>): (r: Wrote)
    requires WF(v)
    ensures WF(r.v) && SameFrame(v, r.v) && r.n <= |buf|
    decreases |buf|
  {
    if buf == [] then Wrote(v, ino, 0)
    else
      var f := FirstChunk(v, ino, pos, buf);
      if f.n == 0 then f
      else
        var r := WriteFrom(f.v, f.ino, pos + f.n, buf[f.n..]);
        Wrote(r.v, r.ino, f.n + r.n)
  }

  /** What a write of s at pos makes of the cell at position o. */
  function AfterWrite(c: Cell, o: nat, pos: nat, s: seq<Byte>): Cell {
    if pos <= o < pos + |s| then Val(s[o - pos])
    else if c.Val? then c
    else if |s| > 0 && pos / 512 <= o / 512 <= (pos + |s| - 1) / 512 then Val(0)
    else Hole
  }

  lemma AfterWriteSplit(c: Cell, o: nat, pos: nat, s: seq<Byte>, k: nat)
    requires k <= |s| && k > 0 && (k == |s| || (pos + k) % 512 == 0)
    ensures AfterWrite(AfterWrite(c, o, pos, s[..k]), o, pos + k, s[k..]) == AfterWrite(c, o, pos, s)
  {
  }

  /** Writing bytes into a data block moves no pointer. */
  lemma DataWriteGrew(v: Vol, t: seq<Inode>, n: nat, k: Key, b: Block)
    requires WF(v) && Own(v, t) && n < |t| && DataKey(k) && P(v, t[n], k) != 0
    ensures var w := SetBlk(v, P(v, t[n], k), b);
            && WF(w) && Grew(v, t, n, w, t[n]) && Own(w, t)
            && (forall m, j :: 0 <= m < |t| ==> P(w, t[m], j) == P(v, t[m], j))
            && (forall p :: p != P(v, t[n], k) ==> Blk(w, p) == Blk(v, p))
            && Blk(w, P(v, t[n], k)) == b
  {
    var w := SetBlk(v, P(v, t[n], k), b);
    assert forall p :: Used(w, p) <==> Used(v, p);
    forall m, j | 0 <= m < |t| ensures P(w, t[m], j) == P(v, t[m], j) {
      DataWritePtr(v, t, n, k, b, m, j);
    }
    hide P, Blk;
  }

  lemma DataWritePtr(v: Vol, t: seq<Inode>, n: nat, k: Key, b: Block, m: nat, j: Key)
    requires WF(v) && Own(v, t) && n < |t| && DataKey(k) && P(v, t[n], k) != 0 && m < |t|
    ensures P(SetBlk(v, P(v, t[n], k), b), t[m], j) == P(v, t[m], j)
  {
    hide Blk, SetBlk;
    var p := P(v, t[n], k);
    var w := SetBlk(v, p, b);
    forall q | q != p ensures Blk(w, q) == Blk(v, q) { OtherBlk(v, p, b, q); }
    assert P(v, t[m], Ind) == t[m].indirect && P(v, t[m], Dbl) == t[m].dbl;
    if j.Leaf? || j.DblSlot? {
      assert P(v, t[m], DblSlot(j.i)) == Sub(v, t[m].dbl, j.i);
    }
  }

  lemma OtherBlk(v: Vol, p: int, b: Block, q: int)
    requires q != p
    ensures Blk(SetBlk(v, p, b), q) == Blk(v, q)
  {
  }

  /** The blocks of file bytes of the other inodes are as they were. */
  ghost predicate OthersKept(v: Vol, t: seq<Inode>, n: nat, w: Vol) {
    forall m, k :: 0 <= m < |t| && m != n && DataKey(k) && P(v, t[m], k) != 0
        ==> Blk(w, P(v, t[m], k)) == Blk(v, P(v, t[m], k))
  }

  /** One round of the write loop. */
  lemma WriteChunk(v: Vol, t: seq<Inode>, n: nat, pos: nat, s: seq<Byte>)
    requires WF(v) && Own(v, t) && n < |t| && pos % 512 + |s| <= 512 && |s| > 0
    requires GetBlock(v, t[n], pos / 512, true).phys >= 0
    ensures var g := GetBlock(v, t[n], pos / 512, true);
            var w := SetBlk(g.v, g.phys, Splice(Blk(g.v, g.phys), pos % 512, s));
            && WF(w) && Grew(v, t, n, w, g.ino) && Own(w, t[n := g.ino]) && OthersKept(v, t, n, w)
            && (forall o: nat :: ByteAt(w, g.ino, o) == AfterWrite(ByteAt(v, t[n], o), o, pos, s))
  {
    var g := GetBlock(v, t[n], pos / 512, true);
    var u := t[n := g.ino];
    var k := LeafOf(pos / 512);
    GetBlockAlloc(v, t, n, pos / 512);
    var b := Splice(Blk(g.v, g.phys), pos % 512, s);
    var w := SetBlk(g.v, g.phys, b);
    assert P(g.v, u[n], k) == g.phys;
    DataWriteGrew(g.v, u, n, k, b);
    GrewTrans(v, t, n, g.v, g.ino, w, g.ino);
    forall m, j | 0 <= m < |t| && m != n && DataKey(j) && P(v, t[m], j) != 0
      ensures Blk(w, P(v, t[m], j)) == Blk(v, P(v, t[m], j))
    {
      assert P(g.v, u[m], j) == P(v, t[m], j);
    }
    forall o: nat ensures ByteAt(w, g.ino, o) == AfterWrite(ByteAt(v, t[n], o), o, pos, s) {
      WriteChunkByte(v, t, n, pos, s, o);
    }
  }

  /** Block l of the file before and after one round. */
  lemma WriteChunkBlock(v: Vol, t: seq<Inode>, n: nat, pos: nat, s: seq<Byte>, l: nat)
    requires WF(v) && Own(v, t) && n < |t| && pos % 512 + |s| <= 512 && |s| > 0
    requires GetBlock(v, t[n], pos / 512, true).phys >= 0
    ensures var g := GetBlock(v, t[n], pos / 512, true);
            var w := SetBlk(g.v, g.phys, Splice(Blk(g.v, g.phys), pos % 512, s));
            var p := Lookup(v, t[n], l); var q := Lookup(w, g.ino, l);
            if l == pos / 512 then q != 0 && Blk(w, q) == Splice(if p == 0 then ZERO_BLOCK else Blk(v, p), pos % 512, s)
            else q == p && (p != 0 ==> Blk(w, q) == Blk(v, p))
  {
    var g := GetBlock(v, t[n], pos / 512, true);
    var u := t[n := g.ino];
    var k := LeafOf(pos / 512);
    GetBlockAlloc(v, t, n, pos / 512);
    var b := Splice(Blk(g.v, g.phys), pos % 512, s);
    var w := SetBlk(g.v, g.phys, b);
    assert P(g.v, u[n], k) == g.phys;
    DataWriteGrew(g.v, u, n, k, b);
    if l < MAP_LIMIT {
      PathIsChain(l);
      assert P(w, u[n], LeafOf(l)) == P(g.v, u[n], LeafOf(l));
      if l != pos / 512 && LeafOf(l) == k { LeafOfInjective(l, pos / 512); }
    }
  }

  lemma SameBlock(pos: nat, n: nat, o: nat)
    requires pos % 512 + n <= 512 && n > 0
    ensures (pos + n - 1) / 512 == pos / 512
    ensures pos <= o < pos + n <==> o / 512 == pos / 512 && pos % 512 <= o % 512 < pos % 512 + n
  {
  }

  /** The cells of the edited block. */
  lemma ChunkCell(b: Block, mapped: bool, pos: nat, s: seq<Byte>, o: nat)
    requires pos % 512 + |s| <= 512 && |s| > 0 && o / 512 == pos / 512
    ensures var c := if mapped then Val(b[o % 512]) else Hole;
            Val(Splice(if mapped then b else ZERO_BLOCK, pos % 512, s)[o % 512]) == AfterWrite(c, o, pos, s)
  {
    SameBlock(pos, |s|, o);
    assert ZERO_BLOCK[o % 512] == 0;
  }

  lemma OtherCell(c: Cell, pos: nat, s: seq<Byte>, o: nat)
    requires pos % 512 + |s| <= 512 && |s| > 0 && o / 512 != pos / 512
    ensures AfterWrite(c, o, pos, s) == c
  {
    SameBlock(pos, |s|, o);
  }

  lemma WriteChunkByte(v: Vol, t: seq<Inode>, n: nat, pos: nat, s: seq<Byte>, o: nat)
    requires WF(v) && Own(v, t) && n < |t| && pos % 512 + |s| <= 512 && |s| > 0
    requires GetBlock(v, t[n], pos / 512, true).phys >= 0
    ensures var g := GetBlock(v, t[n], pos / 512, true);
            var w := SetBlk(g.v, g.phys, Splice(Blk(g.v, g.phys), pos % 512, s));
            ByteAt(w, g.ino, o) == AfterWrite(ByteAt(v, t[n], o), o, pos, s)
  {
    WriteChunkBlock(v, t, n, pos, s, o / 512);
    if o / 512 == pos / 512 {
      var p := Lookup(v, t[n], o / 512);
      ChunkCell(Blk(v, p), p != 0, pos, s, o);
    } else {
      OtherCell(ByteAt(v, t[n], o), pos, s, o);
    }
  }

  lemma OthersKeptRefl(v: Vol, t: seq<Inode>, n: nat)
    ensures OthersKept(v, t, n, v)
  {
  }

  lemma OthersKeptTrans(v: Vol, t: seq<Inode>, n: nat, w: Vol, ino: Inode, x: Vol)
    requires WF(v) && WF(w) && n < |t| && Grew(v, t, n, w, ino)
    requires OthersKept(v, t, n, w) && OthersKept(w, t[n := ino], n, x)
    ensures OthersKept(v, t, n, x)
  {
    var u := t[n := ino];
    forall m, k | 0 <= m < |t| && m != n && DataKey(k) && P(v, t[m], k) != 0
      ensures Blk(x, P(v, t[m], k)) == Blk(v, P(v, t[m], k))
    {
      assert u[m] == t[m] && P(w, u[m], k) == P(v, t[m], k);
    }
  }

  lemma WriteUnfold(v: Vol, ino: Inode, pos: nat, buf: seq<Byte>)
    requires WF(v) && buf != []
    ensures var f := FirstChunk(v, ino, pos, buf);
            && (f.n == 0 ==> WriteFrom(v, ino, pos, buf) == f)
            && (f.n > 0 ==> var r := WriteFrom(f.v, f.ino, pos + f.n, buf[f.n..]);
                            WriteFrom(v, ino, pos, buf) == Wrote(r.v, r.ino, f.n + r.n))
  {
    hide FirstChunk;
  }

  lemma WriteNothing(v: Vol, ino: Inode, pos: nat, c: Cell, o: nat)
    requires WF(v)
    ensures WriteFrom(v, ino, pos, []) == Wrote(v, ino, 0) && AfterWrite(c, o, pos, []) == c
  {
  }

  lemma FirstChunkEffect(v: Vol, t: seq<Inode>, n: nat, pos: nat, buf: seq<Byte>)
    requires WF(v) && Own(v, t) && n < |t| && buf != []
    ensures var f := FirstChunk(v, t[n], pos, buf);
            && Grew(v, t, n, f.v, f.ino) && Own(f.v, t[n := f.ino]) && OthersKept(v, t, n, f.v)
            && (f.n == |buf| || (pos + f.n) % 512 == 0 || f.n == 0)
            && (forall o: nat :: ByteAt(f.v, f.ino, o) == AfterWrite(ByteAt(v, t[n], o), o, pos, buf[..f.n]))
            && (f.n == 0 ==> (pos / 512 >= MAP_LIMIT || Full(f.v)) && ByteAt(f.v, f.ino, pos) == Hole)
  {
    if GetBlock(v, t[n], pos / 512, true).phys < 0 {
      WriteNone(v, t, n, pos, buf);
    } else {
      WriteChunk(v, t, n, pos, buf[..Min(512 - pos % 512, |buf|)]);
    }
  }

  /** A write keeps ownership, only grows the pointer map, and leaves other files' blocks alone. */
  lemma {:induction false} WriteKeeps(v: Vol, t: seq<Inode>, n: nat, pos: nat, buf: seq<Byte>)
    requires WF(v) && Own(v, t) && n < |t|
    ensures var r := WriteFrom(v, t[n], pos, buf);
            Grew(v, t, n, r.v, r.ino) && Own(r.v, t[n := r.ino]) && OthersKept(v, t, n, r.v)
    decreases |buf|
  {
    hide *;
    var r := WriteFrom(v, t[n], pos, buf);
    if buf == [] {
      WriteNothing(v, t[n], pos, Hole, 0);
      GrewRefl(v, t, n);
      OthersKeptRefl(v, t, n);
      assert t[n := t[n]] == t;
    } else {
      var f := FirstChunk(v, t[n], pos, buf);
      WriteUnfold(v, t[n], pos, buf);
      FirstChunkEffect(v, t, n, pos, buf);
      if f.n > 0 {
        var u := t[n := f.ino];
        WriteKeeps(f.v, u, n, pos + f.n, buf[f.n..]);
        assert u[n := r.ino] == t[n := r.ino];
        GrewTrans(v, t, n, f.v, f.ino, r.v, r.ino);
        OthersKeptTrans(v, t, n, f.v, f.ino, r.v);
      }
    }
  }

  /**
   * A write through all three tiers is an update of the byte sequence: the first r.n bytes of buf land at
   * pos, every other byte that existed is unchanged, and the rest of a fresh block is zero.
   */
  lemma {:induction false} WriteBytes(v: Vol, t: seq<Inode>, n: nat, pos: nat, buf: seq<Byte>, o: nat)
    requires WF(v) && Own(v, t) && n < |t|
    ensures var r := WriteFrom(v, t[n], pos, buf);
            ByteAt(r.v, r.ino, o) == AfterWrite(ByteAt(v, t[n], o), o, pos, buf[..r.n])
    decreases |buf|
  {
    hide *;
    var r := WriteFrom(v, t[n], pos, buf);
    if buf == [] {
      WriteNothing(v, t[n], pos, ByteAt(v, t[n], o), o);
      assert buf[..r.n] == [];
    } else {
      var f := FirstChunk(v, t[n], pos, buf);
      WriteUnfold(v, t[n], pos, buf);
      FirstChunkEffect(v, t, n, pos, buf);
      if f.n > 0 {
        WriteBytes(f.v, t[n := f.ino], n, pos + f.n, buf[f.n..], o);
        var done := buf[..r.n];
        assert buf[f.n..][..r.n - f.n] == done[f.n..] && buf[..f.n] == done[..f.n];
        AfterWriteSplit(ByteAt(v, t[n], o), o, pos, done, f.n);
      }
    }
  }

  /** A write is short only at the end of the map or on a full volume, and stops at a hole. */
  lemma {:induction false} WriteStops(v: Vol, t: seq<Inode>, n: nat, pos: nat, buf: seq<Byte>)
    requires WF(v) && Own(v, t) && n < |t|
    requires WriteFrom(v, t[n], pos, buf).n < |buf|
    ensures var r := WriteFrom(v, t[n], pos, buf);
            ((pos + r.n) / 512 >= MAP_LIMIT || Full(r.v)) && ByteAt(r.v, r.ino, pos + r.n) == Hole
    decreases |buf|
  {
    hide *;
    var f := FirstChunk(v, t[n], pos, buf);
    WriteUnfold(v, t[n], pos, buf);
    FirstChunkEffect(v, t, n, pos, buf);
    if f.n > 0 {
      WriteStops(f.v, t[n := f.ino], n, pos + f.n, buf[f.n..]);
    }
  }

  lemma WriteNone(v: Vol, t: seq<Inode>, n: nat, pos: nat, buf: seq<Byte>)
    requires WF(v) && Own(v, t) && n < |t| && buf != []
    requires GetBlock(v, t[n], pos / 512, true).phys < 0
    ensures var r := WriteFrom(v, t[n], pos, buf);
            && Grew(v, t, n, r.v, r.ino) && Own(r.v, t[n := r.ino]) && OthersKept(v, t, n, r.v) && r.n == 0
            && (forall o: nat :: ByteAt(r.v, r.ino, o) == ByteAt(v, t[n], o))
            && (pos / 512 >= MAP_LIMIT || Full(r.v)) && ByteAt(r.v, r.ino, pos) == Hole
  {
    GetBlockAlloc(v, t, n, pos / 512);
    var g := GetBlock(v, t[n], pos / 512, true);
    forall o: nat ensures ByteAt(g.v, g.ino, o) == ByteAt(v, t[n], o) {
      var l := o / 512;
      assert Lookup(g.v, g.ino, l) == Lookup(v, t[n], l);
      if l < MAP_LIMIT { PathIsChain(l); }
    }
  }

  // ---------------------------------------------------------------------
  // Read

  /** Reads up to n bytes from pos on, stopping at the first block that is not mapped. */
  function ReadFrom(v: Vol, ino: Inode, pos: nat, n: nat): (r: seq<Byte>)
    requires WF(v)
    ensures |r| <= n
    decreases n
  {
    if n == 0 then []
    else
      var g := GetBlock(v, ino, pos / 512, false);
      if g.phys < 0 then []
      else
        var c := Min(512 - pos % 512, n);
        Blk(v, g.phys)[pos % 512..pos % 512 + c] + ReadFrom(v, ino, pos + c, n - c)
  }

  lemma ReadUnfold(v: Vol, ino: Inode, pos: nat, n: nat)
    requires WF(v) && n > 0
    ensures var p := Lookup(v, ino, pos / 512); var c := Min(512 - pos % 512, n);
            && 0 < c <= n
            && ReadFrom(v, ino, pos, n)
               == (if p == 0 then [] else Blk(v, p)[pos % 512..pos % 512 + c] + ReadFrom(v, ino, pos + c, n - c))
            && (p == 0 ==> ByteAt(v, ino, pos) == Hole)
  {
    GetBlockLookup(v, ino, pos / 512);
  }

  lemma ReadChunk(v: Vol, ino: Inode, pos: nat, n: nat, i: nat)
    requires WF(v) && pos % 512 + n <= 512 && i < n && Lookup(v, ino, pos / 512) != 0
    ensures ByteAt(v, ino, pos + i) == Val(Blk(v, Lookup(v, ino, pos / 512))[pos % 512..pos % 512 + n][i])
  {
    SameBlock(pos, n, pos + i);
  }

  /** A read returns the longest hole-free prefix of the range asked for. */
  lemma {:induction false} ReadIsPrefix(v: Vol, ino: Inode, pos: nat, n: nat)
    requires WF(v)
    ensures var r := ReadFrom(v, ino, pos, n);
            && (forall i :: 0 <= i < |r| ==> ByteAt(v, ino, pos + i) == Val(r[i]))
            && (|r| < n ==> ByteAt(v, ino, pos + |r|) == Hole)
    decreases n
  {
    hide Lookup, ByteAt, ReadFrom, Blk, WF;
    var p := Lookup(v, ino, pos / 512);
    if n > 0 {
      ReadUnfold(v, ino, pos, n);
      if p != 0 {
        var c := Min(512 - pos % 512, n);
        ReadIsPrefix(v, ino, pos + c, n - c);
        var s := Blk(v, p)[pos % 512..pos % 512 + c];
        var tail := ReadFrom(v, ino, pos + c, n - c);
        forall i | 0 <= i < |s + tail| ensures ByteAt(v, ino, pos + i) == Val((s + tail)[i]) {
          if i < c {
            ReadChunk(v, ino, pos, c, i);
          } else {
            assert ByteAt(v, ino, pos + c + (i - c)) == Val(tail[i - c]);
            assert pos + c + (i - c) == pos + i;
          }
        }
      }
    }
  }

  // ---------------------------------------------------------------------
  // Isolation

  /** Seen through inode a, the volumes v and w are the same: same pointers, same file blocks. */
  ghost predicate Undisturbed(v: Vol, w: Vol, a: Inode) {
    forall k :: P(w, a, k) == P(v, a, k) && (DataKey(k) && P(v, a, k) != 0 ==> Blk(w, P(v, a, k)) == Blk(v, P(v, a, k)))
  }

  lemma UndisturbedBytes(v: Vol, w: Vol, a: Inode, o: nat)
    requires Undisturbed(v, w, a)
    ensures ByteAt(w, a, o) == ByteAt(v, a, o)
    ensures Lookup(w, a, o) == Lookup(v, a, o)
  {
    if o / 512 < MAP_LIMIT { PathIsChain(o / 512); }
  }

  lemma UndisturbedTrans(v: Vol, w: Vol, x: Vol, a: Inode)
    requires Undisturbed(v, w, a) && Undisturbed(w, x, a)
    ensures Undisturbed(v, x, a)
  {
  }

  /** Growth steps and data writes on inode n do not disturb the others. */
  lemma GrewUndisturbed(v: Vol, t: seq<Inode>, n: nat, w: Vol, ino: Inode, m: nat)
    requires WF(v) && n < |t| && m < |t| && m != n && Grew(v, t, n, w, ino) && OthersKept(v, t, n, w)
    ensures Undisturbed(v, w, t[m])
  {
  }
}
