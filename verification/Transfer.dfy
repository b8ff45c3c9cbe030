/** The copying loops of read and write, round by round, against the byte-sequence specification. */
module Transfer {
  import opened Bytes
  import opened Volume
  import opened BlockMap
  import opened FileData
  import opened Inodes
  import opened EmptyWrite

  /** (offset + size - 1) / 512 in 32-bit unsigned arithmetic. */
  function LastOf(offset: nat, size: nat): nat
    requires offset + size < TWO32
  {
    ((offset + size + TWO32 - 1) % TWO32) / 512
  }

  /** Where in block b a round works, and how much it moves. */
  function RoundAt(b: nat, offset: nat): nat { if b == offset / 512 then offset % 512 else 0 }

  function RoundLen(b: nat, offset: nat, left: nat): nat { Min(512 - RoundAt(b, offset), left) }

  /** The write loop from block b on, with `written` bytes already out. */
  function Rounds(v: Vol, ino: Inode, b: nat, last: nat, offset: nat, buf: seq<Byte>, written: nat): (r: Wrote)
    requires WF(v) && written <= |buf|
    ensures WF(r.v) && SameFrame(v, r.v) && written <= r.n <= |buf|
    decreases last + 1 - b
  {
    if b > last then Wrote(v, ino, written)
    else
      var g := GetBlock(v, ino, b, true);
      if g.phys < 0 then Wrote(g.v, g.ino, written)
      else
        var n := RoundLen(b, offset, |buf| - written);
        var c := Splice(Blk(g.v, g.phys), RoundAt(b, offset), buf[written..written + n]);
        Rounds(SetBlk(g.v, g.phys, c), g.ino, b + 1, last, offset, buf, written + n)
  }

  /** The loop state between two rounds of a write of at least one byte. */
  predicate InStep(b: nat, last: nat, offset: nat, size: nat, written: nat) {
    && size > 0 && written <= size && last == (offset + size - 1) / 512
    && (if written == size then b == last + 1
        else b == (offset + written) / 512 && (written > 0 ==> (offset + written) % 512 == 0 && b > offset / 512))
  }

  lemma StepArith(b: nat, last: nat, offset: nat, size: nat, written: nat)
    requires InStep(b, last, offset, size, written) && written < size
    ensures b <= last && RoundAt(b, offset) == (offset + written) % 512
    ensures var n := RoundLen(b, offset, size - written);
            && n == Min(512 - (offset + written) % 512, size - written) && n > 0
            && InStep(b + 1, last, offset, size, written + n)
  {
    var p := offset + written;
    var n := RoundLen(b, offset, size - written);
    if n == 512 - p % 512 {
      assert (p + n) % 512 == 0 && (p + n) / 512 == p / 512 + 1;
    } else {
      assert (p + n - 1) / 512 == p / 512;
    }
  }

  /** For at least one byte, the loop is the byte-sequence write. */
  lemma {:induction false} RoundsAreWrite(v: Vol, ino: Inode, b: nat, last: nat, offset: nat, buf: seq<Byte>,
        written: nat)
    requires WF(v) && InStep(b, last, offset, |buf|, written)
    ensures var r := WriteFrom(v, ino, offset + written, buf[written..]);
            Rounds(v, ino, b, last, offset, buf, written) == Wrote(r.v, r.ino, written + r.n)
    decreases |buf| - written
  {
    hide GetBlock, Blk, SetBlk, FirstChunk, RoundAt, RoundLen, Rounds, WriteFrom, AfterWrite, WF, SameFrame;
    var s := buf[written..];
    if written < |buf| {
      StepArith(b, last, offset, |buf|, written);
      RoundIsChunk(v, ino, b, last, offset, buf, written);
      var f := FirstChunk(v, ino, offset + written, s);
      WriteUnfold(v, ino, offset + written, s);
      if f.n > 0 {
        assert s[f.n..] == buf[written + f.n..];
        assert offset + written + f.n == offset + (written + f.n);
        RoundsAreWrite(f.v, f.ino, b + 1, last, offset, buf, written + f.n);
      }
    } else {
      assert s == [];
      RoundsEnd(v, ino, b, last, offset, buf);
      WriteNothing(v, ino, offset + written, Hole, 0);
    }
  }

  lemma RoundsEnd(v: Vol, ino: Inode, b: nat, last: nat, offset: nat, buf: seq<Byte>)
    requires WF(v) && InStep(b, last, offset, |buf|, |buf|)
    ensures Rounds(v, ino, b, last, offset, buf, |buf|) == Wrote(v, ino, |buf|)
  {
  }

  /** One round of the loop writes one chunk. */
  lemma RoundIsChunk(v: Vol, ino: Inode, b: nat, last: nat, offset: nat, buf: seq<Byte>, written: nat)
    requires WF(v) && InStep(b, last, offset, |buf|, written) && written < |buf|
    ensures var f := FirstChunk(v, ino, offset + written, buf[written..]);
            && (f.n == 0 || f.n == RoundLen(b, offset, |buf| - written))
            && Rounds(v, ino, b, last, offset, buf, written)
               == (if f.n == 0 then Wrote(f.v, f.ino, written)
                   else Rounds(f.v, f.ino, b + 1, last, offset, buf, written + f.n))
  {
    hide GetBlock, Blk, SetBlk;
    StepArith(b, last, offset, |buf|, written);
    var n := RoundLen(b, offset, |buf| - written);
    assert buf[written..][..n] == buf[written..written + n];
  }

  /** For zero bytes, the loop only makes sure that blocks are there. */
  lemma {:induction false} RoundsAreTouch(v: Vol, ino: Inode, b: nat, last: nat, offset: nat)
    requires WF(v)
    ensures var r := Touch(v, ino, b, last); Rounds(v, ino, b, last, offset, [], 0) == Wrote(r.v, r.ino, 0)
    decreases last + 1 - b
  {
    hide GetBlock;
    if b <= last {
      var g := GetBlock(v, ino, b, true);
      if g.phys >= 0 {
        SpliceNothing(g.v, g.phys, RoundAt(b, offset));
        RoundsAreTouch(g.v, g.ino, b + 1, last, offset);
        var none: seq<Byte> := [];
        assert none[0..0] == none;
      }
    }
  }

  lemma SpliceNothing(v: Vol, p: int, o: nat)
    requires o <= 512
    ensures SetBlk(v, p, Splice(Blk(v, p), o, [])) == v
  {
    assert Splice(Blk(v, p), o, []) == Blk(v, p);
    if InData(v, p) { assert v.data[p - v.base := Blk(v, p)] == v.data; }
  }

  lemma StepStart(offset: nat, size: nat)
    requires offset + size < TWO32 && size > 0
    ensures InStep(offset / 512, LastOf(offset, size), offset, size, 0)
  {
  }

  /** One round of the read loop. */
  lemma ReadStep(v: Vol, ino: Inode, b: nat, last: nat, offset: nat, size: nat, copied: nat)
    requires WF(v) && InStep(b, last, offset, size, copied) && copied < size
    ensures var n := RoundLen(b, offset, size - copied); var g := GetBlock(v, ino, b, false);
            var o := RoundAt(b, offset);
            && o + n <= 512
            && ReadFrom(v, ino, offset + copied, size - copied)
               == (if g.phys < 0 then []
                  else Blk(v, g.phys)[o..o + n] + ReadFrom(v, ino, offset + copied + n, size - copied - n))
  {
    hide GetBlock, Blk, ReadFrom, Lookup, ByteAt, RoundLen;
    StepArith(b, last, offset, size, copied);
    GetBlockLookup(v, ino, b);
    ReadUnfold(v, ino, offset + copied, size - copied);
  }
}
