/** Bytes, 512-byte blocks and the little-endian 32-bit words stored in them. */
module Bytes {

  const TWO32 := 0x1_0000_0000

  type Byte = x: int | 0 <= x < 256
  type Word = x: int | 0 <= x < 0x1_0000_0000

  type Block = b: seq<Byte> | |b| == 512 witness seq(512, _ => 0)

  const ZERO_BLOCK: Block := Zeros(512)

  function Zeros(n: nat): (s: seq<Byte>)
    ensures |s| == n && forall i :: 0 <= i < n ==> s[i] == 0
  {
    seq(n, _ => 0)
  }

  function Min(a: int, b: int): int { if a < b then a else b }

  function Max(a: int, b: int): int { if a < b then b else a }

  function CeilDiv(a: nat, b: nat): nat
    requires b > 0
  {
    (a + b - 1) / b
  }

  /** The four bytes of a word, least significant first. */
  function WordBytes(x: Word): (s: seq<Byte>)
    ensures |s| == 4
  {
    [x % 256, x / 256 % 256, x / 65536 % 256, x / 16777216]
  }

  function WordAt(s: seq<Byte>, o: nat): (x: Word)
    requires o + 4 <= |s|
  {
    s[o] as int + 256 * (s[o + 1] as int) + 65536 * (s[o + 2] as int) + 16777216 * (s[o + 3] as int)
  }

  function PutWord(s: seq<Byte>, o: nat, x: Word): (r: seq<Byte>)
    requires o + 4 <= |s|
    ensures |r| == |s|
  {
    s[o := x % 256][o + 1 := x / 256 % 256][o + 2 := x / 65536 % 256][o + 3 := x / 16777216]
  }

  /** A word survives being cut into its four bytes. */
  lemma WordRoundTrip(x: Word)
    ensures x % 256 + 256 * (x / 256 % 256) + 65536 * (x / 65536 % 256) + 16777216 * (x / 16777216) == x
  {
    assert x / 65536 == x / 256 / 256;
    assert x / 16777216 == x / 65536 / 256;
  }

  lemma WordAtPut(s: seq<Byte>, o: nat, x: Word)
    requires o + 4 <= |s|
    ensures WordAt(PutWord(s, o, x), o) == x
  {
    WordRoundTrip(x);
  }

  lemma WordAtBytes(x: Word)
    ensures WordAt(WordBytes(x), 0) == x
  {
    WordRoundTrip(x);
  }

  lemma WordAtOther(s: seq<Byte>, o: nat, x: Word, q: nat)
    requires o + 4 <= |s| && q + 4 <= |s|
    requires q + 4 <= o || o + 4 <= q
    ensures WordAt(PutWord(s, o, x), q) == WordAt(s, q)
  {
  }

  /** A block read as 128 words: the form of an indirect block. */
  function PtrAt(b: Block, j: nat): (x: Word)
    requires j < 128
  {
    WordAt(b, 4 * j)
  }

  function PutPtr(b: Block, j: nat, x: Word): (r: Block)
    requires j < 128
  {
    PutWord(b, 4 * j, x)
  }

  /** Storing one pointer changes that pointer and no other. */
  lemma PtrAtPut(b: Block, j: nat, x: Word, i: nat)
    requires j < 128 && i < 128
    ensures PtrAt(PutPtr(b, j, x), i) == if i == j then x else PtrAt(b, i)
  {
    if i == j {
      WordAtPut(b, 4 * j, x);
    } else {
      WordAtOther(b, 4 * j, x, 4 * i);
    }
  }

  lemma PtrAtZero(j: nat)
    requires j < 128
    ensures PtrAt(ZERO_BLOCK, j) == 0
  {
  }

  /** Overwrites part of a sequence, as memcpy does inside a buffer. */
  function Splice(s: seq<Byte>, o: nat, t: seq<Byte>): (r: seq<Byte>)
    requires o + |t| <= |s|
    ensures |r| == |s|
    ensures forall i :: 0 <= i < |s| ==> r[i] == if o <= i < o + |t| then t[i - o] else s[i]
  {
    s[..o] + t + s[o + |t|..]
  }
}
