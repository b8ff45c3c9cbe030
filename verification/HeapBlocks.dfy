/** The kernel heap as a list of blocks, and what every run of allocations and releases keeps. */
module HeapBlocks {
  import opened Bytes

  const HEAP_SIZE := 0x400_0000
  const HEADER := 12
  const MAGIC: Word := 0xDEAD_BEEF
  const FREED_MAGIC: Word := 0xDEAD_C0DE

  /** Requests up to this size cannot wrap a 32-bit sum with the header and the space in use. */
  const MAX_REQUEST := TWO32 - HEADER - HEAP_SIZE

  /** A block header; the size counts the header too. */
  datatype Block = Block(size: Word, magic: Word, free: bool)

  /** Where block i starts. */
  function Off(bs: seq<Block>, i: nat): (o: nat)
    requires i <= |bs|
  {
    if i == 0 then 0 else Off(bs, i - 1) + bs[i - 1].size
  }

  function End(bs: seq<Block>): nat { Off(bs, |bs|) }

  ghost predicate Boundary(bs: seq<Block>, o: nat) { exists i :: 0 <= i < |bs| && Off(bs, i) == o }

  predicate Fits(b: Block, size: nat) { b.free && b.size >= size + HEADER }

  /** The first free block at or after i with room for the request, or |bs|. */
  function Fit(bs: seq<Block>, size: nat, i: nat): (r: nat)
    requires i <= |bs|
    ensures i <= r <= |bs|
    ensures forall j :: i <= j < r ==> !Fits(bs[j], size)
    ensures r < |bs| ==> Fits(bs[r], size)
    decreases |bs| - i
  {
    if i == |bs| || Fits(bs[i], size) then i else Fit(bs, size, i + 1)
  }

  /** Block i cut to total bytes; the rest becomes a free block of its own. */
  function Split(bs: seq<Block>, i: nat, total: Word): seq<Block>
    requires i < |bs| && total < bs[i].size
  {
    bs[..i] + [bs[i].(size := total, free := false), Block(bs[i].size - total, MAGIC, true)] + bs[i + 1..]
  }

  datatype Got = NoMemory | Got(blocks: seq<Block>, i: nat)

  /** kmalloc: the blocks afterwards and the index of the block handed out. */
  function Malloc(bs: seq<Block>, size: nat): (r: Got)
    requires size <= MAX_REQUEST
    ensures r.Got? ==> r.i < |r.blocks|
  {
    var i := Fit(bs, size, 0);
    if size == 0 then NoMemory
    else if i == |bs| then
      if End(bs) + size + HEADER >= HEAP_SIZE then NoMemory else Got(bs + [Block(size + HEADER, MAGIC, false)], i)
    else if bs[i].size > size + HEADER then Got(Split(bs, i, size + HEADER), i)
    else Got(bs[i := bs[i].(free := false)], i)
  }

  predicate Releasable(b: Block) { b.magic == MAGIC && !b.free }

  /** kfree of the block that starts at o. */
  function Free(bs: seq<Block>, o: nat): (r: seq<Block>)
    ensures |r| == |bs|
  {
    seq(|bs|, j requires 0 <= j < |bs| =>
      if Off(bs, j) == o && Releasable(bs[j]) then bs[j].(free := true, magic := FREED_MAGIC) else bs[j])
  }

  // ---------------------------------------------------------------------
  // Offsets

  lemma {:induction false} OffSame(a: seq<Block>, b: seq<Block>, i: nat)
    requires i <= |a| && i <= |b| && forall j :: 0 <= j < i ==> a[j].size == b[j].size
    ensures Off(a, i) == Off(b, i)
    decreases i
  {
    if i > 0 { OffSame(a, b, i - 1); }
  }

  /** Behind a block that was cut in two, every offset is as before. */
  lemma {:induction false} OffSplit(bs: seq<Block>, i: nat, total: Word, j: nat)
    requires i < |bs| && total < bs[i].size && i + 2 <= j <= |bs| + 1
    ensures Off(Split(bs, i, total), j) == Off(bs, j - 1)
    decreases j
  {
    var r := Split(bs, i, total);
    if j == i + 2 {
      OffSame(r, bs, i);
      assert Off(r, i + 1) == Off(r, i) + r[i].size;
    } else {
      OffSplit(bs, i, total, j - 1);
      assert r[j - 1] == bs[j - 2];
    }
  }

  lemma {:induction false} OffGrows(bs: seq<Block>, i: nat, j: nat)
    requires i <= j <= |bs|
    ensures Off(bs, i) <= Off(bs, j)
    ensures (forall k :: 0 <= k < |bs| ==> bs[k].size >= HEADER) && i < j ==> Off(bs, i) + bs[i].size <= Off(bs, j)
    ensures (forall k :: 0 <= k < |bs| ==> bs[k].size >= HEADER) && i < j ==> Off(bs, i) + HEADER <= Off(bs, j)
    decreases j
  {
    if i < j { OffGrows(bs, i, j - 1); }
  }

  // ---------------------------------------------------------------------
  // Runs

  /** The heap, and the size last asked for at each place ever handed out. */
  datatype State = State(blocks: seq<Block>, asked: map<nat, nat>)

  const EMPTY := State([], map[])

  datatype Op = MallocOp(size: nat) | FreeOp(o: nat)

  /** Cutting the first fit leaves nothing, or room for another header. */
  ghost predicate NoSliver(bs: seq<Block>, size: nat) {
    var i := Fit(bs, size, 0);
    i < |bs| ==> bs[i].size == size + HEADER || bs[i].size >= size + 2 * HEADER
  }

  /** Requests are bounded and leave no sliver; only what was handed out is released, possibly more than once. */
  ghost predicate Legal(s: State, op: Op) {
    match op
    case MallocOp(size) => size <= MAX_REQUEST && NoSliver(s.blocks, size)
    case FreeOp(o) => o in s.asked
  }

  function Step(s: State, op: Op): State
    requires op.MallocOp? ==> op.size <= MAX_REQUEST
  {
    match op
    case MallocOp(size) =>
      var g := Malloc(s.blocks, size);
      if g.NoMemory? then s else State(g.blocks, s.asked[Off(g.blocks, g.i) := size])
    case FreeOp(o) => State(Free(s.blocks, o), s.asked)
  }

  /** The blocks tile the used part of the heap, and every allocated block was handed out and is large enough. */
  ghost predicate HeapInv(s: State) {
    && End(s.blocks) < HEAP_SIZE
    && (forall i :: 0 <= i < |s.blocks| ==> GoodBlock(s, i))
    && (forall o :: o in s.asked ==> Boundary(s.blocks, o))
  }

  ghost predicate GoodBlock(s: State, i: nat)
    requires i < |s.blocks|
  {
    var b, o := s.blocks[i], Off(s.blocks, i);
    && b.size >= HEADER && (b.magic == MAGIC || b.magic == FREED_MAGIC)
    && (!b.free ==> o in s.asked && b.size >= s.asked[o] + HEADER && s.asked[o] > 0)
  }

  // ---------------------------------------------------------------------
  // One step

  lemma UniqueOff(bs: seq<Block>, i: nat, j: nat)
    requires i < |bs| && j < |bs| && Off(bs, i) == Off(bs, j)
    requires forall k :: 0 <= k < |bs| ==> bs[k].size >= HEADER
    ensures i == j
  {
    if i < j { OffGrows(bs, i, j); }
    if j < i { OffGrows(bs, j, i); }
  }

  /** Releasing touches at most the one block that starts there. */
  lemma FreeIs(bs: seq<Block>, i: nat)
    requires i < |bs| && forall k :: 0 <= k < |bs| ==> bs[k].size >= HEADER
    ensures Free(bs, Off(bs, i)) == if Releasable(bs[i]) then bs[i := bs[i].(free := true, magic := FREED_MAGIC)]
            else bs
  {
    forall j | 0 <= j < |bs| && j != i ensures Off(bs, j) != Off(bs, i) {
      if Off(bs, j) == Off(bs, i) { UniqueOff(bs, i, j); }
    }
  }

  /** The block b starts at offset o. */
  ghost predicate At(bs: seq<Block>, o: nat, b: Block) { exists i :: 0 <= i < |bs| && Off(bs, i) == o && bs[i] == b }

  /** What a step may do to a block: allocated blocks change by their own release only; a freed mark is for ever. */
  ghost predicate After(op: Op, o: nat, b: Block, c: Block) {
    && (b.magic == FREED_MAGIC ==> c.magic == FREED_MAGIC)
    && (!b.free && (op != FreeOp(o) || b.magic == FREED_MAGIC) ==> c == b)
    && (op == FreeOp(o) && Releasable(b) ==> c == b.(free := true, magic := FREED_MAGIC))
    && c.size <= b.size
  }

  lemma MallocAt(bs: seq<Block>, size: nat, i: nat) returns (j: nat)
    requires size <= MAX_REQUEST && Malloc(bs, size).Got? && i < |bs|
    ensures var g := Malloc(bs, size);
            && j < |g.blocks| && Off(g.blocks, j) == Off(bs, i) && After(MallocOp(size), Off(bs, i), bs[i], g.blocks[j])
            && g.blocks[j].magic == bs[i].magic
  {
    var f := Fit(bs, size, 0);
    var rs := Malloc(bs, size).blocks;
    if i <= f {
      j := i;
      OffSame(rs, bs, i);
    } else if bs[f].size > size + HEADER {
      j := i + 1;
      OffSplit(bs, f, size + HEADER, j);
    } else {
      j := i;
      OffSame(rs, bs, i);
    }
  }

  /** Every block boundary outlives every step. */
  lemma StepAt(s: State, op: Op, o: nat, b: Block) returns (c: Block)
    requires HeapInv(s) && Legal(s, op) && At(s.blocks, o, b)
    ensures At(Step(s, op).blocks, o, c) && After(op, o, b, c)
  {
    var bs := s.blocks;
    var i :| 0 <= i < |bs| && Off(bs, i) == o && bs[i] == b;
    var rs := Step(s, op).blocks;
    match op
    case MallocOp(size) =>
      c := b;
      if Malloc(bs, size).Got? {
        var j := MallocAt(bs, size, i);
        c := rs[j];
      }
    case FreeOp(p) =>
      c := rs[i];
      OffSame(rs, bs, i);
  }

  lemma StepKeeps(s: State, op: Op)
    requires HeapInv(s) && Legal(s, op)
    ensures HeapInv(Step(s, op))
  {
    match op
    case MallocOp(size) => if Malloc(s.blocks, size).Got? { MallocKeeps(s, size); }
    case FreeOp(p) => FreeKeeps(s, p);
  }

  lemma FreeKeeps(s: State, p: nat)
    requires HeapInv(s)
    ensures HeapInv(Step(s, FreeOp(p)))
  {
    var bs := s.blocks;
    var r := Step(s, FreeOp(p));
    OffSame(r.blocks, bs, |bs|);
    forall i | 0 <= i < |bs| ensures Off(r.blocks, i) == Off(bs, i) && GoodBlock(r, i) {
      OffSame(r.blocks, bs, i);
      assert GoodBlock(s, i);
    }
    forall o | o in r.asked ensures Boundary(r.blocks, o) {
      assert Boundary(bs, o);
    }
  }

  /** The end of the heap moves only when no free block fits. */
  lemma MallocEnd(bs: seq<Block>, size: nat)
    requires size <= MAX_REQUEST && Malloc(bs, size).Got?
    ensures var f := Fit(bs, size, 0);
            End(Malloc(bs, size).blocks) == if f == |bs| then End(bs) + size + HEADER else End(bs)
  {
    var f := Fit(bs, size, 0);
    var rs := Malloc(bs, size).blocks;
    if f == |bs| {
      OffSame(rs, bs, |bs|);
    } else if bs[f].size > size + HEADER {
      OffSplit(bs, f, size + HEADER, |bs| + 1);
    } else {
      OffSame(rs, bs, |bs|);
    }
  }

  lemma MallocKeeps(s: State, size: nat)
    requires HeapInv(s) && Legal(s, MallocOp(size)) && Malloc(s.blocks, size).Got?
    ensures HeapInv(Step(s, MallocOp(size)))
  {
    var bs := s.blocks;
    var g := Malloc(bs, size);
    var r := Step(s, MallocOp(size));
    var f := Fit(bs, size, 0);
    MallocEnd(bs, size);
    forall j | 0 <= j < |g.blocks| ensures GoodBlock(r, j) { MallocGood(s, size, j); }
    forall o | o in r.asked ensures Boundary(r.blocks, o) {
      if o in s.asked {
        assert Boundary(bs, o);
        var i :| 0 <= i < |bs| && Off(bs, i) == o;
        var j := MallocAt(bs, size, i);
      }
    }
  }

  predicate Cuts(bs: seq<Block>, size: nat) {
    var f := Fit(bs, size, 0);
    f < |bs| && bs[f].size > size + HEADER
  }

  /** Blocks that were not handed out or cut off now are old blocks, elsewhere than the one handed out. */
  lemma MallocOther(bs: seq<Block>, size: nat, j: nat) returns (k: nat)
    requires size <= MAX_REQUEST && Malloc(bs, size).Got? && j < |Malloc(bs, size).blocks|
    requires forall k :: 0 <= k < |bs| ==> bs[k].size >= HEADER
    requires j != Fit(bs, size, 0) && (Cuts(bs, size) ==> j != Fit(bs, size, 0) + 1)
    ensures var g := Malloc(bs, size);
            k < |bs| && g.blocks[j] == bs[k] && Off(g.blocks, j) == Off(bs, k) && Off(bs, k) != Off(g.blocks, g.i)
  {
    var g := Malloc(bs, size);
    var f := Fit(bs, size, 0);
    OffSame(g.blocks, bs, f);
    k := if Cuts(bs, size) && j > f then j - 1 else j;
    if j < f {
      OffSame(g.blocks, bs, j);
      OffGrows(bs, j, f);
    } else {
      OffGrows(bs, f, k);
      if Cuts(bs, size) { OffSplit(bs, f, size + HEADER, j); } else { OffSame(g.blocks, bs, j); }
    }
  }

  lemma MallocGood(s: State, size: nat, j: nat)
    requires HeapInv(s) && Legal(s, MallocOp(size)) && Malloc(s.blocks, size).Got?
             && j < |Malloc(s.blocks, size).blocks|
    ensures GoodBlock(Step(s, MallocOp(size)), j)
  {
    hide Off, Fit;
    var bs := s.blocks;
    var g := Malloc(bs, size);
    var f := Fit(bs, size, 0);
    forall k | 0 <= k < |bs| ensures bs[k].size >= HEADER { assert GoodBlock(s, k); }
    if j == f {
      if f < |bs| { assert GoodBlock(s, f); }
    } else if !(Cuts(bs, size) && j == f + 1) {
      var k := MallocOther(bs, size, j);
      assert GoodBlock(s, k);
    }
  }

  // ---------------------------------------------------------------------
  // Every run between two initialisations

  ghost predicate LegalRun(s: State, ops: seq<Op>)
    decreases |ops|
  {
    ops == [] || (Legal(s, ops[0]) && LegalRun(Step(s, ops[0]), ops[1..]))
  }

  ghost function Run(s: State, ops: seq<Op>): State
    requires LegalRun(s, ops)
    decreases |ops|
  {
    if ops == [] then s else Run(Step(s, ops[0]), ops[1..])
  }

  /** The tiling survives every run. */
  lemma {:induction false} RunKeeps(s: State, ops: seq<Op>)
    requires HeapInv(s) && LegalRun(s, ops)
    ensures HeapInv(Run(s, ops))
    decreases |ops|
  {
    if ops != [] {
      StepKeeps(s, ops[0]);
      RunKeeps(Step(s, ops[0]), ops[1..]);
    }
  }

  /**
   * A block boundary never disappears; a block once released carries its mark for ever, so that when it is handed
   * out again no run gives it back; and an allocated block nobody releases is the same block at the end.
   */
  lemma {:induction false} RunAt(s: State, ops: seq<Op>, o: nat, b: Block) returns (c: Block)
    requires HeapInv(s) && LegalRun(s, ops) && At(s.blocks, o, b)
    ensures At(Run(s, ops).blocks, o, c) && c.size <= b.size
    ensures b.magic == FREED_MAGIC ==> c.magic == FREED_MAGIC
    ensures !b.free && (b.magic == FREED_MAGIC || FreeOp(o) !in ops) ==> c == b
    decreases |ops|
  {
    c := b;
    if ops != [] {
      var d := StepAt(s, ops[0], o, b);
      StepKeeps(s, ops[0]);
      assert FreeOp(o) !in ops ==> ops[0] != FreeOp(o) && FreeOp(o) !in ops[1..];
      c := RunAt(Step(s, ops[0]), ops[1..], o, d);
    }
  }

  /** Two allocated blocks never overlap, and each holds what was asked for. */
  lemma LiveDisjoint(s: State, i: nat, j: nat)
    requires HeapInv(s) && i < |s.blocks| && j < |s.blocks| && i != j && !s.blocks[i].free && !s.blocks[j].free
    ensures var p, q := Off(s.blocks, i), Off(s.blocks, j);
            && p in s.asked && q in s.asked
            && (p + HEADER + s.asked[p] <= q || q + HEADER + s.asked[q] <= p)
            && p + HEADER + s.asked[p] <= End(s.blocks) < HEAP_SIZE
  {
    forall k | 0 <= k < |s.blocks| ensures s.blocks[k].size >= HEADER { assert GoodBlock(s, k); }
    assert GoodBlock(s, i) && GoodBlock(s, j);
    if i < j { OffGrows(s.blocks, i, j); } else { OffGrows(s.blocks, j, i); }
    OffGrows(s.blocks, i, |s.blocks|);
  }

  // ---------------------------------------------------------------------
  // Releases that take effect

  function FreedCount(bs: seq<Block>): (n: nat)
    ensures n <= |bs|
  {
    if bs == [] then 0 else FreedCount(bs[..|bs| - 1]) + if bs[|bs| - 1].magic == FREED_MAGIC then 1 else 0
  }

  lemma {:induction false} FreedCat(a: seq<Block>, b: seq<Block>)
    ensures FreedCount(a + b) == FreedCount(a) + FreedCount(b)
    decreases |b|
  {
    if b == [] {
      assert a + b == a;
    } else {
      assert (a + b)[..|a + b| - 1] == a + b[..|b| - 1];
      FreedCat(a, b[..|b| - 1]);
    }
  }

  lemma FreedReplace(bs: seq<Block>, i: nat, cs: seq<Block>)
    requires i < |bs|
    ensures FreedCount(bs[..i] + cs + bs[i + 1..])
            == FreedCount(bs) - (if bs[i].magic == FREED_MAGIC then 1 else 0) + FreedCount(cs)
  {
    FreedCat(bs[..i] + cs, bs[i + 1..]);
    FreedCat(bs[..i], cs);
    FreedCat(bs[..i] + [bs[i]], bs[i + 1..]);
    FreedCat(bs[..i], [bs[i]]);
    assert bs[..i] + [bs[i]] + bs[i + 1..] == bs;
    assert [bs[i]][..0] == [];
  }

  /** A release that takes effect. */
  ghost predicate Effective(s: State, op: Op) { op.FreeOp? && exists b :: At(s.blocks, op.o, b) && Releasable(b) }

  /** How many releases of the run take effect. */
  ghost function Releases(s: State, ops: seq<Op>): nat
    requires LegalRun(s, ops)
    decreases |ops|
  {
    if ops == [] then 0 else (if Effective(s, ops[0]) then 1 else 0) + Releases(Step(s, ops[0]), ops[1..])
  }

  /** How many of them are releases of the block at o. */
  ghost function ReleasesAt(s: State, ops: seq<Op>, o: nat): nat
    requires LegalRun(s, ops)
    decreases |ops|
  {
    if ops == [] then 0
    else (if ops[0] == FreeOp(o) && Effective(s, ops[0]) then 1 else 0) + ReleasesAt(Step(s, ops[0]), ops[1..], o)
  }

  /** How many blocks the run makes, by extending the heap or by cutting. */
  ghost function Makes(s: State, ops: seq<Op>): nat
    requires LegalRun(s, ops)
    decreases |ops|
  {
    if ops == [] then 0
    else (if |Step(s, ops[0]).blocks| != |s.blocks| then 1 else 0) + Makes(Step(s, ops[0]), ops[1..])
  }

  lemma StepCounts(s: State, op: Op)
    requires HeapInv(s) && Legal(s, op)
    ensures FreedCount(Step(s, op).blocks) == FreedCount(s.blocks) + if Effective(s, op) then 1 else 0
    ensures |s.blocks| <= |Step(s, op).blocks| <= |s.blocks| + 1
  {
    hide FreedCount, Fit, Off;
    var bs := s.blocks;
    match op
    case MallocOp(size) =>
      if Malloc(bs, size).Got? { MallocCounts(bs, size); }
    case FreeOp(o) =>
      assert Boundary(bs, o);
      var i :| 0 <= i < |bs| && Off(bs, i) == o;
      forall k | 0 <= k < |bs| ensures bs[k].size >= HEADER { assert GoodBlock(s, k); }
      FreeIs(bs, i);
      assert At(bs, o, bs[i]);
      forall b | At(bs, o, b) ensures b == bs[i] { OneBlock(bs, i, b); }
      FreedSet(bs, i, bs[i].(free := true, magic := FREED_MAGIC));
  }

  lemma OneBlock(bs: seq<Block>, i: nat, b: Block)
    requires i < |bs| && At(bs, Off(bs, i), b) && forall k :: 0 <= k < |bs| ==> bs[k].size >= HEADER
    ensures b == bs[i]
  {
    var j :| 0 <= j < |bs| && Off(bs, j) == Off(bs, i) && bs[j] == b;
    UniqueOff(bs, i, j);
  }

  lemma MallocCounts(bs: seq<Block>, size: nat)
    requires size <= MAX_REQUEST && Malloc(bs, size).Got?
    ensures FreedCount(Malloc(bs, size).blocks) == FreedCount(bs)
  {
    hide FreedCount, Fit, Off;
    var f := Fit(bs, size, 0);
    if f == |bs| {
      FreedOne(Block(size + HEADER, MAGIC, false));
      FreedCat(bs, [Block(size + HEADER, MAGIC, false)]);
    } else if bs[f].size > size + HEADER {
      var b, c := bs[f].(size := size + HEADER, free := false), Block(bs[f].size - (size + HEADER), MAGIC, true);
      FreedReplace(bs, f, [b, c]);
      FreedOne(b);
      FreedOne(c);
      FreedCat([b], [c]);
      assert [b, c] == [b] + [c];
    } else {
      FreedSet(bs, f, bs[f].(free := false));
    }
  }

  lemma FreedOne(b: Block)
    ensures FreedCount([b]) == if b.magic == FREED_MAGIC then 1 else 0
  {
    assert [b][..0] == [];
  }

  lemma FreedSet(bs: seq<Block>, i: nat, b: Block)
    requires i < |bs|
    ensures FreedCount(bs[i := b])
            == FreedCount(bs) + (if b.magic == FREED_MAGIC then 1 else 0) - (if bs[i].magic == FREED_MAGIC then 1
               else 0)
  {
    hide FreedCount;
    FreedReplace(bs, i, [b]);
    FreedOne(b);
    assert bs[i := b] == bs[..i] + [b] + bs[i + 1..];
  }

  /** Releases that take effect never outnumber the blocks there are: each leaves its mark on a block of its own. */
  lemma {:induction false} RunCounts(s: State, ops: seq<Op>)
    requires HeapInv(s) && LegalRun(s, ops)
    ensures FreedCount(Run(s, ops).blocks) == FreedCount(s.blocks) + Releases(s, ops)
    ensures |Run(s, ops).blocks| == |s.blocks| + Makes(s, ops)
    ensures s == EMPTY ==> Releases(s, ops) <= Makes(s, ops)
    decreases |ops|
  {
    if ops != [] {
      StepKeeps(s, ops[0]);
      StepCounts(s, ops[0]);
      RunCounts(Step(s, ops[0]), ops[1..]);
    }
  }

  /** Each block is released at most once, however often the caller asks. */
  lemma {:induction false} ReleasedOnce(s: State, ops: seq<Op>, o: nat)
    requires HeapInv(s) && LegalRun(s, ops)
    ensures ReleasesAt(s, ops, o) <= 1
    ensures (exists b :: At(s.blocks, o, b) && b.magic == FREED_MAGIC) ==> ReleasesAt(s, ops, o) == 0
    decreases |ops|
  {
    if ops != [] {
      var r := Step(s, ops[0]);
      StepKeeps(s, ops[0]);
      ReleasedOnce(r, ops[1..], o);
      if b :| At(s.blocks, o, b) && b.magic == FREED_MAGIC {
        var c := StepAt(s, ops[0], o, b);
        forall d | At(s.blocks, o, d) ensures d == b { AtOne(s, o, b, d); }
      }
      if ops[0] == FreeOp(o) && Effective(s, ops[0]) {
        var b :| At(s.blocks, o, b) && Releasable(b);
        var c := StepAt(s, ops[0], o, b);
      }
    }
  }

  lemma AtOne(s: State, o: nat, b: Block, c: Block)
    requires HeapInv(s) && At(s.blocks, o, b) && At(s.blocks, o, c)
    ensures b == c
  {
    forall k | 0 <= k < |s.blocks| ensures s.blocks[k].size >= HEADER { assert GoodBlock(s, k); }
    var i :| 0 <= i < |s.blocks| && Off(s.blocks, i) == o && s.blocks[i] == b;
    OneBlock(s.blocks, i, c);
  }

  // ---------------------------------------------------------------------
  // When no sliver is left

  ghost predicate AllTwelves(bs: seq<Block>) { forall i :: 0 <= i < |bs| ==> bs[i].size % 12 == 0 }

  /** Requests in multiples of twelve never leave a sliver. */
  lemma {:induction false} TwelvesLegal(s: State, ops: seq<Op>)
    requires HeapInv(s) && AllTwelves(s.blocks)
    requires forall i :: 0 <= i < |ops| && ops[i].MallocOp? ==> ops[i].size <= MAX_REQUEST && ops[i].size % 12 == 0
    requires FreesHandedOut(s, ops)
    ensures LegalRun(s, ops)
    decreases |ops|
  {
    hide HeapInv, AllTwelves, NoSliver, Step;
    if ops != [] {
      var r := Step(s, ops[0]);
      if ops[0].MallocOp? { TwelvesFit(s.blocks, ops[0].size); }
      StepKeeps(s, ops[0]);
      TwelvesStep(s, ops[0]);
      assert forall i :: 0 <= i < |ops[1..]| ==> ops[1..][i] == ops[i + 1];
      TwelvesLegal(r, ops[1..]);
    }
  }

  lemma TwelvesStep(s: State, op: Op)
    requires AllTwelves(s.blocks) && (op.MallocOp? ==> op.size <= MAX_REQUEST && op.size % 12 == 0)
    ensures AllTwelves(Step(s, op).blocks)
  {
    hide Fit, Off;
    var bs, rs := s.blocks, Step(s, op).blocks;
    if op.MallocOp? && Malloc(bs, op.size).Got? {
      var f := Fit(bs, op.size, 0);
      if f < |bs| { assert bs[f].size % 12 == 0; }
      assert (op.size + HEADER) % 12 == 0;
    }
  }

  /** Only what was handed out is released. */
  ghost predicate FreesHandedOut(s: State, ops: seq<Op>)
    requires forall i :: 0 <= i < |ops| && ops[i].MallocOp? ==> ops[i].size <= MAX_REQUEST
    decreases |ops|
  {
    ops == [] || ((ops[0].FreeOp? ==> ops[0].o in s.asked) && FreesHandedOut(Step(s, ops[0]), ops[1..]))
  }

  lemma TwelvesFit(bs: seq<Block>, size: nat)
    requires AllTwelves(bs) && size % 12 == 0
    ensures NoSliver(bs, size)
  {
    var f := Fit(bs, size, 0);
    if f < |bs| { assert bs[f].size % 12 == 0 && (size + 12) % 12 == 0; }
  }
}
