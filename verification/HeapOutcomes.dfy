/** When kmalloc succeeds, what it takes, and which releases take effect. */
module HeapOutcomes {
  import opened HeapBlocks

  // ---------------------------------------------------------------------
  // Success

  /** Some free block has room for the request and its header. */
  ghost predicate Fitting(bs: seq<Block>, size: nat) {
    exists i :: 0 <= i < |bs| && bs[i].free && bs[i].size >= size + 12
  }

  /**
   * kmalloc hands out nothing if and only if nothing is asked for, or no free block has room and the request with its
   * header does not stay below 64 MB behind the space in use.
   */
  lemma MallocIff(bs: seq<Block>, size: nat)
    requires size <= MAX_REQUEST
    ensures Malloc(bs, size).NoMemory?
            <==> size == 0 || (!Fitting(bs, size) && End(bs) + size + 12 >= 64 * 1024 * 1024)
  {
    var f := Fit(bs, size, 0);
    if f < |bs| { assert bs[f].free && bs[f].size >= size + 12; }
  }

  /** All that a run asks for, with a header for each request. */
  function Total(ops: seq<Op>): nat {
    if ops == [] then 0 else Total(ops[1..]) + if ops[0].MallocOp? then ops[0].size + 12 else 0
  }

  /** The space in use never exceeds what was asked for. */
  lemma {:induction false} RunEnd(s: State, ops: seq<Op>)
    requires HeapInv(s) && LegalRun(s, ops)
    ensures End(Run(s, ops).blocks) <= End(s.blocks) + Total(ops)
    decreases |ops|
  {
    if ops != [] {
      StepEnd(s, ops[0]);
      StepKeeps(s, ops[0]);
      RunEnd(Step(s, ops[0]), ops[1..]);
    }
  }

  lemma StepEnd(s: State, op: Op)
    requires Legal(s, op)
    ensures End(Step(s, op).blocks) <= End(s.blocks) + if op.MallocOp? then op.size + 12 else 0
  {
    match op
    case MallocOp(size) => if Malloc(s.blocks, size).Got? { MallocEnd(s.blocks, size); }
    case FreeOp(o) => OffSame(Step(s, op).blocks, s.blocks, |s.blocks|);
  }

  lemma EmptyInv()
    ensures HeapInv(EMPTY)
  {
  }

  /** After every run from the empty heap, a request succeeds while all requests together stay below 64 MB. */
  lemma RunSucceeds(ops: seq<Op>, size: nat)
    requires LegalRun(EMPTY, ops) && 0 < size <= MAX_REQUEST && Total(ops) + size + 12 < 64 * 1024 * 1024
    ensures Malloc(Run(EMPTY, ops).blocks, size).Got?
  {
    EmptyInv();
    RunEnd(EMPTY, ops);
    MallocIff(Run(EMPTY, ops).blocks, size);
  }

  // ---------------------------------------------------------------------
  // What is taken

  ghost predicate Headed(bs: seq<Block>) { forall k :: 0 <= k < |bs| ==> bs[k].size >= HEADER }

  /** The free block with room that lies first in the heap. */
  ghost predicate First(bs: seq<Block>, size: nat, o: nat, b: Block) {
    && At(bs, o, b) && b.free && b.size >= size + 12
    && forall p, c :: At(bs, p, c) && c.free && c.size >= size + 12 ==> o <= p
  }

  /** The blocks r are bs with the free block b at o handed out for the request, and its rest, if any, cut off. */
  ghost predicate Reused(bs: seq<Block>, size: nat, r: seq<Block>, o: nat, b: Block)
    requires size <= MAX_REQUEST && b.size >= size + 12
  {
    && At(r, o, Block(size + 12, b.magic, false)) && End(r) == End(bs)
    && (b.size > size + 12 ==> At(r, o + size + 12, Block(b.size - size - 12, MAGIC, true)))
    && (forall p, c :: p != o && At(bs, p, c) ==> At(r, p, c))
    && (forall p, c :: At(r, p, c) ==> p == o || (b.size > size + 12 && p == o + size + 12) || At(bs, p, c))
  }

  /**
   * What kmalloc takes, by addresses. Where free blocks have room it is the first of them, cut exactly when it is
   * larger than needed, and the rest is then a free block; otherwise a new block at the end of the space in use. The
   * block handed out has just the size asked for and its header, and every other block is as it was.
   */
  lemma MallocOutcome(bs: seq<Block>, size: nat)
    requires size <= MAX_REQUEST && Headed(bs) && Malloc(bs, size).Got?
    ensures var g := Malloc(bs, size); var o := Off(g.blocks, g.i);
            if Fitting(bs, size) then exists b :: First(bs, size, o, b) && Reused(bs, size, g.blocks, o, b)
            else o == End(bs) && g.blocks == bs + [Block(size + 12, MAGIC, false)]
  {
    var f := Fit(bs, size, 0);
    MallocIndex(bs, size);
    FitOff(bs, size);
    if f < |bs| {
      FirstFit(bs, size);
      MallocReuses(bs, size);
    }
    hide Off, Headed, First, Reused;
  }

  lemma MallocIndex(bs: seq<Block>, size: nat)
    requires size <= MAX_REQUEST && Malloc(bs, size).Got?
    ensures var f := Fit(bs, size, 0); Malloc(bs, size).i == f && (Fitting(bs, size) <==> f < |bs|)
  {
    var f := Fit(bs, size, 0);
    if f < |bs| { assert bs[f].free && bs[f].size >= size + 12; }
    hide Off;
  }

  lemma MallocReuses(bs: seq<Block>, size: nat)
    requires size <= MAX_REQUEST && Headed(bs) && Malloc(bs, size).Got? && Fit(bs, size, 0) < |bs|
    ensures var f := Fit(bs, size, 0); Reused(bs, size, Malloc(bs, size).blocks, Off(bs, f), bs[f])
  {
    var f := Fit(bs, size, 0);
    FitOff(bs, size);
    TakenBlock(bs, size);
    MallocEnd(bs, size);
    TakenRest(bs, size);
    OthersStay(bs, size);
    OthersOld(bs, size);
    hide Off, Fit, Malloc, At, Headed;
  }

  lemma TakenBlock(bs: seq<Block>, size: nat)
    requires size <= MAX_REQUEST && Malloc(bs, size).Got? && Fit(bs, size, 0) < |bs|
    ensures var f := Fit(bs, size, 0); At(Malloc(bs, size).blocks, Off(bs, f), Block(size + 12, bs[f].magic, false))
  {
    var f := Fit(bs, size, 0);
    FitOff(bs, size);
    hide Off, Fit;
    assert Malloc(bs, size).blocks[f] == Block(size + 12, bs[f].magic, false);
  }

  lemma FirstFit(bs: seq<Block>, size: nat)
    requires Headed(bs) && Fit(bs, size, 0) < |bs|
    ensures var f := Fit(bs, size, 0); First(bs, size, Off(bs, f), bs[f])
  {
    var f := Fit(bs, size, 0);
    assert At(bs, Off(bs, f), bs[f]);
    forall p, c | At(bs, p, c) && c.free && c.size >= size + 12 ensures Off(bs, f) <= p {
      var i :| 0 <= i < |bs| && Off(bs, i) == p && bs[i] == c;
      assert i >= f;
      OffGrows(bs, f, i);
    }
  }

  lemma TakenRest(bs: seq<Block>, size: nat)
    requires size <= MAX_REQUEST && Malloc(bs, size).Got? && Fit(bs, size, 0) < |bs|
    ensures var g := Malloc(bs, size); var f := Fit(bs, size, 0); var o := Off(bs, f);
            bs[f].size > size + 12 ==> At(g.blocks, o + size + 12, Block(bs[f].size - size - 12, MAGIC, true))
  {
    var g := Malloc(bs, size);
    var f := Fit(bs, size, 0);
    if bs[f].size > size + 12 {
      OffSame(g.blocks, bs, f);
      assert Off(g.blocks, f + 1) == Off(bs, f) + size + 12;
      assert g.blocks[f + 1] == Block(bs[f].size - size - 12, MAGIC, true);
    }
  }

  lemma OtherStays(bs: seq<Block>, size: nat, i: nat)
    requires size <= MAX_REQUEST && Malloc(bs, size).Got? && i < |bs| && i != Fit(bs, size, 0)
    ensures At(Malloc(bs, size).blocks, Off(bs, i), bs[i])
  {
    hide Fit, Off;
    var g := Malloc(bs, size);
    var f := Fit(bs, size, 0);
    if i > f && bs[f].size > size + HEADER {
      OffSplit(bs, f, size + HEADER, i + 1);
      assert g.blocks[i + 1] == bs[i];
    } else {
      OffSame(g.blocks, bs, i);
      assert g.blocks[i] == bs[i];
    }
  }

  lemma OthersStay(bs: seq<Block>, size: nat)
    requires size <= MAX_REQUEST && Malloc(bs, size).Got? && Fit(bs, size, 0) < |bs|
    ensures var g := Malloc(bs, size); var o := Off(bs, Fit(bs, size, 0));
            forall p, c :: p != o && At(bs, p, c) ==> At(g.blocks, p, c)
  {
    hide Fit, Off, Malloc;
    var f := Fit(bs, size, 0);
    forall p, c | p != Off(bs, f) && At(bs, p, c) ensures At(Malloc(bs, size).blocks, p, c) {
      var i :| 0 <= i < |bs| && Off(bs, i) == p && bs[i] == c;
      OtherStays(bs, size, i);
    }
  }

  lemma OtherOld(bs: seq<Block>, size: nat, j: nat)
    requires size <= MAX_REQUEST && Headed(bs) && Malloc(bs, size).Got? && Fit(bs, size, 0) < |bs|
    requires j < |Malloc(bs, size).blocks| && j != Fit(bs, size, 0)
    ensures var g := Malloc(bs, size); var f := Fit(bs, size, 0); var p := Off(g.blocks, j);
            (bs[f].size > size + 12 && p == Off(bs, f) + size + 12) || At(bs, p, g.blocks[j])
  {
    hide Fit;
    var g := Malloc(bs, size);
    var f := Fit(bs, size, 0);
    if Cuts(bs, size) && j == f + 1 {
      OffSame(g.blocks, bs, f);
      assert Off(g.blocks, j) == Off(g.blocks, f) + g.blocks[f].size;
    } else {
      var k := MallocOther(bs, size, j);
    }
  }

  lemma OthersOld(bs: seq<Block>, size: nat)
    requires size <= MAX_REQUEST && Headed(bs) && Malloc(bs, size).Got? && Fit(bs, size, 0) < |bs|
    ensures var g := Malloc(bs, size); var f := Fit(bs, size, 0); var o := Off(bs, f);
            forall p, c :: At(g.blocks, p, c) ==>
                p == o || (bs[f].size > size + 12 && p == o + size + 12) || At(bs, p, c)
  {
    hide Fit, Off, Malloc, Headed;
    var g := Malloc(bs, size);
    var f := Fit(bs, size, 0);
    FitOff(bs, size);
    forall p, c | At(g.blocks, p, c)
      ensures p == Off(bs, f) || (bs[f].size > size + 12 && p == Off(bs, f) + size + 12) || At(bs, p, c)
    {
      var j :| 0 <= j < |g.blocks| && Off(g.blocks, j) == p && g.blocks[j] == c;
      if j != f { OtherOld(bs, size, j); }
    }
  }

  lemma FitOff(bs: seq<Block>, size: nat)
    requires size <= MAX_REQUEST && Malloc(bs, size).Got?
    ensures var f := Fit(bs, size, 0); f < |Malloc(bs, size).blocks| && Off(Malloc(bs, size).blocks, f) == Off(bs, f)
  {
    OffSame(Malloc(bs, size).blocks, bs, Fit(bs, size, 0));
  }

  // ---------------------------------------------------------------------
  // Releases

  /**
   * The set holds the places released so far: places handed out, and just the blocks there carry the mark; every other
   * block that was handed out is taken.
   */
  ghost predicate Marked(s: State, gone: set<nat>) {
    && (forall o :: o in gone ==> o in s.asked)
    && (forall i :: 0 <= i < |s.blocks| ==> MarkedAt(s, gone, i))
  }

  ghost predicate MarkedAt(s: State, gone: set<nat>, i: nat)
    requires i < |s.blocks|
  {
    var o, b := Off(s.blocks, i), s.blocks[i];
    (b.magic == FREED_MAGIC <==> o in gone) && (o in s.asked && o !in gone ==> !b.free)
  }

  lemma StepMarked(s: State, gone: set<nat>, op: Op)
    requires HeapInv(s) && Legal(s, op) && Marked(s, gone)
    ensures Marked(Step(s, op), if op.FreeOp? then gone + {op.o} else gone)
  {
    match op
    case MallocOp(size) =>
      if Malloc(s.blocks, size).Got? {
        var r := Step(s, op);
        forall j | 0 <= j < |r.blocks| ensures MarkedAt(r, gone, j) { MallocMarked(s, gone, size, j); }
      }
    case FreeOp(o) => FreeMarked(s, gone, o);
  }

  lemma FreeMarked(s: State, gone: set<nat>, o: nat)
    requires HeapInv(s) && Legal(s, FreeOp(o)) && Marked(s, gone)
    ensures Marked(Step(s, FreeOp(o)), gone + {o})
  {
    var bs, r := s.blocks, Step(s, FreeOp(o));
    forall i | 0 <= i < |bs| ensures MarkedAt(r, gone + {o}, i) {
      OffSame(r.blocks, bs, i);
      assert MarkedAt(s, gone, i) && GoodBlock(s, i);
    }
  }

  lemma MallocMarked(s: State, gone: set<nat>, size: nat, j: nat)
    requires HeapInv(s) && Legal(s, MallocOp(size)) && Marked(s, gone) && Malloc(s.blocks, size).Got?
    requires j < |Malloc(s.blocks, size).blocks|
    ensures MarkedAt(Step(s, MallocOp(size)), gone, j)
  {
    hide Fit, Off;
    var bs := s.blocks;
    var g := Malloc(bs, size);
    var f := Fit(bs, size, 0);
    forall k | 0 <= k < |bs| ensures bs[k].size >= HEADER { assert GoodBlock(s, k); }
    if j == f {
      OffSame(g.blocks, bs, f);
      if f < |bs| { assert MarkedAt(s, gone, f); } else { EndUnasked(s); }
    } else if Cuts(bs, size) && j == f + 1 {
      RestUnasked(s, size);
    } else {
      var k := MallocOther(bs, size, j);
      assert MarkedAt(s, gone, k);
    }
  }

  lemma EndUnasked(s: State)
    requires HeapInv(s)
    ensures End(s.blocks) !in s.asked
  {
    var bs := s.blocks;
    if End(bs) in s.asked {
      assert Boundary(bs, End(bs));
      var k :| 0 <= k < |bs| && Off(bs, k) == End(bs);
      forall i | 0 <= i < |bs| ensures bs[i].size >= HEADER { assert GoodBlock(s, i); }
      OffGrows(bs, k, |bs|);
    }
  }

  /** Nothing was ever handed out inside a block that is still whole. */
  lemma RestUnasked(s: State, size: nat)
    requires HeapInv(s) && Legal(s, MallocOp(size)) && Cuts(s.blocks, size)
    ensures var g := Malloc(s.blocks, size); var f := Fit(s.blocks, size, 0);
            Malloc(s.blocks, size).Got? ==> Off(g.blocks, f + 1) !in Step(s, MallocOp(size)).asked
  {
    var bs := s.blocks;
    var f := Fit(bs, size, 0);
    if Malloc(bs, size).Got? {
      var g := Malloc(bs, size);
      OffSame(g.blocks, bs, f);
      var o := Off(g.blocks, f + 1);
      assert o == Off(bs, f) + size + HEADER;
      if o in s.asked {
        assert Boundary(bs, o);
        var k :| 0 <= k < |bs| && Off(bs, k) == o;
        forall i | 0 <= i < |bs| ensures bs[i].size >= HEADER { assert GoodBlock(s, i); }
        if k <= f { OffGrows(bs, k, f); } else { OffGrows(bs, f, k); }
      }
    }
  }

  /** The places a run releases. */
  function Released(ops: seq<Op>): (r: set<nat>)
    ensures forall o :: o in r <==> FreeOp(o) in ops
  {
    if ops == [] then {} else (if ops[0].FreeOp? then {ops[0].o} else {}) + Released(ops[1..])
  }

  lemma {:induction false} RunMarked(s: State, gone: set<nat>, ops: seq<Op>)
    requires HeapInv(s) && LegalRun(s, ops) && Marked(s, gone)
    ensures Marked(Run(s, ops), gone + Released(ops))
    decreases |ops|
  {
    if ops == [] {
      assert gone + Released(ops) == gone;
    } else {
      StepMarked(s, gone, ops[0]);
      StepKeeps(s, ops[0]);
      var next := if ops[0].FreeOp? then gone + {ops[0].o} else gone;
      RunMarked(Step(s, ops[0]), next, ops[1..]);
      assert next + Released(ops[1..]) == gone + Released(ops);
    }
  }

  /**
   * The first release of whatever was handed out takes effect, and no later one does: in every run from the empty heap
   * the block at a place handed out is marked free by kfree if and only if the place was never released before; it
   * keeps its size, and no other block changes.
   */
  lemma ReleaseOutcome(ops: seq<Op>, o: nat) returns (i: nat)
    requires LegalRun(EMPTY, ops) && o in Run(EMPTY, ops).asked
    ensures var bs := Run(EMPTY, ops).blocks;
            && i < |bs| && Off(bs, i) == o
            && Free(bs, o) == (if FreeOp(o) in ops then bs else bs[i := Block(bs[i].size, FREED_MAGIC, true)])
            && (FreeOp(o) !in ops ==> bs[i] == Block(bs[i].size, MAGIC, false))
  {
    EmptyInv();
    RunKeeps(EMPTY, ops);
    RunMarked(EMPTY, {}, ops);
    var s := Run(EMPTY, ops);
    assert Boundary(s.blocks, o);
    i :| 0 <= i < |s.blocks| && Off(s.blocks, i) == o;
    assert GoodBlock(s, i) && MarkedAt(s, {} + Released(ops), i);
    forall k | 0 <= k < |s.blocks| ensures s.blocks[k].size >= HEADER { assert GoodBlock(s, k); }
    FreeIs(s.blocks, i);
  }
}
