/** Directories: logs of 72-byte slots, seven to a block, that behave like finite maps from names to inodes. */
module Directory {
  import opened Bytes
  import opened Volume
  import opened BlockMap
  import opened FileData
  import opened Inodes

  const TYPE_DIR := 1
  const MAX_NAME := 64
  const DOT: seq<Byte> := [46]
  const DOTDOT: seq<Byte> := [46, 46]

  predicate IsDir(mode: Word) { mode % 2 == 1 }

  predicate Protected(mode: Word) { mode >= 0x8000_0000 }

  // ---------------------------------------------------------------------
  // Entries

  datatype RawEnt = DirEnt(ino: Word, typ: Byte, len: Byte, res: seq<Byte>, name: seq<Byte>)

  type DirEnt = e: RawEnt | |e.res| == 2 && |e.name| == 64
    witness DirEnt(0, 0, 0, [0, 0], seq(64, _ => 0))

  const ZERO_ENT: DirEnt := DirEnt(0, 0, 0, [0, 0], Zeros(64))

  function EntryAt(b: Block, j: nat): DirEnt
    requires j < 7
  {
    DirEnt(WordAt(b, 72 * j), b[72 * j + 4], b[72 * j + 5], b[72 * j + 6..72 * j + 8], b[72 * j + 8..72 * j + 72])
  }

  function EntryBytes(e: DirEnt): (s: seq<Byte>)
    ensures |s| == 72
  {
    WordBytes(e.ino) + [e.typ, e.len] + e.res + e.name
  }

  function PutEntry(b: Block, j: nat, e: DirEnt): Block
    requires j < 7
  {
    Splice(b, 72 * j, EntryBytes(e))
  }

  /** Storing one entry changes that entry and no other. */
  lemma EntryAtPut(b: Block, j: nat, e: DirEnt, i: nat)
    requires j < 7 && i < 7
    ensures EntryAt(PutEntry(b, j, e), i) == if i == j then e else EntryAt(b, i)
  {
    var c := PutEntry(b, j, e);
    var s := EntryBytes(e);
    if i == j {
      assert forall k :: 0 <= k < 72 ==> c[72 * j + k] == s[k];
      assert c[72 * j..72 * j + 4] == WordBytes(e.ino);
      WordAtBytes(e.ino);
      assert c[72 * j + 6..72 * j + 8] == e.res;
      assert c[72 * j + 8..72 * j + 72] == e.name;
    } else {
      assert forall k :: 72 * i <= k < 72 * i + 72 ==> c[k] == b[k];
      assert c[72 * i + 6..72 * i + 8] == b[72 * i + 6..72 * i + 8];
      assert c[72 * i + 8..72 * i + 72] == b[72 * i + 8..72 * i + 72];
    }
  }

  lemma EntryAtZero(j: nat)
    requires j < 7
    ensures EntryAt(ZERO_BLOCK, j) == ZERO_ENT
  {
    assert ZERO_BLOCK[72 * j + 6..72 * j + 8] == [0, 0];
    assert ZERO_BLOCK[72 * j + 8..72 * j + 72] == Zeros(64);
  }

  // ---------------------------------------------------------------------
  // Names

  ghost predicate NoNul(s: seq<Byte>) { forall i :: 0 <= i < |s| ==> s[i] != 0 }

  function CharAt(s: seq<Byte>, i: nat): Byte { if i < |s| then s[i] else 0 }

  function StrLen(s: seq<Byte>, i: nat): (n: nat)
    requires i <= |s|
    ensures i <= n <= |s|
    decreases |s| - i
  {
    if i == |s| || s[i] == 0 then i else StrLen(s, i + 1)
  }

  /** strncmp over at most n characters, from position i on, finds no difference. */
  predicate SameUpTo(a: seq<Byte>, b: seq<Byte>, i: nat, n: nat)
    decreases n - i
  {
    i >= n || (CharAt(a, i) == CharAt(b, i) && (CharAt(a, i) == 0 || SameUpTo(a, b, i + 1, n)))
  }

  predicate NameChar(c: Byte) {
    (65 <= c <= 90) || (97 <= c <= 122) || (48 <= c <= 57) || c == 95 || c == 45 || c == 46
  }

  /** is_valid_filename */
  predicate ValidName(s: seq<Byte>) {
    0 < |s| < 64 && (forall i :: 0 <= i < |s| ==> NameChar(s[i])) && s != DOT && s != DOTDOT
  }

  /** An entry as this file system stores it: free, or a name of 1 to 63 characters padded with zeros. */
  ghost predicate GoodEnt(e: DirEnt) {
    e.ino == 0 || (0 < e.len < 64 && NoNul(e.name[..e.len]) && forall i :: e.len <= i < 64 ==> e.name[i] == 0)
  }

  /** The comparison made by dir_find_entry: by stored length. */
  predicate FindMatches(e: DirEnt, name: seq<Byte>) {
    var dn := if e.len != 0 then e.len as nat else StrLen(e.name, 0);
    e.ino != 0 && dn == |name| && dn > 0 && SameUpTo(e.name, name, 0, dn)
  }

  /** The comparison made by dir_remove_entry: over the whole padded field. */
  predicate RemoveMatches(e: DirEnt, name: seq<Byte>) {
    e.ino != 0 && SameUpTo(e.name, name, 0, 64)
  }

  lemma {:induction false} SameUpToIs(a: seq<Byte>, b: seq<Byte>, i: nat, n: nat)
    requires i <= |b| && NoNul(b)
    ensures SameUpTo(a, b, i, n) <==> forall k :: i <= k < n && k <= |b| ==> CharAt(a, k) == CharAt(b, k)
    decreases n - i
  {
    if i < n && i < |b| {
      SameUpToIs(a, b, i + 1, n);
      assert CharAt(b, i) != 0;
    }
  }

  /** On every stored entry the two comparisons agree, and both mean equality of names. */
  lemma MatchesAgree(e: DirEnt, name: seq<Byte>)
    requires GoodEnt(e) && NoNul(name)
    ensures FindMatches(e, name) <==> e.ino != 0 && e.name[..Min(64, e.len)] == name
    ensures RemoveMatches(e, name) <==> e.ino != 0 && e.name[..Min(64, e.len)] == name
  {
    if e.ino != 0 {
      SameUpToIs(e.name, name, 0, e.len);
      SameUpToIs(e.name, name, 0, 64);
      var s := e.name[..e.len];
      assert |name| < e.len ==> s[|name|] == CharAt(e.name, |name|);
      if SameUpTo(e.name, name, 0, 64) {
        assert |name| < 64 ==> CharAt(e.name, |name|) == CharAt(name, |name|) == 0;
        assert e.len <= |name| ==> CharAt(name, e.len) == CharAt(e.name, e.len) == 0;
        forall k | 0 <= k < e.len ensures s[k] == name[k] { assert CharAt(e.name, k) == CharAt(name, k); }
        assert s == name;
      }
      if e.len == |name| && SameUpTo(e.name, name, 0, e.len) {
        forall k | 0 <= k < e.len ensures s[k] == name[k] { assert CharAt(e.name, k) == CharAt(name, k); }
        assert s == name;
      }
      if s == name {
        forall k | 0 <= k < 64 && k <= |name| ensures CharAt(e.name, k) == CharAt(name, k) {
          if k < e.len { assert s[k] == name[k]; }
        }
      }
    }
  }

  // ---------------------------------------------------------------------
  // The slots of a directory

  /** Slot e of the directory held by ino; an unmapped slot reads as a free one. */
  function EntryOf(v: Vol, ino: Inode, e: nat): DirEnt {
    var p := Lookup(v, ino, e / 7);
    if p == 0 then ZERO_ENT else EntryAt(Blk(v, p), e % 7)
  }

  datatype Slot = Tomb | Live(name: seq<Byte>, ino: Word, typ: Byte)

  function SlotOf(e: DirEnt): Slot {
    if e.ino == 0 then Tomb else Live(e.name[..Min(64, e.len)], e.ino, e.typ)
  }

  function SlotCount(ino: Inode): nat { ino.size / 72 }

  /** The directory as a log of slots. */
  function Log(v: Vol, ino: Inode): (s: seq<Slot>)
    ensures |s| == SlotCount(ino)
    ensures forall e :: 0 <= e < |s| ==> s[e] == SlotOf(EntryOf(v, ino, e))
  {
    seq(SlotCount(ino), e requires 0 <= e => SlotOf(EntryOf(v, ino, e)))
  }

  /** What every directory keeps: whole slots, all mapped, all well stored. */
  ghost predicate DirOK(v: Vol, ino: Inode) {
    && ino.size % 72 == 0
    && (forall e :: 0 <= e < SlotCount(ino) ==> GoodSlot(v, ino, e))
  }

  ghost predicate GoodSlot(v: Vol, ino: Inode, e: nat) {
    Lookup(v, ino, e / 7) != 0 && GoodEnt(EntryOf(v, ino, e))
  }

  /** Least slot whose live entry carries the name, or |log|. */
  function LogFind(log: seq<Slot>, name: seq<Byte>, e: nat): (r: nat)
    requires e <= |log|
    ensures e <= r <= |log|
    ensures forall i :: e <= i < r ==> !(log[i].Live? && log[i].name == name)
    ensures r < |log| ==> log[r].Live? && log[r].name == name
    decreases |log| - e
  {
    if e == |log| || (log[e].Live? && log[e].name == name) then e else LogFind(log, name, e + 1)
  }

  /** The scan of dir_find_entry. */
  function FindFrom(v: Vol, ino: Inode, name: seq<Byte>, e: nat): (r: nat)
    requires e <= SlotCount(ino)
    ensures e <= r <= SlotCount(ino)
    decreases SlotCount(ino) - e
  {
    if e == SlotCount(ino) || FindMatches(EntryOf(v, ino, e), name) then e else FindFrom(v, ino, name, e + 1)
  }

  /** The scan of dir_remove_entry. */
  function RemoveFrom(v: Vol, ino: Inode, name: seq<Byte>, e: nat): (r: nat)
    requires e <= SlotCount(ino)
    ensures e <= r <= SlotCount(ino)
    decreases SlotCount(ino) - e
  {
    if e == SlotCount(ino) || RemoveMatches(EntryOf(v, ino, e), name) then e else RemoveFrom(v, ino, name, e + 1)
  }

  /** Both scans find the first live entry of that name in the log. */
  lemma {:induction false} ScansFind(v: Vol, ino: Inode, name: seq<Byte>, e: nat)
    requires DirOK(v, ino) && NoNul(name) && e <= SlotCount(ino)
    ensures FindFrom(v, ino, name, e) == LogFind(Log(v, ino), name, e) == RemoveFrom(v, ino, name, e)
    decreases SlotCount(ino) - e
  {
    hide EntryOf, GoodEnt, FindMatches, RemoveMatches;
    if e < SlotCount(ino) {
      assert GoodSlot(v, ino, e);
      MatchesAgree(EntryOf(v, ino, e), name);
      ScansFind(v, ino, name, e + 1);
    }
  }

  // ---------------------------------------------------------------------
  // Editing slots

  /** Slots and their (block, index) addresses: storing slot e changes slot e of this directory and nothing else. */
  lemma PutSlot(v: Vol, t: seq<Inode>, n: nat, e: nat, ent: DirEnt, f: nat)
    requires WF(v) && Own(v, t) && n < |t| && Lookup(v, t[n], e / 7) != 0
    ensures var p := Lookup(v, t[n], e / 7); var w := SetBlk(v, p, PutEntry(Blk(v, p), e % 7, ent));
            EntryOf(w, t[n], f) == (if f == e then ent else EntryOf(v, t[n], f))
                && Lookup(w, t[n], f / 7) == Lookup(v, t[n], f / 7)
  {
    var k := LeafOf(e / 7);
    var p := P(v, t[n], k);
    var b := PutEntry(Blk(v, p), e % 7, ent);
    PathIsChain(e / 7);
    DataWriteGrew(v, t, n, k, b);
    EntryAtPut(Blk(v, p), e % 7, ent, f % 7);
    hide P, Blk, Own, Grew, SetBlk, EntryAt;
    if f / 7 < MAP_LIMIT {
      var w := SetBlk(v, p, b);
      assert P(w, t[n], LeafOf(f / 7)) == P(v, t[n], LeafOf(f / 7));
      if f / 7 == e / 7 {
        assert f == e <==> f % 7 == e % 7;
      } else {
        if LeafOf(f / 7) == k { LeafOfInjective(f / 7, e / 7); }
        DistinctLeaves(v, t, n, e / 7, f / 7);
      }
    }
  }

  lemma DistinctLeaves(v: Vol, t: seq<Inode>, n: nat, l: nat, m: nat)
    requires WF(v) && Own(v, t) && n < |t| && l != m && Lookup(v, t[n], l) != 0
    ensures Lookup(v, t[n], m) != Lookup(v, t[n], l)
  {
    if LeafOf(l) == LeafOf(m) { LeafOfInjective(l, m); }
  }

  /** Getting a block never changes what the slots hold: a fresh block reads as free slots. */
  lemma GetBlockSlots(v: Vol, t: seq<Inode>, n: nat, l: nat, f: nat)
    requires WF(v) && Own(v, t) && n < |t|
    ensures var g := GetBlock(v, t[n], l, true);
            EntryOf(g.v, g.ino, f) == EntryOf(v, t[n], f)
            && (Lookup(v, t[n], f / 7) != 0 ==> Lookup(g.v, g.ino, f / 7) == Lookup(v, t[n], f / 7))
  {
    var g := GetBlock(v, t[n], l, true);
    GetBlockAlloc(v, t, n, l);
    EntryAtZero(f % 7);
    hide Blk, Own, GetBlock, EntryAt;
    var m := f / 7;
    if m < MAP_LIMIT {
      PathIsChain(m);
      var p, q := P(v, t[n], LeafOf(m)), P(g.v, g.ino, LeafOf(m));
      assert p != 0 ==> q == p && Blk(g.v, q) == Blk(v, p);
      assert p == 0 && q != 0 ==> Blk(g.v, q) == ZERO_BLOCK;
    }
  }

  function NewEnt(name: seq<Byte>, ino: Word, typ: Byte): DirEnt
    requires |name| < 64
  {
    DirEnt(ino, typ, |name|, [0, 0], name + Zeros(64 - |name|))
  }

  lemma NewEntGood(name: seq<Byte>, ino: Word, typ: Byte)
    requires 0 < |name| < 64 && NoNul(name) && ino != 0
    ensures GoodEnt(NewEnt(name, ino, typ)) && SlotOf(NewEnt(name, ino, typ)) == Live(name, ino, typ)
  {
    assert (name + Zeros(64 - |name|))[..|name|] == name;
  }

  lemma ValidNameNoNul(name: seq<Byte>)
    requires ValidName(name)
    ensures NoNul(name)
  {
  }

  datatype Edited = Edited(v: Vol, ok: bool)

  /** dir_add_entry */
  function DirAdd(v: Vol, d: int, name: seq<Byte>, ino: Word, typ: Byte): (r: Edited)
    requires WF(v)
    ensures WF(r.v) && SameFrame(v, r.v)
  {
    var din := GetInode(v, d);
    if !InoValid(v, d) || !IsDir(din.mode) || !ValidName(name) || FindFrom(v, din, name, 0) < SlotCount(din)
        then Edited(v, false)
    else
      var e := SlotCount(din);
      var g := GetBlock(v, din, e / 7, true);
      if g.phys < 0 then Edited(g.v, false)
      else
        var w := SetBlk(g.v, g.phys, PutEntry(Blk(g.v, g.phys), e % 7, NewEnt(name, ino, typ)));
        Edited(PutInode(w, d, g.ino.(size := (din.size + 72) % TWO32)), true)
  }

  function Buried(e: DirEnt): DirEnt { e.(ino := 0, len := 0, name := e.name[0 := 0]) }

  /** dir_remove_entry */
  function DirRemove(v: Vol, d: int, name: seq<Byte>): (r: Edited)
    requires WF(v)
    ensures WF(r.v) && SameFrame(v, r.v)
  {
    var din := GetInode(v, d);
    if !InoValid(v, d) then Edited(v, false)
    else
      var e := RemoveFrom(v, din, name, 0);
      if e == SlotCount(din) then Edited(v, false)
      else
        var ent := EntryOf(v, din, e);
        if (InoValid(v, ent.ino) && Protected(GetInode(v, ent.ino).mode)) || name == DOT || name == DOTDOT
            then Edited(v, false)
        else
          var p := Lookup(v, din, e / 7);
          Edited(SetBlk(v, p, PutEntry(Blk(v, p), e % 7, Buried(ent))), true)
  }

  /** Overwrites the inode number of slot e, as rename does with the ".." slot of a moved directory. */
  function SetSlotIno(v: Vol, d: int, e: nat, ino: Word): (w: Vol)
    requires WF(v)
    ensures WF(w) && SameFrame(v, w)
  {
    var din := GetInode(v, d);
    var p := Lookup(v, din, e / 7);
    SetBlk(v, p, PutEntry(Blk(v, p), e % 7, EntryOf(v, din, e).(ino := ino)))
  }

  // ---------------------------------------------------------------------
  // What the edits do to the log, and what they leave alone

  /** w is v with the log of directory d replaced: every other inode is untouched. */
  ghost predicate LogEdit(v: Vol, w: Vol, d: int, log: seq<Slot>) {
    && Owned(v) && Owned(w) && InoValid(v, d)
    && |w.inodes| == |v.inodes| && w.inoUsed == v.inoUsed && w.base == v.base && w.super == v.super
    && GetInode(w, d).mode == GetInode(v, d).mode
    && DirOK(w, GetInode(w, d)) && Log(w, GetInode(w, d)) == log
    && (forall m :: InoValid(v, m) && m != d ==> GetInode(w, m) == GetInode(v, m) && Undisturbed(v, w, GetInode(v, m)))
  }

  /** A directory cannot hold more slots than the block map has room for. */
  lemma DirSizeBound(v: Vol, ino: Inode)
    requires DirOK(v, ino)
    ensures ino.size <= 72 * 7 * MAP_LIMIT
  {
    if SlotCount(ino) > 0 {
      assert GoodSlot(v, ino, SlotCount(ino) - 1);
    }
  }

  /** Storing over slot e < |log| of directory d. */
  lemma PutSlotEdit(v: Vol, d: int, e: nat, ent: DirEnt)
    requires Owned(v) && InoValid(v, d) && DirOK(v, GetInode(v, d)) && e < SlotCount(GetInode(v, d)) && GoodEnt(ent)
    ensures var din := GetInode(v, d); var p := Lookup(v, din, e / 7);
            var w := SetBlk(v, p, PutEntry(Blk(v, p), e % 7, ent));
            LogEdit(v, w, d, Log(v, din)[e := SlotOf(ent)]) && w.inodes == v.inodes && w.used == v.used
  {
    hide EntryOf, SetBlk, Own, Grew, P, Blk, PutEntry, Undisturbed, GoodEnt;
    var din := GetInode(v, d);
    var t := v.inodes;
    assert GoodSlot(v, din, e);
    var p := Lookup(v, din, e / 7);
    var b := PutEntry(Blk(v, p), e % 7, ent);
    var w := SetBlk(v, p, b);
    PathIsChain(e / 7);
    SetBlkShape(v, p, b);
    assert p == P(v, t[d - 1], LeafOf(e / 7));
    DataWriteGrew(v, t, d - 1, LeafOf(e / 7), b);
    forall m | InoValid(v, m) && m != d ensures GetInode(w, m) == GetInode(v, m) && Undisturbed(v, w, GetInode(v, m)) {
      DataWriteUndisturbed(v, t, d - 1, LeafOf(e / 7), b, m - 1);
    }
    forall f: nat
      ensures EntryOf(w, din, f) == (if f == e then ent else EntryOf(v, din, f))
              && Lookup(w, din, f / 7) == Lookup(v, din, f / 7)
    {
      PutSlot(v, t, d - 1, e, ent, f);
    }
    forall f | 0 <= f < SlotCount(din) ensures GoodSlot(w, din, f) { assert GoodSlot(v, din, f); }
    assert Log(w, din) == Log(v, din)[e := SlotOf(ent)];
  }

  lemma DataWriteUndisturbed(v: Vol, t: seq<Inode>, n: nat, k: Key, b: Block, m: nat)
    requires WF(v) && Own(v, t) && n < |t| && m < |t| && m != n && DataKey(k) && P(v, t[n], k) != 0
    ensures Undisturbed(v, SetBlk(v, P(v, t[n], k), b), t[m])
  {
    DataWriteGrew(v, t, n, k, b);
    hide P, SetBlk, Blk;
  }

  /** An entry is appended, or the add is refused and no directory or file shows a trace of it. */
  lemma DirAddEffect(v: Vol, d: int, name: seq<Byte>, ino: Word, typ: Byte)
    requires Owned(v) && InoValid(v, d) && DirOK(v, GetInode(v, d)) && ino != 0
    ensures var r := DirAdd(v, d, name, ino, typ); var log := Log(v, GetInode(v, d));
            && LogEdit(v, r.v, d, if r.ok then log + [Live(name, ino, typ)] else log)
            && (r.ok ==> IsDir(GetInode(v, d).mode) && ValidName(name) && LogFind(log, name, 0) == |log|)
            && (r.ok || !IsDir(GetInode(v, d).mode) || !ValidName(name) || LogFind(log, name, 0) < |log|
                || (Lookup(v, GetInode(v, d), |log| / 7) == 0 && (Full(r.v) || |log| >= 7 * MAP_LIMIT)))
  {
    hide LogEdit, EntryOf, Own, GetBlock, SetBlk, Blk, PutEntry, FindFrom, Full;
    var din := GetInode(v, d);
    var e := SlotCount(din);
    if ValidName(name) {
      ValidNameNoNul(name);
      ScansFind(v, din, name, 0);
    }
    if IsDir(din.mode) && ValidName(name) && FindFrom(v, din, name, 0) == e {
      if GetBlock(v, din, e / 7, true).phys < 0 {
        AddRefused(v, d);
      } else {
        NewEntGood(name, ino, typ);
        AddAppends(v, d, NewEnt(name, ino, typ));
      }
    } else {
      LogEditRefl(v, d);
    }
  }

  lemma LogEditRefl(v: Vol, d: int)
    requires Owned(v) && InoValid(v, d) && DirOK(v, GetInode(v, d))
    ensures LogEdit(v, v, d, Log(v, GetInode(v, d)))
  {
  }

  lemma AddRefused(v: Vol, d: int)
    requires Owned(v) && InoValid(v, d) && DirOK(v, GetInode(v, d))
    requires GetBlock(v, GetInode(v, d), SlotCount(GetInode(v, d)) / 7, true).phys < 0
    ensures var g := GetBlock(v, GetInode(v, d), SlotCount(GetInode(v, d)) / 7, true);
            LogEdit(v, g.v, d, Log(v, GetInode(v, d)))
            && (Full(g.v) || SlotCount(GetInode(v, d)) >= 7 * MAP_LIMIT)
            && Lookup(v, GetInode(v, d), SlotCount(GetInode(v, d)) / 7) == 0
  {
    hide Own, Grew, DataKept, P, GetBlock, Lookup, EntryOf, Undisturbed, Full, GoodEnt;
    var din := GetInode(v, d);
    var t := v.inodes;
    var l := SlotCount(din) / 7;
    var g := GetBlock(v, din, l, true);
    GetBlockAlloc(v, t, d - 1, l);
    GrewShape(v, t, d - 1, g.v, g.ino);
    StaleOwn(v, t, d - 1, g.v, g.ino);
    forall m | InoValid(v, m) && m != d
      ensures GetInode(g.v, m) == GetInode(v, m)
              && Undisturbed(v, g.v, GetInode(v, m))
    {
      GetBlockUndisturbed(v, t, d - 1, l, m - 1);
    }
    forall f | 0 <= f < SlotCount(din) ensures GoodSlot(g.v, din, f) && EntryOf(g.v, din, f) == EntryOf(v, din, f) {
      RefusedSlot(v, t, d - 1, l, f);
      assert GoodSlot(v, din, f);
    }
    assert Log(g.v, din) == Log(v, din);
  }

  /** A refused growth, seen through the inode still on disk. */
  lemma RefusedSlot(v: Vol, t: seq<Inode>, n: nat, l: nat, f: nat)
    requires WF(v) && Own(v, t) && n < |t| && GetBlock(v, t[n], l, true).phys < 0
    ensures var g := GetBlock(v, t[n], l, true);
            EntryOf(g.v, t[n], f) == EntryOf(v, t[n], f) && Lookup(g.v, t[n], f / 7) == Lookup(v, t[n], f / 7)
  {
    var g := GetBlock(v, t[n], l, true);
    GetBlockAlloc(v, t, n, l);
    hide Own, GetBlock, EntryAt, Blk, Sub;
    if f / 7 < MAP_LIMIT {
      PathIsChain(f / 7);
      StalePtr(v, t, n, g.v, g.ino, LeafOf(f / 7));
      assert Lookup(g.v, g.ino, f / 7) == Lookup(v, t[n], f / 7);
    }
  }

  lemma GetBlockUndisturbed(v: Vol, t: seq<Inode>, n: nat, l: nat, m: nat)
    requires WF(v) && Own(v, t) && n < |t| && m < |t| && m != n
    ensures Undisturbed(v, GetBlock(v, t[n], l, true).v, t[m])
  {
    GetBlockAlloc(v, t, n, l);
    hide P, GetBlock;
  }

  /** The volume after slot |log| has been stored and the size moved on. */
  lemma AddAppends(v: Vol, d: int, ent: DirEnt)
    requires Owned(v) && InoValid(v, d) && DirOK(v, GetInode(v, d)) && GoodEnt(ent)
    requires GetBlock(v, GetInode(v, d), SlotCount(GetInode(v, d)) / 7, true).phys >= 0
    ensures var din := GetInode(v, d); var e := SlotCount(din); var g := GetBlock(v, din, e / 7, true);
            var x := SetBlk(g.v, g.phys, PutEntry(Blk(g.v, g.phys), e % 7, ent));
            LogEdit(v, PutInode(x, d, g.ino.(size := (din.size + 72) % TWO32)), d, Log(v, din) + [SlotOf(ent)])
  {
    hide Own, Grew, DataKept, P, GetBlock, Lookup, EntryOf, Undisturbed, Full, GoodEnt, SetBlk, PutEntry, Blk, Log,
      DirOK;
    var din := GetInode(v, d);
    var t := v.inodes;
    var e := SlotCount(din);
    var g := GetBlock(v, din, e / 7, true);
    var b := PutEntry(Blk(g.v, g.phys), e % 7, ent);
    var x := SetBlk(g.v, g.phys, b);
    var u := t[d - 1 := g.ino];
    var jno := g.ino.(size := (din.size + 72) % TWO32);
    var w := PutInode(x, d, jno);
    DirSizeBound(v, din);
    AppendPrep(v, d);
    SetBlkShape(g.v, g.phys, b);
    DataWriteGrew(g.v, u, d - 1, LeafOf(e / 7), b);
    assert w.inodes == t[d - 1 := jno];
    OwnFields(x, u, w, w.inodes);
    forall m | InoValid(v, m) && m != d ensures GetInode(w, m) == GetInode(v, m) && Undisturbed(v, w, GetInode(v, m)) {
      GetBlockUndisturbed(v, t, d - 1, e / 7, m - 1);
      DataWriteUndisturbed(g.v, u, d - 1, LeafOf(e / 7), b, m - 1);
      FieldsUndisturbed(x, w, t[m - 1]);
      UndisturbedTrans(v, g.v, x, t[m - 1]);
      UndisturbedTrans(v, x, w, t[m - 1]);
    }
    forall f: nat ensures AppendedSlot(v, w, d, e, ent, f) {
      AddAppendsSlot(v, d, ent, f);
    }
    AppendedLog(v, w, d, e, ent);
  }

  lemma SetBlkShape(v: Vol, p: int, b: Block)
    requires WF(v)
    ensures SameShape(v, SetBlk(v, p, b)) && SetBlk(v, p, b).used == v.used
  {
  }

  /** The block for the next slot, in the terms the later steps need. */
  lemma AppendPrep(v: Vol, d: int)
    requires Owned(v) && InoValid(v, d)
    requires GetBlock(v, GetInode(v, d), SlotCount(GetInode(v, d)) / 7, true).phys >= 0
    ensures var l := SlotCount(GetInode(v, d)) / 7; var g := GetBlock(v, GetInode(v, d), l, true);
            && SameShape(v, g.v) && SameAttrs(GetInode(v, d), g.ino) && Own(g.v, v.inodes[d - 1 := g.ino])
            && g.phys == Lookup(g.v, g.ino, l) == P(g.v, g.ino, LeafOf(l)) && g.phys != 0 && DataKey(LeafOf(l))
  {
    var l := SlotCount(GetInode(v, d)) / 7;
    GetBlockAlloc(v, v.inodes, d - 1, l);
    PathIsChain(l);
    hide Own, DataKept, P, GetBlock;
  }

  ghost predicate AppendedSlot(v: Vol, w: Vol, d: int, e: nat, ent: DirEnt, f: nat) {
    && EntryOf(w, GetInode(w, d), f) == (if f == e then ent else EntryOf(v, GetInode(v, d), f))
    && (f == e || Lookup(v, GetInode(v, d), f / 7) != 0 ==> Lookup(w, GetInode(w, d), f / 7) != 0)
  }

  lemma AppendedLog(v: Vol, w: Vol, d: int, e: nat, ent: DirEnt)
    requires DirOK(v, GetInode(v, d)) && e == SlotCount(GetInode(v, d)) && GoodEnt(ent)
    requires GetInode(w, d).size == GetInode(v, d).size + 72
    requires forall f: nat :: AppendedSlot(v, w, d, e, ent, f)
    ensures DirOK(w, GetInode(w, d)) && Log(w, GetInode(w, d)) == Log(v, GetInode(v, d)) + [SlotOf(ent)]
  {
    var a, b := GetInode(v, d), GetInode(w, d);
    hide EntryOf, Lookup, GetInode;
    assert SlotCount(b) == e + 1;
    forall f | 0 <= f < e + 1 ensures GoodSlot(w, b, f) {
      assert AppendedSlot(v, w, d, e, ent, f);
      assert f < e ==> GoodSlot(v, a, f);
    }
    forall f | 0 <= f < e + 1 ensures Log(w, b)[f] == (Log(v, a) + [SlotOf(ent)])[f] {
      assert AppendedSlot(v, w, d, e, ent, f);
    }
  }

  lemma AddAppendsSlot(v: Vol, d: int, ent: DirEnt, f: nat)
    requires Owned(v) && InoValid(v, d) && DirOK(v, GetInode(v, d))
    requires GetBlock(v, GetInode(v, d), SlotCount(GetInode(v, d)) / 7, true).phys >= 0
    ensures var din := GetInode(v, d); var e := SlotCount(din); var g := GetBlock(v, din, e / 7, true);
            var x := SetBlk(g.v, g.phys, PutEntry(Blk(g.v, g.phys), e % 7, ent));
            AppendedSlot(v, PutInode(x, d, g.ino.(size := (din.size + 72) % TWO32)), d, e, ent, f)
  {
    hide Own, Grew, DataKept, P, GetBlock, Lookup, EntryOf, SetBlk, PutEntry, Blk, Full, DirOK;
    var din := GetInode(v, d);
    var t := v.inodes;
    var e := SlotCount(din);
    var g := GetBlock(v, din, e / 7, true);
    var x := SetBlk(g.v, g.phys, PutEntry(Blk(g.v, g.phys), e % 7, ent));
    var u := t[d - 1 := g.ino];
    var jno := g.ino.(size := (din.size + 72) % TWO32);
    var w := PutInode(x, d, jno);
    AppendPrep(v, d);
    SetBlkShape(g.v, g.phys, PutEntry(Blk(g.v, g.phys), e % 7, ent));
    GetBlockSlots(v, t, d - 1, e / 7, f);
    PutSlot(g.v, u, d - 1, e, ent, f);
    EntryFields(x, w, g.ino, jno, f);
  }

  lemma EntryFields(v: Vol, w: Vol, a: Inode, b: Inode, f: nat)
    requires v.base == w.base && v.data == w.data && SamePtrFields(a, b)
    ensures EntryOf(w, b, f) == EntryOf(v, a, f) && Lookup(w, b, f / 7) == Lookup(v, a, f / 7)
  {
    if f / 7 < MAP_LIMIT { PtrFields(v, w, a, b, LeafOf(f / 7)); }
  }

  lemma BuriedGood(e: DirEnt)
    ensures GoodEnt(Buried(e)) && SlotOf(Buried(e)) == Tomb
  {
  }

  /** A removal buries the first live entry of that name, or is refused and changes nothing. */
  lemma DirRemoveEffect(v: Vol, d: int, name: seq<Byte>)
    requires Owned(v) && InoValid(v, d) && DirOK(v, GetInode(v, d)) && NoNul(name)
    ensures var r := DirRemove(v, d, name); var log := Log(v, GetInode(v, d)); var e := LogFind(log, name, 0);
            && (r.ok <==> e < |log| && name != DOT && name != DOTDOT
                          && !(InoValid(v, log[e].ino) && Protected(GetInode(v, log[e].ino).mode)))
            && (r.ok ==> LogEdit(v, r.v, d, log[e := Tomb]) && r.v.inodes == v.inodes && r.v.used == v.used)
            && (!r.ok ==> r.v == v)
  {
    hide EntryOf, SetBlk, Own, P, Blk, PutEntry, Undisturbed, GoodEnt, Buried;
    var din := GetInode(v, d);
    ScansFind(v, din, name, 0);
    var e := RemoveFrom(v, din, name, 0);
    if e < SlotCount(din) {
      BuriedGood(EntryOf(v, din, e));
      PutSlotEdit(v, d, e, Buried(EntryOf(v, din, e)));
      assert Log(v, din)[e].ino == EntryOf(v, din, e).ino;
    }
  }

  lemma SetSlotInoEffect(v: Vol, d: int, e: nat, ino: Word)
    requires Owned(v) && InoValid(v, d) && DirOK(v, GetInode(v, d)) && ino != 0
    requires var log := Log(v, GetInode(v, d)); e < |log| && log[e].Live?
    ensures var log := Log(v, GetInode(v, d)); var w := SetSlotIno(v, d, e, ino);
            LogEdit(v, w, d, log[e := log[e].(ino := ino)]) && w.inodes == v.inodes && w.used == v.used
  {
    hide EntryOf, SetBlk, Own, P, Blk, PutEntry, Undisturbed;
    var din := GetInode(v, d);
    assert GoodSlot(v, din, e);
    PutSlotEdit(v, d, e, EntryOf(v, din, e).(ino := ino));
  }

  /** An inode nobody disturbed shows the same directory. */
  lemma UndisturbedLog(v: Vol, w: Vol, a: Inode)
    requires Undisturbed(v, w, a)
    ensures Log(w, a) == Log(v, a) && (DirOK(v, a) ==> DirOK(w, a))
  {
    forall f: nat ensures EntryOf(w, a, f) == EntryOf(v, a, f) && Lookup(w, a, f / 7) == Lookup(v, a, f / 7) {
      if f / 7 < MAP_LIMIT { PathIsChain(f / 7); }
    }
    hide EntryOf, Lookup, Undisturbed;
    if DirOK(v, a) {
      forall e | 0 <= e < SlotCount(a) ensures GoodSlot(w, a, e) { assert GoodSlot(v, a, e); }
    }
  }
}
