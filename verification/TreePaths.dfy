/** Walking the tree by names: every inode has exactly one path, and a rename carries paths over. */
module TreePaths {
  import opened Bytes
  import opened Directory
  import opened Paths
  import opened Tree

  /** The inode a name leads to from directory d, or -1. */
  function Step(t: Tree, d: int, name: Name): int {
    if DirIn(t, d) && Find(t[d].log, name) < |t[d].log| then t[d].log[Find(t[d].log, name)].ino else -1
  }

  function Walk(t: Tree, d: int, names: seq<Name>): int
    decreases |names|
  {
    if names == [] then d
    else if Step(t, d, names[0]) < 0 then -1
    else Walk(t, Step(t, d, names[0]), names[1..])
  }

  lemma {:induction false} WalkAppend(t: Tree, d: int, a: seq<Name>, b: seq<Name>)
    ensures Walk(t, d, a + b) == if a != [] && Walk(t, d, a) < 0 then -1 else Walk(t, Walk(t, d, a), b)
    decreases |a|
  {
    if a == [] {
      assert a + b == b;
    } else {
      assert (a + b)[1..] == a[1..] + b;
      if Step(t, d, a[0]) >= 0 { WalkAppend(t, Step(t, d, a[0]), a[1..], b); }
    }
  }

  lemma WalkLast(t: Tree, d: int, a: seq<Name>, s: Name)
    ensures Walk(t, d, a + [s]) == if a != [] && Walk(t, d, a) < 0 then -1 else Step(t, Walk(t, d, a), s)
  {
    WalkAppend(t, d, a, [s]);
  }

  /** A step by a plain name goes through a proper entry. */
  lemma StepEntry(t: Tree, d: int, s: Name)
    requires TreeInv(t) && Step(t, d, s) >= 0 && s != DOT && s != DOTDOT
    ensures var e := Find(t[d].log, s); Entry(t, d, e, Step(t, d, s)) && Step(t, d, s) in t && Step(t, d, s) != 1
  {
    assert Dotted(t, d);
    var e := Find(t[d].log, s);
    assert Entry(t, d, e, Step(t, d, s));
    assert GoodEntry(t, d, e, Step(t, d, s));
  }

  /** The name of an entry leads to the inode of the entry. */
  lemma EntryStep(t: Tree, d: int, e: int, n: int)
    requires TreeInv(t) && Entry(t, d, e, n)
    ensures Step(t, d, t[d].log[e].name) == n && Find(t[d].log, t[d].log[e].name) == e
    ensures ValidName(t[d].log[e].name)
  {
    assert Dotted(t, d) && GoodEntry(t, d, e, n);
    UniqueFind(t[d].log, e);
  }

  ghost predicate PlainNames(names: seq<Name>) {
    forall i :: 0 <= i < |names| ==> names[i] != DOT && names[i] != DOTDOT
  }

  lemma {:induction false} WalkIn(t: Tree, d: int, names: seq<Name>)
    requires TreeInv(t) && d in t && PlainNames(names) && Walk(t, d, names) >= 0
    ensures Walk(t, d, names) in t
    decreases |names|
  {
    if names != [] {
      StepEntry(t, d, names[0]);
      WalkIn(t, Step(t, d, names[0]), names[1..]);
    }
  }

  /** No two plain paths from the root lead to the same inode. */
  lemma {:induction false} PathsUnique(t: Tree, a: seq<Name>, b: seq<Name>)
    requires TreeInv(t) && PlainNames(a) && PlainNames(b)
    requires Walk(t, 1, a) == Walk(t, 1, b) >= 0
    ensures a == b
    decreases |a| + |b|
  {
    if a == [] || b == [] {
      var c := if a == [] then b else a;
      if c != [] {
        LastStep(t, c);
      }
    } else {
      LastStep(t, a);
      LastStep(t, b);
      var a', b' := a[..|a| - 1], b[..|b| - 1];
      PathsUnique(t, a', b');
      assert a == a' + [a[|a| - 1]] && b == b' + [b[|b| - 1]];
    }
  }

  /** The last step of a successful walk from the root. */
  lemma LastStep(t: Tree, a: seq<Name>)
    requires TreeInv(t) && PlainNames(a) && a != [] && Walk(t, 1, a) >= 0
    ensures var d, s, n := Walk(t, 1, a[..|a| - 1]), a[|a| - 1], Walk(t, 1, a);
            && d in t && d >= 0 && n != 1 && Step(t, d, s) == n
            && Find(t[d].log, s) < |t[d].log| && t[d].log[Find(t[d].log, s)].Live?
            && t[d].log[Find(t[d].log, s)].name == s
            && Entry(t, d, Find(t[d].log, s), n)
  {
    var f, s := a[..|a| - 1], a[|a| - 1];
    assert a == f + [s];
    WalkLast(t, 1, f, s);
    if f != [] { WalkIn(t, 1, f); }
    StepEntry(t, Walk(t, 1, f), s);
  }

  lemma {:induction false} PathToDir(t: Tree, d: int, i: nat) returns (names: seq<Name>)
    requires TreeInv(t) && DirIn(t, d) && Up(t, d, i) == 1
    ensures PlainNames(names) && Walk(t, 1, names) == d
    decreases i
  {
    if d == 1 {
      names := [];
    } else {
      ParIsDir(t, d);
      var p := Par(t, d);
      var e :| Entry(t, p, e, d);
      var front := PathToDir(t, p, i - 1);
      var s := t[p].log[e].name;
      EntryStep(t, p, e, d);
      NoNegative(t, p);
      WalkLast(t, 1, front, s);
      names := front + [s];
    }
  }

  /** Every allocated inode is reachable from the root by names. */
  lemma EveryInodeHasPath(t: Tree, n: int) returns (names: seq<Name>)
    requires TreeInv(t) && n in t
    ensures PlainNames(names) && Walk(t, 1, names) == n
  {
    if n == 1 { return []; }
    assert HasEntry(t, n);
    var d, e :| Entry(t, d, e, n);
    assert ReachesRoot(t, d);
    var i: nat :| Up(t, d, i) == 1;
    var front := PathToDir(t, d, i);
    var s := t[d].log[e].name;
    EntryStep(t, d, e, n);
    NoNegative(t, d);
    WalkLast(t, 1, front, s);
    names := front + [s];
  }

  // ---------------------------------------------------------------------
  // Paths across a rename

  /** One step in the tree after a move. */
  lemma StepMove(t: Tree, d: int, e: int, m: int, q: int, name: Name, x: int, s: Name)
    requires MoveReady(t, d, e, m, q, name) && x in t && s != DOT && s != DOTDOT
    ensures var u := Move(t, d, e, m, q, name);
            Step(u, x, s) == if x == q && s == name then m
                             else if x == d && s == t[d].log[e].name then -1
                             else Step(t, x, s)
  {
    MoveReadyFacts(t, d, e, m, q, name);
    hide TreeInv, Move, MoveReady, UniqueNames, MovedLog, Find, InLog;
    MoveLog(t, d, e, m, q, name, x);
    EntryStep(t, d, e, m);
    if DirIn(t, x) {
      assert Dotted(t, x) && Dotted(t, d) && Dotted(t, q);
      var u := Move(t, d, e, m, q, name);
      StepIs(t, x, s);
      StepIs(u, x, s);
      MovedIs(t[x].log, x == q, x == m && IsDir(t[m].mode), name, m, t[d].log[e].typ, q);
      InMoved(t[x].log, x == q, x == m && IsDir(t[m].mode), name, m, t[d].log[e].typ, q, x == d, e, s);
    }
  }

  /** The inode a name has in a log, or -1. */
  function InLog(log: seq<Slot>, s: Name): int { if Find(log, s) < |log| then log[Find(log, s)].ino else -1 }

  lemma StepIs(t: Tree, d: int, s: Name)
    requires DirIn(t, d)
    ensures Step(t, d, s) == InLog(t[d].log, s)
  {
  }

  lemma MovedIs(a: seq<Slot>, atQ: bool, isM: bool, name: Name, m: Word, typ: Byte, q: Word)
    requires |a| >= 2 && a[1].Live?
    ensures var b := if atQ then a + [Live(name, m, typ)] else a;
            MovedLog(a, atQ, isM, name, m, typ, q) == if isM then b[1 := b[1].(ino := q)] else b
  {
  }

  /** Looking up a name in the log of a directory after a move. */
  lemma InMoved(a: seq<Slot>, atQ: bool, isM: bool, name: Name, m: Word, typ: Byte, q: Word, atD: bool, e: int, s: Name)
    requires |a| >= 2 && a[0].Live? && a[1].Live? && a[0].name == DOT && a[1].name == DOTDOT && s != DOT && s != DOTDOT
    requires UniqueNames(a) && (atQ ==> Find(a, name) == |a|)
    requires atD ==> 2 <= e < |a| && a[e].Live? && Find(a, a[e].name) == e
    ensures |a| <= |MovedLog(a, atQ, isM, name, m, typ, q)|
    ensures var c := MovedLog(a, atQ, isM, name, m, typ, q); var r := if atD then c[e := Tomb] else c;
            InLog(r, s) == if atQ && s == name then m else if atD && s == a[e].name then -1 else InLog(a, s)
  {
    var c := MovedLog(a, atQ, isM, name, m, typ, q);
    FindMoved(a, atQ, isM, name, m, typ, q, s);
    if atD {
      FindBury(c, e, s);
    }
  }

  /** A directory log during a move: an entry appended if it is the target, ".." set if it is the moved directory. */
  function MovedLog(a: seq<Slot>, atQ: bool, isM: bool, name: Name, m: Word, typ: Byte, q: Word): (r: seq<Slot>)
    requires |a| >= 2 && a[1].Live?
  {
    var b := if atQ then a + [Live(name, m, typ)] else a;
    if isM then b[1 := b[1].(ino := q)] else b
  }

  lemma FindMoved(a: seq<Slot>, atQ: bool, isM: bool, name: Name, m: Word, typ: Byte, q: Word, s: Name)
    requires |a| >= 2 && a[0].Live? && a[1].Live? && a[0].name == DOT && a[1].name == DOTDOT && s != DOT && s != DOTDOT
    requires UniqueNames(a) && (atQ ==> Find(a, name) == |a|)
    ensures var r := MovedLog(a, atQ, isM, name, m, typ, q); var f := Find(r, s);
            && UniqueNames(r) && |a| <= |r|
            && (forall i :: 2 <= i < |a| ==> r[i] == a[i])
            && (if atQ && s == name then f == |a| < |r| && r[f] == Live(name, m, typ)
                else if Find(a, s) < |a| then f == Find(a, s) && r[f] == a[f] else f == |r|)
  {
    var b := if atQ then a + [Live(name, m, typ)] else a;
    if atQ { FindAppend(a, name, m, typ, s); UniqueAppend(a, name, m, typ); }
    FindSetPar(b, q, s);
    UniqueSetPar(b, q);
    assert Find(a, s) < |a| ==> Find(a, s) >= 2;
  }

  lemma FindSetPar(log: seq<Slot>, q: Word, s: Name)
    requires |log| >= 2 && log[1].Live?
    ensures Find(log[1 := log[1].(ino := q)], s) == Find(log, s)
  {
    var r := log[1 := log[1].(ino := q)];
    assert forall i :: 0 <= i < |log| ==> (r[i].Live? <==> log[i].Live?) && (r[i].Live? ==> r[i].name == log[i].name);
  }

  /** A path that does not go through m: no prefix of it leads there. */
  ghost predicate Outside(t: Tree, names: seq<Name>, m: int) {
    forall i :: 0 <= i <= |names| ==> Walk(t, 1, names[..i]) != m
  }

  /** The path of a directory that is not inside m does not go through m. */
  lemma {:induction false} OutsidePath(t: Tree, m: int, names: seq<Name>)
    requires TreeInv(t) && PlainNames(names) && Walk(t, 1, names) >= 0 && DirIn(t, Walk(t, 1, names)) && m != 1
    requires !Inside(t, m, Walk(t, 1, names))
    ensures Outside(t, names, m)
    decreases |names|
  {
    var q := Walk(t, 1, names);
    assert Up(t, q, 0) == q;
    if names == [] {
      assert names[..0] == [];
    } else {
      var front := names[..|names| - 1];
      LastStep(t, names);
      var p := Walk(t, 1, front);
      assert GoodEntry(t, p, Find(t[p].log, names[|names| - 1]), q);
      if j: nat :| Up(t, p, j) == m {
        assert Up(t, q, j + 1) == m;
      }
      OutsidePath(t, m, front);
      forall i | 0 <= i <= |names| ensures Walk(t, 1, names[..i]) != m {
        if i < |names| { assert names[..i] == front[..i]; } else { assert names[..i] == names; }
      }
    }
  }

  /** Where a path leads after a move, told in the tree before it. */
  function Rerouted(t: Tree, m: int, oldPath: seq<Name>, newPath: seq<Name>, names: seq<Name>): int {
    if newPath <= names then Walk(t, m, names[|newPath|..])
    else if oldPath <= names then -1
    else Walk(t, 1, names)
  }

  /**
   * After a rename every plain path leads to what it should: below the new place to what lay below the moved inode,
   * below the old place nowhere, and elsewhere to where it led before, or nowhere if it led nowhere.
   */
  lemma {:induction false} RenamePaths(t: Tree, d: int, e: int, m: int, q: int, name: Name, pd: seq<Name>,
        pq: seq<Name>, names: seq<Name>)
    requires MoveReady(t, d, e, m, q, name) && (DirIn(t, m) ==> !Inside(t, m, q))
    requires PlainNames(pd) && PlainNames(pq) && PlainNames(names)
    requires Walk(t, 1, pd) == d && Walk(t, 1, pq) == q
    ensures Walk(Move(t, d, e, m, q, name), 1, names) == Rerouted(t, m, pd + [t[d].log[e].name], pq + [name], names)
    decreases |names|
  {
    hide Move, MoveReady, Inside, Entry, Find, Step;
    MoveIn(t, d, e, m, q, name);
    var u := Move(t, d, e, m, q, name);
    var po, pn := pd + [t[d].log[e].name], pq + [name];
    if names == [] {
      assert !(pn <= names) && !(po <= names);
    } else {
      var front, s := names[..|names| - 1], names[|names| - 1];
      assert names == front + [s];
      RenamePaths(t, d, e, m, q, name, pd, pq, front);
      WalkLast(u, 1, front, s);
      if pn <= names {
        if names == pn {
          assert front == pq && s == name;
          NewReached(t, d, e, m, q, name, pd, pq);
        } else {
          assert pn <= front;
          assert names[|pn|..] == front[|pn|..] + [s];
          BelowReached(t, d, e, m, q, name, pd, pq, front[|pn|..], s);
        }
      } else {
        assert |pn| <= |front| ==> front[..|pn|] == names[..|pn|];
        assert !(pn <= front);
        WalkLast(t, 1, front, s);
        if po <= front {
          assert po <= names;
        } else {
          ElseReached(t, d, e, m, q, name, pd, pq, front, s);
        }
      }
    }
  }

  lemma MoveIn(t: Tree, d: int, e: int, m: int, q: int, name: Name)
    requires MoveReady(t, d, e, m, q, name)
    ensures TreeInv(t) && Entry(t, d, e, m) && d in t && m in t && q in t && 0 <= e < |t[d].log| && t[d].log[e].Live?
            && 0 <= q < TWO32
    ensures 1 in t && m > 0 && m != 1 && d > 0 && q > 0
  {
    MoveReadyFacts(t, d, e, m, q, name);
    NoNegative(t, d);
    NoNegative(t, m);
    NoNegative(t, q);
  }

  /** The old path does not lead on to the target directory. */
  lemma OldNotAbove(t: Tree, d: int, e: int, m: int, q: int, name: Name, pd: seq<Name>, pq: seq<Name>, p: seq<Name>)
    requires MoveReady(t, d, e, m, q, name) && (DirIn(t, m) ==> !Inside(t, m, q))
    requires PlainNames(pd) && PlainNames(pq) && Walk(t, 1, pd) == d && Walk(t, 1, pq) == q && (p == pd || p == pq)
    ensures Walk(t, 1, pd + [t[d].log[e].name]) == m
    ensures !(pd + [t[d].log[e].name] <= p)
  {
    var po := pd + [t[d].log[e].name];
    MoveIn(t, d, e, m, q, name);
    EntryStep(t, d, e, m);
    WalkLast(t, 1, pd, t[d].log[e].name);
    OutsideBoth(t, d, e, m, q, name, pd, pq);
    if |po| <= |p| { assert p[..|po|] != po; }
  }

  /** The new path itself. */
  lemma NewReached(t: Tree, d: int, e: int, m: int, q: int, name: Name, pd: seq<Name>, pq: seq<Name>)
    requires MoveReady(t, d, e, m, q, name) && (DirIn(t, m) ==> !Inside(t, m, q))
    requires PlainNames(pd) && PlainNames(pq) && Walk(t, 1, pd) == d && Walk(t, 1, pq) == q
    ensures name != DOT && name != DOTDOT
    ensures Rerouted(t, m, pd + [t[d].log[e].name], pq + [name], pq) == q
            && Step(Move(t, d, e, m, q, name), q, name) == m
  {
    OldNotAbove(t, d, e, m, q, name, pd, pq, pq);
    MoveIn(t, d, e, m, q, name);
    StepMove(t, d, e, m, q, name, q, name);
  }

  /** Below the moved inode steps are as before. */
  lemma BelowReached(t: Tree, d: int, e: int, m: int, q: int, name: Name, pd: seq<Name>, pq: seq<Name>, r: seq<Name>,
        s: Name)
    requires MoveReady(t, d, e, m, q, name) && (DirIn(t, m) ==> !Inside(t, m, q))
    requires PlainNames(pd) && PlainNames(pq) && Walk(t, 1, pd) == d && Walk(t, 1, pq) == q
    requires PlainNames(r) && s != DOT && s != DOTDOT
    ensures var y := Walk(t, m, r); Walk(t, m, r + [s]) == if y < 0 then -1 else Step(Move(t, d, e, m, q, name), y, s)
  {
    MoveIn(t, d, e, m, q, name);
    hide TreeInv, MoveReady, Inside, Move, Find, Step, Entry, PlainNames;
    WalkLast(t, m, r, s);
    var y := Walk(t, m, r);
    if y >= 0 {
      WalkIn(t, m, r);
      StepMove(t, d, e, m, q, name, y, s);
      OldNotAbove(t, d, e, m, q, name, pd, pq, pd);
      OldNotAbove(t, d, e, m, q, name, pd, pq, pq);
      NotBelow(t, d, e, m, pd, pd, r);
      NotBelow(t, d, e, m, pd, pq, r);
    }
  }

  /** What lies below the moved inode is not at the end of a path that does not start with the old one. */
  lemma NotBelow(t: Tree, d: int, e: int, m: int, pd: seq<Name>, p: seq<Name>, r: seq<Name>)
    requires TreeInv(t) && Entry(t, d, e, m) && m > 0 && PlainNames(pd) && PlainNames(p) && PlainNames(r)
    requires Walk(t, 1, pd + [t[d].log[e].name]) == m && !(pd + [t[d].log[e].name] <= p)
    requires Walk(t, 1, p) >= 0
    ensures Walk(t, m, r) != Walk(t, 1, p)
  {
    var po := pd + [t[d].log[e].name];
    EntryPlain(t, d, e, m);
    WalkAppend(t, 1, po, r);
    hide TreeInv, Entry, Walk;
    if Walk(t, 1, po + r) == Walk(t, 1, p) { PathsUnique(t, po + r, p); }
  }

  lemma EntryPlain(t: Tree, d: int, e: int, m: int)
    requires TreeInv(t) && Entry(t, d, e, m)
    ensures t[d].log[e].name != DOT && t[d].log[e].name != DOTDOT
  {
    assert GoodEntry(t, d, e, m);
  }

  /** Any other step: gone at the old entry, else as before. */
  lemma ElseReached(t: Tree, d: int, e: int, m: int, q: int, name: Name, pd: seq<Name>, pq: seq<Name>,
        front: seq<Name>, s: Name)
    requires MoveReady(t, d, e, m, q, name) && (DirIn(t, m) ==> !Inside(t, m, q))
    requires PlainNames(pd) && PlainNames(pq) && Walk(t, 1, pd) == d && Walk(t, 1, pq) == q
    requires PlainNames(front) && s != DOT && s != DOTDOT && front + [s] != pq + [name]
    ensures var x := Walk(t, 1, front);
            x >= 0 ==> Step(Move(t, d, e, m, q, name), x, s) == if front + [s] == pd + [t[d].log[e].name] then -1
                else Step(t, x, s)
  {
    MoveIn(t, d, e, m, q, name);
    var x := Walk(t, 1, front);
    if x >= 0 {
      WalkIn(t, 1, front);
      StepMove(t, d, e, m, q, name, x, s);
      if x == q { PathsUnique(t, front, pq); }
      if x == d { PathsUnique(t, front, pd); }
      var po := pd + [t[d].log[e].name];
      if front + [s] == po { assert front == po[..|po| - 1] == pd && s == po[|po| - 1]; }
    }
  }

  /** The paths of both directories of a rename lie outside the moved subtree. */
  lemma OutsideBoth(t: Tree, d: int, e: int, m: int, q: int, name: Name, pd: seq<Name>, pq: seq<Name>)
    requires MoveReady(t, d, e, m, q, name) && (DirIn(t, m) ==> !Inside(t, m, q))
    requires PlainNames(pd) && PlainNames(pq) && Walk(t, 1, pd) == d && Walk(t, 1, pq) == q
    ensures Outside(t, pd, m) && Outside(t, pq, m)
  {
    MoveReadyFacts(t, d, e, m, q, name);
    if DirIn(t, m) {
      if j: nat :| Up(t, d, j) == m {
        assert Up(t, m, j + 1) == m;
        NoUpLoop(t, m, j + 1);
      }
      NoNegative(t, d);
      NoNegative(t, q);
      OutsidePath(t, m, pd);
      OutsidePath(t, m, pq);
    } else {
      FileEndsPath(t, pd, m);
      FileEndsPath(t, pq, m);
    }
  }

  /** A file is on no path but as its end. */
  lemma FileEndsPath(t: Tree, p: seq<Name>, m: int)
    requires TreeInv(t) && PlainNames(p) && m in t && !DirIn(t, m) && DirIn(t, Walk(t, 1, p))
    ensures Outside(t, p, m)
  {
    forall i | 0 <= i <= |p| ensures Walk(t, 1, p[..i]) != m {
      assert p == p[..i] + p[i..];
      WalkAppend(t, 1, p[..i], p[i..]);
      NoNegative(t, m);
      NoNegative(t, Walk(t, 1, p));
      if i == |p| { assert p[..i] == p; }
    }
  }

  lemma NoUpLoop(t: Tree, m: int, k: nat)
    requires TreeInv(t) && DirIn(t, m) && m != 1 && k > 0
    ensures Up(t, m, k) != m
  {
    assert ReachesRoot(t, m);
    var i: nat :| Up(t, m, i) == 1;
    if Up(t, m, k) == m {
      UpRepeat(t, m, k, i);
      assert k * i >= i;
      UpAdd(t, m, i, k * i - i);
      UpRoot(t, k * i - i);
    }
  }

  lemma {:induction false} UpRepeat(t: Tree, m: int, k: nat, i: nat)
    requires Up(t, m, k) == m
    ensures Up(t, m, k * i) == m
    decreases i
  {
    if i > 0 {
      UpRepeat(t, m, k, i - 1);
      assert k * i == k * (i - 1) + k;
      UpAdd(t, m, k * (i - 1), k);
    }
  }

  lemma {:induction false} UpRoot(t: Tree, i: nat)
    requires TreeInv(t)
    ensures Up(t, 1, i) == 1
    decreases i
  {
    if i > 0 { UpRoot(t, i - 1); }
  }

  /** Renaming a directory into itself cuts it off: the tree survives exactly when the target is outside. */
  lemma MoveKeepsIff(t: Tree, d: int, e: int, m: int, q: int, name: Name)
    requires MoveReady(t, d, e, m, q, name) && DirIn(t, m)
    ensures TreeInv(Move(t, d, e, m, q, name)) <==> !Inside(t, m, q)
  {
    if Inside(t, m, q) {
      var u := Move(t, d, e, m, q, name);
      var j: nat :| Up(t, q, j) == m;
      FirstMeeting(t, q, j + 1, m);
      var i: nat :| i < j + 1 && Up(t, q, i) == m && Avoids(t, q, i, m);
      MoveReadyFacts(t, d, e, m, q, name);
      forall x | DirIn(t, x) ensures Par(u, x) == (if x == m then q else Par(t, x)) {
        MovePar(t, d, e, m, q, name, x);
      }
      UpFrame(t, u, q, i, m);
      assert Up(u, m, i + 1) == m;
      if TreeInv(u) {
        MovePar(t, d, e, m, q, name, m);
        NoUpLoop(u, m, i + 1);
        assert false;
      }
    } else {
      MoveKeeps(t, d, e, m, q, name);
    }
  }
}
