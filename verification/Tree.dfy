/** The directory tree as a value: allocated inodes with their modes and directory logs. */
module Tree {
  import opened Bytes
  import opened Directory
  import opened Paths

  /** A file has the empty log. */
  datatype Node = Node(mode: Word, log: seq<Slot>)

  type Tree = map<int, Node>

  predicate DirIn(t: Tree, d: int) { d in t && IsDir(t[d].mode) }

  /** Slot e of directory d is a live entry, other than "." and "..", for inode n. */
  predicate Entry(t: Tree, d: int, e: int, n: int) {
    DirIn(t, d) && 2 <= e < |t[d].log| && t[d].log[e].Live? && t[d].log[e].ino == n
  }

  /** The inode the ".." slot names. */
  function Par(t: Tree, d: int): int {
    if DirIn(t, d) && |t[d].log| >= 2 && t[d].log[1].Live? then t[d].log[1].ino else 0
  }

  /** i steps up the ".." chain. */
  function Up(t: Tree, d: int, i: nat): int
    decreases i
  {
    if i == 0 then d else Up(t, Par(t, d), i - 1)
  }

  ghost predicate ReachesRoot(t: Tree, d: int) { exists i: nat :: Up(t, d, i) == 1 }

  ghost predicate UniqueNames(log: seq<Slot>) {
    forall i, j :: 0 <= i < |log| && 0 <= j < |log| && log[i].Live? && log[j].Live? && log[i].name == log[j].name
        ==> i == j
  }

  ghost predicate Dotted(t: Tree, d: int)
    requires d in t
  {
    var log := t[d].log;
    && |log| >= 2
    && log[0].Live? && log[0].name == DOT && log[0].ino == d && log[0].typ == 1
    && log[1].Live? && log[1].name == DOTDOT && log[1].typ == 1
    && UniqueNames(log)
  }

  /** A live entry: it names an allocated inode of its own type, and a directory it names points back. */
  ghost predicate GoodEntry(t: Tree, d: int, e: int, n: int)
    requires Entry(t, d, e, n)
  {
    && n in t && n != 1 && ValidName(t[d].log[e].name)
    && (t[d].log[e].typ == 1 <==> IsDir(t[n].mode))
    && (IsDir(t[n].mode) ==> Par(t, n) == d)
  }

  ghost predicate HasEntry(t: Tree, n: int) { exists d, e :: Entry(t, d, e, n) }

  /** The invariant of every run. */
  ghost predicate TreeInv(t: Tree) {
    && DirIn(t, 1) && Par(t, 1) == 1 && 0 !in t
    && (forall d :: DirIn(t, d) ==> Dotted(t, d))
    && (forall d, e, n :: Entry(t, d, e, n) ==> GoodEntry(t, d, e, n))
    && (forall d, e, c, f, n :: Entry(t, d, e, n) && Entry(t, c, f, n) ==> d == c && e == f)
    && (forall n {:trigger HasEntry(t, n)} :: n in t && n != 1 ==> HasEntry(t, n))
    && (forall d {:trigger ReachesRoot(t, d)} :: DirIn(t, d) ==> ReachesRoot(t, d))
  }

  // ---------------------------------------------------------------------
  // Logs as finite maps

  function Find(log: seq<Slot>, name: Name): (e: nat)
    ensures e <= |log|
  {
    LogFind(log, name, 0)
  }

  /** Add then find returns the entry; other names are found as before. */
  lemma FindAppend(log: seq<Slot>, name: Name, ino: Word, typ: Byte, other: Name)
    requires Find(log, name) == |log|
    ensures var r := log + [Live(name, ino, typ)];
            && Find(r, name) == |log|
            && (other != name ==> Find(r, other) == if Find(log, other) < |log| then Find(log, other) else |r|)
  {
    var r := log + [Live(name, ino, typ)];
    assert forall i :: 0 <= i < |log| ==> r[i] == log[i];
    assert r[|log|].name == name;
  }

  /** Remove then find fails; other names are found as before. */
  lemma FindBury(log: seq<Slot>, e: nat, other: Name)
    requires e < |log| && log[e].Live? && UniqueNames(log)
    ensures Find(log[e := Tomb], other) == if other == log[e].name then |log| else Find(log, other)
  {
    var r := log[e := Tomb];
    var f, g := Find(r, other), Find(log, other);
    if f < |log| { assert r[f] == log[f]; }
    if g < |log| && g != e { assert r[g] == log[g]; }
  }

  lemma UniqueAppend(log: seq<Slot>, name: Name, ino: Word, typ: Byte)
    requires UniqueNames(log) && Find(log, name) == |log|
    ensures UniqueNames(log + [Live(name, ino, typ)])
  {
  }

  lemma UniqueFind(log: seq<Slot>, e: nat)
    requires UniqueNames(log) && e < |log| && log[e].Live?
    ensures Find(log, log[e].name) == e
  {
  }

  // ---------------------------------------------------------------------
  // Climbing

  /** The parent of a directory is a directory that holds its entry. */
  lemma ParIsDir(t: Tree, d: int)
    requires TreeInv(t) && DirIn(t, d) && d != 1
    ensures DirIn(t, Par(t, d)) && exists e :: Entry(t, Par(t, d), e, d)
  {
    assert HasEntry(t, d);
    var c, e :| Entry(t, c, e, d);
    assert GoodEntry(t, c, e, d);
  }

  lemma {:induction false} UpAdd(t: Tree, d: int, i: nat, j: nat)
    ensures Up(t, d, i + j) == Up(t, Up(t, d, i), j)
    decreases i
  {
    if i > 0 { UpAdd(t, Par(t, d), i - 1, j); }
  }

  lemma {:induction false} UpIsDir(t: Tree, d: int, i: nat)
    requires TreeInv(t) && DirIn(t, d)
    ensures DirIn(t, Up(t, d, i))
    decreases i
  {
    if i > 0 {
      if d != 1 { ParIsDir(t, d); }
      UpIsDir(t, Par(t, d), i - 1);
    }
  }

  /** The ".." chain of d up to step i never meets m. */
  ghost predicate Avoids(t: Tree, d: int, i: nat, m: int) { forall j: nat :: j < i ==> Up(t, d, j) != m }

  /** Chains that avoid the changed directory are the same in both trees. */
  lemma {:induction false} UpFrame(t: Tree, u: Tree, d: int, i: nat, m: int)
    requires TreeInv(t) && DirIn(t, d) && Avoids(t, d, i, m)
    requires forall x :: DirIn(t, x) && x != m ==> Par(u, x) == Par(t, x)
    ensures Up(u, d, i) == Up(t, d, i)
    decreases i
  {
    if i > 0 {
      assert Up(t, d, 0) != m;
      if d != 1 { ParIsDir(t, d); }
      forall j: nat | j < i - 1 ensures Up(t, Par(t, d), j) != m { assert Up(t, d, j + 1) != m; }
      UpFrame(t, u, Par(t, d), i - 1, m);
    }
  }

  /** Either the chain avoids m for i steps, or there is a first meeting. */
  lemma {:induction false} FirstMeeting(t: Tree, d: int, i: nat, m: int)
    ensures Avoids(t, d, i, m) || exists j: nat :: j < i && Up(t, d, j) == m && Avoids(t, d, j, m)
    decreases i
  {
    if i > 0 {
      FirstMeeting(t, d, i - 1, m);
      if Avoids(t, d, i - 1, m) && Up(t, d, i - 1) != m {
        assert Avoids(t, d, i, m);
      }
    }
  }

  /** m lies on the ".." chain of q: q is m or inside m. */
  ghost predicate Inside(t: Tree, m: int, q: int) { exists j: nat :: Up(t, q, j) == m }

  /** Hanging directory m under q keeps every directory connected to the root, if q is not inside m. */
  lemma Reparent(t: Tree, u: Tree, m: int, q: int, d: int)
    requires TreeInv(t) && DirIn(t, m) && m != 1 && DirIn(t, q) && !Inside(t, m, q) && DirIn(t, d)
    requires Par(u, m) == q
    requires forall x :: DirIn(t, x) && x != m ==> Par(u, x) == Par(t, x)
    ensures ReachesRoot(u, d)
  {
    assert ReachesRoot(t, d) && ReachesRoot(t, q);
    var i: nat :| Up(t, d, i) == 1;
    var k: nat :| Up(t, q, k) == 1;
    FirstMeeting(t, d, i, m);
    if Avoids(t, d, i, m) {
      UpFrame(t, u, d, i, m);
    } else {
      var j: nat :| j < i && Up(t, d, j) == m && Avoids(t, d, j, m);
      UpFrame(t, u, d, j, m);
      UpFrame(t, u, q, k, m);
      UpAdd(u, d, j, k + 1);
      assert Up(u, m, k + 1) == Up(u, q, k) == 1;
      assert Up(u, d, j + (k + 1)) == 1;
    }
  }

  // ---------------------------------------------------------------------
  // The edits of create, delete and rename

  function Add(t: Tree, d: int, name: Name, n: Word, typ: Byte): Tree
    requires d in t
  {
    t[d := Node(t[d].mode, t[d].log + [Live(name, n, typ)])]
  }

  function Bury(t: Tree, d: int, e: int): Tree
    requires d in t && 0 <= e < |t[d].log|
  {
    t[d := Node(t[d].mode, t[d].log[e := Tomb])]
  }

  /** Points the ".." slot of m to q. */
  function SetPar(t: Tree, m: int, q: Word): Tree {
    if m in t && |t[m].log| >= 2 && t[m].log[1].Live? then
      t[m := Node(t[m].mode, t[m].log[1 := t[m].log[1].(ino := q)])]
    else t
  }

  /** A new node n, and an entry for it in directory d. */
  function Link(t: Tree, d: int, name: Name, n: Word, typ: Byte, node: Node): Tree
    requires d in t
  {
    Add(t[n := node], d, name, n, typ)
  }

  function Create(t: Tree, d: int, name: Name, n: Word, typ: Byte): Tree
    requires d in t
  {
    Link(t, d, name, n, typ, Node(typ, []))
  }

  function Delete(t: Tree, d: int, e: int, n: int): Tree
    requires Entry(t, d, e, n)
  {
    Bury(t, d, e) - {n}
  }

  /** An empty file, or a directory holding just its two dots. */
  ghost predicate FreshNode(node: Node, n: Word, d: int, typ: Byte) {
    if IsDir(node.mode) then
      && typ == 1 && |node.log| == 2 && node.log[0] == Live(DOT, n, 1)
      && node.log[1].Live? && node.log[1].name == DOTDOT && node.log[1].ino == d && node.log[1].typ == 1
    else typ != 1 && node.log == []
  }

  /** A fresh file or directory is linked into a directory. */
  lemma LinkKeeps(t: Tree, d: int, name: Name, n: Word, typ: Byte, node: Node)
    requires TreeInv(t) && DirIn(t, d) && n !in t && n != 0 && FreshNode(node, n, d, typ)
    requires ValidName(name) && Find(t[d].log, name) == |t[d].log|
    ensures TreeInv(Link(t, d, name, n, typ, node))
  {
    var u := Link(t, d, name, n, typ, node);
    UniqueAppend(t[d].log, name, n, typ);
    assert d != n && u[n] == node;
    LinkEntries(t, d, name, n, typ, node);
    forall x | x in t ensures Par(u, x) == Par(t, x) && (DirIn(u, x) <==> DirIn(t, x)) {
      assert DirIn(t, x) ==> Dotted(t, x);
    }
    forall x, f, k | Entry(u, x, f, k) ensures GoodEntry(u, x, f, k) { LinkGood(t, d, name, n, typ, node, x, f, k); }
    LinkUnique(t, d, name, n, typ, node);
    forall k | k in u && k != 1 ensures HasEntry(u, k) {
      if k == n { assert Entry(u, d, |t[d].log|, n); } else {
        assert HasEntry(t, k);
        var x, f :| Entry(t, x, f, k);
        assert Entry(u, x, f, k);
      }
    }
    LinkClimb(t, d, name, n, typ, node);
    forall x | DirIn(u, x) ensures Dotted(u, x) { if x != n { assert Dotted(t, x); } }
    hide Link, ReachesRoot, HasEntry, GoodEntry, Entry, Dotted;
  }

  lemma LinkEntries(t: Tree, d: int, name: Name, n: Word, typ: Byte, node: Node)
    requires TreeInv(t) && DirIn(t, d) && n !in t && FreshNode(node, n, d, typ)
    ensures var u := Link(t, d, name, n, typ, node);
            forall x, f, k :: Entry(u, x, f, k) <==> Entry(t, x, f, k) || (x == d && f == |t[d].log| && k == n)
  {
    var u := Link(t, d, name, n, typ, node);
    assert Dotted(t, d);
    forall x, f, k ensures Entry(u, x, f, k) <==> Entry(t, x, f, k) || (x == d && f == |t[d].log| && k == n) {
      if x != d && x != n && x in t { assert u[x] == t[x]; }
    }
  }

  lemma LinkGood(t: Tree, d: int, name: Name, n: Word, typ: Byte, node: Node, x: int, f: int, k: int)
    requires TreeInv(t) && DirIn(t, d) && n !in t && FreshNode(node, n, d, typ) && ValidName(name)
    ensures var u := Link(t, d, name, n, typ, node); Entry(u, x, f, k) ==> GoodEntry(u, x, f, k)
  {
    var u := Link(t, d, name, n, typ, node);
    LinkEntries(t, d, name, n, typ, node);
    if Entry(u, x, f, k) {
      assert Entry(t, x, f, k) ==> GoodEntry(t, x, f, k);
      assert DirIn(t, k) ==> Dotted(t, k);
      assert Dotted(t, d);
      hide TreeInv;
    }
  }

  lemma LinkUnique(t: Tree, d: int, name: Name, n: Word, typ: Byte, node: Node)
    requires TreeInv(t) && DirIn(t, d) && n !in t && FreshNode(node, n, d, typ)
    ensures var u := Link(t, d, name, n, typ, node);
            forall x, f, y, h, k :: Entry(u, x, f, k) && Entry(u, y, h, k) ==> x == y && f == h
  {
    var u := Link(t, d, name, n, typ, node);
    LinkEntries(t, d, name, n, typ, node);
    forall x, f, y, h, k | Entry(u, x, f, k) && Entry(u, y, h, k) ensures x == y && f == h {
      if Entry(t, x, f, k) { assert GoodEntry(t, x, f, k); }
      if Entry(t, y, h, k) { assert GoodEntry(t, y, h, k); }
      hide Link, Entry;
    }
  }

  lemma LinkClimb(t: Tree, d: int, name: Name, n: Word, typ: Byte, node: Node)
    requires TreeInv(t) && DirIn(t, d) && n !in t && n != 0 && FreshNode(node, n, d, typ)
    ensures var u := Link(t, d, name, n, typ, node); forall x :: DirIn(u, x) ==> ReachesRoot(u, x)
  {
    var u := Link(t, d, name, n, typ, node);
    forall x | DirIn(t, x) ensures Par(u, x) == Par(t, x) && DirIn(u, x) { assert Dotted(t, x); }
    forall x | DirIn(u, x) ensures ReachesRoot(u, x) {
      if x != n {
        assert DirIn(t, x);
        SameClimb(t, u, x);
      } else {
        SameClimb(t, u, d);
        var i: nat :| Up(u, d, i) == 1;
        assert Up(u, n, i + 1) == 1;
      }
    }
  }

  /** Creating keeps the tree if and only if a file is created: a directory made so has no dots. */
  lemma CreateKeeps(t: Tree, d: int, name: Name, n: Word, typ: Byte)
    requires TreeInv(t) && DirIn(t, d) && n !in t && n != 0
    requires ValidName(name) && Find(t[d].log, name) == |t[d].log|
    ensures TreeInv(Create(t, d, name, n, typ)) <==> typ % 2 == 0
  {
    if typ % 2 == 0 {
      LinkKeeps(t, d, name, n, typ, Node(typ, []));
    } else {
      var u := Create(t, d, name, n, typ);
      assert DirIn(u, n) && u[n].log == [];
      assert !Dotted(u, n);
    }
  }

  /** A directory whose chain nobody touched still reaches the root. */
  lemma SameClimb(t: Tree, u: Tree, d: int)
    requires TreeInv(t) && DirIn(t, d)
    requires forall x :: DirIn(t, x) ==> Par(u, x) == Par(t, x)
    ensures ReachesRoot(u, d)
  {
    assert ReachesRoot(t, d);
    var i: nat :| Up(t, d, i) == 1;
    forall j: nat | j < i ensures Up(t, d, j) != -1 { UpIsDir(t, d, j); NoNegative(t, Up(t, d, j)); }
    UpFrame(t, u, d, i, -1);
  }

  lemma NoNegative(t: Tree, n: int)
    requires TreeInv(t) && n in t
    ensures n > 0
  {
    if n != 1 {
      assert HasEntry(t, n);
    }
  }

  /** A file, or a directory that never had a child, is deleted: nothing is orphaned. */
  lemma DeleteKeeps(t: Tree, d: int, e: int, n: int)
    requires TreeInv(t) && Entry(t, d, e, n) && (DirIn(t, n) ==> |t[n].log| <= 2)
    ensures TreeInv(Delete(t, d, e, n))
  {
    var u := Delete(t, d, e, n);
    assert GoodEntry(t, d, e, n);
    DeleteEntries(t, d, e, n);
    forall x | DirIn(u, x) ensures DirIn(t, x) && Par(u, x) == Par(t, x) && Dotted(u, x) { assert Dotted(t, x); }
    forall x, f, k | Entry(u, x, f, k) ensures GoodEntry(u, x, f, k) {
      assert GoodEntry(t, x, f, k);
      assert u[x].log[f] == t[x].log[f];
      assert k in u && u[k].mode == t[k].mode;
    }
    forall k | k in u && k != 1 ensures HasEntry(u, k) {
      assert HasEntry(t, k);
      var x, f :| Entry(t, x, f, k);
      assert Entry(u, x, f, k);
    }
    forall x | DirIn(u, x) ensures ReachesRoot(u, x) {
      DeletePar(t, d, e, n);
      DeleteClimb(t, u, n, x);
    }
    hide Delete, ReachesRoot, HasEntry, GoodEntry, Dotted, Entry;
  }

  lemma DeletePar(t: Tree, d: int, e: int, n: int)
    requires TreeInv(t) && Entry(t, d, e, n) && d != n
    ensures var u := Delete(t, d, e, n); forall y :: DirIn(t, y) && y != n ==> Par(u, y) == Par(t, y)
  {
    var u := Delete(t, d, e, n);
    forall y | DirIn(t, y) && y != n ensures Par(u, y) == Par(t, y) { assert Dotted(t, y); }
  }

  lemma DeleteEntries(t: Tree, d: int, e: int, n: int)
    requires TreeInv(t) && Entry(t, d, e, n) && (DirIn(t, n) ==> |t[n].log| <= 2)
    ensures d != n
    ensures var u := Delete(t, d, e, n);
            && (forall x, f, k :: Entry(u, x, f, k) <==> Entry(t, x, f, k) && k != n)
            && (forall x, f, k :: Entry(u, x, f, k) ==> u[x].log[f] == t[x].log[f])
  {
    var u := Delete(t, d, e, n);
    forall x, f, k ensures Entry(u, x, f, k) <==> Entry(t, x, f, k) && k != n {
      if Entry(t, x, f, k) && k != n { assert x != n; }
      if Entry(u, x, f, k) && x != d { assert u[x] == t[x]; }
      if Entry(u, x, f, k) && x == d { assert f != e && u[d].log[f] == t[d].log[f]; }
    }
  }

  /** No chain of another directory passes through a directory without children. */
  lemma DeleteClimb(t: Tree, u: Tree, n: int, x: int)
    requires TreeInv(t) && DirIn(t, x) && x != n && (forall f, k :: !Entry(t, n, f, k))
    requires forall y :: DirIn(t, y) && y != n ==> Par(u, y) == Par(t, y)
    ensures ReachesRoot(u, x)
  {
    assert ReachesRoot(t, x);
    var i: nat :| Up(t, x, i) == 1;
    forall j: nat | j < i ensures Up(t, x, j) != n { NeverThrough(t, n, x, j); }
    UpFrame(t, u, x, i, n);
  }

  lemma {:induction false} NeverThrough(t: Tree, n: int, x: int, j: nat)
    requires TreeInv(t) && DirIn(t, x) && x != n && (forall f, k :: !Entry(t, n, f, k))
    ensures Up(t, x, j) != n
    decreases j
  {
    if j > 0 {
      if x != 1 { ParIsDir(t, x); }
      NeverThrough(t, n, Par(t, x), j - 1);
    }
  }

  // ---------------------------------------------------------------------
  // Rename

  /** The tree after an entry has moved: added under q, ".." set, buried under d. */
  function Move(t: Tree, d: int, e: int, m: int, q: int, name: Name): Tree
    requires Entry(t, d, e, m) && q in t && 0 <= q < TWO32
  {
    var t1 := Add(t, q, name, m, t[d].log[e].typ);
    var t2 := if t[d].log[e].typ == 1 then SetPar(t1, m, q) else t1;
    Bury(t2, d, e)
  }

  /** The conditions under which rename reaches its edits. */
  ghost predicate MoveReady(t: Tree, d: int, e: int, m: int, q: int, name: Name) {
    && TreeInv(t) && Entry(t, d, e, m) && DirIn(t, q) && 0 <= q < TWO32
    && ValidName(name) && Find(t[q].log, name) == |t[q].log|
  }

  lemma MoveReadyFacts(t: Tree, d: int, e: int, m: int, q: int, name: Name)
    requires MoveReady(t, d, e, m, q, name)
    ensures m in t && m != 1 && (t[d].log[e].typ == 1 <==> IsDir(t[m].mode))
    ensures IsDir(t[m].mode) ==> Par(t, m) == d && d != 0 && |t[m].log| >= 2 && t[m].log[1].Live?
  {
    assert GoodEntry(t, d, e, m);
    NoNegative(t, d);
    if IsDir(t[m].mode) { assert Dotted(t, m); }
  }

  /** The log of each directory after a move. */
  lemma MoveLog(t: Tree, d: int, e: int, m: int, q: int, name: Name, x: int)
    requires MoveReady(t, d, e, m, q, name) && x in t
    ensures m in t
    ensures var u := Move(t, d, e, m, q, name); var a := t[x].log;
            var b := if x == q then a + [Live(name, m, t[d].log[e].typ)] else a;
            var c := if x == m && IsDir(t[m].mode) then b[1 := b[1].(ino := q)] else b;
            u.Keys == t.Keys && u[x].mode == t[x].mode && u[x].log == if x == d then c[e := Tomb] else c
  {
    hide TreeInv;
    MoveReadyFacts(t, d, e, m, q, name);
  }

  lemma MoveTarget(t: Tree, d: int, e: int, m: int, q: int, name: Name)
    requires MoveReady(t, d, e, m, q, name)
    ensures Dotted(t, q)
  {
  }

  lemma MoveEntry(t: Tree, d: int, e: int, m: int, q: int, name: Name, x: int, f: int, k: int)
    requires MoveReady(t, d, e, m, q, name)
    ensures var u := Move(t, d, e, m, q, name);
            && (Entry(u, x, f, k)
               <==> (Entry(t, x, f, k) && !(x == d && f == e)) || (x == q && f == |t[q].log| && k == m))
            && (Entry(t, x, f, k) && !(x == d && f == e) ==> u[x].log[f] == t[x].log[f])
  {
    hide TreeInv, Move, Find, ValidName;
    assert Dotted(t, q) by { MoveTarget(t, d, e, m, q, name); }
    MoveReadyFacts(t, d, e, m, q, name);
    if x in t { MoveLog(t, d, e, m, q, name, x); } else { MoveLog(t, d, e, m, q, name, d); }
  }

  lemma MovePar(t: Tree, d: int, e: int, m: int, q: int, name: Name, x: int)
    requires MoveReady(t, d, e, m, q, name) && DirIn(t, x)
    ensures var u := Move(t, d, e, m, q, name);
            DirIn(u, x) && Par(u, x) == if x == m then q else Par(t, x)
  {
    assert Dotted(t, x);
    hide TreeInv, Move;
    MoveReadyFacts(t, d, e, m, q, name);
    MoveLog(t, d, e, m, q, name, x);
  }

  lemma MoveDotted(t: Tree, d: int, e: int, m: int, q: int, name: Name, x: int)
    requires MoveReady(t, d, e, m, q, name) && DirIn(t, x)
    ensures var u := Move(t, d, e, m, q, name); DirIn(u, x) && Dotted(u, x)
  {
    assert Dotted(t, x) && Dotted(t, q);
    MoveReadyFacts(t, d, e, m, q, name);
    MoveLog(t, d, e, m, q, name, x);
    if x == q { UniqueAppend(t[q].log, name, m, t[d].log[e].typ); }
    hide TreeInv, Move, MoveReady, Find, Par;
    var a := t[x].log;
    var b := if x == q then a + [Live(name, m, t[d].log[e].typ)] else a;
    var c := if x == m && IsDir(t[m].mode) then b[1 := b[1].(ino := q)] else b;
    assert UniqueNames(b);
    UniqueSetPar(b, q);
    assert UniqueNames(c);
    assert UniqueNames(if x == d then c[e := Tomb] else c);
  }

  lemma UniqueSetPar(log: seq<Slot>, q: Word)
    requires |log| >= 2 && log[1].Live? && UniqueNames(log)
    ensures UniqueNames(log[1 := log[1].(ino := q)])
  {
    var r := log[1 := log[1].(ino := q)];
    assert forall i :: 0 <= i < |log| ==> (r[i].Live? <==> log[i].Live?) && (r[i].Live? ==> r[i].name == log[i].name);
  }

  lemma MoveGood(t: Tree, d: int, e: int, m: int, q: int, name: Name, x: int, f: int, k: int)
    requires MoveReady(t, d, e, m, q, name)
    ensures var u := Move(t, d, e, m, q, name); Entry(u, x, f, k) ==> GoodEntry(u, x, f, k)
  {
    MoveReadyFacts(t, d, e, m, q, name);
    var u := Move(t, d, e, m, q, name);
    if Entry(u, x, f, k) {
      MoveEntry(t, d, e, m, q, name, x, f, k);
      if Entry(t, x, f, k) {
        assert GoodEntry(t, x, f, k);
        assert Entry(t, d, e, m) && k == m ==> x == d && f == e;
      }
      assert k in t;
      MoveLog(t, d, e, m, q, name, k);
      if DirIn(t, k) { MovePar(t, d, e, m, q, name, k); }
      if x == q && f == |t[q].log| {
        MoveLog(t, d, e, m, q, name, q);
      }
      hide TreeInv, Move;
    }
  }

  /**
   * Moving a file, or a directory to a place outside itself, keeps the tree: one entry per inode, ".." equal
   * to the real parent, everything connected to the root.
   */
  lemma MoveKeeps(t: Tree, d: int, e: int, m: int, q: int, name: Name)
    requires MoveReady(t, d, e, m, q, name) && (DirIn(t, m) ==> !Inside(t, m, q))
    ensures TreeInv(Move(t, d, e, m, q, name))
  {
    MoveReadyFacts(t, d, e, m, q, name);
    var u := Move(t, d, e, m, q, name);
    forall x ensures DirIn(u, x) <==> DirIn(t, x) { if x in t { MoveLog(t, d, e, m, q, name, x); } }
    assert u.Keys == t.Keys by { MoveLog(t, d, e, m, q, name, d); }
    forall x | DirIn(t, x) ensures Par(u, x) == (if x == m then q else Par(t, x)) && Dotted(u, x) {
      MovePar(t, d, e, m, q, name, x);
      MoveDotted(t, d, e, m, q, name, x);
    }
    forall x, f, k | Entry(u, x, f, k) ensures GoodEntry(u, x, f, k) { MoveGood(t, d, e, m, q, name, x, f, k); }
    forall x, f, y, h, k | Entry(u, x, f, k) && Entry(u, y, h, k) ensures x == y && f == h {
      MoveEntry(t, d, e, m, q, name, x, f, k);
      MoveEntry(t, d, e, m, q, name, y, h, k);
    }
    forall k | k in u && k != 1 ensures HasEntry(u, k) { MoveHas(t, d, e, m, q, name, k); }
    forall x | DirIn(u, x) ensures ReachesRoot(u, x) {
      if DirIn(t, m) { Reparent(t, u, m, q, x); } else { SameClimb(t, u, x); }
    }
    hide Move, Entry, Par, GoodEntry, Dotted, HasEntry, ReachesRoot;
  }

  lemma MoveHas(t: Tree, d: int, e: int, m: int, q: int, name: Name, k: int)
    requires MoveReady(t, d, e, m, q, name) && k in t && k != 1
    ensures HasEntry(Move(t, d, e, m, q, name), k)
  {
    MoveReadyFacts(t, d, e, m, q, name);
    var u := Move(t, d, e, m, q, name);
    assert HasEntry(t, k);
    if k == m {
      MoveEntry(t, d, e, m, q, name, q, |t[q].log|, m);
    } else {
      var x, f :| Entry(t, x, f, k);
      MoveEntry(t, d, e, m, q, name, x, f, k);
    }
  }
}
