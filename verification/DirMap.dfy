/** A directory on the volume behaves like a finite map from names to inodes. */
module DirMap {
  import opened Bytes
  import opened Volume
  import opened BlockMap
  import opened Inodes
  import opened Directory
  import opened Paths
  import opened Api
  import T = Tree

  /** The inode a name stands for in directory d, or 0. */
  function Get(v: Vol, d: int, name: Name): Word {
    var f := DirFind(v, d, name);
    if f.Found? then f.ent.ino else 0
  }

  /** What lookup reads off the log. */
  lemma GetIs(v: Vol, d: int, name: Name)
    requires Owned(v) && InoValid(v, d) && IsDir(GetInode(v, d).mode) && DirOK(v, GetInode(v, d)) && NoNul(name)
    ensures var log := Log(v, GetInode(v, d)); var e := T.Find(log, name);
            Get(v, d, name) == (if e < |log| then log[e].ino else 0)
            && (e < |log| ==> DirFind(v, d, name).Found? && SlotOf(DirFind(v, d, name).ent) == log[e])
            && (e == |log| ==> DirFind(v, d, name).NotFound?)
  {
    hide Own, EntryOf, FindFrom, RemoveFrom, LogFind, DirOK, GetInode, Log;
    ScansFind(v, GetInode(v, d), name, 0);
  }

  ghost predicate Ready(v: Vol, d: int) {
    Owned(v) && InoValid(v, d) && IsDir(GetInode(v, d).mode) && DirOK(v, GetInode(v, d))
  }

  lemma EditReady(v: Vol, w: Vol, d: int, log: seq<Slot>)
    requires LogEdit(v, w, d, log) && Ready(v, d)
    ensures Ready(w, d) && Log(w, GetInode(w, d)) == log
  {
    hide Own, DirOK, Log;
  }

  /** After a successful add the name stands for the inode, and every other name for what it stood for. */
  lemma AddThenFind(v: Vol, d: int, name: Name, ino: Word, typ: Byte, other: Name)
    requires Ready(v, d) && ino != 0 && NoNul(other) && DirAdd(v, d, name, ino, typ).ok
    ensures var w := DirAdd(v, d, name, ino, typ).v;
            && Get(v, d, name) == 0 && Get(w, d, name) == ino
            && DirFind(w, d, name).Found? && DirFind(w, d, name).ent.typ == typ
            && (other != name ==> Get(w, d, other) == Get(v, d, other))
  {
    hide DirAdd, LogEdit, Own, DirOK, Log, DirFind, ValidName, Full, T.Find;
    var w := DirAdd(v, d, name, ino, typ).v;
    var log := Log(v, GetInode(v, d));
    DirAddEffect(v, d, name, ino, typ);
    FindsAre(log, name);
    ValidNameNoNul(name);
    EditReady(v, w, d, log + [Live(name, ino, typ)]);
    GetIs(v, d, name);
    GetIs(v, d, other);
    GetIs(w, d, name);
    GetIs(w, d, other);
    T.FindAppend(log, name, ino, typ, other);
  }

  lemma FindsAre(log: seq<Slot>, name: Name)
    ensures T.Find(log, name) == LogFind(log, name, 0)
  {
  }

  /** After a successful remove the name stands for nothing, and every other name for what it stood for. */
  lemma RemoveThenFind(v: Vol, d: int, name: Name, other: Name)
    requires Ready(v, d) && NoNul(name) && NoNul(other) && DirRemove(v, d, name).ok
    requires T.UniqueNames(Log(v, GetInode(v, d)))
    ensures var w := DirRemove(v, d, name).v;
            && Get(v, d, name) != 0 && DirFind(w, d, name).NotFound?
            && (other != name ==> Get(w, d, other) == Get(v, d, other))
  {
    hide DirRemove, LogEdit, Own, DirOK, DirFind, T.UniqueNames, T.Find;
    var w := DirRemove(v, d, name).v;
    var log := Log(v, GetInode(v, d));
    DirRemoveEffect(v, d, name);
    FindsAre(log, name);
    FindsAre(log, other);
    var e := LogFind(log, name, 0);
    EditReady(v, w, d, log[e := Tomb]);
    GetIs(v, d, name);
    GetIs(v, d, other);
    GetIs(w, d, name);
    GetIs(w, d, other);
    T.FindBury(log, e, name);
    T.FindBury(log, e, other);
  }
}
