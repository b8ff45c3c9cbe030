/** Where paths that end in "..", "." or one more name lead on a volume. */
module DotDot {
  import opened Bytes
  import opened Volume
  import opened Directory
  import opened Paths
  import opened PathLaws
  import opened Api
  import opened VolTree
  import opened Calls
  import opened PathEffects
  import T = Tree
  import TreePaths

  /** The walks of a path and of its front, in the tree. */
  lemma PathWalks(v: Vol, p: seq<Byte>)
    requires WF(v) && FsInv(v) && NoNul(p)
    ensures var t := TreeOf(v); var toks := Tokens(p);
            && T.TreeInv(t) && 1 in t && TreePaths.PlainNames(toks)
            && Resolve(v, p) == TreePaths.Walk(t, 1, toks)
            && ResolveFrom(v, 1, Front(toks)) == TreePaths.Walk(t, 1, Front(toks))
  {
    FsInvIs(v);
    TokensPlain(p);
    RootIn(TreeOf(v));
    hide FsInv, TreeOf, WF, Plain, Tokens, ResolveFrom, TreePaths.Walk, TreePaths.PlainNames, T.TreeInv;
    ResolveWalks(v, Tokens(p));
    ResolveWalks(v, Front(Tokens(p)));
  }

  /** The last step of a walk that ends somewhere, if there is one, is through an entry. */
  lemma EndOfWalk(t: T.Tree, toks: seq<Name>)
    requires T.TreeInv(t) && 1 in t && TreePaths.PlainNames(toks) && TreePaths.Walk(t, 1, toks) >= 0
    ensures var n, d := TreePaths.Walk(t, 1, toks), TreePaths.Walk(t, 1, Front(toks));
            && n in t && (n == 1 <==> toks == [])
            && (n != 1 ==> d >= 0 && exists e :: T.Entry(t, d, e, n))
  {
    TreePaths.WalkIn(t, 1, toks);
    if toks != [] {
      TreePaths.LastStep(t, toks);
      hide *;
      assert Front(toks) == toks[..|toks| - 1] by { FrontIs(toks); }
    }
  }

  lemma FrontIs(toks: seq<Name>)
    requires toks != []
    ensures Front(toks) == toks[..|toks| - 1]
  {
  }

  /** The place a resolved path ends at: the root without tokens, or the entry for the last token. */
  lemma EndOfPath(v: Vol, p: seq<Byte>)
    requires WF(v) && FsInv(v) && NoNul(p) && Resolve(v, p) >= 0
    ensures var t := TreeOf(v); var n, toks := Resolve(v, p), Tokens(p);
            && n in t && (n == 1 <==> toks == [])
            && ResolveFrom(v, 1, Front(toks)) == TreePaths.Walk(t, 1, Front(toks))
            && (n != 1 ==> var d := TreePaths.Walk(t, 1, Front(toks)); d >= 0 && exists e :: T.Entry(t, d, e, n))
  {
    PathWalks(v, p);
    hide *;
    EndOfWalk(TreeOf(v), Tokens(p));
  }

  lemma WalkNone(v: Vol)
    ensures ResolveFrom(v, 1, []) == 1
  {
  }

  /**
   * ".." leads to the parent: the directory that holds the entry of what the path leads to, for a directory the one
   * its own ".." names, and the root for the root itself.
   */
  lemma DotDotLeads(v: Vol, p: seq<Byte>)
    requires WF(v) && FsInv(v) && NoNul(p) && Whole(p) && Resolve(v, p) >= 0
    ensures var t := TreeOf(v); var n, d := Resolve(v, p), Resolve(v, p + [SLASH] + DOTDOT);
            && (n != 1 ==> exists e :: T.Entry(t, d, e, n))
            && (T.DirIn(t, n) ==> d == T.Par(t, n))
            && (n == 1 ==> d == 1)
  {
    FsInvIs(v);
    EndOfPath(v, p);
    DotDotTokens(p);
    hide FsInv, TreeOf, Plain, DirFind, Tokens, ResolveFrom, TreePaths.Walk;
    var t := TreeOf(v);
    var n, d := Resolve(v, p), Resolve(v, p + [SLASH] + DOTDOT);
    if n == 1 {
      WalkNone(v);
    } else {
      var e :| T.Entry(t, d, e, n);
      assert T.GoodEntry(t, d, e, n);
    }
  }

  /** The text decides: below a path that leads nowhere ".." still leads where the front of it leads. */
  lemma DotDotIsText(v: Vol, p: seq<Byte>, t: seq<Byte>)
    requires t != [] && SLASH !in t && t != DOT && t != DOTDOT
    requires RoomFor(p, t[..if |t| < 63 then |t| else 63])
    ensures Resolve(v, p + [SLASH] + t + [SLASH] + DOTDOT) == Resolve(v, p)
  {
    var c := t[..if |t| < 63 then |t| else 63];
    NameTokens(p, t);
    DotDotTokens(p + [SLASH] + t);
    NameWhole(p, t);
    assert Front(Tokens(p) + [c]) == Tokens(p);
  }

  lemma NameWhole(p: seq<Byte>, t: seq<Byte>)
    requires t != [] && SLASH !in t && t != DOT && t != DOTDOT
    requires RoomFor(p, t[..if |t| < 63 then |t| else 63])
    ensures Whole(p + [SLASH] + t)
  {
    var c := t[..if |t| < 63 then |t| else 63];
    StackPiece(p, t);
    WholeTokens(p);
    CompsSplit(p, t);
    CompsOne(t);
    StopsAppend([], Comps(p), c);
  }

  /** A path and one more name: the lookup of that name in the directory the path leads to, which is its parent. */
  lemma NameLeads(v: Vol, p: seq<Byte>, t: seq<Byte>)
    requires t != [] && SLASH !in t && t != DOT && t != DOTDOT
    requires RoomFor(p, t[..if |t| < 63 then |t| else 63])
    ensures var c := t[..if |t| < 63 then |t| else 63]; var d := Resolve(v, p); var q := p + [SLASH] + t;
            && ResolveParent(v, q) == (if d < 0 then NoTarget else Target(d, c))
            && Resolve(v, q) == (if d >= 0 && DirFind(v, d, c).Found? then DirFind(v, d, c).ent.ino else -1)
  {
    var c := t[..if |t| < 63 then |t| else 63];
    NameTokens(p, t);
    assert (Tokens(p) + [c])[..|Tokens(p)|] == Tokens(p);
    ResolveAppend(v, 1, Tokens(p), c);
    hide Tokens, DirFind;
  }

  /** The root has no parent to create, delete or rename in, however its path is spelled. */
  lemma RootHasNoParent(v: Vol, p: seq<Byte>)
    requires WF(v) && FsInv(v) && NoNul(p) && Resolve(v, p) == 1
    ensures ResolveParent(v, p).NoTarget?
  {
    EndOfPath(v, p);
  }
}
