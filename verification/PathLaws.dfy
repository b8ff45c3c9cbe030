/** Paths piece by piece: what a slash, a name, "." and ".." at the end of any path do to its tokens. */
module PathLaws {
  import opened Bytes
  import opened Directory
  import opened Paths

  // ---------------------------------------------------------------------
  // Splitting

  /** Slashes split: the components of the two sides, one after the other. */
  lemma {:induction false} CompsSplit(a: seq<Byte>, b: seq<Byte>)
    ensures Comps(a + [SLASH] + b) == Comps(a) + Comps(b)
    decreases |a|
  {
    var s := a + [SLASH] + b;
    if a == [] {
      assert s[1..] == b;
      assert Comps(a) + Comps(b) == Comps(b);
    } else if a[0] == SLASH {
      CompsSplit(a[1..], b);
      assert s[1..] == a[1..] + [SLASH] + b;
    } else {
      var n := TokLen(a);
      var t, r := a[..n], a[n..] + [SLASH] + b;
      CompsSplit(a[n..], b);
      assert s == t + r && a == t + a[n..];
      TokLenRender(t, r);
      assert (t + r)[..n] == t && (t + r)[n..] == r;
      assert [Cut(t)] + (Comps(a[n..]) + Comps(b)) == [Cut(t)] + Comps(a[n..]) + Comps(b);
    }
  }

  /** A piece without a slash is one component: its first 63 characters. */
  lemma CompsOne(t: seq<Byte>)
    requires t != [] && SLASH !in t
    ensures Comps(t) == [t[..if |t| < 63 then |t| else 63]]
  {
    TokLenRender(t, []);
    assert t + [] == t && t[..|t|] == t && t[|t|..] == [];
  }

  // ---------------------------------------------------------------------
  // The stack

  /** The stack that the components of a path leave, before the buffer cuts it. */
  function Stack(s: seq<Byte>): (st: seq<Name>)
    ensures |st| <= 128
  {
    Fold([], Comps(s))
  }

  predicate IsName(c: Name) { c != DOT && c != DOTDOT }

  /** Component k is a name that finds 128 tokens on the stack: there the scan stops. */
  ghost predicate StopsAt(st: seq<Name>, cs: seq<Name>, k: nat)
    requires |st| <= 128 && k < |cs|
  {
    IsName(cs[k]) && |Fold(st, cs[..k])| == 128
  }

  ghost predicate Stops(st: seq<Name>, cs: seq<Name>)
    requires |st| <= 128
  {
    exists k :: 0 <= k < |cs| && StopsAt(st, cs, k)
  }

  /** What one component makes of the stack. */
  function After(st: seq<Name>, c: Name): (r: seq<Name>)
    requires |st| <= 128
    ensures |r| <= 128
  {
    if c == DOT then st else if c == DOTDOT then Front(st) else if |st| == 128 then st else st + [c]
  }

  /** All but the last token; nothing of nothing. */
  function Front(ts: seq<Name>): (r: seq<Name>)
    ensures r <= ts
  {
    if ts == [] then [] else ts[..|ts| - 1]
  }

  lemma StopsNext(st: seq<Name>, cs: seq<Name>)
    requires |st| <= 128 && cs != []
    ensures Stops(st, cs) <==> (IsName(cs[0]) && |st| == 128) || Stops(After(st, cs[0]), cs[1..])
  {
    var r, rest := After(st, cs[0]), cs[1..];
    assert cs[..0] == [];
    assert StopsAt(st, cs, 0) <==> IsName(cs[0]) && |st| == 128;
    if IsName(cs[0]) && |st| == 128 { return; }
    forall k | 0 <= k < |rest| ensures StopsAt(r, rest, k) <==> StopsAt(st, cs, k + 1) {
      assert cs[..k + 1][1..] == rest[..k] && cs[..k + 1][0] == cs[0];
    }
    if Stops(st, cs) {
      var k :| 0 <= k < |cs| && StopsAt(st, cs, k);
      assert StopsAt(r, rest, k - 1);
    }
    if Stops(r, rest) {
      var k :| 0 <= k < |rest| && StopsAt(r, rest, k);
      assert StopsAt(st, cs, k + 1);
    }
  }

  /** The components before a point do their work first, unless the scan stopped among them. */
  lemma {:induction false} FoldAppend(st: seq<Name>, a: seq<Name>, b: seq<Name>)
    requires |st| <= 128
    ensures Fold(st, a + b) == if Stops(st, a) then Fold(st, a) else Fold(Fold(st, a), b)
    decreases |a|
  {
    if a == [] {
      assert a + b == b;
    } else {
      StopsNext(st, a);
      assert (a + b)[1..] == a[1..] + b && (a + b)[0] == a[0];
      if !(IsName(a[0]) && |st| == 128) { FoldAppend(After(st, a[0]), a[1..], b); }
    }
  }

  /** The scan has no reason to stop at 128 components or fewer. */
  lemma {:induction false} FewDontStop(st: seq<Name>, cs: seq<Name>)
    requires |st| + |cs| <= 128
    ensures !Stops(st, cs) && |Fold(st, cs)| <= |st| + |cs|
    decreases |cs|
  {
    if cs != [] {
      StopsNext(st, cs);
      FewDontStop(After(st, cs[0]), cs[1..]);
    }
  }

  lemma StopsAppend(st: seq<Name>, cs: seq<Name>, c: Name)
    requires |st| <= 128 && !Stops(st, cs) && |Fold(st, cs)| < 128
    ensures !Stops(st, cs + [c])
  {
    forall k | 0 <= k < |cs + [c]| ensures !StopsAt(st, cs + [c], k) {
      if k < |cs| {
        assert (cs + [c])[..k] == cs[..k] && !StopsAt(st, cs, k);
      } else {
        assert (cs + [c])[..k] == cs;
      }
    }
  }

  /** What the stack of a path followed by a slash and one more piece is. */
  lemma StackPiece(p: seq<Byte>, t: seq<Byte>)
    requires SLASH !in t
    ensures Stack(p + [SLASH] + t)
            == if t == [] || Stops([], Comps(p)) then Stack(p)
               else After(Stack(p), t[..if |t| < 63 then |t| else 63])
  {
    CompsSplit(p, t);
    FoldAppend([], Comps(p), Comps(t));
    if t != [] {
      CompsOne(t);
      var c := t[..if |t| < 63 then |t| else 63];
      assert Fold(After(Stack(p), c), []) == After(Stack(p), c);
      var cs: seq<Name> := [c];
      assert cs[1..] == [];
    }
  }

  // ---------------------------------------------------------------------
  // The buffer

  /** The tokens kept are the longest front whose text, with its NUL, is shorter than the buffer. */
  lemma {:induction false} FitLongest(ts: seq<Name>, pos: nat, size: nat, k: nat)
    requires k <= |ts|
    ensures k <= |Fit(ts, pos, size)| <==> k == 0 || pos + |Render(ts[..k])| + 1 < size
    decreases |ts|
  {
    if k > 0 {
      var p := pos + 1 + |ts[0]|;
      assert ts[..k][1..] == ts[1..][..k - 1] && ts[..k][0] == ts[0];
      assert Render(ts[..k]) == [SLASH] + ts[0] + Render(ts[1..][..k - 1]);
      FitLongest(ts[1..], p, size, k - 1);
      if k == 1 { assert Render(ts[1..][..0]) == []; }
    }
  }

  /**
   * The canonical form in an output buffer of any size: the longest front of the stack whose text fits, with its NUL,
   * in less than the buffer.
   */
  lemma CanonicalLongest(p: seq<Byte>, size: nat, k: nat)
    requires NoNul(p) && k <= |Stack(p)|
    ensures var cs := Comps(Canonical(p, size)); var ts := Stack(p)[..k];
            cs <= Stack(p) && (k <= |cs| <==> k == 0 || |Render(ts)| + 1 < size)
  {
    var st := Stack(p);
    TokensPlain(p);
    FitLongest(st, 0, size, k);
    if st == [] {
      assert Comps([SLASH]) == [];
    } else {
      CompsRender(Fit(st, 0, size));
    }
  }

  /** The text of these tokens fits the buffer of path resolution. */
  predicate Room(ts: seq<Name>) { ts == [] || |Render(ts)| + 1 < 512 }

  lemma FitRoom(ts: seq<Name>)
    ensures Fit(ts, 0, 512) == ts <==> Room(ts)
  {
    FitLongest(ts, 0, 512, |ts|);
    assert ts[..|ts|] == ts;
  }

  lemma {:induction false} RenderCat(a: seq<Name>, b: seq<Name>)
    ensures Render(a + b) == Render(a) + Render(b)
    decreases |a|
  {
    if a == [] {
      assert a + b == b;
    } else {
      assert (a + b)[1..] == a[1..] + b;
      RenderCat(a[1..], b);
    }
  }

  lemma RoomFront(ts: seq<Name>)
    requires Room(ts)
    ensures Room(Front(ts))
  {
    if ts != [] {
      assert ts == Front(ts) + [ts[|ts| - 1]];
      RenderCat(Front(ts), [ts[|ts| - 1]]);
    }
  }

  /** What does not fit is not missed: without its last token the rest is cut at the same place. */
  lemma FitFront(ts: seq<Name>)
    requires !Room(ts)
    ensures Fit(Front(ts), 0, 512) == Fit(ts, 0, 512)
  {
    var a, b := Fit(ts, 0, 512), Fit(Front(ts), 0, 512);
    FitRoom(ts);
    assert |a| < |ts|;
    assert Front(ts)[..|a|] == ts[..|a|];
    FitLongest(ts, 0, 512, |a|);
    FitLongest(Front(ts), 0, 512, |a|);
    assert Front(ts)[..|b|] == ts[..|b|];
    FitLongest(Front(ts), 0, 512, |b|);
    FitLongest(ts, 0, 512, |b|);
  }

  /** Nothing of the path is lost: no name found the stack full, and the text of the tokens fits. */
  ghost predicate Whole(p: seq<Byte>) { !Stops([], Comps(p)) && Room(Stack(p)) }

  /** The tokens of a whole path are its stack. */
  lemma WholeTokens(p: seq<Byte>)
    requires Whole(p)
    ensures Tokens(p) == Stack(p) && Room(Tokens(p))
  {
    FitRoom(Stack(p));
  }

  // ---------------------------------------------------------------------
  // The laws of a path

  /** A slash or "/." at the end of a path is nothing. */
  lemma DotTokens(p: seq<Byte>)
    ensures Tokens(p + [SLASH]) == Tokens(p) && Tokens(p + [SLASH] + DOT) == Tokens(p)
  {
    StackPiece(p, []);
    assert p + [SLASH] + [] == p + [SLASH];
    StackPiece(p, DOT);
  }

  /** "/.." at the end takes the last token away, if there is one, exactly when nothing of the path is lost. */
  lemma DotDotTokens(p: seq<Byte>)
    ensures Tokens(p + [SLASH] + DOTDOT) == if Whole(p) then Front(Tokens(p)) else Tokens(p)
  {
    StackPiece(p, DOTDOT);
    var st := Stack(p);
    assert DOTDOT[..2] == DOTDOT;
    if Whole(p) {
      WholeTokens(p);
      RoomFront(st);
      FitRoom(Front(st));
    } else if !Stops([], Comps(p)) {
      FitFront(st);
    }
  }

  /** There is room for one more token behind those of the path. */
  ghost predicate RoomFor(p: seq<Byte>, c: Name) { Whole(p) && |Tokens(p)| < 128 && Room(Tokens(p) + [c]) }

  /**
   * A slash and a name at the end add one token, the first 63 characters of the name, or nothing where there is no
   * room for it.
   */
  lemma NameTokens(p: seq<Byte>, t: seq<Byte>)
    requires t != [] && SLASH !in t && t != DOT && t != DOTDOT
    ensures var c := t[..if |t| < 63 then |t| else 63];
            Tokens(p + [SLASH] + t) == if RoomFor(p, c) then Tokens(p) + [c] else Tokens(p)
  {
    var c := t[..if |t| < 63 then |t| else 63];
    StackPiece(p, t);
    var st := Stack(p);
    assert IsName(c) by { if |t| < 63 { assert c == t; } }
    FitRoom(st);
    if Whole(p) && |st| < 128 {
      FitRoom(st + [c]);
      assert Front(st + [c]) == st;
      if !Room(st + [c]) { FitFront(st + [c]); }
    } else if !Stops([], Comps(p)) && |st| < 128 {
      assert Front(st + [c]) == st;
      RenderCat(st, [c]);
      FitFront(st + [c]);
    }
  }

  /** No path of at most 255 characters is cut. */
  lemma ShortWhole(p: seq<Byte>)
    requires |p| <= 255
    ensures Whole(p)
  {
    CompsCount(p);
    FewDontStop([], Comps(p));
    FoldLength([], Comps(p));
    assert Render([]) == [];
  }

  lemma {:induction false} CompsCount(p: seq<Byte>)
    ensures 2 * |Comps(p)| <= |p| + 1 && |Render(Comps(p))| <= |p| + 1
    ensures p != [] && p[0] == SLASH ==> 2 * |Comps(p)| <= |p| && |Render(Comps(p))| <= |p|
    decreases |p|
  {
    if p != [] {
      if p[0] == SLASH {
        CompsCount(p[1..]);
      } else {
        var n := TokLen(p);
        CompsCount(p[n..]);
        var c, r := Cut(p[..n]), Comps(p[n..]);
        assert ([c] + r)[1..] == r;
      }
    }
  }

  lemma {:induction false} FoldLength(st: seq<Name>, cs: seq<Name>)
    requires |st| <= 128
    ensures |Render(Fold(st, cs))| <= |Render(st)| + |Render(cs)|
    decreases |cs|
  {
    if cs != [] {
      var r := After(st, cs[0]);
      RenderLength(st, cs[0]);
      if !(IsName(cs[0]) && |st| == 128) { FoldLength(r, cs[1..]); }
    }
  }

  lemma RenderLength(st: seq<Name>, c: Name)
    requires |st| <= 128
    ensures |Render(After(st, c))| <= |Render(st)| + 1 + |c|
  {
    if st != [] {
      assert st == Front(st) + [st[|st| - 1]];
      RenderCat(Front(st), [st[|st| - 1]]);
    }
    RenderCat(st, [c]);
    assert Render([c]) == [SLASH] + c + [];
  }

  // ---------------------------------------------------------------------
  // In the middle of a path

  lemma CompsSlash(x: seq<Byte>)
    ensures Comps([SLASH] + x) == Comps(x)
  {
    CompsSplit([], x);
    assert [] + [SLASH] + x == [SLASH] + x;
    assert Comps([]) + Comps(x) == Comps(x);
  }

  /** The text of tokens, if any, after a path. */
  lemma CompsTail(a: seq<Byte>, u: seq<Name>)
    requires AllPlain(u)
    ensures Comps(a + Render(u)) == Comps(a) + u
  {
    CompsRender(u);
    if u == [] {
      assert a + Render(u) == a && Comps(a) + u == Comps(a);
    } else {
      var x := Render(u)[1..];
      assert Render(u) == [SLASH] + x;
      hide Comps, Render, Plain;
      CompsSlash(x);
      CompsSplit(a, x);
      assert a + Render(u) == a + [SLASH] + x;
    }
  }

  lemma CompsJoin(a: seq<Byte>, t: seq<Byte>, u: seq<Name>)
    requires t != [] && SLASH !in t && |t| <= 63 && AllPlain(u)
    ensures Comps(a + [SLASH] + t + Render(u)) == Comps(a) + ([t] + u)
  {
    hide Comps, Render, Plain;
    CompsOne(t);
    assert t[..|t|] == t;
    CompsSplit(a, t);
    CompsTail(a + [SLASH] + t, u);
    assert Comps(a) + [t] + u == Comps(a) + ([t] + u);
  }

  /** ".." between names takes away the name before it and nothing else; "." takes away nothing. */
  lemma DotsInside(ts: seq<Name>, u: seq<Name>)
    requires AllPlain(ts) && AllPlain(u) && |ts| + |u| <= 128 && Room(ts + u)
    ensures Tokens(Render(ts) + [SLASH] + DOTDOT + Render(u)) == Front(ts) + u
    ensures Tokens(Render(ts) + [SLASH] + DOT + Render(u)) == ts + u
  {
    RoomParts(ts, u);
    FitRoom(ts + u);
    FitRoom(Front(ts) + u);
    hide Comps, Fold, Render, Plain, Fit, Room;
    DotsFold(ts, u, DOTDOT);
    DotsFold(ts, u, DOT);
  }

  lemma RoomParts(ts: seq<Name>, u: seq<Name>)
    requires Room(ts + u)
    ensures Room(Front(ts) + u)
  {
    if ts != [] {
      assert ts == Front(ts) + [ts[|ts| - 1]];
      RenderCat(Front(ts), [ts[|ts| - 1]]);
      RenderCat(ts, u);
      RenderCat(Front(ts), u);
    }
  }

  lemma DotsFold(ts: seq<Name>, u: seq<Name>, dots: Name)
    requires AllPlain(ts) && AllPlain(u) && |ts| + |u| <= 128 && !IsName(dots)
    ensures Stack(Render(ts) + [SLASH] + dots + Render(u)) == After(ts, dots) + u
  {
    hide Comps, Render, Plain;
    CompsRender(ts);
    CompsJoin(Render(ts), dots, u);
    FewDontStop([], ts);
    FoldAppend([], ts, [dots] + u);
    FoldPlain([], ts);
    assert [] + ts == ts;
    assert ([dots] + u)[1..] == u;
    FoldPlain(After(ts, dots), u);
  }
}
