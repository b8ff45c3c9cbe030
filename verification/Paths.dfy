/** Path canonicalization: split at slashes, fold "." and ".." away on a stack, render. */
module Paths {
  import opened Bytes
  import opened Directory

  const SLASH: Byte := 47

  type Name = seq<Byte>

  /** Length of the leading run without a slash. */
  function TokLen(s: seq<Byte>): (n: nat)
    ensures n <= |s|
    ensures forall i :: 0 <= i < n ==> s[i] != SLASH
    ensures n < |s| ==> s[n] == SLASH
  {
    if s == [] || s[0] == SLASH then 0 else 1 + TokLen(s[1..])
  }

  /** At most 63 characters of a token are kept. */
  function Cut(t: seq<Byte>): Name { t[..Min(63, |t|)] }

  /** The components between slashes. */
  function Comps(s: seq<Byte>): (cs: seq<Name>)
    decreases |s|
  {
    if s == [] then []
    else if s[0] == SLASH then Comps(s[1..])
    else [Cut(s[..TokLen(s)])] + Comps(s[TokLen(s)..])
  }

  /** The stack after the components cs, started from st; a full stack stops the scan. */
  function Fold(st: seq<Name>, cs: seq<Name>): (r: seq<Name>)
    requires |st| <= 128
    ensures |r| <= 128
    decreases |cs|
  {
    if cs == [] then st
    else if cs[0] == DOT then Fold(st, cs[1..])
    else if cs[0] == DOTDOT then Fold(if st == [] then [] else st[..|st| - 1], cs[1..])
    else if |st| >= 128 then st
    else Fold(st + [cs[0]], cs[1..])
  }

  /** The tokens that fit an output buffer of the given size when pos characters are already out. */
  function Fit(ts: seq<Name>, pos: nat, size: nat): (r: seq<Name>)
    ensures |r| <= |ts| && r == ts[..|r|]
    decreases |ts|
  {
    if ts == [] || pos + 1 + |ts[0]| + 1 >= size then []
    else [ts[0]] + Fit(ts[1..], pos + 1 + |ts[0]|, size)
  }

  function Render(ts: seq<Name>): seq<Byte> {
    if ts == [] then [] else [SLASH] + ts[0] + Render(ts[1..])
  }

  /** What fs_canonicalize leaves in its output buffer. */
  function Canonical(s: seq<Byte>, size: nat): seq<Byte> {
    var st := Fold([], Comps(s));
    if st == [] then if size > 1 then [SLASH] else [] else Render(Fit(st, 0, size))
  }

  /** The tokens path resolution walks. */
  function Tokens(s: seq<Byte>): seq<Name> { Fit(Fold([], Comps(s)), 0, 512) }

  // ---------------------------------------------------------------------
  // What canonical tokens look like

  /** A token: 1 to 63 characters, none of them a slash or NUL, and neither "." nor "..". */
  ghost predicate Plain(t: Name) {
    0 < |t| <= 63 && SLASH !in t && NoNul(t) && t != DOT && t != DOTDOT
  }

  ghost predicate AllPlain(ts: seq<Name>) { forall i :: 0 <= i < |ts| ==> Plain(ts[i]) }

  /** A component as split off: like a token, but "." and ".." are still there. */
  ghost predicate Comp(t: Name) { 0 < |t| <= 63 && SLASH !in t && NoNul(t) }

  lemma {:induction false} CompsAreComps(s: seq<Byte>)
    requires NoNul(s)
    ensures forall i :: 0 <= i < |Comps(s)| ==> Comp(Comps(s)[i])
    decreases |s|
  {
    if s != [] {
      if s[0] == SLASH { CompsAreComps(s[1..]); } else {
        var n := TokLen(s);
        CompsAreComps(s[n..]);
        var t := Cut(s[..n]);
        assert forall i :: 0 <= i < |t| ==> t[i] == s[i];
        assert Comp(t);
      }
    }
  }

  lemma {:induction false} FoldIsPlain(st: seq<Name>, cs: seq<Name>)
    requires |st| <= 128 && AllPlain(st) && forall i :: 0 <= i < |cs| ==> Comp(cs[i])
    ensures AllPlain(Fold(st, cs))
    decreases |cs|
  {
    if cs != [] {
      var rest := cs[1..];
      assert forall i :: 0 <= i < |rest| ==> rest[i] == cs[i + 1];
      if cs[0] == DOT { FoldIsPlain(st, rest); }
      else if cs[0] == DOTDOT { FoldIsPlain(if st == [] then [] else st[..|st| - 1], rest); }
      else if |st| < 128 {
        assert Plain(cs[0]);
        FoldIsPlain(st + [cs[0]], rest);
      }
    }
  }

  /** The tokens of any path are plain: no empty, "." or ".." token survives. */
  lemma TokensPlain(s: seq<Byte>)
    requires NoNul(s)
    ensures AllPlain(Tokens(s)) && |Tokens(s)| <= 128
    ensures AllPlain(Fold([], Comps(s)))
  {
    CompsAreComps(s);
    FoldIsPlain([], Comps(s));
  }

  // ---------------------------------------------------------------------
  // Rendering and splitting are inverse on plain tokens

  lemma TokLenRender(t: Name, r: seq<Byte>)
    requires SLASH !in t && (r == [] || r[0] == SLASH)
    ensures TokLen(t + r) == |t|
  {
    var u := t + r;
    assert forall i :: 0 <= i < |t| ==> u[i] == t[i] && t[i] in t;
    assert r != [] ==> u[|t|] == r[0];
  }

  lemma {:induction false} CompsRender(ts: seq<Name>)
    requires AllPlain(ts)
    ensures Comps(Render(ts)) == ts
    decreases |ts|
  {
    if ts != [] {
      var t, r := ts[0], Render(ts[1..]);
      assert Plain(t);
      CompsRender(ts[1..]);
      assert ([SLASH] + t + r)[1..] == t + r;
      TokLenRender(t, r);
      assert (t + r)[..|t|] == t && (t + r)[|t|..] == r && Cut(t) == t;
      assert (t + r)[0] == t[0] && t[0] in t;
      assert Comps(t + r) == [t] + Comps(r);
    }
  }

  lemma {:induction false} FoldPlain(st: seq<Name>, ts: seq<Name>)
    requires AllPlain(ts) && |st| + |ts| <= 128
    ensures Fold(st, ts) == st + ts
    decreases |ts|
  {
    if ts != [] {
      assert Plain(ts[0]);
      FoldPlain(st + [ts[0]], ts[1..]);
      assert st + [ts[0]] + ts[1..] == st + ts;
    } else {
      assert st + ts == st;
    }
  }

  lemma {:induction false} FitPrefix(ts: seq<Name>, pos: nat, size: nat, k: nat)
    requires k <= |Fit(ts, pos, size)|
    ensures Fit(ts[..k], pos, size) == ts[..k]
    decreases |ts|
  {
    if k > 0 {
      FitPrefix(ts[1..], pos + 1 + |ts[0]|, size, k - 1);
      assert ts[..k][1..] == ts[1..][..k - 1];
      assert [ts[0]] + ts[1..][..k - 1] == ts[..k];
    }
  }

  lemma FitNonEmpty(ts: seq<Name>, size: nat)
    requires ts != [] && AllPlain(ts) && size > 65
    ensures Fit(ts, 0, size) != []
  {
    assert Plain(ts[0]);
  }

  /** The first k tokens of any path, rendered, are again split into exactly those tokens. */
  lemma PrefixTokens(s: seq<Byte>, k: nat)
    requires NoNul(s) && k <= |Tokens(s)|
    ensures Tokens(Render(Tokens(s)[..k])) == Tokens(s)[..k]
    ensures Tokens(if k == 0 then [SLASH] else Render(Tokens(s)[..k])) == Tokens(s)[..k]
  {
    var st := Fold([], Comps(s));
    var ts := Tokens(s)[..k];
    TokensPlain(s);
    CompsRender(ts);
    FoldPlain([], ts);
    assert ts == st[..k] && [] + ts == ts;
    FitPrefix(st, 0, 512, k);
    assert Comps([SLASH]) == [];
  }

  /** A path of one plain token. */
  lemma OneToken(t: Name)
    requires Plain(t)
    ensures Tokens([SLASH] + t) == [t]
  {
    CompsRender([t]);
    FoldPlain([], [t]);
    assert Render([t]) == [SLASH] + t + [] == [SLASH] + t;
    assert [] + [t] == [t];
  }

  lemma {:induction false} FitAll(ts: seq<Name>, pos: nat, size: nat)
    requires AllPlain(ts) && pos + 64 * |ts| + 2 <= size
    ensures Fit(ts, pos, size) == ts
    decreases |ts|
  {
    if ts != [] {
      assert Plain(ts[0]);
      FitAll(ts[1..], pos + 1 + |ts[0]|, size);
    }
  }

  /** A path of two plain tokens. */
  lemma TwoTokens(a: Name, b: Name)
    requires Plain(a) && Plain(b)
    ensures Tokens([SLASH] + a + [SLASH] + b) == [a, b]
  {
    var ts := [a, b];
    CompsRender(ts);
    FoldPlain([], ts);
    FitAll(ts, 0, 512);
    assert [] + ts == ts && ts[1..] == [b];
    assert Render([b]) == [SLASH] + b + [] == [SLASH] + b;
    assert Render(ts) == [SLASH] + a + ([SLASH] + b) == [SLASH] + a + [SLASH] + b;
  }

  lemma NoNulRender(ts: seq<Name>)
    requires AllPlain(ts)
    ensures NoNul(Render(ts))
    decreases |ts|
  {
    if ts != [] {
      assert Plain(ts[0]);
      NoNulRender(ts[1..]);
    }
  }

  /**
   * Canonicalization, for any output buffer of more than 65 bytes: the result is absolute, splits into plain
   * tokens only, fits the buffer, and canonicalizing it again changes nothing.
   */
  lemma CanonicalForm(s: seq<Byte>, size: nat)
    requires NoNul(s) && size > 65
    ensures var c := Canonical(s, size);
            && |c| > 0 && c[0] == SLASH && NoNul(c) && |c| < size
            && AllPlain(Comps(c))
            && c == (if Comps(c) == [] then [SLASH] else Render(Comps(c)))
            && Canonical(c, size) == c
  {
    var st := Fold([], Comps(s));
    TokensPlain(s);
    if st == [] {
      assert Comps([SLASH]) == [];
    } else {
      var ts := Fit(st, 0, size);
      FitNonEmpty(st, size);
      NoNulRender(ts);
      CompsRender(ts);
      FoldPlain([], ts);
      assert [] + ts == ts;
      FitPrefix(st, 0, size, |ts|);
      RenderFits(st, 0, size);
    }
  }

  lemma {:induction false} RenderFits(ts: seq<Name>, pos: nat, size: nat)
    requires pos < size
    ensures pos + |Render(Fit(ts, pos, size))| < size
    decreases |ts|
  {
    if ts != [] && pos + 1 + |ts[0]| + 1 < size {
      var r := Fit(ts[1..], pos + 1 + |ts[0]|, size);
      RenderFits(ts[1..], pos + 1 + |ts[0]|, size);
      assert ([ts[0]] + r)[1..] == r;
    }
  }

  /** The tokens of a path are those of its canonical form, so both resolve alike. */
  lemma TokensOfCanonical(s: seq<Byte>)
    requires NoNul(s)
    ensures Tokens(Canonical(s, 512)) == Tokens(s)
    ensures Canonical(s, 512) == if Tokens(s) == [] then [SLASH] else Render(Tokens(s))
  {
    var st := Fold([], Comps(s));
    TokensPlain(s);
    PrefixTokens(s, |Tokens(s)|);
    assert Tokens(s)[..|Tokens(s)|] == Tokens(s);
    if st != [] { FitNonEmpty(st, 512); }
  }
}
