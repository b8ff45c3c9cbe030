/** fs_canonicalize on characters: the token stack and the output buffer, against the token-level specification. */
module PathText {
  import opened Bytes
  import opened Directory
  import opened Paths

  lemma CompsSlash(s: seq<Byte>, i: nat)
    requires i < |s| && s[i] == SLASH
    ensures Comps(s[i..]) == Comps(s[i + 1..])
  {
    assert s[i..][1..] == s[i + 1..];
  }

  lemma CompsToken(s: seq<Byte>, i: nat, j: nat)
    requires i < j <= |s| && (j == |s| || s[j] == SLASH) && forall k :: i <= k < j ==> s[k] != SLASH
    ensures Comps(s[i..]) == [Cut(s[i..j])] + Comps(s[j..])
  {
    var t, r := s[i..j], s[j..];
    assert s[i..] == t + r;
    assert forall k :: 0 <= k < |t| ==> t[k] == s[i + k];
    TokLenRender(t, r);
    assert (t + r)[..|t|] == t && (t + r)[|t|..] == r;
  }

  /** Reads the next token, cut to 63 characters, and the position after it. */
  method NextToken(s: seq<Byte>, start: nat) returns (token: Name, i: nat)
    requires start < |s| && s[start] != SLASH
    ensures start < i <= |s| && (i == |s| || s[i] == SLASH)
    ensures Comps(s[start..]) == [token] + Comps(s[i..])
  {
    i, token := start, [];
    while i < |s| && s[i] != SLASH
      invariant start <= i <= |s| && token == Cut(s[start..i])
      invariant forall k :: start <= k < i ==> s[k] != SLASH
    {
      assert s[start..i + 1] == s[start..i] + [s[i]];
      if |token| + 1 < MAX_NAME { token := token + [s[i]]; }
      i := i + 1;
    }
    CompsToken(s, start, i);
  }

  /** The stack of tokens after the whole input. */
  method TokenStack(s: seq<Byte>) returns (tokens: seq<Name>)
    ensures tokens == Fold([], Comps(s))
  {
    var i := 0;
    tokens := [];
    assert s[0..] == s;
    while i < |s|
      invariant 0 <= i <= |s| && |tokens| <= 128
      invariant Fold(tokens, Comps(s[i..])) == Fold([], Comps(s))
      decreases |s| - i
    {
      if s[i] == SLASH {
        CompsSlash(s, i);
        i := i + 1;
      } else {
        var token, j := NextToken(s, i);
        i := j;
        assert ([token] + Comps(s[i..]))[1..] == Comps(s[i..]);
        if token == DOT {
        } else if token == DOTDOT {
          if |tokens| > 0 { tokens := tokens[..|tokens| - 1]; }
        } else if |tokens| >= 128 {
          return;
        } else {
          tokens := tokens + [token];
        }
      }
    }
    assert s[i..] == [];
  }

  lemma {:induction false} RenderAppend(ts: seq<Name>, t: Name)
    ensures Render(ts + [t]) == Render(ts) + [SLASH] + t
    decreases |ts|
  {
    if ts == [] {
      assert [] + [t] == [t];
      assert [t][1..] == [];
    } else {
      assert (ts + [t])[1..] == ts[1..] + [t];
      RenderAppend(ts[1..], t);
      assert [SLASH] + ts[0] + (Render(ts[1..]) + [SLASH] + t) == [SLASH] + ts[0] + Render(ts[1..]) + [SLASH] + t;
    }
  }

  /** The rendering loop takes tokens one by one: what fits so far, and what will still fit. */
  lemma {:induction false} FitSplit(ts: seq<Name>, pos: nat, size: nat, k: nat)
    requires k <= |Fit(ts, pos, size)|
    ensures Fit(ts, pos, size) == ts[..k] + Fit(ts[k..], pos + |Render(ts[..k])|, size)
    decreases |ts|
  {
    if k == 0 {
      assert ts[..0] == [] && ts[0..] == ts;
    } else {
      var p := pos + 1 + |ts[0]|;
      FitSplit(ts[1..], p, size, k - 1);
      assert ts[..k][1..] == ts[1..][..k - 1] && ts[1..][k - 1..] == ts[k..];
      assert [ts[0]] + ts[1..][..k - 1] == ts[..k];
    }
  }

  /** One turn of the rendering loop: the next token stops it, or is appended. */
  lemma RenderTurn(ts: seq<Name>, size: nat, i: nat)
    requires i < |ts| && i <= |Fit(ts, 0, size)|
    ensures var pos := |Render(ts[..i])|;
            if pos + 1 + |ts[i]| + 1 >= size then Fit(ts, 0, size) == ts[..i]
            else i < |Fit(ts, 0, size)| && Render(ts[..i + 1]) == Render(ts[..i]) + [SLASH] + ts[i]
  {
    FitSplit(ts, 0, size, i);
    RenderAppend(ts[..i], ts[i]);
    assert ts[..i + 1] == ts[..i] + [ts[i]];
    assert ts[i..][0] == ts[i];
    assert ts[..i] + [] == ts[..i];
  }

  lemma RenderEnd(ts: seq<Name>, size: nat)
    requires |ts| <= |Fit(ts, 0, size)|
    ensures Fit(ts, 0, size) == ts[..|ts|] == ts
  {
  }

  lemma RenderStart(ts: seq<Name>)
    ensures Render(ts[..0]) == []
  {
  }

  /**
   * fs_canonicalize: the buffer holds the canonical path and a NUL, and is not touched beyond that. Every write
   * is inside the buffer.
   */
  method Canonicalize(s: seq<Byte>, out: array<Byte>)
    modifies out
    ensures out.Length > 0 ==> var c := Canonical(s, out.Length);
            && |c| < out.Length && out[..|c|] == c && out[|c|] == 0
            && (forall i :: |c| < i < out.Length ==> out[i] == old(out[i]))
  {
    if out.Length == 0 { return; }
    var tokens := TokenStack(s);
    if tokens == [] {
      if out.Length > 1 { out[0], out[1] := SLASH, 0; } else { out[0] := 0; }
      return;
    }
    RenderTokens(tokens, out);
  }

  /** The rendering loop. */
  method RenderTokens(tokens: seq<Name>, out: array<Byte>)
    requires out.Length > 0
    modifies out
    ensures var c := Render(Fit(tokens, 0, out.Length));
            && |c| < out.Length && out[..|c|] == c && out[|c|] == 0
            && (forall i :: |c| < i < out.Length ==> out[i] == old(out[i]))
  {
    hide Render, Fit;
    var pos: nat, i: nat := 0, 0;
    RenderStart(tokens);
    while i < |tokens|
      invariant i <= |tokens| && pos < out.Length
      invariant out[..pos] == Render(tokens[..i])
      invariant i <= |Fit(tokens, 0, out.Length)|
      invariant forall j :: pos <= j < out.Length ==> out[j] == old(out[j])
    {
      RenderTurn(tokens, out.Length, i);
      var l := |tokens[i]|;
      if pos + 1 + l + 1 >= out.Length { break; }
      ghost var before := out[..pos];
      out[pos] := SLASH;
      assert out[..pos + 1] == before + [SLASH];
      CopyInto(out, pos + 1, tokens[i]);
      pos := pos + 1 + l;
      i := i + 1;
    }
    if i == |tokens| { RenderEnd(tokens, out.Length); }
    out[pos] := 0;
  }

  /** memcpy into the buffer. */
  method CopyInto(out: array<Byte>, pos: nat, t: seq<Byte>)
    requires pos + |t| <= out.Length
    modifies out
    ensures out[..pos + |t|] == old(out[..pos]) + t
    ensures forall j :: pos + |t| <= j < out.Length ==> out[j] == old(out[j])
  {
    var i := 0;
    while i < |t|
      invariant 0 <= i <= |t|
      invariant forall j :: 0 <= j < out.Length ==> out[j] == if pos <= j < pos + i then t[j - pos] else old(out[j])
    {
      out[pos + i] := t[i];
      i := i + 1;
    }
  }
}
