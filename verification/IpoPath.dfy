/** Path resolution: a walk over the characters of the canonical path, against the walk over its tokens. */
module IpoPath {
  import opened Bytes
  import opened Volume
  import opened Inodes
  import opened Directory
  import opened Paths
  import opened PathText
  import opened Api
  import opened IpoFs
  import opened IpoDir

  const PATH_SIZE := 512

  lemma {:induction false} StrLenIs(s: seq<Byte>, c: seq<Byte>, i: nat)
    requires i <= |c| < |s| && s[..|c|] == c && NoNul(c) && s[|c|] == 0
    ensures StrLen(s, i) == |c|
    decreases |c| - i
  {
    if i < |c| {
      assert s[i] == s[..|c|][i] == c[i];
      StrLenIs(s, c, i + 1);
    }
  }

  /** The canonical path, read back as a C string from a buffer of 512 characters. */
  method CanonicalPath(path: seq<Byte>) returns (c: seq<Byte>)
    requires NoNul(path)
    ensures c == (if Tokens(path) == [] then [SLASH] else Render(Tokens(path)))
  {
    hide Canonical, Render, Tokens;
    var tmp := new Byte[PATH_SIZE];
    Canonicalize(path, tmp);
    CanonicalForm(path, PATH_SIZE);
    TokensOfCanonical(path);
    var s := tmp[..];
    ghost var want := Canonical(path, PATH_SIZE);
    assert s[..|want|] == want;
    StrLenIs(s, want, 0);
    c := s[..StrLen(s, 0)];
  }

  /** The first token of what is left of a canonical path. */
  lemma FirstToken(s: seq<Byte>, rest: seq<Name>)
    requires rest != [] && AllPlain(rest) && [SLASH] + s == Render(rest)
    ensures 0 < TokLen(s) < 64 && s[..TokLen(s)] == rest[0]
    ensures if |rest| == 1 then TokLen(s) == |s|
            else TokLen(s) < |s| && [SLASH] + s[TokLen(s) + 1..] == Render(rest[1..])
  {
    hide Render, TokLen;
    var t, r := rest[0], Render(rest[1..]);
    RenderHead(rest);
    assert Plain(t);
    SamePeel(s, t + r);
    HeadToken(t, r);
  }

  lemma SamePeel(a: seq<Byte>, b: seq<Byte>)
    requires [SLASH] + a == [SLASH] + b
    ensures a == b
  {
    assert ([SLASH] + a)[1..] == a && ([SLASH] + b)[1..] == b;
  }

  lemma HeadToken(t: Name, r: seq<Byte>)
    requires SLASH !in t && (r == [] || r[0] == SLASH)
    ensures var s := t + r; TokLen(s) == |t| && s[..|t|] == t && (r != [] ==> [SLASH] + s[|t| + 1..] == r)
  {
    TokLenRender(t, r);
    var s := t + r;
    assert s[..|t|] == t;
    if r != [] {
      assert s[|t| + 1..] == r[1..];
      assert r == [SLASH] + r[1..];
    }
  }

  lemma RenderHead(ts: seq<Name>)
    requires ts != []
    ensures Render(ts) == [SLASH] + (ts[0] + Render(ts[1..]))
    ensures |ts| == 1 ==> Render(ts[1..]) == []
    ensures |ts| > 1 ==> Render(ts[1..]) != [] && Render(ts[1..])[0] == SLASH
  {
    assert [SLASH] + ts[0] + Render(ts[1..]) == [SLASH] + (ts[0] + Render(ts[1..]));
  }

  /** strchr for a slash: the end of the token that starts at p. */
  method TokenEnd(c: seq<Byte>, p: nat) returns (q: nat)
    requires p <= |c|
    ensures q == p + TokLen(c[p..])
  {
    q := p;
    while q < |c| && c[q] != SLASH
      invariant p <= q <= |c| && TokLen(c[p..]) == q - p + TokLen(c[q..])
    {
      assert c[q..][1..] == c[q + 1..];
      q := q + 1;
    }
  }

  /** Only the root renders as a lone slash. */
  lemma RootOnly(ts: seq<Name>)
    requires AllPlain(ts)
    ensures (if ts == [] then [SLASH] else Render(ts)) == [SLASH] <==> ts == []
  {
    if ts != [] { assert Plain(ts[0]); assert |Render(ts)| >= 2; }
  }

  lemma SlashFirst(ts: seq<Name>)
    requires ts != []
    ensures |Render(ts)| >= 1 && [SLASH] + Render(ts)[1..] == Render(ts)
  {
  }

  lemma WalkOn(v: Vol, cur: int, rest: seq<Name>)
    requires rest != [] && DirFind(v, cur, rest[0]).Found?
    ensures var n := DirFind(v, cur, rest[0]).ent.ino;
            ResolveFrom(v, cur, rest) == ResolveFrom(v, n, rest[1..])
                && (|rest| == 1 ==> ResolveFrom(v, cur, rest) == n)
  {
    hide DirFind;
  }

  lemma NotJustSlash(s: seq<Byte>, rest: seq<Name>)
    requires rest != [] && AllPlain(rest) && [SLASH] + s == Render(rest)
    ensures s != []
  {
    RootOnly(rest);
  }

  /** path_resolve: the inode, or -1. */
  method Resolve(fs: FileSystem, path: seq<Byte>) returns (r: int)
    requires fs.Valid() && Owned(fs.V()) && NoNul(path)
    modifies fs`disk
    ensures fs.disk == old(fs.disk) && r == Api.Resolve(fs.V(), path)
  {
    hide FileSystem.V, FileSystem.Valid, Owned, DirFind, Tokens, Render, Plain, TokLen;
    var c := CanonicalPath(path);
    TokensPlain(path);
    RootOnly(Tokens(path));
    if c == [SLASH] { return 1; }
    ghost var rest := Tokens(path);
    SlashFirst(rest);
    NotJustSlash(c[1..], rest);
    var cur, p := 1, 1;
    while p < |c|
      invariant 1 <= p < |c| && fs.disk == old(fs.disk) && rest != [] && AllPlain(rest)
                && [SLASH] + c[p..] == Render(rest)
      invariant ResolveFrom(fs.V(), cur, rest) == Api.Resolve(fs.V(), path)
      decreases |c| - p
    {
      FirstToken(c[p..], rest);
      var slash := TokenEnd(c, p);
      if slash - p >= MAX_NAME { return -1; }
      var token := c[p..slash];
      assert token == c[p..][..slash - p];
      var f := FindEntry(fs, cur, token);
      if f.NotFound? { return -1; }
      WalkOn(fs.V(), cur, rest);
      cur := f.ent.ino;
      if slash == |c| {
        break;
      }
      assert c[p..][slash - p + 1..] == c[slash + 1..];
      p := slash + 1;
      rest := rest[1..];
      NotJustSlash(c[p..], rest);
    }
    return cur;
  }

  /** The last slash of a rendered path separates its last token. */
  lemma LastSlash(ts: seq<Name>)
    requires ts != [] && AllPlain(ts)
    ensures var init, last := ts[..|ts| - 1], ts[|ts| - 1]; var c := Render(ts); var r := |Render(init)|;
            && r < |c| && c[r] == SLASH && c[..r] == Render(init) && c[r + 1..] == last && |last| < 64
            && (forall j :: r < j < |c| ==> c[j] != SLASH) && (r == 0 <==> init == [])
  {
    var init, last := ts[..|ts| - 1], ts[|ts| - 1];
    assert Plain(last);
    assert init + [last] == ts;
    RenderAppend(init, last);
    var c, r := Render(ts), |Render(init)|;
    assert c[r + 1..] == last;
    forall j | r < j < |c| ensures c[j] != SLASH { assert c[j] == last[j - r - 1]; }
  }

  /** path_resolve_parent: the directory that holds the last name, and that name. */
  method ResolveParent(fs: FileSystem, path: seq<Byte>) returns (t: Target)
    requires fs.Valid() && Owned(fs.V()) && NoNul(path)
    modifies fs`disk
    ensures fs.disk == old(fs.disk) && t == Api.ResolveParent(fs.V(), path)
  {
    hide FileSystem.V, FileSystem.Valid, Owned, DirFind, Tokens, Render, Plain, TokLen, ResolveFrom;
    var c := CanonicalPath(path);
    ghost var toks := Tokens(path);
    TokensPlain(path);
    RootOnly(toks);
    if c == [SLASH] { return NoTarget; }
    LastSlash(toks);
    ghost var k := |toks| - 1;
    var r: int := |c| - 1;
    while r >= 0 && c[r] != SLASH
      invariant |Render(toks[..k])| <= r < |c|
    {
      r := r - 1;
    }
    var parentPath := if r == 0 then [SLASH] else c[..r];
    var name := c[r + 1..];
    if |name| >= MAX_NAME { return NoTarget; }
    PrefixTokens(path, k);
    ParentNoNul(toks, k);
    var p := Resolve(fs, parentPath);
    if p < 0 { return NoTarget; }
    return Target(p, name);
  }

  lemma ParentNoNul(ts: seq<Name>, k: nat)
    requires AllPlain(ts) && k <= |ts|
    ensures NoNul(Render(ts[..k]))
    ensures NoNul([SLASH])
  {
    NoNulRender(ts[..k]);
  }
}
