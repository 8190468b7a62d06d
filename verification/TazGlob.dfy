/** taz-guard's path globs (scripts/taz_guard.py): the translation to a regular expression, and
    what the expression means segment by segment. */
module TazGlob {
  import opened Text

  // The pieces of the expression: "(?:.*/)?", ".*", "[^/]*", "[^/]" and an escaped character.
  datatype Token = AnyDirs | Anything | Star | One | Lit(c: char)

  predicate Same(ignoreCase: bool, a: char, b: char) {
    a == b || (ignoreCase && LowerChar(a) == LowerChar(b))
  }

  // ── the translation ──────────────────────────────────────────────────

  function Tokens(glob: string): seq<Token> {
    if glob == "" then []
    else if "**/" <= glob then [AnyDirs] + Tokens(glob[3..])
    else if "**" <= glob then [Anything] + Tokens(glob[2..])
    else [Single(glob[0])] + Tokens(glob[1..])
  }

  function Single(c: char): Token {
    if c == '*' then Star else if c == '?' then One else Lit(c)
  }

  /** Where the text from i on starts with this. */
  predicate At(glob: string, i: nat, part: string) {
    i + |part| <= |glob| && glob[i..i + |part|] == part
  }

  /** The piece at i and how much of the glob it takes. */
  function Piece(glob: string, i: nat): (r: (Token, nat))
    requires i < |glob|
    ensures 1 <= r.1 && i + r.1 <= |glob|
  {
    if At(glob, i, "**/") then (AnyDirs, 3)
    else if At(glob, i, "**") then (Anything, 2)
    else (Single(glob[i]), 1)
  }

  lemma TokensFrom(glob: string, i: nat)
    requires i < |glob|
    ensures Tokens(glob[i..]) == [Piece(glob, i).0] + Tokens(glob[i + Piece(glob, i).1..])
  {
    var rest := glob[i..];
    if |rest| >= 3 { assert rest[..3] == glob[i..i + 3] && rest[3..] == glob[i + 3..]; }
    if |rest| >= 2 { assert rest[..2] == glob[i..i + 2] && rest[2..] == glob[i + 2..]; }
    assert At(glob, i, "**/") <==> "**/" <= rest;
    assert At(glob, i, "**") <==> "**" <= rest;
    assert rest[1..] == glob[i + 1..];
  }

  method GlobToRegex(glob: string) returns (out: seq<Token>)
    ensures out == Tokens(glob)
  {
    out := [];
    var i := 0;
    while i < |glob|
      invariant 0 <= i <= |glob|
      invariant out + Tokens(glob[i..]) == Tokens(glob)
    {
      TokensFrom(glob, i);
      var (token, width) := Piece(glob, i);
      Reassociate(out, token, Tokens(glob[i + width..]));
      out := out + [token];
      i := i + width;
    }
  }

  lemma Reassociate(a: seq<Token>, t: Token, b: seq<Token>)
    ensures a + ([t] + b) == (a + [t]) + b
  {
  }

  // ── what the expression matches ──────────────────────────────────────

  /** The whole of s matches. "." stops at a newline, "[^/]" at a slash. */
  predicate Matches(toks: seq<Token>, s: string, ic: bool)
    decreases |toks|, |s|
  {
    if toks == [] then s == ""
    else
      var rest := toks[1..];
      match toks[0]
      case Lit(c) => s != "" && Same(ic, c, s[0]) && Matches(rest, s[1..], ic)
      case One => s != "" && s[0] != '/' && Matches(rest, s[1..], ic)
      case Star => Matches(rest, s, ic) || (s != "" && s[0] != '/' && Matches(toks, s[1..], ic))
      case Anything => Matches(rest, s, ic) || (s != "" && s[0] != '\n' && Matches(toks, s[1..], ic))
      case AnyDirs => Matches(rest, s, ic) || AfterSlash(rest, s, ic)
  }

  /** ".*" and a slash, then the rest. */
  predicate AfterSlash(rest: seq<Token>, s: string, ic: bool)
    decreases |rest|, |s|, 1
  {
    s != "" &&
    (|| (s[0] == '/' && Matches(rest, s[1..], ic))
     || (s[0] != '\n' && AfterSlash(rest, s[1..], ic)))
  }

  predicate MatchesAny(path: string, globs: seq<string>, ic: bool) {
    exists i :: 0 <= i < |globs| && Matches(Tokens(globs[i]), path, ic)
  }

  // ── the meaning, segment by segment ──────────────────────────────────

  /** The index of the first slash, or the length. */
  function Slash(s: string): (i: nat)
    ensures i <= |s| && '/' !in s[..i]
    ensures i < |s| ==> s[i] == '/'
    ensures i == |s| <==> '/' !in s
  {
    if s == "" || s[0] == '/' then 0
    else
      var i := Slash(s[1..]);
      assert s[..i + 1] == [s[0]] + s[1..][..i];
      assert s == [s[0]] + s[1..];
      i + 1
  }

  function Split(s: string): (segments: seq<string>)
    ensures segments != []
  {
    var i := Slash(s);
    if i == |s| then [s] else [s[..i]] + Split(s[i + 1..])
  }

  predicate OneLine(s: string) {
    '\n' !in s
  }

  predicate AllOneLine(ps: seq<string>) {
    ps == [] || (OneLine(ps[0]) && AllOneLine(ps[1..]))
  }

  /** One segment: "*" any run of characters, "?" any one. */
  predicate SegmentMatches(g: string, p: string, ic: bool)
    decreases |g|, |p|
  {
    if g == "" then p == ""
    else if g[0] == '*' then SegmentMatches(g[1..], p, ic) || (p != "" && SegmentMatches(g, p[1..], ic))
    else p != "" && (g[0] == '?' || Same(ic, g[0], p[0])) && SegmentMatches(g[1..], p[1..], ic)
  }

  /** Segment lists: an inner "**" takes zero or more whole segments, a last one one or more,
      and neither takes a segment with a line break; everything else stays in its segment. */
  predicate PathMatches(gs: seq<string>, ps: seq<string>, ic: bool)
    decreases |gs|, |ps|
  {
    if gs == [] then ps == []
    else if gs[0] == "**" then
      if |gs| == 1 then ps != [] && AllOneLine(ps)
      else PathMatches(gs[1..], ps, ic) || (ps != [] && OneLine(ps[0]) && PathMatches(gs, ps[1..], ic))
    else ps != [] && SegmentMatches(gs[0], ps[0], ic) && PathMatches(gs[1..], ps[1..], ic)
  }

  predicate Doubled(g: string) {
    exists i :: 0 <= i < |g| - 1 && g[i] == '*' && g[i + 1] == '*'
  }

  /** Every "**" of the glob is a whole segment. */
  predicate WholeSegments(glob: string) {
    AllWhole(Split(glob))
  }

  predicate AllWhole(gs: seq<string>) {
    gs == [] || ((gs[0] == "**" || !Doubled(gs[0])) && AllWhole(gs[1..]))
  }

  // ── tokens of a segment ──────────────────────────────────────────────

  function SegmentTokens(g: string): seq<Token> {
    if g == "" then [] else [Single(g[0])] + SegmentTokens(g[1..])
  }

  lemma DoubledTail(g: string)
    requires g != "" && !Doubled(g)
    ensures !Doubled(g[1..]) && !("**" <= g)
  {
    forall i | 0 <= i < |g[1..]| - 1 ensures !(g[1..][i] == '*' && g[1..][i + 1] == '*') {
      assert !(g[i + 1] == '*' && g[i + 1 + 1] == '*');
    }
    assert |g| >= 2 ==> !(g[0] == '*' && g[0 + 1] == '*');
  }

  /** A segment without "**", and what follows its slash. */
  lemma {:induction false} TokensOfSegment(g: string, rest: string)
    requires !Doubled(g) && '/' !in g
    ensures Tokens(g + "/" + rest) == SegmentTokens(g) + [Lit('/')] + Tokens(rest)
  {
    var glob := g + "/" + rest;
    if g == "" {
      assert glob[0] == '/' && glob[1..] == rest;
      assert SegmentTokens(g) + [Lit('/')] == [Lit('/')];
    } else {
      DoubledTail(g);
      TokensOfSegment(g[1..], rest);
      assert glob[0] == g[0] && glob[1..] == g[1..] + "/" + rest;
      assert glob[1] == if |g| >= 2 then g[1] else '/';
      assert Tokens(glob) == [Single(g[0])] + (SegmentTokens(g[1..]) + [Lit('/')] + Tokens(rest));
      assert SegmentTokens(g) == [Single(g[0])] + SegmentTokens(g[1..]);
    }
  }

  lemma {:induction false} TokensOfLastSegment(g: string)
    requires !Doubled(g)
    ensures Tokens(g) == SegmentTokens(g)
  {
    if g != "" {
      DoubledTail(g);
      TokensOfLastSegment(g[1..]);
    }
  }

  // ── matching a segment ───────────────────────────────────────────────

  lemma SlashIsOnlySlash(ic: bool, c: char)
    ensures Same(ic, c, '/') <==> c == '/'
    ensures Same(ic, '/', c) <==> c == '/'
  {
  }

  /** A segment followed by a slash takes exactly the text up to the first slash. */
  lemma {:induction false} SegmentThenSlash(g: string, toks: seq<Token>, p: string, q: string, ic: bool)
    requires '/' !in g && '/' !in p
    ensures Matches(SegmentTokens(g) + [Lit('/')] + toks, p + "/" + q, ic) <==> SegmentMatches(g, p, ic) && Matches(toks, q, ic)
    decreases |g|, |p|
  {
    var all := SegmentTokens(g) + [Lit('/')] + toks;
    var s := p + "/" + q;
    if g == "" {
      assert all == [Lit('/')] + toks;
      SlashIsOnlySlash(ic, s[0]);
      if p == "" {
        assert s[1..] == q;
      }
    } else {
      var rest := SegmentTokens(g[1..]) + [Lit('/')] + toks;
      assert all == [Single(g[0])] + rest;
      SegmentThenSlash(g[1..], toks, p, q, ic);
      if p == "" {
        assert s[0] == '/';
        SlashIsOnlySlash(ic, g[0]);
      } else {
        assert s[0] == p[0] && s[1..] == p[1..] + "/" + q;
        SegmentThenSlash(g[1..], toks, p[1..], q, ic);
        if g[0] == '*' {
          SegmentThenSlash(g, toks, p[1..], q, ic);
        }
      }
    }
  }

  lemma {:induction false} SegmentNeedsItsSlash(g: string, toks: seq<Token>, s: string, ic: bool)
    requires '/' !in s
    ensures !Matches(SegmentTokens(g) + [Lit('/')] + toks, s, ic)
    decreases |g|, |s|
  {
    var all := SegmentTokens(g) + [Lit('/')] + toks;
    if g == "" {
      assert all == [Lit('/')] + toks;
      if s != "" { SlashIsOnlySlash(ic, s[0]); }
    } else {
      assert all == [Single(g[0])] + (SegmentTokens(g[1..]) + [Lit('/')] + toks);
      SegmentNeedsItsSlash(g[1..], toks, s, ic);
      if s != "" {
        SegmentNeedsItsSlash(g[1..], toks, s[1..], ic);
        if g[0] == '*' { SegmentNeedsItsSlash(g, toks, s[1..], ic); }
      }
    }
  }

  lemma {:induction false} LastSegment(g: string, s: string, ic: bool)
    requires '/' !in g
    ensures Matches(SegmentTokens(g), s, ic) <==> '/' !in s && SegmentMatches(g, s, ic)
    decreases |g|, |s|
  {
    if g != "" {
      assert SegmentTokens(g)[1..] == SegmentTokens(g[1..]);
      if s != "" {
        assert '/' in s <==> s[0] == '/' || '/' in s[1..];
        SlashIsOnlySlash(ic, g[0]);
        LastSegment(g[1..], s[1..], ic);
      }
      if g[0] == '*' {
        LastSegment(g[1..], s, ic);
        if s != "" { LastSegment(g, s[1..], ic); }
      }
    }
  }

  // ── matching "**" ────────────────────────────────────────────────────

  lemma {:induction false} AnythingIsOneLine(s: string, ic: bool)
    ensures Matches([Anything], s, ic) <==> OneLine(s)
  {
    assert [Anything][1..] == [];
    if s != "" {
      AnythingIsOneLine(s[1..], ic);
      assert s == [s[0]] + s[1..];
    }
  }

  lemma {:induction false} OneLineSegments(s: string)
    ensures OneLine(s) <==> AllOneLine(Split(s))
  {
    var i := Slash(s);
    if i < |s| {
      var rest := s[i + 1..];
      OneLineSegments(rest);
      assert s == s[..i] + ['/'] + rest;
      assert Split(s)[1..] == Split(rest);
    } else {
      assert Split(s)[1..] == [];
    }
  }

  /** The optional directories: none of them, or the first segment and again. */
  lemma {:induction false} AfterSlashOfPath(toks: seq<Token>, p: string, q: string, ic: bool)
    requires '/' !in p
    ensures AfterSlash(toks, p + "/" + q, ic) <==> OneLine(p) && (Matches(toks, q, ic) || AfterSlash(toks, q, ic))
    decreases |p|
  {
    var s := p + "/" + q;
    if p == "" {
      assert s[0] == '/' && s[1..] == q;
    } else {
      assert s[0] == p[0] && s[1..] == p[1..] + "/" + q;
      assert p == [p[0]] + p[1..];
      AfterSlashOfPath(toks, p[1..], q, ic);
    }
  }

  lemma {:induction false} NoSlashNoDirs(toks: seq<Token>, s: string, ic: bool)
    requires '/' !in s
    ensures !AfterSlash(toks, s, ic)
    decreases |s|
  {
    if s != "" {
      NoSlashNoDirs(toks, s[1..], ic);
    }
  }

  lemma {:induction false} SomeSegmentNeeded(gs: seq<string>, ic: bool)
    requires gs != []
    ensures !PathMatches(gs, [], ic)
  {
    if gs[0] == "**" && |gs| > 1 {
      SomeSegmentNeeded(gs[1..], ic);
    }
  }

  // ── the translation keeps the meaning ────────────────────────────────

  /** For globs whose every "**" is a whole segment, the expression matches exactly the paths
      the segment lists match. */
  lemma {:induction false} GlobMeans(glob: string, path: string, ic: bool)
    requires WholeSegments(glob)
    ensures Matches(Tokens(glob), path, ic) <==> PathMatches(Split(glob), Split(path), ic)
    decreases |glob|, |path|, 1
  {
    var i := Slash(glob);
    if i == |glob| {
      LastGlobMeans(glob, path, ic);
    } else {
      SplitRest(glob);
      var g, rest := glob[..i], glob[i + 1..];
      if g == "**" {
        DirsMean(glob, rest, path, ic);
      } else {
        if Slash(path) < |path| {
          GlobMeans(rest, path[Slash(path) + 1..], ic);
        }
        SegmentMeans(glob, g, rest, path, ic);
      }
    }
  }

  lemma PathMatchesCons(g: string, gs: seq<string>, p: string, ps: seq<string>, ic: bool)
    requires g != "**"
    ensures PathMatches([g] + gs, [p] + ps, ic) <==> SegmentMatches(g, p, ic) && PathMatches(gs, ps, ic)
  {
    assert ([g] + gs)[1..] == gs && ([p] + ps)[1..] == ps;
  }

  lemma SegmentMeans(glob: string, g: string, rest: string, path: string, ic: bool)
    requires glob == g + "/" + rest && '/' !in g && g != "**" && !Doubled(g)
    requires Split(glob) == [g] + Split(rest)
    requires Slash(path) < |path| ==>
               var q := path[Slash(path) + 1..];
               (Matches(Tokens(rest), q, ic) <==> PathMatches(Split(rest), Split(q), ic))
    ensures Matches(Tokens(glob), path, ic) <==> PathMatches(Split(glob), Split(path), ic)
  {
    TokensOfSegment(g, rest);
    var j := Slash(path);
    if j == |path| {
      SegmentNeedsItsSlash(g, Tokens(rest), path, ic);
      SomeSegmentNeeded(Split(rest), ic);
      PathMatchesCons(g, Split(rest), path, [], ic);
      assert Split(path) == [path] + [];
    } else {
      var p, q := path[..j], path[j + 1..];
      assert path == p + "/" + q;
      SegmentThenSlash(g, Tokens(rest), p, q, ic);
      PathMatchesCons(g, Split(rest), p, Split(q), ic);
    }
  }

  lemma LastGlobMeans(g: string, path: string, ic: bool)
    requires WholeSegments(g) && '/' !in g
    ensures Matches(Tokens(g), path, ic) <==> PathMatches(Split(g), Split(path), ic)
  {
    assert Split(g) == [g] && Split(g)[0] == g;
    if g == "**" {
      assert Tokens(g) == [Anything] by { assert g[2..] == ""; }
      AnythingIsOneLine(path, ic);
      OneLineSegments(path);
    } else {
      TokensOfLastSegment(g);
      LastSegment(g, path, ic);
      var j := Slash(path);
      assert [g][1..] == [];
      if j < |path| {
        assert Split(path)[1..] == Split(path[j + 1..]);
      }
    }
  }

  lemma SplitRest(glob: string)
    requires Slash(glob) < |glob| && WholeSegments(glob)
    ensures var g, rest := glob[..Slash(glob)], glob[Slash(glob) + 1..];
            && glob == g + "/" + rest && WholeSegments(rest) && Split(glob) == [g] + Split(rest)
            && (g == "**" || !Doubled(g))
  {
    var g, rest := glob[..Slash(glob)], glob[Slash(glob) + 1..];
    assert Split(glob)[1..] == Split(rest);
  }

  lemma {:induction false} DirsMean(glob: string, rest: string, path: string, ic: bool)
    requires WholeSegments(glob) && glob == "**/" + rest && WholeSegments(rest)
    requires Split(glob) == ["**"] + Split(rest)
    ensures Matches(Tokens(glob), path, ic) <==> PathMatches(Split(glob), Split(path), ic)
    decreases |glob|, |path|, 0
  {
    assert glob[3..] == rest && Split(glob)[1..] == Split(rest);
    var toks := Tokens(rest);
    assert Tokens(glob) == [AnyDirs] + toks && Tokens(glob)[1..] == toks;
    GlobMeans(rest, path, ic);
    var j := Slash(path);
    if j == |path| {
      NoSlashNoDirs(toks, path, ic);
      assert Split(path)[1..] == [];
      SomeSegmentNeeded(Split(glob), ic);
    } else {
      var q := path[j + 1..];
      assert path == path[..j] + "/" + q;
      AfterSlashOfPath(toks, path[..j], q, ic);
      DirsMean(glob, rest, q, ic);
      assert Split(path)[0] == path[..j] && Split(path)[1..] == Split(q);
    }
  }

  // ── globs without wildcards ──────────────────────────────────────────

  predicate Plain(s: string) {
    forall i :: 0 <= i < |s| ==> s[i] != '*' && s[i] != '?'
  }

  lemma PlainFirst(g: string, rest: string)
    requires g != "" && Plain(g)
    ensures Tokens(g + rest) == [Lit(g[0])] + Tokens(g[1..] + rest)
  {
    var all := g + rest;
    assert all[0] == g[0] && all[1..] == g[1..] + rest;
    assert !("**" <= all) && !("**/" <= all);
  }

  /** What stands before the wildcards is matched character by character. */
  lemma {:induction false} PlainThen(g: string, rest: string, path: string, ic: bool)
    requires Plain(g)
    ensures Matches(Tokens(g + rest), path, ic) <==>
            |g| <= |path| && (forall i :: 0 <= i < |g| ==> Same(ic, g[i], path[i])) && Matches(Tokens(rest), path[|g|..], ic)
    decreases |g|
  {
    if g == "" {
      assert g + rest == rest && path[0..] == path;
    } else {
      PlainFirst(g, rest);
      var toks := Tokens(g + rest);
      assert toks[0] == Lit(g[0]) && toks[1..] == Tokens(g[1..] + rest);
      if path != "" {
        PlainThen(g[1..], rest, path[1..], ic);
        assert forall i :: 1 <= i < |g| ==> g[i] == g[1..][i - 1];
        assert forall i :: 1 <= i < |path| ==> path[i] == path[1..][i - 1];
        if |g| <= |path| { assert path[1..][|g[1..]|..] == path[|g|..]; }
      }
    }
  }

  /** A glob without wildcards matches itself, in any case when case is ignored, and nothing else. */
  lemma PlainMeans(g: string, path: string)
    requires Plain(g)
    ensures Matches(Tokens(g), path, false) <==> path == g
    ensures Matches(Tokens(g), path, true) <==> Lower(path) == Lower(g)
  {
    assert g + "" == g;
    PlainThen(g, "", path, false);
    PlainThen(g, "", path, true);
    if |path| == |g| {
      assert Lower(path) == Lower(g) <==> forall i :: 0 <= i < |g| ==> LowerChar(g[i]) == LowerChar(path[i]) by {
        assert forall i :: 0 <= i < |g| ==> Lower(g)[i] == LowerChar(g[i]) && Lower(path)[i] == LowerChar(path[i]);
      }
    }
  }

  /** A path is matched by globs whose every "**" is a whole segment exactly when the segments of one
      of them match its segments. */
  lemma MatchesAnyMeans(path: string, globs: seq<string>, ic: bool)
    requires forall i :: 0 <= i < |globs| ==> WholeSegments(globs[i])
    ensures MatchesAny(path, globs, ic) <==> exists g :: g in globs && PathMatches(Split(g), Split(path), ic)
  {
    forall i | 0 <= i < |globs| ensures Matches(Tokens(globs[i]), path, ic) <==> PathMatches(Split(globs[i]), Split(path), ic) {
      GlobMeans(globs[i], path, ic);
    }
    if i :| 0 <= i < |globs| && Matches(Tokens(globs[i]), path, ic) {
      assert globs[i] in globs;
    }
  }

  ghost predicate Between(front: string, x: string, back: string, name: string) {
    name == front + x + back
  }

  /** A single "*" between plain text: the text at both ends, and no slash between. */
  lemma StarBetween(front: string, back: string, name: string)
    requires Plain(front) && Plain(back) && '/' !in name
    ensures Matches(Tokens(front + ("*" + back)), name, false) <==> exists x :: Between(front, x, back, name)
  {
    if Matches(Tokens(front + ("*" + back)), name, false) {
      var x := StarFound(front, back, name);
      assert Between(front, x, back, name);
    }
    if x :| Between(front, x, back, name) {
      StarFits(front, x, back);
    }
  }

  lemma StarFound(front: string, back: string, name: string) returns (x: string)
    requires Plain(front) && Plain(back) && Matches(Tokens(front + ("*" + back)), name, false)
    ensures name == front + x + back
  {
    PlainThen(front, "*" + back, name, false);
    StarFirst(back);
    x := StarTakes(back, name[|front|..]);
    assert name[..|front|] == front;
    assert name == name[..|front|] + name[|front|..];
  }

  lemma StarFits(front: string, x: string, back: string)
    requires Plain(front) && Plain(back) && '/' !in front + x + back
    ensures Matches(Tokens(front + ("*" + back)), front + x + back, false)
  {
    var name := front + x + back;
    assert name[|front|..] == x + back && forall i :: 0 <= i < |front| ==> name[i] == front[i];
    assert forall i :: 0 <= i < |x| ==> x[i] == name[|front| + i];
    StarFirst(back);
    StarGives(back, x);
    PlainThen(front, "*" + back, name, false);
  }

  lemma StarFirst(back: string)
    requires Plain(back)
    ensures Tokens("*" + back) == [Star] + Tokens(back)
  {
    var g := "*" + back;
    assert g[0] == '*' && g[1..] == back && (back != "" ==> g[1] != '*');
    assert !("**" <= g) && !("**/" <= g);
  }

  lemma {:induction false} StarTakes(back: string, rest: string) returns (x: string)
    requires Plain(back) && Matches([Star] + Tokens(back), rest, false)
    ensures rest == x + back
  {
    var toks := [Star] + Tokens(back);
    assert toks[1..] == Tokens(back);
    if Matches(Tokens(back), rest, false) {
      PlainMeans(back, rest);
      x := "";
    } else {
      var y := StarTakes(back, rest[1..]);
      x := [rest[0]] + y;
      assert rest == [rest[0]] + rest[1..];
    }
  }

  lemma {:induction false} StarGives(back: string, x: string)
    requires Plain(back) && '/' !in x
    ensures Matches([Star] + Tokens(back), x + back, false)
  {
    var toks := [Star] + Tokens(back);
    assert toks[1..] == Tokens(back);
    if x == "" {
      PlainMeans(back, back);
      assert x + back == back;
    } else {
      StarGives(back, x[1..]);
      assert (x + back)[1..] == x[1..] + back && (x + back)[0] == x[0];
      assert x[0] in x;
    }
  }
}
