/** The corpus tools (greyspace/scripts/corpus.py): which address each site is given, and the
    checksum file written for a tree and read back. */
module Corpus {
  import opened Basics

  // ── addresses ────────────────────────────────────────────────────────

  /** A network of `size` addresses from `base` on. */
  datatype Pool = Pool(base: nat, size: nat)

  const INFRASTRUCTURE: nat := 256

  predicate Contains(p: Pool, ip: nat) {
    p.base <= ip < p.base + p.size
  }

  /** Neither the network's nor the broadcast address is a host; the first hosts are kept for
      infrastructure. */
  function Hosts(p: Pool): nat {
    if p.size >= INFRASTRUCTURE + 2 then p.size - 2 - INFRASTRUCTURE else 0
  }

  function Host(p: Pool, j: nat): nat {
    p.base + 1 + INFRASTRUCTURE + j
  }

  /** The n-th directory's address, if its pool reaches that far. */
  function Address(pools: seq<Pool>, n: nat): Option<nat>
    requires pools != []
  {
    HostAt(pools[Turn(n, |pools|)], n / |pools|)
  }

  function HostAt(p: Pool, j: nat): Option<nat> {
    if j < Hosts(p) then Some(Host(p, j)) else None
  }

  /** Pools take turns. */
  function Turn(n: nat, k: nat): (i: nat)
    requires k > 0
    ensures i < k
  {
    n % k
  }

  datatype Dir = Dir(name: string, valid: bool)

  datatype Site = Site(dir: string, ip: nat)

  /** The sites of the first `n` directories; a name that is no domain uses up its turn. */
  function Sites(dirs: seq<Dir>, pools: seq<Pool>, n: nat): Option<seq<Site>>
    requires pools != [] && n <= |dirs|
  {
    if n == 0 then Some([])
    else
      var front := Sites(dirs, pools, n - 1);
      if front.None? || !dirs[n - 1].valid then front
      else if Address(pools, n - 1).None? then None
      else Some(front.value + [Site(dirs[n - 1].name, Address(pools, n - 1).value)])
  }

  method Index(dirs: seq<Dir>, pools: seq<Pool>) returns (sites: Option<seq<Site>>)
    requires pools != []
    ensures sites == Sites(dirs, pools, |dirs|)
  {
    var list: seq<Site> := [];
    for n := 0 to |dirs|
      invariant Sites(dirs, pools, n) == Some(list)
    {
      if !dirs[n].valid {
        continue;
      }
      var ip := Address(pools, n);
      if ip.None? {
        RunsOut(dirs, pools, n + 1, |dirs|);
        return None;
      }
      list := list + [Site(dirs[n].name, ip.value)];
    }
    return Some(list);
  }

  lemma {:induction false} RunsOut(dirs: seq<Dir>, pools: seq<Pool>, n: nat, m: nat)
    requires pools != [] && n <= m <= |dirs| && Sites(dirs, pools, n).None?
    ensures Sites(dirs, pools, m).None?
  {
    if n < m {
      RunsOut(dirs, pools, n, m - 1);
    }
  }

  ghost predicate Disjoint(pools: seq<Pool>) {
    forall i, j, ip :: 0 <= i < j < |pools| && Contains(pools[i], ip) ==> !Contains(pools[j], ip)
  }

  /** Two directories never get the same address, and each gets one inside its own pool, past
      the part kept for infrastructure. */
  lemma AddressesDiffer(pools: seq<Pool>, n: nat, m: nat)
    requires pools != [] && Disjoint(pools) && n != m
    requires Address(pools, n).Some? && Address(pools, m).Some?
    ensures Address(pools, n) != Address(pools, m)
  {
    AddressIsInPool(pools, n);
    AddressIsInPool(pools, m);
    var i, j := Turn(n, |pools|), Turn(m, |pools|);
    if i == j {
      SameTurn(n, m, |pools|);
    } else if i < j {
      assert !Contains(pools[j], Address(pools, n).value);
    } else {
      assert !Contains(pools[i], Address(pools, m).value);
    }
  }

  lemma SameTurn(n: nat, m: nat, k: nat)
    requires k > 0 && Turn(n, k) == Turn(m, k) && n != m
    ensures n / k != m / k
  {
    assert n == n / k * k + n % k && m == m / k * k + m % k;
  }

  lemma AddressIsInPool(pools: seq<Pool>, n: nat)
    requires pools != [] && Address(pools, n).Some?
    ensures var p, ip := pools[Turn(n, |pools|)], Address(pools, n).value;
            Contains(p, ip) && p.base + INFRASTRUCTURE < ip < p.base + p.size - 1
  {
    HostIsInPool(pools[Turn(n, |pools|)], n / |pools|);
  }

  lemma HostIsInPool(p: Pool, j: nat)
    requires j < Hosts(p)
    ensures Contains(p, Host(p, j)) && p.base + INFRASTRUCTURE < Host(p, j) < p.base + p.size - 1
  {
  }

  ghost predicate HasSite(sites: seq<Site>, dirs: seq<Dir>, pools: seq<Pool>, n: nat)
    requires pools != [] && n < |dirs|
  {
    Address(pools, n).Some? && Site(dirs[n].name, Address(pools, n).value) in sites
  }

  /** A tree can be indexed exactly when every valid directory's turn is within its pool; then
      every valid directory has its site, there is no other, and no two share an address. */
  lemma {:induction false} IndexIsExact(dirs: seq<Dir>, pools: seq<Pool>, n: nat)
    requires pools != [] && Disjoint(pools) && n <= |dirs|
    ensures Sites(dirs, pools, n).Some? <==> forall i :: 0 <= i < n && dirs[i].valid ==> Address(pools, i).Some?
    ensures Sites(dirs, pools, n).Some? ==>
              var sites := Sites(dirs, pools, n).value;
              && (forall i :: 0 <= i < n && dirs[i].valid ==> HasSite(sites, dirs, pools, i))
              && (forall s :: s in sites ==> exists i :: 0 <= i < n && dirs[i].valid && Address(pools, i) == Some(s.ip) && s.dir == dirs[i].name)
              && (forall a, b :: 0 <= a < b < |sites| ==> sites[a].ip != sites[b].ip)
  {
    if n > 0 {
      IndexIsExact(dirs, pools, n - 1);
      var front := Sites(dirs, pools, n - 1);
      if front.Some? && dirs[n - 1].valid && Address(pools, n - 1).Some? {
        var ip := Address(pools, n - 1).value;
        forall a | 0 <= a < |front.value| ensures front.value[a].ip != ip {
          assert front.value[a] in front.value;
          var i :| 0 <= i < n - 1 && dirs[i].valid && Address(pools, i) == Some(front.value[a].ip) && front.value[a].dir == dirs[i].name;
          AddressesDiffer(pools, i, n - 1);
        }
        var s := Site(dirs[n - 1].name, ip);
        assert Sites(dirs, pools, n) == Some(front.value + [s]);
        assert s in front.value + [s];
        forall i | 0 <= i < n && dirs[i].valid ensures HasSite(front.value + [s], dirs, pools, i) {
          assert i < n - 1 ==> HasSite(front.value, dirs, pools, i);
        }
      }
    }
  }

  // the two networks and the two threat-actor addresses that ship with the fixture

  const ISPS: seq<Pool> := [Pool(Quad(198, 18, 0, 0), 65536), Pool(Quad(198, 19, 0, 0), 65536)]

  const THREATS: set<nat> := {Quad(198, 19, 250, 10), Quad(198, 19, 250, 11)}

  function Quad(a: nat, b: nat, c: nat, d: nat): nat {
    ((a * 256 + b) * 256 + c) * 256 + d
  }

  /** The networks hold 130556 sites. The address of a threat actor is handed out all the same,
      to two directories far down the list. */
  lemma IspAddresses(n: nat)
    ensures Disjoint(ISPS)
    ensures Address(ISPS, n).Some? <==> n < 130556
    ensures n < 130556 ==> (Address(ISPS, n).value in THREATS <==> n == 127507 || n == 127509)
  {
    assert |ISPS| == 2;
    assert n == n / 2 * 2 + n % 2;
    assert Quad(198, 18, 0, 0) == 3323068416;
    assert Quad(198, 19, 0, 0) == 3323133952;
    assert Quad(198, 19, 250, 10) == 3323133952 + 64010;
    assert Quad(198, 19, 250, 11) == 3323133952 + 64011;
  }

  // ── the checksum file ────────────────────────────────────────────────

  datatype Sum = Sum(digest: string, path: string)

  /** Where a text file read back is cut into lines. */
  predicate IsBreak(c: char) {
    c in {'\n', '\r', '\U{0b}', '\U{0c}', '\U{1c}', '\U{1d}', '\U{1e}', '\U{85}', '\U{2028}', '\U{2029}'}
  }

  function BreakAt(s: string): (i: nat)
    ensures i <= |s|
    ensures i < |s| ==> IsBreak(s[i])
    ensures forall j :: 0 <= j < i ==> !IsBreak(s[j])
  {
    if s == "" || IsBreak(s[0]) then 0 else 1 + BreakAt(s[1..])
  }

  function SplitLines(s: string): seq<string> {
    if s == "" then []
    else
      var i := BreakAt(s);
      if i == |s| then [s]
      else
        var next := if s[i] == '\r' && i + 1 < |s| && s[i + 1] == '\n' then i + 2 else i + 1;
        [s[..i]] + SplitLines(s[next..])
  }

  /** The ends of lines, by code: line feed, the two tabulators of pages, carriage return, the three
      separators of files, groups and records, next line, and the separators of lines and paragraphs. */
  lemma BreaksAre(c: char)
    ensures IsBreak(c) <==> c as int in {10, 11, 12, 13, 28, 29, 30, 133, 8232, 8233}
  {
    assert '\n' as int == 10 && '\r' as int == 13;
    assert '\U{0b}' as int == 11 && '\U{0c}' as int == 12 && '\U{1c}' as int == 28 && '\U{1d}' as int == 29;
    assert '\U{1e}' as int == 30 && '\U{85}' as int == 133 && '\U{2028}' as int == 8232 && '\U{2029}' as int == 8233;
  }

  /** What ends a line before that rest: any break, but a carriage return takes a line feed with it. */
  ghost predicate EndsLine(end: string, rest: string) {
    || end == "\r\n"
    || (|end| == 1 && IsBreak(end[0]) && !(end == "\r" && rest != "" && rest[0] == '\n'))
  }

  /** A text is cut into lines at what ends them; what ends them belongs to no line. */
  lemma LinesAreCut(line: string, end: string, rest: string)
    requires OneLine(line)
    ensures EndsLine(end, rest) ==> SplitLines(line + end + rest) == [line] + SplitLines(rest)
    ensures SplitLines(line) == if line == "" then [] else [line]
  {
    if EndsLine(end, rest) {
      var text, n := line + end + rest, |line|;
      assert forall k :: 0 <= k < n ==> text[k] == line[k];
      assert text[n] == end[0] && IsBreak(text[n]);
      assert BreakAt(text) == n && text[..n] == line;
      if end == "\r\n" {
        assert text[n + 1] == '\n' && text[n + 2..] == rest;
      } else {
        assert text[n + 1..] == rest;
        assert |text| > n + 1 ==> text[n + 1] == rest[0];
      }
    }
  }

  function Line(e: Sum): string {
    e.digest + "  " + e.path
  }

  function Render(sums: seq<Sum>): string {
    if sums == [] then "" else Line(sums[0]) + "\n" + Render(sums[1..])
  }

  /** Cut at the first two blanks; without them the check of the corpus fails outright. */
  function Cut(line: string): Option<Sum> {
    if |line| < 2 then None
    else if line[0] == ' ' && line[1] == ' ' then Some(Sum("", line[2..]))
    else
      var rest := Cut(line[1..]);
      if rest.None? then None else Some(Sum([line[0]] + rest.value.digest, rest.value.path))
  }

  function CutAll(lines: seq<string>): Option<seq<Sum>> {
    if lines == [] then Some([])
    else
      var first, rest := Cut(lines[0]), CutAll(lines[1..]);
      if first.None? || rest.None? then None else Some([first.value] + rest.value)
  }

  predicate OneLine(s: string) {
    forall i :: 0 <= i < |s| ==> !IsBreak(s[i])
  }

  /** Hexadecimal. */
  predicate IsDigest(s: string) {
    forall i :: 0 <= i < |s| ==> '0' <= s[i] <= '9' || 'a' <= s[i] <= 'f'
  }

  lemma {:induction false} CutUndoesLine(e: Sum)
    requires IsDigest(e.digest)
    ensures Cut(Line(e)) == Some(e)
    decreases |e.digest|
  {
    if e.digest == "" {
      assert Line(e)[2..] == e.path;
    } else {
      var rest := Sum(e.digest[1..], e.path);
      CutUndoesLine(rest);
      assert Line(e)[1..] == Line(rest);
      assert [e.digest[0]] + e.digest[1..] == e.digest;
    }
  }

  lemma {:induction false} LineUndoesCut(line: string)
    requires Cut(line).Some?
    ensures Line(Cut(line).value) == line
  {
    if line[0] == ' ' && line[1] == ' ' {
      assert "" + "  " + line[2..] == line;
    } else {
      LineUndoesCut(line[1..]);
      var rest := Cut(line[1..]).value;
      assert [line[0]] + rest.digest + "  " + rest.path == [line[0]] + line[1..];
    }
  }

  /** The first line read back is the first line written exactly when its path has no break. */
  lemma FirstLine(e: Sum, rest: string)
    requires IsDigest(e.digest)
    ensures var text := Line(e) + "\n" + rest;
            if OneLine(e.path) then SplitLines(text) == [Line(e)] + SplitLines(rest)
            else |SplitLines(text)| > 0 && SplitLines(text)[0] != Line(e)
  {
    var text := Line(e) + "\n" + rest;
    var i := BreakAt(text);
    var n := |Line(e)|;
    assert text[n] == '\n';
    assert forall k :: 0 <= k < n ==> text[k] == Line(e)[k];
    assert forall k :: 0 <= k < |e.digest| + 2 ==> !IsBreak(text[k]);
    assert forall k :: 0 <= k < |e.path| ==> text[|e.digest| + 2 + k] == e.path[k];
    if OneLine(e.path) {
      assert forall k :: |e.digest| + 2 <= k < n ==> text[k] == e.path[k - |e.digest| - 2];
      assert i == n;
      assert text[..n] == Line(e) && text[n + 1..] == rest;
    } else {
      var k :| 0 <= k < |e.path| && IsBreak(e.path[k]);
      assert i <= |e.digest| + 2 + k < n;
    }
  }

  ghost predicate Clean(sums: seq<Sum>) {
    forall i :: 0 <= i < |sums| ==> OneLine(sums[i].path)
  }

  lemma CleanCons(sums: seq<Sum>)
    requires sums != []
    ensures Clean(sums) <==> OneLine(sums[0].path) && Clean(sums[1..])
  {
    assert forall i :: 1 <= i < |sums| ==> sums[i] == sums[1..][i - 1];
  }

  lemma BrokenLineDiffers(sums: seq<Sum>, lines: seq<string>)
    requires sums != [] && lines != [] && lines[0] != Line(sums[0])
    ensures CutAll(lines) != Some(sums)
  {
    if Cut(lines[0]).Some? {
      LineUndoesCut(lines[0]);
    }
  }

  /** The file written reads back as it was written exactly when no path has a line break in it. */
  lemma {:induction false} ReadsBack(sums: seq<Sum>)
    requires forall i :: 0 <= i < |sums| ==> IsDigest(sums[i].digest)
    ensures CutAll(SplitLines(Render(sums))) == Some(sums) <==> Clean(sums)
  {
    if sums != [] {
      var e, rest := sums[0], sums[1..];
      ReadsBack(rest);
      FirstLine(e, Render(rest));
      CleanCons(sums);
      var lines := SplitLines(Render(sums));
      if OneLine(e.path) {
        CutUndoesLine(e);
        assert lines[1..] == SplitLines(Render(rest));
        assert [e] + rest == sums;
      } else {
        BrokenLineDiffers(sums, lines);
      }
    }
  }

  /** A file whose name holds a line break is not found again. */
  lemma BrokenPathIsLost()
    ensures CutAll(SplitLines(Render([Sum("ab", "sites/x\ny")]))) != Some([Sum("ab", "sites/x\ny")])
  {
    var sums := [Sum("ab", "sites/x\ny")];
    ReadsBack(sums);
    assert sums[0].path[7] == '\n';
    assert !OneLine(sums[0].path);
  }

  /** Whatever lies under the sites, in order; a directory has no digest. */
  datatype Found = Found(path: string, digest: Option<string>)

  function Sums(tree: seq<Found>): seq<Sum> {
    if tree == [] then []
    else
      var last := tree[|tree| - 1];
      Sums(tree[..|tree| - 1]) + if last.digest.Some? then [Sum(last.digest.value, last.path)] else []
  }

  function Lines(sums: seq<Sum>): seq<string> {
    seq(|sums|, i requires 0 <= i < |sums| => Line(sums[i]) + "\n")
  }

  function Join(lines: seq<string>): string {
    if lines == [] then "" else lines[0] + Join(lines[1..])
  }

  lemma {:induction false} JoinLines(sums: seq<Sum>)
    ensures Join(Lines(sums)) == Render(sums)
  {
    if sums != [] {
      JoinLines(sums[1..]);
      assert Lines(sums)[1..] == Lines(sums[1..]);
    }
  }

  method WriteChecksums(tree: seq<Found>) returns (text: string, count: nat)
    ensures text == Render(Sums(tree)) && count == |Sums(tree)|
  {
    var lines: seq<string> := [];
    for i := 0 to |tree|
      invariant lines == Lines(Sums(tree[..i]))
    {
      assert tree[..i + 1][..i] == tree[..i];
      if tree[i].digest.Some? {
        lines := lines + [Line(Sum(tree[i].digest.value, tree[i].path)) + "\n"];
      }
    }
    assert tree[..|tree|] == tree;
    JoinLines(Sums(tree));
    return Join(lines), |lines|;
  }

  /** Missing or with another digest. */
  predicate IsBad(e: Sum, files: map<string, string>) {
    e.path !in files || files[e.path] != e.digest
  }

  function Bad(sums: seq<Sum>, files: map<string, string>): nat {
    if sums == [] then 0 else Bad(sums[..|sums| - 1], files) + if IsBad(sums[|sums| - 1], files) then 1 else 0
  }

  lemma {:induction false} NoneBad(sums: seq<Sum>, files: map<string, string>)
    ensures Bad(sums, files) == 0 <==> forall i :: 0 <= i < |sums| ==> !IsBad(sums[i], files)
  {
    if sums != [] {
      NoneBad(sums[..|sums| - 1], files);
      assert forall i :: 0 <= i < |sums| - 1 ==> sums[..|sums| - 1][i] == sums[i];
    }
  }

  lemma {:induction false} CutAllAt(lines: seq<string>)
    ensures CutAll(lines).None? <==> exists i :: 0 <= i < |lines| && Cut(lines[i]).None?
    ensures CutAll(lines).Some? ==>
              |CutAll(lines).value| == |lines| && forall i :: 0 <= i < |lines| ==> Cut(lines[i]) == Some(CutAll(lines).value[i])
  {
    if lines != [] {
      CutAllAt(lines[1..]);
      assert forall i :: 1 <= i < |lines| ==> lines[i] == lines[1..][i - 1];
      if Cut(lines[0]).Some? && CutAll(lines[1..]).None? {
        var i :| 0 <= i < |lines[1..]| && Cut(lines[1..][i]).None?;
        assert Cut(lines[i + 1]).None?;
      }
    }
  }

  /** How many of the manifest's sites have no directory. */
  function Missing(sites: seq<string>, dirs: set<string>): nat {
    if sites == [] then 0 else Missing(sites[..|sites| - 1], dirs) + if sites[|sites| - 1] in dirs then 0 else 1
  }

  lemma {:induction false} NoneMissing(sites: seq<string>, dirs: set<string>)
    ensures Missing(sites, dirs) == 0 <==> forall i :: 0 <= i < |sites| ==> sites[i] in dirs
  {
    if sites != [] {
      NoneMissing(sites[..|sites| - 1], dirs);
      assert forall i :: 0 <= i < |sites| - 1 ==> sites[..|sites| - 1][i] == sites[i];
    }
  }

  method Verify(text: string, files: map<string, string>, sites: seq<string>, dirs: set<string>) returns (bad: Option<nat>)
    ensures CutAll(SplitLines(text)).None? ==> bad.None?
    ensures CutAll(SplitLines(text)).Some? ==> bad == Some(Bad(CutAll(SplitLines(text)).value, files) + Missing(sites, dirs))
  {
    bad := VerifyFiles(text, files);
    if bad.None? {
      return;
    }
    var n := bad.value;
    for i := 0 to |sites|
      invariant n == bad.value + Missing(sites[..i], dirs)
    {
      assert sites[..i + 1][..i] == sites[..i];
      if sites[i] !in dirs {
        n := n + 1;
      }
    }
    assert sites[..|sites|] == sites;
    bad := Some(n);
  }

  method VerifyFiles(text: string, files: map<string, string>) returns (bad: Option<nat>)
    ensures bad == var sums := CutAll(SplitLines(text)); if sums.None? then None else Some(Bad(sums.value, files))
  {
    var lines := SplitLines(text);
    CutAllAt(lines);
    var n := 0;
    ghost var sums: seq<Sum> := [];
    for i := 0 to |lines|
      invariant |sums| == i && (forall j :: 0 <= j < i ==> Cut(lines[j]) == Some(sums[j])) && n == Bad(sums, files)
    {
      var e := Cut(lines[i]);
      if e.None? {
        return None;
      }
      assert (sums + [e.value])[..i] == sums;
      sums := sums + [e.value];
      if IsBad(e.value, files) {
        n := n + 1;
      }
    }
    assert CutAll(lines).Some? && CutAll(lines).value == sums;
    return Some(n);
  }

  /** Checking a corpus against the file written for a tree: nothing is found exactly when every
      file of the tree is there unchanged and every site has its directory. Files it has besides
      are not noticed. */
  lemma VerifyMeans(tree: seq<Found>, files: map<string, string>, sites: seq<string>, dirs: set<string>)
    requires forall i :: 0 <= i < |Sums(tree)| ==> IsDigest(Sums(tree)[i].digest) && OneLine(Sums(tree)[i].path)
    ensures var read := CutAll(SplitLines(Render(Sums(tree))));
            && read.Some?
            && (Bad(read.value, files) + Missing(sites, dirs) == 0 <==>
                (forall f :: f in tree && f.digest.Some? ==> f.path in files && files[f.path] == f.digest.value)
                && forall i :: 0 <= i < |sites| ==> sites[i] in dirs)
  {
    ReadsBack(Sums(tree));
    NoneMissing(sites, dirs);
    FilesMatch(tree, files);
  }

  lemma FilesMatch(tree: seq<Found>, files: map<string, string>)
    ensures Bad(Sums(tree), files) == 0 <==>
            forall f :: f in tree && f.digest.Some? ==> f.path in files && files[f.path] == f.digest.value
  {
    NoneBad(Sums(tree), files);
    SumsMembers(tree);
    if forall f :: f in tree && f.digest.Some? ==> f.path in files && files[f.path] == f.digest.value {
      forall i | 0 <= i < |Sums(tree)| ensures !IsBad(Sums(tree)[i], files) {
        assert Sums(tree)[i] in Sums(tree);
        assert Found(Sums(tree)[i].path, Some(Sums(tree)[i].digest)) in tree;
      }
    }
    if forall i :: 0 <= i < |Sums(tree)| ==> !IsBad(Sums(tree)[i], files) {
      forall f | f in tree && f.digest.Some? ensures f.path in files && files[f.path] == f.digest.value {
        assert f == Found(f.path, Some(f.digest.value));
        assert Sum(f.digest.value, f.path) in Sums(tree);
      }
    }
  }

  lemma {:induction false} SumsMembers(tree: seq<Found>)
    ensures forall e :: e in Sums(tree) <==> Found(e.path, Some(e.digest)) in tree
  {
    if tree != [] {
      SumsMembers(tree[..|tree| - 1]);
      assert tree == tree[..|tree| - 1] + [tree[|tree| - 1]];
    }
  }
}
