/** The audit export chain check (scripts/staging_acceptance.py, export_chain): when it reports
    no problem, and which row it calls the newest. Hashes are plain strings. */
module ExportChain {
  import opened Basics

  /** One row of audit_exports: its manifest's hash and the hash it points back to. */
  datatype Row = Row(sha: string, prev: Option<string>)

  datatype Problem =
    | SharedHash(count: nat)
    | UnknownPrev(sha: string)
    | Heads(count: nat)
    | Unreached(reached: nat, total: nat)

  /** The value the walk treats as a link: null and the empty string are not. */
  function Link(row: Row): Option<string> {
    if row.prev.Some? && row.prev.value != "" then row.prev else None
  }

  /** Rows by manifest hash; of rows sharing one, the last counts. */
  function BySha(rows: seq<Row>): map<string, Row> {
    if rows == [] then map[] else BySha(rows[..|rows| - 1])[rows[|rows| - 1].sha := rows[|rows| - 1]]
  }

  lemma {:induction false} ByShaHolds(rows: seq<Row>)
    ensures forall s :: s in BySha(rows) ==> BySha(rows)[s].sha == s && BySha(rows)[s] in rows
    ensures forall r :: r in rows ==> r.sha in BySha(rows)
    ensures |BySha(rows)| <= |rows|
  {
    if rows != [] {
      var n := |rows| - 1;
      ByShaHolds(rows[..n]);
      assert rows == rows[..n] + [rows[n]];
      CardinalityOfUpdate(BySha(rows[..n]), rows[n].sha, rows[n]);
    }
  }

  lemma CardinalityOfUpdate<K, V>(m: map<K, V>, k: K, v: V)
    ensures |m[k := v]| == |m| + if k in m then 0 else 1
  {
    assert m[k := v].Keys == m.Keys + {k};
    if k in m {
      assert m[k := v].Keys == m.Keys;
    }
    assert |m[k := v]| == |m[k := v].Keys|;
    assert |m| == |m.Keys|;
  }

  ghost predicate DistinctHashes(rows: seq<Row>) {
    forall i, j :: 0 <= i < j < |rows| ==> rows[i].sha != rows[j].sha
  }

  ghost predicate HasSha(rows: seq<Row>, sha: string) {
    exists i :: 0 <= i < |rows| && rows[i].sha == sha
  }

  lemma InBySha(rows: seq<Row>, sha: string)
    ensures sha in BySha(rows) <==> HasSha(rows, sha)
  {
    ByShaHolds(rows);
    if sha in BySha(rows) {
      var r := BySha(rows)[sha];
      var i :| 0 <= i < |rows| && rows[i] == r;
    }
    if HasSha(rows, sha) {
      var i :| 0 <= i < |rows| && rows[i].sha == sha;
      assert rows[i] in rows;
    }
  }

  lemma DistinctAppend(front: seq<Row>, last: Row)
    ensures DistinctHashes(front + [last]) <==> DistinctHashes(front) && !HasSha(front, last.sha)
  {
    var rows := front + [last];
    if DistinctHashes(rows) {
      forall i, j | 0 <= i < j < |front| ensures front[i].sha != front[j].sha {
        assert rows[i].sha != rows[j].sha;
      }
      forall i | 0 <= i < |front| ensures front[i].sha != last.sha {
        assert rows[i].sha != rows[|front|].sha;
      }
    }
  }

  lemma {:induction false} SizeTellsDistinct(rows: seq<Row>)
    ensures |BySha(rows)| == |rows| <==> DistinctHashes(rows)
  {
    if rows != [] {
      var n := |rows| - 1;
      SizeTellsDistinct(rows[..n]);
      assert rows == rows[..n] + [rows[n]];
      DistinctAppend(rows[..n], rows[n]);
      InBySha(rows[..n], rows[n].sha);
      ByShaHolds(rows[..n]);
      CardinalityOfUpdate(BySha(rows[..n]), rows[n].sha, rows[n]);
    }
  }

  // ── what a good set of rows is ───────────────────────────────────────

  /** The same rows, each as often. */
  ghost predicate Reorders(s: seq<Row>, rows: seq<Row>) {
    multiset(s) == multiset(rows)
  }

  /** Hashes distinct and non-empty, and each row after the first points back to the one
      before it. */
  ghost predicate Linked(s: seq<Row>) {
    && s != [] && DistinctHashes(s)
    && (forall i :: 0 <= i < |s| ==> s[i].sha != "")
    && (forall i :: 0 < i < |s| ==> PointsBack(s, i))
  }

  ghost predicate PointsBack(s: seq<Row>, i: nat) {
    0 < i < |s| && s[i].prev == Some(s[i - 1].sha)
  }

  /** One linear chain: the first row points nowhere. */
  ghost predicate Chain(s: seq<Row>) {
    Linked(s) && (s[0].prev == None || s[0].prev == Some(""))
  }

  /** A chain whose first row points back to a row that is not the last. */
  ghost predicate Lasso(s: seq<Row>) {
    Linked(s) && exists j :: 0 <= j < |s| - 1 && s[0].prev == Some(s[j].sha)
  }

  /** Links only lead to lower rows, as hashes of what they cover must. */
  ghost predicate Acyclic(rows: seq<Row>, height: map<string, nat>) {
    forall r :: r in rows ==>
      r.sha in height && (r.prev.Some? && r.prev.value != "" ==> r.prev.value in height && height[r.prev.value] < height[r.sha])
  }

  lemma AcyclicHasNoLasso(rows: seq<Row>, s: seq<Row>, height: map<string, nat>)
    requires Acyclic(rows, height) && Reorders(s, rows)
    ensures !Lasso(s)
  {
    if Lasso(s) {
      forall i | 0 <= i < |s| ensures s[i] in rows {
        assert s[i] in multiset(rows);
      }
      var j :| 0 <= j < |s| - 1 && s[0].prev == Some(s[j].sha);
      HeightsRise(rows, s, height, j);
      assert false;
    }
  }

  lemma {:induction false} HeightsRise(rows: seq<Row>, s: seq<Row>, height: map<string, nat>, j: nat)
    requires Acyclic(rows, height) && Linked(s) && j < |s|
    requires forall i :: 0 <= i < |s| ==> s[i] in rows
    ensures height[s[0].sha] <= height[s[j].sha]
  {
    if j > 0 {
      HeightsRise(rows, s, height, j - 1);
      assert PointsBack(s, j);
      assert s[j] in rows && s[j - 1] in rows && Link(s[j]).Some?;
    }
  }

  // ── the check ────────────────────────────────────────────────────────

  function Referenced(m: map<string, Row>): set<string> {
    set s | s in m && Link(m[s]).Some? :: m[s].prev.value
  }

  /** The hashes from `sha` back, stopping at no link, an unknown hash, or one seen before. */
  ghost function Walk(m: map<string, Row>, sha: Option<string>, seen: set<string>): seq<string>
    decreases m.Keys - seen
  {
    if sha.None? || sha.value == "" || sha.value !in m || sha.value in seen then []
    else
      assert m.Keys - (seen + {sha.value}) < m.Keys - seen by {
        assert sha.value in m.Keys - seen;
      }
      [sha.value] + Walk(m, m[sha.value].prev, seen + {sha.value})
  }

  /** What makes the check report nothing: hashes distinct, every link known, one row nothing
      points at, and a walk back from it that meets every row. */
  ghost predicate Passes(rows: seq<Row>, top: string) {
    var m := BySha(rows);
    && DistinctHashes(rows) && Referenced(m) <= m.Keys && m.Keys - Referenced(m) == {top}
    && |Walk(m, Some(top), {})| == |m|
  }

  /** A hash some row of the map points back to. */
  ghost predicate PointedAt(m: map<string, Row>, sha: string) {
    exists k :: k in m && m[k].prev == Some(sha) && sha != ""
  }

  lemma ReferencedMeans(m: map<string, Row>, sha: string)
    ensures sha in Referenced(m) <==> PointedAt(m, sha)
  {
  }

  /** Of the rows that share a hash the last is kept. */
  lemma {:induction false} LastOfItsHash(rows: seq<Row>, i: nat)
    requires i < |rows| && forall j :: i < j < |rows| ==> rows[j].sha != rows[i].sha
    ensures rows[i].sha in BySha(rows) && BySha(rows)[rows[i].sha] == rows[i]
  {
    var n := |rows| - 1;
    if i < n { LastOfItsHash(rows[..n], i); }
  }

  /** What each problem says: how many hashes are shared, which links are unknown, how many heads
      there are, and how many of the rows the walk from the only head meets. */
  ghost predicate Says(p: Problem, rows: seq<Row>, head: Option<Row>) {
    var m := BySha(rows);
    match p
    case SharedHash(n) => n == |rows| - |m| && n != 0
    case UnknownPrev(sha) => PointedAt(m, sha) && sha !in m
    case Heads(n) => head.None? && n == |m.Keys - Referenced(m)|
    case Unreached(n, total) => head.Some? && n == |Walk(m, Some(head.value.sha), {})| && total == |m| && n != total
  }

  method ExportChain(rows: seq<Row>) returns (problems: seq<Problem>, head: Option<Row>)
    ensures problems == [] <==> head.Some? && Passes(rows, head.value.sha)
    ensures forall p :: p in problems <==> Says(p, rows, head)
    ensures head.Some? ==> head.value in rows && BySha(rows).Keys - Referenced(BySha(rows)) == {head.value.sha}
    ensures head.Some? ==> BySha(rows)[head.value.sha] == head.value
    ensures head.None? ==> |BySha(rows).Keys - Referenced(BySha(rows))| != 1
  {
    var bySha := BySha(rows);
    ByShaHolds(rows);
    SizeTellsDistinct(rows);
    var shared := if |bySha| != |rows| then [SharedHash(|rows| - |bySha|)] else [];
    var referenced := Referenced(bySha);
    var dangling := UnknownLinks(referenced - bySha.Keys);
    var heads := bySha.Keys - referenced;
    if |heads| != 1 {
      problems, head := shared + dangling + [Heads(|heads|)], None;
      AllSaid(rows, head, shared, dangling, [Heads(|heads|)]);
      return;
    }
    var top :| top in heads;
    SingletonSet(heads, top);
    head := Some(bySha[top]);
    var reached := WalkBack(bySha, top);
    var unreached := if reached != |bySha| then [Unreached(reached, |bySha|)] else [];
    problems := shared + dangling + unreached;
    AllSaid(rows, head, shared, dangling, unreached);
  }

  lemma AllSaid(rows: seq<Row>, head: Option<Row>, shared: seq<Problem>, dangling: seq<Problem>, last: seq<Problem>)
    requires |BySha(rows)| <= |rows|
    requires shared == if |BySha(rows)| != |rows| then [SharedHash(|rows| - |BySha(rows)|)] else []
    requires forall p :: p in dangling <==> p.UnknownPrev? && p.sha in Referenced(BySha(rows)) - BySha(rows).Keys
    requires var m := BySha(rows);
             if head.None? then last == [Heads(|m.Keys - Referenced(m)|)]
             else
               var reached := |Walk(m, Some(head.value.sha), {})|;
               last == if reached != |m| then [Unreached(reached, |m|)] else []
    ensures forall p :: p in shared + dangling + last <==> Says(p, rows, head)
  {
    forall p ensures p in shared + dangling + last <==> Says(p, rows, head) {
      if p.UnknownPrev? { ReferencedMeans(BySha(rows), p.sha); }
    }
  }

  method UnknownLinks(unknown: set<string>) returns (problems: seq<Problem>)
    ensures problems == [] <==> unknown == {}
    ensures forall p :: p in problems <==> p.UnknownPrev? && p.sha in unknown
  {
    problems := [];
    var left := unknown;
    while left != {}
      invariant left <= unknown && (problems == [] <==> left == unknown)
      invariant forall p :: p in problems <==> p.UnknownPrev? && p.sha in unknown && p.sha !in left
      decreases left
    {
      var s :| s in left;
      problems := problems + [UnknownPrev(s)];
      left := left - {s};
    }
  }

  /** The walk with its growing set of hashes seen. */
  method WalkBack(bySha: map<string, Row>, top: string) returns (reached: nat)
    ensures reached == |Walk(bySha, Some(top), {})|
  {
    var seen: set<string> := {};
    var sha := Some(top);
    while sha.Some? && sha.value != "" && sha.value in bySha && sha.value !in seen
      invariant seen <= bySha.Keys
      invariant |seen| + |Walk(bySha, sha, seen)| == |Walk(bySha, Some(top), {})|
      decreases bySha.Keys - seen
    {
      seen := seen + {sha.value};
      sha := bySha[sha.value].prev;
    }
    reached := |seen|;
  }

  // ── a silent check means one chain ───────────────────────────────────

  /** Known hashes, none twice and none in `seen`, each the link of the one before. */
  ghost predicate IsPath(m: map<string, Row>, p: seq<string>, seen: set<string>) {
    && (forall i :: 0 <= i < |p| ==> p[i] in m && p[i] !in seen && p[i] != "")
    && Different(p)
    && (forall i :: 0 < i < |p| ==> Follows(m, p, i))
  }

  ghost predicate Different(p: seq<string>) {
    forall i, j :: 0 <= i < j < |p| ==> p[i] != p[j]
  }

  ghost predicate Follows(m: map<string, Row>, p: seq<string>, i: nat) {
    0 < i < |p| && p[i - 1] in m && m[p[i - 1]].prev == Some(p[i])
  }

  /** No further hash can be met. */
  ghost predicate Ends(m: map<string, Row>, next: Option<string>, met: set<string>) {
    next.None? || next.value == "" || next.value !in m || next.value in met
  }

  ghost function Met(p: seq<string>): set<string> {
    set i | 0 <= i < |p| :: p[i]
  }

  lemma DifferentCons(h: string, rest: seq<string>)
    requires Different(rest) && h !in rest
    ensures Different([h] + rest)
  {
    var p := [h] + rest;
    forall i, j | 0 <= i < j < |p| ensures p[i] != p[j] {
      assert p[j] == rest[j - 1];
      if i > 0 { assert p[i] == rest[i - 1]; }
    }
  }

  lemma MetCons(h: string, rest: seq<string>)
    ensures Met([h] + rest) == {h} + Met(rest)
  {
    var p := [h] + rest;
    assert p[0] == h && forall i :: 0 <= i < |rest| ==> p[i + 1] == rest[i];
    forall x | x in Met(rest) ensures x in Met(p) {
      var i :| 0 <= i < |rest| && rest[i] == x;
      assert p[i + 1] == x;
    }
  }

  lemma PathCons(m: map<string, Row>, h: string, rest: seq<string>, seen: set<string>)
    requires h in m && h !in seen && h != "" && IsPath(m, rest, seen + {h})
    requires rest != [] ==> m[h].prev == Some(rest[0])
    ensures IsPath(m, [h] + rest, seen)
  {
    var p := [h] + rest;
    DifferentCons(h, rest);
    forall i | 0 < i < |p| ensures Follows(m, p, i) {
      if i > 1 { assert Follows(m, rest, i - 1); }
    }
  }

  /** The walk is a path that goes as far as it can. */
  lemma {:induction false} WalkIsAPath(m: map<string, Row>, sha: Option<string>, seen: set<string>)
    ensures var p := Walk(m, sha, seen);
            && IsPath(m, p, seen) && (p != [] ==> sha == Some(p[0]))
            && Ends(m, if p == [] then sha else m[p[|p| - 1]].prev, seen + Met(p))
    decreases m.Keys - seen
  {
    var p := Walk(m, sha, seen);
    if p != [] {
      var h := sha.value;
      assert h in m.Keys - seen;
      var rest := Walk(m, m[h].prev, seen + {h});
      WalkIsAPath(m, m[h].prev, seen + {h});
      PathCons(m, h, rest, seen);
      MetCons(h, rest);
      assert seen + Met(p) == seen + {h} + Met(rest);
      assert rest != [] ==> p[|p| - 1] == rest[|rest| - 1];
    }
  }

  /** The rows of a path, oldest first. */
  ghost function Oldest(m: map<string, Row>, p: seq<string>): seq<Row>
    requires forall s :: s in p ==> s in m
  {
    seq(|p|, i requires 0 <= i < |p| => m[p[|p| - 1 - i]])
  }

  lemma {:induction false} DistinctCoversAll(p: seq<string>, keys: set<string>)
    requires forall i, j :: 0 <= i < j < |p| ==> p[i] != p[j]
    requires forall s :: s in p ==> s in keys
    requires |p| == |keys|
    ensures forall s :: s in keys ==> s in p
    decreases |p|
  {
    if p == [] {
      assert keys == {};
    } else {
      var n := |p| - 1;
      assert p[n] in p;
      DistinctCoversAll(p[..n], keys - {p[n]});
      assert forall s :: s in p[..n] ==> s in p;
    }
  }

  /** Distinct hashes on both sides and the same members: the same rows, each once. */
  lemma {:induction false} SameRowsReorder(s: seq<Row>, rows: seq<Row>)
    requires DistinctHashes(s) && DistinctHashes(rows)
    requires forall r :: r in s <==> r in rows
    ensures Reorders(s, rows)
  {
    forall r ensures multiset(s)[r] == multiset(rows)[r] {
      DistinctMeansOnce(s, r);
      DistinctMeansOnce(rows, r);
    }
  }

  lemma {:induction false} DistinctMeansOnce(s: seq<Row>, r: Row)
    requires DistinctHashes(s)
    ensures multiset(s)[r] == if r in s then 1 else 0
  {
    if s != [] {
      var n := |s| - 1;
      DistinctMeansOnce(s[..n], r);
      assert s == s[..n] + [s[n]];
    }
  }

  lemma ReorderKeepsDistinct(s: seq<Row>, rows: seq<Row>)
    requires DistinctHashes(s) && Reorders(s, rows)
    ensures DistinctHashes(rows)
  {
    forall i, j | 0 <= i < j < |rows| ensures rows[i].sha != rows[j].sha {
      assert rows == rows[..j] + [rows[j]] + rows[j + 1..];
      assert rows[i] in rows[..j];
      DistinctMeansOnce(s, rows[j]);
      if rows[i] == rows[j] {
        assert false;
      }
      assert rows[i] in multiset(s) && rows[j] in multiset(s);
      var a :| 0 <= a < |s| && s[a] == rows[i];
      var b :| 0 <= b < |s| && s[b] == rows[j];
    }
  }

  lemma {:induction false} ByShaFinds(rows: seq<Row>)
    requires DistinctHashes(rows)
    ensures forall r :: r in rows ==> r.sha in BySha(rows) && BySha(rows)[r.sha] == r
  {
    if rows != [] {
      var n := |rows| - 1;
      ByShaFinds(rows[..n]);
      assert rows == rows[..n] + [rows[n]];
      DistinctAppend(rows[..n], rows[n]);
      InBySha(rows[..n], rows[n].sha);
      forall r | r in rows ensures r.sha in BySha(rows) && BySha(rows)[r.sha] == r {
        assert r in rows[..n] || r == rows[n];
      }
    }
  }

  lemma OldestIsLinked(m: map<string, Row>, p: seq<string>)
    requires IsPath(m, p, {}) && p != []
    requires forall sha :: sha in m ==> m[sha].sha == sha
    ensures Linked(Oldest(m, p)) && Oldest(m, p)[|p| - 1].sha == p[0]
    ensures forall i :: 0 <= i < |p| ==> Oldest(m, p)[|p| - 1 - i].sha == p[i]
  {
    var s := Oldest(m, p);
    forall i, j | 0 <= i < j < |s| ensures s[i].sha != s[j].sha {
      assert p[|p| - 1 - j] != p[|p| - 1 - i];
    }
    forall i | 0 < i < |s| ensures PointsBack(s, i) {
      assert Follows(m, p, |p| - i);
    }
  }

  lemma OldestReorders(rows: seq<Row>, m: map<string, Row>, p: seq<string>)
    requires DistinctHashes(rows) && IsPath(m, p, {}) && |p| == |m| && p != []
    requires forall r :: r in rows ==> r.sha in m && m[r.sha] == r
    requires forall sha :: sha in m ==> m[sha].sha == sha && m[sha] in rows
    ensures Reorders(Oldest(m, p), rows)
    ensures forall sha :: sha in m ==> sha in p
  {
    assert |m| == |m.Keys|;
    DistinctCoversAll(p, m.Keys);
    OldestIsLinked(m, p);
    OldestMembers(rows, m, p);
    SameRowsReorder(Oldest(m, p), rows);
  }

  lemma OldestMembers(rows: seq<Row>, m: map<string, Row>, p: seq<string>)
    requires (forall s :: s in p <==> s in m) && forall r :: r in rows ==> r.sha in m && m[r.sha] == r
    requires forall sha :: sha in m ==> m[sha] in rows
    ensures forall r :: r in Oldest(m, p) <==> r in rows
  {
    var s := Oldest(m, p);
    forall r | r in rows ensures r in s {
      assert r.sha in p;
      var i :| 0 <= i < |p| && p[i] == r.sha;
      assert s[|p| - 1 - i] == r;
    }
    forall r | r in s ensures r in rows {
      var i :| 0 <= i < |s| && s[i] == r;
      assert p[|p| - 1 - i] in p;
    }
  }

  /** The check is silent only on rows that form a chain, or a chain whose first row loops back. */
  lemma PassesOnlyWhenLinked(rows: seq<Row>, top: string) returns (s: seq<Row>)
    requires Passes(rows, top)
    ensures Reorders(s, rows) && (Chain(s) || Lasso(s)) && s[|s| - 1].sha == top
  {
    var m := BySha(rows);
    var p := Walk(m, Some(top), {});
    ByShaHolds(rows);
    WalkIsAPath(m, Some(top), {});
    s := Oldest(m, p);
    assert top in m;
    assert |m| == |m.Keys| && p != [];
    OldestIsLinked(m, p);
    ByShaFinds(rows);
    OldestReorders(rows, m, p);
    FirstRowLoopsOrNot(m, p);
  }

  lemma FirstRowLoopsOrNot(m: map<string, Row>, p: seq<string>)
    requires p != [] && (forall h :: h in p <==> h in m) && Linked(Oldest(m, p)) && Referenced(m) <= m.Keys - {p[0]}
    requires forall i :: 0 <= i < |p| ==> Oldest(m, p)[|p| - 1 - i].sha == p[i]
    ensures Chain(Oldest(m, p)) || Lasso(Oldest(m, p))
  {
    var s := Oldest(m, p);
    if Link(s[0]).Some? {
      var back := s[0].prev.value;
      assert s[0] == m[p[|p| - 1]] && p[|p| - 1] in p && back in Referenced(m);
      var i :| 0 <= i < |p| && p[i] == back;
      assert s[|p| - 1 - i].sha == back;
    }
  }

  /** Walking back from row i of a linked order, with every later row seen, meets i + 1 rows. */
  lemma {:induction false} WalkOfLinked(m: map<string, Row>, s: seq<Row>, i: nat, seen: set<string>)
    requires Linked(s) && i < |s| && (Link(s[0]).Some? ==> exists j :: 0 <= j < |s| && s[0].prev == Some(s[j].sha))
    requires forall k :: 0 <= k < |s| ==> s[k].sha in m && m[s[k].sha] == s[k]
    requires seen == set k | i < k < |s| :: s[k].sha
    ensures |Walk(m, Some(s[i].sha), seen)| == i + 1
  {
    assert s[i].sha in m.Keys - seen;
    var further := seen + {s[i].sha};
    assert further == set k | i - 1 < k < |s| :: s[k].sha;
    if i > 0 {
      assert PointsBack(s, i);
      WalkOfLinked(m, s, i - 1, further);
    } else {
      assert Walk(m, s[0].prev, further) == [];
    }
  }

  /** In a linked order, everything but the last row is pointed at. */
  lemma ReferencedOfLinked(m: map<string, Row>, s: seq<Row>)
    requires Chain(s) || Lasso(s)
    requires forall k :: 0 <= k < |s| ==> s[k].sha in m && m[s[k].sha] == s[k]
    requires forall sha :: sha in m ==> exists k :: 0 <= k < |s| && s[k].sha == sha
    ensures Referenced(m) <= m.Keys && m.Keys - Referenced(m) == {s[|s| - 1].sha}
  {
    var n := |s| - 1;
    forall k | 0 <= k < n ensures s[k].sha in Referenced(m) {
      assert PointsBack(s, k + 1) && Link(s[k + 1]).Some?;
      assert s[k + 1].sha in m;
    }
    forall sha | sha in Referenced(m) ensures sha in m.Keys && sha != s[n].sha {
      var t :| t in m && Link(m[t]).Some? && m[t].prev.value == sha;
      var k :| 0 <= k < |s| && s[k].sha == t;
      assert m[t] == s[k];
      if k > 0 {
        assert PointsBack(s, k);
      }
    }
  }

  /** And it is silent on all of those. */
  lemma LinkedPasses(rows: seq<Row>, s: seq<Row>)
    requires Reorders(s, rows) && (Chain(s) || Lasso(s))
    ensures Passes(rows, s[|s| - 1].sha)
  {
    var m := BySha(rows);
    ReorderKeepsDistinct(s, rows);
    ByShaHolds(rows);
    SizeTellsDistinct(rows);
    SameSize(s, rows);
    MapHoldsOrder(rows, s);
    ReferencedOfLinked(m, s);
    WalkOfLinked(m, s, |s| - 1, {});
  }

  lemma MapHoldsOrder(rows: seq<Row>, s: seq<Row>)
    requires DistinctHashes(rows) && Reorders(s, rows)
    ensures forall k :: 0 <= k < |s| ==> s[k].sha in BySha(rows) && BySha(rows)[s[k].sha] == s[k]
    ensures forall sha :: sha in BySha(rows) ==> exists k :: 0 <= k < |s| && s[k].sha == sha
  {
    var m := BySha(rows);
    ByShaHolds(rows);
    ByShaFinds(rows);
    forall k | 0 <= k < |s| ensures s[k].sha in m && m[s[k].sha] == s[k] {
      assert s[k] in multiset(rows);
    }
    forall sha | sha in m ensures exists k :: 0 <= k < |s| && s[k].sha == sha {
      assert m[sha] in multiset(s);
      var k :| 0 <= k < |s| && s[k] == m[sha];
    }
  }

  lemma SameSize(s: seq<Row>, rows: seq<Row>)
    requires Reorders(s, rows)
    ensures |s| == |rows|
  {
    assert |multiset(s)| == |s| && |multiset(rows)| == |rows|;
  }

  ghost predicate OneChain(rows: seq<Row>, s: seq<Row>) {
    Reorders(s, rows) && Chain(s)
  }

  /** With links that cannot loop, the check is silent if and only if the rows are one linear
      chain, whose last row is the head it answers. */
  lemma SilentMeansOneChain(rows: seq<Row>, height: map<string, nat>, top: string)
    requires Acyclic(rows, height)
    ensures Passes(rows, top) <==> exists s: seq<Row> :: OneChain(rows, s) && s[|s| - 1].sha == top
  {
    if Passes(rows, top) {
      var s := PassesOnlyWhenLinked(rows, top);
      AcyclicHasNoLasso(rows, s, height);
      assert OneChain(rows, s);
    }
    if s: seq<Row> :| OneChain(rows, s) && s[|s| - 1].sha == top {
      LinkedPasses(rows, s);
    }
  }

  /** Without that, a tail that loops passes too, though no row starts a chain. */
  lemma LoopingTailPasses()
    ensures var rows := [Row("a", Some("b")), Row("b", Some("a")), Row("c", Some("b"))];
            Passes(rows, "c") && forall s :: !OneChain(rows, s)
  {
    var rows := [Row("a", Some("b")), Row("b", Some("a")), Row("c", Some("b"))];
    assert rows[0].prev == Some(rows[1].sha);
    assert Lasso(rows);
    LinkedPasses(rows, rows);
    forall s ensures !OneChain(rows, s) {
      if s != [] && s[0] in multiset(rows) {
        assert s[0] in rows;
      }
    }
  }

  lemma SingletonSet(s: set<string>, x: string)
    requires |s| == 1 && x in s
    ensures s == {x}
  {
    assert |s - {x}| == 0;
  }
}
