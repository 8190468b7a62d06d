/** taz-guard's checks of a pull request (scripts/taz_guard.py, check) and what an empty list of
    failures means. */
module TazCheck {
  import opened Basics
  import opened Text
  import opened TazGlob

  /** A JSON number as Python reads it. */
  datatype Number = Finite(value: real) | Infinite(negative: bool) | NaN

  /** Python's a > b: false whenever NaN is involved. */
  predicate Greater(a: Number, b: Number) {
    match (a, b)
    case (Finite(x), Finite(y)) => x > y
    case (Infinite(n), Finite(_)) => !n
    case (Finite(_), Infinite(n)) => n
    case (Infinite(m), Infinite(n)) => !m && n
    case _ => false
  }

  type Baseline = map<string, Number>

  /** One changed path of the diff; `lines` is None for a binary file. */
  datatype Change = Change(path: string, status: string, oldMode: string, newMode: string, lines: Option<(nat, nat)>)

  datatype Card = Card(allowed: seq<string>, oracles: seq<string>, budget: int)

  datatype Policy = Policy(isProtected: seq<string>, lockfiles: seq<string>)

  /** The git objects the check reads: blob ids by path in the reference and head trees, the
      baselines at the merge base and the head (None when absent or unreadable), and the added
      and removed lines of each path. */
  datatype Pull = Pull(changed: seq<Change>, reference: map<string, string>, head: map<string, string>,
                       baseBaselines: map<string, Baseline>, headBaselines: map<string, Baseline>,
                       added: map<string, seq<string>>, removed: map<string, seq<string>>)

  datatype Failure =
    | NoOracle
    | OracleDiffers(path: string)
    | BadMode(path: string)
    | Lockfile(path: string)
    | BaselineUnreadable(path: string)
    | BaselineRaised(path: string)
    | Protected(path: string)
    | OutOfScope(path: string)
    | Binary(path: string)
    | OverBudget(total: nat)
    | Suppression(path: string, line: string)

  const BASELINE_GLOB := ".dod-*baseline"

  // ── the pieces of the verdict ────────────────────────────────────────

  function Basename(path: string): string {
    var i := Slash(path);
    if i == |path| then path else Basename(path[i + 1..])
  }

  predicate IsBaseline(path: string) {
    MatchesAny(Basename(path), [BASELINE_GLOB], false)
  }

  function Blob(tree: map<string, string>, path: string): Option<string> {
    if path in tree then Some(tree[path]) else None
  }

  function BaselineOf(all: map<string, Baseline>, path: string): Option<Baseline> {
    if path in all then Some(all[path]) else None
  }

  /** The globs of card and policy, and the search patterns, as tests of a path or a line. */
  datatype Rules = Rules(hasOracles: bool, oracle: string -> bool, lockfile: string -> bool, baseline: string -> bool,
                         isProtected: string -> bool, allowed: string -> bool, prose: string -> bool, flagged: string -> bool)

  function RulesOf(card: Card, policy: Policy, flagged: string -> bool): Rules {
    Rules(card.oracles != [],
          (p: string) => MatchesAny(p, card.oracles, false),
          (p: string) => MatchesAny(p, policy.lockfiles, true),
          (p: string) => IsBaseline(p),
          (p: string) => MatchesAny(p, policy.isProtected, true),
          (p: string) => MatchesAny(p, card.allowed, false),
          (p: string) => IsProse(p),
          flagged)
  }

  /** The paths judged by their hash. */
  function OraclePaths(pull: Pull, rules: Rules): set<string> {
    set p | p in pull.reference.Keys + pull.head.Keys && rules.oracle(p)
  }

  predicate ModeOk(c: Change) {
    && c.newMode != "120000" && c.newMode != "160000" && c.status != "T"
    && (c.oldMode == "000000" ==> c.newMode == "100644" || c.newMode == "000000")
    && (c.oldMode != "000000" && c.newMode != "000000" ==> c.oldMode == c.newMode)
  }

  /** No key is new and none is greater. */
  predicate NotRaised(old_: Baseline, new_: Baseline) {
    forall k :: k in new_ ==> k in old_ && !Greater(new_[k], old_[k])
  }

  predicate BaselineOk(pull: Pull, path: string) {
    path in pull.baseBaselines && path in pull.headBaselines
    && NotRaised(pull.baseBaselines[path], pull.headBaselines[path])
  }

  /** Judged by scope: neither a lockfile, nor an oracle file, nor a baseline. */
  predicate Ordinary(c: Change, pull: Pull, rules: Rules) {
    !rules.lockfile(c.path) && c.path !in OraclePaths(pull, rules) && !rules.baseline(c.path)
  }

  predicate InScope(path: string, rules: Rules) {
    !rules.isProtected(path) && rules.allowed(path)
  }

  predicate OracleOk(pull: Pull, rules: Rules) {
    rules.hasOracles ==>
      && (exists p :: p in pull.reference && rules.oracle(p))
      && forall p :: p in OraclePaths(pull, rules) ==> Blob(pull.head, p) == Blob(pull.reference, p)
  }

  predicate PathOk(c: Change, pull: Pull, rules: Rules) {
    && !rules.lockfile(c.path)
    && (|| c.path in OraclePaths(pull, rules)
        || if rules.baseline(c.path) then BaselineOk(pull, c.path) else InScope(c.path, rules))
  }

  /** Added and deleted lines of the ordinary files among the first n. */
  function CountedLines(pull: Pull, rules: Rules, n: nat): nat
    requires n <= |pull.changed|
  {
    if n == 0 then 0
    else
      CountedLines(pull, rules, n - 1)
        + if Ordinary(pull.changed[n - 1], pull, rules) then ChangedLines(pull.changed[n - 1]) else 0
  }

  predicate IsProse(path: string) {
    var s := Lower(Suffix(Basename(path)));
    s == ".md" || s == ".markdown" || s == ".rst" || s == ".txt" || s == ".adoc"
  }

  /** The last dot of the name and what follows, unless the name starts or ends there. */
  function Suffix(name: string): string {
    if |name| <= 1 || name[|name| - 1] == '.' then ""
    else SuffixFrom(name, |name| - 1)
  }

  function SuffixFrom(name: string, i: nat): string
    requires i < |name|
  {
    if i == 0 then "" else if name[i] == '.' then name[i..] else SuffixFrom(name, i - 1)
  }

  function LinesOf(all: map<string, seq<string>>, path: string): seq<string> {
    if path in all then all[path] else []
  }

  /** A line that was only moved does not count as added. */
  predicate Moved(line: string, removed: seq<string>) {
    exists i :: 0 <= i < |removed| && Strip(removed[i]) == Strip(line)
  }

  predicate Searched(c: Change, pull: Pull, rules: Rules) {
    c.lines.Some? && c.path !in OraclePaths(pull, rules) && !rules.prose(c.path)
  }

  predicate Suppresses(c: Change, line: string, pull: Pull, rules: Rules) {
    !Moved(line, LinesOf(pull.removed, c.path)) && rules.flagged(line)
  }

  predicate LinesOk(c: Change, pull: Pull, rules: Rules) {
    Searched(c, pull, rules) ==>
      forall line :: line in LinesOf(pull.added, c.path) ==> !Suppresses(c, line, pull, rules)
  }

  /** What a pull request that passes is. */
  ghost predicate Passes(pull: Pull, rules: Rules, budget: int) {
    && OracleOk(pull, rules)
    && (forall c :: c in pull.changed ==> ModeOk(c) && PathOk(c, pull, rules) && LinesOk(c, pull, rules))
    && (forall c :: c in pull.changed && Ordinary(c, pull, rules) ==> c.lines.Some?)
    && CountedLines(pull, rules, |pull.changed|) <= budget
  }

  // ── the check ────────────────────────────────────────────────────────

  method Check(pull: Pull, card: Card, policy: Policy, flagged: string -> bool) returns (failures: seq<Failure>)
    ensures failures == [] <==> Passes(pull, RulesOf(card, policy, flagged), card.budget)
  {
    var rules := RulesOf(card, policy, flagged);
    failures := CheckWith(pull, rules, card.budget);
  }

  method CheckWith(pull: Pull, rules: Rules, budget: int) returns (failures: seq<Failure>)
    ensures failures == [] <==> Passes(pull, rules, budget)
  {
    var oracle := CheckOracles(pull, rules);
    var paths, counted := CheckPaths(pull, rules);
    var over := CheckBudget(pull, rules, counted, budget);
    var lines := CheckLines(pull, rules);
    failures := oracle + paths + over + lines;
    assert failures == [] <==> oracle == [] && paths == [] && over == [] && lines == [];
  }

  method CheckOracles(pull: Pull, rules: Rules) returns (failures: seq<Failure>)
    ensures failures == [] <==> OracleOk(pull, rules)
  {
    failures := [];
    if !rules.hasOracles { return; }
    if !exists p :: p in pull.reference && rules.oracle(p) {
      failures := [NoOracle];
    }
    ghost var before := failures;
    var left := OraclePaths(pull, rules);
    while left != {}
      invariant left <= OraclePaths(pull, rules)
      invariant failures == [] <==>
                (before == [] && forall p :: p in OraclePaths(pull, rules) - left ==> Blob(pull.head, p) == Blob(pull.reference, p))
      decreases left
    {
      var p :| p in left;
      left := left - {p};
      if Blob(pull.head, p) != Blob(pull.reference, p) {
        failures := failures + [OracleDiffers(p)];
      }
    }
  }

  /** Modes, lockfiles, baselines and scope; answers the changes whose lines count. */
  method CheckPaths(pull: Pull, rules: Rules) returns (failures: seq<Failure>, counted: seq<Change>)
    ensures failures == [] <==> forall c :: c in pull.changed ==> ModeOk(c) && PathOk(c, pull, rules)
    ensures counted == CountedUpTo(pull, rules, |pull.changed|)
  {
    failures, counted := [], [];
    for i := 0 to |pull.changed|
      invariant failures == [] <==> forall k :: 0 <= k < i ==> ModeOk(pull.changed[k]) && PathOk(pull.changed[k], pull, rules)
      invariant counted == CountedUpTo(pull, rules, i)
    {
      var found, counts := CheckPath(pull.changed[i], pull, rules);
      failures := failures + found;
      if counts {
        counted := counted + [pull.changed[i]];
      }
    }
  }

  method CheckPath(c: Change, pull: Pull, rules: Rules) returns (failures: seq<Failure>, counts: bool)
    ensures failures == [] <==> ModeOk(c) && PathOk(c, pull, rules)
    ensures counts <==> Ordinary(c, pull, rules)
    ensures BadMode(c.path) in failures <==> !ModeOk(c)
    ensures Lockfile(c.path) in failures <==> rules.lockfile(c.path)
    ensures Protected(c.path) in failures <==> Ordinary(c, pull, rules) && rules.isProtected(c.path)
    ensures OutOfScope(c.path) in failures <==> Ordinary(c, pull, rules) && !rules.isProtected(c.path) && !rules.allowed(c.path)
  {
    failures, counts := [], false;
    if !ModeOk(c) {
      failures := failures + [BadMode(c.path)];
    }
    if rules.lockfile(c.path) {
      return failures + [Lockfile(c.path)], false;
    }
    if c.path in OraclePaths(pull, rules) {
      return;
    }
    if rules.baseline(c.path) {
      var old_, new_ := BaselineOf(pull.baseBaselines, c.path), BaselineOf(pull.headBaselines, c.path);
      if old_.None? || new_.None? {
        failures := failures + [BaselineUnreadable(c.path)];
      } else if !NotRaised(old_.value, new_.value) {
        failures := failures + [BaselineRaised(c.path)];
      }
      return;
    }
    if rules.isProtected(c.path) {
      failures := failures + [Protected(c.path)];
    } else if !rules.allowed(c.path) {
      failures := failures + [OutOfScope(c.path)];
    }
    counts := true;
  }

  /** The changes among the first n whose lines count. */
  function CountedUpTo(pull: Pull, rules: Rules, n: nat): seq<Change>
    requires n <= |pull.changed|
  {
    if n == 0 then []
    else
      var before := CountedUpTo(pull, rules, n - 1);
      if Ordinary(pull.changed[n - 1], pull, rules) then before + [pull.changed[n - 1]] else before
  }

  function LineSum(counted: seq<Change>): nat {
    if counted == [] then 0 else LineSum(counted[..|counted| - 1]) + ChangedLines(counted[|counted| - 1])
  }

  function ChangedLines(c: Change): nat {
    if c.lines.Some? then c.lines.value.0 + c.lines.value.1 else 0
  }

  lemma {:induction false} CountedSum(pull: Pull, rules: Rules, n: nat)
    requires n <= |pull.changed|
    ensures LineSum(CountedUpTo(pull, rules, n)) == CountedLines(pull, rules, n)
    ensures forall c :: c in CountedUpTo(pull, rules, n) <==>
              (Ordinary(c, pull, rules) && c in pull.changed[..n])
  {
    if n > 0 {
      CountedSum(pull, rules, n - 1);
      var before := CountedUpTo(pull, rules, n - 1);
      assert (before + [pull.changed[n - 1]])[..|before|] == before;
      assert pull.changed[..n] == pull.changed[..n - 1] + [pull.changed[n - 1]];
    }
  }

  method CheckBudget(pull: Pull, rules: Rules, counted: seq<Change>, budget: int) returns (failures: seq<Failure>)
    requires counted == CountedUpTo(pull, rules, |pull.changed|)
    ensures failures == [] <==> (forall c :: c in pull.changed && Ordinary(c, pull, rules) ==> c.lines.Some?)
                                && CountedLines(pull, rules, |pull.changed|) <= budget
  {
    CountedSum(pull, rules, |pull.changed|);
    assert pull.changed[..|pull.changed|] == pull.changed;
    failures := AddUp(counted, budget);
  }

  method AddUp(counted: seq<Change>, budget: int) returns (failures: seq<Failure>)
    ensures failures == [] <==> (forall c :: c in counted ==> c.lines.Some?) && LineSum(counted) <= budget
  {
    failures := [];
    var total := 0;
    for i := 0 to |counted|
      invariant failures == [] <==> forall j :: 0 <= j < i ==> counted[j].lines.Some?
      invariant total == LineSum(counted[..i])
    {
      assert counted[..i + 1][..i] == counted[..i];
      var c := counted[i];
      if c.lines.None? {
        failures := failures + [Binary(c.path)];
      } else {
        total := total + c.lines.value.0 + c.lines.value.1;
      }
    }
    assert counted[..|counted|] == counted;
    if total > budget {
      failures := failures + [OverBudget(total)];
    }
  }

  method CheckLines(pull: Pull, rules: Rules) returns (failures: seq<Failure>)
    ensures failures == [] <==> forall c :: c in pull.changed ==> LinesOk(c, pull, rules)
  {
    failures := [];
    for i := 0 to |pull.changed|
      invariant failures == [] <==> forall k :: 0 <= k < i ==> LinesOk(pull.changed[k], pull, rules)
    {
      var c := pull.changed[i];
      if !Searched(c, pull, rules) { continue; }
      var lines := LinesOf(pull.added, c.path);
      ghost var before := failures;
      for j := 0 to |lines|
        invariant failures == [] <==> before == [] && forall k :: 0 <= k < j ==> !Suppresses(c, lines[k], pull, rules)
      {
        if Suppresses(c, lines[j], pull, rules) {
          failures := failures + [Suppression(c.path, lines[j])];
        }
      }
    }
  }

  // ── what passing means ───────────────────────────────────────────────

  /** The diff of a pull request: every path whose blob differs is listed as changed. */
  ghost predicate IsDiff(pull: Pull, base: map<string, string>) {
    forall p :: p in base.Keys + pull.head.Keys && Blob(base, p) != Blob(pull.head, p)
                ==> exists c :: c in pull.changed && c.path == p
  }

  /** A passing change touches a path only in one of three ways. */
  lemma PassMeans(pull: Pull, card: Card, policy: Policy, flagged: string -> bool, base: map<string, string>, p: string)
    requires Passes(pull, RulesOf(card, policy, flagged), card.budget) && IsDiff(pull, base)
    requires Blob(base, p) != Blob(pull.head, p)
    ensures !MatchesAny(p, policy.lockfiles, true)
    ensures || (MatchesAny(p, card.oracles, false) && Blob(pull.head, p) == Blob(pull.reference, p))
            || (IsBaseline(p) && BaselineOk(pull, p))
            || (!MatchesAny(p, policy.isProtected, true) && MatchesAny(p, card.allowed, false) && exists c :: c in pull.changed && c.path == p && c.lines.Some? && ModeOk(c))
  {
    var rules := RulesOf(card, policy, flagged);
    assert p in base.Keys + pull.head.Keys;
    var c :| c in pull.changed && c.path == p;
    assert PathOk(c, pull, rules) && ModeOk(c);
  }

  // ── the pieces in other words ────────────────────────────────────────

  /** Numbers are compared by value, infinities beyond all of them, NaN with nothing. */
  lemma GreaterMeans(x: real, y: real, n: Number)
    ensures Greater(Finite(x), Finite(y)) <==> x > y
    ensures Greater(Infinite(false), Finite(x)) && !Greater(Finite(x), Infinite(false))
    ensures Greater(Finite(x), Infinite(true)) && !Greater(Infinite(true), Finite(x))
    ensures Greater(Infinite(false), Infinite(true)) && !Greater(Infinite(true), Infinite(false))
    ensures !Greater(n, n) && !Greater(NaN, n) && !Greater(n, NaN)
  {
  }

  /** Regular files only, added as 100644, and no mode changed. */
  lemma ModesMean(c: Change)
    ensures ModeOk(c) <==>
            && c.status != "T" && c.newMode !in {"120000", "160000"}
            && (if c.oldMode == "000000" then c.newMode in {"000000", "100644"} else c.newMode in {"000000", c.oldMode})
  {
  }

  ghost predicate IsLastPart(path: string, name: string) {
    |name| < |path| && path[|path| - |name| - 1] == '/' && path[|path| - |name|..] == name
  }

  /** The name is what follows the last slash. */
  lemma {:induction false} BasenameMeans(path: string)
    ensures '/' !in Basename(path)
    ensures Basename(path) == path || IsLastPart(path, Basename(path))
  {
    var i := Slash(path);
    if i < |path| {
      BasenameMeans(path[i + 1..]);
      assert path[i + 1..] == path[|path| - |path[i + 1..]|..];
    }
  }

  /** A baseline file is called .dod-<anything>baseline, wherever it is. */
  lemma BaselineNames(path: string)
    ensures IsBaseline(path) <==> exists x :: Between(".dod-", x, "baseline", Basename(path))
  {
    BasenameMeans(path);
    var front, back := ".dod-", "baseline";
    NamesBetween(front, back, Basename(path));
  }

  lemma NamesBetween(front: string, back: string, name: string)
    requires front == ".dod-" && back == "baseline" && '/' !in name
    ensures MatchesAny(name, [BASELINE_GLOB], false) <==> exists x :: Between(front, x, back, name)
  {
    StarBetween(front, back, name);
    var globs := [BASELINE_GLOB];
    assert globs[0] == front + ("*" + back);
  }

  lemma {:induction false} SuffixFromMeans(name: string, i: nat)
    requires i < |name| && '.' !in name[i + 1..]
    ensures var s := SuffixFrom(name, i);
            (s == "" || (s[0] == '.' && '.' !in s[1..] && |s| < |name| && name[|name| - |s|..] == s))
    ensures SuffixFrom(name, i) == "" ==> forall k :: 0 < k <= i ==> name[k] != '.'
  {
    if i > 0 && name[i] != '.' {
      assert name[i..] == [name[i]] + name[i + 1..];
      SuffixFromMeans(name, i - 1);
    }
  }

  const PROSE := [".md", ".markdown", ".rst", ".txt", ".adoc"]

  /** Prose is a file whose name ends, after something else, with one of these in any case. */
  lemma ProseMeans(path: string)
    ensures IsProse(path) <==> exists stem, ext :: stem != "" && Basename(path) == stem + ext && Lower(ext) in PROSE
  {
    var name := Basename(path);
    if IsProse(path) {
      SuffixMeans(name);
      var ext := Suffix(name);
      var stem := name[..|name| - |ext|];
      assert name == stem + ext && Lower(ext) in PROSE;
    }
    if stem, ext :| stem != "" && name == stem + ext && Lower(ext) in PROSE {
      ProseHasOneDot(ext);
      SuffixIs(stem, ext);
    }
  }

  lemma SuffixMeans(name: string)
    requires Suffix(name) != ""
    ensures |Suffix(name)| < |name| && name[|name| - |Suffix(name)|..] == Suffix(name)
  {
    assert name[|name| - 1 + 1..] == "";
    SuffixFromMeans(name, |name| - 1);
  }

  lemma ProseHasOneDot(ext: string)
    requires Lower(ext) in PROSE
    ensures |ext| > 1 && ext[0] == '.' && '.' !in ext[1..]
  {
    var l := Lower(ext);
    assert l[0] == '.' && forall i :: 1 <= i < |l| ==> l[i] != '.';
    forall i | 0 <= i < |ext| ensures ext[i] == '.' <==> l[i] == '.' {
    }
  }

  lemma SuffixIs(stem: string, ext: string)
    requires stem != "" && |ext| > 1 && ext[0] == '.' && '.' !in ext[1..]
    ensures Suffix(stem + ext) == ext
  {
    var name := stem + ext;
    assert name[|name| - 1] == ext[|ext| - 1] && ext[|ext| - 1] == ext[1..][|ext| - 2];
    assert forall k :: |stem| < k < |name| ==> name[k] == ext[1..][k - |stem| - 1];
    FoundAt(name, |stem|, |name| - 1);
    assert name[|stem|..] == ext;
  }

  lemma {:induction false} FoundAt(name: string, at: nat, i: nat)
    requires 0 < at <= i < |name| && name[at] == '.' && forall k :: at < k <= i ==> name[k] != '.'
    ensures SuffixFrom(name, i) == name[at..]
  {
    if i > at { FoundAt(name, at, i - 1); }
  }

  /** Judged by its hash: matched by an oracle glob, and in one of the two trees. */
  ghost predicate IsOracleFile(pull: Pull, card: Card, path: string) {
    MatchesAny(path, card.oracles, false) && (path in pull.reference || path in pull.head)
  }

  /** With oracle globs, some file of the reference matches, and each that matches is in both trees
      and the same. */
  lemma OraclesMean(pull: Pull, card: Card, policy: Policy, flagged: string -> bool)
    ensures OracleOk(pull, RulesOf(card, policy, flagged)) <==>
            card.oracles == [] ||
            (&& (exists p :: p in pull.reference && MatchesAny(p, card.oracles, false))
             && forall p :: IsOracleFile(pull, card, p) ==>
                  p in pull.reference && p in pull.head && pull.reference[p] == pull.head[p])
  {
    var rules := RulesOf(card, policy, flagged);
    assert forall p :: p in OraclePaths(pull, rules) <==> IsOracleFile(pull, card, p);
    if p :| p in pull.reference && MatchesAny(p, card.oracles, false) {
      assert rules.oracle(p);
    }
    if p :| p in pull.reference && rules.oracle(p) {
      assert MatchesAny(p, card.oracles, false);
    }
  }

  /** A path is no lockfile, and is an oracle file, a baseline that is there before and after with no
      key new and no value greater, or within the allowed paths and not protected. */
  lemma PathsMean(c: Change, pull: Pull, card: Card, policy: Policy, flagged: string -> bool)
    ensures PathOk(c, pull, RulesOf(card, policy, flagged)) <==>
            && !MatchesAny(c.path, policy.lockfiles, true)
            && (|| IsOracleFile(pull, card, c.path)
                || if IsBaseline(c.path) then
                     c.path in pull.baseBaselines && c.path in pull.headBaselines
                     && forall k :: k in pull.headBaselines[c.path] ==>
                          k in pull.baseBaselines[c.path] && !Greater(pull.headBaselines[c.path][k], pull.baseBaselines[c.path][k])
                   else !MatchesAny(c.path, policy.isProtected, true) && MatchesAny(c.path, card.allowed, false))
  {
  }

  /** Lines count against the budget exactly for the files judged by scope. */
  lemma OrdinaryMeans(c: Change, pull: Pull, card: Card, policy: Policy, flagged: string -> bool)
    ensures Ordinary(c, pull, RulesOf(card, policy, flagged)) <==>
            !MatchesAny(c.path, policy.lockfiles, true) && !IsOracleFile(pull, card, c.path) && !IsBaseline(c.path)
  {
  }

  ghost predicate OnlyMoved(line: string, removed: seq<string>) {
    exists r :: r in removed && Strip(r) == Strip(line)
  }

  lemma MovedMeans(line: string, removed: seq<string>)
    ensures Moved(line, removed) <==> OnlyMoved(line, removed)
  {
    if r :| r in removed && Strip(r) == Strip(line) {
      var i :| 0 <= i < |removed| && removed[i] == r;
    }
    if i :| 0 <= i < |removed| && Strip(removed[i]) == Strip(line) {
      assert removed[i] in removed;
    }
  }

  /** Outside binary files, oracle files and prose, an added line that is flagged was only moved: a
      removed line reads the same but for white space around it. */
  lemma LinesMean(c: Change, pull: Pull, card: Card, policy: Policy, flagged: string -> bool)
    requires c.path in pull.added && c.path in pull.removed
    ensures LinesOk(c, pull, RulesOf(card, policy, flagged)) <==>
            (c.lines.None? || IsOracleFile(pull, card, c.path) || IsProse(c.path)
             || forall line :: line in pull.added[c.path] && flagged(line) ==> OnlyMoved(line, pull.removed[c.path]))
  {
    var rules := RulesOf(card, policy, flagged);
    assert Searched(c, pull, rules) <==> c.lines.Some? && !IsOracleFile(pull, card, c.path) && !IsProse(c.path);
    forall line ensures Suppresses(c, line, pull, rules) <==> flagged(line) && !OnlyMoved(line, pull.removed[c.path]) {
      MovedMeans(line, pull.removed[c.path]);
    }
  }
}
