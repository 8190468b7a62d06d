/** What taz-guard's checks (scripts/taz_guard.py) make of the baselines over a chain of merges: the
    ratchet holds, except through NaN and through the oracle check, and exactly then. */
module TazRatchet {
  import opened Basics
  import opened TazGlob
  import opened TazCheck

  /** The baseline files at one commit, and the blobs they come from. */
  datatype State = State(blobs: map<string, string>, baselines: map<string, Baseline>)

  /** A pull request with its card, the policy and the search, and the baselines at the commit the
      card names. */
  datatype Merge = Merge(pull: Pull, card: Card, policy: Policy, flagged: string -> bool,
                         referenceBaselines: map<string, Baseline>)

  function RulesFor(m: Merge): Rules {
    RulesOf(m.card, m.policy, m.flagged)
  }

  /** One blob reads as one baseline. */
  ghost predicate ReadAlike(a: map<string, string>, readA: map<string, Baseline>, b: map<string, string>, readB: map<string, Baseline>) {
    forall p :: Blob(a, p) == Blob(b, p) ==> BaselineOf(readA, p) == BaselineOf(readB, p)
  }

  /** A pull request that passed and was merged onto the commit it was checked against: it starts
      from `s` and its head becomes `t`. */
  ghost predicate MergedPass(s: State, t: State, m: Merge) {
    && Passes(m.pull, RulesFor(m), m.card.budget) && IsDiff(m.pull, s.blobs)
    && m.pull.head == t.blobs && m.pull.baseBaselines == s.baselines && m.pull.headBaselines == t.baselines
    && ReadAlike(s.blobs, s.baselines, t.blobs, t.baselines)
    && ReadAlike(m.pull.reference, m.referenceBaselines, t.blobs, t.baselines)
  }

  /** Whatever a passing merge should leave of a baseline: no key added, no value raised. */
  ghost predicate Lowered(old_: Baseline, new_: Baseline) {
    forall k :: k in new_ ==> k in old_ && (new_[k] == old_[k] || !Greater(new_[k], old_[k]))
  }

  ghost predicate StaysLow(before: Option<Baseline>, after: Option<Baseline>) {
    before.Some? ==> after.Some? && Lowered(before.value, after.value)
  }

  /** The card hands the file to the oracle check, which compares with the commit it names. */
  predicate TakenOver(m: Merge, path: string) {
    path in OraclePaths(m.pull, RulesFor(m))
  }

  /** Outside the oracle check, a passing merge raises nothing. */
  lemma MergeNeverRaises(s: State, t: State, m: Merge, path: string)
    requires MergedPass(s, t, m) && IsBaseline(path) && !TakenOver(m, path)
    ensures StaysLow(BaselineOf(s.baselines, path), BaselineOf(t.baselines, path))
  {
    if Blob(s.blobs, path) == Blob(t.blobs, path) {
      assert BaselineOf(s.baselines, path) == BaselineOf(t.baselines, path);
    } else {
      assert path in s.blobs.Keys + m.pull.head.Keys;
      var c :| c in m.pull.changed && c.path == path;
      assert PathOk(c, m.pull, RulesFor(m));
    }
  }

  /** A passing merge leaves a baseline file low if and only if the oracle check did not take it
      over, or the commit the card names holds it no higher. */
  lemma MergeKeepsLowIff(s: State, t: State, m: Merge, path: string)
    requires MergedPass(s, t, m) && IsBaseline(path)
    ensures StaysLow(BaselineOf(s.baselines, path), BaselineOf(t.baselines, path))
            <==> (TakenOver(m, path) ==>
                    StaysLow(BaselineOf(s.baselines, path), BaselineOf(m.referenceBaselines, path)))
  {
    if TakenOver(m, path) {
      assert RulesFor(m).hasOracles;
      assert Blob(m.pull.head, path) == Blob(m.pull.reference, path);
    } else {
      MergeNeverRaises(s, t, m, path);
    }
  }

  // ── chains of merges ─────────────────────────────────────────────────

  ghost predicate AllPassed(states: seq<State>, merges: seq<Merge>) {
    |states| == |merges| + 1 && forall i :: 0 <= i < |merges| ==> MergedPass(states[i], states[i + 1], merges[i])
  }

  /** What the card asks for would not raise the baseline it finds. */
  ghost predicate Careful(s: State, m: Merge, path: string) {
    TakenOver(m, path) ==> StaysLow(BaselineOf(s.baselines, path), BaselineOf(m.referenceBaselines, path))
  }

  ghost predicate LowThroughout(states: seq<State>, path: string) {
    forall i :: 0 <= i < |states| - 1 ==> StepIsLow(states, i, path)
  }

  ghost predicate StepIsLow(states: seq<State>, i: nat, path: string)
    requires i + 1 < |states|
  {
    StaysLow(BaselineOf(states[i].baselines, path), BaselineOf(states[i + 1].baselines, path))
  }

  /** Step by step, a chain of passing merges keeps a baseline low if and only if no card along
      the way takes it over for a commit that holds it higher. */
  lemma ChainIsLowIff(states: seq<State>, merges: seq<Merge>, path: string)
    requires AllPassed(states, merges) && IsBaseline(path)
    ensures LowThroughout(states, path) <==> forall i :: 0 <= i < |merges| ==> Careful(states[i], merges[i], path)
  {
    forall i | 0 <= i < |merges|
      ensures StepIsLow(states, i, path) <==> Careful(states[i], merges[i], path)
    {
      MergeKeepsLowIff(states[i], states[i + 1], merges[i], path);
    }
  }

  /** Not being greater carries over from step to step exactly through numbers. */
  lemma CarriesOverIff(b: Number)
    ensures (forall a: Number, c: Number :: !Greater(b, a) && !Greater(c, b) ==> !Greater(c, a)) <==> !b.NaN?
  {
    if b.NaN? {
      assert !Greater(b, Finite(10.0)) && !Greater(Finite(100.0), b) && Greater(Finite(100.0), Finite(10.0));
    } else {
      forall a: Number, c: Number | !Greater(b, a) && !Greater(c, b) ensures !Greater(c, a) {
        CarriesOver(a, b, c);
      }
    }
  }

  lemma CarriesOver(a: Number, b: Number, c: Number)
    requires !b.NaN? && !Greater(b, a) && !Greater(c, b)
    ensures !Greater(c, a)
  {
  }

  ghost predicate NumbersOnly(states: seq<State>, path: string, k: string) {
    forall i :: 0 <= i < |states| && path in states[i].baselines && k in states[i].baselines[path]
      ==> !states[i].baselines[path][k].NaN?
  }

  /** A value that is higher than it was, or new. */
  ghost predicate Raised(s: State, t: State, path: string, k: string) {
    && path in s.baselines && path in t.baselines && k in t.baselines[path]
    && (k in s.baselines[path] ==> Greater(t.baselines[path][k], s.baselines[path][k]))
  }

  /** However many pull requests pass and merge, a baseline file stays and no value of it rises, as
      long as no value is NaN on the way and no card takes the file over for a higher one. */
  lemma {:induction false} BaselinesNeverRise(states: seq<State>, merges: seq<Merge>, path: string, k: string)
    requires AllPassed(states, merges) && IsBaseline(path) && path in states[0].baselines
    requires (forall i :: 0 <= i < |merges| ==> Careful(states[i], merges[i], path)) && NumbersOnly(states, path, k)
    ensures var last := states[|merges|];
            path in last.baselines && !Raised(states[0], last, path, k)
            && (k in last.baselines[path] ==> k in states[0].baselines[path])
    decreases |merges|
  {
    if |merges| == 0 {
      NotAboveItself(states[0], path, k);
    } else {
      var n := |merges| - 1;
      assert AllPassed(states[..n + 1], merges[..n]);
      BaselinesNeverRise(states[..n + 1], merges[..n], path, k);
      MergeKeepsLowIff(states[n], states[n + 1], merges[n], path);
      assert Careful(states[n], merges[n], path);
      NextStaysBelow(states[0], states[n], states[n + 1], path, k);
    }
  }

  lemma NotAboveItself(s: State, path: string, k: string)
    ensures !Raised(s, s, path, k)
  {
  }

  lemma NextStaysBelow(first: State, mid: State, last: State, path: string, k: string)
    requires path in first.baselines && path in mid.baselines && !Raised(first, mid, path, k)
    requires StaysLow(BaselineOf(mid.baselines, path), BaselineOf(last.baselines, path))
    requires k in mid.baselines[path] ==> k in first.baselines[path] && !mid.baselines[path][k].NaN?
    ensures path in last.baselines && !Raised(first, last, path, k)
    ensures k in last.baselines[path] ==> k in first.baselines[path]
  {
    if k in last.baselines[path] {
      CarriesOverIff(mid.baselines[path][k]);
    }
  }

  /** In values: what a baseline holds for a key at the end is no more than at the start. */
  lemma ValuesNeverRise(states: seq<State>, merges: seq<Merge>, path: string, k: string, first: real, last: real)
    requires AllPassed(states, merges) && IsBaseline(path) && path in states[0].baselines
    requires (forall i :: 0 <= i < |merges| ==> Careful(states[i], merges[i], path)) && NumbersOnly(states, path, k)
    requires k in states[0].baselines[path] && states[0].baselines[path][k] == Finite(first)
    requires path in states[|merges|].baselines && k in states[|merges|].baselines[path]
    requires states[|merges|].baselines[path][k] == Finite(last)
    ensures last <= first
  {
    BaselinesNeverRise(states, merges, path, k);
    GreaterMeans(last, first, NaN);
  }

  // ── both conditions are needed ───────────────────────────────────────

  /** Two passing merges through `mid`, the oracle check leaving the file alone. */
  ghost predicate TwoPasses(s: State, mid: State, t: State, m: Merge, n: Merge, path: string) {
    && MergedPass(s, mid, m) && MergedPass(mid, t, n) && !TakenOver(m, path) && !TakenOver(n, path)
  }

  ghost predicate CanRiseThrough(mid: State, path: string, k: string) {
    exists s, t, m, n :: TwoPasses(s, mid, t, m, n, path) && Raised(s, t, path, k)
  }

  /** Two passing merges can raise a value through a commit if and only if it is NaN there. */
  lemma RisesThroughNaNOnly(mid: State, path: string, k: string)
    requires IsBaseline(path) && path in mid.blobs && path in mid.baselines && k in mid.baselines[path]
    ensures CanRiseThrough(mid, path, k) <==> mid.baselines[path][k].NaN?
  {
    if mid.baselines[path][k].NaN? {
      RisesThroughNaN(mid, path, k);
    } else {
      forall s, t, m, n | TwoPasses(s, mid, t, m, n, path) ensures !Raised(s, t, path, k) {
        NoRiseThroughNumber(s, mid, t, m, n, path, k);
      }
    }
  }

  lemma RisesThroughNaN(mid: State, path: string, k: string)
    requires IsBaseline(path) && path in mid.blobs && path in mid.baselines
    requires k in mid.baselines[path] && mid.baselines[path][k].NaN?
    ensures CanRiseThrough(mid, path, k)
  {
    var s := With(mid, path, "1", mid.baselines[path][k := Finite(10.0)]);
    var t := With(mid, path, "2", mid.baselines[path][k := Finite(100.0)]);
    NotRaisedAroundNaN(mid.baselines[path], k, Finite(10.0));
    NotRaisedAroundNaN(mid.baselines[path], k, Finite(100.0));
    var m := OneFileMerge(s, mid, path);
    var n := OneFileMerge(mid, t, path);
    assert TwoPasses(s, mid, t, m, n, path) && Raised(s, t, path, k);
  }

  lemma NotRaisedAroundNaN(b: Baseline, k: string, n: Number)
    requires k in b && b[k].NaN?
    ensures NotRaised(b[k := n], b) && NotRaised(b, b[k := n])
  {
  }

  lemma NoRiseThroughNumber(s: State, mid: State, t: State, m: Merge, n: Merge, path: string, k: string)
    requires TwoPasses(s, mid, t, m, n, path) && IsBaseline(path) && path in mid.baselines
    requires k in mid.baselines[path] && !mid.baselines[path][k].NaN?
    ensures !Raised(s, t, path, k)
  {
    MergeNeverRaises(s, mid, m, path);
    MergeNeverRaises(mid, t, n, path);
    if path in s.baselines {
      NextStaysBelow(s, mid, t, path, k);
    }
  }

  /** The commit with one baseline file replaced. */
  function With(s: State, path: string, mark: string, b: Baseline): State
    requires path in s.blobs
  {
    State(s.blobs[path := s.blobs[path] + mark], s.baselines[path := b])
  }

  /** Changing one baseline file, not raising it, passes under a card without oracle files. */
  lemma OneFileMerge(s: State, t: State, path: string) returns (m: Merge)
    requires IsBaseline(path) && path in s.baselines && path in t.baselines
    requires NotRaised(s.baselines[path], t.baselines[path]) && Blob(s.blobs, path) != Blob(t.blobs, path)
    requires forall p :: p != path ==> Blob(s.blobs, p) == Blob(t.blobs, p) && BaselineOf(s.baselines, p) == BaselineOf(t.baselines, p)
    ensures MergedPass(s, t, m) && !TakenOver(m, path)
  {
    var change := Change(path, "M", "100644", "100644", Some((1, 1)));
    var pull := Pull([change], t.blobs, t.blobs, s.baselines, t.baselines, map[], map[]);
    m := Merge(pull, Card([], [], 0), Policy([], []), (line: string) => false, t.baselines);
    OneFilePasses(m, change, path);
    OneFileDiff(s, t, pull, change);
  }

  lemma OneFileDiff(s: State, t: State, pull: Pull, change: Change)
    requires pull.changed == [change] && pull.head == t.blobs
    requires forall p :: p != change.path ==> Blob(s.blobs, p) == Blob(t.blobs, p)
    ensures IsDiff(pull, s.blobs)
  {
    assert pull.changed[0] == change;
    assert change in pull.changed;
  }

  lemma OneFilePasses(m: Merge, change: Change, path: string)
    requires m.card == Card([], [], 0) && m.policy == Policy([], []) && m.pull.added == map[]
    requires change == Change(path, "M", "100644", "100644", Some((1, 1))) && m.pull.changed == [change]
    requires IsBaseline(path) && BaselineOk(m.pull, path)
    ensures Passes(m.pull, RulesFor(m), 0) && !TakenOver(m, path)
  {
    assert OraclePaths(m.pull, RulesFor(m)) == {};
    assert PathOk(change, m.pull, RulesFor(m));
    SpecialFilePasses(m.pull, RulesFor(m), change, 0);
  }

  /** A single change of a file that is no ordinary one counts no lines. */
  lemma SpecialFilePasses(pull: Pull, rules: Rules, change: Change, budget: int)
    requires pull.changed == [change] && pull.added == map[] && budget >= 0 && OracleOk(pull, rules)
    requires ModeOk(change) && PathOk(change, pull, rules) && !Ordinary(change, pull, rules)
    ensures Passes(pull, rules, budget)
  {
    assert CountedLines(pull, rules, 0) == 0;
    assert CountedLines(pull, rules, 1) == 0;
    assert LinesOk(change, pull, rules);
  }

  /** The check itself, on a baseline file with one value changed: refused when it goes up, passed when
      it stays or goes down. */
  method CheckOneValue(path: string, key: string, before: real, after: real) returns (failures: seq<Failure>)
    requires IsBaseline(path)
    ensures failures == [] <==> after <= before
  {
    var change := Change(path, "M", "100644", "100644", Some((1, 1)));
    var pull := Pull([change], map[], map[], map[path := map[key := Finite(before)]], map[path := map[key := Finite(after)]], map[], map[]);
    failures := Check(pull, Card([], [], 0), Policy([], []), (line: string) => false);
    OneValuePasses(pull, change, path, key, before, after);
  }

  lemma OneValuePasses(pull: Pull, change: Change, path: string, key: string, before: real, after: real)
    requires IsBaseline(path) && change == Change(path, "M", "100644", "100644", Some((1, 1)))
    requires pull == Pull([change], map[], map[], map[path := map[key := Finite(before)]], map[path := map[key := Finite(after)]], map[], map[])
    ensures forall flagged :: Passes(pull, RulesOf(Card([], [], 0), Policy([], []), flagged), 0) <==> after <= before
  {
    forall flagged ensures Passes(pull, RulesOf(Card([], [], 0), Policy([], []), flagged), 0) <==> after <= before {
      var card, policy := Card([], [], 0), Policy([], []);
      var rules := RulesOf(card, policy, flagged);
      PathsMean(change, pull, card, policy, flagged);
      GreaterMeans(after, before, NaN);
      assert key in pull.headBaselines[path];
      assert PathOk(change, pull, rules) <==> after <= before;
      assert change in pull.changed;
      if after <= before {
        SpecialFilePasses(pull, rules, change, 0);
      }
    }
  }

  const EXAMPLE := ".dod-baseline"

  lemma ExampleIsBaseline()
    ensures IsBaseline(EXAMPLE)
  {
    PlainNameIsBaseline(".dod-", "baseline", EXAMPLE);
  }

  lemma PlainNameIsBaseline(front: string, back: string, name: string)
    requires front == ".dod-" && back == "baseline" && name == front + back && '/' !in name
    ensures IsBaseline(name)
  {
    BaselineNames(name);
    assert Basename(name) == name;
    assert Between(front, "", back, name);
  }

  /** NaN between 10 and 100: both merges pass. */
  lemma NaNDefeatsTheRatchet()
    ensures CanRiseThrough(State(map[EXAMPLE := "b"], map[EXAMPLE := map["" := NaN]]), EXAMPLE, "")
  {
    ExampleIsBaseline();
    RisesThroughNaNOnly(State(map[EXAMPLE := "b"], map[EXAMPLE := map["" := NaN]]), EXAMPLE, "");
  }

  /** A card whose oracle globs cover everything: the merge that brings back a commit with a greater
      value passes. */
  lemma OracleCanRaiseABaseline()
    ensures exists s, t, m ::
              MergedPass(s, t, m) && m.card == Card(["**"], ["**"], 1) && TakenOver(m, EXAMPLE) && Raised(s, t, EXAMPLE, "")
  {
    var low: Baseline, high: Baseline := map["" := Finite(1.0)], map["" := Finite(2.0)];
    var s := State(map[EXAMPLE := "low"], map[EXAMPLE := low]);
    var t := State(map[EXAMPLE := "high"], map[EXAMPLE := high]);
    var change := Change(EXAMPLE, "M", "100644", "100644", Some((1, 1)));
    var pull := Pull([change], t.blobs, t.blobs, s.baselines, t.baselines, map[], map[]);
    var m := Merge(pull, Card(["**"], ["**"], 1), Policy([], []), (line: string) => false, t.baselines);
    OraclePasses(m, change);
    assert change in pull.changed;
    assert MergedPass(s, t, m);
  }

  lemma OraclePasses(m: Merge, change: Change)
    requires m.card == Card(["**"], ["**"], 1) && m.policy == Policy([], []) && m.pull.added == map[]
    requires change == Change(EXAMPLE, "M", "100644", "100644", Some((1, 1))) && m.pull.changed == [change]
    requires m.pull.reference == m.pull.head && EXAMPLE in m.pull.head
    ensures Passes(m.pull, RulesFor(m), 1) && TakenOver(m, EXAMPLE)
  {
    var rules := RulesFor(m);
    AnyLine(EXAMPLE);
    assert m.card.oracles[0] == "**" && rules.oracle(EXAMPLE);
    SameTreesPass(m.pull, rules, EXAMPLE);
    assert !rules.lockfile(EXAMPLE);
    SpecialFilePasses(m.pull, rules, change, 1);
  }

  lemma SameTreesPass(pull: Pull, rules: Rules, path: string)
    requires pull.reference == pull.head && path in pull.head && rules.oracle(path)
    ensures OracleOk(pull, rules) && path in OraclePaths(pull, rules)
  {
  }

  lemma AnyLine(path: string)
    requires OneLine(path)
    ensures Matches(Tokens("**"), path, false)
  {
    assert Tokens("**") == [Anything] + Tokens("") == [Anything];
    AnythingIsOneLine(path, false);
  }
}
