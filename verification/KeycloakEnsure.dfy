/** ensure_flow (scripts/keycloak_mfa.py): find or build a matching sign-in flow, bind it, then
    remove superseded copies. What holds after every single call, and when a run changes
    nothing. */
module KeycloakEnsure {
  import opened Basics
  import opened Text
  import opened KeycloakShape
  import opened KeycloakServer
  import opened KeycloakFlow

  /** The alias carries the flow's name, possibly with a build number. */
  predicate IsCopy(alias: string) {
    alias == FLOW || FLOW + "--" <= alias
  }

  /** The names the run may build, bind and delete; everything else is somebody else's. */
  ghost predicate OwnName(alias: string) {
    alias == "tn-browser" || exists rest :: alias == "tn-browser--" + rest
  }

  lemma CopiesAreOwn(alias: string)
    ensures IsCopy(alias) <==> OwnName(alias)
    ensures IsCopy(alias) ==> "tn-browser" + SuffixOf(alias) == alias
  {
    if IsCopy(alias) && alias != FLOW {
      assert alias == "tn-browser--" + alias[|FLOW + "--"|..];
    }
  }

  /** Every flow created under a name that is not the run's own is there unchanged. */
  ghost predicate OthersStand(start: Realm, r: Realm) {
    forall a :: a in start.flows && !OwnName(start.flows[a].root) ==> a in r.flows && r.flows[a] == start.flows[a]
  }

  function SuffixOf(alias: string): string {
    if |FLOW| <= |alias| then alias[|FLOW|..] else ""
  }

  /** The flow exists, at top level, and reads back as the specification. */
  ghost predicate Accepted(r: Realm, alias: string, spec: seq<Node>) {
    && WellFormed(r) && TopLevel(r, alias) && IsCopy(alias)
    && RenameShape(ExpectedShape(TreeOf(r, alias), 0), SuffixOf(alias)) == ExpectedShape(spec, 0)
  }

  ghost function Copies(r: Realm): set<string> {
    set a | a in r.flows && TopLevel(r, a) && IsCopy(a)
  }

  /** Sign-in goes through the flow it went through before the run, unchanged, or through a
      flow that matches the specification; and what is not the run's own stands. */
  ghost predicate InUseIsWhole(start: Realm, r: Realm, spec: seq<Node>) {
    && WellFormed(start) && WellFormed(r) && OthersStand(start, r)
    && (|| Accepted(r, r.bound, spec)
        || (r.bound == start.bound &&
            (start.bound in start.flows ==>
               start.bound in r.flows && TreeOf(r, start.bound) == TreeOf(start, start.bound))))
  }

  ghost predicate SafeEvent(start: Realm, e: Event, spec: seq<Node>) {
    && InUseIsWhole(start, e.after, spec)
    && SentRight(e)
    && (e.call.CreateFlow? ==> OwnName(e.call.alias))
    && (e.call.Delete? ==> OwnName(e.call.alias) && e.call.alias != e.before.bound)
    && (e.call.Bind? ==> OwnName(e.call.alias) && Accepted(e.before, e.call.alias, spec))
  }

  ghost predicate SafeFrom(start: Realm, history: seq<Event>, from: nat, spec: seq<Node>) {
    forall i :: from <= i < |history| ==> SafeEvent(start, history[i], spec)
  }

  /** Nothing left to do: the bound flow matches and no other copy is around. */
  ghost predicate Settled(r: Realm, spec: seq<Node>) {
    Accepted(r, r.bound, spec) && Copies(r) == {r.bound}
  }

  // ── frames ───────────────────────────────────────────────────────────

  lemma TreeOfFrame(r: Realm, s: Realm, alias: string)
    requires WellFormed(r) && WellFormed(s) && r.nextId <= s.nextId
    requires alias in r.flows
    requires forall a :: a in r.flows && r.flows[a].root == r.flows[alias].root ==> a in s.flows && s.flows[a] == r.flows[a]
    ensures alias in s.flows && TreeOf(s, alias) == TreeOf(r, alias)
  {
    var f := r.flows[alias];
    TreeFrame(r, s, f.executions, f.id, f.root);
  }

  /** Building elsewhere leaves the flow in use as it was. */
  lemma BuildKeepsInUse(start: Realm, r: Realm, s: Realm, built: string, spec: seq<Node>)
    requires WellFormed(start) && WellFormed(s)
    requires built !in start.flows && r == WithFlow(start, built) && Grown(r, s, built)
    ensures InUseIsWhole(start, s, spec)
  {
    if start.bound in start.flows {
      TreeOfFrame(start, s, start.bound);
    }
  }

  /** Deleting another copy leaves an accepted flow accepted. */
  lemma DeleteKeepsAccepted(r: Realm, other: string, alias: string, spec: seq<Node>)
    requires Accepted(r, alias, spec) && other != alias
    ensures WellFormed(WithoutFlow(r, other)) && Accepted(WithoutFlow(r, other), alias, spec)
  {
    WithoutFlowWellFormed(r, other);
    TreeOfFrame(r, WithoutFlow(r, other), alias);
  }

  ghost predicate Distinct(s: seq<string>) {
    forall i, j :: 0 <= i < j < |s| ==> s[i] != s[j]
  }

  // ── reading ──────────────────────────────────────────────────────────

  /** GET /authentication/flows: the aliases of the top-level flows, in the server's order. */
  method ListFlows(kc: Admin) returns (answered: bool, aliases: seq<string>)
    ensures kc.reliable ==> answered
    ensures answered ==> forall a :: a in aliases <==> TopLevel(kc.realm, a)
    ensures Distinct(aliases)
  {
    answered := kc.Get();
    aliases := [];
    var left := kc.realm.flows.Keys;
    while left != {}
      invariant left <= kc.realm.flows.Keys
      invariant forall a :: a in aliases <==> TopLevel(kc.realm, a) && a !in left
      invariant Distinct(aliases)
      decreases left
    {
      var a :| a in left;
      left := left - {a};
      if TopLevel(kc.realm, a) {
        aliases := aliases + [a];
      }
    }
  }

  method FlowShape(kc: Admin, alias: string) returns (answered: bool, shape: Option<seq<Row>>)
    requires WellFormed(kc.realm)
    ensures kc.reliable ==> answered
    ensures answered ==> shape == if TopLevel(kc.realm, alias) then Some(ExpectedShape(TreeOf(kc.realm, alias), 0)) else None
  {
    shape := None;
    var aliases;
    answered, aliases := ListFlows(kc);
    if !answered || alias !in aliases { return; }
    answered := kc.Get();
    if !answered { return; }
    var f := kc.realm.flows[alias];
    RowsShowTheTree(kc.realm, f.executions, f.id, f.root, 0);
    var read;
    answered, read := ReadRows(kc, ApiRows(kc.realm, f.executions, f.id, f.root, 0));
    if answered {
      shape := Some(read);
    }
  }

  /** The rows with the configuration of each, one GET apiece. */
  method ReadRows(kc: Admin, rows: seq<ApiRow>) returns (answered: bool, read: seq<Row>)
    ensures kc.reliable ==> answered
    ensures answered ==> read == AllComparable(rows)
  {
    answered, read := true, [];
    for i := 0 to |rows|
      invariant answered && read == AllComparable(rows[..i])
    {
      assert rows[..i + 1][..i] == rows[..i];
      var config: Config := map[];
      if rows[i].config != map[] {
        answered := kc.Get();
        if !answered { return; }
        config := rows[i].config;
      }
      read := read + [Row(rows[i].level, rows[i].name, rows[i].requirement, config)];
    }
    assert rows[..|rows|] == rows;
  }

  function BoundFirst(candidates: seq<string>, bound: string): seq<string> {
    Keep(candidates, a => a == bound) + Keep(candidates, a => a != bound)
  }

  function Keep(s: seq<string>, p: string -> bool): (r: seq<string>)
    ensures forall a :: a in r <==> a in s && p(a)
  {
    if s == [] then []
    else
      var rest := Keep(s[..|s| - 1], p);
      var a := s[|s| - 1];
      assert forall b :: b in s <==> b == a || b in s[..|s| - 1];
      if p(a) then rest + [a] else rest
  }

  method FindGood(kc: Admin, candidates: seq<string>, spec: seq<Node>) returns (answered: bool, good: Option<string>)
    requires WellFormed(kc.realm)
    requires forall a :: a in candidates ==> TopLevel(kc.realm, a) && IsCopy(a)
    ensures kc.reliable ==> answered
    ensures answered ==> if good.Some? then good.value in candidates && Accepted(kc.realm, good.value, spec)
                         else forall a :: a in candidates ==> !Accepted(kc.realm, a, spec)
    ensures answered && kc.realm.bound in candidates && Accepted(kc.realm, kc.realm.bound, spec)
            ==> good == Some(kc.realm.bound)
  {
    var want := ExpectedShape(spec, 0);
    var bound := kc.realm.bound;
    var order := BoundFirst(candidates, bound);
    good := None;
    answered := true;
    for i := 0 to |order|
      invariant answered && good == None
      invariant forall j :: 0 <= j < i ==> !Accepted(kc.realm, order[j], spec)
    {
      assert order[i] in candidates;
      var shape;
      answered, shape := FlowShape(kc, order[i]);
      if !answered { return; }
      if shape.Some? && RenameShape(shape.value, SuffixOf(order[i])) == want {
        good := Some(order[i]);
        if bound in candidates && Accepted(kc.realm, bound, spec) {
          var mine := Keep(candidates, a => a == bound);
          assert bound in mine;
          assert mine[0] in mine;
          assert order[0] == bound;
        }
        return;
      }
    }
    forall a | a in candidates ensures !Accepted(kc.realm, a, spec) {
      assert a in order;
    }
  }

  // ── building a new copy ──────────────────────────────────────────────

  function Numbered(n: nat): string {
    FLOW + "--" + Decimal(n)
  }

  lemma NumberedInjective(n: nat, m: nat)
    requires Numbered(n) == Numbered(m)
    ensures n == m
  {
    assert Numbered(n)[|FLOW + "--"|..] == Decimal(n);
    assert Numbered(m)[|FLOW + "--"|..] == Decimal(m);
    DecimalInjective(n, m);
  }

  /** The plain name when no top-level flow has it, else the first number that is free. */
  ghost predicate FirstFree(taken: set<string>, alias: string) {
    if "tn-browser" !in taken then alias == "tn-browser"
    else exists n: nat :: n >= 1 && alias == "tn-browser--" + Decimal(n) && alias !in taken &&
                          forall k: nat :: 1 <= k < n ==> "tn-browser--" + Decimal(k) in taken
  }

  ghost function TopLevels(r: Realm): set<string> {
    set a | a in r.flows && TopLevel(r, a)
  }

  /** An alias no top-level flow has: the plain name, or the first free number. */
  method FreeAlias(aliases: seq<string>) returns (alias: string)
    ensures alias !in aliases && IsCopy(alias)
    ensures FirstFree((set a | a in aliases), alias)
  {
    var n: nat := 1;
    ghost var left := set a | a in aliases;
    while Numbered(n) in aliases
      invariant n >= 1
      invariant forall k: nat :: 1 <= k < n ==> Numbered(k) in aliases
      invariant forall k: nat :: k >= n && Numbered(k) in aliases ==> Numbered(k) in left
      decreases left
    {
      left := left - {Numbered(n)};
      forall k: nat | k >= n + 1 && Numbered(k) in aliases ensures Numbered(k) in left {
        if Numbered(k) == Numbered(n) {
          NumberedInjective(k, n);
        }
      }
      n := n + 1;
    }
    alias := if FLOW !in aliases then FLOW else Numbered(n);
    assert forall k: nat :: Numbered(k) == "tn-browser--" + Decimal(k);
  }

  /** The aliases and names let the build go through, and the comparison afterwards succeed. */
  ghost predicate CanBuild(r: Realm, alias: string, spec: seq<Node>) {
    && alias !in r.flows
    && Buildable(spec, SuffixOf(alias), r.flows.Keys + {alias})
    && (SuffixOf(alias) == "" || !ProviderEndsWith(spec, SuffixOf(alias)))
  }

  /** build_flow: the flow, then everything below it. */
  method BuildFlow(kc: Admin, alias: string, spec: seq<Node>, suffix: string) returns (ok: bool)
    requires WellFormed(kc.realm) && IsCopy(alias) && !TopLevel(kc.realm, alias) && suffix == SuffixOf(alias)
    modifies kc
    ensures WellFormed(kc.realm) && old(kc.history) <= kc.history
    ensures SafeFrom(old(kc.realm), kc.history, |old(kc.history)|, spec)
    ensures InUseIsWhole(old(kc.realm), kc.realm, spec)
    ensures ok ==> alias !in old(kc.realm.flows) && Grown(WithFlow(old(kc.realm), alias), kc.realm, alias)
    ensures ok ==> TopLevel(kc.realm, alias) && TreeOf(kc.realm, alias) == Suffixed(spec, suffix)
    ensures ok ==> kc.changed == old(kc.changed) + ["flow built"]
    ensures var fits := alias !in old(kc.realm.flows) && Buildable(spec, suffix, old(kc.realm.flows.Keys) + {alias});
            (ok ==> fits) && (kc.reliable && fits ==> ok)
  {
    ghost var r0 := kc.realm;
    ok := CreateTop(kc, alias, spec);
    if !ok { return; }
    ghost var r1, h1 := kc.realm, kc.history;
    ok := kc.AddExecutions(alias, spec, suffix);
    BuildIsSafe(r0, r1, kc.history, |h1|, alias, spec);
    JoinSafe(r0, h1, kc.history, |old(kc.history)|, spec);
    BuildKeepsInUse(r0, r1, kc.realm, alias, spec);
    if !ok { return; }
    kc.Note("flow built");
    assert kc.realm.flows[alias].executions[0..] == kc.realm.flows[alias].executions;
  }

  /** The empty top-level flow everything is built in. */
  method CreateTop(kc: Admin, alias: string, ghost spec: seq<Node>) returns (ok: bool)
    requires WellFormed(kc.realm) && IsCopy(alias) && !TopLevel(kc.realm, alias)
    modifies kc`realm, kc`history
    ensures WellFormed(kc.realm) && old(kc.history) <= kc.history
    ensures SafeFrom(old(kc.realm), kc.history, |old(kc.history)|, spec)
    ensures InUseIsWhole(old(kc.realm), kc.realm, spec)
    ensures ok ==> alias !in old(kc.realm.flows) && kc.realm == WithFlow(old(kc.realm), alias)
    ensures ok ==> kc.realm.flows.Keys == old(kc.realm.flows.Keys) + {alias}
    ensures (ok ==> alias !in old(kc.realm.flows)) && (kc.reliable && alias !in old(kc.realm.flows) ==> ok)
  {
    ghost var r0 := kc.realm;
    CopiesAreOwn(alias);
    var allowed := alias !in kc.realm.flows;
    if allowed {
      WithFlowWellFormed(r0, alias);
      BuildKeepsInUse(r0, WithFlow(r0, alias), WithFlow(r0, alias), alias, spec);
    }
    ok := kc.Send(CreateFlow(alias), allowed);
  }

  lemma BuildIsSafe(start: Realm, r: Realm, history: seq<Event>, from: nat, built: string, spec: seq<Node>)
    requires WellFormed(start) && built !in start.flows && r == WithFlow(start, built)
    requires BuildEvents(r, history, from, built)
    ensures SafeFrom(start, history, from, spec)
  {
    forall i | from <= i < |history| ensures SafeEvent(start, history[i], spec) {
      BuildKeepsInUse(start, r, history[i].after, built, spec);
    }
  }

  /** A new copy: built, read back, compared. */
  method BuildNew(kc: Admin, alias: string, spec: seq<Node>) returns (ok: bool)
    requires WellFormed(kc.realm) && IsCopy(alias) && !TopLevel(kc.realm, alias)
    modifies kc
    ensures WellFormed(kc.realm) && old(kc.history) <= kc.history
    ensures SafeFrom(old(kc.realm), kc.history, |old(kc.history)|, spec)
    ensures InUseIsWhole(old(kc.realm), kc.realm, spec)
    ensures ok ==> Accepted(kc.realm, alias, spec) && kc.realm.bound == old(kc.realm.bound)
    ensures ok ==> Copies(kc.realm) == Copies(old(kc.realm)) + {alias}
    ensures ok ==> kc.changed == old(kc.changed) + ["flow built"]
    ensures ok ==> CanBuild(old(kc.realm), alias, spec)
    ensures kc.reliable && CanBuild(old(kc.realm), alias, spec) ==> ok
  {
    var suffix := SuffixOf(alias);
    ok := BuildFlow(kc, alias, spec, suffix);
    if !ok { return; }
    ReadBackIsExact(spec, suffix, 0);
    var shape;
    ok, shape := FlowShape(kc, alias);
    if !ok { return; }
    ok := shape.Some? && RenameShape(shape.value, suffix) == ExpectedShape(spec, 0);
    BuildAddsOneCopy(old(kc.realm), kc.realm, alias);
  }

  lemma BuildAddsOneCopy(r0: Realm, r: Realm, alias: string)
    requires alias !in r0.flows && IsCopy(alias) && Grown(WithFlow(r0, alias), r, alias)
    ensures Copies(r) == Copies(r0) + {alias}
  {
    forall a ensures a in Copies(r) <==> a in Copies(r0) + {alias} {
      if a in r.flows && a !in r0.flows && a != alias {
        assert r.flows[a].root == alias;
      }
    }
  }

  // ── removing superseded copies ───────────────────────────────────────

  method DeleteFlow(kc: Admin, alias: string, ghost start: Realm, ghost spec: seq<Node>) returns (ok: bool, ghost refused: bool)
    requires Accepted(kc.realm, kc.realm.bound, spec) && alias != kc.realm.bound && WellFormed(start)
    requires OthersStand(start, kc.realm) && IsCopy(alias)
    modifies kc`realm, kc`history
    ensures OthersStand(start, kc.realm)
    ensures kc.realm == old(kc.realm) || kc.realm == WithoutFlow(old(kc.realm), alias)
    ensures Accepted(kc.realm, kc.realm.bound, spec) && kc.realm.bound == old(kc.realm.bound)
    ensures old(kc.history) <= kc.history && SafeFrom(start, kc.history, |old(kc.history)|, spec)
    ensures ok ==> kc.realm == if refused then old(kc.realm) else WithoutFlow(old(kc.realm), alias)
    ensures kc.reliable ==> ok && !refused
  {
    DeleteKeepsAccepted(kc.realm, alias, kc.realm.bound, spec);
    CopiesAreOwn(alias);
    var refuse: bool := *;
    refuse := refuse && !kc.reliable;
    refused := refuse;
    ok := kc.Send(Delete(alias), !refuse);
    if refuse {
      // 400 and 409 are accepted answers
      ok := kc.Get();
    }
  }

  /** The copies left while the clean-up loop is at candidate i. */
  ghost predicate Cleaning(r: Realm, candidates: seq<string>, i: nat, refused: set<string>) {
    && i <= |candidates| && Copies(r) == {r.bound} + refused + Rest(candidates, i)
    && refused !! Rest(candidates, i) && r.bound !in refused
  }

  /** One candidate of the clean-up loop; the flow in use is passed over. */
  method DeleteCopy(kc: Admin, candidates: seq<string>, i: nat, ghost refused: set<string>, ghost start: Realm,
                    ghost spec: seq<Node>, ghost from: nat)
    returns (ok: bool, ghost still: set<string>)
    requires Accepted(kc.realm, kc.realm.bound, spec) && WellFormed(start)
    requires i < |candidates| && Distinct(candidates) && Cleaning(kc.realm, candidates, i, refused)
    requires from <= |kc.history| && SafeFrom(start, kc.history, from, spec) && OthersStand(start, kc.realm)
    modifies kc
    ensures OthersStand(start, kc.realm)
    ensures Accepted(kc.realm, kc.realm.bound, spec) && kc.realm.bound == old(kc.realm.bound)
    ensures old(kc.history) <= kc.history && SafeFrom(start, kc.history, from, spec)
    ensures ok ==> Cleaning(kc.realm, candidates, i + 1, still)
    ensures candidates[i] == kc.realm.bound ==>
              ok && still == refused && kc.realm == old(kc.realm) && kc.history == old(kc.history) && kc.changed == old(kc.changed)
    ensures ok && candidates[i] != kc.realm.bound ==> |kc.changed| == |old(kc.changed)| + 1
    ensures kc.reliable ==> ok && still == refused
  {
    var alias := candidates[i];
    ok, still := true, refused;
    ghost var kept := true;
    ghost var before := Copies(kc.realm);
    if alias != kc.realm.bound {
      ghost var h1 := kc.history;
      assert alias in Rest(candidates, i);
      CopiesWithout(kc.realm, alias);
      ok, kept := DeleteFlow(kc, alias, start, spec);
      JoinSafe(start, h1, kc.history, from, spec);
      if !ok { return; }
      kc.Note("flow removed");
      if kept {
        still := still + {alias};
      }
    }
    CopiesLeft(candidates, i, kc.realm.bound, refused, before, kept);
  }

  /** How many of the first n candidates are not the flow in use. */
  ghost function Others(candidates: seq<string>, bound: string, n: nat): nat
    requires n <= |candidates|
  {
    if n == 0 then 0 else Others(candidates, bound, n - 1) + if candidates[n - 1] != bound then 1 else 0
  }

  method DeleteOthers(kc: Admin, candidates: seq<string>, ghost start: Realm, ghost spec: seq<Node>)
    returns (ok: bool, ghost refused: set<string>)
    requires Accepted(kc.realm, kc.realm.bound, spec) && WellFormed(start)
    requires Distinct(candidates) && Cleaning(kc.realm, candidates, 0, {}) && OthersStand(start, kc.realm)
    modifies kc
    ensures OthersStand(start, kc.realm)
    ensures Accepted(kc.realm, kc.realm.bound, spec) && kc.realm.bound == old(kc.realm.bound)
    ensures old(kc.history) <= kc.history && SafeFrom(start, kc.history, |old(kc.history)|, spec)
    ensures ok ==> Cleaning(kc.realm, candidates, |candidates|, refused)
    ensures ok ==> |kc.changed| == |old(kc.changed)| + Others(candidates, kc.realm.bound, |candidates|)
    ensures Others(candidates, kc.realm.bound, |candidates|) == 0
            ==> ok && kc.realm == old(kc.realm) && kc.history == old(kc.history) && kc.changed == old(kc.changed)
    ensures kc.reliable ==> ok && refused == {}
  {
    ok, refused := true, {};
    ghost var bound := kc.realm.bound;
    var i := 0;
    while i < |candidates|
      invariant 0 <= i <= |candidates| && ok
      invariant Accepted(kc.realm, kc.realm.bound, spec) && kc.realm.bound == bound && OthersStand(start, kc.realm)
      invariant old(kc.history) <= kc.history && SafeFrom(start, kc.history, |old(kc.history)|, spec)
      invariant Cleaning(kc.realm, candidates, i, refused)
      invariant |kc.changed| == |old(kc.changed)| + Others(candidates, bound, i)
      invariant Others(candidates, bound, i) == 0
                ==> kc.realm == old(kc.realm) && kc.history == old(kc.history) && kc.changed == old(kc.changed)
      invariant kc.reliable ==> refused == {}
    {
      OthersGrows(candidates, bound, i + 1);
      ok, refused := DeleteCopy(kc, candidates, i, refused, start, spec, |old(kc.history)|);
      if !ok { return; }
      i := i + 1;
    }
  }

  lemma CopiesLeft(candidates: seq<string>, i: nat, bound: string, refused: set<string>, copies: set<string>, kept: bool)
    requires i < |candidates| && Distinct(candidates) && refused !! Rest(candidates, i)
    requires copies == {bound} + refused + Rest(candidates, i)
    requires candidates[i] == bound ==> kept
    ensures var alias := candidates[i];
            var still := if kept && alias != bound then refused + {alias} else refused;
            && still !! Rest(candidates, i + 1)
            && (if kept then copies else copies - {alias}) == {bound} + still + Rest(candidates, i + 1)
  {
    RestStep(candidates, i);
  }

  lemma {:induction false} OthersGrows(candidates: seq<string>, bound: string, n: nat)
    requires n <= |candidates|
    ensures Others(candidates, bound, n) <= Others(candidates, bound, |candidates|)
    decreases |candidates| - n
  {
    if n < |candidates| {
      OthersGrows(candidates, bound, n + 1);
    }
  }

  lemma {:induction false} OthersNone(candidates: seq<string>, bound: string, n: nat)
    requires n <= |candidates|
    ensures Others(candidates, bound, n) == 0 <==> forall i :: 0 <= i < n ==> candidates[i] == bound
  {
    if n > 0 {
      OthersNone(candidates, bound, n - 1);
    }
  }

  ghost function Rest(candidates: seq<string>, i: nat): set<string> {
    set j | i <= j < |candidates| :: candidates[j]
  }

  lemma RestStep(candidates: seq<string>, i: nat)
    requires i < |candidates| && Distinct(candidates)
    ensures Rest(candidates, i) == {candidates[i]} + Rest(candidates, i + 1)
    ensures candidates[i] !in Rest(candidates, i + 1) && candidates[i] in Rest(candidates, 0)
  {
  }

  lemma CopiesWithout(r: Realm, alias: string)
    requires TopLevel(r, alias)
    ensures Copies(WithoutFlow(r, alias)) == Copies(r) - {alias}
  {
  }

  // ── the whole step ───────────────────────────────────────────────────

  /** Whatever call fails, sign-in never goes through a flow that is not whole, and no DELETE
      targets the flow in use. A run that succeeds leaves a matching flow bound and no other
      copy but those the server refused to delete; it records a change exactly when there was
      something to do. */
  method EnsureFlow(kc: Admin, spec: seq<Node>) returns (ok: bool, ghost refused: set<string>, ghost free: string)
    requires WellFormed(kc.realm)
    modifies kc
    ensures old(kc.history) <= kc.history
    ensures SafeFrom(old(kc.realm), kc.history, |old(kc.history)|, spec)
    ensures InUseIsWhole(old(kc.realm), kc.realm, spec)
    ensures ok ==> Accepted(kc.realm, kc.realm.bound, spec)
    ensures ok ==> Copies(kc.realm) == {kc.realm.bound} + refused && kc.realm.bound !in refused
    ensures ok && refused == {} ==> Settled(kc.realm, spec)
    ensures Accepted(old(kc.realm), old(kc.realm.bound), spec) ==> kc.realm.bound == old(kc.realm.bound)
    ensures ok ==> (|kc.changed| > |old(kc.changed)| <==> !Settled(old(kc.realm), spec))
    ensures Settled(old(kc.realm), spec)
            ==> kc.realm == old(kc.realm) && kc.history == old(kc.history) && kc.changed == old(kc.changed)
    ensures kc.reliable ==> refused == {}
    ensures kc.reliable ==> FirstFree(TopLevels(old(kc.realm)), free)
    ensures kc.reliable ==> (ok <==> (exists a :: Accepted(old(kc.realm), a, spec)) || CanBuild(old(kc.realm), free, spec))
  {
    refused := {};
    var candidates, unused, good;
    ok, candidates, unused := ListCopies(kc);
    free := unused;
    if !ok { return; }
    ok, good := FindOrBuild(kc, candidates, unused, spec);
    if !ok { return; }
    ghost var h1 := kc.history;
    ok, refused := BindAndClean(kc, candidates, good, old(kc.realm), spec);
    JoinSafe(old(kc.realm), h1, kc.history, |old(kc.history)|, spec);
    SettledMeans(old(kc.realm), candidates, spec);
  }

  /** The bound flow, the copies around, and the alias a new one would get. */
  method ListCopies(kc: Admin) returns (ok: bool, candidates: seq<string>, free: string)
    ensures kc.reliable ==> ok
    ensures ok ==> Distinct(candidates) && Rest(candidates, 0) == Copies(kc.realm)
                   && forall a :: a in candidates <==> a in Copies(kc.realm)
    ensures ok ==> FirstFree(TopLevels(kc.realm), free) && IsCopy(free) && !TopLevel(kc.realm, free)
  {
    candidates, free := [], "";
    ok := kc.Get();
    if !ok { return; }
    var aliases;
    ok, aliases := ListFlows(kc);
    if !ok { return; }
    free := FreeAlias(aliases);
    candidates := Keep(aliases, IsCopy);
    KeepDistinct(aliases, IsCopy);
    assert (set a | a in aliases) == TopLevels(kc.realm);
    assert forall a :: a in candidates <==> a in Copies(kc.realm);
    CandidatesAreTheCopies(candidates, Copies(kc.realm));
  }

  lemma SettledMeans(r: Realm, candidates: seq<string>, spec: seq<Node>)
    requires WellFormed(r) && forall a :: a in candidates <==> a in Copies(r)
    ensures Settled(r, spec) <==> Accepted(r, r.bound, spec) && Others(candidates, r.bound, |candidates|) == 0
  {
    OthersNone(candidates, r.bound, |candidates|);
    if Accepted(r, r.bound, spec) {
      assert r.bound in Copies(r);
      if Copies(r) == {r.bound} {
        forall i | 0 <= i < |candidates| ensures candidates[i] == r.bound {
          assert candidates[i] in candidates;
        }
      }
      if forall i :: 0 <= i < |candidates| ==> candidates[i] == r.bound {
        forall a | a in Copies(r) ensures a == r.bound {
          assert a in candidates;
        }
      }
    }
  }

  /** A copy that already matches, the bound one first; else a new one. */
  method FindOrBuild(kc: Admin, candidates: seq<string>, free: string, spec: seq<Node>) returns (ok: bool, good: string)
    requires WellFormed(kc.realm) && IsCopy(free) && !TopLevel(kc.realm, free)
    requires forall a :: a in candidates <==> a in Copies(kc.realm)
    modifies kc
    ensures WellFormed(kc.realm) && old(kc.history) <= kc.history
    ensures SafeFrom(old(kc.realm), kc.history, |old(kc.history)|, spec)
    ensures InUseIsWhole(old(kc.realm), kc.realm, spec)
    ensures ok ==> Accepted(kc.realm, good, spec) && kc.realm.bound == old(kc.realm.bound)
    ensures ok ==> Copies(kc.realm) == old(Copies(kc.realm)) + {good}
    ensures ok ==> if good in old(Copies(kc.realm))
                   then kc.realm == old(kc.realm) && kc.history == old(kc.history) && kc.changed == old(kc.changed)
                   else kc.changed == old(kc.changed) + ["flow built"] && forall a :: !Accepted(old(kc.realm), a, spec)
    ensures Accepted(old(kc.realm), old(kc.realm.bound), spec) ==>
              kc.realm == old(kc.realm) && kc.history == old(kc.history) && kc.changed == old(kc.changed)
              && (ok ==> good == kc.realm.bound)
    ensures kc.reliable ==> (ok <==> (exists a :: Accepted(old(kc.realm), a, spec)) || CanBuild(old(kc.realm), free, spec))
  {
    good := free;
    var found;
    ok, found := FindGood(kc, candidates, spec);
    if !ok { return; }
    if found.Some? {
      good := found.value;
      assert Accepted(kc.realm, good, spec);
    } else {
      forall a ensures !Accepted(kc.realm, a, spec) {
        assert a in Copies(kc.realm) <==> a in candidates;
      }
      ok := BuildNew(kc, free, spec);
    }
  }

  /** Binds the flow when it is not bound yet, then removes the other copies. */
  method BindAndClean(kc: Admin, candidates: seq<string>, good: string, ghost start: Realm, ghost spec: seq<Node>)
    returns (ok: bool, ghost refused: set<string>)
    requires Accepted(kc.realm, good, spec) && InUseIsWhole(start, kc.realm, spec) && WellFormed(start)
    requires Distinct(candidates) && Copies(kc.realm) == {good} + Rest(candidates, 0)
    modifies kc
    ensures old(kc.history) <= kc.history && SafeFrom(start, kc.history, |old(kc.history)|, spec)
    ensures InUseIsWhole(start, kc.realm, spec)
    ensures ok ==> Accepted(kc.realm, kc.realm.bound, spec) && kc.realm.bound == good
    ensures old(kc.realm.bound) == good ==> kc.realm.bound == good
    ensures ok ==> Copies(kc.realm) == {good} + refused && good !in refused
    ensures ok ==> |kc.changed| == |old(kc.changed)| + Others(candidates, good, |candidates|)
                                   + if old(kc.realm.bound) == good then 0 else 1
    ensures old(kc.realm.bound) == good && Others(candidates, good, |candidates|) == 0
            ==> ok && kc.realm == old(kc.realm) && kc.history == old(kc.history) && kc.changed == old(kc.changed)
    ensures kc.reliable ==> ok && refused == {}
  {
    ok, refused := true, {};
    if kc.realm.bound != good {
      BindKeepsCopies(kc.realm, kc.realm.(bound := good));
      ok := BindFlow(kc, good, start, spec);
      if !ok { return; }
    }
    ghost var h1 := kc.history;
    ok, refused := DeleteOthers(kc, candidates, start, spec);
    JoinSafe(start, h1, kc.history, |old(kc.history)|, spec);
  }

  lemma CandidatesAreTheCopies(candidates: seq<string>, copies: set<string>)
    requires forall a :: a in candidates <==> a in copies
    ensures Rest(candidates, 0) == copies
  {
    forall a | a in copies ensures a in Rest(candidates, 0) {
      var j :| 0 <= j < |candidates| && candidates[j] == a;
    }
    forall a | a in Rest(candidates, 0) ensures a in copies {
      assert a in candidates;
    }
  }

  method BindFlow(kc: Admin, good: string, ghost start: Realm, ghost spec: seq<Node>) returns (ok: bool)
    requires Accepted(kc.realm, good, spec) && InUseIsWhole(start, kc.realm, spec)
    modifies kc
    ensures kc.realm == old(kc.realm) || kc.realm == old(kc.realm).(bound := good)
    ensures Accepted(kc.realm, good, spec) && InUseIsWhole(start, kc.realm, spec)
    ensures ok ==> kc.realm.bound == good && kc.changed == old(kc.changed) + ["browserFlow"]
    ensures old(kc.history) <= kc.history && SafeFrom(start, kc.history, |old(kc.history)|, spec)
    ensures kc.reliable ==> ok
  {
    ghost var r := kc.realm;
    ghost var s := r.(bound := good);
    assert WellFormed(s) by { StillRefers(r, s); }
    TreeOfFrame(r, s, good);
    CopiesAreOwn(good);
    ok := kc.Send(Bind(good), true);
    if ok {
      kc.Note("browserFlow");
    }
  }

  lemma BindKeepsCopies(r: Realm, s: Realm)
    requires s.flows == r.flows
    ensures Copies(s) == Copies(r)
  {
  }

  lemma JoinSafe(start: Realm, before: seq<Event>, history: seq<Event>, from: nat, spec: seq<Node>)
    requires before <= history && SafeFrom(start, before, from, spec) && SafeFrom(start, history, |before|, spec)
    ensures SafeFrom(start, history, from, spec)
  {
    forall i | from <= i < |history| ensures SafeEvent(start, history[i], spec) {
      if i < |before| { assert history[i] == before[i]; }
    }
  }

  lemma {:induction false} KeepDistinct(s: seq<string>, p: string -> bool)
    requires Distinct(s)
    ensures Distinct(Keep(s, p))
  {
    if s != [] {
      var front := s[..|s| - 1];
      KeepDistinct(front, p);
      forall i | 0 <= i < |Keep(front, p)| ensures Keep(front, p)[i] != s[|s| - 1] {
        assert Keep(front, p)[i] in front;
      }
    }
  }

  /** The same account for any server: a flow is accepted exactly when it is a copy at top level
      whose tree, names cut, is the specification up to empty subflows. */
  lemma AcceptedMeans(r: Realm, alias: string, spec: seq<Node>)
    requires WellFormed(r) && TopLevel(r, alias) && IsCopy(alias)
    ensures Accepted(r, alias, spec) <==> Normalize(Stripped(TreeOf(r, alias), SuffixOf(alias))) == Normalize(spec)
  {
    ComparisonMeans(TreeOf(r, alias), SuffixOf(alias), spec);
  }

  /** Two runs in a row: the second sends no changing call and records no change if and only if all
      deletes of the first went through. */
  method EnsureFlowTwice(kc: Admin, spec: seq<Node>)
    returns (first: bool, ghost refused: set<string>, ghost between: (Realm, seq<Event>, seq<string>), second: bool)
    requires WellFormed(kc.realm)
    modifies kc
    ensures first && refused == {} ==> Settled(between.0, spec) && (kc.realm, kc.history, kc.changed) == between
    ensures first && second && refused != {} ==> |kc.changed| > |between.2|
    ensures kc.reliable && first ==> second
  {
    ghost var free;
    first, refused, free := EnsureFlow(kc, spec);
    second := false;
    between := (kc.realm, kc.history, kc.changed);
    if first {
      ghost var again;
      second, again, free := EnsureFlow(kc, spec);
    }
  }

  /** A realm with the plain flow bound and one copy of it, both without executions. */
  function FlowAndCopy(other: string): Realm {
    Realm(map[FLOW := Flow(0, FLOW, []), other := Flow(1, other, [])], FLOW, 2)
  }

  /** A copy the server refused to delete, beside a bound flow that matches. */
  lemma RefusedCopyIsNotSettled(other: string)
    requires other == FLOW + "--1"
    ensures var r := FlowAndCopy(other);
            Accepted(r, r.bound, []) && Copies(r) == {r.bound, other} && !Settled(r, [])
  {
    var r := FlowAndCopy(other);
    assert FLOW + "--" <= other && |other| > |FLOW|;
    assert other in r.flows && FLOW in r.flows && r.flows.Keys == {FLOW, other};
    assert TopLevel(r, FLOW) && TopLevel(r, other);
    assert WellFormed(r);
    assert TreeOf(r, FLOW) == [] && SuffixOf(FLOW) == "";
    assert other in Copies(r);
  }

  /** The run after a refused DELETE records a change although nothing was left to build or bind. */
  method RunAfterRefusal(kc: Admin) returns (ok: bool)
    requires kc.realm == FlowAndCopy(FLOW + "--1")
    modifies kc
    ensures ok ==> |kc.changed| > |old(kc.changed)| && kc.realm.bound == FLOW
  {
    RefusedCopyIsNotSettled(FLOW + "--1");
    ghost var refused, free;
    ok, refused, free := EnsureFlow(kc, []);
  }
}
