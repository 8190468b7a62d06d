/** Building, comparing and binding the sign-in flow (scripts/keycloak_mfa.py), call by call.
    Every call may fail before or after it has landed, unless the server is reliable. */
module KeycloakFlow {
  import opened Basics
  import opened KeycloakShape
  import opened KeycloakServer

  const FLOW := "tn-browser"

  datatype Call =
    | CreateFlow(alias: string)
    | CreateSubFlow(parent: string, alias: string)
    | CreateExecution(parent: string, provider: string)
    | PutRequirement(id: nat, requirement: string)
    | CreateConfig(id: nat, config: Config)
    | Bind(alias: string)
    | Delete(alias: string)

  /** A call, how often it was sent, and the realm before and after. */
  datatype Event = Event(call: Call, sent: nat, before: Realm, after: Realm)

  /** What the server does when it accepts a call. */
  function Effect(r: Realm, call: Call): Realm {
    match call
    case CreateFlow(alias) => WithFlow(r, alias)
    case CreateSubFlow(parent, alias) => if parent in r.flows && alias !in r.flows then WithSubFlow(r, parent, alias) else r
    case CreateExecution(parent, provider) => if parent in r.flows then WithStep(r, parent, provider) else r
    case PutRequirement(id, requirement) => WithChanged(r, id, KeycloakServer.SetRequirement(requirement))
    case CreateConfig(id, config) => WithChanged(r, id, SetConfig(config))
    case Bind(alias) => r.(bound := alias)
    case Delete(alias) => WithoutFlow(r, alias)
  }

  /** The call landed as a whole or not at all; what creates something was sent just once. */
  ghost predicate SentRight(e: Event) {
    && (e.after == e.before || e.after == Effect(e.before, e.call))
    && 1 <= e.sent <= 5
    && (e.call.CreateFlow? || e.call.CreateSubFlow? || e.call.CreateExecution? || e.call.CreateConfig? ==> e.sent == 1)
  }

  // ── what a build below a flow may change ─────────────────────────────

  ghost predicate Grown(r: Realm, s: Realm, parent: string) {
    && parent in r.flows && parent in s.flows
    && s.bound == r.bound && r.nextId <= s.nextId
    && (forall a :: a in r.flows && a != parent ==> a in s.flows && s.flows[a] == r.flows[a])
    && s.flows[parent].id == r.flows[parent].id && s.flows[parent].root == r.flows[parent].root
    && r.flows[parent].executions <= s.flows[parent].executions
    && (forall a :: a in s.flows && a !in r.flows ==> s.flows[a].root == r.flows[parent].root)
  }

  lemma GrownTransitive(r: Realm, s: Realm, t: Realm, parent: string)
    requires Grown(r, s, parent) && Grown(s, t, parent)
    ensures Grown(r, t, parent)
  {
  }

  /** Growing a subflow that is new is growing its parent. */
  lemma GrownBelow(r: Realm, s: Realm, t: Realm, parent: string, sub: string)
    requires Grown(r, s, parent) && Grown(s, t, sub) && sub !in r.flows
    ensures Grown(r, t, parent)
  {
  }

  function Aliases(nodes: seq<Node>, suffix: string): set<string>
    decreases nodes
  {
    if nodes == [] then {} else NodeAliases(nodes[0], suffix) + Aliases(nodes[1..], suffix)
  }

  function NodeAliases(n: Node, suffix: string): set<string>
    decreases n
  {
    if n.SubFlow? then {n.flow + suffix} + Aliases(n.executions, suffix) else {}
  }

  /** Every name is usable and every subflow alias is new when its turn comes. */
  predicate Buildable(nodes: seq<Node>, suffix: string, taken: set<string>)
    decreases nodes
  {
    nodes == [] ||
    (NodeBuildable(nodes[0], suffix, taken) && Buildable(nodes[1..], suffix, taken + NodeAliases(nodes[0], suffix)))
  }

  predicate NodeBuildable(n: Node, suffix: string, taken: set<string>)
    decreases n
  {
    if n.Provider? then n.provider != ""
    else
      && n.flow + suffix != "" && n.flow + suffix !in taken
      && Buildable(n.executions, suffix, taken + {n.flow + suffix})
  }

  lemma {:induction false} AliasesConcat(a: seq<Node>, b: seq<Node>, suffix: string)
    ensures Aliases(a + b, suffix) == Aliases(a, suffix) + Aliases(b, suffix)
  {
    if a == [] {
      assert a + b == b;
    } else {
      AliasesConcat(a[1..], b, suffix);
      assert (a + b)[1..] == a[1..] + b;
    }
  }

  lemma SuffixedAppend(nodes: seq<Node>, n: Node, suffix: string)
    ensures Suffixed(nodes + [n], suffix) == Suffixed(nodes, suffix) + [SuffixedNode(n, suffix)]
    ensures Aliases(nodes + [n], suffix) == Aliases(nodes, suffix) + NodeAliases(n, suffix)
  {
    SuffixedConcat(nodes, [n], suffix);
    AliasesConcat(nodes, [n], suffix);
    assert [n][1..] == [];
  }

  /** The executions of `parent` beyond the first `n`, as a forest. */
  ghost function Added(r: Realm, parent: string, n: nat): seq<Node>
    requires WellFormed(r) && parent in r.flows && n <= |r.flows[parent].executions|
  {
    var f := r.flows[parent];
    assert AllRefer(r, f.executions[n..], f.id, f.root);
    Tree(r, f.executions[n..], f.id, f.root)
  }

  /** Executions already there keep their meaning while the parent grows. */
  lemma GrownKeepsAdded(r: Realm, s: Realm, parent: string, n: nat)
    requires WellFormed(r) && WellFormed(s) && Grown(r, s, parent)
    requires n <= |r.flows[parent].executions|
    ensures n <= |r.flows[parent].executions| <= |s.flows[parent].executions|
    ensures Added(s, parent, n) == Added(r, parent, n) + Added(s, parent, |r.flows[parent].executions|)
  {
    var f, g := r.flows[parent], s.flows[parent];
    var m := |f.executions|;
    assert AllRefer(r, f.executions[n..], f.id, f.root);
    TreeFrame(r, s, f.executions[n..], f.id, f.root);
    assert g.executions[n..] == f.executions[n..] + g.executions[m..];
    assert AllRefer(s, g.executions[m..], f.id, f.root);
    TreeConcat(s, f.executions[n..], g.executions[m..], f.id, f.root);
  }

  lemma AddedOne(r: Realm, parent: string, n: nat)
    requires WellFormed(r) && parent in r.flows && |r.flows[parent].executions| == n + 1
    ensures var e := r.flows[parent].executions[n];
            Refers(r, e, r.flows[parent].id, r.flows[parent].root) &&
            Added(r, parent, n) == [if e.kind.Step? then Provider(e.kind.provider, e.requirement, e.kind.config)
                                    else SubFlow(e.kind.alias, e.requirement, TreeOf(r, e.kind.alias))]
  {
    var f := r.flows[parent];
    var e := f.executions[n];
    assert Refers(r, e, f.id, f.root);
    assert f.executions[n..] == [e];
    assert AllRefer(r, [e], f.id, f.root);
    assert [e][1..] == [];
    assert Tree(r, [e][1..], f.id, f.root) == [];
  }

  /** The realm with one execution appended to `parent`. */
  function Appended(r: Realm, parent: string, e: Execution, nextId: nat): Realm
    requires parent in r.flows
  {
    var f := r.flows[parent];
    r.(flows := r.flows[parent := f.(executions := f.executions + [e])], nextId := nextId)
  }

  /** The realm a new subflow starts from: its flow exists, nothing points at it yet. */
  function WithEmptyFlow(r: Realm, parent: string, alias: string): Realm
    requires parent in r.flows
  {
    r.(flows := r.flows[alias := Flow(r.nextId, r.flows[parent].root, [])], nextId := r.nextId + 1)
  }

  lemma AppendedIsGrown(r: Realm, parent: string, e: Execution)
    requires WellFormed(r) && parent in r.flows
    requires e.id == r.nextId && Refers(r.(nextId := r.nextId + 1), e, r.flows[parent].id, r.flows[parent].root)
    ensures var s := Appended(r, parent, e, r.nextId + 1);
            WellFormed(s) && Grown(r, s, parent) && Newest(s, parent, e.id)
  {
    var s := Appended(r, parent, e, r.nextId + 1);
    StillRefers(r, s);
    var es := s.flows[parent].executions;
    forall i | 0 <= i < |es| ensures Refers(s, es[i], s.flows[parent].id, s.flows[parent].root) {
      if i < |es| - 1 {
        assert Refers(s, r.flows[parent].executions[i], s.flows[parent].id, s.flows[parent].root);
      }
    }
    forall a, i | a in s.flows && 0 <= i < |s.flows[a].executions|
      ensures s.flows[a].executions[i].id == e.id <==> a == parent && i == |s.flows[a].executions| - 1
    {
      if i < |r.flows[a].executions| {
        assert Refers(r, r.flows[a].executions[i], r.flows[a].id, r.flows[a].root);
      }
    }
  }

  /** Changing the newest execution is having appended it changed. */
  lemma ChangeAppended(r: Realm, parent: string, e: Execution, nextId: nat, to: Execution -> Execution)
    requires parent in r.flows && Newest(Appended(r, parent, e, nextId), parent, e.id)
    ensures WithChanged(Appended(r, parent, e, nextId), e.id, to) == Appended(r, parent, to(e), nextId)
  {
    var s := Appended(r, parent, e, nextId);
    ChangeNewest(s, parent, e.id, to);
    var es := s.flows[parent].executions;
    assert es[..|es| - 1] == r.flows[parent].executions;
  }

  lemma EmptyFlowIsGrown(r: Realm, parent: string, alias: string)
    requires WellFormed(r) && parent in r.flows && alias !in r.flows
    ensures var s := WithEmptyFlow(r, parent, alias);
            && WellFormed(s) && Grown(r, s, parent) && s.flows.Keys == r.flows.Keys + {alias}
            && WithSubFlow(r, parent, alias)
               == Appended(s, parent, Execution(s.nextId, NEW_REQUIREMENT, Branch(alias)), s.nextId + 1)
  {
    StillRefers(r, WithEmptyFlow(r, parent, alias));
  }

  lemma SubFlowIsGrown(r: Realm, parent: string, alias: string)
    requires WellFormed(r) && parent in r.flows && alias !in r.flows
    ensures WellFormed(WithSubFlow(r, parent, alias)) && Grown(r, WithSubFlow(r, parent, alias), parent)
  {
    var s := WithEmptyFlow(r, parent, alias);
    EmptyFlowIsGrown(r, parent, alias);
    AppendedIsGrown(s, parent, Execution(s.nextId, NEW_REQUIREMENT, Branch(alias)));
    GrownTransitive(r, s, WithSubFlow(r, parent, alias), parent);
  }

  // ── finding the execution just added ─────────────────────────────────

  /** What to look for: an execution of a provider, or a subflow. */
  datatype Wanted = ByProvider(provider: string) | ByDisplay(display: string)

  predicate IsWanted(row: ApiRow, wanted: Wanted) {
    match wanted
    case ByProvider(provider) => provider != "" && row.name == provider && !row.isFlow
    case ByDisplay(display) => display != "" && row.isFlow && row.name == display
  }

  function LastExecution(rows: seq<ApiRow>, wanted: Wanted): Option<ApiRow> {
    if rows == [] then None
    else
      var n := |rows| - 1;
      if rows[n].level == 0 && IsWanted(rows[n], wanted) then Some(rows[n])
      else LastExecution(rows[..n], wanted)
  }

  /** A row of the flow itself, of the kind and under the name looked for. */
  ghost predicate Answers(row: ApiRow, wanted: Wanted) {
    row.level == 0 && row.name != "" && wanted == if row.isFlow then ByDisplay(row.name) else ByProvider(row.name)
  }

  ghost predicate LastAnswer(rows: seq<ApiRow>, wanted: Wanted, i: int) {
    0 <= i < |rows| && Answers(rows[i], wanted) && forall j :: i < j < |rows| ==> !Answers(rows[j], wanted)
  }

  lemma WantedMeans(row: ApiRow, wanted: Wanted)
    ensures Answers(row, wanted) <==> row.level == 0 && IsWanted(row, wanted)
  {
  }

  /** The search answers the last such row, and none only when there is none. */
  lemma {:induction false} LastExecutionMeans(rows: seq<ApiRow>, wanted: Wanted)
    ensures LastExecution(rows, wanted).None? <==> forall i :: 0 <= i < |rows| ==> !Answers(rows[i], wanted)
    ensures LastExecution(rows, wanted).Some? ==> exists i :: LastAnswer(rows, wanted, i) && rows[i] == LastExecution(rows, wanted).value
  {
    if rows != [] {
      var n := |rows| - 1;
      WantedMeans(rows[n], wanted);
      if Answers(rows[n], wanted) {
        assert LastAnswer(rows, wanted, n);
      } else {
        var front := rows[..n];
        LastExecutionMeans(front, wanted);
        assert forall i :: 0 <= i < n ==> rows[i] == front[i];
        if i :| LastAnswer(front, wanted, i) && LastExecution(front, wanted) == Some(front[i]) {
          assert LastAnswer(rows, wanted, i);
        }
      }
    }
  }

  lemma {:induction false} NothingWanted(rows: seq<ApiRow>, wanted: Wanted)
    requires wanted == ByProvider("") || wanted == ByDisplay("")
    ensures LastExecution(rows, wanted) == None
  {
    if rows != [] {
      NothingWanted(rows[..|rows| - 1], wanted);
    }
  }

  lemma {:induction false} RowsConcat(r: Realm, a: seq<Execution>, b: seq<Execution>, floor: nat, root: string, level: nat)
    requires WellFormed(r) && AllRefer(r, a, floor, root) && AllRefer(r, b, floor, root)
    ensures AllRefer(r, a + b, floor, root)
    ensures ApiRows(r, a + b, floor, root, level) == ApiRows(r, a, floor, root, level) + ApiRows(r, b, floor, root, level)
  {
    if a == [] {
      assert a + b == b;
    } else {
      RowsConcat(r, a[1..], b, floor, root, level);
      assert (a + b)[1..] == a[1..] + b;
    }
  }

  /** However often the provider or name occurs below the flow, the search finds the execution
      added last. */
  lemma LastExecutionIsTheNewest(r: Realm, parent: string, wanted: Wanted)
    requires WellFormed(r) && parent in r.flows && r.flows[parent].executions != []
    requires var e := Last(r.flows[parent].executions);
             if e.kind.Step? then wanted == ByProvider(e.kind.provider) && e.kind.config == map[]
             else e.kind.alias in r.flows && r.flows[e.kind.alias].executions == [] && wanted == ByDisplay(e.kind.alias)
    ensures var f := r.flows[parent];
            var e := Last(f.executions);
            LastExecution(ApiRows(r, f.executions, f.id, f.root, 0), wanted) ==
              if wanted == ByProvider("") || wanted == ByDisplay("") then None
              else Some(ApiRow(e.id, 0, if e.kind.Step? then e.kind.provider else e.kind.alias, e.kind.Branch?,
                               e.requirement, map[]))
  {
    var f := r.flows[parent];
    var n := |f.executions| - 1;
    var e := f.executions[n];
    var rows := ApiRows(r, f.executions, f.id, f.root, 0);
    if wanted == ByProvider("") || wanted == ByDisplay("") {
      NothingWanted(rows, wanted);
    } else {
      assert Refers(r, e, f.id, f.root);
      assert f.executions == f.executions[..n] + [e];
      assert AllRefer(r, f.executions[..n], f.id, f.root) && AllRefer(r, [e], f.id, f.root);
      RowsConcat(r, f.executions[..n], [e], f.id, f.root, 0);
      assert [e][1..] == [];
      var row := ApiRow(e.id, 0, if e.kind.Step? then e.kind.provider else e.kind.alias, e.kind.Branch?, e.requirement, map[]);
      assert ApiRows(r, [e], f.id, f.root, 0) == [row];
      assert rows[|rows| - 1] == row;
    }
  }

  // ── the script against the server ────────────────────────────────────

  /** The events from `from` on belong to a build below `parent`: nothing is bound or deleted,
      and what existed before keeps standing. */
  ghost predicate BuildEvents(r: Realm, history: seq<Event>, from: nat, parent: string) {
    forall i :: from <= i < |history| ==>
      && SentRight(history[i]) && !history[i].call.Bind? && !history[i].call.Delete? && !history[i].call.CreateFlow?
      && Grown(r, history[i].after, parent) && WellFormed(history[i].after)
  }

  lemma JoinEvents(r: Realm, before: seq<Event>, history: seq<Event>, from: nat, parent: string)
    requires before <= history && BuildEvents(r, before, from, parent) && BuildEvents(r, history, |before|, parent)
    ensures BuildEvents(r, history, from, parent)
  {
    forall i | from <= i < |history|
      ensures SentRight(history[i]) && !history[i].call.Bind? && !history[i].call.Delete? && !history[i].call.CreateFlow?
      ensures Grown(r, history[i].after, parent) && WellFormed(history[i].after)
    {
      if i < |before| {
        assert history[i] == before[i];
      }
    }
  }

  /** A build below `parent`, carried on from a later realm. */
  lemma FurtherEvents(r: Realm, s: Realm, before: seq<Event>, history: seq<Event>, from: nat, parent: string)
    requires Grown(r, s, parent) && before <= history
    requires BuildEvents(r, before, from, parent) && BuildEvents(s, history, |before|, parent)
    ensures BuildEvents(r, history, from, parent)
  {
    LaterEvents(r, s, history, |before|, parent);
    JoinEvents(r, before, history, from, parent);
  }

  class Admin {
    const reliable: bool
    var realm: Realm
    var changed: seq<string>
    ghost var history: seq<Event>

    constructor (realm: Realm, reliable: bool)
      requires WellFormed(realm)
      ensures this.realm == realm && changed == [] && history == [] && this.reliable == reliable
    {
      this.realm, this.reliable := realm, reliable;
      changed, history := [], [];
    }

    method Note(what: string)
      modifies this`changed
      ensures changed == old(changed) + [what]
    {
      changed := changed + [what];
    }

    /** One request with its retries: PUT and DELETE are sent up to five times, a POST once.
        `allowed` is whether the server accepts it; any attempt may land, or not, and its
        answer may be lost. */
    method Send(call: Call, allowed: bool) returns (ok: bool)
      modifies this`realm, this`history
      ensures |history| == |old(history)| + 1 && old(history) <= history
      ensures var e := history[|old(history)|];
              SentRight(e) && e.call == call && e.before == old(realm) && e.after == realm
      ensures realm == old(realm) || (allowed && realm == Effect(old(realm), call))
      ensures ok ==> allowed && realm == Effect(old(realm), call)
      ensures reliable && allowed ==> ok
    {
      ok := false;
      ghost var before := realm;
      var effect := Effect(realm, call);
      var attempts := if call.PutRequirement? || call.Bind? || call.Delete? then 5 else 1;
      var attempt := 0;
      var finished := false;
      while attempt < attempts && !finished
        invariant 0 <= attempt <= attempts
        invariant finished || attempt == 0 ==> (ok ==> allowed && realm == effect)
        invariant !finished ==> !ok
        invariant realm == before || (allowed && realm == effect)
        invariant history == old(history)
        invariant reliable && allowed && attempt > 0 ==> ok
        invariant finished ==> attempt > 0
      {
        attempt := attempt + 1;
        if reliable && allowed {
          realm, ok, finished := effect, true, true;
        } else {
          var landed: bool := *;
          if landed && allowed {
            realm := effect;
          }
          var answered: bool := *;
          if answered {
            ok := landed && allowed;
            finished := true;
          }
        }
      }
      history := history + [Event(call, attempt, before, realm)];
    }

    /** The flow's rows, or no answer. */
    method Get() returns (answered: bool)
      ensures reliable ==> answered
    {
      answered := *;
      if reliable {
        answered := true;
      }
    }

    /** Sets the requirement of the execution just appended to `parent`. */
    method SetRequirement(parent: string, ex: ApiRow, requirement: string, ghost base: Realm, ghost kind: Kind)
      returns (ok: bool)
      requires WellFormed(base) && parent in base.flows && ex.id == base.nextId
      requires Refers(base.(nextId := base.nextId + 1), Execution(ex.id, ex.requirement, kind), base.flows[parent].id, base.flows[parent].root)
      requires realm == Appended(base, parent, Execution(ex.id, ex.requirement, kind), base.nextId + 1)
      modifies this`realm, this`history
      ensures ok ==> realm == Appended(base, parent, Execution(ex.id, requirement, kind), base.nextId + 1)
      ensures WellFormed(realm) && Grown(base, realm, parent) && realm.flows.Keys == base.flows.Keys
      ensures old(history) <= history && BuildEvents(base, history, |old(history)|, parent)
      ensures reliable ==> ok
    {
      ghost var e := Execution(ex.id, ex.requirement, kind);
      AppendedIsGrown(base, parent, e);
      AppendedIsGrown(base, parent, e.(requirement := requirement));
      if ex.requirement != requirement {
        ChangeAppended(base, parent, e, base.nextId + 1, KeycloakServer.SetRequirement(requirement));
        ok := Send(PutRequirement(ex.id, requirement), true);
      } else {
        ok := true;
      }
    }

    /** One node below `parent`: the execution, its requirement, then its children or its
        configuration. */
    method AddExecution(parent: string, node: Node, suffix: string) returns (ok: bool)
      requires WellFormed(realm) && parent in realm.flows
      modifies this`realm, this`history
      decreases node, 0
      ensures WellFormed(realm) && Grown(old(realm), realm, parent)
      ensures old(history) <= history && BuildEvents(old(realm), history, |old(history)|, parent)
      ensures ok ==> Added(realm, parent, |old(realm.flows[parent].executions)|) == [SuffixedNode(node, suffix)]
      ensures ok ==> realm.flows.Keys == old(realm.flows.Keys) + NodeAliases(node, suffix)
      ensures ok ==> NodeBuildable(node, suffix, old(realm.flows.Keys))
      ensures reliable && NodeBuildable(node, suffix, old(realm.flows.Keys)) ==> ok
    {
      match node {
        case Provider(provider, requirement, config) =>
          ok := AddStep(parent, provider, requirement, config);
        case SubFlow(flow, requirement, executions) =>
          ok := AddSubFlow(parent, flow, requirement, executions, suffix);
      }
    }

    method AddStep(parent: string, provider: string, requirement: string, config: Config) returns (ok: bool)
      requires WellFormed(realm) && parent in realm.flows
      modifies this`realm, this`history
      ensures WellFormed(realm) && Grown(old(realm), realm, parent)
      ensures old(history) <= history && BuildEvents(old(realm), history, |old(history)|, parent)
      ensures realm.flows.Keys == old(realm.flows.Keys)
      ensures ok ==> provider != ""
      ensures ok ==> Added(realm, parent, |old(realm.flows[parent].executions)|) == [Provider(provider, requirement, config)]
      ensures reliable && provider != "" ==> ok
    {
      ghost var r0, h0 := realm, history;
      var ex;
      ok, ex := PostStep(parent, provider);
      if !ok { return; }
      ghost var h1 := history;
      ok := SetRequirement(parent, ex, requirement, r0, Step(provider, map[]));
      JoinEvents(r0, h1, history, |h0|, parent);
      if !ok { return; }
      if config != map[] {
        ghost var h2 := history;
        ok := PostConfig(parent, ex, requirement, config, provider, r0);
        JoinEvents(r0, h2, history, |h0|, parent);
      }
      if ok {
        AddedOne(realm, parent, |r0.flows[parent].executions|);
      }
    }

    method PostStep(parent: string, provider: string) returns (ok: bool, ex: ApiRow)
      requires WellFormed(realm) && parent in realm.flows
      modifies this`realm, this`history
      ensures WellFormed(realm) && Grown(old(realm), realm, parent) && realm.flows.Keys == old(realm.flows.Keys)
      ensures old(history) <= history && BuildEvents(old(realm), history, |old(history)|, parent)
      ensures ok ==> provider != "" && ex.id == old(realm.nextId)
                     && realm == Appended(old(realm), parent, Execution(ex.id, ex.requirement, Step(provider, map[])), ex.id + 1)
      ensures reliable && provider != "" ==> ok
    {
      ghost var e := Execution(realm.nextId, NEW_REQUIREMENT, Step(provider, map[]));
      AppendedIsGrown(realm, parent, e);
      ex := ApiRow(0, 0, "", false, "", map[]);
      ok := Send(CreateExecution(parent, provider), true);
      if !ok { return; }
      ok := Get();
      if !ok { return; }
      var f := realm.flows[parent];
      LastExecutionIsTheNewest(realm, parent, ByProvider(provider));
      var found := LastExecution(ApiRows(realm, f.executions, f.id, f.root, 0), ByProvider(provider));
      if found.None? { ok := false; } else { ex := found.value; }
    }

    method PostConfig(parent: string, ex: ApiRow, requirement: string, config: Config, provider: string, ghost base: Realm)
      returns (ok: bool)
      requires WellFormed(base) && parent in base.flows && ex.id == base.nextId
      requires realm == Appended(base, parent, Execution(ex.id, requirement, Step(provider, map[])), base.nextId + 1)
      modifies this`realm, this`history
      ensures WellFormed(realm) && Grown(base, realm, parent) && realm.flows.Keys == base.flows.Keys
      ensures old(history) <= history && BuildEvents(base, history, |old(history)|, parent)
      ensures ok ==> realm == Appended(base, parent, Execution(ex.id, requirement, Step(provider, config)), base.nextId + 1)
      ensures reliable ==> ok
    {
      ghost var e := Execution(ex.id, requirement, Step(provider, map[]));
      AppendedIsGrown(base, parent, e);
      ChangeAppended(base, parent, e, base.nextId + 1, SetConfig(config));
      AppendedIsGrown(base, parent, e.(kind := Step(provider, config)));
      ok := Send(CreateConfig(ex.id, config), true);
    }

    method AddSubFlow(parent: string, flow: string, requirement: string, executions: seq<Node>, suffix: string)
      returns (ok: bool)
      requires WellFormed(realm) && parent in realm.flows
      modifies this`realm, this`history
      decreases executions, 2
      ensures WellFormed(realm) && Grown(old(realm), realm, parent)
      ensures old(history) <= history && BuildEvents(old(realm), history, |old(history)|, parent)
      ensures ok ==> Added(realm, parent, |old(realm.flows[parent].executions)|)
                     == [SubFlow(flow + suffix, requirement, Suffixed(executions, suffix))]
      ensures ok ==> realm.flows.Keys == old(realm.flows.Keys) + {flow + suffix} + Aliases(executions, suffix)
      ensures var sub := flow + suffix;
              var fits := sub != "" && sub !in old(realm.flows) && Buildable(executions, suffix, old(realm.flows.Keys) + {sub});
              (ok ==> fits) && (reliable && fits ==> ok)
    {
      var sub := flow + suffix;
      ok := AddEmptySubFlow(parent, sub, requirement);
      if !ok { return; }
      ghost var r1, h1 := realm, history;
      ok := AddExecutions(sub, executions, suffix);
      GrownBelow(old(realm), r1, realm, parent, sub);
      BelowEvents(old(realm), r1, history, |h1|, parent, sub);
      JoinEvents(old(realm), h1, history, |old(history)|, parent);
      if ok {
        AddedOne(realm, parent, |old(realm.flows[parent].executions)|);
        assert realm.flows[sub].executions[0..] == realm.flows[sub].executions;
      }
    }

    method AddEmptySubFlow(parent: string, sub: string, requirement: string) returns (ok: bool)
      requires WellFormed(realm) && parent in realm.flows
      modifies this`realm, this`history
      ensures WellFormed(realm) && Grown(old(realm), realm, parent)
      ensures old(history) <= history && BuildEvents(old(realm), history, |old(history)|, parent)
      ensures ok ==> sub != "" && sub !in old(realm.flows) && realm.flows.Keys == old(realm.flows.Keys) + {sub}
      ensures ok ==> realm.flows[sub].executions == []
      ensures ok ==> var es := realm.flows[parent].executions;
                     |es| == |old(realm.flows[parent].executions)| + 1
                     && Last(es).requirement == requirement && Last(es).kind == Branch(sub)
      ensures reliable && sub != "" && sub !in old(realm.flows) ==> ok
    {
      ghost var r0 := realm;
      var ex;
      ok, ex := PostSubFlow(parent, sub);
      if !ok { return; }
      ghost var base := WithEmptyFlow(r0, parent, sub);
      EmptyFlowIsGrown(r0, parent, sub);
      ghost var h1 := history;
      ok := SetRequirement(parent, ex, requirement, base, Branch(sub));
      GrownTransitive(r0, base, realm, parent);
      FurtherEvents(r0, base, h1, history, |old(history)|, parent);
    }

    method PostSubFlow(parent: string, sub: string) returns (ok: bool, ex: ApiRow)
      requires WellFormed(realm) && parent in realm.flows
      modifies this`realm, this`history
      ensures WellFormed(realm) && Grown(old(realm), realm, parent)
      ensures old(history) <= history && BuildEvents(old(realm), history, |old(history)|, parent)
      ensures ok ==> sub != "" && sub !in old(realm.flows)
      ensures ok ==> var base := WithEmptyFlow(old(realm), parent, sub);
                     && ex.id == base.nextId
                     && realm == Appended(base, parent, Execution(ex.id, ex.requirement, Branch(sub)), ex.id + 1)
      ensures reliable && sub != "" && sub !in old(realm.flows) ==> ok
    {
      ghost var r0 := realm;
      var allowed := sub !in realm.flows;
      ex := ApiRow(0, 0, "", true, "", map[]);
      if allowed {
        SubFlowIsGrown(r0, parent, sub);
      }
      ok := Send(CreateSubFlow(parent, sub), allowed);
      if !ok { return; }
      ok := Get();
      if !ok { return; }
      var f := realm.flows[parent];
      LastExecutionIsTheNewest(realm, parent, ByDisplay(sub));
      var found := LastExecution(ApiRows(realm, f.executions, f.id, f.root, 0), ByDisplay(sub));
      if found.None? { ok := false; } else { ex := found.value; }
    }

    method AddExecutions(parent: string, nodes: seq<Node>, suffix: string) returns (ok: bool)
      requires WellFormed(realm) && parent in realm.flows
      modifies this`realm, this`history
      decreases nodes, 1
      ensures WellFormed(realm) && Grown(old(realm), realm, parent)
      ensures old(history) <= history && BuildEvents(old(realm), history, |old(history)|, parent)
      ensures ok ==> Added(realm, parent, |old(realm.flows[parent].executions)|) == Suffixed(nodes, suffix)
      ensures ok ==> realm.flows.Keys == old(realm.flows.Keys) + Aliases(nodes, suffix)
      ensures ok ==> Buildable(nodes, suffix, old(realm.flows.Keys))
      ensures reliable && Buildable(nodes, suffix, old(realm.flows.Keys)) ==> ok
    {
      ghost var r0 := realm;
      ok := true;
      var i := 0;
      while i < |nodes|
        invariant 0 <= i <= |nodes| && ok
        invariant AddedSoFar(r0, realm, parent, nodes, i, suffix)
        invariant old(history) <= history && BuildEvents(r0, history, |old(history)|, parent)
      {
        ghost var r1, h1 := realm, history;
        ok := AddExecution(parent, nodes[i], suffix);
        GrownTransitive(r0, r1, realm, parent);
        FurtherEvents(r0, r1, h1, history, |old(history)|, parent);
        BuildableNext(nodes, i, suffix, r1.flows.Keys);
        if !ok { return; }
        OneMoreAdded(r0, r1, realm, parent, nodes, i, suffix);
        i := i + 1;
      }
      assert nodes[..i] == nodes;
    }
  }

  /** The first i nodes stand below `parent`, and the rest can be built as well as before. */
  ghost predicate AddedSoFar(r0: Realm, r: Realm, parent: string, nodes: seq<Node>, i: nat, suffix: string)
    requires parent in r0.flows
  {
    && i <= |nodes| && WellFormed(r0) && WellFormed(r) && Grown(r0, r, parent)
    && Added(r, parent, |r0.flows[parent].executions|) == Suffixed(nodes[..i], suffix)
    && r.flows.Keys == r0.flows.Keys + Aliases(nodes[..i], suffix)
    && (Buildable(nodes, suffix, r0.flows.Keys) <==> Buildable(nodes[i..], suffix, r.flows.Keys))
  }

  lemma BuildableNext(nodes: seq<Node>, i: nat, suffix: string, taken: set<string>)
    requires i < |nodes|
    ensures Buildable(nodes[i..], suffix, taken) <==>
            NodeBuildable(nodes[i], suffix, taken) && Buildable(nodes[i + 1..], suffix, taken + NodeAliases(nodes[i], suffix))
  {
    assert nodes[i..][0] == nodes[i] && nodes[i..][1..] == nodes[i + 1..];
  }

  lemma OneMoreAdded(r0: Realm, r1: Realm, r: Realm, parent: string, nodes: seq<Node>, i: nat, suffix: string)
    requires parent in r0.flows && i < |nodes| && AddedSoFar(r0, r1, parent, nodes, i, suffix)
    requires WellFormed(r) && Grown(r1, r, parent) && NodeBuildable(nodes[i], suffix, r1.flows.Keys)
    requires Added(r, parent, |r1.flows[parent].executions|) == [SuffixedNode(nodes[i], suffix)]
    requires r.flows.Keys == r1.flows.Keys + NodeAliases(nodes[i], suffix)
    ensures AddedSoFar(r0, r, parent, nodes, i + 1, suffix)
  {
    GrownTransitive(r0, r1, r, parent);
    GrownKeepsAdded(r1, r, parent, |r0.flows[parent].executions|);
    SuffixedAppend(nodes[..i], nodes[i], suffix);
    BuildableNext(nodes, i, suffix, r1.flows.Keys);
    assert nodes[..i + 1] == nodes[..i] + [nodes[i]];
  }

  lemma BelowEvents(r: Realm, s: Realm, history: seq<Event>, from: nat, parent: string, sub: string)
    requires Grown(r, s, parent) && sub !in r.flows && BuildEvents(s, history, from, sub)
    ensures BuildEvents(r, history, from, parent)
  {
    forall i | from <= i < |history| ensures Grown(r, history[i].after, parent) {
      GrownBelow(r, s, history[i].after, parent, sub);
    }
  }

  lemma LaterEvents(r: Realm, s: Realm, history: seq<Event>, from: nat, parent: string)
    requires Grown(r, s, parent) && BuildEvents(s, history, from, parent)
    ensures BuildEvents(r, history, from, parent)
  {
    forall i | from <= i < |history| ensures Grown(r, history[i].after, parent) {
      GrownTransitive(r, s, history[i].after, parent);
    }
  }
}
