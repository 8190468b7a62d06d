/** The part of a Keycloak realm that scripts/keycloak_mfa.py changes when it builds a sign-in
    flow: named flows, each an ordered list of executions, a subflow being an execution that
    points at another flow. A GET flattens a flow recursively; new executions go last. */
module KeycloakServer {
  import opened KeycloakShape

  /** What a new execution requires until it is set. */
  const NEW_REQUIREMENT := "DISABLED"

  datatype Kind = Step(provider: string, config: Config) | Branch(alias: string)

  datatype Execution = Execution(id: nat, requirement: string, kind: Kind)

  /** `root` is the top-level flow this flow was created under; a top-level flow is its own. */
  datatype Flow = Flow(id: nat, root: string, executions: seq<Execution>)

  datatype Realm = Realm(flows: map<string, Flow>, bound: string, nextId: nat)

  /** An execution of a flow: a subflow is newer than the flow and under the same root. */
  predicate Refers(r: Realm, e: Execution, floor: nat, root: string) {
    e.id < r.nextId &&
    (e.kind.Branch? ==>
      var a := e.kind.alias;
      a in r.flows && floor < r.flows[a].id && r.flows[a].root == root)
  }

  predicate AllRefer(r: Realm, es: seq<Execution>, floor: nat, root: string) {
    forall i :: 0 <= i < |es| ==> Refers(r, es[i], floor, root)
  }

  predicate WellFormed(r: Realm) {
    forall a :: a in r.flows ==>
      r.flows[a].id < r.nextId && AllRefer(r, r.flows[a].executions, r.flows[a].id, r.flows[a].root)
  }

  // ── reading a flow ───────────────────────────────────────────────────

  /** The forest the executions stand for. */
  ghost function Tree(r: Realm, es: seq<Execution>, floor: nat, root: string): seq<Node>
    requires WellFormed(r) && AllRefer(r, es, floor, root)
    decreases r.nextId - floor, |es|
  {
    if es == [] then []
    else
      var rest := Tree(r, es[1..], floor, root);
      assert Refers(r, es[0], floor, root);
      match es[0].kind
      case Step(provider, config) => [Provider(provider, es[0].requirement, config)] + rest
      case Branch(a) =>
        var f := r.flows[a];
        [SubFlow(a, es[0].requirement, Tree(r, f.executions, f.id, f.root))] + rest
  }

  ghost function TreeOf(r: Realm, alias: string): seq<Node>
    requires WellFormed(r) && alias in r.flows
  {
    var f := r.flows[alias];
    Tree(r, f.executions, f.id, f.root)
  }

  /** One row of GET .../executions. */
  datatype ApiRow = ApiRow(id: nat, level: nat, name: string, isFlow: bool, requirement: string, config: Config)

  function ApiRows(r: Realm, es: seq<Execution>, floor: nat, root: string, level: nat): seq<ApiRow>
    requires WellFormed(r) && AllRefer(r, es, floor, root)
    decreases r.nextId - floor, |es|
  {
    if es == [] then []
    else
      var rest := ApiRows(r, es[1..], floor, root, level);
      var e := es[0];
      assert Refers(r, e, floor, root);
      match e.kind
      case Step(provider, config) => [ApiRow(e.id, level, provider, false, e.requirement, config)] + rest
      case Branch(a) =>
        var f := r.flows[a];
        [ApiRow(e.id, level, a, true, e.requirement, map[])]
          + ApiRows(r, f.executions, f.id, f.root, level + 1) + rest
  }

  function Comparable(row: ApiRow): Row {
    Row(row.level, row.name, row.requirement, row.config)
  }

  function AllComparable(rows: seq<ApiRow>): seq<Row> {
    if rows == [] then [] else AllComparable(rows[..|rows| - 1]) + [Comparable(rows[|rows| - 1])]
  }

  lemma {:induction false} ComparableConcat(a: seq<ApiRow>, b: seq<ApiRow>)
    ensures AllComparable(a + b) == AllComparable(a) + AllComparable(b)
  {
    if b == [] {
      assert a + b == a;
    } else {
      var n := |b| - 1;
      ComparableConcat(a, b[..n]);
      assert (a + b)[..|a + b| - 1] == a + b[..n];
    }
  }

  /** What the flattened GET shows is the shape of the forest. */
  lemma {:induction false} RowsShowTheTree(r: Realm, es: seq<Execution>, floor: nat, root: string, level: nat)
    requires WellFormed(r) && AllRefer(r, es, floor, root)
    ensures AllComparable(ApiRows(r, es, floor, root, level)) == ExpectedShape(Tree(r, es, floor, root), level)
    decreases r.nextId - floor, |es|
  {
    if es != [] {
      assert Refers(r, es[0], floor, root);
      var rest := ApiRows(r, es[1..], floor, root, level);
      RowsShowTheTree(r, es[1..], floor, root, level);
      assert Tree(r, es, floor, root)[1..] == Tree(r, es[1..], floor, root);
      match es[0].kind
      case Step(provider, config) =>
        ComparableOne(ApiRow(es[0].id, level, provider, false, es[0].requirement, config));
        ComparableConcat([ApiRow(es[0].id, level, provider, false, es[0].requirement, config)], rest);
      case Branch(a) =>
        var f := r.flows[a];
        var head := ApiRow(es[0].id, level, a, true, es[0].requirement, map[]);
        var inner := ApiRows(r, f.executions, f.id, f.root, level + 1);
        RowsShowTheTree(r, f.executions, f.id, f.root, level + 1);
        ComparableOne(head);
        ComparableConcat([head], inner);
        ComparableConcat([head] + inner, rest);
    }
  }

  lemma ComparableOne(row: ApiRow)
    ensures AllComparable([row]) == [Comparable(row)]
  {
    assert [row][..0] == [];
  }

  lemma {:induction false} TreeConcat(r: Realm, a: seq<Execution>, b: seq<Execution>, floor: nat, root: string)
    requires WellFormed(r) && AllRefer(r, a, floor, root) && AllRefer(r, b, floor, root)
    ensures AllRefer(r, a + b, floor, root)
    ensures Tree(r, a + b, floor, root) == Tree(r, a, floor, root) + Tree(r, b, floor, root)
  {
    if a == [] {
      assert a + b == b;
    } else {
      TreeConcat(r, a[1..], b, floor, root);
      assert (a + b)[1..] == a[1..] + b;
    }
  }

  /** Every flow a reader can reach below `floor` under `root` is the same in both realms. */
  ghost predicate Kept(r: Realm, s: Realm, floor: nat, root: string) {
    forall a :: a in r.flows && floor < r.flows[a].id && r.flows[a].root == root ==>
      a in s.flows && s.flows[a] == r.flows[a]
  }

  lemma {:induction false} TreeFrame(r: Realm, s: Realm, es: seq<Execution>, floor: nat, root: string)
    requires WellFormed(r) && WellFormed(s) && Kept(r, s, floor, root)
    requires AllRefer(r, es, floor, root) && r.nextId <= s.nextId
    ensures AllRefer(s, es, floor, root) && Tree(r, es, floor, root) == Tree(s, es, floor, root)
    decreases r.nextId - floor, |es|
  {
    if es != [] {
      assert Refers(r, es[0], floor, root);
      TreeFrame(r, s, es[1..], floor, root);
      if es[0].kind.Branch? {
        var f := r.flows[es[0].kind.alias];
        TreeFrame(r, s, f.executions, f.id, f.root);
      }
      forall i | 0 <= i < |es| ensures Refers(s, es[i], floor, root) {
        if i > 0 { assert Refers(s, es[1..][i - 1], floor, root); }
      }
    }
  }

  // ── the effect of each call ──────────────────────────────────────────

  predicate TopLevel(r: Realm, alias: string) {
    alias in r.flows && r.flows[alias].root == alias
  }

  function WithFlow(r: Realm, alias: string): Realm {
    r.(flows := r.flows[alias := Flow(r.nextId, alias, [])], nextId := r.nextId + 1)
  }

  function WithExecution(r: Realm, parent: string, id: nat, kind: Kind): Realm
    requires parent in r.flows
  {
    var f := r.flows[parent];
    r.(flows := r.flows[parent := f.(executions := f.executions + [Execution(id, NEW_REQUIREMENT, kind)])])
  }

  function WithStep(r: Realm, parent: string, provider: string): Realm
    requires parent in r.flows
  {
    WithExecution(r, parent, r.nextId, Step(provider, map[])).(nextId := r.nextId + 1)
  }

  function WithSubFlow(r: Realm, parent: string, alias: string): Realm
    requires parent in r.flows && alias !in r.flows
  {
    var sub := Flow(r.nextId, r.flows[parent].root, []);
    WithExecution(r.(flows := r.flows[alias := sub]), parent, r.nextId + 1, Branch(alias)).(nextId := r.nextId + 2)
  }

  function Change(es: seq<Execution>, id: nat, to: Execution -> Execution): seq<Execution> {
    seq(|es|, i requires 0 <= i < |es| => if es[i].id == id then to(es[i]) else es[i])
  }

  /** Executions are addressed by id, wherever they are. */
  function WithChanged(r: Realm, id: nat, to: Execution -> Execution): Realm {
    r.(flows := map a | a in r.flows :: r.flows[a].(executions := Change(r.flows[a].executions, id, to)))
  }

  function SetRequirement(requirement: string): Execution -> Execution {
    (e: Execution) => e.(requirement := requirement)
  }

  function SetConfig(config: Config): Execution -> Execution {
    (e: Execution) => if e.kind.Step? then e.(kind := e.kind.(config := config)) else e
  }

  /** Deleting a top-level flow deletes what was created under it. */
  function WithoutFlow(r: Realm, alias: string): Realm {
    r.(flows := map a | a in r.flows && r.flows[a].root != alias :: r.flows[a])
  }

  /** The last execution of `parent` is the only one with this id. */
  ghost predicate Newest(r: Realm, parent: string, id: nat) {
    && parent in r.flows && r.flows[parent].executions != []
    && (forall a, i :: a in r.flows && 0 <= i < |r.flows[a].executions| ==>
         (r.flows[a].executions[i].id == id <==> a == parent && i == |r.flows[a].executions| - 1))
  }

  function Last<T>(s: seq<T>): T
    requires s != []
  {
    s[|s| - 1]
  }

  lemma ChangeNewest(r: Realm, parent: string, id: nat, to: Execution -> Execution)
    requires Newest(r, parent, id)
    ensures var f := r.flows[parent];
            var n := |f.executions| - 1;
            WithChanged(r, id, to) ==
              r.(flows := r.flows[parent := f.(executions := f.executions[..n] + [to(f.executions[n])])])
  {
    var f := r.flows[parent];
    var n := |f.executions| - 1;
    assert Change(f.executions, id, to) == f.executions[..n] + [to(f.executions[n])];
    forall a | a in r.flows && a != parent ensures Change(r.flows[a].executions, id, to) == r.flows[a].executions {
    }
    assert WithChanged(r, id, to).flows == r.flows[parent := f.(executions := f.executions[..n] + [to(f.executions[n])])];
  }

  lemma WithFlowWellFormed(r: Realm, alias: string)
    requires WellFormed(r) && alias !in r.flows
    ensures WellFormed(WithFlow(r, alias))
  {
    StillRefers(r, WithFlow(r, alias));
  }

  /** Adding flows and raising nextId breaks no reference. */
  lemma StillRefers(r: Realm, s: Realm)
    requires WellFormed(r) && r.nextId <= s.nextId
    requires forall a :: a in r.flows ==> a in s.flows && s.flows[a].id == r.flows[a].id && s.flows[a].root == r.flows[a].root
    ensures forall a :: a in r.flows ==> AllRefer(s, r.flows[a].executions, r.flows[a].id, r.flows[a].root)
  {
    forall a, i | a in r.flows && 0 <= i < |r.flows[a].executions|
      ensures Refers(s, r.flows[a].executions[i], r.flows[a].id, r.flows[a].root)
    {
      assert Refers(r, r.flows[a].executions[i], r.flows[a].id, r.flows[a].root);
    }
  }

  lemma WithoutFlowWellFormed(r: Realm, alias: string)
    requires WellFormed(r)
    ensures WellFormed(WithoutFlow(r, alias))
  {
    var s := WithoutFlow(r, alias);
    forall a, i | a in s.flows && 0 <= i < |s.flows[a].executions|
      ensures Refers(s, s.flows[a].executions[i], s.flows[a].id, s.flows[a].root)
    {
      assert Refers(r, r.flows[a].executions[i], r.flows[a].id, r.flows[a].root);
    }
  }
}
