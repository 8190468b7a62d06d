/** The comparable form of a sign-in flow (scripts/keycloak_mfa.py): a forest of executions
    read as a level-annotated pre-order list, and what that list does and does not determine. */
module KeycloakShape {

  type Config = map<string, string>

  /** One node of the specification, or of a flow on the server. A provider without a
      configuration has the empty one. */
  datatype Node =
    | Provider(provider: string, requirement: string, config: Config)
    | SubFlow(flow: string, requirement: string, executions: seq<Node>)

  datatype Row = Row(level: nat, name: string, requirement: string, config: Config)

  function ExpectedShape(nodes: seq<Node>, level: nat): seq<Row>
    decreases nodes
  {
    if nodes == [] then []
    else
      match nodes[0]
      case Provider(provider, requirement, config) =>
        [Row(level, provider, requirement, config)] + ExpectedShape(nodes[1..], level)
      case SubFlow(flow, requirement, executions) =>
        [Row(level, flow, requirement, map[])] + ExpectedShape(executions, level + 1) + ExpectedShape(nodes[1..], level)
  }

  // ── what the list determines ─────────────────────────────────────────

  /** The one thing the list cannot tell apart: a subflow without executions reads like a
      provider of that name without a configuration. */
  function Normalize(nodes: seq<Node>): seq<Node>
    decreases nodes
  {
    if nodes == [] then []
    else
      var rest := Normalize(nodes[1..]);
      match nodes[0]
      case Provider(_, _, _) => [nodes[0]] + rest
      case SubFlow(flow, requirement, executions) =>
        if executions == [] then [Provider(flow, requirement, map[])] + rest
        else [SubFlow(flow, requirement, Normalize(executions))] + rest
  }

  /** Reads a forest back from rows starting at `level`; answers the forest and the rows left. */
  function Parse(rows: seq<Row>, level: nat): (r: (seq<Node>, seq<Row>))
    ensures |r.1| <= |rows|
    ensures r.0 == [] <==> rows == [] || rows[0].level != level
    decreases |rows|
  {
    if rows == [] || rows[0].level != level then ([], rows)
    else
      var (children, afterChildren) := Parse(rows[1..], level + 1);
      var (siblings, left) := Parse(afterChildren, level);
      var row := rows[0];
      var node := if children == [] then Provider(row.name, row.requirement, row.config)
                  else SubFlow(row.name, row.requirement, children);
      ([node] + siblings, left)
  }

  /** A row that a forest at `level` cannot contain. */
  ghost predicate EndsForest(rows: seq<Row>, level: nat) {
    rows == [] || rows[0].level < level
  }

  lemma {:induction false} ShapeStartsAtLevel(nodes: seq<Node>, level: nat)
    ensures nodes == [] <==> ExpectedShape(nodes, level) == []
    ensures nodes != [] ==> ExpectedShape(nodes, level)[0].level == level
  {
  }

  lemma ParseCons(row: Row, rows: seq<Row>, level: nat)
    requires row.level == level
    ensures var below := Parse(rows, level + 1);
            var after := Parse(below.1, level);
            Parse([row] + rows, level) ==
              ([if below.0 == [] then Provider(row.name, row.requirement, row.config)
                else SubFlow(row.name, row.requirement, below.0)] + after.0, after.1)
  {
    assert ([row] + rows)[1..] == rows;
  }

  lemma Reassociate<T>(a: seq<T>, b: seq<T>, c: seq<T>, d: seq<T>)
    ensures ((a + b) + c) + d == a + (b + (c + d))
  {
  }

  ghost predicate Parses(nodes: seq<Node>, level: nat, after: seq<Row>) {
    Parse(ExpectedShape(nodes, level) + after, level) == (Normalize(nodes), after)
  }

  /** Parsing a shape gives the forest it came from, up to Normalize. */
  lemma {:induction false} ParseShape(nodes: seq<Node>, level: nat, after: seq<Row>)
    requires EndsForest(after, level)
    ensures Parses(nodes, level, after)
    decreases nodes
  {
    if nodes == [] {
      assert ExpectedShape(nodes, level) + after == after;
    } else {
      var siblings := ExpectedShape(nodes[1..], level) + after;
      ShapeStartsAtLevel(nodes[1..], level);
      ParseShape(nodes[1..], level, after);
      if nodes[0].SubFlow? {
        ParseShape(nodes[0].executions, level + 1, siblings);
        ParseSubFlow(nodes, level, after);
      } else {
        ParseProvider(nodes, level, after);
      }
    }
  }

  lemma ParseProvider(nodes: seq<Node>, level: nat, after: seq<Row>)
    requires nodes != [] && nodes[0].Provider? && Parses(nodes[1..], level, after)
    requires EndsForest(ExpectedShape(nodes[1..], level) + after, level + 1)
    ensures Parses(nodes, level, after)
  {
    var row := Row(level, nodes[0].provider, nodes[0].requirement, nodes[0].config);
    var siblings := ExpectedShape(nodes[1..], level) + after;
    assert ExpectedShape(nodes, level) + after == [row] + siblings;
    ParseNothing(siblings, level + 1);
    ParseCons(row, siblings, level);
  }

  lemma ParseSubFlow(nodes: seq<Node>, level: nat, after: seq<Row>)
    requires nodes != [] && nodes[0].SubFlow? && Parses(nodes[1..], level, after)
    requires Parses(nodes[0].executions, level + 1, ExpectedShape(nodes[1..], level) + after)
    ensures Parses(nodes, level, after)
  {
    var row := Row(level, nodes[0].flow, nodes[0].requirement, map[]);
    var inner := ExpectedShape(nodes[0].executions, level + 1);
    Reassociate([row], inner, ExpectedShape(nodes[1..], level), after);
    ParseCons(row, inner + (ExpectedShape(nodes[1..], level) + after), level);
    NormalizeEmpty(nodes[0].executions);
  }

  lemma ParseNothing(rows: seq<Row>, level: nat)
    requires EndsForest(rows, level)
    ensures Parse(rows, level) == ([], rows)
  {
  }

  lemma NormalizeEmpty(nodes: seq<Node>)
    ensures Normalize(nodes) == [] <==> nodes == []
  {
  }

  /** Two specifications have the same shape exactly when they are the same forest, empty
      subflows aside. */
  lemma ShapeDeterminesForest(a: seq<Node>, b: seq<Node>)
    ensures ExpectedShape(a, 0) == ExpectedShape(b, 0) <==> Normalize(a) == Normalize(b)
  {
    ParseShape(a, 0, []);
    ParseShape(b, 0, []);
    assert ExpectedShape(a, 0) + [] == ExpectedShape(a, 0);
    assert ExpectedShape(b, 0) + [] == ExpectedShape(b, 0);
    if Normalize(a) == Normalize(b) {
      ShapeOfNormalized(a, 0);
      ShapeOfNormalized(b, 0);
    }
  }

  lemma {:induction false} ShapeOfNormalized(nodes: seq<Node>, level: nat)
    ensures ExpectedShape(Normalize(nodes), level) == ExpectedShape(nodes, level)
    decreases nodes
  {
    if nodes != [] {
      ShapeOfNormalized(nodes[1..], level);
      assert Normalize(nodes)[1..] == Normalize(nodes[1..]);
      if nodes[0].SubFlow? {
        ShapeOfNormalized(nodes[0].executions, level + 1);
      }
    }
  }

  /** No flow is named like a provider, over both specifications. */
  ghost predicate NamesApart(nodes: seq<Node>, flows: set<string>)
    decreases nodes
  {
    nodes == [] ||
    (&& NamesApart(nodes[1..], flows)
     && match nodes[0]
        case Provider(provider, _, _) => provider !in flows
        case SubFlow(flow, _, executions) => flow in flows && NamesApart(executions, flows))
  }

  lemma {:induction false} NormalizeInjective(a: seq<Node>, b: seq<Node>, flows: set<string>)
    requires NamesApart(a, flows) && NamesApart(b, flows)
    requires Normalize(a) == Normalize(b)
    ensures a == b
    decreases a
  {
    NormalizeEmpty(a);
    NormalizeEmpty(b);
    if a != [] {
      assert Normalize(a)[1..] == Normalize(a[1..]);
      assert Normalize(b)[1..] == Normalize(b[1..]);
      assert Normalize(a)[0] == Normalize(b)[0];
      NormalizeInjective(a[1..], b[1..], flows);
      assert a == [a[0]] + a[1..] && b == [b[0]] + b[1..];
      if a[0].SubFlow? && b[0].SubFlow? {
        NormalizeEmpty(a[0].executions);
        NormalizeEmpty(b[0].executions);
        NormalizeInjective(a[0].executions, b[0].executions, flows);
      }
    }
  }

  /** With flow names and provider names disjoint, the shape determines the specification. */
  lemma ShapeIsExact(a: seq<Node>, b: seq<Node>, flows: set<string>)
    requires NamesApart(a, flows) && NamesApart(b, flows)
    ensures ExpectedShape(a, 0) == ExpectedShape(b, 0) <==> a == b
  {
    ShapeDeterminesForest(a, b);
    if Normalize(a) == Normalize(b) {
      NormalizeInjective(a, b, flows);
    }
  }

  /** Without that, two different specifications can compare equal. */
  lemma EmptySubFlowLooksLikeProvider(name: string, requirement: string)
    ensures var a := [SubFlow(name, requirement, [])];
            var b := [Provider(name, requirement, map[])];
            a != b && ExpectedShape(a, 0) == ExpectedShape(b, 0)
  {
    var a, b := [SubFlow(name, requirement, [])], [Provider(name, requirement, map[])];
    assert a[0] != b[0];
    assert ExpectedShape(a, 0) == [Row(0, name, requirement, map[])];
  }

  // ── the build suffix ─────────────────────────────────────────────────

  predicate EndsWith(s: string, suffix: string) {
    |suffix| <= |s| && s[|s| - |suffix|..] == suffix
  }

  function StripSuffix(name: string, suffix: string): string {
    if suffix != "" && EndsWith(name, suffix) then name[..|name| - |suffix|] else name
  }

  function RenameShape(shape: seq<Row>, suffix: string): seq<Row> {
    if shape == [] then []
    else [shape[0].(name := StripSuffix(shape[0].name, suffix))] + RenameShape(shape[1..], suffix)
  }

  /** The forest a build with this suffix creates: every subflow alias carries it. */
  function Suffixed(nodes: seq<Node>, suffix: string): seq<Node>
    decreases nodes
  {
    if nodes == [] then [] else [SuffixedNode(nodes[0], suffix)] + Suffixed(nodes[1..], suffix)
  }

  function SuffixedNode(n: Node, suffix: string): Node
    decreases n
  {
    if n.SubFlow? then SubFlow(n.flow + suffix, n.requirement, Suffixed(n.executions, suffix)) else n
  }

  lemma {:induction false} SuffixedConcat(a: seq<Node>, b: seq<Node>, suffix: string)
    ensures Suffixed(a + b, suffix) == Suffixed(a, suffix) + Suffixed(b, suffix)
  {
    if a == [] {
      assert a + b == b;
    } else {
      SuffixedConcat(a[1..], b, suffix);
      assert (a + b)[1..] == a[1..] + b;
    }
  }

  lemma {:induction false} RenameConcat(a: seq<Row>, b: seq<Row>, suffix: string)
    ensures RenameShape(a + b, suffix) == RenameShape(a, suffix) + RenameShape(b, suffix)
  {
    if a == [] {
      assert a + b == b;
    } else {
      RenameConcat(a[1..], b, suffix);
      assert (a + b)[1..] == a[1..] + b;
    }
  }

  /** Some provider's own name ends with the build suffix, so comparing without the suffix
      cuts it too. */
  predicate ProviderEndsWith(nodes: seq<Node>, suffix: string)
    decreases nodes
  {
    nodes != [] &&
    (|| ProviderEndsWith(nodes[1..], suffix)
     || match nodes[0]
        case Provider(provider, _, _) => EndsWith(provider, suffix)
        case SubFlow(_, _, executions) => ProviderEndsWith(executions, suffix))
  }

  lemma {:induction false} RenameLength(shape: seq<Row>, suffix: string)
    ensures |RenameShape(shape, suffix)| == |shape|
  {
    if shape != [] {
      RenameLength(shape[1..], suffix);
    }
  }

  lemma {:induction false} SuffixedShapeLength(nodes: seq<Node>, suffix: string, level: nat)
    ensures |ExpectedShape(Suffixed(nodes, suffix), level)| == |ExpectedShape(nodes, level)|
    decreases nodes
  {
    if nodes != [] {
      assert Suffixed(nodes, suffix)[1..] == Suffixed(nodes[1..], suffix);
      SuffixedShapeLength(nodes[1..], suffix, level);
      if nodes[0].SubFlow? {
        SuffixedShapeLength(nodes[0].executions, suffix, level + 1);
      }
    }
  }

  lemma RenameCons(row: Row, rows: seq<Row>, suffix: string)
    ensures RenameShape([row] + rows, suffix) == [row.(name := StripSuffix(row.name, suffix))] + RenameShape(rows, suffix)
  {
    assert ([row] + rows)[1..] == rows;
  }

  lemma StripOwnSuffix(name: string, suffix: string)
    ensures StripSuffix(name + suffix, suffix) == name
  {
    assert (name + suffix)[..|name|] == name;
    if suffix == "" {
      assert name + suffix == name;
    }
  }

  /** A correct build reads back as the specification exactly when the suffix is empty or ends
      no provider's name. */
  lemma {:induction false} ReadBackIsExact(nodes: seq<Node>, suffix: string, level: nat)
    ensures ReadsBack(nodes, suffix, level) <==> suffix == "" || !ProviderEndsWith(nodes, suffix)
    decreases nodes
  {
    if nodes != [] {
      ReadBackIsExact(nodes[1..], suffix, level);
      if nodes[0].Provider? {
        ReadBackProvider(nodes, suffix, level);
      } else {
        ReadBackIsExact(nodes[0].executions, suffix, level + 1);
        ReadBackSubFlow(nodes, suffix, level);
      }
    }
  }

  /** A provider named like the suffix: a build of it, though correct, is rejected. */
  lemma SuffixedProviderIsRejected()
    ensures !ReadsBack([Provider("otp--1", "REQUIRED", map[])], "--1", 0)
  {
    ReadBackIsExact([Provider("otp--1", "REQUIRED", map[])], "--1", 0);
    assert "otp--1"[3..] == "--1";
  }

  ghost predicate ReadsBack(nodes: seq<Node>, suffix: string, level: nat) {
    SeenShape(nodes, suffix, level) == ExpectedShape(nodes, level)
  }

  /** What the comparison sees of a correct build. */
  function SeenShape(nodes: seq<Node>, suffix: string, level: nat): seq<Row> {
    RenameShape(ExpectedShape(Suffixed(nodes, suffix), level), suffix)
  }

  lemma SeenProvider(nodes: seq<Node>, suffix: string, level: nat)
    requires nodes != [] && nodes[0].Provider?
    ensures SeenShape(nodes, suffix, level) ==
            [Row(level, StripSuffix(nodes[0].provider, suffix), nodes[0].requirement, nodes[0].config)]
              + SeenShape(nodes[1..], suffix, level)
  {
    assert Suffixed(nodes, suffix)[1..] == Suffixed(nodes[1..], suffix);
    RenameCons(Row(level, nodes[0].provider, nodes[0].requirement, nodes[0].config),
               ExpectedShape(Suffixed(nodes[1..], suffix), level), suffix);
  }

  lemma SeenSubFlow(nodes: seq<Node>, suffix: string, level: nat)
    requires nodes != [] && nodes[0].SubFlow?
    ensures SeenShape(nodes, suffix, level) ==
            [Row(level, nodes[0].flow, nodes[0].requirement, map[])]
              + SeenShape(nodes[0].executions, suffix, level + 1) + SeenShape(nodes[1..], suffix, level)
  {
    var row := Row(level, nodes[0].flow + suffix, nodes[0].requirement, map[]);
    var inner := ExpectedShape(Suffixed(nodes[0].executions, suffix), level + 1);
    var rest := ExpectedShape(Suffixed(nodes[1..], suffix), level);
    assert Suffixed(nodes, suffix)[1..] == Suffixed(nodes[1..], suffix);
    RenameConcat([row] + inner, rest, suffix);
    RenameCons(row, inner, suffix);
    StripOwnSuffix(nodes[0].flow, suffix);
  }

  lemma ReadBackProvider(nodes: seq<Node>, suffix: string, level: nat)
    requires nodes != [] && nodes[0].Provider?
    ensures ReadsBack(nodes, suffix, level) <==>
            ReadsBack(nodes[1..], suffix, level) && !(suffix != "" && EndsWith(nodes[0].provider, suffix))
  {
    SeenProvider(nodes, suffix, level);
    var row := Row(level, nodes[0].provider, nodes[0].requirement, nodes[0].config);
    SameSplit([row.(name := StripSuffix(row.name, suffix))], SeenShape(nodes[1..], suffix, level),
              [row], ExpectedShape(nodes[1..], level));
  }

  lemma ReadBackSubFlow(nodes: seq<Node>, suffix: string, level: nat)
    requires nodes != [] && nodes[0].SubFlow?
    ensures ReadsBack(nodes, suffix, level) <==>
            ReadsBack(nodes[0].executions, suffix, level + 1) && ReadsBack(nodes[1..], suffix, level)
  {
    SeenSubFlow(nodes, suffix, level);
    SuffixedShapeLength(nodes[0].executions, suffix, level + 1);
    RenameLength(ExpectedShape(Suffixed(nodes[0].executions, suffix), level + 1), suffix);
    SameSplit3([Row(level, nodes[0].flow, nodes[0].requirement, map[])],
               SeenShape(nodes[0].executions, suffix, level + 1), SeenShape(nodes[1..], suffix, level),
               ExpectedShape(nodes[0].executions, level + 1), ExpectedShape(nodes[1..], level));
  }

  /** A forest with every name cut, providers' names included. */
  function Stripped(nodes: seq<Node>, suffix: string): seq<Node>
    decreases nodes
  {
    if nodes == [] then [] else [StrippedNode(nodes[0], suffix)] + Stripped(nodes[1..], suffix)
  }

  function StrippedNode(n: Node, suffix: string): Node
    decreases n
  {
    match n
    case Provider(provider, requirement, config) => Provider(StripSuffix(provider, suffix), requirement, config)
    case SubFlow(flow, requirement, executions) =>
      SubFlow(StripSuffix(flow, suffix), requirement, Stripped(executions, suffix))
  }

  lemma {:induction false} RenamedShape(nodes: seq<Node>, suffix: string, level: nat)
    ensures RenameShape(ExpectedShape(nodes, level), suffix) == ExpectedShape(Stripped(nodes, suffix), level)
    decreases nodes
  {
    if nodes != [] {
      RenamedShape(nodes[1..], suffix, level);
      assert Stripped(nodes, suffix)[1..] == Stripped(nodes[1..], suffix);
      var rest := ExpectedShape(nodes[1..], level);
      match nodes[0]
      case Provider(provider, requirement, config) =>
        RenameCons(Row(level, provider, requirement, config), rest, suffix);
      case SubFlow(flow, requirement, executions) =>
        RenamedShape(executions, suffix, level + 1);
        var below := ExpectedShape(executions, level + 1);
        RenameConcat([Row(level, flow, requirement, map[])] + below, rest, suffix);
        RenameCons(Row(level, flow, requirement, map[]), below, suffix);
    }
  }

  /** A flow passes the comparison exactly when, with its names cut, it is the specification up
      to empty subflows. */
  lemma ComparisonMeans(tree: seq<Node>, suffix: string, spec: seq<Node>)
    ensures RenameShape(ExpectedShape(tree, 0), suffix) == ExpectedShape(spec, 0)
            <==> Normalize(Stripped(tree, suffix)) == Normalize(spec)
  {
    RenamedShape(tree, suffix, 0);
    ShapeDeterminesForest(Stripped(tree, suffix), spec);
  }

  lemma SameSplit3<T>(p: seq<T>, a: seq<T>, b: seq<T>, c: seq<T>, d: seq<T>)
    requires |a| == |c|
    ensures (p + a) + b == (p + c) + d <==> a == c && b == d
  {
    SameSplit(p + a, b, p + c, d);
    SameSplit(p, a, p, c);
  }

  lemma SameSplit<T>(a: seq<T>, b: seq<T>, c: seq<T>, d: seq<T>)
    requires |a| == |c|
    ensures a + b == c + d <==> a == c && b == d
  {
    if a + b == c + d {
      assert (a + b)[..|a|] == a && (c + d)[..|c|] == c;
      assert (a + b)[|a|..] == b && (c + d)[|c|..] == d;
    }
  }
}
