/** Choosing models and nodes on one state of the fleet (ai-orchestrator/app/main.py): the single
    best choice and the full list to try agree. Tags of a model and its size are given. */
module OrchestratorRouting {
  import opened Basics
  import opened Sorting

  datatype Model = Model(name: string, tags: set<string>, size: nat)

  /** A node with the models it lists, in the order of its dictionary. */
  datatype Node = Node(name: string, healthy: bool, models: seq<Model>, inflight: nat)

  /** A model on a node. */
  datatype Choice = Choice(model: Model, node: Node)

  /** `maxSize` 0 is no limit. */
  predicate SizeOk(m: Model, maxSize: int) {
    maxSize <= 0 || m.size <= maxSize
  }

  /** Largest model first, then the node with the fewest calls in flight. */
  predicate Better(a: Choice, b: Choice) {
    a.model.size > b.model.size || (a.model.size == b.model.size && a.node.inflight <= b.node.inflight)
  }

  lemma BetterIsTotal()
    ensures TotalPreorder(Better)
  {
  }

  function Key(c: Choice): (string, string) {
    (c.model.name, c.node.name)
  }

  // ── the candidates ───────────────────────────────────────────────────

  predicate Fits(m: Model, node: Node, tag: string, maxSize: int) {
    node.healthy && tag in m.tags && SizeOk(m, maxSize)
  }

  function OfNode(node: Node, n: nat): seq<Choice>
    requires n <= |node.models|
  {
    if n == 0 then [] else OfNode(node, n - 1) + [Choice(node.models[n - 1], node)]
  }

  /** Every model of every node, in the order the finders walk. */
  function Listing(fleet: seq<Node>): seq<Choice> {
    if fleet == [] then []
    else Listing(fleet[..|fleet| - 1]) + OfNode(fleet[|fleet| - 1], |fleet[|fleet| - 1].models|)
  }

  /** Every model of every node is listed, and nothing else. */
  lemma {:induction false} ListingMembers(fleet: seq<Node>)
    ensures forall c :: c in Listing(fleet) <==> c.node in fleet && c.model in c.node.models
  {
    if fleet != [] {
      var front, last := fleet[..|fleet| - 1], fleet[|fleet| - 1];
      ListingMembers(front);
      OfNodeMembers(last, |last.models|);
      assert fleet == front + [last] && last.models[..|last.models|] == last.models;
    }
  }

  lemma {:induction false} OfNodeMembers(node: Node, n: nat)
    requires n <= |node.models|
    ensures forall c :: c in OfNode(node, n) <==> c.node == node && c.model in node.models[..n]
  {
    if n > 0 {
      OfNodeMembers(node, n - 1);
      assert node.models[..n] == node.models[..n - 1] + [node.models[n - 1]];
    }
  }

  predicate Taken(c: Choice, tag: string, maxSize: int, seen: set<(string, string)>) {
    Fits(c.model, c.node, tag, maxSize) && Key(c) !in seen
  }

  function Keep(all: seq<Choice>, tag: string, maxSize: int, seen: set<(string, string)>): seq<Choice> {
    if all == [] then []
    else
      var front := Keep(all[..|all| - 1], tag, maxSize, seen);
      if Taken(all[|all| - 1], tag, maxSize, seen) then front + [all[|all| - 1]] else front
  }

  function Keys(s: seq<Choice>): set<(string, string)> {
    set c | c in s :: Key(c)
  }

  /** No model twice on a node: both are dictionary keys. */
  ghost predicate Distinct(s: seq<Choice>) {
    forall i, j :: 0 <= i < j < |s| ==> Key(s[i]) != Key(s[j])
  }

  lemma {:induction false} KeepMembers(all: seq<Choice>, tag: string, maxSize: int, seen: set<(string, string)>)
    ensures forall c :: c in Keep(all, tag, maxSize, seen) <==> c in all && Taken(c, tag, maxSize, seen)
  {
    if all != [] {
      KeepMembers(all[..|all| - 1], tag, maxSize, seen);
      assert all == all[..|all| - 1] + [all[|all| - 1]];
    }
  }

  lemma {:induction false} KeepDistinct(all: seq<Choice>, tag: string, maxSize: int, seen: set<(string, string)>)
    requires Distinct(all)
    ensures Distinct(Keep(all, tag, maxSize, seen))
  {
    if all != [] {
      var n := |all| - 1;
      KeepDistinct(all[..n], tag, maxSize, seen);
      KeepMembers(all[..n], tag, maxSize, seen);
      var front := Keep(all[..n], tag, maxSize, seen);
      forall i | 0 <= i < |front| ensures Key(front[i]) != Key(all[n]) {
        assert front[i] in all[..n];
        var k :| 0 <= k < n && all[..n][k] == front[i];
        assert Key(all[k]) != Key(all[n]);
      }
    }
  }

  // ── the two finders ──────────────────────────────────────────────────

  /** One tag after the other, each block sorted; what was listed before is not listed again. */
  function AllForTags(all: seq<Choice>, tags: seq<string>, maxSize: int, seen: set<(string, string)>): seq<Choice> {
    if tags == [] then []
    else
      var block := Keep(all, tags[0], maxSize, seen);
      Sort(Better, block) + AllForTags(all, tags[1..], maxSize, seen + Keys(block))
  }

  /** The best of the first tag anything matches. */
  function BestForTags(all: seq<Choice>, tags: seq<string>, maxSize: int): Option<Choice> {
    if tags == [] then None
    else
      var block := Keep(all, tags[0], maxSize, {});
      if block == [] then BestForTags(all, tags[1..], maxSize)
      else
        SortKeepsSize(block);
        Some(Sort(Better, block)[0])
  }

  lemma SortKeepsSize(block: seq<Choice>)
    ensures |Sort(Better, block)| == |block|
  {
    BetterIsTotal();
    SortCorrect(Better, block);
    assert |multiset(Sort(Better, block))| == |multiset(block)|;
  }

  /** The candidate loop both finders run for a tag. */
  method Collect(fleet: seq<Node>, tag: string, maxSize: int, seen0: set<(string, string)>)
    returns (candidates: seq<Choice>, seen: set<(string, string)>)
    requires Distinct(Listing(fleet))
    ensures candidates == Keep(Listing(fleet), tag, maxSize, seen0)
    ensures seen == seen0 + Keys(candidates)
  {
    candidates, seen := [], seen0;
    for i := 0 to |fleet|
      invariant candidates == Keep(Listing(fleet[..i]), tag, maxSize, seen0)
      invariant seen == seen0 + Keys(candidates)
    {
      assert fleet[..i + 1][..i] == fleet[..i];
      var node := fleet[i];
      if !node.healthy {
        SkipNode(Listing(fleet[..i]), node, |node.models|, tag, maxSize, seen0);
        continue;
      }
      assert Listing(fleet[..i]) + OfNode(node, 0) == Listing(fleet[..i]);
      for j := 0 to |node.models|
        invariant candidates == Keep(Listing(fleet[..i]) + OfNode(node, j), tag, maxSize, seen0)
        invariant seen == seen0 + Keys(candidates)
      {
        var m := node.models[j];
        NextChoice(fleet, i, j, tag, maxSize, seen0);
        if tag in m.tags && SizeOk(m, maxSize) && (m.name, node.name) !in seen {
          candidates := candidates + [Choice(m, node)];
          seen := seen + {(m.name, node.name)};
        }
      }
    }
    assert fleet[..|fleet|] == fleet;
  }

  lemma {:induction false} SkipNode(before: seq<Choice>, node: Node, n: nat, tag: string, maxSize: int, seen: set<(string, string)>)
    requires n <= |node.models| && !node.healthy
    ensures Keep(before + OfNode(node, n), tag, maxSize, seen) == Keep(before, tag, maxSize, seen)
  {
    if n == 0 {
      assert before + [] == before;
    } else {
      SkipNode(before, node, n - 1, tag, maxSize, seen);
      var all := before + OfNode(node, n);
      assert all[..|all| - 1] == before + OfNode(node, n - 1);
    }
  }

  lemma {:induction false} ListingIsPrefix(fleet: seq<Node>, i: nat)
    requires i <= |fleet|
    ensures Listing(fleet[..i]) <= Listing(fleet)
    decreases |fleet|
  {
    if i == |fleet| {
      assert fleet[..i] == fleet;
    } else {
      var front := fleet[..|fleet| - 1];
      ListingIsPrefix(front, i);
      assert front[..i] == fleet[..i];
    }
  }

  lemma {:induction false} OfNodeIsPrefix(node: Node, i: nat, n: nat)
    requires i <= n <= |node.models|
    ensures OfNode(node, i) <= OfNode(node, n)
  {
    if i < n {
      OfNodeIsPrefix(node, i, n - 1);
    }
  }

  lemma NextIsListed(fleet: seq<Node>, i: nat, j: nat)
    requires i < |fleet| && j < |fleet[i].models|
    ensures Listing(fleet[..i]) + OfNode(fleet[i], j) + [Choice(fleet[i].models[j], fleet[i])] <= Listing(fleet)
  {
    var node := fleet[i];
    assert fleet[..i + 1][..i] == fleet[..i];
    OfNodeIsPrefix(node, j + 1, |node.models|);
    assert Listing(fleet[..i]) + OfNode(node, j + 1) <= Listing(fleet[..i + 1]);
    ListingIsPrefix(fleet, i + 1);
  }

  lemma FreshAfterPrefix(all: seq<Choice>, before: seq<Choice>, c: Choice)
    requires Distinct(all) && before + [c] <= all
    ensures forall d :: d in before ==> Key(d) != Key(c)
  {
    forall d | d in before ensures Key(d) != Key(c) {
      var k :| 0 <= k < |before| && before[k] == d;
      assert all[k] == (before + [c])[k] && all[|before|] == (before + [c])[|before|];
    }
  }

  lemma KeepNext(before: seq<Choice>, c: Choice, tag: string, maxSize: int, seen: set<(string, string)>)
    ensures Keep(before + [c], tag, maxSize, seen)
            == Keep(before, tag, maxSize, seen) + (if Taken(c, tag, maxSize, seen) then [c] else [])
  {
    assert (before + [c])[..|before|] == before;
  }

  lemma NextChoice(fleet: seq<Node>, i: nat, j: nat, tag: string, maxSize: int, seen: set<(string, string)>)
    requires i < |fleet| && j < |fleet[i].models| && Distinct(Listing(fleet))
    ensures var before := Listing(fleet[..i]) + OfNode(fleet[i], j);
            var c := Choice(fleet[i].models[j], fleet[i]);
            && Keep(Listing(fleet[..i]) + OfNode(fleet[i], j + 1), tag, maxSize, seen)
               == Keep(before, tag, maxSize, seen) + (if Taken(c, tag, maxSize, seen) then [c] else [])
            && Key(c) !in Keys(Keep(before, tag, maxSize, seen))
  {
    var before := Listing(fleet[..i]) + OfNode(fleet[i], j);
    var c := Choice(fleet[i].models[j], fleet[i]);
    NextIsListed(fleet, i, j);
    FreshAfterPrefix(Listing(fleet), before, c);
    KeepNext(before, c, tag, maxSize, seen);
    KeepMembers(before, tag, maxSize, seen);
    assert Listing(fleet[..i]) + OfNode(fleet[i], j + 1) == before + [c];
  }

  method FindBestForTags(fleet: seq<Node>, tags: seq<string>, maxSize: int) returns (best: Option<Choice>)
    requires Distinct(Listing(fleet))
    ensures best == BestForTags(Listing(fleet), tags, maxSize)
  {
    for i := 0 to |tags|
      invariant BestForTags(Listing(fleet), tags, maxSize) == BestForTags(Listing(fleet), tags[i..], maxSize)
    {
      assert tags[i..][1..] == tags[i + 1..];
      var candidates, seen := Collect(fleet, tags[i], maxSize, {});
      if candidates != [] {
        SortKeepsSize(candidates);
        return Some(Sort(Better, candidates)[0]);
      }
    }
    return None;
  }

  method FindAllForTags(fleet: seq<Node>, tags: seq<string>, maxSize: int) returns (results: seq<Choice>)
    requires Distinct(Listing(fleet))
    ensures results == AllForTags(Listing(fleet), tags, maxSize, {})
  {
    var seen: set<(string, string)> := {};
    results := [];
    for i := 0 to |tags|
      invariant results + AllForTags(Listing(fleet), tags[i..], maxSize, seen) == AllForTags(Listing(fleet), tags, maxSize, {})
    {
      assert tags[i..][1..] == tags[i + 1..];
      ghost var before, seen0 := results, seen;
      var candidates;
      candidates, seen := Collect(fleet, tags[i], maxSize, seen);
      results := results + Sort(Better, candidates);
      assert before + (Sort(Better, candidates) + AllForTags(Listing(fleet), tags[i + 1..], maxSize, seen))
             == results + AllForTags(Listing(fleet), tags[i + 1..], maxSize, seen);
    }
  }

  // ── what they promise each other ─────────────────────────────────────

  /** The best choice is the first to be tried, and there is none exactly when there is nothing
      to try: the model named in the cache key is the model tried first. */
  lemma {:induction false} BestIsFirst(all: seq<Choice>, tags: seq<string>, maxSize: int)
    ensures BestForTags(all, tags, maxSize) ==
            var list := AllForTags(all, tags, maxSize, {});
            if list == [] then None else Some(list[0])
  {
    if tags != [] {
      var block := Keep(all, tags[0], maxSize, {});
      SortKeepsSize(block);
      if block == [] {
        BestIsFirst(all, tags[1..], maxSize);
        assert Keys(block) == {};
        assert {} + Keys(block) == Keys(block);
        assert Sort(Better, block) == [];
        assert AllForTags(all, tags, maxSize, {}) == AllForTags(all, tags[1..], maxSize, {});
      }
    }
  }

  /** The position of the first tag the model has. */
  function Rank(c: Choice, tags: seq<string>): nat {
    if tags == [] || tags[0] in c.model.tags then 0 else 1 + Rank(c, tags[1..])
  }

  predicate Eligible(c: Choice, tags: seq<string>, maxSize: int) {
    c.node.healthy && (maxSize <= 0 || c.model.size <= maxSize) && exists i :: 0 <= i < |tags| && tags[i] in c.model.tags
  }

  /** An earlier tag first, then the larger model, then the less busy node. */
  predicate Ordered(a: Choice, b: Choice, tags: seq<string>) {
    || Rank(a, tags) < Rank(b, tags)
    || (Rank(a, tags) == Rank(b, tags)
        && (a.model.size > b.model.size || (a.model.size == b.model.size && a.node.inflight <= b.node.inflight)))
  }

  ghost predicate ListsExactly(list: seq<Choice>, all: seq<Choice>, tags: seq<string>, maxSize: int, seen: set<(string, string)>) {
    && Distinct(list)
    && (forall c :: c in list <==> c in all && Eligible(c, tags, maxSize) && Key(c) !in seen)
    && (forall i, j :: 0 <= i < j < |list| ==> Ordered(list[i], list[j], tags))
  }

  /** A rearrangement of a sequence without repeated keys has none either. */
  lemma RearrangedDistinct(block: seq<Choice>, s: seq<Choice>)
    requires Distinct(block) && multiset(s) == multiset(block)
    ensures Distinct(s)
  {
    forall i, j | 0 <= i < j < |s| ensures Key(s[i]) != Key(s[j]) {
      assert s[i] in multiset(s) && s[j] in multiset(s);
      if s[i] == s[j] {
        assert s == s[..j] + s[j..] && s[i] in multiset(s[..j]) && s[i] in multiset(s[j..]);
        OnceOnly(block, s[i]);
      }
      SameKeySame(block, s[i], s[j]);
    }
  }

  lemma SortBlock(block: seq<Choice>)
    requires Distinct(block)
    ensures var s := Sort(Better, block);
            Distinct(s) && (forall c :: c in s <==> c in block) && SortedBy(Better, s)
  {
    BetterIsTotal();
    SortCorrect(Better, block);
    var s := Sort(Better, block);
    RearrangedDistinct(block, s);
    forall c ensures c in s <==> c in block {
      assert c in multiset(s) <==> c in multiset(block);
    }
  }

  lemma SameKeySame(block: seq<Choice>, a: Choice, b: Choice)
    requires Distinct(block) && a in block && b in block
    ensures Key(a) == Key(b) ==> a == b
  {
    var i :| 0 <= i < |block| && block[i] == a;
    var j :| 0 <= j < |block| && block[j] == b;
    assert i == j || Key(block[i]) != Key(block[j]);
  }

  lemma {:induction false} OnceOnly(block: seq<Choice>, c: Choice)
    requires Distinct(block)
    ensures multiset(block)[c] <= 1
  {
    if block != [] {
      var n := |block| - 1;
      OnceOnly(block[..n], c);
      assert block == block[..n] + [block[n]];
      assert forall k :: 0 <= k < n ==> block[..n][k] == block[k] && Key(block[k]) != Key(block[n]);
      assert block[n] !in block[..n];
    }
  }

  lemma EligibleCons(c: Choice, tags: seq<string>, maxSize: int)
    requires tags != []
    ensures Eligible(c, tags, maxSize) <==> (c.node.healthy && SizeOk(c.model, maxSize) && tags[0] in c.model.tags) || Eligible(c, tags[1..], maxSize)
  {
    if Eligible(c, tags, maxSize) {
      var i :| 0 <= i < |tags| && tags[i] in c.model.tags;
      if i > 0 { assert tags[1..][i - 1] in c.model.tags; }
    }
    if Eligible(c, tags[1..], maxSize) {
      var i :| 0 <= i < |tags[1..]| && tags[1..][i] in c.model.tags;
      assert tags[i + 1] in c.model.tags;
    }
  }

  /** The list holds every healthy, eligible model on every node exactly once, in the block of
      its earliest matching tag, larger models first, then less busy nodes. */
  lemma {:induction false} AllIsExact(all: seq<Choice>, tags: seq<string>, maxSize: int, seen: set<(string, string)>)
    requires Distinct(all)
    ensures ListsExactly(AllForTags(all, tags, maxSize, seen), all, tags, maxSize, seen)
  {
    if tags != [] {
      var block := Keep(all, tags[0], maxSize, seen);
      var rest := AllForTags(all, tags[1..], maxSize, seen + Keys(block));
      KeepMembers(all, tags[0], maxSize, seen);
      KeepDistinct(all, tags[0], maxSize, seen);
      SortBlock(block);
      AllIsExact(all, tags[1..], maxSize, seen + Keys(block));
      BlockThenRest(all, block, rest, tags, maxSize, seen);
    }
  }

  lemma BlockThenRest(all: seq<Choice>, block: seq<Choice>, rest: seq<Choice>, tags: seq<string>, maxSize: int, seen: set<(string, string)>)
    requires tags != [] && Distinct(all) && Distinct(block)
    requires forall c :: c in block <==> c in all && Taken(c, tags[0], maxSize, seen)
    requires ListsExactly(rest, all, tags[1..], maxSize, seen + Keys(block))
    ensures ListsExactly(Sort(Better, block) + rest, all, tags, maxSize, seen)
  {
    SortBlock(block);
    var s := Sort(Better, block);
    var list := s + rest;
    forall c | c in rest ensures tags[0] !in c.model.tags && Key(c) !in Keys(block) {
      assert c in block ==> Key(c) in Keys(block);
    }
    forall c ensures c in list <==> c in all && Eligible(c, tags, maxSize) && Key(c) !in seen {
      EligibleCons(c, tags, maxSize);
      if c in all && Key(c) in Keys(block) {
        var d :| d in block && Key(d) == Key(c);
        SameKeySame(all, c, d);
      }
    }
    forall i, j | 0 <= i < j < |list| ensures Key(list[i]) != Key(list[j]) && Ordered(list[i], list[j], tags) {
      InOrder(s, rest, block, tags, i, j);
    }
  }

  lemma InOrder(s: seq<Choice>, rest: seq<Choice>, block: seq<Choice>, tags: seq<string>, i: nat, j: nat)
    requires tags != [] && i < j < |s + rest|
    requires Distinct(s) && Distinct(rest) && SortedBy(Better, s)
    requires forall c :: c in s <==> c in block
    requires forall c :: c in block ==> tags[0] in c.model.tags
    requires forall c :: c in rest ==> tags[0] !in c.model.tags && Key(c) !in Keys(block)
    requires forall i, j :: 0 <= i < j < |rest| ==> Ordered(rest[i], rest[j], tags[1..])
    ensures Key((s + rest)[i]) != Key((s + rest)[j]) && Ordered((s + rest)[i], (s + rest)[j], tags)
  {
    var a, b := (s + rest)[i], (s + rest)[j];
    if j < |s| {
      assert a == s[i] && b == s[j] && a in s && b in s;
    } else {
      assert b == rest[j - |s|] && b in rest;
      if i < |s| {
        assert a == s[i] && a in s;
        assert Key(a) in Keys(block);
      } else {
        assert a == rest[i - |s|] && a in rest;
        assert Ordered(rest[i - |s|], rest[j - |s|], tags[1..]);
      }
    }
  }

  // ── one model, some node ─────────────────────────────────────────────

  predicate CanServe(n: Node, model: string) {
    n.healthy && exists i :: 0 <= i < |n.models| && n.models[i].name == model
  }

  predicate LessBusy(a: Node, b: Node) {
    a.inflight <= b.inflight
  }

  /** The fleet is a dictionary by name. */
  ghost predicate UniqueNames(fleet: seq<Node>) {
    forall i, j :: 0 <= i < j < |fleet| ==> fleet[i].name != fleet[j].name
  }

  /** The node of that name, if it can serve the model. */
  function Named(fleet: seq<Node>, name: string, model: string): seq<Node> {
    if fleet == [] then []
    else
      var n := fleet[|fleet| - 1];
      Named(fleet[..|fleet| - 1], name, model) + if n.name == name && CanServe(n, model) then [n] else []
  }

  /** The preferred nodes that can serve the model, as they are preferred. */
  function Favoured(fleet: seq<Node>, preferred: seq<string>, model: string): seq<Node> {
    if preferred == [] then []
    else
      Favoured(fleet, preferred[..|preferred| - 1], model) + Named(fleet, preferred[|preferred| - 1], model)
  }

  /** The other nodes that can, as the fleet has them. */
  function Others(fleet: seq<Node>, preferred: seq<string>, model: string): seq<Node> {
    if fleet == [] then []
    else
      var n := fleet[|fleet| - 1];
      Others(fleet[..|fleet| - 1], preferred, model) + if n.name !in preferred && CanServe(n, model) then [n] else []
  }

  lemma {:induction false} NobodyNamed(fleet: seq<Node>, name: string, model: string)
    requires forall n :: n in fleet ==> n.name != name
    ensures Named(fleet, name, model) == []
  {
    if fleet != [] {
      var front, last := fleet[..|fleet| - 1], fleet[|fleet| - 1];
      assert fleet == front + [last] && last in fleet;
      NobodyNamed(front, name, model);
    }
  }

  lemma {:induction false} NamedIs(fleet: seq<Node>, name: string, model: string)
    requires UniqueNames(fleet)
    ensures forall n :: n in Named(fleet, name, model) <==> n in fleet && n.name == name && CanServe(n, model)
    ensures |Named(fleet, name, model)| <= 1
  {
    if fleet != [] {
      var front, last := fleet[..|fleet| - 1], fleet[|fleet| - 1];
      NamedIs(front, name, model);
      assert fleet == front + [last];
      if last.name == name {
        NobodyNamed(front, name, model);
      }
    }
  }

  lemma {:induction false} FavouredAre(fleet: seq<Node>, preferred: seq<string>, model: string)
    requires UniqueNames(fleet)
    ensures forall n :: n in Favoured(fleet, preferred, model) <==> n in fleet && n.name in preferred && CanServe(n, model)
  {
    if preferred != [] {
      var front, last := preferred[..|preferred| - 1], preferred[|preferred| - 1];
      FavouredAre(fleet, front, model);
      NamedIs(fleet, last, model);
      assert preferred == front + [last];
    }
  }

  lemma {:induction false} OthersAre(fleet: seq<Node>, preferred: seq<string>, model: string)
    ensures forall n :: n in Others(fleet, preferred, model) <==> n in fleet && n.name !in preferred && CanServe(n, model)
  {
    if fleet != [] {
      var front, last := fleet[..|fleet| - 1], fleet[|fleet| - 1];
      OthersAre(front, preferred, model);
      assert fleet == front + [last];
    }
  }

  method Lookup(fleet: seq<Node>, name: string) returns (node: Option<Node>)
    requires UniqueNames(fleet)
    ensures node.Some? ==> node.value in fleet && node.value.name == name
    ensures forall n :: n in fleet && n.name == name ==> node == Some(n)
  {
    for i := 0 to |fleet|
      invariant forall n :: n in fleet[..i] ==> n.name != name
    {
      if fleet[i].name == name {
        return Some(fleet[i]);
      }
    }
    return None;
  }

  ghost predicate FirstLeast(xs: seq<Node>, k: nat) {
    && k < |xs|
    && (forall i :: 0 <= i < k ==> !LessBusy(xs[i], xs[k]))
    && (forall i :: 0 <= i < |xs| ==> LessBusy(xs[k], xs[i]))
  }

  function LeastAt(xs: seq<Node>): (k: nat)
    requires xs != []
    ensures k < |xs|
  {
    if |xs| == 1 then 0
    else
      var j := LeastAt(xs[..|xs| - 1]);
      if LessBusy(xs[j], xs[|xs| - 1]) then j else |xs| - 1
  }

  lemma {:induction false} LeastAtIsFirstLeast(xs: seq<Node>)
    requires xs != []
    ensures FirstLeast(xs, LeastAt(xs))
  {
    if |xs| > 1 {
      var front := xs[..|xs| - 1];
      LeastAtIsFirstLeast(front);
      assert forall i :: 0 <= i < |front| ==> front[i] == xs[i];
    }
  }

  /** The first element of a stable sort is the first of the least. */
  lemma {:induction false} HeadIsFirstLeast(xs: seq<Node>)
    requires xs != []
    ensures Sort(LessBusy, xs) != [] && Sort(LessBusy, xs)[0] == xs[LeastAt(xs)]
  {
    var front, x := xs[..|xs| - 1], xs[|xs| - 1];
    if front == [] {
      assert Sort(LessBusy, xs) == Insert(LessBusy, x, Sort(LessBusy, [])) == [x];
    } else {
      HeadIsFirstLeast(front);
      SortCorrect(LessBusy, front);
      InsertHead(LessBusy, x, Sort(LessBusy, front));
      assert front[LeastAt(front)] == xs[LeastAt(front)];
    }
  }

  lemma {:induction false} InsertHead<T(!new)>(le: (T, T) -> bool, x: T, s: seq<T>)
    requires TotalPreorder(le) && SortedBy(le, s) && s != []
    ensures |Insert(le, x, s)| > 0 && Insert(le, x, s)[0] == if le(s[0], x) then s[0] else x
  {
    var n := |s| - 1;
    if !le(s[n], x) && n > 0 {
      InsertHead(le, x, s[..n]);
    }
  }

  /** The answer is the first of the least busy, preferred nodes listed first. */
  method FindNodeForModel(fleet: seq<Node>, preferred: seq<string>, model: string) returns (best: Option<Node>)
    requires UniqueNames(fleet)
    ensures var candidates := Favoured(fleet, preferred, model) + Others(fleet, preferred, model);
            best == if candidates == [] then None else Some(candidates[LeastAt(candidates)])
  {
    var candidates: seq<Node> := [];
    for i := 0 to |preferred|
      invariant candidates == Favoured(fleet, preferred[..i], model)
    {
      var node := Lookup(fleet, preferred[i]);
      assert preferred[..i + 1][..i] == preferred[..i];
      NamedIs(fleet, preferred[i], model);
      if node.Some? && CanServe(node.value, model) {
        candidates := candidates + [node.value];
      }
      assert Named(fleet, preferred[i], model) == if node.Some? && CanServe(node.value, model) then [node.value] else [] by {
        AtMostOne(Named(fleet, preferred[i], model));
      }
    }
    assert preferred[..|preferred|] == preferred;
    ghost var first := candidates;
    for i := 0 to |fleet|
      invariant candidates == first + Others(fleet[..i], preferred, model)
    {
      assert fleet[..i + 1][..i] == fleet[..i];
      if fleet[i].name !in preferred && CanServe(fleet[i], model) {
        candidates := candidates + [fleet[i]];
      }
    }
    assert fleet[..|fleet|] == fleet;
    if candidates == [] {
      return None;
    }
    HeadIsFirstLeast(candidates);
    best := Some(Sort(LessBusy, candidates)[0]);
  }

  lemma AtMostOne(s: seq<Node>)
    requires |s| <= 1
    ensures s == [] || (s[0] in s && s == [s[0]])
  {
  }

  /** A healthy node with the model is found whenever there is one, and it is the least busy of
      them all, preferred or not: a preferred node only wins a tie. */
  lemma PreferenceSettlesTies(fleet: seq<Node>, preferred: seq<string>, model: string)
    requires UniqueNames(fleet)
    ensures var candidates := Favoured(fleet, preferred, model) + Others(fleet, preferred, model);
            && (candidates == [] <==> forall n :: n in fleet ==> !(n.healthy && Has(n, model)))
            && (candidates != [] ==>
                  var best := candidates[LeastAt(candidates)];
                  && best in fleet && best.healthy && Has(best, model)
                  && forall n :: n in fleet && n.healthy && Has(n, model) ==>
                       best.inflight <= n.inflight
                       && (n.name in preferred && best.name !in preferred ==> best.inflight < n.inflight))
  {
    var first, others := Favoured(fleet, preferred, model), Others(fleet, preferred, model);
    var candidates := first + others;
    ServingMeans(model);
    FavouredAre(fleet, preferred, model);
    OthersAre(fleet, preferred, model);
    assert forall n :: n in candidates <==> n in fleet && CanServe(n, model);
    if candidates != [] {
      LeastAtIsFirstLeast(candidates);
      var k := LeastAt(candidates);
      assert candidates[k] in candidates;
      forall n | n in fleet && CanServe(n, model)
        ensures candidates[k].inflight <= n.inflight
        ensures n.name in preferred && candidates[k].name !in preferred ==> candidates[k].inflight < n.inflight
      {
        BestBeats(first, others, k, n);
      }
    } else {
      assert forall n :: n in fleet && CanServe(n, model) ==> n in candidates;
    }
  }

  /** The answer is a preferred node if and only if some preferred node that can serve the model is
      no busier than every node that can. */
  lemma PreferredIsAnsweredIff(fleet: seq<Node>, preferred: seq<string>, model: string)
    requires UniqueNames(fleet) && Favoured(fleet, preferred, model) + Others(fleet, preferred, model) != []
    ensures var candidates := Favoured(fleet, preferred, model) + Others(fleet, preferred, model);
            candidates[LeastAt(candidates)].name in preferred <==>
            exists p :: p in fleet && p.name in preferred && p.healthy && Has(p, model) && NoBusier(p, fleet, model)
  {
    var candidates := Favoured(fleet, preferred, model) + Others(fleet, preferred, model);
    PreferenceSettlesTies(fleet, preferred, model);
    ServingMeans(model);
    var best := candidates[LeastAt(candidates)];
    if best.name in preferred {
      assert NoBusier(best, fleet, model);
    }
    if p :| p in fleet && p.name in preferred && CanServe(p, model) && NoBusier(p, fleet, model) {
      assert p.inflight <= best.inflight;
    }
  }

  /** A model of that name is on the node. */
  ghost predicate Has(n: Node, model: string) {
    exists m :: m in n.models && m.name == model
  }

  lemma ServingMeans(model: string)
    ensures forall n :: CanServe(n, model) <==> n.healthy && Has(n, model)
  {
    forall n ensures CanServe(n, model) <==> n.healthy && Has(n, model) {
      if n.healthy && Has(n, model) {
        var m :| m in n.models && m.name == model;
        var i :| 0 <= i < |n.models| && n.models[i] == m;
      }
    }
  }

  ghost predicate NoBusier(p: Node, fleet: seq<Node>, model: string) {
    forall n :: n in fleet && n.healthy && Has(n, model) ==> p.inflight <= n.inflight
  }

  /** The preferred node has one call in flight, the other none: the other is answered. */
  method BusyPreferredIsPassedOver() returns (best: Option<Node>)
    ensures best == Some(Node("b", true, [Model("m", {}, 7)], 0))
  {
    var m := Model("m", {}, 7);
    var a, b := Node("a", true, [m], 1), Node("b", true, [m], 0);
    assert a.models[0].name == "m" && b.models[0].name == "m";
    best := FindNodeForModel([a, b], ["a"], "m");
    PreferenceSettlesTies([a, b], ["a"], "m");
    assert a in [a, b] && b in [a, b] && m in [m];
    assert Has(a, "m") && Has(b, "m");
  }

  lemma BestBeats(first: seq<Node>, others: seq<Node>, k: nat, n: Node)
    requires FirstLeast(first + others, k) && n in first + others
    ensures (first + others)[k].inflight <= n.inflight
    ensures n in first && (first + others)[k] !in first ==> (first + others)[k].inflight < n.inflight
  {
    var candidates := first + others;
    var i :| 0 <= i < |candidates| && candidates[i] == n;
    assert LessBusy(candidates[k], candidates[i]);
    if n in first && candidates[k] !in first {
      var j :| 0 <= j < |first| && first[j] == n;
      assert candidates[j] == n && k >= |first|;
    }
  }
}
