/** The two limits of the AI orchestrator (ai-orchestrator/app/main.py) as interleaved steps: a
    generation takes a slot of the whole service, then a permit of the node it calls, and counts
    itself in flight during each attempt; an embedding takes the node's permit only.

    Everything between two awaits is one step. Which node a request is sent to, how many models
    it has to try and how each attempt ends are the environment's. */
module OrchestratorLimits {
  import opened Basics

  datatype Limits = Limits(slots: nat, perNode: nat)

  datatype Kind = Generate | Embed

  /** `left` models remain to be tried; `tries` attempts at the present one have failed. */
  datatype Phase =
    | Queued
    | Choosing(left: nat)
    | AtGate(node: string, left: nat)
    | Inside(node: string, left: nat, tries: nat)
    | Calling(node: string, left: nat, tries: nat)
    | InCloud
    | Over

  datatype Request = Request(kind: Kind, phase: Phase)

  datatype State = State(
    fleet: seq<string>,
    requests: seq<Request>,
    freeSlots: int,
    free: map<string, int>,
    inflight: map<string, int>)

  datatype Action =
    | AddNode(name: string)
    | Arrive(kind: Kind)
    | Cancel(id: nat)
    | TakeSlot(id: nat, models: nat)
    | Choose(id: nat, found: Option<string>)
    | TakePermit(id: nat)
    | StartCall(id: nat)
    | Succeed(id: nat)
    | Fail(id: nat, passing: bool)
    | GiveUp(id: nat)
    | CloudEnds(id: nat)

  const RETRIES: nat := 2

  function Start(lim: Limits): State {
    State([], [], lim.slots, map[], map[])
  }

  // ── the steps ────────────────────────────────────────────────────────

  function PhaseOf(s: State, id: nat): Phase {
    if id < |s.requests| then s.requests[id].phase else Over
  }

  predicate Enabled(s: State, a: Action) {
    match a
    case AddNode(name) => name !in s.fleet
    case Arrive(_) => true
    case Cancel(id) => !PhaseOf(s, id).Over?
    case TakeSlot(id, _) => PhaseOf(s, id).Queued? && s.freeSlots > 0
    case Choose(id, found) =>
      PhaseOf(s, id).Choosing? && PhaseOf(s, id).left > 0 && (found.Some? ==> found.value in s.fleet)
    case TakePermit(id) =>
      PhaseOf(s, id).AtGate? && PhaseOf(s, id).node in s.free && s.free[PhaseOf(s, id).node] > 0
    case StartCall(id) => PhaseOf(s, id).Inside?
    case Succeed(id) => PhaseOf(s, id).Calling?
    case Fail(id, _) => PhaseOf(s, id).Calling?
    case GiveUp(id) => PhaseOf(s, id).Choosing? && PhaseOf(s, id).left == 0
    case CloudEnds(id) => PhaseOf(s, id).InCloud?
  }

  function Add(m: map<string, int>, key: string, n: int): (r: map<string, int>)
    ensures r.Keys == m.Keys
    ensures forall k :: k in m ==> r[k] == m[k] + if k == key then n else 0
  {
    if key in m then m[key := m[key] + n] else m
  }

  function Become(s: State, id: nat, p: Phase): State
    requires id < |s.requests|
  {
    s.(requests := s.requests[id := s.requests[id].(phase := p)])
  }

  /** An embedding's attempts are not counted in flight. */
  function Share(r: Request): int {
    if r.kind.Generate? then 1 else 0
  }

  /** Ending an attempt: the counter goes down however it ended. */
  function EndAttempt(s: State, r: Request): State {
    if r.phase.Calling? then s.(inflight := Add(s.inflight, r.phase.node, -Share(r))) else s
  }

  function ReturnPermit(s: State, r: Request): State {
    if r.phase.Inside? || r.phase.Calling? then s.(free := Add(s.free, r.phase.node, 1)) else s
  }

  function ReturnSlot(s: State, r: Request): State {
    if r.kind.Generate? && !r.phase.Queued? && !r.phase.Over? then s.(freeSlots := s.freeSlots + 1) else s
  }

  /** An answer, an error or a cancellation unwinds what the request is inside of. */
  function Unwind(s: State, id: nat): State
    requires id < |s.requests|
  {
    var r := s.requests[id];
    Become(ReturnSlot(ReturnPermit(EndAttempt(s, r), r), r), id, Over)
  }

  function Do(s: State, a: Action, lim: Limits): State
    requires Enabled(s, a)
  {
    match a
    case AddNode(name) =>
      s.(fleet := s.fleet + [name], free := s.free[name := lim.perNode], inflight := s.inflight[name := 0])
    case Arrive(kind) =>
      s.(requests := s.requests + [Request(kind, if kind.Generate? then Queued else Choosing(1))])
    case Cancel(id) => Unwind(s, id)
    case TakeSlot(id, models) => Become(s, id, Choosing(models)).(freeSlots := s.freeSlots - 1)
    case Choose(id, found) =>
      var left := s.requests[id].phase.left - 1;
      Become(s, id, if found.Some? then AtGate(found.value, left) else Choosing(left))
    case TakePermit(id) =>
      var p := s.requests[id].phase;
      Become(s, id, Inside(p.node, p.left, 0)).(free := Add(s.free, p.node, -1))
    case StartCall(id) =>
      var r := s.requests[id];
      Become(s, id, Calling(r.phase.node, r.phase.left, r.phase.tries))
        .(inflight := Add(s.inflight, r.phase.node, Share(r)))
    case Succeed(id) => Unwind(s, id)
    case Fail(id, passing) =>
      var r := s.requests[id];
      var ended := EndAttempt(s, r);
      if passing && r.phase.tries < RETRIES then
        Become(ended, id, Inside(r.phase.node, r.phase.left, r.phase.tries + 1))
      else
        Become(ReturnPermit(ended, r), id, Choosing(r.phase.left))
    case GiveUp(id) => if s.requests[id].kind.Generate? then Become(s, id, InCloud) else Unwind(s, id)
    case CloudEnds(id) => Unwind(s, id)
  }

  ghost predicate CanRun(s: State, actions: seq<Action>, lim: Limits)
    decreases |actions|
  {
    actions == [] || (Enabled(s, actions[0]) && CanRun(Do(s, actions[0], lim), actions[1..], lim))
  }

  ghost function Run(s: State, actions: seq<Action>, lim: Limits): State
    requires CanRun(s, actions, lim)
    decreases |actions|
  {
    if actions == [] then s else Run(Do(s, actions[0], lim), actions[1..], lim)
  }

  // ── counting requests ────────────────────────────────────────────────

  function Count(rs: seq<Request>, p: Request -> bool): nat {
    if rs == [] then 0 else Count(rs[..|rs| - 1], p) + if p(rs[|rs| - 1]) then 1 else 0
  }

  function HoldsSlot(): Request -> bool {
    (r: Request) => r.kind.Generate? && !r.phase.Queued? && !r.phase.Over?
  }

  function HoldsPermit(n: string): Request -> bool {
    (r: Request) => (r.phase.Inside? || r.phase.Calling?) && r.phase.node == n
  }

  function CountsOn(n: string): Request -> bool {
    (r: Request) => r.kind.Generate? && r.phase.Calling? && r.phase.node == n
  }

  lemma {:induction false} CountUpdate(rs: seq<Request>, id: nat, r: Request, p: Request -> bool)
    requires id < |rs|
    ensures Count(rs[id := r], p) + (if p(rs[id]) then 1 else 0) == Count(rs, p) + if p(r) then 1 else 0
  {
    var n := |rs| - 1;
    if id == n {
      assert rs[id := r][..n] == rs[..n];
    } else {
      CountUpdate(rs[..n], id, r, p);
      assert rs[id := r][..n] == rs[..n][id := r];
    }
  }

  lemma CountAppend(rs: seq<Request>, r: Request, p: Request -> bool)
    ensures Count(rs + [r], p) == Count(rs, p) + if p(r) then 1 else 0
  {
    assert (rs + [r])[..|rs|] == rs;
  }

  lemma {:induction false} CountZero(rs: seq<Request>, p: Request -> bool)
    ensures Count(rs, p) == 0 <==> forall i :: 0 <= i < |rs| ==> !p(rs[i])
  {
    if rs != [] {
      CountZero(rs[..|rs| - 1], p);
      assert forall i :: 0 <= i < |rs| - 1 ==> rs[..|rs| - 1][i] == rs[i];
    }
  }

  // ── what every step keeps ────────────────────────────────────────────

  predicate Placed(r: Request, fleet: seq<string>) {
    && (r.phase.AtGate? || r.phase.Inside? || r.phase.Calling? ==> r.phase.node in fleet)
    && (r.phase.Inside? || r.phase.Calling? ==> r.phase.tries <= RETRIES)
    && (r.phase.Queued? || r.phase.InCloud? ==> r.kind.Generate?)
  }

  ghost predicate NodeAdds(s: State, n: string, lim: Limits)
    requires n in s.free && n in s.inflight
  {
    && s.free[n] >= 0
    && s.free[n] + Count(s.requests, HoldsPermit(n)) == lim.perNode
    && s.inflight[n] == Count(s.requests, CountsOn(n))
  }

  ghost predicate Valid(s: State, lim: Limits) {
    && (forall i, j :: 0 <= i < j < |s.fleet| ==> s.fleet[i] != s.fleet[j])
    && (forall n :: n in s.fleet <==> n in s.free)
    && (forall n :: n in s.fleet <==> n in s.inflight)
    && (forall i :: 0 <= i < |s.requests| ==> Placed(s.requests[i], s.fleet))
    && s.freeSlots >= 0
    && s.freeSlots + Count(s.requests, HoldsSlot()) == lim.slots
    && (forall n :: n in s.fleet ==> NodeAdds(s, n, lim))
  }

  function One(b: bool): int {
    if b then 1 else 0
  }

  /** What one request's step does to the free permits and counters is what it holds before
      less what it holds after. */
  ghost predicate Balances(s: State, t: State, id: nat) {
    && id < |s.requests| == |t.requests|
    && t.requests == s.requests[id := t.requests[id]]
    && t.fleet == s.fleet
    && t.freeSlots == s.freeSlots + One(HoldsSlot()(s.requests[id])) - One(HoldsSlot()(t.requests[id]))
    && PermitsBalance(s.free, t.free, s.requests[id], t.requests[id])
    && CountersBalance(s.inflight, t.inflight, s.requests[id], t.requests[id])
  }

  ghost predicate PermitsBalance(free: map<string, int>, free': map<string, int>, r: Request, q: Request) {
    && free'.Keys == free.Keys
    && forall n :: n in free ==> free'[n] == free[n] + One(HoldsPermit(n)(r)) - One(HoldsPermit(n)(q))
  }

  ghost predicate CountersBalance(inflight: map<string, int>, inflight': map<string, int>, r: Request, q: Request) {
    && inflight'.Keys == inflight.Keys
    && forall n :: n in inflight ==> inflight'[n] == inflight[n] - One(CountsOn(n)(r)) + One(CountsOn(n)(q))
  }

  lemma BalancedStepIsValid(s: State, t: State, id: nat, lim: Limits)
    requires Valid(s, lim) && Balances(s, t, id)
    requires Placed(t.requests[id], t.fleet) && t.freeSlots >= 0 && forall n :: n in t.free ==> t.free[n] >= 0
    ensures Valid(t, lim)
  {
    CountUpdate(s.requests, id, t.requests[id], HoldsSlot());
    forall n | n in t.fleet ensures NodeAdds(t, n, lim) {
      assert NodeAdds(s, n, lim);
      CountUpdate(s.requests, id, t.requests[id], HoldsPermit(n));
      CountUpdate(s.requests, id, t.requests[id], CountsOn(n));
    }
  }

  lemma NewNodeIsValid(s: State, name: string, lim: Limits)
    requires Valid(s, lim) && name !in s.fleet
    ensures Valid(Do(s, AddNode(name), lim), lim)
  {
    var t := Do(s, AddNode(name), lim);
    forall n | n in t.fleet ensures NodeAdds(t, n, lim) {
      if n == name {
        CountZero(s.requests, HoldsPermit(n));
        CountZero(s.requests, CountsOn(n));
      } else {
        assert NodeAdds(s, n, lim);
      }
    }
  }

  lemma ArrivalIsValid(s: State, kind: Kind, lim: Limits)
    requires Valid(s, lim)
    ensures Valid(Do(s, Arrive(kind), lim), lim)
  {
    var t := Do(s, Arrive(kind), lim);
    var r := t.requests[|s.requests|];
    CountAppend(s.requests, r, HoldsSlot());
    forall n | n in t.fleet ensures NodeAdds(t, n, lim) {
      assert NodeAdds(s, n, lim);
      CountAppend(s.requests, r, HoldsPermit(n));
      CountAppend(s.requests, r, CountsOn(n));
    }
  }

  lemma AttemptBalances(s: State, r: Request, q: Request)
    requires !q.phase.Calling?
    ensures CountersBalance(s.inflight, EndAttempt(s, r).inflight, r, q)
  {
  }

  lemma PermitBalances(s: State, r: Request, q: Request)
    requires !q.phase.Inside? && !q.phase.Calling?
    ensures PermitsBalance(s.free, ReturnPermit(s, r).free, r, q)
  {
  }

  lemma UnwindBalances(s: State, id: nat)
    requires id < |s.requests|
    ensures Balances(s, Unwind(s, id), id) && Unwind(s, id).requests[id].phase.Over?
  {
    var r := s.requests[id];
    var q := r.(phase := Over);
    AttemptBalances(s, r, q);
    PermitBalances(s, r, q);
    assert Unwind(s, id).free == ReturnPermit(s, r).free;
    assert Unwind(s, id).inflight == EndAttempt(s, r).inflight;
  }

  lemma UnwindIsValid(s: State, id: nat, lim: Limits)
    requires Valid(s, lim) && id < |s.requests|
    ensures Valid(Unwind(s, id), lim)
  {
    UnwindBalances(s, id);
    Moved(s, Unwind(s, id), id, lim);
  }

  lemma FailBalances(s: State, a: Action, lim: Limits)
    requires a.Fail? && Enabled(s, a)
    ensures Balances(s, Do(s, a, lim), a.id)
    ensures Do(s, a, lim).requests[a.id].phase in
            {Choosing(PhaseOf(s, a.id).left), Inside(PhaseOf(s, a.id).node, PhaseOf(s, a.id).left, PhaseOf(s, a.id).tries + 1)}
    ensures Do(s, a, lim).requests[a.id].phase.Inside? ==> PhaseOf(s, a.id).tries < RETRIES
  {
    var r, t := s.requests[a.id], Do(s, a, lim);
    var q := t.requests[a.id];
    assert CountersBalance(s.inflight, EndAttempt(s, r).inflight, r, q);
    assert t.inflight == EndAttempt(s, r).inflight;
    assert PermitsBalance(s.free, t.free, r, q);
  }

  /** Permits and counters agree with what the requests hold, whatever happens next: an answer,
      an error, a retry or a cancellation at any point. */
  lemma StepKeepsValid(s: State, a: Action, lim: Limits)
    requires Valid(s, lim) && Enabled(s, a)
    ensures Valid(Do(s, a, lim), lim)
  {
    match a
    case AddNode(name) => NewNodeIsValid(s, name, lim);
    case Arrive(kind) => ArrivalIsValid(s, kind, lim);
    case Cancel(id) => UnwindIsValid(s, id, lim);
    case Succeed(id) => UnwindIsValid(s, id, lim);
    case CloudEnds(id) => UnwindIsValid(s, id, lim);
    case GiveUp(_) => GiveUpIsValid(s, a, lim);
    case Fail(_, _) => FailIsValid(s, a, lim);
    case TakeSlot(_, _) => SlotIsValid(s, a, lim);
    case TakePermit(_) => PermitIsValid(s, a, lim);
    case Choose(_, _) => ChoiceIsValid(s, a, lim);
    case StartCall(_) => CallIsValid(s, a, lim);
  }

  lemma GiveUpIsValid(s: State, a: Action, lim: Limits)
    requires Valid(s, lim) && a.GiveUp? && Enabled(s, a)
    ensures Valid(Do(s, a, lim), lim)
  {
    if s.requests[a.id].kind.Embed? {
      UnwindIsValid(s, a.id, lim);
    } else {
      Moved(s, Do(s, a, lim), a.id, lim);
    }
  }

  lemma FailIsValid(s: State, a: Action, lim: Limits)
    requires Valid(s, lim) && a.Fail? && Enabled(s, a)
    ensures Valid(Do(s, a, lim), lim)
  {
    assert Placed(s.requests[a.id], s.fleet);
    FailBalances(s, a, lim);
    Moved(s, Do(s, a, lim), a.id, lim);
  }

  lemma SlotIsValid(s: State, a: Action, lim: Limits)
    requires Valid(s, lim) && a.TakeSlot? && Enabled(s, a)
    ensures Valid(Do(s, a, lim), lim)
  {
    assert Placed(s.requests[a.id], s.fleet);
    Moved(s, Do(s, a, lim), a.id, lim);
  }

  lemma PermitIsValid(s: State, a: Action, lim: Limits)
    requires Valid(s, lim) && a.TakePermit? && Enabled(s, a)
    ensures Valid(Do(s, a, lim), lim)
  {
    assert Placed(s.requests[a.id], s.fleet);
    Moved(s, Do(s, a, lim), a.id, lim);
  }

  lemma ChoiceIsValid(s: State, a: Action, lim: Limits)
    requires Valid(s, lim) && a.Choose? && Enabled(s, a)
    ensures Valid(Do(s, a, lim), lim)
  {
    Moved(s, Do(s, a, lim), a.id, lim);
  }

  lemma CallIsValid(s: State, a: Action, lim: Limits)
    requires Valid(s, lim) && a.StartCall? && Enabled(s, a)
    ensures Valid(Do(s, a, lim), lim)
  {
    assert Placed(s.requests[a.id], s.fleet);
    Moved(s, Do(s, a, lim), a.id, lim);
  }

  lemma Moved(s: State, t: State, id: nat, lim: Limits)
    requires Valid(s, lim) && Balances(s, t, id) && Placed(t.requests[id], t.fleet)
    requires s.freeSlots > 0 || One(HoldsSlot()(s.requests[id])) >= One(HoldsSlot()(t.requests[id]))
    requires forall n :: n in s.free ==> s.free[n] > 0 || One(HoldsPermit(n)(s.requests[id])) >= One(HoldsPermit(n)(t.requests[id]))
    ensures Valid(t, lim)
  {
    assert forall n :: n in s.fleet ==> NodeAdds(s, n, lim);
    BalancedStepIsValid(s, t, id, lim);
  }

  // ── how one request goes on ──────────────────────────────────────────

  /** From which phase to which a request goes, whatever its kind. */
  ghost predicate GoesOn(kind: Kind, p: Phase, a: Action, q: Phase) {
    match a
    case TakeSlot(_, models) => p == Queued && q == Choosing(models)
    case Choose(_, found) =>
      p.Choosing? && p.left >= 1 && q == if found.Some? then AtGate(found.value, p.left - 1) else Choosing(p.left - 1)
    case TakePermit(_) => p.AtGate? && q == Inside(p.node, p.left, 0)
    case StartCall(_) => p.Inside? && q == Calling(p.node, p.left, p.tries)
    case Fail(_, passing) =>
      p.Calling? && q == if passing && p.tries < 2 then Inside(p.node, p.left, p.tries + 1) else Choosing(p.left)
    case Succeed(_) => p.Calling? && q == Over
    case GiveUp(_) => p == Choosing(0) && q == if kind == Generate then InCloud else Over
    case CloudEnds(_) => p == InCloud && q == Over
    case Cancel(_) => q == Over
    case _ => false
  }

  /** A step is that of one request, and all others stand. */
  lemma StepIsOfOne(s: State, a: Action, lim: Limits)
    requires Enabled(s, a) && !a.AddNode? && !a.Arrive?
    ensures var t := Do(s, a, lim);
            && |t.requests| == |s.requests| > a.id && t.fleet == s.fleet
            && t.requests[a.id].kind == s.requests[a.id].kind
            && GoesOn(s.requests[a.id].kind, s.requests[a.id].phase, a, t.requests[a.id].phase)
            && forall j :: 0 <= j < |s.requests| && j != a.id ==> t.requests[j] == s.requests[j]
  {
  }

  /** What it gives back and takes is what its phase held before less what its phase holds after. */
  lemma StepBalances(s: State, a: Action, lim: Limits)
    requires Valid(s, lim) && Enabled(s, a) && !a.AddNode? && !a.Arrive?
    ensures Balances(s, Do(s, a, lim), a.id)
  {
    match a
    case Cancel(id) => UnwindBalances(s, id);
    case Succeed(id) => UnwindBalances(s, id);
    case CloudEnds(id) => UnwindBalances(s, id);
    case GiveUp(id) => UnwindBalances(s, id);
    case Fail(_, _) => FailBalances(s, a, lim);
    case TakePermit(_) => PermitTaken(s, a, lim);
    case StartCall(_) => CallStarted(s, a, lim);
    case _ =>
  }

  lemma PermitTaken(s: State, a: Action, lim: Limits)
    requires Enabled(s, a) && a.TakePermit?
    ensures Balances(s, Do(s, a, lim), a.id)
  {
    var r, t := s.requests[a.id], Do(s, a, lim);
    assert PermitsBalance(s.free, t.free, r, t.requests[a.id]);
  }

  lemma CallStarted(s: State, a: Action, lim: Limits)
    requires Enabled(s, a) && a.StartCall?
    ensures Balances(s, Do(s, a, lim), a.id)
  {
    var r, t := s.requests[a.id], Do(s, a, lim);
    assert CountersBalance(s.inflight, t.inflight, r, t.requests[a.id]);
  }

  /** A generation comes to wait for a slot; an embedding needs none and has one model to try. */
  lemma ArrivalMeans(s: State, kind: Kind, lim: Limits)
    ensures var t := Do(s, Arrive(kind), lim);
            && t == s.(requests := t.requests) && |t.requests| == |s.requests| + 1 && s.requests <= t.requests
            && var r := t.requests[|s.requests|];
               r.kind == kind && r.phase == if kind == Generate then Queued else Choosing(1)
  {
  }

  /** An attempt that fails and may be repeated, so many times. */
  ghost function Failures(id: nat, n: nat): seq<Action> {
    if n == 0 then [] else [StartCall(id), Fail(id, true)] + Failures(id, n - 1)
  }

  /** A request with a node's permit: its attempts fail one after the other with errors that may pass. */
  ghost predicate Holding(s: State, id: nat, node: string, left: nat, tries: nat) {
    id < |s.requests| && s.requests[id].phase == Inside(node, left, tries)
  }

  lemma OneFailure(s: State, id: nat, node: string, left: nat, tries: nat, lim: Limits)
    requires Holding(s, id, node, left, tries) && node in s.free && node in s.inflight
    ensures Enabled(s, StartCall(id)) && Enabled(Do(s, StartCall(id), lim), Fail(id, true))
    ensures var t := Do(Do(s, StartCall(id), lim), Fail(id, true), lim);
            && |t.requests| == |s.requests| && t.inflight == s.inflight && t.freeSlots == s.freeSlots
            && if tries < 2 then Holding(t, id, node, left, tries + 1) && t.free == s.free
               else t.requests[id].phase == Choosing(left) && t.free == s.free[node := s.free[node] + 1]
  {
  }

  /** Exactly three attempts are made at a node: each failure that may pass is followed by another
      attempt under the same permit, the third one gives the permit back and the request goes on to
      what it has left to try. */
  lemma {:induction false} ThreeAttempts(s: State, id: nat, node: string, left: nat, tries: nat, n: nat, lim: Limits)
    requires Holding(s, id, node, left, tries) && node in s.free && node in s.inflight && tries <= 2
    ensures CanRun(s, Failures(id, n), lim) <==> tries + n <= 3
    ensures tries + n <= 3 ==>
              var t := Run(s, Failures(id, n), lim);
              && t.inflight == s.inflight && t.freeSlots == s.freeSlots
              && if tries + n <= 2 then Holding(t, id, node, left, tries + n) && t.free == s.free
                 else PhaseOf(t, id) == Choosing(left) && t.free == s.free[node := s.free[node] + 1]
    decreases n
  {
    if n > 0 {
      OneFailure(s, id, node, left, tries, lim);
      var t := Do(Do(s, StartCall(id), lim), Fail(id, true), lim);
      FailuresCons(s, id, n, lim);
      if tries < 2 {
        ThreeAttempts(t, id, node, left, tries + 1, n - 1, lim);
      } else if n > 1 {
        assert Failures(id, n - 1)[0] == StartCall(id) && !Enabled(t, StartCall(id));
      }
    }
  }

  lemma FailuresCons(s: State, id: nat, n: nat, lim: Limits)
    requires n > 0 && Enabled(s, StartCall(id)) && Enabled(Do(s, StartCall(id), lim), Fail(id, true))
    ensures var t := Do(Do(s, StartCall(id), lim), Fail(id, true), lim);
            && (CanRun(s, Failures(id, n), lim) <==> CanRun(t, Failures(id, n - 1), lim))
            && (CanRun(t, Failures(id, n - 1), lim) ==> Run(s, Failures(id, n), lim) == Run(t, Failures(id, n - 1), lim))
  {
    var rest := Failures(id, n - 1);
    var mid := Do(s, StartCall(id), lim);
    var tail := [Fail(id, true)] + rest;
    assert Failures(id, n) == [StartCall(id)] + tail;
    assert Failures(id, n)[1..] == tail && tail[1..] == rest;
    assert CanRun(mid, tail, lim) <==> CanRun(Do(mid, Fail(id, true), lim), rest, lim);
  }

  // ── the bounds ───────────────────────────────────────────────────────

  function Total(m: map<string, int>, names: seq<string>): int
    requires forall n :: n in names ==> n in m
  {
    if names == [] then 0 else Total(m, names[..|names| - 1]) + m[names[|names| - 1]]
  }

  /** In flight on one of the nodes. */
  function CountsOnOne(names: seq<string>): Request -> bool {
    (r: Request) => r.kind.Generate? && r.phase.Calling? && r.phase.node in names
  }

  lemma {:induction false} CountSplit(rs: seq<Request>, p: Request -> bool, q: Request -> bool, both: Request -> bool)
    requires forall r :: One(both(r)) == One(p(r)) + One(q(r))
    ensures Count(rs, both) == Count(rs, p) + Count(rs, q)
  {
    if rs != [] {
      CountSplit(rs[..|rs| - 1], p, q, both);
    }
  }

  lemma {:induction false} CountWithin(rs: seq<Request>, p: Request -> bool, q: Request -> bool)
    requires forall r :: p(r) ==> q(r)
    ensures Count(rs, p) <= Count(rs, q)
  {
    if rs != [] {
      CountWithin(rs[..|rs| - 1], p, q);
    }
  }

  lemma {:induction false} TotalCounts(s: State, names: seq<string>, lim: Limits)
    requires Valid(s, lim)
    requires forall n :: n in names ==> n in s.fleet
    requires forall i, j :: 0 <= i < j < |names| ==> names[i] != names[j]
    ensures Total(s.inflight, names) == Count(s.requests, CountsOnOne(names))
  {
    if names == [] {
      CountZero(s.requests, CountsOnOne(names));
    } else {
      var front, n := names[..|names| - 1], names[|names| - 1];
      TotalCounts(s, front, lim);
      assert NodeAdds(s, n, lim);
      assert names == front + [n] && n !in front;
      CountSplit(s.requests, CountsOnOne(front), CountsOn(n), CountsOnOne(names));
    }
  }

  ghost predicate Bounded(s: State, lim: Limits) {
    && (forall n :: n in s.fleet <==> n in s.inflight)
    && (forall n :: n in s.fleet ==> 0 <= s.inflight[n] <= lim.perNode)
    && 0 <= Total(s.inflight, s.fleet) <= lim.slots
  }

  lemma ValidIsBounded(s: State, lim: Limits)
    requires Valid(s, lim)
    ensures Bounded(s, lim)
  {
    forall n | n in s.fleet ensures 0 <= s.inflight[n] <= lim.perNode {
      assert NodeAdds(s, n, lim);
      CountWithin(s.requests, CountsOn(n), HoldsPermit(n));
    }
    TotalCounts(s, s.fleet, lim);
    CountWithin(s.requests, CountsOnOne(s.fleet), HoldsSlot());
  }

  lemma {:induction false} RunKeepsValid(s: State, actions: seq<Action>, lim: Limits)
    requires Valid(s, lim) && CanRun(s, actions, lim)
    ensures Valid(Run(s, actions, lim), lim)
    decreases |actions|
  {
    if actions != [] {
      StepKeepsValid(s, actions[0], lim);
      RunKeepsValid(Do(s, actions[0], lim), actions[1..], lim);
    }
  }

  /** In every run, no node has more calls in flight than its limit, all nodes together no more
      than the service's, and no counter goes below zero. */
  lemma EveryRunIsBounded(actions: seq<Action>, lim: Limits)
    requires CanRun(Start(lim), actions, lim)
    ensures Bounded(Run(Start(lim), actions, lim), lim)
  {
    RunKeepsValid(Start(lim), actions, lim);
    ValidIsBounded(Run(Start(lim), actions, lim), lim);
  }

  // ── every request comes to an end ────────────────────────────────────

  predicate Quiet(s: State) {
    forall i :: 0 <= i < |s.requests| ==> s.requests[i].phase.Over?
  }

  /** Nothing leaks: once all requests are over, every permit is back and every counter is zero. */
  ghost predicate AllReturned(s: State, lim: Limits) {
    && s.freeSlots == lim.slots
    && forall n :: n in s.fleet ==> n in s.free && n in s.inflight && s.free[n] == lim.perNode && s.inflight[n] == 0
  }

  lemma QuietReturnsAll(s: State, lim: Limits)
    requires Valid(s, lim) && Quiet(s)
    ensures AllReturned(s, lim)
  {
    CountZero(s.requests, HoldsSlot());
    forall n | n in s.fleet ensures s.free[n] == lim.perNode && s.inflight[n] == 0 {
      assert NodeAdds(s, n, lim);
      CountZero(s.requests, HoldsPermit(n));
      CountZero(s.requests, CountsOn(n));
    }
  }

  /** The steps of requests already here, left alone. */
  predicate Own(a: Action) {
    !a.AddNode? && !a.Arrive? && !a.Cancel?
  }

  function NextStep(s: State, id: nat): Action
    requires id < |s.requests| && !s.requests[id].phase.Over?
  {
    match s.requests[id].phase
    case Queued => TakeSlot(id, 0)
    case Choosing(left) => if left == 0 then GiveUp(id) else Choose(id, None)
    case AtGate(_, _) => TakePermit(id)
    case Inside(_, _, _) => StartCall(id)
    case Calling(_, _, _) => Succeed(id)
    case InCloud => CloudEnds(id)
  }

  predicate Waits(r: Request) {
    r.phase.Queued? || r.phase.AtGate? || r.phase.Over?
  }

  /** Waiting for a slot or a permit that is not free. */
  predicate Blocked(s: State, id: nat)
    requires id < |s.requests|
  {
    || (s.requests[id].phase.Queued? && s.freeSlots <= 0)
    || (s.requests[id].phase.AtGate? && (s.requests[id].phase.node !in s.free || s.free[s.requests[id].phase.node] <= 0))
  }

  /** No deadlock: a request waiting for a node's permit may hold a slot, but no holder of a
      permit waits for anything, so some request can always go on. */
  lemma SomeoneCanGoOn(s: State, lim: Limits) returns (id: nat)
    requires Valid(s, lim) && lim.slots > 0 && lim.perNode > 0 && !Quiet(s)
    ensures id < |s.requests| && !s.requests[id].phase.Over? && !Blocked(s, id)
  {
    if i :| 0 <= i < |s.requests| && !Waits(s.requests[i]) {
      id := i;
    } else if i :| 0 <= i < |s.requests| && s.requests[i].phase.AtGate? {
      id := i;
      var n := s.requests[i].phase.node;
      assert Placed(s.requests[i], s.fleet);
      assert NodeAdds(s, n, lim);
      assert forall k :: 0 <= k < |s.requests| ==> Waits(s.requests[k]);
      CountZero(s.requests, HoldsPermit(n));
    } else {
      id :| 0 <= id < |s.requests| && !s.requests[id].phase.Over?;
      assert forall k :: 0 <= k < |s.requests| ==> Waits(s.requests[k]);
      CountZero(s.requests, HoldsSlot());
    }
  }

  /** With no permits at all a node serves nobody. */
  lemma NoPermitsNoCalls(s: State, lim: Limits)
    requires Valid(s, lim) && lim.perNode == 0
    ensures forall i :: 0 <= i < |s.requests| ==>
              !s.requests[i].phase.Calling? && (s.requests[i].phase.AtGate? ==> Blocked(s, i))
  {
    forall i | 0 <= i < |s.requests|
      ensures !s.requests[i].phase.Calling? && (s.requests[i].phase.AtGate? ==> Blocked(s, i))
    {
      var p := s.requests[i].phase;
      assert Placed(s.requests[i], s.fleet);
      if p.AtGate? || p.Calling? {
        assert NodeAdds(s, p.node, lim);
        CountZero(s.requests, HoldsPermit(p.node));
      }
    }
  }

  function InQueue(): Request -> bool {
    (r: Request) => r.phase.Queued?
  }

  function Queue(rs: seq<Request>): nat {
    Count(rs, InQueue())
  }

  /** A bound on the steps a request has ahead of it once it has left the queue. */
  function StepsLeft(r: Request): nat {
    match r.phase
    case Queued => 0
    case Choosing(left) => 2 + 8 * left
    case AtGate(_, left) => 9 + 8 * left
    case Inside(_, left, tries) => 2 + 8 * left + if tries <= RETRIES then 2 * (RETRIES + 1 - tries) else 0
    case Calling(_, left, tries) => 2 + 8 * left + if tries <= RETRIES then 2 * (RETRIES + 1 - tries) - 1 else 0
    case InCloud => 1
    case Over => 0
  }

  function Work(rs: seq<Request>): nat {
    if rs == [] then 0 else Work(rs[..|rs| - 1]) + StepsLeft(rs[|rs| - 1])
  }

  lemma {:induction false} WorkUpdate(rs: seq<Request>, id: nat, r: Request)
    requires id < |rs|
    ensures Work(rs[id := r]) + StepsLeft(rs[id]) == Work(rs) + StepsLeft(r)
  {
    var n := |rs| - 1;
    if id == n {
      assert rs[id := r][..n] == rs[..n];
    } else {
      WorkUpdate(rs[..n], id, r);
      assert rs[id := r][..n] == rs[..n][id := r];
    }
  }

  predicate Closer(r: Request, q: Request) {
    !q.phase.Queued? && (r.phase.Queued? || StepsLeft(q) < StepsLeft(r))
  }

  lemma OwnStepIsCloser(s: State, a: Action, lim: Limits)
    requires Enabled(s, a) && Own(a) && a.id < |s.requests| && Placed(s.requests[a.id], s.fleet)
    ensures var t := Do(s, a, lim);
            |t.requests| == |s.requests| && t.requests == s.requests[a.id := t.requests[a.id]]
            && Closer(s.requests[a.id], t.requests[a.id])
  {
  }

  /** No livelock: every step of a request brings the end nearer, however the calls turn out.
      A request leaves the queue once; after that its steps are numbered. */
  lemma EveryStepIsProgress(s: State, a: Action, lim: Limits)
    requires Valid(s, lim) && Enabled(s, a) && Own(a)
    ensures var t := Do(s, a, lim);
            Queue(t.requests) < Queue(s.requests)
            || (Queue(t.requests) == Queue(s.requests) && Work(t.requests) < Work(s.requests))
  {
    OwnStepIsCloser(s, a, lim);
    var q := Do(s, a, lim).requests[a.id];
    CountUpdate(s.requests, a.id, q, InQueue());
    WorkUpdate(s.requests, a.id, q);
  }

  ghost predicate OnlyOwn(actions: seq<Action>) {
    forall i :: 0 <= i < |actions| ==> Own(actions[i])
  }

  lemma RunCons(s: State, a: Action, rest: seq<Action>, lim: Limits)
    requires Enabled(s, a) && CanRun(Do(s, a, lim), rest, lim)
    ensures CanRun(s, [a] + rest, lim) && Run(s, [a] + rest, lim) == Run(Do(s, a, lim), rest, lim)
  {
    assert ([a] + rest)[1..] == rest;
  }

  lemma SomeStepIsLeft(s: State, lim: Limits) returns (a: Action)
    requires Valid(s, lim) && lim.slots > 0 && lim.perNode > 0 && !Quiet(s)
    ensures Enabled(s, a) && Own(a) && Valid(Do(s, a, lim), lim)
  {
    var id := SomeoneCanGoOn(s, lim);
    a := NextStep(s, id);
    StepKeepsValid(s, a, lim);
  }

  /** From every state some run of the requests already here ends them all, and then everything
      taken has been returned. */
  lemma {:induction false} AllCanFinish(s: State, lim: Limits) returns (actions: seq<Action>)
    requires Valid(s, lim) && lim.slots > 0 && lim.perNode > 0
    ensures OnlyOwn(actions) && CanRun(s, actions, lim)
    ensures Quiet(Run(s, actions, lim)) && AllReturned(Run(s, actions, lim), lim)
    decreases Queue(s.requests), Work(s.requests)
  {
    if Quiet(s) {
      actions := [];
      QuietReturnsAll(s, lim);
    } else {
      var a := SomeStepIsLeft(s, lim);
      EveryStepIsProgress(s, a, lim);
      var rest := AllCanFinish(Do(s, a, lim), lim);
      actions := [a] + rest;
      RunCons(s, a, rest, lim);
    }
  }

  /** However the calls turn out, requests left alone that cannot take another step are over:
      a run that stops has stopped because everything is done. */
  lemma StuckMeansDone(s: State, lim: Limits)
    requires Valid(s, lim) && lim.slots > 0 && lim.perNode > 0
    requires forall a: Action :: Own(a) ==> !Enabled(s, a)
    ensures Quiet(s) && AllReturned(s, lim)
  {
    if !Quiet(s) {
      var a := SomeStepIsLeft(s, lim);
    }
    QuietReturnsAll(s, lim);
  }
}
