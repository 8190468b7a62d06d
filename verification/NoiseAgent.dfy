/** The noise agent's loop (noise-agent/tn_noise_agent/runner.py): overlapping plans are
    carried out at most once, although the agent forgets what it did an hour ago. Times are
    real numbers of seconds. */
module NoiseAgent {
  import opened Basics
  import opened Sorting
  import opened Text

  const STALE_SECONDS := 120.0
  const MEMORY_SECONDS := 3600.0
  const REPORT_BATCH := 500

  datatype Key = Key(at: string, persona: string, kind: string, target: string)

  datatype Action = Action(key: Key, sig: string)

  /** What is reported: the planned fields and signature as they came, and whether it worked. */
  datatype Result = Result(key: Key, sig: string, ok: bool)

  datatype Plan = Plan(pollSeconds: real, actions: seq<Action>)

  /** An execution: the clock when it was judged on time, and when it started. */
  datatype Run = Run(key: Key, checked: real, started: real)

  datatype Verdict = Done | Handled | Stop | Raised

  predicate AtLe(a: Action, b: Action) {
    LexLe(a.key.at, b.key.at)
  }

  lemma AtLeIsTotal()
    ensures TotalPreorder(AtLe)
  {
    forall a: Action, b: Action ensures AtLe(a, b) || AtLe(b, a) {
      LexTotal(a.key.at, b.key.at);
    }
    forall a: Action, b: Action, c: Action | AtLe(a, b) && AtLe(b, c) ensures AtLe(a, c) {
      LexTransitive(a.key.at, b.key.at, c.key.at);
    }
  }

  function Max(a: real, b: real): real {
    if a >= b then a else b
  }

  predicate Stale(due: real, clock: real) {
    clock - due > STALE_SECONDS
  }

  predicate Forgotten(due: real, clock: real) {
    due < clock - MEMORY_SECONDS
  }

  /** Forgetting is safe exactly when the clock never falls back by more than 3480 s: only then
      is every forgotten action stale whenever it comes up again. */
  lemma ForgottenIsStale(stepBack: real)
    ensures (forall due, clock :: Forgotten(due, clock) ==> Stale(due, clock - stepBack)) <==> stepBack <= 3480.0
    ensures forall due, clock :: Stale(due, clock) <==> clock - due > 120.0
    ensures forall due, clock :: Forgotten(due, clock) <==> clock - due > 3600.0
  {
    if stepBack > MEMORY_SECONDS - STALE_SECONDS {
      var due := -MEMORY_SECONDS - (stepBack - (MEMORY_SECONDS - STALE_SECONDS));
      assert Forgotten(due, 0.0) && !Stale(due, 0.0 - stepBack);
    }
  }

  ghost function Concat(batches: seq<seq<Result>>): seq<Result> {
    if batches == [] then [] else Concat(batches[..|batches| - 1]) + batches[|batches| - 1]
  }

  lemma ConcatAppend(batches: seq<seq<Result>>, batch: seq<Result>)
    ensures Concat(batches + [batch]) == Concat(batches) + batch
  {
    assert (batches + [batch])[..|batches|] == batches;
  }

  lemma ReportedNext(reported: seq<seq<Result>>, n: nat, results: seq<Result>, i: nat, end: nat)
    requires n <= |reported| && i <= end <= |results| && Concat(reported[n..]) == results[..i]
    ensures Concat((reported + [results[i..end]])[n..]) == results[..end]
  {
    ConcatAppend(reported[n..], results[i..end]);
    assert (reported + [results[i..end]])[n..] == reported[n..] + [results[i..end]];
    assert results[..end] == results[..i] + results[i..end];
  }

  class Runner {
    /** When an action's timestamp falls due; None when it does not parse. */
    const dueOf: string -> Option<real>
    /** How far the clock may fall back behind its highest reading. */
    const slack: real
    /** Sleeps are exact and nothing else takes time. */
    const exact: bool
    /** The controller takes every report. */
    const reliable: bool

    var now: real
    var done: map<Key, real>
    var poll: real
    var latest: real
    ghost var executed: seq<Run>
    ghost var reported: seq<seq<Result>>

    /** The clock falls back so little that whatever is forgotten is stale. */
    predicate Steady() {
      slack <= MEMORY_SECONDS - STALE_SECONDS
    }

    ghost predicate Remembered(key: Key)
      reads this`done, this`latest
    {
      var due := dueOf(key.at);
      due.Some? && ((key in done && done[key] == due.value) || Forgotten(due.value, latest))
    }

    ghost predicate Valid()
      reads this`now, this`latest, this`done, this`executed
    {
      && 0.0 <= slack && latest - slack <= now <= latest
      && (forall k :: k in done ==> dueOf(k.at) == Some(done[k]))
      && (forall i :: 0 <= i < |executed| ==> Remembered(executed[i].key))
      && (Steady() ==> forall i, j :: 0 <= i < j < |executed| ==> executed[i].key != executed[j].key)
      && (forall i :: 0 <= i < |executed| ==> !Stale(dueOf(executed[i].key.at).value, executed[i].checked))
      && (exact ==> forall k :: k in done ==> RanSince(k, 0) || now - done[k] > 120.0)
    }

    constructor (dueOf: string -> Option<real>, slack: real, exact: bool, reliable: bool, now: real)
      requires 0.0 <= slack
      ensures Valid() && executed == [] && reported == [] && done == map[] && poll == 60.0
      ensures this.dueOf == dueOf && this.slack == slack && this.exact == exact && this.reliable == reliable && this.now == now
    {
      this.dueOf, this.slack, this.exact, this.reliable, this.now := dueOf, slack, exact, reliable, now;
      done, poll, latest, executed, reported := map[], 60.0, now, [], [];
    }

    /** Time passes while other code runs. */
    method Pass()
      requires Valid()
      modifies this`now, this`latest
      ensures Valid() && latest >= old(latest)
      ensures exact ==> now == old(now) && latest == old(latest)
    {
      if !exact {
        var t: real := *;
        if t >= latest - slack {
          now := t;
          latest := Max(latest, t);
        }
      }
    }

    method Sleep(seconds: real)
      requires Valid() && seconds >= 0.0
      modifies this`now, this`latest
      ensures Valid() && latest >= old(latest)
      ensures exact ==> now == old(now) + seconds
    {
      if exact {
        now := now + seconds;
        latest := Max(latest, now);
      } else {
        Pass();
      }
    }

    /** An unsupported kind, a refused target or any failure is a result, never a crash. */
    method Execute(action: Action) returns (result: Result)
      requires Valid()
      modifies this`now, this`latest
      ensures Valid() && latest >= old(latest)
      ensures exact ==> now == old(now) && latest == old(latest)
      ensures result.key == action.key && result.sig == action.sig
    {
      var worked: bool := *;
      Pass();
      result := Result(action.key, action.sig, worked);
    }

    /** One action of the plan. */
    method Handle(action: Action, horizon: real) returns (verdict: Verdict, results: seq<Result>)
      requires Valid()
      modifies this
      ensures Valid() && latest >= old(latest) && poll == old(poll) && reported == old(reported)
      ensures verdict == Raised <==> action.key !in old(done) && dueOf(action.key.at).None?
      ensures verdict == Done <==> action.key in old(done)
      ensures verdict == Stop <==> action.key !in old(done) && dueOf(action.key.at).Some? && dueOf(action.key.at).value >= horizon
      ensures verdict != Handled ==> results == [] && executed == old(executed) && done == old(done)
      ensures verdict != Handled && exact ==> now == old(now) && latest == old(latest)
      ensures verdict == Handled ==> done == old(done)[action.key := dueOf(action.key.at).value]
      ensures verdict == Handled ==>
                || (results == [] && executed == old(executed) && latest - dueOf(action.key.at).value > 120.0)
                || (|results| == 1 && results[0].key == action.key && results[0].sig == action.sig
                    && |executed| == |old(executed)| + 1 && old(executed) <= executed && executed[|old(executed)|].key == action.key)
      ensures verdict == Handled && exact ==>
                var due := dueOf(action.key.at).value;
                if old(now) - due > 120.0 then executed == old(executed) && now == old(now)
                else executed == old(executed) + [Run(action.key, old(now), Max(old(now), due))] && now == Max(old(now), due)
    {
      results := [];
      if action.key in done {
        return Done, [];
      }
      var due := dueOf(action.key.at);
      if due.None? {
        return Raised, [];
      }
      if due.value >= horizon {
        return Stop, [];
      }
      verdict := Handled;
      Pass();
      var checked := now;
      if Stale(due.value, checked) {
        done := done[action.key := due.value];
        return;
      }
      results := Carry(action, due.value, checked);
    }

    /** An action on time is awaited, executed and remembered. Had its key been executed before
        and forgotten, it would have been stale. */
    method Carry(action: Action, due: real, checked: real) returns (results: seq<Result>)
      requires Valid() && action.key !in done && dueOf(action.key.at) == Some(due) && !Stale(due, checked) && checked == now
      modifies this
      ensures Valid() && latest >= old(latest) && poll == old(poll) && reported == old(reported)
      ensures done == old(done)[action.key := due]
      ensures |results| == 1 && results[0].key == action.key && results[0].sig == action.sig
      ensures |executed| == |old(executed)| + 1 && old(executed) <= executed && executed[|old(executed)|].key == action.key
      ensures exact ==> executed == old(executed) + [Run(action.key, checked, Max(checked, due))] && now == Max(checked, due)
    {
      assert forall i :: 0 <= i < |executed| ==> Remembered(executed[i].key);
      assert Steady() ==> forall i :: 0 <= i < |executed| ==> executed[i].key != action.key;
      if due > checked {
        Sleep(due - checked);
      }
      ghost var started := now;
      var result := Execute(action);
      results := [result];
      executed := executed + [Run(action.key, checked, started)];
      StillRan(action.key);
      done := done[action.key := due];
    }

    twostate lemma StillRan(key: Key)
      requires old(executed) <= executed && |executed| > |old(executed)| && executed[|old(executed)|].key == key
      ensures RanSince(key, |old(executed)|) && RanSince(key, 0)
      ensures forall k, from :: old(RanSince(k, from)) ==> RanSince(k, from)
    {
    }

    /** Everything of the plan that is due before the horizon, in order. `horizon` was set at
        the current clock. */
    method CarryOut(actions: seq<Action>, horizon: real) returns (finished: bool, results: seq<Result>)
      requires Valid()
      modifies this
      ensures Valid() && latest >= old(latest) && poll == old(poll) && reported == old(reported)
      ensures old(executed) <= executed && Matches(results, executed[|old(executed)|..])
      ensures forall i :: |old(executed)| <= i < |executed| ==> executed[i].key !in old(done) && KeyIn(executed[i].key, actions)
      ensures finished && InOrder(actions) ==>
                forall a :: a in actions && dueOf(a.key.at).Some? && dueOf(a.key.at).value < horizon ==> a.key in done
      ensures !finished ==> exists a :: a in actions && Stuck(a, actions, old(done), done.Keys)
      ensures forall k :: k in done ==> k in old(done) || RanSince(k, |old(executed)|) || latest - done[k] > 120.0
      ensures forall k :: k in old(done) ==> k in done
      ensures exact && InOrder(actions) ==>
                && (forall i :: |old(executed)| <= i < |executed| ==> OnTime(executed[i], old(now)))
                && (forall k :: k in done && k !in old(done) && old(now) - done[k] <= 120.0 ==> RanSince(k, |old(executed)|))
    {
      ghost var t0, n0, done0 := now, |executed|, done;
      var order := Sort(AtLe, actions);
      AtLeIsTotal();
      SortCorrect(AtLe, actions);
      SameMembers(order, actions);
      finished, results := true, [];
      var i := 0;
      while i < |order|
        invariant 0 <= i <= |order| && finished
        invariant Valid() && latest >= old(latest) && poll == old(poll) && reported == old(reported)
        invariant old(executed) <= executed && Tracked(order, i, n0, done0, results)
        invariant exact && InOrder(actions) ==> Punctual(order, i, n0, done0, t0)
      {
        var verdict, more;
        verdict, more := Next(order, i, horizon, actions, n0, done0, t0, results);
        if verdict == Raised {
          TrackedRuns(order, i, n0, done0, results, actions);
          RaisedAfterAll(order, i, actions, done0);
          finished := false;
          return;
        }
        if verdict == Stop {
          TrackedRuns(order, i, n0, done0, results, actions);
          StopSkipsNothing(order, i, actions, horizon);
          return;
        }
        results := more;
        i := i + 1;
      }
      TrackedRuns(order, i, n0, done0, results, actions);
    }

    /** The timestamp does not parse; whatever comes before it in the order of the timestamps is
        dealt with. */
    ghost predicate Stuck(a: Action, actions: seq<Action>, known: map<Key, real>, handled: set<Key>) {
      && a.key !in known && dueOf(a.key.at).None?
      && forall b :: b in actions && !LexLe(a.key.at, b.key.at) ==> b.key in handled
    }

    lemma RaisedAfterAll(order: seq<Action>, i: nat, actions: seq<Action>, known: map<Key, real>)
      requires i < |order| && SortedBy(AtLe, order) && dueOf(order[i].key.at).None?
      requires forall a :: a in order <==> a in actions
      requires forall j :: 0 <= j < i ==> order[j].key in done
      ensures order[i] in actions && (order[i].key !in known ==> Stuck(order[i], actions, known, done.Keys))
    {
      forall b | b in actions && !LexLe(order[i].key.at, b.key.at) ensures b.key in done {
        assert b in order;
        var j :| 0 <= j < |order| && order[j] == b;
        LexTotal(b.key.at, b.key.at);
        assert i < j ==> AtLe(order[i], order[j]);
      }
    }

    /** The first i actions are behind us; what ran since `from` is in the results. */
    ghost predicate Tracked(order: seq<Action>, i: nat, from: nat, done0: map<Key, real>, results: seq<Result>)
      reads this`executed, this`done, this`latest
    {
      TrackedAt(order, i, from, done0, results, executed, done, latest)
    }

    ghost predicate TrackedAt(order: seq<Action>, i: nat, from: nat, done0: map<Key, real>, results: seq<Result>,
                              ran: seq<Run>, known: map<Key, real>, late: real) {
      && from <= |ran| && i <= |order|
      && Matches(results, ran[from..])
      && (forall j :: from <= j < |ran| ==> ran[j].key !in done0 && ran[j].key in known && KeyIn(ran[j].key, order))
      && (forall j :: 0 <= j < i ==> order[j].key in known)
      && (forall k :: k in done0 ==> k in known)
      && (forall k :: k in known ==> k in done0 || (exists j :: from <= j < |ran| && ran[j].key == k) || late - known[k] > 120.0)
    }

    /** With exact sleeps: what ran was on time, and what is known now either was known before,
        was stale, or ran. */
    ghost predicate Punctual(order: seq<Action>, i: nat, from: nat, done0: map<Key, real>, t0: real)
      reads this`now, this`executed, this`done
    {
      && t0 <= now && NotPast(order, i, t0)
      && (forall j :: from <= j < |executed| ==> OnTime(executed[j], t0))
      && (forall k :: k in done && k !in done0 && t0 - done[k] <= 120.0 ==> RanSince(k, from))
    }

    lemma TrackedRuns(order: seq<Action>, i: nat, from: nat, done0: map<Key, real>, results: seq<Result>, actions: seq<Action>)
      requires Tracked(order, i, from, done0, results) && forall a :: a in order <==> a in actions
      ensures forall j :: from <= j < |executed| ==> executed[j].key !in done0 && KeyIn(executed[j].key, actions)
    {
    }

    /** One turn of the loop. */
    method Next(order: seq<Action>, i: nat, horizon: real, ghost actions: seq<Action>, ghost from: nat,
                ghost done0: map<Key, real>, ghost t0: real, results: seq<Result>)
      returns (verdict: Verdict, more: seq<Result>)
      requires Valid() && i < |order| && Tracked(order, i, from, done0, results)
      requires SortedBy(AtLe, order) && forall a :: a in order <==> a in actions
      requires exact && InOrder(actions) ==> Punctual(order, i, from, done0, t0)
      modifies this
      ensures Valid() && latest >= old(latest) && poll == old(poll) && reported == old(reported)
      ensures old(executed) <= executed
      ensures if verdict == Raised || verdict == Stop
              then more == results && executed == old(executed) && done == old(done) && (exact ==> now == old(now))
                   && (verdict == Raised ==> order[i].key !in done && dueOf(order[i].key.at).None?)
              else Tracked(order, i + 1, from, done0, more)
      ensures verdict == Stop ==> dueOf(order[i].key.at).Some? && dueOf(order[i].key.at).value >= horizon
      ensures exact && InOrder(actions) ==>
                Punctual(order, if verdict == Raised || verdict == Stop then i else i + 1, from, done0, t0)
    {
      ghost var ran, before, known, late := executed, now, done, latest;
      var result;
      verdict, result := Handle(order[i], horizon);
      more := results + result;
      assert KeyIn(order[i].key, order);
      if verdict == Done || verdict == Handled {
        KeepTracked(order, i, from, done0, results, result, ran, known, late);
      }
      if exact && InOrder(actions) && (verdict == Done || verdict == Handled) {
        KeepPunctual(order, i, actions, from, done0, t0, ran, before, known, verdict);
      }
    }

    /** What one action did to what was executed and done: nothing if it was known, else it is done
        now, and was stale or ran. */
    ghost predicate OneDone(key: Key, ran: seq<Run>, known: map<Key, real>, more: seq<Result>)
      reads this`executed, this`done, this`latest
    {
      && ran <= executed && key in done
      && if key in known then executed == ran && done == known && more == []
         else
           && done == known[key := done[key]]
           && ((executed == ran && more == [] && latest - done[key] > 120.0)
               || (|executed| == |ran| + 1 && executed[|ran|].key == key && |more| == 1 && more[0].key == key))
    }

    lemma KeepTracked(order: seq<Action>, i: nat, from: nat, done0: map<Key, real>, results: seq<Result>, more: seq<Result>,
                      ran: seq<Run>, known: map<Key, real>, late: real)
      requires i < |order| && TrackedAt(order, i, from, done0, results, ran, known, late) && latest >= late
      requires OneDone(order[i].key, ran, known, more)
      ensures TrackedAt(order, i + 1, from, done0, results + more, executed, done, latest)
    {
      var key := order[i].key;
      assert order[i] in order && KeyIn(key, order);
      assert executed[from..] == ran[from..] + executed[|ran|..];
      forall k | k in done && k !in done0 ensures RanSince(k, from) || latest - done[k] > 120.0 {
        if k == key && key !in known {
          assert executed != ran ==> executed[|ran|].key == key;
        } else if j :| from <= j < |ran| && ran[j].key == k {
          assert executed[j].key == k;
        }
      }
    }

    lemma KeepPunctual(order: seq<Action>, i: nat, actions: seq<Action>, from: nat, done0: map<Key, real>, t0: real,
                       ran: seq<Run>, before: real, known: map<Key, real>, verdict: Verdict)
      requires Valid() && i < |order| && from <= |ran| && SortedBy(AtLe, order) && InOrder(actions)
      requires forall a :: a in order <==> a in actions
      requires t0 <= before
      requires forall j :: i <= j < |order| && dueOf(order[j].key.at).Some? ==> before <= Max(t0, dueOf(order[j].key.at).value)
      requires forall j :: from <= j < |ran| ==> OnTime(ran[j], t0)
      requires forall k :: k in known && k !in done0 && t0 - known[k] <= 120.0 ==> exists j :: from <= j < |ran| && ran[j].key == k
      requires verdict == Done ==> executed == ran && done == known && now == before
      requires verdict != Done ==> verdict == Handled && dueOf(order[i].key.at).Some?
      requires verdict == Handled ==> done == known[order[i].key := dueOf(order[i].key.at).value]
      requires verdict == Handled && Stale(dueOf(order[i].key.at).value, before) ==> executed == ran && now == before
      requires verdict == Handled && !Stale(dueOf(order[i].key.at).value, before) ==>
                 now == Max(before, dueOf(order[i].key.at).value) && executed == ran + [Run(order[i].key, before, now)]
      ensures Punctual(order, i + 1, from, done0, t0)
    {
      if verdict == Handled {
        NextNotPast(order, i, actions, t0);
      }
      forall k | k in done && k !in done0 && t0 - done[k] <= 120.0 ensures RanSince(k, from) {
        if verdict == Handled && k == order[i].key {
          assert !Stale(done[k], before);
          assert executed[|ran|].key == k;
        } else {
          var j :| from <= j < |ran| && ran[j].key == k;
          assert executed[j].key == k;
        }
      }
    }

    /** The clock has not passed what is still to come, except for what was late at t0. */
    ghost predicate NotPast(order: seq<Action>, i: nat, t0: real)
      reads this`now
    {
      forall j :: i <= j < |order| && dueOf(order[j].key.at).Some? ==> now <= Max(t0, dueOf(order[j].key.at).value)
    }

    lemma NextNotPast(order: seq<Action>, i: nat, actions: seq<Action>, t0: real)
      requires i < |order| && SortedBy(AtLe, order) && InOrder(actions)
      requires forall a :: a in order <==> a in actions
      requires dueOf(order[i].key.at).Some? ==> now <= Max(t0, dueOf(order[i].key.at).value)
      requires dueOf(order[i].key.at).None? ==> NotPast(order, i, t0)
      ensures NotPast(order, i + 1, t0)
    {
      forall j | i + 1 <= j < |order| && dueOf(order[j].key.at).Some?
        ensures now <= Max(t0, dueOf(order[j].key.at).value)
      {
        assert AtLe(order[i], order[j]);
        assert order[i] in order && order[j] in order;
      }
    }

    lemma StopSkipsNothing(order: seq<Action>, i: nat, actions: seq<Action>, horizon: real)
      requires i < |order| && SortedBy(AtLe, order)
      requires forall a :: a in order <==> a in actions
      requires dueOf(order[i].key.at).Some? && dueOf(order[i].key.at).value >= horizon
      requires forall j :: 0 <= j < i ==> order[j].key in done
      ensures InOrder(actions) ==>
                forall a :: a in actions && dueOf(a.key.at).Some? && dueOf(a.key.at).value < horizon ==> a.key in done
    {
      if InOrder(actions) {
        forall a | a in actions && dueOf(a.key.at).Some? && dueOf(a.key.at).value < horizon ensures a.key in done {
          assert a in order;
          var j :| 0 <= j < |order| && order[j] == a;
          assert order[i] in order;
        }
      }
    }

    /** Timestamps that compare as text the way they compare as times. */
    ghost predicate InOrder(actions: seq<Action>) {
      forall a, b :: a in actions && b in actions && dueOf(a.key.at).Some? && dueOf(b.key.at).Some? && LexLe(a.key.at, b.key.at)
                     ==> dueOf(a.key.at).value <= dueOf(b.key.at).value
    }

    /** Started when due, or at once when it was already due, and never more than 120 s late. */
    ghost predicate OnTime(run: Run, t0: real) {
      var due := dueOf(run.key.at);
      due.Some? && run.started == Max(t0, due.value) && due.value <= run.started <= due.value + 120.0
    }

    ghost predicate RanSince(key: Key, from: nat)
      reads this`executed
    {
      exists i :: from <= i < |executed| && executed[i].key == key
    }

    /** The results posted to the controller, in batches; a failing call ends the cycle. */
    method Report(results: seq<Result>) returns (posted: bool)
      requires Valid()
      modifies this`now, this`latest, this`reported
      ensures Valid() && latest >= old(latest) && (exact ==> now == old(now))
      ensures old(reported) <= reported
      ensures forall i :: |old(reported)| <= i < |reported| ==> 1 <= |reported[i]| <= 500
      ensures posted ==> Concat(reported[|old(reported)|..]) == results
      ensures reliable ==> posted
      ensures Concat(reported[|old(reported)|..]) <= results
    {
      ghost var n := |reported|;
      posted := true;
      var i := 0;
      while i < |results|
        invariant 0 <= i && posted && Valid() && latest >= old(latest) && (exact ==> now == old(now))
        invariant old(reported) <= reported
        invariant forall j :: n <= j < |reported| ==> 1 <= |reported[j]| <= REPORT_BATCH
        invariant Concat(reported[n..]) == results[..if i <= |results| then i else |results|]
        decreases |results| - i
      {
        var end := if i + REPORT_BATCH <= |results| then i + REPORT_BATCH else |results|;
        Pass();
        var taken: bool := *;
        posted := reliable || taken;
        if !posted { return; }
        ReportedNext(reported, n, results, i, end);
        reported := reported + [results[i..end]];
        i := i + REPORT_BATCH;
      }
      assert results[..|results|] == results;
    }

    /** Forgets what fell due more than an hour ago. */
    method Forget()
      requires Valid()
      modifies this`now, this`latest, this`done
      ensures Valid() && latest >= old(latest) && (exact ==> now == old(now) && latest == old(latest))
      ensures done == map k | k in old(done) && !Forgotten(old(done)[k], now) :: old(done)[k]
    {
      Pass();
      var cutoff := now - MEMORY_SECONDS;
      done := map k | k in done && done[k] >= cutoff :: done[k];
    }

    ghost predicate AllParse(actions: seq<Action>) {
      forall a :: a in actions ==> dueOf(a.key.at).Some?
    }

    /** One poll. An answer of None stands for a failing call. `horizon` is when the next poll
        is due and `handled` what was done, dropped or known before anything was forgotten. */
    method Cycle(plan: Option<Plan>) returns (ok: bool, wait: real, ghost horizon: real, ghost handled: set<Key>)
      requires Valid()
      modifies this
      ensures Valid() && latest >= old(latest)
      ensures old(executed) <= executed && old(reported) <= reported
      ensures plan.None? ==> !ok && executed == old(executed) && reported == old(reported)
      ensures poll == if plan.Some? then plan.value.pollSeconds else old(poll)
      ensures plan.Some? ==> old(latest) - slack <= horizon - plan.value.pollSeconds <= latest
      ensures ok ==> wait == if horizon > now then horizon - now else 0.0
      // what ran was planned and new, and what was reported is what ran
      ensures forall i :: |old(executed)| <= i < |executed| ==>
                executed[i].key !in old(done) && plan.Some? && KeyIn(executed[i].key, plan.value.actions)
      ensures forall i :: |old(reported)| <= i < |reported| ==> 1 <= |reported[i]| <= 500
      ensures ok ==> plan.Some? && Matches(Concat(reported[|old(reported)|..]), executed[|old(executed)|..])
      // what is due is dealt with, up to the first timestamp that does not parse
      ensures plan.Some? && reliable && !ok ==> exists a :: a in plan.value.actions && Stuck(a, plan.value.actions, old(done), handled)
      ensures plan.Some? && AllParse(plan.value.actions) && InOrder(plan.value.actions) ==>
                forall a :: a in plan.value.actions && dueOf(a.key.at).value < horizon ==> a.key in handled
      ensures forall k :: k in handled ==>
                dueOf(k.at).Some? && (k in old(done) || RanSince(k, |old(executed)|) || latest - dueOf(k.at).value > 120.0)
      ensures done.Keys <= handled && (!ok ==> done.Keys == handled)
      ensures ok ==> forall k :: k in handled && k !in done ==> latest - dueOf(k.at).value > 3600.0
      // with exact sleeps
      ensures exact && plan.Some? ==> horizon == old(now) + plan.value.pollSeconds
      ensures exact && ok ==> forall k :: k in handled ==> (k in done <==> now - dueOf(k.at).value <= 3600.0)
      ensures exact && plan.Some? && InOrder(plan.value.actions) ==>
                && (forall i :: |old(executed)| <= i < |executed| ==> OnTime(executed[i], old(now)))
                && (forall k :: k in handled && k !in old(done) && old(now) - dueOf(k.at).value <= 120.0 ==> RanSince(k, |old(executed)|))
    {
      ok, wait, horizon, handled := false, 0.0, 0.0, done.Keys;
      Pass();
      if plan.None? { return; }
      poll := plan.value.pollSeconds;
      Pass();
      var until := now + poll;
      horizon := until;
      var results;
      ok, results := CarryOut(plan.value.actions, until);
      handled := done.Keys;
      if !ok { return; }
      ok := Report(results);
      if !ok { return; }
      Forget();
      Pass();
      wait := Max(0.0, until - now);
    }

    /** Any number of polls with whatever the controller answers: no action is ever executed
        twice, if the clock never falls back by more than 3480 s, and none is started on a check more than 120 s after it fell due.
        With exact sleeps, every action a plan lists in time, and due before the next poll, has run by then. */
    method RunFor(plans: seq<Option<Plan>>) returns (ghost polls: seq<Poll>)
      requires Valid()
      modifies this
      ensures Valid() && old(executed) <= executed
      ensures slack <= 3480.0 ==> forall i, j :: 0 <= i < j < |executed| ==> executed[i].key != executed[j].key
      ensures forall i :: 0 <= i < |executed| ==> dueOf(executed[i].key.at).Some? && executed[i].checked - dueOf(executed[i].key.at).value <= 120.0
      ensures |polls| == |plans| && forall n :: 0 <= n < |polls| ==> polls[n].plan == plans[n]
      ensures exact ==> AllServed(polls, executed, old(now))
    {
      polls := [];
      for n := 0 to |plans|
        invariant Valid() && old(executed) <= executed
        invariant |polls| == n && forall k :: 0 <= k < n ==> polls[k].plan == plans[k]
        invariant exact ==> AllServed(polls, executed, old(now))
        invariant exact ==> now == if n == 0 then old(now) else polls[n - 1].next
      {
        ghost var ran := executed;
        ghost var poll := Turn(plans[n]);
        if exact {
          OneMoreServed(polls, poll, ran, executed, old(now));
        }
        polls := polls + [poll];
      }
      assert forall i :: 0 <= i < |executed| ==> Remembered(executed[i].key);
    }

    /** One poll and the wait after it: 30 s after a failure. */
    method Turn(plan: Option<Plan>) returns (ghost poll: Poll)
      requires Valid()
      modifies this
      ensures Valid() && old(executed) <= executed && poll.plan == plan
      ensures exact ==> Served(poll, executed) && poll.start == old(now) && poll.next == now && Paused(poll)
    {
      var ok, wait;
      ghost var horizon, handled;
      ghost var known, start := done, now;
      ok, wait, horizon, handled := Cycle(plan);
      ghost var end := now;
      if exact && plan.Some? && AllParse(plan.value.actions) && InOrder(plan.value.actions) {
        forall a | a in plan.value.actions && start - dueOf(a.key.at).value <= 120.0 && dueOf(a.key.at).value < start + plan.value.pollSeconds
          ensures RanSince(a.key, 0)
        {
          assert a.key in handled;
          if a.key in known {
            assert old(RanSince(a.key, 0));
          }
        }
      }
      if !ok {
        wait := 30.0;
      }
      Sleep(wait);
      poll := Poll(plan, start, ok, end, now, |executed|);
    }

    /** Every action of the plan that was not late at the poll, and due before the next, has run by
        the end of it; and the poll succeeds when the controller takes the reports. */
    ghost predicate Served(p: Poll, executed: seq<Run>) {
      && p.ran <= |executed|
      && (p.plan.Some? && AllParse(p.plan.value.actions) ==>
            && (reliable ==> p.ok)
            && (InOrder(p.plan.value.actions) ==>
                  forall a :: a in p.plan.value.actions && p.start - dueOf(a.key.at).value <= 120.0
                              && dueOf(a.key.at).value < p.start + p.plan.value.pollSeconds
                              ==> exists i :: 0 <= i < p.ran && executed[i].key == a.key))
    }

    lemma StillServed(p: Poll, before: seq<Run>, after: seq<Run>)
      requires Served(p, before) && before <= after
      ensures Served(p, after)
    {
      if p.plan.Some? && AllParse(p.plan.value.actions) && InOrder(p.plan.value.actions) {
        forall a | a in p.plan.value.actions && p.start - dueOf(a.key.at).value <= 120.0
                   && dueOf(a.key.at).value < p.start + p.plan.value.pollSeconds
          ensures exists i :: 0 <= i < p.ran && after[i].key == a.key
        {
          var i :| 0 <= i < p.ran && before[i].key == a.key;
          assert after[i].key == a.key;
        }
      }
    }

    ghost predicate AllServed(polls: seq<Poll>, executed: seq<Run>, first: real) {
      forall n :: 0 <= n < |polls| ==> Served(polls[n], executed) && OnSchedule(polls, n, first)
    }

    lemma OneMoreServed(polls: seq<Poll>, poll: Poll, before: seq<Run>, after: seq<Run>, first: real)
      requires AllServed(polls, before, first) && before <= after && Served(poll, after) && Paused(poll)
      requires poll.start == if polls == [] then first else polls[|polls| - 1].next
      ensures AllServed(polls + [poll], after, first)
    {
      var more := polls + [poll];
      forall n | 0 <= n < |more| ensures Served(more[n], after) && OnSchedule(more, n, first) {
        if n < |polls| {
          StillServed(polls[n], before, after);
          assert OnSchedule(polls, n, first);
        }
      }
    }

    /** The wait after a poll: to the end of its poll seconds, or 30 s after a failure. */
    ghost predicate Paused(p: Poll) {
      p.next == if !p.ok || p.plan.None? then p.end + 30.0
                else if p.start + p.plan.value.pollSeconds > p.end then p.start + p.plan.value.pollSeconds
                else p.end
    }

    ghost predicate OnSchedule(polls: seq<Poll>, n: nat, first: real) {
      n < |polls| && Paused(polls[n]) && polls[n].start == if n == 0 then first else polls[n - 1].next
    }
  }

  /** A poll: its plan, the clock at its start and end and after the wait, and how many actions had
      run by then. */
  datatype Poll = Poll(plan: Option<Plan>, start: real, ok: bool, end: real, next: real, ran: nat)

  /** Any larger step back is enough for an action to run twice: carried out when due, forgotten when
      the clock reads an hour and the excess later, and on time again once it has fallen back. */
  method StepBackRunsTwice(slack: real, action: Action) returns (r: Runner)
    requires slack > 3480.0
    ensures r.Valid() && r.slack == slack
    ensures |r.executed| == 2 && r.executed[0].key == r.executed[1].key == action.key
  {
    var excess := slack - (MEMORY_SECONDS - STALE_SECONDS);
    r := new Runner(_ => Some(0.0), slack, true, true, 0.0);
    var verdict, results := r.Handle(action, 60.0);
    r.now, r.latest := MEMORY_SECONDS + excess, MEMORY_SECONDS + excess;
    r.Forget();
    assert action.key !in r.done;
    r.now := r.latest - slack;
    verdict, results := r.Handle(action, 180.0);
  }

  predicate KeyIn(key: Key, actions: seq<Action>) {
    exists a :: a in actions && a.key == key
  }

  /** The results answer for exactly these executions, in order. */
  ghost predicate Matches(results: seq<Result>, runs: seq<Run>) {
    |results| == |runs| && forall i :: 0 <= i < |runs| ==> results[i].key == runs[i].key
  }

  lemma SameMembers<T>(a: seq<T>, b: seq<T>)
    requires multiset(a) == multiset(b)
    ensures forall x :: x in a <==> x in b
  {
    forall x ensures x in a <==> x in b {
      assert x in a <==> x in multiset(a);
    }
  }
}
