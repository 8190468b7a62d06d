/** The CI shard scheduler (scripts/ci_shard.py): test files are dealt longest first, each to
    the shard with the least time so far. Seconds are real numbers. */
module CiShard {
  import opened Sorting
  import opened Text

  type Timings = map<string, real>

  datatype Answer = Chosen(files: seq<string>) | NotAShard

  // ── weights ──────────────────────────────────────────────────────────

  function Known(files: seq<string>, timings: Timings): seq<real> {
    if files == [] then []
    else
      var n := |files| - 1;
      Known(files[..n], timings) + if files[n] in timings then [timings[files[n]]] else []
  }

  function UpTo(): (real, real) -> bool {
    (a, b) => a <= b
  }

  function Median(xs: seq<real>): real
    requires xs != []
  {
    var s := Sort(UpTo(), xs);
    SortKeepsLength(UpTo(), xs);
    var n := |s|;
    if n % 2 == 1 then s[n / 2] else (s[n / 2 - 1] + s[n / 2]) / 2.0
  }

  /** What a file with no recorded time counts as. */
  function Fallback(files: seq<string>, timings: Timings): real {
    var known := Known(files, timings);
    if known == [] then 1.0 else Median(known)
  }

  function Weight(files: seq<string>, timings: Timings): string -> real {
    var fallback := Fallback(files, timings);
    f => if f in timings then timings[f] else fallback
  }

  lemma SortKeepsLength<T(!new)>(le: (T, T) -> bool, xs: seq<T>)
    ensures |Sort(le, xs)| == |xs|
  {
    if xs != [] {
      var n := |xs| - 1;
      SortKeepsLength(le, xs[..n]);
      InsertLength(le, xs[n], Sort(le, xs[..n]));
    }
  }

  lemma InsertLength<T>(le: (T, T) -> bool, x: T, s: seq<T>)
    ensures |Insert(le, x, s)| == |s| + 1
  {
  }

  // ── what a file without a time weighs ────────────────────────────────

  /** How many of the given files have a recorded time like this. */
  function CountTimes(files: seq<string>, timings: Timings, p: real -> bool): nat {
    if files == [] then 0
    else
      var n := |files| - 1;
      CountTimes(files[..n], timings, p) + if files[n] in timings && p(timings[files[n]]) then 1 else 0
  }

  function Any(): real -> bool {
    (x: real) => true
  }

  function Under(v: real): real -> bool {
    x => x < v
  }

  function Over(v: real): real -> bool {
    x => x > v
  }

  function Recorded(files: seq<string>, timings: Timings): nat {
    CountTimes(files, timings, Any())
  }

  /** v is the recorded time at place k, counted from the shortest: no more than k are shorter, and
      those that are no longer reach beyond k. */
  ghost predicate HasPlace(files: seq<string>, timings: Timings, v: real, k: nat) {
    && CountTimes(files, timings, Under(v)) <= k
    && k < Recorded(files, timings) - CountTimes(files, timings, Over(v))
  }

  ghost predicate IsMiddle(files: seq<string>, timings: Timings, v: real) {
    var n := Recorded(files, timings);
    if n % 2 == 1 then HasPlace(files, timings, v, n / 2)
    else
      n > 0 && exists low, high ::
        HasPlace(files, timings, low, n / 2 - 1) && HasPlace(files, timings, high, n / 2) && IsMean(v, low, high)
  }

  ghost predicate IsMean(v: real, low: real, high: real) {
    v == (low + high) / 2.0
  }

  /** A file weighs its recorded time; without one, the middle of the recorded times of the given
      files, or one second when there are none. */
  lemma WeightMeans(files: seq<string>, timings: Timings, f: string)
    ensures var v := Weight(files, timings)(f);
            if f in timings then v == timings[f]
            else if Recorded(files, timings) == 0 then v == 1.0
            else IsMiddle(files, timings, v)
  {
    var known := Known(files, timings);
    CountKnown(files, timings, Any());
    CountAll(known);
    if known != [] {
      MedianIsMiddle(files, timings);
    }
  }

  function Count(xs: seq<real>, p: real -> bool): nat {
    if xs == [] then 0 else Count(xs[..|xs| - 1], p) + if p(xs[|xs| - 1]) then 1 else 0
  }

  lemma CountAppend(xs: seq<real>, x: real, p: real -> bool)
    ensures Count(xs + [x], p) == Count(xs, p) + if p(x) then 1 else 0
  {
    assert (xs + [x])[..|xs|] == xs;
  }

  lemma {:induction false} CountAll(xs: seq<real>)
    ensures Count(xs, Any()) == |xs|
  {
    if xs != [] { CountAll(xs[..|xs| - 1]); }
  }

  lemma {:induction false} CountKnown(files: seq<string>, timings: Timings, p: real -> bool)
    ensures CountTimes(files, timings, p) == Count(Known(files, timings), p)
  {
    if files != [] {
      var n := |files| - 1;
      CountKnown(files[..n], timings, p);
      if files[n] in timings {
        CountAppend(Known(files[..n], timings), timings[files[n]], p);
      } else {
        assert Known(files, timings) == Known(files[..n], timings);
      }
    }
  }

  lemma {:induction false} CountInserted(le: (real, real) -> bool, x: real, s: seq<real>, p: real -> bool)
    ensures Count(Insert(le, x, s), p) == Count(s, p) + if p(x) then 1 else 0
  {
    if s != [] && !le(s[|s| - 1], x) {
      var n := |s| - 1;
      CountInserted(le, x, s[..n], p);
      CountAppend(Insert(le, x, s[..n]), s[n], p);
    } else if s != [] {
      CountAppend(s, x, p);
    } else {
      CountAppend([], x, p);
      assert [] + [x] == [x];
    }
  }

  lemma {:induction false} CountSorted(le: (real, real) -> bool, xs: seq<real>, p: real -> bool)
    ensures Count(Sort(le, xs), p) == Count(xs, p)
  {
    if xs != [] {
      var n := |xs| - 1;
      CountSorted(le, xs[..n], p);
      CountInserted(le, xs[n], Sort(le, xs[..n]), p);
    }
  }

  lemma {:induction false} CountBefore(s: seq<real>, p: real -> bool, k: nat)
    requires k <= |s| && forall i :: k <= i < |s| ==> !p(s[i])
    ensures Count(s, p) <= k
  {
    if k < |s| {
      CountBefore(s[..|s| - 1], p, k);
    } else if k > 0 {
      CountBefore(s[..k - 1], p, k - 1);
    }
  }

  lemma {:induction false} CountAfter(s: seq<real>, p: real -> bool, k: nat)
    requires k <= |s| && forall i :: 0 <= i < k ==> !p(s[i])
    ensures Count(s, p) <= |s| - k
  {
    if k < |s| {
      CountAfter(s[..|s| - 1], p, k);
    } else if k > 0 {
      CountAfter(s[..k - 1], p, k - 1);
    }
  }

  /** In sorted order, the time at index k has place k. */
  lemma SortedHasPlace(files: seq<string>, timings: Timings, k: nat)
    requires k < |Known(files, timings)|
    ensures var s := Sort(UpTo(), Known(files, timings));
            k < |s| == Recorded(files, timings) && HasPlace(files, timings, s[k], k)
  {
    var le := UpTo();
    var known := Known(files, timings);
    var s := Sort(le, known);
    SortCorrect(le, known);
    SortKeepsLength(le, known);
    CountKnown(files, timings, Any());
    CountAll(known);
    PlaceInSorted(s, k);
    CountSorted(le, known, Under(s[k]));
    CountSorted(le, known, Over(s[k]));
    CountKnown(files, timings, Under(s[k]));
    CountKnown(files, timings, Over(s[k]));
  }

  lemma PlaceInSorted(s: seq<real>, k: nat)
    requires k < |s| && forall i, j :: 0 <= i < j < |s| ==> s[i] <= s[j]
    ensures Count(s, Under(s[k])) <= k && Count(s, Over(s[k])) <= |s| - k - 1
  {
    CountBefore(s, Under(s[k]), k);
    CountAfter(s, Over(s[k]), k + 1);
  }

  lemma MedianIsMiddle(files: seq<string>, timings: Timings)
    requires Known(files, timings) != []
    ensures IsMiddle(files, timings, Median(Known(files, timings)))
  {
    var known := Known(files, timings);
    var n, s := |known|, Sort(UpTo(), known);
    SortKeepsLength(UpTo(), known);
    SortedHasPlace(files, timings, n / 2);
    if n % 2 == 0 {
      SortedHasPlace(files, timings, n / 2 - 1);
      assert IsMean(Median(known), s[n / 2 - 1], s[n / 2]);
    }
  }

  // ── the dealing itself ───────────────────────────────────────────────

  function Sum(w: string -> real, s: seq<string>): real {
    if s == [] then 0.0 else Sum(w, s[..|s| - 1]) + w(s[|s| - 1])
  }

  lemma SumAppend(w: string -> real, s: seq<string>, f: string)
    ensures Sum(w, s + [f]) == Sum(w, s) + w(f)
  {
    assert (s + [f])[..|s|] == s;
  }

  function SumAll(w: string -> real, shards: seq<seq<string>>): real {
    if shards == [] then 0.0 else SumAll(w, shards[..|shards| - 1]) + Sum(w, shards[|shards| - 1])
  }

  function Loads(w: string -> real, shards: seq<seq<string>>): seq<real> {
    seq(|shards|, k requires 0 <= k < |shards| => Sum(w, shards[k]))
  }

  /** The lowest index among the first n holding the least load. */
  function Lightest(load: seq<real>, n: nat): (i: nat)
    requires 1 <= n <= |load|
    ensures i < n
    ensures forall k :: 0 <= k < n ==> load[i] <= load[k]
    ensures forall k :: 0 <= k < i ==> load[i] < load[k]
  {
    if n == 1 then 0
    else
      var i := Lightest(load, n - 1);
      if load[n - 1] < load[i] then n - 1 else i
  }

  /** The shard the next file goes to. */
  function Target(w: string -> real, shards: seq<seq<string>>): (i: nat)
    requires shards != []
    ensures i < |shards|
    ensures forall k :: 0 <= k < |shards| ==> Sum(w, shards[i]) <= Sum(w, shards[k])
    ensures forall k :: 0 <= k < i ==> Sum(w, shards[i]) < Sum(w, shards[k])
  {
    var load := Loads(w, shards);
    var i := Lightest(load, |shards|);
    assert forall k :: 0 <= k < |shards| ==> load[k] == Sum(w, shards[k]);
    i
  }

  function Place(w: string -> real, shards: seq<seq<string>>, f: string): seq<seq<string>>
    requires shards != []
  {
    var i := Target(w, shards);
    shards[i := shards[i] + [f]]
  }

  function Deal(w: string -> real, jobs: seq<string>, total: nat): (shards: seq<seq<string>>)
    requires total >= 1 || jobs == []
    ensures |shards| == total
  {
    if jobs == [] then seq(total, _ => [])
    else Place(w, Deal(w, jobs[..|jobs| - 1], total), jobs[|jobs| - 1])
  }

  /** Longest first, ties by name. */
  function DealOrder(w: string -> real): (string, string) -> bool {
    (a, b) => w(a) > w(b) || (w(a) == w(b) && LexLe(a, b))
  }

  /** What the scheduler answers: the files of each shard, by name. */
  function Shards(files: seq<string>, total: nat, timings: Timings): (shards: seq<seq<string>>)
    requires total >= 1 || files == []
    ensures |shards| == total
  {
    var w := Weight(files, timings);
    SortKeepsLength(DealOrder(w), files);
    var dealt := Deal(w, Sort(DealOrder(w), files), total);
    seq(total, k requires 0 <= k < total => Sort(LexLe, dealt[k]))
  }

  lemma DealStep(w: string -> real, order: seq<string>, n: nat, total: nat)
    requires total >= 1 && n < |order|
    ensures Deal(w, order[..n + 1], total) == Place(w, Deal(w, order[..n], total), order[n])
  {
    assert order[..n + 1][..n] == order[..n];
  }

  lemma DealLast(w: string -> real, jobs: seq<string>, total: nat)
    requires total >= 1 && jobs != []
    ensures Deal(w, jobs, total) == Place(w, Deal(w, jobs[..|jobs| - 1], total), jobs[|jobs| - 1])
  {
  }

  lemma PlaceLoads(w: string -> real, shards: seq<seq<string>>, f: string)
    requires shards != []
    ensures var i, load := Target(w, shards), Loads(w, shards);
            Loads(w, Place(w, shards, f)) == load[i := load[i] + w(f)]
  {
    var i, load, after := Target(w, shards), Loads(w, shards), Place(w, shards, f);
    SumAppend(w, shards[i], f);
    forall k | 0 <= k < |shards| ensures Loads(w, after)[k] == load[i := load[i] + w(f)][k] {
      assert Loads(w, after)[k] == Sum(w, after[k]);
      assert after[k] == if k == i then shards[i] + [f] else shards[k];
    }
  }

  lemma NothingDealt(w: string -> real, total: nat)
    ensures Loads(w, seq(total, _ => [])) == seq(total, _ => 0.0)
  {
    var shards: seq<seq<string>> := seq(total, _ => []);
    assert forall k :: 0 <= k < total ==> shards[k] == [] && Sum(w, shards[k]) == 0.0;
  }

  lemma TargetIsLightest(w: string -> real, shards: seq<seq<string>>, load: seq<real>)
    requires shards != [] && load == Loads(w, shards)
    ensures Lightest(load, |shards|) == Target(w, shards)
  {
  }

  /** The first n files are dealt, and the loads are known. */
  ghost predicate Dealt(w: string -> real, order: seq<string>, n: nat, shards: seq<seq<string>>, load: seq<real>) {
    n <= |order| && (shards != [] || n == 0) && shards == Deal(w, order[..n], |shards|) && load == Loads(w, shards)
  }

  lemma DealNext(w: string -> real, order: seq<string>, n: nat, shards: seq<seq<string>>, load: seq<real>, i: nat)
    requires shards != [] && n < |order| && Dealt(w, order, n, shards, load) && i == Target(w, shards)
    ensures Dealt(w, order, n + 1, shards[i := shards[i] + [order[n]]], load[i := load[i] + w(order[n])])
  {
    PlaceLoads(w, shards, order[n]);
    DealStep(w, order, n, |shards|);
    assert Place(w, shards, order[n]) == shards[i := shards[i] + [order[n]]];
  }

  method Assign(files: seq<string>, total: nat, timings: Timings) returns (result: seq<seq<string>>)
    requires total >= 1 || files == []
    ensures result == Shards(files, total, timings)
  {
    var weight := Weight(files, timings);
    var order := Sort(DealOrder(weight), files);
    SortKeepsLength(DealOrder(weight), files);
    var shards := DealOut(weight, order, total);
    result := seq(total, k requires 0 <= k < total && |shards| == total => Sort(LexLe, shards[k]));
  }

  /** The dealing loop: each file goes to the shard with the least time so far. */
  method DealOut(weight: string -> real, order: seq<string>, total: nat) returns (shards: seq<seq<string>>)
    requires total >= 1 || order == []
    ensures shards == Deal(weight, order, total)
  {
    shards := seq(total, _ => []);
    var load: seq<real> := seq(total, _ => 0.0);
    NothingDealt(weight, total);
    for n := 0 to |order|
      invariant |shards| == total
      invariant Dealt(weight, order, n, shards, load)
    {
      var f := order[n];
      var i := Lightest(load, total);
      TargetIsLightest(weight, shards, load);
      DealNext(weight, order, n, shards, load, i);
      shards := shards[i := shards[i] + [f]];
      load := load[i := load[i] + weight(f)];
    }
    assert order[..|order|] == order;
  }

  method Shard(files: seq<string>, index: int, total: int, timings: Timings) returns (answer: Answer)
    ensures 1 <= index <= total ==> answer == Chosen(Shards(files, total, timings)[index - 1])
    ensures !(1 <= index <= total) ==> answer == NotAShard
  {
    if !(1 <= index <= total) {
      return NotAShard;
    }
    var shards := Assign(files, total, timings);
    answer := Chosen(shards[index - 1]);
  }

  // ── every file lands in exactly one shard ────────────────────────────

  /** Everything the shards hold, with its multiplicity. */
  ghost function Contents(shards: seq<seq<string>>): multiset<string> {
    if shards == [] then multiset{} else Contents(shards[..|shards| - 1]) + multiset(shards[|shards| - 1])
  }

  /** Some way of splitting the jobs over the shards, whole jobs only. */
  ghost predicate IsSplit(shards: seq<seq<string>>, total: nat, jobs: seq<string>) {
    |shards| == total && Contents(shards) == multiset(jobs)
  }

  lemma AddToBoth(a: multiset<string>, p: multiset<string>, b: multiset<string>, q: multiset<string>, t: multiset<string>)
    requires a + p == b + q
    ensures (a + t) + p == (b + t) + q
  {
    assert (a + t) + p == (a + p) + t;
    assert (b + t) + q == (b + q) + t;
  }

  lemma Cancel(a: multiset<string>, b: multiset<string>, c: multiset<string>)
    requires a + c == b + c
    ensures a == b
  {
    assert a == (a + c) - c;
    assert b == (b + c) - c;
  }

  lemma {:induction false} ContentsUpdate(shards: seq<seq<string>>, i: nat, s: seq<string>)
    requires i < |shards|
    ensures Contents(shards[i := s]) + multiset(shards[i]) == Contents(shards) + multiset(s)
  {
    var n := |shards| - 1;
    if i == n {
      assert shards[i := s][..n] == shards[..n];
    } else {
      var front := shards[..n];
      ContentsUpdate(front, i, s);
      assert shards[i := s][..n] == front[i := s];
      assert shards[i := s][n] == shards[n] && front[i] == shards[i];
      assert Contents(shards[i := s]) == Contents(front[i := s]) + multiset(shards[n]);
      AddToBoth(Contents(front[i := s]), multiset(shards[i]), Contents(front), multiset(s), multiset(shards[n]));
    }
  }

  lemma {:induction false} ContentsEmpty(total: nat)
    ensures Contents(seq(total, _ => [])) == multiset{}
  {
    if total > 0 {
      ContentsEmpty(total - 1);
      assert seq<seq<string>>(total, _ => [])[..total - 1] == seq<seq<string>>(total - 1, _ => []);
    }
  }

  lemma PlaceIsSplit(w: string -> real, before: seq<seq<string>>, total: nat, jobs: seq<string>, x: string)
    requires total >= 1 && IsSplit(before, total, jobs)
    ensures IsSplit(Place(w, before, x), total, jobs + [x])
  {
    var i := Target(w, before);
    ContentsUpdate(before, i, before[i] + [x]);
    Cancel(Contents(Place(w, before, x)), Contents(before) + multiset{x}, multiset(before[i]));
  }

  lemma {:induction false} DealIsSplit(w: string -> real, jobs: seq<string>, total: nat)
    requires total >= 1 || jobs == []
    ensures IsSplit(Deal(w, jobs, total), total, jobs)
  {
    if jobs == [] {
      ContentsEmpty(total);
    } else {
      var n := |jobs| - 1;
      DealIsSplit(w, jobs[..n], total);
      assert jobs == jobs[..n] + [jobs[n]];
      PlaceIsSplit(w, Deal(w, jobs[..n], total), total, jobs[..n], jobs[n]);
    }
  }

  lemma {:induction false} ContentsPointwise(a: seq<seq<string>>, b: seq<seq<string>>)
    requires |a| == |b|
    requires forall k :: 0 <= k < |a| ==> multiset(a[k]) == multiset(b[k])
    ensures Contents(a) == Contents(b)
  {
    if a != [] {
      ContentsPointwise(a[..|a| - 1], b[..|b| - 1]);
    }
  }

  lemma LexIsTotal()
    ensures TotalPreorder(LexLe)
  {
    forall a: string, b: string ensures LexLe(a, b) || LexLe(b, a) {
      LexTotal(a, b);
    }
    forall a: string, b: string, c: string | LexLe(a, b) && LexLe(b, c) ensures LexLe(a, c) {
      LexTransitive(a, b, c);
    }
  }

  lemma DealOrderIsTotal(w: string -> real)
    ensures TotalPreorder(DealOrder(w))
  {
    LexIsTotal();
  }

  /** The shards together hold every file, each as often as it was given, and nothing else. */
  lemma ShardsAreASplit(files: seq<string>, total: nat, timings: Timings)
    requires total >= 1 || files == []
    ensures IsSplit(Shards(files, total, timings), total, files)
  {
    var w := Weight(files, timings);
    var order := Sort(DealOrder(w), files);
    SortKeepsLength(DealOrder(w), files);
    DealOrderIsTotal(w);
    SortCorrect(DealOrder(w), files);
    DealIsSplit(w, order, total);
    LexIsTotal();
    var dealt := Deal(w, order, total);
    forall k | 0 <= k < total ensures multiset(Shards(files, total, timings)[k]) == multiset(dealt[k]) {
      SortCorrect(LexLe, dealt[k]);
    }
    ContentsPointwise(Shards(files, total, timings), dealt);
  }

  // ── sums over splits ─────────────────────────────────────────────────

  lemma {:induction false} SumConcat(w: string -> real, a: seq<string>, b: seq<string>)
    ensures Sum(w, a + b) == Sum(w, a) + Sum(w, b)
  {
    if b == [] {
      assert a + b == a;
    } else {
      var n := |b| - 1;
      SumConcat(w, a, b[..n]);
      assert (a + b)[..|a + b| - 1] == a + b[..n];
    }
  }

  lemma {:induction false} SumRemove(w: string -> real, s: seq<string>, i: nat)
    requires i < |s|
    ensures Sum(w, s) == Sum(w, s[..i] + s[i + 1..]) + w(s[i])
    ensures multiset(s) == multiset(s[..i] + s[i + 1..]) + multiset{s[i]}
  {
    assert s == (s[..i] + [s[i]]) + s[i + 1..];
    SumConcat(w, s[..i] + [s[i]], s[i + 1..]);
    SumConcat(w, s[..i], s[i + 1..]);
    assert (s[..i] + [s[i]])[..i] == s[..i];
  }

  /** A sum does not depend on the order of its terms. */
  lemma {:induction false} SumPermuted(w: string -> real, a: seq<string>, b: seq<string>)
    requires multiset(a) == multiset(b)
    ensures Sum(w, a) == Sum(w, b)
    decreases |a|
  {
    if a == [] {
      assert |multiset(b)| == 0;
    } else {
      var n := |a| - 1;
      assert a == a[..n] + [a[n]];
      assert a[n] in multiset(b);
      var i :| 0 <= i < |b| && b[i] == a[n];
      SumRemove(w, b, i);
      var rest := b[..i] + b[i + 1..];
      assert multiset(a[..n]) == multiset(a) - multiset{a[n]};
      assert multiset(rest) == multiset(b) - multiset{a[n]};
      SumPermuted(w, a[..n], rest);
    }
  }

  lemma {:induction false} SumAllContents(w: string -> real, shards: seq<seq<string>>) returns (all: seq<string>)
    ensures multiset(all) == Contents(shards)
    ensures SumAll(w, shards) == Sum(w, all)
  {
    if shards == [] {
      all := [];
    } else {
      var n := |shards| - 1;
      var front := SumAllContents(w, shards[..n]);
      all := front + shards[n];
      SumConcat(w, front, shards[n]);
    }
  }

  lemma SplitTotal(w: string -> real, shards: seq<seq<string>>, total: nat, jobs: seq<string>)
    requires IsSplit(shards, total, jobs)
    ensures SumAll(w, shards) == Sum(w, jobs)
  {
    var all := SumAllContents(w, shards);
    SumPermuted(w, all, jobs);
  }

  /** n * x, as n additions. */
  ghost function Times(n: nat, x: real): real {
    if n == 0 then 0.0 else Times(n - 1, x) + x
  }

  lemma {:induction false} TimesIsProduct(n: nat, x: real)
    ensures Times(n, x) == n as real * x
  {
    if n > 0 {
      TimesIsProduct(n - 1, x);
      assert n as real * x == (n - 1) as real * x + x;
    }
  }

  lemma {:induction false} SumAllAtMost(w: string -> real, shards: seq<seq<string>>, bound: real)
    requires forall k :: 0 <= k < |shards| ==> Sum(w, shards[k]) <= bound
    ensures SumAll(w, shards) <= Times(|shards|, bound)
  {
    if shards != [] {
      SumAllAtMost(w, shards[..|shards| - 1], bound);
    }
  }

  lemma {:induction false} SumAllAtLeast(w: string -> real, shards: seq<seq<string>>, bound: real)
    requires forall k :: 0 <= k < |shards| ==> Sum(w, shards[k]) >= bound
    ensures SumAll(w, shards) >= Times(|shards|, bound)
  {
    if shards != [] {
      SumAllAtLeast(w, shards[..|shards| - 1], bound);
    }
  }

  lemma {:induction false} SumAtLeastAMember(w: string -> real, s: seq<string>, x: string)
    requires forall f :: f in s ==> w(f) >= 0.0
    requires x in s
    ensures Sum(w, s) >= w(x)
  {
    var n := |s| - 1;
    SumNonNegative(w, s[..n]);
    if x != s[n] {
      SumAtLeastAMember(w, s[..n], x);
    }
  }

  lemma {:induction false} SumNonNegative(w: string -> real, s: seq<string>)
    requires forall f :: f in s ==> w(f) >= 0.0
    ensures Sum(w, s) >= 0.0
  {
    if s != [] {
      SumNonNegative(w, s[..|s| - 1]);
    }
  }

  lemma {:induction false} ContentsMember(shards: seq<seq<string>>, x: string)
    ensures x in Contents(shards) <==> exists k :: 0 <= k < |shards| && x in shards[k]
  {
    if shards != [] {
      var n := |shards| - 1;
      ContentsMember(shards[..n], x);
      if k :| 0 <= k < n && x in shards[..n][k] {
        assert x in shards[k];
      }
    }
  }

  lemma SplitMember(shards: seq<seq<string>>, total: nat, jobs: seq<string>, x: string)
    requires IsSplit(shards, total, jobs)
    ensures x in jobs <==> exists k :: 0 <= k < |shards| && x in shards[k]
  {
    ContentsMember(shards, x);
    assert x in jobs <==> x in multiset(jobs);
  }

  // ── the approximation bounds ─────────────────────────────────────────

  /** `other` is any way of splitting the jobs in which no shard takes longer than `T`. */
  ghost predicate Feasible(w: string -> real, other: seq<seq<string>>, total: nat, jobs: seq<string>, T: real) {
    IsSplit(other, total, jobs) && forall k :: 0 <= k < |other| ==> Sum(w, other[k]) <= T
  }

  ghost predicate NonNegative(w: string -> real, jobs: seq<string>) {
    forall f :: f in jobs ==> w(f) >= 0.0
  }

  /** Taking a job away from a split leaves a split of the others, no slower. */
  lemma DropLast(w: string -> real, other: seq<seq<string>>, total: nat, jobs: seq<string>, x: string, T: real)
    returns (fewer: seq<seq<string>>)
    requires Feasible(w, other, total, jobs + [x], T) && NonNegative(w, jobs + [x])
    ensures Feasible(w, fewer, total, jobs, T)
    ensures w(x) <= T
  {
    SplitMember(other, total, jobs + [x], x);
    var k :| 0 <= k < |other| && x in other[k];
    var i :| 0 <= i < |other[k]| && other[k][i] == x;
    var rest := other[k][..i] + other[k][i + 1..];
    SumRemove(w, other[k], i);
    fewer := other[k := rest];
    ContentsUpdate(other, k, rest);
    Cancel(Contents(fewer), multiset(jobs), multiset(other[k]));
    forall f | f in other[k] ensures w(f) >= 0.0 {
      SplitMember(other, total, jobs + [x], f);
    }
    SumAtLeastAMember(w, other[k], x);
  }

  /** The lightest shard is no heavier than the average over any split. */
  lemma LightestIsBelowAverage(w: string -> real, before: seq<seq<string>>, jobs: seq<string>, x: string, total: nat,
                               other: seq<seq<string>>, T: real)
    requires total >= 1 && IsSplit(before, total, jobs) && Feasible(w, other, total, jobs + [x], T)
    ensures Times(total, Sum(w, before[Target(w, before)])) + w(x) <= Times(total, T)
  {
    var least := Sum(w, before[Target(w, before)]);
    SumAllAtLeast(w, before, least);
    SplitTotal(w, before, total, jobs);
    SumAppend(w, jobs, x);
    SplitTotal(w, other, total, jobs + [x]);
    SumAllAtMost(w, other, T);
  }

  /** One more job multiplies the bound by what the last job can add. */
  lemma ListStep(m: nat, least: real, x: real, T: real)
    requires m >= 1 && Times(m, least) + x <= Times(m, T) && 0.0 <= x <= T
    ensures Times(m, least + x) <= Times(2 * m - 1, T)
  {
    TimesIsProduct(m, least);
    TimesIsProduct(m, T);
    TimesIsProduct(m, least + x);
    TimesIsProduct(2 * m - 1, T);
    ListArithmetic(m as real, least, x, T);
  }

  lemma ListArithmetic(m: real, least: real, x: real, T: real)
    requires m >= 1.0 && m * least + x <= m * T && 0.0 <= x <= T
    ensures m * (least + x) <= (2.0 * m - 1.0) * T
  {
    assert (m - 1.0) * x <= (m - 1.0) * T;
  }

  /** Every shard within the limit. */
  ghost predicate AllWithin(w: string -> real, shards: seq<seq<string>>, n: nat, limit: real) {
    forall k :: 0 <= k < |shards| ==> Times(n, Sum(w, shards[k])) <= limit
  }

  lemma ListPlace(w: string -> real, before: seq<seq<string>>, jobs: seq<string>, x: string, total: nat,
                  other: seq<seq<string>>, T: real)
    requires total >= 1 && IsSplit(before, total, jobs)
    requires Feasible(w, other, total, jobs + [x], T) && 0.0 <= w(x) <= T
    requires AllWithin(w, before, total, Times(2 * total - 1, T))
    ensures AllWithin(w, Place(w, before, x), total, Times(2 * total - 1, T))
  {
    LightestIsBelowAverage(w, before, jobs, x, total, other, T);
    ListStep(total, Sum(w, before[Target(w, before)]), w(x), T);
    PlacedWithin(w, before, x, total, Times(2 * total - 1, T));
  }

  /** List scheduling, in whatever order the jobs come: no shard exceeds (2 - 1/m) times the
      slowest shard of any other split. */
  lemma {:induction false} ListBound(w: string -> real, jobs: seq<string>, total: nat, other: seq<seq<string>>, T: real)
    requires total >= 1 && Feasible(w, other, total, jobs, T) && NonNegative(w, jobs)
    ensures AllWithin(w, Deal(w, jobs, total), total, Times(2 * total - 1, T))
    decreases |jobs|
  {
    if jobs == [] {
      BoundIsNonNegative(w, other, total, T);
      TimesMonotone(total, 2 * total - 1, T);
    } else {
      var n := |jobs| - 1;
      assert jobs == jobs[..n] + [jobs[n]];
      var fewer := DropLast(w, other, total, jobs[..n], jobs[n], T);
      ListBound(w, jobs[..n], total, fewer, T);
      DealIsSplit(w, jobs[..n], total);
      ListPlace(w, Deal(w, jobs[..n], total), jobs[..n], jobs[n], total, other, T);
    }
  }

  lemma PlacedWithin(w: string -> real, before: seq<seq<string>>, x: string, n: nat, limit: real)
    requires before != [] && AllWithin(w, before, n, limit)
    requires Times(n, Sum(w, before[Target(w, before)]) + w(x)) <= limit
    ensures AllWithin(w, Place(w, before, x), n, limit)
  {
    SumAppend(w, before[Target(w, before)], x);
  }

  lemma {:induction false} TimesMonotone(n: nat, m: nat, T: real)
    requires T >= 0.0
    ensures Times(n, 0.0) == 0.0 <= Times(m, T)
  {
    if n > 0 {
      TimesMonotone(n - 1, m, T);
    } else if m > 0 {
      TimesMonotone(n, m - 1, T);
    }
  }

  lemma BoundIsNonNegative(w: string -> real, other: seq<seq<string>>, total: nat, T: real)
    requires total >= 1 && Feasible(w, other, total, [], T)
    ensures T >= 0.0
  {
    if other[0] != [] {
      SplitMember(other, total, [], other[0][0]);
      assert false;
    }
  }

  /** The counting weight of the 4/3 argument: 2 for a job too long to share a shard with a
      job of length x within T, else 1. */
  function Slots(w: string -> real, x: real, T: real): string -> real {
    f => if w(f) > T - x then 2.0 else 1.0
  }

  lemma {:induction false} SlotsAtLeastCount(w: string -> real, x: real, T: real, s: seq<string>)
    ensures Sum(Slots(w, x, T), s) >= |s| as real
  {
    if s != [] {
      SlotsAtLeastCount(w, x, T, s[..|s| - 1]);
    }
  }

  /** When every job is longer than T/3, a shard within T has at most two slots' worth. */
  lemma FewSlotsWithinT(w: string -> real, x: real, T: real, s: seq<string>)
    requires forall f :: f in s ==> w(f) >= x
    requires 3.0 * x > T && 0.0 <= x <= T
    requires Sum(w, s) <= T
    ensures Sum(Slots(w, x, T), s) <= 2.0
  {
    var c := Slots(w, x, T);
    if |s| >= 1 {
      var a := s[..|s| - 1];
      var last := s[|s| - 1];
      if |s| == 1 {
        assert Sum(c, a) == 0.0;
      } else {
        var b := a[..|a| - 1];
        var prev := a[|a| - 1];
        assert Sum(w, s) == Sum(w, b) + w(prev) + w(last);
        assert last in s && prev in s;
        if b == [] {
          assert c(last) == 1.0 && c(prev) == 1.0;
        } else {
          forall f | f in b ensures w(f) >= x { assert f in s; }
          SumNonNegative(w, b[..|b| - 1]);
          assert false;
        }
      }
    }
  }

  /** A shard already holding more than T - x has at least two slots' worth. */
  lemma ManySlotsAboveT(w: string -> real, x: real, T: real, s: seq<string>)
    requires x <= T
    requires Sum(w, s) > T - x
    ensures Sum(Slots(w, x, T), s) >= 2.0
  {
    var c := Slots(w, x, T);
    if |s| >= 2 {
      SlotsAtLeastCount(w, x, T, s);
    } else {
      assert |s| == 1;
      assert s[..0] == [];
      assert Sum(w, s) == w(s[0]);
      assert Sum(c, s) == c(s[0]);
    }
  }

  /** Longest-first order: no job is shorter than a later one. */
  ghost predicate LongestFirst(w: string -> real, jobs: seq<string>) {
    forall i, j :: 0 <= i < j < |jobs| ==> w(jobs[i]) >= w(jobs[j])
  }

  /** If the job being dealt is longer than T/3, it lands within T: otherwise the shards would
      already hold more slots than any split within T offers. */
  lemma LongLastJobFits(w: string -> real, before: seq<seq<string>>, jobs: seq<string>, last: string, total: nat,
                        other: seq<seq<string>>, T: real)
    requires total >= 1 && IsSplit(before, total, jobs) && Feasible(w, other, total, jobs + [last], T)
    requires forall f :: f in jobs ==> w(f) >= w(last)
    requires 0.0 <= w(last) <= T && 3.0 * w(last) > T
    ensures Sum(w, before[Target(w, before)]) + w(last) <= T
  {
    var x := w(last);
    var c := Slots(w, x, T);
    if Sum(w, before[Target(w, before)]) + x > T {
      forall k | 0 <= k < |before| ensures Sum(c, before[k]) >= 2.0 {
        ManySlotsAboveT(w, x, T, before[k]);
      }
      SumAllAtLeast(c, before, 2.0);
      SplitTotal(c, before, total, jobs);
      forall k | 0 <= k < |other| ensures Sum(c, other[k]) <= 2.0 {
        forall f | f in other[k] ensures w(f) >= x {
          SplitMember(other, total, jobs + [last], f);
        }
        FewSlotsWithinT(w, x, T, other[k]);
      }
      SumAllAtMost(c, other, 2.0);
      SplitTotal(c, other, total, jobs + [last]);
      SumAppend(c, jobs, last);
      assert false;
    }
  }

  lemma LptStep(m: nat, least: real, x: real, T: real)
    requires m >= 1 && Times(m, least) + x <= Times(m, T) && 0.0 <= x <= T
    requires 3.0 * x > T ==> least + x <= T
    ensures Times(3 * m, least + x) <= Times(4 * m - 1, T)
  {
    TimesIsProduct(m, least);
    TimesIsProduct(m, T);
    TimesIsProduct(3 * m, least + x);
    TimesIsProduct(4 * m - 1, T);
    LptArithmetic(m as real, least, x, T);
  }

  lemma LptArithmetic(m: real, least: real, x: real, T: real)
    requires m >= 1.0 && m * least + x <= m * T && 0.0 <= x <= T
    requires 3.0 * x > T ==> least + x <= T
    ensures 3.0 * m * (least + x) <= (4.0 * m - 1.0) * T
  {
    if 3.0 * x > T {
      assert m * (least + x) <= m * T;
      assert (m - 1.0) * T >= 0.0;
    } else {
      assert (m - 1.0) * (3.0 * x) <= (m - 1.0) * T;
      assert 3.0 * m * (least + x) == 3.0 * (m * least + x) + (m - 1.0) * (3.0 * x);
    }
  }

  lemma LptPlace(w: string -> real, before: seq<seq<string>>, jobs: seq<string>, x: string, total: nat,
                 other: seq<seq<string>>, T: real)
    requires total >= 1 && IsSplit(before, total, jobs)
    requires Feasible(w, other, total, jobs + [x], T) && 0.0 <= w(x) <= T
    requires forall f :: f in jobs ==> w(f) >= w(x)
    requires AllWithin(w, before, 3 * total, Times(4 * total - 1, T))
    ensures AllWithin(w, Place(w, before, x), 3 * total, Times(4 * total - 1, T))
  {
    LightestIsBelowAverage(w, before, jobs, x, total, other, T);
    if 3.0 * w(x) > T {
      LongLastJobFits(w, before, jobs, x, total, other, T);
    }
    LptStep(total, Sum(w, before[Target(w, before)]), w(x), T);
    PlacedWithin(w, before, x, 3 * total, Times(4 * total - 1, T));
  }

  /** Graham's bound for longest-first dealing: no shard exceeds (4/3 - 1/(3m)) times the
      slowest shard of any other split of the same jobs. */
  lemma {:induction false} LptBound(w: string -> real, jobs: seq<string>, total: nat, other: seq<seq<string>>, T: real)
    requires total >= 1 && Feasible(w, other, total, jobs, T) && NonNegative(w, jobs)
    requires LongestFirst(w, jobs)
    ensures AllWithin(w, Deal(w, jobs, total), 3 * total, Times(4 * total - 1, T))
    decreases |jobs|
  {
    if jobs == [] {
      BoundIsNonNegative(w, other, total, T);
      TimesMonotone(3 * total, 4 * total - 1, T);
    } else {
      var n := |jobs| - 1;
      assert jobs == jobs[..n] + [jobs[n]];
      var fewer := DropLast(w, other, total, jobs[..n], jobs[n], T);
      LptBound(w, jobs[..n], total, fewer, T);
      DealIsSplit(w, jobs[..n], total);
      LptPlace(w, Deal(w, jobs[..n], total), jobs[..n], jobs[n], total, other, T);
    }
  }

  // ── the scheduler as a whole ─────────────────────────────────────────

  lemma {:induction false} KnownNonNegative(files: seq<string>, timings: Timings)
    requires forall f :: f in timings ==> timings[f] >= 0.0
    ensures forall x :: x in Known(files, timings) ==> x >= 0.0
  {
    if files != [] {
      KnownNonNegative(files[..|files| - 1], timings);
    }
  }

  lemma MedianNonNegative(xs: seq<real>)
    requires xs != [] && forall x :: x in xs ==> x >= 0.0
    ensures Median(xs) >= 0.0
  {
    var s := Sort(UpTo(), xs);
    SortKeepsLength(UpTo(), xs);
    SortCorrect(UpTo(), xs);
    forall k | 0 <= k < |s| ensures s[k] >= 0.0 {
      assert s[k] in multiset(s);
      assert s[k] in multiset(xs);
      assert s[k] in xs;
    }
  }

  lemma WeightsAreNonNegative(files: seq<string>, timings: Timings)
    requires forall f :: f in timings ==> timings[f] >= 0.0
    ensures forall f :: Weight(files, timings)(f) >= 0.0
  {
    KnownNonNegative(files, timings);
    if Known(files, timings) != [] {
      MedianNonNegative(Known(files, timings));
    }
  }

  /** load <= (4/3 - 1/(3m)) * T, multiplied out. */
  ghost predicate WithinLptFactor(m: nat, load: real, T: real) {
    (3 * m) as real * load <= (4 * m - 1) as real * T
  }

  /** The answer of the scheduler: whatever other way the files are split over the shards, no
      shard of the answer takes more than (4/3 - 1/(3m)) times that split's slowest shard. */
  lemma ShardsAreBalanced(files: seq<string>, total: nat, timings: Timings, other: seq<seq<string>>, T: real)
    requires total >= 1
    requires forall f :: f in timings ==> timings[f] >= 0.0
    requires Feasible(Weight(files, timings), other, total, files, T)
    ensures forall k :: 0 <= k < total ==>
      WithinLptFactor(total, Sum(Weight(files, timings), Shards(files, total, timings)[k]), T)
  {
    var w := Weight(files, timings);
    var order := Sort(DealOrder(w), files);
    WeightsAreNonNegative(files, timings);
    DealOrderIsTotal(w);
    SortCorrect(DealOrder(w), files);
    assert LongestFirst(w, order) by {
      forall i, j | 0 <= i < j < |order| ensures w(order[i]) >= w(order[j]) {
        assert DealOrder(w)(order[i], order[j]);
      }
    }
    LptBound(w, order, total, other, T);
    SortKeepsLength(DealOrder(w), files);
    forall k | 0 <= k < total ensures WithinLptFactor(total, Sum(w, Shards(files, total, timings)[k]), T) {
      LexIsTotal();
      ListedShard(w, Deal(w, order, total)[k], total, T);
    }
  }

  lemma ListedShard(w: string -> real, dealt: seq<string>, total: nat, T: real)
    requires total >= 1 && TotalPreorder(LexLe)
    requires Times(3 * total, Sum(w, dealt)) <= Times(4 * total - 1, T)
    ensures WithinLptFactor(total, Sum(w, Sort(LexLe, dealt)), T)
  {
    SortCorrect(LexLe, dealt);
    SumPermuted(w, Sort(LexLe, dealt), dealt);
    FactorFromTimes(total, Sum(w, dealt), T);
  }

  lemma FactorFromTimes(total: nat, load: real, T: real)
    requires total >= 1 && Times(3 * total, load) <= Times(4 * total - 1, T)
    ensures WithinLptFactor(total, load, T)
  {
    TimesIsProduct(3 * total, load);
    TimesIsProduct(4 * total - 1, T);
  }

  /** The order of dealing and the answer: longest first, ties by name; each shard lists the files it
      was dealt, by name. */
  lemma AnswerMeans(files: seq<string>, total: nat, timings: Timings)
    requires total >= 1
    ensures var w := Weight(files, timings);
            var order := Sort(DealOrder(w), files);
            && multiset(order) == multiset(files)
            && (forall i, j :: 0 <= i < j < |order| ==>
                  w(order[i]) > w(order[j]) || (w(order[i]) == w(order[j]) && LexLe(order[i], order[j])))
            && forall k :: 0 <= k < total ==>
                 SortedBy(LexLe, Shards(files, total, timings)[k])
                 && multiset(Shards(files, total, timings)[k]) == multiset(Deal(w, order, total)[k])
  {
    var w := Weight(files, timings);
    DealOrderIsTotal(w);
    SortCorrect(DealOrder(w), files);
    InDealOrder(w, files);
    SortKeepsLength(DealOrder(w), files);
    LexIsTotal();
    forall k | 0 <= k < total
      ensures SortedBy(LexLe, Shards(files, total, timings)[k])
      ensures multiset(Shards(files, total, timings)[k]) == multiset(Deal(w, Sort(DealOrder(w), files), total)[k])
    {
      SortCorrect(LexLe, Deal(w, Sort(DealOrder(w), files), total)[k]);
    }
  }

  lemma InDealOrder(w: string -> real, files: seq<string>)
    requires SortedBy(DealOrder(w), Sort(DealOrder(w), files))
    ensures var order := Sort(DealOrder(w), files);
            forall i, j :: 0 <= i < j < |order| ==>
              w(order[i]) > w(order[j]) || (w(order[i]) == w(order[j]) && LexLe(order[i], order[j]))
  {
    var order := Sort(DealOrder(w), files);
    forall i, j | 0 <= i < j < |order|
      ensures w(order[i]) > w(order[j]) || (w(order[i]) == w(order[j]) && LexLe(order[i], order[j]))
    {
      assert DealOrder(w)(order[i], order[j]);
    }
  }
}
