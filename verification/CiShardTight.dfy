/** The longest-first bound of the scheduler (scripts/ci_shard.py) cannot be improved: for every
    number of shards there are files on which the answer is exactly (4/3 - 1/(3m)) times slower
    than need be. Two files each of 2m-1 down to m+1, and three of m. */
module CiShardTight {
  import opened CiShard
  import opened Sorting
  import opened Text

  function Name(i: nat): string {
    seq(i, _ => 'x')
  }

  function Size(m: nat, i: nat): nat
    requires m >= 1
  {
    if i < 2 * m then 2 * m - 1 - Half(i) else m
  }

  function Half(i: nat): (h: nat)
    ensures i == 2 * h || i == 2 * h + 1
  {
    i / 2
  }

  function Files(m: nat): seq<string> {
    seq(2 * m + 1, i requires 0 <= i => Name(i))
  }

  function TimesOf(m: nat): Timings
    requires m >= 1
  {
    map f | f in Files(m) :: Size(m, |f|) as real
  }

  /** The files take the sizes of the family, in its order. */
  ghost predicate Takes(w: string -> real, files: seq<string>, m: nat) {
    && m >= 1 && |files| == 2 * m + 1
    && forall i :: 0 <= i <= 2 * m ==> w(files[i]) == Size(m, i) as real
  }

  // ── how the files are dealt ──────────────────────────────────────────

  ghost function Bag(w: string -> real, shards: seq<seq<string>>): multiset<real> {
    multiset(Loads(w, shards))
  }

  ghost predicate IsLeast(least: real, bag: multiset<real>) {
    least in bag && forall x :: x in bag ==> least <= x
  }

  /** One more file of this size, on top of the least load. */
  ghost predicate GoesOnLeast(bag: multiset<real>, least: real, size: real, after: multiset<real>) {
    IsLeast(least, bag) && after == bag - multiset{least} + multiset{least + size}
  }

  lemma LeastLoad(load: seq<real>, i: nat)
    requires i < |load| && forall k :: 0 <= k < |load| ==> load[i] <= load[k]
    ensures IsLeast(load[i], multiset(load))
  {
    forall x | x in multiset(load) ensures load[i] <= x {
      var k :| 0 <= k < |load| && load[k] == x;
    }
  }

  lemma ReplacedInBag(load: seq<real>, i: nat, x: real)
    requires i < |load|
    ensures multiset(load[i := x]) == multiset(load) - multiset{load[i]} + multiset{x}
  {
  }

  lemma PlaceOnLeast(w: string -> real, shards: seq<seq<string>>, f: string) returns (least: real)
    requires shards != []
    ensures GoesOnLeast(Bag(w, shards), least, w(f), Bag(w, Place(w, shards, f)))
  {
    var i, load := Target(w, shards), Loads(w, shards);
    least := load[i];
    assert forall k :: 0 <= k < |load| ==> load[k] == Sum(w, shards[k]);
    LeastLoad(load, i);
    ReplacedInBag(load, i, load[i] + w(f));
    PlaceLoads(w, shards, f);
  }

  lemma OneLeast(bag: multiset<real>, a: real, b: real)
    requires IsLeast(a, bag) && IsLeast(b, bag)
    ensures a == b
  {
  }

  /** The sizes of the first n files. */
  ghost function Firsts(m: nat, n: nat): multiset<real>
    requires m >= 1
  {
    if n == 0 then multiset{} else Firsts(m, n - 1) + multiset{Size(m, n - 1) as real}
  }

  ghost function Times(x: real, n: nat): multiset<real> {
    if n == 0 then multiset{} else Times(x, n - 1) + multiset{x}
  }

  lemma {:induction false} TimesHolds(x: real, n: nat)
    ensures forall y :: y in Times(x, n) <==> n > 0 && y == x
  {
    if n > 0 { TimesHolds(x, n - 1); }
  }

  lemma {:induction false} FirstsHold(m: nat, n: nat)
    requires m >= 1 && n <= m
    ensures forall y :: y in Firsts(m, n) ==> n > 0 && Size(m, n - 1) as real <= y <= (2 * m - 1) as real
    ensures n > 0 ==> Size(m, n - 1) as real in Firsts(m, n)
  {
    if n > 0 { FirstsHold(m, n - 1); }
  }

  /** The loads after n <= m files: each opened a shard of its own. */
  ghost function Early(m: nat, n: nat): multiset<real>
    requires m >= 1 && n <= m
  {
    Firsts(m, n) + Times(0.0, m - n)
  }

  /** After n >= m files: each beyond the first m brought the least of those to 3m-1. */
  ghost function Late(m: nat, n: nat): multiset<real>
    requires m >= 1 && m <= n <= 2 * m
  {
    Firsts(m, 2 * m - n) + Times((3 * m - 1) as real, n - m)
  }

  lemma AtTheTurn(m: nat)
    requires m >= 1
    ensures Early(m, m) == Late(m, m)
  {
  }

  lemma LeastEarly(m: nat, n: nat)
    requires m >= 1 && n < m
    ensures IsLeast(0.0, Early(m, n))
    ensures Early(m, n) - multiset{0.0} + multiset{Size(m, n) as real} == Early(m, n + 1)
  {
    NoneLess(m, n);
    OneMore(Firsts(m, n), Times(0.0, m - n - 1), 0.0, Size(m, n) as real);
  }

  lemma NoneLess(m: nat, n: nat)
    requires m >= 1 && n < m
    ensures IsLeast(0.0, Early(m, n))
  {
    FirstsHold(m, n);
    TimesHolds(0.0, m - n);
  }

  lemma LeastLate(m: nat, n: nat)
    requires m >= 1 && m <= n < 2 * m
    ensures IsLeast(Size(m, 2 * m - n - 1) as real, Late(m, n))
    ensures Late(m, n) - multiset{Size(m, 2 * m - n - 1) as real} + multiset{(3 * m - 1) as real} == Late(m, n + 1)
  {
    FirstsHold(m, 2 * m - n);
    TimesHolds((3 * m - 1) as real, n - m);
    OneMore(Times((3 * m - 1) as real, n - m), Firsts(m, 2 * m - n - 1), Size(m, 2 * m - n - 1) as real, (3 * m - 1) as real);
  }

  lemma OneMore(a: multiset<real>, b: multiset<real>, from: real, to: real)
    ensures a + (b + multiset{from}) - multiset{from} + multiset{to} == (a + multiset{to}) + b
    ensures (b + multiset{from}) + a - multiset{from} + multiset{to} == b + (a + multiset{to})
  {
  }

  lemma SizesMeet(m: nat, n: nat)
    requires m >= 1 && m <= n < 2 * m
    ensures Size(m, 2 * m - n - 1) + Size(m, n) == 3 * m - 1
  {
  }

  lemma {:induction false} DealtEarly(w: string -> real, files: seq<string>, m: nat, n: nat)
    requires Takes(w, files, m) && n <= m
    ensures Bag(w, Deal(w, files[..n], m)) == Early(m, n)
  {
    if n == 0 {
      NoneDealt(w, m);
      assert files[..0] == [];
    } else {
      DealtEarly(w, files, m, n - 1);
      DealStep(w, files, n - 1, m);
      PlacedEarly(w, Deal(w, files[..n - 1], m), files[n - 1], m, n - 1);
    }
  }

  lemma PlacedEarly(w: string -> real, before: seq<seq<string>>, f: string, m: nat, n: nat)
    requires m >= 1 && n < m && before != [] && w(f) == Size(m, n) as real && Bag(w, before) == Early(m, n)
    ensures Bag(w, Place(w, before, f)) == Early(m, n + 1)
  {
    var least := PlaceOnLeast(w, before, f);
    NextEarly(m, n, least, Bag(w, Place(w, before, f)));
  }

  lemma NoneDealt(w: string -> real, m: nat)
    requires m >= 1
    ensures Bag(w, Deal(w, [], m)) == Early(m, 0)
  {
    NothingDealt(w, m);
    AllZero(m);
    assert Deal(w, [], m) == seq(m, _ => []);
  }

  lemma DealtAtTheTurn(w: string -> real, files: seq<string>, m: nat)
    requires Takes(w, files, m)
    ensures Bag(w, Deal(w, files[..m], m)) == Late(m, m)
  {
    DealtEarly(w, files, m, m);
    AtTheTurn(m);
  }

  lemma {:induction false} DealtLate(w: string -> real, files: seq<string>, m: nat, n: nat)
    requires Takes(w, files, m) && m <= n <= 2 * m
    ensures Bag(w, Deal(w, files[..n], m)) == Late(m, n)
  {
    if n == m {
      DealtAtTheTurn(w, files, m);
    } else {
      DealtLate(w, files, m, n - 1);
      LateStep(w, files, m, n - 1);
    }
  }

  lemma LateStep(w: string -> real, files: seq<string>, m: nat, n: nat)
    requires Takes(w, files, m) && m <= n < 2 * m && Bag(w, Deal(w, files[..n], m)) == Late(m, n)
    ensures Bag(w, Deal(w, files[..n + 1], m)) == Late(m, n + 1)
  {
    DealStep(w, files, n, m);
    PlacedLate(w, Deal(w, files[..n], m), files[n], m, n);
  }

  lemma PlacedLate(w: string -> real, before: seq<seq<string>>, f: string, m: nat, n: nat)
    requires m >= 1 && m <= n < 2 * m && before != [] && w(f) == Size(m, n) as real && Bag(w, before) == Late(m, n)
    ensures Bag(w, Place(w, before, f)) == Late(m, n + 1)
  {
    var least := PlaceOnLeast(w, before, f);
    NextLate(m, n, least, Bag(w, Place(w, before, f)));
  }

  lemma NextEarly(m: nat, n: nat, least: real, after: multiset<real>)
    requires m >= 1 && n < m && GoesOnLeast(Early(m, n), least, Size(m, n) as real, after)
    ensures after == Early(m, n + 1)
  {
    LeastEarly(m, n);
    OneLeast(Early(m, n), least, 0.0);
  }

  lemma NextLate(m: nat, n: nat, least: real, after: multiset<real>)
    requires m >= 1 && m <= n < 2 * m && GoesOnLeast(Late(m, n), least, Size(m, n) as real, after)
    ensures after == Late(m, n + 1)
  {
    LeastLate(m, n);
    OneLeast(Late(m, n), least, Size(m, 2 * m - n - 1) as real);
    SizesMeet(m, n);
    assert least + Size(m, n) as real == (3 * m - 1) as real;
  }

  lemma {:induction false} AllZero(n: nat)
    ensures multiset(seq(n, _ => 0.0)) == Times(0.0, n)
  {
    if n > 0 {
      AllZero(n - 1);
      assert seq(n, _ => 0.0) == seq(n - 1, _ => 0.0) + [0.0];
    }
  }

  /** All shards alike, and the last file on top of one. */
  lemma LastIsLate(w: string -> real, files: seq<string>, m: nat) returns (k: nat)
    requires Takes(w, files, m)
    ensures k < m && Sum(w, Deal(w, files, m)[k]) == (4 * m - 1) as real
  {
    DealtLate(w, files, m, 2 * m);
    AllAlike(m);
    LastDealt(w, files, m);
    k := LastPlaced(w, Deal(w, files[..2 * m], m), files[2 * m], m);
  }

  lemma LastDealt(w: string -> real, files: seq<string>, m: nat)
    requires m >= 1 && |files| == 2 * m + 1
    ensures Deal(w, files, m) == Place(w, Deal(w, files[..2 * m], m), files[2 * m])
  {
    DealLast(w, files, m);
  }

  lemma LastPlaced(w: string -> real, before: seq<seq<string>>, f: string, m: nat) returns (k: nat)
    requires m >= 1 && |before| == m && w(f) == m as real
    requires forall x :: x in Bag(w, before) ==> x == (3 * m - 1) as real
    ensures k < m && Sum(w, Place(w, before, f)[k]) == (4 * m - 1) as real
  {
    k := OneOnTop(w, before, f, (3 * m - 1) as real);
    assert (3 * m - 1) as real + m as real == (4 * m - 1) as real;
  }

  lemma AllAlike(m: nat)
    requires m >= 1
    ensures forall x :: x in Late(m, 2 * m) ==> x == (3 * m - 1) as real
  {
    TimesHolds((3 * m - 1) as real, m);
  }

  lemma OneOnTop(w: string -> real, before: seq<seq<string>>, f: string, each: real) returns (k: nat)
    requires before != [] && forall x :: x in Bag(w, before) ==> x == each
    ensures k < |before| && Sum(w, Place(w, before, f)[k]) == each + w(f)
  {
    k := Target(w, before);
    assert Loads(w, before)[k] in Bag(w, before);
    SumAppend(w, before[k], f);
  }

  // ── how they could be ────────────────────────────────────────────────

  /** The longest with the shortest, and the three files of m together: 3m each. */
  function Better(files: seq<string>, m: nat): seq<seq<string>>
    requires m >= 1 && |files| == 2 * m + 1
  {
    Pairs(files[..m - 1], files[m - 1..2 * m - 2]) + [files[2 * m - 2..]]
  }

  /** The first with the last, and so on inwards. */
  function Pairs(front: seq<string>, back: seq<string>): (pairs: seq<seq<string>>)
    requires |front| == |back|
    ensures |pairs| == |front|
  {
    if front == [] then [] else Pairs(front[..|front| - 1], back[1..]) + [[front[|front| - 1], back[0]]]
  }

  lemma {:induction false} PairsAt(front: seq<string>, back: seq<string>, k: nat)
    requires k < |front| == |back|
    ensures Pairs(front, back)[k] == [front[k], back[|back| - 1 - k]]
  {
    if k < |front| - 1 {
      PairsAt(front[..|front| - 1], back[1..], k);
    }
  }

  lemma ContentsAppend(shards: seq<seq<string>>, last: seq<string>)
    ensures Contents(shards + [last]) == Contents(shards) + multiset(last)
  {
    assert (shards + [last])[..|shards|] == shards;
  }

  lemma {:induction false} PairsHold(front: seq<string>, back: seq<string>)
    requires |front| == |back|
    ensures Contents(Pairs(front, back)) == multiset(front) + multiset(back)
  {
    if front != [] {
      var n := |front| - 1;
      PairsHold(front[..n], back[1..]);
      ContentsAppend(Pairs(front[..n], back[1..]), [front[n], back[0]]);
      AddPair(multiset(front[..n]), multiset(back[1..]), front[n], back[0]);
      WithoutLast(front);
      WithoutFirst(back);
    }
  }

  lemma AddPair(a: multiset<string>, b: multiset<string>, x: string, y: string)
    ensures (a + multiset{x}) + (multiset{y} + b) == (a + b) + multiset([x, y])
  {
    assert multiset([x, y]) == multiset{x} + multiset{y};
  }

  lemma WithoutLast(s: seq<string>)
    requires s != []
    ensures multiset(s) == multiset(s[..|s| - 1]) + multiset{s[|s| - 1]}
  {
    assert s == s[..|s| - 1] + [s[|s| - 1]];
  }

  lemma WithoutFirst(s: seq<string>)
    requires s != []
    ensures multiset(s) == multiset{s[0]} + multiset(s[1..])
  {
    assert s == [s[0]] + s[1..];
  }

  lemma BetterIsSplit(files: seq<string>, m: nat)
    requires m >= 1 && |files| == 2 * m + 1
    ensures IsSplit(Better(files, m), m, files)
  {
    var a, b, c := files[..m - 1], files[m - 1..2 * m - 2], files[2 * m - 2..];
    PairsHold(a, b);
    ContentsAppend(Pairs(a, b), c);
    InThree(a, b, c);
    assert files == a + b + c;
  }

  lemma InThree(a: seq<string>, b: seq<string>, c: seq<string>)
    ensures multiset(a + b + c) == multiset(a) + multiset(b) + multiset(c)
  {
  }

  lemma BetterTakes(w: string -> real, files: seq<string>, m: nat, k: nat)
    requires Takes(w, files, m) && k < m
    ensures Sum(w, Better(files, m)[k]) == (3 * m) as real
  {
    if k < m - 1 {
      PairsAt(files[..m - 1], files[m - 1..2 * m - 2], k);
      PairTakes(m, k);
      SumOfTwo(w, files[k], files[2 * m - 3 - k]);
    } else {
      LastThree(w, files, m);
    }
  }

  lemma LastThree(w: string -> real, files: seq<string>, m: nat)
    requires Takes(w, files, m)
    ensures Sum(w, files[2 * m - 2..]) == (3 * m) as real
  {
    SumOfThree(w, files[2 * m - 2], files[2 * m - 1], files[2 * m]);
    assert files[2 * m - 2..] == [files[2 * m - 2], files[2 * m - 1], files[2 * m]];
    assert Size(m, 2 * m - 2) == m && Size(m, 2 * m - 1) == m && Size(m, 2 * m) == m;
  }

  lemma PairTakes(m: nat, k: nat)
    requires k + 1 < m
    ensures Size(m, k) + Size(m, 2 * m - 3 - k) == 3 * m
  {
  }

  lemma SumOfTwo(w: string -> real, x: string, y: string)
    ensures Sum(w, [x, y]) == w(x) + w(y)
  {
    SumAppend(w, [], x);
    SumAppend(w, [x], y);
    assert [] + [x] == [x] && [x] + [y] == [x, y];
  }

  lemma SumOfThree(w: string -> real, x: string, y: string, z: string)
    ensures Sum(w, [x, y, z]) == w(x) + w(y) + w(z)
  {
    SumOfTwo(w, x, y);
    SumAppend(w, [x, y], z);
    assert [x, y] + [z] == [x, y, z];
  }

  // ── the answer of the scheduler ──────────────────────────────────────

  lemma {:induction false} NamesInOrder(i: nat, j: nat)
    requires i <= j
    ensures LexLe(Name(i), Name(j))
  {
    if i > 0 {
      NamesInOrder(i - 1, j - 1);
      assert Name(i)[1..] == Name(i - 1) && Name(j)[1..] == Name(j - 1);
    }
  }

  lemma {:induction false} SortedStays<T>(le: (T, T) -> bool, xs: seq<T>)
    requires SortedBy(le, xs)
    ensures Sort(le, xs) == xs
  {
    if xs != [] {
      var n := |xs| - 1;
      SortedStays(le, xs[..n]);
      assert n > 0 ==> le(xs[..n][n - 1], xs[n]);
      assert xs == xs[..n] + [xs[n]];
    }
  }

  lemma RecordedTakes(m: nat)
    requires m >= 1
    ensures Takes(Weight(Files(m), TimesOf(m)), Files(m), m)
  {
    var w := Weight(Files(m), TimesOf(m));
    forall i | 0 <= i <= 2 * m ensures w(Files(m)[i]) == Size(m, i) as real {
      assert Files(m)[i] == Name(i) && Files(m)[i] in Files(m);
    }
  }

  lemma FilesAreInOrder(w: string -> real, m: nat)
    requires m >= 1 && Takes(w, Files(m), m)
    ensures Sort(DealOrder(w), Files(m)) == Files(m)
  {
    forall i, j | 0 <= i < j < |Files(m)| ensures DealOrder(w)(Files(m)[i], Files(m)[j]) {
      NamesInOrder(i, j);
      assert Size(m, i) >= Size(m, j);
    }
    SortedStays(DealOrder(w), Files(m));
  }

  /** For every number of shards: some shard of the answer takes 4m-1 although 3m is possible, so
      the factor 4/3 - 1/(3m) is met exactly. */
  lemma BoundIsReached(m: nat) returns (k: nat)
    requires m >= 1
    ensures Feasible(Weight(Files(m), TimesOf(m)), Better(Files(m), m), m, Files(m), (3 * m) as real)
    ensures k < m && Sum(Weight(Files(m), TimesOf(m)), Shards(Files(m), m, TimesOf(m))[k]) == (4 * m - 1) as real
  {
    var w := Weight(Files(m), TimesOf(m));
    RecordedTakes(m);
    BetterIsSplit(Files(m), m);
    forall i | 0 <= i < m ensures Sum(w, Better(Files(m), m)[i]) <= (3 * m) as real {
      BetterTakes(w, Files(m), m, i);
    }
    FilesAreInOrder(w, m);
    k := LastIsLate(w, Files(m), m);
    SortedSum(w, Deal(w, Files(m), m)[k]);
  }

  lemma SortedSum(w: string -> real, dealt: seq<string>)
    ensures Sum(w, Sort(LexLe, dealt)) == Sum(w, dealt)
  {
    LexIsTotal();
    SortCorrect(LexLe, dealt);
    SumPermuted(w, Sort(LexLe, dealt), dealt);
  }
}
