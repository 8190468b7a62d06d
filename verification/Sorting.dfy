/** The built-in stable sort the scripts rely on, as a function: insertion from the left,
    each element placed after every element it does not precede. */
module Sorting {

  ghost predicate TotalPreorder<T(!new)>(le: (T, T) -> bool) {
    && (forall a, b :: le(a, b) || le(b, a))
    && (forall a, b, c :: le(a, b) && le(b, c) ==> le(a, c))
  }

  ghost predicate SortedBy<T>(le: (T, T) -> bool, s: seq<T>) {
    forall i, j :: 0 <= i < j < |s| ==> le(s[i], s[j])
  }

  function Insert<T>(le: (T, T) -> bool, x: T, s: seq<T>): seq<T> {
    if s == [] then [x]
    else
      var n := |s| - 1;
      if le(s[n], x) then s + [x] else Insert(le, x, s[..n]) + [s[n]]
  }

  function Sort<T>(le: (T, T) -> bool, xs: seq<T>): seq<T> {
    if xs == [] then [] else Insert(le, xs[|xs| - 1], Sort(le, xs[..|xs| - 1]))
  }

  lemma {:induction false} InsertContents<T>(le: (T, T) -> bool, x: T, s: seq<T>)
    ensures multiset(Insert(le, x, s)) == multiset(s) + multiset{x}
  {
    if s != [] {
      var n := |s| - 1;
      assert s == s[..n] + [s[n]];
      if !le(s[n], x) {
        InsertContents(le, x, s[..n]);
      }
    }
  }

  lemma {:induction false} InsertSorted<T(!new)>(le: (T, T) -> bool, x: T, s: seq<T>)
    requires TotalPreorder(le) && SortedBy(le, s)
    ensures SortedBy(le, Insert(le, x, s))
  {
    if s != [] {
      var n := |s| - 1;
      if le(s[n], x) {
        forall i | 0 <= i < |s| ensures le(s[i], x) {
          assert i < n ==> le(s[i], s[n]);
        }
      } else {
        InsertSorted(le, x, s[..n]);
        InsertContents(le, x, s[..n]);
        var r := Insert(le, x, s[..n]);
        forall i | 0 <= i < |r| ensures le(r[i], s[n]) {
          assert r[i] in multiset(r);
          assert r[i] == x || r[i] in s[..n];
        }
      }
    }
  }

  /** Sorting keeps exactly the elements it was given, in order. */
  lemma {:induction false} SortCorrect<T(!new)>(le: (T, T) -> bool, xs: seq<T>)
    requires TotalPreorder(le)
    ensures SortedBy(le, Sort(le, xs))
    ensures multiset(Sort(le, xs)) == multiset(xs)
  {
    if xs != [] {
      var n := |xs| - 1;
      assert xs == xs[..n] + [xs[n]];
      SortCorrect(le, xs[..n]);
      InsertSorted(le, xs[n], Sort(le, xs[..n]));
      InsertContents(le, xs[n], Sort(le, xs[..n]));
    }
  }

  /** The elements as good as x, in their order. */
  function Alike<T>(le: (T, T) -> bool, s: seq<T>, x: T): seq<T> {
    if s == [] then []
    else
      var n := |s| - 1;
      Alike(le, s[..n], x) + if le(s[n], x) && le(x, s[n]) then [s[n]] else []
  }

  lemma {:induction false} InsertStable<T(!new)>(le: (T, T) -> bool, e: T, s: seq<T>, x: T)
    requires TotalPreorder(le)
    ensures Alike(le, Insert(le, e, s), x) == Alike(le, s, x) + if le(e, x) && le(x, e) then [e] else []
  {
    if s == [] {
      assert Insert(le, e, s) == [] + [e];
      assert ([] + [e])[..0] == [];
    } else {
      var n := |s| - 1;
      if le(s[n], e) {
        assert (s + [e])[..n + 1] == s;
      } else {
        InsertStable(le, e, s[..n], x);
        var r := Insert(le, e, s[..n]);
        assert (r + [s[n]])[..|r|] == r;
      }
    }
  }

  /** Elements that are as good as each other stay in the order they came. */
  lemma {:induction false} SortStable<T(!new)>(le: (T, T) -> bool, xs: seq<T>, x: T)
    requires TotalPreorder(le)
    ensures Alike(le, Sort(le, xs), x) == Alike(le, xs, x)
  {
    if xs != [] {
      var n := |xs| - 1;
      SortStable(le, xs[..n], x);
      InsertStable(le, xs[n], Sort(le, xs[..n]), x);
    }
  }
}
