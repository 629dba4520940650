/** The list operations the scripts build from Python comprehensions and `in` tests. */
module Seqs {

  /** No element occurs twice. */
  predicate NoDup<T(==)>(s: seq<T>)
  {
    forall i, j :: 0 <= i < j < |s| ==> s[i] != s[j]
  }

  /** `[x for x in s if keep(x)]` */
  function Filter<T(!new)>(s: seq<T>, keep: T -> bool): (r: seq<T>)
    ensures |r| <= |s|
    ensures forall x :: x in r <==> x in s && keep(x)
    decreases |s|
  {
    if s == [] then []
    else
      var rest := Filter(s[..|s| - 1], keep);
      assert s == s[..|s| - 1] + [s[|s| - 1]];
      if keep(s[|s| - 1]) then rest + [s[|s| - 1]] else rest
  }

  /** A filter keeps every occurrence of what it keeps. */
  lemma {:induction false} FilterCounts<T(!new)>(s: seq<T>, keep: T -> bool, x: T)
    ensures multiset(Filter(s, keep))[x] == if keep(x) then multiset(s)[x] else 0
    decreases |s|
  {
    if s != [] {
      var init := s[..|s| - 1];
      FilterCounts(init, keep, x);
      assert s == init + [s[|s| - 1]];
    }
  }

  /** Filtering distributes over concatenation, so it keeps the order of what it keeps. */
  lemma {:induction false} FilterAppend<T(!new)>(s: seq<T>, t: seq<T>, keep: T -> bool)
    ensures Filter(s + t, keep) == Filter(s, keep) + Filter(t, keep)
    decreases |t|
  {
    if t == [] {
      assert s + t == s;
    } else {
      var t' := t[..|t| - 1];
      assert (s + t)[..|s + t| - 1] == s + t';
      FilterAppend(s, t', keep);
    }
  }

  /** A filter whose predicate holds everywhere changes nothing. */
  lemma {:induction false} FilterAll<T(!new)>(s: seq<T>, keep: T -> bool)
    requires forall x :: x in s ==> keep(x)
    ensures Filter(s, keep) == s
    decreases |s|
  {
    if s != [] {
      var init := s[..|s| - 1];
      assert forall x :: x in init ==> x in s;
      FilterAll(init, keep);
      assert keep(s[|s| - 1]);
      assert s == init + [s[|s| - 1]];
    }
  }

  /** A filter keeps no duplicates it did not receive. */
  lemma {:induction false} FilterNoDup<T(!new)>(s: seq<T>, keep: T -> bool)
    requires NoDup(s)
    ensures NoDup(Filter(s, keep))
    decreases |s|
  {
    if s != [] {
      var init := s[..|s| - 1];
      assert NoDup(init);
      FilterNoDup(init, keep);
      assert s[|s| - 1] !in init;
    }
  }

  /** Appends x unless it is already present: `if x not in s: s.append(x)`. */
  function AppendNew<T(==,!new)>(s: seq<T>, x: T): (r: seq<T>)
    ensures NoDup(s) ==> NoDup(r)
    ensures x in r && (forall y :: y in r <==> y in s || y == x)
    ensures |s| <= |r| <= |s| + 1 && r[..|s|] == s
  {
    if x in s then s else s + [x]
  }

  /** The number of occurrences of x in s. */
  function Occurrences<T(==)>(s: seq<T>, x: T): (n: nat)
    ensures n == multiset(s)[x]
    ensures n <= |s| && (n > 0 <==> x in s)
    decreases |s|
  {
    if s == [] then 0
    else
      assert s == s[..|s| - 1] + [s[|s| - 1]];
      Occurrences(s[..|s| - 1], x) + (if s[|s| - 1] == x then 1 else 0)
  }

  /** The elements of s, each once, in order of first occurrence (the `list(set(s))` step). */
  function Distinct<T(==,!new)>(s: seq<T>): (r: seq<T>)
    ensures NoDup(r)
    ensures forall x :: x in r <==> x in s
    decreases |s|
  {
    if s == [] then []
    else AppendNew(Distinct(s[..|s| - 1]), s[|s| - 1])
  }

  /** In a list without duplicates every element is counted once. */
  lemma {:induction false} NoDupCountsOnce<T>(s: seq<T>, x: T)
    requires NoDup(s)
    ensures multiset(s)[x] <= 1
    decreases |s|
  {
    if s != [] {
      var init := s[..|s| - 1];
      assert s == init + [s[|s| - 1]];
      NoDupCountsOnce(init, x);
      if s[|s| - 1] == x { assert x !in init; }
    }
  }
}
