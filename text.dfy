/** The Python 2 string built-ins the scripts rely on: `str.strip()`, `str.split('/')`,
    `'/'.join(...)`, the byte-wise ordering used by `sorted`, `in` and `endswith`. */
module Text {
  import opened Seqs

  /** The characters `str.strip()` removes from a Python 2 byte string. */
  predicate IsSpace(c: char)
  {
    c == ' ' || c == '\t' || c == '\n' || c == '\r' || c as int == 11 || c as int == 12
  }

  predicate AllSpace(s: string)
  {
    forall i :: 0 <= i < |s| ==> IsSpace(s[i])
  }

  /** Neither end of s is whitespace. */
  predicate Trimmed(s: string)
  {
    s == [] || (!IsSpace(s[0]) && !IsSpace(s[|s| - 1]))
  }

  function TrimLeft(s: string): string
    decreases |s|
  {
    if s != [] && IsSpace(s[0]) then TrimLeft(s[1..]) else s
  }

  function TrimRight(s: string): string
    decreases |s|
  {
    if s != [] && IsSpace(s[|s| - 1]) then TrimRight(s[..|s| - 1]) else s
  }

  /** TrimLeft drops a whitespace prefix and stops at the first other character. */
  lemma {:induction false} TrimLeftDrops(s: string)
    ensures var r := TrimLeft(s);
      |r| <= |s| && r == s[|s| - |r|..] && AllSpace(s[..|s| - |r|]) && (r != [] ==> !IsSpace(r[0]))
    decreases |s|
  {
    if s != [] && IsSpace(s[0]) {
      TrimLeftDrops(s[1..]);
      var r := TrimLeft(s);
      assert s[..|s| - |r|] == [s[0]] + s[1..][..|s| - 1 - |r|];
    }
  }

  /** TrimRight drops a whitespace suffix and stops at the last other character. */
  lemma {:induction false} TrimRightDrops(s: string)
    ensures var r := TrimRight(s);
      |r| <= |s| && r == s[..|r|] && AllSpace(s[|r|..]) && (r != [] ==> !IsSpace(r[|r| - 1]))
    decreases |s|
  {
    if s != [] && IsSpace(s[|s| - 1]) {
      TrimRightDrops(s[..|s| - 1]);
      var r := TrimRight(s);
      assert s[|r|..] == s[..|s| - 1][|r|..] + [s[|s| - 1]];
    }
  }

  /** `s.strip()`: s with its leading and trailing whitespace removed. */
  function Strip(s: string): string
  {
    TrimRight(TrimLeft(s))
  }

  /** Strip removes whitespace at the two ends and keeps the middle; it leaves nothing
      exactly when s is all whitespace. */
  lemma StripKeepsMiddle(s: string)
    ensures Trimmed(Strip(s))
    ensures var r := Strip(s);
      exists i :: 0 <= i <= |s| - |r| && r == s[i..i + |r|] && AllSpace(s[..i]) && AllSpace(s[i + |r|..])
    ensures Strip(s) == [] <==> AllSpace(s)
  {
    var l := TrimLeft(s);
    TrimLeftDrops(s);
    TrimRightDrops(l);
    var r := TrimRight(l);
    var i := |s| - |l|;
    assert s[i..i + |r|] == r;
    assert s[i + |r|..] == l[|r|..];
    if r == [] {
      assert l == [] && s[..|s| - |l|] == s;
    }
  }

  /** Stripping twice is stripping once. */
  lemma StripIdempotent(s: string)
    ensures Strip(Strip(s)) == Strip(s)
  {
    var t := Strip(s);
    StripKeepsMiddle(s);
    if t != [] {
      assert TrimLeft(t) == t;
      assert TrimRight(t) == t;
    }
  }

  /** `s.split(d)`: the pieces between the separators, at least one. */
  function Split(s: string, d: char): (parts: seq<string>)
    ensures |parts| >= 1
    decreases |s|
  {
    if s == [] then [""]
    else
      var rest := Split(s[1..], d);
      if s[0] == d then [""] + rest
      else [[s[0]] + rest[0]] + rest[1..]
  }

  /** No piece of a split holds the separator, and there is more than one piece exactly
      when the separator occurs. */
  lemma {:induction false} SplitPieces(s: string, d: char)
    ensures forall p :: p in Split(s, d) ==> d !in p
    ensures |Split(s, d)| == 1 <==> d !in s
    decreases |s|
  {
    if s != [] {
      SplitPieces(s[1..], d);
      var rest := Split(s[1..], d);
      assert d in s <==> s[0] == d || d in s[1..];
      if s[0] != d {
        assert forall p :: p in Split(s, d) ==> p == [s[0]] + rest[0] || p in rest[1..];
        assert d !in [s[0]] + rest[0];
      }
    }
  }

  /** `d.join(parts)` */
  function Join(parts: seq<string>, d: char): string
    decreases |parts|
  {
    if parts == [] then ""
    else if |parts| == 1 then parts[0]
    else parts[0] + [d] + Join(parts[1..], d)
  }

  /** Joining the pieces of a split gives the original string back. */
  lemma {:induction false} JoinSplit(s: string, d: char)
    ensures Join(Split(s, d), d) == s
    decreases |s|
  {
    if s != [] {
      var rest := Split(s[1..], d);
      JoinSplit(s[1..], d);
      assert s == [s[0]] + s[1..];
      if s[0] == d {
        assert Split(s, d) == [""] + rest;
        assert Join([""] + rest, d) == "" + [d] + Join(rest, d);
      } else if |rest| == 1 {
        assert Split(s, d) == [[s[0]] + rest[0]];
      } else {
        var parts := Split(s, d);
        assert parts == [[s[0]] + rest[0]] + rest[1..];
        assert parts[1..] == rest[1..];
        assert Join(rest, d) == rest[0] + [d] + Join(rest[1..], d);
        assert Join(parts, d) == [s[0]] + rest[0] + [d] + Join(rest[1..], d);
      }
    }
  }

  lemma {:induction false} SplitNoSeparator(a: string, d: char)
    requires d !in a
    ensures Split(a, d) == [a]
    decreases |a|
  {
    if a != [] {
      SplitNoSeparator(a[1..], d);
      assert a[0] != d;
      assert [a[0]] + a[1..] == a;
    }
  }

  lemma {:induction false} SplitAfterPiece(a: string, t: string, d: char)
    requires d !in a
    ensures Split(a + [d] + t, d) == [a] + Split(t, d)
    decreases |a|
  {
    if a == [] {
      assert a + [d] + t == [d] + t;
      assert ([d] + t)[1..] == t;
    } else {
      assert (a + [d] + t)[1..] == a[1..] + [d] + t;
      SplitAfterPiece(a[1..], t, d);
      assert [a[0]] + a[1..] == a;
    }
  }

  /** Splitting a join of separator-free pieces gives the pieces back. */
  lemma {:induction false} SplitJoin(parts: seq<string>, d: char)
    requires parts != []
    requires forall p :: p in parts ==> d !in p
    ensures Split(Join(parts, d), d) == parts
    decreases |parts|
  {
    if |parts| == 1 {
      SplitNoSeparator(parts[0], d);
    } else {
      SplitJoin(parts[1..], d);
      SplitAfterPiece(parts[0], Join(parts[1..], d), d);
      assert [parts[0]] + parts[1..] == parts;
    }
  }

  /** Byte-wise lexicographic order, as Python 2 compares `str` values. */
  predicate StrLess(a: string, b: string)
    decreases |a|
  {
    if a == [] then b != []
    else if b == [] then false
    else if a[0] != b[0] then a[0] < b[0]
    else StrLess(a[1..], b[1..])
  }

  lemma {:induction false} StrLessIrreflexive(a: string)
    ensures !StrLess(a, a)
    decreases |a|
  {
    if a != [] { StrLessIrreflexive(a[1..]); }
  }

  lemma {:induction false} StrLessAsymmetric(a: string, b: string)
    ensures StrLess(a, b) ==> !StrLess(b, a)
    decreases |a|
  {
    if a != [] && b != [] && a[0] == b[0] { StrLessAsymmetric(a[1..], b[1..]); }
  }

  lemma {:induction false} StrLessTransitive(a: string, b: string, c: string)
    requires StrLess(a, b) && StrLess(b, c)
    ensures StrLess(a, c)
    decreases |a|
  {
    if a != [] && a[0] == b[0] && b[0] == c[0] {
      StrLessTransitive(a[1..], b[1..], c[1..]);
    }
  }

  lemma {:induction false} StrLessTotal(a: string, b: string)
    ensures a == b || StrLess(a, b) || StrLess(b, a)
    decreases |a|
  {
    if a != [] && b != [] && a[0] == b[0] {
      StrLessTotal(a[1..], b[1..]);
      if a[1..] == b[1..] {
        assert a == [a[0]] + a[1..] && b == [b[0]] + b[1..];
      }
    }
  }

  /** Not greater: `a <= b` on Python strings. */
  lemma StrLessEqTransitive(a: string, b: string, c: string)
    requires !StrLess(b, a) && !StrLess(c, b)
    ensures !StrLess(c, a)
  {
    StrLessTotal(a, b);
    StrLessTotal(b, c);
    if a != b && b != c {
      StrLessTransitive(a, b, c);
      StrLessAsymmetric(a, c);
    }
  }

  predicate Sorted(s: seq<string>)
  {
    forall i, j :: 0 <= i < j < |s| ==> !StrLess(s[j], s[i])
  }

  predicate StrictlySorted(s: seq<string>)
  {
    forall i, j :: 0 <= i < j < |s| ==> StrLess(s[i], s[j])
  }

  function Insert(x: string, s: seq<string>): (r: seq<string>)
    requires Sorted(s)
    ensures Sorted(r) && multiset(r) == multiset(s) + multiset{x}
    decreases |s|
  {
    if s == [] then [x]
    else if !StrLess(s[0], x) then
      var r := [x] + s;
      assert forall j :: 0 < j < |r| ==> !StrLess(r[j], x) by {
        forall j | 0 < j < |r| ensures !StrLess(r[j], x) {
          if j > 1 { StrLessEqTransitive(x, s[0], s[j - 1]); }
        }
      }
      r
    else
      var tail := Insert(x, s[1..]);
      assert s == [s[0]] + s[1..];
      var r := [s[0]] + tail;
      assert forall j :: 0 <= j < |tail| ==> !StrLess(tail[j], s[0]) by {
        forall j | 0 <= j < |tail| ensures !StrLess(tail[j], s[0]) {
          assert tail[j] in multiset(tail);
          if tail[j] == x {
            StrLessAsymmetric(s[0], x);
          } else {
            assert tail[j] in multiset(s[1..]);
            var k :| 0 <= k < |s[1..]| && s[1..][k] == tail[j];
            assert s[k + 1] == tail[j];
          }
        }
      }
      r
  }

  /** `sorted(s)` */
  function Sort(s: seq<string>): (r: seq<string>)
    ensures Sorted(r) && multiset(r) == multiset(s)
    decreases |s|
  {
    if s == [] then []
    else
      assert s == s[..|s| - 1] + [s[|s| - 1]];
      Insert(s[|s| - 1], Sort(s[..|s| - 1]))
  }

  /** `sorted(set(s))`: the distinct elements of s in increasing order. */
  function SortedDistinct(s: seq<string>): (r: seq<string>)
    ensures StrictlySorted(r)
    ensures forall x :: x in r <==> x in s
  {
    var d := Distinct(s);
    var r := Sort(d);
    assert forall x :: x in r <==> x in d by {
      forall x ensures x in r <==> x in d {
        assert x in r <==> x in multiset(r);
      }
    }
    forall i, j | 0 <= i < j < |r| ensures StrLess(r[i], r[j]) {
      SortedNoDupIsStrict(r, d, i, j);
    }
    r
  }

  lemma SortedNoDupIsStrict(r: seq<string>, d: seq<string>, i: int, j: int)
    requires Sorted(r) && NoDup(d) && multiset(r) == multiset(d)
    requires 0 <= i < j < |r|
    ensures StrLess(r[i], r[j])
  {
    if r[i] == r[j] {
      assert multiset(r)[r[i]] >= 2 by {
        assert r == r[..j] + r[j..];
        assert r[i] in r[..j];
        assert r[j] in r[j..];
        assert multiset(r) == multiset(r[..j]) + multiset(r[j..]);
      }
      NoDupCountsOnce(d, r[i]);
    }
    StrLessTotal(r[i], r[j]);
  }

  /** Two strictly increasing lists with the same elements are the same list, so
      `sorted(set(...))` does not depend on the order its input was produced in. */
  lemma {:induction false} StrictlySortedUnique(a: seq<string>, b: seq<string>)
    requires StrictlySorted(a) && StrictlySorted(b)
    requires forall x :: x in a <==> x in b
    ensures a == b
    decreases |a|
  {
    SameElementsBothEmpty(a, b);
    if a != [] {
      assert a[0] in b;
      assert b[0] in a;
      if a[0] != b[0] {
        var i :| 0 <= i < |b| && b[i] == a[0];
        var j :| 0 <= j < |a| && a[j] == b[0];
        assert StrLess(b[0], a[0]);
        assert StrLess(a[0], b[0]);
        StrLessAsymmetric(a[0], b[0]);
      }
      forall x ensures x in a[1..] ==> x in b[1..] {
        TailMember(a, b, x);
      }
      forall x ensures x in b[1..] ==> x in a[1..] {
        TailMember(b, a, x);
      }
      StrictlySortedUnique(a[1..], b[1..]);
      assert a == [a[0]] + a[1..] && b == [b[0]] + b[1..];
    }
  }

  lemma SameElementsBothEmpty(a: seq<string>, b: seq<string>)
    requires forall y :: y in a <==> y in b
    ensures a == [] <==> b == []
  {
    if a != [] { assert a[0] in a; }
    if b != [] { assert b[0] in b; }
  }

  lemma TailMember(a: seq<string>, b: seq<string>, x: string)
    requires StrictlySorted(a) && a != [] && b != [] && a[0] == b[0]
    requires forall y :: y in a <==> y in b
    ensures x in a[1..] ==> x in b[1..]
  {
    if x in a[1..] {
      var k :| 0 <= k < |a[1..]| && a[1..][k] == x;
      assert StrLess(a[0], a[k + 1]);
      StrLessIrreflexive(x);
      assert x in b;
      var m :| 0 <= m < |b| && b[m] == x;
      assert m != 0;
      assert b[1..][m - 1] == x;
    }
  }

  /** `suffix` ends `s` (`s.endswith(suffix)`). */
  predicate EndsWith(s: string, suffix: string)
  {
    |suffix| <= |s| && s[|s| - |suffix|..] == suffix
  }

  /** `sub in s` for strings. */
  predicate Contains(s: string, sub: string)
    decreases |s|
  {
    if sub <= s then true
    else if s == [] then false
    else Contains(s[1..], sub)
  }
}
