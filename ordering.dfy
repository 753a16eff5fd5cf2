/**
 * Python's ordering of `str` values (code point by code point, a proper
 * prefix first), `sorted()` on lists of names, and list-comprehension
 * filtering. Both controllers sort the matching directory entries before
 * using them, which is what makes the reassembled image independent of the
 * order in which the directory is listed.
 */
module Ordering {

  /** Python's `a <= b` on strings. */
  predicate Below(a: string, b: string)
    decreases |a|
  {
    |a| == 0 || (|b| > 0 && (a[0] < b[0] || (a[0] == b[0] && Below(a[1..], b[1..]))))
  }

  lemma {:induction false} BelowReflexive(a: string)
    ensures Below(a, a)
    decreases |a|
  {
    if |a| > 0 { BelowReflexive(a[1..]); }
  }

  lemma {:induction false} BelowTotal(a: string, b: string)
    ensures Below(a, b) || Below(b, a)
    decreases |a|
  {
    if |a| > 0 && |b| > 0 && a[0] == b[0] { BelowTotal(a[1..], b[1..]); }
  }

  lemma {:induction false} BelowAntisymmetric(a: string, b: string)
    requires Below(a, b) && Below(b, a)
    ensures a == b
    decreases |a|
  {
    if |a| > 0 {
      BelowAntisymmetric(a[1..], b[1..]);
      assert a == [a[0]] + a[1..] && b == [b[0]] + b[1..];
    }
  }

  lemma {:induction false} BelowTransitive(a: string, b: string, c: string)
    requires Below(a, b) && Below(b, c)
    ensures Below(a, c)
    decreases |a|
  {
    if |a| > 0 && a[0] == b[0] && b[0] == c[0] { BelowTransitive(a[1..], b[1..], c[1..]); }
  }

  /** Two names that agree up to position |p| are ordered by the character there. */
  lemma {:induction false} BelowAtFirstDifference(p: string, x: char, y: char, u: string, v: string)
    requires x < y
    ensures Below(p + [x] + u, p + [y] + v) && !Below(p + [y] + v, p + [x] + u)
    decreases |p|
  {
    if |p| > 0 {
      BelowAtFirstDifference(p[1..], x, y, u, v);
      assert (p + [x] + u)[1..] == p[1..] + [x] + u;
      assert (p + [y] + v)[1..] == p[1..] + [y] + v;
    }
  }

  predicate Sorted(s: seq<string>) {
    forall i, j :: 0 <= i < j < |s| ==> Below(s[i], s[j])
  }

  function Insert(x: string, s: seq<string>): (r: seq<string>)
    requires Sorted(s)
    ensures Sorted(r) && multiset(r) == multiset(s) + multiset{x}
    decreases |s|
  {
    if s == [] then [x]
    else if Below(x, s[0]) then
      BelowAll(x, s);
      [x] + s
    else
      var tail := Insert(x, s[1..]);
      DropHead(s);
      BelowTotal(x, s[0]);
      HeadBelowAll(s, x, tail);
      [s[0]] + tail
  }

  /** Below the head of a sorted list is below all of it. */
  lemma BelowAll(x: string, s: seq<string>)
    requires Sorted(s) && s != [] && Below(x, s[0])
    ensures forall j :: 0 <= j < |s| ==> Below(x, s[j])
  {
    forall j | 0 <= j < |s| ensures Below(x, s[j]) {
      if j > 0 { BelowTransitive(x, s[0], s[j]); }
    }
  }

  /** The head of a sorted list is below the rest with `x` inserted, when it is below `x`. */
  lemma HeadBelowAll(s: seq<string>, x: string, tail: seq<string>)
    requires Sorted(s) && s != [] && Below(s[0], x)
    requires multiset(tail) == multiset(s[1..]) + multiset{x}
    ensures forall j :: 0 <= j < |tail| ==> Below(s[0], tail[j])
  {
    forall j | 0 <= j < |tail| ensures Below(s[0], tail[j]) {
      assert tail[j] in multiset(tail);
      if tail[j] != x {
        assert tail[j] in multiset(s[1..]);
        var k :| 0 <= k < |s[1..]| && s[1..][k] == tail[j];
        assert s[k + 1] == tail[j];
      }
    }
  }

  /** Python's `sorted()` on a list of names. */
  function Sort(s: seq<string>): (r: seq<string>)
    ensures Sorted(r) && multiset(r) == multiset(s) && |r| == |s|
    decreases |s|
  {
    if s == [] then []
    else
      assert s == [s[0]] + s[1..];
      Insert(s[0], Sort(s[1..]))
  }

  /** The head of a sorted list is below every element of the list. */
  lemma HeadIsLeast(a: seq<string>, x: string)
    requires Sorted(a) && x in a
    ensures Below(a[0], x)
  {
    var i :| 0 <= i < |a| && a[i] == x;
    if i == 0 { BelowReflexive(x); }
  }

  /** A sorted list is determined by its elements: there is only one sorted order. */
  lemma {:induction false} SortedUnique(a: seq<string>, b: seq<string>)
    requires Sorted(a) && Sorted(b) && multiset(a) == multiset(b)
    ensures a == b
    decreases |a|
  {
    assert |a| == |multiset(a)| == |multiset(b)| == |b|;
    if a != [] {
      assert a[0] in multiset(b) && b[0] in multiset(a);
      HeadIsLeast(b, a[0]);
      HeadIsLeast(a, b[0]);
      BelowAntisymmetric(a[0], b[0]);
      DropHead(a);
      DropHead(b);
      SortedUnique(a[1..], b[1..]);
    }
  }

  /** Without its head, a list loses one copy of the head and stays sorted. */
  lemma DropHead(a: seq<string>)
    requires a != []
    ensures multiset(a[1..]) == multiset(a) - multiset{a[0]}
    ensures Sorted(a) ==> Sorted(a[1..])
  {
    assert a == [a[0]] + a[1..];
  }

  /** Sorting forgets the order of the input: equal elements give an equal result. */
  lemma SortIgnoresOrder(s: seq<string>, t: seq<string>)
    requires multiset(s) == multiset(t)
    ensures Sort(s) == Sort(t)
  {
    SortedUnique(Sort(s), Sort(t));
  }

  /** `[p for p in s if keep(p)]`. */
  function Filter(s: seq<string>, keep: string -> bool): (r: seq<string>)
    ensures |r| <= |s|
    decreases |s|
  {
    if s == [] then []
    else if keep(s[0]) then [s[0]] + Filter(s[1..], keep)
    else Filter(s[1..], keep)
  }

  /** The filter keeps every occurrence of a kept name and no occurrence of any other. */
  lemma {:induction false} FilterCount(s: seq<string>, keep: string -> bool, x: string)
    ensures multiset(Filter(s, keep))[x] == if keep(x) then multiset(s)[x] else 0
    decreases |s|
  {
    if s != [] {
      FilterCount(s[1..], keep, x);
      assert s == [s[0]] + s[1..];
    }
  }

  lemma FilterMultiset(s: seq<string>, keep: string -> bool, t: seq<string>)
    requires multiset(s) == multiset(t)
    ensures multiset(Filter(s, keep)) == multiset(Filter(t, keep))
  {
    forall x ensures multiset(Filter(s, keep))[x] == multiset(Filter(t, keep))[x] {
      FilterCount(s, keep, x);
      FilterCount(t, keep, x);
    }
  }

  lemma FilterMembership(s: seq<string>, keep: string -> bool, x: string)
    ensures x in Filter(s, keep) <==> x in s && keep(x)
  {
    FilterCount(s, keep, x);
    assert x in Filter(s, keep) <==> x in multiset(Filter(s, keep));
    assert x in s <==> x in multiset(s);
  }

  /** Filtering a sorted list leaves it sorted. */
  lemma {:induction false} FilterSorted(s: seq<string>, keep: string -> bool)
    requires Sorted(s)
    ensures Sorted(Filter(s, keep))
    decreases |s|
  {
    if s != [] {
      FilterSorted(s[1..], keep);
      if keep(s[0]) {
        var rest := Filter(s[1..], keep);
        forall j | 0 <= j < |rest| ensures Below(s[0], rest[j]) {
          FilterMembership(s[1..], keep, rest[j]);
          var k :| 0 <= k < |s[1..]| && s[1..][k] == rest[j];
          assert s[k + 1] == rest[j];
        }
      }
    }
  }

  /** Sorting then filtering, as the tile gatherer does, equals filtering then sorting. */
  lemma SortThenFilter(s: seq<string>, keep: string -> bool)
    ensures Filter(Sort(s), keep) == Sort(Filter(s, keep))
  {
    FilterSorted(Sort(s), keep);
    FilterMultiset(Sort(s), keep, s);
    SortedUnique(Filter(Sort(s), keep), Sort(Filter(s, keep)));
  }

  /** Every name the filter keeps passes the test. */
  lemma FilterKept(s: seq<string>, keep: string -> bool)
    ensures forall i :: 0 <= i < |Filter(s, keep)| ==> keep(Filter(s, keep)[i])
  {
    forall i | 0 <= i < |Filter(s, keep)| ensures keep(Filter(s, keep)[i]) {
      FilterMembership(s, keep, Filter(s, keep)[i]);
    }
  }

  /** A second, stricter filter makes the first one redundant. */
  lemma {:induction false} FilterTwice(s: seq<string>, first: string -> bool, second: string -> bool)
    requires forall x :: second(x) ==> first(x)
    ensures Filter(Filter(s, first), second) == Filter(s, second)
    decreases |s|
  {
    if s != [] {
      FilterTwice(s[1..], first, second);
    }
  }
}
