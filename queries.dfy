/** The listing part of the database queries: rows filtered, ordered, and cut to
    the window that `limit` and `range` select. */
module Queries {
  import opened Common
  import opened Sorting

  /** The page size `range` uses when no limit is given. */
  const DefaultPageSize: nat := 10

  /** Where the window of `limit` and `range` starts. */
  function WindowStart(n: nat, offset: nat): (k: nat)
    ensures k <= n
  {
    if offset < n then offset else n
  }

  /** How many of `n` rows a window holds: the rows left after the offset, cut
      to the limit (ten when only an offset is given). */
  function PageLength(n: nat, limit: nat, offset: nat): nat {
    var left := n - WindowStart(n, offset);
    var size := if offset > 0 && limit == 0 then DefaultPageSize else limit;
    if size > 0 && size < left then size else left
  }

  /** `limit` and `range`: from `offset` on, `limit` rows (10 when no limit) when an
      offset is given; else the first `limit` rows when a limit is given. */
  function Window<T>(s: seq<T>, limit: nat, offset: nat): (r: seq<T>)
    ensures offset > 0 ==> |r| <= if limit > 0 then limit else DefaultPageSize
    ensures offset == 0 && limit > 0 ==> |r| <= limit
    ensures offset == 0 && limit == 0 ==> r == s
    ensures |r| == PageLength(|s|, limit, offset)
    ensures WindowStart(|s|, offset) + |r| <= |s|
    ensures r == s[WindowStart(|s|, offset)..WindowStart(|s|, offset) + |r|]
  {
    var start := WindowStart(|s|, offset);
    var rest := s[start..];
    var r := if offset > 0 then Take(rest, if limit > 0 then limit else DefaultPageSize)
             else if limit > 0 then Take(rest, limit)
             else rest;
    assert r <= rest;
    assert r == rest[..|r|];
    r
  }

  /** A contiguous part of a sorted sequence is sorted. */
  lemma SortedSlice<T>(s: seq<T>, le: (T, T) -> bool, k: nat, n: nat)
    requires Sorted(s, le) && k + n <= |s|
    ensures Sorted(s[k..k + n], le)
  {
    var r := s[k..k + n];
    forall i, j | 0 <= i < j < |r| ensures le(r[i], r[j]) {
      assert r[i] == s[k + i] && r[j] == s[k + j];
    }
  }

  /** The rows `keep` accepts, in the order `le`, cut to the window. */
  function Listing<T>(rows: seq<T>, keep: T -> bool, le: (T, T) -> bool, limit: nat, offset: nat): (r: seq<T>)
    ensures forall i :: 0 <= i < |r| ==> r[i] in rows && keep(r[i])
    ensures limit == 0 && offset == 0 ==> multiset(r) == multiset(Filter(rows, keep))
    ensures offset == 0 && limit > 0 ==> |r| <= limit
    ensures offset > 0 ==> |r| <= if limit > 0 then limit else DefaultPageSize
    ensures |r| == PageLength(|Filter(rows, keep)|, limit, offset)
  {
    var matching := Filter(rows, keep);
    var sorted := SortBy(matching, le);
    assert |sorted| == |matching| && multiset(sorted) == multiset(matching);
    WindowRows(rows, keep, le, limit, offset);
    Window(sorted, limit, offset)
  }

  /** Every row of a listing's window is a stored row that `keep` accepts. */
  lemma WindowRows<T>(rows: seq<T>, keep: T -> bool, le: (T, T) -> bool, limit: nat, offset: nat)
    ensures forall x | x in Window(SortBy(Filter(rows, keep), le), limit, offset) :: x in rows && keep(x)
  {
    var matching := Filter(rows, keep);
    var sorted := SortBy(matching, le);
    var r := Window(sorted, limit, offset);
    var k := WindowStart(|sorted|, offset);
    ElementsOfSlice(sorted, k, |r|);
    assert forall x :: x in sorted ==> x in matching by {
      forall x | x in sorted ensures x in matching {
        SortBySameElements(matching, le, x);
      }
    }
    forall x | x in r ensures x in rows && keep(x) {
      var i :| 0 <= i < |r| && r[i] == x;
      assert r[i] in sorted;
      var j :| 0 <= j < |matching| && matching[j] == r[i];
    }
  }

  /** With a total order the listing is sorted by it. */
  lemma ListingSorted<T(!new)>(rows: seq<T>, keep: T -> bool, le: (T, T) -> bool, limit: nat, offset: nat)
    requires TotalPreorder(le)
    ensures Sorted(Listing(rows, keep, le, limit, offset), le)
  {
    var sorted := SortBy(Filter(rows, keep), le);
    SortBySorted(Filter(rows, keep), le);
    var r := Window(sorted, limit, offset);
    SortedSlice(sorted, le, WindowStart(|sorted|, offset), |r|);
  }

  /** The elements of a contiguous part belong to the whole. */
  lemma ElementsOfSlice<T>(s: seq<T>, k: nat, n: nat)
    requires k + n <= |s|
    ensures forall x :: x in s[k..k + n] ==> x in s
  {
    forall x | x in s[k..k + n] ensures x in s {
      var i :| 0 <= i < n && s[k..k + n][i] == x;
      assert s[k + i] == x;
    }
  }

  /** Filtering a sorted sequence leaves it sorted. */
  lemma {:induction false} FilterSorted<T>(s: seq<T>, p: T -> bool, le: (T, T) -> bool)
    requires Sorted(s, le)
    ensures Sorted(Filter(s, p), le)
  {
    if s != [] {
      var tail := s[1..];
      SortedSlice(s, le, 1, |tail|);
      assert s[1..1 + |tail|] == tail;
      FilterSorted(tail, p, le);
      var ft := Filter(tail, p);
      if p(s[0]) {
        assert Filter(s, p) == [s[0]] + ft;
        forall x | x in ft ensures le(s[0], x) {
          var m :| 0 <= m < |tail| && tail[m] == x;
          assert s[m + 1] == x;
        }
        ConsSorted(s[0], ft, le);
      } else {
        assert Filter(s, p) == ft;
      }
    }
  }

  /** A sorted sequence stays sorted behind an element no later than any of it. */
  lemma ConsSorted<T>(h: T, s: seq<T>, le: (T, T) -> bool)
    requires Sorted(s, le) && forall x | x in s :: le(h, x)
    ensures Sorted([h] + s, le)
  {
    var r := [h] + s;
    forall i, j | 0 <= i < j < |r| ensures le(r[i], r[j]) {
      assert r[j] == s[j - 1];
      if i > 0 {
        assert r[i] == s[i - 1];
      }
    }
  }

  /** How often a filter keeps an element: as often as the input holds it, or never. */
  lemma {:induction false} FilterCount<T>(s: seq<T>, p: T -> bool, x: T)
    ensures multiset(Filter(s, p))[x] == if p(x) then multiset(s)[x] else 0
  {
    if s != [] {
      FilterCount(s[1..], p, x);
      assert s == [s[0]] + s[1..];
      assert multiset(s) == multiset{s[0]} + multiset(s[1..]);
    }
  }

  /** Inputs with the same elements give filters with the same elements. */
  lemma FilterPermutation<T>(a: seq<T>, b: seq<T>, p: T -> bool)
    requires multiset(a) == multiset(b)
    ensures multiset(Filter(a, p)) == multiset(Filter(b, p))
  {
    forall x ensures multiset(Filter(a, p))[x] == multiset(Filter(b, p))[x] {
      FilterCount(a, p, x);
      FilterCount(b, p, x);
    }
  }

  /** `.order(...).limit(limit)`: the first `limit` rows `keep` accepts, in the
      order `le`; all of them when there are fewer. */
  function Top<T>(rows: seq<T>, keep: T -> bool, le: (T, T) -> bool, limit: nat): (r: seq<T>)
    ensures |r| == if limit < |Filter(rows, keep)| then limit else |Filter(rows, keep)|
    ensures multiset(r) <= multiset(Filter(rows, keep))
    ensures forall i :: 0 <= i < |r| ==> r[i] in rows && keep(r[i])
  {
    var matching := Filter(rows, keep);
    var sorted := SortBy(matching, le);
    var r := Take(sorted, limit);
    assert r == sorted[..|r|];
    SplitMultiset(sorted, |r|);
    forall i | 0 <= i < |r| ensures r[i] in rows && keep(r[i]) {
      assert r[i] == sorted[i];
      SortBySameElements(matching, le, r[i]);
    }
    r
  }

  /** `Top` is a prefix of the sorted matches. */
  lemma TopIsPrefix<T>(rows: seq<T>, keep: T -> bool, le: (T, T) -> bool, limit: nat)
    ensures var r := Top(rows, keep, le, limit);
            r == SortBy(Filter(rows, keep), le)[..|r|]
  {
  }

  /** Under a total order the rows `Top` returns are in that order. */
  lemma TopSorted<T(!new)>(rows: seq<T>, keep: T -> bool, le: (T, T) -> bool, limit: nat)
    requires TotalPreorder(le)
    ensures Sorted(Top(rows, keep, le, limit), le)
  {
    var sorted := SortBy(Filter(rows, keep), le);
    SortBySorted(Filter(rows, keep), le);
    var r := Top(rows, keep, le, limit);
    TopIsPrefix(rows, keep, le, limit);
    assert r == sorted[0..|r|];
    SortedSlice(sorted, le, 0, |r|);
  }

  /** Under a total order no accepted row that `Top` leaves out comes before one it
      returns. */
  lemma TopComesFirst<T(!new)>(rows: seq<T>, keep: T -> bool, le: (T, T) -> bool, limit: nat, x: T, i: nat)
    requires TotalPreorder(le)
    requires x in multiset(Filter(rows, keep)) - multiset(Top(rows, keep, le, limit))
    requires i < |Top(rows, keep, le, limit)|
    ensures le(Top(rows, keep, le, limit)[i], x)
  {
    var sorted := SortBy(Filter(rows, keep), le);
    SortBySorted(Filter(rows, keep), le);
    var r := Top(rows, keep, le, limit);
    TopIsPrefix(rows, keep, le, limit);
    SplitMultiset(sorted, |r|);
    LaterElement(sorted, le, |r|, x, i);
  }

  /** In a sorted sequence every element of a prefix comes before every element
      after it. */
  lemma LaterElement<T>(s: seq<T>, le: (T, T) -> bool, n: nat, x: T, i: nat)
    requires Sorted(s, le) && i < n <= |s|
    requires x in multiset(s) - multiset(s[..n])
    requires multiset(s) == multiset(s[..n]) + multiset(s[n..])
    ensures le(s[i], x)
  {
    assert x in multiset(s[n..]);
    var k :| 0 <= k < |s[n..]| && s[n..][k] == x;
    assert s[n + k] == x;
  }
}
