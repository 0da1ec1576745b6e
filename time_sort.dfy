/** `data.sort(key=lambda x: x[0])` on a chart series: a stable ascending
    sort of (created_at, score) points by their timestamp. The reference is
    a functional insertion sort; the in-place method is proved to produce
    exactly its result. */
module TimeSort {

  /** A chart point: (created_at, score). */
  type Point = (int, int)

  predicate SortedByTime(s: seq<Point>) {
    forall i, j | 0 <= i < j < |s| :: s[i].0 <= s[j].0
  }

  /** Insert p after every point whose timestamp is not later than its own. */
  function Insert(s: seq<Point>, p: Point): seq<Point> {
    if s == [] || s[|s| - 1].0 <= p.0 then s + [p]
    else Insert(s[..|s| - 1], p) + [s[|s| - 1]]
  }

  function SortByTime(s: seq<Point>): seq<Point> {
    if s == [] then [] else Insert(SortByTime(s[..|s| - 1]), s[|s| - 1])
  }

  /** The points of s with timestamp t, in their order in s. */
  function AtTime(s: seq<Point>, t: int): seq<Point> {
    if s == [] then []
    else AtTime(s[..|s| - 1], t) + (if s[|s| - 1].0 == t then [s[|s| - 1]] else [])
  }

  /** Insertion adds exactly the one point. */
  lemma {:induction false} InsertPermutes(s: seq<Point>, p: Point)
    ensures multiset(Insert(s, p)) == multiset(s) + multiset{p}
    ensures |Insert(s, p)| == |s| + 1
  {
    if s != [] && s[|s| - 1].0 > p.0 {
      var n := |s| - 1;
      InsertPermutes(s[..n], p);
      assert s == s[..n] + [s[n]];
    }
  }

  /** Insertion into a sorted sequence keeps it sorted. */
  lemma {:induction false} InsertSorted(s: seq<Point>, p: Point)
    requires SortedByTime(s)
    ensures SortedByTime(Insert(s, p))
  {
    if s != [] && s[|s| - 1].0 > p.0 {
      var n := |s| - 1;
      var r := Insert(s[..n], p);
      InsertSorted(s[..n], p);
      InsertBounded(s[..n], p, s[n].0);
      assert Insert(s, p) == r + [s[n]];
    }
  }

  /** No point of the result is later than a bound every input point meets. */
  lemma {:induction false} InsertBounded(s: seq<Point>, p: Point, bound: int)
    requires p.0 <= bound && forall i | 0 <= i < |s| :: s[i].0 <= bound
    ensures forall k | 0 <= k < |Insert(s, p)| :: Insert(s, p)[k].0 <= bound
  {
    if s != [] && s[|s| - 1].0 > p.0 {
      var n := |s| - 1;
      InsertBounded(s[..n], p, bound);
      assert Insert(s, p) == Insert(s[..n], p) + [s[n]];
    }
  }

  lemma {:induction false} InsertStable(s: seq<Point>, p: Point, t: int)
    ensures AtTime(Insert(s, p), t) == AtTime(s, t) + (if p.0 == t then [p] else [])
  {
    if s == [] || s[|s| - 1].0 <= p.0 {
      AtTimeSnoc(s, p, t);
    } else {
      var n := |s| - 1;
      InsertStable(s[..n], p, t);
      AtTimeSnoc(Insert(s[..n], p), s[n], t);
      assert Insert(s, p) == Insert(s[..n], p) + [s[n]];
      assert AtTime(s, t) == AtTime(s[..n], t) + (if s[n].0 == t then [s[n]] else []);
    }
  }

  /** One more point at the end adds it to its timestamp's points. */
  lemma AtTimeSnoc(s: seq<Point>, q: Point, t: int)
    ensures AtTime(s + [q], t) == AtTime(s, t) + (if q.0 == t then [q] else [])
  {
    assert (s + [q])[..|s|] == s;
  }

  /** The sort yields an ascending permutation of its input. */
  lemma {:induction false} SortByTimeSorts(s: seq<Point>)
    ensures SortedByTime(SortByTime(s)) && multiset(SortByTime(s)) == multiset(s)
    ensures |SortByTime(s)| == |s|
  {
    if s != [] {
      var n := |s| - 1;
      SortByTimeSorts(s[..n]);
      InsertSorted(SortByTime(s[..n]), s[n]);
      InsertPermutes(SortByTime(s[..n]), s[n]);
      assert s == s[..n] + [s[n]];
    }
  }

  /** The sort is stable: points with equal timestamps keep their order. */
  lemma {:induction false} SortByTimeStable(s: seq<Point>, t: int)
    ensures AtTime(SortByTime(s), t) == AtTime(s, t)
  {
    if s != [] {
      var n := |s| - 1;
      SortByTimeStable(s[..n], t);
      InsertStable(SortByTime(s[..n]), s[n], t);
    }
  }

  /** x lands right after the last point not later than it: when every
      point from j on is later than x and the one before j is not,
      Insert places x at position j. */
  lemma {:induction false} InsertAt(s: seq<Point>, j: int, x: Point)
    requires 0 <= j <= |s| && (j == 0 || s[j - 1].0 <= x.0)
    requires forall k | j <= k < |s| :: s[k].0 > x.0
    ensures Insert(s, x) == s[..j] + [x] + s[j..]
    decreases |s|
  {
    if j < |s| {
      var n := |s| - 1;
      var p := s[..n];
      assert p[..j] == s[..j] && (j == 0 || p[j - 1] == s[j - 1]);
      InsertAt(p, j, x);
      assert s[j..] == p[j..] + [s[n]];
    } else {
      assert s[..j] == s && s[j..] == [];
    }
  }

  /** An array prefix that holds s[..j], then x, then s[j..] element by
      element is that sequence. */
  lemma Placed(s: seq<Point>, j: int, x: Point, r: seq<Point>)
    requires 0 <= j <= |s| && |r| == |s| + 1 && r[j] == x
    requires forall k | 0 <= k < j :: r[k] == s[k]
    requires forall k | j < k < |r| :: r[k] == s[k - 1]
    ensures r == s[..j] + [x] + s[j..]
  {
  }

  /** One pass of the in-place sort: a[i] moves left past the later
      timestamps of the sorted prefix. */
  method InsertInPlace(a: array<Point>, i: int)
    requires 0 <= i < a.Length
    modifies a
    ensures a[..i + 1] == Insert(old(a[..i]), old(a[i]))
    ensures forall k | i < k < a.Length :: a[k] == old(a[k])
  {
    ghost var sorted := a[..i];
    var x := a[i];
    var j := i;
    while j > 0 && a[j - 1].0 > x.0
      invariant 0 <= j <= i
      invariant forall k | 0 <= k < j :: a[k] == sorted[k]
      invariant forall k | j < k <= i :: a[k] == sorted[k - 1]
      invariant forall k | i < k < a.Length :: a[k] == old(a[k])
      invariant forall k | j <= k < i :: sorted[k].0 > x.0
    {
      a[j] := a[j - 1];
      j := j - 1;
    }
    a[j] := x;
    InsertAt(sorted, j, x);
    Placed(sorted, j, x, a[..i + 1]);
  }

  /** The in-place insertion sort of one series. */
  method SortSeries(a: array<Point>)
    modifies a
    ensures a[..] == SortByTime(old(a[..]))
  {
    ghost var input := a[..];
    for i := 0 to a.Length
      invariant a[..i] == SortByTime(input[..i])
      invariant a[i..] == input[i..]
    {
      InsertInPlace(a, i);
      assert input[..i + 1][..i] == input[..i];
      assert a[i + 1..] == input[i + 1..];
    }
    assert input[..a.Length] == input;
  }
}
