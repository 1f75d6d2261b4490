/** Closed integer ranges [lo, hi], as the two-element lists the repository passes around. */
module Ranges {
  import opened Bytes

  datatype Range = Range(lo: int, hi: int)

  predicate InRange(x: int, r: Range) {
    r.lo <= x <= r.hi
  }

  function Size(r: Range): int {
    r.hi - r.lo + 1
  }

  /** Python's list order on the two elements. */
  predicate ListLess(a: Range, b: Range) {
    a.lo < b.lo || (a.lo == b.lo && a.hi < b.hi)
  }

  /** Both pairs laid out in ascending order; they meet when the second starts before the first ends. */
  predicate RangeIntersects(a: Range, b: Range) {
    if a == b then true
    else
      var (first, second) := if ListLess(b, a) then (b, a) else (a, b);
      second.lo <= first.hi
  }

  function Insert(x: int, s: seq<int>): seq<int> {
    if |s| == 0 then [x]
    else if x <= s[0] then [x] + s
    else [s[0]] + Insert(x, s[1..])
  }

  function Sort(s: seq<int>): seq<int> {
    if |s| == 0 then [] else Insert(s[0], Sort(s[1..]))
  }

  lemma {:induction false} SortLength(s: seq<int>)
    ensures |Sort(s)| == |s|
  {
    if |s| == 0 {
    } else {
      SortLength(s[1..]);
      InsertLength(s[0], Sort(s[1..]));
    }
  }

  lemma {:induction false} InsertLength(x: int, s: seq<int>)
    ensures |Insert(x, s)| == |s| + 1
  {
    if |s| == 0 || x <= s[0] {
    } else {
      InsertLength(x, s[1..]);
    }
  }

  /** The middle two of the four end points. */
  function IntersectRange(a: Range, b: Range): Range {
    var ends := [a.lo, a.hi, b.lo, b.hi];
    SortLength(ends);
    Range(Sort(ends)[1], Sort(ends)[2])
  }

  lemma InsertIntoOne(x: int, p: int)
    ensures Insert(x, [p]) == if x <= p then [x, p] else [p, x]
  {
    assert [p][1..] == [];
  }

  lemma InsertIntoTwo(x: int, p: int, q: int)
    ensures Insert(x, [p, q]) == if x <= p then [x, p, q] else if x <= q then [p, x, q] else [p, q, x]
  {
    assert [p, q][1..] == [q];
    InsertIntoOne(x, q);
  }

  lemma InsertIntoThree(x: int, p: int, q: int, r: int)
    ensures Insert(x, [p, q, r]) == if x <= p then [x, p, q, r] else [p] + Insert(x, [q, r])
  {
    assert [p, q, r][1..] == [q, r];
  }

  lemma SortedEnds(a: Range, b: Range)
    requires a.lo <= a.hi && b.lo <= b.hi
    requires Max(a.lo, b.lo) <= Min(a.hi, b.hi)
    ensures IntersectRange(a, b) == Range(Max(a.lo, b.lo), Min(a.hi, b.hi))
  {
    var ends := [a.lo, a.hi, b.lo, b.hi];
    assert ends[1..] == [a.hi, b.lo, b.hi];
    assert [a.hi, b.lo, b.hi][1..] == [b.lo, b.hi];
    assert [b.lo, b.hi][1..] == [b.hi];
    assert [b.hi][1..] == [];
    assert Sort([b.hi]) == [b.hi];
    InsertIntoOne(b.lo, b.hi);
    assert Sort([b.lo, b.hi]) == [b.lo, b.hi];
    InsertIntoTwo(a.hi, b.lo, b.hi);
    var three := Sort([a.hi, b.lo, b.hi]);
    assert three == [b.lo, Min(a.hi, b.hi), Max(a.hi, b.hi)];
    InsertIntoThree(a.lo, three[0], three[1], three[2]);
    InsertIntoTwo(a.lo, three[1], three[2]);
  }

  /** Two proper ranges intersect exactly when they share a number, and then the middle two end
      points bound exactly the numbers they share. */
  lemma IntersectionIsExact(a: Range, b: Range)
    requires a.lo <= a.hi && b.lo <= b.hi
    ensures RangeIntersects(a, b) <==> exists x :: InRange(x, a) && InRange(x, b)
    ensures RangeIntersects(a, b) ==>
              forall x :: InRange(x, IntersectRange(a, b)) <==> InRange(x, a) && InRange(x, b)
  {
    if RangeIntersects(a, b) {
      var lo := Max(a.lo, b.lo);
      assert InRange(lo, a) && InRange(lo, b);
      SortedEnds(a, b);
    }
  }
}
