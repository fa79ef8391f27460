/** The part of a track a transcript covers: closed time intervals, merged and
    intersected in place. */
module Coverage {

  datatype Interval = Interval(start: real, end: real) {
    predicate Has(t: real) { start <= t <= end }
  }

  ghost predicate Covers(ivs: seq<Interval>, t: real)
  {
    exists k :: 0 <= k < |ivs| && ivs[k].Has(t)
  }

  /** Ascending and apart: no time is in two intervals. */
  ghost predicate Separated(ivs: seq<Interval>)
  {
    forall k, l :: 0 <= k < l < |ivs| ==> ivs[k].end < ivs[l].start && ivs[k].start <= ivs[l].start
  }

  lemma CoversSnoc(ivs: seq<Interval>, iv: Interval, t: real)
    ensures Covers(ivs + [iv], t) <==> Covers(ivs, t) || iv.Has(t)
    ensures Separated(ivs + [iv]) ==> !(Covers(ivs, t) && iv.Has(t))
  {
    var all := ivs + [iv];
    assert all[|ivs|] == iv;
    assert forall k :: 0 <= k < |ivs| ==> all[k] == ivs[k];
  }

  ghost predicate SortedByStart(ivs: seq<Interval>)
  {
    forall k, l :: 0 <= k < l < |ivs| ==> ivs[k].start <= ivs[l].start
  }

  function InsertByStart(s: seq<Interval>, x: Interval): (r: seq<Interval>)
    requires SortedByStart(s)
    ensures multiset(r) == multiset(s) + multiset{x}
  {
    if s == [] || s[|s| - 1].start <= x.start then s + [x]
    else
      var last, init := s[|s| - 1], s[..|s| - 1];
      assert s == init + [last];
      InsertByStart(init, x) + [last]
  }

  lemma {:induction false} InsertKeepsSorted(s: seq<Interval>, x: Interval)
    requires SortedByStart(s)
    ensures var r := InsertByStart(s, x);
            && SortedByStart(r) && |r| == |s| + 1
            && r[|r| - 1].start == if s == [] || s[|s| - 1].start <= x.start then x.start else s[|s| - 1].start
  {
    if !(s == [] || s[|s| - 1].start <= x.start) {
      InsertKeepsSorted(s[..|s| - 1], x);
    }
  }

  /** Any sort by start will do: merging does not depend on the order of ties. */
  function SortByStart(ivs: seq<Interval>): (s: seq<Interval>)
    ensures SortedByStart(s) && multiset(s) == multiset(ivs)
  {
    if ivs == [] then []
    else
      assert ivs == ivs[..|ivs| - 1] + [ivs[|ivs| - 1]];
      InsertKeepsSorted(SortByStart(ivs[..|ivs| - 1]), ivs[|ivs| - 1]);
      InsertByStart(SortByStart(ivs[..|ivs| - 1]), ivs[|ivs| - 1])
  }

  lemma SameElementsCover(a: seq<Interval>, b: seq<Interval>, t: real)
    requires multiset(a) == multiset(b)
    ensures Covers(a, t) <==> Covers(b, t)
  {
    assert forall k :: 0 <= k < |a| ==> a[k] in multiset(b);
    assert forall k :: 0 <= k < |b| ==> b[k] in multiset(a);
  }

  ghost predicate Proper(ivs: seq<Interval>) { forall x :: x in ivs ==> x.start < x.end }

  /** One more interval, in order of start: it extends the last one or follows it. */
  function MergeOne(out: seq<Interval>, x: Interval): seq<Interval>
    requires |out| > 0
  {
    var last := out[|out| - 1];
    if x.start <= last.end then out[|out| - 1 := Interval(last.start, if last.end < x.end then x.end else last.end)]
    else out + [x]
  }

  lemma MergeOneKeepsCoverage(out: seq<Interval>, x: Interval, t: real)
    requires |out| > 0 && out[|out| - 1].start <= x.start
    ensures Covers(MergeOne(out, x), t) <==> Covers(out, t) || x.Has(t)
  {
    var last, r := out[|out| - 1], MergeOne(out, x);
    if x.start <= last.end {
      var rest := out[..|out| - 1];
      assert out == rest + [last] && r == rest + [r[|r| - 1]];
      CoversSnoc(rest, last, t);
      CoversSnoc(rest, r[|r| - 1], t);
    } else {
      CoversSnoc(out, x, t);
    }
  }

  lemma MergeOneStaysSeparated(out: seq<Interval>, x: Interval)
    requires |out| > 0 && out[|out| - 1].start <= x.start && Separated(out)
    ensures Separated(MergeOne(out, x)) && MergeOne(out, x)[|MergeOne(out, x)| - 1].start <= x.start
    ensures Proper(out) && x.start < x.end ==> Proper(MergeOne(out, x))
  {
  }

  /** Merging keeps the covered times and leaves the intervals separated. */
  method MergeIntervals(iv: seq<Interval>) returns (out: seq<Interval>)
    ensures forall t :: Covers(out, t) <==> Covers(iv, t)
    ensures Separated(out)
    ensures Proper(iv) ==> Proper(out)
  {
    hide Covers, Separated;
    if |iv| == 0 {
      NoIntervals();
      return [];
    }
    var s := SortByStart(iv);
    SameElements(s, iv);
    out := [s[0]];
    OneInterval(s[0]);
    assert s[..1] == out;
    for n := 1 to |s|
      invariant |out| > 0 && Separated(out) && out[|out| - 1].start <= s[n - 1].start
      invariant forall t :: Covers(out, t) <==> Covers(s[..n], t)
      invariant Proper(iv) ==> Proper(out)
    {
      var x := s[n];
      forall t
        ensures Covers(MergeOne(out, x), t) <==> Covers(s[..n + 1], t)
      {
        MergeOneKeepsCoverage(out, x, t);
        assert s[..n + 1] == s[..n] + [x];
        CoversSnoc(s[..n], x, t);
      }
      MergeOneStaysSeparated(out, x);
      var last := out[|out| - 1];
      if x.start <= last.end {
        out := out[|out| - 1 := Interval(last.start, if last.end < x.end then x.end else last.end)];
      } else {
        out := out + [x];
      }
    }
    forall t
      ensures Covers(out, t) <==> Covers(iv, t)
    {
      assert s[..|s|] == s;
      SameElementsCover(s, iv, t);
    }
  }

  lemma NoIntervals()
    ensures Separated([]) && forall t :: !Covers([], t)
  {
  }

  lemma OneInterval(x: Interval)
    ensures Separated([x])
  {
  }

  lemma SameElements(s: seq<Interval>, iv: seq<Interval>)
    requires multiset(s) == multiset(iv)
    ensures |s| == |iv| && forall x :: x in s ==> x in iv
  {
    assert |s| == |multiset(s)| && |iv| == |multiset(iv)|;
    assert forall x :: x in s ==> x in multiset(s);
  }

  // ---- Intersection --------------------------------------------------------

  function Overlap(x: Interval, y: Interval): Interval
  {
    Interval(if x.start < y.start then y.start else x.start, if x.end < y.end then x.end else y.end)
  }

  /** t lies in a common stretch of positive length. */
  ghost predicate InOverlap(x: Interval, y: Interval, t: real)
  {
    Overlap(x, y).start < Overlap(x, y).end && Overlap(x, y).Has(t)
  }

  /** t lies in the overlap of a pair with its first side before i or its second
      before j. */
  ghost predicate InCommonBefore(a: seq<Interval>, b: seq<Interval>, i: int, j: int, t: real)
  {
    exists p, q :: 0 <= p < |a| && 0 <= q < |b| && (p < i || q < j) && InOverlap(a[p], b[q], t)
  }

  ghost predicate InCommon(a: seq<Interval>, b: seq<Interval>, t: real)
  {
    exists p, q :: 0 <= p < |a| && 0 <= q < |b| && InOverlap(a[p], b[q], t)
  }

  /** Leaving behind the interval that ends first loses no later overlap. */
  lemma AdvanceIsComplete(a: seq<Interval>, b: seq<Interval>, i: nat, j: nat, t: real)
    requires Separated(a) && Separated(b) && i < |a| && j < |b|
    ensures a[i].end < b[j].end ==>
      (InCommonBefore(a, b, i + 1, j, t) <==> InCommonBefore(a, b, i, j, t) || InOverlap(a[i], b[j], t))
    ensures b[j].end <= a[i].end ==>
      (InCommonBefore(a, b, i, j + 1, t) <==> InCommonBefore(a, b, i, j, t) || InOverlap(a[i], b[j], t))
  {
    assert forall q :: j < q < |b| && a[i].end < b[j].end ==> !InOverlap(a[i], b[q], t);
    assert forall p :: i < p < |a| && b[j].end <= a[i].end ==> !InOverlap(a[p], b[j], t);
  }

  lemma AppendOverlap(out: seq<Interval>, o: Interval)
    requires Separated(out) && (out != [] ==> out[|out| - 1].end < o.start && out[|out| - 1].start <= o.start)
    requires Proper(out)
    ensures Separated(out + [o])
  {
  }

  /** The two-pointer walk returns separated intervals that cover exactly the common
      stretches of positive length (two intervals that only touch have none). */
  method IntersectIntervals(a: seq<Interval>, b: seq<Interval>) returns (out: seq<Interval>)
    requires Separated(a) && Separated(b)
    ensures Separated(out) && Proper(out)
    ensures forall t :: Covers(out, t) <==> InCommon(a, b, t)
  {
    hide Covers, InCommonBefore, InOverlap, Separated;
    out := [];
    NoIntervals();
    NothingBefore(a, b);
    var i, j := 0, 0;
    while i < |a| && j < |b|
      invariant 0 <= i <= |a| && 0 <= j <= |b|
      invariant Separated(out) && Proper(out)
      invariant out != [] && i < |a| && j < |b| ==>
        && out[|out| - 1].end < Overlap(a[i], b[j]).start
        && out[|out| - 1].start <= Overlap(a[i], b[j]).start
      invariant forall t :: Covers(out, t) <==> InCommonBefore(a, b, i, j, t)
      decreases |a| - i + |b| - j
    {
      var x, y := a[i], b[j];
      var o := Overlap(x, y);
      ghost var before := out;
      if o.end > o.start {
        AppendOverlap(out, o);
        out := out + [o];
      }
      forall t
        ensures Covers(out, t) <==> Covers(before, t) || InOverlap(x, y, t)
      {
        OverlapCovers(before, x, y, t);
      }
      forall t
        ensures x.end < y.end ==> (Covers(out, t) <==> InCommonBefore(a, b, i + 1, j, t))
        ensures y.end <= x.end ==> (Covers(out, t) <==> InCommonBefore(a, b, i, j + 1, t))
      {
        AdvanceIsComplete(a, b, i, j, t);
      }
      if x.end < y.end {
        StartsAfter(a, i);
        i := i + 1;
      } else {
        StartsAfter(b, j);
        j := j + 1;
      }
    }
    forall t
      ensures Covers(out, t) <==> InCommon(a, b, t)
    {
      AllBefore(a, b, i, j, t);
    }
  }

  /** The covered part of a track: all of it, or separated intervals. */
  datatype Extent = Whole | Parts(intervals: seq<Interval>)

  ghost predicate SeparatedExtent(e: Extent) { e.Parts? ==> Separated(e.intervals) }

  /** t is covered by both sides: in a common stretch of positive length when both are
      partial. */
  ghost predicate InBoth(a: Extent, b: Extent, t: real)
  {
    match (a, b)
    case (Whole, Whole) => true
    case (Whole, Parts(y)) => Covers(y, t)
    case (Parts(x), Whole) => Covers(x, t)
    case (Parts(x), Parts(y)) => InCommon(x, y, t)
  }

  method Intersect(a: Extent, b: Extent) returns (out: Extent)
    requires SeparatedExtent(a) && SeparatedExtent(b)
    ensures SeparatedExtent(out) && (out.Whole? <==> a.Whole? && b.Whole?)
    ensures forall t :: (out.Whole? || Covers(out.intervals, t)) <==> InBoth(a, b, t)
  {
    if a.Whole? { return b; }
    if b.Whole? { return a; }
    var common := IntersectIntervals(a.intervals, b.intervals);
    return Parts(common);
  }

  lemma NothingBefore(a: seq<Interval>, b: seq<Interval>)
    ensures forall t :: !InCommonBefore(a, b, 0, 0, t)
  {
  }

  lemma AllBefore(a: seq<Interval>, b: seq<Interval>, i: nat, j: nat, t: real)
    requires i >= |a| || j >= |b|
    ensures InCommonBefore(a, b, i, j, t) <==> InCommon(a, b, t)
  {
  }

  lemma StartsAfter(a: seq<Interval>, i: nat)
    requires Separated(a) && i < |a|
    ensures i + 1 < |a| ==> a[i].end < a[i + 1].start && a[i].start <= a[i + 1].start
  {
  }

  lemma OverlapCovers(out: seq<Interval>, x: Interval, y: Interval, t: real)
    ensures var o := Overlap(x, y);
            Covers(if o.end > o.start then out + [o] else out, t) <==> Covers(out, t) || InOverlap(x, y, t)
  {
    CoversSnoc(out, Overlap(x, y), t);
  }
}
