/** Planning the windows of a track: cuts at the largest pauses between production
    words, over the whole track or over the stretches around held findings. */
module WindowPlanner {
  import opened Optional
  import opened Coverage

  datatype Gap = Gap(mid: real, len: real)

  const CUT_SEARCH_FRACTION := 0.25
  const MIN_WINDOW_SEC := 5.0
  const FINDING_PAD_SEC := 5.0

  function Larger(x: real, y: real): real { if x < y then y else x }

  function Smaller(x: real, y: real): real { if y < x then y else x }

  // ---- Gaps ----------------------------------------------------------------

  /** The pause between word i and the next, by its midpoint and length. */
  function GapAfter(words: seq<Interval>, i: nat): Gap
    requires i + 1 < |words|
  {
    Gap((words[i].end + words[i + 1].start) / 2.0, words[i + 1].start - words[i].end)
  }

  ghost predicate ByMid(gaps: seq<Gap>) { forall k, l :: 0 <= k < l < |gaps| ==> gaps[k].mid <= gaps[l].mid }

  ghost predicate IsPause(words: seq<Interval>, g: Gap)
  {
    exists i: nat :: i + 1 < |words| && words[i].end < words[i + 1].start && g == GapAfter(words, i)
  }

  /** The pauses of the words, sorted by midpoint. */
  ghost predicate GapsOf(gaps: seq<Gap>, words: seq<Interval>)
  {
    && ByMid(gaps)
    && (forall g :: g in gaps ==> IsPause(words, g))
    && (forall i: nat :: i + 1 < |words| && words[i].end < words[i + 1].start ==> GapAfter(words, i) in gaps)
  }

  function InsertGap(gaps: seq<Gap>, g: Gap): (r: seq<Gap>)
    ensures forall x :: x in r <==> x in gaps || x == g
  {
    if gaps == [] then [g]
    else
      var last, init := gaps[|gaps| - 1], gaps[..|gaps| - 1];
      assert gaps == init + [last];
      if last.mid < g.mid || (last.mid == g.mid && last.len <= g.len) then gaps + [g]
      else InsertGap(init, g) + [last]
  }

  lemma {:induction false} InsertGapSorted(gaps: seq<Gap>, g: Gap)
    requires ByMid(gaps)
    ensures ByMid(InsertGap(gaps, g))
  {
    if gaps != [] {
      var last, init := gaps[|gaps| - 1], gaps[..|gaps| - 1];
      InsertGapSorted(init, g);
      if last.mid < g.mid || (last.mid == g.mid && last.len <= g.len) {
        GapSnoc(gaps, g);
      } else {
        var r := InsertGap(init, g);
        forall k | 0 <= k < |r|
          ensures r[k].mid <= last.mid
        {
          assert r[k] in init || r[k] == g;
        }
        GapSnoc(r, last);
      }
    }
  }

  lemma GapSnoc(gaps: seq<Gap>, g: Gap)
    requires ByMid(gaps) && forall k :: 0 <= k < |gaps| ==> gaps[k].mid <= g.mid
    ensures ByMid(gaps + [g])
  {
  }

  method MakeGaps(words: seq<Interval>) returns (gaps: seq<Gap>)
    ensures GapsOf(gaps, words)
  {
    gaps := [];
    var i := 0;
    while i + 1 < |words|
      invariant 0 <= i && ByMid(gaps)
      invariant forall g :: g in gaps ==> IsPause(words, g)
      invariant forall q: nat :: q < i && q + 1 < |words| && words[q].end < words[q + 1].start ==> GapAfter(words, q) in gaps
    {
      if words[i + 1].start > words[i].end {
        InsertGapSorted(gaps, GapAfter(words, i));
        assert IsPause(words, GapAfter(words, i));
        gaps := InsertGap(gaps, GapAfter(words, i));
      }
      i := i + 1;
    }
  }

  predicate Within(lo: real, hi: real, t: real) { lo <= t <= hi }

  /** c is the midpoint of a largest gap of the range, the earliest one of them. */
  ghost predicate IsBest(gaps: seq<Gap>, lo: real, hi: real, c: real)
  {
    exists k :: 0 <= k < |gaps| && gaps[k].mid == c && IsBestAt(gaps, lo, hi, k)
  }

  ghost predicate IsBestAt(gaps: seq<Gap>, lo: real, hi: real, k: int)
  {
    && 0 <= k < |gaps| && Within(lo, hi, gaps[k].mid)
    && forall q :: 0 <= q < |gaps| && Within(lo, hi, gaps[q].mid) ==> gaps[q].len <= gaps[k].len && (q < k ==> gaps[q].len < gaps[k].len)
  }

  ghost predicate NoneWithin(gaps: seq<Gap>, lo: real, hi: real)
  {
    forall q :: 0 <= q < |gaps| ==> !Within(lo, hi, gaps[q].mid)
  }

  /** First index whose midpoint is at (left) or past (right) x. */
  method Bisect(gaps: seq<Gap>, x: real, right: bool) returns (i: nat)
    requires ByMid(gaps)
    ensures i <= |gaps|
    ensures forall q :: 0 <= q < i ==> gaps[q].mid < x || (right && gaps[q].mid == x)
    ensures forall q :: i <= q < |gaps| ==> gaps[q].mid > x || (!right && gaps[q].mid == x)
  {
    var lo, hi := 0, |gaps|;
    while lo < hi
      invariant 0 <= lo <= hi <= |gaps|
      invariant forall q :: 0 <= q < lo ==> gaps[q].mid < x || (right && gaps[q].mid == x)
      invariant forall q :: hi <= q < |gaps| ==> gaps[q].mid > x || (!right && gaps[q].mid == x)
    {
      var m := (lo + hi) / 2;
      if gaps[m].mid < x || (right && gaps[m].mid == x) { lo := m + 1; } else { hi := m; }
    }
    i := lo;
  }

  method Best(gaps: seq<Gap>, lo: real, hi: real) returns (r: Option<real>)
    requires ByMid(gaps)
    ensures r.None? ==> NoneWithin(gaps, lo, hi)
    ensures r.Some? ==> Within(lo, hi, r.value) && IsBest(gaps, lo, hi, r.value)
  {
    var i := Bisect(gaps, lo, false);
    var j := Bisect(gaps, hi, true);
    if i >= j { return None; }
    var k := i;
    for q := i + 1 to j
      invariant i <= k < q
      invariant forall p :: i <= p < q ==> gaps[p].len <= gaps[k].len && (p < k ==> gaps[p].len < gaps[k].len)
    {
      if gaps[q].len > gaps[k].len { k := q; }
    }
    assert IsBestAt(gaps, lo, hi, k);
    return Some(gaps[k].mid);
  }

  // ---- Windows of one stretch ----------------------------------------------

  /** Nonempty and back to back from start to end. */
  ghost predicate Tiling(ws: seq<Interval>, start: real, end: real)
  {
    && ws != [] && ws[0].start == start && ws[|ws| - 1].end == end
    && (forall k :: 0 <= k < |ws| ==> ws[k].start < ws[k].end)
    && (forall k :: 0 <= k < |ws| - 1 ==> ws[k].end == ws[k + 1].start)
  }

  /** A cut: in the last quarter of the target, at a largest pause there, or at the
      target itself when there is none. */
  ghost predicate WellCut(gaps: seq<Gap>, w: Interval, target: real)
  {
    var lo, hi := w.start + target * (1.0 - CUT_SEARCH_FRACTION), w.start + target;
    && Within(lo, hi, w.end)
    && (IsBest(gaps, lo, hi, w.end) || (NoneWithin(gaps, lo, hi) && w.end == hi))
  }

  ghost predicate CutFrom(gaps: seq<Gap>, start: real, cut: real, target: real)
  {
    WellCut(gaps, Interval(start, cut), target)
  }

  /** The windows before any folding: cut while more than the target is left. */
  ghost predicate IsCutting(cuts: seq<Interval>, gaps: seq<Gap>, start: real, end: real, target: real)
  {
    && Tiling(cuts, start, end)
    && (forall k :: 0 <= k < |cuts| - 1 ==> WellCut(gaps, cuts[k], target) && end - cuts[k].start > target)
    && end - cuts[|cuts| - 1].start <= target
  }

  /** A short tail is folded when the merged window still fits. */
  predicate TailFolds(cuts: seq<Interval>, hardMax: real)
  {
    && |cuts| > 1
    && cuts[|cuts| - 1].end - cuts[|cuts| - 1].start < MIN_WINDOW_SEC
    && cuts[|cuts| - 1].end - cuts[|cuts| - 2].start <= hardMax
  }

  function Fold(cuts: seq<Interval>, hardMax: real): seq<Interval>
  {
    if TailFolds(cuts, hardMax) then cuts[..|cuts| - 2] + [Interval(cuts[|cuts| - 2].start, cuts[|cuts| - 1].end)] else cuts
  }

  /** What folding is: exactly a tail shorter than five seconds, which fits together with
      the window before it, is joined to that window; every other window stays. */
  lemma FoldMeans(cuts: seq<Interval>, hardMax: real)
    ensures var ws, n := Fold(cuts, hardMax), |cuts|;
            if n > 1 && cuts[n - 1].end - cuts[n - 1].start < 5.0 && cuts[n - 1].end - cuts[n - 2].start <= hardMax
            then |ws| == n - 1 && ws[..n - 2] == cuts[..n - 2] && ws[n - 2] == Interval(cuts[n - 2].start, cuts[n - 1].end)
            else ws == cuts
  {
  }

  /** So no window is longer than the target by five seconds or more, only the last can be
      longer at all, and a last window shorter than five seconds does not fit together with
      the one before. */
  lemma FoldedLengths(cuts: seq<Interval>, gaps: seq<Gap>, start: real, end: real, target: real, hardMax: real)
    requires IsCutting(cuts, gaps, start, end, target)
    ensures var ws := Fold(cuts, hardMax);
      && (forall k :: 0 <= k < |ws| ==> ws[k].end - ws[k].start < target + 5.0)
      && (forall k :: 0 <= k < |ws| - 1 ==> ws[k].end - ws[k].start <= target)
      && (target >= 5.0 && |ws| > 1 && end - ws[|ws| - 1].start < 5.0 ==> end - ws[|ws| - 2].start > hardMax)
  {
    hide WellCut;
    FoldMeans(cuts, hardMax);
    forall k | 0 <= k < |cuts| - 1
      ensures cuts[k].end - cuts[k].start <= target
    {
      WellCutFits(gaps, cuts[k], target);
    }
  }

  /** What a plan of [start, end) promises. */
  ghost predicate IsPlan(ws: seq<Interval>, gaps: seq<Gap>, start: real, end: real, target: real, hardMax: real)
  {
    && Tiling(ws, start, end)
    && (forall k :: 0 <= k < |ws| - 1 ==> WellCut(gaps, ws[k], target))
    && (forall k :: 0 <= k < |ws| ==> ws[k].end - ws[k].start <= hardMax)
    && (exists cuts :: IsCutting(cuts, gaps, start, end, target) && ws == Fold(cuts, hardMax))
  }

  lemma BestIsUnique(gaps: seq<Gap>, lo: real, hi: real, c: real, c': real)
    requires IsBest(gaps, lo, hi, c) && IsBest(gaps, lo, hi, c')
    ensures c == c'
  {
    var k :| 0 <= k < |gaps| && gaps[k].mid == c && IsBestAt(gaps, lo, hi, k);
    var l :| 0 <= l < |gaps| && gaps[l].mid == c' && IsBestAt(gaps, lo, hi, l);
  }

  lemma CutIsUnique(gaps: seq<Gap>, w: Interval, w': Interval, target: real)
    requires WellCut(gaps, w, target) && WellCut(gaps, w', target) && w.start == w'.start
    ensures w == w'
  {
    hide NoneWithin, IsBestAt;
    var lo, hi := w.start + target * (1.0 - CUT_SEARCH_FRACTION), w.start + target;
    if IsBest(gaps, lo, hi, w.end) && IsBest(gaps, lo, hi, w'.end) { BestIsUnique(gaps, lo, hi, w.end, w'.end); }
    if NoneWithin(gaps, lo, hi) && IsBest(gaps, lo, hi, w.end) { NoBest(gaps, lo, hi, w.end); }
    if NoneWithin(gaps, lo, hi) && IsBest(gaps, lo, hi, w'.end) { NoBest(gaps, lo, hi, w'.end); }
  }

  lemma NoBest(gaps: seq<Gap>, lo: real, hi: real, c: real)
    requires NoneWithin(gaps, lo, hi)
    ensures !IsBest(gaps, lo, hi, c)
  {
  }

  lemma {:induction false} CuttingsAgree(cuts: seq<Interval>, cuts': seq<Interval>, gaps: seq<Gap>, start: real, end: real, target: real, k: nat)
    requires IsCutting(cuts, gaps, start, end, target) && IsCutting(cuts', gaps, start, end, target) && k < |cuts|
    ensures k < |cuts'| && cuts[k].start == cuts'[k].start
  {
    hide WellCut;
    if k > 0 {
      CuttingsAgree(cuts, cuts', gaps, start, end, target, k - 1);
      CutIsUnique(gaps, cuts[k - 1], cuts'[k - 1], target);
    }
  }

  /** The input determines where the windows are cut, so a plan is a function of it. */
  lemma CuttingIsUnique(cuts: seq<Interval>, cuts': seq<Interval>, gaps: seq<Gap>, start: real, end: real, target: real)
    requires IsCutting(cuts, gaps, start, end, target) && IsCutting(cuts', gaps, start, end, target)
    ensures cuts == cuts'
  {
    hide WellCut;
    CuttingsAgree(cuts, cuts', gaps, start, end, target, |cuts| - 1);
    CuttingsAgree(cuts', cuts, gaps, start, end, target, |cuts'| - 1);
    forall k: nat | k < |cuts|
      ensures cuts[k] == cuts'[k]
    {
      CuttingsAgree(cuts, cuts', gaps, start, end, target, k);
      if k + 1 < |cuts| { CuttingsAgree(cuts, cuts', gaps, start, end, target, k + 1); }
    }
  }

  /** Every window is within the target exactly when no tail was folded. */
  lemma WithinTargetUnlessFolded(cuts: seq<Interval>, gaps: seq<Gap>, start: real, end: real, target: real, hardMax: real)
    requires IsCutting(cuts, gaps, start, end, target)
    ensures (forall k :: 0 <= k < |Fold(cuts, hardMax)| ==> Fold(cuts, hardMax)[k].end - Fold(cuts, hardMax)[k].start <= target)
            <==> !TailFolds(cuts, hardMax)
    ensures target >= hardMax ==> !TailFolds(cuts, hardMax)
  {
    hide IsBest, NoneWithin;
    var ws := Fold(cuts, hardMax);
    if TailFolds(cuts, hardMax) { assert ws[|ws| - 1] == Interval(cuts[|cuts| - 2].start, end); }
  }

  /** With no pauses, eight seconds at a target of six and a hard maximum of ten come
      out as one window of eight. */
  lemma TargetExceeded() returns (cuts: seq<Interval>)
    ensures IsCutting(cuts, [], 0.0, 8.0, 6.0) && TailFolds(cuts, 10.0) && Fold(cuts, 10.0) == [Interval(0.0, 8.0)]
  {
    cuts := [Interval(0.0, 6.0), Interval(6.0, 8.0)];
  }

  function StepsLeft(pos: real, end: real, step: real): nat
    requires step > 0.0
  {
    if pos >= end then 0 else
      assert (end - pos) / step > 0.0;
      ((end - pos) / step).Floor + 1
  }

  lemma NonnegativeFactor(x: real, y: real)
    requires y > 0.0 && x * y >= 0.0
    ensures x >= 0.0
  {
    assert (x * y) / y == x;
  }

  lemma StepsRunOut(pos: real, next: real, end: real, step: real)
    requires step > 0.0 && pos < end && next >= pos + step
    ensures StepsLeft(next, end, step) < StepsLeft(pos, end, step)
  {
    var q, q' := (end - pos) / step, (end - next) / step;
    assert q * step == end - pos && q' * step == end - next;
    assert (q - q') * step == q * step - q' * step;
    assert (q - q' - 1.0) * step == next - pos - step;
    NonnegativeFactor(q - q' - 1.0, step);
  }

  ghost predicate AllCut(ws: seq<Interval>, gaps: seq<Gap>, target: real)
  {
    forall k :: 0 <= k < |ws| ==> WellCut(gaps, ws[k], target)
  }

  /** The windows cut so far reach from start to pos. */
  ghost predicate CutUpTo(ws: seq<Interval>, gaps: seq<Gap>, start: real, pos: real, target: real)
  {
    && (if ws == [] then pos == start else Tiling(ws, start, pos))
    && AllCut(ws, gaps, target)
  }

  lemma CutSnoc(ws: seq<Interval>, gaps: seq<Gap>, start: real, pos: real, cut: real, target: real)
    requires CutUpTo(ws, gaps, start, pos, target) && target > 0.0 && WellCut(gaps, Interval(pos, cut), target)
    ensures CutUpTo(ws + [Interval(pos, cut)], gaps, start, cut, target)
  {
    hide IsBest, NoneWithin;
  }

  lemma WellCutFits(gaps: seq<Gap>, w: Interval, target: real)
    requires WellCut(gaps, w, target)
    ensures w.end - w.start <= target
  {
    hide IsBest, NoneWithin;
  }

  /** The cut windows and the tail. */
  lemma TailEndsCutting(ws: seq<Interval>, gaps: seq<Gap>, start: real, pos: real, end: real, target: real)
    requires CutUpTo(ws, gaps, start, pos, target) && start <= pos < end && end - pos <= target
    requires forall k :: 0 <= k < |ws| ==> end - ws[k].start > target
    ensures IsCutting(ws + [Interval(pos, end)], gaps, start, end, target)
  {
    hide WellCut;
    if ws != [] { assert ws[|ws| - 1].end == pos; }
  }

  /** The tail keeps its own window, or is folded into the one before when it is short
      and the merged window still fits. */
  lemma FoldIsPlan(cuts: seq<Interval>, gaps: seq<Gap>, start: real, end: real, target: real, hardMax: real)
    requires IsCutting(cuts, gaps, start, end, target) && target <= hardMax
    ensures IsPlan(Fold(cuts, hardMax), gaps, start, end, target, hardMax)
  {
    hide WellCut;
    forall k | 0 <= k < |cuts| - 1
      ensures cuts[k].end - cuts[k].start <= target
    {
      WellCutFits(gaps, cuts[k], target);
    }
  }

  /** Splits [start, end) into windows of at most the target, tail folding aside. */
  method PlanWindows(start: real, end: real, gaps: seq<Gap>, target0: real, hardMax: real) returns (windows: seq<Interval>, ghost cuts: seq<Interval>)
    requires target0 > 0.0 && hardMax > 0.0 && ByMid(gaps)
    ensures end <= start ==> windows == []
    ensures start < end ==> IsPlan(windows, gaps, start, end, Smaller(target0, hardMax), hardMax)
    ensures start < end ==> IsCutting(cuts, gaps, start, end, Smaller(target0, hardMax)) && windows == Fold(cuts, hardMax)
    ensures forall k :: 0 <= k < |windows| ==> windows[k].end - windows[k].start < target0 + 5.0
  {
    hide IsBest, NoneWithin, StepsLeft, ByMid, CutUpTo, IsPlan, IsCutting;
    var target := Smaller(target0, hardMax);
    cuts := [];
    if end <= start {
      return [], cuts;
    }
    windows := [];
    var pos := start;
    NothingCut(gaps, start, target);
    while end - pos > target
      invariant start <= pos < end
      invariant CutUpTo(windows, gaps, start, pos, target)
      invariant forall k :: 0 <= k < |windows| ==> end - windows[k].start > target
      decreases StepsLeft(pos, end, target * (1.0 - CUT_SEARCH_FRACTION))
    {
      var hi := pos + target;
      var best := Best(gaps, pos + target * (1.0 - CUT_SEARCH_FRACTION), hi);
      var cut := if best.Some? then best.value else hi;
      StepsRunOut(pos, cut, end, target * (1.0 - CUT_SEARCH_FRACTION));
      CutSnoc(windows, gaps, start, pos, cut, target);
      windows := windows + [Interval(pos, cut)];
      pos := cut;
    }
    TailEndsCutting(windows, gaps, start, pos, end, target);
    FoldIsPlan(windows + [Interval(pos, end)], gaps, start, end, target, hardMax);
    FoldedLengths(windows + [Interval(pos, end)], gaps, start, end, target, hardMax);
    windows := windows + [Interval(pos, end)];
    cuts := windows;
    if |windows| > 1 && end - pos < MIN_WINDOW_SEC && end - windows[|windows| - 2].start <= hardMax {
      windows := windows[..|windows| - 2] + [Interval(windows[|windows| - 2].start, end)];
    }
  }

  lemma NothingCut(gaps: seq<Gap>, start: real, target: real)
    ensures CutUpTo([], gaps, start, start, target)
  {
  }

  // ---- Cuts and words ------------------------------------------------------

  ghost predicate NoOverlap(words: seq<Interval>)
  {
    && (forall k :: 0 <= k < |words| ==> words[k].start <= words[k].end)
    && (forall k, l :: 0 <= k < l < |words| ==> words[k].end <= words[l].start)
  }

  lemma PauseSplitsNoWord(words: seq<Interval>, i: nat, k: nat)
    requires NoOverlap(words) && i + 1 < |words| && words[i].end < words[i + 1].start && k < |words|
    ensures var c := GapAfter(words, i).mid; !(words[k].start < c < words[k].end)
  {
    assert k < i ==> words[k].end <= words[i].start;
    assert k > i + 1 ==> words[i + 1].end <= words[k].start;
  }

  /** A cut at a pause splits no word, when the words do not overlap. */
  lemma CutSplitsNoWord(words: seq<Interval>, gaps: seq<Gap>, lo: real, hi: real, c: real, k: nat)
    requires NoOverlap(words) && GapsOf(gaps, words) && IsBest(gaps, lo, hi, c) && k < |words|
    ensures !(words[k].start < c < words[k].end)
  {
    hide NoOverlap, IsBestAt, GapAfter, GapsOf;
    var q :| 0 <= q < |gaps| && gaps[q].mid == c && IsBestAt(gaps, lo, hi, q);
    var i := PauseOf(words, gaps, q);
    PauseSplitsNoWord(words, i, k);
  }

  /** What a cut at a pause is: midway between two neighbouring words, and no pause whose
      midpoint is in the range is longer than theirs. */
  lemma CutIsInLargestPause(words: seq<Interval>, gaps: seq<Gap>, lo: real, hi: real, c: real) returns (i: nat)
    requires GapsOf(gaps, words) && IsBest(gaps, lo, hi, c)
    ensures i + 1 < |words| && words[i].end < c < words[i + 1].start && c - words[i].end == words[i + 1].start - c
    ensures forall q: nat :: q + 1 < |words| && words[q].end < words[q + 1].start && lo <= GapAfter(words, q).mid <= hi ==>
      && words[q + 1].start - words[q].end <= words[i + 1].start - words[i].end
      && (GapAfter(words, q).mid < c ==> words[q + 1].start - words[q].end < words[i + 1].start - words[i].end)
  {
    hide GapAfter, IsBestAt, GapsOf, ByMid;
    var k :| 0 <= k < |gaps| && gaps[k].mid == c && IsBestAt(gaps, lo, hi, k);
    BestIsLongest(gaps, lo, hi, k, gaps[k]);
    i := PauseOf(words, gaps, k);
    GapIs(words, i);
    forall q: nat | q + 1 < |words| && words[q].end < words[q + 1].start && lo <= GapAfter(words, q).mid <= hi
      ensures words[q + 1].start - words[q].end <= words[i + 1].start - words[i].end
      ensures GapAfter(words, q).mid < c ==> words[q + 1].start - words[q].end < words[i + 1].start - words[i].end
    {
      GapIs(words, q);
      PauseIsThere(words, gaps, q);
      InOrder(words, gaps);
      BestIsLongest(gaps, lo, hi, k, GapAfter(words, q));
    }
  }

  lemma PauseOf(words: seq<Interval>, gaps: seq<Gap>, k: nat) returns (i: nat)
    requires GapsOf(gaps, words) && k < |gaps|
    ensures i + 1 < |words| && words[i].end < words[i + 1].start && gaps[k] == GapAfter(words, i)
  {
    hide ByMid, GapAfter;
    assert IsPause(words, gaps[k]);
    i :| i + 1 < |words| && words[i].end < words[i + 1].start && gaps[k] == GapAfter(words, i);
  }

  lemma PauseIsThere(words: seq<Interval>, gaps: seq<Gap>, q: nat)
    requires GapsOf(gaps, words) && q + 1 < |words| && words[q].end < words[q + 1].start
    ensures GapAfter(words, q) in gaps
  {
  }

  lemma GapIs(words: seq<Interval>, i: nat)
    requires i + 1 < |words|
    ensures var g := GapAfter(words, i); 2.0 * g.mid == words[i].end + words[i + 1].start && g.len == words[i + 1].start - words[i].end
  {
  }

  lemma InOrder(words: seq<Interval>, gaps: seq<Gap>)
    requires GapsOf(gaps, words)
    ensures ByMid(gaps)
  {
  }

  lemma BestIsLongest(gaps: seq<Gap>, lo: real, hi: real, k: int, g: Gap)
    requires IsBestAt(gaps, lo, hi, k)
    ensures 0 <= k < |gaps| && lo <= gaps[k].mid <= hi
    ensures g in gaps && lo <= g.mid <= hi ==> g.len <= gaps[k].len
    ensures g in gaps && lo <= g.mid <= hi && ByMid(gaps) && g.mid < gaps[k].mid ==> g.len < gaps[k].len
  {
  }

  /** Where a window is cut: in the last quarter of the target, midway in a pause no longer
      one of which lies there, or, when no pause does, at the target itself. */
  lemma CutIsWellPlaced(words: seq<Interval>, gaps: seq<Gap>, w: Interval, target: real)
    requires GapsOf(gaps, words) && WellCut(gaps, w, target) && target > 0.0
    ensures 0.75 * target <= w.end - w.start <= target
    ensures CutsLongestPause(words, w, target) || (w.end - w.start == target && forall q: nat :: !PauseInLastQuarter(words, w.start, target, q))
  {
    hide IsBest, NoneWithin, GapsOf;
    var lo, hi := w.start + target * (1.0 - CUT_SEARCH_FRACTION), w.start + target;
    assert lo == w.start + 0.75 * target;
    if IsBest(gaps, lo, hi, w.end) {
      var i := CutIsInLargestPause(words, gaps, lo, hi, w.end);
      assert CutsPause(words, w, target, i);
    } else {
      forall q: nat
        ensures !PauseInLastQuarter(words, w.start, target, q)
      {
        NoPauseWithin(words, gaps, lo, hi, q);
      }
    }
  }

  /** The pause behind word q has its middle in the last quarter of the target. */
  ghost predicate PauseInLastQuarter(words: seq<Interval>, start: real, target: real, q: nat)
  {
    && q + 1 < |words| && words[q].end < words[q + 1].start
    && start + 0.75 * target <= (words[q].end + words[q + 1].start) / 2.0 <= start + target
  }

  ghost predicate CutsLongestPause(words: seq<Interval>, w: Interval, target: real) { exists i: nat :: CutsPause(words, w, target, i) }

  /** The window ends midway in the pause behind word i; no pause with its middle in the last
      quarter of the target is longer, and none before it as long. */
  ghost predicate CutsPause(words: seq<Interval>, w: Interval, target: real, i: nat)
  {
    && i + 1 < |words| && words[i].end < w.end < words[i + 1].start && w.end - words[i].end == words[i + 1].start - w.end
    && forall q: nat :: PauseInLastQuarter(words, w.start, target, q) ==>
         && words[q + 1].start - words[q].end <= words[i + 1].start - words[i].end
         && ((words[q].end + words[q + 1].start) / 2.0 < w.end ==> words[q + 1].start - words[q].end < words[i + 1].start - words[i].end)
  }

  lemma NoPauseWithin(words: seq<Interval>, gaps: seq<Gap>, lo: real, hi: real, q: nat)
    requires GapsOf(gaps, words) && NoneWithin(gaps, lo, hi)
    ensures q + 1 < |words| && words[q].end < words[q + 1].start ==> !(lo <= (words[q].end + words[q + 1].start) / 2.0 <= hi)
  {
    hide ByMid;
    if q + 1 < |words| && words[q].end < words[q + 1].start {
      var k :| 0 <= k < |gaps| && gaps[k] == GapAfter(words, q);
    }
  }

  // ---- Held findings -------------------------------------------------------

  /** x is the best pause of a range or, when it has none, the edge given. */
  ghost predicate EdgeAt(gaps: seq<Gap>, lo: real, hi: real, edge: real, x: real)
  {
    (Within(lo, hi, x) && IsBest(gaps, lo, hi, x)) || (NoneWithin(gaps, lo, hi) && x == edge)
  }

  /** A span padded, clamped to the track, and each edge snapped within its pad. */
  ghost predicate IsPadded(span: Interval, pad: real, duration: real, gaps: seq<Gap>, p: Interval)
  {
    var lo, hi := Larger(0.0, span.start - pad), Smaller(duration, span.end + pad);
    EdgeAt(gaps, lo, Smaller(span.start, hi), lo, p.start) && EdgeAt(gaps, Larger(span.end, lo), hi, hi, p.end)
  }

  /** Pads a span, clamps it to the track and snaps both edges to pauses. */
  method PadSpan(span: Interval, pad: real, duration: real, gaps: seq<Gap>) returns (p: Interval)
    requires pad >= 0.0 && ByMid(gaps)
    ensures IsPadded(span, pad, duration, gaps, p)
    ensures 0.0 <= p.start && p.end <= duration
    ensures span.start - pad <= p.start && p.end <= span.end + pad
    ensures p.start <= Larger(0.0, span.start) || p.end <= p.start
    ensures p.end >= Smaller(span.end, duration) || p.end <= p.start
    ensures Larger(0.0, span.start) < Smaller(span.end, duration) ==>
      p.start <= Larger(0.0, span.start) && Smaller(span.end, duration) <= p.end
  {
    var lo, hi := Larger(0.0, span.start - pad), Smaller(duration, span.end + pad);
    var snapLo := Best(gaps, lo, Smaller(span.start, hi));
    var snapHi := Best(gaps, Larger(span.end, lo), hi);
    p := Interval(if snapLo.Some? then snapLo.value else lo, if snapHi.Some? then snapHi.value else hi);
  }

  /** The part of a span inside the track. */
  function Clamped(span: Interval, duration: real): Interval
  {
    Interval(Larger(0.0, span.start), Smaller(span.end, duration))
  }

  ghost predicate CoversAll(ivs: seq<Interval>, x: Interval)
  {
    exists k :: 0 <= k < |ivs| && ivs[k].start <= x.start && x.end <= ivs[k].end
  }

  ghost predicate Inside(ivs: seq<Interval>, duration: real)
  {
    forall k :: 0 <= k < |ivs| ==> 0.0 <= ivs[k].start < ivs[k].end <= duration
  }

  lemma MergeOneCoversAll(out: seq<Interval>, x: Interval, y: Interval)
    requires |out| > 0 && out[|out| - 1].start <= x.start
    requires CoversAll(out, y) || (x.start <= y.start && y.end <= x.end)
    ensures CoversAll(MergeOne(out, x), y)
  {
    var r := MergeOne(out, x);
    if CoversAll(out, y) {
      var k :| 0 <= k < |out| && out[k].start <= y.start && y.end <= out[k].end;
      assert r[k].start <= y.start && y.end <= r[k].end;
    } else {
      assert r[|r| - 1].start <= y.start && y.end <= r[|r| - 1].end;
    }
  }

  /** The nonempty ones of the first n pieces are covered. */
  ghost predicate CoversFirst(merged: seq<Interval>, padded: seq<Interval>, n: nat)
  {
    forall k :: 0 <= k < n && k < |padded| && padded[k].start < padded[k].end ==> CoversAll(merged, padded[k])
  }

  /** t lies in a piece of positive length. */
  ghost predicate InPieces(pieces: seq<Interval>, t: real)
  {
    exists x :: x in pieces && x.start < x.end && x.Has(t)
  }

  /** The merged stretches cover just the pieces. */
  ghost predicate CoversJust(merged: seq<Interval>, pieces: seq<Interval>)
  {
    forall t :: Covers(merged, t) <==> InPieces(pieces, t)
  }

  lemma MergeNextCovers(merged: seq<Interval>, pieces: seq<Interval>, x: Interval)
    requires CoversJust(merged, pieces) && (merged != [] ==> merged[|merged| - 1].start <= x.start)
    ensures x.start < x.end ==> CoversJust(if merged == [] then [x] else MergeOne(merged, x), pieces + [x])
    ensures x.end <= x.start ==> CoversJust(merged, pieces + [x])
  {
    hide Covers, MergeOne;
    forall t
      ensures InPieces(pieces + [x], t) <==> InPieces(pieces, t) || (x.start < x.end && x.Has(t))
      ensures x.start < x.end ==> (Covers(if merged == [] then [x] else MergeOne(merged, x), t) <==> Covers(merged, t) || x.Has(t))
    {
      assert InPieces(pieces, t) ==> InPieces(pieces + [x], t) by { PieceStays(pieces, x, t); }
      assert x in pieces + [x];
      if merged == [] { CoversOne(x, t); } else { MergeOneKeepsCoverage(merged, x, t); }
    }
  }

  lemma PieceStays(pieces: seq<Interval>, x: Interval, t: real)
    ensures InPieces(pieces, t) ==> InPieces(pieces + [x], t)
  {
    assert forall y :: y in pieces ==> y in pieces + [x];
  }

  lemma CoversOne(x: Interval, t: real)
    ensures Covers([x], t) <==> x.Has(t)
    ensures !Covers([], t)
  {
    assert [] + [x] == [x];
    CoversSnoc([], x, t);
  }

  lemma SamePieces(a: seq<Interval>, b: seq<Interval>, merged: seq<Interval>)
    requires CoversJust(merged, a) && forall x :: x in a <==> x in b
    ensures CoversJust(merged, b)
  {
    assert forall t :: InPieces(a, t) <==> InPieces(b, t);
  }

  lemma MergeNext(merged: seq<Interval>, padded: seq<Interval>, n: nat, duration: real)
    requires n < |padded| && padded[n].start < padded[n].end && CoversFirst(merged, padded, n)
    requires 0.0 <= padded[n].start && padded[n].end <= duration
    requires Separated(merged) && Inside(merged, duration)
    requires merged != [] ==> merged[|merged| - 1].start <= padded[n].start
    ensures var r := if merged == [] then [padded[n]] else MergeOne(merged, padded[n]);
            Separated(r) && Inside(r, duration) && r[|r| - 1].start <= padded[n].start && CoversFirst(r, padded, n + 1)
  {
    hide Separated, Inside, CoversAll, MergeOne;
    var x := padded[n];
    if merged == [] {
      OneInterval(x);
      assert Inside([x], duration) by { OneInside(x, duration); }
    } else {
      MergeOneStaysSeparated(merged, x);
      MergeOneInside(merged, x, duration);
    }
    var r := if merged == [] then [x] else MergeOne(merged, x);
    forall k | 0 <= k <= n && padded[k].start < padded[k].end
      ensures CoversAll(r, padded[k])
    {
      if merged == [] { NothingCovered(); CoversItself(x); } else { MergeOneCoversAll(merged, x, padded[k]); }
    }
  }

  lemma OneInside(x: Interval, duration: real)
    requires 0.0 <= x.start < x.end <= duration
    ensures Inside([x], duration)
  {
  }

  lemma CoversItself(x: Interval)
    ensures CoversAll([x], x)
  {
    assert [x][0] == x;
  }

  lemma NothingCovered()
    ensures forall x :: !CoversAll([], x)
  {
  }

  /** Merging in order of start, empty pieces dropped. */
  method MergePadded(padded: seq<Interval>, duration: real) returns (merged: seq<Interval>)
    requires SortedByStart(padded)
    requires forall k :: 0 <= k < |padded| ==> 0.0 <= padded[k].start && padded[k].end <= duration
    ensures Separated(merged) && Inside(merged, duration)
    ensures CoversFirst(merged, padded, |padded|) && CoversJust(merged, padded)
  {
    hide Separated, Inside, CoversAll, CoversJust;
    merged := [];
    NothingMerged(duration);
    for n := 0 to |padded|
      invariant Separated(merged) && Inside(merged, duration)
      invariant merged != [] ==> n > 0 && merged[|merged| - 1].start <= padded[n - 1].start
      invariant CoversFirst(merged, padded, n) && CoversJust(merged, padded[..n])
    {
      var x := padded[n];
      assert padded[..n + 1] == padded[..n] + [x];
      MergeNextCovers(merged, padded[..n], x);
      if x.end <= x.start { continue; }
      MergeNext(merged, padded, n, duration);
      ghost var next := if merged == [] then [x] else MergeOne(merged, x);
      if |merged| > 0 && x.start <= merged[|merged| - 1].end {
        var last := merged[|merged| - 1];
        merged := merged[|merged| - 1 := Interval(last.start, Larger(last.end, x.end))];
      } else {
        merged := merged + [x];
      }
      assert merged == next;
    }
    assert padded[..|padded|] == padded;
  }

  lemma NothingMerged(duration: real)
    ensures Separated([]) && Inside([], duration) && CoversJust([], [])
  {
  }

  lemma MergeOneInside(out: seq<Interval>, x: Interval, duration: real)
    requires |out| > 0 && Inside(out, duration) && 0.0 <= x.start < x.end <= duration
    ensures Inside(MergeOne(out, x), duration)
  {
  }

  /** The spans that end no earlier than they start. */
  function Upright(spans: seq<Interval>): (r: seq<Interval>)
    ensures forall x :: x in r <==> x in spans && x.start <= x.end
  {
    if spans == [] then []
    else
      var last := spans[|spans| - 1];
      assert spans == spans[..|spans| - 1] + [last];
      Upright(spans[..|spans| - 1]) + if last.end < last.start then [] else [last]
  }

  /** One piece for each upright span, padded and snapped. */
  ghost predicate AllPadded(spans: seq<Interval>, pad: real, duration: real, gaps: seq<Gap>, padded: seq<Interval>)
  {
    |padded| == |spans| && forall k :: 0 <= k < |spans| ==> IsPadded(spans[k], pad, duration, gaps, padded[k])
  }

  /** t is within the pad of a span that does not end before it starts. */
  ghost predicate Near(spans: seq<Interval>, pad: real, t: real)
  {
    exists k :: 0 <= k < |spans| && spans[k].start <= spans[k].end && spans[k].start - pad <= t <= spans[k].end + pad
  }

  lemma PaddedIsNear(spans: seq<Interval>, pad: real, duration: real, gaps: seq<Gap>, padded: seq<Interval>, t: real)
    requires AllPadded(Upright(spans), pad, duration, gaps, padded) && InPieces(padded, t)
    ensures Near(spans, pad, t)
  {
    hide IsBest, NoneWithin;
    var x :| x in padded && x.start < x.end && x.Has(t);
    var k :| 0 <= k < |padded| && padded[k] == x;
    var span := Upright(spans)[k];
    assert IsPadded(span, pad, duration, gaps, x) && span in Upright(spans);
    var q :| 0 <= q < |spans| && spans[q] == span;
  }

  lemma UprightNext(spans: seq<Interval>, n: nat)
    requires n < |spans|
    ensures Upright(spans[..n + 1]) == if spans[n].end < spans[n].start then Upright(spans[..n]) else Upright(spans[..n]) + [spans[n]]
  {
    assert spans[..n + 1][..n] == spans[..n];
  }

  /** The merged stretches are ordered, apart, inside the track, and cover just the padded
      and snapped spans; so they cover the part of every held span inside the track, when
      that part has positive length. */
  method MergeSpans(spans: seq<Interval>, pad: real, duration: real, gaps: seq<Gap>) returns (merged: seq<Interval>, ghost padded: seq<Interval>)
    requires pad >= 0.0 && ByMid(gaps)
    ensures Separated(merged) && Inside(merged, duration)
    ensures AllPadded(Upright(spans), pad, duration, gaps, padded) && CoversJust(merged, padded)
    ensures forall k :: 0 <= k < |spans| && Clamped(spans[k], duration).start < Clamped(spans[k], duration).end ==>
      CoversAll(merged, Clamped(spans[k], duration))
    ensures forall t :: Covers(merged, t) ==> Near(spans, pad, t)
  {
    hide IsPadded, CoversJust, AllPadded, Upright, CoversAll, Separated, Inside, Covers, Near;
    var pieces := PadAll(spans, pad, duration, gaps);
    padded := pieces;
    var ordered := SortByStart(pieces);
    SameElements(ordered, pieces);
    SameElements(pieces, ordered);
    assert forall k :: 0 <= k < |ordered| ==> ordered[k] in pieces;
    merged := MergePadded(ordered, duration);
    SamePieces(ordered, pieces, merged);
    forall k | 0 <= k < |spans| && Clamped(spans[k], duration).start < Clamped(spans[k], duration).end
      ensures CoversAll(merged, Clamped(spans[k], duration))
    {
      CoverThroughMerge(pieces, ordered, merged, Clamped(spans[k], duration));
    }
    forall t | Covers(merged, t)
      ensures Near(spans, pad, t)
    {
      InSomePiece(merged, pieces, t);
      PaddedIsNear(spans, pad, duration, gaps, pieces, t);
    }
  }

  lemma InSomePiece(merged: seq<Interval>, pieces: seq<Interval>, t: real)
    requires CoversJust(merged, pieces) && Covers(merged, t)
    ensures InPieces(pieces, t)
  {
  }

  method PadAll(spans: seq<Interval>, pad: real, duration: real, gaps: seq<Gap>) returns (pieces: seq<Interval>)
    requires pad >= 0.0 && ByMid(gaps)
    ensures forall k :: 0 <= k < |pieces| ==> 0.0 <= pieces[k].start && pieces[k].end <= duration
    ensures forall k :: 0 <= k < |spans| && Clamped(spans[k], duration).start < Clamped(spans[k], duration).end ==>
      CoversAll(pieces, Clamped(spans[k], duration))
    ensures AllPadded(Upright(spans), pad, duration, gaps, pieces)
  {
    hide IsPadded, AllPadded, Upright, IsBest;
    pieces := [];
    NothingPadded(pad, duration, gaps);
    assert spans[..0] == [];
    for n := 0 to |spans|
      invariant forall k :: 0 <= k < |pieces| ==> 0.0 <= pieces[k].start && pieces[k].end <= duration
      invariant forall k :: 0 <= k < n && Clamped(spans[k], duration).start < Clamped(spans[k], duration).end ==>
        CoversAll(pieces, Clamped(spans[k], duration))
      invariant AllPadded(Upright(spans[..n]), pad, duration, gaps, pieces)
    {
      UprightNext(spans, n);
      if spans[n].end < spans[n].start { continue; }
      var p := PadSpan(spans[n], pad, duration, gaps);
      OnePaddedMore(Upright(spans[..n]), pad, duration, gaps, pieces, spans[n], p);
      pieces := CoversMore(pieces, p, spans[..n], duration);
      assert pieces[|pieces| - 1] == p;
    }
    assert spans[..|spans|] == spans;
  }

  lemma NothingPadded(pad: real, duration: real, gaps: seq<Gap>)
    ensures AllPadded(Upright([]), pad, duration, gaps, [])
  {
  }

  lemma OnePaddedMore(spans: seq<Interval>, pad: real, duration: real, gaps: seq<Gap>, pieces: seq<Interval>, span: Interval, p: Interval)
    requires AllPadded(spans, pad, duration, gaps, pieces) && IsPadded(span, pad, duration, gaps, p)
    ensures AllPadded(spans + [span], pad, duration, gaps, pieces + [p])
  {
    hide IsPadded;
  }

  /** Appends p; what was covered stays covered. */
  function CoversMore(padded: seq<Interval>, p: Interval, ghost spans: seq<Interval>, ghost duration: real): (r: seq<Interval>)
    ensures r == padded + [p]
    ensures forall x :: CoversAll(padded, x) ==> CoversAll(r, x)
  {
    assert forall k :: 0 <= k < |padded| ==> (padded + [p])[k] == padded[k];
    padded + [p]
  }

  lemma CoverThroughMerge(padded: seq<Interval>, ordered: seq<Interval>, merged: seq<Interval>, x: Interval)
    requires CoversAll(padded, x) && x.start < x.end
    requires forall y :: y in padded ==> y in ordered
    requires CoversFirst(merged, ordered, |ordered|)
    ensures CoversAll(merged, x)
  {
    var k :| 0 <= k < |padded| && padded[k].start <= x.start && x.end <= padded[k].end;
    assert padded[k] in ordered;
    var q :| 0 <= q < |ordered| && ordered[q] == padded[k];
    assert CoversAll(merged, ordered[q]);
    var m :| 0 <= m < |merged| && merged[m].start <= ordered[q].start && ordered[q].end <= merged[m].end;
  }

  // ---- The plan of a track -------------------------------------------------

  /** Windows in order that never overlap, inside the track. */
  ghost predicate OrderedWindows(ws: seq<Interval>, duration: real)
  {
    && (forall k :: 0 <= k < |ws| ==> 0.0 <= ws[k].start < ws[k].end <= duration)
    && (forall k, l :: 0 <= k < l < |ws| ==> ws[k].end <= ws[l].start)
  }

  /** Every time of [x.start, x.end) is in a window. */
  ghost predicate WindowsCover(ws: seq<Interval>, x: Interval)
  {
    forall t :: x.start <= t < x.end ==> CoversTime(ws, t)
  }

  ghost predicate CoversTime(ws: seq<Interval>, t: real)
  {
    exists k :: 0 <= k < |ws| && ws[k].start <= t < ws[k].end
  }

  lemma TilingWithoutLast(ws: seq<Interval>, start: real, end: real)
    requires Tiling(ws, start, end)
    ensures ws != []
    ensures var last, init := ws[|ws| - 1], ws[..|ws| - 1];
            && last.start < last.end == end
            && (init == [] ==> last.start == start) && (init != [] ==> Tiling(init, start, last.start))
  {
  }

  lemma {:induction false} TilingIsOrdered(ws: seq<Interval>, start: real, end: real)
    requires Tiling(ws, start, end)
    ensures start < end && forall k :: 0 <= k < |ws| ==> start <= ws[k].start < ws[k].end <= end
    ensures forall k, l :: 0 <= k < l < |ws| ==> ws[k].end <= ws[l].start
    ensures WindowsCover(ws, Interval(start, end))
  {
    hide Tiling, WindowsCover;
    TilingWithoutLast(ws, start, end);
    var last, init := ws[|ws| - 1], ws[..|ws| - 1];
    assert ws == init + [last];
    if init != [] { TilingIsOrdered(init, start, last.start); }
    OneWindowMore(init, last, start, end);
  }

  lemma OneWindowMore(init: seq<Interval>, last: Interval, start: real, end: real)
    requires last.end == end && (init == [] ==> last.start == start)
    requires init != [] ==> WindowsCover(init, Interval(start, last.start))
    ensures WindowsCover(init + [last], Interval(start, end))
  {
    hide CoversTime;
    forall t | start <= t < end
      ensures CoversTime(init + [last], t)
    {
      if t < last.start { CoversTimeStays(init, last, t); } else { LastCoversTime(init, last, t); }
    }
  }

  lemma CoversTimeStays(init: seq<Interval>, last: Interval, t: real)
    requires CoversTime(init, t)
    ensures CoversTime(init + [last], t)
  {
    var k :| 0 <= k < |init| && init[k].start <= t < init[k].end;
    assert (init + [last])[k] == init[k];
  }

  lemma LastCoversTime(init: seq<Interval>, last: Interval, t: real)
    requires last.start <= t < last.end
    ensures CoversTime(init + [last], t)
  {
    assert (init + [last])[|init|] == last;
  }

  lemma CoverGrows(ws: seq<Interval>, more: seq<Interval>, x: Interval)
    requires WindowsCover(ws, x) || WindowsCover(more, x)
    ensures WindowsCover(ws + more, x)
  {
    forall t | x.start <= t < x.end
      ensures CoversTime(ws + more, t)
    {
      if WindowsCover(ws, x) {
        assert CoversTime(ws, t);
        var k :| 0 <= k < |ws| && ws[k].start <= t < ws[k].end;
        assert (ws + more)[k] == ws[k];
      } else {
        assert CoversTime(more, t);
        var k :| 0 <= k < |more| && more[k].start <= t < more[k].end;
        assert (ws + more)[|ws| + k] == more[k];
      }
    }
  }

  ghost predicate AtMost(ws: seq<Interval>, hardMax: real)
  {
    forall k :: 0 <= k < |ws| ==> ws[k].end - ws[k].start <= hardMax
  }

  /** Windows before bound, then the plan of a later stretch. */
  lemma AppendStretch(plan: seq<Interval>, ws: seq<Interval>, x: Interval, bound: real, duration: real)
    requires OrderedWindows(plan, duration) && (forall k :: 0 <= k < |plan| ==> plan[k].end <= bound)
    requires bound <= x.start && 0.0 <= x.start && x.end <= duration && Tiling(ws, x.start, x.end)
    ensures OrderedWindows(plan + ws, duration)
    ensures forall k :: 0 <= k < |plan + ws| ==> (plan + ws)[k].end <= x.end
    ensures WindowsCover(plan + ws, x)
  {
    hide Tiling, WindowsCover;
    TilingIsOrdered(ws, x.start, x.end);
    CoverGrows(plan, ws, Interval(x.start, x.end));
    assert x == Interval(x.start, x.end);
    assert ws != [] by { TilingNonempty(ws, x.start, x.end); }
    assert ws[0].start < x.end;
  }

  lemma TilingNonempty(ws: seq<Interval>, start: real, end: real)
    requires Tiling(ws, start, end)
    ensures ws != []
  {
  }

  datatype Scope = Full | Findings

  /** plan_track. A full plan tiles the track. A findings plan is ordered, disjoint and
      inside the track, and covers the part of every held span that lies inside it,
      when that part has positive length. */
  method PlanTrack(duration: real, words: seq<Interval>, target: real, hardMax: real, scope: Scope, findings: seq<Interval>)
    returns (plan: seq<Interval>, ghost gaps: seq<Gap>, ghost stretches: seq<Interval>, ghost padded: seq<Interval>, ghost parts: seq<seq<Interval>>)
    requires target > 0.0 && hardMax > 0.0
    ensures GapsOf(gaps, words) && AtMost(plan, hardMax)
    ensures scope.Full? && duration > 0.0 ==> IsPlan(plan, gaps, 0.0, duration, Smaller(target, hardMax), hardMax)
    ensures scope.Full? && duration <= 0.0 ==> plan == []
    ensures scope.Findings? ==> OrderedWindows(plan, duration)
    ensures scope.Findings? ==> AllPadded(Upright(findings), FINDING_PAD_SEC, duration, gaps, padded) && CoversJust(stretches, padded)
    ensures scope.Findings? ==> plan == Flat(parts) && Separated(stretches) && PlansOf(parts, stretches, gaps, Smaller(target, hardMax), hardMax)
    ensures scope.Findings? ==>
      forall k :: 0 <= k < |findings| && Clamped(findings[k], duration).start < Clamped(findings[k], duration).end ==>
        WindowsCover(plan, Clamped(findings[k], duration))
    ensures scope.Findings? ==> forall k, t :: 0 <= k < |plan| && plan[k].Has(t) ==> Near(findings, 5.0, t)
  {
    hide Tiling, WellCut, WindowsCover, OrderedWindows, Separated, CoversAll, IsCutting, Fold, Flat, PlansOf, CoversJust, AllPadded, Upright, Near, Covers;
    var gs := MakeGaps(words);
    gaps, stretches, padded, parts := gs, [], [], [];
    ghost var cuts;
    if scope.Full? {
      plan, cuts := PlanWindows(0.0, duration, gs, target, hardMax);
      return;
    }
    var merged;
    merged, padded := MergeSpans(findings, FINDING_PAD_SEC, duration, gs);
    plan := [];
    NoWindows(duration);
    NoPlans(gaps, Smaller(target, hardMax), hardMax);
    stretches := merged;
    assert merged[..0] == [];
    for n := 0 to |merged|
      invariant OrderedWindows(plan, duration) && AtMost(plan, hardMax)
      invariant forall k :: 0 <= k < |plan| ==> n > 0 && plan[k].end <= merged[n - 1].end
      invariant forall q :: 0 <= q < n ==> WindowsCover(plan, merged[q])
      invariant plan == Flat(parts) && PlansOf(parts, merged[..n], gaps, Smaller(target, hardMax), hardMax)
      invariant forall k :: 0 <= k < |plan| ==> CoversAll(merged, plan[k])
    {
      var ws;
      ws, cuts := PlanWindows(merged[n].start, merged[n].end, gs, target, hardMax);
      var bound := if n > 0 then merged[n - 1].end else 0.0;
      if n > 0 { StretchesApart(merged, n); }
      AppendStretch(plan, ws, merged[n], bound, duration);
      WindowsWithinStretch(ws, merged, n);
      forall q | 0 <= q < n
        ensures WindowsCover(plan + ws, merged[q])
      {
        CoverGrows(plan, ws, merged[q]);
      }
      OnePlanMore(parts, merged, n, ws, gaps, Smaller(target, hardMax), hardMax);
      plan, parts := plan + ws, parts + [ws];
    }
    assert merged[..|merged|] == merged;
    forall k | 0 <= k < |findings| && Clamped(findings[k], duration).start < Clamped(findings[k], duration).end
      ensures WindowsCover(plan, Clamped(findings[k], duration))
    {
      StretchCovers(plan, merged, Clamped(findings[k], duration));
    }
    forall k, t | 0 <= k < |plan| && plan[k].Has(t)
      ensures Near(findings, 5.0, t)
    {
      TimeInStretch(merged, plan[k], t);
    }
  }

  lemma WindowsWithinStretch(ws: seq<Interval>, merged: seq<Interval>, n: nat)
    requires n < |merged| && Tiling(ws, merged[n].start, merged[n].end)
    ensures forall k :: 0 <= k < |ws| ==> CoversAll(merged, ws[k])
  {
    TilingIsOrdered(ws, merged[n].start, merged[n].end);
  }

  lemma TimeInStretch(merged: seq<Interval>, w: Interval, t: real)
    requires CoversAll(merged, w) && w.Has(t)
    ensures Covers(merged, t)
  {
    var k :| 0 <= k < |merged| && merged[k].start <= w.start && w.end <= merged[k].end;
    assert merged[k].Has(t);
  }

  /** Each stretch has its own plan. */
  ghost predicate PlansOf(parts: seq<seq<Interval>>, stretches: seq<Interval>, gaps: seq<Gap>, target: real, hardMax: real)
  {
    |parts| == |stretches| && forall n :: 0 <= n < |parts| ==> IsPlan(parts[n], gaps, stretches[n].start, stretches[n].end, target, hardMax)
  }

  lemma NoPlans(gaps: seq<Gap>, target: real, hardMax: real)
    ensures PlansOf([], [], gaps, target, hardMax) && Flat([]) == []
  {
  }

  lemma OnePlanMore(parts: seq<seq<Interval>>, merged: seq<Interval>, n: nat, ws: seq<Interval>, gaps: seq<Gap>, target: real, hardMax: real)
    requires n < |merged| && PlansOf(parts, merged[..n], gaps, target, hardMax)
    requires IsPlan(ws, gaps, merged[n].start, merged[n].end, target, hardMax)
    ensures PlansOf(parts + [ws], merged[..n + 1], gaps, target, hardMax) && Flat(parts + [ws]) == Flat(parts) + ws
  {
    hide IsPlan;
    assert (parts + [ws])[..|parts|] == parts;
  }

  lemma NoWindows(duration: real)
    ensures OrderedWindows([], duration)
  {
  }

  lemma StretchesApart(merged: seq<Interval>, n: nat)
    requires Separated(merged) && 0 < n < |merged|
    ensures merged[n - 1].end < merged[n].start
  {
  }

  lemma StretchCovers(plan: seq<Interval>, merged: seq<Interval>, x: Interval)
    requires CoversAll(merged, x) && forall q :: 0 <= q < |merged| ==> WindowsCover(plan, merged[q])
    ensures WindowsCover(plan, x)
  {
    var k :| 0 <= k < |merged| && merged[k].start <= x.start && x.end <= merged[k].end;
    assert WindowsCover(plan, merged[k]);
  }

  // ---- Decode groups -------------------------------------------------------

  function Flat(groups: seq<seq<Interval>>): seq<Interval>
  {
    if groups == [] then [] else Flat(groups[..|groups| - 1]) + groups[|groups| - 1]
  }

  /** Windows decoded together: one, or adjacent ones that fit in maxSec. */
  ghost predicate IsGroup(g: seq<Interval>, maxSec: real)
  {
    && g != []
    && (|g| > 1 ==> g[|g| - 1].end - g[0].start <= maxSec)
    && (forall k :: 0 <= k < |g| - 1 ==> -0.000000001 < g[k].end - g[k + 1].start < 0.000000001)
  }

  /** w is adjacent to the group and still fits. */
  predicate Joins(g: seq<Interval>, w: Interval, maxSec: real)
  {
    g != [] && -0.000000001 < g[|g| - 1].end - w.start < 0.000000001 && w.end - g[0].start <= maxSec
  }

  /** The greedy groups. */
  function GroupsOf(plan: seq<Interval>, maxSec: real): seq<seq<Interval>>
  {
    if plan == [] then []
    else
      var groups, w := GroupsOf(plan[..|plan| - 1], maxSec), plan[|plan| - 1];
      if groups != [] && Joins(groups[|groups| - 1], w, maxSec) then groups[|groups| - 1 := groups[|groups| - 1] + [w]]
      else groups + [[w]]
  }

  ghost predicate AllFit(groups: seq<seq<Interval>>, maxSec: real)
  {
    forall k :: 0 <= k < |groups| ==> IsGroup(groups[k], maxSec)
  }

  /** No group could have taken the first window of the next. */
  ghost predicate Greedy(groups: seq<seq<Interval>>, maxSec: real)
  {
    forall k :: 0 < k < |groups| ==> groups[k] != [] && StandsApart(groups[k - 1], groups[k][0], maxSec)
  }

  /** w starts away from the end of the group, or ends too late for it. */
  ghost predicate StandsApart(g: seq<Interval>, w: Interval, maxSec: real)
  {
    g == []
    || var distance := w.start - g[|g| - 1].end;
       distance >= 0.000000001 || distance <= -0.000000001 || w.end - g[0].start > maxSec
  }

  lemma ApartMeans(g: seq<Interval>, w: Interval, maxSec: real)
    ensures StandsApart(g, w, maxSec) <==> !Joins(g, w, maxSec)
  {
  }

  lemma JoinFits(g: seq<Interval>, w: Interval, maxSec: real)
    requires IsGroup(g, maxSec) && Joins(g, w, maxSec)
    ensures IsGroup(g + [w], maxSec)
  {
  }

  lemma ExtendLast(groups: seq<seq<Interval>>, w: Interval, maxSec: real)
    requires AllFit(groups, maxSec) && Greedy(groups, maxSec) && groups != [] && Joins(groups[|groups| - 1], w, maxSec)
    ensures var r := groups[|groups| - 1 := groups[|groups| - 1] + [w]]; AllFit(r, maxSec) && Greedy(r, maxSec)
  {
    hide IsGroup;
    JoinFits(groups[|groups| - 1], w, maxSec);
    var r := groups[|groups| - 1 := groups[|groups| - 1] + [w]];
    forall k | 0 < k < |r|
      ensures r[k] != [] && StandsApart(r[k - 1], r[k][0], maxSec)
    {
      assert groups[k] != [] && r[k][0] == groups[k][0] && r[k - 1] == groups[k - 1];
    }
  }

  lemma OneFits(w: Interval, maxSec: real)
    ensures IsGroup([w], maxSec)
  {
  }

  lemma AppendGroup(groups: seq<seq<Interval>>, w: Interval, maxSec: real)
    requires AllFit(groups, maxSec) && Greedy(groups, maxSec) && (groups != [] ==> !Joins(groups[|groups| - 1], w, maxSec))
    ensures AllFit(groups + [[w]], maxSec) && Greedy(groups + [[w]], maxSec)
  {
    hide IsGroup, Joins, StandsApart;
    OneFits(w, maxSec);
    var r := groups + [[w]];
    if groups != [] { ApartMeans(groups[|groups| - 1], w, maxSec); }
    forall k | 0 < k < |r|
      ensures r[k] != [] && StandsApart(r[k - 1], r[k][0], maxSec)
    {
      if k < |groups| { assert groups[k] != [] && r[k] == groups[k] && r[k - 1] == groups[k - 1]; }
    }
  }

  lemma FlatAppend(groups: seq<seq<Interval>>, w: Interval)
    ensures Flat(groups + [[w]]) == Flat(groups) + [w]
  {
    assert (groups + [[w]])[..|groups|] == groups;
  }

  /** Grouping keeps every window, in plan order; every group fits; and none could have
      taken the first window of the next. */
  lemma {:induction false} GroupsKeepPlan(plan: seq<Interval>, maxSec: real)
    ensures var groups := GroupsOf(plan, maxSec); Flat(groups) == plan && AllFit(groups, maxSec) && Greedy(groups, maxSec)
  {
    hide AllFit, Greedy, Joins, Flat;
    if plan == [] {
      NothingGrouped(maxSec);
    } else {
      var init, w := plan[..|plan| - 1], plan[|plan| - 1];
      GroupsKeepPlan(init, maxSec);
      var groups := GroupsOf(init, maxSec);
      assert plan == init + [w];
      if groups != [] && Joins(groups[|groups| - 1], w, maxSec) {
        FlatExtend(groups, w);
        ExtendLast(groups, w, maxSec);
      } else {
        FlatAppend(groups, w);
        AppendGroup(groups, w, maxSec);
      }
    }
  }

  lemma NothingGrouped(maxSec: real)
    ensures AllFit([], maxSec) && Greedy([], maxSec) && Flat([]) == []
  {
  }

  method GroupWindows(plan: seq<Interval>, maxSec: real) returns (groups: seq<seq<Interval>>)
    ensures groups == GroupsOf(plan, maxSec) && Flat(groups) == plan
    ensures AllFit(groups, maxSec) && Greedy(groups, maxSec)
  {
    hide Flat, IsGroup;
    groups := [];
    for n := 0 to |plan|
      invariant groups == GroupsOf(plan[..n], maxSec)
    {
      assert plan[..n + 1][..n] == plan[..n];
      GroupsKeepPlan(plan[..n], maxSec);
      var w := plan[n];
      if |groups| > 0 && Joins(groups[|groups| - 1], w, maxSec) {
        groups := groups[|groups| - 1 := groups[|groups| - 1] + [w]];
      } else {
        groups := groups + [[w]];
      }
    }
    assert plan[..|plan|] == plan;
    GroupsKeepPlan(plan, maxSec);
  }

  lemma FlatExtend(groups: seq<seq<Interval>>, w: Interval)
    requires groups != []
    ensures Flat(groups[|groups| - 1 := groups[|groups| - 1] + [w]]) == Flat(groups) + [w]
  {
    var g := groups[|groups| - 1 := groups[|groups| - 1] + [w]];
    assert g[..|g| - 1] == groups[..|groups| - 1];
  }
}
