/** Align: the columns of an alignment built around the matches of the diff. */
module Align {
  import opened Optional
  import opened EditDistance
  import opened EditGraph
  import MyersDiff

  const MAX_ALIGN_TOKENS := 5000
  const MAX_ALIGN_EDITS := 1500

  // ---- Unmatched runs ------------------------------------------------------

  function Substitutions(i: nat, j: nat, n: nat): (s: seq<Pair>)
    ensures |s| == n
  {
    seq(n, t requires 0 <= t => Pair(i + t, j + t))
  }

  function GapsInB(i: nat, n: nat): (s: seq<Pair>)
    ensures |s| == n
  {
    seq(n, t requires 0 <= t => Pair(i + t, -1))
  }

  function GapsInA(j: nat, n: nat): (s: seq<Pair>)
    ensures |s| == n
  {
    seq(n, t requires 0 <= t => Pair(-1, j + t))
  }

  /** The columns of the unmatched run a[i..i1], b[j..j1]: position by position,
      the longer side's remainder against gaps. The remainder comes last, except
      in the leading run, which is aligned to the right. */
  function RunColumns(i: nat, j: nat, i1: nat, j1: nat): seq<Pair>
    requires i <= i1 && j <= j1
  {
    var p, q := i1 - i, j1 - j;
    var both: nat := Min(p, q);
    if i == 0 && j == 0 then
      (if p > q then GapsInB(0, p - q) else GapsInA(0, q - p)) + Substitutions(p - both, q - both, both)
    else
      Substitutions(i, j, both) + (if p > q then GapsInB(i + both, p - both) else GapsInA(j + both, q - both))
  }

  ghost predicate NoneEqual<T>(a: seq<T>, b: seq<T>, i: int, j: int, i1: int, j1: int)
  {
    forall p, q :: i <= p < i1 && j <= q < j1 && 0 <= p < |a| && 0 <= q < |b| ==> a[p] != b[q]
  }

  lemma {:induction false} AppendSubstitutions<T>(cols: seq<Pair>, a: seq<T>, b: seq<T>, i: nat, j: nat, n: nat)
    requires Tiles(cols, i, j) && NoneEqual(a, b, i, j, i + n, j + n)
    ensures Tiles(cols + Substitutions(i, j, n), i + n, j + n)
    ensures AgreedColumns(cols + Substitutions(i, j, n), a, b) == AgreedColumns(cols, a, b)
  {
    hide Tiles, AgreedColumns;
    if n == 0 {
      assert cols + Substitutions(i, j, 0) == cols;
    } else {
      AppendSubstitutions(cols, a, b, i, j, n - 1);
      var init, c := cols + Substitutions(i, j, n - 1), Pair(i + n - 1, j + n - 1);
      assert cols + Substitutions(i, j, n) == init + [c];
      TilesSnoc(init, i + n - 1, j + n - 1, c);
      CostSnoc(init, a, b, c);
    }
  }

  lemma {:induction false} AppendGapsInB<T>(cols: seq<Pair>, a: seq<T>, b: seq<T>, i: nat, j: nat, n: nat)
    requires Tiles(cols, i, j)
    ensures Tiles(cols + GapsInB(i, n), i + n, j)
    ensures AgreedColumns(cols + GapsInB(i, n), a, b) == AgreedColumns(cols, a, b)
  {
    hide Tiles, AgreedColumns;
    if n == 0 {
      assert cols + GapsInB(i, 0) == cols;
    } else {
      AppendGapsInB(cols, a, b, i, j, n - 1);
      var init, c := cols + GapsInB(i, n - 1), Pair(i + n - 1, -1);
      assert cols + GapsInB(i, n) == init + [c];
      TilesSnoc(init, i + n - 1, j, c);
      CostSnoc(init, a, b, c);
    }
  }

  lemma {:induction false} AppendGapsInA<T>(cols: seq<Pair>, a: seq<T>, b: seq<T>, i: nat, j: nat, n: nat)
    requires Tiles(cols, i, j)
    ensures Tiles(cols + GapsInA(j, n), i, j + n)
    ensures AgreedColumns(cols + GapsInA(j, n), a, b) == AgreedColumns(cols, a, b)
  {
    hide Tiles, AgreedColumns;
    if n == 0 {
      assert cols + GapsInA(j, 0) == cols;
    } else {
      AppendGapsInA(cols, a, b, i, j, n - 1);
      var init, c := cols + GapsInA(j, n - 1), Pair(-1, j + n - 1);
      assert cols + GapsInA(j, n) == init + [c];
      TilesSnoc(init, i, j + n - 1, c);
      CostSnoc(init, a, b, c);
    }
  }

  /** A run without equal tokens continues the tiling, adds no agreed column and
      costs the longer of its two sides. */
  lemma AppendRun<T>(cols: seq<Pair>, a: seq<T>, b: seq<T>, i: nat, j: nat, i1: nat, j1: nat)
    requires i <= i1 && j <= j1 && Tiles(cols, i, j) && NoneEqual(a, b, i, j, i1, j1)
    ensures Tiles(cols + RunColumns(i, j, i1, j1), i1, j1)
    ensures AgreedColumns(cols + RunColumns(i, j, i1, j1), a, b) == AgreedColumns(cols, a, b)
    ensures |RunColumns(i, j, i1, j1)| == Max(i1 - i, j1 - j)
  {
    hide Tiles, AgreedColumns, Substitutions, GapsInA, GapsInB;
    if i == 0 && j == 0 {
      AppendLeadingRun(cols, a, b, i1, j1);
    } else {
      AppendLaterRun(cols, a, b, i, j, i1 - i, j1 - j);
    }
  }

  lemma AppendLeadingRun<T>(cols: seq<Pair>, a: seq<T>, b: seq<T>, p: nat, q: nat)
    requires Tiles(cols, 0, 0) && NoneEqual(a, b, 0, 0, p, q)
    ensures Tiles(cols + RunColumns(0, 0, p, q), p, q)
    ensures AgreedColumns(cols + RunColumns(0, 0, p, q), a, b) == AgreedColumns(cols, a, b)
  {
    hide Tiles, AgreedColumns, Substitutions, GapsInA, GapsInB;
    var both: nat := Min(p, q);
    var gaps := if p > q then GapsInB(0, p - q) else GapsInA(0, q - p);
    if p > q { AppendGapsInB(cols, a, b, 0, 0, p - q); } else { AppendGapsInA(cols, a, b, 0, 0, q - p); }
    AppendSubstitutions(cols + gaps, a, b, p - both, q - both, both);
    assert cols + RunColumns(0, 0, p, q) == cols + gaps + Substitutions(p - both, q - both, both);
  }

  lemma AppendLaterRun<T>(cols: seq<Pair>, a: seq<T>, b: seq<T>, i: nat, j: nat, p: nat, q: nat)
    requires i + j > 0 && Tiles(cols, i, j) && NoneEqual(a, b, i, j, i + p, j + q)
    ensures Tiles(cols + RunColumns(i, j, i + p, j + q), i + p, j + q)
    ensures AgreedColumns(cols + RunColumns(i, j, i + p, j + q), a, b) == AgreedColumns(cols, a, b)
  {
    hide Tiles, AgreedColumns, Substitutions, GapsInA, GapsInB;
    var both: nat := Min(p, q);
    var subs := Substitutions(i, j, both);
    AppendSubstitutions(cols, a, b, i, j, both);
    if p > q {
      AppendGapsInB(cols + subs, a, b, i + both, j + both, p - both);
      assert cols + RunColumns(i, j, i + p, j + q) == cols + subs + GapsInB(i + both, p - both);
    } else {
      AppendGapsInA(cols + subs, a, b, i + both, j + both, q - both);
      assert cols + RunColumns(i, j, i + p, j + q) == cols + subs + GapsInA(j + both, q - both);
    }
  }

  // ---- How unmatched runs are laid out -------------------------------------

  predicate IsGap(c: Pair) { c.A == -1 || c.B == -1 }

  /** No column from k to l is agreed: they are in one unmatched run. */
  ghost predicate SameRun<T>(cols: seq<Pair>, a: seq<T>, b: seq<T>, k: nat, l: nat)
    requires l < |cols|
  {
    forall x :: k <= x <= l ==> !Agreed(cols[x], a, b)
  }

  /** No column before k is agreed. */
  ghost predicate Leading<T>(cols: seq<Pair>, a: seq<T>, b: seq<T>, k: nat)
    requires k <= |cols|
  {
    forall x :: 0 <= x < k ==> !Agreed(cols[x], a, b)
  }

  /** Of two columns of one run: gaps are all on the same side, and come before the pairs
      in the leading run, behind them in any other. */
  ghost predicate InPlace(c: Pair, d: Pair, leading: bool)
  {
    && (c.A == -1 ==> d.B != -1) && (c.B == -1 ==> d.A != -1)
    && (if leading then IsGap(d) ==> IsGap(c) else IsGap(c) ==> IsGap(d))
  }

  ghost predicate LaidOut<T>(cols: seq<Pair>, a: seq<T>, b: seq<T>)
  {
    forall k, l :: 0 <= k < l < |cols| && SameRun(cols, a, b, k, l) ==> InPlace(cols[k], cols[l], Leading(cols, a, b, k))
  }

  lemma RunInPlace(i: nat, j: nat, i1: nat, j1: nat)
    requires i <= i1 && j <= j1
    ensures var run := RunColumns(i, j, i1, j1);
            forall k, l :: 0 <= k < l < |run| ==> InPlace(run[k], run[l], i == 0 && j == 0)
  {
  }

  lemma RunAgreesNowhere<T>(a: seq<T>, b: seq<T>, i: nat, j: nat, i1: nat, j1: nat)
    requires i <= i1 && j <= j1 && NoneEqual(a, b, i, j, i1, j1)
    ensures forall c :: c in RunColumns(i, j, i1, j1) ==> !Agreed(c, a, b)
  {
  }

  lemma LayRun<T>(cols: seq<Pair>, run: seq<Pair>, a: seq<T>, b: seq<T>)
    requires LaidOut(cols, a, b) && (cols != [] ==> Agreed(cols[|cols| - 1], a, b))
    requires forall c :: c in run ==> !Agreed(c, a, b)
    requires forall k, l :: 0 <= k < l < |run| ==> InPlace(run[k], run[l], cols == [])
    ensures LaidOut(cols + run, a, b)
  {
    hide InPlace, Agreed;
    var all, n := cols + run, |cols|;
    forall k, l | 0 <= k < l < |all| && SameRun(all, a, b, k, l)
      ensures InPlace(all[k], all[l], Leading(all, a, b, k))
    {
      if l < n {
        assert SameRun(cols, a, b, k, l) by { assert forall x :: k <= x <= l ==> cols[x] == all[x]; }
        assert Leading(cols, a, b, k) == Leading(all, a, b, k) by { assert forall x :: 0 <= x < k ==> cols[x] == all[x]; }
      } else {
        if n > 0 { assert all[n - 1] == cols[n - 1]; }
        assert all[k] == run[k - n] && all[l] == run[l - n];
      }
    }
  }

  lemma LayMatch<T>(cols: seq<Pair>, c: Pair, a: seq<T>, b: seq<T>)
    requires LaidOut(cols, a, b) && Agreed(c, a, b)
    ensures LaidOut(cols + [c], a, b)
  {
    hide InPlace, Agreed;
    var all, n := cols + [c], |cols|;
    forall k, l | 0 <= k < l < |all| && SameRun(all, a, b, k, l)
      ensures InPlace(all[k], all[l], Leading(all, a, b, k))
    {
      assert all[l] != c || l < n;
      assert SameRun(cols, a, b, k, l) by { assert forall x :: k <= x <= l ==> cols[x] == all[x]; }
      assert Leading(cols, a, b, k) == Leading(all, a, b, k) by { assert forall x :: 0 <= x < k ==> cols[x] == all[x]; }
    }
  }

  // ---- The alignment of a matching ----------------------------------------

  /** Where the run before match k starts (and where the last run starts for k = |ms|). */
  function RunStart(ms: seq<Pair>, k: nat): Pair
    requires k <= |ms|
  {
    if k == 0 then Pair(0, 0) else Pair(ms[k - 1].A + 1, ms[k - 1].B + 1)
  }

  ghost predicate RunsFit(ms: seq<Pair>, n: nat, m: nat)
  {
    && (forall k :: 0 <= k < |ms| ==> 0 <= RunStart(ms, k).A <= ms[k].A && 0 <= RunStart(ms, k).B <= ms[k].B)
    && RunStart(ms, |ms|).A <= n && RunStart(ms, |ms|).B <= m
  }

  /** The columns up to and including match k. */
  ghost function ColumnsThrough(ms: seq<Pair>, n: nat, m: nat, k: nat): seq<Pair>
    requires k <= |ms| && RunsFit(ms, n, m)
  {
    if k == 0 then []
    else
      var s := RunStart(ms, k - 1);
      ColumnsThrough(ms, n, m, k - 1) + RunColumns(s.A, s.B, ms[k - 1].A, ms[k - 1].B) + [ms[k - 1]]
  }

  ghost function Columns(ms: seq<Pair>, n: nat, m: nat): seq<Pair>
    requires RunsFit(ms, n, m)
  {
    var s := RunStart(ms, |ms|);
    ColumnsThrough(ms, n, m, |ms|) + RunColumns(s.A, s.B, n, m)
  }

  ghost predicate IsLongestMatching<T>(ms: seq<Pair>, a: seq<T>, b: seq<T>)
  {
    IsMatching(ms, a, b) && |ms| == Lcs(a, b)
  }

  lemma MatchingRunsFit<T>(ms: seq<Pair>, a: seq<T>, b: seq<T>)
    requires IsMatching(ms, a, b)
    ensures RunsFit(ms, |a|, |b|)
  {
  }

  /** Between two neighbouring matches of a longest matching no two tokens are
      equal: the pair would extend the matching. */
  lemma NoEqualTokensBetweenMatches<T>(ms: seq<Pair>, a: seq<T>, b: seq<T>, k: nat)
    requires IsLongestMatching(ms, a, b) && k <= |ms|
    ensures var s := RunStart(ms, k);
            var e := if k == |ms| then Pair(|a|, |b|) else ms[k];
            NoneEqual(a, b, s.A, s.B, e.A, e.B)
  {
    hide LcsOf;
    var s := RunStart(ms, k);
    var e := if k == |ms| then Pair(|a|, |b|) else ms[k];
    forall p, q | s.A <= p < e.A && s.B <= q < e.B && 0 <= p < |a| && 0 <= q < |b|
      ensures a[p] != b[q]
    {
      if a[p] == b[q] {
        var longer := ms[..k] + [Pair(p, q)] + ms[k..];
        assert forall x :: 0 <= x < |longer| ==> longer[x] == if x < k then ms[x] else if x == k then Pair(p, q) else ms[x - 1];
        assert IsMatching(longer, a, b) by { InsertMatch(ms, a, b, k, p, q, longer); }
        MatchingWithin(longer, a, b, |a|, |b|);
      }
    }
  }

  lemma InsertMatch<T>(ms: seq<Pair>, a: seq<T>, b: seq<T>, k: nat, p: nat, q: nat, longer: seq<Pair>)
    requires IsMatching(ms, a, b) && k <= |ms| && p < |a| && q < |b| && a[p] == b[q]
    requires k > 0 ==> ms[k - 1].A < p && ms[k - 1].B < q
    requires k < |ms| ==> p < ms[k].A && q < ms[k].B
    requires |longer| == |ms| + 1
    requires forall x :: 0 <= x < |longer| ==> longer[x] == if x < k then ms[x] else if x == k then Pair(p, q) else ms[x - 1]
    ensures IsMatching(longer, a, b)
  {
    forall x | 0 <= x < |longer|
      ensures Agreed(longer[x], a, b)
    {
      if x < k { assert longer[x] == ms[x]; } else if x > k { assert longer[x] == ms[x - 1]; }
    }
    forall x, y | 0 <= x < y < |longer|
      ensures longer[x].A < longer[y].A && longer[x].B < longer[y].B
    {
      var lo := if x < k then ms[x] else if x == k then Pair(p, q) else ms[x - 1];
      var hi := if y < k then ms[y] else if y == k then Pair(p, q) else ms[y - 1];
      assert longer[x] == lo && longer[y] == hi;
      if y == k && x < k - 1 { assert ms[x].A < ms[k - 1].A; }
      if x == k && y > k + 1 { assert ms[k].A < ms[y - 1].A; }
    }
  }

  lemma {:induction false} ColumnsThroughTile<T>(ms: seq<Pair>, a: seq<T>, b: seq<T>, k: nat)
    requires IsLongestMatching(ms, a, b) && k <= |ms| && RunsFit(ms, |a|, |b|)
    ensures var cols, s := ColumnsThrough(ms, |a|, |b|, k), RunStart(ms, k);
            && s.A >= 0 && s.B >= 0
            && Tiles(cols, s.A, s.B) && AgreedColumns(cols, a, b) == ms[..k]
            && |cols| + k <= s.A + s.B
            && LaidOut(cols, a, b) && (k == 0 <==> cols == []) && (k > 0 ==> cols[|cols| - 1] == ms[k - 1] && Agreed(ms[k - 1], a, b))
  {
    hide IsLongestMatching, RunsFit, Tiles, AgreedColumns, RunColumns, NoneEqual, LaidOut, Agreed;
    if k == 0 {
      EmptyTiles(a, b);
    } else {
      ColumnsThroughTile(ms, a, b, k - 1);
      RunsFitAt(ms, |a|, |b|, k - 1);
      var s, e := RunStart(ms, k - 1), ms[k - 1];
      var cols := ColumnsThrough(ms, |a|, |b|, k - 1);
      NoEqualTokensBetweenMatches(ms, a, b, k - 1);
      AppendRun(cols, a, b, s.A, s.B, e.A, e.B);
      LayNextRun(ms, cols, a, b, k - 1, e.A, e.B);
      MatchAgrees(ms, a, b, k - 1);
      LayMatch(cols + RunColumns(s.A, s.B, e.A, e.B), e, a, b);
      AppendMatch(ms, cols + RunColumns(s.A, s.B, e.A, e.B), a, b, k);
    }
  }

  lemma AppendMatch<T>(ms: seq<Pair>, run: seq<Pair>, a: seq<T>, b: seq<T>, k: nat)
    requires IsLongestMatching(ms, a, b) && 0 < k <= |ms|
    requires Tiles(run, ms[k - 1].A, ms[k - 1].B) && AgreedColumns(run, a, b) == ms[..k - 1]
    ensures Tiles(run + [ms[k - 1]], ms[k - 1].A + 1, ms[k - 1].B + 1)
    ensures AgreedColumns(run + [ms[k - 1]], a, b) == ms[..k]
  {
    hide Tiles, AgreedColumns, LcsOf;
    var e := ms[k - 1];
    TilesSnoc(run, e.A, e.B, e);
    CostSnoc(run, a, b, e);
    assert ms[..k] == ms[..k - 1] + [e];
  }

  lemma LayNextRun<T>(ms: seq<Pair>, cols: seq<Pair>, a: seq<T>, b: seq<T>, k: nat, i1: nat, j1: nat)
    requires k <= |ms| && LaidOut(cols, a, b)
    requires (k == 0 <==> cols == []) && (k > 0 ==> cols[|cols| - 1] == ms[k - 1] && Agreed(ms[k - 1], a, b))
    requires var s := RunStart(ms, k); 0 <= s.A <= i1 && 0 <= s.B <= j1 && NoneEqual(a, b, s.A, s.B, i1, j1)
    ensures var s := RunStart(ms, k); LaidOut(cols + RunColumns(s.A, s.B, i1, j1), a, b)
  {
    hide LaidOut, RunColumns, NoneEqual, InPlace;
    var s := RunStart(ms, k);
    RunInPlace(s.A, s.B, i1, j1);
    RunAgreesNowhere(a, b, s.A, s.B, i1, j1);
    LayRun(cols, RunColumns(s.A, s.B, i1, j1), a, b);
  }

  lemma MatchAgrees<T>(ms: seq<Pair>, a: seq<T>, b: seq<T>, k: nat)
    requires IsLongestMatching(ms, a, b) && k < |ms|
    ensures Agreed(ms[k], a, b)
  {
  }

  lemma EmptyTiles<T>(a: seq<T>, b: seq<T>)
    ensures Tiles([], 0, 0) && AgreedColumns([], a, b) == [] && LaidOut([], a, b)
  {
  }

  /** The columns around a longest matching: they list every token of both sides
      exactly once and in order, their agreed columns are exactly the matches (so
      no substitution pairs equal tokens), and their cost lies between the edit
      distance and the number of edits of the diff. Unmatched runs are laid out with the
      gaps of the longer side first in the leading one, last in every other. */
  lemma ColumnsOfLongestMatching<T>(ms: seq<Pair>, a: seq<T>, b: seq<T>)
    requires IsLongestMatching(ms, a, b)
    ensures RunsFit(ms, |a|, |b|)
    ensures var cols := Columns(ms, |a|, |b|);
            && Tiles(cols, |a|, |b|)
            && AgreedColumns(cols, a, b) == ms && LaidOut(cols, a, b)
            && Lev(a, b) <= Cost(cols, a, b) <= |a| + |b| - 2 * Lcs(a, b)
  {
    hide Tiles, AgreedColumns, LcsOf, RunColumns, NoneEqual, Dist, RunsFit, LaidOut, Agreed;
    MatchingRunsFit(ms, a, b);
    RunsFitAt(ms, |a|, |b|, |ms|);
    ColumnsThroughTile(ms, a, b, |ms|);
    var s := RunStart(ms, |ms|);
    NoEqualTokensBetweenMatches(ms, a, b, |ms|);
    AppendRun(ColumnsThrough(ms, |a|, |b|, |ms|), a, b, s.A, s.B, |a|, |b|);
    LayNextRun(ms, ColumnsThrough(ms, |a|, |b|, |ms|), a, b, |ms|, |a|, |b|);
    assert ms[..|ms|] == ms;
    AlignmentCostsAtLeastDist(Columns(ms, |a|, |b|), a, b, |a|, |b|);
  }

  // ---- Align ---------------------------------------------------------------

  lemma RunGrows(i: nat, j: nat, n: nat)
    ensures Substitutions(i, j, n + 1) == Substitutions(i, j, n) + [Pair(i + n, j + n)]
    ensures GapsInB(i, n + 1) == GapsInB(i, n) + [Pair(i + n, -1)]
    ensures GapsInA(j, n + 1) == GapsInA(j, n) + [Pair(-1, j + n)]
  {
  }

  /** The leading run has no match on its left: its longer side starts with gaps,
      so that its last tokens sit next to the first agreed word. */
  method LeadingGaps(i1: nat, j1: nat) returns (run: seq<Pair>, pi: nat, pj: nat)
    ensures run == if i1 > j1 then GapsInB(0, i1 - j1) else GapsInA(0, j1 - i1)
    ensures pi == Max(0, i1 - j1) && pj == Max(0, j1 - i1)
  {
    hide GapsInA, GapsInB;
    run, pi, pj := GapsInA(0, 0), 0, 0;
    NoGaps();
    var d := i1 - j1;
    while d > 0
      invariant pi <= i1 && d == i1 - pi - j1 && (pi > 0 ==> d >= 0)
      invariant run == GapsInB(0, pi)
    {
      RunGrows(0, 0, pi);
      run := run + [Pair(pi, -1)];
      pi, d := pi + 1, d - 1;
    }
    d := j1 - (i1 - pi);
    while d > 0
      invariant pj <= j1 && d == j1 - pj - (i1 - pi) && (pi > 0 ==> pj == 0) && (pj > 0 ==> d >= 0)
      invariant run == if pi > 0 then GapsInB(0, pi) else GapsInA(0, pj)
    {
      RunGrows(0, 0, pj);
      run := run + [Pair(-1, pj)];
      pj, d := pj + 1, d - 1;
    }
  }

  lemma NoGaps()
    ensures GapsInA(0, 0) == GapsInB(0, 0) == []
  {
  }

  /** Pairs two stretches position by position, then lists what is left of the
      longer one against gaps. */
  method PairThenGaps(i: nat, j: nat, i1: nat, j1: nat) returns (run: seq<Pair>)
    requires i <= i1 && j <= j1
    ensures var both := Min(i1 - i, j1 - j);
            run == Substitutions(i, j, both) +
                   if i1 - i > j1 - j then GapsInB(i + both, i1 - i - both) else GapsInA(j + both, j1 - j - both)
  {
    hide Substitutions, GapsInA, GapsInB;
    var pi, pj := i, j;
    run := Substitutions(i, j, 0);
    while pi < i1 && pj < j1
      invariant i <= pi <= i1 && j <= pj <= j1 && pi - i == pj - j
      invariant run == Substitutions(i, j, pi - i)
    {
      RunGrows(i, j, pi - i);
      run := run + [Pair(pi, pj)];
      pi, pj := pi + 1, pj + 1;
    }
    ghost var paired, i2, j2 := run, pi, pj;
    ghost var gaps := [];
    while pi < i1
      invariant i2 <= pi <= i1 && (pi > i2 ==> gaps == GapsInB(i2, pi - i2)) && (pi == i2 ==> gaps == [])
      invariant run == paired + gaps
    {
      RunGrows(i2, 0, pi - i2);
      gaps := gaps + [Pair(pi, -1)];
      run := run + [Pair(pi, -1)];
      pi := pi + 1;
    }
    while pj < j1
      invariant j2 <= pj <= j1 && (pj > j2 ==> gaps == GapsInA(j2, pj - j2))
      invariant pj == j2 ==> gaps == if i2 < i1 then GapsInB(i2, i1 - i2) else []
      invariant run == paired + gaps
    {
      RunGrows(0, j2, pj - j2);
      gaps := gaps + [Pair(-1, pj)];
      run := run + [Pair(-1, pj)];
      pj := pj + 1;
    }
  }

  lemma RunAppended(cols: seq<Pair>, i: nat, j: nat, i1: nat, j1: nat)
    requires i <= i1 && j <= j1
    ensures var out := cols + RunColumns(i, j, i1, j1);
      && (Tiles(cols, i, j) ==> Tiles(out, i1, j1) && |out| == |cols| + Max(i1 - i, j1 - j))
      && (forall k, l :: |cols| <= k < l < |out| ==> InPlace(out[k], out[l], i == 0 && j == 0))
  {
    hide RunColumns, Tiles, InPlace;
    RunInPlace(i, j, i1, j1);
    if Tiles(cols, i, j) { AppendRun<int>(cols, [], [], i, j, i1, j1); }
    var run := RunColumns(i, j, i1, j1);
    assert forall k :: |cols| <= k < |cols + run| ==> (cols + run)[k] == run[k - |cols|];
  }

  /** Appends the columns of one unmatched run, token by token: the run lists both sides in
      order, its gaps all on the longer side, before the pairs at the very start and behind
      them anywhere else. */
  method GapRun(cols: seq<Pair>, i: nat, j: nat, i1: nat, j1: nat) returns (out: seq<Pair>)
    requires i <= i1 && j <= j1
    ensures out == cols + RunColumns(i, j, i1, j1)
    ensures Tiles(cols, i, j) ==> Tiles(out, i1, j1) && |out| == |cols| + Max(i1 - i, j1 - j)
    ensures forall k, l :: |cols| <= k < l < |out| ==> InPlace(out[k], out[l], i == 0 && j == 0)
  {
    hide Substitutions, GapsInA, GapsInB, Tiles, InPlace;
    var pi, pj, lead := i, j, [];
    if pi == 0 && pj == 0 {
      lead, pi, pj := LeadingGaps(i1, j1);
    }
    var rest := PairThenGaps(pi, pj, i1, j1);
    out := cols + (lead + rest);
    RunAppended(cols, i, j, i1, j1);
  }

  /** Align refuses exactly the over-long sides and the texts that differ in more
      than MAX_ALIGN_EDITS tokens; otherwise the columns are those around a longest
      common subsequence, the runs between its matches laid out as promised. */
  method Align<T(==)>(a: seq<T>, b: seq<T>) returns (r: Option<seq<Pair>>)
    ensures r.None? <==> |a| > MAX_ALIGN_TOKENS || |b| > MAX_ALIGN_TOKENS || |a| + |b| - 2 * Lcs(a, b) > MAX_ALIGN_EDITS
    ensures r.Some? ==>
      && (exists ms :: IsLongestMatching(ms, a, b) && RunsFit(ms, |a|, |b|) && r.value == Columns(ms, |a|, |b|))
      && Tiles(r.value, |a|, |b|)
      && IsLongestMatching(AgreedColumns(r.value, a, b), a, b) && LaidOut(r.value, a, b)
      && Lev(a, b) <= Cost(r.value, a, b) <= |a| + |b| - 2 * Lcs(a, b)
  {
    hide Tiles, AgreedColumns, LcsOf, RunColumns, Dist, RunsFit, LaidOut;
    if |a| > MAX_ALIGN_TOKENS || |b| > MAX_ALIGN_TOKENS {
      return None;
    }
    var matches, ok := MyersDiff.DiffMatches(a, b, MAX_ALIGN_EDITS);
    if !ok {
      return None;
    }
    ColumnsOfLongestMatching(matches, a, b);
    var out: seq<Pair>, pi: nat, pj: nat := [], 0, 0;
    for k := 0 to |matches|
      invariant pi == RunStart(matches, k).A && pj == RunStart(matches, k).B
      invariant out == ColumnsThrough(matches, |a|, |b|, k)
    {
      RunsFitAt(matches, |a|, |b|, k);
      var mt := matches[k];
      out := GapRun(out, pi, pj, mt.A, mt.B);
      out := out + [mt];
      pi, pj := mt.A + 1, mt.B + 1;
    }
    RunsFitAt(matches, |a|, |b|, |matches|);
    out := GapRun(out, pi, pj, |a|, |b|);
    r := Some(out);
  }

  /** In a laid out alignment, a leading run with tokens on both sides ends in a pair next
      to the first agreed column. */
  lemma LeadingRunEndsInPair<T>(cols: seq<Pair>, a: seq<T>, b: seq<T>, k: nat)
    requires Tiles(cols, |a|, |b|) && LaidOut(cols, a, b) && k < |cols|
    requires Agreed(cols[k], a, b) && Leading(cols, a, b, k) && cols[k].A > 0 && cols[k].B > 0
    ensures k > 0 && cols[k - 1] == Pair(cols[k].A - 1, cols[k].B - 1)
  {
    hide LaidOut, Agreed;
    var i, j := TilesPrefix(cols, k, |a|, |b|);
    var c := cols[..k][k - 1];
    if IsGap(c) {
      forall x | 0 <= x < k
        ensures c.A == -1 ==> cols[..k][x].A == -1
        ensures c.B == -1 ==> cols[..k][x].B == -1
      {
        if x < k - 1 { GapBeforeGap(cols, a, b, x, k - 1); }
      }
      OneSidedTiling(cols[..k], i, j);
    }
  }

  lemma GapBeforeGap<T>(cols: seq<Pair>, a: seq<T>, b: seq<T>, x: nat, y: nat)
    requires LaidOut(cols, a, b) && x < y < |cols| && Leading(cols, a, b, y + 1) && IsGap(cols[y])
    ensures cols[y].A == -1 ==> cols[x].A == -1
    ensures cols[y].B == -1 ==> cols[x].B == -1
  {
    assert SameRun(cols, a, b, x, y) && Leading(cols, a, b, x);
  }

  lemma {:induction false} OneSidedTiling(cols: seq<Pair>, i: nat, j: nat)
    requires Tiles(cols, i, j)
    ensures (forall x :: 0 <= x < |cols| ==> cols[x].A == -1) ==> i == 0
    ensures (forall x :: 0 <= x < |cols| ==> cols[x].B == -1) ==> j == 0
  {
    if cols != [] {
      var c := cols[|cols| - 1];
      OneSidedTiling(cols[..|cols| - 1], if c.A == -1 then i else i - 1, if c.B == -1 then j else j - 1);
    }
  }

  lemma RunsFitAt(ms: seq<Pair>, n: nat, m: nat, k: nat)
    requires RunsFit(ms, n, m) && k <= |ms|
    ensures RunStart(ms, k).A >= 0 && RunStart(ms, k).B >= 0
    ensures k < |ms| ==> RunStart(ms, k).A <= ms[k].A && RunStart(ms, k).B <= ms[k].B
    ensures k == |ms| ==> RunStart(ms, k).A <= n && RunStart(ms, k).B <= m
  {
    if k > 0 { assert RunStart(ms, k - 1).A <= ms[k - 1].A; }
  }
}
