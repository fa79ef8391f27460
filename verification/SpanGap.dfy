/** The alignment columns that hold a span of production tokens, and what the
    pilot heard there. */
module SpanGap {
  import opened Optional
  import opened EditDistance
  import opened EditGraph
  import Align
  import Compare

  // ---- Facts about any alignment ------------------------------------------

  lemma {:induction false} ColumnOf(cols: seq<Pair>, n: nat, m: nat, i: nat) returns (k: nat)
    requires Tiles(cols, n, m) && i < n
    ensures k < |cols| && cols[k].A == i
    decreases |cols|
  {
    var c, init := cols[|cols| - 1], cols[..|cols| - 1];
    if c.A == i {
      k := |cols| - 1;
    } else {
      k := ColumnOf(init, if c.A == -1 then n else n - 1, if c.B == -1 then m else m - 1, i);
      assert init[k] == cols[k];
    }
  }

  // ---- The gap -------------------------------------------------------------

  datatype Anchored = Both | Left | Right | Neither

  /** An agreed column left (right) of the span. */
  ghost predicate LeftAnchor<T>(c: Pair, s: int, pn: seq<T>, qn: seq<T>) { Agreed(c, pn, qn) && c.A < s }

  ghost predicate RightAnchor<T>(c: Pair, e: int, pn: seq<T>, qn: seq<T>) { Agreed(c, pn, qn) && c.A > e }

  /** lo is the nearest left anchor or, when there is none, the nearest column of
      an earlier production token, so that every pilot-only column next to the
      span is inside. */
  ghost predicate LeftBound<T>(pairs: seq<Pair>, s: int, pn: seq<T>, qn: seq<T>, lo: int, left: bool)
  {
    && -1 <= lo < |pairs|
    && (left ==> lo >= 0 && LeftAnchor(pairs[lo], s, pn, qn))
    && (forall k :: lo < k < |pairs| ==> !LeftAnchor(pairs[k], s, pn, qn))
    && (!left ==>
          && (forall k :: 0 <= k < |pairs| ==> !LeftAnchor(pairs[k], s, pn, qn))
          && (forall k :: lo < k < |pairs| ==> pairs[k].A == -1 || pairs[k].A >= s)
          && (lo >= 0 ==> 0 <= pairs[lo].A < s))
  }

  ghost predicate RightBound<T>(pairs: seq<Pair>, e: int, pn: seq<T>, qn: seq<T>, hi: int, right: bool)
  {
    && 0 <= hi <= |pairs|
    && (right ==> hi < |pairs| && RightAnchor(pairs[hi], e, pn, qn))
    && (forall k :: 0 <= k < hi ==> !RightAnchor(pairs[k], e, pn, qn))
    && (!right ==>
          && (forall k :: 0 <= k < |pairs| ==> !RightAnchor(pairs[k], e, pn, qn))
          && (forall k :: 0 <= k < hi ==> pairs[k].A <= e)
          && (hi < |pairs| ==> pairs[hi].A > e))
  }

  method GapLeft<T(==)>(pairs: seq<Pair>, s: nat, pn: seq<T>, qn: seq<T>) returns (lo: int, left: bool)
    requires Tiles(pairs, |pn|, |qn|) && s < |pn|
    ensures LeftBound(pairs, s, pn, qn, lo, left)
  {
    hide Tiles;
    lo, left := -1, false;
    ghost var at := ColumnOf(pairs, |pn|, |qn|, s);
    ColumnsInRange(pairs, |pn|, |qn|);
    for k := 0 to |pairs|
      invariant -1 <= lo < k <= |pairs| || (lo == -1 && k == 0)
      invariant left ==> lo >= 0 && LeftAnchor(pairs[lo], s, pn, qn)
      invariant !left ==> lo == -1
      invariant forall q :: lo < q < k ==> !LeftAnchor(pairs[q], s, pn, qn)
    {
      var pr := pairs[k];
      if pr.A >= 0 && pr.A < s && pr.B >= 0 && pn[pr.A] == qn[pr.B] {
        lo, left := k, true;
      }
    }
    if !left {
      // Bounded by the span's own columns ...
      var k := 0;
      while k < |pairs| && pairs[k].A < s
        invariant 0 <= k <= at
        invariant forall q :: 0 <= q < k ==> pairs[q].A < s
      {
        k := k + 1;
      }
      lo := k - 1;
      forall q | k < q < |pairs|
        ensures pairs[q].A == -1 || pairs[q].A >= s
      {
        TilesAscend(pairs, |pn|, |qn|, k, q);
      }
      // ... widened past adjacent pilot-only columns.
      while lo >= 0 && pairs[lo].A < 0
        invariant -1 <= lo < k
        invariant forall q :: lo < q < k ==> pairs[q].A == -1
      {
        lo := lo - 1;
      }
    }
  }

  method GapRight<T(==)>(pairs: seq<Pair>, e: nat, pn: seq<T>, qn: seq<T>) returns (hi: int, right: bool)
    requires Tiles(pairs, |pn|, |qn|) && e < |pn|
    ensures RightBound(pairs, e, pn, qn, hi, right)
  {
    hide Tiles;
    hi, right := |pairs|, false;
    ghost var at := ColumnOf(pairs, |pn|, |qn|, e);
    ColumnsInRange(pairs, |pn|, |qn|);
    for k := |pairs| downto 0
      invariant k <= hi <= |pairs|
      invariant right ==> hi < |pairs| && RightAnchor(pairs[hi], e, pn, qn)
      invariant !right ==> hi == |pairs|
      invariant forall q :: k <= q < hi ==> !RightAnchor(pairs[q], e, pn, qn)
    {
      var pr := pairs[k];
      if pr.A > e && pr.B >= 0 && pn[pr.A] == qn[pr.B] {
        hi, right := k, true;
      }
    }
    if !right {
      var k := |pairs| - 1;
      while k >= 0 && !(pairs[k].A >= 0 && pairs[k].A <= e)
        invariant at <= k < |pairs|
        invariant forall q :: k < q < |pairs| ==> pairs[q].A == -1 || pairs[q].A > e
      {
        k := k - 1;
      }
      hi := k + 1;
      forall q | 0 <= q < k
        ensures pairs[q].A <= e
      {
        TilesAscend(pairs, |pn|, |qn|, q, k);
      }
      while hi < |pairs| && pairs[hi].A < 0
        invariant k < hi <= |pairs|
        invariant forall q :: k < q < hi ==> pairs[q].A == -1
      {
        hi := hi + 1;
      }
    }
  }

  lemma ColumnsInRange(cols: seq<Pair>, n: nat, m: nat)
    requires Tiles(cols, n, m)
    ensures forall k :: 0 <= k < |cols| ==> -1 <= cols[k].A < n && -1 <= cols[k].B < m
  {
    TilesReadsBothSides(cols, n, m);
  }

  /** gap: the columns strictly between lo and hi hold the span. */
  method Gap<T(==)>(pairs: seq<Pair>, s: nat, e: nat, pn: seq<T>, qn: seq<T>) returns (lo: int, hi: int, anchored: Anchored)
    requires Tiles(pairs, |pn|, |qn|) && s <= e < |pn|
    ensures LeftBound(pairs, s, pn, qn, lo, anchored.Both? || anchored.Left?)
    ensures RightBound(pairs, e, pn, qn, hi, anchored.Both? || anchored.Right?)
    ensures HoldsSpan(pairs, s, e, pn, qn, lo, hi)
    ensures (anchored.Both? || anchored.Left?) <==> exists k :: 0 <= k < |pairs| && Agreed(pairs[k], pn, qn) && pairs[k].A < s
    ensures (anchored.Both? || anchored.Right?) <==> exists k :: 0 <= k < |pairs| && Agreed(pairs[k], pn, qn) && pairs[k].A > e
    ensures anchored.Right? || anchored.Neither? ==> forall k :: lo < k < |pairs| ==> pairs[k].A == -1 || s <= pairs[k].A
    ensures anchored.Left? || anchored.Neither? ==> forall k :: 0 <= k < hi ==> pairs[k].A <= e
  {
    var left, right;
    lo, left := GapLeft(pairs, s, pn, qn);
    hi, right := GapRight(pairs, e, pn, qn);
    anchored := if left && right then Both else if left then Left else if right then Right else Neither;
    BoundsHoldSpan(pairs, s, e, pn, qn, lo, left, hi, right);
    LeftMeans(pairs, s, pn, qn, lo, left);
    RightMeans(pairs, e, pn, qn, hi, right);
  }

  lemma LeftMeans<T>(pairs: seq<Pair>, s: int, pn: seq<T>, qn: seq<T>, lo: int, left: bool)
    requires LeftBound(pairs, s, pn, qn, lo, left)
    ensures left <==> exists k :: 0 <= k < |pairs| && Agreed(pairs[k], pn, qn) && pairs[k].A < s
    ensures !left ==> forall k :: lo < k < |pairs| ==> pairs[k].A == -1 || s <= pairs[k].A
  {
    assert forall k :: 0 <= k < |pairs| ==> (LeftAnchor(pairs[k], s, pn, qn) <==> Agreed(pairs[k], pn, qn) && pairs[k].A < s);
  }

  lemma RightMeans<T>(pairs: seq<Pair>, e: int, pn: seq<T>, qn: seq<T>, hi: int, right: bool)
    requires RightBound(pairs, e, pn, qn, hi, right)
    ensures right <==> exists k :: 0 <= k < |pairs| && Agreed(pairs[k], pn, qn) && pairs[k].A > e
    ensures !right ==> forall k :: 0 <= k < hi ==> pairs[k].A <= e
  {
    assert forall k :: 0 <= k < |pairs| ==> (RightAnchor(pairs[k], e, pn, qn) <==> Agreed(pairs[k], pn, qn) && pairs[k].A > e);
  }

  /** Every token of the span lies between the bounds, and no agreed column
      outside the span does. */
  ghost predicate HoldsSpan<T>(pairs: seq<Pair>, s: int, e: int, pn: seq<T>, qn: seq<T>, lo: int, hi: int)
  {
    && -1 <= lo < hi <= |pairs|
    && (forall k :: 0 <= k < |pairs| && s <= pairs[k].A <= e ==> lo < k < hi)
    && (forall k :: lo < k < hi && Agreed(pairs[k], pn, qn) ==> s <= pairs[k].A <= e)
  }

  /** Whatever is anchored, the bounds of the two sides hold the span. */
  lemma BoundsHoldSpan<T>(pairs: seq<Pair>, s: nat, e: nat, pn: seq<T>, qn: seq<T>, lo: int, left: bool, hi: int, right: bool)
    requires Tiles(pairs, |pn|, |qn|) && s <= e < |pn|
    requires LeftBound(pairs, s, pn, qn, lo, left) && RightBound(pairs, e, pn, qn, hi, right)
    ensures HoldsSpan(pairs, s, e, pn, qn, lo, hi)
  {
    hide Tiles;
    forall k | 0 <= k < |pairs| && s <= pairs[k].A <= e
      ensures lo < k < hi
    {
      if k < lo { TilesAscend(pairs, |pn|, |qn|, k, lo); }
      if hi < k { TilesAscend(pairs, |pn|, |qn|, hi, k); }
    }
    var at := ColumnOf(pairs, |pn|, |qn|, s);
    assert s <= pairs[at].A <= e;
  }

  // ---- What was heard ------------------------------------------------------

  lemma {:induction false} SideBConcat(x: seq<Pair>, y: seq<Pair>)
    ensures SideB(x + y) == SideB(x) + SideB(y)
  {
    if y == [] {
      assert x + y == x;
    } else {
      assert (x + y)[..|x + y| - 1] == x + y[..|y| - 1];
      SideBConcat(x, y[..|y| - 1]);
    }
  }

  /** out is the contiguous stretch of cand that starts at from. */
  ghost predicate IsRunAt<T>(out: seq<T>, cand: seq<T>, from: nat)
  {
    from + |out| <= |cand| && out == cand[from..from + |out|]
  }

  /** The pilot tokens in the columns between lo and hi: those columns' tokens, in
      order, and one contiguous run of the pilot window. */
  method Heard<T>(pairs: seq<Pair>, lo: int, hi: int, cand: seq<T>) returns (out: seq<T>)
    requires -1 <= lo < hi <= |pairs|
    requires exists n: nat :: Tiles(pairs, n, |cand|)
    ensures var heard := SideB(pairs[lo + 1..hi]);
            |out| == |heard| && forall q :: 0 <= q < |out| ==> 0 <= heard[q] < |cand| && out[q] == cand[heard[q]]
    ensures exists from: nat :: IsRunAt(out, cand, from)
  {
    ghost var from, to := HeardIsOneRun(pairs, lo, hi, |cand|);
    ghost var n: nat :| Tiles(pairs, n, |cand|);
    ColumnsInRange(pairs, n, |cand|);
    hide Tiles, SideB;
    out := [];
    ghost var idx := [];
    NothingYet(pairs, lo + 1);
    for k := lo + 1 to hi
      invariant idx == SideB(pairs[lo + 1..k]) && |out| == |idx|
      invariant forall q :: 0 <= q < |idx| ==> 0 <= idx[q] < |cand| && out[q] == cand[idx[q]]
    {
      SideBSnoc(pairs, lo + 1, k);
      if pairs[k].B >= 0 {
        out := out + [cand[pairs[k].B]];
        idx := idx + [pairs[k].B];
      }
    }
    assert out == cand[from..from + |out|];
    assert IsRunAt(out, cand, from);
  }

  lemma NothingYet(cols: seq<Pair>, lo: nat)
    requires lo <= |cols|
    ensures SideB(cols[lo..lo]) == []
  {
  }

  lemma SideBSnoc(cols: seq<Pair>, lo: nat, k: nat)
    requires lo <= k < |cols|
    ensures SideB(cols[lo..k + 1]) == SideB(cols[lo..k]) + (if cols[k].B == -1 then [] else [cols[k].B])
  {
    assert cols[lo..k + 1][..k - lo] == cols[lo..k];
  }

  /** The tokens heard are one contiguous run of the pilot window. */
  lemma HeardIsOneRun(pairs: seq<Pair>, lo: int, hi: int, m: nat) returns (from: nat, to: nat)
    requires -1 <= lo < hi <= |pairs|
    requires exists n: nat :: Tiles(pairs, n, m)
    ensures from <= to <= m && SideB(pairs[lo + 1..hi]) == UpTo(from, to)
  {
    hide Tiles, SideB;
    var n: nat :| Tiles(pairs, n, m);
    var i1, to' := TilesPrefix(pairs, hi, n, m);
    var i0, from' := TilesPrefix(pairs[..hi], lo + 1, i1, to');
    from, to := from', to';
    assert pairs[..hi][..lo + 1] == pairs[..lo + 1];
    TilesReadsBothSides(pairs[..hi], i1, to);
    TilesReadsBothSides(pairs[..lo + 1], i0, from);
    assert pairs[..hi] == pairs[..lo + 1] + pairs[lo + 1..hi];
    SideBConcat(pairs[..lo + 1], pairs[lo + 1..hi]);
    assert UpTo(0, to) == UpTo(0, from) + UpTo(from, to);
    assert SideB(pairs[lo + 1..hi]) == SideB(pairs[..hi])[from..];
  }

  // ---- What the pilot heard in a span --------------------------------------

  type Token = Compare.Token

  function Words(toks: seq<Token>): (r: seq<string>)
    ensures |r| == |toks| && forall k :: 0 <= k < |toks| ==> r[k] == toks[k].norm
  {
    seq(|toks|, k requires 0 <= k < |toks| => toks[k].norm)
  }

  /** The tokens whose midpoint lies between the times, in order. */
  function InTime(toks: seq<Token>, t0: real, t1: real): (r: seq<Token>)
    ensures forall t :: t in r <==> t in toks && t0 <= t.Mid() <= t1
  {
    if toks == [] then []
    else
      var t := toks[|toks| - 1];
      assert toks == toks[..|toks| - 1] + [t];
      InTime(toks[..|toks| - 1], t0, t1) + if t0 <= t.Mid() <= t1 then [t] else []
  }

  datatype Mapping = TooLarge | TooDifferent | Mapped(tokens: seq<Token>, anchored: Anchored)

  /** The columns that place the span: those of a longest matching, bounded on both
      sides by the rules of Gap. */
  ghost predicate Places(pairs: seq<Pair>, window: seq<Token>, cand: seq<Token>, s: int, e: int, lo: int, hi: int, anchored: Anchored)
  {
    var pn, qn := Words(window), Words(cand);
    && Tiles(pairs, |window|, |cand|) && Align.IsLongestMatching(AgreedColumns(pairs, pn, qn), pn, qn)
    && Align.LaidOut(pairs, pn, qn)
    && LeftBound(pairs, s, pn, qn, lo, anchored.Both? || anchored.Left?)
    && RightBound(pairs, e, pn, qn, hi, anchored.Both? || anchored.Right?)
    && HoldsSpan(pairs, s, e, pn, qn, lo, hi)
  }

  /** What is heard there: one contiguous run of the pilot tokens, those of the columns
      between the bounds; or, when no neighbour agrees and the pilot has word times, the
      tokens in the span's time. */
  ghost predicate IsHeard(pairs: seq<Pair>, lo: int, hi: int, cand: seq<Token>, timed: bool, t0: real, t1: real, r: Mapping)
    requires -1 <= lo < hi <= |pairs|
  {
    && r.Mapped?
    && if r.anchored.Neither? && timed then r.tokens == InTime(cand, t0, t1)
       else
         var heard := SideB(pairs[lo + 1..hi]);
         && |r.tokens| == |heard| && (forall q :: 0 <= q < |heard| ==> 0 <= heard[q] < |cand| && r.tokens[q] == cand[heard[q]])
         && exists from: nat :: IsRunAt(r.tokens, cand, from)
  }

  method HeardInSpan(window: seq<Token>, cand: seq<Token>, s: nat, e: nat, timed: bool, t0: real, t1: real) returns (r: Mapping)
    requires s <= e < |window|
    ensures r.TooLarge? <==> |window| > Align.MAX_ALIGN_TOKENS || |cand| > Align.MAX_ALIGN_TOKENS
    ensures r.TooDifferent? <==>
      !r.TooLarge? && cand != [] && |window| + |cand| - 2 * Lcs(Words(window), Words(cand)) > Align.MAX_ALIGN_EDITS
    ensures r.Mapped? && cand == [] ==> r == Mapped([], Neither)
    ensures r.Mapped? && cand != [] ==>
      exists pairs, lo, hi :: Places(pairs, window, cand, s, e, lo, hi, r.anchored) && IsHeard(pairs, lo, hi, cand, timed, t0, t1, r)
  {
    hide Tiles, AgreedColumns, LeftBound, RightBound, SideB, LcsOf, InTime, IsMatching, Dist, Align.LaidOut;
    if |window| > Align.MAX_ALIGN_TOKENS || |cand| > Align.MAX_ALIGN_TOKENS { return TooLarge; }
    if |cand| == 0 { return Mapped([], Neither); }
    var pn, qn := Words(window), Words(cand);
    var cols := Align.Align(pn, qn);
    if cols.None? { return TooDifferent; }
    var pairs := cols.value;
    var lo, hi, anchored := Gap(pairs, s, e, pn, qn);
    assert Places(pairs, window, cand, s, e, lo, hi, anchored);
    if anchored.Neither? && timed {
      r := Mapped(InTime(cand, t0, t1), anchored);
    } else {
      var tokens := Heard(pairs, lo, hi, cand);
      r := Mapped(tokens, anchored);
    }
    assert IsHeard(pairs, lo, hi, cand, timed, t0, t1, r);
  }
}
