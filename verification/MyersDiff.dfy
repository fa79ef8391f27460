/** The greedy diff of diffMatches: a forward pass that keeps the furthest
    reaching point of every diagonal in one array overwritten in place, a trace of
    that array, and a backtrace that reads the matches off the trace. */
module MyersDiff {
  import opened EditDistance
  import opened EditGraph

  /** The diagonals step d visits: -d, -d + 2, ..., d. */
  ghost predicate InStep(d: int, k: int) { -d <= k <= d && (k + d) % 2 == 0 }

  /** Entry off + k of s is the furthest point of diagonal k for d edits. */
  ghost predicate FurthestAt<T>(a: seq<T>, b: seq<T>, d: int, s: seq<int>, off: int, k: int)
  {
    0 <= off + k < |s| && Furthest(a, b, d, k, s[off + k])
  }

  /** s records step d. Step -1 is the state before the first one: the walk then
      enters diagonal 0 at the entry of diagonal 1, which is 0. */
  ghost predicate Records<T>(a: seq<T>, b: seq<T>, d: int, s: seq<int>, off: int)
  {
    && (forall k :: InStep(d, k) ==> FurthestAt(a, b, d, s, off, k))
    && (d == -1 ==> 0 <= off + 1 < |s| && s[off + 1] == 0)
  }

  /** Step d is recorded for the diagonals below k, step d - 1 still stands. */
  ghost predicate RecordsBelow<T>(a: seq<T>, b: seq<T>, d: int, s: seq<int>, off: int, k: int)
  {
    && Records(a, b, d - 1, s, off)
    && (forall q :: InStep(d, q) && q < k ==> FurthestAt(a, b, d, s, off, q))
  }

  /** Every trace entry d > 0 holds step d - 1. */
  ghost predicate Traces<T>(a: seq<T>, b: seq<T>, trace: seq<seq<int>>)
  {
    forall d :: 0 < d < |trace| ==> |trace[d]| == 2 * d + 1 && Records(a, b, d - 1, trace[d], d)
  }

  lemma EntryOfDiagonal<T>(a: seq<T>, b: seq<T>, d: int, s: seq<int>, off: int, k: int, x: int)
    requires d >= 0 && InStep(d, k) && Records(a, b, d - 1, s, off)
    requires 0 <= off - d - 1 && off + d + 1 < |s|
    requires x == if k == -d || (k != d && s[off + k - 1] < s[off + k + 1]) then s[off + k + 1] else s[off + k - 1] + 1
    ensures EntersAt(a, b, d, k, x)
  {
    hide Edits, Furthest, EntersAt;
    if d > 0 {
      assert k > -d ==> InStep(d - 1, k - 1) && FurthestAt(a, b, d - 1, s, off, k - 1);
      assert k < d ==> InStep(d - 1, k + 1) && FurthestAt(a, b, d - 1, s, off, k + 1);
      GreedyEntry(a, b, d, k, s[off + k - 1], s[off + k + 1], x);
    } else {
      FirstEntry(a, b);
    }
  }

  lemma FirstEntry<T>(a: seq<T>, b: seq<T>)
    ensures EntersAt(a, b, 0, 0, 0)
  {
  }

  lemma RecordNext<T>(a: seq<T>, b: seq<T>, d: nat, s: seq<int>, off: int, k: int, x: int)
    requires InStep(d, k) && RecordsBelow(a, b, d, s, off, k) && Furthest(a, b, d, k, x)
    requires 0 <= off + k < |s| && (d == 0 ==> 0 <= off + 1 < |s|)
    ensures RecordsBelow(a, b, d, s[off + k := x], off, k + 2)
  {
    hide Furthest;
    var s', e := s[off + k := x], d - 1;
    forall q | InStep(e, q)
      ensures FurthestAt(a, b, e, s', off, q)
    {
      assert FurthestAt(a, b, e, s, off, q);
    }
    forall q | InStep(d, q) && q < k + 2
      ensures FurthestAt(a, b, d, s', off, q)
    {
      assert q < k ==> FurthestAt(a, b, d, s, off, q);
    }
  }

  /** A walk that ends past both ends within d edits, when d - 1 do not reach
      (|a|, |b|), ends exactly there, on its diagonal. */
  lemma FoundAtTheCorner<T>(a: seq<T>, b: seq<T>, d: nat, k: int, x: int)
    requires Reach(a, b, d, k, x) && x >= |a| && x - k >= |b|
    requires Edits(a, b, |a|, |b|) >= d
    ensures k == |a| - |b| && x == |a| && Edits(a, b, |a|, |b|) == d
  {
    EditsPastTheEnds(a, b, x, x - k);
  }

  /** A full step that found nothing proves one more edit is needed. */
  lemma NotFoundYet<T>(a: seq<T>, b: seq<T>, d: nat, s: seq<int>, off: int)
    requires Edits(a, b, |a|, |b|) >= d
    requires forall k :: InStep(d, k) ==> FurthestAt(a, b, d, s, off, k)
    requires forall k :: InStep(d, k) ==> 0 <= off + k < |s| && !(s[off + k] >= |a| && s[off + k] - k >= |b|)
    ensures Edits(a, b, |a|, |b|) > d
  {
    hide Edits;
    EditsLeaveLcs(a, b, |a|, |b|);
    EditsSpanDiagonals(a, b, |a|, |b|);
    var k := |a| - |b|;
    if InStep(d, k) {
      assert FurthestAt(a, b, d, s, off, k);
      assert Reach(a, b, d, k, |a|) <==> Edits(a, b, |a|, |b|) <= d;
    }
  }

  /** One diagonal of step d: enter greedily, follow the free diagonal to its end. */
  method FollowDiagonal<T(==)>(a: seq<T>, b: seq<T>, v: array<int>, off: int, d: int, k: int) returns (x: int)
    requires d >= 0 && InStep(d, k) && Records(a, b, d - 1, v[..], off)
    requires 0 <= off - d - 1 && off + d + 1 < v.Length
    ensures Furthest(a, b, d, k, x)
  {
    hide Edits, Records;
    if k == -d || (k != d && v[off + k - 1] < v[off + k + 1]) {
      x := v[off + k + 1];
    } else {
      x := v[off + k - 1] + 1;
    }
    EntryOfDiagonal(a, b, d, v[..], off, k, x);
    ghost var s := x;
    var y := x - k;
    while x < |a| && y < |b| && a[x] == b[y]
      invariant y == x - k && s <= x && Reach(a, b, d, k, x)
      decreases |a| - x
    {
      EditsEdges(a, b, x + 1, y + 1);
      x, y := x + 1, y + 1;
    }
    SnakeIsFurthest(a, b, d, k, s, x);
  }

  /** The forward pass. It finds the corner exactly at the fewest edits needed,
      when these are within the bound. */
  method ForwardPass<T(==)>(a: seq<T>, b: seq<T>, bound: nat) returns (trace: seq<seq<int>>, found: int)
    ensures found < 0 <==> Edits(a, b, |a|, |b|) > bound
    ensures found >= 0 ==> found == Edits(a, b, |a|, |b|) && |trace| == found + 1 && Traces(a, b, trace)
  {
    hide Edits, Furthest;
    EditsLeaveLcs(a, b, |a|, |b|);
    var maxD := Min(bound, |a| + |b|);
    var off := maxD + 1;
    var v := new int[2 * maxD + 3](_ => 0);
    trace, found := [], -1;
    var d := 0;
    while d <= maxD && found < 0
      invariant 0 <= d <= maxD + 1 && |trace| == d && Traces(a, b, trace)
      invariant found < 0 ==> Edits(a, b, |a|, |b|) >= d && Records(a, b, d - 1, v[..], off)
      invariant found >= 0 ==> found == d - 1 == Edits(a, b, |a|, |b|)
    {
      trace := trace + [v[off - d..off + d + 1]];
      RecordsSlice(a, b, d, v[..], off);
      assert v[..][off - d..off + d + 1] == v[off - d..off + d + 1];
      found := Step(a, b, v, off, d);
      d := d + 1;
    }
  }

  lemma RecordsSlice<T>(a: seq<T>, b: seq<T>, d: nat, s: seq<int>, off: int)
    requires Records(a, b, d - 1, s, off) && 0 <= off - d && off + d + 1 <= |s|
    ensures d > 0 ==> Records(a, b, d - 1, s[off - d..off + d + 1], d)
  {
    hide Furthest;
    if d > 0 {
      var t, e := s[off - d..off + d + 1], d - 1;
      forall k | InStep(e, k)
        ensures FurthestAt(a, b, e, t, d, k)
      {
        assert FurthestAt(a, b, e, s, off, k);
      }
    }
  }

  /** Step d over all its diagonals, overwriting v in place. */
  method Step<T(==)>(a: seq<T>, b: seq<T>, v: array<int>, off: int, d: int) returns (found: int)
    requires d >= 0 && Records(a, b, d - 1, v[..], off)
    requires 0 <= off - d - 1 && off + d + 1 < v.Length
    requires Edits(a, b, |a|, |b|) >= d
    modifies v
    ensures found == -1 || found == d
    ensures found == d ==> Edits(a, b, |a|, |b|) == d
    ensures found == -1 ==> Edits(a, b, |a|, |b|) > d && Records(a, b, d, v[..], off)
  {
    hide Edits, Furthest;
    var k := -d;
    while k <= d
      invariant -d <= k <= d + 2 && (k + d) % 2 == 0
      invariant RecordsBelow(a, b, d, v[..], off, k)
      invariant forall q :: InStep(d, q) && q < k ==> 0 <= off + q < v.Length && !(v[off + q] >= |a| && v[off + q] - q >= |b|)
      decreases d + 2 - k
    {
      var x := FollowDiagonal(a, b, v, off, d, k);
      var y := x - k;
      RecordNext(a, b, d, v[..], off, k, x);
      v[off + k] := x;
      if x >= |a| && y >= |b| {
        assert Reach(a, b, d, k, x) by { FurthestReaches(a, b, d, k, x); }
        FoundAtTheCorner(a, b, d, k, x);
        return d;
      }
      k := k + 2;
    }
    NotFoundYet(a, b, d, v[..], off);
    return -1;
  }

  lemma FurthestReaches<T>(a: seq<T>, b: seq<T>, d: int, k: int, x: int)
    requires Furthest(a, b, d, k, x)
    ensures Reach(a, b, d, k, x)
  {
  }

  // ---- Backtrace -----------------------------------------------------------

  /** Matches collected walking backwards from the corner to (x, y). */
  ghost predicate Descending<T>(ms: seq<Pair>, a: seq<T>, b: seq<T>, x: int, y: int)
  {
    && (forall p :: 0 <= p < |ms| ==> Agreed(ms[p], a, b) && x <= ms[p].A && y <= ms[p].B)
    && (forall p, q :: 0 <= p < q < |ms| ==> ms[q].A < ms[p].A && ms[q].B < ms[p].B)
  }

  lemma DescendingEmpty<T>(a: seq<T>, b: seq<T>, x: int, y: int)
    ensures Descending([], a, b, x, y)
  {
  }

  lemma DescendingSnoc<T>(ms: seq<Pair>, a: seq<T>, b: seq<T>, x: int, y: int)
    requires Descending(ms, a, b, x + 1, y + 1) && Diagonal(a, b, x, y)
    ensures Descending(ms + [Pair(x, y)], a, b, x, y)
  {
  }

  lemma DescendingFrom<T>(ms: seq<Pair>, a: seq<T>, b: seq<T>, x: int, y: int, x': int, y': int)
    requires Descending(ms, a, b, x, y) && x' <= x && y' <= y
    ensures Descending(ms, a, b, x', y')
  {
  }

  /** The backtrace: step by step back along the trace, one edit each, collecting
      the free diagonal of every step. */
  method Backtrace<T(==)>(a: seq<T>, b: seq<T>, trace: seq<seq<int>>, found: nat) returns (matches: seq<Pair>)
    requires found == Edits(a, b, |a|, |b|) && |trace| == found + 1 && Traces(a, b, trace)
    ensures Descending(matches, a, b, 0, 0)
    ensures |a| + |b| == found + 2 * |matches|
  {
    hide Edits, Furthest, Reach, EntersAt, Descending, Records, Diagonal;
    var x, y := |a|, |b|;
    matches := [];
    DescendingEmpty(a, b, x, y);
    CornerIsFurthest(a, b, found);
    EditsLeaveLcs(a, b, |a|, |b|);
    var d: int := found;
    while d > 0
      invariant 0 <= d <= found && x <= |a| && y <= |b|
      invariant Furthest(a, b, d, x - y, x) && (x - y + d) % 2 == 0
      invariant Descending(matches, a, b, x, y)
      invariant |a| + |b| == x + y + (found - d) + 2 * |matches|
    {
      var prev := trace[d];
      var k := x - y;
      BackStep(a, b, d, trace[d], k, x);
      var pk;
      if k == -d || (k != d && prev[k - 1 + d] < prev[k + 1 + d]) {
        pk := k + 1;
      } else {
        pk := k - 1;
      }
      var px := prev[pk + d];
      var py := px - pk;
      ghost var s := if pk == k + 1 then px else px + 1;
      while x > px && y > py
        invariant s <= x <= |a| && y == x - k && y <= |b|
        invariant Reach(a, b, d, k, x)
        invariant Descending(matches, a, b, x, y)
        invariant |a| + |b| == x + y + (found - d) + 2 * |matches|
        decreases x
      {
        AboveEntryIsDiagonal(a, b, d, k, s, x);
        x, y := x - 1, y - 1;
        DescendingSnoc(matches, a, b, x, y);
        matches := matches + [Pair(x, y)];
      }
      DescendingFrom(matches, a, b, x, y, px, py);
      x, y := px, py;
      d := d - 1;
    }
    FurthestReaches(a, b, 0, x - y, x);
    StartIsOnDiagonalZero(a, b, x - y, x);
    while x > 0 && y > 0
      invariant 0 <= x == y && x <= |a| && y <= |b| && Reach(a, b, 0, 0, x)
      invariant Descending(matches, a, b, x, y)
      invariant |a| + |b| == x + y + found + 2 * |matches|
    {
      FreeStepBack(a, b, x);
      x, y := x - 1, y - 1;
      DescendingSnoc(matches, a, b, x, y);
      matches := matches + [Pair(x, y)];
    }
  }

  lemma CornerIsFurthest<T>(a: seq<T>, b: seq<T>, d: nat)
    requires d == Edits(a, b, |a|, |b|)
    ensures Furthest(a, b, d, |a| - |b|, |a|)
  {
    var k := |a| - |b|;
    forall x | Reach(a, b, d, k, x)
      ensures x <= |a|
    {
      EditsPastTheEnds(a, b, x, x - k);
    }
  }

  lemma StartIsOnDiagonalZero<T>(a: seq<T>, b: seq<T>, k: int, x: int)
    requires Reach(a, b, 0, k, x)
    ensures k == 0 && x >= 0
  {
    ReachStaysWithinDiagonals(a, b, 0, k, x);
  }

  lemma FreeStepBack<T>(a: seq<T>, b: seq<T>, x: nat)
    requires x > 0 && Reach(a, b, 0, 0, x)
    ensures Diagonal(a, b, x - 1, x - 1) && Reach(a, b, 0, 0, x - 1)
  {
    hide Edits;
    EditsEdges(a, b, x, x);
  }

  /** What the trace of one step says about the point it leads back from. */
  lemma BackStep<T>(a: seq<T>, b: seq<T>, d: int, prev: seq<int>, k: int, x: int)
    requires d > 0 && |prev| == 2 * d + 1 && Records(a, b, d - 1, prev, d)
    requires Furthest(a, b, d, k, x) && (k + d) % 2 == 0
    ensures InStep(d, k)
    ensures var down := k == -d || (k != d && prev[k - 1 + d] < prev[k + 1 + d]);
            var pk := if down then k + 1 else k - 1;
            var px := prev[pk + d];
            var s := if down then px else px + 1;
            && Furthest(a, b, d - 1, pk, px) && Reach(a, b, d, k, x)
            && 0 <= px && 0 <= px - pk
            && EntersAt(a, b, d, k, s) && s <= x
  {
    hide Edits;
    ReachStaysWithinDiagonals(a, b, d, k, x);
    var down := k == -d || (k != d && prev[k - 1 + d] < prev[k + 1 + d]);
    var pk := if down then k + 1 else k - 1;
    assert InStep(d - 1, pk) && FurthestAt(a, b, d - 1, prev, d, pk);
    if k > -d { assert InStep(d - 1, k - 1) && FurthestAt(a, b, d - 1, prev, d, k - 1); }
    if k < d { assert InStep(d - 1, k + 1) && FurthestAt(a, b, d - 1, prev, d, k + 1); }
    var s := if down then prev[pk + d] else prev[pk + d] + 1;
    GreedyEntry(a, b, d, k, if k > -d then prev[k - 1 + d] else 0, if k < d then prev[k + 1 + d] else 0, s);
  }

  // ---- The whole diff ------------------------------------------------------

  /** Reverses a descending list in place, swapping from both ends. */
  method Reverse(ms: seq<Pair>) returns (r: seq<Pair>)
    ensures |r| == |ms| && forall p :: 0 <= p < |ms| ==> r[p] == ms[|ms| - 1 - p]
  {
    r := ms;
    var lo, hi := 0, |ms| - 1;
    while lo < hi
      invariant 0 <= lo <= |ms| && hi == |ms| - 1 - lo && |r| == |ms| && lo <= hi + 1
      invariant forall p :: 0 <= p < lo || hi < p < |ms| ==> r[p] == ms[|ms| - 1 - p]
      invariant forall p :: lo <= p <= hi ==> r[p] == ms[p]
    {
      r := r[lo := r[hi]][hi := r[lo]];
      lo, hi := lo + 1, hi - 1;
    }
  }

  /** The diff succeeds exactly when the texts differ in at most maxD tokens, and
      its matches are then a longest common subsequence. */
  method DiffMatches<T(==)>(a: seq<T>, b: seq<T>, maxD: nat) returns (matches: seq<Pair>, ok: bool)
    ensures ok <==> |a| + |b| - 2 * Lcs(a, b) <= maxD
    ensures ok ==> IsMatching(matches, a, b) && |matches| == Lcs(a, b)
  {
    hide Edits, Furthest;
    EditsLeaveLcs(a, b, |a|, |b|);
    var trace, found := ForwardPass(a, b, maxD);
    if found < 0 {
      return [], false;
    }
    var back := Backtrace(a, b, trace, found);
    matches := Reverse(back);
    return matches, true;
  }
}
