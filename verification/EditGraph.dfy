/** The edit graph of two token sequences, as Myers' diff walks it: a point (x, y)
    has consumed x tokens of a and y of b, a step right or down costs one edit and
    a diagonal step over two equal tokens is free. The greedy pass can step past
    either end, so the graph extends over all natural x and y; no token lies
    beyond the ends, hence no diagonal does. */
module EditGraph {
  import opened EditDistance

  // ---- Longest common subsequences ----------------------------------------

  /** Pairs of equal tokens, strictly ascending on both sides. */
  ghost predicate IsMatching<T>(ms: seq<Pair>, a: seq<T>, b: seq<T>)
  {
    && (forall k :: 0 <= k < |ms| ==> Agreed(ms[k], a, b))
    && (forall k, l :: 0 <= k < l < |ms| ==> ms[k].A < ms[l].A && ms[k].B < ms[l].B)
  }

  /** Longest common subsequence of the first i tokens of a and j of b. */
  function LcsOf<T(==)>(a: seq<T>, b: seq<T>, i: nat, j: nat): nat
    requires i <= |a| && j <= |b|
    decreases i + j
  {
    if i == 0 || j == 0 then 0
    else
      var skip := Max(LcsOf(a, b, i - 1, j), LcsOf(a, b, i, j - 1));
      if a[i - 1] == b[j - 1] then Max(skip, LcsOf(a, b, i - 1, j - 1) + 1) else skip
  }

  function Lcs<T(==)>(a: seq<T>, b: seq<T>): nat { LcsOf(a, b, |a|, |b|) }

  lemma LcsEdges<T>(a: seq<T>, b: seq<T>, i: nat, j: nat)
    requires i <= |a| && j <= |b|
    ensures i == 0 || j == 0 ==> LcsOf(a, b, i, j) == 0
    ensures i > 0 && j > 0 ==>
      && LcsOf(a, b, i - 1, j) <= LcsOf(a, b, i, j)
      && LcsOf(a, b, i, j - 1) <= LcsOf(a, b, i, j)
      && (SameLast(a, b, i, j) ==> LcsOf(a, b, i - 1, j - 1) + 1 <= LcsOf(a, b, i, j))
      && (|| LcsOf(a, b, i, j) == LcsOf(a, b, i - 1, j)
          || LcsOf(a, b, i, j) == LcsOf(a, b, i, j - 1)
          || (SameLast(a, b, i, j) && LcsOf(a, b, i, j) == LcsOf(a, b, i - 1, j - 1) + 1))
  {
  }

  lemma {:induction false} MatchingWithin<T>(ms: seq<Pair>, a: seq<T>, b: seq<T>, i: nat, j: nat)
    requires i <= |a| && j <= |b| && IsMatching(ms, a, b)
    requires ms != [] ==> ms[|ms| - 1].A < i && ms[|ms| - 1].B < j
    ensures |ms| <= LcsOf(a, b, i, j)
    decreases i + j
  {
    hide LcsOf;
    LcsEdges(a, b, i, j);
    if ms != [] {
      var last, init := ms[|ms| - 1], ms[..|ms| - 1];
      if last == Pair(i - 1, j - 1) {
        assert init != [] ==> init[|init| - 1] == ms[|ms| - 2];
        MatchingWithin(init, a, b, i - 1, j - 1);
      } else if last.A < i - 1 {
        MatchingWithin(ms, a, b, i - 1, j);
      } else {
        MatchingWithin(ms, a, b, i, j - 1);
      }
    }
  }

  lemma {:induction false} SomeMatching<T>(a: seq<T>, b: seq<T>, i: nat, j: nat) returns (ms: seq<Pair>)
    requires i <= |a| && j <= |b|
    ensures IsMatching(ms, a, b) && |ms| == LcsOf(a, b, i, j)
    ensures forall k :: 0 <= k < |ms| ==> ms[k].A < i && ms[k].B < j
    decreases i + j
  {
    hide LcsOf;
    LcsEdges(a, b, i, j);
    if i == 0 || j == 0 {
      ms := [];
    } else if LcsOf(a, b, i, j) == LcsOf(a, b, i - 1, j) {
      ms := SomeMatching(a, b, i - 1, j);
    } else if LcsOf(a, b, i, j) == LcsOf(a, b, i, j - 1) {
      ms := SomeMatching(a, b, i, j - 1);
    } else {
      var init := SomeMatching(a, b, i - 1, j - 1);
      ms := init + [Pair(i - 1, j - 1)];
    }
  }

  /** Lcs is the length of the longest matching, and a matching of that length exists. */
  lemma LcsIsLongestMatching<T>(a: seq<T>, b: seq<T>)
    ensures forall ms :: IsMatching(ms, a, b) ==> |ms| <= Lcs(a, b)
    ensures exists ms :: IsMatching(ms, a, b) && |ms| == Lcs(a, b)
  {
    forall ms | IsMatching(ms, a, b)
      ensures |ms| <= Lcs(a, b)
    {
      MatchingWithin(ms, a, b, |a|, |b|);
    }
    var best := SomeMatching(a, b, |a|, |b|);
  }

  // ---- Edits ---------------------------------------------------------------

  predicate Diagonal<T(==)>(a: seq<T>, b: seq<T>, x: int, y: int)
  {
    0 <= x < |a| && 0 <= y < |b| && a[x] == b[y]
  }

  /** Fewest edits on any path from (0, 0) to (x, y). */
  function Edits<T(==)>(a: seq<T>, b: seq<T>, x: nat, y: nat): nat
    decreases x + y
  {
    if x == 0 then y
    else if y == 0 then x
    else
      var side := 1 + Min(Edits(a, b, x - 1, y), Edits(a, b, x, y - 1));
      if Diagonal(a, b, x - 1, y - 1) then Min(side, Edits(a, b, x - 1, y - 1)) else side
  }

  lemma EditsEdges<T>(a: seq<T>, b: seq<T>, x: nat, y: nat)
    ensures x == 0 ==> Edits(a, b, x, y) == y
    ensures y == 0 ==> Edits(a, b, x, y) == x
    ensures x > 0 ==> Edits(a, b, x, y) <= Edits(a, b, x - 1, y) + 1
    ensures y > 0 ==> Edits(a, b, x, y) <= Edits(a, b, x, y - 1) + 1
    ensures Diagonal(a, b, x - 1, y - 1) ==> Edits(a, b, x, y) <= Edits(a, b, x - 1, y - 1)
    ensures x > 0 || y > 0 ==>
      || (x > 0 && Edits(a, b, x, y) == Edits(a, b, x - 1, y) + 1)
      || (y > 0 && Edits(a, b, x, y) == Edits(a, b, x, y - 1) + 1)
      || (Diagonal(a, b, x - 1, y - 1) && Edits(a, b, x, y) == Edits(a, b, x - 1, y - 1))
  {
    if x == 0 && y > 0 {
      assert Edits(a, b, 0, y - 1) == y - 1;
    } else if y == 0 && x > 0 {
      assert Edits(a, b, x - 1, 0) == x - 1;
    }
  }

  /** Inside the grid the fewest edits leave exactly a longest common subsequence. */
  lemma {:induction false} EditsLeaveLcs<T>(a: seq<T>, b: seq<T>, x: nat, y: nat)
    requires x <= |a| && y <= |b|
    ensures Edits(a, b, x, y) == x + y - 2 * LcsOf(a, b, x, y)
    decreases x + y
  {
    hide Edits, LcsOf;
    EditsEdges(a, b, x, y);
    LcsEdges(a, b, x, y);
    if x > 0 && y > 0 {
      EditsLeaveLcs(a, b, x - 1, y - 1);
      EditsLeaveLcs(a, b, x - 1, y);
      EditsLeaveLcs(a, b, x, y - 1);
    }
  }

  /** Points past the ends cost what the nearest grid point costs plus the overhang. */
  lemma {:induction false} EditsPastTheEnds<T>(a: seq<T>, b: seq<T>, x: nat, y: nat)
    ensures var gx, gy := Min(x, |a|), Min(y, |b|);
            Edits(a, b, x, y) >= Edits(a, b, gx, gy) + (x - gx) + (y - gy)
    decreases x + y
  {
    hide Edits;
    EditsEdges(a, b, x, y);
    var gx, gy := Min(x, |a|), Min(y, |b|);
    EditsEdges(a, b, gx, gy);
    if x > 0 && Edits(a, b, x, y) == Edits(a, b, x - 1, y) + 1 {
      EditsPastTheEnds(a, b, x - 1, y);
    } else if y > 0 && Edits(a, b, x, y) == Edits(a, b, x, y - 1) + 1 {
      EditsPastTheEnds(a, b, x, y - 1);
    }
  }

  lemma {:induction false} EditsSpanDiagonals<T>(a: seq<T>, b: seq<T>, x: nat, y: nat)
    ensures x - y <= Edits(a, b, x, y) && y - x <= Edits(a, b, x, y)
    decreases x + y
  {
    hide Edits;
    EditsEdges(a, b, x, y);
    if x > 0 && Edits(a, b, x, y) == Edits(a, b, x - 1, y) + 1 {
      EditsSpanDiagonals(a, b, x - 1, y);
    } else if y > 0 && Edits(a, b, x, y) == Edits(a, b, x, y - 1) + 1 {
      EditsSpanDiagonals(a, b, x, y - 1);
    } else if x > 0 && y > 0 {
      EditsSpanDiagonals(a, b, x - 1, y - 1);
    }
  }

  // ---- Furthest reaching points -------------------------------------------

  /** d edits suffice to reach diagonal k (where x - y = k) at x. */
  ghost predicate Reach<T>(a: seq<T>, b: seq<T>, d: int, k: int, x: int)
  {
    x >= 0 && x - k >= 0 && Edits(a, b, x, x - k) <= d
  }

  ghost predicate ReachesNoFurther<T>(a: seq<T>, b: seq<T>, d: int, k: int, bound: int)
  {
    forall x :: Reach(a, b, d, k, x) ==> x <= bound
  }

  /** x is the furthest point of diagonal k that d edits reach. */
  ghost predicate Furthest<T>(a: seq<T>, b: seq<T>, d: int, k: int, x: int)
  {
    Reach(a, b, d, k, x) && ReachesNoFurther(a, b, d, k, x)
  }

  /** s is the furthest point of diagonal k entered by a d-th edit. */
  ghost predicate EntersAt<T>(a: seq<T>, b: seq<T>, d: int, k: int, s: int)
  {
    && Reach(a, b, d, k, s)
    && ReachesNoFurther(a, b, d - 1, k - 1, s - 1)
    && ReachesNoFurther(a, b, d - 1, k + 1, s)
  }

  lemma ReachStaysWithinDiagonals<T>(a: seq<T>, b: seq<T>, d: int, k: int, x: int)
    requires Reach(a, b, d, k, x)
    ensures -d <= k <= d
  {
    EditsSpanDiagonals(a, b, x, x - k);
  }

  lemma NothingOffDiagonals<T>(a: seq<T>, b: seq<T>, d: int, k: int, bound: int)
    requires k < -d || d < k
    ensures ReachesNoFurther(a, b, d, k, bound)
  {
    forall x
      ensures !Reach(a, b, d, k, x)
    {
      if Reach(a, b, d, k, x) { ReachStaysWithinDiagonals(a, b, d, k, x); }
    }
  }

  /** Above the entry point, a point d edits reach is the end of a diagonal step
      from another such point. */
  lemma AboveEntryIsDiagonal<T>(a: seq<T>, b: seq<T>, d: int, k: int, s: int, x: int)
    requires EntersAt(a, b, d, k, s) && Reach(a, b, d, k, x) && x > s
    ensures Diagonal(a, b, x - 1, x - k - 1) && Reach(a, b, d, k, x - 1)
  {
    hide Edits;
    EditsEdges(a, b, x, x - k);
    assert Reach(a, b, d - 1, k - 1, x - 1) ==> x - 1 <= s - 1;
    assert Reach(a, b, d - 1, k + 1, x) ==> x <= s;
  }

  /** Following the free diagonal from the entry point to its end gives the
      furthest point: the greedy choice loses nothing. */
  lemma {:induction false} SnakeIsFurthest<T>(a: seq<T>, b: seq<T>, d: int, k: int, s: int, x: int)
    requires EntersAt(a, b, d, k, s) && s <= x && Reach(a, b, d, k, x)
    requires !Diagonal(a, b, x, x - k)
    ensures Furthest(a, b, d, k, x)
  {
    forall x' | Reach(a, b, d, k, x')
      ensures x' <= x
    {
      if x' > x { NothingBeyondSnake(a, b, d, k, s, x, x'); }
    }
  }

  lemma {:induction false} NothingBeyondSnake<T>(a: seq<T>, b: seq<T>, d: int, k: int, s: int, x: int, x': int)
    requires EntersAt(a, b, d, k, s) && s <= x < x'
    requires !Diagonal(a, b, x, x - k)
    ensures !Reach(a, b, d, k, x')
    decreases x' - x
  {
    if Reach(a, b, d, k, x') {
      AboveEntryIsDiagonal(a, b, d, k, s, x');
      if x' - 1 > x { NothingBeyondSnake(a, b, d, k, s, x, x' - 1); }
    }
  }

  /** The source's choice between stepping down from diagonal k + 1 and right from
      k - 1 enters at the furthest point, given the furthest points of d - 1. */
  lemma GreedyEntry<T>(a: seq<T>, b: seq<T>, d: int, k: int, left: int, right: int, s: int)
    requires -d <= k <= d && d > 0
    requires k > -d ==> Furthest(a, b, d - 1, k - 1, left)
    requires k < d ==> Furthest(a, b, d - 1, k + 1, right)
    requires s == if k == -d || (k != d && left < right) then right else left + 1
    ensures EntersAt(a, b, d, k, s)
  {
    hide Edits;
    if k == -d || (k != d && left < right) {
      EditsEdges(a, b, right, right - k);
    } else {
      EditsEdges(a, b, left + 1, left + 1 - k);
    }
    if k == -d { NothingOffDiagonals(a, b, d - 1, k - 1, s - 1); }
    if k == d { NothingOffDiagonals(a, b, d - 1, k + 1, s); }
  }
}
