/** The two-row edit distance with its reusable buffer, and the word-error and
    similarity measures built on it. */
module Levenshtein {
  import opened EditDistance

  /** Reusable row storage. The rows may be longer than the current call needs
      and hold anything a previous call left in them. */
  class LevBuf {
    var prev: array<int>
    var cur: array<int>

    ghost predicate Valid()
      reads this
    {
      prev.Length == cur.Length && prev != cur
    }

    constructor ()
      ensures Valid() && fresh(prev) && fresh(cur)
    {
      prev := new int[0];
      cur := new int[0];
    }
  }

  /** The row holds the distances of the first i tokens of a to every prefix of b. */
  ghost predicate IsRow<T>(a: seq<T>, b: seq<T>, i: nat, row: array<int>)
    requires i <= |a|
    reads row
  {
    |b| < row.Length && forall j :: 0 <= j <= |b| ==> row[j] == Dist(a, b, i, j)
  }

  /** One row of the table from the row above. */
  method FillRow<T(==)>(a: seq<T>, b: seq<T>, i: nat, prev: array<int>, cur: array<int>)
    requires 0 < i <= |a| && prev != cur && |b| < cur.Length
    requires IsRow(a, b, i - 1, prev)
    modifies cur
    ensures IsRow(a, b, i, cur)
  {
    hide Dist;
    DistEdges(a, b, i, 0);
    cur[0] := i;
    for j := 1 to |b| + 1
      invariant forall q :: 0 <= q < j ==> cur[q] == Dist(a, b, i, q)
      invariant forall q :: 0 <= q <= |b| ==> prev[q] == Dist(a, b, i - 1, q)
    {
      DistEdges(a, b, i, j);
      DistEdges(a, b, i - 1, j);
      DistEdges(a, b, i, j - 1);
      var c := prev[j - 1];
      if a[i - 1] != b[j - 1] {
        c := 1 + Min(prev[j - 1], Min(prev[j], cur[j - 1]));
      } else {
        EqualTokensKeepDiagonal(a, b, i, j);
      }
      cur[j] := c;
    }
  }

  lemma {:induction false} EqualTokensKeepDiagonal<T>(a: seq<T>, b: seq<T>, i: nat, j: nat)
    requires 0 < i <= |a| && 0 < j <= |b| && a[i - 1] == b[j - 1]
    ensures Dist(a, b, i, j) == Dist(a, b, i - 1, j - 1)
  {
    hide Dist;
    DistEdges(a, b, i, j);
    DropOne(a, b, i - 1, j - 1);
  }

  /** Removing a token never raises the distance by more than one. */
  lemma {:induction false} DropOne<T>(a: seq<T>, b: seq<T>, i: nat, j: nat)
    requires i <= |a| && j <= |b|
    ensures j < |b| ==> Dist(a, b, i, j) <= Dist(a, b, i, j + 1) + 1
    ensures i < |a| ==> Dist(a, b, i, j) <= Dist(a, b, i + 1, j) + 1
    decreases i + j
  {
    hide Dist;
    DistEdges(a, b, i, j);
    if j < |b| {
      DistEdges(a, b, i, j + 1);
      if i > 0 { DropOne(a, b, i - 1, j); }
    }
    if i < |a| {
      DistEdges(a, b, i + 1, j);
      if j > 0 { DropOne(a, b, i, j - 1); }
    }
  }

  /** The edit distance in two rows kept across calls: whatever the buffer holds
      on entry, and although the shorter side is moved to the columns, the result
      is the edit distance of a to b. */
  method LevenshteinBuf<T(==)>(a0: seq<T>, b0: seq<T>, buf: LevBuf) returns (d: nat)
    requires buf.Valid()
    modifies buf, buf.prev, buf.cur
    ensures d == Lev(a0, b0)
    ensures buf.Valid()
    ensures (buf.prev == old(buf.prev) && buf.cur == old(buf.cur)) || (fresh(buf.prev) && fresh(buf.cur))
  {
    hide Dist;
    var a, b := a0, b0;
    if |a| < |b| {
      a, b := b, a;
      DistSymmetric(a, b, |a|, |b|);
    }
    if buf.prev.Length < |b| + 1 {
      buf.prev := new int[|b| + 1];
      buf.cur := new int[|b| + 1];
    }
    var prev, cur := buf.prev, buf.cur;
    ghost var row0, row1 := buf.prev, buf.cur;
    for j := 0 to |b| + 1
      invariant buf.prev == row0 && buf.cur == row1
      invariant forall q :: 0 <= q < j ==> prev[q] == q
    {
      prev[j] := j;
    }
    forall j | 0 <= j <= |b| ensures prev[j] == Dist(a, b, 0, j) {
      DistEdges(a, b, 0, j);
    }
    for i := 1 to |a| + 1
      invariant buf.prev == row0 && buf.cur == row1
      invariant (prev == row0 && cur == row1) || (prev == row1 && cur == row0)
      invariant IsRow(a, b, i - 1, prev)
    {
      FillRow(a, b, i, prev, cur);
      prev, cur := cur, prev;
    }
    return prev[|b|];
  }

  method Levenshtein<T(==)>(a: seq<T>, b: seq<T>) returns (d: nat)
    ensures d == Lev(a, b)
  {
    var buf := new LevBuf();
    d := LevenshteinBuf(a, b, buf);
  }

  // ---- Word errors ---------------------------------------------------------

  /** Ids are handed out 0, 1, 2, ... and no two words share one. */
  predicate OneToOne(ids: map<string, nat>)
  {
    && (forall w :: w in ids ==> ids[w] < |ids|)
    && (forall w, w' :: w in ids && w' in ids && ids[w] == ids[w'] ==> w == w')
  }

  ghost predicate Interned(ids: map<string, nat>, ws: seq<string>, out: seq<nat>)
  {
    |out| == |ws| && forall k :: 0 <= k < |ws| ==> ws[k] in ids && out[k] == ids[ws[k]]
  }

  lemma FreshId(ids: map<string, nat>, w: string)
    requires OneToOne(ids) && w !in ids
    ensures OneToOne(ids[w := |ids|])
  {
  }

  method Intern(ids0: map<string, nat>, ws: seq<string>) returns (ids: map<string, nat>, out: seq<nat>)
    requires OneToOne(ids0)
    ensures OneToOne(ids) && Interned(ids, ws, out)
    ensures forall w :: w in ids0 ==> w in ids && ids[w] == ids0[w]
  {
    hide OneToOne;
    ids, out := ids0, [];
    for i := 0 to |ws|
      invariant OneToOne(ids) && Interned(ids, ws[..i], out)
      invariant forall w :: w in ids0 ==> w in ids && ids[w] == ids0[w]
    {
      if ws[i] !in ids {
        FreshId(ids, ws[i]);
        ids := ids[ws[i] := |ids|];
      }
      out := out + [ids[ws[i]]];
      assert ws[..i + 1] == ws[..i] + [ws[i]];
    }
  }

  /** The word-level edit distance, compared over interned words: interning is
      invisible in the result. */
  method WordErrors(ref: seq<string>, hyp: seq<string>) returns (d: nat)
    ensures d == Lev(ref, hyp)
  {
    var ids, r := Intern(map[], ref);
    var ids', h := Intern(ids, hyp);
    DistOfRenaming(ref, hyp, r, h, |ref|, |hyp|);
    d := Levenshtein(r, h);
  }

  /** 1 minus the distance over the longer length: between 0 and 1, and 1 exactly
      for equal strings. */
  method Similarity(a: string, b: string) returns (s: real)
    ensures 0.0 <= s <= 1.0
    ensures s == 1.0 <==> a == b
    ensures var longer := Max(|a|, |b|);
            longer > 0 ==> s * longer as real == (longer - Lev(a, b)) as real
  {
    var mx := Max(|a|, |b|);
    LevIsMetric(a, b, b);
    if mx == 0 { return 1.0; }
    var d := Levenshtein(a, b);
    s := 1.0 - d as real / mx as real;
    RatioBounds(d, mx);
  }

  lemma RatioBounds(d: nat, mx: nat)
    requires d <= mx && mx > 0
    ensures var s := 1.0 - d as real / mx as real;
            0.0 <= s <= 1.0 && (s == 1.0 <==> d == 0) && s * mx as real == (mx - d) as real
  {
    var q := d as real / mx as real;
    assert q * mx as real == d as real;
    assert q <= 1.0;
  }
}
