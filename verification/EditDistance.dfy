/** The edit distance the pilot report counts word errors with, and alignments:
    the columns that pair up two token sequences. The distance is defined by
    recursion on prefixes and characterised independently as the least cost of
    any alignment. */
module EditDistance {

  function Min(x: int, y: int): int { if x < y then x else y }

  function Max(x: int, y: int): int { if x < y then y else x }

  /** Distance between the first i tokens of a and the first j tokens of b. */
  function Dist<T(==)>(a: seq<T>, b: seq<T>, i: nat, j: nat): nat
    requires i <= |a| && j <= |b|
    decreases i + j
  {
    if i == 0 then j
    else if j == 0 then i
    else
      Min(Dist(a, b, i - 1, j - 1) + (if a[i - 1] == b[j - 1] then 0 else 1),
          1 + Min(Dist(a, b, i - 1, j), Dist(a, b, i, j - 1)))
  }

  function Lev<T(==)>(a: seq<T>, b: seq<T>): nat { Dist(a, b, |a|, |b|) }

  predicate SameLast<T(==)>(a: seq<T>, b: seq<T>, i: nat, j: nat)
    requires 0 < i <= |a| && 0 < j <= |b|
  {
    a[i - 1] == b[j - 1]
  }

  /** The three edges into a cell of the distance table: each bounds the cell
      from above and one of them attains it. */
  lemma DistEdges<T>(a: seq<T>, b: seq<T>, i: nat, j: nat)
    requires i <= |a| && j <= |b|
    ensures i == 0 ==> Dist(a, b, i, j) == j
    ensures j == 0 ==> Dist(a, b, i, j) == i
    ensures i > 0 ==> Dist(a, b, i, j) <= Dist(a, b, i - 1, j) + 1
    ensures j > 0 ==> Dist(a, b, i, j) <= Dist(a, b, i, j - 1) + 1
    ensures i > 0 && j > 0 ==>
      var diagonal := Dist(a, b, i - 1, j - 1) + (if SameLast(a, b, i, j) then 0 else 1);
      && Dist(a, b, i, j) <= diagonal
      && Dist(a, b, i, j) in {diagonal, Dist(a, b, i - 1, j) + 1, Dist(a, b, i, j - 1) + 1}
  {
  }

  // ---- The distance is a metric -------------------------------------------

  lemma {:induction false} DistSymmetric<T>(a: seq<T>, b: seq<T>, i: nat, j: nat)
    requires i <= |a| && j <= |b|
    ensures Dist(a, b, i, j) == Dist(b, a, j, i)
    decreases i + j
  {
    hide Dist;
    DistEdges(a, b, i, j);
    DistEdges(b, a, j, i);
    if i > 0 && j > 0 {
      DistSymmetric(a, b, i - 1, j - 1);
      DistSymmetric(a, b, i - 1, j);
      DistSymmetric(a, b, i, j - 1);
    }
  }

  lemma {:induction false} DistZero<T>(a: seq<T>, b: seq<T>, i: nat, j: nat)
    requires i <= |a| && j <= |b|
    ensures Dist(a, b, i, j) == 0 <==> a[..i] == b[..j]
    decreases i + j
  {
    if i > 0 && j > 0 {
      DistZero(a, b, i - 1, j - 1);
      assert a[..i] == a[..i - 1] + [a[i - 1]];
      assert b[..j] == b[..j - 1] + [b[j - 1]];
      if a[i - 1] != b[j - 1] {
        assert a[..i][i - 1] == a[i - 1] && b[..j][j - 1] == b[j - 1];
      }
    }
  }

  lemma {:induction false} DistTriangle<T>(a: seq<T>, b: seq<T>, c: seq<T>, i: nat, j: nat, k: nat)
    requires i <= |a| && j <= |b| && k <= |c|
    ensures Dist(a, c, i, k) <= Dist(a, b, i, j) + Dist(b, c, j, k)
    decreases i + j + k
  {
    hide Dist;
    DistEdges(a, b, i, j);
    DistEdges(b, c, j, k);
    DistEdges(a, c, i, k);
    if i == 0 {
      LengthBounds(b, c, j, k);
    } else if k == 0 {
      LengthBounds(a, b, i, j);
    } else if j == 0 {
      LengthBounds(a, c, i, k);
    } else if Dist(a, b, i, j) == Dist(a, b, i - 1, j) + 1 {
      DistTriangle(a, b, c, i - 1, j, k);
    } else if Dist(b, c, j, k) == Dist(b, c, j, k - 1) + 1 {
      DistTriangle(a, b, c, i, j, k - 1);
    } else {
      // Both distances end on b's last token: drop it from either side.
      var i' := if Dist(a, b, i, j) == Dist(a, b, i, j - 1) + 1 then i else i - 1;
      var k' := if Dist(b, c, j, k) == Dist(b, c, j - 1, k) + 1 then k else k - 1;
      DistTriangle(a, b, c, i', j - 1, k');
    }
  }

  lemma {:induction false} LengthBounds<T>(a: seq<T>, b: seq<T>, i: nat, j: nat)
    requires i <= |a| && j <= |b|
    ensures i - j <= Dist(a, b, i, j) && j - i <= Dist(a, b, i, j) <= Max(i, j)
    decreases i + j
  {
    hide Dist;
    DistEdges(a, b, i, j);
    if i > 0 && j > 0 {
      LengthBounds(a, b, i - 1, j - 1);
      LengthBounds(a, b, i - 1, j);
      LengthBounds(a, b, i, j - 1);
    }
  }

  /** The edit distance is a metric, at most the longer length and at least the
      difference of the lengths. */
  lemma LevIsMetric<T>(a: seq<T>, b: seq<T>, c: seq<T>)
    ensures Lev(a, b) == 0 <==> a == b
    ensures Lev(a, b) == Lev(b, a)
    ensures Lev(a, c) <= Lev(a, b) + Lev(b, c)
    ensures |a| - |b| <= Lev(a, b) && |b| - |a| <= Lev(a, b) <= Max(|a|, |b|)
  {
    DistZero(a, b, |a|, |b|);
    assert a[..|a|] == a && b[..|b|] == b;
    DistSymmetric(a, b, |a|, |b|);
    DistTriangle(a, b, c, |a|, |b|, |c|);
    LengthBounds(a, b, |a|, |b|);
  }

  // ---- Subadditivity over concatenation -----------------------------------

  lemma {:induction false} DistOfPrefix<T>(a: seq<T>, b: seq<T>, a': seq<T>, b': seq<T>, i: nat, j: nat)
    requires i <= |a| && j <= |b|
    ensures Dist(a + a', b + b', i, j) == Dist(a, b, i, j)
    decreases i + j
  {
    hide Dist;
    DistEdges(a, b, i, j);
    DistEdges(a + a', b + b', i, j);
    if i > 0 && j > 0 {
      DistOfPrefix(a, b, a', b', i - 1, j - 1);
      DistOfPrefix(a, b, a', b', i - 1, j);
      DistOfPrefix(a, b, a', b', i, j - 1);
    }
  }

  lemma {:induction false} DistAppend<T>(a: seq<T>, b: seq<T>, a': seq<T>, b': seq<T>, i: nat, j: nat)
    requires i <= |a'| && j <= |b'|
    ensures Dist(a + a', b + b', |a| + i, |b| + j) <= Lev(a, b) + Dist(a', b', i, j)
    decreases i + j
  {
    hide Dist;
    DistEdges(a', b', i, j);
    DistEdges(a + a', b + b', |a| + i, |b| + j);
    if i == 0 && j == 0 {
      DistOfPrefix(a, b, a', b', |a|, |b|);
    } else if i == 0 {
      DistAppend(a, b, a', b', 0, j - 1);
      DistEdges(a', b', 0, j - 1);
    } else if j == 0 {
      DistAppend(a, b, a', b', i - 1, 0);
      DistEdges(a', b', i - 1, 0);
    } else if Dist(a', b', i, j) == Dist(a', b', i - 1, j) + 1 {
      DistAppend(a, b, a', b', i - 1, j);
    } else if Dist(a', b', i, j) == Dist(a', b', i, j - 1) + 1 {
      DistAppend(a, b, a', b', i, j - 1);
    } else {
      DistAppend(a, b, a', b', i - 1, j - 1);
      assert (a + a')[|a| + i - 1] == a'[i - 1] && (b + b')[|b| + j - 1] == b'[j - 1];
    }
  }

  /** Cutting both sides anywhere can only add edits. */
  lemma LevSubadditive<T>(a: seq<T>, b: seq<T>, a': seq<T>, b': seq<T>)
    ensures Lev(a + a', b + b') <= Lev(a, b) + Lev(a', b')
  {
    DistAppend(a, b, a', b', |a'|, |b'|);
  }

  // ---- Interning -----------------------------------------------------------

  /** Renaming tokens one to one leaves the distance unchanged. */
  lemma {:induction false} DistOfRenaming<T, U>(a: seq<T>, b: seq<T>, a': seq<U>, b': seq<U>, i: nat, j: nat)
    requires i <= |a| == |a'| && j <= |b| == |b'|
    requires forall p, q :: 0 <= p < |a| && 0 <= q < |b| ==> (a[p] == b[q] <==> a'[p] == b'[q])
    ensures Dist(a', b', i, j) == Dist(a, b, i, j)
    decreases i + j
  {
    hide Dist;
    DistEdges(a, b, i, j);
    DistEdges(a', b', i, j);
    if i > 0 && j > 0 {
      DistOfRenaming(a, b, a', b', i - 1, j - 1);
      DistOfRenaming(a, b, a', b', i - 1, j);
      DistOfRenaming(a, b, a', b', i, j - 1);
    }
  }

  // ---- Alignments ----------------------------------------------------------

  /** One column: A and B index the two sequences, -1 is a gap on that side. */
  datatype Pair = Pair(A: int, B: int)

  /** The columns cols list the indices 0..i of a and 0..j of b, each exactly
      once and in order, with no empty column. */
  ghost predicate Tiles(cols: seq<Pair>, i: int, j: int)
  {
    if cols == [] then i == 0 && j == 0
    else
      var c, init := cols[|cols| - 1], cols[..|cols| - 1];
      if c.A == -1 then j > 0 && c.B == j - 1 && Tiles(init, i, j - 1)
      else if c.B == -1 then i > 0 && c.A == i - 1 && Tiles(init, i - 1, j)
      else i > 0 && j > 0 && c == Pair(i - 1, j - 1) && Tiles(init, i - 1, j - 1)
  }

  lemma TilesSnoc(cols: seq<Pair>, i: int, j: int, c: Pair)
    requires Tiles(cols, i, j) && i >= 0 && j >= 0
    requires c == Pair(i, j) || c == Pair(i, -1) || c == Pair(-1, j)
    ensures Tiles(cols + [c], if c.A == -1 then i else i + 1, if c.B == -1 then j else j + 1)
  {
    assert (cols + [c])[..|cols|] == cols;
  }

  /** The non-gap entries of one side, in column order. */
  function SideA(cols: seq<Pair>): seq<int>
  {
    if cols == [] then []
    else
      var c := cols[|cols| - 1];
      SideA(cols[..|cols| - 1]) + (if c.A == -1 then [] else [c.A])
  }

  function SideB(cols: seq<Pair>): seq<int>
  {
    if cols == [] then []
    else
      var c := cols[|cols| - 1];
      SideB(cols[..|cols| - 1]) + (if c.B == -1 then [] else [c.B])
  }

  function UpTo(lo: int, hi: int): (s: seq<int>)
    requires lo <= hi
  {
    seq(hi - lo, k requires 0 <= k => lo + k)
  }

  /** What tiling means column by column: each side reads 0, 1, 2, ... with
      nothing missing, repeated or out of order. */
  lemma {:induction false} TilesReadsBothSides(cols: seq<Pair>, i: nat, j: nat)
    requires Tiles(cols, i, j)
    ensures SideA(cols) == UpTo(0, i) && SideB(cols) == UpTo(0, j)
    ensures forall k :: 0 <= k < |cols| ==> -1 <= cols[k].A < i && -1 <= cols[k].B < j && cols[k] != Pair(-1, -1)
  {
    if cols != [] {
      var c, init := cols[|cols| - 1], cols[..|cols| - 1];
      TilesReadsBothSides(init, if c.A == -1 then i else i - 1, if c.B == -1 then j else j - 1);
      assert i > 0 ==> UpTo(0, i) == UpTo(0, i - 1) + [i - 1];
      assert j > 0 ==> UpTo(0, j) == UpTo(0, j - 1) + [j - 1];
    }
  }

  /** Every prefix of a tiling tiles. */
  lemma {:induction false} TilesPrefix(cols: seq<Pair>, n: nat, i: int, j: int) returns (i': nat, j': nat)
    requires Tiles(cols, i, j) && n <= |cols| && i >= 0 && j >= 0
    ensures i' <= i && j' <= j && Tiles(cols[..n], i', j')
    ensures n < |cols| ==> (cols[n].A == -1 || cols[n].A == i') && (cols[n].B == -1 || cols[n].B == j')
    decreases |cols|
  {
    if n == |cols| {
      assert cols[..n] == cols;
      return i, j;
    }
    var c, init := cols[|cols| - 1], cols[..|cols| - 1];
    i', j' := TilesPrefix(init, n, if c.A == -1 then i else i - 1, if c.B == -1 then j else j - 1);
    assert init[..n] == cols[..n];
    assert n < |init| ==> init[n] == cols[n];
    if n == |init| { assert cols[..n] == init; TilesUnique(init, i', j', if c.A == -1 then i else i - 1, if c.B == -1 then j else j - 1); }
  }

  lemma {:induction false} TilesUnique(cols: seq<Pair>, i: int, j: int, i': int, j': int)
    requires Tiles(cols, i, j) && Tiles(cols, i', j')
    ensures i == i' && j == j'
  {
    if cols != [] {
      var c, init := cols[|cols| - 1], cols[..|cols| - 1];
      TilesUnique(init, if c.A == -1 then i else i - 1, if c.B == -1 then j else j - 1,
                  if c.A == -1 then i' else i' - 1, if c.B == -1 then j' else j' - 1);
    }
  }

  /** Tokens of one side come in ascending order over the columns. */
  lemma TilesAscend(cols: seq<Pair>, n: nat, m: nat, k: nat, l: nat)
    requires Tiles(cols, n, m) && k < l < |cols|
    ensures cols[k].A != -1 && cols[l].A != -1 ==> cols[k].A < cols[l].A
    ensures -1 <= cols[k].A < n && -1 <= cols[k].B < m
  {
    var i', j' := TilesPrefix(cols, l, n, m);
    TilesReadsBothSides(cols[..l], i', j');
    assert cols[..l][k] == cols[k];
  }

  predicate Agreed<T(==)>(c: Pair, a: seq<T>, b: seq<T>)
  {
    0 <= c.A < |a| && 0 <= c.B < |b| && a[c.A] == b[c.B]
  }

  /** The agreed columns, in order. */
  function AgreedColumns<T(==)>(cols: seq<Pair>, a: seq<T>, b: seq<T>): seq<Pair>
  {
    if cols == [] then []
    else
      var c := cols[|cols| - 1];
      AgreedColumns(cols[..|cols| - 1], a, b) + (if Agreed(c, a, b) then [c] else [])
  }

  /** Edits an alignment spells out: every column that is not agreed. */
  function Cost<T(==)>(cols: seq<Pair>, a: seq<T>, b: seq<T>): int
  {
    |cols| - |AgreedColumns(cols, a, b)|
  }

  lemma CostSnoc<T>(cols: seq<Pair>, a: seq<T>, b: seq<T>, c: Pair)
    ensures AgreedColumns(cols + [c], a, b) == AgreedColumns(cols, a, b) + (if Agreed(c, a, b) then [c] else [])
    ensures Cost(cols + [c], a, b) == Cost(cols, a, b) + (if Agreed(c, a, b) then 0 else 1)
  {
    assert (cols + [c])[..|cols|] == cols;
  }

  /** No alignment is cheaper than the edit distance ... */
  lemma {:induction false} AlignmentCostsAtLeastDist<T>(cols: seq<Pair>, a: seq<T>, b: seq<T>, i: nat, j: nat)
    requires i <= |a| && j <= |b| && Tiles(cols, i, j)
    ensures Dist(a, b, i, j) <= Cost(cols, a, b)
  {
    if cols != [] {
      var c, init := cols[|cols| - 1], cols[..|cols| - 1];
      assert cols == init + [c];
      CostSnoc(init, a, b, c);
      AlignmentCostsAtLeastDist(init, a, b, if c.A == -1 then i else i - 1, if c.B == -1 then j else j - 1);
      DistEdges(a, b, i, j);
    }
  }

  /** ... and one attains it. */
  lemma {:induction false} SomeAlignmentCostsDist<T>(a: seq<T>, b: seq<T>, i: nat, j: nat) returns (cols: seq<Pair>)
    requires i <= |a| && j <= |b|
    ensures Tiles(cols, i, j) && Cost(cols, a, b) == Dist(a, b, i, j)
    decreases i + j
  {
    if i == 0 && j == 0 {
      return [];
    }
    var c :=
      if i == 0 then Pair(-1, j - 1)
      else if j == 0 then Pair(i - 1, -1)
      else if Dist(a, b, i, j) == Dist(a, b, i - 1, j) + 1 then Pair(i - 1, -1)
      else if Dist(a, b, i, j) == Dist(a, b, i, j - 1) + 1 then Pair(-1, j - 1)
      else Pair(i - 1, j - 1);
    var i', j' := if c.A == -1 then i else i - 1, if c.B == -1 then j else j - 1;
    var init := SomeAlignmentCostsDist(a, b, i', j');
    TilesSnoc(init, i', j', c);
    CostSnoc(init, a, b, c);
    cols := init + [c];
  }

  /** The reference definition: the edit distance is the least number of
      non-agreed columns over all alignments of the two sequences. */
  lemma LevIsLeastAlignmentCost<T>(a: seq<T>, b: seq<T>)
    ensures forall cols :: Tiles(cols, |a|, |b|) ==> Lev(a, b) <= Cost(cols, a, b)
    ensures exists cols :: Tiles(cols, |a|, |b|) && Lev(a, b) == Cost(cols, a, b)
  {
    forall cols | Tiles(cols, |a|, |b|)
      ensures Lev(a, b) <= Cost(cols, a, b)
    {
      AlignmentCostsAtLeastDist(cols, a, b, |a|, |b|);
    }
    var best := SomeAlignmentCostsDist(a, b, |a|, |b|);
  }
}
