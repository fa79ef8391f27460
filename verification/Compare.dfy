/** The report's word disagreement between two transcripts of a track: windowed
    for a whole track, interval by interval for a partial one. */
module Compare {
  import opened EditDistance
  import opened Levenshtein
  import opened Coverage

  datatype Token = Token(norm: string, start: real, end: real, seg: int) {
    function Mid(): real { (start + end) / 2.0 }
  }

  datatype Comparison = Comparison(errors: nat, refWords: nat, hypWords: nat) {
    function Add(o: Comparison): Comparison
    {
      Comparison(errors + o.errors, refWords + o.refWords, hypWords + o.hypWords)
    }
  }

  const COMPARE_WINDOW_WORDS := 250
  const COMPARE_MAX_WINDOW_WORDS := 1000

  // ---- Cuts and windows ----------------------------------------------------

  ghost predicate Ascending(cuts: seq<real>)
  {
    forall k, l :: 0 <= k < l < |cuts| ==> cuts[k] < cuts[l]
  }

  function CutTime(ref: seq<Token>, i: int): real
    requires 0 < i < |ref|
  {
    (ref[i - 1].end + ref[i].start) / 2.0
  }

  /** A cut is due before token i: enough words since the last cut, at a segment
      boundary or at the hard limit, and in time after that cut. */
  ghost predicate CutDue(ref: seq<Token>, last: int, lastCut: real, i: int)
  {
    && 0 < i < |ref|
    && ((i - last >= COMPARE_WINDOW_WORDS && ref[i].seg != ref[i - 1].seg) || i - last >= COMPARE_MAX_WINDOW_WORDS)
    && (last > 0 ==> CutTime(ref, i) > lastCut)
  }

  ghost predicate NoCutDue(ref: seq<Token>, last: int, lastCut: real, to: int)
  {
    forall i :: last < i < to ==> !CutDue(ref, last, lastCut, i)
  }

  /** The cuts stand before the tokens at, each at the first token where one is due. */
  ghost predicate CutsAt(ref: seq<Token>, cuts: seq<real>, at: seq<int>)
  {
    && |at| == |cuts|
    && (forall k :: 0 <= k < |at| ==> FirstDue(ref, cuts, at, k))
  }

  ghost predicate FirstDue(ref: seq<Token>, cuts: seq<real>, at: seq<int>, k: int)
    requires |at| == |cuts| && 0 <= k < |at|
  {
    var last, lastCut := LastBefore(cuts, at, k).0, LastBefore(cuts, at, k).1;
    && 0 <= last < at[k] && CutDue(ref, last, lastCut, at[k]) && cuts[k] == CutTime(ref, at[k])
    && NoCutDue(ref, last, lastCut, at[k])
  }

  ghost function LastBefore(cuts: seq<real>, at: seq<int>, k: int): (int, real)
    requires |at| == |cuts| && 0 <= k <= |at|
  {
    if k == 0 then (0, 0.0) else (at[k - 1], cuts[k - 1])
  }

  /** Cuts in ascending order, each at the first place one is due, and none is due after
      the last. */
  method WindowCuts(ref: seq<Token>) returns (cuts: seq<real>, ghost at: seq<int>)
    ensures Ascending(cuts) && CutsAt(ref, cuts, at)
    ensures var last := LastBefore(cuts, at, |at|); NoCutDue(ref, last.0, last.1, |ref|)
  {
    hide CutDue;
    cuts, at := [], [];
    var since := 0;
    var i := 1;
    while i < |ref|
      invariant 1 <= i && Ascending(cuts) && CutsAt(ref, cuts, at)
      invariant var last := LastBefore(cuts, at, |at|); 0 <= last.0 < i && since == i - 1 - last.0 && NoCutDue(ref, last.0, last.1, i)
      invariant cuts != [] ==> at[|at| - 1] > 0
    {
      since := since + 1;
      ghost var last := LastBefore(cuts, at, |at|);
      CutDueIs(ref, last.0, last.1, i);
      var boundary := ref[i].seg != ref[i - 1].seg;
      if (since >= COMPARE_WINDOW_WORDS && boundary) || since >= COMPARE_MAX_WINDOW_WORDS {
        var c := (ref[i - 1].end + ref[i].start) / 2.0;
        if |cuts| == 0 || c > cuts[|cuts| - 1] {
          CutSnoc(ref, cuts, at, i);
          cuts, at := cuts + [c], at + [i];
          since := 0;
        }
      }
      i := i + 1;
    }
  }

  lemma CutDueIs(ref: seq<Token>, last: int, lastCut: real, i: int)
    requires 0 < i < |ref|
    ensures CutDue(ref, last, lastCut, i) <==>
            ((i - last >= COMPARE_WINDOW_WORDS && ref[i].seg != ref[i - 1].seg) || i - last >= COMPARE_MAX_WINDOW_WORDS)
            && (last > 0 ==> (ref[i - 1].end + ref[i].start) / 2.0 > lastCut)
  {
  }

  lemma CutSnoc(ref: seq<Token>, cuts: seq<real>, at: seq<int>, i: int)
    requires CutsAt(ref, cuts, at) && 0 < i < |ref|
    requires var last := LastBefore(cuts, at, |at|);
             0 <= last.0 < i && CutDue(ref, last.0, last.1, i) && NoCutDue(ref, last.0, last.1, i)
    ensures CutsAt(ref, cuts + [CutTime(ref, i)], at + [i])
  {
    hide CutDue, NoCutDue;
    var cuts', at' := cuts + [CutTime(ref, i)], at + [i];
    forall k | 0 <= k < |at'|
      ensures FirstDue(ref, cuts', at', k)
    {
      assert LastBefore(cuts', at', k) == LastBefore(cuts, at, k);
      if k < |at| { assert FirstDue(ref, cuts, at, k); }
    }
  }

  /** What the cuts come to: between two of them lie at least 250 words, and fewer than 1000
      only when the later one is at a segment boundary; it is in the middle of the pause
      there; and at every such boundary passed over, the pause was not after the last cut. */
  lemma CutsAreAtBoundaries(ref: seq<Token>, cuts: seq<real>, at: seq<int>, k: nat)
    requires CutsAt(ref, cuts, at) && k < |cuts|
    ensures var last, here := if k == 0 then 0 else at[k - 1], at[k];
      && 0 <= last && last + 250 <= here < |ref| && 2.0 * cuts[k] == ref[here - 1].end + ref[here].start
      && (here - last < 1000 ==> ref[here - 1].seg != ref[here].seg)
      && (forall i :: last + 250 <= i < here && IsCuttable(ref, last, i) ==>
            k > 0 && ref[i - 1].end + ref[i].start <= 2.0 * cuts[k - 1])
  {
    assert FirstDue(ref, cuts, at, k);
    if k > 0 { assert FirstDue(ref, cuts, at, k - 1); }
    var last, lastCut := LastBefore(cuts, at, k).0, LastBefore(cuts, at, k).1;
    forall i | last + 250 <= i < at[k] && IsCuttable(ref, last, i)
      ensures k > 0 && ref[i - 1].end + ref[i].start <= 2.0 * cuts[k - 1]
    {
      assert !CutDue(ref, last, lastCut, i);
    }
  }

  /** Before token i a segment starts, or 1000 words have gone by. */
  ghost predicate IsCuttable(ref: seq<Token>, last: int, i: int)
  {
    0 < i < |ref| && (ref[i].seg != ref[i - 1].seg || i - last >= 1000)
  }

  /** Window k holds the times from cut k - 1 up to, but not including, cut k. */
  predicate InWindow(cuts: seq<real>, k: int, t: real)
  {
    0 <= k <= |cuts| && (k > 0 ==> cuts[k - 1] <= t) && (k < |cuts| ==> t < cuts[k])
  }

  /** A part of a track: the times it holds. */
  type Part = real -> bool

  /** The norms of the tokens a part holds, in order. */
  ghost function In(toks: seq<Token>, part: Part): seq<string>
  {
    if toks == [] then []
    else
      var t := toks[|toks| - 1];
      In(toks[..|toks| - 1], part) + (if part(t.Mid()) then [t.norm] else [])
  }

  function Window(cuts: seq<real>, k: int): Part { t => InWindow(cuts, k, t) }

  /** What window k holds. */
  ghost function Bucket(toks: seq<Token>, cuts: seq<real>, k: int): seq<string> { In(toks, Window(cuts, k)) }

  /** The least index whose cut is at or past x (the standard binary search). */
  method SearchFloats(cuts: seq<real>, x: real) returns (k: nat)
    requires Ascending(cuts)
    ensures k <= |cuts|
    ensures forall q :: 0 <= q < k ==> cuts[q] < x
    ensures forall q :: k <= q < |cuts| ==> x <= cuts[q]
  {
    var i, j := 0, |cuts|;
    while i < j
      invariant 0 <= i <= j <= |cuts|
      invariant forall q :: 0 <= q < i ==> cuts[q] < x
      invariant forall q :: j <= q < |cuts| ==> x <= cuts[q]
    {
      var h := (i + j) / 2;
      if cuts[h] < x { i := h + 1; } else { j := h; }
    }
    k := i;
  }

  lemma WindowIsUnique(cuts: seq<real>, k: int, l: int, t: real)
    requires Ascending(cuts) && InWindow(cuts, k, t) && InWindow(cuts, l, t)
    ensures k == l
  {
    assert forall p, q :: 0 <= p <= q < |cuts| ==> cuts[p] <= cuts[q];
    assert k < l ==> k <= l - 1 < |cuts|;
    assert l < k ==> l <= k - 1 < |cuts|;
  }

  method ByWindow(toks: seq<Token>, cuts: seq<real>) returns (out: seq<seq<string>>)
    requires Ascending(cuts)
    ensures |out| == |cuts| + 1
    ensures forall k :: 0 <= k < |out| ==> out[k] == Bucket(toks, cuts, k)
  {
    out := seq(|cuts| + 1, _ => []);
    for n := 0 to |toks|
      invariant |out| == |cuts| + 1
      invariant forall k :: 0 <= k < |out| ==> out[k] == Bucket(toks[..n], cuts, k)
    {
      var mid := toks[n].Mid();
      var k := SearchFloats(cuts, mid);
      if k < |cuts| && cuts[k] == mid { k := k + 1; }
      assert InWindow(cuts, k, mid);
      assert toks[..n + 1][..n] == toks[..n];
      forall l | 0 <= l < |out| && l != k
        ensures !InWindow(cuts, l, mid)
      {
        if InWindow(cuts, l, mid) { WindowIsUnique(cuts, k, l, mid); }
      }
      out := out[k := out[k] + [toks[n].norm]];
    }
    assert toks[..|toks|] == toks;
  }

  // ---- Nothing lost, nothing counted twice ---------------------------------

  ghost function Norms(toks: seq<Token>): seq<string>
  {
    seq(|toks|, k requires 0 <= k < |toks| => toks[k].norm)
  }

  /** The buckets 0 .. k joined. */
  ghost function Joined(toks: seq<Token>, cuts: seq<real>, k: int): seq<string>
    requires k >= 0
  {
    if k == 0 then [] else Joined(toks, cuts, k - 1) + Bucket(toks, cuts, k - 1)
  }

  ghost predicate MidsNondecreasing(toks: seq<Token>)
  {
    forall i, j :: 0 <= i < j < |toks| ==> toks[i].Mid() <= toks[j].Mid()
  }

  /** One more token lands in its own window, behind every earlier token of it. */
  lemma BucketSnoc(toks: seq<Token>, cuts: seq<real>, k: nat, w: nat)
    requires toks != [] && Ascending(cuts) && InWindow(cuts, w, toks[|toks| - 1].Mid()) && k <= |cuts|
    ensures Bucket(toks, cuts, k) == Bucket(toks[..|toks| - 1], cuts, k) + (if k == w then [toks[|toks| - 1].norm] else [])
    ensures MidsNondecreasing(toks) && w < k ==> Bucket(toks, cuts, k) == []
  {
    var mid := toks[|toks| - 1].Mid();
    if InWindow(cuts, k, mid) { WindowIsUnique(cuts, k, w, mid); }
    if MidsNondecreasing(toks) && w < k { LaterBucketEmpty(toks, cuts, k, w, mid); }
  }

  lemma {:induction false} JoinedSnoc(toks: seq<Token>, cuts: seq<real>, k: nat, w: nat)
    requires toks != [] && Ascending(cuts) && InWindow(cuts, w, toks[|toks| - 1].Mid()) && k <= |cuts| + 1
    ensures |Joined(toks, cuts, k)| == |Joined(toks[..|toks| - 1], cuts, k)| + (if w < k then 1 else 0)
    ensures MidsNondecreasing(toks) ==>
      Joined(toks, cuts, k) == Joined(toks[..|toks| - 1], cuts, k) + (if w < k then [toks[|toks| - 1].norm] else [])
  {
    hide Bucket, InWindow, Ascending, MidsNondecreasing;
    if k > 0 {
      JoinedSnoc(toks, cuts, k - 1, w);
      BucketSnoc(toks, cuts, k - 1, w);
      assert [toks[|toks| - 1].norm] + [] == [toks[|toks| - 1].norm];
    }
  }

  /** With nondecreasing midpoints no earlier token sits in a later window. */
  lemma {:induction false} LaterBucketEmpty(toks: seq<Token>, cuts: seq<real>, k: nat, w: nat, mid: real)
    requires Ascending(cuts) && InWindow(cuts, w, mid) && w < k <= |cuts|
    requires forall i :: 0 <= i < |toks| ==> toks[i].Mid() <= mid
    ensures Bucket(toks, cuts, k) == []
  {
    if toks != [] {
      LaterBucketEmpty(toks[..|toks| - 1], cuts, k, w, mid);
      assert mid < cuts[w] <= cuts[k - 1];
    }
  }

  /** Every token is in exactly one window; when the midpoints never go back, the
      windows joined are the track. */
  lemma {:induction false} WindowsPartition(toks: seq<Token>, cuts: seq<real>)
    requires Ascending(cuts)
    ensures |Joined(toks, cuts, |cuts| + 1)| == |toks|
    ensures MidsNondecreasing(toks) ==> Joined(toks, cuts, |cuts| + 1) == Norms(toks)
  {
    if toks == [] {
      NoTokens(cuts, |cuts| + 1);
    } else {
      var init, t := toks[..|toks| - 1], toks[|toks| - 1];
      WindowsPartition(init, cuts);
      var w := SomeWindow(cuts, t.Mid());
      JoinedSnoc(toks, cuts, |cuts| + 1, w);
      assert Norms(toks) == Norms(init) + [t.norm];
    }
  }

  lemma {:induction false} NoTokens(cuts: seq<real>, k: nat)
    ensures Joined([], cuts, k) == []
  {
    if k > 0 { NoTokens(cuts, k - 1); }
  }

  lemma {:induction false} SomeWindow(cuts: seq<real>, t: real) returns (w: nat)
    requires Ascending(cuts)
    ensures InWindow(cuts, w, t)
  {
    w := 0;
    while w < |cuts| && cuts[w] <= t
      invariant w <= |cuts| && (w > 0 ==> cuts[w - 1] <= t)
    {
      w := w + 1;
    }
  }

  // ---- Comparing part by part ----------------------------------------------

  /** The word errors of each part on its own, summed. */
  ghost function PartErrors(ref: seq<Token>, hyp: seq<Token>, parts: seq<Part>): nat
  {
    if parts == [] then 0
    else
      var part := parts[|parts| - 1];
      PartErrors(ref, hyp, parts[..|parts| - 1]) + Lev(In(ref, part), In(hyp, part))
  }

  ghost predicate Disjoint(parts: seq<Part>)
  {
    forall k, l, t :: 0 <= k < l < |parts| ==> !(parts[k](t) && parts[l](t))
  }

  ghost predicate Held(parts: seq<Part>, t: real) { exists k :: 0 <= k < |parts| && parts[k](t) }

  /** A column pairs no token of one part with a token outside it. */
  ghost predicate PairsWithin(c: Pair, ref: seq<Token>, hyp: seq<Token>, parts: seq<Part>)
  {
    0 <= c.A < |ref| && 0 <= c.B < |hyp| ==>
      forall k :: 0 <= k < |parts| ==> parts[k](ref[c.A].Mid()) == parts[k](hyp[c.B].Mid())
  }

  ghost predicate StaysWithin(cols: seq<Pair>, ref: seq<Token>, hyp: seq<Token>, parts: seq<Part>)
  {
    forall x :: 0 <= x < |cols| ==> PairsWithin(cols[x], ref, hyp, parts)
  }

  /** A column costs one edit when a part holds a token of it, unless it is agreed. */
  ghost predicate Counts(c: Pair, ref: seq<Token>, hyp: seq<Token>, parts: seq<Part>)
  {
    && !Agreed(c, Norms(ref), Norms(hyp))
    && ((0 <= c.A < |ref| && Held(parts, ref[c.A].Mid())) || (0 <= c.B < |hyp| && Held(parts, hyp[c.B].Mid())))
  }

  ghost function PartCost(cols: seq<Pair>, ref: seq<Token>, hyp: seq<Token>, parts: seq<Part>): nat
  {
    if cols == [] then 0
    else PartCost(cols[..|cols| - 1], ref, hyp, parts) + if Counts(cols[|cols| - 1], ref, hyp, parts) then 1 else 0
  }

  lemma {:induction false} InConcat(x: seq<Token>, y: seq<Token>, part: Part)
    ensures In(x + y, part) == In(x, part) + In(y, part)
  {
    if y == [] {
      assert x + y == x;
    } else {
      assert (x + y)[..|x + y| - 1] == x + y[..|y| - 1];
      InConcat(x, y[..|y| - 1], part);
    }
  }

  lemma {:induction false} PartErrorsSubadditive(r: seq<Token>, h: seq<Token>, r': seq<Token>, h': seq<Token>, parts: seq<Part>)
    ensures PartErrors(r + r', h + h', parts) <= PartErrors(r, h, parts) + PartErrors(r', h', parts)
  {
    hide In, Lev;
    if parts != [] {
      var part := parts[|parts| - 1];
      PartErrorsSubadditive(r, h, r', h', parts[..|parts| - 1]);
      InConcat(r, r', part);
      InConcat(h, h', part);
      LevSubadditive(In(r, part), In(h, part), In(r', part), In(h', part));
    }
  }

  /** The tokens of one column cost what the column does. */
  lemma {:induction false} ColumnErrors(r: seq<Token>, h: seq<Token>, parts: seq<Part>)
    requires |r| <= 1 && |h| <= 1 && Disjoint(parts)
    requires r != [] && h != [] ==> forall k :: 0 <= k < |parts| ==> parts[k](r[0].Mid()) == parts[k](h[0].Mid())
    ensures PartErrors(r, h, parts) <= 1
    ensures r != [] && h != [] && r[0].norm == h[0].norm ==> PartErrors(r, h, parts) == 0
    ensures (r == [] || !Held(parts, r[0].Mid())) && (h == [] || !Held(parts, h[0].Mid())) ==> PartErrors(r, h, parts) == 0
  {
    hide Lev;
    if parts != [] {
      var init, part := parts[..|parts| - 1], parts[|parts| - 1];
      assert forall k :: 0 <= k < |init| ==> init[k] == parts[k];
      ColumnErrors(r, h, init);
      assert r != [] ==> r[..0] == [] && r == [r[0]];
      assert h != [] ==> h[..0] == [] && h == [h[0]];
      LevIsMetric(In(r, part), In(h, part), []);
    }
  }

  /** No alignment that stays within the parts is cheaper ... */
  lemma {:induction false} PartsCostAtLeast(cols: seq<Pair>, ref: seq<Token>, hyp: seq<Token>, parts: seq<Part>, i: nat, j: nat)
    requires Tiles(cols, i, j) && i <= |ref| && j <= |hyp| && Disjoint(parts) && StaysWithin(cols, ref, hyp, parts)
    ensures PartErrors(ref[..i], hyp[..j], parts) <= PartCost(cols, ref, hyp, parts)
  {
    hide PartErrors, Disjoint, Held;
    if cols == [] {
      NothingToCompare(parts);
    } else {
      var c, init := cols[|cols| - 1], cols[..|cols| - 1];
      var i', j' := if c.A == -1 then i else i - 1, if c.B == -1 then j else j - 1;
      var r, h := if c.A == -1 then [] else [ref[c.A]], if c.B == -1 then [] else [hyp[c.B]];
      assert PairsWithin(c, ref, hyp, parts);
      PartsCostAtLeast(init, ref, hyp, parts, i', j');
      PartErrorsSubadditive(ref[..i'], hyp[..j'], r, h, parts);
      ColumnErrors(r, h, parts);
      assert ref[..i] == ref[..i'] + r && hyp[..j] == hyp[..j'] + h;
    }
  }

  lemma {:induction false} NothingToCompare(parts: seq<Part>)
    ensures PartErrors([], [], parts) == 0
  {
    if parts != [] {
      NothingToCompare(parts[..|parts| - 1]);
      var none: seq<string> := [];
      LevIsMetric(none, none, none);
    }
  }

  /** When only what part k holds differs, the sums differ by that part's errors. */
  lemma {:induction false} OnePartChanges(r: seq<Token>, h: seq<Token>, r': seq<Token>, h': seq<Token>, parts: seq<Part>, k: nat)
    requires forall l :: 0 <= l < |parts| && l != k ==> In(r, parts[l]) == In(r', parts[l]) && In(h, parts[l]) == In(h', parts[l])
    ensures k >= |parts| ==> PartErrors(r, h, parts) == PartErrors(r', h', parts)
    ensures k < |parts| ==> PartErrors(r, h, parts) + Lev(In(r', parts[k]), In(h', parts[k]))
                            == PartErrors(r', h', parts) + Lev(In(r, parts[k]), In(h, parts[k]))
  {
    hide In, Lev;
    if parts != [] {
      OnePartChanges(r, h, r', h', parts[..|parts| - 1], k);
    }
  }

  lemma LevLast(x: seq<string>, a: string, y: seq<string>, b: string)
    ensures Lev(x + [a], y + [b]) in {Lev(x, y) + (if a == b then 0 else 1), Lev(x + [a], y) + 1, Lev(x, y + [b]) + 1}
    ensures Lev(x + [a], []) == Lev(x, []) + 1 && Lev([], y + [b]) == Lev([], y) + 1
  {
    hide Dist;
    DistEdges(x + [a], y + [b], |x| + 1, |y| + 1);
    DistOfPrefix(x, y, [a], [b], |x|, |y|);
    DistOfPrefix(x + [a], y, [], [b], |x| + 1, |y|);
    DistOfPrefix(x, y + [b], [a], [], |x|, |y| + 1);
    assert x + [a] + [] == x + [a] && y + [b] + [] == y + [b];
    LevIsMetric(x + [a], [], []);
    LevIsMetric(x, [], []);
    LevIsMetric([], y + [b], []);
    LevIsMetric([], y, []);
  }

  /** Parts that follow each other in time. */
  ghost predicate InTime(parts: seq<Part>)
  {
    forall k, l, t, t' :: 0 <= k < l < |parts| && parts[k](t) && parts[l](t') ==> t < t'
  }

  lemma InTimeIsDisjoint(parts: seq<Part>)
    requires InTime(parts)
    ensures Disjoint(parts)
  {
  }

  lemma {:induction false} NoneIn(toks: seq<Token>, part: Part)
    requires forall x :: 0 <= x < |toks| ==> !part(toks[x].Mid())
    ensures In(toks, part) == []
  {
    if toks != [] { NoneIn(toks[..|toks| - 1], part); }
  }

  lemma InPrefix(toks: seq<Token>, i: nat, part: Part)
    requires 0 < i <= |toks|
    ensures In(toks[..i], part) == In(toks[..i - 1], part) + (if part(toks[i - 1].Mid()) then [toks[i - 1].norm] else [])
  {
    assert toks[..i][..i - 1] == toks[..i - 1];
  }

  /** The last tokens leave: nothing changes outside the part k that holds them. */
  lemma LastTokensLeave(ref: seq<Token>, hyp: seq<Token>, i: nat, j: nat, i': nat, j': nat, parts: seq<Part>, k: nat)
    requires i <= |ref| && j <= |hyp| && i' in {i, i - 1} && j' in {j, j - 1} && Disjoint(parts)
    requires i' < i ==> (k < |parts| && parts[k](ref[i - 1].Mid())) || !Held(parts, ref[i - 1].Mid())
    requires j' < j ==> (k < |parts| && parts[k](hyp[j - 1].Mid())) || !Held(parts, hyp[j - 1].Mid())
    ensures k >= |parts| ==> PartErrors(ref[..i], hyp[..j], parts) == PartErrors(ref[..i'], hyp[..j'], parts)
    ensures k < |parts| ==> PartErrors(ref[..i], hyp[..j], parts) + Lev(In(ref[..i'], parts[k]), In(hyp[..j'], parts[k]))
                            == PartErrors(ref[..i'], hyp[..j'], parts) + Lev(In(ref[..i], parts[k]), In(hyp[..j], parts[k]))
  {
    hide In, PartErrors, Lev;
    forall l | 0 <= l < |parts| && l != k
      ensures In(ref[..i], parts[l]) == In(ref[..i'], parts[l]) && In(hyp[..j], parts[l]) == In(hyp[..j'], parts[l])
    {
      if i' < i { InPrefix(ref, i, parts[l]); }
      if j' < j { InPrefix(hyp, j, parts[l]); }
    }
    OnePartChanges(ref[..i], hyp[..j], ref[..i'], hyp[..j'], parts, k);
  }

  /** When a part's last tokens are in different parts, the later one stands alone in its. */
  lemma LaterStandsAlone(toks: seq<Token>, j: nat, parts: seq<Part>, k: nat, l: nat)
    requires j <= |toks| && MidsNondecreasing(toks) && InTime(parts) && l < k < |parts|
    requires j > 0 ==> parts[l](toks[j - 1].Mid())
    ensures In(toks[..j], parts[k]) == []
  {
    forall x | 0 <= x < j
      ensures !parts[k](toks[..j][x].Mid())
    {
      assert toks[..j][x].Mid() <= toks[j - 1].Mid();
    }
    NoneIn(toks[..j], parts[k]);
  }

  function Before(i: nat, x: int): int { if x == -1 then i else i - 1 }

  /** c can stand last in an alignment of the first i and j tokens, and what it costs is
      what its tokens add to the errors of the parts. */
  ghost predicate IsLastColumn(c: Pair, ref: seq<Token>, hyp: seq<Token>, parts: seq<Part>, i: nat, j: nat)
    requires i <= |ref| && j <= |hyp|
  {
    && c.A in {-1, i - 1} && c.B in {-1, j - 1} && c != Pair(-1, -1)
    && PairsWithin(c, ref, hyp, parts)
    && PartErrors(ref[..i], hyp[..j], parts)
       == PartErrors(ref[..Before(i, c.A)], hyp[..Before(j, c.B)], parts) + if Counts(c, ref, hyp, parts) then 1 else 0
  }

  lemma UnheldLast(ref: seq<Token>, hyp: seq<Token>, parts: seq<Part>, i: nat, j: nat)
    requires i <= |ref| && j <= |hyp| && Disjoint(parts)
    ensures i > 0 && !Held(parts, ref[i - 1].Mid()) ==> IsLastColumn(Pair(i - 1, -1), ref, hyp, parts, i, j)
    ensures j > 0 && !Held(parts, hyp[j - 1].Mid()) ==> IsLastColumn(Pair(-1, j - 1), ref, hyp, parts, i, j)
  {
    hide In, PartErrors, Held, Disjoint;
    if i > 0 && !Held(parts, ref[i - 1].Mid()) { LastTokensLeave(ref, hyp, i, j, i - 1, j, parts, |parts|); }
    if j > 0 && !Held(parts, hyp[j - 1].Mid()) { LastTokensLeave(ref, hyp, i, j, i, j - 1, parts, |parts|); }
  }

  lemma LoneLast(ref: seq<Token>, hyp: seq<Token>, parts: seq<Part>, i: nat, j: nat, k: nat)
    requires i <= |ref| && j <= |hyp| && Disjoint(parts) && k < |parts|
    ensures i > 0 && parts[k](ref[i - 1].Mid()) && In(hyp[..j], parts[k]) == [] ==> IsLastColumn(Pair(i - 1, -1), ref, hyp, parts, i, j)
    ensures j > 0 && parts[k](hyp[j - 1].Mid()) && In(ref[..i], parts[k]) == [] ==> IsLastColumn(Pair(-1, j - 1), ref, hyp, parts, i, j)
  {
    hide In, PartErrors, Disjoint, Lev;
    if i > 0 && parts[k](ref[i - 1].Mid()) && In(hyp[..j], parts[k]) == [] {
      LastTokensLeave(ref, hyp, i, j, i - 1, j, parts, k);
      InPrefix(ref, i, parts[k]);
      LevLast(In(ref[..i - 1], parts[k]), ref[i - 1].norm, [], "");
      assert Held(parts, ref[i - 1].Mid());
    }
    if j > 0 && parts[k](hyp[j - 1].Mid()) && In(ref[..i], parts[k]) == [] {
      LastTokensLeave(ref, hyp, i, j, i, j - 1, parts, k);
      InPrefix(hyp, j, parts[k]);
      LevLast([], "", In(hyp[..j - 1], parts[k]), hyp[j - 1].norm);
      assert Held(parts, hyp[j - 1].Mid());
    }
  }

  lemma PairedLast(ref: seq<Token>, hyp: seq<Token>, parts: seq<Part>, i: nat, j: nat, k: nat) returns (c: Pair)
    requires 0 < i <= |ref| && 0 < j <= |hyp| && Disjoint(parts) && k < |parts|
    requires parts[k](ref[i - 1].Mid()) && parts[k](hyp[j - 1].Mid())
    ensures IsLastColumn(c, ref, hyp, parts, i, j)
  {
    hide In, PartErrors, Lev;
    var r, h := In(ref[..i - 1], parts[k]), In(hyp[..j - 1], parts[k]);
    var a, b := ref[i - 1].norm, hyp[j - 1].norm;
    InPrefix(ref, i, parts[k]);
    InPrefix(hyp, j, parts[k]);
    LevLast(r, a, h, b);
    assert Held(parts, ref[i - 1].Mid()) && Held(parts, hyp[j - 1].Mid());
    if Lev(r + [a], h + [b]) == Lev(r + [a], h) + 1 {
      c := Pair(-1, j - 1);
      LastTokensLeave(ref, hyp, i, j, i, j - 1, parts, k);
    } else if Lev(r + [a], h + [b]) == Lev(r, h + [b]) + 1 {
      c := Pair(i - 1, -1);
      LastTokensLeave(ref, hyp, i, j, i - 1, j, parts, k);
    } else {
      c := Pair(i - 1, j - 1);
      LastTokensLeave(ref, hyp, i, j, i - 1, j - 1, parts, k);
    }
  }

  lemma LastColumn(ref: seq<Token>, hyp: seq<Token>, parts: seq<Part>, i: nat, j: nat) returns (c: Pair)
    requires i <= |ref| && j <= |hyp| && i + j > 0 && InTime(parts) && MidsNondecreasing(ref) && MidsNondecreasing(hyp)
    ensures IsLastColumn(c, ref, hyp, parts, i, j)
  {
    hide In, PartErrors, IsLastColumn, InTime, Disjoint, MidsNondecreasing;
    InTimeIsDisjoint(parts);
    UnheldLast(ref, hyp, parts, i, j);
    if i > 0 && !Held(parts, ref[i - 1].Mid()) { return Pair(i - 1, -1); }
    if j > 0 && !Held(parts, hyp[j - 1].Mid()) { return Pair(-1, j - 1); }
    if j == 0 {
      var k :| 0 <= k < |parts| && parts[k](ref[i - 1].Mid());
      NoneIn(hyp[..j], parts[k]);
      LoneLast(ref, hyp, parts, i, j, k);
      return Pair(i - 1, -1);
    }
    var l :| 0 <= l < |parts| && parts[l](hyp[j - 1].Mid());
    if i == 0 {
      NoneIn(ref[..i], parts[l]);
      LoneLast(ref, hyp, parts, i, j, l);
      return Pair(-1, j - 1);
    }
    var k :| 0 <= k < |parts| && parts[k](ref[i - 1].Mid());
    if k == l {
      c := PairedLast(ref, hyp, parts, i, j, k);
    } else if l < k {
      LaterStandsAlone(hyp, j, parts, k, l);
      LoneLast(ref, hyp, parts, i, j, k);
      c := Pair(i - 1, -1);
    } else {
      LaterStandsAlone(ref, i, parts, l, k);
      LoneLast(ref, hyp, parts, i, j, l);
      c := Pair(-1, j - 1);
    }
  }

  /** ... and when time never runs backwards on either side, one attains it. */
  lemma {:induction false} SomeAlignmentCosts(ref: seq<Token>, hyp: seq<Token>, parts: seq<Part>, i: nat, j: nat) returns (cols: seq<Pair>)
    requires i <= |ref| && j <= |hyp| && InTime(parts) && MidsNondecreasing(ref) && MidsNondecreasing(hyp)
    ensures Tiles(cols, i, j) && StaysWithin(cols, ref, hyp, parts)
    ensures PartCost(cols, ref, hyp, parts) == PartErrors(ref[..i], hyp[..j], parts)
    decreases i + j
  {
    hide PartErrors, InTime, MidsNondecreasing, Counts, PairsWithin, Tiles;
    if i == 0 && j == 0 {
      NothingToCompare(parts);
      EmptyTiling();
      return [];
    }
    var c := LastColumn(ref, hyp, parts, i, j);
    var init := SomeAlignmentCosts(ref, hyp, parts, Before(i, c.A), Before(j, c.B));
    cols := init + [c];
    TilesSnoc(init, Before(i, c.A), Before(j, c.B), c);
    assert cols[..|init|] == init;
  }

  lemma EmptyTiling()
    ensures Tiles([], 0, 0)
  {
  }

  /** errors is the least cost of an alignment that stays within the parts: no such
      alignment costs less and, when time never runs backwards on either side, one costs
      just that. Columns count when a part holds a token of theirs. */
  ghost predicate IsLeastWithin(errors: nat, ref: seq<Token>, hyp: seq<Token>, parts: seq<Part>)
  {
    && (forall cols :: Tiles(cols, |ref|, |hyp|) && StaysWithin(cols, ref, hyp, parts) ==> errors <= PartCost(cols, ref, hyp, parts))
    && (MidsNondecreasing(ref) && MidsNondecreasing(hyp) ==>
          exists cols :: Tiles(cols, |ref|, |hyp|) && StaysWithin(cols, ref, hyp, parts) && errors == PartCost(cols, ref, hyp, parts))
  }

  /** Comparing part by part finds the least number of errors any alignment within the
      parts has; a track compared with itself has none. */
  lemma PartErrorsIsLeast(ref: seq<Token>, hyp: seq<Token>, parts: seq<Part>)
    requires InTime(parts)
    ensures IsLeastWithin(PartErrors(ref, hyp, parts), ref, hyp, parts)
    ensures ref == hyp ==> PartErrors(ref, hyp, parts) == 0
  {
    hide Tiles, PartErrors, PartCost, InTime, StaysWithin, MidsNondecreasing;
    InTimeIsDisjoint(parts);
    assert ref[..|ref|] == ref && hyp[..|hyp|] == hyp;
    forall cols | Tiles(cols, |ref|, |hyp|) && StaysWithin(cols, ref, hyp, parts)
      ensures PartErrors(ref, hyp, parts) <= PartCost(cols, ref, hyp, parts)
    {
      PartsCostAtLeast(cols, ref, hyp, parts, |ref|, |hyp|);
    }
    if MidsNondecreasing(ref) && MidsNondecreasing(hyp) {
      var cols := SomeAlignmentCosts(ref, hyp, parts, |ref|, |hyp|);
    }
    if ref == hyp { NoErrorsAgainstItself(ref, parts); }
  }

  lemma {:induction false} NoErrorsAgainstItself(toks: seq<Token>, parts: seq<Part>)
    ensures PartErrors(toks, toks, parts) == 0
  {
    if parts != [] {
      NoErrorsAgainstItself(toks, parts[..|parts| - 1]);
      var said := In(toks, parts[|parts| - 1]);
      LevIsMetric(said, said, said);
    }
  }

  // ---- The whole track -----------------------------------------------------

  ghost function Windows(cuts: seq<real>): seq<Part>
  {
    seq(|cuts| + 1, k requires 0 <= k => Window(cuts, k))
  }

  lemma WindowsInTime(cuts: seq<real>)
    requires Ascending(cuts)
    ensures InTime(Windows(cuts))
  {
    assert forall p, q :: 0 <= p <= q < |cuts| ==> cuts[p] <= cuts[q];
    forall k, l, t, t' | 0 <= k < l < |Windows(cuts)| && Windows(cuts)[k](t) && Windows(cuts)[l](t')
      ensures t < t'
    {
      assert InWindow(cuts, k, t) && InWindow(cuts, l, t');
      assert cuts[k] <= cuts[l - 1];
    }
  }

  /** Every time is in a window, so every column counts. */
  lemma {:induction false} WindowsCountAll(cols: seq<Pair>, ref: seq<Token>, hyp: seq<Token>, cuts: seq<real>, i: nat, j: nat)
    requires Ascending(cuts) && Tiles(cols, i, j) && i <= |ref| && j <= |hyp|
    ensures PartCost(cols, ref, hyp, Windows(cuts)) == Cost(cols, Norms(ref), Norms(hyp))
  {
    hide Windows;
    if cols != [] {
      var c, init := cols[|cols| - 1], cols[..|cols| - 1];
      WindowsCountAll(init, ref, hyp, cuts, Before(i, c.A), Before(j, c.B));
      assert cols == init + [c];
      CostSnoc(init, Norms(ref), Norms(hyp), c);
      if c.A != -1 { SomeWindowHolds(cuts, ref[c.A].Mid()); } else { SomeWindowHolds(cuts, hyp[c.B].Mid()); }
    }
  }

  lemma SomeWindowHolds(cuts: seq<real>, t: real)
    requires Ascending(cuts)
    ensures Held(Windows(cuts), t)
  {
    var w := SomeWindow(cuts, t);
    assert Windows(cuts)[w](t);
  }

  /** The windows 0 .. k: their errors bound the distance of the joined texts from above. */
  lemma {:induction false} WindowedBoundsJoined(ref: seq<Token>, hyp: seq<Token>, cuts: seq<real>, k: nat)
    requires k <= |cuts| + 1
    ensures var errors, r, h := PartErrors(ref, hyp, Windows(cuts)[..k]), Joined(ref, cuts, k), Joined(hyp, cuts, k);
            Lev(r, h) <= errors <= |r| + |h|
  {
    hide Dist, In;
    if k > 0 {
      WindowedBoundsJoined(ref, hyp, cuts, k - 1);
      PartErrorsSnoc(ref, hyp, Windows(cuts), k);
      var r, h := Bucket(ref, cuts, k - 1), Bucket(hyp, cuts, k - 1);
      LevSubadditive(Joined(ref, cuts, k - 1), Joined(hyp, cuts, k - 1), r, h);
      LevIsMetric(r, h, h);
    } else {
      var none: seq<string> := [];
      LevIsMetric(none, none, none);
    }
  }

  lemma PartErrorsSnoc(ref: seq<Token>, hyp: seq<Token>, parts: seq<Part>, k: nat)
    requires 0 < k <= |parts|
    ensures PartErrors(ref, hyp, parts[..k]) == PartErrors(ref, hyp, parts[..k - 1]) + Lev(In(ref, parts[k - 1]), In(hyp, parts[k - 1]))
  {
    hide In, Lev;
    assert parts[..k][..k - 1] == parts[..k - 1];
  }

  lemma NothingWindowed(ref: seq<Token>, hyp: seq<Token>, cuts: seq<real>)
    ensures PartErrors(ref, hyp, Windows(cuts)[..0]) == 0 && Joined(ref, cuts, 0) == Joined(hyp, cuts, 0) == []
  {
  }

  /** Without a cut the window is the whole track, and short tracks have none. */
  lemma OneWindow(ref: seq<Token>, hyp: seq<Token>, cuts: seq<real>, at: seq<int>)
    ensures cuts == [] ==> PartErrors(ref, hyp, Windows(cuts)) == Lev(Norms(ref), Norms(hyp))
    ensures CutsAt(ref, cuts, at) && |ref| <= COMPARE_WINDOW_WORDS ==> cuts == []
  {
    hide Lev;
    if cuts == [] {
      AllInOne(ref);
      AllInOne(hyp);
      assert Windows(cuts)[..0] == [] && Windows(cuts)[..1] == Windows(cuts);
      PartErrorsSnoc(ref, hyp, Windows(cuts), 1);
    }
    if CutsAt(ref, cuts, at) && cuts != [] { assert FirstDue(ref, cuts, at, 0); }
  }

  lemma {:induction false} AllInOne(toks: seq<Token>)
    ensures In(toks, Windows([])[0]) == Norms(toks)
  {
    if toks != [] {
      var init := toks[..|toks| - 1];
      AllInOne(init);
      assert InWindow([], 0, toks[|toks| - 1].Mid());
      assert Norms(toks) == Norms(init) + [toks[|toks| - 1].norm];
    }
  }

  /** errors is the least cost of an alignment of the two tracks that pairs no token with
      one of another window. */
  ghost predicate IsLeastWindowed(errors: nat, ref: seq<Token>, hyp: seq<Token>, cuts: seq<real>)
  {
    && (forall cols :: Tiles(cols, |ref|, |hyp|) && StaysWithin(cols, ref, hyp, Windows(cuts)) ==> errors <= Cost(cols, Norms(ref), Norms(hyp)))
    && (MidsNondecreasing(ref) && MidsNondecreasing(hyp) ==>
          exists cols :: Tiles(cols, |ref|, |hyp|) && StaysWithin(cols, ref, hyp, Windows(cuts)) && errors == Cost(cols, Norms(ref), Norms(hyp)))
  }

  lemma WindowedIsLeast(ref: seq<Token>, hyp: seq<Token>, cuts: seq<real>)
    requires Ascending(cuts)
    ensures IsLeastWindowed(PartErrors(ref, hyp, Windows(cuts)), ref, hyp, cuts)
    ensures ref == hyp ==> PartErrors(ref, hyp, Windows(cuts)) == 0
  {
    hide Tiles, PartErrors, PartCost, Windows, StaysWithin, MidsNondecreasing, Cost;
    WindowsInTime(cuts);
    PartErrorsIsLeast(ref, hyp, Windows(cuts));
    forall cols | Tiles(cols, |ref|, |hyp|)
      ensures PartCost(cols, ref, hyp, Windows(cuts)) == Cost(cols, Norms(ref), Norms(hyp))
    {
      WindowsCountAll(cols, ref, hyp, cuts, |ref|, |hyp|);
    }
  }

  /** The whole-track comparison counts every token of both sides once. Its errors are the
      least any alignment within the windows has: none against itself, those of the whole
      tracks when there is one window, and never fewer than those of the whole tracks when
      time never runs backwards on either side. */
  method CompareFull(ref: seq<Token>, hyp: seq<Token>) returns (c: Comparison, ghost cuts: seq<real>, ghost at: seq<int>)
    ensures Ascending(cuts) && CutsAt(ref, cuts, at)
    ensures c.refWords == |ref| && c.hypWords == |hyp|
    ensures IsLeastWindowed(c.errors, ref, hyp, cuts)
    ensures ref == hyp ==> c.errors == 0
    ensures cuts == [] ==> c.errors == Lev(Norms(ref), Norms(hyp))
    ensures |ref| <= COMPARE_WINDOW_WORDS ==> cuts == []
    ensures |ref| - |hyp| <= c.errors && |hyp| - |ref| <= c.errors <= |ref| + |hyp|
    ensures MidsNondecreasing(ref) && MidsNondecreasing(hyp) ==> Lev(Norms(ref), Norms(hyp)) <= c.errors
  {
    hide Dist, Lev, In, Joined, Ascending, CutsAt, NoCutDue, PartErrors, IsLeastWindowed, MidsNondecreasing;
    var cs;
    cs, at := WindowCuts(ref);
    cuts := cs;
    var rw := ByWindow(ref, cs);
    var hw := ByWindow(hyp, cs);
    c := Comparison(0, 0, 0);
    NothingWindowed(ref, hyp, cs);
    for k := 0 to |rw|
      invariant c.errors == PartErrors(ref, hyp, Windows(cs)[..k])
      invariant c.refWords == |Joined(ref, cs, k)| && c.hypWords == |Joined(hyp, cs, k)|
    {
      var e := WordErrors(rw[k], hw[k]);
      PartErrorsSnoc(ref, hyp, Windows(cs), k + 1);
      JoinedGrows(ref, cs, k);
      JoinedGrows(hyp, cs, k);
      c := c.Add(Comparison(e, |rw[k]|, |hw[k]|));
    }
    var n := |cs| + 1;
    assert Windows(cs)[..n] == Windows(cs);
    WindowedBoundsJoined(ref, hyp, cs, n);
    WindowsPartition(ref, cs);
    WindowsPartition(hyp, cs);
    LevIsMetric(Joined(ref, cs, n), Joined(hyp, cs, n), []);
    WindowedIsLeast(ref, hyp, cs);
    OneWindow(ref, hyp, cs, at);
  }

  lemma JoinedGrows(toks: seq<Token>, cuts: seq<real>, k: nat)
    ensures Joined(toks, cuts, k + 1) == Joined(toks, cuts, k) + Bucket(toks, cuts, k)
  {
  }

  // ---- Partial coverage ----------------------------------------------------

  function Span(iv: Interval): Part { t => iv.start <= t <= iv.end }

  ghost function Spans(ivs: seq<Interval>): seq<Part>
  {
    seq(|ivs|, k requires 0 <= k < |ivs| => Span(ivs[k]))
  }

  method Within(toks: seq<Token>, iv: Interval) returns (out: seq<string>)
    ensures out == In(toks, Span(iv))
  {
    out := [];
    for n := 0 to |toks|
      invariant out == In(toks[..n], Span(iv))
    {
      assert toks[..n + 1][..n] == toks[..n];
      var m := toks[n].Mid();
      if m >= iv.start && m <= iv.end {
        out := out + [toks[n].norm];
      }
    }
    assert toks[..|toks|] == toks;
  }

  /** Number of tokens whose midpoint the intervals cover. */
  ghost function CoveredTokens(toks: seq<Token>, ivs: seq<Interval>): nat
  {
    if toks == [] then 0
    else CoveredTokens(toks[..|toks| - 1], ivs) + (if Covers(ivs, toks[|toks| - 1].Mid()) then 1 else 0)
  }

  lemma {:induction false} CoveredSnoc(toks: seq<Token>, ivs: seq<Interval>, iv: Interval)
    requires Separated(ivs + [iv])
    ensures CoveredTokens(toks, ivs + [iv]) == CoveredTokens(toks, ivs) + |In(toks, Span(iv))|
  {
    if toks != [] {
      CoveredSnoc(toks[..|toks| - 1], ivs, iv);
      CoversSnoc(ivs, iv, toks[|toks| - 1].Mid());
    }
  }

  lemma SpansInTime(ivs: seq<Interval>)
    requires Separated(ivs)
    ensures InTime(Spans(ivs))
  {
    forall k, l, t, t' | 0 <= k < l < |Spans(ivs)| && Spans(ivs)[k](t) && Spans(ivs)[l](t')
      ensures t < t'
    {
      assert ivs[k].Has(t) && ivs[l].Has(t');
    }
  }

  /** Over separated intervals no token is counted twice: the words of each side are
      exactly the tokens whose midpoint is covered, and the errors are the least any
      alignment has that pairs no token of an interval with one outside it, counting only
      what is covered. */
  method ComparePartial(ref: seq<Token>, hyp: seq<Token>, ivs: seq<Interval>) returns (c: Comparison)
    requires Separated(ivs)
    ensures c.refWords == CoveredTokens(ref, ivs) && c.hypWords == CoveredTokens(hyp, ivs)
    ensures IsLeastWithin(c.errors, ref, hyp, Spans(ivs))
    ensures ref == hyp ==> c.errors == 0
    ensures c.refWords - c.hypWords <= c.errors && c.hypWords - c.refWords <= c.errors <= c.refWords + c.hypWords
  {
    hide Dist, Lev, In, PartErrors, IsLeastWithin;
    c := Comparison(0, 0, 0);
    NoneCovered(ref, hyp, ivs);
    NoneCovered(hyp, ref, ivs);
    for k := 0 to |ivs|
      invariant c.refWords == CoveredTokens(ref, ivs[..k]) && c.hypWords == CoveredTokens(hyp, ivs[..k])
      invariant c.errors == PartErrors(ref, hyp, Spans(ivs)[..k])
      invariant c.refWords - c.hypWords <= c.errors && c.hypWords - c.refWords <= c.errors <= c.refWords + c.hypWords
    {
      var r := Within(ref, ivs[k]);
      var h := Within(hyp, ivs[k]);
      var e := WordErrors(r, h);
      LevIsMetric(r, h, h);
      PartErrorsSnoc(ref, hyp, Spans(ivs), k + 1);
      assert ivs[..k + 1] == ivs[..k] + [ivs[k]];
      CoveredSnoc(ref, ivs[..k], ivs[k]);
      CoveredSnoc(hyp, ivs[..k], ivs[k]);
      c := c.Add(Comparison(e, |r|, |h|));
    }
    assert ivs[..|ivs|] == ivs && Spans(ivs)[..|ivs|] == Spans(ivs);
    SpansInTime(ivs);
    PartErrorsIsLeast(ref, hyp, Spans(ivs));
  }

  lemma {:induction false} NoneCovered(toks: seq<Token>, others: seq<Token>, ivs: seq<Interval>)
    ensures CoveredTokens(toks, ivs[..0]) == 0 && PartErrors(toks, others, Spans(ivs)[..0]) == 0
  {
    if toks != [] { NoneCovered(toks[..|toks| - 1], others, ivs); }
  }
}
