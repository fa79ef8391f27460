/** From timed words to sentence-sized segments, and re-segmenting what is stored. */
module Segmentation {
  import opened Optional
  import opened Selection
  import Texts

  datatype Word = Word(text: string, start: real, end: real, score: Option<real>, speaker: Option<string>)

  /** start and end are the least start and the greatest end of the words. */
  datatype Segment = Segment(id: nat, start: real, end: real, text: string, speaker: Option<string>, words: seq<Word>)

  /** rank is the order in which a set of speakers is walked: it breaks ties. */
  datatype Limits = Limits(gapSeconds: real, maxSeconds: real, maxWords: int, rank: string -> int)

  // ---- Normalising ---------------------------------------------------------

  predicate NotAfter(x: Word, y: Word)
  {
    x.start < y.start || (x.start == y.start && x.end <= y.end)
  }

  ghost predicate Ordered(ws: seq<Word>)
  {
    forall k, l :: 0 <= k < l < |ws| ==> NotAfter(ws[k], ws[l])
  }

  function InsertInOrder(ws: seq<Word>, x: Word): seq<Word>
  {
    if ws == [] || NotAfter(ws[|ws| - 1], x) then ws + [x]
    else InsertInOrder(ws[..|ws| - 1], x) + [ws[|ws| - 1]]
  }

  /** The stable sort by (start, end). */
  function SortWords(ws: seq<Word>): seq<Word>
  {
    if ws == [] then [] else InsertInOrder(SortWords(ws[..|ws| - 1]), ws[|ws| - 1])
  }

  lemma {:induction false} InsertKeepsOrder(ws: seq<Word>, x: Word)
    requires Ordered(ws)
    ensures var r := InsertInOrder(ws, x);
            && Ordered(r) && multiset(r) == multiset(ws) + multiset{x}
            && |r| == |ws| + 1
            && r[|r| - 1] == if ws == [] || NotAfter(ws[|ws| - 1], x) then x else ws[|ws| - 1]
  {
    hide Ordered;
    if !(ws == [] || NotAfter(ws[|ws| - 1], x)) {
      var init, last := ws[..|ws| - 1], ws[|ws| - 1];
      PrefixOrdered(ws);
      InsertKeepsOrder(init, x);
      assert ws == init + [last];
      SnocOrdered(InsertInOrder(init, x), last);
    } else {
      SnocOrdered(ws, x);
    }
  }

  lemma PrefixOrdered(ws: seq<Word>)
    requires Ordered(ws) && ws != []
    ensures var init, last := ws[..|ws| - 1], ws[|ws| - 1];
            Ordered(init) && (init != [] ==> NotAfter(init[|init| - 1], last))
  {
  }

  lemma SnocOrdered(ws: seq<Word>, x: Word)
    requires Ordered(ws) && (ws != [] ==> NotAfter(ws[|ws| - 1], x))
    ensures Ordered(ws + [x])
  {
    forall k | 0 <= k < |ws|
      ensures NotAfter(ws[k], x)
    {
      assert NotAfter(ws[k], ws[|ws| - 1]) || k == |ws| - 1;
    }
  }

  lemma {:induction false} SortedWords(ws: seq<Word>)
    ensures Ordered(SortWords(ws)) && multiset(SortWords(ws)) == multiset(ws)
  {
    hide Ordered, InsertInOrder;
    if ws == [] {
      NothingOrdered();
    } else {
      SortedWords(ws[..|ws| - 1]);
      InsertKeepsOrder(SortWords(ws[..|ws| - 1]), ws[|ws| - 1]);
      assert ws == ws[..|ws| - 1] + [ws[|ws| - 1]];
    }
  }

  lemma NothingOrdered()
    ensures Ordered([])
  {
  }

  lemma {:induction false} SortIsIdentityOnOrdered(ws: seq<Word>)
    requires Ordered(ws)
    ensures SortWords(ws) == ws
  {
    if ws != [] {
      SortIsIdentityOnOrdered(ws[..|ws| - 1]);
      assert ws == ws[..|ws| - 1] + [ws[|ws| - 1]];
    }
  }

  /** w repeats the word before it at an overlapping time. */
  predicate RepeatsPrevious(prev: Word, w: Word) { w.text == prev.text && w.start < prev.end }

  ghost function DropRepeats(ws: seq<Word>): seq<Word>
  {
    if ws == [] then []
    else
      var kept, w := DropRepeats(ws[..|ws| - 1]), ws[|ws| - 1];
      if kept != [] && RepeatsPrevious(kept[|kept| - 1], w) then kept else kept + [w]
  }

  ghost function Normalized(ws: seq<Word>): seq<Word> { DropRepeats(SortWords(ws)) }

  ghost predicate NoRepeats(ws: seq<Word>)
  {
    forall k :: 0 < k < |ws| ==> !RepeatsPrevious(ws[k - 1], ws[k])
  }

  lemma {:induction false} DroppedRepeats(ws: seq<Word>)
    requires Ordered(ws)
    ensures Ordered(DropRepeats(ws)) && NoRepeats(DropRepeats(ws))
    ensures forall w :: w in DropRepeats(ws) ==> w in ws
  {
    if ws != [] {
      var init, w := ws[..|ws| - 1], ws[|ws| - 1];
      DroppedRepeats(init);
      var kept := DropRepeats(init);
      assert forall k :: 0 <= k < |kept| ==> kept[k] in init;
      assert forall x :: x in init ==> NotAfter(x, w);
      if kept != [] { assert kept[|kept| - 1] in init; }
      SnocOrdered(kept, w);
    }
  }

  lemma {:induction false} OnlyRepeatsDropped(ws: seq<Word>)
    ensures forall w :: w in ws ==> w in DropRepeats(ws) || exists p :: p in DropRepeats(ws) && RepeatsPrevious(p, w)
  {
    if ws != [] {
      var init, last := ws[..|ws| - 1], ws[|ws| - 1];
      OnlyRepeatsDropped(init);
      var kept, all := DropRepeats(init), DropRepeats(ws);
      assert forall p :: p in kept ==> p in all;
      if last !in all { assert kept[|kept| - 1] in all && RepeatsPrevious(kept[|kept| - 1], last); }
      assert forall w :: w in ws ==> w in init || w == last;
    }
  }

  lemma {:induction false} DropIsIdentityWithoutRepeats(ws: seq<Word>)
    requires NoRepeats(ws)
    ensures DropRepeats(ws) == ws
  {
    if ws != [] {
      DropIsIdentityWithoutRepeats(ws[..|ws| - 1]);
      assert ws == ws[..|ws| - 1] + [ws[|ws| - 1]];
    }
  }

  /** The words at exactly these times, in order. */
  function WordsAt(ws: seq<Word>, start: real, end: real): seq<Word>
  {
    if ws == [] then []
    else
      var last := ws[|ws| - 1];
      WordsAt(ws[..|ws| - 1], start, end) + if last.start == start && last.end == end then [last] else []
  }

  lemma {:induction false} InsertIsStable(ws: seq<Word>, x: Word, start: real, end: real)
    ensures WordsAt(InsertInOrder(ws, x), start, end) == WordsAt(ws + [x], start, end)
  {
    hide WordsAt;
    if !(ws == [] || NotAfter(ws[|ws| - 1], x)) {
      var init, last := ws[..|ws| - 1], ws[|ws| - 1];
      InsertIsStable(init, x, start, end);
      assert ws == init + [last];
      WordsAtSnoc(InsertInOrder(init, x), last, start, end);
      WordsAtSnoc(init, x, start, end);
      WordsAtSnoc(init, last, start, end);
      WordsAtSnoc(ws, x, start, end);
    }
  }

  lemma WordsAtSnoc(ws: seq<Word>, x: Word, start: real, end: real)
    ensures WordsAt(ws + [x], start, end) == WordsAt(ws, start, end) + if x.start == start && x.end == end then [x] else []
  {
    assert (ws + [x])[..|ws|] == ws;
  }

  /** Sorting is stable: words at the same times keep their order. */
  lemma {:induction false} SortIsStable(ws: seq<Word>, start: real, end: real)
    ensures WordsAt(SortWords(ws), start, end) == WordsAt(ws, start, end)
  {
    hide InsertInOrder;
    if ws != [] {
      var init, x := ws[..|ws| - 1], ws[|ws| - 1];
      SortIsStable(init, start, end);
      InsertIsStable(SortWords(init), x, start, end);
      WordsAtSnoc(SortWords(init), x, start, end);
    }
  }

  /** sorted holds the words by start, then by end, then as given. */
  ghost predicate IsSortOf(sorted: seq<Word>, ws: seq<Word>)
  {
    && multiset(sorted) == multiset(ws)
    && (forall k, l :: 0 <= k < l < |sorted| ==>
          sorted[k].start < sorted[l].start || (sorted[k].start == sorted[l].start && sorted[k].end <= sorted[l].end))
    && (forall start, end :: WordsAt(sorted, start, end) == WordsAt(ws, start, end))
  }

  /** A word stays unless it says what the word kept before it says, and starts before
      that one ends. */
  ghost predicate Stays(kept: seq<Word>, w: Word)
  {
    kept != [] ==> w.text != kept[|kept| - 1].text || w.start >= kept[|kept| - 1].end
  }

  lemma {:induction false} DroppedSelects(ws: seq<Word>) returns (at: seq<nat>)
    ensures Selects(Stays, ws, at, DropRepeats(ws))
  {
    hide Selects;
    at := [];
    NothingSelected(Stays);
    if ws != [] {
      var init, w := ws[..|ws| - 1], ws[|ws| - 1];
      at := DroppedSelects(init);
      SelectsSnoc(Stays, init, at, DropRepeats(init), w);
      assert ws == init + [w];
      if Stays(DropRepeats(init), w) { at := at + [|init|]; }
    }
  }

  lemma OrderedByTime(ws: seq<Word>)
    requires Ordered(ws)
    ensures forall k, l :: 0 <= k < l < |ws| ==>
              ws[k].start < ws[l].start || (ws[k].start == ws[l].start && ws[k].end <= ws[l].end)
  {
  }

  /** What normalising is: the words by time, less those that repeat the word kept before
      them at an overlapping time. Nothing changes the second time. */
  lemma NormalizedIsNormal(ws: seq<Word>) returns (sorted: seq<Word>, at: seq<nat>)
    ensures IsSortOf(sorted, ws) && Selects(Stays, sorted, at, Normalized(ws))
    ensures Ordered(Normalized(ws)) && NoRepeats(Normalized(ws))
    ensures forall w :: w in Normalized(ws) ==> w in ws
    ensures forall w :: w in ws ==> w in Normalized(ws) || exists p :: p in Normalized(ws) && w.text == p.text && w.start < p.end
    ensures Normalized(Normalized(ws)) == Normalized(ws)
  {
    hide Ordered, NoRepeats, Selects, WordsAt, NotAfter, InsertInOrder;
    SortedWords(ws);
    DroppedRepeats(SortWords(ws));
    OnlyRepeatsDropped(SortWords(ws));
    assert forall w :: w in ws ==> w in multiset(ws);
    sorted := SortWords(ws);
    at := DroppedSelects(sorted);
    forall start, end
      ensures WordsAt(sorted, start, end) == WordsAt(ws, start, end)
    {
      SortIsStable(ws, start, end);
    }
    assert IsSortOf(sorted, ws) by { OrderedByTime(sorted); }
    SortIsIdentityOnOrdered(Normalized(ws));
    DropIsIdentityWithoutRepeats(Normalized(ws));
    assert forall w :: w in SortWords(ws) ==> w in multiset(SortWords(ws));
  }

  method NormalizeWords(words: seq<Word>) returns (out: seq<Word>)
    ensures out == Normalized(words)
  {
    var ordered := SortWords(words);
    out := [];
    for n := 0 to |ordered|
      invariant out == DropRepeats(ordered[..n])
    {
      assert ordered[..n + 1][..n] == ordered[..n];
      var w := ordered[n];
      if |out| > 0 {
        var prev := out[|out| - 1];
        if w.text == prev.text && w.start < prev.end { continue; }
      }
      out := out + [w];
    }
    assert ordered[..|ordered|] == ordered;
  }

  // ---- Grouping ------------------------------------------------------------

  predicate SpeakerChange(prev: Word, w: Word)
  {
    w.speaker.Some? && prev.speaker.Some? && w.speaker != prev.speaker
  }

  /** Whether w starts a new segment after the segment so far. */
  predicate Breaks(l: Limits, cur: seq<Word>, w: Word)
    requires cur != []
  {
    var prev := cur[|cur| - 1];
    || w.start - prev.end > l.gapSeconds
    || SpeakerChange(prev, w)
    || prev.end - cur[0].start >= l.maxSeconds
    || |cur| >= l.maxWords
  }

  ghost function Groups(l: Limits, ws: seq<Word>): (g: seq<seq<Word>>)
    ensures ws != [] ==> g != [] && g[|g| - 1] != []
  {
    if ws == [] then []
    else if |ws| == 1 then [ws]
    else
      var g, w := Groups(l, ws[..|ws| - 1]), ws[|ws| - 1];
      var cur := g[|g| - 1];
      if Breaks(l, cur, w) then g + [[w]] else g[..|g| - 1] + [cur + [w]]
  }

  function Joined(g: seq<seq<Word>>): seq<Word>
  {
    if g == [] then [] else Joined(g[..|g| - 1]) + g[|g| - 1]
  }

  /** No word but the first broke the segment. */
  ghost predicate Unbroken(l: Limits, g: seq<Word>)
  {
    g != [] && forall k :: 0 < k < |g| ==> !Breaks(l, g[..k], g[k])
  }

  ghost predicate BrokenAt(l: Limits, g: seq<seq<Word>>, k: nat)
  {
    0 < k < |g| && g[k - 1] != [] && g[k] != [] && Breaks(l, g[k - 1], g[k][0])
  }

  /** g splits ws into unbroken segments, each ended by a word that broke it. */
  ghost predicate IsGrouping(l: Limits, g: seq<seq<Word>>, ws: seq<Word>)
  {
    && Joined(g) == ws
    && (forall k :: 0 <= k < |g| ==> Unbroken(l, g[k]))
    && (forall k :: 0 < k < |g| ==> BrokenAt(l, g, k))
  }

  lemma GroupingStartsNew(l: Limits, g: seq<seq<Word>>, ws: seq<Word>, w: Word)
    requires IsGrouping(l, g, ws) && g != []
    requires g[|g| - 1] != [] && Breaks(l, g[|g| - 1], w)
    ensures IsGrouping(l, g + [[w]], ws + [w])
  {
    hide Breaks;
    var g' := g + [[w]];
    assert g'[..|g|] == g;
    forall k | 0 < k < |g'|
      ensures BrokenAt(l, g', k)
    {
      if k < |g| { assert BrokenAt(l, g, k); }
    }
  }

  lemma UnbrokenExtends(l: Limits, cur: seq<Word>, w: Word)
    requires Unbroken(l, cur) && !Breaks(l, cur, w)
    ensures Unbroken(l, cur + [w])
  {
    hide Breaks;
    forall k | 0 < k < |cur + [w]|
      ensures !Breaks(l, (cur + [w])[..k], (cur + [w])[k])
    {
      assert (cur + [w])[..k] == cur[..k];
      if k == |cur| { assert cur[..k] == cur; }
    }
  }

  lemma GroupingExtendsLast(l: Limits, closed: seq<seq<Word>>, cur: seq<Word>, ws: seq<Word>, w: Word)
    requires IsGrouping(l, closed + [cur], ws)
    requires cur != [] && !Breaks(l, cur, w)
    ensures IsGrouping(l, closed + [cur + [w]], ws + [w])
  {
    hide Breaks, Unbroken;
    var g, g' := closed + [cur], closed + [cur + [w]];
    assert g[..|closed|] == closed && g'[..|closed|] == closed;
    assert Unbroken(l, g[|closed|]);
    UnbrokenExtends(l, cur, w);
    forall k | 0 <= k < |g'|
      ensures Unbroken(l, g'[k])
    {
      assert k < |closed| ==> Unbroken(l, g[k]);
    }
    forall k | 0 < k < |g'|
      ensures BrokenAt(l, g', k)
    {
      assert BrokenAt(l, g, k);
      assert (cur + [w])[0] == cur[0];
    }
  }

  lemma {:induction false} GroupsPartition(l: Limits, ws: seq<Word>)
    ensures IsGrouping(l, Groups(l, ws), ws)
  {
    hide Breaks, IsGrouping;
    if |ws| <= 1 {
      FewWords(l, ws);
    } else {
      var init, w := ws[..|ws| - 1], ws[|ws| - 1];
      GroupsPartition(l, init);
      var g := Groups(l, init);
      var closed, cur := g[..|g| - 1], g[|g| - 1];
      assert ws == init + [w] && g == closed + [cur];
      if Breaks(l, cur, w) {
        GroupingStartsNew(l, g, init, w);
      } else {
        GroupingExtendsLast(l, closed, cur, init, w);
      }
    }
  }

  lemma FewWords(l: Limits, ws: seq<Word>)
    requires |ws| <= 1
    ensures IsGrouping(l, Groups(l, ws), ws)
  {
    assert Joined([ws]) == ws;
  }

  /** The next word, given the segments closed so far and the current one. */
  lemma GroupsSnoc(l: Limits, ws: seq<Word>, closed: seq<seq<Word>>, cur: seq<Word>, w: Word)
    requires ws != [] && Groups(l, ws) == closed + [cur] && cur != []
    ensures Groups(l, ws + [w]) == if Breaks(l, cur, w) then closed + [cur] + [[w]] else closed + [cur + [w]]
  {
    assert (ws + [w])[..|ws|] == ws;
  }

  // ---- Segments ------------------------------------------------------------

  /** Least start and greatest end, as the source takes them. */
  function MinStart(ws: seq<Word>): real
    requires ws != []
  {
    if |ws| == 1 then ws[0].start
    else
      var m := MinStart(ws[..|ws| - 1]);
      if ws[|ws| - 1].start < m then ws[|ws| - 1].start else m
  }

  function MaxEnd(ws: seq<Word>): real
    requires ws != []
  {
    if |ws| == 1 then ws[0].end
    else
      var m := MaxEnd(ws[..|ws| - 1]);
      if ws[|ws| - 1].end > m then ws[|ws| - 1].end else m
  }

  function TextsOf(ws: seq<Word>): seq<string>
  {
    seq(|ws|, k requires 0 <= k < |ws| => ws[k].text)
  }

  function TextOf(ws: seq<Word>): string { Texts.Strip(Texts.Joined(TextsOf(ws))) }

  /** The speakers the words name, word by word. */
  function Named(ws: seq<Word>): seq<string>
  {
    if ws == [] then []
    else
      var last := ws[|ws| - 1].speaker;
      Named(ws[..|ws| - 1]) + (if last.Some? && last.value != "" then [last.value] else [])
  }

  function Count(names: seq<string>, x: string): nat
  {
    if names == [] then 0 else Count(names[..|names| - 1], x) + if names[|names| - 1] == x then 1 else 0
  }

  /** The most frequent of the first n names, the one walked first among equals. */
  function Best(l: Limits, names: seq<string>, n: nat): (b: string)
    requires 0 < n <= |names|
    ensures b in names[..n]
    ensures forall x :: x in names[..n] ==> Count(names, x) < Count(names, b) || (Count(names, x) == Count(names, b) && l.rank(b) <= l.rank(x))
  {
    var x := names[n - 1];
    assert names[..n] == names[..n - 1] + [x];
    if n == 1 then x
    else
      var b := Best(l, names, n - 1);
      if Count(names, x) > Count(names, b) || (Count(names, x) == Count(names, b) && l.rank(x) < l.rank(b)) then x else b
  }

  function MainSpeaker(l: Limits, ws: seq<Word>): Option<string>
  {
    var names := Named(ws);
    if names == [] then None else Some(Best(l, names, |names|))
  }

  /** A segment's speaker is one its words name, and no other is named more often. */
  lemma MainSpeakerIsMostNamed(l: Limits, ws: seq<Word>)
    ensures MainSpeaker(l, ws).None? <==> Named(ws) == []
    ensures MainSpeaker(l, ws).Some? ==>
      && MainSpeaker(l, ws).value in Named(ws)
      && forall x :: x in Named(ws) ==> Count(Named(ws), x) <= Count(Named(ws), MainSpeaker(l, ws).value)
  {
    var names := Named(ws);
    assert names[..|names|] == names;
  }

  function Flush(l: Limits, idx: nat, ws: seq<Word>): Segment
    requires ws != []
  {
    Segment(idx, MinStart(ws), MaxEnd(ws), TextOf(ws), MainSpeaker(l, ws), ws)
  }

  ghost function Flushed(l: Limits, g: seq<seq<Word>>): (s: seq<Segment>)
    requires AllNonempty(g)
    ensures |s| == |g|
  {
    if g == [] then []
    else Flushed(l, g[..|g| - 1]) + [Flush(l, |g| - 1, g[|g| - 1])]
  }

  ghost predicate AllNonempty(g: seq<seq<Word>>) { forall k :: 0 <= k < |g| ==> g[k] != [] }

  lemma NonemptyGroups(l: Limits, g: seq<seq<Word>>, ws: seq<Word>)
    requires IsGrouping(l, g, ws)
    ensures AllNonempty(g)
  {
    assert forall k :: 0 <= k < |g| ==> Unbroken(l, g[k]);
  }

  lemma FlushedSnoc(l: Limits, g: seq<seq<Word>>, ws: seq<Word>)
    requires AllNonempty(g) && ws != []
    ensures AllNonempty(g + [ws]) && Flushed(l, g + [ws]) == Flushed(l, g) + [Flush(l, |g|, ws)]
  {
    hide Flush;
    assert (g + [ws])[..|g|] == g;
  }

  ghost function Segments(l: Limits, words: seq<Word>): seq<Segment>
  {
    var g := Groups(l, Normalized(words));
    GroupsPartition(l, Normalized(words));
    NonemptyGroups(l, g, Normalized(words));
    Flushed(l, g)
  }

  /** The words stored in a list of segments, in order. */
  function StoredWords(segs: seq<Segment>): seq<Word>
  {
    if segs == [] then [] else StoredWords(segs[..|segs| - 1]) + segs[|segs| - 1].words
  }

  method WordsToSegments(l: Limits, words0: seq<Word>) returns (segments: seq<Segment>)
    ensures segments == Segments(l, words0)
  {
    hide Breaks, Groups, Flushed, IsGrouping, Flush, Normalized, SpeakerChange;
    NormalizeEmpty(l);
    if |words0| == 0 {
      return [];
    }
    var words := NormalizeWords(words0);
    if |words| == 0 {
      return [];
    }
    segments := [];
    var current := [words[0]];
    ghost var closed: seq<seq<Word>> := [];
    FirstWord(l, words);
    for i := 1 to |words|
      invariant current != [] && AllNonempty(closed)
      invariant current[|current| - 1] == words[i - 1]
      invariant Groups(l, words[..i]) == closed + [current]
      invariant segments == Flushed(l, closed)
    {
      assert words[..i + 1] == words[..i] + [words[i]];
      var prev, curr := words[i - 1], words[i];
      var gap := curr.start - prev.end;
      var segDuration := prev.end - current[0].start;
      var overCap := segDuration >= l.maxSeconds || |current| >= l.maxWords;
      var split := gap > l.gapSeconds || SpeakerChange(prev, curr) || overCap;
      BreaksIs(l, current, curr, split);
      GroupsSnoc(l, words[..i], closed, current, curr);
      if split {
        FlushedSnoc(l, closed, current);
        segments := segments + [Flush(l, |segments|, current)];
        closed := closed + [current];
        current := [curr];
      } else {
        current := current + [curr];
      }
    }
    assert words[..|words|] == words;
    FlushedSnoc(l, closed, current);
    segments := segments + [Flush(l, |segments|, current)];
  }

  lemma FirstWord(l: Limits, ws: seq<Word>)
    requires ws != []
    ensures Groups(l, ws[..1]) == [[ws[0]]] && AllNonempty([]) && Flushed(l, []) == []
  {
    assert ws[..1] == [ws[0]];
  }

  lemma BreaksIs(l: Limits, cur: seq<Word>, w: Word, split: bool)
    requires cur != []
    requires var prev := cur[|cur| - 1];
      split == (w.start - prev.end > l.gapSeconds || SpeakerChange(prev, w) || prev.end - cur[0].start >= l.maxSeconds || |cur| >= l.maxWords)
    ensures split == Breaks(l, cur, w)
  {
  }

  lemma NormalizeEmpty(l: Limits)
    ensures Segments(l, []) == [] && Flushed(l, []) == [] && Groups(l, []) == []
  {
  }

  /** Re-derives segments from the stored words of existing ones. */
  method ResegmentExisting(l: Limits, segs: seq<Segment>) returns (out: seq<Segment>)
    ensures out == Segments(l, StoredWords(segs))
  {
    var words := [];
    for n := 0 to |segs|
      invariant words == StoredWords(segs[..n])
    {
      assert segs[..n + 1][..n] == segs[..n];
      words := words + segs[n].words;
    }
    assert segs[..|segs|] == segs;
    out := WordsToSegments(l, words);
  }

  // ---- What segments promise -----------------------------------------------

  /** Word k does not break the segment ws. */
  ghost predicate Follows(l: Limits, ws: seq<Word>, k: nat)
  {
    && 0 < k < |ws|
    && ws[k].start - ws[k - 1].end <= l.gapSeconds
    && (ws[k - 1].speaker == None || ws[k].speaker == None || ws[k].speaker == ws[k - 1].speaker)
    && ws[k - 1].end - ws[0].start < l.maxSeconds
  }

  /** One segment against its limits. */
  ghost predicate Fits(l: Limits, s: Segment)
  {
    && s.words != []
    && (|s.words| <= l.maxWords || |s.words| == 1)
    && (forall k :: 0 < k < |s.words| ==> Follows(l, s.words, k))
    && s.start == s.words[0].start
    && (forall w :: w in s.words ==> s.start <= w.start && w.end <= s.end)
    && (exists w :: w in s.words && w.end == s.end)
  }

  lemma {:induction false} BoundsOfWords(ws: seq<Word>)
    requires ws != []
    ensures forall w :: w in ws ==> MinStart(ws) <= w.start && w.end <= MaxEnd(ws)
    ensures exists w :: w in ws && w.start == MinStart(ws)
    ensures exists w :: w in ws && w.end == MaxEnd(ws)
  {
    if |ws| > 1 {
      var init, last := ws[..|ws| - 1], ws[|ws| - 1];
      BoundsOfWords(init);
      assert ws == init + [last];
      assert last in ws && forall w :: w in init ==> w in ws;
    } else {
      assert ws[0] in ws;
    }
  }

  lemma UnbrokenFits(l: Limits, idx: nat, g: seq<Word>)
    requires Unbroken(l, g) && Ordered(g)
    ensures Fits(l, Flush(l, idx, g))
  {
    BoundsOfWords(g);
    forall k | 0 < k < |g|
      ensures Follows(l, g, k)
    {
      assert !Breaks(l, g[..k], g[k]);
      assert g[..k][k - 1] == g[k - 1];
    }
    if |g| > 1 { assert !Breaks(l, g[..|g| - 1], g[|g| - 1]); }
    assert MinStart(g) == g[0].start by {
      var w :| w in g && w.start == MinStart(g);
      assert g[0] in g && (w == g[0] || NotAfter(g[0], w));
    }
  }

  lemma {:induction false} FlushedAt(l: Limits, g: seq<seq<Word>>, k: nat)
    requires AllNonempty(g) && k < |g|
    ensures Flushed(l, g)[k] == Flush(l, k, g[k])
  {
    if k < |g| - 1 { FlushedAt(l, g[..|g| - 1], k); }
  }

  lemma {:induction false} StoredInFlushed(l: Limits, g: seq<seq<Word>>)
    requires AllNonempty(g)
    ensures StoredWords(Flushed(l, g)) == Joined(g)
  {
    if g != [] {
      StoredInFlushed(l, g[..|g| - 1]);
      assert Flushed(l, g)[..|g| - 1] == Flushed(l, g[..|g| - 1]);
    }
  }

  /** Where group k sits in the joined words. */
  lemma {:induction false} GroupInJoined(g: seq<seq<Word>>, k: nat) returns (at: nat)
    requires k < |g|
    ensures at + |g[k]| <= |Joined(g)| && Joined(g)[at..at + |g[k]|] == g[k]
    ensures k == |g| - 1 ==> at + |g[k]| == |Joined(g)|
    ensures k + 1 < |g| && g[k + 1] != [] ==> at + |g[k]| < |Joined(g)| && Joined(g)[at + |g[k]|] == g[k + 1][0]
  {
    var init := g[..|g| - 1];
    if k == |g| - 1 {
      at := |Joined(init)|;
    } else {
      at := GroupInJoined(init, k);
      assert Joined(g) == Joined(init) + g[|g| - 1];
      assert Joined(g)[at..at + |g[k]|] == Joined(init)[at..at + |g[k]|];
    }
  }

  lemma {:induction false} StartsInOrder(g: seq<seq<Word>>, j: nat, k: nat)
    requires Ordered(Joined(g)) && j < k < |g|
    requires AllNonempty(g)
    ensures g[j][0].start <= g[k][0].start
    decreases k - j
  {
    if j + 1 < k {
      StartsInOrder(g, j, k - 1);
      StartsInOrder(g, k - 1, k);
    } else {
      var at := GroupInJoined(g, j);
      assert g[j][0] == Joined(g)[at];
    }
  }

  ghost predicate KeepLimits(l: Limits, segs: seq<Segment>)
  {
    && (forall k :: 0 <= k < |segs| ==> Fits(l, segs[k]) && segs[k].id == k)
    && (forall j, k :: 0 <= j < k < |segs| ==> segs[j].start <= segs[k].start)
  }

  lemma FlushedKeepLimits(l: Limits, g: seq<seq<Word>>, ws: seq<Word>)
    requires IsGrouping(l, g, ws) && Ordered(ws) && AllNonempty(g)
    ensures KeepLimits(l, Flushed(l, g))
  {
    hide Fits, BrokenAt, Unbroken, Flushed, Joined, AllNonempty, Ordered;
    var segs := Flushed(l, g);
    forall k | 0 <= k < |segs|
      ensures Fits(l, segs[k]) && segs[k].id == k && segs[k].words == g[k]
    {
      FlushedAt(l, g, k);
      GroupIsOrdered(g, k);
      UnbrokenFits(l, k, g[k]);
    }
    forall j, k | 0 <= j < k < |segs|
      ensures segs[j].start <= segs[k].start
    {
      StartsInOrder(g, j, k);
      FitsStart(l, segs[j]);
      FitsStart(l, segs[k]);
    }
  }

  /** The segments hold exactly the normalised words, in order and once each; every
      segment keeps its limits; ids count up; starts never go back. */
  lemma SegmentsKeepLimits(l: Limits, words: seq<Word>)
    ensures StoredWords(Segments(l, words)) == Normalized(words)
    ensures KeepLimits(l, Segments(l, words))
  {
    hide IsGrouping, Groups, Normalized, KeepLimits, Flushed;
    var ws := Normalized(words);
    var _, _ := NormalizedIsNormal(words);
    GroupsPartition(l, ws);
    NonemptyGroups(l, Groups(l, ws), ws);
    FlushedKeepLimits(l, Groups(l, ws), ws);
    StoredInFlushed(l, Groups(l, ws));
    GroupingJoins(l, Groups(l, ws), ws);
  }

  lemma GroupingJoins(l: Limits, g: seq<seq<Word>>, ws: seq<Word>)
    requires IsGrouping(l, g, ws)
    ensures Joined(g) == ws
  {
  }

  /** A segment never ends early: the first word of the next one comes after too long a
      gap, or from another speaker, or the segment was full. */
  lemma SegmentsEndOnlyWhenBroken(l: Limits, words: seq<Word>, k: nat)
    requires 0 < k < |Segments(l, words)|
    ensures var a, b := Segments(l, words)[k - 1].words, Segments(l, words)[k].words;
            && a != [] && b != []
            && var last, next := a[|a| - 1], b[0];
               || next.start - last.end > l.gapSeconds
               || (last.speaker.Some? && next.speaker.Some? && last.speaker != next.speaker)
               || last.end - a[0].start >= l.maxSeconds
               || |a| >= l.maxWords
  {
    hide Groups, Normalized, Flushed;
    var g := Groups(l, Normalized(words));
    GroupsPartition(l, Normalized(words));
    NonemptyGroups(l, g, Normalized(words));
    FlushedAt(l, g, k - 1);
    FlushedAt(l, g, k);
    assert BrokenAt(l, g, k);
  }

  /** How many of the words name x. */
  ghost function Naming(ws: seq<Word>, x: string): nat { |set k | 0 <= k < |ws| && ws[k].speaker == Some(x)| }

  /** What the words say, one after another. */
  function Said(ws: seq<Word>): seq<string>
  {
    if ws == [] then [] else Said(ws[..|ws| - 1]) + Texts.Split(ws[|ws| - 1].text)
  }

  lemma {:induction false} TextsSaySo(ws: seq<Word>)
    ensures Texts.SplitAll(TextsOf(ws)) == Said(ws)
  {
    hide Texts.Split;
    if ws != [] {
      TextsSaySo(ws[..|ws| - 1]);
      assert TextsOf(ws)[..|ws| - 1] == TextsOf(ws[..|ws| - 1]);
    }
  }

  predicate NamesNobody(w: Word) { w.speaker.None? || w.speaker.value == "" }

  lemma NamingSnoc(ws: seq<Word>, w: Word, x: string)
    ensures Naming(ws + [w], x) == Naming(ws, x) + if w.speaker == Some(x) then 1 else 0
  {
    var all, n := ws + [w], |ws|;
    var before := set k | 0 <= k < n && ws[k].speaker == Some(x);
    assert (set k | 0 <= k < |all| && all[k].speaker == Some(x)) == before + if w.speaker == Some(x) then {n} else {};
  }

  lemma CountSnoc(names: seq<string>, name: string, x: string)
    ensures Count(names + [name], x) == Count(names, x) + if name == x then 1 else 0
  {
    assert (names + [name])[..|names|] == names;
  }

  lemma {:induction false} CountIsNaming(ws: seq<Word>, x: string)
    requires x != ""
    ensures Count(Named(ws), x) == Naming(ws, x)
  {
    hide Naming, Count;
    if ws == [] {
      NobodyNamed(x);
    } else {
      var init, last := ws[..|ws| - 1], ws[|ws| - 1];
      CountIsNaming(init, x);
      assert ws == init + [last];
      NamingSnoc(init, last, x);
      if NamesNobody(last) {
        assert Named(ws) == Named(init);
      } else {
        CountSnoc(Named(init), last.speaker.value, x);
      }
    }
  }

  lemma NobodyNamed(x: string)
    ensures Naming([], x) == 0 && Count([], x) == 0
  {
    var none: seq<Word> := [];
    assert (set k | 0 <= k < |none| && none[k].speaker == Some(x)) == {};
  }

  lemma {:induction false} CountedIsThere(names: seq<string>, x: string)
    ensures x in names <==> Count(names, x) > 0
  {
    if names != [] {
      assert names == names[..|names| - 1] + [names[|names| - 1]];
      CountedIsThere(names[..|names| - 1], x);
    }
  }

  lemma {:induction false} NamedHas(ws: seq<Word>)
    ensures "" !in Named(ws)
    ensures Named(ws) == [] <==> forall k :: 0 <= k < |ws| ==> NamesNobody(ws[k])
  {
    if ws != [] {
      NamedHas(ws[..|ws| - 1]);
      if !NamesNobody(ws[|ws| - 1]) { assert ws[|ws| - 1].speaker.value in Named(ws); }
    }
  }

  /** What a segment reports of its words: their texts word for word, and as its speaker
      the name that most of them carry, if any does. */
  ghost predicate Reports(s: Segment)
  {
    && Texts.Split(s.text) == Said(s.words)
    && (s.speaker == None <==> forall k :: 0 <= k < |s.words| ==> NamesNobody(s.words[k]))
    && (s.speaker.Some? ==> s.speaker.value != "" && Naming(s.words, s.speaker.value) > 0)
    && (s.speaker.Some? ==> forall x :: x != "" ==> Naming(s.words, x) <= Naming(s.words, s.speaker.value))
  }

  lemma FlushReports(l: Limits, idx: nat, ws: seq<Word>)
    requires ws != []
    ensures Reports(Flush(l, idx, ws))
  {
    hide Texts.Split, Texts.SplitAll, Texts.Strip, Texts.Joined, TextsOf, Said, Named, Count, MainSpeaker, Naming;
    Texts.JoinedKeepsWords(TextsOf(ws));
    TextsSaySo(ws);
    MainSpeakerIsMostNamed(l, ws);
    NamedHas(ws);
    var main := MainSpeaker(l, ws);
    if main.Some? {
      CountIsNaming(ws, main.value);
      CountedIsThere(Named(ws), main.value);
    }
    forall x | x != "" && main.Some?
      ensures Naming(ws, x) <= Naming(ws, main.value)
    {
      CountIsNaming(ws, x);
      CountedIsThere(Named(ws), x);
    }
  }

  lemma SegmentsReportTheirWords(l: Limits, words: seq<Word>, k: nat)
    requires k < |Segments(l, words)|
    ensures Reports(Segments(l, words)[k])
  {
    hide Groups, Normalized, Flushed, Flush;
    var g := Groups(l, Normalized(words));
    GroupsPartition(l, Normalized(words));
    NonemptyGroups(l, g, Normalized(words));
    FlushedAt(l, g, k);
    FlushReports(l, k, g[k]);
  }

  lemma FitsStart(l: Limits, s: Segment)
    requires Fits(l, s)
    ensures s.words != [] && s.start == s.words[0].start
  {
  }

  lemma GroupIsOrdered(g: seq<seq<Word>>, k: nat)
    requires Ordered(Joined(g)) && k < |g|
    ensures Ordered(g[k])
  {
    var at := GroupInJoined(g, k);
    assert forall p :: 0 <= p < |g[k]| ==> g[k][p] == Joined(g)[at + p];
  }

  /** Re-segmenting what was segmented reproduces it: the backfill can be re-run. */
  lemma ResegmentIsIdempotent(l: Limits, words: seq<Word>)
    ensures Segments(l, StoredWords(Segments(l, words))) == Segments(l, words)
  {
    hide Groups, Breaks, Normalized, Flushed;
    SegmentsKeepLimits(l, words);
    var _, _ := NormalizedIsNormal(words);
  }
}
