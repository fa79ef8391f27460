/** Stitching the windows of a long file back together: a window's entries are
    cut to its core range, moved to file time and appended without repeats. */
module Stitching {
  import opened Optional
  import opened Selection

  /** A timestamp entry of one window; missing times are the model's omissions. */
  datatype RawEntry = RawEntry(text: string, start: Option<real>, end: Option<real>)

  /** A word or segment in file time. */
  datatype Entry = Entry(text: string, start: real, end: real)

  const SEAM_DEDUP_TOLERANCE := 0.25

  // ---- Core range ----------------------------------------------------------

  function RelStart(e: RawEntry): real { if e.start.Some? then e.start.value else 0.0 }

  function RelEnd(e: RawEntry): real { if e.end.Some? then e.end.value else RelStart(e) }

  predicate InCore(e: RawEntry, keepStart: real, keepEnd: Option<real>)
  {
    keepStart <= RelStart(e) && (keepEnd.Some? ==> RelStart(e) < keepEnd.value)
  }

  function Shift(e: RawEntry, offset: real): Entry
  {
    Entry(e.text, RelStart(e) + offset, (if RelEnd(e) < RelStart(e) then RelStart(e) else RelEnd(e)) + offset)
  }

  function Rebased(entries: seq<RawEntry>, offset: real, keepStart: real, keepEnd: Option<real>): (out: seq<Entry>)
    ensures forall k :: 0 <= k < |out| ==>
      && out[k].start <= out[k].end && keepStart + offset <= out[k].start
      && (keepEnd.Some? ==> out[k].start < keepEnd.value + offset)
  {
    if entries == [] then []
    else
      var e := entries[|entries| - 1];
      Rebased(entries[..|entries| - 1], offset, keepStart, keepEnd)
      + (if InCore(e, keepStart, keepEnd) then [Shift(e, offset)] else [])
  }

  method OffsetTimestamps(entries: seq<RawEntry>, offset: real, keepStart: real, keepEnd: Option<real>)
    returns (out: seq<Entry>)
    ensures out == Rebased(entries, offset, keepStart, keepEnd)
  {
    out := [];
    for n := 0 to |entries|
      invariant out == Rebased(entries[..n], offset, keepStart, keepEnd)
    {
      assert entries[..n + 1][..n] == entries[..n];
      var e := entries[n];
      var relStart := RelStart(e);
      if relStart < keepStart { continue; }
      if keepEnd.Some? && relStart >= keepEnd.value { continue; }
      var relEnd := RelEnd(e);
      if relEnd < relStart { relEnd := relStart; }
      out := out + [Entry(e.text, relStart + offset, relEnd + offset)];
    }
    assert entries[..|entries|] == entries;
  }

  /** The start a window's entry has, and whether it is the window's own. */
  ghost predicate Owned(e: RawEntry, keepStart: real, keepEnd: Option<real>)
  {
    var start := e.start.GetOr(0.0);
    keepStart <= start && (keepEnd == None || start < keepEnd.value)
  }

  /** The same entry in file time, with an end before its start moved to the start. */
  ghost predicate IsMoved(e: RawEntry, offset: real, out: Entry)
  {
    var start := e.start.GetOr(0.0);
    && out.text == e.text && out.start == start + offset
    && out.end == offset + if e.end.Some? && e.end.value > start then e.end.value else start
  }

  /** The window's own entries, all of them and nothing else, each moved to file time,
      in order: at lists where they stand. */
  ghost predicate OwnEntries(entries: seq<RawEntry>, offset: real, keepStart: real, keepEnd: Option<real>, at: seq<nat>, out: seq<Entry>)
  {
    && |at| == |out| && Ascending(at)
    && (forall k :: 0 <= k < |at| ==> at[k] < |entries| && IsMoved(entries[at[k]], offset, out[k]))
    && (forall i :: 0 <= i < |entries| ==> (i in at <==> Owned(entries[i], keepStart, keepEnd)))
  }

  lemma {:induction false} RebasedAreOwn(entries: seq<RawEntry>, offset: real, keepStart: real, keepEnd: Option<real>)
    returns (at: seq<nat>)
    ensures OwnEntries(entries, offset, keepStart, keepEnd, at, Rebased(entries, offset, keepStart, keepEnd))
  {
    at := [];
    if entries != [] {
      var init, last := entries[..|entries| - 1], entries[|entries| - 1];
      at := RebasedAreOwn(init, offset, keepStart, keepEnd);
      assert forall i :: i in at ==> i < |init|;
      if InCore(last, keepStart, keepEnd) {
        at := at + [|init|];
      }
    }
  }

  ghost predicate OwnsEntry(entries: seq<RawEntry>, offset: real, keepStart: real, keepEnd: Option<real>, e: Entry)
  {
    exists i :: 0 <= i < |entries| && Owned(entries[i], keepStart, keepEnd) && IsMoved(entries[i], offset, e)
  }

  lemma OwnEntriesAre(entries: seq<RawEntry>, offset: real, keepStart: real, keepEnd: Option<real>, at: seq<nat>, out: seq<Entry>, e: Entry)
    requires OwnEntries(entries, offset, keepStart, keepEnd, at, out)
    ensures e in out <==> OwnsEntry(entries, offset, keepStart, keepEnd, e)
  {
    hide Owned, Ascending;
    if e in out {
      var j :| 0 <= j < |out| && out[j] == e;
      assert Owned(entries[at[j]], keepStart, keepEnd) && IsMoved(entries[at[j]], offset, e);
    }
  }

  // ---- Seam de-duplication -------------------------------------------------

  /** Some accepted entry repeats e's text within the tolerance, anywhere in acc. */
  ghost predicate Repeats(acc: seq<Entry>, e: Entry)
  {
    exists k :: 0 <= k < |acc| && e.start - acc[k].start <= SEAM_DEDUP_TOLERANCE && acc[k].text == e.text
  }

  ghost predicate Advances(acc: seq<Entry>, e: Entry)
  {
    acc != [] ==> acc[|acc| - 1].start < e.start
  }

  ghost function Stitch(acc: seq<Entry>, e: Entry): seq<Entry>
  {
    if Advances(acc, e) && !Repeats(acc, e) then acc + [e] else acc
  }

  ghost function Stitched(acc: seq<Entry>, incoming: seq<Entry>): seq<Entry>
  {
    if incoming == [] then acc
    else Stitch(Stitched(acc, incoming[..|incoming| - 1]), incoming[|incoming| - 1])
  }

  /** Time only moves forward, and equal texts are further apart than the tolerance. */
  ghost predicate Seamless(acc: seq<Entry>)
  {
    && (forall k, l :: 0 <= k < l < |acc| ==> acc[k].start < acc[l].start)
    && (forall k, l :: 0 <= k < l < |acc| && acc[k].text == acc[l].text ==> acc[l].start - acc[k].start > SEAM_DEDUP_TOLERANCE)
  }

  lemma StitchIsSeamless(acc: seq<Entry>, e: Entry)
    requires Seamless(acc)
    ensures Seamless(Stitch(acc, e)) && acc <= Stitch(acc, e)
  {
    var r := Stitch(acc, e);
    if r != acc {
      assert forall k :: 0 <= k < |acc| ==> r[k] == acc[k] && acc[k].start <= acc[|acc| - 1].start;
    }
  }

  lemma {:induction false} StitchedIsSeamless(acc: seq<Entry>, incoming: seq<Entry>)
    requires Seamless(acc)
    ensures Seamless(Stitched(acc, incoming)) && acc <= Stitched(acc, incoming)
  {
    hide Seamless, Stitch;
    if incoming != [] {
      StitchedIsSeamless(acc, incoming[..|incoming| - 1]);
      StitchIsSeamless(Stitched(acc, incoming[..|incoming| - 1]), incoming[|incoming| - 1]);
    }
  }

  /** Window by window or all at once makes no difference. */
  lemma {:induction false} StitchedConcat(acc: seq<Entry>, x: seq<Entry>, y: seq<Entry>)
    ensures Stitched(acc, x + y) == Stitched(Stitched(acc, x), y)
  {
    if y == [] {
      assert x + y == x;
    } else {
      assert (x + y)[..|x + y| - 1] == x + y[..|y| - 1];
      StitchedConcat(acc, x, y[..|y| - 1]);
    }
  }

  /** What a stitched list already accounts for: e is behind its last entry or
      repeats one near it. */
  ghost predicate Absorbs(acc: seq<Entry>, e: Entry) { !Advances(acc, e) || Repeats(acc, e) }

  lemma {:induction false} StitchedAbsorbs(acc: seq<Entry>, incoming: seq<Entry>, k: nat)
    requires Seamless(acc) && k < |incoming|
    ensures Absorbs(Stitched(acc, incoming), incoming[k])
  {
    var init := incoming[..|incoming| - 1];
    var before := Stitched(acc, init);
    StitchedIsSeamless(acc, init);
    if k == |incoming| - 1 {
      var after := Stitched(acc, incoming);
      assert before != after ==> after[|after| - 1] == incoming[k];
    } else {
      StitchedAbsorbs(acc, init, k);
      AbsorbsAfterStitch(before, incoming[k], incoming[|incoming| - 1]);
    }
  }

  lemma AbsorbsAfterStitch(acc: seq<Entry>, e: Entry, next: Entry)
    requires Seamless(acc) && Absorbs(acc, e)
    ensures Absorbs(Stitch(acc, next), e)
  {
    if Repeats(acc, e) {
      var k :| 0 <= k < |acc| && e.start - acc[k].start <= SEAM_DEDUP_TOLERANCE && acc[k].text == e.text;
      assert Stitch(acc, next)[k] == acc[k];
    }
  }

  lemma {:induction false} AbsorbedChangesNothing(acc: seq<Entry>, incoming: seq<Entry>)
    requires forall k :: 0 <= k < |incoming| ==> Absorbs(acc, incoming[k])
    ensures Stitched(acc, incoming) == acc
  {
    if incoming != [] {
      AbsorbedChangesNothing(acc, incoming[..|incoming| - 1]);
    }
  }

  /** An entry is taken up when it starts after the last one kept and no kept entry of its
      text starts within the tolerance before it. */
  ghost predicate TakenUp(kept: seq<Entry>, e: Entry)
  {
    && (kept != [] ==> kept[|kept| - 1].start < e.start)
    && (forall q :: 0 <= q < |kept| && kept[q].text == e.text ==> e.start - kept[q].start > SEAM_DEDUP_TOLERANCE)
  }

  lemma TakenUpIs(kept: seq<Entry>, e: Entry)
    ensures TakenUp(kept, e) <==> Advances(kept, e) && !Repeats(kept, e)
  {
  }

  /** Stitching keeps, of all that is offered, exactly what is taken up. */
  lemma {:induction false} StitchedSelects(offered: seq<Entry>) returns (at: seq<nat>)
    ensures Selects(TakenUp, offered, at, Stitched([], offered))
  {
    hide Selects, TakenUp, Advances, Repeats;
    at := [];
    NothingSelected(TakenUp);
    if offered != [] {
      var init, last := offered[..|offered| - 1], offered[|offered| - 1];
      at := StitchedSelects(init);
      var kept := Stitched([], init);
      TakenUpIs(kept, last);
      SelectsSnoc(TakenUp, init, at, kept, last);
      assert offered == init + [last];
      if TakenUp(kept, last) { at := at + [|init|]; }
    }
  }

  /** A window replayed after it was already stitched changes nothing. */
  lemma ReplayChangesNothing(acc: seq<Entry>, incoming: seq<Entry>)
    requires Seamless(acc)
    ensures Stitched(Stitched(acc, incoming), incoming) == Stitched(acc, incoming)
  {
    forall k | 0 <= k < |incoming|
      ensures Absorbs(Stitched(acc, incoming), incoming[k])
    {
      StitchedAbsorbs(acc, incoming, k);
    }
    AbsorbedChangesNothing(Stitched(acc, incoming), incoming);
  }

  /** The accumulated entries of a file, extended in place. */
  class EntryList {
    var items: seq<Entry>

    constructor (items: seq<Entry>)
      ensures this.items == items
    {
      this.items := items;
    }

    /** The backward scan stops at the first entry outside the tolerance, and still
        decides as a scan of the whole list would. */
    method RepeatsRecent(e: Entry) returns (dup: bool)
      requires Seamless(items)
      ensures dup <==> Repeats(items, e)
    {
      var k := |items|;
      while k > 0
        invariant 0 <= k <= |items|
        invariant forall q :: k <= q < |items| ==> !(e.start - items[q].start <= SEAM_DEDUP_TOLERANCE && items[q].text == e.text)
      {
        k := k - 1;
        if e.start - items[k].start > SEAM_DEDUP_TOLERANCE {
          assert forall q :: 0 <= q < k ==> items[q].start < items[k].start;
          return false;
        }
        if items[k].text == e.text {
          return true;
        }
      }
      return false;
    }

    method AppendMonotonic(incoming: seq<Entry>)
      requires Seamless(items)
      modifies this
      ensures items == Stitched(old(items), incoming) && Seamless(items)
    {
      for n := 0 to |incoming|
        invariant items == Stitched(old(items), incoming[..n]) && Seamless(items)
      {
        assert incoming[..n + 1][..n] == incoming[..n];
        StitchedIsSeamless(old(items), incoming[..n + 1]);
        var e := incoming[n];
        if |items| > 0 && e.start <= items[|items| - 1].start { continue; }
        var dup := RepeatsRecent(e);
        if dup { continue; }
        items := items + [e];
      }
      assert incoming[..|incoming|] == incoming;
    }
  }
}
