/** Judging the transcripts a selection returns: a keyset walk in pages over a selection
    that shrinks while it is walked, with a progress target and a spend cap. */
module Backfill {
  import opened Optional

  const DEFAULT_PAGE_SIZE := 32
  const MAX_CONSECUTIVE_OUTAGES := 5
  const ATTEMPTS_PER_LIMIT := 3

  /** The selection is ordered by creation time, then id. */
  datatype Key = Key(created: int, id: nat)

  /** What happens while one transcript is judged and recorded. */
  datatype Trial = Trial(
    hasText: bool, chunksReadable: bool, stored: nat, produced: nat,
    passOpens: bool, stops: bool, answered: nat,
    anyFindings: bool, keysReadable: bool, findingsStored: bool,
    recordReplies: bool, recordApplied: bool)

  datatype Row = Row(key: Key, selected: bool, trial: Trial, cancelledBefore: bool)

  datatype Options = Options(write: bool, gated: bool, passStore: bool, limit: int, maxAttempts: int, pageSize: int)

  datatype Outcome = Outcome(
    judged: bool, latched: bool, failed: bool, notEmbedded: bool, stopped: bool,
    evaluated: nat, unanswered: nat, leaves: bool)

  datatype Tally = Tally(seen: nat, attempts: nat, latched: nat, failed: nat, notEmbedded: nat, skipped: nat)

  datatype Exit = Exhausted | LimitReached | AttemptsReached | Outage | JudgeStopped | Cancelled | QueryFailed

  // ---- One transcript ------------------------------------------------------

  const SKIPPED := Outcome(false, false, false, false, false, 0, 0, false)

  /** The outcome of one transcript; leaves says whether it dropped out of the selection. */
  function BackfillOne(o: Options, t: Trial): Outcome
  {
    if !t.hasText || !t.chunksReadable then SKIPPED
    else if t.stored == 0 && !o.gated then SKIPPED.(notEmbedded := true)
    else if t.stored == 0 && t.produced == 0 then SKIPPED
    else if o.write && o.passStore && !t.passOpens then SKIPPED
    else
      var total := if t.stored > 0 then t.stored else t.produced;
      var evaluated := if t.answered < total then t.answered else total;
      var judged := SKIPPED.(judged := true, evaluated := evaluated, unanswered := total - evaluated);
      var complete := evaluated == total;
      if t.stops then judged.(stopped := true)
      else if o.write && o.passStore then Recorded(judged, t, complete)
      else if t.anyFindings && !t.keysReadable then judged.(failed := true)
      else if !o.write then judged.(latched := complete, failed := !complete)
      else Recorded(judged, t, complete && (t.findingsStored || !t.anyFindings))
  }

  /** A record whose reply was lost may have been applied. */
  function Recorded(judged: Outcome, t: Trial, finished: bool): Outcome
  {
    if !t.recordReplies then judged.(failed := true, leaves := finished && t.recordApplied)
    else judged.(latched := finished, failed := !finished, leaves := finished)
  }

  /** The flags exclude each other; a judged transcript latches or fails, and latches
      only when every chunk was judged; nothing leaves the selection otherwise judged. */
  lemma OutcomeFlags(o: Options, t: Trial)
    ensures var res := BackfillOne(o, t);
            && (res.judged && !res.stopped <==> res.latched != res.failed)
            && !(res.latched && res.failed) && (res.notEmbedded || res.stopped ==> !res.latched && !res.failed)
            && (res.notEmbedded ==> !res.judged) && (res.stopped ==> res.judged)
            && (res.latched ==> res.unanswered == 0 && res.evaluated > 0)
            && (res.leaves ==> o.write && res.judged && res.unanswered == 0)
            && (o.write && res.latched ==> res.leaves)
  {
  }

  /** What each outcome takes. The judge is called exactly when the text can be read and
      there are chunks that will keep their ids, and a pass to record can be opened. The
      transcript latches exactly when the judge answered every chunk and its findings and
      the record of them are known to be stored; it leaves the selection also when only the
      reply to that record was lost. */
  lemma OutcomeMeans(o: Options, t: Trial)
    ensures var res := BackfillOne(o, t);
            var total, passes := if t.stored > 0 then t.stored else t.produced, o.write && o.passStore;
            var finished := res.judged && !t.stops && t.answered >= total
                            && (passes || !t.anyFindings || (t.keysReadable && (o.write ==> t.findingsStored)));
            && (res.judged <==> t.hasText && t.chunksReadable && (t.stored > 0 || (o.gated && t.produced > 0)) && (passes ==> t.passOpens))
            && (res.notEmbedded <==> t.hasText && t.chunksReadable && t.stored == 0 && !o.gated)
            && (res.stopped <==> res.judged && t.stops)
            && (res.judged ==> res.evaluated + res.unanswered == total && (t.answered < total ==> res.evaluated == t.answered))
            && (!res.judged ==> res.evaluated == res.unanswered == 0)
            && (res.latched <==> finished && (o.write ==> t.recordReplies))
            && (res.leaves <==> o.write && finished && (t.recordReplies || t.recordApplied))
  {
  }

  // ---- The selection -------------------------------------------------------

  predicate Before(a: Key, b: Key) { a.created < b.created || (a.created == b.created && a.id < b.id) }

  ghost predicate Ascending(rows: seq<Row>)
  {
    forall i, j :: 0 <= i < j < |rows| ==> Before(rows[i].key, rows[j].key)
  }

  predicate InSelection(row: Row, gone: set<Key>, after: Option<Key>)
  {
    row.selected && row.key !in gone && (after.Some? ==> Before(after.value, row.key))
  }

  function Selection(rows: seq<Row>, gone: set<Key>, after: Option<Key>): (sel: seq<Row>)
    ensures forall x :: x in sel <==> x in rows && InSelection(x, gone, after)
  {
    if rows == [] then []
    else
      assert rows == [rows[0]] + rows[1..];
      (if InSelection(rows[0], gone, after) then [rows[0]] else []) + Selection(rows[1..], gone, after)
  }

  lemma {:induction false} SelectionAscends(rows: seq<Row>, gone: set<Key>, after: Option<Key>)
    requires Ascending(rows)
    ensures Ascending(Selection(rows, gone, after))
  {
    if rows != [] {
      SelectionAscends(rows[1..], gone, after);
      forall j | 0 <= j < |Selection(rows[1..], gone, after)|
        ensures Before(rows[0].key, Selection(rows[1..], gone, after)[j].key)
      {
        assert Selection(rows[1..], gone, after)[j] in rows[1..];
      }
    }
  }

  /** Created later or, at the same time, with the greater id. */
  ghost predicate Follows(x: Key, y: Key)
  {
    x.created < y.created || (x.created == y.created && x.id < y.id)
  }

  /** What the selection is: the selected rows that are still there and behind the cursor,
      all of them and nothing else, by creation time and then id, each once. */
  lemma SelectionMeans(rows: seq<Row>, gone: set<Key>, after: Option<Key>)
    requires Ascending(rows)
    ensures var sel := Selection(rows, gone, after);
      && (forall x :: x in sel <==> x in rows && x.selected && x.key !in gone && (after == None || Follows(after.value, x.key)))
      && (forall i, j :: 0 <= i < j < |sel| ==> Follows(sel[i].key, sel[j].key))
  {
    hide Selection;
    SelectionAscends(rows, gone, after);
  }

  lemma {:induction false} SelectionAgrees(rows: seq<Row>, gone: set<Key>, after: Option<Key>, gone': set<Key>, after': Option<Key>)
    requires forall x :: x in rows ==> (InSelection(x, gone, after) <==> InSelection(x, gone', after'))
    ensures Selection(rows, gone, after) == Selection(rows, gone', after')
  {
    if rows != [] {
      assert rows == [rows[0]] + rows[1..];
      SelectionAgrees(rows[1..], gone, after, gone', after');
    }
  }

  lemma SelectionEdges(rows: seq<Row>, gone: set<Key>, after: Option<Key>)
    ensures Selection(rows, gone, after) ==
            if rows == [] then []
            else (if InSelection(rows[0], gone, after) then [rows[0]] else []) + Selection(rows[1..], gone, after)
  {
  }

  lemma AscendingTail(rows: seq<Row>)
    requires Ascending(rows) && rows != []
    ensures Ascending(rows[1..]) && forall x :: x in rows[1..] ==> Before(rows[0].key, x.key)
  {
  }

  lemma CursorAtFirst(rows: seq<Row>, gone: set<Key>)
    requires Ascending(rows) && rows != []
    ensures Selection(rows, gone, Some(rows[0].key)) == Selection(rows[1..], gone, None)
  {
    hide Selection, Ascending;
    AscendingTail(rows);
    SelectionEdges(rows, gone, Some(rows[0].key));
    SelectionAgrees(rows[1..], gone, None, gone, Some(rows[0].key));
  }

  /** The selection after its n-th row is the rest of the selection. */
  lemma {:induction false} SelectionAfterCursor(rows: seq<Row>, gone: set<Key>, n: nat)
    requires Ascending(rows) && 0 < n <= |Selection(rows, gone, None)|
    ensures Selection(rows, gone, Some(Selection(rows, gone, None)[n - 1].key)) == Selection(rows, gone, None)[n..]
    decreases |rows|
  {
    hide Selection, Ascending, InSelection, Before;
    SelectionEdges(rows, gone, None);
    AscendingTail(rows);
    var sel, tail := Selection(rows, gone, None), Selection(rows[1..], gone, None);
    var cursor := sel[n - 1];
    if InSelection(rows[0], gone, None) && n == 1 {
      CursorAtFirst(rows, gone);
    } else {
      var m := if InSelection(rows[0], gone, None) then n - 1 else n;
      assert cursor == tail[m - 1] && cursor in tail;
      SelectionAfterCursor(rows[1..], gone, m);
      SelectionEdges(rows, gone, Some(cursor.key));
      BehindCursor(rows[0], gone, cursor.key);
    }
  }

  lemma BehindCursor(row: Row, gone: set<Key>, cursor: Key)
    requires Before(row.key, cursor)
    ensures !InSelection(row, gone, Some(cursor))
  {
  }

  /** Rows that drop out behind the cursor do not change what lies ahead of it. */
  lemma PagesAhead(rows: seq<Row>, gone: set<Key>, gone': set<Key>, n: nat)
    requires Ascending(rows) && n <= |Selection(rows, gone, None)| && gone <= gone'
    requires forall k :: k in gone' && k !in gone ==> exists i :: 0 <= i < n && Selection(rows, gone, None)[i].key == k
    ensures var sel := Selection(rows, gone, None);
            Selection(rows, gone', if n == 0 then None else Some(sel[n - 1].key)) == sel[n..]
  {
    var sel := Selection(rows, gone, None);
    SelectionAscends(rows, gone, None);
    if n > 0 {
      var cursor := Some(sel[n - 1].key);
      forall x | x in rows
        ensures InSelection(x, gone', cursor) <==> InSelection(x, gone, cursor)
      {
        if x.key in gone' && x.key !in gone {
          var i :| 0 <= i < n && sel[i].key == x.key;
          assert i < n - 1 ==> Before(sel[i].key, sel[n - 1].key);
        }
      }
      SelectionAgrees(rows, gone', cursor, gone, cursor);
      SelectionAfterCursor(rows, gone, n);
    } else {
      SelectionAgrees(rows, gone', None, gone, None);
    }
  }

  // ---- What a walk comes to, whatever the pages ----------------------------

  function EffectiveMaxAttempts(limit: int, maxAttempts: int): (cap: int)
    ensures cap > 0 <==> limit > 0 || maxAttempts > 0
    ensures cap >= 0
  {
    if maxAttempts > 0 then maxAttempts else if limit > 0 then ATTEMPTS_PER_LIMIT * limit else 0
  }

  function Add(tl: Tally, res: Outcome): Tally
  {
    var seen := tl.(seen := tl.seen + 1);
    if res.stopped then seen
    else
      var tried := if res.judged then seen.(attempts := seen.attempts + 1) else seen;
      if res.latched then tried.(latched := tried.latched + 1)
      else if res.failed then tried.(failed := tried.failed + 1)
      else if res.notEmbedded then tried.(notEmbedded := tried.notEmbedded + 1)
      else tried.(skipped := tried.skipped + 1)
  }

  function TallyOf(o: Options, rows: seq<Row>): Tally
  {
    if rows == [] then Tally(0, 0, 0, 0, 0, 0)
    else Add(TallyOf(o, rows[..|rows| - 1]), BackfillOne(o, rows[|rows| - 1].trial))
  }

  /** Every chunk went unanswered. */
  predicate Dead(res: Outcome) { res.evaluated == 0 && res.unanswered > 0 }

  function OutageRun(o: Options, rows: seq<Row>): nat
  {
    if rows == [] then 0
    else
      var res := BackfillOne(o, rows[|rows| - 1].trial);
      if Dead(res) then OutageRun(o, rows[..|rows| - 1]) + 1
      else if res.evaluated > 0 then 0
      else OutageRun(o, rows[..|rows| - 1])
  }

  function Left(o: Options, rows: seq<Row>): set<Key>
  {
    set x | x in rows && BackfillOne(o, x.trial).leaves :: x.key
  }

  /** Why the walk stops right after visiting these rows. */
  function StopAfter(o: Options, rows: seq<Row>): Option<Exit>
  {
    if rows == [] then None
    else
      var tl := TallyOf(o, rows);
      if BackfillOne(o, rows[|rows| - 1].trial).stopped then Some(JudgeStopped)
      else if o.limit > 0 && OutageRun(o, rows) >= MAX_CONSECUTIVE_OUTAGES then Some(Outage)
      else if o.limit > 0 && tl.latched >= o.limit then Some(LimitReached)
      else if EffectiveMaxAttempts(o.limit, o.maxAttempts) > 0 && tl.attempts >= EffectiveMaxAttempts(o.limit, o.maxAttempts) then Some(AttemptsReached)
      else None
  }

  /** The walk passes over the first n rows: nothing stops it before or after any. */
  ghost predicate WalksPast(o: Options, sel: seq<Row>, n: int)
  {
    && 0 <= n <= |sel|
    && (forall k :: 0 <= k <= n ==> StopAfter(o, sel[..k]).None?)
    && (forall k :: 0 <= k < n ==> !sel[k].cancelledBefore)
  }

  /** The walk over a selection ends after n rows for the given reason, had every page
      been read. */
  ghost predicate EndsAt(o: Options, sel: seq<Row>, n: int, exit: Exit)
  {
    match exit
    case Exhausted => n == |sel| && WalksPast(o, sel, n)
    case Cancelled => n < |sel| && WalksPast(o, sel, n) && sel[n].cancelledBefore
    case QueryFailed => WalksPast(o, sel, n)
    case _ => 0 < n <= |sel| && WalksPast(o, sel, n - 1) && !sel[n - 1].cancelledBefore && StopAfter(o, sel[..n]) == Some(exit)
  }

  /** The end is one and the same however the selection is paged. */
  lemma EndIsUnique(o: Options, sel: seq<Row>, n: int, exit: Exit, m: int, exit': Exit)
    requires EndsAt(o, sel, n, exit) && EndsAt(o, sel, m, exit') && exit != QueryFailed && exit' != QueryFailed
    ensures n == m && exit == exit'
  {
  }

  // ---- The tally -----------------------------------------------------------

  /** Every visited transcript is counted once; the judge was called for those latched
      or failed. */
  lemma {:induction false} TallyAddsUp(o: Options, rows: seq<Row>)
    requires forall k :: 0 <= k < |rows| ==> !BackfillOne(o, rows[k].trial).stopped
    ensures var tl := TallyOf(o, rows);
            && tl.seen == |rows| && tl.seen == tl.latched + tl.failed + tl.notEmbedded + tl.skipped
            && tl.attempts == tl.latched + tl.failed
  {
    hide BackfillOne;
    if rows != [] {
      TallyAddsUp(o, rows[..|rows| - 1]);
      OutcomeFlags(o, rows[|rows| - 1].trial);
    }
  }

  /** How many of the rows had an outcome of this kind. */
  ghost function Number(o: Options, rows: seq<Row>, kind: Outcome -> bool): nat
  {
    |set k | 0 <= k < |rows| && kind(BackfillOne(o, rows[k].trial))|
  }

  lemma NumberSnoc(o: Options, rows: seq<Row>, kind: Outcome -> bool)
    ensures rows == [] ==> Number(o, rows, kind) == 0
    ensures rows != [] ==>
      Number(o, rows, kind) == Number(o, rows[..|rows| - 1], kind) + if kind(BackfillOne(o, rows[|rows| - 1].trial)) then 1 else 0
  {
    hide BackfillOne;
    var all := set k | 0 <= k < |rows| && kind(BackfillOne(o, rows[k].trial));
    if rows == [] {
      assert all == {};
    } else {
      var n := |rows| - 1;
      var before := set k | 0 <= k < n && kind(BackfillOne(o, rows[..n][k].trial));
      assert all == before + if kind(BackfillOne(o, rows[n].trial)) then {n} else {};
    }
  }

  predicate IsLatched(res: Outcome) { res.latched }

  predicate IsFailed(res: Outcome) { res.failed }

  predicate IsNotEmbedded(res: Outcome) { res.notEmbedded }

  predicate IsTried(res: Outcome) { res.judged && !res.stopped }

  predicate LeftUnanswered(res: Outcome) { res.unanswered > 0 }

  /** Each count of the tally is the number of visited transcripts with that outcome; those
      skipped are the rest. */
  lemma {:induction false} TallyCounts(o: Options, rows: seq<Row>)
    ensures var tl := TallyOf(o, rows);
            && tl.seen == |rows|
            && tl.latched == Number(o, rows, IsLatched)
            && tl.failed == Number(o, rows, IsFailed)
            && tl.notEmbedded == Number(o, rows, IsNotEmbedded)
            && tl.attempts == Number(o, rows, IsTried)
  {
    hide BackfillOne, Number;
    NumberSnoc(o, rows, IsLatched);
    NumberSnoc(o, rows, IsFailed);
    NumberSnoc(o, rows, IsNotEmbedded);
    NumberSnoc(o, rows, IsTried);
    if rows != [] {
      TallyCounts(o, rows[..|rows| - 1]);
      OutcomeFlags(o, rows[|rows| - 1].trial);
    }
  }

  /** Only the last row of a walk can have stopped the judge. */
  lemma WalkedRowsDidNotStop(o: Options, sel: seq<Row>, n: int, k: int)
    requires WalksPast(o, sel, n) && 0 <= k < n
    ensures !BackfillOne(o, sel[k].trial).stopped
  {
    hide BackfillOne, TallyOf, OutageRun;
    assert StopAfter(o, sel[..k + 1]).None?;
    assert sel[..k + 1][k] == sel[k];
  }

  lemma AddsAtMostOne(o: Options, rows: seq<Row>)
    requires rows != []
    ensures var tl, was := TallyOf(o, rows), TallyOf(o, rows[..|rows| - 1]);
            tl.latched <= was.latched + 1 && tl.attempts <= was.attempts + 1
    ensures OutageRun(o, rows) <= OutageRun(o, rows[..|rows| - 1]) + 1
  {
    hide BackfillOne;
  }

  lemma WalkIsWithinBounds(o: Options, rows: seq<Row>)
    requires StopAfter(o, rows).None?
    ensures var tl, cap := TallyOf(o, rows), EffectiveMaxAttempts(o.limit, o.maxAttempts);
            && (o.limit > 0 ==> tl.latched < o.limit && OutageRun(o, rows) < MAX_CONSECUTIVE_OUTAGES)
            && (cap > 0 ==> tl.attempts < cap)
  {
    hide BackfillOne;
  }

  /** Neither the progress target nor the spend cap is ever exceeded, each is reported
      exactly when met, and an outage is exactly five dead transcripts in a row. */
  lemma BoundsHold(o: Options, sel: seq<Row>, n: int, exit: Exit)
    requires EndsAt(o, sel, n, exit)
    ensures var tl, cap := TallyOf(o, sel[..n]), EffectiveMaxAttempts(o.limit, o.maxAttempts);
            && (o.limit > 0 ==> tl.latched <= o.limit) && (cap > 0 ==> tl.attempts <= cap)
            && (if o.maxAttempts > 0 then cap == o.maxAttempts else if o.limit > 0 then cap == 3 * o.limit else cap == 0)
            && (exit == LimitReached ==> o.limit > 0 && tl.latched == o.limit)
            && (exit == AttemptsReached ==> cap > 0 && tl.attempts == cap && (o.limit > 0 ==> tl.latched < o.limit))
            && (exit == Outage ==> o.limit > 0 && OutageRun(o, sel[..n]) == MAX_CONSECUTIVE_OUTAGES)
            && (exit in {Exhausted, Cancelled, QueryFailed} ==> (o.limit > 0 ==> tl.latched < o.limit) && (cap > 0 ==> tl.attempts < cap))
  {
    hide BackfillOne, TallyOf, OutageRun;
    if exit in {Exhausted, Cancelled, QueryFailed} {
      WalkIsWithinBounds(o, sel[..n]);
    } else {
      WalkIsWithinBounds(o, sel[..n - 1]);
      assert sel[..n][..n - 1] == sel[..n - 1];
      AddsAtMostOne(o, sel[..n]);
    }
  }

  /** The count at the end of a walk: all of its rows but one that stopped the judge. */
  lemma SeenAddsUp(o: Options, sel: seq<Row>, n: int, exit: Exit)
    requires EndsAt(o, sel, n, exit)
    ensures var tl := TallyOf(o, sel[..n]);
            && tl.seen == n && tl.attempts == tl.latched + tl.failed
            && tl.seen == tl.latched + tl.failed + tl.notEmbedded + tl.skipped + (if exit == JudgeStopped then 1 else 0)
  {
    hide BackfillOne;
    var m := if exit in {Exhausted, Cancelled, QueryFailed} then n else n - 1;
    forall k | 0 <= k < m
      ensures !BackfillOne(o, sel[k].trial).stopped
    {
      WalkedRowsDidNotStop(o, sel, m, k);
    }
    TallyAddsUp(o, sel[..m]);
    if m < n {
      assert sel[..n][..n - 1] == sel[..m] && sel[..n][n - 1] == sel[m];
      OutcomeFlags(o, sel[m].trial);
    }
  }

  /** The outage counter counts the transcripts, since the last with any chunk answered,
      that had a chunk to answer. */
  lemma {:induction false} OutageRunSinceLastAnswer(o: Options, rows: seq<Row>) returns (j: nat)
    ensures j <= |rows| && OutageRun(o, rows) == Number(o, rows[j..], LeftUnanswered)
    ensures forall k :: j <= k < |rows| ==> BackfillOne(o, rows[k].trial).evaluated == 0
    ensures j > 0 ==> BackfillOne(o, rows[j - 1].trial).evaluated > 0
  {
    hide BackfillOne, Number;
    NumberSnoc(o, [], LeftUnanswered);
    if rows == [] { return 0; }
    var n := |rows| - 1;
    if BackfillOne(o, rows[n].trial).evaluated > 0 {
      assert rows[n + 1..] == [];
      return n + 1;
    }
    j := OutageRunSinceLastAnswer(o, rows[..n]);
    assert rows[j..][..n - j] == rows[..n][j..];
    NumberSnoc(o, rows[j..], LeftUnanswered);
  }

  // ---- The walk ------------------------------------------------------------

  class Store {
    const rows: seq<Row>
    var gone: set<Key>

    constructor (rows: seq<Row>)
      ensures this.rows == rows && gone == {}
    {
      this.rows, gone := rows, {};
    }

    /** The first rows of the selection after the cursor. */
    method SelectPage(after: Option<Key>, size: nat) returns (page: seq<Row>)
      ensures var sel := Selection(rows, gone, after); page == sel[..if |sel| < size then |sel| else size]
    {
      hide Selection, InSelection;
      page := [];
      var i := 0;
      while i < |rows| && |page| < size
        invariant i <= |rows| && |page| <= size
        invariant Selection(rows, gone, after) == page + Selection(rows[i..], gone, after)
      {
        SelectionEdges(rows[i..], gone, after);
        assert rows[i..][1..] == rows[i + 1..];
        if InSelection(rows[i], gone, after) { page := page + [rows[i]]; }
        i := i + 1;
      }
      SelectionEdges([], gone, after);
      assert i == |rows| ==> rows[i..] == [];
    }

    /** Walks the selection page by page. Whatever the page size, and although rows drop
        out behind the cursor, it visits the first n rows of the selection it started
        from, each once and in order, and ends where a walk over that list would. */
    method RunBackfill(o: Options, queryFails: nat -> bool) returns (tl: Tally, exit: Exit, ok: bool)
      requires Ascending(rows)
      modifies this
      ensures Ended(o, Selection(rows, old(gone), None), old(gone), tl, exit, gone)
      ensures exit == QueryFailed ==> exists i :: queryFails(i)
      ensures ok <==> exit in {Exhausted, LimitReached, AttemptsReached} && (tl.failed > 0 ==> tl.latched > 0)
    {
      hide BackfillOne, Walked, Ended, Selection, Add, Dead, Ascending;
      ghost var gone0, sel := gone, Selection(rows, gone, None);
      var pageSize := if o.pageSize <= 0 then DEFAULT_PAGE_SIZE else o.pageSize;
      var maxAttempts := EffectiveMaxAttempts(o.limit, o.maxAttempts);
      tl, exit, ok := Tally(0, 0, 0, 0, 0, 0), Exhausted, false;
      var outageRun, cursor, pages := 0, None, 0;
      NothingVisited(o, sel, gone);
      label walk: while true
        invariant Walked(o, sel, gone0, tl, outageRun, cursor, gone) && tl.seen <= |sel|
        invariant exit == Exhausted
        decreases |sel| - tl.seen
      {
        EndsBetween(o, sel, gone0, tl, outageRun, cursor, gone);
        if queryFails(pages) { return tl, QueryFailed, false; }
        pages := pages + 1;
        RestOfSelection(o, rows, sel, gone0, tl, outageRun, cursor, gone);
        var page := SelectPage(cursor, pageSize);
        ghost var start := tl.seen;
        for i := 0 to |page|
          invariant page == sel[start..start + |page|] && tl.seen == start + i
          invariant Walked(o, sel, gone0, tl, outageRun, cursor, gone)
          invariant exit == Exhausted
        {
          var t := page[i];
          EndsBetween(o, sel, gone0, tl, outageRun, cursor, gone);
          if t.cancelledBefore { return tl, Cancelled, false; }
          OneMore(o, sel, gone0, tl, outageRun, cursor, gone);
          cursor := Some(t.key);
          var res := BackfillOne(o, t.trial);
          if res.leaves { gone := gone + {t.key}; }
          tl := Add(tl, res);
          if res.stopped { return tl, JudgeStopped, false; }
          if Dead(res) {
            outageRun := outageRun + 1;
          } else if res.evaluated > 0 {
            outageRun := 0;
          }
          if o.limit > 0 && outageRun >= MAX_CONSECUTIVE_OUTAGES { return tl, Outage, false; }
          if o.limit > 0 && tl.latched >= o.limit {
            exit := LimitReached;
            break walk;
          }
          if maxAttempts > 0 && tl.attempts >= maxAttempts {
            exit := AttemptsReached;
            break walk;
          }
        }
        EndsBetween(o, sel, gone0, tl, outageRun, cursor, gone);
        if |page| < pageSize { break; }
      }
      ok := !(tl.failed > 0 && tl.latched == 0);
    }
  }

  /** Where a run stands after the first rows of its selection. */
  ghost predicate Walked(o: Options, sel: seq<Row>, gone0: set<Key>, tl: Tally, outageRun: nat, cursor: Option<Key>, gone: set<Key>)
  {
    && tl.seen <= |sel| && WalksPast(o, sel, tl.seen) && tl == TallyOf(o, sel[..tl.seen])
    && outageRun == OutageRun(o, sel[..tl.seen])
    && cursor == (if tl.seen == 0 then None else Some(sel[tl.seen - 1].key))
    && gone == gone0 + Left(o, sel[..tl.seen])
  }

  /** A run over a selection visited its first rows, each once and in order, counted them,
      took out those that left, and ended where a walk over the list would. */
  ghost predicate Ended(o: Options, sel: seq<Row>, gone0: set<Key>, tl: Tally, exit: Exit, gone: set<Key>)
  {
    && tl.seen <= |sel| && EndsAt(o, sel, tl.seen, exit) && tl == TallyOf(o, sel[..tl.seen])
    && gone == gone0 + Left(o, sel[..tl.seen])
  }

  lemma NothingVisited(o: Options, sel: seq<Row>, gone: set<Key>)
    ensures Walked(o, sel, gone, Tally(0, 0, 0, 0, 0, 0), 0, None, gone)
  {
  }

  lemma RestOfSelection(o: Options, rows: seq<Row>, sel: seq<Row>, gone0: set<Key>, tl: Tally, outageRun: nat, cursor: Option<Key>, gone: set<Key>)
    requires Ascending(rows) && sel == Selection(rows, gone0, None) && Walked(o, sel, gone0, tl, outageRun, cursor, gone)
    ensures Selection(rows, gone, cursor) == sel[tl.seen..]
  {
    hide Selection, Ascending, WalksPast, TallyOf, Left, OutageRun;
    LeftIsBehind(o, sel, tl.seen, gone0);
    PagesAhead(rows, gone0, gone, tl.seen);
  }

  lemma LeftIsBehind(o: Options, sel: seq<Row>, n: int, gone: set<Key>)
    requires 0 <= n <= |sel|
    ensures forall k :: k in gone + Left(o, sel[..n]) && k !in gone ==> exists i :: 0 <= i < n && sel[i].key == k
  {
    hide BackfillOne;
    forall k | k in Left(o, sel[..n])
      ensures exists i :: 0 <= i < n && sel[i].key == k
    {
      var x :| x in sel[..n] && BackfillOne(o, x.trial).leaves && x.key == k;
      var i :| 0 <= i < n && sel[..n][i] == x;
      assert sel[i].key == k;
    }
  }

  /** Why the walk ends with this transcript, if it does, given the counts with it. */
  function StopsWith(o: Options, res: Outcome, tl: Tally, outageRun: nat): Option<Exit>
  {
    var cap := EffectiveMaxAttempts(o.limit, o.maxAttempts);
    if res.stopped then Some(JudgeStopped)
    else if o.limit > 0 && outageRun >= MAX_CONSECUTIVE_OUTAGES then Some(Outage)
    else if o.limit > 0 && tl.latched >= o.limit then Some(LimitReached)
    else if cap > 0 && tl.attempts >= cap then Some(AttemptsReached)
    else None
  }

  /** Visiting the next row: the walk goes on with it, or ends there. */
  lemma OneMore(o: Options, sel: seq<Row>, gone0: set<Key>, tl: Tally, outageRun: nat, cursor: Option<Key>, gone: set<Key>)
    requires Walked(o, sel, gone0, tl, outageRun, cursor, gone) && tl.seen < |sel| && !sel[tl.seen].cancelledBefore
    ensures var t := sel[tl.seen];
            var res := BackfillOne(o, t.trial);
            var tl' := Add(tl, res);
            var outages := if Dead(res) then outageRun + 1 else if res.evaluated > 0 then 0 else outageRun;
            var gone' := if res.leaves then gone + {t.key} else gone;
            var stop := StopsWith(o, res, tl', outages);
            && tl'.seen == tl.seen + 1
            && (stop.None? ==> Walked(o, sel, gone0, tl', outages, Some(t.key), gone'))
            && (stop.Some? ==> Ended(o, sel, gone0, tl', stop.value, gone'))
  {
    hide BackfillOne, Add, TallyOf, OutageRun, Left, StopAfter, StopsWith, Dead;
    CountsSnoc(o, sel, tl.seen);
    LeftSnoc(o, sel, tl.seen);
    assert sel[..tl.seen + 1][..tl.seen] == sel[..tl.seen];
  }

  lemma CountsSnoc(o: Options, sel: seq<Row>, n: nat)
    requires n < |sel|
    ensures var res, tl, outageRun := BackfillOne(o, sel[n].trial), TallyOf(o, sel[..n]), OutageRun(o, sel[..n]);
            var tl' := Add(tl, res);
            var outages := if Dead(res) then outageRun + 1 else if res.evaluated > 0 then 0 else outageRun;
            && TallyOf(o, sel[..n + 1]) == tl' && tl'.seen == tl.seen + 1 && OutageRun(o, sel[..n + 1]) == outages
            && StopAfter(o, sel[..n + 1]) == StopsWith(o, res, tl', outages)
            && StopsWith(o, res, tl', outages) !in {Some(Exhausted), Some(Cancelled), Some(QueryFailed)}
  {
    hide BackfillOne, Dead;
    assert sel[..n + 1][..n] == sel[..n] && sel[..n + 1][n] == sel[n];
  }

  lemma LeftSnoc(o: Options, sel: seq<Row>, n: nat)
    requires n < |sel|
    ensures Left(o, sel[..n + 1]) == Left(o, sel[..n]) + if BackfillOne(o, sel[n].trial).leaves then {sel[n].key} else {}
  {
    hide BackfillOne;
    assert sel[..n + 1] == sel[..n] + [sel[n]];
  }

  lemma EndsBetween(o: Options, sel: seq<Row>, gone0: set<Key>, tl: Tally, outageRun: nat, cursor: Option<Key>, gone: set<Key>)
    requires Walked(o, sel, gone0, tl, outageRun, cursor, gone)
    ensures tl.seen <= |sel| && Ended(o, sel, gone0, tl, QueryFailed, gone)
    ensures tl.seen == |sel| ==> Ended(o, sel, gone0, tl, Exhausted, gone)
    ensures tl.seen < |sel| && sel[tl.seen].cancelledBefore ==> Ended(o, sel, gone0, tl, Cancelled, gone)
  {
    hide StopAfter, WalksPast;
  }

  lemma {:induction false} SelectionConcat(a: seq<Row>, b: seq<Row>, gone: set<Key>)
    ensures Selection(a + b, gone, None) == Selection(a, gone, None) + Selection(b, gone, None)
  {
    if a == [] {
      assert a + b == b;
    } else {
      assert (a + b)[0] == a[0] && (a + b)[1..] == a[1..] + b;
      SelectionConcat(a[1..], b, gone);
    }
  }

  lemma {:induction false} SelectionOfSelection(rows: seq<Row>, gone: set<Key>, gone': set<Key>)
    requires gone <= gone'
    ensures Selection(rows, gone', None) == Selection(Selection(rows, gone, None), gone', None)
  {
    if rows != [] {
      var tail := Selection(rows[1..], gone, None);
      SelectionOfSelection(rows[1..], gone, gone');
      if InSelection(rows[0], gone, None) {
        var sel := [rows[0]] + tail;
        assert sel[0] == rows[0] && sel[1..] == tail;
        SelectionEdges(sel, gone', None);
      } else {
        assert [] + tail == tail;
      }
    }
  }

  lemma {:induction false} WholeSelection(rows: seq<Row>, gone: set<Key>)
    requires forall x :: x in rows ==> InSelection(x, gone, None)
    ensures Selection(rows, gone, None) == rows
  {
    if rows != [] { WholeSelection(rows[1..], gone); }
  }

  /** The next run starts with the rows of this one that did not leave, in the same
      order, and goes on with those this one never reached. */
  lemma NextRunSeesTheRest(o: Options, rows: seq<Row>, gone: set<Key>, n: nat)
    requires Ascending(rows) && n <= |Selection(rows, gone, None)|
    ensures var sel := Selection(rows, gone, None);
            var next := gone + Left(o, sel[..n]);
            && Selection(rows, next, None) == Selection(sel[..n], next, None) + sel[n..]
            && forall k :: 0 <= k < n ==> (InSelection(sel[k], next, None) <==> !BackfillOne(o, sel[k].trial).leaves)
  {
    hide BackfillOne, Selection, Left, Ascending, Before;
    var sel := Selection(rows, gone, None);
    var next := gone + Left(o, sel[..n]);
    SelectionAscends(rows, gone, None);
    SelectionOfSelection(rows, gone, next);
    assert sel == sel[..n] + sel[n..];
    SelectionConcat(sel[..n], sel[n..], next);
    forall k | 0 <= k < |sel|
      ensures sel[k] in sel && (sel[k].key in next <==> k < n && BackfillOne(o, sel[k].trial).leaves)
    {
      KeyInLeft(o, sel, n, k);
    }
    WholeSelection(sel[n..], next);
  }

  lemma KeyInLeft(o: Options, sel: seq<Row>, n: nat, k: nat)
    requires Ascending(sel) && n <= |sel| && k < |sel|
    ensures sel[k].key in Left(o, sel[..n]) <==> k < n && BackfillOne(o, sel[k].trial).leaves
  {
    hide BackfillOne;
    assert forall i, j :: 0 <= i < j < |sel| ==> Before(sel[i].key, sel[j].key) && sel[i].key != sel[j].key;
    if k < n { assert sel[..n][k] == sel[k]; }
  }
}
