/** Long-form transcription window by window, with a checkpoint saved after every
    window so that a stopped, crashed or yielding job resumes where it was. */
module ChunkedJob {
  import opened Optional
  import opened Stitching
  import opened Selection
  import Texts

  datatype WindowTs = WindowTs(words: seq<RawEntry>, segments: seq<RawEntry>)

  /** What a job's fingerprint pins down: the file's duration, the window geometry
      and the model, a function of where a clip starts and how long it is. */
  datatype Work = Work(duration: real, window: real, overlap: real, asr: (real, real) -> WindowTs)

  /** The stitched state after some windows. */
  datatype Progress = Progress(offset: real, winIdx: nat, words: seq<Entry>, segments: seq<Entry>)

  const START := Progress(0.0, 0, [], [])

  predicate AtEnd(w: Work, p: Progress) { p.offset >= w.duration }

  /** One window: only the last one keeps its trailing audio. */
  ghost function NextWindow(w: Work, p: Progress): Progress
  {
    var isLast := p.offset + w.window >= w.duration;
    var ts := w.asr(p.offset, w.window + (if isLast then 0.0 else w.overlap));
    var keepEnd := if isLast then None else Some(w.window);
    Progress(p.offset + w.window, p.winIdx + 1,
             Stitched(p.words, Rebased(ts.words, p.offset, 0.0, keepEnd)),
             Stitched(p.segments, Rebased(ts.segments, p.offset, 0.0, keepEnd)))
  }

  ghost function WindowsLeft(w: Work, offset: real): nat
    requires w.window > 0.0
  {
    if offset >= w.duration then 0 else
      assert (w.duration - offset) / w.window > 0.0;
      ((w.duration - offset) / w.window).Floor + 1
  }

  lemma WindowsRunOut(w: Work, offset: real)
    requires w.window > 0.0 && offset < w.duration
    ensures WindowsLeft(w, offset + w.window) < WindowsLeft(w, offset)
  {
    var left := (w.duration - offset) / w.window;
    QuotientOf(w.duration - offset, w.window, left);
    QuotientOf(w.duration - (offset + w.window), w.window, left - 1.0);
    assert (left - 1.0).Floor < left.Floor;
  }

  lemma QuotientOf(x: real, y: real, q: real)
    requires y > 0.0
    ensures x / y == q <==> x == q * y
  {
    assert (x / y) * y == x;
    if x == q * y { assert (x / y - q) * y == 0.0; }
  }

  /** The run nothing interrupts, from state p on. */
  ghost function Complete(w: Work, p: Progress): Progress
    requires w.window > 0.0
    decreases WindowsLeft(w, p.offset)
  {
    if AtEnd(w, p) then p else
      WindowsRunOut(w, p.offset);
      Complete(w, NextWindow(w, p))
  }

  ghost function Uninterrupted(w: Work): Progress
    requires w.window > 0.0
  {
    Complete(w, START)
  }

  /** The state of the uninterrupted run after its first n windows. */
  ghost function After(w: Work, n: nat): Progress
  {
    if n == 0 then START
    else
      var p := After(w, n - 1);
      if AtEnd(w, p) then p else NextWindow(w, p)
  }

  ghost predicate IsPrefix(w: Work, p: Progress) { exists n: nat :: p == After(w, n) }

  lemma PrefixExtends(w: Work, p: Progress)
    requires IsPrefix(w, p) && !AtEnd(w, p)
    ensures IsPrefix(w, NextWindow(w, p))
  {
    var n: nat :| p == After(w, n);
    assert After(w, n + 1) == NextWindow(w, p);
  }

  lemma {:induction false} PrefixCompletes(w: Work, n: nat)
    requires w.window > 0.0
    ensures Complete(w, After(w, n)) == Uninterrupted(w)
  {
    hide NextWindow;
    if n > 0 { PrefixCompletes(w, n - 1); }
  }

  lemma {:induction false} CompleteCounts(w: Work, p: Progress)
    requires w.window > 0.0
    ensures p.winIdx <= Complete(w, p).winIdx && AtEnd(w, Complete(w, p))
    ensures !AtEnd(w, p) ==> p.winIdx < Complete(w, p).winIdx
    decreases WindowsLeft(w, p.offset)
  {
    hide WindowsLeft;
    if !AtEnd(w, p) {
      WindowsRunOut(w, p.offset);
      CompleteCounts(w, NextWindow(w, p));
    }
  }

  /** Every prefix of the run has seamless words and segments. */
  lemma {:induction false} PrefixIsSeamless(w: Work, n: nat)
    ensures Seamless(After(w, n).words) && Seamless(After(w, n).segments)
    ensures After(w, n).winIdx <= n
  {
    hide Seamless, NextWindow;
    if n > 0 {
      PrefixIsSeamless(w, n - 1);
      NextWindowIsSeamless(w, After(w, n - 1));
    } else {
      NothingIsSeamless();
    }
  }

  lemma NextWindowIsSeamless(w: Work, p: Progress)
    requires Seamless(p.words) && Seamless(p.segments)
    ensures var p' := NextWindow(w, p);
            Seamless(p'.words) && Seamless(p'.segments) && p'.winIdx == p.winIdx + 1 && p'.offset == p.offset + w.window
  {
    hide Seamless, Stitched, Rebased;
    var isLast := p.offset + w.window >= w.duration;
    var ts := w.asr(p.offset, w.window + (if isLast then 0.0 else w.overlap));
    var keepEnd := if isLast then None else Some(w.window);
    StitchedIsSeamless(p.words, Rebased(ts.words, p.offset, 0.0, keepEnd));
    StitchedIsSeamless(p.segments, Rebased(ts.segments, p.offset, 0.0, keepEnd));
  }

  lemma NothingIsSeamless()
    ensures Seamless([])
  {
  }

  // ---- What the windows contribute -----------------------------------------

  datatype Kind = Words | Segments

  function Of(ts: WindowTs, kind: Kind): seq<RawEntry> { if kind.Words? then ts.words else ts.segments }

  function KeptOf(p: Progress, kind: Kind): seq<Entry> { if kind.Words? then p.words else p.segments }

  /** Where window k of the file starts. */
  function At(w: Work, k: nat): real { k as real * w.window }

  /** What window k of the file is heard to say: its clip starts where the window does, and
      runs over into the next window unless it is the last. */
  ghost function Clip(w: Work, k: nat, kind: Kind): seq<RawEntry>
  {
    Of(w.asr(At(w, k), if At(w, k + 1) >= w.duration then w.window else w.window + w.overlap), kind)
  }

  /** The last window owns all of its clip, any other what starts before the next one. */
  function OwnsUpTo(w: Work, k: nat): Option<real>
  {
    if At(w, k + 1) >= w.duration then None else Some(w.window)
  }

  /** part holds, in file time and in order, just the entries of its clip that window k owns. */
  ghost predicate IsHeard(w: Work, kind: Kind, k: nat, part: seq<Entry>)
  {
    exists at :: StandAt(w, kind, k, at, part)
  }

  ghost predicate StandAt(w: Work, kind: Kind, k: nat, at: seq<nat>, part: seq<Entry>)
  {
    OwnEntries(Clip(w, k, kind), At(w, k), 0.0, OwnsUpTo(w, k), at, part)
  }

  ghost predicate AreHeard(w: Work, kind: Kind, parts: seq<seq<Entry>>)
  {
    forall k :: 0 <= k < |parts| ==> IsHeard(w, kind, k, parts[k])
  }

  function Concat(parts: seq<seq<Entry>>): seq<Entry>
  {
    if parts == [] then [] else Concat(parts[..|parts| - 1]) + parts[|parts| - 1]
  }

  ghost function Part(w: Work, kind: Kind, k: nat): seq<Entry>
  {
    Rebased(Clip(w, k, kind), At(w, k), 0.0, OwnsUpTo(w, k))
  }

  lemma PartIsHeard(w: Work, kind: Kind, k: nat)
    ensures IsHeard(w, kind, k, Part(w, kind, k))
  {
    hide OwnEntries, Rebased, Clip, OwnsUpTo, At;
    var at := RebasedAreOwn(Clip(w, k, kind), At(w, k), 0.0, OwnsUpTo(w, k));
    assert StandAt(w, kind, k, at, Part(w, kind, k));
  }

  lemma ConcatSnoc(parts: seq<seq<Entry>>, part: seq<Entry>)
    ensures Concat(parts + [part]) == Concat(parts) + part
    ensures Stitched([], Concat(parts + [part])) == Stitched(Stitched([], Concat(parts)), part)
  {
    hide Stitched;
    assert (parts + [part])[..|parts|] == parts;
    StitchedConcat([], Concat(parts), part);
  }

  lemma NextHeard(w: Work, kind: Kind, parts: seq<seq<Entry>>)
    requires AreHeard(w, kind, parts)
    ensures var part := Part(w, kind, |parts|);
            && AreHeard(w, kind, parts + [part])
            && Stitched([], Concat(parts + [part])) == Stitched(Stitched([], Concat(parts)), part)
  {
    hide IsHeard, Part, Stitched, Concat;
    var part := Part(w, kind, |parts|);
    PartIsHeard(w, kind, |parts|);
    ConcatSnoc(parts, part);
  }

  lemma NextWindowHears(w: Work, p: Progress, k: nat)
    requires p.offset == At(w, k)
    ensures NextWindow(w, p) == Progress(p.offset + w.window, p.winIdx + 1,
                                         Stitched(p.words, Part(w, Words, k)), Stitched(p.segments, Part(w, Segments, k)))
  {
    hide Rebased, Stitched;
    AtNext(w, k);
    assert w.window + 0.0 == w.window;
  }

  lemma AtNext(w: Work, k: nat)
    ensures At(w, 0) == 0.0 && At(w, k + 1) == At(w, k) + w.window
  {
  }

  lemma {:induction false} PrefixIsHeard(w: Work, n: nat) returns (words: seq<seq<Entry>>, segments: seq<seq<Entry>>)
    requires n > 0 ==> At(w, n - 1) < w.duration
    requires w.window > 0.0
    ensures |words| == n && AreHeard(w, Words, words)
    ensures |segments| == n && AreHeard(w, Segments, segments)
    ensures After(w, n) == Progress(At(w, n), n, Stitched([], Concat(words)), Stitched([], Concat(segments)))
  {
    hide Stitched, AreHeard, NextWindow, Part, At, Concat;
    words, segments := [], [];
    if n == 0 {
      NothingHeard(w);
    } else {
      AtNext(w, n - 1);
      if n > 1 { AtNext(w, n - 2); }
      words, segments := PrefixIsHeard(w, n - 1);
      NextWindowHears(w, After(w, n - 1), n - 1);
      assert After(w, n) == NextWindow(w, After(w, n - 1));
      NextHeard(w, Words, words);
      NextHeard(w, Segments, segments);
      words, segments := words + [Part(w, Words, n - 1)], segments + [Part(w, Segments, n - 1)];
    }
  }

  lemma NothingHeard(w: Work)
    ensures AreHeard(w, Words, []) && AreHeard(w, Segments, []) && At(w, 0) == 0.0
    ensures Stitched([], Concat([])) == []
  {
  }

  /** The least number of windows, at least n, that reach the end. */
  lemma {:induction false} WindowsReachEnd(w: Work, n: nat) returns (m: nat)
    requires w.window > 0.0 && (n > 0 ==> At(w, n - 1) < w.duration)
    ensures m >= n && At(w, m) >= w.duration && (m > 0 ==> At(w, m - 1) < w.duration)
    decreases WindowsLeft(w, At(w, n))
  {
    hide WindowsLeft, At;
    m := n;
    if At(w, n) < w.duration {
      WindowsRunOut(w, At(w, n));
      AtNext(w, n);
      m := WindowsReachEnd(w, n + 1);
    }
  }

  /** What the whole run returns. Its windows follow each other from the start of the
      file and the last is the first to reach the end. Each offers the entries it owns, and
      of all those offered, in order, exactly those stay that the ones kept before allow. */
  lemma ResultIsWhatIsHeard(w: Work, kind: Kind) returns (parts: seq<seq<Entry>>, at: seq<nat>)
    requires w.window > 0.0
    ensures var p := Uninterrupted(w);
      && p.offset == At(w, p.winIdx) >= w.duration && (p.winIdx > 0 ==> At(w, p.winIdx - 1) < w.duration)
      && |parts| == p.winIdx && AreHeard(w, kind, parts) && Selects(TakenUp, Concat(parts), at, KeptOf(p, kind))
  {
    hide AreHeard, Selects, Stitched, NextWindow, At;
    var n := WindowsReachEnd(w, 0);
    var words, segments := PrefixIsHeard(w, n);
    PrefixCompletes(w, n);
    parts := if kind.Words? then words else segments;
    at := StitchedSelects(Concat(parts));
  }

  lemma {:induction false} ConcatHas(parts: seq<seq<Entry>>, k: nat, i: nat)
    requires k < |parts| && i < |parts[k]|
    ensures parts[k][i] in Concat(parts)
  {
    if k < |parts| - 1 { ConcatHas(parts[..|parts| - 1], k, i); }
  }

  lemma {:induction false} ConcatIsMadeOf(parts: seq<seq<Entry>>, e: Entry) returns (k: nat)
    requires e in Concat(parts)
    ensures k < |parts| && e in parts[k]
  {
    k := |parts| - 1;
    if e !in parts[k] { k := ConcatIsMadeOf(parts[..|parts| - 1], e); }
  }

  /** e is in the list, starts no later than one of it, or repeats one of it. */
  ghost predicate AccountedFor(list: seq<Entry>, e: Entry)
  {
    || e in list
    || exists q :: 0 <= q < |list| &&
         (e.start <= list[q].start || (list[q].text == e.text && e.start - list[q].start <= SEAM_DEDUP_TOLERANCE))
  }

  lemma SelectedAccounts(offered: seq<Entry>, at: seq<nat>, kept: seq<Entry>, e: Entry)
    requires Selects(TakenUp, offered, at, kept) && e in offered
    ensures AccountedFor(kept, e)
  {
    var i: nat :| i < |offered| && offered[i] == e;
    var k := FoundBefore(at, i);
    if k < |at| && at[k] == i {
      assert kept[k] == e;
    } else if k == 0 || kept[k - 1].start < e.start {
      var q :| 0 <= q < k && kept[..k][q].text == e.text && e.start - kept[..k][q].start <= SEAM_DEDUP_TOLERANCE;
      assert kept[q] == kept[..k][q];
    }
  }

  /** Window k owns an entry of its clip that, moved to file time, is e. */
  ghost predicate Owns(w: Work, kind: Kind, k: nat, e: Entry)
  {
    OwnsEntry(Clip(w, k, kind), At(w, k), 0.0, OwnsUpTo(w, k), e)
  }

  lemma HeardIsOwned(w: Work, kind: Kind, k: nat, part: seq<Entry>, e: Entry)
    requires IsHeard(w, kind, k, part)
    ensures e in part <==> Owns(w, kind, k, e)
  {
    hide OwnEntries, OwnsEntry, Clip, OwnsUpTo, At;
    var at :| StandAt(w, kind, k, at, part);
    OwnEntriesAre(Clip(w, k, kind), At(w, k), 0.0, OwnsUpTo(w, k), at, part, e);
  }

  /** No word is lost and none is made up: every entry a window owns is kept, too early
      or a repeat, and every entry kept is one that some window owns. */
  lemma NothingIsLost(w: Work, kind: Kind, e: Entry)
    requires w.window > 0.0
    ensures var p := Uninterrupted(w);
      && ((exists k: nat :: k < p.winIdx && Owns(w, kind, k, e)) ==> AccountedFor(KeptOf(p, kind), e))
      && (e in KeptOf(p, kind) ==> exists k: nat :: k < p.winIdx && Owns(w, kind, k, e))
  {
    hide Selects, IsHeard, Owns, AccountedFor, Uninterrupted;
    var p := Uninterrupted(w);
    var parts, at := ResultIsWhatIsHeard(w, kind);
    if k: nat :| k < p.winIdx && Owns(w, kind, k, e) {
      HeardIsOwned(w, kind, k, parts[k], e);
      var i :| 0 <= i < |parts[k]| && parts[k][i] == e;
      ConcatHas(parts, k, i);
      SelectedAccounts(Concat(parts), at, KeptOf(p, kind), e);
    }
    if e in KeptOf(p, kind) {
      SelectedOnly(TakenUp, Concat(parts), at, KeptOf(p, kind), e);
      var k := ConcatIsMadeOf(parts, e);
      HeardIsOwned(w, kind, k, parts[k], e);
    }
  }

  // ---- The checkpoint file -------------------------------------------------

  /** Digests stand for fingerprints one to one. */
  type Digest = string

  /** Garbage is text that is no checkpoint; Undecodable is not even text. */
  datatype Stored = Missing | Garbage | Undecodable | Saved(format: nat, digest: Digest, progress: Progress)

  const CHECKPOINT_FORMAT := 1

  predicate Matches(file: Stored, digest: Digest)
  {
    file.Saved? && file.format == CHECKPOINT_FORMAT && file.digest == digest
  }

  /** The file holds, exactly, the state of some prefix of the work its digest names. */
  ghost predicate Honest(works: Digest -> Work, file: Stored)
  {
    file.Saved? && file.format == CHECKPOINT_FORMAT ==> IsPrefix(works(file.digest), file.progress)
  }

  function SavedWindows(file: Stored, digest: Digest): nat
  {
    if Matches(file, digest) then file.progress.winIdx else 0
  }

  // ---- One session of a job ------------------------------------------------

  /** What happens around one window: the transcription fails for good or is
      stopped; the save fails; the process dies after it; the claim was lost; the
      park gate is closed. */
  datatype Boundary = Boundary(fails: bool, saveFails: bool, dies: bool, claimLost: bool, gateClosed: bool)

  datatype Script = Script(readFails: bool, deleteFails: bool, at: nat -> Boundary)

  datatype Outcome = Done(result: Progress) | Interrupted | ClaimLost | Yielded

  /** Bytes that are not text end the session with an error it does not expect: it fails
      before any window, and the file stays. */
  predicate LoadBreaks(file: Stored, s: Script) { file.Undecodable? && !s.readFails }

  /** A missing file and an unreadable one both start over; a stale or corrupt one
      is deleted first. */
  function Load(file: Stored, digest: Digest, s: Script): (Stored, Option<Progress>)
  {
    if file.Missing? then (file, None)
    else if s.readFails then (file, None)
    else if !Matches(file, digest) then (if s.deleteFails then file else Missing, None)
    else (file, Some(file.progress))
  }

  /** The windows from p on, k of them already done in this session. Checkpointing
      stays off after the first failed save. */
  ghost function Continue(w: Work, digest: Digest, p: Progress, file: Stored, enabled: bool, s: Script, k: nat): (Stored, Outcome)
    requires w.window > 0.0
    decreases WindowsLeft(w, p.offset)
  {
    if AtEnd(w, p) then (file, Done(p))
    else
      var b, p' := s.at(k), NextWindow(w, p);
      WindowsRunOut(w, p.offset);
      if b.fails then (file, Interrupted)
      else
        var enabled' := enabled && !b.saveFails;
        var file' := if enabled' then Saved(CHECKPOINT_FORMAT, digest, p') else file;
        if b.dies then (file', Interrupted)
        else if !AtEnd(w, p') && b.claimLost then (file', ClaimLost)
        else if !AtEnd(w, p') && enabled' && b.gateClosed then (file', Yielded)
        else Continue(w, digest, p', file', enabled', s, k + 1)
  }

  ghost function Session(w: Work, digest: Digest, file: Stored, s: Script): (Stored, Outcome)
    requires w.window > 0.0
  {
    if LoadBreaks(file, s) then (file, Interrupted)
    else
      var (file', resumed) := Load(file, digest, s);
      Continue(w, digest, if resumed.Some? then resumed.value else START, file', true, s, 0)
  }

  // ---- The session as the runner runs it -----------------------------------

  class Checkpoint {
    var file: Stored

    constructor (file: Stored)
      ensures this.file == file
    {
      this.file := file;
    }
  }

  /** Transcribe, cut, rebase and append one window, in place. */
  method OneWindow(w: Work, offset: real, words: EntryList, segments: EntryList, ghost p: Progress)
    requires words != segments && Seamless(words.items) && Seamless(segments.items)
    requires p.offset == offset && p.words == words.items && p.segments == segments.items
    modifies words, segments
    ensures NextWindow(w, p) == Progress(offset + w.window, p.winIdx + 1, words.items, segments.items)
  {
    hide Stitched, Rebased, Seamless;
    var isLast := offset + w.window >= w.duration;
    var clipLen := w.window + (if isLast then 0.0 else w.overlap);
    var ts := w.asr(offset, clipLen);
    var keepEnd := if isLast then None else Some(w.window);
    var newWords := OffsetTimestamps(ts.words, offset, 0.0, keepEnd);
    words.AppendMonotonic(newWords);
    var newSegments := OffsetTimestamps(ts.segments, offset, 0.0, keepEnd);
    segments.AppendMonotonic(newSegments);
  }

  function Ceil(x: real): int { -((-x).Floor) }

  function NumWindows(w: Work): int
    requires w.window > 0.0
  {
    if Ceil(w.duration / w.window) < 1 then 1 else Ceil(w.duration / w.window)
  }

  function Stripped(entries: seq<Entry>): seq<string>
  {
    seq(|entries|, k requires 0 <= k < |entries| => Texts.Strip(entries[k].text))
  }

  function Plain(entries: seq<Entry>): seq<string>
  {
    seq(|entries|, k requires 0 <= k < |entries| => entries[k].text)
  }

  /** The text of the segments or, when they carry none, of the words. */
  function RawText(p: Progress): string
  {
    var text := Texts.Strip(Texts.Joined(Stripped(p.segments)));
    if text != "" then text else Texts.Strip(Texts.Joined(Plain(p.words)))
  }

  /** What the entries say, one after another. */
  function Said(entries: seq<Entry>): seq<string>
  {
    if entries == [] then [] else Said(entries[..|entries| - 1]) + Texts.Split(entries[|entries| - 1].text)
  }

  lemma {:induction false} StrippedSayTheSame(entries: seq<Entry>)
    ensures Texts.SplitAll(Stripped(entries)) == Texts.SplitAll(Plain(entries)) == Said(entries)
  {
    hide Texts.Strip, Texts.Split;
    if entries != [] {
      var init, last := entries[..|entries| - 1], entries[|entries| - 1];
      StrippedSayTheSame(init);
      Texts.StripKeepsWords(last.text);
      assert Stripped(entries)[..|init|] == Stripped(init) && Plain(entries)[..|init|] == Plain(init);
    }
  }

  /** The text says, word for word and in order, what the segments say, or when they say
      nothing what the words do. */
  lemma TextSaysWhatIsKept(p: Progress)
    ensures Texts.Split(RawText(p)) == if Said(p.segments) != [] then Said(p.segments) else Said(p.words)
  {
    hide Texts.Strip, Texts.Joined, Texts.SplitAll, Said;
    Texts.JoinedKeepsWords(Stripped(p.segments));
    Texts.JoinedKeepsWords(Plain(p.words));
    StrippedSayTheSame(p.segments);
    StrippedSayTheSame(p.words);
  }

  /** A job without a checkpoint: nothing is saved, and it never yields. */
  ghost function SessionWithout(w: Work, digest: Digest, s: Script): Outcome
    requires w.window > 0.0
  {
    Continue(w, digest, START, Missing, false, s, 0).1
  }

  method TranscribeChunked(w: Work, digest: Digest, disk: Checkpoint?, s: Script) returns (outcome: Outcome, text: string, nWindows: int)
    requires w.window > 0.0
    requires disk != null && Matches(disk.file, digest) ==> IsPrefix(w, disk.file.progress)
    modifies disk
    ensures disk != null ==> (disk.file, outcome) == Session(w, digest, old(disk.file), s)
    ensures disk == null ==> outcome == SessionWithout(w, digest, s)
    ensures nWindows == NumWindows(w) && (outcome.Done? ==> text == RawText(outcome.result))
  {
    hide NextWindow, WindowsLeft, IsPrefix, Seamless, RawText;
    text, nWindows := "", NumWindows(w);
    var offset, winIdx := 0.0, 0;
    var allWords := new EntryList([]);
    var allSegments := new EntryList([]);
    StartIsPrefix(w);
    var resumed: Option<Progress> := None;
    if disk != null && LoadBreaks(disk.file, s) {
      return Interrupted, text, nWindows;
    }
    if disk != null {
      var (loaded, found) := Load(disk.file, digest, s);
      disk.file := loaded;
      resumed := found;
    }
    if resumed.Some? {
      offset, winIdx := resumed.value.offset, resumed.value.winIdx;
      allWords := new EntryList(resumed.value.words);
      allSegments := new EntryList(resumed.value.segments);
    }
    var enabled, k := disk != null, 0;
    ghost var at := Progress(offset, winIdx, allWords.items, allSegments.items);
    ghost var whole := if disk != null then Session(w, digest, old(disk.file), s) else (Missing, SessionWithout(w, digest, s));
    while offset < w.duration
      invariant at == Progress(offset, winIdx, allWords.items, allSegments.items)
      invariant IsPrefix(w, at) && fresh(allWords) && fresh(allSegments) && allWords != allSegments
      invariant enabled ==> disk != null
      invariant whole.1 == Continue(w, digest, at, if disk == null then Missing else disk.file, enabled, s, k).1
      invariant disk != null ==> whole.0 == Continue(w, digest, at, disk.file, enabled, s, k).0
      decreases WindowsLeft(w, offset)
    {
      WindowsRunOut(w, offset);
      PrefixExtends(w, at);
      SeamlessPrefix(w, at);
      if s.at(k).fails {
        return Interrupted, text, nWindows;
      }
      OneWindow(w, offset, allWords, allSegments, at);
      at := NextWindow(w, at);
      offset, winIdx := offset + w.window, winIdx + 1;
      if s.at(k).saveFails {
        enabled := false;
      }
      if enabled {
        disk.file := Saved(CHECKPOINT_FORMAT, digest, Progress(offset, winIdx, allWords.items, allSegments.items));
      }
      if s.at(k).dies {
        return Interrupted, text, nWindows;
      }
      if offset < w.duration && s.at(k).claimLost {
        return ClaimLost, text, nWindows;
      }
      if offset < w.duration && enabled && s.at(k).gateClosed {
        return Yielded, text, nWindows;
      }
      k := k + 1;
    }
    var result := Progress(offset, winIdx, allWords.items, allSegments.items);
    outcome, text := Done(result), RawText(result);
  }

  /** The number of windows reported is the number the uninterrupted run takes exactly when
      the file has a duration; for one without, one window is reported and none taken. */
  lemma WindowsAreCounted(w: Work)
    requires w.window > 0.0
    ensures Uninterrupted(w).winIdx == NumWindows(w) <==> w.duration > 0.0
    ensures w.duration <= 0.0 ==> Uninterrupted(w).winIdx == 0 && NumWindows(w) == 1
  {
    CompleteWindows(w, START);
    QuotientOf(w.duration, w.window, w.duration / w.window);
    if w.duration <= 0.0 { NegativeQuotient(w.duration, w.window); }
  }

  lemma NegativeQuotient(x: real, y: real)
    requires y > 0.0 && x <= 0.0
    ensures x / y <= 0.0
  {
    var q := x / y;
    assert q * y == x;
  }

  lemma {:induction false} CompleteWindows(w: Work, p: Progress)
    requires w.window > 0.0
    ensures Complete(w, p).winIdx == p.winIdx + if AtEnd(w, p) then 0 else Ceil((w.duration - p.offset) / w.window)
    ensures !AtEnd(w, p) ==> Ceil((w.duration - p.offset) / w.window) >= 1
    decreases WindowsLeft(w, p.offset)
  {
    hide NextWindow, WindowsLeft;
    if !AtEnd(w, p) {
      var q := (w.duration - p.offset) / w.window;
      QuotientOf(w.duration - p.offset, w.window, q);
      WindowsRunOut(w, p.offset);
      NextWindowCounts(w, p);
      var p' := NextWindow(w, p);
      QuotientOf(w.duration - p'.offset, w.window, q - 1.0);
      CompleteWindows(w, p');
    }
  }

  lemma StartIsPrefix(w: Work)
    ensures IsPrefix(w, START)
  {
    assert After(w, 0) == START;
  }

  lemma SeamlessPrefix(w: Work, p: Progress)
    requires IsPrefix(w, p)
    ensures Seamless(p.words) && Seamless(p.segments)
  {
    var n: nat :| p == After(w, n);
    PrefixIsSeamless(w, n);
  }

  // ---- What every session keeps --------------------------------------------

  lemma {:induction false} ContinueFromPrefix(works: Digest -> Work, digest: Digest, p: Progress, file: Stored, enabled: bool, s: Script, k: nat)
    requires works(digest).window > 0.0 && IsPrefix(works(digest), p) && Honest(works, file)
    ensures var (file', outcome) := Continue(works(digest), digest, p, file, enabled, s, k);
            && Honest(works, file')
            && (outcome.Done? ==> outcome.result == Complete(works(digest), p))
            && (outcome.Yielded? ==> Matches(file', digest) && file'.progress.winIdx > p.winIdx && !AtEnd(works(digest), file'.progress))
            && (file' == file || (Matches(file', digest) && file'.progress.winIdx > p.winIdx))
            && (!enabled ==> file' == file && !outcome.Yielded?)
    decreases WindowsLeft(works(digest), p.offset)
  {
    hide NextWindow, WindowsLeft, IsPrefix;
    var w := works(digest);
    if !AtEnd(w, p) {
      WindowsRunOut(w, p.offset);
      PrefixExtends(w, p);
      NextWindowCounts(w, p);
      var b, p' := s.at(k), NextWindow(w, p);
      var enabled' := enabled && !b.saveFails;
      var file' := if enabled' then Saved(CHECKPOINT_FORMAT, digest, p') else file;
      ContinueFromPrefix(works, digest, p', file', enabled', s, k + 1);
    }
  }

  lemma NextWindowCounts(w: Work, p: Progress)
    ensures NextWindow(w, p).winIdx == p.winIdx + 1 && NextWindow(w, p).offset == p.offset + w.window
  {
  }

  /** One session, whatever happens to it: the file stays an exact prefix; a
      finished session returns what the uninterrupted run would; and a yield is
      preceded by a save of an unfinished state, at least one window past the one
      the session started from. */
  lemma SessionKeepsPrefix(works: Digest -> Work, digest: Digest, file: Stored, s: Script)
    requires works(digest).window > 0.0 && Honest(works, file)
    ensures var (file', outcome) := Session(works(digest), digest, file, s);
            && Honest(works, file')
            && (outcome.Done? ==> outcome.result == Uninterrupted(works(digest)))
            && (outcome.Yielded? ==> Matches(file', digest) && !AtEnd(works(digest), file'.progress)
                                     && SavedWindows(file', digest) > (if s.readFails then 0 else SavedWindows(file, digest)))
            && (!s.readFails ==> SavedWindows(file', digest) >= SavedWindows(file, digest))
  {
    hide NextWindow, WindowsLeft, IsPrefix, Complete;
    var w := works(digest);
    if LoadBreaks(file, s) { return; }
    var (file0, resumed) := Load(file, digest, s);
    var p := if resumed.Some? then resumed.value else START;
    StartIsPrefix(w);
    ContinueFromPrefix(works, digest, p, file0, true, s, 0);
    PrefixesComplete(w, p);
  }

  lemma PrefixesComplete(w: Work, p: Progress)
    requires w.window > 0.0 && IsPrefix(w, p)
    ensures Complete(w, p) == Uninterrupted(w)
    ensures !AtEnd(w, p) ==> p.winIdx < Uninterrupted(w).winIdx
  {
    var n: nat :| p == After(w, n);
    PrefixCompletes(w, n);
    CompleteCounts(w, p);
  }

  // ---- Where a session ends ------------------------------------------------

  /** The state i windows after p. */
  ghost function Ahead(w: Work, p: Progress, i: nat): Progress
  {
    if i == 0 then p else NextWindow(w, Ahead(w, p, i - 1))
  }

  lemma {:induction false} AheadFromNext(w: Work, p: Progress, i: nat)
    ensures Ahead(w, NextWindow(w, p), i) == Ahead(w, p, i + 1)
  {
    hide NextWindow;
    if i > 0 { AheadFromNext(w, p, i - 1); }
  }

  /** None of the session's saves from window k on fails before window k + n. */
  ghost predicate NoSaveFails(s: Script, k: nat, n: nat) { forall i :: k <= i < k + n ==> !s.at(i).saveFails }

  /** The session goes on past this window: it was transcribed and survived; and unless it
      was the last, the claim still stands and the gate is open or nothing could be saved. */
  ghost predicate GoesOn(last: bool, b: Boundary, saved: bool)
  {
    !b.fails && !b.dies && (last || (!b.claimLost && (saved ==> !b.gateClosed)))
  }

  /** How a session can end at window k + n, all those before it passed. */
  ghost predicate EndsThus(w: Work, p: Progress, enabled: bool, s: Script, k: nat, n: nat, outcome: Outcome)
  {
    var b, here := s.at(k + n), Ahead(w, p, n);
    match outcome
    case Done(result) => AtEnd(w, here) && result == here
    case Interrupted => !AtEnd(w, here) && (b.fails || b.dies)
    case ClaimLost => !AtEnd(w, here) && !AtEnd(w, NextWindow(w, here)) && !b.fails && !b.dies && b.claimLost
    case Yielded =>
      && !AtEnd(w, here) && !AtEnd(w, NextWindow(w, here)) && !b.fails && !b.dies && !b.claimLost
      && b.gateClosed && enabled && NoSaveFails(s, k, n + 1)
  }

  ghost predicate PassesTo(w: Work, p: Progress, enabled: bool, s: Script, k: nat, n: nat)
  {
    forall i: nat :: i < n ==> PassesAt(w, p, enabled, s, k, i)
  }

  ghost predicate PassesAt(w: Work, p: Progress, enabled: bool, s: Script, k: nat, i: nat)
  {
    !AtEnd(w, Ahead(w, p, i)) && GoesOn(AtEnd(w, Ahead(w, p, i + 1)), s.at(k + i), enabled && NoSaveFails(s, k, i + 1))
  }

  /** The file holds the last of the windows saved in a row, or what it held before. */
  ghost predicate LeavesFile(w: Work, digest: Digest, p: Progress, file: Stored, enabled: bool, s: Script, k: nat, m: nat, file': Stored)
  {
    && NoSaveFails(s, k, m)
    && file' == if enabled && m > 0 then Saved(CHECKPOINT_FORMAT, digest, Ahead(w, p, m)) else file
  }

  lemma SavesFromNext(s: Script, k: nat, n: nat)
    ensures NoSaveFails(s, k, n + 1) <==> !s.at(k).saveFails && NoSaveFails(s, k + 1, n)
  {
  }

  lemma PassesFromNext(w: Work, p: Progress, enabled: bool, s: Script, k: nat, n: nat)
    requires PassesAt(w, p, enabled, s, k, 0) && PassesTo(w, NextWindow(w, p), enabled && !s.at(k).saveFails, s, k + 1, n)
    ensures PassesTo(w, p, enabled, s, k, n + 1)
  {
    hide NextWindow, GoesOn, AtEnd, Ahead, NoSaveFails;
    forall i: nat | i < n + 1
      ensures PassesAt(w, p, enabled, s, k, i)
    {
      if i > 0 {
        assert PassesAt(w, NextWindow(w, p), enabled && !s.at(k).saveFails, s, k + 1, i - 1);
        AheadFromNext(w, p, i - 1);
        AheadFromNext(w, p, i);
        SavesFromNext(s, k, i);
      }
    }
  }

  lemma EndsFromNext(w: Work, p: Progress, enabled: bool, s: Script, k: nat, n: nat, outcome: Outcome)
    requires EndsThus(w, NextWindow(w, p), enabled && !s.at(k).saveFails, s, k + 1, n, outcome)
    ensures EndsThus(w, p, enabled, s, k, n + 1, outcome)
  {
    hide NextWindow, AtEnd, Ahead, NoSaveFails;
    AheadFromNext(w, p, n);
    SavesFromNext(s, k, n + 1);
  }

  lemma LeavesFromNext(w: Work, digest: Digest, p: Progress, file: Stored, enabled: bool, s: Script, k: nat, m: nat, file': Stored)
    requires !s.at(k).saveFails
    requires LeavesFile(w, digest, NextWindow(w, p), if enabled then Saved(CHECKPOINT_FORMAT, digest, NextWindow(w, p)) else file, enabled, s, k + 1, m, file')
    ensures LeavesFile(w, digest, p, file, enabled, s, k, m + 1, file')
  {
    hide NextWindow, NoSaveFails;
    AheadFromNext(w, p, m);
    SavesFromNext(s, k, m);
  }

  /** A session ends at the first window at which something ends it, and in that way; the
      file then holds exactly the windows done before the first failed save. */
  lemma {:induction false} SessionEndsAtFirstStop(w: Work, digest: Digest, p: Progress, file: Stored, enabled: bool, s: Script, k: nat) returns (n: nat, m: nat)
    requires w.window > 0.0
    ensures var (file', outcome) := Continue(w, digest, p, file, enabled, s, k);
            && PassesTo(w, p, enabled, s, k, n) && EndsThus(w, p, enabled, s, k, n, outcome)
            && LeavesFile(w, digest, p, file, enabled, s, k, m, file')
            && var done := if outcome.Done? || s.at(k + n).fails then n else n + 1;
               m <= done && (m < done ==> s.at(k + m).saveFails)
    decreases WindowsLeft(w, p.offset)
  {
    hide NextWindow, WindowsLeft, PassesAt, EndsThus, LeavesFile;
    n, m := 0, 0;
    StopsHere(w, digest, p, file, enabled, s, k);
    if AtEnd(w, p) || s.at(k).fails { return; }
    var b, p' := s.at(k), NextWindow(w, p);
    WindowsRunOut(w, p.offset);
    NextWindowCounts(w, p);
    AheadFromNext(w, p, 0);
    if !b.saveFails { m := 1; }
    var enabled' := enabled && !b.saveFails;
    if b.dies || (!AtEnd(w, p') && (b.claimLost || (enabled' && b.gateClosed))) { return; }
    var file' := if enabled' then Saved(CHECKPOINT_FORMAT, digest, p') else file;
    var n', m' := SessionEndsAtFirstStop(w, digest, p', file', enabled', s, k + 1);
    n := n' + 1;
    PassesFromNext(w, p, enabled, s, k, n');
    EndsFromNext(w, p, enabled, s, k, n', Continue(w, digest, p', file', enabled', s, k + 1).1);
    if b.saveFails {
      Unsaved(w, digest, p', file, s, k + 1, m', Continue(w, digest, p', file', enabled', s, k + 1).0);
    } else {
      m := m' + 1;
      LeavesFromNext(w, digest, p, file, enabled, s, k, m', Continue(w, digest, p', file', enabled', s, k + 1).0);
    }
  }

  /** Nothing has happened yet, or one window. */
  lemma StopsHere(w: Work, digest: Digest, p: Progress, file: Stored, enabled: bool, s: Script, k: nat)
    ensures var b, here, next := s.at(k), p, NextWindow(w, p);
      && LeavesFile(w, digest, p, file, enabled, s, k, 0, file)
      && (!b.saveFails ==> LeavesFile(w, digest, p, file, enabled, s, k, 1, if enabled then Saved(CHECKPOINT_FORMAT, digest, next) else file))
      && (AtEnd(w, p) ==> EndsThus(w, p, enabled, s, k, 0, Done(p)))
      && (!AtEnd(w, p) && (b.fails || b.dies) ==> EndsThus(w, p, enabled, s, k, 0, Interrupted))
      && (!AtEnd(w, p) && !b.fails && !b.dies && !AtEnd(w, next) && b.claimLost ==> EndsThus(w, p, enabled, s, k, 0, ClaimLost))
      && (!AtEnd(w, p) && !b.fails && !b.dies && !AtEnd(w, next) && !b.claimLost && enabled && !b.saveFails && b.gateClosed ==>
            EndsThus(w, p, enabled, s, k, 0, Yielded))
      && (!AtEnd(w, p) && GoesOn(AtEnd(w, next), b, enabled && !b.saveFails) ==> PassesAt(w, p, enabled, s, k, 0))
  {
    hide NextWindow;
    assert Ahead(w, p, 0) == p && Ahead(w, p, 1) == NextWindow(w, p);
    SavesFromNext(s, k, 0);
  }

  lemma Unsaved(w: Work, digest: Digest, p: Progress, file: Stored, s: Script, k: nat, m: nat, file': Stored)
    requires LeavesFile(w, digest, p, file, false, s, k, m, file')
    ensures file' == file
  {
  }

  // ---- Whole runs ----------------------------------------------------------

  /** A job's history: sessions one after another on the same host, each under the
      fingerprint of its time. */
  datatype Attempt = Attempt(digest: Digest, script: Script)

  ghost predicate AllSound(works: Digest -> Work) { forall d :: works(d).window > 0.0 }

  ghost function FileAfter(works: Digest -> Work, file: Stored, run: seq<Attempt>): Stored
    requires AllSound(works)
  {
    if run == [] then file
    else
      var last := run[|run| - 1];
      Session(works(last.digest), last.digest, FileAfter(works, file, run[..|run| - 1]), last.script).0
  }

  ghost function OutcomeOf(works: Digest -> Work, file: Stored, run: seq<Attempt>): Outcome
    requires AllSound(works) && run != []
  {
    var last := run[|run| - 1];
    Session(works(last.digest), last.digest, FileAfter(works, file, run[..|run| - 1]), last.script).1
  }

  lemma {:induction false} RunStaysHonest(works: Digest -> Work, file: Stored, run: seq<Attempt>)
    requires AllSound(works) && Honest(works, file)
    ensures Honest(works, FileAfter(works, file, run))
  {
    hide Session, Honest;
    if run != [] {
      RunStaysHonest(works, file, run[..|run| - 1]);
      var last := run[|run| - 1];
      SessionKeepsPrefix(works, last.digest, FileAfter(works, file, run[..|run| - 1]), last.script);
    }
  }

  /** A checkpoint that can be read but is stale or corrupt is gone after the session, or
      replaced by one of its own, unless it could not be deleted. */
  lemma StaleCheckpointIsDeleted(w: Work, digest: Digest, file: Stored, s: Script)
    requires w.window > 0.0 && !s.readFails && !file.Undecodable? && !file.Missing? && !Matches(file, digest)
    ensures var file' := Session(w, digest, file, s).0;
      && (!s.deleteFails ==> file' == Missing || Matches(file', digest))
      && (s.deleteFails ==> file' == file || Matches(file', digest))
      && (s.deleteFails && s.at(0).fails ==> file' == file)
  {
    hide NextWindow, WindowsLeft, IsPrefix, Complete;
    FileOrOwn(w, digest, START, if s.deleteFails then file else Missing, true, s, 0);
  }

  /** A session's file is the one it started with, or one of its own. */
  lemma {:induction false} FileOrOwn(w: Work, digest: Digest, p: Progress, file: Stored, enabled: bool, s: Script, k: nat)
    requires w.window > 0.0
    ensures var file' := Continue(w, digest, p, file, enabled, s, k).0; file' == file || Matches(file', digest)
    decreases WindowsLeft(w, p.offset)
  {
    hide NextWindow, WindowsLeft;
    if !AtEnd(w, p) {
      WindowsRunOut(w, p.offset);
      NextWindowCounts(w, p);
      var b, p' := s.at(k), NextWindow(w, p);
      var enabled' := enabled && !b.saveFails;
      FileOrOwn(w, digest, p', if enabled' then Saved(CHECKPOINT_FORMAT, digest, p') else file, enabled', s, k + 1);
    }
  }

  /** Nothing goes wrong in this session but, perhaps, the reading of its file. */
  function Undisturbed(readFails: bool): Script
  {
    Script(readFails, false, k => Boundary(false, false, false, false, false))
  }

  lemma {:induction false} UndisturbedFinishes(w: Work, digest: Digest, p: Progress, file: Stored, enabled: bool, readFails: bool, k: nat)
    requires w.window > 0.0
    ensures Continue(w, digest, p, file, enabled, Undisturbed(readFails), k).1.Done?
    decreases WindowsLeft(w, p.offset)
  {
    hide NextWindow, WindowsLeft;
    if !AtEnd(w, p) {
      WindowsRunOut(w, p.offset);
      NextWindowCounts(w, p);
      UndisturbedFinishes(w, digest, NextWindow(w, p), if enabled then Saved(CHECKPOINT_FORMAT, digest, NextWindow(w, p)) else file, enabled, readFails, k + 1);
    }
  }

  /** A checkpoint keeps its job from finishing exactly when it can be read and is not
      text: whatever else it holds, and when it cannot be read, an undisturbed session
      finishes. */
  lemma CheckpointFailsJobExactly(w: Work, digest: Digest, file: Stored, readFails: bool)
    requires w.window > 0.0
    ensures (exists s: Script :: s.readFails == readFails && Session(w, digest, file, s).1.Done?) <==> readFails || !file.Undecodable?
  {
    hide NextWindow, Continue;
    var s := Undisturbed(readFails);
    if !LoadBreaks(file, s) {
      var (file', resumed) := Load(file, digest, s);
      UndisturbedFinishes(w, digest, if resumed.Some? then resumed.value else START, file', true, readFails, 0);
      assert Session(w, digest, file, s).1.Done?;
    }
  }

  /** A checkpoint that is not text blocks its job: as long as it can be read, no session
      does anything but fail, and the file stays. */
  lemma {:induction false} UndecodableCheckpointBlocks(works: Digest -> Work, file: Stored, run: seq<Attempt>)
    requires AllSound(works) && file == Undecodable && forall k :: 0 <= k < |run| ==> !run[k].script.readFails
    ensures FileAfter(works, file, run) == Undecodable && (run != [] ==> OutcomeOf(works, file, run) == Interrupted)
  {
    if run != [] { UndecodableCheckpointBlocks(works, file, run[..|run| - 1]); }
  }

  /** Interrupted equals uninterrupted: however often a job was stopped, crashed,
      yielded, lost its saves or changed its fingerprint before, the session that
      finishes returns exactly the uninterrupted result of its own work. */
  lemma InterruptedEqualsUninterrupted(works: Digest -> Work, file: Stored, run: seq<Attempt>)
    requires AllSound(works) && Honest(works, file) && run != []
    requires OutcomeOf(works, file, run).Done?
    ensures OutcomeOf(works, file, run).result == Uninterrupted(works(run[|run| - 1].digest))
  {
    hide Session, Honest;
    var last := run[|run| - 1];
    RunStaysHonest(works, file, run[..|run| - 1]);
    SessionKeepsPrefix(works, last.digest, FileAfter(works, file, run[..|run| - 1]), last.script);
  }

  ghost function Yields(works: Digest -> Work, file: Stored, run: seq<Attempt>): nat
    requires AllSound(works)
  {
    if run == [] then 0
    else Yields(works, file, run[..|run| - 1]) + (if OutcomeOf(works, file, run).Yielded? then 1 else 0)
  }

  /** A job without a checkpoint never yields, and returns the uninterrupted result. */
  lemma WithoutCheckpoint(w: Work, digest: Digest, s: Script)
    requires w.window > 0.0
    ensures !SessionWithout(w, digest, s).Yielded?
    ensures SessionWithout(w, digest, s).Done? ==> SessionWithout(w, digest, s).result == Uninterrupted(w)
  {
    hide NextWindow, WindowsLeft, IsPrefix, Complete;
    StartIsPrefix(w);
    ContinueFromPrefix(d => w, digest, START, Missing, false, s, 0);
  }

  ghost function ReadFailures(run: seq<Attempt>): nat
  {
    if run == [] then 0 else ReadFailures(run[..|run| - 1]) + if run[|run| - 1].script.readFails then 1 else 0
  }

  /** Each yield has one more window saved than the last, but an unreadable file loses
      what was saved. */
  lemma {:induction false} YieldsAreSaved(works: Digest -> Work, digest: Digest, file: Stored, run: seq<Attempt>)
    requires AllSound(works) && Honest(works, file)
    requires forall k :: 0 <= k < |run| ==> run[k].digest == digest
    ensures Yields(works, file, run) <= ReadFailures(run) * Uninterrupted(works(digest)).winIdx + SavedWindows(FileAfter(works, file, run), digest)
    ensures ReadFailures(run) == 0 && Yields(works, file, run) > 0 ==> Yields(works, file, run) < Uninterrupted(works(digest)).winIdx
  {
    hide Session, Honest, Uninterrupted, AtEnd, SavedWindows, Matches;
    if run != [] {
      var init, last := run[..|run| - 1], run[|run| - 1];
      var total := Uninterrupted(works(digest)).winIdx;
      YieldsAreSaved(works, digest, file, init);
      RunStaysHonest(works, file, init);
      SavedAtMost(works, digest, FileAfter(works, file, init));
      SessionKeepsPrefix(works, digest, FileAfter(works, file, init), last.script);
      if last.script.readFails {
        assert ReadFailures(run) * total == ReadFailures(init) * total + total;
      } else {
        assert ReadFailures(run) * total == ReadFailures(init) * total;
      }
      if OutcomeOf(works, file, run).Yielded? {
        RunStaysHonest(works, file, run);
        UnfinishedSaves(works, digest, FileAfter(works, file, run));
      }
      if ReadFailures(run) == 0 { assert ReadFailures(init) == 0 && ReadFailures(init) * total == 0; }
    }
  }

  lemma SavedAtMost(works: Digest -> Work, digest: Digest, file: Stored)
    requires works(digest).window > 0.0 && Honest(works, file)
    ensures SavedWindows(file, digest) <= Uninterrupted(works(digest)).winIdx
  {
    if Matches(file, digest) {
      var n: nat :| file.progress == After(works(digest), n);
      PrefixCompletes(works(digest), n);
      CompleteCounts(works(digest), file.progress);
    }
  }

  lemma UnfinishedSaves(works: Digest -> Work, digest: Digest, file: Stored)
    requires works(digest).window > 0.0 && Honest(works, file)
    requires Matches(file, digest) && !AtEnd(works(digest), file.progress)
    ensures SavedWindows(file, digest) < Uninterrupted(works(digest)).winIdx
  {
    PrefixesComplete(works(digest), file.progress);
  }

  /** Yielding is bounded by the windows: a job yields fewer times than it has windows
      while its checkpoint can be read back, and each time it cannot costs at most that
      many yields more. */
  lemma YieldsAreBounded(works: Digest -> Work, digest: Digest, file: Stored, run: seq<Attempt>)
    requires AllSound(works) && Honest(works, file)
    requires forall k :: 0 <= k < |run| ==> run[k].digest == digest
    ensures var total, n := Uninterrupted(works(digest)).winIdx, Yields(works, file, run);
            && n <= (ReadFailures(run) + 1) * total
            && (ReadFailures(run) == 0 ==> n < total || n == 0)
  {
    hide Session, Honest, Uninterrupted;
    var total := Uninterrupted(works(digest)).winIdx;
    YieldsAreSaved(works, digest, file, run);
    RunStaysHonest(works, file, run);
    SavedAtMost(works, digest, FileAfter(works, file, run));
    assert (ReadFailures(run) + 1) * total == ReadFailures(run) * total + total;
  }

  /** A session's yield leaves more windows saved than there were. */
  ghost predicate Progresses(w: Work, digest: Digest, file: Stored, s: Script)
    requires w.window > 0.0
  {
    Session(w, digest, file, s).1.Yielded? ==> SavedWindows(Session(w, digest, file, s).0, digest) > SavedWindows(file, digest)
  }

  /** Every yield makes progress exactly when the file can be read, or holds no window
      of this work, or one window finishes the file. */
  lemma YieldsMakeProgress(works: Digest -> Work, digest: Digest, file: Stored, readFails: bool)
    requires works(digest).window > 0.0 && Honest(works, file)
    ensures (forall s: Script :: s.readFails == readFails ==> Progresses(works(digest), digest, file, s))
            <==> !readFails || SavedWindows(file, digest) == 0 || works(digest).duration <= works(digest).window
  {
    hide Session, Honest, IsPrefix;
    var w := works(digest);
    if !readFails || SavedWindows(file, digest) == 0 || w.duration <= w.window {
      forall s: Script | s.readFails == readFails
        ensures Progresses(w, digest, file, s)
      {
        SessionKeepsPrefix(works, digest, file, s);
        if Session(w, digest, file, s).1.Yielded? { UnfinishedIsShort(works, digest, Session(w, digest, file, s).0); }
      }
    } else {
      var s := Script(true, false, k => Boundary(false, false, false, false, true));
      UnreadableYields(w, digest, file, s);
      assert !Progresses(w, digest, file, s);
    }
  }

  lemma UnfinishedIsShort(works: Digest -> Work, digest: Digest, file: Stored)
    requires works(digest).window > 0.0 && Honest(works, file)
    requires Matches(file, digest) && !AtEnd(works(digest), file.progress) && file.progress.winIdx > 0
    ensures works(digest).window < works(digest).duration
  {
    var n: nat :| file.progress == After(works(digest), n);
    OffsetCounts(works(digest), n);
  }

  lemma {:induction false} OffsetCounts(w: Work, n: nat)
    requires w.window > 0.0
    ensures var p := After(w, n); p.offset >= 0.0 && (p.winIdx > 0 ==> p.offset >= w.window)
  {
    hide NextWindow;
    if n > 0 {
      OffsetCounts(w, n - 1);
      NextWindowCounts(w, After(w, n - 1));
    }
  }

  lemma UnreadableYields(w: Work, digest: Digest, file: Stored, s: Script)
    requires w.window > 0.0 && w.duration > w.window && Matches(file, digest) && s.readFails
    requires forall k :: s.at(k) == Boundary(false, false, false, false, true)
    ensures Session(w, digest, file, s) == (Saved(CHECKPOINT_FORMAT, digest, NextWindow(w, START)), Yielded)
    ensures NextWindow(w, START).winIdx == 1
  {
    hide NextWindow;
    NextWindowCounts(w, START);
  }

  /** Such a run without progress: a session that cannot read the file starts over and
      yields leaving exactly the file it found, so the same session can repeat without
      end. */
  lemma UnreadableCheckpointMakesNoProgress(w: Work, digest: Digest) returns (file: Stored, s: Script)
    requires w.window > 0.0 && w.duration > w.window
    ensures Matches(file, digest) && IsPrefix(w, file.progress) && s.readFails
    ensures Session(w, digest, file, s) == (file, Yielded)
  {
    StartIsPrefix(w);
    PrefixExtends(w, START);
    file := Saved(CHECKPOINT_FORMAT, digest, NextWindow(w, START));
    s := Script(true, false, k => Boundary(false, false, false, false, true));
    UnreadableYields(w, digest, file, s);
  }
}
