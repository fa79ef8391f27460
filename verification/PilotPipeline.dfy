/** The pilot pipeline: the windows of many tracks go through shared batches, a batch
    that runs out of memory is halved and retried, and every track is accounted for
    exactly once whatever fails on the way. */
module PilotPipeline {
  import opened Optional
  import opened Coverage
  import opened WindowPlanner

  /** The audio of one window of one track, and what the model hears there. */
  datatype Audio = Audio(track: nat, span: Interval)

  type Heard = string

  /** One generate call: it works, runs out of memory, breaks, or returns the wrong
      number of results. */
  datatype Attempt = Works | OutOfMemory | Breaks | WrongCount

  // ---- Batcher -------------------------------------------------------------

  class Batcher {
    const hear: Audio -> Heard
    var size: nat
    var calls: seq<nat>
    var attempts: nat
    ghost var log: seq<seq<Audio>>

    constructor (hear: Audio -> Heard, size: nat)
      ensures this.hear == hear && this.size == size && calls == [] && attempts == 0 && log == []
    {
      this.hear := hear;
      this.size := size;
      calls, attempts, log := [], 0, [];
    }

    method TranscribeBatch(part: seq<Audio>, world: nat -> Attempt) returns (a: Attempt, got: seq<Heard>)
      modifies this`attempts, this`log
      ensures a == world(old(attempts)) && attempts == old(attempts) + 1 && log == old(log) + [part]
      ensures a == Works ==> |got| == |part| && forall k :: 0 <= k < |part| ==> got[k] == hear(part[k])
      ensures a != Works ==> |got| != |part|
    {
      a := world(attempts);
      attempts, log := attempts + 1, log + [part];
      got := if a == Works then seq(|part|, k requires 0 <= k < |part| => hear(part[k])) else seq(|part| + 1, _ => "");
    }

    /** One result per window, in order, under any pattern of out-of-memory errors. The
        size halves at each of those and at nothing else. It gives up only when its last
        call breaks, miscounts, or runs out of memory on a single window. */
    method Run(audios: seq<Audio>, world: nat -> Attempt) returns (r: Option<seq<Heard>>)
      requires size >= 1 && |log| == attempts
      modifies this
      ensures 1 <= size <= old(size) && size == SizeAfter(world, old(size), old(attempts), attempts)
      ensures |log| == attempts && old(log) <= log && (audios != [] ==> attempts > old(attempts))
      ensures CallsOn(audios, log, world, old(size), old(attempts))
      ensures r.Some? ==> |r.value| == |audios| && forall k :: 0 <= k < |audios| ==> r.value[k] == hear(audios[k])
      ensures r.Some? ==> old(calls) <= calls && Sum(calls) == Sum(old(calls)) + |audios|
      ensures r.None? ==>
        && attempts > old(attempts) && GivesUp(world(attempts - 1), SizeAfter(world, old(size), old(attempts), attempts - 1))
        && NoneGivesUp(world, old(size), old(attempts), attempts - 1)
      ensures r.Some? ==> NoneGivesUp(world, old(size), old(attempts), attempts)
    {
      hide SizeAfter, CallsOn, NoneGivesUp, IsPart;
      var results, i := [], 0;
      NoCallsYet(audios, log, world, size);
      while i < |audios|
        invariant 0 <= i <= |audios| && |results| == i && 1 <= size <= old(size) && old(attempts) <= attempts
        invariant |log| == attempts && old(log) <= log && size == SizeAfter(world, old(size), old(attempts), attempts)
        invariant i > 0 ==> attempts > old(attempts)
        invariant CallsOn(audios, log, world, old(size), old(attempts)) && NoneGivesUp(world, old(size), old(attempts), attempts)
        invariant forall k :: 0 <= k < i ==> results[k] == hear(audios[k])
        invariant old(calls) <= calls && Sum(calls) == Sum(old(calls)) + i
        decreases |audios| - i, size
      {
        var part := audios[i..if i + size < |audios| then i + size else |audios|];
        NextPart(audios, i, size);
        OneCallMore(audios, log, world, old(size), old(attempts), part);
        var a, got := TranscribeBatch(part, world);
        if a == OutOfMemory && size > 1 {
          size := if size / 2 > 1 then size / 2 else 1;
          continue;
        }
        if a == OutOfMemory || a == Breaks { return None; }
        if |got| != |part| { return None; }
        results := results + got;
        SumSnoc(calls, |part|);
        calls := calls + [|part|];
        i := i + |part|;
      }
      return Some(results);
    }
  }

  /** A call that cannot be made smaller: it breaks, miscounts, or runs out of memory on
      a single window. */
  predicate GivesUp(a: Attempt, size: nat) { a in {Breaks, WrongCount} || (a == OutOfMemory && size == 1) }

  /** The size halves exactly when memory runs out. */
  function Halved(a: Attempt, size: nat): nat
  {
    if a == OutOfMemory && size > 1 then (if size / 2 > 1 then size / 2 else 1) else size
  }

  /** As many of the audios in a row as the size allows, or as are left. */
  ghost predicate IsPart(part: seq<Audio>, audios: seq<Audio>, size: nat)
  {
    exists i: nat :: i < |audios| && part == PartAt(audios, i, size)
  }

  function PartAt(audios: seq<Audio>, i: nat, size: nat): seq<Audio>
    requires i <= |audios|
  {
    audios[i..if i + size < |audios| then i + size else |audios|]
  }

  lemma NextPart(audios: seq<Audio>, i: nat, size: nat)
    requires i < |audios|
    ensures IsPart(audios[i..if i + size < |audios| then i + size else |audios|], audios, size)
  {
    assert IsPart(PartAt(audios, i, size), audios, size);
  }

  /** Every call since the one numbered from is on some of the audios in a row, as many as
      the size allows. */
  ghost predicate CallsOn(audios: seq<Audio>, log: seq<seq<Audio>>, world: nat -> Attempt, size: nat, from: nat)
  {
    forall n: nat :: from <= n < |log| ==>
      && log[n] != [] && |log[n]| <= SizeAfter(world, size, from, n) && (forall a :: a in log[n] ==> a in audios)
      && IsPart(log[n], audios, SizeAfter(world, size, from, n))
  }

  ghost predicate NoneGivesUp(world: nat -> Attempt, size: nat, from: nat, to: nat)
  {
    forall n: nat :: from <= n < to ==> !GivesUp(world(n), SizeAfter(world, size, from, n))
  }

  lemma NoCallsYet(audios: seq<Audio>, log: seq<seq<Audio>>, world: nat -> Attempt, size: nat)
    ensures CallsOn(audios, log, world, size, |log|) && NoneGivesUp(world, size, |log|, |log|)
    ensures SizeAfter(world, size, |log|, |log|) == size
  {
  }

  lemma OneCallMore(audios: seq<Audio>, log: seq<seq<Audio>>, world: nat -> Attempt, size: nat, from: nat, part: seq<Audio>)
    requires from <= |log| && CallsOn(audios, log, world, size, from) && NoneGivesUp(world, size, from, |log|)
    requires part != [] && |part| <= SizeAfter(world, size, from, |log|) && IsPart(part, audios, SizeAfter(world, size, from, |log|))
    ensures CallsOn(audios, log + [part], world, size, from)
    ensures SizeAfter(world, size, from, |log| + 1) == Halved(world(|log|), SizeAfter(world, size, from, |log|))
    ensures !GivesUp(world(|log|), SizeAfter(world, size, from, |log|)) ==> NoneGivesUp(world, size, from, |log| + 1)
  {
    hide GivesUp, Halved, SizeAfter;
    OneSizeMore(world, size, from, |log|);
    assert forall a :: a in part ==> a in audios;
    var more := log + [part];
    assert forall n: nat :: from <= n < |log| ==> more[n] == log[n];
    assert more[|log|] == part;
  }

  lemma OneSizeMore(world: nat -> Attempt, size: nat, from: nat, to: nat)
    requires from <= to
    ensures SizeAfter(world, size, from, to + 1) == Halved(world(to), SizeAfter(world, size, from, to))
  {
    hide Halved;
  }

  /** The batch size after the calls from one number to another. */
  function SizeAfter(world: nat -> Attempt, size: nat, from: nat, to: nat): nat
  {
    if to <= from then size else Halved(world(to - 1), SizeAfter(world, size, from, to - 1))
  }

  lemma {:induction false} SizeAfterTwice(world: nat -> Attempt, size: nat, from: nat, mid: nat, to: nat)
    requires from <= mid <= to
    ensures SizeAfter(world, SizeAfter(world, size, from, mid), mid, to) == SizeAfter(world, size, from, to)
  {
    if mid < to { SizeAfterTwice(world, size, from, mid, to - 1); }
  }

  lemma {:induction false} SizeNeverGrows(world: nat -> Attempt, size: nat, from: nat, to: nat)
    ensures SizeAfter(world, size, from, to) <= size
  {
    if from < to { SizeNeverGrows(world, size, from, to - 1); }
  }

  /** How often memory ran out. */
  function Ooms(world: nat -> Attempt, to: nat): nat
  {
    if to == 0 then 0 else Ooms(world, to - 1) + if world(to - 1) == OutOfMemory then 1 else 0
  }

  function Pow2(k: nat): nat { if k == 0 then 1 else 2 * Pow2(k - 1) }

  lemma {:induction false} SizeLeft(world: nat -> Attempt, size: nat, k: nat, to: nat)
    requires size >= Pow2(k) && Ooms(world, to) <= k
    ensures SizeAfter(world, size, 0, to) >= Pow2(k - Ooms(world, to)) >= 1
  {
    if to > 0 { SizeLeft(world, size, k, to - 1); }
    Pow2Positive(k - Ooms(world, to));
  }

  lemma {:induction false} Pow2Positive(k: nat)
    ensures Pow2(k) >= 1
  {
    if k > 0 { Pow2Positive(k - 1); }
  }

  /** The size is halved once for each failure of memory, down to one: it is the starting
      size divided, rounding down, by 2 to the number of them. */
  lemma {:induction false} SizeIsHalvedEachTime(world: nat -> Attempt, size: nat, to: nat)
    requires size >= 1
    ensures IsQuotient(size, SizeAfter(world, size, 0, to), Pow2(Ooms(world, to)))
  {
    if to > 0 {
      SizeIsHalvedEachTime(world, size, to - 1);
      HalfOfQuotient(size, SizeAfter(world, size, 0, to - 1), Pow2(Ooms(world, to - 1)));
    }
  }

  /** s is size divided by d, or one when that is nothing. */
  ghost predicate IsQuotient(size: nat, s: nat, d: nat)
  {
    s >= 1 && if s == 1 then size < 2 * d else s * d <= size < (s + 1) * d
  }

  lemma HalfOfQuotient(size: nat, s: nat, d: nat)
    requires IsQuotient(size, s, d)
    ensures IsQuotient(size, if s > 1 then s / 2 else 1, 2 * d)
  {
    var h := s / 2;
    assert h * (2 * d) == 2 * h * d && (h + 1) * (2 * d) == 2 * h * d + 2 * d;
    assert (s + 1) * d == s * d + d;
    if s % 2 == 0 { assert s * d == 2 * h * d; } else { assert s * d == (2 * h + 1) * d == 2 * h * d + d; }
  }

  /** A batch size of 2^k absorbs k failures of memory: when no call breaks or miscounts
      and at most k run out of memory, no call gives up. */
  lemma HalvingAbsorbs(world: nat -> Attempt, size: nat, k: nat, to: nat)
    requires size >= Pow2(k) && Ooms(world, to) <= k
    requires forall n :: 0 <= n < to ==> world(n) in {Works, OutOfMemory}
    ensures NoneGivesUp(world, size, 0, to)
  {
    forall n: nat | n < to
      ensures !GivesUp(world(n), SizeAfter(world, size, 0, n))
    {
      OomsGrow(world, n + 1, to);
      if world(n) == OutOfMemory {
        SizeLeft(world, size, k, n);
        Pow2Positive(k - Ooms(world, n) - 1);
        assert Pow2(k - Ooms(world, n)) == 2 * Pow2(k - Ooms(world, n) - 1);
      }
    }
  }

  lemma {:induction false} OomsGrow(world: nat -> Attempt, n: nat, to: nat)
    requires n <= to
    ensures Ooms(world, n) <= Ooms(world, to)
  {
    if n < to { OomsGrow(world, n, to - 1); }
  }

  function Sum(s: seq<nat>): nat
  {
    if s == [] then 0 else Sum(s[..|s| - 1]) + s[|s| - 1]
  }

  lemma SumSnoc(s: seq<nat>, n: nat)
    ensures Sum(s + [n]) == Sum(s) + n
  {
    assert (s + [n])[..|s|] == s;
  }

  // ---- Tracks under way ----------------------------------------------------

  datatype TrackState = TrackState(plan: seq<Interval>, texts: seq<Option<Heard>>, left: int, failed: bool)

  /** Where a track was counted. */
  datatype Fate = Undecided | Skipped | Failed | Written

  datatype WindowItem = WindowItem(track: nat, idx: nat, span: Interval)

  function Missing(texts: seq<Option<Heard>>): nat
  {
    if texts == [] then 0 else Missing(texts[..|texts| - 1]) + (if texts[|texts| - 1].None? then 1 else 0)
  }

  lemma {:induction false} MissingAfter(texts: seq<Option<Heard>>, k: nat, h: Heard)
    requires k < |texts| && texts[k].None?
    ensures Missing(texts[k := Some(h)]) == Missing(texts) - 1
  {
    var t := texts[k := Some(h)];
    if k < |texts| - 1 {
      MissingAfter(texts[..|texts| - 1], k, h);
      assert t[..|t| - 1] == texts[..|texts| - 1][k := Some(h)];
    } else {
      assert t[..|t| - 1] == texts[..|texts| - 1];
    }
  }

  lemma {:induction false} NoneMissing(texts: seq<Option<Heard>>)
    ensures Missing(texts) == 0 <==> forall k :: 0 <= k < |texts| ==> texts[k].Some?
  {
    if texts != [] { NoneMissing(texts[..|texts| - 1]); }
  }

  function Number(fate: seq<Fate>, f: Fate): nat
  {
    if fate == [] then 0 else Number(fate[..|fate| - 1], f) + (if fate[|fate| - 1] == f then 1 else 0)
  }

  lemma {:induction false} NumberAfter(fate: seq<Fate>, t: nat, f: Fate, g: Fate)
    requires t < |fate|
    ensures Number(fate[t := f], g) == Number(fate, g) + (if f == g then 1 else 0) - (if fate[t] == g then 1 else 0)
  {
    var r := fate[t := f];
    if t < |fate| - 1 {
      NumberAfter(fate[..|fate| - 1], t, f, g);
      assert r[..|r| - 1] == fate[..|fate| - 1][t := f];
    } else {
      assert r[..|r| - 1] == fate[..|fate| - 1];
    }
  }

  lemma {:induction false} NumbersAddUp(fate: seq<Fate>)
    ensures Number(fate, Undecided) + Number(fate, Skipped) + Number(fate, Failed) + Number(fate, Written) == |fate|
    ensures Number(fate, Undecided) == 0 <==> forall t :: 0 <= t < |fate| ==> fate[t] != Undecided
  {
    if fate != [] { NumbersAddUp(fate[..|fate| - 1]); }
  }

  // ---- What the pipeline keeps ---------------------------------------------

  /** How far the walk is: tracks before cur are walked, y windows of cur are. */
  datatype Walk = Walk(cur: nat, y: nat) {
    function Yielded(t: nat, n: nat): nat { if t < cur then n else if t == cur then y else 0 }
  }

  /** A track's own books. */
  ghost predicate TrackOk(hear: Audio -> Heard, t: nat, st: TrackState, f: Fate)
  {
    && |st.texts| == |st.plan| && st.left == Missing(st.texts)
    && (f == Failed <==> st.failed)
    && (f == Written ==> st.left == 0)
    && (f == Skipped ==> st.plan == [])
    && (forall k :: 0 <= k < |st.plan| && st.texts[k].Some? ==> st.texts[k].value == hear(Audio(t, st.plan[k])))
  }

  ghost predicate InBatch(batch: seq<WindowItem>, t: nat, k: nat)
  {
    exists q :: 0 <= q < |batch| && batch[q].track == t && batch[q].idx == k
  }

  /** Windows handed out are transcribed or in the batch; the others are not. */
  ghost predicate InStep(t: nat, st: TrackState, batch: seq<WindowItem>, w: Walk)
  {
    && w.Yielded(t, |st.plan|) <= |st.plan| == |st.texts|
    && (!st.failed ==> forall k: nat :: k < |st.plan| ==>
          (st.texts[k].Some? ==> k < w.Yielded(t, |st.plan|)) && (k < w.Yielded(t, |st.plan|) ==> st.texts[k].Some? || InBatch(batch, t, k)))
  }

  /** Every item stands for a window still missing, each once. */
  ghost predicate BatchOk(tracks: seq<TrackState>, batch: seq<WindowItem>, w: Walk)
  {
    && (forall q :: 0 <= q < |batch| ==> ItemOk(tracks, batch[q], w))
    && (forall p, q :: 0 <= p < q < |batch| ==> batch[p].track != batch[q].track || batch[p].idx != batch[q].idx)
  }

  ghost predicate ItemOk(tracks: seq<TrackState>, it: WindowItem, w: Walk)
  {
    && it.track < |tracks| && it.idx < |tracks[it.track].plan| == |tracks[it.track].texts|
    && it.idx < w.Yielded(it.track, |tracks[it.track].plan|)
    && it.span == tracks[it.track].plan[it.idx]
    && (!tracks[it.track].failed ==> tracks[it.track].texts[it.idx].None?)
  }

  ghost predicate Books(hear: Audio -> Heard, tracks: seq<TrackState>, fate: seq<Fate>)
  {
    |fate| == |tracks| && forall t: nat :: t < |tracks| ==> TrackOk(hear, t, tracks[t], fate[t])
  }

  ghost predicate AllInStep(tracks: seq<TrackState>, batch: seq<WindowItem>, w: Walk)
  {
    forall t: nat :: t < |tracks| ==> InStep(t, tracks[t], batch, w)
  }

  /** Outside a flush an undecided track with windows misses some of them. */
  ghost predicate NoneWaits(tracks: seq<TrackState>, fate: seq<Fate>)
    requires |fate| == |tracks|
  {
    forall t: nat :: t < |tracks| && fate[t] == Undecided && tracks[t].plan != [] ==> tracks[t].left > 0
  }

  /** Walked tracks without windows are decided. */
  ghost predicate WalkedDecided(tracks: seq<TrackState>, fate: seq<Fate>, w: Walk)
    requires |fate| == |tracks|
  {
    forall t: nat :: t < |tracks| && t < w.cur && tracks[t].plan == [] ==> fate[t] != Undecided
  }

  /** The whole of it, between two windows of the walk. */
  ghost predicate Consistent(hear: Audio -> Heard, tracks: seq<TrackState>, fate: seq<Fate>, batch: seq<WindowItem>, w: Walk)
  {
    && Books(hear, tracks, fate) && NoneWaits(tracks, fate) && WalkedDecided(tracks, fate, w)
    && AllInStep(tracks, batch, w) && BatchOk(tracks, batch, w)
  }

  /** With the whole walk done and the batch empty, nothing is left undecided. */
  lemma AllAccountedFor(hear: Audio -> Heard, tracks: seq<TrackState>, fate: seq<Fate>)
    requires Consistent(hear, tracks, fate, [], Walk(|tracks|, 0))
    ensures forall t :: 0 <= t < |fate| ==> fate[t] != Undecided
    ensures Number(fate, Skipped) + Number(fate, Failed) + Number(fate, Written) == |tracks|
  {
    forall t: nat | t < |fate|
      ensures fate[t] != Undecided
    {
      assert TrackOk(hear, t, tracks[t], fate[t]) && InStep(t, tracks[t], [], Walk(|tracks|, 0));
      NoneMissing(tracks[t].texts);
    }
    NumbersAddUp(fate);
  }

  // ---- One track changes ---------------------------------------------------

  lemma BooksAfter(hear: Audio -> Heard, tracks: seq<TrackState>, fate: seq<Fate>, t: nat, st: TrackState, f: Fate)
    requires Books(hear, tracks, fate) && t < |tracks| && TrackOk(hear, t, st, f)
    ensures Books(hear, tracks[t := st], fate[t := f])
  {
    hide TrackOk;
  }

  /** Failing a track frees it of every obligation. */
  lemma FailKeeps(hear: Audio -> Heard, tracks: seq<TrackState>, fate: seq<Fate>, batch: seq<WindowItem>, w: Walk, t: nat)
    requires Books(hear, tracks, fate) && AllInStep(tracks, batch, w) && BatchOk(tracks, batch, w) && WalkedDecided(tracks, fate, w)
    requires t < |tracks| && fate[t] == Undecided
    ensures var tracks', fate' := tracks[t := tracks[t].(failed := true)], fate[t := Failed];
            Books(hear, tracks', fate') && AllInStep(tracks', batch, w) && BatchOk(tracks', batch, w) && WalkedDecided(tracks', fate', w)
            && (NoneWaits(tracks, fate) ==> NoneWaits(tracks', fate'))
  {
    hide Missing, InBatch;
    var st := tracks[t].(failed := true);
    assert TrackOk(hear, t, tracks[t], fate[t]);
    BooksAfter(hear, tracks, fate, t, st, Failed);
    var tracks' := tracks[t := st];
    forall u: nat | u < |tracks|
      ensures InStep(u, tracks'[u], batch, w)
    {
      assert InStep(u, tracks[u], batch, w);
    }
    forall q | 0 <= q < |batch|
      ensures ItemOk(tracks[t := st], batch[q], w)
    {
      assert ItemOk(tracks, batch[q], w);
    }
  }

  /** Hearing the batch's first window fills its place. */
  lemma HearFirst(hear: Audio -> Heard, tracks: seq<TrackState>, fate: seq<Fate>, batch: seq<WindowItem>, w: Walk, h: Heard)
    requires Books(hear, tracks, fate) && AllInStep(tracks, batch, w) && BatchOk(tracks, batch, w) && WalkedDecided(tracks, fate, w)
    requires batch != [] && batch[0].track < |tracks| && !tracks[batch[0].track].failed
    requires h == hear(Audio(batch[0].track, batch[0].span))
    requires batch[0].idx < |tracks[batch[0].track].texts|
    requires fate[batch[0].track] == Undecided
    ensures var it := batch[0];
            var st := tracks[it.track];
            var tracks' := tracks[it.track := st.(texts := st.texts[it.idx := Some(h)], left := st.left - 1)];
            Books(hear, tracks', fate) && AllInStep(tracks', batch[1..], w) && BatchOk(tracks', batch[1..], w) && WalkedDecided(tracks', fate, w)
  {
    hide Missing;
    var it := batch[0];
    var t, st := it.track, tracks[it.track];
    var st' := st.(texts := st.texts[it.idx := Some(h)], left := st.left - 1);
    var tracks' := tracks[t := st'];
    assert ItemOk(tracks, it, w) && TrackOk(hear, t, st, fate[t]);
    MissingAfter(st.texts, it.idx, h);
    BooksAfter(hear, tracks, fate, t, st', fate[t]);
    assert fate[t := fate[t]] == fate;
    forall u: nat | u < |tracks|
      ensures InStep(u, tracks'[u], batch[1..], w)
    {
      assert InStep(u, tracks[u], batch, w);
      forall k: nat | k < |tracks[u].plan| && InBatch(batch, u, k) && !(u == t && k == it.idx)
        ensures InBatch(batch[1..], u, k)
      {
        var q :| 0 <= q < |batch| && batch[q].track == u && batch[q].idx == k;
        assert batch[1..][q - 1] == batch[q];
      }
    }
    forall q | 0 <= q < |batch[1..]|
      ensures ItemOk(tracks', batch[1..][q], w)
    {
      assert batch[1..][q] == batch[q + 1] && ItemOk(tracks, batch[q + 1], w);
    }
  }

  /** A decided state change that touches neither windows nor failure. */
  lemma WrittenKeeps(hear: Audio -> Heard, tracks: seq<TrackState>, fate: seq<Fate>, w: Walk, t: nat)
    requires Books(hear, tracks, fate) && WalkedDecided(tracks, fate, w)
    requires t < |tracks| && fate[t] == Undecided && tracks[t].left == 0
    ensures Books(hear, tracks, fate[t := Written]) && WalkedDecided(tracks, fate[t := Written], w)
    ensures tracks[t].plan != [] ==> forall k :: 0 <= k < |tracks[t].plan| ==> k < |tracks[t].texts| && tracks[t].texts[k] == Some(hear(Audio(t, tracks[t].plan[k])))
  {
    assert TrackOk(hear, t, tracks[t], fate[t]);
    BooksAfter(hear, tracks, fate, t, tracks[t], Written);
    assert tracks[t := tracks[t]] == tracks;
    NoneMissing(tracks[t].texts);
  }

  // ---- The batch -----------------------------------------------------------

  /** The items whose track has not failed. */
  function Live(tracks: seq<TrackState>, batch: seq<WindowItem>): seq<WindowItem>
    requires forall q :: 0 <= q < |batch| ==> batch[q].track < |tracks|
  {
    if batch == [] then []
    else
      var last := batch[|batch| - 1];
      Live(tracks, batch[..|batch| - 1]) + (if tracks[last.track].failed then [] else [last])
  }

  lemma {:induction false} LiveItems(tracks: seq<TrackState>, batch: seq<WindowItem>)
    requires forall q :: 0 <= q < |batch| ==> batch[q].track < |tracks|
    ensures forall it :: it in Live(tracks, batch) <==> it in batch && !tracks[it.track].failed
  {
    if batch != [] {
      LiveItems(tracks, batch[..|batch| - 1]);
      assert batch == batch[..|batch| - 1] + [batch[|batch| - 1]];
    }
  }

  lemma {:induction false} LiveIsDistinct(tracks: seq<TrackState>, batch: seq<WindowItem>, w: Walk)
    requires BatchOk(tracks, batch, w)
    requires forall q :: 0 <= q < |batch| ==> batch[q].track < |tracks|
    ensures BatchOk(tracks, Live(tracks, batch), w)
  {
    hide ItemOk;
    if batch != [] {
      var init, last := batch[..|batch| - 1], batch[|batch| - 1];
      LiveIsDistinct(tracks, init, w);
      LiveItems(tracks, init);
      var live := Live(tracks, init);
      forall p | 0 <= p < |live|
        ensures live[p].track != last.track || live[p].idx != last.idx
      {
        assert live[p] in live;
        var q :| 0 <= q < |init| && init[q] == live[p];
        assert batch[q] == init[q];
      }
      assert ItemOk(tracks, last, w);
    }
  }

  lemma LiveKeeps(tracks: seq<TrackState>, batch: seq<WindowItem>, w: Walk)
    requires AllInStep(tracks, batch, w) && BatchOk(tracks, batch, w)
    ensures forall q :: 0 <= q < |batch| ==> batch[q].track < |tracks|
    ensures AllInStep(tracks, Live(tracks, batch), w) && BatchOk(tracks, Live(tracks, batch), w)
    ensures forall q :: 0 <= q < |Live(tracks, batch)| ==> !tracks[Live(tracks, batch)[q].track].failed
  {
    assert forall q :: 0 <= q < |batch| ==> ItemOk(tracks, batch[q], w);
    LiveIsDistinct(tracks, batch, w);
    LiveItems(tracks, batch);
    var live := Live(tracks, batch);
    assert forall q :: 0 <= q < |live| ==> live[q] in live;
    forall t: nat | t < |tracks|
      ensures InStep(t, tracks[t], live, w)
    {
      assert InStep(t, tracks[t], batch, w);
      forall k: nat | !tracks[t].failed && InBatch(batch, t, k)
        ensures InBatch(live, t, k)
      {
        var q :| 0 <= q < |batch| && batch[q].track == t && batch[q].idx == k;
        assert batch[q] in live;
      }
    }
  }

  /** Handing out the next window of the current track. */
  lemma HandOut(hear: Audio -> Heard, tracks: seq<TrackState>, fate: seq<Fate>, batch: seq<WindowItem>, w: Walk)
    requires Consistent(hear, tracks, fate, batch, w)
    requires w.cur < |tracks| && !tracks[w.cur].failed && w.y < |tracks[w.cur].plan|
    ensures Consistent(hear, tracks, fate, batch + [WindowItem(w.cur, w.y, tracks[w.cur].plan[w.y])], Walk(w.cur, w.y + 1))
  {
    hide TrackOk, NoneWaits, WalkedDecided;
    var it := WindowItem(w.cur, w.y, tracks[w.cur].plan[w.y]);
    var batch', w' := batch + [it], Walk(w.cur, w.y + 1);
    WalkedAsBefore(tracks, fate, w, w');
    assert InStep(w.cur, tracks[w.cur], batch, w);
    forall t: nat | t < |tracks|
      ensures InStep(t, tracks[t], batch', w')
    {
      assert InStep(t, tracks[t], batch, w);
      forall k: nat | InBatch(batch, t, k)
        ensures InBatch(batch', t, k)
      {
        var q :| 0 <= q < |batch| && batch[q].track == t && batch[q].idx == k;
        assert batch'[q] == batch[q];
      }
      assert batch'[|batch|] == it;
      assert InBatch(batch', w.cur, w.y);
    }
    forall q | 0 <= q < |batch'|
      ensures ItemOk(tracks, batch'[q], w')
    {
      assert q < |batch| ==> ItemOk(tracks, batch[q], w);
    }
    assert forall q :: 0 <= q < |batch| ==> ItemOk(tracks, batch[q], w);
  }

  lemma WalkedAsBefore(tracks: seq<TrackState>, fate: seq<Fate>, w: Walk, w': Walk)
    requires |fate| == |tracks| && WalkedDecided(tracks, fate, w) && w'.cur == w.cur
    ensures WalkedDecided(tracks, fate, w')
  {
  }

  /** Going on to the next track: the current one failed, was skipped, or has handed
      out all its windows. */
  lemma NextTrack(hear: Audio -> Heard, tracks: seq<TrackState>, fate: seq<Fate>, batch: seq<WindowItem>, w: Walk)
    requires Consistent(hear, tracks, fate, batch, w) && w.cur < |tracks|
    requires tracks[w.cur].failed || w.y == |tracks[w.cur].plan|
    requires tracks[w.cur].plan == [] ==> fate[w.cur] != Undecided
    ensures Consistent(hear, tracks, fate, batch, Walk(w.cur + 1, 0))
  {
    hide Books, NoneWaits;
    var w' := Walk(w.cur + 1, 0);
    forall t: nat | t < |tracks|
      ensures InStep(t, tracks[t], batch, w')
    {
      assert InStep(t, tracks[t], batch, w);
    }
    forall q | 0 <= q < |batch|
      ensures ItemOk(tracks, batch[q], w')
    {
      assert ItemOk(tracks, batch[q], w);
      assert InStep(batch[q].track, tracks[batch[q].track], batch, w);
    }
  }

  /** Starting a track: its plan is known, nothing of it is handed out. */
  lemma StartTrack(hear: Audio -> Heard, tracks: seq<TrackState>, fate: seq<Fate>, batch: seq<WindowItem>, cur: nat, plan: seq<Interval>)
    requires Consistent(hear, tracks, fate, batch, Walk(cur, 0)) && cur < |tracks| && fate[cur] == Undecided && tracks[cur].plan == [] && plan != []
    ensures var st := TrackState(plan, seq(|plan|, _ => None), |plan|, false);
            Consistent(hear, tracks[cur := st], fate, batch, Walk(cur, 0))
  {
    var w := Walk(cur, 0);
    var st := TrackState(plan, seq(|plan|, _ => None), |plan|, false);
    AllMissing(st.texts);
    BooksAfter(hear, tracks, fate, cur, st, Undecided);
    assert fate[cur := Undecided] == fate;
    var tracks' := tracks[cur := st];
    forall t: nat | t < |tracks|
      ensures InStep(t, tracks'[t], batch, w)
    {
      assert InStep(t, tracks[t], batch, w);
    }
    forall q | 0 <= q < |batch|
      ensures ItemOk(tracks[cur := st], batch[q], w)
    {
      assert ItemOk(tracks, batch[q], w);
    }
  }

  lemma {:induction false} AllMissing(texts: seq<Option<Heard>>)
    requires forall k :: 0 <= k < |texts| ==> texts[k].None?
    ensures Missing(texts) == |texts|
  {
    if texts != [] { AllMissing(texts[..|texts| - 1]); }
  }

  // ---- Steps of a flush ----------------------------------------------------

  /** Only tracks the walk has reached changed, and no plan did. */
  ghost predicate OnlyUpTo(tracks0: seq<TrackState>, fate0: seq<Fate>, tracks: seq<TrackState>, fate: seq<Fate>, w: Walk)
  {
    && |tracks| == |tracks0| == |fate| == |fate0|
    && (forall u :: 0 <= u < |tracks| ==> tracks[u].plan == tracks0[u].plan)
    && (forall u :: 0 <= u < |tracks| && u > w.cur ==> tracks[u] == tracks0[u] && fate[u] == fate0[u])
  }

  lemma NothingChanged(tracks: seq<TrackState>, fate: seq<Fate>, w: Walk)
    requires |fate| == |tracks|
    ensures OnlyUpTo(tracks, fate, tracks, fate, w)
  {
  }

  lemma ChangedAt(tracks0: seq<TrackState>, fate0: seq<Fate>, tracks: seq<TrackState>, fate: seq<Fate>, w: Walk, t: nat, st: TrackState, f: Fate)
    requires OnlyUpTo(tracks0, fate0, tracks, fate, w) && t < |tracks| && t <= w.cur && st.plan == tracks[t].plan
    ensures OnlyUpTo(tracks0, fate0, tracks[t := st], fate[t := f], w)
  {
  }

  lemma OnlyUpToTwice(tracks0: seq<TrackState>, fate0: seq<Fate>, tracks1: seq<TrackState>, fate1: seq<Fate>, tracks2: seq<TrackState>, fate2: seq<Fate>, w: Walk)
    requires OnlyUpTo(tracks0, fate0, tracks1, fate1, w) && OnlyUpTo(tracks1, fate1, tracks2, fate2, w)
    ensures OnlyUpTo(tracks0, fate0, tracks2, fate2, w)
  {
  }

  lemma UpTo(tracks0: seq<TrackState>, fate0: seq<Fate>, tracks: seq<TrackState>, fate: seq<Fate>, w: Walk)
    requires OnlyUpTo(tracks0, fate0, tracks, fate, w)
    ensures |tracks| == |tracks0| == |fate| == |fate0|
    ensures forall u :: 0 <= u < |tracks| ==> tracks[u].plan == tracks0[u].plan
    ensures forall u :: 0 <= u < |tracks| && u > w.cur ==> tracks[u] == tracks0[u] && fate[u] == fate0[u]
  {
  }

  /** A batch item's track has been reached; unless it failed, it is undecided. */
  lemma ItemIsThere(hear: Audio -> Heard, tracks: seq<TrackState>, fate: seq<Fate>, batch: seq<WindowItem>, w: Walk, q: nat)
    requires Consistent(hear, tracks, fate, batch, w) && q < |batch|
    ensures var t := batch[q].track;
            t < |tracks| == |fate| && t <= w.cur && tracks[t].plan != [] && (!tracks[t].failed ==> fate[t] == Undecided)
  {
    assert ItemOk(tracks, batch[q], w);
    var t := batch[q].track;
    assert TrackOk(hear, t, tracks[t], fate[t]);
    NoneMissing(tracks[t].texts);
  }

  lemma FailStaysConsistent(hear: Audio -> Heard, tracks: seq<TrackState>, fate: seq<Fate>, batch: seq<WindowItem>, w: Walk, t: nat)
    requires Consistent(hear, tracks, fate, batch, w) && t < |tracks| == |fate| && fate[t] == Undecided
    ensures Consistent(hear, tracks[t := tracks[t].(failed := true)], fate[t := Failed], batch, w)
  {
    FailKeeps(hear, tracks, fate, batch, w, t);
  }

  lemma AllFailedEmpties(hear: Audio -> Heard, tracks: seq<TrackState>, fate: seq<Fate>, batch: seq<WindowItem>, w: Walk)
    requires Consistent(hear, tracks, fate, batch, w)
    requires forall p :: 0 <= p < |batch| ==> batch[p].track < |tracks| && tracks[batch[p].track].failed
    ensures Consistent(hear, tracks, fate, [], w)
  {
    forall t: nat | t < |tracks|
      ensures InStep(t, tracks[t], [], w)
    {
      assert InStep(t, tracks[t], batch, w);
    }
  }

  lemma FilterStaysConsistent(hear: Audio -> Heard, tracks: seq<TrackState>, fate: seq<Fate>, batch: seq<WindowItem>, w: Walk)
    requires Consistent(hear, tracks, fate, batch, w)
    ensures forall q :: 0 <= q < |batch| ==> batch[q].track < |tracks|
    ensures Consistent(hear, tracks, fate, Live(tracks, batch), w)
    ensures forall q :: 0 <= q < |Live(tracks, batch)| ==>
      Live(tracks, batch)[q].track < |tracks| && !tracks[Live(tracks, batch)[q].track].failed
  {
    LiveKeeps(tracks, batch, w);
    var live := Live(tracks, batch);
    forall q | 0 <= q < |live|
      ensures live[q].track < |tracks|
    {
      assert ItemOk(tracks, live[q], w);
    }
  }

  ghost predicate Mentions(batch: seq<WindowItem>, t: nat)
  {
    exists q :: 0 <= q < |batch| && batch[q].track == t
  }

  /** During a flush only tracks of the batch may wait to be finished. */
  ghost predicate WaitsOnlyIn(tracks: seq<TrackState>, fate: seq<Fate>, batch: seq<WindowItem>)
    requires |fate| == |tracks|
  {
    forall t: nat :: t < |tracks| && fate[t] == Undecided && tracks[t].plan != [] ==> tracks[t].left > 0 || Mentions(batch, t)
  }

  ghost predicate Reached(tracks: seq<TrackState>, batch: seq<WindowItem>, w: Walk)
  {
    forall q :: 0 <= q < |batch| ==> batch[q].track < |tracks| && batch[q].track <= w.cur && tracks[batch[q].track].plan != []
  }

  ghost predicate AllUndecided(fate: seq<Fate>, batch: seq<WindowItem>)
  {
    forall q :: 0 <= q < |batch| ==> batch[q].track < |fate| && fate[batch[q].track] == Undecided
  }

  /** The results of the first q windows are stored. */
  ghost predicate HearsFrom(hear: Audio -> Heard, tracks: seq<TrackState>, fate: seq<Fate>, batch: seq<WindowItem>, w: Walk, q: nat)
  {
    && q <= |batch| && Books(hear, tracks, fate)
    && AllInStep(tracks, batch[q..], w) && BatchOk(tracks, batch[q..], w)
    && WalkedDecided(tracks, fate, w) && WaitsOnlyIn(tracks, fate, batch) && Reached(tracks, batch, w) && AllUndecided(fate, batch)
  }

  /** The results of the whole batch are stored. */
  ghost predicate AllHeard(hear: Audio -> Heard, tracks: seq<TrackState>, fate: seq<Fate>, batch: seq<WindowItem>, w: Walk)
  {
    && Books(hear, tracks, fate) && AllInStep(tracks, [], w) && WalkedDecided(tracks, fate, w)
    && WaitsOnlyIn(tracks, fate, batch) && Reached(tracks, batch, w)
  }

  lemma ConsistentHears(hear: Audio -> Heard, tracks: seq<TrackState>, fate: seq<Fate>, batch: seq<WindowItem>, w: Walk)
    requires Consistent(hear, tracks, fate, batch, w)
    requires forall q :: 0 <= q < |batch| ==> batch[q].track < |tracks| && !tracks[batch[q].track].failed
    ensures HearsFrom(hear, tracks, fate, batch, w, 0)
  {
    assert batch[0..] == batch;
    forall q | 0 <= q < |batch|
      ensures batch[q].track <= w.cur && tracks[batch[q].track].plan != [] && fate[batch[q].track] == Undecided
    {
      ItemIsThere(hear, tracks, fate, batch, w, q);
    }
  }

  lemma HearNext(hear: Audio -> Heard, tracks: seq<TrackState>, fate: seq<Fate>, batch: seq<WindowItem>, w: Walk, q: nat, h: Heard)
    requires HearsFrom(hear, tracks, fate, batch, w, q) && q < |batch|
    requires batch[q].track < |tracks| && !tracks[batch[q].track].failed
    requires h == hear(Audio(batch[q].track, batch[q].span))
    ensures |fate| == |tracks| && batch[q].track <= w.cur && batch[q].idx < |tracks[batch[q].track].texts|
    ensures var it := batch[q];
            var st := tracks[it.track];
            HearsFrom(hear, tracks[it.track := st.(texts := st.texts[it.idx := Some(h)], left := st.left - 1)], fate, batch, w, q + 1)
  {
    hide Books, AllInStep, WalkedDecided;
    FateOfEach(hear, tracks, fate);
    var rest := batch[q..];
    assert rest[0] == batch[q] && rest[1..] == batch[q + 1..];
    assert ItemOk(tracks, rest[0], w);
    HearFirst(hear, tracks, fate, rest, w, h);
    assert Mentions(batch, batch[q].track);
  }

  lemma FateOfEach(hear: Audio -> Heard, tracks: seq<TrackState>, fate: seq<Fate>)
    requires Books(hear, tracks, fate)
    ensures |fate| == |tracks|
    ensures forall t: nat :: t < |tracks| ==> tracks[t].left >= 0 && (tracks[t].failed ==> fate[t] == Failed)
  {
    assert forall t: nat :: t < |tracks| ==> TrackOk(hear, t, tracks[t], fate[t]);
  }

  /** Before item q of the batch: the seen tracks are settled, the others undecided. */
  ghost predicate Waiting(tracks: seq<TrackState>, fate: seq<Fate>, batch: seq<WindowItem>, q: nat, seen: set<nat>)
  {
    && |fate| == |tracks| && q <= |batch|
    && (forall p :: 0 <= p < |batch| ==> batch[p].track < |tracks|)
    && (forall p :: 0 <= p < |batch| && batch[p].track !in seen ==> fate[batch[p].track] == Undecided)
    && (forall p :: 0 <= p < q ==> batch[p].track in seen)
    && (forall t :: t in seen ==> t < |tracks| && (fate[t] == Undecided ==> tracks[t].left > 0))
  }

  lemma WaitingFromStart(tracks: seq<TrackState>, fate: seq<Fate>, batch: seq<WindowItem>)
    requires |fate| == |tracks| && AllUndecided(fate, batch)
    ensures Waiting(tracks, fate, batch, 0, {})
  {
  }

  lemma WaitingSkip(tracks: seq<TrackState>, fate: seq<Fate>, batch: seq<WindowItem>, q: nat, seen: set<nat>)
    requires Waiting(tracks, fate, batch, q, seen) && q < |batch| && batch[q].track in seen
    ensures Waiting(tracks, fate, batch, q + 1, seen)
  {
  }

  lemma WaitingAfter(tracks: seq<TrackState>, fate: seq<Fate>, batch: seq<WindowItem>, q: nat, seen: set<nat>, tracks': seq<TrackState>, fate': seq<Fate>)
    requires Waiting(tracks, fate, batch, q, seen) && q < |batch| && batch[q].track !in seen
    requires |tracks'| == |tracks| == |fate'|
    requires forall t: nat :: t < |tracks| && t != batch[q].track ==> tracks'[t] == tracks[t] && fate'[t] == fate[t]
    requires fate'[batch[q].track] == Undecided ==> tracks'[batch[q].track].left > 0
    ensures Waiting(tracks', fate', batch, q + 1, seen + {batch[q].track})
  {
  }

  lemma HeardItem(hear: Audio -> Heard, tracks: seq<TrackState>, fate: seq<Fate>, batch: seq<WindowItem>, w: Walk, q: nat)
    requires AllHeard(hear, tracks, fate, batch, w) && q < |batch|
    ensures var t := batch[q].track;
            && t < |tracks| == |fate| && t <= w.cur && tracks[t].left >= 0 && (tracks[t].failed ==> fate[t] == Failed) && tracks[t].plan != []
            && tracks[t].left == Missing(tracks[t].texts) && |tracks[t].texts| == |tracks[t].plan|
  {
    assert TrackOk(hear, batch[q].track, tracks[batch[q].track], fate[batch[q].track]);
    FateOfEach(hear, tracks, fate);
  }

  lemma WaitsUndecided(tracks: seq<TrackState>, fate: seq<Fate>, batch: seq<WindowItem>, q: nat, seen: set<nat>)
    requires Waiting(tracks, fate, batch, q, seen) && q < |batch| && batch[q].track !in seen
    ensures batch[q].track < |fate| && fate[batch[q].track] == Undecided
  {
  }

  lemma FinishStaysHeard(hear: Audio -> Heard, tracks: seq<TrackState>, fate: seq<Fate>, batch: seq<WindowItem>, w: Walk, t: nat)
    requires AllHeard(hear, tracks, fate, batch, w) && t < |tracks| == |fate| && fate[t] == Undecided && tracks[t].left == 0
    ensures AllHeard(hear, tracks, fate[t := Written], batch, w)
    ensures AllHeard(hear, tracks[t := tracks[t].(failed := true)], fate[t := Failed], batch, w)
  {
    hide Books, AllInStep, WalkedDecided;
    WrittenKeeps(hear, tracks, fate, w, t);
    FailKeeps(hear, tracks, fate, [], w, t);
  }

  lemma NobodyWaits(hear: Audio -> Heard, tracks: seq<TrackState>, fate: seq<Fate>, batch: seq<WindowItem>, w: Walk, seen: set<nat>)
    requires AllHeard(hear, tracks, fate, batch, w) && Waiting(tracks, fate, batch, |batch|, seen)
    ensures Consistent(hear, tracks, fate, [], w)
  {
    hide Books, AllInStep, WalkedDecided;
    forall t: nat | t < |tracks| && fate[t] == Undecided && tracks[t].plan != []
      ensures tracks[t].left > 0
    {
      if Mentions(batch, t) { assert t in seen; }
    }
  }

  lemma SkipStaysConsistent(hear: Audio -> Heard, tracks: seq<TrackState>, fate: seq<Fate>, batch: seq<WindowItem>, t: nat)
    requires Consistent(hear, tracks, fate, batch, Walk(t, 0)) && t < |tracks| == |fate| && fate[t] == Undecided && tracks[t].plan == []
    ensures Consistent(hear, tracks, fate[t := Skipped], batch, Walk(t, 0))
  {
    assert TrackOk(hear, t, tracks[t], fate[t]);
    BooksAfter(hear, tracks, fate, t, tracks[t], Skipped);
    assert tracks[t := tracks[t]] == tracks;
  }

  /** A track with windows to come is undecided unless it failed. */
  lemma StillUndecided(hear: Audio -> Heard, tracks: seq<TrackState>, fate: seq<Fate>, batch: seq<WindowItem>, w: Walk)
    requires Consistent(hear, tracks, fate, batch, w) && w.cur < |tracks| && !tracks[w.cur].failed && w.y < |tracks[w.cur].plan|
    ensures w.cur < |fate| && fate[w.cur] == Undecided
  {
    var t := w.cur;
    assert TrackOk(hear, t, tracks[t], fate[t]) && InStep(t, tracks[t], batch, w);
    assert tracks[t].texts[w.y].None?;
    NoneMissing(tracks[t].texts);
  }

  lemma NoGroups()
    ensures Flat([]) == []
  {
  }

  /** The group is the g-th of the plan and starts with this window. */
  ghost predicate GroupStarts(plan: seq<Interval>, chunkSec: real, g: nat, idx: nat, group: seq<Interval>)
  {
    var groups := GroupsOf(plan, chunkSec);
    g < |groups| && groups[g] == group && |Flat(groups[..g])| == idx
  }

  lemma IsPlanned(rec: Record, tracks: seq<TrackState>, g: nat, idx0: nat, group: seq<Interval>, it: WindowItem)
    requires it.track < |tracks| && it.idx < |tracks[it.track].plan| && it.span == tracks[it.track].plan[it.idx]
    requires GroupStarts(tracks[it.track].plan, rec.chunkSec, g, idx0, group) && idx0 <= it.idx < idx0 + |group|
    requires !rec.world.decodeFails(it.track, g)
    ensures Planned(rec, tracks, it)
  {
    hide GroupsOf, Flat;
    assert InGroup(GroupsOf(tracks[it.track].plan, rec.chunkSec), g, it.idx);
  }

  lemma NoWindowsNoGroups(chunkSec: real)
    ensures GroupsOf([], chunkSec) == []
  {
  }

  /** The result of a window handed out goes to a window handed out. */
  lemma ResultIsHanded(rec: Record, tracks: seq<TrackState>, fate: seq<Fate>, batch: seq<WindowItem>, q: nat, st: TrackState)
    requires Explained(rec, tracks, fate) && AllIn(batch, rec.handed) && q < |batch| && batch[q].track < |tracks|
    requires batch[q].idx < |tracks[batch[q].track].texts| == |st.texts|
    requires forall k :: 0 <= k < |st.texts| && k != batch[q].idx ==> st.texts[k] == tracks[batch[q].track].texts[k]
    ensures TextsHanded(rec.handed, batch[q].track, st)
  {
    hide TrueRecord, Blamed, OwnFault;
    var it := batch[q];
    assert ExplainedTrack(rec, it.track, tracks[it.track], fate[it.track]);
    assert it in batch && IsHanded(rec.handed, it.track, it.idx);
    forall k: nat | k < |st.texts| && st.texts[k].Some?
      ensures IsHanded(rec.handed, it.track, k)
    {
      if k != it.idx { assert tracks[it.track].texts[k].Some?; }
    }
  }

  lemma GroupHasWindows(g: seq<Interval>, maxSec: real)
    requires IsGroup(g, maxSec)
    ensures |g| > 0
  {
  }

  lemma {:induction false} GroupAt(groups: seq<seq<Interval>>, g: nat)
    requires g < |groups|
    ensures var a := |Flat(groups[..g])|;
            && Flat(groups[..g + 1]) == Flat(groups[..g]) + groups[g]
            && a + |groups[g]| <= |Flat(groups)| && Flat(groups)[a..a + |groups[g]|] == groups[g]
    decreases |groups|
  {
    assert groups[..g + 1][..g] == groups[..g];
    if g == |groups| - 1 {
      assert groups[..g + 1] == groups;
    } else {
      var init := groups[..|groups| - 1];
      GroupAt(init, g);
      assert init[..g] == groups[..g];
    }
  }

  lemma WrittenAreComplete(hear: Audio -> Heard, tracks: seq<TrackState>, fate: seq<Fate>)
    requires Consistent(hear, tracks, fate, [], Walk(|tracks|, 0))
    ensures forall t: nat :: t < |fate| && fate[t] == Written ==>
      |tracks[t].texts| == |tracks[t].plan| && forall k :: 0 <= k < |tracks[t].plan| ==> tracks[t].texts[k] == Some(hear(Audio(t, tracks[t].plan[k])))
  {
    forall t: nat | t < |fate| && fate[t] == Written
      ensures |tracks[t].texts| == |tracks[t].plan| && forall k :: 0 <= k < |tracks[t].plan| ==> tracks[t].texts[k] == Some(hear(Audio(t, tracks[t].plan[k])))
    {
      assert TrackOk(hear, t, tracks[t], fate[t]);
      NoneMissing(tracks[t].texts);
    }
  }

  // ---- The pipeline --------------------------------------------------------

  /** Everything outside the pipeline. A plan of None is a failure to plan; stops(n)
      is the n-th check finding a reason to stop the run. */
  datatype World = World(
    plan: nat -> Option<seq<Interval>>,
    pathFails: nat -> bool,
    decodeFails: (nat, nat) -> bool,
    stops: nat -> bool,
    attempt: nat -> Attempt,
    writeFails: nat -> bool)

  /** A batch given up: the call that failed, and the windows it was transcribing. */
  datatype Broken = Broken(call: nat, batch: seq<WindowItem>)

  /** What the run met and did: the world, the settings, the batch size now, the windows
      of every call made, the batches given up, and the windows handed out. */
  datatype Record = Record(world: World, chunkSec: real, batchSize: nat, size: nat, log: seq<seq<Audio>>, broken: seq<Broken>, handed: seq<WindowItem>)

  function AudioOf(it: WindowItem): Audio { Audio(it.track, it.span) }

  /** A window of its track's plan, in a stretch that was decoded. */
  ghost predicate Planned(rec: Record, tracks: seq<TrackState>, it: WindowItem)
  {
    && it.track < |tracks| && it.idx < |tracks[it.track].plan| && it.span == tracks[it.track].plan[it.idx]
    && Decoded(rec, GroupsOf(tracks[it.track].plan, rec.chunkSec), it)
  }

  ghost predicate Decoded(rec: Record, groups: seq<seq<Interval>>, it: WindowItem)
  {
    exists g: nat :: InGroup(groups, g, it.idx) && !rec.world.decodeFails(it.track, g)
  }

  ghost predicate InGroup(groups: seq<seq<Interval>>, g: nat, idx: nat)
  {
    g < |groups| && |Flat(groups[..g])| <= idx < |Flat(groups[..g])| + |groups[g]|
  }

  predicate Earlier(x: WindowItem, y: WindowItem) { x.track < y.track || (x.track == y.track && x.idx < y.idx) }

  /** Windows are handed out in plan order, each once. */
  ghost predicate HandedInOrder(handed: seq<WindowItem>)
  {
    forall p, q :: 0 <= p < q < |handed| ==> Earlier(handed[p], handed[q])
  }

  ghost predicate HandedUpTo(handed: seq<WindowItem>, w: Walk)
  {
    forall it :: it in handed ==> it.track < w.cur || (it.track == w.cur && it.idx < w.y)
  }

  ghost predicate OfItems(audios: seq<Audio>, items: seq<WindowItem>)
  {
    forall a :: a in audios ==> exists it :: it in items && a == AudioOf(it)
  }

  ghost predicate AllIn(batch: seq<WindowItem>, handed: seq<WindowItem>) { forall it :: it in batch ==> it in handed }

  /** A batch is given up only for a call made on its own windows, which could not be made
      smaller; it holds no more windows than a batch may, all of them handed out. */
  ghost predicate TrulyBroken(rec: Record, b: Broken)
  {
    && b.call < |rec.log| && GivesUp(rec.world.attempt(b.call), SizeAfter(rec.world.attempt, rec.batchSize, 0, b.call))
    && rec.log[b.call] != [] && OfItems(rec.log[b.call], b.batch)
    && 0 < |b.batch| <= rec.batchSize && AllIn(b.batch, rec.handed)
  }

  /** The record against the run: the size is what the calls made it, every call was on
      windows handed out, and each batch given up has a call of its own. */
  ghost predicate TrueRecord(rec: Record, tracks: seq<TrackState>)
  {
    && rec.size == SizeAfter(rec.world.attempt, rec.batchSize, 0, |rec.log|)
    && (forall n :: 0 <= n < |rec.log| ==> OfItems(rec.log[n], rec.handed))
    && (forall it :: it in rec.handed ==> Planned(rec, tracks, it)) && HandedInOrder(rec.handed)
    && (forall b :: b in rec.broken ==> TrulyBroken(rec, b))
    && (forall i, j :: 0 <= i < j < |rec.broken| ==> rec.broken[i].call < rec.broken[j].call)
  }

  /** Something of its own went wrong for this track: it could not be planned or found,
      one of its stretches could not be decoded, or its finished result not written. */
  ghost predicate OwnFault(rec: Record, t: nat, st: TrackState)
  {
    || rec.world.plan(t).None? || (rec.world.plan(t) != Some([]) && rec.world.pathFails(t))
    || (exists g :: 0 <= g < |GroupsOf(st.plan, rec.chunkSec)| && rec.world.decodeFails(t, g))
    || (rec.world.writeFails(t) && st.plan != [] && st.left == 0)
  }

  /** A batch that held one of its windows was given up. */
  ghost predicate InBroken(rec: Record, t: nat)
  {
    exists b :: b in rec.broken && Mentions(b.batch, t)
  }

  ghost predicate Blamed(rec: Record, t: nat, st: TrackState) { OwnFault(rec, t, st) || InBroken(rec, t) }

  ghost predicate Stops(world: World) { exists n :: world.stops(n) }

  ghost predicate IsHanded(handed: seq<WindowItem>, t: nat, k: nat)
  {
    exists it :: it in handed && it.track == t && it.idx == k
  }

  /** Only windows handed out have results. */
  ghost predicate TextsHanded(handed: seq<WindowItem>, t: nat, st: TrackState)
  {
    forall k: nat :: k < |st.texts| && st.texts[k].Some? ==> IsHanded(handed, t, k)
  }

  /** No track fails, is skipped or is written without reason. */
  ghost predicate ExplainedTrack(rec: Record, t: nat, st: TrackState, f: Fate)
  {
    && (st.plan != [] ==> rec.world.plan(t) == Some(st.plan) && !rec.world.pathFails(t)) && TextsHanded(rec.handed, t, st)
    && (f == Failed ==> Blamed(rec, t, st)) && (f == Skipped ==> rec.world.plan(t) == Some([]))
    && (f == Written ==> st.plan != [] && !OwnFault(rec, t, st))
  }

  /** The tracks of every batch given up have failed. */
  ghost predicate AllBrokenFailed(broken: seq<Broken>, fate: seq<Fate>)
  {
    forall b :: b in broken ==> BatchFailed(b.batch, fate)
  }

  ghost predicate BatchFailed(batch: seq<WindowItem>, fate: seq<Fate>)
  {
    forall q :: 0 <= q < |batch| ==> batch[q].track < |fate| && fate[batch[q].track] == Failed
  }

  lemma BrokenStayFailed(broken: seq<Broken>, fate: seq<Fate>, t: nat, f: Fate)
    requires AllBrokenFailed(broken, fate) && t < |fate| && fate[t] != Failed
    ensures AllBrokenFailed(broken, fate[t := f])
  {
    forall b | b in broken
      ensures BatchFailed(b.batch, fate[t := f])
    {
      assert BatchFailed(b.batch, fate);
    }
  }

  ghost predicate Explained(rec: Record, tracks: seq<TrackState>, fate: seq<Fate>)
  {
    && |fate| == |tracks| && TrueRecord(rec, tracks)
    && forall t: nat :: t < |tracks| ==> ExplainedTrack(rec, t, tracks[t], fate[t])
  }

  /** Changing no plan leaves the record true. */
  lemma SamePlansTrue(rec: Record, tracks: seq<TrackState>, t: nat, st: TrackState)
    requires TrueRecord(rec, tracks) && t < |tracks| && (st.plan == tracks[t].plan || tracks[t].plan == [])
    ensures TrueRecord(rec, tracks[t := st])
  {
    hide TrulyBroken, OfItems, Decoded;
    assert forall it :: it in rec.handed ==> Planned(rec, tracks, it);
  }

  lemma ExplainedAfter(rec: Record, tracks: seq<TrackState>, fate: seq<Fate>, t: nat, st: TrackState, f: Fate)
    requires Explained(rec, tracks, fate) && t < |tracks| && st.plan == tracks[t].plan
    requires st.texts == tracks[t].texts || TextsHanded(rec.handed, t, st)
    requires (f == fate[t] && f == Undecided) || (f == Failed && Blamed(rec, t, st)) || (f == Skipped && rec.world.plan(t) == Some([]))
             || (f == Written && st.plan != [] && !OwnFault(rec, t, st))
    ensures Explained(rec, tracks[t := st], fate[t := f])
  {
    hide Blamed, OwnFault, TrueRecord;
    SamePlansTrue(rec, tracks, t, st);
    assert ExplainedTrack(rec, t, tracks[t], fate[t]);
  }

  lemma ExplainedStart(rec: Record, tracks: seq<TrackState>, fate: seq<Fate>, t: nat, st: TrackState)
    requires Explained(rec, tracks, fate) && t < |tracks| && fate[t] == Undecided && rec.world.plan(t) == Some(st.plan) && tracks[t].plan == []
    requires !rec.world.pathFails(t) && forall k :: 0 <= k < |st.texts| ==> st.texts[k].None?
    ensures Explained(rec, tracks[t := st], fate)
  {
    hide Blamed, OwnFault, TrueRecord;
    SamePlansTrue(rec, tracks, t, st);
  }

  lemma {:induction false} FlatGrows(groups: seq<seq<Interval>>, g: nat, g': nat)
    requires g < g' <= |groups|
    ensures |Flat(groups[..g])| + |groups[g]| <= |Flat(groups[..g'])|
  {
    assert groups[..g'][..g' - 1] == groups[..g' - 1];
    if g < g' - 1 { FlatGrows(groups, g, g' - 1); }
  }

  lemma GroupIsUnique(groups: seq<seq<Interval>>, g: nat, g': nat, idx: nat)
    requires InGroup(groups, g, idx) && InGroup(groups, g', idx)
    ensures g == g'
  {
    hide Flat;
    if g < g' { FlatGrows(groups, g, g'); }
    if g' < g { FlatGrows(groups, g', g); }
  }

  /** When all of a track's windows were handed out, all its stretches were decoded. */
  lemma AllDecoded(rec: Record, tracks: seq<TrackState>, t: nat, g: nat)
    requires TrueRecord(rec, tracks) && t < |tracks| && g < |GroupsOf(tracks[t].plan, rec.chunkSec)|
    requires forall k: nat :: k < |tracks[t].plan| ==> IsHanded(rec.handed, t, k)
    ensures !rec.world.decodeFails(t, g)
  {
    hide GroupsOf, Flat, IsGroup, Greedy, SizeAfter, TrulyBroken, OfItems, HandedInOrder;
    var plan := tracks[t].plan;
    var groups := GroupsOf(plan, rec.chunkSec);
    GroupsKeepPlan(plan, rec.chunkSec);
    GroupHasWindows(groups[g], rec.chunkSec);
    GroupAt(groups, g);
    var idx := |Flat(groups[..g])|;
    assert IsHanded(rec.handed, t, idx);
    var it :| it in rec.handed && it.track == t && it.idx == idx;
    assert Planned(rec, tracks, it);
    var g': nat :| InGroup(groups, g', idx) && !rec.world.decodeFails(t, g');
    GroupIsUnique(groups, g, g', idx);
  }

  lemma NoFaultOfItsOwn(rec: Record, tracks: seq<TrackState>, fate: seq<Fate>, t: nat)
    requires Explained(rec, tracks, fate) && t < |tracks| && tracks[t].plan != [] && !rec.world.writeFails(t)
    requires tracks[t].left == 0 == Missing(tracks[t].texts) && |tracks[t].texts| == |tracks[t].plan|
    ensures !OwnFault(rec, t, tracks[t])
  {
    hide TrueRecord, GroupsOf, Missing;
    NoneMissing(tracks[t].texts);
    assert ExplainedTrack(rec, t, tracks[t], fate[t]);
    forall g | 0 <= g < |GroupsOf(tracks[t].plan, rec.chunkSec)|
      ensures !rec.world.decodeFails(t, g)
    {
      AllDecoded(rec, tracks, t, g);
    }
  }

  lemma FinishExplained(rec: Record, tracks: seq<TrackState>, fate: seq<Fate>, t: nat)
    requires Explained(rec, tracks, fate) && t < |tracks| && tracks[t].plan != []
    requires tracks[t].left == 0 == Missing(tracks[t].texts) && |tracks[t].texts| == |tracks[t].plan|
    ensures !rec.world.writeFails(t) ==> Explained(rec, tracks, fate[t := Written])
    ensures rec.world.writeFails(t) ==> Explained(rec, tracks[t := tracks[t].(failed := true)], fate[t := Failed])
  {
    hide Explained, Missing;
    if rec.world.writeFails(t) {
      ExplainedAfter(rec, tracks, fate, t, tracks[t].(failed := true), Failed);
    } else {
      NoFaultOfItsOwn(rec, tracks, fate, t);
      ExplainedAfter(rec, tracks, fate, t, tracks[t], Written);
      assert tracks[t := tracks[t]] == tracks;
    }
  }

  /** The calls of a batch of windows handed out keep the record true. */
  lemma MoreCalls(rec: Record, tracks: seq<TrackState>, fate: seq<Fate>, batch: seq<WindowItem>, audios: seq<Audio>, log: seq<seq<Audio>>, size: nat)
    requires Explained(rec, tracks, fate) && rec.log <= log && OfItems(audios, batch) && AllIn(batch, rec.handed)
    requires size == SizeAfter(rec.world.attempt, rec.size, |rec.log|, |log|)
    requires CallsOn(audios, log, rec.world.attempt, rec.size, |rec.log|)
    ensures Explained(rec.(log := log, size := size), tracks, fate)
  {
    hide SizeAfter, GivesUp, Planned, HandedInOrder, Blamed;
    var rec' := rec.(log := log, size := size);
    PlannedAsBefore(rec, rec', tracks);
    SizeAfterTwice(rec.world.attempt, rec.batchSize, 0, |rec.log|, |log|);
    forall n | 0 <= n < |log|
      ensures OfItems(log[n], rec.handed)
    {
      if n < |rec.log| { assert log[n] == rec.log[n]; }
    }
    forall b | b in rec.broken
      ensures TrulyBroken(rec', b)
    {
      assert TrulyBroken(rec, b) && log[b.call] == rec.log[b.call];
    }
    SameCauses(rec, rec', tracks, fate);
  }

  function AudiosOf(batch: seq<WindowItem>): (audios: seq<Audio>)
    ensures |audios| == |batch| && OfItems(audios, batch)
    ensures forall k :: 0 <= k < |batch| ==> audios[k] == AudioOf(batch[k])
  {
    var audios := seq(|batch|, k requires 0 <= k < |batch| => AudioOf(batch[k]));
    assert forall k :: 0 <= k < |batch| ==> batch[k] in batch && audios[k] == AudioOf(batch[k]);
    audios
  }

  /** The live windows of a batch are among it. */
  lemma {:induction false} LiveIsPart(tracks: seq<TrackState>, batch: seq<WindowItem>, handed: seq<WindowItem>)
    requires AllIn(batch, handed) && forall q :: 0 <= q < |batch| ==> batch[q].track < |tracks|
    ensures |Live(tracks, batch)| <= |batch| && AllIn(Live(tracks, batch), handed)
  {
    if batch != [] {
      var init := batch[..|batch| - 1];
      assert batch == init + [batch[|batch| - 1]];
      LiveIsPart(tracks, init, handed);
    }
  }

  lemma BreaksTruly(rec: Record, rec': Record, tracks: seq<TrackState>, fate: seq<Fate>, audios: seq<Audio>, b: Broken)
    requires Explained(rec, tracks, fate) && rec' == rec.(log := rec'.log, size := rec'.size) && rec.log <= rec'.log
    requires |rec.log| < |rec'.log| && b.call == |rec'.log| - 1 && 0 < |b.batch| <= rec.size && AllIn(b.batch, rec.handed)
    requires CallsOn(audios, rec'.log, rec.world.attempt, rec.size, |rec.log|) && OfItems(audios, b.batch)
    requires GivesUp(rec.world.attempt(b.call), SizeAfter(rec.world.attempt, rec.size, |rec.log|, b.call))
    ensures TrulyBroken(rec', b) && forall x :: x in rec'.broken ==> x.call < b.call
  {
    hide SizeAfter, GivesUp, Planned, HandedInOrder, Blamed;
    SizeAfterTwice(rec.world.attempt, rec.batchSize, 0, |rec.log|, b.call);
    SizeNeverGrows(rec.world.attempt, rec.batchSize, 0, |rec.log|);
    assert forall x :: x in rec.broken ==> TrulyBroken(rec, x);
  }

  lemma StillTrulyBroken(rec: Record, tracks: seq<TrackState>, fate: seq<Fate>, b: Broken)
    requires Explained(rec, tracks, fate) && b in rec.broken
    ensures TrulyBroken(rec, b)
  {
  }

  lemma SameCauses(rec: Record, rec': Record, tracks: seq<TrackState>, fate: seq<Fate>)
    requires Explained(rec, tracks, fate) && TrueRecord(rec', tracks)
    requires rec'.world == rec.world && rec'.chunkSec == rec.chunkSec && forall b :: b in rec.broken ==> b in rec'.broken
    requires forall it :: it in rec.handed ==> it in rec'.handed
    ensures Explained(rec', tracks, fate)
  {
    hide TrueRecord, OwnFault;
    forall t: nat | t < |tracks|
      ensures ExplainedTrack(rec', t, tracks[t], fate[t])
    {
      assert ExplainedTrack(rec, t, tracks[t], fate[t]);
      SameFault(rec, rec', t, tracks[t]);
      StillHanded(rec.handed, rec'.handed, t, tracks[t]);
      assert InBroken(rec, t) ==> InBroken(rec', t);
    }
  }

  lemma SameFault(rec: Record, rec': Record, t: nat, st: TrackState)
    requires rec'.world == rec.world && rec'.chunkSec == rec.chunkSec
    ensures OwnFault(rec', t, st) == OwnFault(rec, t, st)
  {
  }

  lemma PlannedAsBefore(rec: Record, rec': Record, tracks: seq<TrackState>)
    requires rec'.world == rec.world && rec'.chunkSec == rec.chunkSec
    ensures forall it :: Planned(rec', tracks, it) == Planned(rec, tracks, it)
  {
    hide GroupsOf, InGroup;
  }

  lemma StillHanded(handed: seq<WindowItem>, handed': seq<WindowItem>, t: nat, st: TrackState)
    requires TextsHanded(handed, t, st) && forall it :: it in handed ==> it in handed'
    ensures TextsHanded(handed', t, st)
  {
    assert forall k: nat :: IsHanded(handed, t, k) ==> IsHanded(handed', t, k);
  }

  lemma OneMoreBroken(rec: Record, tracks: seq<TrackState>, fate: seq<Fate>, b: Broken)
    requires Explained(rec, tracks, fate) && TrulyBroken(rec, b) && forall x :: x in rec.broken ==> x.call < b.call
    ensures Explained(rec.(broken := rec.broken + [b]), tracks, fate)
  {
    hide SizeAfter, GivesUp, Planned, HandedInOrder, Blamed, OfItems, AllIn;
    var rec' := rec.(broken := rec.broken + [b]);
    PlannedAsBefore(rec, rec', tracks);
    forall x | x in rec'.broken
      ensures TrulyBroken(rec', x)
    {
      assert x == b || x in rec.broken;
      assert TrulyBroken(rec, x);
    }
    SameCauses(rec, rec', tracks, fate);
  }

  lemma OneMoreHanded(rec: Record, tracks: seq<TrackState>, fate: seq<Fate>, it: WindowItem, w: Walk)
    requires Explained(rec, tracks, fate) && Planned(rec, tracks, it) && HandedUpTo(rec.handed, w) && it.track == w.cur && it.idx == w.y
    ensures Explained(rec.(handed := rec.handed + [it]), tracks, fate)
    ensures HandedUpTo(rec.handed + [it], Walk(w.cur, w.y + 1))
  {
    hide SizeAfter, GivesUp, Planned, Blamed;
    var rec' := rec.(handed := rec.handed + [it]);
    PlannedAsBefore(rec, rec', tracks);
    forall n | 0 <= n < |rec.log|
      ensures OfItems(rec.log[n], rec'.handed)
    {
      assert OfItems(rec.log[n], rec.handed);
    }
    forall b | b in rec.broken
      ensures TrulyBroken(rec', b)
    {
      assert TrulyBroken(rec, b);
    }
    assert HandedInOrder(rec'.handed);
    SameCauses(rec, rec', tracks, fate);
  }

  lemma BlamedForBatch(rec: Record, t: nat, st: TrackState, b: Broken)
    requires b in rec.broken && Mentions(b.batch, t)
    ensures Blamed(rec, t, st)
  {
  }

  /** With every track decided, each one nothing went wrong for was written, with the
      windows of its plan, or had no windows and was skipped. */
  lemma OnlyFaultsFailTracks(rec: Record, tracks: seq<TrackState>, fate: seq<Fate>, t: nat)
    requires Explained(rec, tracks, fate) && t < |fate| && fate[t] != Undecided && !Blamed(rec, t, tracks[t])
    ensures fate[t] == if rec.world.plan(t) == Some([]) then Skipped else Written
    ensures fate[t] == Written ==> rec.world.plan(t) == Some(tracks[t].plan)
  {
    hide Blamed, TrueRecord;
    assert ExplainedTrack(rec, t, tracks[t], fate[t]);
  }

  /** A decided track failed exactly when something of its own went wrong or a batch with
      one of its windows was given up, was skipped exactly when its plan is empty, and was
      written, with the windows of its plan, in every other case. */
  lemma FatesAreDetermined(rec: Record, tracks: seq<TrackState>, fate: seq<Fate>, t: nat)
    requires Explained(rec, tracks, fate) && AllBrokenFailed(rec.broken, fate) && t < |fate| && fate[t] != Undecided
    ensures fate[t] == Failed <==> Blamed(rec, t, tracks[t])
    ensures fate[t] == Skipped <==> rec.world.plan(t) == Some([])
    ensures fate[t] == Written ==> rec.world.plan(t) == Some(tracks[t].plan)
  {
    hide OfItems, SizeAfter, GivesUp, HandedInOrder, GroupsOf, Decoded;
    assert ExplainedTrack(rec, t, tracks[t], fate[t]);
    if InBroken(rec, t) {
      var b :| b in rec.broken && Mentions(b.batch, t);
      assert BatchFailed(b.batch, fate) && TrulyBroken(rec, b);
      var q :| 0 <= q < |b.batch| && b.batch[q].track == t;
      assert b.batch[q] in b.batch && Planned(rec, tracks, b.batch[q]);
    }
    NoWindowsNoGroups(rec.chunkSec);
  }

  /** When no call made gives up, no batch was given up, and every failed track has a
      fault of its own. */
  lemma NoBatchFails(rec: Record, tracks: seq<TrackState>, fate: seq<Fate>)
    requires Explained(rec, tracks, fate) && NoneGivesUp(rec.world.attempt, rec.batchSize, 0, |rec.log|)
    ensures rec.broken == []
    ensures forall t: nat :: t < |fate| && fate[t] == Failed ==> OwnFault(rec, t, tracks[t])
  {
    hide OwnFault, OfItems;
    assert rec.broken != [] ==> TrulyBroken(rec, rec.broken[0]);
    forall t: nat | t < |fate| && fate[t] == Failed
      ensures OwnFault(rec, t, tracks[t])
    {
      assert ExplainedTrack(rec, t, tracks[t], fate[t]);
    }
  }

  lemma NoBatchFailsRun(rec: Record, tracks: seq<TrackState>, fate: seq<Fate>)
    requires Explained(rec, tracks, fate)
    ensures NoneGivesUp(rec.world.attempt, rec.batchSize, 0, |rec.log|) ==>
      rec.broken == [] && forall t: nat :: t < |fate| && fate[t] == Failed ==> OwnFault(rec, t, tracks[t])
  {
    hide Explained, OwnFault, NoneGivesUp;
    if NoneGivesUp(rec.world.attempt, rec.batchSize, 0, |rec.log|) { NoBatchFails(rec, tracks, fate); }
  }

  /** Batches given up since there were only these had calls since call number n. */
  ghost predicate NewBroken(broken0: seq<Broken>, broken: seq<Broken>, n: nat)
  {
    broken0 <= broken && forall i :: |broken0| <= i < |broken| ==> n <= broken[i].call
  }

  lemma NewBrokenTwice(broken0: seq<Broken>, broken1: seq<Broken>, broken2: seq<Broken>, n: nat, m: nat)
    requires NewBroken(broken0, broken1, n) && NewBroken(broken1, broken2, m) && n <= m
    ensures NewBroken(broken0, broken2, n)
  {
  }

  lemma OneNewBroken(broken0: seq<Broken>, broken: seq<Broken>, n: nat)
    requires broken == broken0 || (|broken| == |broken0| + 1 && broken0 <= broken && n <= broken[|broken0|].call)
    ensures NewBroken(broken0, broken, n)
  {
  }

  lemma NothingHanded(broken: seq<Broken>, n: nat)
    ensures AllIn([], []) && HandedUpTo([], Walk(0, 0)) && NewBroken(broken, broken, n)
  {
  }

  lemma NothingIn(handed: seq<WindowItem>)
    ensures AllIn([], handed)
  {
  }

  lemma HandOne(rec: Record, tracks: seq<TrackState>, fate: seq<Fate>, batch: seq<WindowItem>, it: WindowItem, w: Walk)
    requires Explained(rec, tracks, fate) && HandedUpTo(rec.handed, w) && it.track == w.cur && it.idx == w.y && AllIn(batch, rec.handed)
    requires Planned(rec, tracks, it)
    ensures Explained(rec.(handed := rec.handed + [it]), tracks, fate)
    ensures HandedUpTo(rec.handed + [it], Walk(w.cur, w.y + 1)) && AllIn(batch + [it], rec.handed + [it])
  {
    hide Explained, HandedUpTo, Planned;
    OneMoreHanded(rec, tracks, fate, it, w);
  }

  lemma HandedNext(handed: seq<WindowItem>, w: Walk)
    requires HandedUpTo(handed, w)
    ensures HandedUpTo(handed, Walk(w.cur + 1, 0))
  {
  }

  /** Running out of memory alone fails no track: when no call breaks or miscounts and
      memory runs out at most k times, a batch size of 2^k or more loses nothing to it. */
  lemma MemoryFailuresAreAbsorbed(rec: Record, tracks: seq<TrackState>, fate: seq<Fate>, k: nat)
    requires Explained(rec, tracks, fate) && rec.batchSize >= Pow2(k) && Ooms(rec.world.attempt, |rec.log|) <= k
    requires forall n :: 0 <= n < |rec.log| ==> rec.world.attempt(n) in {Works, OutOfMemory}
    ensures rec.broken == []
    ensures forall t: nat :: t < |fate| && fate[t] == Failed ==> OwnFault(rec, t, tracks[t])
  {
    hide Explained, OwnFault;
    HalvingAbsorbs(rec.world.attempt, rec.batchSize, k, |rec.log|);
    NoBatchFails(rec, tracks, fate);
  }

  /** A batch given up without a break or a miscount was down to single windows. */
  lemma OnlySingleWindowsGiveUp(rec: Record, tracks: seq<TrackState>, fate: seq<Fate>, b: Broken)
    requires Explained(rec, tracks, fate) && b in rec.broken
    requires forall n :: 0 <= n < |rec.log| ==> rec.world.attempt(n) in {Works, OutOfMemory}
    ensures b.call < |rec.log| && rec.world.attempt(b.call) == OutOfMemory && SizeAfter(rec.world.attempt, rec.batchSize, 0, b.call) == 1
    ensures rec.size == 1
  {
    hide OfItems, AllIn;
    assert TrulyBroken(rec, b) && rec.world.attempt(b.call) in {Works, OutOfMemory};
    StaysOne(rec.world.attempt, rec.batchSize, b.call, |rec.log|);
  }

  lemma {:induction false} StaysOne(world: nat -> Attempt, size: nat, from: nat, to: nat)
    requires from <= to && SizeAfter(world, size, 0, from) == 1
    ensures SizeAfter(world, size, 0, to) == 1
  {
    if from < to { StaysOne(world, size, from, to - 1); }
  }

  /** Tracks either are as they were or, in the batch, failed. */
  ghost predicate FailedOnly(tracks0: seq<TrackState>, fate0: seq<Fate>, tracks: seq<TrackState>, fate: seq<Fate>, batch: seq<WindowItem>)
  {
    && |tracks0| == |fate0| == |tracks| == |fate|
    && forall t: nat :: t < |tracks| ==>
         || (tracks[t] == tracks0[t] && fate[t] == fate0[t])
         || (Mentions(batch, t) && tracks[t] == tracks0[t].(failed := true) && fate[t] == Failed)
  }

  lemma NothingSettles(world: World, tracks: seq<TrackState>, fate: seq<Fate>)
    requires |tracks| == |fate|
    ensures Settled(world, tracks, fate, tracks, fate, [], false)
  {
  }

  lemma AllFailedSettles(world: World, tracks0: seq<TrackState>, fate0: seq<Fate>, tracks: seq<TrackState>, fate: seq<Fate>, batch: seq<WindowItem>)
    requires FailedOnly(tracks0, fate0, tracks, fate, batch)
    requires forall p :: 0 <= p < |batch| ==> batch[p].track < |tracks| && tracks[batch[p].track].failed && !tracks0[batch[p].track].failed
    ensures Settled(world, tracks0, fate0, tracks, fate, batch, true)
  {
    forall t: nat | t < |tracks|
      ensures SettledTrack(world, t, tracks0[t], fate0[t], tracks[t], fate[t], Mentions(batch, t), true)
    {
      if Mentions(batch, t) {
        var q :| 0 <= q < |batch| && batch[q].track == t;
      }
    }
  }

  /** Hearing a batch changes its tracks only, and no fate. */
  ghost predicate HeardOnly(tracks0: seq<TrackState>, tracks: seq<TrackState>, batch: seq<WindowItem>)
  {
    |tracks| == |tracks0| && forall t: nat :: t < |tracks| && !Mentions(batch, t) ==> tracks[t] == tracks0[t]
  }

  /** While a heard batch is finished: the seen tracks are settled, the others wait. */
  ghost predicate SettledSeen(world: World, tracks0: seq<TrackState>, fate0: seq<Fate>, tracks: seq<TrackState>, fate: seq<Fate>, batch: seq<WindowItem>, seen: set<nat>)
  {
    && |tracks0| == |fate0| == |tracks| == |fate|
    && (forall t: nat :: t < |tracks| ==>
          if t in seen then Mentions(batch, t) && SettledTrack(world, t, tracks0[t], fate0[t], tracks[t], fate[t], true, false)
          else tracks[t] == tracks0[t] && fate[t] == fate0[t])
  }

  lemma NothingSeen(world: World, tracks: seq<TrackState>, fate: seq<Fate>, batch: seq<WindowItem>)
    requires |fate| == |tracks|
    ensures SettledSeen(world, tracks, fate, tracks, fate, batch, {})
  {
  }

  lemma SettleOne(world: World, tracks0: seq<TrackState>, fate0: seq<Fate>, tracks: seq<TrackState>, fate: seq<Fate>, batch: seq<WindowItem>, seen: set<nat>, t: nat)
    requires SettledSeen(world, tracks0, fate0, tracks, fate, batch, seen) && t < |tracks| && t !in seen && Mentions(batch, t)
    requires fate[t] == Undecided
    ensures tracks[t].left > 0 ==> SettledSeen(world, tracks0, fate0, tracks, fate, batch, seen + {t})
    ensures tracks[t].left <= 0 && world.writeFails(t) ==>
      SettledSeen(world, tracks0, fate0, tracks[t := tracks[t].(failed := true)], fate[t := Failed], batch, seen + {t})
    ensures tracks[t].left <= 0 && !world.writeFails(t) ==> SettledSeen(world, tracks0, fate0, tracks, fate[t := Written], batch, seen + {t})
  {
  }

  lemma SeenSettles(world: World, tracks0: seq<TrackState>, fate0: seq<Fate>, tracks1: seq<TrackState>, tracks: seq<TrackState>, fate: seq<Fate>, batch: seq<WindowItem>, seen: set<nat>)
    requires HeardOnly(tracks0, tracks1, batch) && SettledSeen(world, tracks1, fate0, tracks, fate, batch, seen)
    requires forall p :: 0 <= p < |batch| ==> batch[p].track in seen
    ensures Settled(world, tracks0, fate0, tracks, fate, batch, false)
  {
    forall t: nat | t < |tracks|
      ensures SettledTrack(world, t, tracks0[t], fate0[t], tracks[t], fate[t], Mentions(batch, t), false)
    {
      if Mentions(batch, t) {
        var q :| 0 <= q < |batch| && batch[q].track == t;
        assert t in seen;
      }
    }
  }

  /** What a flush does to every track: nothing to those not in the batch; a batch given
      up fails all of its tracks; otherwise those with all windows heard are written, or
      fail to be, and the others wait. */
  ghost predicate Settled(world: World, tracks0: seq<TrackState>, fate0: seq<Fate>, tracks: seq<TrackState>, fate: seq<Fate>, batch: seq<WindowItem>, broke: bool)
  {
    && |tracks0| == |fate0| == |tracks| == |fate|
    && forall t: nat :: t < |tracks| ==> SettledTrack(world, t, tracks0[t], fate0[t], tracks[t], fate[t], Mentions(batch, t), broke)
  }

  ghost predicate SettledTrack(world: World, t: nat, st0: TrackState, f0: Fate, st: TrackState, f: Fate, inBatch: bool, broke: bool)
  {
    if !inBatch then st == st0 && f == f0
    else if broke then f == Failed && st == st0.(failed := true)
    else f == (if st.left > 0 then Undecided else if world.writeFails(t) then Failed else Written)
  }

  class Pipeline {
    const hear: Audio -> Heard
    const batcher: Batcher
    const chunkSec: real
    const batchSize: nat
    var tracks: seq<TrackState>
    var failed: seq<nat>
    var skipped: nat
    var written: nat
    var checks: nat
    ghost var fate: seq<Fate>
    ghost var broken: seq<Broken>
    ghost var handed: seq<WindowItem>

    ghost function Met(world: World): Record
      reads this`broken, this`handed, batcher
    {
      Record(world, chunkSec, batchSize, batcher.size, batcher.log, broken, handed)
    }

    /** The counters are exactly the fates. */
    ghost predicate Counted()
      reads this`failed, this`skipped, this`written, this`fate
    {
      && |failed| == Number(fate, Failed) && skipped == Number(fate, Skipped) && written == Number(fate, Written)
      && (forall t: nat :: t in failed <==> t < |fate| && fate[t] == Failed)
    }

    ghost predicate Valid()
      reads this, batcher
    {
      && batcher.size >= 1 && batcher.hear == hear && |batcher.log| == batcher.attempts && Counted() && |fate| == |tracks|
      && AllBrokenFailed(broken, fate)
    }

    constructor (n: nat, hear: Audio -> Heard, batchSize: nat, chunkSec: real)
      requires batchSize >= 1
      ensures Valid() && fresh(batcher) && |tracks| == n
      ensures Consistent(hear, tracks, fate, [], Walk(0, 0)) && this.hear == hear && this.chunkSec == chunkSec && this.batchSize == batchSize
      ensures broken == [] && handed == [] && batcher.log == [] && batcher.size == batchSize
      ensures forall t :: 0 <= t < n ==> fate[t] == Undecided && tracks[t].plan == []
      ensures forall world :: Explained(Met(world), tracks, fate)
    {
      this.hear := hear;
      this.chunkSec := chunkSec;
      this.batchSize := batchSize;
      broken, handed := [], [];
      this.batcher := new Batcher(hear, batchSize);
      tracks := seq(n, _ => TrackState([], [], 0, false));
      fate := seq(n, _ => Undecided);
      failed, skipped, written, checks := [], 0, 0, 0;
      new;
      NothingCounted(fate);
    }

    method Check(w: World) returns (stop: bool)
      modifies this`checks
      ensures stop == w.stops(old(checks)) && checks == old(checks) + 1 && (stop ==> Stops(w))
    {
      stop := w.stops(checks);
      checks := checks + 1;
    }

    /** A track is failed once: it was not counted before. */
    method Fail(t: nat)
      requires Valid() && t < |tracks| && fate[t] == Undecided
      modifies this`tracks, this`failed, this`fate
      ensures Valid() && tracks == old(tracks)[t := old(tracks)[t].(failed := true)] && fate == old(fate)[t := Failed]
    {
      BrokenStayFailed(broken, fate, t, Failed);
      NumberAfter(fate, t, Failed, Failed);
      NumberAfter(fate, t, Failed, Skipped);
      NumberAfter(fate, t, Failed, Written);
      tracks := tracks[t := tracks[t].(failed := true)];
      failed := failed + [t];
      fate := fate[t := Failed];
    }

    method Skip(t: nat)
      requires Valid() && t < |tracks| && fate[t] == Undecided
      modifies this`skipped, this`fate
      ensures Valid() && fate == old(fate)[t := Skipped]
    {
      BrokenStayFailed(broken, fate, t, Skipped);
      NumberAfter(fate, t, Skipped, Failed);
      NumberAfter(fate, t, Skipped, Skipped);
      NumberAfter(fate, t, Skipped, Written);
      skipped := skipped + 1;
      fate := fate[t := Skipped];
    }

    /** Writes a finished track's result, or fails the track. */
    method Finish(t: nat, w: World)
      requires Valid() && t < |tracks| && fate[t] == Undecided
      modifies this`tracks, this`failed, this`written, this`fate
      ensures Valid()
      ensures if w.writeFails(t)
        then tracks == old(tracks)[t := old(tracks)[t].(failed := true)] && fate == old(fate)[t := Failed]
        else tracks == old(tracks) && fate == old(fate)[t := Written]
    {
      if w.writeFails(t) {
        Fail(t);
        return;
      }
      BrokenStayFailed(broken, fate, t, Written);
      NumberAfter(fate, t, Written, Failed);
      NumberAfter(fate, t, Written, Skipped);
      NumberAfter(fate, t, Written, Written);
      written := written + 1;
      fate := fate[t := Written];
    }

    /** A batch that could not be transcribed fails each of its tracks, once. */
    method FailAll(batch: seq<WindowItem>, ghost b: Broken, ghost world: World, ghost w: Walk)
      requires Valid() && Consistent(hear, tracks, fate, batch, w)
      requires forall q :: 0 <= q < |batch| ==> batch[q].track < |tracks| && !tracks[batch[q].track].failed
      requires Explained(Met(world).(broken := broken + [b]), tracks, fate) && b.batch == batch
      modifies this`tracks, this`failed, this`fate
      ensures Explained(Met(world).(broken := broken + [b]), tracks, fate) && BatchFailed(batch, fate) && Settled(world, old(tracks), old(fate), tracks, fate, batch, true)
      ensures Valid() && Consistent(hear, tracks, fate, [], w) && OnlyUpTo(old(tracks), old(fate), tracks, fate, w)
    {
      hide Consistent, Books, AllInStep, BatchOk, WalkedDecided, NoneWaits, OnlyUpTo, Explained, Blamed;
      NothingChanged(tracks, fate, w);
      ghost var rec := Met(world).(broken := broken + [b]);
      for q := 0 to |batch|
        invariant Explained(rec, tracks, fate)
        invariant Valid() && Consistent(hear, tracks, fate, batch, w) && OnlyUpTo(old(tracks), old(fate), tracks, fate, w)
        invariant forall p :: 0 <= p < q ==> batch[p].track < |tracks| && tracks[batch[p].track].failed && fate[batch[p].track] == Failed
        invariant FailedOnly(old(tracks), old(fate), tracks, fate, batch)
      {
        var t := batch[q].track;
        ItemIsThere(hear, tracks, fate, batch, w, q);
        assert Mentions(batch, t);
        if !tracks[t].failed {
          FailStaysConsistent(hear, tracks, fate, batch, w, t);
          ChangedAt(old(tracks), old(fate), tracks, fate, w, t, tracks[t].(failed := true), Failed);
          BlamedForBatch(rec, t, tracks[t].(failed := true), b);
          ExplainedAfter(rec, tracks, fate, t, tracks[t].(failed := true), Failed);
          Fail(t);
        }
      }
      AllFailedSettles(world, old(tracks), old(fate), tracks, fate, batch);
      AllFailedEmpties(hear, tracks, fate, batch, w);
    }

    /** Stores one result per window of the batch, in its place. */
    method HearAll(batch: seq<WindowItem>, results: seq<Heard>, ghost world: World, ghost w: Walk)
      requires Explained(Met(world), tracks, fate) && AllIn(batch, handed)
      requires Valid() && Consistent(hear, tracks, fate, batch, w)
      requires |results| == |batch| && forall q :: 0 <= q < |batch| ==> results[q] == hear(Audio(batch[q].track, batch[q].span))
      requires forall q :: 0 <= q < |batch| ==> batch[q].track < |tracks| && !tracks[batch[q].track].failed
      modifies this`tracks
      ensures Valid() && AllHeard(hear, tracks, fate, batch, w) && AllUndecided(fate, batch)
      ensures OnlyUpTo(old(tracks), fate, tracks, fate, w) && Explained(Met(world), tracks, fate) && HeardOnly(old(tracks), tracks, batch)
    {
      hide Consistent, Books, AllInStep, BatchOk, WalkedDecided, NoneWaits, OnlyUpTo, WaitsOnlyIn, Explained;
      NothingChanged(tracks, fate, w);
      ConsistentHears(hear, tracks, fate, batch, w);
      assert batch[0..] == batch;
      for q := 0 to |batch|
        invariant Explained(Met(world), tracks, fate)
        invariant Valid() && |tracks| == |old(tracks)|
        invariant HeardOnly(old(tracks), tracks, batch)
        invariant HearsFrom(hear, tracks, fate, batch, w, q) && OnlyUpTo(old(tracks), fate, tracks, fate, w)
        invariant forall p :: 0 <= p < |batch| ==> batch[p].track < |tracks| && !tracks[batch[p].track].failed
      {
        var it := batch[q];
        assert Mentions(batch, it.track);
        HearNext(hear, tracks, fate, batch, w, q, results[q]);
        ghost var st := tracks[it.track].(texts := tracks[it.track].texts[it.idx := Some(results[q])], left := tracks[it.track].left - 1);
        ChangedAt(old(tracks), fate, tracks, fate, w, it.track, st, fate[it.track]);
        ResultIsHanded(Met(world), tracks, fate, batch, q, st);
        ExplainedAfter(Met(world), tracks, fate, it.track, st, fate[it.track]);
        assert fate[it.track := fate[it.track]] == fate;
        tracks := tracks[it.track := tracks[it.track].(texts := tracks[it.track].texts[it.idx := Some(results[q])], left := tracks[it.track].left - 1)];
      }
      assert batch[|batch|..] == [];
    }

    /** Finishes each track of the batch that has all its windows, once. */
    method FinishAll(batch: seq<WindowItem>, world: World, ghost w: Walk)
      requires Valid() && AllHeard(hear, tracks, fate, batch, w) && AllUndecided(fate, batch)
      requires Explained(Met(world), tracks, fate)
      modifies this`tracks, this`failed, this`written, this`fate
      ensures Explained(Met(world), tracks, fate)
      ensures exists seen :: SettledSeen(world, old(tracks), old(fate), tracks, fate, batch, seen) && forall p :: 0 <= p < |batch| ==> batch[p].track in seen
      ensures Valid() && Consistent(hear, tracks, fate, [], w) && OnlyUpTo(old(tracks), old(fate), tracks, fate, w)
    {
      hide Books, AllInStep, BatchOk, WalkedDecided, NoneWaits, OnlyUpTo, WaitsOnlyIn, Consistent, Explained, Waiting, AllHeard, SettledSeen;
      NothingChanged(tracks, fate, w);
      var seen: set<nat> := {};
      NothingSeen(world, tracks, fate, batch);
      WaitingFromStart(tracks, fate, batch);
      for q := 0 to |batch|
        invariant Valid() && |tracks| == |old(tracks)| && OnlyUpTo(old(tracks), old(fate), tracks, fate, w)
        invariant AllHeard(hear, tracks, fate, batch, w) && Explained(Met(world), tracks, fate)
        invariant Waiting(tracks, fate, batch, q, seen) && SettledSeen(world, old(tracks), old(fate), tracks, fate, batch, seen)
        invariant forall p :: 0 <= p < q ==> batch[p].track in seen
      {
        var t := batch[q].track;
        if t !in seen {
          HeardItem(hear, tracks, fate, batch, w, q);
          WaitsUndecided(tracks, fate, batch, q, seen);
          assert Mentions(batch, t);
          SettleOne(world, old(tracks), old(fate), tracks, fate, batch, seen, t);
          if tracks[t].left == 0 && !tracks[t].failed {
            FinishStaysHeard(hear, tracks, fate, batch, w, t);
            FinishExplained(Met(world), tracks, fate, t);
            ChangedAt(old(tracks), old(fate), tracks, fate, w, t, tracks[t].(failed := true), Failed);
            ChangedAt(old(tracks), old(fate), tracks, fate, w, t, tracks[t], Written);
            assert tracks[t := tracks[t]] == tracks;
            WaitingAfter(tracks, fate, batch, q, seen, tracks[t := tracks[t].(failed := true)], fate[t := Failed]);
            WaitingAfter(tracks, fate, batch, q, seen, tracks, fate[t := Written]);
            Finish(t, world);
          } else {
            WaitingAfter(tracks, fate, batch, q, seen, tracks, fate);
          }
          seen := seen + {t};
        } else {
          WaitingSkip(tracks, fate, batch, q, seen);
        }
      }
      NobodyWaits(hear, tracks, fate, batch, w, seen);
    }

    /** Transcribes a batch of windows handed out. */
    method Transcribe(batch: seq<WindowItem>, world: World) returns (r: Option<seq<Heard>>)
      requires Valid() && Explained(Met(world), tracks, fate) && 0 < |batch| <= batcher.size && AllIn(batch, handed)
      modifies batcher
      ensures Valid() && Explained(Met(world), tracks, fate) && old(batcher.log) <= batcher.log && |old(batcher.log)| < batcher.attempts
      ensures r.Some? ==> |r.value| == |batch| && forall q :: 0 <= q < |batch| ==> r.value[q] == hear(AudioOf(batch[q]))
      ensures r.None? ==>
        && TrulyBroken(Met(world), Broken(batcher.attempts - 1, batch))
        && forall x :: x in broken ==> x.call < batcher.attempts - 1
    {
      hide Explained, AllIn, OfItems, TrulyBroken, CallsOn, SizeAfter, GivesUp, NoneGivesUp;
      var audios := AudiosOf(batch);
      ghost var rec := Met(world);
      r := batcher.Run(audios, world.attempt);
      MoreCalls(rec, tracks, fate, batch, audios, batcher.log, batcher.size);
      if r.None? { BreaksTruly(rec, Met(world), tracks, fate, audios, Broken(batcher.attempts - 1, batch)); }
    }

    /** Transcribes the batch and settles its tracks: a batch given up is recorded with
        the call that failed, and fails its tracks. */
    method Flush(batch0: seq<WindowItem>, world: World, ghost w: Walk) returns (stopped: bool, ghost broke: bool)
      requires Valid() && Consistent(hear, tracks, fate, batch0, w) && Explained(Met(world), tracks, fate)
      requires |batch0| <= batcher.size && AllIn(batch0, handed)
      modifies this, batcher
      ensures Valid() && |tracks| == |old(tracks)| && (stopped ==> Stops(world)) && Explained(Met(world), tracks, fate)
      ensures !stopped ==> Consistent(hear, tracks, fate, [], w) && OnlyUpTo(old(tracks), old(fate), tracks, fate, w)
      ensures !stopped ==> Settled(world, old(tracks), old(fate), tracks, fate, Live(old(tracks), batch0), broke)
      ensures handed == old(handed) && old(batcher.log) <= batcher.log
      ensures broke ==> batcher.attempts > |old(batcher.log)| && TrulyBroken(Met(world), Broken(batcher.attempts - 1, Live(old(tracks), batch0)))
      ensures broken == old(broken) + if broke then [Broken(batcher.attempts - 1, Live(old(tracks), batch0))] else []
      ensures stopped ==> tracks == old(tracks) && fate == old(fate) && !broke
    {
      hide Consistent, OnlyUpTo, Explained, Stops, Settled, SettledSeen, HeardOnly, AllIn, TrulyBroken, Counted, AllHeard, AllUndecided;
      broke := false;
      FilterStaysConsistent(hear, tracks, fate, batch0, w);
      var batch := Live(tracks, batch0);
      LiveIsPart(tracks, batch0, handed);
      NothingChanged(tracks, fate, w);
      NothingSettles(world, tracks, fate);
      if |batch| == 0 {
        stopped := false;
        return;
      }
      stopped := Check(world);
      if stopped { return; }
      var r := Transcribe(batch, world);
      if r.None? {
        broke := true;
        ghost var b := Broken(batcher.attempts - 1, batch);
        OneMoreBroken(Met(world), tracks, fate, b);
        StillTrulyBroken(Met(world).(broken := broken + [b]), tracks, fate, b);
        FailAll(batch, b, world, w);
        broken := broken + [b];
        UpTo(old(tracks), old(fate), tracks, fate, w);
        return;
      }
      HearAll(batch, r.value, world, w);
      ghost var heardTracks := tracks;
      FinishAll(batch, world, w);
      ghost var seen :| SettledSeen(world, heardTracks, old(fate), tracks, fate, batch, seen) && forall p :: 0 <= p < |batch| ==> batch[p].track in seen;
      SeenSettles(world, old(tracks), old(fate), heardTracks, tracks, fate, batch, seen);
      OnlyUpToTwice(old(tracks), old(fate), heardTracks, old(fate), tracks, fate, w);
      UpTo(old(tracks), old(fate), tracks, fate, w);
    }

    /** The run. It returns normally unless a check stops it, and then every track was
        counted exactly once: as failed exactly for a fault of its own or a window in a
        batch given up, as skipped exactly for an empty plan, and otherwise as written, with
        one result for each of its windows, in plan order. */
    method Run(world: World) returns (stopped: bool)
      requires Valid() && Consistent(hear, tracks, fate, [], Walk(0, 0))
      requires forall t :: 0 <= t < |tracks| ==> fate[t] == Undecided && tracks[t].plan == []
      requires Explained(Met(world), tracks, fate) && handed == []
      modifies this, batcher
      ensures |tracks| == |old(tracks)| && (stopped ==> Stops(world)) && Explained(Met(world), tracks, fate)
      ensures NewBroken(old(broken), broken, |old(batcher.log)|) && old(batcher.log) <= batcher.log
      ensures NoneGivesUp(world.attempt, batchSize, 0, |batcher.log|) ==> broken == []
      ensures NoneGivesUp(world.attempt, batchSize, 0, |batcher.log|) ==>
        forall t: nat :: t < |fate| && fate[t] == Failed ==> OwnFault(Met(world), t, tracks[t])
      ensures !stopped ==> forall t: nat :: t < |fate| ==>
        (fate[t] == Failed <==> Blamed(Met(world), t, tracks[t])) && (fate[t] == Skipped <==> world.plan(t) == Some([]))
      ensures !stopped ==> written + |failed| + skipped == |tracks| == |fate|
      ensures !stopped ==> Counted() && forall t :: 0 <= t < |fate| ==> fate[t] != Undecided
      ensures !stopped ==> forall t: nat :: t < |fate| && fate[t] == Written ==>
        |tracks[t].texts| == |tracks[t].plan| && forall k :: 0 <= k < |tracks[t].plan| ==> tracks[t].texts[k] == Some(hear(Audio(t, tracks[t].plan[k])))
    {
      hide Consistent, OnlyUpTo, Explained, Stops, AllIn, HandedUpTo, NewBroken, Blamed, OwnFault, NoneGivesUp, TrulyBroken, AllBrokenFailed;
      var batch: seq<WindowItem> := [];
      var n := |tracks|;
      NothingHanded(broken, |batcher.log|);
      for t := 0 to n
        invariant Valid() && |tracks| == n && Explained(Met(world), tracks, fate)
        invariant Consistent(hear, tracks, fate, batch, Walk(t, 0))
        invariant |batch| < batcher.size && AllIn(batch, handed) && HandedUpTo(handed, Walk(t, 0))
        invariant NewBroken(old(broken), broken, |old(batcher.log)|) && old(batcher.log) <= batcher.log
        invariant forall u :: t <= u < n ==> fate[u] == Undecided && tracks[u].plan == []
      {
        ghost var before, calls := broken, |batcher.log|;
        batch, stopped := WalkTrack(t, batch, world);
        NewBrokenTwice(old(broken), before, broken, |old(batcher.log)|, calls);
        if stopped {
          NoBatchFailsRun(Met(world), tracks, fate);
          return;
        }
      }
      ghost var broke, before, calls := false, broken, |batcher.log|;
      stopped, broke := Flush(batch, world, Walk(n, 0));
      OneNewBroken(before, broken, calls);
      NewBrokenTwice(old(broken), before, broken, |old(batcher.log)|, calls);
      NoBatchFailsRun(Met(world), tracks, fate);
      if stopped { return; }
      AllAccountedFor(hear, tracks, fate);
      forall t: nat | t < |fate|
        ensures (fate[t] == Failed <==> Blamed(Met(world), t, tracks[t])) && (fate[t] == Skipped <==> world.plan(t) == Some([]))
      {
        FatesAreDetermined(Met(world), tracks, fate, t);
      }
      WrittenAreComplete(hear, tracks, fate);
    }

    /** Plans a track: it starts, or is settled at once (then plan is empty). */
    method BeginTrack(t: nat, ghost batch: seq<WindowItem>, world: World) returns (plan: seq<Interval>, stopped: bool)
      requires Valid() && t < |tracks| && Consistent(hear, tracks, fate, batch, Walk(t, 0))
      requires fate[t] == Undecided && tracks[t].plan == [] && Explained(Met(world), tracks, fate)
      modifies this
      ensures Valid() && |tracks| == |old(tracks)| && (stopped ==> Stops(world)) && Explained(Met(world), tracks, fate)
      ensures handed == old(handed) && broken == old(broken)
      ensures forall u :: 0 <= u < |tracks| && u != t ==> tracks[u] == old(tracks)[u] && fate[u] == old(fate)[u]
      ensures !stopped && plan == [] ==> Consistent(hear, tracks, fate, batch, Walk(t + 1, 0))
      ensures !stopped && plan != [] ==> Consistent(hear, tracks, fate, batch, Walk(t, 0)) && tracks[t].plan == plan && !tracks[t].failed
    {
      hide Consistent, Counted, Explained, Stops;
      plan, stopped := [], false;
      var p := world.plan(t);
      if p == Some([]) {
        SkipStaysConsistent(hear, tracks, fate, batch, t);
        ExplainedAfter(Met(world), tracks, fate, t, tracks[t], Skipped);
        assert tracks[t := tracks[t]] == tracks;
        Skip(t);
        NextTrack(hear, tracks, fate, batch, Walk(t, 0));
        return;
      }
      if p.Some? {
        stopped := Check(world);
        if stopped { return; }
      }
      if p.None? || world.pathFails(t) {
        FailStaysConsistent(hear, tracks, fate, batch, Walk(t, 0), t);
        ExplainedAfter(Met(world), tracks, fate, t, tracks[t].(failed := true), Failed);
        Fail(t);
        NextTrack(hear, tracks, fate, batch, Walk(t, 0));
        return;
      }
      plan := p.value;
      StartTrack(hear, tracks, fate, batch, t, plan);
      ExplainedStart(Met(world), tracks, fate, t, TrackState(plan, seq(|plan|, _ => None), |plan|, false));
      tracks := tracks[t := TrackState(plan, seq(|plan|, _ => None), |plan|, false)];
    }

    /** A stretch that cannot be decoded fails its track. */
    method FailDecode(t: nat, g: nat, ghost batch: seq<WindowItem>, ghost world: World, ghost w: Walk)
      requires Explained(Met(world), tracks, fate) && world.decodeFails(t, g)
      requires t < |tracks| && g < |GroupsOf(tracks[t].plan, chunkSec)|
      requires Valid() && t < |tracks| && w.cur == t && Consistent(hear, tracks, fate, batch, w)
      requires !tracks[t].failed && tracks[t].plan != [] && w.y < |tracks[t].plan|
      modifies this
      ensures Explained(Met(world), tracks, fate) && handed == old(handed) && broken == old(broken)
      ensures Valid() && |tracks| == |old(tracks)| && tracks[t].failed && Consistent(hear, tracks, fate, batch, Walk(t + 1, 0))
      ensures forall u :: 0 <= u < |tracks| && u != t ==> tracks[u] == old(tracks)[u] && fate[u] == old(fate)[u]
    {
      hide Consistent, Counted, Explained;
      StillUndecided(hear, tracks, fate, batch, w);
      assert Blamed(Met(world), t, tracks[t].(failed := true));
      ExplainedAfter(Met(world), tracks, fate, t, tracks[t].(failed := true), Failed);
      FailStaysConsistent(hear, tracks, fate, batch, w, t);
      Fail(t);
      NextTrack(hear, tracks, fate, batch, w);
    }

    /** One track of the walk, window by window through the shared batch. */
    method WalkTrack(t: nat, batch0: seq<WindowItem>, world: World) returns (batch: seq<WindowItem>, stopped: bool)
      requires Valid() && t < |tracks| && Consistent(hear, tracks, fate, batch0, Walk(t, 0))
      requires forall u :: t <= u < |tracks| ==> fate[u] == Undecided && tracks[u].plan == []
      requires Explained(Met(world), tracks, fate)
      requires |batch0| < batcher.size && AllIn(batch0, handed) && HandedUpTo(handed, Walk(t, 0))
      modifies this, batcher
      ensures !stopped ==> |batch| < batcher.size && AllIn(batch, handed) && HandedUpTo(handed, Walk(t + 1, 0))
      ensures NewBroken(old(broken), broken, |old(batcher.log)|) && old(batcher.log) <= batcher.log
      ensures Valid() && |tracks| == |old(tracks)| && (stopped ==> Stops(world)) && Explained(Met(world), tracks, fate)
      ensures !stopped ==> Consistent(hear, tracks, fate, batch, Walk(t + 1, 0))
      ensures !stopped ==> forall u :: t < u < |tracks| ==> fate[u] == Undecided && tracks[u].plan == []
    {
      hide Consistent, Counted, Explained, Stops, Flat, IsGroup, GroupsOf, Greedy, AllIn, HandedUpTo, NewBroken;
      batch := batch0;
      NothingHanded(broken, |batcher.log|);
      HandedNext(handed, Walk(t, 0));
      var plan;
      plan, stopped := BeginTrack(t, batch, world);
      if stopped || |plan| == 0 { return; }
      var groups := GroupWindows(plan, chunkSec);
      NoGroups();
      var idx: nat := 0;
      for g := 0 to |groups|
        invariant Valid() && |tracks| == |old(tracks)| && Explained(Met(world), tracks, fate)
        invariant Consistent(hear, tracks, fate, batch, Walk(t, idx)) && tracks[t].plan == plan
        invariant idx == |Flat(groups[..g])| && !tracks[t].failed && !stopped
        invariant |batch| < batcher.size && AllIn(batch, handed) && HandedUpTo(handed, Walk(t, idx))
        invariant NewBroken(old(broken), broken, |old(batcher.log)|) && old(batcher.log) <= batcher.log
        invariant forall u :: t < u < |tracks| ==> fate[u] == Undecided && tracks[u].plan == []
      {
        GroupAt(groups, g);
        GroupHasWindows(groups[g], chunkSec);
        stopped := Check(world);
        if stopped { return; }
        HandedNext(handed, Walk(t, idx));
        if world.decodeFails(t, g) {
          FailDecode(t, g, batch, world, Walk(t, idx));
          return;
        }
        ghost var before, calls := broken, |batcher.log|;
        batch, stopped := WalkGroup(t, plan, g, idx, groups[g], batch, world);
        NewBrokenTwice(old(broken), before, broken, |old(batcher.log)|, calls);
        if stopped || tracks[t].failed { return; }
        idx := idx + |groups[g]|;
      }
      assert groups[..|groups|] == groups;
      HandedNext(handed, Walk(t, idx));
      NextTrack(hear, tracks, fate, batch, Walk(t, idx));
    }

    /** The windows of one decoded stretch. */
    method WalkGroup(t: nat, plan: seq<Interval>, ghost g: nat, idx0: nat, group: seq<Interval>, batch0: seq<WindowItem>, world: World)
      returns (batch: seq<WindowItem>, stopped: bool)
      requires Valid() && t < |tracks| && tracks[t].plan == plan && !tracks[t].failed && plan != []
      requires Consistent(hear, tracks, fate, batch0, Walk(t, idx0))
      requires idx0 + |group| <= |plan| && plan[idx0..idx0 + |group|] == group
      requires GroupStarts(plan, chunkSec, g, idx0, group) && !world.decodeFails(t, g)
      requires forall u :: t < u < |tracks| ==> fate[u] == Undecided && tracks[u].plan == []
      requires Explained(Met(world), tracks, fate)
      requires |batch0| < batcher.size && AllIn(batch0, handed) && HandedUpTo(handed, Walk(t, idx0))
      modifies this, batcher
      ensures !stopped ==> |batch| < batcher.size && AllIn(batch, handed)
      ensures NewBroken(old(broken), broken, |old(batcher.log)|) && old(batcher.log) <= batcher.log
      ensures Valid() && |tracks| == |old(tracks)| && (stopped ==> Stops(world)) && Explained(Met(world), tracks, fate)
      ensures !stopped ==> tracks[t].plan == plan
      ensures !stopped ==> HandedUpTo(handed, if tracks[t].failed then Walk(t + 1, 0) else Walk(t, idx0 + |group|))
      ensures !stopped && !tracks[t].failed ==> Consistent(hear, tracks, fate, batch, Walk(t, idx0 + |group|))
      ensures !stopped && tracks[t].failed ==> Consistent(hear, tracks, fate, batch, Walk(t + 1, 0))
      ensures !stopped ==> forall u :: t < u < |tracks| ==> fate[u] == Undecided && tracks[u].plan == []
    {
      hide Consistent, OnlyUpTo, Counted, Explained, Stops, AllIn, HandedUpTo, NewBroken, Planned, Settled, TrulyBroken;
      batch, stopped := batch0, false;
      ghost var y := idx0;
      NothingHanded(broken, |batcher.log|);
      for k := 0 to |group|
        invariant y == idx0 + k
        invariant Valid() && |tracks| == |old(tracks)| && Explained(Met(world), tracks, fate)
        invariant Consistent(hear, tracks, fate, batch, Walk(t, idx0 + k)) && tracks[t].plan == plan
        invariant |batch| < batcher.size && AllIn(batch, handed) && HandedUpTo(handed, Walk(t, idx0 + k))
        invariant NewBroken(old(broken), broken, |old(batcher.log)|) && old(batcher.log) <= batcher.log
        invariant forall u :: t < u < |tracks| ==> fate[u] == Undecided && tracks[u].plan == []
      {
        if tracks[t].failed { break; }
        var it := WindowItem(t, idx0 + k, group[k]);
        assert group[k] == plan[idx0 + k];
        IsPlanned(Met(world), tracks, g, idx0, group, it);
        HandOut(hear, tracks, fate, batch, Walk(t, idx0 + k));
        HandOne(Met(world), tracks, fate, batch, it, Walk(t, idx0 + k));
        handed := handed + [it];
        batch := batch + [it];
        if |batch| >= batcher.size {
          ghost var before, fates, broke := tracks, fate, false;
          ghost var given, calls := broken, |batcher.log|;
          stopped, broke := Flush(batch, world, Walk(t, idx0 + k + 1));
          OneNewBroken(given, broken, calls);
          NewBrokenTwice(old(broken), given, broken, |old(batcher.log)|, calls);
          NothingIn(handed);
          if stopped { return; }
          batch := [];
          UpTo(before, fates, tracks, fate, Walk(t, idx0 + k + 1));
        }
        y := idx0 + k + 1;
      }
      HandedNext(handed, Walk(t, y));
      if tracks[t].failed {
        NextTrack(hear, tracks, fate, batch, Walk(t, y));
      }
    }
  }

  lemma {:induction false} NothingCounted(fate: seq<Fate>)
    requires forall t :: 0 <= t < |fate| ==> fate[t] == Undecided
    ensures Number(fate, Failed) == Number(fate, Skipped) == Number(fate, Written) == 0
  {
    if fate != [] { NothingCounted(fate[..|fate| - 1]); }
  }
}
