/** The batch coordinator: it takes the lock, parks the runner and captures the run
    budget, drives transcribe and analyze phases, and restores the pipeline on every
    way out. The queue it drives is the one of module JobQueue: between any two of its
    calls, runners and the service take any number of steps there. */
module Coordinator {
  import opened Optional
  import opened JobQueue

  datatype Phase = IdlePhase | Transcribe | Analyze

  type Limit = Option<nat>

  datatype Err = BadOptions | LockFailed | AlreadyRunning | LockLost | PhaseTimeout | StoreError | Cancelled | RestoreFailed

  datatype Options = Options(batchSize: int, maxBatches: int, phaseTimeout: int, evalGatesEmbed: bool, locked: bool) {
    predicate Normal() { batchSize >= 1 && maxBatches >= 0 && phaseTimeout >= 0 }
  }

  datatype Stats = Stats(pending: nat, claimed: nat, done: nat, failed: nat, runLimit: Limit, evalBacklog: nat, embedBacklog: nat)

  /** A store call works, fails before taking effect, or takes effect although it
      reports an error. */
  datatype Reply = Works | FailsBefore | FailsAfter

  datatype LockAnswer = Taken | HeldElsewhere | LockErrors

  datatype Holder = AnotherSession | NotAnother | Unknown

  /** What the others do between two calls of this coordinator. Once the lock is lost
      a successor may be among them: it writes the phase and the run limit. */
  datatype Interlude = Interlude(actions: seq<Action>, phase: Option<Phase>)

  /** Everything outside the coordinator, call by call. Its context is cancelled from
      call number horizon on; the exit cleanup does not use that context. */
  datatype World = World(
    lock: LockAnswer,
    call: nat -> Reply,
    horizon: nat,
    others: nat -> Interlude,
    backlogs: nat -> (nat, nat),
    gpuBusy: nat -> bool,
    clock: nat -> int,
    cleanup: nat -> Reply,
    holder: nat -> Holder,
    backoffStops: nat -> bool,
    lockLost: bool,
    heartbeatFails: bool)

  predicate CallWorks(w: World, c: nat) { c < w.horizon && w.call(c) == Works }

  /** An error of the driving part has its cause: the last call failed, or Phase A made
      no progress for as long as was set. */
  ghost predicate Caused(w: World, o: Options, err: Option<Err>, from: nat, calls: nat)
  {
    err.Some? ==>
      || (err.value in {StoreError, Cancelled} && from < calls && !CallWorks(w, calls - 1))
      || (err.value == PhaseTimeout && o.phaseTimeout > 0)
  }

  datatype Event = WrotePhase(phase: Phase) | WroteLimit(limit: Limit) | Released

  // ---- The others ----------------------------------------------------------

  function WithoutLimitWrites(actions: seq<Action>): (r: seq<Action>)
    ensures NoLimitWrites(r)
  {
    if actions == [] then []
    else
      var last := actions[|actions| - 1];
      WithoutLimitWrites(actions[..|actions| - 1]) + (if last.SetRunLimit? then [] else [last])
  }

  /** Only the lock holder writes the run limit. */
  function ActionsAt(w: World, c: nat): seq<Action>
  {
    if w.lockLost then w.others(c).actions else WithoutLimitWrites(w.others(c).actions)
  }

  /** A successor writes the phase at this point. */
  predicate SuccessorWrites(w: World, c: nat) { w.lockLost && w.others(c).phase.Some? }

  function PhaseAfter(w: World, c: nat, phase: Phase): Phase
  {
    if SuccessorWrites(w, c) then w.others(c).phase.value else phase
  }

  // ---- The budget ----------------------------------------------------------

  /** What a log of writes grants in all. */
  function Granted(log: seq<Event>): nat
  {
    if log == [] then 0
    else
      var last := log[|log| - 1];
      Granted(log[..|log| - 1]) + (if last.WroteLimit? && last.limit.Some? then last.limit.value else 0)
  }

  lemma {:induction false} GrantedConcat(x: seq<Event>, y: seq<Event>)
    ensures Granted(x + y) == Granted(x) + Granted(y)
  {
    if y == [] {
      assert x + y == x;
    } else {
      assert (x + y)[..|x + y| - 1] == x + y[..|y| - 1];
      GrantedConcat(x, y[..|y| - 1]);
    }
  }

  lemma GrantedSnoc(log: seq<Event>, e: Event)
    ensures Granted(log + [e]) == Granted(log) + (if e.WroteLimit? && e.limit.Some? then e.limit.value else 0)
    ensures Granted([]) == 0
  {
    assert (log + [e])[..|log|] == log;
  }

  /** The budget at one moment: the limit, the gated claims made so far, and what this
      coordinator has granted so far. */
  datatype Point = Point(limit: Limit, claims: nat, granted: nat)

  /** While the lock is held and nothing is granted, what is left and what was claimed
      add up to the same. */
  ghost predicate Spends(w: World, a: Point, b: Point)
  {
    && a.claims <= b.claims
    && (!w.lockLost ==>
      && b.granted == a.granted && (a.limit.None? ==> b.limit.None?)
      && (a.limit.Some? ==> b.limit.Some? && b.claims + b.limit.value == a.claims + a.limit.value))
  }

  /** While the lock is held, claims are paid for by what was left and what was granted. */
  ghost predicate Within(w: World, a: Point, b: Point)
  {
    && a.claims <= b.claims
    && (!w.lockLost && a.limit.Some? ==> b.limit.Some? && b.claims + b.limit.value + a.granted <= a.claims + a.limit.value + b.granted)
  }

  // ---- The store -----------------------------------------------------------

  /** The runner_control row and the job queue, with the log of what this coordinator
      wrote and the history of the queue. */
  class Store {
    var phase: Phase
    var queue: State
    var calls: nat
    ghost var log: seq<Event>
    ghost var origin: State
    ghost var history: seq<Action>
    /** How often a transcription was started by a call at which the GPU was taken. */
    ghost var busyStarts: nat

    ghost predicate Valid()
      reads this
    {
      Inv(queue) && queue == ApplyAll(origin, history)
    }

    ghost function Now(): Point
      reads this
    {
      Point(queue.runLimit, GatedClaims(origin, history), Granted(log))
    }

    constructor (phase: Phase, queue: State)
      requires Inv(queue)
      ensures Valid() && this.phase == phase && this.queue == queue && calls == 0 && log == [] && history == []
    {
      this.phase, this.queue, calls := phase, queue, 0;
      log, origin, history, busyStarts := [], queue, [], 0;
    }

    /** The others act. */
    method Others(w: World)
      requires Valid()
      modifies this`phase, this`queue, this`calls, this`history
      ensures Valid() && calls == old(calls) + 1 && phase == PhaseAfter(w, old(calls), old(phase))
      ensures history == old(history) + ActionsAt(w, old(calls)) && queue == ApplyAll(old(queue), ActionsAt(w, old(calls)))
      ensures Spends(w, old(Now()), Now())
    {
      hide Inv, GatedClaims, ApplyAll, Granted;
      var actions := ActionsAt(w, calls);
      ReachableKeepsInv(queue, actions);
      ApplyAllConcat(origin, history, actions);
      GatedClaimsConcat(origin, history, actions);
      if !w.lockLost {
        if queue.runLimit.Some? { BudgetIsConserved(queue, actions); } else { UnlimitedStays(queue, actions); }
      }
      phase := PhaseAfter(w, calls, phase);
      queue, history, calls := ApplyAll(queue, actions), history + actions, calls + 1;
    }

    /** The others act, and one call's reply is decided. */
    method Call(w: World) returns (reply: Reply)
      requires Valid()
      modifies this`phase, this`queue, this`calls, this`history
      ensures Valid() && calls == old(calls) + 1 && phase == PhaseAfter(w, old(calls), old(phase))
      ensures old(history) <= history && Spends(w, old(Now()), Now())
      ensures old(calls) >= w.horizon ==> reply == FailsBefore
      ensures reply == Works <==> CallWorks(w, old(calls))
    {
      hide Inv, GatedClaims, ApplyAll, Granted;
      reply := if calls >= w.horizon then FailsBefore else w.call(calls);
      Others(w);
    }

    method SetPipelinePhase(p: Phase, reply: Reply, ghost w: World) returns (ok: bool)
      requires Valid()
      modifies this`phase, this`log, this`busyStarts
      ensures Valid() && Now() == old(Now()) && (ok <==> reply == Works)
      ensures busyStarts == old(busyStarts) + if p == Transcribe && calls > 0 && w.gpuBusy(calls - 1) then 1 else 0
      ensures reply == FailsBefore ==> phase == old(phase) && log == old(log)
      ensures reply != FailsBefore ==> phase == p && log == old(log) + [WrotePhase(p)]
    {
      hide Inv, GatedClaims, ApplyAll;
      if p == Transcribe && calls > 0 && w.gpuBusy(calls - 1) { busyStarts := busyStarts + 1; }
      if reply != FailsBefore {
        phase := p;
        log := log + [WrotePhase(p)];
      }
      ok := reply == Works;
    }

    method SetRunLimit(l: Limit, reply: Reply) returns (ok: bool)
      requires Valid()
      modifies this`queue, this`log, this`history
      ensures Valid() && old(history) <= history && (ok <==> reply == Works)
      ensures reply == FailsBefore ==> queue == old(queue) && log == old(log) && Now() == old(Now())
      ensures reply != FailsBefore ==> queue == old(queue).(runLimit := l) && log == old(log) + [WroteLimit(l)]
      ensures reply != FailsBefore ==> Now() == Point(l, old(Now()).claims, old(Now()).granted + l.GetOr(0))
    {
      hide Inv, GatedClaims, ApplyAll, Apply;
      if reply != FailsBefore {
        var write := [JobQueue.SetRunLimit(l)];
        OneLimitWrite(queue, l);
        ReachableKeepsInv(queue, write);
        ApplyAllConcat(origin, history, write);
        GatedClaimsConcat(origin, history, write);
        queue, history := ApplyAll(queue, write), history + write;
        log := log + [WroteLimit(l)];
      }
      ok := reply == Works;
    }
  }

  lemma OneLimitWrite(s: State, l: Limit)
    ensures ApplyAll(s, [SetRunLimit(l)]) == s.(runLimit := l) && GatedClaims(s, [SetRunLimit(l)]) == 0
  {
    var write := [SetRunLimit(l)];
    assert write[..|write| - 1] == [];
  }

  // ---- The phases ----------------------------------------------------------

  function Number(q: State, status: Status): nat
  {
    |set j | j in q.rows && q.rows[j].status == status|
  }

  lemma NumberZero(q: State, status: Status)
    ensures Number(q, status) == 0 <==> forall j :: j in q.rows ==> q.rows[j].status != status
  {
    var all := set j | j in q.rows && q.rows[j].status == status;
    if forall j :: j in q.rows ==> q.rows[j].status != status {
      assert all == {};
    } else {
      var j :| j in q.rows && q.rows[j].status == status;
      assert j in all;
    }
  }

  /** A status read shows the queue as it stands. */
  function StatsOf(q: State, backlogs: (nat, nat)): Stats
  {
    Stats(Number(q, Pending), Number(q, Claimed), Number(q, Done), Number(q, Failed), q.runLimit, backlogs.0, backlogs.1)
  }

  predicate TranscribeDone(st: Stats)
  {
    st.claimed == 0 && (st.runLimit == Some(0) || st.pending == 0)
  }

  /** What the end of Phase A means: no job is claimed, and the budget is spent or no
      job is pending. */
  lemma TranscribeDoneMeans(q: State, backlogs: (nat, nat))
    ensures TranscribeDone(StatsOf(q, backlogs)) <==>
            && (forall j :: j in q.rows ==> q.rows[j].status != Claimed)
            && (q.runLimit == Some(0) || forall j :: j in q.rows ==> q.rows[j].status != Pending)
  {
    NumberZero(q, Claimed);
    NumberZero(q, Pending);
  }

  predicate QueueEmpty(st: Stats) { st.pending == 0 && st.claimed == 0 }

  /** No job is waiting or being worked on. */
  ghost predicate NothingToDo(q: State) { forall j :: j in q.rows ==> q.rows[j].status !in {Pending, Claimed} }

  lemma QueueEmptyMeans(q: State, backlogs: (nat, nat))
    ensures QueueEmpty(StatsOf(q, backlogs)) <==> NothingToDo(q)
  {
    NumberZero(q, Pending);
    NumberZero(q, Claimed);
  }

  /** No transcript waits to be embedded and, when judging comes first, none to be judged. */
  ghost predicate IsDrained(backlogs: (nat, nat), evalGatesEmbed: bool)
  {
    backlogs.1 == 0 && (evalGatesEmbed ==> backlogs.0 == 0)
  }

  predicate AnalyzeDrained(st: Stats, evalGatesEmbed: bool)
  {
    if evalGatesEmbed then st.evalBacklog == 0 && st.embedBacklog == 0 else st.embedBacklog == 0
  }

  function ProgressOf(st: Stats): (nat, nat, nat, nat, int)
  {
    (st.pending, st.claimed, st.done, st.failed, if st.runLimit.Some? then st.runLimit.value else -1)
  }

  /** Nothing that Phase A watches differs: as many jobs are pending, claimed, done and
      failed, and the run limit is the same. */
  ghost predicate SameCounts(q: State, q': State)
  {
    (forall status :: Number(q, status) == Number(q', status)) && q.runLimit == q'.runLimit
  }

  /** Two status reads show the same progress exactly when none of these changed between
      them. */
  lemma EqualProgressMeans(q: State, q': State, x: (nat, nat), y: (nat, nat))
    ensures ProgressOf(StatsOf(q, x)) == ProgressOf(StatsOf(q', y)) <==> SameCounts(q, q')
  {
    hide Number;
    if ProgressOf(StatsOf(q, x)) == ProgressOf(StatsOf(q', y)) {
      forall status
        ensures Number(q, status) == Number(q', status)
      {
        match status
        case Pending =>
        case Claimed =>
        case Done =>
        case Failed =>
      }
    }
  }

  lemma AnalyzeDrainedMeans(q: State, backlogs: (nat, nat), evalGatesEmbed: bool)
    ensures AnalyzeDrained(StatsOf(q, backlogs), evalGatesEmbed) <==> IsDrained(backlogs, evalGatesEmbed)
  {
  }

  /** The driving part of a run's log, between the swap and the restore. */
  ghost predicate Drives(log: seq<Event>, n: int)
  {
    forall k :: 0 <= k < |log| ==> DrivesAt(log, n, k)
  }

  /** A positive limit is written only as the batch size, right after switching to
      transcribe; analyze follows that limit, or the cleared one of a resume. */
  ghost predicate DrivesAt(log: seq<Event>, n: int, k: int)
    requires 0 <= k < |log|
  {
    match log[k]
    case WroteLimit(l) => l == Some(0) || (l.Some? && l.value == n && k > 0 && log[k - 1] == WrotePhase(Transcribe))
    case WrotePhase(p) => p == Transcribe || (p == Analyze && k > 0 && log[k - 1].WroteLimit? && log[k - 1].limit.Some?)
    case Released => false
  }

  lemma DrivesSnoc(log: seq<Event>, n: int, e: Event)
    requires Drives(log, n) && DrivesAt(log + [e], n, |log|)
    ensures Drives(log + [e], n)
  {
    forall k | 0 <= k < |log + [e]|
      ensures DrivesAt(log + [e], n, k)
    {
      if k < |log| { assert DrivesAt(log, n, k); }
    }
  }

  lemma LogGrows(base: seq<Event>, before: seq<Event>, after: seq<Event>, n: int)
    requires base <= before && Drives(before[|base|..], n)
    requires before == after || (|after| == |before| + 1 && before == after[..|before|] && DrivesAt(after[|base|..], n, |before| - |base|))
    ensures base <= after && Drives(after[|base|..], n)
  {
    if before != after {
      var e := after[|before|];
      assert after[|base|..] == before[|base|..] + [e];
      DrivesSnoc(before[|base|..], n, e);
    }
  }

  /** Waiting between polls: cancelled once the context is. */
  method Sleep(store: Store, w: World) returns (err: Option<Err>)
    requires store.Valid()
    modifies store`phase, store`queue, store`calls, store`history
    ensures store.Valid() && old(store.history) <= store.history && store.calls == old(store.calls) + 1
    ensures old(store.calls) >= w.horizon ==> err.Some?
    ensures err.Some? ==> err == Some(Cancelled) && !CallWorks(w, store.calls - 1)
    ensures Spends(w, old(store.Now()), store.Now())
  {
    var reply := store.Call(w);
    err := if reply == Works then None else Some(Cancelled);
  }

  method YieldToGames(store: Store, w: World) returns (err: Option<Err>)
    requires store.Valid()
    modifies store`phase, store`queue, store`calls, store`history
    ensures store.Valid() && old(store.history) <= store.history
    ensures store.calls >= old(store.calls) && (err.None? ==> !w.gpuBusy(store.calls))
    ensures err.Some? ==> err == Some(Cancelled) && store.calls > old(store.calls) && !CallWorks(w, store.calls - 1)
    ensures Spends(w, old(store.Now()), store.Now())
  {
    hide Inv, GatedClaims, ApplyAll, Granted;
    while w.gpuBusy(store.calls)
      invariant store.Valid() && old(store.history) <= store.history && store.calls >= old(store.calls)
      invariant Spends(w, old(store.Now()), store.Now())
      decreases w.horizon + 1 - store.calls
    {
      err := Sleep(store, w);
      if err.Some? { return; }
    }
    err := None;
  }

  /** A status read of Phase A: its call, how much of the queue's history it saw, and the
      queue it saw. */
  datatype Poll = Poll(call: nat, at: nat, queue: State)

  ghost predicate TruePolls(polls: seq<Poll>, origin: State, history: seq<Action>, calls: nat)
  {
    && (forall k :: 0 <= k < |polls| ==>
          && polls[k].at <= |history| && polls[k].call < calls
          && polls[k].queue == ApplyAll(origin, history[..polls[k].at]))
    && (forall k, l :: 0 <= k < l < |polls| ==> polls[k].call < polls[l].call && polls[k].at <= polls[l].at)
  }

  lemma SameCountsItself(q: State)
    ensures SameCounts(q, q)
  {
  }

  lemma SameCountsBothWays(a: State, b: State)
    ensures SameCounts(a, b) == SameCounts(b, a)
  {
  }

  lemma SameCountsTwice(a: State, b: State, c: State)
    requires SameCounts(a, b) && SameCounts(c, b)
    ensures SameCounts(a, c)
  {
  }

  /** The first of the last reads between which nothing changed. */
  ghost function RunStart(polls: seq<Poll>): (i: nat)
    requires polls != []
    ensures i < |polls|
  {
    var n := |polls| - 1;
    if n == 0 then 0 else if SameCounts(polls[n].queue, polls[n - 1].queue) then RunStart(polls[..n]) else n
  }

  /** Nothing has changed since then, and something did just before. */
  lemma {:induction false} RunStartMeans(polls: seq<Poll>)
    requires polls != []
    ensures var i := RunStart(polls);
            && (forall k :: i <= k < |polls| ==> SameCounts(polls[k].queue, polls[|polls| - 1].queue))
            && (i > 0 ==> !SameCounts(polls[i - 1].queue, polls[i].queue))
  {
    var n := |polls| - 1;
    hide SameCounts;
    if n > 0 { SameCountsBothWays(polls[n].queue, polls[n - 1].queue); }
    SameCountsItself(polls[n].queue);
    if n > 0 && SameCounts(polls[n].queue, polls[n - 1].queue) {
      RunStartMeans(polls[..n]);
      forall k | RunStart(polls[..n]) <= k < n
        ensures SameCounts(polls[k].queue, polls[n].queue)
      {
        assert polls[..n][k] == polls[k];
        SameCountsTwice(polls[k].queue, polls[n - 1].queue, polls[n].queue);
      }
    }
  }

  /** At the last read nothing has changed since one a whole timeout before. */
  ghost predicate Stalled(w: World, polls: seq<Poll>, timeout: int)
  {
    && polls != [] && RunStart(polls) < |polls| - 1
    && w.clock(polls[|polls| - 1].call) - w.clock(polls[RunStart(polls)].call) >= timeout
  }

  /** No earlier read was a stall. */
  ghost predicate NotYetStalled(w: World, polls: seq<Poll>, timeout: int)
  {
    forall n :: 0 <= n < |polls| ==> !Stalled(w, polls[..n], timeout)
  }

  lemma NextPoll(w: World, polls: seq<Poll>, p: Poll, timeout: int)
    requires NotYetStalled(w, polls, timeout) && !Stalled(w, polls, timeout)
    ensures NotYetStalled(w, polls + [p], timeout)
    ensures polls != [] && SameCounts(p.queue, polls[|polls| - 1].queue) ==> RunStart(polls + [p]) == RunStart(polls)
    ensures polls == [] || !SameCounts(p.queue, polls[|polls| - 1].queue) ==> RunStart(polls + [p]) == |polls|
  {
    hide Stalled, SameCounts;
    var more := polls + [p];
    assert more[..|polls|] == polls;
    forall n | 0 <= n < |more|
      ensures !Stalled(w, more[..n], timeout)
    {
      if n < |polls| { assert more[..n] == polls[..n]; }
    }
  }

  lemma NextTruePoll(polls: seq<Poll>, p: Poll, origin: State, history: seq<Action>, more: seq<Action>, calls: nat, calls': nat)
    requires TruePolls(polls, origin, history, calls) && history <= more && calls <= p.call < calls' && p.at == |more|
    requires p.queue == ApplyAll(origin, more)
    ensures TruePolls(polls + [p], origin, more, calls')
  {
    hide ApplyAll;
    assert more[..p.at] == more;
    forall k | 0 <= k < |polls|
      ensures more[..polls[k].at] == history[..polls[k].at]
    {
    }
  }

  lemma PollsStayTrue(polls: seq<Poll>, origin: State, history: seq<Action>, more: seq<Action>, calls: nat, calls': nat)
    requires TruePolls(polls, origin, history, calls) && history <= more && calls <= calls'
    ensures TruePolls(polls, origin, more, calls')
  {
    hide ApplyAll;
    forall k | 0 <= k < |polls|
      ensures more[..polls[k].at] == history[..polls[k].at]
    {
    }
  }

  /** When Phase A timed out, and only then: at the first read that is a stall. */
  ghost predicate TimesOut(w: World, o: Options, polls: seq<Poll>, err: Option<Err>)
  {
    && (o.phaseTimeout > 0 ==> NotYetStalled(w, polls, o.phaseTimeout))
    && (err == Some(PhaseTimeout) ==> o.phaseTimeout > 0 && Stalled(w, polls, o.phaseTimeout))
    && (err == Some(Cancelled) && o.phaseTimeout > 0 ==> !Stalled(w, polls, o.phaseTimeout))
  }

  /** Phase A. It ends well only when a status read shows nothing claimed and the budget
      spent or the queue empty; what was claimed by then is paid for by the batch size
      and what was left before. */
  method RunTranscribePhase(store: Store, w: World, o: Options, ghost base: seq<Event>) returns (err: Option<Err>, ghost polls: seq<Poll>)
    requires store.Valid() && o.Normal() && base <= store.log && Drives(store.log[|base|..], o.batchSize)
    modifies store
    ensures store.Valid() && store.origin == old(store.origin) && old(store.history) <= store.history
    ensures store.busyStarts == old(store.busyStarts) + (if w.gpuBusy(old(store.calls)) then 1 else 0)
    ensures base <= store.log && Drives(store.log[|base|..], o.batchSize)
    ensures store.calls >= old(store.calls) && Caused(w, o, err, old(store.calls), store.calls)
    ensures TruePolls(polls, store.origin, store.history, store.calls) && TimesOut(w, o, polls, err)
    ensures err == Some(PhaseTimeout) ==>
      && polls != [] && o.phaseTimeout > 0
      && w.clock(polls[|polls| - 1].call) - w.clock(polls[RunStart(polls)].call) >= o.phaseTimeout
    ensures err.None? ==> store.log == old(store.log) + [WrotePhase(Transcribe), WroteLimit(Some(o.batchSize))]
    ensures err.None? ==> store.calls > 0 && TranscribeDone(StatsOf(store.queue, w.backlogs(store.calls - 1)))
    ensures Within(w, old(store.Now()), store.Now())
    ensures err.None? && !w.lockLost ==> store.queue.runLimit.Some? && store.queue.runLimit.value <= o.batchSize
  {
    hide TranscribeDone, ProgressOf, StatsOf, Inv, GatedClaims, ApplyAll, Granted, TruePolls, TimesOut, Drives, Caused;
    polls := [];
    err := StartTranscribing(store, w, o, base);
    NoPolls(w, o, store.origin, store.history, store.calls);
    if err.Some? { return; }
    ghost var calls := store.calls;
    err, polls := WaitForTranscribed(store, w, o);
    if err == Some(PhaseTimeout) { TimeoutIsStall(w, o, polls, err); }
    CausedLater(w, o, err, old(store.calls), calls, store.calls);
  }

  lemma CausedLater(w: World, o: Options, err: Option<Err>, from: nat, mid: nat, calls: nat)
    requires Caused(w, o, err, mid, calls) && from <= mid
    ensures Caused(w, o, err, from, calls)
  {
  }

  /** Switches to transcribe and grants the batch size. */
  method StartTranscribing(store: Store, w: World, o: Options, ghost base: seq<Event>) returns (err: Option<Err>)
    requires store.Valid() && o.Normal() && base <= store.log && Drives(store.log[|base|..], o.batchSize)
    modifies store
    ensures store.Valid() && store.origin == old(store.origin) && old(store.history) <= store.history
    ensures store.busyStarts == old(store.busyStarts) + (if w.gpuBusy(old(store.calls)) then 1 else 0)
    ensures base <= store.log && Drives(store.log[|base|..], o.batchSize)
    ensures store.calls >= old(store.calls) && Caused(w, o, err, old(store.calls), store.calls) && (err.Some? ==> err == Some(StoreError))
    ensures err.None? ==> store.log == old(store.log) + [WrotePhase(Transcribe), WroteLimit(Some(o.batchSize))]
    ensures Within(w, old(store.Now()), store.Now())
    ensures err.None? ==> store.queue.runLimit == Some(o.batchSize)
  {
    hide Inv, GatedClaims, ApplyAll, Granted;
    var reply := store.Call(w);
    ghost var log0 := store.log;
    var ok := store.SetPipelinePhase(Transcribe, reply, w);
    LogGrows(base, log0, store.log, o.batchSize);
    if !ok { return Some(StoreError); }
    reply := store.Call(w);
    log0 := store.log;
    ok := store.SetRunLimit(Some(o.batchSize), reply);
    ghost var k := |log0| - |base|;
    assert store.log != log0 ==> store.log[|base|..][k] == WroteLimit(Some(o.batchSize)) && store.log[|base|..][k - 1] == log0[|log0| - 1];
    LogGrows(base, log0, store.log, o.batchSize);
    err := if ok then None else Some(StoreError);
  }

  lemma TimeoutIsStall(w: World, o: Options, polls: seq<Poll>, err: Option<Err>)
    requires TimesOut(w, o, polls, err) && err == Some(PhaseTimeout)
    ensures polls != [] && o.phaseTimeout > 0
    ensures w.clock(polls[|polls| - 1].call) - w.clock(polls[RunStart(polls)].call) >= o.phaseTimeout
  {
  }

  lemma NoPolls(w: World, o: Options, origin: State, history: seq<Action>, calls: nat)
    ensures TruePolls([], origin, history, calls) && TimesOut(w, o, [], None) && TimesOut(w, o, [], Some(StoreError))
  {
  }

  method WaitForTranscribed(store: Store, w: World, o: Options) returns (err: Option<Err>, ghost polls: seq<Poll>)
    requires store.Valid()
    modifies store`phase, store`queue, store`calls, store`history
    ensures store.Valid() && old(store.history) <= store.history && store.calls >= old(store.calls)
    ensures Caused(w, o, err, old(store.calls), store.calls)
    ensures err.None? ==> store.calls > 0 && TranscribeDone(StatsOf(store.queue, w.backlogs(store.calls - 1)))
    ensures TruePolls(polls, store.origin, store.history, store.calls) && TimesOut(w, o, polls, err)
    ensures Spends(w, old(store.Now()), store.Now())
  {
    hide TranscribeDone, ProgressOf, StatsOf, Inv, GatedClaims, ApplyAll, Granted, TruePolls, NotYetStalled, RunStart, SameCounts, Within;
    polls := [];
    NothingPolled(w, o, store.origin, store.history, store.calls);
    var last, lastProgress := None, w.clock(store.calls);
    while true
      invariant store.Valid() && old(store.history) <= store.history && store.calls >= old(store.calls)
      invariant Spends(w, old(store.Now()), store.Now())
      invariant TruePolls(polls, store.origin, store.history, store.calls)
      invariant o.phaseTimeout > 0 ==> NotYetStalled(w, polls, o.phaseTimeout) && !Stalled(w, polls, o.phaseTimeout)
      invariant last == if polls == [] then None else Some(ProgressOf(StatsOf(polls[|polls| - 1].queue, (0, 0))))
      invariant polls != [] ==> lastProgress == w.clock(polls[RunStart(polls)].call)
      decreases w.horizon + 1 - store.calls
    {
      ghost var history, calls := store.history, store.calls;
      var reply := store.Call(w);
      if reply != Works {
        PollsStayTrue(polls, store.origin, history, store.history, calls, store.calls);
        return Some(StoreError), polls;
      }
      var st, now := StatsOf(store.queue, w.backlogs(store.calls - 1)), w.clock(store.calls - 1);
      ghost var poll := Poll(store.calls - 1, |store.history|, store.queue);
      ProgressIgnoresBacklogs(store.queue, w.backlogs(store.calls - 1));
      if polls != [] { EqualProgressMeans(store.queue, polls[|polls| - 1].queue, (0, 0), (0, 0)); }
      NextTruePoll(polls, poll, store.origin, history, store.history, calls, store.calls);
      OnePollMore(w, o, polls, poll);
      polls := polls + [poll];
      if TranscribeDone(st) { return None, polls; }
      if last == None || last.value != ProgressOf(st) {
        last, lastProgress := Some(ProgressOf(st)), now;
      } else if o.phaseTimeout > 0 && now - lastProgress >= o.phaseTimeout {
        return Some(PhaseTimeout), polls;
      }
      history, calls := store.history, store.calls;
      err := Sleep(store, w);
      PollsStayTrue(polls, store.origin, history, store.history, calls, store.calls);
      if err.Some? { return; }
    }
  }

  lemma ProgressIgnoresBacklogs(q: State, backlogs: (nat, nat))
    ensures ProgressOf(StatsOf(q, backlogs)) == ProgressOf(StatsOf(q, (0, 0)))
  {
  }

  lemma NothingPolled(w: World, o: Options, origin: State, history: seq<Action>, calls: nat)
    ensures TruePolls([], origin, history, calls) && NotYetStalled(w, [], o.phaseTimeout) && !Stalled(w, [], o.phaseTimeout)
  {
  }

  lemma OnePollMore(w: World, o: Options, polls: seq<Poll>, p: Poll)
    requires o.phaseTimeout > 0 ==> NotYetStalled(w, polls, o.phaseTimeout) && !Stalled(w, polls, o.phaseTimeout)
    ensures o.phaseTimeout > 0 ==> NotYetStalled(w, polls + [p], o.phaseTimeout)
    ensures RunStart(polls + [p]) == if polls != [] && SameCounts(p.queue, polls[|polls| - 1].queue) then RunStart(polls) else |polls|
  {
    hide Stalled, NotYetStalled, SameCounts;
    assert (polls + [p])[..|polls|] == polls;
    if o.phaseTimeout > 0 { NextPoll(w, polls, p, o.phaseTimeout); }
  }

  method WaitForAnalyzeDrained(store: Store, w: World, evalGatesEmbed: bool) returns (err: Option<Err>)
    requires store.Valid()
    modifies store`phase, store`queue, store`calls, store`history
    ensures store.Valid() && old(store.history) <= store.history && store.calls >= old(store.calls)
    ensures err.None? ==> store.calls > 0 && IsDrained(w.backlogs(store.calls - 1), evalGatesEmbed)
    ensures err.Some? ==> err.value in {StoreError, Cancelled} && store.calls > old(store.calls) && !CallWorks(w, store.calls - 1)
    ensures Spends(w, old(store.Now()), store.Now())
  {
    hide StatsOf, Inv, GatedClaims, ApplyAll, Granted;
    while true
      invariant store.Valid() && old(store.history) <= store.history && store.calls >= old(store.calls)
      invariant Spends(w, old(store.Now()), store.Now())
      decreases w.horizon + 1 - store.calls
    {
      var reply := store.Call(w);
      if reply != Works { return Some(StoreError); }
      AnalyzeDrainedMeans(store.queue, w.backlogs(store.calls - 1), evalGatesEmbed);
      if AnalyzeDrained(StatsOf(store.queue, w.backlogs(store.calls - 1)), evalGatesEmbed) { return None; }
      err := Sleep(store, w);
      if err.Some? { return; }
    }
  }

  /** Phase B. It ends well only once the backlogs have drained, and every gated claim
      during it spends what Phase A left: after a spent Phase A there is none. */
  method RunAnalyzePhase(store: Store, w: World, o: Options, ghost base: seq<Event>) returns (err: Option<Err>)
    requires store.Valid() && base <= store.log && Drives(store.log[|base|..], o.batchSize)
    requires |store.log| > |base| && store.log[|store.log| - 1].WroteLimit? && store.log[|store.log| - 1].limit.Some?
    modifies store
    ensures store.Valid() && store.origin == old(store.origin) && old(store.history) <= store.history
    ensures store.busyStarts == old(store.busyStarts)
    ensures base <= store.log && Drives(store.log[|base|..], o.batchSize)
    ensures store.calls > old(store.calls) && Caused(w, o, err, old(store.calls), store.calls)
    ensures err.None? ==> IsDrained(w.backlogs(store.calls - 1), o.evalGatesEmbed)
    ensures err.None? ==> store.log == old(store.log) + [WrotePhase(Analyze)]
    ensures Spends(w, old(store.Now()), store.Now())
    ensures !w.lockLost && old(store.queue).runLimit == Some(0) ==> store.Now().claims == old(store.Now()).claims
  {
    hide AnalyzeDrained, StatsOf, Inv, GatedClaims, ApplyAll, Granted;
    var reply := store.Call(w);
    ghost var log0 := store.log;
    var ok := store.SetPipelinePhase(Analyze, reply, w);
    ghost var k := |log0| - |base|;
    assert store.log != log0 ==> store.log[|base|..][k] == WrotePhase(Analyze) && store.log[|base|..][k - 1] == log0[|log0| - 1];
    LogGrows(base, log0, store.log, o.batchSize);
    if !ok { return Some(StoreError); }
    err := WaitForAnalyzeDrained(store, w, o.evalGatesEmbed);
  }

  // ---- Capture and restore -------------------------------------------------

  /** The budget put back on exit: what was there, if the run started from idle and
      it was not a spent budget; otherwise unlimited. */
  function RestoreChoice(phase: Phase, prev: Limit): Limit
  {
    if phase != IdlePhase then None else if prev == Some(0) then None else prev
  }

  /** What the run captured: the phase it found, the budget its swap read, and the
      gated claims made by then. */
  datatype Capture = NotSwapped | Swapped(phase: Phase, prev: Limit, claims: nat) {
    function Choice(): Limit { if Swapped? then RestoreChoice(phase, prev) else None }
  }

  /** Reads and parks the budget in one atomic swap, so no claim falls between. A
      failed swap is not fatal; unlimited is then restored. */
  method CaptureRestoreLimit(store: Store, w: World, phase: Phase) returns (limit: Limit, ghost capture: Capture)
    requires store.Valid()
    modifies store
    ensures store.Valid() && store.origin == old(store.origin) && old(store.history) <= store.history && store.calls == old(store.calls) + 1
    ensures store.busyStarts == old(store.busyStarts)
    ensures limit == capture.Choice() && (capture.Swapped? <==> CallWorks(w, old(store.calls)))
    ensures capture.Swapped? ==>
      && capture.phase == phase && Spends(w, old(store.Now()), Point(capture.prev, capture.claims, old(store.Now()).granted))
      && store.Now() == Point(Some(0), capture.claims, old(store.Now()).granted)
    ensures store.log == old(store.log) + [WroteLimit(Some(0))] || (!capture.Swapped? && store.log == old(store.log))
  {
    hide Inv, GatedClaims, ApplyAll, Granted;
    var reply := store.Call(w);
    ghost var before := store.Now();
    var prev := store.queue.runLimit;
    var ok := store.SetRunLimit(Some(0), reply);
    capture := if ok then Swapped(phase, prev, before.claims) else NotSwapped;
    limit := if !ok then None else RestoreChoice(phase, prev);
  }

  /** What of the restore took effect. */
  ghost function RestoreWrites(w: World, limit: Limit): seq<Event>
  {
    (if w.cleanup(0) == FailsBefore then [] else [WrotePhase(IdlePhase)]) +
    (if w.cleanup(1) == FailsBefore then [] else [WroteLimit(limit)])
  }

  /** Both writes are attempted, whatever the first one reports. The others act before
      each: a phase a successor writes between the two stays. */
  method RestoreIdle(store: Store, w: World, limit: Limit) returns (ok: bool)
    requires store.Valid()
    modifies store
    ensures store.Valid() && store.origin == old(store.origin) && old(store.history) <= store.history && store.calls == old(store.calls) + 2
    ensures store.busyStarts == old(store.busyStarts)
    ensures ok <==> w.cleanup(0) == Works && w.cleanup(1) == Works
    ensures store.log == old(store.log) + RestoreWrites(w, limit)
    ensures ok ==> store.queue.runLimit == limit && store.phase == PhaseAfter(w, old(store.calls) + 1, IdlePhase)
    ensures old(store.Now()).claims <= store.Now().claims
    ensures !w.lockLost && old(store.Now()).limit.Some? ==> store.Now().claims <= old(store.Now()).claims + old(store.Now()).limit.value
  {
    hide Inv, GatedClaims, ApplyAll, Granted;
    store.Others(w);
    var okPhase := store.SetPipelinePhase(IdlePhase, w.cleanup(0), w);
    store.Others(w);
    var okLimit := store.SetRunLimit(limit, w.cleanup(1));
    ok := okPhase && okLimit;
  }

  const SUCCESSOR_ATTEMPTS := 3

  /** The first definite answer says that another session holds the lock, and no wait
      before it was cut short. */
  ghost predicate TakenOver(w: World)
  {
    exists k: nat :: k < SUCCESSOR_ATTEMPTS && w.holder(k) == AnotherSession && forall q: nat :: q < k ==> w.holder(q) == Unknown && !w.backoffStops(q)
  }

  /** Only a definite answer that another session holds the lock skips the restore;
      an answer that stays inconclusive does not. */
  method SuccessorTakeover(w: World) returns (other: bool)
    ensures other <==> TakenOver(w)
  {
    var attempt := 0;
    while attempt < SUCCESSOR_ATTEMPTS
      invariant 0 <= attempt <= SUCCESSOR_ATTEMPTS
      invariant forall q: nat :: q < attempt ==> w.holder(q) == Unknown && !w.backoffStops(q)
    {
      if w.holder(attempt) != Unknown {
        return w.holder(attempt) == AnotherSession;
      }
      if w.backoffStops(attempt) { return false; }
      attempt := attempt + 1;
    }
    return false;
  }

  // ---- A run ---------------------------------------------------------------

  /** The log of n finished batches. */
  ghost function Rounds(n: nat, size: int): seq<Event>
    requires size >= 0
  {
    if n == 0 then [] else Rounds(n - 1, size) + Round(size)
  }

  ghost function Round(size: int): seq<Event>
    requires size >= 0
  {
    [WrotePhase(Transcribe), WroteLimit(Some(size)), WrotePhase(Analyze)]
  }

  lemma RoundsNext(n: nat, size: int)
    requires size >= 0
    ensures Rounds(0, size) == [] && Rounds(n + 1, size) == Rounds(n, size) + Round(size)
  {
  }

  lemma GrantedInRound(size: int)
    requires size >= 0
    ensures Granted(Round(size)) == size
  {
    hide Granted;
    var start, grant := [WrotePhase(Transcribe)], [WrotePhase(Transcribe), WroteLimit(Some(size))];
    assert [] + start == start && start + [WroteLimit(Some(size))] == grant && grant + [WrotePhase(Analyze)] == Round(size);
    GrantedSnoc([], WrotePhase(Transcribe));
    GrantedSnoc(start, WroteLimit(Some(size)));
    GrantedSnoc(grant, WrotePhase(Analyze));
  }

  lemma {:induction false} GrantedInRounds(n: nat, size: int)
    requires size >= 0
    ensures Granted(Rounds(n, size)) == n * size
  {
    hide Granted, Round;
    if n == 0 {
      GrantedSnoc([], Released);
    } else {
      GrantedInRounds(n - 1, size);
      GrantedConcat(Rounds(n - 1, size), Round(size));
      GrantedInRound(size);
      assert (n - 1) * size + size == n * size;
    }
  }

  method OneBatch(store: Store, w: World, o: Options, ghost base: seq<Event>) returns (err: Option<Err>)
    requires store.Valid() && o.Normal() && base <= store.log && Drives(store.log[|base|..], o.batchSize)
    modifies store
    ensures store.Valid() && store.origin == old(store.origin) && old(store.history) <= store.history && store.calls >= old(store.calls)
    ensures store.busyStarts == old(store.busyStarts) + (if w.gpuBusy(old(store.calls)) then 1 else 0)
    ensures base <= store.log && Drives(store.log[|base|..], o.batchSize)
    ensures Caused(w, o, err, old(store.calls), store.calls)
    ensures err.None? ==> store.calls > old(store.calls) && store.log == old(store.log) + Round(o.batchSize)
    ensures Within(w, old(store.Now()), store.Now())
  {
    hide TranscribeDone, AnalyzeDrained, StatsOf, Inv, GatedClaims, ApplyAll, Granted, Drives;
    ghost var polls;
    err, polls := RunTranscribePhase(store, w, o, base);
    if err.Some? { return; }
    err := RunAnalyzePhase(store, w, o, base);
  }

  /** Phase A and Phase B in turn, until the queue is empty or enough batches have run. */
  method Batches(store: Store, w: World, o: Options, ghost base: seq<Event>) returns (err: Option<Err>, ghost rounds: nat)
    requires store.Valid() && o.Normal() && base <= store.log && Drives(store.log[|base|..], o.batchSize)
    modifies store
    ensures store.Valid() && store.origin == old(store.origin) && old(store.history) <= store.history
    ensures store.busyStarts == old(store.busyStarts)
    ensures base <= store.log && Drives(store.log[|base|..], o.batchSize)
    ensures err.None? ==> store.log == old(store.log) + Rounds(rounds, o.batchSize)
    ensures err.None? ==> (o.maxBatches > 0 && rounds == o.maxBatches) || NothingToDo(store.queue)
    ensures o.maxBatches > 0 ==> rounds <= o.maxBatches
    ensures store.calls >= old(store.calls) && Caused(w, o, err, old(store.calls), store.calls)
    ensures Within(w, old(store.Now()), store.Now())
  {
    hide StatsOf, Inv, GatedClaims, ApplyAll, Granted, Drives, Rounds, Round, Caused;
    var batchNum := 1;
    rounds := 0;
    RoundsNext(0, o.batchSize);
    while o.maxBatches == 0 || batchNum <= o.maxBatches
      invariant batchNum == rounds + 1 && (o.maxBatches > 0 ==> rounds <= o.maxBatches)
      invariant store.Valid() && store.origin == old(store.origin) && old(store.history) <= store.history
      invariant store.busyStarts == old(store.busyStarts)
      invariant base <= store.log && Drives(store.log[|base|..], o.batchSize) && store.calls >= old(store.calls)
      invariant store.log == old(store.log) + Rounds(rounds, o.batchSize)
      invariant Within(w, old(store.Now()), store.Now())
      decreases w.horizon + 1 - store.calls
    {
      ghost var calls := store.calls;
      var more;
      err, more := NextBatch(store, w, o, base);
      CausedLater(w, o, err, old(store.calls), calls, store.calls);
      if err.Some? || !more { return; }
      RoundsNext(rounds, o.batchSize);
      batchNum, rounds := batchNum + 1, rounds + 1;
    }
    err := None;
    NoError(w, o, old(store.calls), store.calls);
  }

  lemma NoError(w: World, o: Options, from: nat, calls: nat)
    ensures Caused(w, o, None, from, calls)
  {
  }

  /** One batch, unless the queue is empty. */
  method NextBatch(store: Store, w: World, o: Options, ghost base: seq<Event>) returns (err: Option<Err>, more: bool)
    requires store.Valid() && o.Normal() && base <= store.log && Drives(store.log[|base|..], o.batchSize)
    modifies store
    ensures store.Valid() && store.origin == old(store.origin) && old(store.history) <= store.history
    ensures store.busyStarts == old(store.busyStarts)
    ensures base <= store.log && Drives(store.log[|base|..], o.batchSize)
    ensures store.calls > old(store.calls) && Caused(w, o, err, old(store.calls), store.calls)
    ensures err.None? ==> store.log == old(store.log) + if more then Round(o.batchSize) else []
    ensures err.None? && !more ==> NothingToDo(store.queue)
    ensures err.None? ==> old(store.calls) < w.horizon
    ensures Within(w, old(store.Now()), store.Now())
  {
    hide StatsOf, Inv, GatedClaims, ApplyAll, Granted, Drives, Round;
    more := true;
    var reply := store.Call(w);
    if reply != Works { return Some(StoreError), more; }
    QueueEmptyMeans(store.queue, w.backlogs(store.calls - 1));
    if QueueEmpty(StatsOf(store.queue, w.backlogs(store.calls - 1))) { return None, false; }
    err := YieldToGames(store, w);
    if err.Some? { return; }
    ghost var calls := store.calls;
    err := OneBatch(store, w, o, base);
    CausedLater(w, o, err, old(store.calls), calls, store.calls);
  }

  /** A run that died in analyze finishes that phase first, with the budget cleared. */
  method Resume(store: Store, w: World, o: Options, ghost base: seq<Event>) returns (err: Option<Err>)
    requires store.Valid() && base <= store.log && Drives(store.log[|base|..], o.batchSize)
    modifies store
    ensures store.Valid() && store.origin == old(store.origin) && old(store.history) <= store.history
    ensures store.busyStarts == old(store.busyStarts)
    ensures base <= store.log && Drives(store.log[|base|..], o.batchSize)
    ensures err.None? ==> store.log == old(store.log) + [WroteLimit(Some(0)), WrotePhase(Analyze)]
    ensures err.None? ==> store.calls > 0 && IsDrained(w.backlogs(store.calls - 1), o.evalGatesEmbed)
    ensures store.calls >= old(store.calls) && Caused(w, o, err, old(store.calls), store.calls)
    ensures Within(w, old(store.Now()), store.Now())
  {
    hide Inv, GatedClaims, ApplyAll, Granted, AnalyzeDrained, StatsOf;
    var reply := store.Call(w);
    ghost var log0 := store.log;
    var ok := store.SetRunLimit(Some(0), reply);
    LogGrows(base, log0, store.log, o.batchSize);
    if !ok { return Some(StoreError); }
    err := RunAnalyzePhase(store, w, o, base);
  }

  /** How a finished run drove the pipeline from the phase it found: at most the swap, a
      resumed analysis when there was one, and whole batches. */
  ghost predicate DroveBatches(driving: seq<Event>, found: Phase, rounds: nat, size: int)
    requires size >= 0
  {
    exists swap, resume :: IsOpening(swap, resume, found) && driving == swap + resume + Rounds(rounds, size)
  }

  /** An analysis is resumed exactly when that phase was found. */
  ghost predicate IsOpening(swap: seq<Event>, resume: seq<Event>, found: Phase)
  {
    && (swap == [] || swap == [WroteLimit(Some(0))])
    && resume == if found == Analyze then [WroteLimit(Some(0)), WrotePhase(Analyze)] else []
  }

  lemma GrantedByBatches(driving: seq<Event>, found: Phase, rounds: nat, size: int)
    requires size >= 0 && DroveBatches(driving, found, rounds, size)
    ensures Granted(driving) == rounds * size
  {
    hide Granted, Rounds;
    var swap, resume :| IsOpening(swap, resume, found) && driving == swap + resume + Rounds(rounds, size);
    assert [] + [WroteLimit(Some(0))] == [WroteLimit(Some(0))];
    assert [WroteLimit(Some(0))] + [WrotePhase(Analyze)] == [WroteLimit(Some(0)), WrotePhase(Analyze)];
    GrantedInRounds(rounds, size);
    GrantedConcat(swap + resume, Rounds(rounds, size));
    GrantedConcat(swap, resume);
    GrantedSnoc([], WroteLimit(Some(0)));
    GrantedSnoc([WroteLimit(Some(0))], WrotePhase(Analyze));
  }

  /** Everything between taking the lock and the exit cleanup. The budget is captured
      exactly when both first calls work; what is claimed from then on is paid for by
      what the run grants. */
  method Drive(store: Store, w: World, o: Options) returns (err: Option<Err>, restoreLimit: Limit, ghost capture: Capture, ghost rounds: nat)
    requires store.Valid() && o.Normal()
    modifies store
    ensures store.Valid() && store.origin == old(store.origin) && old(store.history) <= store.history && restoreLimit == capture.Choice()
    ensures store.busyStarts == old(store.busyStarts)
    ensures old(store.log) <= store.log && Drives(store.log[|old(store.log)|..], o.batchSize)
    ensures capture.Swapped? <==> CallWorks(w, old(store.calls)) && CallWorks(w, old(store.calls) + 1)
    ensures capture.Swapped? ==> Spends(w, old(store.Now()), Point(capture.prev, capture.claims, old(store.Now()).granted))
    ensures capture.Swapped? && !w.lockLost ==> capture.phase == old(store.phase)
    ensures capture.Swapped? ==> Within(w, Point(Some(0), capture.claims, old(store.Now()).granted), store.Now())
    ensures store.calls >= old(store.calls) && Caused(w, o, err, old(store.calls), store.calls)
    ensures err.None? ==> DroveBatches(store.log[|old(store.log)|..], PhaseAfter(w, old(store.calls), old(store.phase)), rounds, o.batchSize)
    ensures err.None? ==> (o.maxBatches > 0 && rounds == o.maxBatches) || NothingToDo(store.queue)
  {
    hide TranscribeDone, AnalyzeDrained, StatsOf, RestoreChoice, Inv, GatedClaims, ApplyAll, Granted, Drives, Rounds;
    ghost var base := store.log;
    rounds := 0;
    var phase;
    err, phase, restoreLimit, capture := Open(store, w, o);
    if err.Some? { return; }
    ghost var swap, resume: seq<Event> := store.log[|base|..], [];
    if phase == Analyze {
      err := Resume(store, w, o, base);
      if err.Some? { return; }
      resume := [WroteLimit(Some(0)), WrotePhase(Analyze)];
    }
    assert store.log == base + swap + resume;
    err, rounds := Batches(store, w, o, base);
    if err.None? {
      assert IsOpening(swap, resume, phase);
      TailOf(base, swap, resume, Rounds(rounds, o.batchSize));
    }
  }

  lemma TailOf(base: seq<Event>, swap: seq<Event>, resume: seq<Event>, rounds: seq<Event>)
    ensures (base + swap + resume + rounds)[|base|..] == swap + resume + rounds
  {
  }

  /** Reads the phase and captures the budget. */
  method Open(store: Store, w: World, o: Options) returns (err: Option<Err>, phase: Phase, restoreLimit: Limit, ghost capture: Capture)
    requires store.Valid() && o.Normal()
    modifies store
    ensures store.Valid() && store.origin == old(store.origin) && old(store.history) <= store.history && restoreLimit == capture.Choice()
    ensures store.busyStarts == old(store.busyStarts)
    ensures old(store.log) <= store.log && Drives(store.log[|old(store.log)|..], o.batchSize)
    ensures capture.Swapped? <==> CallWorks(w, old(store.calls)) && CallWorks(w, old(store.calls) + 1)
    ensures capture.Swapped? ==> Spends(w, old(store.Now()), Point(capture.prev, capture.claims, old(store.Now()).granted))
    ensures capture.Swapped? && !w.lockLost ==> capture.phase == old(store.phase)
    ensures capture.Swapped? ==> !w.lockLost ==> store.Now() == Point(Some(0), capture.claims, old(store.Now()).granted)
    ensures capture.Swapped? ==> capture.claims <= store.Now().claims
    ensures store.calls >= old(store.calls) && Caused(w, o, err, old(store.calls), store.calls)
    ensures err.None? ==> store.log == old(store.log) || store.log == old(store.log) + [WroteLimit(Some(0))]
    ensures phase == PhaseAfter(w, old(store.calls), old(store.phase))
  {
    hide StatsOf, RestoreChoice, Inv, GatedClaims, ApplyAll, Granted, Drives;
    restoreLimit, capture := None, NotSwapped;
    NothingDriven(o.batchSize);
    assert store.log[|store.log|..] == [];
    ghost var base := store.log;
    var reply := store.Call(w);
    phase := store.phase;
    if reply != Works { return Some(StoreError), phase, restoreLimit, capture; }
    restoreLimit, capture := CaptureRestoreLimit(store, w, phase);
    SwapDrives(base, store.log, o.batchSize);
    err := None;
  }

  lemma NothingDriven(n: int)
    ensures Drives([], n)
  {
  }

  lemma SwapDrives(base: seq<Event>, log: seq<Event>, n: int)
    requires log == base || log == base + [WroteLimit(Some(0))]
    ensures base <= log && Drives(log[|base|..], n)
  {
  }

  /** How a run ended. */
  datatype Exit = Refused | Restored(limit: Limit) | RestoreIncomplete | LeftToSuccessor

  /** At some moment from there on the queue had no job pending or claimed. */
  ghost predicate WasEmptySince(origin: State, history: seq<Action>, from: nat)
  {
    exists n :: from <= n <= |history| && NothingToDo(ApplyAll(origin, history[..n]))
  }

  lemma WasEmptyAtEnd(origin: State, history: seq<Action>, more: seq<Action>, from: nat)
    requires from <= |history| && history <= more && NothingToDo(ApplyAll(origin, history))
    ensures WasEmptySince(origin, more, from)
  {
    assert more[..|history|] == history;
  }

  /** Run. For every placement of failures, cancellation, timeout and lock loss: a
      run that does not get the lock writes nothing; any other run writes, before it
      releases the lock, what it captured back over what it drove, unless another
      session holds the lock by then or a restore write failed, and in those cases it
      reports an error. When both writes work the budget is back, and the phase is idle
      exactly unless a successor wrote another between the two writes. No batch starts at a
      moment when the GPU is taken. */
  method Run(store: Store, w: World, o: Options)
    returns (err: Option<Err>, ghost exit: Exit, ghost capture: Capture, ghost driving: seq<Event>, ghost rounds: nat)
    requires store.Valid()
    modifies store
    ensures store.Valid() && store.origin == old(store.origin) && old(store.history) <= store.history
    ensures store.busyStarts == old(store.busyStarts)
    ensures err.None? ==> exit.Restored?
    ensures exit.Refused? <==>
      o.batchSize < 1 || o.maxBatches < 0 || o.phaseTimeout < 0 || (o.locked && w.lock != Taken)
    ensures exit.Refused? ==> err.Some? && store.log == old(store.log) && store.phase == old(store.phase) && store.history == old(store.history)
    ensures o.Normal() && o.locked && w.lock == HeldElsewhere ==> err == Some(AlreadyRunning)
    ensures !exit.Refused? ==> (exit.LeftToSuccessor? <==> o.locked && TakenOver(w))
    ensures !exit.Refused? && !exit.LeftToSuccessor? ==> (exit.Restored? <==> w.cleanup(0) == Works && w.cleanup(1) == Works)
    ensures exit.Restored? ==> store.calls > 0 && exit.limit == capture.Choice() && store.queue.runLimit == exit.limit
    ensures exit.Restored? ==> store.phase == PhaseAfter(w, store.calls - 1, IdlePhase)
    ensures !exit.Refused? ==> (capture.Swapped? <==> CallWorks(w, old(store.calls)) && CallWorks(w, old(store.calls) + 1))
    ensures capture.Swapped? ==> Spends(w, old(store.Now()), Point(capture.prev, capture.claims, old(store.Now()).granted))
    ensures capture.Swapped? && !w.lockLost ==> capture.phase == old(store.phase)
    ensures capture.Swapped? && !w.lockLost ==> capture.claims <= store.Now().claims <= capture.claims + Granted(driving)
    ensures !exit.Refused? ==> Drives(driving, o.batchSize)
    ensures !exit.Refused? ==>
      store.log == old(store.log) + driving + (if exit.LeftToSuccessor? then [] else RestoreWrites(w, capture.Choice())) + (if o.locked then [Released] else [])
    ensures err.Some? ==> exit.Refused? || HasReason(w, o, err.value, old(store.calls), store.calls)
    ensures err.None? ==> DroveBatches(driving, PhaseAfter(w, old(store.calls), old(store.phase)), rounds, o.batchSize)
    ensures err.None? ==> Granted(driving) == rounds * o.batchSize
    ensures err.None? ==> (o.maxBatches > 0 && rounds == o.maxBatches) || WasEmptySince(store.origin, store.history, |old(store.history)|)
    ensures !exit.Refused? && o.locked && w.heartbeatFails ==> err == Some(LockLost)
  {
    hide Inv, GatedClaims, ApplyAll, Granted, Drives, TakenOver, StatsOf, WasEmptySince, RestoreChoice, DroveBatches;
    capture, driving, rounds := NotSwapped, [], 0;
    if !o.Normal() { return Some(BadOptions), Refused, capture, driving, rounds; }
    if o.locked && w.lock == LockErrors { return Some(LockFailed), Refused, capture, driving, rounds; }
    if o.locked && w.lock == HeldElsewhere { return Some(AlreadyRunning), Refused, capture, driving, rounds; }
    ghost var log0 := store.log;
    var restoreLimit;
    err, restoreLimit, capture, rounds := Drive(store, w, o);
    driving := store.log[|log0|..];
    assert store.log == log0 + driving;
    GrantedConcat(log0, driving);
    ghost var drove := store.history;
    if err.None? { GrantedByBatches(driving, PhaseAfter(w, old(store.calls), old(store.phase)), rounds, o.batchSize); }
    ghost var c, err0 := store.calls, err;
    err, exit := CleanUp(store, w, o, err, restoreLimit);
    ReasonOf(w, o, err0, err, old(store.calls), c, store.calls);
    if err.None? && !(o.maxBatches > 0 && rounds == o.maxBatches) {
      WasEmptyAtEnd(store.origin, drove, store.history, |old(store.history)|);
    }
  }

  /** Why a run that was not refused reports an error: the heartbeat lost the lock, or a
      successor holds it; a restore write failed; Phase A stalled; or a call failed or
      was cancelled. */
  ghost predicate HasReason(w: World, o: Options, e: Err, from: nat, calls: nat)
  {
    || (e == LockLost && o.locked && (w.heartbeatFails || TakenOver(w)))
    || (e == RestoreFailed && !(w.cleanup(0) == Works && w.cleanup(1) == Works))
    || (e == PhaseTimeout && o.phaseTimeout > 0)
    || (e in {StoreError, Cancelled} && exists c :: from <= c < calls && !CallWorks(w, c))
  }

  ghost predicate CleanUpReason(w: World, o: Options, err0: Option<Err>, e: Err)
  {
    || err0 == Some(e)
    || (e == LockLost && o.locked && (w.heartbeatFails || TakenOver(w)))
    || (e == RestoreFailed && !(w.cleanup(0) == Works && w.cleanup(1) == Works))
  }

  lemma ReasonOf(w: World, o: Options, err0: Option<Err>, err: Option<Err>, from: nat, c: nat, calls: nat)
    requires Caused(w, o, err0, from, c) && c <= calls && (err.Some? ==> CleanUpReason(w, o, err0, err.value))
    ensures err.Some? ==> HasReason(w, o, err.value, from, calls)
  {
    hide TakenOver, CallWorks;
    assert err0.Some? && err0.value in {StoreError, Cancelled} ==> from <= c - 1 < calls && !CallWorks(w, c - 1);
  }

  /** The deferred cleanup, last registered first: restore, join the heartbeat, release. */
  method CleanUp(store: Store, w: World, o: Options, err0: Option<Err>, restoreLimit: Limit) returns (err: Option<Err>, ghost exit: Exit)
    requires store.Valid()
    modifies store
    ensures store.Valid() && store.origin == old(store.origin) && old(store.history) <= store.history
    ensures store.busyStarts == old(store.busyStarts)
    ensures err.None? ==> err0.None? && exit.Restored?
    ensures err.Some? ==> CleanUpReason(w, o, err0, err.value)
    ensures store.calls >= old(store.calls)
    ensures !exit.Refused? && (exit.LeftToSuccessor? <==> o.locked && TakenOver(w))
    ensures !exit.LeftToSuccessor? ==> (exit.Restored? <==> w.cleanup(0) == Works && w.cleanup(1) == Works)
    ensures exit.Restored? ==> store.calls > 0 && exit.limit == restoreLimit == store.queue.runLimit
    ensures exit.Restored? ==> store.phase == PhaseAfter(w, store.calls - 1, IdlePhase)
    ensures store.log == old(store.log) + (if exit.LeftToSuccessor? then [] else RestoreWrites(w, restoreLimit)) + (if o.locked then [Released] else [])
    ensures old(store.Now()).claims <= store.Now().claims
    ensures !w.lockLost && old(store.Now()).limit.Some? ==> store.Now().claims <= old(store.Now()).claims + old(store.Now()).limit.value
    ensures o.locked && w.heartbeatFails ==> err == Some(LockLost)
  {
    hide Inv, GatedClaims, ApplyAll, Granted, TakenOver;
    err := err0;
    var other := false;
    if o.locked {
      other := SuccessorTakeover(w);
    }
    if other {
      exit := LeftToSuccessor;
      if err.None? { err := Some(LockLost); }
    } else {
      var ok := RestoreIdle(store, w, restoreLimit);
      exit := if ok then Restored(restoreLimit) else RestoreIncomplete;
      if !ok && err.None? { err := Some(RestoreFailed); }
    }
    if o.locked {
      if w.heartbeatFails { err := Some(LockLost); }
      store.log := store.log + [Released];
    }
  }

  // ---- The operator's budget -----------------------------------------------

  /** A budget an operator set comes back exactly when the swap captured it, the run
      started from idle, and some of it was left at the swap; then it is the budget less
      the claims already made. */
  lemma BudgetComesBack(w: World, before: Point, phase: Phase, capture: Capture)
    requires !w.lockLost && before.limit.Some?
    requires capture.Swapped? ==> capture.phase == phase && Spends(w, before, Point(capture.prev, capture.claims, before.granted))
    ensures capture.Choice().Some? <==> capture.Swapped? && phase == IdlePhase && capture.claims - before.claims < before.limit.value
    ensures capture.Choice().Some? ==> capture.Choice().value + (capture.claims - before.claims) == before.limit.value
  {
  }

  /** The swap never refunds a claim: whatever is written while the budget is swapped
      out, claims before the swap, claims after the restore and what is left then add up
      to what the operator set, provided some was left to put back. */
  lemma SwapNeverRefunds(s: State, before: seq<Action>, during: seq<Action>, after: seq<Action>)
    requires s.runLimit.Some? && NoLimitWrites(before) && NoLimitWrites(after)
    ensures var s1 := ApplyAll(s, before);
            var s2 := ApplyAll(Apply(s1, SetRunLimit(Some(0))), during);
            var restored := RestoreChoice(IdlePhase, s1.runLimit);
            var s3 := Apply(s2, SetRunLimit(restored));
            && s1.runLimit.Some? && (restored.Some? <==> GatedClaims(s, before) < s.runLimit.value)
            && (restored.Some? ==>
                && ApplyAll(s3, after).runLimit.Some?
                && GatedClaims(s, before) + GatedClaims(s3, after) + ApplyAll(s3, after).runLimit.value == s.runLimit.value)
            && (StaysLimited(during) ==> GatedClaims(Apply(s1, SetRunLimit(Some(0))), during) <= LimitsWritten(during))
  {
    hide ApplyAll, GatedClaims, Inv, LimitsWritten;
    BudgetIsConserved(s, before);
    var s1 := ApplyAll(s, before);
    var parked := Apply(s1, SetRunLimit(Some(0)));
    var s3 := Apply(ApplyAll(parked, during), SetRunLimit(RestoreChoice(IdlePhase, s1.runLimit)));
    if s3.runLimit.Some? { BudgetIsConserved(s3, after); }
    if StaysLimited(during) { ClaimsWithinLimits(parked, during); }
  }

  /** Between a swap to zero and the next limit write nothing is claimed. */
  lemma NoClaimWhileParked(s: State, during: seq<Action>)
    requires NoLimitWrites(during)
    ensures GatedClaims(Apply(s, SetRunLimit(Some(0))), during) == 0
  {
    LimitAdmitsAtMost(s, 0, during);
  }

  // ---- Runs that fall short ------------------------------------------------

  function Quiet(c: nat): Interlude { Interlude([], None) }

  const ONE_BATCH := Options(1, 1, 0, false, true)

  function SomeWorld(call: nat -> Reply, others: nat -> Interlude, lockLost: bool): World
  {
    World(Taken, call, 1, others, c => (0, 0), c => false, c => c, c => Works, c => NotAnother, c => false, lockLost, false)
  }

  /** The window between the holder lookup and the restore writes: the lock is lost, a
      successor starts in it, the restore reports success, and the pipeline is not idle. */
  method SuccessorInTheWindow() returns (store: Store, ghost exit: Exit)
    ensures exit.Restored? && store.phase == Transcribe
  {
    store := new Store(IdlePhase, EMPTY);
    var w := SomeWorld(c => Works, c => Interlude([], Some(Transcribe)), true);
    ghost var capture, driving, rounds;
    var err;
    err, exit, capture, driving, rounds := Run(store, w, ONE_BATCH);
    assert !TakenOver(w);
  }

  /** An operator's budget that is lost: the phase cannot be read, nothing is captured,
      and the exit makes the queue unlimited. */
  method BudgetLost() returns (store: Store, ghost exit: Exit)
    ensures exit.Restored? && store.phase == IdlePhase && store.queue.runLimit.None?
    ensures store.origin.runLimit == Some(5)
  {
    store := new Store(IdlePhase, EMPTY.(runLimit := Some(5)));
    var w := SomeWorld(c => FailsBefore, Quiet, false);
    ghost var capture, driving, rounds;
    var err;
    err, exit, capture, driving, rounds := Run(store, w, ONE_BATCH);
    assert !TakenOver(w);
  }
}
