/** The transcription job queue: several runners claim, finish, release or fail
    jobs through guarded updates, while the service sweeps stale claims, requeues
    jobs and writes the run budget. Each action is one committed transaction; a
    commit whose reply is lost takes effect without its runner knowing. */
module JobQueue {
  import opened Optional

  type RunnerId = nat
  type JobId = nat

  datatype Status = Pending | Claimed | Done | Failed

  /** A job row. epoch counts its claims ever, claims and refunds those since its
      attempts were last reset; they are history, not columns. */
  datatype Row = Row(status: Status, claimedBy: Option<RunnerId>, attempts: int, epoch: nat, claims: nat, refunds: nat)

  /** The transcript of a job (job_id is unique): who wrote it, under which claim. */
  datatype Transcript = Transcript(author: RunnerId, epoch: nat)

  /** What a runner believes: it works one job at a time. */
  datatype Local = Idle | Busy(job: JobId, epoch: nat)

  datatype State = State(
    rows: map<JobId, Row>,
    transcripts: map<JobId, Transcript>,
    paused: bool,
    runLimit: Option<nat>,
    locals: map<RunnerId, Local>)

  const MAX_ATTEMPTS := 3

  datatype Action =
    | Enqueue(job: JobId)
    | Claim(runner: RunnerId, job: JobId, gated: bool, heard: bool)
    | MarkDone(runner: RunnerId, heard: bool)
    | Release(runner: RunnerId, heard: bool)
    | ReleaseTransient(runner: RunnerId, heard: bool)
    | MarkFailed(runner: RunnerId, heard: bool)
    | Abandon(runner: RunnerId)
    | Sweep(job: JobId)
    | Requeue(job: JobId)
    | SetRunLimit(limit: Option<nat>)
    | SetPaused(paused: bool)

  function LocalOf(s: State, r: RunnerId): Local { if r in s.locals then s.locals[r] else Idle }

  /** The guard of every job write: the row is still claimed by this runner. */
  predicate Holds(s: State, r: RunnerId, j: JobId)
  {
    j in s.rows && s.rows[j].status == Claimed && s.rows[j].claimedBy == Some(r)
  }

  predicate GateOpen(s: State)
  {
    !s.paused && (s.runLimit.Some? ==> s.runLimit.value > 0)
  }

  predicate Claimable(s: State, j: JobId, gated: bool)
  {
    j in s.rows && s.rows[j].status == Pending && s.rows[j].attempts < MAX_ATTEMPTS && (gated ==> GateOpen(s))
  }

  // ---- The updates, as the statements write them ---------------------------

  function ClaimRow(row: Row, r: RunnerId): Row
  {
    row.(status := Claimed, claimedBy := Some(r), attempts := row.attempts + 1, epoch := row.epoch + 1, claims := row.claims + 1)
  }

  function ReleaseRow(row: Row): Row
  {
    row.(status := Pending, claimedBy := None,
         attempts := if row.attempts - 1 > 0 then row.attempts - 1 else 0,
         refunds := row.refunds + 1)
  }

  function ReleaseTransientRow(row: Row): Row
  {
    if row.attempts >= MAX_ATTEMPTS then row.(status := Failed) else row.(status := Pending, claimedBy := None)
  }

  function SweepRow(row: Row): Row
  {
    if row.attempts < MAX_ATTEMPTS then row.(status := Pending, claimedBy := None) else row.(status := Failed)
  }

  function RequeueRow(row: Row): Row
  {
    row.(status := Pending, claimedBy := None, attempts := 0, claims := 0, refunds := 0)
  }

  function Heard(s: State, r: RunnerId, heard: bool): State
  {
    if heard then s.(locals := s.locals[r := Idle]) else s
  }

  /** A guarded write of the runner's own job row. */
  function Write(s: State, r: RunnerId, heard: bool, f: Row -> Row): State
  {
    match LocalOf(s, r)
    case Idle => s
    case Busy(j, _) => Heard(if Holds(s, r, j) then s.(rows := s.rows[j := f(s.rows[j])]) else s, r, heard)
  }

  function Apply(s: State, a: Action): State
  {
    match a
    case Enqueue(j) =>
      if j in s.rows then s else s.(rows := s.rows[j := Row(Pending, None, 0, 0, 0, 0)])
    case Claim(r, j, gated, heard) =>
      if LocalOf(s, r).Idle? && Claimable(s, j, gated) then
        var row := ClaimRow(s.rows[j], r);
        s.(rows := s.rows[j := row],
           runLimit := if gated && s.runLimit.Some? then Some(s.runLimit.value - 1) else s.runLimit,
           locals := if heard then s.locals[r := Busy(j, row.epoch)] else s.locals)
      else s
    case MarkDone(r, heard) =>
      (match LocalOf(s, r)
       case Idle => s
       case Busy(j, _) =>
         // INSERT ... ON CONFLICT DO NOTHING and the guarded UPDATE, rolled back
         // together when the guard matches no row.
         Heard(
           if Holds(s, r, j) then
             s.(rows := s.rows[j := s.rows[j].(status := Done)],
                transcripts := if j in s.transcripts then s.transcripts else s.transcripts[j := Transcript(r, s.rows[j].epoch)])
           else s, r, heard))
    case Release(r, heard) => Write(s, r, heard, ReleaseRow)
    case ReleaseTransient(r, heard) => Write(s, r, heard, ReleaseTransientRow)
    case MarkFailed(r, heard) => Write(s, r, heard, (row: Row) => row.(status := Failed))
    case Abandon(r) => s.(locals := s.locals[r := Idle])
    case Sweep(j) =>
      if j in s.rows && s.rows[j].status == Claimed then s.(rows := s.rows[j := SweepRow(s.rows[j])]) else s
    case Requeue(j) =>
      if j in s.rows then s.(rows := s.rows[j := RequeueRow(s.rows[j])], transcripts := s.transcripts - {j}) else s
    case SetRunLimit(l) => s.(runLimit := l)
    case SetPaused(p) => s.(paused := p)
  }

  function ApplyAll(s: State, actions: seq<Action>): State
  {
    if actions == [] then s else Apply(ApplyAll(s, actions[..|actions| - 1]), actions[|actions| - 1])
  }

  // ---- The invariant -------------------------------------------------------

  ghost predicate RowOk(s: State, j: JobId)
    requires j in s.rows
  {
    var row := s.rows[j];
    && row.attempts == row.claims - row.refunds && 0 <= row.attempts <= MAX_ATTEMPTS
    && (row.status == Pending ==> row.attempts < MAX_ATTEMPTS && row.claimedBy == None)
    && (row.status == Claimed ==> row.attempts >= 1 && row.claimedBy.Some?)
    && (row.status == Done <==> j in s.transcripts)
    && (row.status == Done ==> row.claimedBy == Some(s.transcripts[j].author) && s.transcripts[j].epoch == row.epoch)
  }

  /** A busy runner's claim is the row's latest one whenever the row still names it. */
  ghost predicate LocalOk(s: State, r: RunnerId)
    requires r in s.locals
  {
    var l := s.locals[r];
    l.Busy? ==> l.job in s.rows && l.epoch <= s.rows[l.job].epoch
                && (s.rows[l.job].claimedBy == Some(r) && s.rows[l.job].status in {Claimed, Done} ==> s.rows[l.job].epoch == l.epoch)
  }

  ghost predicate Inv(s: State)
  {
    && s.transcripts.Keys <= s.rows.Keys
    && (forall j :: j in s.rows ==> RowOk(s, j))
    && (forall r :: r in s.locals ==> LocalOk(s, r))
  }

  /** One row (and its transcript) changes: enough that the row is fine itself, and
      that it stays claimed under its latest claim or passes to an idle runner. */
  lemma RowChangeKeepsInv(s: State, j: JobId, row: Row, transcripts: map<JobId, Transcript>)
    requires Inv(s) && j in s.rows && s.rows[j].epoch <= row.epoch
    requires forall k :: k != j ==> (k in transcripts <==> k in s.transcripts) && (k in transcripts ==> transcripts[k] == s.transcripts[k])
    requires RowOk(s.(rows := s.rows[j := row], transcripts := transcripts), j)
    requires row.status in {Claimed, Done} ==>
      || (row.epoch == s.rows[j].epoch && row.claimedBy == s.rows[j].claimedBy && s.rows[j].status in {Claimed, Done})
      || (row.claimedBy.Some? && LocalOf(s, row.claimedBy.value).Idle?)
    ensures Inv(s.(rows := s.rows[j := row], transcripts := transcripts))
  {
    var s' := s.(rows := s.rows[j := row], transcripts := transcripts);
    forall k | k in s'.rows
      ensures RowOk(s', k)
    {
      if k != j { assert RowOk(s, k); }
    }
    forall r | r in s'.locals
      ensures LocalOk(s', r)
    {
      assert LocalOk(s, r);
    }
  }

  lemma HeardKeepsInv(s: State, r: RunnerId, heard: bool)
    requires Inv(s)
    ensures Inv(Heard(s, r, heard)) && Inv(Heard(s, r, true))
  {
    forall heard'
      ensures Inv(Heard(s, r, heard'))
    {
      var s' := Heard(s, r, heard');
      assert forall k :: k in s'.rows ==> RowOk(s, k);
      assert forall q :: q in s'.locals && q != r ==> LocalOk(s, q);
      assert forall q :: q in s.locals ==> LocalOk(s, q);
    }
  }

  lemma ClaimKeepsInv(s: State, r: RunnerId, j: JobId, gated: bool, heard: bool)
    requires Inv(s)
    ensures Inv(Apply(s, Claim(r, j, gated, heard)))
  {
    if LocalOf(s, r).Idle? && Claimable(s, j, gated) {
      var row := ClaimRow(s.rows[j], r);
      assert RowOk(s, j);
      RowChangeKeepsInv(s, j, row, s.transcripts);
      var claimed := s.(rows := s.rows[j := row]);
      var s' := Apply(s, Claim(r, j, gated, heard));
      assert forall k :: k in s'.rows ==> RowOk(claimed, k);
      assert forall q :: q in claimed.locals ==> LocalOk(claimed, q);
    }
  }

  lemma MarkDoneKeepsInv(s: State, r: RunnerId, heard: bool)
    requires Inv(s)
    ensures Inv(Apply(s, MarkDone(r, heard)))
  {
    hide Inv, LocalOk;
    var l := LocalOf(s, r);
    if l.Busy? {
      if Holds(s, r, l.job) {
        RowAt(s, l.job);
        var t := s.transcripts[l.job := Transcript(r, s.rows[l.job].epoch)];
        RowChangeKeepsInv(s, l.job, s.rows[l.job].(status := Done), t);
        HeardKeepsInv(s.(rows := s.rows[l.job := s.rows[l.job].(status := Done)], transcripts := t), r, heard);
      } else {
        HeardKeepsInv(s, r, heard);
      }
    }
  }

  lemma RowAt(s: State, j: JobId)
    requires Inv(s) && j in s.rows
    ensures RowOk(s, j)
  {
  }

  /** f gives up the claim, or fails the row, without resetting its history. */
  ghost predicate GivesUp(f: Row -> Row, row: Row)
  {
    var row' := f(row);
    && row'.status in {Pending, Failed} && row'.epoch == row.epoch
    && row'.attempts == row'.claims - row'.refunds && 0 <= row'.attempts <= row.attempts
    && (row'.status == Pending ==> row'.attempts < MAX_ATTEMPTS && row'.claimedBy == None)
  }

  lemma WriteKeepsInv(s: State, r: RunnerId, heard: bool, f: Row -> Row)
    requires Inv(s)
    requires forall row: Row :: row.status == Claimed && row.attempts == row.claims - row.refunds && 1 <= row.attempts <= MAX_ATTEMPTS ==> GivesUp(f, row)
    ensures Inv(Write(s, r, heard, f))
  {
    hide Inv, LocalOk;
    var l := LocalOf(s, r);
    if l.Busy? {
      if Holds(s, r, l.job) {
        RowAt(s, l.job);
        var row := s.rows[l.job];
        assert GivesUp(f, row);
        RowChangeKeepsInv(s, l.job, f(row), s.transcripts);
        HeardKeepsInv(s.(rows := s.rows[l.job := f(row)]), r, heard);
      } else {
        HeardKeepsInv(s, r, heard);
      }
    }
  }

  lemma ApplyKeepsInv(s: State, a: Action)
    requires Inv(s)
    ensures Inv(Apply(s, a))
  {
    hide Inv, LocalOk;
    match a
    case Claim(r, j, gated, heard) => ClaimKeepsInv(s, r, j, gated, heard);
    case MarkDone(r, heard) => MarkDoneKeepsInv(s, r, heard);
    case Release(r, heard) => WriteKeepsInv(s, r, heard, ReleaseRow);
    case ReleaseTransient(r, heard) => WriteKeepsInv(s, r, heard, ReleaseTransientRow);
    case MarkFailed(r, heard) => WriteKeepsInv(s, r, heard, (row: Row) => row.(status := Failed));
    case Abandon(r) => HeardKeepsInv(s, r, true);
    case Sweep(j) =>
      if j in s.rows && s.rows[j].status == Claimed {
        RowAt(s, j);
        RowChangeKeepsInv(s, j, SweepRow(s.rows[j]), s.transcripts);
      }
    case Requeue(j) =>
      if j in s.rows { RowChangeKeepsInv(s, j, RequeueRow(s.rows[j]), s.transcripts - {j}); }
    case Enqueue(j) => EnqueueKeepsInv(s, j);
    case SetRunLimit(l) => ControlKeepsInv(s, Apply(s, a));
    case SetPaused(p) => ControlKeepsInv(s, Apply(s, a));
  }

  lemma EnqueueKeepsInv(s: State, j: JobId)
    requires Inv(s)
    ensures Inv(Apply(s, Enqueue(j)))
  {
    hide Apply;
    var s' := if j in s.rows then s else s.(rows := s.rows[j := Row(Pending, None, 0, 0, 0, 0)]);
    EnqueueIs(s, j);
    assert forall k :: k in s.rows ==> RowOk(s, k);
    assert forall q :: q in s.locals ==> LocalOk(s, q);
  }

  lemma EnqueueIs(s: State, j: JobId)
    ensures Apply(s, Enqueue(j)) == if j in s.rows then s else s.(rows := s.rows[j := Row(Pending, None, 0, 0, 0, 0)])
  {
  }

  lemma ControlKeepsInv(s: State, s': State)
    requires Inv(s) && s'.rows == s.rows && s'.transcripts == s.transcripts && s'.locals == s.locals
    ensures Inv(s')
  {
    assert forall k :: k in s.rows ==> RowOk(s, k);
    assert forall q :: q in s.locals ==> LocalOk(s, q);
  }

  lemma {:induction false} ReachableKeepsInv(s: State, actions: seq<Action>)
    requires Inv(s)
    ensures Inv(ApplyAll(s, actions))
  {
    hide Inv, Apply;
    if actions != [] {
      ReachableKeepsInv(s, actions[..|actions| - 1]);
      ApplyKeepsInv(ApplyAll(s, actions[..|actions| - 1]), actions[|actions| - 1]);
    }
  }

  /** A database nothing has happened in: every run starts here. */
  const EMPTY := State(map[], map[], false, None, map[])

  lemma EveryRunKeepsInv(actions: seq<Action>)
    ensures Inv(ApplyAll(EMPTY, actions))
  {
    ReachableKeepsInv(EMPTY, actions);
  }

  // ---- Runs in parts -------------------------------------------------------

  lemma {:induction false} ApplyAllConcat(s: State, x: seq<Action>, y: seq<Action>)
    ensures ApplyAll(s, x + y) == ApplyAll(ApplyAll(s, x), y)
  {
    hide Apply;
    if y == [] {
      assert x + y == x;
    } else {
      assert (x + y)[..|x + y| - 1] == x + y[..|y| - 1];
      ApplyAllConcat(s, x, y[..|y| - 1]);
    }
  }

  // ---- Who finishes a job --------------------------------------------------

  /** A row turns done only by its current claim: the acting runner still holds the
      row, works on that very claim, and is recorded as the transcript's author. */
  lemma DoneByItsOwnClaim(s: State, a: Action, j: JobId)
    requires Inv(s) && j in s.rows && s.rows[j].status != Done
    requires Apply(s, a).rows[j].status == Done
    ensures a.MarkDone? && Holds(s, a.runner, j) && LocalOf(s, a.runner) == Busy(j, s.rows[j].epoch)
    ensures Apply(s, a).transcripts[j] == Transcript(a.runner, s.rows[j].epoch)
  {
    RowAt(s, j);
    if a.MarkDone? && a.runner in s.locals { assert LocalOk(s, a.runner); }
  }

  /** Nothing but a requeue touches a finished job or its transcript again. */
  lemma DoneIsFinal(s: State, a: Action, j: JobId)
    requires Inv(s) && j in s.rows && s.rows[j].status == Done && a != Requeue(j)
    ensures var s' := Apply(s, a);
            j in s'.rows && s'.rows[j] == s.rows[j] && j in s'.transcripts && s'.transcripts[j] == s.transcripts[j]
  {
    hide Inv, LocalOk;
    RowAt(s, j);
  }

  lemma {:induction false} DoneStaysDone(s: State, actions: seq<Action>, j: JobId)
    requires Inv(s) && j in s.rows && s.rows[j].status == Done && Requeue(j) !in actions
    ensures var s' := ApplyAll(s, actions);
            j in s'.rows && s'.rows[j] == s.rows[j] && j in s'.transcripts && s'.transcripts[j] == s.transcripts[j]
  {
    hide Apply, Inv;
    RowAt(s, j);
    if actions != [] {
      DoneStaysDone(s, actions[..|actions| - 1], j);
      ReachableKeepsInv(s, actions[..|actions| - 1]);
      DoneIsFinal(ApplyAll(s, actions[..|actions| - 1]), actions[|actions| - 1], j);
    }
  }

  ghost predicate TurnsDone(s: State, a: Action, j: JobId, epoch: nat)
  {
    && j in s.rows && s.rows[j].status != Done && s.rows[j].epoch == epoch
    && j in Apply(s, a).rows && Apply(s, a).rows[j].status == Done
  }

  /** How often a run turns job j done under its claim number epoch. */
  ghost function TimesDone(s: State, actions: seq<Action>, j: JobId, epoch: nat): nat
  {
    if actions == [] then 0
    else
      var init, last := actions[..|actions| - 1], actions[|actions| - 1];
      TimesDone(s, init, j, epoch) + (if TurnsDone(ApplyAll(s, init), last, j, epoch) then 1 else 0)
  }

  ghost predicate ClaimIsSpent(s: State, j: JobId, epoch: nat)
  {
    j in s.rows && epoch <= s.rows[j].epoch && (s.rows[j].epoch == epoch ==> s.rows[j].status != Claimed)
  }

  lemma SpentClaimStaysSpent(s: State, a: Action, j: JobId, epoch: nat)
    requires Inv(s)
    ensures TurnsDone(s, a, j, epoch) ==> !ClaimIsSpent(s, j, epoch) && ClaimIsSpent(Apply(s, a), j, epoch)
    ensures ClaimIsSpent(s, j, epoch) ==> ClaimIsSpent(Apply(s, a), j, epoch)
  {
    hide Inv, LocalOk, RowOk;
    if TurnsDone(s, a, j, epoch) { DoneByItsOwnClaim(s, a, j); }
  }

  /** One claim finishes a job at most once, over any run, requeues included. */
  lemma {:induction false} OneClaimFinishesOnce(s: State, actions: seq<Action>, j: JobId, epoch: nat)
    requires Inv(s)
    ensures TimesDone(s, actions, j, epoch) <= 1
    ensures TimesDone(s, actions, j, epoch) == 1 ==> ClaimIsSpent(ApplyAll(s, actions), j, epoch)
  {
    hide Apply, Inv, TurnsDone, ClaimIsSpent;
    if actions != [] {
      var init, last := actions[..|actions| - 1], actions[|actions| - 1];
      OneClaimFinishesOnce(s, init, j, epoch);
      ReachableKeepsInv(s, init);
      SpentClaimStaysSpent(ApplyAll(s, init), last, j, epoch);
    }
  }

  /** Over every run a finished job has exactly one transcript and an unfinished one
      none; a job is charged for its claims minus the refunded ones, never more than
      MAX_ATTEMPTS; a claimed row has an attempt to refund; and a pending row can
      still be claimed. */
  lemma QueuePromises(s: State, actions: seq<Action>, j: JobId)
    requires Inv(s) && j in ApplyAll(s, actions).rows
    ensures var s' := ApplyAll(s, actions);
            var row := s'.rows[j];
            && (row.status == Done <==> j in s'.transcripts)
            && row.attempts == row.claims - row.refunds && 0 <= row.attempts <= MAX_ATTEMPTS
            && (row.status == Claimed ==> row.attempts >= 1 && ReleaseRow(row).attempts == row.attempts - 1)
            && (row.status == Pending ==> Claimable(s', j, false))
  {
    ReachableKeepsInv(s, actions);
    RowAt(ApplyAll(s, actions), j);
  }

  // ---- How a job's status changes ------------------------------------------

  /** The attempts a row still has are used up by its third. */
  predicate UsedUp(row: Row) { row.attempts >= 3 }

  /** Every way in which one action changes the status of a job. It is claimed only from
      waiting, with an attempt left, by an idle runner; done or failed for good only by the
      runner that holds it; and put back with the attempt refunded only by that runner. A
      claim that ends otherwise, for a passing failure or because it went stale, fails the
      job exactly when that was its last attempt, and else leaves it waiting. A requeue
      resets it. */
  ghost predicate ChangesBy(a: Action, s: State, j: JobId, row: Row, row': Row)
  {
    var byHolder := a.MarkDone? || a.Release? || a.ReleaseTransient? || a.MarkFailed? ==> Holds(s, a.runner, j);
    match row'.status
    case Claimed =>
      && a.Claim? && a.job == j && LocalOf(s, a.runner).Idle? && row.status == Pending && !UsedUp(row)
      && row'.claimedBy == Some(a.runner) && row'.attempts == row.attempts + 1
    case Done => row.status == Claimed && byHolder && a.MarkDone? && row'.attempts == row.attempts
    case Failed =>
      && row.status == Claimed && byHolder && row'.attempts == row.attempts
      && (a.MarkFailed? || ((a.ReleaseTransient? || a == Sweep(j)) && UsedUp(row)))
    case Pending =>
      && row'.claimedBy == None
      && if a == Requeue(j) then row'.attempts == 0
         else
           && row.status == Claimed && byHolder
           && if a.Release? then row'.attempts == row.attempts - 1
              else (a.ReleaseTransient? || a == Sweep(j)) && !UsedUp(row) && row'.attempts == row.attempts
  }

  lemma StatusChanges(s: State, a: Action, j: JobId)
    requires Inv(s) && j in s.rows
    ensures j in Apply(s, a).rows
    ensures Apply(s, a).rows[j].status != s.rows[j].status ==> ChangesBy(a, s, j, s.rows[j], Apply(s, a).rows[j])
  {
    hide Inv, LocalOk;
    RowAt(s, j);
  }

  /** The holder's job, or idle: one run of actions from here that ends with r having
      finished the job. */
  function Rescue(s: State, r: RunnerId, j: JobId): seq<Action>
    requires j in s.rows
  {
    match s.rows[j].status
    case Pending => [Claim(r, j, false, true), MarkDone(r, true)]
    case Claimed => [Sweep(j), Requeue(j), Claim(r, j, false, true), MarkDone(r, true)]
    case Failed => [Requeue(j), Claim(r, j, false, true), MarkDone(r, true)]
    case Done => []
  }

  lemma {:induction false} ApplyAllSteps(s: State, a: Action, rest: seq<Action>)
    ensures ApplyAll(s, [a] + rest) == ApplyAll(Apply(s, a), rest)
  {
    assert [a][..0] == [] && ApplyAll(s, [a]) == Apply(s, a);
    ApplyAllConcat(s, [a], rest);
  }

  lemma ClaimThenDone(s: State, r: RunnerId, j: JobId)
    requires Inv(s) && j in s.rows && s.rows[j].status == Pending && LocalOf(s, r).Idle?
    ensures var s' := ApplyAll(s, [Claim(r, j, false, true), MarkDone(r, true)]);
            j in s'.rows && s'.rows[j].status == Done && j in s'.transcripts && s'.transcripts[j].author == r
  {
    hide Inv, LocalOk;
    RowAt(s, j);
    var claimed := Apply(s, Claim(r, j, false, true));
    assert Holds(claimed, r, j) && LocalOf(claimed, r) == Busy(j, claimed.rows[j].epoch);
    assert [Claim(r, j, false, true), MarkDone(r, true)] == [Claim(r, j, false, true)] + [MarkDone(r, true)];
    ApplyAllSteps(s, Claim(r, j, false, true), [MarkDone(r, true)]);
    ApplyAllSteps(claimed, MarkDone(r, true), []);
    assert [MarkDone(r, true)] + [] == [MarkDone(r, true)];
  }

  lemma RequeueWaits(s: State, r: RunnerId, j: JobId)
    requires Inv(s) && j in s.rows && LocalOf(s, r).Idle?
    ensures var s' := Apply(s, Requeue(j)); Inv(s') && j in s'.rows && s'.rows[j].status == Pending && LocalOf(s', r).Idle?
  {
    ApplyKeepsInv(s, Requeue(j));
  }

  /** No job is ever stuck: from every reachable state, whatever it is in, an idle runner
      can still finish it. */
  lemma JobCanFinish(s: State, r: RunnerId, j: JobId)
    requires Inv(s) && j in s.rows && LocalOf(s, r).Idle?
    ensures var s' := ApplyAll(s, Rescue(s, r, j));
            j in s'.rows && s'.rows[j].status == Done && j in s'.transcripts
    ensures s.rows[j].status != Done ==> ApplyAll(s, Rescue(s, r, j)).transcripts[j].author == r
  {
    hide Inv, Apply, ApplyAll, LocalOk;
    var finish := [Claim(r, j, false, true), MarkDone(r, true)];
    match s.rows[j].status
    case Done =>
      RowAt(s, j);
      NoActions(s);
    case Pending =>
      ClaimThenDone(s, r, j);
    case Failed =>
      RequeueWaits(s, r, j);
      ApplyAllSteps(s, Requeue(j), finish);
      assert Rescue(s, r, j) == [Requeue(j)] + finish;
      ClaimThenDone(Apply(s, Requeue(j)), r, j);
    case Claimed =>
      var swept := Apply(s, Sweep(j));
      SweepKeepsRunners(s, r, j);
      ApplyKeepsInv(s, Sweep(j));
      RequeueWaits(swept, r, j);
      ApplyAllSteps(s, Sweep(j), [Requeue(j)] + finish);
      ApplyAllSteps(swept, Requeue(j), finish);
      assert Rescue(s, r, j) == [Sweep(j)] + ([Requeue(j)] + finish);
      ClaimThenDone(Apply(swept, Requeue(j)), r, j);
  }

  lemma SweepKeepsRunners(s: State, r: RunnerId, j: JobId)
    ensures LocalOf(Apply(s, Sweep(j)), r) == LocalOf(s, r)
    ensures j in s.rows ==> j in Apply(s, Sweep(j)).rows && Apply(s, Sweep(j)).rows[j].status != Claimed
  {
  }

  lemma NoActions(s: State)
    ensures ApplyAll(s, []) == s
  {
  }

  // ---- The run budget ------------------------------------------------------

  ghost predicate ClaimsGated(s: State, a: Action)
  {
    a.Claim? && a.gated && LocalOf(s, a.runner).Idle? && Claimable(s, a.job, true)
  }

  ghost function GatedClaims(s: State, actions: seq<Action>): nat
  {
    if actions == [] then 0
    else
      var init := actions[..|actions| - 1];
      GatedClaims(s, init) + (if ClaimsGated(ApplyAll(s, init), actions[|actions| - 1]) then 1 else 0)
  }

  /** When a gated claim goes through: the queue runs, the limit is not spent, the job
      waits with an attempt left, and the runner is idle. */
  lemma GatedClaimMeans(s: State, r: RunnerId, j: JobId, heard: bool)
    requires Inv(s)
    ensures ClaimsGated(s, Claim(r, j, true, heard)) <==>
            && !s.paused && s.runLimit != Some(0)
            && j in s.rows && s.rows[j].status == Pending && LocalOf(s, r).Idle?
    ensures ClaimsGated(s, Claim(r, j, true, heard)) <==>
            j in s.rows && s.rows[j].status == Pending && Apply(s, Claim(r, j, true, heard)).rows[j].status == Claimed
  {
    if j in s.rows { RowAt(s, j); }
  }

  /** A paused queue admits no gated claim until it is resumed, whatever else happens. */
  lemma {:induction false} PausedAdmitsNone(s: State, actions: seq<Action>)
    requires s.paused && SetPaused(false) !in actions
    ensures GatedClaims(s, actions) == 0 && ApplyAll(s, actions).paused
  {
    hide Apply, ClaimsGated;
    if actions != [] {
      var init, last := actions[..|actions| - 1], actions[|actions| - 1];
      assert forall a :: a in init ==> a in actions;
      PausedAdmitsNone(s, init);
      StaysPaused(ApplyAll(s, init), last);
    }
  }

  lemma StaysPaused(s: State, a: Action)
    requires s.paused && a != SetPaused(false)
    ensures !ClaimsGated(s, a) && Apply(s, a).paused
  {
  }

  ghost predicate NoLimitWrites(actions: seq<Action>) { forall k :: 0 <= k < |actions| ==> !actions[k].SetRunLimit? }

  lemma {:induction false} GatedClaimsConcat(s: State, x: seq<Action>, y: seq<Action>)
    ensures GatedClaims(s, x + y) == GatedClaims(s, x) + GatedClaims(ApplyAll(s, x), y)
  {
    hide Apply, ClaimsGated;
    if y == [] {
      assert x + y == x;
    } else {
      var init := y[..|y| - 1];
      assert (x + y)[..|x + y| - 1] == x + init;
      GatedClaimsConcat(s, x, init);
      ApplyAllConcat(s, x, init);
    }
  }

  lemma BudgetStep(s: State, a: Action)
    ensures !a.SetRunLimit? && s.runLimit.Some? ==>
            Apply(s, a).runLimit.Some? && Apply(s, a).runLimit.value + (if ClaimsGated(s, a) then 1 else 0) == s.runLimit.value
    ensures !a.SetRunLimit? && s.runLimit.None? ==> Apply(s, a).runLimit.None?
    ensures a.SetRunLimit? ==> Apply(s, a).runLimit == a.limit && !ClaimsGated(s, a)
  {
  }

  /** Between two writes of the limit, gated claims and what is left of it always
      add up to what was written. */
  lemma {:induction false} BudgetIsConserved(s: State, actions: seq<Action>)
    requires s.runLimit.Some? && NoLimitWrites(actions)
    ensures var left := ApplyAll(s, actions).runLimit;
            left.Some? && GatedClaims(s, actions) + left.value == s.runLimit.value
  {
    hide Apply, ClaimsGated;
    if actions != [] {
      var init := actions[..|actions| - 1];
      BudgetIsConserved(s, init);
      BudgetStep(ApplyAll(s, init), actions[|actions| - 1]);
    }
  }

  lemma {:induction false} UnlimitedStays(s: State, actions: seq<Action>)
    requires s.runLimit.None? && NoLimitWrites(actions)
    ensures ApplyAll(s, actions).runLimit.None?
  {
    hide Apply, ClaimsGated;
    if actions != [] {
      UnlimitedStays(s, actions[..|actions| - 1]);
      BudgetStep(ApplyAll(s, actions[..|actions| - 1]), actions[|actions| - 1]);
    }
  }

  /** A limit of n admits at most n gated claims; a spent one admits none. */
  lemma LimitAdmitsAtMost(s: State, n: nat, actions: seq<Action>)
    requires NoLimitWrites(actions)
    ensures GatedClaims(Apply(s, SetRunLimit(Some(n))), actions) <= n
  {
    BudgetIsConserved(Apply(s, SetRunLimit(Some(n))), actions);
  }

  /** No write makes the queue unlimited. */
  ghost predicate StaysLimited(actions: seq<Action>)
  {
    forall k :: 0 <= k < |actions| && actions[k].SetRunLimit? ==> actions[k].limit.Some?
  }

  /** The sum of the limits a run writes. */
  function LimitsWritten(actions: seq<Action>): nat
  {
    if actions == [] then 0
    else
      var last := actions[|actions| - 1];
      LimitsWritten(actions[..|actions| - 1]) + (if last.SetRunLimit? && last.limit.Some? then last.limit.value else 0)
  }

  /** However often the limit is rewritten, gated claims and what is left never exceed
      what was there plus all that was written. */
  lemma {:induction false} ClaimsWithinLimits(s: State, actions: seq<Action>)
    requires s.runLimit.Some? && StaysLimited(actions)
    ensures var left := ApplyAll(s, actions).runLimit;
            left.Some? && GatedClaims(s, actions) + left.value <= s.runLimit.value + LimitsWritten(actions)
  {
    hide Apply, ClaimsGated;
    if actions != [] {
      var init, last := actions[..|actions| - 1], actions[|actions| - 1];
      assert forall k :: 0 <= k < |init| ==> init[k] == actions[k];
      ClaimsWithinLimits(s, init);
      BudgetStep(ApplyAll(s, init), last);
    }
  }
}
