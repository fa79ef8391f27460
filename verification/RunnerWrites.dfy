/** How one runner writes the end of its job: marking it done over connections that
    break, and the release and failure writes of the error paths. Between any two
    of its database calls the other runners and the service act as they please. */
module RunnerWrites {
  import opened Optional
  import opened JobQueue

  const RETRY_DB_ATTEMPTS := 3

  /** One database call: the reply arrives, the connection is lost before or after
      the server took the commit, or the statement itself is refused. */
  datatype Reply = Arrives | LostBefore | LostAfter | Refused

  /** Everything outside the runner's control, call by call. */
  datatype World = World(net: nat -> Reply, others: nat -> seq<Action>, stops: nat -> bool)

  predicate IsOwn(r: RunnerId, a: Action)
  {
    match a
    case Claim(q, _, _, _) => q == r
    case MarkDone(q, _) => q == r
    case Release(q, _) => q == r
    case ReleaseTransient(q, _) => q == r
    case MarkFailed(q, _) => q == r
    case Abandon(q) => q == r
    case _ => false
  }

  ghost predicate OthersOnly(w: World, r: RunnerId)
  {
    forall k: nat, i :: 0 <= i < |w.others(k)| ==> !IsOwn(r, w.others(k)[i])
  }

  lemma OtherLeavesBelief(s: State, r: RunnerId, a: Action)
    requires !IsOwn(r, a)
    ensures LocalOf(Apply(s, a), r) == LocalOf(s, r)
  {
    hide ClaimRow, ReleaseRow, ReleaseTransientRow, SweepRow, RequeueRow, Claimable;
  }

  /** What others do leaves the runner's own belief alone, and never gives it a row
      it does not hold. */
  lemma OtherLeavesRunner(s: State, r: RunnerId, j: JobId, a: Action)
    requires !IsOwn(r, a)
    ensures LocalOf(Apply(s, a), r) == LocalOf(s, r)
    ensures Holds(Apply(s, a), r, j) ==> Holds(s, r, j) && s.rows[j].epoch == Apply(s, a).rows[j].epoch
  {
    hide Claimable;
    OtherLeavesBelief(s, r, a);
  }

  lemma {:induction false} OthersLeaveRunner(s: State, r: RunnerId, j: JobId, actions: seq<Action>)
    requires forall i :: 0 <= i < |actions| ==> !IsOwn(r, actions[i])
    ensures LocalOf(ApplyAll(s, actions), r) == LocalOf(s, r)
    ensures Holds(ApplyAll(s, actions), r, j) ==> Holds(s, r, j)
  {
    hide Apply, Holds;
    if actions != [] {
      OthersLeaveRunner(s, r, j, actions[..|actions| - 1]);
      OtherLeavesRunner(ApplyAll(s, actions[..|actions| - 1]), r, j, actions[|actions| - 1]);
    }
  }

  /** The database, with the history of transactions that led to its state. */
  class Db {
    var s: State
    ghost var origin: State
    ghost var history: seq<Action>
    var calls: nat

    ghost predicate Valid()
      reads this
    {
      Inv(origin) && s == ApplyAll(origin, history) && Inv(s)
    }

    method Perform(a: Action)
      requires Valid()
      modifies this`s, this`history
      ensures Valid() && s == Apply(old(s), a) && history == old(history) + [a]
    {
      ApplyKeepsInv(s, a);
      s := Apply(s, a);
      history := history + [a];
      assert history[..|history| - 1] == old(history);
    }

    /** One database call goes out; meanwhile the others act. */
    method Call(w: World, r: RunnerId, ghost j: JobId) returns (reply: Reply)
      requires Valid() && OthersOnly(w, r)
      modifies this
      ensures Valid() && origin == old(origin) && old(history) <= history
      ensures LocalOf(s, r) == old(LocalOf(s, r))
      ensures Holds(s, r, j) ==> old(Holds(s, r, j))
      ensures forall i :: |old(history)| <= i < |history| ==> !IsOwn(r, history[i])
      ensures calls == old(calls) + 1 && reply == w.net(old(calls))
    {
      hide Inv, Apply, Holds, LocalOf, IsOwn;
      var actions := w.others(calls);
      OthersLeaveRunner(s, r, j, actions);
      for i := 0 to |actions|
        invariant Valid() && origin == old(origin) && calls == old(calls)
        invariant history == old(history) + actions[..i] && s == ApplyAll(old(s), actions[..i])
      {
        assert actions[..i + 1][..i] == actions[..i];
        Perform(actions[i]);
      }
      assert actions[..|actions|] == actions;
      reply := w.net(calls);
      calls := calls + 1;
    }
  }

  /** How many of the calls from one to another were not answered. */
  function LostCalls(w: World, from: nat, to: nat): nat
  {
    if to <= from then 0 else LostCalls(w, from, to - 1) + if w.net(to - 1) == Arrives then 0 else 1
  }

  lemma {:induction false} LostCallsGrow(w: World, from: nat, mid: nat, to: nat)
    requires from <= mid <= to
    ensures LostCalls(w, from, mid) <= LostCalls(w, from, to)
    ensures mid < to && w.net(to - 1) != Arrives ==> LostCalls(w, from, mid) < LostCalls(w, from, to)
  {
    if mid < to { LostCallsGrow(w, from, mid, to - 1); }
  }

  /** What the runner itself did from a point of the history on, in order. */
  ghost function Own(history: seq<Action>, from: nat, r: RunnerId): seq<Action>
  {
    if |history| <= from then []
    else
      var last := history[|history| - 1];
      Own(history[..|history| - 1], from, r) + if IsOwn(r, last) then [last] else []
  }

  lemma {:induction false} OwnSplit(history: seq<Action>, from: nat, mid: nat, r: RunnerId)
    requires from <= mid <= |history|
    ensures Own(history, from, r) == Own(history[..mid], from, r) + Own(history, mid, r)
  {
    hide IsOwn;
    if mid == |history| {
      assert history[..mid] == history;
    } else {
      assert history[..|history| - 1][..mid] == history[..mid];
      OwnSplit(history[..|history| - 1], from, mid, r);
    }
  }

  /** Going on from a history: the others' steps add nothing, one own step itself. */
  lemma OwnOn(history: seq<Action>, more: seq<Action>, from: nat, r: RunnerId)
    requires from <= |history| && history <= more
    ensures Own(more, from, r) == Own(history, from, r) + Own(more, |history|, r)
  {
    OwnSplit(more, from, |history|, r);
    assert more[..|history|] == history;
  }

  lemma {:induction false} OthersAreNotOwn(more: seq<Action>, from: nat, r: RunnerId)
    requires forall i :: from <= i < |more| ==> !IsOwn(r, more[i])
    ensures Own(more, from, r) == []
  {
    hide IsOwn;
    if |more| > from { OthersAreNotOwn(more[..|more| - 1], from, r); }
  }

  lemma OneOwn(history: seq<Action>, a: Action, r: RunnerId)
    requires IsOwn(r, a)
    ensures Own(history + [a], |history|, r) == [a] && Own(history, |history|, r) == []
  {
    hide IsOwn;
    assert (history + [a])[..|history|] == history;
  }

  ghost predicate ChangesRows(s: State, a: Action) { Apply(s, a).rows != s.rows }

  /** How many of the runner's own steps changed a row. */
  ghost function Effects(origin: State, history: seq<Action>, from: nat, r: RunnerId): nat
  {
    if |history| <= from then 0
    else
      var init, last := history[..|history| - 1], history[|history| - 1];
      Effects(origin, init, from, r) + if IsOwn(r, last) && ChangesRows(ApplyAll(origin, init), last) then 1 else 0
  }

  lemma {:induction false} OthersHaveNoEffect(origin: State, history: seq<Action>, more: seq<Action>, from: nat, r: RunnerId)
    requires from <= |history| && history <= more && forall i :: |history| <= i < |more| ==> !IsOwn(r, more[i])
    ensures Effects(origin, more, from, r) == Effects(origin, history, from, r)
  {
    hide IsOwn, ChangesRows, ApplyAll;
    if |more| > |history| {
      OthersHaveNoEffect(origin, history, more[..|more| - 1], from, r);
    } else {
      assert more == history;
    }
  }

  lemma OneEffect(origin: State, history: seq<Action>, from: nat, a: Action, r: RunnerId)
    requires from <= |history| && IsOwn(r, a)
    ensures Effects(origin, history + [a], from, r) == Effects(origin, history, from, r) + if ChangesRows(ApplyAll(origin, history), a) then 1 else 0
  {
    hide IsOwn, ChangesRows, ApplyAll;
    assert (history + [a])[..|history|] == history;
  }

  /** The runner changes its row at most once, and then holds it no more. */
  ghost predicate Once(effects: nat, held0: bool, held: bool)
  {
    effects <= (if held0 then 1 else 0) && (effects == 1 ==> !held) && (held ==> held0)
  }

  ghost predicate OnceSince(db: Db, history: seq<Action>, r: RunnerId, j: JobId, held0: bool)
    reads db
  {
    Once(Effects(db.origin, db.history, |history|, r), held0, Holds(db.s, r, j))
  }

  datatype Outcome = Returned | ClaimLost | Permanent | Transient | Stopped

  /** What one try of the transaction leaves behind: nothing, or one mark whose reply was
      lost; and a normal return the mark, or the finding that an earlier one landed. */
  ghost predicate TryTrace(own: seq<Action>, r: RunnerId, o: Outcome)
  {
    match o
    case Returned => own == [MarkDone(r, true)] || own == [Abandon(r)]
    case Transient => own == [] || own == [MarkDone(r, false)]
    case _ => own == []
  }

  /** One attempt of the transaction: insert the transcript, mark the row done if it
      is still this runner's, otherwise find out whether it is done already. */
  method MarkDoneOnce(db: Db, w: World, r: RunnerId, j: JobId) returns (o: Outcome)
    requires db.Valid() && OthersOnly(w, r) && LocalOf(db.s, r).Busy? && LocalOf(db.s, r).job == j
    modifies db
    ensures db.Valid() && db.origin == old(db.origin) && old(db.history) <= db.history
    ensures o in {Returned, ClaimLost, Permanent, Transient}
    ensures o == Returned ==> j in db.s.rows && db.s.rows[j].status == Done && LocalOf(db.s, r) == Idle
    ensures o != Returned ==> LocalOf(db.s, r) == old(LocalOf(db.s, r))
    ensures o == ClaimLost ==> !Holds(db.s, r, j) && (j in db.s.rows ==> db.s.rows[j].status != Done)
    ensures OnceSince(db, old(db.history), r, j, old(Holds(db.s, r, j)))
    ensures old(db.calls) < db.calls <= old(db.calls) + 2 && TryTrace(Own(db.history, |old(db.history)|, r), r, o)
    ensures o == Transient ==> w.net(db.calls - 1) in {LostBefore, LostAfter}
    ensures o == Permanent ==> w.net(db.calls - 1) == Refused
  {
    hide Inv, Apply, Own, IsOwn, Holds, LocalOf, Effects, ApplyAll, ChangesRows;
    ghost var n, start := |db.history|, db.history;
    NothingDone(db.origin, start, r);
    var reply := db.Call(w, r, j);
    OthersAreNotOwn(db.history, n, r);
    OthersHaveNoEffect(db.origin, start, db.history, n, r);
    if reply == Refused { return Permanent; }
    if reply == LostBefore { return Transient; }
    if Holds(db.s, r, j) {
      MarkDoneIs(db.s, r, j, reply == Arrives);
      OwnStep(db.history, n, MarkDone(r, reply == Arrives), r);
      MarkIsOwn(r, reply == Arrives);
      OneEffect(db.origin, db.history, n, MarkDone(r, reply == Arrives), r);
      db.Perform(MarkDone(r, reply == Arrives));
      return if reply == Arrives then Returned else Transient;
    }
    // Rolled back. An earlier commit of this very write may have landed.
    var reply2 := db.Call(w, r, j);
    OthersAreNotOwn(db.history, n, r);
    OthersHaveNoEffect(db.origin, start, db.history, n, r);
    if reply2 == Refused { return Permanent; }
    if reply2 != Arrives { return Transient; }
    if j in db.s.rows && db.s.rows[j].status == Done {
      GiveUpQuietly(db, r, j, start);
      return Returned;
    }
    NotHeldNow(db.s, r, j);
    return ClaimLost;
  }

  lemma NotHeldNow(s: State, r: RunnerId, j: JobId)
    ensures Holds(s, r, j) ==> j in s.rows && s.rows[j].status == Claimed
  {
  }

  lemma OwnStep(history: seq<Action>, from: nat, a: Action, r: RunnerId)
    requires from <= |history| && a in {MarkDone(r, true), MarkDone(r, false), Abandon(r)}
    ensures Own(history + [a], from, r) == Own(history, from, r) + [a]
  {
    OneOwn(history, a, r);
    OwnOn(history, history + [a], from, r);
  }

  lemma MarkDoneIs(s: State, r: RunnerId, j: JobId, heard: bool)
    requires Holds(s, r, j) && LocalOf(s, r).Busy? && LocalOf(s, r).job == j
    ensures var s' := Apply(s, MarkDone(r, heard));
            j in s'.rows && s'.rows[j].status == Done && !Holds(s', r, j) && LocalOf(s', r) == if heard then Idle else LocalOf(s, r)
  {
  }

  lemma AbandonIs(s: State, r: RunnerId)
    ensures var s' := Apply(s, Abandon(r));
            s'.rows == s.rows && LocalOf(s', r) == Idle
  {
  }

  lemma MarkIsOwn(r: RunnerId, heard: bool)
    ensures IsOwn(r, MarkDone(r, heard)) && IsOwn(r, Abandon(r))
  {
  }

  /** The runner stops believing in its job; no row changes. */
  method GiveUpQuietly(db: Db, r: RunnerId, ghost j: JobId, ghost start: seq<Action>)
    requires db.Valid() && start <= db.history
    modifies db`s, db`history
    ensures db.Valid() && db.history == old(db.history) + [Abandon(r)] && db.s.rows == old(db.s.rows) && LocalOf(db.s, r) == Idle
    ensures Own(db.history, |start|, r) == Own(old(db.history), |start|, r) + [Abandon(r)]
    ensures Effects(db.origin, db.history, |start|, r) == Effects(db.origin, old(db.history), |start|, r)
    ensures Holds(db.s, r, j) == old(Holds(db.s, r, j))
  {
    hide Inv, Apply, Own, Effects, ApplyAll;
    AbandonIs(db.s, r);
    MarkIsOwn(r, true);
    OwnStep(db.history, |start|, Abandon(r), r);
    OneEffect(db.origin, db.history, |start|, Abandon(r), r);
    db.Perform(Abandon(r));
  }

  /** One try: reconnect when the connection is closed, look whether an earlier commit
      landed when this is a retry, then the transaction. */
  method TryMarkDone(db: Db, w: World, r: RunnerId, j: JobId, closed: bool, retry: bool) returns (o: Outcome)
    requires db.Valid() && OthersOnly(w, r) && LocalOf(db.s, r).Busy? && LocalOf(db.s, r).job == j
    modifies db
    ensures db.Valid() && db.origin == old(db.origin) && old(db.history) <= db.history
    ensures o in {Returned, ClaimLost, Permanent, Transient}
    ensures old(db.calls) < db.calls <= old(db.calls) + 2 + (if closed then 1 else 0) + (if retry then 1 else 0)
    ensures OnceSince(db, old(db.history), r, j, old(Holds(db.s, r, j)))
    ensures TryTrace(Own(db.history, |old(db.history)|, r), r, o)
    ensures o == Returned ==> j in db.s.rows && db.s.rows[j].status == Done && LocalOf(db.s, r) == Idle
    ensures o != Returned ==> LocalOf(db.s, r) == old(LocalOf(db.s, r))
    ensures o == ClaimLost ==> !Holds(db.s, r, j) && (j in db.s.rows ==> db.s.rows[j].status != Done)
    ensures o == Transient ==> w.net(db.calls - 1) != Arrives
    ensures o == Permanent ==> w.net(db.calls - 1) == Refused
  {
    hide Inv, Apply, Holds, LocalOf, IsOwn, Own, Effects, ApplyAll;
    ghost var n, start := |db.history|, db.history;
    NothingDone(db.origin, start, r);
    if closed {
      var connect := db.Call(w, r, j);
      OthersAreNotOwn(db.history, n, r);
      OthersHaveNoEffect(db.origin, start, db.history, n, r);
      if connect != Arrives { return Transient; }
    }
    if retry {
      var reply := db.Call(w, r, j);
      OthersAreNotOwn(db.history, n, r);
      OthersHaveNoEffect(db.origin, start, db.history, n, r);
      if reply == Refused { return Permanent; }
      if reply != Arrives { return Transient; }
      if j in db.s.rows && db.s.rows[j].status == Done {
        GiveUpQuietly(db, r, j, start);
        return Returned;
      }
    }
    ghost var before := db.history;
    NothingOwnYet(before, n, r);
    o := MarkDoneOnce(db, w, r, j);
    OwnOn(before, db.history, n, r);
    EffectsOn(db.origin, before, db.history, n, r);
  }

  lemma NothingOwnYet(history: seq<Action>, n: nat, r: RunnerId)
    ensures |history| == n ==> Own(history, n, r) == []
  {
  }

  /** What the tries leave behind: marks whose reply was lost, at most n, and on a normal
      return one last step that ends the job. */
  ghost predicate MarkTrace(own: seq<Action>, r: RunnerId, o: Outcome, n: nat)
  {
    && |own| <= n
    && (forall i :: 0 <= i < |own| - 1 ==> own[i] == MarkDone(r, false))
    && (o == Returned ==> own != [] && own[|own| - 1] in {MarkDone(r, true), Abandon(r)})
    && (o != Returned ==> forall i :: 0 <= i < |own| ==> own[i] == MarkDone(r, false))
  }

  lemma OneTryMore(own: seq<Action>, more: seq<Action>, r: RunnerId, o: Outcome, n: nat)
    requires MarkTrace(own, r, Transient, n) && TryTrace(more, r, o)
    ensures MarkTrace(own + more, r, o, n + 1)
  {
  }

  lemma GrowTrace(own: seq<Action>, r: RunnerId, o: Outcome, n: nat, m: nat)
    requires MarkTrace(own, r, o, n) && n <= m
    ensures MarkTrace(own, r, o, m)
    ensures o == Transient ==> MarkTrace(own, r, Stopped, m)
  {
  }

  /** _mark_done_with_retry. Whatever the connections and the other parties do, a
      normal return means the job is done; a lost claim is reported only when the row
      is neither this runner's nor done; and the transaction is tried at most
      1 + RETRY_DB_ATTEMPTS times. It gives up for a lost connection only after losing
      that many calls, and otherwise only when a statement is refused or the runner is
      told to stop. */
  method MarkDoneWithRetry(db: Db, w: World, r: RunnerId, j: JobId, closed0: bool) returns (o: Outcome)
    requires db.Valid() && OthersOnly(w, r) && LocalOf(db.s, r).Busy? && LocalOf(db.s, r).job == j
    modifies db
    ensures db.Valid() && db.origin == old(db.origin) && old(db.history) <= db.history
    ensures o == Returned ==> j in db.s.rows && db.s.rows[j].status == Done && LocalOf(db.s, r) == Idle
    ensures o != Returned ==> LocalOf(db.s, r) == old(LocalOf(db.s, r))
    ensures o == ClaimLost ==> !Holds(db.s, r, j) && (j in db.s.rows ==> db.s.rows[j].status != Done)
    ensures OnceSince(db, old(db.history), r, j, old(Holds(db.s, r, j)))
    ensures MarkTrace(Own(db.history, |old(db.history)|, r), r, o, 1 + RETRY_DB_ATTEMPTS)
    ensures old(db.calls) < db.calls <= old(db.calls) + 3 + 4 * RETRY_DB_ATTEMPTS
    ensures o == Transient ==> LostCalls(w, old(db.calls), db.calls) > RETRY_DB_ATTEMPTS
    ensures o == Permanent ==> w.net(db.calls - 1) == Refused
    ensures o == Stopped ==> LostCalls(w, old(db.calls), db.calls) > 0 && w.stops(db.calls)
  {
    hide Inv, Apply, Holds, LostCalls, LocalOf, IsOwn, Own, MarkTrace, TryTrace, Effects, ApplyAll;
    var tries, closed := 0, closed0;
    NothingMarked(db.history, r);
    NothingDone(db.origin, db.history, r);
    while true
      invariant db.Valid() && db.origin == old(db.origin) && old(db.history) <= db.history
      invariant LocalOf(db.s, r) == old(LocalOf(db.s, r))
      invariant 0 <= tries <= RETRY_DB_ATTEMPTS && (tries > 0 ==> closed)
      invariant OnceSince(db, old(db.history), r, j, old(Holds(db.s, r, j)))
      invariant MarkTrace(Own(db.history, |old(db.history)|, r), r, Transient, tries)
      invariant old(db.calls) <= db.calls <= old(db.calls) + (if tries == 0 then 0 else 4 * tries - 1)
      invariant LostCalls(w, old(db.calls), db.calls) >= tries
      decreases RETRY_DB_ATTEMPTS - tries
    {
      ghost var before, history := db.calls, db.history;
      o := TryMarkDone(db, w, r, j, closed, tries > 0);
      OwnOn(history, db.history, |old(db.history)|, r);
      EffectsOn(db.origin, history, db.history, |old(db.history)|, r);
      OneTryMore(Own(history, |old(db.history)|, r), Own(db.history, |history|, r), r, o, tries);
      GrowTrace(Own(db.history, |old(db.history)|, r), r, o, tries + 1, 1 + RETRY_DB_ATTEMPTS);
      if o != Transient { return; }
      // A connection failure: reconnect after a backoff, while the budget lasts.
      LostCallsGrow(w, old(db.calls), before, db.calls);
      tries := tries + 1;
      if tries > RETRY_DB_ATTEMPTS { return; }
      closed := true;
      if w.stops(db.calls) { return Stopped; }
    }
  }

  lemma NothingMarked(history: seq<Action>, r: RunnerId)
    ensures MarkTrace(Own(history, |history|, r), r, Transient, 0)
  {
  }

  // ---- The other job writes ------------------------------------------------

  datatype Ending = Refund | Charge | Fail

  function EndingAction(e: Ending, r: RunnerId, heard: bool): Action
  {
    match e
    case Refund => Release(r, heard)
    case Charge => ReleaseTransient(r, heard)
    case Fail => MarkFailed(r, heard)
  }

  /** The row waits again, as if it had never been claimed. */
  predicate IsGivenBack(row: Row, row': Row)
  {
    row'.status == Pending && row'.claimedBy == None && row'.attempts == row.attempts - 1
  }

  /** The attempt counts: the row waits again, or fails when it was the last one. */
  predicate IsCharged(row: Row, row': Row)
  {
    && row'.attempts == row.attempts
    && if row.attempts >= 3 then row'.status == Failed else row'.status == Pending && row'.claimedBy == None
  }

  predicate IsFailed(row: Row, row': Row) { row'.status == Failed && row'.attempts == row.attempts }

  lemma EndingGivesUp(s: State, r: RunnerId, j: JobId, e: Ending, heard: bool)
    requires Inv(s) && LocalOf(s, r).Busy? && LocalOf(s, r).job == j
    ensures var s' := Apply(s, EndingAction(e, r, heard));
            && !Holds(s', r, j)
            && LocalOf(s', r) == (if heard then Idle else LocalOf(s, r))
            && (!Holds(s, r, j) ==> s'.rows == s.rows && s'.transcripts == s.transcripts)
            && (Holds(s, r, j) ==> s'.rows == s.rows[j := s'.rows[j]] && s'.transcripts == s.transcripts)
            && (Holds(s, r, j) && e == Refund ==> IsGivenBack(s.rows[j], s'.rows[j]))
            && (Holds(s, r, j) && e == Charge ==> IsCharged(s.rows[j], s'.rows[j]))
            && (Holds(s, r, j) && e == Fail ==> IsFailed(s.rows[j], s'.rows[j]))
  {
    if j in s.rows { RowAt(s, j); }
  }

  /** What one try of an ending leaves behind, by its reply. */
  function EndingTrace(e: Ending, r: RunnerId, reply: Reply): seq<Action>
  {
    match reply
    case Arrives => [EndingAction(e, r, true)]
    case LostAfter => [EndingAction(e, r, false)]
    case _ => []
  }

  /** Both tries: the second is made exactly when the first is not answered. */
  function WriteTrace(e: Ending, r: RunnerId, first: Reply, second: Reply): seq<Action>
  {
    EndingTrace(e, r, first) + if first == Arrives then [] else EndingTrace(e, r, second)
  }

  /** What the last step of a history, this ending, did to the row if it was still held. */
  ghost predicate RowEnds(e: Ending, origin: State, history: seq<Action>, r: RunnerId, j: JobId)
  {
    && history != [] && history[|history| - 1] == EndingAction(e, r, true)
    && var s, s' := ApplyAll(origin, history[..|history| - 1]), ApplyAll(origin, history);
       Holds(s, r, j) ==> j in s'.rows && match e
                                         case Refund => IsGivenBack(s.rows[j], s'.rows[j])
                                         case Charge => IsCharged(s.rows[j], s'.rows[j])
                                         case Fail => IsFailed(s.rows[j], s'.rows[j])
  }

  lemma RowEndsNow(e: Ending, origin: State, history: seq<Action>, r: RunnerId, j: JobId)
    requires var s := ApplyAll(origin, history); Inv(s) && LocalOf(s, r).Busy? && LocalOf(s, r).job == j
    ensures RowEnds(e, origin, history + [EndingAction(e, r, true)], r, j)
  {
    hide Apply, EndingAction, IsGivenBack, IsCharged, IsFailed, LocalOf;
    var a := EndingAction(e, r, true);
    EndingGivesUp(ApplyAll(origin, history), r, j, e, true);
    assert (history + [a])[..|history|] == history;
  }

  /** _job_write around one of them: a second try on a fresh connection, also when
      the first reply was lost. It succeeds exactly when one of the two is answered, and
      does exactly what their replies say; it changes the row at most once, so a claim is
      never refunded twice. */
  method JobWrite(db: Db, w: World, r: RunnerId, j: JobId, e: Ending) returns (ok: bool)
    requires db.Valid() && OthersOnly(w, r) && LocalOf(db.s, r).Busy? && LocalOf(db.s, r).job == j
    modifies db
    ensures db.Valid() && db.origin == old(db.origin) && old(db.history) <= db.history
    ensures ok <==> w.net(old(db.calls)) == Arrives || w.net(old(db.calls) + 1) == Arrives
    ensures db.calls == old(db.calls) + if w.net(old(db.calls)) == Arrives then 1 else 2
    ensures Own(db.history, |old(db.history)|, r) == WriteTrace(e, r, w.net(old(db.calls)), w.net(old(db.calls) + 1))
    ensures ok ==> RowEnds(e, db.origin, db.history, r, j)
    ensures OnceSince(db, old(db.history), r, j, old(Holds(db.s, r, j)))
    ensures ok ==> !Holds(db.s, r, j) && LocalOf(db.s, r) == Idle
    ensures !ok ==> LocalOf(db.s, r) == old(LocalOf(db.s, r))
  {
    hide Inv, Apply, Holds, IsOwn, EndingAction, Own, Effects, LocalOf, ApplyAll, RowEnds;
    ghost var n := |db.history|;
    NothingDone(db.origin, db.history, r);
    ok := TryEnding(db, w, r, j, e);
    if ok { return; }
    ghost var history, held := db.history, Holds(db.s, r, j);
    ok := TryEnding(db, w, r, j, e);
    OwnOn(history, db.history, n, r);
    EffectsOn(db.origin, history, db.history, n, r);
  }

  lemma NothingDone(origin: State, history: seq<Action>, r: RunnerId)
    ensures Own(history, |history|, r) == [] && Effects(origin, history, |history|, r) == 0
  {
  }

  lemma {:induction false} EffectsOn(origin: State, history: seq<Action>, more: seq<Action>, from: nat, r: RunnerId)
    requires from <= |history| && history <= more
    ensures Effects(origin, more, from, r) == Effects(origin, history, from, r) + Effects(origin, more, |history|, r)
  {
    hide IsOwn, ChangesRows, ApplyAll;
    if |more| > |history| {
      EffectsOn(origin, history, more[..|more| - 1], from, r);
    } else {
      assert more == history;
    }
  }

  /** One try of an ending. */
  method TryEnding(db: Db, w: World, r: RunnerId, j: JobId, e: Ending) returns (ok: bool)
    requires db.Valid() && OthersOnly(w, r) && LocalOf(db.s, r).Busy? && LocalOf(db.s, r).job == j
    modifies db
    ensures db.Valid() && db.origin == old(db.origin) && old(db.history) <= db.history && db.calls == old(db.calls) + 1
    ensures ok <==> w.net(old(db.calls)) == Arrives
    ensures Own(db.history, |old(db.history)|, r) == EndingTrace(e, r, w.net(old(db.calls)))
    ensures ok ==> RowEnds(e, db.origin, db.history, r, j)
    ensures OnceSince(db, old(db.history), r, j, old(Holds(db.s, r, j)))
    ensures ok ==> !Holds(db.s, r, j)
    ensures LocalOf(db.s, r) == if ok then Idle else old(LocalOf(db.s, r))
  {
    hide Inv, Apply, Holds, IsOwn, EndingAction, Own, Effects, LocalOf, ApplyAll, RowEnds;
    ghost var n, history := |db.history|, db.history;
    NothingDone(db.origin, db.history, r);
    var reply := db.Call(w, r, j);
    OthersAreNotOwn(db.history, n, r);
    OthersHaveNoEffect(db.origin, history, db.history, n, r);
    if reply == Arrives || reply == LostAfter {
      var a := EndingAction(e, r, reply == Arrives);
      EndingIsOwn(e, r, reply == Arrives);
      EndingGivesUp(db.s, r, j, e, reply == Arrives);
      RowEndsNow(e, db.origin, db.history, r, j);
      OneOwn(db.history, a, r);
      OwnOn(db.history, db.history + [a], n, r);
      OneEffect(db.origin, db.history, n, a, r);
      db.Perform(a);
    }
    ok := reply == Arrives;
  }

  lemma EndingIsOwn(e: Ending, r: RunnerId, heard: bool)
    ensures IsOwn(r, EndingAction(e, r, heard))
  {
  }

  /** How the transcription of a job ends before anything is written. */
  datatype Transcription = Transcribed | StopRequested | MustYield | ClaimGone | FailsForGood | FailsForNow

  /** The one ending the main loop writes for it, if any. */
  function EndingOf(t: Transcription, o: Outcome): Option<Ending>
  {
    match t
    case StopRequested => Some(Refund)
    case MustYield => Some(Refund)
    case ClaimGone => None
    case FailsForGood => Some(Fail)
    case FailsForNow => Some(Charge)
    case Transcribed =>
      (match o
       case Returned => None
       case ClaimLost => None
       case Stopped => Some(Refund)
       case Permanent => Some(Fail)
       case Transient => Some(Charge))
  }

  /** An ending is written exactly when one of its two tries is answered. */
  predicate IsWritten(w: World, e: Option<Ending>, c: nat)
  {
    e.Some? && (w.net(c) == Arrives || w.net(c + 1) == Arrives)
  }

  /** All the runner does about an ending from call c on: its tries, and when none is
      answered, or there is none to write, it gives the job up unwritten. */
  function EndingSteps(w: World, e: Option<Ending>, r: RunnerId, c: nat): seq<Action>
  {
    (if e.Some? then WriteTrace(e.value, r, w.net(c), w.net(c + 1)) else []) + if IsWritten(w, e, c) then [] else [Abandon(r)]
  }

  /** What each end of the transcription, and each failure to mark it done, may leave: a
      stop and a yield only give the claim back, a failure for good only fails the job, one
      for now only counts the attempt, and a claim gone writes nothing. The job may also be
      given up unwritten. */
  predicate LeavesOnly(t: Transcription, o: Outcome, r: RunnerId, steps: seq<Action>)
  {
    forall i :: 0 <= i < |steps| && steps[i] != Abandon(r) ==>
      match t
      case StopRequested => steps[i].Release?
      case MustYield => steps[i].Release?
      case ClaimGone => false
      case FailsForGood => steps[i].MarkFailed?
      case FailsForNow => steps[i].ReleaseTransient?
      case Transcribed =>
        (match o
         case Returned => false
         case ClaimLost => false
         case Stopped => steps[i].Release?
         case Permanent => steps[i].MarkFailed?
         case Transient => steps[i].ReleaseTransient?)
  }

  /** What the last write did to the row, if it was still held: given back after a stop
      or a yield, failed after a failure for good, charged after one for now. */
  ghost predicate RowLeft(t: Transcription, o: Outcome, origin: State, history: seq<Action>, r: RunnerId, j: JobId)
    requires history != []
  {
    var s, s' := ApplyAll(origin, history[..|history| - 1]), ApplyAll(origin, history);
    Holds(s, r, j) ==>
      && j in s'.rows
      && (t in {StopRequested, MustYield} || (t == Transcribed && o == Stopped) ==> IsGivenBack(s.rows[j], s'.rows[j]))
      && (t == FailsForGood || (t == Transcribed && o == Permanent) ==> IsFailed(s.rows[j], s'.rows[j]))
      && (t == FailsForNow || (t == Transcribed && o == Transient) ==> IsCharged(s.rows[j], s'.rows[j]))
  }

  lemma EndingsFit(w: World, t: Transcription, o: Outcome, r: RunnerId, c: nat)
    ensures LeavesOnly(t, o, r, EndingSteps(w, EndingOf(t, o), r, c)) && LeavesOnly(t, o, r, [])
    ensures EndingOf(t, o).None? <==> t == ClaimGone || (t == Transcribed && o in {Returned, ClaimLost})
    ensures IsWritten(w, EndingOf(t, o), c) <==>
              && (w.net(c) == Arrives || w.net(c + 1) == Arrives)
              && t != ClaimGone && (t == Transcribed ==> o in {Stopped, Permanent, Transient})
  {
  }

  lemma RowIsLeft(t: Transcription, o: Outcome, origin: State, history: seq<Action>, r: RunnerId, j: JobId)
    requires EndingOf(t, o).Some? && RowEnds(EndingOf(t, o).value, origin, history, r, j)
    ensures RowLeft(t, o, origin, history, r, j)
  {
    hide ApplyAll, Holds, IsGivenBack, IsFailed, IsCharged, EndingAction;
  }

  /** The end of a job as the main loop handles it, however the transcription ended:
      the runner is idle again. A finished transcription is marked done, or fails to be
      for one of the reasons of MarkDoneWithRetry; then, and for a stop, a yield or a
      failure, the ending that goes with it is tried from call c on, and written exactly
      when one of two tries is answered; a lost claim is left alone. The runner does
      exactly this. */
  method FinishJob(db: Db, w: World, r: RunnerId, j: JobId, t: Transcription, closed: bool) returns (o: Outcome, ok: bool, ghost c: nat, ghost marks: seq<Action>)
    requires db.Valid() && OthersOnly(w, r) && LocalOf(db.s, r).Busy? && LocalOf(db.s, r).job == j
    modifies db
    ensures db.Valid() && db.origin == old(db.origin) && old(db.history) <= db.history
    ensures LocalOf(db.s, r) == Idle && old(db.calls) <= c <= db.calls
    ensures t.Transcribed? && o == Returned ==> ok && j in db.s.rows && db.s.rows[j].status == Done
    ensures t.Transcribed? && o == ClaimLost ==> !Holds(db.s, r, j) && (j in db.s.rows ==> db.s.rows[j].status != Done)
    ensures t.Transcribed? && o == Transient ==> LostCalls(w, old(db.calls), c) > RETRY_DB_ATTEMPTS
    ensures t.Transcribed? && o == Permanent ==> c > old(db.calls) && w.net(c - 1) == Refused
    ensures t.Transcribed? && o == Stopped ==> LostCalls(w, old(db.calls), c) > 0 && w.stops(c)
    ensures if t.Transcribed? then MarkTrace(marks, r, o, 1 + RETRY_DB_ATTEMPTS) else marks == [] && c == old(db.calls)
    ensures Own(db.history, |old(db.history)|, r) == marks + if t.Transcribed? && o == Returned then [] else EndingSteps(w, EndingOf(t, o), r, c)
    ensures !(t.Transcribed? && o == Returned) ==> (ok <==> IsWritten(w, EndingOf(t, o), c))
    ensures LeavesOnly(t, o, r, Own(db.history, |old(db.history)|, r)[|marks|..])
    ensures t != Transcribed || o in {Stopped, Permanent, Transient} ==>
      (ok <==> t != ClaimGone && (w.net(c) == Arrives || w.net(c + 1) == Arrives))
    ensures ok && (t.Transcribed? ==> o != Returned) ==> db.history != [] && RowLeft(t, o, db.origin, db.history, r, j) && !Holds(db.s, r, j)
    ensures !ok ==> db.history != [] && db.history[|db.history| - 1] == Abandon(r)
    ensures OnceSince(db, old(db.history), r, j, old(Holds(db.s, r, j)))
  {
    hide Inv, Apply, Holds, IsOwn, Own, Effects, LocalOf, MarkTrace, LostCalls, EndingSteps, IsWritten, ApplyAll, EndingOf, RowEnds, RowLeft, LeavesOnly;
    NothingDone(db.origin, db.history, r);
    ghost var n := |db.history|;
    o, marks := Returned, [];
    if t.Transcribed? {
      o := MarkDoneWithRetry(db, w, r, j, closed);
      marks := Own(db.history, n, r);
    }
    c := db.calls;
    ghost var marked := db.history;
    EndingsFit(w, t, o, r, c);
    if t.Transcribed? && o == Returned {
      ok := true;
      NothingToWrite(w, c);
      return;
    }
    ok := WriteEnding(db, w, r, j, EndingOf(t, o));
    if ok { RowIsLeft(t, o, db.origin, db.history, r, j); }
    OwnOn(marked, db.history, n, r);
    EffectsOn(db.origin, marked, db.history, n, r);
  }

  lemma NothingToWrite(w: World, c: nat)
    ensures !IsWritten(w, None, c)
  {
  }

  /** Writes the ending, if there is one; a write that fails twice is left to the sweep. */
  method WriteEnding(db: Db, w: World, r: RunnerId, j: JobId, e: Option<Ending>) returns (ok: bool)
    requires db.Valid() && OthersOnly(w, r) && LocalOf(db.s, r).Busy? && LocalOf(db.s, r).job == j
    modifies db
    ensures db.Valid() && db.origin == old(db.origin) && old(db.history) <= db.history
    ensures LocalOf(db.s, r) == Idle && (ok <==> IsWritten(w, e, old(db.calls))) && db.calls >= old(db.calls)
    ensures Own(db.history, |old(db.history)|, r) == EndingSteps(w, e, r, old(db.calls))
    ensures ok ==> !Holds(db.s, r, j) && RowEnds(e.value, db.origin, db.history, r, j)
    ensures !ok ==> db.history != [] && db.history[|db.history| - 1] == Abandon(r)
    ensures e.None? ==> db.s.rows == old(db.s.rows) && Holds(db.s, r, j) == old(Holds(db.s, r, j))
    ensures OnceSince(db, old(db.history), r, j, old(Holds(db.s, r, j)))
  {
    hide Inv, Apply, Holds, IsOwn, Own, Effects, LocalOf, WriteTrace, ApplyAll, RowEnds;
    ghost var start := db.history;
    NothingDone(db.origin, start, r);
    ok := false;
    if e.Some? {
      ok := JobWrite(db, w, r, j, e.value);
    }
    if !ok {
      GiveUpQuietly(db, r, j, start);
    }
  }
}
