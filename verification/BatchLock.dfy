/** Several coordinators and the single-instance lock. Taking it never waits; a
    session lock dies with its session, which its run does not notice at once. */
module BatchLock {
  import opened Optional
  import Coordinator

  type Coord = nat

  /** run numbers the lock sessions in the order the lock was taken. */
  datatype State = State(holder: Option<Coord>, running: map<Coord, nat>, next: nat, writes: seq<Write>)

  /** A write of the control row, by which coordinator in which of its runs. */
  datatype Write = Write(coord: Coord, run: nat)

  datatype Action = TryLock(c: Coord) | WriteControl(c: Coord) | Release(c: Coord) | LoseLock(c: Coord)

  function Apply(s: State, a: Action): State
  {
    match a
    case TryLock(c) =>
      if s.holder.None? && c !in s.running then s.(holder := Some(c), running := s.running[c := s.next], next := s.next + 1) else s
    case WriteControl(c) =>
      if c in s.running then s.(writes := s.writes + [Write(c, s.running[c])]) else s
    case Release(c) =>
      if c in s.running then s.(running := s.running - {c}, holder := if s.holder == Some(c) then None else s.holder) else s
    case LoseLock(c) => if s.holder == Some(c) then s.(holder := None) else s
  }

  function ApplyAll(s: State, actions: seq<Action>): State
  {
    if actions == [] then s else Apply(ApplyAll(s, actions[..|actions| - 1]), actions[|actions| - 1])
  }

  /** The lock passes only from nobody to a coordinator that tries it and from its holder to
      nobody, by that holder's release or the loss of its session. */
  lemma LockPasses(s: State, a: Action)
    ensures Apply(s, a).holder != s.holder ==>
      || (a.TryLock? && s.holder == None && Apply(s, a).holder == Some(a.c))
      || ((a.Release? || a.LoseLock?) && s.holder == Some(a.c) && Apply(s, a).holder == None)
  {
  }

  /** A lock released or lost can be taken at once, by any coordinator not in a run. */
  lemma FreedLockCanBeTaken(s: State, c: Coord, d: Coord, lost: bool)
    requires s.holder == Some(c) && c in s.running && (d == c ==> !lost) && (d != c ==> d !in s.running)
    ensures var s' := Apply(Apply(s, if lost then LoseLock(c) else Release(c)), TryLock(d));
            s'.holder == Some(d) && d in s'.running && s'.running[d] == s.next
    ensures lost ==> c in Apply(s, LoseLock(c)).running
    ensures !lost ==> c !in Apply(s, Release(c)).running
  {
  }

  const START := State(None, map[], 0, [])

  ghost predicate NeverLost(actions: seq<Action>) { forall k :: 0 <= k < |actions| ==> !actions[k].LoseLock? }

  ghost predicate InTurn(writes: seq<Write>)
  {
    forall k, l :: 0 <= k <= l < |writes| ==> writes[k].run <= writes[l].run && (writes[k].run == writes[l].run ==> writes[k].coord == writes[l].coord)
  }

  /** At most one run is under way, it holds the lock and it is the latest. */
  ghost predicate OneAtATime(s: State)
  {
    && (forall c :: c in s.running ==> s.holder == Some(c) && s.running[c] + 1 == s.next)
    && (forall k :: 0 <= k < |s.writes| ==> s.writes[k].run < s.next)
    && (forall k, c :: 0 <= k < |s.writes| && c in s.running && s.writes[k].run == s.running[c] ==> s.writes[k].coord == c)
    && InTurn(s.writes)
  }

  lemma {:induction false} LockAdmitsOne(actions: seq<Action>)
    requires NeverLost(actions)
    ensures OneAtATime(ApplyAll(START, actions))
  {
    if actions != [] {
      LockAdmitsOne(actions[..|actions| - 1]);
      assert !actions[|actions| - 1].LoseLock?;
    }
  }

  /** While no lock session dies, the writes of two runs never interleave: a run's
      writes are one uninterrupted stretch of the log, by one coordinator. */
  lemma WritesNeverInterleave(actions: seq<Action>, j: nat, k: nat, l: nat)
    requires NeverLost(actions) && j < k < l < |ApplyAll(START, actions).writes|
    ensures var ws := ApplyAll(START, actions).writes;
            ws[j].run == ws[l].run ==> ws[k] == ws[j] == ws[l]
  {
    LockAdmitsOne(actions);
  }

  /** A lost lock session is exactly what breaks this: the run that lost it can still
      write between two writes of its successor. */
  lemma LostLockInterleaves() returns (actions: seq<Action>)
    ensures var ws := ApplyAll(START, actions).writes;
            |ws| == 3 && ws[0] == ws[2] && ws[1].coord != ws[0].coord
  {
    actions := [TryLock(1), WriteControl(1), LoseLock(1), TryLock(2), WriteControl(2), WriteControl(1)];
    var s1 := Apply(START, TryLock(1));
    assert actions[..1] == [TryLock(1)] && actions[..1][..0] == [];
    assert ApplyAll(START, []) == START;
    assert ApplyAll(START, actions[..1]) == s1;
    assert actions[..2][..1] == actions[..1] && actions[..3][..2] == actions[..2] && actions[..4][..3] == actions[..3];
    assert actions[..5][..4] == actions[..4] && actions[..6][..5] == actions[..5] && actions[..6] == actions;
    var s2 := Apply(s1, WriteControl(1));
    assert ApplyAll(START, actions[..2]) == s2;
    var s3 := Apply(s2, LoseLock(1));
    assert ApplyAll(START, actions[..3]) == s3;
    var s4 := Apply(s3, TryLock(2));
    assert ApplyAll(START, actions[..4]) == s4;
    var s5 := Apply(s4, WriteControl(2));
    assert ApplyAll(START, actions[..5]) == s5;
    assert ApplyAll(START, actions) == Apply(s5, WriteControl(1));
  }

  // ---- The coordinator's own run -------------------------------------------

  /** What a coordinator's log does to the lock: each event is one action of its. */
  function ActionsOf(c: Coord, log: seq<Coordinator.Event>): (actions: seq<Action>)
    ensures |actions| == |log|
    ensures forall k :: 0 <= k < |log| ==> actions[k] == if log[k].Released? then Release(c) else WriteControl(c)
  {
    seq(|log|, k requires 0 <= k < |log| => if log[k].Released? then Release(c) else WriteControl(c))
  }

  /** How many of the actions are writes by c, and how many writes are of one run. */
  function WritesBy(c: Coord, actions: seq<Action>): nat
  {
    if actions == [] then 0
    else WritesBy(c, actions[..|actions| - 1]) + if actions[|actions| - 1] == WriteControl(c) then 1 else 0
  }

  function WritesOf(wr: Write, writes: seq<Write>): nat
  {
    if writes == [] then 0 else WritesOf(wr, writes[..|writes| - 1]) + if writes[|writes| - 1] == wr then 1 else 0
  }

  /** From taking the lock to releasing it, whatever the other coordinators do in
      between and even if the lock is lost, every write a run makes lands as its own. */
  lemma {:induction false} EveryWriteLands(s: State, c: Coord, actions: seq<Action>)
    requires c in s.running && Release(c) !in actions
    ensures var s' := ApplyAll(s, actions);
            && c in s'.running && s'.running[c] == s.running[c]
            && WritesOf(Write(c, s.running[c]), s'.writes) == WritesOf(Write(c, s.running[c]), s.writes) + WritesBy(c, actions)
  {
    if actions != [] {
      var init, last := actions[..|actions| - 1], actions[|actions| - 1];
      assert forall k :: 0 <= k < |init| ==> init[k] in actions;
      EveryWriteLands(s, c, init);
      var m := ApplyAll(s, init);
      assert last in actions;
      assert ApplyAll(s, actions) == Apply(m, last);
      if last.WriteControl? && last.c in m.running {
        assert (m.writes + [Write(last.c, m.running[last.c])])[..|m.writes|] == m.writes;
      }
    }
  }

  /** The log of a coordinator's run, as Coordinator.Run leaves it, is such a run: it
      releases the lock as its last action, after every write it makes. */
  lemma RunWritesBeforeRelease(c: Coord, w: Coordinator.World, driving: seq<Coordinator.Event>, n: int, limit: Coordinator.Limit)
    requires Coordinator.Drives(driving, n)
    ensures Release(c) !in ActionsOf(c, driving + Coordinator.RestoreWrites(w, limit))
    ensures Release(c) !in ActionsOf(c, driving)
    ensures WritesBy(c, ActionsOf(c, driving + Coordinator.RestoreWrites(w, limit))) == |driving + Coordinator.RestoreWrites(w, limit)|
    ensures ActionsOf(c, driving + Coordinator.RestoreWrites(w, limit) + [Coordinator.Released])
         == ActionsOf(c, driving + Coordinator.RestoreWrites(w, limit)) + [Release(c)]
  {
    var log := driving + Coordinator.RestoreWrites(w, limit);
    forall k | 0 <= k < |log|
      ensures !log[k].Released?
    {
      assert k < |driving| ==> Coordinator.DrivesAt(driving, n, k);
    }
    assert forall k :: 0 <= k < |driving| ==> log[k] == driving[k];
    AllWrites(c, ActionsOf(c, log));
  }

  lemma {:induction false} AllWrites(c: Coord, actions: seq<Action>)
    requires forall k :: 0 <= k < |actions| ==> actions[k] == WriteControl(c)
    ensures WritesBy(c, actions) == |actions|
  {
    if actions != [] { AllWrites(c, actions[..|actions| - 1]); }
  }
}
