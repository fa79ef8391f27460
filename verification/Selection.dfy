/** Greedy selections: the elements of a list taken up one after another, each exactly
    when those taken before it allow. */
module Selection {

  ghost predicate Ascending(at: seq<nat>) { forall k, l :: 0 <= k < l < |at| ==> at[k] < at[l] }

  /** Element i finds k elements taken before it. */
  ghost predicate Finds(at: seq<nat>, i: nat, k: nat)
  {
    k <= |at| && (k > 0 ==> at[k - 1] < i) && (k < |at| ==> i <= at[k])
  }

  /** kept is what stays of the elements offered, at where they stood there: each one stays
      exactly when those kept before it allow. */
  ghost predicate Selects<T(!new)>(allows: (seq<T>, T) -> bool, offered: seq<T>, at: seq<nat>, kept: seq<T>)
  {
    && |at| == |kept| && Ascending(at)
    && (forall k :: 0 <= k < |at| ==> at[k] < |offered| && kept[k] == offered[at[k]])
    && (forall i: nat, k: nat :: i < |offered| && Finds(at, i, k) ==> Decides(allows, offered, at, kept, i, k))
  }

  ghost predicate Decides<T(!new)>(allows: (seq<T>, T) -> bool, offered: seq<T>, at: seq<nat>, kept: seq<T>, i: nat, k: nat)
    requires i < |offered| && |at| == |kept| && k <= |at|
  {
    (k < |at| && at[k] == i) <==> allows(kept[..k], offered[i])
  }

  lemma NothingSelected<T(!new)>(allows: (seq<T>, T) -> bool)
    ensures Selects(allows, [], [], [])
  {
  }

  /** A decision about an element offered stays when one more is offered. */
  lemma DecisionStays<T(!new)>(allows: (seq<T>, T) -> bool, offered: seq<T>, at: seq<nat>, kept: seq<T>, e: T, at': seq<nat>, kept': seq<T>, i: nat, k: nat)
    requires Selects(allows, offered, at, kept) && i < |offered| && |at'| == |kept'| && Finds(at', i, k)
    requires (at' == at && kept' == kept) || (at' == at + [|offered|] && kept' == kept + [e])
    ensures Decides(allows, offered + [e], at', kept', i, k)
  {
    assert k <= |at|;
    assert Finds(at, i, k) && Decides(allows, offered, at, kept, i, k);
    assert kept'[..k] == kept[..k];
  }

  lemma SelectsSnoc<T(!new)>(allows: (seq<T>, T) -> bool, offered: seq<T>, at: seq<nat>, kept: seq<T>, e: T)
    requires Selects(allows, offered, at, kept)
    ensures allows(kept, e) ==> Selects(allows, offered + [e], at + [|offered|], kept + [e])
    ensures !allows(kept, e) ==> Selects(allows, offered + [e], at, kept)
  {
    hide Decides;
    var n := |offered|;
    var at', kept' := if allows(kept, e) then at + [n] else at, if allows(kept, e) then kept + [e] else kept;
    forall i: nat, k: nat | i <= n && Finds(at', i, k)
      ensures Decides(allows, offered + [e], at', kept', i, k)
    {
      if i < n { DecisionStays(allows, offered, at, kept, e, at', kept', i, k); } else { NewDecision(allows, offered, at, kept, e, at', kept', k); }
    }
  }

  lemma NewDecision<T(!new)>(allows: (seq<T>, T) -> bool, offered: seq<T>, at: seq<nat>, kept: seq<T>, e: T, at': seq<nat>, kept': seq<T>, k: nat)
    requires Selects(allows, offered, at, kept) && |at'| == |kept'| && Finds(at', |offered|, k)
    requires if allows(kept, e) then at' == at + [|offered|] && kept' == kept + [e] else at' == at && kept' == kept
    ensures Decides(allows, offered + [e], at', kept', |offered|, k)
  {
    assert k == |at|;
    assert kept'[..k] == kept;
  }

  lemma FoundBefore(at: seq<nat>, i: nat) returns (k: nat)
    requires Ascending(at)
    ensures Finds(at, i, k)
  {
    k := |at|;
    while k > 0 && at[k - 1] >= i
      invariant 0 <= k <= |at| && (k < |at| ==> i <= at[k])
    {
      k := k - 1;
    }
  }

  lemma SelectedOnly<T(!new)>(allows: (seq<T>, T) -> bool, offered: seq<T>, at: seq<nat>, kept: seq<T>, e: T)
    requires Selects(allows, offered, at, kept) && e in kept
    ensures e in offered
  {
    var k :| 0 <= k < |kept| && kept[k] == e;
    assert kept[k] == offered[at[k]];
  }

  lemma SameDecision<T(!new)>(allows: (seq<T>, T) -> bool, offered: seq<T>, at: seq<nat>, kept: seq<T>, at': seq<nat>, kept': seq<T>, i: nat, k: nat)
    requires Selects(allows, offered, at, kept) && Selects(allows, offered, at', kept')
    requires i < |offered| && Finds(at, i, k) && Finds(at', i, k) && kept[..k] == kept'[..k]
    ensures (k < |at| && at[k] == i) == (k < |at'| && at'[k] == i)
  {
    assert Decides(allows, offered, at, kept, i, k) && Decides(allows, offered, at', kept', i, k);
  }

  /** What was offered determines what stays. */
  lemma {:induction false} SelectionIsUnique<T(!new)>(allows: (seq<T>, T) -> bool, offered: seq<T>, at: seq<nat>, kept: seq<T>, at': seq<nat>, kept': seq<T>, n: nat)
    requires Selects(allows, offered, at, kept) && Selects(allows, offered, at', kept')
    requires n <= |at|
    ensures n <= |at'| && at[..n] == at'[..n] && kept[..n] == kept'[..n]
  {
    if n > 0 {
      SelectionIsUnique(allows, offered, at, kept, at', kept', n - 1);
      var i := if n <= |at'| && at'[n - 1] < at[n - 1] then at'[n - 1] else at[n - 1];
      SameDecision(allows, offered, at, kept, at', kept', i, n - 1);
      assert at[..n] == at[..n - 1] + [i] && at'[..n] == at'[..n - 1] + [i];
    }
  }
}
