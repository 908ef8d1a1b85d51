/** What the reconciliation of YumSync guarantees over whole schedules. */
module YumConvergence {
  import opened YumSync
  import Runs

  /** Mirror convergence: every schedule that ends without error leaves the table with exactly the upstream ids if, and
      only if, no two upstream packages share a tag. The counter is the number of list entries, less the increments
      that the filter's unguarded write overwrote, and never more. */
  lemma Convergence(run: seq<State>)
    requires Runs.IsRun(Init, Next, run) && run[|run| - 1].phase == Ended
    ensures var s := run[|run| - 1];
            && s.synced + s.lost == |s.upstream| && s.lost >= 0
            && (TableIds(s) == UpstreamIds(s) <==> InjectiveUpstream(s))
  {
    InvHolds(run);
    var s := run[|run| - 1];
    assert Inv(s);
    if InjectiveUpstream(s) {
      assert forall id :: id in TableIds(s) ==> id in UpstreamIds(s);
      forall id | id in UpstreamIds(s) ensures id in TableIds(s) {
        var i :| 0 <= i < |s.upstream| && s.upstream[i] == id;
        assert s.table[s.tagOf(s.upstream[i])] == id;
      }
      assert TableIds(s) == UpstreamIds(s);
    }
    if TableIds(s) == UpstreamIds(s) {
      ConvergedIsInjective(s);
    }
  }

  /** A table keyed by tag has room for one of two packages with the same tag. */
  lemma ConvergedIsInjective(s: State)
    requires Tagged(s) && TableIds(s) == UpstreamIds(s)
    ensures InjectiveUpstream(s)
  {
    forall i, j | 0 <= i < |s.upstream| && 0 <= j < |s.upstream| && s.tagOf(s.upstream[i]) == s.tagOf(s.upstream[j])
      ensures s.upstream[i] == s.upstream[j]
    {
      assert s.upstream[i] in TableIds(s) && s.upstream[j] in TableIds(s);
      var g :| g in s.table && s.table[g] == s.upstream[i];
      var h :| h in s.table && s.table[h] == s.upstream[j];
    }
  }

  /** Removals are safe at every moment of every schedule, errors included: nothing is removed before every upstream
      package is in the table, no upstream package leaves it again, no overridden id is ever removed as stale, and
      every removal finds its row. */
  lemma RemovalsAreSafe(run: seq<State>, k: nat)
    requires Runs.IsRun(Init, Next, run) && k < |run| && InjectiveUpstream(run[k])
    ensures var s := run[k];
            && s.deleted !! UpstreamIds(s) && s.deleted !! s.overridden
            && (s.deleted != {} ==> UpstreamIds(s) <= TableIds(s))
            && (!Fetching(s) ==> UpstreamIds(s) <= TableIds(s))
            && (!Fetching(s) ==> forall id :: id in s.removals ==> !s.removals[id].Refused?)
  {
    InvHolds(run);
    var s := run[k];
    assert Inv(s);
    if DeleteInv(s) {
      forall id | id in UpstreamIds(s) ensures id in TableIds(s) && id !in s.deleted {
        var i :| 0 <= i < |s.upstream| && s.upstream[i] == id;
        assert s.table[s.tagOf(s.upstream[i])] == id;
      }
    }
  }

  // ----- where ids go -----

  /** An id that has lost its row lost it to another package, or to a removal. */
  ghost predicate Accounted(ids: set<Id>, s: State) {
    Tagged(s) && forall id :: id in ids ==> id in TableIds(s) || id in s.overridden || id in s.deleted
  }

  lemma StoreAccounts(ids: set<Id>, s: State, t: State, i: nat)
    requires Accounted(ids, s) && Store(s, t, i)
    ensures Accounted(ids, t)
  {
    var tag := s.tagOf(s.upstream[i]);
    forall id | id in ids && id in TableIds(s) ensures id in TableIds(t) || id in t.overridden {
      var g :| g in s.table && s.table[g] == id;
      if g != tag || id == s.upstream[i] { assert g in t.table && t.table[g] == id; }
    }
  }

  lemma RemoveAccounts(ids: set<Id>, s: State, t: State, id: Id)
    requires Accounted(ids, s) && Remove(s, t, id)
    ensures Accounted(ids, t)
  {
    forall x | x in ids && x in TableIds(s) && x != id ensures x in TableIds(t) {
      var g :| g in s.table && s.table[g] == x;
      assert g in t.table && t.table[g] == x;
    }
  }

  lemma StepAccounts(ids: set<Id>, s: State, t: State)
    requires Accounted(ids, s) && Next(s, t)
    ensures Accounted(ids, t)
  {
    if i :| Store(s, t, i) {
      StoreAccounts(ids, s, t, i);
    } else if id :| Remove(s, t, id) {
      RemoveAccounts(ids, s, t, id);
    } else {
      assert t.table == s.table && t.overridden == s.overridden && t.deleted == s.deleted && t.tagOf == s.tagOf;
      assert TableIds(t) == TableIds(s);
    }
  }

  /** Nothing disappears unaccounted for: at every moment of every schedule, each id the table started with is still
      there, or was overridden by a package with its tag, or was removed as stale. */
  lemma RowsAreAccounted(run: seq<State>, i: nat)
    requires Runs.IsRun(Init, Next, run) && i < |run|
    ensures TableIds(run[0]) <= TableIds(run[i]) + run[i].overridden + run[i].deleted
  {
    var ids := TableIds(run[0]);
    var init, inv := (s: State) => Init(s) && TableIds(s) == ids, (s: State) => Accounted(ids, s);
    forall s, t | inv(s) && Next(s, t) ensures inv(t) { StepAccounts(ids, s, t); }
    Runs.InductiveHolds(init, Next, inv, run);
    assert inv(run[i]);
  }

  // ----- failures -----

  ghost predicate WorkerFailed(s: State) { Fetching(s) && exists i :: i in s.jobs && s.jobs[i].Failed? }

  ghost predicate RemovalRefused(s: State) { Removing(s) && exists id :: id in s.removals && s.removals[id].Refused? }

  lemma FailedWorkerStays(s: State, t: State)
    requires Basic(s) && WorkerFailed(s) && Next(s, t)
    ensures WorkerFailed(t)
  {
    var i :| i in s.jobs && s.jobs[i].Failed?;
    if PhaseStep(s, t) { PhaseFrame(s, t); }
    assert i in t.jobs && t.jobs[i].Failed?;
  }

  lemma RefusedRemovalStays(s: State, t: State)
    requires RemovalRefused(s) && Next(s, t)
    ensures RemovalRefused(t)
  {
    var id :| id in s.removals && s.removals[id].Refused?;
    assert id in t.removals && t.removals[id].Refused?;
  }

  /** A failure is never papered over: once a worker has failed, or a removal did not find its row, no schedule ends
      without error. */
  lemma FailureIsFinal(s: State, t: State)
    requires Basic(s) && (WorkerFailed(s) || RemovalRefused(s)) && Runs.Reaches(Next, s, t)
    ensures !t.phase.Ended?
  {
    var inv := (x: State) => Basic(x) && (WorkerFailed(x) || RemovalRefused(x));
    forall a, b | inv(a) && Next(a, b) ensures inv(b) {
      BasicKept(a, b);
      if WorkerFailed(a) { FailedWorkerStays(a, b); } else { RefusedRemovalStays(a, b); }
    }
    Runs.ReachesKeeps(Next, inv, s, t);
    assert inv(t);
  }

  /** A removal does not find its row exactly if no row has the id. */
  lemma RefusedIff(s: State, t: State, id: Id)
    requires Locate(s, t, id)
    ensures t.removals[id].Refused? <==> forall g :: g in s.table ==> s.table[g] != id
  {
  }
}
