/** Reconciliation of a mirrored YUM repository's package table with the upstream list.

    The filter walks the list; what the table has is kept, what it lacks goes to a download worker. A worker looks up
    the row its package will override, has the package stored through the event pipeline, and counts it. When all
    workers are done, one removal per stale id deletes what upstream no longer has. Filter, workers and removals
    interleave freely. Workers count under a mutex; the filter counts without it, so its increment is two steps, a read
    and a write. */
module YumSync {
  import opened Wrappers
  import Runs

  type Id = string
  type Tag = string

  datatype Job = Fetched | Looked | Stored | Finished | Failed

  datatype Removal = Pending | Located | Gone | Refused

  /** `Aborted` is an error return: threads that are under way go on, but nothing new is begun. */
  datatype Phase = Syncing | Deleting | Ended | Aborted(deleting: bool)

  /** `tagOf` gives the tag of a package's content, `stale` is what the filter and the workers leave of the ids found
      in the table at the start. `reading` is the counter the filter has read and not yet written, `lost` how many
      increments its writes have overwritten. `overridden` and `deleted` record which ids lost their row to another
      package, or to a removal. */
  datatype State = State(
    tagOf: Id -> Tag, upstream: seq<Id>, table: map<Tag, Id>,
    stale: set<Id>, position: nat, jobs: map<nat, Job>, removals: map<Id, Removal>,
    synced: int, reading: Option<int>, lost: int, phase: Phase, overridden: set<Id>, deleted: set<Id>)

  /** A row is filed under its content's tag, so an id has at most one row. */
  ghost predicate Tagged(s: State) { forall t :: t in s.table ==> s.tagOf(s.table[t]) == t }

  ghost function TableIds(s: State): set<Id> { set t | t in s.table :: s.table[t] }

  ghost function UpstreamIds(s: State): set<Id> { set i | 0 <= i < |s.upstream| :: s.upstream[i] }

  ghost predicate Init(s: State) {
    && Tagged(s) && s.stale == TableIds(s) && s.position == 0 && s.jobs == map[] && s.removals == map[]
    && s.synced == 0 && s.reading == None && s.lost == 0 && s.phase == Syncing && s.overridden == {} && s.deleted == {}
  }

  ghost predicate Fetching(s: State) { s.phase.Syncing? || s.phase == Aborted(false) }

  ghost predicate Removing(s: State) { s.phase.Deleting? || s.phase == Aborted(true) }

  ghost predicate Filter(s: State, t: State) {
    && Fetching(s) && s.reading.None? && s.position < |s.upstream|
    && var id := s.upstream[s.position];
    t == if id in s.stale then s.(stale := s.stale - {id}, reading := Some(s.synced), position := s.position + 1)
         else s.(jobs := s.jobs[s.position := Fetched], position := s.position + 1)
  }

  /** The filter writes back what it read, plus one. */
  ghost predicate FilterCount(s: State, t: State) {
    && Fetching(s) && s.reading.Some?
    && t == s.(synced := s.reading.value + 1, lost := s.lost + s.synced - s.reading.value, reading := None)
  }

  ghost predicate JobAt(s: State, i: nat, job: Job) {
    Fetching(s) && i in s.jobs && i < |s.upstream| && s.jobs[i] == job
  }

  /** The package the new one will override is not stale. */
  ghost predicate Lookup(s: State, t: State, i: nat) {
    && JobAt(s, i, Fetched)
    && var tag := s.tagOf(s.upstream[i]);
    t == s.(jobs := s.jobs[i := Looked], stale := if tag in s.table then s.stale - {s.table[tag]} else s.stale)
  }

  ghost predicate Store(s: State, t: State, i: nat) {
    && JobAt(s, i, Looked)
    && var id := s.upstream[i];
    var tag := s.tagOf(id);
    t == s.(jobs := s.jobs[i := Stored], table := s.table[tag := id],
            overridden := if tag in s.table && s.table[tag] != id then s.overridden + {s.table[tag]} else s.overridden)
  }

  ghost predicate Count(s: State, t: State, i: nat) {
    JobAt(s, i, Stored) && t == s.(jobs := s.jobs[i := Finished], synced := s.synced + 1)
  }

  ghost predicate FailJob(s: State, t: State, i: nat) {
    && Fetching(s) && i in s.jobs && !s.jobs[i].Finished?
    && t == s.(jobs := s.jobs[i := Failed])
  }

  ghost predicate StartDeleting(s: State, t: State) {
    && s.phase.Syncing? && s.position == |s.upstream| && s.reading.None?
    && (forall i :: i in s.jobs ==> s.jobs[i].Finished?)
    && t == s.(phase := Deleting, removals := map id | id in s.stale :: Pending)
  }

  ghost predicate Locate(s: State, t: State, id: Id) {
    && Removing(s) && id in s.removals && s.removals[id].Pending?
    && t == s.(removals := s.removals[id := if id in TableIds(s) then Located else Refused])
  }

  ghost predicate Remove(s: State, t: State, id: Id) {
    && Removing(s) && id in s.removals && s.removals[id].Located?
    && t == s.(removals := s.removals[id := Gone], table := map g | g in s.table && s.table[g] != id :: s.table[g],
               deleted := s.deleted + {id})
  }

  ghost predicate FinishSync(s: State, t: State) {
    && s.phase.Deleting? && (forall id :: id in s.removals ==> s.removals[id].Gone?)
    && t == s.(phase := Ended)
  }

  /** Any error the caller reports: upstream unreadable, a worker or a removal failed, a timeout. Threads may be left
      behind. */
  ghost predicate Abort(s: State, t: State) {
    (s.phase.Syncing? || s.phase.Deleting?) && t == s.(phase := Aborted(s.phase.Deleting?))
  }

  ghost predicate JobStep(s: State, t: State, i: nat) {
    Lookup(s, t, i) || Store(s, t, i) || Count(s, t, i) || FailJob(s, t, i)
  }

  /** Steps that leave the jobs alone. */
  ghost predicate PhaseStep(s: State, t: State) {
    || StartDeleting(s, t) || (exists id :: Locate(s, t, id) || Remove(s, t, id)) || FinishSync(s, t) || Abort(s, t)
  }

  ghost predicate Next(s: State, t: State) {
    Filter(s, t) || FilterCount(s, t) || (exists i :: JobStep(s, t, i)) || PhaseStep(s, t)
  }

  ghost predicate InjectiveUpstream(s: State) {
    forall i, j :: 0 <= i < |s.upstream| && 0 <= j < |s.upstream| && s.tagOf(s.upstream[i]) == s.tagOf(s.upstream[j])
      ==> s.upstream[i] == s.upstream[j]
  }

  // ----- what holds whatever the tags -----

  ghost function Unfinished(s: State): set<nat> { set i | i in s.jobs && !s.jobs[i].Finished? }

  ghost predicate Basic(s: State) {
    && Tagged(s) && s.position <= |s.upstream|
    && (forall i :: i in s.jobs ==> i < s.position)
    && s.synced + s.lost + |Unfinished(s)| + (if s.reading.Some? then 1 else 0) == s.position
    && s.lost >= 0 && (s.reading.Some? ==> s.reading.value <= s.synced)
    && (!Fetching(s) ==> s.position == |s.upstream| && Unfinished(s) == {} && s.reading.None?)
  }

  lemma BasicFilter(s: State, t: State)
    requires Basic(s) && (Filter(s, t) || FilterCount(s, t))
    ensures Basic(t) && t.tagOf == s.tagOf && t.upstream == s.upstream
  {
    if FilterCount(s, t) || s.upstream[s.position] in s.stale { assert Unfinished(t) == Unfinished(s); }
    else { assert Unfinished(t) == Unfinished(s) + {s.position}; }
  }

  lemma BasicJob(s: State, t: State, i: nat)
    requires Basic(s) && JobStep(s, t, i)
    ensures Basic(t) && t.tagOf == s.tagOf && t.upstream == s.upstream
  {
    if Count(s, t, i) { assert Unfinished(t) == Unfinished(s) - {i}; }
    else { assert Unfinished(t) == Unfinished(s); }
  }

  /** What a change of phase or a removal leaves alone. */
  lemma PhaseFrame(s: State, t: State)
    requires PhaseStep(s, t)
    ensures t == s.(phase := t.phase, removals := t.removals, table := t.table, deleted := t.deleted)
    ensures Fetching(t) ==> Fetching(s)
    ensures Fetching(s) && !Fetching(t) ==> s.position == |s.upstream| && s.reading.None? && Unfinished(s) == {}
    ensures Tagged(s) ==> Tagged(t)
  {
    if StartDeleting(s, t) { assert Unfinished(s) == {}; }
  }

  lemma BasicPhase(s: State, t: State)
    requires Basic(s) && PhaseStep(s, t)
    ensures Basic(t) && t.tagOf == s.tagOf && t.upstream == s.upstream
  {
    PhaseFrame(s, t);
    assert Unfinished(t) == Unfinished(s);
  }

  lemma BasicKept(s: State, t: State)
    requires Basic(s) && Next(s, t)
    ensures Basic(t) && t.tagOf == s.tagOf && t.upstream == s.upstream
  {
    if Filter(s, t) || FilterCount(s, t) {
      BasicFilter(s, t);
    } else if i :| JobStep(s, t, i) {
      BasicJob(s, t, i);
    } else {
      BasicPhase(s, t);
    }
  }

  // ----- what injective tags add -----

  /** Entry i of the list has its row, or a worker on the way. */
  ghost predicate EntryOk(s: State, i: nat)
    requires i < |s.upstream|
  {
    var tag := s.tagOf(s.upstream[i]);
    && s.upstream[i] !in s.stale
    && (i !in s.jobs || s.jobs[i].Stored? || s.jobs[i].Finished? ==> tag in s.table && s.table[tag] == s.upstream[i])
    && (i in s.jobs && s.jobs[i].Looked? ==> forall id :: id in s.stale ==> s.tagOf(id) != tag)
  }

  /** A row belongs to the list, or is stale, or is about to be overridden, or its worker failed after it was looked
      up. */
  ghost predicate RowOk(s: State, t: Tag)
    requires t in s.table
  {
    || s.table[t] in s.stale
    || exists i :: 0 <= i < s.position && i < |s.upstream| && s.tagOf(s.upstream[i]) == t
  }

  ghost predicate SyncInv(s: State) {
    && (forall i :: 0 <= i < s.position && i < |s.upstream| ==> EntryOk(s, i))
    && (forall id :: id in s.stale ==> s.tagOf(id) in s.table && s.table[s.tagOf(id)] == id)
    && (forall t :: t in s.table ==> RowOk(s, t))
    && (forall id :: id in s.overridden ==> id !in s.stale)
    && s.deleted == {}
  }

  ghost predicate DeleteInv(s: State) {
    && s.removals.Keys == s.stale
    && (forall i :: 0 <= i < |s.upstream| ==>
          var id := s.upstream[i];
          s.tagOf(id) in s.table && s.table[s.tagOf(id)] == id && id !in s.stale)
    && (forall id :: id in s.removals ==>
          && !s.removals[id].Refused?
          && (s.removals[id].Gone? <==> id !in TableIds(s)) && (s.removals[id].Gone? <==> id in s.deleted))
    && (forall id :: id in TableIds(s) ==> id in s.stale || id in UpstreamIds(s))
    && (forall id :: id in s.overridden ==> id !in s.stale)
    && s.deleted <= s.stale
  }

  ghost predicate PhaseInv(s: State) {
    if Fetching(s) then SyncInv(s)
    else DeleteInv(s) && (s.phase.Ended? ==> forall id :: id in s.removals ==> s.removals[id].Gone?)
  }

  ghost predicate Inv(s: State) { Basic(s) && (InjectiveUpstream(s) ==> PhaseInv(s)) }

  lemma FilterKeeps(s: State, t: State)
    requires Basic(s) && SyncInv(s) && Filter(s, t)
    ensures SyncInv(t)
  {
    forall i | 0 <= i < t.position && i < |t.upstream| ensures EntryOk(t, i) {
      if i < s.position { assert EntryOk(s, i); }
    }
    forall g | g in t.table ensures RowOk(t, g) {
      assert RowOk(s, g);
      if s.table[g] == s.upstream[s.position] { assert s.tagOf(s.upstream[s.position]) == g; }
    }
  }

  lemma JobKeeps(s: State, t: State, i: nat)
    requires Basic(s) && SyncInv(s) && InjectiveUpstream(s)
    requires Lookup(s, t, i) || Count(s, t, i) || FailJob(s, t, i)
    ensures SyncInv(t)
  {
    forall j | 0 <= j < t.position && j < |t.upstream| ensures EntryOk(t, j) { assert EntryOk(s, j); }
    forall g | g in t.table ensures RowOk(t, g) {
      assert RowOk(s, g);
      if Lookup(s, t, i) && g == s.tagOf(s.upstream[i]) { assert 0 <= i < t.position && t.tagOf(t.upstream[i]) == g; }
    }
  }

  lemma StoreKeeps(s: State, t: State, i: nat)
    requires Basic(s) && SyncInv(s) && InjectiveUpstream(s) && Store(s, t, i)
    ensures SyncInv(t)
  {
    assert EntryOk(s, i);
    var tag := s.tagOf(s.upstream[i]);
    forall j | 0 <= j < t.position && j < |t.upstream| ensures EntryOk(t, j) { assert EntryOk(s, j); }
    forall g | g in t.table ensures RowOk(t, g) {
      if g != tag { assert RowOk(s, g); } else { assert t.tagOf(t.upstream[i]) == g; }
    }
  }

  lemma StartKeeps(s: State, t: State)
    requires Basic(s) && SyncInv(s) && StartDeleting(s, t)
    ensures DeleteInv(t)
  {
    forall i | 0 <= i < |t.upstream| ensures
      var tag := t.tagOf(t.upstream[i]); tag in t.table && t.table[tag] == t.upstream[i] && t.upstream[i] !in t.stale
    {
      assert EntryOk(s, i);
    }
    forall id | id in TableIds(t) ensures id in t.stale || id in UpstreamIds(t) {
      var g :| g in t.table && t.table[g] == id;
      assert RowOk(s, g);
      if id !in t.stale {
        var i :| 0 <= i < s.position && i < |s.upstream| && s.tagOf(s.upstream[i]) == g;
        assert EntryOk(s, i);
      }
    }
    forall id | id in t.removals ensures id in TableIds(t) { assert s.table[s.tagOf(id)] == id; }
  }

  lemma LocateKeeps(s: State, t: State, id: Id)
    requires Basic(s) && DeleteInv(s) && Locate(s, t, id)
    ensures DeleteInv(t)
  {
    assert TableIds(t) == TableIds(s) && UpstreamIds(t) == UpstreamIds(s);
  }

  lemma RemoveKeeps(s: State, t: State, id: Id)
    requires Basic(s) && DeleteInv(s) && Remove(s, t, id)
    ensures DeleteInv(t)
  {
    assert UpstreamIds(t) == UpstreamIds(s);
    forall x | x in TableIds(s) && x != id ensures x in TableIds(t) {
      var g :| g in s.table && s.table[g] == x;
      assert g in t.table && t.table[g] == x;
    }
    assert TableIds(t) == TableIds(s) - {id};
  }

  lemma SyncingKeeps(s: State, t: State)
    requires Basic(s) && SyncInv(s) && InjectiveUpstream(s)
    requires Filter(s, t) || FilterCount(s, t) || exists i :: JobStep(s, t, i)
    ensures SyncInv(t)
  {
    if Filter(s, t) {
      FilterKeeps(s, t);
    } else if FilterCount(s, t) {
      CounterOnly(s, t);
    } else {
      var i :| JobStep(s, t, i);
      if Store(s, t, i) { StoreKeeps(s, t, i); } else { JobKeeps(s, t, i); }
    }
  }

  lemma DeletingKeeps(s: State, t: State)
    requires Basic(s) && DeleteInv(s) && exists id :: Locate(s, t, id) || Remove(s, t, id)
    ensures DeleteInv(t)
  {
    var id :| Locate(s, t, id) || Remove(s, t, id);
    if Locate(s, t, id) { LocateKeeps(s, t, id); } else { RemoveKeeps(s, t, id); }
  }

  /** A change of phase or counter alone. */
  lemma CounterOnly(s: State, t: State)
    requires t == s.(phase := t.phase, synced := t.synced, reading := t.reading, lost := t.lost)
    ensures SyncInv(s) ==> SyncInv(t)
    ensures DeleteInv(s) ==> DeleteInv(t)
  {
    if SyncInv(s) {
      forall i | 0 <= i < t.position && i < |t.upstream| ensures EntryOk(t, i) { assert EntryOk(s, i); }
      forall g | g in t.table ensures RowOk(t, g) { assert RowOk(s, g); }
    }
    assert TableIds(t) == TableIds(s) && UpstreamIds(t) == UpstreamIds(s);
  }

  lemma PhaseStepKept(s: State, t: State)
    requires Basic(s) && PhaseInv(s) && PhaseStep(s, t)
    ensures PhaseInv(t)
  {
    if Abort(s, t) || FinishSync(s, t) {
      CounterOnly(s, t);
    } else if StartDeleting(s, t) {
      StartKeeps(s, t);
    } else {
      DeletingKeeps(s, t);
    }
  }

  lemma FetchStepKept(s: State, t: State)
    requires Basic(s) && PhaseInv(s) && InjectiveUpstream(s)
    requires Filter(s, t) || FilterCount(s, t) || exists i :: JobStep(s, t, i)
    ensures PhaseInv(t)
  {
    assert Fetching(s) && Fetching(t);
    SyncingKeeps(s, t);
  }

  lemma StepKeeps(s: State, t: State)
    requires Inv(s) && Next(s, t)
    ensures Inv(t)
  {
    BasicKept(s, t);
    assert InjectiveUpstream(t) <==> InjectiveUpstream(s);
    if InjectiveUpstream(s) {
      if PhaseStep(s, t) { PhaseStepKept(s, t); } else { FetchStepKept(s, t); }
    }
  }

  lemma InvHolds(run: seq<State>)
    requires Runs.IsRun(Init, Next, run)
    ensures forall i :: 0 <= i < |run| ==> Inv(run[i])
  {
    forall s | Init(s) ensures Inv(s) {
      assert Unfinished(s) == {};
      forall t | t in s.table ensures RowOk(s, t) { assert s.table[t] in TableIds(s); }
    }
    forall s, t | Inv(s) && Next(s, t) ensures Inv(t) { StepKeeps(s, t); }
    Runs.InductiveHolds(Init, Next, Inv, run);
  }
}
