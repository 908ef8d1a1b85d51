/** The mirrored database of MirroredDb under helpers of many threads at once.

    A helper takes a reference, opens, changes the table, drops its reference, pushes the whole file and closes; each
    of these is one step, and any number of threads take them in any order. Anyone may also close the database and
    remove its local file while nobody holds a reference. A row's key is computed from what its id is the digest of. */
module SharedDb {
  import opened Wrappers
  import M = MirroredDb
  import Runs

  type Thread = nat
  type Table = M.Table

  datatype Change = Put(row: M.Row) | Drop(id: string)

  /** Where a helper stands; a thread that runs none is not listed. `push` is whether it will mirror its change. */
  datatype Phase = Entered | Ready | Changed(push: bool) | Released(push: bool) | Closing

  /** `plain` is the table of all changes made so far. */
  datatype State = State(
    keyOf: string -> string, local: Option<Table>, bucket: Option<Table>, open: bool,
    threads: map<Thread, Phase>, plain: Table)

  function Pulled(s: State): Table { if s.bucket.Some? then s.bucket.value else map[] }

  function Shown(s: State): Table { if s.local.Some? then s.local.value else Pulled(s) }

  function ChangeOf(keyOf: string -> string, c: Change): M.Change {
    match c case Put(row) => M.Put(keyOf(row.id), row) case Drop(id) => M.DropId(id)
  }

  function After(keyOf: string -> string, t: Table, c: Change): Table { M.Changed(t, ChangeOf(keyOf, c)) }

  /** A removal is mirrored only if exactly one row went. */
  function Pushes(t: Table, c: Change): bool { c.Put? || |M.Affected(t, c.id)| == 1 }

  /** The id is that of this row and of no other. */
  ghost predicate OnlyRow(t: Table, id: string, k: string) {
    k in t && t[k].id == id && forall k' :: k' in t && t[k'].id == id ==> k' == k
  }

  lemma OneElement(keys: set<string>, k: string)
    requires k in keys
    ensures |keys| == 1 <==> keys == {k}
  {
    assert keys == {k} + (keys - {k});
    assert |keys| == 1 + |keys - {k}|;
  }

  /** A helper mirrors every row it puts, and a removal exactly if one row, and no other, had the id. */
  lemma PushesIff(t: Table, c: Change)
    ensures Pushes(t, c) <==> c.Put? || exists k :: OnlyRow(t, c.id, k)
  {
    if c.Drop? {
      var gone := M.Affected(t, c.id);
      forall k | k in gone ensures |gone| == 1 <==> OnlyRow(t, c.id, k) {
        OneElement(gone, k);
        if OnlyRow(t, c.id, k) { assert gone == {k}; }
        if gone == {k} {
          forall k' | k' in t && t[k'].id == c.id ensures k' == k { assert k' in gone; }
        }
      }
    }
  }

  ghost predicate Init(s: State) {
    s.local == None && s.bucket == None && !s.open && s.threads == map[] && s.plain == map[]
  }

  ghost predicate At(s: State, t: Thread, phase: Phase) { t in s.threads && s.threads[t] == phase }

  function Moved(s: State, t: Thread, phase: Phase): State { s.(threads := s.threads[t := phase]) }

  predicate HoldsReference(phase: Phase) { phase.Entered? || phase.Ready? || phase.Changed? }

  ghost predicate Unreferenced(s: State) { forall t :: t in s.threads ==> !HoldsReference(s.threads[t]) }

  ghost predicate Enter(s: State, u: State, t: Thread) { t !in s.threads && u == Moved(s, t, Entered) }

  ghost predicate Open(s: State, u: State, t: Thread) {
    && At(s, t, Entered)
    && u == Moved(s, t, Ready).(open := true, local := if s.open then s.local else Some(Shown(s)))
  }

  ghost predicate Alter(s: State, u: State, t: Thread, c: Change) {
    && At(s, t, Ready)
    && u == Moved(s, t, Changed(Pushes(Shown(s), c))).(
              local := Some(After(s.keyOf, Shown(s), c)), plain := After(s.keyOf, s.plain, c))
  }

  /** A reader, or a change that failed. */
  ghost predicate Look(s: State, u: State, t: Thread) { At(s, t, Ready) && u == Moved(s, t, Changed(false)) }

  ghost predicate Release(s: State, u: State, t: Thread) {
    t in s.threads && s.threads[t].Changed? && u == Moved(s, t, Released(s.threads[t].push))
  }

  /** The whole local file goes to the bucket; without a file an object without a row does. */
  function PushedBy(s: State, t: Thread): State {
    Moved(s, t, Closing).(bucket := if s.local.Some? then s.local else Some(map[]))
  }

  ghost predicate Push(s: State, u: State, t: Thread) { At(s, t, Released(true)) && u == PushedBy(s, t) }

  ghost predicate SkipPush(s: State, u: State, t: Thread) { At(s, t, Released(false)) && u == Moved(s, t, Closing) }

  ghost predicate Close(s: State, u: State, t: Thread) {
    && At(s, t, Closing)
    && u == s.(threads := s.threads - {t}, open := s.open && !Unreferenced(s))
  }

  /** Close with removal of the local file. */
  ghost predicate Evict(s: State, u: State) {
    s.open && Unreferenced(s) && u == s.(open := false, local := None)
  }

  ghost predicate HelperStep(s: State, u: State, t: Thread) {
    || Enter(s, u, t) || Open(s, u, t) || (exists c :: Alter(s, u, t, c)) || Look(s, u, t) || Release(s, u, t)
    || Push(s, u, t) || SkipPush(s, u, t) || Close(s, u, t)
  }

  ghost predicate Helpers(s: State, u: State) { exists t :: HelperStep(s, u, t) }

  /** This thread has changed the table and will still push it. */
  ghost predicate Due(s: State, t: Thread) { At(s, t, Changed(true)) || At(s, t, Released(true)) }

  ghost predicate PushDue(s: State) { exists t :: Due(s, t) }

  /** No push is due, or there is nothing to lose. */
  ghost predicate MayEvict(s: State) { !PushDue(s) || (s.plain == map[] && Pulled(s) == map[]) }

  /** The guarded steps: the local file is removed only when no push is due, or every table is empty. */
  ghost predicate Next(s: State, u: State) { Helpers(s, u) || (MayEvict(s) && Evict(s, u)) }

  // ----- the invariant -----

  ghost predicate Keyed(s: State) { forall k :: k in s.plain ==> s.keyOf(s.plain[k].id) == k }

  ghost predicate Inv(s: State) {
    && Keyed(s) && Shown(s) == s.plain
    && (s.open ==> s.local.Some?)
    && (forall t :: t in s.threads && (s.threads[t].Ready? || s.threads[t].Changed?) ==> s.open)
    && (PushDue(s) && s.local.None? ==> s.plain == map[])
    && (!PushDue(s) ==> Pulled(s) == s.plain)
  }

  /** An id names at most one row, so a removal that is not mirrored removed nothing. */
  lemma UnpushedChangesNothing(s: State, c: Change)
    requires Keyed(s) && !Pushes(s.plain, c)
    ensures After(s.keyOf, s.plain, c) == s.plain
  {
    var gone := M.Affected(s.plain, c.id);
    forall k | k in gone ensures gone == {k} {
      forall k' | k' in gone ensures k' == k {}
    }
  }

  lemma AlterKeeps(s: State, u: State, t: Thread, c: Change)
    requires Inv(s) && Alter(s, u, t, c)
    ensures Inv(u)
  {
    if Pushes(s.plain, c) {
      assert Due(u, t);
    } else {
      UnpushedChangesNothing(s, c);
      forall x | Due(u, x) ensures Due(s, x) {}
      forall x | Due(s, x) ensures Due(u, x) {}
    }
  }

  lemma PushKeeps(s: State, u: State, t: Thread)
    requires Inv(s) && Push(s, u, t)
    ensures Inv(u)
  {
    assert Due(s, t);
  }

  /** A step that neither changes nor pushes. */
  lemma QuietKeeps(s: State, u: State, t: Thread)
    requires Inv(s)
    requires Enter(s, u, t) || Open(s, u, t) || Look(s, u, t) || Release(s, u, t) || SkipPush(s, u, t) || Close(s, u, t)
    ensures Inv(u)
  {
    forall x ensures Due(u, x) <==> Due(s, x) {}
    assert PushDue(u) <==> PushDue(s);
    if Close(s, u, t) {
      forall x | x in u.threads && (u.threads[x].Ready? || u.threads[x].Changed?) ensures u.open {
        assert HoldsReference(s.threads[x]);
      }
    }
  }

  lemma EvictKeeps(s: State, u: State)
    requires Inv(s) && MayEvict(s) && Evict(s, u)
    ensures Inv(u)
  {
    forall x ensures Due(u, x) <==> Due(s, x) {}
    assert PushDue(u) <==> PushDue(s);
    forall x | x in u.threads ensures !u.threads[x].Ready? && !u.threads[x].Changed? {
      assert !HoldsReference(s.threads[x]);
    }
  }

  lemma StepKeeps(s: State, u: State)
    requires Inv(s) && Next(s, u)
    ensures Inv(u)
  {
    if t :| HelperStep(s, u, t) {
      if c :| Alter(s, u, t, c) {
        AlterKeeps(s, u, t, c);
      } else if Push(s, u, t) {
        PushKeeps(s, u, t);
      } else {
        QuietKeeps(s, u, t);
      }
    } else {
      EvictKeeps(s, u);
    }
  }

  /** Durability under concurrency: in every interleaving of helpers, with the file removed at any time at which no
      push is due, readers always see all changes made so far, and so does a fresh pull whenever no push is due, in
      particular whenever no helper is running. */
  lemma ConcurrentRoundTrip(run: seq<State>, i: nat)
    requires Runs.IsRun(Init, Next, run) && i < |run|
    ensures Shown(run[i]) == run[i].plain
    ensures !PushDue(run[i]) ==> Pulled(run[i]) == run[i].plain
    ensures run[i].threads == map[] ==> Pulled(run[i]) == run[i].plain
  {
    forall s | Init(s) ensures Inv(s) { forall t ensures !Due(s, t) {} }
    forall s, u | Inv(s) && Next(s, u) ensures Inv(u) { StepKeeps(s, u); }
    Runs.InductiveHolds(Init, Next, Inv, run);
    assert Inv(run[i]);
    assert run[i].threads == map[] ==> forall t :: !Due(run[i], t);
  }
}
