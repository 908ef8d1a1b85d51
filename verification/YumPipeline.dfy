/** The event pipeline of a YUM repository handler: two mirrored tables per event, and an index that is published when
    a batch is done.

    An event changes the metadata table and the repository table, each mirrored before the next step, and is then
    removed from the event table. Only after the last event of a batch is the index generated from the metadata table
    and pushed. A crash may come between any two steps and keeps the bucket, and the index in the registry. Storing an
    event, and removing it, are one step each here; StaticPipeline takes those apart. */
module YumPipeline {
  import opened StaticTables
  import P = StaticPipeline
  import M = MirroredDb
  import Runs

  type Table = M.Table

  /** What an event does to the two tables. */
  datatype Effects = Effects(meta: (Event, Table) -> Table, repo: (Event, Table) -> Table)

  ghost predicate Idempotent(f: (Event, Table) -> Table) { forall e, t :: f(e, f(e, t)) == f(e, t) }

  /** Effects made of upserts by key and removals by id, as the handler's helpers do them, are idempotent. */
  lemma ChangesAreIdempotent(f: (Event, Table) -> Table, changeOf: Event -> M.Change)
    requires MadeOf(f, changeOf)
    ensures Idempotent(f)
  {
    forall e, t ensures M.Changed(M.Changed(t, changeOf(e)), changeOf(e)) == M.Changed(t, changeOf(e)) {
      var c := changeOf(e);
      if c.DropId? {
        assert M.Affected(t - M.Affected(t, c.id), c.id) == {};
      }
    }
  }

  /** Where the run loop stands with the head of the rest of its batch. */
  datatype Consumer =
    | Waiting | Loop(batch: seq<Event>)
    | MetaChanged(batch: seq<Event>) | MetaMirrored(batch: seq<Event>)
    | RepoChanged(batch: seq<Event>) | RepoMirrored(batch: seq<Event>)

  /** `stored` is the event table, `published` the metadata the index was last generated from. */
  datatype State = State(
    fx: Effects, accepted: seq<Event>, stored: seq<Event>, queue: seq<Event>, consumer: Consumer,
    metaLocal: Table, metaBucket: Table, repoLocal: Table, repoBucket: Table, published: Table)

  ghost predicate Init(s: State) {
    && Idempotent(s.fx.meta) && Idempotent(s.fx.repo)
    && s == State(s.fx, [], [], [], Waiting, map[], map[], map[], map[], map[])
  }

  /** An event is stored and queued; its id is not in the table yet. */
  ghost predicate Accept(s: State, t: State, e: Event) {
    && e.Id() !in Ids(s.stored)
    && t == s.(accepted := s.accepted + [e], stored := s.stored + [e], queue := s.queue + [e])
  }

  ghost predicate Dequeue(s: State, t: State) {
    s.consumer.Waiting? && s.queue != [] && t == s.(queue := [], consumer := Loop(s.queue))
  }

  ghost predicate Skip(s: State, t: State) {
    && s.consumer.Loop? && s.consumer.batch != [] && s.consumer.batch[0].Malformed()
    && t == s.(consumer := Loop(s.consumer.batch[1..]))
  }

  ghost predicate ChangeMeta(s: State, t: State) {
    && s.consumer.Loop? && s.consumer.batch != [] && !s.consumer.batch[0].Malformed()
    && t == s.(metaLocal := s.fx.meta(s.consumer.batch[0], s.metaLocal), consumer := MetaChanged(s.consumer.batch))
  }

  ghost predicate MirrorMeta(s: State, t: State) {
    s.consumer.MetaChanged? && t == s.(metaBucket := s.metaLocal, consumer := MetaMirrored(s.consumer.batch))
  }

  ghost predicate ChangeRepo(s: State, t: State) {
    && s.consumer.MetaMirrored? && s.consumer.batch != []
    && t == s.(repoLocal := s.fx.repo(s.consumer.batch[0], s.repoLocal), consumer := RepoChanged(s.consumer.batch))
  }

  ghost predicate MirrorRepo(s: State, t: State) {
    s.consumer.RepoChanged? && t == s.(repoBucket := s.repoLocal, consumer := RepoMirrored(s.consumer.batch))
  }

  ghost predicate Remove(s: State, t: State) {
    && s.consumer.RepoMirrored? && s.consumer.batch != []
    && t == s.(stored := DeleteEvent(s.stored, s.consumer.batch[0].Id()), consumer := Loop(s.consumer.batch[1..]))
  }

  /** The batch is done: the index is generated from the metadata table and pushed. */
  ghost predicate PublishIndex(s: State, t: State) {
    s.consumer == Loop([]) && t == s.(published := s.metaLocal, consumer := Waiting)
  }

  ghost predicate Crash(s: State, t: State) {
    t == s.(metaLocal := s.metaBucket, repoLocal := s.repoBucket, queue := s.stored, consumer := Waiting)
  }

  ghost predicate Work(s: State, t: State) {
    || Dequeue(s, t) || Skip(s, t) || ChangeMeta(s, t) || MirrorMeta(s, t) || ChangeRepo(s, t) || MirrorRepo(s, t)
    || Remove(s, t) || PublishIndex(s, t)
  }

  ghost predicate Next(s: State, t: State) { (exists e :: Accept(s, t, e)) || Work(s, t) || Crash(s, t) }

  ghost predicate Quiescent(s: State) { s.consumer.Waiting? && s.queue == [] }

  // ----- the two tables -----

  /** Every event that parses applied once, in order. */
  function Fold(f: (Event, Table) -> Table, events: seq<Event>): Table {
    if events == [] then map[]
    else
      var front, e := Fold(f, events[..|events| - 1]), events[|events| - 1];
      if e.Malformed() then front else f(e, front)
  }

  lemma FoldNext(f: (Event, Table) -> Table, events: seq<Event>, d: nat)
    requires d < |events|
    ensures Fold(f, events[..d + 1])
            == if events[d].Malformed() then Fold(f, events[..d]) else f(events[d], Fold(f, events[..d]))
    ensures MalformedOf(events[..d + 1]) == MalformedOf(events[..d]) + if events[d].Malformed() then [events[d]] else []
  {
    assert events[..d + 1][..d] == events[..d];
  }

  function Held(c: Consumer): seq<Event> { if c.Waiting? then [] else c.batch }

  ghost function ToDo(s: State): seq<Event> { Held(s.consumer) + s.queue }

  /** A table is where the first d events left it, or already past the next one. */
  ghost predicate Near(f: (Event, Table) -> Table, events: seq<Event>, d: nat, t: Table)
    requires d <= |events|
  {
    t == Fold(f, events[..d]) || (d < |events| && t == Fold(f, events[..d + 1]))
  }

  /** The head has been applied to this table. */
  ghost predicate Past(f: (Event, Table) -> Table, events: seq<Event>, d: nat, t: Table) {
    d < |events| && t == Fold(f, events[..d + 1])
  }

  ghost predicate TablesOk(s: State, d: nat)
    requires d <= |s.accepted|
  {
    var meta, repo := s.fx.meta, s.fx.repo;
    && Near(meta, s.accepted, d, s.metaBucket) && Near(repo, s.accepted, d, s.repoBucket)
    && match s.consumer
       case Waiting => s.metaLocal == s.metaBucket && s.repoLocal == s.repoBucket
       case Loop(_) => s.metaLocal == s.metaBucket && s.repoLocal == s.repoBucket
       case MetaChanged(_) => Past(meta, s.accepted, d, s.metaLocal) && s.repoLocal == s.repoBucket
       case MetaMirrored(_) =>
         Past(meta, s.accepted, d, s.metaLocal) && s.metaLocal == s.metaBucket && s.repoLocal == s.repoBucket
       case RepoChanged(_) =>
         && Past(meta, s.accepted, d, s.metaLocal) && s.metaLocal == s.metaBucket
         && Past(repo, s.accepted, d, s.repoLocal)
       case RepoMirrored(_) =>
         && Past(meta, s.accepted, d, s.metaLocal) && s.metaLocal == s.metaBucket
         && Past(repo, s.accepted, d, s.repoLocal) && s.repoLocal == s.repoBucket
  }

  ghost predicate HeadOk(s: State) {
    s.consumer.Waiting? || s.consumer.Loop? || (s.consumer.batch != [] && !s.consumer.batch[0].Malformed())
  }

  ghost predicate InvAt(s: State, d: nat) {
    && Idempotent(s.fx.meta) && Idempotent(s.fx.repo)
    && d <= |s.accepted| && DistinctIds(s.stored)
    && s.stored == MalformedOf(s.accepted[..d]) + s.accepted[d..]
    && P.WorkFrom(ToDo(s), s.accepted, d) && HeadOk(s) && TablesOk(s, d)
  }

  ghost predicate Inv(s: State) { exists d: nat :: InvAt(s, d) }

  lemma AcceptKeeps(s: State, t: State, d: nat, e: Event)
    requires InvAt(s, d) && Accept(s, t, e)
    ensures InvAt(t, d)
  {
    P.AppendDistinct(s.stored, e);
    P.WorkGrows(ToDo(s), s.accepted, d, [e]);
    assert ToDo(t) == ToDo(s) + [e];
    assert t.accepted[..d] == s.accepted[..d] && t.accepted[d..] == s.accepted[d..] + [e];
    assert d < |s.accepted| ==> t.accepted[..d + 1] == s.accepted[..d + 1];
  }

  lemma CrashKeeps(s: State, t: State, d: nat)
    requires InvAt(s, d) && Crash(s, t)
    ensures InvAt(t, d)
  {
    var bad := MalformedOf(s.accepted[..d]);
    MalformedOfAll(s.accepted[..d]);
    assert ToDo(t) == bad + s.accepted[d..];
    assert (bad + s.accepted[d..])[|bad|..] == s.accepted[d..];
    forall i | 0 <= i < |bad| ensures (bad + s.accepted[d..])[i].Malformed() { assert bad[i] in bad; }
  }

  /** The head of a batch whose event parses is the first event that is not dealt with. */
  lemma HeadIsNext(s: State, d: nat)
    requires InvAt(s, d) && !s.consumer.Waiting? && s.consumer.batch != [] && !s.consumer.batch[0].Malformed()
    ensures d < |s.accepted| && s.consumer.batch[0] == s.accepted[d] && ToDo(s) == s.accepted[d..]
  {
    P.WorkHead(ToDo(s), s.accepted, d);
    assert ToDo(s)[0] == s.consumer.batch[0];
  }

  /** Applying the head, perhaps once more, gets past it. */
  lemma ApplyGetsPast(f: (Event, Table) -> Table, events: seq<Event>, d: nat, t: Table)
    requires Idempotent(f) && d < |events| && !events[d].Malformed() && Near(f, events, d, t)
    ensures Past(f, events, d, f(events[d], t))
  {
    FoldNext(f, events, d);
  }

  lemma ChangeKeeps(s: State, t: State, d: nat)
    requires InvAt(s, d) && (ChangeMeta(s, t) || MirrorMeta(s, t) || ChangeRepo(s, t) || MirrorRepo(s, t))
    ensures InvAt(t, d)
  {
    HeadIsNext(s, d);
    assert ToDo(t) == ToDo(s);
    if ChangeMeta(s, t) { ApplyGetsPast(s.fx.meta, s.accepted, d, s.metaLocal); }
    if ChangeRepo(s, t) { ApplyGetsPast(s.fx.repo, s.accepted, d, s.repoLocal); }
  }

  /** The row of the first event that is not dealt with, once it is removed. */
  lemma RemoveRow(accepted: seq<Event>, d: nat, stored: seq<Event>)
    requires d < |accepted| && !accepted[d].Malformed() && DistinctIds(stored)
    requires stored == MalformedOf(accepted[..d]) + accepted[d..]
    ensures DeleteEvent(stored, accepted[d].Id()) == MalformedOf(accepted[..d + 1]) + accepted[d + 1..]
    ensures DistinctIds(DeleteEvent(stored, accepted[d].Id()))
  {
    var e, before, after := accepted[d], MalformedOf(accepted[..d]), accepted[d + 1..];
    assert accepted[..d + 1][..d] == accepted[..d];
    assert accepted[d..] == [e] + after;
    assert stored == before + [e] + after;
    DeleteAt(before, e, after);
  }

  lemma RemoveWork(s: State, t: State, d: nat)
    requires Remove(s, t) && d < |s.accepted| && ToDo(s) == s.accepted[d..]
    ensures P.WorkFrom(ToDo(t), s.accepted, d + 1)
  {
    assert ToDo(t) == ToDo(s)[1..] == s.accepted[d + 1..];
    assert ToDo(t)[0..] == ToDo(t);
  }

  lemma RemoveKeeps(s: State, t: State, d: nat)
    requires InvAt(s, d) && Remove(s, t)
    ensures InvAt(t, d + 1)
  {
    HeadIsNext(s, d);
    RemoveRow(s.accepted, d, s.stored);
    RemoveWork(s, t, d);
    assert TablesOk(t, d + 1);
  }

  lemma SkipKeeps(s: State, t: State, d: nat) returns (d': nat)
    requires InvAt(s, d) && Skip(s, t)
    ensures InvAt(t, d')
  {
    P.WorkHead(ToDo(s), s.accepted, d);
    assert ToDo(t) == ToDo(s)[1..] && ToDo(s)[0] == s.consumer.batch[0];
    d' := d;
    if |ToDo(s)| == |s.accepted| - d {
      d' := d + 1;
      FoldNext(s.fx.meta, s.accepted, d);
      FoldNext(s.fx.repo, s.accepted, d);
      assert s.accepted[d..] == [s.accepted[d]] + s.accepted[d + 1..];
    }
  }

  lemma StepKeeps(s: State, t: State)
    requires Inv(s) && Next(s, t)
    ensures Inv(t)
  {
    var d: nat :| InvAt(s, d);
    if e :| Accept(s, t, e) {
      AcceptKeeps(s, t, d, e);
    } else if Crash(s, t) {
      CrashKeeps(s, t, d);
    } else if Skip(s, t) {
      var d' := SkipKeeps(s, t, d);
    } else if Remove(s, t) {
      RemoveKeeps(s, t, d);
    } else if Dequeue(s, t) || PublishIndex(s, t) {
      assert ToDo(t) == ToDo(s);
      assert InvAt(t, d);
    } else {
      ChangeKeeps(s, t, d);
    }
  }

  lemma InitInv(s: State)
    requires Init(s)
    ensures InvAt(s, 0)
  {
    assert s.accepted[..0] == [] && s.accepted[0..] == [] && ToDo(s) == [];
  }

  lemma InvHolds(run: seq<State>)
    requires Runs.IsRun(Init, Next, run)
    ensures forall i :: 0 <= i < |run| ==> Inv(run[i])
  {
    forall s | Init(s) ensures Inv(s) { InitInv(s); }
    forall s, t | Inv(s) && Next(s, t) ensures Inv(t) { StepKeeps(s, t); }
    Runs.InductiveHolds(Init, Next, Inv, run);
  }

  /** Crash consistency of both tables: whatever the interleaving and however many crashes, once nothing is left to do
      each table, here and in the bucket, is every accepted event that parses applied exactly once, in order. */
  lemma BothTablesConsistent(run: seq<State>)
    requires Runs.IsRun(Init, Next, run) && Quiescent(run[|run| - 1])
    ensures var s := run[|run| - 1];
            && s.metaLocal == s.metaBucket == Fold(s.fx.meta, s.accepted)
            && s.repoLocal == s.repoBucket == Fold(s.fx.repo, s.accepted)
            && s.stored == MalformedOf(s.accepted)
  {
    InvHolds(run);
    var s := run[|run| - 1];
    assert Inv(s);
    var d: nat :| InvAt(s, d);
    assert ToDo(s) == [] && d == |s.accepted|;
    NothingLeft(s.fx.meta, s.accepted);
    NothingLeft(s.fx.repo, s.accepted);
  }

  lemma NothingLeft(f: (Event, Table) -> Table, events: seq<Event>)
    ensures Fold(f, events[..|events|]) == Fold(f, events)
    ensures MalformedOf(events[..|events|]) + events[|events|..] == MalformedOf(events)
  {
    assert events[..|events|] == events && events[|events|..] == [];
  }

  ghost predicate MadeOf(f: (Event, Table) -> Table, changeOf: Event -> M.Change) {
    forall e, t :: f(e, t) == M.Changed(t, changeOf(e))
  }

  /** The changes of the events that parse. */
  function ChangesOf(changeOf: Event -> M.Change, events: seq<Event>): seq<M.Change> {
    seq(|events|, i requires 0 <= i < |events| => if events[i].Malformed() then M.Nothing else changeOf(events[i]))
  }

  lemma {:induction false} FoldIsAfterAll(f: (Event, Table) -> Table, changeOf: Event -> M.Change, events: seq<Event>)
    requires MadeOf(f, changeOf)
    ensures Fold(f, events) == M.AfterAll(ChangesOf(changeOf, events))
  {
    if events != [] {
      FoldIsAfterAll(f, changeOf, events[..|events| - 1]);
      assert ChangesOf(changeOf, events)[..|events| - 1] == ChangesOf(changeOf, events[..|events| - 1]);
    }
  }

  /** The tables in terms of the events alone: for a table whose effects are upserts and removals, a row is in the
      bucket, once nothing is left to do, exactly if an accepted event put it and no later one put another under its
      key or removed it. */
  lemma MetadataMeans(run: seq<State>, changeOf: Event -> M.Change, key: string, row: M.Row)
    requires Runs.IsRun(Init, Next, run) && Quiescent(run[|run| - 1])
    requires MadeOf(run[|run| - 1].fx.meta, changeOf)
    ensures var s := run[|run| - 1];
            var changes := ChangesOf(changeOf, s.accepted);
            (key in s.metaBucket && s.metaBucket[key] == row) <==>
            exists i: nat :: M.Stands(changes, key, i) && changes[i].row == row
  {
    BothTablesConsistent(run);
    var s := run[|run| - 1];
    FoldIsAfterAll(s.fx.meta, changeOf, s.accepted);
    M.RowMeans(ChangesOf(changeOf, s.accepted), key, row);
  }
}
