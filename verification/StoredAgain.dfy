/** What happens when an id is stored again while its row is still pending, and exactly when it does no harm.

    The pipeline is that of StaticPipeline without its caller's duty: any event of a given family may be stored at any
    time. */
module StoredAgain {
  import opened Wrappers
  import opened StaticTables
  import opened StaticPipeline
  import opened StaticHandler
  import Runs

  /** The steps of the pipeline when events of `u` are stored at will. */
  ghost predicate NextOver(u: iset<Event>, s: State, t: State) {
    (exists e :: e in u && AddEvent(s, t, e)) || InternalStep(s, t) || Restart(s, t)
  }

  ghost predicate IsRunOver(u: iset<Event>, run: seq<State>) {
    Runs.IsRun(Init, (s: State, t: State) => NextOver(u, s, t), run)
  }

  /** The law of the pipeline: however the run went, once nothing is left to do the bucket holds the accepted events
      applied in order. */
  ghost predicate Lawful(u: iset<Event>) {
    forall run: seq<State> :: IsRunOver(u, run) && Quiescent(run[|run| - 1]) ==>
      run[|run| - 1].repoBucket == ApplyAll(run[|run| - 1].accepted)
  }

  /** An id is the digest of the manifest, with the action: it tells events apart. */
  ghost predicate IdsTell(u: iset<Event>) { forall a, b :: a in u && b in u && a.Id() == b.Id() ==> a == b }

  predicate IsPut(e: Event) { Target(e).Some? && e.action.Put? }

  function RowOf(e: Event): Row
    requires Target(e).Some?
  {
    Row(Target(e).value.hex, Target(e).value.name, Target(e).value.size)
  }

  /** Two events that leave one file in different states. */
  predicate Conflict(a: Event, b: Event) {
    && Target(a).Some? && Target(b).Some? && Target(a).value.tag == Target(b).value.tag
    && (a.action != b.action || (a.action.Put? && RowOf(a) != RowOf(b)))
  }

  ghost predicate Agree(u: iset<Event>) { forall a, b :: a in u && b in u ==> !Conflict(a, b) }

  // ----- without conflicts the order does not matter -----

  ghost predicate Within(events: seq<Event>, u: iset<Event>) { forall e :: e in events ==> e in u }

  /** The repository holds nothing but rows that some of the events put, and nothing was ever overwritten or removed. */
  ghost predicate FilledFrom(repo: Repo, events: seq<Event>) {
    && repo.history == []
    && forall tag :: tag in repo.files ==>
         exists e :: e in events && IsPut(e) && Target(e).value.tag == tag && repo.files[tag] == RowOf(e)
  }

  /** One effect adds the event's row if it is a Put, and changes nothing else. */
  lemma EffectFills(u: iset<Event>, e: Event, repo: Repo, events: seq<Event>)
    requires Agree(u) && Within(events, u) && e in events && FilledFrom(repo, events)
    ensures FilledFrom(Effect(e, repo), events)
    ensures Effect(e, repo).files.Keys == repo.files.Keys + if IsPut(e) then {Target(e).value.tag} else {}
  {
    if Target(e).Some? && Target(e).value.tag in repo.files {
      var tag := Target(e).value.tag;
      var f :| f in events && IsPut(f) && Target(f).value.tag == tag && repo.files[tag] == RowOf(f);
      assert !Conflict(e, f);
    }
  }

  lemma FilledMore(repo: Repo, events: seq<Event>, more: seq<Event>)
    requires FilledFrom(repo, events) && events <= more
    ensures FilledFrom(repo, more)
  {
    forall tag | tag in repo.files
      ensures exists e :: e in more && IsPut(e) && Target(e).value.tag == tag && repo.files[tag] == RowOf(e)
    {
      var e :| e in events && IsPut(e) && Target(e).value.tag == tag && repo.files[tag] == RowOf(e);
      assert e in more;
    }
  }

  ghost predicate AllPut(repo: Repo, events: seq<Event>) {
    forall e :: e in events && IsPut(e) ==> Target(e).value.tag in repo.files
  }

  lemma {:induction false} ApplyAllFills(u: iset<Event>, events: seq<Event>)
    requires Agree(u) && Within(events, u)
    ensures FilledFrom(ApplyAll(events), events) && AllPut(ApplyAll(events), events)
  {
    if events != [] {
      var front, e := events[..|events| - 1], events[|events| - 1];
      ApplyAllFills(u, front);
      FilledMore(ApplyAll(front), front, events);
      EffectFills(u, e, ApplyAll(front), events);
      assert events == front + [e];
    }
  }

  /** A repository filled from agreeing events, with none missing, is determined by them. */
  lemma FilledIsUnique(u: iset<Event>, events: seq<Event>, a: Repo, b: Repo)
    requires Agree(u) && Within(events, u)
    requires FilledFrom(a, events) && FilledFrom(b, events) && AllPut(a, events) && AllPut(b, events)
    ensures a == b
  {
    forall tag ensures tag in a.files <==> tag in b.files {}
    forall tag | tag in a.files && tag in b.files ensures a.files[tag] == b.files[tag] {
      var e :| e in events && IsPut(e) && Target(e).value.tag == tag && a.files[tag] == RowOf(e);
      var f :| f in events && IsPut(f) && Target(f).value.tag == tag && b.files[tag] == RowOf(f);
      assert !Conflict(e, f);
    }
    assert a.files == b.files;
  }

  // ----- the tables as sets -----

  lemma {:induction false} UpsertMembers(u: iset<Event>, rows: seq<Event>, e: Event)
    requires IdsTell(u) && Within(rows, u) && e in u
    ensures forall x :: x in UpsertEvent(rows, e) <==> x in rows || x == e
  {
    if rows != [] {
      assert rows == [rows[0]] + rows[1..];
      assert rows[0] in u;
      if rows[0].Id() != e.Id() { UpsertMembers(u, rows[1..], e); }
    }
  }

  lemma {:induction false} DeleteMembers(rows: seq<Event>, id: (string, Action))
    ensures forall x :: x in DeleteEvent(rows, id) <==> x in rows && x.Id() != id
  {
    if rows != [] {
      assert rows == [rows[0]] + rows[1..];
      DeleteMembers(rows[1..], id);
    }
  }

  function Batch(c: Consumer): seq<Event> { if c.Waiting? then [] else c.batch }

  // ----- the invariant -----

  /** Only events of the family are about, and all but the one in flight are accepted. */
  ghost predicate Known(u: iset<Event>, s: State) {
    && Within(s.accepted, u) && (!s.producer.Idle? ==> s.producer.e in u)
    && (forall e :: e in s.statusBucket || e in s.queue || e in Batch(s.consumer) || e in Unqueued(s) ==>
          e in s.accepted)
    && (forall e :: e in s.statusLocal ==> e in s.accepted || e in Inflight(s))
  }

  /** A Put that the bucket's repository lacks. */
  ghost predicate Owed(s: State, e: Event) { IsPut(e) && Target(e).value.tag !in s.repoBucket.files }

  /** An accepted event is owed only as long as it is still in both event tables and still to be processed. */
  ghost predicate OwedOk(s: State) {
    && (forall e :: e in s.accepted && Owed(s, e) ==> e in s.statusLocal && e in s.statusBucket && e in Work(s))
    && (forall e :: e in Inflight(s) && Owed(s, e) ==> e in s.statusLocal)
  }

  ghost predicate ReposOk(s: State) {
    && FilledFrom(s.repoLocal, s.accepted) && FilledFrom(s.repoBucket, s.accepted)
    && s.repoBucket.files.Keys <= s.repoLocal.files.Keys
  }

  /** Where the consumer stands with its head. */
  ghost predicate HeadOk(s: State) {
    match s.consumer
    case Applied(batch, dirty) =>
      batch != [] && (IsPut(batch[0]) ==> dirty && Target(batch[0]).value.tag in s.repoLocal.files)
    case Finished(batch) => batch != [] && !Owed(s, batch[0])
    case Dropped(batch, _) => batch != [] && !Owed(s, batch[0])
    case _ => true
  }

  ghost predicate Inv(u: iset<Event>, s: State) { Known(u, s) && OwedOk(s) && ReposOk(s) && HeadOk(s) }

  lemma InWork(s: State, e: Event)
    ensures e in Work(s) <==> e in Held(s.consumer) || e in s.queue || e in Unqueued(s)
  {
  }

  lemma AddKeeps(u: iset<Event>, s: State, t: State, e: Event)
    requires IdsTell(u) && Inv(u, s) && e in u && AddEvent(s, t, e)
    ensures Inv(u, t)
  {
    assert Within(s.statusLocal, u) by { assert Inflight(s) == []; }
    UpsertMembers(u, s.statusLocal, e);
    assert Work(t) == Work(s);
  }

  /** A push of the event table, with the acceptance it brings. */
  lemma PushKeeps(u: iset<Event>, s: State, t: State)
    requires Inv(u, s) && t == PushStatus(s)
    ensures Inv(u, t)
  {
    PushMoves(s, t);
    FilledMore(s.repoLocal, s.accepted, t.accepted);
    FilledMore(s.repoBucket, s.accepted, t.accepted);
    forall e ensures (e in t.accepted <==> e in s.accepted || e in Inflight(s))
                     && (e in Work(t) <==> e in Work(s) || e in Inflight(s)) {}
  }

  lemma ProducerKeeps(u: iset<Event>, s: State, t: State)
    requires Inv(u, s)
    requires Enqueue(s, t) || (s.producer.Added? && s.producer.durable && t == s.(producer := Stored(s.producer.e)))
    ensures Inv(u, t)
  {
    forall e ensures e in Work(t) <==> e in Work(s) {
      InWork(s, e);
      InWork(t, e);
    }
  }

  lemma RestartKeeps(u: iset<Event>, s: State, t: State)
    requires Inv(u, s) && Restart(s, t)
    ensures Inv(u, t)
  {
    assert Work(t) == s.statusBucket;
  }

  lemma BatchKeeps(u: iset<Event>, s: State, t: State)
    requires Inv(u, s) && (Dequeue(s, t) || EndBatch(s, t) || Skip(s, t))
    ensures Inv(u, t)
  {
    forall e | e in Work(s) && IsPut(e) ensures e in Work(t) {
      InWork(s, e);
      InWork(t, e);
    }
    if Skip(s, t) { assert forall e :: e in s.consumer.batch[1..] ==> e in s.consumer.batch; }
  }

  lemma ApplyKeeps(u: iset<Event>, s: State, t: State)
    requires Agree(u) && Inv(u, s) && Apply(s, t)
    ensures Inv(u, t)
  {
    var e := s.consumer.batch[0];
    assert e in Batch(s.consumer);
    EffectFills(u, e, s.repoLocal, s.accepted);
    assert Work(t) == Work(s);
  }

  lemma PushRepoKeeps(u: iset<Event>, s: State, t: State)
    requires Inv(u, s) && PushRepo(s, t)
    ensures Inv(u, t)
  {
    assert Work(t) == Work(s);
  }

  lemma RemoveKeeps(u: iset<Event>, s: State, t: State)
    requires IdsTell(u) && Inv(u, s) && RemoveEvent(s, t)
    ensures Inv(u, t)
  {
    var head := s.consumer.batch[0];
    assert head in Batch(s.consumer);
    DeleteMembers(s.statusLocal, head.Id());
    forall e | e in u && Owed(s, e) ensures e.Id() != head.Id() {}
    forall e | e in Work(s) && e != head ensures e in Work(t) {
      InWork(s, e);
      InWork(t, e);
    }
  }

  lemma NextKeeps(u: iset<Event>, s: State, t: State)
    requires Inv(u, s) && s.consumer.Dropped? && t == s.(consumer := Loop(s.consumer.batch[1..]))
    ensures Inv(u, t)
  {
    assert Work(t) == Work(s);
    assert forall e :: e in s.consumer.batch[1..] ==> e in s.consumer.batch;
  }

  lemma PushRemovalKeeps(u: iset<Event>, s: State, t: State)
    requires Inv(u, s) && PushRemoval(s, t)
    ensures Inv(u, t)
  {
    if s.consumer.found {
      PushKeeps(u, s, PushStatus(s));
      NextKeeps(u, PushStatus(s), t);
    } else {
      NextKeeps(u, s, t);
    }
  }

  lemma StepKeeps(u: iset<Event>, s: State, t: State)
    requires IdsTell(u) && Agree(u) && Inv(u, s) && NextOver(u, s, t)
    ensures Inv(u, t)
  {
    if Restart(s, t) {
      RestartKeeps(u, s, t);
    } else if e :| e in u && AddEvent(s, t, e) {
      AddKeeps(u, s, t, e);
    } else if StoreEvent(s, t) {
      PushKeeps(u, s, PushStatus(s));
      ProducerKeeps(u, PushStatus(s), t);
    } else if Enqueue(s, t) {
      ProducerKeeps(u, s, t);
    } else {
      match s.consumer
      case Waiting => BatchKeeps(u, s, t);
      case Loop(batch) => if batch == [] || batch[0].Malformed() { BatchKeeps(u, s, t); } else { ApplyKeeps(u, s, t); }
      case Applied(_, _) => PushRepoKeeps(u, s, t);
      case Finished(_) => RemoveKeeps(u, s, t);
      case Dropped(_, _) => PushRemovalKeeps(u, s, t);
    }
  }

  lemma InvHolds(u: iset<Event>, run: seq<State>)
    requires IdsTell(u) && Agree(u) && IsRunOver(u, run)
    ensures forall i :: 0 <= i < |run| ==> Inv(u, run[i])
  {
    var next, inv := (s: State, t: State) => NextOver(u, s, t), (s: State) => Inv(u, s);
    forall s, t | inv(s) && next(s, t) ensures inv(t) { StepKeeps(u, s, t); }
    Runs.InductiveHolds(Init, next, inv, run);
    forall i | 0 <= i < |run| ensures Inv(u, run[i]) { assert inv(run[i]); }
  }

  /** Over an agreeing family nothing accepted is ever forgotten: at every moment of every run, an accepted upload
      whose file the bucket lacks is still in the event table, here and in the bucket, and still to be processed. */
  lemma OwedIsPending(u: iset<Event>, run: seq<State>, i: nat, e: Event)
    requires IdsTell(u) && Agree(u) && IsRunOver(u, run) && i < |run|
    requires e in run[i].accepted && IsPut(e) && Target(e).value.tag !in run[i].repoBucket.files
    ensures e in run[i].statusLocal && e in run[i].statusBucket && e in Work(run[i])
  {
    InvHolds(u, run);
    assert Owed(run[i], e) && Inv(u, run[i]);
  }

  lemma AgreeingIsLawful(u: iset<Event>, run: seq<State>)
    requires IdsTell(u) && Agree(u) && IsRunOver(u, run) && Quiescent(run[|run| - 1])
    ensures run[|run| - 1].repoBucket == ApplyAll(run[|run| - 1].accepted)
  {
    InvHolds(u, run);
    var last := run[|run| - 1];
    assert Inv(u, last) && Work(last) == [];
    ApplyAllFills(u, last.accepted);
    FilledIsUnique(u, last.accepted, last.repoBucket, ApplyAll(last.accepted));
  }

  // ----- with a conflict some run breaks the law -----

  /** The consumer is about to process a batch that is exactly the event table. */
  ghost predicate AtTable(s: State) {
    && s.consumer.Loop? && s.statusLocal == s.statusBucket == s.consumer.batch && s.producer.Idle?
    && DistinctIds(s.consumer.batch) && s.repoLocal == s.repoBucket
    && forall e :: e in s.consumer.batch ==> !e.Malformed()
  }

  /** The state after the head of such a batch. */
  function HeadDone(s: State): State
    requires s.consumer.Loop? && s.consumer.batch != []
  {
    var repo, rest := Effect(s.consumer.batch[0], s.repoLocal), s.consumer.batch[1..];
    s.(repoLocal := repo, repoBucket := repo, statusLocal := rest, statusBucket := rest, consumer := Loop(rest))
  }

  lemma HeadLeaves(rows: seq<Event>)
    requires rows != [] && DistinctIds(rows)
    ensures rows[0].Id() in Ids(rows) && DeleteEvent(rows, rows[0].Id()) == rows[1..]
  {
    assert rows == [] + [rows[0]] + rows[1..];
    DeleteAt([], rows[0], rows[1..]);
    assert [] + rows[1..] == rows[1..];
  }

  lemma HeadRuns(s: State)
    requires AtTable(s) && s.consumer.batch != []
    ensures Runs.Reaches(InternalStep, s, HeadDone(s))
  {
    var batch := s.consumer.batch;
    var e := batch[0];
    assert e in batch;
    HeadLeaves(batch);
    assert !Pushes(e, s.repoLocal) ==> Effect(e, s.repoLocal) == s.repoLocal;
    var applied := s.(repoLocal := Effect(e, s.repoLocal), consumer := Applied(batch, Pushes(e, s.repoLocal)));
    var finished := applied.(repoBucket := applied.repoLocal, consumer := Finished(batch));
    var dropped := finished.(statusLocal := batch[1..], consumer := Dropped(batch, true));
    Runs.ReachesSelf(InternalStep, s);
    StepThrough(s, s, applied, finished, dropped, HeadDone(s));
  }

  lemma HeadDoneAtTable(s: State)
    requires AtTable(s) && s.consumer.batch != []
    ensures AtTable(HeadDone(s))
  {
    var batch := s.consumer.batch;
    forall i, j | 0 <= i < j < |batch[1..]| ensures batch[1..][i].Id() != batch[1..][j].Id() {
      assert batch[1..][i] == batch[i + 1] && batch[1..][j] == batch[j + 1];
    }
    forall e | e in batch[1..] ensures e in batch {}
  }

  /** Such a batch runs to completion. */
  lemma {:induction false} TableRuns(s: State) returns (t: State)
    requires AtTable(s)
    ensures Runs.Reaches(InternalStep, s, t) && t.consumer == Loop([]) && t.producer.Idle? && t.queue == s.queue
    ensures t.repoBucket == ApplyFrom(s.repoLocal, s.consumer.batch) && t.accepted == s.accepted
    decreases |s.consumer.batch|
  {
    if s.consumer.batch == [] {
      t := s;
      Runs.ReachesSelf(InternalStep, s);
    } else {
      HeadRuns(s);
      HeadDoneAtTable(s);
      t := TableRuns(HeadDone(s));
      Runs.ReachesTrans(InternalStep, s, HeadDone(s), t);
    }
  }

  /** The state after one event was stored and queued, the consumer not running. */
  function Queued(s: State, e: Event): State {
    s.(statusLocal := UpsertEvent(s.statusLocal, e), statusBucket := UpsertEvent(s.statusLocal, e),
       queue := s.queue + [e], accepted := s.accepted + [e])
  }

  ghost predicate ReachesOver(u: iset<Event>, s: State, t: State) {
    Runs.Reaches((a: State, b: State) => NextOver(u, a, b), s, t)
  }

  lemma OneMore(u: iset<Event>, start: State, s: State, t: State)
    requires ReachesOver(u, start, s) && NextOver(u, s, t)
    ensures ReachesOver(u, start, t)
  {
    Runs.ReachesStep((a: State, b: State) => NextOver(u, a, b), start, s, t);
  }

  lemma QueuedReached(u: iset<Event>, start: State, s: State, e: Event)
    requires ReachesOver(u, start, s) && s.producer.Idle? && e in u
    ensures ReachesOver(u, start, Queued(s, e))
  {
    var added := s.(statusLocal := UpsertEvent(s.statusLocal, e), producer := Added(e, false));
    assert AddEvent(s, added, e);
    var stored := PushStatus(added).(producer := Stored(e));
    assert StoreEvent(added, stored) && Enqueue(stored, Queued(s, e));
    OneMore(u, start, s, added);
    OneMore(u, start, added, stored);
    OneMore(u, start, stored, Queued(s, e));
  }

  /** The first event sent again keeps its old place in the table: three acceptances, two rows. */
  lemma StoredTwice(u: iset<Event>, first: Event, second: Event, init: State) returns (s: State)
    requires first in u && second in u && first.Id() != second.Id() && Init(init)
    ensures ReachesOver(u, init, s) && s.producer.Idle? && s.accepted == [first, second, first]
    ensures s.statusBucket == [first, second] && s.repoBucket == EMPTY_REPO
  {
    Runs.ReachesSelf((a: State, b: State) => NextOver(u, a, b), init);
    QueuedReached(u, init, init, first);
    var s1 := Queued(init, first);
    QueuedReached(u, init, s1, second);
    var s2 := Queued(s1, second);
    UpsertFresh([], first);
    UpsertFresh([first], second);
    assert [] + [first] == [first] && [first] + [second] == [first, second];
    QueuedReached(u, init, s2, first);
    s := Queued(s2, first);
    assert [first, second][1..] == [second];
    assert s.statusBucket == [first] + [second];
    assert [first, second] + [first] == [first, second, first];
  }

  /** After a crash exactly the rows of the event table are applied, in table order. */
  lemma CrashAndDrain(u: iset<Event>, init: State, s: State) returns (last: State)
    requires ReachesOver(u, init, s) && DistinctIds(s.statusBucket)
    requires forall e :: e in s.statusBucket ==> !e.Malformed()
    ensures ReachesOver(u, init, last) && Quiescent(last) && last.accepted == s.accepted
    ensures last.repoBucket == ApplyFrom(s.repoBucket, s.statusBucket)
  {
    var next := (a: State, b: State) => NextOver(u, a, b);
    var restarted := State(s.statusBucket, s.statusBucket, s.repoBucket, s.repoBucket, s.statusBucket, Idle, Waiting,
      s.accepted);
    assert Restart(s, restarted);
    OneMore(u, init, s, restarted);
    var looping := restarted.(queue := [], consumer := Loop(restarted.queue));
    assert Dequeue(restarted, looping);
    OneMore(u, init, restarted, looping);
    var done := TableRuns(looping);
    var path: seq<State> :| Runs.IsPath(InternalStep, path) && path[0] == looping && path[|path| - 1] == done;
    assert Runs.IsPath(next, path);
    assert Runs.Reaches(next, looping, done);
    Runs.ReachesTrans(next, init, looping, done);
    last := done.(consumer := Waiting);
    assert EndBatch(done, last);
    OneMore(u, init, done, last);
  }

  lemma OlderWins(first: Event, second: Event)
    requires IsPut(first) && Conflict(first, second)
    ensures ApplyFrom(EMPTY_REPO, [first, second]) != ApplyAll([first, second, first])
  {
    assert [first, second][1..] == [second] && [second][1..] == [];
    assert [first, second, first][..2] == [first, second];
    var tag := Target(first).value.tag;
    var replayed, inOrder := ApplyFrom(EMPTY_REPO, [first, second]), ApplyAll([first, second, first]);
    assert replayed == Effect(second, Effect(first, EMPTY_REPO)) by {
      assert ApplyFrom(Effect(first, EMPTY_REPO), [second]) == ApplyFrom(Effect(second, Effect(first, EMPTY_REPO)), []);
    }
    assert tag in inOrder.files && inOrder.files[tag] == RowOf(first);
    assert tag in replayed.files ==> second.action.Put? && replayed.files[tag] == RowOf(second);
  }

  /** Two conflicting events, of which the first is sent again while its row is pending, and a crash: the update is
      lost. */
  lemma PendingIdLosesUpdate(u: iset<Event>, first: Event, second: Event) returns (run: seq<State>)
    requires first in u && second in u && first.Id() != second.Id() && IsPut(first) && Conflict(first, second)
    ensures IsRunOver(u, run) && Quiescent(run[|run| - 1])
    ensures var last := run[|run| - 1];
            last.accepted == [first, second, first] && last.repoBucket != ApplyAll(last.accepted)
  {
    var init := State([], [], EMPTY_REPO, EMPTY_REPO, [], Idle, Waiting, []);
    var s := StoredTwice(u, first, second, init);
    var last := CrashAndDrain(u, init, s);
    OlderWins(first, second);
    var next := (a: State, b: State) => NextOver(u, a, b);
    var path: seq<State> :| Runs.IsPath(next, path) && path[0] == init && path[|path| - 1] == last;
    run := path;
  }

  /** Storing pending ids again does no harm exactly when no two events of the family leave one file in different
      states: then, and only then, every run over the family ends with the accepted events applied in order. */
  lemma LawfulIff(u: iset<Event>)
    requires IdsTell(u)
    ensures Lawful(u) <==> Agree(u)
  {
    if Agree(u) {
      forall run: seq<State> | IsRunOver(u, run) && Quiescent(run[|run| - 1])
        ensures run[|run| - 1].repoBucket == ApplyAll(run[|run| - 1].accepted)
      {
        AgreeingIsLawful(u, run);
      }
    } else {
      var a, b :| a in u && b in u && Conflict(a, b);
      var first, second := if a.action.Put? then a else b, if a.action.Put? then b else a;
      var run := PendingIdLosesUpdate(u, first, second);
    }
  }
}
