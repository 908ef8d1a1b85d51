/** The crash-safe event pipeline of a static repository handler.

    Two databases, each with a local file and a copy in the bucket. A producer stores an event in the status
    database, mirrors it, then queues it. The consumer takes the queue, applies each event to the repository
    database, mirrors it, removes the event from the status database and mirrors that. Every database access,
    every mirror push and every queue access is one step; a crash may come between any two and keeps the bucket only. */
module StaticPipeline {
  import opened Wrappers
  import opened StaticTables
  import Runs

  /** Where QueueEvent stands: not running, row added locally (and whether some push has made it durable), pushed. */
  datatype Producer = Idle | Added(e: Event, durable: bool) | Stored(e: Event)

  /** Where the run loop stands, and the rest of the batch it holds. */
  datatype Consumer =
    | Waiting
    | Loop(batch: seq<Event>)
    | Applied(batch: seq<Event>, dirty: bool)   // effect carried out locally; dirty: the push is still due
    | Finished(batch: seq<Event>)               // effect mirrored
    | Dropped(batch: seq<Event>, found: bool)   // RemoveEvent carried out locally

  /** `accepted` records the events in the order in which their rows first reached the bucket. */
  datatype State = State(
    statusLocal: seq<Event>, statusBucket: seq<Event>,
    repoLocal: Repo, repoBucket: Repo,
    queue: seq<Event>, producer: Producer, consumer: Consumer,
    accepted: seq<Event>)

  ghost predicate Init(s: State) {
    s == State([], [], EMPTY_REPO, EMPTY_REPO, [], Idle, Waiting, [])
  }

  /** A push of the status database, by whichever thread. */
  function PushStatus(s: State): State {
    var t := s.(statusBucket := s.statusLocal);
    if s.producer.Added? && !s.producer.durable
    then t.(producer := Added(s.producer.e, true), accepted := s.accepted + [s.producer.e])
    else t
  }

  ghost predicate AddEvent(s: State, t: State, e: Event) {
    && s.producer.Idle?
    && t == s.(statusLocal := UpsertEvent(s.statusLocal, e), producer := Added(e, false))
  }

  ghost predicate StoreEvent(s: State, t: State) {
    && s.producer.Added?
    && t == PushStatus(s).(producer := Stored(s.producer.e))
  }

  /** QueueEvent returns. */
  ghost predicate Enqueue(s: State, t: State) {
    && s.producer.Stored?
    && t == s.(queue := s.queue + [s.producer.e], producer := Idle)
  }

  ghost predicate Dequeue(s: State, t: State) {
    && s.consumer.Waiting?
    && t == s.(queue := [], consumer := Loop(s.queue))
  }

  ghost predicate EndBatch(s: State, t: State) {
    && s.consumer.Loop? && s.consumer.batch == []
    && t == s.(consumer := Waiting)
  }

  /** A payload that does not parse is skipped and its row stays. */
  ghost predicate Skip(s: State, t: State) {
    && s.consumer.Loop? && s.consumer.batch != [] && s.consumer.batch[0].Malformed()
    && t == s.(consumer := Loop(s.consumer.batch[1..]))
  }

  ghost predicate Apply(s: State, t: State) {
    && s.consumer.Loop? && s.consumer.batch != [] && !s.consumer.batch[0].Malformed()
    && t == s.(repoLocal := Effect(s.consumer.batch[0], s.repoLocal),
               consumer := Applied(s.consumer.batch, Pushes(s.consumer.batch[0], s.repoLocal)))
  }

  ghost predicate PushRepo(s: State, t: State) {
    && s.consumer.Applied?
    && t == s.(repoBucket := if s.consumer.dirty then s.repoLocal else s.repoBucket,
               consumer := Finished(s.consumer.batch))
  }

  ghost predicate RemoveEvent(s: State, t: State) {
    && s.consumer.Finished? && s.consumer.batch != []
    && var id := s.consumer.batch[0].Id();
    t == s.(statusLocal := DeleteEvent(s.statusLocal, id),
            consumer := Dropped(s.consumer.batch, id in Ids(s.statusLocal)))
  }

  /** The removal is mirrored, unless RemoveEvent failed because it found no row. */
  ghost predicate PushRemoval(s: State, t: State) {
    && s.consumer.Dropped? && s.consumer.batch != []
    && t == (if s.consumer.found then PushStatus(s) else s).(consumer := Loop(s.consumer.batch[1..]))
  }

  /** Crash or stop at any point, then Start: local files and memory are gone, the tables are pulled from the
      bucket and every remaining row is queued again in insertion order. */
  ghost predicate Restart(s: State, t: State) {
    t == State(s.statusBucket, s.statusBucket, s.repoBucket, s.repoBucket, s.statusBucket, Idle, Waiting, s.accepted)
  }

  ghost predicate ConsumerStep(s: State, t: State) {
    || Dequeue(s, t) || EndBatch(s, t) || Skip(s, t) || Apply(s, t)
    || PushRepo(s, t) || RemoveEvent(s, t) || PushRemoval(s, t)
  }

  /** A step that needs neither a new event nor a crash. */
  ghost predicate InternalStep(s: State, t: State) {
    StoreEvent(s, t) || Enqueue(s, t) || ConsumerStep(s, t)
  }

  /** The caller's duty: an id is not stored again while its row is still there. */
  ghost predicate FreshId(s: State, e: Event) { e.Id() !in Ids(s.statusLocal) }

  ghost predicate Next(s: State, t: State) {
    (exists e :: FreshId(s, e) && AddEvent(s, t, e)) || InternalStep(s, t) || Restart(s, t)
  }

  // ----- the invariant -----

  /** The repository after the first k accepted events. */
  ghost function After(s: State, k: nat): Repo
    requires k <= |s.accepted|
  { ApplyAll(s.accepted[..k]) }

  /** The event rows that are durable once the first d accepted events are dealt with. */
  ghost function Durable(s: State, d: nat): seq<Event>
    requires d <= |s.accepted|
  { MalformedOf(s.accepted[..d]) + s.accepted[d..] }

  ghost function Inflight(s: State): seq<Event> {
    if s.producer.Added? && !s.producer.durable then [s.producer.e] else []
  }

  ghost function Unqueued(s: State): seq<Event> {
    if s.producer.Stored? || (s.producer.Added? && s.producer.durable) then [s.producer.e] else []
  }

  /** `work` is the accepted events from d on, after some replays of malformed ones. */
  ghost predicate WorkFrom(work: seq<Event>, accepted: seq<Event>, d: nat)
    requires d <= |accepted|
  {
    var replays := |work| - (|accepted| - d);
    && replays >= 0
    && work[replays..] == accepted[d..]
    && forall i :: 0 <= i < replays ==> work[i].Malformed()
  }

  /** One of the two repositories the crash window allows: the head's effect is in, or not yet. */
  ghost predicate NearHead(s: State, d: nat, repo: Repo)
    requires d <= |s.accepted|
  { repo == After(s, d) || (d < |s.accepted| && repo == After(s, d + 1)) }

  /** What the consumer still holds; a dropped head no longer counts. */
  ghost function Held(c: Consumer): seq<Event> {
    match c
    case Waiting => []
    case Dropped(batch, _) => if batch == [] then [] else batch[1..]
    case _ => c.batch
  }

  /** What waits behind the consumer's batch. */
  ghost function Tail(s: State): seq<Event> { s.queue + Unqueued(s) }

  ghost function Work(s: State): seq<Event> { Held(s.consumer) + Tail(s) }

  /** The consumer is past the removal of accepted[d] locally, and no push has made that durable yet. */
  ghost predicate RemovalPending(s: State, d: nat)
    requires d <= |s.accepted|
  {
    && s.consumer.Dropped? && s.consumer.found && s.consumer.batch != []
    && d < |s.accepted| && !s.accepted[d].Malformed()
    && s.statusLocal == Durable(s, d + 1) + Inflight(s)
    && s.repoLocal == s.repoBucket == After(s, d + 1)
    && Work(s) == s.accepted[d + 1..]
  }

  ghost predicate AtHead(c: Consumer) {
    (c.Applied? || c.Finished?) && c.batch != [] && !c.batch[0].Malformed()
  }

  ghost predicate Steady(s: State, d: nat)
    requires d <= |s.accepted|
  {
    && s.statusLocal == Durable(s, d) + Inflight(s)
    && WorkFrom(Work(s), s.accepted, d)
    && NearHead(s, d, s.repoBucket)
    && match s.consumer
       case Waiting => s.repoLocal == s.repoBucket
       case Loop(_) => s.repoLocal == s.repoBucket
       case Applied(_, dirty) =>
         && AtHead(s.consumer) && d < |s.accepted|
         && s.repoLocal == After(s, d + 1)
         && (!dirty ==> s.repoLocal == s.repoBucket)
       case Finished(_) =>
         && AtHead(s.consumer) && d < |s.accepted|
         && s.repoLocal == s.repoBucket == After(s, d + 1)
       case Dropped(batch, _) =>
         batch != [] && s.repoLocal == s.repoBucket
  }

  ghost predicate InvAt(s: State, d: nat) {
    && d <= |s.accepted|
    && DistinctIds(s.statusLocal) && DistinctIds(s.statusBucket)
    && s.statusBucket == Durable(s, d)
    && (Steady(s, d) || RemovalPending(s, d))
  }

  /** d counts the accepted events that are dealt with for good. */
  ghost predicate Inv(s: State) { exists d: nat :: InvAt(s, d) }

  // ----- every step keeps it -----

  lemma AcceptedGrows(s: State, t: State, k: nat)
    requires k <= |s.accepted| && s.accepted <= t.accepted
    ensures After(s, k) == After(t, k) && MalformedOf(s.accepted[..k]) == MalformedOf(t.accepted[..k])
  {
    assert s.accepted[..k] == t.accepted[..k];
  }

  lemma AfterNext(s: State, d: nat)
    requires d < |s.accepted|
    ensures After(s, d + 1) == Effect(s.accepted[d], After(s, d))
    ensures MalformedOf(s.accepted[..d + 1]) ==
            MalformedOf(s.accepted[..d]) + if s.accepted[d].Malformed() then [s.accepted[d]] else []
  {
    assert s.accepted[..d + 1][..d] == s.accepted[..d];
  }

  lemma AppendDistinct(rows: seq<Event>, e: Event)
    requires DistinctIds(rows) && e.Id() !in Ids(rows)
    ensures DistinctIds(rows + [e])
  {
  }

  lemma AddEventKeeps(s: State, t: State, d: nat, e: Event)
    requires InvAt(s, d) && FreshId(s, e) && AddEvent(s, t, e)
    ensures InvAt(t, d)
  {
    UpsertFresh(s.statusLocal, e);
    AppendDistinct(s.statusLocal, e);
    assert Inflight(s) == [] && Inflight(t) == [e] && Unqueued(s) == Unqueued(t) == [];
  }

  /** A push moves the count forward exactly when it makes a pending removal durable. */
  lemma PushKeeps(s: State, t: State, d: nat) returns (d': nat)
    requires InvAt(s, d) && t == PushStatus(s)
    ensures InvAt(t, d') && Steady(t, d')
    ensures d' == if RemovalPending(s, d) then d + 1 else d
  {
    PushMoves(s, t);
    if RemovalPending(s, d) {
      d' := d + 1;
      PushPending(s, t, d);
    } else {
      d' := d;
      SteadyAfterPush(s, t, d);
    }
  }

  /** What a push moves from in flight to accepted it also moves to the end of the work. */
  lemma PushMoves(s: State, t: State)
    requires t == PushStatus(s)
    ensures s.accepted <= t.accepted == s.accepted + Inflight(s)
    ensures Inflight(t) == [] && Work(t) == Work(s) + Inflight(s)
  {
    assert Tail(t) == Tail(s) + Inflight(s);
    assert Work(t) == Work(s) + Inflight(s);
  }

  lemma DurableGrows(s: State, t: State, d: nat)
    requires t == PushStatus(s) && d <= |s.accepted|
    ensures d <= |t.accepted| && Durable(t, d) == Durable(s, d) + Inflight(s)
    ensures t.accepted[d..] == s.accepted[d..] + Inflight(s)
    ensures After(t, d) == After(s, d) && (d < |s.accepted| ==> After(t, d + 1) == After(s, d + 1))
  {
    PushMoves(s, t);
    AcceptedGrows(s, t, d);
    if d < |s.accepted| { AcceptedGrows(s, t, d + 1); }
    assert t.accepted[d..] == s.accepted[d..] + Inflight(s);
  }

  /** Past an event that parses, its row is no longer needed. */
  lemma DurableNext(s: State, d: nat)
    requires d < |s.accepted| && !s.accepted[d].Malformed()
    ensures Durable(s, d + 1) == MalformedOf(s.accepted[..d]) + s.accepted[d + 1..]
  {
    AfterNext(s, d);
  }

  lemma PendingRows(s: State, t: State, d: nat)
    requires d < |s.accepted| && t == PushStatus(s)
    requires s.statusLocal == Durable(s, d + 1) + Inflight(s) && s.repoBucket == After(s, d + 1)
    ensures d < |t.accepted| && Durable(t, d + 1) == t.statusLocal && After(t, d + 1) == s.repoBucket
  {
    DurableGrows(s, t, d + 1);
  }

  lemma PendingWork(s: State, t: State, d: nat)
    requires d < |s.accepted| && Work(s) == s.accepted[d + 1..] && t == PushStatus(s)
    ensures d < |t.accepted| && WorkFrom(Work(t), t.accepted, d + 1) && Inflight(t) == []
  {
    PushMoves(s, t);
    assert Work(t) == t.accepted[d + 1..];
    assert Work(t)[0..] == Work(t);
  }

  lemma SteadyDropped(t: State, d: nat)
    requires d <= |t.accepted| && t.consumer.Dropped? && t.consumer.batch != []
    requires t.statusLocal == Durable(t, d) && Inflight(t) == [] && WorkFrom(Work(t), t.accepted, d)
    requires t.repoLocal == t.repoBucket == After(t, d)
    ensures Steady(t, d)
  {
    assert t.statusLocal == Durable(t, d) + Inflight(t);
    assert NearHead(t, d, t.repoBucket);
  }

  lemma SteadyAfterPending(s: State, t: State, d: nat)
    requires d < |s.accepted| && RemovalPending(s, d) && t == PushStatus(s)
    ensures d < |t.accepted| && Steady(t, d + 1) && Durable(t, d + 1) == t.statusLocal
  {
    PendingRows(s, t, d);
    PendingWork(s, t, d);
    SteadyDropped(t, d + 1);
  }

  lemma PushPending(s: State, t: State, d: nat)
    requires InvAt(s, d) && RemovalPending(s, d) && t == PushStatus(s)
    ensures InvAt(t, d + 1) && Steady(t, d + 1)
  {
    SteadyAfterPending(s, t, d);
  }

  lemma SteadyAfterPush(s: State, t: State, d: nat)
    requires d <= |s.accepted| && Steady(s, d) && t == PushStatus(s)
    ensures Steady(t, d) && Durable(t, d) == t.statusLocal
  {
    PushMoves(s, t);
    DurableGrows(s, t, d);
    WorkGrows(Work(s), s.accepted, d, Inflight(s));
    assert NearHead(t, d, t.repoBucket);
  }

  lemma WorkGrows(work: seq<Event>, accepted: seq<Event>, d: nat, more: seq<Event>)
    requires d <= |accepted| && WorkFrom(work, accepted, d)
    ensures WorkFrom(work + more, accepted + more, d)
  {
    var replays := |work| - (|accepted| - d);
    assert (work + more)[replays..] == work[replays..] + more;
    assert (accepted + more)[d..] == accepted[d..] + more;
  }

  /** The first element of the work is a replay, or the next accepted event. */
  lemma WorkHead(work: seq<Event>, accepted: seq<Event>, d: nat)
    requires d <= |accepted| && WorkFrom(work, accepted, d) && work != []
    ensures |work| == |accepted| - d ==> work == accepted[d..] && d < |accepted| && work[0] == accepted[d]
    ensures |work| == |accepted| - d ==> WorkFrom(work[1..], accepted, d + 1)
    ensures |work| != |accepted| - d ==> work[0].Malformed() && WorkFrom(work[1..], accepted, d)
  {
    var replays := |work| - (|accepted| - d);
    if replays > 0 {
      assert work[1..][replays - 1..] == work[replays..];
    } else {
      assert work == work[0..] == accepted[d..];
    }
  }

  lemma EnqueueKeeps(s: State, t: State, d: nat)
    requires InvAt(s, d) && (StoredStep(s, t) || Enqueue(s, t))
    ensures InvAt(t, d)
  {
    assert Inflight(s) == Inflight(t) == [];
    assert Tail(s) == Tail(t);
  }

  /** The part of StoreEvent after its push. */
  ghost predicate StoredStep(s: State, t: State) {
    s.producer.Added? && s.producer.durable && t == s.(producer := Stored(s.producer.e))
  }

  lemma BatchKeeps(s: State, t: State, d: nat)
    requires InvAt(s, d) && (Dequeue(s, t) || EndBatch(s, t))
    ensures InvAt(t, d)
  {
    assert Steady(s, d);
    assert Held(s.consumer) + s.queue == Held(t.consumer) + t.queue;
    assert Work(s) == Work(t);
    assert NearHead(t, d, t.repoBucket) && Durable(t, d) == Durable(s, d) && Inflight(t) == Inflight(s);
  }

  lemma SkipWork(s: State, t: State)
    requires Skip(s, t)
    ensures Work(s) != [] && Work(s)[0] == s.consumer.batch[0] && Work(t) == Work(s)[1..]
    ensures Inflight(t) == Inflight(s)
  {
    assert Tail(t) == Tail(s);
    assert (s.consumer.batch + Tail(s))[1..] == s.consumer.batch[1..] + Tail(s);
  }

  lemma SkipKeeps(s: State, t: State, d: nat)
    requires InvAt(s, d) && Skip(s, t)
    ensures Inv(t)
  {
    assert Steady(s, d);
    SkipWork(s, t);
    WorkHead(Work(s), s.accepted, d);
    if |Work(s)| == |s.accepted| - d {
      SkipDone(s, d);
      assert NearHead(t, d + 1, t.repoBucket);
      assert InvAt(t, d + 1);
    } else {
      assert NearHead(t, d, t.repoBucket);
      assert InvAt(t, d);
    }
  }

  /** A malformed event is dealt with as soon as it is reached: it has no effect and its row stays. */
  lemma SkipDone(s: State, d: nat)
    requires d < |s.accepted| && s.accepted[d].Malformed()
    ensures Durable(s, d + 1) == Durable(s, d) && After(s, d + 1) == After(s, d)
  {
    AfterNext(s, d);
    assert s.accepted[d..] == [s.accepted[d]] + s.accepted[d + 1..];
  }

  lemma ApplyKeeps(s: State, t: State, d: nat)
    requires InvAt(s, d) && Apply(s, t)
    ensures InvAt(t, d)
  {
    var e := s.consumer.batch[0];
    WorkHead(Work(s), s.accepted, d);
    assert Work(s)[0] == e && Work(s) == Work(t);
    AfterNext(s, d);
    EffectIdempotent(e, After(s, d));
    if !Pushes(e, s.repoLocal) { assert Effect(e, s.repoLocal) == s.repoLocal; }
  }

  /** The first event that is not dealt with has its row right after the malformed ones. */
  lemma HeadRow(s: State, d: nat)
    requires d < |s.accepted| && s.statusLocal == Durable(s, d) + Inflight(s) && DistinctIds(s.statusLocal)
    requires !s.accepted[d].Malformed()
    ensures s.accepted[d].Id() in Ids(s.statusLocal)
    ensures DeleteEvent(s.statusLocal, s.accepted[d].Id()) == Durable(s, d + 1) + Inflight(s)
    ensures DistinctIds(DeleteEvent(s.statusLocal, s.accepted[d].Id()))
  {
    var e, before, after := s.accepted[d], MalformedOf(s.accepted[..d]), s.accepted[d + 1..] + Inflight(s);
    assert s.accepted[d..] == [e] + s.accepted[d + 1..];
    assert s.statusLocal == before + [e] + after;
    assert s.statusLocal[|before|] == e;
    DeleteAt(before, e, after);
    DurableNext(s, d);
    assert before + after == before + s.accepted[d + 1..] + Inflight(s);
  }

  /** What the consumer has finished is the first event that is not dealt with. */
  lemma FinishedIsHead(s: State, d: nat)
    requires d <= |s.accepted| && WorkFrom(Work(s), s.accepted, d) && s.consumer.Finished? && AtHead(s.consumer)
    ensures d < |s.accepted| && s.consumer.batch != [] && s.consumer.batch[0] == s.accepted[d]
            && !s.accepted[d].Malformed()
    ensures s.consumer.batch[1..] + Tail(s) == s.accepted[d + 1..]
  {
    WorkHead(Work(s), s.accepted, d);
    assert Work(s)[0] == s.consumer.batch[0];
    assert Work(s)[1..] == s.consumer.batch[1..] + Tail(s);
    assert s.accepted[d..][1..] == s.accepted[d + 1..];
  }

  lemma RemoveKeeps(s: State, t: State, d: nat)
    requires InvAt(s, d) && RemoveEvent(s, t)
    ensures InvAt(t, d)
  {
    assert Steady(s, d);
    FinishedIsHead(s, d);
    HeadRow(s, d);
    assert Tail(t) == Tail(s) && Inflight(t) == Inflight(s);
    assert Work(t) == s.accepted[d + 1..];
    assert RemovalPending(t, d);
  }

  lemma RestartKeeps(s: State, t: State, d: nat)
    requires InvAt(s, d) && Restart(s, t)
    ensures InvAt(t, d)
  {
    var bad := MalformedOf(s.accepted[..d]);
    MalformedOfAll(s.accepted[..d]);
    assert Work(t) == bad + s.accepted[d..];
    assert (bad + s.accepted[d..])[|bad|..] == s.accepted[d..];
    forall i | 0 <= i < |bad| ensures (bad + s.accepted[d..])[i].Malformed() { assert bad[i] in bad; }
    assert Durable(t, d) + Inflight(t) == Durable(s, d);
  }

  lemma StoreKeeps(s: State, t: State, d: nat)
    requires InvAt(s, d) && StoreEvent(s, t)
    ensures Inv(t)
  {
    var u := PushStatus(s);
    var d' := PushKeeps(s, u, d);
    EnqueueKeeps(u, t, d');
  }

  lemma PushRepoKeeps(s: State, t: State, d: nat)
    requires InvAt(s, d) && PushRepo(s, t)
    ensures InvAt(t, d)
  {
    assert Steady(s, d);
    assert Work(t) == Work(s);
    assert NearHead(t, d, t.repoBucket) && Durable(t, d) == Durable(s, d) && Inflight(t) == Inflight(s);
  }

  lemma ConsumerKeeps(s: State, t: State, d: nat)
    requires InvAt(s, d) && ConsumerStep(s, t)
    ensures Inv(t)
  {
    match s.consumer
    case Waiting => BatchKeeps(s, t, d);
    case Loop(batch) =>
      if batch == [] { BatchKeeps(s, t, d); }
      else if batch[0].Malformed() { SkipKeeps(s, t, d); }
      else { ApplyKeeps(s, t, d); }
    case Applied(_, _) => PushRepoKeeps(s, t, d);
    case Finished(_) => RemoveKeeps(s, t, d);
    case Dropped(_, _) => PushRemovalKeeps(s, t, d);
  }

  lemma StepKeeps(s: State, t: State)
    requires Inv(s) && Next(s, t)
    ensures Inv(t)
  {
    var d: nat :| InvAt(s, d);
    if Restart(s, t) {
      RestartKeeps(s, t, d);
    } else if ConsumerStep(s, t) {
      ConsumerKeeps(s, t, d);
    } else if StoreEvent(s, t) {
      StoreKeeps(s, t, d);
    } else if Enqueue(s, t) {
      EnqueueKeeps(s, t, d);
    } else {
      var e :| FreshId(s, e) && AddEvent(s, t, e);
      AddEventKeeps(s, t, d, e);
    }
  }

  lemma NextInBatch(u: State, t: State, d: nat)
    requires InvAt(u, d) && Steady(u, d) && u.consumer.Dropped? && t == u.(consumer := Loop(u.consumer.batch[1..]))
    ensures InvAt(t, d)
  {
    assert Work(t) == Work(u) && Durable(t, d) == Durable(u, d) && Inflight(t) == Inflight(u);
    assert NearHead(t, d, t.repoBucket);
  }

  lemma PushRemovalKeeps(s: State, t: State, d: nat)
    requires InvAt(s, d) && PushRemoval(s, t)
    ensures Inv(t)
  {
    if s.consumer.found {
      var u := PushStatus(s);
      var d' := PushKeeps(s, u, d);
      NextInBatch(u, t, d');
    } else {
      NextInBatch(s, t, d);
    }
  }

  lemma InvHolds(run: seq<State>)
    requires Runs.IsRun(Init, Next, run)
    ensures forall i :: 0 <= i < |run| ==> Inv(run[i])
  {
    forall s | Init(s) ensures Inv(s) {
      assert Durable(s, 0) == [] && After(s, 0) == EMPTY_REPO;
      assert InvAt(s, 0);
    }
    forall s, t | Inv(s) && Next(s, t) ensures Inv(t) { StepKeeps(s, t); }
    Runs.InductiveHolds(Init, Next, Inv, run);
  }

  ghost predicate Quiescent(s: State) { s.producer.Idle? && s.consumer.Waiting? && s.queue == [] }
}
