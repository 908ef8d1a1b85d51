/** What the pipeline of StaticPipeline guarantees over whole runs. */
module StaticGuarantees {
  import opened StaticTables
  import opened StaticPipeline
  import Runs

  /** Crash consistency: whatever the interleaving and however many crashes, once nothing is left to do the
      bucket holds every accepted event applied exactly once, in order, with its history; and the only event rows
      left are those whose payload never parsed. */
  lemma CrashConsistency(run: seq<State>)
    requires Runs.IsRun(Init, Next, run) && Quiescent(run[|run| - 1])
    ensures var s := run[|run| - 1];
            && s.repoLocal == s.repoBucket == ApplyAll(s.accepted)
            && s.statusLocal == s.statusBucket == MalformedOf(s.accepted)
  {
    InvHolds(run);
    assert Inv(run[|run| - 1]);
    var d: nat :| InvAt(run[|run| - 1], d);
    QuiescentAt(run[|run| - 1], d);
  }

  /** What that is, in terms of the accepted events alone: in the bucket each file is as the last accepted event that
      acts on it says, absent if that is a deletion or there is none, and the history has one entry for every
      replacement and deletion. */
  lemma BucketMeans(run: seq<State>, tag: string)
    requires Runs.IsRun(Init, Next, run) && Quiescent(run[|run| - 1])
    ensures var s := run[|run| - 1];
            && (tag in s.repoBucket.files <==>
                  exists i: nat :: LastOn(s.accepted, tag, i) && s.accepted[i].action.Put?)
            && (forall i: nat :: LastOn(s.accepted, tag, i) && s.accepted[i].action.Put? ==>
                  var f := s.accepted[i].manifest.value.layer.value;
                  tag in s.repoBucket.files && s.repoBucket.files[tag] == Row(f.hex, f.name, f.size))
            && s.repoBucket.history == HistoryOf(s.accepted)
  {
    CrashConsistency(run);
    var s := run[|run| - 1];
    ApplyAllMeans(s.accepted);
    if tag in s.repoBucket.files { StandingMeans(s.accepted, tag, Standing(s.accepted, tag).value); }
    forall i: nat | LastOn(s.accepted, tag, i) && s.accepted[i].action.Put?
      ensures Standing(s.accepted, tag) == s.accepted[i].manifest.value.layer
    {
      StandingMeans(s.accepted, tag, s.accepted[i].manifest.value.layer.value);
    }
  }

  lemma QuiescentAt(s: State, d: nat)
    requires Quiescent(s) && d <= |s.accepted| && Steady(s, d) && s.statusBucket == Durable(s, d)
    ensures s.repoLocal == s.repoBucket == ApplyAll(s.accepted)
    ensures s.statusLocal == s.statusBucket == MalformedOf(s.accepted)
  {
    assert Inflight(s) == [];
    assert Work(s) == [] && d == |s.accepted|;
    NothingLeft(s);
  }

  /** Past the last accepted event the two descriptions of a state are the whole history. */
  lemma NothingLeft(s: State)
    ensures After(s, |s.accepted|) == ApplyAll(s.accepted) && Durable(s, |s.accepted|) == MalformedOf(s.accepted)
  {
    assert s.accepted[..|s.accepted|] == s.accepted && s.accepted[|s.accepted|..] == [];
  }

  /** Prefix consistency: at every moment, so after every crash, the bucket's repository is a prefix of the accepted
      events applied in order. What is missing from that prefix is still in the bucket's event table, at its end, and
      at most the first missing event is already applied. */
  lemma BucketIsPrefix(run: seq<State>, i: nat) returns (k: nat)
    requires Runs.IsRun(Init, Next, run) && i < |run|
    ensures IsPrefix(run[i], k)
  {
    InvHolds(run);
    k := PrefixOf(run[i]);
  }

  /** The bucket's repository is the first k accepted events, and the others end the bucket's event table. */
  ghost predicate IsPrefix(s: State, k: nat) {
    && k <= |s.accepted| && s.repoBucket == ApplyAll(s.accepted[..k]) && |s.accepted| - k <= |s.statusBucket|
    && s.accepted[k..] == s.statusBucket[|s.statusBucket| - (|s.accepted| - k)..]
  }

  lemma PrefixOf(s: State) returns (k: nat)
    requires Inv(s)
    ensures IsPrefix(s, k)
  {
    var d: nat :| InvAt(s, d);
    k := PrefixAt(s, d);
  }

  lemma PrefixAt(s: State, d: nat) returns (k: nat)
    requires InvAt(s, d)
    ensures IsPrefix(s, k)
  {
    assert NearHead(s, d, s.repoBucket);
    k := if s.repoBucket == After(s, d) then d else d + 1;
    MissingIsDurable(s, d, k);
  }

  lemma MissingIsDurable(s: State, d: nat, k: nat)
    requires d <= k <= |s.accepted| && s.statusBucket == Durable(s, d)
    ensures |s.accepted| - k <= |s.statusBucket|
    ensures s.accepted[k..] == s.statusBucket[|s.statusBucket| - (|s.accepted| - k)..]
  {
    var n := |MalformedOf(s.accepted[..d])|;
    assert s.statusBucket[n..] == s.accepted[d..];
    assert s.statusBucket[n + (k - d)..] == s.accepted[d..][k - d..] == s.accepted[k..];
  }

  /** The event of a QueueEvent call that has pushed it, or had it pushed, is the last accepted one. */
  ghost predicate PushedIsLast(s: State) {
    Unqueued(s) != [] ==> s.accepted != [] && s.accepted[|s.accepted| - 1] == s.producer.e
  }

  lemma AcceptStep(s: State, t: State)
    requires Next(s, t)
    ensures s.accepted <= t.accepted
    ensures PushedIsLast(s) ==> PushedIsLast(t)
  {
  }

  /** Acceptance is never taken back, and QueueEvent is about to return only for an event that is accepted. */
  lemma {:induction false} AcceptanceIsDurable(run: seq<State>, i: nat, j: nat)
    requires Runs.IsRun(Init, Next, run) && i <= j < |run|
    ensures run[i].accepted <= run[j].accepted
    ensures run[i].producer.Stored? ==> run[i].producer.e in run[j].accepted
    decreases j - i
  {
    forall s, t | PushedIsLast(s) && Next(s, t) ensures PushedIsLast(t) { AcceptStep(s, t); }
    Runs.InductiveHolds(Init, Next, PushedIsLast, run);
    assert PushedIsLast(run[i]);
    if i < j {
      AcceptanceIsDurable(run, i, j - 1);
      AcceptStep(run[j - 1], run[j]);
    }
  }

  // ----- the queue can always be drained -----

  /** Steps left until nothing is held. */
  ghost function Remaining(s: State): int {
    (match s.producer case Idle => 0 case Added(_, _) => 9 case Stored(_) => 8)
    + (if s.queue == [] then 0 else 5 * |s.queue| + 2)
    + (match s.consumer
       case Waiting => 0
       case Loop(batch) => 5 * |batch| + 1
       case Applied(batch, _) => 5 * |batch|
       case Finished(batch) => 5 * |batch| - 1
       case Dropped(batch, _) => 5 * |batch| - 2)
  }

  ghost predicate HoldsHead(c: Consumer) {
    c.Applied? || c.Finished? || c.Dropped? ==> c.batch != []
  }

  function PushRemovalOf(s: State): State
    requires s.consumer.Dropped? && s.consumer.batch != []
  {
    (if s.consumer.found then PushStatus(s) else s).(consumer := Loop(s.consumer.batch[1..]))
  }

  lemma ConsumerProgress(s: State) returns (t: State)
    requires HoldsHead(s.consumer) && (s.consumer.Waiting? ==> s.queue != [])
    ensures ConsumerStep(s, t) && Remaining(t) < Remaining(s)
    ensures t.accepted + Inflight(t) == s.accepted + Inflight(s)
  {
    match s.consumer
    case Waiting => t := s.(queue := [], consumer := Loop(s.queue)); assert Dequeue(s, t);
    case Loop(batch) =>
      if batch == [] { t := s.(consumer := Waiting); assert EndBatch(s, t); }
      else if batch[0].Malformed() { t := s.(consumer := Loop(batch[1..])); assert Skip(s, t); }
      else {
        t := s.(repoLocal := Effect(batch[0], s.repoLocal), consumer := Applied(batch, Pushes(batch[0], s.repoLocal)));
        assert Apply(s, t);
      }
    case Applied(batch, dirty) =>
      t := s.(repoBucket := if dirty then s.repoLocal else s.repoBucket, consumer := Finished(batch));
      assert PushRepo(s, t);
    case Finished(batch) =>
      var id := batch[0].Id();
      t := s.(statusLocal := DeleteEvent(s.statusLocal, id), consumer := Dropped(batch, id in Ids(s.statusLocal)));
      assert RemoveEvent(s, t);
    case Dropped(batch, found) =>
      PushMoves(s, PushStatus(s));
      t := PushRemovalOf(s);
      assert PushRemoval(s, t);
  }

  lemma ProducerProgress(s: State) returns (t: State)
    requires !s.producer.Idle?
    ensures InternalStep(s, t) && Remaining(t) < Remaining(s)
    ensures t.accepted + Inflight(t) == s.accepted + Inflight(s)
  {
    match s.producer
    case Added(e, _) =>
      PushMoves(s, PushStatus(s));
      t := PushStatus(s).(producer := Stored(e));
      assert StoreEvent(s, t);
    case Stored(e) =>
      t := s.(queue := s.queue + [e], producer := Idle);
      assert Enqueue(s, t);
  }

  lemma HeadIsHeld(s: State)
    requires Inv(s)
    ensures HoldsHead(s.consumer)
  {
    var d: nat :| InvAt(s, d);
  }

  lemma DrainOnce(s: State) returns (u: State)
    requires Inv(s) && !Quiescent(s)
    ensures InternalStep(s, u) && 0 <= Remaining(u) < Remaining(s) && Inv(u)
    ensures u.accepted + Inflight(u) == s.accepted + Inflight(s)
  {
    HeadIsHeld(s);
    u := Progress(s);
    StepKeeps(s, u);
    HeadIsHeld(u);
    RemainingIsNatural(u);
  }

  lemma Progress(s: State) returns (u: State)
    requires HoldsHead(s.consumer) && !Quiescent(s)
    ensures InternalStep(s, u) && Remaining(u) < Remaining(s)
    ensures u.accepted + Inflight(u) == s.accepted + Inflight(s)
  {
    if s.producer.Idle? { u := ConsumerProgress(s); } else { u := ProducerProgress(s); }
  }

  lemma RemainingIsNatural(s: State)
    requires HoldsHead(s.consumer)
    ensures Remaining(s) >= 0
  {
  }

  /** Without another event or crash, some schedule empties the pipeline. */
  lemma Drain(s: State) returns (t: State)
    requires Inv(s)
    ensures Runs.Reaches(InternalStep, s, t) && Quiescent(t) && t.accepted == s.accepted + Inflight(s)
    decreases Remaining(s)
  {
    Runs.ReachesSelf(InternalStep, s);
    if Quiescent(s) {
      t := s;
    } else {
      var u := DrainOnce(s);
      t := Drain(u);
      Runs.ReachesStep(InternalStep, s, s, u);
      Runs.ReachesTrans(InternalStep, s, u, t);
    }
  }

  lemma InternalIsNext(s: State, t: State)
    requires Runs.Reaches(InternalStep, s, t)
    ensures Runs.Reaches(Next, s, t)
  {
    var path: seq<State> :| Runs.IsPath(InternalStep, path) && path[0] == s && path[|path| - 1] == t;
    assert Runs.IsPath(Next, path);
  }

  /** Eventual delivery is always possible: every run, crashed or not, extends without a further crash or event to one
      whose bucket holds all accepted events, and the one in flight, applied once and in order. */
  lemma EveryRunDrains(run: seq<State>) returns (longer: seq<State>)
    requires Runs.IsRun(Init, Next, run)
    ensures Runs.IsRun(Init, Next, longer) && |longer| >= |run| && longer[..|run|] == run
    ensures var s, t := run[|run| - 1], longer[|longer| - 1];
            Quiescent(t) && t.repoBucket == ApplyAll(s.accepted + Inflight(s))
  {
    InvHolds(run);
    var s := run[|run| - 1];
    assert Inv(s);
    var t := Drain(s);
    InternalIsNext(s, t);
    longer := Runs.ExtendRun(Init, Next, run, t);
    CrashConsistency(longer);
  }
}
