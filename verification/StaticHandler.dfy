/** The handler of one static repository as an object, proved to follow the steps of StaticPipeline. */
module StaticHandler {
  import opened Wrappers
  import opened StaticTables
  import opened StaticPipeline
  import Runs

  /** The effects of `events` on top of `repo`. */
  function ApplyFrom(repo: Repo, events: seq<Event>): Repo
    decreases |events|
  {
    if events == [] then repo else ApplyFrom(Effect(events[0], repo), events[1..])
  }

  lemma {:induction false} ApplyFromAppends(done: seq<Event>, more: seq<Event>)
    ensures ApplyFrom(ApplyAll(done), more) == ApplyAll(done + more)
    decreases |more|
  {
    if more == [] {
      assert done + more == done;
    } else {
      var next := done + [more[0]];
      assert next[..|next| - 1] == done;
      ApplyFromAppends(next, more[1..]);
      assert next + more[1..] == done + more;
    }
  }

  class Handler {
    var queue: seq<Event>
    var statusLocal: seq<Event>
    var statusBucket: seq<Event>
    var repoLocal: Repo
    var repoBucket: Repo
    ghost var accepted: seq<Event>

    ghost function View(p: Producer, c: Consumer): State
      reads this
    {
      State(statusLocal, statusBucket, repoLocal, repoBucket, queue, p, c, accepted)
    }

    constructor ()
      ensures Init(View(Idle, Waiting))
    {
      queue, statusLocal, statusBucket, accepted := [], [], [], [];
      repoLocal, repoBucket := EMPTY_REPO, EMPTY_REPO;
    }

    method PushStatusDb()
      modifies this`statusBucket
      ensures statusBucket == statusLocal
    {
      statusBucket := statusLocal;
    }

    method EnqueueEvent(e: Event)
      modifies this`queue
      ensures queue == old(queue) + [e]
    {
      queue := queue + [e];
    }

    /** Stores and queues an event: the three producer steps in order, whatever the consumer holds. */
    method QueueEvent(e: Event, store: bool, ghost c: Consumer)
      modifies this`queue, this`statusLocal, this`statusBucket, this`accepted
      ensures queue == old(queue) + [e]
      ensures !store ==> unchanged(`statusLocal) && unchanged(`statusBucket) && unchanged(`accepted)
      ensures store ==> accepted == old(accepted) + [e] && statusBucket == statusLocal
      ensures store && FreshId(old(View(Idle, c)), e) ==>
                Runs.Reaches(Next, old(View(Idle, c)), View(Idle, c))
    {
      ghost var before := View(Idle, c);
      if store {
        statusLocal := UpsertEvent(statusLocal, e);
        ghost var added := View(Added(e, false), c);
        PushStatusDb();
        accepted := accepted + [e];
        ghost var stored := View(Stored(e), c);
        if FreshId(before, e) {
          assert AddEvent(before, added, e) && StoreEvent(added, stored);
          Runs.ReachesSelf(Next, before);
          Runs.ReachesStep(Next, before, before, added);
          Runs.ReachesStep(Next, before, added, stored);
        }
        EnqueueEvent(e);
        if FreshId(before, e) {
          assert Enqueue(stored, View(Idle, c));
          Runs.ReachesStep(Next, before, stored, View(Idle, c));
        }
      } else {
        EnqueueEvent(e);
      }
    }

    /** A fresh process: nothing local is left; pull both databases and queue every row in order. */
    method Start()
      modifies this
      ensures Restart(old(View(Idle, Waiting)), View(Idle, Waiting))
    {
      queue := [];
      statusLocal, repoLocal := statusBucket, repoBucket;
      for i := 0 to |statusLocal|
        invariant statusLocal == statusBucket == old(statusBucket)
        invariant i <= |statusLocal| && queue == statusLocal[..i]
        invariant repoLocal == repoBucket == old(repoBucket) && accepted == old(accepted)
      {
        QueueEvent(statusLocal[i], false, Waiting);
      }
    }

    /** Carries out an event on the files table and its history, then mirrors the table unless no row was touched. A
        mirrored table stays mirrored, the bucket knows of the file what the event says, and the same event again
        changes nothing. */
    method AddOrRemoveFile(e: Event)
      modifies this`repoLocal, this`repoBucket
      ensures repoLocal == Effect(e, old(repoLocal))
      ensures repoBucket == if Pushes(e, old(repoLocal)) then repoLocal else old(repoBucket)
      ensures old(repoLocal == repoBucket) ==> repoLocal == repoBucket
      ensures Target(e).Some? && old(repoLocal == repoBucket) ==>
                var f := Target(e).value;
                if e.action.Put? then f.tag in repoBucket.files && repoBucket.files[f.tag] == Row(f.hex, f.name, f.size)
                else f.tag !in repoBucket.files
      ensures Effect(e, repoLocal) == repoLocal
      ensures forall tag :: !ActsOn(e, tag) ==>
                && (tag in repoLocal.files <==> tag in old(repoLocal).files)
                && (tag in repoLocal.files ==> repoLocal.files[tag] == old(repoLocal).files[tag])
      ensures (forall tag :: ActsOn(e, tag) ==> e.action.Delete? && tag !in old(repoLocal).files) ==>
                repoLocal == old(repoLocal) && repoBucket == old(repoBucket)
      ensures old(repoLocal).history <= repoLocal.history && |repoLocal.history| <= |old(repoLocal).history| + 1
    {
      EffectIdempotent(e, repoLocal);
      var target := Target(e);
      if target.None? { return; }
      var f := target.value;
      var files, history := repoLocal.files, repoLocal.history;
      if e.action.Put? {
        if f.tag in files && files[f.tag].id != f.hex {
          history := history + [Updated(f.tag, files[f.tag].name, files[f.tag].id, f.hex)];
        }
        files := files[f.tag := Row(f.hex, f.name, f.size)];
      } else {
        if f.tag !in files { return; }
        history := history + [Removed(f.tag, files[f.tag].name, files[f.tag].id)];
        files := files - {f.tag};
      }
      repoLocal := Repo(files, history);
      repoBucket := repoLocal;
    }

    /** One pass over the queue: the consumer's steps, one event after the other, and in sum the effect of the
        whole batch. */
    method ProcessEvents()
      modifies this
      ensures Runs.Reaches(InternalStep, old(View(Idle, Waiting)), View(Idle, Waiting))
      ensures queue == [] && accepted == old(accepted)
      ensures repoLocal == ApplyFrom(old(repoLocal), old(queue))
    {
      ghost var before := View(Idle, Waiting);
      var batch := queue;
      queue := [];
      assert Dequeue(before, View(Idle, Loop(batch)));
      Runs.ReachesSelf(InternalStep, before);
      Runs.ReachesStep(InternalStep, before, before, View(Idle, Loop(batch)));
      for i := 0 to |batch|
        invariant queue == [] && accepted == old(accepted)
        invariant ApplyFrom(repoLocal, batch[i..]) == ApplyFrom(old(repoLocal), batch)
        invariant Runs.Reaches(InternalStep, before, View(Idle, Loop(batch[i..])))
      {
        ghost var rest := batch[i..];
        ghost var head := View(Idle, Loop(rest));
        assert rest[1..] == batch[i + 1..];
        var event := batch[i];
        if event.Malformed() {
          assert Skip(head, View(Idle, Loop(rest[1..])));
          Runs.ReachesStep(InternalStep, before, head, View(Idle, Loop(rest[1..])));
        } else {
          ghost var dirty := Pushes(event, repoLocal);
          ghost var applied := head.(repoLocal := Effect(event, repoLocal), consumer := Applied(rest, dirty));
          AddOrRemoveFile(event);
          ghost var finished := View(Idle, Finished(rest));
          var found := event.Id() in Ids(statusLocal);
          statusLocal := DeleteEvent(statusLocal, event.Id());
          ghost var dropped := View(Idle, Dropped(rest, found));
          if found {
            PushStatusDb();
          }
          StepThrough(before, head, applied, finished, dropped, View(Idle, Loop(rest[1..])));
        }
      }
      assert batch[|batch|..] == [];
      assert EndBatch(View(Idle, Loop([])), View(Idle, Waiting));
      Runs.ReachesStep(InternalStep, before, View(Idle, Loop([])), View(Idle, Waiting));
    }
  }

  /** The four consumer steps of one event, chained. */
  lemma StepThrough(start: State, head: State, applied: State, finished: State, dropped: State, next: State)
    requires Runs.Reaches(InternalStep, start, head)
    requires Apply(head, applied) && PushRepo(applied, finished)
    requires RemoveEvent(finished, dropped) && PushRemoval(dropped, next)
    ensures Runs.Reaches(InternalStep, start, next)
  {
    Runs.ReachesStep(InternalStep, start, head, applied);
    Runs.ReachesStep(InternalStep, start, applied, finished);
    Runs.ReachesStep(InternalStep, start, finished, dropped);
    Runs.ReachesStep(InternalStep, start, dropped, next);
  }
}
