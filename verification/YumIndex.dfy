/** The published index of a YUM repository, and exactly when a crash leaves it stale. */
module YumIndex {
  import opened StaticTables
  import opened YumPipeline
  import P = StaticPipeline
  import Runs

  /** The published index is that of the metadata table. */
  ghost predicate Fresh(s: State) { s.published == s.metaBucket }

  /** A crash that leaves an old index and nothing to process, so that nothing will publish a new one. */
  ghost predicate LosesIndex(s: State) { s.stored == [] && !Fresh(s) }

  /** Crashes that lose the index left out. */
  ghost predicate NextSafe(s: State, t: State) {
    (exists e :: Accept(s, t, e)) || Work(s, t) || (Crash(s, t) && !LosesIndex(s))
  }

  /** Whenever nothing is left to do the index is fresh, and the metadata table is mirrored but for one step. */
  ghost predicate IndexOk(s: State) {
    (!s.consumer.MetaChanged? ==> s.metaLocal == s.metaBucket) && (Quiescent(s) ==> Fresh(s))
  }

  lemma IndexKeptByWork(s: State, t: State)
    requires IndexOk(s) && Work(s, t)
    ensures IndexOk(t)
  {
    match s.consumer
    case Waiting => assert Dequeue(s, t);
    case Loop(batch) => assert Skip(s, t) || ChangeMeta(s, t) || PublishIndex(s, t);
    case MetaChanged(_) => assert MirrorMeta(s, t);
    case MetaMirrored(_) => assert ChangeRepo(s, t);
    case RepoChanged(_) => assert MirrorRepo(s, t);
    case RepoMirrored(_) => assert Remove(s, t);
  }

  lemma IndexKept(s: State, t: State)
    requires IndexOk(s) && NextSafe(s, t)
    ensures IndexOk(t)
  {
    if Work(s, t) { IndexKeptByWork(s, t); }
  }

  /** The index follows the table: in every run in which no crash loses it, whenever nothing is left to do the
      published index is that of the metadata table, and so of all accepted events. */
  lemma IndexFollows(run: seq<State>)
    requires Runs.IsRun(Init, NextSafe, run) && Quiescent(run[|run| - 1])
    ensures var s := run[|run| - 1]; s.published == s.metaBucket == Fold(s.fx.meta, s.accepted)
  {
    forall s, t | IndexOk(s) && NextSafe(s, t) ensures IndexOk(t) { IndexKept(s, t); }
    Runs.InductiveHolds(Init, NextSafe, IndexOk, run);
    assert IndexOk(run[|run| - 1]);
    assert Runs.IsRun(Init, Next, run);
    BothTablesConsistent(run);
  }

  /** When a crash leaves the index stale: the handler can come to rest after it, without a new event, with an index
      that is not that of the metadata table, exactly if the event table was empty and the index was not fresh at the
      crash. */
  lemma IndexStaleIff(s: State, t: State)
    requires Crash(s, t)
    ensures (exists u :: Runs.Reaches(Work, t, u) && Quiescent(u) && !Fresh(u)) <==> LosesIndex(s)
  {
    if LosesIndex(s) {
      Runs.ReachesSelf(Work, t);
      assert Quiescent(t) && !Fresh(t);
    } else {
      assert IndexOk(t);
      forall a, b | IndexOk(a) && Work(a, b) ensures IndexOk(b) { IndexKept(a, b); }
      forall u | Runs.Reaches(Work, t, u) && Quiescent(u) ensures Fresh(u) { Runs.ReachesKeeps(Work, IndexOk, t, u); }
    }
  }

  // ----- where the window is -----

  /** A malformed event is replayed only as long as its row is there. */
  ghost predicate ReplaysStored(s: State) { forall e :: e in ToDo(s) && e.Malformed() ==> e in s.stored }

  lemma {:induction false} DeleteLeaves(rows: seq<Event>, id: (string, Action), x: Event)
    requires x in rows && x.Id() != id
    ensures x in DeleteEvent(rows, id)
  {
    if x != rows[0] { DeleteLeaves(rows[1..], id, x); }
  }

  lemma HeadStored(s: State, d: nat)
    requires InvAt(s, d) && s.consumer.RepoMirrored?
    ensures s.consumer.batch != [] && s.consumer.batch[0] in s.stored && !s.consumer.batch[0].Malformed()
    ensures DistinctIds(s.stored)
  {
    HeadIsNext(s, d);
    assert s.stored[|MalformedOf(s.accepted[..d])|] == s.accepted[d];
  }

  lemma RemoveKeepsReplays(s: State, t: State)
    requires ReplaysStored(s) && Remove(s, t) && DistinctIds(s.stored)
    requires s.consumer.batch[0] in s.stored && !s.consumer.batch[0].Malformed()
    ensures ReplaysStored(t)
  {
    var e := s.consumer.batch[0];
    var k :| 0 <= k < |s.stored| && s.stored[k] == e;
    assert ToDo(t) == ToDo(s)[1..];
    forall x | x in ToDo(t) && x.Malformed() ensures x in t.stored {
      assert x in ToDo(s);
      var i :| 0 <= i < |s.stored| && s.stored[i] == x;
      DeleteLeaves(s.stored, e.Id(), x);
    }
  }

  /** No other step of the loop takes a row away, or an event off what is to be done. */
  lemma QuietWork(s: State, t: State)
    requires Work(s, t) && !Remove(s, t) && !Skip(s, t)
    ensures ToDo(t) == ToDo(s) && t.stored == s.stored
  {
    match s.consumer
    case Waiting => assert Dequeue(s, t);
    case Loop(_) => assert ChangeMeta(s, t) || PublishIndex(s, t);
    case MetaChanged(_) => assert MirrorMeta(s, t);
    case MetaMirrored(_) => assert ChangeRepo(s, t);
    case RepoChanged(_) => assert MirrorRepo(s, t);
  }

  lemma SkipKeepsReplays(s: State, t: State)
    requires ReplaysStored(s) && Skip(s, t)
    ensures ReplaysStored(t)
  {
    assert ToDo(t) == ToDo(s)[1..];
  }

  lemma AcceptKeepsReplays(s: State, t: State, e: Event)
    requires ReplaysStored(s) && Accept(s, t, e)
    ensures ReplaysStored(t)
  {
    assert ToDo(t) == ToDo(s) + [e];
  }

  lemma ReplaysKept(s: State, t: State)
    requires Inv(s) && ReplaysStored(s) && Next(s, t)
    ensures ReplaysStored(t)
  {
    if Crash(s, t) {
      assert ToDo(t) == s.stored;
    } else if Remove(s, t) {
      var d: nat :| InvAt(s, d);
      HeadStored(s, d);
      RemoveKeepsReplays(s, t);
    } else if Skip(s, t) {
      SkipKeepsReplays(s, t);
    } else if Work(s, t) {
      QuietWork(s, t);
    } else {
      var e :| Accept(s, t, e);
      AcceptKeepsReplays(s, t, e);
    }
  }

  ghost predicate WindowInv(s: State) { Inv(s) && ReplaysStored(s) && IndexOk(s) }

  /** The window: a crash can lose the index only between the removal of a batch's last event and the push of the
      index, with no event waiting. */
  lemma WindowIsLast(run: seq<State>, i: nat)
    requires Runs.IsRun(Init, NextSafe, run) && i < |run| && LosesIndex(run[i])
    ensures run[i].consumer == Loop([]) && run[i].queue == []
  {
    forall s | Init(s) ensures WindowInv(s) { InitInv(s); }
    forall s, t | WindowInv(s) && NextSafe(s, t) ensures WindowInv(t) {
      StepKeeps(s, t);
      ReplaysKept(s, t);
      IndexKept(s, t);
    }
    Runs.InductiveHolds(Init, NextSafe, WindowInv, run);
    AtWindow(run[i]);
  }

  lemma OnlyReplays(work: seq<Event>, accepted: seq<Event>)
    requires P.WorkFrom(work, accepted, |accepted|)
    ensures forall x :: x in work ==> x.Malformed()
    ensures work != [] ==> exists x :: x in work
  {
    if work != [] { assert work[0] in work; }
  }

  lemma AtWindow(s: State)
    requires WindowInv(s) && LosesIndex(s)
    ensures s.consumer == Loop([]) && s.queue == []
  {
    var d: nat :| InvAt(s, d);
    assert |s.accepted[d..]| == 0;
    OnlyReplays(ToDo(s), s.accepted);
    assert ToDo(s) == [];
  }

  lemma OneMore(origin: State, s: State, t: State)
    requires Runs.Reaches(Next, origin, s) && Next(s, t)
    ensures Runs.Reaches(Next, origin, t)
  {
    Runs.ReachesStep(Next, origin, s, t);
  }

  /** The state in which one event's effects are mirrored and its row is gone, and the index is still to be pushed. */
  function BeforeIndex(s: State, e: Event): State {
    var meta, repo := s.fx.meta(e, s.metaLocal), s.fx.repo(e, s.repoLocal);
    s.(accepted := s.accepted + [e], metaLocal := meta, metaBucket := meta, repoLocal := repo, repoBucket := repo,
       consumer := Loop([]))
  }

  lemma GetsBeforeIndex(s: State, e: Event)
    requires Quiescent(s) && s.stored == [] && !e.Malformed()
    ensures Runs.Reaches(Next, s, BeforeIndex(s, e))
  {
    Runs.ReachesSelf(Next, s);
    var a := s.(accepted := s.accepted + [e], stored := [e], queue := [e]);
    assert Accept(s, a, e);
    OneMore(s, s, a);
    var b := a.(queue := [], consumer := Loop([e]));
    assert Dequeue(a, b);
    OneMore(s, a, b);
    var c := b.(metaLocal := s.fx.meta(e, s.metaLocal), consumer := MetaChanged([e]));
    assert ChangeMeta(b, c);
    OneMore(s, b, c);
    var d := c.(metaBucket := c.metaLocal, consumer := MetaMirrored([e]));
    assert MirrorMeta(c, d);
    OneMore(s, c, d);
    var f := d.(repoLocal := s.fx.repo(e, s.repoLocal), consumer := RepoChanged([e]));
    assert ChangeRepo(d, f);
    OneMore(s, d, f);
    var g := f.(repoBucket := f.repoLocal, consumer := RepoMirrored([e]));
    assert MirrorRepo(f, g);
    OneMore(s, f, g);
    assert [e][1..] == [] && DeleteEvent([e], e.Id()) == [];
    assert Remove(g, BeforeIndex(s, e));
    OneMore(s, g, BeforeIndex(s, e));
  }

  /** And every event that changes the metadata opens it: from a handler at rest with no row left, its processing and a
      crash before the push lead to rest with a stale index. */
  lemma EveryChangeOpensWindow(s: State, e: Event) returns (t: State)
    requires Quiescent(s) && s.stored == [] && !e.Malformed() && s.fx.meta(e, s.metaLocal) != s.published
    ensures Runs.Reaches(Next, s, t) && Quiescent(t) && !Fresh(t)
  {
    GetsBeforeIndex(s, e);
    var u := BeforeIndex(s, e);
    t := u.(metaLocal := u.metaBucket, repoLocal := u.repoBucket, queue := u.stored, consumer := Waiting);
    assert Crash(u, t);
    OneMore(s, u, t);
  }
}
