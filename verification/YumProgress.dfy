/** Progress of the YUM synchronisation: that it can always finish, and exactly when its counter can fall short. */
module YumProgress {
  import opened Wrappers
  import opened YumSync
  import Runs

  // ----- a synchronisation that nothing disturbs can always finish -----

  ghost function JobsBefore(s: State, jobs: set<Job>): set<nat> { set i | i in s.jobs && s.jobs[i] in jobs }

  ghost function RemovalsBefore(s: State, steps: set<Removal>): set<Id> {
    set id | id in s.removals && s.removals[id] in steps
  }

  ghost function WorkLeft(s: State): nat {
    match s.phase
    case Deleting => |RemovalsBefore(s, {Pending})| + |RemovalsBefore(s, {Pending, Located})|
    case _ =>
      (if s.reading.Some? then 1 else 0)
      + |JobsBefore(s, {Fetched})| + |JobsBefore(s, {Fetched, Looked})| + |JobsBefore(s, {Fetched, Looked, Stored})|
  }

  ghost function PhaseLeft(s: State): nat { match s.phase case Syncing => 2 case Deleting => 1 case _ => 0 }

  ghost predicate Undisturbed(s: State) {
    && Inv(s) && InjectiveUpstream(s) && !s.phase.Aborted? && forall i :: i in s.jobs ==> !s.jobs[i].Failed?
  }

  ghost predicate Nearer(s: State, u: State) {
    || PhaseLeft(u) < PhaseLeft(s)
    || (PhaseLeft(u) == PhaseLeft(s)
        && (u.position > s.position || (u.position == s.position && WorkLeft(u) < WorkLeft(s))))
  }

  function Following(job: Job): Job {
    match job case Fetched => Looked case Looked => Stored case _ => Finished
  }

  lemma JobsBeforeMove(s: State, u: State, i: nat, next: Job, jobs: set<Job>)
    requires i in s.jobs && u.jobs == s.jobs[i := next] && (next in jobs ==> s.jobs[i] in jobs)
    ensures |JobsBefore(u, jobs)| == |JobsBefore(s, jobs)| - if s.jobs[i] in jobs && next !in jobs then 1 else 0
  {
    if s.jobs[i] in jobs && next !in jobs {
      assert JobsBefore(u, jobs) == JobsBefore(s, jobs) - {i};
    } else {
      assert JobsBefore(u, jobs) == JobsBefore(s, jobs);
    }
  }

  lemma JobIsLess(s: State, u: State, i: nat)
    requires s.phase.Syncing? && u.phase.Syncing? && i in s.jobs && !s.jobs[i].Finished? && !s.jobs[i].Failed?
    requires u.jobs == s.jobs[i := Following(s.jobs[i])] && u.reading == s.reading
    ensures WorkLeft(u) < WorkLeft(s)
  {
    JobsBeforeMove(s, u, i, Following(s.jobs[i]), {Fetched});
    JobsBeforeMove(s, u, i, Following(s.jobs[i]), {Fetched, Looked});
    JobsBeforeMove(s, u, i, Following(s.jobs[i]), {Fetched, Looked, Stored});
  }

  lemma JobGoesOn(s: State, i: nat) returns (u: State)
    requires s.phase.Syncing? && i in s.jobs && i < |s.upstream| && !s.jobs[i].Finished? && !s.jobs[i].Failed?
    ensures JobStep(s, u, i) && Nearer(s, u) && u.phase == s.phase && u.jobs == s.jobs[i := Following(s.jobs[i])]
    ensures u.upstream == s.upstream && u.reading == s.reading && u.lost == s.lost
    ensures u.synced == s.synced + if s.jobs[i].Stored? then 1 else 0
  {
    var id := s.upstream[i];
    var tag := s.tagOf(id);
    var next := s.(jobs := s.jobs[i := Following(s.jobs[i])]);
    if s.jobs[i].Fetched? {
      u := next.(stale := if tag in s.table then s.stale - {s.table[tag]} else s.stale);
      assert Lookup(s, u, i);
    } else if s.jobs[i].Looked? {
      u := next.(table := s.table[tag := id],
                 overridden := if tag in s.table && s.table[tag] != id then s.overridden + {s.table[tag]}
                   else s.overridden);
      assert Store(s, u, i);
    } else {
      u := next.(synced := s.synced + 1);
      assert Count(s, u, i);
    }
    JobIsLess(s, u, i);
  }

  lemma RemovalGoesOn(s: State, id: Id) returns (u: State)
    requires s.phase.Deleting? && id in s.removals
             && (s.removals[id].Located? || (s.removals[id].Pending? && id in TableIds(s)))
    ensures (Locate(s, u, id) || Remove(s, u, id)) && Nearer(s, u) && u.phase == s.phase && u.jobs == s.jobs
  {
    var a, b := {Pending}, {Pending, Located};
    if s.removals[id].Pending? {
      u := s.(removals := s.removals[id := Located]);
      assert Locate(s, u, id);
      assert RemovalsBefore(u, a) == RemovalsBefore(s, a) - {id} && RemovalsBefore(u, b) == RemovalsBefore(s, b);
    } else {
      u := s.(removals := s.removals[id := Gone], table := map g | g in s.table && s.table[g] != id :: s.table[g],
              deleted := s.deleted + {id});
      assert Remove(s, u, id);
      assert RemovalsBefore(u, a) == RemovalsBefore(s, a) && RemovalsBefore(u, b) == RemovalsBefore(s, b) - {id};
    }
  }

  lemma GoOn(s: State) returns (u: State)
    requires Undisturbed(s) && !s.phase.Ended?
    ensures Next(s, u) && Nearer(s, u) && !u.phase.Aborted? && forall i :: i in u.jobs ==> !u.jobs[i].Failed?
  {
    if s.phase.Syncing? {
      if s.reading.Some? {
        u := s.(synced := s.reading.value + 1, lost := s.lost + s.synced - s.reading.value, reading := None);
        assert FilterCount(s, u);
        assert forall jobs :: JobsBefore(u, jobs) == JobsBefore(s, jobs);
      } else if i :| i in s.jobs && !s.jobs[i].Finished? {
        u := JobGoesOn(s, i);
      } else if s.position < |s.upstream| {
        var id := s.upstream[s.position];
        u := if id in s.stale then s.(stale := s.stale - {id}, reading := Some(s.synced), position := s.position + 1)
             else s.(jobs := s.jobs[s.position := Fetched], position := s.position + 1);
        assert Filter(s, u);
      } else {
        u := s.(phase := Deleting, removals := map id | id in s.stale :: Pending);
        assert StartDeleting(s, u);
      }
    } else if id :| id in s.removals && !s.removals[id].Gone? {
      u := RemovalGoesOn(s, id);
    } else {
      u := s.(phase := Ended);
      assert FinishSync(s, u);
    }
  }

  /** From wherever a schedule without failures has got to, the filter, workers and removals can carry the
      synchronisation to a successful end. */
  lemma CanFinish(s: State) returns (t: State)
    requires Undisturbed(s)
    ensures Runs.Reaches(Next, s, t) && t.phase == Ended
    decreases PhaseLeft(s), |s.upstream| - s.position, WorkLeft(s)
  {
    Runs.ReachesSelf(Next, s);
    if s.phase.Ended? {
      t := s;
    } else {
      var u := GoOn(s);
      StepKeeps(s, u);
      BasicKept(s, u);
      t := CanFinish(u);
      Runs.ReachesStep(Next, s, s, u);
      Runs.ReachesTrans(Next, s, u, t);
    }
  }

  // ----- when the counter can fall short -----

  ghost predicate DistinctUpstream(s: State) {
    forall i, j :: 0 <= i < j < |s.upstream| ==> s.upstream[i] != s.upstream[j]
  }

  /** A package that the table lacks is listed before one that it has. */
  ghost predicate MissingBeforeKept(s: State) {
    exists i, j :: 0 <= i < j < |s.upstream| && s.upstream[i] !in TableIds(s) && s.upstream[j] in TableIds(s)
  }

  ghost function SeenIds(s: State, k: nat): set<Id>
    requires k <= |s.upstream|
  {
    set m | 0 <= m < k :: s.upstream[m]
  }

  /** `s` is `init` after the filter dealt with the first k entries and no worker has moved. */
  ghost predicate FilteredTo(init: State, s: State, k: nat) {
    && k <= |init.upstream|
    && s == init.(position := k, stale := init.stale - SeenIds(init, k), synced := s.synced, jobs := JobsTo(init, k))
  }

  ghost function JobsTo(s: State, k: nat): map<nat, Job>
    requires k <= |s.upstream|
  {
    map m: nat | m < k && s.upstream[m] !in s.stale :: Fetched
  }

  lemma JobsToNext(s: State, k: nat)
    requires k < |s.upstream|
    ensures JobsTo(s, k + 1) == if s.upstream[k] in s.stale then JobsTo(s, k) else JobsTo(s, k)[k := Fetched]
    ensures SeenIds(s, k + 1) == SeenIds(s, k) + {s.upstream[k]}
  {
  }

  lemma FilterKept(init: State, s: State, k: nat) returns (t: State)
    requires FilteredTo(init, s, k) && k < |init.upstream| && s.phase.Syncing? && s.reading.None?
    requires init.upstream[k] in s.stale
    ensures Runs.Reaches(Next, s, t) && t == s.(stale := s.stale - {init.upstream[k]}, position := k + 1,
            synced := t.synced)
  {
    Runs.ReachesSelf(Next, s);
    var u := s.(stale := s.stale - {init.upstream[k]}, reading := Some(s.synced), position := k + 1);
    t := u.(synced := s.synced + 1, reading := None);
    assert Filter(s, u) && FilterCount(u, t);
    Runs.ReachesStep(Next, s, s, u);
    Runs.ReachesStep(Next, s, u, t);
  }

  lemma FilterMissing(init: State, s: State, k: nat) returns (t: State)
    requires FilteredTo(init, s, k) && k < |init.upstream| && s.phase.Syncing? && s.reading.None?
    requires init.upstream[k] !in s.stale
    ensures Runs.Reaches(Next, s, t) && t == s.(jobs := s.jobs[k := Fetched], position := k + 1)
  {
    Runs.ReachesSelf(Next, s);
    t := s.(jobs := s.jobs[k := Fetched], position := k + 1);
    assert Filter(s, t);
    Runs.ReachesStep(Next, s, s, t);
  }

  lemma FilterOneMore(init: State, s: State, k: nat) returns (t: State)
    requires Init(init) && DistinctUpstream(init) && FilteredTo(init, s, k) && k < |init.upstream|
    ensures Runs.Reaches(Next, s, t) && FilteredTo(init, t, k + 1)
  {
    var id := init.upstream[k];
    JobsToNext(init, k);
    assert id !in SeenIds(init, k);
    assert init.stale - SeenIds(init, k + 1) == init.stale - SeenIds(init, k) - {id};
    if id in init.stale { t := FilterKept(init, s, k); } else { t := FilterMissing(init, s, k); }
  }

  lemma {:induction false} FilterTo(init: State, k: nat) returns (s: State)
    requires Init(init) && DistinctUpstream(init) && k <= |init.upstream|
    ensures Runs.Reaches(Next, init, s) && FilteredTo(init, s, k)
  {
    if k == 0 {
      s := init;
      Runs.ReachesSelf(Next, init);
      assert SeenIds(init, 0) == {};
    } else {
      var before := FilterTo(init, k - 1);
      s := FilterOneMore(init, before, k - 1);
      Runs.ReachesTrans(Next, init, before, s);
    }
  }

  lemma JobMoves(origin: State, s: State, i: nat) returns (u: State)
    requires Runs.Reaches(Next, origin, s) && s.phase.Syncing? && i in s.jobs && i < |s.upstream|
    requires !s.jobs[i].Finished? && !s.jobs[i].Failed?
    ensures Runs.Reaches(Next, origin, u) && u.phase.Syncing? && u.upstream == s.upstream
    ensures u.jobs == s.jobs[i := Following(s.jobs[i])] && u.reading == s.reading && u.lost == s.lost
    ensures u.synced == s.synced + if s.jobs[i].Stored? then 1 else 0
  {
    u := JobGoesOn(s, i);
    Runs.ReachesStep(Next, origin, s, u);
  }

  /** A worker counts between the filter's read and its write. */
  lemma LoseOne(init: State, i: nat, j: nat) returns (t: State)
    requires Init(init) && DistinctUpstream(init) && i < j < |init.upstream|
    requires init.upstream[i] !in TableIds(init) && init.upstream[j] in TableIds(init)
    ensures Runs.Reaches(Next, init, t) && t.phase.Syncing? && t.lost == 1
    ensures forall m :: m in t.jobs ==> !t.jobs[m].Failed?
  {
    var s := FilterTo(init, j);
    assert init.upstream[j] !in SeenIds(init, j);
    var a := s.(stale := s.stale - {init.upstream[j]}, reading := Some(s.synced), position := j + 1);
    assert Filter(s, a);
    Runs.ReachesStep(Next, init, s, a);
    assert a.jobs[i] == Fetched;
    var b := JobMoves(init, a, i);
    var c := JobMoves(init, b, i);
    var d := JobMoves(init, c, i);
    t := d.(synced := d.reading.value + 1, lost := d.lost + d.synced - d.reading.value, reading := None);
    assert FilterCount(d, t);
    Runs.ReachesStep(Next, init, d, t);
  }

  lemma InitInv(s: State)
    requires Init(s)
    ensures Inv(s)
  {
    assert Unfinished(s) == {};
    forall t | t in s.table ensures RowOk(s, t) { assert s.table[t] in TableIds(s); }
  }

  ghost predicate LostSome(s: State) { Basic(s) && s.lost > 0 }

  lemma ShortRun(init: State, i: nat, j: nat) returns (t: State)
    requires Init(init) && DistinctUpstream(init) && InjectiveUpstream(init) && i < j < |init.upstream|
    requires init.upstream[i] !in TableIds(init) && init.upstream[j] in TableIds(init)
    ensures Runs.Reaches(Next, init, t) && t.phase.Ended? && t.synced < |t.upstream|
  {
    var s := LoseOne(init, i, j);
    InitInv(init);
    var inv := (x: State) => Inv(x) && InjectiveUpstream(x);
    forall x, y | inv(x) && Next(x, y) ensures inv(y) { StepKeeps(x, y); BasicKept(x, y); }
    Runs.ReachesKeeps(Next, inv, init, s);
    t := CanFinish(s);
    forall x, y | LostSome(x) && Next(x, y) ensures LostSome(y) { BasicKept(x, y); LostStays(x, y); }
    Runs.ReachesKeeps(Next, LostSome, s, t);
    Runs.ReachesTrans(Next, init, s, t);
  }

  lemma LostStays(s: State, t: State)
    requires Basic(s) && Next(s, t)
    ensures t.lost >= s.lost
  {
  }

  /** As long as no listed package is missing before a kept one, the filter is done counting before the first worker
      is. */
  ghost predicate InOrder(init: State, s: State) {
    && s.upstream == init.upstream && s.lost == 0 && Basic(s) && s.stale <= init.stale
    && (forall m :: m in s.jobs && m < |s.upstream| ==> s.upstream[m] !in init.stale)
    && (forall m :: s.position <= m < |s.upstream| && s.upstream[m] in init.stale ==>
          s.upstream[m] in s.stale || s.jobs != map[])
    && (s.reading.Some? ==> s.reading.value == s.synced && s.jobs == map[])
  }

  /** Where there is a worker, nothing that follows in the list was in the table. */
  lemma WorkerMeansMissing(init: State, s: State, m: nat, j: nat)
    requires Init(init) && !MissingBeforeKept(init) && InOrder(init, s) && m in s.jobs && s.position <= j < |s.upstream|
    ensures s.upstream[j] !in init.stale
  {
    assert m < s.position && init.upstream[m] !in TableIds(init);
  }

  lemma InOrderFilter(init: State, s: State, t: State)
    requires Init(init) && DistinctUpstream(init) && !MissingBeforeKept(init) && InOrder(init, s) && Filter(s, t)
    ensures InOrder(init, t)
  {
    BasicFilter(s, t);
    forall m | m in s.jobs ensures s.upstream[s.position] !in init.stale { WorkerMeansMissing(init, s, m, s.position); }
  }

  lemma InOrderJob(init: State, s: State, t: State, i: nat)
    requires InOrder(init, s) && JobStep(s, t, i)
    ensures InOrder(init, t)
  {
    BasicJob(s, t, i);
    assert i in t.jobs && t.jobs.Keys == s.jobs.Keys;
  }

  lemma InOrderRest(init: State, s: State, t: State)
    requires InOrder(init, s) && (FilterCount(s, t) || PhaseStep(s, t))
    ensures InOrder(init, t)
  {
    if FilterCount(s, t) {
      BasicFilter(s, t);
    } else {
      BasicPhase(s, t);
      PhaseFrame(s, t);
    }
  }

  lemma InOrderKept(init: State, s: State, t: State)
    requires Init(init) && DistinctUpstream(init) && !MissingBeforeKept(init) && InOrder(init, s) && Next(s, t)
    ensures InOrder(init, t)
  {
    if Filter(s, t) {
      InOrderFilter(init, s, t);
    } else if i :| JobStep(s, t, i) {
      InOrderJob(init, s, t, i);
    } else {
      InOrderRest(init, s, t);
    }
  }

  /** With distinct ids and tags upstream, some schedule ends without error and reports fewer packages than upstream
      lists if, and only if, a package that the table lacks is listed before one that it has. */
  lemma CounterFallsShortIff(init: State)
    requires Init(init) && DistinctUpstream(init) && InjectiveUpstream(init)
    ensures (exists t :: Runs.Reaches(Next, init, t) && t.phase.Ended? && t.synced < |t.upstream|) <==>
            MissingBeforeKept(init)
  {
    if MissingBeforeKept(init) {
      var i, j :| 0 <= i < j < |init.upstream| && init.upstream[i] !in TableIds(init)
        && init.upstream[j] in TableIds(init);
      var t := ShortRun(init, i, j);
    } else {
      InitInv(init);
      var inv := (s: State) => InOrder(init, s);
      forall s, t | inv(s) && Next(s, t) ensures inv(t) { InOrderKept(init, s, t); }
      forall t | Runs.Reaches(Next, init, t) && t.phase.Ended? ensures t.synced >= |t.upstream| {
        Runs.ReachesKeeps(Next, inv, init, t);
        assert InOrder(init, t);
      }
    }
  }
}
