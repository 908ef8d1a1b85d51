/** Synchronisation of a mirrored file tree: the plan made by comparing names, the pool of push workers that enrol
    themselves in a wait group, and the removal of what upstream no longer has.

    Rows are filed under a tag, the hash of a reference made from the lower-cased name, or of the plain name for a
    symbolic link; removal always uses the former. */
module MirrorTree {
  import Runs

  type Tag = string

  datatype Kind = Regular | Directory | Link | Other

  /** `meta` stands for size, mode and time. */
  datatype File = File(name: string, kind: Kind, meta: nat)
  datatype Row = Row(file: File, config: nat)

  // ----- the plan -----

  ghost function Names(files: seq<File>): set<string> { set i | 0 <= i < |files| :: files[i].name }

  /** The files whose name is not in `known`, in order. */
  ghost function Missing(files: seq<File>, known: set<string>): seq<File> {
    if files == [] then []
    else
      var rest := Missing(files[..|files| - 1], known);
      if files[|files| - 1].name in known then rest else rest + [files[|files| - 1]]
  }

  lemma {:induction false} MissingMeans(files: seq<File>, known: set<string>)
    ensures forall f :: f in Missing(files, known) <==> f in files && f.name !in known
    ensures Names(Missing(files, known)) == Names(files) - known
  {
    if files != [] {
      var front, last := files[..|files| - 1], files[|files| - 1];
      MissingMeans(front, known);
      assert files == front + [last];
    }
    NamesMeans(files);
    NamesMeans(Missing(files, known));
  }

  lemma NamesMeans(files: seq<File>)
    ensures forall n :: n in Names(files) <==> exists f :: f in files && f.name == n
  {
    forall f | f in files ensures f.name in Names(files) {
      var i :| 0 <= i < |files| && files[i] == f;
    }
  }

  /** The names of `files` as the keys of a map. */
  method NameIndex(files: seq<File>) returns (index: map<string, File>)
    ensures index.Keys == Names(files)
    ensures forall n :: n in index ==> index[n].name == n && index[n] in files
  {
    index := map[];
    for i := 0 to |files|
      invariant index.Keys == Names(files[..i])
      invariant forall n :: n in index ==> index[n].name == n && index[n] in files
    {
      index := index[files[i].name := files[i]];
      assert files[..i + 1] == files[..i] + [files[i]];
      assert Names(files[..i + 1]) == Names(files[..i]) + {files[i].name} by {
        assert files[..i + 1][i].name == files[i].name;
        forall k | 0 <= k < i ensures files[..i + 1][k] == files[..i][k] {}
      }
    }
    assert files[..|files|] == files;
  }

  /** What to add and what to delete. */
  method Diff(local: seq<File>, remote: seq<File>) returns (add: seq<File>, del: seq<File>)
    ensures add == Missing(remote, Names(local))
    ensures del == Missing(local, Names(remote))
  {
    var mLocal := NameIndex(local);
    add := [];
    for i := 0 to |remote|
      invariant add == Missing(remote[..i], Names(local))
    {
      assert remote[..i + 1][..i] == remote[..i];
      if remote[i].name !in mLocal { add := add + [remote[i]]; }
    }
    assert remote[..|remote|] == remote;
    var mRemote := NameIndex(remote);
    del := [];
    for i := 0 to |local|
      invariant del == Missing(local[..i], Names(remote))
    {
      assert local[..i + 1][..i] == local[..i];
      if local[i].name !in mRemote { del := del + [local[i]]; }
    }
    assert local[..|local|] == local;
  }

  // ----- the synchronisation -----

  /** What one synchronisation starts from and its plan; `local` lists the rows of its config. */
  datatype Job = Job(
    fileTag: string -> Tag, linkTag: string -> Tag, config: nat, initial: map<Tag, Row>,
    local: seq<File>, remote: seq<File>, adds: seq<File>, dels: seq<File>)

  ghost predicate Planned(job: Job) {
    && (forall f :: f in job.local <==> exists t :: t in job.initial && job.initial[t] == Row(f, job.config))
    && job.adds == Missing(job.remote, Names(job.local))
    && job.dels == Missing(job.local, Names(job.remote))
  }

  function KeyOf(job: Job, f: File): Tag { if f.kind.Link? then job.linkTag(f.name) else job.fileTag(f.name) }

  datatype Worker = Unborn | Ready | Pushing(f: File) | Exited

  datatype Phase = Dispatching | Waiting | Deleting(k: nat) | Ended(ok: bool)

  /** `wg` is the wait group's counter. `stored` and `failed` record the names whose row was written, or given up. */
  datatype State = State(
    job: Job, table: map<Tag, Row>, next: nat, workers: seq<Worker>, wg: int, phase: Phase,
    stored: set<string>, failed: set<string>)

  ghost predicate Init(s: State) {
    && Planned(s.job) && s.table == s.job.initial && s.next == 0 && s.wg == 0 && s.phase == Dispatching
    && s.stored == {} && s.failed == {} && forall w :: 0 <= w < |s.workers| ==> s.workers[w] == Unborn
  }

  ghost predicate Is(s: State, w: nat, worker: Worker) { w < |s.workers| && s.workers[w] == worker }

  ghost function Upserted(s: State, f: File): State {
    s.(table := s.table[KeyOf(s.job, f) := Row(f, s.job.config)], stored := s.stored + {f.name})
  }

  ghost predicate Begin(s: State, t: State, w: nat) {
    Is(s, w, Unborn) && t == s.(workers := s.workers[w := Ready], wg := s.wg + 1)
  }

  /** The channel is unbuffered: sending a file and a worker's receiving it are one step. */
  ghost predicate Handoff(s: State, t: State, w: nat) {
    && s.phase.Dispatching? && s.next < |s.job.adds| && s.job.adds[s.next].kind.Regular? && Is(s, w, Ready)
    && t == s.(workers := s.workers[w := Pushing(s.job.adds[s.next])], next := s.next + 1)
  }

  ghost predicate Push(s: State, t: State, w: nat) {
    && w < |s.workers| && s.workers[w].Pushing?
    && t == Upserted(s, s.workers[w].f).(workers := s.workers[w := Ready])
  }

  /** A failed push is logged and forgotten. */
  ghost predicate PushFails(s: State, t: State, w: nat) {
    && w < |s.workers| && s.workers[w].Pushing?
    && t == s.(workers := s.workers[w := Ready], failed := s.failed + {s.workers[w].f.name})
  }

  /** A worker leaves once the channel is closed. */
  ghost predicate Leave(s: State, t: State, w: nat) {
    && Is(s, w, Ready) && !s.phase.Dispatching? && s.phase != Ended(false)
    && t == s.(workers := s.workers[w := Exited], wg := s.wg - 1)
  }

  /** Directories and links are filed at once, other kinds are skipped. */
  ghost predicate FileAtOnce(s: State, t: State) {
    && s.phase.Dispatching? && s.next < |s.job.adds|
    && var f := s.job.adds[s.next];
    && !f.kind.Regular?
    && t == (if f.kind.Other? then s.(failed := s.failed + {f.name}) else Upserted(s, f)).(next := s.next + 1)
  }

  ghost predicate CloseChannel(s: State, t: State) {
    s.phase.Dispatching? && s.next == |s.job.adds| && t == s.(phase := Waiting)
  }

  ghost predicate WaitReturns(s: State, t: State) { s.phase.Waiting? && s.wg == 0 && t == s.(phase := Deleting(0)) }

  ghost predicate Delete(s: State, t: State) {
    && s.phase.Deleting? && s.phase.k < |s.job.dels|
    && t == s.(table := s.table - {s.job.fileTag(s.job.dels[s.phase.k].name)}, phase := Deleting(s.phase.k + 1))
  }

  ghost predicate Finish(s: State, t: State) {
    s.phase == Deleting(|s.job.dels|) && t == s.(phase := Ended(true))
  }

  /** A database error in Sync itself; the workers are left where they are. */
  ghost predicate Abort(s: State, t: State) {
    (s.phase.Dispatching? || s.phase.Deleting?) && t == s.(phase := Ended(false))
  }

  ghost predicate WorkerStep(s: State, t: State, w: nat) {
    Begin(s, t, w) || Handoff(s, t, w) || Push(s, t, w) || PushFails(s, t, w) || Leave(s, t, w)
  }

  ghost predicate MainStep(s: State, t: State) {
    FileAtOnce(s, t) || CloseChannel(s, t) || WaitReturns(s, t) || Delete(s, t) || Finish(s, t) || Abort(s, t)
  }

  ghost predicate Next(s: State, t: State) { (exists w: nat :: WorkerStep(s, t, w)) || MainStep(s, t) }

  /** Where a row is filed when its turn comes: a directory, and a file when its push succeeds, under the tag of the
      reference, a link under the tag of its plain name, anything else nowhere; no other row is touched. */
  lemma FiledUnder(s: State, t: State, f: File, tag: Tag)
    requires (FileAtOnce(s, t) && f == s.job.adds[s.next])
             || exists w: nat :: Push(s, t, w) && f == s.workers[w].f
    requires f.kind.Directory? || f.kind.Regular? || f.kind.Link?
    requires tag == if f.kind.Link? then s.job.linkTag(f.name) else s.job.fileTag(f.name)
    ensures t.table == s.table[tag := Row(f, s.job.config)]
  {
  }

  /** A push that fails, and a file of another kind, write nothing. */
  lemma NotFiled(s: State, t: State)
    requires (FileAtOnce(s, t) && s.job.adds[s.next].kind.Other?) || exists w: nat :: PushFails(s, t, w)
    ensures t.table == s.table && t.stored == s.stored
  {
  }

  // ----- the wait group -----

  ghost function Enrolled(s: State): set<nat> {
    set w | 0 <= w < |s.workers| && (s.workers[w].Ready? || s.workers[w].Pushing?)
  }

  ghost predicate NonePushing(s: State) { forall w :: 0 <= w < |s.workers| ==> !s.workers[w].Pushing? }

  ghost predicate PastWaiting(s: State) { s.phase.Deleting? || s.phase == Ended(true) }

  ghost predicate PoolOk(s: State) {
    && s.wg == |Enrolled(s)| && s.next <= |s.job.adds|
    && (s.phase.Dispatching? ==> forall w :: 0 <= w < |s.workers| ==> !s.workers[w].Exited?)
    && (PastWaiting(s) ==> NonePushing(s))
    && (s.phase.Waiting? || PastWaiting(s) ==> s.next == |s.job.adds|)
    && (s.phase.Deleting? ==> s.phase.k <= |s.job.dels|)
  }

  lemma EnrolledChanges(s: State, t: State, w: nat)
    requires WorkerStep(s, t, w)
    ensures Enrolled(t) == if Begin(s, t, w) then Enrolled(s) + {w}
                           else if Leave(s, t, w) then Enrolled(s) - {w} else Enrolled(s)
  {
    assert forall v :: 0 <= v < |s.workers| && v != w ==> t.workers[v] == s.workers[v];
  }

  lemma WgKept(s: State, t: State, w: nat)
    requires s.wg == |Enrolled(s)| && WorkerStep(s, t, w)
    ensures t.wg == |Enrolled(t)|
  {
    EnrolledChanges(s, t, w);
    if Leave(s, t, w) { assert w in Enrolled(s); }
  }

  lemma PoolKeptByWorker(s: State, t: State, w: nat)
    requires PoolOk(s) && WorkerStep(s, t, w)
    ensures PoolOk(t) && t.job == s.job
  {
    WgKept(s, t, w);
  }

  lemma PoolKept(s: State, t: State)
    requires PoolOk(s) && Next(s, t)
    ensures PoolOk(t) && t.job == s.job
  {
    if w: nat :| WorkerStep(s, t, w) {
      PoolKeptByWorker(s, t, w);
    } else {
      assert Enrolled(t) == Enrolled(s);
      if WaitReturns(s, t) {
        forall w | 0 <= w < |t.workers| ensures !t.workers[w].Pushing? { assert w !in Enrolled(s); }
      }
    }
  }

  /** Although workers enrol themselves, possibly late, nothing is deleted while a file handed to a worker is on its
      way. */
  lemma DeletesWaitForPushes(run: seq<State>, i: nat)
    requires Runs.IsRun(Init, Next, run) && i < |run| && PastWaiting(run[i])
    ensures NonePushing(run[i]) && run[i].next == |run[i].job.adds|
  {
    forall s | Init(s) ensures PoolOk(s) { assert Enrolled(s) == {}; }
    forall s, t | PoolOk(s) && Next(s, t) ensures PoolOk(t) { PoolKept(s, t); }
    Runs.InductiveHolds(Init, Next, PoolOk, run);
    assert PoolOk(run[i]);
  }

  // ----- the rows -----

  ghost predicate Plain(f: File) { f.kind.Regular? || f.kind.Directory? }

  /** Only files and directories: every row of the config is filed under its file tag. */
  ghost predicate PlainJob(job: Job) {
    && Planned(job)
    && (forall t :: t in job.initial && job.initial[t].config == job.config ==>
          job.fileTag(job.initial[t].file.name) == t)
    && (forall f :: f in job.remote ==> Plain(f))
  }

  /** No two names, here or upstream, share a tag. */
  ghost predicate DistinctTags(job: Job) {
    forall m, n | m in Names(job.local) + Names(job.remote) && n in Names(job.local) + Names(job.remote) ::
      job.fileTag(m) == job.fileTag(n) ==> m == n
  }

  ghost function MyNames(s: State): set<string> {
    set t | t in s.table && s.table[t].config == s.job.config :: s.table[t].file.name
  }

  ghost predicate PushingName(s: State, name: string) {
    exists w :: 0 <= w < |s.workers| && s.workers[w].Pushing? && s.workers[w].f.name == name
  }

  /** Every file taken from the plan is written, given up or with a worker. */
  ghost predicate FilesOk(s: State) {
    && (forall w :: 0 <= w < |s.workers| && s.workers[w].Pushing? ==>
          s.workers[w].f in s.job.adds && s.workers[w].f.kind.Regular?)
    && (forall n :: n in s.failed ==> exists f :: f in s.job.adds && f.name == n)
    && (forall i :: 0 <= i < s.next && i < |s.job.adds| ==>
          var n := s.job.adds[i].name; n in s.stored || n in s.failed || PushingName(s, n))
  }

  ghost predicate WrittenRow(s: State, t: Tag, row: Row) {
    row.file in s.job.adds && row.config == s.job.config && KeyOf(s.job, row.file) == t && row.file.name in s.stored
  }

  /** Rows are the initial ones, or written for a file of the plan under its own key. */
  ghost predicate RowsOk(s: State) {
    && (forall n :: n in s.stored ==> exists f :: f in s.job.adds && f.name == n)
    && forall t :: t in s.table ==>
         (t in s.job.initial && s.table[t] == s.job.initial[t]) || WrittenRow(s, t, s.table[t])
  }

  /** A tag that no step of this synchronisation writes or removes. */
  ghost predicate Untouched(job: Job, t: Tag) {
    (forall f :: f in job.adds ==> KeyOf(job, f) != t) && forall f :: f in job.dels ==> job.fileTag(f.name) != t
  }

  /** How many of the planned removals are done. */
  ghost function Removed(s: State): nat {
    match s.phase
    case Deleting(k) => k
    case Ended(ok) => if ok then |s.job.dels| else 0
    case _ => 0
  }

  /** A tag that the plan removes. */
  ghost predicate Doomed(job: Job, t: Tag) { exists f :: f in job.dels && job.fileTag(f.name) == t }

  /** Removed rows stay removed, a tag that was there goes only if the plan removes it, and untouched rows stay. */
  ghost predicate RemovalsOk(s: State) {
    && (forall t :: t in s.job.initial && !Doomed(s.job, t) ==> t in s.table)
    && (forall i :: 0 <= i < Removed(s) && i < |s.job.dels| ==> s.job.fileTag(s.job.dels[i].name) !in s.table)
    && forall t :: t in s.job.initial && Untouched(s.job, t) ==> t in s.table && s.table[t] == s.job.initial[t]
  }

  /** With distinct tags, what was written is there. */
  ghost predicate StoredOk(s: State) {
    PlainJob(s.job) && DistinctTags(s.job) ==>
      forall n :: n in s.stored ==>
        var t := s.job.fileTag(n);
        t in s.table && s.table[t].file.name == n && s.table[t].config == s.job.config
  }

  ghost predicate TableOk(s: State) { RowsOk(s) && RemovalsOk(s) && StoredOk(s) }

  ghost predicate Inv(s: State) { PoolOk(s) && FilesOk(s) && TableOk(s) }

  lemma PlanMeans(job: Job)
    requires Planned(job)
    ensures forall f :: f in job.adds <==> f in job.remote && f.name !in Names(job.local)
    ensures forall f :: f in job.dels <==> f in job.local && f.name !in Names(job.remote)
    ensures Names(job.adds) == Names(job.remote) - Names(job.local)
    ensures Names(job.dels) == Names(job.local) - Names(job.remote)
    ensures forall f :: f in job.remote ==> f.name in Names(job.remote)
    ensures forall f :: f in job.local ==> f.name in Names(job.local)
  {
    MissingMeans(job.remote, Names(job.local));
    MissingMeans(job.local, Names(job.remote));
    NamesMeans(job.remote);
    NamesMeans(job.local);
  }

  lemma AddedNames(job: Job)
    requires PlainJob(job)
    ensures forall f :: f in job.adds ==> Plain(f) && f.name in Names(job.remote)
  {
    PlanMeans(job);
  }

  lemma UpsertKeepsStored(s: State, t: State, f: File)
    requires RowsOk(s) && StoredOk(s) && f in s.job.adds
    requires t.job == s.job && t.table == Upserted(s, f).table && t.stored == Upserted(s, f).stored
    ensures StoredOk(t)
  {
    if PlainJob(s.job) && DistinctTags(s.job) {
      AddedNames(s.job);
      forall n | n in t.stored && n != f.name ensures s.job.fileTag(n) != s.job.fileTag(f.name) {
        var g :| g in s.job.adds && g.name == n;
      }
    }
  }

  lemma UpsertKeeps(s: State, t: State, f: File)
    requires TableOk(s) && Removed(t) == 0 && f in s.job.adds
    requires t.job == s.job && t.table == Upserted(s, f).table && t.stored == Upserted(s, f).stored
    ensures TableOk(t)
  {
    UpsertKeepsStored(s, t, f);
    forall g | g in t.table
      ensures (g in t.job.initial && t.table[g] == t.job.initial[g]) || WrittenRow(t, g, t.table[g])
    {
      if g != KeyOf(s.job, f) { assert WrittenRow(s, g, s.table[g]) ==> WrittenRow(t, g, t.table[g]); }
    }
  }

  lemma SameTable(s: State, t: State)
    requires TableOk(s) && t.job == s.job && t.table == s.table && t.stored == s.stored && Removed(t) <= Removed(s)
    ensures TableOk(t)
  {
    forall g | g in t.table
      ensures (g in t.job.initial && t.table[g] == t.job.initial[g]) || WrittenRow(t, g, t.table[g])
    {
      assert WrittenRow(s, g, s.table[g]) ==> WrittenRow(t, g, t.table[g]);
    }
  }

  lemma DeleteKeepsStored(s: State, t: State)
    requires RowsOk(s) && StoredOk(s) && Delete(s, t)
    ensures StoredOk(t)
  {
    var d := s.job.dels[s.phase.k];
    assert d in s.job.dels;
    if PlainJob(s.job) && DistinctTags(s.job) {
      PlanMeans(s.job);
      forall n | n in s.stored ensures s.job.fileTag(n) != s.job.fileTag(d.name) {
        var g :| g in s.job.adds && g.name == n;
        assert n in Names(s.job.remote) && d.name in Names(s.job.local);
      }
    }
  }

  lemma DeleteKeeps(s: State, t: State)
    requires TableOk(s) && Delete(s, t)
    ensures TableOk(t)
  {
    DeleteKeepsStored(s, t);
    assert s.job.dels[s.phase.k] in s.job.dels;
    forall g | g in t.table
      ensures (g in t.job.initial && t.table[g] == t.job.initial[g]) || WrittenRow(t, g, t.table[g])
    {
      assert WrittenRow(s, g, s.table[g]) ==> WrittenRow(t, g, t.table[g]);
    }
  }

  lemma TableKept(s: State, t: State)
    requires Inv(s) && PoolOk(t) && Next(s, t)
    ensures TableOk(t)
  {
    if w: nat :| WorkerStep(s, t, w) {
      if Push(s, t, w) { UpsertKeeps(s, t, s.workers[w].f); } else { SameTable(s, t); }
    } else if Delete(s, t) {
      DeleteKeeps(s, t);
    } else if FileAtOnce(s, t) && !s.job.adds[s.next].kind.Other? {
      UpsertKeeps(s, t, s.job.adds[s.next]);
    } else {
      SameTable(s, t);
    }
  }

  lemma FilesKeptByWorker(s: State, t: State, w: nat)
    requires PoolOk(s) && FilesOk(s) && WorkerStep(s, t, w)
    ensures FilesOk(t)
  {
    forall n | PushingName(s, n) ensures n in t.stored || n in t.failed || PushingName(t, n) {
      var v :| 0 <= v < |s.workers| && s.workers[v].Pushing? && s.workers[v].f.name == n;
      assert v != w ==> t.workers[v] == s.workers[v];
    }
    if Handoff(s, t, w) { assert t.workers[w].Pushing? && t.workers[w].f == s.job.adds[s.next]; }
  }

  lemma FilesKept(s: State, t: State)
    requires PoolOk(s) && FilesOk(s) && Next(s, t)
    ensures FilesOk(t)
  {
    if w: nat :| WorkerStep(s, t, w) {
      FilesKeptByWorker(s, t, w);
    } else {
      assert forall n :: PushingName(s, n) ==> PushingName(t, n);
    }
  }

  lemma StepKeeps(s: State, t: State)
    requires Inv(s) && Next(s, t)
    ensures Inv(t)
  {
    PoolKept(s, t);
    FilesKept(s, t);
    TableKept(s, t);
  }

  lemma InvHolds(run: seq<State>)
    requires Runs.IsRun(Init, Next, run)
    ensures forall i :: 0 <= i < |run| ==> Inv(run[i]) && run[i].job == run[0].job
  {
    var job := run[0].job;
    var inv := (s: State) => Inv(s) && s.job == job;
    var init := (s: State) => Init(s) && s.job == job;
    forall s | init(s) ensures inv(s) { assert Enrolled(s) == {}; }
    forall s, t | inv(s) && Next(s, t) ensures inv(t) { StepKeeps(s, t); PoolKept(s, t); }
    Runs.InductiveHolds(init, Next, inv, run);
    forall i | 0 <= i < |run| ensures Inv(run[i]) && run[i].job == job { assert inv(run[i]); }
  }

  // ----- main results -----

  /** Workers only ever push regular files of the plan. */
  lemma OnlyRegularPushed(run: seq<State>, i: nat, w: nat)
    requires Runs.IsRun(Init, Next, run) && i < |run| && w < |run[i].workers| && run[i].workers[w].Pushing?
    ensures run[i].workers[w].f in run[i].job.adds && run[i].workers[w].f.kind.Regular?
  {
    InvHolds(run);
    assert Inv(run[i]);
  }

  ghost predicate Done(s: State) { Inv(s) && PlainJob(s.job) && s.phase == Ended(true) }

  lemma LocalRow(job: Job, n: string)
    requires PlainJob(job) && n in Names(job.local)
    ensures job.fileTag(n) in job.initial
    ensures job.initial[job.fileTag(n)].file.name == n && job.initial[job.fileTag(n)].config == job.config
  {
    NamesMeans(job.local);
    var f :| f in job.local && f.name == n;
    var t :| t in job.initial && job.initial[t] == Row(f, job.config);
  }

  /** The config's rows are filed under the file tag of their names. */
  lemma MineFiled(s: State, n: string)
    requires Done(s)
    ensures n in MyNames(s) <==>
            var t := s.job.fileTag(n); t in s.table && s.table[t].file.name == n && s.table[t].config == s.job.config
  {
    if n in MyNames(s) {
      var t :| t in s.table && s.table[t].config == s.job.config && s.table[t].file.name == n;
      PlanMeans(s.job);
      if WrittenRow(s, t, s.table[t]) { assert Plain(s.table[t].file); }
    }
  }

  lemma StaleGone(s: State, n: string)
    requires Done(s) && n in Names(s.job.local) - Names(s.job.remote)
    ensures s.job.fileTag(n) !in s.table
  {
    PlanMeans(s.job);
    assert n in Names(s.job.dels);
    var i :| 0 <= i < |s.job.dels| && s.job.dels[i].name == n;
  }

  lemma KeptStays(s: State, n: string)
    requires Done(s) && DistinctTags(s.job) && n in Names(s.job.local) * Names(s.job.remote)
    ensures n in MyNames(s)
    ensures var t := s.job.fileTag(n); t in s.table && t in s.job.initial && s.table[t] == s.job.initial[t]
  {
    PlanMeans(s.job);
    LocalRow(s.job, n);
    MineFiled(s, n);
    forall f | f in s.job.adds ensures KeyOf(s.job, f) != s.job.fileTag(n) {
      assert Plain(f) && f.name in Names(s.job.remote);
    }
    assert Untouched(s.job, s.job.fileTag(n));
  }

  lemma NewIsThere(s: State, n: string)
    requires Done(s) && DistinctTags(s.job) && n in Names(s.job.remote) - Names(s.job.local)
    ensures n in MyNames(s) <==> n in s.stored
    ensures n in s.stored || n in s.failed
    ensures n in MyNames(s) ==> var t := s.job.fileTag(n); t in s.table && s.table[t].file in s.job.remote
  {
    PlanMeans(s.job);
    MineFiled(s, n);
    assert n in Names(s.job.adds);
    var i :| 0 <= i < |s.job.adds| && s.job.adds[i].name == n;
    assert !PushingName(s, n);
  }

  lemma MineIsRemote(s: State, n: string)
    requires Done(s) && n in MyNames(s)
    ensures n in Names(s.job.remote)
  {
    PlanMeans(s.job);
    MineFiled(s, n);
    var t := s.job.fileTag(n);
    if WrittenRow(s, t, s.table[t]) {
      assert s.table[t].file in s.job.remote;
    } else {
      assert s.table[t] == Row(s.table[t].file, s.job.config);
      assert s.table[t].file in s.job.local;
      assert n !in Names(s.job.local) - Names(s.job.remote) by {
        if n in Names(s.job.local) - Names(s.job.remote) { StaleGone(s, n); }
      }
    }
  }

  /** Tree sync: in every schedule that ends without error, over a tree of files and directories whose names have
      distinct tags, the config's rows are exactly the remote names, but for those that were given up and not written.
      A new name's row holds what upstream lists; a name that was there before keeps its old row, even if upstream
      changed the file. */
  lemma TreeConverges(run: seq<State>)
    requires Runs.IsRun(Init, Next, run) && run[|run| - 1].phase == Ended(true)
    requires PlainJob(run[0].job) && DistinctTags(run[0].job)
    ensures var s := run[|run| - 1];
            && MyNames(s) == Names(s.job.remote) - (s.failed - s.stored)
            && forall n :: n in MyNames(s) ==>
                 var t := s.job.fileTag(n);
                 t in s.table && if n in Names(s.job.local) then t in s.job.initial && s.table[t] == s.job.initial[t]
                                 else s.table[t].file in s.job.remote
  {
    InvHolds(run);
    var s := run[|run| - 1];
    assert Done(s);
    PlanMeans(s.job);
    NamesMeans(s.job.adds);
    forall n ensures n in MyNames(s) <==> n in Names(s.job.remote) - (s.failed - s.stored) {
      if n in MyNames(s) { MineIsRemote(s, n); }
      if n in Names(s.job.remote) {
        if n in Names(s.job.local) { KeptStays(s, n); } else { NewIsThere(s, n); }
      }
    }
  }

  lemma ConvergedIsDistinct(s: State, m: string, n: string)
    requires Done(s) && MyNames(s) == Names(s.job.remote) && s.job.fileTag(m) == s.job.fileTag(n)
    requires m in Names(s.job.local) + Names(s.job.remote) && n in Names(s.job.remote)
    ensures m == n
  {
    MineFiled(s, n);
    MineFiled(s, m);
    assert m in Names(s.job.remote) by {
      if m !in Names(s.job.remote) { StaleGone(s, m); }
    }
  }

  /** Without failed pushes the tree converges exactly when no two names, here or upstream, share a tag. */
  lemma TreeConvergesIff(run: seq<State>)
    requires Runs.IsRun(Init, Next, run) && run[|run| - 1].phase == Ended(true)
    requires PlainJob(run[0].job) && run[|run| - 1].failed == {}
    ensures var s := run[|run| - 1]; MyNames(s) == Names(s.job.remote) <==> DistinctTags(s.job)
  {
    InvHolds(run);
    var s := run[|run| - 1];
    assert Done(s);
    if DistinctTags(s.job) { TreeConverges(run); }
    if MyNames(s) == Names(s.job.remote) {
      forall m, n | m in Names(s.job.local) + Names(s.job.remote) && n in Names(s.job.local) + Names(s.job.remote)
                    && s.job.fileTag(m) == s.job.fileTag(n)
        ensures m == n
      {
        if n in Names(s.job.remote) {
          ConvergedIsDistinct(s, m, n);
        } else if m in Names(s.job.remote) {
          ConvergedIsDistinct(s, n, m);
        } else {
          LocalRow(s.job, m);
          LocalRow(s.job, n);
        }
      }
    }
  }

  // ----- the rows themselves -----

  /** The config's rows are exactly the files that upstream lists, contents and all. */
  ghost predicate RowsAreRemote(s: State) {
    forall f :: f in s.job.remote <==> exists t :: t in s.table && s.table[t] == Row(f, s.job.config)
  }

  ghost predicate UniqueNames(files: seq<File>) {
    forall f, g :: f in files && g in files && f.name == g.name ==> f == g
  }

  /** No file that both sides know differs between them. */
  ghost predicate Unchanged(job: Job) {
    forall f :: f in job.local && f.name in Names(job.remote) ==> f in job.remote
  }

  /** A row of the config is where its name's file tag says. */
  lemma MineAt(s: State, t: Tag)
    requires Done(s) && t in s.table && s.table[t].config == s.job.config
    ensures s.job.fileTag(s.table[t].file.name) == t && s.table[t].file.name in MyNames(s)
  {
    PlanMeans(s.job);
    if WrittenRow(s, t, s.table[t]) { assert Plain(s.table[t].file); }
  }

  /** A file listed here that upstream still has keeps its very row. */
  lemma KeptRow(s: State, f: File)
    requires Done(s) && DistinctTags(s.job) && f in s.job.local && f.name in Names(s.job.remote)
    ensures var t := s.job.fileTag(f.name); t in s.table && s.table[t] == Row(f, s.job.config)
  {
    PlanMeans(s.job);
    var t :| t in s.job.initial && s.job.initial[t] == Row(f, s.job.config);
    KeptStays(s, f.name);
  }

  /** With nothing changed, the row under a remote file's tag is that file's. */
  lemma RowIsRemote(s: State, f: File)
    requires Done(s) && DistinctTags(s.job) && s.failed == {} && UniqueNames(s.job.remote) && Unchanged(s.job)
    requires f in s.job.remote
    ensures var t := s.job.fileTag(f.name); t in s.table && s.table[t] == Row(f, s.job.config)
  {
    PlanMeans(s.job);
    MineFiled(s, f.name);
    if f.name in Names(s.job.local) {
      NamesMeans(s.job.local);
      var g :| g in s.job.local && g.name == f.name;
      KeptRow(s, g);
    } else {
      NewIsThere(s, f.name);
    }
  }

  lemma UnchangedIsRemote(s: State)
    requires Done(s) && DistinctTags(s.job) && s.failed == {} && UniqueNames(s.job.remote) && Unchanged(s.job)
    ensures RowsAreRemote(s)
  {
    forall f ensures f in s.job.remote <==> exists t :: t in s.table && s.table[t] == Row(f, s.job.config) {
      if f in s.job.remote {
        RowIsRemote(s, f);
      } else if t :| t in s.table && s.table[t] == Row(f, s.job.config) {
        MineAt(s, t);
        MineIsRemote(s, f.name);
        NamesMeans(s.job.remote);
        var g :| g in s.job.remote && g.name == f.name;
        RowIsRemote(s, g);
      }
    }
  }

  lemma RemoteNamesAreMine(s: State)
    requires Done(s) && RowsAreRemote(s)
    ensures MyNames(s) == Names(s.job.remote)
  {
    NamesMeans(s.job.remote);
    forall n ensures n in MyNames(s) <==> n in Names(s.job.remote) {
      if n in MyNames(s) { MineIsRemote(s, n); }
      if f :| f in s.job.remote && f.name == n {
        var t :| t in s.table && s.table[t] == Row(f, s.job.config);
      }
    }
  }

  /** Content: without failed pushes, and with one upstream file per name, the rows are in the end exactly the files
      that upstream lists if, and only if, no two names share a tag and no file that both sides know has changed: names
      are all that is compared, so a changed file is never fetched again. */
  lemma ContentConvergesIff(run: seq<State>)
    requires Runs.IsRun(Init, Next, run) && run[|run| - 1].phase == Ended(true)
    requires PlainJob(run[0].job) && UniqueNames(run[0].job.remote) && run[|run| - 1].failed == {}
    ensures var s := run[|run| - 1]; RowsAreRemote(s) <==> DistinctTags(s.job) && Unchanged(s.job)
  {
    InvHolds(run);
    var s := run[|run| - 1];
    assert Done(s);
    if RowsAreRemote(s) {
      RemoteNamesAreMine(s);
      TreeConvergesIff(run);
      forall f | f in s.job.local && f.name in Names(s.job.remote) ensures f in s.job.remote { KeptRow(s, f); }
    }
    if DistinctTags(s.job) && Unchanged(s.job) { UnchangedIsRemote(s); }
  }

  /** What becomes of a changed file: in every run that ends, its row is the old one, and the new one is nowhere. */
  lemma ChangedFileStays(run: seq<State>, was: File, now: File)
    requires Runs.IsRun(Init, Next, run) && run[|run| - 1].phase == Ended(true)
    requires PlainJob(run[0].job) && DistinctTags(run[0].job)
    requires was in run[0].job.local && now in run[0].job.remote && was.name == now.name && was != now
    ensures var s := run[|run| - 1];
            && s.job.fileTag(was.name) in s.table && s.table[s.job.fileTag(was.name)] == Row(was, s.job.config)
            && forall t :: t in s.table ==> s.table[t] != Row(now, s.job.config)
  {
    InvHolds(run);
    var s := run[|run| - 1];
    assert Done(s);
    PlanMeans(s.job);
    KeptRow(s, was);
    forall t | t in s.table && s.table[t] == Row(now, s.job.config) ensures t == s.job.fileTag(was.name) {
      MineAt(s, t);
    }
  }

  /** Such runs exist: one file, here and upstream, that changed. */
  lemma OneChangedFile(fileTag: string -> Tag, linkTag: string -> Tag, was: File, now: File) returns (run: seq<State>)
    requires was.name == now.name && was != now && Plain(was) && Plain(now)
    ensures Runs.IsRun(Init, Next, run) && run[|run| - 1].phase == Ended(true) && run[|run| - 1].failed == {}
    ensures run[0].job.local == [was] && run[0].job.remote == [now] && PlainJob(run[0].job) && DistinctTags(run[0].job)
    ensures !RowsAreRemote(run[|run| - 1])
  {
    var job := Job(fileTag, linkTag, 0, map[fileTag(was.name) := Row(was, 0)], [was], [now], [], []);
    OneFilePlan(job, was, now);
    var s0 := State(job, job.initial, 0, [], 0, Dispatching, {}, {});
    var s1, s2, s3 := s0.(phase := Waiting), s0.(phase := Deleting(0)), s0.(phase := Ended(true));
    assert CloseChannel(s0, s1) && WaitReturns(s1, s2) && Finish(s2, s3);
    run := [s0, s1, s2, s3];
    ChangedFileStays(run, was, now);
    assert now in job.remote;
  }

  lemma NoneMissing(f: File, known: set<string>)
    requires f.name in known
    ensures Missing([f], known) == []
  {
    assert [f][..0] == [];
  }

  lemma OneFilePlan(job: Job, was: File, now: File)
    requires was.name == now.name && Plain(now) && job.local == [was] && job.remote == [now]
    requires job.adds == job.dels == []
    requires job.initial == map[job.fileTag(was.name) := Row(was, job.config)]
    ensures PlainJob(job) && DistinctTags(job)
  {
    assert Names([was]) == {was.name} == Names([now]) by { assert [was][0] == was && [now][0] == now; }
    NoneMissing(was, Names([now]));
    NoneMissing(now, Names([was]));
    assert job.initial[job.fileTag(was.name)] == Row(was, job.config);
  }

  /** Rows whose tag this synchronisation has no key for survive every schedule: the rows of other configs, and also the
      links that upstream dropped, which are filed under one tag and removed under another. */
  lemma UntouchedRowsStay(run: seq<State>, i: nat, t: Tag)
    requires Runs.IsRun(Init, Next, run) && i < |run|
    requires t in run[0].job.initial && Untouched(run[0].job, t)
    ensures t in run[i].table && run[i].table[t] == run[0].job.initial[t]
  {
    InvHolds(run);
    assert Inv(run[i]);
  }

  /** A link is filed under one tag and removed under another: when upstream drops it, its tag is gone in the end
      exactly if some deleted name happens to have that tag as its file tag. */
  lemma DroppedLinkGoneIff(run: seq<State>, f: File)
    requires Runs.IsRun(Init, Next, run) && run[|run| - 1].phase == Ended(true)
    requires f in run[0].job.dels && f.kind.Link?
    requires var t := run[0].job.linkTag(f.name); t in run[0].job.initial && run[0].job.initial[t].file == f
    ensures var s := run[|run| - 1];
            s.job.linkTag(f.name) !in s.table <==>
              exists d :: d in s.job.dels && s.job.fileTag(d.name) == s.job.linkTag(f.name)
  {
    InvHolds(run);
    var s := run[|run| - 1];
    assert Inv(s) && s.job == run[0].job;
    var t := s.job.linkTag(f.name);
    if Doomed(s.job, t) {
      var d :| d in s.job.dels && s.job.fileTag(d.name) == t;
      var i :| 0 <= i < |s.job.dels| && s.job.dels[i] == d;
    }
  }

  // ----- who can finish -----

  ghost function Weight(workers: seq<Worker>): nat {
    if workers == [] then 0
    else
      var first := match workers[0] case Unborn => 3 case Pushing(_) => 2 case Ready => 1 case Exited => 0;
      first + Weight(workers[1..])
  }

  lemma {:induction false} WeightFalls(workers: seq<Worker>, w: nat, worker: Worker)
    requires w < |workers|
    requires match workers[w] case Unborn => worker == Ready case Pushing(_) => worker == Ready
             case Ready => worker == Exited case Exited => false
    ensures Weight(workers[w := worker]) < Weight(workers)
  {
    if w == 0 {
      assert workers[w := worker][1..] == workers[1..];
    } else {
      WeightFalls(workers[1..], w - 1, worker);
      assert workers[w := worker][1..] == workers[1..][w - 1 := worker];
    }
  }

  ghost function PhaseLeft(s: State): nat {
    match s.phase case Dispatching => 3 case Waiting => 2 case Deleting(_) => 1 case Ended(_) => 0
  }

  ghost function EntriesLeft(s: State): int {
    match s.phase case Dispatching => |s.job.adds| - s.next case Deleting(k) => |s.job.dels| - k case _ => 0
  }

  ghost predicate Nearer(s: State, u: State) {
    || PhaseLeft(u) < PhaseLeft(s)
    || (PhaseLeft(u) == PhaseLeft(s)
        && (|| EntriesLeft(u) < EntriesLeft(s)
            || (EntriesLeft(u) == EntriesLeft(s) && Weight(u.workers) < Weight(s.workers))))
  }

  /** A worker that has begun or is pushing can always go on. */
  lemma WorkerGoesOn(s: State, w: nat) returns (u: State)
    requires w < |s.workers|
    requires s.workers[w].Unborn? || s.workers[w].Pushing? || (s.workers[w].Ready? && s.phase.Waiting?)
    ensures WorkerStep(s, u, w) && Nearer(s, u) && u.phase == s.phase && |u.workers| == |s.workers|
  {
    var worker := if s.workers[w].Ready? then Exited else Ready;
    WeightFalls(s.workers, w, worker);
    if s.workers[w].Unborn? {
      u := s.(workers := s.workers[w := Ready], wg := s.wg + 1);
      assert Begin(s, u, w);
    } else if s.workers[w].Pushing? {
      u := Upserted(s, s.workers[w].f).(workers := s.workers[w := Ready]);
      assert Push(s, u, w);
    } else {
      u := s.(workers := s.workers[w := Exited], wg := s.wg - 1);
      assert Leave(s, u, w);
    }
  }

  ghost predicate Staffed(s: State) { |s.workers| > 0 || forall f :: f in s.job.adds ==> !f.kind.Regular? }

  lemma DispatchGoesOn(s: State) returns (u: State)
    requires PoolOk(s) && s.phase.Dispatching? && Staffed(s)
    ensures Next(s, u) && Nearer(s, u) && u.phase != Ended(false) && |u.workers| == |s.workers|
  {
    if s.next == |s.job.adds| {
      u := s.(phase := Waiting);
      assert CloseChannel(s, u);
    } else if !s.job.adds[s.next].kind.Regular? {
      var f := s.job.adds[s.next];
      u := (if f.kind.Other? then s.(failed := s.failed + {f.name}) else Upserted(s, f)).(next := s.next + 1);
      assert FileAtOnce(s, u);
    } else if assert s.job.adds[s.next] in s.job.adds; s.workers[0].Ready? {
      u := s.(workers := s.workers[0 := Pushing(s.job.adds[s.next])], next := s.next + 1);
      assert WorkerStep(s, u, 0) by { assert Handoff(s, u, 0); }
    } else {
      u := WorkerGoesOn(s, 0);
    }
  }

  lemma RestGoesOn(s: State) returns (u: State)
    requires PoolOk(s) && (s.phase.Waiting? || s.phase.Deleting?)
    ensures Next(s, u) && Nearer(s, u) && u.phase != Ended(false) && |u.workers| == |s.workers|
  {
    if s.phase.Waiting? {
      if s.wg == 0 {
        u := s.(phase := Deleting(0));
        assert WaitReturns(s, u);
      } else {
        var w :| w in Enrolled(s);
        u := WorkerGoesOn(s, w);
      }
    } else if s.phase.k < |s.job.dels| {
      u := s.(table := s.table - {s.job.fileTag(s.job.dels[s.phase.k].name)}, phase := Deleting(s.phase.k + 1));
      assert Delete(s, u);
    } else {
      u := s.(phase := Ended(true));
      assert Finish(s, u);
    }
  }

  lemma CanEnd(s: State) returns (t: State)
    requires PoolOk(s) && s.phase != Ended(false) && Staffed(s)
    ensures Runs.Reaches(Next, s, t) && t.phase == Ended(true)
    decreases PhaseLeft(s), EntriesLeft(s), Weight(s.workers)
  {
    Runs.ReachesSelf(Next, s);
    if s.phase.Ended? {
      t := s;
    } else {
      var u;
      if s.phase.Dispatching? { u := DispatchGoesOn(s); } else { u := RestGoesOn(s); }
      PoolKept(s, u);
      t := CanEnd(u);
      Runs.ReachesStep(Next, s, s, u);
      Runs.ReachesTrans(Next, s, u, t);
    }
  }

  lemma {:induction false} NoWorkerBlocks(path: seq<State>, i: nat)
    requires Runs.IsPath(Next, path) && path[0].workers == [] && path[0].phase.Dispatching?
    requires i < |path[0].job.adds| && path[0].job.adds[i].kind.Regular? && path[0].next <= i
    ensures var s := path[|path| - 1];
            s.workers == [] && s.job == path[0].job && s.next <= i && (s.phase.Dispatching? || s.phase == Ended(false))
    decreases |path|
  {
    if |path| > 1 {
      var last := |path| - 1;
      NoWorkerBlocks(path[..last], i);
      assert Next(path[last - 1], path[last]) && path[..last][last - 1] == path[last - 1];
    }
  }

  /** A synchronisation can end exactly when it has a worker or no regular file to push: without workers the unbuffered
      send never returns. CanEnd says that with a worker this holds wherever a schedule has got to. */
  lemma CanEndIff(s: State)
    requires Init(s)
    ensures (exists t :: Runs.Reaches(Next, s, t) && t.phase == Ended(true)) <==> Staffed(s)
  {
    if Staffed(s) {
      assert Enrolled(s) == {};
      var t := CanEnd(s);
    } else {
      var f :| f in s.job.adds && f.kind.Regular?;
      var i :| 0 <= i < |s.job.adds| && s.job.adds[i] == f;
      forall t | Runs.Reaches(Next, s, t) ensures t.phase != Ended(true) {
        var path: seq<State> :| Runs.IsPath(Next, path) && path[0] == s && path[|path| - 1] == t;
        NoWorkerBlocks(path, i);
      }
    }
  }
}
