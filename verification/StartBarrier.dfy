/** How Manager.Get hands out one started handler per repository to callers that race.

    A call either finds the repository's handler and waits for its start channel, or inserts a new handler under the
    mutex, starts it and closes the channel. Mutex sections and channel operations are single steps. */
module StartBarrier {
  import Runs

  type Repo = string
  type Caller = nat

  /** `starts` counts calls of Start, `returned` whether Start came back, `ready` whether the start channel is closed,
      `removed` whether the cleanup of a stopped handler has taken its repository out of the table. */
  datatype Handler = Handler(repo: Repo, starts: nat, returned: bool, ready: bool, stopped: bool, removed: bool)

  datatype Pc = Waits(h: nat) | Inserts | Inserted(h: nat) | Runs(h: nat) | Closes(h: nat) | Done(h: nat)
  datatype Call = Call(repo: Repo, pc: Pc)

  datatype State = State(handlers: seq<Handler>, table: map<Repo, nat>, calls: map<Caller, Call>)

  ghost predicate Init(s: State) { s == State([], map[], map[]) }

  function At(s: State, c: Caller, pc: Pc): State
    requires c in s.calls
  {
    s.(calls := s.calls[c := s.calls[c].(pc := pc)])
  }

  function WithHandler(s: State, h: nat, handler: Handler): State
    requires h < |s.handlers|
  {
    s.(handlers := s.handlers[h := handler])
  }

  function WithInsertion(s: State, c: Caller, repo: Repo): State {
    var h := |s.handlers|;
    State(s.handlers + [Handler(repo, 0, false, false, false, false)], s.table[repo := h],
      s.calls[c := Call(repo, Inserted(h))])
  }

  /** The first mutex section: the lookup, and the insertion when nothing is found. */
  function Entered(s: State, c: Caller, repo: Repo): State {
    if repo in s.table then s.(calls := s.calls[c := Call(repo, Waits(s.table[repo]))]) else WithInsertion(s, c, repo)
  }

  ghost predicate Enter(s: State, t: State, c: Caller, repo: Repo) {
    (c in s.calls ==> s.calls[c].pc.Done?) && t == Entered(s, c, repo)
  }

  /** The start channel is closed: the handler is returned, or replaced when it was stopped meanwhile. */
  ghost predicate Wake(s: State, t: State, c: Caller) {
    && c in s.calls && s.calls[c].pc.Waits?
    && var h := s.calls[c].pc.h;
    && h < |s.handlers| && s.handlers[h].ready
    && t == At(s, c, if s.handlers[h].stopped then Inserts else Done(h))
  }

  /** The mutex is taken again, and the table is not looked at again. */
  ghost predicate Insert(s: State, t: State, c: Caller) {
    c in s.calls && s.calls[c].pc.Inserts? && t == WithInsertion(s, c, s.calls[c].repo)
  }

  ghost predicate CallStart(s: State, t: State, c: Caller) {
    && c in s.calls && s.calls[c].pc.Inserted?
    && var h := s.calls[c].pc.h;
    && h < |s.handlers|
    && t == WithHandler(At(s, c, Runs(h)), h, s.handlers[h].(starts := s.handlers[h].starts + 1))
  }

  ghost predicate StartReturns(s: State, t: State, c: Caller) {
    && c in s.calls && s.calls[c].pc.Runs?
    && var h := s.calls[c].pc.h;
    && h < |s.handlers|
    && t == WithHandler(At(s, c, Closes(h)), h, s.handlers[h].(returned := true))
  }

  ghost predicate CloseChannel(s: State, t: State, c: Caller) {
    && c in s.calls && s.calls[c].pc.Closes?
    && var h := s.calls[c].pc.h;
    && h < |s.handlers|
    && t == WithHandler(At(s, c, Done(h)), h, s.handlers[h].(ready := true))
  }

  ghost predicate CallStep(s: State, t: State, c: Caller) {
    Wake(s, t, c) || Insert(s, t, c) || CallStart(s, t, c) || StartReturns(s, t, c) || CloseChannel(s, t, c)
  }

  ghost predicate Stop(s: State, t: State, h: nat) {
    h < |s.handlers| && t == WithHandler(s, h, s.handlers[h].(stopped := true))
  }

  /** Once, a stopped handler takes its repository out of the table, whatever the table has for it by then. */
  ghost predicate Remove(s: State, t: State, h: nat) {
    && h < |s.handlers| && s.handlers[h].stopped && !s.handlers[h].removed
    && t == WithHandler(s.(table := s.table - {s.handlers[h].repo}), h, s.handlers[h].(removed := true))
  }

  ghost predicate Next(s: State, t: State) {
    || (exists c, repo :: Enter(s, t, c, repo)) || (exists c :: CallStep(s, t, c))
    || (exists h :: Stop(s, t, h) || Remove(s, t, h))
  }

  // ----- the invariant -----

  ghost predicate Holds(s: State, call: Call, h: nat) { h < |s.handlers| && s.handlers[h].repo == call.repo }

  /** What the place a call has reached says about the handler it holds. */
  ghost predicate PcOk(s: State, call: Call) {
    match call.pc
    case Inserts => exists h :: 0 <= h < |s.handlers| && s.handlers[h].stopped
    case Waits(h) => Holds(s, call, h)
    case Inserted(h) => Holds(s, call, h) && s.handlers[h].starts == 0 && !s.handlers[h].ready
    case Runs(h) => Holds(s, call, h) && s.handlers[h].starts == 1 && !s.handlers[h].ready
    case Closes(h) => Holds(s, call, h) && s.handlers[h].returned && !s.handlers[h].ready
    case Done(h) => Holds(s, call, h) && s.handlers[h].returned
  }

  /** The call that is starting `h`. */
  ghost predicate Starts(s: State, c: Caller, h: nat) {
    c in s.calls && match s.calls[c].pc case Inserted(k) => k == h case Runs(k) => k == h case Closes(k) => k == h
      case _ => false
  }

  ghost predicate NoneStopped(s: State) { forall h :: 0 <= h < |s.handlers| ==> !s.handlers[h].stopped }

  ghost predicate HandlersOk(s: State) {
    && (forall h :: 0 <= h < |s.handlers| ==>
          && s.handlers[h].starts <= 1
          && (s.handlers[h].returned ==> s.handlers[h].starts == 1)
          && (s.handlers[h].ready ==> s.handlers[h].returned)
          && (s.handlers[h].removed ==> s.handlers[h].stopped))
    && (forall r :: r in s.table ==>
          s.table[r] < |s.handlers| && s.handlers[s.table[r]].repo == r && !s.handlers[s.table[r]].removed)
    && (NoneStopped(s) ==>
          forall h :: 0 <= h < |s.handlers| ==> s.handlers[h].repo in s.table && s.table[s.handlers[h].repo] == h)
  }

  ghost predicate CallsOk(s: State) {
    && (forall c :: c in s.calls ==> PcOk(s, s.calls[c]))
    && (forall c, d, h :: Starts(s, c, h) && Starts(s, d, h) ==> c == d)
    && (forall h :: 0 <= h < |s.handlers| && !s.handlers[h].ready ==> exists c :: Starts(s, c, h))
  }

  ghost predicate Inv(s: State) { HandlersOk(s) && CallsOk(s) }

  /** A handler changes in ways that spoil no call: only the call that starts it depends on more than it keeps. */
  lemma HandlerKeepsCalls(s: State, t: State, c: Caller, h: nat)
    requires CallsOk(s) && h < |s.handlers| == |t.handlers| && c in s.calls
    requires forall k :: 0 <= k < |s.handlers| && k != h ==> t.handlers[k] == s.handlers[k]
    requires t.handlers[h].repo == s.handlers[h].repo && (s.handlers[h].returned ==> t.handlers[h].returned)
    requires (s.handlers[h].stopped ==> t.handlers[h].stopped) && !Starts(s, c, h)
    ensures PcOk(t, s.calls[c])
  {
    if s.calls[c].pc.Inserts? {
      var k :| 0 <= k < |s.handlers| && s.handlers[k].stopped;
      assert t.handlers[k].stopped;
    }
  }

  ghost predicate StarterStep(s: State, t: State, c: Caller) {
    CallStart(s, t, c) || StartReturns(s, t, c) || CloseChannel(s, t, c)
  }

  lemma MoveKeepsHandlers(s: State, t: State, c: Caller)
    requires Inv(s) && StarterStep(s, t, c)
    ensures HandlersOk(t)
  {
    assert PcOk(s, s.calls[c]);
    assert NoneStopped(t) ==> NoneStopped(s) by {
      forall k | 0 <= k < |s.handlers| && NoneStopped(t) ensures !s.handlers[k].stopped {
        assert !t.handlers[k].stopped;
      }
    }
  }

  /** A call that starts a handler moves on: it still is the only one, unless it has just closed the channel. */
  lemma MoveKeepsCalls(s: State, t: State, c: Caller)
    requires Inv(s) && StarterStep(s, t, c)
    ensures CallsOk(t)
  {
    var h := s.calls[c].pc.h;
    assert Starts(s, c, h);
    assert PcOk(s, s.calls[c]);
    forall d | d in t.calls && d != c ensures PcOk(t, t.calls[d]) { HandlerKeepsCalls(s, t, d, h); }
    assert forall d, k :: d != c ==> Starts(t, d, k) == Starts(s, d, k);
    assert forall k :: Starts(t, c, k) ==> k == h;
    forall k | 0 <= k < |t.handlers| && !t.handlers[k].ready ensures exists d :: Starts(t, d, k) {
      if k == h {
        assert Starts(t, c, k);
      } else {
        var d :| Starts(s, d, k);
        assert Starts(t, d, k);
      }
    }
  }

  lemma WakeKeeps(s: State, t: State, c: Caller)
    requires Inv(s) && Wake(s, t, c)
    ensures Inv(t)
  {
    assert PcOk(s, s.calls[c]);
    forall d | d in t.calls ensures PcOk(t, t.calls[d]) { if d != c { assert PcOk(s, s.calls[d]); } }
    assert forall d, k :: Starts(t, d, k) == Starts(s, d, k);
  }

  lemma InsertionKeeps(s: State, c: Caller, repo: Repo)
    requires Inv(s) && (forall h :: !Starts(s, c, h))
    requires NoneStopped(s) ==> repo !in s.table
    ensures Inv(WithInsertion(s, c, repo))
  {
    var t := WithInsertion(s, c, repo);
    var n := |s.handlers|;
    assert forall k :: 0 <= k < n ==> t.handlers[k] == s.handlers[k];
    forall d | d in t.calls ensures PcOk(t, t.calls[d]) {
      if d != c {
        assert PcOk(s, s.calls[d]);
        if s.calls[d].pc.Inserts? {
          var k :| 0 <= k < n && s.handlers[k].stopped;
          assert t.handlers[k].stopped;
        }
      }
    }
    forall d, k: nat | Starts(t, d, k) ensures (d == c && k == n) || (d != c && k < n && Starts(s, d, k)) {
      if d != c { assert PcOk(s, s.calls[d]); }
    }
    forall k | 0 <= k < |t.handlers| && !t.handlers[k].ready ensures exists d :: Starts(t, d, k) {
      if k == n {
        assert Starts(t, c, k);
      } else {
        var d :| Starts(s, d, k);
        assert Starts(t, d, k);
      }
    }
    assert NoneStopped(t) ==> NoneStopped(s) by {
      forall k | 0 <= k < n && NoneStopped(t) ensures !s.handlers[k].stopped { assert !t.handlers[k].stopped; }
    }
  }

  lemma EnterKeeps(s: State, t: State, c: Caller, repo: Repo)
    requires Inv(s) && Enter(s, t, c, repo)
    ensures Inv(t)
  {
    if repo in s.table {
      forall d | d in t.calls ensures PcOk(t, t.calls[d]) { if d != c { assert PcOk(s, s.calls[d]); } }
      assert forall d, k :: Starts(t, d, k) == Starts(s, d, k);
    } else {
      InsertionKeeps(s, c, repo);
    }
  }

  lemma StopKeepsCalls(s: State, t: State, h: nat)
    requires CallsOk(s) && (Stop(s, t, h) || Remove(s, t, h))
    ensures CallsOk(t)
  {
    forall d | d in t.calls ensures PcOk(t, t.calls[d]) {
      assert PcOk(s, s.calls[d]);
      if s.calls[d].pc.Inserts? {
        var k :| 0 <= k < |s.handlers| && s.handlers[k].stopped;
        assert t.handlers[k].stopped;
      }
    }
    assert forall d, k :: Starts(t, d, k) == Starts(s, d, k);
  }

  lemma StopKeeps(s: State, t: State, h: nat)
    requires Inv(s) && (Stop(s, t, h) || Remove(s, t, h))
    ensures Inv(t)
  {
    assert t.handlers[h].stopped;
    StopKeepsCalls(s, t, h);
  }

  lemma StepKeeps(s: State, t: State)
    requires Inv(s) && Next(s, t)
    ensures Inv(t)
  {
    if c, repo :| Enter(s, t, c, repo) {
      EnterKeeps(s, t, c, repo);
    } else if c :| CallStep(s, t, c) {
      if Wake(s, t, c) {
        WakeKeeps(s, t, c);
      } else if Insert(s, t, c) {
        assert PcOk(s, s.calls[c]);
        InsertionKeeps(s, c, s.calls[c].repo);
      } else {
        MoveKeepsHandlers(s, t, c);
        MoveKeepsCalls(s, t, c);
      }
    } else {
      var h :| Stop(s, t, h) || Remove(s, t, h);
      StopKeeps(s, t, h);
    }
  }

  /** The start barrier. In every interleaving each handler is started at most once and a call only ever returns a
      handler of the repository it asked for whose one Start has returned; until a handler is stopped there is one
      handler per repository. */
  lemma OneStartedHandler(run: seq<State>, i: nat)
    requires Runs.IsRun(Init, Next, run) && i < |run|
    ensures var s := run[i];
            && (forall h :: 0 <= h < |s.handlers| ==> s.handlers[h].starts <= 1)
            && (forall c :: c in s.calls && s.calls[c].pc.Done? ==>
                  var h := s.calls[c].pc.h;
                  h < |s.handlers| && s.handlers[h].repo == s.calls[c].repo && s.handlers[h].starts == 1
                    && s.handlers[h].returned)
            && (NoneStopped(s) ==>
                  forall h, k | 0 <= h < |s.handlers| && 0 <= k < |s.handlers| ::
                    s.handlers[h].repo == s.handlers[k].repo ==> h == k)
  {
    forall s, t | Inv(s) && Next(s, t) ensures Inv(t) { StepKeeps(s, t); }
    Runs.InductiveHolds(Init, Next, Inv, run);
    var s := run[i];
    assert Inv(s);
    assert forall c :: c in s.calls ==> PcOk(s, s.calls[c]);
  }

  // ----- no call is left waiting -----

  ghost function Left(pc: Pc): nat {
    match pc case Inserted(_) => 3 case Runs(_) => 2 case Closes(_) => 1 case _ => 0
  }

  ghost predicate CallsNext(s: State, t: State) { exists c :: CallStep(s, t, c) }

  lemma NoneStoppedKept(s: State, t: State, c: Caller)
    requires Inv(s) && CallStep(s, t, c) && NoneStopped(s)
    ensures NoneStopped(t)
  {
    assert PcOk(s, s.calls[c]);
    forall h | 0 <= h < |t.handlers| ensures !t.handlers[h].stopped {
      assert h < |s.handlers| ==> !s.handlers[h].stopped;
    }
  }

  /** The same handlers, stopped or not, in the same table. */
  ghost predicate SameStops(s: State, t: State) {
    && t.table == s.table && |t.handlers| == |s.handlers|
    && forall h :: 0 <= h < |s.handlers| ==>
         && t.handlers[h].repo == s.handlers[h].repo
         && t.handlers[h].stopped == s.handlers[h].stopped && t.handlers[h].removed == s.handlers[h].removed
  }

  lemma StarterMoves(s: State, c: Caller, h: nat) returns (u: State)
    requires Inv(s) && Starts(s, c, h)
    ensures StarterStep(s, u, c) && SameStops(s, u)
    ensures u.calls.Keys == s.calls.Keys && u.calls[c].repo == s.calls[c].repo
    ensures forall d :: d in s.calls && d != c ==> u.calls[d] == s.calls[d]
    ensures if Left(s.calls[c].pc) == 1 then h < |u.handlers| && u.handlers[h].ready && u.calls[c].pc == Done(h)
            else Starts(u, c, h) && Left(u.calls[c].pc) < Left(s.calls[c].pc)
  {
    assert PcOk(s, s.calls[c]);
    var handler := s.handlers[h];
    var pc := s.calls[c].pc;
    u := if pc.Inserted? then WithHandler(At(s, c, Runs(h)), h, handler.(starts := handler.starts + 1))
         else if pc.Runs? then WithHandler(At(s, c, Closes(h)), h, handler.(returned := true))
         else WithHandler(At(s, c, Done(h)), h, handler.(ready := true));
  }

  /** The call that starts a handler gets to the end on its own. */
  lemma StarterFinishes(s: State, c: Caller, h: nat) returns (t: State)
    requires Inv(s) && Starts(s, c, h)
    ensures Inv(t) && Runs.Reaches(CallsNext, s, t)
    ensures c in t.calls && t.calls[c] == Call(s.calls[c].repo, Done(h)) && h < |t.handlers| && t.handlers[h].ready
    ensures forall d :: d in s.calls && d != c ==> d in t.calls && t.calls[d] == s.calls[d]
    ensures NoneStopped(s) ==> NoneStopped(t)
    ensures SameStops(s, t)
    decreases Left(s.calls[c].pc)
  {
    var u := StarterMoves(s, c, h);
    assert CallStep(s, u, c);
    MoveKeepsHandlers(s, u, c);
    MoveKeepsCalls(s, u, c);
    if NoneStopped(s) { NoneStoppedKept(s, u, c); }
    Runs.ReachesSelf(CallsNext, s);
    Runs.ReachesStep(CallsNext, s, s, u);
    if Left(s.calls[c].pc) == 1 {
      t := u;
    } else {
      t := StarterFinishes(u, c, h);
      Runs.ReachesTrans(CallsNext, s, u, t);
    }
  }

  /** While no handler is stopped, every call in progress can be brought to its return, with its repository's
      handler. */
  lemma EveryGetReturns(s: State, c: Caller) returns (t: State)
    requires Inv(s) && NoneStopped(s) && c in s.calls
    ensures Inv(t) && Runs.Reaches(CallsNext, s, t)
    ensures c in t.calls && t.calls[c].repo == s.calls[c].repo && t.calls[c].pc.Done?
    ensures t.handlers[t.calls[c].pc.h].repo == s.calls[c].repo
  {
    assert PcOk(s, s.calls[c]);
    Runs.ReachesSelf(CallsNext, s);
    match s.calls[c].pc {
      case Inserted(h) => t := StarterFinishes(s, c, h);
      case Runs(h) => t := StarterFinishes(s, c, h);
      case Closes(h) => t := StarterFinishes(s, c, h);
      case Done(_) => t := s;
      case Waits(h) =>
        var u := s;
        if !s.handlers[h].ready {
          var d :| Starts(s, d, h);
          u := StarterFinishes(s, d, h);
        }
        t := At(u, c, Done(h));
        assert Wake(u, t, c);
        assert CallStep(u, t, c);
        StepKeeps(u, t);
        Runs.ReachesStep(CallsNext, s, u, t);
    }
    assert PcOk(t, t.calls[c]);
  }

  lemma InvCarries(s: State, t: State)
    requires Inv(s) && Runs.Reaches(Next, s, t)
    ensures Inv(t)
  {
    forall a, b | Inv(a) && Next(a, b) ensures Inv(b) { StepKeeps(a, b); }
    Runs.ReachesKeeps(Next, Inv, s, t);
  }

  /** A call that inserts, starts and returns a handler while nobody else moves. */
  function Created(s: State, c: Caller, repo: Repo): State {
    var h := |s.handlers|;
    State(s.handlers + [Handler(repo, 1, true, true, false, false)], s.table[repo := h],
      s.calls[c := Call(repo, Done(h))])
  }

  /** One step of a starter whose handler is the last one. */
  lemma StarterMove(origin: State, s: State, t: State, c: Caller)
    requires Runs.Reaches(Next, origin, s) && StarterStep(s, t, c)
    ensures Runs.Reaches(Next, origin, t)
  {
    assert CallStep(s, t, c);
    Runs.ReachesStep(Next, origin, s, t);
  }

  lemma StarterAlone(origin: State, s: State, c: Caller, repo: Repo)
    requires Runs.Reaches(Next, origin, WithInsertion(s, c, repo))
    ensures Runs.Reaches(Next, origin, Created(s, c, repo))
  {
    var h, s1 := |s.handlers|, WithInsertion(s, c, repo);
    var s2 := WithHandler(At(s1, c, Runs(h)), h, s1.handlers[h].(starts := 1));
    StarterMove(origin, s1, s2, c);
    var s3 := WithHandler(At(s2, c, Closes(h)), h, s2.handlers[h].(returned := true));
    StarterMove(origin, s2, s3, c);
    var s4 := WithHandler(At(s3, c, Done(h)), h, s3.handlers[h].(ready := true));
    StarterMove(origin, s3, s4, c);
    assert s4 == Created(s, c, repo);
  }

  /** A call that need not block: the handler it finds, if any, is ready. */
  ghost predicate CanGet(s: State, c: Caller, repo: Repo) {
    && (c in s.calls ==> s.calls[c].pc.Done?)
    && (repo in s.table ==> s.table[repo] < |s.handlers| && s.handlers[s.table[repo]].ready)
  }

  /** What such a call returns: the handler in the table unless that one is stopped. */
  function Got(s: State, c: Caller, repo: Repo): State
    requires repo in s.table ==> s.table[repo] < |s.handlers|
  {
    if repo in s.table && !s.handlers[s.table[repo]].stopped
    then s.(calls := s.calls[c := Call(repo, Done(s.table[repo]))])
    else Created(s, c, repo)
  }

  lemma FoundFollows(s: State, c: Caller, repo: Repo) returns (t: State)
    requires CanGet(s, c, repo) && repo in s.table
    ensures Runs.Reaches(Next, s, t)
    ensures var pc := if s.handlers[s.table[repo]].stopped then Inserts else Done(s.table[repo]);
            t == s.(calls := s.calls[c := Call(repo, pc)])
  {
    Runs.ReachesSelf(Next, s);
    var waiting := Entered(s, c, repo);
    assert Enter(s, waiting, c, repo);
    Runs.ReachesStep(Next, s, s, waiting);
    t := At(waiting, c, if s.handlers[s.table[repo]].stopped then Inserts else Done(s.table[repo]));
    assert CallStep(waiting, t, c) by { assert Wake(waiting, t, c); }
    Runs.ReachesStep(Next, s, waiting, t);
  }

  lemma GetFollows(s: State, c: Caller, repo: Repo)
    requires CanGet(s, c, repo)
    ensures Runs.Reaches(Next, s, Got(s, c, repo))
  {
    if repo !in s.table {
      Runs.ReachesSelf(Next, s);
      assert Enter(s, WithInsertion(s, c, repo), c, repo);
      Runs.ReachesStep(Next, s, s, WithInsertion(s, c, repo));
      StarterAlone(s, s, c, repo);
    } else {
      var t := FoundFollows(s, c, repo);
      if s.handlers[s.table[repo]].stopped {
        var u := WithInsertion(t, c, repo);
        assert CallStep(t, u, c) by { assert Insert(t, u, c); }
        Runs.ReachesStep(Next, s, t, u);
        assert u == WithInsertion(s, c, repo);
        StarterAlone(s, s, c, repo);
      }
    }
  }

  /** The manager as one call sees it when no other call is under way; `calls` records who is where. */
  class Manager {
    var handlers: seq<Handler>
    var repositories: map<Repo, nat>
    ghost var calls: map<Caller, Call>

    ghost function View(): State
      reads this
    {
      State(handlers, repositories, calls)
    }

    constructor ()
      ensures Init(View())
    {
      handlers, repositories, calls := [], map[], map[];
    }

    /** Follows the protocol, and returns the ready handler that was there if it is not stopped, a new one otherwise. */
    method Get(ghost c: Caller, repository: Repo) returns (h: nat)
      requires Inv(View()) && CanGet(View(), c, repository)
      modifies this
      ensures Inv(View()) && Runs.Reaches(Next, old(View()), View())
      ensures View() == Got(old(View()), c, repository)
      ensures h < |handlers| && repository in repositories && repositories[repository] == h
      ensures handlers[h].repo == repository && handlers[h].starts == 1 && handlers[h].ready && !handlers[h].stopped
    {
      GetFollows(View(), c, repository);
      InvCarries(View(), Got(View(), c, repository));
      if repository in repositories {
        h := repositories[repository];
        if !handlers[h].stopped {
          calls := calls[c := Call(repository, Done(h))];
          return;
        }
      }
      h := |handlers|;
      var handler := Handler(repository, 0, false, false, false, false);
      repositories := repositories[repository := h];
      handler := handler.(starts := handler.starts + 1);
      handler := handler.(returned := true);
      handler := handler.(ready := true);
      handlers := handlers + [handler];
      calls := calls[c := Call(repository, Done(h))];
    }
  }


  // ----- what a stop breaks -----

  /** Everything but a further stop. */
  ghost predicate NextUnstopped(s: State, t: State) {
    || (exists c, repo :: Enter(s, t, c, repo)) || (exists c :: CallStep(s, t, c)) || (exists h :: Remove(s, t, h))
  }

  ghost predicate IsLive(s: State, h: nat) { h < |s.handlers| && !s.handlers[h].stopped }

  ghost predicate BothLive(s: State, h: nat, k: nat) {
    IsLive(s, h) && IsLive(s, k) && h != k && s.handlers[h].repo == s.handlers[k].repo
  }

  ghost predicate TwoLive(s: State) { exists h: nat, k: nat :: BothLive(s, h, k) }

  /** The cleanup of this handler is still to come. */
  ghost predicate CleanupDue(s: State, h: nat) { h < |s.handlers| && s.handlers[h].stopped && !s.handlers[h].removed }

  /** This call will insert a handler without another look at the table. */
  ghost predicate WillInsert(s: State, c: Caller) {
    && c in s.calls
    && match s.calls[c].pc case Inserts => true case Waits(h) => h < |s.handlers| && s.handlers[h].stopped
       case _ => false
  }

  /** A live handler that the table does not know. */
  ghost predicate Orphan(s: State, h: nat) {
    IsLive(s, h) && !(s.handlers[h].repo in s.table && s.table[s.handlers[h].repo] == h)
  }

  ghost predicate Exposed(s: State) {
    (exists h: nat :: CleanupDue(s, h)) || (exists c :: WillInsert(s, c)) || exists h: nat :: Orphan(s, h)
  }

  lemma UnexposedIsUnique(s: State)
    requires !Exposed(s)
    ensures !TwoLive(s)
  {
    forall h: nat, k: nat | IsLive(s, h) && IsLive(s, k) && s.handlers[h].repo == s.handlers[k].repo ensures h == k {
      assert !Orphan(s, h) && !Orphan(s, k);
    }
  }

  lemma UnexposedEnter(s: State, t: State, c: Caller, repo: Repo)
    requires Inv(s) && !Exposed(s) && Enter(s, t, c, repo)
    ensures !Exposed(t)
  {
    forall h: nat ensures !CleanupDue(t, h) && !Orphan(t, h) { assert !CleanupDue(s, h) && !Orphan(s, h); }
    forall d ensures !WillInsert(t, d) {
      assert !WillInsert(s, d);
      if repo in s.table { assert !CleanupDue(s, s.table[repo]); }
    }
  }

  lemma UnexposedMove(s: State, t: State, c: Caller)
    requires Inv(s) && !Exposed(s) && SameStops(s, t) && c in t.calls
    requires t.calls == s.calls[c := t.calls[c]] && !WillInsert(t, c)
    ensures !Exposed(t)
  {
    forall h: nat ensures !CleanupDue(t, h) && !Orphan(t, h) { assert !CleanupDue(s, h) && !Orphan(s, h); }
    forall d ensures !WillInsert(t, d) { assert !WillInsert(s, d); }
  }

  lemma UnexposedCall(s: State, t: State, c: Caller)
    requires Inv(s) && !Exposed(s) && CallStep(s, t, c)
    ensures !Exposed(t)
  {
    assert !WillInsert(s, c);
    UnexposedMove(s, t, c);
  }

  lemma UnexposedStays(s: State, t: State)
    requires Inv(s) && !Exposed(s) && NextUnstopped(s, t)
    ensures !Exposed(t)
  {
    if c, repo :| Enter(s, t, c, repo) {
      UnexposedEnter(s, t, c, repo);
    } else if c :| CallStep(s, t, c) {
      UnexposedCall(s, t, c);
    } else {
      forall h: nat ensures !Remove(s, t, h) { assert !CleanupDue(s, h); }
    }
  }

  lemma FreshEnters(s: State, repo: Repo) returns (t: State, c: Caller)
    ensures c !in s.calls && t == Entered(s, c, repo) && NextUnstopped(s, t)
  {
    c := Runs.FreshNumber(s.calls.Keys);
    t := Entered(s, c, repo);
    assert Enter(s, t, c, repo);
  }

  /** A repository that the table does not know gets a new handler. */
  lemma FreshInserts(s: State, repo: Repo) returns (t: State, c: Caller)
    requires repo !in s.table
    ensures c !in s.calls && t == WithInsertion(s, c, repo) && Runs.Reaches(NextUnstopped, s, t)
  {
    t, c := FreshEnters(s, repo);
    Runs.ReachesSelf(NextUnstopped, s);
    Runs.ReachesStep(NextUnstopped, s, s, t);
  }

  lemma InsertionMakesTwo(s: State, c: Caller, k: nat)
    requires IsLive(s, k)
    ensures TwoLive(WithInsertion(s, c, s.handlers[k].repo))
  {
    assert BothLive(WithInsertion(s, c, s.handlers[k].repo), k, |s.handlers|);
  }

  /** The late cleanup of one handler removes the entry of its successor. */
  lemma CleanupMakesTwo(s: State, h: nat, k: nat) returns (t: State)
    requires CleanupDue(s, h) && IsLive(s, k) && s.handlers[k].repo == s.handlers[h].repo
    ensures Runs.Reaches(NextUnstopped, s, t) && TwoLive(t)
  {
    var u := WithHandler(s.(table := s.table - {s.handlers[h].repo}), h, s.handlers[h].(removed := true));
    assert Remove(s, u, h);
    Runs.ReachesSelf(NextUnstopped, s);
    Runs.ReachesStep(NextUnstopped, s, s, u);
    var c;
    t, c := FreshInserts(u, s.handlers[h].repo);
    InsertionMakesTwo(u, c, k);
    Runs.ReachesTrans(NextUnstopped, s, u, t);
  }

  lemma CallsAreUnstopped(s: State, t: State)
    requires Runs.Reaches(CallsNext, s, t)
    ensures Runs.Reaches(NextUnstopped, s, t)
  {
    var path: seq<State> :| Runs.IsPath(CallsNext, path) && path[0] == s && path[|path| - 1] == t;
    assert Runs.IsPath(NextUnstopped, path);
  }

  /** Whoever starts the handler can finish, and the others stay where they are. */
  lemma MakeReady(s: State, h: nat) returns (t: State)
    requires Inv(s) && h < |s.handlers|
    ensures Runs.Reaches(NextUnstopped, s, t) && Inv(t) && SameStops(s, t) && t.handlers[h].ready
    ensures forall d :: WillInsert(s, d) ==> d in t.calls && t.calls[d] == s.calls[d]
  {
    if s.handlers[h].ready {
      t := s;
      Runs.ReachesSelf(NextUnstopped, s);
    } else {
      var c :| Starts(s, c, h);
      t := StarterFinishes(s, c, h);
      CallsAreUnstopped(s, t);
    }
  }

  /** A call that waits for a stopped handler gets as far as inserting. */
  lemma WakesToInsert(s: State, c: Caller) returns (t: State)
    requires Inv(s) && WillInsert(s, c)
    ensures Runs.Reaches(NextUnstopped, s, t) && SameStops(s, t)
    ensures c in t.calls && t.calls[c] == Call(s.calls[c].repo, Inserts)
  {
    if s.calls[c].pc.Inserts? {
      t := s;
      Runs.ReachesSelf(NextUnstopped, s);
    } else {
      var h := s.calls[c].pc.h;
      var u := MakeReady(s, h);
      t := At(u, c, Inserts);
      assert CallStep(u, t, c) by { assert Wake(u, t, c); }
      Runs.ReachesStep(NextUnstopped, s, u, t);
    }
  }

  lemma InsertNow(s: State, c: Caller) returns (t: State)
    requires c in s.calls && s.calls[c].pc.Inserts?
    ensures Runs.Reaches(NextUnstopped, s, t) && t == WithInsertion(s, c, s.calls[c].repo)
  {
    t := WithInsertion(s, c, s.calls[c].repo);
    assert CallStep(s, t, c) by { assert Insert(s, t, c); }
    Runs.ReachesSelf(NextUnstopped, s);
    Runs.ReachesStep(NextUnstopped, s, s, t);
  }

  /** A stopped handler whose cleanup is due: its repository can have a live handler again before the cleanup. */
  lemma LiveBeforeCleanup(s: State, h: nat) returns (t: State, k: nat)
    requires Inv(s) && CleanupDue(s, h)
    ensures Runs.Reaches(NextUnstopped, s, t) && CleanupDue(t, h)
    ensures IsLive(t, k) && t.handlers[k].repo == s.handlers[h].repo == t.handlers[h].repo
  {
    var repo := s.handlers[h].repo;
    var c;
    if repo !in s.table {
      t, c := FreshInserts(s, repo);
      k := |s.handlers|;
    } else if IsLive(s, s.table[repo]) {
      Runs.ReachesSelf(NextUnstopped, s);
      t, k := s, s.table[repo];
    } else {
      var u;
      u, c := FreshEnters(s, repo);
      Runs.ReachesSelf(NextUnstopped, s);
      Runs.ReachesStep(NextUnstopped, s, s, u);
      assert Enter(s, u, c, repo);
      EnterKeeps(s, u, c, repo);
      assert WillInsert(u, c);
      var v := WakesToInsert(u, c);
      t := InsertNow(v, c);
      k := |s.handlers|;
      Runs.ReachesTrans(NextUnstopped, s, u, v);
      Runs.ReachesTrans(NextUnstopped, s, v, t);
    }
  }

  lemma CleanupDueIsEnough(s: State, h: nat) returns (t: State)
    requires Inv(s) && CleanupDue(s, h)
    ensures Runs.Reaches(NextUnstopped, s, t) && TwoLive(t)
  {
    var u, k := LiveBeforeCleanup(s, h);
    t := CleanupMakesTwo(u, h, k);
    Runs.ReachesTrans(NextUnstopped, s, u, t);
  }

  /** A call that will insert is enough: another one can be first. */
  lemma InserterIsEnough(s: State, c: Caller) returns (t: State)
    requires Inv(s) && WillInsert(s, c) && forall h: nat :: !CleanupDue(s, h)
    ensures Runs.Reaches(NextUnstopped, s, t) && TwoLive(t)
  {
    var repo := s.calls[c].repo;
    var u := WakesToInsert(s, c);
    var v, k := u, if repo in s.table then s.table[repo] else |s.handlers|;
    Runs.ReachesSelf(NextUnstopped, u);
    if repo in s.table {
      assert !CleanupDue(s, k);
    } else {
      var d;
      v, d := FreshInserts(u, repo);
    }
    assert IsLive(v, k) && v.handlers[k].repo == repo;
    t := InsertNow(v, c);
    InsertionMakesTwo(v, c, k);
    Runs.ReachesTrans(NextUnstopped, s, u, v);
    Runs.ReachesTrans(NextUnstopped, s, v, t);
  }

  lemma OrphanIsEnough(s: State, h: nat) returns (t: State)
    requires Inv(s) && !TwoLive(s) && Orphan(s, h) && forall k: nat :: !CleanupDue(s, k)
    ensures Runs.Reaches(NextUnstopped, s, t) && TwoLive(t)
  {
    var repo := s.handlers[h].repo;
    forall k: nat | k < |s.handlers| && k != h && s.handlers[k].repo == repo ensures s.handlers[k].removed {
      assert !CleanupDue(s, k) && !BothLive(s, h, k);
    }
    var c;
    t, c := FreshInserts(s, repo);
    InsertionMakesTwo(s, c, h);
  }

  /** When a repository can get two live handlers: without a further stop, two are within reach exactly if some stopped
      handler's cleanup is still due, or a call that saw a stopped handler is about to insert, or a live handler has
      already lost its entry. */
  lemma TwoLiveIff(s: State)
    requires Inv(s) && !TwoLive(s)
    ensures (exists t :: Runs.Reaches(NextUnstopped, s, t) && TwoLive(t)) <==> Exposed(s)
  {
    if h: nat :| CleanupDue(s, h) {
      var t := CleanupDueIsEnough(s, h);
    } else if c :| WillInsert(s, c) {
      var t := InserterIsEnough(s, c);
    } else if h: nat :| Orphan(s, h) {
      var t := OrphanIsEnough(s, h);
    } else {
      var inv := (x: State) => Inv(x) && !Exposed(x);
      forall x, y | inv(x) && NextUnstopped(x, y) ensures inv(y) {
        StepKeeps(x, y);
        UnexposedStays(x, y);
      }
      forall t | Runs.Reaches(NextUnstopped, s, t) ensures !TwoLive(t) {
        Runs.ReachesKeeps(NextUnstopped, inv, s, t);
        assert inv(t);
        UnexposedIsUnique(t);
      }
    }
  }

  /** Nothing is exposed until a handler is stopped, and every stop exposes. */
  lemma StopExposes(s: State, t: State, h: nat)
    requires Inv(s) && NoneStopped(s) && Stop(s, t, h)
    ensures !Exposed(s) && Exposed(t)
  {
    forall k: nat ensures !CleanupDue(s, k) && !Orphan(s, k) {}
    forall c ensures !WillInsert(s, c) { if c in s.calls { assert PcOk(s, s.calls[c]); } }
    assert !s.handlers[h].removed;
    assert CleanupDue(t, h);
  }
}
