/** The table through which one goroutine waits for the outcome of an artifact that another one processes.

    A registration makes a one-slot channel and enters it under its name; the sender looks the name up and sends; the
    waiter receives or gives up, then closes the channel and removes the name. Sending on a closed channel and closing
    twice panic; sending into a full slot blocks, with the table's lock held. */
module SyncArtifacts {
  import opened Wrappers
  import Runs

  type Name = string
  type Registration = nat

  /** The outcome of processing the artifact `name`; an empty `error` is success. */
  datatype Outcome = Outcome(name: Name, error: string)

  datatype Result = GaveUp | Got(outcome: Outcome)

  datatype Phase = Before | Selecting | Leaving(result: Result) | Returned(result: Result)

  datatype Waiter = Waiter(name: Name, phase: Phase, slot: Option<Outcome>, closed: bool)

  /** A sender that found the slot full. One that reports another's outcome holds the table's read lock meanwhile; a
      waiter that reports to itself holds none, but cannot go on to receive. */
  datatype Blocked = Blocked(to: Registration, outcome: Outcome, self: bool)

  /** `sent` records the outcomes that went into each channel, in order. */
  datatype State = State(
    table: map<Name, Registration>, waiters: map<Registration, Waiter>,
    sent: map<Registration, seq<Outcome>>, panicked: bool, blocked: set<Blocked>)

  ghost predicate Init(s: State) { s == State(map[], map[], map[], false, {}) }

  /** The table's lock can be taken for writing. */
  ghost predicate LockFree(s: State) { forall b :: b in s.blocked ==> b.self }

  ghost predicate Register(s: State, t: State, r: Registration, n: Name) {
    && r !in s.waiters && LockFree(s)
    && t == s.(table := s.table[n := r], waiters := s.waiters[r := Waiter(n, Before, None, false)],
               sent := s.sent[r := []])
  }

  /** The effect of a channel send. */
  function SendTo(s: State, r: Registration, o: Outcome, self: bool): State
    requires r in s.waiters && r in s.sent
  {
    var w := s.waiters[r];
    if w.closed then s.(panicked := true)
    else if w.slot.Some? then s.(blocked := s.blocked + {Blocked(r, o, self)})
    else s.(waiters := s.waiters[r := w.(slot := Some(o))], sent := s.sent[r := s.sent[r] + [o]])
  }

  /** SyncArtifactResult: nothing happens for a name nobody waits for. */
  ghost predicate SendResult(s: State, t: State, o: Outcome) {
    if o.name in s.table && s.table[o.name] in s.waiters && s.table[o.name] in s.sent
    then t == SendTo(s, s.table[o.name], o, false)
    else t == s
  }

  /** The waiter reports to itself that its push failed, before it waits. */
  ghost predicate SendSelf(s: State, t: State, r: Registration, error: string) {
    && r in s.waiters && r in s.sent && s.waiters[r].phase.Before?
    && t == SendTo(s, r, Outcome(s.waiters[r].name, error), true)
  }

  ghost predicate StartWait(s: State, t: State, r: Registration) {
    && r in s.waiters && s.waiters[r].phase.Before? && (forall b :: b in s.blocked && b.to == r ==> !b.self)
    && t == s.(waiters := s.waiters[r := s.waiters[r].(phase := Selecting)])
  }

  /** The waiter after it has taken what is in its slot. */
  function Received(s: State, r: Registration): State
    requires r in s.waiters && s.waiters[r].slot.Some?
  {
    s.(waiters := s.waiters[r := s.waiters[r].(phase := Leaving(Got(s.waiters[r].slot.value)), slot := None)])
  }

  /** A sender that was blocked on the slot goes on. */
  function Unblocked(s: State, b: Blocked): State
    requires b.to in s.waiters && b.to in s.sent
  {
    s.(waiters := s.waiters[b.to := s.waiters[b.to].(slot := Some(b.outcome))],
       sent := s.sent[b.to := s.sent[b.to] + [b.outcome]], blocked := s.blocked - {b})
  }

  /** Receiving frees the slot, for a blocked sender if there is one. */
  ghost predicate ReceiveResult(s: State, t: State, r: Registration) {
    && r in s.waiters && r in s.sent && s.waiters[r].phase.Selecting? && s.waiters[r].slot.Some?
    && if exists b :: b in s.blocked && b.to == r
       then exists b :: b in s.blocked && b.to == r && t == Unblocked(Received(s, r), b)
       else t == Received(s, r)
  }

  ghost predicate GiveUp(s: State, t: State, r: Registration) {
    && r in s.waiters && s.waiters[r].phase.Selecting?
    && t == s.(waiters := s.waiters[r := s.waiters[r].(phase := Leaving(GaveUp))])
  }

  /** Close the channel, remove the name, return. */
  ghost predicate Leave(s: State, t: State, r: Registration) {
    && r in s.waiters && s.waiters[r].phase.Leaving? && LockFree(s)
    && var w := s.waiters[r];
    t == if w.closed then s.(panicked := true)
         else s.(waiters := s.waiters[r := w.(phase := Returned(w.phase.result), closed := true)],
                 table := s.table - {w.name})
  }

  /** SyncArtifactReset closes every channel in the table and empties it. */
  ghost predicate Reset(s: State, t: State) {
    && LockFree(s)
    && var entered := set n | n in s.table :: s.table[n];
    t == if exists r :: r in entered && r in s.waiters && s.waiters[r].closed then s.(panicked := true)
         else s.(waiters := (map r | r in s.waiters ::
                               if r in entered then s.waiters[r].(closed := true) else s.waiters[r]),
                 table := map[])
  }

  ghost predicate WaiterStep(s: State, t: State, r: Registration) {
    StartWait(s, t, r) || ReceiveResult(s, t, r) || GiveUp(s, t, r) || Leave(s, t, r)
  }

  /** The registration this outcome goes to, if any, has not been sent one. */
  ghost predicate FirstOutcome(s: State, o: Outcome) {
    o.name in s.table && s.table[o.name] in s.sent ==> s.sent[s.table[o.name]] == []
  }

  /** The guarded steps: a name is registered only when it is not in flight, a registration is sent at most one outcome,
      and the table is reset only when it is empty. */
  ghost predicate Next(s: State, t: State) {
    && !s.panicked
    && (|| (exists r, n :: n !in s.table && Register(s, t, r, n))
        || (exists o: Outcome :: FirstOutcome(s, o) && SendResult(s, t, o))
        || (exists r, error :: (r in s.sent ==> s.sent[r] == []) && SendSelf(s, t, r, error))
        || (exists r :: WaiterStep(s, t, r))
        || (s.table == map[] && Reset(s, t)))
  }

  /** The bookkeeping of one registration. */
  ghost predicate Consistent(s: State, r: Registration)
    requires r in s.waiters && r in s.sent
  {
    var w, msgs := s.waiters[r], s.sent[r];
    && |msgs| <= 1
    && (forall o :: o in msgs ==> o.name == w.name)
    && (w.slot.Some? ==> msgs == [w.slot.value] && !(w.phase.Leaving? && w.phase.result.Got?))
    && (w.closed <==> w.phase.Returned?)
    && (!w.closed <==> w.name in s.table && s.table[w.name] == r)
    && ((w.phase.Leaving? || w.phase.Returned?) && w.phase.result.Got? ==> msgs == [w.phase.result.outcome])
    && (msgs != [] && w.slot.None? ==> (w.phase.Leaving? || w.phase.Returned?) && w.phase.result.Got?)
  }

  ghost predicate Inv(s: State) {
    && !s.panicked && s.blocked == {}
    && s.sent.Keys == s.waiters.Keys
    && (forall n :: n in s.table ==> s.table[n] in s.waiters && s.waiters[s.table[n]].name == n)
    && forall r :: r in s.waiters ==> Consistent(s, r)
  }

  lemma SendKeeps(s: State, t: State, r: Registration, o: Outcome)
    requires Inv(s) && r in s.waiters && s.sent[r] == [] && o.name == s.waiters[r].name && !s.waiters[r].closed
    requires exists self :: t == SendTo(s, r, o, self)
    ensures Inv(t)
  {
    assert Consistent(s, r);
    forall q | q in t.waiters ensures Consistent(t, q) { assert Consistent(s, q); }
  }

  lemma WaitKeeps(s: State, t: State, r: Registration)
    requires Inv(s) && (StartWait(s, t, r) || ReceiveResult(s, t, r) || GiveUp(s, t, r))
    ensures Inv(t)
  {
    assert Consistent(s, r);
    forall q | q in t.waiters ensures Consistent(t, q) { assert Consistent(s, q); }
  }

  lemma LeaveKeeps(s: State, t: State, r: Registration)
    requires Inv(s) && Leave(s, t, r)
    ensures Inv(t)
  {
    assert Consistent(s, r);
    forall q | q in t.waiters ensures Consistent(t, q) { assert Consistent(s, q); }
  }

  lemma RegisterKeeps(s: State, t: State, r: Registration, n: Name)
    requires Inv(s) && n !in s.table && Register(s, t, r, n)
    ensures Inv(t)
  {
    forall q | q in t.waiters ensures Consistent(t, q) {
      if q != r { assert Consistent(s, q); }
    }
  }

  lemma SendResultKeeps(s: State, t: State, o: Outcome)
    requires Inv(s) && FirstOutcome(s, o) && SendResult(s, t, o)
    ensures Inv(t)
  {
    if o.name in s.table {
      assert Consistent(s, s.table[o.name]);
      SendKeeps(s, t, s.table[o.name], o);
    }
  }

  lemma SendSelfKeeps(s: State, t: State, r: Registration, error: string)
    requires Inv(s) && (r in s.sent ==> s.sent[r] == []) && SendSelf(s, t, r, error)
    ensures Inv(t)
  {
    assert Consistent(s, r);
    SendKeeps(s, t, r, Outcome(s.waiters[r].name, error));
  }

  lemma EmptyReset(s: State, t: State)
    requires s.table == map[] && Reset(s, t)
    ensures t == s
  {
    assert (set n | n in s.table :: s.table[n]) == {};
    assert (map r | r in s.waiters :: s.waiters[r]) == s.waiters;
  }

  lemma StepKeeps(s: State, t: State)
    requires Inv(s) && Next(s, t)
    ensures Inv(t)
  {
    if r :| WaiterStep(s, t, r) {
      if Leave(s, t, r) { LeaveKeeps(s, t, r); } else { WaitKeeps(s, t, r); }
    } else if r, n :| n !in s.table && Register(s, t, r, n) {
      RegisterKeeps(s, t, r, n);
    } else if r, error :| (r in s.sent ==> s.sent[r] == []) && SendSelf(s, t, r, error) {
      SendSelfKeeps(s, t, r, error);
    } else if o: Outcome :| FirstOutcome(s, o) && SendResult(s, t, o) {
      SendResultKeeps(s, t, o);
    } else {
      EmptyReset(s, t);
    }
  }

  /** Result delivery: in every interleaving nothing panics and no sender blocks; a waiter that returns an outcome
      returns the one and only outcome sent to it, and that outcome is about its own artifact. */
  lemma ResultDelivery(run: seq<State>)
    requires Runs.IsRun(Init, Next, run)
    ensures forall i :: 0 <= i < |run| ==> !run[i].panicked && run[i].blocked == {}
    ensures forall i, r :: 0 <= i < |run| && r in run[i].waiters && run[i].waiters[r].phase.Returned? ==>
              var w := run[i].waiters[r];
              && r in run[i].sent
              && (w.phase.result.Got? ==> run[i].sent[r] == [w.phase.result.outcome])
              && (w.phase.result.Got? ==> w.phase.result.outcome.name == w.name)
  {
    forall s, t | Inv(s) && Next(s, t) ensures Inv(t) { StepKeeps(s, t); }
    Runs.InductiveHolds(Init, Next, Inv, run);
    forall i, r | 0 <= i < |run| && r in run[i].waiters ensures Inv(run[i]) && Consistent(run[i], r) {
      assert Inv(run[i]);
    }
    forall i | 0 <= i < |run| ensures !run[i].panicked && run[i].blocked == {} { assert Inv(run[i]); }
  }

  /** A reset does no harm exactly when nobody waits: with an empty table it changes nothing, and otherwise the next
      waiter to leave closes its channel a second time. */
  lemma ResetSafeIff(s: State, t: State)
    requires Inv(s) && Reset(s, t)
    ensures (exists u :: Runs.Reaches(Next, t, u) && u.panicked) <==> s.table != map[]
  {
    if s.table == map[] {
      EmptyReset(s, t);
      forall u | Runs.Reaches(Next, t, u) ensures !u.panicked {
        forall a, b | Inv(a) && Next(a, b) ensures Inv(b) { StepKeeps(a, b); }
        Runs.ReachesKeeps(Next, Inv, t, u);
      }
    } else {
      var n :| n in s.table;
      var r := s.table[n];
      var u := ResetThenLeave(s, t, r);
    }
  }

  /** One step of waiter r appended to what is reached already. */
  lemma WaiterMoves(start: State, a: State, b: State, r: Registration)
    requires Runs.Reaches(Next, start, a) && !a.panicked && WaiterStep(a, b, r)
    ensures Runs.Reaches(Next, start, b)
  {
    Runs.ReachesStep(Next, start, a, b);
  }

  /** A waiter that has not left can always get as far as leaving. */
  lemma ReadyToLeave(t: State, r: Registration) returns (a: State)
    requires !t.panicked && t.blocked == {} && r in t.waiters && !t.waiters[r].phase.Returned?
    ensures Runs.Reaches(Next, t, a) && !a.panicked && r in a.waiters && a.waiters[r].phase.Leaving?
    ensures a == t.(waiters := t.waiters[r := t.waiters[r].(phase := a.waiters[r].phase)])
  {
    Runs.ReachesSelf(Next, t);
    a := t;
    if a.waiters[r].phase.Before? {
      var b := a.(waiters := a.waiters[r := a.waiters[r].(phase := Selecting)]);
      assert StartWait(a, b, r);
      WaiterMoves(t, a, b, r);
      a := b;
    }
    if a.waiters[r].phase.Selecting? {
      var b := a.(waiters := a.waiters[r := a.waiters[r].(phase := Leaving(GaveUp))]);
      assert GiveUp(a, b, r);
      WaiterMoves(t, a, b, r);
      a := b;
    }
  }

  lemma ResetCloses(s: State, t: State, r: Registration)
    requires Inv(s) && Reset(s, t) && r in s.waiters && !s.waiters[r].closed
    ensures !t.panicked && t.blocked == {} && r in t.waiters && t.waiters[r].closed
    ensures t.waiters[r].phase == s.waiters[r].phase
    ensures !t.waiters[r].phase.Returned?
  {
    assert Consistent(s, r);
    var entered := set n | n in s.table :: s.table[n];
    assert r in entered;
    forall q | q in entered ensures !s.waiters[q].closed {
      var n :| n in s.table && s.table[n] == q;
      assert Consistent(s, q);
    }
  }

  lemma ResetThenLeave(s: State, t: State, r: Registration) returns (u: State)
    requires Inv(s) && Reset(s, t) && r in s.waiters && !s.waiters[r].closed
    ensures Runs.Reaches(Next, t, u) && u.panicked
  {
    ResetCloses(s, t, r);
    var a := ReadyToLeave(t, r);
    u := a.(panicked := true);
    assert Leave(a, u, r);
    WaiterMoves(t, a, u, r);
  }

  /** A waiter is cut off if it has neither returned nor been sent anything, and no outcome for its name goes
      anywhere. */
  ghost predicate CutOff(u: State, r: Registration) {
    && r in u.waiters && !u.waiters[r].phase.Returned? && r in u.sent && u.sent[r] == []
    && forall o: Outcome, v :: o.name == u.waiters[r].name && SendResult(u, v, o) ==> v == u
  }

  /** When the older of two waiters for one name leaves, it removes the younger one's entry. */
  lemma OlderCutsOff(s: State, t: State, younger: Registration, n: Name) returns (u: State)
    requires Inv(s) && n in s.table && Register(s, t, younger, n)
    ensures Runs.Reaches(Next, t, u) && CutOff(u, younger)
  {
    var older := s.table[n];
    assert Consistent(s, older);
    var a := ReadyToLeave(t, older);
    var w := a.waiters[older];
    u := a.(waiters := a.waiters[older := w.(phase := Returned(w.phase.result), closed := true)],
      table := a.table - {n});
    assert Leave(a, u, older);
    WaiterMoves(t, a, u, older);
  }

  /** In a state that keeps the bookkeeping nobody is cut off. */
  lemma NobodyIsCutOff(u: State, r: Registration)
    requires Inv(u)
    ensures !CutOff(u, r)
  {
    if r in u.waiters && !u.waiters[r].phase.Returned? && u.sent[r] == [] {
      assert Consistent(u, r);
      var o := Outcome(u.waiters[r].name, "");
      var v := SendTo(u, r, o, false);
      assert SendResult(u, v, o) && v.sent[r] == [o];
    }
  }

  /** A registration is safe exactly when its name is not in flight: some continuation cuts the new waiter off if, and
      only if, the name was in the table. */
  lemma RegistrationCutOffIff(s: State, t: State, younger: Registration, n: Name)
    requires Inv(s) && Register(s, t, younger, n)
    ensures (exists u :: Runs.Reaches(Next, t, u) && CutOff(u, younger)) <==> n in s.table
  {
    if n in s.table {
      var u := OlderCutsOff(s, t, younger, n);
    } else {
      RegisterKeeps(s, t, younger, n);
      forall a, b | Inv(a) && Next(a, b) ensures Inv(b) { StepKeeps(a, b); }
      forall u | Runs.Reaches(Next, t, u) ensures !CutOff(u, younger) {
        Runs.ReachesKeeps(Next, Inv, t, u);
        NobodyIsCutOff(u, younger);
      }
    }
  }

  // ----- a second outcome -----

  /** As long as this sender is blocked on a waiter that is leaving, neither can move: the sender holds the lock that
      the waiter needs, and only the waiter could empty the slot. */
  ghost predicate Deadlocked(s: State, b: Blocked) {
    !b.self && b in s.blocked && b.to in s.waiters && s.waiters[b.to].phase.Leaving?
  }

  lemma DeadlockStays(s: State, t: State, b: Blocked)
    requires Deadlocked(s, b) && Next(s, t)
    ensures Deadlocked(t, b)
  {
    assert !LockFree(s);
    if r :| WaiterStep(s, t, r) {
      if ReceiveResult(s, t, r) {
        assert r != b.to;
        if c :| c in s.blocked && c.to == r && t == Unblocked(Received(s, r), c) { assert c != b; }
      }
    }
  }

  /** A second outcome for a registration blocks its sender for good exactly when the first is still in the slot and
      the waiter has stopped waiting for it; in every other place of the waiter the sender can get through. */
  lemma SecondOutcomeStuckIff(s: State, t: State, o: Outcome)
    requires Inv(s) && o.name in s.table && SendResult(s, t, o)
    ensures var r := s.table[o.name];
            (forall u :: Runs.Reaches(Next, t, u) ==> Blocked(r, o, false) in u.blocked)
            <==> s.waiters[r].slot.Some? && s.waiters[r].phase.Leaving?
  {
    var r := s.table[o.name];
    var b := Blocked(r, o, false);
    assert Consistent(s, r);
    if s.waiters[r].slot.Some? && s.waiters[r].phase.Leaving? {
      assert Deadlocked(t, b);
      forall x, y | Deadlocked(x, b) && Next(x, y) ensures Deadlocked(y, b) { DeadlockStays(x, y, b); }
      forall u | Runs.Reaches(Next, t, u) ensures b in u.blocked {
        Runs.ReachesKeeps(Next, (x: State) => Deadlocked(x, b), t, u);
      }
    } else {
      var u := SenderFreed(s, t, r, b);
    }
  }

  /** A waiter that has not given up can take the first outcome and so let the sender go on. */
  lemma SenderFreed(s: State, t: State, r: Registration, b: Blocked) returns (u: State)
    requires Inv(s) && r in s.waiters && !s.waiters[r].closed && b == Blocked(r, b.outcome, false)
    requires t == SendTo(s, r, b.outcome, false) && !(s.waiters[r].slot.Some? && s.waiters[r].phase.Leaving?)
    ensures Runs.Reaches(Next, t, u) && b !in u.blocked
  {
    assert Consistent(s, r);
    Runs.ReachesSelf(Next, t);
    u := t;
    if s.waiters[r].slot.Some? {
      if u.waiters[r].phase.Before? {
        var v := u.(waiters := u.waiters[r := u.waiters[r].(phase := Selecting)]);
        assert StartWait(u, v, r);
        WaiterMoves(t, u, v, r);
        u := v;
      }
      var v := Unblocked(Received(u, r), b);
      assert b in u.blocked && b.to == r;
      assert ReceiveResult(u, v, r);
      WaiterMoves(t, u, v, r);
      u := v;
    }
  }

  /** The waiter that reports to itself is stuck. */
  ghost predicate StuckOnItself(s: State, b: Blocked) {
    b.self && b in s.blocked && b.to in s.waiters && s.waiters[b.to].phase.Before?
  }

  lemma StuckStays(s: State, t: State, b: Blocked)
    requires StuckOnItself(s, b) && Next(s, t)
    ensures StuckOnItself(t, b)
  {
    if r :| WaiterStep(s, t, r) {
      if ReceiveResult(s, t, r) {
        if c :| c in s.blocked && c.to == r && t == Unblocked(Received(s, r), c) { assert c != b; }
      }
    }
  }

  /** A waiter that reports a failed push to itself, without the lock, is stuck for good exactly when its slot is taken
      already. */
  lemma SelfReportStuckIff(s: State, t: State, r: Registration, error: string)
    requires Inv(s) && SendSelf(s, t, r, error)
    ensures (forall u :: Runs.Reaches(Next, t, u) ==> Blocked(r, Outcome(s.waiters[r].name, error), true) in u.blocked)
            <==> s.waiters[r].slot.Some?
  {
    var b := Blocked(r, Outcome(s.waiters[r].name, error), true);
    assert Consistent(s, r);
    if s.waiters[r].slot.Some? {
      assert StuckOnItself(t, b);
      forall x, y | StuckOnItself(x, b) && Next(x, y) ensures StuckOnItself(y, b) { StuckStays(x, y, b); }
      forall u | Runs.Reaches(Next, t, u) ensures b in u.blocked {
        Runs.ReachesKeeps(Next, (x: State) => StuckOnItself(x, b), t, u);
      }
    } else {
      Runs.ReachesSelf(Next, t);
    }
  }
}
