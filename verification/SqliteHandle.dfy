/** The reference-counted database handle under any interleaving of its users and of Close calls.

    The counter changes without the lock; Open and Close hold it; a query may run without it. Close is three steps,
    because a thread may take a reference between its test of the counter and the moment the handle is gone. */
module SqliteHandle {
  import Runs

  type Thread = nat

  /** The order in which a method takes its reference and opens. All methods reference first, except AddLog. */
  datatype Kind = ReferenceFirst | OpenFirst

  datatype Phase = Outside | Referenced | Opened | Using

  /** What the embedded handle field holds. */
  datatype Handle = Nil | Usable | Shut

  datatype State = State(
    kinds: map<Thread, Kind>, phase: map<Thread, Phase>,
    references: int, handle: Handle, closing: bool)   // closing: a Close call holds the lock and will go through

  ghost predicate Init(kinds: map<Thread, Kind>, s: State) {
    && s.kinds == kinds && s.phase == (map t | t in kinds :: Outside)
    && s.references == 0 && s.handle.Usable? && !s.closing
  }

  ghost predicate At(s: State, t: Thread, kind: Kind, phase: Phase) {
    t in s.kinds && t in s.phase && s.kinds[t] == kind && s.phase[t] == phase
  }

  ghost predicate TakeReference(s: State, s': State, t: Thread) {
    && (At(s, t, ReferenceFirst, Outside) || At(s, t, OpenFirst, Opened))
    && s' == s.(phase := s.phase[t := if s.kinds[t].OpenFirst? then Using else Referenced],
                references := s.references + 1)
  }

  ghost predicate OpenHandle(s: State, s': State, t: Thread) {
    && !s.closing
    && (At(s, t, ReferenceFirst, Referenced) || At(s, t, OpenFirst, Outside))
    && s' == s.(phase := s.phase[t := if s.kinds[t].OpenFirst? then Opened else Using],
                handle := if s.handle.Nil? then Usable else s.handle)
  }

  /** The deferred decrement, after use or after a failed open. */
  ghost predicate DropReference(s: State, s': State, t: Thread) {
    && (At(s, t, ReferenceFirst, Referenced) || (t in s.kinds && At(s, t, s.kinds[t], Using)))
    && s' == s.(phase := s.phase[t := Outside], references := s.references - 1)
  }

  ghost predicate CloseTest(s: State, s': State) {
    && !s.closing && !s.handle.Nil? && s.references == 0
    && s' == s.(closing := true)
  }

  ghost predicate CloseShut(s: State, s': State) {
    s.closing && s.handle.Usable? && s' == s.(handle := Shut)
  }

  ghost predicate CloseClear(s: State, s': State) {
    s.closing && s.handle.Shut? && s' == s.(handle := Nil, closing := false)
  }

  ghost predicate Next(s: State, s': State) {
    || (exists t :: TakeReference(s, s', t) || OpenHandle(s, s', t) || DropReference(s, s', t))
    || CloseTest(s, s') || CloseShut(s, s') || CloseClear(s, s')
  }

  /** No thread in its use phase sees a missing or closed database. */
  ghost predicate Safe(s: State) {
    forall t :: t in s.phase && s.phase[t].Using? ==> s.handle.Usable?
  }

  ghost function Inside(s: State): set<Thread> {
    set t | t in s.phase && (s.phase[t].Referenced? || s.phase[t].Using?)
  }

  ghost predicate AllReferenceFirst(kinds: map<Thread, Kind>) {
    forall t :: t in kinds ==> kinds[t].ReferenceFirst?
  }

  ghost predicate Inv(s: State) {
    && s.phase.Keys == s.kinds.Keys
    && s.references == |Inside(s)|
    && (s.closing ==> !s.handle.Nil?)
    && (!s.closing ==> !s.handle.Shut?)
    && (AllReferenceFirst(s.kinds) ==>
         && Safe(s)
         && forall t :: t in s.phase ==> !s.phase[t].Opened? && (s.closing ==> !s.phase[t].Using?))
  }

  lemma InsideGrows(s: State, s': State, t: Thread)
    requires t in s.phase && t in s'.phase && t !in Inside(s) && s'.phase == s.phase[t := s'.phase[t]]
    requires (s'.phase[t].Referenced? || s'.phase[t].Using?)
    ensures |Inside(s')| == |Inside(s)| + 1
  {
    assert Inside(s') == Inside(s) + {t};
  }

  lemma InsideShrinks(s: State, s': State, t: Thread)
    requires t in Inside(s) && s'.phase == s.phase[t := Outside]
    ensures |Inside(s')| == |Inside(s)| - 1
  {
    assert Inside(s') == Inside(s) - {t};
  }

  lemma StepKeeps(s: State, s': State)
    requires Inv(s) && Next(s, s')
    ensures Inv(s') && s'.kinds == s.kinds
  {
    if t :| TakeReference(s, s', t) {
      InsideGrows(s, s', t);
    } else if t :| OpenHandle(s, s', t) {
      if s.kinds[t].ReferenceFirst? {
        assert Inside(s') == Inside(s);
      } else {
        assert Inside(s') == Inside(s);
      }
    } else if t :| DropReference(s, s', t) {
      InsideShrinks(s, s', t);
    } else if CloseTest(s, s') {
      assert Inside(s) == {};
      forall t | t in s.phase ensures !s.phase[t].Using? { assert t !in Inside(s); }
      assert Inside(s') == Inside(s);
    } else {
      assert Inside(s') == Inside(s);
    }
  }

  ghost predicate InvOf(kinds: map<Thread, Kind>, s: State) { Inv(s) && s.kinds == kinds }

  /** In every interleaving the counter is the number of threads inside, AddLog or not; and without AddLog every use
      phase finds a usable handle. */
  lemma CounterAndHandle(kinds: map<Thread, Kind>, run: seq<State>)
    requires Runs.IsRun((s: State) => Init(kinds, s), Next, run)
    ensures forall i :: 0 <= i < |run| ==> run[i].references == |Inside(run[i])|
    ensures AllReferenceFirst(kinds) ==> forall i :: 0 <= i < |run| ==> Safe(run[i])
  {
    var init, inv := (s: State) => Init(kinds, s), (s: State) => InvOf(kinds, s);
    forall s | init(s) ensures inv(s) { assert Inside(s) == {}; }
    forall s, s' | inv(s) && Next(s, s') ensures inv(s') { StepKeeps(s, s'); }
    Runs.InductiveHolds(init, Next, inv, run);
    forall i | 0 <= i < |run| ensures InvOf(kinds, run[i]) { assert inv(run[i]); }
  }

  /** One thread that opens first is enough: a Close between its open and its reference leaves it without a database. */
  lemma OpenFirstIsUnsafe(kinds: map<Thread, Kind>, t: Thread) returns (run: seq<State>)
    requires t in kinds && kinds[t].OpenFirst?
    ensures Runs.IsRun((s: State) => Init(kinds, s), Next, run) && !Safe(run[|run| - 1])
  {
    var outside := map u | u in kinds :: Outside;
    var s0 := State(kinds, outside, 0, Usable, false);
    var s1 := s0.(phase := outside[t := Opened]);
    var s2 := s1.(closing := true);
    var s3 := s2.(handle := Shut);
    var s4 := s3.(handle := Nil, closing := false);
    var s5 := s4.(phase := s1.phase[t := Using], references := 1);
    run := [s0, s1, s2, s3, s4, s5];
    assert OpenHandle(s0, s1, t) && CloseTest(s1, s2) && CloseShut(s2, s3) && CloseClear(s3, s4)
      && TakeReference(s4, s5, t);
    assert s5.phase[t].Using? && s5.handle.Nil?;
  }

  /** Handle safety in every interleaving holds exactly for those programs in which no method opens before it takes its
      reference. */
  lemma SafeIffReferenceFirst(kinds: map<Thread, Kind>)
    ensures (forall run :: Runs.IsRun((s: State) => Init(kinds, s), Next, run) ==> Safe(run[|run| - 1]))
            <==> AllReferenceFirst(kinds)
  {
    if AllReferenceFirst(kinds) {
      forall run | Runs.IsRun((s: State) => Init(kinds, s), Next, run) ensures Safe(run[|run| - 1]) {
        CounterAndHandle(kinds, run);
      }
    } else {
      var t :| t in kinds && !kinds[t].ReferenceFirst?;
      var run := OpenFirstIsUnsafe(kinds, t);
    }
  }
}
