/** Exactly when removing the local file of a shared database loses changes. */
module SharedEviction {
  import opened Wrappers
  import opened SharedDb
  import Runs

  /** Nobody runs a helper, and the bucket has not got all changes. */
  ghost predicate Diverged(s: State) { s.threads == map[] && Pulled(s) != s.plain }

  /** What a push would write. */
  function ToPush(s: State): Table { if s.local.Some? then s.local.value else map[] }

  lemma OneMore(origin: State, s: State, u: State, t: Thread)
    requires Runs.Reaches(Helpers, origin, s) && HelperStep(s, u, t)
    ensures Runs.Reaches(Helpers, origin, u)
  {
    Runs.ReachesStep(Helpers, origin, s, u);
  }

  /** A thread past its reference can finish, and pushes if that is due. */
  lemma FinishOne(s: State, t: Thread) returns (u: State)
    requires Unreferenced(s) && t in s.threads
    ensures Runs.Reaches(Helpers, s, u) && u.threads == s.threads - {t} && u.local == s.local && u.plain == s.plain
    ensures Pulled(u) == if At(s, t, Released(true)) then ToPush(s) else Pulled(s)
  {
    Runs.ReachesSelf(Helpers, s);
    var a := s;
    if At(s, t, Released(true)) {
      a := PushedBy(s, t);
      assert Push(s, a, t);
      OneMore(s, s, a, t);
    } else if At(s, t, Released(false)) {
      a := Moved(s, t, Closing);
      assert SkipPush(s, a, t);
      OneMore(s, s, a, t);
    }
    assert At(a, t, Closing) by { assert !HoldsReference(s.threads[t]); }
    u := a.(threads := a.threads - {t}, open := a.open && !Unreferenced(a));
    assert Close(a, u, t);
    OneMore(s, a, u, t);
  }

  /** All of them can. */
  lemma {:induction false} FinishAll(s: State) returns (u: State)
    requires Unreferenced(s)
    ensures Runs.Reaches(Helpers, s, u) && u.threads == map[] && u.plain == s.plain
    ensures Pulled(u) == if exists t :: At(s, t, Released(true)) then ToPush(s) else Pulled(s)
    decreases |s.threads|
  {
    if s.threads == map[] {
      u := s;
      Runs.ReachesSelf(Helpers, s);
    } else {
      var t :| t in s.threads;
      var v := FinishOne(s, t);
      assert forall x :: At(v, x, Released(true)) <==> x != t && At(s, x, Released(true));
      u := FinishAll(v);
      Runs.ReachesTrans(Helpers, s, v, u);
    }
  }

  /** A reader that comes after the removal brings the old object back as the local file. */
  lemma ReaderPulls(s: State) returns (u: State)
    requires Unreferenced(s) && !s.open && s.local.None?
    ensures Runs.Reaches(Helpers, s, u) && Unreferenced(u) && u.local == Some(Pulled(s)) && Pulled(u) == Pulled(s)
    ensures u.plain == s.plain && forall t :: t in s.threads ==> t in u.threads && u.threads[t] == s.threads[t]
  {
    var f := Runs.FreshNumber(s.threads.Keys);
    Runs.ReachesSelf(Helpers, s);
    var a := Moved(s, f, Entered);
    assert Enter(s, a, f);
    OneMore(s, s, a, f);
    var b := Moved(a, f, Ready).(open := true, local := Some(Pulled(s)));
    assert Open(a, b, f);
    OneMore(s, a, b, f);
    var c := Moved(b, f, Changed(false));
    assert Look(b, c, f);
    OneMore(s, b, c, f);
    u := Moved(c, f, Released(false));
    assert Release(c, u, f);
    OneMore(s, c, u, f);
  }

  lemma EvictionLoses(s: State, u: State) returns (v: State)
    requires Inv(s) && Evict(s, u) && !MayEvict(s)
    ensures Runs.Reaches(Helpers, u, v) && Diverged(v)
  {
    var t :| Due(s, t);
    assert At(u, t, Released(true)) by { assert !HoldsReference(s.threads[t]); }
    if s.plain != map[] {
      v := FinishAll(u);
    } else {
      var w := ReaderPulls(u);
      assert At(w, t, Released(true));
      v := FinishAll(w);
      Runs.ReachesTrans(Helpers, u, w, v);
    }
  }

  /** Removing the local file does harm exactly when a push is due and there is something to lose: then, and only then,
      the helpers can go on to a state in which nobody is running and the bucket lacks changes that were made. */
  lemma EvictionLosesIff(s: State, u: State)
    requires Inv(s) && Evict(s, u)
    ensures (exists v :: Runs.Reaches(Helpers, u, v) && Diverged(v)) <==> !MayEvict(s)
  {
    if MayEvict(s) {
      EvictKeeps(s, u);
      forall a, b | Inv(a) && Helpers(a, b) ensures Inv(b) { StepKeeps(a, b); }
      forall v | Runs.Reaches(Helpers, u, v) ensures !Diverged(v) {
        Runs.ReachesKeeps(Helpers, Inv, u, v);
        assert v.threads == map[] ==> forall t :: !Due(v, t);
      }
    } else {
      var v := EvictionLoses(s, u);
    }
  }
}
