/** Runs of a transition system: the vocabulary every protocol module shares. */
module Runs {

  /** `path` follows `next` from its first state to its last. */
  ghost predicate IsPath<S(!new)>(next: (S, S) -> bool, path: seq<S>) {
    && |path| > 0
    && forall i :: 0 < i < |path| ==> next(path[i - 1], path[i])
  }

  /** A run is a path that starts in an initial state. */
  ghost predicate IsRun<S(!new)>(init: S -> bool, next: (S, S) -> bool, run: seq<S>) {
    IsPath(next, run) && init(run[0])
  }

  ghost predicate Inductive<S(!new)>(init: S -> bool, next: (S, S) -> bool, inv: S -> bool) {
    && (forall s :: init(s) ==> inv(s))
    && forall s, t :: inv(s) && next(s, t) ==> inv(t)
  }

  /** What `init` establishes and every step keeps holds in every state of every run. */
  lemma {:induction false} InductiveHolds<S(!new)>(init: S -> bool, next: (S, S) -> bool, inv: S -> bool, run: seq<S>)
    requires Inductive(init, next, inv)
    requires IsRun(init, next, run)
    ensures forall i :: 0 <= i < |run| ==> inv(run[i])
  {
    if |run| > 1 {
      var prefix := run[..|run| - 1];
      InductiveHolds(init, next, inv, prefix);
      var last := |run| - 1;
      assert next(run[last - 1], run[last]) && run[last - 1] == prefix[last - 1];
      forall i | 0 <= i < |run| ensures inv(run[i]) {
        if i < last { assert run[i] == prefix[i]; }
      }
    }
  }

  /** `t` can be reached from `s` in zero or more steps. */
  ghost predicate Reaches<S(!new)>(next: (S, S) -> bool, s: S, t: S) {
    exists path: seq<S> :: IsPath(next, path) && path[0] == s && path[|path| - 1] == t
  }

  lemma ReachesSelf<S(!new)>(next: (S, S) -> bool, s: S)
    ensures Reaches(next, s, s)
  {
    assert IsPath(next, [s]) && [s][0] == s;
  }

  lemma ReachesStep<S(!new)>(next: (S, S) -> bool, s: S, t: S, u: S)
    requires Reaches(next, s, t) && next(t, u)
    ensures Reaches(next, s, u)
  {
    var path: seq<S> :| IsPath(next, path) && path[0] == s && path[|path| - 1] == t;
    var longer := path + [u];
    assert IsPath(next, longer) && longer[0] == s && longer[|longer| - 1] == u;
  }

  lemma ReachesTrans<S(!new)>(next: (S, S) -> bool, s: S, t: S, u: S)
    requires Reaches(next, s, t) && Reaches(next, t, u)
    ensures Reaches(next, s, u)
  {
    var p: seq<S> :| IsPath(next, p) && p[0] == s && p[|p| - 1] == t;
    var q: seq<S> :| IsPath(next, q) && q[0] == t && q[|q| - 1] == u;
    var pq := p + q[1..];
    forall i | 0 < i < |pq| ensures next(pq[i - 1], pq[i]) {
      if i >= |p| { assert pq[i] == q[i - |p| + 1] && pq[i - 1] == q[i - |p|]; }
    }
    assert IsPath(next, pq) && pq[0] == s && pq[|pq| - 1] == u;
  }

  /** A step-closed property carries over everything reachable. */
  lemma ReachesKeeps<S(!new)>(next: (S, S) -> bool, inv: S -> bool, s: S, t: S)
    requires forall a, b :: inv(a) && next(a, b) ==> inv(b)
    requires inv(s) && Reaches(next, s, t)
    ensures inv(t)
  {
    var path: seq<S> :| IsPath(next, path) && path[0] == s && path[|path| - 1] == t;
    InductiveHolds((x: S) => x == s, next, inv, path);
    assert inv(path[|path| - 1]);
  }

  /** A run followed by what its last state reaches ends a longer run. */
  lemma ExtendRun<S(!new)>(init: S -> bool, next: (S, S) -> bool, run: seq<S>, t: S) returns (longer: seq<S>)
    requires IsRun(init, next, run) && Reaches(next, run[|run| - 1], t)
    ensures IsRun(init, next, longer) && |longer| >= |run| && longer[|longer| - 1] == t
    ensures longer[..|run|] == run
  {
    var s := run[|run| - 1];
    var q: seq<S> :| IsPath(next, q) && q[0] == s && q[|q| - 1] == t;
    longer := run + q[1..];
    forall i | 0 < i < |longer| ensures next(longer[i - 1], longer[i]) {
      if i >= |run| { assert longer[i] == q[i - |run| + 1] && longer[i - 1] == q[i - |run|]; }
    }
  }

  /** There is always a thread that has not been seen yet. */
  lemma {:induction false} FreshNumber(used: set<nat>) returns (n: nat)
    ensures n !in used
    decreases |used|
  {
    if used == {} {
      n := 0;
    } else {
      var top := Largest(used);
      n := top + 1;
    }
  }

  lemma {:induction false} Largest(used: set<nat>) returns (top: nat)
    requires used != {}
    ensures forall n :: n in used ==> n <= top
    decreases |used|
  {
    var m :| m in used;
    var rest := used - {m};
    assert forall n :: n in used ==> n == m || n in rest;
    if rest == {} {
      top := m;
    } else {
      var r := Largest(rest);
      top := if m > r then m else r;
    }
  }
}
