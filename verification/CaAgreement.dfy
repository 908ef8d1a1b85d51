/** How the members of a gossip cluster come to use one certificate authority.

    At a join both sides send their state and merge what they receive. A state is a snapshot taken when it is sent and
    may be merged any time later, so messages stay in flight here; an empty state is never merged. A member with peers
    must have joined one of them, and so have received its answer, before it goes on. */
module CaAgreement {
  import opened Wrappers
  import Runs

  type Member = string
  type Ca = string

  /** A fresh CA is generated by a member without peers, and outside Kubernetes by everyone. */
  function InitialState(peers: nat, inKubernetes: bool, newCa: Ca): Option<Ca> {
    if peers == 0 || !inKubernetes then Some(newCa) else None
  }

  datatype Delegate = Delegate(local: Option<Ca>, remote: Option<Ca>)

  function StateToSend(d: Delegate, join: bool): Option<Ca> { if join then d.local else None }

  function Merged(d: Delegate, buf: Ca, join: bool): Delegate {
    if join && d.remote.None? then Delegate(if d.local.None? then Some(buf) else d.local, Some(buf)) else d
  }

  class NodeDelegate {
    var localState: Option<Ca>
    var remoteState: Option<Ca>

    function View(): Delegate
      reads this
    {
      Delegate(localState, remoteState)
    }

    constructor (state: Option<Ca>)
      ensures View() == Delegate(state, None)
    {
      localState, remoteState := state, None;
    }

    method LocalState(join: bool) returns (state: Option<Ca>)
      ensures state == StateToSend(View(), join)
      ensures state.Some? <==> join && localState.Some?
      ensures state.Some? ==> state == localState
    {
      if join && localState != None { return localState; }
      state := None;
    }

    method MergeRemoteState(buf: Ca, join: bool)
      modifies this
      ensures View() == Merged(old(View()), buf, join)
      ensures join && old(remoteState).None? ==> remoteState == Some(buf)
      ensures join && old(remoteState).None? && old(localState).None? ==> localState == Some(buf)
      ensures !join || old(remoteState).Some? ==> remoteState == old(remoteState)
      ensures !join || old(remoteState).Some? || old(localState).Some? ==> localState == old(localState)
    {
      if join && remoteState == None {
        if localState == None {
          localState := Some(buf);
        }
        remoteState := Some(buf);
      }
    }
  }

  /** What the members start from: how many peers each found, and the CA it generated, if any. */
  datatype Cluster = Cluster(peers: map<Member, nat>, generated: map<Member, Option<Ca>>)

  datatype Message = Message(to: Member, state: Option<Ca>)

  /** `flying` are the states sent and not yet merged, `joined` the members whose join has returned, `using` the CA each
      member that finished initGossip works with. */
  datatype State = State(
    peers: map<Member, nat>, members: map<Member, Delegate>, flying: set<Message>, joined: set<Member>,
    using: map<Member, Ca>)

  ghost predicate Init(c: Cluster, s: State) {
    s == State(c.peers, map m | m in c.generated :: Delegate(c.generated[m], None), {}, {}, map[])
  }

  ghost predicate Send(s: State, t: State, from: Member, to: Member) {
    from in s.members && t == s.(flying := s.flying + {Message(to, StateToSend(s.members[from], true))})
  }

  function AfterMerge(d: Delegate, state: Option<Ca>): Delegate {
    if state.Some? then Merged(d, state.value, true) else d
  }

  ghost predicate HasPeers(s: State, m: Member) { m in s.peers && s.peers[m] > 0 }

  /** A state arrives, late or more than once. For the member that started the join it is the answer, and its join
      returns. */
  ghost predicate Receive(s: State, t: State, m: Message, answer: bool) {
    && m in s.flying && m.to in s.members && (answer ==> HasPeers(s, m.to))
    && t == s.(members := s.members[m.to := AfterMerge(s.members[m.to], m.state)],
               joined := if answer then s.joined + {m.to} else s.joined)
  }

  /** The remote state if there is one, else the local state, else an error. */
  function Chosen(d: Delegate): Option<Ca> { if d.remote.Some? then d.remote else d.local }

  ghost predicate Finish(s: State, t: State, m: Member) {
    && m in s.members && m !in s.using && (HasPeers(s, m) ==> m in s.joined)
    && Chosen(s.members[m]).Some?
    && t == s.(using := s.using[m := Chosen(s.members[m]).value])
  }

  ghost predicate Next(s: State, t: State) {
    || (exists a, b :: Send(s, t, a, b)) || (exists m, answer :: Receive(s, t, m, answer))
    || (exists m :: Finish(s, t, m))
  }

  ghost predicate WriteOnce(a: Delegate, b: Delegate) {
    (a.local.Some? ==> b.local == a.local) && (a.remote.Some? ==> b.remote == a.remote)
  }

  /** Neither state of a member ever changes once it is set. */
  lemma {:induction false} StatesAreWriteOnce(path: seq<State>, i: nat, j: nat, m: Member)
    requires Runs.IsPath(Next, path) && i <= j < |path| && m in path[i].members
    ensures m in path[j].members && WriteOnce(path[i].members[m], path[j].members[m])
    ensures m in path[i].using ==> m in path[j].using && path[j].using[m] == path[i].using[m]
    decreases j - i
  {
    if i < j {
      StatesAreWriteOnce(path, i, j - 1, m);
      assert Next(path[j - 1], path[j]);
    }
  }

  ghost predicate UsersJoined(s: State) { forall m :: m in s.using && HasPeers(s, m) ==> m in s.joined }

  /** A member that found peers uses a CA only after its join has returned. */
  lemma UsersHaveJoined(c: Cluster, run: seq<State>, i: nat)
    requires IsRunOf(c, run) && i < |run|
    ensures forall m :: m in run[i].using && m in c.peers && c.peers[m] > 0 ==> m in run[i].joined
  {
    var init, inv := (s: State) => Init(c, s), (s: State) => UsersJoined(s) && s.peers == c.peers;
    forall s, t | inv(s) && Next(s, t) ensures inv(t) {}
    Runs.InductiveHolds(init, Next, inv, run);
    assert inv(run[i]);
  }

  ghost predicate OneOrigin(c: Cluster) {
    forall a, b :: a in c.generated && b in c.generated && c.generated[a].Some? && c.generated[b].Some?
      ==> c.generated[a] == c.generated[b]
  }

  ghost predicate NoneBut(ca: Ca, state: Option<Ca>) { state.Some? ==> state.value == ca }

  ghost predicate AllOf(ca: Ca, s: State) {
    && (forall m :: m in s.members ==> NoneBut(ca, s.members[m].local) && NoneBut(ca, s.members[m].remote))
    && (forall f :: f in s.flying ==> NoneBut(ca, f.state))
    && (forall m :: m in s.using ==> s.using[m] == ca)
  }

  ghost predicate Agreed(s: State) { forall a, b :: a in s.using && b in s.using ==> s.using[a] == s.using[b] }

  ghost predicate IsRunOf(c: Cluster, run: seq<State>) { Runs.IsRun((s: State) => Init(c, s), Next, run) }

  lemma OneCaEverywhere(c: Cluster, ca: Ca, run: seq<State>)
    requires forall m :: m in c.generated ==> NoneBut(ca, c.generated[m])
    requires IsRunOf(c, run)
    ensures forall i :: 0 <= i < |run| ==> AllOf(ca, run[i])
  {
    var init, inv := (s: State) => Init(c, s), (s: State) => AllOf(ca, s);
    forall s, t | inv(s) && Next(s, t) ensures inv(t) {
      if m, answer :| Receive(s, t, m, answer) { assert NoneBut(ca, m.state); }
    }
    Runs.InductiveHolds(init, Next, inv, run);
    forall i | 0 <= i < |run| ensures AllOf(ca, run[i]) { assert inv(run[i]); }
  }

  /** CA agreement: all members that finish use the same CA in every run, if and only if no two different CAs were
      generated to begin with. */
  lemma AgreementIff(c: Cluster)
    ensures (forall run :: IsRunOf(c, run) ==> Agreed(run[|run| - 1])) <==> OneOrigin(c)
  {
    if OneOrigin(c) {
      var ca := if exists m :: m in c.generated && c.generated[m].Some?
                then var m :| m in c.generated && c.generated[m].Some?; c.generated[m].value else "";
      forall run | IsRunOf(c, run) ensures Agreed(run[|run| - 1]) {
        OneCaEverywhere(c, ca, run);
      }
    } else {
      var a, b :| a in c.generated && b in c.generated && c.generated[a].Some? && c.generated[b].Some?
                  && c.generated[a] != c.generated[b];
      var run := TwoOrigins(c, a, b);
    }
  }

  /** The two exchange their states, each as the answer to its own join, and merge them. */
  lemma BothJoin(c: Cluster, a: Member, b: Member) returns (run: seq<State>)
    requires a in c.generated && b in c.generated && a != b && c.generated[a].Some? && c.generated[b].Some?
    ensures IsRunOf(c, run)
    ensures var s := run[|run| - 1];
            && s.using == map[] && (HasPeers(s, a) ==> a in s.joined) && (HasPeers(s, b) ==> b in s.joined)
            && a in s.members && s.members[a] == Delegate(c.generated[a], c.generated[b])
            && b in s.members && s.members[b] == Delegate(c.generated[b], c.generated[a])
  {
    var s0 := State(c.peers, map m | m in c.generated :: Delegate(c.generated[m], None), {}, {}, map[]);
    var toB, toA := Message(b, c.generated[a]), Message(a, c.generated[b]);
    var s1 := s0.(flying := {toB});
    var s2 := s1.(flying := {toB} + {toA});
    assert Send(s0, s1, a, b) && Send(s1, s2, b, a);
    var s3 := s2.(members := s2.members[a := Delegate(c.generated[a], c.generated[b])],
                  joined := if HasPeers(s2, a) then {a} else {});
    var s4 := s3.(members := s3.members[b := Delegate(c.generated[b], c.generated[a])],
                  joined := if HasPeers(s3, b) then s3.joined + {b} else s3.joined);
    assert Receive(s2, s3, toA, HasPeers(s2, a)) && Receive(s3, s4, toB, HasPeers(s3, b));
    run := [s0, s1, s2, s3, s4];
  }

  /** Two members that generated different CAs and join each other end up with each other's, and never agree. */
  lemma TwoOrigins(c: Cluster, a: Member, b: Member) returns (run: seq<State>)
    requires a in c.generated && b in c.generated && c.generated[a].Some? && c.generated[b].Some?
    requires c.generated[a] != c.generated[b]
    ensures IsRunOf(c, run)
    ensures var s := run[|run| - 1];
            && a in s.using && b in s.using
            && s.using[a] == c.generated[b].value && s.using[b] == c.generated[a].value && !Agreed(s)
  {
    var joins := BothJoin(c, a, b);
    var s := joins[|joins| - 1];
    var t := s.(using := map[a := c.generated[b].value]);
    var u := t.(using := t.using[b := c.generated[a].value]);
    assert Finish(s, t, a) && Finish(t, u, b);
    run := joins + [t, u];
    assert u.using[a] != u.using[b];
  }

  function KubernetesCluster(peers: map<Member, nat>, newCa: Member -> Ca): Cluster {
    Cluster(peers, map m | m in peers :: InitialState(peers[m], true, newCa(m)))
  }

  /** In Kubernetes one member without peers is enough: whatever the others find, all that finish agree on its CA. */
  lemma KubernetesAgrees(peers: map<Member, nat>, newCa: Member -> Ca, first: Member, run: seq<State>)
    requires first in peers && forall m :: m in peers && peers[m] == 0 ==> m == first
    requires IsRunOf(KubernetesCluster(peers, newCa), run)
    ensures forall i, m :: 0 <= i < |run| && m in run[i].using ==> run[i].using[m] == newCa(first)
  {
    OneCaEverywhere(KubernetesCluster(peers, newCa), newCa(first), run);
    forall i, m | 0 <= i < |run| && m in run[i].using ensures run[i].using[m] == newCa(first) {
      assert AllOf(newCa(first), run[i]);
    }
  }

  /** Outside Kubernetes every member generates a CA, so agreement in every run means that there is one member only, or
      that all generated the same CA. */
  lemma ElsewhereAgreesIff(peers: map<Member, nat>, newCa: Member -> Ca)
    ensures var c := Cluster(peers, map m | m in peers :: InitialState(peers[m], false, newCa(m)));
            (forall run :: IsRunOf(c, run) ==> Agreed(run[|run| - 1]))
            <==> forall a, b :: a in peers && b in peers ==> newCa(a) == newCa(b)
  {
    var c := Cluster(peers, map m | m in peers :: InitialState(peers[m], false, newCa(m)));
    AgreementIff(c);
    assert forall m :: m in peers ==> c.generated[m] == Some(newCa(m));
  }

  // ----- who can finish -----

  /** The members stay the same, and one that generated a CA keeps it as its local state. */
  ghost predicate Grown(c: Cluster, s: State) {
    && s.peers == c.peers && s.members.Keys == c.generated.Keys
    && forall m :: m in c.generated && c.generated[m].Some? ==> s.members[m].local == c.generated[m]
  }

  lemma GrownKept(c: Cluster, s: State, t: State)
    requires Grown(c, s) && Next(s, t)
    ensures Grown(c, t)
  {
  }

  lemma GrownHolds(c: Cluster, run: seq<State>)
    requires IsRunOf(c, run)
    ensures forall i :: 0 <= i < |run| ==> Grown(c, run[i])
  {
    var init, inv := (s: State) => Init(c, s), (s: State) => Grown(c, s);
    forall s, t | inv(s) && Next(s, t) ensures inv(t) { GrownKept(c, s, t); }
    Runs.InductiveHolds(init, Next, inv, run);
    forall i | 0 <= i < |run| ensures Grown(c, run[i]) { assert inv(run[i]); }
  }

  ghost function Unfinished(s: State): set<Member> { set m | m in s.members && m !in s.using }

  /** A member that has not finished joins one that generated a CA, takes its answer and finishes. */
  lemma MemberFinishes(c: Cluster, s: State, first: Member, m: Member) returns (t: State)
    requires Grown(c, s) && first in c.generated && c.generated[first].Some? && m in s.members && m !in s.using
    ensures Runs.Reaches(Next, s, t) && Grown(c, t) && Unfinished(t) == Unfinished(s) - {m}
  {
    var ca := c.generated[first];
    var a := s.(flying := s.flying + {Message(m, ca)});
    assert Send(s, a, first, m);
    var b := a.(members := a.members[m := AfterMerge(a.members[m], ca)],
                joined := if HasPeers(a, m) then a.joined + {m} else a.joined);
    assert Receive(a, b, Message(m, ca), HasPeers(a, m));
    t := b.(using := b.using[m := Chosen(b.members[m]).value]);
    assert Finish(b, t, m);
    Runs.ReachesSelf(Next, s);
    Runs.ReachesStep(Next, s, s, a);
    Runs.ReachesStep(Next, s, a, b);
    Runs.ReachesStep(Next, s, b, t);
    GrownKept(c, s, a);
    GrownKept(c, a, b);
    GrownKept(c, b, t);
  }

  lemma {:induction false} AllFinish(c: Cluster, s: State, first: Member) returns (t: State)
    requires Grown(c, s) && first in c.generated && c.generated[first].Some?
    ensures Runs.Reaches(Next, s, t) && Grown(c, t) && Unfinished(t) == {}
    decreases |Unfinished(s)|
  {
    if m :| m in Unfinished(s) {
      var u := MemberFinishes(c, s, first, m);
      t := AllFinish(c, u, first);
      Runs.ReachesTrans(Next, s, u, t);
    } else {
      t := s;
      Runs.ReachesSelf(Next, s);
    }
  }

  /** Nobody is left without a CA: in Kubernetes the member without peers has its own from the start, and wherever a
      run has got to, all members can still be brought to finish, all with that one. */
  lemma KubernetesFinishes(peers: map<Member, nat>, newCa: Member -> Ca, first: Member, run: seq<State>)
      returns (longer: seq<State>)
    requires first in peers && peers[first] == 0 && forall m :: m in peers && peers[m] == 0 ==> m == first
    requires IsRunOf(KubernetesCluster(peers, newCa), run)
    ensures first in run[0].members && run[0].members[first].local == Some(newCa(first))
    ensures IsRunOf(KubernetesCluster(peers, newCa), longer) && |longer| >= |run| && longer[..|run|] == run
    ensures var s := longer[|longer| - 1]; forall m :: m in peers ==> m in s.using && s.using[m] == newCa(first)
  {
    var c := KubernetesCluster(peers, newCa);
    GrownHolds(c, run);
    var t := AllFinish(c, run[|run| - 1], first);
    longer := Runs.ExtendRun((s: State) => Init(c, s), Next, run, t);
    forall m | m in peers ensures m in t.using { assert m !in Unfinished(t); }
    KubernetesAgrees(peers, newCa, first, longer);
    assert Grown(c, run[0]);
  }

  ghost predicate Empty(s: State) {
    && (forall m :: m in s.members ==> s.members[m] == Delegate(None, None))
    && (forall f :: f in s.flying ==> f.state.None?) && s.using == map[]
  }

  /** In Kubernetes some run lets all members finish if, and only if, some member found no peers. */
  lemma KubernetesFinishesIff(peers: map<Member, nat>, newCa: Member -> Ca)
    requires peers != map[]
    ensures (exists run: seq<State> ::
               IsRunOf(KubernetesCluster(peers, newCa), run) && peers.Keys <= run[|run| - 1].using.Keys)
            <==> exists m :: m in peers && peers[m] == 0
  {
    var c := KubernetesCluster(peers, newCa);
    if first :| first in peers && peers[first] == 0 {
      var s0 := State(c.peers, map m | m in c.generated :: Delegate(c.generated[m], None), {}, {}, map[]);
      assert IsRunOf(c, [s0]);
      GrownHolds(c, [s0]);
      assert Grown(c, [s0][0]);
      var t := AllFinish(c, s0, first);
      var run := Runs.ExtendRun((s: State) => Init(c, s), Next, [s0], t);
      forall m | m in peers ensures m in t.using { assert m !in Unfinished(t); }
      assert IsRunOf(c, run) && peers.Keys <= run[|run| - 1].using.Keys;
    } else {
      forall run: seq<State> | IsRunOf(c, run) ensures !(peers.Keys <= run[|run| - 1].using.Keys) {
        var init := (s: State) => Init(c, s);
        forall s | init(s) ensures Empty(s) {}
        forall s, t | Empty(s) && Next(s, t) ensures Empty(t) {}
        Runs.InductiveHolds(init, Next, Empty, run);
        assert Empty(run[|run| - 1]);
        var m :| m in peers;
        assert m in peers.Keys && m !in run[|run| - 1].using.Keys;
      }
    }
  }
}
