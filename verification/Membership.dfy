/** The plugin registry of a Beskar node, driven by gossip events that may come late and in any order. */
module Membership {
  import opened Wrappers
  import opened Rendezvous

  /** What a plugin node answers to /info; `routerOk` is whether its routing rules compile. */
  datatype Info = Info(name: string, version: string, mediaTypes: set<string>, routerOk: bool)

  /** A node, under the name of one of its incarnations, is alive (`info` is missing if it did not answer), or has
      left. */
  datatype GossipEvent =
    | Alive(nodeName: string, hostport: string, hostname: string, info: Option<Info>)
    | Left(nodeName: string, hostport: string, hostname: string)

  datatype Plugin = Plugin(version: string, mediaTypes: set<string>, nodes: seq<Node>)

  datatype NodeInfo = NodeInfo(pluginName: string, nodeName: string)

  datatype Registry = Registry(plugins: map<string, Plugin>, nodesInfo: map<string, NodeInfo>)

  /** murmur3 and the order of semantic versions. */
  datatype Env = Env(hashing: Hashing, older: (string, string) -> bool)

  /** Creates or upgrades the plugin entry; false if the routing rules do not compile. An upgrade is kept even then. */
  function Prepared(env: Env, r: Registry, info: Info): (Registry, bool) {
    if info.name !in r.plugins then
      if info.routerOk then (r.(plugins := r.plugins[info.name := Plugin(info.version, info.mediaTypes, [])]), true)
      else (r, false)
    else
      var pl := r.plugins[info.name];
      if env.older(pl.version, info.version)
      then
        var newer := pl.(version := info.version, mediaTypes := info.mediaTypes);
        (r.(plugins := r.plugins[info.name := newer]), info.routerOk)
      else (r, true)
  }

  /** Whether a registration goes through to the end. */
  predicate Registers(env: Env, r: Registry, e: GossipEvent) {
    e.Alive? && e.info.Some? && Prepared(env, r, e.info.value).1
  }

  /** Records the incarnation and puts its address in the plugin's node list. */
  function WithNode(env: Env, q: Registry, name: string, e: GossipEvent): Registry
    requires name in q.plugins
  {
    var pl := q.plugins[name];
    Registry(q.plugins[name := pl.(nodes := AddNode(env.hashing, pl.nodes, e.hostname, e.hostport))],
             q.nodesInfo[e.hostport := NodeInfo(name, e.nodeName)])
  }

  function Registered(env: Env, r: Registry, e: GossipEvent): Registry
    requires e.Alive?
  {
    if e.info.None? then r
    else
      var (q, ok) := Prepared(env, r, e.info.value);
      if !ok || e.info.value.name !in q.plugins then q
      else WithNode(env, q, e.info.value.name, e)
  }

  /** A missing entry reads as two empty names. */
  function Unregistered(r: Registry, e: GossipEvent): Registry
    requires e.Left?
  {
    var info := if e.hostport in r.nodesInfo then r.nodesInfo[e.hostport] else NodeInfo("", "");
    if info.pluginName in r.plugins && info.nodeName == e.nodeName then
      var pl := r.plugins[info.pluginName];
      Registry(r.plugins[info.pluginName := pl.(nodes := RemoveNode(pl.nodes, e.hostname))], r.nodesInfo - {e.hostport})
    else r
  }

  function Step(env: Env, r: Registry, e: GossipEvent): Registry {
    if e.Alive? then Registered(env, r, e) else Unregistered(r, e)
  }

  function After(env: Env, events: seq<GossipEvent>): Registry {
    if events == [] then Registry(map[], map[])
    else Step(env, After(env, events[..|events| - 1]), events[|events| - 1])
  }

  /** The registry as an object: register and unregister under its mutex. */
  class PluginManager {
    const env: Env
    var plugins: map<string, Plugin>
    var nodesInfo: map<string, NodeInfo>

    function View(): Registry
      reads this
    {
      Registry(plugins, nodesInfo)
    }

    constructor (env: Env)
      ensures this.env == env && View() == After(env, [])
    {
      this.env := env;
      plugins, nodesInfo := map[], map[];
    }

    method Register(e: GossipEvent) returns (ok: bool)
      requires e.Alive?
      modifies this
      ensures ok <==> Registers(env, old(View()), e)
      ensures View() == Step(env, old(View()), e)
    {
      if e.info.None? { return false; }
      var info := e.info.value;
      if info.name !in plugins {
        if !info.routerOk { return false; }
        plugins := plugins[info.name := Plugin(info.version, info.mediaTypes, [])];
      } else if env.older(plugins[info.name].version, info.version) {
        plugins := plugins[info.name := plugins[info.name].(version := info.version, mediaTypes := info.mediaTypes)];
        if !info.routerOk { return false; }
      }
      nodesInfo := nodesInfo[e.hostport := NodeInfo(info.name, e.nodeName)];
      var pl := plugins[info.name];
      plugins := plugins[info.name := pl.(nodes := AddNode(env.hashing, pl.nodes, e.hostname, e.hostport))];
      ok := true;
    }

    method Unregister(e: GossipEvent)
      requires e.Left?
      modifies this
      ensures View() == Step(env, old(View()), e)
    {
      var info := if e.hostport in nodesInfo then nodesInfo[e.hostport] else NodeInfo("", "");
      if info.pluginName in plugins && info.nodeName == e.nodeName {
        var pl := plugins[info.pluginName];
        plugins := plugins[info.pluginName := pl.(nodes := RemoveNode(pl.nodes, e.hostname))];
        nodesInfo := nodesInfo - {e.hostport};
      }
    }
  }

  // ----- what should be routable -----

  /** For each address the incarnation that registered last, unless that very incarnation has left since. */
  function Live(env: Env, events: seq<GossipEvent>): map<string, string> {
    if events == [] then map[]
    else
      var before, e := events[..|events| - 1], events[|events| - 1];
      var live := Live(env, before);
      if Registers(env, After(env, before), e) then live[e.hostport := e.nodeName]
      else if e.Left? && e.hostport in live && live[e.hostport] == e.nodeName then live - {e.hostport}
      else live
  }

  /** Event i is the last registration of the address, under that name, and no leave of that name came after it. */
  ghost predicate StandsFor(env: Env, events: seq<GossipEvent>, port: string, name: string, i: nat) {
    && i < |events| && events[i].hostport == port && events[i].nodeName == name
    && Registers(env, After(env, events[..i]), events[i])
    && forall j :: i < j < |events| && events[j].hostport == port ==>
         && !Registers(env, After(env, events[..j]), events[j])
         && !(events[j].Left? && events[j].nodeName == name)
  }

  lemma StandsForNext(env: Env, events: seq<GossipEvent>, port: string, name: string, i: nat)
    requires i < |events| - 1
    ensures var n := |events| - 1;
            StandsFor(env, events, port, name, i) <==>
            && StandsFor(env, events[..n], port, name, i)
            && (events[n].hostport == port ==>
                  && !Registers(env, After(env, events[..n]), events[n])
                  && !(events[n].Left? && events[n].nodeName == name))
  {
    var n := |events| - 1;
    forall j | 0 <= j < n ensures events[..n][j] == events[j] && events[..n][..j] == events[..j] {}
  }

  /** Live means what it says, in terms of the history alone. */
  lemma {:induction false} LiveMeans(env: Env, events: seq<GossipEvent>, port: string, name: string)
    ensures (port in Live(env, events) && Live(env, events)[port] == name)
            <==> exists i: nat :: StandsFor(env, events, port, name, i)
  {
    if events != [] {
      var n := |events| - 1;
      var before, e := events[..n], events[n];
      LiveMeans(env, before, port, name);
      forall i: nat | i < n ensures StandsFor(env, events, port, name, i) ==> StandsFor(env, before, port, name, i) {
        StandsForNext(env, events, port, name, i);
      }
      if port in Live(env, events) && Live(env, events)[port] == name {
        if Registers(env, After(env, before), e) && e.hostport == port {
          assert StandsFor(env, events, port, name, n);
        } else {
          var i: nat :| StandsFor(env, before, port, name, i);
          StandsForNext(env, events, port, name, i);
        }
      }
      if i: nat :| StandsFor(env, events, port, name, i) {
        if i < n { StandsForNext(env, events, port, name, i); }
      }
    }
  }

  /** The addresses of the world: each has one host name and one plugin. */
  datatype World = World(ports: set<string>, hostnameOf: string -> string, pluginOf: string -> string)

  ghost predicate Conforms(w: World, e: GossipEvent) {
    && e.hostport in w.ports && e.hostname == w.hostnameOf(e.hostport) && e.nodeName != ""
    && (e.Alive? && e.info.Some? ==> e.info.value.name == w.pluginOf(e.hostport))
  }

  ghost predicate AllConform(w: World, events: seq<GossipEvent>) {
    forall i :: 0 <= i < |events| ==> Conforms(w, events[i])
  }

  predicate SharesHostname(w: World, p: string, q: string) {
    w.pluginOf(p) == w.pluginOf(q) && w.hostnameOf(p) == w.hostnameOf(q)
  }

  /** Within one plugin the host name tells the address. */
  ghost predicate HostnamesDistinct(w: World) {
    forall p, q :: p in w.ports && q in w.ports && SharesHostname(w, p, q) ==> p == q
  }

  /** The list holds exactly the live addresses of the plugin, once each. */
  ghost predicate NodesAre(env: Env, w: World, nodes: seq<Node>, live: map<string, string>, name: string) {
    && DistinctHosts(nodes)
    && forall n :: n in nodes <==>
         n.hostport in live && w.pluginOf(n.hostport) == name
         && n == Node(w.hostnameOf(n.hostport), n.hostport, env.hashing.seedOf(w.hostnameOf(n.hostport)))
  }

  /** Every plugin's nodes are exactly its live addresses. */
  ghost predicate RoutesTo(env: Env, w: World, r: Registry, live: map<string, string>) {
    && (forall p :: p in live ==> w.pluginOf(p) in r.plugins)
    && forall name :: name in r.plugins ==> NodesAre(env, w, r.plugins[name].nodes, live, name)
  }

  /** The node table knows exactly the live incarnations. */
  ghost predicate InfoOk(w: World, r: Registry, live: map<string, string>) {
    && live.Keys <= w.ports && r.nodesInfo.Keys == live.Keys
    && forall p :: p in live ==> live[p] != "" && r.nodesInfo[p] == NodeInfo(w.pluginOf(p), live[p])
  }

  ghost predicate Inv(env: Env, w: World, r: Registry, live: map<string, string>) {
    InfoOk(w, r, live) && RoutesTo(env, w, r, live)
  }

  lemma PrepareKeeps(env: Env, w: World, r: Registry, live: map<string, string>, info: Info)
    requires Inv(env, w, r, live)
    ensures Inv(env, w, Prepared(env, r, info).0, live)
    ensures Prepared(env, r, info).1 ==> info.name in Prepared(env, r, info).0.plugins
  {
    var q := Prepared(env, r, info).0;
    forall name | name in q.plugins ensures NodesAre(env, w, q.plugins[name].nodes, live, name) {
      if name in r.plugins { assert NodesAre(env, w, r.plugins[name].nodes, live, name); }
    }
  }

  lemma AddIsLive(env: Env, w: World, nodes: seq<Node>, live: map<string, string>, port: string, nodeName: string)
    requires HostnamesDistinct(w) && live.Keys <= w.ports && port in w.ports
    requires NodesAre(env, w, nodes, live, w.pluginOf(port))
    ensures var more := AddNode(env.hashing, nodes, w.hostnameOf(port), port);
            NodesAre(env, w, more, live[port := nodeName], w.pluginOf(port))
  {
    var n := NewNode(env.hashing, w.hostnameOf(port), port);
    AddKeepsNodes(env.hashing, nodes, n.hostname, port);
    if port in live {
      assert n in nodes;
    } else {
      forall m | m in nodes ensures m.hostname != n.hostname { assert m.hostname == w.hostnameOf(m.hostport); }
    }
  }

  lemma OtherUnmoved(
      env: Env, w: World, nodes: seq<Node>, live: map<string, string>, port: string, nodeName: string, name: string)
    requires NodesAre(env, w, nodes, live, name) && w.pluginOf(port) != name
    ensures NodesAre(env, w, nodes, live[port := nodeName], name) && NodesAre(env, w, nodes, live - {port}, name)
  {
  }

  lemma WithNodeRoutes(env: Env, w: World, q: Registry, live: map<string, string>, e: GossipEvent, other: string)
    requires HostnamesDistinct(w) && Conforms(w, e) && live.Keys <= w.ports && w.pluginOf(e.hostport) in q.plugins
    requires other in q.plugins && NodesAre(env, w, q.plugins[other].nodes, live, other)
    ensures var t := WithNode(env, q, w.pluginOf(e.hostport), e);
            other in t.plugins && NodesAre(env, w, t.plugins[other].nodes, live[e.hostport := e.nodeName], other)
  {
    if other == w.pluginOf(e.hostport) {
      AddIsLive(env, w, q.plugins[other].nodes, live, e.hostport, e.nodeName);
    } else {
      OtherUnmoved(env, w, q.plugins[other].nodes, live, e.hostport, e.nodeName, other);
    }
  }

  lemma WithNodeKeeps(env: Env, w: World, q: Registry, live: map<string, string>, e: GossipEvent)
    requires HostnamesDistinct(w) && Conforms(w, e) && Inv(env, w, q, live) && w.pluginOf(e.hostport) in q.plugins
    ensures Inv(env, w, WithNode(env, q, w.pluginOf(e.hostport), e), live[e.hostport := e.nodeName])
  {
    WithNodeInfo(env, w, q, live, e);
    WithNodeRoutesAll(env, w, q, live, e);
  }

  lemma WithNodeInfo(env: Env, w: World, q: Registry, live: map<string, string>, e: GossipEvent)
    requires Conforms(w, e) && InfoOk(w, q, live) && w.pluginOf(e.hostport) in q.plugins
    ensures InfoOk(w, WithNode(env, q, w.pluginOf(e.hostport), e), live[e.hostport := e.nodeName])
  {
  }

  lemma WithNodeRoutesAll(env: Env, w: World, q: Registry, live: map<string, string>, e: GossipEvent)
    requires HostnamesDistinct(w) && Conforms(w, e) && live.Keys <= w.ports && RoutesTo(env, w, q, live)
    requires w.pluginOf(e.hostport) in q.plugins
    ensures RoutesTo(env, w, WithNode(env, q, w.pluginOf(e.hostport), e), live[e.hostport := e.nodeName])
  {
    forall other | other in q.plugins
      ensures NodesAre(env, w, WithNode(env, q, w.pluginOf(e.hostport), e).plugins[other].nodes,
                       live[e.hostport := e.nodeName], other)
    {
      WithNodeRoutes(env, w, q, live, e, other);
    }
  }

  lemma RegisterKeeps(env: Env, w: World, r: Registry, live: map<string, string>, e: GossipEvent)
    requires HostnamesDistinct(w) && Conforms(w, e) && Registers(env, r, e) && Inv(env, w, r, live)
    ensures Inv(env, w, Registered(env, r, e), live[e.hostport := e.nodeName])
  {
    PrepareKeeps(env, w, r, live, e.info.value);
    WithNodeKeeps(env, w, Prepared(env, r, e.info.value).0, live, e);
  }

  lemma RemoveIsLive(env: Env, w: World, nodes: seq<Node>, live: map<string, string>, port: string)
    requires HostnamesDistinct(w) && live.Keys <= w.ports && port in w.ports
    requires NodesAre(env, w, nodes, live, w.pluginOf(port))
    ensures NodesAre(env, w, RemoveNode(nodes, w.hostnameOf(port)), live - {port}, w.pluginOf(port))
  {
    RemoveKeepsNodes(nodes, w.hostnameOf(port));
    forall n | n in nodes ensures n.hostname == w.hostnameOf(port) <==> n.hostport == port {
      assert n.hostport in live;
    }
  }

  lemma LeaveKeeps(env: Env, w: World, r: Registry, live: map<string, string>, e: GossipEvent)
    requires HostnamesDistinct(w) && Conforms(w, e) && Inv(env, w, r, live)
    requires e.Left? && e.hostport in live && live[e.hostport] == e.nodeName
    ensures Inv(env, w, Unregistered(r, e), live - {e.hostport})
  {
    var name := w.pluginOf(e.hostport);
    var t, live' := Unregistered(r, e), live - {e.hostport};
    forall other | other in t.plugins ensures NodesAre(env, w, t.plugins[other].nodes, live', other) {
      assert NodesAre(env, w, r.plugins[other].nodes, live, other);
      if other == name { RemoveIsLive(env, w, r.plugins[name].nodes, live, e.hostport); }
      else { OtherUnmoved(env, w, r.plugins[other].nodes, live, e.hostport, "", other); }
    }
  }

  /** A leave that is not for the incarnation an address stands for changes nothing at all. */
  lemma StaleLeave(env: Env, w: World, r: Registry, live: map<string, string>, e: GossipEvent)
    requires Conforms(w, e) && Inv(env, w, r, live) && e.Left?
    requires !(e.hostport in live && live[e.hostport] == e.nodeName)
    ensures Unregistered(r, e) == r
  {
  }

  lemma {:induction false} InvHolds(env: Env, w: World, events: seq<GossipEvent>)
    requires HostnamesDistinct(w) && AllConform(w, events)
    ensures Inv(env, w, After(env, events), Live(env, events))
  {
    if events != [] {
      var before, e := events[..|events| - 1], events[|events| - 1];
      InvHolds(env, w, before);
      var r, live := After(env, before), Live(env, before);
      if Registers(env, r, e) {
        RegisterKeeps(env, w, r, live, e);
      } else if e.Alive? {
        if e.info.Some? { PrepareKeeps(env, w, r, live, e.info.value); }
      } else if e.hostport in live && live[e.hostport] == e.nodeName {
        LeaveKeeps(env, w, r, live, e);
      } else {
        StaleLeave(env, w, r, live, e);
      }
    }
  }

  /** Membership refinement: over every order of events, each plugin routes exactly to the live addresses, if and only
      if no two addresses of one plugin share a host name. */
  lemma RefinesIff(env: Env, w: World)
    ensures (forall events :: AllConform(w, events) ==> RoutesTo(env, w, After(env, events), Live(env, events)))
            <==> HostnamesDistinct(w)
  {
    if HostnamesDistinct(w) {
      forall events | AllConform(w, events) ensures RoutesTo(env, w, After(env, events), Live(env, events)) {
        InvHolds(env, w, events);
      }
    } else {
      var p, q :| p in w.ports && q in w.ports && SharesHostname(w, p, q) && p != q;
      var events := SharedHostname(env, w, p, q);
    }
  }

  /** A node that comes back under its host name but a new address is never routed to: the old address stays. */
  lemma SharedHostname(env: Env, w: World, p: string, q: string) returns (events: seq<GossipEvent>)
    requires p in w.ports && q in w.ports && p != q
    requires w.pluginOf(p) == w.pluginOf(q) && w.hostnameOf(p) == w.hostnameOf(q)
    ensures AllConform(w, events) && q in Live(env, events)
    ensures !RoutesTo(env, w, After(env, events), Live(env, events))
  {
    var info := Info(w.pluginOf(p), "v1", {}, true);
    var first := Alive("first", p, w.hostnameOf(p), Some(info));
    var second := Alive("second", q, w.hostnameOf(q), Some(info));
    events := [first, second];
    assert events[..1] == [first] && [first][..0] == [];
    var r1 := Registered(env, Registry(map[], map[]), first);
    assert After(env, []) == Registry(map[], map[]) && After(env, [first]) == r1;
    assert After(env, events) == Registered(env, r1, second);
    SecondIgnored(env, first, second);
    assert Registers(env, r1, second);
    var n2 := NewNode(env.hashing, second.hostname, q);
    assert n2 !in After(env, events).plugins[info.name].nodes;
  }

  lemma FirstRegistered(env: Env, first: GossipEvent)
    requires first.Alive? && first.info.Some? && first.info.value.routerOk
    ensures var r1, info := Registered(env, Registry(map[], map[]), first), first.info.value;
            && info.name in r1.plugins && r1.plugins[info.name].version == info.version
            && NewNode(env.hashing, first.hostname, first.hostport) in r1.plugins[info.name].nodes
            && DistinctHosts(r1.plugins[info.name].nodes)
  {
    AddKeepsNodes(env.hashing, [], first.hostname, first.hostport);
  }

  /** Registering a second address under a host name that is taken adds no node. */
  lemma SecondIgnored(env: Env, first: GossipEvent, second: GossipEvent)
    requires first.Alive? && second.Alive? && first.hostname == second.hostname && first.hostport != second.hostport
    requires first.info.Some? && first.info == second.info && first.info.value.routerOk
    ensures var r1 := Registered(env, Registry(map[], map[]), first);
            var name := first.info.value.name;
            && name in r1.plugins && r1.plugins[name].version == first.info.value.version
            && Registers(env, r1, second) && name in Registered(env, r1, second).plugins
            && var node := NewNode(env.hashing, second.hostname, second.hostport);
            node !in Registered(env, r1, second).plugins[name].nodes
  {
    FirstRegistered(env, first);
    var r1 := Registered(env, Registry(map[], map[]), first);
    SecondAdds(env, r1, second);
    AddKeepsNodes(env.hashing, r1.plugins[first.info.value.name].nodes, second.hostname, second.hostport);
  }

  /** A registration with a known plugin goes through if the rules compile, and adds to the plugin's list. */
  lemma SecondAdds(env: Env, r: Registry, e: GossipEvent)
    requires e.Alive? && e.info.Some? && e.info.value.routerOk && e.info.value.name in r.plugins
    ensures var name, t := e.info.value.name, Registered(env, r, e);
            && Registers(env, r, e) && name in t.plugins
            && t.plugins[name].nodes == AddNode(env.hashing, r.plugins[name].nodes, e.hostname, e.hostport)
  {
  }

  ghost predicate Transitive(older: (string, string) -> bool) {
    forall a, b, c :: older(a, b) && older(b, c) ==> older(a, c)
  }

  lemma VersionStep(env: Env, r: Registry, e: GossipEvent, name: string)
    requires name in r.plugins
    ensures name in Step(env, r, e).plugins
    ensures var v, v' := r.plugins[name].version, Step(env, r, e).plugins[name].version; v' == v || env.older(v, v')
  {
  }

  /** A plugin, once known, stays known, and its version is the same later on or a newer one. */
  lemma {:induction false} VersionNeverDecreases(env: Env, events: seq<GossipEvent>, k: nat, name: string)
    requires k <= |events| && Transitive(env.older) && name in After(env, events[..k]).plugins
    ensures name in After(env, events).plugins
    ensures var v, v' := After(env, events[..k]).plugins[name].version, After(env, events).plugins[name].version;
            v' == v || env.older(v, v')
  {
    if k == |events| {
      assert events[..k] == events;
    } else {
      var before := events[..|events| - 1];
      assert before[..k] == events[..k];
      VersionNeverDecreases(env, before, k, name);
      VersionStep(env, After(env, before), events[|events| - 1], name);
    }
  }

  // ----- versions, in terms of the events alone -----

  /** A registration of the plugin whose node answered. */
  predicate Answers(e: GossipEvent, name: string) { e.Alive? && e.info.Some? && e.info.value.name == name }

  /** Event c is the first answered registration of the plugin whose rules compile. */
  ghost predicate Creates(events: seq<GossipEvent>, name: string, c: nat) {
    && c < |events| && Answers(events[c], name) && events[c].info.value.routerOk
    && forall j :: 0 <= j < c ==> !(Answers(events[j], name) && events[j].info.value.routerOk)
  }

  /** Versions are ordered: what is not newer than one version is not newer than an even newer one. */
  ghost predicate Ordered(older: (string, string) -> bool) {
    && (forall a :: !older(a, a)) && Transitive(older)
    && forall a, b, c :: older(a, c) && !older(a, b) ==> older(b, c)
  }

  /** From event c on, event i is the first answered registration with the newest version. */
  ghost predicate Newest(env: Env, events: seq<GossipEvent>, name: string, c: nat, i: nat) {
    && c <= i < |events| && Answers(events[i], name)
    && (forall j :: c <= j < |events| && Answers(events[j], name) ==>
          !env.older(events[i].info.value.version, events[j].info.value.version))
    && forall j :: c <= j < i && Answers(events[j], name) ==>
         env.older(events[j].info.value.version, events[i].info.value.version)
  }

  lemma CreatesNext(events: seq<GossipEvent>, name: string, c: nat)
    requires c < |events| - 1
    ensures Creates(events, name, c) <==> Creates(events[..|events| - 1], name, c)
  {
    var front := events[..|events| - 1];
    forall j | 0 <= j < |front| ensures front[j] == events[j] {}
  }

  /** The newest so far stays the newest unless the next one is newer. */
  lemma NewestNext(env: Env, events: seq<GossipEvent>, name: string, c: nat, i: nat)
    requires Ordered(env.older) && events != [] && Newest(env, events[..|events| - 1], name, c, i)
    ensures var n := |events| - 1;
            var newer := Answers(events[n], name)
                         && env.older(events[i].info.value.version, events[n].info.value.version);
            Newest(env, events, name, c, if newer then n else i)
  {
    var front, n := events[..|events| - 1], |events| - 1;
    forall j | 0 <= j < n ensures front[j] == events[j] {}
  }

  /** The plugin entry says what event i said. */
  ghost predicate Says(r: Registry, name: string, e: GossipEvent) {
    && name in r.plugins && e.Alive? && e.info.Some?
    && r.plugins[name].version == e.info.value.version && r.plugins[name].mediaTypes == e.info.value.mediaTypes
  }

  lemma StepSays(env: Env, r: Registry, e: GossipEvent, name: string)
    ensures name in Step(env, r, e).plugins <==>
            name in r.plugins || (Answers(e, name) && e.info.value.routerOk)
    ensures name !in r.plugins && Answers(e, name) && e.info.value.routerOk ==> Says(Step(env, r, e), name, e)
    ensures name in r.plugins && Answers(e, name) && env.older(r.plugins[name].version, e.info.value.version) ==>
              Says(Step(env, r, e), name, e)
    ensures name in r.plugins && !(Answers(e, name) && env.older(r.plugins[name].version, e.info.value.version)) ==>
              var was, now := r.plugins[name], Step(env, r, e).plugins[name];
              now.version == was.version && now.mediaTypes == was.mediaTypes
  {
  }

  /** A plugin is known exactly once a registration of it was answered with rules that compile; its version is then the
      newest that any answered registration has carried from that one on, compiling or not, and its media types are
      those of the first registration that carried it. */
  lemma {:induction false} VersionIsNewest(env: Env, events: seq<GossipEvent>, name: string)
    requires Ordered(env.older)
    ensures name in After(env, events).plugins <==> exists c: nat :: Creates(events, name, c)
    ensures forall c: nat :: Creates(events, name, c) ==>
              exists i: nat :: Newest(env, events, name, c, i) && Says(After(env, events), name, events[i])
  {
    if events != [] {
      var n := |events| - 1;
      var front, e, r := events[..n], events[n], After(env, events[..n]);
      VersionIsNewest(env, front, name);
      StepSays(env, r, e, name);
      forall c: nat | c < n ensures Creates(events, name, c) <==> Creates(front, name, c) {
        CreatesNext(events, name, c);
      }
      if c: nat :| Creates(front, name, c) { assert Creates(events, name, c); }
      if name !in r.plugins && Answers(e, name) && e.info.value.routerOk {
        forall j | 0 <= j < n ensures !(Answers(events[j], name) && events[j].info.value.routerOk) {
          NoneBefore(front, name, j);
        }
        assert Creates(events, name, n);
      }
      forall c: nat | Creates(events, name, c)
        ensures exists i: nat :: Newest(env, events, name, c, i) && Says(After(env, events), name, events[i])
      {
        CarrierNext(env, events, name, c);
      }
    }
  }

  /** Some registration that compiled is the first. */
  lemma {:induction false} NoneBefore(events: seq<GossipEvent>, name: string, j: nat)
    requires j < |events| && forall c: nat :: !Creates(events, name, c)
    ensures !(Answers(events[j], name) && events[j].info.value.routerOk)
    decreases j
  {
    forall i | 0 <= i < j ensures !(Answers(events[i], name) && events[i].info.value.routerOk) {
      NoneBefore(events, name, i);
    }
    assert !Creates(events, name, j);
  }

  lemma CarrierNext(env: Env, events: seq<GossipEvent>, name: string, c: nat)
    requires Ordered(env.older) && events != [] && Creates(events, name, c)
    requires var front := events[..|events| - 1];
             && (name in After(env, front).plugins <==> exists c: nat :: Creates(front, name, c))
             && (Creates(front, name, c) ==>
                   exists i: nat :: Newest(env, front, name, c, i) && Says(After(env, front), name, front[i]))
    ensures exists i: nat :: Newest(env, events, name, c, i) && Says(After(env, events), name, events[i])
  {
    var n := |events| - 1;
    var front, e, r := events[..n], events[n], After(env, events[..n]);
    StepSays(env, r, e, name);
    if c == n {
      forall d: nat ensures !Creates(front, name, d) { if d < n { assert front[d] == events[d]; } }
      assert Newest(env, events, name, c, n);
    } else {
      CreatesNext(events, name, c);
      var i: nat :| Newest(env, front, name, c, i) && Says(r, name, front[i]);
      NewestNext(env, events, name, c, i);
      assert front[i] == events[i];
    }
  }

  /** When a registration goes through: the node answers, and its rules compile or the plugin is known and not older. */
  lemma RegistersIff(env: Env, events: seq<GossipEvent>, e: GossipEvent)
    requires Ordered(env.older)
    ensures Registers(env, After(env, events), e) <==>
            && e.Alive? && e.info.Some?
            && (e.info.value.routerOk
                || exists c: nat, i: nat ::
                     && Creates(events, e.info.value.name, c) && Newest(env, events, e.info.value.name, c, i)
                     && !env.older(events[i].info.value.version, e.info.value.version))
  {
    if e.Alive? && e.info.Some? {
      var name, r := e.info.value.name, After(env, events);
      VersionIsNewest(env, events, name);
      forall c: nat, i: nat | Creates(events, name, c) && Newest(env, events, name, c, i)
        ensures Says(r, name, events[i])
      {
        var k: nat :| Newest(env, events, name, c, k) && Says(r, name, events[k]);
        assert i == k;
      }
      if name in r.plugins {
        var c: nat :| Creates(events, name, c);
        var i: nat :| Newest(env, events, name, c, i) && Says(r, name, events[i]);
      }
    }
  }
}
