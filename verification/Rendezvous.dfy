/** Highest-random-weight hashing over a list of nodes kept sorted by seed. */
module Rendezvous {
  import opened Wrappers

  /** murmur3: the seed of a host name, and the hash of a key under a seed. Nothing is assumed of either. */
  datatype Hashing = Hashing(seedOf: string -> nat, weigh: (nat, string) -> nat)

  datatype Node = Node(hostname: string, hostport: string, seed: nat)

  function NewNode(h: Hashing, hostname: string, hostport: string): Node {
    Node(hostname, hostport, h.seedOf(hostname))
  }

  function Weight(h: Hashing, n: Node, key: string): nat { h.weigh(n.seed, key) }

  // ----- stable sort by seed -----

  ghost predicate Sorted(nodes: seq<Node>) {
    forall i, j :: 0 <= i < j < |nodes| ==> nodes[i].seed <= nodes[j].seed
  }

  /** Inserts behind every node with the same seed. */
  function Insert(nodes: seq<Node>, n: Node): seq<Node> {
    if nodes == [] || nodes[|nodes| - 1].seed <= n.seed then nodes + [n]
    else Insert(nodes[..|nodes| - 1], n) + [nodes[|nodes| - 1]]
  }

  function StableSort(nodes: seq<Node>): seq<Node> {
    if nodes == [] then [] else Insert(StableSort(nodes[..|nodes| - 1]), nodes[|nodes| - 1])
  }

  lemma {:induction false} InsertKeeps(nodes: seq<Node>, n: Node)
    ensures multiset(Insert(nodes, n)) == multiset(nodes) + multiset{n}
  {
    if nodes != [] && nodes[|nodes| - 1].seed > n.seed {
      InsertKeeps(nodes[..|nodes| - 1], n);
      assert nodes == nodes[..|nodes| - 1] + [nodes[|nodes| - 1]];
    }
  }

  lemma {:induction false} InsertSorts(nodes: seq<Node>, n: Node)
    requires Sorted(nodes)
    ensures Sorted(Insert(nodes, n))
  {
    if nodes != [] && nodes[|nodes| - 1].seed > n.seed {
      var front, last := nodes[..|nodes| - 1], nodes[|nodes| - 1];
      InsertSorts(front, n);
      InsertKeeps(front, n);
      var r := Insert(front, n);
      forall i | 0 <= i < |r| ensures r[i].seed <= last.seed {
        assert r[i] in multiset(r);
        assert r[i] in front || r[i] == n;
      }
    }
  }

  lemma {:induction false} SortPermutes(nodes: seq<Node>)
    ensures multiset(StableSort(nodes)) == multiset(nodes)
  {
    if nodes != [] {
      var front, last := nodes[..|nodes| - 1], nodes[|nodes| - 1];
      SortPermutes(front);
      InsertKeeps(StableSort(front), last);
      assert nodes == front + [last];
    }
  }

  lemma {:induction false} SortSorts(nodes: seq<Node>)
    ensures Sorted(StableSort(nodes)) && multiset(StableSort(nodes)) == multiset(nodes)
  {
    SortPermutes(nodes);
    if nodes != [] {
      SortSorts(nodes[..|nodes| - 1]);
      InsertSorts(StableSort(nodes[..|nodes| - 1]), nodes[|nodes| - 1]);
    }
  }

  ghost predicate StrictlySorted(nodes: seq<Node>) {
    forall i, j :: 0 <= i < j < |nodes| ==> nodes[i].seed < nodes[j].seed
  }

  /** Two strictly sorted lists of the same nodes end in the same node. */
  lemma SameLast(a: seq<Node>, b: seq<Node>)
    requires StrictlySorted(a) && StrictlySorted(b) && a != [] && b != []
    requires forall n :: n in a <==> n in b
    ensures a[|a| - 1] == b[|b| - 1]
  {
    var x, y := a[|a| - 1], b[|b| - 1];
    assert x in a && y in b;
    var i :| 0 <= i < |b| && b[i] == x;
    var j :| 0 <= j < |a| && a[j] == y;
    assert i < |b| - 1 ==> x.seed < y.seed;
    assert j < |a| - 1 ==> y.seed < x.seed;
  }

  lemma SameEmptiness(a: seq<Node>, b: seq<Node>)
    requires forall n :: n in a <==> n in b
    ensures a == [] <==> b == []
  {
    if a != [] { assert a[0] in a; }
    if b != [] { assert b[0] in b; }
  }

  lemma FrontNodes(a: seq<Node>, n: Node)
    requires StrictlySorted(a) && a != []
    ensures n in a[..|a| - 1] <==> n in a && n != a[|a| - 1]
  {
    assert a == a[..|a| - 1] + [a[|a| - 1]];
    if n in a[..|a| - 1] {
      var i :| 0 <= i < |a| - 1 && a[i] == n;
      assert a[i].seed < a[|a| - 1].seed;
    }
  }

  /** A set of nodes with distinct seeds has one sorted list. */
  lemma {:induction false} SortedUnique(a: seq<Node>, b: seq<Node>)
    requires StrictlySorted(a) && StrictlySorted(b)
    requires forall n :: n in a <==> n in b
    ensures a == b
  {
    SameEmptiness(a, b);
    if a != [] {
      var a', b' := a[..|a| - 1], b[..|b| - 1];
      SameLast(a, b);
      forall n ensures n in a' <==> n in b' {
        FrontNodes(a, n);
        FrontNodes(b, n);
      }
      SortedUnique(a', b');
      assert a == a' + [a[|a| - 1]] && b == b' + [b[|b| - 1]];
    }
  }

  // ----- the operations on values -----

  function IndexOf(nodes: seq<Node>, hostname: string): nat
    ensures IndexOf(nodes, hostname) <= |nodes|
    ensures forall i :: 0 <= i < IndexOf(nodes, hostname) ==> nodes[i].hostname != hostname
    ensures IndexOf(nodes, hostname) < |nodes| ==> nodes[IndexOf(nodes, hostname)].hostname == hostname
  {
    if nodes == [] then 0
    else if nodes[0].hostname == hostname then 0
    else 1 + IndexOf(nodes[1..], hostname)
  }

  /** Put if the host name is absent. */
  function AddNode(h: Hashing, nodes: seq<Node>, hostname: string, hostport: string): seq<Node> {
    if IndexOf(nodes, hostname) < |nodes| then nodes
    else StableSort(nodes + [NewNode(h, hostname, hostport)])
  }

  /** The last node takes the removed one's place, the list is cut by one and sorted again. */
  function RemoveNode(nodes: seq<Node>, hostname: string): seq<Node> {
    var i := IndexOf(nodes, hostname);
    if i == |nodes| then nodes
    else StableSort(nodes[i := nodes[|nodes| - 1]][..|nodes| - 1])
  }

  /** The first node with the largest weight above zero. */
  function Owner(h: Hashing, nodes: seq<Node>, key: string): Option<Node> {
    if nodes == [] then None
    else
      var best := Owner(h, nodes[..|nodes| - 1], key);
      var n := nodes[|nodes| - 1];
      if Weight(h, n, key) > (if best.Some? then Weight(h, best.value, key) else 0) then Some(n) else best
  }

  class NodeHash {
    const h: Hashing
    var nodes: seq<Node>

    constructor (h: Hashing)
      ensures this.h == h && nodes == []
    {
      this.h := h;
      nodes := [];
    }

    method Add(hostname: string, hostport: string)
      modifies this
      ensures nodes == AddNode(h, old(nodes), hostname, hostport)
    {
      for i := 0 to |nodes|
        invariant nodes == old(nodes)
        invariant forall j :: 0 <= j < i ==> nodes[j].hostname != hostname
      {
        if nodes[i].hostname == hostname {
          return;
        }
      }
      nodes := nodes + [NewNode(h, hostname, hostport)];
      nodes := StableSort(nodes);
    }

    method Remove(hostname: string)
      modifies this
      ensures nodes == RemoveNode(old(nodes), hostname)
    {
      var found, index := false, 0;
      for i := 0 to |nodes|
        invariant nodes == old(nodes)
        invariant !found ==> forall j :: 0 <= j < i ==> nodes[j].hostname != hostname
        invariant found ==> index < |nodes| && index == IndexOf(nodes, hostname)
      {
        if !found && nodes[i].hostname == hostname {
          found, index := true, i;
          break;
        }
      }
      if !found {
        return;
      }
      nodes := nodes[index := nodes[|nodes| - 1]];
      nodes := nodes[..|nodes| - 1];
      nodes := StableSort(nodes);
    }

    method Get(key: string) returns (node: Option<Node>)
      ensures node == Owner(h, nodes, key)
      ensures node.None? <==> forall n :: n in nodes ==> h.weigh(n.seed, key) == 0
      ensures node.Some? ==>
                && node.value in nodes && h.weigh(node.value.seed, key) > 0
                && forall n :: n in nodes ==> h.weigh(n.seed, key) <= h.weigh(node.value.seed, key)
    {
      node := None;
      var maxHash := 0;
      for i := 0 to |nodes|
        invariant node == Owner(h, nodes[..i], key)
        invariant maxHash == if node.Some? then h.weigh(node.value.seed, key) else 0
        invariant node.Some? ==> node.value in nodes && maxHash > 0
        invariant forall j :: 0 <= j < i ==> h.weigh(nodes[j].seed, key) <= maxHash
      {
        assert nodes[..i + 1][..i] == nodes[..i];
        var hash := Weight(h, nodes[i], key);
        if hash > maxHash {
          maxHash := hash;
          node := Some(nodes[i]);
        }
      }
      assert nodes[..|nodes|] == nodes;
    }
  }

  // ----- histories -----

  datatype Op = Join(hostname: string, hostport: string) | Part(hostname: string)

  function Nodes(h: Hashing, ops: seq<Op>): seq<Node> {
    if ops == [] then []
    else
      var before := Nodes(h, ops[..|ops| - 1]);
      match ops[|ops| - 1]
      case Join(hostname, hostport) => AddNode(h, before, hostname, hostport)
      case Part(hostname) => RemoveNode(before, hostname)
  }

  /** The membership the same history stands for. */
  function Members(ops: seq<Op>): map<string, string> {
    if ops == [] then map[]
    else
      var before := Members(ops[..|ops| - 1]);
      match ops[|ops| - 1]
      case Join(hostname, hostport) => if hostname in before then before else before[hostname := hostport]
      case Part(hostname) => before - {hostname}
  }

  ghost predicate Over(ops: seq<Op>, hosts: set<string>) { forall i :: 0 <= i < |ops| ==> ops[i].hostname in hosts }

  ghost predicate SeedsDistinct(h: Hashing, hosts: set<string>) {
    forall a, b :: a in hosts && b in hosts && h.seedOf(a) == h.seedOf(b) ==> a == b
  }

  /** The list holds each member once, in seed order. */
  ghost predicate Represents(h: Hashing, nodes: seq<Node>, members: map<string, string>) {
    && StrictlySorted(nodes)
    && forall n :: n in nodes <==>
         n.hostname in members && n == Node(n.hostname, members[n.hostname], h.seedOf(n.hostname))
  }

  ghost predicate NoRepeats(nodes: seq<Node>) {
    forall n :: multiset(nodes)[n] <= 1
  }

  lemma {:induction false} DistinctHasNoRepeats(nodes: seq<Node>)
    requires forall i, j :: 0 <= i < j < |nodes| ==> nodes[i] != nodes[j]
    ensures NoRepeats(nodes)
  {
    if nodes != [] {
      var front := nodes[..|nodes| - 1];
      DistinctHasNoRepeats(front);
      assert nodes == front + [nodes[|nodes| - 1]];
      assert nodes[|nodes| - 1] !in front;
    }
  }

  lemma {:induction false} NoRepeatsIsDistinct(nodes: seq<Node>, i: nat, j: nat)
    requires NoRepeats(nodes) && i < j < |nodes|
    ensures nodes[i] != nodes[j]
  {
    var a, b := nodes[..j], nodes[j..];
    assert nodes == a + b && nodes[i] in a && nodes[j] in b by { assert a[i] == nodes[i] && b[0] == nodes[j]; }
    assert multiset(nodes) == multiset(a) + multiset(b);
    assert multiset(nodes)[nodes[i]] <= 1;
    assert nodes[i] in multiset(a) && nodes[j] in multiset(b);
  }

  /** No two entries of the list have the same host name. */
  ghost predicate DistinctHosts(nodes: seq<Node>) {
    forall i, j :: 0 <= i < j < |nodes| ==> nodes[i].hostname != nodes[j].hostname
  }

  lemma SortKeepsNodes(nodes: seq<Node>)
    requires DistinctHosts(nodes)
    ensures Sorted(StableSort(nodes)) && DistinctHosts(StableSort(nodes))
    ensures forall n :: n in StableSort(nodes) <==> n in nodes
  {
    SortSorts(nodes);
    var r := StableSort(nodes);
    forall n ensures n in r <==> n in nodes { assert n in multiset(r) <==> n in multiset(nodes); }
    DistinctHasNoRepeats(nodes);
    forall i, j | 0 <= i < j < |r| ensures r[i].hostname != r[j].hostname {
      NoRepeatsIsDistinct(r, i, j);
      assert r[i] in nodes && r[j] in nodes;
    }
  }

  /** What Add does to the nodes of any list, whatever the seeds. */
  lemma AddKeepsNodes(h: Hashing, nodes: seq<Node>, a: string, p: string)
    requires DistinctHosts(nodes)
    ensures DistinctHosts(AddNode(h, nodes, a, p)) && (Sorted(nodes) ==> Sorted(AddNode(h, nodes, a, p)))
    ensures forall n :: n in AddNode(h, nodes, a, p) <==>
              n in nodes || ((forall m :: m in nodes ==> m.hostname != a) && n == NewNode(h, a, p))
  {
    var i := IndexOf(nodes, a);
    if i < |nodes| {
      assert nodes[i] in nodes;
    } else {
      var more := nodes + [NewNode(h, a, p)];
      assert forall n :: n in more <==> n in nodes || n == NewNode(h, a, p);
      SortKeepsNodes(more);
    }
  }

  /** What Remove does: the node with that host name is gone, and nothing else. */
  lemma RemoveKeepsNodes(nodes: seq<Node>, a: string)
    requires DistinctHosts(nodes)
    ensures DistinctHosts(RemoveNode(nodes, a)) && (Sorted(nodes) ==> Sorted(RemoveNode(nodes, a)))
    ensures forall n :: n in RemoveNode(nodes, a) <==> n in nodes && n.hostname != a
  {
    var i := IndexOf(nodes, a);
    if i < |nodes| {
      SwapOut(nodes, i);
      SortKeepsNodes(nodes[i := nodes[|nodes| - 1]][..|nodes| - 1]);
    }
  }

  /** Overwriting one element with the last and cutting the end takes out exactly that element. */
  lemma SwapOut(nodes: seq<Node>, i: nat)
    requires i < |nodes| && DistinctHosts(nodes)
    ensures var cut := nodes[i := nodes[|nodes| - 1]][..|nodes| - 1];
            DistinctHosts(cut) && forall n :: n in cut <==> n in nodes && n.hostname != nodes[i].hostname
  {
    var last := |nodes| - 1;
    var cut := nodes[i := nodes[last]][..last];
    forall n | n in nodes && n.hostname != nodes[i].hostname ensures n in cut {
      var k :| 0 <= k < |nodes| && nodes[k] == n;
      assert cut[if k == last then i else k] == n;
    }
  }

  lemma StrictIffDistinct(h: Hashing, nodes: seq<Node>, members: map<string, string>, hosts: set<string>)
    requires SeedsDistinct(h, hosts) && members.Keys <= hosts && Sorted(nodes)
    requires forall n :: n in nodes <==> n.hostname in members && n == NewNode(h, n.hostname, members[n.hostname])
    ensures StrictlySorted(nodes) <==> DistinctHosts(nodes)
  {
    forall i, j | 0 <= i < j < |nodes|
      ensures nodes[i].seed < nodes[j].seed <==> nodes[i].hostname != nodes[j].hostname
    {
      assert nodes[i] in nodes && nodes[j] in nodes;
    }
  }

  lemma AddRepresents(
      h: Hashing, nodes: seq<Node>, members: map<string, string>, hosts: set<string>, a: string, p: string)
    requires SeedsDistinct(h, hosts) && members.Keys <= hosts && a in hosts && Represents(h, nodes, members)
    ensures Represents(h, AddNode(h, nodes, a, p), if a in members then members else members[a := p])
  {
    StrictIffDistinct(h, nodes, members, hosts);
    AddKeepsNodes(h, nodes, a, p);
    if a in members { assert NewNode(h, a, members[a]) in nodes; }
    StrictIffDistinct(h, AddNode(h, nodes, a, p), if a in members then members else members[a := p], hosts);
  }

  lemma RemoveRepresents(h: Hashing, nodes: seq<Node>, members: map<string, string>, hosts: set<string>, a: string)
    requires SeedsDistinct(h, hosts) && members.Keys <= hosts && Represents(h, nodes, members)
    ensures Represents(h, RemoveNode(nodes, a), members - {a})
  {
    StrictIffDistinct(h, nodes, members, hosts);
    RemoveKeepsNodes(nodes, a);
    StrictIffDistinct(h, RemoveNode(nodes, a), members - {a}, hosts);
  }

  lemma {:induction false} HistoryRepresents(h: Hashing, ops: seq<Op>, hosts: set<string>)
    requires SeedsDistinct(h, hosts) && Over(ops, hosts)
    ensures Represents(h, Nodes(h, ops), Members(ops)) && Members(ops).Keys <= hosts
  {
    if ops != [] {
      var before := ops[..|ops| - 1];
      HistoryRepresents(h, before, hosts);
      match ops[|ops| - 1]
      case Join(a, p) => AddRepresents(h, Nodes(h, before), Members(before), hosts, a, p);
      case Part(a) => RemoveRepresents(h, Nodes(h, before), Members(before), hosts, a);
    }
  }

  ghost predicate HistoryIndependent(h: Hashing, hosts: set<string>) {
    forall ops1, ops2 :: Over(ops1, hosts) && Over(ops2, hosts) && Members(ops1) == Members(ops2)
      ==> Nodes(h, ops1) == Nodes(h, ops2)
  }

  /** History independence: over a given set of hosts, any two histories that lead to the same membership lead to the
      same list, and so to the same owner of every key, if and only if no two of the hosts have the same seed. */
  lemma HistoryIndependentIff(h: Hashing, hosts: set<string>)
    ensures HistoryIndependent(h, hosts) <==> SeedsDistinct(h, hosts)
  {
    if SeedsDistinct(h, hosts) {
      forall ops1, ops2 | Over(ops1, hosts) && Over(ops2, hosts) && Members(ops1) == Members(ops2)
        ensures Nodes(h, ops1) == Nodes(h, ops2)
      {
        HistoryRepresents(h, ops1, hosts);
        HistoryRepresents(h, ops2, hosts);
        SortedUnique(Nodes(h, ops1), Nodes(h, ops2));
      }
    } else {
      var a, b :| a in hosts && b in hosts && h.seedOf(a) == h.seedOf(b) && a != b;
      OrderShows(h, a, b);
    }
  }

  /** Two hosts with one seed stay in the order in which they joined. */
  lemma OrderShows(h: Hashing, a: string, b: string)
    requires h.seedOf(a) == h.seedOf(b) && a != b
    ensures Members([Join(a, ""), Join(b, "")]) == Members([Join(b, ""), Join(a, "")])
    ensures Nodes(h, [Join(a, ""), Join(b, "")]) != Nodes(h, [Join(b, ""), Join(a, "")])
  {
    JoinTwice(h, a, b);
    JoinTwice(h, b, a);
    assert map[a := "", b := ""] == map[b := "", a := ""];
  }

  lemma SortTwo(x: Node, y: Node)
    requires x.seed == y.seed
    ensures StableSort([x]) == [x] && StableSort([x, y]) == [x, y]
  {
    assert [x][..0] == [] && [x, y][..1] == [x];
    assert [] + [x] == [x] && [x] + [y] == [x, y];
    assert Insert([], x) == [x];
    assert StableSort([x]) == Insert(StableSort([]), x);
    assert StableSort([x, y]) == Insert(StableSort([x]), y);
  }

  lemma JoinTwice(h: Hashing, a: string, b: string)
    requires h.seedOf(a) == h.seedOf(b) && a != b
    ensures Nodes(h, [Join(a, ""), Join(b, "")]) == [NewNode(h, a, ""), NewNode(h, b, "")]
    ensures Members([Join(a, ""), Join(b, "")]) == map[a := "", b := ""]
  {
    var o1, o2 := [Join(a, "")], [Join(a, ""), Join(b, "")];
    assert o1[..0] == [] && o2[..1] == o1;
    var x, y := NewNode(h, a, ""), NewNode(h, b, "");
    SortTwo(x, y);
    assert [] + [x] == [x] && [x] + [y] == [x, y];
    assert Nodes(h, o1) == AddNode(h, [], a, "") == [x];
    assert [x][1..] == [] && IndexOf([x], b) == 1;
    assert Nodes(h, o2) == AddNode(h, [x], b, "");
    assert Members(o1) == map[a := ""];
  }

  // ----- who owns a key -----

  /** The largest hash of the key above zero, ties to the lowest seed. */
  ghost predicate IsOwner(h: Hashing, nodes: seq<Node>, key: string, r: Option<Node>) {
    match r
    case None => forall m :: m in nodes ==> h.weigh(m.seed, key) == 0
    case Some(n) =>
      && n in nodes && h.weigh(n.seed, key) > 0
      && forall m :: m in nodes ==>
           || h.weigh(m.seed, key) < h.weigh(n.seed, key)
           || (h.weigh(m.seed, key) == h.weigh(n.seed, key) && n.seed <= m.seed)
  }

  lemma {:induction false} OwnerIsOwner(h: Hashing, nodes: seq<Node>, key: string)
    requires StrictlySorted(nodes)
    ensures IsOwner(h, nodes, key, Owner(h, nodes, key))
  {
    if nodes != [] {
      var front, last := nodes[..|nodes| - 1], nodes[|nodes| - 1];
      OwnerIsOwner(h, front, key);
      assert forall m :: m in nodes <==> m in front || m == last;
      assert forall m :: m in front ==> m.seed < last.seed;
    }
  }

  /** Get, in terms of the membership alone: over every history of hosts with distinct seeds, a key goes to the member
      whose seed hashes it highest above zero, ties to the lowest seed, at that member's address; and nowhere exactly
      if all hash it to zero. */
  lemma GetMeans(h: Hashing, ops: seq<Op>, hosts: set<string>, key: string)
    requires SeedsDistinct(h, hosts) && Over(ops, hosts)
    ensures var r, members := Owner(h, Nodes(h, ops), key), Members(ops);
            && (r.None? <==> forall m :: m in members ==> h.weigh(h.seedOf(m), key) == 0)
            && (r.Some? ==>
                  && r.value.hostname in members && r.value.hostport == members[r.value.hostname]
                  && var best := h.weigh(h.seedOf(r.value.hostname), key);
                  && best > 0
                  && forall m :: m in members ==>
                       || h.weigh(h.seedOf(m), key) < best
                       || (h.weigh(h.seedOf(m), key) == best && h.seedOf(r.value.hostname) <= h.seedOf(m)))
  {
    var nodes, members := Nodes(h, ops), Members(ops);
    HistoryRepresents(h, ops, hosts);
    OwnerIsOwner(h, nodes, key);
    forall m | m in members ensures Node(m, members[m], h.seedOf(m)) in nodes {}
    var r := Owner(h, nodes, key);
    if r.None? {
      forall m | m in members ensures h.weigh(h.seedOf(m), key) == 0 {
        assert Node(m, members[m], h.seedOf(m)) in nodes;
      }
    } else {
      forall m | m in members
        ensures || h.weigh(h.seedOf(m), key) < h.weigh(r.value.seed, key)
                || (h.weigh(h.seedOf(m), key) == h.weigh(r.value.seed, key) && r.value.seed <= h.seedOf(m))
      {
        assert Node(m, members[m], h.seedOf(m)) in nodes;
      }
    }
  }

  lemma OwnerUnique(h: Hashing, nodes: seq<Node>, key: string, r: Option<Node>, q: Option<Node>)
    requires StrictlySorted(nodes) && IsOwner(h, nodes, key, r) && IsOwner(h, nodes, key, q)
    ensures r == q
  {
    if r.Some? && q.Some? {
      assert r.value.seed == q.value.seed;
      var i :| 0 <= i < |nodes| && nodes[i] == r.value;
      var j :| 0 <= j < |nodes| && nodes[j] == q.value;
    }
  }

  lemma OwnerAfterRemove(h: Hashing, before: seq<Node>, after: seq<Node>, a: string, key: string)
    requires StrictlySorted(before) && StrictlySorted(after)
    requires forall n :: n in after <==> n in before && n.hostname != a
    requires Owner(h, before, key).Some? ==> Owner(h, before, key).value.hostname != a
    ensures Owner(h, after, key) == Owner(h, before, key)
  {
    OwnerIsOwner(h, before, key);
    OwnerIsOwner(h, after, key);
    OwnerUnique(h, after, key, Owner(h, before, key), Owner(h, after, key));
  }

  lemma OwnerAfterAdd(h: Hashing, before: seq<Node>, after: seq<Node>, n: Node, key: string)
    requires StrictlySorted(before) && StrictlySorted(after)
    requires forall m :: m in after <==> m in before || m == n
    ensures Owner(h, after, key) == Owner(h, before, key) || Owner(h, after, key) == Some(n)
  {
    OwnerIsOwner(h, before, key);
    OwnerIsOwner(h, after, key);
    var r := Owner(h, after, key);
    if r != Some(n) {
      assert IsOwner(h, before, key, r);
      OwnerUnique(h, before, key, r, Owner(h, before, key));
    }
  }

  lemma RepresentedLess(h: Hashing, before: seq<Node>, after: seq<Node>, members: map<string, string>, a: string)
    requires Represents(h, before, members) && Represents(h, after, members - {a})
    ensures forall n :: n in after <==> n in before && n.hostname != a
  {
  }

  lemma RepresentedMore(
      h: Hashing, before: seq<Node>, after: seq<Node>, members: map<string, string>, a: string, p: string)
    requires Represents(h, before, members) && a !in members && Represents(h, after, members[a := p])
    ensures forall n :: n in after <==> n in before || n == NewNode(h, a, p)
  {
  }

  /** Minimal disruption on departure: in every reachable list, a key changes its owner only if it was owned by the node
      that left. */
  lemma RemoveDisturbsOwnKeysOnly(h: Hashing, ops: seq<Op>, hosts: set<string>, a: string, key: string)
    requires SeedsDistinct(h, hosts) && Over(ops, hosts) && a in hosts
    ensures var before, after := Owner(h, Nodes(h, ops), key), Owner(h, Nodes(h, ops + [Part(a)]), key);
            (before.Some? ==> before.value.hostname != a) ==> after == before
  {
    var before, after := Nodes(h, ops), Nodes(h, ops + [Part(a)]);
    assert (ops + [Part(a)])[..|ops|] == ops;
    HistoryRepresents(h, ops, hosts);
    HistoryRepresents(h, ops + [Part(a)], hosts);
    RepresentedLess(h, before, after, Members(ops), a);
    var r := Owner(h, before, key);
    if r.Some? ==> r.value.hostname != a { OwnerAfterRemove(h, before, after, a, key); }
  }

  /** Minimal disruption on arrival: a key keeps its owner or goes to the new node. */
  lemma AddTakesOrLeaves(h: Hashing, ops: seq<Op>, hosts: set<string>, a: string, p: string, key: string)
    requires SeedsDistinct(h, hosts) && Over(ops, hosts) && a in hosts
    ensures var before, after := Owner(h, Nodes(h, ops), key), Owner(h, Nodes(h, ops + [Join(a, p)]), key);
            after == before || (a !in Members(ops) && after == Some(NewNode(h, a, p)))
  {
    var before, after := Nodes(h, ops), Nodes(h, ops + [Join(a, p)]);
    assert (ops + [Join(a, p)])[..|ops|] == ops;
    HistoryRepresents(h, ops, hosts);
    HistoryRepresents(h, ops + [Join(a, p)], hosts);
    if a in Members(ops) {
      assert Members(ops + [Join(a, p)]) == Members(ops);
      SortedUnique(before, after);
    } else {
      RepresentedMore(h, before, after, Members(ops), a, p);
      OwnerAfterAdd(h, before, after, NewNode(h, a, p), key);
    }
  }
}
