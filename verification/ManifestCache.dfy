/** The manifest service behind a read-through cache.

    A manifest is cached under "name@digest". Encoding and decoding the cached value, and parsing it again, give back
    the manifest; the distributed cache is one map that may lose entries at any time. */
module ManifestCache {
  import opened Wrappers

  datatype Manifest = Manifest(mediaType: string, payload: string)

  // ----- keys -----

  function CacheKey(name: string, digest: string): string { name + "@" + digest }

  function IndexOfAt(s: string): nat
    ensures IndexOfAt(s) <= |s|
    ensures forall i :: 0 <= i < IndexOfAt(s) ==> s[i] != '@'
    ensures IndexOfAt(s) < |s| ==> s[IndexOfAt(s)] == '@'
  {
    if s == "" then 0 else if s[0] == '@' then 0 else 1 + IndexOfAt(s[1..])
  }

  /** What the getter makes of a key: the parts around the first '@', none of it if nothing follows. */
  function SplitKey(key: string): Option<(string, string)> {
    var i := IndexOfAt(key);
    if i == |key| || i + 1 == |key| then None else Some((key[..i], key[i + 1..]))
  }

  /** In the key of a name without '@' the first '@' is the separator. */
  lemma FirstAt(name: string, digest: string)
    requires '@' !in name
    ensures IndexOfAt(CacheKey(name, digest)) == |name|
  {
    var key := CacheKey(name, digest);
    assert key[|name|] == '@';
    forall k | 0 <= k < |name| ensures key[k] != '@' { assert key[k] == name[k] && name[k] in name; }
  }

  /** Splitting gives back the parts exactly when the name has no '@' and the digest is not empty. */
  lemma SplitInvertsIff(name: string, digest: string)
    ensures SplitKey(CacheKey(name, digest)) == Some((name, digest)) <==> '@' !in name && digest != ""
  {
    var key := CacheKey(name, digest);
    var i := IndexOfAt(key);
    assert key[|name|] == '@';
    if '@' !in name {
      FirstAt(name, digest);
      assert key[..i] == name && key[i + 1..] == digest;
    } else {
      var k :| 0 <= k < |name| && name[k] == '@';
      assert key[k] == '@';
      assert i <= k;
    }
  }

  /** Names without '@' never share a key. */
  lemma SameKey(n1: string, d1: string, n2: string, d2: string)
    requires '@' !in n1 && '@' !in n2 && CacheKey(n1, d1) == CacheKey(n2, d2)
    ensures n1 == n2 && d1 == d2
  {
    FirstAt(n1, d1);
    FirstAt(n2, d2);
    var key := CacheKey(n1, d1);
    assert key[..|n1|] == n1 && key[..|n2|] == n2;
    assert key[|n1| + 1..] == d1 && key[|n2| + 1..] == d2;
  }

  // ----- the service -----

  type Store = map<(string, string), Manifest>

  datatype State = State(store: Store, cache: map<string, Manifest>)

  /** Get runs in the node that holds the sink, or in the peer the cache assigns the key to, which knows only the key.
      Put and Delete say how far they got: the cache's answer to Set and Remove. */
  datatype Op =
    | Get(name: string, digest: string, atPeer: bool)
    | Put(name: string, manifest: Manifest, setOk: bool)
    | Delete(name: string, digest: string, atPeer: bool, removeOk: bool)
    | Evict(keys: set<string>)

  datatype Response = Found(manifest: Manifest) | Unknown | Stored(digest: string) | Deleted(manifest: Manifest)
    | Failed | Nothing

  /** The registry's digest function. */
  type DigestOf = Manifest -> string

  /** Where a miss looks. */
  function Fetch(s: State, name: string, digest: string, atPeer: bool): Option<Manifest> {
    match SplitKey(CacheKey(name, digest))
    case None => None
    case Some((n, d)) =>
      var at := (if atPeer then n else name, d);
      if at in s.store then Some(s.store[at]) else None
  }

  function Read(s: State, name: string, digest: string, atPeer: bool): (State, Option<Manifest>) {
    var key := CacheKey(name, digest);
    if key in s.cache then (s, Some(s.cache[key]))
    else
      match Fetch(s, name, digest, atPeer)
      case None => (s, None)
      case Some(m) => (s.(cache := s.cache[key := m]), Some(m))
  }

  function Exec(digestOf: DigestOf, s: State, op: Op): (State, Response) {
    match op
    case Get(name, digest, atPeer) =>
      var (t, r) := Read(s, name, digest, atPeer);
      (t, if r.Some? then Found(r.value) else Unknown)
    case Put(name, m, setOk) =>
      var t := s.(store := s.store[(name, digestOf(m)) := m]);
      if setOk then (t.(cache := t.cache[CacheKey(name, digestOf(m)) := m]), Stored(digestOf(m))) else (t, Failed)
    case Delete(name, digest, atPeer, removeOk) =>
      var (t, r) := Read(s, name, digest, atPeer);
      if r.None? then (t, Unknown)
      else
        var u := t.(store := t.store - {(name, digest)});
        if removeOk then (u.(cache := u.cache - {CacheKey(name, digest)}), Deleted(r.value)) else (u, Failed)
    case Evict(keys) => (s.(cache := s.cache - keys), Nothing)
  }

  /** The same request to the bare manifest service, which knows of no cache. */
  function ExecPlain(digestOf: DigestOf, store: Store, op: Op): (Store, Response) {
    match op
    case Get(name, digest, _) => (store, if (name, digest) in store then Found(store[(name, digest)]) else Unknown)
    case Put(name, m, _) => (store[(name, digestOf(m)) := m], Stored(digestOf(m)))
    case Delete(name, digest, _, _) =>
      if (name, digest) !in store then (store, Unknown) else (store - {(name, digest)}, Deleted(store[(name, digest)]))
    case Evict(_) => (store, Nothing)
  }

  /** The wrapper around the manifest service, one request at a time. */
  class ManifestServiceWrapper {
    const digestOf: DigestOf
    const name: string
    var store: Store
    var cache: map<string, Manifest>

    ghost function View(): State
      reads this
    {
      State(store, cache)
    }

    constructor (digestOf: DigestOf, name: string)
      ensures this.digestOf == digestOf && this.name == name && View() == State(map[], map[])
    {
      this.digestOf, this.name := digestOf, name;
      store, cache := map[], map[];
    }

    method GetManifest(digest: string, atPeer: bool) returns (r: Option<Manifest>)
      modifies this`cache
      ensures (View(), r) == Read(old(View()), name, digest, atPeer)
      ensures r.Some? ==> name + "@" + digest in cache && cache[name + "@" + digest] == r.value
      ensures old(cache).Keys <= cache.Keys <= old(cache).Keys + {name + "@" + digest}
      ensures forall key :: key in old(cache) ==> cache[key] == old(cache)[key]
    {
      var key := CacheKey(name, digest);
      if key in cache { return Some(cache[key]); }
      var i := IndexOfAt(key);
      if i == |key| || i + 1 == |key| { return None; }
      var at := (if atPeer then key[..i] else name, key[i + 1..]);
      if at !in store { return None; }
      cache := cache[key := store[at]];
      r := Some(store[at]);
    }

    method PutManifest(m: Manifest, setOk: bool) returns (r: Response)
      modifies this
      ensures (View(), r) == Exec(digestOf, old(View()), Put(name, m, setOk))
      ensures store == old(store)[(name, digestOf(m)) := m]
      ensures cache == if setOk then old(cache)[name + "@" + digestOf(m) := m] else old(cache)
    {
      var digest := digestOf(m);
      store := store[(name, digest) := m];
      if !setOk { return Failed; }
      cache := cache[CacheKey(name, digest) := m];
      r := Stored(digest);
    }

    method DeleteManifest(digest: string, atPeer: bool, removeOk: bool) returns (r: Response)
      modifies this
      ensures (View(), r) == Exec(digestOf, old(View()), Delete(name, digest, atPeer, removeOk))
      ensures r.Unknown? ==> store == old(store)
      ensures !r.Unknown? ==> store == old(store) - {(name, digest)}
      ensures r.Deleted? <==> !r.Unknown? && removeOk
      ensures r.Deleted? ==> name + "@" + digest !in cache
    {
      var m := GetManifest(digest, atPeer);
      if m.None? { return Unknown; }
      store := store - {(name, digest)};
      if !removeOk { return Failed; }
      cache := cache - {CacheKey(name, digest)};
      r := Deleted(m.value);
    }
  }

  // ----- coherence -----

  ghost predicate ValidName(name: string) { '@' !in name }

  ghost predicate GoodDigests(digestOf: DigestOf) {
    (forall m :: digestOf(m) != "") && forall a, b :: digestOf(a) == digestOf(b) ==> a == b
  }

  ghost predicate Valid(op: Op) { op.Evict? || ValidName(op.name) }

  /** What the store holds is filed under its digest. */
  ghost predicate Filed(digestOf: DigestOf, store: Store) {
    forall at :: at in store ==> at.1 == digestOf(store[at])
  }

  /** What the cache holds for a manifest is what the store holds. */
  ghost predicate Coherent(s: State) {
    forall name, digest :: ValidName(name) && CacheKey(name, digest) in s.cache ==>
      (name, digest) in s.store && s.store[(name, digest)] == s.cache[CacheKey(name, digest)]
  }

  function Lookup(store: Store, name: string, digest: string): Option<Manifest> {
    if (name, digest) in store then Some(store[(name, digest)]) else None
  }

  /** Through a coherent cache every read gives what the store holds, and leaves the key cached if there is such a
      manifest. */
  lemma ReadIsPlain(digestOf: DigestOf, s: State, name: string, digest: string, atPeer: bool)
    requires GoodDigests(digestOf) && Filed(digestOf, s.store) && Coherent(s) && ValidName(name)
    ensures var (t, r) := Read(s, name, digest, atPeer);
            && t.store == s.store && Coherent(t) && r == Lookup(s.store, name, digest)
            && (r.Some? ==> CacheKey(name, digest) in t.cache)
  {
    var key := CacheKey(name, digest);
    SplitInvertsIff(name, digest);
    if key !in s.cache {
      if digest == "" { EmptyDigest(name); }
      var t := Read(s, name, digest, atPeer).0;
      forall n, d | ValidName(n) && CacheKey(n, d) in t.cache
        ensures (n, d) in t.store && t.store[(n, d)] == t.cache[CacheKey(n, d)]
      {
        if CacheKey(n, d) == key { SameKey(n, d, name, digest); }
      }
    }
  }

  lemma EmptyDigest(name: string)
    requires ValidName(name)
    ensures SplitKey(CacheKey(name, "")) == None
  {
    FirstAt(name, "");
  }

  lemma PutKeeps(digestOf: DigestOf, s: State, name: string, m: Manifest, setOk: bool)
    requires GoodDigests(digestOf) && Filed(digestOf, s.store) && Coherent(s) && ValidName(name)
    ensures var t := Exec(digestOf, s, Put(name, m, setOk)).0; Coherent(t) && Filed(digestOf, t.store)
  {
    var t := Exec(digestOf, s, Put(name, m, setOk)).0;
    forall n, d | ValidName(n) && CacheKey(n, d) in t.cache
      ensures (n, d) in t.store && t.store[(n, d)] == t.cache[CacheKey(n, d)]
    {
      if CacheKey(n, d) == CacheKey(name, digestOf(m)) { SameKey(n, d, name, digestOf(m)); }
    }
  }

  /** A delete leaves the cache coherent exactly when there was nothing to delete or the entry was removed: the read
      that precedes the delete always puts the manifest into the cache. */
  lemma DeleteCoherentIff(digestOf: DigestOf, s: State, name: string, digest: string, atPeer: bool, removeOk: bool)
    requires GoodDigests(digestOf) && Filed(digestOf, s.store) && Coherent(s) && ValidName(name)
    ensures Coherent(Exec(digestOf, s, Delete(name, digest, atPeer, removeOk)).0)
            <==> removeOk || (name, digest) !in s.store
  {
    ReadIsPlain(digestOf, s, name, digest, atPeer);
    var t := Read(s, name, digest, atPeer).0;
    var u := Exec(digestOf, s, Delete(name, digest, atPeer, removeOk)).0;
    if (name, digest) in s.store {
      if removeOk {
        forall n, d | ValidName(n) && CacheKey(n, d) in u.cache
          ensures (n, d) in u.store && u.store[(n, d)] == u.cache[CacheKey(n, d)]
        {
          assert (n, d) in t.store;
          assert (n, d) != (name, digest);
        }
      } else {
        assert CacheKey(name, digest) in u.cache && (name, digest) !in u.store;
      }
    }
  }

  function RunCached(digestOf: DigestOf, ops: seq<Op>): (State, seq<Response>) {
    if ops == [] then (State(map[], map[]), [])
    else
      var (s, rs) := RunCached(digestOf, ops[..|ops| - 1]);
      var (t, r) := Exec(digestOf, s, ops[|ops| - 1]);
      (t, rs + [r])
  }

  function RunPlain(digestOf: DigestOf, ops: seq<Op>): (Store, seq<Response>) {
    if ops == [] then (map[], [])
    else
      var (s, rs) := RunPlain(digestOf, ops[..|ops| - 1]);
      var (t, r) := ExecPlain(digestOf, s, ops[|ops| - 1]);
      (t, rs + [r])
  }

  ghost predicate RemovalsWork(ops: seq<Op>) { forall i :: 0 <= i < |ops| && ops[i].Delete? ==> ops[i].removeOk }

  /** A manifest that is stored but not cached: the caller is told that the request failed. */
  predicate CacheRefuses(op: Op) { op.Put? && !op.setOk }

  lemma ExecIsPlain(digestOf: DigestOf, s: State, op: Op)
    requires GoodDigests(digestOf) && Filed(digestOf, s.store) && Coherent(s) && Valid(op)
             && (op.Delete? ==> op.removeOk)
    ensures var (t, r) := Exec(digestOf, s, op);
            var (plain, answer) := ExecPlain(digestOf, s.store, op);
            && t.store == plain && r == (if CacheRefuses(op) then Failed else answer)
            && Coherent(t) && Filed(digestOf, t.store)
  {
    match op
    case Get(name, digest, atPeer) => ReadIsPlain(digestOf, s, name, digest, atPeer);
    case Put(name, m, setOk) => PutKeeps(digestOf, s, name, m, setOk);
    case Delete(name, digest, atPeer, removeOk) =>
      ReadIsPlain(digestOf, s, name, digest, atPeer);
      DeleteCoherentIff(digestOf, s, name, digest, atPeer, removeOk);
    case Evict(_) =>
  }

  /** Cache coherence: over every serial history of requests on names without '@', with entries lost at any time and
      cache writes failing at will, the store is that of the bare service, and so is every answer but that to a Put
      whose cache write failed: all reads, before and after, see what the bare service would show. */
  lemma {:induction false} CacheIsTransparent(digestOf: DigestOf, ops: seq<Op>)
    requires GoodDigests(digestOf) && RemovalsWork(ops) && forall i :: 0 <= i < |ops| ==> Valid(ops[i])
    ensures |RunCached(digestOf, ops).1| == |RunPlain(digestOf, ops).1| == |ops|
    ensures forall i :: 0 <= i < |ops| ==>
              RunCached(digestOf, ops).1[i] == if CacheRefuses(ops[i]) then Failed else RunPlain(digestOf, ops).1[i]
    ensures RunCached(digestOf, ops).0.store == RunPlain(digestOf, ops).0
    ensures Coherent(RunCached(digestOf, ops).0) && Filed(digestOf, RunPlain(digestOf, ops).0)
  {
    if ops != [] {
      var before := ops[..|ops| - 1];
      CacheIsTransparent(digestOf, before);
      ExecIsPlain(digestOf, RunCached(digestOf, before).0, ops[|ops| - 1]);
    }
  }

  /** When the cache refuses the removal, the next read serves the deleted manifest. */
  lemma FailedRemovalServesDeleted(digestOf: DigestOf, s: State, name: string, digest: string, atPeer: bool)
    requires GoodDigests(digestOf) && Filed(digestOf, s.store) && Coherent(s) && ValidName(name)
             && (name, digest) in s.store
    ensures var t := Exec(digestOf, s, Delete(name, digest, atPeer, false)).0;
            && (name, digest) !in t.store
            && Exec(digestOf, t, Get(name, digest, atPeer)).1 == Found(s.store[(name, digest)])
  {
    ReadIsPlain(digestOf, s, name, digest, atPeer);
  }
}
