/** Assembly of an OCI image from layers, some of which are streams whose digest is known only once they are closed.

    A stream layer is an object the caller goes on reading and closing; here it is a number into `streams`. A stream
    that is added waits in `pending` until Digest finds it closed and moves it to the manifest. */
module OciImage {
  import opened Wrappers

  type Bytes = seq<nat>

  /** `hex` is empty until Close computes it from what was read so far; `sealed` is what had been read at that
      moment. */
  datatype Stream = Stream(mediaType: string, data: Bytes, hex: string, sealed: Bytes)

  /** A file layer knows its digest and size, or fails to compute them. */
  datatype Layer = FileLayer(mediaType: string, content: Option<(string, nat)>) | StreamLayer(id: nat)

  datatype Descriptor = Descriptor(mediaType: string, size: nat, digest: string)

  /** `placed` names the layer behind each manifest entry, `added` all layers AddLayer accepted. */
  datatype Image = Image(
    streams: map<nat, Stream>, pending: seq<nat>, layers: map<string, Layer>,
    manifest: seq<Descriptor>, placed: seq<Layer>, added: seq<Layer>)

  const NEW_IMAGE := Image(map[], [], map[], [], [], [])

  function Describe(st: Stream): Descriptor { Descriptor(st.mediaType, |st.data|, st.hex) }

  function IsClosed(streams: map<nat, Stream>, id: nat): bool { id in streams && streams[id].hex != "" }

  function Placed(img: Image, layer: Layer, d: Descriptor): Image {
    img.(layers := img.layers[d.digest := layer], manifest := img.manifest + [d], placed := img.placed + [layer])
  }

  function PlacedStream(img: Image, id: nat): Image {
    if id in img.streams then Placed(img, StreamLayer(id), Describe(img.streams[id])) else img
  }

  /** The pending streams that stay, in their order. */
  function Kept(streams: map<nat, Stream>, ids: seq<nat>): seq<nat> {
    if ids == [] then []
    else (if IsClosed(streams, ids[0]) then [] else [ids[0]]) + Kept(streams, ids[1..])
  }

  /** The image after the pending streams in `ids` were visited, last first. */
  function DrainedFrom(img: Image, ids: seq<nat>): Image {
    if ids == [] then img
    else
      var later := DrainedFrom(img, ids[1..]);
      if IsClosed(img.streams, ids[0]) then PlacedStream(later, ids[0]) else later
  }

  function Drained(img: Image): Image {
    DrainedFrom(img, img.pending).(pending := Kept(img.streams, img.pending))
  }

  /** One turn of the loop: what it does to the list, and to the image. */
  lemma VisitOne(img: Image, ids: seq<nat>, j: nat)
    requires j < |ids|
    ensures var list := ids[..j + 1] + Kept(img.streams, ids[j + 1..]);
            && list[j] == ids[j]
            && (if IsClosed(img.streams, ids[j]) then list[..j] + list[j + 1..] else list)
               == ids[..j] + Kept(img.streams, ids[j..])
    ensures Kept(img.streams, ids[j..]) == [] <==>
            IsClosed(img.streams, ids[j]) && Kept(img.streams, ids[j + 1..]) == []
    ensures var later := DrainedFrom(img, ids[j + 1..]);
            DrainedFrom(img, ids[j..]) == if IsClosed(img.streams, ids[j]) then PlacedStream(later, ids[j]) else later
  {
    assert ids[j..][1..] == ids[j + 1..] && ids[j..][0] == ids[j];
    var list, kept := ids[..j + 1] + Kept(img.streams, ids[j + 1..]), Kept(img.streams, ids[j + 1..]);
    assert list[..j] == ids[..j] && list[j + 1..] == kept;
    assert list == ids[..j] + ([ids[j]] + kept);
  }

  class ImageBuilder {
    const hexOf: Bytes -> string
    var streams: map<nat, Stream>
    var pending: seq<nat>
    var layers: map<string, Layer>
    var manifest: seq<Descriptor>
    var placed: seq<Layer>
    var added: seq<Layer>

    function View(): Image
      reads this
    {
      Image(streams, pending, layers, manifest, placed, added)
    }

    constructor (hexOf: Bytes -> string)
      ensures View() == NEW_IMAGE && this.hexOf == hexOf
    {
      this.hexOf := hexOf;
      streams, pending, layers, manifest, placed, added := map[], [], map[], [], [], [];
    }

    method PlaceLayer(layer: Layer, d: Descriptor)
      modifies this`layers, this`manifest, this`placed
      ensures View() == Placed(old(View()), layer, d)
    {
      layers := layers[d.digest := layer];
      manifest := manifest + [d];
      placed := placed + [layer];
    }

    method AddLayer(layer: Layer) returns (ok: bool)
      requires layer.StreamLayer? ==> layer.id in streams
      modifies this
      ensures View() == Step(old(View()), Add(layer), hexOf).0
      ensures ok <==> layer.StreamLayer? || layer.content.Some?
      ensures !ok ==> View() == old(View())
    {
      match layer
      case StreamLayer(id) =>
        pending := pending + [id];
        added := added + [layer];
        ok := true;
      case FileLayer(mediaType, content) =>
        if content.None? { return false; }
        PlaceLayer(layer, Descriptor(mediaType, content.value.1, content.value.0));
        added := added + [layer];
        ok := true;
    }

    /** Fixes the digest of a stream at what was read so far: its descriptor is now that of its content, the next
        Digest will take it off the pending list, and nothing else has changed. */
    method CloseLayer(id: nat)
      requires id in streams
      modifies this`streams
      ensures View() == Step(old(View()), CloseStream(id), hexOf).0
      ensures streams.Keys == old(streams.Keys) && forall k :: k in streams && k != id ==> streams[k] == old(streams)[k]
      ensures var data := old(streams)[id].data;
              && Describe(streams[id]) == Descriptor(old(streams)[id].mediaType, |data|, hexOf(data))
              && (hexOf(data) != "" ==> id !in Drained(View()).pending)
    {
      var st := streams[id];
      streams := streams[id := st.(hex := hexOf(st.data), sealed := st.data)];
      KeptAreOpen(streams, pending);
    }

    /** The backward loop that takes closed streams out of the list it walks. */
    method Digest() returns (computed: bool)
      requires forall id :: id in pending ==> id in streams
      modifies this
      ensures View() == Drained(old(View()))
      ensures computed <==> Kept(old(streams), old(pending)) == []
    {
      ghost var before := View();
      ghost var ids := pending;
      var notComputed := false;
      var j := |pending| - 1;
      while j >= 0
        invariant -1 <= j < |ids|
        invariant pending == ids[..j + 1] + Kept(before.streams, ids[j + 1..])
        invariant View().(pending := before.pending) == DrainedFrom(before, ids[j + 1..])
        invariant streams == before.streams
        invariant notComputed <==> Kept(before.streams, ids[j + 1..]) != []
      {
        VisitOne(before, ids, j);
        assert ids[j] in ids;
        if streams[pending[j]].hex == "" {
          notComputed := true;
        } else {
          PlaceLayer(StreamLayer(pending[j]), Describe(streams[pending[j]]));
          pending := pending[..j] + pending[j + 1..];
        }
        j := j - 1;
      }
      assert ids[0..] == ids;
      computed := !notComputed;
    }
  }

  // ----- histories -----

  datatype Op =
    | NewStream(id: nat, mediaType: string) | Add(layer: Layer)
    | ReadMore(id: nat, bytes: Bytes) | CloseStream(id: nat) | ComputeDigest

  /** What one call does; `hexOf` is the hash. The second result is whether Digest reports a digest. */
  function Step(img: Image, op: Op, hexOf: Bytes -> string): (Image, bool) {
    match op
    case NewStream(id, mediaType) =>
      (if id in img.streams then img else img.(streams := img.streams[id := Stream(mediaType, [], "", [])]), true)
    case Add(StreamLayer(id)) =>
      (if id in img.streams
       then img.(pending := img.pending + [id], added := img.added + [StreamLayer(id)])
       else img, true)
    case Add(FileLayer(mediaType, content)) =>
      (if content.None? then img
       else
         var d := Descriptor(mediaType, content.value.1, content.value.0);
         Placed(img, op.layer, d).(added := img.added + [op.layer]), true)
    case ReadMore(id, bytes) =>
      (if id in img.streams then
         var st := img.streams[id];
         img.(streams := img.streams[id := st.(data := st.data + bytes)])
       else img, true)
    case CloseStream(id) =>
      (if id in img.streams then
         var st := img.streams[id];
         img.(streams := img.streams[id := st.(hex := hexOf(st.data), sealed := st.data)])
       else img, true)
    case ComputeDigest => (Drained(img), Drained(img).pending == [])
  }

  function Built(ops: seq<Op>, hexOf: Bytes -> string): Image {
    if ops == [] then NEW_IMAGE else Step(Built(ops[..|ops| - 1], hexOf), ops[|ops| - 1], hexOf).0
  }

  /** `a` is `b` with some elements left out. */
  ghost predicate Within(a: seq<nat>, b: seq<nat>) {
    if a == [] then true
    else if b == [] then false
    else (a[0] == b[0] && Within(a[1..], b[1..])) || Within(a, b[1..])
  }

  lemma {:induction false} WithinSelf(a: seq<nat>)
    ensures Within(a, a)
  {
    if a != [] { WithinSelf(a[1..]); }
  }

  lemma {:induction false} WithinTrans(a: seq<nat>, b: seq<nat>, c: seq<nat>)
    requires Within(a, b) && Within(b, c)
    ensures Within(a, c)
    decreases |b| + |c|
  {
    if a != [] && c != [] {
      if b[0] == c[0] && Within(b[1..], c[1..]) {
        if a[0] == b[0] && Within(a[1..], b[1..]) { WithinTrans(a[1..], b[1..], c[1..]); }
        else { WithinTrans(a, b[1..], c[1..]); }
      } else {
        WithinTrans(a, b, c[1..]);
      }
    }
  }

  lemma {:induction false} WithinAppend(a: seq<nat>, b: seq<nat>, x: nat)
    requires Within(a, b)
    ensures Within(a + [x], b + [x])
  {
    if b == [] {
      assert a == [];
      assert (a + [x])[1..] == [] && (b + [x])[1..] == [];
    } else {
      assert (b + [x])[1..] == b[1..] + [x];
      if a == [] {
        WithinAppend([], b[1..], x);
        assert [] + [x] == a + [x];
      } else if a[0] == b[0] && Within(a[1..], b[1..]) {
        WithinAppend(a[1..], b[1..], x);
        assert (a + [x])[1..] == a[1..] + [x];
      } else {
        WithinAppend(a, b[1..], x);
      }
    }
  }

  /** The streams among the layers, in order. */
  function StreamsOf(layers: seq<Layer>): seq<nat> {
    if layers == [] then []
    else StreamsOf(layers[..|layers| - 1]) +
         match layers[|layers| - 1] case StreamLayer(id) => [id] case FileLayer(_, _) => []
  }

  function AsLayers(ids: seq<nat>): seq<Layer> { seq(|ids|, i requires 0 <= i < |ids| => StreamLayer(ids[i])) }

  ghost function Digests(img: Image): set<string> { set i | 0 <= i < |img.manifest| :: img.manifest[i].digest }

  lemma {:induction false} KeptAreOpen(streams: map<nat, Stream>, ids: seq<nat>)
    ensures Within(Kept(streams, ids), ids)
    ensures forall id :: id in Kept(streams, ids) ==> id in ids && !IsClosed(streams, id)
    ensures Kept(streams, ids) == [] <==> forall id :: id in ids ==> IsClosed(streams, id)
  {
    if ids != [] {
      KeptAreOpen(streams, ids[1..]);
      assert ids == [ids[0]] + ids[1..];
      var kept := Kept(streams, ids[1..]);
      if IsClosed(streams, ids[0]) {
        assert Kept(streams, ids) == kept;
      } else {
        assert Kept(streams, ids)[1..] == kept;
      }
    }
  }

  lemma PlaceKeeps(img: Image, layer: Layer, d: Descriptor)
    requires img.layers.Keys == Digests(img)
    ensures Placed(img, layer, d).layers.Keys == Digests(Placed(img, layer, d))
  {
    var out := Placed(img, layer, d);
    assert Digests(out) == Digests(img) + {d.digest} by {
      forall i | 0 <= i < |img.manifest| ensures out.manifest[i] == img.manifest[i] {}
      assert out.manifest[|img.manifest|] == d;
    }
  }

  lemma {:induction false} DrainKeepsMap(img: Image, ids: seq<nat>)
    ensures var out := DrainedFrom(img, ids);
            && out.streams == img.streams && out.added == img.added && out.pending == img.pending
            && |out.manifest| - |img.manifest| == |out.placed| - |img.placed|
            && (img.layers.Keys == Digests(img) ==> out.layers.Keys == Digests(out))
  {
    if ids != [] {
      DrainKeepsMap(img, ids[1..]);
      if IsClosed(img.streams, ids[0]) && img.layers.Keys == Digests(img) {
        PlaceKeeps(DrainedFrom(img, ids[1..]), StreamLayer(ids[0]), Describe(img.streams[ids[0]]));
      }
    }
  }

  lemma LayersSplit(id: nat, ids: seq<nat>)
    ensures multiset(AsLayers([id] + ids)) == multiset{StreamLayer(id)} + multiset(AsLayers(ids))
  {
    assert AsLayers([id] + ids) == [StreamLayer(id)] + AsLayers(ids);
  }

  lemma JoinEither(p: multiset<Layer>, k: multiset<Layer>, all: multiset<Layer>, rest: multiset<Layer>, x: Layer)
    requires p + k == all + rest
    ensures (p + multiset{x}) + k == all + (multiset{x} + rest)
    ensures p + (multiset{x} + k) == all + (multiset{x} + rest)
  {
    assert (p + multiset{x}) + k == (p + k) + multiset{x};
    assert all + (multiset{x} + rest) == (all + rest) + multiset{x};
  }

  /** Draining moves layers from the list to the manifest, none lost, none twice. */
  lemma {:induction false} DrainMoves(img: Image, ids: seq<nat>)
    ensures multiset(DrainedFrom(img, ids).placed) + multiset(AsLayers(Kept(img.streams, ids)))
            == multiset(img.placed) + multiset(AsLayers(ids))
  {
    if ids != [] {
      DrainMoves(img, ids[1..]);
      DrainKeepsMap(img, ids[1..]);
      var later, kept := DrainedFrom(img, ids[1..]), Kept(img.streams, ids[1..]);
      assert ids == [ids[0]] + ids[1..];
      LayersSplit(ids[0], ids[1..]);
      LayersSplit(ids[0], kept);
      JoinEither(multiset(later.placed), multiset(AsLayers(kept)), multiset(img.placed),
        multiset(AsLayers(ids[1..])), StreamLayer(ids[0]));
      if IsClosed(img.streams, ids[0]) {
        assert Kept(img.streams, ids) == kept;
        assert multiset(DrainedFrom(img, ids).placed) == multiset(later.placed) + multiset{StreamLayer(ids[0])};
      } else {
        assert Kept(img.streams, ids) == [ids[0]] + kept;
      }
    }
  }

  ghost predicate Conserved(img: Image) {
    && (forall id :: id in img.pending ==> id in img.streams)
    && |img.manifest| == |img.placed|
    && multiset(img.placed) + multiset(AsLayers(img.pending)) == multiset(img.added)
    && Within(img.pending, StreamsOf(img.added))
    && img.layers.Keys == Digests(img)
  }

  lemma AddKeeps(img: Image, layer: Layer, hexOf: Bytes -> string)
    requires Conserved(img)
    ensures Conserved(Step(img, Add(layer), hexOf).0)
  {
    var added := img.added + [layer];
    assert added[..|img.added|] == img.added;
    match layer
    case StreamLayer(id) =>
      WithinAppend(img.pending, StreamsOf(img.added), id);
      assert AsLayers(img.pending + [id]) == AsLayers(img.pending) + [layer];
    case FileLayer(mediaType, content) =>
      if content.Some? {
        PlaceKeeps(img, layer, Descriptor(mediaType, content.value.1, content.value.0));
        assert StreamsOf(added) == StreamsOf(img.added);
      }
  }

  lemma DigestKeeps(img: Image)
    requires Conserved(img)
    ensures Conserved(Drained(img))
  {
    DrainMoves(img, img.pending);
    DrainKeepsMap(img, img.pending);
    KeptAreOpen(img.streams, img.pending);
    WithinTrans(Kept(img.streams, img.pending), img.pending, StreamsOf(img.added));
  }

  lemma StreamsOnly(img: Image, out: Image)
    requires Conserved(img) && out == img.(streams := out.streams) && img.streams.Keys <= out.streams.Keys
    ensures Conserved(out)
  {
    assert Digests(out) == Digests(img);
    forall id | id in out.pending ensures id in out.streams { assert id in img.streams.Keys; }
  }

  /** Layer conservation: after every sequence of calls each accepted layer is in exactly one of the manifest and the
      pending list, the pending streams are in the order in which they were added, and the layer map has exactly the
      manifest's digests. */
  lemma {:induction false} LayersAreConserved(ops: seq<Op>, hexOf: Bytes -> string)
    ensures Conserved(Built(ops, hexOf))
  {
    if ops != [] {
      var img, op := Built(ops[..|ops| - 1], hexOf), ops[|ops| - 1];
      LayersAreConserved(ops[..|ops| - 1], hexOf);
      if op.Add? { AddKeeps(img, op.layer, hexOf); }
      else if op.ComputeDigest? { DigestKeeps(img); }
      else { StreamsOnly(img, Step(img, op, hexOf).0); }
    }
  }

  /** Digest reports a digest exactly when every pending stream is closed, and leaves exactly the open ones pending. */
  lemma DigestReports(ops: seq<Op>, hexOf: Bytes -> string)
    ensures var img := Built(ops, hexOf);
            var (out, computed) := Step(img, ComputeDigest, hexOf);
            && (computed <==> forall id :: id in img.pending ==> IsClosed(img.streams, id))
            && (forall id :: id in out.pending ==> !IsClosed(out.streams, id))
  {
    var img := Built(ops, hexOf);
    DrainKeepsMap(img, img.pending);
    KeptAreOpen(img.streams, img.pending);
  }

  ghost predicate Sealed(img: Image, hexOf: Bytes -> string) {
    forall id :: id in img.streams ==>
      img.streams[id].sealed <= img.streams[id].data
      && (img.streams[id].hex != "" ==> img.streams[id].hex == hexOf(img.streams[id].sealed))
  }

  lemma StepKeepsSealed(img: Image, op: Op, hexOf: Bytes -> string)
    requires Sealed(img, hexOf)
    ensures Sealed(Step(img, op, hexOf).0, hexOf)
  {
    if op.ComputeDigest? {
      DrainKeepsMap(img, img.pending);
    } else if op.ReadMore? && op.id in img.streams {
      var st := img.streams[op.id];
      assert st.sealed <= st.data <= st.data + op.bytes;
    }
  }

  lemma {:induction false} StreamsAreSealed(ops: seq<Op>, hexOf: Bytes -> string)
    ensures Sealed(Built(ops, hexOf), hexOf)
  {
    if ops != [] {
      StreamsAreSealed(ops[..|ops| - 1], hexOf);
      StepKeepsSealed(Built(ops[..|ops| - 1], hexOf), ops[|ops| - 1], hexOf);
    }
  }

  /** `d` describes `layer`: a file exactly, a stream by the digest of something it had read and by a size at least
      that long. */
  ghost predicate EntryOf(streams: map<nat, Stream>, layer: Layer, d: Descriptor, hexOf: Bytes -> string) {
    match layer
    case FileLayer(mediaType, content) => content.Some? && d == Descriptor(mediaType, content.value.1, content.value.0)
    case StreamLayer(id) =>
      && id in streams && d.mediaType == streams[id].mediaType && d.size <= |streams[id].data|
      && exists n: nat :: n <= d.size && d.digest == hexOf(streams[id].data[..n])
  }

  /** Manifest entries describe their layers, and looking up a digest gives a layer entered under it. */
  ghost predicate Faithful(img: Image, hexOf: Bytes -> string) {
    && |img.manifest| == |img.placed|
    && (forall i :: 0 <= i < |img.placed| ==> EntryOf(img.streams, img.placed[i], img.manifest[i], hexOf))
    && (forall d :: d in img.layers ==>
          exists i :: 0 <= i < |img.placed| && img.manifest[i].digest == d && img.placed[i] == img.layers[d])
  }

  lemma PlaceKeepsFaithful(img: Image, layer: Layer, d: Descriptor, hexOf: Bytes -> string)
    requires Faithful(img, hexOf) && EntryOf(img.streams, layer, d, hexOf)
    ensures Faithful(Placed(img, layer, d), hexOf)
  {
    var out := Placed(img, layer, d);
    var last := |img.placed|;
    assert out.manifest[last] == d && out.placed[last] == layer;
    forall k | k in out.layers
      ensures exists i :: 0 <= i < |out.placed| && out.manifest[i].digest == k && out.placed[i] == out.layers[k]
    {
      if k == d.digest {
        assert out.manifest[last].digest == k;
      } else {
        var i :| 0 <= i < |img.placed| && img.manifest[i].digest == k && img.placed[i] == img.layers[k];
        assert out.manifest[i].digest == k && out.placed[i] == out.layers[k];
      }
    }
  }

  lemma {:induction false} DrainKeepsFaithful(img: Image, ids: seq<nat>, hexOf: Bytes -> string)
    requires Faithful(img, hexOf) && Sealed(img, hexOf)
    ensures Faithful(DrainedFrom(img, ids), hexOf)
  {
    if ids != [] {
      DrainKeepsFaithful(img, ids[1..], hexOf);
      DrainKeepsMap(img, ids[1..]);
      if IsClosed(img.streams, ids[0]) {
        var st := img.streams[ids[0]];
        assert st.data[..|st.sealed|] == st.sealed;
        PlaceKeepsFaithful(DrainedFrom(img, ids[1..]), StreamLayer(ids[0]), Describe(st), hexOf);
      }
    }
  }

  /** Reading more of a stream, or closing it again, does not spoil an entry. */
  lemma EntryStays(streams: map<nat, Stream>, id: nat, st: Stream, layer: Layer, d: Descriptor, hexOf: Bytes -> string)
    requires EntryOf(streams, layer, d, hexOf)
    requires id in streams ==> st.mediaType == streams[id].mediaType && streams[id].data <= st.data
    ensures EntryOf(streams[id := st], layer, d, hexOf)
  {
    if layer.StreamLayer? && layer.id == id {
      var n: nat :| n <= d.size && d.digest == hexOf(streams[id].data[..n]);
      assert st.data[..n] == streams[id].data[..n];
    }
  }

  lemma StreamKeepsFaithful(img: Image, id: nat, st: Stream, hexOf: Bytes -> string)
    requires Faithful(img, hexOf)
    requires id in img.streams ==> st.mediaType == img.streams[id].mediaType && img.streams[id].data <= st.data
    ensures Faithful(img.(streams := img.streams[id := st]), hexOf)
  {
    forall i | 0 <= i < |img.placed| ensures EntryOf(img.streams[id := st], img.placed[i], img.manifest[i], hexOf) {
      EntryStays(img.streams, id, st, img.placed[i], img.manifest[i], hexOf);
    }
  }

  /** What one call leaves faithful. */
  lemma StepKeepsFaithful(img: Image, op: Op, hexOf: Bytes -> string)
    requires Faithful(img, hexOf) && Sealed(img, hexOf)
    ensures Faithful(Step(img, op, hexOf).0, hexOf)
  {
    match op
    case NewStream(id, mediaType) =>
      if id !in img.streams { StreamKeepsFaithful(img, id, Stream(mediaType, [], "", []), hexOf); }
    case ReadMore(id, bytes) =>
      if id in img.streams {
        StreamKeepsFaithful(img, id, img.streams[id].(data := img.streams[id].data + bytes), hexOf);
      }
    case CloseStream(id) =>
      if id in img.streams {
        var st := img.streams[id];
        StreamKeepsFaithful(img, id, st.(hex := hexOf(st.data), sealed := st.data), hexOf);
      }
    case Add(FileLayer(mediaType, content)) =>
      if content.Some? {
        PlaceKeepsFaithful(img, op.layer, Descriptor(mediaType, content.value.1, content.value.0), hexOf);
      }
    case Add(StreamLayer(_)) =>
    case ComputeDigest => DrainKeepsFaithful(img, img.pending, hexOf);
  }

  /** After every sequence of calls each manifest entry describes its own layer and the layer map finds it. */
  lemma {:induction false} ManifestIsFaithful(ops: seq<Op>, hexOf: Bytes -> string)
    ensures Faithful(Built(ops, hexOf), hexOf)
  {
    if ops != [] {
      ManifestIsFaithful(ops[..|ops| - 1], hexOf);
      StreamsAreSealed(ops[..|ops| - 1], hexOf);
      StepKeepsFaithful(Built(ops[..|ops| - 1], hexOf), ops[|ops| - 1], hexOf);
    }
  }

  // ----- streams, in terms of the calls alone -----

  predicate Exists(ops: seq<Op>, id: nat) { exists i :: 0 <= i < |ops| && ops[i].NewStream? && ops[i].id == id }

  /** The media type the stream was first made with. */
  ghost predicate MadeAs(ops: seq<Op>, id: nat, mediaType: string) {
    exists i :: 0 <= i < |ops| && ops[i] == NewStream(id, mediaType) && !Exists(ops[..i], id)
  }

  lemma MadeAsNext(ops: seq<Op>, id: nat, mediaType: string)
    requires ops != [] && MadeAs(ops[..|ops| - 1], id, mediaType)
    ensures MadeAs(ops, id, mediaType)
  {
    var front := ops[..|ops| - 1];
    var i :| 0 <= i < |front| && front[i] == NewStream(id, mediaType) && !Exists(front[..i], id);
    assert front[..i] == ops[..i] && ops[i] == NewStream(id, mediaType);
  }

  /** All bytes read from the stream since it was made, in order. */
  function BytesRead(ops: seq<Op>, id: nat): Bytes {
    if ops == [] then []
    else
      var front, op := ops[..|ops| - 1], ops[|ops| - 1];
      BytesRead(front, id) + if op.ReadMore? && op.id == id && Exists(front, id) then op.bytes else []
  }

  /** The last close of the stream. */
  ghost predicate LastClose(ops: seq<Op>, id: nat, k: nat) {
    && k < |ops| && ops[k] == CloseStream(id) && Exists(ops[..k], id)
    && forall j :: k < j < |ops| ==> ops[j] != CloseStream(id)
  }

  /** The hash of what had been read when the stream was last closed, empty if it never was. */
  function ClosedHex(ops: seq<Op>, id: nat, hexOf: Bytes -> string): string {
    if ops == [] then ""
    else
      var front := ops[..|ops| - 1];
      if ops[|ops| - 1] == CloseStream(id) && Exists(front, id) then hexOf(BytesRead(front, id))
      else ClosedHex(front, id, hexOf)
  }

  lemma {:induction false} ClosedHexMeans(ops: seq<Op>, id: nat, hexOf: Bytes -> string, k: nat)
    requires LastClose(ops, id, k)
    ensures ClosedHex(ops, id, hexOf) == hexOf(BytesRead(ops[..k], id))
  {
    var n := |ops| - 1;
    if k < n {
      LastCloseNext(ops, id, k);
      ClosedHexMeans(ops[..n], id, hexOf, k);
    }
  }

  /** The stream is what the calls made it: everything that was read, and the hash of what had been read at its last
      close. */
  ghost predicate StreamIs(ops: seq<Op>, id: nat, st: Stream, hexOf: Bytes -> string) {
    st.data == BytesRead(ops, id) && MadeAs(ops, id, st.mediaType) && st.hex == ClosedHex(ops, id, hexOf)
  }

  lemma ExistsNext(ops: seq<Op>, id: nat)
    requires ops != []
    ensures var front, op := ops[..|ops| - 1], ops[|ops| - 1];
            Exists(ops, id) <==> Exists(front, id) || (op.NewStream? && op.id == id)
  {
    var front := ops[..|ops| - 1];
    forall i | 0 <= i < |front| ensures front[i] == ops[i] {}
    if Exists(front, id) {
      var i :| 0 <= i < |front| && front[i].NewStream? && front[i].id == id;
      assert ops[i].NewStream?;
    }
  }

  lemma LastCloseNext(ops: seq<Op>, id: nat, k: nat)
    requires ops != [] && k < |ops| - 1 && ops[|ops| - 1] != CloseStream(id)
    ensures LastClose(ops, id, k) <==> LastClose(ops[..|ops| - 1], id, k)
    ensures ops[..|ops| - 1][..k] == ops[..k]
  {
    var front := ops[..|ops| - 1];
    forall i | 0 <= i < |front| ensures front[i] == ops[i] {}
  }

  lemma {:induction false} NothingRead(ops: seq<Op>, id: nat)
    requires !Exists(ops, id)
    ensures BytesRead(ops, id) == []
  {
    if ops != [] {
      ExistsNext(ops, id);
      NothingRead(ops[..|ops| - 1], id);
    }
  }

  /** After every sequence of calls each stream is what the calls made it. */
  lemma {:induction false} StreamsMean(ops: seq<Op>, hexOf: Bytes -> string, id: nat)
    ensures id in Built(ops, hexOf).streams <==> Exists(ops, id)
    ensures Exists(ops, id) ==> StreamIs(ops, id, Built(ops, hexOf).streams[id], hexOf)
  {
    if ops != [] {
      var n := |ops| - 1;
      var front, op := ops[..n], ops[n];
      StreamsMean(front, hexOf, id);
      ExistsNext(ops, id);
      var img := Built(front, hexOf);
      if op.ComputeDigest? { DrainKeepsMap(img, img.pending); }
      if Exists(ops, id) { StreamNext(ops, hexOf, id); }
    }
  }

  /** What one call does to one stream. */
  lemma StepStream(img: Image, op: Op, hexOf: Bytes -> string, id: nat)
    ensures var streams := Step(img, op, hexOf).0.streams;
            && (id in streams <==> id in img.streams || (op.NewStream? && op.id == id))
            && (id !in img.streams && id in streams ==> streams[id] == Stream(op.mediaType, [], "", []))
            && (id in img.streams ==>
                  var was := img.streams[id];
                  streams[id] == if op == CloseStream(id) then was.(hex := hexOf(was.data), sealed := was.data)
                                 else if op.ReadMore? && op.id == id then was.(data := was.data + op.bytes) else was)
  {
    if op.ComputeDigest? { DrainKeepsMap(img, img.pending); }
  }

  lemma StreamNext(ops: seq<Op>, hexOf: Bytes -> string, id: nat)
    requires ops != [] && Exists(ops, id) && id in Built(ops, hexOf).streams
    requires var front := ops[..|ops| - 1];
             && (id in Built(front, hexOf).streams <==> Exists(front, id))
             && (Exists(front, id) ==> StreamIs(front, id, Built(front, hexOf).streams[id], hexOf))
    ensures StreamIs(ops, id, Built(ops, hexOf).streams[id], hexOf)
  {
    var n := |ops| - 1;
    var front, op, img := ops[..n], ops[n], Built(ops[..n], hexOf);
    StepStream(img, op, hexOf, id);
    if Exists(front, id) {
      MadeAsNext(ops, id, img.streams[id].mediaType);
    } else {
      ExistsNext(ops, id);
      NothingRead(front, id);
      NeverClosed(front, id, hexOf);
      assert ops[n] == NewStream(id, op.mediaType);
    }
  }

  lemma {:induction false} NeverClosed(ops: seq<Op>, id: nat, hexOf: Bytes -> string)
    requires !Exists(ops, id)
    ensures ClosedHex(ops, id, hexOf) == ""
  {
    if ops != [] {
      ExistsNext(ops, id);
      NeverClosed(ops[..|ops| - 1], id, hexOf);
    }
  }

  /** What Digest enters for a closed stream: the media type, as size the number of all bytes read until now, and as
      digest the hash of those read until the last close. */
  lemma DrainedEntryMeans(ops: seq<Op>, hexOf: Bytes -> string, id: nat, k: nat)
    requires LastClose(ops, id, k) && Exists(ops, id)
    ensures id in Built(ops, hexOf).streams
    ensures var d := Describe(Built(ops, hexOf).streams[id]);
            && MadeAs(ops, id, d.mediaType) && d.size == |BytesRead(ops, id)|
            && d.digest == hexOf(BytesRead(ops[..k], id))
  {
    StreamsMean(ops, hexOf, id);
    ClosedHexMeans(ops, id, hexOf, k);
  }

  // ----- the order of the manifest -----

  /** The closed streams among these, last first. */
  function ClosedBackwards(streams: map<nat, Stream>, ids: seq<nat>): seq<nat> {
    if ids == [] then []
    else ClosedBackwards(streams, ids[1..]) + if IsClosed(streams, ids[0]) then [ids[0]] else []
  }

  /** Digest appends to the manifest, one entry for each closed pending stream, the last added first, and changes no
      earlier entry. */
  lemma {:induction false} DrainAppends(img: Image, ids: seq<nat>)
    ensures var out, closed := DrainedFrom(img, ids), ClosedBackwards(img.streams, ids);
            && out.placed == img.placed + AsLayers(closed)
            && |out.manifest| == |img.manifest| + |closed| && out.manifest[..|img.manifest|] == img.manifest
            && forall i :: 0 <= i < |closed| ==>
                 closed[i] in img.streams && out.manifest[|img.manifest| + i] == Describe(img.streams[closed[i]])
  {
    if ids != [] {
      DrainAppends(img, ids[1..]);
      DrainKeepsMap(img, ids[1..]);
      var later, closed := DrainedFrom(img, ids[1..]), ClosedBackwards(img.streams, ids[1..]);
      if IsClosed(img.streams, ids[0]) {
        assert AsLayers(closed + [ids[0]]) == AsLayers(closed) + [StreamLayer(ids[0])];
      } else {
        assert closed + [] == closed;
      }
    }
  }

  /** The digest of a stream is taken when it is closed, its size when it is drained: the entry describes one and the
      same content exactly when nothing was read in between. */
  lemma DescriptorExactIff(ops: seq<Op>, hexOf: Bytes -> string, id: nat)
    requires IsClosed(Built(ops, hexOf).streams, id)
    ensures var st := Built(ops, hexOf).streams[id];
            Describe(st) == Descriptor(st.mediaType, |st.sealed|, hexOf(st.sealed)) <==> st.data == st.sealed
  {
    StreamsAreSealed(ops, hexOf);
  }
}
