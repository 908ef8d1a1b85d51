/** Generation of a YUM repository's metadata: three compressed XML files written while their checksums and sizes are
    counted, the repomd index that lists them with the extra metadata, and the layers pushed for them. */
module Repomd {
  import opened Wrappers
  import PrimaryWalk

  type Bytes = string

  /** The outside world: what the compressor hands on when `p` is written after `soFar`, and when it is closed; the
      checksum; and the encoding of the index. */
  datatype World = World(
    emit: (Bytes, Bytes) -> Bytes, flush: Bytes -> Bytes, unpack: Bytes -> Bytes,
    hash: Bytes -> string, encode: seq<Entry> -> Bytes)

  /** One `data` element of the index. */
  datatype Entry = Entry(kind: string, checksum: string, size: int, open: Option<(string, int)>, href: string)

  /** A pushed layer: its blob is whatever the file holds when the push reads it. */
  datatype Layer = Layer(title: string, digest: string, size: int, file: string)

  datatype Extra = Extra(
    kind: string, filename: string, checksum: string, openChecksum: string, size: nat, openSize: nat, data: Bytes)

  datatype PackageMetadata = PackageMetadata(primary: Bytes, filelists: Bytes, other: Bytes)

  // ----- the three files -----

  function Flat(chunks: seq<Bytes>): Bytes {
    if chunks == [] then "" else Flat(chunks[..|chunks| - 1]) + chunks[|chunks| - 1]
  }

  /** What the compressor has handed on after these writes. */
  function Emitted(world: World, chunks: seq<Bytes>): Bytes {
    if chunks == [] then ""
    else var front := chunks[..|chunks| - 1]; Emitted(world, front) + world.emit(Flat(front), chunks[|chunks| - 1])
  }

  function Archive(world: World, chunks: seq<Bytes>): Bytes { Emitted(world, chunks) + world.flush(Flat(chunks)) }

  /** A file being written. Each write goes through the compressor to the file, a hash and a counter, and uncompressed
      to another hash and counter; a hash is represented by the bytes it was fed. */
  class MetaXML {
    const world: World
    var file: Bytes
    var summed: Bytes
    var size: int
    var openSummed: Bytes
    var openSize: int
    ghost var chunks: seq<Bytes>

    ghost predicate Counted()
      reads this
    {
      && openSummed == Flat(chunks) && openSize == |openSummed|
      && summed == file && size == |file|
    }

    ghost predicate Valid()
      reads this
    {
      Counted() && file == Emitted(world, chunks)
    }

    constructor (world: World, header: Bytes)
      ensures Valid() && this.world == world && chunks == [header + "\n"]
    {
      this.world := world;
      file, summed, size, openSummed, openSize, chunks := "", "", 0, "", 0, [];
      new;
      Write(header + "\n");
    }

    method Write(p: Bytes)
      requires Valid()
      modifies this
      ensures Valid() && chunks == old(chunks) + [p]
    {
      var z := world.emit(openSummed, p);
      file, summed, size := file + z, summed + z, size + |z|;
      openSummed, openSize := openSummed + p, openSize + |p|;
      chunks := chunks + [p];
      assert chunks[..|chunks| - 1] == old(chunks);
    }

    /** An empty fragment is not written at all. */
    method Add(fragment: Bytes)
      requires Valid()
      modifies this
      ensures Valid() && chunks == old(chunks) + Written([fragment])
      ensures chunks == if fragment == "" then old(chunks) else old(chunks) + [fragment]
      ensures fragment == "" ==> file == old(file) && size == old(size)
    {
      assert [fragment][..0] == [];
      if fragment != "" { Write(fragment); }
    }

    method Save(footer: Bytes)
      requires Valid()
      modifies this
      ensures Counted() && chunks == old(chunks) + [footer + "\n"] && file == Archive(world, chunks)
    {
      Write(footer + "\n");
      var z := world.flush(openSummed);
      file, summed, size := file + z, summed + z, size + |z|;
    }
  }

  /** The fragments that reach the file. */
  function Written(fragments: seq<Bytes>): seq<Bytes> {
    if fragments == [] then []
    else
      var front, last := Written(fragments[..|fragments| - 1]), fragments[|fragments| - 1];
      if last == "" then front else front + [last]
  }

  lemma {:induction false} FlatJoins(a: seq<Bytes>, b: seq<Bytes>)
    ensures Flat(a + b) == Flat(a) + Flat(b)
    decreases |b|
  {
    if b == [] {
      assert a + b == a;
    } else {
      var front, last := b[..|b| - 1], b[|b| - 1];
      FlatJoins(a, front);
      assert (a + b)[..|a + b| - 1] == a + front && (a + b)[|a + b| - 1] == last;
      assert Flat(a + b) == (Flat(a) + Flat(front)) + last == Flat(a) + (Flat(front) + last);
    }
  }

  /** Leaving out empty fragments leaves the text the same. */
  lemma {:induction false} WrittenKeepsText(fragments: seq<Bytes>)
    ensures Flat(Written(fragments)) == Flat(fragments)
  {
    if fragments != [] {
      var front, last := fragments[..|fragments| - 1], fragments[|fragments| - 1];
      WrittenKeepsText(front);
      if last != "" { assert (Written(front) + [last])[..|Written(front)|] == Written(front); }
    }
  }

  /** The writes that make up one file. */
  function Chunks(header: Bytes, fragments: seq<Bytes>, footer: Bytes): seq<Bytes> {
    [header + "\n"] + Written(fragments) + [footer + "\n"]
  }

  /** The uncompressed text is the header, every fragment in order, and the footer. */
  lemma TextOf(header: Bytes, fragments: seq<Bytes>, footer: Bytes)
    ensures Flat(Chunks(header, fragments, footer)) == header + "\n" + Flat(fragments) + footer + "\n"
  {
    var h, f := header + "\n", footer + "\n";
    FlatJoins([h], Written(fragments));
    FlatJoins([h] + Written(fragments), [f]);
    assert [h][..0] == [] && [f][..0] == [];
    WrittenKeepsText(fragments);
  }

  // ----- names -----

  /** The last element of a path. */
  function Base(path: string): string {
    if path == "" then "."
    else if path[|path| - 1] == '/' then (if |path| == 1 then "/" else Base(path[..|path| - 1]))
    else Tail(path)
  }

  /** What follows the last slash. */
  function Tail(path: string): string {
    if path == "" || path[|path| - 1] == '/' then "" else Tail(path[..|path| - 1]) + [path[|path| - 1]]
  }

  lemma {:induction false} TailAfterSlash(dir: string, name: string)
    requires '/' !in name
    ensures Tail(dir + "/" + name) == name
  {
    var path := dir + "/" + name;
    if name != "" {
      var front := name[..|name| - 1];
      TailAfterSlash(dir, front);
      assert path[..|path| - 1] == dir + "/" + front;
      assert name == front + [name[|name| - 1]];
    }
  }

  /** The odd cases: an empty path, the root, and slashes at the end. */
  lemma BaseCases(path: string)
    ensures Base("") == "." && Base("/") == "/"
    ensures path != "" ==> Base(path + "/") == Base(path)
  {
    if path != "" { assert (path + "/")[..|path|] == path; }
  }

  function TitleOf(checksum: string, file: string): string { checksum + "-" + file }

  /** The href without its directory is the title. */
  lemma BaseOfHref(checksum: string, file: string)
    requires '/' !in checksum && '/' !in file
    ensures Base("repodata/" + TitleOf(checksum, file)) == TitleOf(checksum, file)
  {
    var title := TitleOf(checksum, file);
    var path := "repodata/" + title;
    assert path == "repodata" + "/" + title;
    TailAfterSlash("repodata", title);
    assert path[|path| - 1] == title[|title| - 1];
    assert '/' !in title;
  }

  // ----- the push -----

  function FileOf(kind: string): string { kind + ".xml.gz" }

  /** How a file of one kind begins, around the package count, and ends. */
  datatype Format = Format(kind: string, before: string, after: string, footer: string)

  /** The formats of the primary, filelists and other files. */
  datatype Layout = Layout(primary: Format, filelists: Format, other: Format)

  function Header(f: Format, n: nat): string { f.before + PrimaryWalk.Decimal(n) + f.after }

  /** A finished file: what it holds, and what was hashed and counted while it was written. */
  datatype Main = Main(kind: string, file: Bytes, summed: Bytes, size: int, openSummed: Bytes, openSize: int)

  /** The index and the layer repeat what was counted; they do not look at the file again. */
  function MainEntry(world: World, m: Main): Entry {
    Entry(m.kind, world.hash(m.summed), m.size, Some((world.hash(m.openSummed), m.openSize)),
          "repodata/" + TitleOf(world.hash(m.summed), FileOf(m.kind)))
  }

  function MainLayer(world: World, m: Main): Layer {
    Layer(TitleOf(world.hash(m.summed), FileOf(m.kind)), world.hash(m.summed), m.size, FileOf(m.kind))
  }

  /** The counts are those of the file, and of the text it was made from. */
  ghost predicate Measured(m: Main, text: Bytes) {
    m.summed == m.file && m.size == |m.file| && m.openSummed == text && m.openSize == |text|
  }

  /** The index repeats what the extra metadata was recorded with. */
  function ExtraEntry(e: Extra): Entry {
    Entry(e.kind, e.checksum, e.size, if e.openSize > 0 then Some((e.openChecksum, e.openSize)) else None,
          "repodata/" + TitleOf(e.checksum, e.filename))
  }

  /** The layer is made from the data. */
  function ExtraLayer(world: World, e: Extra): Layer {
    Layer(Base("repodata/" + TitleOf(e.checksum, e.filename)), world.hash(e.data), |e.data|, e.filename)
  }

  /** The directory after files were written to it, later writes replacing earlier ones. */
  function Directory(writes: seq<(string, Bytes)>): map<string, Bytes> {
    if writes == [] then map[]
    else Directory(writes[..|writes| - 1])[writes[|writes| - 1].0 := writes[|writes| - 1].1]
  }

  const INDEX_FILE := "repomd.xml"

  /** All that is published: the index, the layers, and the files their blobs are read from. */
  datatype Published = Published(data: seq<Entry>, layers: seq<Layer>, files: map<string, Bytes>)

  function Data(world: World, mains: seq<Main>, extras: seq<Extra>): seq<Entry> {
    seq(|mains|, i requires 0 <= i < |mains| => MainEntry(world, mains[i])) + ExtraEntries(extras)
  }

  function ExtraEntries(extras: seq<Extra>): seq<Entry> {
    seq(|extras|, i requires 0 <= i < |extras| => ExtraEntry(extras[i]))
  }

  function ExtraLayers(world: World, extras: seq<Extra>): seq<Layer> {
    seq(|extras|, i requires 0 <= i < |extras| => ExtraLayer(world, extras[i]))
  }

  function IndexLayer(world: World, index: Bytes): Layer { Layer("", world.hash(index), |index|, INDEX_FILE) }

  function Layers(world: World, mains: seq<Main>, extras: seq<Extra>): seq<Layer> {
    ExtraLayers(world, extras) + [IndexLayer(world, world.encode(Data(world, mains, extras)))]
    + seq(|mains|, i requires 0 <= i < |mains| => MainLayer(world, mains[i]))
  }

  function MainWrites(mains: seq<Main>): seq<(string, Bytes)> {
    seq(|mains|, i requires 0 <= i < |mains| => (FileOf(mains[i].kind), mains[i].file))
  }

  function ExtraWrites(extras: seq<Extra>): seq<(string, Bytes)> {
    seq(|extras|, i requires 0 <= i < |extras| => (extras[i].filename, extras[i].data))
  }

  /** The files in the order in which they are written. */
  function Writes(world: World, mains: seq<Main>, extras: seq<Extra>): seq<(string, Bytes)> {
    MainWrites(mains) + ExtraWrites(extras) + [(INDEX_FILE, world.encode(Data(world, mains, extras)))]
  }

  function Publish(world: World, mains: seq<Main>, extras: seq<Extra>): Published {
    Published(Data(world, mains, extras), Layers(world, mains, extras), Directory(Writes(world, mains, extras)))
  }

  lemma {:induction false} DirectorySnoc(writes: seq<(string, Bytes)>, name: string, bytes: Bytes)
    ensures Directory(writes + [(name, bytes)]) == Directory(writes)[name := bytes]
  {
    assert (writes + [(name, bytes)])[..|writes|] == writes;
  }

  /** The entries and files of the finished main files; hrefs first name the files, then also their checksums. */
  method ListMains(world: World, mains: seq<Main>, kinds: set<string>)
      returns (data: seq<Entry>, files: map<string, Bytes>)
    requires forall i :: 0 <= i < |mains| ==> mains[i].kind in kinds
    ensures data == Data(world, mains, []) && files == Directory(MainWrites(mains))
  {
    data, files := [], map[];
    for i := 0 to |mains|
      invariant |data| == i && files == Directory(MainWrites(mains)[..i])
      invariant forall j :: 0 <= j < i ==>
                  data[j] == MainEntry(world, mains[j]).(href := "repodata/" + FileOf(mains[j].kind))
    {
      var m := mains[i];
      data := data + [Entry(m.kind, world.hash(m.summed), m.size, Some((world.hash(m.openSummed), m.openSize)),
                            "repodata/" + FileOf(m.kind))];
      DirectorySnoc(MainWrites(mains)[..i], FileOf(m.kind), m.file);
      assert MainWrites(mains)[..i + 1] == MainWrites(mains)[..i] + [(FileOf(m.kind), m.file)];
      files := files[FileOf(m.kind) := m.file];
    }
    assert MainWrites(mains)[..|mains|] == MainWrites(mains);
    for i := 0 to |data|
      invariant |data| == |mains|
      invariant forall j :: 0 <= j < i ==> data[j] == MainEntry(world, mains[j])
      invariant forall j :: i <= j < |data| ==>
                  data[j] == MainEntry(world, mains[j]).(href := "repodata/" + FileOf(mains[j].kind))
    {
      if data[i].kind in kinds {
        data := data[i := data[i].(href := "repodata/" + TitleOf(data[i].checksum, FileOf(data[i].kind)))];
      }
    }
  }

  /** The extra metadata is written out, and listed and made into layers as it is. */
  method AddExtras(
      world: World, extras: seq<Extra>, main: seq<Entry>, ghost before: seq<(string, Bytes)>, dir: map<string, Bytes>)
      returns (data: seq<Entry>, layers: seq<Layer>, files: map<string, Bytes>)
    requires dir == Directory(before)
    ensures data == main + ExtraEntries(extras) && layers == ExtraLayers(world, extras)
    ensures files == Directory(before + ExtraWrites(extras))
  {
    data, layers, files := main, [], dir;
    assert before + ExtraWrites(extras)[..0] == before;
    for i := 0 to |extras|
      invariant data == main + ExtraEntries(extras)[..i]
      invariant layers == ExtraLayers(world, extras)[..i]
      invariant files == Directory(before + ExtraWrites(extras)[..i])
    {
      var e := extras[i];
      DirectorySnoc(before + ExtraWrites(extras)[..i], e.filename, e.data);
      assert before + ExtraWrites(extras)[..i + 1] == before + ExtraWrites(extras)[..i] + [(e.filename, e.data)];
      files := files[e.filename := e.data];
      var entry := ExtraEntry(e);
      data := data + [entry];
      layers := layers + [Layer(Base(entry.href), world.hash(files[e.filename]), |files[e.filename]|, e.filename)];
    }
    assert ExtraWrites(extras)[..|extras|] == ExtraWrites(extras);
  }

  /** Lists the finished files and the extra metadata in the index and makes the layers. */
  method Push(world: World, mains: seq<Main>, kinds: set<string>, extras: seq<Extra>) returns (out: Published)
    requires forall i :: 0 <= i < |mains| ==> mains[i].kind in kinds
    ensures out == Publish(world, mains, extras)
  {
    var main, dir := ListMains(world, mains, kinds);
    var data, layers, files := AddExtras(world, extras, main, MainWrites(mains), dir);
    assert data == Data(world, mains, extras);
    var index := world.encode(data);
    DirectorySnoc(MainWrites(mains) + ExtraWrites(extras), INDEX_FILE, index);
    out := Published(data,
                     layers + [IndexLayer(world, index)]
                       + seq(|mains|, i requires 0 <= i < |mains| => MainLayer(world, mains[i])),
                     files[INDEX_FILE := index]);
  }

  // ----- the whole generation -----

  function Primaries(packages: seq<PackageMetadata>): seq<Bytes> {
    seq(|packages|, i requires 0 <= i < |packages| => packages[i].primary)
  }

  function Filelists(packages: seq<PackageMetadata>): seq<Bytes> {
    seq(|packages|, i requires 0 <= i < |packages| => packages[i].filelists)
  }

  function Others(packages: seq<PackageMetadata>): seq<Bytes> {
    seq(|packages|, i requires 0 <= i < |packages| => packages[i].other)
  }

  /** The text of one file: a header that announces `n` packages, the fragments in order, a footer. */
  function Text(f: Format, n: nat, fragments: seq<Bytes>): Bytes {
    Header(f, n) + "\n" + Flat(fragments) + f.footer + "\n"
  }

  /** The file was written from its text, and measured on the way. */
  ghost predicate IsMain(world: World, m: Main, f: Format, n: nat, fragments: seq<Bytes>) {
    && m.kind == f.kind && m.file == Archive(world, Chunks(Header(f, n), fragments, f.footer))
    && Measured(m, Text(f, n, fragments))
  }

  /** The three files of a table, with the count they announce. */
  ghost predicate AreMains(world: World, layout: Layout, n: nat, packages: seq<PackageMetadata>, mains: seq<Main>) {
    && |mains| == 3
    && IsMain(world, mains[0], layout.primary, n, Primaries(packages))
    && IsMain(world, mains[1], layout.filelists, n, Filelists(packages))
    && IsMain(world, mains[2], layout.other, n, Others(packages))
  }

  lemma WrittenSnoc(fragments: seq<Bytes>, last: Bytes)
    ensures Written(fragments + [last]) == Written(fragments) + Written([last])
  {
    assert (fragments + [last])[..|fragments|] == fragments && [last][..0] == [];
  }

  /** The file is open and holds its header and these fragments. */
  ghost predicate Holds(x: MetaXML, world: World, f: Format, n: nat, fragments: seq<Bytes>)
    reads x
  {
    x.Valid() && x.world == world && x.chunks == [Header(f, n) + "\n"] + Written(fragments)
  }

  method Begin(world: World, f: Format, n: nat) returns (x: MetaXML)
    ensures fresh(x) && Holds(x, world, f, n, [])
  {
    x := new MetaXML(world, Header(f, n));
  }

  /** Closing a file makes it the main file of its fragments, with the counters it has been keeping. */
  method Finish(x: MetaXML, world: World, f: Format, ghost n: nat, ghost fragments: seq<Bytes>) returns (m: Main)
    requires Holds(x, world, f, n, fragments)
    modifies x
    ensures IsMain(world, m, f, n, fragments)
  {
    x.Save(f.footer);
    m := Main(f.kind, x.file, x.summed, x.size, x.openSummed, x.openSize);
    assert x.chunks == Chunks(Header(f, n), fragments, f.footer);
    TextOf(Header(f, n), fragments, f.footer);
  }

  ghost predicate AllHold(
      x: (MetaXML, MetaXML, MetaXML), world: World, layout: Layout, n: nat, packages: seq<PackageMetadata>)
    reads x.0, x.1, x.2
  {
    && x.0 != x.1 && x.1 != x.2 && x.2 != x.0
    && Holds(x.0, world, layout.primary, n, Primaries(packages))
    && Holds(x.1, world, layout.filelists, n, Filelists(packages))
    && Holds(x.2, world, layout.other, n, Others(packages))
  }

  /** One more fragment goes to a file. */
  method AddFragment(
    x: MetaXML, ghost world: World, ghost f: Format, ghost n: nat,
    ghost before: seq<Bytes>, fragment: Bytes, ghost after: seq<Bytes>)
    requires Holds(x, world, f, n, before) && after == before + [fragment]
    modifies x
    ensures Holds(x, world, f, n, after)
  {
    WrittenSnoc(before, fragment);
    x.Add(fragment);
  }

  lemma FragmentsSnoc(packages: seq<PackageMetadata>, i: nat)
    requires i < |packages|
    ensures Primaries(packages[..i + 1]) == Primaries(packages[..i]) + [packages[i].primary]
    ensures Filelists(packages[..i + 1]) == Filelists(packages[..i]) + [packages[i].filelists]
    ensures Others(packages[..i + 1]) == Others(packages[..i]) + [packages[i].other]
  {
  }

  /** One package of the table goes to all three files. */
  method AddPackage(
    x: (MetaXML, MetaXML, MetaXML), ghost world: World, ghost layout: Layout, ghost n: nat,
    packages: seq<PackageMetadata>, i: nat)
    requires i < |packages| && AllHold(x, world, layout, n, packages[..i])
    modifies x.0, x.1, x.2
    ensures AllHold(x, world, layout, n, packages[..i + 1])
  {
    FragmentsSnoc(packages, i);
    ghost var before, after := packages[..i], packages[..i + 1];
    AddFragment(x.0, world, layout.primary, n, Primaries(before), packages[i].primary, Primaries(after));
    AddFragment(x.1, world, layout.filelists, n, Filelists(before), packages[i].filelists, Filelists(after));
    AddFragment(x.2, world, layout.other, n, Others(before), packages[i].other, Others(after));
  }

  /** Writes and closes the three files: `count` is what the table was counted to before it was walked. */
  method WriteMains(world: World, layout: Layout, count: nat, packages: seq<PackageMetadata>) returns (mains: seq<Main>)
    ensures AreMains(world, layout, count, packages, mains)
  {
    var primary := Begin(world, layout.primary, count);
    var filelists := Begin(world, layout.filelists, count);
    var other := Begin(world, layout.other, count);
    var x := (primary, filelists, other);
    for i := 0 to |packages|
      invariant AllHold(x, world, layout, count, packages[..i])
      invariant fresh(primary) && fresh(filelists) && fresh(other)
    {
      AddPackage(x, world, layout, count, packages, i);
    }
    assert packages[..|packages|] == packages;
    var m1 := Finish(primary, world, layout.primary, count, Primaries(packages));
    var m2 := Finish(filelists, world, layout.filelists, count, Filelists(packages));
    var m3 := Finish(other, world, layout.other, count, Others(packages));
    mains := [m1, m2, m3];
  }

  /** Counts, walks, lists and pushes; the count and the walk are two queries. */
  method GenerateAndPushMetadata(
    world: World, layout: Layout, count: nat, packages: seq<PackageMetadata>, extras: seq<Extra>)
      returns (mains: seq<Main>, out: Published)
    ensures AreMains(world, layout, count, packages, mains) && out == Publish(world, mains, extras)
  {
    mains := WriteMains(world, layout, count, packages);
    out := Push(world, mains, {layout.primary.kind, layout.filelists.kind, layout.other.kind}, extras);
  }

  // ----- main results -----

  /** Checksums are written in hexadecimal. */
  ghost predicate HexHash(world: World) { forall b: Bytes :: '/' !in world.hash(b) }

  ghost predicate Injective(hash: Bytes -> string) { forall a, b | hash(a) == hash(b) :: a == b }

  lemma NoSlashInFile(kind: string)
    requires '/' !in kind
    ensures '/' !in FileOf(kind)
  {
    assert '/' !in ".xml.gz";
  }

  lemma MainLayerPushed(world: World, mains: seq<Main>, extras: seq<Extra>, i: nat)
    requires HexHash(world) && i < |mains| && '/' !in mains[i].kind
    ensures var entry := MainEntry(world, mains[i]);
            Layer(Base(entry.href), entry.checksum, entry.size, FileOf(mains[i].kind)) in Layers(world, mains, extras)
  {
    var m := mains[i];
    NoSlashInFile(m.kind);
    BaseOfHref(world.hash(m.summed), FileOf(m.kind));
    assert Layers(world, mains, extras)[|extras| + 1 + i] == MainLayer(world, m);
  }

  /** The entry says what the file is: its size and checksum, and those of its text. */
  ghost predicate Describes(world: World, entry: Entry, m: Main, text: Bytes) {
    && entry.kind == m.kind && entry.size == |m.file| && entry.checksum == world.hash(m.file)
    && entry.open == Some((world.hash(text), |text|))
  }

  /** The layer of a generated file has the checksum and size of its entry, and as its title the base of the entry's
      href; and the entry describes the file exactly when the counters kept while writing are right: the hashes were
      fed, and the sizes counted, the bytes of the file and of its text. */
  lemma MainEntryConsistentIff(world: World, mains: seq<Main>, extras: seq<Extra>, i: nat, text: Bytes)
    requires HexHash(world) && Injective(world.hash) && i < |mains| && '/' !in mains[i].kind
    ensures var out := Publish(world, mains, extras);
            && i < |out.data|
            && var entry := out.data[i];
            && entry.href == "repodata/" + entry.checksum + "-" + mains[i].kind + ".xml.gz"
            && Layer(Base(entry.href), entry.checksum, entry.size, mains[i].kind + ".xml.gz") in out.layers
            && (Describes(world, entry, mains[i], text) <==> Measured(mains[i], text))
  {
    MainLayerPushed(world, mains, extras, i);
  }

  /** The entry of a generated file describes it, and its layer has the entry's checksum as its digest, its size, and
      as its title the base of its href. */
  lemma MainEntryConsistent(
    world: World, mains: seq<Main>, extras: seq<Extra>, i: nat, f: Format, n: nat, fragments: seq<Bytes>)
    requires HexHash(world) && '/' !in f.kind && i < |mains| && IsMain(world, mains[i], f, n, fragments)
    ensures var out := Publish(world, mains, extras);
            && i < |out.data|
            && Describes(world, out.data[i], mains[i], Text(f, n, fragments))
            && Layer(Base(out.data[i].href), out.data[i].checksum, out.data[i].size, FileOf(f.kind)) in out.layers
  {
    MainLayerPushed(world, mains, extras, i);
  }

  /** So for each of the three files that WriteMains leaves, with the fragment of every package that was walked. */
  lemma ThreeFilesConsistent(
    world: World, layout: Layout, count: nat, packages: seq<PackageMetadata>, mains: seq<Main>, extras: seq<Extra>)
    requires HexHash(world) && AreMains(world, layout, count, packages, mains)
    requires '/' !in layout.primary.kind && '/' !in layout.filelists.kind && '/' !in layout.other.kind
    ensures var out := Publish(world, mains, extras);
            && |out.data| == 3 + |extras|
            && forall i :: 0 <= i < 3 ==>
                 var f, fragments := [layout.primary, layout.filelists, layout.other][i],
                                     [Primaries(packages), Filelists(packages), Others(packages)][i];
                 && Describes(world, out.data[i], mains[i], Text(f, count, fragments))
                 && Layer(Base(out.data[i].href), out.data[i].checksum, out.data[i].size, FileOf(f.kind)) in out.layers
  {
    MainEntryConsistent(world, mains, extras, 0, layout.primary, count, Primaries(packages));
    MainEntryConsistent(world, mains, extras, 1, layout.filelists, count, Filelists(packages));
    MainEntryConsistent(world, mains, extras, 2, layout.other, count, Others(packages));
  }

  /** The compressor's law: what it handed on, and its rest, unpack to what was written. */
  ghost predicate Unpacks(world: World) {
    forall chunks :: world.unpack(Emitted(world, chunks) + world.flush(Flat(chunks))) == Flat(chunks)
  }

  /** A finished file unpacks to its text. */
  lemma MainUnpacks(world: World, m: Main, f: Format, n: nat, fragments: seq<Bytes>)
    requires Unpacks(world) && IsMain(world, m, f, n, fragments)
    ensures world.unpack(m.file) == Text(f, n, fragments)
  {
    var chunks := Chunks(Header(f, n), fragments, f.footer);
    TextOf(Header(f, n), fragments, f.footer);
    assert world.unpack(Emitted(world, chunks) + world.flush(Flat(chunks))) == Flat(chunks);
  }

  /** The header holds the count, between the two parts of its format, where the walk will find it. */
  lemma HeaderHolds(f: Format, n: nat)
    ensures var h, k := Header(f, n), |Header(f, n)| - |f.after|;
            && |f.before| <= k && h[..|f.before|] == f.before && h[k..] == f.after
            && PrimaryWalk.ParseDigits(h[|f.before|..k]) == Some(n)
  {
    PrimaryWalk.DigitsParse(n);
    var d := PrimaryWalk.Decimal(n);
    assert Header(f, n)[|f.before|..|f.before| + |d|] == d;
  }

  // ----- the count and the walk -----

  /** A row of the metadata table, which is keyed by package name. */
  datatype Row = Row(id: string, metadata: PackageMetadata)
  type Table = map<string, Row>

  /** What a helper does to the table between the two queries. */
  datatype Change = Put(name: string, row: Row) | Drop(id: string)

  function WithId(t: Table, id: string): set<string> { set k | k in t && t[k].id == id }

  function Changed(t: Table, c: Change): Table {
    match c case Put(name, row) => t[name := row] case Drop(id) => t - WithId(t, id)
  }

  function After(t: Table, changes: seq<Change>): Table {
    if changes == [] then t else Changed(After(t, changes[..|changes| - 1]), changes[|changes| - 1])
  }

  /** How many puts were of names the table did not have. */
  function NewKeys(t: Table, changes: seq<Change>): nat {
    if changes == [] then 0
    else
      var front, c := changes[..|changes| - 1], changes[|changes| - 1];
      NewKeys(t, front) + if c.Put? && c.name !in After(t, front) then 1 else 0
  }

  /** How many rows the removals took. */
  function RowsDropped(t: Table, changes: seq<Change>): nat {
    if changes == [] then 0
    else
      var front, c := changes[..|changes| - 1], changes[|changes| - 1];
      RowsDropped(t, front) + if c.Drop? then |WithId(After(t, front), c.id)| else 0
  }

  lemma ChangedSize(t: Table, c: Change)
    ensures c.Put? ==> |Changed(t, c)| == |t| + if c.name in t then 0 else 1
    ensures c.Drop? ==> |Changed(t, c)| == |t| - |WithId(t, c.id)|
  {
    match c
    case Put(name, row) =>
      assert Changed(t, c).Keys == t.Keys + {name};
      assert name in t ==> t.Keys + {name} == t.Keys;
      assert |Changed(t, c).Keys| == |Changed(t, c)| && |t.Keys| == |t|;
    case Drop(id) =>
      var gone := WithId(t, id);
      assert (t - gone).Keys == t.Keys - gone && gone <= t.Keys;
      assert |t.Keys - gone| == |t.Keys| - |gone|;
      assert |(t - gone).Keys| == |t - gone| && |t.Keys| == |t|;
  }

  lemma {:induction false} SizeAfter(t: Table, changes: seq<Change>)
    ensures |After(t, changes)| == |t| + NewKeys(t, changes) - RowsDropped(t, changes)
  {
    if changes != [] {
      SizeAfter(t, changes[..|changes| - 1]);
      ChangedSize(After(t, changes[..|changes| - 1]), changes[|changes| - 1]);
    }
  }

  /** The walk lists the rows of the table, in some order. */
  ghost predicate Walks(t: Table, names: seq<string>, packages: seq<PackageMetadata>) {
    && |names| == |packages| == |t|
    && (forall i :: 0 <= i < |names| ==> names[i] in t && t[names[i]].metadata == packages[i])
    && forall i, j :: 0 <= i < j < |names| ==> names[i] != names[j]
  }

  lemma HeadersDiffer(f: Format, m: nat, n: nat)
    ensures Header(f, m) == Header(f, n) <==> m == n
  {
    if Header(f, m) == Header(f, n) {
      var a, b := PrimaryWalk.Decimal(m), PrimaryWalk.Decimal(n);
      assert |a| == |b|;
      assert Header(f, m)[|f.before|..|f.before| + |a|] == a;
      assert Header(f, n)[|f.before|..|f.before| + |b|] == b;
      PrimaryWalk.DigitsParse(m);
      PrimaryWalk.DigitsParse(n);
    }
  }

  /** The count is taken first, and helpers may change the table before it is walked: a header announces the number of
      fragments in its file exactly when as many new names were put in between as rows were dropped. */
  lemma HeaderAgreesIff(
      f: Format, counted: Table, changes: seq<Change>, names: seq<string>, packages: seq<PackageMetadata>)
    requires Walks(After(counted, changes), names, packages)
    ensures Header(f, |counted|) == Header(f, |Primaries(packages)|)
            <==> NewKeys(counted, changes) == RowsDropped(counted, changes)
  {
    SizeAfter(counted, changes);
    HeadersDiffer(f, |counted|, |Primaries(packages)|);
  }

  /** Each extra entry has a layer titled with the base of its href; the layer's digest and size are the entry's
      exactly when the metadata was recorded with the checksum and size of its data. */
  lemma ExtraEntryConsistentIff(world: World, mains: seq<Main>, extras: seq<Extra>, i: nat)
    requires i < |extras|
    ensures var out, e := Publish(world, mains, extras), extras[i];
            && |mains| + i < |out.data| && i < |out.layers|
            && var entry, l := out.data[|mains| + i], out.layers[i];
            && entry.kind == e.kind && entry.checksum == e.checksum && entry.size == e.size
            && entry.open == (if e.openSize == 0 then None else Some((e.openChecksum, e.openSize)))
            && entry.href == "repodata/" + e.checksum + "-" + e.filename
            && l.title == Base(entry.href) && l.file == e.filename
            && ('/' !in e.checksum && '/' !in e.filename ==> l.title == TitleOf(e.checksum, e.filename))
            && (l.digest == entry.checksum && l.size == entry.size <==>
                  e.checksum == world.hash(e.data) && e.size == |e.data|)
  {
    var e := extras[i];
    if '/' !in e.checksum && '/' !in e.filename { BaseOfHref(e.checksum, e.filename); }
  }

  // ----- blobs -----

  ghost predicate SameNameSameBytes(writes: seq<(string, Bytes)>) {
    forall i, j :: 0 <= i < |writes| && 0 <= j < |writes| && writes[i].0 == writes[j].0 ==> writes[i].1 == writes[j].1
  }

  lemma {:induction false} LastWriteWins(writes: seq<(string, Bytes)>, i: nat)
    requires i < |writes|
    ensures writes[i].0 in Directory(writes)
    ensures SameNameSameBytes(writes) ==> Directory(writes)[writes[i].0] == writes[i].1
  {
    var last := |writes| - 1;
    if i < last {
      LastWriteWins(writes[..last], i);
      if SameNameSameBytes(writes) {
        assert forall j :: 0 <= j < last ==> writes[..last][j] == writes[j];
        assert writes[last].0 == writes[i].0 ==> writes[last].1 == writes[i].1;
      }
    }
  }

  /** A file holds what was written to it last. */
  lemma {:induction false} DirectoryHasLast(writes: seq<(string, Bytes)>, i: nat)
    requires i < |writes| && forall j :: i < j < |writes| ==> writes[j].0 != writes[i].0
    ensures writes[i].0 in Directory(writes) && Directory(writes)[writes[i].0] == writes[i].1
  {
    var last := |writes| - 1;
    if i < last {
      assert writes[last].0 != writes[i].0;
      DirectoryHasLast(writes[..last], i);
    }
  }

  /** What the push reads for a layer is what the layer's digest was computed from. */
  ghost predicate Intact(world: World, out: Published, l: Layer) {
    l.file in out.files && world.hash(out.files[l.file]) == l.digest && |out.files[l.file]| == l.size
  }

  /** The hashes of the generated files were fed what the files hold, as AreMains says. */
  ghost predicate Hashed(mains: seq<Main>) {
    forall i :: 0 <= i < |mains| ==> mains[i].summed == mains[i].file && mains[i].size == |mains[i].file|
  }

  /** Layers and writes belong together one by one. */
  lemma LayerOfWrite(world: World, mains: seq<Main>, extras: seq<Extra>, i: nat)
    requires i < |Writes(world, mains, extras)| && Hashed(mains)
    ensures var w := Writes(world, mains, extras)[i];
            exists l :: l in Layers(world, mains, extras)
                        && l.file == w.0 && l.digest == world.hash(w.1) && l.size == |w.1|
  {
    var layers := Layers(world, mains, extras);
    var k := if i < |mains| then |extras| + 1 + i else i - |mains|;
    assert layers[k] in layers;
  }

  lemma WriteOfLayer(world: World, mains: seq<Main>, extras: seq<Extra>, k: nat) returns (i: nat)
    requires k < |Layers(world, mains, extras)| && Hashed(mains)
    ensures i < |Writes(world, mains, extras)|
    ensures var l, w := Layers(world, mains, extras)[k], Writes(world, mains, extras)[i];
            l.file == w.0 && l.digest == world.hash(w.1) && l.size == |w.1|
  {
    i := if k <= |extras| then |mains| + k else k - |extras| - 1;
  }

  /** The index is written last: its layer, which has no title, pushes the final list of entries, whatever the extra
      metadata is called. */
  lemma IndexIsFinal(world: World, mains: seq<Main>, extras: seq<Extra>)
    ensures var out := Publish(world, mains, extras);
            var index := world.encode(out.data);
            && "repomd.xml" in out.files && out.files["repomd.xml"] == index
            && Layer("", world.hash(index), |index|, "repomd.xml") in out.layers
  {
    var writes, layers := Writes(world, mains, extras), Layers(world, mains, extras);
    DirectoryHasLast(writes, |writes| - 1);
    assert layers[|extras|] in layers;
  }

  /** All blobs are what their digests say exactly when files written under one name have one content: extra metadata
      that takes the name of a generated file, or of other extra metadata, with different content, spoils a layer. */
  lemma BlobsIntactIff(world: World, mains: seq<Main>, extras: seq<Extra>)
    requires Injective(world.hash) && Hashed(mains)
    ensures var out := Publish(world, mains, extras);
            (forall l :: l in out.layers ==> Intact(world, out, l)) <==> SameNameSameBytes(Writes(world, mains, extras))
  {
    var out, writes := Publish(world, mains, extras), Writes(world, mains, extras);
    if SameNameSameBytes(writes) {
      forall l | l in out.layers ensures Intact(world, out, l) {
        var k :| 0 <= k < |out.layers| && out.layers[k] == l;
        var i := WriteOfLayer(world, mains, extras, k);
        LastWriteWins(writes, i);
      }
    }
    if forall l :: l in out.layers ==> Intact(world, out, l) {
      forall i | 0 <= i < |writes| ensures writes[i].0 in out.files && out.files[writes[i].0] == writes[i].1 {
        LayerOfWrite(world, mains, extras, i);
        var l :| l in Layers(world, mains, extras) && l.file == writes[i].0 && l.digest == world.hash(writes[i].1);
        assert Intact(world, out, l);
      }
    }
  }
}
