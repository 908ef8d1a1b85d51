/** The two tables of the static plugin and the effect of one event on them.

    A row's tag is the md5 of its file name. It travels with the event here, so nothing below depends on
    what md5 computes. Timestamps are left out: the upload time of a row and the creation time of a history entry. */
module StaticTables {
  import opened Wrappers

  datatype Action = Put | Delete | OtherAction

  /** The static file layer of a manifest. */
  datatype FileLayer = FileLayer(tag: string, hex: string, name: string, size: nat)

  datatype Manifest = Manifest(isStaticFile: bool, layer: Option<FileLayer>)

  /** An event and what its payload parses to; `None` is a payload that does not parse. */
  datatype Event = Event(digest: string, action: Action, manifest: Option<Manifest>) {
    predicate Malformed() { manifest.None? }

    /** Primary key of the event's row. */
    function Id(): (string, Action) { (digest, action) }
  }

  datatype Row = Row(id: string, name: string, size: nat)

  datatype HistoryEntry =
    | Updated(tag: string, name: string, fileId: string, newFileId: string)
    | Removed(tag: string, name: string, fileId: string)

  /** The files table and the history its triggers write. */
  datatype Repo = Repo(files: map<string, Row>, history: seq<HistoryEntry>)

  const EMPTY_REPO := Repo(map[], [])

  function AddFile(repo: Repo, tag: string, row: Row): Repo {
    var changed := tag in repo.files && repo.files[tag].id != row.id;
    Repo(repo.files[tag := row],
         if changed then repo.history + [Updated(tag, repo.files[tag].name, repo.files[tag].id, row.id)]
         else repo.history)
  }

  function RemoveFile(repo: Repo, tag: string): Repo {
    if tag in repo.files
    then Repo(repo.files - {tag}, repo.history + [Removed(tag, repo.files[tag].name, repo.files[tag].id)])
    else repo
  }

  /** The file an event acts on, if it acts on any. */
  function Target(e: Event): Option<FileLayer> {
    if e.manifest.Some? && e.manifest.value.isStaticFile && !e.action.OtherAction?
    then e.manifest.value.layer
    else None
  }

  function Effect(e: Event, repo: Repo): Repo {
    match Target(e)
    case None => repo
    case Some(f) =>
      if e.action.Put? then AddFile(repo, f.tag, Row(f.hex, f.name, f.size)) else RemoveFile(repo, f.tag)
  }

  /** Whether the helper that carries out the effect pushes the table to the bucket: always after an insertion,
      after a deletion only if a row was deleted. */
  predicate Pushes(e: Event, repo: Repo) {
    Target(e).Some? && (e.action.Put? || Target(e).value.tag in repo.files)
  }

  /** Every event applied once, in order. */
  function ApplyAll(events: seq<Event>): Repo {
    if events == [] then EMPTY_REPO
    else Effect(events[|events| - 1], ApplyAll(events[..|events| - 1]))
  }

  /** A second delivery of the last event leaves no trace, not even in the history. */
  lemma EffectIdempotent(e: Event, repo: Repo)
    ensures Effect(e, Effect(e, repo)) == Effect(e, repo)
  {
    var once := Effect(e, repo);
    if Target(e).Some? && e.action.Put? {
      var f := Target(e).value;
      assert once.files[f.tag := Row(f.hex, f.name, f.size)] == once.files;
    }
  }

  // ----- what a history of events means, in terms of the events alone -----

  /** The event puts or deletes the file with this tag: its payload parses, is a static file with its layer, and the
      action is one of the two. */
  predicate ActsOn(e: Event, tag: string) {
    && (e.action.Put? || e.action.Delete?)
    && e.manifest.Some? && e.manifest.value.isStaticFile
    && e.manifest.value.layer.Some? && e.manifest.value.layer.value.tag == tag
  }

  /** The file as the last event that acts on it left it. */
  function Standing(events: seq<Event>, tag: string): Option<FileLayer> {
    if events == [] then None
    else
      var e := events[|events| - 1];
      if ActsOn(e, tag) then (if e.action.Put? then e.manifest.value.layer else None)
      else Standing(events[..|events| - 1], tag)
  }

  /** What one more event adds to the history: the old name and id, and the new id, if it replaces a file by one with
      another id; the old name and id if it deletes a file that is there. */
  function EntryFor(events: seq<Event>, e: Event): seq<HistoryEntry> {
    if !(e.manifest.Some? && e.manifest.value.layer.Some? && ActsOn(e, e.manifest.value.layer.value.tag)) then []
    else
      var f := e.manifest.value.layer.value;
      match Standing(events, f.tag)
      case None => []
      case Some(was) =>
        if e.action.Delete? then [Removed(f.tag, was.name, was.hex)]
        else if was.hex != f.hex then [Updated(f.tag, was.name, was.hex, f.hex)]
        else []
  }

  function HistoryOf(events: seq<Event>): seq<HistoryEntry> {
    if events == [] then []
    else HistoryOf(events[..|events| - 1]) + EntryFor(events[..|events| - 1], events[|events| - 1])
  }

  /** The files table holds exactly what stands. */
  ghost predicate HoldsStanding(files: map<string, Row>, events: seq<Event>) {
    forall tag :: (tag in files <==> Standing(events, tag).Some?)
                  && (tag in files ==> var f := Standing(events, tag).value; files[tag] == Row(f.hex, f.name, f.size))
  }

  lemma EffectMeans(e: Event, repo: Repo, events: seq<Event>)
    requires HoldsStanding(repo.files, events)
    ensures HoldsStanding(Effect(e, repo).files, events + [e])
    ensures Effect(e, repo).history == repo.history + EntryFor(events, e)
  {
    assert (events + [e])[..|events|] == events;
    forall tag ensures Standing(events + [e], tag) ==
                       if ActsOn(e, tag) then (if e.action.Put? then e.manifest.value.layer else None)
                       else Standing(events, tag) {}
  }

  /** Applying events in order leaves, for every tag, what the last event that acts on it says, and nothing else; and a
      history with one entry for every replacement by another id and every deletion of a file that was there, in
      order. */
  lemma {:induction false} ApplyAllMeans(events: seq<Event>)
    ensures HoldsStanding(ApplyAll(events).files, events)
    ensures ApplyAll(events).history == HistoryOf(events)
  {
    if events != [] {
      var front, e := events[..|events| - 1], events[|events| - 1];
      ApplyAllMeans(front);
      EffectMeans(e, ApplyAll(front), front);
      assert front + [e] == events;
    }
  }

  /** Event i is the last that acts on the file. */
  ghost predicate LastOn(events: seq<Event>, tag: string, i: nat) {
    i < |events| && ActsOn(events[i], tag) && forall j :: i < j < |events| ==> !ActsOn(events[j], tag)
  }

  /** What stands is the layer of the last event that acts on the file, if that is a Put. */
  lemma {:induction false} StandingMeans(events: seq<Event>, tag: string, f: FileLayer)
    ensures Standing(events, tag) == Some(f) <==>
            exists i: nat ::
              LastOn(events, tag, i) && events[i].action.Put? && events[i].manifest.value.layer == Some(f)
  {
    if events != [] {
      var n := |events| - 1;
      var front, e := events[..n], events[n];
      StandingMeans(front, tag, f);
      if ActsOn(e, tag) {
        assert LastOn(events, tag, n);
      } else {
        forall i: nat ensures LastOn(events, tag, i) <==> LastOn(front, tag, i) {
          if i < n { assert front[i] == events[i]; }
        }
        if i: nat :| LastOn(front, tag, i) && front[i].action.Put? && front[i].manifest.value.layer == Some(f) {
          assert LastOn(events, tag, i);
        }
        if i: nat :| LastOn(events, tag, i) && events[i].action.Put? && events[i].manifest.value.layer == Some(f) {
          assert LastOn(front, tag, i) && front[i] == events[i];
        }
      }
    }
  }

  // ----- the events table of the status database, rows in insertion order -----

  function Ids(rows: seq<Event>): set<(string, Action)> { set i | 0 <= i < |rows| :: rows[i].Id() }

  ghost predicate DistinctIds(rows: seq<Event>) {
    forall i, j :: 0 <= i < j < |rows| ==> rows[i].Id() != rows[j].Id()
  }

  /** An insertion under an existing key updates that row in place. */
  function UpsertEvent(rows: seq<Event>, e: Event): seq<Event> {
    if rows == [] then [e]
    else if rows[0].Id() == e.Id() then [e] + rows[1..]
    else [rows[0]] + UpsertEvent(rows[1..], e)
  }

  function DeleteEvent(rows: seq<Event>, id: (string, Action)): seq<Event> {
    if rows == [] then []
    else if rows[0].Id() == id then DeleteEvent(rows[1..], id)
    else [rows[0]] + DeleteEvent(rows[1..], id)
  }

  /** The events whose payload does not parse. */
  function MalformedOf(rows: seq<Event>): seq<Event> {
    if rows == [] then []
    else if rows[|rows| - 1].Malformed() then MalformedOf(rows[..|rows| - 1]) + [rows[|rows| - 1]]
    else MalformedOf(rows[..|rows| - 1])
  }

  lemma {:induction false} UpsertFresh(rows: seq<Event>, e: Event)
    requires e.Id() !in Ids(rows)
    ensures UpsertEvent(rows, e) == rows + [e]
  {
    if rows != [] {
      assert rows[0].Id() in Ids(rows);
      assert Ids(rows[1..]) <= Ids(rows) by {
        forall i | 0 <= i < |rows[1..]| ensures rows[1..][i].Id() in Ids(rows) { assert rows[1..][i] == rows[i + 1]; }
      }
      UpsertFresh(rows[1..], e);
      assert [rows[0]] + (rows[1..] + [e]) == rows + [e];
    }
  }

  /** Storing an event replaces, in its place, the row with its digest and action, and is appended if there is none. */
  lemma {:induction false} UpsertMeans(rows: seq<Event>, e: Event, i: nat)
    requires i <= |rows| && (i < |rows| ==> rows[i].digest == e.digest && rows[i].action == e.action)
    requires forall j :: 0 <= j < i ==> rows[j].digest != e.digest || rows[j].action != e.action
    ensures UpsertEvent(rows, e) == if i < |rows| then rows[i := e] else rows + [e]
  {
    if i > 0 {
      UpsertMeans(rows[1..], e, i - 1);
      assert [rows[0]] + (rows[1..] + [e]) == rows + [e];
      assert i < |rows| ==> [rows[0]] + rows[1..][i - 1 := e] == rows[i := e];
    }
  }

  /** Removing an event takes out exactly the rows with its digest and action, and keeps the others in order. */
  lemma {:induction false} DeleteMeans(rows: seq<Event>, e: Event, x: Event)
    ensures x in DeleteEvent(rows, e.Id()) <==> x in rows && !(x.digest == e.digest && x.action == e.action)
  {
    if rows != [] {
      DeleteMeans(rows[1..], e, x);
      assert rows == [rows[0]] + rows[1..];
    }
  }

  lemma {:induction false} DeleteMissing(rows: seq<Event>, id: (string, Action))
    requires forall i :: 0 <= i < |rows| ==> rows[i].Id() != id
    ensures DeleteEvent(rows, id) == rows
  {
    if rows != [] {
      DeleteMissing(rows[1..], id);
    }
  }

  lemma {:induction false} DeleteAt(before: seq<Event>, e: Event, after: seq<Event>)
    requires DistinctIds(before + [e] + after)
    ensures DeleteEvent(before + [e] + after, e.Id()) == before + after
    ensures DistinctIds(before + after)
  {
    var rows := before + [e] + after;
    forall i, j | 0 <= i < j < |before + after| ensures (before + after)[i].Id() != (before + after)[j].Id() {
      var i' := if i < |before| then i else i + 1;
      var j' := if j < |before| then j else j + 1;
      assert rows[i'] == (before + after)[i] && rows[j'] == (before + after)[j];
    }
    if before == [] {
      assert rows[0] == e && rows[1..] == after;
      forall i | 0 <= i < |after| ensures after[i].Id() != e.Id() { assert rows[i + 1] == after[i]; }
      DeleteMissing(after, e.Id());
      assert before + after == after;
    } else {
      assert rows[0] == before[0] && rows[|before|] == e;
      assert rows[1..] == before[1..] + [e] + after;
      forall i, j | 0 <= i < j < |rows[1..]| ensures rows[1..][i].Id() != rows[1..][j].Id() {
        assert rows[1..][i] == rows[i + 1] && rows[1..][j] == rows[j + 1];
      }
      DeleteAt(before[1..], e, after);
      assert [before[0]] + (before[1..] + after) == before + after;
    }
  }

  lemma {:induction false} MalformedOfAll(rows: seq<Event>)
    ensures forall e :: e in MalformedOf(rows) ==> e.Malformed()
  {
    if rows != [] { MalformedOfAll(rows[..|rows| - 1]); }
  }
}
