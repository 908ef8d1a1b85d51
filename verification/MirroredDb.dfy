/** A table kept in a local database file and mirrored to a bucket object: open, push, close, and the
    mutate-then-push helpers of the YUM and static handlers, run one at a time.

    A table maps its primary key to a row; deletions go by the row's id, which is not the key, or by the key. */
module MirroredDb {
  import opened Wrappers

  datatype Row = Row(id: string, data: string)

  type Table = map<string, Row>

  // ----- tables -----

  datatype Change = Put(key: string, row: Row) | DropId(id: string) | DropKey(key: string) | Nothing

  function Affected(t: Table, id: string): set<string> { set k | k in t && t[k].id == id }

  function Changed(t: Table, c: Change): Table {
    match c
    case Put(key, row) => t[key := row]
    case DropId(id) => t - Affected(t, id)
    case DropKey(key) => t - {key}
    case Nothing => t
  }

  function AfterAll(changes: seq<Change>): Table {
    if changes == [] then map[] else Changed(AfterAll(changes[..|changes| - 1]), changes[|changes| - 1])
  }

  /** The change ends a row under this key: it puts another there, or drops the key or the row's id. */
  predicate Ends(c: Change, key: string, row: Row) {
    (c.Put? && c.key == key) || c == DropKey(key) || c == DropId(row.id)
  }

  /** Change i put a row under the key, and nothing has ended it since. */
  ghost predicate Stands(changes: seq<Change>, key: string, i: nat) {
    && i < |changes| && changes[i].Put? && changes[i].key == key
    && forall j :: i < j < |changes| ==> !Ends(changes[j], key, changes[i].row)
  }

  lemma StandsNext(changes: seq<Change>, key: string, i: nat)
    requires i < |changes| - 1
    ensures var n := |changes| - 1;
            Stands(changes, key, i) <==> Stands(changes[..n], key, i) && !Ends(changes[n], key, changes[i].row)
  {
    var n := |changes| - 1;
    forall j | 0 <= j < n ensures changes[..n][j] == changes[j] {}
  }

  /** After any changes the table has under each key exactly the row that stands there. */
  lemma {:induction false} RowMeans(changes: seq<Change>, key: string, row: Row)
    ensures (key in AfterAll(changes) && AfterAll(changes)[key] == row) <==>
            exists i: nat :: Stands(changes, key, i) && changes[i].row == row
  {
    if changes != [] {
      var n := |changes| - 1;
      var front, c := changes[..n], changes[n];
      RowMeans(front, key, row);
      if key in AfterAll(changes) && AfterAll(changes)[key] == row {
        if c.Put? && c.key == key {
          assert Stands(changes, key, n);
        } else {
          var i: nat :| Stands(front, key, i) && front[i].row == row;
          StandsNext(changes, key, i);
        }
      }
      if i: nat :| Stands(changes, key, i) && changes[i].row == row {
        if i < n {
          StandsNext(changes, key, i);
          assert Stands(front, key, i) && front[i].row == row;
        }
      }
    }
  }

  // ----- the file, the object and the handle -----

  /** `local` is the database file, `bucket` the object, `open` whether the handle is set; `references` counts the
      sections other threads are in. */
  datatype Db = Db(local: Option<Table>, bucket: Option<Table>, open: bool, references: nat)

  const NEW_DB := Db(None, None, false, 0)

  /** What a file pulled from the bucket holds; without an object the migration creates empty tables. */
  function Pulled(db: Db): Table { if db.bucket.Some? then db.bucket.value else map[] }

  /** What a reader sees: the local file, pulled first if it is missing. */
  function Shown(db: Db): Table { if db.local.Some? then db.local.value else Pulled(db) }

  /** Losing the local file would change nothing. */
  ghost predicate Mirrored(db: Db) { Shown(db) == Pulled(db) }

  ghost predicate Valid(db: Db) { db.open ==> db.local.Some? }

  function Opened(db: Db): Db {
    if db.open then db else db.(local := Some(Shown(db)), open := true)
  }

  function Closed(db: Db, removeLocal: bool): Db {
    if db.open && db.references == 0
    then db.(open := false, local := if removeLocal then None else db.local)
    else db
  }

  /** A push of a missing file fails, but the object writer is closed all the same, which commits an object without a
      row. */
  function Pushed(db: Db): Db { db.(bucket := if db.local.Some? then db.local else Some(map[])) }

  function Added(db: Db, key: string, row: Row): Db {
    Closed(Pushed(Opened(db).(local := Some(Changed(Shown(db), Put(key, row))))), false)
  }

  /** Removal by id; the push is made only if exactly one row went away. */
  function RemovedById(db: Db, id: string): Db {
    var gone := Affected(Shown(db), id);
    var changed := Opened(db).(local := Some(Changed(Shown(db), DropId(id))));
    Closed(if |gone| == 1 then Pushed(changed) else changed, false)
  }

  function RemovedByKey(db: Db, key: string): Db {
    var changed := Opened(db).(local := Some(Changed(Shown(db), DropKey(key))));
    Closed(if key in Shown(db) then Pushed(changed) else changed, false)
  }

  /** The database object: the same operations on fields, as the handlers call them. */
  class SqliteDb {
    var local: Option<Table>
    var bucket: Option<Table>
    var open: bool
    var references: nat

    function View(): Db
      reads this
    {
      Db(local, bucket, open, references)
    }

    constructor (stored: Option<Table>)
      ensures View() == Opened(NEW_DB.(bucket := stored))
    {
      bucket := stored;
      local := Some(if stored.Some? then stored.value else map[]);
      open, references := true, 0;
    }

    method Open()
      requires Valid(View())
      modifies this`local, this`open
      ensures View() == Opened(old(View()))
      ensures open && bucket == old(bucket) && references == old(references)
      ensures local == if old(open) || old(local).Some? then old(local)
                       else if bucket.Some? then bucket else Some(map[])
    {
      if open { return; }
      if local.None? {
        local := Some(if bucket.Some? then bucket.value else map[]);
      }
      open := true;
    }

    method Sync() returns (ok: bool)
      modifies this`bucket
      ensures ok <==> local.Some?
      ensures View() == Pushed(old(View()))
      ensures bucket == if local.Some? then local else Some(map[])
    {
      ok := local.Some?;
      bucket := if ok then local else Some(map[]);
    }

    method Close(removeLocal: bool)
      modifies this`local, this`open
      ensures View() == Closed(old(View()), removeLocal)
      ensures old(open) && references == 0 ==> !open && local == if removeLocal then None else old(local)
      ensures !(old(open) && references == 0) ==> open == old(open) && local == old(local)
      ensures bucket == old(bucket) && references == old(references)
    {
      if open && references == 0 {
        open := false;
        if removeLocal {
          local := None;
        }
      }
    }

    /** AddPackage, AddFile and AddExtraMetadata, with their handler's push and close. */
    method Add(key: string, row: Row)
      requires Valid(View())
      modifies this
      ensures View() == Added(old(View()), key, row)
      ensures local.Some? && bucket == local && references == old(references)
      ensures key in local.value && local.value[key] == row
      ensures open == (references > 0)
    {
      references := references + 1;
      Open();
      local := Some(local.value[key := row]);
      references := references - 1;
      var ok := Sync();
      Close(false);
    }

    /** RemovePackage with its handler's conditional push and close. */
    method RemoveById(id: string) returns (deleted: bool)
      requires Valid(View())
      modifies this
      ensures deleted <==> |Affected(Shown(old(View())), id)| == 1
      ensures View() == RemovedById(old(View()), id)
      ensures local.Some? && (forall k :: k in local.value ==> local.value[k].id != id)
      ensures references == old(references) && open == (references > 0)
      ensures !deleted ==> bucket == old(bucket)
      ensures deleted ==> bucket == local
    {
      references := references + 1;
      Open();
      var gone := Affected(local.value, id);
      local := Some(local.value - gone);
      references := references - 1;
      deleted := |gone| == 1;
      if deleted {
        var ok := Sync();
      }
      Close(false);
    }
  }

  // ----- whole histories -----

  /** `Wipe` is a restart: local files are removed and no section survives. Enter and Leave are other threads'
      sections. */
  datatype Op =
    | Add(key: string, row: Row) | RemoveId(id: string) | RemoveKey(key: string)
    | Reopen | CloseDb(removeLocal: bool) | Enter | Leave | Wipe

  function Step(db: Db, op: Op): Db {
    match op
    case Add(key, row) => Added(db, key, row)
    case RemoveId(id) => RemovedById(db, id)
    case RemoveKey(key) => RemovedByKey(db, key)
    case Reopen => Opened(db)
    case CloseDb(removeLocal) => Closed(db, removeLocal)
    case Enter => db.(references := db.references + 1)
    case Leave => if db.references > 0 then db.(references := db.references - 1) else db
    case Wipe => db.(local := None, open := false, references := 0)
  }

  function RunOps(ops: seq<Op>): Db {
    if ops == [] then NEW_DB else Step(RunOps(ops[..|ops| - 1]), ops[|ops| - 1])
  }

  function ChangeOf(op: Op): Change {
    match op
    case Add(key, row) => Put(key, row)
    case RemoveId(id) => DropId(id)
    case RemoveKey(key) => DropKey(key)
    case _ => Nothing
  }

  function ChangesOf(ops: seq<Op>): seq<Change> { seq(|ops|, i requires 0 <= i < |ops| => ChangeOf(ops[i])) }

  /** The same history on a plain table that knows of no files, handles or bucket. */
  function Plain(ops: seq<Op>): Table { AfterAll(ChangesOf(ops)) }

  lemma PlainNext(ops: seq<Op>)
    requires ops != []
    ensures Plain(ops) == Changed(Plain(ops[..|ops| - 1]), ChangeOf(ops[|ops| - 1]))
  {
    assert ChangesOf(ops)[..|ops| - 1] == ChangesOf(ops[..|ops| - 1]);
  }

  /** An id names one key: a package's tag is computed from the content its id is the digest of. */
  ghost predicate OneKeyPerId(ops: seq<Op>) {
    forall i, j :: 0 <= i < |ops| && 0 <= j < |ops| && ops[i].Add? && ops[j].Add? && ops[i].row.id == ops[j].row.id
      ==> ops[i].key == ops[j].key
  }

  lemma RowsWereAdded(ops: seq<Op>, key: string) returns (i: nat)
    requires key in Plain(ops)
    ensures i < |ops| && ops[i] == Add(key, Plain(ops)[key])
  {
    RowMeans(ChangesOf(ops), key, Plain(ops)[key]);
    i :| Stands(ChangesOf(ops), key, i) && ChangesOf(ops)[i].row == Plain(ops)[key];
  }

  lemma AtMostOneAffected(ops: seq<Op>, id: string)
    requires OneKeyPerId(ops)
    ensures |Affected(Plain(ops), id)| <= 1
  {
    var gone := Affected(Plain(ops), id);
    if k :| k in gone {
      forall k' | k' in gone ensures k' == k {
        var i := RowsWereAdded(ops, k);
        var j := RowsWereAdded(ops, k');
      }
      assert gone == {k};
    }
  }

  /** A removal by id leaves the bucket in step exactly when the id names at most one row. */
  lemma RemovalMirroredIff(db: Db, id: string)
    requires Valid(db) && Mirrored(db)
    ensures Mirrored(RemovedById(db, id)) <==> |Affected(Shown(db), id)| <= 1
  {
    var t := Shown(db);
    var gone := Affected(t, id);
    if |gone| == 0 {
      assert t - gone == t;
    } else if |gone| >= 2 {
      var k :| k in gone;
      assert k in t && k !in t - gone;
    }
  }

  /** Durable round trip: after any history of helper calls, closes with or without removal of the file, reopens,
      sections of other threads and restarts, a reader sees what the plain table holds, and so does a fresh pull. */
  lemma {:induction false} DurableRoundTrip(ops: seq<Op>)
    requires OneKeyPerId(ops)
    ensures Valid(RunOps(ops)) && Mirrored(RunOps(ops))
    ensures Shown(RunOps(ops)) == Pulled(RunOps(ops)) == Plain(ops)
  {
    if ops != [] {
      var before := ops[..|ops| - 1];
      DurableRoundTrip(before);
      PlainNext(ops);
      var last := ops[|ops| - 1];
      if last.RemoveId? {
        AtMostOneAffected(before, last.id);
        RemovalMirroredIff(RunOps(before), last.id);
      } else if last.RemoveKey? {
        var t := Plain(before);
        if last.key !in t { assert t - {last.key} == t; }
      }
    }
  }

  /** What readers and fresh pulls see, in terms of the calls alone: a row is there exactly if some call put it and no
      later one put another under its key or removed its key or its id. */
  lemma ShownMeans(ops: seq<Op>, key: string, row: Row)
    requires OneKeyPerId(ops)
    ensures var t := Shown(RunOps(ops));
            && t == Pulled(RunOps(ops))
            && ((key in t && t[key] == row) <==>
                  exists i: nat :: Stands(ChangesOf(ops), key, i) && ops[i] == Add(key, row))
  {
    DurableRoundTrip(ops);
    RowMeans(ChangesOf(ops), key, row);
    forall i: nat | Stands(ChangesOf(ops), key, i) ensures ops[i] == Add(key, ChangesOf(ops)[i].row) {}
  }

  /** A section protects the handle: as long as some thread is inside one, an open handle stays open and its file
      stays, whatever the calls, closes with removal included. */
  lemma {:induction false} SectionProtects(ops: seq<Op>, k: nat)
    requires k <= |ops| && RunOps(ops[..k]).open && RunOps(ops[..k]).local.Some?
    requires forall i :: k <= i < |ops| ==> RunOps(ops[..i]).references > 0 && !ops[i].Wipe?
    ensures RunOps(ops).open && RunOps(ops).local.Some?
    decreases |ops| - k
  {
    if k == |ops| {
      assert ops[..k] == ops;
    } else {
      var before := ops[..|ops| - 1];
      forall i | k <= i < |before| ensures RunOps(before[..i]).references > 0 && !before[i].Wipe? {
        assert before[..i] == ops[..i];
      }
      assert before[..k] == ops[..k];
      SectionProtects(before, k);
      assert RunOps(ops[..|ops| - 1]).references > 0;
    }
  }

  /** And outside of sections a close closes: the handle is cleared exactly if it was set and nobody is inside, and the
      file goes exactly then, if asked. */
  lemma CloseIff(db: Db, removeLocal: bool)
    requires Valid(db)
    ensures var after := Step(db, CloseDb(removeLocal));
            && after.bucket == db.bucket && after.references == db.references
            && (after.open <==> db.open && db.references > 0)
            && (after.local != db.local <==> db.open && db.references == 0 && removeLocal)
  {
  }

  /** Two keys with one id: the removal never reaches the bucket and a restart brings both rows back. */
  lemma SharedIdComesBack(k1: string, k2: string, id: string, data: string)
    requires k1 != k2
    ensures var ops := [Add(k1, Row(id, data)), Add(k2, Row(id, data)), RemoveId(id)];
            Shown(RunOps(ops)) == map[] && k1 in Shown(RunOps(ops + [Wipe])) && k2 in Shown(RunOps(ops + [Wipe]))
  {
    var row := Row(id, data);
    var o1, o2 := [Add(k1, row)], [Add(k1, row), Add(k2, row)];
    var ops := o2 + [RemoveId(id)];
    assert o1[..0] == [] && o2[..1] == o1 && ops[..2] == o2 && (ops + [Wipe])[..3] == ops;
    var t := map[k1 := row, k2 := row];
    assert RunOps(o1) == Added(NEW_DB, k1, row);
    assert Shown(RunOps(o2)) == Pulled(RunOps(o2)) == t;
    assert Affected(t, id) == {k1, k2};
    assert t - {k1, k2} == map[];
    assert ops == [Add(k1, row), Add(k2, row), RemoveId(id)];
  }
}
