/**
 * `FileVersions`: the `file_uploads` table as a map from row id to row, and
 * the versioning operations over it: first upload, new version, pruning of
 * old versions, restore, update and delete.  A failed database statement
 * rolls the whole transaction back.
 */
module FileVersions {
  import opened Wrappers
  import Text
  import opened FileRecords
  import ConfigService
  import Metadata

  /** Rows by primary key. */
  type Table = map<nat, FileRecord>

  /** One `(id, version)` pair as the pruning query selects it. */
  type IdVersion = (nat, int)

  /** Each row is stored under its own id. */
  predicate WellKeyed(rows: Table)
  {
    forall id :: id in rows ==> rows[id].id == id
  }

  /** The single-column unique constraint on `s3_key`. */
  predicate UniqueKeys(rows: Table)
  {
    forall a, b :: a in rows && b in rows && rows[a].data.s3Key == rows[b].data.s3Key ==> a == b
  }

  /** At most one current row per original filename. */
  predicate OneCurrentPerFilename(rows: Table)
  {
    forall a, b :: (a in rows && b in rows && rows[a].isCurrent && rows[b].isCurrent &&
                    rows[a].data.originalFilename == rows[b].data.originalFilename) ==> a == b
  }

  /** The current row of a filename has the highest version of that filename. */
  predicate CurrentIsLatest(rows: Table)
  {
    forall a, b :: (a in rows && b in rows && rows[a].isCurrent &&
                    rows[a].data.originalFilename == rows[b].data.originalFilename) ==> rows[b].version <= rows[a].version
  }

  /** Rows with a given original filename. */
  function NamedIds(rows: Table, f: string): set<nat>
  {
    set id | id in rows && rows[id].data.originalFilename == f
  }

  /** Current rows with a given original filename. */
  function CurrentIds(rows: Table, f: string): set<nat>
  {
    set id | id in rows && rows[id].isCurrent && rows[id].data.originalFilename == f
  }

  /** Whether some row already uses an S3 key. */
  predicate KeyTaken(rows: Table, key: string)
  {
    exists id :: id in rows && rows[id].data.s3Key == key
  }

  /** What `scalar_one_or_none` gives for a query's matching rows. */
  datatype Lookup = NoRow | OneRow(id: nat) | ManyRows

  ghost function ScalarOneOrNone(s: set<nat>): (l: Lookup)
    ensures l.NoRow? <==> s == {}
    ensures l.OneRow? <==> |s| == 1
    ensures l.OneRow? ==> s == {l.id}
  {
    if s == {} then NoRow
    else if |s| == 1 then
      var id :| id in s;
      assert |s - {id}| == 0;
      OneRow(id)
    else ManyRows
  }

  /** `int(user_id) if user_id and user_id.isdigit() else None` */
  function ParseUserId(u: string): (r: Option<int>)
    ensures r.Some? <==> Text.IsDigits(u)
    ensures r.Some? ==> r.value >= 0
  {
    if u != "" && Text.IsDigits(u) then Some(Text.DigitsValue(u)) else None
  }

  /**
   * `max_versions or 10` followed by the comparison with the row count: a
   * missing or falsy setting means 10, an integer or `True` is used as it
   * is, and any other value makes the comparison or the slice raise (a float
   * compares but cannot slice), so nothing is pruned (`None`).
   */
  function MaxVersions(config: Option<ConfigService.ConfigValue>): (m: Option<int>)
    ensures config.None? || !config.value.Truthy() ==> m == Some(10)
    ensures config.Some? && config.value.IntValue? && config.value.i != 0 ==> m == Some(config.value.i)
    ensures config.Some? && config.value.StringValue? && config.value.s != "" ==> m == None
  {
    if config.None? || !config.value.Truthy() then Some(10)
    else
      match config.value
      case IntValue(i) => Some(i)
      case BoolValue(_) => Some(1)
      case JsonValue(j) =>
        (match j
         case JNumber(n) => Some(n)
         case JBool(_) => Some(1)
         case _ => None)
      case StringValue(_) => None
      case FloatValue(_) => None
  }

  /** The start index of Python's `s[m:]` for a sequence of length `n`. */
  function SliceStart(n: nat, m: int): (s: nat)
    ensures s <= n
    ensures 0 <= m <= n ==> s == m
  {
    if m >= 0 then (if m <= n then m else n)
    else if n + m >= 0 then n + m else 0
  }

  /**
   * The pruning query's answer: each row of the filename once, as its
   * `(id, version)`, in descending version order.
   */
  predicate VersionOrder(ordered: seq<IdVersion>, rows: Table, f: string)
  {
    (forall i :: 0 <= i < |ordered| ==>
       ordered[i].0 in NamedIds(rows, f) && rows[ordered[i].0].version == ordered[i].1) &&
    (forall id :: id in NamedIds(rows, f) ==> exists i :: 0 <= i < |ordered| && ordered[i].0 == id) &&
    (forall i, j :: 0 <= i < j < |ordered| ==> ordered[i].0 != ordered[j].0 && ordered[j].1 <= ordered[i].1)
  }

  function IdsOf(s: seq<IdVersion>): set<nat>
  {
    set i | 0 <= i < |s| :: s[i].0
  }

  /** Every parent a row names is a row of the table (the `parent_version_id` foreign key). */
  predicate ParentsPresent(rows: Table)
  {
    forall id :: id in rows && rows[id].parentVersionId.Some? ==> rows[id].parentVersionId.value in rows
  }

  /** A row whose parent the table lacks, which the foreign key refuses. */
  predicate ParentMissing(rows: Table, row: FileRecord)
  {
    row.parentVersionId.Some? && row.parentVersionId.value !in rows
  }

  /** `ON DELETE SET NULL`: a row whose parent is deleted loses its parent. */
  function Orphaned(r: FileRecord, d: set<nat>): (o: FileRecord)
    ensures o.id == r.id && o.data == r.data && o.version == r.version && o.isCurrent == r.isCurrent
  {
    if r.parentVersionId.Some? && r.parentVersionId.value in d then r.(parentVersionId := None) else r
  }

  /** Deleting the rows with the given ids. */
  function DeleteIds(rows: Table, d: set<nat>): (r: Table)
    ensures forall id :: id in r <==> id in rows && id !in d
    ensures forall id :: id in r ==>
      r[id].id == rows[id].id && r[id].data == rows[id].data && r[id].version == rows[id].version &&
      r[id].isCurrent == rows[id].isCurrent
  {
    map id | id in rows && id !in d :: Orphaned(rows[id], rows.Keys * d)
  }

  /** What deletion does to a kept row depends only on the rows it removed. */
  lemma DeleteIdsRemoved(rows: Table, d: set<nat>)
    ensures var after := DeleteIds(rows, d);
      forall id :: id in after ==> after[id] == Orphaned(rows[id], rows.Keys - after.Keys)
  {
    assert rows.Keys - DeleteIds(rows, d).Keys == rows.Keys * d;
  }

  /**
   * Deleting rows keeps the others, changing nothing in them but a parent
   * that was deleted, which becomes null; so no parent names a deleted row,
   * and a table whose parents were all present still has them all present.
   */
  lemma DeleteIdsEffect(rows: Table, d: set<nat>)
    ensures var after := DeleteIds(rows, d);
      (forall id :: id in after ==>
         after[id].(parentVersionId := rows[id].parentVersionId) == rows[id] &&
         (after[id].parentVersionId.Some? <==>
            rows[id].parentVersionId.Some? && rows[id].parentVersionId.value !in rows.Keys * d) &&
         (after[id].parentVersionId.Some? ==> after[id].parentVersionId == rows[id].parentVersionId)) &&
      (ParentsPresent(rows) ==> ParentsPresent(after))
  {
    var after := DeleteIds(rows, d);
    forall id | id in after && after[id].parentVersionId.Some? && ParentsPresent(rows)
      ensures after[id].parentVersionId.value in after
    {
      assert rows[id].parentVersionId.value in rows;
    }
  }

  /**
   * `_cleanup_old_versions`: when the filename has at least `max` rows, the
   * rows after the first `max` in version order are deleted and their number
   * returned; otherwise, or when the comparison raises, nothing is deleted.
   * A negative `max` counts from the end, as Python's slice does.
   */
  function Cleanup(rows: Table, ordered: seq<IdVersion>, max: Option<int>): (Table, nat)
  {
    if max.None? || |ordered| < max.value then (rows, 0)
    else
      var s := SliceStart(|ordered|, max.value);
      if s == |ordered| then (rows, 0)
      else (DeleteIds(rows, IdsOf(ordered[s..])), |ordered| - s)
  }

  lemma {:induction false} DistinctIdsCard(s: seq<IdVersion>)
    requires forall i, j :: 0 <= i < j < |s| ==> s[i].0 != s[j].0
    ensures |IdsOf(s)| == |s|
  {
    if s != [] {
      DistinctIdsCard(s[1..]);
      assert IdsOf(s) == {s[0].0} + IdsOf(s[1..]) by {
        forall x | x in IdsOf(s) ensures x in {s[0].0} + IdsOf(s[1..]) {
          var i :| 0 <= i < |s| && s[i].0 == x;
          if i > 0 { assert s[1..][i - 1].0 == x; }
        }
        forall x | x in IdsOf(s[1..]) ensures x in IdsOf(s) {
          var i :| 0 <= i < |s[1..]| && s[1..][i].0 == x;
          assert s[i + 1].0 == x;
        }
      }
      forall i | 0 <= i < |s[1..]| ensures s[1..][i].0 != s[0].0 {
        assert s[1..][i] == s[i + 1];
      }
    }
  }

  /** A query answer in version order lists exactly the filename's rows. */
  lemma OrderedCoversNamed(ordered: seq<IdVersion>, rows: Table, f: string)
    requires VersionOrder(ordered, rows, f)
    ensures IdsOf(ordered) == NamedIds(rows, f)
    ensures |NamedIds(rows, f)| == |ordered|
  {
    forall id | id in NamedIds(rows, f) ensures id in IdsOf(ordered) {
      var i :| 0 <= i < |ordered| && ordered[i].0 == id;
    }
    DistinctIdsCard(ordered);
  }

  lemma SubsetCard(a: set<nat>, d: set<nat>)
    requires d <= a
    ensures |a - d| == |a| - |d|
  {
    assert a == (a - d) + d;
    assert (a - d) * d == {};
  }

  /** The rows listed after position `s` are rows of the filename. */
  lemma DeletedAreNamed(rows: Table, f: string, ordered: seq<IdVersion>, s: nat)
    requires VersionOrder(ordered, rows, f) && s <= |ordered|
    ensures IdsOf(ordered[s..]) <= NamedIds(rows, f)
  {
    OrderedCoversNamed(ordered, rows, f);
    forall x | x in IdsOf(ordered[s..]) ensures x in NamedIds(rows, f) {
      var i :| 0 <= i < |ordered[s..]| && ordered[s..][i].0 == x;
      assert ordered[s + i].0 == x;
    }
  }

  /** Deleting the rows listed after position `s` leaves exactly the first `s` rows of the filename. */
  lemma PrunedCount(rows: Table, f: string, ordered: seq<IdVersion>, s: nat)
    requires VersionOrder(ordered, rows, f) && s <= |ordered|
    ensures IdsOf(ordered[s..]) <= NamedIds(rows, f)
    ensures NamedIds(DeleteIds(rows, IdsOf(ordered[s..])), f) == NamedIds(rows, f) - IdsOf(ordered[s..])
    ensures |NamedIds(DeleteIds(rows, IdsOf(ordered[s..])), f)| == s
  {
    OrderedCoversNamed(ordered, rows, f);
    var d := IdsOf(ordered[s..]);
    DeletedAreNamed(rows, f, ordered, s);
    DistinctIdsCard(ordered[s..]);
    SubsetCard(NamedIds(rows, f), d);
  }

  /** Every kept row of the filename has a version at least that of every deleted one. */
  lemma PrunedKeepsNewest(rows: Table, f: string, ordered: seq<IdVersion>, s: nat)
    requires VersionOrder(ordered, rows, f) && s <= |ordered|
    ensures forall a, b :: a in NamedIds(rows, f) - IdsOf(ordered[s..]) && b in IdsOf(ordered[s..]) ==>
      rows[b].version <= rows[a].version
  {
    OrderedCoversNamed(ordered, rows, f);
    var d := IdsOf(ordered[s..]);
    forall a, b | a in NamedIds(rows, f) - d && b in d
      ensures rows[b].version <= rows[a].version
    {
      var i :| 0 <= i < |ordered| && ordered[i].0 == a;
      var j :| 0 <= j < |ordered[s..]| && ordered[s..][j].0 == b;
      assert ordered[s + j].0 == b;
    }
  }

  /**
   * With `max >= 1`, pruning leaves `min(count, max)` rows of the filename,
   * keeps the highest versions, reports how many it deleted, and leaves the
   * rows of every other filename in place; a kept row changes only by losing
   * a parent that was deleted.
   */
  lemma CleanupKeepsNewest(rows: Table, f: string, ordered: seq<IdVersion>, m: int)
    requires VersionOrder(ordered, rows, f) && m >= 1
    ensures var (after, deleted) := Cleanup(rows, ordered, Some(m));
      var n := |NamedIds(rows, f)|;
      |NamedIds(after, f)| == (if n < m then n else m) &&
      deleted == n - |NamedIds(after, f)| &&
      NamedIds(after, f) <= NamedIds(rows, f) &&
      (forall a, b :: a in NamedIds(after, f) && b in NamedIds(rows, f) - NamedIds(after, f) ==>
         rows[b].version <= rows[a].version) &&
      (forall id :: id in rows && rows[id].data.originalFilename != f ==> id in after) &&
      (forall id :: id in after ==> id in rows && after[id] == Orphaned(rows[id], rows.Keys - after.Keys))
  {
    OrderedCoversNamed(ordered, rows, f);
    var n := |ordered|;
    if n >= m {
      var s := SliceStart(n, m);
      var d := IdsOf(ordered[s..]);
      PrunedCount(rows, f, ordered, s);
      PrunedKeepsNewest(rows, f, ordered, s);
      DeleteIdsRemoved(rows, d);
    }
  }

  /** The table after an operation, the next serial id, the row written and the status code. */
  datatype Outcome = Outcome(rows: Table, nextId: nat, written: Option<FileRecord>, code: int)

  /** The previous current row, marked as no longer current. */
  function Demote(rows: Table, id: nat, now: nat): (r: Table)
    requires id in rows
    ensures r.Keys == rows.Keys
    ensures ParentsPresent(rows) ==> ParentsPresent(r)
    ensures WellKeyed(rows) ==> WellKeyed(r)
  {
    rows[id := rows[id].(isCurrent := false, updatedAt := Some(now))]
  }

  /** The row `create_new_version` inserts. */
  function NextVersionRow(id: nat, data: FileData, current: FileRecord, userId: Option<int>,
                          comment: Option<string>, now: nat): FileRecord
  {
    FileRecord(id, data, userId, current.version + 1, true, Some(current.id), comment, current.createdAt, Some(now))
  }

  /**
   * `create_new_version`: finds the single current row of the filename (none
   * gives 404, several make the query raise, 500), demotes it, prunes old
   * versions, then inserts the next version; an insert that breaks the
   * unique `s3_key`, or whose parent (the previous current row) the pruning
   * deleted, rolls everything back with 500.
   */
  ghost function NewVersion(rows: Table, nextId: nat, data: FileData, userId: string, comment: Option<string>,
                            config: Option<ConfigService.ConfigValue>, ordered: seq<IdVersion>, now: nat): Outcome
  {
    var l := ScalarOneOrNone(CurrentIds(rows, data.originalFilename));
    if l.NoRow? then Outcome(rows, nextId, None, 404)
    else if l.ManyRows? then Outcome(rows, nextId, None, 500)
    else
      assert l.id in CurrentIds(rows, data.originalFilename);
      var (pruned, _) := Cleanup(Demote(rows, l.id, now), ordered, MaxVersions(config));
      var row := NextVersionRow(nextId, data, rows[l.id], ParseUserId(userId), comment, now);
      if KeyTaken(pruned, data.s3Key) || nextId in pruned || ParentMissing(pruned, row) then Outcome(rows, nextId, None, 500)
      else Outcome(pruned[nextId := row], nextId + 1, Some(row), 201)
  }

  /** With `c` the one current row, a new version is the cleanup of the demoted table plus the next row. */
  lemma NewVersionOfCurrent(rows: Table, nextId: nat, data: FileData, userId: string, comment: Option<string>,
                            config: Option<ConfigService.ConfigValue>, ordered: seq<IdVersion>, now: nat, c: nat)
    requires CurrentIds(rows, data.originalFilename) == {c}
    ensures c in rows
    ensures var (pruned, _) := Cleanup(Demote(rows, c, now), ordered, MaxVersions(config));
      var row := NextVersionRow(nextId, data, rows[c], ParseUserId(userId), comment, now);
      NewVersion(rows, nextId, data, userId, comment, config, ordered, now) ==
        if KeyTaken(pruned, data.s3Key) || nextId in pruned || ParentMissing(pruned, row) then Outcome(rows, nextId, None, 500)
        else Outcome(pruned[nextId := row], nextId + 1, Some(row), 201)
  {
    assert c in CurrentIds(rows, data.originalFilename);
    assert ScalarOneOrNone(CurrentIds(rows, data.originalFilename)) == OneRow(c);
  }

  /** `version_comment or "Initial version"` */
  function InitialComment(comment: Option<string>): string
  {
    if comment.Some? && comment.value != "" then comment.value else "Initial version"
  }

  /** The first row of a new file. */
  function FirstVersionRow(id: nat, data: FileData, userId: Option<int>, comment: Option<string>, now: nat): FileRecord
  {
    FileRecord(id, data, userId, 1, true, None, Some(InitialComment(comment)), Some(now), Some(now))
  }

  ghost function FirstVersion(rows: Table, nextId: nat, data: FileData, userId: Option<int>, comment: Option<string>,
                              now: nat): Outcome
  {
    var row := FirstVersionRow(nextId, data, userId, comment, now);
    if KeyTaken(rows, data.s3Key) || nextId in rows then Outcome(rows, nextId, None, 500)
    else Outcome(rows[nextId := row], nextId + 1, Some(row), 201)
  }

  /** Rows of a filename uploaded by a given user. */
  function OwnedIds(rows: Table, f: string, userId: Option<int>): set<nat>
  {
    set id | id in rows && rows[id].data.originalFilename == f && rows[id].userId == userId
  }

  /**
   * `create_upload_record` as written: a filename the same user already
   * uploaded becomes a new version; otherwise a first version is inserted,
   * whatever other users' rows carry the same filename.
   */
  ghost function CreateRecord(rows: Table, nextId: nat, data: FileData, userId: string, comment: Option<string>,
                              config: Option<ConfigService.ConfigValue>, ordered: seq<IdVersion>, now: nat): Outcome
  {
    var d := data.(uploadStatus := "success");
    if OwnedIds(rows, d.originalFilename, ParseUserId(userId)) != {} then
      NewVersion(rows, nextId, d, userId, comment, config, ordered, now)
    else FirstVersion(rows, nextId, d, ParseUserId(userId), comment, now)
  }

  /**
   * `create_upload_record` with the existence check grouped like the version
   * lookup, by filename alone.
   */
  ghost function CreateRecordByFilename(rows: Table, nextId: nat, data: FileData, userId: string, comment: Option<string>,
                                        config: Option<ConfigService.ConfigValue>, ordered: seq<IdVersion>, now: nat): Outcome
  {
    var d := data.(uploadStatus := "success");
    if NamedIds(rows, d.originalFilename) != {} then NewVersion(rows, nextId, d, userId, comment, config, ordered, now)
    else FirstVersion(rows, nextId, d, ParseUserId(userId), comment, now)
  }

  /** Rows below the next serial id, each under its own id. */
  predicate Keyed(rows: Table, nextId: nat)
  {
    WellKeyed(rows) && forall id :: id in rows ==> id < nextId
  }

  /** A failed creation leaves the table as it was. */
  lemma NewVersionFailureUnchanged(rows: Table, nextId: nat, data: FileData, userId: string, comment: Option<string>,
                                   config: Option<ConfigService.ConfigValue>, ordered: seq<IdVersion>, now: nat)
    ensures var o := NewVersion(rows, nextId, data, userId, comment, config, ordered, now);
      o.code in {201, 404, 500} && (o.code != 201 ==> o.rows == rows && o.nextId == nextId && o.written == None)
  {
  }

  /**
   * A created version is the next number after the previous current row,
   * points back to it, is current and keeps its creation time; the
   * previous current row is no longer current.
   */
  lemma NewVersionShape(rows: Table, nextId: nat, data: FileData, userId: string, comment: Option<string>,
                        config: Option<ConfigService.ConfigValue>, ordered: seq<IdVersion>, now: nat)
    requires Keyed(rows, nextId)
    ensures var o := NewVersion(rows, nextId, data, userId, comment, config, ordered, now);
      o.code == 201 ==>
        exists c :: c in rows && CurrentIds(rows, data.originalFilename) == {c} &&
          o.written == Some(NextVersionRow(nextId, data, rows[c], ParseUserId(userId), comment, now)) &&
          o.written.value.version == rows[c].version + 1 &&
          o.written.value.parentVersionId == Some(c) &&
          o.written.value.createdAt == rows[c].createdAt &&
          o.rows[nextId] == o.written.value && o.nextId == nextId + 1 &&
          c in o.rows && !o.rows[c].isCurrent
  {
    var o := NewVersion(rows, nextId, data, userId, comment, config, ordered, now);
    if o.code == 201 {
      var l := ScalarOneOrNone(CurrentIds(rows, data.originalFilename));
      var c := l.id;
      assert c in CurrentIds(rows, data.originalFilename);
      var demoted := Demote(rows, c, now);
      CleanupSubset(demoted, ordered, MaxVersions(config));
    }
  }

  /** Pruning only removes rows, changes no kept row's content or versioning, and keeps parents present. */
  lemma CleanupSubset(rows: Table, ordered: seq<IdVersion>, max: Option<int>)
    ensures var (pruned, _) := Cleanup(rows, ordered, max);
      (forall id :: id in pruned ==>
         id in rows && pruned[id].data == rows[id].data && pruned[id].version == rows[id].version &&
         pruned[id].isCurrent == rows[id].isCurrent) &&
      (ParentsPresent(rows) ==> ParentsPresent(pruned))
  {
    var (pruned, _) := Cleanup(rows, ordered, max);
    if pruned != rows {
      DeleteIdsEffect(rows, IdsOf(ordered[SliceStart(|ordered|, max.value)..]));
    }
  }

  /** `create_new_version` keeps "at most one current row per filename". */
  lemma NewVersionKeepsOneCurrent(rows: Table, nextId: nat, data: FileData, userId: string, comment: Option<string>,
                                  config: Option<ConfigService.ConfigValue>, ordered: seq<IdVersion>, now: nat)
    requires OneCurrentPerFilename(rows)
    ensures OneCurrentPerFilename(NewVersion(rows, nextId, data, userId, comment, config, ordered, now).rows)
  {
    var f := data.originalFilename;
    var l := ScalarOneOrNone(CurrentIds(rows, f));
    var o := NewVersion(rows, nextId, data, userId, comment, config, ordered, now);
    if o.code == 201 {
      var c := l.id;
      assert c in CurrentIds(rows, f);
      DemoteLeavesNoCurrent(rows, c, now, f);
      var demoted := Demote(rows, c, now);
      CleanupSubset(demoted, ordered, MaxVersions(config));
      InsertCurrentKeepsOneCurrent(demoted, Cleanup(demoted, ordered, MaxVersions(config)).0, nextId, o.written.value);
    }
  }

  /** Demoting the one current row of a filename leaves the filename without one. */
  lemma DemoteLeavesNoCurrent(rows: Table, c: nat, now: nat, f: string)
    requires OneCurrentPerFilename(rows) && c in CurrentIds(rows, f)
    ensures OneCurrentPerFilename(Demote(rows, c, now))
    ensures forall i :: i in Demote(rows, c, now) && Demote(rows, c, now)[i].isCurrent ==>
      Demote(rows, c, now)[i].data.originalFilename != f
  {
  }

  /**
   * Adding a current row to part of a table with one current row per
   * filename, and none of the new row's filename, keeps one per filename.
   */
  lemma InsertCurrentKeepsOneCurrent(rows: Table, part: Table, id: nat, row: FileRecord)
    requires OneCurrentPerFilename(rows)
    requires forall i :: i in rows && rows[i].isCurrent ==> rows[i].data.originalFilename != row.data.originalFilename
    requires forall i :: i in part ==> i in rows && part[i].data == rows[i].data && part[i].isCurrent == rows[i].isCurrent
    ensures OneCurrentPerFilename(part[id := row])
  {
  }

  /** `create_new_version` keeps "the current row has the highest version of its filename". */
  lemma NewVersionKeepsLatest(rows: Table, nextId: nat, data: FileData, userId: string, comment: Option<string>,
                              config: Option<ConfigService.ConfigValue>, ordered: seq<IdVersion>, now: nat)
    requires OneCurrentPerFilename(rows) && CurrentIsLatest(rows)
    ensures CurrentIsLatest(NewVersion(rows, nextId, data, userId, comment, config, ordered, now).rows)
  {
    var f := data.originalFilename;
    var l := ScalarOneOrNone(CurrentIds(rows, f));
    var o := NewVersion(rows, nextId, data, userId, comment, config, ordered, now);
    if o.code == 201 {
      var c := l.id;
      assert c in CurrentIds(rows, f);
      var demoted := Demote(rows, c, now);
      var (pruned, _) := Cleanup(demoted, ordered, MaxVersions(config));
      CleanupSubset(demoted, ordered, MaxVersions(config));
      assert o.rows == pruned[nextId := o.written.value];
      forall a, b | a in o.rows && b in o.rows && o.rows[a].isCurrent &&
                    o.rows[a].data.originalFilename == o.rows[b].data.originalFilename
        ensures o.rows[b].version <= o.rows[a].version
      {
        if a == nextId {
          if b != nextId {
            assert o.rows[b].version == demoted[b].version && o.rows[b].data == demoted[b].data;
            assert rows[b].version <= rows[c].version;
          }
        } else {
          assert o.rows[a].isCurrent == demoted[a].isCurrent && o.rows[a].data == demoted[a].data;
          assert a != c;
          assert o.rows[a].data.originalFilename != f;
          assert b != nextId;
          assert o.rows[b].version == demoted[b].version && o.rows[b].data == demoted[b].data;
        }
      }
    }
  }

  /**
   * A created version leaves every parent present: pruning clears the
   * parents it deletes, and the new row's parent, the demoted current row,
   * must have survived the pruning.
   */
  lemma NewVersionKeepsParentsPresent(rows: Table, nextId: nat, data: FileData, userId: string, comment: Option<string>,
                                      config: Option<ConfigService.ConfigValue>, ordered: seq<IdVersion>, now: nat)
    requires ParentsPresent(rows)
    ensures ParentsPresent(NewVersion(rows, nextId, data, userId, comment, config, ordered, now).rows)
  {
    var l := ScalarOneOrNone(CurrentIds(rows, data.originalFilename));
    var o := NewVersion(rows, nextId, data, userId, comment, config, ordered, now);
    if o.code == 201 {
      assert l.id in CurrentIds(rows, data.originalFilename);
      CleanupSubset(Demote(rows, l.id, now), ordered, MaxVersions(config));
    }
  }

  /**
   * A limit of `-n` or below, `n` being the filename's row count, deletes
   * every row of the filename, the current one included; the new version's
   * parent is then gone, so the creation fails with 500 and changes nothing.
   */
  lemma LimitDeletingCurrentFails(rows: Table, nextId: nat, data: FileData, userId: string, comment: Option<string>,
                                  config: Option<ConfigService.ConfigValue>, ordered: seq<IdVersion>, now: nat)
    requires WellKeyed(rows) && VersionOrder(ordered, rows, data.originalFilename)
    requires CurrentIds(rows, data.originalFilename) != {}
    requires MaxVersions(config).Some? && MaxVersions(config).value <= -|ordered|
    ensures var o := NewVersion(rows, nextId, data, userId, comment, config, ordered, now);
      o.code == 500 && o.rows == rows && o.nextId == nextId
  {
    var f := data.originalFilename;
    var l := ScalarOneOrNone(CurrentIds(rows, f));
    if l.OneRow? {
      assert l.id in CurrentIds(rows, f);
      var demoted := Demote(rows, l.id, now);
      DemotePreservesOrder(rows, l.id, now, ordered, f);
      OrderedCoversNamed(ordered, demoted, f);
      assert ordered[0..] == ordered;
      assert l.id in IdsOf(ordered);
      assert SliceStart(|ordered|, MaxVersions(config).value) == 0;
      var (pruned, _) := Cleanup(demoted, ordered, MaxVersions(config));
      assert l.id !in pruned;
    }
  }

  lemma DemotePreservesOrder(rows: Table, c: nat, now: nat, ordered: seq<IdVersion>, f: string)
    requires c in rows && VersionOrder(ordered, rows, f)
    ensures VersionOrder(ordered, Demote(rows, c, now), f)
  {
    assert NamedIds(Demote(rows, c, now), f) == NamedIds(rows, f);
  }

  /**
   * With a positive version limit, a filename has at most `max + 1` rows after
   * a successful `create_new_version`: pruning runs before the insert.
   */
  lemma NewVersionRowBound(rows: Table, nextId: nat, data: FileData, userId: string, comment: Option<string>,
                           config: Option<ConfigService.ConfigValue>, ordered: seq<IdVersion>, now: nat)
    requires VersionOrder(ordered, rows, data.originalFilename)
    requires MaxVersions(config).Some? && MaxVersions(config).value >= 1
    ensures var o := NewVersion(rows, nextId, data, userId, comment, config, ordered, now);
      o.code == 201 ==> |NamedIds(o.rows, data.originalFilename)| <= MaxVersions(config).value + 1
  {
    var f := data.originalFilename;
    var l := ScalarOneOrNone(CurrentIds(rows, f));
    var o := NewVersion(rows, nextId, data, userId, comment, config, ordered, now);
    if o.code == 201 {
      assert l.id in CurrentIds(rows, f);
      var demoted := Demote(rows, l.id, now);
      DemotePreservesOrder(rows, l.id, now, ordered, f);
      CleanupAtMost(demoted, f, ordered, MaxVersions(config).value);
      var (pruned, _) := Cleanup(demoted, ordered, MaxVersions(config));
      var row := NextVersionRow(nextId, data, rows[l.id], ParseUserId(userId), comment, now);
      NamedAfterInsert(pruned, nextId, row, f);
    }
  }

  /** Pruning with `max >= 1` leaves at most `max` rows of the filename. */
  lemma CleanupAtMost(rows: Table, f: string, ordered: seq<IdVersion>, m: int)
    requires VersionOrder(ordered, rows, f) && m >= 1
    ensures |NamedIds(Cleanup(rows, ordered, Some(m)).0, f)| <= m
  {
    CleanupKeepsNewest(rows, f, ordered, m);
  }

  /** Inserting a fresh row of the filename adds exactly one row to it. */
  lemma NamedAfterInsert(rows: Table, id: nat, row: FileRecord, f: string)
    requires id !in rows && row.data.originalFilename == f
    ensures |NamedIds(rows[id := row], f)| == |NamedIds(rows, f)| + 1
  {
    assert NamedIds(rows[id := row], f) == NamedIds(rows, f) + {id};
  }

  /** A first version keeps "one current row per filename" when its filename has no current row. */
  lemma FirstVersionKeepsOneCurrent(rows: Table, nextId: nat, data: FileData, userId: Option<int>,
                                    comment: Option<string>, now: nat)
    requires OneCurrentPerFilename(rows) && CurrentIds(rows, data.originalFilename) == {}
    ensures OneCurrentPerFilename(FirstVersion(rows, nextId, data, userId, comment, now).rows)
  {
    var f := data.originalFilename;
    assert forall id :: id in rows && rows[id].isCurrent ==> rows[id].data.originalFilename != f by {
      forall id | id in rows && rows[id].isCurrent ensures rows[id].data.originalFilename != f {
        assert id !in CurrentIds(rows, f);
      }
    }
  }

  /**
   * `create_upload_record` as written keeps "one current row per filename"
   * as long as no other user holds the current row of that filename.
   */
  lemma CreateRecordKeepsOneCurrent(rows: Table, nextId: nat, data: FileData, userId: string, comment: Option<string>,
                                    config: Option<ConfigService.ConfigValue>, ordered: seq<IdVersion>, now: nat)
    requires OneCurrentPerFilename(rows)
    requires CurrentIds(rows, data.originalFilename) <= OwnedIds(rows, data.originalFilename, ParseUserId(userId))
    ensures OneCurrentPerFilename(CreateRecord(rows, nextId, data, userId, comment, config, ordered, now).rows)
  {
    var d := data.(uploadStatus := "success");
    if OwnedIds(rows, d.originalFilename, ParseUserId(userId)) != {} {
      NewVersionKeepsOneCurrent(rows, nextId, d, userId, comment, config, ordered, now);
    } else {
      FirstVersionKeepsOneCurrent(rows, nextId, d, ParseUserId(userId), comment, now);
    }
  }

  function SampleData(f: string, key: string): FileData
  {
    FileData(f, key, "https://bucket/" + key, 10, "text/plain", None, 0, None, None, None, "success", 0)
  }

  /**
   * Two users uploading the same filename: the second upload finds no row of
   * its own, so it inserts a second current row for the filename; the first
   * user's next upload of that name then finds two current rows and fails
   * with 500.
   */
  lemma SecondUploaderBreaksOneCurrent()
    ensures var rows0 := map[1 := FirstVersionRow(1, SampleData("report.txt", "k1"), Some(1), None, 0)];
      var o1 := CreateRecord(rows0, 2, SampleData("report.txt", "k2"), "2", None, None, [], 10);
      o1.code == 201 && !OneCurrentPerFilename(o1.rows) &&
      CreateRecord(o1.rows, o1.nextId, SampleData("report.txt", "k3"), "1", None, None, [], 20).code == 500
  {
    var rows0 := map[1 := FirstVersionRow(1, SampleData("report.txt", "k1"), Some(1), None, 0)];
    assert Text.IsDigits("2") && Text.DigitsValue("2") == 2;
    assert Text.IsDigits("1") && Text.DigitsValue("1") == 1;
    assert OwnedIds(rows0, "report.txt", Some(2)) == {};
    assert !KeyTaken(rows0, "k2");
    var o1 := CreateRecord(rows0, 2, SampleData("report.txt", "k2"), "2", None, None, [], 10);
    assert o1.rows == rows0[2 := FirstVersionRow(2, SampleData("report.txt", "k2"), Some(2), None, 10)];
    assert 1 in OwnedIds(o1.rows, "report.txt", Some(1));
    assert CurrentIds(o1.rows, "report.txt") == {1, 2};
  }

  /**
   * With the existence check grouped by filename, every creation keeps "one
   * current row per filename".
   */
  lemma CreateByFilenameKeepsOneCurrent(rows: Table, nextId: nat, data: FileData, userId: string, comment: Option<string>,
                                        config: Option<ConfigService.ConfigValue>, ordered: seq<IdVersion>, now: nat)
    requires OneCurrentPerFilename(rows)
    ensures OneCurrentPerFilename(CreateRecordByFilename(rows, nextId, data, userId, comment, config, ordered, now).rows)
  {
    var d := data.(uploadStatus := "success");
    if NamedIds(rows, d.originalFilename) != {} {
      NewVersionKeepsOneCurrent(rows, nextId, d, userId, comment, config, ordered, now);
    } else {
      assert CurrentIds(rows, d.originalFilename) <= NamedIds(rows, d.originalFilename);
      FirstVersionKeepsOneCurrent(rows, nextId, d, ParseUserId(userId), comment, now);
    }
  }

  /** Current rows sharing an S3 key. */
  function CurrentKeyIds(rows: Table, key: string): set<nat>
  {
    set id | id in rows && rows[id].isCurrent && rows[id].data.s3Key == key
  }

  /** `restore_comment or f"Restored from version {N}"` */
  function RestoreComment(comment: Option<string>, version: int): (c: string)
    ensures comment.Some? && comment.value != "" ==> c == comment.value
    ensures comment.None? ==> Text.StartsWith(c, "Restored from version ")
  {
    if comment.Some? && comment.value != "" then comment.value
    else "Restored from version " + Text.IntToString(version)
  }

  /** The row `restore_version` inserts: the restored content, re-stamped. */
  function RestoredRow(id: nat, restored: FileRecord, current: FileRecord, userId: Option<int>,
                       comment: Option<string>, ip: Option<string>, now: nat): FileRecord
  {
    FileRecord(id, restored.data.(uploadIp := ip, processingTimeMs := 0, uploadStatus := "restored"), userId,
               current.version + 1, true, Some(restored.id), Some(RestoreComment(comment, restored.version)),
               Some(now), Some(now))
  }

  /**
   * The first half of `restore_version`: the row to restore must exist and
   * its S3 key must have exactly one current row (otherwise 404); that row
   * is demoted and the copy is prepared.
   */
  ghost function RestorePlan(rows: Table, nextId: nat, versionId: nat, userId: string, comment: Option<string>,
                             ip: Option<string>, now: nat): Option<(Table, FileRecord)>
  {
    if versionId !in rows then None
    else
      var r := rows[versionId];
      var l := ScalarOneOrNone(CurrentKeyIds(rows, r.data.s3Key));
      if !l.OneRow? then None
      else
        assert l.id in CurrentKeyIds(rows, r.data.s3Key);
        Some((Demote(rows, l.id, now), RestoredRow(nextId, r, rows[l.id], ParseUserId(userId), comment, ip, now)))
  }

  /** `restore_version` as written, against the unique `s3_key` column. */
  ghost function Restore(rows: Table, nextId: nat, versionId: nat, userId: string, comment: Option<string>,
                         ip: Option<string>, now: nat): Outcome
  {
    match RestorePlan(rows, nextId, versionId, userId, comment, ip, now)
    case None => Outcome(rows, nextId, None, 404)
    case Some((demoted, row)) =>
      if KeyTaken(demoted, row.data.s3Key) || nextId in demoted then Outcome(rows, nextId, None, 500)
      else Outcome(demoted[nextId := row], nextId + 1, Some(row), 201)
  }

  /**
   * The copy keeps the restored row's S3 key while the restored row is still
   * in the table, so the unique `s3_key` column rejects every restore: it
   * answers 404 or 500 and never changes the table.
   */
  lemma RestoreNeverCreates(rows: Table, nextId: nat, versionId: nat, userId: string, comment: Option<string>,
                            ip: Option<string>, now: nat)
    ensures var o := Restore(rows, nextId, versionId, userId, comment, ip, now);
      o.code in {404, 500} && o.rows == rows && o.nextId == nextId
  {
    match RestorePlan(rows, nextId, versionId, userId, comment, ip, now)
    case None =>
    case Some((demoted, row)) =>
      assert versionId in demoted && demoted[versionId].data.s3Key == row.data.s3Key;
  }

  /** The composite unique index on `(s3_key, version)`. */
  predicate UniqueKeyVersions(rows: Table)
  {
    forall a, b :: (a in rows && b in rows && rows[a].data.s3Key == rows[b].data.s3Key &&
                    rows[a].version == rows[b].version) ==> a == b
  }

  predicate KeyVersionTaken(rows: Table, key: string, version: int)
  {
    exists id :: id in rows && rows[id].data.s3Key == key && rows[id].version == version
  }

  /** The current row of an S3 key has the highest version of that key. */
  predicate LatestPerKey(rows: Table)
  {
    forall a, b :: (a in rows && b in rows && rows[a].isCurrent && rows[a].data.s3Key == rows[b].data.s3Key) ==>
      rows[b].version <= rows[a].version
  }

  /** At most one current row per S3 key. */
  predicate OneCurrentPerKey(rows: Table)
  {
    forall a, b :: (a in rows && b in rows && rows[a].isCurrent && rows[b].isCurrent &&
                    rows[a].data.s3Key == rows[b].data.s3Key) ==> a == b
  }

  /** `restore_version` against the `(s3_key, version)` index alone. */
  ghost function RestoreByKeyVersion(rows: Table, nextId: nat, versionId: nat, userId: string, comment: Option<string>,
                                     ip: Option<string>, now: nat): Outcome
  {
    match RestorePlan(rows, nextId, versionId, userId, comment, ip, now)
    case None => Outcome(rows, nextId, None, 404)
    case Some((demoted, row)) =>
      if KeyVersionTaken(demoted, row.data.s3Key, row.version) || nextId in demoted then Outcome(rows, nextId, None, 500)
      else Outcome(demoted[nextId := row], nextId + 1, Some(row), 201)
  }

  /** The situation a restore's insert meets: row `c` is the key's one current row and is demoted. */
  predicate RestoreStep(rows: Table, c: nat, nextId: nat, row: FileRecord)
  {
    c in rows && CurrentKeyIds(rows, row.data.s3Key) == {c} && nextId !in rows &&
    row.version == rows[c].version + 1 && row.isCurrent
  }

  lemma RestoreStepKeepsOneCurrent(rows: Table, c: nat, nextId: nat, row: FileRecord, now: nat)
    requires RestoreStep(rows, c, nextId, row) && OneCurrentPerKey(rows)
    ensures OneCurrentPerKey(Demote(rows, c, now)[nextId := row])
  {
    var key := row.data.s3Key;
    var after := Demote(rows, c, now)[nextId := row];
    assert forall id :: id in rows && id != c && rows[id].isCurrent ==> rows[id].data.s3Key != key by {
      forall id | id in rows && id != c && rows[id].isCurrent ensures rows[id].data.s3Key != key {
        assert id !in CurrentKeyIds(rows, key);
      }
    }
  }

  lemma RestoreStepKeepsLatest(rows: Table, c: nat, nextId: nat, row: FileRecord, now: nat)
    requires RestoreStep(rows, c, nextId, row) && LatestPerKey(rows)
    ensures LatestPerKey(Demote(rows, c, now)[nextId := row])
  {
    var key := row.data.s3Key;
    assert c in CurrentKeyIds(rows, key);
    assert forall id :: id in rows && id != c && rows[id].isCurrent ==> rows[id].data.s3Key != key by {
      forall id | id in rows && id != c && rows[id].isCurrent ensures rows[id].data.s3Key != key {
        assert id !in CurrentKeyIds(rows, key);
      }
    }
    assert forall id :: id in rows && rows[id].data.s3Key == key ==> rows[id].version < row.version;
  }

  lemma RestoreStepKeepsUniqueVersions(rows: Table, c: nat, nextId: nat, row: FileRecord, now: nat)
    requires RestoreStep(rows, c, nextId, row) && LatestPerKey(rows) && UniqueKeyVersions(rows)
    ensures UniqueKeyVersions(Demote(rows, c, now)[nextId := row])
    ensures !KeyVersionTaken(Demote(rows, c, now), row.data.s3Key, row.version)
  {
    var key := row.data.s3Key;
    assert c in CurrentKeyIds(rows, key);
    var demoted := Demote(rows, c, now);
    assert forall id :: id in demoted ==> demoted[id].data == rows[id].data && demoted[id].version == rows[id].version;
    assert forall id :: id in demoted && demoted[id].data.s3Key == key ==> demoted[id].version < row.version;
    assert UniqueKeyVersions(demoted);
    InsertKeepsUniqueVersions(demoted, nextId, row);
  }

  /** Inserting a row whose version is above every row of its key keeps `(s3_key, version)` unique. */
  lemma InsertKeepsUniqueVersions(rows: Table, id: nat, row: FileRecord)
    requires UniqueKeyVersions(rows) && id !in rows
    requires forall i :: i in rows && rows[i].data.s3Key == row.data.s3Key ==> rows[i].version < row.version
    ensures UniqueKeyVersions(rows[id := row])
    ensures !KeyVersionTaken(rows, row.data.s3Key, row.version)
  {
  }

  /**
   * Against the `(s3_key, version)` index, a restore whose key has one
   * current row always succeeds: the copy carries the restored content with
   * status `restored`, points back to the restored row, takes a version above
   * every row of its key and becomes the key's only current row.
   */
  lemma RestoreByKeyVersionSucceeds(rows: Table, nextId: nat, versionId: nat, userId: string, comment: Option<string>,
                                    ip: Option<string>, now: nat)
    requires Keyed(rows, nextId) && LatestPerKey(rows) && OneCurrentPerKey(rows) && UniqueKeyVersions(rows)
    ensures var o := RestoreByKeyVersion(rows, nextId, versionId, userId, comment, ip, now);
      (o.code == 404 || o.code == 201) &&
      (o.code == 404 <==> RestorePlan(rows, nextId, versionId, userId, comment, ip, now).None?) &&
      (o.code == 404 ==> o.rows == rows && o.nextId == nextId) &&
      (o.code == 201 ==>
         versionId in rows && o.written.Some? && o.rows[nextId] == o.written.value && o.nextId == nextId + 1 &&
         o.written.value.data == rows[versionId].data.(uploadIp := ip, processingTimeMs := 0, uploadStatus := "restored") &&
         o.written.value.parentVersionId == Some(versionId) && o.written.value.isCurrent &&
         (forall id :: id in rows && rows[id].data.s3Key == rows[versionId].data.s3Key ==>
            rows[id].version < o.written.value.version) &&
         Keyed(o.rows, o.nextId) && LatestPerKey(o.rows) && OneCurrentPerKey(o.rows) && UniqueKeyVersions(o.rows))
  {
    match RestorePlan(rows, nextId, versionId, userId, comment, ip, now)
    case None =>
    case Some((demoted, row)) =>
      var key := rows[versionId].data.s3Key;
      var l := ScalarOneOrNone(CurrentKeyIds(rows, key));
      var c := l.id;
      assert RestoreStep(rows, c, nextId, row);
      RestoreStepKeepsOneCurrent(rows, c, nextId, row, now);
      RestoreStepKeepsLatest(rows, c, nextId, row, now);
      RestoreStepKeepsUniqueVersions(rows, c, nextId, row, now);
      assert c in CurrentKeyIds(rows, key);
  }

  /** Rows with a given S3 key. */
  function KeyIds(rows: Table, key: string): set<nat>
  {
    set id | id in rows && rows[id].data.s3Key == key
  }

  /** `get_upload_record`: the one row with the key; none is 404, several (a failed query) 500. */
  ghost function GetRecord(rows: Table, key: string): (r: (Option<FileRecord>, int))
    ensures r.0.Some? <==> r.1 == 200
    ensures r.1 in {200, 404, 500}
    ensures r.1 == 404 <==> !KeyTaken(rows, key)
    ensures r.0.Some? ==> r.0.value in rows.Values && r.0.value.data.s3Key == key
  {
    var l := ScalarOneOrNone(KeyIds(rows, key));
    if l.NoRow? then
      forall id | id in rows ensures rows[id].data.s3Key != key {
        assert id !in KeyIds(rows, key);
      }
      (None, 404)
    else if l.ManyRows? then
      var x :| x in KeyIds(rows, key);
      assert KeyTaken(rows, key);
      (None, 500)
    else
      assert l.id in KeyIds(rows, key);
      (Some(rows[l.id]), 200)
  }

  /**
   * `delete_upload_record`: the one row with the key is removed, and rows
   * naming it as their parent lose that parent; no row gives 404.
   */
  ghost function DeleteRecord(rows: Table, key: string): (Table, bool, int)
  {
    var l := ScalarOneOrNone(KeyIds(rows, key));
    if l.NoRow? then (rows, false, 404)
    else if l.ManyRows? then (rows, false, 500)
    else (DeleteIds(rows, {l.id}), true, 200)
  }

  /**
   * Under the unique key, delete removes exactly the rows with that key and
   * changes the others only by clearing a parent that was removed.
   */
  lemma DeleteRemovesKey(rows: Table, key: string)
    requires UniqueKeys(rows)
    ensures var (after, ok, code) := DeleteRecord(rows, key);
      (ok <==> KeyTaken(rows, key)) && (ok ==> code == 200) && (!ok ==> code == 404 && after == rows) &&
      (forall id :: id in after <==> id in rows && rows[id].data.s3Key != key) &&
      (forall id :: id in after ==> after[id] == Orphaned(rows[id], rows.Keys - after.Keys)) &&
      (ParentsPresent(rows) ==> ParentsPresent(after))
  {
    var s := KeyIds(rows, key);
    if s == {} {
      forall id | id in rows ensures rows[id].data.s3Key != key {
        assert id !in s;
      }
    } else {
      var x :| x in s;
      assert s == {x};
      assert ScalarOneOrNone(s) == OneRow(x);
      assert KeyTaken(rows, key);
      assert rows.Keys - DeleteIds(rows, {x}).Keys == rows.Keys * {x};
      DeleteIdsEffect(rows, {x});
    }
  }

  /** A value an update may carry, as the database driver receives it. */
  datatype UpdateValue = VText(s: string) | VInt(i: int) | VBool(b: bool) | VNull

  /** The columns of `file_uploads` an update may assign, other than `id` and `file_metadata`. */
  datatype Column =
    | OriginalFilename | S3Key | S3Url | FileSize | ContentType | FileContent | Score | FolderPath | UserId
    | UploadIp | UploadStatus | ProcessingTimeMs | Version | IsCurrentVersion | ParentVersionId | VersionComment
    | CreatedAt | UpdatedAt

  const COLUMNS: set<Column> :=
    {OriginalFilename, S3Key, S3Url, FileSize, ContentType, FileContent, Score, FolderPath, UserId,
     UploadIp, UploadStatus, ProcessingTimeMs, Version, IsCurrentVersion, ParentVersionId, VersionComment,
     CreatedAt, UpdatedAt}

  /** The column's name, which is also its attribute's name. */
  function ColumnName(c: Column): string
  {
    match c
    case OriginalFilename => "original_filename"
    case S3Key => "s3_key"
    case S3Url => "s3_url"
    case FileSize => "file_size"
    case ContentType => "content_type"
    case FileContent => "file_content"
    case Score => "score"
    case FolderPath => "folder_path"
    case UserId => "user_id"
    case UploadIp => "upload_ip"
    case UploadStatus => "upload_status"
    case ProcessingTimeMs => "processing_time_ms"
    case Version => "version"
    case IsCurrentVersion => "is_current_version"
    case ParentVersionId => "parent_version_id"
    case VersionComment => "version_comment"
    case CreatedAt => "created_at"
    case UpdatedAt => "updated_at"
  }

  /** `hasattr(upload, name)` for the column attributes; other names are skipped. */
  function ColumnNamed(name: string): (c: Option<Column>)
    ensures c.Some? ==> ColumnName(c.value) == name
  {
    match name
    case "original_filename" => Some(OriginalFilename)
    case "s3_key" => Some(S3Key)
    case "s3_url" => Some(S3Url)
    case "file_size" => Some(FileSize)
    case "content_type" => Some(ContentType)
    case "file_content" => Some(FileContent)
    case "score" => Some(Score)
    case "folder_path" => Some(FolderPath)
    case "user_id" => Some(UserId)
    case "upload_ip" => Some(UploadIp)
    case "upload_status" => Some(UploadStatus)
    case "processing_time_ms" => Some(ProcessingTimeMs)
    case "version" => Some(Version)
    case "is_current_version" => Some(IsCurrentVersion)
    case "parent_version_id" => Some(ParentVersionId)
    case "version_comment" => Some(VersionComment)
    case "created_at" => Some(CreatedAt)
    case "updated_at" => Some(UpdatedAt)
    case _ => None
  }

  /** Each column is found under its own name, and is one of `COLUMNS`. */
  lemma ColumnNameRoundTrip(c: Column)
    ensures ColumnNamed(ColumnName(c)) == Some(c)
    ensures c in COLUMNS
  {
  }

  const INT4_MIN: int := -0x8000_0000
  const INT4_MAX: int := 0x7FFF_FFFF

  /** Within PostgreSQL's `integer`. */
  predicate Int4(i: int)
  {
    INT4_MIN <= i <= INT4_MAX
  }

  /** Text that fits a `String(n)` column. */
  predicate TextUpTo(v: UpdateValue, n: nat)
  {
    v.VText? && |v.s| <= n
  }

  /**
   * Whether the flush can write the value to the column: its type, its
   * `String(n)` length, the `integer` range and `nullable=False`.  No value
   * the model carries is a datetime, so the timestamps refuse them all.  A
   * negative parent id is refused here because no row has one; whether a
   * parent id names a row is the table's check.
   */
  predicate Accepts(c: Column, v: UpdateValue)
  {
    match c
    case OriginalFilename => TextUpTo(v, 255)
    case S3Key => TextUpTo(v, 512)
    case S3Url => v.VText?
    case FileSize => v.VInt? && Int4(v.i)
    case ContentType => TextUpTo(v, 100)
    case FileContent => v.VText? || v.VNull?
    case Score => v.VInt?
    case FolderPath => TextUpTo(v, 255) || v.VNull?
    case UserId => (v.VInt? && Int4(v.i)) || v.VNull?
    case UploadIp => TextUpTo(v, 45) || v.VNull?
    case UploadStatus => TextUpTo(v, 20)
    case ProcessingTimeMs => v.VInt?
    case Version => v.VInt? && Int4(v.i)
    case IsCurrentVersion => v.VBool?
    case ParentVersionId => (v.VInt? && 0 <= v.i <= INT4_MAX) || v.VNull?
    case VersionComment => v.VText? || v.VNull?
    case CreatedAt => false
    case UpdatedAt => false
  }

  function TextOrNull(t: Option<string>): UpdateValue
  {
    if t.Some? then VText(t.value) else VNull
  }

  function IntOrNull(i: Option<int>): UpdateValue
  {
    if i.Some? then VInt(i.value) else VNull
  }

  /** `getattr(upload, name)` for a column, timestamps in seconds. */
  function Value(r: FileRecord, c: Column): UpdateValue
  {
    match c
    case OriginalFilename => VText(r.data.originalFilename)
    case S3Key => VText(r.data.s3Key)
    case S3Url => VText(r.data.s3Url)
    case FileSize => VInt(r.data.fileSize)
    case ContentType => VText(r.data.contentType)
    case FileContent => TextOrNull(r.data.fileContent)
    case Score => VInt(r.data.score)
    case FolderPath => TextOrNull(r.data.folderPath)
    case UserId => IntOrNull(r.userId)
    case UploadIp => TextOrNull(r.data.uploadIp)
    case UploadStatus => VText(r.data.uploadStatus)
    case ProcessingTimeMs => VInt(r.data.processingTimeMs)
    case Version => VInt(r.version)
    case IsCurrentVersion => VBool(r.isCurrent)
    case ParentVersionId => if r.parentVersionId.Some? then VInt(r.parentVersionId.value) else VNull
    case VersionComment => TextOrNull(r.versionComment)
    case CreatedAt => if r.createdAt.Some? then VInt(r.createdAt.value) else VNull
    case UpdatedAt => if r.updatedAt.Some? then VInt(r.updatedAt.value) else VNull
  }

  /** The attributes set on the loaded row, column by column. */
  type Dirty = map<Column, UpdateValue>

  function TextIn(dirty: Dirty, c: Column, prior: string): string
  {
    if c in dirty && dirty[c].VText? then dirty[c].s else prior
  }

  function NullableTextIn(dirty: Dirty, c: Column, prior: Option<string>): Option<string>
  {
    if c !in dirty then prior else if dirty[c].VText? then Some(dirty[c].s) else None
  }

  function IntIn(dirty: Dirty, c: Column, prior: int): int
  {
    if c in dirty && dirty[c].VInt? then dirty[c].i else prior
  }

  function ParentIn(dirty: Dirty, prior: Option<nat>): Option<nat>
  {
    if ParentVersionId !in dirty then prior
    else if dirty[ParentVersionId].VInt? && dirty[ParentVersionId].i >= 0 then Some(dirty[ParentVersionId].i as nat)
    else None
  }

  /** The row with the attributes set on it. */
  function Written(r: FileRecord, dirty: Dirty): FileRecord
  {
    var d := r.data;
    r.(data := d.(originalFilename := TextIn(dirty, OriginalFilename, d.originalFilename),
                  s3Key := TextIn(dirty, S3Key, d.s3Key),
                  s3Url := TextIn(dirty, S3Url, d.s3Url),
                  fileSize := IntIn(dirty, FileSize, d.fileSize),
                  contentType := TextIn(dirty, ContentType, d.contentType),
                  fileContent := NullableTextIn(dirty, FileContent, d.fileContent),
                  score := IntIn(dirty, Score, d.score),
                  folderPath := NullableTextIn(dirty, FolderPath, d.folderPath),
                  uploadIp := NullableTextIn(dirty, UploadIp, d.uploadIp),
                  uploadStatus := TextIn(dirty, UploadStatus, d.uploadStatus),
                  processingTimeMs := IntIn(dirty, ProcessingTimeMs, d.processingTimeMs)),
       userId := if UserId !in dirty then r.userId else if dirty[UserId].VInt? then Some(dirty[UserId].i) else None,
       version := IntIn(dirty, Version, r.version),
       isCurrent := if IsCurrentVersion in dirty && dirty[IsCurrentVersion].VBool? then dirty[IsCurrentVersion].b
                    else r.isCurrent,
       parentVersionId := ParentIn(dirty, r.parentVersionId),
       versionComment := NullableTextIn(dirty, VersionComment, r.versionComment))
  }

  /**
   * The commit's flush of the set attributes: the row as written, or `None`
   * when a column refuses its value and the statement fails.
   */
  function Flush(r: FileRecord, dirty: Dirty): Option<FileRecord>
  {
    if forall c :: c in dirty ==> Accepts(c, dirty[c]) then Some(Written(r, dirty)) else None
  }

  /**
   * A flush succeeds exactly when every set column accepts its value; the
   * row then holds each set column's value and every other column's old
   * value, with the same id and metadata.
   */
  lemma FlushEffect(r: FileRecord, dirty: Dirty, c: Column)
    ensures Flush(r, dirty).Some? <==> forall b :: b in dirty ==> Accepts(b, dirty[b])
    ensures Flush(r, dirty).Some? ==>
      var w := Flush(r, dirty).value;
      w.id == r.id && w.data.metadata == r.data.metadata &&
      Value(w, c) == (if c in dirty then dirty[c] else Value(r, c))
  {
    if Flush(r, dirty).Some? && c in dirty {
      assert Accepts(c, dirty[c]);
    }
  }

  /**
   * The attributes `setattr` leaves set after the loop over the updates:
   * each column an update names, with that update's value.  Distinct names
   * set distinct attributes, so the dictionary's order does not matter.
   */
  function SetAttributes(updates: map<string, UpdateValue>): (dirty: Dirty)
  {
    map c | c in COLUMNS && ColumnName(c) in updates :: updates[ColumnName(c)]
  }

  /** A column is set exactly when an update names it, to that update's value. */
  lemma SetAttributesNamed(updates: map<string, UpdateValue>, c: Column)
    ensures c in SetAttributes(updates) <==> ColumnName(c) in updates
    ensures c in SetAttributes(updates) ==> SetAttributes(updates)[c] == updates[ColumnName(c)]
  {
    ColumnNameRoundTrip(c);
  }

  /**
   * The commit of attributes set on row `x`: it fails with 500 when a column
   * refuses its value, when the new key is another row's, or when a new
   * parent is not a row; `updated_at` is refreshed when a column changed.
   */
  function CommitRow(rows: Table, x: nat, dirty: Dirty, now: nat): (Table, Option<FileRecord>, int)
    requires x in rows
  {
    match Flush(rows[x], dirty)
    case None => (rows, None, 500)
    case Some(w) =>
      var updated := Touch(rows[x], w, now);
      if KeyTaken(rows - {x}, updated.data.s3Key) || (ParentVersionId in dirty && ParentMissing(rows, updated))
      then (rows, None, 500)
      else (rows[x := updated], Some(updated), 200)
  }

  /** Setting the attribute one more update names. */
  lemma SetAttributesAdd(updates: map<string, UpdateValue>, name: string, v: UpdateValue)
    ensures SetAttributes(updates[name := v]) ==
      match ColumnNamed(name)
      case Some(c) => SetAttributes(updates)[c := v]
      case None => SetAttributes(updates)
  {
    forall c ensures ColumnNamed(ColumnName(c)) == Some(c) && c in COLUMNS {
      ColumnNameRoundTrip(c);
    }
  }

  /** Taking one more name out of those still pending. */
  lemma SetOneMore(updates: map<string, UpdateValue>, pending: set<string>, name: string)
    requires name in pending && pending <= updates.Keys
    ensures SetAttributes(updates - (pending - {name})) ==
      match ColumnNamed(name)
      case Some(c) => SetAttributes(updates - pending)[c := updates[name]]
      case None => SetAttributes(updates - pending)
  {
    SetAttributesAdd(updates - pending, name, updates[name]);
    assert updates - (pending - {name}) == (updates - pending)[name := updates[name]];
  }

  /**
   * The loop of `update_upload_record` over the updates: each name that is
   * a column attribute has its value set, whatever the order of the names.
   */
  method SetEach(updates: map<string, UpdateValue>) returns (dirty: Dirty)
    ensures dirty == SetAttributes(updates)
  {
    dirty := map[];
    var pending := updates.Keys;
    assert updates - pending == map[];
    while pending != {}
      invariant pending <= updates.Keys
      invariant dirty == SetAttributes(updates - pending)
      decreases pending
    {
      var name :| name in pending;
      SetOneMore(updates, pending, name);
      match ColumnNamed(name) {
        case Some(c) => dirty := dirty[c := updates[name]];
        case None =>
      }
      pending := pending - {name};
    }
    assert updates - pending == updates;
  }

  /**
   * `update_upload_record`: a missing key gives 404; otherwise the named
   * attributes are set on the row with the key and committed.
   */
  ghost function UpdateRecord(rows: Table, key: string, updates: map<string, UpdateValue>, now: nat)
    : (Table, Option<FileRecord>, int)
  {
    var l := ScalarOneOrNone(KeyIds(rows, key));
    if l.NoRow? then (rows, None, 404)
    else if l.ManyRows? then (rows, None, 500)
    else
      assert l.id in rows;
      CommitRow(rows, l.id, SetAttributes(updates), now)
  }

  /** `updated_at` is refreshed when the flush finds a changed column. */
  function Touch(before: FileRecord, after: FileRecord, now: nat): (t: FileRecord)
    ensures forall c :: c != UpdatedAt ==> Value(t, c) == Value(after, c)
    ensures t.id == after.id && t.data == after.data && t.parentVersionId == after.parentVersionId
  {
    if after == before then after else after.(updatedAt := Some(now))
  }

  /** Replacing a row by one whose key no other row uses keeps the keys unique. */
  lemma ReplaceRowKeepsKeys(rows: Table, x: nat, updated: FileRecord)
    requires WellKeyed(rows) && UniqueKeys(rows) && x in rows && updated.id == x
    requires !KeyTaken(rows - {x}, updated.data.s3Key)
    ensures WellKeyed(rows[x := updated]) && UniqueKeys(rows[x := updated])
  {
    forall id | id in rows && id != x ensures rows[id].data.s3Key != updated.data.s3Key {
      assert id in rows - {x};
    }
  }

  /** Replacing a row by one whose parent is a row, or is the old parent, keeps parents present. */
  lemma ReplaceRowKeepsParents(rows: Table, x: nat, updated: FileRecord)
    requires ParentsPresent(rows) && x in rows
    requires updated.parentVersionId == rows[x].parentVersionId || !ParentMissing(rows, updated)
    ensures ParentsPresent(rows[x := updated])
  {
  }

  /** A flush leaves the parent alone when it is not set. */
  lemma FlushKeepsParent(r: FileRecord, dirty: Dirty)
    requires Flush(r, dirty).Some? && ParentVersionId !in dirty
    ensures Flush(r, dirty).value.parentVersionId == r.parentVersionId && Flush(r, dirty).value.id == r.id
  {
  }

  /**
   * A commit changes only its row, keeps the row's id, the keys unique and
   * every parent present, and changes nothing when it fails.
   */
  lemma CommitRowKeepsTable(rows: Table, x: nat, dirty: Dirty, now: nat)
    requires WellKeyed(rows) && x in rows
    ensures var (after, updated, code) := CommitRow(rows, x, dirty, now);
      (code == 500 || code == 200) &&
      (code == 500 ==> after == rows && updated == None) &&
      (code == 200 ==> updated == Some(after[x])) &&
      after.Keys == rows.Keys && WellKeyed(after) && (UniqueKeys(rows) ==> UniqueKeys(after)) &&
      (ParentsPresent(rows) ==> ParentsPresent(after)) &&
      (forall id :: id in rows && id != x ==> after[id] == rows[id])
  {
    if Flush(rows[x], dirty).Some? {
      var updated := Touch(rows[x], Flush(rows[x], dirty).value, now);
      FlushEffect(rows[x], dirty, ParentVersionId);
      if !KeyTaken(rows - {x}, updated.data.s3Key) && !(ParentVersionId in dirty && ParentMissing(rows, updated)) {
        if UniqueKeys(rows) {
          ReplaceRowKeepsKeys(rows, x, updated);
        }
      }
    }
  }

  /**
   * A successful commit leaves each column but `updated_at` with its set
   * value, or its old value when it was not set; a value a column refuses
   * makes the commit fail.
   */
  lemma CommitRowValues(rows: Table, x: nat, dirty: Dirty, now: nat, c: Column)
    requires x in rows
    ensures var (after, updated, code) := CommitRow(rows, x, dirty, now);
      (code == 200 ==>
         x in after && after[x].id == rows[x].id &&
         (c != UpdatedAt ==> Value(after[x], c) == (if c in dirty then dirty[c] else Value(rows[x], c)))) &&
      (c in dirty && !Accepts(c, dirty[c]) ==> code == 500)
  {
    FlushEffect(rows[x], dirty, c);
  }

  /**
   * An update changes only the row with the key, keeps its id, the keys
   * unique and every parent present, and changes nothing when it fails.
   */
  lemma UpdateTouchesOneRow(rows: Table, key: string, updates: map<string, UpdateValue>, now: nat)
    requires WellKeyed(rows) && UniqueKeys(rows)
    ensures var (after, updated, code) := UpdateRecord(rows, key, updates, now);
      (code == 404 <==> !KeyTaken(rows, key)) && (code == 404 || code == 500 || code == 200) &&
      (code != 200 ==> after == rows && updated == None) &&
      after.Keys == rows.Keys && UniqueKeys(after) && WellKeyed(after) &&
      (ParentsPresent(rows) ==> ParentsPresent(after)) &&
      (forall id :: id in rows && rows[id].data.s3Key != key ==> after[id] == rows[id])
  {
    var s := KeyIds(rows, key);
    if s == {} {
      forall id | id in rows ensures rows[id].data.s3Key != key {
        assert id !in s;
      }
    } else {
      var x :| x in s;
      assert s == {x};
      assert ScalarOneOrNone(s) == OneRow(x);
      assert KeyTaken(rows, key);
      CommitRowKeepsTable(rows, x, SetAttributes(updates), now);
    }
  }

  /**
   * A successful update leaves each column but `updated_at` with the value of
   * the update naming it, or with its old value when none does; a value a
   * column refuses makes the update fail with 500 and change nothing.
   */
  lemma UpdateWritesNamedColumns(rows: Table, key: string, updates: map<string, UpdateValue>, now: nat, x: nat)
    requires UniqueKeys(rows) && x in rows && rows[x].data.s3Key == key
    ensures var (after, updated, code) := UpdateRecord(rows, key, updates, now);
      (code == 200 ==>
         x in after && updated == Some(after[x]) && after[x].id == rows[x].id &&
         forall c :: c != UpdatedAt ==>
           Value(after[x], c) == (if ColumnName(c) in updates then updates[ColumnName(c)] else Value(rows[x], c))) &&
      ((exists name :: name in updates && ColumnNamed(name).Some? && !Accepts(ColumnNamed(name).value, updates[name])) ==>
         code == 500 && after == rows)
  {
    var s := KeyIds(rows, key);
    assert s == {x};
    assert ScalarOneOrNone(s) == OneRow(x);
    var dirty := SetAttributes(updates);
    assert UpdateRecord(rows, key, updates, now) == CommitRow(rows, x, dirty, now);
    forall c | c != UpdatedAt
      ensures var (after, _, code) := CommitRow(rows, x, dirty, now);
        code == 200 ==> Value(after[x], c) == (if ColumnName(c) in updates then updates[ColumnName(c)] else Value(rows[x], c))
    {
      SetAttributesNamed(updates, c);
      CommitRowValues(rows, x, dirty, now, c);
    }
    CommitRowValues(rows, x, dirty, now, S3Key);
    if exists name :: name in updates && ColumnNamed(name).Some? && !Accepts(ColumnNamed(name).value, updates[name]) {
      var name :| name in updates && ColumnNamed(name).Some? && !Accepts(ColumnNamed(name).value, updates[name]);
      var c := ColumnNamed(name).value;
      SetAttributesNamed(updates, c);
      CommitRowValues(rows, x, dirty, now, c);
    }
  }

  /**
   * Nothing in an update guards the versioning columns: setting
   * `is_current_version` on an older row of a filename that has a current
   * row succeeds, and leaves the filename with two current rows.
   */
  lemma UpdateCanBreakOneCurrent(rows: Table, key: string, now: nat, x: nat, y: nat)
    requires WellKeyed(rows) && UniqueKeys(rows) && x in rows && y in rows && x != y
    requires rows[x].data.s3Key == key && !rows[x].isCurrent && rows[y].isCurrent
    requires rows[x].data.originalFilename == rows[y].data.originalFilename
    ensures var (after, _, code) := UpdateRecord(rows, key, map["is_current_version" := VBool(true)], now);
      code == 200 && !OneCurrentPerFilename(after)
  {
    SetCurrentFlag(rows, key, now, x);
    var after := UpdateRecord(rows, key, map["is_current_version" := VBool(true)], now).0;
    assert after[x].isCurrent && after[y].isCurrent;
  }

  /** Setting `is_current_version` on the row of a key succeeds and changes only that flag of that row. */
  lemma SetCurrentFlag(rows: Table, key: string, now: nat, x: nat)
    requires WellKeyed(rows) && UniqueKeys(rows) && x in rows && rows[x].data.s3Key == key
    ensures var (after, _, code) := UpdateRecord(rows, key, map["is_current_version" := VBool(true)], now);
      code == 200 && after.Keys == rows.Keys && after[x].isCurrent &&
      after[x].data.originalFilename == rows[x].data.originalFilename &&
      forall id :: id in rows && id != x ==> after[id] == rows[id]
  {
    assert KeyIds(rows, key) == {x};
    assert ScalarOneOrNone(KeyIds(rows, key)) == OneRow(x);
    CurrentFlagDirty();
    CommitCurrentFlag(rows, x, now);
  }

  /** The one attribute an update of `is_current_version` sets. */
  lemma CurrentFlagDirty()
    ensures SetAttributes(map["is_current_version" := VBool(true)]) == map[IsCurrentVersion := VBool(true)]
  {
    var none: map<string, UpdateValue> := map[];
    assert SetAttributes(none) == map[];
    assert ColumnNamed("is_current_version") == Some(IsCurrentVersion);
    SetAttributesAdd(none, "is_current_version", VBool(true));
    assert none["is_current_version" := VBool(true)] == map["is_current_version" := VBool(true)];
  }

  /** Committing `is_current_version = true` on a row succeeds while the keys are unique. */
  lemma CommitCurrentFlag(rows: Table, x: nat, now: nat)
    requires WellKeyed(rows) && UniqueKeys(rows) && x in rows
    ensures var (after, _, code) := CommitRow(rows, x, map[IsCurrentVersion := VBool(true)], now);
      code == 200 && after.Keys == rows.Keys && after[x].isCurrent &&
      after[x].data.originalFilename == rows[x].data.originalFilename &&
      forall id :: id in rows && id != x ==> after[id] == rows[id]
  {
    var dirty := map[IsCurrentVersion := VBool(true)];
    assert Flush(rows[x], dirty).Some? by {
      FlushEffect(rows[x], dirty, IsCurrentVersion);
    }
    FlushEffect(rows[x], dirty, S3Key);
    FlushEffect(rows[x], dirty, OriginalFilename);
    FlushEffect(rows[x], dirty, IsCurrentVersion);
    CommitRowKeepsTable(rows, x, dirty, now);
    assert !KeyTaken(rows - {x}, rows[x].data.s3Key);
  }

  /** What `create_upload_record` reports for a created row. */
  datatype UploadSummary = UploadSummary(id: nat, s3Key: string, version: int, isNewVersion: bool)

  /**
   * The `file_uploads` table and its serial id sequence.  Each method is one
   * service call in its own transaction: on failure the table is as before.
   */
  class FileTable {
    var rows: Table
    var nextId: nat

    ghost predicate Valid()
      reads this
    {
      Keyed(rows, nextId) && ParentsPresent(rows)
    }

    constructor()
      ensures rows == map[] && nextId == 1 && Valid()
    {
      rows := map[];
      nextId := 1;
    }

    /**
     * Adding a row at the next serial id and committing: the unique `s3_key`
     * column rejects a key already in use, and the `parent_version_id`
     * foreign key a parent that is not a row (500); then nothing is written.
     */
    method Insert(row: FileRecord) returns (code: int)
      requires Valid() && row.id == nextId
      modifies this
      ensures Valid()
      ensures code == (if KeyTaken(old(rows), row.data.s3Key) || ParentMissing(old(rows), row) then 500 else 201)
      ensures code == 201 ==> rows == old(rows)[old(nextId) := row] && nextId == old(nextId) + 1
      ensures code != 201 ==> rows == old(rows) && nextId == old(nextId)
    {
      if KeyTaken(rows, row.data.s3Key) || ParentMissing(rows, row) {
        return 500;
      }
      rows := rows[nextId := row];
      nextId := nextId + 1;
      return 201;
    }

    /**
     * `_cleanup_old_versions`, given the `(id, version)` rows its query
     * returns for the filename.
     */
    method CleanupOldVersions(filename: string, maxVersions: Option<int>, ordered: seq<IdVersion>)
      returns (deleted: nat)
      requires VersionOrder(ordered, rows, filename)
      modifies this
      ensures (rows, deleted) == Cleanup(old(rows), ordered, maxVersions)
      ensures nextId == old(nextId)
      ensures old(Valid()) ==> Valid()
    {
      deleted := 0;
      if maxVersions.Some? && |ordered| >= maxVersions.value {
        var s := SliceStart(|ordered|, maxVersions.value);
        if s < |ordered| {
          rows := DeleteIds(rows, IdsOf(ordered[s..]));
          deleted := |ordered| - s;
        }
      }
    }

    /** `create_new_version`, with `ordered` the pruning query's answer. */
    method CreateNewVersion(data: FileData, userId: string, comment: Option<string>,
                            config: Option<ConfigService.ConfigValue>, ordered: seq<IdVersion>, now: nat)
      returns (written: Option<FileRecord>, code: int)
      requires Valid() && VersionOrder(ordered, rows, data.originalFilename)
      modifies this
      ensures Valid()
      ensures Outcome(rows, nextId, written, code) == NewVersion(old(rows), old(nextId), data, userId, comment, config, ordered, now)
    {
      var f := data.originalFilename;
      var current := set id | id in rows && rows[id].isCurrent && rows[id].data.originalFilename == f;
      assert current == CurrentIds(rows, f);
      if current == {} {
        return None, 404;
      }
      if |current| > 1 {
        return None, 500;
      }
      var c :| c in current;
      assert ScalarOneOrNone(current) == OneRow(c);
      NewVersionOfCurrent(rows, nextId, data, userId, comment, config, ordered, now, c);
      var snapshot := rows;
      var previous := rows[c];
      rows := Demote(rows, c, now);
      assert Valid();
      DemotePreservesOrder(snapshot, c, now, ordered, f);
      var deleted := CleanupOldVersions(f, MaxVersions(config), ordered);
      var row := NextVersionRow(nextId, data, previous, ParseUserId(userId), comment, now);
      assert nextId !in rows;
      assert row.parentVersionId == Some(c);
      code := Insert(row);
      if code != 201 {
        rows := snapshot;
        return None, code;
      }
      written := Some(row);
    }

    /** `create_upload_record`, with `ordered` the pruning query's answer should it create a version. */
    method CreateUploadRecord(data: FileData, userId: string, comment: Option<string>,
                              config: Option<ConfigService.ConfigValue>, ordered: seq<IdVersion>, now: nat)
      returns (summary: Option<UploadSummary>, code: int)
      requires Valid() && VersionOrder(ordered, rows, data.originalFilename)
      modifies this
      ensures Valid()
      ensures var o := CreateRecord(old(rows), old(nextId), data, userId, comment, config, ordered, now);
        rows == o.rows && nextId == o.nextId && code == o.code &&
        (summary.Some? <==> code == 201) &&
        (summary.Some? ==>
           o.written.Some? &&
           summary.value == UploadSummary(o.written.value.id, o.written.value.data.s3Key, o.written.value.version,
                                          OwnedIds(old(rows), data.originalFilename, ParseUserId(userId)) != {}))
    {
      var d := data.(uploadStatus := "success");
      var uid := ParseUserId(userId);
      var owned := set id | id in rows && rows[id].data.originalFilename == d.originalFilename && rows[id].userId == uid;
      assert owned == OwnedIds(rows, d.originalFilename, uid);
      if owned != {} {
        var written;
        written, code := CreateNewVersion(d, userId, comment, config, ordered, now);
        if code != 201 {
          return None, code;
        }
        NewVersionFailureUnchanged(old(rows), old(nextId), d, userId, comment, config, ordered, now);
        summary := Some(UploadSummary(written.value.id, written.value.data.s3Key, written.value.version, true));
        return;
      }
      var row := FirstVersionRow(nextId, d, uid, comment, now);
      code := Insert(row);
      summary := if code == 201 then Some(UploadSummary(row.id, row.data.s3Key, row.version, false)) else None;
    }

    /** `restore_version` as written. */
    method RestoreVersion(versionId: nat, userId: string, comment: Option<string>, ip: Option<string>, now: nat)
      returns (written: Option<FileRecord>, code: int)
      requires Valid()
      modifies this
      ensures Valid()
      ensures Outcome(rows, nextId, written, code) == Restore(old(rows), old(nextId), versionId, userId, comment, ip, now)
    {
      if versionId !in rows {
        return None, 404;
      }
      var restored := rows[versionId];
      var current := set id | id in rows && rows[id].isCurrent && rows[id].data.s3Key == restored.data.s3Key;
      assert current == CurrentKeyIds(rows, restored.data.s3Key);
      if |current| != 1 {
        return None, 404;
      }
      var c :| c in current;
      assert ScalarOneOrNone(current) == OneRow(c);
      var snapshot := rows;
      var row := RestoredRow(nextId, restored, rows[c], ParseUserId(userId), comment, ip, now);
      rows := Demote(rows, c, now);
      code := Insert(row);
      if code != 201 {
        rows := snapshot;
        return None, code;
      }
      written := Some(row);
    }

    /**
     * `update_upload_record`: each update naming a column sets that
     * attribute on the loaded row, then the commit writes them.
     */
    method UpdateUploadRecord(key: string, updates: map<string, UpdateValue>, now: nat)
      returns (updated: Option<FileRecord>, code: int)
      requires Valid()
      modifies this
      ensures Valid()
      ensures (rows, updated, code) == UpdateRecord(old(rows), key, updates, now)
      ensures nextId == old(nextId)
    {
      var matching := set id | id in rows && rows[id].data.s3Key == key;
      assert matching == KeyIds(rows, key);
      if matching == {} {
        return None, 404;
      }
      if |matching| > 1 {
        return None, 500;
      }
      var x :| x in matching;
      assert ScalarOneOrNone(matching) == OneRow(x);
      var dirty := SetEach(updates);
      var (after, written, status) := CommitRow(rows, x, dirty, now);
      assert UpdateRecord(rows, key, updates, now) == (after, written, status);
      CommitRowKeepsTable(rows, x, dirty, now);
      rows := after;
      return written, status;
    }

    /** `get_upload_record`, which reads and changes nothing. */
    method GetUploadRecord(key: string) returns (record: Option<FileRecord>, code: int)
      ensures (record, code) == GetRecord(rows, key)
    {
      var matching := set id | id in rows && rows[id].data.s3Key == key;
      assert matching == KeyIds(rows, key);
      if matching == {} {
        return None, 404;
      }
      if |matching| > 1 {
        return None, 500;
      }
      var x :| x in matching;
      assert ScalarOneOrNone(matching) == OneRow(x);
      return Some(rows[x]), 200;
    }

    /** `delete_upload_record`. */
    method DeleteUploadRecord(key: string) returns (ok: bool, code: int)
      requires Valid()
      modifies this
      ensures Valid()
      ensures (rows, ok, code) == DeleteRecord(old(rows), key)
      ensures nextId == old(nextId)
    {
      var matching := set id | id in rows && rows[id].data.s3Key == key;
      assert matching == KeyIds(rows, key);
      if matching == {} {
        return false, 404;
      }
      if |matching| > 1 {
        return false, 500;
      }
      var x :| x in matching;
      assert ScalarOneOrNone(matching) == OneRow(x);
      DeleteIdsEffect(rows, {x});
      rows := DeleteIds(rows, {x});
      return true, 200;
    }
  }
}
