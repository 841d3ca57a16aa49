/**
 * `UploadsService` of the asyncpg application: the `file_uploads` table
 * behind its INSERT, SELECT and DELETE statements, the WHERE / LIMIT /
 * OFFSET builder of `list_uploads` with its numbered placeholders, and the
 * decoding of the stored metadata text by the two readers.
 */
module UploadsService {
  import opened Wrappers
  import Metadata
  import Queries
  import Books
  import Text

  // ------------------------------------------------------------ the connection

  /** What the service holds after `ensure_db_initialized`: a success flag, or a connection pool. */
  datatype Handle = Flag(ok: bool) | Pool

  /** `db_pool.acquire()` exists on a pool only; on anything else it raises. */
  predicate CanAcquire(h: Handle)
  {
    h.Pool?
  }

  /**
   * `ensure_db_connection` as written: `ensure_db_initialized` answers a
   * bool, which is never `None`, so the flag itself is handed on as the pool
   * and every statement of the service fails at `acquire()`.
   */
  function EnsureDbConnectionAsWritten(initialized: bool): (h: Option<Handle>)
    ensures h.Some? && !CanAcquire(h.value)
  {
    Some(Flag(initialized))
  }

  /**
   * `ensure_db_connection` as its check against `None` intends: the pool
   * when initialisation succeeded, nothing (and the service raises) when it
   * did not.
   */
  function EnsureDbConnection(initialized: bool): (h: Option<Handle>)
    ensures h.Some? <==> initialized
    ensures h.Some? ==> CanAcquire(h.value)
  {
    if initialized then Some(Pool) else None
  }

  /** Whether a statement reaches the table: a connection could be acquired and the statement did not raise. */
  predicate Reaches(initialized: bool, fault: bool)
  {
    var h := EnsureDbConnection(initialized);
    h.Some? && CanAcquire(h.value) && !fault
  }

  // ------------------------------------------------------------ rows

  /** A row of `file_uploads`; times are seconds. */
  datatype UploadRow = UploadRow(
    id: nat,
    originalFilename: string,
    s3Key: string,
    s3Url: string,
    fileSize: int,
    contentType: string,
    folderPath: Option<string>,
    userId: Option<string>,
    metadata: Option<string>,
    uploadIp: Option<string>,
    uploadStatus: string,
    createdAt: nat,
    updatedAt: nat)

  /** `s3_key` is UNIQUE. */
  predicate UniqueKeys(rows: seq<UploadRow>)
  {
    forall i, j :: 0 <= i < j < |rows| ==> rows[i].s3Key != rows[j].s3Key
  }

  /** The position of the row with key `key`. */
  function FindKey(rows: seq<UploadRow>, key: string): Option<nat>
  {
    Queries.FindFirst(rows, (r: UploadRow) => r.s3Key, key)
  }


  function CreatedAt(r: UploadRow): int
  {
    r.createdAt
  }

  function HasKey(key: string): UploadRow -> bool
  {
    (r: UploadRow) => r.s3Key == key
  }

  function OtherKey(key: string): UploadRow -> bool
  {
    (r: UploadRow) => r.s3Key != key
  }

  /** `json.dumps(metadata) if metadata else None`: an absent or empty object is stored as NULL. */
  function StoredMetadata(metadata: Option<map<string, Metadata.Json>>,
                          dumps: map<string, Metadata.Json> -> string): Option<string>
  {
    if metadata.Some? && metadata.value != map[] then Some(dumps(metadata.value)) else None
  }

  /** The row `create_upload_record` inserts: the given columns, status `success` by default. */
  function NewRow(id: nat, originalFilename: string, s3Key: string, s3Url: string, fileSize: int,
                  contentType: string, folderPath: Option<string>, userId: Option<string>,
                  metadata: Option<map<string, Metadata.Json>>, uploadIp: Option<string>,
                  dumps: map<string, Metadata.Json> -> string, now: nat): (r: UploadRow)
    ensures r.s3Key == s3Key && r.originalFilename == originalFilename && r.userId == userId
    ensures r.folderPath == folderPath && r.uploadStatus == "success"
    ensures r.metadata.None? <==> metadata.None? || metadata.value == map[]
    ensures r.createdAt == now == r.updatedAt
  {
    UploadRow(id, originalFilename, s3Key, s3Url, fileSize, contentType, folderPath, userId,
              StoredMetadata(metadata, dumps), uploadIp, "success", now, now)
  }

  // ------------------------------------------------------------ metadata

  /** A metadata value as the service hands it back: text left alone, or a decoded value (`None` is `JNull`). */
  datatype MetaField = Kept(s: string) | Decoded(value: Metadata.Json)

  /** A record as the readers return it: the row with its metadata processed. */
  datatype Record = Record(row: UploadRow, metadata: MetaField)

  /** Whether decoding the stored text escapes with an exception other than a decode error. */
  predicate Decodes(text: Option<string>, parse: string -> Metadata.ParseOutcome)
  {
    text.None? || text.value == [] || !parse(text.value).OtherError?
  }

  /**
   * The metadata step of both readers: NULL stays `None`, an empty text is
   * left as it is (it is falsy), any other text is decoded; a decode error
   * gives `fallback`.  `parse` is what `json.loads` does with a text.
   */
  function DecodeMetadata(text: Option<string>, parse: string -> Metadata.ParseOutcome,
                          fallback: Metadata.Json): (m: Option<MetaField>)
    ensures m.Some? <==> Decodes(text, parse)
    ensures m.Some? && m.value.Kept? ==> text == Some([])
  {
    if text.None? then Some(Decoded(Metadata.JNull))
    else if text.value == [] then Some(Kept([]))
    else match parse(text.value)
      case Parsed(v) => Some(Decoded(v))
      case DecodeError(_) => Some(Decoded(fallback))
      case OtherError(_) => None
  }

  /** `get_upload_by_s3_key` replaces undecodable text by `None`. */
  const GET_FALLBACK := Metadata.JNull

  /** `list_uploads` replaces undecodable text by `{}`. */
  const LIST_FALLBACK := Metadata.JObject(map[])

  /**
   * The two readers disagree on a record exactly when its metadata text is
   * malformed JSON: one answers `None`, the other `{}`.
   */
  lemma MetadataFallbacksDiffer(text: Option<string>, parse: string -> Metadata.ParseOutcome)
    ensures DecodeMetadata(text, parse, GET_FALLBACK) != DecodeMetadata(text, parse, LIST_FALLBACK) <==>
      text.Some? && text.value != [] && parse(text.value).DecodeError?
    ensures text.Some? && text.value != [] && parse(text.value).DecodeError? ==>
      DecodeMetadata(text, parse, GET_FALLBACK) == Some(Decoded(Metadata.JNull)) &&
      DecodeMetadata(text, parse, LIST_FALLBACK) == Some(Decoded(Metadata.JObject(map[])))
  {
    if text.Some? && text.value != [] && parse(text.value).DecodeError? {
      assert Metadata.JNull != Metadata.JObject(map[]);
    }
  }

  /**
   * Metadata stored by `create_upload_record` reads back as the object
   * written, when `json.loads` inverts `json.dumps`; an empty object was
   * stored as NULL and reads back as `None`, not `{}`.
   */
  lemma StoredMetadataReadsBack(metadata: Option<map<string, Metadata.Json>>,
                                dumps: map<string, Metadata.Json> -> string,
                                parse: string -> Metadata.ParseOutcome, fallback: Metadata.Json)
    requires metadata.Some? ==> dumps(metadata.value) != [] && parse(dumps(metadata.value)) == Metadata.Parsed(Metadata.JObject(metadata.value))
    ensures DecodeMetadata(StoredMetadata(metadata, dumps), parse, fallback) ==
      Some(Decoded(if metadata.Some? && metadata.value != map[] then Metadata.JObject(metadata.value) else Metadata.JNull))
  {
  }

  /** Every record of `records` decodes without an escaping exception. */
  predicate AllDecode(records: seq<UploadRow>, parse: string -> Metadata.ParseOutcome)
  {
    forall i :: 0 <= i < |records| ==> Decodes(records[i].metadata, parse)
  }

  /**
   * The processing loop of `list_uploads`: each record gets its metadata
   * decoded with `{}` as the fallback; an escaping exception ends the call.
   */
  method ProcessRecords(records: seq<UploadRow>, parse: string -> Metadata.ParseOutcome)
    returns (out: Option<seq<Record>>)
    ensures out.Some? <==> AllDecode(records, parse)
    ensures out.Some? ==> |out.value| == |records|
    ensures out.Some? ==> forall i :: 0 <= i < |records| ==>
      out.value[i] == Record(records[i], DecodeMetadata(records[i].metadata, parse, LIST_FALLBACK).value)
  {
    var processed: seq<Record> := [];
    var i := 0;
    while i < |records|
      invariant 0 <= i <= |records|
      invariant AllDecode(records[..i], parse)
      invariant |processed| == i
      invariant forall j :: 0 <= j < i ==>
        processed[j] == Record(records[j], DecodeMetadata(records[j].metadata, parse, LIST_FALLBACK).value)
    {
      var m := DecodeMetadata(records[i].metadata, parse, LIST_FALLBACK);
      if m.None? {
        assert !AllDecode(records, parse) by {
          assert !Decodes(records[i].metadata, parse);
        }
        return None;
      }
      processed := processed + [Record(records[i], m.value)];
      assert records[..i + 1] == records[..i] + [records[i]];
      i := i + 1;
    }
    assert records[..i] == records;
    return Some(processed);
  }

  // ------------------------------------------------------------ list_uploads query

  datatype Column = UserId | FolderPath

  /** `<column> = $<placeholder>` */
  datatype Condition = Condition(column: Column, placeholder: nat)

  /** An argument bound to a placeholder. */
  datatype Param = TextParam(s: string) | IntParam(n: int)

  /**
   * The two statements of `list_uploads`: the count query runs with
   * `countParams`; the data query adds `LIMIT $limitAt OFFSET $offsetAt`
   * and runs with `dataParams`.
   */
  datatype ListQuery = ListQuery(conditions: seq<Condition>, countParams: seq<Param>,
                                 limitAt: nat, offsetAt: nat, dataParams: seq<Param>)

  /** Python's truth value of an optional text. */
  predicate Truthy(s: Option<string>)
  {
    s.Some? && s.value != []
  }

  function ColumnName(c: Column): string
  {
    match c
    case UserId => "user_id"
    case FolderPath => "folder_path"
  }

  function ColumnValue(r: UploadRow, c: Column): Option<string>
  {
    match c
    case UserId => r.userId
    case FolderPath => r.folderPath
  }

  function RenderCondition(c: Condition): string
  {
    ColumnName(c.column) + " = $" + Text.NatToString(c.placeholder)
  }

  /** The WHERE clause: the conditions joined by ` AND `, `1=1` when there are none. */
  function WhereClause(conditions: seq<Condition>): (w: string)
    ensures conditions == [] ==> w == "1=1"
    ensures |conditions| == 1 ==> w == RenderCondition(conditions[0])
  {
    if conditions == [] then "1=1"
    else Text.Join(seq(|conditions|, i requires 0 <= i < |conditions| => RenderCondition(conditions[i])), " AND ")
  }

  /** The placeholders the WHERE clause uses. */
  function Placeholders(conditions: seq<Condition>): set<nat>
  {
    set i | 0 <= i < |conditions| :: conditions[i].placeholder
  }

  /** `used` is exactly `$1` to `$n`. */
  predicate Numbered(used: set<nat>, n: nat)
  {
    (forall p :: p in used ==> 1 <= p <= n) && (forall i: nat :: 1 <= i <= n ==> i in used)
  }

  /**
   * Postgres counts a statement's parameters by the placeholders it uses
   * (an unused lower number has no type), and asyncpg demands exactly one
   * argument per parameter: the placeholders must be `$1` to `$n` for n
   * arguments.
   */
  predicate CountWellFormed(q: ListQuery)
  {
    Numbered(Placeholders(q.conditions), |q.countParams|)
  }

  predicate DataWellFormed(q: ListQuery)
  {
    Numbered(Placeholders(q.conditions) + {q.limitAt, q.offsetAt}, |q.dataParams|)
  }

  /** The condition holds of a row under the bound arguments: the column equals the text bound to its placeholder. */
  predicate Holds(r: UploadRow, c: Condition, args: seq<Param>)
  {
    1 <= c.placeholder <= |args| && args[c.placeholder - 1].TextParam? &&
    ColumnValue(r, c.column) == Some(args[c.placeholder - 1].s)
  }

  predicate SatisfiesAll(r: UploadRow, conditions: seq<Condition>, args: seq<Param>)
  {
    forall i :: 0 <= i < |conditions| ==> Holds(r, conditions[i], args)
  }

  /** The rows the caller asks for: a given (truthy) user and folder must match. */
  function RowFilter(userId: Option<string>, folder: Option<string>): UploadRow -> bool
  {
    (r: UploadRow) => (Truthy(userId) ==> r.userId == userId) && (Truthy(folder) ==> r.folderPath == folder)
  }

  /** Both statements select exactly the rows the caller asks for. */
  ghost predicate Selects(q: ListQuery, userId: Option<string>, folder: Option<string>)
  {
    forall r :: (SatisfiesAll(r, q.conditions, q.countParams) <==> RowFilter(userId, folder)(r)) &&
                (SatisfiesAll(r, q.conditions, q.dataParams) <==> RowFilter(userId, folder)(r))
  }

  /** LIMIT and OFFSET follow the filter arguments, and their arguments are appended in that order. */
  predicate PagingPlaced(q: ListQuery, limit: int, offset: int)
  {
    q.limitAt == |q.countParams| + 1 && q.offsetAt == |q.countParams| + 2 &&
    q.dataParams == q.countParams + [IntParam(limit), IntParam(offset)]
  }

  /** The filters given, in the order the builder adds them. */
  function FilterCount(userId: Option<string>, folder: Option<string>): nat
  {
    (if Truthy(userId) then 1 else 0) + (if Truthy(folder) then 1 else 0)
  }

  /** A query whose conditions are numbered from `$1` in the order of their arguments, each bound to the text it tests. */
  lemma NumberedQuerySound(q: ListQuery, userId: Option<string>, folder: Option<string>, limit: int, offset: int)
    requires PagingPlaced(q, limit, offset)
    requires |q.conditions| == |q.countParams| == FilterCount(userId, folder)
    requires forall i :: 0 <= i < |q.conditions| ==> q.conditions[i].placeholder == i + 1
    requires Truthy(userId) ==> q.conditions[0] == Condition(UserId, 1) && q.countParams[0] == TextParam(userId.value)
    requires Truthy(folder) ==> var k := |q.conditions| - 1;
      q.conditions[k].column == FolderPath && q.countParams[k] == TextParam(folder.value)
    ensures CountWellFormed(q) && DataWellFormed(q) && Selects(q, userId, folder)
  {
    var n := |q.conditions|;
    forall i: nat | 1 <= i <= n ensures i in Placeholders(q.conditions) {
      assert q.conditions[i - 1].placeholder == i;
    }
    forall i: nat | 1 <= i <= n + 2 ensures i in Placeholders(q.conditions) + {q.limitAt, q.offsetAt} {
      if i <= n {
        assert q.conditions[i - 1].placeholder == i;
      }
    }
    forall r: UploadRow
      ensures (SatisfiesAll(r, q.conditions, q.countParams) <==> RowFilter(userId, folder)(r)) &&
              (SatisfiesAll(r, q.conditions, q.dataParams) <==> RowFilter(userId, folder)(r))
    {
      forall i | 0 <= i < n
        ensures Holds(r, q.conditions[i], q.countParams) <==> Holds(r, q.conditions[i], q.dataParams)
      {
        assert q.dataParams[i] == q.countParams[i];
      }
      if Truthy(userId) {
        assert userId == Some(userId.value);
      }
      if Truthy(folder) {
        assert folder == Some(folder.value);
      }
    }
  }

  /**
   * The `list_uploads` builder with each placeholder numbered after the
   * arguments already bound: `1=1` without filters, both statements
   * well formed and selecting exactly the requested rows, LIMIT and OFFSET
   * after the filter arguments.
   */
  method BuildListQuery(userId: Option<string>, folder: Option<string>, limit: int, offset: int)
    returns (q: ListQuery)
    ensures CountWellFormed(q) && DataWellFormed(q) && Selects(q, userId, folder)
    ensures PagingPlaced(q, limit, offset)
    ensures |q.countParams| == FilterCount(userId, folder)
    ensures WhereClause(q.conditions) == "1=1" <==> !Truthy(userId) && !Truthy(folder)
  {
    var conditions: seq<Condition> := [];
    var params: seq<Param> := [];
    if Truthy(userId) {
      conditions := conditions + [Condition(UserId, |params| + 1)];
      params := params + [TextParam(userId.value)];
    }
    if Truthy(folder) {
      conditions := conditions + [Condition(FolderPath, |params| + 1)];
      params := params + [TextParam(folder.value)];
    }
    var countParams := params;
    var limitAt := |params| + 1;
    var offsetAt := |params| + 2;
    params := params + [IntParam(limit), IntParam(offset)];
    q := ListQuery(conditions, countParams, limitAt, offsetAt, params);
    NumberedQuerySound(q, userId, folder, limit, offset);
    WhereClauseOfFilters(conditions);
  }

  /** The WHERE clause is `1=1` exactly when there is no condition. */
  lemma WhereClauseOfFilters(conditions: seq<Condition>)
    requires |conditions| <= 2
    ensures WhereClause(conditions) == "1=1" <==> conditions == []
  {
    if conditions != [] {
      var w := WhereClause(conditions);
      var first := RenderCondition(conditions[0]);
      assert first[0] != '1' by {
        assert first[0] == ColumnName(conditions[0].column)[0];
      }
      if |conditions| == 2 {
        var parts := seq(|conditions|, i requires 0 <= i < |conditions| => RenderCondition(conditions[i]));
        JoinStartsWithFirst(parts, " AND ");
      }
      assert w[0] == first[0];
    }
  }

  lemma JoinStartsWithFirst(parts: seq<string>, sep: string)
    requires |parts| == 2 && parts[0] != []
    ensures Text.Join(parts, sep) != [] && Text.Join(parts, sep)[0] == parts[0][0]
  {
    assert parts[1..] == [parts[1]];
  }

  /**
   * The builder as written: the user filter is always `$1` and the folder
   * filter always `$2`.  With both filters, or the user filter alone, the
   * statements are sound; with the folder filter alone the count query uses
   * `$2` with one argument bound, and the data query `$2` and `$3` with
   * three, so Postgres and asyncpg reject both.
   */
  method BuildListQueryAsWritten(userId: Option<string>, folder: Option<string>, limit: int, offset: int)
    returns (q: ListQuery)
    ensures Truthy(userId) || !Truthy(folder) ==> CountWellFormed(q) && DataWellFormed(q) && Selects(q, userId, folder)
    ensures !Truthy(userId) && Truthy(folder) ==> !CountWellFormed(q) && !DataWellFormed(q)
    ensures PagingPlaced(q, limit, offset)
  {
    var conditions: seq<Condition> := [];
    var params: seq<Param> := [];
    if Truthy(userId) {
      conditions := conditions + [Condition(UserId, 1)];
      params := params + [TextParam(userId.value)];
    }
    if Truthy(folder) {
      conditions := conditions + [Condition(FolderPath, 2)];
      params := params + [TextParam(folder.value)];
    }
    var countParams := params;
    var limitAt := |params| + 1;
    var offsetAt := |params| + 2;
    params := params + [IntParam(limit), IntParam(offset)];
    q := ListQuery(conditions, countParams, limitAt, offsetAt, params);
    if Truthy(userId) || !Truthy(folder) {
      NumberedQuerySound(q, userId, folder, limit, offset);
    } else {
      assert 1 !in Placeholders(conditions) by {
        assert conditions == [Condition(FolderPath, 2)];
      }
      assert |q.countParams| == 1 && |q.dataParams| == 3;
      assert 1 !in Placeholders(q.conditions) + {q.limitAt, q.offsetAt};
    }
  }

  // ------------------------------------------------------------ the delete tag

  /** `result == "DELETE 1"` holds exactly when one row was deleted. */
  lemma DeleteTagOne(n: nat)
    ensures Books.DeleteTag(n) == "DELETE 1" <==> n == 1
  {
    if Books.DeleteTag(n) == "DELETE 1" {
      assert Text.NatToString(n) == Books.DeleteTag(n)[7..] == "1";
      Text.DigitsValueOfNatToString(n);
      Text.DigitsValueOfNatToString(1);
    }
  }

  /** Under a unique key, at most one row has a given key. */
  lemma {:induction false} KeyCount(rows: seq<UploadRow>, key: string)
    requires UniqueKeys(rows)
    ensures |Queries.Where(rows, HasKey(key))| == if FindKey(rows, key).Some? then 1 else 0
  {
    if rows != [] {
      assert UniqueKeys(rows[1..]) by {
        forall i, j | 0 <= i < j < |rows[1..]| ensures rows[1..][i].s3Key != rows[1..][j].s3Key {
          assert rows[1..][i] == rows[i + 1] && rows[1..][j] == rows[j + 1];
        }
      }
      KeyCount(rows[1..], key);
      if rows[0].s3Key == key {
        forall i | 0 <= i < |rows[1..]| ensures rows[1..][i].s3Key != key {
          assert rows[1..][i] == rows[i + 1];
        }
        assert FindKey(rows[1..], key).None?;
      }
    }
  }

  /** Filtering keeps keys unique. */
  lemma {:induction false} WhereKeepsUnique(rows: seq<UploadRow>, p: UploadRow -> bool)
    requires UniqueKeys(rows)
    ensures UniqueKeys(Queries.Where(rows, p))
  {
    if rows != [] {
      assert UniqueKeys(rows[1..]) by {
        forall i, j | 0 <= i < j < |rows[1..]| ensures rows[1..][i].s3Key != rows[1..][j].s3Key {
          assert rows[1..][i] == rows[i + 1] && rows[1..][j] == rows[j + 1];
        }
      }
      WhereKeepsUnique(rows[1..], p);
      if p(rows[0]) {
        var t := Queries.Where(rows[1..], p);
        var r := [rows[0]] + t;
        forall j | 0 <= j < |t| ensures rows[0].s3Key != t[j].s3Key {
          assert t[j] in rows[1..];
          var k :| 0 <= k < |rows[1..]| && rows[1..][k] == t[j];
          assert rows[1..][k] == rows[k + 1];
        }
        forall i, j | 0 <= i < j < |r| ensures r[i].s3Key != r[j].s3Key {
          assert r[j] == t[j - 1];
          if i > 0 { assert r[i] == t[i - 1]; }
        }
      }
    }
  }

  /** The result of `list_uploads`. */
  datatype Listing = Listing(records: seq<Record>, totalCount: nat)

  // ------------------------------------------------------------ the service

  /** The `file_uploads` table the service reads and writes. */
  class UploadTable {
    var rows: seq<UploadRow>

    predicate Valid()
      reads this
    {
      UniqueKeys(rows)
    }

    constructor ()
      ensures rows == [] && Valid()
    {
      rows := [];
    }

    /** `SELECT * ... ORDER BY created_at DESC LIMIT limit OFFSET offset` over the requested rows. */
    function ListPage(userId: Option<string>, folder: Option<string>, limit: nat, offset: nat): seq<UploadRow>
      reads this
    {
      Queries.Page(rows, RowFilter(userId, folder), CreatedAt, offset, limit)
    }

    /**
     * The listing holds the count of all requested rows and the page, each
     * record with its metadata decoded with `{}` as the fallback.
     */
    predicate Lists(listing: Listing, userId: Option<string>, folder: Option<string>, limit: nat, offset: nat,
                    parse: string -> Metadata.ParseOutcome)
      reads this
    {
      var page := ListPage(userId, folder, limit, offset);
      listing.totalCount == |Queries.Where(rows, RowFilter(userId, folder))| &&
      |listing.records| == |page| <= limit && AllDecode(page, parse) &&
      forall i :: 0 <= i < |page| ==>
        listing.records[i] == Record(page[i], DecodeMetadata(page[i].metadata, parse, LIST_FALLBACK).value)
    }

    /**
     * `create_upload_record`: the inserted row, with its metadata stored as
     * JSON text when it is a non-empty object; the statement raises (here
     * `None`) when the connection or the statement fails or the key is
     * already recorded.
     */
    method CreateUploadRecord(originalFilename: string, s3Key: string, s3Url: string, fileSize: int,
                              contentType: string, folderPath: Option<string>, userId: Option<string>,
                              metadata: Option<map<string, Metadata.Json>>, uploadIp: Option<string>,
                              dumps: map<string, Metadata.Json> -> string, id: nat, now: nat,
                              initialized: bool, fault: bool)
      returns (r: Option<UploadRow>)
      requires Valid()
      modifies this
      ensures Valid()
      ensures r.None? <==> !Reaches(initialized, fault) || FindKey(old(rows), s3Key).Some?
      ensures r.None? ==> rows == old(rows)
      ensures r.Some? ==> r.value == NewRow(id, originalFilename, s3Key, s3Url, fileSize, contentType, folderPath,
                                            userId, metadata, uploadIp, dumps, now)
      ensures r.Some? ==> rows == old(rows) + [r.value]
    {
      if !Reaches(initialized, fault) || FindKey(rows, s3Key).Some? {
        return None;
      }
      var row := NewRow(id, originalFilename, s3Key, s3Url, fileSize, contentType, folderPath,
                        userId, metadata, uploadIp, dumps, now);
      rows := rows + [row];
      return Some(row);
    }

    /**
     * `get_upload_by_s3_key`: the record with its metadata decoded, `None`
     * for undecodable text; `None` overall when there is no such row or
     * anything raises.
     */
    method GetUploadByS3Key(s3Key: string, parse: string -> Metadata.ParseOutcome, initialized: bool, fault: bool)
      returns (r: Option<Record>)
      requires Valid()
      ensures r.Some? <==> Reaches(initialized, fault) && FindKey(rows, s3Key).Some? &&
                           Decodes(rows[FindKey(rows, s3Key).value].metadata, parse)
      ensures r.Some? ==> r.value.row.s3Key == s3Key && r.value.row in rows
      ensures r.Some? ==> r.value.metadata == DecodeMetadata(r.value.row.metadata, parse, GET_FALLBACK).value
    {
      if !Reaches(initialized, fault) {
        return None;
      }
      var k := FindKey(rows, s3Key);
      if k.None? {
        return None;
      }
      var m := DecodeMetadata(rows[k.value].metadata, parse, GET_FALLBACK);
      if m.None? {
        return None;
      }
      return Some(Record(rows[k.value], m.value));
    }

    /**
     * `list_uploads`, with the corrected builder: the count of the
     * requested rows, and the requested page of them newest first with
     * their metadata decoded (`{}` for undecodable text).  A negative limit
     * or offset, which Postgres rejects, a connection or statement failure,
     * and an escaping decode exception raise (here `None`).
     */
    method ListUploads(userId: Option<string>, folder: Option<string>, limit: int, offset: int,
                       parse: string -> Metadata.ParseOutcome, initialized: bool, fault: bool)
      returns (r: Option<Listing>)
      ensures !Reaches(initialized, fault) || limit < 0 || offset < 0 ==> r.None?
      ensures Reaches(initialized, fault) && limit >= 0 && offset >= 0 ==>
        (r.Some? <==> AllDecode(ListPage(userId, folder, limit, offset), parse))
      ensures r.Some? ==> limit >= 0 && offset >= 0 && Lists(r.value, userId, folder, limit, offset, parse)
      ensures r.Some? ==> var page := ListPage(userId, folder, limit, offset);
        Queries.NewestFirst(page, CreatedAt) && forall x :: x in page ==> x in rows && RowFilter(userId, folder)(x)
    {
      if !Reaches(initialized, fault) {
        return None;
      }
      var q := BuildListQuery(userId, folder, limit, offset);
      var selected := (x: UploadRow) => SatisfiesAll(x, q.conditions, q.countParams);
      SameWhere(rows, selected, RowFilter(userId, folder));
      var totalCount := |Queries.Where(rows, selected)|;
      if limit < 0 || offset < 0 {
        return None;
      }
      var page := Queries.Page(rows, RowFilter(userId, folder), CreatedAt, offset, limit);
      Queries.PageSound(rows, RowFilter(userId, folder), CreatedAt, offset, limit);
      var records := ProcessRecords(page, parse);
      if records.None? {
        return None;
      }
      return Some(Listing(records.value, totalCount));
    }

    /**
     * `delete_upload_record`: true exactly when the statement reports
     * `DELETE 1`, which under the unique key is when the row was there; a
     * failure answers false and deletes nothing.
     */
    method DeleteUploadRecord(s3Key: string, initialized: bool, fault: bool) returns (ok: bool)
      requires Valid()
      modifies this
      ensures Valid()
      ensures !Reaches(initialized, fault) ==> !ok && rows == old(rows)
      ensures Reaches(initialized, fault) ==> rows == Queries.Where(old(rows), OtherKey(s3Key))
      ensures ok <==> Reaches(initialized, fault) && FindKey(old(rows), s3Key).Some?
      ensures Reaches(initialized, fault) ==> FindKey(rows, s3Key).None?
    {
      if !Reaches(initialized, fault) {
        return false;
      }
      var before := rows;
      var removed := |Queries.Where(before, HasKey(s3Key))|;
      Queries.WherePartition(before, HasKey(s3Key), OtherKey(s3Key));
      KeyCount(before, s3Key);
      WhereKeepsUnique(before, OtherKey(s3Key));
      rows := Queries.Where(before, OtherKey(s3Key));
      DeleteTagOne(removed);
      ok := Books.DeleteTag(removed) == "DELETE 1";
    }
  }

  /** Two conditions that agree on every row select the same rows. */
  lemma {:induction false} SameWhere(rows: seq<UploadRow>, p: UploadRow -> bool, q: UploadRow -> bool)
    requires forall x :: p(x) == q(x)
    ensures Queries.Where(rows, p) == Queries.Where(rows, q)
  {
    if rows != [] {
      SameWhere(rows[1..], p, q);
    }
  }
}
