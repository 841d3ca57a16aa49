/**
 * `FileListing`: the listing of current file versions — normalisation of
 * the paging and sorting parameters, the sort-key table, the filters the
 * query applies and the page cut from the query's answer.
 */
module FileListing {
  import opened Wrappers
  import Text
  import opened FileRecords
  import FileVersions

  /**
   * A paging argument as the caller passes it: absent, an integer, text, or
   * an object `int()` rejects with a `TypeError` (such as a session).
   */
  datatype Arg = Absent | IntArg(i: int) | TextArg(s: string) | Unconvertible

  /** `int(x) if x is not None else default` */
  function ToInt(a: Arg, default: int): (r: Option<int>)
    ensures a.Absent? ==> r == Some(default)
    ensures a.IntArg? ==> r == Some(a.i)
    ensures a.TextArg? ==> r == Text.ParseInt(a.s)
    ensures a.Unconvertible? ==> r.None?
  {
    match a
    case Absent => Some(default)
    case IntArg(i) => Some(i)
    case TextArg(s) => Text.ParseInt(s)
    case Unconvertible => None
  }

  /**
   * The limit and offset used: both converted, or, when either conversion
   * raises, both reset to 100 and 0.
   */
  function PageParams(limit: Arg, offset: Arg): (p: (int, int))
    ensures ToInt(limit, 100).Some? && ToInt(offset, 0).Some? ==> p == (ToInt(limit, 100).value, ToInt(offset, 0).value)
    ensures ToInt(limit, 100).None? || ToInt(offset, 0).None? ==> p == (100, 0)
  {
    var l := ToInt(limit, 100);
    var o := ToInt(offset, 0);
    if l.Some? && o.Some? then (l.value, o.value) else (100, 0)
  }

  /** A well-formed offset is dropped together with a malformed limit. */
  lemma BadLimitResetsOffset(limit: string, offset: int)
    requires Text.ParseInt(limit).None?
    ensures PageParams(TextArg(limit), IntArg(offset)) == (100, 0)
  {
  }

  /** The sort order: `"asc"` only when asked for (in any case), otherwise `"desc"`. */
  function SortOrder(order: Option<string>): (r: string)
    ensures r == "asc" || r == "desc"
    ensures r == "asc" <==> order.Some? && Text.Lower(order.value) == "asc"
  {
    var o := if order.Some? && order.value != "" then Text.Lower(order.value) else "desc";
    if o == "asc" || o == "desc" then o else "desc"
  }

  /** The columns a listing can be sorted on. */
  datatype Column =
    | OriginalFilename | FileSize | ContentType | Score | CreatedAt | UpdatedAt | Version
    | FirstName | LastName | Email

  predicate IsUserColumn(c: Column)
  {
    c == FirstName || c == LastName || c == Email
  }

  /** The sort-key table, looked up with the lower-cased key. */
  function SortColumn(key: string): Option<Column>
  {
    match key
    case "original_filename" => Some(OriginalFilename)
    case "filename" => Some(OriginalFilename)
    case "size" => Some(FileSize)
    case "file_size" => Some(FileSize)
    case "type" => Some(ContentType)
    case "content_type" => Some(ContentType)
    case "score" => Some(Score)
    case "created" => Some(CreatedAt)
    case "created_at" => Some(CreatedAt)
    case "updated" => Some(UpdatedAt)
    case "updated_at" => Some(UpdatedAt)
    case "version" => Some(Version)
    case "user_firstname" => Some(FirstName)
    case "first_name" => Some(FirstName)
    case "firstname" => Some(FirstName)
    case "user_lastname" => Some(LastName)
    case "last_name" => Some(LastName)
    case "lastname" => Some(LastName)
    case "user_email" => Some(Email)
    case "email" => Some(Email)
    case "user" => Some(FirstName)
    case _ => None
  }

  /** The keys for which the listing joins the users table. */
  const USER_SORT_KEYS: set<string> :=
    {"user_firstname", "first_name", "firstname", "user_lastname", "last_name", "lastname", "user_email", "email", "user"}

  /** The join list and the table agree: a key joins users exactly when it sorts on a user column. */
  lemma UserSortKeysAreUserColumns(key: string)
    ensures key in USER_SORT_KEYS <==> SortColumn(key).Some? && IsUserColumn(SortColumn(key).value)
  {
  }

  datatype Ordering = Ordering(column: Column, ascending: bool, joinUsers: bool)

  /**
   * The ordering applied: a known key (compared lower-cased) sorts on its
   * column in the normalised direction; no key or an unknown one falls back
   * to newest first.
   */
  function SortSpec(sortBy: Option<string>, order: string): (o: Ordering)
    ensures o.joinUsers <==> sortBy.Some? && Text.Lower(sortBy.value) in USER_SORT_KEYS
    ensures (sortBy.None? || SortColumn(Text.Lower(sortBy.value)).None?) ==> o == Ordering(CreatedAt, false, false)
    ensures sortBy.Some? && SortColumn(Text.Lower(sortBy.value)).Some? ==>
      o.column == SortColumn(Text.Lower(sortBy.value)).value && (o.ascending <==> order == "asc")
  {
    if sortBy.Some? && sortBy.value != "" then
      var k := Text.Lower(sortBy.value);
      UserSortKeysAreUserColumns(k);
      match SortColumn(k)
      case Some(c) => Ordering(c, order == "asc", k in USER_SORT_KEYS)
      case None => Ordering(CreatedAt, false, false)
    else
      UserSortKeysAreUserColumns("");
      Ordering(CreatedAt, false, false)
  }

  /** The sort is case-insensitive. */
  lemma SortSpecIgnoresCase(a: string, b: string, order: string)
    requires Text.Lower(a) == Text.Lower(b)
    ensures SortSpec(Some(a), order) == SortSpec(Some(b), order)
  {
  }

  datatype UserDetails = UserDetails(firstName: string, lastName: string, email: string)

  /** The filters of the query: owner, folder, search text, and the users join. */
  datatype Filter = Filter(userId: Option<int>, folder: Option<string>, search: Option<string>, joinUsers: bool)

  /** `column ILIKE '%text%'`: case-insensitive containment; a NULL column never matches. */
  predicate ILike(column: Option<string>, text: string)
  {
    column.Some? && Text.Contains(Text.Lower(column.value), Text.Lower(text))
  }

  predicate Matches(r: FileRecord, f: Filter, users: map<int, UserDetails>)
  {
    r.isCurrent &&
    (f.userId.Some? ==> r.userId == f.userId) &&
    (f.folder.Some? ==> r.data.folderPath == f.folder) &&
    (f.search.Some? ==>
       ILike(Some(r.data.originalFilename), f.search.value) || ILike(Some(r.data.s3Key), f.search.value) ||
       ILike(Some(r.data.contentType), f.search.value) || ILike(r.data.fileContent, f.search.value)) &&
    (f.joinUsers ==> r.userId.Some? && r.userId.value in users)
  }

  /** The ids the query selects. */
  function Candidates(rows: FileVersions.Table, f: Filter, users: map<int, UserDetails>): set<nat>
  {
    set id | id in rows && Matches(rows[id], f, users)
  }

  /**
   * The filters built from the arguments; `None` when the owner id does not
   * convert with `int()`, which raises.
   */
  function FilterOf(userId: Option<string>, folder: Option<string>, search: Option<string>,
                    sortBy: Option<string>): (f: Option<Filter>)
    ensures f.Some? ==> f.value.joinUsers == SortSpec(sortBy, "desc").joinUsers
    ensures f.Some? && f.value.search.Some? ==> f.value.search == search && search.value != ""
  {
    var owner := if userId.Some? && userId.value != "" then Text.ParseInt(userId.value) else Some(0);
    if owner.None? then None
    else
      Some(Filter(if userId.Some? && userId.value != "" then owner else None,
                  if folder.Some? && folder.value != "" then folder else None,
                  if search.Some? && search.value != "" then search else None,
                  SortSpec(sortBy, "desc").joinUsers))
  }

  predicate Distinct(s: seq<nat>)
  {
    forall i, j :: 0 <= i < j < |s| ==> s[i] != s[j]
  }

  function Elements(s: seq<nat>): set<nat>
  {
    set i | 0 <= i < |s| :: s[i]
  }

  /** The query's answer: every selected id once, in the database's order. */
  predicate QueryAnswer(ordered: seq<nat>, rows: FileVersions.Table, users: map<int, UserDetails>,
                        userId: Option<string>, folder: Option<string>, search: Option<string>, sortBy: Option<string>)
  {
    match FilterOf(userId, folder, search, sortBy)
    case None => true
    case Some(f) => Distinct(ordered) && Elements(ordered) == Candidates(rows, f, users)
  }

  lemma {:induction false} DistinctCard(s: seq<nat>)
    requires Distinct(s)
    ensures |Elements(s)| == |s|
  {
    if s != [] {
      var t := s[..|s| - 1];
      DistinctCard(t);
      assert Elements(s) == Elements(t) + {s[|s| - 1]};
      assert s[|s| - 1] !in Elements(t);
    }
  }

  /** The user details shown next to a row: none for a missing or zero owner id. */
  function DetailsOf(r: FileRecord, users: map<int, UserDetails>): Option<UserDetails>
  {
    if r.userId.Some? && r.userId.value != 0 && r.userId.value in users then Some(users[r.userId.value]) else None
  }

  function RecordsOf(ids: seq<nat>, rows: FileVersions.Table, users: map<int, UserDetails>)
    : (r: seq<(FileRecord, Option<UserDetails>)>)
    requires forall i :: 0 <= i < |ids| ==> ids[i] in rows
    ensures |r| == |ids|
    ensures forall i :: 0 <= i < |ids| ==> r[i] == (rows[ids[i]], DetailsOf(rows[ids[i]], users))
  {
    if ids == [] then [] else [(rows[ids[0]], DetailsOf(rows[ids[0]], users))] + RecordsOf(ids[1..], rows, users)
  }

  datatype Listing = Listing(records: seq<(FileRecord, Option<UserDetails>)>, totalCount: nat,
                             searchQuery: Option<string>, sortBy: Option<string>, sortOrder: string)

  function Min(a: int, b: int): int { if a <= b then a else b }

  function Max(a: int, b: int): int { if a >= b then a else b }

  /** The ids of the page `OFFSET o LIMIT l` cuts from the query's answer. */
  function Page(ordered: seq<nat>, l: nat, o: nat): (p: seq<nat>)
    ensures |p| == Min(l, Max(0, |ordered| - o))
    ensures forall i :: 0 <= i < |p| ==> p[i] == ordered[o + i]
  {
    ordered[Min(o, |ordered|)..Min(o + l, |ordered|)]
  }

  /**
   * `list_current_versions`, given the users table and the query's answer:
   * an owner id that does not convert, or a negative limit or offset, which
   * the database rejects, give 500; otherwise the page of `limit` records
   * from `offset`, and the count of all selected rows.
   */
  function ListCurrentVersions(rows: FileVersions.Table, users: map<int, UserDetails>, userId: Option<string>,
                               folder: Option<string>, search: Option<string>, sortBy: Option<string>,
                               sortOrder: Option<string>, limit: Arg, offset: Arg, ordered: seq<nat>)
    : (r: (Option<Listing>, int))
    requires QueryAnswer(ordered, rows, users, userId, folder, search, sortBy)
    ensures r.1 == 200 || r.1 == 500
    ensures r.1 == 200 <==> r.0.Some?
    ensures r.1 == 200 <==>
      FilterOf(userId, folder, search, sortBy).Some? && PageParams(limit, offset).0 >= 0 && PageParams(limit, offset).1 >= 0
    ensures r.1 == 200 ==>
      var f := FilterOf(userId, folder, search, sortBy).value;
      var (l, o) := PageParams(limit, offset);
      r.0.value.totalCount == |Candidates(rows, f, users)| &&
      |r.0.value.records| == Min(l, Max(0, |Candidates(rows, f, users)| - o)) &&
      (forall i :: 0 <= i < |r.0.value.records| ==>
         r.0.value.records[i].0.isCurrent && Matches(r.0.value.records[i].0, f, users)) &&
      r.0.value.searchQuery == search && r.0.value.sortBy == sortBy &&
      r.0.value.sortOrder == SortOrder(sortOrder)
    ensures r.1 == 200 ==> forall i :: 0 <= i < |ordered| ==> ordered[i] in rows
    ensures r.1 == 200 ==>
      r.0.value.records == RecordsOf(Page(ordered, PageParams(limit, offset).0, PageParams(limit, offset).1), rows, users)
  {
    var (l, o) := PageParams(limit, offset);
    match FilterOf(userId, folder, search, sortBy)
    case None => (None, 500)
    case Some(f) =>
      if l < 0 || o < 0 then (None, 500)
      else
        DistinctCard(ordered);
        var page := Page(ordered, l, o);
        assert forall i :: 0 <= i < |ordered| ==> ordered[i] in Candidates(rows, f, users);
        (Some(Listing(RecordsOf(page, rows, users), |ordered|, search, sortBy, SortOrder(sortOrder))), 200)
  }
}
