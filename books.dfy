/**
 * The book endpoints over the `books` table: the ORM routes (create, list,
 * get, update, delete) and, from the older asyncpg application, the
 * hand-built `UPDATE ... SET` statement and the `DELETE n` status check.
 */
module Books {
  import opened Wrappers
  import Text
  import Queries
  import Schemas

  const OK := 200
  const CREATED := 201
  const BAD_REQUEST := 400
  const NOT_FOUND := 404
  const SERVER_ERROR := 500

  /** A row of `books`; the genre column is text and the price a float. */
  datatype BookRow = BookRow(bookId: string, name: string, genre: string, price: real, createdAt: nat, updatedAt: nat)

  predicate UniqueIds(rows: seq<BookRow>)
  {
    forall i, j :: 0 <= i < j < |rows| ==> rows[i].bookId != rows[j].bookId
  }

  /** The position of `bookId`, if any. */
  function FindBook(rows: seq<BookRow>, bookId: string): Option<nat>
  {
    Queries.FindFirst(rows, (r: BookRow) => r.bookId, bookId)
  }


  function CreatedAt(b: BookRow): int
  {
    b.createdAt
  }

  /** The optional genre filter of `list_books`. */
  function InGenre(genre: Option<Schemas.Genre>): BookRow -> bool
  {
    (b: BookRow) => genre.None? || b.genre == Schemas.GenreValue(genre.value)
  }

  /** The columns an update may set. */
  datatype Column = Name | Genre | Price

  /** A value bound to a statement parameter. */
  datatype SqlValue = Text(s: string) | Float(r: real)

  /** `update_data`: the fields of the request that are not `None`, in the order name, genre, price. */
  function UpdateData(upd: Schemas.BookUpdate): (d: seq<(Column, SqlValue)>)
    ensures upd.name.Some? ==> (Name, Text(upd.name.value)) in d
    ensures upd.genre.Some? ==> (Genre, Text(Schemas.GenreValue(upd.genre.value))) in d
    ensures upd.price.Some? ==> (Price, Float(upd.price.value)) in d
    ensures forall e :: e in d ==>
      (e.0 == Name ==> upd.name.Some? && e == (Name, Text(upd.name.value))) &&
      (e.0 == Genre ==> upd.genre.Some? && e == (Genre, Text(Schemas.GenreValue(upd.genre.value)))) &&
      (e.0 == Price ==> upd.price.Some? && e == (Price, Float(upd.price.value)))
    ensures d == [] <==> upd.name.None? && upd.genre.None? && upd.price.None?
  {
    Field(upd.name.Some?, (Name, Text(upd.name.GetOr([])))) +
    Field(upd.genre.Some?, (Genre, Text(Schemas.GenreValue(upd.genre.GetOr(Schemas.Fiction))))) +
    Field(upd.price.Some?, (Price, Float(upd.price.GetOr(0.0))))
  }

  function Field(given: bool, e: (Column, SqlValue)): seq<(Column, SqlValue)>
  {
    if given then [e] else []
  }

  /** Assigning one column. */
  function Assign(b: BookRow, c: Column, v: SqlValue): BookRow
  {
    match c
    case Name => if v.Text? then b.(name := v.s) else b
    case Genre => if v.Text? then b.(genre := v.s) else b
    case Price => if v.Float? then b.(price := v.r) else b
  }

  /** Assigning the columns of `update_data` one after another. */
  function AssignAll(b: BookRow, d: seq<(Column, SqlValue)>): BookRow
    decreases |d|
  {
    if d == [] then b else AssignAll(Assign(b, d[0].0, d[0].1), d[1..])
  }

  lemma {:induction false} AssignAllConcat(b: BookRow, d1: seq<(Column, SqlValue)>, d2: seq<(Column, SqlValue)>)
    ensures AssignAll(b, d1 + d2) == AssignAll(AssignAll(b, d1), d2)
    decreases |d1|
  {
    if d1 != [] {
      assert (d1 + d2)[0] == d1[0];
      assert (d1 + d2)[1..] == d1[1..] + d2;
      AssignAllConcat(Assign(b, d1[0].0, d1[0].1), d1[1..], d2);
    } else {
      assert d1 + d2 == d2;
    }
  }

  /**
   * Setting the fields of `update_data` on a row sets exactly the given
   * fields, whatever their number.
   */
  lemma AssignUpdateData(b: BookRow, upd: Schemas.BookUpdate)
    ensures var r := AssignAll(b, UpdateData(upd));
      r.bookId == b.bookId && r.createdAt == b.createdAt && r.updatedAt == b.updatedAt &&
      r.name == (if upd.name.Some? then upd.name.value else b.name) &&
      r.genre == (if upd.genre.Some? then Schemas.GenreValue(upd.genre.value) else b.genre) &&
      r.price == (if upd.price.Some? then upd.price.value else b.price)
  {
    var f1 := Field(upd.name.Some?, (Name, Text(upd.name.GetOr([]))));
    var f2 := Field(upd.genre.Some?, (Genre, Text(Schemas.GenreValue(upd.genre.GetOr(Schemas.Fiction)))));
    var f3 := Field(upd.price.Some?, (Price, Float(upd.price.GetOr(0.0))));
    AssignAllConcat(b, f1 + f2, f3);
    AssignAllConcat(b, f1, f2);
    var b1 := AssignAll(b, f1);
    var b2 := AssignAll(b1, f2);
    assert f1 != [] ==> f1[1..] == [];
    assert f2 != [] ==> f2[1..] == [];
    assert f3 != [] ==> f3[1..] == [];
  }

  /** The row after an update: the given fields change, nothing else but the update time. */
  function ApplyBookUpdate(b: BookRow, upd: Schemas.BookUpdate, now: nat): (r: BookRow)
    ensures r.bookId == b.bookId && r.createdAt == b.createdAt && r.updatedAt == now
    ensures r.name == if upd.name.Some? then upd.name.value else b.name
    ensures r.genre == if upd.genre.Some? then Schemas.GenreValue(upd.genre.value) else b.genre
    ensures r.price == if upd.price.Some? then upd.price.value else b.price
  {
    AssignUpdateData(b, upd);
    AssignAll(b, UpdateData(upd)).(updatedAt := now)
  }

  class BookTable {
    var rows: seq<BookRow>

    predicate Valid()
      reads this
    {
      UniqueIds(rows)
    }

    constructor()
      ensures rows == [] && Valid()
    {
      rows := [];
    }

    /**
     * `create_book`: the validated book is stored under a fresh id and
     * returned with 201.  A failed commit, which includes an id already in
     * use, rolls back and gives 500.
     */
    method CreateBook(book: Schemas.Book, bookId: string, fault: bool, now: nat)
      returns (created: Option<BookRow>, code: int)
      requires Valid()
      modifies this
      ensures Valid()
      ensures fault || FindBook(old(rows), bookId).Some? ==> created.None? && code == SERVER_ERROR && rows == old(rows)
      ensures !fault && FindBook(old(rows), bookId).None? ==>
        code == CREATED &&
        created == Some(BookRow(bookId, book.name, Schemas.GenreValue(book.genre), book.price, now, now)) &&
        rows == old(rows) + [created.value]
    {
      if fault || FindBook(rows, bookId).Some? {
        return None, SERVER_ERROR;
      }
      var b := BookRow(bookId, book.name, Schemas.GenreValue(book.genre), book.price, now, now);
      rows := rows + [b];
      return Some(b), CREATED;
    }

    /**
     * `list_books`: the books of the given genre (all when none is given),
     * newest first, `limit` of them from `offset`.  A negative limit or
     * offset, which the database rejects, and a database error give 500.
     */
    method ListBooks(genre: Option<Schemas.Genre>, limit: int, offset: int, fault: bool)
      returns (books: Option<seq<BookRow>>, code: int)
      ensures fault || limit < 0 || offset < 0 <==> books.None? && code == SERVER_ERROR
      ensures books.Some? ==> code == OK && books.value == Queries.Page(rows, InGenre(genre), CreatedAt, offset, limit)
      ensures books.Some? ==>
        |books.value| <= limit && Queries.NewestFirst(books.value, CreatedAt) &&
        forall b :: b in books.value ==> b in rows && (genre.Some? ==> b.genre == Schemas.GenreValue(genre.value))
    {
      if fault || limit < 0 || offset < 0 {
        return None, SERVER_ERROR;
      }
      Queries.PageSound(rows, InGenre(genre), CreatedAt, offset, limit);
      return Some(Queries.Page(rows, InGenre(genre), CreatedAt, offset, limit)), OK;
    }

    /** `get_book_by_id`: the book, 404 when no row has the id, 500 on a database error. */
    method GetBookById(bookId: string, fault: bool) returns (book: Option<BookRow>, code: int)
      ensures fault ==> book.None? && code == SERVER_ERROR
      ensures !fault && FindBook(rows, bookId).None? ==> book.None? && code == NOT_FOUND
      ensures !fault && FindBook(rows, bookId).Some? ==>
        code == OK && book == Some(rows[FindBook(rows, bookId).value]) && book.value.bookId == bookId
    {
      if fault {
        return None, SERVER_ERROR;
      }
      var k := FindBook(rows, bookId);
      if k.None? {
        return None, NOT_FOUND;
      }
      return Some(rows[k.value]), OK;
    }

    /**
     * `update_book`: an unknown id is 404 and an update with no field is 400,
     * both with nothing changed; otherwise the given fields of that row
     * change and the refreshed row is returned.  A failed commit rolls back
     * and gives 500.
     */
    method UpdateBook(bookId: string, upd: Schemas.BookUpdate, fault: bool, now: nat)
      returns (book: Option<BookRow>, code: int)
      requires Valid()
      modifies this
      ensures Valid()
      ensures FindBook(old(rows), bookId).None? ==> book.None? && code == NOT_FOUND && rows == old(rows)
      ensures FindBook(old(rows), bookId).Some? && UpdateData(upd) == [] ==>
        book.None? && code == BAD_REQUEST && rows == old(rows)
      ensures FindBook(old(rows), bookId).Some? && UpdateData(upd) != [] && fault ==>
        book.None? && code == SERVER_ERROR && rows == old(rows)
      ensures FindBook(old(rows), bookId).Some? && UpdateData(upd) != [] && !fault ==>
        var k := FindBook(old(rows), bookId).value;
        code == OK && rows == old(rows)[k := ApplyBookUpdate(old(rows)[k], upd, now)] && book == Some(rows[k])
    {
      var k := FindBook(rows, bookId);
      if k.None? {
        return None, NOT_FOUND;
      }
      if UpdateData(upd) == [] {
        return None, BAD_REQUEST;
      }
      if fault {
        return None, SERVER_ERROR;
      }
      var i := k.value;
      var b := ApplyBookUpdate(rows[i], upd, now);
      rows := rows[i := b];
      assert forall j :: 0 <= j < |rows| ==> rows[j].bookId == old(rows)[j].bookId;
      return Some(b), OK;
    }

    /** `delete_book`: an unknown id is 404 with nothing changed; otherwise that row is removed. */
    method DeleteBook(bookId: string, fault: bool) returns (code: int)
      requires Valid()
      modifies this
      ensures Valid()
      ensures FindBook(old(rows), bookId).None? ==> code == NOT_FOUND && rows == old(rows)
      ensures FindBook(old(rows), bookId).Some? && fault ==> code == SERVER_ERROR && rows == old(rows)
      ensures FindBook(old(rows), bookId).Some? && !fault ==>
        var k := FindBook(old(rows), bookId).value;
        code == OK && rows == old(rows)[..k] + old(rows)[k + 1..]
      ensures code == OK ==> FindBook(rows, bookId).None? && |rows| == |old(rows)| - 1
    {
      var k := FindBook(rows, bookId);
      if k.None? {
        return NOT_FOUND;
      }
      if fault {
        return SERVER_ERROR;
      }
      var i := k.value;
      var r := rows[..i] + rows[i + 1..];
      assert forall j :: 0 <= j < |r| ==> r[j] == if j < i then rows[j] else rows[j + 1];
      rows := r;
      return OK;
    }
  }

  // ------------------------------------------------------------ asyncpg application

  /** `UPDATE books SET <col> = $<n>, ... WHERE book_id = $<where>` with its parameters. */
  datatype UpdateStatement = UpdateStatement(assignments: seq<(Column, nat)>, whereParam: nat, values: seq<SqlValue>)

  /** The assignments numbered from `$first`, one per field. */
  function Numbered(d: seq<(Column, SqlValue)>, first: nat): (a: seq<(Column, nat)>)
    ensures |a| == |d|
    ensures forall i :: 0 <= i < |a| ==> a[i] == (d[i].0, first + i)
  {
    if d == [] then [] else [(d[0].0, first)] + Numbered(d[1..], first + 1)
  }

  function ValuesOf(d: seq<(Column, SqlValue)>): (v: seq<SqlValue>)
    ensures |v| == |d| && forall i :: 0 <= i < |v| ==> v[i] == d[i].1
  {
    seq(|d|, i requires 0 <= i < |d| => d[i].1)
  }

  /**
   * The statement `update_book` builds: `None` (the 400) when no field is
   * given; otherwise the given fields in the order name, genre, price.
   */
  function BuildUpdate(bookId: string, upd: Schemas.BookUpdate): (s: Option<UpdateStatement>)
    ensures s.None? <==> UpdateData(upd) == []
  {
    var d := UpdateData(upd);
    if d == [] then None
    else Some(UpdateStatement(Numbered(d, 1), |d| + 1, ValuesOf(d) + [Text(bookId)]))
  }

  /** The statement's text. */
  function Render(s: UpdateStatement): string
  {
    "UPDATE books SET " + Text.Join(RenderAssignments(s.assignments), ", ") +
    " WHERE book_id = $" + Text.NatToString(s.whereParam)
  }

  function ColumnName(c: Column): string
  {
    match c
    case Name => "name"
    case Genre => "genre"
    case Price => "price"
  }

  function RenderAssignments(a: seq<(Column, nat)>): (r: seq<string>)
    ensures |r| == |a|
  {
    if a == [] then [] else [ColumnName(a[0].0) + " = $" + Text.NatToString(a[0].1)] + RenderAssignments(a[1..])
  }

  /**
   * The placeholders line up with the parameters: the k set fields use
   * `$1 .. $k` in order, the WHERE clause uses `$(k+1)`, and the parameters
   * are the k field values followed by the book id.
   */
  lemma BuildUpdatePlaceholders(bookId: string, upd: Schemas.BookUpdate)
    requires UpdateData(upd) != []
    ensures var s := BuildUpdate(bookId, upd).value;
      var k := |UpdateData(upd)|;
      |s.assignments| == k && s.whereParam == k + 1 && |s.values| == k + 1 &&
      (forall i :: 0 <= i < k ==> s.assignments[i].1 == i + 1 && s.values[i] == UpdateData(upd)[i].1) &&
      s.values[k] == Text(bookId)
  {
  }

  /** Running the statement on the row: each `$n` of the SET clause takes the n-th parameter. */
  function Execute(b: BookRow, s: UpdateStatement): BookRow
    decreases |s.assignments|
  {
    if s.assignments == [] then b
    else
      var (c, n) := s.assignments[0];
      var v := if 1 <= n <= |s.values| then s.values[n - 1] else Text("");
      Execute(Assign(b, c, v), s.(assignments := s.assignments[1..]))
  }

  /**
   * The asyncpg statement and the ORM route agree: running the built
   * statement changes the row exactly as the route's update does (up to
   * the update time the ORM stamps).
   */
  lemma BuiltStatementMatchesRoute(b: BookRow, bookId: string, upd: Schemas.BookUpdate, now: nat)
    requires UpdateData(upd) != []
    ensures Execute(b, BuildUpdate(bookId, upd).value).(updatedAt := now) == ApplyBookUpdate(b, upd, now)
  {
    var d := UpdateData(upd);
    var s := BuildUpdate(bookId, upd).value;
    ExecuteNumbered(b, d, 0, s.values);
  }

  /** Executing the assignments numbered from `$(j+1)` assigns the fields from position `j` on. */
  lemma {:induction false} ExecuteNumbered(b: BookRow, d: seq<(Column, SqlValue)>, j: nat, values: seq<SqlValue>)
    requires j <= |d| <= |values|
    requires forall i :: 0 <= i < |d| ==> values[i] == d[i].1
    ensures Execute(b, UpdateStatement(Numbered(d[j..], j + 1), |d| + 1, values)) == AssignAll(b, d[j..])
    decreases |d| - j
  {
    if j < |d| {
      var a := Numbered(d[j..], j + 1);
      assert a[0] == (d[j].0, j + 1);
      assert a[1..] == Numbered(d[j + 1..], j + 2);
      assert d[j..][1..] == d[j + 1..];
      ExecuteNumbered(Assign(b, d[j].0, d[j].1), d, j + 1, values);
    }
  }

  /** The status tag `DELETE n` of a delete that removed n rows. */
  function DeleteTag(n: nat): string
  {
    "DELETE " + Text.NatToString(n)
  }

  /** `delete_book` of the asyncpg application: the tag `DELETE 0` is 404, any other is 200. */
  function DeleteStatus(tag: string): (code: int)
    ensures code == NOT_FOUND <==> tag == "DELETE 0"
    ensures code != NOT_FOUND ==> code == OK
  {
    if tag == "DELETE 0" then NOT_FOUND else OK
  }

  /** With the id as primary key, the asyncpg delete is 404 exactly when no row had the id. */
  lemma DeleteStatusByRows(n: nat)
    ensures DeleteStatus(DeleteTag(n)) == NOT_FOUND <==> n == 0
  {
    if DeleteTag(n) == "DELETE 0" {
      assert Text.NatToString(n) == DeleteTag(n)[7..] == "0";
      Text.DigitsValueOfNatToString(n);
      Text.DigitsValueOfNatToString(0);
    }
  }
}
