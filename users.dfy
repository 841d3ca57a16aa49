/**
 * `UserService` over the `users` table and the user routes in front of it:
 * creation with a unique e-mail, lookups by id and by e-mail, partial
 * updates, deletion and paged listing.
 */
module Users {
  import opened Wrappers
  import Access
  import Queries

  const OK := 200
  const CREATED := 201
  const NO_CONTENT := 204
  const NOT_FOUND := 404
  const CONFLICT := 409
  const SERVER_ERROR := 500

  /** A row of `users`; times are seconds. */
  datatype UserRow = UserRow(
    id: nat,
    email: string,
    firstName: string,
    lastName: string,
    passwordHash: string,
    role: string,
    isActive: Option<bool>,
    createdAt: nat,
    updatedAt: nat)

  /** The dictionary the service returns; `passwordHash` is present only in the by-e-mail lookup. */
  datatype UserDict = UserDict(
    id: nat, email: string, firstName: string, lastName: string, passwordHash: Option<string>,
    role: string, isActive: Option<bool>, createdAt: string, updatedAt: string)

  /** The dictionary without the password hash. */
  function PublicDict(u: UserRow, iso: nat -> string): (d: UserDict)
    ensures d.passwordHash.None? && d.id == u.id && d.email == u.email && d.role == u.role && d.isActive == u.isActive
  {
    UserDict(u.id, u.email, u.firstName, u.lastName, None, u.role, u.isActive, iso(u.createdAt), iso(u.updatedAt))
  }

  /** The dictionary with the password hash. */
  function PrivateDict(u: UserRow, iso: nat -> string): (d: UserDict)
    ensures d.passwordHash == Some(u.passwordHash)
    ensures d.(passwordHash := None) == PublicDict(u, iso)
  {
    PublicDict(u, iso).(passwordHash := Some(u.passwordHash))
  }

  /** `UserCreate` after validation. */
  datatype UserCreate = UserCreate(email: string, firstName: string, lastName: string, password: string, role: Access.Role)

  /**
   * One field of a partial update under `exclude_unset`: left out of the
   * request, set to `null`, or set to a value.
   */
  datatype Patch<T> = Unset | Null | To(value: T)

  /** `UserUpdate` as `dict(exclude_unset=True)` sees it. */
  datatype UserUpdate = UserUpdate(firstName: Patch<string>, lastName: Patch<string>,
                                   role: Patch<Access.Role>, isActive: Patch<bool>)

  /** The row `create_user` inserts: an active user with the role's value and the hashed password. */
  function NewUser(id: nat, data: UserCreate, hash: string -> string, now: nat): (u: UserRow)
    ensures u.id == id && u.email == data.email && u.isActive == Some(true) && u.role == Access.RoleValue(data.role)
    ensures u.passwordHash == hash(data.password)
  {
    UserRow(id, data.email, data.firstName, data.lastName, hash(data.password),
            Access.RoleValue(data.role), Some(true), now, now)
  }

  /** A NOT NULL column of `users` that the update sets to `null`. */
  predicate ClearsRequired(upd: UserUpdate)
  {
    upd.firstName.Null? || upd.lastName.Null? || upd.role.Null?
  }

  /**
   * The row after `UPDATE users SET <the set fields>`: `None` when a field
   * set to `null` is a NOT NULL column, so the statement fails; otherwise
   * each set field takes its new value, `is_active` may become NULL, every
   * other column is unchanged, and `updated_at` is stamped.
   */
  function ApplyUserUpdate(u: UserRow, upd: UserUpdate, now: nat): (v: Option<UserRow>)
    ensures v.None? <==> ClearsRequired(upd)
    ensures v.Some? ==>
      v.value.id == u.id && v.value.email == u.email && v.value.passwordHash == u.passwordHash &&
      v.value.createdAt == u.createdAt && v.value.updatedAt == now
    ensures v.Some? ==>
      v.value.firstName == (if upd.firstName.To? then upd.firstName.value else u.firstName) &&
      v.value.lastName == (if upd.lastName.To? then upd.lastName.value else u.lastName) &&
      v.value.role == (if upd.role.To? then Access.RoleValue(upd.role.value) else u.role)
    ensures v.Some? ==>
      v.value.isActive == match upd.isActive
        case Unset => u.isActive
        case Null => None
        case To(b) => Some(b)
  {
    if ClearsRequired(upd) then None
    else
      Some(u.(firstName := if upd.firstName.To? then upd.firstName.value else u.firstName,
              lastName := if upd.lastName.To? then upd.lastName.value else u.lastName,
              role := if upd.role.To? then Access.RoleValue(upd.role.value) else u.role,
              isActive := if upd.isActive.To? then Some(upd.isActive.value)
                          else if upd.isActive.Null? then None else u.isActive,
              updatedAt := now))
  }

  /** The first position holding `id`, if any. */
  function FindId(rows: seq<UserRow>, id: nat): Option<nat>
  {
    Queries.FindFirst(rows, (r: UserRow) => r.id, id)
  }

  /** The first position holding `email`, if any. */
  function FindEmail(rows: seq<UserRow>, email: string): Option<nat>
  {
    Queries.FindFirst(rows, (r: UserRow) => r.email, email)
  }


  /** The unique index on `users.email`. */
  predicate EmailsUnique(rows: seq<UserRow>)
  {
    forall i, j :: 0 <= i < j < |rows| ==> rows[i].email != rows[j].email
  }

  function Id(u: UserRow): int
  {
    u.id
  }

  function CreatedAt(u: UserRow): int
  {
    u.createdAt
  }

  /** The optional `role` and `is_active` filters of `list_users`. */
  function Matches(role: Option<Access.Role>, isActive: Option<bool>): UserRow -> bool
  {
    (u: UserRow) => (role.None? || u.role == Access.RoleValue(role.value)) && (isActive.None? || u.isActive == Some(isActive.value))
  }

  /** `offset = (page - 1) * limit` */
  function PageOffset(page: int, limit: int): int
  {
    (page - 1) * limit
  }

  /** `(total + limit - 1) // limit if limit > 0 else 0` */
  function TotalPages(total: nat, limit: int): nat
  {
    if limit > 0 then (total + limit - 1) / limit else 0
  }

  /** With a positive limit the page count is the ceiling of `total / limit`. */
  lemma TotalPagesIsCeiling(total: nat, limit: int)
    requires limit > 0
    ensures TotalPages(total, limit) * limit >= total
    ensures total > 0 ==> (TotalPages(total, limit) - 1) * limit < total
    ensures TotalPages(total, limit) == 0 <==> total == 0
  {
    var t := TotalPages(total, limit);
    var q := (total + limit - 1) / limit;
    var rem := (total + limit - 1) % limit;
    assert total + limit - 1 == q * limit + rem;
  }

  /**
   * Every matching row lies on one of the pages `1 .. total_pages`: the
   * row at position `k` is on page `k / limit + 1`.
   */
  lemma EveryRowOnSomePage(total: nat, limit: int, k: nat)
    requires limit > 0 && k < total
    ensures var page := k / limit + 1;
      1 <= page <= TotalPages(total, limit) &&
      PageOffset(page, limit) <= k < PageOffset(page, limit) + limit
  {
    var q := k / limit;
    assert k == q * limit + k % limit;
    assert PageOffset(q + 1, limit) == q * limit;
    var t := TotalPages(total, limit);
    TotalPagesIsCeiling(total, limit);
    if t <= q {
      MulMonotone(t, q, limit);
      assert false;
    }
  }

  lemma MulMonotone(a: nat, b: nat, c: nat)
    requires a <= b
    ensures a * c <= b * c
  {
  }

  /** The answer of `list_users`. */
  datatype UserListing = UserListing(users: seq<UserDict>, totalCount: nat, page: int, limit: int, totalPages: nat)

  /** The `users` table with its `id` sequence. */
  class UserTable {
    var rows: seq<UserRow>
    var nextId: nat

    /** Ids ascend in insertion order below the next one, and e-mails are unique. */
    predicate Valid()
      reads this
    {
      Queries.Ascending(rows, Id) && (forall u :: u in rows ==> u.id < nextId) && EmailsUnique(rows)
    }

    constructor()
      ensures rows == [] && nextId == 1 && Valid()
    {
      rows := [];
      nextId := 1;
    }

    /**
     * `create_user`: an e-mail already present is 409 with nothing written;
     * otherwise an active user with the role's value and the hashed password
     * is added and returned without the hash, with 201.  A failed commit
     * (including a failed hash) rolls back and gives 500.
     */
    method CreateUser(data: UserCreate, hash: string -> string, fault: bool, now: nat, iso: nat -> string)
      returns (user: Option<UserDict>, code: int)
      requires Valid()
      modifies this
      ensures Valid()
      ensures FindEmail(old(rows), data.email).Some? ==>
        user.None? && code == CONFLICT && rows == old(rows) && nextId == old(nextId)
      ensures FindEmail(old(rows), data.email).None? && fault ==>
        user.None? && code == SERVER_ERROR && rows == old(rows) && nextId == old(nextId)
      ensures FindEmail(old(rows), data.email).None? && !fault ==>
        code == CREATED && nextId == old(nextId) + 1 &&
        rows == old(rows) + [NewUser(old(nextId), data, hash, now)] &&
        user == Some(PublicDict(NewUser(old(nextId), data, hash, now), iso))
    {
      if FindEmail(rows, data.email).Some? {
        return None, CONFLICT;
      }
      if fault {
        return None, SERVER_ERROR;
      }
      var u := NewUser(nextId, data, hash, now);
      rows := rows + [u];
      nextId := nextId + 1;
      return Some(PublicDict(u, iso)), CREATED;
    }

    /** `get_user_by_id`: the user without the password hash, or 404; 500 on a database error. */
    method GetUserById(id: nat, fault: bool, iso: nat -> string) returns (user: Option<UserDict>, code: int)
      ensures fault ==> user.None? && code == SERVER_ERROR
      ensures !fault && FindId(rows, id).None? ==> user.None? && code == NOT_FOUND
      ensures !fault && FindId(rows, id).Some? ==>
        code == OK && user == Some(PublicDict(rows[FindId(rows, id).value], iso)) &&
        user.value.id == id && user.value.passwordHash.None?
    {
      if fault {
        return None, SERVER_ERROR;
      }
      var k := FindId(rows, id);
      if k.None? {
        return None, NOT_FOUND;
      }
      return Some(PublicDict(rows[k.value], iso)), OK;
    }

    /** `get_user_by_email`: the user with the password hash, or 404; 500 on a database error. */
    method GetUserByEmail(email: string, fault: bool, iso: nat -> string) returns (user: Option<UserDict>, code: int)
      ensures fault ==> user.None? && code == SERVER_ERROR
      ensures !fault && FindEmail(rows, email).None? ==> user.None? && code == NOT_FOUND
      ensures !fault && FindEmail(rows, email).Some? ==>
        code == OK && user == Some(PrivateDict(rows[FindEmail(rows, email).value], iso)) &&
        user.value.email == email && user.value.passwordHash.Some?
    {
      if fault {
        return None, SERVER_ERROR;
      }
      var k := FindEmail(rows, email);
      if k.None? {
        return None, NOT_FOUND;
      }
      return Some(PrivateDict(rows[k.value], iso)), OK;
    }

    /**
     * `update_user`: a missing id is 404 with nothing changed; otherwise only
     * the fields the request set change on that row, and the updated user is
     * returned without the hash.  A `null` for a NOT NULL column, or any
     * other failed commit, rolls back and gives 500.
     */
    method UpdateUser(id: nat, upd: UserUpdate, fault: bool, now: nat, iso: nat -> string)
      returns (user: Option<UserDict>, code: int)
      requires Valid()
      modifies this
      ensures Valid() && nextId == old(nextId)
      ensures FindId(old(rows), id).None? ==> user.None? && code == NOT_FOUND && rows == old(rows)
      ensures FindId(old(rows), id).Some? && (fault || ClearsRequired(upd)) ==>
        user.None? && code == SERVER_ERROR && rows == old(rows)
      ensures FindId(old(rows), id).Some? && !fault && !ClearsRequired(upd) ==>
        var k := FindId(old(rows), id).value;
        code == OK && rows == old(rows)[k := ApplyUserUpdate(old(rows)[k], upd, now).value] &&
        user == Some(PublicDict(rows[k], iso))
    {
      var k := FindId(rows, id);
      if k.None? {
        return None, NOT_FOUND;
      }
      var i := k.value;
      var v := ApplyUserUpdate(rows[i], upd, now);
      if fault || v.None? {
        return None, SERVER_ERROR;
      }
      rows := rows[i := v.value];
      return Some(PublicDict(v.value, iso)), OK;
    }

    /**
     * `delete_user`: a missing id is `(False, 404)` with nothing changed;
     * otherwise that row is removed and the answer is `(True, 200)`.  A
     * failed commit rolls back and gives `(False, 500)`.
     */
    method DeleteUser(id: nat, fault: bool) returns (ok: bool, code: int)
      requires Valid()
      modifies this
      ensures Valid() && nextId == old(nextId)
      ensures FindId(old(rows), id).None? ==> !ok && code == NOT_FOUND && rows == old(rows)
      ensures FindId(old(rows), id).Some? && fault ==> !ok && code == SERVER_ERROR && rows == old(rows)
      ensures FindId(old(rows), id).Some? && !fault ==>
        var k := FindId(old(rows), id).value;
        ok && code == OK && rows == old(rows)[..k] + old(rows)[k + 1..]
      ensures ok ==> forall u :: u in rows ==> u.id != id
    {
      var k := FindId(rows, id);
      if k.None? {
        return false, NOT_FOUND;
      }
      if fault {
        return false, SERVER_ERROR;
      }
      var i := k.value;
      DropKeepsValid(rows, i, nextId);
      rows := rows[..i] + rows[i + 1..];
      return true, OK;
    }

    /**
     * `list_users`: the users matching the optional role and active filters,
     * newest first, page `page` of `limit`; the total counts every match.
     * A negative offset or limit, which the database rejects, and a
     * database error give 500.
     */
    method ListUsers(page: int, limit: int, role: Option<Access.Role>, isActive: Option<bool>,
                     fault: bool, iso: nat -> string)
      returns (listing: Option<UserListing>, code: int)
      ensures fault || PageOffset(page, limit) < 0 || limit < 0 <==> listing.None? && code == SERVER_ERROR
      ensures listing.Some? ==> code == OK
      ensures listing.Some? ==>
        var l := listing.value;
        var shown := Queries.Page(rows, Matches(role, isActive), CreatedAt, PageOffset(page, limit), limit);
        l.totalCount == |Queries.Where(rows, Matches(role, isActive))| &&
        l.page == page && l.limit == limit && l.totalPages == TotalPages(l.totalCount, limit) &&
        |l.users| == |shown| <= limit &&
        forall i :: 0 <= i < |shown| ==>
          l.users[i] == PublicDict(shown[i], iso) && shown[i] in rows && Matches(role, isActive)(shown[i])
    {
      var offset := PageOffset(page, limit);
      if fault || offset < 0 || limit < 0 {
        return None, SERVER_ERROR;
      }
      var total := |Queries.Where(rows, Matches(role, isActive))|;
      var shown := Queries.Page(rows, Matches(role, isActive), CreatedAt, offset, limit);
      Queries.PageSound(rows, Matches(role, isActive), CreatedAt, offset, limit);
      var users := seq(|shown|, i requires 0 <= i < |shown| => PublicDict(shown[i], iso));
      return Some(UserListing(users, total, page, limit, TotalPages(total, limit))), OK;
    }
  }

  /** Removing one row keeps ids ascending and e-mails unique. */
  lemma DropKeepsValid(rows: seq<UserRow>, k: nat, nextId: nat)
    requires k < |rows|
    requires Queries.Ascending(rows, Id) && (forall u :: u in rows ==> u.id < nextId) && EmailsUnique(rows)
    ensures var r := rows[..k] + rows[k + 1..];
      Queries.Ascending(r, Id) && (forall u :: u in r ==> u.id < nextId) && EmailsUnique(r) &&
      forall u :: u in r ==> u.id != rows[k].id
  {
    DropIndexes(rows, k);
    DropKeepsAscending(rows, k);
    DropKeepsEmailsUnique(rows, k);
    var r := rows[..k] + rows[k + 1..];
    forall u | u in r ensures u.id != rows[k].id && u in rows {
      var i :| 0 <= i < |r| && r[i] == u;
    }
  }

  /** Where the rows after a removed one land. */
  lemma DropIndexes(rows: seq<UserRow>, k: nat)
    requires k < |rows|
    ensures var r := rows[..k] + rows[k + 1..];
      |r| == |rows| - 1 && forall i :: 0 <= i < |r| ==> r[i] == if i < k then rows[i] else rows[i + 1]
  {
  }

  /** Removing one row keeps ids ascending. */
  lemma DropKeepsAscending(rows: seq<UserRow>, k: nat)
    requires k < |rows| && Queries.Ascending(rows, Id)
    ensures Queries.Ascending(rows[..k] + rows[k + 1..], Id)
  {
    DropIndexes(rows, k);
  }

  /** Removing one row keeps e-mails unique. */
  lemma DropKeepsEmailsUnique(rows: seq<UserRow>, k: nat)
    requires k < |rows| && EmailsUnique(rows)
    ensures EmailsUnique(rows[..k] + rows[k + 1..])
  {
    DropIndexes(rows, k);
  }

  // ------------------------------------------------------------ routes

  /** The user endpoints. */
  datatype Endpoint = Me | List | Get | Update | Delete | Activate | Deactivate

  /** `/me` needs only an authenticated caller; every other user endpoint requires an administrator. */
  function EndpointGate(e: Endpoint, current: Access.TokenData): (g: Access.Gate)
    ensures e == Me ==> g == Access.Admitted(current)
    ensures e != Me ==> g == Access.RoleChecker(Access.Admin, current)
  {
    if e == Me then Access.Admitted(current) else Access.RoleChecker(Access.Admin, current)
  }

  /** Only an administrator reaches the handlers other than `/me`; a non-administrator gets 403 there. */
  lemma OnlyAdminsManageUsers(e: Endpoint, current: Access.TokenData)
    requires e != Me
    ensures EndpointGate(e, current).Admitted? <==> current.role == Access.Admin
    ensures current.role != Access.Admin ==> EndpointGate(e, current).code == Access.FORBIDDEN
  {
  }

  /** The update the activate and deactivate endpoints send: only `is_active` is set. */
  function ActivationUpdate(active: bool): (upd: UserUpdate)
    ensures upd.isActive == To(active)
    ensures upd.firstName.Unset? && upd.lastName.Unset? && upd.role.Unset?
  {
    UserUpdate(Unset, Unset, Unset, To(active))
  }

  /** Activating or deactivating changes the account's status and nothing else but the update time. */
  lemma ActivationChangesOnlyStatus(u: UserRow, active: bool, now: nat)
    ensures ApplyUserUpdate(u, ActivationUpdate(active), now) == Some(u.(isActive := Some(active), updatedAt := now))
  {
  }

  /**
   * The status of `DELETE /users/{id}` as written: the handler tests
   * `not success` on the `(success, status)` pair the service returns, and a
   * non-empty tuple is always true, so every admitted call answers 204.
   */
  function DeleteRouteStatusAsWritten(gate: Access.Gate, result: (bool, int)): int
  {
    if gate.Refused? then gate.code else NO_CONTENT
  }

  /** Deleting a user that does not exist still answers 204. */
  lemma DeleteMissingUserAnswersNoContent(admin: Access.TokenData)
    requires admin.role == Access.Admin
    ensures DeleteRouteStatusAsWritten(EndpointGate(Delete, admin), (false, NOT_FOUND)) == NO_CONTENT
  {
  }

  /** The status of `DELETE /users/{id}` when the handler unpacks the pair: 404 unless the row was removed. */
  function DeleteRouteStatus(gate: Access.Gate, result: (bool, int)): (code: int)
    ensures gate.Admitted? ==> (code == NO_CONTENT <==> result.0)
    ensures gate.Admitted? && !result.0 ==> code == NOT_FOUND
    ensures gate.Refused? ==> code == gate.code
  {
    if gate.Refused? then gate.code else if !result.0 then NOT_FOUND else NO_CONTENT
  }

  /**
   * The status of the get, `/me`, update, activate and deactivate handlers
   * as written: they test `not user` on the `(user, status)` pair the
   * service returns, which is always true, so their 404 is never raised; the
   * pair itself is returned as the body, is not a `UserResponse`, and the
   * response validation fails with 500.
   */
  function UserRouteStatusAsWritten(gate: Access.Gate, result: (Option<UserDict>, int)): int
  {
    if gate.Refused? then gate.code else SERVER_ERROR
  }

  /** As written, an admitted caller gets 500 for a found user and for a missing one alike. */
  lemma UserRoutesFailAsWritten(e: Endpoint, current: Access.TokenData, u: UserDict)
    requires e != List && e != Delete && EndpointGate(e, current).Admitted?
    ensures UserRouteStatusAsWritten(EndpointGate(e, current), (Some(u), OK)) == SERVER_ERROR
    ensures UserRouteStatusAsWritten(EndpointGate(e, current), (None, NOT_FOUND)) == SERVER_ERROR
  {
  }

  /**
   * The status of those handlers when they unpack the pair and test the
   * user: the user with 200, or 404 when the service found none.
   */
  function UserRouteStatus(gate: Access.Gate, result: (Option<UserDict>, int)): (code: int)
    ensures gate.Admitted? ==> (code == OK <==> result.0.Some?)
    ensures gate.Admitted? && result.0.None? ==> code == NOT_FOUND
    ensures gate.Refused? ==> code == gate.code
  {
    if gate.Refused? then gate.code else if result.0.None? then NOT_FOUND else OK
  }

  /**
   * `GET /users` as written: `UserListResponse(**result)` unpacks the
   * `(listing, status)` pair as keywords, which raises `TypeError`; the
   * handler catches it and answers 500.
   */
  function ListRouteStatusAsWritten(gate: Access.Gate, result: (Option<UserListing>, int)): int
  {
    if gate.Refused? then gate.code else SERVER_ERROR
  }

  /** As written, listing users never succeeds for an administrator. */
  lemma ListRouteFailsAsWritten(admin: Access.TokenData, l: UserListing)
    requires admin.role == Access.Admin
    ensures ListRouteStatusAsWritten(EndpointGate(List, admin), (Some(l), OK)) == SERVER_ERROR
  {
  }

  /** `GET /users` when the handler unpacks the pair: the listing with 200, or 500 without one. */
  function ListRouteStatus(gate: Access.Gate, result: (Option<UserListing>, int)): (code: int)
    ensures gate.Admitted? ==> (code == OK <==> result.0.Some?)
    ensures gate.Admitted? && result.0.None? ==> code == SERVER_ERROR
    ensures gate.Refused? ==> code == gate.code
  {
    if gate.Refused? then gate.code else if result.0.None? then SERVER_ERROR else OK
  }
}
