/**
 * The request schemas: field bounds and the validators that run after them
 * for users (password strength, name lengths, roles) and books (stripped,
 * non-blank names, genre, positive price).  A field's declared bounds are
 * checked before its validator, so a validator only sees values within them.
 */
module Schemas {
  import opened Wrappers
  import Text
  import Access
  import Users

  /** A validated value, or the first message that rejects it. */
  datatype Check<T> = Accepted(value: T) | Rejected(message: string)

  // ------------------------------------------------------------ passwords

  const MSG_LENGTH := "Password must be at least 8 characters long"
  const MSG_UPPER := "Password must contain at least one uppercase letter"
  const MSG_LOWER := "Password must contain at least one lowercase letter"
  const MSG_DIGIT := "Password must contain at least one digit"
  const MSG_SPECIAL := "Password must contain at least one special character"

  /** The character class `[!@#$%^&*(),.?":{}|<>]`. */
  const SPECIALS := "!@#$%^&*(),.?\":{}|<>"

  predicate LongEnough(v: string)
  {
    |v| >= 8
  }

  predicate HasUpper(v: string)
  {
    exists i :: 0 <= i < |v| && 'A' <= v[i] <= 'Z'
  }

  predicate HasLower(v: string)
  {
    exists i :: 0 <= i < |v| && 'a' <= v[i] <= 'z'
  }

  predicate HasDigit(v: string)
  {
    exists i :: 0 <= i < |v| && '0' <= v[i] <= '9'
  }

  predicate HasSpecial(v: string)
  {
    exists i :: 0 <= i < |v| && v[i] in SPECIALS
  }

  /** All five strength rules. */
  predicate Strong(v: string)
  {
    LongEnough(v) && HasUpper(v) && HasLower(v) && HasDigit(v) && HasSpecial(v)
  }

  /**
   * `validate_password`: the rules length, upper case, lower case, digit and
   * special character are tried in that order and the first one that fails
   * is reported; an accepted password comes back unchanged.
   */
  function ValidatePassword(v: string): (r: Check<string>)
    ensures r.Accepted? <==> Strong(v)
    ensures r.Accepted? ==> r.value == v
  {
    if !LongEnough(v) then Rejected(MSG_LENGTH)
    else if !HasUpper(v) then Rejected(MSG_UPPER)
    else if !HasLower(v) then Rejected(MSG_LOWER)
    else if !HasDigit(v) then Rejected(MSG_DIGIT)
    else if !HasSpecial(v) then Rejected(MSG_SPECIAL)
    else Accepted(v)
  }

  /** The strength rules as data, in the order the validator tries them. */
  function PasswordRules(): seq<(string -> bool, string)>
  {
    [(LongEnough, MSG_LENGTH), (HasUpper, MSG_UPPER), (HasLower, MSG_LOWER),
     (HasDigit, MSG_DIGIT), (HasSpecial, MSG_SPECIAL)]
  }

  /** The message of the first rule in `rules` that `v` breaks, if any. */
  function FirstBroken(rules: seq<(string -> bool, string)>, v: string): (m: Option<string>)
    ensures m.None? <==> forall i :: 0 <= i < |rules| ==> rules[i].0(v)
  {
    if rules == [] then None
    else if !rules[0].0(v) then Some(rules[0].1)
    else
      var m := FirstBroken(rules[1..], v);
      assert forall i :: 1 <= i < |rules| ==> rules[i] == rules[1..][i - 1];
      m
  }

  /** The validator rejects with exactly the message of the first broken rule, and accepts when none is. */
  lemma PasswordRulesInOrder(v: string)
    ensures var m := FirstBroken(PasswordRules(), v);
      (m.None? <==> ValidatePassword(v) == Accepted(v)) &&
      (m.Some? ==> ValidatePassword(v) == Rejected(m.value))
  {
    var r0: seq<(string -> bool, string)> := PasswordRules();
    var r1, r2, r3, r4 := r0[1..], r0[2..], r0[3..], r0[4..];
    assert r0[1..] == r1 && r1[1..] == r2 && r2[1..] == r3 && r3[1..] == r4 && r4[1..] == [];
    assert r0[0].0(v) == LongEnough(v) && r1[0].0(v) == HasUpper(v) && r2[0].0(v) == HasLower(v);
    assert r3[0].0(v) == HasDigit(v) && r4[0].0(v) == HasSpecial(v);
    assert FirstBroken(r4, v) == if HasSpecial(v) then None else Some(MSG_SPECIAL);
    assert FirstBroken(r3, v) == if HasDigit(v) then FirstBroken(r4, v) else Some(MSG_DIGIT);
    assert FirstBroken(r2, v) == if HasLower(v) then FirstBroken(r3, v) else Some(MSG_LOWER);
    assert FirstBroken(r1, v) == if HasUpper(v) then FirstBroken(r2, v) else Some(MSG_UPPER);
    assert FirstBroken(r0, v) == if LongEnough(v) then FirstBroken(r1, v) else Some(MSG_LENGTH);
  }

  /** A declared length bound `min_length .. max_length`. */
  predicate WithinLength(v: string, min: nat, max: nat)
  {
    min <= |v| <= max
  }

  /** The message a declared length bound reports. */
  function LengthMessage(field: string, min: nat, max: nat): string
  {
    field + " must have between " + Text.NatToString(min) + " and " + Text.NatToString(max) + " characters"
  }

  /**
   * `UserCreate.password`: the declared bounds 8 .. 100 are checked first,
   * then the strength validator.
   */
  function PasswordField(v: string): (r: Check<string>)
    ensures r.Accepted? <==> WithinLength(v, 8, 100) && Strong(v)
    ensures r.Accepted? ==> r.value == v
  {
    if !WithinLength(v, 8, 100) then Rejected(LengthMessage("password", 8, 100)) else ValidatePassword(v)
  }

  /**
   * The validator's own length rule is shadowed by the declared bound: a
   * password too short for it never reaches it, so its message never shows.
   */
  lemma ValidatorLengthRuleNeverReported(v: string)
    ensures PasswordField(v) != Rejected(MSG_LENGTH)
  {
    if WithinLength(v, 8, 100) {
      assert LongEnough(v);
    } else {
      assert LengthMessage("password", 8, 100)[0] == 'p';
    }
  }

  // ------------------------------------------------------------ users

  /** A name field: 1 .. 50 characters. */
  function NameField(field: string, v: string): (r: Check<string>)
    ensures r.Accepted? <==> WithinLength(v, 1, 50)
    ensures r.Accepted? ==> r.value == v
  {
    if WithinLength(v, 1, 50) then Accepted(v) else Rejected(LengthMessage(field, 1, 50))
  }

  /** `UserRole(value)`, with `"user"` when the role is not given. */
  function RoleField(role: Option<string>): (r: Check<Access.Role>)
    ensures r.Accepted? <==> role.None? || Access.ParseRole(role.value).Some?
    ensures role.None? ==> r == Accepted(Access.User)
    ensures r.Accepted? && role.Some? ==> Access.RoleValue(r.value) == role.value
  {
    if role.None? then Accepted(Access.User)
    else
      var parsed := Access.ParseRole(role.value);
      if parsed.None? then Rejected("Input should be 'admin', 'user' or 'moderator'") else Accepted(parsed.value)
  }

  /**
   * `UserCreate`: an address `EmailStr` accepts, both names within 1 .. 50,
   * a password within 8 .. 100 that passes the strength rules, and a known
   * role (default user).  The first rejected field, in declaration order, is
   * reported.  `email` is what the e-mail validator library makes of the
   * given address: the address it accepts, or its message.
   */
  function ValidateUserCreate(email: Check<string>, firstName: string, lastName: string, password: string,
                              role: Option<string>): (r: Check<Users.UserCreate>)
    ensures r.Accepted? <==>
      email.Accepted? && WithinLength(firstName, 1, 50) && WithinLength(lastName, 1, 50) &&
      RoleField(role).Accepted? && WithinLength(password, 8, 100) && Strong(password)
    ensures email.Rejected? ==> r == Rejected(email.message)
    ensures r.Accepted? ==>
      r.value == Users.UserCreate(email.value, firstName, lastName, password, RoleField(role).value)
  {
    var f := NameField("first_name", firstName);
    var l := NameField("last_name", lastName);
    var ro := RoleField(role);
    var p := PasswordField(password);
    if email.Rejected? then Rejected(email.message)
    else if f.Rejected? then Rejected(f.message)
    else if l.Rejected? then Rejected(l.message)
    else if ro.Rejected? then Rejected(ro.message)
    else if p.Rejected? then Rejected(p.message)
    else Accepted(Users.UserCreate(email.value, firstName, lastName, password, ro.value))
  }

  /**
   * `UserUpdate`: every field is optional and may be `null`; a name given as
   * text must be 1 .. 50 characters and a role given as text a known one.
   * Fields not given stay unset, and a `null` stays `null`.
   */
  function ValidateUserUpdate(firstName: Users.Patch<string>, lastName: Users.Patch<string>,
                              role: Users.Patch<string>, isActive: Users.Patch<bool>): (r: Check<Users.UserUpdate>)
    ensures r.Accepted? <==>
      (firstName.To? ==> WithinLength(firstName.value, 1, 50)) &&
      (lastName.To? ==> WithinLength(lastName.value, 1, 50)) &&
      (role.To? ==> Access.ParseRole(role.value).Some?)
    ensures r.Accepted? ==>
      r.value.firstName == firstName && r.value.lastName == lastName && r.value.isActive == isActive &&
      (r.value.role.Unset? <==> role.Unset?) && (r.value.role.Null? <==> role.Null?) &&
      (role.To? ==> Access.RoleValue(r.value.role.value) == role.value)
  {
    if firstName.To? && !WithinLength(firstName.value, 1, 50) then Rejected(LengthMessage("first_name", 1, 50))
    else if lastName.To? && !WithinLength(lastName.value, 1, 50) then Rejected(LengthMessage("last_name", 1, 50))
    else if role.To? && Access.ParseRole(role.value).None? then Rejected("Input should be 'admin', 'user' or 'moderator'")
    else
      var parsed := match role
        case Unset => Users.Unset
        case Null => Users.Null
        case To(t) => Users.To(Access.ParseRole(t).value);
      Accepted(Users.UserUpdate(firstName, lastName, parsed, isActive))
  }

  // ------------------------------------------------------------ books

  const MSG_BLANK_NAME := "Name cannot be empty or whitespace only"

  /** `Literal["fiction", "non-fiction"]` */
  datatype Genre = Fiction | NonFiction

  function GenreValue(g: Genre): string
  {
    match g
    case Fiction => "fiction"
    case NonFiction => "non-fiction"
  }

  function ParseGenre(s: string): (g: Option<Genre>)
    ensures g.Some? <==> s == "fiction" || s == "non-fiction"
    ensures g.Some? ==> GenreValue(g.value) == s
  {
    if s == "fiction" then Some(Fiction) else if s == "non-fiction" then Some(NonFiction) else None
  }

  /** A validated book; the price is a float in the source. */
  datatype Book = Book(name: string, genre: Genre, price: real)

  /** A validated partial update; `None` is a field not given. */
  datatype BookUpdate = BookUpdate(name: Option<string>, genre: Option<Genre>, price: Option<real>)

  /**
   * `Book.name`: within 1 .. 255 characters as sent, then rejected when it
   * is only whitespace, and otherwise stored stripped.
   */
  function BookName(v: string): (r: Check<string>)
    ensures r.Accepted? <==> WithinLength(v, 1, 255) && Text.Strip(v) != []
    ensures r.Accepted? ==> r.value == Text.Strip(v)
  {
    if !WithinLength(v, 1, 255) then Rejected(LengthMessage("name", 1, 255))
    else if Text.Strip(v) == [] then Rejected(MSG_BLANK_NAME)
    else Accepted(Text.Strip(v))
  }

  /** A name is refused exactly when its length is out of bounds or it is only whitespace. */
  lemma BookNameAccepts(v: string)
    ensures BookName(v).Accepted? <==> WithinLength(v, 1, 255) && !Text.AllSpace(v)
  {
    Text.StripEmptyIffAllSpace(v);
  }

  /** An accepted name is non-empty, no longer than sent, and has no surrounding whitespace left. */
  lemma BookNameShape(v: string)
    requires BookName(v).Accepted?
    ensures 1 <= |BookName(v).value| <= |v| <= 255
    ensures Text.Strip(BookName(v).value) == BookName(v).value
  {
    var r := Text.Strip(v);
    var i :| 0 <= i <= |v| && Text.OccursAt(v, r, i);
    Text.StripIdempotent(v);
  }

  /** `BookUpdate.name`: `None` passes through; a given name is checked as `Book.name` is. */
  function BookUpdateName(v: Option<string>): (r: Check<Option<string>>)
    ensures v.None? ==> r == Accepted(None)
    ensures v.Some? ==> (r.Accepted? <==> BookName(v.value).Accepted?)
    ensures v.Some? && r.Accepted? ==> r.value == Some(BookName(v.value).value)
  {
    if v.None? then Accepted(None)
    else
      var n := BookName(v.value);
      if n.Rejected? then Rejected(n.message) else Accepted(Some(n.value))
  }

  /** `Book`: the name, a known genre and a price above 0. */
  function ValidateBook(name: string, genre: string, price: real): (r: Check<Book>)
    ensures r.Accepted? <==> BookName(name).Accepted? && ParseGenre(genre).Some? && price > 0.0
    ensures r.Accepted? ==>
      r.value.name == Text.Strip(name) && GenreValue(r.value.genre) == genre && r.value.price == price
  {
    var n := BookName(name);
    var g := ParseGenre(genre);
    if n.Rejected? then Rejected(n.message)
    else if g.None? then Rejected("Input should be 'fiction' or 'non-fiction'")
    else if price <= 0.0 then Rejected("Input should be greater than 0")
    else Accepted(Book(n.value, g.value, price))
  }

  /** `BookUpdate`: each given field is checked as in `Book`; fields not given stay `None`. */
  function ValidateBookUpdate(name: Option<string>, genre: Option<string>, price: Option<real>): (r: Check<BookUpdate>)
    ensures r.Accepted? <==>
      BookUpdateName(name).Accepted? && (genre.None? || ParseGenre(genre.value).Some?) &&
      (price.None? || price.value > 0.0)
    ensures r.Accepted? ==>
      (r.value.name.None? <==> name.None?) && (r.value.genre.None? <==> genre.None?) && r.value.price == price
    ensures r.Accepted? && name.Some? ==> r.value.name == Some(Text.Strip(name.value))
    ensures r.Accepted? && genre.Some? ==> GenreValue(r.value.genre.value) == genre.value
  {
    var n := BookUpdateName(name);
    if n.Rejected? then Rejected(n.message)
    else if genre.Some? && ParseGenre(genre.value).None? then Rejected("Input should be 'fiction' or 'non-fiction'")
    else if price.Some? && price.value <= 0.0 then Rejected("Input should be greater than 0")
    else Accepted(BookUpdate(n.value, if genre.Some? then ParseGenre(genre.value) else None, price))
  }

  /** A book name accepted once is accepted again unchanged: validation is idempotent. */
  lemma BookNameIdempotent(v: string)
    requires BookName(v).Accepted?
    ensures BookName(BookName(v).value) == BookName(v)
  {
    BookNameShape(v);
  }
}
