/**
 * `AuthService` of the application package: the shape check in front of
 * token decoding, the current-user lookup with its token cache, and the
 * login decision sequence with the login records it writes.  Signature
 * checking and password hashing are not modelled: their outcomes are inputs.
 */
module Auth {
  import opened Wrappers
  import Text
  import Access
  import Users
  import LoginHistory

  const OK := 200
  const UNAUTHORIZED := 401
  const SERVER_ERROR := 500

  /** The claims of a decoded token that the service reads; `None` is an absent claim. */
  datatype Claims = Claims(userId: Option<int>, email: Option<string>, role: Option<string>)

  /** What `jwt.decode` does with a well-shaped token. */
  datatype DecodeOutcome =
    | Decoded(claims: Claims)
    | Rejected   // expired, badly signed or otherwise invalid: a `PyJWTError`
    | Crashed    // any other exception

  /** The number of occurrences of `c` in `s`. */
  function Occurrences(s: string, c: char): nat
  {
    multiset(s)[c]
  }

  /** A string splits on `c` into one piece more than it has occurrences of `c`. */
  lemma {:induction false} SplitCountsSeparators(s: string, c: char)
    ensures |Text.Split(s, c)| == Occurrences(s, c) + 1
    decreases |s|
  {
    var k := Text.IndexOf(s, c);
    if k == |s| {
      SplitWhole(s, c);
      assert Occurrences(s, c) == 0 by {
        assert !(c in s);
      }
    } else {
      SplitStep(s, c, k);
      SplitCountsSeparators(s[k + 1..], c);
      OccurrencesAfterFirst(s, c, k);
    }
  }

  /** The definition of `split` at a string without `c`. */
  lemma SplitWhole(s: string, c: char)
    requires Text.IndexOf(s, c) == |s|
    ensures Text.Split(s, c) == [s]
  {
  }

  /** The definition of `split` at a string holding `c`, first at `k`. */
  lemma SplitStep(s: string, c: char, k: nat)
    requires k == Text.IndexOf(s, c) && k < |s|
    ensures Text.Split(s, c) == [s[..k]] + Text.Split(s[k + 1..], c)
  {
  }

  /** Past the first occurrence of `c` there is one occurrence fewer. */
  lemma OccurrencesAfterFirst(s: string, c: char, k: nat)
    requires k < |s| && s[k] == c && !(c in s[..k])
    ensures Occurrences(s, c) == Occurrences(s[k + 1..], c) + 1
  {
    assert s == s[..k] + [c] + s[k + 1..];
    assert multiset(s) == multiset(s[..k]) + multiset{c} + multiset(s[k + 1..]);
  }

  /** `len(token.split('.')) == 3`: header, payload and signature. */
  predicate HasThreeParts(token: string)
  {
    |Text.Split(token, '.')| == 3
  }

  /** A token has three parts exactly when it holds two dots. */
  lemma ThreePartsIffTwoDots(token: string)
    ensures HasThreeParts(token) <==> Occurrences(token, '.') == 2
  {
    SplitCountsSeparators(token, '.');
  }

  /**
   * `verify_token`: an empty token, or one that is not three dot-separated
   * parts, is 401 without being decoded; a decoding error is 401; any other
   * exception is 500; otherwise the claims with 200.
   */
  function VerifyToken(token: string, decode: string -> DecodeOutcome): (r: (Option<Claims>, int))
    ensures r.1 == OK <==> r.0.Some?
    ensures token == [] || !HasThreeParts(token) ==> r == (None, UNAUTHORIZED)
    ensures token != [] && HasThreeParts(token) ==>
      (decode(token).Decoded? ==> r == (Some(decode(token).claims), OK)) &&
      (decode(token).Rejected? ==> r == (None, UNAUTHORIZED)) &&
      (decode(token).Crashed? ==> r == (None, SERVER_ERROR))
  {
    if token == [] || !HasThreeParts(token) then (None, UNAUTHORIZED)
    else
      match decode(token)
      case Decoded(claims) => (Some(claims), OK)
      case Rejected => (None, UNAUTHORIZED)
      case Crashed => (None, SERVER_ERROR)
  }

  /** A token without exactly two dots never reaches the decoder. */
  lemma MalformedTokenNeverDecoded(token: string, d1: string -> DecodeOutcome, d2: string -> DecodeOutcome)
    requires Occurrences(token, '.') != 2
    ensures VerifyToken(token, d1) == VerifyToken(token, d2) == (None, UNAUTHORIZED)
  {
    ThreePartsIffTwoDots(token);
  }

  /** The answer of `get_current_user`, and whether it asked the cache to keep the user. */
  datatype CurrentUser = CurrentUser(user: Option<Access.TokenData>, code: int, cacheWrite: bool)

  /** Python truthiness of an optional claim. */
  predicate TruthyId(v: Option<int>)
  {
    v.Some? && v.value != 0
  }

  predicate TruthyText(v: Option<string>)
  {
    v.Some? && v.value != []
  }

  /**
   * `get_current_user`: a cached entry is returned without verifying the
   * token.  Otherwise a token that fails verification, or claims without a
   * truthy `user_id` or `email`, is 401.  The role claim defaults to
   * `"user"`; one that names no role fails validation and is 500.  A user
   * built from the claims is handed to the cache and returned with 200.
   */
  function GetCurrentUser(token: string, cached: Option<Access.TokenData>, decode: string -> DecodeOutcome): (r: CurrentUser)
    ensures r.code == OK <==> r.user.Some?
    ensures cached.Some? ==> r == CurrentUser(cached, OK, false)
    ensures r.cacheWrite <==> cached.None? && r.code == OK
    ensures cached.None? && VerifyToken(token, decode).1 != OK ==> r.code == UNAUTHORIZED
  {
    if cached.Some? then CurrentUser(cached, OK, false)
    else
      var (payload, status) := VerifyToken(token, decode);
      if status != OK || payload.None? then CurrentUser(None, UNAUTHORIZED, false)
      else
        var claims := payload.value;
        if !TruthyId(claims.userId) || !TruthyText(claims.email) then CurrentUser(None, UNAUTHORIZED, false)
        else
          var role := Access.ParseRole(claims.role.GetOr("user"));
          if role.None? then CurrentUser(None, SERVER_ERROR, false)
          else CurrentUser(Some(Access.TokenData(claims.userId.value, claims.email.value, role.value)), OK, true)
  }

  /**
   * The user built from verified claims carries exactly those claims, with
   * the `"user"` role when the token names none.
   */
  lemma CurrentUserFromClaims(token: string, decode: string -> DecodeOutcome, claims: Claims)
    requires token != [] && HasThreeParts(token) && decode(token) == Decoded(claims)
    requires TruthyId(claims.userId) && TruthyText(claims.email)
    ensures var r := GetCurrentUser(token, None, decode);
      (Access.ParseRole(claims.role.GetOr("user")).Some? <==> r.code == OK) &&
      (r.code == OK ==> r.user.value.userId == claims.userId.value && r.user.value.email == claims.email.value &&
                        Access.RoleValue(r.user.value.role) == claims.role.GetOr("user")) &&
      (claims.role.None? ==> r.user == Some(Access.TokenData(claims.userId.value, claims.email.value, Access.User)))
  {
  }

  /**
   * Behind `require_role`, a token that is not cached and does not have
   * exactly two dots is refused with 401 whatever role is required.
   */
  lemma MalformedTokenRefusedAtGate(token: string, decode: string -> DecodeOutcome, required: Access.Role)
    requires Occurrences(token, '.') != 2
    ensures var r := GetCurrentUser(token, None, decode);
      Access.RequireRole(required, r.user, r.code) == Access.Refused(Access.UNAUTHORIZED, "Authentication failed")
  {
    ThreePartsIffTwoDots(token);
  }

  /** `verify_password`: the verifier's verdict, or `None` when it raised. */
  function VerifyPassword(verdict: Option<bool>): (r: (bool, Option<string>))
    ensures r.0 <==> verdict == Some(true)
    ensures r.1.Some? <==> verdict.None?
  {
    if verdict.None? then (false, Some("Password verification error")) else (verdict.value, None)
  }

  /** The login record `authenticate_user` writes, as (status, failure reason). */
  function LoginOutcome(known: bool, passwordOk: bool, active: bool): (r: Option<(string, Option<string>)>)
    ensures !known <==> r.None?
    ensures r.Some? ==> (r.value.0 == LoginHistory.SUCCESS <==> passwordOk && active)
  {
    if !known then None
    else if !passwordOk then Some((LoginHistory.FAILED, Some("Invalid password")))
    else if !active then Some((LoginHistory.FAILED, Some("Account deactivated")))
    else Some((LoginHistory.SUCCESS, None))
  }

  /**
   * `authenticate_user`: an e-mail the user service does not find is 401
   * with no login record.  A password that does not verify, including one
   * whose verification raised, writes a failed record "Invalid password" and
   * is 401; an account whose `is_active` is false or NULL writes a failed record "Account deactivated"
   * and is 401; otherwise a success record is written and the user is
   * returned without the password hash, with 200.  Writing the record can
   * fail without changing the answer; the log then stays as it was.
   */
  method AuthenticateUser(users: Users.UserTable, log: LoginHistory.LoginLog, email: string, password: string,
                          verdict: string -> Option<bool>, ipAddress: Option<string>, userAgent: Option<string>,
                          lookupFault: bool, logFault: bool, now: nat, iso: nat -> string)
    returns (user: Option<Users.UserDict>, code: int)
    modifies log
    ensures var k := Users.FindEmail(users.rows, email);
      lookupFault || k.None? ==> user.None? && code == UNAUTHORIZED && log.records == old(log.records)
    ensures var k := Users.FindEmail(users.rows, email);
      !lookupFault && k.Some? ==>
      var u := users.rows[k.value];
      var outcome := LoginOutcome(true, verdict(password).Some? && verdict(password).value, u.isActive == Some(true)).value;
      (code == OK <==> outcome.0 == LoginHistory.SUCCESS) &&
      (code != OK ==> code == UNAUTHORIZED && user.None?) &&
      (code == OK ==> user == Some(Users.PublicDict(u, iso))) &&
      (logFault ==> log.records == old(log.records)) &&
      (!logFault ==>
        log.records == old(log.records) +
          [LoginHistory.LoginRecord(old(log.nextId), u.id, now, ipAddress, userAgent, outcome.0, outcome.1)])
  {
    var found, status := users.GetUserByEmail(email, lookupFault, iso);
    if status != OK || found.None? {
      return None, UNAUTHORIZED;
    }
    var u := users.rows[Users.FindEmail(users.rows, email).value];
    var (isValid, error) := VerifyPassword(verdict(password));
    var outcome := LoginOutcome(true, isValid, found.value.isActive == Some(true)).value;
    var _, _ := log.CreateLoginRecord(u.id, ipAddress, userAgent, outcome.0, outcome.1, logFault, now);
    if outcome.0 != LoginHistory.SUCCESS {
      return None, UNAUTHORIZED;
    }
    return Some(found.value.(passwordHash := None)), OK;
  }

  /**
   * The 500 branch for a password verification error comes after the
   * invalid-password branch, and an error always comes with a false verdict,
   * so that branch is never taken.
   */
  lemma VerificationErrorNeverReported(verdict: Option<bool>)
    ensures VerifyPassword(verdict).1.Some? ==> !VerifyPassword(verdict).0
  {
  }
}
