/**
 * backend/src/routes/auth.js: POST /api/auth/register, /login and
 * /validate-token. Register writes the users table; login and
 * validate-token are read-only decision chains with early returns. The
 * foreign bcrypt and jsonwebtoken calls are passed in as functions.
 */
module AuthRoutes {
  import opened Common
  import opened Schema
  import opened Errors
  import opened UserModel
  import opened AuthService
  import opened Validation
  import opened ErrorHandler
  import opened Http

  /**
   * POST /register: validate every field, refuse an email already present,
   * hash the password and insert a PENDING user. A failure of the hashing or
   * of the INSERT goes to the error handler.
   */
  method Register(users: UsersTable, body: JsonObject, isEmail: string -> bool, bcrypt: string -> string)
    returns (r: Response)
    requires users.Valid()
    modifies users
    ensures users.Valid()
    ensures !RegistrationAcceptable(body, isEmail) ==>
              r == Response(400, ValidationFailed(Messages(AllErrors(RegistrationSchema, body, isEmail))))
              && unchanged(users)
    ensures RegistrationAcceptable(body, isEmail) && EmailTaken(old(users.rows), StrOf(body, "email")) ==>
              r == Response(409, ErrorBody("Email already registered")) && unchanged(users)
    ensures RegistrationAcceptable(body, isEmail) && !EmailTaken(old(users.rows), StrOf(body, "email")) ==>
              var row := NewRow(old(users.nextId), StrOf(body, "email"), bcrypt(StrOf(body, "password")),
                                StrOf(body, "firstName"), StrOf(body, "lastName"), None, None, old(users.clock));
              && users.rows == old(users.rows)[old(users.nextId) := row]
              && users.nextId == old(users.nextId) + 1 && users.clock == old(users.clock) + 1
              && FindByEmail(users.rows, users.nextId, StrOf(body, "email")) == Some(row)
              && r == Response(201, Registered(Brief(old(users.nextId), StrOf(body, "email"), Pending)))
  {
    var v := ValidateRegistration(body, isEmail);
    if v.Failure? {
      return Response(400, ValidationFailed(Messages(v.error)));
    }
    var value := v.value;
    var existing := FindByEmail(users.rows, users.nextId, value.email);
    if existing.Some? {
      return Response(409, ErrorBody("Email already registered"));
    }
    var hashedPassword;
    match HashPassword(value.password, bcrypt) {
      case Failure(e) => return HandleError(e);
      case Success(h) => hashedPassword := h;
    }
    var created := users.Create(value.email, hashedPassword, value.firstName, value.lastName);
    match created {
      case Failure(e) => return HandleError(e);
      case Success(newUser) =>
        FindByEmailAfterInsert(old(users.rows), old(users.nextId), users.rows[old(users.nextId)]);
        r := Response(201, Registered(Brief(newUser.id, newUser.email, newUser.status)));
    }
  }

  /**
   * POST /login: an invalid body is 400 and an unknown email 401; a `user`
   * whose status is not APPROVED (ACTIVE included) is 403 before the password
   * is looked at; a wrong password is 401; otherwise a token and the user.
   */
  function Login(rows: map<int, UserRow>, nextId: int, body: JsonObject, isEmail: string -> bool,
                 compare: (string, string) -> bool): (r: Response)
    requires KeysBelow(rows, nextId)
    ensures r.code == 400 <==> !LoginAcceptable(body, isEmail)
    ensures r.code == 400 ==> r.body == ErrorBody("Invalid credentials")
    ensures var u := FindByEmail(rows, nextId, StrOf(body, "email"));
            && (r.code == 403 <==> LoginAcceptable(body, isEmail) && u.Some? && u.value.role == User && u.value.status != Approved)
            && (r.code == 403 ==> r.body == NotApproved(u.value.status))
            && (r.code == 401 <==>
                  (LoginAcceptable(body, isEmail) &&
                   (u.None? || ((u.value.role == Admin || u.value.status == Approved) && !compare(StrOf(body, "password"), u.value.passwordHash)))))
            && (r.code == 401 ==> r.body == ErrorBody("Invalid credentials"))
            && (r.code == 200 ==>
                  (u.Some? && compare(StrOf(body, "password"), u.value.passwordHash) &&
                   r.body == LoggedIn(GenerateToken(u.value), LoginUser(u.value.id, u.value.email, u.value.firstName, u.value.lastName, u.value.role, u.value.status))))
    ensures r.code in {200, 400, 401, 403}
  {
    var v := ValidateLogin(body, isEmail);
    if v.Failure? then Response(400, ErrorBody("Invalid credentials"))
    else
      match FindByEmail(rows, nextId, v.value.email)
      case None => Response(401, ErrorBody("Invalid credentials"))
      case Some(user) =>
        if user.role == User && user.status != Approved then Response(403, NotApproved(user.status))
        else if !compare(v.value.password, user.passwordHash) then Response(401, ErrorBody("Invalid credentials"))
        else Response(200, LoggedIn(GenerateToken(user), LoginUser(user.id, user.email, user.firstName, user.lastName, user.role, user.status)))
  }

  /** An admin account is never refused for its status, whatever the status. */
  lemma AdminNeverNotApproved(rows: map<int, UserRow>, nextId: int, body: JsonObject, isEmail: string -> bool,
                              compare: (string, string) -> bool)
    requires KeysBelow(rows, nextId)
    requires exists id :: id in rows && rows[id].email == StrOf(body, "email") && rows[id].role == Admin
    requires EmailsUnique(rows)
    ensures Login(rows, nextId, body, isEmail, compare).code != 403
  {
    var id :| id in rows && rows[id].email == StrOf(body, "email") && rows[id].role == Admin;
    var u := FindByEmail(rows, nextId, StrOf(body, "email"));
    assert u.Some? && u.value.id == id;
  }

  /**
   * A `user` account that is ACTIVE is refused like a PENDING one, and the
   * refusal does not depend on the password comparison.
   */
  lemma ActiveUserRefused(rows: map<int, UserRow>, nextId: int, id: int, password: string, isEmail: string -> bool,
                          compare: (string, string) -> bool, compare': (string, string) -> bool)
    requires KeysBelow(rows, nextId) && EmailsUnique(rows)
    requires id in rows && rows[id].role == User && rows[id].status == Active
    requires rows[id].email != "" && isEmail(rows[id].email) && password != ""
    ensures var body := [("email", Str(rows[id].email)), ("password", Str(password))];
            Login(rows, nextId, body, isEmail, compare) == Login(rows, nextId, body, isEmail, compare') == Response(403, NotApproved(Active))
  {
    var body: JsonObject := [("email", Str(rows[id].email)), ("password", Str(password))];
    assert Lookup(body, "email") == Some(Str(rows[id].email));
    assert Lookup(body, "password") == Some(Str(password));
    assert LoginAcceptable(body, isEmail);
    var u := FindByEmail(rows, nextId, rows[id].email);
    assert u.Some? && u.value.id == id;
  }

  /** `s.split(c)`: the pieces between the separators, at least one. */
  function Split(s: string, c: char): (parts: seq<string>)
    ensures |parts| >= 1
    ensures forall i :: 0 <= i < |parts| ==> c !in parts[i]
  {
    if |s| == 0 then [""]
    else
      var rest := Split(s[1..], c);
      if s[0] == c then [""] + rest
      else [[s[0]] + rest[0]] + rest[1..]
  }

  /** `parts.join(c)`. */
  function Join(parts: seq<string>, c: char): string
    requires |parts| >= 1
  {
    if |parts| == 1 then parts[0] else parts[0] + [c] + Join(parts[1..], c)
  }

  /** Splitting loses nothing: joining the pieces gives the string back. */
  lemma {:induction false} JoinSplit(s: string, c: char)
    ensures Join(Split(s, c), c) == s
  {
    if |s| > 0 {
      JoinSplit(s[1..], c);
      var rest := Split(s[1..], c);
      if s[0] != c {
        if |rest| == 1 {
          assert [s[0]] + rest[0] == s;
        } else {
          assert rest[1..][1..] == rest[2..];
          assert Join(rest, c) == rest[0] + [c] + Join(rest[1..], c);
          assert s == [s[0]] + s[1..];
        }
      }
    }
  }

  /** Pieces without the separator are split apart again exactly. */
  lemma {:induction false} SplitJoin(parts: seq<string>, c: char)
    requires |parts| >= 1
    requires forall i :: 0 <= i < |parts| ==> c !in parts[i]
    ensures Split(Join(parts, c), c) == parts
  {
    if |parts| == 1 {
      SplitNoSeparator(parts[0], c);
    } else {
      SplitJoin(parts[1..], c);
      SplitPrefix(parts[0], Join(parts[1..], c), c);
      assert parts == [parts[0]] + parts[1..];
    }
  }

  lemma {:induction false} SplitNoSeparator(s: string, c: char)
    requires c !in s
    ensures Split(s, c) == [s]
  {
    if |s| > 0 {
      SplitNoSeparator(s[1..], c);
      assert [s[0]] + s[1..] == s;
    }
  }

  lemma {:induction false} SplitPrefix(w: string, t: string, c: char)
    requires c !in w
    ensures Split(w + [c] + t, c) == [w] + Split(t, c)
  {
    if |w| == 0 {
      assert w + [c] + t == [c] + t;
      assert ([c] + t)[1..] == t;
    } else {
      SplitPrefix(w[1..], t, c);
      assert (w + [c] + t)[1..] == w[1..] + [c] + t;
      assert [w[0]] + w[1..] == w;
    }
  }

  /** `req.headers.authorization?.split(' ')[1]`, kept only when truthy (present and non-empty). */
  function BearerToken(authorization: Option<string>): (t: Option<string>)
    ensures t.Some? ==> t.value != "" && ' ' !in t.value
  {
    if authorization.None? then None
    else
      var parts := Split(authorization.value, ' ');
      if |parts| >= 2 && parts[1] != "" then Some(parts[1]) else None
  }

  /** The token is the second space-separated word, whatever the first: the scheme is not checked. */
  lemma BearerTokenOf(scheme: string, token: string)
    requires ' ' !in scheme && ' ' !in token && token != ""
    ensures BearerToken(Some(scheme + " " + token)) == Some(token)
  {
    SplitJoin([scheme, token], ' ');
    assert Join([scheme, token], ' ') == scheme + " " + token;
  }

  /** A header without a space carries no token. */
  lemma NoSpaceNoToken(authorization: string)
    requires ' ' !in authorization
    ensures BearerToken(Some(authorization)) == None
  {
    SplitNoSeparator(authorization, ' ');
  }

  /** POST /validate-token: 401 `{ valid: false }` without a token, otherwise 200 with the verdict and the decoded claims. */
  function ValidateToken(authorization: Option<string>, verify: string -> Option<Claims>): (r: Response)
    ensures r.code == 401 <==> BearerToken(authorization).None?
    ensures r.code == 401 ==> r.body == TokenMissing
    ensures r.code == 200 ==> r.body.TokenVerdict? && (r.body.valid <==> verify(BearerToken(authorization).value).Some?)
                              && r.body.claims == verify(BearerToken(authorization).value)
    ensures r.code in {200, 401}
  {
    match BearerToken(authorization)
    case None => Response(401, TokenMissing)
    case Some(token) =>
      var decoded := verify(token);
      Response(200, TokenVerdict(decoded.Some?, decoded))
  }

  /** A token that `verify` accepts, sent as `Bearer <token>`, validates with its claims. */
  lemma IssuedTokenValidates(token: string, claims: Claims, verify: string -> Option<Claims>)
    requires ' ' !in token && token != "" && verify(token) == Some(claims)
    ensures ValidateToken(Some("Bearer " + token), verify) == Response(200, TokenVerdict(true, Some(claims)))
  {
    BearerTokenOf("Bearer", token);
    assert "Bearer" + " " + token == "Bearer " + token;
  }
}
