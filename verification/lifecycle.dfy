/**
 * The account lifecycle end to end, over the handlers of
 * backend/src/routes/auth.js and backend/src/routes/admin.js on one table:
 * register, a refused login while PENDING, approval, a successful login.
 */
module Lifecycle {
  import opened Common
  import opened Schema
  import opened UserModel
  import opened AuthService
  import opened Validation
  import opened Http
  import opened AuthRoutes
  import opened AdminRoutes

  /** A registration body with the four fields, in the order the schema lists them. */
  function RegistrationBody(email: string, password: string, first: string, last: string): JsonObject
  {
    [("email", Str(email)), ("password", Str(password)), ("firstName", Str(first)), ("lastName", Str(last))]
  }

  /** A registration body with acceptable fields passes the schema, and its email and password are the given ones. */
  lemma RegistrationBodyAcceptable(email: string, password: string, first: string, last: string, isEmail: string -> bool)
    requires email != "" && isEmail(email) && |password| >= 8
    requires IsAlphanum(first) && 2 <= |first| <= 50 && IsAlphanum(last) && 2 <= |last| <= 50
    ensures var body := RegistrationBody(email, password, first, last);
            RegistrationAcceptable(body, isEmail) && StrOf(body, "email") == email && StrOf(body, "password") == password
  {
    var body := RegistrationBody(email, password, first, last);
    LookupAt(body, 0, "email");
    LookupAt(body, 1, "password");
    LookupAt(body, 2, "firstName");
    LookupAt(body, 3, "lastName");
    FilledWith(body, "email", email);
    FilledWith(body, "password", password);
    FilledWith(body, "firstName", first);
    FilledWith(body, "lastName", last);
    assert OnlyKeys(body, {"email", "password", "firstName", "lastName"});
  }

  /** A login body with the two credentials, in form order. */
  function CredentialsBody(email: string, password: string): JsonObject
  {
    [("email", Str(email)), ("password", Str(password))]
  }

  /**
   * Logging in as a stored `user` account: refused with its status until it is
   * APPROVED, then answered with a token for that row when the password matches.
   */
  lemma LoginOfUser(rows: map<int, UserRow>, nextId: int, email: string, password: string,
                    isEmail: string -> bool, compare: (string, string) -> bool)
    requires KeysBelow(rows, nextId) && email != "" && isEmail(email) && password != ""
    requires FindByEmail(rows, nextId, email).Some? && FindByEmail(rows, nextId, email).value.role == User
    ensures var (u, r) := (FindByEmail(rows, nextId, email).value, Login(rows, nextId, CredentialsBody(email, password), isEmail, compare));
            && (u.status != Approved ==> r == Response(403, NotApproved(u.status)))
            && (u.status == Approved && compare(password, u.passwordHash) ==>
                  r.code == 200 && r.body.LoggedIn? && r.body.token == GenerateToken(u))
  {
    var body := CredentialsBody(email, password);
    assert Lookup(body, "email") == Some(Str(email));
    assert Lookup(body, "password") == Some(Str(password));
    assert OnlyKeys(body, {"email", "password"});
    assert LoginAcceptable(body, isEmail);
  }

  /**
   * On a fresh table: registration answers 201; a login before approval is
   * refused with 403 and the status PENDING; after an admin approves id 1,
   * the same login answers 200; registering the email again answers 409.
   * `compare` accepts a password against its own hash, as bcrypt does.
   */
  method RegisterApproveLogin(email: string, password: string, first: string, last: string, admin: Claims,
                              isEmail: string -> bool, bcrypt: string -> string, compare: (string, string) -> bool)
    returns (registered: Response, early: Response, approved: Response, login: Response, again: Response)
    requires email != "" && isEmail(email) && |password| >= 8
    requires IsAlphanum(first) && 2 <= |first| <= 50 && IsAlphanum(last) && 2 <= |last| <= 50
    requires compare(password, bcrypt(password))
    ensures registered == Response(201, Registered(Brief(1, email, Pending)))
    ensures early == Response(403, NotApproved(Pending))
    ensures approved.code == 200 && login.code == 200 && again.code == 409
    ensures login.body.LoggedIn? && login.body.token.claims == Claims(1, email, User, Approved)
  {
    var users := new UsersTable();
    var body := RegistrationBody(email, password, first, last);
    var credentials := CredentialsBody(email, password);
    RegistrationBodyAcceptable(email, password, first, last, isEmail);
    registered := Register(users, body, isEmail, bcrypt);
    ghost var row := users.rows[1];
    assert row.email == email && row.passwordHash == bcrypt(password) && row.role == User && row.status == Pending;
    assert FindByEmail(users.rows, users.nextId, email) == Some(row);
    LoginOfUser(users.rows, users.nextId, email, password, isEmail, compare);
    early := Login(users.rows, users.nextId, credentials, isEmail, compare);
    ghost var s1 := users.State();
    approved := Approve(users, 1, admin);
    ghost var approvedRow := Stamp(row, Approved, Some(admin.id), s1.clock);
    assert users.rows == s1.rows[1 := approvedRow] && users.nextId == s1.nextId;
    FindByEmailAfterRewrite(s1.rows, s1.nextId, row, approvedRow);
    LoginOfUser(users.rows, users.nextId, email, password, isEmail, compare);
    login := Login(users.rows, users.nextId, credentials, isEmail, compare);
    assert EmailTaken(users.rows, email);
    again := Register(users, body, isEmail, bcrypt);
  }
}
