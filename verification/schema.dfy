/**
 * The `users` table of backend/src/db/schema.js: column types, the CHECK
 * constraints on status and role, the DEFAULT values and the UNIQUE email,
 * stated as datatypes and as a table invariant.
 */
module Schema {
  import opened Common

  /** valid_status: the only four values a stored status can take. */
  datatype Status = Pending | Approved | Rejected | Active

  /** valid_role: the only two values a stored role can take. */
  datatype Role = User | Admin

  function StatusName(s: Status): string
  {
    match s
    case Pending => "PENDING"
    case Approved => "APPROVED"
    case Rejected => "REJECTED"
    case Active => "ACTIVE"
  }

  function RoleName(r: Role): string
  {
    match r
    case User => "user"
    case Admin => "admin"
  }

  /** The valid_status CHECK: a status text is accepted exactly when it is one of the four names. */
  function ParseStatus(t: string): (r: Option<Status>)
    ensures r.Some? ==> StatusName(r.value) == t
    ensures r.None? ==> forall s :: StatusName(s) != t
  {
    if t == "PENDING" then Some(Pending)
    else if t == "APPROVED" then Some(Approved)
    else if t == "REJECTED" then Some(Rejected)
    else if t == "ACTIVE" then Some(Active)
    else None
  }

  /** The valid_role CHECK: a role text is accepted exactly when it is "user" or "admin". */
  function ParseRole(t: string): (r: Option<Role>)
    ensures r.Some? ==> RoleName(r.value) == t
    ensures r.None? ==> forall x :: RoleName(x) != t
  {
    if t == "user" then Some(User)
    else if t == "admin" then Some(Admin)
    else None
  }

  lemma StatusNameRoundTrip(s: Status)
    ensures ParseStatus(StatusName(s)) == Some(s)
  {
  }

  lemma RoleNameRoundTrip(r: Role)
    ensures ParseRole(RoleName(r)) == Some(r)
  {
  }

  /**
   * One row of `users`. Timestamps are readings of a monotonic counter that
   * stands in for NOW(). `approvedBy` is a bare INT with no foreign key.
   */
  datatype UserRow = UserRow(
    id: int,
    email: string,
    passwordHash: string,
    firstName: string,
    lastName: string,
    role: Role,
    status: Status,
    approvedBy: Option<int>,
    createdAt: nat,
    approvedAt: Option<nat>,
    updatedAt: nat)

  /**
   * The row an INSERT produces: role and status take their DEFAULT ('user',
   * 'PENDING') when the statement does not name them; approved_by and
   * approved_at start NULL; created_at and updated_at are both `now`.
   */
  function NewRow(id: int, email: string, passwordHash: string, firstName: string, lastName: string,
                  role: Option<Role>, status: Option<Status>, now: nat): (r: UserRow)
    ensures r.id == id && r.email == email && r.passwordHash == passwordHash
    ensures r.firstName == firstName && r.lastName == lastName
    ensures role.None? ==> r.role == User
    ensures status.None? ==> r.status == Pending
    ensures role.Some? ==> r.role == role.value
    ensures status.Some? ==> r.status == status.value
    ensures r.approvedBy.None? && r.approvedAt.None?
    ensures r.createdAt == now && r.updatedAt == now
  {
    UserRow(id, email, passwordHash, firstName, lastName,
            if role.Some? then role.value else User,
            if status.Some? then status.value else Pending,
            None, now, None, now)
  }

  /** SERIAL PRIMARY KEY: every key is a value the sequence has handed out, and the row carries its key. */
  ghost predicate KeysBelow(rows: map<int, UserRow>, nextId: int)
  {
    forall id :: id in rows ==> 1 <= id < nextId && rows[id].id == id
  }

  /** email VARCHAR UNIQUE NOT NULL: no two rows share an email. */
  ghost predicate EmailsUnique(rows: map<int, UserRow>)
  {
    forall a, b :: a in rows && b in rows && rows[a].email == rows[b].email ==> a == b
  }

  /** Rows are inserted one at a time, each stamped with NOW(): a later id has a later created_at. */
  ghost predicate CreatedInIdOrder(rows: map<int, UserRow>)
  {
    forall a, b :: a in rows && b in rows && a < b ==> rows[a].createdAt < rows[b].createdAt
  }

  /** Every stored timestamp lies in the past of the clock. */
  ghost predicate CreatedBefore(rows: map<int, UserRow>, clock: nat)
  {
    forall id :: id in rows ==> rows[id].createdAt < clock
  }

  /** The constraints the table keeps at all times. */
  ghost predicate TableInvariant(rows: map<int, UserRow>, nextId: nat, clock: nat)
  {
    1 <= nextId && KeysBelow(rows, nextId) && EmailsUnique(rows) && CreatedInIdOrder(rows) && CreatedBefore(rows, clock)
  }

  /** Adding a fresh row with the next id and the current clock keeps every constraint, whatever it approves or names. */
  lemma {:induction false} InsertKeepsInvariant(rows: map<int, UserRow>, nextId: nat, clock: nat, row: UserRow)
    requires TableInvariant(rows, nextId, clock)
    requires row.id == nextId && row.createdAt == clock
    requires forall id :: id in rows ==> rows[id].email != row.email
    ensures TableInvariant(rows[nextId := row], nextId + 1, clock + 1)
  {
    var rows' := rows[nextId := row];
    forall a, b | a in rows' && b in rows' && a < b
      ensures rows'[a].createdAt < rows'[b].createdAt
    {
      if b == nextId {
        assert a in rows;
      }
    }
  }

  /** Rewriting a row in place keeps every constraint when its id, email and created_at stay as they were. */
  lemma {:induction false} RewriteKeepsInvariant(rows: map<int, UserRow>, nextId: nat, clock: nat, clock': nat, id: int, row: UserRow)
    requires TableInvariant(rows, nextId, clock)
    requires id in rows && clock <= clock'
    requires row.id == id && row.email == rows[id].email && row.createdAt == rows[id].createdAt
    ensures TableInvariant(rows[id := row], nextId, clock')
  {
  }
}
