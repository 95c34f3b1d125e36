/**
 * backend/src/models/User.js: the `User` model over the `users` table.
 * The table is a class whose fields are the rows, the SERIAL sequence and a
 * monotonic clock standing in for NOW(); `create` and `updateStatus` change
 * it, the finders are functions of its rows.
 */
module UserModel {
  import opened Common
  import opened Schema
  import opened Errors

  /** The columns findById selects: everything except password_hash. */
  datatype UserView = UserView(
    id: int, email: string, firstName: string, lastName: string,
    status: Status, role: Role, createdAt: nat, approvedAt: Option<nat>)

  /** The columns findAllPending selects. */
  datatype PendingUser = PendingUser(id: int, email: string, firstName: string, lastName: string, createdAt: nat)

  /** The columns findByRole selects. */
  datatype UserSummary = UserSummary(id: int, email: string, firstName: string, lastName: string)

  /** The columns create returns (RETURNING): no password_hash. */
  datatype CreatedUser = CreatedUser(
    id: int, email: string, firstName: string, lastName: string,
    status: Status, role: Role, createdAt: nat)

  /** The columns updateStatus returns (RETURNING). */
  datatype UpdatedUser = UpdatedUser(id: int, email: string, status: Status, approvedAt: Option<nat>)

  /** A WHERE clause on one column. */
  datatype Where = StatusIs(status: Status) | RoleIs(role: Role)

  /** The whole table as a value: rows, the next SERIAL value and the clock. */
  datatype Snapshot = Snapshot(rows: map<int, UserRow>, nextId: nat, clock: nat)

  /** The values of an INSERT that names every column itself (the seed's inserts). */
  datatype NewUser = NewUser(email: string, passwordHash: string, firstName: string, lastName: string, role: Role, status: Status)

  predicate Holds(row: UserRow, w: Where)
  {
    match w
    case StatusIs(s) => row.status == s
    case RoleIs(r) => row.role == r
  }

  ghost predicate EmailTaken(rows: map<int, UserRow>, email: string)
  {
    exists id :: id in rows && rows[id].email == email
  }

  /** The ids below `n` whose rows satisfy `w`. */
  ghost function Matching(rows: map<int, UserRow>, n: int, w: Where): set<int>
  {
    set id | id in rows && 1 <= id < n && Holds(rows[id], w)
  }

  /** The PENDING rows of the table. */
  ghost function PendingIds(rows: map<int, UserRow>): set<int>
  {
    set id | id in rows && rows[id].status == Pending
  }

  function ViewOf(row: UserRow): UserView
  {
    UserView(row.id, row.email, row.firstName, row.lastName, row.status, row.role, row.createdAt, row.approvedAt)
  }

  function PendingOf(row: UserRow): PendingUser
  {
    PendingUser(row.id, row.email, row.firstName, row.lastName, row.createdAt)
  }

  function SummaryOf(row: UserRow): UserSummary
  {
    UserSummary(row.id, row.email, row.firstName, row.lastName)
  }

  /** A scan of ids 1 .. n-1: the ids of the rows satisfying `w`, ascending. */
  function Select(rows: map<int, UserRow>, n: int, w: Where): (ids: seq<int>)
    decreases n
    ensures forall i :: 0 <= i < |ids| ==> ids[i] in rows && 1 <= ids[i] < n && Holds(rows[ids[i]], w)
    ensures forall i, j :: 0 <= i < j < |ids| ==> ids[i] < ids[j]
    ensures forall id :: id in rows && 1 <= id < n && Holds(rows[id], w) ==> id in ids
  {
    if n <= 1 then []
    else Select(rows, n - 1, w) + (if n - 1 in rows && Holds(rows[n - 1], w) then [n - 1] else [])
  }

  /** Extending the scanned range by one id adds that id exactly when its row matches. */
  lemma MatchingStep(rows: map<int, UserRow>, n: int, w: Where)
    requires n > 1
    ensures Matching(rows, n, w) == Matching(rows, n - 1, w) + (if n - 1 in rows && Holds(rows[n - 1], w) then {n - 1} else {})
  {
  }

  /** The scan returns one id per matching row, so its length is the number of matching rows. */
  lemma {:induction false} SelectCountsMatching(rows: map<int, UserRow>, n: int, w: Where)
    ensures |Select(rows, n, w)| == |Matching(rows, n, w)|
    decreases n
  {
    if n <= 1 {
      assert Matching(rows, n, w) == {};
    } else {
      SelectCountsMatching(rows, n - 1, w);
      MatchingStep(rows, n, w);
      assert n - 1 !in Matching(rows, n - 1, w);
    }
  }

  /** A scan of ids n-1 down to 1 for a row with this exact email. */
  function FindEmailBelow(rows: map<int, UserRow>, n: int, email: string): (r: Option<int>)
    decreases n
    ensures r.Some? ==> r.value in rows && rows[r.value].email == email
    ensures r.None? ==> forall id :: id in rows && 1 <= id < n ==> rows[id].email != email
  {
    if n <= 1 then None
    else if n - 1 in rows && rows[n - 1].email == email then Some(n - 1)
    else FindEmailBelow(rows, n - 1, email)
  }

  /**
   * findByEmail: the whole row (password_hash included) whose email equals
   * the argument exactly, or nothing.
   */
  function FindByEmail(rows: map<int, UserRow>, nextId: int, email: string): (r: Option<UserRow>)
    requires KeysBelow(rows, nextId)
    ensures r.Some? ==> r.value.id in rows && rows[r.value.id] == r.value && r.value.email == email
    ensures r.None? <==> !EmailTaken(rows, email)
  {
    match FindEmailBelow(rows, nextId, email)
    case Some(id) => Some(rows[id])
    case None => None
  }

  /** findById: the row of that id without its password hash, or nothing. */
  function FindById(rows: map<int, UserRow>, id: int): (r: Option<UserView>)
    ensures r.Some? <==> id in rows
    ensures r.Some? ==> (r.value.id == rows[id].id && r.value.email == rows[id].email
                         && r.value.firstName == rows[id].firstName && r.value.lastName == rows[id].lastName
                         && r.value.status == rows[id].status && r.value.role == rows[id].role
                         && r.value.createdAt == rows[id].createdAt && r.value.approvedAt == rows[id].approvedAt)
  {
    if id in rows then Some(ViewOf(rows[id])) else None
  }

  /**
   * findAllPending: exactly the PENDING rows, each once, ordered by
   * created_at ascending.
   */
  function FindAllPending(rows: map<int, UserRow>, nextId: int): (r: seq<PendingUser>)
    requires KeysBelow(rows, nextId) && CreatedInIdOrder(rows)
    ensures forall i :: 0 <= i < |r| ==> r[i].id in rows && rows[r[i].id].status == Pending && r[i] == PendingOf(rows[r[i].id])
    ensures forall id :: id in rows && rows[id].status == Pending ==> PendingOf(rows[id]) in r
    ensures forall i, j :: 0 <= i < j < |r| ==> r[i].createdAt < r[j].createdAt
  {
    var ids := Select(rows, nextId, StatusIs(Pending));
    var r := PendingRows(rows, ids);
    PendingRowsOrdered(rows, ids, r);
    assert forall id | id in rows && rows[id].status == Pending :: PendingOf(rows[id]) in r by {
      forall id | id in rows && rows[id].status == Pending
        ensures PendingOf(rows[id]) in r
      {
        var i :| 0 <= i < |ids| && ids[i] == id;
        assert r[i] == PendingOf(rows[id]);
      }
    }
    r
  }

  /** The pending projections of the rows under `ids`, in the order of `ids`. */
  function PendingRows(rows: map<int, UserRow>, ids: seq<int>): (r: seq<PendingUser>)
    requires forall i :: 0 <= i < |ids| ==> ids[i] in rows
    ensures |r| == |ids| && forall i :: 0 <= i < |ids| ==> r[i] == PendingOf(rows[ids[i]])
  {
    seq(|ids|, i requires 0 <= i < |ids| => PendingOf(rows[ids[i]]))
  }

  /** Rows listed in ascending id order are listed in ascending created_at order. */
  lemma PendingRowsOrdered(rows: map<int, UserRow>, ids: seq<int>, r: seq<PendingUser>)
    requires CreatedInIdOrder(rows)
    requires forall i :: 0 <= i < |ids| ==> ids[i] in rows
    requires forall i, j :: 0 <= i < j < |ids| ==> ids[i] < ids[j]
    requires |r| == |ids| && forall i :: 0 <= i < |ids| ==> r[i] == PendingOf(rows[ids[i]])
    ensures forall i, j :: 0 <= i < j < |r| ==> r[i].createdAt < r[j].createdAt
  {
    forall i, j | 0 <= i < j < |r|
      ensures r[i].createdAt < r[j].createdAt
    {
      assert ids[i] < ids[j];
    }
  }

  /** The pending list has one entry per PENDING row. */
  lemma FindAllPendingCount(rows: map<int, UserRow>, nextId: int)
    requires KeysBelow(rows, nextId) && CreatedInIdOrder(rows)
    ensures |FindAllPending(rows, nextId)| == |PendingIds(rows)|
  {
    SelectCountsMatching(rows, nextId, StatusIs(Pending));
    assert Matching(rows, nextId, StatusIs(Pending)) == PendingIds(rows);
  }

  /** findByRole: exactly the rows with that role, each once (SQL promises no order). */
  function FindByRole(rows: map<int, UserRow>, nextId: int, role: Role): (r: seq<UserSummary>)
    requires KeysBelow(rows, nextId)
    ensures forall i :: 0 <= i < |r| ==> r[i].id in rows && rows[r[i].id].role == role && r[i] == SummaryOf(rows[r[i].id])
    ensures forall id :: id in rows && rows[id].role == role ==> SummaryOf(rows[id]) in r
    ensures forall i, j :: 0 <= i < j < |r| ==> r[i].id != r[j].id
  {
    var ids := Select(rows, nextId, RoleIs(role));
    var r := seq(|ids|, i requires 0 <= i < |ids| => SummaryOf(rows[ids[i]]));
    assert forall id | id in rows && rows[id].role == role :: SummaryOf(rows[id]) in r by {
      forall id | id in rows && rows[id].role == role
        ensures SummaryOf(rows[id]) in r
      {
        var i :| 0 <= i < |ids| && ids[i] == id;
        assert r[i] == SummaryOf(rows[id]);
      }
    }
    r
  }

  /**
   * The row updateStatus writes: status, approved_by and approved_at set,
   * every other column (updated_at included) as it was.
   */
  function Stamp(row: UserRow, status: Status, approvedBy: Option<int>, at: nat): (r: UserRow)
    ensures r.status == status && r.approvedBy == approvedBy && r.approvedAt == Some(at)
    ensures r.(status := row.status, approvedBy := row.approvedBy, approvedAt := row.approvedAt) == row
  {
    row.(status := status, approvedBy := approvedBy, approvedAt := Some(at))
  }

  /**
   * INSERT ... ON CONFLICT (email) DO NOTHING. The SERIAL value is drawn
   * before the conflict is detected, so the sequence advances either way.
   */
  function InsertIfAbsent(s: Snapshot, u: NewUser): (t: Snapshot)
    requires KeysBelow(s.rows, s.nextId)
    ensures t.nextId == s.nextId + 1
    ensures EmailTaken(s.rows, u.email) ==> t.rows == s.rows && t.clock == s.clock
    ensures !EmailTaken(s.rows, u.email) ==>
              t.rows == s.rows[s.nextId := NewRow(s.nextId, u.email, u.passwordHash, u.firstName, u.lastName, Some(u.role), Some(u.status), s.clock)]
              && t.clock == s.clock + 1
    ensures EmailTaken(t.rows, u.email)
  {
    if FindByEmail(s.rows, s.nextId, u.email).Some? then s.(nextId := s.nextId + 1)
    else
      var row := NewRow(s.nextId, u.email, u.passwordHash, u.firstName, u.lastName, Some(u.role), Some(u.status), s.clock);
      assert s.rows[s.nextId := row][s.nextId].email == u.email;
      Snapshot(s.rows[s.nextId := row], s.nextId + 1, s.clock + 1)
  }

  /** The insert keeps the table's constraints. */
  lemma InsertIfAbsentKeepsInvariant(s: Snapshot, u: NewUser)
    requires TableInvariant(s.rows, s.nextId, s.clock)
    ensures var t := InsertIfAbsent(s, u); TableInvariant(t.rows, t.nextId, t.clock)
  {
    if !EmailTaken(s.rows, u.email) {
      var row := NewRow(s.nextId, u.email, u.passwordHash, u.firstName, u.lastName, Some(u.role), Some(u.status), s.clock);
      InsertKeepsInvariant(s.rows, s.nextId, s.clock, row);
    }
  }

  /** Rewriting a row without changing its email keeps it the row found by that email. */
  lemma FindByEmailAfterRewrite(rows: map<int, UserRow>, nextId: int, row: UserRow, row': UserRow)
    requires KeysBelow(rows, nextId) && EmailsUnique(rows)
    requires row.id in rows && rows[row.id] == row && row'.email == row.email && row'.id == row.id
    ensures FindByEmail(rows[row.id := row'], nextId, row.email) == Some(row')
  {
    var rows' := rows[row.id := row'];
    assert KeysBelow(rows', nextId);
    assert rows'[row.id].email == row.email;
    var found := FindByEmail(rows', nextId, row.email);
    assert found.Some? && rows'[found.value.id].email == row.email;
  }

  /** After a successful insert, looking the email up finds the new row. */
  lemma {:induction false} FindByEmailAfterInsert(rows: map<int, UserRow>, nextId: nat, row: UserRow)
    requires KeysBelow(rows, nextId) && 1 <= nextId && row.id == nextId
    ensures FindByEmail(rows[nextId := row], nextId + 1, row.email) == Some(row)
  {
    var rows' := rows[nextId := row];
    assert KeysBelow(rows', nextId + 1);
    assert FindEmailBelow(rows', nextId + 1, row.email) == Some(nextId);
  }

  /** The users table. */
  class UsersTable {
    var rows: map<int, UserRow>
    var nextId: nat
    var clock: nat

    ghost predicate Valid()
      reads this
    {
      TableInvariant(rows, nextId, clock)
    }

    function State(): Snapshot
      reads this
    {
      Snapshot(rows, nextId, clock)
    }

    /** An empty table: the sequence starts at 1. */
    constructor ()
      ensures Valid() && rows == map[] && nextId == 1 && clock == 0
    {
      rows := map[];
      nextId := 1;
      clock := 0;
    }

    /**
     * create: inserts a PENDING `user` row stamped with the clock and returns
     * it without the hash; an email already present makes the INSERT throw
     * a unique violation and changes no row.
     */
    method Create(email: string, hashedPassword: string, firstName: string, lastName: string)
      returns (r: Result<CreatedUser, JsError>)
      requires Valid()
      modifies this
      ensures Valid()
      ensures nextId == old(nextId) + 1
      ensures EmailTaken(old(rows), email) ==>
                r == Failure(EmailUniqueViolation()) && rows == old(rows) && clock == old(clock)
      ensures !EmailTaken(old(rows), email) ==>
                rows == old(rows)[old(nextId) := NewRow(old(nextId), email, hashedPassword, firstName, lastName, Some(User), Some(Pending), old(clock))]
                && clock == old(clock) + 1
                && r == Success(CreatedUser(old(nextId), email, firstName, lastName, Pending, User, old(clock)))
    {
      var id := nextId;
      nextId := nextId + 1;
      if FindByEmail(rows, id, email).Some? {
        return Failure(EmailUniqueViolation());
      }
      var row := NewRow(id, email, hashedPassword, firstName, lastName, Some(User), Some(Pending), clock);
      InsertKeepsInvariant(rows, id, clock, row);
      rows := rows[id := row];
      r := Success(CreatedUser(id, email, firstName, lastName, Pending, User, clock));
      clock := clock + 1;
    }

    /** The seed's INSERT ... ON CONFLICT (email) DO NOTHING. */
    method InsertIgnoringConflict(u: NewUser)
      requires Valid()
      modifies this
      ensures Valid()
      ensures State() == InsertIfAbsent(old(State()), u)
    {
      InsertIfAbsentKeepsInvariant(State(), u);
      var t := InsertIfAbsent(State(), u);
      rows, nextId, clock := t.rows, t.nextId, t.clock;
    }

    /**
     * updateStatus: for any target status, REJECTED included, and whatever
     * the current status, stamps status, approved_by and approved_at on the
     * row of that id and returns it; an unknown id changes nothing and
     * returns nothing.
     */
    method UpdateStatus(id: int, status: Status, approvedBy: Option<int>) returns (r: Option<UpdatedUser>)
      requires Valid()
      modifies this
      ensures Valid()
      ensures nextId == old(nextId)
      ensures id in old(rows) ==>
                rows == old(rows)[id := Stamp(old(rows)[id], status, approvedBy, old(clock))]
                && clock == old(clock) + 1
                && r == Some(UpdatedUser(id, old(rows)[id].email, status, Some(old(clock))))
      ensures id !in old(rows) ==> rows == old(rows) && clock == old(clock) && r == None
    {
      if id !in rows {
        return None;
      }
      var row := Stamp(rows[id], status, approvedBy, clock);
      RewriteKeepsInvariant(rows, nextId, clock, clock + 1, id, row);
      rows := rows[id := row];
      r := Some(UpdatedUser(id, row.email, status, Some(clock)));
      clock := clock + 1;
    }
  }
}
