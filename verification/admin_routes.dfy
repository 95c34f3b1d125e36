/**
 * backend/src/routes/admin.js: the routes behind the admin guard. Approve and
 * reject move a PENDING user to APPROVED or REJECTED after checking that the
 * user exists and is still pending; pending-users and stats are read-only.
 * The acting admin is the principal the guard attached to the request.
 */
module AdminRoutes {
  import opened Common
  import opened Schema
  import opened UserModel
  import opened AuthService
  import opened Http

  /** The answer of approve or reject and the table it leaves behind. */
  datatype Decision = Decision(response: Response, after: Snapshot)

  /**
   * The shared body of approve and reject: 404 for an unknown id, 400 naming
   * the current status for a user that is not PENDING, otherwise
   * `updateStatus(userId, target, admin.id)` and 200.
   */
  function Decide(s: Snapshot, userId: int, actorId: int, target: Status, verb: string, message: string): (d: Decision)
    ensures d.response.code == 404 <==> userId !in s.rows
    ensures d.response.code == 400 <==> userId in s.rows && s.rows[userId].status != Pending
    ensures d.response.code == 200 <==> userId in s.rows && s.rows[userId].status == Pending
    ensures d.response.code != 200 ==> d.after == s
    ensures d.response.code == 400 ==> d.response.body == ErrorBody("Cannot " + verb + " user with status: " + StatusName(s.rows[userId].status))
    ensures d.response.code == 200 ==>
              && d.after == Snapshot(s.rows[userId := Stamp(s.rows[userId], target, Some(actorId), s.clock)], s.nextId, s.clock + 1)
              && d.response.body == Decided(message, Brief(userId, s.rows[userId].email, target))
  {
    if userId !in s.rows then Decision(Response(404, ErrorBody("User not found")), s)
    else if s.rows[userId].status != Pending then
      Decision(Response(400, ErrorBody("Cannot " + verb + " user with status: " + StatusName(s.rows[userId].status))), s)
    else
      var row := Stamp(s.rows[userId], target, Some(actorId), s.clock);
      Decision(Response(200, Decided(message, Brief(userId, row.email, target))), Snapshot(s.rows[userId := row], s.nextId, s.clock + 1))
  }

  /** A decision keeps the table invariant. */
  lemma DecideKeepsInvariant(s: Snapshot, userId: int, actorId: int, target: Status, verb: string, message: string)
    requires TableInvariant(s.rows, s.nextId, s.clock)
    ensures var t := Decide(s, userId, actorId, target, verb, message).after; TableInvariant(t.rows, t.nextId, t.clock)
  {
    if userId in s.rows && s.rows[userId].status == Pending {
      RewriteKeepsInvariant(s.rows, s.nextId, s.clock, s.clock + 1, userId, Stamp(s.rows[userId], target, Some(actorId), s.clock));
    }
  }

  /**
   * After a successful approve or reject, a second approve or reject of the
   * same user, by any admin, is refused with 400 and changes nothing.
   */
  lemma SecondDecisionRefused(s: Snapshot, userId: int, actor1: int, actor2: int, t1: Status, t2: Status,
                              verb1: string, verb2: string, m1: string, m2: string)
    requires t1 != Pending
    requires Decide(s, userId, actor1, t1, verb1, m1).response.code == 200
    ensures var s' := Decide(s, userId, actor1, t1, verb1, m1).after;
            var d := Decide(s', userId, actor2, t2, verb2, m2);
            d.response == Response(400, ErrorBody("Cannot " + verb2 + " user with status: " + StatusName(t1))) && d.after == s'
  {
    var s' := Decide(s, userId, actor1, t1, verb1, m1).after;
    assert s'.rows[userId].status == t1;
  }

  /** A decision touches only the decided user's status, approver and approval time. */
  lemma DecideTouchesOnlyTarget(s: Snapshot, userId: int, actorId: int, target: Status, verb: string, message: string, other: int)
    ensures var t := Decide(s, userId, actorId, target, verb, message).after;
            && t.rows.Keys == s.rows.Keys
            && (other in s.rows && other != userId ==> t.rows[other] == s.rows[other])
            && (userId in s.rows ==>
                  var (a, b) := (t.rows[userId], s.rows[userId]);
                  a.email == b.email && a.passwordHash == b.passwordHash && a.firstName == b.firstName
                  && a.lastName == b.lastName && a.role == b.role && a.createdAt == b.createdAt)
  {
  }

  /** approved_by is a plain integer column without a foreign key: the approver recorded need not be a row of the table. */
  lemma ApproverNeedNotExist(s: Snapshot, userId: int, actorId: int)
    requires userId in s.rows && s.rows[userId].status == Pending && actorId !in s.rows
    ensures var t := Decide(s, userId, actorId, Approved, "approve", "User approved successfully").after;
            t.rows[userId].approvedBy == Some(actorId) && actorId !in t.rows
  {
  }

  /** PUT /approve/:userId. */
  method Approve(users: UsersTable, userId: int, admin: Claims) returns (r: Response)
    requires users.Valid()
    modifies users
    ensures users.Valid()
    ensures Decision(r, users.State()) == Decide(old(users.State()), userId, admin.id, Approved, "approve", "User approved successfully")
  {
    r := Settle(users, userId, admin, Approved, "approve", "User approved successfully");
  }

  /** PUT /reject/:userId: the body's `reason` is read and never stored. */
  method Reject(users: UsersTable, userId: int, admin: Claims, reason: Option<string>) returns (r: Response)
    requires users.Valid()
    modifies users
    ensures users.Valid()
    ensures Decision(r, users.State()) == Decide(old(users.State()), userId, admin.id, Rejected, "reject", "User rejected")
  {
    r := Settle(users, userId, admin, Rejected, "reject", "User rejected");
  }

  /** The steps approve and reject share: findById, the status guard, updateStatus. */
  method Settle(users: UsersTable, userId: int, admin: Claims, target: Status, verb: string, message: string) returns (r: Response)
    requires users.Valid()
    modifies users
    ensures users.Valid()
    ensures Decision(r, users.State()) == Decide(old(users.State()), userId, admin.id, target, verb, message)
  {
    var user := FindById(users.rows, userId);
    if user.None? {
      return Response(404, ErrorBody("User not found"));
    }
    if user.value.status != Pending {
      return Response(400, ErrorBody("Cannot " + verb + " user with status: " + StatusName(user.value.status)));
    }
    var updated := users.UpdateStatus(userId, target, Some(admin.id));
    r := Response(200, Decided(message, Brief(updated.value.id, updated.value.email, updated.value.status)));
  }

  /** GET /pending-users: the PENDING users, oldest first, with their number. */
  function PendingUsers(rows: map<int, UserRow>, nextId: int): (r: Response)
    requires KeysBelow(rows, nextId) && CreatedInIdOrder(rows)
    ensures r.code == 200 && r.body.PendingList?
    ensures r.body.total == |r.body.users| == |PendingIds(rows)|
    ensures forall id :: id in rows && rows[id].status == Pending <==> id in rows && PendingOf(rows[id]) in r.body.users
    ensures forall i, j :: 0 <= i < j < |r.body.users| ==> r.body.users[i].createdAt < r.body.users[j].createdAt
  {
    var users := FindAllPending(rows, nextId);
    FindAllPendingCount(rows, nextId);
    Response(200, PendingList(|users|, users))
  }

  /** GET /stats: the number of PENDING users. */
  function StatsOf(rows: map<int, UserRow>, nextId: int): (r: Response)
    requires KeysBelow(rows, nextId) && CreatedInIdOrder(rows)
    ensures r == Response(200, Stats(|PendingIds(rows)|))
  {
    FindAllPendingCount(rows, nextId);
    Response(200, Stats(|FindAllPending(rows, nextId)|))
  }

  /** Stats and the pending list agree on the count. */
  lemma StatsAgreeWithPendingList(rows: map<int, UserRow>, nextId: int)
    requires KeysBelow(rows, nextId) && CreatedInIdOrder(rows)
    ensures StatsOf(rows, nextId).body.pending == PendingUsers(rows, nextId).body.total
  {
  }

  /** A successful approval removes the user from the pending list. */
  lemma ApprovedLeavesPending(s: Snapshot, userId: int, actorId: int)
    requires TableInvariant(s.rows, s.nextId, s.clock)
    requires Decide(s, userId, actorId, Approved, "approve", "User approved successfully").response.code == 200
    ensures var t := Decide(s, userId, actorId, Approved, "approve", "User approved successfully").after;
            |PendingIds(t.rows)| == |PendingIds(s.rows)| - 1
  {
    var t := Decide(s, userId, actorId, Approved, "approve", "User approved successfully").after;
    assert PendingIds(t.rows) == PendingIds(s.rows) - {userId};
  }
}
