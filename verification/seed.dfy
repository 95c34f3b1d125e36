/**
 * backend/src/db/seed.js: inserts the admin account and two sample users,
 * each with INSERT ... ON CONFLICT (email) DO NOTHING, in that order. The
 * bcrypt hashes are passed in (a salted hash differs on every call); the
 * statements that throw are a parameter, and the first one that throws ends
 * the run with exit status 1.
 */
module Seed {
  import opened Common
  import opened Schema
  import opened UserModel

  /** An entry of `sampleUsers`. */
  datatype Sample = Sample(email: string, firstName: string, lastName: string)

  const AdminEmail: string := "admin@example.com"

  const SampleUsers: seq<Sample> := [
    Sample("john@example.com", "John", "Doe"),
    Sample("jane@example.com", "Jane", "Smith")
  ]

  /** The three INSERTs the seed issues, in order: the admin first, then the samples. */
  function Statements(adminHash: string, sampleHashes: seq<string>): (stmts: seq<NewUser>)
    requires |sampleHashes| == |SampleUsers|
    ensures |stmts| == 1 + |SampleUsers|
    ensures stmts[0] == NewUser(AdminEmail, adminHash, "Admin", "User", Admin, Approved)
    ensures forall i :: 0 <= i < |SampleUsers| ==> stmts[i + 1] == SampleInsert(SampleUsers[i], sampleHashes[i])
  {
    [NewUser(AdminEmail, adminHash, "Admin", "User", Admin, Approved),
     SampleInsert(SampleUsers[0], sampleHashes[0]),
     SampleInsert(SampleUsers[1], sampleHashes[1])]
  }

  /** The INSERT of one sample user: role user, status PENDING. */
  function SampleInsert(user: Sample, hash: string): NewUser
  {
    NewUser(user.email, hash, user.firstName, user.lastName, User, Pending)
  }

  /** The statements run one after another, each an insert-if-absent. */
  function InsertAll(s: Snapshot, stmts: seq<NewUser>): (t: Snapshot)
    requires TableInvariant(s.rows, s.nextId, s.clock)
    ensures TableInvariant(t.rows, t.nextId, t.clock)
    decreases |stmts|
  {
    if |stmts| == 0 then s
    else
      InsertIfAbsentKeepsInvariant(s, stmts[0]);
      InsertAll(InsertIfAbsent(s, stmts[0]), stmts[1..])
  }

  lemma {:induction false} InsertAllSnoc(s: Snapshot, stmts: seq<NewUser>, u: NewUser)
    requires TableInvariant(s.rows, s.nextId, s.clock)
    ensures var t := InsertAll(s, stmts); InsertAll(s, stmts + [u]) == InsertIfAbsent(t, u)
    decreases |stmts|
  {
    if |stmts| == 0 {
      assert ([] + [u])[1..] == [];
    } else {
      InsertIfAbsentKeepsInvariant(s, stmts[0]);
      assert (stmts + [u])[1..] == stmts[1..] + [u];
      InsertAllSnoc(InsertIfAbsent(s, stmts[0]), stmts[1..], u);
    }
  }

  /** A row already present is never touched, and no row disappears. */
  lemma {:induction false} InsertAllKeepsRows(s: Snapshot, stmts: seq<NewUser>)
    requires TableInvariant(s.rows, s.nextId, s.clock)
    ensures var t := InsertAll(s, stmts);
            forall id :: id in s.rows ==> id in t.rows && t.rows[id] == s.rows[id]
    decreases |stmts|
  {
    if |stmts| > 0 {
      InsertIfAbsentKeepsInvariant(s, stmts[0]);
      InsertAllKeepsRows(InsertIfAbsent(s, stmts[0]), stmts[1..]);
    }
  }

  /** Afterwards every email of the statements is present. */
  lemma {:induction false} InsertAllTakesEmails(s: Snapshot, stmts: seq<NewUser>)
    requires TableInvariant(s.rows, s.nextId, s.clock)
    ensures var t := InsertAll(s, stmts);
            forall i :: 0 <= i < |stmts| ==> EmailTaken(t.rows, stmts[i].email)
    decreases |stmts|
  {
    if |stmts| > 0 {
      var s' := InsertIfAbsent(s, stmts[0]);
      InsertIfAbsentKeepsInvariant(s, stmts[0]);
      InsertAllTakesEmails(s', stmts[1..]);
      InsertAllKeepsRows(s', stmts[1..]);
      forall i | 1 <= i < |stmts|
        ensures EmailTaken(InsertAll(s, stmts).rows, stmts[i].email)
      {
        assert stmts[1..][i - 1] == stmts[i];
      }
    }
  }

  /** When every email is present already, the rows and the clock stay as they were; only the sequence advances. */
  lemma {:induction false} InsertAllPresentIsNoOp(s: Snapshot, stmts: seq<NewUser>)
    requires TableInvariant(s.rows, s.nextId, s.clock)
    requires forall i :: 0 <= i < |stmts| ==> EmailTaken(s.rows, stmts[i].email)
    ensures InsertAll(s, stmts) == Snapshot(s.rows, s.nextId + |stmts|, s.clock)
    decreases |stmts|
  {
    if |stmts| > 0 {
      InsertIfAbsentKeepsInvariant(s, stmts[0]);
      assert forall i :: 1 <= i < |stmts| ==> stmts[1..][i - 1] == stmts[i];
      InsertAllPresentIsNoOp(InsertIfAbsent(s, stmts[0]), stmts[1..]);
    }
  }

  /** How many statements run before the first that throws. */
  function Completed(failing: set<nat>, i: nat, n: nat): (k: nat)
    requires i <= n
    ensures i <= k <= n
    ensures k < n ==> k in failing
    ensures forall j :: i <= j < k ==> j !in failing
    decreases n - i
  {
    if i == n || i in failing then i else Completed(failing, i + 1, n)
  }

  /** The table after a run, given which statements throw. */
  function SeedResult(s: Snapshot, adminHash: string, sampleHashes: seq<string>, failing: set<nat>): (t: Snapshot)
    requires TableInvariant(s.rows, s.nextId, s.clock) && |sampleHashes| == |SampleUsers|
  {
    var stmts := Statements(adminHash, sampleHashes);
    InsertAll(s, stmts[..Completed(failing, 0, |stmts|)])
  }

  /** One more statement of the run: the table moves from the first `i` statements applied to the first `i + 1`. */
  method RunStatement(users: UsersTable, ghost start: Snapshot, stmts: seq<NewUser>, i: nat)
    requires TableInvariant(start.rows, start.nextId, start.clock)
    requires i < |stmts| && users.Valid() && users.State() == InsertAll(start, stmts[..i])
    modifies users
    ensures users.Valid() && users.State() == InsertAll(start, stmts[..i + 1])
  {
    users.InsertIgnoringConflict(stmts[i]);
    InsertAllSnoc(start, stmts[..i], stmts[i]);
    assert stmts[..i] + [stmts[i]] == stmts[..i + 1];
  }

  /**
   * seed(): the admin INSERT, then one INSERT per sample user, each ignoring
   * a conflict on the email. The first statement that throws ends the run
   * with exit status 1; the statements before it stay applied.
   */
  method Seed(users: UsersTable, adminHash: string, sampleHashes: seq<string>, failing: set<nat>) returns (exitCode: int)
    requires users.Valid() && |sampleHashes| == |SampleUsers|
    modifies users
    ensures users.Valid()
    ensures users.State() == SeedResult(old(users.State()), adminHash, sampleHashes, failing)
    ensures exitCode == (if Completed(failing, 0, 1 + |SampleUsers|) < 1 + |SampleUsers| then 1 else 0)
  {
    exitCode := RunStatements(users, Statements(adminHash, sampleHashes), failing);
  }

  /** The statements of the seed, in order, up to the first that throws. */
  method RunStatements(users: UsersTable, stmts: seq<NewUser>, failing: set<nat>) returns (exitCode: int)
    requires users.Valid() && |stmts| >= 1
    modifies users
    ensures users.Valid()
    ensures users.State() == InsertAll(old(users.State()), stmts[..Completed(failing, 0, |stmts|)])
    ensures exitCode == (if Completed(failing, 0, |stmts|) < |stmts| then 1 else 0)
  {
    ghost var start := users.State();
    ghost var k := Completed(failing, 0, |stmts|);
    assert stmts[..0] == [];
    if 0 in failing {
      assert k == 0;
      return 1;
    }
    RunStatement(users, start, stmts, 0);
    var i := 0;
    while i < |stmts| - 1
      invariant 0 <= i <= |stmts| - 1
      invariant i + 1 <= k
      invariant users.Valid() && users.State() == InsertAll(start, stmts[..i + 1])
    {
      if i + 1 in failing {
        assert k == i + 1;
        return 1;
      }
      RunStatement(users, start, stmts, i + 1);
      i := i + 1;
    }
    assert k == |stmts|;
    exitCode := 0;
  }

  /**
   * A run without failures leaves every earlier row as it was and creates
   * the three accounts. Each email that was not present before gets its own
   * row under the SERIAL value its statement drew: the admin (role admin,
   * APPROVED), then John and Jane (role user, PENDING).
   */
  lemma SeedCreatesAccounts(s: Snapshot, adminHash: string, sampleHashes: seq<string>)
    requires TableInvariant(s.rows, s.nextId, s.clock) && |sampleHashes| == |SampleUsers|
    ensures var t := SeedResult(s, adminHash, sampleHashes, {});
            && (forall id :: id in s.rows ==> id in t.rows && t.rows[id] == s.rows[id])
            && EmailTaken(t.rows, AdminEmail)
            && EmailTaken(t.rows, "john@example.com") && EmailTaken(t.rows, "jane@example.com")
            && (!EmailTaken(s.rows, AdminEmail) ==> s.nextId in t.rows && t.rows[s.nextId].email == AdminEmail
                                                    && t.rows[s.nextId].role == Admin && t.rows[s.nextId].status == Approved)
            && (!EmailTaken(s.rows, "john@example.com") ==>
                  s.nextId + 1 in t.rows && t.rows[s.nextId + 1].email == "john@example.com"
                  && t.rows[s.nextId + 1].role == User && t.rows[s.nextId + 1].status == Pending)
            && (!EmailTaken(s.rows, "jane@example.com") ==>
                  s.nextId + 2 in t.rows && t.rows[s.nextId + 2].email == "jane@example.com"
                  && t.rows[s.nextId + 2].role == User && t.rows[s.nextId + 2].status == Pending)
  {
    var stmts := Statements(adminHash, sampleHashes);
    assert Completed({}, 0, |stmts|) == |stmts|;
    assert stmts[..|stmts|] == stmts;
    InsertAllKeepsRows(s, stmts);
    InsertAllTakesEmails(s, stmts);
    assert stmts[1].email == "john@example.com" && stmts[2].email == "jane@example.com";
    assert stmts[1].role == User && stmts[1].status == Pending && stmts[2].role == User && stmts[2].status == Pending;
    if !EmailTaken(s.rows, AdminEmail) {
      RowInsertedAt(s, stmts, 0);
    }
    if !EmailTaken(s.rows, "john@example.com") {
      RowInsertedAt(s, stmts, 1);
    }
    if !EmailTaken(s.rows, "jane@example.com") {
      RowInsertedAt(s, stmts, 2);
    }
  }

  /**
   * Of statements run in order, the one at position `k` inserts its own row at the serial
   * value `k` past the current one, when its e-mail was free before and differs from every
   * earlier statement's.
   */
  lemma {:induction false} RowInsertedAt(s: Snapshot, stmts: seq<NewUser>, k: nat)
    requires TableInvariant(s.rows, s.nextId, s.clock) && k < |stmts|
    requires !EmailTaken(s.rows, stmts[k].email)
    requires forall j :: 0 <= j < k ==> stmts[j].email != stmts[k].email
    ensures var t := InsertAll(s, stmts);
            s.nextId + k in t.rows && t.rows[s.nextId + k].email == stmts[k].email
            && t.rows[s.nextId + k].role == stmts[k].role && t.rows[s.nextId + k].status == stmts[k].status
    decreases k
  {
    InsertAllStep(s, stmts);
    var s1 := InsertIfAbsent(s, stmts[0]);
    if k == 0 {
      InsertedRow(s, stmts[0]);
      InsertAllKeepsRows(s1, stmts[1..]);
    } else {
      StillAbsent(s, stmts[0], stmts[k].email);
      TailKeepsDistinct(stmts, k);
      RowInsertedAt(s1, stmts[1..], k - 1);
    }
  }

  /** Running statements is running the first one, then the rest. */
  lemma InsertAllStep(s: Snapshot, stmts: seq<NewUser>)
    requires TableInvariant(s.rows, s.nextId, s.clock) && |stmts| > 0
    ensures var s1 := InsertIfAbsent(s, stmts[0]); TableInvariant(s1.rows, s1.nextId, s1.clock)
    ensures InsertAll(s, stmts) == InsertAll(InsertIfAbsent(s, stmts[0]), stmts[1..])
  {
    InsertIfAbsentKeepsInvariant(s, stmts[0]);
  }

  /** Dropping the first statement keeps the one at `k` apart from those before it. */
  lemma TailKeepsDistinct(stmts: seq<NewUser>, k: nat)
    requires 0 < k < |stmts|
    requires forall j :: 0 <= j < k ==> stmts[j].email != stmts[k].email
    ensures stmts[1..][k - 1] == stmts[k]
    ensures forall j :: 0 <= j < k - 1 ==> stmts[1..][j].email != stmts[1..][k - 1].email
  {
    forall j | 0 <= j < k - 1
      ensures stmts[1..][j].email != stmts[1..][k - 1].email
    {
      assert stmts[1..][j] == stmts[j + 1];
    }
  }

  /** An insert whose e-mail is free puts its row at the current serial value. */
  lemma InsertedRow(s: Snapshot, u: NewUser)
    requires TableInvariant(s.rows, s.nextId, s.clock) && !EmailTaken(s.rows, u.email)
    ensures var t := InsertIfAbsent(s, u);
            s.nextId in t.rows && t.rows[s.nextId].email == u.email
            && t.rows[s.nextId].role == u.role && t.rows[s.nextId].status == u.status
  { }

  /** Inserting another email leaves an absent email absent. */
  lemma StillAbsent(s: Snapshot, u: NewUser, email: string)
    requires TableInvariant(s.rows, s.nextId, s.clock) && !EmailTaken(s.rows, email) && u.email != email
    ensures !EmailTaken(InsertIfAbsent(s, u).rows, email)
  {
    var t := InsertIfAbsent(s, u);
    forall id | id in t.rows
      ensures t.rows[id].email != email
    {
      if id != s.nextId || EmailTaken(s.rows, u.email) {
        assert id in s.rows;
      }
    }
  }

  /** Running the seed twice leaves the same rows and clock as running it once; only the SERIAL sequence moves on. */
  lemma SeedIdempotent(s: Snapshot, adminHash: string, sampleHashes: seq<string>, adminHash': string, sampleHashes': seq<string>)
    requires TableInvariant(s.rows, s.nextId, s.clock) && |sampleHashes| == |sampleHashes'| == |SampleUsers|
    ensures var once := SeedResult(s, adminHash, sampleHashes, {});
            var twice := SeedResult(once, adminHash', sampleHashes', {});
            twice == Snapshot(once.rows, once.nextId + 3, once.clock)
  {
    var stmts := Statements(adminHash, sampleHashes);
    var stmts' := Statements(adminHash', sampleHashes');
    assert Completed({}, 0, |stmts|) == |stmts| && stmts[..|stmts|] == stmts && stmts'[..|stmts'|] == stmts';
    var once := InsertAll(s, stmts);
    InsertAllTakesEmails(s, stmts);
    assert forall i :: 0 <= i < |stmts'| ==> stmts'[i].email == stmts[i].email;
    InsertAllPresentIsNoOp(once, stmts');
  }
}
