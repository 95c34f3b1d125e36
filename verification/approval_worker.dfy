/**
 * backend/src/workers/approvalWorker.js: one tick of `processApprovalQueue`.
 * The tick reads up to BATCH_SIZE entries from the head of the Redis list
 * `approval:queue` without removing them, then walks them in order. For each
 * entry it runs the APPROVE or REJECT UPDATE and, when that does not throw,
 * pops the CURRENT HEAD of the list, which need not be the entry just
 * handled. An UPDATE that throws is caught and nothing is popped. An entry
 * that is not valid JSON makes `JSON.parse` throw outside the inner try and
 * ends the tick.
 *
 * Which UPDATEs throw (a lost connection, a non-numeric id) is decided
 * outside the code and is a parameter: the set of batch positions that fail.
 */
module ApprovalWorker {
  import opened Common
  import opened Schema
  import opened UserModel
  import opened AdminRoutes

  const BatchSize: nat := 10

  /**
   * One list element after `JSON.parse`: a malformed string, or the
   * destructured `{ userId, action, approvedBy }` (an absent id is None).
   */
  datatype Entry = Malformed | Item(userId: Option<int>, action: string, approvedBy: Option<int>)

  /** What a tick sees and changes: the users table (rows and clock) and the list. */
  datatype World = World(rows: map<int, UserRow>, clock: nat, list: seq<Entry>)

  /** The list `approval:queue`, head first. */
  class RedisList {
    var items: seq<Entry>

    constructor (items: seq<Entry>)
      ensures this.items == items
    {
      this.items := items;
    }

    /** LRANGE key 0 stop: the first stop+1 elements, or all of them when fewer. */
    method LRange(stop: nat) returns (r: seq<Entry>)
      ensures |r| == Min(stop + 1, |items|) && r == items[..|r|]
    {
      r := items[..Min(stop + 1, |items|)];
    }

    /** LPOP key: removes the head, if any. */
    method LPop()
      modifies this
      ensures items == Pop(old(items))
    {
      if |items| > 0 {
        items := items[1..];
      }
    }
  }

  /** The list after LPOP. */
  function Pop(list: seq<Entry>): (r: seq<Entry>)
    ensures |list| > 0 ==> list == [list[0]] + r
    ensures |list| == 0 ==> r == []
  {
    if |list| == 0 then [] else list[1..]
  }

  /** The entry makes the worker issue an UPDATE. */
  predicate Issues(e: Entry)
  {
    e.Item? && (e.action == "APPROVE" || e.action == "REJECT")
  }

  /**
   * The UPDATE of one entry. APPROVE sets status, approved_by and
   * approved_at; REJECT sets status and approved_by only; any other action
   * issues no query; an absent or unknown id matches no row.
   */
  function ApplyUpdate(w: World, e: Entry): (r: World)
    ensures r.list == w.list && r.rows.Keys == w.rows.Keys
    ensures forall id :: id in w.rows && (e.Malformed? || e.userId != Some(id)) ==> r.rows[id] == w.rows[id]
    ensures e.Item? && e.action == "APPROVE" && e.userId.Some? && e.userId.value in w.rows ==>
              r.rows[e.userId.value] == Stamp(w.rows[e.userId.value], Approved, e.approvedBy, w.clock)
    ensures e.Item? && e.action == "REJECT" && e.userId.Some? && e.userId.value in w.rows ==>
              var (a, b) := (r.rows[e.userId.value], w.rows[e.userId.value]);
              a.status == Rejected && a.approvedBy == e.approvedBy && a.(status := b.status, approvedBy := b.approvedBy) == b
    ensures !Issues(e) ==> r == w
  {
    if e.Malformed? || e.userId.None? || e.userId.value !in w.rows then w
    else
      var id := e.userId.value;
      if e.action == "APPROVE" then
        w.(rows := w.rows[id := Stamp(w.rows[id], Approved, e.approvedBy, w.clock)], clock := w.clock + 1)
      else if e.action == "REJECT" then
        w.(rows := w.rows[id := w.rows[id].(status := Rejected, approvedBy := e.approvedBy)], clock := w.clock + 1)
      else w
  }

  lemma ApplyUpdateKeepsInvariant(w: World, e: Entry, nextId: nat)
    requires TableInvariant(w.rows, nextId, w.clock)
    ensures var r := ApplyUpdate(w, e); TableInvariant(r.rows, nextId, r.clock)
  {
    if Issues(e) && e.userId.Some? && e.userId.value in w.rows {
      var id := e.userId.value;
      var r := ApplyUpdate(w, e);
      RewriteKeepsInvariant(w.rows, nextId, w.clock, r.clock, id, r.rows[id]);
      assert r.rows == w.rows[id := r.rows[id]];
    }
  }

  /**
   * The rest of the tick from batch position `i`, as written: a malformed
   * entry ends it; an UPDATE that throws is skipped without a pop; every
   * other entry is applied and the list's head is popped.
   */
  function RunBatch(w: World, batch: seq<Entry>, i: nat, failing: set<nat>): (r: World)
    requires i <= |batch|
    ensures r.rows.Keys == w.rows.Keys && w.clock <= r.clock
    decreases |batch| - i
  {
    if i == |batch| || batch[i].Malformed? then w
    else if Issues(batch[i]) && i in failing then RunBatch(w, batch, i + 1, failing)
    else RunBatch(ApplyUpdate(w, batch[i]).(list := Pop(w.list)), batch, i + 1, failing)
  }

  /** The batch one tick reads: LRANGE 0 BATCH_SIZE-1. */
  function Batch(list: seq<Entry>): (b: seq<Entry>)
    ensures |b| == Min(BatchSize, |list|) && b == list[..|b|]
  {
    list[..Min(BatchSize, |list|)]
  }

  /** One tick of the worker. */
  function Tick(w: World, failing: set<nat>): World
  {
    RunBatch(w, Batch(w.list), 0, failing)
  }

  /** The number of pops from position `i` on: the entries before the first malformed one whose UPDATE does not throw. */
  function Pops(batch: seq<Entry>, i: nat, failing: set<nat>): (n: nat)
    requires i <= |batch|
    ensures n <= |batch| - i
    decreases |batch| - i
  {
    if i == |batch| || batch[i].Malformed? then 0
    else if Issues(batch[i]) && i in failing then Pops(batch, i + 1, failing)
    else 1 + Pops(batch, i + 1, failing)
  }

  /** The rest of a tick removes a prefix of the list: one element per successful entry. */
  lemma {:induction false} RunBatchPopsPrefix(w: World, batch: seq<Entry>, i: nat, failing: set<nat>)
    requires i <= |batch|
    ensures RunBatch(w, batch, i, failing).list == w.list[Min(Pops(batch, i, failing), |w.list|)..]
    decreases |batch| - i
  {
    if i == |batch| || batch[i].Malformed? {
    } else if Issues(batch[i]) && i in failing {
      RunBatchPopsPrefix(w, batch, i + 1, failing);
    } else {
      var w' := ApplyUpdate(w, batch[i]).(list := Pop(w.list));
      RunBatchPopsPrefix(w', batch, i + 1, failing);
      if |w.list| > 0 {
        assert w'.list[Min(Pops(batch, i + 1, failing), |w'.list|)..] == w.list[Min(Pops(batch, i, failing), |w.list|)..];
      }
    }
  }

  /** What a tick writes to the table does not depend on the list, only on the batch. */
  lemma {:induction false} RunBatchRowsIgnoreList(w: World, list: seq<Entry>, batch: seq<Entry>, i: nat, failing: set<nat>)
    requires i <= |batch|
    ensures var (a, b) := (RunBatch(w, batch, i, failing), RunBatch(w.(list := list), batch, i, failing));
            a.rows == b.rows && a.clock == b.clock
    decreases |batch| - i
  {
    if i == |batch| || batch[i].Malformed? {
    } else if Issues(batch[i]) && i in failing {
      RunBatchRowsIgnoreList(w, list, batch, i + 1, failing);
    } else {
      var w' := ApplyUpdate(w, batch[i]).(list := Pop(w.list));
      RunBatchRowsIgnoreList(w', Pop(list), batch, i + 1, failing);
      assert ApplyUpdate(w.(list := list), batch[i]).(list := Pop(list)) == w'.(list := Pop(list));
    }
  }

  /** A tick removes at most BATCH_SIZE entries, all from the head. */
  lemma TickPopsAtMostTen(w: World, failing: set<nat>)
    ensures var n := Pops(Batch(w.list), 0, failing);
            n <= BatchSize && n <= |w.list| && Tick(w, failing).list == w.list[n..]
  {
    RunBatchPopsPrefix(w, Batch(w.list), 0, failing);
  }

  /** Entries beyond the first BATCH_SIZE are not read: they change nothing in the table. */
  lemma TickReadsOnlyTen(rows: map<int, UserRow>, clock: nat, list: seq<Entry>, extra: seq<Entry>, failing: set<nat>)
    requires |list| >= BatchSize
    ensures var (a, b) := (Tick(World(rows, clock, list), failing), Tick(World(rows, clock, list + extra), failing));
            a.rows == b.rows && a.clock == b.clock
  {
    assert Batch(list + extra) == Batch(list);
    RunBatchRowsIgnoreList(World(rows, clock, list), list + extra, Batch(list), 0, failing);
  }

  /** A malformed entry at the head ends every tick at once: nothing is applied or popped, so the list never moves again. */
  lemma MalformedHeadBlocks(w: World, failing: set<nat>)
    requires |w.list| > 0 && w.list[0].Malformed?
    ensures Tick(w, failing) == w
  {
    assert Batch(w.list)[0] == w.list[0];
  }

  /** Entries apply head to tail: of an APPROVE and a later REJECT of one user, the REJECT is what remains, over the approval time. */
  lemma LaterEntryWins(rows: map<int, UserRow>, clock: nat, id: int, admin: Option<int>)
    requires id in rows
    ensures var list := [Item(Some(id), "APPROVE", admin), Item(Some(id), "REJECT", admin)];
            var r := Tick(World(rows, clock, list), {});
            r.rows[id].status == Rejected && r.rows[id].approvedAt == Some(clock) && r.list == []
  {
    var list := [Item(Some(id), "APPROVE", admin), Item(Some(id), "REJECT", admin)];
    assert Batch(list) == list;
    var w0 := World(rows, clock, list);
    var w1 := ApplyUpdate(w0, list[0]).(list := Pop(w0.list));
    var w2 := ApplyUpdate(w1, list[1]).(list := Pop(w1.list));
    assert RunBatch(w0, list, 0, {}) == RunBatch(w1, list, 1, {}) == RunBatch(w2, list, 2, {}) == w2;
  }

  /**
   * The worker and the admin API are two writers with different rules: the
   * worker approves whatever the current status (a REJECTED user included),
   * and its REJECT leaves approved_at as it was, while the API's reject of a
   * PENDING user stamps it.
   */
  lemma WorkerAndApiDisagree(rows: map<int, UserRow>, nextId: nat, clock: nat, id: int, admin: int)
    requires id in rows && rows[id].status == Pending && rows[id].approvedAt.None?
    ensures var worker := Tick(World(rows, clock, [Item(Some(id), "REJECT", Some(admin))]), {});
            worker.rows[id].status == Rejected && worker.rows[id].approvedAt == None
    ensures var api := Decide(Snapshot(rows, nextId, clock), id, admin, Rejected, "reject", "User rejected").after;
            api.rows[id].status == Rejected && api.rows[id].approvedAt == Some(clock)
    ensures var rejected := rows[id := rows[id].(status := Rejected)];
            var worker := Tick(World(rejected, clock, [Item(Some(id), "APPROVE", Some(admin))]), {});
            var api := Decide(Snapshot(rejected, nextId, clock), id, admin, Approved, "approve", "User approved successfully");
            worker.rows[id].status == Approved && api.response.code == 400
  {
    var reject := [Item(Some(id), "REJECT", Some(admin))];
    assert Batch(reject) == reject;
    var w := World(rows, clock, reject);
    assert RunBatch(w, reject, 0, {}) == RunBatch(ApplyUpdate(w, reject[0]).(list := []), reject, 1, {});
    var rejected := rows[id := rows[id].(status := Rejected)];
    var approve := [Item(Some(id), "APPROVE", Some(admin))];
    assert Batch(approve) == approve;
    var v := World(rejected, clock, approve);
    assert RunBatch(v, approve, 0, {}) == RunBatch(ApplyUpdate(v, approve[0]).(list := []), approve, 1, {});
  }

  /** The UPDATE one entry issues, on the users table: the rows and the clock move as `ApplyUpdate` says. */
  method RunUpdate(users: UsersTable, entry: Entry, ghost list: seq<Entry>)
    requires users.Valid()
    modifies users
    ensures users.Valid() && users.nextId == old(users.nextId)
    ensures World(users.rows, users.clock, list) == ApplyUpdate(World(old(users.rows), old(users.clock), list), entry)
  {
    ghost var before := World(users.rows, users.clock, list);
    ApplyUpdateKeepsInvariant(before, entry, users.nextId);
    if entry.Item? && entry.userId.Some? && entry.userId.value in users.rows {
      var id := entry.userId.value;
      if entry.action == "APPROVE" {
        users.rows := users.rows[id := Stamp(users.rows[id], Approved, entry.approvedBy, users.clock)];
        users.clock := users.clock + 1;
      } else if entry.action == "REJECT" {
        users.rows := users.rows[id := users.rows[id].(status := Rejected, approvedBy := entry.approvedBy)];
        users.clock := users.clock + 1;
      }
    }
  }

  /**
   * processApprovalQueue, one tick: the table and the list end as Tick says.
   * The rows keep the table invariant and the SERIAL sequence is untouched.
   */
  method ProcessApprovalQueue(users: UsersTable, queue: RedisList, failing: set<nat>)
    requires users.Valid()
    modifies users, queue
    ensures users.Valid() && users.nextId == old(users.nextId)
    ensures World(users.rows, users.clock, queue.items) == Tick(World(old(users.rows), old(users.clock), old(queue.items)), failing)
  {
    ghost var start := World(users.rows, users.clock, queue.items);
    var items := queue.LRange(BatchSize - 1);
    assert items == Batch(start.list);
    var i := 0;
    while i < |items|
      invariant 0 <= i <= |items|
      invariant users.Valid() && users.nextId == old(users.nextId)
      invariant RunBatch(World(users.rows, users.clock, queue.items), items, i, failing) == Tick(start, failing)
      decreases |items| - i
    {
      var entry := items[i];
      if entry.Malformed? {
        break;
      }
      if Issues(entry) && i in failing {
        // the UPDATE threw: caught, logged, and nothing popped
        i := i + 1;
        continue;
      }
      RunUpdate(users, entry, queue.items);
      queue.LPop();
      i := i + 1;
    }
  }

  // ---------------------------------------------------------------------
  // The pop of the current head, and what was evidently intended.

  /** Two APPROVE entries where the first UPDATE throws and the second succeeds. */
  function FailThenSucceed(a: int, b: int, admin: int): seq<Entry>
  {
    [Item(Some(a), "APPROVE", Some(admin)), Item(Some(b), "APPROVE", Some(admin))]
  }

  /**
   * As written, the success of the second entry pops the first: the failed
   * entry is lost and the applied one stays in the list, to be applied again.
   */
  lemma HeadPopLosesFailedEntry(rows: map<int, UserRow>, clock: nat, a: int, b: int, admin: int)
    requires a != b && a in rows && b in rows
    ensures var r := Tick(World(rows, clock, FailThenSucceed(a, b, admin)), {0});
            && r.list == [FailThenSucceed(a, b, admin)[1]]
            && r.rows[a] == rows[a]
            && r.rows[b].status == Approved
  {
    var list := FailThenSucceed(a, b, admin);
    assert Batch(list) == list;
    var w0 := World(rows, clock, list);
    var w2 := ApplyUpdate(w0, list[1]).(list := Pop(list));
    assert RunBatch(w0, list, 0, {0}) == RunBatch(w0, list, 1, {0}) == RunBatch(w2, list, 2, {0}) == w2;
  }

  /** The list without its element at `k`: removing a processed entry where it stands. */
  function RemoveAt(list: seq<Entry>, k: nat): (r: seq<Entry>)
    ensures k < |list| ==> |r| == |list| - 1 && r[..k] == list[..k] && multiset(r) + multiset{list[k]} == multiset(list)
    ensures k < |list| ==> forall i :: k <= i < |r| ==> r[i] == list[i + 1]
    ensures k >= |list| ==> r == list
  {
    assert k < |list| ==> list == list[..k] + [list[k]] + list[k + 1..];
    if k < |list| then list[..k] + list[k + 1..] else list
  }

  /**
   * The tick as evidently intended ("remove item from queue after successful
   * processing", "re-queue on error"): a successful entry removes itself, found
   * after the `kept` failed entries still ahead of it; a failed one stays.
   */
  function RunBatchIntended(w: World, batch: seq<Entry>, i: nat, kept: nat, failing: set<nat>): World
    requires i <= |batch|
    decreases |batch| - i
  {
    if i == |batch| || batch[i].Malformed? then w
    else if Issues(batch[i]) && i in failing then RunBatchIntended(w, batch, i + 1, kept + 1, failing)
    else RunBatchIntended(ApplyUpdate(w, batch[i]).(list := RemoveAt(w.list, kept)), batch, i + 1, kept, failing)
  }

  function TickIntended(w: World, failing: set<nat>): World
  {
    RunBatchIntended(w, Batch(w.list), 0, 0, failing)
  }

  /** The entries from position `i` on whose UPDATE throws, up to the first malformed entry. */
  function Failed(batch: seq<Entry>, i: nat, failing: set<nat>): seq<Entry>
    requires i <= |batch|
    decreases |batch| - i
  {
    if i == |batch| || batch[i].Malformed? then []
    else if Issues(batch[i]) && i in failing then [batch[i]] + Failed(batch, i + 1, failing)
    else Failed(batch, i + 1, failing)
  }

  /** Where the walk over the batch stops: the first malformed entry at or after `i`, or the end. */
  function Consumed(batch: seq<Entry>, i: nat): (n: nat)
    requires i <= |batch|
    ensures i <= n <= |batch|
    decreases |batch| - i
  {
    if i == |batch| || batch[i].Malformed? then i else Consumed(batch, i + 1)
  }

  lemma {:induction false} IntendedKeepsFailures(w: World, batch: seq<Entry>, i: nat, done: seq<Entry>, rest: seq<Entry>, failing: set<nat>)
    requires i <= |batch| && w.list == done + batch[i..] + rest
    ensures RunBatchIntended(w, batch, i, |done|, failing).list == done + Failed(batch, i, failing) + batch[Consumed(batch, i)..] + rest
    decreases |batch| - i
  {
    if i == |batch| || batch[i].Malformed? {
    } else if Issues(batch[i]) && i in failing {
      assert batch[i..] == [batch[i]] + batch[i + 1..];
      IntendedKeepsFailures(w, batch, i + 1, done + [batch[i]], rest, failing);
    } else {
      assert batch[i..] == [batch[i]] + batch[i + 1..];
      var w' := ApplyUpdate(w, batch[i]).(list := RemoveAt(w.list, |done|));
      assert w'.list == done + batch[i + 1..] + rest;
      IntendedKeepsFailures(w', batch, i + 1, done, rest, failing);
    }
  }

  /**
   * The intended tick leaves exactly the entries whose UPDATE failed, in
   * order, ahead of the entries it did not reach; every entry it removed was
   * applied.
   */
  lemma TickIntendedKeepsExactlyFailures(w: World, failing: set<nat>)
    ensures TickIntended(w, failing).list == Failed(Batch(w.list), 0, failing) + w.list[Consumed(Batch(w.list), 0)..]
  {
    var batch := Batch(w.list);
    var rest := w.list[|batch|..];
    var c := Consumed(batch, 0);
    var failed := Failed(batch, 0, failing);
    BatchSplits(w.list, batch, c);
    IntendedKeepsFailures(w, batch, 0, [], rest, failing);
    Regroup(failed, batch[c..], rest, w.list[c..]);
  }

  /** Sequence regrouping for TickIntendedKeepsExactlyFailures; it states nothing about the worker. */
  lemma Regroup(failed: seq<Entry>, unread: seq<Entry>, rest: seq<Entry>, tail: seq<Entry>)
    requires unread + rest == tail
    ensures [] + failed + unread + rest == failed + tail
  {
    assert [] + failed == failed;
  }

  /**
   * A prefix of the list, cut at `c`, and the rest of the list join up again. Sequence
   * arithmetic for TickIntendedKeepsExactlyFailures; it states nothing about the worker.
   */
  lemma BatchSplits(list: seq<Entry>, batch: seq<Entry>, c: nat)
    requires |batch| <= |list| && batch == list[..|batch|] && c <= |batch|
    ensures batch[c..] + list[|batch|..] == list[c..]
    ensures list == [] + batch[0..] + list[|batch|..]
  {
    assert batch[0..] == batch;
  }

  /** The correction changes only the list: the table is written exactly as before. */
  lemma {:induction false} IntendedWritesSameRows(w: World, v: World, batch: seq<Entry>, i: nat, kept: nat, failing: set<nat>)
    requires i <= |batch| && w.rows == v.rows && w.clock == v.clock
    ensures var (a, b) := (RunBatch(w, batch, i, failing), RunBatchIntended(v, batch, i, kept, failing));
            a.rows == b.rows && a.clock == b.clock
    decreases |batch| - i
  {
    if i == |batch| || batch[i].Malformed? {
    } else if Issues(batch[i]) && i in failing {
      IntendedWritesSameRows(w, v, batch, i + 1, kept + 1, failing);
    } else {
      IntendedWritesSameRows(ApplyUpdate(w, batch[i]).(list := Pop(w.list)), ApplyUpdate(v, batch[i]).(list := RemoveAt(v.list, kept)),
                             batch, i + 1, kept, failing);
    }
  }

  /** On the same list, the intended tick keeps the failed entry and drops the applied one. */
  lemma IntendedKeepsFailedEntry(rows: map<int, UserRow>, clock: nat, a: int, b: int, admin: int)
    requires a != b && a in rows && b in rows
    ensures TickIntended(World(rows, clock, FailThenSucceed(a, b, admin)), {0}).list == [FailThenSucceed(a, b, admin)[0]]
  {
    var w := World(rows, clock, FailThenSucceed(a, b, admin));
    TickIntendedKeepsExactlyFailures(w, {0});
    assert Batch(w.list) == w.list;
    assert Failed(w.list, 2, {0}) == [] && Failed(w.list, 1, {0}) == [];
    assert Consumed(w.list, 0) == 2;
  }
}
