/**
 * The request tables shared by the coordinators (test_requests,
 * menu_execution_requests, scene_hierarchy_requests,
 * asset_refresh_requests), seen from the Python client side.
 *
 * A table is a map from row id to row. Ids come from an AUTOINCREMENT
 * counter: they start at 1, are never reused, and a rolled-back insert
 * does not consume one. The Unity-side executor is not modelled as code;
 * between two client polls it may perform an `ExecutorAction`, which
 * rewrites the fields the executor owns and may delete rows, but never
 * adds rows and never changes what a client wrote (payload, priority,
 * creation time).
 */
module RequestQueue {
  import opened Wrappers
  import Seqs

  /** The statuses at which the client-side wait loops stop polling. */
  const Terminal: set<string> := {"completed", "failed", "cancelled"}

  datatype Row<P> = Row(
    id: int,
    payload: P,
    priority: int,
    createdAt: int,
    status: string,
    startedAt: Option<int>,
    completedAt: Option<int>,
    result: Option<string>,
    errorMessage: Option<string>)

  /** The row an INSERT creates: status 'pending', executor fields empty. */
  function NewRow<P>(id: int, payload: P, priority: int, now: int): Row<P> {
    Row(id, payload, priority, now, "pending", None, None, None, None)
  }

  /** The fields a client writes when it submits a request. */
  ghost predicate SameSubmission<P>(a: Row<P>, b: Row<P>) {
    a.id == b.id && a.payload == b.payload && a.priority == b.priority && a.createdAt == b.createdAt
  }

  /** New values the executor writes into one row. */
  datatype ExecutorUpdate = ExecutorUpdate(
    status: string,
    startedAt: Option<int>,
    completedAt: Option<int>,
    result: Option<string>,
    errorMessage: Option<string>)

  /** What the executor does to a table between two client polls. */
  datatype ExecutorAction = ExecutorAction(updates: map<int, ExecutorUpdate>, deletions: set<int>)

  function ApplyUpdate<P>(r: Row<P>, u: ExecutorUpdate): Row<P> {
    r.(status := u.status, startedAt := u.startedAt, completedAt := u.completedAt,
       result := u.result, errorMessage := u.errorMessage)
  }

  function Apply<P>(rows: map<int, Row<P>>, a: ExecutorAction): (r: map<int, Row<P>>)
    ensures r.Keys == rows.Keys - a.deletions
    ensures forall id :: id in r ==> SameSubmission(r[id], rows[id])
  {
    map id | id in rows && id !in a.deletions ::
      if id in a.updates then ApplyUpdate(rows[id], a.updates[id]) else rows[id]
  }

  /** The table after the executor actions `env(0)`, ..., `env(n - 1)`. */
  function Replay<P>(rows: map<int, Row<P>>, env: nat -> ExecutorAction, n: nat): map<int, Row<P>> {
    if n == 0 then rows else Apply(Replay(rows, env, n - 1), env(n - 1))
  }

  /** The table a client sees at its poll number `j` (counting from 0). */
  function PollState<P>(rows: map<int, Row<P>>, env: nat -> ExecutorAction, j: nat): map<int, Row<P>> {
    Replay(rows, env, j + 1)
  }

  /** Executor actions never create rows and never alter a client's submission. */
  lemma {:induction false} ReplayKeepsSubmissions<P>(rows: map<int, Row<P>>, env: nat -> ExecutorAction, n: nat)
    ensures Replay(rows, env, n).Keys <= rows.Keys
    ensures forall id :: id in Replay(rows, env, n) ==> SameSubmission(Replay(rows, env, n)[id], rows[id])
  {
    if n > 0 {
      ReplayKeepsSubmissions(rows, env, n - 1);
    }
  }

  ghost predicate WellFormed<P>(rows: map<int, Row<P>>, nextId: int) {
    1 <= nextId && forall id :: id in rows ==> 1 <= id < nextId && rows[id].id == id
  }

  lemma ApplyWellFormed<P>(rows: map<int, Row<P>>, nextId: int, a: ExecutorAction)
    requires WellFormed(rows, nextId)
    ensures WellFormed(Apply(rows, a), nextId)
  {
  }

  lemma {:induction false} ReplayWellFormed<P>(rows: map<int, Row<P>>, nextId: int, env: nat -> ExecutorAction, n: nat)
    requires WellFormed(rows, nextId)
    ensures WellFormed(Replay(rows, env, n), nextId)
  {
    if n > 0 {
      ReplayWellFormed(rows, nextId, env, n - 1);
      ApplyWellFormed(Replay(rows, env, n - 1), nextId, env(n - 1));
    }
  }

  /** `ORDER BY priority DESC, created_at ASC` as an order on (priority, created_at). */
  function PendingKey<P>(r: Row<P>): (int, int) {
    (r.priority, r.createdAt)
  }

  predicate PendingLe(a: (int, int), b: (int, int)) {
    a.0 > b.0 || (a.0 == b.0 && a.1 <= b.1)
  }

  lemma PendingLeTotalOrder()
    ensures Seqs.TotalOrder(PendingLe)
  {
  }

  /** Whether a request is still being waited for at a poll. */
  predicate StillWaiting<P>(rows: map<int, Row<P>>, id: int) {
    id in rows && rows[id].status !in Terminal
  }

  /** The clock reading after sleep number `k` is later than the one before it. */
  predicate Advances(clock: nat -> int, k: nat) {
    clock(k) < clock(k + 1)
  }

  /** Poll `j` began before the time budget ran out. */
  predicate PolledInTime(clock: nat -> int, timeoutMs: int, j: nat) {
    clock(j) - clock(0) < timeoutMs
  }

  /** The result of a client wait loop. */
  datatype WaitOutcome<P> = Finished(row: Row<P>) | NotFound | TimedOut

  class Table<P> {
    var rows: map<int, Row<P>>
    var nextId: int

    ghost predicate Valid()
      reads this
    {
      WellFormed(rows, nextId)
    }

    constructor ()
      ensures Valid() && rows == map[] && nextId == 1
    {
      rows := map[];
      nextId := 1;
    }

    /** INSERT of a new pending request; the id is the AUTOINCREMENT `lastrowid`. */
    method Insert(payload: P, priority: int, now: int) returns (id: int)
      requires Valid()
      modifies this
      ensures Valid()
      ensures id == old(nextId) && id !in old(rows)
      ensures rows == old(rows)[id := NewRow(id, payload, priority, now)]
      ensures nextId == old(nextId) + 1
    {
      id := nextId;
      rows := rows[id := NewRow(id, payload, priority, now)];
      nextId := nextId + 1;
    }

    /** ROLLBACK to the table as it was when the transaction began. */
    method Restore(savedRows: map<int, Row<P>>, savedNextId: int)
      requires WellFormed(savedRows, savedNextId)
      modifies this
      ensures Valid() && rows == savedRows && nextId == savedNextId
    {
      rows := savedRows;
      nextId := savedNextId;
    }

    /** `SELECT ... WHERE id = ?`: the row, or None. */
    function Get(id: int): (r: Option<Row<P>>)
      reads this
      ensures r.Some? <==> id in rows
      ensures r.Some? ==> r.value == rows[id]
    {
      if id in rows then Some(rows[id]) else None
    }

    /**
     * `UPDATE ... SET status = 'cancelled' [, completed_at = ...] [, error_message = ...]
     *  WHERE id = ? AND status IN from`, answering whether a row changed.
     */
    method CancelWhere(id: int, from: set<string>, completedAt: Option<int>, message: Option<string>)
      returns (changed: bool)
      requires Valid()
      modifies this
      ensures Valid() && nextId == old(nextId)
      ensures changed <==> id in old(rows) && old(rows)[id].status in from
      ensures changed ==> rows == old(rows)[id := old(rows)[id].(
        status := "cancelled",
        completedAt := if completedAt.Some? then completedAt else old(rows)[id].completedAt,
        errorMessage := if message.Some? then message else old(rows)[id].errorMessage)]
      ensures !changed ==> rows == old(rows)
    {
      changed := id in rows && rows[id].status in from;
      if changed {
        var r := rows[id];
        rows := rows[id := r.(
          status := "cancelled",
          completedAt := if completedAt.Some? then completedAt else r.completedAt,
          errorMessage := if message.Some? then message else r.errorMessage)];
      }
    }

    /** The executor acting on the table while a client sleeps. */
    method ExecutorStep(a: ExecutorAction)
      requires Valid()
      modifies this
      ensures Valid()
      ensures rows == Apply(old(rows), a) && nextId == old(nextId)
    {
      ApplyWellFormed(rows, nextId, a);
      rows := Apply(rows, a);
    }

    /**
     * `SELECT * ... WHERE status = 'pending' ORDER BY priority DESC, created_at ASC`:
     * exactly the pending rows, each once, highest priority first and oldest
     * first within a priority. Rows equal in both keys may come in any order.
     */
    method Pending() returns (r: seq<Row<P>>)
      requires Valid()
      ensures forall i :: 0 <= i < |r| ==> r[i].id in rows && rows[r[i].id] == r[i] && r[i].status == "pending"
      ensures forall id :: id in rows && rows[id].status == "pending" ==> rows[id] in r
      ensures forall i, j :: 0 <= i < j < |r| ==> r[i].id != r[j].id
      ensures forall i, j :: 0 <= i < j < |r| ==> PendingLe(PendingKey(r[i]), PendingKey(r[j]))
    {
      var found := CollectPending();
      r := Seqs.SortByKey(found, PendingKey, PendingLe);
      PendingLeTotalOrder();
      Seqs.SortSorted(found, PendingKey, PendingLe);
      SortedPendingRows(rows, found, r);
    }

    /** The pending rows in id order: the WHERE clause before the ORDER BY. */
    method CollectPending() returns (found: seq<Row<P>>)
      requires Valid()
      ensures forall i :: 0 <= i < |found| ==> found[i].id in rows && rows[found[i].id] == found[i]
      ensures forall i :: 0 <= i < |found| ==> found[i].status == "pending"
      ensures forall i, j :: 0 <= i < j < |found| ==> found[i].id < found[j].id
      ensures forall k :: k in rows && rows[k].status == "pending" ==> rows[k] in found
    {
      found := [];
      var id := 1;
      while id < nextId
        invariant 1 <= id <= nextId
        invariant forall i :: 0 <= i < |found| ==> found[i].id in rows && rows[found[i].id] == found[i]
        invariant forall i :: 0 <= i < |found| ==> found[i].status == "pending" && found[i].id < id
        invariant forall i, j :: 0 <= i < j < |found| ==> found[i].id < found[j].id
        invariant forall k :: 1 <= k < id && k in rows && rows[k].status == "pending" ==> rows[k] in found
      {
        if id in rows && rows[id].status == "pending" {
          found := found + [rows[id]];
        }
        id := id + 1;
      }
    }
  }

  /** Sorting the pending rows keeps them exactly the pending rows, each once. */
  lemma SortedPendingRows<P>(rows: map<int, Row<P>>, found: seq<Row<P>>, r: seq<Row<P>>)
    requires r == Seqs.SortByKey(found, PendingKey, PendingLe)
    requires forall i :: 0 <= i < |found| ==> found[i].id in rows && rows[found[i].id] == found[i]
    requires forall i :: 0 <= i < |found| ==> found[i].status == "pending"
    requires forall i, j :: 0 <= i < j < |found| ==> found[i].id < found[j].id
    requires forall k :: k in rows && rows[k].status == "pending" ==> rows[k] in found
    ensures forall i :: 0 <= i < |r| ==> r[i].id in rows && rows[r[i].id] == r[i] && r[i].status == "pending"
    ensures forall id :: id in rows && rows[id].status == "pending" ==> rows[id] in r
    ensures forall i, j :: 0 <= i < j < |r| ==> r[i].id != r[j].id
  {
    Seqs.SortPermutes(found, PendingKey, PendingLe);
    forall i | 0 <= i < |r| ensures r[i] in found {
      assert r[i] in multiset(r);
    }
    forall k | k in rows && rows[k].status == "pending" ensures rows[k] in r {
      assert rows[k] in multiset(found);
    }
    forall i, j | 0 <= i < j < |r| ensures r[i].id != r[j].id {
      if r[i].id == r[j].id {
        assert r[i] == r[j];
        DuplicateCount(r, i, j);
        DistinctCount(found, r[i]);
      }
    }
  }

  /** Two equal elements at different places occur at least twice. */
  lemma DuplicateCount<T>(s: seq<T>, i: nat, j: nat)
    requires i < j < |s| && s[i] == s[j]
    ensures multiset(s)[s[i]] >= 2
  {
    assert s == s[..i] + [s[i]] + s[i + 1..j] + [s[j]] + s[j + 1..];
  }

  /** A row occurs at most once among rows with strictly increasing ids. */
  lemma {:induction false} DistinctCount<P>(s: seq<Row<P>>, x: Row<P>)
    requires forall i, j :: 0 <= i < j < |s| ==> s[i].id < s[j].id
    ensures multiset(s)[x] <= 1
  {
    if s != [] {
      DistinctCount(s[1..], x);
      assert s == [s[0]] + s[1..];
      if s[0] == x {
        assert x !in s[1..] by {
          forall k | 0 <= k < |s[1..]| ensures s[1..][k] != x {
            assert s[1..][k] == s[k + 1];
          }
        }
      }
    }
  }

  /** Polls `0`, ..., `k - 1` all began in time and found the request still waiting. */
  ghost predicate WaitedThrough<P>(rows: map<int, Row<P>>, env: nat -> ExecutorAction, id: int,
                                   clock: nat -> int, timeoutMs: int, k: nat)
  {
    forall j: nat :: j < k ==> PolledInTime(clock, timeoutMs, j) && StillWaiting(PollState(rows, env, j), id)
  }

  lemma WaitedThroughStep<P>(rows: map<int, Row<P>>, env: nat -> ExecutorAction, id: int,
                             clock: nat -> int, timeoutMs: int, k: nat)
    requires WaitedThrough(rows, env, id, clock, timeoutMs, k)
    requires PolledInTime(clock, timeoutMs, k) && StillWaiting(PollState(rows, env, k), id)
    ensures WaitedThrough(rows, env, id, clock, timeoutMs, k + 1)
  {
  }

  /** With a strictly increasing clock, the k-th reading is at least `k` after the first. */
  lemma {:induction false} ClockGrowth(clock: nat -> int, k: nat)
    requires forall i: nat :: Advances(clock, i)
    ensures clock(k) >= clock(0) + k
  {
    if k > 0 {
      ClockGrowth(clock, k - 1);
      assert Advances(clock, k - 1);
    }
  }

  /** A loop whose polls all began in time made at most `timeoutMs` of them (one per millisecond at most). */
  lemma PollsWithinBudget(clock: nat -> int, timeoutMs: int, polls: nat)
    requires forall i: nat :: Advances(clock, i)
    requires polls > 0 ==> PolledInTime(clock, timeoutMs, polls - 1)
    ensures polls <= if timeoutMs > 0 then timeoutMs else 0
  {
    if polls > 0 {
      ClockGrowth(clock, polls - 1);
    }
  }

  /** The executor's step `k`, then the client's read of row `id`. */
  method Poll<P>(t: Table<P>, id: int, env: nat -> ExecutorAction, k: nat, ghost initial: map<int, Row<P>>)
    returns (status: Option<Row<P>>)
    requires t.Valid() && t.rows == Replay(initial, env, k)
    modifies t
    ensures t.Valid() && t.nextId == old(t.nextId)
    ensures t.rows == PollState(initial, env, k)
    ensures status.Some? <==> id in t.rows
    ensures status.Some? ==> status.value == t.rows[id]
  {
    t.ExecutorStep(env(k));
    status := t.Get(id);
  }

  /**
   * The polling loop every coordinator's `wait...` function runs: while
   * less than `timeoutMs` has elapsed since the first clock reading, read
   * the row; stop when it is missing or its status is terminal; otherwise
   * sleep. `clock(k)` is the k-th clock reading (it strictly increases),
   * and `env(k)` is what the executor does before poll `k`. Every poll but
   * the last found the request still waiting, and a timed-out wait found it
   * waiting at every poll.
   */
  method Wait<P>(t: Table<P>, id: int, timeoutMs: int, clock: nat -> int, env: nat -> ExecutorAction)
    returns (outcome: WaitOutcome<P>, ghost polls: nat)
    requires t.Valid()
    requires forall k: nat :: Advances(clock, k)
    modifies t
    ensures t.Valid() && t.nextId == old(t.nextId)
    ensures t.rows == Replay(old(t.rows), env, polls)
    ensures outcome.Finished? ==>
      polls > 0 && id in t.rows && outcome.row == t.rows[id] && outcome.row.status in Terminal
    ensures outcome.NotFound? ==> polls > 0 && id !in t.rows
    ensures outcome.TimedOut? ==> clock(polls) - clock(0) >= timeoutMs
    ensures !outcome.TimedOut? ==>
      WaitedThrough(old(t.rows), env, id, clock, timeoutMs, polls - 1) && PolledInTime(clock, timeoutMs, polls - 1)
    ensures outcome.TimedOut? ==> WaitedThrough(old(t.rows), env, id, clock, timeoutMs, polls)
  {
    var start := clock(0);
    ghost var initial := t.rows;
    var k: nat := 0;
    while clock(k) - start < timeoutMs
      invariant t.Valid() && t.nextId == old(t.nextId)
      invariant t.rows == Replay(initial, env, k)
      invariant WaitedThrough(initial, env, id, clock, timeoutMs, k)
      decreases start + timeoutMs - clock(k)
    {
      assert PolledInTime(clock, timeoutMs, k);
      var status := Poll(t, id, env, k, initial);
      if status.None? {
        return NotFound, k + 1;
      }
      if status.value.status in Terminal {
        return Finished(status.value), k + 1;
      }
      WaitedThroughStep(initial, env, id, clock, timeoutMs, k);
      assert Advances(clock, k);
      k := k + 1;
    }
    assert clock(k) - clock(0) >= timeoutMs;
    return TimedOut, k;
  }

  /** The result of a wait loop whose reads also decode the payload. */
  datatype DecodedWait<P> = Decoded(outcome: WaitOutcome<P>) | Undecodable(row: Row<P>)

  /**
   * The polling loop of a client whose status read also decodes the
   * payload and raises when `decodes` rejects it. Executor actions never
   * change a payload, so the loop raises exactly when it polls at least
   * once, the row is there at the first poll and its submitted payload is
   * rejected; it then raises at that first poll. Otherwise it ends as
   * `Wait` does, with a decoded row when it finishes.
   */
  method WaitDecoded<P>(t: Table<P>, id: int, timeoutMs: int, clock: nat -> int, env: nat -> ExecutorAction,
                        decodes: P -> bool)
    returns (r: DecodedWait<P>, ghost polls: nat)
    requires t.Valid()
    requires forall k: nat :: Advances(clock, k)
    modifies t
    ensures t.Valid() && t.nextId == old(t.nextId)
    ensures t.rows == Replay(old(t.rows), env, polls)
    ensures r.Undecodable? ==> polls == 1 && id in t.rows && r.row == t.rows[id] && !decodes(r.row.payload)
    ensures r.Undecodable? <==>
      timeoutMs > 0 && id in old(t.rows) && id in PollState(old(t.rows), env, 0) && !decodes(old(t.rows)[id].payload)
    ensures r.Decoded? && r.outcome.Finished? ==>
      polls > 0 && id in t.rows && r.outcome.row == t.rows[id] && r.outcome.row.status in Terminal
      && decodes(r.outcome.row.payload)
    ensures r == Decoded(NotFound) ==> polls > 0 && id !in t.rows
    ensures r == Decoded(TimedOut) ==> clock(polls) - clock(0) >= timeoutMs
    ensures r != Decoded(TimedOut) ==>
      WaitedThrough(old(t.rows), env, id, clock, timeoutMs, polls - 1) && PolledInTime(clock, timeoutMs, polls - 1)
    ensures r == Decoded(TimedOut) ==> WaitedThrough(old(t.rows), env, id, clock, timeoutMs, polls)
  {
    var start := clock(0);
    ghost var initial := t.rows;
    var k: nat := 0;
    while clock(k) - start < timeoutMs
      invariant t.Valid() && t.nextId == old(t.nextId)
      invariant t.rows == Replay(initial, env, k)
      invariant WaitedThrough(initial, env, id, clock, timeoutMs, k)
      invariant k > 0 ==> id in initial && decodes(initial[id].payload)
      decreases start + timeoutMs - clock(k)
    {
      assert PolledInTime(clock, timeoutMs, k);
      var status := Poll(t, id, env, k, initial);
      if status.None? {
        return Decoded(NotFound), k + 1;
      }
      ReplayKeepsSubmissions(initial, env, k + 1);
      assert status.value.payload == initial[id].payload;
      if !decodes(status.value.payload) {
        return Undecodable(status.value), k + 1;
      }
      if status.value.status in Terminal {
        return Decoded(Finished(status.value)), k + 1;
      }
      WaitedThroughStep(initial, env, id, clock, timeoutMs, k);
      assert Advances(clock, k);
      k := k + 1;
    }
    assert clock(k) - clock(0) >= timeoutMs;
    return Decoded(TimedOut), k;
  }

  /**
   * A row the executor has marked 'timeout' is not terminal for the
   * client: as long as every poll finds it so, the wait runs until its own
   * budget is spent.
   */
  method WaitOnStoredTimeout<P>(t: Table<P>, id: int, timeoutMs: int, clock: nat -> int, env: nat -> ExecutorAction)
    returns (outcome: WaitOutcome<P>, ghost polls: nat)
    requires t.Valid()
    requires forall k: nat :: Advances(clock, k)
    requires forall j: nat :: id in PollState(t.rows, env, j) && PollState(t.rows, env, j)[id].status == "timeout"
    modifies t
    ensures outcome.TimedOut? && clock(polls) - clock(0) >= timeoutMs
  {
    ghost var initial := t.rows;
    outcome, polls := Wait(t, id, timeoutMs, clock, env);
    ghost var last: nat := if polls > 0 then polls - 1 else 0;
    assert id in PollState(initial, env, last) && PollState(initial, env, last)[id].status == "timeout";
    assert polls > 0 ==> t.rows == PollState(initial, env, last);
  }
}
