/**
 * The Python side of the test-request protocol: a test request is a row
 * of test_requests, and each submission also writes one row of
 * execution_log in the same transaction.
 */
module TestCoordinator {
  import opened Wrappers
  import opened RequestQueue

  datatype TestPlatform = EditMode | PlayMode | Both

  datatype TestRequestType = AllTests | ClassTests | MethodTests | CategoryTests

  /** The text stored for a platform. */
  function PlatformValue(p: TestPlatform): string {
    match p
    case EditMode => "EditMode"
    case PlayMode => "PlayMode"
    case Both => "Both"
  }

  /** The text stored for a request type. */
  function RequestTypeValue(t: TestRequestType): string {
    match t
    case AllTests => "all"
    case ClassTests => "class"
    case MethodTests => "method"
    case CategoryTests => "category"
  }

  /** What a client writes into a test_requests row besides its priority. */
  datatype TestRequest = TestRequest(requestType: TestRequestType, testFilter: Option<string>, platform: TestPlatform)

  datatype LogRecord = LogRecord(requestId: int, level: string, source: string, message: string)

  /** The execution_log table. */
  class ExecutionLog {
    var records: seq<LogRecord>

    constructor ()
      ensures records == []
    {
      records := [];
    }

    method Append(r: LogRecord)
      modifies this
      ensures records == old(records) + [r]
    {
      records := records + [r];
    }

    /** ROLLBACK of the log rows written in the current transaction. */
    method Restore(saved: seq<LogRecord>)
      modifies this
      ensures records == saved
    {
      records := saved;
    }
  }

  function SubmissionMessage(requestType: TestRequestType, platform: TestPlatform): string {
    "Test request submitted: " + RequestTypeValue(requestType) + " on " + PlatformValue(platform)
  }

  /** Where a database error interrupts the submit transaction, if anywhere. */
  datatype StoreFault = NoFault | RequestInsertFails | LogInsertFails | CommitFails

  /**
   * submit_test_request: one new pending row and one INFO log record for
   * its id, committed together; on a database error both are rolled back
   * and the error is passed on.
   */
  method SubmitTestRequest(
    table: Table<TestRequest>, log: ExecutionLog,
    requestType: TestRequestType, platform: TestPlatform, testFilter: Option<string>,
    priority: int, now: int, fault: StoreFault)
    returns (r: Result<int, string>)
    requires table.Valid()
    modifies table, log
    ensures table.Valid()
    ensures fault == NoFault ==>
      var id := old(table.nextId);
      r == Success(id) && id !in old(table.rows)
      && table.rows == old(table.rows)[id := NewRow(id, TestRequest(requestType, testFilter, platform), priority, now)]
      && table.nextId == id + 1
      && log.records == old(log.records) + [LogRecord(id, "INFO", "Python", SubmissionMessage(requestType, platform))]
    ensures fault != NoFault ==>
      r.Failure? && table.rows == old(table.rows) && table.nextId == old(table.nextId)
      && log.records == old(log.records)
  {
    if fault == RequestInsertFails {
      return Failure("sqlite3.Error");
    }
    var savedRows, savedNext, savedLog := table.rows, table.nextId, log.records;
    var id := table.Insert(TestRequest(requestType, testFilter, platform), priority, now);
    if fault == LogInsertFails {
      table.Restore(savedRows, savedNext);
      return Failure("sqlite3.Error");
    }
    log.Append(LogRecord(id, "INFO", "Python", SubmissionMessage(requestType, platform)));
    if fault == CommitFails {
      table.Restore(savedRows, savedNext);
      log.Restore(savedLog);
      return Failure("sqlite3.Error");
    }
    r := Success(id);
  }

  /** get_request_status: the row with that id, or None; it reads only. */
  function GetRequestStatus(table: Table<TestRequest>, id: int): (r: Option<Row<TestRequest>>)
    reads table
    ensures r.None? <==> id !in table.rows
    ensures r.Some? ==> r.value == table.rows[id] && r.value.id == id
    requires table.Valid()
  {
    table.Get(id)
  }

  const CancellableStatuses: set<string> := {"pending", "running"}

  /**
   * cancel_request: a pending or running row becomes cancelled with a
   * completion time and the message "Cancelled by user"; any other row,
   * a missing id or a database error leaves the table as it was.
   */
  method CancelRequest(table: Table<TestRequest>, id: int, now: int, fault: bool) returns (cancelled: bool)
    requires table.Valid()
    modifies table
    ensures table.Valid() && table.nextId == old(table.nextId)
    ensures cancelled <==> !fault && id in old(table.rows) && old(table.rows)[id].status in CancellableStatuses
    ensures cancelled ==> table.rows == old(table.rows)[id := old(table.rows)[id].(
      status := "cancelled", completedAt := Some(now), errorMessage := Some("Cancelled by user"))]
    ensures !cancelled ==> table.rows == old(table.rows)
  {
    if fault {
      return false;
    }
    cancelled := table.CancelWhere(id, CancellableStatuses, Some(now), Some("Cancelled by user"));
  }

  /** A second cancel of a request that was just cancelled reports false and changes nothing. */
  method CancelTwice(table: Table<TestRequest>, id: int, now: int) returns (first: bool, second: bool)
    requires table.Valid()
    modifies table
    ensures first <==> id in old(table.rows) && old(table.rows)[id].status in CancellableStatuses
    ensures first ==> !second
  {
    first := CancelRequest(table, id, now, false);
    second := CancelRequest(table, id, now, false);
  }

  /** The errors wait_for_completion raises. */
  datatype WaitError = RequestNotFound(id: int) | WaitTimeout(id: int)

  /**
   * wait_for_completion: polls until the row is completed, failed or
   * cancelled and returns it; raises when the row is missing at a poll or
   * when the budget elapses. The client itself writes nothing: the table
   * changes only by what the executor did between polls.
   */
  method WaitForCompletion(
    table: Table<TestRequest>, id: int, timeoutMs: int,
    clock: nat -> int, env: nat -> ExecutorAction)
    returns (r: Result<Row<TestRequest>, WaitError>, ghost polls: nat)
    requires table.Valid()
    requires forall k: nat :: Advances(clock, k)
    modifies table
    ensures table.Valid() && table.nextId == old(table.nextId)
    ensures table.rows == Replay(old(table.rows), env, polls)
    ensures r.Success? ==> id in table.rows && r.value == table.rows[id] && r.value.status in Terminal
    ensures r == Failure(RequestNotFound(id)) ==> id !in table.rows
    ensures r == Failure(WaitTimeout(id)) ==> clock(polls) - clock(0) >= timeoutMs
    ensures r.Failure? ==> r == Failure(RequestNotFound(id)) || r == Failure(WaitTimeout(id))
    ensures forall j: nat :: j < polls - 1 ==> StillWaiting(PollState(old(table.rows), env, j), id)
    ensures r != Failure(WaitTimeout(id)) ==>
      polls > 0 && WaitedThrough(old(table.rows), env, id, clock, timeoutMs, polls - 1)
      && PolledInTime(clock, timeoutMs, polls - 1)
    ensures r == Failure(WaitTimeout(id)) ==> WaitedThrough(old(table.rows), env, id, clock, timeoutMs, polls)
  {
    var outcome;
    outcome, polls := Wait(table, id, timeoutMs, clock, env);
    match outcome
    case Finished(row) => r := Success(row);
    case NotFound => r := Failure(RequestNotFound(id));
    case TimedOut => r := Failure(WaitTimeout(id));
  }

  /** get_pending_requests. */
  method GetPendingRequests(table: Table<TestRequest>) returns (r: seq<Row<TestRequest>>)
    requires table.Valid()
    ensures forall i :: 0 <= i < |r| ==> r[i].id in table.rows && table.rows[r[i].id] == r[i] && r[i].status == "pending"
    ensures forall id :: id in table.rows && table.rows[id].status == "pending" ==> table.rows[id] in r
    ensures forall i, j :: 0 <= i < j < |r| ==> r[i].id != r[j].id
    ensures forall i, j :: 0 <= i < j < |r| ==> PendingLe(PendingKey(r[i]), PendingKey(r[j]))
  {
    r := table.Pending();
  }

  /**
   * The target check of the quick_test command line before it submits:
   * 'all' runs without a filter, and the other request types need a
   * non-empty target.
   */
  function TestFilterFor(requestType: TestRequestType, target: Option<string>): (r: Result<Option<string>, string>)
    ensures r.Failure? <==> requestType != AllTests && (target.None? || target.value == "")
    ensures r.Success? && requestType == AllTests ==> r.value.None?
    ensures r.Success? && requestType != AllTests ==> r.value == target && target.value != ""
  {
    if requestType == AllTests then Success(None)
    else if target.None? || target.value == "" then Failure(RequestTypeValue(requestType) + " requires a target")
    else Success(target)
  }
}
