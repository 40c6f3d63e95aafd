/** The Python side of menu-item execution requests (menu_item_requests). */
module QuickMenu {
  import opened Wrappers
  import opened RequestQueue

  datatype MenuRequest = MenuRequest(menuPath: string)

  /** submit_menu_request: one new pending row; returns its id. */
  method SubmitMenuRequest(table: Table<MenuRequest>, menuPath: string, priority: int, now: int)
    returns (id: int)
    requires table.Valid()
    modifies table
    ensures table.Valid()
    ensures id == old(table.nextId) && id !in old(table.rows)
    ensures table.rows == old(table.rows)[id := NewRow(id, MenuRequest(menuPath), priority, now)]
    ensures table.nextId == id + 1
  {
    id := table.Insert(MenuRequest(menuPath), priority, now);
  }

  /** get_request_status: the row with that id, or None; it reads only. */
  function GetRequestStatus(table: Table<MenuRequest>, id: int): (r: Option<Row<MenuRequest>>)
    requires table.Valid()
    reads table
    ensures r.None? <==> id !in table.rows
    ensures r.Some? ==> r.value == table.rows[id] && r.value.id == id
  {
    table.Get(id)
  }

  /**
   * cancel_request: only a pending row can be cancelled, and only its
   * status changes.
   */
  method CancelRequest(table: Table<MenuRequest>, id: int) returns (cancelled: bool)
    requires table.Valid()
    modifies table
    ensures table.Valid() && table.nextId == old(table.nextId)
    ensures cancelled <==> id in old(table.rows) && old(table.rows)[id].status == "pending"
    ensures cancelled ==> table.rows == old(table.rows)[id := old(table.rows)[id].(status := "cancelled")]
    ensures !cancelled ==> table.rows == old(table.rows)
  {
    cancelled := table.CancelWhere(id, {"pending"}, None, None);
  }

  /**
   * wait_for_completion: the terminal status, or "not_found" when the row
   * is missing at a poll, or "timeout" once the budget is spent. The
   * client writes nothing.
   */
  method WaitForCompletion(
    table: Table<MenuRequest>, id: int, timeoutMs: int,
    clock: nat -> int, env: nat -> ExecutorAction)
    returns (status: string, ghost polls: nat)
    requires table.Valid()
    requires forall k: nat :: Advances(clock, k)
    modifies table
    ensures table.Valid() && table.nextId == old(table.nextId)
    ensures table.rows == Replay(old(table.rows), env, polls)
    ensures status in Terminal || status == "not_found" || status == "timeout"
    ensures status in Terminal ==> id in table.rows && table.rows[id].status == status
    ensures status == "not_found" ==> id !in table.rows
    ensures status == "timeout" ==> clock(polls) - clock(0) >= timeoutMs
    ensures forall j: nat :: j < polls - 1 ==> StillWaiting(PollState(old(table.rows), env, j), id)
    ensures status != "timeout" ==>
      polls > 0 && WaitedThrough(old(table.rows), env, id, clock, timeoutMs, polls - 1)
      && PolledInTime(clock, timeoutMs, polls - 1)
    ensures status == "timeout" ==> WaitedThrough(old(table.rows), env, id, clock, timeoutMs, polls)
  {
    var outcome;
    outcome, polls := Wait(table, id, timeoutMs, clock, env);
    match outcome
    case Finished(row) => status := row.status;
    case NotFound => status := "not_found";
    case TimedOut => status := "timeout";
  }

  /** get_pending_requests. */
  method GetPendingRequests(table: Table<MenuRequest>) returns (r: seq<Row<MenuRequest>>)
    requires table.Valid()
    ensures forall i :: 0 <= i < |r| ==> r[i].id in table.rows && table.rows[r[i].id] == r[i] && r[i].status == "pending"
    ensures forall id :: id in table.rows && table.rows[id].status == "pending" ==> table.rows[id] in r
    ensures forall i, j :: 0 <= i < j < |r| ==> r[i].id != r[j].id
    ensures forall i, j :: 0 <= i < j < |r| ==> PendingLe(PendingKey(r[i]), PendingKey(r[j]))
  {
    r := table.Pending();
  }

  /**
   * The exit status of the `execute` command: 1 when an exception or a
   * keyboard interrupt escaped the command (`raised`), or when it waited
   * for the request and the request failed; 0 otherwise.
   */
  function ExecuteExitCode(raised: bool, waited: bool, finalStatus: string): (code: int)
    ensures code == 0 || code == 1
    ensures code == 1 <==> raised || (waited && finalStatus == "failed")
  {
    if raised then 1
    else if waited && finalStatus == "failed" then 1 else 0
  }
}
