/**
 * The Python side of asset-refresh requests (asset_refresh_requests).
 * The optional path list is stored as JSON text and decoded on every read.
 */
module AssetRefresh {
  import opened Wrappers
  import opened RequestQueue

  datatype RefreshType = FullRefresh | SelectiveRefresh

  datatype ImportOptions = DefaultImport | SynchronousImport | ForceUpdateImport

  function RefreshTypeValue(t: RefreshType): string {
    match t
    case FullRefresh => "full"
    case SelectiveRefresh => "selective"
  }

  function ImportOptionsValue(o: ImportOptions): string {
    match o
    case DefaultImport => "default"
    case SynchronousImport => "synchronous"
    case ForceUpdateImport => "force_update"
  }

  /** What a client writes into an asset_refresh_requests row; `paths` is the stored text column. */
  datatype RefreshRequest = RefreshRequest(refreshType: RefreshType, paths: Option<string>, importOptions: ImportOptions)

  // JSON text of a list of strings: ["a", "b"], with '"' and '\' escaped by a backslash.

  function Escape(p: string): string {
    if p == [] then []
    else (if p[0] == '"' || p[0] == '\\' then ['\\', p[0]] else [p[0]]) + Escape(p[1..])
  }

  function Quote(p: string): string {
    "\"" + Escape(p) + "\""
  }

  function Items(ps: seq<string>): string {
    if ps == [] then ""
    else if |ps| == 1 then Quote(ps[0])
    else Quote(ps[0]) + ", " + Items(ps[1..])
  }

  /** `json.dumps(paths)`. */
  function EncodePaths(ps: seq<string>): string {
    "[" + Items(ps) + "]"
  }

  /** Reads the rest of a string literal up to its closing quote; returns the text and what follows. */
  function Unescape(u: string): Option<(string, string)>
    decreases |u|
  {
    if u == [] then None
    else if u[0] == '"' then Some(("", u[1..]))
    else if u[0] == '\\' then
      if |u| >= 2 && (u[1] == '"' || u[1] == '\\') then
        match Unescape(u[2..])
        case None => None
        case Some((text, rest)) => Some(([u[1]] + text, rest))
      else None
    else
      match Unescape(u[1..])
      case None => None
      case Some((text, rest)) => Some(([u[0]] + text, rest))
  }

  function DecodeList(t: string): Option<seq<string>>
    decreases |t|
  {
    if t == [] || t[0] != '"' then None
    else match Unescape(t[1..])
      case None => None
      case Some((p, rest)) =>
        if rest == [] then Some([p])
        else if |rest| >= 2 && rest[..2] == ", " && |rest| < |t| then
          match DecodeList(rest[2..])
          case None => None
          case Some(more) => Some([p] + more)
        else None
  }

  /** `json.loads` of a stored path list; None when the text is not such a list. */
  function DecodePaths(s: string): Option<seq<string>> {
    if |s| < 2 || s[0] != '[' || s[|s| - 1] != ']' then None
    else if |s| == 2 then Some([])
    else DecodeList(s[1..|s| - 1])
  }

  /** The escaped form of a non-empty text, split after its first character. */
  lemma EscapeCons(p: string, rest: string)
    requires p != []
    ensures Escape(p) + "\"" + rest
      == (if p[0] == '"' || p[0] == '\\' then ['\\', p[0]] else [p[0]]) + (Escape(p[1..]) + "\"" + rest)
  {
  }

  lemma {:induction false} UnescapeEscape(p: string, rest: string)
    ensures Unescape(Escape(p) + "\"" + rest) == Some((p, rest))
  {
    if p == [] {
      assert Escape(p) + "\"" + rest == "\"" + rest;
    } else {
      UnescapeEscape(p[1..], rest);
      var v := Escape(p[1..]) + "\"" + rest;
      EscapeCons(p, rest);
      if p[0] == '"' || p[0] == '\\' {
        assert (['\\', p[0]] + v)[2..] == v;
      } else {
        assert ([p[0]] + v)[1..] == v;
      }
      assert [p[0]] + p[1..] == p;
    }
  }

  lemma {:induction false} DecodeItems(ps: seq<string>)
    requires ps != []
    ensures DecodeList(Items(ps)) == Some(ps)
  {
    var t := Items(ps);
    if |ps| == 1 {
      UnescapeEscape(ps[0], "");
      assert t == "\"" + (Escape(ps[0]) + "\"" + "");
      assert t[1..] == Escape(ps[0]) + "\"" + "";
      assert ps == [ps[0]];
    } else {
      var tail := ", " + Items(ps[1..]);
      UnescapeEscape(ps[0], tail);
      assert t == "\"" + (Escape(ps[0]) + "\"" + tail);
      assert t[1..] == Escape(ps[0]) + "\"" + tail;
      assert tail[2..] == Items(ps[1..]);
      DecodeItems(ps[1..]);
      assert [ps[0]] + ps[1..] == ps;
    }
  }

  /** Decoding the text of a path list gives the list back. */
  lemma PathsRoundTrip(ps: seq<string>)
    ensures DecodePaths(EncodePaths(ps)) == Some(ps)
  {
    var s := EncodePaths(ps);
    if ps != [] {
      DecodeItems(ps);
      assert s[1..|s| - 1] == Items(ps);
    }
  }

  /** The stored column: the JSON text of a non-empty list; no list and the empty list are both stored as NULL. */
  function PathsColumn(paths: Option<seq<string>>): Option<string> {
    if paths.None? || paths.value == [] then None else Some(EncodePaths(paths.value))
  }

  /** The `paths` value a read returns: NULL, undecoded empty text, or the decoded list. */
  datatype PathsView = NoPaths | EmptyText | PathList(paths: seq<string>)

  /** A read decodes the `paths` column only when it is neither NULL nor empty text. */
  function ReadPaths(column: Option<string>): Result<PathsView, string> {
    if column.None? then Success(NoPaths)
    else if column.value == "" then Success(EmptyText)
    else match DecodePaths(column.value)
      case None => Failure("JSONDecodeError")
      case Some(ps) => Success(PathList(ps))
  }

  /** A path list reads back as submitted; no list and an empty list read back as NULL. */
  lemma SubmittedPathsReadBack(paths: Option<seq<string>>)
    ensures ReadPaths(PathsColumn(paths))
         == if paths.None? || paths.value == [] then Success(NoPaths) else Success(PathList(paths.value))
  {
    if paths.Some? && paths.value != [] {
      PathsRoundTrip(paths.value);
    }
  }

  /** A row as get_request_status returns it: with `paths` decoded. */
  datatype RefreshView = RefreshView(row: Row<RefreshRequest>, paths: PathsView)

  function View(row: Row<RefreshRequest>): Result<RefreshView, string> {
    match ReadPaths(row.payload.paths)
    case Failure(e) => Failure(e)
    case Success(v) => Success(RefreshView(row, v))
  }

  /**
   * The check of the constructor: it raises unless the
   * asset_refresh_requests table exists.
   */
  function VerifyDatabase(tableExists: bool): (r: Result<(), string>)
    ensures r.Success? <==> tableExists
  {
    if tableExists then Success(()) else Failure("asset_refresh_requests table not found")
  }

  /**
   * submit_refresh_request: one new pending row with the given type,
   * encoded paths, options and priority, created at the client's `now`;
   * on a database error nothing is stored and the error is passed on.
   */
  method SubmitRefreshRequest(
    table: Table<RefreshRequest>, refreshType: RefreshType, paths: Option<seq<string>>,
    importOptions: ImportOptions, priority: int, now: int, fault: bool)
    returns (r: Result<int, string>)
    requires table.Valid()
    modifies table
    ensures table.Valid()
    ensures !fault ==>
      var id := old(table.nextId);
      r == Success(id) && id !in old(table.rows) && table.nextId == id + 1
      && table.rows == old(table.rows)[id := NewRow(id, RefreshRequest(refreshType, PathsColumn(paths), importOptions), priority, now)]
    ensures fault ==> r.Failure? && table.rows == old(table.rows) && table.nextId == old(table.nextId)
  {
    if fault {
      return Failure("sqlite3.Error");
    }
    var id := table.Insert(RefreshRequest(refreshType, PathsColumn(paths), importOptions), priority, now);
    r := Success(id);
  }

  /** get_request_status: None for an unknown id; otherwise the row with its paths decoded. */
  function GetRequestStatus(table: Table<RefreshRequest>, id: int): (r: Result<Option<RefreshView>, string>)
    requires table.Valid()
    reads table
    ensures id !in table.rows ==> r == Success(None)
    ensures id in table.rows ==> match View(table.rows[id])
      case Success(v) => r == Success(Some(v)) && v.row == table.rows[id]
      case Failure(e) => r == Failure(e)
  {
    match table.Get(id)
    case None => Success(None)
    case Some(row) =>
      match View(row)
      case Failure(e) => Failure(e)
      case Success(v) => Success(Some(v))
  }

  /**
   * cancel_request: a pending or running row becomes cancelled with
   * `completed_at` set to the client's `now`; anything else, and a
   * database error, leaves the table unchanged.
   */
  method CancelRequest(table: Table<RefreshRequest>, id: int, now: int, fault: bool) returns (cancelled: bool)
    requires table.Valid()
    modifies table
    ensures table.Valid() && table.nextId == old(table.nextId)
    ensures cancelled <==> !fault && id in old(table.rows) && old(table.rows)[id].status in {"pending", "running"}
    ensures cancelled ==> table.rows == old(table.rows)[id := old(table.rows)[id].(
      status := "cancelled", completedAt := Some(now))]
    ensures !cancelled ==> table.rows == old(table.rows)
  {
    if fault {
      return false;
    }
    cancelled := table.CancelWhere(id, {"pending", "running"}, Some(now), None);
  }

  /** Whether get_request_status decodes a row with this payload. */
  predicate PathsDecode(p: RefreshRequest) {
    ReadPaths(p.paths).Success?
  }

  /**
   * wait_for_completion: the loop of the other clients, except that every
   * poll goes through get_request_status, which decodes the `paths` text.
   * The result is the terminal status, "not_found" or "timeout", or the
   * JSONDecodeError of a poll whose row does not decode. The executor never
   * rewrites `paths`, so the decoding fails exactly when the loop polls at
   * least once, the row is still there at the first poll, and the text the
   * client stored does not decode; and then it fails at that first poll.
   */
  method WaitForCompletion(
    table: Table<RefreshRequest>, id: int, timeoutMs: int,
    clock: nat -> int, env: nat -> ExecutorAction)
    returns (r: Result<string, string>, ghost polls: nat)
    requires table.Valid()
    requires forall k: nat :: Advances(clock, k)
    modifies table
    ensures table.Valid() && table.nextId == old(table.nextId)
    ensures table.rows == Replay(old(table.rows), env, polls)
    ensures r.Success? ==> r.value in Terminal || r.value == "not_found" || r.value == "timeout"
    ensures r == Success("not_found") ==> polls > 0 && id !in table.rows
    ensures r.Success? && r.value in Terminal ==>
      id in table.rows && table.rows[id].status == r.value && View(table.rows[id]).Success?
    ensures r == Success("timeout") ==> clock(polls) - clock(0) >= timeoutMs
    ensures r.Failure? ==> r == Failure("JSONDecodeError") && polls == 1 && id in table.rows && View(table.rows[id]).Failure?
    ensures r.Failure? <==>
      timeoutMs > 0 && id in old(table.rows) && id in PollState(old(table.rows), env, 0)
      && ReadPaths(old(table.rows)[id].payload.paths).Failure?
    ensures forall j: nat :: j < polls - 1 ==> StillWaiting(PollState(old(table.rows), env, j), id)
    ensures r != Success("timeout") ==>
      polls > 0 && WaitedThrough(old(table.rows), env, id, clock, timeoutMs, polls - 1)
      && PolledInTime(clock, timeoutMs, polls - 1)
    ensures r == Success("timeout") ==> WaitedThrough(old(table.rows), env, id, clock, timeoutMs, polls)
  {
    var outcome;
    outcome, polls := WaitDecoded(table, id, timeoutMs, clock, env, PathsDecode);
    match outcome
    case Undecodable(row) => r := Failure("JSONDecodeError");
    case Decoded(Finished(row)) => r := Success(row.status);
    case Decoded(NotFound) => r := Success("not_found");
    case Decoded(TimedOut) => r := Success("timeout");
  }

  /**
   * get_pending_requests: the pending rows in queue order, each with its
   * paths decoded; the first undecodable row makes the whole call fail.
   */
  method GetPendingRequests(table: Table<RefreshRequest>) returns (r: Result<seq<RefreshView>, string>)
    requires table.Valid()
    ensures r.Success? ==>
      var vs := r.value;
      (forall i :: 0 <= i < |vs| ==> View(vs[i].row) == Success(vs[i]))
      && (forall i :: 0 <= i < |vs| ==> vs[i].row.id in table.rows && table.rows[vs[i].row.id] == vs[i].row && vs[i].row.status == "pending")
      && (forall id :: id in table.rows && table.rows[id].status == "pending" ==> exists i :: 0 <= i < |vs| && vs[i].row == table.rows[id])
      && (forall i, j :: 0 <= i < j < |vs| ==> vs[i].row.id != vs[j].row.id)
      && (forall i, j :: 0 <= i < j < |vs| ==> PendingLe(PendingKey(vs[i].row), PendingKey(vs[j].row)))
    ensures r.Failure? ==> exists id :: id in table.rows && table.rows[id].status == "pending" && View(table.rows[id]).Failure?
  {
    var rows := table.Pending();
    var views: seq<RefreshView> := [];
    var i := 0;
    while i < |rows|
      invariant 0 <= i <= |rows|
      invariant |views| == i
      invariant forall k :: 0 <= k < i ==> views[k].row == rows[k] && View(rows[k]) == Success(views[k])
    {
      match View(rows[i])
      case Failure(e) =>
        return Failure(e);
      case Success(v) =>
        views := views + [v];
      i := i + 1;
    }
    r := Success(views);
    forall id | id in table.rows && table.rows[id].status == "pending"
      ensures exists k :: 0 <= k < |views| && views[k].row == table.rows[id]
    {
      var k :| 0 <= k < |rows| && rows[k] == table.rows[id];
      assert views[k].row == table.rows[id];
    }
  }

  /**
   * The `paths` action of the quick_refresh command line: a selective
   * refresh needs at least one path, and the paths given are the ones
   * submitted.
   */
  function SelectivePathsFor(target: seq<string>): (r: Result<seq<string>, string>)
    ensures r.Failure? <==> target == []
    ensures r.Success? ==> r.value == target && PathsColumn(Some(r.value)).Some?
  {
    if target == [] then Failure("At least one path required for selective refresh") else Success(target)
  }
}
