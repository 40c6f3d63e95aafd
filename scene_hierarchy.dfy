/**
 * The Python side of scene-hierarchy export requests
 * (scene_hierarchy_requests), plus the command line's choice of export
 * type and its selection of export files to list or delete.
 */
module SceneHierarchy {
  import opened Wrappers
  import opened RequestQueue
  import Seqs

  /** What a client writes into a scene_hierarchy_requests row; the flags are stored as 1/0. */
  datatype ExportRequest = ExportRequest(
    requestType: string, targetPath: Option<string>, includeInactive: int, includeComponents: int)

  function Flag(b: bool): int {
    if b then 1 else 0
  }

  /**
   * submit_export_request: -1 and no insert when the table does not exist
   * (`tableExists` is the answer of the sqlite_master lookup); otherwise
   * one new pending row, and its id.
   */
  method SubmitExportRequest(
    table: Table<ExportRequest>, tableExists: bool,
    requestType: string, targetPath: Option<string>, includeInactive: bool, includeComponents: bool,
    priority: int, now: int)
    returns (id: int)
    requires table.Valid()
    modifies table
    ensures table.Valid()
    ensures !tableExists ==> id == -1 && table.rows == old(table.rows) && table.nextId == old(table.nextId)
    ensures tableExists ==>
      id == old(table.nextId) && id >= 1 && id !in old(table.rows) && table.nextId == id + 1
      && table.rows == old(table.rows)[id := NewRow(id,
           ExportRequest(requestType, targetPath, Flag(includeInactive), Flag(includeComponents)), priority, now)]
  {
    if !tableExists {
      return -1;
    }
    id := table.Insert(ExportRequest(requestType, targetPath, Flag(includeInactive), Flag(includeComponents)), priority, now);
  }

  /** get_request_status: the row with that id, or None; it reads only. */
  function GetRequestStatus(table: Table<ExportRequest>, id: int): (r: Option<Row<ExportRequest>>)
    requires table.Valid()
    reads table
    ensures r.None? <==> id !in table.rows
    ensures r.Some? ==> r.value == table.rows[id] && r.value.id == id
  {
    table.Get(id)
  }

  /** wait_for_completion: the terminal status, "not_found" or "timeout"; the client writes nothing. */
  method WaitForCompletion(
    table: Table<ExportRequest>, id: int, timeoutMs: int,
    clock: nat -> int, env: nat -> ExecutorAction)
    returns (status: string, ghost polls: nat)
    requires table.Valid()
    requires forall k: nat :: Advances(clock, k)
    modifies table
    ensures table.Valid() && table.nextId == old(table.nextId)
    ensures table.rows == Replay(old(table.rows), env, polls)
    ensures status in Terminal || status == "not_found" || status == "timeout"
    ensures status in Terminal ==> id in table.rows && table.rows[id].status == status
    ensures status == "not_found" ==> id !in table.rows
    ensures status == "timeout" ==> clock(polls) - clock(0) >= timeoutMs
    ensures forall j: nat :: j < polls - 1 ==> StillWaiting(PollState(old(table.rows), env, j), id)
    ensures status != "timeout" ==>
      polls > 0 && WaitedThrough(old(table.rows), env, id, clock, timeoutMs, polls - 1)
      && PolledInTime(clock, timeoutMs, polls - 1)
    ensures status == "timeout" ==> WaitedThrough(old(table.rows), env, id, clock, timeoutMs, polls)
  {
    var outcome;
    outcome, polls := Wait(table, id, timeoutMs, clock, env);
    match outcome
    case Finished(row) => status := row.status;
    case NotFound => status := "not_found";
    case TimedOut => status := "timeout";
  }

  /** The `--type` choice of the export command. */
  datatype ExportType = FullScene | SingleObject

  /**
   * The export command's request: 'full' with no target, or
   * 'single_object' with the given target, which must be non-empty.
   */
  function ExportRequestFor(exportType: ExportType, target: Option<string>): (r: Result<(string, Option<string>), string>)
    ensures r.Failure? <==> exportType == SingleObject && (target.None? || target.value == "")
    ensures r.Success? && exportType == FullScene ==> r.value == ("full", None)
    ensures r.Success? && exportType == SingleObject ==> r.value.0 == "single_object" && r.value.1 == target
  {
    var requestType := if exportType == FullScene then "full" else "single_object";
    var targetPath := if exportType == SingleObject then target else None;
    if exportType == SingleObject && (targetPath.None? || targetPath.value == "") then
      Failure("GameObject path required for object export")
    else Success((requestType, targetPath))
  }

  /** An export file: its name and modification time. */
  datatype ExportFile = ExportFile(name: string, mtime: int)

  function MTime(f: ExportFile): int {
    f.mtime
  }

  predicate NotOlder(a: int, b: int) {
    a >= b
  }

  /** `sort(key=st_mtime, reverse=True)`: most recent first, ties in glob order. */
  function MostRecentFirst(files: seq<ExportFile>): (r: seq<ExportFile>)
    ensures multiset(r) == multiset(files) && |r| == |files|
    ensures forall i, j :: 0 <= i < j < |r| ==> r[i].mtime >= r[j].mtime
  {
    assert Seqs.TotalOrder(NotOlder);
    Seqs.SortPermutes(files, MTime, NotOlder);
    Seqs.SortSorted(files, MTime, NotOlder);
    var r := Seqs.SortByKey(files, MTime, NotOlder);
    assert |multiset(r)| == |multiset(files)|;
    r
  }

  /**
   * list_exports: the `limit` most recent files (`json_files[:limit]`);
   * no files when the export directory does not exist. A limit at least
   * the number of files gives them all; a negative limit drops that many
   * of the oldest, as a Python slice does.
   */
  function ListExports(dir: Option<seq<ExportFile>>, limit: int): (r: seq<ExportFile>)
    ensures dir.None? ==> r == []
    ensures dir.Some? ==> |r| <= |dir.value| && r == MostRecentFirst(dir.value)[..|r|]
    ensures limit >= 0 ==> |r| <= limit
    ensures dir.Some? && 0 <= limit <= |dir.value| ==> |r| == limit
    ensures dir.Some? && limit >= |dir.value| ==> r == MostRecentFirst(dir.value)
    ensures dir.Some? && limit < 0 ==> |r| == if -limit <= |dir.value| then |dir.value| + limit else 0
  {
    if dir.None? then [] else Seqs.PyTake(MostRecentFirst(dir.value), limit)
  }

  /** get_latest_export: the most recent file, if there is one. */
  function LatestExport(dir: Option<seq<ExportFile>>): (r: Option<ExportFile>)
    ensures r.None? <==> dir.None? || dir.value == []
    ensures r.Some? ==> r.value in dir.value && forall f :: f in dir.value ==> f.mtime <= r.value.mtime
  {
    if dir.None? || dir.value == [] then None
    else
      var sorted := MostRecentFirst(dir.value);
      assert sorted[0] in multiset(dir.value);
      assert forall f :: f in dir.value ==> f in multiset(sorted) ==> f.mtime <= sorted[0].mtime;
      Some(sorted[0])
  }

  /**
   * The files the clean command deletes: when there are more than `keep`
   * files and the deletion is confirmed, all but the `keep` most recent
   * (`json_files[keep:]`); otherwise none. A negative `keep` is a Python
   * negative slice start: the `-keep` oldest files go (all of them when
   * there are fewer).
   */
  function CleanSelection(dir: Option<seq<ExportFile>>, keep: int, confirm: bool): (r: seq<ExportFile>)
    ensures dir.None? || !confirm ==> r == []
    ensures dir.Some? && confirm && 0 <= keep < |dir.value| ==>
      MostRecentFirst(dir.value) == MostRecentFirst(dir.value)[..keep] + r
    ensures dir.Some? && keep >= |dir.value| ==> r == []
    ensures dir.Some? && confirm && keep < 0 ==>
      && |r| == (if -keep <= |dir.value| then -keep else |dir.value|)
      && MostRecentFirst(dir.value) == MostRecentFirst(dir.value)[..|dir.value| - |r|] + r
  {
    if dir.None? then []
    else
      var sorted := MostRecentFirst(dir.value);
      if |sorted| > keep && confirm then Seqs.PyDrop(sorted, keep) else []
  }

  /** Nothing deleted is newer than anything kept. */
  lemma CleanKeepsMostRecent(files: seq<ExportFile>, keep: nat)
    requires keep < |files|
    ensures var sorted := MostRecentFirst(files);
      forall kept, gone :: kept in sorted[..keep] && gone in CleanSelection(Some(files), keep, true) ==> gone.mtime <= kept.mtime
  {
    var sorted := MostRecentFirst(files);
    var deleted := CleanSelection(Some(files), keep, true);
    assert sorted == sorted[..keep] + deleted;
    forall kept, gone | kept in sorted[..keep] && gone in deleted ensures gone.mtime <= kept.mtime {
      var i :| 0 <= i < keep && sorted[i] == kept;
      var j :| 0 <= j < |deleted| && deleted[j] == gone;
      assert sorted[keep + j] == gone;
    }
  }
}
