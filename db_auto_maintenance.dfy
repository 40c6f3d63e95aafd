/**
 * The schema-migration sequencer of db_auto_maintenance.py.
 *
 * The schema_version table is a sequence of rows in the order they were
 * applied (the order `ORDER BY applied_at DESC` reads back), or `None`
 * while the table does not exist. Each numbered migration is an opaque
 * step whose outcome is given by `succeeds(version)`: true when the
 * migration and the recording of its version both go through, false
 * when the migration returns False or anything in its transaction raises.
 */
module DbAutoMaintenance {
  import opened Wrappers
  import opened Seqs

  datatype VersionRow = VersionRow(version: int, description: string)

  type SchemaTable = Option<seq<VersionRow>>

  function Rows(t: SchemaTable): seq<VersionRow> {
    if t.Some? then t.value else []
  }

  function Versions(rows: seq<VersionRow>): set<int> {
    set r | r in rows :: r.version
  }

  /** At most one row per version: what the primary key on version enforces. */
  predicate Unique(rows: seq<VersionRow>) {
    forall i, j :: 0 <= i < j < |rows| ==> rows[i].version != rows[j].version
  }

  /**
   * `get_schema_version`: the version of the most recently applied row, or
   * 0 when the table is missing, empty, or the query fails (`readable` false).
   */
  function LatestVersion(t: SchemaTable, readable: bool): (v: int)
    ensures v == 0 || (readable && v in Versions(Rows(t)))
    ensures !readable || Rows(t) == [] ==> v == 0
  {
    if !readable || t.None? || t.value == [] then 0
    else
      var rows := t.value;
      assert rows[|rows| - 1] in rows;
      rows[|rows| - 1].version
  }

  function OtherVersion(v: int): VersionRow -> bool {
    (r: VersionRow) => r.version != v
  }

  /**
   * `set_schema_version`: create the table if needed, then
   * `INSERT OR REPLACE` keyed on version, so the old row for that version
   * (if any) goes and the new one is the latest.
   */
  function Recorded(t: SchemaTable, version: int, description: string): SchemaTable {
    Some(Filter(Rows(t), OtherVersion(version)) + [VersionRow(version, description)])
  }

  lemma {:induction false} FilterUnique(rows: seq<VersionRow>, p: VersionRow -> bool)
    requires Unique(rows)
    ensures Unique(Filter(rows, p))
  {
    if rows != [] {
      var tail := rows[1..];
      assert Unique(tail) by {
        forall i, j | 0 <= i < j < |tail| ensures tail[i].version != tail[j].version {
          assert tail[i] == rows[i + 1] && tail[j] == rows[j + 1];
        }
      }
      FilterUnique(tail, p);
      var ft := Filter(tail, p);
      if p(rows[0]) {
        var r := [rows[0]] + ft;
        forall j | 0 < j < |r| ensures r[0].version != r[j].version {
          FilterMembers(tail, p, r[j]);
          var k :| 0 <= k < |tail| && tail[k] == r[j];
          assert rows[k + 1] == r[j];
        }
        forall i, j | 0 <= i < j < |r| ensures r[i].version != r[j].version {
          if i > 0 {
            assert r[i] == ft[i - 1] && r[j] == ft[j - 1];
          }
        }
      }
    }
  }

  /**
   * Recording a version replaces any row for it: afterwards the table holds
   * exactly one row for that version, carrying the new description, every
   * row for another version is kept, no other version appears, and the
   * recorded version is the one `get_schema_version` reads back.
   */
  lemma RecordReplaces(t: SchemaTable, version: int, description: string)
    ensures Versions(Rows(Recorded(t, version, description))) == Versions(Rows(t)) + {version}
    ensures forall r :: r in Rows(t) && r.version != version ==> r in Rows(Recorded(t, version, description))
    ensures forall r :: r in Rows(Recorded(t, version, description)) && r.version == version
                        ==> r.description == description
    ensures Unique(Rows(t)) ==> Unique(Rows(Recorded(t, version, description)))
    ensures LatestVersion(Recorded(t, version, description), true) == version
  {
    var p := OtherVersion(version);
    var kept := Filter(Rows(t), p);
    var rows := kept + [VersionRow(version, description)];
    forall r | r in rows ensures r.version == version ==> r.description == description {
      if r in kept {
        FilterMembers(Rows(t), p, r);
      }
    }
    forall r | r in Rows(t) && r.version != version ensures r in rows {
      FilterMembers(Rows(t), p, r);
    }
    forall v | v in Versions(rows) ensures v in Versions(Rows(t)) + {version} {
      var r :| r in rows && r.version == v;
      if r in kept {
        FilterMembers(Rows(t), p, r);
      }
    }
    forall v | v in Versions(Rows(t)) + {version} ensures v in Versions(rows) {
      if v != version {
        var r :| r in Rows(t) && r.version == v;
        FilterMembers(Rows(t), p, r);
        assert r in rows;
      } else {
        assert rows[|rows| - 1].version == v;
      }
    }
    if Unique(Rows(t)) {
      FilterUnique(Rows(t), p);
      forall i | 0 <= i < |kept| ensures kept[i].version != version {
        FilterMembers(Rows(t), p, kept[i]);
      }
      forall i, j | 0 <= i < j < |rows| ensures rows[i].version != rows[j].version {
        assert rows[i] == kept[i];
        if j < |kept| {
          assert rows[j] == kept[j];
        }
      }
    }
  }

  /** Re-recording the same version leaves the table as one recording made it. */
  lemma RecordIdempotent(t: SchemaTable, version: int, description: string)
    ensures Recorded(Recorded(t, version, description), version, description)
            == Recorded(t, version, description)
  {
    var p := OtherVersion(version);
    var kept := Filter(Rows(t), p);
    var row := VersionRow(version, description);
    FilterConcat(kept, [row], p);
    assert Filter([row], p) == [];
    forall i | 0 <= i < |kept| ensures p(kept[i]) {
      FilterMembers(Rows(t), p, kept[i]);
    }
    FilterAll(kept, p);
    assert kept + [] == kept;
  }

  datatype Migration = Migration(version: int, description: string)

  /** The migration list of `run_maintenance`, in the order it is walked. */
  const Migrations: seq<Migration> := [
    Migration(1, "Add new test status values"),
    Migration(2, "Update refresh_requests status"),
    Migration(3, "Clean old data and optimize"),
    Migration(4, "Add performance indexes")
  ]

  /**
   * The state of the migration loop: the schema table, `applied_count`,
   * the versions attempted so far, and whether the loop has broken off.
   */
  datatype Progress = Progress(table: SchemaTable, applied: nat, attempted: seq<int>, stopped: bool)

  function Start(t: SchemaTable): Progress {
    Progress(t, 0, [], false)
  }

  /** One iteration of the migration loop. */
  function Step(p: Progress, m: Migration, current: int, succeeds: int -> bool): Progress {
    if p.stopped || m.version <= current then p
    else if succeeds(m.version) then
      Progress(Recorded(p.table, m.version, m.description), p.applied + 1, p.attempted + [m.version], false)
    else
      Progress(p.table, p.applied, p.attempted + [m.version], true)
  }

  /** The loop's state after walking `ms`. */
  function Walk(t: SchemaTable, ms: seq<Migration>, current: int, succeeds: int -> bool): Progress {
    if ms == [] then Start(t)
    else Step(Walk(t, ms[..|ms| - 1], current, succeeds), ms[|ms| - 1], current, succeeds)
  }

  /** The versions in `ms` above `current`, in list order. */
  function Above(ms: seq<Migration>, current: int): (r: seq<int>)
    ensures forall k :: 0 <= k < |r| ==> r[k] > current
  {
    if ms == [] then []
    else Above(ms[..|ms| - 1], current)
         + (if ms[|ms| - 1].version > current then [ms[|ms| - 1].version] else [])
  }

  lemma WalkSnoc(t: SchemaTable, ms: seq<Migration>, m: Migration, current: int, succeeds: int -> bool)
    ensures Walk(t, ms + [m], current, succeeds) == Step(Walk(t, ms, current, succeeds), m, current, succeeds)
  {
    assert (ms + [m])[..|ms|] == ms;
  }

  lemma AboveSnoc(ms: seq<Migration>, m: Migration, current: int)
    ensures Above(ms + [m], current) == Above(ms, current) + (if m.version > current then [m.version] else [])
  {
    assert (ms + [m])[..|ms|] == ms;
  }

  /**
   * Only versions above the starting one are attempted, in list order: the
   * attempts are a prefix of `Above`, and all of it unless the loop broke off.
   */
  lemma {:induction false} WalkAttempts(t: SchemaTable, ms: seq<Migration>, current: int, succeeds: int -> bool)
    ensures var p := Walk(t, ms, current, succeeds);
            |p.attempted| <= |Above(ms, current)| && p.attempted == Above(ms, current)[..|p.attempted|]
    ensures !Walk(t, ms, current, succeeds).stopped ==> Walk(t, ms, current, succeeds).attempted == Above(ms, current)
  {
    if ms != [] {
      var init := ms[..|ms| - 1];
      var m := ms[|ms| - 1];
      assert ms == init + [m];
      WalkAttempts(t, init, current, succeeds);
      WalkSnoc(t, init, m, current, succeeds);
      AboveSnoc(init, m, current);
      var a := Above(init, current);
      var b := Above(ms, current);
      assert b[..|a|] == a;
    }
  }

  /**
   * The loop stops at the first failure: every attempt but a failing last
   * one succeeded, the loop broke off exactly when the last attempt failed,
   * and `applied_count` counts the successful attempts.
   */
  lemma {:induction false} WalkOutcomes(t: SchemaTable, ms: seq<Migration>, current: int, succeeds: int -> bool)
    ensures var p := Walk(t, ms, current, succeeds);
            p.stopped ==> |p.attempted| > 0 && !succeeds(p.attempted[|p.attempted| - 1])
    ensures var p := Walk(t, ms, current, succeeds);
            p.applied == |p.attempted| - (if p.stopped then 1 else 0)
    ensures var p := Walk(t, ms, current, succeeds);
            forall k :: 0 <= k < p.applied ==> succeeds(p.attempted[k])
  {
    if ms != [] {
      var init := ms[..|ms| - 1];
      var m := ms[|ms| - 1];
      WalkOutcomes(t, init, current, succeeds);
      WalkSnoc(t, init, m, current, succeeds);
      assert ms == init + [m];
    }
  }

  /** A loop that has broken off attempts nothing further. */
  lemma {:induction false} StoppedStays(t: SchemaTable, ms: seq<Migration>, n: nat, current: int, succeeds: int -> bool)
    requires n <= |ms| && Walk(t, ms[..n], current, succeeds).stopped
    ensures Walk(t, ms, current, succeeds) == Walk(t, ms[..n], current, succeeds)
    decreases |ms| - n
  {
    if n < |ms| {
      PrefixSnoc(ms, n);
      WalkSnoc(t, ms[..n], ms[n], current, succeeds);
      StoppedStays(t, ms, n + 1, current, succeeds);
    } else {
      assert ms[..n] == ms;
    }
  }

  /**
   * The versions in the table after the loop are those it started with plus
   * exactly the attempted versions that succeeded.
   */
  lemma {:induction false} WalkVersions(t: SchemaTable, ms: seq<Migration>, current: int, succeeds: int -> bool)
    ensures var p := Walk(t, ms, current, succeeds);
            Versions(Rows(p.table)) == Versions(Rows(t)) + (set v | v in p.attempted && succeeds(v))
  {
    if ms != [] {
      var init := ms[..|ms| - 1];
      var m := ms[|ms| - 1];
      assert ms == init + [m];
      WalkVersions(t, init, current, succeeds);
      WalkSnoc(t, init, m, current, succeeds);
      var p0 := Walk(t, init, current, succeeds);
      if !p0.stopped && m.version > current {
        var p := Walk(t, ms, current, succeeds);
        assert p == Step(p0, m, current, succeeds);
        assert p.attempted == p0.attempted + [m.version];
        SucceededSnoc(p0.attempted, m.version, succeeds);
        if succeeds(m.version) {
          RecordReplaces(p0.table, m.version, m.description);
        }
      }
    }
  }

  lemma SucceededSnoc(a: seq<int>, v: int, succeeds: int -> bool)
    ensures (set x | x in a + [v] && succeeds(x))
            == (set x | x in a && succeeds(x)) + (if succeeds(v) then {v} else {})
  {
  }

  /**
   * The table is untouched when nothing was applied, and otherwise the last
   * applied version is the one `get_schema_version` reads back.
   */
  lemma {:induction false} WalkLatest(t: SchemaTable, ms: seq<Migration>, current: int, succeeds: int -> bool)
    ensures var p := Walk(t, ms, current, succeeds);
            p.applied == 0 ==> p.table == t
    ensures var p := Walk(t, ms, current, succeeds);
            0 < p.applied <= |p.attempted| ==> LatestVersion(p.table, true) == p.attempted[p.applied - 1]
  {
    if ms != [] {
      var init := ms[..|ms| - 1];
      var m := ms[|ms| - 1];
      assert ms == init + [m];
      WalkLatest(t, init, current, succeeds);
      WalkOutcomes(t, init, current, succeeds);
      WalkSnoc(t, init, m, current, succeeds);
      var p0 := Walk(t, init, current, succeeds);
      if !p0.stopped && m.version > current && succeeds(m.version) {
        RecordReplaces(p0.table, m.version, m.description);
        assert (p0.attempted + [m.version])[p0.applied] == m.version;
      }
    }
  }

  /** The loop keeps one row per version. */
  lemma {:induction false} WalkUnique(t: SchemaTable, ms: seq<Migration>, current: int, succeeds: int -> bool)
    requires Unique(Rows(t))
    ensures Unique(Rows(Walk(t, ms, current, succeeds).table))
  {
    if ms != [] {
      var init := ms[..|ms| - 1];
      var m := ms[|ms| - 1];
      assert ms == init + [m];
      WalkUnique(t, init, current, succeeds);
      WalkSnoc(t, init, m, current, succeeds);
      var p0 := Walk(t, init, current, succeeds);
      if !p0.stopped && m.version > current && succeeds(m.version) {
        RecordReplaces(p0.table, m.version, m.description);
      }
    }
  }

  /** The concrete list: the versions above `current`, ascending from the first above it to 4. */
  lemma MigrationsAbove(current: int)
    ensures Above(Migrations, current)
            == if current < 1 then [1, 2, 3, 4] else if current < 2 then [2, 3, 4]
               else if current < 3 then [3, 4] else if current < 4 then [4] else []
  {
    var ms := Migrations;
    assert ms[..1] == [] + [ms[0]];
    assert ms[..2] == ms[..1] + [ms[1]];
    assert ms[..3] == ms[..2] + [ms[2]];
    assert ms == ms[..3] + [ms[3]];
    AboveSnoc([], ms[0], current);
    AboveSnoc(ms[..1], ms[1], current);
    AboveSnoc(ms[..2], ms[2], current);
    AboveSnoc(ms[..3], ms[3], current);
  }

  /** What `run_maintenance` reports: its return value and what it did. */
  datatype Report = Report(success: bool, attempted: seq<int>, applied: nat, vacuumed: bool)

  datatype Outcome = Outcome(report: Report, table: SchemaTable)

  /**
   * `run_maintenance` over a database that may be absent (`present`), whose
   * connection may fail (`connects`) and whose version query may fail
   * (`readable`). VACUUM runs after the loop when something was applied.
   */
  function Maintenance(present: bool, connects: bool, readable: bool, t: SchemaTable,
                       succeeds: int -> bool): Outcome
  {
    if !present then Outcome(Report(true, [], 0, false), t)
    else if !connects then Outcome(Report(false, [], 0, false), t)
    else
      var p := Walk(t, Migrations, LatestVersion(t, readable), succeeds);
      Outcome(Report(true, p.attempted, p.applied, p.applied > 0), p.table)
  }

  /**
   * A missing database succeeds without attempting anything; otherwise the
   * attempts are the versions above the stored one, in ascending order,
   * stopping short of the end only after a failure.
   */
  lemma MaintenanceAttempts(present: bool, connects: bool, readable: bool, t: SchemaTable, succeeds: int -> bool)
    ensures var o := Maintenance(present, connects, readable, t, succeeds);
            !present ==> o.report.success && o.report.attempted == [] && o.table == t
    ensures var o := Maintenance(present, connects, readable, t, succeeds);
            var a := Above(Migrations, LatestVersion(t, readable));
            |o.report.attempted| <= |a| && o.report.attempted == a[..|o.report.attempted|]
    ensures var o := Maintenance(present, connects, readable, t, succeeds);
            forall j, k :: 0 <= j < k < |o.report.attempted| ==> o.report.attempted[j] < o.report.attempted[k]
  {
    var current := LatestVersion(t, readable);
    if present && connects {
      WalkAttempts(t, Migrations, current, succeeds);
    }
    MigrationsAbove(current);
  }

  /**
   * Every attempt before the first failure succeeded and was counted, the
   * loop attempted nothing after a failure, and VACUUM runs exactly when at
   * least one migration applied.
   */
  lemma MaintenanceOutcomes(present: bool, connects: bool, readable: bool, t: SchemaTable, succeeds: int -> bool)
    ensures var o := Maintenance(present, connects, readable, t, succeeds);
            o.report.applied <= |o.report.attempted|
            && forall k :: 0 <= k < |o.report.attempted| ==>
                 (succeeds(o.report.attempted[k]) <==> k < o.report.applied)
    ensures var o := Maintenance(present, connects, readable, t, succeeds);
            o.report.vacuumed <==> o.report.applied > 0
  {
    if present && connects {
      var current := LatestVersion(t, readable);
      WalkOutcomes(t, Migrations, current, succeeds);
      WalkAttempts(t, Migrations, current, succeeds);
      MigrationsAbove(current);
    }
  }

  /**
   * The stored versions grow by exactly the applied ones, the last applied
   * version is the new stored version, and nothing changes when nothing
   * applied.
   */
  lemma MaintenanceTable(present: bool, connects: bool, readable: bool, t: SchemaTable, succeeds: int -> bool)
    ensures var o := Maintenance(present, connects, readable, t, succeeds);
            Versions(Rows(o.table)) == Versions(Rows(t)) + (set v | v in o.report.attempted && succeeds(v))
    ensures var o := Maintenance(present, connects, readable, t, succeeds);
            o.report.applied == 0 ==> o.table == t
    ensures var o := Maintenance(present, connects, readable, t, succeeds);
            0 < o.report.applied <= |o.report.attempted|
            ==> LatestVersion(o.table, true) == o.report.attempted[o.report.applied - 1]
    ensures Unique(Rows(t)) ==> Unique(Rows(Maintenance(present, connects, readable, t, succeeds).table))
  {
    if present && connects {
      var current := LatestVersion(t, readable);
      WalkVersions(t, Migrations, current, succeeds);
      WalkLatest(t, Migrations, current, succeeds);
      if Unique(Rows(t)) {
        WalkUnique(t, Migrations, current, succeeds);
      }
    }
  }

  /** The database file `run_maintenance` opens. */
  class Database {
    var present: bool
    var schema: SchemaTable

    constructor (present: bool, schema: SchemaTable)
      ensures this.present == present && this.schema == schema
    {
      this.present := present;
      this.schema := schema;
    }

    /** `get_schema_version(conn)`. */
    function SchemaVersion(readable: bool): (v: int)
      reads this
      ensures v == 0 || v in Versions(Rows(schema))
      ensures !readable || Rows(schema) == [] ==> v == 0
    {
      LatestVersion(schema, readable)
    }

    /** `set_schema_version(conn, version, description)`. */
    method SetSchemaVersion(version: int, description: string)
      modifies this
      ensures schema == Recorded(old(schema), version, description) && present == old(present)
    {
      schema := Some(Filter(Rows(schema), OtherVersion(version)) + [VersionRow(version, description)]);
    }

    /** `run_maintenance()`: the migration loop with its early `break`. */
    method RunMaintenance(connects: bool, readable: bool, succeeds: int -> bool) returns (r: Report)
      modifies this
      ensures r == Maintenance(old(present), connects, readable, old(schema), succeeds).report
      ensures schema == Maintenance(old(present), connects, readable, old(schema), succeeds).table
      ensures present == old(present)
    {
      if !present {
        return Report(true, [], 0, false);
      }
      if !connects {
        return Report(false, [], 0, false);
      }
      var current := SchemaVersion(readable);
      var applied: nat := 0;
      var attempted: seq<int> := [];
      var i := 0;
      while i < |Migrations|
        invariant 0 <= i <= |Migrations| && present == old(present)
        invariant Walk(old(schema), Migrations[..i], current, succeeds)
                  == Progress(schema, applied, attempted, false)
      {
        var m := Migrations[i];
        PrefixSnoc(Migrations, i);
        WalkSnoc(old(schema), Migrations[..i], m, current, succeeds);
        if m.version > current {
          attempted := attempted + [m.version];
          if succeeds(m.version) {
            SetSchemaVersion(m.version, m.description);
            applied := applied + 1;
          } else {
            StoppedStays(old(schema), Migrations, i + 1, current, succeeds);
            break;
          }
        }
        i := i + 1;
      }
      assert i == |Migrations| ==> Migrations[..i] == Migrations;
      r := Report(true, attempted, applied, applied > 0);
    }
  }
}
