/**
 The unique-constraint migration (_migrate_unique_constraints): for every allowlisted table
 that lacks enforcement, deduplicate and add the constraint in one transaction; back up a
 file-backed SQLite database first; and refuse to succeed while any table is unenforced.

 Every inspection, every statement and the backup may fail; the environment says which do.
 */
module UniqueMigration {
  import opened Options
  import opened Dedup

  datatype Dialect = Sqlite | Postgres | Mysql | Other

  /** enforced: a unique constraint or index on the key exists; columns: its quality columns. */
  datatype Table = Table(rows: seq<Row>, enforced: bool, columns: Quality)

  /** Where the transaction of a table raises: in the deduplication, at its statement number k, or at the constraint. */
  datatype Fault = NoFault | DedupRaises(k: nat) | ConstraintRaises

  datatype TableEnv = TableEnv(
    inspected: bool,       // _pending_unique_constraints could inspect the table
    recheckFails: bool,    // the recheck before migrating raised
    columnsFail: bool,     // get_columns raised, so no quality columns are used
    nameFails: bool,       // no index name could be allocated
    fault: Fault,
    finalFails: bool)      // _remaining_unenforced_tables could not inspect the table

  datatype BackupEnv = BackupEnv(
    fileBacked: bool,
    succeeds: bool,        // the backup function returned true
    stamped: bool,         // a timestamped backup is there to pin
    copyFails: bool)

  const ALLOWLIST: seq<string> := [
    "issues", "annuals", "storyarcs", "readlist", "failed", "upcoming",
    "nzblog", "importresults", "jobhistory", "snatched", "oneoffhistory", "weekly"]

  const LIBRARY_QUALITY_DEDUP_TABLES: set<string> := {"issues", "annuals", "readlist", "storyarcs"}

  predicate IsPending(tables: map<string, Table>, name: string, envs: string -> TableEnv) {
    name in ALLOWLIST && name in tables && envs(name).inspected && !tables[name].enforced
  }

  /** The quality columns _dedup_delete_sql orders by. */
  function UsedQuality(name: string, columns: Quality, columnsFail: bool): Quality {
    if name in LIBRARY_QUALITY_DEDUP_TABLES && !columnsFail then columns else Quality(false, false)
  }

  /** The engine's own check when the index or constraint is created. */
  predicate Accepts(dialect: Dialect, rows: seq<Row>) {
    if dialect.Sqlite? then ValidKeysUnique(rows) else KeysUnique(rows)
  }

  /** The rows one deduplication leaves; on MySQL the survivor is the engine's choice. */
  ghost predicate Deduplicated(dialect: Dialect, name: string, before: Table, after: seq<Row>, env: TableEnv) {
    && OnePerKey(before.rows, after)
    && (!dialect.Mysql? ==> after == DeleteDuplicates(before.rows, UsedQuality(name, before.columns, env.columnsFail)))
  }

  /** Both halves of a table's transaction happened. */
  ghost predicate Installed(dialect: Dialect, name: string, before: Table, after: Table, env: TableEnv) {
    !before.enforced && after.enforced && after.columns == before.columns
      && Deduplicated(dialect, name, before, after.rows, env)
  }

  /** Rows were deleted but no constraint was added: a caller's open transaction, or MySQL's implicit commit. */
  ghost predicate HalfDone(dialect: Dialect, name: string, before: Table, after: Table, env: TableEnv) {
    !before.enforced && !after.enforced && after.columns == before.columns
      && Deduplicated(dialect, name, before, after.rows, env)
  }

  /** MySQL's count-and-delete loop raised in a caller's open transaction, after some of its deletes. */
  ghost predicate PartDone(before: Table, after: Table) {
    !before.enforced && after == before.(rows := after.rows) && SomeDeduplicated(before.rows, after.rows)
  }

  /** What the migration may do to one table. */
  ghost predicate Allowed(dialect: Dialect, connected: bool, name: string, before: Table, after: Table, env: TableEnv) {
    || after == before
    || Installed(dialect, name, before, after, env)
    || ((dialect.Mysql? || (connected && !env.fault.DedupRaises?)) && HalfDone(dialect, name, before, after, env))
    || (connected && dialect.Mysql? && env.fault.DedupRaises? && PartDone(before, after))
  }

  ghost predicate WellFormed(tables: map<string, Table>) {
    forall n :: n in tables ==> DistinctIds(tables[n].rows)
  }

  predicate Supported(dialect: Dialect) {
    !dialect.Other?
  }

  predicate Faultless(env: TableEnv) {
    env.inspected && !env.recheckFails && !env.columnsFail && !env.nameFails && env.fault.NoFault? && !env.finalFails
  }

  predicate AllFaultless(envs: string -> TableEnv) {
    forall n :: n in ALLOWLIST ==> Faultless(envs(n))
  }

  /** With no fault of the environment, whether a pending table can be enforced. */
  predicate CanEnforce(dialect: Dialect, rows: seq<Row>) {
    match dialect
    case Sqlite => true
    case Other => false
    case _ => NoEmptyDuplicates(rows)
  }

  lemma AllowlistDistinct()
    ensures forall i, j :: 0 <= i < j < |ALLOWLIST| ==> ALLOWLIST[i] != ALLOWLIST[j]
  {
  }

  /** What the migration may have done to each table. */
  ghost predicate Progress(before: map<string, Table>, after: map<string, Table>, dialect: Dialect, connected: bool,
                           envs: string -> TableEnv)
  {
    && after.Keys == before.Keys
    && forall n :: n in after && after[n] != before[n] ==>
         IsPending(before, n, envs) && Allowed(dialect, connected, n, before[n], after[n], envs(n))
  }

  lemma ProgressStep(before: map<string, Table>, mid: map<string, Table>, after: map<string, Table>, name: string,
                     dialect: Dialect, connected: bool, envs: string -> TableEnv)
    requires Progress(before, mid, dialect, connected, envs) && IsPending(before, name, envs)
    requires name in mid && mid[name] == before[name]
    requires name in after && after == mid[name := after[name]]
    requires Allowed(dialect, connected, name, before[name], after[name], envs(name))
    ensures Progress(before, after, dialect, connected, envs)
  {
    forall n | n in after && after[n] != before[n]
      ensures IsPending(before, n, envs) && Allowed(dialect, connected, n, before[n], after[n], envs(n))
    {
      if n != name {
        assert mid[n] == after[n];
      }
    }
  }

  /** The tables of the library, whose rows have a file and a state of the download. */
  predicate InLibrary(name: string) {
    name == "issues" || name == "annuals" || name == "readlist" || name == "storyarcs"
  }

  /** The columns that decide between rows of one key before the row identity does. */
  predicate LocationCounts(name: string, table: Table, env: TableEnv) {
    InLibrary(name) && !env.columnsFail && table.columns.location
  }

  predicate StatusCounts(name: string, table: Table, env: TableEnv) {
    InLibrary(name) && !env.columnsFail && table.columns.status
  }

  predicate Alike(location: bool, r: Row, s: Row) {
    location ==> OnDisk(r) == OnDisk(s)
  }

  /** r is at least as far as s: finished, snatched, attempted, none of these, a stub. */
  predicate AsFar(r: Row, s: Row) {
    && (Finished(s) ==> Finished(r))
    && (Grabbed(s) ==> Finished(r) || Grabbed(r))
    && (Attempted(s) ==> Finished(r) || Grabbed(r) || Attempted(r))
    && (!Stub(s) ==> !Stub(r))
  }

  lemma KeptIsPreferred(rows: seq<Row>, q: Quality, r: Row, s: Row)
    requires DistinctIds(rows) && r in DeleteDuplicates(rows, q) && s in rows && ValidKey(s.key) && s.key == r.key
    ensures q.location && OnDisk(s) ==> OnDisk(r)
    ensures q.status && Alike(q.location, r, s) ==> AsFar(r, s)
    ensures Alike(q.location, r, s) && (q.status ==> SameClass(r, s)) ==> s.rowid <= r.rowid
  {
    SurvivorPrefers(rows, q, r, s);
  }

  /**
   Which row a migrated table keeps, except on MySQL.  In the library tables a file counts first
   and the state second, each only if the table has the column and the columns could be read;
   everywhere else, and among rows alike in both, the newest row is the one kept.
   */
  lemma MigratedRowIsPreferred(before: map<string, Table>, after: map<string, Table>, dialect: Dialect,
                               connected: bool, envs: string -> TableEnv, name: string, r: Row, s: Row)
    requires WellFormed(before) && Progress(before, after, dialect, connected, envs) && !dialect.Mysql?
    requires name in after && after[name] != before[name]
    requires r in after[name].rows && s in before[name].rows && ValidKey(s.key) && s.key == r.key
    ensures var location := LocationCounts(name, before[name], envs(name));
            var status := StatusCounts(name, before[name], envs(name));
            && (location && OnDisk(s) ==> OnDisk(r))
            && (status && Alike(location, r, s) ==> AsFar(r, s))
            && (Alike(location, r, s) && (status ==> SameClass(r, s)) ==> s.rowid <= r.rowid)
  {
    var q := CountingColumns(name, before[name], envs(name));
    ChangedRows(before[name], after[name], dialect, connected, name, envs(name));
    assert DistinctIds(before[name].rows);
    KeptIsPreferred(before[name].rows, q, r, s);
  }

  lemma CountingColumns(name: string, table: Table, env: TableEnv) returns (q: Quality)
    ensures q == UsedQuality(name, table.columns, env.columnsFail)
    ensures q == Quality(LocationCounts(name, table, env), StatusCounts(name, table, env))
  {
    q := UsedQuality(name, table.columns, env.columnsFail);
    assert InLibrary(name) <==> name in LIBRARY_QUALITY_DEDUP_TABLES;
  }

  lemma ChangedRows(before: Table, after: Table, dialect: Dialect, connected: bool, name: string, env: TableEnv)
    requires Allowed(dialect, connected, name, before, after, env) && after != before && !dialect.Mysql?
    ensures after.rows == DeleteDuplicates(before.rows, UsedQuality(name, before.columns, env.columnsFail))
  {
  }

  /** No key of a migrated table is lost: a row that is gone left another of its key behind. */
  lemma MigratedKeysStay(before: map<string, Table>, after: map<string, Table>, dialect: Dialect, connected: bool,
                         envs: string -> TableEnv, name: string, s: Row)
    requires Progress(before, after, dialect, connected, envs)
    requires name in after && s in before[name].rows && s !in after[name].rows
    ensures ValidKey(s.key) && exists r :: r in after[name].rows && r in before[name].rows && r.key == s.key
  {
    var rows, left := before[name].rows, after[name].rows;
    assert OnePerKey(rows, left) || SomeDeduplicated(rows, left);
    if !ValidKey(s.key) {
      InvalidKept(rows, left, s);
    }
    CountZero(rows, s.key);
    CountZero(left, s.key);
  }

  lemma InvalidKept(before: seq<Row>, after: seq<Row>, s: Row)
    requires Invalid(after) == Invalid(before) && s in before && !ValidKey(s.key)
    ensures s in after
  {
    var i :| 0 <= i < |before| && before[i] == s;
    var k := InvalidMember(before, i);
    var a := InvalidSingle(after, k);
  }

  /** The table is enforced exactly when nothing but its own rows could have prevented it. */
  predicate Exact(before: map<string, Table>, after: map<string, Table>, name: string, dialect: Dialect) {
    name in before && name in after && (after[name].enforced <==> CanEnforce(dialect, before[name].rows))
  }

  lemma ExactStep(before: map<string, Table>, mid: map<string, Table>, after: map<string, Table>,
                  pending: seq<string>, i: nat, dialect: Dialect)
    requires forall j, k :: 0 <= j < k < |pending| ==> pending[j] != pending[k]
    requires i < |pending| && pending[i] in after && after == mid[pending[i] := after[pending[i]]]
    requires forall j :: 0 <= j < i ==> Exact(before, mid, pending[j], dialect)
    requires Exact(before, after, pending[i], dialect)
    ensures forall j :: 0 <= j < i + 1 ==> Exact(before, after, pending[j], dialect)
  {
    forall j | 0 <= j < i + 1 ensures Exact(before, after, pending[j], dialect) {
      if j < i {
        assert pending[j] != pending[i] && after[pending[j]] == mid[pending[j]];
        assert Exact(before, mid, pending[j], dialect);
      }
    }
  }

  class Database {
    var tables: map<string, Table>
    /** comicarr.db.pre-unique-migration.bak exists. */
    var pinned: bool
    /** A backup was taken, or found, before anything was deleted. */
    ghost var backedUp: bool

    constructor (tables: map<string, Table>, pinned: bool)
      ensures this.tables == tables && this.pinned == pinned && !backedUp
    {
      this.tables := tables;
      this.pinned := pinned;
      this.backedUp := false;
    }

    method PendingConstraints(envs: string -> TableEnv) returns (pending: seq<string>)
      ensures forall n :: n in pending <==> IsPending(tables, n, envs)
      ensures forall i, j :: 0 <= i < j < |pending| ==> pending[i] != pending[j]
    {
      pending := [];
      for i := 0 to |ALLOWLIST|
        invariant forall n :: n in pending <==> n in ALLOWLIST[..i] && IsPending(tables, n, envs)
        invariant forall j, k :: 0 <= j < k < |pending| ==> pending[j] != pending[k]
      {
        assert ALLOWLIST[..i + 1] == ALLOWLIST[..i] + [ALLOWLIST[i]];
        var name := ALLOWLIST[i];
        assert name !in ALLOWLIST[..i] by { AllowlistDistinct(); }
        if name in tables && envs(name).inspected && !tables[name].enforced {
          pending := pending + [name];
        }
      }
      assert ALLOWLIST[..|ALLOWLIST|] == ALLOWLIST;
    }

    /** _backup_sqlite_unique_migration; false is the RuntimeError. */
    method Backup(env: BackupEnv) returns (ok: bool)
      modifies this`pinned, this`backedUp
      ensures ok && env.fileBacked ==> backedUp
      ensures old(pinned) ==> pinned
      ensures ok <==> !env.fileBacked || old(pinned) || (env.succeeds && !(env.stamped && env.copyFails))
    {
      if !env.fileBacked {
        return true;
      }
      if pinned {
        backedUp := true;
        return true;
      }
      if !env.succeeds {
        return false;
      }
      if env.stamped {
        if env.copyFails {
          return false;
        }
        pinned := true;
      }
      backedUp := true;
      return true;
    }

    /**
     One table: deduplicate and enforce in one transaction.  false is an exception that ends the
     migration; in engine mode a failed statement only rolls the table back.
     */
    method Install(name: string, dialect: Dialect, connected: bool, env: TableEnv) returns (ok: bool)
      requires Supported(dialect) && name in tables && !tables[name].enforced && DistinctIds(tables[name].rows)
      modifies this`tables
      ensures name in tables && tables == old(tables)[name := tables[name]]
      ensures Allowed(dialect, connected, name, old(tables)[name], tables[name], env)
      ensures Faultless(env) ==> (tables[name].enforced <==> CanEnforce(dialect, old(tables)[name].rows))
      ensures Faultless(env) && !connected ==> ok
      ensures !ok ==> !tables[name].enforced
      ensures Faultless(env) && connected ==> ok == tables[name].enforced
    {
      var table := tables[name];
      if dialect.Sqlite? && env.nameFails {
        return false;
      }
      var rows, deleted := Deduplicate(name, table, dialect, env);
      if !deleted {
        if connected {
          tables := tables[name := table.(rows := rows)];
        }
        return !connected;
      }
      OnePerKeyIsUnique(table.rows, rows);
      FullConstraintFits(table.rows, rows);
      if env.fault.ConstraintRaises? || !Accepts(dialect, rows) {
        // The transaction rolls back, except in the caller's own transaction or after MySQL's implicit commit.
        var keepsDeletes := *;
        if connected || (dialect.Mysql? && keepsDeletes) {
          tables := tables[name := table.(rows := rows)];
        }
        return !connected;
      }
      tables := tables[name := table.(rows := rows, enforced := true)];
      return true;
    }

    /** The deleting half; a single DELETE that raises has deleted nothing. */
    method Deduplicate(name: string, table: Table, dialect: Dialect, env: TableEnv) returns (rows: seq<Row>, ok: bool)
      requires DistinctIds(table.rows)
      ensures ok ==> Deduplicated(dialect, name, table, rows, env)
      ensures !ok ==>
                && env.fault.DedupRaises?
                && (if dialect.Mysql? then SomeDeduplicated(table.rows, rows) else rows == table.rows)
      ensures env.fault.DedupRaises? && !dialect.Mysql? ==> !ok
    {
      if dialect.Mysql? {
        rows, ok := MysqlDedup(table.rows, if env.fault.DedupRaises? then Some(env.fault.k) else None);
        return;
      }
      if env.fault.DedupRaises? {
        return table.rows, false;
      }
      var q := UsedQuality(name, table.columns, env.columnsFail);
      DeleteLeavesOnePerKey(table.rows, q);
      return DeleteDuplicates(table.rows, q), true;
    }

    /**
     The migration; false is the RuntimeError.  Success means that every table found pending is
     now enforced.  In every case each table has both halves of its transaction or neither,
     unless the caller's own transaction or MySQL is in play, and no row of a file-backed SQLite
     database is deleted without a backup.
     */
    method Migrate(dialect: Dialect, connected: bool, backup: BackupEnv, envs: string -> TableEnv) returns (ok: bool)
      requires WellFormed(tables)
      modifies this
      ensures Progress(old(tables), tables, dialect, connected, envs)
      ensures ok ==> forall n :: IsPending(old(tables), n, envs) ==> n in tables && tables[n].enforced
      ensures dialect.Sqlite? && backup.fileBacked && tables != old(tables) ==> backedUp
      ensures AllFaultless(envs) && (backup.succeeds && !backup.copyFails) ==>
                (ok <==> forall n :: IsPending(old(tables), n, envs) ==> CanEnforce(dialect, old(tables)[n].rows))
    {
      backedUp := false;
      var pending := PendingConstraints(envs);
      if pending == [] {
        assert forall n :: !IsPending(tables, n, envs);
        return true;
      }
      if dialect.Sqlite? {
        var saved := Backup(backup);
        if !saved {
          return false;
        }
      }
      assert forall j :: 0 <= j < |pending| ==> pending[j] in pending && IsPending(tables, pending[j], envs);
      var finished := InstallAll(pending, dialect, connected, envs);
      if !finished {
        return false;
      }
      var remaining := Remaining(pending, envs);
      forall n | IsPending(old(tables), n, envs) ensures n in pending && (tables[n].enforced || n in remaining) {
      }
      if remaining != [] {
        assert remaining[0] in remaining;
        return false;
      }
      return true;
    }

    /** The recheck and the installation of one pending table. */
    method MigrateOne(name: string, dialect: Dialect, connected: bool, env: TableEnv) returns (ok: bool)
      requires name in tables && !tables[name].enforced && DistinctIds(tables[name].rows)
      modifies this`tables
      ensures name in tables && tables == old(tables)[name := tables[name]]
      ensures Allowed(dialect, connected, name, old(tables)[name], tables[name], env)
      ensures Faultless(env) ==>
                && Exact(old(tables), tables, name, dialect)
                && (!ok ==> !CanEnforce(dialect, old(tables)[name].rows))
    {
      if !env.recheckFails && tables[name].enforced {
        return true;
      }
      if !Supported(dialect) {
        return true;
      }
      ok := Install(name, dialect, connected, env);
    }

    /** The per-table loop. */
    method InstallAll(pending: seq<string>, dialect: Dialect, connected: bool, envs: string -> TableEnv)
      returns (ok: bool)
      requires WellFormed(tables)
      requires forall j :: 0 <= j < |pending| ==> IsPending(tables, pending[j], envs)
      requires forall i, j :: 0 <= i < j < |pending| ==> pending[i] != pending[j]
      modifies this`tables
      ensures Progress(old(tables), tables, dialect, connected, envs)
      ensures AllFaultless(envs) && ok ==> forall n :: n in pending ==> Exact(old(tables), tables, n, dialect)
      ensures AllFaultless(envs) && !ok ==>
                exists n :: n in pending && n in old(tables) && !CanEnforce(dialect, old(tables)[n].rows)
    {
      ghost var before := tables;
      ghost var faultless := AllFaultless(envs);
      for i := 0 to |pending|
        invariant Progress(before, tables, dialect, connected, envs)
        invariant forall j :: i <= j < |pending| ==> pending[j] in tables && tables[pending[j]] == before[pending[j]]
        invariant faultless ==> forall j :: 0 <= j < i ==> Exact(before, tables, pending[j], dialect)
      {
        var name := pending[i];
        ghost var mid := tables;
        assert IsPending(before, name, envs) && DistinctIds(before[name].rows) && mid[name] == before[name];
        var installed := MigrateOne(name, dialect, connected, envs(name));
        ProgressStep(before, mid, tables, name, dialect, connected, envs);
        if !installed {
          assert name in pending;
          return false;
        }
        if faultless {
          ExactStep(before, mid, tables, pending, i, dialect);
        }
      }
      return true;
    }

    /** _remaining_unenforced_tables */
    method Remaining(pending: seq<string>, envs: string -> TableEnv) returns (remaining: seq<string>)
      ensures forall n :: n in remaining <==> n in pending && n in tables && (envs(n).finalFails || !tables[n].enforced)
    {
      remaining := [];
      for i := 0 to |pending|
        invariant forall n :: n in remaining <==>
                    n in pending[..i] && n in tables && (envs(n).finalFails || !tables[n].enforced)
      {
        assert pending[..i + 1] == pending[..i] + [pending[i]];
        if pending[i] in tables && (envs(pending[i]).finalFails || !tables[pending[i]].enforced) {
          remaining := remaining + [pending[i]];
        }
      }
      assert pending[..|pending|] == pending;
    }
  }
}
