/**
  Schema migrations with backup and restore: all pending migrations or none, for a fault at any
  step. A statement's effect is a parameter; a transaction's statements take effect at its commit.
 */
module Migrations {
  import opened Sorting
  import opened Wrappers

  datatype Migration = Migration(version: int, name: string, sql: string)

  /** The database file: its content, and the versions recorded for the module. */
  datatype Db<C> = Db(content: C, versions: set<int>)

  /** What goes wrong in the transaction of one migration. A failing commit may or may not have taken effect. */
  datatype Fault = FailBegin | FailExec | FailRecord | FailCommit(committed: bool)

  /** A failing restore leaves an arbitrary file behind, or none. */
  datatype Restore<C> = Restores | FailsLeaving(file: Option<Db<C>>)

  datatype Faults<C> = Faults(
    createTable: bool, readVersions: bool, dropOldBackup: bool, createBackup: bool,
    at: map<nat, Fault>, // by position in the list of pending migrations
    restore: Restore<C>, removeBackup: bool)

  datatype Status = Migrated | NothingPending | Duplicate | Failed | BackupLeft

  ghost predicate Ascending(ms: seq<Migration>) {
    forall i, j :: 0 <= i < j < |ms| ==> ms[i].version <= ms[j].version
  }

  ghost predicate DistinctVersions(ms: seq<Migration>) {
    forall i, j :: 0 <= i < j < |ms| ==> ms[i].version != ms[j].version
  }

  function Versions(ms: seq<Migration>): set<int> {
    set i | 0 <= i < |ms| :: ms[i].version
  }

  /** The migrations not recorded yet, in the order given. */
  function Pending(ms: seq<Migration>, versions: set<int>): seq<Migration> {
    if ms == [] then []
    else (if ms[0].version in versions then [] else [ms[0]]) + Pending(ms[1..], versions)
  }

  lemma {:induction false} PendingElements(ms: seq<Migration>, versions: set<int>)
    ensures forall m :: m in Pending(ms, versions) <==> m in ms && m.version !in versions
  {
    if ms != [] {
      PendingElements(ms[1..], versions);
      forall m ensures m in Pending(ms, versions) <==> m in ms && m.version !in versions {
        assert m in ms <==> m == ms[0] || m in ms[1..];
      }
    }
  }

  lemma {:induction false} PendingAscending(ms: seq<Migration>, versions: set<int>)
    requires Ascending(ms)
    ensures Ascending(Pending(ms, versions))
  {
    if ms != [] {
      var rest := Pending(ms[1..], versions);
      PendingAscending(ms[1..], versions);
      PendingElements(ms[1..], versions);
      forall i | 0 <= i < |rest| ensures ms[0].version <= rest[i].version {
        assert rest[i] in rest;
        var j :| 0 <= j < |ms[1..]| && ms[1..][j] == rest[i];
      }
    }
  }

  lemma PendingVersions(ms: seq<Migration>, versions: set<int>)
    ensures Versions(Pending(ms, versions)) == Versions(ms) - versions
    ensures Pending(ms, versions) == [] <==> Versions(ms) <= versions
  {
    var pending := Pending(ms, versions);
    PendingElements(ms, versions);
    VersionsAre(ms);
    VersionsAre(pending);
    assert pending != [] ==> pending[0] in pending;
    if !(Versions(ms) <= versions) {
      var v :| v in Versions(ms) && v !in versions;
      assert v in Versions(pending);
    }
  }

  lemma VersionsAre(ms: seq<Migration>)
    ensures forall v :: v in Versions(ms) <==> exists m :: m in ms && m.version == v
  {
    forall m | m in ms ensures m.version in Versions(ms) {
      var i :| 0 <= i < |ms| && ms[i] == m;
    }
  }

  /** Runs and records one migration. */
  function ApplyOne<C>(exec: (C, string) -> Option<C>, db: Db<C>, m: Migration): Option<Db<C>> {
    match exec(db.content, m.sql)
    case None => None
    case Some(content) => Some(Db(content, db.versions + {m.version}))
  }

  /** Runs the migrations from left to right; fails if one of them fails. */
  function ApplyAll<C>(exec: (C, string) -> Option<C>, db: Db<C>, ms: seq<Migration>): Option<Db<C>>
    decreases |ms|
  {
    if ms == [] then Some(db)
    else
      match ApplyOne(exec, db, ms[0])
      case None => None
      case Some(next) => ApplyAll(exec, next, ms[1..])
  }

  lemma {:induction false} ApplyAllRecords<C>(exec: (C, string) -> Option<C>, db: Db<C>, ms: seq<Migration>)
    ensures var r := ApplyAll(exec, db, ms);
            r.Some? ==> r.value.versions == db.versions + Versions(ms)
    decreases |ms|
  {
    if ms != [] {
      var next := ApplyOne(exec, db, ms[0]);
      if next.Some? { ApplyAllRecords(exec, next.value, ms[1..]); }
      assert Versions(ms) == {ms[0].version} + Versions(ms[1..]) by {
        assert ms == [ms[0]] + ms[1..];
        VersionsAre(ms);
        VersionsAre(ms[1..]);
      }
    } else {
      assert Versions(ms) == {};
    }
  }

  /** Executing the statements one after another leads from one content to another, through these. */
  ghost predicate Leads<C>(exec: (C, string) -> Option<C>, from: C, ms: seq<Migration>, trace: seq<C>, to: C) {
    && |trace| == |ms| + 1 && trace[0] == from && trace[|ms|] == to
    && forall i :: 0 <= i < |ms| ==> exec(trace[i], ms[i].sql) == Some(trace[i + 1])
  }

  /** A list that can be applied executes every statement, in order, on what the one before left. */
  lemma {:induction false} ApplyAllExecutes<C>(exec: (C, string) -> Option<C>, db: Db<C>, ms: seq<Migration>) returns (trace: seq<C>)
    requires ApplyAll(exec, db, ms).Some?
    ensures Leads(exec, db.content, ms, trace, ApplyAll(exec, db, ms).value.content)
    decreases |ms|
  {
    if ms == [] {
      trace := [db.content];
    } else {
      var next := ApplyOne(exec, db, ms[0]).value;
      var rest := ApplyAllExecutes(exec, next, ms[1..]);
      trace := [db.content] + rest;
      forall i | 0 <= i < |ms| ensures exec(trace[i], ms[i].sql) == Some(trace[i + 1]) {
        assert i > 0 ==> exec(rest[i - 1], ms[1..][i - 1].sql) == Some(rest[i]);
      }
    }
  }

  /** All statements have been executed in order, from the one content to the other, and their versions recorded. */
  ghost predicate Executed<C(!new)>(exec: (C, string) -> Option<C>, db: Db<C>, ms: seq<Migration>, after: Db<C>) {
    && after.versions == db.versions + Versions(ms)
    && exists trace: seq<C> :: Leads(exec, db.content, ms, trace, after.content)
  }

  lemma ApplyAllIsExecuted<C(!new)>(exec: (C, string) -> Option<C>, db: Db<C>, ms: seq<Migration>)
    requires ApplyAll(exec, db, ms).Some?
    ensures Executed(exec, db, ms, ApplyAll(exec, db, ms).value)
  {
    ApplyAllRecords(exec, db, ms);
    var trace := ApplyAllExecutes(exec, db, ms);
  }

  /** If all statements can be executed one after another, the list can be applied, and ends with the same content. */
  lemma {:induction false} ExecutesApplies<C>(exec: (C, string) -> Option<C>, db: Db<C>, ms: seq<Migration>, trace: seq<C>, to: C)
    requires Leads(exec, db.content, ms, trace, to)
    ensures ApplyAll(exec, db, ms).Some? && ApplyAll(exec, db, ms).value.content == to
    decreases |ms|
  {
    if ms != [] {
      assert exec(trace[0], ms[0].sql) == Some(trace[1]);
      var next := ApplyOne(exec, db, ms[0]).value;
      forall i | 0 <= i < |ms[1..]| ensures exec(trace[1..][i], ms[1..][i].sql) == Some(trace[1..][i + 1]) {
        assert exec(trace[i + 1], ms[i + 1].sql) == Some(trace[i + 2]);
      }
      ExecutesApplies(exec, next, ms[1..], trace[1..], to);
    }
  }

  /** Sorted lists of the same migrations are equal when no version repeats. */
  lemma {:induction false} SortedIsUnique(a: seq<Migration>, b: seq<Migration>)
    requires Ascending(a) && Ascending(b) && DistinctVersions(a) && multiset(a) == multiset(b)
    ensures a == b
    decreases |a|
  {
    assert |a| == |multiset(a)| == |multiset(b)| == |b|;
    if a != [] {
      SameHead(a, b);
      TailMultiset(a);
      TailMultiset(b);
      SortedIsUnique(a[1..], b[1..]);
      assert a == [a[0]] + a[1..] && b == [b[0]] + b[1..];
    }
  }

  lemma TailMultiset(ms: seq<Migration>)
    requires ms != []
    ensures multiset(ms[1..]) == multiset(ms) - multiset{ms[0]}
  {
    assert ms == [ms[0]] + ms[1..];
  }

  lemma SameHead(a: seq<Migration>, b: seq<Migration>)
    requires Ascending(a) && Ascending(b) && DistinctVersions(a) && multiset(a) == multiset(b)
    requires a != [] && b != []
    ensures a[0] == b[0]
  {
    assert a[0] in multiset(b) && b[0] in multiset(a);
    var i :| 0 <= i < |b| && b[i] == a[0];
    var j :| 0 <= j < |a| && a[j] == b[0];
  }

  predicate VersionLe(a: Migration, b: Migration) { a.version <= b.version }

  method SortByVersion(ms: seq<Migration>) returns (sorted: seq<Migration>)
    ensures Ascending(sorted) && multiset(sorted) == multiset(ms)
  {
    sorted := Sort(ms, VersionLe);
    assert forall i, j :: 0 <= i < j < |sorted| ==> VersionLe(sorted[i], sorted[j]);
  }

  method HasDuplicate(ms: seq<Migration>) returns (found: bool)
    ensures found <==> !DistinctVersions(ms)
  {
    var seen: set<int> := {};
    for i := 0 to |ms|
      invariant forall v :: v in seen <==> exists j :: 0 <= j < i && ms[j].version == v
      invariant DistinctVersions(ms[..i])
    {
      if ms[i].version in seen {
        return true;
      }
      seen := seen + {ms[i].version};
    }
    assert ms[..|ms|] == ms;
    return false;
  }

  class Database<C(0, !new)> {
    const exec: (C, string) -> Option<C>
    var file: Option<Db<C>>   // the database file
    var backup: Option<Db<C>> // the file beside it
    var open: bool

    constructor (exec: (C, string) -> Option<C>, db: Db<C>)
      ensures this.exec == exec && file == Some(db) && backup == None && open
    {
      this.exec, file, backup, open := exec, Some(db), None, true;
    }

    /** Closes the database, puts the backup back and deletes the backup, whether or not it could be put back. */
    method RollBack(faults: Faults<C>)
      requires backup.Some?
      modifies this
      ensures !open
      ensures file == if faults.restore.Restores? then old(backup) else faults.restore.file
      ensures backup == if faults.removeBackup then old(backup) else None
    {
      open := false;
      file := if faults.restore.Restores? then backup else faults.restore.file;
      if !faults.removeBackup {
        backup := None;
      }
    }

    /** Everything pending, applied in ascending order of version; none if one of them cannot be applied. */
    ghost function AllApplied(db: Db<C>, sorted: seq<Migration>): Option<Db<C>> {
      ApplyAll(exec, db, Pending(sorted, db.versions))
    }

    /**
      Sorts the migrations and runs those not recorded yet, each in a transaction of its own.

      Unless a restore fails, the file ends as it was or with all of them applied. The backup goes with a restore
      that fails; what was in the file is then in neither, unless the backup could not be deleted.
     */
    method Migrate(migrations: seq<Migration>, faults: Faults<C>)
      returns (status: Status, ghost sorted: seq<Migration>)
      requires open && file.Some?
      modifies this
      ensures Ascending(sorted) && multiset(sorted) == multiset(migrations)
      ensures match status
              case Migrated => file == AllApplied(old(file).value, sorted) && file.Some? && backup == None
              case BackupLeft => file == AllApplied(old(file).value, sorted) && file.Some? && faults.removeBackup
              case NothingPending => file == old(file) && backup == old(backup)
              case Duplicate => file == old(file) && backup == old(backup)
              case Failed => file == old(file) || (faults.restore.FailsLeaving? && file == faults.restore.file)
      ensures status.Failed? ==>
                ((file == old(file) || backup == old(file))
                 <==> (FailsEarly(faults) || faults.restore.Restores? || faults.restore.file == old(file)
                       || faults.removeBackup))
      ensures status.Migrated? || status.BackupLeft? ==>
                file.Some? && Executed(exec, old(file).value, Pending(sorted, old(file).value.versions), file.value)
      ensures status.Duplicate? || status.Failed? || DistinctVersions(sorted)
      ensures status.Duplicate? ==> !DistinctVersions(sorted)
      ensures status.NothingPending? ==> Versions(migrations) <= old(file).value.versions
      ensures Versions(migrations) <= old(file).value.versions ==> file == old(file) && backup == old(backup)
      ensures NoFault(faults) && DistinctVersions(sorted) && AllApplied(old(file).value, sorted).Some?
              ==> file == AllApplied(old(file).value, sorted) && !status.Failed? && !status.BackupLeft?
    {
      sorted := migrations;
      var ms := SortByVersion(migrations);
      sorted := ms;
      SameVersions(sorted, migrations);
      if faults.createTable {
        return Failed, sorted;
      }
      var duplicate := HasDuplicate(ms);
      if duplicate {
        return Duplicate, sorted;
      }
      if faults.readVersions {
        return Failed, sorted;
      }
      var pending := Pending(ms, file.value.versions);
      PendingVersions(ms, file.value.versions);
      if |pending| == 0 {
        return NothingPending, sorted;
      }
      if faults.dropOldBackup {
        return Failed, sorted;
      }
      backup := None;
      if faults.createBackup {
        return Failed, sorted;
      }
      backup := file;
      var ok := RunPending(pending, faults);
      if !ok {
        return Failed, sorted;
      }
      if faults.removeBackup {
        return BackupLeft, sorted;
      }
      backup := None;
      return Migrated, sorted;
    }

    /** The transactions of the pending migrations; the first that fails rolls all of them back. */
    method RunPending(pending: seq<Migration>, faults: Faults<C>) returns (ok: bool)
      requires open && file.Some? && backup == file
      modifies this
      ensures ok ==> open && file == ApplyAll(exec, old(file).value, pending) && file.Some?
      ensures ok ==> Executed(exec, old(file).value, pending, file.value)
      ensures !ok ==> !open && file == if faults.restore.Restores? then old(file) else faults.restore.file
      ensures !ok ==> backup == if faults.removeBackup then old(file) else None
      ensures ok <==> ApplyAll(exec, old(file).value, pending).Some? && forall i :: 0 <= i < |pending| ==> i !in faults.at
    {
      ghost var before := file.value;
      for i := 0 to |pending|
        invariant open && file.Some? && backup == Some(before)
        invariant ApplyAll(exec, file.value, pending[i..]) == ApplyAll(exec, before, pending)
        invariant forall j :: 0 <= j < i ==> j !in faults.at
      {
        assert pending[i..][1..] == pending[i + 1..];
        var next := ApplyOne(exec, file.value, pending[i]);
        if i in faults.at {
          if faults.at[i].FailCommit? && faults.at[i].committed && next.Some? {
            file := next;
          }
          RollBack(faults);
          return false;
        }
        if next.None? {
          RollBack(faults);
          return false;
        }
        file := next;
      }
      ok := true;
      ApplyAllIsExecuted(exec, before, pending);
    }

    /**
      Any sequence of attempts, each with faults of its own but working restores: the file is still what it
      was at first or has everything applied, and one attempt without faults is enough for the latter.
     */
    method Attempts(migrations: seq<Migration>, schedule: seq<Faults<C>>, ghost sorted: seq<Migration>)
      requires open && file.Some?
      requires Ascending(sorted) && multiset(sorted) == multiset(migrations) && DistinctVersions(sorted)
      requires forall i :: 0 <= i < |schedule| ==> schedule[i].restore.Restores?
      modifies this
      ensures file == old(file) || file == AllApplied(old(file).value, sorted)
      ensures AllApplied(old(file).value, sorted).Some? && (exists i :: 0 <= i < |schedule| && NoFault(schedule[i]))
              ==> file == AllApplied(old(file).value, sorted)
    {
      ghost var first := file.value;
      ApplyAllRecords(exec, first, Pending(sorted, first.versions));
      PendingVersions(sorted, first.versions);
      SameVersions(sorted, migrations);
      for i := 0 to |schedule|
        invariant file.Some?
        invariant file == Some(first) || file == AllApplied(first, sorted)
        invariant AllApplied(first, sorted).Some? && (exists j :: 0 <= j < i && NoFault(schedule[j]))
                  ==> file == AllApplied(first, sorted)
      {
        open := true;
        var status, again := Migrate(migrations, schedule[i]);
        SortedIsUnique(sorted, again);
      }
    }
  }

  /** A fault before there is a backup. */
  predicate FailsEarly<C>(faults: Faults<C>) {
    faults.createTable || faults.readVersions || faults.dropOldBackup || faults.createBackup
  }

  ghost predicate NoFault<C>(faults: Faults<C>) {
    && !faults.createTable && !faults.readVersions && !faults.dropOldBackup && !faults.createBackup
    && faults.at == map[] && !faults.removeBackup
  }

  lemma SameVersions(a: seq<Migration>, b: seq<Migration>)
    requires multiset(a) == multiset(b)
    ensures Versions(a) == Versions(b)
  {
    VersionsAre(a);
    VersionsAre(b);
    assert forall m :: m in a <==> m in multiset(a);
    assert forall m :: m in b <==> m in multiset(b);
  }
}
