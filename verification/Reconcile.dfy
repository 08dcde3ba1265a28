/** The reconciler: from any recorded phase to a final one, through whatever the cleanup steps report. */
module Reconcile {
  import opened LifecyclePhases
  import opened LifecycleVersions
  import opened LifecycleStore
  import opened Wrappers

  /** What the cleanup steps report; `platform` lists what the platform step marks, by name. */
  datatype Outcome = Outcome(subnet: bool, rootfs: bool, bootstrap: bool, platform: seq<(string, bool)>, error: string)

  predicate PlatformOk(marks: seq<(string, bool)>) {
    forall i :: 0 <= i < |marks| ==> marks[i].1
  }

  predicate AllOk(o: Outcome) {
    o.subnet && o.rootfs && o.bootstrap && PlatformOk(o.platform)
  }

  datatype Status = Skipped | Reconciled | Failed

  /** Where a reconciled VM ends up. */
  function FinalPhase(from: Phase, ok: bool): Phase {
    if from.Unknown? || from == Cleaned then from else if ok then Cleaned else CleanupFailed
  }

  /** A record write that succeeds at the first attempt. */
  const WRITES: seq<Attempt> := [Commits, Commits, Commits, Commits, Commits, Commits, Commits, Commits]

  /** The history has only grown, and still follows the phase graph from any record from which it did before. */
  ghost predicate Continues(past: seq<Record>, past': seq<Record>) {
    past <= past' && forall from: nat :: FollowsFrom(past, from) ==> FollowsFrom(past', from)
  }

  lemma ContinuesOn(a: seq<Record>, b: seq<Record>, c: seq<Record>)
    requires Continues(a, b) && Continues(b, c)
    ensures Continues(a, c)
  {
  }

  /** One update with its error ignored: the last record changes accordingly, or nothing does. */
  method Try(store: Store, c: Change, ghost past: seq<Record>)
    requires store.Valid() && Continues(past, store.Past())
    modifies store
    ensures store.Valid() && Continues(past, store.Past())
    ensures var before, after := Latest(old(store.Past()), store.vmID), Latest(store.Past(), store.vmID);
            match Changed(before, c)
            case Some(rec) => after == rec.(version := after.version) && store.Past() != []
            case None => store.Past() == old(store.Past())
  {
    assert WRITES[0] == Commits;
    ghost var before := store.Past();
    forall from: nat | FollowsFrom(before, from)
      ensures Changed(Latest(before, store.vmID), c).Some? ==> FollowsFrom(Appended(before, store.vmID, c), from)
    {
      AppendedFollows(before, from, store.vmID, c);
    }
    var ok := store.Apply(c, WRITES);
    ContinuesOn(past, before, store.Past());
  }

  /** Marks the steps in turn; only the record of cleanups changes. */
  method Mark(store: Store, marks: seq<(string, bool)>, ghost past: seq<Record>)
    requires store.Valid() && store.Past() != [] && Continues(past, store.Past())
    modifies store
    ensures store.Valid() && store.Past() != [] && Continues(past, store.Past())
    ensures var before, after := Latest(old(store.Past()), store.vmID), Latest(store.Past(), store.vmID);
            after == before.(cleanup := Marked(before.cleanup, marks), version := after.version)
  {
    ghost var before := Latest(store.Past(), store.vmID);
    for i := 0 to |marks|
      invariant store.Valid() && store.Past() != [] && Continues(past, store.Past())
      invariant var now := Latest(store.Past(), store.vmID);
                now == before.(cleanup := Marked(before.cleanup, marks[..i]), version := now.version)
    {
      assert marks[..i + 1][..i] == marks[..i];
      Try(store, MarkCleanup(marks[i].0, marks[i].1), past);
    }
    assert marks[..|marks|] == marks;
  }

  function Marked(cleanup: map<string, bool>, marks: seq<(string, bool)>): map<string, bool> {
    if marks == [] then cleanup
    else
      var last := marks[|marks| - 1];
      Marked(cleanup, marks[..|marks| - 1])[last.0 := last.1]
  }

  /** What the three steps mark: the bootstrap image is tried only once the root file system is gone. */
  function Marks(o: Outcome): seq<(string, bool)> {
    [("subnet_release", o.subnet), ("rootfs_remove", o.rootfs)]
    + (if o.rootfs then [("bootstrap_remove", o.bootstrap)] else [])
    + o.platform
  }

  method ReconcileVM(store: Store, running: bool, forceRunning: bool, rootfs: string, o: Outcome) returns (status: Status)
    requires store.Valid() && o.error != ""
    modifies store
    ensures store.Valid()
    ensures status.Skipped? <==> running && !forceRunning
    ensures status.Skipped? ==> store.Past() == old(store.Past())
    ensures !status.Skipped? ==> (status.Reconciled? <==> AllOk(o))
    ensures AllOk(o) <==> o.subnet && o.rootfs && o.bootstrap && forall i :: 0 <= i < |o.platform| ==> o.platform[i].1
    ensures !status.Skipped? ==>
              var from := Latest(old(store.Past()), store.vmID).phase;
              var last := Latest(store.Past(), store.vmID);
              && store.Past() != []
              && last.phase == FinalPhase(from, AllOk(o))
              && last.lastError == (if AllOk(o) then "" else o.error)
              && last.rootfs == (if old(store.Past()) == [] then rootfs else Latest(old(store.Past()), store.vmID).rootfs)
              && last.cleanup == Marked(Latest(old(store.Past()), store.vmID).cleanup, Marks(o))
    ensures Continues(old(store.Past()), store.Past())
  {
    if running && !forceRunning {
      return Skipped;
    }
    ghost var past := store.Past();
    Register(store, rootfs);
    var ok := AllOk(o);
    CleanUp(store, Marks(o), ok, o.error, past);
    return if ok then Reconciled else Failed;
  }

  method CleanUp(store: Store, marks: seq<(string, bool)>, ok: bool, error: string, ghost past: seq<Record>)
    requires store.Valid() && store.Past() != [] && Continues(past, store.Past())
    modifies store
    ensures store.Valid() && store.Past() != [] && Continues(past, store.Past())
    ensures var before, after := Latest(old(store.Past()), store.vmID), Latest(store.Past(), store.vmID);
            && after.phase == FinalPhase(before.phase, ok)
            && after.lastError == (if ok then "" else error) && after.rootfs == before.rootfs
            && after.cleanup == Marked(before.cleanup, marks)
  {
    ConcludingPhase(Latest(store.Past(), store.vmID).phase, ok);
    StartCleaning(store, past);
    Mark(store, marks, past);
    Conclude(store, ok, error, past);
  }

  /** The phase after `SetPhase(cleaning)`, permitted or not. */
  function CleaningPhase(from: Phase): Phase {
    if from.Unknown? || from == Cleaned then from else Cleaning
  }

  lemma ConcludingPhase(from: Phase, ok: bool)
    ensures var target := if ok then Cleaned else CleanupFailed;
            FinalPhase(from, ok) == if Permitted(CleaningPhase(from), target) then target else CleaningPhase(from)
  {
  }

  method StartCleaning(store: Store, ghost past: seq<Record>)
    requires store.Valid() && store.Past() != [] && Continues(past, store.Past())
    modifies store
    ensures store.Valid() && store.Past() != [] && Continues(past, store.Past())
    ensures var before, after := Latest(old(store.Past()), store.vmID), Latest(store.Past(), store.vmID);
            && after.phase == CleaningPhase(before.phase)
            && after.cleanup == before.cleanup && after.rootfs == before.rootfs
  {
    CleaningIsNext(Latest(store.Past(), store.vmID).phase);
    Try(store, SetPhase(Cleaning), past);
    Try(store, SetLastError(""), past);
  }

  method Conclude(store: Store, ok: bool, error: string, ghost past: seq<Record>)
    requires store.Valid() && store.Past() != [] && Continues(past, store.Past())
    modifies store
    ensures store.Valid() && store.Past() != [] && Continues(past, store.Past())
    ensures var before, after := Latest(old(store.Past()), store.vmID), Latest(store.Past(), store.vmID);
            var target := if ok then Cleaned else CleanupFailed;
            && after.phase == (if Permitted(before.phase, target) then target else before.phase)
            && after.lastError == (if ok then "" else error)
            && after.cleanup == before.cleanup && after.rootfs == before.rootfs
  {
    Try(store, SetLastError(if ok then "" else error), past);
    Try(store, SetPhase(if ok then Cleaned else CleanupFailed), past);
  }

  /** Gives a VM without a record one. */
  method Register(store: Store, rootfs: string)
    requires store.Valid()
    modifies store
    ensures store.Valid() && store.Past() != [] && Continues(old(store.Past()), store.Past())
    ensures var before, after := Latest(old(store.Past()), store.vmID), Latest(store.Past(), store.vmID);
            && after.phase == before.phase && after.cleanup == before.cleanup
            && after.rootfs == if old(store.Past()) == [] then rootfs else before.rootfs
  {
    ghost var past := store.Past();
    var rec := store.Load();
    EmptyPast(store.tables, store.vmID);
    if rec.version == 0 {
      FirstRecord(store);
      Try(store, SetRootfs(rootfs), past);
    }
  }

  method FirstRecord(store: Store)
    requires store.Valid() && store.Past() == []
    modifies store
    ensures store.Valid() && store.Past() == [Record(1, store.vmID, Creating, "", "", map[])]
    ensures Continues([], store.Past())
  {
    assert WRITES[0] == Commits;
    var ok := store.Init(WRITES);
    FirstContinues(store.Past()[0]);
  }

  lemma FirstContinues(rec: Record)
    requires rec.phase == Creating
    ensures Continues([], [rec])
  {
    assert [rec][0..] == [rec] && Phases([rec]) == [Creating];
  }

  lemma EmptyPast(t: Tables, vm: string)
    requires TablesInv(t)
    ensures History(t, vm) == [] <==> Latest(History(t, vm), vm).version == 0
  {
    LoadIsLastOfHistory(t, vm);
  }

  lemma {:induction false} MarkedConcat(cleanup: map<string, bool>, a: seq<(string, bool)>, b: seq<(string, bool)>)
    ensures Marked(cleanup, a + b) == Marked(Marked(cleanup, a), b)
  {
    if b == [] {
      assert a + b == a;
    } else {
      assert (a + b)[..|a + b| - 1] == a + b[..|b| - 1];
      MarkedConcat(cleanup, a, b[..|b| - 1]);
    }
  }

  predicate HasMark(marks: seq<(string, bool)>, name: string) {
    exists i :: 0 <= i < |marks| && marks[i].0 == name
  }

  /** A name without a mark says what it said before. */
  lemma {:induction false} NoMark(cleanup: map<string, bool>, marks: seq<(string, bool)>, name: string)
    requires !HasMark(marks, name)
    ensures name in Marked(cleanup, marks) <==> name in cleanup
    ensures name in cleanup ==> Marked(cleanup, marks)[name] == cleanup[name]
  {
    if marks != [] {
      var last, init := marks[|marks| - 1], marks[..|marks| - 1];
      assert last.0 != name && !HasMark(init, name);
      NoMark(cleanup, init, name);
    }
  }

  /** A name says what its last mark says. */
  lemma LastMark(cleanup: map<string, bool>, before: seq<(string, bool)>, mark: (string, bool), behind: seq<(string, bool)>)
    requires !HasMark(behind, mark.0)
    ensures mark.0 in Marked(cleanup, before + [mark] + behind)
    ensures Marked(cleanup, before + [mark] + behind)[mark.0] == mark.1
  {
    var marks := before + [mark];
    assert marks[..|marks| - 1] == before;
    MarkedConcat(cleanup, marks, behind);
    NoMark(Marked(cleanup, marks), behind, mark.0);
  }

  /** What the record says of each step afterwards: its own result, and of a step not tried what it said before. */
  lemma MarksMean(cleanup: map<string, bool>, o: Outcome)
    requires !HasMark(o.platform, "subnet_release") && !HasMark(o.platform, "rootfs_remove")
             && !HasMark(o.platform, "bootstrap_remove")
    ensures var after := Marked(cleanup, Marks(o));
            && "subnet_release" in after && after["subnet_release"] == o.subnet
            && "rootfs_remove" in after && after["rootfs_remove"] == o.rootfs
            && (o.rootfs ==> "bootstrap_remove" in after && after["bootstrap_remove"] == o.bootstrap)
            && (!o.rootfs ==> ("bootstrap_remove" in after <==> "bootstrap_remove" in cleanup))
  {
    var subnet, rootfs := ("subnet_release", o.subnet), ("rootfs_remove", o.rootfs);
    var rest := (if o.rootfs then [("bootstrap_remove", o.bootstrap)] else []) + o.platform;
    assert !HasMark(rest, "subnet_release") && !HasMark(rest, "rootfs_remove");
    assert Marks(o) == [] + [subnet] + ([rootfs] + rest);
    LastMark(cleanup, [], subnet, [rootfs] + rest);
    assert Marks(o) == [subnet] + [rootfs] + rest;
    LastMark(cleanup, [subnet], rootfs, rest);
    BootstrapMark(cleanup, o);
  }

  lemma BootstrapMark(cleanup: map<string, bool>, o: Outcome)
    requires !HasMark(o.platform, "bootstrap_remove")
    ensures var after := Marked(cleanup, Marks(o));
            if o.rootfs then "bootstrap_remove" in after && after["bootstrap_remove"] == o.bootstrap
            else "bootstrap_remove" in after <==> "bootstrap_remove" in cleanup
  {
    var first := [("subnet_release", o.subnet), ("rootfs_remove", o.rootfs)];
    if o.rootfs {
      assert Marks(o) == first + [("bootstrap_remove", o.bootstrap)] + o.platform;
      LastMark(cleanup, first, ("bootstrap_remove", o.bootstrap), o.platform);
    } else {
      assert Marks(o) == first + o.platform;
      NoMark(cleanup, Marks(o), "bootstrap_remove");
    }
  }

  /** And of a platform step its last result. */
  lemma PlatformMarksMean(cleanup: map<string, bool>, o: Outcome, i: nat)
    requires i < |o.platform| && !HasMark(o.platform[i + 1..], o.platform[i].0)
    ensures var after, mark := Marked(cleanup, Marks(o)), o.platform[i];
            mark.0 in after && after[mark.0] == mark.1
  {
    var steps := Marks(o.(platform := []));
    assert o.platform == o.platform[..i] + [o.platform[i]] + o.platform[i + 1..];
    assert Marks(o) == (steps + o.platform[..i]) + [o.platform[i]] + o.platform[i + 1..];
    LastMark(cleanup, steps + o.platform[..i], o.platform[i], o.platform[i + 1..]);
  }
}
