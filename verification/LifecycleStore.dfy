/**
  One store used by one caller at a time: saving with retries, and updates that follow the phase
  graph.
 */
module LifecycleStore {
  import opened LifecyclePhases
  import opened LifecycleVersions
  import opened Wrappers

  const RETRY_ATTEMPTS: nat := 8

  /** How an attempt to save ends: committed, or rolled back with the database busy or with another error. */
  datatype Attempt = Commits | Busy | Breaks

  /** The attempts a save gets to make; it makes no more than eight, and stops at the first that is not busy. */
  predicate Succeeds(attempts: seq<Attempt>) {
    exists k :: 0 <= k < |attempts| && k < RETRY_ATTEMPTS && attempts[k] == Commits
                && forall j :: 0 <= j < k ==> attempts[j] == Busy
  }

  /** A change to the loaded record, or the error that stops the update. */
  datatype Change =
    | SetPhase(phase: Phase)
    | SetLastError(text: string)
    | SetRootfs(path: string)
    | MarkCleanup(name: string, ok: bool)

  function Changed(rec: Record, c: Change): Option<Record> {
    match c
    case SetPhase(phase) => if Permitted(rec.phase, phase) then Some(rec.(phase := phase)) else None
    case SetLastError(text) => Some(rec.(lastError := text))
    case SetRootfs(path) => Some(rec.(rootfs := path))
    case MarkCleanup(name, ok) => Some(rec.(cleanup := rec.cleanup[name := ok]))
  }

  class Store {
    var tables: Tables // the database the store is open on
    const vmID: string

    ghost predicate Valid()
      reads this
    {
      TablesInv(tables)
    }

    ghost function Past(): seq<Record>
      reads this
    {
      History(tables, vmID)
    }

    constructor (vmID: string, tables: Tables)
      requires TablesInv(tables)
      ensures Valid() && this.vmID == vmID && this.tables == tables
    {
      this.vmID, this.tables := vmID, tables;
    }

    /** The transaction of one attempt: what it did is dropped unless it commits. */
    method SaveAttempt(rec: Record, attempt: Attempt)
      requires Valid() && rec.vmID == vmID
      modifies this
      ensures Valid()
      ensures tables == if attempt.Commits? then Saved(old(tables), rec) else old(tables)
    {
      SavedInv(tables, rec);
      var tx, version := NextLifecycleVersion(tables, rec.vmID);
      tx := WithRow(tx, rec.vmID, version, rec);
      if attempt.Commits? {
        tables := tx;
      }
    }

    /** Saves a record; retries while the database is busy. */
    method Save(rec: Record, attempts: seq<Attempt>) returns (ok: bool)
      requires Valid() && rec.vmID == vmID && |attempts| >= RETRY_ATTEMPTS
      modifies this
      ensures Valid()
      ensures ok <==> Succeeds(attempts)
      ensures tables == if ok then Saved(old(tables), rec) else old(tables)
      ensures Past() == old(Past()) + if ok then [rec.(version := |old(Past())| + 1)] else []
      ensures forall vm :: vm != vmID ==> History(tables, vm) == History(old(tables), vm)
    {
      ghost var before := tables;
      ok := Retry(rec, attempts);
      if ok { SavedHistories(before, rec); }
    }

    /** The retry loop. */
    method Retry(rec: Record, attempts: seq<Attempt>) returns (ok: bool)
      requires Valid() && rec.vmID == vmID && |attempts| >= RETRY_ATTEMPTS
      modifies this
      ensures Valid()
      ensures ok <==> Succeeds(attempts)
      ensures tables == if ok then Saved(old(tables), rec) else old(tables)
    {
      ok := false;
      for attempt := 0 to RETRY_ATTEMPTS
        invariant Valid() && tables == old(tables)
        invariant forall j :: 0 <= j < attempt ==> attempts[j] == Busy
      {
        SaveAttempt(rec, attempts[attempt]);
        if attempts[attempt].Commits? {
          return true;
        }
        if attempts[attempt].Breaks? {
          return false;
        }
      }
    }

    /** `Init` records a VM as creating, whatever is recorded about it. */
    method Init(attempts: seq<Attempt>) returns (ok: bool)
      requires Valid() && |attempts| >= RETRY_ATTEMPTS
      modifies this
      ensures Valid()
      ensures ok <==> Succeeds(attempts)
      ensures Past() == if ok then WithInit(old(Past()), vmID) else old(Past())
    {
      ok := Save(Record(1, vmID, Creating, "", "", map[]), attempts);
    }

    method Load() returns (rec: Record)
      requires Valid()
      ensures rec == Latest(Past(), vmID)
    {
      LoadIsLastOfHistory(tables, vmID);
      var rows := RowsOf(tables, vmID);
      HistoryIs(tables, vmID);
      if |rows| == 0 {
        return Record(0, vmID, Creating, "", "", map[]);
      }
      var last := QueryMax(rows.Keys);
      rec := rows[last];
    }

    /**
      Loads, updates and saves; an error from the update function leaves the database alone. The function may do
      anything to the record, even set a phase that is not permitted; it leaves the VM's name alone.
     */
    method Update(f: Record -> Option<Record>, attempts: seq<Attempt>) returns (ok: bool)
      requires Valid() && |attempts| >= RETRY_ATTEMPTS
      requires var updated := f(Latest(Past(), vmID)); updated.Some? ==> updated.value.vmID == vmID
      modifies this
      ensures Valid()
      ensures ok <==> Succeeds(attempts) && f(Latest(old(Past()), vmID)).Some?
      ensures Past() == old(Past())
              + if ok then [f(Latest(old(Past()), vmID)).value.(version := |old(Past())| + 1)] else []
      ensures forall vm :: vm != vmID ==> History(tables, vm) == History(old(tables), vm)
    {
      var rec := Load();
      var updated := f(rec);
      if updated.None? {
        return false;
      }
      ok := Save(updated.value, attempts);
    }

    /** The updates the store offers by name: to the phase, if permitted, the last error, a resource or a cleanup. */
    method Apply(c: Change, attempts: seq<Attempt>) returns (ok: bool)
      requires Valid() && |attempts| >= RETRY_ATTEMPTS
      modifies this
      ensures Valid()
      ensures ok <==> Succeeds(attempts) && Changed(Latest(old(Past()), vmID), c).Some?
      ensures Past() == if ok then Appended(old(Past()), vmID, c) else old(Past())
    {
      LatestVM(tables, vmID);
      ok := Update(rec => Changed(rec, c), attempts);
    }

    /** Any list of updates, each of which may fail: every one that does not appends its record. */
    method Updates(changes: seq<Change>, attempts: seq<seq<Attempt>>)
      requires Valid() && |attempts| == |changes|
      requires forall i :: 0 <= i < |attempts| ==> |attempts[i]| >= RETRY_ATTEMPTS
      modifies this
      ensures Valid()
      ensures Past() == Recorded(old(Past()), vmID, changes, attempts)
    {
      ghost var before := Past();
      for i := 0 to |changes|
        invariant Valid()
        invariant Past() == Recorded(before, vmID, changes[..i], attempts[..i])
      {
        RecordedNext(before, vmID, changes, attempts, i);
        var ok := Apply(changes[i], attempts[i]);
      }
      assert changes[..|changes|] == changes && attempts[..|attempts|] == attempts;
    }

    /** `Init`, whatever was recorded before it, and if it succeeds any list of updates. */
    method InitAndUpdate(changes: seq<Change>, attempts: seq<seq<Attempt>>) returns (ok: bool)
      requires Valid() && |attempts| == |changes| + 1
      requires forall i :: 0 <= i < |attempts| ==> |attempts[i]| >= RETRY_ATTEMPTS
      modifies this
      ensures Valid()
      ensures ok <==> Succeeds(attempts[0])
      ensures Past() == if ok then Recorded(WithInit(old(Past()), vmID), vmID, changes, attempts[1..]) else old(Past())
    {
      ok := Init(attempts[0]);
      if ok {
        Updates(changes, attempts[1..]);
      }
    }
  }

  /** The history after a list of updates: each appends its record if it is permitted and its save succeeds. */
  function Recorded(past: seq<Record>, vm: string, changes: seq<Change>, attempts: seq<seq<Attempt>>): seq<Record>
    requires |attempts| == |changes|
  {
    if changes == [] then past
    else
      var n := |changes| - 1;
      var before := Recorded(past, vm, changes[..n], attempts[..n]);
      if Succeeds(attempts[n]) && Changed(Latest(before, vm), changes[n]).Some?
      then Appended(before, vm, changes[n]) else before
  }

  function WithInit(past: seq<Record>, vm: string): seq<Record> {
    past + [Record(|past| + 1, vm, Creating, "", "", map[])]
  }

  lemma RecordedNext(past: seq<Record>, vm: string, changes: seq<Change>, attempts: seq<seq<Attempt>>, i: nat)
    requires |attempts| == |changes| && i < |changes|
    ensures var before := Recorded(past, vm, changes[..i], attempts[..i]);
            Recorded(past, vm, changes[..i + 1], attempts[..i + 1])
            == if Succeeds(attempts[i]) && Changed(Latest(before, vm), changes[i]).Some?
               then Appended(before, vm, changes[i]) else before
  {
    assert changes[..i + 1][..i] == changes[..i] && attempts[..i + 1][..i] == attempts[..i];
  }

  /** Whatever fails, updates only append, and keep the phases recorded from some version on on the phase graph. */
  lemma {:induction false} RecordedFollows(
    past: seq<Record>, from: nat, vm: string, changes: seq<Change>, attempts: seq<seq<Attempt>>)
    requires |attempts| == |changes|
    ensures past <= Recorded(past, vm, changes, attempts)
    ensures FollowsFrom(past, from) ==> FollowsFrom(Recorded(past, vm, changes, attempts), from)
  {
    if changes != [] {
      var n := |changes| - 1;
      RecordedFollows(past, from, vm, changes[..n], attempts[..n]);
      var before := Recorded(past, vm, changes[..n], attempts[..n]);
      if FollowsFrom(before, from) { AppendedFollows(before, from, vm, changes[n]); }
    }
  }

  /** After `Init`, whatever was recorded before it, any list of updates records a path that starts at creating. */
  lemma InitFollows(past: seq<Record>, vm: string, changes: seq<Change>, attempts: seq<seq<Attempt>>)
    requires |attempts| == |changes|
    ensures var after := Recorded(WithInit(past, vm), vm, changes, attempts);
            && WithInit(past, vm) <= after
            && after[|past|].phase == Creating && FollowsFrom(after, |past|)
  {
    StartsCreating(past, vm);
    RecordedFollows(WithInit(past, vm), |past|, vm, changes, attempts);
  }

  lemma StartsCreating(past: seq<Record>, vm: string)
    ensures WithInit(past, vm)[|past|].phase == Creating && FollowsFrom(WithInit(past, vm), |past|)
  {
    assert Phases(WithInit(past, vm)[|past|..]) == [Creating];
  }

  /** The phases recorded from this position on follow the phase graph. */
  ghost predicate FollowsFrom(past: seq<Record>, from: nat) {
    if past == [] then from == 0 else from < |past| && IsPhasePath(Phases(past[from..]))
  }

  /** The maximum SQL computes. */
  method QueryMax(versions: set<nat>) returns (m: nat)
    ensures m == MaxVersion(versions)
  {
    m := 0;
    var todo := versions;
    while todo != {}
      invariant todo <= versions
      invariant forall v :: v in versions && v !in todo ==> v <= m
      invariant m == 0 || m in versions
    {
      var v :| v in todo;
      todo := todo - {v};
      if v > m {
        m := v;
      }
    }
    assert versions != {} ==> MaxVersion(versions) in versions;
  }

  method NextLifecycleVersion(t: Tables, vm: string) returns (t': Tables, version: nat)
    ensures version == NextVersion(t, vm) && t' == WithHead(t, vm)
  {
    if vm in t.head {
      version := t.head[vm] + 1;
    } else {
      var m := QueryMax(RowsOf(t, vm).Keys);
      version := m + 1;
    }
    t' := t.(head := t.head[vm := version]);
  }

  lemma SavedHistories(t: Tables, rec: Record)
    requires TablesInv(t)
    ensures forall vm :: History(Saved(t, rec), vm)
                         == History(t, vm) + if vm == rec.vmID then [rec.(version := |History(t, vm)| + 1)] else []
  {
    forall vm
      ensures History(Saved(t, rec), vm)
              == History(t, vm) + if vm == rec.vmID then [rec.(version := |History(t, vm)| + 1)] else []
    {
      SavedAppends(t, rec, vm);
    }
  }

  /** What a store loads: the last record, or the default one. */
  function Latest(past: seq<Record>, vm: string): Record {
    if past == [] then Record(0, vm, Creating, "", "", map[]) else past[|past| - 1]
  }

  lemma LatestVM(t: Tables, vm: string)
    requires TablesInv(t)
    ensures Latest(History(t, vm), vm).vmID == vm
  {
    HistoryIs(t, vm);
    var rows := RowsOf(t, vm);
    assert forall v :: v in rows ==> rows[v].vmID == vm;
  }

  function Appended(past: seq<Record>, vm: string, c: Change): seq<Record>
    requires Changed(Latest(past, vm), c).Some?
  {
    past + [Changed(Latest(past, vm), c).value.(version := |past| + 1)]
  }

  function Phases(past: seq<Record>): seq<Phase> {
    seq(|past|, i requires 0 <= i < |past| => past[i].phase)
  }

  /** One update, phase change or not, takes the recorded phases one permitted step further. */
  lemma AppendedPhase(past: seq<Record>, vm: string, c: Change)
    requires IsPhasePath(Phases(past))
    ensures Changed(Latest(past, vm), c).Some? ==> IsPhasePath(Phases(Appended(past, vm, c)))
  {
    if Changed(Latest(past, vm), c).Some? {
      var more := Appended(past, vm, c);
      var from, to := Latest(past, vm).phase, more[|past|].phase;
      assert past != [] ==> Phases(past)[|past| - 1] == from;
      assert IsKnown(from) && Permitted(from, to);
      assert Phases(more) == Phases(past) + [to];
    }
  }

  lemma AppendedFollows(past: seq<Record>, from: nat, vm: string, c: Change)
    requires FollowsFrom(past, from)
    ensures Changed(Latest(past, vm), c).Some? ==> FollowsFrom(Appended(past, vm, c), from)
  {
    if Changed(Latest(past, vm), c).Some? {
      var more := Appended(past, vm, c);
      if past == [] {
        AppendedPhase(past, vm, c);
        assert more[0..] == more;
      } else {
        var recent := past[from..];
        assert Latest(recent, vm) == Latest(past, vm);
        AppendedPhase(recent, vm, c);
        assert Phases(more[from..]) == Phases(Appended(recent, vm, c));
      }
    }
  }

  /** Each change sets what it is about, to what it says, and leaves everything else in the record alone. */
  lemma ChangeMeans(rec: Record, c: Change)
    ensures Changed(rec, c).None? <==> c.SetPhase? && !Permitted(rec.phase, c.phase)
    ensures Changed(rec, c).Some? ==>
              var after := Changed(rec, c).value;
              && after.version == rec.version && after.vmID == rec.vmID
              && after.phase == (if c.SetPhase? then c.phase else rec.phase)
              && after.lastError == (if c.SetLastError? then c.text else rec.lastError)
              && after.rootfs == (if c.SetRootfs? then c.path else rec.rootfs)
              && (forall name :: name != (if c.MarkCleanup? then c.name else "") || !c.MarkCleanup? ==>
                    (name in after.cleanup <==> name in rec.cleanup)
                    && (name in rec.cleanup ==> after.cleanup[name] == rec.cleanup[name]))
              && (c.MarkCleanup? ==> c.name in after.cleanup && after.cleanup[c.name] == c.ok)
  {
  }

  /** Eight attempts are made while the database is busy, and an attempt that fails otherwise is the last. */
  lemma EightAttempts(attempts: seq<Attempt>)
    requires |attempts| >= RETRY_ATTEMPTS
    ensures |attempts| >= 8
    ensures Succeeds(attempts) <==> exists k :: 0 <= k < 8 && attempts[k] == Commits && forall j :: 0 <= j < k ==> attempts[j] == Busy
  {
  }

  /** What is loaded is the last record; of a VM without one, a record of version 0 that says creating and no more. */
  lemma LatestIs(past: seq<Record>, vm: string)
    ensures past == [] ==> Latest(past, vm) == Record(0, vm, Phase.Creating, "", "", map[])
    ensures forall rec :: Latest(past + [rec], vm) == rec
  {
  }
}
