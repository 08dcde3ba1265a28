/**
  Versioned lifecycle records written by several stores at once: every save is a transaction that
  takes the write lock, draws the next version, inserts the row and commits, and may fail and be
  rolled back anywhere.
 */
module LifecycleVersions {
  import opened LifecyclePhases
  import opened Wrappers

  datatype Record = Record(
    version: nat, vmID: string, phase: Phase, lastError: string, rootfs: string, cleanup: map<string, bool>)

  type Rows = map<nat, Record>

  /** The tables `vm_lifecycle`, by VM and version, and `vm_lifecycle_head`. */
  datatype Tables = Tables(rows: map<string, Rows>, head: map<string, nat>)

  function RowsOf(t: Tables, vm: string): Rows {
    if vm in t.rows then t.rows[vm] else map[]
  }

  /** The versions of one VM are 1 to n, with no gap. */
  ghost predicate Contiguous(rows: Rows) {
    forall v: nat :: v in rows <==> 1 <= v <= |rows|
  }

  ghost predicate TablesInv(t: Tables) {
    && (forall vm :: Contiguous(RowsOf(t, vm)))
    && (forall vm :: vm in t.head ==> t.head[vm] == |RowsOf(t, vm)|)
    && (forall vm, v :: vm in t.rows && v in t.rows[vm] ==> t.rows[vm][v].version == v && t.rows[vm][v].vmID == vm)
  }

  /** SQL's `COALESCE(MAX(version), 0)`. */
  ghost function MaxVersion(versions: set<nat>): (m: nat)
    ensures forall v :: v in versions ==> v <= m
    ensures if versions == {} then m == 0 else m in versions
  {
    if versions == {} then 0
    else
      var v :| v in versions;
      var m := MaxVersion(versions - {v});
      assert versions == (versions - {v}) + {v};
      if v > m then v else m
  }

  lemma MaxOfContiguous(rows: Rows)
    requires Contiguous(rows)
    ensures MaxVersion(rows.Keys) == |rows|
  {
    if rows.Keys == {} {
      assert |rows.Keys| == |rows|;
    } else {
      assert |rows| in rows by { assert |rows.Keys| == |rows|; }
    }
  }

  /** `nextLifecycleVersion`: counts the head up, or starts it behind the rows already there. */
  ghost function NextVersion(t: Tables, vm: string): nat {
    if vm in t.head then t.head[vm] + 1 else MaxVersion(RowsOf(t, vm).Keys) + 1
  }

  ghost function WithHead(t: Tables, vm: string): Tables {
    t.(head := t.head[vm := NextVersion(t, vm)])
  }

  function WithRow(t: Tables, vm: string, v: nat, rec: Record): Tables {
    t.(rows := t.rows[vm := RowsOf(t, vm)[v := rec.(version := v, vmID := vm)]])
  }

  lemma NextIsCountPlusOne(t: Tables, vm: string)
    requires TablesInv(t)
    ensures NextVersion(t, vm) == |RowsOf(t, vm)| + 1
    ensures NextVersion(t, vm) !in RowsOf(t, vm)
  {
    assert Contiguous(RowsOf(t, vm));
    MaxOfContiguous(RowsOf(t, vm));
  }

  /** What a committed save does to the tables. */
  ghost function Saved(t: Tables, rec: Record): Tables {
    WithRow(WithHead(t, rec.vmID), rec.vmID, NextVersion(t, rec.vmID), rec)
  }

  /** A save touches the rows and the head of one VM. */
  lemma SavedRows(t: Tables, rec: Record, other: string)
    requires TablesInv(t)
    ensures var t', n := Saved(t, rec), |RowsOf(t, rec.vmID)| + 1;
            && (other != rec.vmID ==> RowsOf(t', other) == RowsOf(t, other))
            && RowsOf(t', rec.vmID) == RowsOf(t, rec.vmID)[n := rec.(version := n)]
            && t'.head == t.head[rec.vmID := n]
  {
    NextIsCountPlusOne(t, rec.vmID);
  }

  lemma SavedInv(t: Tables, rec: Record)
    requires TablesInv(t)
    ensures TablesInv(Saved(t, rec))
    ensures |RowsOf(Saved(t, rec), rec.vmID)| == |RowsOf(t, rec.vmID)| + 1
  {
    var vm, t' := rec.vmID, Saved(t, rec);
    var n := |RowsOf(t, vm)| + 1;
    SavedRows(t, rec, vm);
    AppendRow(RowsOf(t, vm), rec.(version := n));
    forall other ensures Contiguous(RowsOf(t', other)) && (other in t'.head ==> t'.head[other] == |RowsOf(t', other)|) {
      SavedRows(t, rec, other);
      assert Contiguous(RowsOf(t, other));
    }
    SavedNames(t, rec);
  }

  lemma SavedNames(t: Tables, rec: Record)
    requires TablesInv(t)
    ensures var t' := Saved(t, rec);
            forall vm, v :: vm in t'.rows && v in t'.rows[vm] ==> t'.rows[vm][v].version == v && t'.rows[vm][v].vmID == vm
  {
    var t' := Saved(t, rec);
    forall vm, v | vm in t'.rows && v in t'.rows[vm]
      ensures t'.rows[vm][v].version == v && t'.rows[vm][v].vmID == vm
    {
      SavedRows(t, rec, vm);
      assert t'.rows[vm] == RowsOf(t', vm);
    }
  }

  lemma AppendRow(rows: Rows, rec: Record)
    requires Contiguous(rows)
    ensures var rows' := rows[|rows| + 1 := rec];
            |rows'| == |rows| + 1 && Contiguous(rows')
  {
    var n := |rows| + 1;
    var rows' := rows[n := rec];
    assert n !in rows;
    assert rows'.Keys == rows.Keys + {n};
    assert |rows'| == |rows'.Keys| == |rows.Keys| + 1 == |rows| + 1;
    forall v: nat ensures v in rows' <==> 1 <= v <= n { assert v in rows <==> 1 <= v <= |rows|; }
  }

  // ----- What is read back

  /** The rows up to a version, in order. */
  function UpTo(rows: Rows, v: nat): seq<Record> {
    (if v == 0 then [] else UpTo(rows, v - 1)) + (if v in rows then [rows[v]] else [])
  }

  /** `ORDER BY version ASC`. */
  ghost function History(t: Tables, vm: string): seq<Record> {
    UpTo(RowsOf(t, vm), MaxVersion(RowsOf(t, vm).Keys))
  }

  lemma {:induction false} UpToContiguous(rows: Rows, v: nat)
    requires Contiguous(rows) && v <= |rows|
    ensures |UpTo(rows, v)| == v
    ensures forall i :: 0 <= i < v ==> i + 1 in rows && UpTo(rows, v)[i] == rows[i + 1]
  {
    if v > 0 { UpToContiguous(rows, v - 1); }
  }

  lemma HistoryOfContiguous(t: Tables, vm: string)
    requires Contiguous(RowsOf(t, vm))
    ensures var rows, h := RowsOf(t, vm), History(t, vm);
            |h| == |rows| && forall i :: 0 <= i < |h| ==> i + 1 in rows && h[i] == rows[i + 1]
  {
    var rows := RowsOf(t, vm);
    MaxOfContiguous(rows);
    UpToContiguous(rows, |rows|);
  }

  lemma HistoryIs(t: Tables, vm: string)
    requires TablesInv(t)
    ensures var rows, h := RowsOf(t, vm), History(t, vm);
            && Contiguous(rows) && |h| == |rows|
            && forall i :: 0 <= i < |h| ==> i + 1 in rows && h[i] == rows[i + 1]
  {
    assert Contiguous(RowsOf(t, vm));
    HistoryOfContiguous(t, vm);
  }

  /** The last record by version; for a VM without one, a record that says `creating`. */
  ghost function Load(t: Tables, vm: string): Record {
    var rows := RowsOf(t, vm);
    if rows.Keys == {} then Record(0, vm, Creating, "", "", map[]) else rows[MaxVersion(rows.Keys)]
  }

  /** The history is versions 1 to n in order, and what is loaded is the last of it. */
  lemma LoadIsLastOfHistory(t: Tables, vm: string)
    requires TablesInv(t)
    ensures var h := History(t, vm);
            && (forall i :: 0 <= i < |h| ==> h[i].version == i + 1)
            && (h != [] ==> Load(t, vm) == h[|h| - 1])
            && Load(t, vm).version == |h|
            && NextVersion(t, vm) == |h| + 1
  {
    var rows := RowsOf(t, vm);
    HistoryIs(t, vm);
    MaxOfContiguous(rows);
    NextIsCountPlusOne(t, vm);
    assert |rows.Keys| == |rows|;
    assert forall v :: v in rows ==> rows[v].version == v;
  }

  /** A save appends one record to the history of its VM and leaves all others alone. */
  lemma SavedAppends(t: Tables, rec: Record, vm: string)
    requires TablesInv(t)
    ensures TablesInv(Saved(t, rec))
    ensures History(Saved(t, rec), vm)
            == History(t, vm) + if vm == rec.vmID then [rec.(version := |History(t, vm)| + 1)] else []
  {
    SavedInv(t, rec);
    SavedHistory(t, rec, vm);
  }

  lemma SavedHistory(t: Tables, rec: Record, vm: string)
    requires TablesInv(t)
    ensures History(Saved(t, rec), vm)
            == History(t, vm) + if vm == rec.vmID then [rec.(version := |History(t, vm)| + 1)] else []
  {
    SavedRows(t, rec, vm);
    if vm == rec.vmID {
      assert Contiguous(RowsOf(t, vm));
      GrownHistory(t, Saved(t, rec), vm, rec.(version := |RowsOf(t, vm)| + 1));
    }
  }

  lemma GrownHistory(t: Tables, t': Tables, vm: string, rec: Record)
    requires Contiguous(RowsOf(t, vm))
    requires RowsOf(t', vm) == RowsOf(t, vm)[|RowsOf(t, vm)| + 1 := rec]
    ensures |History(t, vm)| == |RowsOf(t, vm)|
    ensures History(t', vm) == History(t, vm) + [rec]
  {
    var n := |RowsOf(t, vm)|;
    AppendRow(RowsOf(t, vm), rec);
    HistoryOfContiguous(t, vm);
    HistoryOfContiguous(t', vm);
    assert History(t', vm)[n] == rec;
    assert forall i :: 0 <= i < n ==> History(t', vm)[i] == History(t, vm)[i];
  }

  // ----- Several stores

  /** Where one store's transaction is; `t` is what the transaction sees. */
  datatype Tx =
    | NoTx
    | Begun(rec: Record, t: Tables)
    | Drawn(rec: Record, t: Tables, v: nat)
    | Inserted(rec: Record, t: Tables, v: nat)

  datatype State = State(committed: Tables, txs: seq<Tx>)

  datatype Step =
    | Begin(i: nat, rec: Record) // BEGIN IMMEDIATE
    | Draw(i: nat)
    | Insert(i: nat)
    | Commit(i: nat)
    | Fail(i: nat)               // any error, or a crash: ROLLBACK

  /** SQLite admits one writer at a time; a store that finds the lock taken is busy and tries again. */
  ghost predicate LockFree(s: State) {
    forall i :: 0 <= i < |s.txs| ==> s.txs[i].NoTx?
  }

  ghost predicate Enabled(s: State, step: Step) {
    && step.i < |s.txs|
    && match step
       case Begin(i, rec) => LockFree(s)
       case Draw(i) => s.txs[i].Begun?
       case Insert(i) => s.txs[i].Drawn? && s.txs[i].v !in RowsOf(s.txs[i].t, s.txs[i].rec.vmID) // the primary key
       case Commit(i) => s.txs[i].Inserted?
       case Fail(i) => !s.txs[i].NoTx?
  }

  ghost function After(s: State, step: Step): State
    requires Enabled(s, step)
  {
    match step
    case Begin(i, rec) => s.(txs := s.txs[i := Begun(rec, s.committed)])
    case Draw(i) =>
      var x := s.txs[i];
      s.(txs := s.txs[i := Drawn(x.rec, WithHead(x.t, x.rec.vmID), NextVersion(x.t, x.rec.vmID))])
    case Insert(i) =>
      var x := s.txs[i];
      s.(txs := s.txs[i := Inserted(x.rec, WithRow(x.t, x.rec.vmID, x.v, x.rec), x.v)])
    case Commit(i) => s.(committed := s.txs[i].t, txs := s.txs[i := NoTx])
    case Fail(i) => s.(txs := s.txs[i := NoTx])
  }

  /** A transaction works on the committed tables: nobody else commits meanwhile. */
  ghost predicate TxInv(x: Tx, committed: Tables) {
    match x
    case NoTx => true
    case Begun(rec, t) => t == committed
    case Drawn(rec, t, v) => v == NextVersion(committed, rec.vmID) && t == WithHead(committed, rec.vmID)
    case Inserted(rec, t, v) => t == Saved(committed, rec)
  }

  ghost predicate Inv(s: State) {
    && TablesInv(s.committed)
    && (forall i :: 0 <= i < |s.txs| ==> TxInv(s.txs[i], s.committed))
    && (forall i, j :: 0 <= i < j < |s.txs| ==> s.txs[i].NoTx? || s.txs[j].NoTx?)
  }

  lemma StepInv(s: State, step: Step)
    requires Inv(s) && Enabled(s, step)
    ensures Inv(After(s, step))
    ensures After(s, step).committed == if step.Commit? then Saved(s.committed, s.txs[step.i].rec) else s.committed
  {
    var s' := After(s, step);
    if step.Commit? {
      CommitInv(s, step.i);
    } else {
      forall i | 0 <= i < |s'.txs| ensures TxInv(s'.txs[i], s'.committed) {
        assert TxInv(s.txs[i], s.committed);
      }
    }
  }

  lemma CommitInv(s: State, i: nat)
    requires Inv(s) && Enabled(s, Commit(i))
    ensures Inv(After(s, Commit(i)))
    ensures After(s, Commit(i)).committed == Saved(s.committed, s.txs[i].rec)
  {
    assert TxInv(s.txs[i], s.committed);
    SavedInv(s.committed, s.txs[i].rec);
    var s' := After(s, Commit(i));
    assert forall j :: 0 <= j < |s'.txs| ==> s'.txs[j].NoTx?;
  }

  /** An insert never meets a version that is taken. */
  lemma InsertNeverConflicts(s: State, i: nat)
    requires Inv(s) && i < |s.txs| && s.txs[i].Drawn?
    ensures Enabled(s, Insert(i))
  {
    NextIsCountPlusOne(s.committed, s.txs[i].rec.vmID);
  }

  ghost predicate Next(s: State, s': State) {
    exists step :: Enabled(s, step) && s' == After(s, step)
  }

  ghost predicate StepAt(run: seq<State>, i: nat)
    requires i < |run| - 1
  {
    Next(run[i], run[i + 1])
  }

  ghost predicate IsRun(run: seq<State>) {
    && |run| > 0
    && TablesInv(run[0].committed) && LockFree(run[0])
    && forall i :: 0 <= i < |run| - 1 ==> StepAt(run, i)
  }

  lemma NextKeeps(s: State, s': State, vm: string)
    requires Inv(s) && Next(s, s')
    ensures Inv(s')
    ensures History(s.committed, vm) <= History(s'.committed, vm)
  {
    var step :| Enabled(s, step) && s' == After(s, step);
    StepInv(s, step);
    if step.Commit? {
      SavedAppends(s.committed, s.txs[step.i].rec, vm);
    }
  }

  /**
    From any tables with contiguous versions, head rows or not, every interleaving of saves, failures and
    retries keeps every VM's versions at 1 to n.
   */
  lemma {:induction false} RunInv(run: seq<State>, i: nat)
    requires IsRun(run) && i < |run|
    ensures Inv(run[i])
  {
    if i > 0 {
      RunInv(run, i - 1);
      assert StepAt(run, i - 1);
      NextKeeps(run[i - 1], run[i], "");
    }
  }

  lemma PrefixTransitive(a: seq<Record>, b: seq<Record>, c: seq<Record>)
    requires a <= b <= c
    ensures a <= c
  {
  }

  /** The history of a VM only ever grows at its end, whoever saves. */
  lemma HistoriesOnlyGrow(run: seq<State>, i: nat, j: nat, vm: string)
    requires IsRun(run) && i <= j < |run|
    ensures History(run[i].committed, vm) <= History(run[j].committed, vm)
  {
    forall k | 0 <= k < |run| - 1 ensures GrowsAt(run, k, vm) {
      RunInv(run, k);
      assert StepAt(run, k);
      NextKeeps(run[k], run[k + 1], vm);
    }
    GrowsThroughout(run, i, j, vm);
  }

  ghost predicate GrowsAt(run: seq<State>, k: nat, vm: string)
    requires k < |run| - 1
  {
    History(run[k].committed, vm) <= History(run[k + 1].committed, vm)
  }

  lemma {:induction false} GrowsThroughout(run: seq<State>, i: nat, j: nat, vm: string)
    requires i <= j < |run| && forall k :: 0 <= k < |run| - 1 ==> GrowsAt(run, k, vm)
    ensures History(run[i].committed, vm) <= History(run[j].committed, vm)
  {
    if i < j {
      GrowsThroughout(run, i, j - 1, vm);
      assert GrowsAt(run, j - 1, vm);
      PrefixTransitive(History(run[i].committed, vm), History(run[j - 1].committed, vm), History(run[j].committed, vm));
    }
  }
}
