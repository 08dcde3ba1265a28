/**
  Several stores that update lifecycle records at once: each loads a record outside any
  transaction, checks its change against what it loaded, and saves later, so that another store may
  have saved the same VM in between. Which histories follow the phase graph, exactly.
 */
module LifecycleUpdates {
  import opened LifecyclePhases
  import opened LifecycleVersions
  import opened LifecycleStore
  import opened Wrappers

  // ----- Loaded one phase, recorded behind another

  /** Whatever may follow the phase `loaded` may follow the phase `last`. */
  predicate Harmless(loaded: Phase, last: Phase) {
    || loaded == last
    || (loaded == Cleaning && last == CleanupFailed)
    || (loaded == CleanupFailed && last == Cleaning)
  }

  /** A later phase on a path ranks no lower, but for a retried cleanup. */
  predicate NotBefore(loaded: Phase, last: Phase) {
    Rank(last) >= Rank(loaded) || (loaded == CleanupFailed && last == Cleaning)
  }

  lemma PathNotBefore(path: seq<Phase>, k: nat)
    requires IsPhasePath(path) && k < |path|
    ensures NotBefore(path[k], path[|path| - 1])
  {
    RanksOfPath(path, k, |path| - 1);
  }

  lemma HarmlessExactly(loaded: Phase, last: Phase)
    requires IsKnown(loaded) && IsKnown(last) && NotBefore(loaded, last)
    ensures (forall to :: Permitted(loaded, to) ==> Permitted(last, to)) <==> Harmless(loaded, last)
    ensures Permitted(last, loaded) <==> Harmless(loaded, last)
  {
    assert Permitted(loaded, loaded);
  }

  lemma HarmlessPermits(loaded: Phase, last: Phase, to: Phase)
    requires Harmless(loaded, last) && Permitted(loaded, to)
    ensures Permitted(last, to)
  {
  }

  /** The record an update produces that has loaded what was the latest record after `basis` saves. */
  function Stale(past: seq<Record>, basis: nat, vm: string, c: Change): Option<Record>
    requires basis <= |past|
  {
    Changed(Latest(past[..basis], vm), c)
  }

  predicate HarmlessAt(past: seq<Record>, basis: nat, vm: string)
    requires basis <= |past|
  {
    Harmless(Latest(past[..basis], vm).phase, Latest(past, vm).phase)
  }

  /** One more record continues the path exactly if its phase is permitted after the last one, if there is one. */
  lemma OneMoreFollows(past: seq<Record>, from: nat, vm: string, rec: Record)
    requires FollowsFrom(past, from)
    ensures FollowsFrom(past + [rec], from)
            <==> if past == [] then IsKnown(rec.phase) else Permitted(Latest(past, vm).phase, rec.phase)
  {
    var more := past + [rec];
    var path, before := Phases(more[from..]), Phases(past[from..]);
    assert path == before + [rec.phase];
    if past == [] {
      OnePhase(rec.phase);
      assert path == [rec.phase];
    } else {
      var n := |before|;
      assert before[n - 1] == Latest(past, vm).phase == path[n - 1] && path[n] == rec.phase;
      assert forall i :: 0 <= i < n ==> path[i] == before[i];
      TransitionKnown(path[n - 1], path[n]);
      if Permitted(path[n - 1], path[n]) {
        assert IsPhasePath(path);
      }
    }
  }

  lemma OnePhase(p: Phase)
    ensures IsPhasePath([p]) <==> IsKnown(p)
  {
    assert [p][0] == p;
  }

  lemma TransitionKnown(from: Phase, to: Phase)
    ensures Permitted(from, to) ==> IsKnown(to)
  {
  }

  /**
    When a store records a change to an older record behind a history that follows the graph, it still does
    - for every change there is exactly if the phase loaded and the last phase are harmless;
    - for a change to anything but the phase, exactly if they are;
    - for a change of the phase exactly if the last phase permits it too.
   */
  lemma StaleFollowsExactly(past: seq<Record>, from: nat, basis: nat, vm: string)
    requires FollowsFrom(past, from) && basis <= |past| && (from < basis || from == 0)
    ensures HarmlessAt(past, basis, vm)
            <==> forall c :: Stale(past, basis, vm, c).Some? ==>
                               FollowsFrom(past + [Stale(past, basis, vm, c).value], from)
    ensures forall c :: Stale(past, basis, vm, c).Some? ==>
              (FollowsFrom(past + [Stale(past, basis, vm, c).value], from)
               <==> if c.SetPhase? then Permitted(Latest(past, vm).phase, c.phase) else HarmlessAt(past, basis, vm))
  {
    var loaded, last := Latest(past[..basis], vm).phase, Latest(past, vm).phase;
    LoadedAndLast(past, from, basis, vm);
    HarmlessExactly(loaded, last);
    forall c | Stale(past, basis, vm, c).Some?
      ensures FollowsFrom(past + [Stale(past, basis, vm, c).value], from)
              <==> if c.SetPhase? then Permitted(last, c.phase) else HarmlessAt(past, basis, vm)
      ensures c.SetPhase? ==> Permitted(loaded, c.phase)
    {
      OneMoreFollows(past, from, vm, Stale(past, basis, vm, c).value);
    }
    assert Stale(past, basis, vm, SetLastError("")).Some?;
  }

  lemma LoadedAndLast(past: seq<Record>, from: nat, basis: nat, vm: string)
    requires FollowsFrom(past, from) && basis <= |past| && (from < basis || from == 0)
    ensures var loaded, last := Latest(past[..basis], vm).phase, Latest(past, vm).phase;
            IsKnown(loaded) && IsKnown(last) && NotBefore(loaded, last)
  {
    if past != [] {
      var path := Phases(past[from..]);
      assert path[|path| - 1] == Latest(past, vm).phase;
      if basis > 0 {
        assert path[basis - 1 - from] == Latest(past[..basis], vm).phase;
        PathNotBefore(path, basis - 1 - from);
      }
    }
  }

  // ----- Runs of several stores

  /** What a store is about to save: the record of `Init`, or a change of a record loaded after `basis` saves. */
  datatype Job =
    | NoJob
    | Fresh(rec: Record)
    | Based(vm: string, basis: nat, c: Change, rec: Record)

  datatype Stores = Stores(s: State, jobs: seq<Job>)

  datatype Move =
    | Start(i: nat, vm: string)
    | Read(i: nat, vm: string, c: Change)
    | BeginTx(i: nat)
    | DrawTx(i: nat)
    | InsertTx(i: nat)
    | CommitTx(i: nat)
    | FailTx(i: nat)
    | GiveUp(i: nat)

  /** The step of the transaction, for the moves that are one. */
  function TxStep(u: Stores, m: Move): Option<Step> {
    match m
    case BeginTx(i) =>
      if i < |u.jobs| && !u.jobs[i].NoJob? then Some(Begin(i, u.jobs[i].rec)) else None
    case DrawTx(i) => Some(Draw(i))
    case InsertTx(i) => Some(Insert(i))
    case CommitTx(i) => Some(Commit(i))
    case FailTx(i) => Some(Fail(i))
    case _ => None
  }

  function FirstRecord(vm: string): Record { Record(1, vm, Creating, "", "", map[]) }

  ghost predicate CanMove(u: Stores, m: Move) {
    && m.i < |u.jobs| == |u.s.txs|
    && match m
       case Start(i, vm) => u.jobs[i].NoJob?
       case Read(i, vm, c) => u.jobs[i].NoJob? && Changed(Latest(History(u.s.committed, vm), vm), c).Some?
       case GiveUp(i) => u.s.txs[i].NoTx?
       case _ => TxStep(u, m).Some? && Enabled(u.s, TxStep(u, m).value)
  }

  ghost function Moved(u: Stores, m: Move): Stores
    requires CanMove(u, m)
  {
    match m
    case Start(i, vm) => u.(jobs := u.jobs[i := Fresh(FirstRecord(vm))])
    case Read(i, vm, c) =>
      var past := History(u.s.committed, vm);
      u.(jobs := u.jobs[i := Based(vm, |past|, c, Changed(Latest(past, vm), c).value)])
    case GiveUp(i) => u.(jobs := u.jobs[i := NoJob])
    case CommitTx(i) => Stores(After(u.s, Commit(i)), u.jobs[i := NoJob])
    case _ => u.(s := After(u.s, TxStep(u, m).value))
  }

  /** A transaction saves what its store's job says; a loaded record is a past one of its VM, changed. */
  ghost predicate JobInv(job: Job, x: Tx, committed: Tables) {
    && (!x.NoTx? ==> !job.NoJob? && x.rec == job.rec)
    && (job.Based? ==> BasedOn(History(committed, job.vm), job))
  }

  ghost predicate BasedOn(past: seq<Record>, job: Job)
    requires job.Based?
  {
    && job.rec.vmID == job.vm
    && job.basis <= |past|
    && Stale(past, job.basis, job.vm, job.c) == Some(job.rec)
  }

  ghost predicate StoresInv(u: Stores) {
    && Inv(u.s) && |u.jobs| == |u.s.txs|
    && forall i :: 0 <= i < |u.jobs| ==> JobInv(u.jobs[i], u.s.txs[i], u.s.committed)
  }

  lemma BasisStays(past: seq<Record>, past': seq<Record>, job: Job)
    requires job.Based? && past <= past' && BasedOn(past, job)
    ensures BasedOn(past', job)
  {
    assert past'[..job.basis] == past[..job.basis];
  }

  lemma JobsStay(u: Stores, committed: Tables, i: nat)
    requires StoresInv(u) && i < |u.jobs|
    requires forall vm :: History(u.s.committed, vm) <= History(committed, vm)
    ensures JobInv(u.jobs[i], u.s.txs[i], committed)
  {
    if u.jobs[i].Based? {
      BasisStays(History(u.s.committed, u.jobs[i].vm), History(committed, u.jobs[i].vm), u.jobs[i]);
    }
  }

  lemma TxMoveInv(u: Stores, m: Move)
    requires StoresInv(u) && CanMove(u, m) && TxStep(u, m).Some?
    ensures StoresInv(Moved(u, m))
    ensures Moved(u, m).s == After(u.s, TxStep(u, m).value)
  {
    var step, u' := TxStep(u, m).value, Moved(u, m);
    StepInv(u.s, step);
    forall vm ensures History(u.s.committed, vm) <= History(u'.s.committed, vm) {
      if step.Commit? { SavedAppends(u.s.committed, u.s.txs[step.i].rec, vm); }
    }
    forall i | 0 <= i < |u'.jobs| ensures JobInv(u'.jobs[i], u'.s.txs[i], u'.s.committed) {
      JobsStay(u, u'.s.committed, i);
    }
  }

  lemma ReadInv(u: Stores, m: Move)
    requires StoresInv(u) && CanMove(u, m) && m.Read?
    ensures StoresInv(Moved(u, m))
  {
    var past := History(u.s.committed, m.vm);
    LatestVM(u.s.committed, m.vm);
    assert past[..|past|] == past;
    assert BasedOn(past, Moved(u, m).jobs[m.i]);
  }

  lemma MoveInv(u: Stores, m: Move)
    requires StoresInv(u) && CanMove(u, m)
    ensures StoresInv(Moved(u, m))
    ensures Moved(u, m).s.committed
            == if m.CommitTx? then Saved(u.s.committed, u.jobs[m.i].rec) else u.s.committed
  {
    if TxStep(u, m).Some? {
      TxMoveInv(u, m);
      StepInv(u.s, TxStep(u, m).value);
    } else if m.Read? {
      ReadInv(u, m);
    }
  }

  ghost predicate Allowed(u: Stores, moves: seq<Move>)
    decreases |moves|
  {
    moves == [] || (CanMove(u, moves[0]) && Allowed(Moved(u, moves[0]), moves[1..]))
  }

  ghost function Final(u: Stores, moves: seq<Move>): Stores
    requires Allowed(u, moves)
    decreases |moves|
  {
    if moves == [] then u else Final(Moved(u, moves[0]), moves[1..])
  }

  lemma {:induction false} FinalInv(u: Stores, moves: seq<Move>)
    requires StoresInv(u) && Allowed(u, moves)
    ensures StoresInv(Final(u, moves))
    decreases |moves|
  {
    if moves != [] {
      MoveInv(u, moves[0]);
      FinalInv(Moved(u, moves[0]), moves[1..]);
    }
  }

  lemma {:induction false} FinalConcat(u: Stores, a: seq<Move>, b: seq<Move>)
    requires Allowed(u, a) && Allowed(Final(u, a), b)
    ensures Allowed(u, a + b) && Final(u, a + b) == Final(Final(u, a), b)
    decreases |a|
  {
    if a == [] {
      assert a + b == b;
    } else {
      assert (a + b)[1..] == a[1..] + b;
      FinalConcat(Moved(u, a[0]), a[1..], b);
    }
  }

  // ----- What the runs record

  /** If the move saves an update of this VM, what it loaded and what is now the latest record are harmless. */
  ghost predicate HarmlessMove(u: Stores, m: Move, vm: string)
    requires CanMove(u, m)
  {
    m.CommitTx? && u.jobs[m.i].Based? && u.jobs[m.i].vm == vm ==>
      var past := History(u.s.committed, vm);
      u.jobs[m.i].basis <= |past| && HarmlessAt(past, u.jobs[m.i].basis, vm)
  }

  ghost predicate AllHarmless(u: Stores, moves: seq<Move>, vm: string)
    requires Allowed(u, moves)
    decreases |moves|
  {
    moves == [] || (HarmlessMove(u, moves[0], vm) && AllHarmless(Moved(u, moves[0]), moves[1..], vm))
  }

  /** Nobody else has saved this VM since the record was loaded. */
  ghost predicate UndisturbedMove(u: Stores, m: Move, vm: string)
    requires CanMove(u, m)
  {
    m.CommitTx? && u.jobs[m.i].Based? && u.jobs[m.i].vm == vm ==>
      u.jobs[m.i].basis == |History(u.s.committed, vm)|
  }

  ghost predicate AllUndisturbed(u: Stores, moves: seq<Move>, vm: string)
    requires Allowed(u, moves)
    decreases |moves|
  {
    moves == [] || (UndisturbedMove(u, moves[0], vm) && AllUndisturbed(Moved(u, moves[0]), moves[1..], vm))
  }

  /** A move that saves the record of an `Init` of this VM starts its history anew. */
  ghost function OriginAfter(u: Stores, m: Move, vm: string, from: nat): nat
    requires CanMove(u, m)
  {
    if m.CommitTx? && u.jobs[m.i].Fresh? && u.jobs[m.i].rec.vmID == vm then |History(u.s.committed, vm)| else from
  }

  /** Where the history of the VM starts after the last `Init` of a run, or `from` if there is none. */
  ghost function Origin(u: Stores, moves: seq<Move>, vm: string, from: nat): nat
    requires Allowed(u, moves)
    decreases |moves|
  {
    if moves == [] then from else Origin(Moved(u, moves[0]), moves[1..], vm, OriginAfter(u, moves[0], vm, from))
  }

  /** The jobs of `Init` say creating. */
  ghost predicate FreshInv(u: Stores) {
    forall i :: 0 <= i < |u.jobs| && u.jobs[i].Fresh? ==> u.jobs[i].rec.phase == Creating
  }

  lemma MoveFresh(u: Stores, m: Move)
    requires FreshInv(u) && CanMove(u, m)
    ensures FreshInv(Moved(u, m))
  {
    var jobs := Moved(u, m).jobs;
    assert forall i :: 0 <= i < |jobs| && i != m.i ==> jobs[i] == u.jobs[i];
  }

  lemma MoveFollows(u: Stores, m: Move, vm: string, from: nat)
    requires StoresInv(u) && FreshInv(u) && CanMove(u, m) && HarmlessMove(u, m, vm)
    requires FollowsFrom(History(u.s.committed, vm), from)
    ensures FollowsFrom(History(Moved(u, m).s.committed, vm), OriginAfter(u, m, vm, from))
  {
    MovedHistory(u, m, vm);
    var past, past' := History(u.s.committed, vm), History(Moved(u, m).s.committed, vm);
    if m.CommitTx? && u.jobs[m.i].rec.vmID == vm {
      JobFollows(past, from, vm, u.jobs[m.i]);
      assert past' == past + [u.jobs[m.i].rec.(version := |past| + 1)];
    } else {
      assert past' == past;
    }
  }

  /** Only a commit adds to a history, and to that of its own VM only. */
  lemma MovedHistory(u: Stores, m: Move, vm: string)
    requires StoresInv(u) && CanMove(u, m)
    ensures var past := History(u.s.committed, vm);
            History(Moved(u, m).s.committed, vm)
            == past + if m.CommitTx? && u.jobs[m.i].rec.vmID == vm
                      then [u.jobs[m.i].rec.(version := |past| + 1)] else []
    ensures FreshInv(u) && HarmlessMove(u, m, vm) && m.CommitTx? && u.jobs[m.i].rec.vmID == vm ==>
              JobHarmless(History(u.s.committed, vm), vm, u.jobs[m.i])
  {
    MoveInv(u, m);
    if m.CommitTx? {
      CommittedJob(u, m);
      SavedAppends(u.s.committed, u.jobs[m.i].rec, vm);
    }
  }

  ghost predicate JobHarmless(past: seq<Record>, vm: string, job: Job) {
    match job
    case NoJob => false
    case Fresh(rec) => rec.phase == Creating
    case Based(_, basis, _, _) => job.vm == vm && BasedOn(past, job) && HarmlessAt(past, basis, vm)
  }

  lemma JobFollows(past: seq<Record>, from: nat, vm: string, job: Job)
    requires FollowsFrom(past, from)
    requires JobHarmless(past, vm, job)
    ensures FollowsFrom(past + [job.rec.(version := |past| + 1)], if job.Fresh? then |past| else from)
  {
    if job.Fresh? {
      FreshFollows(past, job.rec.(version := |past| + 1));
    } else {
      HarmlessFollows(past, from, job, |past| + 1);
    }
  }

  lemma CommittedJob(u: Stores, m: Move)
    requires StoresInv(u) && CanMove(u, m) && m.CommitTx?
    ensures !u.jobs[m.i].NoJob?
    ensures u.jobs[m.i].Based? ==> BasedOn(History(u.s.committed, u.jobs[m.i].vm), u.jobs[m.i])
  {
    assert JobInv(u.jobs[m.i], u.s.txs[m.i], u.s.committed);
  }

  lemma FreshFollows(past: seq<Record>, rec: Record)
    requires rec.phase == Creating
    ensures FollowsFrom(past + [rec], |past|)
  {
    assert Phases((past + [rec])[|past|..]) == [Creating];
  }

  lemma HarmlessFollows(past: seq<Record>, from: nat, job: Job, version: nat)
    requires FollowsFrom(past, from) && job.Based? && BasedOn(past, job) && HarmlessAt(past, job.basis, job.vm)
    ensures FollowsFrom(past + [job.rec.(version := version)], from)
  {
    var loaded, last := Latest(past[..job.basis], job.vm).phase, Latest(past, job.vm).phase;
    LastIsKnown(past, from, job.vm);
    assert Permitted(loaded, job.rec.phase);
    HarmlessPermits(loaded, last, job.rec.phase);
    TransitionKnown(last, job.rec.phase);
    OneMoreFollows(past, from, job.vm, job.rec.(version := version));
  }

  lemma LastIsKnown(past: seq<Record>, from: nat, vm: string)
    requires FollowsFrom(past, from)
    ensures IsKnown(Latest(past, vm).phase)
  {
    if past != [] {
      var path := Phases(past[from..]);
      assert path[|path| - 1] == Latest(past, vm).phase;
    }
  }

  /**
    Whatever the stores do, with saves of other VMs and failures anywhere in between: as long as every saved
    update of a VM was loaded at a phase harmless to the last one, its history since its last `Init` is a path
    of the phase graph.
   */
  lemma {:induction false} HarmlessRunsFollow(u: Stores, moves: seq<Move>, vm: string, from: nat)
    requires StoresInv(u) && FreshInv(u) && Allowed(u, moves) && AllHarmless(u, moves, vm)
    requires FollowsFrom(History(u.s.committed, vm), from)
    ensures FollowsFrom(History(Final(u, moves).s.committed, vm), Origin(u, moves, vm, from))
    decreases |moves|
  {
    if moves != [] {
      var m := moves[0];
      MoveInv(u, m);
      MoveFresh(u, m);
      MoveFollows(u, m, vm, from);
      HarmlessRunsFollow(Moved(u, m), moves[1..], vm, OriginAfter(u, m, vm, from));
    }
  }

  /** In particular as long as no update of the VM is saved behind another store's back. */
  lemma {:induction false} UndisturbedRunsFollow(u: Stores, moves: seq<Move>, vm: string, from: nat)
    requires StoresInv(u) && FreshInv(u) && Allowed(u, moves) && AllUndisturbed(u, moves, vm)
    requires FollowsFrom(History(u.s.committed, vm), from)
    ensures FollowsFrom(History(Final(u, moves).s.committed, vm), Origin(u, moves, vm, from))
  {
    UndisturbedIsHarmless(u, moves, vm);
    HarmlessRunsFollow(u, moves, vm, from);
  }

  lemma {:induction false} UndisturbedIsHarmless(u: Stores, moves: seq<Move>, vm: string)
    requires Allowed(u, moves) && AllUndisturbed(u, moves, vm)
    ensures AllHarmless(u, moves, vm)
    decreases |moves|
  {
    if moves != [] {
      var past := History(u.s.committed, vm);
      assert past[..|past|] == past;
      UndisturbedIsHarmless(Moved(u, moves[0]), moves[1..], vm);
    }
  }

  /** A commit in a run keeps the history on the graph exactly if the last phase permits what it records. */
  lemma CommitFollowsExactly(u: Stores, m: Move, vm: string, from: nat)
    requires StoresInv(u) && CanMove(u, m) && m.CommitTx? && u.jobs[m.i].Based? && u.jobs[m.i].vm == vm
    requires FollowsFrom(History(u.s.committed, vm), from) && (from < u.jobs[m.i].basis || from == 0)
    ensures var past, job := History(u.s.committed, vm), u.jobs[m.i];
            && job.basis <= |past|
            && (FollowsFrom(History(Moved(u, m).s.committed, vm), from)
                <==> if job.c.SetPhase? then Permitted(Latest(past, vm).phase, job.c.phase)
                     else HarmlessAt(past, job.basis, vm))
  {
    var past, job := History(u.s.committed, vm), u.jobs[m.i];
    CommittedJob(u, m);
    MovedHistory(u, m, vm);
    var past' := History(Moved(u, m).s.committed, vm);
    assert past' == past + [job.rec.(version := |past| + 1)];
    JobFollowsExactly(past, from, vm, job);
    assert FollowsFrom(past', from) <==> FollowsFrom(past + [job.rec.(version := |past| + 1)], from);
  }

  lemma JobFollowsExactly(past: seq<Record>, from: nat, vm: string, job: Job)
    requires FollowsFrom(past, from) && job.Based? && job.vm == vm && BasedOn(past, job)
    requires from < job.basis || from == 0
    ensures FollowsFrom(past + [job.rec.(version := |past| + 1)], from)
            <==> if job.c.SetPhase? then Permitted(Latest(past, vm).phase, job.c.phase)
                 else HarmlessAt(past, job.basis, vm)
  {
    StaleFollowsExactly(past, from, job.basis, vm);
    OneMoreFollows(past, from, vm, job.rec);
    OneMoreFollows(past, from, vm, job.rec.(version := |past| + 1));
  }

  // ----- A run that leaves the graph

  function Saves(i: nat): seq<Move> { [BeginTx(i), DrawTx(i), InsertTx(i), CommitTx(i)] }

  /** A store that has a job and finds the lock free can save. */
  lemma SavesRun(u: Stores, i: nat)
    requires StoresInv(u) && LockFree(u.s) && i < |u.jobs| && !u.jobs[i].NoJob?
    ensures Allowed(u, Saves(i))
    ensures Final(u, Saves(i))
         == Stores(State(Saved(u.s.committed, u.jobs[i].rec), u.s.txs), u.jobs[i := NoJob])
  {
    var a := Moved(u, BeginTx(i));
    var b := Moved(a, DrawTx(i));
    MoveInv(u, BeginTx(i));
    MoveInv(a, DrawTx(i));
    InsertNeverConflicts(b.s, i);
    var c := Moved(b, InsertTx(i));
    var d := Moved(c, CommitTx(i));
    assert d.s.txs == u.s.txs;
    FourMoves(u, BeginTx(i), DrawTx(i), InsertTx(i), CommitTx(i));
  }

  lemma FourMoves(u: Stores, m1: Move, m2: Move, m3: Move, m4: Move)
    requires CanMove(u, m1) && CanMove(Moved(u, m1), m2) && CanMove(Moved(Moved(u, m1), m2), m3)
    requires CanMove(Moved(Moved(Moved(u, m1), m2), m3), m4)
    ensures Allowed(u, [m1, m2, m3, m4])
    ensures Final(u, [m1, m2, m3, m4]) == Moved(Moved(Moved(Moved(u, m1), m2), m3), m4)
  {
    var u1 := Moved(u, m1);
    var u2 := Moved(u1, m2);
    var u3 := Moved(u2, m3);
    OneMove(u3, m4);
    OneMove(u2, m3);
    OneMove(u1, m2);
    OneMove(u, m1);
    FinalConcat(u2, [m3], [m4]);
    FinalConcat(u1, [m2], [m3] + [m4]);
    FinalConcat(u, [m1], [m2] + ([m3] + [m4]));
    assert [m1, m2, m3, m4] == [m1] + ([m2] + ([m3] + [m4]));
  }

  lemma OneMove(u: Stores, m: Move)
    requires CanMove(u, m)
    ensures Allowed(u, [m]) && Final(u, [m]) == Moved(u, m)
  {
    assert [m][1..] == [];
  }

  // ----- Two stores on an empty database

  ghost function TwoStores(): Stores { Stores(State(Tables(map[], map[]), [NoTx, NoTx]), [NoJob, NoJob]) }

  lemma EmptyStores()
    ensures StoresInv(TwoStores()) && FreshInv(TwoStores()) && LockFree(TwoStores().s)
    ensures forall vm :: History(TwoStores().s.committed, vm) == []
  {
    forall vm ensures History(TwoStores().s.committed, vm) == [] {
      assert RowsOf(TwoStores().s.committed, vm) == map[];
      HistoryIs(TwoStores().s.committed, vm);
    }
  }

  /** The moves can be made; they leave these jobs, no transaction, and this history of the VM. */
  ghost predicate Reached(moves: seq<Move>, jobs: seq<Job>, vm: string, past: seq<Record>) {
    && Allowed(TwoStores(), moves)
    && var u := Final(TwoStores(), moves);
       u.s.txs == [NoTx, NoTx] && u.jobs == jobs && History(u.s.committed, vm) == past
  }

  lemma ReadReached(moves: seq<Move>, jobs: seq<Job>, vm: string, past: seq<Record>, i: nat, c: Change)
    requires Reached(moves, jobs, vm, past) && i < |jobs| == 2 && jobs[i].NoJob?
    requires Changed(Latest(past, vm), c).Some?
    ensures Latest(past, vm).vmID == vm
    ensures Reached(moves + [Read(i, vm, c)], jobs[i := Based(vm, |past|, c, Changed(Latest(past, vm), c).value)], vm, past)
  {
    var u := Final(TwoStores(), moves);
    EmptyStores();
    FinalInv(TwoStores(), moves);
    LatestVM(u.s.committed, vm);
    OneMove(u, Read(i, vm, c));
    FinalConcat(TwoStores(), moves, [Read(i, vm, c)]);
  }

  lemma SaveReached(moves: seq<Move>, jobs: seq<Job>, vm: string, past: seq<Record>, i: nat)
    requires Reached(moves, jobs, vm, past) && i < |jobs| == 2 && !jobs[i].NoJob? && jobs[i].rec.vmID == vm
    ensures Reached(moves + Saves(i), jobs[i := NoJob], vm, past + [jobs[i].rec.(version := |past| + 1)])
  {
    var u := Final(TwoStores(), moves);
    EmptyStores();
    FinalInv(TwoStores(), moves);
    SavesRun(u, i);
    SavedAppends(u.s.committed, jobs[i].rec, vm);
    FinalConcat(TwoStores(), moves, Saves(i));
  }

  /** `Init` by the first store. */
  lemma InitReached(vm: string)
    ensures Reached([Start(0, vm)] + Saves(0), [NoJob, NoJob], vm, [FirstRecord(vm)])
  {
    EmptyStores();
    OneMove(TwoStores(), Start(0, vm));
    var jobs := [Fresh(FirstRecord(vm)), NoJob];
    assert Final(TwoStores(), [Start(0, vm)]).jobs == jobs;
    SaveReached([Start(0, vm)], jobs, vm, [], 0);
    assert jobs[0 := NoJob] == [NoJob, NoJob];
  }

  /** The first store takes the VM along a path of the phase graph, one undisturbed update after another. */
  function Walk(vm: string, path: seq<Phase>): seq<Move> {
    if path == [] then []
    else Walk(vm, path[..|path| - 1]) + ([Read(0, vm, SetPhase(path[|path| - 1]))] + Saves(0))
  }

  lemma StepReached(moves: seq<Move>, late: Job, vm: string, past: seq<Record>, to: Phase) returns (past': seq<Record>)
    requires Reached(moves, [NoJob, late], vm, past) && Permitted(Latest(past, vm).phase, to)
    ensures Reached(moves + ([Read(0, vm, SetPhase(to))] + Saves(0)), [NoJob, late], vm, past')
    ensures Phases(past') == Phases(past) + [to]
  {
    var c, rec := SetPhase(to), Latest(past, vm).(phase := to);
    ReadReached(moves, [NoJob, late], vm, past, 0, c);
    var jobs := [Based(vm, |past|, c, rec), late];
    assert [NoJob, late][0 := jobs[0]] == jobs;
    SaveReached(moves + [Read(0, vm, c)], jobs, vm, past, 0);
    assert jobs[0 := NoJob] == [NoJob, late];
    assert (moves + [Read(0, vm, c)]) + Saves(0) == moves + ([Read(0, vm, c)] + Saves(0));
    past' := past + [rec.(version := |past| + 1)];
    assert Phases(past') == Phases(past) + [to];
  }

  lemma {:induction false} WalkReached(moves: seq<Move>, late: Job, vm: string, past: seq<Record>, path: seq<Phase>)
    returns (past': seq<Record>)
    requires Reached(moves, [NoJob, late], vm, past) && past != [] && IsPhasePath(Phases(past) + path)
    ensures Reached(moves + Walk(vm, path), [NoJob, late], vm, past')
    ensures Phases(past') == Phases(past) + path
  {
    if path == [] {
      past' := past;
      assert moves + Walk(vm, path) == moves && Phases(past) + path == Phases(past);
    } else {
      var n := |path| - 1;
      assert Phases(past) + path == (Phases(past) + path[..n]) + [path[n]];
      PathPrefix(Phases(past) + path[..n], path[n]);
      var past1 := WalkReached(moves, late, vm, past, path[..n]);
      past' := WalkNext(moves, late, vm, past1, path);
    }
  }

  lemma WalkNext(moves: seq<Move>, late: Job, vm: string, past: seq<Record>, path: seq<Phase>)
    returns (past': seq<Record>)
    requires path != [] && past != []
    requires Reached(moves + Walk(vm, path[..|path| - 1]), [NoJob, late], vm, past)
    requires Permitted(Phases(past)[|past| - 1], path[|path| - 1])
    ensures Reached(moves + Walk(vm, path), [NoJob, late], vm, past')
    ensures Phases(past') == Phases(past) + [path[|path| - 1]]
  {
    var init, to := Walk(vm, path[..|path| - 1]), path[|path| - 1];
    assert Latest(past, vm).phase == Phases(past)[|past| - 1];
    past' := StepReached(moves + init, late, vm, past, to);
    assert (moves + init) + ([Read(0, vm, SetPhase(to))] + Saves(0)) == moves + Walk(vm, path);
  }

  lemma PathPrefix(init: seq<Phase>, last: Phase)
    requires IsPhasePath(init + [last]) && init != []
    ensures IsPhasePath(init) && Permitted(init[|init| - 1], last)
  {
    var whole, n := init + [last], |init|;
    assert forall i :: 0 <= i < n ==> init[i] == whole[i];
    assert Permitted(whole[n - 1], whole[n]);
  }

  /**
    Two stores on an empty database. The first creates a VM and takes it along any path of the phase graph; the
    second loads it on the way, after `k` saves, and saves its note of an error at the end. The history is the
    path and the phase loaded once more, and it follows the graph exactly if that phase and the last are harmless.
   */
  lemma StaleUpdateLeavesGraph(vm: string, path: seq<Phase>, k: nat) returns (moves: seq<Move>)
    requires IsPhasePath(path) && 0 < k <= |path| && path[0] == Creating
    ensures Allowed(TwoStores(), moves)
    ensures Phases(History(Final(TwoStores(), moves).s.committed, vm)) == path + [path[k - 1]]
    ensures IsPhasePath(path + [path[k - 1]]) <==> Harmless(path[k - 1], path[|path| - 1])
  {
    RepeatedPhase(path, k - 1);
    var before, past := CreationReached(vm, path, k);
    assert path[..k] + path[k..] == path;
    assert Phases(past)[k - 1] == Latest(past, vm).phase;
    moves := OvertakenReached(before, vm, past, path[k..]);
  }

  lemma CreationReached(vm: string, path: seq<Phase>, k: nat) returns (moves: seq<Move>, past: seq<Record>)
    requires IsPhasePath(path) && 0 < k <= |path| && path[0] == Creating
    ensures Reached(moves, [NoJob, NoJob], vm, past) && Phases(past) == path[..k]
  {
    InitReached(vm);
    var init := [Start(0, vm)] + Saves(0);
    assert [Creating] + path[1..k] == path[..k] && Phases([FirstRecord(vm)]) == [Creating];
    past := WalkReached(init, NoJob, vm, [FirstRecord(vm)], path[1..k]);
    moves := init + Walk(vm, path[1..k]);
  }

  lemma OvertakenReached(before: seq<Move>, vm: string, past: seq<Record>, rest: seq<Phase>) returns (moves: seq<Move>)
    requires Reached(before, [NoJob, NoJob], vm, past) && past != [] && IsPhasePath(Phases(past) + rest)
    ensures Allowed(TwoStores(), moves)
    ensures Phases(History(Final(TwoStores(), moves).s.committed, vm))
         == (Phases(past) + rest) + [Latest(past, vm).phase]
  {
    var c := SetLastError("late");
    var late := Based(vm, |past|, c, Changed(Latest(past, vm), c).value);
    ReadReached(before, [NoJob, NoJob], vm, past, 1, c);
    assert [NoJob, NoJob][1 := late] == [NoJob, late];
    moves := before + [Read(1, vm, c)];
    var past1 := WalkReached(moves, late, vm, past, rest);
    moves := moves + Walk(vm, rest);
    SaveReached(moves, [NoJob, late], vm, past1, 1);
    moves := moves + Saves(1);
    var last := late.rec.(version := |past1| + 1);
    assert Phases(past1 + [last]) == Phases(past1) + [last.phase];
  }

  lemma RepeatedPhase(path: seq<Phase>, k: nat)
    requires IsPhasePath(path) && k < |path|
    ensures IsPhasePath(path + [path[k]]) <==> Harmless(path[k], path[|path| - 1])
  {
    var n, more := |path|, path + [path[k]];
    PathNotBefore(path, k);
    HarmlessExactly(path[k], path[n - 1]);
    assert more[n - 1] == path[n - 1] && more[n] == path[k];
    assert forall i :: 0 <= i < n ==> more[i] == path[i];
  }

  /** For one: a VM that was running when an error was noted, and stopping when the note was saved. */
  lemma RunsAfterStopping(vm: string) returns (moves: seq<Move>)
    ensures Allowed(TwoStores(), moves)
    ensures Phases(History(Final(TwoStores(), moves).s.committed, vm))
         == [Creating, Created, Starting, Running, Stopping, Running]
    ensures !IsPhasePath([Creating, Created, Starting, Running, Stopping, Running])
  {
    var path := [Phase.Creating, Phase.Created, Starting, Running, Stopping];
    assert IsPhasePath(path);
    moves := StaleUpdateLeavesGraph(vm, path, 4);
    assert path + [Running] == [Creating, Phase.Created, Starting, Running, Stopping, Running];
  }
}
