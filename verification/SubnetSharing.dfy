/**
  Several allocators on one database. The mutex of an allocator keeps its own calls apart, but not
  those of another process: look-up, scan and insert interleave, and only the table's constraints -
  `vm_id` the primary key, `octet` unique - stand between two VMs and one subnet.
 */
module SubnetSharing {
  import opened Subnets
  import opened Wrappers

  /** Where one allocator is in `Allocate`. */
  datatype Call =
    | Free                                   // no call in progress
    | Unknown(vmID: string)                  // the look-up found no row
    | Scanned(vmID: string, octet: nat)      // the scan found this octet free
    | Returned(vmID: string, result: Allocation)

  /** `scans` is history: the table each allocator saw when it last scanned. */
  datatype State = State(rows: Table, calls: seq<Call>, scans: seq<Table>)

  datatype Step =
    | LookUp(i: nat, vmID: string)
    | Scan(i: nat)
    | Insert(i: nat, fault: bool)
    | Reset(i: nat)                          // the caller takes the result
    | Release(vmID: string)
    | Cleanup(existing: set<string>)

  /** The first octet of the range, from `o` on, that is not in use. */
  function FirstFree(used: set<nat>, o: nat): Option<nat>
    decreases MAX_OCTET + 1 - o
  {
    if o > MAX_OCTET then None else if o !in used then Some(o) else FirstFree(used, o + 1)
  }

  lemma {:induction false} FirstFreeMeans(used: set<nat>, o: nat)
    requires o <= MAX_OCTET + 1
    ensures match FirstFree(used, o)
            case None => forall p: nat :: o <= p <= MAX_OCTET ==> p in used
            case Some(f) => o <= f <= MAX_OCTET && f !in used && forall p: nat :: o <= p < f ==> p in used
    decreases MAX_OCTET + 1 - o
  {
    if o <= MAX_OCTET && o in used { FirstFreeMeans(used, o + 1); }
  }

  /** The row violates neither constraint of the table. */
  predicate Admissible(rows: Table, vmID: string, octet: nat) {
    vmID !in rows && octet !in Octets(rows)
  }

  predicate Enabled(s: State, step: Step) {
    match step
    case LookUp(i, _) => i < |s.calls| && s.calls[i].Free?
    case Scan(i) => i < |s.calls| && s.calls[i].Unknown?
    case Insert(i, _) => i < |s.calls| && s.calls[i].Scanned?
    case Reset(i) => i < |s.calls| && s.calls[i].Returned?
    case Release(_) => true
    case Cleanup(_) => true
  }

  function After(s: State, step: Step): State
    requires Enabled(s, step) && |s.scans| == |s.calls|
  {
    match step
    case LookUp(i, vmID) =>
      s.(calls := s.calls[i := if vmID in s.rows then Returned(vmID, Allocated(s.rows[vmID])) else Unknown(vmID)])
    case Scan(i) =>
      var vmID := s.calls[i].vmID;
      var call := match FirstFree(Octets(s.rows), MIN_OCTET)
                  case None => Returned(vmID, Exhausted)
                  case Some(octet) => Scanned(vmID, octet);
      s.(calls := s.calls[i := call], scans := s.scans[i := s.rows])
    case Insert(i, fault) =>
      var vmID, octet := s.calls[i].vmID, s.calls[i].octet;
      if fault || !Admissible(s.rows, vmID, octet) then s.(calls := s.calls[i := Returned(vmID, SaveFailed)])
      else s.(rows := s.rows[vmID := InfoFor(octet, vmID)],
              calls := s.calls[i := Returned(vmID, Allocated(InfoFor(octet, vmID)))])
    case Reset(i) => s.(calls := s.calls[i := Free])
    case Release(vmID) => s.(rows := s.rows - {vmID})
    case Cleanup(existing) => s.(rows := map vm | vm in s.rows && vm in existing :: s.rows[vm])
  }

  /** What an allocator knows from its own scan, whatever has happened to the table since. */
  ghost predicate CallInv(call: Call, scan: Table) {
    match call
    case Scanned(_, octet) => IsFirstFree(scan, octet)
    case Returned(vmID, Exhausted) => TableInv(scan) && |scan| == CAPACITY
    case Returned(vmID, Allocated(info)) => MIN_OCTET <= info.octet <= MAX_OCTET && info == InfoFor(info.octet, vmID)
    case _ => true
  }

  ghost predicate IsFirstFree(rows: Table, octet: nat) {
    && MIN_OCTET <= octet <= MAX_OCTET && octet !in Octets(rows)
    && forall o: nat :: MIN_OCTET <= o < octet ==> o in Octets(rows)
  }

  ghost predicate Inv(s: State) {
    && |s.scans| == |s.calls|
    && TableInv(s.rows)
    && forall i :: 0 <= i < |s.calls| ==> CallInv(s.calls[i], s.scans[i])
  }

  lemma InsertKeepsTable(rows: Table, vmID: string, octet: nat)
    requires TableInv(rows) && MIN_OCTET <= octet <= MAX_OCTET && Admissible(rows, vmID, octet)
    ensures TableInv(rows[vmID := InfoFor(octet, vmID)])
  {
    assert forall vm :: vm in rows ==> rows[vm].octet in Octets(rows);
  }

  lemma ScanInv(s: State, i: nat)
    requires Inv(s) && Enabled(s, Scan(i))
    ensures CallInv(After(s, Scan(i)).calls[i], s.rows)
  {
    FirstFreeMeans(Octets(s.rows), MIN_OCTET);
    if FirstFree(Octets(s.rows), MIN_OCTET).None? {
      assert AllInUse(s.rows);
      FullExactly(s.rows);
    }
  }

  /** Every step keeps octets in range and no two VMs on one. */
  lemma StepInv(s: State, step: Step)
    requires Inv(s) && Enabled(s, step)
    ensures Inv(After(s, step))
  {
    StepTable(s, step);
    var s' := After(s, step);
    forall i | 0 <= i < |s'.calls| ensures CallInv(s'.calls[i], s'.scans[i]) {
      assert CallInv(s.calls[i], s.scans[i]);
      StepCall(s, step, i);
    }
  }

  lemma StepTable(s: State, step: Step)
    requires Inv(s) && Enabled(s, step)
    ensures TableInv(After(s, step).rows)
  {
    if step.Insert? && !step.fault && Admissible(s.rows, s.calls[step.i].vmID, s.calls[step.i].octet) {
      InsertKeepsTable(s.rows, s.calls[step.i].vmID, s.calls[step.i].octet);
    }
  }

  lemma StepCall(s: State, step: Step, i: nat)
    requires Inv(s) && Enabled(s, step) && i < |s.calls|
    ensures CallInv(After(s, step).calls[i], After(s, step).scans[i])
  {
    assert CallInv(s.calls[i], s.scans[i]);
    if step == Scan(i) { ScanInv(s, i); }
  }

  ghost predicate Next(s: State, s': State) {
    |s.scans| == |s.calls| && exists step :: Enabled(s, step) && s' == After(s, step)
  }

  ghost predicate StepAt(run: seq<State>, i: nat)
    requires i < |run| - 1
  {
    Next(run[i], run[i + 1])
  }

  ghost predicate IsRun(run: seq<State>) {
    && |run| > 0
    && TableInv(run[0].rows) && |run[0].scans| == |run[0].calls|
    && (forall i :: 0 <= i < |run[0].calls| ==> run[0].calls[i].Free?)
    && forall i :: 0 <= i < |run| - 1 ==> StepAt(run, i)
  }

  lemma NextInv(s: State, s': State)
    requires Inv(s) && Next(s, s')
    ensures Inv(s')
  {
    var step :| Enabled(s, step) && s' == After(s, step);
    StepInv(s, step);
  }

  lemma {:induction false} RunInv(run: seq<State>, j: nat)
    requires IsRun(run) && j < |run|
    ensures Inv(run[j])
  {
    if j > 0 {
      RunInv(run, j - 1);
      assert StepAt(run, j - 1);
      NextInv(run[j - 1], run[j]);
    }
  }

  /** In no interleaving do two VMs get one address, however many allocators scan the table at once. */
  lemma NeverShared(run: seq<State>, j: nat, v: string, w: string)
    requires IsRun(run) && j < |run| && v in run[j].rows && w in run[j].rows && v != w
    ensures run[j].rows[v].octet != run[j].rows[w].octet
    ensures run[j].rows[v].gatewayIP != run[j].rows[w].gatewayIP && run[j].rows[v].subnet != run[j].rows[w].subnet
  {
    RunInv(run, j);
    AddressesAreDistinct(run[j].rows, v, w);
  }

  /** A pool is reported exhausted only if 155 VMs held a subnet when it was scanned. */
  lemma ExhaustedWasFull(run: seq<State>, j: nat, i: nat)
    requires IsRun(run) && j < |run| && i < |run[j].calls|
    requires run[j].calls[i].Returned? && run[j].calls[i].result.Exhausted?
    ensures |run[j].scans| == |run[j].calls| && |run[j].scans[i]| == CAPACITY
  {
    RunInv(run, j);
  }

  /** Some VM holds the octet that did not hold it when the table was scanned. */
  ghost predicate TakenSince(scan: Table, rows: Table, octet: nat) {
    exists v :: v in rows && rows[v].octet == octet && !(v in scan && scan[v].octet == octet)
  }

  /**
    Without an I/O fault the insert of an allocator fails exactly if its VM has a row by now, or some VM holds
    the octet that did not hold it at the scan. If it goes through, the VM gets the lowest octet that was free.
   */
  lemma InsertFailsExactly(run: seq<State>, j: nat, i: nat)
    requires IsRun(run) && j < |run| && i < |run[j].calls| && run[j].calls[i].Scanned?
    ensures var s, call := run[j], run[j].calls[i];
            && |s.scans| == |s.calls|
            && IsFirstFree(s.scans[i], call.octet)
            && var s' := After(s, Insert(i, false));
               if call.vmID in s.rows || TakenSince(s.scans[i], s.rows, call.octet)
               then s'.rows == s.rows && s'.calls[i] == Returned(call.vmID, SaveFailed)
               else s'.rows == s.rows[call.vmID := InfoFor(call.octet, call.vmID)]
                    && s'.calls[i] == Returned(call.vmID, Allocated(InfoFor(call.octet, call.vmID)))
  {
    RunInv(run, j);
    assert CallInv(run[j].calls[i], run[j].scans[i]);
    TakenExactly(run[j].scans[i], run[j].rows, run[j].calls[i].octet);
  }

  lemma TakenExactly(scan: Table, rows: Table, octet: nat)
    requires octet !in Octets(scan)
    ensures octet in Octets(rows) <==> TakenSince(scan, rows, octet)
  {
    if octet in Octets(rows) {
      var v :| v in rows && rows[v].octet == octet;
      assert v in scan ==> scan[v].octet in Octets(scan);
    }
  }

  /** `k` is the step at which allocator `i`, which has scanned in state `j`, did so. */
  ghost predicate ScannedAt(run: seq<State>, k: nat, j: nat, i: nat)
    requires k <= j < |run| && i < |run[j].calls| == |run[j].scans|
  {
    && i < |run[k].calls| && run[k].calls[i].Unknown?
    && run[k].rows == run[j].scans[i]
    && forall l :: k < l <= j ==> i < |run[l].calls| && run[l].calls[i] == run[j].calls[i]
  }

  lemma {:induction false} FindScan(run: seq<State>, j: nat, i: nat) returns (k: nat)
    requires IsRun(run) && j < |run| && i < |run[j].calls| && run[j].calls[i].Scanned?
    ensures |run[j].calls| == |run[j].scans| && k < j && ScannedAt(run, k, j, i)
  {
    RunInv(run, j);
    assert j > 0;
    RunInv(run, j - 1);
    assert StepAt(run, j - 1);
    var step := StepTo(run[j - 1], run[j], i);
    if step == Scan(i) {
      k := j - 1;
    } else {
      k := FindScan(run, j - 1, i);
    }
  }

  /** How an allocator comes to have scanned: it has just done so, or had before. */
  lemma StepTo(s: State, s': State, i: nat) returns (step: Step)
    requires Inv(s) && Next(s, s') && i < |s'.calls| && s'.calls[i].Scanned?
    ensures Enabled(s, step) && s' == After(s, step) && i < |s.calls|
    ensures if step == Scan(i) then s.calls[i].Unknown? && s'.scans[i] == s.rows
            else s'.calls[i] == s.calls[i] && s'.scans[i] == s.scans[i]
  {
    step :| Enabled(s, step) && s' == After(s, step);
  }

  /**
    An insert that fails for its octet was overtaken: between the scan, at step `k`, and the insert there is a
    step `m` that took the octet, which was free until then.
   */
  lemma OvertakenBetween(run: seq<State>, j: nat, i: nat) returns (k: nat, m: nat)
    requires IsRun(run) && j < |run| && i < |run[j].calls| && run[j].calls[i].Scanned?
    requires run[j].calls[i].octet in Octets(run[j].rows)
    ensures |run[j].calls| == |run[j].scans| && k < m < j && ScannedAt(run, k, j, i)
    ensures forall l :: k <= l <= m ==> run[j].calls[i].octet !in Octets(run[l].rows)
    ensures run[j].calls[i].octet in Octets(run[m + 1].rows)
  {
    var octet := run[j].calls[i].octet;
    k := FindScan(run, j, i);
    RunInv(run, j);
    assert CallInv(run[j].calls[i], run[j].scans[i]);
    StepOfScan(run, k, j, i);
    m := k;
    while octet !in Octets(run[m + 1].rows)
      invariant k <= m < j
      invariant forall l :: k <= l <= m ==> octet !in Octets(run[l].rows)
      decreases j - m
    {
      m := m + 1;
    }
  }

  /** A scan takes nothing. */
  lemma StepOfScan(run: seq<State>, k: nat, j: nat, i: nat)
    requires IsRun(run) && k < j < |run| && i < |run[j].calls| == |run[j].scans|
    requires run[j].calls[i].Scanned? && ScannedAt(run, k, j, i)
    ensures run[k + 1].rows == run[k].rows
  {
    RunInv(run, k);
    assert StepAt(run, k);
    assert run[k + 1].calls[i] == run[j].calls[i];
    var step := StepTo(run[k], run[k + 1], i);
  }

  // ----- An allocator that is alone

  /** The state after look-up, scan and insert by one allocator with nobody in between, as far as it gets. */
  ghost function Called(s: State, i: nat, vmID: string): State
    requires Inv(s) && i < |s.calls| && s.calls[i].Free?
  {
    var s1 := After(s, LookUp(i, vmID));
    if s1.calls[i].Returned? then s1
    else
      var s2 := After(s1, Scan(i));
      if s2.calls[i].Returned? then s2 else After(s2, Insert(i, false))
  }

  /** Alone, an allocator does what one on a table of its own does. */
  lemma AloneAllocates(s: State, i: nat, vmID: string)
    requires Inv(s) && i < |s.calls| && s.calls[i].Free?
    ensures var s', full := Called(s, i, vmID), |s.rows| == CAPACITY;
            && |s'.calls| == |s.calls| && s'.calls[i].Returned? && s'.calls[i].vmID == vmID
            && if vmID in s.rows then s'.rows == s.rows && s'.calls[i].result == Allocated(s.rows[vmID])
               else if full then s'.rows == s.rows && s'.calls[i].result == Exhausted
               else exists octet :: IsFirstFree(s.rows, octet) && s'.rows == s.rows[vmID := InfoFor(octet, vmID)]
                                    && s'.calls[i].result == Allocated(InfoFor(octet, vmID))
  {
    var s1 := After(s, LookUp(i, vmID));
    if vmID !in s.rows {
      StepInv(s, LookUp(i, vmID));
      FirstFreeMeans(Octets(s.rows), MIN_OCTET);
      FullExactly(s.rows);
      var s2 := After(s1, Scan(i));
      if s2.calls[i].Scanned? { assert IsFirstFree(s.rows, s2.calls[i].octet); }
    }
  }

  /** In a full table, releasing one VM, or cleaning up with only that one gone, gives its octet to the next. */
  lemma ReleasedIsReused(s: State, step: Step, gone: string, i: nat, vmID: string)
    requires Inv(s) && |s.rows| == CAPACITY && gone in s.rows && vmID !in s.rows
    requires i < |s.calls| && s.calls[i].Free?
    requires step == Release(gone)
             || (step.Cleanup? && forall vm :: vm in s.rows ==> (vm in step.existing <==> vm != gone))
    ensures Inv(After(s, step))
    ensures Called(After(s, step), i, vmID).rows == (s.rows - {gone})[vmID := InfoFor(s.rows[gone].octet, vmID)]
  {
    var s' := After(s, step);
    StepInv(s, step);
    assert s'.rows == s.rows - {gone};
    OneLess(s.rows, gone);
    AloneAllocates(s', i, vmID);
    var octet :| IsFirstFree(s'.rows, octet) && Called(s', i, vmID).rows == s'.rows[vmID := InfoFor(octet, vmID)];
    OnlyGap(s.rows, gone, octet);
  }

  lemma OneLess(rows: Table, gone: string)
    requires gone in rows
    ensures |rows - {gone}| == |rows| - 1
  {
    assert (rows - {gone}).Keys == rows.Keys - {gone};
    assert |rows - {gone}| == |(rows - {gone}).Keys| && |rows| == |rows.Keys|;
  }

  /** The one octet free in a table that was full is that of the VM gone. */
  lemma OnlyGap(rows: Table, gone: string, octet: nat)
    requires TableInv(rows) && |rows| == CAPACITY && gone in rows && IsFirstFree(rows - {gone}, octet)
    ensures octet == rows[gone].octet
  {
    FullExactly(rows);
    OtherOctets(rows, gone);
    assert octet in Octets(rows);
    var holder :| holder in rows && rows[holder].octet == octet;
  }

  lemma OtherOctets(rows: Table, gone: string)
    requires gone in rows
    ensures forall vm :: vm in rows ==> vm == gone || rows[vm].octet in Octets(rows - {gone})
  {
    forall vm | vm in rows && vm != gone ensures rows[vm].octet in Octets(rows - {gone}) {
      assert vm in rows - {gone} && (rows - {gone})[vm] == rows[vm];
    }
  }

  // ----- Two allocators that collide

  function Start(rows: Table): State { State(rows, [Free, Free], [rows, rows]) }

  /** Two look-ups, two scans, two inserts. */
  function Collision(v: string, w: string): seq<Step> {
    [LookUp(0, v), LookUp(1, w), Scan(0), Scan(1), Insert(0, false), Insert(1, false)]
  }

  /** The states that the steps lead through. */
  ghost predicate Follows(run: seq<State>, steps: seq<Step>) {
    && |run| == |steps| + 1
    && forall i :: 0 <= i < |steps| ==>
         |run[i].scans| == |run[i].calls| && Enabled(run[i], steps[i]) && run[i + 1] == After(run[i], steps[i])
  }

  /**
    On any table with a free octet, two allocators that look up two new VMs, scan and insert in turn find the
    same octet, and the slower one fails - although an octet is free, unless the first one took the last one.
   */
  lemma SimultaneousScansCollide(rows: Table, v: string, w: string) returns (run: seq<State>)
    requires TableInv(rows) && v != w && v !in rows && w !in rows && |rows| < CAPACITY
    ensures IsRun(run) && Follows(run, Collision(v, w)) && run[0] == Start(rows)
    ensures |run[4].calls| == 2 && |run[6].calls| == 2
    ensures run[4].calls[0].Scanned? && run[4].calls[1].Scanned? && run[4].calls[0].octet == run[4].calls[1].octet
    ensures v in run[6].rows && w !in run[6].rows
    ensures run[6].calls[0].Returned? && run[6].calls[0].result.Allocated?
    ensures run[6].calls[1] == Returned(w, SaveFailed)
    ensures AllInUse(run[6].rows) <==> |rows| == CAPACITY - 1
  {
    FirstFreeMeans(Octets(rows), MIN_OCTET);
    FullExactly(rows);
    var octet := FirstFree(Octets(rows), MIN_OCTET).value;
    run := CollisionStates(rows, v, w, octet);
    var steps := Collision(v, w);
    forall i | 0 <= i < |steps|
      ensures Enabled(run[i], steps[i]) && run[i + 1] == After(run[i], steps[i]) && StepAt(run, i)
    {
      CollisionStep(rows, v, w, octet, i);
    }
    OneMore(rows, v, octet);
    CollisionRun(rows, v, w, octet);
  }

  lemma CollisionRun(rows: Table, v: string, w: string, octet: nat)
    requires TableInv(rows)
    requires forall i :: 0 <= i < 6 ==> StepAt(CollisionStates(rows, v, w, octet), i)
    ensures IsRun(CollisionStates(rows, v, w, octet))
  {
  }

  function CollisionStates(rows: Table, v: string, w: string, octet: nat): seq<State> {
    var scans, info := [rows, rows], InfoFor(octet, v);
    var taken, got := rows[v := info], Returned(v, Allocated(info));
    [Start(rows),
     State(rows, [Unknown(v), Free], scans),
     State(rows, [Unknown(v), Unknown(w)], scans),
     State(rows, [Scanned(v, octet), Unknown(w)], scans),
     State(rows, [Scanned(v, octet), Scanned(w, octet)], scans),
     State(taken, [got, Scanned(w, octet)], scans),
     State(taken, [got, Returned(w, SaveFailed)], scans)]
  }

  lemma CollisionStep(rows: Table, v: string, w: string, octet: nat, i: nat)
    requires v != w && v !in rows && w !in rows && i < 6
    requires FirstFree(Octets(rows), MIN_OCTET) == Some(octet) && octet !in Octets(rows)
    ensures var run, step := CollisionStates(rows, v, w, octet), Collision(v, w)[i];
            && |run[i].scans| == |run[i].calls|
            && Enabled(run[i], step) && run[i + 1] == After(run[i], step)
  {
    var run, taken := CollisionStates(rows, v, w, octet), rows[v := InfoFor(octet, v)];
    assert taken[v].octet in Octets(taken);
    assert run[i + 1] == After(run[i], Collision(v, w)[i]);
  }

  lemma OneMore(rows: Table, v: string, octet: nat)
    requires TableInv(rows) && MIN_OCTET <= octet <= MAX_OCTET && Admissible(rows, v, octet)
    ensures AllInUse(rows[v := InfoFor(octet, v)]) <==> |rows| == CAPACITY - 1
  {
    var taken := rows[v := InfoFor(octet, v)];
    InsertKeepsTable(rows, v, octet);
    FullExactly(taken);
    assert taken.Keys == rows.Keys + {v};
    assert |taken| == |taken.Keys| && |rows| == |rows.Keys|;
  }
}
