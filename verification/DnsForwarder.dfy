/**
  The shutdown protocol of the DNS forwarder: 32 workers, the receiving goroutine and `Close`
  interleave at every access to the stop channel, the tracked set and a socket.

  What a goroutine does while it holds `upstreamMu` is one step, except in `trackUpstream`: the
  stop channel it reads there is closed without that lock, so reading it and inserting into the
  set are two steps.
 */
module DnsForwarder {
  import Counting
  import opened Wrappers

  const WORKERS: nat := 32
  const QUEUE_SIZE: nat := 128

  type Socket = nat

  /** Where a worker is; `k` is the index of the DNS server it is trying. */
  datatype Worker =
    | Waiting                                      // at the select in `worker`
    | Forwarding(k: nat)                           // at the head of the loop in `forward`
    | Entering(k: nat)                             // at the first check in `exchange`
    | Dialing(k: nat)
    | Locking(k: nat, s: Socket)                   // dialed, about to lock in `trackUpstream`
    | Checking(k: nat, s: Socket)                  // holds the lock, about to read the stop channel
    | Inserting(k: nat, s: Socket)                 // holds the lock, accepted
    | Rejecting(k: nat, s: Socket)                 // lock released, about to close the socket
    | Exchanging(k: nat, s: Socket)                // reading from or writing to the socket
    | Closing(k: nat, s: Socket, answered: bool)   // first deferred call
    | Untracking(k: nat, s: Socket, answered: bool) // second deferred call
    | Answering                                    // back in `forward` with a response
    | Done

  datatype Server = Reading | Queueing | ServerDone

  datatype Closer =
    | Idle                          // `Close` not called yet
    | StopClosed                    // stopCh closed
    | ConnClosed                    // listening socket closed
    | ClosingAll(left: set<Socket>) // closing the sockets of the snapshot
    | OnceDone                      // waiting for the goroutines

  datatype State = State(
    servers: nat,
    stop: bool,
    connOpen: bool,
    queue: nat,
    workers: seq<Worker>,
    server: Server,
    holder: Option<nat>,       // the worker that holds upstreamMu between steps
    tracked: set<Socket>,      // the upstreams map
    closed: set<Socket>,
    closer: Closer,
    returned: bool,
    // history
    owner: map<Socket, nat>,   // every socket ever dialed, with the worker that dialed it
    accepted: set<Socket>,     // every socket `trackUpstream` agreed to track
    snapshot: set<Socket>      // what `closeUpstreams` copied
  )

  datatype Step =
    | Take(w: nat) | Quit(w: nat) | Head(w: nat) | Enter(w: nat)
    | DialFail(w: nat) | DialOk(w: nat, s: Socket)
    | Lock(w: nat) | Check(w: nat) | Insert(w: nat) | Reject(w: nat)
    | Finish(w: nat, answered: bool) | CloseSocket(w: nat) | Untrack(w: nat) | Answer(w: nat)
    | Receive | ReadError | Enqueue | Abandon
    | CloseStop | CloseConn | Snapshot | CloseOne(s: Socket) | FinishOnce | Return

  ghost predicate Init(s: State) {
    && !s.stop && s.connOpen && s.queue == 0
    && |s.workers| == WORKERS && (forall w :: 0 <= w < WORKERS ==> s.workers[w] == Waiting)
    && s.server == Reading && s.holder == None
    && s.tracked == {} && s.closed == {} && s.closer == Idle && !s.returned
    && s.owner == map[] && s.accepted == {} && s.snapshot == {}
  }

  predicate IsWorkerStep(t: Step) {
    !(t.Receive? || t.ReadError? || t.Enqueue? || t.Abandon?
      || t.CloseStop? || t.CloseConn? || t.Snapshot? || t.CloseOne? || t.FinishOnce? || t.Return?)
  }

  /** The step can be taken in this state. */
  ghost predicate Enabled(s: State, t: Step) {
    if IsWorkerStep(t) then
      && t.w < |s.workers|
      && var p := s.workers[t.w];
         match t
         case Take(_) => p.Waiting? && s.queue > 0
         case Quit(_) => p.Waiting? && s.stop
         case Head(_) => p.Forwarding?
         case Enter(_) => p.Entering?
         case DialFail(_) => p.Dialing?
         case DialOk(_, socket) => p.Dialing? && socket !in s.owner
         case Lock(_) => p.Locking? && s.holder == None
         case Check(_) => p.Checking?
         case Insert(_) => p.Inserting?
         case Reject(_) => p.Rejecting?
         case Finish(_, _) => p.Exchanging?
         case CloseSocket(_) => p.Closing?
         case Untrack(_) => p.Untracking? && s.holder == None
         case Answer(_) => p.Answering?
         case _ => false
    else
      match t
      case Receive => s.server.Reading? && s.connOpen
      case ReadError => s.server.Reading?
      case Enqueue => s.server.Queueing? && s.queue < QUEUE_SIZE
      case Abandon => s.server.Queueing? && s.stop
      case CloseStop => s.closer.Idle?
      case CloseConn => s.closer.StopClosed?
      case Snapshot => s.closer.ConnClosed? && s.holder == None
      case CloseOne(socket) => s.closer.ClosingAll? && socket in s.closer.left
      case FinishOnce => s.closer.ClosingAll? && s.closer.left == {}
      case Return => s.closer.OnceDone? && !s.returned && AllDone(s)
      case _ => false
  }

  ghost predicate AllDone(s: State) {
    s.server.ServerDone? && forall w :: 0 <= w < |s.workers| ==> s.workers[w].Done?
  }

  function Move(s: State, w: nat, p: Worker): State
    requires w < |s.workers|
  {
    s.(workers := s.workers[w := p])
  }

  function Apply(s: State, t: Step): State
    requires Enabled(s, t)
  {
    match t
    case Take(w) => Move(s, w, Forwarding(0)).(queue := s.queue - 1)
    case Quit(w) => Move(s, w, Done)
    case Head(w) =>
      var k := s.workers[w].k;
      Move(s, w, if k >= s.servers || s.stop then Waiting else Entering(k))
    case Enter(w) =>
      var k := s.workers[w].k;
      Move(s, w, if s.stop then Forwarding(k + 1) else Dialing(k))
    case DialFail(w) => Move(s, w, Forwarding(s.workers[w].k + 1))
    case DialOk(w, socket) => Move(s, w, Locking(s.workers[w].k, socket)).(owner := s.owner[socket := w])
    case Lock(w) => Move(s, w, Checking(s.workers[w].k, s.workers[w].s)).(holder := Some(w))
    case Check(w) =>
      var p := s.workers[w];
      if s.stop then Move(s, w, Rejecting(p.k, p.s)).(holder := None)
      else Move(s, w, Inserting(p.k, p.s)).(accepted := s.accepted + {p.s})
    case Insert(w) =>
      var p := s.workers[w];
      Move(s, w, Exchanging(p.k, p.s)).(tracked := s.tracked + {p.s}, holder := None)
    case Reject(w) =>
      var p := s.workers[w];
      Move(s, w, Forwarding(p.k + 1)).(closed := s.closed + {p.s})
    case Finish(w, answered) => Move(s, w, Closing(s.workers[w].k, s.workers[w].s, answered))
    case CloseSocket(w) =>
      var p := s.workers[w];
      Move(s, w, Untracking(p.k, p.s, p.answered)).(closed := s.closed + {p.s})
    case Untrack(w) =>
      var p := s.workers[w];
      Move(s, w, if p.answered then Answering else Forwarding(p.k + 1)).(tracked := s.tracked - {p.s})
    case Answer(w) => Move(s, w, Waiting)
    case Receive => s.(server := Queueing)
    case ReadError => s.(server := if s.stop then ServerDone else Reading)
    case Enqueue => s.(server := Reading, queue := s.queue + 1)
    case Abandon => s.(server := ServerDone)
    case CloseStop => s.(stop := true, closer := StopClosed)
    case CloseConn => s.(connOpen := false, closer := ConnClosed)
    case Snapshot => s.(closer := ClosingAll(s.tracked), snapshot := s.tracked)
    case CloseOne(socket) => s.(closer := ClosingAll(s.closer.left - {socket}), closed := s.closed + {socket})
    case FinishOnce => s.(closer := OnceDone)
    case Return => s.(returned := true)
  }

  // ----- The invariant

  predicate HasSocket(p: Worker) {
    p.Locking? || p.Checking? || p.Inserting? || p.Rejecting? || p.Exchanging? || p.Closing? || p.Untracking?
  }

  /** The worker's socket is in the tracked set. */
  predicate Tracks(p: Worker) { p.Exchanging? || p.Closing? || p.Untracking? }

  predicate HoldsLock(p: Worker) { p.Checking? || p.Inserting? }

  predicate SnapshotTaken(s: State) { s.closer.ClosingAll? || s.closer.OnceDone? }

  ghost predicate WorkerInv(s: State, w: nat)
    requires w < |s.workers|
  {
    var p := s.workers[w];
    && (HoldsLock(p) <==> s.holder == Some(w))
    && (HasSocket(p) ==> p.s in s.owner && s.owner[p.s] == w)
    && (p.Locking? || p.Checking? || p.Rejecting? ==> p.s !in s.accepted && p.s !in s.closed)
    && (p.Inserting? ==> p.s in s.accepted && p.s !in s.closed && p.s !in s.tracked && !SnapshotTaken(s))
    && (Tracks(p) ==> p.s in s.tracked)
    && (p.Untracking? ==> p.s in s.closed)
    && (p.Rejecting? || p.Done? ==> s.stop)
  }

  ghost predicate SocketInv(s: State, socket: Socket)
    requires socket in s.owner
  {
    var w := s.owner[socket];
    && w < |s.workers|
    && (socket in s.closed || (HasSocket(s.workers[w]) && s.workers[w].s == socket))
    && (socket in s.tracked ==> socket in s.accepted && Tracks(s.workers[w]) && s.workers[w].s == socket)
  }

  ghost predicate CloserInv(s: State) {
    && (s.stop <==> !s.closer.Idle?)
    && (s.connOpen <==> s.closer.Idle? || s.closer.StopClosed?)
    && s.snapshot <= s.accepted
    && (SnapshotTaken(s) ==> s.tracked <= s.snapshot)
    && (s.closer.ClosingAll? ==> s.closer.left <= s.snapshot && s.snapshot <= s.closer.left + s.closed)
    && (s.closer.OnceDone? ==> s.snapshot <= s.closed)
    && (s.returned ==> s.closer.OnceDone? && AllDone(s))
    && (s.server.ServerDone? ==> s.stop)
  }

  ghost predicate SetsInv(s: State) {
    && |s.workers| == WORKERS
    && s.queue <= QUEUE_SIZE
    && (s.holder.Some? ==> s.holder.value < WORKERS)
    && s.closed <= s.owner.Keys && s.accepted <= s.owner.Keys && s.tracked <= s.owner.Keys
  }

  ghost predicate Inv(s: State) {
    && SetsInv(s)
    && (forall w :: 0 <= w < WORKERS ==> WorkerInv(s, w))
    && (forall socket :: socket in s.owner ==> SocketInv(s, socket))
    && CloserInv(s)
  }

  lemma InitInv(s: State)
    requires Init(s)
    ensures Inv(s)
  {
  }

  /** The steps that take or release the lock. */
  predicate IsLockStep(t: Step) { t.Lock? || t.Check? || t.Insert? }

  lemma WorkerStepOwn(s: State, t: Step)
    requires Inv(s) && Enabled(s, t) && IsWorkerStep(t)
    ensures WorkerInv(Apply(s, t), t.w)
  {
    if IsLockStep(t) { LockStepOwn(s, t); } else { OpenStepOwn(s, t); }
  }

  lemma LockStepOwn(s: State, t: Step)
    requires Inv(s) && Enabled(s, t) && IsLockStep(t)
    ensures WorkerInv(Apply(s, t), t.w)
  {
    assert WorkerInv(s, t.w);
    assert SocketInv(s, s.workers[t.w].s);
  }

  lemma OpenStepOwn(s: State, t: Step)
    requires Inv(s) && Enabled(s, t) && IsWorkerStep(t) && !IsLockStep(t)
    ensures WorkerInv(Apply(s, t), t.w)
  {
    assert WorkerInv(s, t.w);
  }

  lemma WorkerStepOther(s: State, t: Step, w: nat)
    requires Inv(s) && Enabled(s, t) && IsWorkerStep(t) && w < WORKERS && w != t.w
    ensures WorkerInv(Apply(s, t), w)
  {
    assert WorkerInv(s, t.w) && WorkerInv(s, w);
    assert Apply(s, t).workers[w] == s.workers[w];
  }

  lemma WorkerStepSockets(s: State, t: Step, socket: Socket)
    requires Inv(s) && Enabled(s, t) && IsWorkerStep(t) && socket in Apply(s, t).owner
    ensures SocketInv(Apply(s, t), socket)
  {
    assert WorkerInv(s, t.w);
    if socket in s.owner { assert SocketInv(s, socket); }
  }

  lemma WorkerStepSets(s: State, t: Step)
    requires Inv(s) && Enabled(s, t) && IsWorkerStep(t)
    ensures SetsInv(Apply(s, t)) && CloserInv(Apply(s, t))
  {
    assert WorkerInv(s, t.w);
    assert !s.workers[t.w].Done? && !s.returned;
  }

  lemma WorkerStepInv(s: State, t: Step)
    requires Inv(s) && Enabled(s, t) && IsWorkerStep(t)
    ensures Inv(Apply(s, t))
  {
    var s' := Apply(s, t);
    forall w | 0 <= w < WORKERS ensures WorkerInv(s', w) {
      if w == t.w { WorkerStepOwn(s, t); } else { WorkerStepOther(s, t, w); }
    }
    forall socket | socket in s'.owner ensures SocketInv(s', socket) { WorkerStepSockets(s, t, socket); }
    WorkerStepSets(s, t);
  }

  lemma OtherStepInv(s: State, t: Step)
    requires Inv(s) && Enabled(s, t) && !IsWorkerStep(t)
    ensures Inv(Apply(s, t))
  {
    var s' := Apply(s, t);
    forall w | 0 <= w < WORKERS ensures WorkerInv(s', w) { assert WorkerInv(s, w); }
    forall socket | socket in s'.owner ensures SocketInv(s', socket) { assert SocketInv(s, socket); }
    OtherStepSets(s, t);
  }

  lemma OtherStepSets(s: State, t: Step)
    requires Inv(s) && Enabled(s, t) && !IsWorkerStep(t)
    ensures SetsInv(Apply(s, t)) && CloserInv(Apply(s, t))
  {
  }

  lemma StepInv(s: State, t: Step)
    requires Inv(s) && Enabled(s, t)
    ensures Inv(Apply(s, t))
  {
    if IsWorkerStep(t) { WorkerStepInv(s, t); } else { OtherStepInv(s, t); }
  }

  // ----- Runs

  ghost predicate Next(s: State, s': State) {
    exists t :: Enabled(s, t) && s' == Apply(s, t)
  }

  ghost predicate StepAt(path: seq<State>, i: nat)
    requires i < |path| - 1
  {
    Next(path[i], path[i + 1])
  }

  ghost predicate IsPath(path: seq<State>) {
    |path| > 0 && forall i :: 0 <= i < |path| - 1 ==> StepAt(path, i)
  }

  /** Any interleaving of workers, receiver and `Close`, from a new forwarder on. */
  ghost predicate IsRun(run: seq<State>) {
    IsPath(run) && Init(run[0])
  }

  lemma {:induction false} RunInv(run: seq<State>, i: nat)
    requires IsRun(run) && i < |run|
    ensures Inv(run[i])
  {
    if i == 0 {
      InitInv(run[0]);
    } else {
      RunInv(run, i - 1);
      assert StepAt(run, i - 1);
      NextInv(run[i - 1], run[i]);
    }
  }

  lemma NextInv(s: State, s': State)
    requires Inv(s) && Next(s, s')
    ensures Inv(s')
  {
    var t :| Enabled(s, t) && s' == Apply(s, t);
    StepInv(s, t);
  }

  /** At most one tracked upstream per worker, and no more queries waiting than the queue holds. */
  lemma TrackedBound(run: seq<State>, i: nat)
    requires IsRun(run) && i < |run|
    ensures |run[i].tracked| <= 32 && run[i].queue <= 128
  {
    RunInv(run, i);
    var s := run[i];
    var m := map socket | socket in s.tracked :: s.owner[socket] as int;
    forall socket | socket in s.tracked ensures SocketInv(s, socket) {}
    Counting.InjectionIntoRange(m, 0, WORKERS);
    assert m.Keys == s.tracked;
    assert |m.Keys| == |m|;
  }

  /** Once the stop channel is closed no upstream is accepted any more. */
  lemma {:induction false} NothingAcceptedAfterStop(run: seq<State>, i: nat, j: nat)
    requires IsRun(run) && i <= j < |run| && run[i].stop
    ensures run[j].stop && run[j].accepted == run[i].accepted
  {
    if i < j {
      NothingAcceptedAfterStop(run, i, j - 1);
      assert StepAt(run, j - 1);
      StopIsFinal(run[j - 1], run[j]);
    }
  }

  lemma StopIsFinal(s: State, s': State)
    requires Next(s, s') && s.stop
    ensures s'.stop && s'.accepted == s.accepted
  {
    var t :| Enabled(s, t) && s' == Apply(s, t);
    StepHistory(s, t);
  }

  lemma StepHistory(s: State, t: Step)
    requires Enabled(s, t)
    ensures s.stop ==> Apply(s, t).stop && Apply(s, t).accepted == s.accepted
    ensures Apply(s, t).snapshot == if t.Snapshot? then s.tracked else s.snapshot
  {
  }

  /**
    From the moment `Close` has taken its snapshot, every upstream still tracked is in it, and every
    upstream ever accepted is in it or closed already - also one whose worker had read the stop channel
    before it was closed and inserted the upstream afterwards.
   */
  lemma SnapshotIsComplete(run: seq<State>, i: nat)
    requires IsRun(run) && i < |run| && SnapshotTaken(run[i])
    ensures run[i].tracked <= run[i].snapshot
    ensures run[i].accepted <= run[i].snapshot + run[i].closed
  {
    RunInv(run, i);
    var s := run[i];
    forall socket | socket in s.accepted && socket !in s.closed ensures socket in s.snapshot {
      assert SocketInv(s, socket) && WorkerInv(s, s.owner[socket]);
    }
  }

  /** `Close` waits for the workers only when no worker can be blocked on an open upstream. */
  lemma NoWorkerWaitsOnOpenUpstream(run: seq<State>, i: nat, w: nat)
    requires IsRun(run) && i < |run| && w < WORKERS
    requires run[i].closer.OnceDone?
    ensures |run[i].workers| == WORKERS
    ensures run[i].workers[w].Exchanging? ==> run[i].workers[w].s in run[i].closed
  {
    RunInv(run, i);
    assert WorkerInv(run[i], w);
  }

  /** When `Close` has returned nothing is tracked, and every socket dialed - accepted or not - is closed. */
  lemma ClosedWhenReturned(run: seq<State>, i: nat)
    requires IsRun(run) && i < |run| && run[i].returned
    ensures run[i].tracked == {}
    ensures run[i].closed == run[i].owner.Keys && run[i].accepted <= run[i].closed
    ensures AllDone(run[i])
  {
    RunInv(run, i);
    var s := run[i];
    forall socket | socket in s.owner ensures socket in s.closed && socket !in s.tracked {
      assert SocketInv(s, socket);
    }
  }

  // ----- `Close` returns

  /** An upper bound on the steps a worker takes before it waits again, once the stop channel is closed. */
  function Weight(p: Worker): nat {
    match p
    case Done => 0
    case Waiting => 1
    case Forwarding(_) => 2
    case Answering => 2
    case Entering(_) => 3
    case Untracking(_, _, _) => 3
    case Rejecting(_, _) => 3
    case Closing(_, _, _) => 4
    case Exchanging(_, _) => 5
    case Inserting(_, _) => 7
    case Checking(_, _) => 8
    case Locking(_, _) => 9
    case Dialing(_) => 10
  }

  function Weights(workers: seq<Worker>): nat {
    if workers == [] then 0 else Weight(workers[0]) + Weights(workers[1..])
  }

  lemma {:induction false} WeightsUpdate(workers: seq<Worker>, w: nat, p: Worker)
    requires w < |workers|
    ensures Weights(workers[w := p]) == Weights(workers) - Weight(workers[w]) + Weight(p)
  {
    if w == 0 {
      assert workers[w := p][1..] == workers[1..];
    } else {
      WeightsUpdate(workers[1..], w - 1, p);
      assert workers[w := p][1..] == workers[1..][w - 1 := p];
    }
  }

  lemma {:induction false} WeightsBound(workers: seq<Worker>)
    ensures Weights(workers) <= 10 * |workers|
  {
    if workers != [] { WeightsBound(workers[1..]); }
  }

  function CloserWeight(s: State): nat {
    match s.closer
    case Idle => 0
    case StopClosed => 0
    case ConnClosed => |s.tracked| + 3
    case ClosingAll(left) => |left| + 2
    case OnceDone => if s.returned then 0 else 1
  }

  function ServerWeight(server: Server): nat {
    match server
    case Reading => 1
    case Queueing => 4
    case ServerDone => 0
  }

  /** What is left to do once the listening socket is closed. */
  function Measure(s: State): nat {
    Weights(s.workers) + 2 * s.queue + ServerWeight(s.server) + CloserWeight(s)
  }

  lemma WorkerWeightDecreases(s: State, t: Step)
    requires Inv(s) && Enabled(s, t) && IsWorkerStep(t) && !s.connOpen
    ensures var p, p' := s.workers[t.w], Apply(s, t).workers[t.w];
            Weight(p') + (if t.Insert? then 1 else 0) < Weight(p) + (if t.Take? then 2 else 0)
    ensures Apply(s, t).workers == s.workers[t.w := Apply(s, t).workers[t.w]]
    ensures Apply(s, t).queue == if t.Take? then s.queue - 1 else s.queue
  {
  }

  lemma CloserWeightOfWorkerStep(s: State, t: Step)
    requires Inv(s) && Enabled(s, t) && IsWorkerStep(t)
    ensures CloserWeight(Apply(s, t)) <= CloserWeight(s) + (if t.Insert? then 1 else 0)
  {
    if t.Insert? {
      assert |s.tracked + {s.workers[t.w].s}| <= |s.tracked| + 1;
    } else {
      assert Apply(s, t).tracked <= s.tracked;
      Counting.SubsetSize(Apply(s, t).tracked, s.tracked);
    }
  }

  lemma MeasureDecreases(s: State, t: Step)
    requires Inv(s) && Enabled(s, t) && !s.connOpen
    ensures !Apply(s, t).connOpen && Measure(Apply(s, t)) < Measure(s)
  {
    if IsWorkerStep(t) {
      WorkerWeightDecreases(s, t);
      CloserWeightOfWorkerStep(s, t);
      WeightsUpdate(s.workers, t.w, Apply(s, t).workers[t.w]);
    } else if t.CloseOne? {
      assert |s.closer.left - {t.s}| == |s.closer.left| - 1;
    }
  }

  /** As long as `Close` has not returned, some goroutine can take a step: there is no deadlock. */
  lemma NoDeadlock(s: State) returns (t: Step)
    requires Inv(s) && !s.connOpen && !s.returned
    ensures Enabled(s, t)
    ensures t.Finish? ==> s.workers[t.w].s in s.closed
  {
    if s.holder.Some? {
      var w := s.holder.value;
      assert WorkerInv(s, w);
      t := if s.workers[w].Checking? then Check(w) else Insert(w);
    } else if s.closer.ConnClosed? {
      t := Snapshot;
    } else if s.closer.ClosingAll? {
      if s.closer.left == {} {
        t := FinishOnce;
      } else {
        var socket :| socket in s.closer.left;
        t := CloseOne(socket);
      }
    } else if w :| 0 <= w < WORKERS && !s.workers[w].Done? {
      assert WorkerInv(s, w);
      t := WorkerStep(s.workers[w], w);
    } else if s.server.ServerDone? {
      t := Return;
    } else {
      t := if s.server.Reading? then ReadError else Abandon;
    }
  }

  function WorkerStep(p: Worker, w: nat): Step
    requires !p.Done? && !HoldsLock(p)
  {
    match p
    case Waiting => Quit(w)
    case Forwarding(_) => Head(w)
    case Entering(_) => Enter(w)
    case Dialing(_) => DialFail(w)
    case Locking(_, _) => Lock(w)
    case Rejecting(_, _) => Reject(w)
    case Exchanging(_, _) => Finish(w, false)
    case Closing(_, _, _) => CloseSocket(w)
    case Untracking(_, _, _) => Untrack(w)
    case Answering => Answer(w)
  }

  ghost predicate Stuck(s: State) {
    forall t :: !Enabled(s, t)
  }

  lemma {:induction false} PathSteps(run: seq<State>, from: nat, i: nat)
    requires IsRun(run) && from <= i < |run| && !run[from].connOpen
    ensures !run[i].connOpen && Measure(run[i]) + (i - from) <= Measure(run[from])
  {
    if from < i {
      PathSteps(run, from, i - 1);
      RunStepDecreases(run, i - 1);
    }
  }

  lemma RunStepDecreases(run: seq<State>, i: nat)
    requires IsRun(run) && i < |run| - 1 && !run[i].connOpen
    ensures !run[i + 1].connOpen && Measure(run[i + 1]) < Measure(run[i])
  {
    RunInv(run, i);
    assert StepAt(run, i);
    NextDecreases(run[i], run[i + 1]);
  }

  lemma NextDecreases(s: State, s': State)
    requires Inv(s) && Next(s, s') && !s.connOpen
    ensures !s'.connOpen && Measure(s') < Measure(s)
  {
    var t :| Enabled(s, t) && s' == Apply(s, t);
    MeasureDecreases(s, t);
  }

  /**
    `Close` returns: after it has closed the listening socket, all goroutines together can take at most
    615 more steps, in any order, and they stop only when it has returned.
   */
  lemma CloseReturns(run: seq<State>, from: nat)
    requires IsRun(run) && from < |run| && !run[from].connOpen
    ensures |run| - 1 - from <= 615
    ensures Stuck(run[|run| - 1]) ==> run[|run| - 1].returned
  {
    var last := |run| - 1;
    PathSteps(run, from, last);
    RunInv(run, from);
    RunInv(run, last);
    TrackedBound(run, from);
    WeightsBound(run[from].workers);
    if run[from].closer.ClosingAll? {
      SnapshotBound(run, from);
    }
    if !run[last].returned {
      var t := NoDeadlock(run[last]);
    }
  }

  /** The snapshot is never larger than the tracked set it was taken from. */
  lemma {:induction false} SnapshotBound(run: seq<State>, i: nat)
    requires IsRun(run) && i < |run|
    ensures |run[i].snapshot| <= WORKERS
    ensures run[i].closer.ClosingAll? ==> |run[i].closer.left| <= WORKERS
  {
    if i > 0 {
      SnapshotBound(run, i - 1);
      TrackedBound(run, i - 1);
      assert StepAt(run, i - 1);
      SnapshotFrom(run[i - 1], run[i]);
    }
    RunInv(run, i);
    if run[i].closer.ClosingAll? {
      Counting.SubsetSize(run[i].closer.left, run[i].snapshot);
    }
  }

  lemma SnapshotFrom(s: State, s': State)
    requires Next(s, s')
    ensures s'.snapshot == s.snapshot || s'.snapshot == s.tracked
  {
    var t :| Enabled(s, t) && s' == Apply(s, t);
    StepHistory(s, t);
  }

  // ----- Queries are answered

  /** As long as the stop channel is open no upstream is refused, and no goroutine gives up. */
  lemma NothingRefusedBeforeStop(run: seq<State>, i: nat, w: nat)
    requires IsRun(run) && i < |run| && w < WORKERS && !run[i].stop
    ensures |run[i].workers| == WORKERS
    ensures !run[i].workers[w].Rejecting? && !run[i].workers[w].Done? && !run[i].server.ServerDone?
  {
    RunInv(run, i);
    assert WorkerInv(run[i], w);
  }

  /** Servers are tried in order, one after another, until one has answered; a query starts with the first. */
  lemma NextServer(s: State, t: Step)
    requires Enabled(s, t) && IsWorkerStep(t)
    ensures var p, p' := s.workers[t.w], Apply(s, t).workers[t.w];
            && (t.Take? ==> p' == Forwarding(0))
            && (p'.Answering? <==> p.Untracking? && p.answered)
            && (p'.Forwarding? && !t.Take? ==>
                  && (p.Entering? || p.Dialing? || p.Rejecting? || p.Untracking?) && p'.k == p.k + 1
                  && (s.stop || t.DialFail? || t.Reject? || (t.Untrack? && !p.answered)))
  {
  }

  lemma {:induction false} FreshSocket(used: set<Socket>) returns (socket: Socket)
    ensures socket !in used && forall x :: x in used ==> x < socket
  {
    if used == {} {
      socket := 0;
    } else {
      var x :| x in used;
      var y := FreshSocket(used - {x});
      socket := if x < y then y else x + 1;
      forall z | z in used ensures z < socket { assert z == x || z in used - {x}; }
    }
  }

  /** A path with a step in front. */
  lemma StepAndPath(s: State, t: Step, rest: seq<State>)
    requires Enabled(s, t) && IsPath(rest) && rest[0] == Apply(s, t)
    ensures IsPath([s] + rest)
  {
    var path := [s] + rest;
    assert Next(path[0], path[1]);
    forall i | 0 <= i < |path| - 1 ensures StepAt(path, i) {
      if i > 0 { assert StepAt(rest, i - 1); }
    }
  }

  lemma PathAndPath(a: seq<State>, b: seq<State>)
    requires IsPath(a) && IsPath(b) && a[|a| - 1] == b[0]
    ensures IsPath(a + b[1..])
  {
    var path := a + b[1..];
    forall i | 0 <= i < |path| - 1 ensures StepAt(path, i) {
      if i < |a| - 1 {
        assert StepAt(a, i);
      } else {
        assert StepAt(b, i - (|a| - 1));
        assert path[i] == b[i - (|a| - 1)];
      }
    }
  }

  /** Nobody holds the lock, and the stop channel is open. */
  ghost predicate Open(s: State) { Inv(s) && !s.stop && s.holder == None }

  /** What an exchange leaves: the worker is where it goes next, its socket is closed and untracked. */
  function Exchanged(s: State, w: nat, socket: Socket, next: Worker): State
    requires w < |s.workers|
  {
    s.(workers := s.workers[w := next], owner := s.owner[socket := w],
       accepted := s.accepted + {socket}, closed := s.closed + {socket})
  }

  ghost predicate Leads(s: State, t: Step, s': State) { Enabled(s, t) && Apply(s, t) == s' }

  lemma HeadLeads(s: State, w: nat, k: nat)
    requires w < |s.workers| && s.workers[w] == Forwarding(k) && k < s.servers && !s.stop
    ensures Leads(s, Head(w), Move(s, w, Entering(k)))
  {
  }

  lemma EnterLeads(s: State, w: nat, k: nat)
    requires w < |s.workers| && s.workers[w] == Entering(k) && !s.stop
    ensures Leads(s, Enter(w), Move(s, w, Dialing(k)))
  {
  }

  lemma DialLeads(s: State, w: nat, k: nat, socket: Socket)
    requires w < |s.workers| && s.workers[w] == Dialing(k) && socket !in s.owner
    ensures Leads(s, DialOk(w, socket), Move(s, w, Locking(k, socket)).(owner := s.owner[socket := w]))
  {
  }

  lemma LockLeads(s: State, w: nat, k: nat, socket: Socket)
    requires w < |s.workers| && s.workers[w] == Locking(k, socket) && s.holder == None
    ensures Leads(s, Lock(w), Move(s, w, Checking(k, socket)).(holder := Some(w)))
  {
  }

  lemma CheckLeads(s: State, w: nat, k: nat, socket: Socket)
    requires w < |s.workers| && s.workers[w] == Checking(k, socket) && !s.stop
    ensures Leads(s, Check(w), Move(s, w, Inserting(k, socket)).(accepted := s.accepted + {socket}))
  {
  }

  lemma InsertLeads(s: State, w: nat, k: nat, socket: Socket)
    requires w < |s.workers| && s.workers[w] == Inserting(k, socket)
    ensures Leads(s, Insert(w), Move(s, w, Exchanging(k, socket)).(tracked := s.tracked + {socket}, holder := None))
  {
  }

  lemma FinishLeads(s: State, w: nat, k: nat, socket: Socket, answered: bool)
    requires w < |s.workers| && s.workers[w] == Exchanging(k, socket)
    ensures Leads(s, Finish(w, answered), Move(s, w, Closing(k, socket, answered)))
  {
  }

  lemma CloseLeads(s: State, w: nat, k: nat, socket: Socket, answered: bool)
    requires w < |s.workers| && s.workers[w] == Closing(k, socket, answered)
    ensures Leads(s, CloseSocket(w), Move(s, w, Untracking(k, socket, answered)).(closed := s.closed + {socket}))
  {
  }

  lemma UntrackLeads(s: State, w: nat, k: nat, socket: Socket, answered: bool)
    requires w < |s.workers| && s.workers[w] == Untracking(k, socket, answered) && s.holder == None
    ensures Leads(s, Untrack(w),
                  Move(s, w, if answered then Answering else Forwarding(k + 1)).(tracked := s.tracked - {socket}))
  {
  }

  lemma ThreeSteps(s0: State, t0: Step, s1: State, t1: Step, s2: State, t2: Step, s3: State)
    requires Leads(s0, t0, s1) && Leads(s1, t1, s2) && Leads(s2, t2, s3)
    ensures IsPath([s0, s1, s2, s3])
  {
    OneStepPath(s2, t2);
    StepAndPath(s1, t1, [s2, s3]);
    assert [s1] + [s2, s3] == [s1, s2, s3];
    StepAndPath(s0, t0, [s1, s2, s3]);
    assert [s0] + [s1, s2, s3] == [s0, s1, s2, s3];
  }

  lemma MoveTwice(s: State, w: nat, p: Worker, q: Worker)
    requires w < |s.workers|
    ensures s.workers[w := p][w := q] == s.workers[w := q]
  {
  }

  /** From the head of the loop to a dialed socket. */
  lemma DialPath(s: State, w: nat, k: nat, socket: Socket) returns (path: seq<State>)
    requires |s.workers| == WORKERS && w < WORKERS && s.workers[w] == Forwarding(k)
    requires k < s.servers && !s.stop && socket !in s.owner
    ensures IsPath(path) && |path| == 4 && path[0] == s && AllUnanswered(path, w)
    ensures path[3] == Move(s, w, Locking(k, socket)).(owner := s.owner[socket := w])
  {
    var s1, s2 := Move(s, w, Entering(k)), Move(s, w, Dialing(k));
    var s3 := Move(s, w, Locking(k, socket)).(owner := s.owner[socket := w]);
    HeadLeads(s, w, k);
    EnterLeads(s1, w, k);
    MoveTwice(s, w, Entering(k), Dialing(k));
    DialLeads(s2, w, k, socket);
    MoveTwice(s, w, Dialing(k), Locking(k, socket));
    ThreeSteps(s, Head(w), s1, Enter(w), s2, DialOk(w, socket), s3);
    path := [s, s1, s2, s3];
  }

  /** From a dialed socket to an accepted and tracked one. */
  lemma TrackPath(s: State, w: nat, k: nat, socket: Socket) returns (path: seq<State>)
    requires |s.workers| == WORKERS && w < WORKERS && s.workers[w] == Locking(k, socket)
    requires !s.stop && s.holder == None
    ensures IsPath(path) && |path| == 4 && path[0] == s && AllUnanswered(path, w)
    ensures path[3] == Move(s, w, Exchanging(k, socket)).(accepted := s.accepted + {socket}, tracked := s.tracked + {socket})
  {
    var s1 := Move(s, w, Checking(k, socket)).(holder := Some(w));
    var s2 := Move(s, w, Inserting(k, socket)).(holder := Some(w), accepted := s.accepted + {socket});
    var s3 := Move(s, w, Exchanging(k, socket)).(accepted := s.accepted + {socket}, tracked := s.tracked + {socket});
    LockLeads(s, w, k, socket);
    CheckLeads(s1, w, k, socket);
    MoveTwice(s, w, Checking(k, socket), Inserting(k, socket));
    InsertLeads(s2, w, k, socket);
    MoveTwice(s, w, Inserting(k, socket), Exchanging(k, socket));
    ThreeSteps(s, Lock(w), s1, Check(w), s2, Insert(w), s3);
    path := [s, s1, s2, s3];
  }

  /** From the exchange to a closed and untracked socket. */
  lemma ClosePath(s: State, w: nat, k: nat, socket: Socket, answered: bool) returns (path: seq<State>)
    requires |s.workers| == WORKERS && w < WORKERS && s.workers[w] == Exchanging(k, socket) && s.holder == None
    ensures IsPath(path) && |path| == 4 && path[0] == s && AllUnanswered(path[..3], w)
    ensures path[3] == Move(s, w, if answered then Answering else Forwarding(k + 1))
                         .(closed := s.closed + {socket}, tracked := s.tracked - {socket})
  {
    var next := if answered then Answering else Forwarding(k + 1);
    var s1 := Move(s, w, Closing(k, socket, answered));
    var s2 := Move(s, w, Untracking(k, socket, answered)).(closed := s.closed + {socket});
    var s3 := Move(s, w, next).(closed := s.closed + {socket}, tracked := s.tracked - {socket});
    FinishLeads(s, w, k, socket, answered);
    CloseLeads(s1, w, k, socket, answered);
    MoveTwice(s, w, Closing(k, socket, answered), Untracking(k, socket, answered));
    UntrackLeads(s2, w, k, socket, answered);
    MoveTwice(s, w, Untracking(k, socket, answered), next);
    ThreeSteps(s, Finish(w, answered), s1, CloseSocket(w), s2, Untrack(w), s3);
    path := [s, s1, s2, s3];
  }

  predicate Unanswered(s: State, w: nat) { |s.workers| == WORKERS && w < WORKERS && !s.workers[w].Answering? }

  ghost predicate AllUnanswered(path: seq<State>, w: nat) {
    forall i :: 0 <= i < |path| ==> Unanswered(path[i], w)
  }

  lemma AllAndAll(a: seq<State>, b: seq<State>, w: nat)
    requires AllUnanswered(a, w) && AllUnanswered(b, w) && b != []
    ensures AllUnanswered(a + b[1..], w)
  {
  }

  /**
    A worker whose next server is reached dials it with a fresh socket, which is accepted and tracked before
    anything is exchanged, and closed and untracked afterwards. Answered, the worker has its response; else it goes
    on to the next server.
   */
  lemma ExchangeIsPossible(s: State, w: nat, k: nat, answered: bool) returns (path: seq<State>, socket: Socket)
    requires Open(s) && w < WORKERS && s.workers[w] == Forwarding(k) && k < s.servers
    ensures socket !in s.owner && IsPath(path) && |path| == 10 && path[0] == s
    ensures |path[6].workers| == WORKERS && path[6].workers[w] == Exchanging(k, socket)
    ensures socket in path[6].accepted && socket in path[6].tracked && socket !in path[6].closed
    ensures path[9] == Exchanged(s, w, socket, if answered then Answering else Forwarding(k + 1))
    ensures socket in path[9].closed && socket !in path[9].tracked && Open(path[9])
    ensures AllUnanswered(path[..9], w)
  {
    socket := FreshSocket(s.owner.Keys);
    var next := if answered then Answering else Forwarding(k + 1);
    var dial := DialPath(s, w, k, socket);
    var track := TrackPath(dial[3], w, k, socket);
    MoveTwice(s, w, Locking(k, socket), Exchanging(k, socket));
    var close := ClosePath(track[3], w, k, socket, answered);
    MoveTwice(s, w, Exchanging(k, socket), next);
    assert socket !in s.tracked && (s.tracked + {socket}) - {socket} == s.tracked;
    path := JoinPaths(dial, track, close, w);
    PathInv(path);
  }

  lemma JoinPaths(a: seq<State>, b: seq<State>, c: seq<State>, w: nat) returns (path: seq<State>)
    requires |a| == |b| == |c| == 4 && IsPath(a) && IsPath(b) && IsPath(c) && a[3] == b[0] && b[3] == c[0]
    requires AllUnanswered(a, w) && AllUnanswered(b, w) && AllUnanswered(c[..3], w)
    ensures IsPath(path) && |path| == 10 && path[0] == a[0] && path[6] == b[3] && path[9] == c[3]
    ensures AllUnanswered(path[..9], w)
  {
    PathAndPath(a, b);
    var ab := a + b[1..];
    PathAndPath(ab, c);
    path := ab + c[1..];
    AllAndAll(a, b, w);
    AllAndAll(ab, c[..3], w);
    assert path[..9] == ab + c[..3][1..];
  }

  lemma {:induction false} PathInv(path: seq<State>)
    requires IsPath(path) && Inv(path[0])
    ensures Inv(path[|path| - 1])
    decreases |path|
  {
    if |path| > 1 {
      var init := path[..|path| - 1];
      forall i | 0 <= i < |init| - 1 ensures StepAt(init, i) { assert StepAt(path, i); }
      PathInv(init);
      assert StepAt(path, |path| - 2);
      NextInv(init[|init| - 1], path[|path| - 1]);
    }
  }

  /** Between the two states one worker has tried servers; all it has dialed is closed and nothing of it tracked. */
  ghost predicate Tried(s: State, s': State, w: nat, dialed: nat)
    requires w < |s.workers|
  {
    && Open(s') && s'.servers == s.servers && s'.queue == s.queue && s'.tracked == s.tracked
    && |s'.workers| == |s.workers| && s'.workers == s.workers[w := s'.workers[w]]
    && s.owner.Keys <= s'.owner.Keys && s'.owner.Keys - s.owner.Keys <= s'.closed
    && |s'.owner.Keys| == |s.owner.Keys| + dialed
  }

  lemma ExchangedTried(s: State, s1: State, w: nat, dialed: nat, socket: Socket, next: Worker)
    requires w < |s.workers| && Tried(s, s1, w, dialed) && socket !in s1.owner && Open(Exchanged(s1, w, socket, next))
    ensures Tried(s, Exchanged(s1, w, socket, next), w, dialed + 1)
  {
    var s2 := Exchanged(s1, w, socket, next);
    assert s2.owner.Keys == s1.owner.Keys + {socket};
    assert s.workers[w := s1.workers[w]][w := next] == s.workers[w := next];
  }

  /** The servers before the `k`-th do not answer. */
  lemma {:induction false} TryServers(s: State, w: nat, k: nat) returns (path: seq<State>)
    requires Open(s) && w < WORKERS && s.workers[w] == Forwarding(0) && k <= s.servers
    ensures IsPath(path) && path[0] == s
    ensures var s' := path[|path| - 1]; Tried(s, s', w, k) && s'.workers[w] == Forwarding(k)
    ensures AllUnanswered(path, w)
  {
    if k == 0 {
      path := [s];
      assert s.workers[w := s.workers[w]] == s.workers;
    } else {
      var first := TryServers(s, w, k - 1);
      path := TryNext(s, w, k - 1, first);
    }
  }

  lemma TryNext(s: State, w: nat, k: nat, first: seq<State>) returns (path: seq<State>)
    requires w < |s.workers| == WORKERS && IsPath(first) && first[0] == s && AllUnanswered(first, w)
    requires var s1 := first[|first| - 1]; Tried(s, s1, w, k) && s1.workers[w] == Forwarding(k) && k < s.servers
    ensures IsPath(path) && path[0] == s && AllUnanswered(path, w)
    ensures var s' := path[|path| - 1]; Tried(s, s', w, k + 1) && s'.workers[w] == Forwarding(k + 1)
  {
    var s1 := first[|first| - 1];
    var more, socket := ExchangeIsPossible(s1, w, k, false);
    ExchangedTried(s, s1, w, k, socket, Forwarding(k + 1));
    assert more == more[..9] + [more[9]];
    assert AllUnanswered(more, w);
    AllAndAll(first, more, w);
    PathAndPath(first, more);
    path := first + more[1..];
    assert path[|path| - 1] == more[9];
  }

  /**
    A waiting query is taken by a waiting worker, and whichever server is the first to answer, the worker comes to
    have the answer, having tried the servers before it in order; everything dialed is closed.
   */
  lemma QueryIsAnswered(s: State, w: nat, k: nat) returns (path: seq<State>)
    requires Open(s) && s.queue > 0 && w < WORKERS && s.workers[w].Waiting? && k < s.servers
    ensures IsPath(path) && path[0] == s
    ensures var s' := path[|path| - 1];
            && s'.queue == s.queue - 1 && |s'.workers| == WORKERS && s'.workers[w].Answering?
            && s'.tracked == s.tracked && s.owner.Keys <= s'.owner.Keys && s'.owner.Keys - s.owner.Keys <= s'.closed
            && |s'.owner.Keys| == |s.owner.Keys| + k + 1
  {
    var s1 := Apply(s, Take(w));
    StepInv(s, Take(w));
    var first := TryServers(s1, w, k);
    var s2 := first[|first| - 1];
    var last, socket := ExchangeIsPossible(s2, w, k, true);
    ExchangedTried(s1, s2, w, k, socket, Answering);
    PathAndPath(first, last);
    path := first + last[1..];
    assert path[|path| - 1] == last[9] && path[0] == s1;
    StepAndPath(s, Take(w), path);
    path := [s] + path;
  }

  /** If no server answers, the worker waits for the next query, and has had no answer. */
  lemma QueryIsGivenUp(s: State, w: nat) returns (path: seq<State>)
    requires Open(s) && s.queue > 0 && w < WORKERS && s.workers[w].Waiting?
    ensures IsPath(path) && path[0] == s
    ensures AllUnanswered(path, w)
    ensures var s' := path[|path| - 1];
            && s'.queue == s.queue - 1 && |s'.workers| == WORKERS && s'.workers[w].Waiting?
            && |s'.owner.Keys| == |s.owner.Keys| + s.servers && s'.owner.Keys - s.owner.Keys <= s'.closed
  {
    var s1 := Apply(s, Take(w));
    StepInv(s, Take(w));
    var tries := TryServers(s1, w, s.servers);
    var s2 := tries[|tries| - 1];
    var s3 := Apply(s2, Head(w));
    OneStepPath(s2, Head(w));
    PathAndPath(tries, [s2, s3]);
    AllAndAll(tries, [s2, s3], w);
    path := tries + [s2, s3][1..];
    StepAndPath(s, Take(w), path);
    assert Unanswered(s, w);
    path := [s] + path;
  }

  lemma OneStepPath(s: State, t: Step)
    requires Enabled(s, t)
    ensures IsPath([s, Apply(s, t)])
  {
    assert Next([s, Apply(s, t)][0], [s, Apply(s, t)][1]);
  }

  /** A query that arrives while the queue is not full waits in it, and the receiver reads on. */
  lemma QueryIsQueued(s: State)
    requires Open(s) && s.connOpen && s.server.Reading? && s.queue < 128
    ensures var s1 := s.(server := Queueing);
            var s2 := s.(queue := s.queue + 1);
            IsPath([s, s1, s2]) && Open(s2)
  {
    var s1 := Apply(s, Receive);
    StepInv(s, Receive);
    StepInv(s1, Enqueue);
    OneStepPath(s1, Enqueue);
    StepAndPath(s, Receive, [s1, Apply(s1, Enqueue)]);
    assert [s] + [s1, Apply(s1, Enqueue)] == [s, s1, Apply(s1, Enqueue)];
  }

  /** The first `n` workers exchange at the same time, the others wait; nothing is queued. */
  ghost predicate Busy(s: State, n: nat) {
    && Open(s) && s.connOpen && s.server.Reading? && s.queue == 0 && s.servers > 0
    && n <= WORKERS && |s.tracked| == n
    && (forall w :: 0 <= w < n ==> s.workers[w].Exchanging?)
    && (forall w :: n <= w < WORKERS ==> s.workers[w].Waiting?)
  }

  lemma OneMoreBusy(s: State, n: nat) returns (path: seq<State>)
    requires Busy(s, n) && n < WORKERS
    ensures IsPath(path) && path[0] == s && Busy(path[|path| - 1], n + 1)
  {
    var arrive := TakenPath(s, n);
    var s2 := arrive[|arrive| - 1];
    var socket := FreshSocket(s.owner.Keys);
    var dial := DialPath(s2, n, 0, socket);
    var track := TrackPath(dial[3], n, 0, socket);
    MoveTwice(s, n, Forwarding(0), Locking(0, socket));
    MoveTwice(s, n, Locking(0, socket), Exchanging(0, socket));
    PathAndPath(dial, track);
    var all := dial + track[1..];
    PathAndPath(arrive, all);
    path := arrive + all[1..];
    assert path[|path| - 1] == track[3];
    PathInv(all);
    StillBusy(s, n, track[3], socket);
  }

  /** A query arrives and a waiting worker takes it. */
  lemma TakenPath(s: State, n: nat) returns (path: seq<State>)
    requires Busy(s, n) && n < WORKERS
    ensures IsPath(path) && path[0] == s && path[|path| - 1] == Move(s, n, Forwarding(0))
    ensures Inv(Move(s, n, Forwarding(0)))
  {
    QueryIsQueued(s);
    var s1 := s.(queue := s.queue + 1);
    OneStepPath(s1, Take(n));
    StepInv(s1, Take(n));
    PathAndPath([s, s.(server := Queueing), s1], [s1, Apply(s1, Take(n))]);
    path := [s, s.(server := Queueing), s1] + [s1, Apply(s1, Take(n))][1..];
    assert path[|path| - 1] == Apply(s1, Take(n));
  }

  lemma StillBusy(s: State, n: nat, s': State, socket: Socket)
    requires Busy(s, n) && n < WORKERS && Inv(s') && socket !in s.tracked
    requires s' == s.(workers := s.workers[n := Exchanging(0, socket)], owner := s.owner[socket := n],
                      accepted := s.accepted + {socket}, tracked := s.tracked + {socket})
    ensures Busy(s', n + 1)
  {
  }

  /** The bound is reached: from a new forwarder with a server, some run has 32 upstreams tracked at once. */
  lemma {:induction false} AllAtOnce(s: State, n: nat) returns (run: seq<State>)
    requires Init(s) && s.servers > 0 && n <= 32
    ensures IsRun(run) && run[0] == s && Busy(run[|run| - 1], n) && |run[|run| - 1].tracked| == n
  {
    InitInv(s);
    if n == 0 {
      run := [s];
    } else {
      var before := AllAtOnce(s, n - 1);
      var more := OneMoreBusy(before[|before| - 1], n - 1);
      PathAndPath(before, more);
      run := before + more[1..];
    }
  }
}
