/** The phase graph of a VM, and what every path through it has in common. */
module LifecyclePhases {

  datatype Phase =
    | Unset // the empty string
    | Creating | Created | Starting | Running | Stopping | Stopped | Cleaning | Cleaned
    | CreateFailed | StartFailed | StopFailed | CleanupFailed
    | Unknown(name: string) // any other string

  predicate IsKnown(p: Phase) { !p.Unset? && !p.Unknown? }

  function AllowedTransitions(from: Phase): set<Phase> {
    match from
    case Creating => {Creating, Created, CreateFailed, Cleaning}
    case Created => {Created, Starting, Stopping, Cleaning}
    case Starting => {Starting, Running, StartFailed, Stopping, Cleaning}
    case Running => {Running, Stopping, Cleaning}
    case Stopping => {Stopping, Stopped, StopFailed, Cleaning}
    case Stopped => {Stopped, Cleaning, Cleaned}
    case Cleaning => {Cleaning, Cleaned, CleanupFailed}
    case CreateFailed => {CreateFailed, Cleaning, CleanupFailed}
    case StartFailed => {StartFailed, Stopping, Cleaning, CleanupFailed}
    case StopFailed => {StopFailed, Cleaning, CleanupFailed}
    case CleanupFailed => {CleanupFailed, Cleaning, Cleaned}
    case Cleaned => {Cleaned}
    case _ => {}
  }

  /** `validateTransition` raises no error. */
  predicate Permitted(from: Phase, to: Phase) {
    !to.Unset? && to in AllowedTransitions(if from.Unset? then Creating else from)
  }

  /** Progress through the life of a VM. */
  function Rank(p: Phase): nat {
    match p
    case Creating => 0
    case Unset => 0
    case Created => 1
    case CreateFailed => 1
    case Starting => 2
    case Running => 3
    case StartFailed => 3
    case Stopping => 4
    case Stopped => 5
    case StopFailed => 5
    case Cleaning => 6
    case CleanupFailed => 7
    case Cleaned => 8
    case Unknown(_) => 0
  }

  /** Every transition to another phase advances, but for the one that retries a failed cleanup. */
  lemma TransitionsAdvance(from: Phase, to: Phase)
    requires Permitted(from, to) && IsKnown(from)
    ensures IsKnown(to)
    ensures from != to ==> (Rank(to) > Rank(from) <==> !(from.CleanupFailed? && to.Cleaning?))
  {
  }

  /** A phase that is not final can go to cleaning directly; the final one and unknown ones cannot. */
  lemma CleaningIsNext(from: Phase)
    ensures Permitted(from, Cleaning) <==> from != Cleaned && !from.Unknown?
  {
  }

  ghost predicate IsPhasePath(path: seq<Phase>) {
    && (forall i :: 0 <= i < |path| ==> IsKnown(path[i]))
    && (forall i, j :: 0 <= i && j == i + 1 < |path| ==> Permitted(path[i], path[j]))
  }

  /** A path never falls below a rank it has reached, except from a failed cleanup back to cleaning. */
  lemma {:induction false} RanksOfPath(path: seq<Phase>, i: nat, j: nat)
    requires IsPhasePath(path) && i <= j < |path|
    ensures Rank(path[j]) >= (if Rank(path[i]) == Rank(CleanupFailed) then Rank(Cleaning) else Rank(path[i]))
    ensures Rank(path[i]) == Rank(Cleaned) ==> path[j] == Cleaned
  {
    if i < j {
      RanksOfPath(path, i, j - 1);
      assert Permitted(path[j - 1], path[j]);
      TransitionsAdvance(path[j - 1], path[j]);
    }
  }

  /** `cleaned` is final. */
  lemma CleanedIsFinal(path: seq<Phase>, i: nat, j: nat)
    requires IsPhasePath(path) && i <= j < |path| && path[i] == Cleaned
    ensures path[j] == Cleaned
  {
    RanksOfPath(path, i, j);
  }

  /** No run reaches `running`, or any earlier phase, again once it has been stopping. */
  lemma NeverRunningAgain(path: seq<Phase>, i: nat, j: nat)
    requires IsPhasePath(path) && i <= j < |path| && path[i] == Stopping
    ensures path[j] !in {Creating, Created, Starting, Running, CreateFailed, StartFailed}
  {
    RanksOfPath(path, i, j);
  }

  /** The phase that must have been recorded before this one, for a VM that starts out creating. */
  function Prerequisite(p: Phase): Phase {
    match p
    case Created => Creating
    case CreateFailed => Creating
    case Starting => Created
    case Running => Starting
    case StartFailed => Starting
    case Stopped => Stopping
    case StopFailed => Stopping
    case _ => p
  }

  /** No stage is skipped: a VM runs only after starting, starts only once created, and stops only after stopping. */
  lemma {:induction false} NoStageIsSkipped(path: seq<Phase>, j: nat) returns (i: nat)
    requires IsPhasePath(path) && j < |path| && path[0] == Creating
    ensures i <= j && path[i] == Prerequisite(path[j])
    ensures Prerequisite(path[j]) != path[j] ==> i < j
  {
    i := j;
    if Prerequisite(path[j]) != path[j] {
      assert Permitted(path[j - 1], path[j]);
      if path[j - 1] == path[j] {
        i := NoStageIsSkipped(path, j - 1);
      } else {
        i := j - 1;
      }
    }
  }

  /** Every phase can be reached from creating. */
  lemma EveryPhaseIsReached(p: Phase) returns (path: seq<Phase>)
    requires IsKnown(p)
    ensures IsPhasePath(path) && |path| > 0 && path[0] == Creating && path[|path| - 1] == p
  {
    var main := [Creating, Created, Starting, Running, Stopping, Stopped, Cleaned];
    match p {
      case Creating => path := main[..1];
      case Created => path := main[..2];
      case Starting => path := main[..3];
      case Running => path := main[..4];
      case Stopping => path := main[..5];
      case Stopped => path := main[..6];
      case Cleaned => path := main;
      case Cleaning => path := [Creating, Cleaning];
      case CreateFailed => path := [Creating, CreateFailed];
      case StartFailed => path := [Creating, Created, Starting, StartFailed];
      case StopFailed => path := [Creating, Created, Stopping, StopFailed];
      case CleanupFailed => path := [Creating, Cleaning, CleanupFailed];
    }
  }

  /** On a path that never leaves a failed cleanup for another try, every phase is left for good. */
  lemma {:induction false} NoPhaseRepeats(path: seq<Phase>, i: nat, j: nat, k: nat)
    requires IsPhasePath(path) && i <= j <= k < |path| && path[i] == path[k]
    requires forall l, m :: i <= l && m == l + 1 <= k ==> !(path[l] == CleanupFailed && path[m] == Cleaning)
    ensures path[j] == path[i]
  {
    StrictRanks(path, i, j);
    StrictRanks(path, j, k);
  }

  lemma {:induction false} StrictRanks(path: seq<Phase>, i: nat, j: nat)
    requires IsPhasePath(path) && i <= j < |path|
    requires forall l, m :: i <= l && m == l + 1 <= j ==> !(path[l] == CleanupFailed && path[m] == Cleaning)
    ensures path[i] == path[j] || Rank(path[i]) < Rank(path[j])
  {
    if i < j {
      StrictRanks(path, i, j - 1);
      assert Permitted(path[j - 1], path[j]);
      TransitionsAdvance(path[j - 1], path[j]);
    }
  }

  /** Where each phase is entered from, besides itself; a record without a phase counts as creating. */
  lemma EnteredFrom(from: Phase, to: Phase)
    requires from != to
    ensures Permitted(from, to) <==>
      match to
      case Creating => from == Unset
      case Created => from in {Unset, Creating}
      case Starting => from == Created
      case Running => from == Starting
      case Stopping => from in {Created, Starting, Running, StartFailed}
      case Stopped => from == Stopping
      case Cleaning => from != Cleaned && !from.Unknown?
      case Cleaned => from in {Stopped, Cleaning, CleanupFailed}
      case CreateFailed => from in {Unset, Creating}
      case StartFailed => from == Starting
      case StopFailed => from == Stopping
      case CleanupFailed => from in {Cleaning, CreateFailed, StartFailed, StopFailed}
      case _ => false
  {
  }

  /** A known phase may always be recorded again; no other name may. */
  lemma Repeated(p: Phase)
    ensures Permitted(p, p) <==> IsKnown(p)
  {
  }
}
