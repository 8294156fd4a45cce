/** Concurrent collections: the cross-process snapshot lock, worker threads and cancellation. */
module CollectionLock {
  import opened Options
  import opened MapSums

  type Id = nat

  /** The thread behind one collection; a scheduled one can still be cancelled, a live one cannot. */
  datatype Worker = NoWorker | Scheduled | Live | Ended

  /** Where the coroutine of one collection is suspended or running. */
  datatype Phase =
    | Waiting      // retrying the lock, sleeping in between
    | Holding      // inside the transaction, before the worker exists
    | Collecting   // awaiting the shielded worker
    | Draining     // cancelled once, awaiting the worker itself
    | Saving       // the worker's results are being stored
    | Unwinding    // leaving the transaction, on success or error
    | Done

  datatype Collection = Collection(phase: Phase, worker: Worker, cancellations: nat)

  /** Every collection in every process, and the holder of the lock file. */
  datatype State = State(lock: Option<Id>, collections: map<Id, Collection>)

  datatype Step =
    | Arrive(c: Id)
    | TryLock(c: Id)
    | StartCollecting(c: Id)
    | ThreadStarts(c: Id)
    | Write(c: Id)
    | ThreadEnds(c: Id)
    | WorkerObserved(c: Id)
    | FinishSaving(c: Id)
    | Fail(c: Id)
    | Cancel(c: Id)
    | Release(c: Id)

  const START := State(None, map[])

  predicate At(s: State, c: Id, phase: Phase)
  {
    c in s.collections && s.collections[c].phase == phase
  }

  predicate WorkerIs(s: State, c: Id, worker: Worker)
  {
    c in s.collections && s.collections[c].worker == worker
  }

  function SetPhase(s: State, c: Id, phase: Phase): State
    requires c in s.collections
  {
    s.(collections := s.collections[c := s.collections[c].(phase := phase)])
  }

  function SetWorker(s: State, c: Id, worker: Worker): State
    requires c in s.collections
  {
    s.(collections := s.collections[c := s.collections[c].(worker := worker)])
  }

  /** What a cancellation does depends on the await it interrupts. */
  function Cancelled(s: State, c: Id): State
    requires c in s.collections
  {
    var coll := s.collections[c].(cancellations := s.collections[c].cancellations + 1);
    var after :=
      match coll.phase
      case Waiting => coll.(phase := Done)
      case Holding => coll.(phase := Unwinding)
      case Saving => coll.(phase := Unwinding)
      case Collecting => coll.(phase := Draining)
      case Draining => coll.(phase := Unwinding, worker := if coll.worker.Scheduled? then Ended else coll.worker)
      case Unwinding => coll
      case Done => coll;
    s.(collections := s.collections[c := after])
  }

  predicate Enabled(s: State, step: Step)
  {
    match step
    case Arrive(c) => c !in s.collections
    case TryLock(c) => At(s, c, Waiting)
    case StartCollecting(c) => At(s, c, Holding)
    case ThreadStarts(c) => WorkerIs(s, c, Scheduled)
    case Write(c) => WorkerIs(s, c, Live)
    case ThreadEnds(c) => WorkerIs(s, c, Live)
    case WorkerObserved(c) => WorkerIs(s, c, Ended) && (At(s, c, Collecting) || At(s, c, Draining))
    case FinishSaving(c) => At(s, c, Saving)
    case Fail(c) => At(s, c, Holding) || At(s, c, Saving)
    case Cancel(c) => c in s.collections && !At(s, c, Unwinding) && !At(s, c, Done)
    case Release(c) => At(s, c, Unwinding)
  }

  /** The effect of one step; a failed lock attempt and a write change nothing in this state. */
  function After(s: State, step: Step): State
    requires Enabled(s, step)
  {
    match step
    case Arrive(c) => s.(collections := s.collections[c := Collection(Waiting, NoWorker, 0)])
    case TryLock(c) => if s.lock.Some? then s else SetPhase(s.(lock := Some(c)), c, Holding)
    case StartCollecting(c) => SetWorker(SetPhase(s, c, Collecting), c, Scheduled)
    case ThreadStarts(c) => SetWorker(s, c, Live)
    case Write(c) => s
    case ThreadEnds(c) => SetWorker(s, c, Ended)
    case WorkerObserved(c) => SetPhase(s, c, if s.collections[c].phase.Collecting? then Saving else Unwinding)
    case FinishSaving(c) => SetPhase(s, c, Unwinding)
    case Fail(c) => SetPhase(s, c, Unwinding)
    case Cancel(c) => Cancelled(s, c)
    case Release(c) => SetPhase(if s.lock == Some(c) then s.(lock := None) else s, c, Done)
  }

  // ----- Schedules -----

  /** An interleaving of enabled steps from the start. */
  ghost predicate Interleaving(steps: seq<Step>, states: seq<State>)
  {
    && |states| == |steps| + 1 && states[0] == START
    && forall i :: 0 <= i < |steps| ==> Enabled(states[i], steps[i]) && states[i + 1] == After(states[i], steps[i])
  }

  /** No collection is cancelled more often than allowed. */
  ghost predicate WithinBudget(states: seq<State>, budget: nat)
  {
    forall i, c :: 0 <= i < |states| && c in states[i].collections ==> states[i].collections[c].cancellations <= budget
  }

  ghost predicate Schedule(steps: seq<Step>, states: seq<State>, budget: nat)
  {
    Interleaving(steps, states) && WithinBudget(states, budget)
  }

  /** The step that goes wrong: cancelling the unshielded await of a worker that is running. */
  predicate Orphans(s: State, step: Step)
  {
    step.Cancel? && At(s, step.c, Draining) && WorkerIs(s, step.c, Live)
  }

  /** No step up to n orphans a worker. */
  ghost predicate OrphanFree(steps: seq<Step>, states: seq<State>, n: nat)
    requires n <= |steps| < |states|
  {
    forall i :: 0 <= i < n ==> !Orphans(states[i], steps[i])
  }

  /** A live worker's own collection holds the lock. */
  ghost predicate Safe(s: State)
  {
    forall c: Id :: WorkerIs(s, c, Live) ==> s.lock == Some(c)
  }

  predicate HoldsLock(phase: Phase)
  {
    phase.Holding? || phase.Collecting? || phase.Draining? || phase.Saving? || phase.Unwinding?
  }

  /** What holds of one collection, given whether it holds the lock. */
  predicate CollectionInv(c: Collection, holder: bool)
  {
    && (HoldsLock(c.phase) <==> holder)
    && (c.worker.Scheduled? || c.worker.Live? ==> c.phase.Collecting? || c.phase.Draining?)
    && (c.phase.Collecting? || c.phase.Draining? ==> !c.worker.NoWorker?)
    && (c.phase.Draining? ==> 1 <= c.cancellations)
  }

  ghost predicate Inv(s: State)
  {
    && (s.lock.Some? ==> s.lock.value in s.collections)
    && forall c :: c in s.collections ==> CollectionInv(s.collections[c], s.lock == Some(c))
  }

  /** Every step changes at most its own collection, and hands the lock only to or from it. */
  lemma StepChangesOne(s: State, step: Step)
    requires Inv(s) && Enabled(s, step)
    ensures var t, c := After(s, step), step.c;
            && c in t.collections && t.collections == s.collections[c := t.collections[c]]
            && (forall d: Id :: d != c ==> (t.lock == Some(d) <==> s.lock == Some(d)))
  {
  }

  lemma StepKeepsOne(s: State, step: Step)
    requires Inv(s) && Enabled(s, step) && !Orphans(s, step)
    ensures var t, c := After(s, step), step.c; c in t.collections && CollectionInv(t.collections[c], t.lock == Some(c))
  {
  }

  /** The invariant survives every step but the orphaning one. */
  lemma StepKeepsInv(s: State, step: Step)
    requires Inv(s) && Enabled(s, step) && !Orphans(s, step)
    ensures Inv(After(s, step))
  {
    StepChangesOne(s, step);
    StepKeepsOne(s, step);
    hide CollectionInv, After, Enabled;
  }

  lemma {:induction false} InterleavingKeepsInv(steps: seq<Step>, states: seq<State>, n: nat)
    requires Interleaving(steps, states) && n <= |steps| && OrphanFree(steps, states, n)
    ensures Inv(states[n])
  {
    if n != 0 {
      InterleavingKeepsInv(steps, states, n - 1);
      assert states[n - 1 + 1] == After(states[n - 1], steps[n - 1]);
      StepKeepsInv(states[n - 1], steps[n - 1]);
    }
  }

  /** However often collections are cancelled: as long as no cancellation hits the second await of a
      running worker, every write happens under the writer's own lock, two workers are never live
      together and none outlives its release. */
  lemma OrphanFreeIsSafe(steps: seq<Step>, states: seq<State>, n: nat)
    requires Interleaving(steps, states) && n <= |steps| && OrphanFree(steps, states, n)
    ensures Safe(states[n])
    ensures n < |steps| && steps[n].Write? ==> states[n].lock == Some(steps[n].c)
    ensures n < |steps| && steps[n].Release? ==> !WorkerIs(states[n + 1], steps[n].c, Live)
    ensures forall c: Id, d: Id :: WorkerIs(states[n], c, Live) && WorkerIs(states[n], d, Live) ==> c == d
  {
    InterleavingKeepsInv(steps, states, n);
    if n < |steps| {
      assert Enabled(states[n], steps[n]) && states[n + 1] == After(states[n], steps[n]);
    }
  }

  /** Whether the next scheduling choice may release the lock under a live worker. */
  ghost predicate ReleaseExposes(s: State)
  {
    exists c: Id :: Enabled(s, Release(c)) && !Safe(After(s, Release(c)))
  }

  /** Exactly the orphaning step leads to a state in which releasing the lock leaves a worker writing
      without it. */
  lemma OrphaningIsExactlyUnsafe(steps: seq<Step>, states: seq<State>, step: Step)
    requires Interleaving(steps, states) && OrphanFree(steps, states, |steps|)
    requires Enabled(states[|steps|], step)
    ensures ReleaseExposes(After(states[|steps|], step)) <==> Orphans(states[|steps|], step)
  {
    var s := states[|steps|];
    var t := After(s, step);
    InterleavingKeepsInv(steps, states, |steps|);
    if Orphans(s, step) {
      OrphanIsExposed(s, step.c);
    } else {
      StepKeepsInv(s, step);
      forall c: Id | Enabled(t, Release(c)) ensures Safe(After(t, Release(c))) {
        StepKeepsInv(t, Release(c));
      }
    }
  }

  lemma OrphanIsExposed(s: State, c: Id)
    requires Inv(s) && Orphans(s, Cancel(c))
    ensures ReleaseExposes(After(s, Cancel(c)))
  {
    var t := After(s, Cancel(c));
    assert Enabled(t, Release(c)) && WorkerIs(After(t, Release(c)), c, Live);
  }

  lemma {:induction false} OneCancellationIsOrphanFree(steps: seq<Step>, states: seq<State>, n: nat)
    requires Schedule(steps, states, 1) && n <= |steps|
    ensures OrphanFree(steps, states, n)
  {
    if n != 0 {
      OneCancellationIsOrphanFree(steps, states, n - 1);
      InterleavingKeepsInv(steps, states, n - 1);
      var step := steps[n - 1];
      assert states[n - 1 + 1] == After(states[n - 1], step);
      if Orphans(states[n - 1], step) {
        assert states[n].collections[step.c].cancellations <= 1;
      }
    }
  }

  /** With at most one cancellation per collection every schedule has these guarantees. */
  lemma OneCancellationIsSafe(steps: seq<Step>, states: seq<State>, n: nat)
    requires Schedule(steps, states, 1) && n <= |steps|
    ensures Safe(states[n])
    ensures n < |steps| && steps[n].Write? ==> states[n].lock == Some(steps[n].c)
    ensures n < |steps| && steps[n].Release? ==> !WorkerIs(states[n + 1], steps[n].c, Live)
    ensures forall c: Id, d: Id :: WorkerIs(states[n], c, Live) && WorkerIs(states[n], d, Live) ==> c == d
  {
    OneCancellationIsOrphanFree(steps, states, n);
    OrphanFreeIsSafe(steps, states, n);
  }

  /** A cancelled collection is on its way out, and results are saved only once the worker has ended. */
  predicate LeavesOnceCancelled(c: Collection)
  {
    && (0 < c.cancellations ==> c.phase.Draining? || c.phase.Unwinding? || c.phase.Done?)
    && (c.phase.Saving? ==> c.worker.Ended?)
  }

  /** In every interleaving, orphans or not, a cancelled collection never saves again. */
  lemma {:induction false} CancelledNeverSaves(steps: seq<Step>, states: seq<State>, n: nat)
    requires Interleaving(steps, states) && n <= |steps|
    ensures forall c :: c in states[n].collections ==> LeavesOnceCancelled(states[n].collections[c])
    ensures n < |steps| && steps[n].FinishSaving? ==>
              states[n].collections[steps[n].c].cancellations == 0 && WorkerIs(states[n], steps[n].c, Ended)
  {
    if n != 0 {
      CancelledNeverSaves(steps, states, n - 1);
      assert Enabled(states[n - 1], steps[n - 1]) && states[n - 1 + 1] == After(states[n - 1], steps[n - 1]);
      StepLeaves(states[n - 1], steps[n - 1]);
    }
    if n < |steps| {
      assert Enabled(states[n], steps[n]);
    }
  }

  lemma StepLeaves(s: State, step: Step)
    requires Enabled(s, step)
    requires forall c :: c in s.collections ==> LeavesOnceCancelled(s.collections[c])
    ensures forall c :: c in After(s, step).collections ==> LeavesOnceCancelled(After(s, step).collections[c])
  {
  }

  /** Before step n the results of collection c were saved, or it failed or was cancelled. */
  ghost predicate WasSettled(steps: seq<Step>, c: Id, n: nat)
    requires n <= |steps|
  {
    exists i :: 0 <= i < n && (steps[i] == FinishSaving(c) || steps[i] == Fail(c) || steps[i] == Cancel(c))
  }

  /** In every interleaving a collection that nobody cancels and that does not fail saves the results of its
      ended worker before it leaves. */
  lemma {:induction false} OnlySavedLeaves(steps: seq<Step>, states: seq<State>, n: nat, c: Id)
    requires Interleaving(steps, states) && n <= |steps|
    requires At(states[n], c, Draining) || At(states[n], c, Unwinding) || At(states[n], c, Done)
    ensures WasSettled(steps, c, n)
  {
    assert Enabled(states[n - 1], steps[n - 1]) && states[n - 1 + 1] == After(states[n - 1], steps[n - 1]);
    if At(states[n - 1], c, Draining) || At(states[n - 1], c, Unwinding) || At(states[n - 1], c, Done) {
      OnlySavedLeaves(steps, states, n - 1, c);
    } else {
      assert steps[n - 1] == FinishSaving(c) || steps[n - 1] == Fail(c) || steps[n - 1] == Cancel(c);
    }
  }

  // ----- The second cancellation -----

  /** Collection 0 is cancelled twice while its thread runs; collection 1 then takes the free lock. */
  const OVERLAP := [
    Arrive(0), TryLock(0), StartCollecting(0), ThreadStarts(0), Cancel(0), Cancel(0), Release(0),
    Arrive(1), TryLock(1), StartCollecting(1), ThreadStarts(1)]

  function OverlapState(n: nat): State
    requires n <= 11
  {
    var first := [
      Collection(Waiting, NoWorker, 0), Collection(Holding, NoWorker, 0), Collection(Collecting, Scheduled, 0),
      Collection(Collecting, Live, 0), Collection(Draining, Live, 1), Collection(Unwinding, Live, 2),
      Collection(Done, Live, 2)];
    var second := [
      Collection(Waiting, NoWorker, 0), Collection(Holding, NoWorker, 0), Collection(Collecting, Scheduled, 0),
      Collection(Collecting, Live, 0)];
    if n == 0 then START
    else if n <= 7 then State(if 2 <= n <= 6 then Some(0) else None, map[0 := first[n - 1]])
    else State(if 9 <= n then Some(1) else None, map[0 := first[6], 1 := second[n - 8]])
  }

  lemma OverlapIsSchedule(budget: nat)
    requires 2 <= budget
    ensures Schedule(OVERLAP, seq(12, n requires 0 <= n < 12 => OverlapState(n)), budget)
    ensures WorkerIs(OverlapState(11), 0, Live) && WorkerIs(OverlapState(11), 1, Live)
    ensures !Safe(OverlapState(7)) && !Safe(OverlapState(11))
  {
    forall i | 0 <= i < 11
      ensures Enabled(OverlapState(i), OVERLAP[i]) && OverlapState(i + 1) == After(OverlapState(i), OVERLAP[i])
    {
      OverlapStep(i);
    }
    assert WorkerIs(OverlapState(7), 0, Live) && OverlapState(7).lock == None;
    assert WorkerIs(OverlapState(11), 0, Live) && OverlapState(11).lock == Some(1);
  }

  lemma OverlapStep(i: nat)
    requires i < 11
    ensures Enabled(OverlapState(i), OVERLAP[i]) && OverlapState(i + 1) == After(OverlapState(i), OVERLAP[i])
  {
    if i < 4 {
      OverlapStarts(i);
    } else if i < 7 {
      OverlapCancels(i);
    } else {
      OverlapContinues(i);
    }
  }

  lemma OverlapStarts(i: nat)
    requires i < 4
    ensures Enabled(OverlapState(i), OVERLAP[i]) && OverlapState(i + 1) == After(OverlapState(i), OVERLAP[i])
  {
  }

  lemma OverlapCancels(i: nat)
    requires 4 <= i < 7
    ensures Enabled(OverlapState(i), OVERLAP[i]) && OverlapState(i + 1) == After(OverlapState(i), OVERLAP[i])
  {
  }

  lemma OverlapContinues(i: nat)
    requires 7 <= i < 11
    ensures Enabled(OverlapState(i), OVERLAP[i]) && OverlapState(i + 1) == After(OverlapState(i), OVERLAP[i])
  {
  }

  ghost predicate AlwaysSafe(budget: nat)
  {
    forall steps, states :: Schedule(steps, states, budget) ==> forall n :: 0 <= n < |states| ==> Safe(states[n])
  }

  /** All schedules of a cancellation budget are safe exactly when the budget is at most one. */
  lemma SafeExactlyUpToOneCancellation(budget: nat)
    ensures AlwaysSafe(budget) <==> budget <= 1
  {
    if budget <= 1 {
      forall steps, states | Schedule(steps, states, budget)
        ensures forall n :: 0 <= n < |states| ==> Safe(states[n])
      {
        assert Schedule(steps, states, 1);
        forall n | 0 <= n < |states| ensures Safe(states[n]) {
          OneCancellationIsSafe(steps, states, n);
        }
      }
    } else {
      OverlapIsSchedule(budget);
      var states := seq(12, n requires 0 <= n < 12 => OverlapState(n));
      assert Schedule(OVERLAP, states, budget) && !Safe(states[7]);
    }
  }

  // ----- No deadlock -----

  function WorkerRank(w: Worker): nat
  {
    match w case Scheduled => 2 case Live => 1 case NoWorker => 0 case Ended => 0
  }

  function Rank(c: Collection): nat
  {
    match c.phase
    case Waiting => 8
    case Holding => 7
    case Collecting => 3 + WorkerRank(c.worker)
    case Draining => 3 + WorkerRank(c.worker)
    case Saving => 2
    case Unwinding => 1
    case Done => 0
  }

  ghost function Work(s: State): nat
  {
    Total(map c | c in s.collections :: Rank(s.collections[c]))
  }

  lemma WorkDrops(s: State, t: State, c: Id, after: Collection)
    requires c in s.collections && t.collections == s.collections[c := after]
    requires Rank(after) < Rank(s.collections[c])
    ensures Work(t) < Work(s)
  {
    var ranks := map k | k in s.collections :: Rank(s.collections[k]);
    assert (map k | k in t.collections :: Rank(t.collections[k])) == ranks[c := Rank(after)];
    TotalUpdate(ranks, c, Rank(after));
  }

  /** The step that brings the protocol closer to completion. */
  function NextStep(s: State, c: Id): Step
    requires c in s.collections && !s.collections[c].phase.Done?
  {
    match s.collections[c].phase
    case Waiting => TryLock(c)
    case Holding => StartCollecting(c)
    case Saving => FinishSaving(c)
    case Unwinding => Release(c)
    case _ =>
      match s.collections[c].worker
      case Scheduled => ThreadStarts(c)
      case Live => ThreadEnds(c)
      case _ => WorkerObserved(c)
  }

  lemma NextStepMakesProgress(s: State, c: Id)
    requires Inv(s) && c in s.collections && !s.collections[c].phase.Done?
    requires s.lock == Some(c) || s.lock == None
    ensures Enabled(s, NextStep(s, c)) && Inv(After(s, NextStep(s, c)))
    ensures Work(After(s, NextStep(s, c))) < Work(s)
  {
    var t := After(s, NextStep(s, c));
    StepKeepsInv(s, NextStep(s, c));
    WorkDrops(s, t, c, t.collections[c]);
  }

  ghost predicate AllDone(s: State)
  {
    s.lock == None && forall c :: c in s.collections ==> s.collections[c].phase.Done?
  }

  /** A continuation in which nobody else arrives, fails or is cancelled. */
  ghost predicate Continuation(s: State, steps: seq<Step>, t: State)
    decreases |steps|
  {
    if steps == [] then s == t
    else Enabled(s, steps[0]) && Continuation(After(s, steps[0]), steps[1..], t)
  }

  /** From every reachable state some continuation completes every collection and frees the lock. */
  lemma {:induction false} EveryCollectionCanFinish(s: State) returns (steps: seq<Step>, t: State)
    requires Inv(s)
    ensures Continuation(s, steps, t) && AllDone(t)
    decreases Work(s)
  {
    if AllDone(s) {
      return [], s;
    }
    var c: Id;
    if s.lock.Some? {
      c := s.lock.value;
    } else {
      c :| c in s.collections && !s.collections[c].phase.Done?;
    }
    NextStepMakesProgress(s, c);
    var rest;
    rest, t := EveryCollectionCanFinish(After(s, NextStep(s, c)));
    steps := [NextStep(s, c)] + rest;
    assert steps[1..] == rest;
  }
}
