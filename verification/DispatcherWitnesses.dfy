/**
 Three runs of the dispatcher that reach what its laws warn of: a command stranded by shutdown, a registry
 that loses a running command to another with the same ID, and an acknowledgement lost before idle.
 */
module DispatcherWitnesses {
  import opened Dispatcher
  import opened DispatcherRuns

  // ---------------------------------------------------------------- shutdown

  const PULL := Command("pull", "install_model")

  const PENDING := INIT.(pending := [PULL])
  const COUNTED := INIT.(accepted := [PULL], activeCount := 1, flights := map[0 := Blocked])
  const SENT := COUNTED.(flights := map[0 := Queued], queue := [0])
  const SHUT := SENT.(shutdown := true)
  const STRANDED := SHUT.(worker := Stopped)

  lemma CountedIsReachable()
    ensures Reachable(1, COUNTED)
  {
    Initially(1);
    ReachNext(1, INIT, Receive([PULL]), PENDING);
    assert PENDING.pending[1..] == [] && [] + [PULL] == [PULL];
    assert COUNTED.flights == map[][0 := Blocked];
    ReachNext(1, PENDING, Accept, COUNTED);
  }

  lemma StrandedIsReachable()
    ensures Reachable(1, STRANDED)
  {
    CountedIsReachable();
    assert COUNTED.flights[0 := Queued] == SENT.flights;
    ReachNext(1, COUNTED, SendHeavy(0), SENT);
    ReachNext(1, SENT, Shutdown, SHUT);
    ReachNext(1, SHUT, StopWorker, STRANDED);
  }

  // The counter stays at one for ever, whatever capacity the light lane has.
  lemma NothingMovesStranded(cap: nat, e: Event, s': State)
    requires Next(cap, STRANDED, e, s')
    ensures e.Receive?
  {
  }

  /** A heavy command in the channel at shutdown is never taken: the run ends with the counter at one. */
  lemma ShutdownCanStrand()
    ensures Reachable(1, STRANDED)
    ensures STRANDED.shutdown && STRANDED.queue == [0] && STRANDED.activeCount == 1 && !CanAct(1, STRANDED)
  {
    StrandedIsReachable();
    forall e, s' | Next(1, STRANDED, e, s') ensures e.Receive? { NothingMovesStranded(1, e, s'); }
  }

  // ------------------------------------------------------------- a shared ID

  const CHECK := Command("check", "health_check")

  const TWO := INIT.(pending := [CHECK, CHECK])
  const ONE_IN := INIT.(pending := [CHECK], accepted := [CHECK], activeCount := 1, flights := map[0 := Waiting])
  const BOTH_IN := INIT.(accepted := [CHECK, CHECK], activeCount := 2, flights := map[0 := Waiting, 1 := Waiting])
  const FIRST := BOTH_IN.(flights := map[0 := Executing(Starting), 1 := Waiting], tokens := 1)
  const BOTH := BOTH_IN.(flights := map[0 := Executing(Starting), 1 := Executing(Starting)], tokens := 2)
  const ONE_RUNS :=
    BOTH.(flights := map[0 := Executing(Running), 1 := Executing(Starting)], cancels := map["check" := 0])
  const BOTH_RUN :=
    BOTH.(flights := map[0 := Executing(Running), 1 := Executing(Running)], cancels := map["check" := 1])
  const FORGOTTEN := BOTH.(flights := map[0 := Executing(Acking(0)), 1 := Executing(Running)], cancels := map[])

  lemma AcceptSteps()
    ensures Next(2, TWO, Accept, ONE_IN) && Next(2, ONE_IN, Accept, BOTH_IN)
  {
    assert TWO.pending[1..] == [CHECK] && ONE_IN.pending[1..] == [];
    assert ONE_IN.accepted + [CHECK] == [CHECK, CHECK];
    assert ONE_IN.flights[1 := Waiting] == BOTH_IN.flights;
  }

  lemma AcquireSteps()
    ensures Next(2, BOTH_IN, Acquire(0), FIRST) && Next(2, FIRST, Acquire(1), BOTH)
  {
    assert BOTH_IN.flights[0 := Executing(Starting)] == FIRST.flights;
    assert FIRST.flights[1 := Executing(Starting)] == BOTH.flights;
  }

  lemma RegisterSteps()
    ensures Next(2, BOTH, Register(0), ONE_RUNS) && Next(2, ONE_RUNS, Register(1), BOTH_RUN)
  {
    assert BOTH.flights[0 := Executing(Running)] == ONE_RUNS.flights;
    assert ONE_RUNS.flights[1 := Executing(Running)] == BOTH_RUN.flights;
    assert ONE_RUNS.cancels["check" := 1] == BOTH_RUN.cancels;
  }

  lemma UnregisterStep()
    ensures Next(2, BOTH_RUN, Unregister(0), FORGOTTEN)
  {
    assert BOTH_RUN.flights[0 := Executing(Acking(0))] == FORGOTTEN.flights;
    assert BOTH_RUN.cancels - {"check"} == map[];
  }

  lemma BothRunIsReachable()
    ensures Reachable(2, BOTH_RUN)
  {
    Initially(2);
    ReachNext(2, INIT, Receive([CHECK, CHECK]), TWO);
    AcceptSteps();
    ReachNext(2, TWO, Accept, ONE_IN);
    ReachNext(2, ONE_IN, Accept, BOTH_IN);
    AcquireSteps();
    ReachNext(2, BOTH_IN, Acquire(0), FIRST);
    ReachNext(2, FIRST, Acquire(1), BOTH);
    RegisterSteps();
    ReachNext(2, BOTH, Register(0), ONE_RUNS);
    ReachNext(2, ONE_RUNS, Register(1), BOTH_RUN);
  }

  lemma ExactBefore()
    ensures CancelsExact(BOTH_RUN) && SharesId(BOTH_RUN, 0, 1)
  {
    assert RunningAt(BOTH_RUN, 0, "check");
    forall id ensures id in BOTH_RUN.cancels <==> exists t :: RunningAt(BOTH_RUN, t, id) {}
  }

  lemma InexactAfter()
    ensures RunningAt(FORGOTTEN, 1, "check") && "check" !in FORGOTTEN.cancels && !CancelsExact(FORGOTTEN)
  {
    assert RunningAt(FORGOTTEN, 1, "check");
  }

  /** When the first of two running commands with one ID ends, the second can no longer be cancelled. */
  lemma SharedIdForgets()
    ensures Reachable(2, BOTH_RUN) && Next(2, BOTH_RUN, Unregister(0), FORGOTTEN)
    ensures CancelsExact(BOTH_RUN) && SharesId(BOTH_RUN, 0, 1)
    ensures !CancelsExact(FORGOTTEN) && RunningAt(FORGOTTEN, 1, "check") && "check" !in FORGOTTEN.cancels
  {
    BothRunIsReachable();
    UnregisterStep();
    ExactBefore();
    InexactAfter();
  }

  // --------------------------------------------------- a lost acknowledgement

  const GIVEN := INIT.(pending := [CHECK])
  const TAKEN := INIT.(accepted := [CHECK], activeCount := 1, flights := map[0 := Waiting])

  // The one command executes, in the given phase.
  function In(phase: Phase): State { TAKEN.(flights := map[0 := Executing(phase)], tokens := 1) }

  const LOST := INIT.(accepted := [CHECK], ended := map[0 := Unsaved], tokens := 1, releasing := 1)

  lemma PhaseStep(e: Event, was: Phase, now: Phase)
    requires match e
             case Deny(t) => t == 0 && was == Starting && now == Acking(0)
             case AckReply(t, n, r) => t == 0 && was == Acking(n) && n < ACK_ATTEMPTS && now == AfterReply(n, r)
             case Park(t, saved) => t == 0 && was == Acking(ACK_ATTEMPTS) && !saved && now == Done(Unsaved)
             case _ => false
    ensures Next(1, In(was), e, In(now))
  {
    assert In(was).flights[0 := Executing(now)] == In(now).flights;
  }

  lemma TakenIsReachable()
    ensures Reachable(1, TAKEN)
  {
    Initially(1);
    ReachNext(1, INIT, Receive([CHECK]), GIVEN);
    assert GIVEN.pending[1..] == [] && [] + [CHECK] == [CHECK];
    assert TAKEN.flights == map[][0 := Waiting];
    ReachNext(1, GIVEN, Accept, TAKEN);
  }

  lemma StartingIsReachable()
    ensures Reachable(1, In(Starting))
  {
    TakenIsReachable();
    assert TAKEN.flights[0 := Executing(Starting)] == In(Starting).flights;
    ReachNext(1, TAKEN, Acquire(0), In(Starting));
  }

  // No reply of the server ever arrives.
  lemma {:induction false} SilenceIsReachable(n: nat)
    requires n <= ACK_ATTEMPTS
    ensures Reachable(1, In(Acking(n)))
  {
    if n == 0 {
      StartingIsReachable();
      PhaseStep(Deny(0), Starting, Acking(0));
      ReachNext(1, In(Starting), Deny(0), In(Acking(0)));
    } else {
      SilenceIsReachable(n - 1);
      PhaseStep(AckReply(0, n - 1, Transport), Acking(n - 1), Acking(n));
      ReachNext(1, In(Acking(n - 1)), AckReply(0, n - 1, Transport), In(Acking(n)));
    }
  }

  lemma UnsavedIsReachable()
    ensures Reachable(1, In(Done(Unsaved)))
  {
    SilenceIsReachable(ACK_ATTEMPTS);
    PhaseStep(Park(0, false), Acking(ACK_ATTEMPTS), Done(Unsaved));
    ReachNext(1, In(Acking(ACK_ATTEMPTS)), Park(0, false), In(Done(Unsaved)));
  }

  lemma LastStep()
    ensures Next(1, In(Done(Unsaved)), Finish(0, Unsaved), LOST)
  {
    assert In(Done(Unsaved)).flights - {0} == map[];
  }

  /** A command whose acknowledgement was neither answered nor stored is gone when the dispatcher reports idle. */
  lemma IdleCanHaveLost()
    ensures Reachable(1, LOST) && LOST.activeCount == 0 && !LOST.shutdown
    ensures LOST.accepted == [CHECK] && 0 in LOST.ended && !Safe(LOST.ended[0])
  {
    UnsavedIsReachable();
    LastStep();
    ReachNext(1, In(Done(Unsaved)), Finish(0, Unsaved), LOST);
  }
}
