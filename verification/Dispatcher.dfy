/**
 The command dispatcher of the agent as a step system: one enqueuer, one heavy
 FIFO worker behind a bounded channel, a light lane behind a counting semaphore,
 an atomic in-flight counter and the executor's registry of cancel functions.

 A command that has been counted by `enqueue` is named by its ticket, its index
 in the log of accepted commands, so two commands with the same ID stay apart.
 Every event below is one atomic action of one goroutine.
 */
module Dispatcher {

  const HEAVY_QUEUE_SIZE := 64
  const ACK_ATTEMPTS := 3

  datatype Lane = Heavy | Light

  // Unknown command types run in the heavy lane.
  function CommandLane(kind: string): Lane {
    if kind in {"cancel_command", "health_check", "training_status", "model_eval",
                "sync_harnesses", "harness_login", "run_harness_exec", "run_orchestrator_exec"}
    then Light else Heavy
  }

  datatype Command = Command(id: string, kind: string) {
    predicate IsHeavy() { CommandLane(kind) == Heavy }
  }

  /** How the acknowledgement of a command ended, or `Abandoned` when shutdown cut
      the command off before it ran. `Unsaved` is a payload the failed-ack store refused. */
  datatype Outcome = Delivered | Rejected | Parked | Unsaved | Abandoned

  // Inside execute.
  datatype Phase =
    | Starting                 // before the policy decision
    | Running                  // between registerCancel and unregisterCancel
    | Acking(attempts: nat)    // acknowledgement attempts already made
    | Done(outcome: Outcome)   // acknowledged or parked, counter not yet decremented

  datatype Stage =
    | Blocked                  // counted, trying to send on the heavy queue
    | Queued                   // in the heavy queue
    | Waiting                  // light goroutine waiting for a token
    | Executing(phase: Phase)

  datatype Worker = AtSelect | Busy(ticket: nat) | Stopped

  datatype State = State(
    pending: seq<Command>,      // received, not yet counted
    accepted: seq<Command>,     // every command counted so far, in order
    flights: map<nat, Stage>,   // tickets counted and not yet uncounted
    ended: map<nat, Outcome>,   // tickets uncounted again
    activeCount: int,
    queue: seq<nat>,            // the heavyQueue channel
    tokens: nat,                // elements in the lightSemaphore channel
    releasing: nat,             // light goroutines past execute that still hold a token
    worker: Worker,
    started: seq<nat>,          // tickets in the order the worker took them
    cancels: map<string, nat>,  // activeCancel
    shutdown: bool)

  // What one call of client.Ack returns; retryAfter is in milliseconds.
  datatype Reply = Ok | Http(status: int, retryAfter: int) | Transport

  datatype Event =
    | Receive(batch: seq<Command>)
    | Accept
    | SendHeavy(t: nat)
    | AbandonHeavy(t: nat)
    | Take
    | StopWorker
    | Acquire(t: nat)
    | AbandonLight(t: nat)
    | Deny(t: nat)
    | Register(t: nat)
    | Unregister(t: nat)
    | AckReply(t: nat, attempts: nat, reply: Reply)
    | Park(t: nat, saved: bool)
    | Finish(t: nat, outcome: Outcome)
    | Release
    | Shutdown

  const INIT := State([], [], map[], map[], 0, [], 0, 0, AtSelect, [], map[], false)

  predicate At(s: State, t: nat, stage: Stage) { t in s.flights && s.flights[t] == stage }

  predicate EnqueuerFree(s: State) { forall t :: t in s.flights ==> !s.flights[t].Blocked? }

  function Move(s: State, t: nat, stage: Stage): State { s.(flights := s.flights[t := stage]) }

  function Uncount(s: State, t: nat, outcome: Outcome): State {
    s.(flights := s.flights - {t}, ended := s.ended[t := outcome], activeCount := s.activeCount - 1)
  }

  // 429 and everything outside 400..499 is retried; any other 4xx is final.
  function AfterReply(attempts: nat, reply: Reply): Phase {
    match reply
    case Ok => Done(Delivered)
    case Http(status, _) =>
      if status != 429 && 400 <= status < 500 then Done(Rejected) else Acking(attempts + 1)
    case Transport => Acking(attempts + 1)
  }

  /** One atomic action takes `s` to `s'`; `cap` is the capacity of the light semaphore. */
  ghost predicate Next(cap: nat, s: State, e: Event, s': State) {
    match e
    case Receive(batch) => s.pending == [] && EnqueuerFree(s) && s' == s.(pending := batch)
    case Accept =>
      && s.pending != [] && EnqueuerFree(s)
      && var c := s.pending[0];
         s' == s.(pending := s.pending[1..], accepted := s.accepted + [c], activeCount := s.activeCount + 1,
                  flights := s.flights[|s.accepted| := if c.IsHeavy() then Blocked else Waiting])
    case SendHeavy(t) =>
      At(s, t, Blocked) && |s.queue| < HEAVY_QUEUE_SIZE && s' == Move(s, t, Queued).(queue := s.queue + [t])
    case AbandonHeavy(t) => At(s, t, Blocked) && s.shutdown && s' == Uncount(s, t, Abandoned)
    case Take =>
      && s.worker == AtSelect && s.queue != []
      && var t := s.queue[0];
         s' == Move(s, t, Executing(Starting)).(queue := s.queue[1..], worker := Busy(t), started := s.started + [t])
    case StopWorker => s.worker == AtSelect && s.shutdown && s' == s.(worker := Stopped)
    case Acquire(t) =>
      At(s, t, Waiting) && s.tokens < cap && s' == Move(s, t, Executing(Starting)).(tokens := s.tokens + 1)
    case AbandonLight(t) => At(s, t, Waiting) && s.shutdown && s' == Uncount(s, t, Abandoned)
    case Deny(t) => At(s, t, Executing(Starting)) && s' == Move(s, t, Executing(Acking(0)))
    case Register(t) =>
      && At(s, t, Executing(Starting)) && t < |s.accepted|
      && s' == Move(s, t, Executing(Running)).(cancels := s.cancels[s.accepted[t].id := t])
    case Unregister(t) =>
      && At(s, t, Executing(Running)) && t < |s.accepted|
      && s' == Move(s, t, Executing(Acking(0))).(cancels := s.cancels - {s.accepted[t].id})
    case AckReply(t, attempts, reply) =>
      && At(s, t, Executing(Acking(attempts))) && attempts < ACK_ATTEMPTS
      && s' == Move(s, t, Executing(AfterReply(attempts, reply)))
    case Park(t, saved) =>
      && At(s, t, Executing(Acking(ACK_ATTEMPTS)))
      && s' == Move(s, t, Executing(Done(if saved then Parked else Unsaved)))
    case Finish(t, outcome) =>
      && At(s, t, Executing(Done(outcome))) && t < |s.accepted|
      && var s1 := Uncount(s, t, outcome);
         s' == if s.accepted[t].IsHeavy() then s1.(worker := AtSelect) else s1.(releasing := s.releasing + 1)
    case Release =>
      s.releasing > 0 && s.tokens > 0 && s' == s.(releasing := s.releasing - 1, tokens := s.tokens - 1)
    case Shutdown => !s.shutdown && s' == s.(shutdown := true)
  }

  /** A finite run: `ss[i + 1]` follows from `ss[i]` by `es[i]`. */
  ghost predicate Behavior(cap: nat, ss: seq<State>, es: seq<Event>) {
    && |ss| == |es| + 1
    && ss[0] == INIT
    && forall i :: 0 <= i < |es| ==> Next(cap, ss[i], es[i], ss[i + 1])
  }

  // ---------------------------------------------------------------- invariant

  ghost predicate CountsWellFormed(s: State) {
    && s.activeCount == |s.flights|
    && s.flights.Keys !! s.ended.Keys
    && (forall t :: t in s.flights || t in s.ended <==> 0 <= t < |s.accepted|)
    && (forall t :: t in s.ended && s.ended[t] == Abandoned ==> s.shutdown)
  }

  ghost predicate StageFits(s: State, t: nat, stage: Stage)
    requires t < |s.accepted|
  {
    match stage
    case Blocked => t == |s.accepted| - 1 && s.accepted[t].IsHeavy()
    case Queued => s.accepted[t].IsHeavy() && t in s.queue
    case Waiting => !s.accepted[t].IsHeavy()
    case Executing(phase) =>
      && (s.accepted[t].IsHeavy() ==> s.worker == Busy(t))
      && (phase.Acking? ==> phase.attempts <= ACK_ATTEMPTS)
      && phase != Done(Abandoned)
  }

  ghost predicate LanesWellFormed(s: State)
    requires CountsWellFormed(s)
  {
    && (forall t :: t in s.flights ==> StageFits(s, t, s.flights[t]))
    && (s.worker.Busy? ==> s.worker.ticket in s.flights && s.flights[s.worker.ticket].Executing?
                           && s.accepted[s.worker.ticket].IsHeavy())
    && (s.worker.Stopped? ==> s.shutdown)
  }

  ghost predicate QueueWellFormed(s: State) {
    && |s.queue| <= HEAVY_QUEUE_SIZE
    && (forall i :: 0 <= i < |s.queue| ==> At(s, s.queue[i], Queued))
    && (forall i, j :: 0 <= i < j < |s.queue| ==> s.queue[i] != s.queue[j])
  }

  // The light goroutines inside execute.
  function LightHolders(s: State): set<nat> {
    set t | t in s.flights && t < |s.accepted| && !s.accepted[t].IsHeavy() && s.flights[t].Executing?
  }

  ghost predicate TokensWellFormed(cap: nat, s: State) {
    s.tokens == |LightHolders(s)| + s.releasing && s.tokens <= cap
  }

  ghost predicate Core(s: State) {
    CountsWellFormed(s) && LanesWellFormed(s) && QueueWellFormed(s)
  }

  ghost predicate Inv(cap: nat, s: State) {
    Core(s) && TokensWellFormed(cap, s) && OrderKept(s)
  }

  // Heavy tickets below n that shutdown did not cut off, in order of acceptance.
  function HeavyKept(accepted: seq<Command>, ended: map<nat, Outcome>, n: nat): seq<nat>
    requires n <= |accepted|
  {
    if n == 0 then [] else
    var rest := HeavyKept(accepted, ended, n - 1);
    if accepted[n - 1].IsHeavy() && !(n - 1 in ended && ended[n - 1] == Abandoned) then rest + [n - 1] else rest
  }

  function BlockedTicket(s: State): seq<nat> {
    if |s.accepted| > 0 && At(s, |s.accepted| - 1, Blocked) then [|s.accepted| - 1] else []
  }

  // The heavy commands in the order in which the lane holds them.
  function HeavyLane(s: State): seq<nat> { s.started + s.queue + BlockedTicket(s) }

  ghost predicate OrderKept(s: State) {
    HeavyLane(s) == HeavyKept(s.accepted, s.ended, |s.accepted|)
  }

  // ------------------------------------------------------------- preservation

  lemma {:induction false} HeavyKeptFrame(a: seq<Command>, a': seq<Command>, d: map<nat, Outcome>,
                                          d': map<nat, Outcome>, n: nat)
    requires n <= |a| && n <= |a'| && a[..n] == a'[..n]
    requires forall t :: 0 <= t < n && a[t].IsHeavy() ==>
               (t in d && d[t] == Abandoned <==> t in d' && d'[t] == Abandoned)
    ensures HeavyKept(a, d, n) == HeavyKept(a', d', n)
  {
    if n > 0 {
      assert a[n - 1] == a[..n][n - 1] && a'[n - 1] == a'[..n][n - 1];
      assert a[..n - 1] == a[..n][..n - 1] && a'[..n - 1] == a'[..n][..n - 1];
      HeavyKeptFrame(a, a', d, d', n - 1);
    }
  }

  lemma SmallerFlights(m: map<nat, Stage>, t: nat)
    requires t in m
    ensures |m - {t}| == |m| - 1
  {
    assert m == (m - {t})[t := m[t]];
  }

  // Core is kept by every action of the enqueuer, the worker and the light goroutines.

  lemma QuietCore(cap: nat, s: State, e: Event, s': State)
    requires Core(s) && Next(cap, s, e, s') && (e.Receive? || e.StopWorker? || e.Shutdown? || e.Release?)
    ensures Core(s')
  {
  }

  lemma AcceptCounts(cap: nat, s: State, s': State)
    requires CountsWellFormed(s) && Next(cap, s, Accept, s')
    ensures CountsWellFormed(s') && s.accepted <= s'.accepted
    ensures forall t :: t in s.flights ==> t in s'.flights && s'.flights[t] == s.flights[t]
  {
  }

  lemma AcceptLanes(cap: nat, s: State, s': State)
    requires Core(s) && CountsWellFormed(s') && Next(cap, s, Accept, s')
    ensures LanesWellFormed(s')
  {
  }

  lemma AcceptCore(cap: nat, s: State, s': State)
    requires Core(s) && Next(cap, s, Accept, s')
    ensures Core(s')
  {
    AcceptCounts(cap, s, s');
    AcceptLanes(cap, s, s');
  }

  // Moving a command on leaves the counting as it is.
  lemma MoveCounts(s: State, t: nat, stage: Stage)
    requires CountsWellFormed(s) && t in s.flights
    ensures CountsWellFormed(Move(s, t, stage))
  {
    assert Move(s, t, stage).flights.Keys == s.flights.Keys;
  }

  lemma SendHeavyQueue(cap: nat, s: State, t: nat, s': State)
    requires QueueWellFormed(s) && Next(cap, s, SendHeavy(t), s')
    ensures QueueWellFormed(s') && s'.queue == s.queue + [t] && forall u :: u in s.queue ==> u in s'.queue
  {
  }

  lemma SendHeavyLanes(cap: nat, s: State, t: nat, s': State)
    requires Core(s) && CountsWellFormed(s') && Next(cap, s, SendHeavy(t), s')
    requires s'.queue == s.queue + [t] && forall u :: u in s.queue ==> u in s'.queue
    ensures LanesWellFormed(s')
  {
  }

  lemma SendHeavyCore(cap: nat, s: State, t: nat, s': State)
    requires Core(s) && Next(cap, s, SendHeavy(t), s')
    ensures Core(s')
  {
    MoveCounts(s, t, Queued);
    SendHeavyQueue(cap, s, t, s');
    SendHeavyLanes(cap, s, t, s');
  }

  lemma TakeQueue(cap: nat, s: State, s': State)
    requires QueueWellFormed(s) && Next(cap, s, Take, s')
    ensures QueueWellFormed(s') && forall u :: u in s.queue ==> u == s.queue[0] || u in s'.queue
  {
    assert s.queue == [s.queue[0]] + s'.queue;
  }

  lemma TakeLanes(cap: nat, s: State, s': State)
    requires Core(s) && CountsWellFormed(s') && Next(cap, s, Take, s')
    requires forall u :: u in s.queue ==> u == s.queue[0] || u in s'.queue
    ensures LanesWellFormed(s')
  {
    assert At(s, s.queue[0], Queued);
  }

  lemma TakeCore(cap: nat, s: State, s': State)
    requires Core(s) && Next(cap, s, Take, s')
    ensures Core(s')
  {
    assert At(s, s.queue[0], Queued);
    MoveCounts(s, s.queue[0], Executing(Starting));
    TakeQueue(cap, s, s');
    TakeLanes(cap, s, s');
  }

  lemma UncountCounts(s: State, t: nat, outcome: Outcome)
    requires CountsWellFormed(s) && t in s.flights && (outcome == Abandoned ==> s.shutdown)
    ensures CountsWellFormed(Uncount(s, t, outcome))
  {
    SmallerFlights(s.flights, t);
  }

  lemma AbandonCore(s: State, t: nat)
    requires Core(s) && (At(s, t, Blocked) || At(s, t, Waiting)) && s.shutdown
    ensures Core(Uncount(s, t, Abandoned))
  {
    UncountCounts(s, t, Abandoned);
  }

  lemma AcquireCore(cap: nat, s: State, t: nat, s': State)
    requires Core(s) && Next(cap, s, Acquire(t), s')
    ensures Core(s')
  {
    assert s'.flights.Keys == s.flights.Keys;
  }

  // Deny, Register, Unregister, AckReply and Park move one command between phases of execute.
  lemma PhaseCore(s: State, t: nat, phase: Phase, cancels: map<string, nat>)
    requires Core(s) && t in s.flights && s.flights[t].Executing?
    requires (phase.Acking? ==> phase.attempts <= ACK_ATTEMPTS) && phase != Done(Abandoned)
    ensures Core(Move(s, t, Executing(phase)).(cancels := cancels))
  {
    assert Move(s, t, Executing(phase)).flights.Keys == s.flights.Keys;
  }

  lemma FinishCounts(cap: nat, s: State, t: nat, outcome: Outcome, s': State)
    requires CountsWellFormed(s) && Next(cap, s, Finish(t, outcome), s') && outcome != Abandoned
    ensures CountsWellFormed(s')
  {
    UncountCounts(s, t, outcome);
  }

  // The other flights do not notice.
  lemma FinishFlight(s: State, t: nat, s': State, u: nat)
    requires t < |s.accepted| && u < |s.accepted| && u != t && u in s.flights && StageFits(s, u, s.flights[u])
    requires s'.accepted == s.accepted && s'.queue == s.queue
    requires s'.worker == if s.accepted[t].IsHeavy() then AtSelect else s.worker
    requires s.accepted[t].IsHeavy() ==> s.worker == Busy(t)
    ensures StageFits(s', u, s.flights[u])
  {
  }

  lemma FinishLanes(cap: nat, s: State, t: nat, outcome: Outcome, s': State)
    requires Core(s) && CountsWellFormed(s') && Next(cap, s, Finish(t, outcome), s')
    ensures LanesWellFormed(s')
  {
    assert StageFits(s, t, s.flights[t]);
    FinishKeepsLanes(s, t, s');
  }

  lemma FinishKeepsLanes(s: State, t: nat, s': State)
    requires Core(s) && CountsWellFormed(s') && t in s.flights && s.flights[t].Executing?
    requires s'.flights == s.flights - {t} && s'.accepted == s.accepted
    requires s'.queue == s.queue && s'.shutdown == s.shutdown
    requires s'.worker == if s.accepted[t].IsHeavy() then AtSelect else s.worker
    requires s.accepted[t].IsHeavy() ==> s.worker == Busy(t)
    ensures LanesWellFormed(s')
  {
    forall u | u in s'.flights ensures StageFits(s', u, s'.flights[u]) { FinishFlight(s, t, s', u); }
  }

  lemma FinishQueue(cap: nat, s: State, t: nat, outcome: Outcome, s': State)
    requires QueueWellFormed(s) && Next(cap, s, Finish(t, outcome), s')
    ensures QueueWellFormed(s')
  {
    forall i | 0 <= i < |s'.queue| ensures At(s', s'.queue[i], Queued) { assert At(s, s.queue[i], Queued); }
  }

  lemma FinishCore(cap: nat, s: State, t: nat, outcome: Outcome, s': State)
    requires Core(s) && Next(cap, s, Finish(t, outcome), s')
    ensures Core(s')
  {
    assert StageFits(s, t, s.flights[t]);
    FinishCounts(cap, s, t, outcome, s');
    FinishLanes(cap, s, t, outcome, s');
    FinishQueue(cap, s, t, outcome, s');
  }

  // What the order and the token count depend on.

  lemma OrderFrame(s: State, s': State)
    requires OrderKept(s)
    requires s'.accepted == s.accepted
    requires s'.started + s'.queue == s.started + s.queue && BlockedTicket(s') == BlockedTicket(s)
    requires forall t :: 0 <= t < |s.accepted| && s.accepted[t].IsHeavy() ==>
               (t in s.ended && s.ended[t] == Abandoned <==> t in s'.ended && s'.ended[t] == Abandoned)
    ensures OrderKept(s')
  {
    HeavyKeptFrame(s.accepted, s'.accepted, s.ended, s'.ended, |s.accepted|);
  }

  lemma TokensFrame(s: State, s': State)
    requires s'.accepted == s.accepted
    requires forall t :: 0 <= t < |s.accepted| && !s.accepted[t].IsHeavy() ==>
               (t in s.flights && s.flights[t].Executing? <==> t in s'.flights && s'.flights[t].Executing?)
    ensures LightHolders(s') == LightHolders(s)
  {
  }

  lemma TokensAcquire(cap: nat, s: State, t: nat, s': State)
    requires TokensWellFormed(cap, s) && Next(cap, s, Acquire(t), s') && t < |s.accepted| && !s.accepted[t].IsHeavy()
    ensures TokensWellFormed(cap, s')
  {
    assert LightHolders(s') == LightHolders(s) + {t};
  }

  lemma TokensLeave(s: State, s': State, t: nat)
    requires s'.accepted == s.accepted && s'.flights == s.flights - {t}
    requires t in LightHolders(s)
    ensures LightHolders(s') == LightHolders(s) - {t} && |LightHolders(s')| == |LightHolders(s)| - 1
  {
    assert LightHolders(s') == LightHolders(s) - {t};
  }

  lemma OrderTake(s: State, s': State)
    requires OrderKept(s) && s.queue != []
    requires s'.started == s.started + [s.queue[0]] && s'.queue == s.queue[1..]
    requires s'.accepted == s.accepted && s'.ended == s.ended && BlockedTicket(s') == BlockedTicket(s)
    ensures OrderKept(s')
  {
    assert s.queue == [s.queue[0]] + s.queue[1..];
    OrderFrame(s, s');
  }

  lemma OrderSendHeavy(cap: nat, s: State, t: nat, s': State)
    requires OrderKept(s) && Next(cap, s, SendHeavy(t), s') && t == |s.accepted| - 1
    ensures OrderKept(s')
  {
    assert BlockedTicket(s) == [t] && BlockedTicket(s') == [];
  }

  lemma OrderPhase(s: State, t: nat, phase: Phase, cancels: map<string, nat>)
    requires OrderKept(s) && t in s.flights && s.flights[t].Executing?
    ensures OrderKept(Move(s, t, Executing(phase)).(cancels := cancels))
  {
    OrderFrame(s, Move(s, t, Executing(phase)).(cancels := cancels));
  }

  lemma OrderAcquire(cap: nat, s: State, t: nat, s': State)
    requires OrderKept(s) && Next(cap, s, Acquire(t), s')
    ensures OrderKept(s')
  {
    OrderFrame(s, s');
  }

  lemma OrderAbandonLight(cap: nat, s: State, t: nat, s': State)
    requires OrderKept(s) && Next(cap, s, AbandonLight(t), s') && t < |s.accepted| && !s.accepted[t].IsHeavy()
    ensures OrderKept(s')
  {
    OrderFrame(s, s');
  }

  lemma OrderFinish(cap: nat, s: State, t: nat, outcome: Outcome, s': State)
    requires OrderKept(s) && Next(cap, s, Finish(t, outcome), s') && t !in s.ended && outcome != Abandoned
    ensures OrderKept(s')
  {
    OrderFrame(s, s');
  }

  lemma OrderAbandonHeavy(s: State, t: nat)
    requires OrderKept(s) && At(s, t, Blocked) && t == |s.accepted| - 1 && s.accepted[t].IsHeavy() && t !in s.ended
    ensures OrderKept(Uncount(s, t, Abandoned))
  {
    var s' := Uncount(s, t, Abandoned);
    HeavyKeptFrame(s.accepted, s'.accepted, s.ended, s'.ended, t);
    var before, kept := s.started + s.queue, HeavyKept(s.accepted, s.ended, t);
    assert before + [t] == kept + [t];
    assert before == (before + [t])[..|before + [t]| - 1];
    assert kept == (kept + [t])[..|kept + [t]| - 1];
  }

  lemma OrderAccept(s: State, s': State, c: Command)
    requires OrderKept(s) && BlockedTicket(s) == [] && |s.accepted| !in s.ended
    requires s'.accepted == s.accepted + [c] && s'.started == s.started && s'.queue == s.queue && s'.ended == s.ended
    requires BlockedTicket(s') == if c.IsHeavy() then [|s.accepted|] else []
    ensures OrderKept(s')
  {
    HeavyKeptFrame(s.accepted, s'.accepted, s.ended, s'.ended, |s.accepted|);
  }

  // None of these touches a flight or the lane.
  lemma QuietFrame(cap: nat, s: State, e: Event, s': State)
    requires Next(cap, s, e, s') && (e.Receive? || e.StopWorker? || e.Shutdown? || e.Release?)
    ensures s'.accepted == s.accepted && s'.flights == s.flights && s'.ended == s.ended
    ensures s'.started == s.started && s'.queue == s.queue && s'.tokens - s'.releasing == s.tokens - s.releasing
    ensures s'.tokens <= s.tokens
  {
  }

  lemma QuietRest(cap: nat, s: State, s': State)
    requires TokensWellFormed(cap, s) && OrderKept(s)
    requires s'.accepted == s.accepted && s'.flights == s.flights && s'.ended == s.ended
    requires s'.started == s.started && s'.queue == s.queue && s'.tokens - s'.releasing == s.tokens - s.releasing
    requires s'.tokens <= s.tokens
    ensures TokensWellFormed(cap, s') && OrderKept(s')
  {
    TokensFrame(s, s');
    OrderFrame(s, s');
  }

  lemma QuietStep(cap: nat, s: State, e: Event, s': State)
    requires Inv(cap, s) && Next(cap, s, e, s') && (e.Receive? || e.StopWorker? || e.Shutdown? || e.Release?)
    ensures Inv(cap, s')
  {
    QuietCore(cap, s, e, s');
    QuietFrame(cap, s, e, s');
    QuietRest(cap, s, s');
  }

  lemma AcceptTokens(cap: nat, s: State, s': State)
    requires CountsWellFormed(s) && TokensWellFormed(cap, s) && Next(cap, s, Accept, s')
    ensures TokensWellFormed(cap, s')
  {
    assert forall t :: 0 <= t < |s.accepted| ==> s'.accepted[t] == s.accepted[t];
    assert LightHolders(s') == LightHolders(s);
  }

  lemma AcceptStep(cap: nat, s: State, s': State)
    requires Inv(cap, s) && Next(cap, s, Accept, s')
    ensures Inv(cap, s')
  {
    AcceptCore(cap, s, s');
    AcceptTokens(cap, s, s');
    OrderAccept(s, s', s.pending[0]);
  }

  lemma SendHeavyStep(cap: nat, s: State, t: nat, s': State)
    requires Inv(cap, s) && Next(cap, s, SendHeavy(t), s')
    ensures Inv(cap, s')
  {
    SendHeavyCore(cap, s, t, s');
    TokensFrame(s, s');
    OrderSendHeavy(cap, s, t, s');
  }

  lemma TakeTokens(cap: nat, s: State, s': State)
    requires Core(s) && TokensWellFormed(cap, s) && Next(cap, s, Take, s')
    ensures TokensWellFormed(cap, s')
  {
    assert At(s, s.queue[0], Queued);
    TokensFrame(s, s');
  }

  lemma TakeOrder(cap: nat, s: State, s': State)
    requires Core(s) && OrderKept(s) && Next(cap, s, Take, s')
    ensures OrderKept(s')
  {
    assert At(s, s.queue[0], Queued);
    OrderTake(s, s');
  }

  lemma TakeStep(cap: nat, s: State, s': State)
    requires Inv(cap, s) && Next(cap, s, Take, s')
    ensures Inv(cap, s')
  {
    TakeCore(cap, s, s');
    TakeTokens(cap, s, s');
    TakeOrder(cap, s, s');
  }

  lemma AbandonHeavyStep(cap: nat, s: State, t: nat, s': State)
    requires Inv(cap, s) && Next(cap, s, AbandonHeavy(t), s')
    ensures Inv(cap, s')
  {
    AbandonCore(s, t);
    TokensFrame(s, s');
    OrderAbandonHeavy(s, t);
  }

  lemma AbandonLightStep(cap: nat, s: State, t: nat, s': State)
    requires Inv(cap, s) && Next(cap, s, AbandonLight(t), s')
    ensures Inv(cap, s')
  {
    AbandonCore(s, t);
    TokensFrame(s, s');
    OrderAbandonLight(cap, s, t, s');
  }

  lemma AcquireStep(cap: nat, s: State, t: nat, s': State)
    requires Inv(cap, s) && Next(cap, s, Acquire(t), s')
    ensures Inv(cap, s')
  {
    AcquireCore(cap, s, t, s');
    TokensAcquire(cap, s, t, s');
    OrderAcquire(cap, s, t, s');
  }

  lemma PhaseStep(cap: nat, s: State, t: nat, phase: Phase, cancels: map<string, nat>)
    requires Inv(cap, s) && t in s.flights && s.flights[t].Executing?
    requires (phase.Acking? ==> phase.attempts <= ACK_ATTEMPTS) && phase != Done(Abandoned)
    ensures Inv(cap, Move(s, t, Executing(phase)).(cancels := cancels))
  {
    var s' := Move(s, t, Executing(phase)).(cancels := cancels);
    PhaseCore(s, t, phase, cancels);
    TokensFrame(s, s');
    OrderPhase(s, t, phase, cancels);
  }

  lemma FinishTokens(cap: nat, s: State, t: nat, outcome: Outcome, s': State)
    requires Core(s) && TokensWellFormed(cap, s) && Next(cap, s, Finish(t, outcome), s')
    ensures TokensWellFormed(cap, s')
  {
    if s.accepted[t].IsHeavy() { TokensFrame(s, s'); } else { TokensLeave(s, s', t); }
  }

  lemma FinishOrder(cap: nat, s: State, t: nat, outcome: Outcome, s': State)
    requires Core(s) && OrderKept(s) && Next(cap, s, Finish(t, outcome), s')
    ensures OrderKept(s')
  {
    OrderFinish(cap, s, t, outcome, s');
  }

  lemma FinishStep(cap: nat, s: State, t: nat, outcome: Outcome, s': State)
    requires Inv(cap, s) && Next(cap, s, Finish(t, outcome), s')
    ensures Inv(cap, s')
  {
    FinishCore(cap, s, t, outcome, s');
    FinishTokens(cap, s, t, outcome, s');
    FinishOrder(cap, s, t, outcome, s');
  }

  // Inside execute.
  lemma ExecuteStep(cap: nat, s: State, e: Event, s': State)
    requires Inv(cap, s) && Next(cap, s, e, s')
    requires e.Deny? || e.Register? || e.Unregister? || e.AckReply? || e.Park? || e.Finish?
    ensures Inv(cap, s')
  {
    if e.Finish? { FinishStep(cap, s, e.t, e.outcome, s'); }
    else if e.Register? { PhaseStep(cap, s, e.t, Running, s'.cancels); }
    else if e.AckReply? { PhaseStep(cap, s, e.t, AfterReply(e.attempts, e.reply), s.cancels); }
    else if e.Park? { PhaseStep(cap, s, e.t, Done(if e.saved then Parked else Unsaved), s.cancels); }
    else { PhaseStep(cap, s, e.t, Acking(0), s'.cancels); }
  }

  // On the way into execute, or out of the lane at shutdown.
  lemma LaneStep(cap: nat, s: State, e: Event, s': State)
    requires Inv(cap, s) && Next(cap, s, e, s')
    requires e.Accept? || e.SendHeavy? || e.AbandonHeavy? || e.Take? || e.Acquire? || e.AbandonLight?
    ensures Inv(cap, s')
  {
    if e.Accept? { AcceptStep(cap, s, s'); }
    else if e.SendHeavy? { SendHeavyStep(cap, s, e.t, s'); }
    else if e.AbandonHeavy? { AbandonHeavyStep(cap, s, e.t, s'); }
    else if e.Take? { TakeStep(cap, s, s'); }
    else if e.Acquire? { AcquireStep(cap, s, e.t, s'); }
    else { AbandonLightStep(cap, s, e.t, s'); }
  }

  lemma NextKeepsInv(cap: nat, s: State, e: Event, s': State)
    requires Inv(cap, s) && Next(cap, s, e, s')
    ensures Inv(cap, s')
  {
    if e.Receive? || e.StopWorker? || e.Shutdown? || e.Release? {
      QuietStep(cap, s, e, s');
    } else if e.Accept? || e.SendHeavy? || e.AbandonHeavy? || e.Take? || e.Acquire? || e.AbandonLight? {
      LaneStep(cap, s, e, s');
    } else {
      ExecuteStep(cap, s, e, s');
    }
  }

  lemma {:induction false} BehaviorKeepsInv(cap: nat, ss: seq<State>, es: seq<Event>, i: nat)
    requires Behavior(cap, ss, es) && i <= |es|
    ensures Inv(cap, ss[i])
  {
    if i == 0 {
      assert LightHolders(INIT) == {};
    } else {
      BehaviorKeepsInv(cap, ss, es, i - 1);
      NextKeepsInv(cap, ss[i - 1], es[i - 1], ss[i]);
    }
  }

  // --------------------------------------------------------- safety of all runs

  predicate HeavyExecuting(s: State, t: nat) {
    t in s.flights && s.flights[t].Executing? && t < |s.accepted| && s.accepted[t].IsHeavy()
  }

  /** In every state of every run: the counter is the number of commands accepted and
      neither finished nor abandoned, the channel bound holds, one heavy command executes
      at most, and tokens cover the executing light commands within the capacity. */
  lemma SafeInEveryRun(cap: nat, ss: seq<State>, es: seq<Event>, i: nat)
    requires Behavior(cap, ss, es) && i <= |es|
    ensures var s := ss[i];
            && s.activeCount == |s.flights|
            && (forall t :: 0 <= t < |s.accepted| ==> (t in s.flights <==> t !in s.ended))
            && |s.queue| <= 64
            && (forall t, u :: HeavyExecuting(s, t) && HeavyExecuting(s, u) ==> t == u)
            && |LightHolders(s)| <= s.tokens <= cap
  {
    BehaviorKeepsInv(cap, ss, es, i);
  }
}
