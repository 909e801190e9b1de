/**
 What every run of the dispatcher promises: heavy commands start in batch order, an idle
 dispatcher has acknowledged everything, every finite batch reaches idle, and what
 shutdown leaves behind.
 */
module DispatcherRuns {
  import opened Basics
  import opened Dispatcher

  // ------------------------------------------------------------------ ordering

  function Received(es: seq<Event>): seq<Command> {
    if es == [] then [] else
    var last := es[|es| - 1];
    Received(es[..|es| - 1]) + if last.Receive? then last.batch else []
  }

  function HeavyOf(cs: seq<Command>): seq<Command> {
    if cs == [] then [] else
    var c := cs[|cs| - 1];
    HeavyOf(cs[..|cs| - 1]) + if c.IsHeavy() then [c] else []
  }

  lemma {:induction false} HeavyOfConcat(a: seq<Command>, b: seq<Command>)
    ensures HeavyOf(a + b) == HeavyOf(a) + HeavyOf(b)
  {
    if b == [] {
      assert a + b == a;
    } else {
      assert (a + b)[..|a + b| - 1] == a + b[..|b| - 1];
      HeavyOfConcat(a, b[..|b| - 1]);
    }
  }

  lemma StepKeepsReceived(cap: nat, s: State, e: Event, s': State)
    requires Next(cap, s, e, s')
    ensures s'.accepted + s'.pending == s.accepted + s.pending + if e.Receive? then e.batch else []
  {
    if e.Accept? { assert s.pending == [s.pending[0]] + s'.pending; }
  }

  lemma {:induction false} NothingLost(cap: nat, ss: seq<State>, es: seq<Event>, i: nat)
    requires Behavior(cap, ss, es) && i <= |es|
    ensures ss[i].accepted + ss[i].pending == Received(es[..i])
  {
    if i > 0 {
      NothingLost(cap, ss, es, i - 1);
      StepKeepsReceived(cap, ss[i - 1], es[i - 1], ss[i]);
      assert es[..i][..i - 1] == es[..i - 1];
    }
  }

  lemma {:induction false} HeavyKeptIsHeavyOf(accepted: seq<Command>, ended: map<nat, Outcome>, n: nat)
    requires n <= |accepted|
    requires forall t :: t in ended ==> ended[t] != Abandoned
    ensures Indices(accepted, HeavyKept(accepted, ended, n))
    ensures Pick(accepted, HeavyKept(accepted, ended, n)) == HeavyOf(accepted[..n])
  {
    if n > 0 {
      HeavyKeptIsHeavyOf(accepted, ended, n - 1);
      assert accepted[..n][..n - 1] == accepted[..n - 1];
    }
  }

  /** Until shutdown the heavy commands started, queued, blocked at the channel and still in the
      batch are, in this order, exactly the heavy commands received. */
  lemma HeavyLaneInBatchOrder(cap: nat, ss: seq<State>, es: seq<Event>, i: nat)
    requires Behavior(cap, ss, es) && i <= |es| && !ss[i].shutdown
    ensures var s := ss[i];
            && Indices(s.accepted, HeavyLane(s))
            && Pick(s.accepted, HeavyLane(s)) + HeavyOf(s.pending) == HeavyOf(Received(es[..i]))
  {
    var s := ss[i];
    BehaviorKeepsInv(cap, ss, es, i);
    NothingLost(cap, ss, es, i);
    HeavyOfConcat(s.accepted, s.pending);
    HeavyKeptIsHeavyOf(s.accepted, s.ended, |s.accepted|);
    assert s.accepted[..|s.accepted|] == s.accepted;
  }

  /** So the worker starts the heavy commands exactly in the order of the batches. */
  lemma StartedInBatchOrder(cap: nat, ss: seq<State>, es: seq<Event>, i: nat)
    requires Behavior(cap, ss, es) && i <= |es| && !ss[i].shutdown
    ensures Indices(ss[i].accepted, ss[i].started)
    ensures Pick(ss[i].accepted, ss[i].started) <= HeavyOf(Received(es[..i]))
  {
    var s := ss[i];
    HeavyLaneInBatchOrder(cap, ss, es, i);
    CommandsOfPrefix(s.accepted, s.started, HeavyLane(s));
  }

  lemma CommandsOfPrefix(accepted: seq<Command>, ts: seq<nat>, us: seq<nat>)
    requires ts <= us && Indices(accepted, us)
    ensures Indices(accepted, ts) && Pick(accepted, ts) <= Pick(accepted, us)
  {
    assert forall i :: 0 <= i < |ts| ==> ts[i] == us[i];
  }

  // ------------------------------------------------------------ acknowledgement

  // A reply that ends the acknowledgement for good: a client error other than 429.
  predicate Final(reply: Reply) { reply.Http? && 400 <= reply.status < 500 && reply.status != 429 }

  // The run justifies outcome o of ticket t: it holds the reply or the parking that produced it.
  ghost predicate Justified(es: seq<Event>, t: nat, o: Outcome) {
    match o
    case Delivered => exists n :: AckReply(t, n, Ok) in es
    case Rejected => exists n, reply :: AckReply(t, n, reply) in es && Final(reply)
    case Parked => Park(t, true) in es
    case Unsaved => Park(t, false) in es
    case Abandoned => Shutdown in es
  }

  ghost predicate OutcomesJustified(s: State, es: seq<Event>) {
    && (forall t, o :: At(s, t, Executing(Done(o))) ==> Justified(es, t, o))
    && (forall t :: t in s.ended ==> Justified(es, t, s.ended[t]))
    && (s.shutdown ==> Shutdown in es)
  }

  lemma JustifiedGrows(es: seq<Event>, e: Event, t: nat, o: Outcome)
    requires Justified(es, t, o)
    ensures Justified(es + [e], t, o)
  {
    InSnoc(es, e);
    match o
    case Delivered => var n :| AckReply(t, n, Ok) in es; assert AckReply(t, n, Ok) in es + [e];
    case Rejected => var n, r :| AckReply(t, n, r) in es && Final(r); assert AckReply(t, n, r) in es + [e];
    case _ =>
  }

  // The outcomes of the next state are those of this one, and the one the event decides.
  lemma OutcomesStep(cap: nat, s: State, e: Event, s': State)
    requires Next(cap, s, e, s')
    ensures forall t, o :: At(s', t, Executing(Done(o))) ==> At(s, t, Executing(Done(o))) || Justified([e], t, o)
    ensures forall t :: t in s'.ended ==>
              (t in s.ended && s'.ended[t] == s.ended[t]) || At(s, t, Executing(Done(s'.ended[t])))
              || (s'.ended[t] == Abandoned && s.shutdown)
    ensures s'.shutdown ==> s.shutdown || e == Shutdown
  {
    if e.AckReply? && AfterReply(e.attempts, e.reply) == Done(Rejected) {
      assert AckReply(e.t, e.attempts, e.reply) in [e] && Final(e.reply);
    }
  }

  lemma JustifiedLast(es: seq<Event>, e: Event, t: nat, o: Outcome)
    requires Justified([e], t, o)
    ensures Justified(es + [e], t, o)
  {
    InSnoc(es, e);
    match o
    case Delivered => var n :| AckReply(t, n, Ok) in [e]; assert AckReply(t, n, Ok) in es + [e];
    case Rejected => var n, r :| AckReply(t, n, r) in [e] && Final(r); assert AckReply(t, n, r) in es + [e];
    case _ =>
  }

  lemma OutcomesStayJustified(cap: nat, s: State, e: Event, s': State, es: seq<Event>)
    requires Next(cap, s, e, s') && OutcomesJustified(s, es)
    ensures OutcomesJustified(s', es + [e])
  {
    OutcomesStep(cap, s, e, s');
    InSnoc(es, e);
    forall t, o | At(s', t, Executing(Done(o))) ensures Justified(es + [e], t, o) {
      if At(s, t, Executing(Done(o))) { JustifiedGrows(es, e, t, o); } else { JustifiedLast(es, e, t, o); }
    }
    forall t | t in s'.ended ensures Justified(es + [e], t, s'.ended[t]) {
      if !(s'.ended[t] == Abandoned && s.shutdown) { JustifiedGrows(es, e, t, s'.ended[t]); }
    }
  }

  lemma {:induction false} OutcomesAreJustified(cap: nat, ss: seq<State>, es: seq<Event>, i: nat)
    requires Behavior(cap, ss, es) && i <= |es|
    ensures OutcomesJustified(ss[i], es[..i])
  {
    if i > 0 {
      OutcomesAreJustified(cap, ss, es, i - 1);
      OutcomesStayJustified(cap, ss[i - 1], es[i - 1], ss[i], es[..i - 1]);
      assert es[..i] == es[..i - 1] + [es[i - 1]];
    }
  }

  /** WaitForIdle reports idle when it reads a counter that is not positive. Before shutdown this
      means that every command counted so far ended its acknowledgement, and how. */
  lemma IdleMeansAcknowledged(cap: nat, ss: seq<State>, es: seq<Event>, i: nat)
    requires Behavior(cap, ss, es) && i <= |es| && ss[i].activeCount <= 0 && !ss[i].shutdown
    ensures forall t :: 0 <= t < |ss[i].accepted| ==>
              && t in ss[i].ended && ss[i].ended[t] != Abandoned
              && Justified(es[..i], t, ss[i].ended[t])
  {
    BehaviorKeepsInv(cap, ss, es, i);
    OutcomesAreJustified(cap, ss, es, i);
  }

  // The store refused this acknowledgement, and its command has ended or is about to.
  predicate Lost(s: State, t: nat) {
    At(s, t, Executing(Done(Unsaved))) || (t in s.ended && s.ended[t] == Unsaved)
  }

  lemma EndedStays(cap: nat, s: State, e: Event, s': State, t: nat)
    requires CountsWellFormed(s) && Next(cap, s, e, s') && t in s.ended
    ensures t in s'.ended && s'.ended[t] == s.ended[t]
  {
  }

  // Nothing but its own finish touches a command that is done.
  lemma DoneStays(cap: nat, s: State, e: Event, s': State, t: nat, o: Outcome)
    requires At(s, t, Executing(Done(o))) && Next(cap, s, e, s')
    requires |s.accepted| !in s.flights && (s.queue != [] ==> At(s, s.queue[0], Queued))
    ensures At(s', t, Executing(Done(o))) || (t in s'.ended && s'.ended[t] == o)
  {
  }

  lemma LostStays(cap: nat, s: State, e: Event, s': State, t: nat)
    requires Core(s) && Next(cap, s, e, s') && Lost(s, t)
    ensures Lost(s', t)
  {
    if t in s.ended { EndedStays(cap, s, e, s', t); } else { DoneStays(cap, s, e, s', t, Unsaved); }
  }

  lemma RefusedIsLost(cap: nat, s: State, t: nat, s': State)
    requires Next(cap, s, Park(t, false), s')
    ensures Lost(s', t)
  {
  }

  lemma {:induction false} RefusedStaysLost(cap: nat, ss: seq<State>, es: seq<Event>, i: nat, t: nat)
    requires Behavior(cap, ss, es) && i <= |es| && Park(t, false) in es[..i]
    ensures Lost(ss[i], t)
  {
    assert es[..i] == es[..i - 1] + [es[i - 1]];
    if Park(t, false) in es[..i - 1] {
      RefusedStaysLost(cap, ss, es, i - 1, t);
      BehaviorKeepsInv(cap, ss, es, i - 1);
      LostStays(cap, ss[i - 1], es[i - 1], ss[i], t);
    } else {
      RefusedIsLost(cap, ss[i - 1], t, ss[i]);
    }
  }

  // The ways an acknowledgement can end without being lost.
  predicate Safe(o: Outcome) { o.Delivered? || o.Rejected? || o.Parked? }

  /** At idle before shutdown an acknowledgement is lost exactly if the store refused it, so that all of them are
      delivered, finally rejected or parked if and only if it refused none. */
  lemma IdleIsSafeIffNoneRefused(cap: nat, ss: seq<State>, es: seq<Event>, i: nat)
    requires Behavior(cap, ss, es) && i <= |es| && ss[i].activeCount <= 0 && !ss[i].shutdown
    ensures forall t :: 0 <= t < |ss[i].accepted| ==>
              t in ss[i].ended && (Safe(ss[i].ended[t]) <==> Park(t, false) !in es[..i])
    ensures (forall t :: 0 <= t < |ss[i].accepted| ==> t in ss[i].ended && Safe(ss[i].ended[t]))
            <==> forall t :: Park(t, false) !in es[..i]
  {
    var s := ss[i];
    IdleMeansAcknowledged(cap, ss, es, i);
    BehaviorKeepsInv(cap, ss, es, i);
    forall t: nat | Park(t, false) in es[..i] ensures t in s.ended && s.ended[t] == Unsaved {
      RefusedStaysLost(cap, ss, es, i, t);
    }
  }

  // -------------------------------------------------------------------- progress

  function StageWeight(stage: Stage): nat {
    match stage
    case Blocked => 11
    case Queued => 10
    case Waiting => 10
    case Executing(Starting) => 9
    case Executing(Running) => 8
    case Executing(Acking(k)) => if k <= ACK_ATTEMPTS then 7 - k else 4
    case Executing(Done(_)) => 3
  }

  function FlightWeight(flights: map<nat, Stage>, n: nat): nat {
    if n == 0 then 0 else
    FlightWeight(flights, n - 1) + if n - 1 in flights then StageWeight(flights[n - 1]) else 0
  }

  function Measure(s: State): nat {
    12 * |s.pending| + FlightWeight(s.flights, |s.accepted|) + s.releasing
    + (if s.worker.Stopped? then 0 else 1) + (if s.shutdown then 0 else 1)
  }

  lemma {:induction false} WeightOutside(f: map<nat, Stage>, g: map<nat, Stage>, n: nat)
    requires forall t :: 0 <= t < n ==> (t in f <==> t in g) && (t in f ==> f[t] == g[t])
    ensures FlightWeight(f, n) == FlightWeight(g, n)
  {
    if n > 0 { WeightOutside(f, g, n - 1); }
  }

  lemma {:induction false} WeightMove(f: map<nat, Stage>, t: nat, stage: Stage, n: nat)
    requires t in f && t < n
    ensures FlightWeight(f[t := stage], n) == FlightWeight(f, n) - StageWeight(f[t]) + StageWeight(stage)
  {
    if t == n - 1 { WeightOutside(f, f[t := stage], n - 1); } else { WeightMove(f, t, stage, n - 1); }
  }

  lemma {:induction false} WeightLeave(f: map<nat, Stage>, t: nat, n: nat)
    requires t in f && t < n
    ensures FlightWeight(f - {t}, n) == FlightWeight(f, n) - StageWeight(f[t])
  {
    if t == n - 1 { WeightOutside(f, f - {t}, n - 1); } else { WeightLeave(f, t, n - 1); }
  }

  lemma MeasureMove(s: State, t: nat, stage: Stage, s': State)
    requires t in s.flights && t < |s.accepted| && StageWeight(stage) < StageWeight(s.flights[t])
    requires s'.flights == s.flights[t := stage] && s'.accepted == s.accepted && |s'.pending| == |s.pending|
    requires s'.releasing == s.releasing && s'.shutdown == s.shutdown && s'.worker.Stopped? == s.worker.Stopped?
    ensures Measure(s') < Measure(s)
  {
    WeightMove(s.flights, t, stage, |s.accepted|);
  }

  lemma MeasureLeave(s: State, t: nat, s': State)
    requires t in s.flights && t < |s.accepted|
    requires s'.flights == s.flights - {t} && s'.accepted == s.accepted && |s'.pending| == |s.pending|
    requires s'.releasing <= s.releasing + 1 && s'.shutdown == s.shutdown && s'.worker.Stopped? == s.worker.Stopped?
    ensures Measure(s') < Measure(s)
  {
    WeightLeave(s.flights, t, |s.accepted|);
  }

  lemma ExecuteDecreases(cap: nat, s: State, e: Event, s': State)
    requires Core(s) && Next(cap, s, e, s')
    requires e.Deny? || e.Register? || e.Unregister? || e.AckReply? || e.Park? || e.Finish?
    ensures Measure(s') < Measure(s)
  {
    if e.Finish? {
      MeasureLeave(s, e.t, s');
    } else {
      var phase := if e.Register? then Running
                   else if e.AckReply? then AfterReply(e.attempts, e.reply)
                   else if e.Park? then Done(if e.saved then Parked else Unsaved)
                   else Acking(0);
      MeasureMove(s, e.t, Executing(phase), s');
    }
  }

  lemma LaneDecreases(cap: nat, s: State, e: Event, s': State)
    requires Core(s) && Next(cap, s, e, s')
    requires e.SendHeavy? || e.AbandonHeavy? || e.Take? || e.Acquire? || e.AbandonLight?
    ensures Measure(s') < Measure(s)
  {
    if e.Take? {
      assert At(s, s.queue[0], Queued);
      MeasureMove(s, s.queue[0], Executing(Starting), s');
    } else if e.SendHeavy? {
      MeasureMove(s, e.t, Queued, s');
    } else if e.Acquire? {
      MeasureMove(s, e.t, Executing(Starting), s');
    } else {
      MeasureLeave(s, e.t, s');
    }
  }

  lemma AcceptDecreases(cap: nat, s: State, s': State)
    requires Core(s) && Next(cap, s, Accept, s')
    ensures Measure(s') < Measure(s)
  {
    WeightOutside(s.flights, s'.flights, |s.accepted|);
  }

  /** Every action but receiving a batch decreases the measure. */
  lemma NextDecreases(cap: nat, s: State, e: Event, s': State)
    requires Core(s) && Next(cap, s, e, s') && !e.Receive?
    ensures Measure(s') < Measure(s)
  {
    match e
    case Accept => AcceptDecreases(cap, s, s');
    case Release =>
    case StopWorker =>
    case Shutdown =>
    case SendHeavy(_) => LaneDecreases(cap, s, e, s');
    case AbandonHeavy(_) => LaneDecreases(cap, s, e, s');
    case Take => LaneDecreases(cap, s, e, s');
    case Acquire(_) => LaneDecreases(cap, s, e, s');
    case AbandonLight(_) => LaneDecreases(cap, s, e, s');
    case _ => ExecuteDecreases(cap, s, e, s');
  }

  /** After the last batch a run has at most Measure more actions. */
  lemma {:induction false} RunsAreFinite(cap: nat, ss: seq<State>, es: seq<Event>, i: nat, j: nat)
    requires Behavior(cap, ss, es) && i <= j <= |es|
    requires forall k :: i <= k < j ==> !es[k].Receive?
    ensures Measure(ss[j]) + (j - i) <= Measure(ss[i])
    decreases j - i
  {
    if i < j {
      RunsAreFinite(cap, ss, es, i, j - 1);
      BehaviorKeepsInv(cap, ss, es, j - 1);
      NextDecreases(cap, ss[j - 1], es[j - 1], ss[j]);
    }
  }

  // Some action other than receiving a batch or shutting down is possible.
  ghost predicate CanAct(cap: nat, s: State) {
    exists e, s' :: Next(cap, s, e, s') && !e.Receive? && !e.Shutdown?
  }

  lemma ExecutingCanAct(cap: nat, s: State, t: nat)
    requires Core(s) && t in s.flights && s.flights[t].Executing?
    ensures CanAct(cap, s)
  {
    match s.flights[t].phase
    case Starting => assert Next(cap, s, Deny(t), Move(s, t, Executing(Acking(0))));
    case Running =>
      assert Next(cap, s, Unregister(t), Move(s, t, Executing(Acking(0))).(cancels := s.cancels - {s.accepted[t].id}));
    case Acking(k) =>
      if k < ACK_ATTEMPTS {
        assert Next(cap, s, AckReply(t, k, Ok), Move(s, t, Executing(AfterReply(k, Ok))));
      } else {
        assert Next(cap, s, Park(t, true), Move(s, t, Executing(Done(Parked))));
      }
    case Done(o) => DoneCanAct(cap, s, t, o);
  }

  lemma DoneCanAct(cap: nat, s: State, t: nat, o: Outcome)
    requires At(s, t, Executing(Done(o))) && t < |s.accepted|
    ensures CanAct(cap, s)
  {
    var s1 := Uncount(s, t, o);
    var s' := if s.accepted[t].IsHeavy() then s1.(worker := AtSelect) else s1.(releasing := s.releasing + 1);
    assert Next(cap, s, Finish(t, o), s');
  }

  lemma QueueCanAct(cap: nat, s: State)
    requires Core(s) && s.queue != [] && !s.worker.Stopped?
    ensures CanAct(cap, s)
  {
    if s.worker.Busy? {
      ExecutingCanAct(cap, s, s.worker.ticket);
    } else {
      var t := s.queue[0];
      var taken := Move(s, t, Executing(Starting));
      assert Next(cap, s, Take, taken.(queue := s.queue[1..], worker := Busy(t), started := s.started + [t]));
    }
  }

  lemma ReleaseCanAct(cap: nat, s: State)
    requires TokensWellFormed(cap, s) && s.releasing > 0
    ensures CanAct(cap, s)
  {
    assert Next(cap, s, Release, s.(releasing := s.releasing - 1, tokens := s.tokens - 1));
  }

  lemma FlightCanAct(cap: nat, s: State, t: nat)
    requires 1 <= cap && Core(s) && TokensWellFormed(cap, s) && t in s.flights
    requires s.flights[t].Queued? ==> !s.worker.Stopped?
    ensures CanAct(cap, s)
  {
    match s.flights[t]
    case Executing(_) => ExecutingCanAct(cap, s, t);
    case Queued => QueueCanAct(cap, s);
    case Blocked =>
      if s.shutdown {
        assert Next(cap, s, AbandonHeavy(t), Uncount(s, t, Abandoned));
      } else if |s.queue| < HEAVY_QUEUE_SIZE {
        assert Next(cap, s, SendHeavy(t), Move(s, t, Queued).(queue := s.queue + [t]));
      } else {
        QueueCanAct(cap, s);
      }
    case Waiting =>
      if s.tokens < cap {
        assert Next(cap, s, Acquire(t), Move(s, t, Executing(Starting)).(tokens := s.tokens + 1));
      } else if s.releasing > 0 {
        ReleaseCanAct(cap, s);
      } else {
        var u :| u in LightHolders(s);
        ExecutingCanAct(cap, s, u);
      }
  }

  lemma PendingCanAct(cap: nat, s: State)
    requires s.pending != [] && EnqueuerFree(s)
    ensures CanAct(cap, s)
  {
    var c := s.pending[0];
    assert Next(cap, s, Accept,
      s.(pending := s.pending[1..], accepted := s.accepted + [c], activeCount := s.activeCount + 1,
         flights := s.flights[|s.accepted| := if c.IsHeavy() then Blocked else Waiting]));
  }

  /** A run that can go no further before shutdown has worked off the whole batch: with
      RunsAreFinite, every finite batch reaches idle. */
  lemma ExhaustedRunIsIdle(cap: nat, ss: seq<State>, es: seq<Event>, i: nat)
    requires 1 <= cap && Behavior(cap, ss, es) && i <= |es| && !ss[i].shutdown && !CanAct(cap, ss[i])
    ensures ss[i].activeCount == 0 && ss[i].pending == [] && ss[i].tokens == 0
    ensures forall t :: 0 <= t < |Received(es[..i])| ==> t in ss[i].ended && ss[i].ended[t] != Abandoned
  {
    var s := ss[i];
    BehaviorKeepsInv(cap, ss, es, i);
    if t :| t in s.flights { FlightCanAct(cap, s, t); }
    if s.pending != [] { PendingCanAct(cap, s); }
    if s.releasing > 0 { ReleaseCanAct(cap, s); }
    assert s.flights == map[];
    assert LightHolders(s) == {};
    NothingLost(cap, ss, es, i);
  }

  // -------------------------------------------------------------------- shutdown

  lemma {:induction false} DistinctCount(q: seq<nat>)
    requires forall i, j :: 0 <= i < j < |q| ==> q[i] != q[j]
    ensures |Elements(q)| == |q|
  {
    if q != [] {
      var last, rest := q[|q| - 1], q[..|q| - 1];
      DistinctCount(rest);
      assert last !in Elements(rest) && Elements(q) == Elements(rest) + {last};
    }
  }

  /** After shutdown exactly the commands left in the channel stay counted for ever,
      so WaitForIdle can succeed again if and only if the channel was empty. */
  lemma ShutdownStrandsTheQueue(cap: nat, ss: seq<State>, es: seq<Event>, i: nat)
    requires 1 <= cap && Behavior(cap, ss, es) && i <= |es| && ss[i].shutdown && !CanAct(cap, ss[i])
    ensures ss[i].worker == Stopped && ss[i].flights.Keys == Elements(ss[i].queue)
    ensures ss[i].activeCount == |ss[i].queue|
    ensures ss[i].activeCount <= 0 <==> ss[i].queue == []
  {
    var s := ss[i];
    BehaviorKeepsInv(cap, ss, es, i);
    if t :| t in s.flights && !s.flights[t].Queued? { FlightCanAct(cap, s, t); }
    if s.worker == AtSelect { assert Next(cap, s, StopWorker, s.(worker := Stopped)); }
    assert s.flights.Keys == Elements(s.queue);
    DistinctCount(s.queue);
    assert |s.flights| == |s.flights.Keys|;
  }

  // ------------------------------------------------------------ cancel registry

  predicate RunningAt(s: State, t: nat, id: string) {
    At(s, t, Executing(Running)) && t < |s.accepted| && s.accepted[t].id == id
  }

  // Two running commands carry the ID of t.
  predicate SharesId(s: State, t: nat, u: nat) {
    t != u && t < |s.accepted| && RunningAt(s, t, s.accepted[t].id) && RunningAt(s, u, s.accepted[t].id)
  }

  // The registry holds exactly the IDs of the commands between register and unregister.
  ghost predicate CancelsExact(s: State) {
    forall id :: id in s.cancels <==> exists t :: RunningAt(s, t, id)
  }

  lemma RunningFrame(s: State, s': State)
    requires Core(s) && CancelsExact(s) && s'.cancels == s.cancels && s.accepted <= s'.accepted
    requires forall t :: At(s, t, Executing(Running)) <==> At(s', t, Executing(Running))
    ensures CancelsExact(s')
  {
    forall t: nat, id ensures RunningAt(s, t, id) <==> RunningAt(s', t, id) {
      if At(s, t, Executing(Running)) { assert t in s.flights && s'.accepted[t] == s.accepted[t]; }
    }
  }

  lemma RegisterKeepsExact(s: State, t: nat, s': State)
    requires CancelsExact(s) && t < |s.accepted|
    requires s'.accepted == s.accepted && s'.flights == s.flights[t := Executing(Running)]
    requires At(s, t, Executing(Starting)) && s'.cancels == s.cancels[s.accepted[t].id := t]
    ensures CancelsExact(s')
  {
    assert RunningAt(s', t, s.accepted[t].id);
    forall u: nat, id ensures RunningAt(s', u, id) <==> RunningAt(s, u, id) || (u == t && id == s.accepted[t].id) {
      assert u in s'.flights <==> u in s.flights;
    }
  }

  lemma UnregisterIsExactIffUnshared(s: State, t: nat, s': State)
    requires CancelsExact(s) && At(s, t, Executing(Running)) && t < |s.accepted| && s'.accepted == s.accepted
    requires s'.flights == s.flights[t := Executing(Acking(0))] && s'.cancels == s.cancels - {s.accepted[t].id}
    ensures CancelsExact(s') <==> !exists u :: SharesId(s, t, u)
  {
    forall u: nat, id ensures RunningAt(s', u, id) <==> u != t && RunningAt(s, u, id) {
      assert u in s'.flights <==> u in s.flights;
    }
    if u: nat :| SharesId(s, t, u) {
      assert RunningAt(s', u, s.accepted[t].id);
    } else {
      forall id ensures id in s'.cancels <==> exists u :: RunningAt(s', u, id) {
        if id in s'.cancels {
          var u: nat :| RunningAt(s, u, id);
          assert RunningAt(s', u, id);
        }
        if u: nat :| RunningAt(s', u, id) {
          assert !SharesId(s, t, u);
        }
      }
    }
  }

  lemma RunningUnchanged(cap: nat, s: State, e: Event, s': State)
    requires Next(cap, s, e, s') && !e.Register? && !e.Unregister?
    requires |s.accepted| !in s.flights && forall i :: 0 <= i < |s.queue| ==> At(s, s.queue[i], Queued)
    ensures s.accepted <= s'.accepted && s'.cancels == s.cancels
    ensures forall t :: At(s, t, Executing(Running)) <==> At(s', t, Executing(Running))
  {
  }

  /** One action keeps the registry exact unless it unregisters an ID that another running command shares. */
  lemma CancelsStep(cap: nat, s: State, e: Event, s': State)
    requires Core(s) && Next(cap, s, e, s') && CancelsExact(s)
    ensures CancelsExact(s') <==> !(e.Unregister? && exists u :: SharesId(s, e.t, u))
  {
    if e.Register? {
      RegisterKeepsExact(s, e.t, s');
    } else if e.Unregister? {
      UnregisterIsExactIffUnshared(s, e.t, s');
    } else {
      RunningUnchanged(cap, s, e, s');
      RunningFrame(s, s');
    }
  }

  // No two running commands share an ID.
  ghost predicate Unshared(s: State) { forall t, u :: !SharesId(s, t, u) }

  lemma FirstIsExact(cap: nat, ss: seq<State>, es: seq<Event>)
    requires Behavior(cap, ss, es)
    ensures CancelsExact(ss[0]) && CancelsRun(ss[0])
  {
  }

  lemma UnsharedStep(cap: nat, ss: seq<State>, es: seq<Event>, i: nat)
    requires Behavior(cap, ss, es) && i < |es| && Unshared(ss[i]) && CancelsExact(ss[i])
    ensures CancelsExact(ss[i + 1])
  {
    BehaviorKeepsInv(cap, ss, es, i);
    CancelsStep(cap, ss[i], es[i], ss[i + 1]);
  }

  /** With distinct IDs in flight, CancelCommand finds exactly the commands that are running. */
  lemma CancelsAreTheRunning(cap: nat, ss: seq<State>, es: seq<Event>, i: nat)
    requires Behavior(cap, ss, es) && i <= |es| && forall k :: 0 <= k < i ==> Unshared(ss[k])
    ensures CancelsExact(ss[i])
  {
    FirstIsExact(cap, ss, es);
    for k := 0 to i
      invariant CancelsExact(ss[k])
    {
      UnsharedStep(cap, ss, es, k);
    }
  }

  // Every entry of the registry is that of a running command with its ID; one may be missing.
  ghost predicate CancelsRun(s: State) {
    forall id :: id in s.cancels ==> RunningAt(s, s.cancels[id], id)
  }

  lemma CancelsRunStep(cap: nat, s: State, e: Event, s': State)
    requires Core(s) && Next(cap, s, e, s') && CancelsRun(s)
    ensures CancelsRun(s')
  {
    if !e.Register? && !e.Unregister? { RunningUnchanged(cap, s, e, s'); }
    forall id | id in s'.cancels ensures RunningAt(s', s'.cancels[id], id) {
      assert id in s.cancels ==> RunningAt(s, s.cancels[id], id);
    }
  }

  lemma CancelsRunNext(cap: nat, ss: seq<State>, es: seq<Event>, i: nat)
    requires Behavior(cap, ss, es) && i < |es| && CancelsRun(ss[i])
    ensures CancelsRun(ss[i + 1])
  {
    BehaviorKeepsInv(cap, ss, es, i);
    CancelsRunStep(cap, ss[i], es[i], ss[i + 1]);
  }

  /** Shared IDs or not, what a cancel request finds is a running command with the ID asked for. */
  lemma CancelFindsTheRunning(cap: nat, ss: seq<State>, es: seq<Event>, i: nat)
    requires Behavior(cap, ss, es) && i <= |es|
    ensures CancelsRun(ss[i])
  {
    FirstIsExact(cap, ss, es);
    for k := 0 to i
      invariant CancelsRun(ss[k])
    {
      CancelsRunNext(cap, ss, es, k);
    }
  }

  // -------------------------------------------------------------- reachability

  // Some run ends in s.
  ghost predicate Reachable(cap: nat, s: State) {
    exists ss, es :: Behavior(cap, ss, es) && ss[|es|] == s
  }

  lemma Initially(cap: nat)
    ensures Reachable(cap, INIT)
  {
    assert Behavior(cap, [INIT], []) && [INIT][0] == INIT;
  }

  lemma ReachNext(cap: nat, s: State, e: Event, s': State)
    requires Reachable(cap, s) && Next(cap, s, e, s')
    ensures Reachable(cap, s')
  {
    var ss, es :| Behavior(cap, ss, es) && ss[|es|] == s;
    var ss', es' := ss + [s'], es + [e];
    forall i | 0 <= i < |es'| ensures Next(cap, ss'[i], es'[i], ss'[i + 1]) {
      if i < |es| { assert Next(cap, ss[i], es[i], ss[i + 1]); }
    }
    assert Behavior(cap, ss', es') && ss'[|es'|] == s';
  }

  /** A state some run ends in keeps the invariant, and its registry holds running commands only. */
  lemma ReachableIsSafe(cap: nat, s: State)
    requires Reachable(cap, s)
    ensures Inv(cap, s) && CancelsRun(s)
  {
    var ss, es :| Behavior(cap, ss, es) && ss[|es|] == s;
    BehaviorKeepsInv(cap, ss, es, |es|);
    CancelFindsTheRunning(cap, ss, es, |es|);
  }
}
