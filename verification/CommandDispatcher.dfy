/**
 The dispatcher object itself: a channel of commands, a semaphore, a counter and the registry of cancel
 functions, changed in place. Each method is one atomic action of one goroutine. The tickets and stages of the
 step system are ghost here; every action is proved to be a step of it, so that the
 object is always in a state some run of the system ends in, and the laws of all runs hold of it.
 */
module CommandDispatcher {
  import opened Basics
  import opened Dispatcher
  import opened DispatcherRuns

  lemma CommandsAccepted(accepted: seq<Command>, q: seq<nat>, c: Command)
    requires Indices(accepted, q)
    ensures Indices(accepted + [c], q) && Pick(accepted + [c], q) == Pick(accepted, q)
  {
  }

  lemma CommandsSent(accepted: seq<Command>, q: seq<nat>, t: nat)
    requires Indices(accepted, q) && t < |accepted|
    ensures Indices(accepted, q + [t]) && Pick(accepted, q + [t]) == Pick(accepted, q) + [accepted[t]]
  {
  }

  lemma CommandsTaken(accepted: seq<Command>, q: seq<nat>)
    requires Indices(accepted, q) && q != []
    ensures Indices(accepted, q[1..]) && Pick(accepted, q) == [accepted[q[0]]] + Pick(accepted, q[1..])
  {
  }

  // A goroutine that has left execute still holds its token.
  lemma TokenToReturn(cap: nat, s: State)
    requires Reachable(cap, s) && s.releasing > 0
    ensures s.tokens > 0
  {
    ReachableIsSafe(cap, s);
  }

  lemma FlightIsAccepted(cap: nat, s: State, t: nat)
    requires Reachable(cap, s) && t in s.flights
    ensures t < |s.accepted|
  {
    ReachableIsSafe(cap, s);
  }

  lemma CounterTells(cap: nat, s: State)
    requires Reachable(cap, s)
    ensures s.activeCount > 0 <==> s.flights != map[]
  {
    ReachableIsSafe(cap, s);
  }

  class CommandDispatcher {
    const lightConcurrency: nat
    var heavyQueue: seq<Command>          // the buffered channel
    var lightSemaphore: nat               // tokens in it
    var activeCount: int
    var activeCancel: map<string, nat>    // a cancel function goes by the ticket of its command
    ghost var model: State

    ghost predicate Valid() reads this {
      && lightConcurrency >= 1 && Reachable(lightConcurrency, model)
      && Indices(model.accepted, model.queue) && heavyQueue == Pick(model.accepted, model.queue)
      && lightSemaphore == model.tokens && activeCount == model.activeCount && activeCancel == model.cancels
    }

    constructor (concurrency: int)
      ensures Valid() && model == INIT && lightConcurrency == if concurrency < 1 then 1 else concurrency
    {
      lightConcurrency := if concurrency < 1 then 1 else concurrency;
      heavyQueue, lightSemaphore, activeCount, activeCancel, model := [], 0, 0, map[], INIT;
      new;
      Initially(lightConcurrency);
    }

    // The step the ghost state takes: it stays the last state of a run.
    ghost method Step(e: Event, next: State)
      requires Reachable(lightConcurrency, model) && Next(lightConcurrency, model, e, next)
      modifies this`model
      ensures model == next && Reachable(lightConcurrency, model)
    {
      ReachNext(lightConcurrency, model, e, next);
      model := next;
    }

    /** enqueue counts the command before it looks at its lane. */
    method Count(ghost c: Command)
      requires Valid() && model.pending != [] && model.pending[0] == c && EnqueuerFree(model)
      modifies this
      ensures Valid() && Next(lightConcurrency, old(model), Accept, model)
      ensures heavyQueue == old(heavyQueue) && activeCount == old(activeCount) + 1
    {
      CommandsAccepted(model.accepted, model.queue, c);
      Step(Accept, model.(pending := model.pending[1..], accepted := model.accepted + [c],
                          activeCount := model.activeCount + 1,
                          flights := model.flights[|model.accepted| := if c.IsHeavy() then Blocked else Waiting]));
      activeCount := activeCount + 1;
    }

    /** The send on the channel, possible while it has room. */
    method SendHeavy(c: Command, ghost t: nat)
      requires Valid() && At(model, t, Blocked) && t < |model.accepted| && model.accepted[t] == c
      requires |heavyQueue| < 64
      modifies this
      ensures Valid() && Next(lightConcurrency, old(model), Dispatcher.SendHeavy(t), model)
      ensures heavyQueue == old(heavyQueue) + [c] && activeCount == old(activeCount)
    {
      CommandsSent(model.accepted, model.queue, t);
      Step(Dispatcher.SendHeavy(t), Move(model, t, Queued).(queue := model.queue + [t]));
      heavyQueue := heavyQueue + [c];
    }

    /** The worker's receive. */
    method Take() returns (c: Command, ghost t: nat)
      requires Valid() && model.worker == AtSelect && heavyQueue != []
      modifies this
      ensures Valid() && Next(lightConcurrency, old(model), Dispatcher.Take, model)
      ensures model.worker == Busy(t) && t < |model.accepted| && model.accepted[t] == c
      ensures old(heavyQueue) == [c] + heavyQueue && activeCount == old(activeCount)
    {
      t := model.queue[0];
      CommandsTaken(model.accepted, model.queue);
      Step(Dispatcher.Take, Move(model, t, Executing(Starting))
                            .(queue := model.queue[1..], worker := Busy(t), started := model.started + [t]));
      c := heavyQueue[0];
      heavyQueue := heavyQueue[1..];
    }

    /** Shutdown reaches a command still waiting for the channel or for a token: it is only uncounted. */
    method GiveUp(ghost t: nat)
      requires Valid() && model.shutdown && (At(model, t, Blocked) || At(model, t, Waiting))
      modifies this
      ensures Valid() && activeCount == old(activeCount) - 1 && t !in model.flights
      ensures var e := if At(old(model), t, Blocked) then AbandonHeavy(t) else AbandonLight(t);
              Next(lightConcurrency, old(model), e, model)
    {
      Step(if At(model, t, Blocked) then AbandonHeavy(t) else AbandonLight(t), Uncount(model, t, Abandoned));
      activeCount := activeCount - 1;
    }

    method AcquireLight(ghost t: nat)
      requires Valid() && At(model, t, Waiting) && lightSemaphore < lightConcurrency
      modifies this
      ensures Valid() && Next(lightConcurrency, old(model), Acquire(t), model)
      ensures lightSemaphore == old(lightSemaphore) + 1
    {
      Step(Acquire(t), Move(model, t, Executing(Starting)).(tokens := lightSemaphore + 1));
      lightSemaphore := lightSemaphore + 1;
    }

    /** The deferred receive, after execute has returned; it never blocks. */
    method ReleaseLight()
      requires Valid() && model.releasing > 0
      modifies this
      ensures Valid() && Next(lightConcurrency, old(model), Release, model) && lightSemaphore == old(lightSemaphore) - 1
    {
      TokenToReturn(lightConcurrency, model);
      Step(Release, model.(releasing := model.releasing - 1, tokens := lightSemaphore - 1));
      lightSemaphore := lightSemaphore - 1;
    }

    method RegisterCancel(id: string, ghost t: nat, cancel: nat)
      requires Valid() && At(model, t, Executing(Starting)) && t < |model.accepted| && model.accepted[t].id == id
      requires cancel == t
      modifies this
      ensures Valid() && Next(lightConcurrency, old(model), Register(t), model)
      ensures activeCancel == old(activeCancel)[id := cancel]
    {
      Step(Register(t), Move(model, t, Executing(Running)).(cancels := activeCancel[id := cancel]));
      activeCancel := activeCancel[id := cancel];
    }

    method UnregisterCancel(id: string, ghost t: nat)
      requires Valid() && At(model, t, Executing(Running)) && t < |model.accepted| && model.accepted[t].id == id
      modifies this
      ensures Valid() && Next(lightConcurrency, old(model), Unregister(t), model)
      ensures activeCancel == old(activeCancel) - {id}
    {
      Step(Unregister(t), Move(model, t, Executing(Acking(0))).(cancels := activeCancel - {id}));
      activeCancel := activeCancel - {id};
    }

    /** The deferred decrement, once the acknowledgement has ended one way or another. */
    method Finish(ghost t: nat, ghost outcome: Outcome)
      requires Valid() && At(model, t, Executing(Done(outcome)))
      modifies this
      ensures Valid() && Next(lightConcurrency, old(model), Dispatcher.Finish(t, outcome), model)
      ensures activeCount == old(activeCount) - 1 && heavyQueue == old(heavyQueue)
    {
      FlightIsAccepted(lightConcurrency, model, t);
      ghost var left := Uncount(model, t, outcome);
      Step(Dispatcher.Finish(t, outcome),
           if model.accepted[t].IsHeavy() then left.(worker := AtSelect) else left.(releasing := model.releasing + 1));
      activeCount := activeCount - 1;
    }

    /** The counter tells whether any command is in flight. */
    method HasActiveWork() returns (active: bool)
      requires Valid()
      ensures active <==> model.flights != map[]
    {
      CounterTells(lightConcurrency, model);
      active := activeCount > 0;
    }

    /** A cancel request finds a command exactly when the registry holds its ID, and then a running one with that ID. */
    method CancelCommand(id: string) returns (found: bool, cancel: nat)
      requires Valid()
      ensures found <==> id in activeCancel
      ensures found ==> cancel == activeCancel[id] && RunningAt(model, cancel, id)
      ensures CancelsExact(model) ==> (found <==> exists t :: RunningAt(model, t, id))
    {
      ReachableIsSafe(lightConcurrency, model);
      found, cancel := id in activeCancel, 0;
      if found { cancel := activeCancel[id]; }
    }
  }
}
