/**
 The outcome buffer: events are added at any time and capped; a check-in takes a snapshot,
 sends it and, when the server took it, drops as many events from the front.
 */
module OutcomeBuffer {
  import opened Basics
  import opened GoStrings

  const MAX_EVENTS := 2000

  datatype Event = Event(eventType: string, timestamp: string, detail: string)

  function Stamped(e: Event, now: string): Event {
    if Blank(e.timestamp) then e.(timestamp := now) else e
  }

  function Append<T>(events: seq<T>, e: T): seq<T> {
    var all := events + [e];
    if |all| > MAX_EVENTS then all[|all| - MAX_EVENTS..] else all
  }

  function Drop<T>(events: seq<T>, count: int): seq<T> {
    if count <= 0 then events else if count >= |events| then [] else events[count..]
  }

  // --------------------------------------------------------------- the books

  /** Events are named by their index in the history; the buffer is history[base..]. While a
      check-in is under way, window holds the bounds of its snapshot. */
  datatype State = State(history: seq<Event>, buffer: seq<Event>, base: nat, window: Window, sent: set<nat>, trims: nat)
  datatype Window = Idle | Sending(lo: nat, hi: nat)
  datatype Op = Add(event: Event) | Begin | Succeed | Fail

  function Range(lo: nat, hi: nat): (r: set<nat>)
    ensures forall i :: i in r <==> lo <= i < hi
    ensures |r| == if lo <= hi then hi - lo else 0
    decreases hi
  {
    if lo >= hi then {} else Range(lo, hi - 1) + {hi - 1}
  }

  predicate Possible(s: State, op: Op) {
    match op
    case Add(_) => true
    case Begin => s.window.Idle?
    case _ => s.window.Sending?
  }

  function Perform(s: State, op: Op): State
    requires Possible(s, op)
  {
    match op
    case Add(e) =>
      var full := |s.buffer| >= 2000;
      s.(history := s.history + [e], buffer := Append(s.buffer, e),
         base := if full then s.base + 1 else s.base, trims := if full then s.trims + 1 else s.trims)
    case Begin => s.(window := Sending(s.base, s.base + |s.buffer|))
    case Succeed =>
      var (lo, hi) := (s.window.lo, s.window.hi);
      s.(buffer := if hi > lo then Drop(s.buffer, hi - lo) else s.buffer,
         base := if hi <= lo then s.base else s.base + hi - lo, sent := s.sent + Range(lo, hi), window := Idle)
    case Fail => s.(window := Idle)
  }

  predicate AllPossible(s: State, ops: seq<Op>)
    decreases |ops|
  {
    ops == [] || (Possible(s, ops[0]) && AllPossible(Perform(s, ops[0]), ops[1..]))
  }

  function PerformAll(s: State, ops: seq<Op>): State
    requires AllPossible(s, ops)
    decreases |ops|
  {
    if ops == [] then s else PerformAll(Perform(s, ops[0]), ops[1..])
  }

  // The books when the file has been loaded.
  function Start(loaded: seq<Event>): State { State(loaded, loaded, 0, Idle, {}, 0) }

  lemma {:induction false} PerformSnoc(s: State, ops: seq<Op>, op: Op)
    requires AllPossible(s, ops) && Possible(PerformAll(s, ops), op)
    ensures AllPossible(s, ops + [op]) && PerformAll(s, ops + [op]) == Perform(PerformAll(s, ops), op)
    decreases |ops|
  {
    var all := ops + [op];
    if ops == [] {
      assert all[1..] == [];
    } else {
      assert all[1..] == ops[1..] + [op];
      PerformSnoc(Perform(s, ops[0]), ops[1..], op);
    }
  }

  // --------------------------------------------------------------- the buffer

  class OutcomeBuffer {
    var events: seq<Event>
    ghost var loaded: seq<Event>   // the events the books start with
    ghost var ops: seq<Op>         // what has happened since

    ghost predicate Valid() reads this {
      AllPossible(Start(loaded), ops) && PerformAll(Start(loaded), ops).buffer == events
    }

    ghost function Books(): State
      requires Valid()
      reads this
    {
      PerformAll(Start(loaded), ops)
    }

    // count events are what the check-in under way has sent.
    ghost predicate HasSent(count: int)
      requires Valid()
      reads this
    {
      Books().window.Sending? && count == Books().window.hi - Books().window.lo
    }

    // load takes whatever the file held; the cap does not apply to it.
    constructor (loaded: seq<Event>)
      ensures Valid() && events == this.loaded == loaded && ops == []
    {
      events, this.loaded, ops := loaded, loaded, [];
    }

    // Enters what has just happened.
    ghost method Enter(op: Op)
      requires AllPossible(Start(loaded), ops)
      requires var s := PerformAll(Start(loaded), ops); Possible(s, op) && Perform(s, op).buffer == events
      modifies this`ops
      ensures Valid() && ops == old(ops) + [op]
      ensures Books() == Perform(old(PerformAll(Start(loaded), ops)), op)
    {
      PerformSnoc(Start(loaded), ops, op);
      ops := ops + [op];
    }

    method Add(event: Event, now: string)
      requires Valid()
      modifies this
      ensures Valid() && loaded == old(loaded)
      ensures events == if Blank(event.eventType) then old(events) else Append(old(events), Stamped(event, now))
      ensures !Blank(event.eventType) ==>
                events != [] && events[|events| - 1] ==
                  event.(timestamp := if TrimSpace(event.timestamp) == "" then now else event.timestamp)
      ensures ops == if Blank(event.eventType) then old(ops) else old(ops) + [Op.Add(Stamped(event, now))]
      ensures Books().window == old(Books()).window
    {
      if TrimSpace(event.eventType) == "" { return; }
      var e := event;
      if TrimSpace(event.timestamp) == "" { e := event.(timestamp := now); }
      events := events + [e];
      if |events| > MAX_EVENTS { events := events[|events| - MAX_EVENTS..]; }
      Enter(Op.Add(e));
    }

    // The books take this for the beginning of a check-in, unless one is under way.
    method Snapshot() returns (result: seq<Event>)
      requires Valid()
      modifies this`ops
      ensures Valid() && result == events
      ensures ops == if old(Books()).window.Idle? then old(ops) + [Begin] else old(ops)
      ensures old(Books()).window.Idle? ==> HasSent(|result|)
    {
      if Books().window.Idle? { Enter(Begin); }
      if |events| == 0 { return []; }
      result := events;
    }

    // The books take this for the success of the check-in under way if count is what it sent; any other drop
    // starts them anew.
    method DropPrefix(count: int)
      requires Valid()
      modifies this
      ensures Valid() && events == Drop(old(events), count)
      ensures events == old(events)[Clamp(count, 0, |old(events)|)..]
      ensures if old(HasSent(count)) then loaded == old(loaded) && ops == old(ops) + [Succeed]
              else loaded == events && ops == []
      ensures Books().window.Idle?
    {
      ghost var sent := HasSent(count);
      if count > 0 { events := if count >= |events| then [] else events[count..]; }
      if sent { Enter(Succeed); } else { loaded, ops := events, []; }
    }
  }

  // ------------------------------------------------------------- one check-in

  function AppendAll<T>(events: seq<T>, added: seq<T>): seq<T> {
    if added == [] then events else Append(AppendAll(events, added[..|added| - 1]), added[|added| - 1])
  }

  function Last<T>(s: seq<T>, n: nat): seq<T> { if |s| > n then s[|s| - n..] else s }

  lemma AppendLast<T>(s: seq<T>, e: T)
    ensures Append(Last(s, MAX_EVENTS), e) == Last(s + [e], MAX_EVENTS)
  {
  }

  lemma {:induction false} AppendAllKeepsLast<T>(events: seq<T>, added: seq<T>)
    ensures AppendAll(events, added) == if added == [] then events else Last(events + added, MAX_EVENTS)
  {
    if added != [] {
      var front, e := added[..|added| - 1], added[|added| - 1];
      AppendAllKeepsLast(events, front);
      assert events + added == (events + front) + [e];
      if front == [] { assert events + front == events; } else { AppendLast(events + front, e); }
    }
  }

  // Unsent events lost when m are added to a snapshot of n before it is dropped.
  function Lost(n: nat, m: nat): (k: nat)
    ensures k <= m
  { Clamp(n + m - 2000, 0, m) }

  /** Whatever was loaded or snapshotted, and however the additions fall: after the drop the buffer is
      the added events without their first Lost(n, m). No event of the snapshot is left. */
  lemma CheckinLeavesTheAdded<T>(snapshot: seq<T>, added: seq<T>)
    ensures Drop(AppendAll(snapshot, added), |snapshot|) == added[Lost(|snapshot|, |added|)..]
  {
    var n, m := |snapshot|, |added|;
    AppendAllKeepsLast(snapshot, added);
    var all := snapshot + added;
    if m > 0 && n + m > MAX_EVENTS {
      var k := n + m - MAX_EVENTS;
      assert AppendAll(snapshot, added) == all[k..];
      if n < MAX_EVENTS { assert all[k..][n..] == added[k..]; }
    }
  }

  /** An unsent event is lost exactly on overflow. */
  lemma NothingLostIffNoOverflow<T>(snapshot: seq<T>, added: seq<T>)
    ensures Drop(AppendAll(snapshot, added), |snapshot|) == added
            <==> |added| == 0 || |snapshot| + |added| <= 2000
  {
    CheckinLeavesTheAdded(snapshot, added);
  }

  // The events of some calls of Add, as they are entered.
  function Entered(calls: seq<(Event, string)>): seq<Event> {
    if calls == [] then [] else
    var front := Entered(calls[..|calls| - 1]);
    var (event, now) := calls[|calls| - 1];
    if Blank(event.eventType) then front else front + [Stamped(event, now)]
  }

  function Additions(events: seq<Event>): seq<Op> { seq(|events|, i requires 0 <= i < |events| => Op.Add(events[i])) }

  lemma EnteredNext(calls: seq<(Event, string)>, i: nat)
    requires i < |calls|
    ensures var (event, now) := calls[i];
            var front, all := Entered(calls[..i]), Entered(calls[..i + 1]);
            if Blank(event.eventType) then all == front
            else all == front + [Stamped(event, now)]
                 && Additions(all) == Additions(front) + [Op.Add(Stamped(event, now))]
  {
    assert calls[..i + 1][..i] == calls[..i];
  }

  lemma AppendAllNext<T>(events: seq<T>, added: seq<T>, e: T)
    ensures AppendAll(events, added + [e]) == Append(AppendAll(events, added), e)
  {
    assert (added + [e])[..|added|] == added;
  }

  // What the i-th call does to the buffer and to the books.
  lemma AddNext(events: seq<Event>, ops: seq<Op>, calls: seq<(Event, string)>, i: nat)
    requires i < |calls|
    ensures var (event, now) := calls[i];
            var front, all, e := Entered(calls[..i]), Entered(calls[..i + 1]), Stamped(event, now);
            if Blank(event.eventType) then all == front
            else AppendAll(events, all) == Append(AppendAll(events, front), e)
                 && ops + Additions(all) == ops + Additions(front) + [Op.Add(e)]
  {
    var (event, now) := calls[i];
    var front, e := Entered(calls[..i]), Stamped(event, now);
    EnteredNext(calls, i);
    AppendAllNext(events, front, e);
    ConcatAssociates(ops, Additions(front), [Op.Add(e)]);
  }

  // Calls of Add by whatever goroutines there are.
  method AddAll(buffer: OutcomeBuffer, calls: seq<(Event, string)>)
    requires buffer.Valid()
    modifies buffer
    ensures buffer.Valid() && buffer.loaded == old(buffer.loaded)
    ensures buffer.Books().window == old(buffer.Books()).window
    ensures buffer.events == AppendAll(old(buffer.events), Entered(calls))
    ensures buffer.ops == old(buffer.ops) + Additions(Entered(calls))
  {
    ghost var before, ops, window := buffer.events, buffer.ops, buffer.Books().window;
    for i := 0 to |calls|
      invariant buffer.Valid() && buffer.loaded == old(buffer.loaded) && buffer.Books().window == window
      invariant buffer.events == AppendAll(before, Entered(calls[..i]))
      invariant buffer.ops == ops + Additions(Entered(calls[..i]))
    {
      var (event, now) := calls[i];
      AddNext(before, ops, calls, i);
      buffer.Add(event, now);
    }
    assert calls[..|calls|] == calls;
  }

  /**
   One check-in: what is buffered is sent while other goroutines make `calls` of Add; if the server took it, as many
   events go from the front, and what is left are the added ones but for the overflow.
   */
  method Checkin(buffer: OutcomeBuffer, calls: seq<(Event, string)>) returns (ok: bool)
    requires buffer.Valid() && buffer.Books().window.Idle?
    modifies buffer
    ensures buffer.Valid() && buffer.Books().window.Idle? && buffer.loaded == old(buffer.loaded)
    ensures buffer.ops == old(buffer.ops) + [Begin] + Additions(Entered(calls)) + [if ok then Succeed else Fail]
    ensures var added, n := Entered(calls), |old(buffer.events)|;
            buffer.events == if ok then added[Lost(n, |added|)..] else AppendAll(old(buffer.events), added)
  {
    var pending := buffer.Snapshot();
    CheckinLeavesTheAdded(pending, Entered(calls));
    AddAll(buffer, calls);
    ok := *;
    if !ok {
      buffer.Enter(Fail);
    } else if |pending| > 0 {
      buffer.DropPrefix(|pending|);
    } else {
      buffer.Enter(Succeed);
    }
  }

  // ------------------------------------------------------------- all histories

  ghost predicate Inv(s: State) {
    && |s.buffer| <= MAX_EVENTS && s.base <= |s.history| && s.buffer == s.history[s.base..]
    && (forall i :: i in s.sent ==> i < s.base)
    && match s.window
       case Idle => s.base == |s.sent| + s.trims
       case Sending(lo, hi) =>
         && lo <= s.base && lo <= hi <= |s.history| && hi - lo <= MAX_EVENTS
         && s.base == |s.sent| + s.trims && (forall i :: i in s.sent ==> i < lo)
         && (s.base > lo ==> |s.history| - s.base == MAX_EVENTS)
  }

  lemma SentGrows(sent: set<nat>, lo: nat, hi: nat)
    requires lo <= hi && forall i :: i in sent ==> i < lo
    ensures |sent + Range(lo, hi)| == |sent| + (hi - lo)
    ensures forall i :: i in sent + Range(lo, hi) ==> i < hi
  {
    assert sent !! Range(lo, hi);
  }

  lemma SucceedKeepsInv(s: State)
    requires Inv(s) && s.window.Sending?
    ensures Inv(Perform(s, Succeed))
  {
    SentGrows(s.sent, s.window.lo, s.window.hi);
  }

  lemma PerformKeepsInv(s: State, op: Op)
    requires Inv(s) && Possible(s, op)
    ensures Inv(Perform(s, op))
  {
    match op
    case Add(e) => assert (s.history + [e])[s.base..] == s.buffer + [e];
    case Succeed => SucceedKeepsInv(s);
    case _ =>
  }

  lemma {:induction false} HistoryKeepsInv(s: State, ops: seq<Op>)
    requires Inv(s) && AllPossible(s, ops)
    ensures Inv(PerformAll(s, ops))
    decreases |ops|
  {
    if ops != [] {
      PerformKeepsInv(s, ops[0]);
      HistoryKeepsInv(Perform(s, ops[0]), ops[1..]);
    }
  }

  // Neither sent nor still in the buffer.
  function LostEvents(s: State): set<nat> { Range(0, s.base) - s.sent }

  /** Over every history of additions and check-ins, good and failed: between check-ins an event is
      sent, buffered or lost, and as many are lost as additions found the buffer full. */
  lemma LossesAreOverflows(events: seq<Event>, ops: seq<Op>)
    requires |events| <= 2000
    requires AllPossible(Start(events), ops)
    ensures var s := PerformAll(Start(events), ops);
            s.window.Idle? ==>
              && s.base <= |s.history| && s.buffer == s.history[s.base..]
              && s.sent <= Range(0, s.base)
              && |LostEvents(s)| == s.trims
  {
    var start := Start(events);
    HistoryKeepsInv(start, ops);
    var s := PerformAll(start, ops);
    assert s.sent <= Range(0, s.base);
    assert Range(0, s.base) == s.sent + LostEvents(s);
    assert |Range(0, s.base)| == |s.sent| + |LostEvents(s)|;
  }

  /** So it is with the buffer, as long as its check-ins drop what they sent. */
  lemma BufferLosses(buffer: OutcomeBuffer)
    requires buffer.Valid() && |buffer.loaded| <= 2000 && buffer.Books().window.Idle?
    ensures var s := buffer.Books();
            && s.base <= |s.history| && buffer.events == s.history[s.base..]
            && s.sent <= Range(0, s.base) && |LostEvents(s)| == s.trims
  {
    LossesAreOverflows(buffer.loaded, buffer.ops);
  }
}
