/**
 Acknowledging a command with retries, the persistent queue of acknowledgements that
 failed, and the flush at the start of a check-in. Storage may fail; flush and enqueue
 are not interleaved.
 */
module FailedAcks {
  import opened Basics
  import opened Dispatcher

  const MAX_QUEUED := 2000

  // ------------------------------------------------------------ specification

  // The phase of the dispatcher after these replies, from a fresh acknowledgement.
  function AckPhase(replies: seq<Reply>): Phase {
    if replies == [] then Acking(0) else
    match AckPhase(replies[..|replies| - 1])
    case Acking(k) => AfterReply(k, replies[|replies| - 1])
    case phase => phase
  }

  function Capped<T>(q: seq<T>): seq<T> {
    if |q| > MAX_QUEUED then q[|q| - MAX_QUEUED..] else q
  }

  predicate RateLimited(r: Reply) { r.Http? && r.status == 429 }

  // What a flush keeps: everything that failed, and all the rest after a 429.
  function Remaining<T>(q: seq<T>, replies: seq<Reply>): seq<T> {
    if q == [] || replies == [] then q
    else if replies[0].Ok? then Remaining(q[1..], replies[1..])
    else if RateLimited(replies[0]) then q
    else [q[0]] + Remaining(q[1..], replies[1..])
  }

  // The part of Remaining decided by the replies before a 429.
  function Kept<T>(q: seq<T>, replies: seq<Reply>): seq<T>
    requires |q| == |replies|
  {
    if q == [] then [] else
    var n := |q| - 1;
    Kept(q[..n], replies[..n]) + if replies[n].Ok? then [] else [q[n]]
  }

  lemma {:induction false} RemainingAppend<T>(q: seq<T>, a: seq<Reply>, b: seq<Reply>)
    requires |a| <= |q| && forall i :: 0 <= i < |a| ==> !RateLimited(a[i])
    ensures Remaining(q, a + b) == Kept(q[..|a|], a) + Remaining(q[|a|..], b)
  {
    var n := |a| - 1;
    if a == [] {
      assert a + b == b && q[0..] == q;
    } else {
      assert a + b == a[..n] + ([a[n]] + b);
      RemainingAppend(q, a[..n], [a[n]] + b);
      assert q[..|a|][..n] == q[..n];
      assert q[n..][1..] == q[|a|..] && ([a[n]] + b)[1..] == b;
    }
  }

  lemma KeptSnoc<T>(q: seq<T>, a: seq<Reply>, r: Reply)
    requires |a| < |q|
    ensures Kept(q[..|a| + 1], a + [r]) == Kept(q[..|a|], a) + if r.Ok? then [] else [q[|a|]]
  {
    assert q[..|a| + 1][..|a|] == q[..|a|] && (a + [r])[..|a|] == a;
  }

  // A flush that meets a 429 keeps the rest as it is; one that meets none has tried everything.
  lemma StopAt<T>(q: seq<T>, a: seq<Reply>, r: Reply)
    requires |a| < |q| && forall i :: 0 <= i < |a| ==> !RateLimited(a[i])
    ensures RateLimited(r) ==> Remaining(q, a + [r]) == Kept(q[..|a|], a) + [q[|a|]] + q[|a| + 1..]
  {
    RemainingAppend(q, a, [r]);
    assert q[|a|..] == [q[|a|]] + q[|a| + 1..];
    ConcatAssociates(Kept(q[..|a|], a), [q[|a|]], q[|a| + 1..]);
  }

  lemma ThroughAll<T>(q: seq<T>, a: seq<Reply>)
    requires |a| == |q| && forall i :: 0 <= i < |a| ==> !RateLimited(a[i])
    ensures Remaining(q, a) == Kept(q[..|a|], a)
  {
    RemainingAppend(q, a, []);
    assert a + [] == a;
  }

  // What a flush gets through.
  function Flushed<T>(q: seq<T>, replies: seq<Reply>): seq<T> {
    if q == [] || replies == [] || RateLimited(replies[0]) then []
    else (if replies[0].Ok? then [q[0]] else []) + Flushed(q[1..], replies[1..])
  }

  // One reply for each payload tried: the flush stops early only at a 429.
  predicate FlushReplies(n: nat, replies: seq<Reply>) {
    && |replies| <= n
    && (forall i :: 0 <= i < |replies| && replies[i].Http? && replies[i].status == 429 ==> i == |replies| - 1)
    && (|replies| < n ==> replies != [] && replies[|replies| - 1].Http? && replies[|replies| - 1].status == 429)
  }

  datatype Payload = Payload(commandId: string, status: string, details: string)

  // ------------------------------------------------------------- the ledger

  /** The n-th acknowledgement is named n; each is in one of the four places. */
  datatype Ledger = Ledger(next: nat, queued: seq<nat>, delivered: set<nat>, rejected: set<nat>, evicted: set<nat>)

  // saved: the queue file could be read and written.
  datatype Op = Submit(replies: seq<Reply>, saved: bool) | Flush(replies: seq<Reply>, saved: bool)

  predicate Possible(l: Ledger, op: Op) {
    match op
    case Submit(replies, _) => AckPhase(replies) in {Done(Delivered), Done(Rejected), Acking(ACK_ATTEMPTS)}
    case Flush(replies, saved) => FlushReplies(|l.queued|, replies) || (replies == [] && !saved)
  }

  function Perform(l: Ledger, op: Op): Ledger {
    match op
    case Submit(replies, saved) =>
      var l1 := l.(next := l.next + 1);
      if AckPhase(replies) == Done(Delivered) then l1.(delivered := l.delivered + {l.next})
      else if AckPhase(replies) == Done(Rejected) then l1.(rejected := l.rejected + {l.next})
      else if !saved then l1
      else
        var q := l.queued + [l.next];
        l1.(queued := Capped(q), evicted := l.evicted + (Elements(q) - Elements(Capped(q))))
    case Flush(replies, saved) =>
      l.(queued := if saved then Remaining(l.queued, replies) else l.queued,
         delivered := l.delivered + Elements(Flushed(l.queued, replies)))
  }

  predicate AllPossible(l: Ledger, ops: seq<Op>)
    decreases |ops|
  {
    ops == [] || (Possible(l, ops[0]) && AllPossible(Perform(l, ops[0]), ops[1..]))
  }

  function PerformAll(l: Ledger, ops: seq<Op>): Ledger
    decreases |ops|
  {
    if ops == [] then l else PerformAll(Perform(l, ops[0]), ops[1..])
  }

  // The ledger when the file is found with n payloads in it.
  function Opening(n: nat): Ledger { Ledger(n, seq(n, i requires 0 <= i < n => i), {}, {}, {}) }

  lemma {:induction false} PerformSnoc(l: Ledger, ops: seq<Op>, op: Op)
    ensures PerformAll(l, ops + [op]) == Perform(PerformAll(l, ops), op)
    ensures AllPossible(l, ops) && Possible(PerformAll(l, ops), op) ==> AllPossible(l, ops + [op])
    decreases |ops|
  {
    var all := ops + [op];
    if ops == [] {
      assert all[1..] == [];
    } else {
      assert all[1..] == ops[1..] + [op];
      PerformSnoc(Perform(l, ops[0]), ops[1..], op);
    }
  }

  // The ledger's queue names what the file holds, out of everything submitted so far.
  predicate Fits(l: Ledger, submitted: seq<Payload>, queued: seq<Payload>) {
    l.next == |submitted| && Indices(submitted, l.queued) && queued == Pick(submitted, l.queued)
  }

  lemma QueuedFits(l: Ledger, submitted: seq<Payload>, queued: seq<Payload>, payload: Payload)
    requires Fits(l, submitted, queued)
    ensures Fits(l.(next := l.next + 1), submitted + [payload], queued)
    ensures Fits(l.(next := l.next + 1, queued := Capped(l.queued + [l.next])), submitted + [payload],
                 Capped(queued + [payload]))
  {
    var all, q := submitted + [payload], l.queued + [l.next];
    assert Pick(all, l.queued) == queued;
    assert Pick(all, q) == queued + [payload];
    assert Pick(all, Capped(q)) == Capped(queued + [payload]);
  }

  lemma SubmitFits(l: Ledger, submitted: seq<Payload>, queued: seq<Payload>, payload: Payload, replies: seq<Reply>,
                   saved: bool)
    requires Fits(l, submitted, queued) && Possible(l, Submit(replies, saved))
    ensures Fits(Perform(l, Submit(replies, saved)), submitted + [payload],
                 if AckPhase(replies).Acking? && saved then Capped(queued + [payload]) else queued)
  {
    QueuedFits(l, submitted, queued, payload);
  }

  lemma PickCons(all: seq<Payload>, n: nat, q: seq<nat>)
    requires n < |all| && Indices(all, q)
    ensures Indices(all, [n] + q) && Pick(all, [n] + q) == [all[n]] + Pick(all, q)
  {
  }

  lemma PickTail(all: seq<Payload>, q: seq<nat>)
    requires Indices(all, q) && q != []
    ensures Indices(all, q[1..]) && Pick(all, q)[1..] == Pick(all, q[1..]) && Pick(all, q)[0] == all[q[0]]
  {
  }

  lemma {:induction false} RemainingOfPicked(all: seq<Payload>, q: seq<nat>, replies: seq<Reply>)
    requires Indices(all, q)
    ensures Indices(all, Remaining(q, replies)) && Remaining(Pick(all, q), replies) == Pick(all, Remaining(q, replies))
    decreases |q|
  {
    if q != [] && replies != [] && !RateLimited(replies[0]) {
      PickTail(all, q);
      RemainingOfPicked(all, q[1..], replies[1..]);
      PickCons(all, q[0], Remaining(q[1..], replies[1..]));
    }
  }

  lemma FlushFits(l: Ledger, submitted: seq<Payload>, queued: seq<Payload>, replies: seq<Reply>, saved: bool)
    requires Fits(l, submitted, queued)
    ensures Fits(Perform(l, Flush(replies, saved)), submitted,
                 if saved then Remaining(queued, replies) else queued)
  {
    RemainingOfPicked(submitted, l.queued, replies);
  }

  // A reply that ends the attempts: success, or a client error other than the rate limit.
  ghost predicate Decides(r: Reply) { r.Ok? || (r.Http? && 400 <= r.status < 500 && r.status != 429) }

  // 300 ms, or what a 429 asks for, from a second to a minute.
  ghost function WaitAfter(r: Reply): int {
    match r
    case Http(429, after) => if after <= 0 then 1000 else Min(after, 60000)
    case _ => 300
  }

  // The loop sleeps after every reply but one that decides.
  ghost predicate Waited(replies: seq<Reply>, waits: seq<int>) {
    && replies != [] && |waits| == |replies| - (if Decides(replies[|replies| - 1]) then 1 else 0)
    && forall i :: 0 <= i < |waits| ==> waits[i] == WaitAfter(replies[i])
  }

  // One more reply after some that did not decide.
  lemma AttemptNext(replies: seq<Reply>, reply: Reply)
    requires AckPhase(replies) == Acking(|replies|)
    ensures AckPhase(replies + [reply]) == if reply == Ok then Done(Delivered)
                                           else if Decides(reply) then Done(Rejected) else Acking(|replies| + 1)
  {
    assert (replies + [reply])[..|replies|] == replies;
  }

  // ---------------------------------------------------------------- the store

  class AckStore {
    var queued: seq<Payload>             // the file
    ghost var submitted: seq<Payload>    // all acknowledgements, in order
    ghost var history: seq<Op>           // what has been done so far
    ghost const found: nat               // how many payloads the file held at the start

    ghost function Books(): Ledger reads this { PerformAll(Opening(found), history) }

    ghost predicate Valid() reads this { AllPossible(Opening(found), history) && Fits(Books(), submitted, queued) }

    constructor (file: seq<Payload>)
      ensures Valid() && queued == submitted == file && found == |file| && history == []
    {
      queued, submitted, history, found := file, file, [], |file|;
      new;
      assert Pick(file, Opening(|file|).queued) == file;
    }

    // Enters what has just been done.
    ghost method Enter(op: Op)
      requires AllPossible(Opening(found), history) && Possible(Books(), op)
      requires Fits(Perform(Books(), op), submitted, queued)
      modifies this`history
      ensures Valid() && history == old(history) + [op]
    {
      PerformSnoc(Opening(found), history, op);
      history := history + [op];
    }

    ghost method EnterSubmit(was: seq<Payload>, payload: Payload, replies: seq<Reply>, saved: bool)
      requires AllPossible(Opening(found), history) && Fits(Books(), submitted, was)
      requires Possible(Books(), Submit(replies, saved))
      requires queued == if AckPhase(replies).Acking? && saved then Capped(was + [payload]) else was
      modifies this`submitted, this`history
      ensures Valid() && history == old(history) + [Submit(replies, saved)] && submitted == old(submitted) + [payload]
    {
      SubmitFits(Books(), submitted, was, payload, replies, saved);
      submitted := submitted + [payload];
      Enter(Submit(replies, saved));
    }

    // loadFailedAcks and saveFailedAcks may fail.
    method Enqueue(payload: Payload) returns (ok: bool)
      modifies this`queued
      ensures ok ==> queued == Capped(old(queued) + [payload])
      ensures ok ==> |queued| == Min(|old(queued)| + 1, 2000)
                     && queued == (old(queued) + [payload])[|old(queued)| + 1 - |queued|..]
      ensures !ok ==> queued == old(queued)
    {
      ok := *;
      if !ok { return; }
      var q := queued + [payload];
      if |q| > MAX_QUEUED { q := q[|q| - MAX_QUEUED..]; }
      ok := *;
      if ok { queued := q; }
    }

    // The attempts; replies and waits (milliseconds) record what the server answered and how long the loop slept.
    method TryAck() returns (decided: bool, delivered: bool, replies: seq<Reply>, waits: seq<int>)
      ensures 1 <= |replies| <= 3 && forall i :: 0 <= i < |replies| - 1 ==> !Decides(replies[i])
      ensures decided <==> Decides(replies[|replies| - 1])
      ensures delivered <==> replies[|replies| - 1] == Ok
      ensures !decided ==> |replies| == 3
      ensures AckPhase(replies) in {Done(Delivered), Done(Rejected), Acking(ACK_ATTEMPTS)}
      ensures decided <==> AckPhase(replies).Done?
      ensures delivered <==> AckPhase(replies) == Done(Delivered)
      ensures Waited(replies, waits)
    {
      replies, waits, decided, delivered := [], [], true, false;
      var attempt := 0;
      while attempt < ACK_ATTEMPTS
        invariant 0 <= attempt <= ACK_ATTEMPTS && |replies| == |waits| == attempt
        invariant AckPhase(replies) == Acking(attempt)
        invariant forall i :: 0 <= i < |replies| ==> !Decides(replies[i])
        invariant forall i :: 0 <= i < |waits| ==> waits[i] == WaitAfter(replies[i])
      {
        var reply: Reply := *;
        AttemptNext(replies, reply);
        replies := replies + [reply];
        if reply.Ok? { delivered := true; return; }
        if RateLimited(reply) {
          waits := waits + [RateLimitWait(reply.retryAfter)];
        } else {
          if reply.Http? && 400 <= reply.status < 500 { return; }
          waits := waits + [300];
        }
        attempt := attempt + 1;
      }
      decided := false;
    }

    method AckWithRetry(payload: Payload) returns (delivered: bool, saved: bool, replies: seq<Reply>, waits: seq<int>)
      requires Valid()
      modifies this
      ensures Valid() && history == old(history) + [Submit(replies, saved)] && submitted == old(submitted) + [payload]
      ensures 1 <= |replies| <= 3 && forall i :: 0 <= i < |replies| - 1 ==> !Decides(replies[i])
      ensures delivered <==> replies[|replies| - 1] == Ok
      ensures !Decides(replies[|replies| - 1]) ==> |replies| == 3
      ensures Decides(replies[|replies| - 1]) ==> !saved
      ensures AckPhase(replies) in {Done(Delivered), Done(Rejected), Acking(ACK_ATTEMPTS)}
      ensures delivered <==> AckPhase(replies) == Done(Delivered)
      ensures if saved then |queued| == Min(|old(queued)| + 1, 2000)
                            && queued == (old(queued) + [payload])[|old(queued)| + 1 - |queued|..]
              else queued == old(queued)
      ensures Waited(replies, waits)
    {
      var decided;
      decided, delivered, replies, waits := TryAck();
      saved := false;
      if !decided { saved := Enqueue(payload); }
      EnterSubmit(old(queued), payload, replies, saved);
    }

    // One pass over what is queued: what failed stays, and all the rest after a 429.
    method TryAll(q: seq<Payload>) returns (remaining: seq<Payload>, replies: seq<Reply>)
      ensures FlushReplies(|q|, replies) && remaining == Remaining(q, replies)
    {
      remaining, replies := [], [];
      var idx := 0;
      while idx < |q|
        invariant 0 <= idx <= |q| && |replies| == idx
        invariant forall i :: 0 <= i < |replies| ==> !RateLimited(replies[i])
        invariant remaining == Kept(q[..idx], replies)
      {
        var reply: Reply := *;
        KeptSnoc(q, replies, reply);
        StopAt(q, replies, reply);
        replies := replies + [reply];
        if !reply.Ok? {
          remaining := remaining + [q[idx]];
          if RateLimited(reply) {
            remaining := remaining + q[idx + 1..];
            return;
          }
        }
        idx := idx + 1;
      }
      ThroughAll(q, replies);
    }

    method Flush() returns (saved: bool, replies: seq<Reply>)
      requires Valid()
      modifies this
      ensures Valid() && history == old(history) + [Op.Flush(replies, saved)] && submitted == old(submitted)
      ensures FlushReplies(|old(queued)|, replies) || (replies == [] && !saved)
      ensures queued == if saved then Remaining(old(queued), replies) else old(queued)
    {
      replies, saved := [], *;
      FlushFits(Books(), submitted, queued, replies, saved);
      if !saved || |queued| == 0 {
        Enter(Op.Flush(replies, saved));
        return;
      }
      var remaining: seq<Payload>;
      remaining, replies := TryAll(queued);
      saved := *;
      FlushFits(Books(), submitted, queued, replies, saved);
      if saved { queued := remaining; }
      Enter(Op.Flush(replies, saved));
    }
  }

  function RateLimitWait(retryAfter: int): int {
    if retryAfter <= 0 then 1000 else if retryAfter > 60000 then 60000 else retryAfter
  }

  // ------------------------------------------------------ laws of one operation

  // xs can be read off ys from left to right.
  predicate Subsequence<T(==)>(xs: seq<T>, ys: seq<T>) {
    xs == [] || (ys != [] && if xs[0] == ys[0] then Subsequence(xs[1..], ys[1..]) else Subsequence(xs, ys[1..]))
  }

  lemma {:induction false} SubsequenceRefl<T>(xs: seq<T>)
    ensures Subsequence(xs, xs)
  {
    if xs != [] { SubsequenceRefl(xs[1..]); }
  }

  // Dropping heads on the left keeps a subsequence.
  lemma {:induction false} SubsequenceTail<T>(xs: seq<T>, ys: seq<T>)
    requires xs != [] && Subsequence(xs, ys)
    ensures Subsequence(xs[1..], ys)
    decreases |ys|
  {
    if xs[0] == ys[0] {
      if |xs| > 1 && xs[1] == ys[0] { SubsequenceTail(xs[1..], ys[1..]); }
    } else {
      SubsequenceTail(xs, ys[1..]);
      if |xs| > 1 && xs[1] == ys[0] {
        assert xs[1..][1..] == xs[1..][1..];
        SubsequenceTail(xs[1..], ys[1..]);
      }
    }
  }

  lemma SubsequenceLonger<T>(xs: seq<T>, y: T, ys: seq<T>)
    requires Subsequence(xs, ys)
    ensures Subsequence(xs, [y] + ys)
  {
    assert ([y] + ys)[1..] == ys;
    if xs != [] && xs[0] == y { SubsequenceTail(xs, ys); }
  }

  function Shifted(at: seq<nat>): (r: seq<nat>)
    ensures |r| == |at| && forall i :: 0 <= i < |at| ==> r[i] == at[i] + 1
  {
    seq(|at|, i requires 0 <= i < |at| => at[i] + 1)
  }

  // Positions in a tail are one less than in the whole.
  lemma ShiftedPicks<T>(q: seq<T>, at: seq<nat>)
    requires q != [] && Indices(q[1..], at)
    ensures Indices(q, Shifted(at)) && Pick(q, Shifted(at)) == Pick(q[1..], at)
    ensures forall i: nat :: i in Shifted(at) <==> i > 0 && i - 1 in at
    ensures Rising(at) ==> Rising(Shifted(at)) && Rising([0] + Shifted(at))
  {
    forall i: nat ensures i in Shifted(at) <==> i > 0 && i - 1 in at {
      if i > 0 && i - 1 in at {
        var k :| 0 <= k < |at| && at[k] == i - 1;
        assert Shifted(at)[k] == i;
      }
    }
  }

  lemma PickFirst<T>(q: seq<T>, at: seq<nat>)
    requires q != [] && Indices(q, at)
    ensures Indices(q, [0] + at) && Pick(q, [0] + at) == [q[0]] + Pick(q, at)
  {
  }

  /** A flush keeps, in order, exactly the payloads it did not try and those that got another reply than a success. */
  lemma {:induction false} FlushKeepsFailures<T>(q: seq<T>, replies: seq<Reply>) returns (kept: seq<nat>)
    requires FlushReplies(|q|, replies)
    ensures Indices(q, kept) && Rising(kept) && Remaining(q, replies) == Pick(q, kept)
    ensures forall i: nat :: i in kept <==> i < |q| && (i >= |replies| || replies[i] != Ok)
  {
    if q == [] || replies == [] || RateLimited(replies[0]) {
      kept := AllKept(q);
    } else {
      var rest := FlushKeepsFailures(q[1..], replies[1..]);
      ShiftedPicks(q, rest);
      PickFirst(q, Shifted(rest));
      kept := if replies[0] == Ok then Shifted(rest) else [0] + Shifted(rest);
    }
  }

  lemma AllKept<T>(q: seq<T>) returns (kept: seq<nat>)
    ensures Indices(q, kept) && Rising(kept) && Pick(q, kept) == q && forall i: nat :: i in kept <==> i < |q|
  {
    kept := seq(|q|, i requires 0 <= i < |q| => i);
    forall i: nat | i < |q| ensures i in kept { assert kept[i] == i; }
  }

  // Whether the first reply was a success decides position 0, the others move up by one.
  lemma SuccessesMoveUp(replies: seq<Reply>, rest: seq<nat>, gone: seq<nat>)
    requires replies != [] && (forall i: nat :: i in rest <==> i < |replies| - 1 && replies[1..][i] == Ok)
    requires forall i: nat :: i in gone <==> (i == 0 && replies[0] == Ok) || (i > 0 && i - 1 in rest)
    ensures forall i: nat :: i in gone <==> i < |replies| && replies[i] == Ok
  {
    forall i: nat ensures i in gone <==> i < |replies| && replies[i] == Ok {
      if 0 < i < |replies| { assert replies[1..][i - 1] == replies[i]; }
    }
  }

  lemma NoneDelivered(n: nat, replies: seq<Reply>)
    requires FlushReplies(n, replies) && (n == 0 || replies == [] || RateLimited(replies[0]))
    ensures forall i: nat :: i < |replies| ==> replies[i] != Ok
  {
    assert |replies| <= 1;
  }

  /** And it gets through, in order, exactly those that got a success. */
  lemma {:induction false} FlushDelivers<T>(q: seq<T>, replies: seq<Reply>) returns (gone: seq<nat>)
    requires FlushReplies(|q|, replies)
    ensures Indices(q, gone) && Rising(gone) && Flushed(q, replies) == Pick(q, gone)
    ensures forall i: nat :: i in gone <==> i < |replies| && replies[i] == Ok
  {
    if q == [] || replies == [] || RateLimited(replies[0]) {
      gone := [];
      NoneDelivered(|q|, replies);
    } else {
      var rest := FlushDelivers(q[1..], replies[1..]);
      ShiftedPicks(q, rest);
      PickFirst(q, Shifted(rest));
      gone := if replies[0] == Ok then [0] + Shifted(rest) else Shifted(rest);
      SuccessesMoveUp(replies, rest, gone);
    }
  }

  /** A flush keeps a subsequence of the queue, in order. */
  lemma {:induction false} FlushKeepsOrder<T>(q: seq<T>, replies: seq<Reply>)
    ensures Subsequence(Remaining(q, replies), q)
  {
    if q == [] || replies == [] || RateLimited(replies[0]) {
      SubsequenceRefl(q);
    } else {
      FlushKeepsOrder(q[1..], replies[1..]);
      if replies[0].Ok? {
        assert q == [q[0]] + q[1..];
        SubsequenceLonger(Remaining(q[1..], replies[1..]), q[0], q[1..]);
      }
    }
  }

  /** What a flush keeps and what it gets through are together what was queued. */
  lemma {:induction false} FlushLosesNothing<T>(q: seq<T>, replies: seq<Reply>)
    ensures multiset(Remaining(q, replies)) + multiset(Flushed(q, replies)) == multiset(q)
  {
    if q != [] && replies != [] && !RateLimited(replies[0]) {
      FlushLosesNothing(q[1..], replies[1..]);
      assert q == [q[0]] + q[1..];
    }
  }

  /** After a 429 the payload it answered and everything behind it stay verbatim. */
  lemma {:induction false} RateLimitKeepsSuffix<T>(q: seq<T>, replies: seq<Reply>)
    requires FlushReplies(|q|, replies) && replies != [] && RateLimited(replies[|replies| - 1])
    ensures var k := |replies| - 1;
            k < |q| && Remaining(q, replies) == Kept(q[..k], replies[..k]) + q[k..]
  {
    var k := |replies| - 1;
    assert replies == replies[..k] + [replies[k]];
    RemainingAppend(q, replies[..k], [replies[k]]);
  }

  // ----------------------------------------------------------- whole histories

  // The file is not needed, or it works.
  predicate Sound(l: Ledger, op: Op) {
    op.saved || match op
                case Submit(replies, _) => AckPhase(replies).Done?
                case Flush(replies, _) => Flushed(l.queued, replies) == []
  }

  ghost predicate Balanced(l: Ledger) {
    && Rising(l.queued) && |l.queued| <= MAX_QUEUED
    && (forall n :: n in l.delivered || n in l.rejected || n in l.queued || n in l.evicted <==> 0 <= n < l.next)
    && l.delivered !! l.rejected !! l.evicted
    && (forall n :: n in l.queued ==> n !in l.delivered && n !in l.rejected && n !in l.evicted)
    && (forall e, n :: e in l.evicted && n in l.queued ==> e < n)
  }

  lemma {:induction false} FlushSplitsRising(q: seq<nat>, replies: seq<Reply>)
    requires Rising(q)
    ensures var r, f := Remaining(q, replies), Flushed(q, replies);
            && Rising(r) && |r| <= |q|
            && (forall n :: n in q <==> n in r || n in f)
            && (forall n :: n in r ==> n !in f)
  {
    if q != [] && replies != [] && !RateLimited(replies[0]) {
      RisingTail(q);
      FlushSplitsRising(q[1..], replies[1..]);
      RisingCons(q[0], Remaining(q[1..], replies[1..]));
    }
  }

  lemma RisingTail(q: seq<nat>)
    requires Rising(q) && q != []
    ensures Rising(q[1..]) && (forall n :: n in q[1..] ==> q[0] < n) && forall n :: n in q <==> n == q[0] || n in q[1..]
  {
    assert q == [q[0]] + q[1..];
  }

  lemma RisingCons(x: nat, r: seq<nat>)
    requires Rising(r) && forall n :: n in r ==> x < n
    ensures Rising([x] + r)
  {
    assert forall i :: 0 < i < |[x] + r| ==> ([x] + r)[i] in r;
  }

  lemma RisingSnoc(r: seq<nat>, x: nat)
    requires Rising(r) && forall n :: n in r ==> n < x
    ensures Rising(r + [x])
  {
    assert forall i :: 0 <= i < |r| ==> (r + [x])[i] in r;
  }

  lemma CappedRising(q: seq<nat>)
    requires Rising(q)
    ensures Rising(Capped(q)) && |Capped(q)| <= MAX_QUEUED
    ensures forall n :: n in Capped(q) ==> n in q
    ensures forall e, n :: e in q && e !in Capped(q) && n in Capped(q) ==> e < n
  {
    var k := |q| - |Capped(q)|;
    assert Capped(q) == q[k..];
    assert forall i :: k <= i < |q| ==> q[i] == Capped(q)[i - k];
    forall e, n | e in q && e !in Capped(q) && n in Capped(q) ensures e < n {
      var i :| 0 <= i < |q| && q[i] == e;
      assert i < k;
      var j :| 0 <= j < |q[k..]| && q[k..][j] == n;
      assert q[k + j] == n;
    }
  }

  // The ledger once c is queued and gone has been evicted, out of the queue and the new acknowledgement.
  lemma EvictingKeepsBalance(l: Ledger, c: seq<nat>, gone: set<nat>)
    requires Balanced(l) && Rising(c) && |c| <= MAX_QUEUED
    requires forall n :: n in c || n in gone <==> n in l.queued || n == l.next
    requires forall e, n :: e in gone && n in c ==> e < n
    ensures Balanced(l.(next := l.next + 1, queued := c, evicted := l.evicted + gone))
  {
  }

  // A new acknowledgement joins the queue and may push out the oldest.
  lemma QueueingKeepsBalance(l: Ledger)
    requires Balanced(l)
    ensures var q := l.queued + [l.next];
            Balanced(l.(next := l.next + 1, queued := Capped(q),
                        evicted := l.evicted + (Elements(q) - Elements(Capped(q)))))
  {
    var q := l.queued + [l.next];
    InSnoc(l.queued, l.next);
    RisingSnoc(l.queued, l.next);
    CappedRising(q);
    EvictingKeepsBalance(l, Capped(q), Elements(q) - Elements(Capped(q)));
  }

  lemma SubmitBalance(l: Ledger, replies: seq<Reply>, saved: bool)
    requires Balanced(l) && Possible(l, Submit(replies, saved))
    ensures Balanced(Perform(l, Submit(replies, saved))) <==> AckPhase(replies).Done? || saved
  {
    if AckPhase(replies) == Acking(ACK_ATTEMPTS) {
      if saved {
        QueueingKeepsBalance(l);
      } else {
        assert l.next !in l.delivered && l.next !in l.rejected && l.next !in l.queued && l.next !in l.evicted;
      }
    }
  }

  lemma SavedFlushKeepsBalance(l: Ledger, replies: seq<Reply>)
    requires Balanced(l)
    ensures Balanced(Perform(l, Flush(replies, true)))
  {
    FlushSplitsRising(l.queued, replies);
  }

  /** A flush whose queue cannot be written leaves what it delivered in the queue, to be sent again. */
  lemma UnsavedFlushResends(l: Ledger, replies: seq<Reply>)
    requires Balanced(l)
    ensures var l' := Perform(l, Flush(replies, false));
            && l'.queued == l.queued
            && (forall n :: n in Flushed(l.queued, replies) ==> n in l'.delivered && n in l'.queued)
            && (Balanced(l') <==> Flushed(l.queued, replies) == [])
  {
    FlushSplitsRising(l.queued, replies);
    var flushed := Flushed(l.queued, replies);
    if flushed == [] {
      assert Perform(l, Flush(replies, false)) == l;
    } else {
      assert flushed[0] in flushed;
    }
  }

  lemma PerformBalance(l: Ledger, op: Op)
    requires Balanced(l) && Possible(l, op)
    ensures Balanced(Perform(l, op)) <==> Sound(l, op)
  {
    match op
    case Submit(replies, saved) => SubmitBalance(l, replies, saved);
    case Flush(replies, saved) =>
      if saved { SavedFlushKeepsBalance(l, replies); } else { UnsavedFlushResends(l, replies); }
  }

  ghost predicate BalancedThroughout(l: Ledger, ops: seq<Op>)
    decreases |ops|
  {
    Balanced(l) && (ops == [] || BalancedThroughout(Perform(l, ops[0]), ops[1..]))
  }

  predicate AllSound(l: Ledger, ops: seq<Op>)
    decreases |ops|
  {
    ops == [] || (Sound(l, ops[0]) && AllSound(Perform(l, ops[0]), ops[1..]))
  }

  // Whatever storage does, the queue is in order and apart from what has been evicted.
  ghost predicate Ordered(l: Ledger) {
    && Rising(l.queued) && |l.queued| <= 2000
    && (forall n :: n in l.queued ==> n < l.next && n !in l.evicted) && forall n :: n in l.evicted ==> n < l.next
  }

  // An operation evicts only if it queues a submission, and then exactly what is beyond 2000.
  ghost predicate EvictsOverflow(l: Ledger, op: Op) {
    var queues := op.Submit? && op.saved && !AckPhase(op.replies).Done?;
    && l.evicted <= Perform(l, op).evicted
    && |Perform(l, op).evicted| == |l.evicted| + if queues then Max(0, |l.queued| + 1 - 2000) else 0
  }

  ghost predicate EvictsOverflowOnly(l: Ledger, ops: seq<Op>)
    decreases |ops|
  {
    ops == [] || (EvictsOverflow(l, ops[0]) && EvictsOverflowOnly(Perform(l, ops[0]), ops[1..]))
  }

  lemma {:induction false} RisingSize(q: seq<nat>)
    requires Rising(q)
    ensures |Elements(q)| == |q|
  {
    if q != [] {
      var front, last := q[..|q| - 1], q[|q| - 1];
      assert q == front + [last];
      RisingSize(front);
      assert last !in front;
      assert Elements(q) == Elements(front) + {last};
    }
  }

  lemma CutOff(q: seq<nat>)
    requires Rising(q)
    ensures |Elements(q) - Elements(Capped(q))| == Max(0, |q| - 2000)
    ensures forall n :: n in Elements(q) - Elements(Capped(q)) ==> n in q && n !in Capped(q)
  {
    CappedRising(q);
    RisingSize(q);
    RisingSize(Capped(q));
    assert Elements(Capped(q)) <= Elements(q);
  }

  lemma OrderedNext(l: Ledger, c: seq<nat>, gone: set<nat>)
    requires Ordered(l) && Rising(c) && |c| <= 2000
    requires forall n :: n in c ==> n in l.queued || n == l.next
    requires forall n :: n in gone ==> (n in l.queued || n == l.next) && n !in c
    ensures |l.evicted + gone| == |l.evicted| + |gone|
    ensures Ordered(l.(next := l.next + 1, queued := c, evicted := l.evicted + gone))
  {
    assert l.evicted !! gone;
  }

  lemma QueueingEvicts(l: Ledger)
    requires Ordered(l)
    ensures var q := l.queued + [l.next];
            var gone := Elements(q) - Elements(Capped(q));
            && |l.evicted + gone| == |l.evicted| + Max(0, |l.queued| + 1 - 2000)
            && Ordered(l.(next := l.next + 1, queued := Capped(q), evicted := l.evicted + gone))
  {
    var q := l.queued + [l.next];
    InSnoc(l.queued, l.next);
    RisingSnoc(l.queued, l.next);
    CappedRising(q);
    CutOff(q);
    OrderedNext(l, Capped(q), Elements(q) - Elements(Capped(q)));
  }

  lemma EvictsStep(l: Ledger, op: Op)
    requires Ordered(l) && Possible(l, op)
    ensures EvictsOverflow(l, op) && Ordered(Perform(l, op))
  {
    match op
    case Submit(replies, saved) => if saved && !AckPhase(replies).Done? { QueueingEvicts(l); }
    case Flush(replies, saved) => FlushSplitsRising(l.queued, replies);
  }

  /** Over every history, whatever storage does, nothing is evicted but the oldest of a queue that would exceed 2000. */
  lemma {:induction false} EvictionsAreOverflows(l: Ledger, ops: seq<Op>)
    requires Ordered(l) && AllPossible(l, ops)
    ensures EvictsOverflowOnly(l, ops)
    decreases |ops|
  {
    if ops != [] {
      EvictsStep(l, ops[0]);
      EvictionsAreOverflows(Perform(l, ops[0]), ops[1..]);
    }
  }

  /** Over every history of submissions and flushes each acknowledgement is at all times delivered, rejected,
      queued or evicted, exactly one of the four, and evictions take the oldest, if and only if the file failed
      no submission that had to be queued and no flush that got something through. In any case an operation evicts
      only what a queued submission pushes beyond 2000. */
  lemma {:induction false} AcksAreConserved(l: Ledger, ops: seq<Op>)
    requires Balanced(l) && AllPossible(l, ops)
    ensures BalancedThroughout(l, ops) <==> AllSound(l, ops)
    ensures EvictsOverflowOnly(l, ops)
    decreases |ops|
  {
    EvictionsAreOverflows(l, ops);
    if ops != [] {
      PerformBalance(l, ops[0]);
      if Sound(l, ops[0]) { AcksAreConserved(Perform(l, ops[0]), ops[1..]); }
    }
  }

  /** In particular it is so while storage works. */
  lemma {:induction false} WorkingStorageConserves(l: Ledger, ops: seq<Op>)
    requires Balanced(l) && AllPossible(l, ops) && forall i :: 0 <= i < |ops| ==> ops[i].saved
    ensures AllSound(l, ops) && Balanced(PerformAll(l, ops))
    decreases |ops|
  {
    if ops != [] {
      PerformBalance(l, ops[0]);
      WorkingStorageConserves(Perform(l, ops[0]), ops[1..]);
    }
  }

  lemma OpeningIsBalanced(n: nat)
    requires n <= MAX_QUEUED
    ensures Balanced(Opening(n))
  {
    forall k ensures k in Opening(n).queued <==> 0 <= k < n {
      if 0 <= k < n { assert Opening(n).queued[k] == k; }
    }
  }

  /** So it is with the store: its file holds what the books call queued, the books have balanced all along
      if and only if storage never failed when it mattered, and nothing was evicted but what went beyond 2000. */
  lemma StoreConserves(store: AckStore)
    requires store.Valid() && store.found <= MAX_QUEUED
    ensures store.Books().next == |store.submitted| && Indices(store.submitted, store.Books().queued)
    ensures store.queued == Pick(store.submitted, store.Books().queued)
    ensures EvictsOverflowOnly(Opening(store.found), store.history)
    ensures BalancedThroughout(Opening(store.found), store.history) <==> AllSound(Opening(store.found), store.history)
  {
    OpeningIsBalanced(store.found);
    AcksAreConserved(Opening(store.found), store.history);
  }
}
