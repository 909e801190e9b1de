/**
 The relay client: every request handler writes its response frames to one shared
 connection. A send that fails may or may not have put its frame on the wire; the
 handler stops there.
 */
module Relay {
  import opened Basics
  import opened GoStrings
  import opened Base64

  datatype Frame =
    | Start(id: string, status: int)
    | Chunk(id: string, chunkBase64: string)
    | End(id: string)
    | Error(id: string, message: string)
    | Control                     // hello, ping, pong: no request ID

  predicate Belongs(f: Frame, id: string) { !f.Control? && f.id == id }

  // ------------------------------------------------------------ one response

  datatype ReadError = Nothing | EOF | Broken(message: string)

  /** One call of Body.Read: the bytes it returned and its error. */
  datatype Piece = Piece(data: string, error: ReadError)

  /** What a handler answers. A refused request never starts a response; a pipeline stage is a
      response read in one piece that ends at once. */
  datatype Job = Refuse(message: string) | Respond(status: int, pieces: seq<Piece>)

  function StageJob(rawResponse: string): Job { Respond(200, [Piece(rawResponse, EOF)]) }

  ghost predicate BytesOnly(job: Job) {
    job.Respond? ==> forall r :: r in job.pieces ==> IsBytes(r.data)
  }

  function DataFrames(id: string, data: string): seq<Frame>
    requires IsBytes(data)
  {
    if data == "" then [] else [Chunk(id, Encode(data))]
  }

  // The frames behind the data of a piece.
  function PieceTail(id: string, p: Piece, rest: seq<Piece>): seq<Frame>
    requires forall r :: r in rest ==> IsBytes(r.data)
    decreases |rest|, 1
  {
    match p.error
    case Nothing => BodyFrames(id, rest)
    case EOF => [End(id)]
    case Broken(m) => [Error(id, m)]
  }

  // The frames of a body that no send failure cuts short. Reads that end without an error leave it open.
  function BodyFrames(id: string, pieces: seq<Piece>): seq<Frame>
    requires forall r :: r in pieces ==> IsBytes(r.data)
    decreases |pieces|, 0
  {
    if pieces == [] then [] else
    var r := pieces[0];
    DataFrames(id, r.data) + PieceTail(id, r, pieces[1..])
  }

  function Frames(id: string, job: Job): seq<Frame>
    requires BytesOnly(job)
  {
    match job
    case Refuse(m) => [Error(id, m)]
    case Respond(status, pieces) => [Start(id, status)] + BodyFrames(id, pieces)
  }

  // The bytes of the body up to its first error.
  function Body(pieces: seq<Piece>): string {
    if pieces == [] then "" else pieces[0].data + if pieces[0].error == Nothing then Body(pieces[1..]) else ""
  }

  predicate Ends(pieces: seq<Piece>) {
    pieces != [] && (pieces[0].error == EOF || (pieces[0].error == Nothing && Ends(pieces[1..])))
  }

  // ------------------------------------------------------------- the language

  // chunk* (end | error), possibly still open.
  predicate BodyLanguage(id: string, fs: seq<Frame>) {
    fs == [] || fs == [End(id)] || (fs[0].Error? && fs[0].id == id && |fs| == 1)
    || (fs[0].Chunk? && fs[0].id == id && BodyLanguage(id, fs[1..]))
  }

  // A prefix of: error | start chunk* (end | error).
  predicate Language(id: string, fs: seq<Frame>) {
    fs == [] || (fs[0].Error? && fs[0].id == id && |fs| == 1)
    || (fs[0].Start? && fs[0].id == id && BodyLanguage(id, fs[1..]))
  }

  // The decoded chunks, concatenated.
  function Received(fs: seq<Frame>): Decoded {
    if fs == [] then Bytes("")
    else if !fs[0].Chunk? then Received(fs[1..])
    else
      match (Decode(fs[0].chunkBase64), Received(fs[1..]))
      case (Bytes(a), Bytes(b)) => Bytes(a + b)
      case _ => Corrupt
  }

  lemma ReceivedChunk(id: string, data: string, chunk: string, tail: seq<Frame>)
    requires Decode(chunk) == Bytes(data) && Received(tail).Bytes?
    ensures Received([Chunk(id, chunk)] + tail) == Bytes(data + Received(tail).s)
  {
    assert ([Chunk(id, chunk)] + tail)[1..] == tail;
  }

  // Data in front adds itself to what is received.
  lemma ReceivedData(id: string, data: string, tail: seq<Frame>)
    requires IsBytes(data) && Received(tail).Bytes?
    ensures Received(DataFrames(id, data) + tail) == Bytes(data + Received(tail).s)
  {
    if data == "" {
      assert DataFrames(id, data) + tail == tail;
      assert data + Received(tail).s == Received(tail).s;
    } else {
      DecodeEncode(data);
      ReceivedChunk(id, data, Encode(data), tail);
    }
  }

  // Data in front of a legal tail.
  lemma DataThenTail(id: string, data: string, tail: seq<Frame>)
    requires IsBytes(data) && BodyLanguage(id, tail) && Received(tail).Bytes?
    ensures BodyLanguage(id, DataFrames(id, data) + tail)
    ensures Received(DataFrames(id, data) + tail) == Bytes(data + Received(tail).s)
    ensures End(id) in DataFrames(id, data) + tail <==> End(id) in tail
  {
    ReceivedData(id, data, tail);
    if data == "" {
      assert DataFrames(id, data) + tail == tail;
    } else {
      assert (DataFrames(id, data) + tail)[1..] == tail;
    }
  }

  lemma {:induction false} BodyFramesLegal(id: string, pieces: seq<Piece>)
    requires forall r :: r in pieces ==> IsBytes(r.data)
    ensures BodyLanguage(id, BodyFrames(id, pieces))
    ensures Received(BodyFrames(id, pieces)) == Bytes(Body(pieces))
    ensures End(id) in BodyFrames(id, pieces) <==> Ends(pieces)
  {
    if pieces != [] {
      if pieces[0].error == Nothing { BodyFramesLegal(id, pieces[1..]); }
      DataThenTail(id, pieces[0].data, PieceTail(id, pieces[0], pieces[1..]));
    }
  }

  lemma {:induction false} BodyPrefixLegal(id: string, fs: seq<Frame>, n: nat)
    requires BodyLanguage(id, fs) && n <= |fs|
    ensures BodyLanguage(id, fs[..n])
  {
    if n > 0 && |fs| > 1 {
      assert fs[..n][1..] == fs[1..][..n - 1];
      BodyPrefixLegal(id, fs[1..], n - 1);
    } else if n > 0 {
      assert fs[..n] == fs;
    }
  }

  // End is the last frame of a body.
  lemma {:induction false} EndIsLast(id: string, fs: seq<Frame>, i: nat)
    requires BodyLanguage(id, fs) && i < |fs| && fs[i] == End(id)
    ensures i == |fs| - 1
  {
    if i > 0 { EndIsLast(id, fs[1..], i - 1); }
  }

  /** Any prefix of a response is legal. */
  lemma PrefixIsLegal(id: string, job: Job, fs: seq<Frame>)
    requires BytesOnly(job) && fs <= Frames(id, job)
    ensures Language(id, fs)
  {
    if job.Respond? && fs != [] {
      var body := BodyFrames(id, job.pieces);
      BodyFramesLegal(id, job.pieces);
      BodyPrefixLegal(id, body, |fs| - 1);
      assert Frames(id, job)[1..] == body && fs[1..] == body[..|fs| - 1];
    }
  }

  lemma WholeBody(id: string, pieces: seq<Piece>, i: nat)
    requires forall r :: r in pieces ==> IsBytes(r.data)
    requires i < |BodyFrames(id, pieces)| && BodyFrames(id, pieces)[i] == End(id)
    ensures i == |BodyFrames(id, pieces)| - 1 && Ends(pieces) && Received(BodyFrames(id, pieces)) == Bytes(Body(pieces))
  {
    BodyFramesLegal(id, pieces);
    EndIsLast(id, BodyFrames(id, pieces), i);
  }

  /** A prefix that holds `end` is the whole response: the body was read to its end and the chunks
      decode to it. */
  lemma EndMeansWhole(id: string, job: Job, fs: seq<Frame>)
    requires BytesOnly(job) && fs <= Frames(id, job) && End(id) in fs
    ensures job.Respond? && Ends(job.pieces) && fs == Frames(id, job) && Received(fs) == Bytes(Body(job.pieces))
  {
    var i :| 0 <= i < |fs| && fs[i] == End(id);
    var all := Frames(id, job);
    assert all[i] == End(id);
    assert job.Respond? && i > 0;
    var body := BodyFrames(id, job.pieces);
    WholeBody(id, job.pieces, i - 1);
    assert all == [Start(id, job.status)] + body;
    assert fs == all && fs[1..] == body;
  }

  // The bytes of some pieces.
  function Data(pieces: seq<Piece>): string {
    if pieces == [] then "" else Data(pieces[..|pieces| - 1]) + pieces[|pieces| - 1].data
  }

  lemma {:induction false} DataCons(p: Piece, rest: seq<Piece>)
    ensures Data([p] + rest) == p.data + Data(rest)
  {
    if rest == [] {
      assert [p][..0] == [];
    } else {
      var n := |rest| - 1;
      assert ([p] + rest)[..n + 1] == [p] + rest[..n];
      DataCons(p, rest[..n]);
    }
  }

  // The first piece with an error is k, or there is none.
  ghost predicate FirstError(pieces: seq<Piece>, k: nat) {
    k <= |pieces| && (forall j :: 0 <= j < k ==> pieces[j].error == Nothing)
    && (k < |pieces| ==> pieces[k].error != Nothing)
  }

  // The frame a body ends in, once it ends.
  ghost predicate Closes(id: string, e: ReadError, f: Frame) {
    match e
    case Nothing => false
    case EOF => f == End(id)
    case Broken(m) => f == Error(id, m)
  }

  // The frames of a body whose first error is k.
  ghost predicate BodyMeans(id: string, pieces: seq<Piece>, k: nat, fs: seq<Frame>)
    requires k <= |pieces|
  {
    && Received(fs) == Bytes(Data(pieces[..Min(k + 1, |pieces|)]))
    && (forall i :: 0 <= i < |fs| - 1 ==> fs[i].Chunk?)
    && if k < |pieces| then fs != [] && Closes(id, pieces[k].error, fs[|fs| - 1])
       else forall i :: 0 <= i < |fs| ==> fs[i].Chunk?
  }

  lemma DataThenBody(id: string, p: Piece, rest: seq<Piece>, k: nat, tail: seq<Frame>)
    requires IsBytes(p.data) && k <= |rest| && BodyMeans(id, rest, k, tail)
    ensures BodyMeans(id, [p] + rest, k + 1, DataFrames(id, p.data) + tail)
  {
    DataOfFirst(p, rest, Min(k + 1, |rest|));
    ReceivedData(id, p.data, tail);
    PrefixedMeans(id, p, rest, k, DataFrames(id, p.data), tail);
  }

  lemma PrefixedMeans(id: string, p: Piece, rest: seq<Piece>, k: nat, front: seq<Frame>, tail: seq<Frame>)
    requires k <= |rest| && BodyMeans(id, rest, k, tail) && |front| <= 1 && forall f :: f in front ==> f.Chunk?
    requires Received(front + tail) == Bytes(Data(([p] + rest)[..Min(k + 1, |rest|) + 1]))
    ensures BodyMeans(id, [p] + rest, k + 1, front + tail)
  {
    ChunkInFront(front, tail);
    if k < |rest| { assert ([p] + rest)[k + 1] == rest[k]; }
  }

  lemma DataOfFirst(p: Piece, rest: seq<Piece>, m: nat)
    requires m <= |rest|
    ensures Data(([p] + rest)[..m + 1]) == p.data + Data(rest[..m])
  {
    assert ([p] + rest)[..m + 1] == [p] + rest[..m];
    DataCons(p, rest[..m]);
  }

  // At most one chunk in front changes neither the chunks nor the end of what follows.
  lemma ChunkInFront(front: seq<Frame>, tail: seq<Frame>)
    requires |front| <= 1 && forall f :: f in front ==> f.Chunk?
    ensures var fs := front + tail;
            && ((forall i :: 0 <= i < |tail| ==> tail[i].Chunk?) ==> forall i :: 0 <= i < |fs| ==> fs[i].Chunk?)
            && (tail != [] && (forall i :: 0 <= i < |tail| - 1 ==> tail[i].Chunk?) ==>
                  fs[|fs| - 1] == tail[|tail| - 1] && forall i :: 0 <= i < |fs| - 1 ==> fs[i].Chunk?)
  {
  }

  lemma DataThenEnd(id: string, p: Piece, rest: seq<Piece>)
    requires IsBytes(p.data) && p.error != Nothing && forall r :: r in rest ==> IsBytes(r.data)
    ensures BodyMeans(id, [p] + rest, 0, DataFrames(id, p.data) + PieceTail(id, p, rest))
  {
    var tail := PieceTail(id, p, rest);
    assert |tail| == 1 && Received(tail[1..]) == Bytes("");
    ReceivedData(id, p.data, tail);
    assert ([p] + rest)[..1] == [p] + [];
    DataCons(p, []);
  }

  lemma {:induction false} BodyFramesMean(id: string, pieces: seq<Piece>, k: nat)
    requires FirstError(pieces, k) && forall r :: r in pieces ==> IsBytes(r.data)
    ensures BodyMeans(id, pieces, k, BodyFrames(id, pieces))
    decreases |pieces|
  {
    if pieces == [] {
      assert pieces[..0] == [];
    } else {
      var p, rest := pieces[0], pieces[1..];
      assert pieces == [p] + rest;
      if k == 0 {
        DataThenEnd(id, p, rest);
      } else {
        BodyFramesMean(id, rest, k - 1);
        DataThenBody(id, p, rest, k - 1, BodyFrames(id, rest));
      }
    }
  }

  // What the frames of a job are, said without the functions that compute them.
  ghost predicate Answers(id: string, job: Job, fs: seq<Frame>) {
    match job
    case Refuse(m) => fs == [Error(id, m)]
    case Respond(status, pieces) =>
      && fs != [] && fs[0] == Start(id, status)
      && forall k: nat :: FirstError(pieces, k) ==> BodyMeans(id, pieces, k, fs[1..])
  }

  /**
   A refusal is one error frame with its message. A response starts with the upstream's status; then come chunks that
   decode to the bytes read up to the first error, and the frame for that error, `end` or the error's message.
   */
  lemma FramesAnswer(id: string, job: Job)
    requires BytesOnly(job)
    ensures Answers(id, job, Frames(id, job))
  {
    if job.Respond? {
      assert Frames(id, job)[1..] == BodyFrames(id, job.pieces);
      forall k: nat | FirstError(job.pieces, k) ensures BodyMeans(id, job.pieces, k, Frames(id, job)[1..]) {
        BodyFramesMean(id, job.pieces, k);
      }
    }
  }

  // What a frame of a job can start with.
  ghost predicate Opening(id: string, job: Job, f: Frame) {
    f == match job
         case Refuse(m) => Error(id, m)
         case Respond(status, _) => Start(id, status)
  }

  // --------------------------------------------------------------- a handler

  class Connection {
    var wire: seq<Frame>

    constructor ()
      ensures wire == []
    {
      wire := [];
    }

    method Send(f: Frame) returns (ok: bool)
      modifies this
      ensures ok ==> wire == old(wire) + [f]
      ensures !ok ==> wire == old(wire) || wire == old(wire) + [f]
    {
      var written: bool := *;
      ok := *;
      if written || ok { wire := wire + [f]; }
    }
  }

  // The wire holds what it held before and then the first n frames of a response.
  ghost predicate OnWire(before: seq<Frame>, all: seq<Frame>, n: nat, wire: seq<Frame>) {
    n <= |all| && wire == before + all[..n]
  }

  // Sends frame n of a response; the frame may reach the wire although the send fails.
  method SendNext(conn: Connection, f: Frame, ghost before: seq<Frame>, ghost all: seq<Frame>, ghost n: nat)
      returns (ok: bool, ghost m: nat)
    requires OnWire(before, all, n, conn.wire) && n < |all| && all[n] == f
    modifies conn
    ensures n <= m <= n + 1 && (ok ==> m == n + 1) && OnWire(before, all, m, conn.wire)
  {
    assert all[..n + 1] == all[..n] + [f];
    ok := conn.Send(f);
    m := if conn.wire == before + all[..n] then n else n + 1;
    if ok { assert conn.wire == (before + all[..n]) + [f]; m := n + 1; }
  }

  // The read loop: frames n and up are those of the pieces.
  method SendBody(conn: Connection, id: string, pieces: seq<Piece>, ghost before: seq<Frame>, ghost all: seq<Frame>,
                  ghost start: nat)
      returns (sent: bool, ghost n: nat)
    requires forall p :: p in pieces ==> IsBytes(p.data)
    requires OnWire(before, all, start, conn.wire) && all[start..] == BodyFrames(id, pieces)
    modifies conn
    ensures OnWire(before, all, n, conn.wire) && (sent ==> n == |all|)
  {
    n, sent := start, true;
    var i := 0;
    while i < |pieces|
      invariant 0 <= i <= |pieces| && sent
      invariant OnWire(before, all, n, conn.wire) && all[n..] == BodyFrames(id, pieces[i..])
    {
      var p := pieces[i];
      assert p in pieces && pieces[i..][0] == p && pieces[i..][1..] == pieces[i + 1..];
      ghost var tail := PieceTail(id, p, pieces[i + 1..]);
      assert all[n..] == DataFrames(id, p.data) + tail;
      if |p.data| > 0 {
        HeadAndTail(all, n, Chunk(id, Encode(p.data)), tail);
        sent, n := SendNext(conn, Chunk(id, Encode(p.data)), before, all, n);
        if !sent { return; }
      }
      assert all[n..] == tail;
      if p.error != Nothing {
        var last := if p.error == EOF then End(id) else Error(id, p.error.message);
        assert tail == [last] + [];
        HeadAndTail(all, n, last, []);
        sent, n := SendNext(conn, last, before, all, n);
        return;
      }
      i := i + 1;
    }
  }

  /** handleProxyRequest and handlePipelineStageRequest alone on the connection: a prefix of the
      response, all of it when no send fails. A blank request ID is dropped. */
  method Handle(conn: Connection, id: string, job: Job) returns (sent: bool)
    requires BytesOnly(job)
    modifies conn
    ensures Blank(id) ==> conn.wire == old(conn.wire)
    ensures !Blank(id) ==> exists n: nat :: OnWire(old(conn.wire), Frames(id, job), n, conn.wire)
    ensures !Blank(id) && sent ==> conn.wire == old(conn.wire) + Frames(id, job)
    ensures old(conn.wire) <= conn.wire
    ensures |conn.wire| > |old(conn.wire)| ==> Opening(id, job, conn.wire[|old(conn.wire)|])
    ensures !Blank(id) && sent ==> Answers(id, job, conn.wire[|old(conn.wire)|..])
  {
    FramesAnswer(id, job);
    ghost var before, all, n := conn.wire, Frames(id, job), 0;
    if TrimSpace(id) == "" { return true; }
    assert before + all[..0] == before;
    match job
    case Refuse(message) =>
      sent, n := SendNext(conn, Error(id, message), before, all, 0);
    case Respond(status, pieces) =>
      sent, n := SendNext(conn, Start(id, status), before, all, 0);
      if sent {
        assert all[1..] == BodyFrames(id, pieces);
        sent, n := SendBody(conn, id, pieces, before, all, 1);
      }
    assert all[..|all|] == all;
  }

  // The three frames of a stage response are those of the general job.
  lemma StageFrames(id: string, raw: string)
    requires IsBytes(raw)
    ensures BytesOnly(StageJob(raw))
    ensures Frames(id, StageJob(raw)) == [Start(id, 200)] + DataFrames(id, raw) + [End(id)]
    ensures Received(Frames(id, StageJob(raw))) == Bytes(raw)
  {
    OnePiece(id, raw);
    var body := DataFrames(id, raw) + [End(id)];
    assert Frames(id, StageJob(raw)) == [Start(id, 200)] + body;
    ReceivedEnd(id);
    ReceivedData(id, raw, [End(id)]);
    assert ([Start(id, 200)] + body)[1..] == body;
  }

  lemma OnePiece(id: string, raw: string)
    requires IsBytes(raw)
    ensures BodyFrames(id, [Piece(raw, EOF)]) == DataFrames(id, raw) + [End(id)]
  {
    var pieces := [Piece(raw, EOF)];
    assert PieceTail(id, pieces[0], pieces[1..]) == [End(id)];
  }

  lemma ReceivedEnd(id: string)
    ensures Received([End(id)]) == Bytes("")
  {
    assert [End(id)][1..] == [];
  }

  /** The sends of handlePipelineStageRequest for a stage that succeeded: a prefix of its job's frames, or all. */
  method HandleStage(conn: Connection, id: string, raw: string) returns (sent: bool)
    requires IsBytes(raw)
    modifies conn
    ensures BytesOnly(StageJob(raw))
    ensures Blank(id) ==> conn.wire == old(conn.wire)
    ensures !Blank(id) ==> exists n: nat :: OnWire(old(conn.wire), Frames(id, StageJob(raw)), n, conn.wire)
    ensures !Blank(id) && sent ==> conn.wire == old(conn.wire) + Frames(id, StageJob(raw))
  {
    StageFrames(id, raw);
    if TrimSpace(id) == "" { return true; }
    ghost var before, all, n := conn.wire, Frames(id, StageJob(raw)), 0;
    assert before + all[..0] == before;
    sent, n := SendNext(conn, Start(id, 200), before, all, 0);
    if !sent { return; }
    if |raw| > 0 {
      sent, n := SendNext(conn, Chunk(id, Encode(raw)), before, all, n);
      if !sent { return; }
    }
    sent, n := SendNext(conn, End(id), before, all, n);
    assert all[..|all|] == all;
  }

  // ------------------------------------------------------ concurrent handlers

  /** A handler among others: its job and how far it got. `fate` of a send: the frame is on the wire
      or not, and the handler goes on only if the send succeeded. */
  datatype Handler = Handler(job: Job, next: nat, stopped: bool)

  datatype Fate = Sent | FailedWritten | FailedLost

  datatype State = State(handlers: map<string, Handler>, wire: seq<Frame>)

  datatype Event =
    | Arrive(id: string, job: Job)     // a request with an ID of its own starts a handler
    | Step(id: string, fate: Fate)     // that handler sends its next frame
    | Other                            // the connection's own frames

  ghost predicate Enabled(s: State, e: Event) {
    match e
    case Arrive(id, job) => id !in s.handlers && !Blank(id) && BytesOnly(job)
    case Step(id, _) =>
      && id in s.handlers && !s.handlers[id].stopped && BytesOnly(s.handlers[id].job)
      && s.handlers[id].next < |Frames(id, s.handlers[id].job)|
    case Other => true
  }

  ghost function Perform(s: State, e: Event): State
    requires Enabled(s, e)
  {
    match e
    case Arrive(id, job) => s.(handlers := s.handlers[id := Handler(job, 0, false)])
    case Step(id, fate) =>
      var h := s.handlers[id];
      var f := Frames(id, h.job)[h.next];
      var next := if fate == FailedLost then h.next else h.next + 1;
      State(s.handlers[id := h.(next := next, stopped := fate != Sent)],
            if fate == FailedLost then s.wire else s.wire + [f])
    case Other => s.(wire := s.wire + [Control])
  }

  ghost predicate Possible(s: State, es: seq<Event>)
    decreases |es|
  {
    es == [] || (Enabled(s, es[0]) && Possible(Perform(s, es[0]), es[1..]))
  }

  ghost function Run(s: State, es: seq<Event>): State
    requires Possible(s, es)
    decreases |es|
  {
    if es == [] then s else Run(Perform(s, es[0]), es[1..])
  }

  // The frames of one request, in wire order.
  function Project(wire: seq<Frame>, id: string): seq<Frame> {
    if wire == [] then [] else
    var f := wire[|wire| - 1];
    Project(wire[..|wire| - 1], id) + if Belongs(f, id) then [f] else []
  }

  ghost predicate Holds(s: State, id: string) {
    if id in s.handlers
    then BytesOnly(s.handlers[id].job)
         && OnWire([], Frames(id, s.handlers[id].job), s.handlers[id].next, Project(s.wire, id))
    else Project(s.wire, id) == []
  }

  ghost predicate Inv(s: State) { forall id :: Holds(s, id) }

  lemma {:induction false} FramesBelong(id: string, pieces: seq<Piece>)
    requires forall r :: r in pieces ==> IsBytes(r.data)
    ensures forall f :: f in BodyFrames(id, pieces) ==> Belongs(f, id)
  {
    if pieces != [] && pieces[0].error == Nothing { FramesBelong(id, pieces[1..]); }
  }

  lemma ProjectSnoc(wire: seq<Frame>, f: Frame, id: string)
    ensures Project(wire + [f], id) == Project(wire, id) + if Belongs(f, id) then [f] else []
  {
    assert (wire + [f])[..|wire|] == wire;
  }

  lemma NextFrameBelongs(id: string, job: Job, n: nat)
    requires BytesOnly(job) && n < |Frames(id, job)|
    ensures Belongs(Frames(id, job)[n], id)
  {
    if job.Respond? { FramesBelong(id, job.pieces); }
    assert Frames(id, job)[n] in Frames(id, job);
  }

  lemma SenderHolds(s: State, id: string, fate: Fate)
    requires Holds(s, id) && Enabled(s, Step(id, fate))
    ensures Holds(Perform(s, Step(id, fate)), id)
  {
    var h := s.handlers[id];
    var all := Frames(id, h.job);
    NextFrameBelongs(id, h.job, h.next);
    ProjectSnoc(s.wire, all[h.next], id);
    assert all[..h.next + 1] == all[..h.next] + [all[h.next]];
  }

  lemma OthersHold(s: State, sender: string, fate: Fate, id: string)
    requires Holds(s, id) && Enabled(s, Step(sender, fate)) && id != sender
    ensures Holds(Perform(s, Step(sender, fate)), id)
  {
    var h := s.handlers[sender];
    NextFrameBelongs(sender, h.job, h.next);
    ProjectSnoc(s.wire, Frames(sender, h.job)[h.next], id);
  }

  lemma PerformKeepsInv(s: State, e: Event)
    requires Inv(s) && Enabled(s, e)
    ensures Inv(Perform(s, e))
  {
    forall id ensures Holds(Perform(s, e), id) {
      assert Holds(s, id);
      match e
      case Arrive(other, job) => if id == other { assert Frames(id, job)[..0] == []; }
      case Step(sender, fate) =>
        if id == sender { SenderHolds(s, id, fate); } else { OthersHold(s, sender, fate, id); }
      case Other => ProjectSnoc(s.wire, Control, id);
    }
  }

  lemma {:induction false} RunKeepsInv(s: State, es: seq<Event>)
    requires Inv(s) && Possible(s, es)
    ensures Inv(Run(s, es))
    decreases |es|
  {
    if es != [] {
      PerformKeepsInv(s, es[0]);
      RunKeepsInv(Perform(s, es[0]), es[1..]);
    }
  }

  /** For every interleaving of handlers and every send failure, the wire seen by one request is a
      prefix of `error | start chunk* (end | error)`; with `end` the chunks are the whole body. */
  lemma EveryResponseIsLegal(es: seq<Event>, id: string)
    requires Possible(State(map[], []), es)
    ensures var s := Run(State(map[], []), es);
            var fs := Project(s.wire, id);
            && Language(id, fs)
            && (fs != [] ==> id in s.handlers && Opening(id, s.handlers[id].job, fs[0]))
            && (End(id) in fs ==> id in s.handlers && s.handlers[id].job.Respond? && Ends(s.handlers[id].job.pieces)
                                  && Received(fs) == Bytes(Body(s.handlers[id].job.pieces)))
  {
    var s := Run(State(map[], []), es);
    RunKeepsInv(State(map[], []), es);
    var fs := Project(s.wire, id);
    assert Holds(s, id);
    if id in s.handlers {
      assert fs == Frames(id, s.handlers[id].job)[..s.handlers[id].next];
      PrefixIsLegal(id, s.handlers[id].job, fs);
      FramesAnswer(id, s.handlers[id].job);
      if End(id) in fs { EndMeansWhole(id, s.handlers[id].job, fs); }
    }
  }
}
