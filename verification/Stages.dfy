/**
 Pipeline stages: a compress stage hands its context, encrypted and signed for, to an infer stage. JSON text,
 hashing, encryption and signatures are abstract functions; what is assumed of them is the predicate Laws.
 */
module Stages {
  import opened Basics
  import opened GoStrings
  import opened Integrity
  import opened Sorting

  // --------------------------------------------------------------- JSON

  datatype Json =
    | Null
    | Bool(b: bool)
    | Num(decimal: string)            // a float64, as its shortest decimal
    | Str(s: string)
    | Arr(items: seq<Json>)
    | Obj(fields: map<string, Json>)

  type Fields = map<string, Json>

  function AsString(f: Fields, key: string): string {
    if key in f && f[key].Str? then f[key].s else ""
  }

  predicate HasText(f: Fields, key: string) { !Blank(AsString(f, key)) }

  predicate HasArray(f: Fields, key: string) { key in f && f[key].Arr? }

  method KeysOf(f: Fields) returns (keys: seq<string>)
    ensures forall k :: k in keys <==> k in f
  {
    keys := [];
    var rest := f.Keys;
    while rest != {}
      invariant rest <= f.Keys && forall k :: k in keys <==> k in f.Keys - rest
      decreases rest
    {
      var k :| k in rest;
      keys, rest := keys + [k], rest - {k};
    }
  }

  /** Rebuilding every object in key order changes no value: the canonical form is the value itself. */
  method NormalizeForCanonical(value: Json) returns (next: Json)
    ensures next == value
    decreases value
  {
    match value
    case Obj(fields) =>
      var keys := KeysOf(fields);
      SortElements(keys);
      keys := Sort(keys);
      var built: Fields := map[];
      for i := 0 to |keys|
        invariant forall k :: k in built <==> k in keys[..i]
        invariant forall k :: k in built ==> k in fields && built[k] == fields[k]
      {
        var item := NormalizeForCanonical(fields[keys[i]]);
        assert keys[..i + 1] == keys[..i] + [keys[i]];
        built := built[keys[i] := item];
      }
      assert keys[..|keys|] == keys;
      assert built == fields;
      next := Obj(built);
    case Arr(items) =>
      var built: seq<Json> := [];
      for i := 0 to |items|
        invariant built == items[..i]
      {
        var item := NormalizeForCanonical(items[i]);
        built := built + [item];
      }
      next := Arr(built);
    case Null => next := value;
    case Bool(_) => next := value;
    case Num(_) => next := value;
    case Str(_) => next := value;
  }

  // ------------------------------------------------- the context contract

  predicate Artifact(j: Json) {
    j.Obj?
    && TrimSpace(AsString(j.fields, "kind")) in {"code", "url", "file", "data"}
    && HasText(j.fields, "reference") && HasText(j.fields, "description")
  }

  predicate PendingCall(j: Json) { j.Obj? && HasText(j.fields, "name") && HasText(j.fields, "status") }

  predicate ToolState(j: Json) {
    j.Obj? && HasArray(j.fields, "activeTools") && HasArray(j.fields, "pendingCalls")
    && forall c :: c in j.fields["pendingCalls"].items ==> PendingCall(c)
  }

  predicate HasArrays(f: Fields) {
    && HasArray(f, "preservedFacts") && HasArray(f, "decisions")
    && HasArray(f, "referencedArtifacts") && HasArray(f, "unresolvedQuestions")
    && (forall a :: a in f["referencedArtifacts"].items ==> Artifact(a))
  }

  /** A compressed context both stages accept. */
  predicate ValidContext(f: Fields) {
    && HasText(f, "contractVersion") && AsString(f, "contractVersion") == "1"
    && HasText(f, "summary") && HasText(f, "latestUserIntent")
    && HasArrays(f)
    && ("toolState" in f && !f["toolState"].Null? ==> ToolState(f["toolState"]))
  }

  // The text under a key, trimmed; nothing if there is none.
  ghost function TextAt(j: Json, key: string): string {
    if j.Obj? && key in j.fields && j.fields[key].Str? then TrimSpace(j.fields[key].s) else ""
  }

  ghost predicate ListAt(j: Json, key: string) { j.Obj? && key in j.fields && j.fields[key].Arr? }

  /** The contract item by item. */
  lemma ValidContextMeans(f: Fields)
    ensures ValidContext(f) <==>
              && "contractVersion" in f && f["contractVersion"] == Str("1")
              && TextAt(Obj(f), "summary") != "" && TextAt(Obj(f), "latestUserIntent") != ""
              && ListAt(Obj(f), "preservedFacts") && ListAt(Obj(f), "decisions")
              && ListAt(Obj(f), "unresolvedQuestions") && ListAt(Obj(f), "referencedArtifacts")
              && (forall a :: a in f["referencedArtifacts"].items ==>
                    && TextAt(a, "kind") in {"code", "url", "file", "data"}
                    && TextAt(a, "reference") != "" && TextAt(a, "description") != "")
              && ("toolState" in f && f["toolState"] != Null ==>
                    && ListAt(f["toolState"], "activeTools") && ListAt(f["toolState"], "pendingCalls")
                    && forall c :: c in f["toolState"].fields["pendingCalls"].items ==>
                         TextAt(c, "name") != "" && TextAt(c, "status") != "")
  {
    assert Trimmed("1") && TrimSpace("1") == "1" && TrimSpace("") == "";
    forall a ensures Artifact(a) <==> TextAt(a, "kind") in {"code", "url", "file", "data"}
                                      && TextAt(a, "reference") != "" && TextAt(a, "description") != ""
    {
      TextsAgree(a);
    }
    forall c ensures PendingCall(c) <==> TextAt(c, "name") != "" && TextAt(c, "status") != "" { TextsAgree(c); }
    TextsAgree(Obj(f));
  }

  lemma TextsAgree(j: Json)
    ensures j.Obj? ==> forall key :: TextAt(j, key) == TrimSpace(AsString(j.fields, key))
  {
    assert TrimSpace("") == "";
  }

  method AllArtifacts(items: seq<Json>) returns (ok: bool)
    ensures ok <==> forall a :: a in items ==> Artifact(a)
  {
    for i := 0 to |items|
      invariant forall a :: a in items[..i] ==> Artifact(a)
    {
      assert items[i] in items;
      if !items[i].Obj? { return false; }
      var entry := items[i].fields;
      var kind := TrimSpace(AsString(entry, "kind"));
      if kind != "code" && kind != "url" && kind != "file" && kind != "data" { return false; }
      if Blank(AsString(entry, "reference")) || Blank(AsString(entry, "description")) { return false; }
      assert items[..i + 1] == items[..i] + [items[i]];
    }
    assert items[..|items|] == items;
    return true;
  }

  method AllPending(items: seq<Json>) returns (ok: bool)
    ensures ok <==> forall c :: c in items ==> PendingCall(c)
  {
    for i := 0 to |items|
      invariant forall c :: c in items[..i] ==> PendingCall(c)
    {
      assert items[i] in items;
      if !items[i].Obj? { return false; }
      var entry := items[i].fields;
      if Blank(AsString(entry, "name")) || Blank(AsString(entry, "status")) { return false; }
      assert items[..i + 1] == items[..i] + [items[i]];
    }
    assert items[..|items|] == items;
    return true;
  }

  const TEXTS := ["contractVersion", "summary", "latestUserIntent"]
  const ARRAYS := ["preservedFacts", "decisions", "referencedArtifacts", "unresolvedQuestions"]

  method AllTexts(f: Fields) returns (ok: bool)
    ensures ok <==> (forall k :: k in TEXTS ==> HasText(f, k)) && AsString(f, "contractVersion") == "1"
  {
    for i := 0 to |TEXTS|
      invariant forall k :: k in TEXTS[..i] ==> HasText(f, k)
      invariant i > 0 ==> AsString(f, "contractVersion") == "1"
    {
      var key := TEXTS[i];
      if key !in f || !f[key].Str? || Blank(f[key].s) {
        assert !HasText(f, key);
        return false;
      }
      if key == "contractVersion" && f[key].s != "1" { return false; }
      assert TEXTS[..i + 1] == TEXTS[..i] + [key];
    }
    return true;
  }

  method AllArrays(f: Fields) returns (ok: bool)
    ensures ok <==> HasArrays(f)
  {
    for i := 0 to |ARRAYS|
      invariant forall j :: 0 <= j < i ==> HasArray(f, ARRAYS[j])
      invariant i > 2 ==> HasArray(f, ARRAYS[2]) && forall a :: a in f[ARRAYS[2]].items ==> Artifact(a)
    {
      var key := ARRAYS[i];
      if key !in f || !f[key].Arr? {
        assert !HasArray(f, ARRAYS[i]);
        return false;
      }
      if key == "referencedArtifacts" {
        var fine := AllArtifacts(f[key].items);
        if !fine { return false; }
      }
    }
    assert HasArray(f, ARRAYS[0]) && HasArray(f, ARRAYS[1]) && HasArray(f, ARRAYS[2]) && HasArray(f, ARRAYS[3]);
    return true;
  }

  /** The validator's scan finds a violation exactly in the contexts that are not valid. */
  method ValidateCompressedContext(f: Fields) returns (ok: bool)
    ensures ok <==> ValidContext(f)
  {
    var fine := AllTexts(f);
    if !fine { return false; }
    fine := AllArrays(f);
    if !fine { return false; }
    if "toolState" in f && !f["toolState"].Null? {
      if !f["toolState"].Obj? { return false; }
      var state := f["toolState"].fields;
      if "activeTools" !in state || !state["activeTools"].Arr? { return false; }
      if "pendingCalls" !in state || !state["pendingCalls"].Arr? { return false; }
      fine := AllPending(state["pendingCalls"].items);
      return fine;
    }
    return true;
  }

  // ----------------------------------------------------- what is assumed

  datatype Keys = Keys(encryptPrivate: string, encryptPublic: string, signPrivate: string, signPublic: string)

  datatype Sealed = Sealed(payload: string, nonce: string, ephemeralKey: string)

  // entropy stands for the ephemeral key and the nonce drawn at random.
  datatype World = World(
    marshal: Json -> string,
    unmarshal: string -> Option<Json>,
    hash: string -> string,
    encrypt: (string, string, string, nat) -> Option<Sealed>,     // plaintext, request ID, public key, entropy
    decrypt: (Sealed, string, string) -> Option<string>,          // request ID, private key
    sign: (string, string) -> string,                             // bytes, private key
    verify: (string, string, string) -> bool,                     // bytes, signature, public key
    estimate: Fields -> int)                                      // tokens in a context

  ghost predicate JsonLaw(w: World) { forall j :: w.unmarshal(w.marshal(j)) == Some(j) }

  ghost predicate EncryptLaw(w: World, k: Keys) {
    forall plain, id, entropy ::
      var s := w.encrypt(plain, id, k.encryptPublic, entropy);
      s.Some? ==> w.decrypt(s.value, id, k.encryptPrivate) == Some(plain)
  }

  ghost predicate SignLaw(w: World, k: Keys) {
    k.signPublic != "" && forall bytes :: w.verify(bytes, w.sign(bytes, k.signPrivate), k.signPublic)
  }

  // ------------------------------------------------------------- stages

  datatype Signed = Signed(record: Integrity, signature: string)

  datatype Envelope = Envelope(requestId: string, stageId: string, stageKind: string, cargo: Sealed,
                               nextKey: Option<string>, prior: Option<Signed>, priorKey: string)

  datatype Error =
    | KeysUnavailable | MissingStageKind | Undecryptable | InvalidJson | UnsupportedStage
    | MissingContinuation | RuntimeFailed | ContractViolation | EncryptionFailed
    | IntegrityMissing | IntegrityMismatch
    | Panic                                       // a write to a nil map

  datatype Result<+T> = Ok(value: T) | Err(error: Error)

  datatype Compressed = Compressed(cargo: Sealed, signed: Signed)

  // What else goes into an integrity record.
  datatype Moment = Moment(durationMs: int, timestamp: string, fingerprint: string, entropy: nat)

  function HashCanonical(w: World, f: Fields): string { w.hash(w.marshal(Obj(f))) }

  function TextOr(f: Fields, key: string, other: string): string {
    if !Blank(AsString(f, key)) then TrimSpace(AsString(f, key)) else other
  }

  function Resolve(f: Fields, key: string, default_: string): string {
    var inner := if "toolState" in f && f["toolState"].Obj? then f["toolState"].fields else map[];
    TextOr(f, key, TextOr(inner, key, default_))
  }

  function ModelOf(f: Fields): string { Resolve(f, "model", "local-model") }
  function RuntimeOf(f: Fields): string { Resolve(f, "runtime", DEFAULT_RUNTIME) }

  const DEFAULT_RUNTIME := "ollama"

  // The text given at the top or, failing that, in the tool state.
  ghost function Told(f: Fields, key: string): string {
    if TextAt(Obj(f), key) != "" then TextAt(Obj(f), key)
    else if "toolState" in f then TextAt(f["toolState"], key) else ""
  }

  /** Model and runtime of a request: what it is told, or the defaults. */
  lemma ModelAndRuntime(f: Fields)
    ensures ModelOf(f) == if Told(f, "model") == "" then "local-model" else Told(f, "model")
    ensures RuntimeOf(f) == if Told(f, "runtime") == "" then "ollama" else Told(f, "runtime")
  {
    TextsAgree(Obj(f));
    if "toolState" in f { TextsAgree(f["toolState"]); }
    assert TrimSpace("") == "";
    assert AsString(map[], "model") == "" && AsString(map[], "runtime") == "";
  }

  function BuildIntegrity(w: World, k: Keys, env: Envelope, modelId: string, runtimeId: string, inputHash: string,
                          outputHash: string, inputTokens: int, outputTokens: int, at: Moment): Signed {
    var r := Integrity(env.stageId, env.stageKind, "1", modelId, runtimeId, inputHash, outputHash,
                       inputTokens, outputTokens, at.durationMs, at.timestamp, at.fingerprint);
    Signed(r, w.sign(SerializeForSigning(r), k.signPrivate))
  }

  function TrimPrefix(s: string, prefix: string): string { if prefix <= s then s[|prefix|..] else s }

  function TrimSuffix(s: string, suffix: string): string {
    if |suffix| <= |s| && s[|s| - |suffix|..] == suffix then s[..|s| - |suffix|] else s
  }

  const FENCE := "```"

  // What a code fence encloses.
  function Inside(s: string): string { TrimSuffix(TrimPrefix(TrimPrefix(s, "```json"), FENCE), FENCE) }

  // The JSON text of a reply, out of its code fence.
  function Unfence(reply: string): string { TrimSpace(Inside(TrimSpace(reply))) }

  predicate EndsInFence(s: string) { |s| >= 3 && s[|s| - 3..] == FENCE }

  lemma PrefixOff(prefix: string, s: string)
    ensures TrimPrefix(prefix + s, prefix) == s
  {
  }

  lemma SuffixOff(s: string)
    ensures TrimSuffix(s + FENCE, FENCE) == s
  {
  }

  lemma NoPrefix(s: string)
    requires s != "" && s[0] != '`'
    ensures TrimPrefix(s, "```json") == s && TrimPrefix(s, FENCE) == s
  {
  }

  lemma InsideJson(t: string)
    requires t != "" && t[0] != '`'
    ensures Inside("```json" + t + FENCE) == t
  {
    assert "```json" + t + FENCE == "```json" + (t + FENCE);
    PrefixOff("```json", t + FENCE);
    assert (t + FENCE)[0] == t[0];
    NoPrefix(t + FENCE);
    SuffixOff(t);
  }

  lemma NotMarked(s: string)
    requires s != "" && s[0] != 'j'
    ensures TrimPrefix(FENCE + s, "```json") == FENCE + s
  {
    assert (FENCE + s)[3] == s[0] && "```json"[3] == 'j';
  }

  lemma InsidePlain(t: string)
    requires t != "" && t[0] !in {'`', 'j'}
    ensures Inside(FENCE + t + FENCE) == t
  {
    assert FENCE + t + FENCE == FENCE + (t + FENCE) && (t + FENCE)[0] == t[0];
    NotMarked(t + FENCE);
    PrefixOff(FENCE, t + FENCE);
    SuffixOff(t);
  }

  lemma FencedIsTrimmed(s: string)
    requires FENCE <= s
    ensures TrimSpace(s + FENCE) == s + FENCE
  {
    assert (s + FENCE)[0] == '`' && (s + FENCE)[|s| + 2] == '`';
  }

  /** A text comes out of its fence, marked as JSON or not, and a trimmed one with no fence is left alone. */
  lemma UnfenceMeans(t: string)
    requires t != "" && t[0] !in {'`', 'j'}
    ensures Unfence("```json" + t + FENCE) == Unfence(FENCE + t + FENCE) == TrimSpace(t)
    ensures Trimmed(t) && !EndsInFence(t) ==> Unfence(t) == t
  {
    FencedIsTrimmed("```json" + t);
    FencedIsTrimmed(FENCE + t);
    InsideJson(t);
    InsidePlain(t);
    NoPrefix(t);
  }

  const NO_TOOLS := Obj(map["activeTools" := Arr([]), "pendingCalls" := Arr([])])

  // A Go map value: reading a nil map finds nothing, writing to one panics.
  datatype GoMap = NilMap | Made(fields: Fields)

  function Entries(m: GoMap): Fields { if m.NilMap? then map[] else m.fields }

  function Read(m: GoMap, key: string): Json { if key in Entries(m) then Entries(m)[key] else Null }

  function Write(m: GoMap, key: string, value: Json): Result<GoMap> {
    if m.NilMap? then Err(Panic) else Ok(Made(m.fields[key := value]))
  }

  // json.Unmarshal into a map: the JSON null leaves it nil.
  function UnmarshalMap(w: World, text: string): Option<GoMap> {
    match w.unmarshal(text)
    case Some(Null) => Some(NilMap)
    case Some(Obj(fields)) => Some(Made(fields))
    case _ => None
  }

  // The default tool state.
  function WithToolState(m: GoMap): Result<GoMap> {
    if Read(m, "toolState").Null? then Write(m, "toolState", NO_TOOLS) else Ok(m)
  }

  // parseJSONBlock, and the default tool state.
  function Decoded(w: World, text: string): Result<GoMap> {
    match UnmarshalMap(w, text)
    case None => Err(ContractViolation)
    case Some(decoded) => WithToolState(decoded)
  }

  // The context in the runtime's reply.
  function Compress(w: World, reply: Option<string>): Result<GoMap> {
    if reply.None? then Err(RuntimeFailed)
    else if Blank(reply.value) then Err(ContractViolation)
    else Decoded(w, Unfence(reply.value))
  }

  // Encrypts a context for the next stage and signs for it.
  function Seal(w: World, k: Keys, env: Envelope, nextKey: string, f: Fields, modelId: string, runtimeId: string,
                inputHash: string, inputTokens: int, at: Moment): Result<Compressed> {
    var cargo := w.encrypt(w.marshal(Obj(f)), env.requestId, nextKey, at.entropy);
    if cargo.None? then Err(EncryptionFailed)
    else Ok(Compressed(cargo.value, BuildIntegrity(w, k, env, modelId, runtimeId, inputHash, HashCanonical(w, f),
                                                   inputTokens, w.estimate(f), at)))
  }

  // What the compress stage has made of the input when it succeeds, and the envelope parts it returns.
  function HandleCompress(w: World, k: Keys, env: Envelope, input: Fields, reply: Option<string>, at: Moment)
    : Result<(Fields, Compressed)>
  {
    if env.nextKey.None? then Err(MissingContinuation)
    else
      match Compress(w, reply)
      case Err(error) => Err(error)
      case Ok(compressed) =>
        var f := Entries(compressed);
        if !ValidContext(f) then Err(ContractViolation)
        else
          match Seal(w, k, env, env.nextKey.value, f, ModelOf(input), RuntimeOf(input), HashCanonical(w, input),
                     w.estimate(input), at)
          case Err(error) => Err(error)
          case Ok(sealed) => Ok((f, sealed))
  }

  // The gates of the infer stage, in order; Ok is the context it goes on to answer from.
  function InferGates(w: World, env: Envelope, input: Fields, inputHash: string): Result<Fields> {
    if !ValidContext(input) then Err(ContractViolation)
    else if env.prior.None? || env.priorKey == "" then Err(IntegrityMissing)
    else if env.prior.value.record.outputHash != inputHash then Err(IntegrityMismatch)
    else if !w.verify(SerializeForSigning(env.prior.value.record), env.prior.value.signature, env.priorKey) then
      Err(IntegrityMismatch)
    else Ok(input)
  }

  // What every stage request goes through first: the input and its hash.
  function Open(w: World, k: Keys, env: Envelope): Result<(Fields, string)> {
    if k.encryptPrivate == "" || k.signPrivate == "" then Err(KeysUnavailable)
    else if env.stageKind == "" then Err(MissingStageKind)
    else
      var plain := w.decrypt(env.cargo, env.requestId, k.encryptPrivate);
      if plain.None? then Err(Undecryptable)
      else
        match UnmarshalMap(w, plain.value)
        case None => Err(InvalidJson)
        case Some(parsed) => Ok((Entries(parsed), HashCanonical(w, Entries(parsed))))
  }

  // An infer request up to the call of the local runtime.
  function AcceptInfer(w: World, k: Keys, env: Envelope): Result<Fields> {
    var request := Open(w, k, env);
    if request.Err? then Err(request.error)
    else if env.stageKind != "infer" then Err(UnsupportedStage)
    else InferGates(w, env, request.value.0, request.value.1)
  }

  // ------------------------------------------- what the stages accept

  // The cargo decrypts to the JSON text of f; the JSON null is nothing at all.
  ghost predicate Opens(w: World, k: Keys, env: Envelope, f: Fields) {
    var plain := w.decrypt(env.cargo, env.requestId, k.encryptPrivate);
    plain.Some? && (w.unmarshal(plain.value) == Some(Obj(f)) || (w.unmarshal(plain.value) == Some(Null) && f == map[]))
  }

  // The prior record is about f, and its signature holds under the key that came with it.
  ghost predicate Vouched(w: World, env: Envelope, f: Fields)
    requires env.prior.Some?
  {
    && env.prior.value.record.outputHash == w.hash(w.marshal(Obj(f)))
    && w.verify(SerializeForSigning(env.prior.value.record), env.prior.value.signature, env.priorKey)
  }

  lemma OpenMeans(w: World, k: Keys, env: Envelope, f: Fields)
    ensures var request := Open(w, k, env);
            request.Ok? && request.value.0 == f
            <==> k.encryptPrivate != "" && k.signPrivate != "" && env.stageKind != "" && Opens(w, k, env, f)
    ensures var request := Open(w, k, env);
            request.Ok? ==> request.value.1 == w.hash(w.marshal(Obj(request.value.0)))
  {
    var plain := w.decrypt(env.cargo, env.requestId, k.encryptPrivate);
    if plain.Some? && w.unmarshal(plain.value).Some? {
      assert UnmarshalMap(w, plain.value).Some? ==>
               (Entries(UnmarshalMap(w, plain.value).value) == f <==> Opens(w, k, env, f));
    }
  }

  lemma GatesMean(w: World, env: Envelope, f: Fields, hash: string)
    requires hash == w.hash(w.marshal(Obj(f)))
    ensures var r := InferGates(w, env, f, hash);
            && (r.Ok? <==> ValidContext(f) && env.prior.Some? && env.priorKey != "" && Vouched(w, env, f))
            && (r.Ok? ==> r.value == f)
            && (r == Err(IntegrityMissing) <==> ValidContext(f) && (env.prior.None? || env.priorKey == ""))
            && (r == Err(IntegrityMismatch) <==>
                  ValidContext(f) && env.prior.Some? && env.priorKey != "" && !Vouched(w, env, f))
  {
  }

  /**
   An infer request is accepted with f exactly if the keys are there, the cargo opens to f, f keeps the contract, and
   the prior record names its hash under a signature that holds. An input that keeps the contract is turned away for
   want of a record or of its key, and for a hash or a signature that is wrong.
   */
  lemma InferAccepts(w: World, k: Keys, env: Envelope, f: Fields)
    ensures AcceptInfer(w, k, env) == Ok(f) <==>
              && k.encryptPrivate != "" && k.signPrivate != "" && env.stageKind == "infer" && Opens(w, k, env, f)
              && ValidContext(f) && env.prior.Some? && env.priorKey != "" && Vouched(w, env, f)
    ensures k.encryptPrivate != "" && k.signPrivate != "" && env.stageKind == "infer" && Opens(w, k, env, f)
            && ValidContext(f) ==>
              var r := AcceptInfer(w, k, env);
              && (r == Err(IntegrityMissing) <==> env.prior.None? || env.priorKey == "")
              && (r == Err(IntegrityMismatch) <==> env.prior.Some? && env.priorKey != "" && !Vouched(w, env, f))
  {
    OpenMeans(w, k, env, f);
    var request := Open(w, k, env);
    if request.Ok? { GatesMean(w, env, request.value.0, request.value.1); }
  }

  // What was read is an object, and f is what it stands for: without a tool state it gets an empty one.
  ghost predicate Completes(j: Option<Json>, f: Fields) {
    && j.Some? && j.value.Obj?
    && f == if "toolState" in j.value.fields && j.value.fields["toolState"] != Null then j.value.fields
            else j.value.fields["toolState" := Obj(map["activeTools" := Arr([]), "pendingCalls" := Arr([])])]
  }

  lemma CompressMeans(w: World, reply: Option<string>, f: Fields)
    ensures var c := Compress(w, reply);
            c.Ok? && Entries(c.value) == f <==>
              reply.Some? && TrimSpace(reply.value) != "" && Completes(w.unmarshal(Unfence(reply.value)), f)
  {
    if reply.Some? && !Blank(reply.value) { DecodedMeans(w, Unfence(reply.value), f); }
  }

  lemma DecodedMeans(w: World, text: string, f: Fields)
    ensures var m := Decoded(w, text);
            m.Ok? && Entries(m.value) == f <==> Completes(w.unmarshal(text), f)
  {
    var m := UnmarshalMap(w, text);
    if m.Some? && m.value.Made? { assert w.unmarshal(text) == Some(Obj(m.value.fields)); }
  }

  lemma SealMeans(w: World, k: Keys, env: Envelope, nextKey: string, f: Fields, input: Fields, at: Moment,
                  out: Compressed)
    ensures Seal(w, k, env, nextKey, f, ModelOf(input), RuntimeOf(input), HashCanonical(w, input), w.estimate(input),
                 at) == Ok(out) <==>
              && w.encrypt(w.marshal(Obj(f)), env.requestId, nextKey, at.entropy) == Some(out.cargo)
              && out.signed.record ==
                   Integrity(env.stageId, env.stageKind, "1", ModelOf(input), RuntimeOf(input),
                             w.hash(w.marshal(Obj(input))), w.hash(w.marshal(Obj(f))), w.estimate(input), w.estimate(f),
                             at.durationMs, at.timestamp, at.fingerprint)
              && out.signed.signature == w.sign(SerializeForSigning(out.signed.record), k.signPrivate)
  {
  }

  lemma HandleMeans(w: World, k: Keys, env: Envelope, input: Fields, reply: Option<string>, at: Moment, f: Fields,
                    out: Compressed)
    ensures HandleCompress(w, k, env, input, reply, at) == Ok((f, out)) <==>
              && env.nextKey.Some? && Compress(w, reply).Ok? && Entries(Compress(w, reply).value) == f
              && ValidContext(f)
              && Seal(w, k, env, env.nextKey.value, f, ModelOf(input), RuntimeOf(input), HashCanonical(w, input),
                      w.estimate(input), at) == Ok(out)
  {
  }

  /**
   Compression succeeds with f and out exactly if there is a continuation and a reply that is not blank, the reply,
   out of its fence, is an object that completes to f, f keeps the contract, and out seals f for the next key: the
   cargo is f encrypted, the record names the stage, both hashes and both sizes, and its signature is that of its bytes.
   */
  lemma CompressSucceeds(w: World, k: Keys, env: Envelope, input: Fields, reply: Option<string>, at: Moment, f: Fields,
                         out: Compressed)
    ensures HandleCompress(w, k, env, input, reply, at) == Ok((f, out)) <==>
              && env.nextKey.Some? && reply.Some? && TrimSpace(reply.value) != ""
              && Completes(w.unmarshal(Unfence(reply.value)), f) && ValidContext(f)
              && w.encrypt(w.marshal(Obj(f)), env.requestId, env.nextKey.value, at.entropy) == Some(out.cargo)
              && out.signed.record ==
                   Integrity(env.stageId, env.stageKind, "1", ModelOf(input), RuntimeOf(input),
                             w.hash(w.marshal(Obj(input))), w.hash(w.marshal(Obj(f))), w.estimate(input), w.estimate(f),
                             at.durationMs, at.timestamp, at.fingerprint)
              && out.signed.signature == w.sign(SerializeForSigning(out.signed.record), k.signPrivate)
  {
    HandleMeans(w, k, env, input, reply, at, f, out);
    CompressMeans(w, reply, f);
    if env.nextKey.Some? { SealMeans(w, k, env, env.nextKey.value, f, input, at, out); }
  }

  // -------------------------------------------------------- the hand-off

  // The second request carries what the first returned, under the same request ID.
  ghost predicate HandedOn(env: Envelope, out: Compressed, first: Keys, next: Envelope) {
    && next.requestId == env.requestId && next.stageKind == "infer"
    && next.cargo == out.cargo && next.prior == Some(out.signed) && next.priorKey == first.signPublic
  }

  // Compressing succeeded with context f and output out, and next carries that output on.
  ghost predicate HandedOver(w: World, first: Keys, env: Envelope, input: Fields, reply: Option<string>, at: Moment,
                             f: Fields, next: Envelope) {
    var r := HandleCompress(w, first, env, input, reply, at);
    r.Ok? && r.value.0 == f && HandedOn(env, r.value.1, first, next)
  }

  // What is sealed carries a signature that holds, over the hash of its context.
  lemma SealIsSigned(w: World, first: Keys, env: Envelope, nextKey: string, f: Fields, modelId: string,
                     runtimeId: string, inputHash: string, inputTokens: int, at: Moment)
    requires SignLaw(w, first)
    ensures var sealed := Seal(w, first, env, nextKey, f, modelId, runtimeId, inputHash, inputTokens, at);
            sealed.Ok? ==> Vouches(w, sealed.value.signed, first.signPublic, f)
  {
  }

  ghost predicate Vouches(w: World, s: Signed, key: string, f: Fields) {
    && key != "" && s.record.outputHash == HashCanonical(w, f)
    && w.verify(SerializeForSigning(s.record), s.signature, key)
  }

  lemma SealOpens(w: World, first: Keys, second: Keys, env: Envelope, f: Fields, modelId: string, runtimeId: string,
                  inputHash: string, inputTokens: int, at: Moment, next: Envelope)
    requires JsonLaw(w) && EncryptLaw(w, second) && second.encryptPrivate != "" && second.signPrivate != ""
    ensures var sealed := Seal(w, first, env, second.encryptPublic, f, modelId, runtimeId, inputHash, inputTokens, at);
            sealed.Ok? && HandedOn(env, sealed.value, first, next) ==>
              Open(w, second, next) == Ok((f, HashCanonical(w, f)))
  {
    assert w.unmarshal(w.marshal(Obj(f))) == Some(Obj(f));
  }

  lemma SuccessIsSealed(w: World, k: Keys, env: Envelope, input: Fields, reply: Option<string>, at: Moment)
    ensures var r := HandleCompress(w, k, env, input, reply, at);
            r.Ok? ==> env.nextKey.Some? && ValidContext(r.value.0)
                      && Seal(w, k, env, env.nextKey.value, r.value.0, ModelOf(input), RuntimeOf(input),
                              HashCanonical(w, input), w.estimate(input), at) == Ok(r.value.1)
  {
  }

  lemma SignatureHolds(w: World, first: Keys, env: Envelope, input: Fields, reply: Option<string>, at: Moment,
                       f: Fields, next: Envelope)
    requires SignLaw(w, first)
    ensures HandedOver(w, first, env, input, reply, at, f, next) ==>
              ValidContext(f) && next.prior.Some? && Vouches(w, next.prior.value, next.priorKey, f)
  {
    if HandedOver(w, first, env, input, reply, at, f, next) {
      SuccessIsSealed(w, first, env, input, reply, at);
      SealIsSigned(w, first, env, env.nextKey.value, f, ModelOf(input), RuntimeOf(input), HashCanonical(w, input),
                   w.estimate(input), at);
    }
  }

  lemma HashTells(w: World, f: Fields, g: Fields)
    requires JsonLaw(w) && (forall a, b :: w.hash(a) == w.hash(b) ==> a == b)
    requires HashCanonical(w, f) == HashCanonical(w, g)
    ensures f == g
  {
    assert w.unmarshal(w.marshal(Obj(f))) == Some(Obj(f)) && w.unmarshal(w.marshal(Obj(g))) == Some(Obj(g));
  }

  /** What the compress stage returns passes every gate of the infer stage, and arrives as the context compressed. */
  lemma HandOffIsAccepted(w: World, first: Keys, second: Keys, env: Envelope, input: Fields, reply: Option<string>,
                          at: Moment, f: Fields, next: Envelope)
    requires JsonLaw(w) && EncryptLaw(w, second) && SignLaw(w, first)
    requires second.encryptPrivate != "" && second.signPrivate != "" && env.nextKey == Some(second.encryptPublic)
    ensures HandedOver(w, first, env, input, reply, at, f, next) ==> AcceptInfer(w, second, next) == Ok(f)
  {
    if HandedOver(w, first, env, input, reply, at, f, next) {
      SignatureHolds(w, first, env, input, reply, at, f, next);
      SealOpens(w, first, second, env, f, ModelOf(input), RuntimeOf(input), HashCanonical(w, input), w.estimate(input),
                at, next);
      AcceptOpened(w, second, next, f);
    }
  }

  lemma AcceptOpened(w: World, k: Keys, env: Envelope, f: Fields)
    requires Open(w, k, env) == Ok((f, HashCanonical(w, f))) && env.stageKind == "infer" && ValidContext(f)
    requires env.prior.Some? && Vouches(w, env.prior.value, env.priorKey, f)
    ensures AcceptInfer(w, k, env) == Ok(f)
  {
  }

  /**
   Given that signed record, the infer stage accepts exactly the context it was made for: any other input, if
   hashes do not collide, is turned away.
   */
  lemma OnlyTheSignedContext(w: World, first: Keys, env: Envelope, input: Fields, reply: Option<string>, at: Moment,
                             f: Fields, next: Envelope, other: Fields)
    requires JsonLaw(w) && SignLaw(w, first) && forall a, b :: w.hash(a) == w.hash(b) ==> a == b
    ensures HandedOver(w, first, env, input, reply, at, f, next) ==>
              (InferGates(w, next, other, HashCanonical(w, other)).Ok? <==> other == f)
  {
    SignatureHolds(w, first, env, input, reply, at, f, next);
    if HashCanonical(w, f) == HashCanonical(w, other) { HashTells(w, f, other); }
  }

  /** Only a nil map makes the default tool state panic; a made one takes it, and its validity does not depend on it. */
  lemma ToolStateOf(m: GoMap)
    ensures WithToolState(m) == Err(Panic) <==> m.NilMap?
    ensures m.Made? ==> WithToolState(m).Ok? && WithToolState(m).value.Made?
                        && (ValidContext(Entries(WithToolState(m).value)) <==> ValidContext(m.fields))
  {
    if m.Made? && Read(m, "toolState").Null? { DefaultToolState(m.fields); }
  }

  lemma UnmarshalledNil(w: World, text: string)
    ensures UnmarshalMap(w, text) == Some(NilMap) <==> w.unmarshal(text) == Some(Null)
  {
  }

  lemma CompressPanics(w: World, reply: Option<string>)
    ensures Compress(w, reply) == Err(Panic) <==>
            reply.Some? && !Blank(reply.value) && w.unmarshal(Unfence(reply.value)) == Some(Null)
  {
    if reply.Some? {
      var text := Unfence(reply.value);
      UnmarshalledNil(w, text);
      if UnmarshalMap(w, text).Some? { ToolStateOf(UnmarshalMap(w, text).value); }
    }
  }

  // The stage panics only where compressing does.
  lemma StagePanics(w: World, k: Keys, env: Envelope, input: Fields, reply: Option<string>, at: Moment)
    ensures HandleCompress(w, k, env, input, reply, at) == Err(Panic)
            <==> env.nextKey.Some? && Compress(w, reply) == Err(Panic)
  {
  }

  /** The compress stage panics exactly when it gets as far as a reply that, out of its fence, is the JSON null. */
  lemma StagePanicsIffNullReply(w: World, k: Keys, env: Envelope, input: Fields, reply: Option<string>, at: Moment)
    ensures HandleCompress(w, k, env, input, reply, at) == Err(Panic) <==>
            env.nextKey.Some? && reply.Some? && !Blank(reply.value) && w.unmarshal(Unfence(reply.value)) == Some(Null)
  {
    StagePanics(w, k, env, input, reply, at);
    CompressPanics(w, reply);
  }

  lemma DefaultToolState(f: Fields)
    requires "toolState" !in f || f["toolState"].Null?
    ensures ValidContext(f["toolState" := NO_TOOLS]) <==> ValidContext(f)
  {
    var g := f["toolState" := NO_TOOLS];
    assert NO_TOOLS.fields["pendingCalls"] == Arr([]);
    assert ToolState(NO_TOOLS);
    assert HasArrays(g) <==> HasArrays(f);
  }
}
