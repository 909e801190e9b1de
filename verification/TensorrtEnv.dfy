/**
 The TensorRT driver's env file: the one reader that takes quotes off without unescaping, next to a writer that
 escapes. Which values survive that, and what becomes of the others with every restart.
 */
module TensorrtEnv {
  import opened Basics
  import opened GoStrings
  import opened GoQuote
  import opened EnvCodec

  // ------------------------------------------------------- plain values

  /** Well-formed UTF-8 of printable runes, with neither a quote nor a backslash. */
  predicate Plain(isPrint: int -> bool, v: string)
    decreases |v|
  {
    v == "" ||
    match DecodeRune(v)
    case Invalid => false
    case Rune(r, w) =>
      0 < w <= |v| && Printable(isPrint, r) && r != '"' as int && r != '\\' as int && Plain(isPrint, v[w..])
  }

  function Backslashes(s: string): nat {
    if s == "" then 0 else (if s[0] == '\\' then 1 else 0) + Backslashes(s[1..])
  }

  lemma {:induction false} BackslashesConcat(a: string, b: string)
    ensures Backslashes(a + b) == Backslashes(a) + Backslashes(b)
  {
    if a == "" {
      assert a + b == b;
    } else {
      assert (a + b)[1..] == a[1..] + b;
      BackslashesConcat(a[1..], b);
    }
  }

  lemma {:induction false} NoBackslashes(s: string)
    ensures Backslashes(s) == 0 <==> '\\' !in s
  {
    if s != "" { NoBackslashes(s[1..]); }
  }

  // What %q makes of the first rune or byte: itself if that is plain, else an escape with more backslashes than it had.
  lemma FirstUnit(isPrint: int -> bool, v: string) returns (e: string, w: nat)
    requires IsBytes(v) && v != ""
    ensures 0 < w <= |v| && QuoteBody(isPrint, v) == e + QuoteBody(isPrint, v[w..])
    ensures Plain(isPrint, v) <==> e == v[..w] && Plain(isPrint, v[w..])
    ensures if e == v[..w] then '\\' !in e
            else |e| > w && Backslashes(e) >= 1 && Backslashes(e) >= 2 * Backslashes(v[..w])
  {
    var unit := QuoteFirst(isPrint, v);
    e, w := unit.0, unit.1;
    UnquoteFirst(isPrint, v, "");
    UnitIsPlainOrEscaped(isPrint, v);
    NoBackslashes(e);
    if e != v[..w] { UnitBackslashes(isPrint, v); }
  }

  lemma UnitIsPlainOrEscaped(isPrint: int -> bool, v: string)
    requires IsBytes(v) && v != ""
    ensures var (e, w) := QuoteFirst(isPrint, v);
            && w <= |v|
            && (e == v[..w] <==> DecodeRune(v).Rune? && Printable(isPrint, DecodeRune(v).code)
                                 && DecodeRune(v).code != '"' as int && DecodeRune(v).code != '\\' as int)
            && if e == v[..w] then '\\' !in e else '\\' == e[0] && |e| > w
  {
    if DecodeRune(v).Rune? { EncodeAfterDecode(v); }
  }

  // Only a backslash itself is a unit with a backslash, and it is doubled.
  lemma UnitBackslashes(isPrint: int -> bool, v: string)
    requires IsBytes(v) && v != "" && QuoteFirst(isPrint, v).1 <= |v|
    requires QuoteFirst(isPrint, v).0 != v[..QuoteFirst(isPrint, v).1]
    ensures var (e, w) := QuoteFirst(isPrint, v); Backslashes(e) >= 2 * Backslashes(v[..w])
  {
    var (e, w) := QuoteFirst(isPrint, v);
    if v[0] == '\\' {
      assert e == "\\\\" && v[..w] == "\\";
      assert e[1..] == "\\";
    } else {
      assert '\\' !in v[..w];
      NoBackslashes(v[..w]);
    }
  }

  /** `%q` leaves exactly the plain values as they are. */
  lemma {:induction false} UnescapedIffPlain(isPrint: int -> bool, v: string)
    requires IsBytes(v)
    ensures QuoteBody(isPrint, v) == v <==> Plain(isPrint, v)
    ensures |QuoteBody(isPrint, v)| >= |v|
    decreases |v|
  {
    if v != "" {
      var e, w := FirstUnit(isPrint, v);
      var rest := v[w..];
      UnescapedIffPlain(isPrint, rest);
      assert v == v[..w] + rest;
      if e == v[..w] && QuoteBody(isPrint, v) == v { PrefixCancels(e, QuoteBody(isPrint, rest), rest); }
    }
  }

  /** The TensorRT reader agrees with what was written if and only if every value is plain. */
  lemma TensorrtAgreesIffPlain(isPrint: int -> bool, keys: seq<string>, env: Env, alwaysNewline: bool)
    requires Lists(keys, env) && GoodEnv(env)
    ensures Parse(Tensorrt, Render(isPrint, keys, env, alwaysNewline)) == env
            <==> forall k :: k in env ==> Plain(isPrint, env[k])
  {
    ParseRender(Tensorrt, isPrint, keys, env, alwaysNewline);
    var got := Decoded(Tensorrt, isPrint, env);
    forall k | k in env ensures got[k] == env[k] <==> Plain(isPrint, env[k]) { UnescapedIffPlain(isPrint, env[k]); }
    if forall k :: k in env ==> Plain(isPrint, env[k]) { assert got == env; }
  }

  // A backslash is read back as two.
  lemma BackslashMisread(isPrint: int -> bool)
    ensures var env := map["K" := "\\"];
            Lists(["K"], env) && Parse(Tensorrt, Render(isPrint, ["K"], env, true)) == map["K" := "\\\\"] != env
  {
    var env := map["K" := "\\"];
    assert GoodKey("K") && IsBytes("\\");
    ParseRender(Tensorrt, isPrint, ["K"], env, true);
    assert QuoteBody(isPrint, "\\") == "\\\\";
    assert Decoded(Tensorrt, isPrint, env) == map["K" := "\\\\"];
    assert "\\\\"[1..] == "\\";
    assert env["K"] != map["K" := "\\\\"]["K"];
  }

  // -------------------------------------------------------------- restarts

  const MODEL := "TENSORRT_MODEL"
  const PORT := "TENSORRT_PORT"
  const ARGS := "TENSORRT_EXTRA_ARGS"
  const IMAGE := "TENSORRT_CONTAINER_IMAGE"

  /** What the driver carries over from one start to the next, and what each start brings along. */
  datatype Service = Service(args: string, image: string)

  datatype Start = Start(model: string, port: string, fallback: string) {
    predicate Valid() {
      IsBytes(model) && IsBytes(port) && '\n' !in port && IsBytes(fallback) && TrimSpace(fallback) == fallback != ""
    }
  }

  predicate Bytes(s: Service) { IsBytes(s.args) && IsBytes(s.image) }

  // The file startOrRestartService writes; only the port goes without quotes.
  function TextLines(isPrint: int -> bool, start: Start, s: Service): seq<string> {
    [Line(isPrint, MODEL, start.model), PORT + "=" + start.port, Line(isPrint, ARGS, s.args),
     Line(isPrint, IMAGE, s.image), ""]
  }

  function Text(isPrint: int -> bool, start: Start, s: Service): string { Join(TextLines(isPrint, start, s), '\n') }

  function Get(env: Env, k: string): string { if k in env then env[k] else "" }

  /** The next start reads the file and trims the two values; a blank image gives way to the fallback. */
  function Restarted(isPrint: int -> bool, start: Start, s: Service): Service {
    var env := Parse(Tensorrt, Text(isPrint, start, s));
    var image := TrimSpace(Get(env, IMAGE));
    Service(TrimSpace(Get(env, ARGS)), if image == "" then start.fallback else image)
  }

  // What one write and read makes of a value.
  function Reread(isPrint: int -> bool, v: string): string { TrimSpace(QuoteBody(isPrint, v)) }

  lemma ParseNext(lines: seq<string>, line: string)
    ensures ParseLines(Tensorrt, lines + [line]) == Assign(ParseLines(Tensorrt, lines), ParseLine(Tensorrt, line))
  {
    assert (lines + [line])[..|lines|] == lines;
  }

  lemma PrintedNext(isPrint: int -> bool, lines: seq<string>, k: string, v: string)
    requires GoodKey(k) && IsBytes(v)
    ensures ParseLines(Tensorrt, lines + [Line(isPrint, k, v)])
            == ParseLines(Tensorrt, lines)[k := QuoteBody(isPrint, v)]
  {
    ParseNext(lines, Line(isPrint, k, v));
    ParsePrintedLine(Tensorrt, isPrint, k, v);
    DecodePrinted(Tensorrt, isPrint, v);
  }

  lemma GoodNames()
    ensures GoodKey(MODEL) && GoodKey(ARGS) && GoodKey(IMAGE) && '\n' !in PORT && ARGS != IMAGE
  {
    assert |ARGS| != |IMAGE|;
  }

  lemma LineHasNoNewline(isPrint: int -> bool, k: string, v: string)
    requires GoodKey(k) && IsBytes(v)
    ensures '\n' !in Line(isPrint, k, v)
  {
    QuoteBodyNoNewline(isPrint, v);
  }

  lemma LinesOfText(isPrint: int -> bool, start: Start, s: Service)
    requires start.Valid() && Bytes(s)
    ensures Split(Text(isPrint, start, s), '\n') == TextLines(isPrint, start, s)
  {
    GoodNames();
    LineHasNoNewline(isPrint, MODEL, start.model);
    LineHasNoNewline(isPrint, ARGS, s.args);
    LineHasNoNewline(isPrint, IMAGE, s.image);
    SplitJoin(TextLines(isPrint, start, s), '\n');
  }

  // Two printed lines at the end of a file, whatever stands before them.
  lemma ParseTail(isPrint: int -> bool, lines: seq<string>, j: string, v: string, k: string, w: string)
    requires GoodKey(j) && GoodKey(k) && j != k && IsBytes(v) && IsBytes(w)
    ensures var env := ParseLines(Tensorrt, lines + [Line(isPrint, j, v)] + [Line(isPrint, k, w)] + [""]);
            Get(env, j) == QuoteBody(isPrint, v) && Get(env, k) == QuoteBody(isPrint, w)
  {
    PrintedNext(isPrint, lines, j, v);
    PrintedNext(isPrint, lines + [Line(isPrint, j, v)], k, w);
    ParseNext(lines + [Line(isPrint, j, v)] + [Line(isPrint, k, w)], "");
  }

  /** One restart escapes both values once more, and trims them. */
  lemma RestartRereads(isPrint: int -> bool, start: Start, s: Service)
    requires start.Valid() && Bytes(s)
    ensures var image := Reread(isPrint, s.image);
            Restarted(isPrint, start, s)
            == Service(Reread(isPrint, s.args), if image == "" then start.fallback else image)
  {
    LinesOfText(isPrint, start, s);
    var two := [Line(isPrint, MODEL, start.model), PORT + "=" + start.port];
    GoodNames();
    ParseTail(isPrint, two, ARGS, s.args, IMAGE, s.image);
    assert TextLines(isPrint, start, s) == two + [Line(isPrint, ARGS, s.args)] + [Line(isPrint, IMAGE, s.image)] + [""];
  }

  // Trimming takes no backslash away.
  lemma {:induction false} TrimLeftBackslashes(s: string)
    ensures Backslashes(TrimLeft(s)) == Backslashes(s)
    decreases |s|
  {
    var k := LeadSpace(s);
    if k > 0 {
      TrimLeftBackslashes(s[k..]);
      assert s == s[..k] + s[k..];
      BackslashesConcat(s[..k], s[k..]);
      NoBackslashes(s[..k]);
    }
  }

  lemma TrailHasNone(s: string)
    ensures '\\' !in s[|s| - TrailSpace(s)..]
  {
  }

  lemma TrailBackslashes(s: string, k: nat)
    requires k <= |s| && '\\' !in s[k..]
    ensures Backslashes(s[..k]) == Backslashes(s)
  {
    assert s == s[..k] + s[k..];
    BackslashesConcat(s[..k], s[k..]);
    NoBackslashes(s[k..]);
  }

  lemma {:induction false} TrimRightBackslashes(s: string)
    ensures Backslashes(TrimRight(s)) == Backslashes(s)
    decreases |s|
  {
    var k := |s| - TrailSpace(s);
    if k < |s| {
      TrimRightBackslashes(s[..k]);
      TrailHasNone(s);
      TrailBackslashes(s, k);
    }
  }

  lemma {:induction false} QuoteDoubles(isPrint: int -> bool, v: string)
    requires IsBytes(v)
    ensures Backslashes(QuoteBody(isPrint, v)) >= 2 * Backslashes(v)
    ensures !Plain(isPrint, v) ==> Backslashes(QuoteBody(isPrint, v)) >= 1
    decreases |v|
  {
    if v != "" {
      var e, w := FirstUnit(isPrint, v);
      QuoteDoubles(isPrint, v[w..]);
      BackslashesConcat(e, QuoteBody(isPrint, v[w..]));
      assert v == v[..w] + v[w..];
      BackslashesConcat(v[..w], v[w..]);
      if e == v[..w] { NoBackslashes(e); }
    }
  }

  lemma RereadDoubles(isPrint: int -> bool, v: string)
    requires IsBytes(v)
    ensures Backslashes(Reread(isPrint, v)) >= 2 * Backslashes(v)
    ensures !Plain(isPrint, v) ==> Backslashes(Reread(isPrint, v)) >= 1
  {
    QuoteDoubles(isPrint, v);
    TrimLeftBackslashes(QuoteBody(isPrint, v));
    TrimRightBackslashes(TrimLeft(QuoteBody(isPrint, v)));
  }

  lemma {:induction false} QuoteBodyBytes(isPrint: int -> bool, v: string)
    requires IsBytes(v)
    ensures IsBytes(QuoteBody(isPrint, v))
    decreases |v|
  {
    if v != "" {
      UnquoteFirst(isPrint, v, "");
      QuoteFirstBytes(isPrint, v);
      QuoteBodyBytes(isPrint, v[QuoteFirst(isPrint, v).1..]);
    }
  }

  lemma QuoteFirstBytes(isPrint: int -> bool, v: string)
    requires IsBytes(v) && v != ""
    ensures IsBytes(QuoteFirst(isPrint, v).0)
  {
    HexBytes(v[0] as int, 2);
    if DecodeRune(v).Rune? {
      HexBytes(DecodeRune(v).code, 2);
      HexBytes(DecodeRune(v).code, 4);
      HexBytes(DecodeRune(v).code, 8);
    }
  }

  lemma {:induction false} HexBytes(v: nat, digits: nat)
    ensures IsBytes(Hex(v, digits))
  {
    if digits > 0 { HexBytes(v / 16, digits - 1); }
  }

  lemma RereadBytes(isPrint: int -> bool, v: string)
    requires IsBytes(v)
    ensures IsBytes(Reread(isPrint, v))
  {
    QuoteBodyBytes(isPrint, v);
    TrimSpaceInside(QuoteBody(isPrint, v));
    BytesInside(QuoteBody(isPrint, v), Reread(isPrint, v));
  }

  /** A restart leaves a value alone if and only if it is plain and trimmed. */
  lemma RereadIsStableIffPlain(isPrint: int -> bool, v: string)
    requires IsBytes(v)
    ensures Reread(isPrint, v) == v <==> Plain(isPrint, v) && TrimSpace(v) == v
  {
    UnescapedIffPlain(isPrint, v);
    RereadDoubles(isPrint, v);
  }

  // A service after one start after another.
  function Rounds(isPrint: int -> bool, starts: seq<Start>, s: Service): Service
    decreases |starts|
  {
    if starts == [] then s
    else Restarted(isPrint, starts[|starts| - 1], Rounds(isPrint, starts[..|starts| - 1], s))
  }

  // The backslash counts b0 at first, b1 after n restarts and b2 after one more.
  lemma Doubled(b0: nat, b1: nat, b2: nat, n: nat, plain: bool)
    requires b1 >= b0 * Pow2(n) && b2 >= 2 * b1
    requires !plain ==> if n == 0 then b2 >= 1 else b1 >= Pow2(n - 1)
    ensures b2 >= b0 * Pow2(n + 1) && (!plain ==> b2 >= Pow2(n))
  {
    assert b0 * Pow2(n + 1) == 2 * (b0 * Pow2(n));
  }

  // v has become u in n restarts.
  ghost predicate Grown(isPrint: int -> bool, v: string, u: string, n: nat) {
    Backslashes(u) >= Backslashes(v) * Pow2(n) && (n > 0 && !Plain(isPrint, v) ==> Backslashes(u) >= Pow2(n - 1))
  }

  lemma GrownOnce(isPrint: int -> bool, v: string, u: string, w: string, n: nat)
    requires Grown(isPrint, v, u, n) && (n == 0 ==> u == v)
    requires Backslashes(w) >= 2 * Backslashes(u) && (!Plain(isPrint, u) ==> Backslashes(w) >= 1)
    ensures Grown(isPrint, v, w, n + 1)
  {
    Doubled(Backslashes(v), Backslashes(u), Backslashes(w), n, Plain(isPrint, v));
  }

  ghost predicate BothGrown(isPrint: int -> bool, s: Service, t: Service, n: nat) {
    Bytes(t) && Grown(isPrint, s.args, t.args, n) && Grown(isPrint, s.image, t.image, n)
  }

  lemma BothGrownOnce(isPrint: int -> bool, start: Start, s: Service, before: Service, n: nat)
    requires start.Valid() && BothGrown(isPrint, s, before, n) && (n == 0 ==> before == s)
    ensures BothGrown(isPrint, s, Restarted(isPrint, start, before), n + 1)
  {
    RestartDoubles(isPrint, start, before);
    var after := Restarted(isPrint, start, before);
    GrownOnce(isPrint, s.args, before.args, after.args, n);
    GrownOnce(isPrint, s.image, before.image, after.image, n);
  }

  /**
   A value with backslashes has at least twice as many after every restart, so that its length grows
   exponentially; a value that is not plain has one after the first restart.
   */
  lemma {:induction false} EscapedValuesDouble(isPrint: int -> bool, starts: seq<Start>, s: Service)
    requires Bytes(s) && forall i :: 0 <= i < |starts| ==> starts[i].Valid()
    ensures BothGrown(isPrint, s, Rounds(isPrint, starts, s), |starts|)
    decreases |starts|
  {
    if starts != [] {
      var n := |starts| - 1;
      EscapedValuesDouble(isPrint, starts[..n], s);
      BothGrownOnce(isPrint, starts[n], s, Rounds(isPrint, starts[..n], s), n);
    }
  }

  lemma RestartDoubles(isPrint: int -> bool, start: Start, s: Service)
    requires start.Valid() && Bytes(s)
    ensures var t := Restarted(isPrint, start, s);
            && Bytes(t)
            && Backslashes(t.args) >= 2 * Backslashes(s.args) && Backslashes(t.image) >= 2 * Backslashes(s.image)
            && (!Plain(isPrint, s.args) ==> Backslashes(t.args) >= 1)
            && (!Plain(isPrint, s.image) ==> Backslashes(t.image) >= 1)
  {
    RestartRereads(isPrint, start, s);
    RereadDoubles(isPrint, s.args);
    RereadDoubles(isPrint, s.image);
    RereadBytes(isPrint, s.args);
    RereadBytes(isPrint, s.image);
  }
}
