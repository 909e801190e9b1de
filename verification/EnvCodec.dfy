/**
 The env files the agent keeps: one printer style (`KEY=%q` lines), three writers that
 differ in key order and in the empty file, and four readers that differ in how they
 take the quotes off.
 */
module EnvCodec {
  import opened Basics
  import opened GoStrings
  import opened GoQuote
  import opened Sorting

  type Env = map<string, string>

  datatype Reader = Explore | Executor | Vllm | Tensorrt

  // ----------------------------------------------------------------- reading

  predicate Enclosed(v: string, quote: char) { |v| >= 2 && v[0] == quote && v[|v| - 1] == quote }

  function Inner(v: string): string
    requires |v| >= 2
  { v[1..|v| - 1] }

  // strings.Trim(v, "\"")
  function TrimQuotes(v: string): string {
    if v == "" then "" else if v[0] == '"' then TrimQuotes(v[1..])
    else if v[|v| - 1] == '"' then TrimQuotes(v[..|v| - 1]) else v
  }

  function DecodeValue(reader: Reader, v: string): string {
    match reader
    case Explore => (match Unquote(v) case Some(u) => u case None => v)
    case Executor =>
      if Enclosed(v, '"') then (match Unquote(v) case Some(u) => u case None => TrimQuotes(v))
      else if Enclosed(v, '\'') then Inner(v) else v
    case Vllm =>
      if Enclosed(v, '"') then (match Unquote(v) case Some(u) => u case None => Inner(v))
      else if Enclosed(v, '\'') then Inner(v) else v
    case Tensorrt => if Enclosed(v, '"') || Enclosed(v, '\'') then Inner(v) else v
  }

  function ParseLine(reader: Reader, line: string): Option<(string, string)> {
    var trimmed := TrimSpace(line);
    if trimmed == "" || trimmed[0] == '#' then None else
    var i := IndexOf(trimmed, '=');
    if i == |trimmed| then None else
    var key := TrimSpace(trimmed[..i]);
    if key == "" then None else Some((key, DecodeValue(reader, TrimSpace(trimmed[i + 1..]))))
  }

  // A later line for the same key wins.
  function ParseLines(reader: Reader, lines: seq<string>): Env {
    if lines == [] then map[] else
    Assign(ParseLines(reader, lines[..|lines| - 1]), ParseLine(reader, lines[|lines| - 1]))
  }

  function Assign(env: Env, line: Option<(string, string)>): Env {
    match line
    case None => env
    case Some((k, v)) => env[k := v]
  }

  lemma ParseLinesSnoc(reader: Reader, lines: seq<string>, i: nat)
    requires i < |lines|
    ensures ParseLines(reader, lines[..i + 1]) == Assign(ParseLines(reader, lines[..i]), ParseLine(reader, lines[i]))
  {
    assert lines[..i + 1][..i] == lines[..i];
  }

  function Parse(reader: Reader, raw: string): Env { ParseLines(reader, Split(raw, '\n')) }

  method ParseEnv(reader: Reader, raw: string) returns (values: Env)
    ensures values == Parse(reader, raw)
  {
    values := map[];
    var lines := Split(raw, '\n');
    for i := 0 to |lines|
      invariant values == ParseLines(reader, lines[..i])
    {
      ParseLinesSnoc(reader, lines, i);
      var line := ParseLine(reader, lines[i]);
      if line.Some? {
        var (k, v) := line.value;
        values := values[k := v];
      }
    }
    assert lines[..|lines|] == lines;
  }

  // ------------------------------------------------------ what is read

  // i is where the first equals sign stands.
  ghost predicate CutsAt(t: string, i: int) { 0 <= i < |t| && t[i] == '=' && '=' !in t[..i] }

  lemma CutIsIndex(t: string, i: int)
    ensures CutsAt(t, i) <==> i == IndexOf(t, '=') < |t|
  {
    var n := IndexOf(t, '=');
    if n < i < |t| { assert t[..i][n] == t[n]; }
  }

  /** A line says something if it is no comment and names a key before its first equals sign. */
  lemma ParseLineMeans(reader: Reader, line: string, k: string, v: string)
    ensures var t := TrimSpace(line);
            ParseLine(reader, line) == Some((k, v)) <==>
              && t != "" && t[0] != '#' && k != ""
              && exists i :: CutsAt(t, i) && TrimSpace(t[..i]) == k && v == DecodeValue(reader, TrimSpace(t[i + 1..]))
  {
    var t := TrimSpace(line);
    CutIsIndex(t, IndexOf(t, '='));
    forall i | CutsAt(t, i) ensures i == IndexOf(t, '=') { CutIsIndex(t, i); }
  }

  // What the lines of a file say, one by one.
  type Said = seq<Option<(string, string)>>

  function Says(reader: Reader, lines: seq<string>): (said: Said)
    ensures |said| == |lines|
  {
    seq(|lines|, i requires 0 <= i < |lines| => ParseLine(reader, lines[i]))
  }

  predicate Names(line: Option<(string, string)>, k: string) { line.Some? && line.value.0 == k }

  // The last line about k gives it the value v.
  ghost predicate LastSays(said: Said, k: string, v: string) {
    exists i :: 0 <= i < |said| && said[i] == Some((k, v)) && forall j :: i < j < |said| ==> !Names(said[j], k)
  }

  lemma LastSaysNext(front: Said, last: Option<(string, string)>, k: string, v: string)
    requires if Names(last, k) then last == Some((k, v)) else LastSays(front, k, v)
    ensures LastSays(front + [last], k, v)
  {
    var all := front + [last];
    if Names(last, k) {
      assert all[|front|] == Some((k, v));
    } else {
      var i :| 0 <= i < |front| && front[i] == Some((k, v)) && forall j :: i < j < |front| ==> !Names(front[j], k);
      assert all[i] == front[i] && forall j :: i < j < |front| ==> all[j] == front[j];
    }
  }

  lemma NamedSomewhere(front: Said, last: Option<(string, string)>, k: string)
    ensures (exists i :: 0 <= i < |front + [last]| && Names((front + [last])[i], k))
            <==> Names(last, k) || exists i :: 0 <= i < |front| && Names(front[i], k)
  {
    var all := front + [last];
    assert all[|front|] == last;
    if i :| 0 <= i < |front| && Names(front[i], k) { assert all[i] == front[i]; }
  }

  lemma AssignSays(env: Env, front: Said, last: Option<(string, string)>, k: string)
    requires k in env ==> LastSays(front, k, env[k])
    ensures k in Assign(env, last) <==> Names(last, k) || k in env
    ensures k in Assign(env, last) ==> LastSays(front + [last], k, Assign(env, last)[k])
  {
    if k in Assign(env, last) { LastSaysNext(front, last, k, Assign(env, last)[k]); }
  }

  /** The environment read has exactly the keys its lines name, each with what the last of those lines says. */
  lemma {:induction false} ParseLinesMean(reader: Reader, lines: seq<string>, k: string)
    ensures var env, said := ParseLines(reader, lines), Says(reader, lines);
            && (k in env <==> exists i :: 0 <= i < |said| && Names(said[i], k))
            && (k in env ==> LastSays(said, k, env[k]))
    decreases |lines|
  {
    if lines != [] {
      var front, last := lines[..|lines| - 1], lines[|lines| - 1];
      assert Says(reader, lines) == Says(reader, front) + [ParseLine(reader, last)];
      ParseLinesMean(reader, front, k);
      AssignSays(ParseLines(reader, front), Says(reader, front), ParseLine(reader, last), k);
      NamedSomewhere(Says(reader, front), ParseLine(reader, last), k);
    }
  }

  /** A value that starts with no quote is taken as it stands by every reader. */
  lemma PlainIsRead(reader: Reader, v: string)
    requires v == "" || v[0] !in {'"', '\'', '`'}
    ensures DecodeValue(reader, v) == v
  {
  }

  /** All but the explore reader take single quotes off, and change nothing inside. */
  lemma SingleQuotesComeOff(reader: Reader, t: string)
    requires reader != Explore
    ensures DecodeValue(reader, "'" + t + "'") == t
  {
    var v := "'" + t + "'";
    assert v[1..|v| - 1] == t;
  }

  // ----------------------------------------------------------------- writing

  function Line(isPrint: int -> bool, k: string, v: string): string { k + "=" + Quote(isPrint, v) }

  function Lines(isPrint: int -> bool, keys: seq<string>, env: Env): seq<string>
    requires forall k :: k in keys ==> k in env
  {
    if keys == [] then [] else [Line(isPrint, keys[0], env[keys[0]])] + Lines(isPrint, keys[1..], env)
  }

  // The explore writer always ends the file with a newline, the others leave an empty file empty.
  function Render(isPrint: int -> bool, keys: seq<string>, env: Env, alwaysNewline: bool): string
    requires forall k :: k in keys ==> k in env
  {
    var payload := Join(Lines(isPrint, keys, env), '\n');
    if payload != "" || alwaysNewline then payload + "\n" else ""
  }

  // An order in which a writer may list the keys.
  ghost predicate Lists(keys: seq<string>, env: Env) {
    (forall k :: k in keys <==> k in env) && Distinct(keys)
  }

  ghost predicate Distinct(keys: seq<string>) { forall i, j :: 0 <= i < j < |keys| ==> keys[i] != keys[j] }

  lemma DistinctSnoc(keys: seq<string>, k: string)
    requires Distinct(keys) && k !in keys
    ensures Distinct(keys + [k])
  {
  }

  method CollectKeys(env: Env) returns (keys: seq<string>)
    ensures Lists(keys, env)
  {
    keys := [];
    var rest := env.Keys;
    while rest != {}
      invariant rest <= env.Keys && Distinct(keys)
      invariant forall k :: k in keys <==> k in env.Keys && k !in rest
      decreases rest
    {
      var k :| k in rest;
      InSnoc(keys, k);
      DistinctSnoc(keys, k);
      keys, rest := keys + [k], rest - {k};
    }
  }

  lemma SortLists(keys: seq<string>, env: Env)
    requires Lists(keys, env)
    ensures Lists(Sort(keys), env)
  {
    SortElements(keys);
    SortSorts(keys);
    DistinctIsCounted(keys);
    forall k ensures multiset(Sort(keys))[k] <= 1 { assert multiset(keys)[k] <= 1; }
    CountedIsDistinct(Sort(keys));
  }

  lemma {:induction false} DistinctIsCounted(keys: seq<string>)
    requires forall i, j :: 0 <= i < j < |keys| ==> keys[i] != keys[j]
    ensures forall k :: multiset(keys)[k] <= 1
  {
    if keys != [] {
      DistinctIsCounted(keys[1..]);
      assert keys == [keys[0]] + keys[1..];
      assert keys[0] !in keys[1..];
    }
  }

  lemma CountedIsDistinct(keys: seq<string>)
    requires forall k :: multiset(keys)[k] <= 1
    ensures forall i, j :: 0 <= i < j < |keys| ==> keys[i] != keys[j]
  {
    forall i, j | 0 <= i < j < |keys| ensures keys[i] != keys[j] {
      var x, rest := keys[i], keys[i + 1..];
      assert keys == keys[..i] + [x] + rest;
      assert multiset(keys)[x] == multiset(keys[..i])[x] + 1 + multiset(rest)[x];
      assert keys[j] == rest[j - i - 1] && keys[j] in multiset(rest);
    }
  }

  // There is one sorted order of the keys.
  lemma SortedListsAreOne(a: seq<string>, b: seq<string>, env: Env)
    requires Lists(a, env) && Lists(b, env) && Sorted(a) && Sorted(b)
    ensures a == b
  {
    DistinctIsCounted(a);
    DistinctIsCounted(b);
    forall k ensures multiset(a)[k] == multiset(b)[k] {
      assert (k in multiset(a) <==> k in a) && (k in multiset(b) <==> k in b) && (k in a <==> k in b);
      assert multiset(a)[k] <= 1 && multiset(b)[k] <= 1;
    }
    assert multiset(a) == multiset(b);
    SortedUnique(a, b);
  }

  /** A file ends with a quote and a newline; it is empty only for an empty environment, if the writer allows it. */
  lemma RenderEnds(isPrint: int -> bool, keys: seq<string>, env: Env, alwaysNewline: bool)
    requires Lists(keys, env)
    ensures var text := Render(isPrint, keys, env, alwaysNewline);
            && (text == "" <==> env == map[] && !alwaysNewline)
            && (text != "" ==> text[|text| - 1] == '\n')
            && (env != map[] ==> |text| >= 2 && text[|text| - 2] == '"')
  {
    if env != map[] {
      var k :| k in env;
      assert keys != [];
      LinesEndQuoted(isPrint, keys, env);
    }
  }

  lemma {:induction false} LinesEndQuoted(isPrint: int -> bool, keys: seq<string>, env: Env)
    requires keys != [] && forall k :: k in keys ==> k in env
    ensures var payload := Join(Lines(isPrint, keys, env), '\n');
            payload != "" && payload[|payload| - 1] == '"'
  {
    var first, rest := Line(isPrint, keys[0], env[keys[0]]), Lines(isPrint, keys[1..], env);
    assert first[|first| - 1] == '"';
    if |keys| == 1 {
      assert keys[1..] == [] && rest == [];
      assert Lines(isPrint, keys, env) == [first];
    } else {
      LinesEndQuoted(isPrint, keys[1..], env);
      assert Lines(isPrint, keys, env) == [first] + rest && rest != [];
      JoinFirst(first, rest, '\n');
    }
  }

  /**
   The explore and the executor writer: collect the keys in any order, sort them, print one line each. The text
   depends on the environment alone, not on the order of collection, and for a non-empty environment not on the
   writer either.
   */
  method RenderEnv(isPrint: int -> bool, env: Env, alwaysNewline: bool) returns (text: string, keys: seq<string>)
    ensures Lists(keys, env) && Sorted(keys)
    ensures text == Render(isPrint, keys, env, alwaysNewline)
    ensures forall other, newline ::
              Lists(other, env) && Sorted(other) && (env != map[] || newline == alwaysNewline) ==>
              Render(isPrint, other, env, newline) == text
  {
    var unsorted := CollectKeys(env);
    SortLists(unsorted, env);
    SortSorts(unsorted);
    keys := Sort(unsorted);
    text := Render(isPrint, keys, env, alwaysNewline);
    forall other, newline | Lists(other, env) && Sorted(other) && (env != map[] || newline == alwaysNewline)
      ensures Render(isPrint, other, env, newline) == text
    {
      SortedListsAreOne(other, keys, env);
      if env != map[] { NewlineIsNoMatter(isPrint, keys, env); }
    }
  }

  // Only the empty file can do without its newline.
  lemma NewlineIsNoMatter(isPrint: int -> bool, keys: seq<string>, env: Env)
    requires Lists(keys, env) && env != map[]
    ensures Render(isPrint, keys, env, true) == Render(isPrint, keys, env, false)
  {
    var k :| k in env;
    assert keys != [];
    assert Lines(isPrint, keys, env)[0] == Line(isPrint, keys[0], env[keys[0]]);
  }

  const VLLM_ORDER := [
    "VLLM_MODEL", "VLLM_PORT", "VLLM_GPU_MEMORY_UTILIZATION", "VLLM_TRUST_REMOTE_CODE", "VLLM_EXTRA_ARGS",
    "VLLM_RUNTIME_MODE", "HF_TOKEN", "HUGGING_FACE_HUB_TOKEN", "VLLM_CONTAINER_IMAGE", "VLLM_LD_LIBRARY_PATH"]

  // The first n keys of the fixed order that the environment has.
  function KnownUpto(env: Env, n: nat): seq<string>
    requires n <= |VLLM_ORDER|
  {
    if n == 0 then [] else KnownUpto(env, n - 1) + if VLLM_ORDER[n - 1] in env then [VLLM_ORDER[n - 1]] else []
  }

  function Known(env: Env): seq<string> { KnownUpto(env, |VLLM_ORDER|) }

  lemma {:induction false} KnownAre(env: Env, n: nat)
    requires n <= |VLLM_ORDER|
    ensures Distinct(KnownUpto(env, n))
    ensures forall k :: k in KnownUpto(env, n) <==> k in VLLM_ORDER[..n] && k in env
  {
    if n > 0 {
      KnownAre(env, n - 1);
      VllmOrderDistinct(n - 1);
      assert VLLM_ORDER[..n] == VLLM_ORDER[..n - 1] + [VLLM_ORDER[n - 1]];
      if VLLM_ORDER[n - 1] in env { DistinctSnoc(KnownUpto(env, n - 1), VLLM_ORDER[n - 1]); }
    }
  }

  /** The vLLM writer: the known keys in their fixed order, then the others sorted. */
  method RenderVllmEnv(isPrint: int -> bool, env: Env) returns (text: string, keys: seq<string>)
    ensures Lists(keys, env)
    ensures Known(env) <= keys && Sorted(keys[|Known(env)|..])
    ensures text == Render(isPrint, keys, env, false)
  {
    var known: seq<string> := [];
    for i := 0 to |VLLM_ORDER|
      invariant known == KnownUpto(env, i)
    {
      if VLLM_ORDER[i] in env { known := known + [VLLM_ORDER[i]]; }
    }
    KnownAre(env, |VLLM_ORDER|);
    assert VLLM_ORDER[..|VLLM_ORDER|] == VLLM_ORDER;
    var extra := env - Elements(known);
    var unsorted := CollectKeys(extra);
    SortLists(unsorted, extra);
    SortSorts(unsorted);
    ConcatDistinct(known, Sort(unsorted));
    keys := known + Sort(unsorted);
    text := Render(isPrint, keys, env, false);
  }

  lemma ConcatDistinct(a: seq<string>, b: seq<string>)
    requires Distinct(a) && Distinct(b)
    requires forall k :: k in a ==> k !in b
    ensures forall i, j :: 0 <= i < j < |a + b| ==> (a + b)[i] != (a + b)[j]
  {
    forall i, j | 0 <= i < j < |a + b| ensures (a + b)[i] != (a + b)[j] {
      if i < |a| <= j { assert (a + b)[i] in a && (a + b)[j] in b; }
    }
  }

  lemma VllmOrderDistinct(i: nat)
    requires i < |VLLM_ORDER|
    ensures VLLM_ORDER[i] !in VLLM_ORDER[..i]
  {
    assert forall a, b :: 0 <= a < b < 10 ==> VLLM_ORDER[a] != VLLM_ORDER[b];
  }

  // -------------------------------------------------------------- round trip

  predicate GoodKey(k: string) { k != "" && Trimmed(k) && '=' !in k && '\n' !in k && k[0] != '#' }

  ghost predicate GoodEnv(env: Env) {
    forall k :: k in env ==> GoodKey(k) && IsBytes(env[k])
  }

  lemma {:induction false} QuoteBodyNoNewline(isPrint: int -> bool, s: string)
    requires IsBytes(s)
    ensures '\n' !in QuoteBody(isPrint, s)
    decreases |s|
  {
    if s != "" {
      var (e, w) := QuoteFirst(isPrint, s);
      UnquoteFirst(isPrint, s, "");
      QuoteFirstNoNewline(isPrint, s);
      QuoteBodyNoNewline(isPrint, s[w..]);
    }
  }

  lemma {:induction false} HexNoNewline(v: nat, digits: nat)
    ensures '\n' !in Hex(v, digits)
  {
    if digits > 0 { HexNoNewline(v / 16, digits - 1); }
  }

  lemma QuoteFirstNoNewline(isPrint: int -> bool, s: string)
    requires s != ""
    ensures '\n' !in QuoteFirst(isPrint, s).0
  {
    match DecodeRune(s)
    case Invalid => HexNoNewline(s[0] as int, 2);
    case Rune(r, w) => HexNoNewline(r, 2); HexNoNewline(r, 4); HexNoNewline(r, 8);
  }

  // A printed line has no white space around it, so it is read as it stands.
  lemma LineTrimmed(isPrint: int -> bool, k: string, v: string)
    requires GoodKey(k)
    ensures Trimmed(Line(isPrint, k, v))
  {
    var line := Line(isPrint, k, v);
    assert line[|line| - 1] == '"';
    assert forall i :: 0 <= i < |k| ==> line[i] == k[i];
    assert line[|k|] == '=';
  }

  lemma ParsePrintedLine(reader: Reader, isPrint: int -> bool, k: string, v: string)
    requires GoodKey(k) && IsBytes(v)
    ensures ParseLine(reader, Line(isPrint, k, v)) == Some((k, DecodeValue(reader, Quote(isPrint, v))))
  {
    var line, q := Line(isPrint, k, v), Quote(isPrint, v);
    LineTrimmed(isPrint, k, v);
    assert line == k + ['='] + q;
    IndexOfFirst(k, '=', q);
    assert line[..|k|] == k && line[|k| + 1..] == q;
    assert q[0] == '"' && q[|q| - 1] == '"';
    assert Trimmed(q);
    assert line[0] == k[0];
  }

  // What each reader makes of a printed value.
  lemma DecodePrinted(reader: Reader, isPrint: int -> bool, v: string)
    requires IsBytes(v)
    ensures DecodeValue(reader, Quote(isPrint, v)) == if reader.Tensorrt? then QuoteBody(isPrint, v) else v
  {
    var q := Quote(isPrint, v);
    UnquoteQuote(isPrint, v);
    assert Enclosed(q, '"') && Inner(q) == QuoteBody(isPrint, v);
  }

  // The environment a reader gets from a printed file.
  function Decoded(reader: Reader, isPrint: int -> bool, env: Env): Env {
    map k | k in env :: if reader.Tensorrt? then QuoteBody(isPrint, env[k]) else env[k]
  }

  // The part of an environment that lies in the listed keys.
  function Listed(env: Env, keys: seq<string>): Env { map k | k in env && k in keys :: env[k] }

  lemma ListedSnoc(env: Env, front: seq<string>, last: string)
    requires last in env
    ensures Listed(env, front + [last]) == Listed(env, front)[last := env[last]]
  {
  }

  lemma {:induction false} ParseListed(reader: Reader, isPrint: int -> bool, keys: seq<string>, env: Env)
    requires (forall k :: k in keys ==> k in env) && GoodEnv(env)
    ensures ParseLines(reader, Lines(isPrint, keys, env)) == Listed(Decoded(reader, isPrint, env), keys)
    decreases |keys|
  {
    if keys != [] {
      var front, last := keys[..|keys| - 1], keys[|keys| - 1];
      assert keys == front + [last];
      LinesSnoc(isPrint, front, last, env);
      ListedSnoc(Decoded(reader, isPrint, env), front, last);
      ParseListed(reader, isPrint, front, env);
      ParsePrintedLine(reader, isPrint, last, env[last]);
      DecodePrinted(reader, isPrint, env[last]);
      var lines := Lines(isPrint, front, env);
      assert (lines + [Line(isPrint, last, env[last])])[..|lines|] == lines;
    }
  }

  lemma {:induction false} LinesSnoc(isPrint: int -> bool, front: seq<string>, last: string, env: Env)
    requires last in env && forall k :: k in front ==> k in env
    ensures Lines(isPrint, front + [last], env) == Lines(isPrint, front, env) + [Line(isPrint, last, env[last])]
  {
    if front == [] {
      assert front + [last] == [last] && [last][1..] == [];
    } else {
      assert (front + [last])[1..] == front[1..] + [last];
      LinesSnoc(isPrint, front[1..], last, env);
    }
  }

  lemma {:induction false} LinesHaveNoNewline(isPrint: int -> bool, keys: seq<string>, env: Env)
    requires (forall k :: k in keys ==> k in env) && GoodEnv(env)
    ensures forall l :: l in Lines(isPrint, keys, env) ==> '\n' !in l && l != ""
  {
    if keys != [] {
      QuoteBodyNoNewline(isPrint, env[keys[0]]);
      LinesHaveNoNewline(isPrint, keys[1..], env);
    }
  }

  lemma {:induction false} JoinTerminated(lines: seq<string>)
    requires lines != []
    ensures Join(lines + [""], '\n') == Join(lines, '\n') + "\n"
  {
    if |lines| == 1 {
      assert (lines + [""])[1..] == [""];
    } else {
      assert (lines + [""])[1..] == lines[1..] + [""];
      JoinTerminated(lines[1..]);
    }
  }

  lemma BlankLast(reader: Reader, lines: seq<string>)
    ensures ParseLines(reader, lines + [""]) == ParseLines(reader, lines)
  {
    assert (lines + [""])[..|lines|] == lines;
  }

  /** Every reader, on the text of every writer, in any key order: the readers that unescape get
      the environment back; the TensorRT reader gets the escaped values. */
  lemma ParseRender(reader: Reader, isPrint: int -> bool, keys: seq<string>, env: Env, alwaysNewline: bool)
    requires Lists(keys, env) && GoodEnv(env)
    ensures Parse(reader, Render(isPrint, keys, env, alwaysNewline)) == Decoded(reader, isPrint, env)
  {
    var lines := Lines(isPrint, keys, env);
    ParseListed(reader, isPrint, keys, env);
    assert Listed(Decoded(reader, isPrint, env), keys) == Decoded(reader, isPrint, env);
    LinesHaveNoNewline(isPrint, keys, env);
    if keys == [] {
      assert env == map[];
      EmptyFile(reader);
    } else {
      assert Join(lines, '\n') != "";
      ParseTerminated(reader, lines);
    }
  }

  // A file of lines, each ended by a newline.
  lemma ParseTerminated(reader: Reader, lines: seq<string>)
    requires lines != [] && forall l :: l in lines ==> '\n' !in l
    ensures Parse(reader, Join(lines, '\n') + "\n") == ParseLines(reader, lines)
  {
    JoinTerminated(lines);
    SplitJoin(lines + [""], '\n');
    BlankLast(reader, lines);
  }

  lemma EmptyFile(reader: Reader)
    ensures Parse(reader, "") == map[] && Parse(reader, "\n") == map[]
  {
    SplitJoin(["", ""], '\n');
    assert Join(["", ""], '\n') == "" + ['\n'] + Join([""], '\n');
    assert ParseLines(reader, [""]) == map[];
    BlankLast(reader, [""]);
  }

  /** The readers that unescape agree on everything the writers print. */
  lemma ReadersAgreeOnPrinted(a: Reader, b: Reader, isPrint: int -> bool, keys: seq<string>, env: Env,
                              alwaysNewline: bool)
    requires Lists(keys, env) && GoodEnv(env) && !a.Tensorrt? && !b.Tensorrt?
    ensures var text := Render(isPrint, keys, env, alwaysNewline);
            Parse(a, text) == Parse(b, text) == env
  {
    ParseRender(a, isPrint, keys, env, alwaysNewline);
    ParseRender(b, isPrint, keys, env, alwaysNewline);
  }

  // ----------------------------------------------------- files from elsewhere

  lemma BytesInside(s: string, t: string)
    requires IsBytes(s) && forall c :: c in t ==> c in s
    ensures IsBytes(t)
  {
    forall i | 0 <= i < |t| ensures t[i] as int < 256 { assert t[i] in s; }
  }

  lemma UnquoteCharBytes(s: string, quote: char)
    requires IsBytes(s) && s != "" && UnquoteChar(s, quote).Some?
    ensures IsBytes(UnquoteChar(s, quote).value.0)
  {
  }

  lemma {:induction false} UnquoteDoubleBytes(s: string)
    requires IsBytes(s) && UnquoteDouble(s).Some?
    ensures IsBytes(UnquoteDouble(s).value)
    decreases |s|
  {
    if s[0] != '"' {
      UnquoteCharBytes(s, '"');
      UnquoteDoubleBytes(s[UnquoteChar(s, '"').value.1..]);
    }
  }

  lemma {:induction false} DropCRInside(s: string)
    ensures forall c :: c in DropCR(s) ==> c in s
  {
    if s != "" { DropCRInside(s[1..]); }
  }

  lemma UnquoteBytes(s: string)
    requires IsBytes(s) && Unquote(s).Some?
    ensures IsBytes(Unquote(s).value)
  {
    if s[0] == '`' {
      DropCRInside(s[1..|s| - 1]);
      BytesInside(s, DropCR(s[1..|s| - 1]));
    } else if s[0] == '"' {
      UnquoteDoubleBytes(s[1..]);
    } else if s != "''" {
      UnquoteCharBytes(s[1..], '\'');
    }
  }

  lemma {:induction false} TrimQuotesInside(v: string)
    ensures forall c :: c in TrimQuotes(v) ==> c in v
    decreases |v|
  {
    if v != "" && v[0] == '"' { TrimQuotesInside(v[1..]); }
    else if v != "" && v[|v| - 1] == '"' { TrimQuotesInside(v[..|v| - 1]); }
  }

  lemma DecodeValueBytes(reader: Reader, v: string)
    requires IsBytes(v)
    ensures IsBytes(DecodeValue(reader, v))
  {
    if Unquote(v).Some? { UnquoteBytes(v); }
    TrimQuotesInside(v);
    BytesInside(v, TrimQuotes(v));
  }

  // The key of a line is its trimmed text before the first '='.
  lemma ParseLineGood(reader: Reader, line: string)
    requires IsBytes(line) && '\n' !in line && ParseLine(reader, line).Some?
    ensures var (k, v) := ParseLine(reader, line).value; GoodKey(k) && IsBytes(v)
  {
    var t := TrimSpace(line);
    TrimSpaceTrims(line);
    TrimSpaceInside(line);
    BytesInside(line, t);
    var i := IndexOf(t, '=');
    var before, after := t[..i], t[i + 1..];
    PrefixLead(t, i);
    TrimRightDone(before);
    TrimSpaceInside(after);
    BytesInside(after, TrimSpace(after));
    DecodeValueBytes(reader, TrimSpace(after));
    var k := TrimSpace(before);
    assert k <= before <= t;
    assert forall c :: c in k ==> c in before && c in t;
    assert '=' !in before;
  }

  // A prefix starts with white space only if the whole text does.
  lemma PrefixLead(t: string, i: nat)
    requires i <= |t| && LeadSpace(t) == 0
    ensures LeadSpace(t[..i]) == 0 && TrimLeft(t[..i]) == t[..i]
  {
  }

  lemma {:induction false} ParseLinesGood(reader: Reader, lines: seq<string>)
    requires forall l :: l in lines ==> IsBytes(l) && '\n' !in l
    ensures GoodEnv(ParseLines(reader, lines))
  {
    if lines != [] {
      ParseLinesGood(reader, lines[..|lines| - 1]);
      if ParseLine(reader, lines[|lines| - 1]).Some? { ParseLineGood(reader, lines[|lines| - 1]); }
    }
  }

  lemma {:induction false} SplitInside(s: string, sep: char)
    ensures forall l, c :: l in Split(s, sep) && c in l ==> c in s
    decreases |s|
  {
    var i := IndexOf(s, sep);
    if i < |s| { SplitInside(s[i + 1..], sep); }
  }

  lemma ParseGood(reader: Reader, raw: string)
    requires IsBytes(raw)
    ensures GoodEnv(Parse(reader, raw))
  {
    JoinSplit(raw, '\n');
    SplitInside(raw, '\n');
    forall l | l in Split(raw, '\n') ensures IsBytes(l) { BytesInside(raw, l); }
    ParseLinesGood(reader, Split(raw, '\n'));
  }

  /** Any text at all: reading it, printing what was read and reading that again changes nothing. */
  lemma ReprintIsStable(reader: Reader, isPrint: int -> bool, raw: string, keys: seq<string>, alwaysNewline: bool)
    requires IsBytes(raw) && !reader.Tensorrt? && Lists(keys, Parse(reader, raw))
    ensures Parse(reader, Render(isPrint, keys, Parse(reader, raw), alwaysNewline)) == Parse(reader, raw)
  {
    ParseGood(reader, raw);
    ParseRender(reader, isPrint, keys, Parse(reader, raw), alwaysNewline);
  }
}
