/**
 The Goose reply stream: a line reader for server-sent events, the deltas of a growing text, and the log of
 tool actions.
 */
module Goose {
  import opened Basics
  import opened GoStrings

  // ---------------------------------------------------------- line reader

  function TrimEnd(s: string): string {
    if s != "" && s[|s| - 1] in {'\r', '\n'} then TrimEnd(s[..|s| - 1]) else s
  }

  const DATA := "data:"

  predicate IsData(line: string) { DATA <= line }

  // The data lines collected so far, and the payloads handed on.
  datatype Reader = Reader(pending: seq<string>, payloads: seq<string>)

  function Flush(r: Reader): Reader {
    var payload := Join(r.pending, '\n');
    Reader([], if r.pending == [] || Blank(payload) then r.payloads else r.payloads + [payload])
  }

  function OnLine(r: Reader, raw: string): Reader {
    var line := TrimEnd(raw);
    if IsData(line) then r.(pending := r.pending + [TrimSpace(line[|DATA|..])])
    else if line == "" then Flush(r)
    else r
  }

  // The lines in order; the last one ends at the end of the stream, which flushes.
  function OnLines(r: Reader, lines: seq<string>): Reader
    decreases |lines|
  {
    if lines == [] then Flush(r) else OnLines(OnLine(r, lines[0]), lines[1..])
  }

  function Payloads(lines: seq<string>): seq<string> { OnLines(Reader([], []), lines).payloads }

  lemma LastLineAtNewline(r: Reader, line: string)
    ensures OnLine(r, line + "\n") == OnLine(r, line)
  {
    assert (line + "\n")[..|line|] == line;
  }

  // One turn of the reading loop: the line that ends the stream, or one line off the front of what is left to read.
  lemma LastLine(r: Reader, rest: string)
    requires IndexOf(rest, '\n') == |rest|
    ensures OnLines(r, Split(rest, '\n')) == Flush(OnLine(r, rest))
  {
    var none: seq<string> := [];
    assert [rest][1..] == none;
    assert OnLines(r, [rest]) == OnLines(OnLine(r, rest), none);
  }

  lemma NextLine(r: Reader, rest: string)
    requires IndexOf(rest, '\n') < |rest|
    ensures var i := IndexOf(rest, '\n');
            OnLines(r, Split(rest, '\n')) == OnLines(OnLine(r, rest[..i]), Split(rest[i + 1..], '\n'))
  {
    var i := IndexOf(rest, '\n');
    var tail := Split(rest[i + 1..], '\n');
    assert Split(rest, '\n') == [rest[..i]] + tail;
    assert ([rest[..i]] + tail)[1..] == tail;
  }

  lemma WithNewline(r: Reader, rest: string, i: nat)
    requires i < |rest| && rest[i] == '\n'
    ensures OnLine(r, rest[..i + 1]) == OnLine(r, rest[..i])
  {
    LastLineAtNewline(r, rest[..i]);
    assert rest[..i + 1] == rest[..i] + "\n";
  }

  /** The reader takes the stream apart at its newlines, however long the lines are. */
  method ConsumeReplyStream(stream: string) returns (payloads: seq<string>)
    ensures payloads == Payloads(Split(stream, '\n'))
  {
    var r, rest := Reader([], []), stream;
    while true
      invariant OnLines(r, Split(rest, '\n')).payloads == Payloads(Split(stream, '\n'))
      decreases |rest|
    {
      var i := IndexOf(rest, '\n');
      if i == |rest| {
        LastLine(r, rest);
        r := Flush(OnLine(r, rest));
        return r.payloads;
      }
      NextLine(r, rest);
      WithNewline(r, rest, i);
      r, rest := OnLine(r, rest[..i + 1]), rest[i + 1..];
    }
  }

  // ------------------------------------------------- server-sent events

  // A line of the format, and how it is written: with or without the space after the colon, ended LF or CRLF.
  datatype Line = Data(text: string) | Other(text: string) | Empty

  datatype Written = Written(line: Line, space: bool, crlf: bool)

  predicate WellFormed(l: Line) {
    match l
    case Data(t) => TrimSpace(t) == t && '\n' !in t
    case Other(t) => t != "" && !IsData(t) && '\n' !in t && t[|t| - 1] != '\r'
    case Empty => true
  }

  function Text(w: Written): string {
    match w.line
    case Data(t) => DATA + (if w.space then " " else "") + t
    case Other(t) => t
    case Empty => ""
  }

  // One line without its final newline.
  function Bytes(w: Written): string { Text(w) + if w.crlf then "\r" else "" }

  function Encode(ws: seq<Written>): seq<string> { seq(|ws|, i requires 0 <= i < |ws| => Bytes(ws[i])) }

  // The events the format defines: per stretch between empty lines, its data texts joined by newlines. An event
  // that is blank is no event; one still open at the end of the stream counts.
  function DataOf(lines: seq<Line>): seq<string> {
    if lines == [] then []
    else if lines[0].Data? then [lines[0].text] + DataOf(lines[1..])
    else DataOf(lines[1..])
  }

  function Stretch(lines: seq<Line>): (n: nat)
    ensures n <= |lines| && (n < |lines| ==> lines[n].Empty?)
    ensures forall k :: 0 <= k < n ==> !lines[k].Empty?
  {
    if lines == [] || lines[0].Empty? then 0 else 1 + Stretch(lines[1..])
  }

  function Event(texts: seq<string>): seq<string> {
    if Blank(Join(texts, '\n')) then [] else [Join(texts, '\n')]
  }

  function Events(lines: seq<Line>): seq<string> {
    var n := Stretch(lines);
    Event(DataOf(lines[..n])) + if n == |lines| then [] else Events(lines[n + 1..])
  }

  function LinesOf(ws: seq<Written>): seq<Line> { seq(|ws|, i requires 0 <= i < |ws| => ws[i].line) }

  // ---------------------------------------------- the reader meets the format

  lemma TrimEndStops(s: string)
    requires s == "" || s[|s| - 1] !in {'\r', '\n'}
    ensures TrimEnd(s) == s && TrimEnd(s + "\r") == s
  {
    assert (s + "\r")[..|s|] == s;
  }

  // A trimmed text does not end in a carriage return, and one space before it is trimmed away.
  lemma TrimmedText(t: string)
    requires TrimSpace(t) == t
    ensures t == "" || t[|t| - 1] !in {'\r', '\n'}
    ensures TrimSpace(" " + t) == t
  {
    TrimSpaceTrims(t);
    TrimPadded(t);
  }

  lemma OnWritten(r: Reader, w: Written)
    requires WellFormed(w.line)
    ensures OnLine(r, Bytes(w)) == match w.line
                                   case Data(t) => r.(pending := r.pending + [t])
                                   case Other(_) => r
                                   case Empty => Flush(r)
  {
    var line := Text(w);
    if w.line.Data? { DataWritten(w); }
    TrimEndStops(line);
    assert line + "" == line;
  }

  lemma DataWritten(w: Written)
    requires WellFormed(w.line) && w.line.Data?
    ensures var line := Text(w);
            && DATA <= line && line[|line| - 1] !in {'\r', '\n'} && TrimSpace(line[|DATA|..]) == w.line.text
  {
    TrimmedText(w.line.text);
    assert Text(w)[|DATA|..] == (if w.space then " " else "") + w.line.text;
  }

  // Flushing delivers what the format calls the event of the pending texts.
  lemma FlushIsEvent(r: Reader)
    ensures Flush(r) == Reader([], r.payloads + Event(r.pending))
  {
  }

  // What comes after the first n lines and the empty one behind them.
  function Tail(lines: seq<Line>, n: nat): seq<string>
    requires n <= |lines|
  {
    if n == |lines| then [] else Events(lines[n + 1..])
  }

  // What is still to come: the pending event with the data up to the next empty line, then the rest.
  function Remaining(r: Reader, lines: seq<Line>): seq<string> {
    var n := Stretch(lines);
    r.payloads + Event(r.pending + DataOf(lines[..n])) + Tail(lines, n)
  }

  lemma {:induction false} ReaderFollows(r: Reader, ws: seq<Written>)
    requires forall w :: w in ws ==> WellFormed(w.line)
    ensures OnLines(r, Encode(ws)).payloads == Remaining(r, LinesOf(ws))
    decreases |ws|
  {
    var lines := LinesOf(ws);
    if ws == [] {
      assert r.pending + DataOf(lines[..0]) == r.pending;
      FlushIsEvent(r);
    } else {
      OnWritten(r, ws[0]);
      assert Encode(ws)[1..] == Encode(ws[1..]);
      assert LinesOf(ws[1..]) == lines[1..];
      ReaderFollows(OnLine(r, Bytes(ws[0])), ws[1..]);
      if lines[0].Empty? {
        FlushIsEvent(r);
        FollowsEmpty(r, lines);
      } else {
        FollowsLine(r, OnLine(r, Bytes(ws[0])), lines);
      }
    }
  }

  // At an empty line the pending event goes out and the rest is on its own.
  lemma FollowsEmpty(r: Reader, lines: seq<Line>)
    requires lines != [] && lines[0].Empty?
    ensures Remaining(Reader([], r.payloads + Event(r.pending)), lines[1..]) == Remaining(r, lines)
  {
    var rest := lines[1..];
    var texts := DataOf(rest[..Stretch(rest)]);
    assert r.pending + DataOf(lines[..0]) == r.pending;
    assert [] + texts == texts;
    assert Remaining(r, lines) == r.payloads + Event(r.pending) + Events(rest);
    assert Events(rest) == Event(texts) + Tail(rest, Stretch(rest));
    ConcatAssociates(r.payloads + Event(r.pending), Event(texts), Tail(rest, Stretch(rest)));
  }

  // Any other line only adds its data to the pending event.
  // A data line's text joins those pending.
  lemma PendingNext(pending: seq<string>, lines: seq<Line>, m: nat)
    requires m < |lines|
    ensures pending + DataOf(lines[..m + 1])
            == (if lines[0].Data? then pending + [lines[0].text] else pending) + DataOf(lines[1..][..m])
  {
    var first := lines[..m + 1];
    assert first[1..] == lines[1..][..m] && first[0] == lines[0];
    if lines[0].Data? { ConcatAssociates(pending, [lines[0].text], DataOf(first[1..])); }
  }

  lemma TailNext(lines: seq<Line>, m: nat)
    requires m < |lines|
    ensures Tail(lines[1..], m) == Tail(lines, m + 1)
  {
    if m + 1 < |lines| { assert lines[1..][m + 1..] == lines[m + 2..]; }
  }

  lemma FollowsLine(r: Reader, r': Reader, lines: seq<Line>)
    requires lines != [] && !lines[0].Empty?
    requires r' == if lines[0].Data? then r.(pending := r.pending + [lines[0].text]) else r
    ensures Remaining(r', lines[1..]) == Remaining(r, lines)
  {
    var rest := lines[1..];
    var m := Stretch(rest);
    assert Stretch(lines) == m + 1;
    PendingNext(r.pending, lines, m);
    TailNext(lines, m);
  }

  /**
   For every list of lines, whatever the spaces after the colons and the line ends, the reader delivers exactly
   the events of the format, in order, and ignores all other fields.
   */
  lemma ReaderDeliversEvents(ws: seq<Written>)
    requires forall w :: w in ws ==> WellFormed(w.line)
    ensures Payloads(Split(Join(Encode(ws), '\n'), '\n')) == Events(LinesOf(ws))
    decreases ws == []
  {
    if ws == [] {
      var blank := [Written(Empty, false, false)];
      ReaderDeliversEvents(blank);
      NoEvents(blank);
      return;
    }
    EncodedLines(ws);
    SplitJoin(Encode(ws), '\n');
    ReaderFollows(Reader([], []), ws);
    FromTheStart(LinesOf(ws));
  }

  // The empty stream is one empty line, and has no events.
  lemma NoEvents(blank: seq<Written>)
    requires blank == [Written(Empty, false, false)]
    ensures Encode(blank) == [""] && Join(Encode(blank), '\n') == "" == Join(Encode([]), '\n')
    ensures Events(LinesOf(blank)) == Events(LinesOf([]))
  {
    assert Bytes(blank[0]) == "";
    var lines := LinesOf(blank);
    assert lines == [Empty] && lines[1..] == LinesOf([]) && lines[..0] == [] && LinesOf([])[..0] == [];
  }

  lemma EncodedLines(ws: seq<Written>)
    requires forall w :: w in ws ==> WellFormed(w.line)
    ensures forall p :: p in Encode(ws) ==> '\n' !in p
  {
    forall i: nat | i < |ws| ensures '\n' !in Bytes(ws[i]) { assert ws[i] in ws; }
  }

  lemma FromTheStart(lines: seq<Line>)
    ensures Remaining(Reader([], []), lines) == Events(lines)
  {
    var texts := DataOf(lines[..Stretch(lines)]);
    assert [] + texts == texts && [] + Event(texts) == Event(texts);
  }

  // ----------------------------------------------------- deltas of a text

  function ContentDelta(previous: string, next: string): string {
    var (p, n) := (TrimSpace(previous), TrimSpace(next));
    if n == "" then ""
    else if p == "" then n
    else if p <= n then n[|p|..]
    else if n == p then ""
    else n
  }

  // The deltas emitted for a run of assistant texts, one after another.
  function Emitted(texts: seq<string>): string {
    if texts == [] then "" else
    var front, next := texts[..|texts| - 1], texts[|texts| - 1];
    Emitted(front) + ContentDelta(if front == [] then "" else front[|front| - 1], next)
  }

  // Assistant texts reach the state trimmed and non-empty.
  predicate Texts(texts: seq<string>) { forall t :: t in texts ==> t != "" && Trimmed(t) }

  // Every text extends the one before.
  predicate Extends(texts: seq<string>) {
    var n := |texts|;
    n <= 1 || (Extends(texts[..n - 1]) && texts[n - 2] <= texts[n - 1])
  }

  // A delta of trimmed texts: what the text grew by, or the whole text.
  function Growth(last: string, next: string): string { if last <= next then next[|last|..] else next }

  function Grow(texts: seq<string>): string {
    if texts == [] then "" else
    var n := |texts| - 1;
    Grow(texts[..n]) + Growth(if n == 0 then "" else texts[n - 1], texts[n])
  }

  lemma DeltaIsGrowth(last: string, next: string)
    requires Trimmed(last) && Trimmed(next) && next != ""
    ensures ContentDelta(last, next) == Growth(last, next)
  {
  }

  lemma {:induction false} EmittedIsGrow(texts: seq<string>)
    requires Texts(texts)
    ensures Emitted(texts) == Grow(texts)
    decreases |texts|
  {
    if texts != [] {
      var n := |texts| - 1;
      assert texts[n] in texts && (n > 0 ==> texts[n - 1] in texts);
      assert forall t :: t in texts[..n] ==> t in texts;
      EmittedIsGrow(texts[..n]);
      DeltaIsGrowth(if n == 0 then "" else texts[n - 1], texts[n]);
    }
  }

  // The latest text, or more of it than there should be.
  ghost predicate Spells(grown: string, last: string, exact: bool) {
    if exact then grown == last else |grown| > |last|
  }

  lemma SpellsNext(grown: string, last: string, next: string, exact: bool)
    requires Spells(grown, last, exact) && last != ""
    ensures Spells(grown + Growth(last, next), next, exact && last <= next)
  {
  }

  // What one more text does to both.
  lemma GrowNext(front: seq<string>, last: string, next: string)
    ensures Grow(front + [last] + [next]) == Grow(front + [last]) + Growth(last, next)
    ensures Extends(front + [last] + [next]) <==> Extends(front + [last]) && last <= next
  {
    var shorter := front + [last];
    assert (shorter + [next])[..|shorter|] == shorter && shorter[|front|] == last;
  }

  lemma OneText(text: string)
    ensures Grow([text]) == text && Extends([text])
  {
    assert [text][..0] == [];
  }

  lemma {:induction false} GrowSpells(front: seq<string>, next: string, texts: seq<string>)
    requires texts == front + [next] && next != "" && "" !in front
    ensures Spells(Grow(texts), next, Extends(texts))
    decreases |front|
  {
    if front == [] {
      assert texts == [next];
      OneText(next);
    } else {
      var n := |front| - 1;
      GrowSpells(front[..n], front[n], front);
      assert texts == front[..n] + [front[n]] + [next];
      GrowNext(front[..n], front[n], next);
      SpellsNext(Grow(front), front[n], next, Extends(front));
    }
  }

  lemma FrontAndLast(texts: seq<string>, n: nat)
    requires n + 1 == |texts| && "" !in texts
    ensures texts == texts[..n] + [texts[n]] && texts[n] != "" && "" !in texts[..n]
  {
    assert texts[n] in texts;
  }

  lemma AllGrowSpells(texts: seq<string>, front: seq<string>, last: string)
    requires texts == front + [last] && last != "" && "" !in front && Texts(texts)
    ensures Emitted(texts) == last <==> Extends(texts)
  {
    EmittedIsGrow(texts);
    GrowSpells(front, last, texts);
    assert Spells(Emitted(texts), last, Extends(texts));
  }

  /** What has been emitted spells the latest text exactly when every text has extended the one before. */
  lemma DeltasSpellTheText(texts: seq<string>)
    requires Texts(texts) && texts != []
    ensures Emitted(texts) == texts[|texts| - 1] <==> Extends(texts)
  {
    var n := |texts| - 1;
    FrontAndLast(texts, n);
    AllGrowSpells(texts, texts[..n], texts[n]);
  }

  // --------------------------------------------------------- tool actions

  function AppendAction(actions: seq<string>, next: string): seq<string> {
    var n := TrimSpace(next);
    if n == "" then actions
    else if actions != [] && actions[|actions| - 1] == n then actions
    else actions + [n]
  }

  function AppendActions(actions: seq<string>, nexts: seq<string>): seq<string> {
    if nexts == [] then actions
    else AppendAction(AppendActions(actions, nexts[..|nexts| - 1]), nexts[|nexts| - 1])
  }

  // The trimmed names that are not blank.
  function Named(nexts: seq<string>): seq<string> {
    if nexts == [] then [] else
    var front, n := Named(nexts[..|nexts| - 1]), TrimSpace(nexts[|nexts| - 1]);
    if n == "" then front else front + [n]
  }

  // The first of each run of equal names.
  function RunHeads(names: seq<string>): seq<string> {
    if names == [] then [] else
    var k := |names| - 1;
    if k > 0 && names[k] == names[k - 1] then RunHeads(names[..k]) else RunHeads(names[..k]) + [names[k]]
  }

  predicate NoRepeats(actions: seq<string>) {
    && (forall a :: a in actions ==> a != "" && TrimSpace(a) == a)
    && forall i :: 0 < i < |actions| ==> actions[i] != actions[i - 1]
  }

  lemma {:induction false} RunHeadsEnds(names: seq<string>)
    ensures names != [] ==> RunHeads(names) != [] && RunHeads(names)[|RunHeads(names)| - 1] == names[|names| - 1]
    decreases |names|
  {
    if |names| > 1 { RunHeadsEnds(names[..|names| - 1]); }
  }

  /** The log is what its inputs amount to: their names, with each run of equal ones cut to one entry. */
  lemma {:induction false} ActionsAreRunHeads(nexts: seq<string>)
    ensures AppendActions([], nexts) == RunHeads(Named(nexts))
    decreases |nexts|
  {
    if nexts != [] {
      var front, n := nexts[..|nexts| - 1], TrimSpace(nexts[|nexts| - 1]);
      ActionsAreRunHeads(front);
      if n != "" {
        RunHeadsEnds(Named(front));
        assert Named(nexts)[..|Named(front)|] == Named(front);
      }
    }
  }

  /** Never blank, never the same twice in a row. */
  lemma {:induction false} ActionsNeverRepeat(nexts: seq<string>)
    ensures NoRepeats(AppendActions([], nexts))
    decreases |nexts|
  {
    if nexts != [] {
      ActionsNeverRepeat(nexts[..|nexts| - 1]);
      TrimIdempotent(nexts[|nexts| - 1]);
    }
  }

  /** The state a stream updates, and what it emits. */
  class Execution {
    var lastText: string
    var toolActions: seq<string>
    var content: string               // the content events emitted so far, put together

    constructor ()
      ensures lastText == "" && toolActions == [] && content == ""
    { lastText, toolActions, content := "", [], ""; }

    /** A message event, its assistant text and tool actions extracted. */
    method OnMessage(text: string, actions: seq<string>)
      modifies this
      ensures lastText == if text == "" then old(lastText) else text
      ensures content == old(content) + if text == "" then "" else ContentDelta(old(lastText), text)
      ensures toolActions == AppendActions(old(toolActions), actions)
    {
      if text != "" {
        var delta := ContentDelta(lastText, text);
        lastText := text;
        if delta != "" { content := content + delta; }
      }
      for i := 0 to |actions|
        invariant toolActions == AppendActions(old(toolActions), actions[..i])
        invariant lastText == (if text == "" then old(lastText) else text)
        invariant content == old(content) + (if text == "" then "" else ContentDelta(old(lastText), text))
      {
        assert actions[..i + 1][..i] == actions[..i];
        toolActions := AppendAction(toolActions, actions[i]);
      }
      assert actions[..|actions|] == actions;
    }
  }
}
