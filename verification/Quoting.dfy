/**
 Quoting for the shell and for XML, each against a reader of the quoted text.
 */
module Quoting {
  import opened Basics

  // strings.ReplaceAll for a single character.
  function Replace(s: string, c: char, sub: string): string {
    if s == "" then "" else (if s[0] == c then sub else [s[0]]) + Replace(s[1..], c, sub)
  }

  lemma {:induction false} ReplaceConcat(a: string, b: string, c: char, sub: string)
    ensures Replace(a + b, c, sub) == Replace(a, c, sub) + Replace(b, c, sub)
  {
    if a == "" {
      assert a + b == b;
    } else {
      assert (a + b)[1..] == a[1..] + b;
      ReplaceConcat(a[1..], b, c, sub);
      ConcatAssociates(if a[0] == c then sub else [a[0]], Replace(a[1..], c, sub), Replace(b, c, sub));
    }
  }

  lemma {:induction false} ReplaceAbsent(s: string, c: char, sub: string)
    requires c !in s
    ensures Replace(s, c, sub) == s
  {
    if s != "" { ReplaceAbsent(s[1..], c, sub); }
  }

  // ------------------------------------------------------------- shell

  const QUOTE: char := '\''
  const QUOTED_QUOTE := "'\"'\"'"

  function ShellQuote(value: string): string { "'" + Replace(value, QUOTE, QUOTED_QUOTE) + "'" }

  datatype Mode = Between | Bare | Single | Double

  predicate IsBlank(c: char) { c == ' ' || c == '\t' }

  // Characters that mean something to the shell outside quotes, besides blanks and quotes.
  predicate IsSpecial(c: char) {
    c in {'\n', '\\', '$', '`', '|', '&', ';', '<', '>', '(', ')', '*', '?', '[', '#', '~', '=', '%'} || c == NUL
  }

  /**
   The words of a command line made of blanks, literal characters and single- and double-quoted stretches
   (sections 2.2.2 and 2.2.3 of the POSIX Shell Command Language). None stands for anything beyond that:
   operators, expansions, escapes, an unterminated quote, or a NUL.
   */
  function Lex(s: string, mode: Mode, word: string): Option<seq<string>>
    decreases |s|, if mode == Between then 1 else 0
  {
    if s == "" then
      match mode
      case Between => Some([])
      case Bare => Some([word])
      case Single => None
      case Double => None
    else
      var (c, rest) := (s[0], s[1..]);
      match mode
      case Between => if IsBlank(c) then Lex(rest, Between, "") else Lex(s, Bare, "")
      case Bare =>
        if IsBlank(c) then Prepend(word, Lex(rest, Between, ""))
        else if c == QUOTE then Lex(rest, Single, word)
        else if c == '"' then Lex(rest, Double, word)
        else if IsSpecial(c) then None
        else Lex(rest, Bare, word + [c])
      case Single =>
        if c == QUOTE then Lex(rest, Bare, word)
        else if c == NUL then None
        else Lex(rest, Single, word + [c])
      case Double =>
        if c == '"' then Lex(rest, Bare, word)
        else if c in {'$', '`', '\\'} || c == NUL then None
        else Lex(rest, Double, word + [c])
  }

  function Prepend(word: string, words: Option<seq<string>>): Option<seq<string>> {
    if words.None? then None else Some([word] + words.value)
  }

  function Words(s: string): Option<seq<string>> { Lex(s, Between, "") }

  // One quoted quote, read from inside a single-quoted stretch.
  lemma LexQuotedQuote(rest: string, word: string)
    ensures Lex(QUOTED_QUOTE + rest, Single, word) == Lex(rest, Single, word + [QUOTE])
  {
    var s := QUOTED_QUOTE + rest;
    assert s[1..][0] == '"' && s[1..][1..] == s[2..];
    assert s[2..][0] == QUOTE && s[2..][1..] == s[3..];
    assert s[3..][0] == '"' && s[3..][1..] == s[4..];
    assert s[4..][0] == QUOTE && s[4..][1..] == rest;
    assert Lex(s, Single, word) == Lex(s[1..], Bare, word);
    assert Lex(s[1..], Bare, word) == Lex(s[2..], Double, word);
    assert Lex(s[2..], Double, word) == Lex(s[3..], Double, word + [QUOTE]);
    assert Lex(s[3..], Double, word + [QUOTE]) == Lex(s[4..], Bare, word + [QUOTE]);
  }

  // A replaced stretch adds exactly its original to the word.
  lemma {:induction false} LexBody(value: string, rest: string, word: string)
    requires NUL !in value
    ensures Lex(Replace(value, QUOTE, QUOTED_QUOTE) + rest, Single, word) == Lex(rest, Single, word + value)
    decreases |value|
  {
    if value == "" {
      assert Replace(value, QUOTE, QUOTED_QUOTE) + rest == rest && word + value == word;
    } else {
      var (c, body) := (value[0], Replace(value[1..], QUOTE, QUOTED_QUOTE));
      LexBody(value[1..], rest, word + [c]);
      assert (word + [c]) + value[1..] == word + value;
      if c == QUOTE {
        ConcatAssociates(QUOTED_QUOTE, body, rest);
        LexQuotedQuote(body + rest, word);
      } else {
        ConcatAssociates([c], body, rest);
        assert ([c] + (body + rest))[1..] == body + rest;
      }
    }
  }

  // A quoted value, read where a word may start, is that value, and the word goes on with what follows.
  lemma LexQuoted(value: string, rest: string)
    requires NUL !in value
    ensures Lex(ShellQuote(value) + rest, Between, "") == Lex(rest, Bare, value)
  {
    var body := Replace(value, QUOTE, QUOTED_QUOTE);
    var s := ShellQuote(value) + rest;
    assert s[0] == QUOTE && s[1..] == body + ("'" + rest);
    assert Lex(s, Between, "") == Lex(s, Bare, "") == Lex(s[1..], Single, "");
    LexBody(value, "'" + rest, "");
    assert "" + value == value;
    assert ("'" + rest)[1..] == rest;
  }

  function CommandLine(args: seq<string>): string {
    if args == [] then ""
    else if |args| == 1 then ShellQuote(args[0])
    else ShellQuote(args[0]) + (" " + CommandLine(args[1..]))
  }

  /** A command line of quoted arguments is read as exactly those arguments. */
  lemma {:induction false} QuotedArguments(args: seq<string>)
    requires forall a :: a in args ==> NUL !in a
    ensures Words(CommandLine(args)) == Some(args)
  {
    if |args| == 1 {
      assert ShellQuote(args[0]) + "" == ShellQuote(args[0]) && args == [args[0]];
      LexQuoted(args[0], "");
    } else if |args| > 1 {
      QuotedArguments(args[1..]);
      var rest := " " + CommandLine(args[1..]);
      LexQuoted(args[0], rest);
      assert rest[1..] == CommandLine(args[1..]);
      assert args == [args[0]] + args[1..];
    }
  }

  // A NUL inside single quotes stops the reader.
  lemma {:induction false} LexNul(value: string, rest: string, word: string)
    requires NUL in value
    ensures Lex(Replace(value, QUOTE, QUOTED_QUOTE) + rest, Single, word) == None
    decreases |value|
  {
    var (c, body) := (value[0], Replace(value[1..], QUOTE, QUOTED_QUOTE));
    if c == QUOTE {
      LexNul(value[1..], rest, word + [c]);
      ConcatAssociates(QUOTED_QUOTE, body, rest);
      LexQuotedQuote(body + rest, word);
    } else {
      ConcatAssociates([c], body, rest);
      assert ([c] + (body + rest))[1..] == body + rest;
      if c != NUL { LexNul(value[1..], rest, word + [c]); }
    }
  }

  /** A quoted value is one word, itself, if and only if it has no NUL. */
  lemma QuotedIsOneWord(value: string)
    ensures Words(ShellQuote(value)) == Some([value]) <==> NUL !in value
  {
    if NUL in value {
      var s := ShellQuote(value);
      assert s[0] == QUOTE && s[1..] == Replace(value, QUOTE, QUOTED_QUOTE) + "'";
      assert Lex(s, Between, "") == Lex(s, Bare, "") == Lex(s[1..], Single, "");
      LexNul(value, "'", "");
    } else {
      QuotedArguments([value]);
    }
  }

  // --------------------------------------------------------------- XML

  function XmlEscape(value: string): string {
    var a := Replace(value, '&', "&amp;");
    var b := Replace(a, '<', "&lt;");
    var c := Replace(b, '>', "&gt;");
    var d := Replace(c, '"', "&quot;");
    Replace(d, '\'', "&apos;")
  }

  function Entity(c: char): string {
    if c == '&' then "&amp;"
    else if c == '<' then "&lt;"
    else if c == '>' then "&gt;"
    else if c == '"' then "&quot;"
    else if c == '\'' then "&apos;"
    else [c]
  }

  function EscapeOnce(value: string): string {
    if value == "" then "" else Entity(value[0]) + EscapeOnce(value[1..])
  }

  // The five passes on a concatenation.
  lemma EscapeConcat(a: string, b: string)
    ensures XmlEscape(a + b) == XmlEscape(a) + XmlEscape(b)
  {
    ReplaceConcat(a, b, '&', "&amp;");
    var (a1, b1) := (Replace(a, '&', "&amp;"), Replace(b, '&', "&amp;"));
    ReplaceConcat(a1, b1, '<', "&lt;");
    var (a2, b2) := (Replace(a1, '<', "&lt;"), Replace(b1, '<', "&lt;"));
    ReplaceConcat(a2, b2, '>', "&gt;");
    var (a3, b3) := (Replace(a2, '>', "&gt;"), Replace(b2, '>', "&gt;"));
    ReplaceConcat(a3, b3, '"', "&quot;");
    ReplaceConcat(Replace(a3, '"', "&quot;"), Replace(b3, '"', "&quot;"), '\'', "&apos;");
  }

  lemma ReplaceOne(c: char, d: char, sub: string)
    ensures Replace([c], d, sub) == if c == d then sub else [c]
  {
    assert [c][1..] == "" && sub + "" == sub && [c] + "" == [c];
  }

  // The passes after the first, after the second and so on leave alone what has none of their characters.
  lemma LastPass(e: string)
    requires '\'' !in e
    ensures Replace(e, '\'', "&apos;") == e
  {
    ReplaceAbsent(e, '\'', "&apos;");
  }

  lemma LastTwoPasses(e: string)
    requires '"' !in e && '\'' !in e
    ensures Replace(Replace(e, '"', "&quot;"), '\'', "&apos;") == e
  {
    ReplaceAbsent(e, '"', "&quot;");
    LastPass(e);
  }

  lemma LastThreePasses(e: string)
    requires '>' !in e && '"' !in e && '\'' !in e
    ensures Replace(Replace(Replace(e, '>', "&gt;"), '"', "&quot;"), '\'', "&apos;") == e
  {
    ReplaceAbsent(e, '>', "&gt;");
    LastTwoPasses(e);
  }

  lemma LastFourPasses(e: string)
    requires '<' !in e && '>' !in e && '"' !in e && '\'' !in e
    ensures Replace(Replace(Replace(Replace(e, '<', "&lt;"), '>', "&gt;"), '"', "&quot;"), '\'', "&apos;") == e
  {
    ReplaceAbsent(e, '<', "&lt;");
    LastThreePasses(e);
  }

  lemma EscapeOther(c: char)
    requires c !in {'&', '<', '>', '"', '\''}
    ensures XmlEscape([c]) == [c]
  {
    ReplaceAbsent([c], '&', "&amp;");
    ReplaceAbsent([c], '<', "&lt;");
    ReplaceAbsent([c], '>', "&gt;");
    ReplaceAbsent([c], '"', "&quot;");
    ReplaceAbsent([c], '\'', "&apos;");
  }

  // No pass touches what an earlier one has put in.
  lemma EscapeOne(c: char)
    ensures XmlEscape([c]) == Entity(c)
  {
    var e := Entity(c);
    ReplaceOne(c, '&', "&amp;");
    ReplaceOne(c, '<', "&lt;");
    ReplaceOne(c, '>', "&gt;");
    ReplaceOne(c, '"', "&quot;");
    ReplaceOne(c, '\'', "&apos;");
    if c == '&' { LastFourPasses(e); }
    else if c == '<' { LastThreePasses(e); }
    else if c == '>' { LastTwoPasses(e); }
    else if c == '"' { LastPass(e); }
    else if c != '\'' { EscapeOther(c); }
  }

  /** The five chained replacements are one pass over the text. */
  lemma {:induction false} EscapeIsOnePass(value: string)
    ensures XmlEscape(value) == EscapeOnce(value)
  {
    if value != "" {
      EscapeOne(value[0]);
      EscapeIsOnePass(value[1..]);
      EscapeConcat([value[0]], value[1..]);
      assert value == [value[0]] + value[1..];
    }
  }

  // What an XML reader makes of character data: the five predefined entities, and nothing else special.
  function Unescape(s: string): Option<string> {
    if s == "" then Some("")
    else if "&amp;" <= s then Cons('&', Unescape(s[5..]))
    else if "&lt;" <= s then Cons('<', Unescape(s[4..]))
    else if "&gt;" <= s then Cons('>', Unescape(s[4..]))
    else if "&quot;" <= s then Cons('"', Unescape(s[6..]))
    else if "&apos;" <= s then Cons('\'', Unescape(s[6..]))
    else if s[0] == '&' || s[0] == '<' then None
    else Cons(s[0], Unescape(s[1..]))
  }

  function Cons(c: char, s: Option<string>): Option<string> {
    if s.None? then None else Some([c] + s.value)
  }

  lemma UnescapeEntity(c: char, rest: string)
    ensures Unescape(Entity(c) + rest) == Cons(c, Unescape(rest))
  {
    var e, s := Entity(c), Entity(c) + rest;
    assert s[|e|..] == rest && s[0] == e[0];
    if |e| > 1 { assert s[1] == e[1] && s[2] == e[2]; }
  }

  /** Escaped text reads back as the original. */
  lemma {:induction false} UnescapeEscape(value: string)
    ensures Unescape(XmlEscape(value)) == Some(value)
  {
    EscapeIsOnePass(value);
    if value != "" {
      UnescapeEscape(value[1..]);
      EscapeIsOnePass(value[1..]);
      UnescapeEntity(value[0], EscapeOnce(value[1..]));
      assert value == [value[0]] + value[1..];
    }
  }

  /** Escaped text can stand in an element or between either kind of quotes. */
  lemma EscapedIsInert(value: string)
    ensures forall c :: c in {'<', '>', '"', '\''} ==> c !in XmlEscape(value)
  {
    EscapeIsOnePass(value);
    OnePassIsInert(value);
  }

  lemma {:induction false} OnePassIsInert(value: string)
    ensures forall c :: c in {'<', '>', '"', '\''} ==> c !in EscapeOnce(value)
  {
    if value != "" { OnePassIsInert(value[1..]); }
  }
}
