/**
 The `%q` verb for strings and its inverse strconv.Unquote, on byte strings (section
 "String literals" of the Go specification), with UTF-8 decoding as Go does it.
 Which runes above ASCII are printable is Unicode data; it is the parameter `isPrint`.
 */
module GoQuote {
  import opened Basics
  import opened GoStrings

  // ------------------------------------------------------------------- UTF-8

  datatype Rune = Invalid | Rune(code: int, width: nat)

  predicate Cont(c: char) { 0x80 <= c as int < 0xC0 }

  predicate ValidRune(r: int) { 0 <= r < 0xD800 || 0xE000 <= r <= 0x10FFFF }

  predicate Seq3(s: string) {
    && |s| >= 3 && Cont(s[1]) && Cont(s[2])
    && 0xE0 <= s[0] as int <= 0xEF
    && (s[0] as int == 0xE0 ==> s[1] as int >= 0xA0)
    && (s[0] as int == 0xED ==> s[1] as int <= 0x9F)
  }

  predicate Seq4(s: string) {
    && |s| >= 4 && Cont(s[1]) && Cont(s[2]) && Cont(s[3])
    && 0xF0 <= s[0] as int <= 0xF4
    && (s[0] as int == 0xF0 ==> s[1] as int >= 0x90)
    && (s[0] as int == 0xF4 ==> s[1] as int <= 0x8F)
  }

  // The first rune of a non-empty text.
  function DecodeRune(s: string): Rune
    requires s != ""
  {
    var b := s[0] as int;
    if b < 0x80 then Rune(b, 1)
    else if 0xC2 <= b <= 0xDF && |s| >= 2 && Cont(s[1]) then Rune((b - 0xC0) * 64 + (s[1] as int - 0x80), 2)
    else if Seq3(s) then Rune((b - 0xE0) * 4096 + (s[1] as int - 0x80) * 64 + (s[2] as int - 0x80), 3)
    else if Seq4(s) then
      Rune((b - 0xF0) * 262144 + (s[1] as int - 0x80) * 4096 + (s[2] as int - 0x80) * 64 + (s[3] as int - 0x80), 4)
    else Invalid
  }

  function Byte(n: int): char
    requires 0 <= n < 256
  { n as char }

  function EncodeRune(r: int): string
    requires ValidRune(r)
  {
    if r < 0x80 then [Byte(r)]
    else if r < 0x800 then [Byte(0xC0 + r / 64), Byte(0x80 + r % 64)]
    else if r < 0x10000 then [Byte(0xE0 + r / 4096), Byte(0x80 + r / 64 % 64), Byte(0x80 + r % 64)]
    else [Byte(0xF0 + r / 262144), Byte(0x80 + r / 4096 % 64), Byte(0x80 + r / 64 % 64), Byte(0x80 + r % 64)]
  }

  lemma EncodeThree(x: int, y: int, z: int)
    requires 0 <= x < 16 && 0 <= y < 64 && 0 <= z < 64
    ensures var r := x * 4096 + y * 64 + z; r / 64 == x * 64 + y && r % 64 == z && r / 4096 == x && r / 64 % 64 == y
  {
  }

  lemma EncodeFour(x: int, y: int, z: int, u: int)
    requires 0 <= x < 8 && 0 <= y < 64 && 0 <= z < 64 && 0 <= u < 64
    ensures var r := x * 262144 + y * 4096 + z * 64 + u;
            r % 64 == u && r / 64 % 64 == z && r / 4096 % 64 == y && r / 262144 == x
  {
    var r := x * 262144 + y * 4096 + z * 64 + u;
    assert r / 64 == x * 4096 + y * 64 + z;
    assert r / 4096 == x * 64 + y;
  }

  lemma EncodeAfterDecode3(s: string)
    requires Seq3(s)
    ensures ValidRune(DecodeRune(s).code) && EncodeRune(DecodeRune(s).code) == s[..3]
  {
    EncodeThree(s[0] as int - 0xE0, s[1] as int - 0x80, s[2] as int - 0x80);
  }

  lemma EncodeAfterDecode4(s: string)
    requires Seq4(s)
    ensures ValidRune(DecodeRune(s).code) && EncodeRune(DecodeRune(s).code) == s[..4]
  {
    EncodeFour(s[0] as int - 0xF0, s[1] as int - 0x80, s[2] as int - 0x80, s[3] as int - 0x80);
  }

  lemma EncodeAfterDecode(s: string)
    requires s != "" && DecodeRune(s).Rune?
    ensures DecodeRune(s).width <= |s| && ValidRune(DecodeRune(s).code)
    ensures EncodeRune(DecodeRune(s).code) == s[..DecodeRune(s).width]
  {
    if Seq3(s) { EncodeAfterDecode3(s); } else if Seq4(s) { EncodeAfterDecode4(s); }
  }

  lemma DecodeLocal(s: string, t: string)
    requires s != "" && DecodeRune(s).Rune? && DecodeRune(s).width <= |s|
    ensures DecodeRune(s[..DecodeRune(s).width] + t) == DecodeRune(s)
  {
  }

  // --------------------------------------------------------------------- hex

  function HexDigit(d: int): char
    requires 0 <= d < 16
  {
    if d < 10 then Byte('0' as int + d) else Byte('a' as int + d - 10)
  }

  function HexValue(c: char): Option<int> {
    if '0' <= c <= '9' then Some(c as int - '0' as int)
    else if 'a' <= c <= 'f' then Some(c as int - 'a' as int + 10)
    else if 'A' <= c <= 'F' then Some(c as int - 'A' as int + 10)
    else None
  }

  function Hex(v: nat, digits: nat): (h: string)
    ensures |h| == digits
  {
    if digits == 0 then "" else Hex(v / 16, digits - 1) + [HexDigit(v % 16)]
  }

  function ParseHex(s: string): Option<int> {
    if s == "" then Some(0) else
    match (ParseHex(s[..|s| - 1]), HexValue(s[|s| - 1]))
    case (Some(hi), Some(d)) => Some(hi * 16 + d)
    case _ => None
  }

  function Pow16(n: nat): nat { if n == 0 then 1 else 16 * Pow16(n - 1) }

  lemma {:induction false} ParseHexOfHex(v: nat, digits: nat)
    requires v < Pow16(digits)
    ensures ParseHex(Hex(v, digits)) == Some(v)
  {
    if digits > 0 {
      ParseHexOfHex(v / 16, digits - 1);
      var h := Hex(v, digits);
      assert h[..digits - 1] == Hex(v / 16, digits - 1);
    }
  }

  // ------------------------------------------------------------------- quote

  // ASCII letters for the one-letter escapes, by code.
  function ShortEscape(r: int): Option<char> {
    if r == 7 then Some('a') else if r == 8 then Some('b') else if r == 12 then Some('f')
    else if r == 10 then Some('n') else if r == 13 then Some('r') else if r == 9 then Some('t')
    else if r == 11 then Some('v') else None
  }

  predicate Printable(isPrint: int -> bool, r: int) { if r < 0x80 then 0x20 <= r < 0x7F else isPrint(r) }

  function EscapeRune(isPrint: int -> bool, r: int, raw: string): string
    requires 0 <= r
  {
    if r == '"' as int || r == '\\' as int then "\\" + raw
    else if Printable(isPrint, r) then raw
    else if ShortEscape(r).Some? then ['\\', ShortEscape(r).value]
    else if r < 0x80 then "\\x" + Hex(r, 2)
    else if r < 0x10000 then "\\u" + Hex(r, 4)
    else "\\U" + Hex(r, 8)
  }

  // What `%q` writes for the first rune or invalid byte, and how many bytes that covers.
  function QuoteFirst(isPrint: int -> bool, s: string): (string, nat)
    requires s != ""
  {
    match DecodeRune(s)
    case Invalid => ("\\x" + Hex(s[0] as int, 2), 1)
    case Rune(r, w) => (EscapeRune(isPrint, r, s[..w]), w)
  }

  // What stands between the quotes.
  function QuoteBody(isPrint: int -> bool, s: string): string
    decreases |s|
  {
    if s == "" then "" else
    var (e, w) := QuoteFirst(isPrint, s);
    e + QuoteBody(isPrint, s[w..])
  }

  function Quote(isPrint: int -> bool, s: string): string { "\"" + QuoteBody(isPrint, s) + "\"" }

  lemma OneUnit(isPrint: int -> bool, s: string)
    requires s != "" && QuoteFirst(isPrint, s).1 == |s|
    ensures QuoteBody(isPrint, s) == QuoteFirst(isPrint, s).0
  {
    assert s[|s|..] == "";
  }

  /** How `%q` escapes: quote and backslash by a backslash, control characters by a letter, stray bytes in hex. */
  lemma QuoteExamples(isPrint: int -> bool)
    ensures QuoteBody(isPrint, "\"") == "\\\"" && QuoteBody(isPrint, "\\") == "\\\\"
    ensures QuoteBody(isPrint, "\n") == "\\n" && QuoteBody(isPrint, "\t") == "\\t"
    ensures QuoteBody(isPrint, "\r") == "\\r"
    ensures QuoteBody(isPrint, [255 as char]) == "\\xff"
  {
    OneUnit(isPrint, "\"");
    OneUnit(isPrint, "\\");
    OneUnit(isPrint, "\n");
    OneUnit(isPrint, "\t");
    OneUnit(isPrint, "\r");
    assert Hex(255, 2) == Hex(15, 1) + [HexDigit(15)] && Hex(15, 1) == Hex(0, 0) + [HexDigit(15)];
    OneUnit(isPrint, [255 as char]);
  }

  // ----------------------------------------------------------------- unquote

  predicate IsOctal(c: char) { '0' <= c <= '7' }

  function HexEscape(s: string, digits: nat, byte: bool): Option<(string, nat)>
    requires |s| >= 2
  {
    if |s| < 2 + digits then None else
    match ParseHex(s[2..2 + digits])
    case None => None
    case Some(v) =>
      if byte then (if 0 <= v < 256 then Some(([Byte(v)], 2 + digits)) else None)
      else if ValidRune(v) then Some((EncodeRune(v), 2 + digits)) else None
  }

  // The bytes the first character of the literal stands for, and how much of the literal it takes.
  function UnquoteChar(s: string, quote: char): Option<(string, nat)>
    requires s != ""
  {
    var c := s[0];
    if c == quote then None
    else if c as int >= 0x80 then
      (match DecodeRune(s)
       case Rune(r, w) => if ValidRune(r) then Some((EncodeRune(r), w)) else None
       case Invalid => Some((EncodeRune(0xFFFD), 1)))
    else if c != '\\' then Some(([c], 1))
    else if |s| < 2 then None
    else
      var e := s[1];
      if e == 'a' then Some(([Byte(7)], 2)) else if e == 'b' then Some(([Byte(8)], 2))
      else if e == 'f' then Some(([Byte(12)], 2)) else if e == 'n' then Some(([Byte(10)], 2))
      else if e == 'r' then Some(([Byte(13)], 2)) else if e == 't' then Some(([Byte(9)], 2))
      else if e == 'v' then Some(([Byte(11)], 2))
      else if e == 'x' then HexEscape(s, 2, true)
      else if e == 'u' then HexEscape(s, 4, false)
      else if e == 'U' then HexEscape(s, 8, false)
      else if IsOctal(e) then
        if |s| >= 4 && IsOctal(s[2]) && IsOctal(s[3]) then
          var v := (e as int - '0' as int) * 64 + (s[2] as int - '0' as int) * 8 + (s[3] as int - '0' as int);
          if v < 256 then Some(([Byte(v)], 4)) else None
        else None
      else if e == '\\' then Some((['\\'], 2))
      else if (e == '\'' || e == '"') && e == quote then Some(([e], 2))
      else None
  }

  // The rest of a double-quoted literal, closing quote included.
  function UnquoteDouble(s: string): Option<string>
    decreases |s|
  {
    if s == "" then None
    else if s[0] == '"' then (if |s| == 1 then Some("") else None)
    else if s[0] == '\n' then None
    else
      match UnquoteChar(s, '"')
      case None => None
      case Some((bytes, w)) =>
        if w == 0 || w > |s| then None else
        match UnquoteDouble(s[w..])
        case None => None
        case Some(rest) => Some(bytes + rest)
  }

  // The rest of a single-quoted literal: at most one character, then the closing quote.
  function UnquoteSingle(s: string): Option<string> {
    if s == "" then None
    else if s == "'" then Some("")
    else if s[0] == '\'' || s[0] == '\n' then None
    else
      match UnquoteChar(s, '\'')
      case None => None
      case Some((bytes, w)) => if w <= |s| && s[w..] == "'" then Some(bytes) else None
  }

  function DropCR(s: string): string {
    if s == "" then "" else (if s[0] == '\r' then "" else [s[0]]) + DropCR(s[1..])
  }

  function Unquote(s: string): Option<string> {
    if |s| < 2 then None
    else if s[0] == '`' then
      (if IndexOf(s[1..], '`') == |s| - 2 then Some(DropCR(s[1..|s| - 1])) else None)
    else if s[0] == '"' then UnquoteDouble(s[1..])
    else if s[0] == '\'' then UnquoteSingle(s[1..])
    else None
  }

  // -------------------------------------------------------------- round trip

  lemma UnquoteHexByte(v: nat, t: string)
    requires v < 256
    ensures UnquoteChar("\\x" + Hex(v, 2) + t, '"') == Some(([Byte(v)], 4))
  {
    var s := "\\x" + Hex(v, 2) + t;
    assert s[2..4] == Hex(v, 2);
    assert Pow16(2) == 256;
    ParseHexOfHex(v, 2);
  }

  lemma UnquoteHexRune(r: nat, t: string)
    requires ValidRune(r)
    ensures r < 0x10000 ==> UnquoteChar("\\u" + Hex(r, 4) + t, '"') == Some((EncodeRune(r), 6))
    ensures UnquoteChar("\\U" + Hex(r, 8) + t, '"') == Some((EncodeRune(r), 10))
  {
    assert Pow16(1) == 16 && Pow16(2) == 256 && Pow16(3) == 4096 && Pow16(4) == 0x10000;
    assert Pow16(5) == 0x100000 && Pow16(6) == 0x1000000 && Pow16(7) == 0x10000000 && Pow16(8) == 0x100000000;
    var s, s' := "\\u" + Hex(r, 4) + t, "\\U" + Hex(r, 8) + t;
    assert s[2..6] == Hex(r, 4) && s'[2..10] == Hex(r, 8);
    if r < 0x10000 { ParseHexOfHex(r, 4); }
    ParseHexOfHex(r, 8);
  }

  // Reading back what %q wrote for the first rune yields its bytes and nothing else.
  lemma UnquoteEscaped(isPrint: int -> bool, s: string, t: string)
    requires s != "" && DecodeRune(s).Rune?
    ensures var Rune(r, w) := DecodeRune(s);
            var e := EscapeRune(isPrint, r, s[..w]);
            && w <= |s| && e != "" && e[0] != '"' && e[0] != '\n'
            && UnquoteChar(e + t, '"') == Some((s[..w], |e|))
  {
    var Rune(r, w) := DecodeRune(s);
    EncodeAfterDecode(s);
    var raw := s[..w];
    var e := EscapeRune(isPrint, r, raw);
    if r == '"' as int || r == '\\' as int {
      assert e + t == ['\\', s[0]] + t;
    } else if Printable(isPrint, r) {
      DecodeLocal(s, t);
    } else if ShortEscape(r).Some? {
      assert e + t == ['\\', ShortEscape(r).value] + t;
    } else if r < 0x80 {
      UnquoteHexByte(r, t);
    } else {
      UnquoteHexRune(r, t);
    }
  }

  // One unit e of a literal, then the rest t.
  lemma UnquoteUnit(e: string, t: string, bytes: string)
    requires e != "" && e[0] != '"' && e[0] != '\n' && UnquoteChar(e + t, '"') == Some((bytes, |e|))
    ensures UnquoteDouble(e + t) == match UnquoteDouble(t) case None => None case Some(rest) => Some(bytes + rest)
  {
    assert (e + t)[|e|..] == t;
  }

  lemma UnquoteFirst(isPrint: int -> bool, s: string, t: string)
    requires IsBytes(s) && s != ""
    ensures var (e, w) := QuoteFirst(isPrint, s);
            && 0 < w <= |s| && e != "" && e[0] != '"' && e[0] != '\n'
            && UnquoteChar(e + t, '"') == Some((s[..w], |e|))
  {
    if DecodeRune(s).Invalid? {
      UnquoteHexByte(s[0] as int, t);
      assert s[..1] == [Byte(s[0] as int)];
    } else {
      UnquoteEscaped(isPrint, s, t);
    }
  }

  // The first unit of what %q prints for s, and what reading it leaves to read.
  lemma FirstUnitOf(isPrint: int -> bool, s: string) returns (e: string, w: nat)
    requires IsBytes(s) && s != ""
    ensures 0 < w <= |s| && QuoteBody(isPrint, s) == e + QuoteBody(isPrint, s[w..])
    ensures var t := QuoteBody(isPrint, s[w..]) + "\"";
            UnquoteDouble(e + t) == match UnquoteDouble(t) case None => None case Some(rest) => Some(s[..w] + rest)
  {
    var unit := QuoteFirst(isPrint, s);
    e, w := unit.0, unit.1;
    var t := QuoteBody(isPrint, s[w..]) + "\"";
    UnquoteFirst(isPrint, s, t);
    UnquoteUnit(e, t, s[..w]);
  }

  lemma {:induction false} UnquoteQuoteBody(isPrint: int -> bool, s: string)
    requires IsBytes(s)
    ensures UnquoteDouble(QuoteBody(isPrint, s) + "\"") == Some(s)
    decreases |s|
  {
    if s != "" {
      var e, w := FirstUnitOf(isPrint, s);
      UnquoteQuoteBody(isPrint, s[w..]);
      UnquoteOne(isPrint, s, e, w);
    }
  }

  lemma UnquoteOne(isPrint: int -> bool, s: string, e: string, w: nat)
    requires s != "" && 0 < w <= |s| && QuoteBody(isPrint, s) == e + QuoteBody(isPrint, s[w..])
    requires var rest := QuoteBody(isPrint, s[w..]) + "\"";
             UnquoteDouble(rest) == Some(s[w..])
             && UnquoteDouble(e + rest) == if UnquoteDouble(rest).Some? then Some(s[..w] + UnquoteDouble(rest).value)
                                          else None
    ensures UnquoteDouble(QuoteBody(isPrint, s) + "\"") == Some(s)
  {
    ConcatAssociates(e, QuoteBody(isPrint, s[w..]), "\"");
    assert s == s[..w] + s[w..];
  }

  /** Unquoting what `%q` prints gives the value back, for every byte string. */
  lemma UnquoteQuote(isPrint: int -> bool, s: string)
    requires IsBytes(s)
    ensures Unquote(Quote(isPrint, s)) == Some(s)
  {
    UnquoteQuoteBody(isPrint, s);
    assert Quote(isPrint, s)[1..] == QuoteBody(isPrint, s) + "\"";
  }
}
