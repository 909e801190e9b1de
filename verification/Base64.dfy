/** Base64 with padding (section 4 of RFC 4648) on byte strings. */
module Base64 {
  import opened GoStrings

  function Digit(v: int): char
    requires 0 <= v < 64
  {
    if v < 26 then (v + 'A' as int) as char
    else if v < 52 then (v - 26 + 'a' as int) as char
    else if v < 62 then (v - 52 + '0' as int) as char
    else if v == 62 then '+' else '/'
  }

  function Value(c: char): int {
    if 'A' <= c <= 'Z' then c as int - 'A' as int
    else if 'a' <= c <= 'z' then c as int - 'a' as int + 26
    else if '0' <= c <= '9' then c as int - '0' as int + 52
    else if c == '+' then 62 else if c == '/' then 63 else -1
  }

  datatype Decoded = Corrupt | Bytes(s: string)

  predicate Byte(x: int) { 0 <= x < 256 }

  function Group(a: int, b: int, c: int): string
    requires Byte(a) && Byte(b) && Byte(c)
  {
    [Digit(a / 4), Digit(a % 4 * 16 + b / 16), Digit(b % 16 * 4 + c / 64), Digit(c % 64)]
  }

  function LastTwo(a: int, b: int): string
    requires Byte(a) && Byte(b)
  {
    [Digit(a / 4), Digit(a % 4 * 16 + b / 16), Digit(b % 16 * 4), '=']
  }

  function LastOne(a: int): string
    requires Byte(a)
  {
    [Digit(a / 4), Digit(a % 4 * 16), '=', '=']
  }

  function Encode(s: string): string
    requires IsBytes(s)
  {
    if s == "" then ""
    else if |s| == 1 then LastOne(s[0] as int)
    else if |s| == 2 then LastTwo(s[0] as int, s[1] as int)
    else Group(s[0] as int, s[1] as int, s[2] as int) + Encode(s[3..])
  }

  // The three bytes of a group, from the values of its digits.
  function First(p: int, q: int): char { ((p * 4 + q / 16) % 256) as char }
  function Second(q: int, r: int): char { ((q * 16 + r / 4) % 256) as char }
  function Third(r: int, u: int): char { ((r * 64 + u) % 256) as char }

  function Decode(t: string): Decoded {
    if t == "" then Bytes("")
    else if |t| < 4 then Corrupt
    else
      var (p, q, r, u) := (Value(t[0]), Value(t[1]), Value(t[2]), Value(t[3]));
      if p < 0 || q < 0 then Corrupt
      else if t[2] == '=' then
        if t[3] == '=' && |t| == 4 then Bytes([First(p, q)]) else Corrupt
      else if r < 0 then Corrupt
      else if t[3] == '=' then
        if |t| == 4 then Bytes([First(p, q), Second(q, r)]) else Corrupt
      else if u < 0 then Corrupt
      else
        match Decode(t[4..])
        case Corrupt => Corrupt
        case Bytes(rest) =>
          Bytes([First(p, q), Second(q, r), Third(r, u)] + rest)
  }

  lemma DigitValue(v: int)
    requires 0 <= v < 64
    ensures Value(Digit(v)) == v && Digit(v) != '='
  {
  }

  lemma Regroup(a: int, b: int, c: int)
    requires 0 <= a < 256 && 0 <= b < 256 && 0 <= c < 256
    ensures First(a / 4, a % 4 * 16 + b / 16) == a as char
    ensures Second(a % 4 * 16 + b / 16, b % 16 * 4 + c / 64) == b as char
    ensures Third(b % 16 * 4 + c / 64, c % 64) == c as char
  {
    Carried(a % 4, 16, b / 16);
    Carried(b % 16, 4, c / 64);
    RegroupSecond(a % 4, b, c / 64);
    RegroupThird(b % 16, c);
  }

  lemma Carried(hi: int, m: int, lo: int)
    requires 0 <= hi && 0 <= lo < m && m in {4, 16}
    ensures (hi * m + lo) / m == hi
  {
  }

  lemma RegroupSecond(hi: int, b: int, lo: int)
    requires 0 <= hi < 4 && 0 <= b < 256 && 0 <= lo < 4
    ensures Second(hi * 16 + b / 16, b % 16 * 4 + lo) == b as char
  {
    Carried(b % 16, 4, lo);
    assert (hi * 16 + b / 16) * 16 + b % 16 == hi * 256 + b;
  }

  lemma RegroupThird(hi: int, c: int)
    requires 0 <= hi < 16 && 0 <= c < 256
    ensures Third(hi * 4 + c / 64, c % 64) == c as char
  {
    assert (hi * 4 + c / 64) * 64 + c % 64 == hi * 256 + c;
  }

  // Decoding by the values of the digits: a full group in front of t, and the two padded groups.
  lemma DecodeFour(p: int, q: int, r: int, u: int, t: string)
    requires 0 <= p < 64 && 0 <= q < 64 && 0 <= r < 64 && 0 <= u < 64 && Decode(t).Bytes?
    ensures Decode([Digit(p), Digit(q), Digit(r), Digit(u)] + t)
            == Bytes([First(p, q), Second(q, r), Third(r, u)] + Decode(t).s)
  {
    var s := [Digit(p), Digit(q), Digit(r), Digit(u)] + t;
    assert s[4..] == t;
    DigitValue(p); DigitValue(q); DigitValue(r); DigitValue(u);
  }

  lemma DecodeThree(p: int, q: int, r: int)
    requires 0 <= p < 64 && 0 <= q < 64 && 0 <= r < 64
    ensures Decode([Digit(p), Digit(q), Digit(r), '=']) == Bytes([First(p, q), Second(q, r)])
  {
    DigitValue(p); DigitValue(q); DigitValue(r);
  }

  lemma DecodeTwo(p: int, q: int)
    requires 0 <= p < 64 && 0 <= q < 64
    ensures Decode([Digit(p), Digit(q), '=', '=']) == Bytes([First(p, q)])
  {
    DigitValue(p); DigitValue(q);
  }

  // The three kinds of group.
  lemma DecodeGroup(a: int, b: int, c: int, t: string)
    requires Byte(a) && Byte(b) && Byte(c) && Decode(t).Bytes?
    ensures Decode(Group(a, b, c) + t) == Bytes([a as char, b as char, c as char] + Decode(t).s)
  {
    Regroup(a, b, c);
    DecodeFour(a / 4, a % 4 * 16 + b / 16, b % 16 * 4 + c / 64, c % 64, t);
  }

  lemma DecodeLastOne(a: int)
    requires Byte(a)
    ensures Decode(LastOne(a)) == Bytes([a as char])
  {
    Regroup(a, 0, 0);
    DecodeTwo(a / 4, a % 4 * 16);
  }

  lemma DecodeLastTwo(a: int, b: int)
    requires Byte(a) && Byte(b)
    ensures Decode(LastTwo(a, b)) == Bytes([a as char, b as char])
  {
    Regroup(a, b, 0);
    DecodeThree(a / 4, a % 4 * 16 + b / 16, b % 16 * 4);
  }

  lemma DecodeLonger(s: string, t: string)
    requires IsBytes(s) && |s| > 2 && t == Encode(s[3..]) && Decode(t) == Bytes(s[3..])
    ensures Decode(Encode(s)) == Bytes(s)
  {
    DecodeGroup(s[0] as int, s[1] as int, s[2] as int, t);
    assert s == [s[0], s[1], s[2]] + s[3..];
  }

  /** Decoding what was encoded gives every byte string back. */
  lemma {:induction false} DecodeEncode(s: string)
    requires IsBytes(s)
    ensures Decode(Encode(s)) == Bytes(s)
    decreases |s|
  {
    if |s| == 1 {
      DecodeLastOne(s[0] as int);
      assert s == [s[0]];
    } else if |s| == 2 {
      DecodeLastTwo(s[0] as int, s[1] as int);
      assert s == [s[0], s[1]];
    } else if |s| > 2 {
      DecodeEncode(s[3..]);
      DecodeLonger(s, Encode(s[3..]));
    }
  }

  // ------------------------------------------------------- the standard's own

  /** The digits run through the letters and the figures to `+` and `/`, as in table 1 of RFC 4648. */
  lemma DigitsOfTheTable(v: int)
    requires 0 <= v < 64
    ensures Digit(0) == 'A' && Digit(26) == 'a' && Digit(52) == '0' && Digit(62) == '+' && Digit(63) == '/'
    ensures v !in {25, 51, 61, 62, 63} ==> Digit(v + 1) as int == Digit(v) as int + 1
  {
  }

  /** Three of the test vectors in section 10 of RFC 4648, one for each way to end. */
  lemma TestVectors()
    ensures Encode("f") == "Zg==" && Encode("fo") == "Zm8=" && Encode("foo") == "Zm9v"
  {
    assert "foo"[3..] == "";
    assert Group(102, 111, 111) + "" == "Zm9v";
  }
}
