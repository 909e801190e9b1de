/**
 What a stage signs: twelve fields joined by NUL bytes, numbers in decimal.
 */
module Integrity {
  import opened Basics
  import opened GoStrings

  datatype Integrity = Integrity(stageId: string, stageKind: string, contractVersion: string, modelId: string,
                                 runtimeId: string, inputHash: string, outputHash: string, inputTokens: int,
                                 outputTokens: int, durationMs: int, timestamp: string, fingerprint: string)

  // -------------------------------------------------------------- decimals

  predicate IsDigit(c: char) { '0' <= c <= '9' }

  function DigitChar(d: nat): (c: char)
    requires d < 10
    ensures IsDigit(c) && DigitValue(c) == d
  {
    ('0' as int + d) as char
  }

  function DigitValue(c: char): (d: nat)
    requires IsDigit(c)
  {
    c as int - '0' as int
  }

  function FormatNat(n: nat): (s: string)
    ensures s != "" && forall c :: c in s ==> IsDigit(c)
  {
    if n < 10 then [DigitChar(n)] else FormatNat(n / 10) + [DigitChar(n % 10)]
  }

  function FormatInt(n: int): (s: string)
    ensures forall c :: c in s ==> IsDigit(c) || c == '-'
  {
    if n < 0 then "-" + FormatNat(-n) else FormatNat(n)
  }

  function ParseNat(s: string): Option<nat> {
    if s == "" || !IsDigit(s[|s| - 1]) then None
    else if |s| == 1 then Some(DigitValue(s[0]))
    else
      var front := ParseNat(s[..|s| - 1]);
      if front.None? then None else Some(10 * front.value + DigitValue(s[|s| - 1]))
  }

  function ParseInt(s: string): Option<int> {
    if s != "" && s[0] == '-' then
      var n := ParseNat(s[1..]);
      if n.None? then None else Some(0 - n.value as int)
    else
      var n := ParseNat(s);
      if n.None? then None else Some(n.value)
  }

  lemma {:induction false} ParseFormatNat(n: nat)
    ensures ParseNat(FormatNat(n)) == Some(n)
  {
    if n >= 10 {
      ParseFormatNat(n / 10);
      var s := FormatNat(n);
      assert s[..|s| - 1] == FormatNat(n / 10);
    }
  }

  lemma ParseSigned(s: string)
    ensures ParseInt("-" + s) == if ParseNat(s).None? then None else Some(0 - ParseNat(s).value as int)
  {
    assert ("-" + s)[1..] == s;
  }

  lemma ParseUnsigned(s: string)
    requires s != "" && forall c :: c in s ==> IsDigit(c)
    ensures ParseInt(s) == if ParseNat(s).None? then None else Some(ParseNat(s).value)
  {
    assert s[0] in s;
  }

  lemma ParseFormatInt(n: int)
    ensures ParseInt(FormatInt(n)) == Some(n)
  {
    if n < 0 {
      ParseFormatNat(-n);
      ParseSigned(FormatNat(-n));
    } else {
      ParseFormatNat(n);
      ParseUnsigned(FormatNat(n));
    }
  }

  // --------------------------------------------------------- serialisation

  function Fields(r: Integrity): (fields: seq<string>)
    ensures |fields| == 12
  {
    [r.stageId, r.stageKind, r.contractVersion, r.modelId, r.runtimeId, r.inputHash, r.outputHash,
     FormatInt(r.inputTokens), FormatInt(r.outputTokens), FormatInt(r.durationMs), r.timestamp, r.fingerprint]
  }

  function SerializeForSigning(r: Integrity): string { Join(Fields(r), NUL) }

  /** The layout on the wire. */
  lemma SerializedForm(r: Integrity)
    ensures SerializeForSigning(r)
            == r.stageId + [NUL] + (r.stageKind + [NUL] + (r.contractVersion + [NUL] + (r.modelId + [NUL]
               + (r.runtimeId + [NUL] + (r.inputHash + [NUL] + (r.outputHash + [NUL] + (FormatInt(r.inputTokens) + [NUL]
               + (FormatInt(r.outputTokens) + [NUL] + (FormatInt(r.durationMs) + [NUL] + (r.timestamp + [NUL]
               + r.fingerprint))))))))))
  {
    var f := Fields(r);
    assert forall i :: 0 <= i <= 12 ==> |f[i..]| == 12 - i;
    assert f[11..] == [r.fingerprint];
    JoinTail(f, 10);
    JoinTail(f, 9);
    JoinTail(f, 8);
    JoinTail(f, 7);
    JoinTail(f, 6);
    JoinTail(f, 5);
    JoinTail(f, 4);
    JoinTail(f, 3);
    JoinTail(f, 2);
    JoinTail(f, 1);
    JoinTail(f, 0);
    assert f[0..] == f;
  }

  lemma JoinTail(f: seq<string>, i: nat)
    requires i + 1 < |f|
    ensures Join(f[i..], NUL) == f[i] + [NUL] + Join(f[i + 1..], NUL)
  {
    assert f[i..] == [f[i]] + f[i + 1..];
    JoinFirst(f[i], f[i + 1..], NUL);
  }

  function FromFields(f: seq<string>): Option<Integrity>
    requires |f| == 12
  {
    var (inputTokens, outputTokens, durationMs) := (ParseInt(f[7]), ParseInt(f[8]), ParseInt(f[9]));
    if inputTokens.None? || outputTokens.None? || durationMs.None? then None
    else Some(Integrity(f[0], f[1], f[2], f[3], f[4], f[5], f[6],
                        inputTokens.value, outputTokens.value, durationMs.value, f[10], f[11]))
  }

  // Reads a record back from the bytes that were signed.
  function Parse(bytes: string): Option<Integrity> {
    var f := Split(bytes, NUL);
    if |f| != 12 then None else FromFields(f)
  }

  predicate NulFree(r: Integrity) { forall f :: f in Fields(r) ==> NUL !in f }

  lemma FromFieldsOf(r: Integrity)
    ensures FromFields(Fields(r)) == Some(r)
  {
    ParseFormatInt(r.inputTokens);
    ParseFormatInt(r.outputTokens);
    ParseFormatInt(r.durationMs);
  }

  /** The signed bytes give the record back, if and only if no string in it holds a NUL. */
  lemma ParseUndoesSerialize(r: Integrity)
    ensures Parse(SerializeForSigning(r)) == Some(r) <==> NulFree(r)
  {
    if NulFree(r) {
      SplitJoin(Fields(r), NUL);
      FromFieldsOf(r);
    } else if Parse(SerializeForSigning(r)) == Some(r) {
      var f := Split(SerializeForSigning(r), NUL);
      JoinSplit(SerializeForSigning(r), NUL);
      NulFreeFields(f, r);
    }
  }

  lemma NulFreeFields(f: seq<string>, r: Integrity)
    requires |f| == 12 && FromFields(f) == Some(r) && forall p :: p in f ==> NUL !in p
    ensures NulFree(r)
  {
    forall i | 0 <= i < 12 ensures NUL !in Fields(r)[i] {
      assert i < 7 || i > 9 ==> Fields(r)[i] == f[i];
    }
  }

  /** Two records without NULs that sign alike are the same. */
  lemma SerializeInjective(r: Integrity, s: Integrity)
    requires NulFree(r) && NulFree(s) && SerializeForSigning(r) == SerializeForSigning(s)
    ensures r == s
  {
    ParseUndoesSerialize(r);
    ParseUndoesSerialize(s);
  }

  // Moving a NUL from one field to the next gives another record with the same bytes.
  lemma NulsCollide(a: string, b: string, c: string, r: Integrity)
    ensures r.(stageId := a + [NUL] + b, stageKind := c) != r.(stageId := a, stageKind := b + [NUL] + c)
    ensures SerializeForSigning(r.(stageId := a + [NUL] + b, stageKind := c))
            == SerializeForSigning(r.(stageId := a, stageKind := b + [NUL] + c))
  {
    var left, right := r.(stageId := a + [NUL] + b, stageKind := c), r.(stageId := a, stageKind := b + [NUL] + c);
    assert |left.stageId| > |right.stageId|;
    var rest := Fields(r)[2..];
    assert Fields(left) == [a + [NUL] + b] + ([c] + rest) && Fields(right) == [a] + ([b + [NUL] + c] + rest);
    JoinFirst(a + [NUL] + b, [c] + rest, NUL);
    JoinFirst(c, rest, NUL);
    JoinFirst(a, [b + [NUL] + c] + rest, NUL);
    JoinFirst(b + [NUL] + c, rest, NUL);
    SameBytes(a, b, c, Join(rest, NUL));
  }

  lemma SameBytes(a: string, b: string, c: string, d: string)
    ensures (a + [NUL] + b) + [NUL] + (c + [NUL] + d) == a + [NUL] + ((b + [NUL] + c) + [NUL] + d)
  {
  }
}
