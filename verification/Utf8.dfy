/** UTF-8 (section 3 of RFC 3629) as `TextEncoder` writes it and a fatal `TextDecoder` reads it. */
module Utf8 {
  import opened Bytes
  import opened Text

  function EncodeChar(c: char): (r: seq<byte>)
    ensures 1 <= |r| <= 4
    ensures !IsContinuation(r[0])
    ensures forall i :: 1 <= i < |r| ==> IsContinuation(r[i])
  {
    var v := c as int;
    if v < 0x80 then [v]
    else if v < 0x800 then [0xC0 + v / 64, 0x80 + v % 64]
    else if v < 0x10000 then [0xE0 + v / 4096, 0x80 + v / 64 % 64, 0x80 + v % 64]
    else [0xF0 + v / 262144, 0x80 + v / 4096 % 64, 0x80 + v / 64 % 64, 0x80 + v % 64]
  }

  /** `(value & 0xc0) === 0x80`. */
  predicate IsContinuation(b: byte) { 0x80 <= b < 0xC0 }

  function Encode(s: string): seq<byte> {
    if s == "" then [] else EncodeChar(s[0]) + Encode(s[1..])
  }

  /** How many bytes the sequence announced by lead byte `b` has; none for a byte that cannot lead. */
  function SequenceLength(b: byte): nat {
    if b < 0x80 then 1 else if 0xC2 <= b < 0xE0 then 2 else if 0xE0 <= b < 0xF0 then 3
    else if 0xF0 <= b < 0xF5 then 4 else 0
  }

  /** The six payload bits of a continuation byte, and of a lead byte those above `mark`. */
  function Payload(b: byte, mark: int): int { b as int - mark }

  function CodePoint(s: seq<byte>): int
    requires 1 <= |s| <= 4
  {
    if |s| == 1 then s[0]
    else if |s| == 2 then Payload(s[0], 0xC0) * 64 + Payload(s[1], 0x80)
    else if |s| == 3 then Payload(s[0], 0xE0) * 4096 + Payload(s[1], 0x80) * 64 + Payload(s[2], 0x80)
    else Payload(s[0], 0xF0) * 262144 + Payload(s[1], 0x80) * 4096 + Payload(s[2], 0x80) * 64 + Payload(s[3], 0x80)
  }

  /** The shortest length that can hold code point `v`; a longer sequence is an error. */
  function ShortestLength(v: int): nat {
    if v < 0x80 then 1 else if v < 0x800 then 2 else if v < 0x10000 then 3 else 4
  }

  predicate IsScalar(v: int) { 0 <= v < 0xD800 || 0xE000 <= v < 0x110000 }

  /** The character the bytes begin with, and its length; nothing when they are not valid UTF-8. */
  function DecodeFirst(s: seq<byte>): (r: Option<(char, nat)>)
    requires s != []
    ensures r.Some? ==> 1 <= r.value.1 <= |s|
  {
    var n := SequenceLength(s[0]);
    if n == 0 || n > |s| || exists i :: 1 <= i < n && !IsContinuation(s[i]) then None
    else
      var v := CodePoint(s[..n]);
      if IsScalar(v) && ShortestLength(v) == n then Some((v as char, n)) else None
  }

  function DecodeFatal(s: seq<byte>): Option<string>
    decreases |s|
  {
    if s == [] then Some("")
    else match DecodeFirst(s)
      case None => None
      case Some(first) =>
        match DecodeFatal(s[first.1..])
        case None => None
        case Some(rest) => Some([first.0] + rest)
  }

  const BOM := '\U{FEFF}'

  function DropBom(s: string): string {
    if s != "" && s[0] == BOM then s[1..] else s
  }

  /** A `TextDecoder` without `ignoreBOM` drops one leading byte order mark. */
  function DecodeText(s: seq<byte>): Option<string> {
    match DecodeFatal(s)
    case None => None
    case Some(text) => Some(DropBom(text))
  }

  lemma {:induction false} SixBitDigits(v: nat)
    ensures v == v / 64 * 64 + v % 64
    ensures v / 64 == v / 4096 * 64 + v / 64 % 64
    ensures v / 4096 == v / 262144 * 64 + v / 4096 % 64
  {
    assert v / 64 / 64 == v / 4096;
    assert v / 4096 / 64 == v / 262144;
  }

  lemma {:induction false} CodePointOfChar(c: char)
    ensures |EncodeChar(c)| == SequenceLength(EncodeChar(c)[0])
    ensures CodePoint(EncodeChar(c)) == c as int
    ensures ShortestLength(c as int) == |EncodeChar(c)| && IsScalar(c as int)
  {
    SixBitDigits(c as int);
  }

  lemma {:induction false} DecodeFirstEncoded(c: char, rest: seq<byte>)
    ensures DecodeFirst(EncodeChar(c) + rest) == Some((c, |EncodeChar(c)|))
  {
    CodePointOfChar(c);
    var e := EncodeChar(c);
    var s := e + rest;
    assert s[0] == e[0] && s[..|e|] == e;
    assert forall i :: 1 <= i < |e| ==> s[i] == e[i];
  }

  /** Decoding undoes encoding. */
  lemma {:induction false} DecodeEncode(s: string)
    ensures DecodeFatal(Encode(s)) == Some(s)
  {
    if s != "" {
      DecodeFirstEncoded(s[0], Encode(s[1..]));
      assert Encode(s)[|EncodeChar(s[0])|..] == Encode(s[1..]);
      DecodeEncode(s[1..]);
      assert [s[0]] + s[1..] == s;
    }
  }

  lemma {:induction false} EncodeConcat(a: string, b: string)
    ensures Encode(a + b) == Encode(a) + Encode(b)
  {
    if a == "" {
      assert a + b == b;
    } else {
      EncodeConcat(a[1..], b);
      assert (a + b)[1..] == a[1..] + b;
    }
  }

  /** The offset where character `k` begins. */
  function OffsetOf(s: string, k: nat): (offset: nat)
    requires k <= |s|
  {
    |Encode(s[..k])|
  }

  lemma {:induction false} OffsetStep(s: string, k: nat)
    requires k < |s|
    ensures OffsetOf(s, k + 1) == OffsetOf(s, k) + |EncodeChar(s[k])|
  {
    assert s[..k + 1] == s[..k] + [s[k]];
    EncodeConcat(s[..k], [s[k]]);
    assert Encode([s[k]]) == EncodeChar(s[k]) + Encode([s[k]][1..]);
  }

  lemma {:induction false} OffsetsGrow(s: string, i: nat, j: nat)
    requires i <= j <= |s|
    ensures OffsetOf(s, i) + (j - i) <= OffsetOf(s, j) <= OffsetOf(s, i) + 4 * (j - i)
    decreases j - i
  {
    if i < j {
      OffsetsGrow(s, i, j - 1);
      OffsetStep(s, j - 1);
    }
  }

  lemma {:induction false} MiddleSlice(a: seq<byte>, b: seq<byte>, c: seq<byte>)
    ensures (a + b + c)[|a|..|a + b|] == b
  {
  }

  /** The bytes between two character offsets are the encoding of the characters between them. */
  lemma {:induction false} SliceBetween(s: string, i: nat, j: nat)
    requires i <= j <= |s|
    ensures OffsetOf(s, i) <= OffsetOf(s, j) <= |Encode(s)|
    ensures Encode(s)[OffsetOf(s, i)..OffsetOf(s, j)] == Encode(s[i..j])
  {
    var a, b, c := s[..i], s[i..j], s[j..];
    assert s[..j] == a + b && s == s[..j] + c;
    EncodeConcat(s[..j], c);
    EncodeConcat(a, b);
    MiddleSlice(Encode(a), Encode(b), Encode(c));
  }

  /** The character whose encoding holds byte `at`. */
  function CharAt(s: string, at: nat): (k: nat)
    requires at < |Encode(s)|
    ensures k < |s|
  {
    if at < |EncodeChar(s[0])| then 0 else 1 + CharAt(s[1..], at - |EncodeChar(s[0])|)
  }

  lemma {:induction false} CharAtHolds(s: string, at: nat)
    requires at < |Encode(s)|
    ensures OffsetOf(s, CharAt(s, at)) <= at < OffsetOf(s, CharAt(s, at) + 1)
    ensures IsContinuation(Encode(s)[at]) <==> OffsetOf(s, CharAt(s, at)) < at
  {
    var n, k := |EncodeChar(s[0])|, CharAt(s, at);
    OffsetStep(s, 0);
    if at >= n {
      CharAtHolds(s[1..], at - n);
      assert s[..k][1..] == s[1..][..k - 1] && s[..k + 1][1..] == s[1..][..k];
    }
  }
}
