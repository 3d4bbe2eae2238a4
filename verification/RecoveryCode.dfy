/** Recovery codes: `VG1-XXXX-...-XXXX`, 64 hex digits of key and 4 of checksum, and how they are read back. */
module RecoveryCode {
  import opened Bytes
  import opened Text

  const CHECKSUM_BYTES := 2
  const PREFIX := "VG1-"

  /** The first two bytes of SHA-256, as a fixed function. */
  type Checksum = seq<byte> -> (byte, byte)

  function ChecksumBytes(sum: Checksum, key: seq<byte>): (r: seq<byte>)
    ensures |r| == CHECKSUM_BYTES
  {
    [sum(key).0, sum(key).1]
  }

  // ---------------------------------------------------------------------------
  // Hexadecimal
  // ---------------------------------------------------------------------------

  function HexChar(n: int): char
    requires 0 <= n < 16
  {
    if n < 10 then '0' + n as char else 'a' + (n - 10) as char
  }

  predicate IsUpperHex(c: char) { '0' <= c <= '9' || 'A' <= c <= 'F' }

  function HexValue(c: char): (n: int)
    requires IsUpperHex(c)
    ensures 0 <= n < 16
  {
    if c <= '9' then (c - '0') as int else (c - 'A') as int + 10
  }

  function Upper(c: char): char {
    if 'a' <= c <= 'z' then c - 'a' + 'A' else c
  }

  function UpperAll(s: string): (r: string)
    ensures |r| == |s|
    ensures forall i :: 0 <= i < |s| ==> r[i] == Upper(s[i])
  {
    seq(|s|, i requires 0 <= i < |s| => Upper(s[i]))
  }

  function Hex(bytes: seq<byte>): (s: string)
    ensures |s| == 2 * |bytes|
  {
    if bytes == [] then "" else [HexChar(bytes[0] / 16), HexChar(bytes[0] % 16)] + Hex(bytes[1..])
  }

  predicate AllHex(s: string) {
    forall i :: 0 <= i < |s| ==> IsUpperHex(s[i])
  }

  function Unhex(s: string): (bytes: seq<byte>)
    requires AllHex(s) && |s| % 2 == 0
    ensures |bytes| == |s| / 2
  {
    if s == "" then [] else [HexValue(s[0]) * 16 + HexValue(s[1])] + Unhex(s[2..])
  }

  lemma {:induction false} HexDigitReadsBack(n: int)
    requires 0 <= n < 16
    ensures IsUpperHex(Upper(HexChar(n))) && HexValue(Upper(HexChar(n))) == n
  {
  }

  /** Reading the upper-cased digits gives the bytes back. */
  lemma {:induction false} UnhexHex(bytes: seq<byte>)
    ensures AllHex(UpperAll(Hex(bytes))) && Unhex(UpperAll(Hex(bytes))) == bytes
  {
    if bytes != [] {
      UnhexHex(bytes[1..]);
      HexDigitReadsBack(bytes[0] / 16);
      HexDigitReadsBack(bytes[0] % 16);
      UnhexStep(UpperAll(Hex(bytes)), UpperAll(Hex(bytes[1..])));
      assert bytes == [bytes[0]] + bytes[1..];
    }
  }

  lemma {:induction false} UnhexStep(u: string, rest: string)
    requires |u| >= 2 && u[2..] == rest && |rest| % 2 == 0 && AllHex(rest) && IsUpperHex(u[0]) && IsUpperHex(u[1])
    ensures AllHex(u) && Unhex(u) == [HexValue(u[0]) * 16 + HexValue(u[1])] + Unhex(rest)
  {
    assert forall i :: 2 <= i < |u| ==> u[i] == rest[i - 2];
  }

  lemma {:induction false} HexConcat(a: seq<byte>, b: seq<byte>)
    ensures Hex(a + b) == Hex(a) + Hex(b)
  {
    if a == [] {
      assert a + b == b;
    } else {
      HexConcat(a[1..], b);
      assert (a + b)[0] == a[0] && (a + b)[1..] == a[1..] + b;
      Regroup([HexChar(a[0] / 16), HexChar(a[0] % 16)], Hex(a[1..]), Hex(b));
    }
  }

  method BytesToHex(bytes: array<byte>) returns (out: string)
    ensures out == Hex(bytes[..])
  {
    out := "";
    for i := 0 to bytes.Length
      invariant out == Hex(bytes[..i])
    {
      HexConcat(bytes[..i], [bytes[i]]);
      assert bytes[..i + 1] == bytes[..i] + [bytes[i]];
      assert Hex([bytes[i]]) == [HexChar(bytes[i] / 16), HexChar(bytes[i] % 16)] + Hex([]);
      out := out + [HexChar(bytes[i] / 16), HexChar(bytes[i] % 16)];
    }
    assert bytes[..bytes.Length] == bytes[..];
  }

  lemma {:induction false} UnhexAt(s: string, i: nat)
    requires AllHex(s) && |s| % 2 == 0 && 2 * i + 1 < |s|
    ensures Unhex(s)[i] == HexValue(s[2 * i]) * 16 + HexValue(s[2 * i + 1])
  {
    if i > 0 {
      UnhexAt(s[2..], i - 1);
    }
  }

  method HexToBytes(hex: string) returns (out: array<byte>)
    requires AllHex(hex) && |hex| % 2 == 0
    ensures fresh(out) && out[..] == Unhex(hex)
  {
    out := new byte[|hex| / 2];
    for i := 0 to out.Length
      invariant out[..i] == Unhex(hex)[..i]
    {
      UnhexAt(hex, i);
      out[i] := HexValue(hex[2 * i]) * 16 + HexValue(hex[2 * i + 1]);
      assert out[..i + 1] == out[..i] + [out[i]];
    }
    assert out[..out.Length] == out[..];
  }

  // ---------------------------------------------------------------------------
  // The code
  // ---------------------------------------------------------------------------

  function Groups(s: string, n: nat): seq<string>
    requires n > 0
  {
    if s == "" then [] else if |s| <= n then [s] else [s[..n]] + Groups(s[n..], n)
  }

  function Code(key: seq<byte>, sum: Checksum): string {
    PREFIX + Join(Groups(Hex(key + ChecksumBytes(sum, key)), 4), '-')
  }

  method GroupBy(s: string, n: nat) returns (out: seq<string>)
    requires n > 0
    ensures out == Groups(s, n)
  {
    out := [];
    var i := 0;
    while i < |s|
      invariant i <= |s| && out + Groups(s[i..], n) == Groups(s, n)
    {
      var end := if i + n < |s| then i + n else |s|;
      assert s[i..][..end - i] == s[i..end] && s[i..][end - i..] == s[end..];
      assert Groups(s[i..], n) == [s[i..end]] + Groups(s[end..], n) by {
        if end == |s| { assert s[i..end] == s[i..] && s[end..] == ""; }
        assert [s[i..end]] + [] == [s[i..end]];
      }
      out := out + [s[i..end]];
      i := end;
    }
    assert s[|s|..] == "";
  }

  /** JavaScript's `\s`. */
  predicate IsSpace(c: char) {
    var v := c as int;
    || 9 <= v <= 13 || v == 0x20 || v == 0xA0 || v == 0x1680 || 0x2000 <= v <= 0x200A || 0x2028 <= v <= 0x2029
    || v == 0x202F || v == 0x205F || v == 0x3000 || v == 0xFEFF
  }

  function StripOne(c: char): string { if IsSpace(c) then "" else [Upper(c)] }

  /** The characters that are not white space, in upper case. */
  function Stripped(s: string): string {
    if s == "" then "" else StripOne(s[0]) + Stripped(s[1..])
  }

  function UndashOne(c: char): string { if c == '-' then "" else [c] }

  function WithoutDashes(s: string): string {
    if s == "" then "" else UndashOne(s[0]) + WithoutDashes(s[1..])
  }

  function ReadStripped(stripped: string, sum: Checksum): (r: Option<seq<byte>>)
    ensures r.Some? ==> |r.value| == KEY_LEN
  {
    if |stripped| < |PREFIX| || stripped[..|PREFIX|] != PREFIX then None
    else
      var body := WithoutDashes(stripped[|PREFIX|..]);
      if |body| != 2 * (KEY_LEN + CHECKSUM_BYTES) || !AllHex(body) then None
      else
        var key := Unhex(body[..2 * KEY_LEN]);
        if UpperAll(Hex(ChecksumBytes(sum, key))) == body[2 * KEY_LEN..] then Some(key) else None
  }

  /** The key a code stands for, or nothing when prefix, length, digits or checksum are wrong. */
  function Read(code: string, sum: Checksum): (r: Option<seq<byte>>)
    ensures r.Some? ==> |r.value| == KEY_LEN
  {
    ReadStripped(Stripped(code), sum)
  }

  lemma {:induction false} StrippedConcat(a: string, b: string)
    ensures Stripped(a + b) == Stripped(a) + Stripped(b)
  {
    if a == "" {
      assert a + b == b;
    } else {
      StrippedConcat(a[1..], b);
      assert (a + b)[0] == a[0] && (a + b)[1..] == a[1..] + b;
      Regroup(StripOne(a[0]), Stripped(a[1..]), Stripped(b));
    }
  }

  lemma {:induction false} DashesConcat(a: string, b: string)
    ensures WithoutDashes(a + b) == WithoutDashes(a) + WithoutDashes(b)
  {
    if a == "" {
      assert a + b == b;
    } else {
      DashesConcat(a[1..], b);
      assert (a + b)[0] == a[0] && (a + b)[1..] == a[1..] + b;
      Regroup(UndashOne(a[0]), WithoutDashes(a[1..]), WithoutDashes(b));
    }
  }

  lemma {:induction false} Regroup(a: string, b: string, c: string)
    ensures a + (b + c) == a + b + c
  {
  }

  predicate IsHexText(s: string) {
    forall i :: 0 <= i < |s| ==> '0' <= s[i] <= '9' || 'a' <= s[i] <= 'f'
  }

  lemma {:induction false} HexIsText(bytes: seq<byte>)
    ensures IsHexText(Hex(bytes))
  {
    if bytes != [] {
      HexIsText(bytes[1..]);
    }
  }

  lemma {:induction false} ReadBackStep(head: string, rest: string)
    requires IsHexText(head)
    ensures WithoutDashes(Stripped(head + (['-'] + rest))) == UpperAll(head) + WithoutDashes(Stripped(rest))
  {
    HexTextReadsBack(head);
    StrippedConcat(head, ['-'] + rest);
    StrippedCons('-', rest);
    DashesConcat(Stripped(head), ['-'] + Stripped(rest));
    DashesCons('-', Stripped(rest));
  }

  lemma {:induction false} GroupsReadBack(s: string)
    requires IsHexText(s)
    ensures WithoutDashes(Stripped(Join(Groups(s, 4), '-'))) == UpperAll(s)
  {
    if s == "" {
    } else if |s| <= 4 {
      HexTextReadsBack(s);
      assert Join([s], '-') == s;
    } else {
      var head, tail := s[..4], s[4..];
      GroupsReadBack(tail);
      var rest := Groups(tail, 4);
      assert ([head] + rest)[1..] == rest && rest != [];
      assert Join([head] + rest, '-') == head + ['-'] + Join(rest, '-');
      Regroup(head, ['-'], Join(rest, '-'));
      ReadBackStep(head, Join(rest, '-'));
      assert UpperAll(s) == UpperAll(head) + UpperAll(tail);
    }
  }

  lemma {:induction false} StrippedCons(c: char, rest: string)
    ensures Stripped([c] + rest) == StripOne(c) + Stripped(rest)
  {
    assert ([c] + rest)[1..] == rest;
  }

  lemma {:induction false} DashesCons(c: char, rest: string)
    ensures WithoutDashes([c] + rest) == UndashOne(c) + WithoutDashes(rest)
  {
    assert ([c] + rest)[1..] == rest;
  }

  lemma {:induction false} HexTextReadsBack(s: string)
    requires IsHexText(s)
    ensures WithoutDashes(Stripped(s)) == UpperAll(s)
  {
    if s != "" {
      HexTextReadsBack(s[1..]);
      var c := Upper(s[0]);
      assert c != '-' && !IsSpace(s[0]);
      DashesCons(c, Stripped(s[1..]));
      assert UpperAll(s) == [c] + UpperAll(s[1..]);
    }
  }

  /** An exported code reads back as the exported key. */
  lemma {:induction false} ReadCode(key: seq<byte>, sum: Checksum)
    requires |key| == KEY_LEN
    ensures Read(Code(key, sum), sum) == Some(key)
  {
    var all := key + ChecksumBytes(sum, key);
    var grouped := Join(Groups(Hex(all), 4), '-');
    HexIsText(all);
    GroupsReadBack(Hex(all));
    StrippedConcat(PREFIX, grouped);
    PrefixStrips();
    var stripped := Stripped(Code(key, sum));
    assert stripped[..4] == PREFIX && stripped[4..] == Stripped(grouped);
    var body := UpperAll(Hex(all));
    UnhexHex(all);
    HexConcat(key, ChecksumBytes(sum, key));
    assert body[..2 * KEY_LEN] == UpperAll(Hex(key));
    assert body[2 * KEY_LEN..] == UpperAll(Hex(ChecksumBytes(sum, key)));
    UnhexHex(key);
  }

  lemma {:induction false} PrefixStrips()
    ensures Stripped(PREFIX) == PREFIX
  {
    assert PREFIX[1..] == "G1-" && "G1-"[1..] == "1-" && "1-"[1..] == "-" && "-"[1..] == "";
  }

  // ---------------------------------------------------------------------------
  // Retyped codes
  // ---------------------------------------------------------------------------

  /** One careless change to a code: letter case, white space anywhere, dashes behind the prefix. */
  datatype Slip = ChangeCase(at: nat, c: char) | AddSpace(at: nat, c: char) | DropSpace(at: nat) | AddDash(at: nat) | DropDash(at: nat)

  predicate BehindPrefix(s: string, at: nat)
    requires at <= |s|
  {
    |Stripped(s[..at])| >= |PREFIX|
  }

  predicate CanSlip(slip: Slip, s: string) {
    match slip
    case ChangeCase(at, c) => at < |s| && Upper(c) == Upper(s[at]) && !IsSpace(c) && !IsSpace(s[at])
    case AddSpace(at, c) => at <= |s| && IsSpace(c)
    case DropSpace(at) => at < |s| && IsSpace(s[at])
    case AddDash(at) => at <= |s| && BehindPrefix(s, at)
    case DropDash(at) => at < |s| && s[at] == '-' && BehindPrefix(s, at)
  }

  function AfterSlip(slip: Slip, s: string): string
    requires CanSlip(slip, s)
  {
    match slip
    case ChangeCase(at, c) => s[..at] + ([c] + s[at + 1..])
    case AddSpace(at, c) => s[..at] + ([c] + s[at..])
    case DropSpace(at) => s[..at] + s[at + 1..]
    case AddDash(at) => s[..at] + (['-'] + s[at..])
    case DropDash(at) => s[..at] + s[at + 1..]
  }

  /** `t` is `s` after some slips. */
  ghost predicate Retyped(s: string, t: string, slips: seq<Slip>)
    decreases slips
  {
    if slips == [] then s == t else CanSlip(slips[0], s) && Retyped(AfterSlip(slips[0], s), t, slips[1..])
  }

  /** A dash behind the prefix makes no difference to what is read. */
  lemma {:induction false} DashIgnored(p: string, q: string, sum: Checksum)
    requires |p| >= |PREFIX|
    ensures ReadStripped(p + (['-'] + q), sum) == ReadStripped(p + q, sum)
  {
    var n := |PREFIX|;
    assert (p + (['-'] + q))[..n] == p[..n] == (p + q)[..n];
    assert (p + (['-'] + q))[n..] == p[n..] + (['-'] + q) && (p + q)[n..] == p[n..] + q;
    DashesConcat(p[n..], ['-'] + q);
    DashesConcat(p[n..], q);
    DashesCons('-', q);
    assert "" + WithoutDashes(q) == WithoutDashes(q);
  }

  /** Stripping splits at any place and at any character. */
  lemma {:induction false} StrippedAround(s: string, at: nat)
    requires at <= |s|
    ensures Stripped(s) == Stripped(s[..at]) + Stripped(s[at..])
    ensures at < |s| ==> Stripped(s[at..]) == StripOne(s[at]) + Stripped(s[at + 1..])
  {
    assert s == s[..at] + s[at..];
    StrippedConcat(s[..at], s[at..]);
    if at < |s| {
      assert s[at..] == [s[at]] + s[at + 1..];
      StrippedCons(s[at], s[at + 1..]);
    }
  }

  lemma {:induction false} CaseAndSpaceStrip(slip: Slip, s: string)
    requires CanSlip(slip, s) && (slip.ChangeCase? || slip.AddSpace? || slip.DropSpace?)
    ensures Stripped(AfterSlip(slip, s)) == Stripped(s)
  {
    StrippedAround(s, slip.at);
    var a := s[..slip.at];
    match slip {
      case ChangeCase(at, c) =>
        StrippedConcat(a, [c] + s[at + 1..]);
        StrippedCons(c, s[at + 1..]);
      case AddSpace(at, c) =>
        StrippedConcat(a, [c] + s[at..]);
        StrippedCons(c, s[at..]);
        assert "" + Stripped(s[at..]) == Stripped(s[at..]);
      case DropSpace(at) =>
        StrippedConcat(a, s[at + 1..]);
        assert "" + Stripped(s[at + 1..]) == Stripped(s[at + 1..]);
    }
  }

  lemma {:induction false} DashReadsTheSame(a: string, b: string, sum: Checksum)
    requires |Stripped(a)| >= |PREFIX|
    ensures Read(a + (['-'] + b), sum) == Read(a + b, sum)
  {
    StrippedConcat(a, ['-'] + b);
    StrippedConcat(a, b);
    StrippedCons('-', b);
    DashIgnored(Stripped(a), Stripped(b), sum);
  }

  lemma {:induction false} SlipReadsTheSame(slip: Slip, s: string, sum: Checksum)
    requires CanSlip(slip, s)
    ensures Read(AfterSlip(slip, s), sum) == Read(s, sum)
  {
    match slip {
      case AddDash(at) =>
        assert s == s[..at] + s[at..];
        DashReadsTheSame(s[..at], s[at..], sum);
      case DropDash(at) =>
        assert s == s[..at] + (['-'] + s[at + 1..]);
        DashReadsTheSame(s[..at], s[at + 1..], sum);
      case _ =>
        CaseAndSpaceStrip(slip, s);
    }
  }

  /** However carelessly an exported code is retyped, it reads back as the exported key. */
  lemma {:induction false} RetypedReadsTheSame(s: string, t: string, slips: seq<Slip>, sum: Checksum)
    requires Retyped(s, t, slips)
    ensures Read(t, sum) == Read(s, sum)
    decreases slips
  {
    if slips != [] {
      SlipReadsTheSame(slips[0], s, sum);
      RetypedReadsTheSame(AfterSlip(slips[0], s), t, slips[1..], sum);
    }
  }

  lemma {:induction false} RetypedCode(key: seq<byte>, sum: Checksum, t: string, slips: seq<Slip>)
    requires |key| == KEY_LEN && Retyped(Code(key, sum), t, slips)
    ensures Read(t, sum) == Some(key)
  {
    ReadCode(key, sum);
    RetypedReadsTheSame(Code(key, sum), t, slips, sum);
  }

  // ---------------------------------------------------------------------------
  // Nothing else is a code
  // ---------------------------------------------------------------------------

  ghost predicate IsRetyped(s: string, t: string) {
    exists slips :: Retyped(s, t, slips)
  }

  lemma {:induction false} RetypedOn(s: string, t: string, u: string, there: seq<Slip>, on: seq<Slip>)
    requires Retyped(s, t, there) && Retyped(t, u, on)
    ensures Retyped(s, u, there + on)
    decreases there
  {
    if there == [] {
      assert there + on == on;
    } else {
      RetypedOn(AfterSlip(there[0], s), t, u, there[1..], on);
      SlipFirst(there[0], s, u, there[1..] + on);
      FirstOfBoth(there, on);
    }
  }

  lemma {:induction false} FirstOfBoth(there: seq<Slip>, on: seq<Slip>)
    requires there != []
    ensures there + on == [there[0]] + (there[1..] + on)
  {
  }

  lemma {:induction false} SlipFirst(slip: Slip, s: string, u: string, rest: seq<Slip>)
    requires CanSlip(slip, s) && Retyped(AfterSlip(slip, s), u, rest)
    ensures Retyped(s, u, [slip] + rest)
  {
    assert ([slip] + rest)[1..] == rest;
  }

  lemma {:induction false} IsRetypedOn(s: string, t: string, u: string)
    requires IsRetyped(s, t) && IsRetyped(t, u)
    ensures IsRetyped(s, u)
  {
    var there :| Retyped(s, t, there);
    var on :| Retyped(t, u, on);
    RetypedOn(s, t, u, there, on);
  }

  lemma {:induction false} OneSlip(slip: Slip, s: string)
    requires CanSlip(slip, s)
    ensures IsRetyped(s, AfterSlip(slip, s))
  {
    assert [slip][1..] == [] && Retyped(AfterSlip(slip, s), AfterSlip(slip, s), []);
    assert Retyped(s, AfterSlip(slip, s), [slip]);
  }

  /** Each is the other retyped. */
  ghost predicate SameTyping(s: string, t: string) {
    IsRetyped(s, t) && IsRetyped(t, s)
  }

  lemma {:induction false} SameTypingOn(s: string, t: string, u: string)
    requires SameTyping(s, t) && SameTyping(t, u)
    ensures SameTyping(s, u)
  {
    IsRetypedOn(s, t, u);
    IsRetypedOn(u, t, s);
  }

  lemma {:induction false} SlipAndBack(slip: Slip, back: Slip, s: string, t: string)
    requires CanSlip(slip, s) && AfterSlip(slip, s) == t && CanSlip(back, t) && AfterSlip(back, t) == s
    ensures SameTyping(s, t)
  {
    OneSlip(slip, s);
    OneSlip(back, t);
  }

  lemma {:induction false} SameTypingSelf(s: string)
    ensures SameTyping(s, s)
  {
    assert Retyped(s, s, []);
  }

  predicate Spaceless(s: string) {
    forall i :: 0 <= i < |s| ==> !IsSpace(s[i])
  }

  lemma {:induction false} StrippedIsSpaceless(s: string)
    ensures Spaceless(Stripped(s))
  {
    if s != "" {
      StrippedIsSpaceless(s[1..]);
      assert !IsSpace(s[0]) ==> !IsSpace(Upper(s[0]));
    }
  }

  lemma {:induction false} SpacelessKeepsLength(s: string)
    requires Spaceless(s)
    ensures |Stripped(s)| == |s|
  {
    if s != "" {
      SpacelessKeepsLength(s[1..]);
    }
  }

  lemma {:induction false} Around(p: string, c: char, q: string, s: string)
    requires s == p + ([c] + q)
    ensures s[..|p|] == p && s[|p|] == c && s[|p| + 1..] == q && s[|p|..] == [c] + q
  {
  }

  lemma {:induction false} SpaceIsNothing(p: string, c: char, q: string)
    requires IsSpace(c)
    ensures SameTyping(p + ([c] + q), p + q)
  {
    Around(p, c, q, p + ([c] + q));
    assert (p + q)[..|p|] == p && (p + q)[|p|..] == q;
    SlipAndBack(DropSpace(|p|), AddSpace(|p|, c), p + ([c] + q), p + q);
  }

  lemma {:induction false} CaseIsNothing(p: string, c: char, q: string)
    requires !IsSpace(c)
    ensures SameTyping(p + ([c] + q), p + ([Upper(c)] + q))
  {
    Around(p, c, q, p + ([c] + q));
    Around(p, Upper(c), q, p + ([Upper(c)] + q));
    assert Upper(Upper(c)) == Upper(c) && !IsSpace(Upper(c));
    SlipAndBack(ChangeCase(|p|, Upper(c)), ChangeCase(|p|, c), p + ([c] + q), p + ([Upper(c)] + q));
  }

  /** One character of white space, or a letter's case, behind `p`. */
  lemma {:induction false} FirstStripped(p: string, q: string)
    requires q != ""
    ensures SameTyping(p + q, p + StripOne(q[0]) + q[1..])
  {
    assert q == [q[0]] + q[1..];
    Regroup(p, StripOne(q[0]), q[1..]);
    if IsSpace(q[0]) {
      assert StripOne(q[0]) + q[1..] == q[1..];
      SpaceIsNothing(p, q[0], q[1..]);
    } else {
      CaseIsNothing(p, q[0], q[1..]);
    }
  }

  lemma {:induction false} StrippedIsRetyped(p: string, q: string)
    ensures SameTyping(p + q, p + Stripped(q))
    decreases q
  {
    if q == "" {
      SameTypingSelf(p + q);
    } else {
      var one, rest := StripOne(q[0]), q[1..];
      FirstStripped(p, q);
      StrippedIsRetyped(p + one, rest);
      Regroup(p, one, Stripped(rest));
      SameTypingOn(p + q, p + one + rest, p + Stripped(q));
    }
  }

  lemma {:induction false} DashIsNothing(p: string, q: string)
    requires |p| >= |PREFIX| && Spaceless(p)
    ensures SameTyping(p + (['-'] + q), p + q)
  {
    SpacelessKeepsLength(p);
    Around(p, '-', q, p + (['-'] + q));
    assert (p + q)[..|p|] == p && (p + q)[|p|..] == q;
    SlipAndBack(DropDash(|p|), AddDash(|p|), p + (['-'] + q), p + q);
  }

  lemma {:induction false} DashlessIsRetyped(p: string, q: string)
    requires |p| >= |PREFIX| && Spaceless(p) && Spaceless(q)
    ensures SameTyping(p + q, p + WithoutDashes(q))
    decreases q
  {
    if q == "" {
      SameTypingSelf(p + q);
    } else {
      var c, rest := q[0], q[1..];
      assert q == [c] + rest && Spaceless(rest);
      DashesCons(c, rest);
      if c == '-' {
        DashIsNothing(p, rest);
        DashlessIsRetyped(p, rest);
        DropEmpty(p, WithoutDashes(rest));
        SameTypingOn(p + q, p + rest, p + WithoutDashes(q));
      } else {
        assert Spaceless(p + [c]);
        DashlessIsRetyped(p + [c], rest);
        Regroup(p, [c], WithoutDashes(rest));
        Regroup(p, [c], rest);
      }
    }
  }

  lemma {:induction false} DropEmpty(p: string, q: string)
    ensures p + ("" + q) == p + q
  {
  }

  /** A text with the prefix is its prefix and bare body, retyped. */
  lemma {:induction false} BareIsRetyped(t: string)
    requires |Stripped(t)| >= |PREFIX| && Stripped(t)[..|PREFIX|] == PREFIX
    ensures SameTyping(t, PREFIX + WithoutDashes(Stripped(t)[|PREFIX|..]))
  {
    var stripped := Stripped(t);
    StrippedIsRetyped("", t);
    assert "" + t == t && "" + stripped == stripped;
    StrippedIsSpaceless(t);
    assert stripped == PREFIX + stripped[|PREFIX|..];
    assert Spaceless(PREFIX) by { assert forall i :: 0 <= i < |PREFIX| ==> PREFIX[i] == stripped[i]; }
    DashlessIsRetyped(PREFIX, stripped[|PREFIX|..]);
    SameTypingOn(t, stripped, PREFIX + WithoutDashes(stripped[|PREFIX|..]));
  }

  lemma {:induction false} HexDigitOf(c: char)
    requires IsUpperHex(c)
    ensures Upper(HexChar(HexValue(c))) == c
  {
  }

  /** Digits that were read are the digits of what was read. */
  lemma {:induction false} HexUnhex(s: string)
    requires AllHex(s) && |s| % 2 == 0
    ensures UpperAll(Hex(Unhex(s))) == s
  {
    if s != "" {
      HexUnhex(s[2..]);
      HexDigitOf(s[0]);
      HexDigitOf(s[1]);
      var b := Unhex(s)[0];
      UnhexFirst(s, b);
      HexStep(b, Unhex(s[2..]), s[0], s[1]);
    }
  }

  lemma {:induction false} UnhexFirst(s: string, b: byte)
    requires AllHex(s) && |s| % 2 == 0 && s != "" && b == Unhex(s)[0]
    ensures Unhex(s) == [b] + Unhex(s[2..]) && s == [s[0], s[1]] + s[2..]
    ensures b / 16 == HexValue(s[0]) && b % 16 == HexValue(s[1])
  {
  }

  lemma {:induction false} HexStep(b: byte, rest: seq<byte>, hi: char, lo: char)
    requires Upper(HexChar(b / 16)) == hi && Upper(HexChar(b % 16)) == lo
    ensures UpperAll(Hex([b] + rest)) == [hi, lo] + UpperAll(Hex(rest))
  {
    assert ([b] + rest)[1..] == rest;
  }

  /** The bare body of a code. */
  function BareBody(key: seq<byte>, sum: Checksum): string {
    UpperAll(Hex(key + ChecksumBytes(sum, key)))
  }

  lemma {:induction false} CodeIsBare(key: seq<byte>, sum: Checksum)
    ensures SameTyping(Code(key, sum), PREFIX + BareBody(key, sum))
  {
    var all := Hex(key + ChecksumBytes(sum, key));
    var grouped := Join(Groups(all, 4), '-');
    HexIsText(key + ChecksumBytes(sum, key));
    GroupsReadBack(all);
    StrippedConcat(PREFIX, grouped);
    PrefixStrips();
    assert Stripped(Code(key, sum))[..|PREFIX|] == PREFIX && Stripped(Code(key, sum))[|PREFIX|..] == Stripped(grouped);
    BareIsRetyped(Code(key, sum));
  }

  lemma {:induction false} ReadBody(stripped: string, sum: Checksum, key: seq<byte>)
    requires ReadStripped(stripped, sum) == Some(key)
    ensures |stripped| >= |PREFIX| && stripped[..|PREFIX|] == PREFIX
    ensures WithoutDashes(stripped[|PREFIX|..]) == BareBody(key, sum)
  {
    var body := WithoutDashes(stripped[|PREFIX|..]);
    HexUnhex(body[..2 * KEY_LEN]);
    HexConcat(key, ChecksumBytes(sum, key));
    assert body == body[..2 * KEY_LEN] + body[2 * KEY_LEN..];
    assert BareBody(key, sum) == UpperAll(Hex(key)) + UpperAll(Hex(ChecksumBytes(sum, key)));
  }

  /**
   * A text is read as a key if and only if it is that key's code, retyped. So a wrong prefix, length, digit or
   * checksum is always refused.
   */
  lemma {:induction false} ReadExactly(t: string, sum: Checksum, key: seq<byte>)
    ensures Read(t, sum) == Some(key) <==> |key| == KEY_LEN && IsRetyped(Code(key, sum), t)
  {
    if Read(t, sum) == Some(key) {
      ReadBody(Stripped(t), sum, key);
      BareIsRetyped(t);
      CodeIsBare(key, sum);
      SameTypingOn(Code(key, sum), PREFIX + BareBody(key, sum), t);
    }
    if |key| == KEY_LEN && IsRetyped(Code(key, sum), t) {
      var slips :| Retyped(Code(key, sum), t, slips);
      RetypedCode(key, sum, t, slips);
    }
  }
}
