/** Splitting a text at a separator and joining it back, as `String.split` and `Array.join` do. */
module Text {

  datatype Option<+T> = None | Some(value: T)

  predicate Free(s: string, sep: char) {
    sep !in s
  }

  function Split(s: string, sep: char): (r: seq<string>)
    ensures |r| >= 1
    ensures forall i :: 0 <= i < |r| ==> Free(r[i], sep)
  {
    if s == "" then [""]
    else
      var rest := Split(s[1..], sep);
      if s[0] == sep then [""] + rest else [[s[0]] + rest[0]] + rest[1..]
  }

  function Join(lines: seq<string>, sep: char): string {
    if lines == [] then ""
    else if |lines| == 1 then lines[0]
    else lines[0] + [sep] + Join(lines[1..], sep)
  }

  lemma {:induction false} JoinSplit(s: string, sep: char)
    ensures Join(Split(s, sep), sep) == s
  {
    if s != "" {
      JoinSplit(s[1..], sep);
      var rest := Split(s[1..], sep);
      if s[0] == sep {
        assert ([""] + rest)[1..] == rest;
        assert s == [sep] + s[1..];
      } else {
        var r := [[s[0]] + rest[0]] + rest[1..];
        assert r[1..] == rest[1..];
        assert Join(r, sep) == [s[0]] + Join(rest, sep);
      }
    }
  }

  lemma {:induction false} SplitCons(line: string, rest: string, sep: char)
    requires Free(line, sep)
    ensures Split(line + [sep] + rest, sep) == [line] + Split(rest, sep)
  {
    var s := line + [sep] + rest;
    if line == "" {
      assert s[1..] == rest;
    } else {
      assert s[1..] == line[1..] + [sep] + rest;
      SplitCons(line[1..], rest, sep);
      assert line == [line[0]] + line[1..];
    }
  }

  /** A separator splits whatever stands around it. */
  lemma {:induction false} SplitAround(a: string, b: string, sep: char)
    ensures Split(a + ([sep] + b), sep) == Split(a, sep) + Split(b, sep)
  {
    if a == "" {
      assert a + ([sep] + b) == [sep] + b;
      SplitStep(sep, b, sep);
    } else {
      SplitAround(a[1..], b, sep);
      assert a == [a[0]] + a[1..] && a + ([sep] + b) == [a[0]] + (a[1..] + ([sep] + b));
      SplitStep(a[0], a[1..], sep);
      SplitStep(a[0], a[1..] + ([sep] + b), sep);
      InFront(a[0], Split(a[1..], sep), Split(b, sep));
    }
  }

  lemma {:induction false} SplitStep(c: char, s: string, sep: char)
    ensures Split([c] + s, sep)
            == if c == sep then [""] + Split(s, sep) else [[c] + Split(s, sep)[0]] + Split(s, sep)[1..]
  {
    assert ([c] + s)[1..] == s;
  }

  lemma {:induction false} InFront(c: char, first: seq<string>, rest: seq<string>)
    requires first != []
    ensures [[c] + (first + rest)[0]] + (first + rest)[1..] == ([[c] + first[0]] + first[1..]) + rest
    ensures [""] + (first + rest) == ([""] + first) + rest
  {
  }

  lemma {:induction false} SplitFree(line: string, sep: char)
    requires Free(line, sep)
    ensures Split(line, sep) == [line]
  {
    if line != "" {
      SplitFree(line[1..], sep);
      assert line == [line[0]] + line[1..];
    }
  }

  /** Joining loses nothing when the pieces do not contain the separator. */
  lemma {:induction false} SplitJoin(lines: seq<string>, sep: char)
    requires lines != []
    requires forall i :: 0 <= i < |lines| ==> Free(lines[i], sep)
    ensures Split(Join(lines, sep), sep) == lines
  {
    if |lines| == 1 {
      SplitFree(lines[0], sep);
    } else {
      SplitJoin(lines[1..], sep);
      SplitCons(lines[0], Join(lines[1..], sep), sep);
    }
  }

  predicate EndsWith(s: string, c: char) {
    |s| > 0 && s[|s| - 1] == c
  }

  /** A text ends with the separator exactly when its last piece is empty and it has more than one. */
  lemma {:induction false} EndsWithSplit(s: string, sep: char)
    ensures var r := Split(s, sep); EndsWith(s, sep) <==> (|r| >= 2 && r[|r| - 1] == "")
  {
    if s != "" {
      EndsWithSplit(s[1..], sep);
      if s[1..] == "" {
        assert s == [s[0]];
      } else {
        assert s[|s| - 1] == s[1..][|s[1..]| - 1];
      }
    }
  }

  // ---------------------------------------------------------------------------
  // Decimal numbers
  // ---------------------------------------------------------------------------

  predicate IsDigit(c: char) { '0' <= c <= '9' }

  predicate AllDigits(s: string) {
    s != "" && forall i :: 0 <= i < |s| ==> IsDigit(s[i])
  }

  function NatOf(digits: string): nat
    requires forall i :: 0 <= i < |digits| ==> IsDigit(digits[i])
  {
    if digits == "" then 0
    else
      assert IsDigit(digits[|digits| - 1]);
      10 * NatOf(digits[..|digits| - 1]) + (digits[|digits| - 1] - '0') as nat
  }

  function Decimal(n: nat): (s: string)
    ensures |s| > 0
    ensures forall i :: 0 <= i < |s| ==> IsDigit(s[i])
  {
    (if n < 10 then "" else Decimal(n / 10)) + ['0' + (n % 10) as char]
  }

  lemma {:induction false} NatOfDecimal(n: nat)
    ensures NatOf(Decimal(n)) == n
    ensures n > 0 ==> Decimal(n)[0] != '0'
    ensures n == 0 ==> Decimal(n) == "0"
  {
    var s := Decimal(n);
    if n < 10 {
      assert s[..|s| - 1] == "";
    } else {
      NatOfDecimal(n / 10);
      assert s[..|s| - 1] == Decimal(n / 10);
    }
  }
}
