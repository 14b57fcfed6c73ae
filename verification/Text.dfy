/** Byte strings: character classes, searching, and the byte order `std::map` iterates in. */
module Text {

  /** `isspace` in the C locale. */
  predicate IsSpace(c: char) {
    c == ' ' || c == '\t' || c == '\n' || c == '\r' || c == 11 as char || c == 12 as char
  }

  predicate IsDigit(c: char) {
    '0' <= c <= '9'
  }

  function ToLower(c: char): char {
    if 'A' <= c <= 'Z' then ((c as int) + 32) as char else c
  }

  predicate EqualsIgnoreCase(a: string, b: string) {
    |a| == |b| && forall i | 0 <= i < |a| :: ToLower(a[i]) == ToLower(b[i])
  }

  /** Ignoring case identifies a letter with its partner 32 code points away, and nothing else. */
  lemma SameIgnoringCase(a: char, b: char)
    ensures EqualsIgnoreCase([a], [b])
       <==> a == b || ('A' <= a <= 'Z' && b as int == a as int + 32) || ('A' <= b <= 'Z' && a as int == b as int + 32)
  {
    assert [a][0] == a && [b][0] == b;
  }

  /** First position of `c`, or the length if it does not occur: `std::find`. */
  function IndexOf(s: string, c: char): (i: nat)
    ensures i <= |s|
    ensures i < |s| ==> s[i] == c
    ensures forall j | 0 <= j < i :: s[j] != c
  {
    if s == "" || s[0] == c then 0 else 1 + IndexOf(s[1..], c)
  }

  /** These three facts pin the position down. */
  lemma {:induction false} IndexOfIs(s: string, c: char, i: nat)
    requires i <= |s| && (i < |s| ==> s[i] == c) && forall j | 0 <= j < i :: s[j] != c
    ensures IndexOf(s, c) == i
  {
    if i > 0 {
      assert s[0] != c;
      IndexOfIs(s[1..], c, i - 1);
    }
  }

  // ---------------------------------------------------------------------------------------
  // Byte order.

  predicate LexLess(a: string, b: string) {
    if b == "" then false
    else if a == "" then true
    else if a[0] != b[0] then a[0] < b[0]
    else LexLess(a[1..], b[1..])
  }

  predicate LexLeq(a: string, b: string) {
    a == b || LexLess(a, b)
  }

  lemma {:induction false} LexTotal(a: string, b: string)
    ensures LexLess(a, b) || a == b || LexLess(b, a)
    decreases |a|
  {
    if a != "" && b != "" && a[0] == b[0] {
      LexTotal(a[1..], b[1..]);
      if a[1..] == b[1..] {
        assert a == [a[0]] + a[1..] == [b[0]] + b[1..] == b;
      }
    }
  }

  lemma {:induction false} LexAsymmetric(a: string, b: string)
    requires LexLess(a, b)
    ensures !LexLess(b, a) && a != b
    decreases |a|
  {
    if a != "" && a[0] == b[0] {
      LexAsymmetric(a[1..], b[1..]);
    }
  }

  lemma {:induction false} LexTransitive(a: string, b: string, c: string)
    requires LexLess(a, b) && LexLess(b, c)
    ensures LexLess(a, c)
    decreases |a|
  {
    if a != "" && a[0] == b[0] == c[0] {
      LexTransitive(a[1..], b[1..], c[1..]);
    }
  }

  /** The first difference of two strings of equal length decides their order. */
  lemma {:induction false} LexAtFirstDifference(a: string, b: string, i: nat)
    requires |a| == |b| && i < |a| && a[..i] == b[..i] && a[i] != b[i]
    ensures LexLess(a, b) <==> a[i] < b[i]
    decreases |a|
  {
    if i > 0 {
      assert a[0] == a[..i][0] == b[..i][0] == b[0];
      assert a[1..][..i - 1] == a[..i][1..] && b[1..][..i - 1] == b[..i][1..];
      LexAtFirstDifference(a[1..], b[1..], i - 1);
    }
  }

  lemma {:induction false} HasLeast(keys: set<string>) returns (k: string)
    requires keys != {}
    ensures k in keys && forall j | j in keys :: LexLeq(k, j)
    decreases |keys|
  {
    k :| k in keys;
    if keys != {k} {
      var rest := keys - {k};
      assert rest + {k} == keys;
      var m := HasLeast(rest);
      LexTotal(k, m);
      if !LexLeq(k, m) {
        k := m;
      } else {
        forall j | j in keys ensures LexLeq(k, j) {
          if j != k {
            assert j in rest;
            if m != j { LexTransitive(k, m, j); }
          }
        }
      }
    }
  }
}

/** Decimal numbers: how the program prints them and how it reads them back. */
module Decimal {
  import opened Options
  import opened Text

  const TWO_TO_64 := 0x1_0000_0000_0000_0000
  const MAX_UINT64 := TWO_TO_64 - 1
  const MAX_INT64 := 0x7fff_ffff_ffff_ffff
  const MIN_INT64 := -0x8000_0000_0000_0000
  const MAX_INT32 := 0x7fff_ffff
  const MIN_INT32 := -0x8000_0000

  predicate AllDigits(s: string) {
    forall i | 0 <= i < |s| :: IsDigit(s[i])
  }

  function DigitValue(c: char): nat
    requires IsDigit(c)
  {
    (c as int) - ('0' as int)
  }

  function DigitChar(d: nat): char
    requires d < 10
  {
    (('0' as int) + d) as char
  }

  /** The number a string of digits denotes. */
  function Value(s: string): nat
    requires AllDigits(s)
  {
    if s == "" then 0 else 10 * Value(s[..|s| - 1]) + DigitValue(s[|s| - 1])
  }

  /** `std::to_string` of an unsigned number. */
  function Print(n: nat): string {
    if n < 10 then [DigitChar(n)] else Print(n / 10) + [DigitChar(n % 10)]
  }

  function PrintInt(n: int): string {
    if n < 0 then "-" + Print(-n) else Print(n)
  }

  lemma {:induction false} PrintIsDigits(n: nat)
    ensures |Print(n)| > 0 && AllDigits(Print(n)) && Value(Print(n)) == n
  {
    if n < 10 {
      assert Print(n)[..0] == "";
    } else {
      PrintIsDigits(n / 10);
      assert Print(n)[..|Print(n)| - 1] == Print(n / 10);
    }
  }

  /** Number of leading digits. */
  function DigitRun(s: string): (n: nat)
    ensures n <= |s| && AllDigits(s[..n]) && (n < |s| ==> !IsDigit(s[n]))
  {
    if s == "" || !IsDigit(s[0]) then 0
    else
      var n := 1 + DigitRun(s[1..]);
      assert forall i | 0 < i < n :: s[i] == s[1..][i - 1];
      n
  }

  function SkipSpaces(s: string): string {
    if s != "" && IsSpace(s[0]) then SkipSpaces(s[1..]) else s
  }

  /** A sign and a digit run, after leading spaces; what follows is ignored, as `strtol` does. */
  datatype Scanned = NoNumber | Number(negative: bool, magnitude: nat)

  function ScanDigits(s: string, negative: bool): Scanned {
    var n := DigitRun(s);
    if n == 0 then NoNumber else Number(negative, Value(s[..n]))
  }

  function Scan(s: string): Scanned {
    var t := SkipSpaces(s);
    if t != "" && t[0] == '-' then ScanDigits(t[1..], true)
    else if t != "" && t[0] == '+' then ScanDigits(t[1..], false)
    else ScanDigits(t, false)
  }

  function Signed(s: Scanned): int
    requires s.Number?
  {
    var m: int := s.magnitude;
    if s.negative then -m else m
  }

  /** `std::stoi` and `std::stoll`: `None` where they throw. */
  function StoSigned(s: string, min: int, max: int): Option<int> {
    var n := Scan(s);
    if n.Number? && min <= Signed(n) <= max then Some(Signed(n)) else None
  }

  function Stoi(s: string): Option<int> { StoSigned(s, MIN_INT32, MAX_INT32) }

  function Stoll(s: string): Option<int> { StoSigned(s, MIN_INT64, MAX_INT64) }

  /** `std::stoull`: a minus sign negates modulo 2^64; only the magnitude is range-checked. */
  function Stoull(s: string): Option<nat> {
    var n := Scan(s);
    if n.NoNumber? || n.magnitude > MAX_UINT64 then None
    else if n.negative && n.magnitude > 0 then Some(TWO_TO_64 - n.magnitude)
    else Some(n.magnitude)
  }

  lemma {:induction false} DigitRunOfDigits(s: string)
    requires AllDigits(s)
    ensures DigitRun(s) == |s|
  {
    if s != "" {
      assert IsDigit(s[0]);
      DigitRunOfDigits(s[1..]);
    }
  }

  lemma ScanOfPrint(n: int)
    ensures Scan(PrintInt(n)) == Number(n < 0, if n < 0 then -n else n)
  {
    var m := if n < 0 then -n else n;
    PrintIsDigits(m);
    DigitRunOfDigits(Print(m));
    var d := Print(m);
    assert d[..|d|] == d;
    assert IsDigit(d[0]);
    if n < 0 {
      assert PrintInt(n)[1..] == d;
    }
  }

  lemma {:induction false} SkipsSpaces(pad: string, s: string)
    requires (forall ch | ch in pad :: IsSpace(ch)) && (s != "" ==> !IsSpace(s[0]))
    ensures SkipSpaces(pad + s) == s
  {
    if pad == "" {
      assert pad + s == s;
    } else {
      assert (pad + s)[1..] == pad[1..] + s;
      SkipsSpaces(pad[1..], s);
    }
  }

  lemma {:induction false} DigitRunIs(digits: string, tail: string)
    requires AllDigits(digits) && (tail != "" ==> !IsDigit(tail[0]))
    ensures DigitRun(digits + tail) == |digits|
  {
    if digits == "" {
      assert digits + tail == tail;
    } else {
      assert (digits + tail)[1..] == digits[1..] + tail;
      DigitRunIs(digits[1..], tail);
    }
  }

  /** Space, at most one sign, digits, and anything that does not go on with a digit. */
  ghost predicate Numeral(s: string, pad: string, sign: string, digits: string, tail: string) {
    && s == pad + (sign + (digits + tail))
    && (forall ch | ch in pad :: IsSpace(ch)) && (sign == "" || sign == "-" || sign == "+")
    && digits != "" && AllDigits(digits) && (tail != "" ==> !IsDigit(tail[0]))
  }

  lemma ScanReads(s: string, pad: string, sign: string, digits: string, tail: string)
    requires Numeral(s, pad, sign, digits, tail)
    ensures Scan(s) == Number(sign == "-", Value(digits))
  {
    hide Value, SkipSpaces;
    var rest := digits + tail;
    assert rest[0] == digits[0] && IsDigit(rest[0]);
    SkipsSpaces(pad, sign + rest);
    DigitRunIs(digits, tail);
    assert rest[..|digits|] == digits;
    if sign == "" {
      assert sign + rest == rest;
    } else {
      assert (sign + rest)[0] == sign[0] && (sign + rest)[1..] == rest;
    }
  }

  lemma {:induction false} SpacesSkipped(s: string) returns (pad: string)
    ensures s == pad + SkipSpaces(s) && forall ch | ch in pad :: IsSpace(ch)
  {
    pad := "";
    if s != "" && IsSpace(s[0]) {
      var p := SpacesSkipped(s[1..]);
      pad := [s[0]] + p;
      assert s == [s[0]] + s[1..];
    }
  }

  /** A number is found exactly in a numeral, and it is the one the numeral denotes. */
  lemma ScanFindsNumerals(s: string)
    ensures Scan(s).Number? <==> exists pad, sign, digits, tail :: Numeral(s, pad, sign, digits, tail)
    ensures forall pad, sign, digits, tail | Numeral(s, pad, sign, digits, tail) ::
              Scan(s) == Number(sign == "-", Value(digits))
  {
    hide Value, SkipSpaces;
    forall pad, sign, digits, tail | Numeral(s, pad, sign, digits, tail)
      ensures Scan(s) == Number(sign == "-", Value(digits))
    {
      ScanReads(s, pad, sign, digits, tail);
    }
    if Scan(s).Number? {
      var pad := SpacesSkipped(s);
      var t := SkipSpaces(s);
      var sign := if t[0] == '-' then "-" else if t[0] == '+' then "+" else "";
      var rest := t[|sign|..];
      var n := DigitRun(rest);
      assert t == sign + rest && rest == rest[..n] + rest[n..];
      assert Numeral(s, pad, sign, rest[..n], rest[n..]);
    }
  }

  /** The ranges of the three conversions, and the base of the digits. */
  lemma RangesAre(s: string)
    ensures Stoi(s).Some? <==> Scan(s).Number? && -2147483648 <= Signed(Scan(s)) <= 2147483647
    ensures Stoll(s).Some? <==> Scan(s).Number? && -9223372036854775808 <= Signed(Scan(s)) <= 9223372036854775807
    ensures Stoull(s).Some? <==> Scan(s).Number? && Scan(s).magnitude <= 18446744073709551615
    ensures Value("0") == 0 && Value("9") == 9 && Value("10") == 10
  {
    assert "10"[..1] == "1" && "1"[..0] == "" && "0"[..0] == "" && "9"[..0] == "";
  }

  /** What the program prints it reads back, signed and unsigned. */
  lemma PrintThenRead(n: int)
    ensures MIN_INT64 <= n <= MAX_INT64 ==> Stoll(PrintInt(n)) == Some(n)
    ensures 0 <= n <= MAX_UINT64 ==> Stoull(PrintInt(n)) == Some(n)
    ensures MIN_INT32 <= n <= MAX_INT32 ==> Stoi(PrintInt(n)) == Some(n)
  {
    ScanOfPrint(n);
  }

  /** A printed number holds nothing but digits and possibly a leading minus sign. */
  lemma PrintedCharacters(n: int, c: char)
    requires !IsDigit(c) && c != '-'
    ensures c !in PrintInt(n) && PrintInt(n) != "" && PrintInt(n) != "-"
  {
    PrintIsDigits(if n < 0 then -n else n);
    var d := Print(if n < 0 then -n else n);
    assert c !in d;
    if n >= 0 { assert IsDigit(d[0]); } else { assert |PrintInt(n)| == 1 + |d|; }
  }
}
