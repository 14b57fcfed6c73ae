/** Short codes: the base-62 text of a record id, at least six characters wide. */
module Base62 {
  import opened Text
  import opened Decimal

  const UPPER := "ABCDEFGHIJKLMNOPQRSTUVWXYZ"
  const LOWER := "abcdefghijklmnopqrstuvwxyz"
  const DECIMAL := "0123456789"
  const CHARS := DECIMAL + UPPER + LOWER
  const MIN_CODE_LENGTH := 6

  function Symbol(d: nat): char {
    CHARS[d % 62]
  }

  /** The digit a character stands for; other characters count as zero. */
  function Digit(c: char): nat {
    if '0' <= c <= '9' then (c as int) - ('0' as int)
    else if 'A' <= c <= 'Z' then (c as int) - ('A' as int) + 10
    else if 'a' <= c <= 'z' then (c as int) - ('a' as int) + 36
    else 0
  }

  /** The number a code denotes: the inverse of the encoding. */
  function Denotes(code: string): nat {
    if code == "" then 0 else 62 * Denotes(code[..|code| - 1]) + Digit(code[|code| - 1])
  }

  function Power(w: nat): nat {
    if w == 0 then 1 else 62 * Power(w - 1)
  }

  /** The last `w` base-62 digits of a number, most significant first. */
  function Digits(n: nat, w: nat): string {
    if w == 0 then "" else Digits(n / 62, w - 1) + [Symbol(n)]
  }

  /** Number of significant digits. */
  function Significant(n: nat): nat {
    if n == 0 then 0 else 1 + Significant(n / 62)
  }

  function Width(n: nat): nat {
    if Significant(n) < MIN_CODE_LENGTH then MIN_CODE_LENGTH else Significant(n)
  }

  function Code(n: nat): string {
    Digits(n, Width(n))
  }

  function Reversed(s: string): string {
    if s == "" then "" else Reversed(s[1..]) + [s[0]]
  }

  // ---------------------------------------------------------------------------------------

  lemma LettersAreRanges(k: nat)
    requires k < 26
    ensures UPPER[k] as int == 'A' as int + k && LOWER[k] as int == 'a' as int + k
  {
    assert UPPER[k] as int == 'A' as int + k;
    assert LOWER[k] as int == 'a' as int + k;
  }

  lemma DecimalIsARange(k: nat)
    requires k < 10
    ensures DECIMAL[k] as int == '0' as int + k
  {
  }

  /** The character of each digit: three ascending ranges of the alphabet. */
  function CharacterOf(k: nat): nat {
    if k < 10 then '0' as nat + k else if k < 36 then 'A' as nat + (k - 10) else 'a' as nat + (k - 36)
  }

  lemma PieceOf(k: nat)
    requires k < 62
    ensures CHARS[k] == if k < 10 then DECIMAL[k] else if k < 36 then UPPER[k - 10] else LOWER[k - 36]
  {
    var a, b, c := DECIMAL, UPPER, LOWER;
    assert |a| == 10 && |b| == 26 && |c| == 26;
  }

  lemma SymbolIs(d: nat)
    ensures Symbol(d) as int == CharacterOf(d % 62)
  {
    var k := d % 62;
    PieceOf(k);
    if k < 10 { DecimalIsARange(k); }
    else if k < 36 { LettersAreRanges(k - 10); }
    else { LettersAreRanges(k - 36); }
  }

  lemma SymbolReads(d: nat)
    ensures Digit(Symbol(d)) == d % 62
  {
    hide Symbol;
    SymbolIs(d);
  }

  /** The alphabet is in byte order. */
  lemma SymbolsAscend(a: nat, b: nat)
    ensures Symbol(a) < Symbol(b) <==> a % 62 < b % 62
    ensures Symbol(a) == Symbol(b) <==> a % 62 == b % 62
  {
    hide Symbol;
    SymbolIs(a);
    SymbolIs(b);
  }

  lemma {:induction false} DigitsLength(n: nat, w: nat)
    ensures |Digits(n, w)| == w
  {
    if w > 0 { DigitsLength(n / 62, w - 1); }
  }

  lemma {:induction false} DigitsDenote(n: nat, w: nat)
    requires w >= Significant(n)
    ensures Denotes(Digits(n, w)) == n
  {
    if w > 0 {
      var s := Digits(n, w);
      DigitsDenote(n / 62, w - 1);
      SymbolReads(n);
      assert s[..|s| - 1] == Digits(n / 62, w - 1);
    }
  }

  /** Left inverse: a code denotes the id it was made from. */
  lemma CodeDenotes(n: nat)
    ensures Denotes(Code(n)) == n
  {
    DigitsDenote(n, Width(n));
  }

  lemma CodeIsInjective(a: nat, b: nat)
    requires Code(a) == Code(b)
    ensures a == b
  {
    CodeDenotes(a);
    CodeDenotes(b);
  }

  lemma PowerIsPositive(w: nat)
    ensures Power(w) >= 1
  {
  }

  lemma {:induction false} SignificantBounds(n: nat, w: nat)
    ensures Significant(n) <= w <==> n < Power(w)
    decreases w
  {
    if w > 0 && n > 0 {
      SignificantBounds(n / 62, w - 1);
      assert n / 62 < Power(w - 1) <==> n < 62 * Power(w - 1);
    } else if n > 0 {
      assert Power(w) == 1;
    } else {
      PowerIsPositive(w);
    }
  }

  /** Every 64-bit id has a code of six to eleven characters. */
  lemma CodeLength(n: nat)
    requires n <= MAX_UINT64
    ensures 6 <= |Code(n)| <= 11
  {
    DigitsLength(n, Width(n));
    SignificantBounds(n, 11);
    assert Power(11) == 62 * (62 * (62 * (62 * (62 * Power(6)))));
    assert Power(6) == 62 * (62 * (62 * (62 * (62 * 62))));
  }

  predicate Shortlex(a: string, b: string) {
    |a| < |b| || (|a| == |b| && LexLess(a, b))
  }

  lemma {:induction false} LexOfAppended(a: string, b: string, x: char, y: char)
    requires |a| == |b|
    ensures LexLess(a + [x], b + [y]) <==> LexLess(a, b) || (a == b && x < y)
    decreases |a|
  {
    if a == "" {
      assert a + [x] == [x] && b + [y] == [y];
      assert [x][1..] == "" && [y][1..] == "";
    } else {
      assert (a + [x])[1..] == a[1..] + [x] && (b + [y])[1..] == b[1..] + [y];
      LexOfAppended(a[1..], b[1..], x, y);
      assert a == [a[0]] + a[1..] && b == [b[0]] + b[1..];
    }
  }

  lemma {:induction false} DigitsAscend(a: nat, b: nat, w: nat)
    requires a < b && w >= Significant(b)
    ensures LexLess(Digits(a, w), Digits(b, w))
    decreases w
  {
    hide Symbol, LexLess;
    var p, q := a / 62, b / 62;
    SymbolsAscend(a, b);
    DigitsLength(p, w - 1);
    DigitsLength(q, w - 1);
    LexOfAppended(Digits(p, w - 1), Digits(q, w - 1), Symbol(a), Symbol(b));
    if p < q { DigitsAscend(p, q, w - 1); }
  }

  lemma {:induction false} SignificantGrows(a: nat, b: nat)
    requires a <= b
    ensures Significant(a) <= Significant(b)
  {
    SignificantBounds(b, Significant(b));
    SignificantBounds(a, Significant(b));
  }

  /** Numeric order is shortlex order of the codes. */
  lemma CodesAscend(a: nat, b: nat)
    requires a < b
    ensures Shortlex(Code(a), Code(b))
  {
    SignificantGrows(a, b);
    DigitsLength(a, Width(a));
    DigitsLength(b, Width(b));
    if Width(a) == Width(b) { DigitsAscend(a, b, Width(b)); }
  }

  lemma ReversedAppend(s: string, c: char)
    ensures Reversed(s + [c]) == [c] + Reversed(s)
  {
    if s != "" { assert (s + [c])[1..] == s[1..] + [c]; }
  }

  /** `encoded` holds, least significant first, the digits of `id` that `value` no longer has. */
  ghost predicate Peeled(id: nat, encoded: string, value: nat) {
    forall m: nat :: Digits(id, m + |encoded|) == Digits(value, m) + Reversed(encoded)
  }

  lemma PeelOne(id: nat, encoded: string, value: nat)
    requires Peeled(id, encoded, value)
    ensures Peeled(id, encoded + [Symbol(value)], value / 62)
  {
    hide Symbol;
    var c := Symbol(value);
    ReversedAppend(encoded, c);
    forall m: nat ensures Digits(id, m + |encoded + [c]|) == Digits(value / 62, m) + Reversed(encoded + [c]) {
      assert Digits(id, (m + 1) + |encoded|) == Digits(value, m + 1) + Reversed(encoded);
      assert Digits(value, m + 1) == Digits(value / 62, m) + [c];
    }
  }

  lemma NothingPeeled(id: nat)
    ensures Peeled(id, "", id)
  {
    forall m: nat ensures Digits(id, m + |""|) == Digits(id, m) + Reversed("") {}
  }

  lemma AllPeeled(id: nat, encoded: string)
    requires Peeled(id, encoded, 0)
    ensures Digits(id, |encoded|) == Reversed(encoded)
  {
    assert Digits(id, 0 + |encoded|) == Digits(0, 0) + Reversed(encoded);
  }

  /** The encoder: digits from the least significant, padded, then reversed. */
  method EncodeBase62(id: nat) returns (encoded: string)
    ensures encoded == Code(id)
  {
    hide Symbol, Peeled;
    if id == 0 {
      AllZeros();
      return "000000";
    }
    encoded := "";
    var value := id;
    NothingPeeled(id);
    while value > 0
      invariant Significant(id) == |encoded| + Significant(value)
      invariant Peeled(id, encoded, value)
    {
      PeelOne(id, encoded, value);
      encoded := encoded + [Symbol(value)];
      value := value / 62;
    }
    while |encoded| < MIN_CODE_LENGTH
      invariant |encoded| == Significant(id) || Significant(id) < |encoded| <= MIN_CODE_LENGTH
      invariant Peeled(id, encoded, 0)
    {
      Zero();
      PeelOne(id, encoded, 0);
      encoded := encoded + ['0'];
    }
    AllPeeled(id, encoded);
    encoded := Reversed(encoded);
  }

  lemma Zero()
    ensures Symbol(0) == '0'
  {
    SymbolIs(0);
  }

  lemma AllZeros()
    ensures Code(0) == "000000"
  {
    hide Symbol;
    Zero();
    assert Digits(0, 6) == Digits(0, 4) + ['0'] + ['0'];
    assert Digits(0, 4) == Digits(0, 2) + ['0'] + ['0'];
    assert Digits(0, 2) == ['0', '0'];
  }
}
