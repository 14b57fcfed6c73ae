/**
 The Base64 text under which a dead letter keeps its source payload, and the strict decoder of
 section 4 of RFC 4648 that reads it back.
 */
module Base64 {
  import opened Options

  type Byte = b: nat | b < 256

  const UPPER := "ABCDEFGHIJKLMNOPQRSTUVWXYZ"
  const LOWER := "abcdefghijklmnopqrstuvwxyz"
  const OTHERS := "0123456789+/"
  const ALPHABET := UPPER + LOWER + OTHERS

  /** The value of a symbol, by the ranges of table 1 of RFC 4648. */
  function Sextet(c: char): (r: Option<nat>)
    ensures r.Some? ==> r.value < 64
  {
    if 'A' <= c <= 'Z' then Some((c as int) - ('A' as int))
    else if 'a' <= c <= 'z' then Some((c as int) - ('a' as int) + 26)
    else if '0' <= c <= '9' then Some((c as int) - ('0' as int) + 52)
    else if c == '+' then Some(62)
    else if c == '/' then Some(63)
    else None
  }

  /** Three bytes from four symbols. */
  function DecodeGroup(q: string): (r: Option<seq<Byte>>)
    requires |q| == 4
    ensures r.Some? ==> |r.value| == 3
  {
    match (Sextet(q[0]), Sextet(q[1]), Sextet(q[2]), Sextet(q[3]))
    case (Some(a), Some(b), Some(c), Some(d)) =>
      Some([a * 4 + b / 16, b % 16 * 16 + c / 4, c % 4 * 64 + d])
    case _ => None
  }

  /** The last group may end in one or two pad characters; the bits they stand for must be zero. */
  function DecodeLast(q: string): (r: Option<seq<Byte>>)
    requires |q| == 4
    ensures r.Some? ==> 1 <= |r.value| <= 3
  {
    if q[3] != '=' then DecodeGroup(q)
    else if q[2] != '=' then
      match (Sextet(q[0]), Sextet(q[1]), Sextet(q[2]))
      case (Some(a), Some(b), Some(c)) => if c % 4 == 0 then Some([a * 4 + b / 16, b % 16 * 16 + c / 4]) else None
      case _ => None
    else
      match (Sextet(q[0]), Sextet(q[1]))
      case (Some(a), Some(b)) => if b % 16 == 0 then Some([a * 4 + b / 16]) else None
      case _ => None
  }

  /** Text made of unpadded groups only. */
  function DecodeFull(s: string): (r: Option<seq<Byte>>)
    ensures r.Some? ==> |s| % 4 == 0 && |r.value| == |s| / 4 * 3
  {
    if s == "" then Some([])
    else if |s| < 4 then None
    else
      match (DecodeFull(s[..|s| - 4]), DecodeGroup(s[|s| - 4..]))
      case (Some(x), Some(y)) => Some(x + y)
      case _ => None
  }

  function Decode(s: string): Option<seq<Byte>> {
    if s == "" then Some([])
    else if |s| < 4 then None
    else
      match (DecodeFull(s[..|s| - 4]), DecodeLast(s[|s| - 4..]))
      case (Some(x), Some(y)) => Some(x + y)
      case _ => None
  }

  // ---------------------------------------------------------------------------------------

  lemma LettersAreRanges(k: nat)
    requires k < 26
    ensures UPPER[k] as int == 'A' as int + k && LOWER[k] as int == 'a' as int + k
  {
    assert UPPER[k] as int == 'A' as int + k;
    assert LOWER[k] as int == 'a' as int + k;
  }

  lemma OthersAreStandard(k: nat)
    requires 52 <= k < 64
    ensures Sextet(OTHERS[k - 52]) == Some(k)
  {
    assert k < 62 ==> OTHERS[k - 52] as int == '0' as int + (k - 52);
  }

  lemma AlphabetIsStandard(k: nat)
    requires k < 64
    ensures Sextet(ALPHABET[k]) == Some(k) && ALPHABET[k] != '='
  {
    if k < 26 { LettersAreRanges(k); }
    else if k < 52 { LettersAreRanges(k - 26); }
    else { OthersAreStandard(k); }
  }

  /** The low six bits of a number as a symbol. */
  function Symbol(value: nat): char {
    ALPHABET[value % 64]
  }

  /** The 24 bits of up to three bytes; missing bytes are zero. */
  function Word(group: seq<Byte>): nat
    requires 1 <= |group| <= 3
  {
    var first: nat, second: nat, third: nat :=
      group[0], if |group| > 1 then group[1] else 0, if |group| > 2 then group[2] else 0;
    first * 65536 + second * 256 + third
  }

  lemma LastSextet(high: nat, s: nat)
    requires s < 64
    ensures (high * 64 + s) / 64 == high && (high * 64 + s) % 64 == s
  {
  }

  /** The sextets of 24 bits, put back together. */
  lemma SextetsOfBytes(first: nat, second: nat, third: nat, value: nat)
    requires first < 256 && second < 256 && third < 256 && value == first * 65536 + second * 256 + third
    ensures value / 262144 % 64 == first / 4
    ensures value / 4096 % 64 == first % 4 * 16 + second / 16
    ensures value / 64 % 64 == second % 16 * 4 + third / 64
    ensures value % 64 == third % 64
  {
    var a, b, c, d := first / 4, first % 4 * 16 + second / 16, second % 16 * 4 + third / 64, third % 64;
    LastSextet(a, b);
    LastSextet(a * 64 + b, c);
    LastSextet((a * 64 + b) * 64 + c, d);
    assert value == ((a * 64 + b) * 64 + c) * 64 + d;
    assert value / 4096 == value / 64 / 64 && value / 262144 == value / 4096 / 64;
  }

  lemma SymbolReads(value: nat)
    ensures Sextet(Symbol(value)) == Some(value % 64) && Symbol(value) != '='
  {
    AlphabetIsStandard(value % 64);
  }

  /** The four characters appended for one group. */
  predicate Encodes(q: string, group: seq<Byte>)
    requires 1 <= |group| <= 3
  {
    && |q| == 4
    && q[0] == Symbol(Word(group) / 262144) && q[1] == Symbol(Word(group) / 4096)
    && q[2] == (if |group| > 1 then Symbol(Word(group) / 64) else '=')
    && q[3] == (if |group| > 2 then Symbol(Word(group)) else '=')
  }

  /** Three bytes survive being cut into sextets; a zero byte leaves zero bits. */
  lemma Recombine(first: nat, second: nat, third: nat)
    requires first < 256 && second < 256 && third < 256
    ensures var a, b, c, d := first / 4, first % 4 * 16 + second / 16, second % 16 * 4 + third / 64, third % 64;
            && a * 4 + b / 16 == first && b % 16 * 16 + c / 4 == second && c % 4 * 64 + d == third
            && (second == 0 ==> b % 16 == 0) && (third == 0 ==> c % 4 == 0)
  {
    var b, c := first % 4 * 16 + second / 16, second % 16 * 4 + third / 64;
    assert b / 16 == first % 4 && b % 16 == second / 16;
    assert c / 4 == second % 16 && c % 4 == third / 64;
  }

  lemma GroupDecodes(group: seq<Byte>, q: string)
    requires 1 <= |group| <= 3 && Encodes(q, group)
    ensures DecodeLast(q) == Some(group)
    ensures |group| == 3 ==> DecodeGroup(q) == Some(group)
  {
    hide Symbol, Sextet;
    var value := Word(group);
    var second, third := if |group| > 1 then group[1] else 0, if |group| > 2 then group[2] else 0;
    SextetsOfBytes(group[0], second, third, value);
    Recombine(group[0], second, third);
    SymbolReads(value / 262144);
    SymbolReads(value / 4096);
    SymbolReads(value / 64);
    SymbolReads(value);
    if |group| == 1 { assert DecodeLast(q).value == [group[0]] == group; }
    else if |group| == 2 { assert DecodeLast(q).value == [group[0], group[1]] == group; }
    else { assert DecodeGroup(q).value == [group[0], group[1], group[2]] == group; }
  }

  function Smaller(a: nat, b: nat): nat { if a < b then a else b }

  /** One turn of the encoder's loop: four characters for the bytes at `i`. */
  method EncodeGroup(input: seq<Byte>, i: nat, size: nat) returns (q: string)
    requires i < size <= |input|
    ensures |q| == 4 && Encodes(q, input[i..Smaller(i + 3, size)])
  {
    hide Symbol;
    var first: nat := input[i];
    var second: nat := if i + 1 < size then input[i + 1] else 0;
    var third: nat := if i + 2 < size then input[i + 2] else 0;
    var value := first * 65536 + second * 256 + third;
    q := [Symbol(value / 262144)];
    q := q + [Symbol(value / 4096)];
    q := q + [if i + 1 < size then Symbol(value / 64) else '='];
    q := q + [if i + 2 < size then Symbol(value) else '='];
  }

  /**
   The encoder: the text it returns is the standard Base64 of the first `maxBytes` bytes. By
   `OneTextPerPayload` nothing else decodes to them.
   */
  method EncodePrefix(input: seq<Byte>, maxBytes: nat) returns (output: string)
    ensures Decode(output) == Some(input[..Smaller(|input|, maxBytes)])
    ensures |output| == (Smaller(|input|, maxBytes) + 2) / 3 * 4
  {
    hide Symbol, Encodes, Decode, DecodeFull;
    var size := Smaller(|input|, maxBytes);
    output := "";
    var i := 0;
    Nothing();
    while i < size
      invariant i % 3 == 0 && i < size + 3 && |output| == i / 3 * 4
      invariant i <= size ==> DecodeFull(output) == Some(input[..i])
      invariant Decode(output) == Some(input[..Smaller(i, size)])
    {
      var q := EncodeGroup(input, i, size);
      ghost var group := input[i..Smaller(i + 3, size)];
      AppendGroup(output, input[..i], q, group);
      assert input[..i] + group == input[..Smaller(i + 3, size)];
      output := output + q;
      i := i + 3;
    }
  }

  lemma Nothing()
    ensures Decode("") == Some([]) && DecodeFull("") == Some([])
  {
  }

  lemma AppendGroup(s: string, x: seq<Byte>, q: string, group: seq<Byte>)
    requires DecodeFull(s) == Some(x) && 1 <= |group| <= 3 && Encodes(q, group)
    ensures Decode(s + q) == Some(x + group)
    ensures |group| == 3 ==> DecodeFull(s + q) == Some(x + group)
  {
    hide Symbol, DecodeLast, DecodeGroup;
    GroupDecodes(group, q);
    assert (s + q)[..|s + q| - 4] == s && (s + q)[|s + q| - 4..] == q;
  }

  // ---------------------------------------------------------------------------------------
  // The decoder is injective, so a payload has exactly one text.

  lemma SextetIsInjective(c: char, d: char)
    requires Sextet(c).Some? && Sextet(c) == Sextet(d)
    ensures c == d
  {
  }

  /** Bytes determine the sextets they were put together from. */
  lemma BytesFixSextets(a: nat, b: nat, c: nat, a': nat, b': nat, c': nat)
    requires a < 64 && b < 64 && c < 64 && a' < 64 && b' < 64 && c' < 64
    requires a * 4 + b / 16 == a' * 4 + b' / 16
    ensures a == a' && b / 16 == b' / 16
    ensures b % 16 == b' % 16 ==> b == b'
    ensures b % 16 * 16 + c / 4 == b' % 16 * 16 + c' / 4 ==> b == b' && c / 4 == c' / 4
    ensures c / 4 == c' / 4 && c % 4 == c' % 4 ==> c == c'
  {
    assert b / 16 < 4 && b' / 16 < 4 && c / 4 < 16 && c' / 4 < 16;
  }

  lemma GroupIsInjective(p: string, q: string)
    requires |p| == |q| == 4 && DecodeLast(p).Some? && DecodeLast(p) == DecodeLast(q)
    ensures p == q
  {
    hide Sextet;
    NoPad();
    var x, y := DecodeLast(p).value, DecodeLast(q).value;
    assert |x| == (if q[3] != '=' then 3 else if q[2] != '=' then 2 else 1);
    assert |x| == (if p[3] != '=' then 3 else if p[2] != '=' then 2 else 1);
    var a, b, a', b' := Sextet(p[0]).value, Sextet(p[1]).value, Sextet(q[0]).value, Sextet(q[1]).value;
    var c, c' := if |x| > 1 then Sextet(p[2]).value else 0, if |x| > 1 then Sextet(q[2]).value else 0;
    assert x[0] == y[0];
    assert |x| > 1 ==> x[1] == y[1];
    assert |x| > 2 ==> x[2] == y[2];
    BytesFixSextets(a, b, c, a', b', c');
    SextetIsInjective(p[0], q[0]);
    SextetIsInjective(p[1], q[1]);
    if |x| > 1 { SextetIsInjective(p[2], q[2]); }
    if |x| > 2 { SextetIsInjective(p[3], q[3]); }
    assert p == [p[0], p[1], p[2], p[3]] && q == [q[0], q[1], q[2], q[3]];
  }

  /** An unpadded group is also a last group. */
  lemma GroupIsLast(q: string)
    requires |q| == 4 && DecodeGroup(q).Some?
    ensures DecodeLast(q) == DecodeGroup(q)
  {
    NoPad();
  }

  lemma NoPad()
    ensures Sextet('=').None?
  {
  }

  lemma FullUnfolds(s: string)
    requires s != "" && DecodeFull(s).Some?
    ensures |s| >= 4 && DecodeFull(s[..|s| - 4]).Some? && DecodeGroup(s[|s| - 4..]).Some?
    ensures DecodeFull(s).value == DecodeFull(s[..|s| - 4]).value + DecodeGroup(s[|s| - 4..]).value
  {
    hide DecodeGroup;
  }

  lemma SameSplit(a: seq<Byte>, b: seq<Byte>, c: seq<Byte>, d: seq<Byte>)
    requires a + b == c + d && |b| == |d|
    ensures a == c && b == d
  {
    assert |a| == |c|;
    assert (a + b)[..|a|] == a && (c + d)[..|c|] == c;
    assert (a + b)[|a|..] == b && (c + d)[|c|..] == d;
  }

  lemma {:induction false} FullIsInjective(s: string, t: string)
    requires DecodeFull(s).Some? && DecodeFull(s) == DecodeFull(t)
    ensures s == t
  {
    hide DecodeFull, DecodeGroup, DecodeLast;
    if s != "" {
      var n, m := |s| - 4, |t| - 4;
      assert |t| == |s|;
      FullUnfolds(s);
      FullUnfolds(t);
      SameSplit(DecodeFull(s[..n]).value, DecodeGroup(s[n..]).value, DecodeFull(t[..m]).value, DecodeGroup(t[m..]).value);
      FullIsInjective(s[..n], t[..m]);
      GroupIsLast(s[n..]);
      GroupIsLast(t[m..]);
      GroupIsInjective(s[n..], t[m..]);
      assert s == s[..n] + s[n..] && t == t[..m] + t[m..];
    }
  }

  /** Base64 text that decodes is determined by what it decodes to. */
  lemma OneTextPerPayload(s: string, t: string)
    requires Decode(s).Some? && Decode(s) == Decode(t)
    ensures s == t
  {
    hide DecodeLast, DecodeFull;
    if s != "" && t != "" {
      var n, m, x := |s| - 4, |t| - 4, Decode(s).value;
      var k := |DecodeLast(s[n..]).value|;
      var j := |DecodeLast(t[m..]).value|;
      assert |x| == n / 4 * 3 + k == m / 4 * 3 + j;
      assert n == m && k == j;
      assert x[..|x| - k] == DecodeFull(s[..n]).value == DecodeFull(t[..n]).value;
      assert x[|x| - k..] == DecodeLast(s[n..]).value == DecodeLast(t[n..]).value;
      FullIsInjective(s[..n], t[..n]);
      GroupIsInjective(s[n..], t[n..]);
      assert s == s[..n] + s[n..] && t == t[..n] + t[n..];
    }
  }
}
