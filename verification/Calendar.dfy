/**
 Calendar arithmetic: the closed-form day number against a count of days one by one, and the
 UTC timestamps that are read with it.
 */
module Calendar {
  import opened Options
  import opened Text
  import opened Decimal

  /** `/` and `%` of C++, which round toward zero. */
  function Quotient(a: int, b: int): int
    requires b > 0
  {
    if a >= 0 then a / b else -((-a) / b)
  }

  function Remainder(a: int, b: int): int
    requires b > 0
  {
    a - Quotient(a, b) * b
  }

  predicate IsLeapYear(year: int) {
    Remainder(year, 4) == 0 && (Remainder(year, 100) != 0 || Remainder(year, 400) == 0)
  }

  function DaysInMonth(year: int, month: int): int
    requires 1 <= month <= 12
  {
    if month == 2 && IsLeapYear(year) then 29
    else [31, 28, 31, 30, 31, 30, 31, 31, 30, 31, 30, 31][month - 1]
  }

  datatype Date = Date(year: int, month: int, day: int) {
    predicate Valid() { 1 <= month <= 12 && 1 <= day <= DaysInMonth(year, month) }
  }

  const EPOCH := Date(1970, 1, 1)

  function DaysFromCivil(d: Date): int {
    var y := if d.month <= 2 then d.year - 1 else d.year;
    var era := Quotient(if y >= 0 then y else y - 399, 400);
    var yearOfEra := y - era * 400;
    var adjustedMonth := d.month + (if d.month > 2 then -3 else 9);
    var dayOfYear := Quotient(153 * adjustedMonth + 2, 5) + d.day - 1;
    var dayOfEra := yearOfEra * 365 + Quotient(yearOfEra, 4) - Quotient(yearOfEra, 100) + dayOfYear;
    era * 146097 + dayOfEra - 719468
  }

  /** The calendar itself: the day after a date. */
  function Tomorrow(d: Date): (r: Date)
    requires d.Valid()
    ensures r.Valid()
  {
    if d.day < DaysInMonth(d.year, d.month) then Date(d.year, d.month, d.day + 1)
    else if d.month < 12 then Date(d.year, d.month + 1, 1)
    else Date(d.year + 1, 1, 1)
  }

  /** The date `n` days after a date, counting one day at a time. */
  function Ahead(d: Date, n: nat): (r: Date)
    requires d.Valid()
    ensures r.Valid()
  {
    if n == 0 then d else Tomorrow(Ahead(d, n - 1))
  }

  // ---------------------------------------------------------------------------------------
  // The closed form advances by one each day.

  /** Day of year counted from the first of March, with February last. */
  function MarchDay(month: int, day: int): int {
    var m := month + (if month > 2 then -3 else 9);
    Quotient(153 * m + 2, 5) + day - 1
  }

  /** The same table as sums of month lengths. */
  lemma MonthsAdvance(year: int, month: int)
    requires 1 <= month < 12 && month != 2
    ensures MarchDay(month + 1, 1) == MarchDay(month, DaysInMonth(year, month)) + 1
  {
  }

  function YearStart(y: int): int {
    var era := Quotient(if y >= 0 then y else y - 399, 400);
    var yearOfEra := y - era * 400;
    era * 146097 + yearOfEra * 365 + Quotient(yearOfEra, 4) - Quotient(yearOfEra, 100) - 719468
  }

  lemma DaysAreYearPlusDay(d: Date)
    ensures DaysFromCivil(d) == YearStart(if d.month <= 2 then d.year - 1 else d.year) + MarchDay(d.month, d.day)
  {
  }

  /** The era split is the count of leap days since year zero. */
  lemma YearStartIs(y: int)
    ensures YearStart(y) == 365 * y + y / 4 - y / 100 + y / 400 - 719468
  {
    var era := Quotient(if y >= 0 then y else y - 399, 400);
    assert era == y / 400;
    var r := y - era * 400;
    assert 0 <= r < 400;
    assert y / 4 == era * 100 + r / 4;
    assert y / 100 == era * 4 + r / 100;
  }

  lemma LeapYearIs(y: int)
    ensures IsLeapYear(y) <==> y % 4 == 0 && (y % 100 != 0 || y % 400 == 0)
  {
    RemainderZero(y, 4);
    RemainderZero(y, 100);
    RemainderZero(y, 400);
  }

  lemma RemainderZero(a: int, b: int)
    requires b > 0
    ensures Remainder(a, b) == 0 <==> a % b == 0
  {
    if a < 0 {
      var n := -a;
      assert n == n / b * b + n % b;
      if n % b == 0 { assert a == (-(n / b)) * b; ModOfMultiple(-(n / b), b); }
      if a % b == 0 { assert n == (-(a / b)) * b; ModOfMultiple(-(a / b), b); }
    }
  }

  lemma ModOfMultiple(k: int, b: int)
    requires b > 0
    ensures (k * b) % b == 0
  {
    var q, r := (k * b) / b, (k * b) % b;
    assert (k - q) * b == r;
    assert k - q >= 1 ==> (k - q) * b >= b;
    assert k - q <= -1 ==> (k - q) * b <= -b;
  }

  /** A year that starts in March is 366 days long exactly when the February at its end is in a leap year. */
  lemma YearAdvances(y: int)
    ensures YearStart(y) == YearStart(y - 1) + if IsLeapYear(y) then 366 else 365
  {
    hide YearStart, IsLeapYear;
    YearStartIs(y);
    YearStartIs(y - 1);
    LeapYearIs(y);
    LeapDayAdded(y);
  }

  lemma LeapDayAdded(y: int)
    ensures y / 4 - (y - 1) / 4 == if y % 4 == 0 then 1 else 0
    ensures y / 100 - (y - 1) / 100 == if y % 100 == 0 then 1 else 0
    ensures y / 400 - (y - 1) / 400 == if y % 400 == 0 then 1 else 0
    ensures (y % 400 == 0 ==> y % 100 == 0) && (y % 100 == 0 ==> y % 4 == 0)
  {
  }

  /** One day later is one more, for every date of every year. */
  lemma NextDayIsOneMore(d: Date)
    requires d.Valid()
    ensures DaysFromCivil(Tomorrow(d)) == DaysFromCivil(d) + 1
  {
    hide DaysFromCivil, YearStart, IsLeapYear;
    DaysAreYearPlusDay(d);
    DaysAreYearPlusDay(Tomorrow(d));
    if d.day == DaysInMonth(d.year, d.month) {
      if d.month == 2 { YearAdvances(d.year); }
      else if d.month < 12 { MonthsAdvance(d.year, d.month); }
    }
  }

  /** The closed form is the naive count: `n` days from the epoch have number `n`. */
  lemma {:induction false} CountsDays(n: nat)
    ensures DaysFromCivil(Ahead(EPOCH, n)) == n
  {
    hide DaysFromCivil;
    if n == 0 {
      EpochIsZero();
    } else {
      CountsDays(n - 1);
      NextDayIsOneMore(Ahead(EPOCH, n - 1));
    }
  }

  lemma EpochIsZero()
    ensures DaysFromCivil(EPOCH) == 0
  {
  }

  // ---------------------------------------------------------------------------------------
  // Order, injectivity, and every date from the epoch on is reached.

  predicate Before(a: Date, b: Date) {
    || a.year < b.year
    || (a.year == b.year && (a.month < b.month || (a.month == b.month && a.day < b.day)))
  }

  lemma TomorrowIsNext(d: Date, e: Date)
    requires d.Valid() && e.Valid() && Before(d, e)
    ensures Tomorrow(d) == e || Before(Tomorrow(d), e)
  {
  }

  /** Yesterday's date, the inverse of `Tomorrow`. */
  function Yesterday(d: Date): (r: Date)
    requires d.Valid()
    ensures r.Valid() && Tomorrow(r) == d && Before(r, d)
  {
    if d.day > 1 then Date(d.year, d.month, d.day - 1)
    else if d.month > 1 then Date(d.year, d.month - 1, DaysInMonth(d.year, d.month - 1))
    else Date(d.year - 1, 12, 31)
  }

  function Rank(d: Date): int {
    d.year * 372 + d.month * 31 + d.day
  }

  lemma BeforeRanks(a: Date, b: Date)
    requires a.Valid() && b.Valid() && Before(a, b)
    ensures Rank(a) < Rank(b) && !Before(b, a) && a != b
  {
  }

  lemma TomorrowIsAfter(d: Date)
    requires d.Valid()
    ensures Before(d, Tomorrow(d))
  {
  }

  /** Later dates have larger day numbers. */
  lemma {:induction false} DaysAscend(a: Date, b: Date)
    requires a.Valid() && b.Valid() && Before(a, b)
    ensures DaysFromCivil(a) < DaysFromCivil(b)
    decreases Rank(b) - Rank(a)
  {
    hide DaysFromCivil, DaysInMonth, Before, Rank, Tomorrow;
    var t := Tomorrow(a);
    NextDayIsOneMore(a);
    TomorrowIsAfter(a);
    TomorrowIsNext(a, b);
    BeforeRanks(a, b);
    BeforeRanks(a, t);
    if t != b { DaysAscend(t, b); }
  }

  /** Every date from the epoch on is reached by counting its own number of days. */
  lemma {:induction false} DaysReachDate(d: Date)
    requires d.Valid() && (d == EPOCH || Before(EPOCH, d))
    ensures DaysFromCivil(d) >= 0 && Ahead(EPOCH, DaysFromCivil(d)) == d
    decreases Rank(d)
  {
    hide DaysFromCivil, DaysInMonth, Rank;
    EpochIsZero();
    if d != EPOCH {
      var y := Yesterday(d);
      BeforeRanks(y, d);
      EpochOrAfter(y, d);
      RankIsPositive(y);
      DaysReachDate(y);
      NextDayIsOneMore(y);
    }
  }

  lemma RankIsPositive(d: Date)
    requires d.Valid() && (d == EPOCH || Before(EPOCH, d))
    ensures Rank(d) > 0
  {
  }

  lemma EpochOrAfter(y: Date, d: Date)
    requires y.Valid() && d.Valid() && Tomorrow(y) == d && Before(EPOCH, d)
    ensures y == EPOCH || Before(EPOCH, y)
  {
  }

  // ---------------------------------------------------------------------------------------
  // Timestamps.

  datatype Moment = Moment(date: Date, hour: int, minute: int, second: int)

  /** The digits of a slice as a number. */
  function Number(value: string, begin: nat, count: nat): Option<nat>
    requires begin + count <= |value|
  {
    var s := value[begin..begin + count];
    if AllDigits(s) then Some(Value(s)) else None
  }

  predicate Shaped(value: string) {
    && |value| == 20
    && value[4] == '-' && value[7] == '-' && value[10] == 'T' && value[13] == ':' && value[16] == ':' && value[19] == 'Z'
  }

  function ReadMoment(value: string): Option<Moment>
    requires |value| == 20
  {
    match (Number(value, 0, 4), Number(value, 5, 2), Number(value, 8, 2),
           Number(value, 11, 2), Number(value, 14, 2), Number(value, 17, 2))
    case (Some(year), Some(month), Some(day), Some(hour), Some(minute), Some(second)) =>
      Some(Moment(Date(year, month, day), hour, minute, second))
    case _ => None
  }

  predicate Acceptable(m: Moment) {
    && m.date.Valid() && m.date.year >= 1970
    && 0 <= m.hour <= 23 && 0 <= m.minute <= 59 && 0 <= m.second <= 59
  }

  function Seconds(m: Moment): int {
    DaysFromCivil(m.date) * 86400 + m.hour * 3600 + m.minute * 60 + m.second
  }

  function Timestamp(value: string): Option<int> {
    if Shaped(value) && ReadMoment(value).Some? && Acceptable(ReadMoment(value).value)
    then Some(Seconds(ReadMoment(value).value))
    else None
  }

  method ParseDigits(value: string, begin: nat, count: nat) returns (r: Option<nat>)
    requires begin + count <= |value|
    ensures r == Number(value, begin, count)
  {
    var parsed: nat := 0;
    var i := begin;
    while i < begin + count
      invariant begin <= i <= begin + count
      invariant AllDigits(value[begin..i]) && parsed == Value(value[begin..i])
    {
      if value[i] < '0' || value[i] > '9' {
        assert value[begin..begin + count][i - begin] == value[i];
        return None;
      }
      ghost var more := value[begin..i + 1];
      assert more == value[begin..i] + [value[i]];
      assert more[..|more| - 1] == value[begin..i] && more[|more| - 1] == value[i];
      parsed := parsed * 10 + DigitValue(value[i]);
      i := i + 1;
    }
    return Some(parsed);
  }

  method ParseUtcTimestamp(value: string) returns (r: Option<int>)
    ensures r == Timestamp(value)
  {
    hide Number, DaysFromCivil, DaysInMonth;
    if |value| != 20 || value[4] != '-' || value[7] != '-' || value[10] != 'T' ||
       value[13] != ':' || value[16] != ':' || value[19] != 'Z' {
      return None;
    }
    var year := ParseDigits(value, 0, 4);
    var month := ParseDigits(value, 5, 2);
    var day := ParseDigits(value, 8, 2);
    var hour := ParseDigits(value, 11, 2);
    var minute := ParseDigits(value, 14, 2);
    var second := ParseDigits(value, 17, 2);
    if year.None? || month.None? || day.None? || hour.None? || minute.None? || second.None? {
      return None;
    }
    if year.value < 1970 || month.value < 1 || month.value > 12 ||
       day.value < 1 || day.value > DaysInMonth(year.value, month.value) ||
       hour.value > 23 || minute.value > 59 || second.value > 59 {
      return None;
    }
    return Some(DaysFromCivil(Date(year.value, month.value, day.value)) * 86400 +
                hour.value * 3600 + minute.value * 60 + second.value);
  }

  // ---------------------------------------------------------------------------------------
  // Byte order of accepted strings is the order of the moments they name.

  predicate MomentBefore(a: Moment, b: Moment) {
    || Before(a.date, b.date)
    || (a.date == b.date && (a.hour < b.hour
        || (a.hour == b.hour && (a.minute < b.minute || (a.minute == b.minute && a.second < b.second)))))
  }

  lemma SecondsAscend(a: Moment, b: Moment)
    requires Acceptable(a) && Acceptable(b) && MomentBefore(a, b)
    ensures Seconds(a) < Seconds(b)
  {
    hide DaysFromCivil, DaysInMonth;
    if Before(a.date, b.date) { DaysAscend(a.date, b.date); }
  }

  /** Of two digit strings of equal length the one with the smaller first differing digit is smaller. */
  lemma {:induction false} ValueAtFirstDifference(a: string, b: string, k: nat)
    requires |a| == |b| && k < |a| && AllDigits(a) && AllDigits(b) && a[..k] == b[..k] && a[k] < b[k]
    ensures Value(a) < Value(b)
  {
    var n := |a| - 1;
    if k == n {
      assert a[..n] == a[..k] && b[..n] == b[..k];
    } else {
      assert a[..n][..k] == a[..k] && b[..n][..k] == b[..k];
      ValueAtFirstDifference(a[..n], b[..n], k);
    }
  }

  lemma NumberAtFirstDifference(s: string, t: string, i: nat, begin: nat, count: nat)
    requires |s| == |t| && begin + count <= |s| && i < |s| && s[..i] == t[..i] && s[i] < t[i]
    requires Number(s, begin, count).Some? && Number(t, begin, count).Some?
    ensures begin + count <= i ==> Number(s, begin, count) == Number(t, begin, count)
    ensures begin <= i < begin + count ==> Number(s, begin, count).value < Number(t, begin, count).value
  {
    var a, b := s[begin..begin + count], t[begin..begin + count];
    if begin + count <= i {
      assert a == s[..i][begin..begin + count] && b == t[..i][begin..begin + count];
    } else if begin <= i {
      assert a[..i - begin] == s[..i][begin..] && b[..i - begin] == t[..i][begin..];
      ValueAtFirstDifference(a, b, i - begin);
    }
  }

  lemma {:induction false} FirstDifference(s: string, t: string) returns (i: nat)
    requires |s| == |t| && s != t
    ensures i < |s| && s[..i] == t[..i] && s[i] != t[i]
  {
    if s[0] != t[0] {
      i := 0;
    } else {
      assert s == [s[0]] + s[1..] && t == [t[0]] + t[1..];
      var k := FirstDifference(s[1..], t[1..]);
      assert s[..k + 1] == [s[0]] + s[1..][..k] && t[..k + 1] == [t[0]] + t[1..][..k];
      i := k + 1;
    }
  }

  lemma MomentsInOrder(s: string, t: string, i: nat)
    requires Timestamp(s).Some? && Timestamp(t).Some?
    requires i < 20 && s[..i] == t[..i] && s[i] < t[i]
    ensures MomentBefore(ReadMoment(s).value, ReadMoment(t).value)
  {
    hide Number, Seconds, Acceptable;
    NumberAtFirstDifference(s, t, i, 0, 4);
    NumberAtFirstDifference(s, t, i, 5, 2);
    NumberAtFirstDifference(s, t, i, 8, 2);
    NumberAtFirstDifference(s, t, i, 11, 2);
    NumberAtFirstDifference(s, t, i, 14, 2);
    NumberAtFirstDifference(s, t, i, 17, 2);
    assert i != 4 && i != 7 && i != 10 && i != 13 && i != 16 && i != 19;
  }

  /** Accepted timestamps: byte order is time order, so no two strings name the same second. */
  lemma TimestampsKeepOrder(s: string, t: string)
    requires Timestamp(s).Some? && Timestamp(t).Some?
    ensures Timestamp(s).value < Timestamp(t).value <==> LexLess(s, t)
    ensures Timestamp(s) == Timestamp(t) <==> s == t
  {
    hide ReadMoment, Seconds, Acceptable, MomentBefore;
    if s == t {
      if LexLess(s, t) { LexAsymmetric(s, t); }
    } else {
      var i := FirstDifference(s, t);
      LexAtFirstDifference(s, t, i);
      if s[i] < t[i] {
        MomentsInOrder(s, t, i);
        SecondsAscend(ReadMoment(s).value, ReadMoment(t).value);
      } else {
        MomentsInOrder(t, s, i);
        SecondsAscend(ReadMoment(t).value, ReadMoment(s).value);
      }
    }
  }

  /** The day part of an accepted timestamp is the number of days counted one by one since the epoch. */
  lemma TimestampCountsDays(value: string)
    requires Timestamp(value).Some?
    ensures var m := ReadMoment(value).value;
            var days := Timestamp(value).value / 86400;
            days >= 0 && Ahead(EPOCH, days) == m.date
    ensures Timestamp(value).value % 86400 == ReadMoment(value).value.hour * 3600
                                              + ReadMoment(value).value.minute * 60 + ReadMoment(value).value.second
  {
    hide ReadMoment, DaysFromCivil, Ahead;
    var m := ReadMoment(value).value;
    DaysReachDate(m.date);
    var rest := m.hour * 3600 + m.minute * 60 + m.second;
    assert 0 <= rest < 86400;
  }

  // ---------------------------------------------------------------------------------------
  // The texts accepted are those of the seconds from 1970 to 9999.

  /** The last decimal digit. */
  function Last(n: nat): char {
    DigitChar(n % 10)
  }

  /** `%Y-%m-%dT%H:%M:%SZ` */
  function MomentText(m: Moment): string
    requires Acceptable(m) && m.date.year <= 9999
  {
    var y := m.date.year;
    [Last(y / 1000), Last(y / 100), Last(y / 10), Last(y), '-',
     Last(m.date.month / 10), Last(m.date.month), '-', Last(m.date.day / 10), Last(m.date.day), 'T',
     Last(m.hour / 10), Last(m.hour), ':', Last(m.minute / 10), Last(m.minute), ':', Last(m.second / 10), Last(m.second), 'Z']
  }

  lemma TwoIs(s: string, i: nat)
    requires i + 2 <= |s|
    ensures AllDigits(s[i..i + 2]) <==> IsDigit(s[i]) && IsDigit(s[i + 1])
    ensures AllDigits(s[i..i + 2]) ==> Value(s[i..i + 2]) == 10 * DigitValue(s[i]) + DigitValue(s[i + 1])
  {
    var t := s[i..i + 2];
    assert t[0] == s[i] && t[1] == s[i + 1];
    if AllDigits(t) {
      assert t[..1] == [s[i]] && t[..1][..0] == "";
      assert Value(t[..1]) == DigitValue(s[i]);
      assert Value(t) == 10 * Value(t[..1]) + DigitValue(s[i + 1]);
    }
  }

  lemma FourIs(s: string)
    requires 4 <= |s|
    ensures AllDigits(s[0..4]) <==> IsDigit(s[0]) && IsDigit(s[1]) && IsDigit(s[2]) && IsDigit(s[3])
    ensures AllDigits(s[0..4]) ==>
              Value(s[0..4]) == 1000 * DigitValue(s[0]) + 100 * DigitValue(s[1]) + 10 * DigitValue(s[2]) + DigitValue(s[3])
  {
    var t := s[0..4];
    assert forall i | 0 <= i < 4 :: t[i] == s[i];
    TwoIs(s, 0);
    if AllDigits(t) {
      assert IsDigit(t[0]) && IsDigit(t[1]) && IsDigit(t[2]) && IsDigit(t[3]);
      assert t[..3][..2] == s[0..2];
      assert Value(t[..3]) == 10 * Value(s[0..2]) + DigitValue(s[2]);
      assert Value(t) == 10 * Value(t[..3]) + DigitValue(s[3]);
    }
  }

  lemma LastTwo(n: nat)
    requires n < 100
    ensures IsDigit(Last(n / 10)) && IsDigit(Last(n)) && 10 * DigitValue(Last(n / 10)) + DigitValue(Last(n)) == n
  {
  }

  lemma LastFour(n: nat)
    requires n < 10000
    ensures IsDigit(Last(n / 1000)) && IsDigit(Last(n / 100)) && IsDigit(Last(n / 10)) && IsDigit(Last(n))
    ensures 1000 * DigitValue(Last(n / 1000)) + 100 * DigitValue(Last(n / 100)) + 10 * DigitValue(Last(n / 10))
            + DigitValue(Last(n)) == n
  {
    hide Last, DigitValue;
    LastDigit(n / 1000);
    LastDigit(n / 100);
    LastDigit(n / 10);
    LastDigit(n);
    assert n == 10 * (n / 10) + n % 10;
    assert n / 10 == 10 * (n / 100) + n / 10 % 10;
    assert n / 100 == 10 * (n / 1000) + n / 100 % 10;
  }

  lemma LastDigit(n: nat)
    ensures IsDigit(Last(n)) && DigitValue(Last(n)) == n % 10
  {
  }

  lemma TwoDigits(a: char, b: char)
    requires IsDigit(a) && IsDigit(b)
    ensures var n := 10 * DigitValue(a) + DigitValue(b); Last(n / 10) == a && Last(n) == b
  {
  }

  lemma FourDigits(a: char, b: char, c: char, d: char)
    requires IsDigit(a) && IsDigit(b) && IsDigit(c) && IsDigit(d)
    ensures var n := 1000 * DigitValue(a) + 100 * DigitValue(b) + 10 * DigitValue(c) + DigitValue(d);
            n <= 9999 && Last(n / 1000) == a && Last(n / 100) == b && Last(n / 10) == c && Last(n) == d
  {
    hide Last, DigitValue;
    var p, q, r, t := DigitValue(a), DigitValue(b), DigitValue(c), DigitValue(d);
    DigitRange(a);
    DigitRange(b);
    DigitRange(c);
    DigitRange(d);
    FourParts(p, q, r, t);
    LastIs(0, a);
    LastIs(p, b);
    LastIs(10 * p + q, c);
    LastIs(100 * p + 10 * q + r, d);
  }

  lemma DigitRange(c: char)
    requires IsDigit(c)
    ensures DigitValue(c) < 10
  {
  }

  lemma LastIs(k: nat, c: char)
    requires IsDigit(c)
    ensures Last(10 * k + DigitValue(c)) == c
  {
  }

  lemma FourParts(p: nat, q: nat, r: nat, t: nat)
    requires p < 10 && q < 10 && r < 10 && t < 10
    ensures var n := 1000 * p + 100 * q + 10 * r + t;
            n / 1000 == p && n / 100 == 10 * p + q && n / 10 == 100 * p + 10 * q + r && n % 10 == t
  {
  }

  lemma FieldsAreShort(m: Moment)
    requires Acceptable(m)
    ensures m.date.month < 100 && m.date.day < 100
  {
  }

  /** The text of a moment is read as that moment. */
  lemma TextReads(m: Moment)
    requires Acceptable(m) && m.date.year <= 9999
    ensures Shaped(MomentText(m)) && ReadMoment(MomentText(m)) == Some(m)
  {
    hide Last, Value, AllDigits, DaysInMonth, DigitValue, IsDigit;
    var s := MomentText(m);
    FieldsAreShort(m);
    FourIs(s);
    LastFour(m.date.year);
    TwoIs(s, 5);
    LastTwo(m.date.month);
    TwoIs(s, 8);
    LastTwo(m.date.day);
    TwoIs(s, 11);
    LastTwo(m.hour);
    TwoIs(s, 14);
    LastTwo(m.minute);
    TwoIs(s, 17);
    LastTwo(m.second);
  }

  /** A text that is accepted is the text of the moment it is read as. */
  lemma TextWrites(value: string)
    requires Timestamp(value).Some?
    ensures var m := ReadMoment(value).value; m.date.year <= 9999 && MomentText(m) == value
  {
    hide Last, Value, AllDigits, DaysInMonth, DigitValue, IsDigit, Seconds;
    FourIs(value);
    FourDigits(value[0], value[1], value[2], value[3]);
    TwoIs(value, 5);
    TwoDigits(value[5], value[6]);
    TwoIs(value, 8);
    TwoDigits(value[8], value[9]);
    TwoIs(value, 11);
    TwoDigits(value[11], value[12]);
    TwoIs(value, 14);
    TwoDigits(value[14], value[15]);
    TwoIs(value, 17);
    TwoDigits(value[17], value[18]);
  }

  /** The moment a second falls into, its day counted one by one from the epoch. */
  function MomentOf(n: nat): (m: Moment)
    ensures Acceptable(m)
  {
    var rest := n % 86400;
    AheadIsValid(n / 86400);
    Moment(Ahead(EPOCH, n / 86400), rest / 3600, rest % 3600 / 60, rest % 60)
  }

  lemma {:induction false} AheadIsValid(n: nat)
    ensures Ahead(EPOCH, n).Valid() && Ahead(EPOCH, n).year >= 1970
  {
    if n > 0 { AheadIsValid(n - 1); }
  }

  const LAST_SECOND := 253402300799

  /**
   The parser inverts the formatter: the accepted texts are exactly those of the seconds from
   1970-01-01T00:00:00Z to 9999-12-31T23:59:59Z, and each names its second.
   */
  lemma ParsesExactlyFormatted(value: string, n: int)
    ensures Timestamp(value) == Some(n)
       <==> 0 <= n <= LAST_SECOND && MomentOf(n).date.year <= 9999 && value == MomentText(MomentOf(n))
    ensures 0 <= n ==> (n <= LAST_SECOND <==> MomentOf(n).date.year <= 9999)
  {
    hide Timestamp, MomentText, MomentOf, Acceptable;
    if n >= 0 {
      YearsEnd(n);
      if n <= LAST_SECOND {
        SecondsOfMoment(n);
        TextReads(MomentOf(n));
        TimestampOf(MomentText(MomentOf(n)));
      }
    }
    if Timestamp(value) == Some(n) {
      TextWrites(value);
      TimestampOf(value);
      MomentOfSeconds(ReadMoment(value).value);
      YearsEnd(n);
    }
  }

  lemma TimestampOf(value: string)
    requires Timestamp(value).Some? || (Shaped(value) && ReadMoment(value).Some? && Acceptable(ReadMoment(value).value))
    ensures Timestamp(value).Some? && Shaped(value) && ReadMoment(value).Some? && Acceptable(ReadMoment(value).value)
    ensures Timestamp(value) == Some(Seconds(ReadMoment(value).value))
  {
    hide ReadMoment, Seconds, Acceptable;
  }

  lemma SecondsOfMoment(n: nat)
    ensures Seconds(MomentOf(n)) == n
  {
    hide DaysFromCivil, Ahead, DaysInMonth;
    CountsDays(n / 86400);
    var rest := n % 86400;
    assert rest == rest / 3600 * 3600 + rest % 3600 && rest % 3600 == rest % 3600 / 60 * 60 + rest % 3600 % 60;
    assert rest % 3600 % 60 == rest % 60;
  }

  lemma MomentOfSeconds(m: Moment)
    requires Acceptable(m)
    ensures Seconds(m) >= 0 && MomentOf(Seconds(m)) == m
  {
    hide DaysFromCivil, Ahead, DaysInMonth;
    EpochFirst(m.date);
    DaysReachDate(m.date);
    var rest := m.hour * 3600 + m.minute * 60 + m.second;
    assert Seconds(m) / 86400 == DaysFromCivil(m.date) && Seconds(m) % 86400 == rest;
    assert rest / 3600 == m.hour && rest % 3600 == m.minute * 60 + m.second;
    assert rest % 3600 / 60 == m.minute && rest % 60 == m.second;
  }

  lemma EpochFirst(d: Date)
    requires d.Valid() && d.year >= 1970
    ensures d == EPOCH || Before(EPOCH, d)
  {
  }

  /** The last second of the year 9999 is the last with a four-digit year. */
  lemma YearsEnd(n: nat)
    ensures n <= LAST_SECOND <==> MomentOf(n).date.year <= 9999
  {
    hide Ahead;
    var end := Date(9999, 12, 31);
    var d := Ahead(EPOCH, n / 86400);
    AheadIsValid(n / 86400);
    CountsDays(n / 86400);
    assert DaysFromCivil(end) == 2932896;
    if d.year <= 9999 {
      if d != end { DaysAscend(d, end); }
    } else {
      DaysAscend(end, d);
    }
  }
}
