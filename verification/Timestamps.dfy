/**
  Timestamps as the database stores them: RFC 3339 text (section 5.6) compared as text. Instants are
  nanoseconds since 0000-01-01T00:00:00 UTC in the proleptic Gregorian calendar.
 */
module Timestamps {
  import opened Prelude

  function Days(n: int): Time {
    Seconds(n * 86_400)
  }

  // ---------------------------------------------------------------- the calendar

  predicate Leap(year: nat) {
    year % 4 == 0 && (year % 100 != 0 || year % 400 == 0)
  }

  function MonthLength(year: nat, month: nat): nat
    requires 1 <= month <= 12
  {
    if month == 2 then (if Leap(year) then 29 else 28)
    else if month == 4 || month == 6 || month == 9 || month == 11 then 30
    else 31
  }

  /** Days from the first day of the year to the first day of the month; month 13 is the next January. */
  function DaysBeforeMonth(year: nat, month: nat): nat
    requires 1 <= month <= 13
  {
    [0, 31, 59, 90, 120, 151, 181, 212, 243, 273, 304, 334, 365][month - 1] +
    (if month > 2 && Leap(year) then 1 else 0)
  }

  lemma MonthLengths(year: nat, month: nat)
    requires 1 <= month <= 12
    ensures DaysBeforeMonth(year, month + 1) == DaysBeforeMonth(year, month) + MonthLength(year, month)
  {
  }

  /** How many multiples of `k` lie in [0, below). */
  function Multiples(k: nat, below: nat): nat
    requires k > 0
  {
    (below + k - 1) / k
  }

  /** Days from the first day of year 0, one more for each leap year on the way. */
  function DaysBeforeYear(year: nat): nat {
    365 * year + Multiples(4, year) - Multiples(100, year) + Multiples(400, year)
  }

  function YearLength(year: nat): nat {
    if Leap(year) then 366 else 365
  }

  lemma YearLengths(year: nat)
    ensures DaysBeforeMonth(year, 13) == YearLength(year)
    ensures DaysBeforeYear(year + 1) == DaysBeforeYear(year) + YearLength(year)
  {
    NextMultiple(4, year);
    NextMultiple(100, year);
    NextMultiple(400, year);
    LeapNests(year);
    hide Multiples;
  }

  lemma LeapNests(year: nat)
    ensures year % 400 == 0 ==> year % 100 == 0
    ensures year % 100 == 0 ==> year % 4 == 0
  {
    if year % 400 == 0 {
      assert year == 100 * (4 * (year / 400));
    }
    if year % 100 == 0 {
      assert year == 4 * (25 * (year / 100));
    }
  }

  lemma NextMultiple(k: nat, n: nat)
    requires k == 4 || k == 100 || k == 400
    ensures Multiples(k, n + 1) == Multiples(k, n) + (if n % k == 0 then 1 else 0)
  {
    if k == 4 {
      assert n == n / 4 * 4 + n % 4;
    } else if k == 100 {
      assert n == n / 100 * 100 + n % 100;
    } else {
      assert n == n / 400 * 400 + n % 400;
    }
  }

  datatype Civil = Civil(year: nat, month: nat, day: nat, hour: nat, minute: nat, second: nat, nano: nat)

  predicate ValidCivil(c: Civil) {
    c.year <= 9999 && 1 <= c.month <= 12 && 1 <= c.day <= MonthLength(c.year, c.month) &&
    c.hour < 24 && c.minute < 60 && c.second < 60 && c.nano < SECOND
  }

  function DayNumber(c: Civil): nat
    requires ValidCivil(c)
  {
    DaysBeforeYear(c.year) + DaysBeforeMonth(c.year, c.month) + c.day - 1
  }

  /** Known days: the first of the Unix epoch, of the year 2000 and of the year 10000, counted from year 0. */
  lemma KnownYears()
    ensures DaysBeforeYear(1970) == 719_528 && DaysBeforeYear(2000) == 730_485 && DaysBeforeYear(10_000) == 3_652_425
    ensures MonthLength(1900, 2) == 28 && MonthLength(2000, 2) == 29 && MonthLength(2024, 2) == 29
  {
  }

  /** The instant a civil date and time denotes. */
  function Instant(c: Civil): nat
    requires ValidCivil(c)
  {
    Days(DayNumber(c)) + Seconds((c.hour * 60 + c.minute) * 60 + c.second) + c.nano
  }

  /** Field by field, most significant first. */
  predicate Earlier(a: Civil, b: Civil) {
    if a.year != b.year then a.year < b.year
    else if a.month != b.month then a.month < b.month
    else if a.day != b.day then a.day < b.day
    else if a.hour != b.hour then a.hour < b.hour
    else if a.minute != b.minute then a.minute < b.minute
    else if a.second != b.second then a.second < b.second
    else a.nano < b.nano
  }

  lemma {:induction false} MonthsGrow(year: nat, month: nat, later: nat)
    requires 1 <= month < later <= 13
    ensures DaysBeforeMonth(year, month) + MonthLength(year, month) <= DaysBeforeMonth(year, later)
  {
    MonthLengths(year, later - 1);
    if month + 1 < later {
      MonthsGrow(year, month, later - 1);
    }
  }

  lemma {:induction false} YearsGrow(year: nat, later: nat)
    requires year < later
    ensures DaysBeforeYear(year) + YearLength(year) <= DaysBeforeYear(later)
  {
    YearLengths(later - 1);
    if year + 1 < later {
      YearsGrow(year, later - 1);
    }
  }

  lemma DayWithinYear(c: Civil)
    requires ValidCivil(c)
    ensures DaysBeforeYear(c.year) <= DayNumber(c) < DaysBeforeYear(c.year) + YearLength(c.year)
  {
    YearLengths(c.year);
    MonthsGrow(c.year, c.month, 13);
  }

  predicate EarlierDay(a: Civil, b: Civil) {
    if a.year != b.year then a.year < b.year
    else if a.month != b.month then a.month < b.month
    else a.day < b.day
  }

  lemma EarlierDayIsSmaller(a: Civil, b: Civil)
    requires ValidCivil(a) && ValidCivil(b) && EarlierDay(a, b)
    ensures DayNumber(a) < DayNumber(b)
  {
    if a.year < b.year {
      DayWithinYear(a);
      DayWithinYear(b);
      YearsGrow(a.year, b.year);
    } else if a.month < b.month {
      MonthsGrow(a.year, a.month, b.month);
    }
  }

  lemma EarlierIsSmaller(a: Civil, b: Civil)
    requires ValidCivil(a) && ValidCivil(b) && Earlier(a, b)
    ensures Instant(a) < Instant(b)
  {
    if EarlierDay(a, b) {
      EarlierDayIsSmaller(a, b);
    }
  }

  // ---------------------------------------------------------------- text

  /** SQLite's BINARY collation: the first difference decides, and a proper prefix comes first. */
  predicate TextLess(a: string, b: string) {
    exists i | 0 <= i < |b| :: DiffersAt(a, b, i)
  }

  predicate DiffersAt(a: string, b: string, i: nat) {
    i <= |a| && i < |b| && a[..i] == b[..i] && (i == |a| || a[i] < b[i])
  }

  lemma TextLessAsymmetric(a: string, b: string)
    requires TextLess(a, b)
    ensures !TextLess(b, a) && a != b
  {
    var i :| 0 <= i < |b| && DiffersAt(a, b, i);
    forall j | 0 <= j < |a|
      ensures !DiffersAt(b, a, j)
    {
    }
  }

  function Digit(n: nat): char
    requires n < 10
  {
    '0' + n as char
  }

  /** The last `width` decimal digits of a number. */
  function Pad(n: nat, width: nat): (s: string)
    ensures |s| == width && forall i | 0 <= i < width :: '0' <= s[i] <= '9'
  {
    if width == 0 then "" else Pad(n / 10, width - 1) + [Digit(n % 10)]
  }

  function Pow10(width: nat): nat {
    if width == 0 then 1 else 10 * Pow10(width - 1)
  }

  lemma {:induction false} PadLess(n: nat, m: nat, width: nat) returns (i: nat)
    requires n < m < Pow10(width)
    ensures i < width && DiffersAt(Pad(n, width), Pad(m, width), i)
  {
    if n / 10 < m / 10 {
      i := PadLess(n / 10, m / 10, width - 1);
      assert Pad(n, width)[..i] == Pad(n / 10, width - 1)[..i];
      assert Pad(m, width)[..i] == Pad(m / 10, width - 1)[..i];
    } else {
      i := width - 1;
      assert Pad(n, width)[..i] == Pad(n / 10, i);
      assert Pad(m, width)[..i] == Pad(m / 10, i);
    }
  }

  function Date(c: Civil): (s: string)
    ensures |s| == 10
  {
    Pad(c.year, 4) + "-" + Pad(c.month, 2) + "-" + Pad(c.day, 2)
  }

  function Clock(c: Civil): (s: string)
    ensures |s| == 8
  {
    Pad(c.hour, 2) + ":" + Pad(c.minute, 2) + ":" + Pad(c.second, 2)
  }

  /** The fraction digits `to_rfc3339` prints: none, three, six or nine, whichever loses nothing. */
  function FractionWidth(nano: nat): nat {
    if nano == 0 then 0
    else if nano % 1_000_000 == 0 then 3
    else if nano % 1_000 == 0 then 6
    else 9
  }

  function Fraction(nano: nat): string {
    var width := FractionWidth(nano);
    if width == 0 then "" else "." + Pad(nano, 9)[..width]
  }

  /** `to_rfc3339` in UTC: the stored form of `created_at` and of the expiry columns. */
  function Rfc3339(c: Civil): string {
    Date(c) + "T" + Clock(c) + Fraction(c.nano) + "+00:00"
  }

  /** `to_rfc3339_opts(Secs, true)`: the stored form of a metrics bucket and of the report's cutoff. */
  function Rfc3339Seconds(c: Civil): string {
    Date(c) + "T" + Clock(c) + "Z"
  }

  /** SQLite's `CURRENT_TIMESTAMP`. */
  function SqlTimestamp(c: Civil): string {
    Date(c) + " " + Clock(c)
  }

  /** Equal prefixes, then fields of equal width that differ, decide a comparison. */
  lemma FieldDecides(prefix: string, p: string, q: string, a: string, b: string, i: nat)
    requires |p| == |q| && DiffersAt(p, q, i)
    ensures DiffersAt(prefix + p + a, prefix + q + b, |prefix| + i)
  {
    var s, t := prefix + p + a, prefix + q + b;
    assert s[..|prefix| + i] == prefix + p[..i];
    assert t[..|prefix| + i] == prefix + q[..i];
  }

  lemma {:induction false} DateLess(a: Civil, b: Civil) returns (i: nat)
    requires ValidCivil(a) && ValidCivil(b) && EarlierDay(a, b)
    ensures i < 10 && DiffersAt(Date(a), Date(b), i)
  {
    if a.year < b.year {
      i := PadLess(a.year, b.year, 4);
      FieldDecides("", Pad(a.year, 4), Pad(b.year, 4), "-" + Pad(a.month, 2) + "-" + Pad(a.day, 2),
                   "-" + Pad(b.month, 2) + "-" + Pad(b.day, 2), i);
    } else if a.month < b.month {
      var j := PadLess(a.month, b.month, 2);
      FieldDecides(Pad(a.year, 4) + "-", Pad(a.month, 2), Pad(b.month, 2), "-" + Pad(a.day, 2), "-" + Pad(b.day, 2), j);
      i := 5 + j;
    } else {
      var j := PadLess(a.day, b.day, 2);
      FieldDecides(Pad(a.year, 4) + "-" + Pad(a.month, 2) + "-", Pad(a.day, 2), Pad(b.day, 2), "", "", j);
      i := 8 + j;
    }
  }

  predicate EarlierClock(a: Civil, b: Civil) {
    if a.hour != b.hour then a.hour < b.hour
    else if a.minute != b.minute then a.minute < b.minute
    else a.second < b.second
  }

  lemma {:induction false} ClockLess(a: Civil, b: Civil) returns (i: nat)
    requires ValidCivil(a) && ValidCivil(b) && EarlierClock(a, b)
    ensures i < 8 && DiffersAt(Clock(a), Clock(b), i)
  {
    if a.hour < b.hour {
      i := PadLess(a.hour, b.hour, 2);
      FieldDecides("", Pad(a.hour, 2), Pad(b.hour, 2), ":" + Pad(a.minute, 2) + ":" + Pad(a.second, 2),
                   ":" + Pad(b.minute, 2) + ":" + Pad(b.second, 2), i);
    } else if a.minute < b.minute {
      var j := PadLess(a.minute, b.minute, 2);
      FieldDecides(Pad(a.hour, 2) + ":", Pad(a.minute, 2), Pad(b.minute, 2), ":" + Pad(a.second, 2),
                   ":" + Pad(b.second, 2), j);
      i := 3 + j;
    } else {
      var j := PadLess(a.second, b.second, 2);
      FieldDecides(Pad(a.hour, 2) + ":" + Pad(a.minute, 2) + ":", Pad(a.second, 2), Pad(b.second, 2), "", "", j);
      i := 6 + j;
    }
  }

  lemma ThreeZeros(n: nat, width: nat)
    requires n % 1_000 == 0 && width >= 3
    ensures Pad(n, width) == Pad(n / 1_000, width - 3) + "000"
  {
    var q := n / 1_000;
    assert n == 1_000 * q && n / 10 == 100 * q && n / 100 == 10 * q;
    assert Pad(n, width) == Pad(n / 10, width - 1) + ['0'];
    assert Pad(n / 10, width - 1) == Pad(n / 100, width - 2) + ['0'];
    assert Pad(n / 100, width - 2) == Pad(n / 1_000, width - 3) + ['0'];
  }

  /** The digits that `to_rfc3339` leaves out are zeros. */
  lemma OmittedDigits(nano: nat, k: nat)
    requires FractionWidth(nano) <= k < 9
    ensures Pad(nano, 9)[k] == '0'
  {
    Thousands(nano);
    ThreeZeros(nano, 9);
    ThreeZeros(0, 3);
    hide Pad;
    if k < 6 {
      ThreeZeros(nano / 1_000, 6);
      if k < 3 {
        assert nano / 1_000 / 1_000 == 0;
      }
    }
  }

  lemma Thousands(nano: nat)
    ensures nano % 1_000_000 == 0 ==> nano % 1_000 == 0 && nano / 1_000 % 1_000 == 0
  {
    if nano % 1_000_000 == 0 {
      var q := nano / 1_000_000;
      assert nano == (q * 1_000) * 1_000;
      assert nano / 1_000 == q * 1_000;
    }
  }

  const OFFSET: string := "+00:00"

  /** Two digit strings cut after their last digit that matters, and followed by the offset. */
  lemma {:induction false} CutLess(p: string, q: string, v: nat, w: nat, j: nat) returns (i: nat)
    requires 0 < v <= |p| == |q| && j < w <= |q| && DiffersAt(p, q, j)
    requires v <= j ==> '0' <= q[v]
    ensures DiffersAt("." + p[..v] + OFFSET, "." + q[..w] + OFFSET, i)
  {
    i := 1 + Min(j, v);
    var s, t := "." + p[..v] + OFFSET, "." + q[..w] + OFFSET;
    assert p[..i-1] == p[..j][..i-1] && q[..i-1] == q[..j][..i-1];
    assert s[..i] == "." + p[..i-1] && t[..i] == "." + q[..i-1];
    if j >= v {
      assert s[i] == '+' && t[i] == q[v];
    }
  }

  /** Fractions compare as the numbers although their widths differ: '+' sorts before '.' and the digits. */
  lemma {:induction false} FractionLess(n: nat, m: nat) returns (i: nat)
    requires n < m < SECOND
    ensures DiffersAt(Fraction(n) + OFFSET, Fraction(m) + OFFSET, i)
  {
    var v, w := FractionWidth(n), FractionWidth(m);
    if v == 0 {
      i := 0;
      assert (Fraction(m) + OFFSET)[0] == '.';
    } else {
      assert SECOND == Pow10(9);
      var j := PadLess(n, m, 9);
      if w <= j {
        OmittedDigits(m, j);
        assert false;
      }
      i := CutLess(Pad(n, 9), Pad(m, 9), v, w, j);
    }
  }

  // ---------------------------------------------------------------- reading a text back

  /** The number that decimal digits denote. */
  function NumberOf(digits: string): int {
    if digits == "" then 0
    else NumberOf(digits[..|digits|-1]) * 10 + (digits[|digits|-1] as int - '0' as int)
  }

  lemma {:induction false} PadReads(n: nat, width: nat)
    requires n < Pow10(width)
    ensures NumberOf(Pad(n, width)) == n
  {
    if width > 0 {
      PadReads(n / 10, width - 1);
      assert Pad(n, width)[..width-1] == Pad(n / 10, width - 1);
    }
  }

  /** A fraction of 3, 6 or 9 digits denotes the nanoseconds; none denotes zero. */
  predicate FractionDenotes(text: string, nano: nat) {
    (text == "" && nano == 0) ||
    (text != "" && text[0] == '.' &&
     ((|text| == 4 && NumberOf(text[1..]) * 1_000_000 == nano) ||
      (|text| == 7 && NumberOf(text[1..]) * 1_000 == nano) ||
      (|text| == 10 && NumberOf(text[1..]) == nano)))
  }

  /** The digits cut off a number are what is left of it after a division. */
  lemma CutReads(nano: nat, cut: nat, k: nat)
    requires nano < SECOND && ((cut == 3 && k == 1_000) || (cut == 6 && k == 1_000_000)) && nano % k == 0
    ensures NumberOf(Pad(nano, 9)[..9 - cut]) * k == nano
  {
    Thousands(nano);
    ThreeZeros(nano, 9);
    hide Pad, NumberOf;
    if cut == 3 {
      assert Pad(nano, 9)[..6] == Pad(nano / 1_000, 6);
      SixDigits(nano / 1_000);
    } else {
      ThreeZeros(nano / 1_000, 6);
      assert Pad(nano, 9)[..3] == Pad(nano / 1_000 / 1_000, 3);
      ThreeDigits(nano / 1_000 / 1_000);
    }
  }

  lemma SixDigits(n: nat)
    requires n < 1_000_000
    ensures NumberOf(Pad(n, 6)) == n
  {
    assert Pow10(6) == 1_000_000;
    PadReads(n, 6);
  }

  lemma ThreeDigits(n: nat)
    requires n < 1_000
    ensures NumberOf(Pad(n, 3)) == n
  {
    assert Pow10(3) == 1_000;
    PadReads(n, 3);
  }

  lemma FractionReads(nano: nat)
    requires nano < SECOND
    ensures FractionDenotes(Fraction(nano), nano)
  {
    var digits := Pad(nano, 9);
    if FractionWidth(nano) == 3 {
      CutReads(nano, 6, 1_000_000);
      assert ("." + digits[..3])[1..] == digits[..3];
    } else if FractionWidth(nano) == 6 {
      CutReads(nano, 3, 1_000);
      assert ("." + digits[..6])[1..] == digits[..6];
    } else if FractionWidth(nano) == 9 {
      assert Pow10(9) == SECOND;
      PadReads(nano, 9);
      assert ("." + digits[..9])[1..] == digits;
    }
  }

  /** The text is a date-time in the form of RFC 3339, section 5.6, in UTC, and its digits are those of the fields. */
  predicate Denotes(text: string, c: Civil) {
    |text| >= 25 && DateDenotes(text[..10], c) && text[10] == 'T' && ClockDenotes(text[11..19], c) &&
    FractionDenotes(text[19..|text| - 6], c.nano) && text[|text| - 6..] == "+00:00"
  }

  predicate DateDenotes(text: string, c: Civil) {
    |text| == 10 && text[4] == '-' && text[7] == '-' &&
    NumberOf(text[..4]) == c.year && NumberOf(text[5..7]) == c.month && NumberOf(text[8..]) == c.day
  }

  predicate ClockDenotes(text: string, c: Civil) {
    |text| == 8 && text[2] == ':' && text[5] == ':' &&
    NumberOf(text[..2]) == c.hour && NumberOf(text[3..5]) == c.minute && NumberOf(text[6..]) == c.second
  }

  lemma {:induction false} FourDigits(n: nat)
    requires n < 10_000
    ensures NumberOf(Pad(n, 4)) == n
  {
    assert Pow10(4) == 10_000;
    PadReads(n, 4);
  }

  lemma {:induction false} TwoDigits(n: nat)
    requires n < 100
    ensures NumberOf(Pad(n, 2)) == n
  {
    assert Pow10(2) == 100;
    PadReads(n, 2);
  }

  lemma {:induction false} DateReads(c: Civil)
    requires ValidCivil(c)
    ensures DateDenotes(Date(c), c)
  {
    FourDigits(c.year);
    TwoDigits(c.month);
    TwoDigits(c.day);
    hide Pad, NumberOf, DaysBeforeYear, DaysBeforeMonth, MonthLength, Leap;
    DateSlices(Pad(c.year, 4), Pad(c.month, 2), Pad(c.day, 2));
  }

  lemma {:induction false} DateSlices(y: string, m: string, d: string)
    requires |y| == 4 && |m| == |d| == 2
    ensures var text := y + "-" + m + "-" + d;
            text[..4] == y && text[4] == '-' && text[5..7] == m && text[7] == '-' && text[8..] == d
  {
  }

  lemma {:induction false} ClockReads(c: Civil)
    requires ValidCivil(c)
    ensures ClockDenotes(Clock(c), c)
  {
    TwoDigits(c.hour);
    TwoDigits(c.minute);
    TwoDigits(c.second);
    hide Pad, NumberOf;
    ClockSlices(Pad(c.hour, 2), Pad(c.minute, 2), Pad(c.second, 2));
  }

  lemma {:induction false} ClockSlices(h: string, m: string, s: string)
    requires |h| == |m| == |s| == 2
    ensures var text := h + ":" + m + ":" + s;
            text[..2] == h && text[2] == ':' && text[3..5] == m && text[5] == ':' && text[6..] == s
  {
  }

  /** Reading the stored text gives back the date, the time and the fraction. */
  lemma {:induction false} TextReads(c: Civil)
    requires ValidCivil(c)
    ensures Denotes(Rfc3339(c), c)
  {
    DateReads(c);
    ClockReads(c);
    FractionReads(c.nano);
    var text, fraction := Rfc3339(c), Fraction(c.nano);
    hide Date, Clock, Fraction, FractionDenotes, DateDenotes, ClockDenotes;
    assert text == Date(c) + "T" + Clock(c) + fraction + "+00:00";
    assert text[..10] == Date(c) && text[11..19] == Clock(c);
    assert text[19..|text| - 6] == fraction && text[|text| - 6..] == "+00:00";
  }

  // A text is a date, a separator, a clock time and a tail; the first part that differs decides.

  lemma DateDecides(d: string, e: string, rest: string, rest': string, i: nat)
    requires |d| == |e| && DiffersAt(d, e, i)
    ensures TextLess(d + rest, e + rest')
  {
    FieldDecides("", d, e, rest, rest', i);
    assert "" + d + rest == d + rest && "" + e + rest' == e + rest';
    assert DiffersAt(d + rest, e + rest', |""| + i);
  }

  lemma ClockDecides(d: string, c: string, c': string, tail: string, tail': string, i: nat)
    requires |c| == |c'| && DiffersAt(c, c', i)
    ensures TextLess(d + "T" + c + tail, d + "T" + c' + tail')
  {
    FieldDecides(d + "T", c, c', tail, tail', i);
  }

  lemma TailDecides(prefix: string, tail: string, tail': string, i: nat)
    requires DiffersAt(tail, tail', i)
    ensures TextLess(prefix + tail, prefix + tail')
  {
    assert (prefix + tail)[..|prefix| + i] == prefix + tail[..i];
    assert (prefix + tail')[..|prefix| + i] == prefix + tail'[..i];
    assert DiffersAt(prefix + tail, prefix + tail', |prefix| + i);
  }

  lemma Rfc3339Parts(c: Civil)
    ensures Rfc3339(c) == Date(c) + ("T" + Clock(c) + Fraction(c.nano) + OFFSET)
    ensures Rfc3339(c) == Date(c) + "T" + Clock(c) + (Fraction(c.nano) + OFFSET)
  {
  }

  lemma EarlierIsTextLess(a: Civil, b: Civil)
    requires ValidCivil(a) && ValidCivil(b) && Earlier(a, b)
    ensures TextLess(Rfc3339(a), Rfc3339(b))
  {
    Rfc3339Parts(a);
    Rfc3339Parts(b);
    if EarlierDay(a, b) {
      var i := DateLess(a, b);
      hide *;
      DateDecides(Date(a), Date(b), "T" + Clock(a) + Fraction(a.nano) + OFFSET,
                  "T" + Clock(b) + Fraction(b.nano) + OFFSET, i);
    } else if EarlierClock(a, b) {
      var i := ClockLess(a, b);
      assert Date(a) == Date(b);
      hide *;
      ClockDecides(Date(a), Clock(a), Clock(b), Fraction(a.nano) + OFFSET, Fraction(b.nano) + OFFSET, i);
    } else {
      var i := FractionLess(a.nano, b.nano);
      assert Date(a) == Date(b) && Clock(a) == Clock(b);
      hide *;
      TailDecides(Date(a) + "T" + Clock(a), Fraction(a.nano) + OFFSET, Fraction(b.nano) + OFFSET, i);
    }
  }

  /** The order of the stored texts is the order of the instants, in both directions. */
  lemma TextOrderIsTimeOrder(a: Civil, b: Civil)
    requires ValidCivil(a) && ValidCivil(b)
    ensures TextLess(Rfc3339(a), Rfc3339(b)) <==> Instant(a) < Instant(b)
    ensures Rfc3339(a) == Rfc3339(b) <==> Instant(a) == Instant(b)
  {
    if Earlier(a, b) {
      EarlierIsSmaller(a, b);
      EarlierIsTextLess(a, b);
      TextLessAsymmetric(Rfc3339(a), Rfc3339(b));
    } else if Earlier(b, a) {
      EarlierIsSmaller(b, a);
      EarlierIsTextLess(b, a);
      TextLessAsymmetric(Rfc3339(b), Rfc3339(a));
    } else {
      assert a == b;
      if TextLess(Rfc3339(a), Rfc3339(b)) {
        TextLessAsymmetric(Rfc3339(a), Rfc3339(b));
      }
    }
  }

  // ---------------------------------------------------------------- the report's cutoff

  lemma SecondsTextLess(a: Civil, b: Civil)
    requires ValidCivil(a) && ValidCivil(b) && a.nano == b.nano == 0 && Earlier(a, b)
    ensures TextLess(Rfc3339Seconds(a), Rfc3339Seconds(b))
  {
    if EarlierDay(a, b) {
      var i := DateLess(a, b);
      DateDecides(Date(a), Date(b), "T" + Clock(a) + "Z", "T" + Clock(b) + "Z", i);
      assert Rfc3339Seconds(a) == Date(a) + ("T" + Clock(a) + "Z");
      assert Rfc3339Seconds(b) == Date(b) + ("T" + Clock(b) + "Z");
    } else {
      var i := ClockLess(a, b);
      ClockDecides(Date(a), Clock(a), Clock(b), "Z", "Z", i);
    }
  }

  /** `bucket_start >= since` compares texts and selects the buckets at or after the cutoff. */
  lemma CutoffSelects(bucket: Civil, since: Civil)
    requires ValidCivil(bucket) && ValidCivil(since) && bucket.nano == since.nano == 0
    ensures !TextLess(Rfc3339Seconds(bucket), Rfc3339Seconds(since)) <==> Instant(bucket) >= Instant(since)
  {
    if Earlier(bucket, since) {
      EarlierIsSmaller(bucket, since);
      SecondsTextLess(bucket, since);
    } else if Earlier(since, bucket) {
      EarlierIsSmaller(since, bucket);
      SecondsTextLess(since, bucket);
      TextLessAsymmetric(Rfc3339Seconds(since), Rfc3339Seconds(bucket));
    } else {
      assert bucket == since;
      if TextLess(Rfc3339Seconds(bucket), Rfc3339Seconds(since)) {
        TextLessAsymmetric(Rfc3339Seconds(bucket), Rfc3339Seconds(since));
      }
    }
  }

  // ---------------------------------------------------------------- the startup cleanup

  /** `expires_at <= CURRENT_TIMESTAMP`, a text comparison of two different formats. */
  predicate CleanupSelects(expires: string, now: Civil) {
    TextLess(expires, SqlTimestamp(now)) || expires == SqlTimestamp(now)
  }

  /**
    The comparison looks at the dates alone: a challenge that expires later on the current day sorts after the
    current timestamp, since 'T' sorts after ' ', and so does one that already expired on that day.
   */
  lemma CleanupComparesDays(expires: Civil, now: Civil)
    requires ValidCivil(expires) && ValidCivil(now)
    ensures CleanupSelects(Rfc3339(expires), now) <==> DayNumber(expires) < DayNumber(now)
  {
    var rest, rest' := "T" + Clock(expires) + Fraction(expires.nano) + OFFSET, " " + Clock(now);
    Rfc3339Parts(expires);
    assert SqlTimestamp(now) == Date(now) + rest';
    if EarlierDay(expires, now) {
      var i := DateLess(expires, now);
      EarlierDayIsSmaller(expires, now);
      DateDecides(Date(expires), Date(now), rest, rest', i);
    } else {
      if EarlierDay(now, expires) {
        var i := DateLess(now, expires);
        EarlierDayIsSmaller(now, expires);
        DateDecides(Date(now), Date(expires), rest', rest, i);
      } else {
        assert Date(now) == Date(expires);
        SpaceBeforeT(rest', rest);
        TailDecides(Date(now), rest', rest, 0);
      }
      TextLessAsymmetric(SqlTimestamp(now), Rfc3339(expires));
    }
  }

  lemma SpaceBeforeT(s: string, t: string)
    requires |s| > 0 && |t| > 0 && s[0] == ' ' && t[0] == 'T'
    ensures DiffersAt(s, t, 0)
  {
  }

  /** A year outside 0 to 9999 is printed with a sign, which sorts before every digit. */
  lemma SignedSortsFirst(expires: string, now: Civil)
    requires |expires| > 0 && (expires[0] == '+' || expires[0] == '-')
    ensures CleanupSelects(expires, now)
  {
    assert SqlTimestamp(now)[0] == Pad(now.year, 4)[0];
    assert DiffersAt(expires, SqlTimestamp(now), 0);
  }

  // ---------------------------------------------------------------- every instant has a text

  /** The first instant after the year 9999. */
  const END_OF_TIME: int := Days(DaysBeforeYear(10_000))

  predicate InRange(t: Time) {
    0 <= t < END_OF_TIME
  }

  /** The year of a day, searched for from a later year downwards. */
  function YearOf(day: nat, year: nat): (y: nat)
    requires day < DaysBeforeYear(year + 1)
    ensures DaysBeforeYear(y) <= day < DaysBeforeYear(y + 1)
  {
    if DaysBeforeYear(year) <= day || year == 0 then year else YearOf(day, year - 1)
  }

  function MonthOf(year: nat, day: nat, month: nat): (m: nat)
    requires 1 <= month <= 12 && DaysBeforeMonth(year, month) <= day < DaysBeforeMonth(year, 13)
    ensures 1 <= m <= 12 && DaysBeforeMonth(year, m) <= day < DaysBeforeMonth(year, m + 1)
    decreases 12 - month
  {
    if day < DaysBeforeMonth(year, month + 1) then month else MonthOf(year, day, month + 1)
  }

  /** The date of a day of the year, both counted from zero. */
  function DateInYear(year: nat, day: nat): (c: Civil)
    requires year <= 9999 && day < DaysBeforeMonth(year, 13)
    ensures ValidCivil(c) && c.year == year && DaysBeforeMonth(year, c.month) + c.day - 1 == day
    ensures c.hour == c.minute == c.second == c.nano == 0
  {
    var month := MonthOf(year, day, 1);
    MonthLengths(year, month);
    hide DaysBeforeMonth, MonthLength;
    Civil(year, month, day - DaysBeforeMonth(year, month) + 1, 0, 0, 0, 0)
  }

  function DateOf(day: nat): (c: Civil)
    requires day < DaysBeforeYear(10_000)
    ensures ValidCivil(c) && DayNumber(c) == day && c.hour == c.minute == c.second == c.nano == 0
  {
    LongYears(day);
    var year := YearOf(day, day / 365);
    YearsBelow(year, day);
    YearLengths(year);
    hide DaysBeforeYear, DaysBeforeMonth, YearLength, MonthLength;
    DateInYear(year, day - DaysBeforeYear(year))
  }

  lemma LongYears(day: nat)
    ensures day < DaysBeforeYear(day / 365 + 1)
  {
    assert day < 365 * (day / 365 + 1);
  }

  lemma YearsBelow(year: nat, day: nat)
    requires DaysBeforeYear(year) <= day < DaysBeforeYear(10_000)
    ensures year <= 9999
  {
  }

  lemma DayParts(s: nat)
    requires s < 86_400
    ensures s / 3_600 < 24 && (s / 3_600 * 60 + s / 60 % 60) * 60 + s % 60 == s
  {
    var minutes := s / 60;
    assert s == minutes * 60 + s % 60;
    assert s / 3_600 == minutes / 60;
    assert minutes == minutes / 60 * 60 + minutes % 60;
  }

  function DayOf(t: Time): (day: nat)
    requires InRange(t)
    ensures day < DaysBeforeYear(10_000)
  {
    t / Seconds(1) / 86_400
  }

  function SecondOf(t: Time): (second: nat)
    ensures second < 86_400
  {
    t / Seconds(1) % 86_400
  }

  lemma SplitInstant(t: Time)
    requires InRange(t)
    ensures Days(DayOf(t)) + Seconds(SecondOf(t)) + t % SECOND == t
  {
    var s := t / Seconds(1);
    assert s == s / 86_400 * 86_400 + s % 86_400;
    assert t == s * 1_000_000_000 + t % 1_000_000_000;
  }

  function CivilOf(t: Time): (c: Civil)
    requires InRange(t)
    ensures ValidCivil(c) && Instant(c) == t
  {
    SplitInstant(t);
    var s := SecondOf(t);
    DayParts(s);
    hide DayOf, SecondOf, DaysBeforeYear, DaysBeforeMonth, MonthLength;
    var d := DateOf(DayOf(t));
    Civil(d.year, d.month, d.day, s / 3_600, s / 60 % 60, s % 60, t % SECOND)
  }

  function Text(t: Time): string
    requires InRange(t)
  {
    Rfc3339(CivilOf(t))
  }

  /** The Gregorian calendar repeats after 400 years. */
  const CYCLE: int := Days(146_097)

  /** The digits of a year outside 0 to 9999, at least four. */
  function YearDigits(year: nat): string {
    if year < 10_000 then Pad(year, 4) else YearDigits(year / 10) + [Digit(year % 10)]
  }

  /** `to_rfc3339` of any instant; a year outside 0 to 9999 carries a sign. */
  function StoredText(t: Time): string {
    if InRange(t) then Text(t)
    else
      var c := CivilOf(t % CYCLE);
      var year := c.year + 400 * (t / CYCLE);
      (if year < 0 then "-" + YearDigits(-year) else "+" + YearDigits(year)) + Rfc3339(c)[4..]
  }

  /** ORDER BY on a stored timestamp lists oldest first, and distinct instants have distinct texts. */
  lemma TextOrder(s: Time, t: Time)
    requires InRange(s) && InRange(t)
    ensures TextLess(Text(s), Text(t)) <==> s < t
    ensures Text(s) == Text(t) <==> s == t
  {
    TextOrderIsTimeOrder(CivilOf(s), CivilOf(t));
  }
}
