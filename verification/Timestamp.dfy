/** The UTC timestamps of `xtask/src/release_orchestration.rs`: the whole-second `Z` form of sections
  5.6 and 5.7 of RFC 3339, without leap seconds, for the years 1970 to 9999.
  */
module Timestamp {

  import opened Wrappers

  const U64_MAX := 0xffff_ffff_ffff_ffff

  function SaturatingAdd(a: nat, b: nat): nat {
    if a + b > U64_MAX then U64_MAX else a + b
  }

  function SaturatingMul(a: nat, b: nat): nat {
    if a * b > U64_MAX then U64_MAX else a * b
  }

  datatype Instant = Instant(year: nat, month: nat, day: nat, hour: nat, minute: nat, second: nat)

  predicate IsDigit(c: char) {
    '0' <= c <= '9'
  }

  function DigitValue(c: char): nat
    requires IsDigit(c)
  {
    c as int - '0' as int
  }

  /** The number spelled by `s[from..to]`, if that is all digits. */
  function Digits(s: string, from: nat, end: nat): Option<nat>
    requires from <= end <= |s|
    decreases end
  {
    if from == end then Some(0)
    else if !IsDigit(s[end - 1]) then None
    else match Digits(s, from, end - 1)
      case None => None
      case Some(n) => Some(n * 10 + DigitValue(s[end - 1]))
  }

  predicate Separated(s: string) {
    && |s| == 20
    && s[4] == '-' && s[7] == '-' && s[10] == 'T' && s[13] == ':' && s[16] == ':' && s[19] == 'Z'
  }

  predicate Leap(year: nat) {
    year % 4 == 0 && (year % 100 != 0 || year % 400 == 0)
  }

  function DaysIn(year: nat, month: nat): nat {
    if month == 4 || month == 6 || month == 9 || month == 11 then 30
    else if month == 2 then if Leap(year) then 29 else 28
    else 31
  }

  predicate Valid(t: Instant) {
    && 1970 <= t.year <= 9999
    && 1 <= t.month <= 12
    && 1 <= t.day <= DaysIn(t.year, t.month)
    && t.hour <= 23 && t.minute <= 59 && t.second <= 59
  }

  function Fields(s: string): Option<Instant> {
    if !Separated(s) then None else
    match (Digits(s, 0, 4), Digits(s, 5, 7), Digits(s, 8, 10), Digits(s, 11, 13), Digits(s, 14, 16), Digits(s, 17, 19))
    case (Some(year), Some(month), Some(day), Some(hour), Some(minute), Some(second)) =>
      Some(Instant(year, month, day, hour, minute, second))
    case _ => None
  }

  /** The days of the years from 1970 up to `year`. */
  function YearDays(year: nat): nat {
    if year <= 1970 then 0 else YearDays(year - 1) + if Leap(year - 1) then 366 else 365
  }

  /** The days of the months before `month`. */
  function MonthDays(year: nat, month: nat): nat {
    if month <= 1 then 0 else MonthDays(year, month - 1) + DaysIn(year, month - 1)
  }

  function Seconds(t: Instant): nat {
    var days := SaturatingAdd(SaturatingAdd(YearDays(t.year), MonthDays(t.year, t.month)),
                              if t.day == 0 then 0 else t.day - 1);
    var hours := SaturatingAdd(SaturatingMul(days, 86400), SaturatingMul(t.hour, 3600));
    SaturatingAdd(SaturatingAdd(hours, SaturatingMul(t.minute, 60)), t.second)
  }

  datatype Invalid = Invalid

  function Timestamp(s: string): Result<nat, Invalid> {
    match Fields(s)
    case None => Err(Invalid)
    case Some(t) => if Valid(t) then Ok(Seconds(t)) else Err(Invalid)
  }

  // ---------------------------------------------------------------- the closed form

  /** Leap days before `year` in the Gregorian calendar. */
  function LeapDays(year: nat): int {
    (year - 1) / 4 - (year - 1) / 100 + (year - 1) / 400
  }

  lemma {:induction false} YearDaysClosed(year: nat)
    requires year >= 1970
    ensures YearDays(year) == 365 * (year - 1970) + LeapDays(year) - LeapDays(1970)
    decreases year
  {
    if year > 1970 {
      YearDaysClosed(year - 1);
      LeapDaysStep(year - 1);
    }
  }

  lemma Div4(x: int, q: int, r: int)
    requires x == 4 * q + r && 0 <= r < 4
    ensures x / 4 == q && x % 4 == r
  {
  }

  lemma Div100(x: int, q: int, r: int)
    requires x == 100 * q + r && 0 <= r < 100
    ensures x / 100 == q && x % 100 == r
  {
  }

  lemma Div400(x: int, q: int, r: int)
    requires x == 400 * q + r && 0 <= r < 400
    ensures x / 400 == q && x % 400 == r
  {
  }

  lemma Step4(year: nat)
    ensures year / 4 == (year - 1) / 4 + if year % 4 == 0 then 1 else 0
  {
    var q, r := year / 4, year % 4;
    if r == 0 {
      Div4(year - 1, q - 1, 3);
    } else {
      Div4(year - 1, q, r - 1);
    }
  }

  lemma Step100(year: nat)
    ensures year / 100 == (year - 1) / 100 + if year % 100 == 0 then 1 else 0
  {
    var q, r := year / 100, year % 100;
    if r == 0 {
      Div100(year - 1, q - 1, 99);
    } else {
      Div100(year - 1, q, r - 1);
    }
  }

  lemma Step400(year: nat)
    ensures year / 400 == (year - 1) / 400 + if year % 400 == 0 then 1 else 0
  {
    var q, r := year / 400, year % 400;
    if r == 0 {
      Div400(year - 1, q - 1, 399);
    } else {
      Div400(year - 1, q, r - 1);
    }
  }

  lemma Centuries(year: nat)
    ensures year % 100 == 0 ==> year % 4 == 0
    ensures year % 400 == 0 ==> year % 100 == 0
  {
    if year % 100 == 0 {
      Div4(year, 25 * (year / 100), 0);
    }
    if year % 400 == 0 {
      Div100(year, 4 * (year / 400), 0);
    }
  }

  lemma LeapDaysStep(year: nat)
    ensures LeapDays(year + 1) == LeapDays(year) + if Leap(year) then 1 else 0
  {
    Step4(year);
    Step100(year);
    Step400(year);
    Centuries(year);
  }

  /** The days before `month` in a common year, by Zeller's rule, and one more after a leap February. */
  function MonthStart(year: nat, month: nat): int {
    if month <= 2 then 31 * (month - 1)
    else (153 * (month - 3) + 2) / 5 + 59 + if Leap(year) then 1 else 0
  }

  lemma MonthDaysClosed(year: nat, month: nat)
    requires 1 <= month <= 13
    ensures month <= 12 ==> MonthDays(year, month) == MonthStart(year, month)
    ensures month == 13 ==> MonthDays(year, month) == if Leap(year) then 366 else 365
    decreases month
  {
    if month > 1 {
      MonthDaysClosed(year, month - 1);
    }
  }

  /** The days from the epoch to the day of `t`, month by month. */
  function Days(t: Instant): int {
    YearDays(t.year) + MonthDays(t.year, t.month) + t.day - 1
  }

  function DayNumber(t: Instant): int {
    365 * (t.year - 1970) + LeapDays(t.year) - LeapDays(1970) + MonthStart(t.year, t.month) + t.day - 1
  }

  function SecondOfDay(t: Instant): nat {
    t.hour * 3600 + t.minute * 60 + t.second
  }

  lemma DaysClosed(t: Instant)
    requires Valid(t)
    ensures Days(t) == DayNumber(t)
    ensures 0 <= Days(t) <= 2932896
  {
    YearDaysClosed(t.year);
    MonthDaysClosed(t.year, t.month);
    DaysBounded(t);
  }

  lemma DaysBounded(t: Instant)
    requires Valid(t)
    ensures 0 <= Days(t) <= 2932896
  {
    var year := if Leap(t.year) then 366 else 365;
    assert MonthDays(t.year, t.month) + DaysIn(t.year, t.month) <= year by {
      assert MonthDays(t.year, t.month + 1) == MonthDays(t.year, t.month) + DaysIn(t.year, t.month);
      YearIsLongest(t.year, t.month + 1);
    }
    assert YearDays(t.year) + year <= 2932897 by {
      YearDaysBounded(t.year);
    }
  }

  /** The last day of 9999 is the one with this number. */
  lemma YearDaysBounded(year: nat)
    requires 1970 <= year <= 9999
    ensures YearDays(year) + (if Leap(year) then 366 else 365) <= 2932897
  {
    YearDaysClosed(10000);
    assert YearDays(10000) == 2932897;
    YearDaysGrow(year, 10000);
  }

  lemma SecondsPlain(t: Instant)
    requires Valid(t)
    ensures 0 <= Days(t) <= 2932896 && Seconds(t) == Days(t) * 86400 + SecondOfDay(t)
  {
    DaysClosed(t);
  }

  /** Nothing saturates: the result is the closed form. */
  lemma SecondsClosed(t: Instant)
    requires Valid(t)
    ensures 0 <= DayNumber(t) <= 2932896
    ensures Seconds(t) == DayNumber(t) * 86400 + SecondOfDay(t) < 253402300800
  {
    DaysClosed(t);
    SecondsPlain(t);
  }

  lemma YearIsLongest(year: nat, month: nat)
    requires 1 <= month <= 13
    ensures MonthDays(year, month) <= if Leap(year) then 366 else 365
    decreases 13 - month
  {
    if month < 13 {
      YearIsLongest(year, month + 1);
    } else {
      MonthDaysClosed(year, 13);
    }
  }

  // ---------------------------------------------------------------- the calendar

  /** The next second on a clock that knows only when to carry. */
  function Next(t: Instant): Instant {
    if t.second < 59 then t.(second := t.second + 1)
    else if t.minute < 59 then t.(minute := t.minute + 1, second := 0)
    else if t.hour < 23 then t.(hour := t.hour + 1, minute := 0, second := 0)
    else if t.day < DaysIn(t.year, t.month) then t.(day := t.day + 1, hour := 0, minute := 0, second := 0)
    else if t.month < 12 then Instant(t.year, t.month + 1, 1, 0, 0, 0)
    else Instant(t.year + 1, 1, 1, 0, 0, 0)
  }

  const EPOCH := Instant(1970, 1, 1, 0, 0, 0)
  const LAST := Instant(9999, 12, 31, 23, 59, 59)

  lemma NextDay(t: Instant)
    requires Valid(t) && t != LAST && t.second == 59 && t.minute == 59 && t.hour == 23
    ensures Valid(Next(t)) && Days(Next(t)) == Days(t) + 1
  {
    if t.day == DaysIn(t.year, t.month) && t.month == 12 {
      MonthDaysClosed(t.year, 13);
    }
  }

  /** The count is the Gregorian one: it is zero at the epoch and grows by one at each tick. */
  lemma SecondsCount(t: Instant)
    requires Valid(t) && t != LAST
    ensures Seconds(EPOCH) == 0
    ensures Valid(Next(t)) && Seconds(Next(t)) == Seconds(t) + 1
  {
    if t.second == 59 && t.minute == 59 && t.hour == 23 {
      NextDay(t);
    }
    SecondsPlain(t);
    SecondsPlain(Next(t));
  }

  lemma LastSecond()
    ensures Valid(LAST) && Seconds(LAST) == 253402300799
  {
    DaysClosed(LAST);
    SecondsPlain(LAST);
  }

  /** Every second of the range is the value of a valid instant. */
  lemma {:induction false} EverySecondIsCounted(n: nat) returns (t: Instant)
    requires n < 253402300800
    ensures Valid(t) && Seconds(t) == n
    decreases n
  {
    if n == 0 {
      t := EPOCH;
    } else {
      t := EverySecondIsCounted(n - 1);
      LastSecond();
      SecondsCount(t);
      t := Next(t);
    }
  }

  ghost predicate Earlier(a: Instant, b: Instant) {
    || a.year < b.year
    || (a.year == b.year && (
         || a.month < b.month
         || (a.month == b.month && (
              || a.day < b.day
              || (a.day == b.day && SecondOfDay(a) < SecondOfDay(b))))))
  }

  lemma {:induction false} YearDaysGrow(a: nat, b: nat)
    requires 1970 <= a < b
    ensures YearDays(a) + (if Leap(a) then 366 else 365) <= YearDays(b)
    decreases b
  {
    if a + 1 < b {
      YearDaysGrow(a, b - 1);
    }
  }

  lemma {:induction false} MonthDaysGrow(year: nat, a: nat, b: nat)
    requires 1 <= a < b
    ensures MonthDays(year, a) + DaysIn(year, a) <= MonthDays(year, b)
    decreases b
  {
    if a + 1 < b {
      MonthDaysGrow(year, a, b - 1);
    }
  }

  lemma EarlierDays(a: Instant, b: Instant)
    requires Valid(a) && Valid(b) && Earlier(a, b)
    ensures Days(a) < Days(b) || (Days(a) == Days(b) && SecondOfDay(a) < SecondOfDay(b))
  {
    if a.year < b.year {
      YearDaysGrow(a.year, b.year);
      YearIsLongest(a.year, a.month + 1);
    } else if a.month < b.month {
      MonthDaysGrow(a.year, a.month, b.month);
    }
  }

  lemma EarlierIsLess(a: Instant, b: Instant)
    requires Valid(a) && Valid(b) && Earlier(a, b)
    ensures Seconds(a) < Seconds(b)
  {
    EarlierDays(a, b);
    SecondsPlain(a);
    SecondsPlain(b);
    assert SecondOfDay(a) < 86400;
  }

  // ---------------------------------------------------------------- the text

  function Digit(n: nat): char
    requires n < 10
  {
    ('0' as int + n) as char
  }

  function Two(n: nat): string
    requires n < 100
  {
    [Digit(n / 10), Digit(n % 10)]
  }

  function Format(t: Instant): string
    requires Valid(t)
  {
    Two(t.year / 100) + Two(t.year % 100) + "-" + Two(t.month) + "-" + Two(t.day) + "T"
    + Two(t.hour) + ":" + Two(t.minute) + ":" + Two(t.second) + "Z"
  }

  lemma TwoDigits(s: string, i: nat)
    requires i + 2 <= |s|
    ensures Digits(s, i, i + 2).Some? <==> IsDigit(s[i]) && IsDigit(s[i + 1])
    ensures Digits(s, i, i + 2).Some? ==>
      Digits(s, i, i + 2).value < 100 && s[i..i + 2] == Two(Digits(s, i, i + 2).value)
  {
    assert Digits(s, i, i) == Some(0);
    assert Digits(s, i, i + 1).Some? <==> IsDigit(s[i]);
    if Digits(s, i, i + 2).Some? {
      var tens, ones := DigitValue(s[i]), DigitValue(s[i + 1]);
      assert Digits(s, i, i + 2).value == tens * 10 + ones;
      assert (tens * 10 + ones) / 10 == tens && (tens * 10 + ones) % 10 == ones;
    }
  }

  lemma YearDigits(s: string, i: nat)
    requires i + 4 <= |s|
    ensures Digits(s, i, i + 4).Some? <==> Digits(s, i, i + 2).Some? && Digits(s, i + 2, i + 4).Some?
    ensures Digits(s, i, i + 4).Some? ==>
      Digits(s, i, i + 4).value == Digits(s, i, i + 2).value * 100 + Digits(s, i + 2, i + 4).value
  {
    TwoDigits(s, i + 2);
    assert Digits(s, i, i + 3).Some? <==> Digits(s, i, i + 2).Some? && IsDigit(s[i + 2]);
    assert Digits(s, i + 2, i + 3).Some? <==> IsDigit(s[i + 2]);
  }

  /** A two-digit text is read as the number it spells. */
  lemma ReadTwo(s: string, i: nat, n: nat)
    requires n < 100 && i + 2 <= |s| && s[i..i + 2] == Two(n)
    ensures Digits(s, i, i + 2) == Some(n)
  {
    assert s[i] == s[i..i + 2][0] && s[i + 1] == s[i..i + 2][1];
    assert Digits(s, i, i) == Some(0) && Digits(s, i, i + 1) == Some(n / 10);
  }

  lemma ReadYear(s: string, i: nat, year: nat)
    requires year < 10000 && i + 4 <= |s| && s[i..i + 2] == Two(year / 100) && s[i + 2..i + 4] == Two(year % 100)
    ensures Digits(s, i, i + 4) == Some(year)
  {
    YearDigits(s, i);
    ReadTwo(s, i, year / 100);
    ReadTwo(s, i + 2, year % 100);
  }

  lemma YearText(s: string, i: nat)
    requires i + 4 <= |s| && Digits(s, i, i + 4).Some?
    ensures var year := Digits(s, i, i + 4).value;
      year < 10000 && s[i..i + 2] == Two(year / 100) && s[i + 2..i + 4] == Two(year % 100)
  {
    YearDigits(s, i);
    TwoDigits(s, i);
    TwoDigits(s, i + 2);
    SplitHundreds(Digits(s, i, i + 4).value, Digits(s, i, i + 2).value, Digits(s, i + 2, i + 4).value);
  }

  lemma SplitHundreds(year: nat, high: nat, low: nat)
    requires high < 100 && low < 100 && year == high * 100 + low
    ensures year < 10000 && Two(year / 100) == Two(high) && Two(year % 100) == Two(low)
  {
    assert year / 100 == high && year % 100 == low;
  }

  /** The parts of a timestamp's text. */
  lemma TextParts(s: string, year: nat, month: nat, day: nat, hour: nat, minute: nat, second: nat)
    requires year < 10000 && month < 100 && day < 100 && hour < 100 && minute < 100 && second < 100
    ensures s == Two(year / 100) + Two(year % 100) + "-" + Two(month) + "-" + Two(day) + "T"
                 + Two(hour) + ":" + Two(minute) + ":" + Two(second) + "Z"
       <==> && Separated(s)
            && s[0..2] == Two(year / 100) && s[2..4] == Two(year % 100) && s[5..7] == Two(month) && s[8..10] == Two(day)
            && s[11..13] == Two(hour) && s[14..16] == Two(minute) && s[17..19] == Two(second)
  {
    var text := Two(year / 100) + Two(year % 100) + "-" + Two(month) + "-" + Two(day) + "T"
                + Two(hour) + ":" + Two(minute) + ":" + Two(second) + "Z";
    assert text[0..2] == Two(year / 100) && text[2..4] == Two(year % 100) && text[5..7] == Two(month);
    assert text[8..10] == Two(day) && text[11..13] == Two(hour) && text[14..16] == Two(minute);
    assert text[17..19] == Two(second) && Separated(text);
    if |s| == 20 {
      assert s == s[0..2] + s[2..4] + [s[4]] + s[5..7] + [s[7]] + s[8..10] + [s[10]]
                  + s[11..13] + [s[13]] + s[14..16] + [s[16]] + s[17..19] + [s[19]];
    }
  }

  /** A valid instant is read back from its text. */
  lemma FormatParses(t: Instant)
    requires Valid(t)
    ensures Fields(Format(t)) == Some(t) && Timestamp(Format(t)) == Ok(Seconds(t))
  {
    var s := Format(t);
    TextParts(s, t.year, t.month, t.day, t.hour, t.minute, t.second);
    ReadYear(s, 0, t.year);
    ReadTwo(s, 5, t.month);
    ReadTwo(s, 8, t.day);
    ReadTwo(s, 11, t.hour);
    ReadTwo(s, 14, t.minute);
    ReadTwo(s, 17, t.second);
  }

  /** An accepted text is the text of the instant it names. */
  lemma AcceptedIsFormatted(s: string)
    requires Timestamp(s).Ok?
    ensures Fields(s).Some? && Valid(Fields(s).value) && s == Format(Fields(s).value)
  {
    var t := Fields(s).value;
    YearText(s, 0);
    TwoDigits(s, 5);
    TwoDigits(s, 8);
    TwoDigits(s, 11);
    TwoDigits(s, 14);
    TwoDigits(s, 17);
    TextParts(s, t.year, t.month, t.day, t.hour, t.minute, t.second);
  }

  ghost predicate TextLess(a: string, b: string) {
    exists k :: 0 <= k < |a| && k < |b| && a[..k] == b[..k] && a[k] < b[k]
  }

  /** Text order of accepted texts is time order. */
  lemma TextOrderIsTimeOrder(a: string, b: string)
    requires Timestamp(a).Ok? && Timestamp(b).Ok?
    ensures TextLess(a, b) <==> Timestamp(a).value < Timestamp(b).value
    ensures a == b <==> Timestamp(a).value == Timestamp(b).value
  {
    if TextLess(a, b) {
      TextLessIsEarlier(a, b);
    } else if TextLess(b, a) {
      TextLessIsEarlier(b, a);
    } else if a != b {
      FirstDifference(a, b, 0);
    }
  }

  lemma {:induction false} SameDigits(a: string, b: string, from: nat, end: nat)
    requires from <= end <= |a| && end <= |b| && forall i :: from <= i < end ==> a[i] == b[i]
    ensures Digits(a, from, end) == Digits(b, from, end)
    decreases end
  {
    if from < end {
      SameDigits(a, b, from, end - 1);
    }
  }

  lemma {:induction false} LessDigits(a: string, b: string, from: nat, end: nat, k: nat)
    requires from <= k < end <= |a| && end <= |b|
    requires Digits(a, from, end).Some? && Digits(b, from, end).Some?
    requires a[k] < b[k] && forall i :: from <= i < k ==> a[i] == b[i]
    ensures Digits(a, from, end).value < Digits(b, from, end).value
    decreases end
  {
    if k == end - 1 {
      SameDigits(a, b, from, k);
    } else {
      LessDigits(a, b, from, end - 1, k);
    }
  }

  /** How one field of two texts compares when `k` is the first place where they differ. */
  lemma FieldOrder(a: string, b: string, from: nat, end: nat, k: nat)
    requires from <= end <= |a| && end <= |b| && k < |a| && k < |b|
    requires Digits(a, from, end).Some? && Digits(b, from, end).Some?
    requires a[k] < b[k] && forall i :: 0 <= i < k ==> a[i] == b[i]
    ensures end <= k ==> Digits(a, from, end) == Digits(b, from, end)
    ensures from <= k < end ==> Digits(a, from, end).value < Digits(b, from, end).value
  {
    if end <= k {
      SameDigits(a, b, from, end);
    } else if from <= k {
      LessDigits(a, b, from, end, k);
    }
  }

  lemma FirstDifferenceIsEarlier(a: string, b: string, k: nat)
    requires Fields(a).Some? && Fields(b).Some? && k < 20
    requires a[k] < b[k] && forall i :: 0 <= i < k ==> a[i] == b[i]
    ensures var s, t := Fields(a).value, Fields(b).value;
      || s.year < t.year
      || (s.year == t.year && (s.month < t.month
          || (s.month == t.month && (s.day < t.day
              || (s.day == t.day && (s.hour < t.hour
                  || (s.hour == t.hour && (s.minute < t.minute
                      || (s.minute == t.minute && s.second < t.second)))))))))
  {
    FieldOrder(a, b, 0, 4, k);
    FieldOrder(a, b, 5, 7, k);
    FieldOrder(a, b, 8, 10, k);
    FieldOrder(a, b, 11, 13, k);
    FieldOrder(a, b, 14, 16, k);
    FieldOrder(a, b, 17, 19, k);
  }

  lemma TextLessIsEarlier(a: string, b: string)
    requires Timestamp(a).Ok? && Timestamp(b).Ok? && TextLess(a, b)
    ensures Timestamp(a).value < Timestamp(b).value
  {
    var k :| 0 <= k < |a| && k < |b| && a[..k] == b[..k] && a[k] < b[k];
    forall i | 0 <= i < k ensures a[i] == b[i] {
      assert a[i] == a[..k][i] && b[i] == b[..k][i];
    }
    FirstDifferenceIsEarlier(a, b, k);
    EarlierIsLess(Fields(a).value, Fields(b).value);
  }

  lemma {:induction false} FirstDifference(a: string, b: string, i: nat)
    requires |a| == |b| && i <= |a| && a != b && a[..i] == b[..i]
    ensures TextLess(a, b) || TextLess(b, a)
    decreases |a| - i
  {
    assert a[..|a|] == a && b[..|b|] == b;
    if i < |a| && a[i] == b[i] {
      assert a[..i + 1] == a[..i] + [a[i]] && b[..i + 1] == b[..i] + [b[i]];
      FirstDifference(a, b, i + 1);
    }
  }

  /** Accepted texts and the seconds from the epoch to the end of 9999 correspond one to one. */
  lemma TimestampIsBijective(n: nat)
    ensures n < 253402300800 <==> exists s :: Timestamp(s) == Ok(n)
    ensures forall a, b :: Timestamp(a) == Ok(n) && Timestamp(b) == Ok(n) ==> a == b
  {
    if n < 253402300800 {
      var t := EverySecondIsCounted(n);
      FormatParses(t);
    }
    forall s | Timestamp(s) == Ok(n) ensures n < 253402300800 {
      SecondsClosed(Fields(s).value);
    }
    forall a, b | Timestamp(a) == Ok(n) && Timestamp(b) == Ok(n) ensures a == b {
      TextOrderIsTimeOrder(a, b);
    }
  }
}
