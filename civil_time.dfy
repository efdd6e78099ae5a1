/** The request-parameter conversion of backend/main.py:
    `int(datetime.strptime(t, "%Y-%m-%dT%H:%M").replace(tzinfo=timezone.utc).timestamp())`.

    Parsing follows the regular expression CPython's `_strptime` builds for
    that format (compiled case-insensitively): `%Y` is four digits, `%m`
    one of `1[0-2]|0[1-9]|[1-9]`, `%d` one of `3[01]|[12]\d|0[1-9]|[1-9]| [1-9]`,
    `%H` one of `2[0-3]|[0-1]\d|\d`, `%M` one of `[0-5]\d|\d`, and text left
    after the match is an error. The date is then checked as the
    `datetime` constructor does, and the seconds are counted from the epoch
    on the proleptic Gregorian calendar. */
module CivilTime {
  import opened Wrappers

  datatype DateTime = DateTime(year: int, month: int, day: int, hour: int, minute: int)

  /** Why a conversion raises `ValueError`. */
  datatype TimeError =
    | NoMatch          // "time data ... does not match format ..."
    | UnconvertedData  // "unconverted data remains: ..."
    | YearOutOfRange   // year 0
    | DayOutOfRange    // e.g. February 30

  // ---------------------------------------------------------------------
  // Calendar

  predicate IsLeap(y: int) {
    y % 4 == 0 && (y % 100 != 0 || y % 400 == 0)
  }

  function DaysInYear(y: int): int {
    if IsLeap(y) then 366 else 365
  }

  function DaysInMonth(y: int, m: int): int {
    if m == 2 then (if IsLeap(y) then 29 else 28)
    else if m == 4 || m == 6 || m == 9 || m == 11 then 30
    else 31
  }

  /** Days of the year before the first of month `m`: the cumulative
      table of a common year, plus February 29 in a leap year. */
  function DaysBeforeMonth(y: int, m: int): int
    requires 1 <= m <= 12
  {
    [0, 31, 59, 90, 120, 151, 181, 212, 243, 273, 304, 334][m - 1] + (if m > 2 && IsLeap(y) then 1 else 0)
  }

  /** Days before January 1 of year `y`, counted from January 1 of year 1. */
  function DaysBeforeYear(y: int): int
    requires y >= 1
  {
    var p := y - 1;
    p * 365 + p / 4 - p / 100 + p / 400
  }

  /** A date and time the `datetime` constructor accepts. */
  predicate Valid(dt: DateTime) {
    && 1 <= dt.year
    && 1 <= dt.month <= 12
    && 1 <= dt.day <= DaysInMonth(dt.year, dt.month)
    && 0 <= dt.hour <= 23
    && 0 <= dt.minute <= 59
  }

  /** Proleptic Gregorian ordinal: January 1 of year 1 is day 1. */
  function Ordinal(dt: DateTime): int
    requires 1 <= dt.year && 1 <= dt.month <= 12
  {
    DaysBeforeYear(dt.year) + DaysBeforeMonth(dt.year, dt.month) + dt.day
  }

  /** Ordinal of 1970-01-01. */
  const EpochOrdinal: int := 719163

  /** Seconds since 1970-01-01T00:00 UTC. */
  function Timestamp(dt: DateTime): int
    requires 1 <= dt.year && 1 <= dt.month <= 12
  {
    (Ordinal(dt) - EpochOrdinal) * 86400 + dt.hour * 3600 + dt.minute * 60
  }

  // ---------------------------------------------------------------------
  // Parsing

  predicate IsDigit(c: char) {
    '0' <= c <= '9'
  }

  function Digit(c: char): int {
    c as int - '0' as int
  }

  /** First position at or after `i` holding one of `seps`. */
  function FindSep(s: string, i: nat, seps: set<char>): (r: Option<nat>)
    ensures r.Some? ==> i <= r.value < |s| && s[r.value] in seps
    ensures r.Some? ==> forall k :: i <= k < r.value ==> s[k] !in seps
    ensures r.None? ==> forall k :: i <= k < |s| ==> s[k] !in seps
    decreases |s| - i
  {
    if i >= |s| then None
    else if s[i] in seps then Some(i)
    else FindSep(s, i + 1, seps)
  }

  /** `%Y`: exactly four digits. */
  function YearValue(f: string): Option<int> {
    if |f| == 4 && IsDigit(f[0]) && IsDigit(f[1]) && IsDigit(f[2]) && IsDigit(f[3])
    then Some(1000 * Digit(f[0]) + 100 * Digit(f[1]) + 10 * Digit(f[2]) + Digit(f[3]))
    else None
  }

  /** `%m`, matched exactly: `1[0-2]`, `0[1-9]` or `[1-9]`. */
  function MonthValue(f: string): Option<int> {
    if |f| == 2 && f[0] == '1' && '0' <= f[1] <= '2' then Some(10 + Digit(f[1]))
    else if |f| == 2 && f[0] == '0' && '1' <= f[1] <= '9' then Some(Digit(f[1]))
    else if |f| == 1 && '1' <= f[0] <= '9' then Some(Digit(f[0]))
    else None
  }

  /** `%d`, matched exactly: `3[01]`, `[12]\d`, `0[1-9]`, `[1-9]` or a
      space and `[1-9]`. */
  function DayValue(f: string): Option<int> {
    if |f| == 2 && f[0] == '3' && '0' <= f[1] <= '1' then Some(30 + Digit(f[1]))
    else if |f| == 2 && '1' <= f[0] <= '2' && IsDigit(f[1]) then Some(10 * Digit(f[0]) + Digit(f[1]))
    else if |f| == 2 && f[0] == '0' && '1' <= f[1] <= '9' then Some(Digit(f[1]))
    else if |f| == 1 && '1' <= f[0] <= '9' then Some(Digit(f[0]))
    else if |f| == 2 && f[0] == ' ' && '1' <= f[1] <= '9' then Some(Digit(f[1]))
    else None
  }

  /** `%H`, matched exactly: `2[0-3]`, `[0-1]\d` or `\d`. */
  function HourValue(f: string): Option<int> {
    if |f| == 2 && f[0] == '2' && '0' <= f[1] <= '3' then Some(20 + Digit(f[1]))
    else if |f| == 2 && '0' <= f[0] <= '1' && IsDigit(f[1]) then Some(10 * Digit(f[0]) + Digit(f[1]))
    else if |f| == 1 && IsDigit(f[0]) then Some(Digit(f[0]))
    else None
  }

  /** `%M` at the end of the pattern: the first alternative that matches a
      prefix wins, `[0-5]\d` before `\d`; gives the value and the length
      consumed. */
  function MatchMinute(rest: string): Option<(int, nat)> {
    if |rest| >= 2 && '0' <= rest[0] <= '5' && IsDigit(rest[1]) then Some((10 * Digit(rest[0]) + Digit(rest[1]), 2))
    else if |rest| >= 1 && IsDigit(rest[0]) then Some((Digit(rest[0]), 1))
    else None
  }

  /** Positions of the four separators of `"%Y-%m-%dT%H:%M"`, each the
      first one after the previous. */
  function Separators(s: string): (r: Option<(nat, nat, nat, nat)>)
    ensures r.Some? ==> r.value.0 < r.value.1 < r.value.2 < r.value.3 < |s|
  {
    var j1 := FindSep(s, 0, {'-'});
    if j1.None? then None else
    var j2 := FindSep(s, j1.value + 1, {'-'});
    if j2.None? then None else
    var j3 := FindSep(s, j2.value + 1, {'T', 't'});
    if j3.None? then None else
    var j4 := FindSep(s, j3.value + 1, {':'});
    if j4.None? then None else
    Some((j1.value, j2.value, j3.value, j4.value))
  }

  /** The fields between the separators, each matched in full, and the
      minutes matched at the start of the rest. */
  function FieldsAt(s: string, j1: nat, j2: nat, j3: nat, j4: nat): (r: Result<DateTime, TimeError>)
    requires j1 < j2 < j3 < j4 < |s|
    ensures r.Success? ==> && 0 <= r.value.year <= 9999
                           && 1 <= r.value.month <= 12
                           && 1 <= r.value.day <= 31
                           && 0 <= r.value.hour <= 23
                           && 0 <= r.value.minute <= 59
  {
    var y, mo, d, h, mi := YearValue(s[..j1]), MonthValue(s[j1 + 1..j2]), DayValue(s[j2 + 1..j3]),
                           HourValue(s[j3 + 1..j4]), MatchMinute(s[j4 + 1..]);
    if y.None? || mo.None? || d.None? || h.None? || mi.None? then Failure(NoMatch)
    else if mi.value.1 != |s| - (j4 + 1) then Failure(UnconvertedData)
    else Success(DateTime(y.value, mo.value, d.value, h.value, mi.value.0))
  }

  /** The match of the `"%Y-%m-%dT%H:%M"` pattern. Every field before a
      separator consists of digits (or a space and a digit), so a match
      makes each field end at the first following separator; the field is
      then accepted only if one alternative matches all of it. Only the
      minutes, last in the pattern, may leave text unmatched. */
  function ParseFields(s: string): Result<DateTime, TimeError> {
    match Separators(s)
    case None => Failure(NoMatch)
    case Some((j1, j2, j3, j4)) => FieldsAt(s, j1, j2, j3, j4)
  }

  /** `datetime.strptime(s, "%Y-%m-%dT%H:%M")`: the match, then the
      constructor's range checks (the month is already 1 to 12). */
  function ParseDateTime(s: string): (r: Result<DateTime, TimeError>)
    ensures r.Success? ==> Valid(r.value) && r.value.year <= 9999
  {
    match ParseFields(s)
    case Failure(e) => Failure(e)
    case Success(dt) =>
      if dt.year < 1 then Failure(YearOutOfRange)
      else if dt.day > DaysInMonth(dt.year, dt.month) then Failure(DayOutOfRange)
      else Success(dt)
  }

  /** The whole conversion of one query parameter. The float returned by
      `timestamp()` holds a whole number of seconds well inside the exact
      range of a double, so `int()` gives it back unchanged. */
  function ConvertTime(s: string): (r: Result<int, TimeError>)
    ensures r.Success? ==> r.value % 60 == 0
  {
    match ParseDateTime(s)
    case Failure(e) => Failure(e)
    case Success(dt) => TimestampMinutes(dt); Success(Timestamp(dt))
  }

  // ---------------------------------------------------------------------
  // Formatting, the inverse of parsing

  function Pad2(n: int): string
    requires 0 <= n <= 99
  {
    [DigitOf(n / 10), DigitOf(n % 10)]
  }

  function Pad4(n: int): string
    requires 0 <= n <= 9999
  {
    [DigitOf(n / 10 / 10 / 10), DigitOf(n / 10 / 10 % 10), DigitOf(n / 10 % 10), DigitOf(n % 10)]
  }

  function DigitOf(d: int): (c: char)
    requires 0 <= d <= 9
    ensures IsDigit(c) && Digit(c) == d
  {
    ('0' as int + d) as char
  }

  /** `dt.strftime("%Y-%m-%dT%H:%M")`. */
  function Format(dt: DateTime): string
    requires 0 <= dt.year <= 9999 && 0 <= dt.month <= 99 && 0 <= dt.day <= 99
    requires 0 <= dt.hour <= 99 && 0 <= dt.minute <= 99
  {
    var y, mo, d, h, mi := Pad4(dt.year), Pad2(dt.month), Pad2(dt.day), Pad2(dt.hour), Pad2(dt.minute);
    [y[0], y[1], y[2], y[3], '-', mo[0], mo[1], '-', d[0], d[1], 'T', h[0], h[1], ':', mi[0], mi[1]]
  }

  // ---------------------------------------------------------------------
  // Properties of the calendar

  /** Reference definition: the days of all years before `y`, one by one. */
  function YearDaysSum(y: int): int
    requires y >= 1
    decreases y
  {
    if y == 1 then 0 else YearDaysSum(y - 1) + DaysInYear(y - 1)
  }

  /** One year further on, the closed form grows by that year's length. */
  lemma DaysBeforeYearStep(y: int)
    requires y >= 1
    ensures DaysBeforeYear(y + 1) == DaysBeforeYear(y) + DaysInYear(y)
  {
    var p := y - 1;
    assert y / 4 == p / 4 + (if y % 4 == 0 then 1 else 0);
    assert y / 100 == p / 100 + (if y % 100 == 0 then 1 else 0);
    assert y / 400 == p / 400 + (if y % 400 == 0 then 1 else 0);
  }

  /** The closed form counts exactly the days of the years before `y`. */
  lemma {:induction false} DaysBeforeYearIsSum(y: int)
    requires y >= 1
    ensures DaysBeforeYear(y) == YearDaysSum(y)
    decreases y
  {
    if y > 1 {
      DaysBeforeYearIsSum(y - 1);
      DaysBeforeYearStep(y - 1);
    }
  }

  lemma {:induction false} DaysBeforeYearMonotone(y1: int, y2: int)
    requires 1 <= y1 < y2
    ensures DaysBeforeYear(y1) + DaysInYear(y1) <= DaysBeforeYear(y2)
    decreases y2 - y1
  {
    DaysBeforeYearStep(y1);
    if y1 + 1 < y2 {
      DaysBeforeYearMonotone(y1 + 1, y2);
    }
  }

  /** One month further on, the table grows by that month's length. */
  lemma DaysBeforeMonthStep(y: int, m: int)
    requires 1 <= m < 12
    ensures DaysBeforeMonth(y, m + 1) == DaysBeforeMonth(y, m) + DaysInMonth(y, m)
  {
  }

  lemma {:induction false} DaysBeforeMonthMonotone(y: int, m1: int, m2: int)
    requires 1 <= m1 < m2 <= 12
    ensures DaysBeforeMonth(y, m1) + DaysInMonth(y, m1) <= DaysBeforeMonth(y, m2)
    decreases m2 - m1
  {
    DaysBeforeMonthStep(y, m1);
    if m1 + 1 < m2 {
      DaysBeforeMonthMonotone(y, m1 + 1, m2);
    }
  }

  /** The twelve months fill the year. */
  lemma MonthsFillYear(y: int)
    ensures DaysBeforeMonth(y, 12) + DaysInMonth(y, 12) == DaysInYear(y)
  {
  }

  /** A valid date lies within its year. */
  lemma OrdinalInYear(dt: DateTime)
    requires Valid(dt)
    ensures DaysBeforeYear(dt.year) < Ordinal(dt) <= DaysBeforeYear(dt.year) + DaysInYear(dt.year)
  {
    MonthsFillYear(dt.year);
    if dt.month < 12 {
      DaysBeforeMonthMonotone(dt.year, dt.month, 12);
    }
  }

  /** 1970-01-01 really is day 719163. */
  lemma EpochOrdinalCorrect()
    ensures Ordinal(DateTime(1970, 1, 1, 0, 0)) == EpochOrdinal
  {
  }

  /** With no seconds field, every timestamp is a whole number of minutes. */
  lemma TimestampMinutes(dt: DateTime)
    requires 1 <= dt.year && 1 <= dt.month <= 12
    ensures Timestamp(dt) % 60 == 0
  {
    var days := Ordinal(dt) - EpochOrdinal;
    assert Timestamp(dt) == 60 * (days * 1440 + dt.hour * 60 + dt.minute);
  }

  // ---------------------------------------------------------------------
  // Order

  /** Chronological order of date-times, field by field. */
  predicate Before(a: DateTime, b: DateTime) {
    || a.year < b.year
    || (a.year == b.year && a.month < b.month)
    || (a.year == b.year && a.month == b.month && a.day < b.day)
    || (a.year == b.year && a.month == b.month && a.day == b.day && a.hour < b.hour)
    || (a.year == b.year && a.month == b.month && a.day == b.day && a.hour == b.hour && a.minute < b.minute)
  }

  lemma OrdinalMonotone(a: DateTime, b: DateTime)
    requires Valid(a) && Valid(b)
    requires a.year < b.year || (a.year == b.year && a.month < b.month)
             || (a.year == b.year && a.month == b.month && a.day < b.day)
    ensures Ordinal(a) < Ordinal(b)
  {
    if a.year < b.year {
      OrdinalInYear(a);
      OrdinalInYear(b);
      DaysBeforeYearMonotone(a.year, b.year);
    } else if a.month < b.month {
      DaysBeforeMonthMonotone(a.year, a.month, b.month);
    }
  }

  /** Timestamps order date-times exactly as the calendar does. */
  lemma TimestampOrder(a: DateTime, b: DateTime)
    requires Valid(a) && Valid(b)
    ensures Before(a, b) <==> Timestamp(a) < Timestamp(b)
  {
    if Before(a, b) {
      TimestampStrict(a, b);
    } else if Before(b, a) {
      TimestampStrict(b, a);
    } else {
      assert a == b;
    }
  }

  lemma TimestampStrict(a: DateTime, b: DateTime)
    requires Valid(a) && Valid(b) && Before(a, b)
    ensures Timestamp(a) < Timestamp(b)
  {
    var ca := a.hour * 3600 + a.minute * 60;
    var cb := b.hour * 3600 + b.minute * 60;
    assert 0 <= ca < 86400 && 0 <= cb < 86400;
    if a.year < b.year || (a.year == b.year && a.month < b.month)
       || (a.year == b.year && a.month == b.month && a.day < b.day) {
      OrdinalMonotone(a, b);
      var da := Ordinal(a) - EpochOrdinal;
      var db := Ordinal(b) - EpochOrdinal;
      assert da * 86400 + 86400 <= db * 86400;
    }
  }

  /** The date-time one minute later. */
  function NextMinute(dt: DateTime): DateTime {
    if dt.minute < 59 then dt.(minute := dt.minute + 1)
    else if dt.hour < 23 then dt.(hour := dt.hour + 1, minute := 0)
    else if dt.day < DaysInMonth(dt.year, dt.month) then dt.(day := dt.day + 1, hour := 0, minute := 0)
    else if dt.month < 12 then dt.(month := dt.month + 1, day := 1, hour := 0, minute := 0)
    else DateTime(dt.year + 1, 1, 1, 0, 0)
  }

  /** Consecutive minutes are exactly 60 seconds apart. */
  lemma NextMinuteAdds60(dt: DateTime)
    requires Valid(dt)
    ensures Valid(NextMinute(dt)) && Before(dt, NextMinute(dt))
    ensures Timestamp(NextMinute(dt)) == Timestamp(dt) + 60
  {
    var n := NextMinute(dt);
    if dt.minute == 59 && dt.hour == 23 && dt.day == DaysInMonth(dt.year, dt.month) {
      if dt.month < 12 {
        DaysBeforeMonthStep(dt.year, dt.month);
      } else {
        MonthsFillYear(dt.year);
        DaysBeforeYearStep(dt.year);
      }
    }
  }

  /** No valid date-time lies strictly between a minute and the next. */
  lemma NothingBetweenMinutes(dt: DateTime, x: DateTime)
    requires Valid(dt) && Valid(x)
    ensures !(Before(dt, x) && Before(x, NextMinute(dt)))
  {
    NextMinuteAdds60(dt);
    TimestampOrder(dt, x);
    TimestampOrder(x, NextMinute(dt));
    TimestampMinutes(dt);
    TimestampMinutes(x);
  }

  // ---------------------------------------------------------------------
  // The POSIX formula

  /** C integer division, which truncates toward zero. */
  function CDiv(a: int, b: int): int
    requires b > 0
  {
    if a >= 0 then a / b else -((-a) / b)
  }

  /** Seconds since the Epoch as section 4.16 of the POSIX.1-2017 Base
      Definitions writes them, from `struct tm` fields. */
  function PosixSeconds(tmYear: int, tmYday: int, tmHour: int, tmMin: int, tmSec: int): int {
    tmSec + tmMin * 60 + tmHour * 3600 + tmYday * 86400 +
    (tmYear - 70) * 31536000 + CDiv(tmYear - 69, 4) * 86400 -
    CDiv(tmYear - 1, 100) * 86400 + CDiv(tmYear + 299, 400) * 86400
  }

  /** From the epoch on, the conversion agrees with the POSIX formula. */
  lemma TimestampIsPosix(dt: DateTime)
    requires Valid(dt) && dt.year >= 1970
    ensures Timestamp(dt) == PosixSeconds(dt.year - 1900, DaysBeforeMonth(dt.year, dt.month) + dt.day - 1,
                                          dt.hour, dt.minute, 0)
  {
    var y := dt.year;
    assert (y - 1) / 4 == (y - 1969) / 4 + 492;
    assert (y - 1) / 100 == (y - 1901) / 100 + 19;
    assert (y - 1) / 400 == (y - 1601) / 400 + 4;
  }

  // ---------------------------------------------------------------------
  // Parsing against formatting

  lemma Pad4Value(n: int)
    requires 0 <= n <= 9999
    ensures YearValue(Pad4(n)) == Some(n)
  {
    var q1 := n / 10;
    var q2 := q1 / 10;
    var q3 := q2 / 10;
    assert n == 10 * q1 + n % 10;
    assert q1 == 10 * q2 + q1 % 10;
    assert q2 == 10 * q3 + q2 % 10;
  }

  lemma Pad2Value(n: int)
    requires 0 <= n <= 99
    ensures n == 10 * Digit(Pad2(n)[0]) + Digit(Pad2(n)[1])
  {
  }

  /** Each two-digit field in range matches its alternatives. */
  lemma Pad2Fields(month: int, day: int, hour: int, minute: int, t: string)
    requires 1 <= month <= 12 && 1 <= day <= 31 && 0 <= hour <= 23 && 0 <= minute <= 59
    ensures MonthValue(Pad2(month)) == Some(month)
    ensures DayValue(Pad2(day)) == Some(day)
    ensures HourValue(Pad2(hour)) == Some(hour)
    ensures MatchMinute(Pad2(minute) + t) == Some((minute, 2))
  {
    Pad2Value(month);
    Pad2Value(day);
    Pad2Value(hour);
    Pad2Value(minute);
  }

  /** The first separator is found where it is. */
  lemma FindSepAt(s: string, i: nat, j: nat, seps: set<char>)
    requires i <= j < |s| && s[j] in seps
    requires forall k :: i <= k < j ==> s[k] !in seps
    ensures FindSep(s, i, seps) == Some(j)
  {
    var r := FindSep(s, i, seps);
    assert r.Some?;
    assert !(r.value < j);
  }

  /** A text with the separators of the format at their fixed positions,
      and none of them earlier inside a field, is read field by field. */
  lemma FixedSeparators(s: string)
    requires |s| >= 14 && s[4] == '-' && s[7] == '-' && s[10] == 'T' && s[13] == ':'
    requires forall k :: 0 <= k < 4 ==> IsDigit(s[k])
    requires IsDigit(s[5]) && IsDigit(s[6]) && IsDigit(s[8]) && IsDigit(s[9])
    requires IsDigit(s[11]) && IsDigit(s[12])
    ensures Separators(s) == Some((4, 7, 10, 13))
  {
    FindSepAt(s, 0, 4, {'-'});
    FindSepAt(s, 5, 7, {'-'});
    FindSepAt(s, 8, 10, {'T', 't'});
    FindSepAt(s, 11, 13, {':'});
  }

  /** Fields in range, written with the format, parse back field for
      field; anything appended after the minutes is unconverted data. */
  lemma ParseFormat(dt: DateTime, t: string)
    requires 0 <= dt.year <= 9999 && 1 <= dt.month <= 12 && 1 <= dt.day <= 31
    requires 0 <= dt.hour <= 23 && 0 <= dt.minute <= 59
    ensures ParseFields(Format(dt) + t) == if t == [] then Success(dt) else Failure(UnconvertedData)
  {
    var s := Format(dt) + t;
    assert s[..4] == Pad4(dt.year);
    assert s[5..7] == Pad2(dt.month);
    assert s[8..10] == Pad2(dt.day);
    assert s[11..13] == Pad2(dt.hour);
    assert s[14..] == Pad2(dt.minute) + t;
    FixedSeparators(s);
    Pad4Value(dt.year);
    Pad2Fields(dt.month, dt.day, dt.hour, dt.minute, t);
  }

  /** Every valid date-time of years 1 to 9999 survives a round trip. */
  lemma ParseFormatRoundTrip(dt: DateTime)
    requires Valid(dt) && dt.year <= 9999
    ensures ParseDateTime(Format(dt)) == Success(dt)
  {
    ParseFormat(dt, []);
    assert Format(dt) + [] == Format(dt);
  }

  /** Appending seconds (or anything else) is rejected. */
  lemma TrailingDataRejected(dt: DateTime, t: string)
    requires Valid(dt) && dt.year <= 9999 && t != []
    ensures ConvertTime(Format(dt) + t) == Failure(UnconvertedData)
  {
    ParseFormat(dt, t);
  }

  /** A nonexistent day of a real month is rejected. */
  lemma NonexistentDayRejected(dt: DateTime)
    requires 1 <= dt.year <= 9999 && 1 <= dt.month <= 12 && dt.day <= 31
    requires dt.day > DaysInMonth(dt.year, dt.month)
    requires 0 <= dt.hour <= 23 && 0 <= dt.minute <= 59
    ensures ConvertTime(Format(dt)) == Failure(DayOutOfRange)
  {
    ParseFormat(dt, []);
    assert Format(dt) + [] == Format(dt);
  }

  /** Year 0000 matches the pattern but is out of the constructor's range. */
  lemma YearZeroRejected(dt: DateTime)
    requires dt.year == 0 && 1 <= dt.month <= 12 && 1 <= dt.day <= 31
    requires 0 <= dt.hour <= 23 && 0 <= dt.minute <= 59
    ensures ConvertTime(Format(dt)) == Failure(YearOutOfRange)
  {
    ParseFormat(dt, []);
    assert Format(dt) + [] == Format(dt);
  }

  const ShortExample: string := "2024-1-5t3:7"

  lemma ShortExampleSeparators()
    ensures Separators(ShortExample) == Some((4, 6, 8, 10))
  {
    FindSepAt(ShortExample, 0, 4, {'-'});
    FindSepAt(ShortExample, 5, 6, {'-'});
    FindSepAt(ShortExample, 7, 8, {'T', 't'});
    FindSepAt(ShortExample, 9, 10, {':'});
  }

  lemma ShortExampleFields()
    ensures YearValue(ShortExample[..4]) == Some(2024) && MonthValue(ShortExample[5..6]) == Some(1)
    ensures DayValue(ShortExample[7..8]) == Some(5) && HourValue(ShortExample[9..10]) == Some(3)
    ensures MatchMinute(ShortExample[11..]) == Some((7, 1))
  {
    assert ShortExample[..4] == "2024";
    assert ShortExample[5..6] == "1";
    assert ShortExample[7..8] == "5";
    assert ShortExample[9..10] == "3";
    assert ShortExample[11..] == "7";
  }

  /** Single-digit fields and a lower-case separator are accepted too. */
  lemma ShortFieldsAccepted()
    ensures ParseDateTime(ShortExample) == Success(DateTime(2024, 1, 5, 3, 7))
  {
    ShortExampleSeparators();
    ShortExampleFields();
  }

  /** Month 13 matches none of the month alternatives. */
  lemma MonthThirteenRejected(year: string, rest: string)
    requires |year| == 4
    ensures ConvertTime(year + "-13-" + rest) == Failure(NoMatch)
  {
    var s := year + "-13-" + rest;
    assert s[4] == '-' && s[5] == '1' && s[6] == '3' && s[7] == '-';
    var sep := Separators(s);
    if sep.Some? {
      var j1 := FindSep(s, 0, {'-'}).value;
      assert j1 <= 4;
      if j1 == 4 {
        assert FindSep(s, 5, {'-'}) == Some(7);
        assert s[5..7] == "13";
      }
    }
  }

  /** The epoch itself converts to 0. */
  lemma EpochConvertsToZero()
    ensures ConvertTime("1970-01-01T00:00") == Success(0)
  {
    var dt := DateTime(1970, 1, 1, 0, 0);
    assert Format(dt) == "1970-01-01T00:00";
    ConvertTimeOfFormat(dt);
    EpochOrdinalCorrect();
  }

  /** A well-formed parameter converts to the POSIX seconds of its fields. */
  lemma ConvertTimeOfFormat(dt: DateTime)
    requires Valid(dt) && dt.year <= 9999
    ensures ConvertTime(Format(dt)) == Success(Timestamp(dt))
  {
    ParseFormatRoundTrip(dt);
  }
}
