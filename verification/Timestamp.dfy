/**
  parseTimestamp: a printed date and time, read in a zone of fixed offset, becomes microseconds
  since the Epoch. The calendar itself is defined by counting days, year by year and month by
  month; the code uses the closed formula of the Seconds Since the Epoch (Base Definitions,
  section 4.16 of IEEE Std 1003.1-2017).
 */
module Timestamp {
  import opened Wrappers
  import opened Text

  datatype DateTime = DateTime(year: nat, month: nat, day: nat, hour: nat, minute: nat, second: nat)

  // ------------------------------------------------------------ the calendar, by counting

  predicate IsLeap(year: int) {
    year % 4 == 0 && (year % 100 != 0 || year % 400 == 0)
  }

  function YearDays(year: int): nat {
    if IsLeap(year) then 366 else 365
  }

  function MonthDays(year: int, month: nat): nat
    requires 1 <= month <= 12
  {
    if month == 2 then (if IsLeap(year) then 29 else 28)
    else if month == 4 || month == 6 || month == 9 || month == 11 then 30
    else 31
  }

  /** Days from 1 January 1970 to 1 January of the year. */
  function DaysToYear(year: nat): nat
    requires year >= 1970
  {
    if year == 1970 then 0 else DaysToYear(year - 1) + YearDays(year - 1)
  }

  /** Days from 1 January to the first of the month; month 13 stands for the next January. */
  function DaysToMonth(year: nat, month: nat): nat
    requires 1 <= month <= 13
  {
    if month == 1 then 0 else DaysToMonth(year, month - 1) + MonthDays(year, month - 1)
  }

  predicate Valid(t: DateTime) {
    && 1970 <= t.year && 1 <= t.month <= 12 && 1 <= t.day <= MonthDays(t.year, t.month)
    && t.hour < 24 && t.minute < 60 && t.second < 60
  }

  /** Seconds since the Epoch of a date and time in UTC. */
  function EpochSeconds(t: DateTime): nat
    requires Valid(t)
  {
    (DaysToYear(t.year) + DaysToMonth(t.year, t.month) + t.day - 1) * 86400
    + t.hour * 3600 + t.minute * 60 + t.second
  }

  // ------------------------------------------------------------ and back

  function YearOf(days: nat, from: nat): (y: nat)
    requires from >= 1970
    ensures y >= from
    decreases days
  {
    if days < YearDays(from) then from else YearOf(days - YearDays(from), from + 1)
  }

  function MonthOf(days: nat, year: nat, from: nat): (m: nat)
    requires 1 <= from <= 12
    ensures from <= m <= 12
    decreases 12 - from
  {
    if from == 12 || days < MonthDays(year, from) then from else MonthOf(days - MonthDays(year, from), year, from + 1)
  }

  lemma {:induction false} YearOfDays(days: nat, from: nat)
    requires from >= 1970
    ensures var y := YearOf(days, from);
            DaysToYear(y) - DaysToYear(from) <= days < DaysToYear(y) - DaysToYear(from) + YearDays(y)
    decreases days
  {
    if days >= YearDays(from) {
      YearOfDays(days - YearDays(from), from + 1);
    }
  }

  lemma {:induction false} YearIsOnlyOne(y: nat, z: nat)
    requires 1970 <= y < z
    ensures DaysToYear(y) + YearDays(y) <= DaysToYear(z)
  {
    if z > y + 1 {
      YearIsOnlyOne(y, z - 1);
    }
  }

  /** The days before each month. */
  lemma MonthStarts(year: nat)
    ensures var feb := MonthDays(year, 2);
            && DaysToMonth(year, 1) == 0 && DaysToMonth(year, 2) == 31 && DaysToMonth(year, 3) == 31 + feb
            && DaysToMonth(year, 4) == 62 + feb && DaysToMonth(year, 5) == 92 + feb
            && DaysToMonth(year, 6) == 123 + feb && DaysToMonth(year, 7) == 153 + feb
            && DaysToMonth(year, 8) == 184 + feb && DaysToMonth(year, 9) == 215 + feb
            && DaysToMonth(year, 10) == 245 + feb && DaysToMonth(year, 11) == 276 + feb
            && DaysToMonth(year, 12) == 306 + feb && DaysToMonth(year, 13) == 337 + feb
  {
    assert DaysToMonth(year, 3) == DaysToMonth(year, 2) + MonthDays(year, 2);
    assert DaysToMonth(year, 5) == DaysToMonth(year, 4) + 30;
    assert DaysToMonth(year, 7) == DaysToMonth(year, 6) + 30;
    assert DaysToMonth(year, 9) == DaysToMonth(year, 8) + 31;
    assert DaysToMonth(year, 11) == DaysToMonth(year, 10) + 31;
  }

  lemma DaysInYear(year: nat)
    ensures DaysToMonth(year, 13) == YearDays(year)
  {
    MonthStarts(year);
  }

  lemma {:induction false} MonthOfDays(days: nat, year: nat, from: nat)
    requires 1 <= from <= 12 && DaysToMonth(year, from) + days < YearDays(year)
    ensures var m := MonthOf(days, year, from);
            && DaysToMonth(year, m) <= DaysToMonth(year, from) + days
            && DaysToMonth(year, from) + days < DaysToMonth(year, m) + MonthDays(year, m)
    decreases 12 - from
  {
    if from == 12 {
      DaysInYear(year);
    } else if days >= MonthDays(year, from) {
      MonthOfDays(days - MonthDays(year, from), year, from + 1);
    }
  }

  lemma {:induction false} MonthIsOnlyOne(year: nat, m: nat, n: nat)
    requires 1 <= m < n <= 13
    ensures DaysToMonth(year, m) + MonthDays(year, m) <= DaysToMonth(year, n)
  {
    if n > m + 1 {
      MonthIsOnlyOne(year, m, n - 1);
    }
  }

  /** The date and time a number of seconds after the Epoch. */
  function FromEpoch(seconds: nat): (t: DateTime)
    ensures Valid(t) && EpochSeconds(t) == seconds
  {
    var days, rest := seconds / 86400, seconds % 86400;
    var year := YearOf(days, 1970);
    YearOfDays(days, 1970);
    var inYear := days - DaysToYear(year);
    var month := MonthOf(inYear, year, 1);
    MonthOfDays(inYear, year, 1);
    DateTime(year, month, inYear - DaysToMonth(year, month) + 1, rest / 3600, rest % 3600 / 60, rest % 60)
  }

  lemma SameDay(t: DateTime, u: DateTime)
    requires Valid(t) && Valid(u) && EpochSeconds(t) == EpochSeconds(u)
    ensures DaysToYear(t.year) + DaysToMonth(t.year, t.month) + t.day
         == DaysToYear(u.year) + DaysToMonth(u.year, u.month) + u.day
    ensures t.hour == u.hour && t.minute == u.minute && t.second == u.second
  {
  }

  lemma DayInYear(t: DateTime)
    requires Valid(t)
    ensures DaysToMonth(t.year, t.month) + t.day <= YearDays(t.year)
  {
    DaysInYear(t.year);
    MonthIsOnlyOne(t.year, t.month, 13);
  }

  /** Different valid dates and times have different Epoch seconds. */
  lemma EpochSecondsInjective(t: DateTime, u: DateTime)
    requires Valid(t) && Valid(u) && EpochSeconds(t) == EpochSeconds(u)
    ensures t == u
  {
    SameDay(t, u);
    DayInYear(t);
    DayInYear(u);
    if t.year < u.year {
      YearIsOnlyOne(t.year, u.year);
    } else if u.year < t.year {
      YearIsOnlyOne(u.year, t.year);
    } else if t.month < u.month {
      MonthIsOnlyOne(t.year, t.month, u.month);
    } else if u.month < t.month {
      MonthIsOnlyOne(t.year, u.month, t.month);
    }
  }

  /** Inverting the calendar arithmetic gives the date and time back. */
  lemma FromEpochInverts(t: DateTime)
    requires Valid(t)
    ensures FromEpoch(EpochSeconds(t)) == t
  {
    EpochSecondsInjective(FromEpoch(EpochSeconds(t)), t);
  }

  // ------------------------------------------------------------ the code

  /** struct tm: years since 1900, months from 0. */
  datatype Tm = Tm(year: int, month: int, mday: int, hour: int, min: int, sec: int)

  /** tm_yday, from the table of days before each month. */
  function DayOfYear(tm: Tm): int
    requires 0 <= tm.month < 12
  {
    var before := [0, 31, 59, 90, 120, 151, 181, 212, 243, 273, 304, 334];
    before[tm.month] + (if tm.month >= 2 && IsLeap(tm.year + 1900) then 1 else 0) + tm.mday - 1
  }

  /** mktime in a zone `zone` seconds east of UTC all year round. */
  function MkTime(tm: Tm, zone: int): int
    requires 0 <= tm.month < 12
  {
    tm.sec + tm.min * 60 + tm.hour * 3600 + DayOfYear(tm) * 86400
    + (tm.year - 70) * 31536000 + ((tm.year - 69) / 4) * 86400
    - ((tm.year - 1) / 100) * 86400 + ((tm.year + 299) / 400) * 86400
    - zone
  }

  lemma {:induction false} LeapDays(year: nat)
    requires year >= 1970
    ensures DaysToYear(year) ==
            (year - 1970) * 365 + (year - 1969) / 4 - (year - 1901) / 100 + (year - 1601) / 400
  {
    if year > 1970 {
      LeapDays(year - 1);
      OneMoreYear(year - 1);
    }
  }

  lemma OneMoreYear(year: int)
    ensures (year - 1968) / 4 - (year - 1900) / 100 + (year - 1600) / 400 + 365
         == (year - 1969) / 4 - (year - 1901) / 100 + (year - 1601) / 400 + YearDays(year)
  {
    Every4(year);
    Every100(year);
    Every400(year);
    YearLength(year);
  }

  lemma YearLength(year: int)
    ensures YearDays(year) == 365 + (if year % 4 == 0 then 1 else 0) - (if year % 100 == 0 then 1 else 0)
                                  + (if year % 400 == 0 then 1 else 0)
  {
    if year % 400 == 0 {
      FourCenturies(year);
    }
    if year % 100 == 0 {
      Century(year);
    }
  }

  lemma FourCenturies(year: int)
    requires year % 400 == 0
    ensures year % 100 == 0
  {
    assert year == 100 * (4 * (year / 400));
  }

  lemma Century(year: int)
    requires year % 100 == 0
    ensures year % 4 == 0
  {
    assert year == 4 * (25 * (year / 100));
  }

  lemma Every4(year: int)
    ensures (year - 1968) / 4 - (year - 1969) / 4 == if year % 4 == 0 then 1 else 0
  {
  }

  lemma Every100(year: int)
    ensures (year - 1900) / 100 - (year - 1901) / 100 == if year % 100 == 0 then 1 else 0
  {
  }

  lemma Every400(year: int)
    ensures (year - 1600) / 400 - (year - 1601) / 400 == if year % 400 == 0 then 1 else 0
  {
  }

  lemma MonthTable(t: DateTime)
    requires Valid(t)
    ensures DayOfYear(AsTm(t)) == DaysToMonth(t.year, t.month) + t.day - 1
  {
    MonthStarts(t.year);
  }

  function AsTm(t: DateTime): Tm {
    Tm(t.year - 1900, t.month - 1, t.day, t.hour, t.minute, t.second)
  }

  /** The closed formula counts the days that the calendar has. */
  lemma MkTimeIsEpoch(t: DateTime, zone: int)
    requires Valid(t)
    ensures MkTime(AsTm(t), zone) == EpochSeconds(t) - zone
  {
    LeapDays(t.year);
    MonthTable(t);
  }

  /** A text laid out as YYYY-MM-DD HH:MM:SS. */
  predicate Laid(s: string) {
    && |s| == 19
    && s[4] == '-' && s[7] == '-' && s[10] == ' ' && s[13] == ':' && s[16] == ':'
    && forall i :: 0 <= i < 19 && i != 4 && i != 7 && i != 10 && i != 13 && i != 16 ==> IsDigit(s[i])
  }

  /** std::get_time with "%Y-%m-%d %H:%M:%S" on a text of that layout. */
  function GetTime(s: string): Tm
    requires Laid(s)
  {
    Tm(Value(s[0..4]) - 1900, Value(s[5..7]) - 1, Value(s[8..10]),
       Value(s[11..13]), Value(s[14..16]), Value(s[17..19]))
  }

  function IndexOfDot(s: string): (r: nat)
    ensures r <= |s| && (r < |s| ==> s[r] == '.') && forall i :: 0 <= i < r ==> s[i] != '.'
  {
    Span(c => c != '.', s)
  }

  function PrintDate(t: DateTime): (s: string)
    requires Valid(t) && t.year < 10000
    ensures |s| == 19
  {
    Padded(t.year, 4) + "-" + Padded(t.month, 2) + "-" + Padded(t.day, 2) + " " +
    Padded(t.hour, 2) + ":" + Padded(t.minute, 2) + ":" + Padded(t.second, 2)
  }

  /** A printed time stamp: without fraction, or with a point and the given digits. */
  function PrintStamp(t: DateTime, fraction: Option<string>): string
    requires Valid(t) && t.year < 10000
  {
    PrintDate(t) + match fraction case None => "" case Some(digits) => "." + digits
  }

  lemma Slices(a: string, b: string, c: string, d: string, e: string, f: string)
    requires |a| == 4 && |b| == |c| == |d| == |e| == |f| == 2
    requires AllDigits(a) && AllDigits(b) && AllDigits(c) && AllDigits(d) && AllDigits(e) && AllDigits(f)
    ensures var s := a + "-" + b + "-" + c + " " + d + ":" + e + ":" + f;
            && Laid(s) && s[0..4] == a && s[5..7] == b && s[8..10] == c
            && s[11..13] == d && s[14..16] == e && s[17..19] == f
  {
  }

  lemma PrintedDateReads(t: DateTime)
    requires Valid(t) && t.year < 10000
    ensures Laid(PrintDate(t)) && GetTime(PrintDate(t)) == AsTm(t)
  {
    Slices(Padded(t.year, 4), Padded(t.month, 2), Padded(t.day, 2),
           Padded(t.hour, 2), Padded(t.minute, 2), Padded(t.second, 2));
  }

  /** Where the fields of a printed date stand, and what they denote. */
  lemma DatePositions(t: DateTime)
    requires Valid(t) && t.year < 10000
    ensures var s := PrintDate(t);
            && |s| == 19 && s[4] == s[7] == '-' && s[10] == ' ' && s[13] == s[16] == ':'
            && AllDigits(s[0..4]) && AllDigits(s[5..7]) && AllDigits(s[8..10])
            && AllDigits(s[11..13]) && AllDigits(s[14..16]) && AllDigits(s[17..19])
            && Value(s[0..4]) == t.year && Value(s[5..7]) == t.month && Value(s[8..10]) == t.day
            && Value(s[11..13]) == t.hour && Value(s[14..16]) == t.minute && Value(s[17..19]) == t.second
  {
    Slices(Padded(t.year, 4), Padded(t.month, 2), Padded(t.day, 2),
           Padded(t.hour, 2), Padded(t.minute, 2), Padded(t.second, 2));
  }

  predicate Printable(t: DateTime, fraction: Option<string>) {
    Valid(t) && t.year < 10000 && (fraction.Some? ==> AllDigits(fraction.value))
  }

  lemma NoDot(d: string)
    requires Laid(d)
    ensures |d| == 19 && forall i :: 0 <= i < |d| ==> d[i] != '.'
  {
  }

  /** A text of 19 characters without a point, and what follows it. */
  lemma SplitsAt19(d: string, tail: string)
    requires |d| == 19 && forall i :: 0 <= i < |d| ==> d[i] != '.'
    requires tail == "" || tail[0] == '.'
    ensures (d + tail)[..19] == d
    ensures IndexOfDot(d + tail) == 19
    ensures tail != "" ==> (d + tail)[20..] == tail[1..]
  {
    var s := d + tail;
    assert s[..19] == d;
    assert forall i :: 0 <= i < 19 ==> s[i] == d[i];
    if tail != "" {
      assert s[19] == '.';
    }
  }

  lemma PrintedStampSplits(t: DateTime, fraction: Option<string>)
    requires Printable(t, fraction)
    ensures var s := PrintStamp(t, fraction);
            && |s| >= 19 && s[..19] == PrintDate(t)
            && match fraction
               case None => IndexOfDot(s) == |s|
               case Some(digits) => IndexOfDot(s) == 19 < |s| && s[20..] == digits
  {
    PrintedDateReads(t);
    var d := PrintDate(t);
    NoDot(d);
    SplitsAt19(d, match fraction case None => "" case Some(digits) => "." + digits);
  }

  /** What is added for a fraction, in microseconds: the number that its digits denote. */
  function FractionValue(fraction: Option<string>): Option<Result<int, StoiError>>
    requires fraction.Some? ==> AllDigits(fraction.value)
  {
    if fraction.None? then None
    else if fraction.value == "" then Some(Err(InvalidArgument))
    else if Value(fraction.value) > INT_MAX then Some(Err(OutOfRange))
    else Some(Ok(Value(fraction.value)))
  }

  /** Seconds and fraction as unsigned 64-bit microseconds, or the failure to read the fraction. */
  function Combined(seconds: int, fraction: Option<Result<int, StoiError>>): Result<nat, StoiError> {
    match fraction
    case None => Ok(Uint64(seconds * 1000000))
    case Some(Err(e)) => Err(e)
    case Some(Ok(micros)) => Ok(Uint64(seconds * 1000000 + micros))
  }

  /** What parsing the printed stamp of t and fraction gives in a zone `zone` seconds east of UTC. */
  function ParsedStamp(t: DateTime, fraction: Option<string>, zone: int): Result<nat, StoiError>
    requires Printable(t, fraction)
  {
    Combined(EpochSeconds(t) - zone, FractionValue(fraction))
  }

  function FractionOf(s: string): Option<Result<int, StoiError>> {
    var dot := IndexOfDot(s);
    if dot < |s| then Some(Stoi(s[dot + 1..])) else None
  }

  lemma FractionReads(s: string, fraction: Option<string>)
    requires |s| >= 19 && IndexOfDot(s) == (if fraction.None? then |s| else 19)
    requires fraction.Some? ==> |s| > 19 && s[20..] == fraction.value && AllDigits(fraction.value)
    ensures FractionOf(s) == FractionValue(fraction)
  {
    if fraction.Some? && fraction.value != "" {
      StoiDigits(fraction.value);
    }
  }

  /** ss >> std::get_time(&tm, ...) on a printed date. */
  method ReadTm(text: string, ghost t: DateTime) returns (tm: Tm)
    requires Valid(t) && t.year < 10000 && text == PrintDate(t)
    ensures tm == AsTm(t)
  {
    PrintedDateReads(t);
    tm := GetTime(text);
  }

  /** std::mktime(&tm) on the fields of a valid date. */
  method ToSeconds(tm: Tm, zone: int, ghost t: DateTime) returns (tt: int)
    requires Valid(t) && tm == AsTm(t)
    ensures tt == EpochSeconds(t) - zone
  {
    MkTimeIsEpoch(t, zone);
    tt := MkTime(tm, zone);
  }

  method AddFraction(tt: int, fraction: Option<Result<int, StoiError>>) returns (r: Result<nat, StoiError>)
    ensures r == Combined(tt, fraction)
  {
    var tp := tt * 1000000;
    if fraction.Some? {
      if fraction.value.Err? {
        return Err(fraction.value.error);
      }
      tp := tp + fraction.value.value;
    }
    return Ok(Uint64(tp));
  }

  lemma StampParts(s: string, t: DateTime, fraction: Option<string>)
    requires Printable(t, fraction) && s == PrintStamp(t, fraction)
    ensures |s| >= 19 && s[..19] == PrintDate(t) && FractionOf(s) == FractionValue(fraction)
  {
    PrintedStampSplits(t, fraction);
    FractionReads(s, fraction);
  }

  /** The date part: the first 19 characters, as seconds since the Epoch. */
  method ReadSeconds(s: string, zone: int, ghost t: DateTime, ghost fraction: Option<string>) returns (tt: int)
    requires Printable(t, fraction) && s == PrintStamp(t, fraction)
    ensures tt == EpochSeconds(t) - zone
  {
    StampParts(s, t, fraction);
    var tm := ReadTm(s[..19], t);
    tt := ToSeconds(tm, zone, t);
  }

  /** The part after the first point, if there is one. */
  method ReadFraction(s: string, ghost t: DateTime, ghost fraction: Option<string>)
    returns (micros: Option<Result<int, StoiError>>)
    requires Printable(t, fraction) && s == PrintStamp(t, fraction)
    ensures micros == FractionValue(fraction)
  {
    StampParts(s, t, fraction);
    var dot := IndexOfDot(s);
    micros := if dot < |s| then Some(Stoi(s[dot + 1..])) else None;
  }

  // ------------------------------------------------------------ what the stamp means

  /** No zone is further than a day from UTC. */
  predicate Offset(zone: int) {
    -86400 <= zone <= 86400
  }

  /** us microseconds are the given seconds and fraction of a second: d digits with value v stand
      for v / 10^d seconds. */
  predicate Denotes(us: int, seconds: int, fraction: Option<string>)
    requires fraction.Some? ==> AllDigits(fraction.value)
  {
    match fraction
    case None => us == seconds * 1000000
    case Some(digits) => us * Pow10(|digits|) == (seconds * Pow10(|digits|) + Value(digits)) * 1000000
  }

  /** The fraction is missing, zero or one of six digits. */
  predicate InMicroseconds(fraction: Option<string>)
    requires fraction.Some? ==> AllDigits(fraction.value)
  {
    fraction.Some? ==> fraction.value != "" && (|fraction.value| == 6 || Value(fraction.value) == 0)
  }

  /** What r is of a stamp: an error exactly for a fraction without digits or beyond int, and in
      any real zone the time that the stamp denotes exactly when that time is not before the Epoch
      and the fraction is one of microseconds. */
  predicate ReadsRight(r: Result<nat, StoiError>, t: DateTime, fraction: Option<string>, zone: int)
    requires Printable(t, fraction)
  {
    && (r == Err(InvalidArgument) <==> fraction == Some(""))
    && (r == Err(OutOfRange) <==> fraction.Some? && Value(fraction.value) > INT_MAX)
    && (Offset(zone) ==>
          (r.Ok? && Denotes(r.value, EpochSeconds(t) - zone, fraction) <==>
           zone <= EpochSeconds(t) && InMicroseconds(fraction)))
  }

  lemma {:induction false} YearBound(year: nat)
    requires year >= 1970
    ensures DaysToYear(year) <= (year - 1970) * 366
  {
    if year > 1970 {
      YearBound(year - 1);
    }
  }

  /** The year 10000 is still far from the end of 64 bits. */
  lemma EpochBound(t: DateTime)
    requires Valid(t) && t.year < 10000
    ensures EpochSeconds(t) < 300_000_000_000
  {
    YearBound(t.year);
    DayInYear(t);
  }

  /** Microseconds within range are not changed by the conversion; negative ones are. */
  lemma Unwrapped(seconds: int, micros: nat)
    requires -86400 <= seconds < 300_001_000_000 && micros <= INT_MAX
    ensures seconds >= 0 ==> Uint64(seconds * 1000000 + micros) == seconds * 1000000 + micros
    ensures seconds < 0 && micros < 1000000 ==>
              Uint64(seconds * 1000000 + micros) == 0x1_0000_0000_0000_0000 + seconds * 1000000 + micros
  {
    var us := seconds * 1000000 + micros;
    if seconds < 0 && micros < 1000000 {
      assert (us + 0x1_0000_0000_0000_0000) % 0x1_0000_0000_0000_0000 == us % 0x1_0000_0000_0000_0000;
    }
  }

  lemma FractionFits(digits: string)
    requires AllDigits(digits) && |digits| == 6
    ensures Value(digits) < 1000000
  {
    ValueBound(digits);
    SixDigits();
  }

  lemma SixDigits()
    ensures Pow10(6) == 1000000
  {
    assert Pow10(3) == 1000;
  }

  /** v microseconds are v / p seconds exactly when there are a million to a second or none. */
  lemma ExactFraction(seconds: int, v: nat, p: nat)
    ensures (seconds * 1000000 + v) * p == (seconds * p + v) * 1000000 <==> p == 1000000 || v == 0
  {
    assert (seconds * 1000000 + v) * p == seconds * 1000000 * p + v * p;
    assert (seconds * p + v) * 1000000 == seconds * 1000000 * p + v * 1000000;
    if v != 0 {
      Cancel(v, 1000000, p);
    }
  }

  /** Times before the Epoch are not denoted by any natural number. */
  lemma BeforeEpoch(us: nat, seconds: int, fraction: Option<string>)
    requires seconds < 0 && (fraction.Some? ==> AllDigits(fraction.value))
    ensures !Denotes(us, seconds, fraction)
  {
    if fraction.Some? {
      var p := Pow10(|fraction.value|);
      ValueBound(fraction.value);
      Product(us, p);
      Product(-1 - seconds, p);
      assert seconds * p + p == -((-1 - seconds) * p);
    }
  }

  lemma Product(a: nat, b: nat)
    ensures a * b >= 0
  {
  }

  lemma FractionExactIff(seconds: nat, digits: string)
    requires digits != "" && AllDigits(digits) && Value(digits) <= INT_MAX
    ensures Denotes(seconds * 1000000 + Value(digits), seconds, Some(digits)) <==>
              |digits| == 6 || Value(digits) == 0
  {
    PowersDiffer(|digits|);
    ExactFraction(seconds, Value(digits), Pow10(|digits|));
  }

  /** The parse result is the time that the stamp denotes, in microseconds, exactly when that is
      not before the Epoch (east of UTC the first hours of 1970 are) and the fraction, if there
      is one, has six digits or is zero. */
  lemma StampExactIff(t: DateTime, fraction: Option<string>, zone: int)
    requires Printable(t, fraction) && Offset(zone)
    ensures var r := ParsedStamp(t, fraction, zone);
            r.Ok? && Denotes(r.value, EpochSeconds(t) - zone, fraction) <==>
            zone <= EpochSeconds(t) && InMicroseconds(fraction)
  {
    var seconds, r := EpochSeconds(t) - zone, ParsedStamp(t, fraction, zone);
    EpochBound(t);
    if r.Ok? && seconds < 0 {
      BeforeEpoch(r.value, seconds, fraction);
    } else if r.Ok? && fraction.None? {
      Unwrapped(seconds, 0);
    } else if r.Ok? {
      Unwrapped(seconds, Value(fraction.value));
      FractionExactIff(seconds, fraction.value);
    } else if |fraction.value| == 6 {
      FractionFits(fraction.value);
    }
  }

  lemma ParsedStampMeans(t: DateTime, fraction: Option<string>, zone: int)
    requires Printable(t, fraction)
    ensures ReadsRight(ParsedStamp(t, fraction, zone), t, fraction, zone)
  {
    if Offset(zone) {
      StampExactIff(t, fraction, zone);
    }
  }

  /** Reads the printed stamp of t and fraction in a zone of fixed offset; it throws when
      std::stoi does on the fraction. */
  method ParseTimestamp(s: string, zone: int, ghost t: DateTime, ghost fraction: Option<string>)
    returns (r: Result<nat, StoiError>)
    requires Printable(t, fraction) && s == PrintStamp(t, fraction)
    ensures r == ParsedStamp(t, fraction, zone) && ReadsRight(r, t, fraction, zone)
  {
    var tt := ReadSeconds(s, zone, t, fraction);
    var micros := ReadFraction(s, t, fraction);
    r := AddFraction(tt, micros);
    ParsedStampMeans(t, fraction, zone);
  }

  /** The microseconds of a stamp. */
  function Micros(fraction: Option<string>): nat
    requires fraction.Some? ==> AllDigits(fraction.value)
  {
    if fraction.None? then 0 else Value(fraction.value)
  }

  /** us microseconds after the Epoch, in the zone, it is t and that many microseconds. */
  predicate ReadsAs(us: nat, zone: int, t: DateTime, micros: nat) {
    us / 1000000 + zone >= 0 && FromEpoch(us / 1000000 + zone) == t && us % 1000000 == micros
  }

  /** With no fraction or with six digits, dividing the parse result out gives date, time and
      microseconds back, exactly when the stamp is not before the Epoch. */
  lemma StampMeans(t: DateTime, fraction: Option<string>, zone: int)
    requires Printable(t, fraction) && Offset(zone) && InMicroseconds(fraction)
    ensures var r := ParsedStamp(t, fraction, zone);
            r.Ok? && (ReadsAs(r.value, zone, t, Micros(fraction)) <==> zone <= EpochSeconds(t))
  {
    if fraction.Some? && |fraction.value| == 6 {
      FractionFits(fraction.value);
    }
    EpochBound(t);
    Unwrapped(EpochSeconds(t) - zone, Micros(fraction));
    ReadBack(t, zone, Micros(fraction));
  }

  /** The microseconds since the Epoch, wrapped around if negative, read back. */
  lemma ReadBack(t: DateTime, zone: int, micros: nat)
    requires Valid(t) && EpochSeconds(t) < 300_000_000_000 && Offset(zone) && micros < 1000000
    ensures var us := (EpochSeconds(t) - zone) * 1000000 + micros;
            && (zone <= EpochSeconds(t) ==> ReadsAs(us, zone, t, micros))
            && (zone > EpochSeconds(t) ==> !ReadsAs(0x1_0000_0000_0000_0000 + us, zone, t, micros))
  {
    if zone <= EpochSeconds(t) {
      MicrosSplit(EpochSeconds(t) - zone, micros);
      FromEpochInverts(t);
    }
  }

  lemma MicrosSplit(seconds: nat, micros: nat)
    requires micros < 1000000
    ensures (seconds * 1000000 + micros) / 1000000 == seconds && (seconds * 1000000 + micros) % 1000000 == micros
  {
  }

  lemma Cancel(v: nat, a: nat, b: nat)
    requires v != 0
    ensures v * a == v * b <==> a == b
  {
    if a < b {
      assert v * b == v * a + v * (b - a) && v * (b - a) > 0;
    } else if b < a {
      assert v * a == v * b + v * (a - b) && v * (a - b) > 0;
    }
  }

  lemma PowersDiffer(d: nat)
    ensures Pow10(d) == 1000000 <==> d == 6
  {
    SixDigits();
    if d < 6 {
      PowersGrow(d, 6);
    } else if d > 6 {
      PowersGrow(6, d);
    }
  }

  lemma {:induction false} PowersGrow(a: nat, b: nat)
    requires a < b
    ensures Pow10(a) < Pow10(b)
  {
    if b > a + 1 {
      PowersGrow(a, b - 1);
    }
  }

  // ------------------------------------------------------------ two stamps that go wrong

  const EPOCH := DateTime(1970, 1, 1, 0, 0, 0)

  lemma PaddedStep(n: nat, digit: nat, width: nat)
    requires digit < 10 && n < Pow10(width)
    ensures Padded(n * 10 + digit, width + 1) == Padded(n, width) + [DigitChar(digit)]
  {
    assert (n * 10 + digit) / 10 == n && (n * 10 + digit) % 10 == digit;
  }

  lemma Digits1970()
    ensures Padded(1970, 4) == "1970" && Padded(0, 2) == "00" && Padded(1, 2) == "01"
  {
    assert Pow10(2) == 100 && Pow10(3) == 1000;
    PaddedStep(0, 0, 0);
    PaddedStep(0, 0, 1);
    PaddedStep(0, 1, 0);
    PaddedStep(0, 1, 1);
    PaddedStep(1, 9, 1);
    PaddedStep(19, 7, 2);
    PaddedStep(197, 0, 3);
  }

  lemma EpochLiteral()
    ensures "1970" + "-" + "01" + "-" + "01" + " " + "00" + ":" + "00" + ":" + "00" == "1970-01-01 00:00:00"
  {
  }

  /** The first second of 1970, as printed. */
  lemma EpochText()
    ensures Valid(EPOCH) && PrintDate(EPOCH) == "1970-01-01 00:00:00"
  {
    Digits1970();
    EpochLiteral();
  }

  lemma EpochIsZero()
    ensures Valid(EPOCH) && EpochSeconds(EPOCH) == 0
  {
  }

  lemma OnlyEpochIsZero(t: DateTime)
    requires Valid(t) && EpochSeconds(t) == 0
    ensures t == EPOCH
  {
    EpochIsZero();
    EpochSecondsInjective(t, EPOCH);
  }

  /** A stamp before the Epoch wraps around. */
  lemma BeforeEpochWraps(t: DateTime, zone: int)
    requires Valid(t) && t.year < 10000 && EpochSeconds(t) < zone <= 86400
    ensures ParsedStamp(t, None, zone) == Ok(0x1_0000_0000_0000_0000 - (zone - EpochSeconds(t)) * 1000000)
  {
    Unwrapped(EpochSeconds(t) - zone, 0);
  }

  /** One hour east of UTC the first second of 1970 (see OnlyEpochIsZero and EpochText) is before the
      Epoch, and becomes a time some 584,000 years later. */
  lemma EastOfUtcWraps(t: DateTime)
    requires Valid(t) && t.year < 10000 && EpochSeconds(t) == 0
    ensures ParsedStamp(t, None, 3600) == Ok(0x1_0000_0000_0000_0000 - 3_600_000_000)
  {
    BeforeEpochWraps(t, 3600);
  }

  /** The last second of a leap day, and its number. */
  lemma LeapDayNumber(t: DateTime)
    requires t == DateTime(2024, 2, 29, 23, 59, 59)
    ensures Valid(t) && EpochSeconds(t) == 1709251199
  {
    LeapDays(2024);
    MonthStarts(2024);
  }

  /** 2000 was a leap year. */
  lemma Year2000Number(t: DateTime)
    requires t == DateTime(2000, 3, 1, 0, 0, 0)
    ensures Valid(t) && EpochSeconds(t) == 951868800
  {
    LeapDays(2000);
    MonthStarts(2000);
  }

  /** 2100 will be none. */
  lemma Year2100Number(t: DateTime)
    requires t == DateTime(2100, 3, 1, 0, 0, 0)
    ensures Valid(t) && EpochSeconds(t) == 4107542400
  {
    LeapDays(2100);
    MonthStarts(2100);
  }

  lemma FiveHundred()
    ensures AllDigits("500") && Value("500") == 500 && Pow10(3) == 1000
  {
    assert "500"[..2] == "50" && "50"[..1] == "5" && "5"[..0] == "";
    assert Value("5") == 5 && Value("50") == 50;
  }

  lemma Misread(t: DateTime, digits: string, zone: int)
    requires Valid(t) && t.year < 10000 && Offset(zone) && zone <= EpochSeconds(t)
    requires AllDigits(digits) && |digits| == 3 && Value(digits) == 500
    ensures var seconds := EpochSeconds(t) - zone;
            && ParsedStamp(t, Some(digits), zone) == Ok(seconds * 1000000 + 500)
            && Denotes(seconds * 1000000 + 500000, seconds, Some(digits))
  {
    FiveHundred();
    EpochBound(t);
    Unwrapped(EpochSeconds(t) - zone, 500);
  }

  /** Milliseconds are the everyday case: ".500" after any date is read as 500 microseconds where
      it denotes 500000. */
  lemma MillisecondsAreMisread(t: DateTime, zone: int)
    requires Valid(t) && t.year < 10000 && Offset(zone) && zone <= EpochSeconds(t)
    ensures Printable(t, Some("500")) && PrintStamp(t, Some("500")) == PrintDate(t) + ".500"
    ensures var seconds := EpochSeconds(t) - zone;
            && ParsedStamp(t, Some("500"), zone) == Ok(seconds * 1000000 + 500)
            && Denotes(seconds * 1000000 + 500000, seconds, Some("500"))
  {
    FiveHundred();
    Misread(t, "500", zone);
    assert "." + "500" == ".500";
  }
}
