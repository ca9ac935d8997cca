/** src/cdf/utils/time_utils.cpp: UTC time to local time by carrying hours into days, months and years, compared with
    plain addition on a count of seconds. */
module LocalTime {
  import opened Bytes

  datatype Time = Time(year: int, month: int, day: int, hour: int, min: int, sec: int)

  predicate Leap(y: int) {
    y % 400 == 0 || (y % 4 == 0 && y % 100 != 0)
  }

  function DaysInMonth(y: int, m: int): int {
    if m == 2 then (if Leap(y) then 29 else 28)
    else if m == 4 || m == 6 || m == 9 || m == 11 then 30
    else 31
  }

  predicate Valid(t: Time) {
    && 1 <= t.month <= 12 && 1 <= t.day <= DaysInMonth(t.year, t.month)
    && 0 <= t.hour < 24 && 0 <= t.min < 60 && 0 <= t.sec < 60
  }

  // ----- The count of days and seconds -----

  function DaysBeforeYear(y: int): int {
    365 * y + (y - 1) / 4 - (y - 1) / 100 + (y - 1) / 400
  }

  function DaysBeforeMonth(y: int, m: int): (n: int)
    decreases m
  {
    if m <= 1 then 0 else DaysBeforeMonth(y, m - 1) + DaysInMonth(y, m - 1)
  }

  function DayNumber(y: int, m: int, d: int): int {
    DaysBeforeYear(y) + DaysBeforeMonth(y, m) + d
  }

  /** Seconds since a fixed origin. */
  function Instant(t: Time): int {
    ((DayNumber(t.year, t.month, t.day) * 24 + t.hour) * 60 + t.min) * 60 + t.sec
  }

  lemma LeapSteps(y: int)
    ensures y / 4 == (y - 1) / 4 + (if y % 4 == 0 then 1 else 0)
    ensures y / 100 == (y - 1) / 100 + (if y % 100 == 0 then 1 else 0)
    ensures y / 400 == (y - 1) / 400 + (if y % 400 == 0 then 1 else 0)
    ensures (y % 400 == 0 ==> y % 100 == 0) && (y % 100 == 0 ==> y % 4 == 0)
  {
  }

  lemma YearLength(y: int)
    ensures DaysBeforeYear(y + 1) == DaysBeforeYear(y) + (if Leap(y) then 366 else 365)
    ensures DaysBeforeMonth(y, 13) == (if Leap(y) then 366 else 365)
  {
    LeapSteps(y);
    assert DaysBeforeMonth(y, 3) == 31 + DaysInMonth(y, 2);
    assert DaysBeforeMonth(y, 6) == DaysBeforeMonth(y, 3) + 92;
    assert DaysBeforeMonth(y, 9) == DaysBeforeMonth(y, 6) + 92;
    assert DaysBeforeMonth(y, 11) == DaysBeforeMonth(y, 9) + 61;
    assert DaysBeforeMonth(y, 13) == DaysBeforeMonth(y, 11) + 61;
  }

  function NextMonth(y: int, m: int): (int, int) {
    if m == 12 then (y + 1, 1) else (y, m + 1)
  }

  function PrevMonth(y: int, m: int): (int, int) {
    if m == 1 then (y - 1, 12) else (y, m - 1)
  }

  /** Day d of the next month is DaysInMonth + d of this one. */
  lemma MonthCarry(y: int, m: int, d: int)
    requires 1 <= m <= 12
    ensures var (y', m') := NextMonth(y, m); DayNumber(y', m', d) == DayNumber(y, m, d + DaysInMonth(y, m))
  {
    if m == 12 {
      YearLength(y);
      assert DaysBeforeMonth(y, 13) == DaysBeforeMonth(y, 12) + 31;
      assert DaysBeforeMonth(y + 1, 1) == 0;
    }
  }

  // ----- Instants name times uniquely -----

  lemma {:induction false} MonthsBefore(y: int, m: int, k: int)
    requires 1 <= m < k <= 13
    ensures DaysBeforeMonth(y, m) + DaysInMonth(y, m) <= DaysBeforeMonth(y, k)
    decreases k
  {
    if k <= m + 1 {
    } else {
      MonthsBefore(y, m, k - 1);
    }
  }

  lemma {:induction false} YearsBefore(y: int, z: int)
    requires y < z
    ensures DaysBeforeYear(y) + DaysBeforeMonth(y, 13) <= DaysBeforeYear(z)
    decreases z - y
  {
    YearLength(y);
    if y + 1 < z {
      YearsBefore(y + 1, z);
      YearLength(y + 1);
    }
  }

  predicate DateBefore(a: Time, b: Time) {
    a.year < b.year || (a.year == b.year && (a.month < b.month || (a.month == b.month && a.day < b.day)))
  }

  lemma DayNumberMonotone(a: Time, b: Time)
    requires Valid(a) && Valid(b) && DateBefore(a, b)
    ensures DayNumber(a.year, a.month, a.day) < DayNumber(b.year, b.month, b.day)
  {
    hide DaysBeforeMonth, DaysBeforeYear, DaysInMonth;
    assert DaysBeforeMonth(b.year, b.month) >= 0 by { MonthsNonNegative(b.year, b.month); }
    if a.year < b.year {
      YearsBefore(a.year, b.year);
      MonthsBefore(a.year, a.month, 13);
    } else if a.month < b.month {
      MonthsBefore(a.year, a.month, b.month);
    }
  }

  lemma {:induction false} MonthsNonNegative(y: int, m: int)
    ensures DaysBeforeMonth(y, m) >= 0
    decreases m
  {
    if m <= 1 {
    } else {
      MonthsNonNegative(y, m - 1);
    }
  }

  /** Two valid times with the same instant are the same time: an instant determines the calendar fields. */
  lemma InstantInjective(a: Time, b: Time)
    requires Valid(a) && Valid(b) && Instant(a) == Instant(b)
    ensures a == b
  {
    hide DayNumber;
    var da, db := DayNumber(a.year, a.month, a.day), DayNumber(b.year, b.month, b.day);
    assert da == db && a.hour == b.hour && a.min == b.min && a.sec == b.sec by { FieldsUnique(a, b, da, db); }
    if DateBefore(a, b) {
      DayNumberMonotone(a, b);
    } else if DateBefore(b, a) {
      DayNumberMonotone(b, a);
    }
  }

  lemma FieldsUnique(a: Time, b: Time, da: int, db: int)
    requires Valid(a) && Valid(b)
    requires ((da * 24 + a.hour) * 60 + a.min) * 60 + a.sec == ((db * 24 + b.hour) * 60 + b.min) * 60 + b.sec
    ensures da == db && a.hour == b.hour && a.min == b.min && a.sec == b.sec
  {
    assert (da * 24 + a.hour) * 60 + a.min == (db * 24 + b.hour) * 60 + b.min;
    assert da * 24 + a.hour == db * 24 + b.hour;
  }

  // ----- The conversion -----

  /** GetTimeZone: the local hour of the epoch, read as an offset; -11 to 12. */
  function TimeZone(tmHour: int): int {
    if tmHour > 12 then tmHour - 24 else tmHour
  }

  /** Months for which ParseDayAmount sets the length of the month before. */
  predicate KnowsLastMonth(month: int) {
    month == 2 || month == 3 || month == 4 || month == 6 || month == 8 || month == 9 || month == 11
  }

  /** The carry, given the length of this month and what is held for the length of the last one. */
  function Shift(t: Time, zone: int, lastDay: int, lastLastDay: int): Time {
    var h := t.hour + zone;
    if h >= 24 then
      if t.day + 1 > lastDay then
        var t' := t.(hour := h - 24, day := t.day + 1 - lastDay);
        if t.month + 1 > 12 then t'.(month := t.month + 1 - 12, year := t.year + 1) else t'.(month := t.month + 1)
      else t.(hour := h - 24, day := t.day + 1)
    else if h < 0 then
      if t.day - 1 < 1 then
        var t' := t.(hour := h + 24, day := lastLastDay);
        if t.month - 1 < 1 then t'.(month := 12, year := t.year - 1) else t'.(month := t.month - 1)
      else t.(hour := h + 24, day := t.day - 1)
    else t.(hour := h)
  }

  /** The result is the local time: a valid time, zone hours later on the count of seconds. */
  predicate IsLocal(t: Time, zone: int, r: Time) {
    Valid(r) && Instant(r) == Instant(t) + zone * 3600
  }

  /** Offsets that do not go back over the start of a month: always the local time. */
  lemma ShiftForward(t: Time, zone: int, lastLastDay: int)
    requires Valid(t) && -24 < zone < 24
    requires t.hour + zone >= 0 || t.day > 1
    ensures IsLocal(t, zone, Shift(t, zone, DaysInMonth(t.year, t.month), lastLastDay))
  {
    hide DaysBeforeMonth, DaysBeforeYear;
    MonthCarry(t.year, t.month, 1);
    var r := Shift(t, zone, DaysInMonth(t.year, t.month), lastLastDay);
    if t.hour + zone >= 24 && t.day == DaysInMonth(t.year, t.month) {
      assert r.day == 1 && (r.year, r.month) == NextMonth(t.year, t.month);
    }
  }

  /** The length of the month before. */
  function LengthBefore(t: Time): int {
    var (y, m) := PrevMonth(t.year, t.month);
    DaysInMonth(y, m)
  }

  /** Going back over the start of a month gives the local time exactly when the length held for the last month is
      its length. */
  lemma ShiftBack(t: Time, zone: int, lastLastDay: int)
    requires Valid(t) && -24 < zone < 24
    requires t.hour + zone < 0 && t.day == 1
    ensures IsLocal(t, zone, Shift(t, zone, DaysInMonth(t.year, t.month), lastLastDay))
       <==> lastLastDay == LengthBefore(t)
  {
    hide DaysBeforeMonth, DaysBeforeYear;
    var (y, m) := PrevMonth(t.year, t.month);
    MonthCarry(y, m, 1);
    assert NextMonth(y, m) == (t.year, t.month);
  }

  class UTCTime {
    var year: int
    var month: int
    var day: int
    var hour: int
    var min: int
    var sec: int
    var lastDay: int
    var lastLastDay: int

    function Now(): Time
      reads this
    {
      Time(year, month, day, hour, min, sec)
    }

    /** Sets the length of this month, and of the last one only for the months named by KnowsLastMonth. */
    method ParseDayAmount()
      requires 1 <= month <= 12
      modifies this`lastDay, this`lastLastDay
      ensures lastDay == DaysInMonth(year, month)
      ensures lastLastDay == if KnowsLastMonth(month) then DaysInMonth(year, month - 1) else old(lastLastDay)
    {
      var bMonthFlag := month == 1 || month == 3 || month == 5 || month == 7 || month == 8 || month == 10
                        || month == 12;
      var sMonthFlag := month == 4 || month == 6 || month == 9 || month == 11;
      var bLeapMonth := Leap(year);
      if bMonthFlag {
        lastDay := 31;
        if month == 3 {
          if bLeapMonth {
            lastLastDay := 29;
          } else {
            lastLastDay := 28;
          }
        }
        if month == 8 {
          lastLastDay := 31;
        }
      } else if sMonthFlag {
        lastDay := 30;
        lastLastDay := 31;
      } else {
        lastLastDay := 31;
        if bLeapMonth {
          lastDay := 29;
        } else {
          lastDay := 28;
        }
      }
    }

    method TranseTimeZoneT(tmHour: int)
      requires 0 <= tmHour < 24 && Valid(Now())
      modifies this
      ensures Now() == Shift(old(Now()), TimeZone(tmHour), old(lastDay), old(lastLastDay))
    {
      hour := hour + TimeZone(tmHour);
      if hour >= 24 {
        hour := hour - 24;
        day := day + 1;
        if day > lastDay {
          day := day - lastDay;
          month := month + 1;
          if month > 12 {
            month := month - 12;
            year := year + 1;
          }
        }
      }
      if hour < 0 {
        hour := hour + 24;
        day := day - 1;
        if day < 1 {
          day := lastLastDay;
          month := month - 1;
          if month < 1 {
            month := 12;
            year := year - 1;
          }
        }
      }
    }

    /** UtcTimeToLocal on parsed fields; lastLastDay starts as an uninitialised value. The result is the local time
        unless the step goes back over the start of January, May, July, October or December; there it is the local
        time exactly when the uninitialised value happens to be the length of the month before. */
    method UtcTimeToLocal(tmHour: int)
      requires 0 <= tmHour < 24 && Valid(Now())
      modifies this
      ensures old(hour) + TimeZone(tmHour) >= 0 || old(day) > 1 || old(month) in {2, 3, 4, 6, 8, 9, 11}
           ==> IsLocal(old(Now()), TimeZone(tmHour), Now())
      ensures !(old(hour) + TimeZone(tmHour) >= 0 || old(day) > 1 || old(month) in {2, 3, 4, 6, 8, 9, 11})
           ==> (IsLocal(old(Now()), TimeZone(tmHour), Now()) <==> old(lastLastDay) == LengthBefore(old(Now())))
    {
      ghost var t := Now();
      ParseDayAmount();
      if hour + TimeZone(tmHour) >= 0 || day > 1 {
        ShiftForward(t, TimeZone(tmHour), lastLastDay);
      } else {
        ShiftBack(t, TimeZone(tmHour), lastLastDay);
      }
      TranseTimeZoneT(tmHour);
    }
  }

  /** The uninitialised length of the last month after ParseDayAmount ran on garbage. */
  function LastLength(t: Time, garbage: int): int {
    if KnowsLastMonth(t.month) then DaysInMonth(t.year, t.month - 1) else garbage
  }

  function Converted(t: Time, tmHour: int, garbage: int): Time {
    Shift(t, TimeZone(tmHour), DaysInMonth(t.year, t.month), LastLength(t, garbage))
  }

  ghost predicate RightForZone(t: Time, z: int, tmHour: int) {
    forall g :: IsLocal(t, z, Converted(t, tmHour, g))
  }

  /** Whatever the uninitialised field holds, the conversion is right exactly under the stated condition. */
  lemma RightForEveryGarbage(t: Time, tmHour: int)
    requires Valid(t) && 0 <= tmHour < 24
    ensures RightForZone(t, TimeZone(tmHour), tmHour)
       <==> t.hour + TimeZone(tmHour) >= 0 || t.day > 1 || t.month in {2, 3, 4, 6, 8, 9, 11}
  {
    var zone := TimeZone(tmHour);
    if t.hour + zone >= 0 || t.day > 1 {
      forall g ensures IsLocal(t, zone, Converted(t, tmHour, g)) {
        ShiftForward(t, zone, LastLength(t, g));
      }
    } else {
      forall g ensures IsLocal(t, zone, Converted(t, tmHour, g))
                  <==> LastLength(t, g) == LengthBefore(t) {
        ShiftBack(t, zone, LastLength(t, g));
      }
      assert !KnowsLastMonth(t.month) ==> LastLength(t, 0) != LengthBefore(t);
    }
  }

  // ----- The zone -----

  const EPOCH := Time(1970, 1, 1, 0, 0, 0)

  lemma HourOfEpoch(z: int, local: Time)
    requires IsLocal(EPOCH, z, local)
    ensures local.hour == z % 24
  {
    hide DayNumber;
    var d, e := DayNumber(local.year, local.month, local.day), DayNumber(1970, 1, 1);
    assert ((d * 24 + local.hour) * 60 + local.min) * 60 + local.sec == e * 86400 + z * 3600;
    assert d * 24 + local.hour == e * 24 + z;
  }

  /** In a zone z whole hours ahead of UTC, the offset read off the local hour of the epoch is z if and only if
      -11 <= z <= 12. */
  lemma ZoneGuessedExactly(z: int, local: Time)
    requires IsLocal(EPOCH, z, local)
    ensures TimeZone(local.hour) == z <==> -11 <= z <= 12
  {
    hide IsLocal;
    HourOfEpoch(z, local);
  }

  /** So the conversion gives the local time of the zone, whatever the uninitialised field holds, exactly in these zones
      and under the condition of RightForEveryGarbage. */
  lemma RightInZoneExactly(t: Time, z: int, local: Time)
    requires Valid(t) && IsLocal(EPOCH, z, local)
    ensures RightForZone(t, z, local.hour)
       <==> -11 <= z <= 12 && (t.hour + z >= 0 || t.day > 1 || t.month in {2, 3, 4, 6, 8, 9, 11})
  {
    hide Shift, Instant;
    ZoneGuessedExactly(z, local);
    RightForEveryGarbage(t, local.hour);
    if TimeZone(local.hour) != z {
      GuessIsReached(t, local.hour);
    }
  }

  /** With the right length in the uninitialised field the result is as far from UTC as the guess says. */
  lemma GuessIsReached(t: Time, tmHour: int)
    requires Valid(t) && 0 <= tmHour < 24
    ensures IsLocal(t, TimeZone(tmHour), Converted(t, tmHour, LengthBefore(t)))
  {
    hide Shift;
    var zone := TimeZone(tmHour);
    if t.hour + zone >= 0 || t.day > 1 {
      ShiftForward(t, zone, LastLength(t, LengthBefore(t)));
    } else {
      ShiftBack(t, zone, LastLength(t, LengthBefore(t)));
    }
  }
}
