/** `julian(year, month, day)` of src/PrayTimes.js: the Julian day number at
    0h UT of a Gregorian calendar date, by the algorithm of chapter 7 of
    Meeus, Astronomical Algorithms. The two `Math.floor` terms of the source,
    `floor(365.25 * n)` and `floor(30.6001 * n)`, are exact integer divisions
    here: `(1461 * n) / 4` and `(306001 * n) / 10000` (Dafny's `/` on `int`
    rounds towards minus infinity for a positive divisor, as `Math.floor` does). */
module Calendar {
  import opened DMath

  /** January and February count as months 13 and 14 of the previous year. */
  function ShiftedYear(year: int, month: int): int
  {
    if month <= 2 then year - 1 else year
  }

  function ShiftedMonth(month: int): int
  {
    if month <= 2 then month + 12 else month
  }

  /** The Gregorian century correction `B = 2 - A + floor(A / 4)`, `A = floor(y / 100)`. */
  function CenturyCorrection(y: int): int
  {
    var a := y / 100;
    2 - a + a / 4
  }

  /** `julian(year, month, day)`. The result is always a whole number plus one
      half: a Julian day starts at noon, so midnight falls on the half. */
  function Julian(year: int, month: int, day: int): (jd: real)
    ensures IsIntegral(jd - 0.5)
  {
    var whole := DayCount(year, month, day);
    assert whole as real - 1524.5 - 0.5 == (whole - 1525) as real;
    whole as real - 1524.5
  }

  /** The whole-day terms of `julian`: the year term, the month term, the
      day and the century correction, all with integer division. */
  function DayCount(year: int, month: int, day: int): int
  {
    var y := ShiftedYear(year, month);
    var m := ShiftedMonth(month);
    (1461 * (y + 4716)) / 4 + (306001 * (m + 1)) / 10000 + day + CenturyCorrection(y)
  }

  /** Leap years of the Gregorian calendar. */
  predicate IsLeap(year: int)
  {
    year % 4 == 0 && (year % 100 != 0 || year % 400 == 0)
  }

  function DaysInMonth(year: int, month: int): (n: int)
    requires 1 <= month <= 12
    ensures 28 <= n <= 31
  {
    if month == 2 then (if IsLeap(year) then 29 else 28)
    else if month == 4 || month == 6 || month == 9 || month == 11 then 30
    else 31
  }

  predicate ValidDate(year: int, month: int, day: int)
  {
    1 <= month <= 12 && 1 <= day <= DaysInMonth(year, month)
  }

  datatype Date = Date(year: int, month: int, day: int)

  /** The calendar date that follows a valid date. */
  function NextDate(year: int, month: int, day: int): (d: Date)
    requires ValidDate(year, month, day)
    ensures ValidDate(d.year, d.month, d.day)
  {
    if day < DaysInMonth(year, month) then Date(year, month, day + 1)
    else if month < 12 then Date(year, month + 1, 1)
    else Date(year + 1, 1, 1)
  }

  /** `floor(365.25 * n) = 365 * n + floor(n / 4)`. */
  lemma QuarterDays(n: int)
    ensures (1461 * n) / 4 == 365 * n + n / 4
  {
    var q, r := n / 4, n % 4;
    assert n == 4 * q + r && 0 <= r < 4;
    assert 1461 * n == 4 * (365 * n + q) + r;
  }

  /** The year part of the formula grows by 365 days plus the Gregorian leap
      day from year `y - 1` to year `y`. */
  lemma YearLength(y: int)
    ensures (1461 * (y + 4716)) / 4 + CenturyCorrection(y)
         == (1461 * (y - 1 + 4716)) / 4 + CenturyCorrection(y - 1) + (if IsLeap(y) then 366 else 365)
  {
    YearTermStep(y);
    CenturyStep(y);
    LeapDay(y);
  }

  /** The year term of the formula grows by 365 days, plus one when 4
      divides the year. */
  lemma YearTermStep(y: int)
    ensures (1461 * (y + 4716)) / 4 - (1461 * (y - 1 + 4716)) / 4 == 365 + (if y % 4 == 0 then 1 else 0)
  {
    var n := y + 4716;
    assert y - 1 + 4716 == n - 1;
    QuarterDays(n);
    QuarterDays(n - 1);
    QuarterStep(n);
    assert n % 4 == y % 4;
  }

  /** The three divisibility terms add up to the Gregorian leap day. */
  lemma LeapDay(y: int)
    ensures (if y % 4 == 0 then 1 else 0) + (if y % 100 == 0 then -1 else 0) + (if y % 400 == 0 then 1 else 0)
         == if IsLeap(y) then 1 else 0
  {
    if y % 100 == 0 {
      assert y == 4 * (25 * (y / 100));
    }
    if y % 400 == 0 {
      assert y == 100 * (4 * (y / 400));
    }
  }

  /** `n / 4` drops by one from `n` to `n - 1` exactly when 4 divides `n`. */
  lemma QuarterStep(n: int)
    ensures n / 4 - (n - 1) / 4 == if n % 4 == 0 then 1 else 0
  {
  }

  /** `n / 100` drops by one from `n` to `n - 1` exactly when 100 divides `n`. */
  lemma HundredStep(n: int)
    ensures n / 100 - (n - 1) / 100 == if n % 100 == 0 then 1 else 0
  {
  }

  /** The century correction changes from `y - 1` to `y` only at a century:
      it loses a day there, and wins it back every fourth century. */
  lemma CenturyStep(y: int)
    ensures CenturyCorrection(y) - CenturyCorrection(y - 1)
         == (if y % 100 == 0 then -1 else 0) + (if y % 400 == 0 then 1 else 0)
  {
    var a, a' := y / 100, (y - 1) / 100;
    HundredStep(y);
    if y % 100 == 0 {
      assert y == 100 * a;
      assert a' == a - 1;
      QuarterStep(a);
      assert (y % 400 == 0) == (a % 4 == 0);
    } else {
      assert a' == a;
      assert y % 400 != 0;
    }
  }


  /** Consecutive calendar dates have consecutive Julian day numbers: within a
      month, across the end of every month (with February's length decided by
      the Gregorian leap rule) and across the end of the year. */
  lemma JulianNextDate(year: int, month: int, day: int)
    requires ValidDate(year, month, day)
    ensures var d := NextDate(year, month, day); Julian(d.year, d.month, d.day) == Julian(year, month, day) + 1.0
  {
    var d := NextDate(year, month, day);
    DayCountNext(year, month, day);
    assert DayCount(d.year, d.month, d.day) == DayCount(year, month, day) + 1;
  }

  /** The day count of the next date is one more. */
  lemma DayCountNext(year: int, month: int, day: int)
    requires ValidDate(year, month, day)
    ensures var d := NextDate(year, month, day); DayCount(d.year, d.month, d.day) == DayCount(year, month, day) + 1
  {
    if day == DaysInMonth(year, month) {
      if month == 2 {
        YearLength(year);
      } else {
        MonthTermStep(ShiftedMonth(month));
      }
    }
  }

  /** From the first day of one shifted month (March = 3, ..., January = 13)
      to the first day of the next, the month term of `julian` grows by the
      length of that month. */
  lemma MonthTermStep(m: int)
    requires 3 <= m <= 13
    ensures (306001 * (m + 2)) / 10000 - (306001 * (m + 1)) / 10000 == DaysInMonth(0, if m == 13 then 1 else m)
  {
    if m == 3 {
      assert (306001 * 5) / 10000 - (306001 * 4) / 10000 == 153 - 122;
    } else if m == 4 {
      assert (306001 * 6) / 10000 - (306001 * 5) / 10000 == 183 - 153;
    } else if m == 5 {
      assert (306001 * 7) / 10000 - (306001 * 6) / 10000 == 214 - 183;
    } else if m == 6 {
      assert (306001 * 8) / 10000 - (306001 * 7) / 10000 == 244 - 214;
    } else if m == 7 {
      assert (306001 * 9) / 10000 - (306001 * 8) / 10000 == 275 - 244;
    } else if m == 8 {
      assert (306001 * 10) / 10000 - (306001 * 9) / 10000 == 306 - 275;
    } else if m == 9 {
      assert (306001 * 11) / 10000 - (306001 * 10) / 10000 == 336 - 306;
    } else if m == 10 {
      assert (306001 * 12) / 10000 - (306001 * 11) / 10000 == 367 - 336;
    } else if m == 11 {
      assert (306001 * 13) / 10000 - (306001 * 12) / 10000 == 397 - 367;
    } else if m == 12 {
      assert (306001 * 14) / 10000 - (306001 * 13) / 10000 == 428 - 397;
    } else {
      assert (306001 * 15) / 10000 - (306001 * 14) / 10000 == 459 - 428;
    }
  }

  /** January and February are computed as months 13 and 14 of the year before. */
  lemma JanuaryFebruaryShift(year: int, month: int, day: int)
    requires 1 <= month <= 2
    ensures Julian(year, month, day) == Julian(year - 1, month + 12, day)
  {
  }

  /** 1 January 2000 at 0h is Julian day 2451544.5, half a day before the
      J2000.0 epoch 2451545.0 that the solar position is measured from. */
  lemma J2000()
    ensures Julian(2000, 1, 1) == 2451544.5
  {
  }
}
