/** Calendar arithmetic of the bootloader: mktime against the proleptic Gregorian calendar and
    against the formula of section 4.16, "Seconds Since the Epoch", of POSIX.1-2017. */
module Calendar {
  import opened Bits

  /** struct tm: `year` counts from 1900, `month` from 0, `day` from 1. */
  datatype Tm = Tm(year: nat, month: nat, day: nat, hour: nat, minute: nat, second: nat)

  const DAY: nat := 86400
  const EPOCH: nat := 70
  const FIRST_YEAR: nat := 2
  const INT_LIMIT: nat := 0x8000_0000

  // ---------- the calendar ----------

  predicate Leap(year: nat) {
    var y := year + 1900;
    y % 4 == 0 && (y % 100 != 0 || y % 400 == 0)
  }

  function YearLength(year: nat): nat {
    if Leap(year) then 366 else 365
  }

  /** Days from the epoch to the first of January, negative before 1970. */
  function DaysBeforeYear(year: nat): int
    decreases if year >= EPOCH then year - EPOCH else EPOCH - year
  {
    if year == EPOCH then 0
    else if year > EPOCH then DaysBeforeYear(year - 1) + YearLength(year - 1)
    else DaysBeforeYear(year + 1) - YearLength(year)
  }

  function MonthLength(year: nat, month: nat): nat {
    if month == 1 then (if Leap(year) then 29 else 28)
    else if month == 3 || month == 5 || month == 8 || month == 10 then 30
    else 31
  }

  function DaysBeforeMonth(year: nat, month: nat): nat {
    if month == 0 then 0 else DaysBeforeMonth(year, month - 1) + MonthLength(year, month - 1)
  }

  predicate IsDate(t: Tm) {
    && FIRST_YEAR <= t.year < INT_LIMIT && t.month < 12
    && 1 <= t.day <= MonthLength(t.year, t.month)
    && t.hour < 24 && t.minute < 60 && t.second < 60
  }

  function DayNumber(t: Tm): int {
    DaysBeforeYear(t.year) + DaysBeforeMonth(t.year, t.month) + t.day - 1
  }

  /** Seconds since the epoch, by counting days; day 0 is the last of the month before. */
  function Seconds(t: Tm): int {
    DayNumber(t) * DAY + t.hour * 3600 + t.minute * 60 + t.second
  }

  // ---------- the POSIX formula ----------

  /** tm_yday */
  function DayOfYear(t: Tm): int {
    DaysBeforeMonth(t.year, t.month) + t.day - 1
  }

  function PosixSeconds(t: Tm): int {
    t.second + t.minute * 60 + t.hour * 3600 + DayOfYear(t) * DAY
    + (t.year - 70) * 31536000 + ((t.year - 69) / 4) * DAY - ((t.year - 1) / 100) * DAY + ((t.year + 299) / 400) * DAY
  }

  /** The days of the formula. */
  function ClosedForm(year: nat): int {
    365 * (year - 70) + (year - 69) / 4 - (year - 1) / 100 + (year + 299) / 400
  }

  lemma {:induction false} DaysInClosedForm(year: nat)
    ensures DaysBeforeYear(year) == ClosedForm(year)
    decreases if year >= EPOCH then year - EPOCH else EPOCH - year
  {
    hide ClosedForm, YearLength;
    if year == EPOCH {
      ClosedStart();
    } else if year > EPOCH {
      DaysInClosedForm(year - 1);
      ClosedStep(year - 1);
    } else {
      DaysInClosedForm(year + 1);
      ClosedStep(year);
    }
  }

  lemma ClosedStart()
    ensures ClosedForm(EPOCH) == 0
  {
  }

  lemma ClosedStep(y: nat)
    ensures ClosedForm(y + 1) == ClosedForm(y) + YearLength(y)
  {
    LeapSteps(y);
    Multiples(y + 1900);
  }

  lemma Multiples(y: nat)
    ensures y % 400 == 0 ==> y % 100 == 0
    ensures y % 100 == 0 ==> y % 4 == 0
  {
    if y % 400 == 0 {
      RemainderIs(y, 100, 4 * (y / 400), 0);
    }
    if y % 100 == 0 {
      RemainderIs(y, 4, 25 * (y / 100), 0);
    }
  }

  /** A quotient grows by one where the remainder starts again. */
  lemma QuotientStep(x: int, n: nat)
    requires n >= 2
    ensures (x + 1) / n == x / n + if (x + 1) % n == 0 then 1 else 0
  {
    var q, r := x / n, x % n;
    assert x == n * q + r;
    if r + 1 == n {
      RemainderIs(x + 1, n, q + 1, 0);
    } else {
      RemainderIs(x + 1, n, q, r + 1);
    }
  }

  lemma LeapSteps(y: nat)
    ensures (y - 68) / 4 == (y - 69) / 4 + if (y + 1900) % 4 == 0 then 1 else 0
    ensures y / 100 == (y - 1) / 100 + if (y + 1900) % 100 == 0 then 1 else 0
    ensures (y + 300) / 400 == (y + 299) / 400 + if (y + 1900) % 400 == 0 then 1 else 0
  {
    QuotientStep(y - 69, 4);
    QuotientStep(y - 1, 100);
    QuotientStep(y + 299, 400);
    assert (y - 68) % 4 == (y + 1900) % 4;
    assert y % 100 == (y + 1900) % 100;
    assert (y + 300) % 400 == (y + 1900) % 400;
  }

  /** A year after 2000 by its place in the 400-year cycle. */
  ghost predicate InCycle(year: nat, cycles: nat, centuries: nat, fours: nat, rest: nat) {
    && year == 100 + 400 * cycles + 100 * centuries + 4 * fours + rest
    && centuries < 4 && rest < 4 && 4 * fours + rest < 100
  }

  lemma CycleLeap(year: nat, cycles: nat, centuries: nat, fours: nat, rest: nat)
    requires InCycle(year, cycles, centuries, fours, rest)
    ensures Leap(year) <==> rest == 0 && (fours > 0 || centuries == 0)
  {
    var within := 4 * fours + rest;
    RemainderIs(year + 1900, 4, 500 + 100 * cycles + 25 * centuries + fours, rest);
    RemainderIs(year + 1900, 100, 20 + 4 * cycles + centuries, within);
    RemainderIs(year + 1900, 400, 5 + cycles, 100 * centuries + within);
  }

  lemma CycleQuotients(year: nat, cycles: nat, centuries: nat, fours: nat, rest: nat)
    requires InCycle(year, cycles, centuries, fours, rest)
    ensures (year - 69) / 4 == 100 * cycles + 25 * centuries + fours + if rest == 0 then 7 else 8
    ensures (year - 1) / 100 == 4 * cycles + centuries + if fours + rest == 0 then 0 else 1
    ensures (year + 299) / 400 == cycles + if centuries + fours + rest == 0 then 0 else 1
  {
    var within := 4 * fours + rest;
    RemainderIs(year - 69, 4, 100 * cycles + 25 * centuries + fours + (if rest == 0 then 7 else 8), if rest == 0 then 3 else rest - 1);
    RemainderIs(year - 1, 100, 4 * cycles + centuries + (if within == 0 then 0 else 1), if within == 0 then 99 else within - 1);
    RemainderIs(year + 299, 400, cycles + (if 100 * centuries + within == 0 then 0 else 1),
                if 100 * centuries + within == 0 then 399 else 100 * centuries + within - 1);
  }

  lemma CycleDays(year: nat, cycles: nat, centuries: nat, fours: nat, rest: nat)
    requires InCycle(year, cycles, centuries, fours, rest)
    ensures Leap(year) <==> rest == 0 && (fours > 0 || centuries == 0)
    ensures DaysBeforeYear(year) == 365 * (year - 100) + 97 * cycles + 24 * centuries + fours + 10957
      + if Leap(year) then 0 else 1
  {
    hide Leap, DaysBeforeYear;
    DaysInClosedForm(year);
    CycleLeap(year, cycles, centuries, fours, rest);
    CycleQuotients(year, cycles, centuries, fours, rest);
  }

  lemma SecondsArePosix(t: Tm)
    ensures Seconds(t) == PosixSeconds(t)
  {
    DaysInClosedForm(t.year);
  }

  // ---------- mktime ----------

  lemma ShortPath(year: nat)
    requires FIRST_YEAR <= year <= 138
    ensures Leap(year) <==> (year - 68) % 4 == 0
    ensures DaysBeforeYear(year) == 365 * (year - 70) + (year - 68) / 4 - if Leap(year) then 1 else 0
  {
    DaysInClosedForm(year);
    QuotientStep(year - 69, 4);
    ShortCenturies(year);
    RemainderIs(year + 1900, 4, (year - 68) / 4 + 492, (year - 68) % 4);
  }

  /** From 1902 to 2038 only 2000 ends a century, and it is a leap year. */
  lemma ShortCenturies(year: nat)
    requires FIRST_YEAR <= year <= 138
    ensures (year - 1) / 100 == (year + 299) / 400
    ensures (year + 1900) % 100 == 0 ==> (year + 1900) % 400 == 0
  {
    if year <= 99 {
      RemainderIs(year - 1, 100, 0, year - 1);
      RemainderIs(year + 299, 400, 0, year + 299);
      RemainderIs(year + 1900, 100, 19, year);
    } else if year == 100 {
      RemainderIs(year - 1, 100, 0, 99);
      RemainderIs(year + 299, 400, 0, 399);
      RemainderIs(year + 1900, 400, 5, 0);
    } else {
      RemainderIs(year - 1, 100, 1, year - 101);
      RemainderIs(year + 299, 400, 1, year - 101);
      RemainderIs(year + 1900, 100, 20, year - 100);
    }
  }

  /** __year_to_secs: the short path from 1902 to 2038, the 400-year cycles after it. The unsigned
      result stands for the signed number that mktime returns. */
  method YearToSecs(year: nat) returns (secs: int, isLeap: bool)
    requires FIRST_YEAR <= year < 2 * INT_LIMIT
    ensures secs == DaysBeforeYear(year) * DAY && isLeap == Leap(year)
  {
    if year - 2 <= 136 {
      ShortPath(year);
      var leaps := (year - 68) / 4;
      isLeap := (year - 68) % 4 == 0;
      if isLeap {
        leaps := leaps - 1;
      }
      return 31536000 * (year - 70) + 86400 * leaps, isLeap;
    }
    var cycles := (year - 100) / 400;
    var rem := (year - 100) % 400;
    ghost var fours, rest := 0, 0;
    var centuries, leaps := 0, 0;
    if rem == 0 {
      isLeap := true;
    } else {
      if rem >= 200 {
        if rem >= 300 {
          centuries := 3;
          rem := rem - 300;
        } else {
          centuries := 2;
          rem := rem - 200;
        }
      } else if rem >= 100 {
        centuries := 1;
        rem := rem - 100;
      }
      if rem == 0 {
        isLeap := false;
      } else {
        leaps := rem / 4;
        rem := rem % 4;
        fours, rest := leaps, rem;
        isLeap := rem == 0;
      }
    }
    leaps := leaps + 97 * cycles + 24 * centuries - if isLeap then 1 else 0;
    CycleDays(year, cycles, centuries, fours, rest);
    secs := (year - 100) * 31536000 + leaps * 86400 + 946684800 + 86400;
  }

  const SECS_THROUGH_MONTH: seq<nat> :=
    [0, 31 * 86400, 59 * 86400, 90 * 86400, 120 * 86400, 151 * 86400, 181 * 86400, 212 * 86400,
     243 * 86400, 273 * 86400, 304 * 86400, 334 * 86400]

  lemma MonthTable(year: nat, month: nat)
    requires month < 12
    ensures SECS_THROUGH_MONTH[month] + (if Leap(year) && month >= 2 then DAY else 0) == DaysBeforeMonth(year, month) * DAY
    ensures DaysBeforeMonth(year, month) <= 335
  {
    MonthTableStep(year);
  }

  lemma MonthTableStep(year: nat)
    ensures DaysBeforeMonth(year, 1) == 31
    ensures var l := if Leap(year) then 1 else 0;
      && DaysBeforeMonth(year, 2) == 59 + l && DaysBeforeMonth(year, 3) == 90 + l && DaysBeforeMonth(year, 4) == 120 + l
      && DaysBeforeMonth(year, 5) == 151 + l && DaysBeforeMonth(year, 6) == 181 + l && DaysBeforeMonth(year, 7) == 212 + l
      && DaysBeforeMonth(year, 8) == 243 + l && DaysBeforeMonth(year, 9) == 273 + l && DaysBeforeMonth(year, 10) == 304 + l
      && DaysBeforeMonth(year, 11) == 334 + l
  {
    assert DaysBeforeMonth(year, 2) == DaysBeforeMonth(year, 1) + MonthLength(year, 1);
    assert DaysBeforeMonth(year, 3) == DaysBeforeMonth(year, 2) + 31;
    assert DaysBeforeMonth(year, 4) == DaysBeforeMonth(year, 3) + 30;
    assert DaysBeforeMonth(year, 5) == DaysBeforeMonth(year, 4) + 31;
    assert DaysBeforeMonth(year, 6) == DaysBeforeMonth(year, 5) + 30;
    assert DaysBeforeMonth(year, 7) == DaysBeforeMonth(year, 6) + 31;
    assert DaysBeforeMonth(year, 8) == DaysBeforeMonth(year, 7) + 31;
    assert DaysBeforeMonth(year, 9) == DaysBeforeMonth(year, 8) + 30;
    assert DaysBeforeMonth(year, 10) == DaysBeforeMonth(year, 9) + 31;
  }

  /** The same time with a month below 12. */
  function Normal(t: Tm): (n: Tm)
    ensures n.month < 12 && 12 * n.year + n.month == 12 * t.year + t.month
    ensures n.day == t.day && n.hour == t.hour && n.minute == t.minute && n.second == t.second
  {
    Tm(t.year + t.month / 12, t.month % 12, t.day, t.hour, t.minute, t.second)
  }

  /** mktime: the seconds since the epoch, by the calendar and by the POSIX formula. */
  method MkTime(tm: Tm) returns (t: int)
    requires tm.year < INT_LIMIT && tm.month < INT_LIMIT && Normal(tm).year >= FIRST_YEAR
    ensures t == Seconds(Normal(tm)) == PosixSeconds(Normal(tm))
  {
    hide DaysBeforeYear, DaysBeforeMonth, Leap, PosixSeconds;
    var year, month := tm.year, tm.month;
    if month >= 12 {
      year := year + month / 12;
      month := month % 12;
    }
    var isLeap;
    t, isLeap := YearToSecs(year);
    t := t + SECS_THROUGH_MONTH[month];
    if isLeap && month >= 2 {
      t := t + 86400;
    }
    t := t + 86400 * (tm.day - 1);
    t := t + 3600 * tm.hour;
    t := t + 60 * tm.minute;
    t := t + tm.second;
    MonthTable(year, month);
    SecondsArePosix(Normal(tm));
  }

  // ---------- order ----------

  /** Date order: by year, then month, and so on. */
  predicate Earlier(a: Tm, b: Tm) {
    || a.year < b.year
    || (a.year == b.year && a.month < b.month)
    || (a.year == b.year && a.month == b.month && a.day < b.day)
    || (a.year == b.year && a.month == b.month && a.day == b.day
        && a.hour * 3600 + a.minute * 60 + a.second < b.hour * 3600 + b.minute * 60 + b.second)
  }

  lemma YearPasses(year: nat)
    ensures DaysBeforeYear(year) + YearLength(year) == DaysBeforeYear(year + 1)
  {
  }

  lemma {:induction false} YearsPass(a: nat, b: nat)
    requires a < b
    ensures DaysBeforeYear(a) + YearLength(a) <= DaysBeforeYear(b)
    decreases b
  {
    YearPasses(b - 1);
    if a + 1 < b {
      YearsPass(a, b - 1);
    }
  }

  lemma {:induction false} MonthsPass(year: nat, a: nat, b: nat)
    requires a < b
    ensures DaysBeforeMonth(year, a) + MonthLength(year, a) <= DaysBeforeMonth(year, b)
    decreases b
  {
    if a + 1 < b {
      MonthsPass(year, a, b - 1);
    }
  }

  lemma DayInYear(t: Tm)
    requires IsDate(t)
    ensures DayOfYear(t) < YearLength(t.year)
  {
    MonthsPass(t.year, t.month, 12);
    MonthTableStep(t.year);
    assert DaysBeforeMonth(t.year, 12) == DaysBeforeMonth(t.year, 11) + 31;
  }

  /** The later of two dates has the larger time, and the same seconds mean the same date. */
  lemma LaterIsLarger(a: Tm, b: Tm)
    requires IsDate(a) && IsDate(b)
    ensures Earlier(a, b) <==> Seconds(a) < Seconds(b)
  {
    if Earlier(a, b) {
      EarlierIsSmaller(a, b);
    } else if Earlier(b, a) {
      EarlierIsSmaller(b, a);
    }
  }

  lemma EarlierIsSmaller(a: Tm, b: Tm)
    requires IsDate(a) && IsDate(b) && Earlier(a, b)
    ensures Seconds(a) < Seconds(b)
  {
    DayInYear(a);
    if a.year < b.year {
      YearsPass(a.year, b.year);
    } else if a.month < b.month {
      MonthsPass(a.year, a.month, b.month);
    }
  }

  /** A date's seconds fit the 64-bit time_t. */
  lemma SecondsFit(t: Tm)
    requires IsDate(t)
    ensures -0x8000_0000_0000_0000 <= Seconds(t) < 0x8000_0000_0000_0000
  {
    DaysInClosedForm(t.year);
    DayInYear(t);
  }

  // ---------- firmware time ----------

  /** EFI_TIME, with the full year and the month from 1. */
  datatype EfiTime = EfiTime(year: nat, month: nat, day: nat, hour: nat, minute: nat, second: nat)

  /** The date that the firmware means. */
  function DateOf(e: EfiTime): Tm
    requires e.year >= 1900 && e.month >= 1
  {
    Tm(e.year - 1900, e.month - 1, e.day, e.hour, e.minute, e.second)
  }

  class Clock {
    var tm: Tm

    /** __mktime_efi, which keeps the last time read. Years up to 2000 are taken for the count of
        some buggy firmware. */
    method FromEfi(e: EfiTime) returns (t: int)
      requires e.year < 0x1_0000 && 1 <= e.month <= 12
      modifies this
      ensures t == Seconds(tm) == EfiSeconds(e) && tm.day == e.day && tm.month == e.month - 1
    {
      tm := Tm(if e.year > 2000 then e.year - 1900 else e.year + 98, e.month - 1, e.day, e.hour, e.minute, e.second);
      t := MkTime(tm);
    }
  }

  function EfiSeconds(e: EfiTime): int
    requires e.month >= 1
  {
    Seconds(Tm(if e.year > 2000 then e.year - 1900 else e.year + 98, e.month - 1, e.day, e.hour, e.minute, e.second))
  }

  /** New Year's Day of 2000 is taken for that of 3998. */
  lemma Year2000IsWrong()
    ensures EfiSeconds(EfiTime(2000, 1, 1, 0, 0, 0)) == Seconds(DateOf(EfiTime(3998, 1, 1, 0, 0, 0)))
    ensures EfiSeconds(EfiTime(2000, 1, 1, 0, 0, 0)) != Seconds(DateOf(EfiTime(2000, 1, 1, 0, 0, 0)))
  {
    EfiSecondsAreRight(EfiTime(2000, 1, 1, 0, 0, 0));
  }

  /** The firmware's date is turned into its own seconds exactly when it is after the year 2000. */
  lemma EfiSecondsAreRight(e: EfiTime)
    requires e.year >= 1900 && e.month >= 1 && IsDate(DateOf(e))
    ensures EfiSeconds(e) == Seconds(DateOf(e)) <==> e.year > 2000
  {
    var d := DateOf(e);
    if e.year <= 2000 {
      YearsPass(d.year, e.year + 98);
      DayInYear(d);
    }
  }
}
