/** Years of the proleptic Gregorian calendar, from a count of days. */
module Calendar {
  const EPOCH_DAYS := 719162 // from 1 January of year 1 to 1 January 1970
  const MICROS_PER_DAY := 86_400_000_000

  /** Days from 1 January of year 1 to 1 January of `year`: one leap day every fourth year, except for
  centuries not divisible by 400. */
  function DaysBefore(year: int): int {
    var y := year - 1;
    365 * y + y / 4 - y / 100 + y / 400
  }

  predicate IsLeap(year: int) { year % 4 == 0 && (year % 100 != 0 || year % 400 == 0) }

  lemma YearLength(year: int)
    ensures DaysBefore(year + 1) - DaysBefore(year) == if IsLeap(year) then 366 else 365
  {
    QuotientStep(year, 4);
    QuotientStep(year, 100);
    QuotientStep(year, 400);
  }

  lemma QuotientStep(y: int, d: int)
    requires d == 4 || d == 100 || d == 400
    ensures y / d - (y - 1) / d == if y % d == 0 then 1 else 0
  {
  }

  lemma {:induction false} YearStartsGrow(a: int, b: int)
    requires a < b
    ensures DaysBefore(a) < DaysBefore(b)
    decreases b - a
  {
    YearLength(b - 1);
    if a < b - 1 { YearStartsGrow(a, b - 1); }
  }

  /** The year of a day, found by whole 400-, 100-, 4- and 1-year cycles. */
  function YearOfDay(day: int): (year: int)
    ensures DaysBefore(year) <= day < DaysBefore(year + 1)
  {
    var n400, r400 := day / 146097, day % 146097;
    var n100, r100 := r400 / 36524, r400 % 36524;
    var n4, r4 := r100 / 1461, r100 % 1461;
    var n1 := r4 / 365;
    var year := 400 * n400 + 100 * n100 + 4 * n4 + n1 + 1;
    CyclesFit(n400, n100, n4, n1, day, r4);
    if n1 == 4 || n100 == 4 then year - 1 else year
  }

  lemma CyclesFit(n400: int, n100: int, n4: int, n1: int, day: int, r4: int)
    requires day == 146097 * n400 + 36524 * n100 + 1461 * n4 + r4
    requires 0 <= n100 <= 4 && 0 <= n4 <= 24 && 0 <= n1 <= 4 && 0 <= r4 < 1461 && 365 * n1 <= r4 < 365 * n1 + 365
    requires n100 == 4 ==> n4 == 0 && r4 == 0
    requires n4 == 24 && n100 < 4 ==> r4 < 1460
    ensures var year := 400 * n400 + 100 * n100 + 4 * n4 + n1 + 1;
            var found := if n1 == 4 || n100 == 4 then year - 1 else year;
            DaysBefore(found) <= day < DaysBefore(found + 1)
  {
    if n100 == 4 {
      StartOfYear(n400, 3, 24, 3);
      LastDayOfLeap(n400, 3, 24);
    } else if n1 == 4 {
      StartOfYear(n400, n100, n4, 3);
      LastDayOfLeap(n400, n100, n4);
    } else {
      StartOfYear(n400, n100, n4, n1);
      YearLength(400 * n400 + 100 * n100 + 4 * n4 + n1 + 1);
    }
  }

  lemma StartOfYear(a: int, b: int, c: int, d: int)
    requires 0 <= b <= 3 && 0 <= c <= 24 && 0 <= d <= 3
    ensures DaysBefore(400 * a + 100 * b + 4 * c + d + 1) == 146097 * a + 36524 * b + 1461 * c + 365 * d
  {
    var y := 400 * a + 100 * b + 4 * c + d;
    assert y / 4 == 100 * a + 25 * b + c;
    assert y / 100 == 4 * a + b;
    assert y / 400 == a;
  }

  lemma LastDayOfLeap(a: int, b: int, c: int)
    requires 0 <= b <= 3 && 0 <= c <= 24 && (c == 24 ==> b == 3)
    ensures IsLeap(400 * a + 100 * b + 4 * c + 4)
    ensures DaysBefore(400 * a + 100 * b + 4 * c + 5) == DaysBefore(400 * a + 100 * b + 4 * c + 4) + 366
  {
    var year := 400 * a + 100 * b + 4 * c + 4;
    assert year / 4 == 100 * a + 25 * b + c + 1;
    if c < 24 {
      assert year / 100 == 4 * a + b;
    } else {
      assert year / 400 == a + 1;
    }
    assert IsLeap(year);
    YearLength(year);
  }

  function Year(micros: int): int { YearOfDay(EPOCH_DAYS + micros / MICROS_PER_DAY) }

  /** A later moment never has an earlier year. */
  lemma YearIsMonotone(s: int, t: int)
    requires s <= t
    ensures Year(s) <= Year(t)
  {
    if Year(t) < Year(s) {
      if Year(t) + 1 < Year(s) { YearStartsGrow(Year(t) + 1, Year(s)); }
    }
  }

  /** Days from 1 January 1970 to 1 January of `year`, counted year by year. */
  function NewYear(year: int): int
    decreases if year >= 1970 then year - 1970 else 1970 - year
  {
    if year == 1970 then 0
    else if year > 1970 then NewYear(year - 1) + (if IsLeap(year - 1) then 366 else 365)
    else NewYear(year + 1) - (if IsLeap(year) then 366 else 365)
  }

  lemma {:induction false} NewYearIs(year: int)
    ensures NewYear(year) == DaysBefore(year) - EPOCH_DAYS
    decreases if year >= 1970 then year - 1970 else 1970 - year
  {
    if year > 1970 {
      NewYearIs(year - 1);
      YearLength(year - 1);
    } else if year < 1970 {
      NewYearIs(year + 1);
      YearLength(year);
    } else {
      assert DaysBefore(1970) == EPOCH_DAYS;
    }
  }

  /** A moment is in the year whose first day has begun by then and whose successor's has not. */
  lemma YearIff(micros: int, year: int)
    ensures Year(micros) == year
       <==> NewYear(year) * 24 * 3600 * 1_000_000 <= micros < NewYear(year + 1) * 24 * 3600 * 1_000_000
  {
    var day := micros / MICROS_PER_DAY;
    NewYearIs(year);
    NewYearIs(year + 1);
    assert micros == day * MICROS_PER_DAY + micros % MICROS_PER_DAY;
    assert NewYear(year) <= day < NewYear(year + 1)
      <==> NewYear(year) * MICROS_PER_DAY <= micros < NewYear(year + 1) * MICROS_PER_DAY;
    if year < Year(micros) {
      if year + 1 < Year(micros) { YearStartsGrow(year + 1, Year(micros)); }
    } else if Year(micros) < year {
      if Year(micros) + 1 < year { YearStartsGrow(Year(micros) + 1, year); }
    }
  }
}
