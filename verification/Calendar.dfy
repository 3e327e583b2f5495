/** The date arithmetic behind backup stamps, against the Gregorian calendar. */
module Calendar {
  datatype Date = Date(year: int, month: int, day: int)

  // ---- The Gregorian calendar --------------------------------------------------------------------------------

  predicate IsLeap(year: int) {
    year % 4 == 0 && (year % 100 != 0 || year % 400 == 0)
  }

  function YearLength(year: int): int {
    if IsLeap(year) then 366 else 365
  }

  function MonthLength(year: int, month: int): int {
    if month == 2 then (if IsLeap(year) then 29 else 28)
    else if month == 4 || month == 6 || month == 9 || month == 11 then 30
    else 31
  }

  /** The number of days from the first of January 1970 to the first of January of a year. */
  function YearStart(year: int): int
    requires year >= 1970
    decreases year
  {
    if year == 1970 then 0 else YearStart(year - 1) + YearLength(year - 1)
  }

  /** The number of days of a year before one of its months. */
  function MonthStart(year: int, month: int): int
    requires 1 <= month <= 12
    decreases month
  {
    if month == 1 then 0 else MonthStart(year, month - 1) + MonthLength(year, month - 1)
  }

  predicate IsDate(d: Date) {
    d.year >= 1970 && 1 <= d.month <= 12 && 1 <= d.day <= MonthLength(d.year, d.month)
  }

  /** The number of days from the first of January 1970 to a date. */
  function DayNumber(d: Date): int
    requires IsDate(d)
  {
    YearStart(d.year) + MonthStart(d.year, d.month) + d.day - 1
  }

  predicate Earlier(a: Date, b: Date) {
    a.year < b.year || (a.year == b.year && (a.month < b.month || (a.month == b.month && a.day < b.day)))
  }

  // ---- The program's arithmetic ------------------------------------------------------------------------------

  /** The year of the era, counted from March, for a day of the era. */
  function YearOfEra(doe: int): int {
    (doe - doe / 1460 + doe / 36524 - doe / 146096) / 365
  }

  /** The civil date of a day. Eras have 400 years that begin in March; no day since 1970 is before the first era. */
  function Civil(days: nat): Date {
    var z := days + 719468;
    var era := z / 146097;
    var doe := z - era * 146097;
    var yoe := YearOfEra(doe);
    var doy := doe - (365 * yoe + yoe / 4 - yoe / 100);
    var mp := (5 * doy + 2) / 153;
    var day := doy - (153 * mp + 2) / 5 + 1;
    var month := if mp < 10 then mp + 3 else mp - 9;
    Date(yoe + era * 400 + (if month <= 2 then 1 else 0), month, day)
  }

  // ---- Years -------------------------------------------------------------------------------------------------

  /** A day of an era lies in a century `c`, a leap cycle `k` of it, a year `r` of that, and is day `d` of that year. */
  predicate InEra(doe: int, c: int, k: int, r: int, d: int) {
    && 0 <= c < 4 && 0 <= k < 25 && 0 <= r < 4 && 0 <= d
    && d <= (if r == 3 && (k < 24 || c == 3) then 365 else 364)
    && doe == 36524 * c + 1461 * k + 365 * r + d
  }

  lemma EraParts(doe: int) returns (c: int, k: int, r: int, d: int)
    requires 0 <= doe < 146097
    ensures InEra(doe, c, k, r, d)
  {
    c := if doe == 146096 then 3 else doe / 36524;
    var rest := doe - 36524 * c;
    k := rest / 1461;
    var left := rest - 1461 * k;
    r := if left == 1460 then 3 else left / 365;
    d := left - 365 * r;
  }

  /** The corrections for leap days find the year. */
  lemma YearOfEraExact(doe: int, c: int, k: int, r: int, d: int)
    requires InEra(doe, c, k, r, d)
    ensures YearOfEra(doe) == 100 * c + 4 * k + r
  {
    var late := if 24 * c + k + 365 * r + d >= 1460 then 1 else 0;
    var q := 25 * c + k + late;
    assert doe == 1460 * (25 * c + k) + (24 * c + k + 365 * r + d);
    assert doe / 1460 == q;
    if doe != 146096 {
      assert doe / 36524 == c;
      assert doe / 146096 == 0;
    }
  }

  /** The leap days up to the end of year `n`. */
  function LeapDays(n: int): int {
    n / 4 - n / 100 + n / 400
  }

  lemma Fourth(n: int, q: int, r: int)
    requires n == 4 * q + r && 0 <= r < 4
    ensures n / 4 == q && n % 4 == r
  {
  }

  lemma Hundredth(n: int, q: int, r: int)
    requires n == 100 * q + r && 0 <= r < 100
    ensures n / 100 == q && n % 100 == r
  {
  }

  lemma FourHundredth(n: int, q: int, r: int)
    requires n == 400 * q + r && 0 <= r < 400
    ensures n / 400 == q && n % 400 == r
  {
  }

  lemma FourthStep(n: int)
    ensures n / 4 == (n - 1) / 4 + (if n % 4 == 0 then 1 else 0)
  {
    if n % 4 == 0 {
      Fourth(n - 1, n / 4 - 1, 3);
    } else {
      Fourth(n - 1, n / 4, n % 4 - 1);
    }
  }

  lemma HundredthStep(n: int)
    ensures n / 100 == (n - 1) / 100 + (if n % 100 == 0 then 1 else 0)
    ensures n % 100 == 0 ==> n % 4 == 0
  {
    if n % 100 == 0 {
      Hundredth(n - 1, n / 100 - 1, 99);
      Fourth(n, 25 * (n / 100), 0);
    } else {
      Hundredth(n - 1, n / 100, n % 100 - 1);
    }
  }

  lemma FourHundredthStep(n: int)
    ensures n / 400 == (n - 1) / 400 + (if n % 400 == 0 then 1 else 0)
    ensures n % 400 == 0 ==> n % 100 == 0
  {
    if n % 400 == 0 {
      FourHundredth(n - 1, n / 400 - 1, 399);
      Hundredth(n, 4 * (n / 400), 0);
    } else {
      FourHundredth(n - 1, n / 400, n % 400 - 1);
    }
  }

  lemma LeapDaysStep(n: int)
    ensures LeapDays(n) == LeapDays(n - 1) + (if IsLeap(n) then 1 else 0)
  {
    FourthStep(n);
    HundredthStep(n);
    FourHundredthStep(n);
  }

  lemma {:induction false} YearStartClosed(year: int)
    requires year >= 1970
    ensures YearStart(year) == 365 * year + LeapDays(year - 1) - 719527
    decreases year
  {
    if year > 1970 {
      YearStartClosed(year - 1);
      LeapDaysStep(year - 1);
    }
  }

  // ---- Days --------------------------------------------------------------------------------------------------

  /** The date of a day of a year that begins in March. */
  function MarchDate(y: int, doy: int): Date {
    var mp := (5 * doy + 2) / 153;
    var month := if mp < 10 then mp + 3 else mp - 9;
    Date(y + (if month <= 2 then 1 else 0), month, doy - (153 * mp + 2) / 5 + 1)
  }

  lemma LeapDaysOfParts(era: int, c: int, k: int, r: int)
    requires 0 <= c < 4 && 0 <= k < 25 && 0 <= r < 4
    ensures LeapDays(400 * era + 100 * c + 4 * k + r) == 97 * era + 24 * c + k
  {
    var y := 400 * era + 100 * c + 4 * k + r;
    Fourth(y, 100 * era + 25 * c + k, r);
    Hundredth(y, 4 * era + c, 4 * k + r);
    FourHundredth(y, era, 100 * c + 4 * k + r);
  }

  lemma LeapOfParts(era: int, c: int, k: int)
    requires 0 <= c < 4 && 0 <= k < 25
    ensures IsLeap(400 * era + 100 * c + 4 * k + 4) <==> k < 24 || c == 3
  {
    var n := 400 * era + 100 * c + 4 * k + 4;
    Fourth(n, 100 * era + 25 * c + k + 1, 0);
    if k < 24 {
      Hundredth(n, 4 * era + c, 4 * k + 4);
    } else {
      Hundredth(n, 4 * era + c + 1, 0);
      if c < 3 {
        FourHundredth(n, era, 100 * c + 100);
      } else {
        FourHundredth(n, era + 1, 0);
      }
    }
  }

  lemma LeapNext(era: int, c: int, k: int, r: int)
    requires 0 <= c < 4 && 0 <= k < 25 && 0 <= r < 4
    ensures var y := 400 * era + 100 * c + 4 * k + r;
            && (IsLeap(y + 1) <==> r == 3 && (k < 24 || c == 3))
            && LeapDays(y) == 97 * era + 24 * c + k
  {
    hide LeapDays;
    LeapDaysOfParts(era, c, k, r);
    if r == 3 {
      hide IsLeap;
      LeapOfParts(era, c, k);
    } else {
      Fourth(400 * era + 100 * c + 4 * k + r + 1, 100 * era + 25 * c + k, r + 1);
    }
  }

  /** Every day is a day of a year that begins in March. */
  lemma CivilParts(days: nat) returns (y: int, doy: int)
    ensures 0 <= doy <= (if IsLeap(y + 1) then 365 else 364)
    ensures days == 365 * y + LeapDays(y) + doy - 719468
    ensures Civil(days) == MarchDate(y, doy)
  {
    hide IsLeap, LeapDays, YearOfEra;
    var z := days + 719468;
    var era := z / 146097;
    var doe := z - era * 146097;
    var c, k, r, d := EraParts(doe);
    YearOfEraExact(doe, c, k, r, d);
    LeapNext(era, c, k, r);
    y, doy := 400 * era + 100 * c + 4 * k + r, d;
    EraQuotients(c, k, r);
    CivilOfParts(days, era, YearOfEra(doe), d);
  }

  lemma EraQuotients(c: int, k: int, r: int)
    requires 0 <= c < 4 && 0 <= k < 25 && 0 <= r < 4
    ensures var yoe := 100 * c + 4 * k + r;
            yoe / 4 == 25 * c + k && yoe / 100 == c
  {
  }

  lemma CivilOfParts(days: nat, era: int, yoe: int, doy: int)
    requires era == (days + 719468) / 146097
    requires yoe == YearOfEra(days + 719468 - era * 146097)
    requires doy == days + 719468 - era * 146097 - (365 * yoe + yoe / 4 - yoe / 100)
    ensures Civil(days) == MarchDate(yoe + era * 400, doy)
  {
    hide YearOfEra;
  }

  lemma MonthStarts(year: int)
    ensures MonthStart(year, 1) == 0 && MonthStart(year, 2) == 31
    ensures var l := if IsLeap(year) then 1 else 0;
            && MonthStart(year, 3) == 59 + l && MonthStart(year, 4) == 90 + l && MonthStart(year, 5) == 120 + l
            && MonthStart(year, 6) == 151 + l && MonthStart(year, 7) == 181 + l && MonthStart(year, 8) == 212 + l
            && MonthStart(year, 9) == 243 + l && MonthStart(year, 10) == 273 + l && MonthStart(year, 11) == 304 + l
            && MonthStart(year, 12) == 334 + l
  {
    hide IsLeap;
    MonthStartsEarly(year);
    assert MonthStart(year, 7) == MonthStart(year, 6) + 30;
    assert MonthStart(year, 8) == MonthStart(year, 7) + 31;
    assert MonthStart(year, 9) == MonthStart(year, 8) + 31;
    assert MonthStart(year, 10) == MonthStart(year, 9) + 30;
    assert MonthStart(year, 11) == MonthStart(year, 10) + 31;
    assert MonthStart(year, 12) == MonthStart(year, 11) + 30;
  }

  lemma MonthStartsEarly(year: int)
    ensures MonthStart(year, 1) == 0 && MonthStart(year, 2) == 31
    ensures var l := if IsLeap(year) then 1 else 0;
            && MonthStart(year, 3) == 59 + l && MonthStart(year, 4) == 90 + l && MonthStart(year, 5) == 120 + l
            && MonthStart(year, 6) == 151 + l
  {
    hide IsLeap;
    assert MonthStart(year, 2) == MonthStart(year, 1) + 31;
    assert MonthStart(year, 3) == MonthStart(year, 2) + MonthLength(year, 2);
    assert MonthStart(year, 4) == MonthStart(year, 3) + 31;
    assert MonthStart(year, 5) == MonthStart(year, 4) + 30;
    assert MonthStart(year, 6) == MonthStart(year, 5) + 31;
  }

  lemma MarchDateExact(y: int, doy: int)
    requires 0 <= doy <= (if IsLeap(y + 1) then 365 else 364)
    requires y >= 1970 || (y == 1969 && doy >= 306)
    ensures IsDate(MarchDate(y, doy)) && DayNumber(MarchDate(y, doy)) == 365 * y + LeapDays(y) + doy - 719468
  {
    hide IsLeap, MonthStart, LeapDays, YearStart;
    var d := MarchDate(y, doy);
    MarchMonth(doy);
    MonthStarts(d.year);
    YearStartClosed(d.year);
    LeapDaysStep(y);
    LeapDaysStep(d.year);
  }

  /** The months of a year that begins in March, by their first days. */
  lemma MarchMonth(doy: int)
    requires 0 <= doy <= 365
    ensures var mp := (5 * doy + 2) / 153;
            && 0 <= mp <= 11
            && (153 * mp + 2) / 5 == [0, 31, 61, 92, 122, 153, 184, 214, 245, 275, 306, 337][mp]
            && 0 <= doy - (153 * mp + 2) / 5 < [31, 30, 31, 30, 31, 31, 30, 31, 30, 31, 31, 29][mp]
  {
  }

  lemma DayIsLate(y: int, doy: int)
    requires 0 <= doy <= 365 && 365 * y + LeapDays(y) + doy - 719468 >= 0
    ensures y >= 1970 || (y == 1969 && doy >= 306)
  {
  }

  /** The computed date is a date of the calendar, and its day number is the given day. */
  lemma CivilExact(days: nat)
    ensures IsDate(Civil(days)) && DayNumber(Civil(days)) == days
  {
    hide *;
    var y, doy := CivilParts(days);
    DayIsLate(y, doy);
    MarchDateExact(y, doy);
  }

  /** Day numbers grow with dates. */
  lemma DayNumberGrows(a: Date, b: Date)
    requires IsDate(a) && IsDate(b) && Earlier(a, b)
    ensures DayNumber(a) < DayNumber(b)
  {
    hide IsLeap, MonthStart, YearStart;
    MonthStarts(a.year);
    MonthStarts(b.year);
    if a.year < b.year {
      YearStartGrows(a.year, b.year);
    }
  }

  lemma {:induction false} YearStartGrows(a: int, b: int)
    requires 1970 <= a < b
    ensures YearStart(a) + YearLength(a) <= YearStart(b)
    decreases b
  {
    if a < b - 1 {
      YearStartGrows(a, b - 1);
    }
  }

  /** Every date since 1970 is the date of exactly one day. */
  lemma DateOfDay(d: Date)
    requires IsDate(d)
    ensures DayNumber(d) >= 0 && Civil(DayNumber(d)) == d
  {
    hide Civil, DayNumber, IsDate;
    DayNumberNatural(d);
    var e := Civil(DayNumber(d));
    CivilExact(DayNumber(d));
    if Earlier(d, e) {
      DayNumberGrows(d, e);
    } else if Earlier(e, d) {
      DayNumberGrows(e, d);
    }
  }

  lemma DayNumberNatural(d: Date)
    requires IsDate(d)
    ensures DayNumber(d) >= 0
  {
    hide IsLeap, MonthStart, YearStart;
    MonthStarts(d.year);
    if d.year > 1970 {
      YearStartGrows(1970, d.year);
      YearStartFirst();
    } else {
      YearStartFirst();
    }
  }

  lemma YearStartFirst()
    ensures YearStart(1970) == 0
  {
  }

  lemma CivilGrows(a: nat, b: nat)
    requires a < b
    ensures Earlier(Civil(a), Civil(b))
  {
    hide Civil, DayNumber, IsDate;
    CivilExact(a);
    CivilExact(b);
    if Earlier(Civil(b), Civil(a)) {
      DayNumberGrows(Civil(b), Civil(a));
    }
  }
}
