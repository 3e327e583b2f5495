/** The stamps in backup names: their text order is the order of time as long as years have equally many digits. */
module Stamps {
  import opened Keys
  import opened Ordering
  import opened Calendar

  function Zeros(n: nat): string {
    if n == 0 then "" else "0" + Zeros(n - 1)
  }

  /** At least `width` digits. */
  function Padded(n: nat, width: nat): string {
    var digits := Decimal(n);
    (if |digits| < width then Zeros(width - |digits|) else "") + digits
  }

  /** Date and time of day of a second, as text. */
  function Stamp(secs: nat): string {
    var date, time := Civil(secs / 86400), secs % 86400;
    CivilExact(secs / 86400);
    Padded(date.year, 4) + Padded(date.month, 2) + Padded(date.day, 2) + "-" +
    Padded(time / 3600, 2) + Padded((time % 3600) / 60, 2) + Padded(time % 60, 2)
  }

  predicate Before(a: string, b: string) {
    TextLeq(a, b) && a != b
  }

  lemma {:induction false} BeforeFront(x: string, x': string, y: string, y': string)
    requires |x| == |x'| && Before(x, x')
    ensures Before(x + y, x' + y')
  {
    if x != "" {
      assert (x + y)[1..] == x[1..] + y && (x' + y')[1..] == x'[1..] + y';
      if x[0] == x'[0] {
        assert x == [x[0]] + x[1..] && x' == [x'[0]] + x'[1..];
        BeforeFront(x[1..], x'[1..], y, y');
      }
    }
  }

  lemma {:induction false} BeforeBack(x: string, y: string, y': string)
    requires Before(y, y')
    ensures Before(x + y, x + y')
  {
    if x == "" {
      assert x + y == y && x + y' == y';
    } else {
      BeforeBack(x[1..], y, y');
      assert (x + y)[1..] == x[1..] + y && (x + y')[1..] == x[1..] + y';
    }
  }

  lemma DigitBefore(a: nat, b: nat)
    requires a < b < 10
    ensures Before([Digit(a)], [Digit(b)])
  {
  }

  /** Numbers of equally many digits are ordered as texts. */
  lemma {:induction false} DecimalBefore(a: nat, b: nat)
    requires a < b && |Decimal(a)| == |Decimal(b)|
    ensures Before(Decimal(a), Decimal(b))
  {
    hide TextLeq;
    if b < 10 {
      DigitBefore(a, b);
    } else {
      assert a >= 10;
      if a / 10 == b / 10 {
        DigitBefore(a % 10, b % 10);
        BeforeBack(Decimal(a / 10), [Digit(a % 10)], [Digit(b % 10)]);
      } else {
        DecimalBefore(a / 10, b / 10);
        BeforeFront(Decimal(a / 10), Decimal(b / 10), [Digit(a % 10)], [Digit(b % 10)]);
      }
    }
  }

  lemma TwoDigits(n: nat)
    requires n < 100
    ensures Padded(n, 2) == [Digit(n / 10), Digit(n % 10)]
  {
    if n < 10 {
      assert Zeros(1) == "0" + Zeros(0);
    } else {
      assert Decimal(n / 10) == [Digit(n / 10)];
    }
  }

  lemma TwoBefore(a: nat, b: nat)
    requires a < b < 100
    ensures Before(Padded(a, 2), Padded(b, 2))
  {
    hide TextLeq, Padded;
    TwoDigits(a);
    TwoDigits(b);
    var x, y := [Digit(a / 10)], [Digit(b / 10)];
    assert Padded(a, 2) == x + [Digit(a % 10)] && Padded(b, 2) == y + [Digit(b % 10)];
    if a / 10 == b / 10 {
      DigitBefore(a % 10, b % 10);
      BeforeBack(x, [Digit(a % 10)], [Digit(b % 10)]);
    } else {
      DigitBefore(a / 10, b / 10);
      BeforeFront(x, y, [Digit(a % 10)], [Digit(b % 10)]);
    }
  }

  /** A first field of equal width decides, and otherwise what comes after it. */
  lemma TwoThen(a: nat, b: nat, x: string, y: string)
    requires a < 100 && b < 100 && (a < b || (a == b && Before(x, y)))
    ensures Before(Padded(a, 2) + x, Padded(b, 2) + y)
  {
    hide Before, Padded;
    TwoDigits(a);
    TwoDigits(b);
    if a < b {
      TwoBefore(a, b);
      BeforeFront(Padded(a, 2), Padded(b, 2), x, y);
    } else {
      BeforeBack(Padded(a, 2), x, y);
    }
  }

  /** Minutes and seconds. */
  function MinuteText(time: nat): string {
    Padded((time % 3600) / 60, 2) + Padded(time % 60, 2)
  }

  function TimeText(time: nat): string {
    Padded(time / 3600, 2) + MinuteText(time)
  }

  /** Seconds of one minute, or minutes of one hour. */
  lemma SixtyGrows(a: nat, b: nat, qa: nat, qb: nat, ra: nat, rb: nat)
    requires a == 60 * qa + ra && b == 60 * qb + rb && ra < 60 && rb < 60 && a < b
    ensures qa < qb || (qa == qb && ra < rb)
  {
  }

  lemma MinutesGrow(a: nat, b: nat, h: nat)
    requires 3600 * h <= a < b < 3600 * h + 3600
    ensures var ma, mb := (a % 3600) / 60, (b % 3600) / 60;
            ma < mb < 60 || (ma == mb < 60 && a % 60 < b % 60)
  {
    var ra, rb := a - 3600 * h, b - 3600 * h;
    InHour(a, h, ra);
    InHour(b, h, rb);
    SixtyGrows(ra, rb, ra / 60, rb / 60, ra % 60, rb % 60);
  }

  lemma InHour(a: nat, h: nat, r: nat)
    requires a == 3600 * h + r && r < 3600
    ensures a % 3600 == r && a % 60 == r % 60 && r / 60 < 60
  {
    InMinute(a, 60 * h + r / 60, r % 60);
  }

  lemma InMinute(a: nat, q: nat, r: nat)
    requires a == 60 * q + r && r < 60
    ensures a % 60 == r
  {
  }

  lemma MinutesInOrder(a: nat, b: nat)
    requires a < b && a / 3600 == b / 3600
    ensures Before(MinuteText(a), MinuteText(b))
  {
    hide Before, Padded;
    var ma, mb := (a % 3600) / 60, (b % 3600) / 60;
    MinutesGrow(a, b, a / 3600);
    if ma == mb {
      TwoBefore(a % 60, b % 60);
    }
    TwoThen(ma, mb, Padded(a % 60, 2), Padded(b % 60, 2));
  }

  lemma TimesInOrder(a: nat, b: nat)
    requires a < b < 86400
    ensures Before(TimeText(a), TimeText(b))
  {
    hide Before, Padded, MinuteText;
    if a / 3600 == b / 3600 {
      MinutesInOrder(a, b);
    }
    TwoThen(a / 3600, b / 3600, MinuteText(a), MinuteText(b));
  }

  function YearText(d: Date): string
    requires IsDate(d)
  {
    Padded(d.year, 4)
  }

  /** Month, day and time, when the year is the same. */
  function Tail(d: Date, time: nat): string
    requires IsDate(d)
  {
    Padded(d.month, 2) + (Padded(d.day, 2) + ("-" + TimeText(time)))
  }

  lemma StampParts(secs: nat)
    ensures IsDate(Civil(secs / 86400))
    ensures Stamp(secs) == YearText(Civil(secs / 86400)) + Tail(Civil(secs / 86400), secs % 86400)
  {
    hide Civil, Padded, IsDate;
    CivilExact(secs / 86400);
    FieldsFit(Civil(secs / 86400));
    var d, t := Civil(secs / 86400), secs % 86400;
    Regroup(Padded(d.year, 4), Padded(d.month, 2), Padded(d.day, 2), "-", Padded(t / 3600, 2),
            Padded((t % 3600) / 60, 2), Padded(t % 60, 2));
  }

  lemma Regroup(a: string, b: string, c: string, d: string, e: string, f: string, g: string)
    ensures a + b + c + d + e + f + g == a + (b + (c + (d + (e + (f + g)))))
  {
  }

  lemma FieldsFit(d: Date)
    requires IsDate(d)
    ensures d.year >= 1970 && 1 <= d.month < 100 && 1 <= d.day < 100
  {
  }

  lemma TailsInOrder(a: Date, s: nat, b: Date, t: nat)
    requires IsDate(a) && IsDate(b) && a.year == b.year && s < 86400 && t < 86400
    requires Earlier(a, b) || (a == b && s < t)
    ensures Before(Tail(a, s), Tail(b, t))
  {
    hide Before, Padded, IsDate, TimeText;
    FieldsFit(a);
    FieldsFit(b);
    var x, y := "-" + TimeText(s), "-" + TimeText(t);
    if a.month == b.month {
      if a.day == b.day {
        TimesInOrder(s, t);
        BeforeBack("-", TimeText(s), TimeText(t));
      }
      TwoThen(a.day, b.day, x, y);
    }
    TwoThen(a.month, b.month, Padded(a.day, 2) + x, Padded(b.day, 2) + y);
  }

  lemma YearDigits(year: nat)
    requires year >= 1000
    ensures Padded(year, 4) == Decimal(year) && |Decimal(year)| >= 4
    ensures year <= 9999 ==> |Decimal(year)| == 4
  {
    hide Decimal;
    var a := year / 10;
    var b := a / 10;
    OneMoreDigit(year);
    OneMoreDigit(a);
    OneMoreDigit(b);
    if year <= 9999 {
      OneDigit(b / 10);
    }
  }

  lemma OneMoreDigit(n: nat)
    requires n >= 10
    ensures |Decimal(n)| == |Decimal(n / 10)| + 1 && Decimal(n)[..|Decimal(n / 10)|] == Decimal(n / 10)
  {
  }

  lemma OneDigit(n: nat)
    requires n < 10
    ensures |Decimal(n)| == 1
  {
  }

  /** Stamps whose years have equally many digits sort in time order. */
  lemma StampsInOrder(s: nat, t: nat)
    requires s < t
    requires IsDate(Civil(s / 86400)) && IsDate(Civil(t / 86400))
    requires |YearText(Civil(s / 86400))| == |YearText(Civil(t / 86400))|
    ensures Before(Stamp(s), Stamp(t))
  {
    hide Before, Padded, Stamp, Tail, IsDate, Civil, Decimal;
    var a, b := Civil(s / 86400), Civil(t / 86400);
    FieldsFit(a);
    FieldsFit(b);
    StampParts(s);
    StampParts(t);
    if s / 86400 < t / 86400 {
      CivilGrows(s / 86400, t / 86400);
    }
    YearDigits(a.year);
    YearDigits(b.year);
    if a.year < b.year {
      DecimalBefore(a.year, b.year);
      BeforeFront(YearText(a), YearText(b), Tail(a, s % 86400), Tail(b, t % 86400));
    } else {
      TailsInOrder(a, s % 86400, b, t % 86400);
      BeforeBack(YearText(a), Tail(a, s % 86400), Tail(b, t % 86400));
    }
  }

  function YearOf(secs: nat): int {
    Civil(secs / 86400).year
  }

  /** Until the end of the year 9999 the text order of stamps is exactly the order of time. */
  lemma OrderExact(s: nat, t: nat)
    requires YearOf(s) <= 9999 && YearOf(t) <= 9999
    ensures Before(Stamp(s), Stamp(t)) <==> s < t
    ensures Stamp(s) == Stamp(t) <==> s == t
  {
    hide TextLeq, Padded, Stamp, IsDate, Civil, Decimal;
    CivilExact(s / 86400);
    CivilExact(t / 86400);
    FieldsFit(Civil(s / 86400));
    FieldsFit(Civil(t / 86400));
    YearDigits(YearOf(s));
    YearDigits(YearOf(t));
    if s < t {
      StampsInOrder(s, t);
    } else if t < s {
      StampsInOrder(t, s);
      if TextLeq(Stamp(s), Stamp(t)) {
        TextLeqAntisymmetric(Stamp(s), Stamp(t));
      }
    }
  }

  // ---- The year 10000 ----------------------------------------------------------------------------------------

  lemma LeadingDigits(year: nat)
    ensures 1970 <= year <= 9999 ==> Before("10", Decimal(year)[..2]) && |Decimal(year)| == 4
    ensures 10000 <= year <= 10999 ==> |Decimal(year)| == 5 && Decimal(year)[..2] == "10"
  {
    hide Decimal, Before, Padded;
    var a := year / 10;
    var b := a / 10;
    var c := b / 10;
    if 1970 <= year <= 9999 {
      LeadingOf(a);
      LeadingOf(year);
      DecimalTwo(b);
      DecimalTwo(10);
      TwoBefore(10, b);
      assert Padded(10, 2) == "10" && Decimal(year)[..2] == Decimal(b);
    } else if 10000 <= year <= 10999 {
      assert c == 10;
      LeadingOf(b);
      LeadingOf(a);
      LeadingOf(year);
      DecimalTwo(c);
    }
  }

  lemma DecimalTwo(n: nat)
    requires 10 <= n < 100
    ensures Decimal(n) == Padded(n, 2) == [Digit(n / 10), Digit(n % 10)]
  {
    TwoDigits(n);
  }

  lemma LeadingOf(n: nat)
    requires n >= 100
    ensures |Decimal(n)| == |Decimal(n / 10)| + 1 && |Decimal(n / 10)| >= 2
    ensures Decimal(n)[..2] == Decimal(n / 10)[..2]
  {
    hide Decimal;
    OneMoreDigit(n);
    OneMoreDigit(n / 10);
    assert Decimal(n)[..2] == Decimal(n)[..|Decimal(n / 10)|][..2];
  }

  /** A stamp of the years 10000 to 10999 sorts before every stamp of an earlier millennium. */
  lemma LateSortsEarly(s: nat, t: nat)
    requires YearOf(s) <= 9999 && 10000 <= YearOf(t) <= 10999
    ensures s < t && Before(Stamp(t), Stamp(s))
  {
    hide Before, Padded, Stamp, IsDate, Civil, Decimal, Tail;
    var a, b := Civil(s / 86400), Civil(t / 86400);
    CivilExact(s / 86400);
    CivilExact(t / 86400);
    FieldsFit(a);
    FieldsFit(b);
    StampParts(s);
    StampParts(t);
    YearDigits(a.year);
    YearDigits(b.year);
    LeadingDigits(a.year);
    LeadingDigits(b.year);
    var x, y := Decimal(a.year), Decimal(b.year);
    BeforeFront("10", x[..2], y[2..] + Tail(b, t % 86400), x[2..] + Tail(a, s % 86400));
    assert Stamp(t) == "10" + (y[2..] + Tail(b, t % 86400));
    assert Stamp(s) == x[..2] + (x[2..] + Tail(a, s % 86400));
    if t / 86400 < s / 86400 {
      CivilGrows(t / 86400, s / 86400);
    }
  }

  /** The first second of the year 10000. */
  lemma TenThousand()
    ensures YearOf(253402300800) == 10000 && YearOf(253402300799) == 9999
  {
    hide IsDate, Civil, DayNumber;
    NewYear();
    DateOfDay(Date(10000, 1, 1));
    DateOfDay(Date(9999, 12, 31));
  }

  lemma NewYear()
    ensures IsDate(Date(10000, 1, 1)) && DayNumber(Date(10000, 1, 1)) == 2932897
    ensures IsDate(Date(9999, 12, 31)) && DayNumber(Date(9999, 12, 31)) == 2932896
  {
    hide YearStart, MonthStart;
    YearStartClosed(10000);
    YearStartClosed(9999);
    MonthStarts(10000);
    MonthStarts(9999);
  }

  /** So a second can separate two stamps that sort the wrong way round. */
  lemma OrderBreaks()
    ensures Before(Stamp(253402300800), Stamp(253402300799))
  {
    hide *;
    TenThousand();
    LateSortsEarly(253402300799, 253402300800);
  }

  /** Later seconds lie in no earlier year. */
  lemma YearsGrow(s: nat, t: nat)
    requires s <= t
    ensures YearOf(s) <= YearOf(t)
  {
    hide Civil;
    if s / 86400 < t / 86400 {
      CivilGrows(s / 86400, t / 86400);
    }
  }

  /** All stamps up to some second sort by time. */
  ghost predicate InOrderUntil(end: nat) {
    forall s: nat, t: nat :: s < t <= end ==> Before(Stamp(s), Stamp(t))
  }

  /** The stamps up to a second sort by time if and only if that second is not after the year 9999. */
  lemma InOrderExactly(end: nat)
    ensures InOrderUntil(end) <==> YearOf(end) <= 9999
  {
    hide Before, Stamp, YearOf;
    if YearOf(end) <= 9999 {
      forall s: nat, t: nat | s < t <= end ensures Before(Stamp(s), Stamp(t)) {
        YearsGrow(s, end);
        YearsGrow(t, end);
        OrderExact(s, t);
      }
    } else {
      TenThousand();
      if end < 253402300800 {
        YearsGrow(end, 253402300799);
      }
      OrderBreaks();
      BeforeOneWay(Stamp(253402300800), Stamp(253402300799));
    }
  }

  lemma BeforeOneWay(a: string, b: string)
    requires Before(a, b)
    ensures !Before(b, a)
  {
    hide TextLeq;
    if TextLeq(b, a) {
      TextLeqAntisymmetric(a, b);
    }
  }

  // ---- Reading a stamp ---------------------------------------------------------------------------------------

  function DigitValue(c: char): int {
    c as int - '0' as int
  }

  /** The number that a row of digits stands for. */
  function Value(digits: string): int {
    if digits == "" then 0 else 10 * Value(digits[..|digits| - 1]) + DigitValue(digits[|digits| - 1])
  }

  lemma {:induction false} ValueOfDecimal(n: nat)
    ensures Value(Decimal(n)) == n
  {
    if n < 10 {
      assert Decimal(n)[..0] == "";
    } else {
      ValueOfDecimal(n / 10);
      assert Decimal(n)[..|Decimal(n)| - 1] == Decimal(n / 10);
    }
  }

  lemma ValueOfTwo(n: nat)
    requires n < 100
    ensures |Padded(n, 2)| == 2 && Value(Padded(n, 2)) == n
  {
    hide Padded, DigitValue, Digit;
    TwoDigits(n);
    DigitBack(n / 10);
    DigitBack(n % 10);
    ValueOfPair(Digit(n / 10), Digit(n % 10));
  }

  lemma ValueOfPair(a: char, b: char)
    ensures Value([a, b]) == 10 * DigitValue(a) + DigitValue(b)
  {
    hide DigitValue;
    assert [a, b][..1] == [a] && [a][..0] == "";
    assert Value([a]) == 10 * Value("") + DigitValue(a);
  }

  lemma DigitBack(d: nat)
    requires d < 10
    ensures DigitValue(Digit(d)) == d
  {
  }

  lemma ValueOfYear(year: nat)
    requires year >= 1000
    ensures Padded(year, 4) == Decimal(year) && Value(Padded(year, 4)) == year
  {
    hide Decimal;
    YearDigits(year);
    ValueOfDecimal(year);
  }

  /** A stamp can be read: its digits, from the back, are the time and the date of exactly one second. */
  lemma StampReads(secs: nat)
    ensures var t := Stamp(secs);
            var n := |t|;
            && n >= 15 && t[n - 7] == '-'
            && var year, month, day := Value(t[..n - 11]), Value(t[n - 11..n - 9]), Value(t[n - 9..n - 7]);
            var hour, minute, second := Value(t[n - 6..n - 4]), Value(t[n - 4..n - 2]), Value(t[n - 2..]);
            && 0 <= hour < 24 && 0 <= minute < 60 && 0 <= second < 60
            && IsDate(Date(year, month, day))
            && secs == 86400 * DayNumber(Date(year, month, day)) + 3600 * hour + 60 * minute + second
  {
    hide Civil, Padded, Value, IsDate, DayNumber;
    var d, time := Civil(secs / 86400), secs % 86400;
    CivilExact(secs / 86400);
    FieldsFit(d);
    TimeFits(time);
    ValueOfYear(d.year);
    ValueOfTwo(d.month);
    ValueOfTwo(d.day);
    ValueOfTwo(time / 3600);
    ValueOfTwo((time % 3600) / 60);
    ValueOfTwo(time % 60);
    YearDigits(d.year);
    StampFields(Padded(d.year, 4), Padded(d.month, 2), Padded(d.day, 2), Padded(time / 3600, 2),
                Padded((time % 3600) / 60, 2), Padded(time % 60, 2));
  }

  lemma TimeFits(time: nat)
    requires time < 86400
    ensures time / 3600 < 24 && (time % 3600) / 60 < 60 && time % 60 < 60
    ensures time == 3600 * (time / 3600) + 60 * ((time % 3600) / 60) + time % 60
  {
    InHour(time, time / 3600, time % 3600);
    var r := time % 3600;
    assert r == 60 * (r / 60) + r % 60;
  }

  lemma StampFields(year: string, month: string, day: string, hour: string, minute: string, second: string)
    requires |month| == |day| == |hour| == |minute| == |second| == 2
    ensures var t := year + month + day + "-" + hour + minute + second;
            var n := |t|;
            && n == |year| + 11 && t[n - 7] == '-' && t[..n - 11] == year && t[n - 11..n - 9] == month
            && t[n - 9..n - 7] == day && t[n - 6..n - 4] == hour && t[n - 4..n - 2] == minute && t[n - 2..] == second
  {
  }
}
