/**
 Day numbers and proleptic Gregorian dates (libndarray/src/npy_datetime.c).
 Day 0 is 1970-01-01.
 */
module Calendar {
  import opened CInt

  datatype Ymd = Ymd(year: int, month: int, day: int)

  /** The C functions signal an error through a global and still return a value. */
  datatype Checked = Checked(value: int, error: bool)

  /** Days before each month, without and with a leap day. */
  const MONTH_OFFSET: seq<seq<int>> := [
    [0, 31, 59, 90, 120, 151, 181, 212, 243, 273, 304, 334, 365],
    [0, 31, 60, 91, 121, 152, 182, 213, 244, 274, 305, 335, 366]
  ]

  const DAYS_IN_MONTH: seq<seq<int>> := [
    [31, 28, 31, 30, 31, 30, 31, 31, 30, 31, 30, 31],
    [31, 29, 31, 30, 31, 30, 31, 31, 30, 31, 30, 31]
  ]

  predicate IsLeapYear(year: int) {
    Rem(year, 4) == 0 && (Rem(year, 100) != 0 || Rem(year, 400) == 0)
  }

  function Leap(year: int): (l: int)
    ensures l == 0 || l == 1
  {
    if IsLeapYear(year) then 1 else 0
  }

  /** The day number (counted from 1 for 1970-01-01) of 31 December of the
      preceding year. The test `-1/4 == -1` asks whether C division floors. */
  function YearOffset(year: int): int {
    var y := year - 1;
    if y >= 0 || Div(-1, 4) == -1 then
      (y - 1969) * 365 + Div(y, 4) - Div(y, 100) + Div(y, 400) - 477
    else
      (y - 1969) * 365 + Div(y - 3, 4) - Div(y - 99, 100) + Div(y - 399, 400) - 477
  }

  function DaysFromYmd(year: int, month: int, day: int): Checked {
    var leap := Leap(year);
    var m := if month < 0 then month + 13 else month;
    if !(1 <= m <= 12) then Checked(0, true)
    else
      var d := if day < 0 then day + DAYS_IN_MONTH[leap][m - 1] + 1 else day;
      if !(1 <= d <= DAYS_IN_MONTH[leap][m - 1]) then Checked(0, true)
      else Checked(d - 1 + MONTH_OFFSET[leap][m - 1] + YearOffset(year), false)
  }

  /** The month lengths of the Gregorian calendar, apart from the tables above. */
  function MonthLength(year: int, month: int): int {
    if month == 2 then (if year % 4 == 0 && (year % 100 != 0 || year % 400 == 0) then 29 else 28)
    else if month == 4 || month == 6 || month == 9 || month == 11 then 30
    else 31
  }

  predicate Valid(d: Ymd) {
    1 <= d.month <= 12 && 1 <= d.day <= MonthLength(d.year, d.month)
  }

  type Date = d: Ymd | Valid(d) witness Ymd(1970, 1, 1)

  function Days(d: Ymd): int {
    DaysFromYmd(d.year, d.month, d.day).value
  }

  /** Calendar order. */
  predicate Before(a: Ymd, b: Ymd) {
    a.year < b.year
    || (a.year == b.year && (a.month < b.month || (a.month == b.month && a.day < b.day)))
  }

  // ----- Years

  lemma YearOffsetFloor(year: int)
    ensures var y := year - 1;
            YearOffset(year) == (y - 1969) * 365 + y / 4 - y / 100 + y / 400 - 477
  {
    var y := year - 1;
    if y < 0 {
      FloorIdiom(y, 4);
      FloorIdiom(y, 100);
      FloorIdiom(y, 400);
    }
  }

  predicate Divides(n: int, y: int)
    requires n > 0
  {
    y % n == 0
  }

  /** 1 for the multiples of `n`. */
  function Multiple(y: int, n: int): int
    requires n > 0
  {
    if Divides(n, y) then 1 else 0
  }

  /** `y / n` moves up by one exactly at the multiples of `n`. */
  lemma QuotientStep(y: int, n: int)
    requires n > 1
    ensures y / n == (y - 1) / n + Multiple(y, n)
  {
    var q, r := y / n, y % n;
    assert y == n * q + r;
    if r == 0 {
      assert n * (q - 1) == n * q - n;
      QuotientUnique(y - 1, n, q - 1, n - 1);
    } else {
      QuotientUnique(y - 1, n, q, r - 1);
    }
  }

  lemma DividesFactor(n: int, k: int, y: int)
    requires n > 0 && k > 0 && n * k > 0 && Divides(n * k, y)
    ensures Divides(n, y)
  {
    var q := y / (n * k);
    assert y == n * k * q == n * (k * q);
    QuotientUnique(y, n, k * q, 0);
  }

  lemma DividesRem(n: int, y: int)
    requires n > 0
    ensures Divides(n, y) <==> Rem(y, n) == 0
  {
    RemZero(y, n);
    hide Rem;
  }

  lemma LeapParts(year: int)
    ensures Leap(year) == Multiple(year, 4) - Multiple(year, 100) + Multiple(year, 400)
  {
    hide Rem, Divides;
    DividesRem(4, year);
    DividesRem(100, year);
    DividesRem(400, year);
    if Divides(400, year) {
      DividesFactor(100, 4, year);
    }
    if Divides(100, year) {
      DividesFactor(4, 25, year);
    }
  }

  /** A year has 365 days, one more exactly when `IsLeapYear` says so. */
  lemma YearLength(year: int)
    ensures YearOffset(year + 1) == YearOffset(year) + 365 + Leap(year)
  {
    hide YearOffset, Leap, Multiple;
    YearOffsetFloor(year);
    YearOffsetFloor(year + 1);
    QuotientStep(year, 4);
    QuotientStep(year, 100);
    QuotientStep(year, 400);
    LeapParts(year);
  }

  lemma {:induction false} YearOffsetMonotone(a: int, b: int)
    requires a <= b
    ensures YearOffset(a) + 365 * (b - a) <= YearOffset(b) <= YearOffset(a) + 366 * (b - a)
    decreases b - a
  {
    if a < b {
      YearOffsetMonotone(a, b - 1);
      YearLength(b - 1);
    }
  }

  /** `d` counts 1970-01-01 as 1, as the C code does after its increment. */
  predicate InYear(d: int, year: int) {
    YearOffset(year) < d <= YearOffset(year + 1)
  }

  /** How many days year `y` misses `d` by. */
  ghost function Distance(d: int, y: int): nat {
    if YearOffset(y) >= d then YearOffset(y) - d + 1
    else if YearOffset(y + 1) < d then d - YearOffset(y + 1)
    else 0
  }

  lemma Closer(d: int, y: int)
    ensures YearOffset(y) >= d ==> Distance(d, y - 1) < Distance(d, y)
    ensures YearOffset(y + 1) < d ==> Distance(d, y + 1) < Distance(d, y)
    ensures YearOffset(y) < d && d - YearOffset(y) > 365 && !IsLeapYear(y) ==> YearOffset(y + 1) < d
  {
    YearLength(y - 1);
    YearLength(y);
    YearLength(y + 1);
    hide YearOffset, IsLeapYear;
  }

  /** Every day lies in a year: walk from `y`. */
  ghost function YearFrom(d: int, y: int): (r: int)
    ensures InYear(d, r)
    decreases Distance(d, y)
  {
    hide YearOffset;
    Closer(d, y);
    if YearOffset(y) >= d then YearFrom(d, y - 1)
    else if YearOffset(y + 1) < d then YearFrom(d, y + 1)
    else y
  }

  ghost function TrueYear(d: int): (r: int)
    ensures InYear(d, r)
  {
    YearFrom(d, 1970)
  }

  lemma TrueYearUnique(d: int, y: int)
    requires InYear(d, y)
    ensures y == TrueYear(d)
  {
    hide YearOffset;
    if y < TrueYear(d) {
      YearOffsetMonotone(y + 1, TrueYear(d));
    } else if TrueYear(d) < y {
      YearOffsetMonotone(TrueYear(d) + 1, y);
    }
  }

  // ----- The year estimate

  /** `1970 + d / 365.2425` over the rationals, truncated toward zero. */
  function EstimateYear(d: int): int {
    Div(1970 * 3652425 + d * 10000, 3652425)
  }

  /** How far leap days run ahead of 365.2425 days a year: after the whole years
      up to `y - 1` they lag by less than one day, and lead by less than two. */
  lemma LeapDrift(y: int)
    ensures (y - 1970) * 3652425 <= 10000 * (YearOffset(y) + 1)
    ensures 10000 * YearOffset(y) <= (y - 1970) * 3652425 + 20000
  {
    YearOffsetFloor(y);
    DriftWithinCycle((y - 1) % 400);
    WholeCycles(y - 1);
  }

  lemma WholeCycles(k: int)
    ensures k / 4 == 100 * (k / 400) + k % 400 / 4
    ensures k / 100 == 4 * (k / 400) + k % 400 / 100
  {
  }

  lemma DriftWithinCycle(r: int)
    requires 0 <= r < 400
    ensures (r - 1969) * 2425 <= 10000 * (r / 4 - r / 100 - 476)
    ensures 10000 * (r / 4 - r / 100 - 477) <= (r - 1969) * 2425 + 20000
  {
    var c := r / 100;
    assert c == 0 || c == 1 || c == 2 || c == 3;
  }

  /** The estimate is the true year or at most two years too late, so the
      correction loop only ever moves back, and at most twice. */
  lemma EstimateBounds(d: int)
    ensures TrueYear(d) <= EstimateYear(d) <= TrueYear(d) + 2
    ensures EstimateYear(d) == TrueYear(d) + 2 ==> EstimateYear(d) <= 0
  {
    var y := TrueYear(d);
    LeapDrift(y);
    LeapDrift(y + 1);
    var s := 1970 * 3652425 + d * 10000;
    assert y * 3652425 <= s <= (y + 1) * 3652425 + 20000;
  }

  // ----- The correction loop

  /** What the loop makes of any starting year: one step back while the year
      starts on or after `d`, one step on while a common year is too short. */
  function CorrectYear(year: int, d: int): int
    decreases Distance(d, year)
  {
    hide IsLeapYear;
    Closer(d, year);
    if YearOffset(year) >= d then CorrectYear(year - 1, d)
    else if d - YearOffset(year) > 365 && !IsLeapYear(year) then CorrectYear(year + 1, d)
    else year
  }

  lemma {:induction false} CorrectYearFromLate(year: int, d: int)
    requires TrueYear(d) <= year
    ensures CorrectYear(year, d) == TrueYear(d)
    decreases year - TrueYear(d)
  {
    hide YearOffset, IsLeapYear, Distance, YearFrom;
    var t := TrueYear(d);
    if t < year {
      YearOffsetMonotone(t + 1, year);
      CorrectYearFromLate(year - 1, d);
    } else {
      YearLength(year);
    }
  }

  predicate NoLeapYear(from: int, to: int) {
    forall y :: from <= y < to ==> !IsLeapYear(y)
  }

  lemma {:induction false} CorrectYearFromEarly(year: int, d: int)
    requires year < TrueYear(d)
    ensures CorrectYear(year, d) == TrueYear(d) <==> NoLeapYear(year, TrueYear(d))
    decreases TrueYear(d) - year
  {
    hide YearOffset, IsLeapYear;
    var t := TrueYear(d);
    YearOffsetMonotone(year + 1, t);
    YearLength(year);
    if IsLeapYear(year) {
      assert CorrectYear(year, d) == year;
    } else {
      assert CorrectYear(year, d) == CorrectYear(year + 1, d);
      if year + 1 < t {
        CorrectYearFromEarly(year + 1, d);
        assert NoLeapYear(year, t) <==> NoLeapYear(year + 1, t);
      } else {
        CorrectYearFromLate(year + 1, d);
      }
    }
  }

  /** The forward correction looks at common years only: a start before the true
      year is repaired exactly when no leap year is in the way. */
  lemma CorrectYearExact(year: int, d: int)
    ensures CorrectYear(year, d) == TrueYear(d) <==> NoLeapYear(year, TrueYear(d))
  {
    if TrueYear(d) <= year {
      CorrectYearFromLate(year, d);
    } else {
      CorrectYearFromEarly(year, d);
    }
  }

  /** The year search of `DaysToYmdStruct`, starting from an arbitrary year. */
  method SearchYear(start: int, d: int) returns (year: int)
    ensures year == CorrectYear(start, d)
  {
    hide YearOffset, IsLeapYear, Distance;
    year := start;
    while true
      invariant CorrectYear(year, d) == CorrectYear(start, d)
      decreases Distance(d, year)
    {
      Closer(d, year);
      var yearoffset := YearOffset(year);
      if yearoffset >= d {
        year := year - 1;
        continue;
      }
      var dayoffset := d - yearoffset;
      var leap := IsLeapYear(year);
      if dayoffset > 365 && !leap {
        year := year + 1;
        continue;
      }
      break;
    }
  }

  // ----- Months

  /** The days of a year before a month. */
  function DaysBefore(year: int, month: nat): int {
    if month <= 1 then 0 else DaysBefore(year, month - 1) + MonthLength(year, month - 1)
  }

  lemma LeapByRule(year: int)
    ensures MonthLength(year, 2) == 28 + Leap(year)
  {
    RemZero(year, 4);
    RemZero(year, 100);
    RemZero(year, 400);
    hide Rem;
  }

  /** Both tables hold what the calendar says, in every year. */
  lemma {:induction false} TablesFollowRule(year: int, month: nat)
    requires 1 <= month <= 13
    ensures MONTH_OFFSET[Leap(year)][month - 1] == DaysBefore(year, month)
    ensures month <= 12 ==> DAYS_IN_MONTH[Leap(year)][month - 1] == MonthLength(year, month)
  {
    LeapByRule(year);
    hide IsLeapYear;
    if month > 1 {
      TablesFollowRule(year, month - 1);
      MonthTables(Leap(year), month - 1);
    }
  }

  /** The two tables agree, and each year length is the offset of month 13. */
  lemma MonthTables(leap: int, month: int)
    requires 0 <= leap <= 1 && 1 <= month <= 12
    ensures MONTH_OFFSET[leap][month] == MONTH_OFFSET[leap][month - 1] + DAYS_IN_MONTH[leap][month - 1]
    ensures DAYS_IN_MONTH[leap][month - 1] >= 28
    ensures MONTH_OFFSET[leap][0] == 0 && MONTH_OFFSET[leap][12] == 365 + leap
  {
  }

  lemma {:induction false} MonthOffsetMonotone(leap: int, a: int, b: int)
    requires 0 <= leap <= 1 && 0 <= a <= b <= 12
    ensures MONTH_OFFSET[leap][a] <= MONTH_OFFSET[leap][b]
    decreases b - a
  {
    if a < b {
      MonthOffsetMonotone(leap, a, b - 1);
      MonthTables(leap, b);
    }
  }

  // ----- Dates and days

  /** Accepted arguments: months 1 to 12 or, from the end of the year, -12 to -1;
      likewise days from either end of the month. */
  lemma DaysFromYmdAccepts(year: int, month: int, day: int)
    ensures DaysFromYmd(year, month, day).error
            <==> !(1 <= month <= 12 || -12 <= month <= -1)
                 || (var m := if month < 0 then month + 13 else month;
                     var n := MonthLength(year, m);
                     !(1 <= day <= n || -n <= day <= -1))
    ensures DaysFromYmd(year, month, day).error ==> DaysFromYmd(year, month, day).value == 0
    ensures !DaysFromYmd(year, month, day).error ==>
              var m := if month < 0 then month + 13 else month;
              var n := MonthLength(year, m);
              var date := Ymd(year, m, if day < 0 then day + n + 1 else day);
              Valid(date) && DaysFromYmd(year, month, day).value == Days(date)
  {
    var m := if month < 0 then month + 13 else month;
    if 1 <= m <= 12 {
      TablesFollowRule(year, m);
    }
    hide YearOffset, IsLeapYear, MonthLength, DaysBefore;
  }

  /** The days of a year lie within it. */
  lemma DaysInYear(a: Date)
    ensures YearOffset(a.year) <= Days(a) < YearOffset(a.year + 1)
  {
    YearLength(a.year);
    DaysOfValid(a);
    hide YearOffset, IsLeapYear, Days, DaysFromYmd;
    MonthTables(Leap(a.year), a.month);
    MonthOffsetMonotone(Leap(a.year), 0, a.month - 1);
    MonthOffsetMonotone(Leap(a.year), a.month, 12);
  }

  lemma MonthsIncreasing(leap: int, a: int, b: int, day: int)
    requires 0 <= leap <= 1 && 1 <= a < b <= 12 && day <= DAYS_IN_MONTH[leap][a - 1]
    ensures MONTH_OFFSET[leap][a - 1] + day <= MONTH_OFFSET[leap][b - 1]
  {
    MonthTables(leap, a);
    MonthOffsetMonotone(leap, a, b - 1);
  }

  lemma DaysOfValid(a: Date)
    ensures Days(a) == a.day - 1 + MONTH_OFFSET[Leap(a.year)][a.month - 1] + YearOffset(a.year)
    ensures DAYS_IN_MONTH[Leap(a.year)][a.month - 1] == MonthLength(a.year, a.month)
  {
    TablesFollowRule(a.year, a.month);
    hide YearOffset, IsLeapYear, MonthLength, DaysBefore;
  }

  lemma DaysOfOneYear(a: Date, b: Date)
    requires Before(a, b) && a.year == b.year
    ensures Days(a) < Days(b)
  {
    hide YearOffset, IsLeapYear, Days;
    DaysOfValid(a);
    DaysOfValid(b);
    if a.month < b.month {
      MonthsIncreasing(Leap(a.year), a.month, b.month, a.day);
    }
  }

  lemma DaysIncreasing(a: Date, b: Date)
    requires Before(a, b)
    ensures Days(a) < Days(b)
  {
    hide YearOffset, IsLeapYear, Leap, Days, Valid;
    if a.year < b.year {
      DaysInYear(a);
      DaysInYear(b);
      YearOffsetMonotone(a.year + 1, b.year);
    } else {
      DaysOfOneYear(a, b);
    }
  }

  /** Date order and day order are the same order. */
  lemma DaysOrder(a: Date, b: Date)
    ensures Before(a, b) <==> Days(a) < Days(b)
    ensures a == b <==> Days(a) == Days(b)
  {
    if Before(a, b) {
      DaysIncreasing(a, b);
    } else if Before(b, a) {
      DaysIncreasing(b, a);
    } else {
      assert a == b;
    }
  }

  lemma EpochDays()
    ensures DaysFromYmd(1970, 1, 1) == Checked(0, false)
    ensures DaysFromYmd(1969, 12, 31) == Checked(-1, false)
  {
  }

  /** The next day in the calendar. */
  function Tomorrow(d: Date): Date {
    if d.day < MonthLength(d.year, d.month) then Ymd(d.year, d.month, d.day + 1)
    else if d.month < 12 then Ymd(d.year, d.month + 1, 1)
    else Ymd(d.year + 1, 1, 1)
  }

  /** Counting from the epoch, every day has the number after that of the day before:
      so the calendar alone says which day has which number. */
  lemma DaysCount(d: Date)
    ensures Days(Ymd(1970, 1, 1)) == 0
    ensures Days(Tomorrow(d)) == Days(d) + 1
  {
    EpochDays();
    hide YearOffset, IsLeapYear, DaysFromYmd;
    assert Days(Ymd(1970, 1, 1)) == 0;
    var t := Tomorrow(d);
    DaysOfValid(d);
    DaysOfValid(t);
    MonthTables(Leap(d.year), d.month);
    MonthTables(Leap(t.year), t.month);
    hide Days, Valid, MonthLength;
    YearLength(d.year);
  }

  /** The month whose table entry first reaches `dayoffset`. */
  function MonthFrom(leap: int, month: int, dayoffset: int): (m: int)
    requires 0 <= leap <= 1 && 1 <= month <= 13
    ensures month <= m <= 13
    decreases 13 - month
  {
    if month < 13 && MONTH_OFFSET[leap][month] < dayoffset then MonthFrom(leap, month + 1, dayoffset)
    else month
  }

  lemma {:induction false} MonthFromCorrect(leap: int, month: int, dayoffset: int)
    requires 0 <= leap <= 1 && 1 <= month <= 12
    requires MONTH_OFFSET[leap][month - 1] < dayoffset <= 365 + leap
    ensures var m := MonthFrom(leap, month, dayoffset);
            m <= 12 && MONTH_OFFSET[leap][m - 1] < dayoffset <= MONTH_OFFSET[leap][m]
    decreases 13 - month
  {
    MonthTables(leap, month);
    if MONTH_OFFSET[leap][month] < dayoffset {
      MonthFromCorrect(leap, month + 1, dayoffset);
    }
  }

  /** The date of a day number: the partner of `Days`. */
  ghost function DateOf(days: int): (r: Date)
    ensures Days(r) == days
  {
    hide YearOffset, IsLeapYear, TrueYear, MonthFrom;
    var d := days + 1;
    var year := TrueYear(d);
    YearLength(year);
    var leap := Leap(year);
    MonthFromCorrect(leap, 1, d - YearOffset(year));
    var month := MonthFrom(leap, 1, d - YearOffset(year));
    MonthTables(leap, month);
    TablesFollowRule(year, month);
    hide MonthLength, DaysBefore;
    Ymd(year, month, d - YearOffset(year) - MONTH_OFFSET[leap][month - 1])
  }

  /** A valid date comes back from its day number. */
  lemma DateOfDays(date: Date)
    ensures DateOf(Days(date)) == date
  {
    DaysOrder(date, DateOf(Days(date)));
  }

  /** The `for` loop over the months. */
  method SearchMonth(leap: int, dayoffset: int) returns (month: int)
    requires 0 <= leap <= 1
    ensures month == MonthFrom(leap, 1, dayoffset)
  {
    month := 1;
    while month < 13
      invariant 1 <= month <= 13
      invariant MonthFrom(leap, month, dayoffset) == MonthFrom(leap, 1, dayoffset)
    {
      if MONTH_OFFSET[leap][month] >= dayoffset {
        break;
      }
      month := month + 1;
    }
  }

  method DaysToYmdStruct(days: int) returns (ymd: Date)
    ensures ymd == DateOf(days)
  {
    hide YearOffset, IsLeapYear, EstimateYear, CorrectYear, Valid, Days, MonthFrom, TrueYear;
    var dlong := days + 1;
    EstimateBounds(dlong);
    CorrectYearFromLate(EstimateYear(dlong), dlong);
    var year := SearchYear(EstimateYear(dlong), dlong);
    YearLength(year);
    var leap := Leap(year);
    var dayoffset := dlong - YearOffset(year);
    MonthFromCorrect(leap, 1, dayoffset);
    var month := SearchMonth(leap, dayoffset);
    var day := dayoffset - MONTH_OFFSET[leap][month - 1];
    assert Ymd(year, month, day) == DateOf(days);
    ymd := Ymd(year, month, day);
  }
}
