/**
 Datetime values in fourteen units and the broken-down struct
 (libndarray/src/npy_datetime.c). A value counts units since 1970-01-01.
 */
module Datetime {
  import opened CInt
  import opened Calendar

  datatype DatetimeUnit =
    | Years | Months | Weeks | BusinessDays | DayUnits | Hours | Minutes | Seconds
    | Millis | Micros | Nanos | Picos | Femtos | Attos

  datatype DatetimeStruct = DatetimeStruct(
    date: Ymd, hour: int, min: int, sec: int, us: int, ps: int, attos: int)

  datatype Hms = Hms(hour: int, min: int, sec: int)

  /** Monday is meant to be 0, but the four added for the epoch is one too many. */
  function DayOfWeek(absdate: int): int {
    var a := absdate + 4;
    if a >= 0 then Rem(a, 7) else 6 + Rem(a + 1, 7)
  }

  function SecondsToHms(t: int): Hms {
    var hour := Div(t, 3600);
    var min := Div(Rem(t, 3600), 60);
    Hms(hour, min, t - (hour * 3600 + min * 60))
  }

  function SecsFromHms(d: DatetimeStruct, multiplier: int): int {
    (d.hour * 3600 + d.min * 60 + d.sec) * multiplier
  }

  function StructToDatetime(fr: DatetimeUnit, d: DatetimeStruct): Checked {
    if fr == Years then Checked(d.date.year - 1970, false)
    else if fr == Months then Checked((d.date.year - 1970) * 12 + d.date.month - 1, false)
    else
      var c := DaysFromYmd(d.date.year, d.date.month, d.date.day);
      Checked(FromDays(fr, c.value, d), c.error)
  }

  /** The units finer than a month, from the day number. */
  function FromDays(fr: DatetimeUnit, days: int, d: DatetimeStruct): int {
    match fr
    case Years => days
    case Months => days
    case Weeks => if days >= 0 then Div(days, 7) else Div(days - 6, 7)
    case BusinessDays =>
      if DayOfWeek(days) > 4 then 0
      else
        var x := if days >= 0 then days - 4 else days - 2;
        2 + Div(x, 7) * 5 + Rem(x, 7)
    case DayUnits => days
    case Hours => days * 24 + d.hour
    case Minutes => days * 1440 + d.hour * 60 + d.min
    case Seconds => days * 86400 + SecsFromHms(d, 1)
    case Millis => days * 86400000 + SecsFromHms(d, 1000) + Div(d.us, 1000)
    case Micros => days * 86400000000 + SecsFromHms(d, 1000000) + d.us
    case Nanos =>
      days * 86400000000000 + SecsFromHms(d, 1000000000) + d.us * 1000 + Div(d.ps, 1000)
    case Picos =>
      days * 86400000000000000 + SecsFromHms(d, 1000000000000) + d.us * 1000000 + d.ps
    case Femtos =>
      var s := if days >= 0 then SecsFromHms(d, 1) else (d.hour - 24) * 3600 + d.min * 60 + d.sec;
      s * 1000000000000000 + d.us * 1000000000 + d.ps * 1000 + Div(d.attos, 1000)
    case Attos =>
      var s := if days >= 0 then d.sec else d.sec - 60;
      s * 1000000000000000000 + d.us * 1000000000000 + d.ps * 1000000 + d.attos
  }

  // ----- What the conversion to a struct computes, by floor division

  const EPOCH := Ymd(1970, 1, 1)
  const EVE := Ymd(1969, 12, 31)

  function WithHms(date: Ymd, t: int, us: int, ps: int, attos: int): DatetimeStruct {
    DatetimeStruct(date, t / 3600, t % 3600 / 60, t % 3600 % 60, us, ps, attos)
  }

  /** The day number of a business day: five days a week from Monday. */
  function BusinessDayNumber(val: int): int {
    7 * ((val + 3) / 5) + (val + 3) % 5 - 3
  }

  /** Milliseconds into the day; before 1970 the remainder is taken by the
      wrong modulus, one less than the milliseconds in a day. */
  function MillisOfDay(val: int): int {
    if val >= 0 then val % 86400000 else val % 86399999 + 1
  }

  /** One formula for both signs of `val`, except where the source takes another
      modulus or another dividend: `Seconds`, `Millis` before 1970, `Nanos`. */
  ghost function StructOf(fr: DatetimeUnit, val: int): DatetimeStruct {
    match fr
    case Years => WithHms(Ymd(1970 + val, 1, 1), 0, 0, 0, 0)
    case Months => WithHms(Ymd(1970 + val / 12, val % 12 + 1, 1), 0, 0, 0, 0)
    case Weeks => WithHms(DateOf(val * 7), 0, 0, 0, 0)
    case BusinessDays => WithHms(DateOf(BusinessDayNumber(val)), 0, 0, 0, 0)
    case DayUnits => WithHms(DateOf(val), 0, 0, 0, 0)
    case Hours => DatetimeStruct(DateOf(val / 24), val % 24, 0, 0, 0, 0, 0)
    case Minutes =>
      DatetimeStruct(DateOf(val / 1440), val % 1440 / 60, val % 1440 % 60, 0, 0, 0, 0)
    case Seconds =>
      var hms := SecondsToHms(val);
      DatetimeStruct(DateOf(val / 86400), hms.hour, hms.min, hms.sec, 0, 0, 0)
    case Millis =>
      var t := MillisOfDay(val);
      WithHms(DateOf(val / 86400000), t / 1000, t % 1000 * 1000, 0, 0)
    case Micros =>
      var t := val % 86400000000;
      WithHms(DateOf(val / 86400000000), t / 1000000, t % 1000000, 0, 0)
    case Nanos =>
      var t := val % 86400000000000000;
      WithHms(DateOf(val / 86400000000000000), t / 1000000000,
              t % 1000000000 / 1000, t % 1000000000 % 1000 * 1000, 0)
    case Picos =>
      var t := val % 86400000000000000;
      WithHms(DateOf(val / 86400000000000000), t / 1000000000000,
              t % 1000000000000 / 1000000, t % 1000000000000 % 1000000, 0)
    case Femtos =>
      var s, t := val / 1000000000000000, val % 1000000000000000;
      var us, ps, attos := t / 1000000000, t % 1000000000 / 1000, t % 1000000000 % 1000 * 1000;
      if val >= 0 then WithHms(EPOCH, s, us, ps, attos)
      else DatetimeStruct(EVE, 24 + s / 3600, s % 3600 / 60, s % 3600 % 60, us, ps, attos)
    case Attos =>
      var s, t := val / 1000000000000000000, val % 1000000000000000000;
      var us, ps, attos := t / 1000000000000, t % 1000000000000 / 1000000, t % 1000000000000 % 1000000;
      if val >= 0 then DatetimeStruct(EPOCH, 0, 0, s, us, ps, attos)
      else DatetimeStruct(EVE, 23, 59, 60 + s, us, ps, attos)
  }

  /** For a count of seconds from 0 on, the C split is the usual one. */
  lemma SecondsToHmsFloor(t: int)
    requires t >= 0
    ensures SecondsToHms(t) == Hms(t / 3600, t % 3600 / 60, t % 3600 % 60)
  {
  }

  /** `val / n` days and `val % n` units into the day, for either sign: the
      branch every unit of an hour or less repeats. */
  method SplitDay(val: int, n: int) returns (ymd: Ymd, rest: int)
    requires n > 0
    ensures ymd == DateOf(val / n) && rest == val % n
  {
    hide *;
    if val >= 0 {
      NonNegative(val, n);
      ymd := DaysToYmdStruct(Div(val, n));
      rest := Rem(val, n);
    } else {
      FloorIdiom(val, n);
      ymd := DaysToYmdStruct(Div(val - (n - 1), n));
      rest := (n - 1) + Rem(val + 1, n);
    }
  }

  method SplitSeconds(t: int) returns (hour: int, min: int, sec: int)
    requires t >= 0
    ensures hour == t / 3600 && min == t % 3600 / 60 && sec == t % 3600 % 60
  {
    SecondsToHmsFloor(t);
    var hms := SecondsToHms(t);
    hour, min, sec := hms.hour, hms.min, hms.sec;
  }

  /** Seconds and the femtoseconds below, with the eve of the epoch as the only
      earlier day. */
  method SplitFemtos(val: int) returns (r: DatetimeStruct)
    ensures r == StructOf(Femtos, val)
  {
    hide DateOf, Div, Rem;
    var num2 := 1000000000000000;
    var ymd, hour, min, sec, tmp := EPOCH, 0, 0, 0, 0;
    if val >= 0 {
      NonNegative(val, num2);
      tmp := Rem(val, num2);
      hour, min, sec := SplitSeconds(Div(val, num2));
    } else {
      FloorIdiom(val, num2);
      ymd := EVE;
      sec := Div(val - (num2 - 1), num2);
      tmp := (num2 - 1) + Rem(val + 1, num2);
      if sec == 0 {
        hour, min, sec := 23, 59, 59;
      } else {
        FloorIdiom(sec, 3600);
        hour := 24 + Div(sec - 3599, 3600);
        sec := 3599 + Rem(sec + 1, 3600);
        NonNegative(sec, 60);
        min := Div(sec, 60);
        sec := Rem(sec, 60);
      }
    }
    NonNegative(tmp, 1000000000);
    var us := Div(tmp, 1000000000);
    tmp := Rem(tmp, 1000000000);
    NonNegative(tmp, 1000);
    r := DatetimeStruct(ymd, hour, min, sec, us, Div(tmp, 1000), Rem(tmp, 1000) * 1000);
  }

  method SplitAttos(val: int) returns (r: DatetimeStruct)
    ensures r == StructOf(Attos, val)
  {
    hide DateOf, Div, Rem;
    var num1, num2, num3 := 1000000, 1000000000000, 1000000000000000000;
    var ymd, hour, min, sec, tmp := EPOCH, 0, 0, 0, 0;
    if val >= 0 {
      NonNegative(val, num3);
      sec := Div(val, num3);
      tmp := Rem(val, num3);
    } else {
      FloorIdiom(val, num3);
      ymd, hour, min := EVE, 23, 59;
      sec := 60 + Div(val - (num3 - 1), num3);
      tmp := (num3 - 1) + Rem(val + 1, num3);
    }
    NonNegative(tmp, num2);
    var us := Div(tmp, num2);
    tmp := Rem(tmp, num2);
    NonNegative(tmp, num1);
    r := DatetimeStruct(ymd, hour, min, sec, us, Div(tmp, num1), Rem(tmp, num1));
  }

  /** Both C branches of the business-day count are one floor formula. */
  method BusinessToDays(val: int) returns (absdays: int)
    ensures absdays == BusinessDayNumber(val)
  {
    if val >= 0 {
      absdays := 7 * Div(val + 3, 5) + Rem(val + 3, 5) - 3;
    } else {
      absdays := 7 * Div(val - 1, 5) + Rem(val - 1, 5) + 1;
    }
  }

  lemma MinutesOfDay(m: int)
    ensures m * 60 / 3600 == m / 60 && m * 60 % 3600 / 60 == m % 60
  {
  }

  /** Hours, minutes, seconds and milliseconds. */
  method ClockToStruct(val: int, fr: DatetimeUnit) returns (r: DatetimeStruct)
    requires fr.Hours? || fr.Minutes? || fr.Seconds? || fr.Millis?
    ensures r == StructOf(fr, val)
  {
    hide DateOf, Div, Rem;
    var ymd, hour, min, sec, us, tmp := EPOCH, 0, 0, 0, 0, 0;
    match fr {
      case Hours =>
        ymd, hour := SplitDay(val, 24);
      case Minutes =>
        ymd, min := SplitDay(val, 1440);
        MinutesOfDay(min);
        hour, min, tmp := SplitSeconds(min * 60);
      case Seconds =>
        ymd, sec := SplitDay(val, 86400);
        var hms := SecondsToHms(val);
        hour, min, sec := hms.hour, hms.min, hms.sec;
      case Millis =>
        ymd, tmp := SplitDay(val, 86400000);
        if val < 0 {
          FloorIdiom(val, 86399999);
          tmp := 86399999 + Rem(val + 1, 86399999);
        }
        NonNegative(tmp, 1000);
        hour, min, sec := SplitSeconds(Div(tmp, 1000));
        us := Rem(tmp, 1000) * 1000;
    }
    r := DatetimeStruct(ymd, hour, min, sec, us, 0, 0);
  }

  method MicrosToStruct(val: int) returns (r: DatetimeStruct)
    ensures r == StructOf(Micros, val)
  {
    hide DateOf, Div, Rem;
    var ymd, tmp := SplitDay(val, 86400000000);
    NonNegative(tmp, 1000000);
    var hour, min, sec := SplitSeconds(Div(tmp, 1000000));
    r := DatetimeStruct(ymd, hour, min, sec, Rem(tmp, 1000000), 0, 0);
  }

  method NanosToStruct(val: int) returns (r: DatetimeStruct)
    ensures r == StructOf(Nanos, val)
  {
    hide DateOf, Div, Rem;
    var ymd, tmp := SplitDay(val, 86400000 * 1000000000);
    NonNegative(tmp, 1000000000);
    var hour, min, sec := SplitSeconds(Div(tmp, 1000000000));
    tmp := Rem(tmp, 1000000000);
    NonNegative(tmp, 1000);
    r := DatetimeStruct(ymd, hour, min, sec, Div(tmp, 1000), Rem(tmp, 1000) * 1000, 0);
  }

  method PicosToStruct(val: int) returns (r: DatetimeStruct)
    ensures r == StructOf(Picos, val)
  {
    hide DateOf, Div, Rem;
    var ymd, tmp := SplitDay(val, 86400 * 1000000000000);
    NonNegative(tmp, 1000000000000);
    var hour, min, sec := SplitSeconds(Div(tmp, 1000000000000));
    tmp := Rem(tmp, 1000000000000);
    NonNegative(tmp, 1000000);
    r := DatetimeStruct(ymd, hour, min, sec, Div(tmp, 1000000), Rem(tmp, 1000000), 0);
  }

  /** The whole conversion; the C branches are the methods above. */
  method DatetimeToStruct(val: int, fr: DatetimeUnit) returns (result: DatetimeStruct)
    ensures result == StructOf(fr, val)
  {
    hide DateOf, Div, Rem;
    var ymd := EPOCH;
    match fr {
      case Years =>
        ymd := Ymd(1970 + val, 1, 1);
      case Months =>
        if val >= 0 {
          NonNegative(val, 12);
          ymd := Ymd(1970 + Div(val, 12), Rem(val, 12) + 1, 1);
        } else {
          TruncatedYears(val);
          ymd := Ymd(1969 + Div(val + 1, 12), 12 + Rem(val + 1, 12), 1);
        }
      case Weeks =>
        ymd := DaysToYmdStruct(val * 7);
      case BusinessDays =>
        var absdays := BusinessToDays(val);
        ymd := DaysToYmdStruct(absdays);
      case DayUnits =>
        ymd := DaysToYmdStruct(val);
      case Micros => result := MicrosToStruct(val); return;
      case Nanos => result := NanosToStruct(val); return;
      case Picos => result := PicosToStruct(val); return;
      case Femtos => result := SplitFemtos(val); return;
      case Attos => result := SplitAttos(val); return;
      case _ => result := ClockToStruct(val, fr); return;
    }
    result := WithHms(ymd, 0, 0, 0, 0);
  }

  lemma TruncatedYears(val: int)
    requires val < 0
    ensures 1969 + Div(val + 1, 12) == 1970 + val / 12
    ensures 12 + Rem(val + 1, 12) == val % 12 + 1
  {
  }

  // ----- There and back

  /** When a value comes back from its struct: always, but for four units. */
  predicate ComesBack(fr: DatetimeUnit, val: int) {
    match fr
    // The clock time is taken from the whole value.
    case Seconds => 0 <= val < 86400
    // The remainder before 1970 is taken by one millisecond too few.
    case Millis => val >= 0 || ((-1 - val / 86400000) % 86399999 == 0 && val % 86400000 != 0)
    // A day is given a thousand times its nanoseconds.
    case Nanos => 0 <= val < 86400000000000000
    // Fridays count as invalid, and the epoch itself is mapped to -2.
    case BusinessDays => val != 0 && val % 5 != 1
    case _ => true
  }

  function Back(fr: DatetimeUnit, d: DatetimeStruct): int {
    StructToDatetime(fr, d).value
  }

  lemma DateBack(fr: DatetimeUnit, days: int, d: DatetimeStruct)
    requires d.date == DateOf(days) && !fr.Years? && !fr.Months?
    ensures StructToDatetime(fr, d) == Checked(FromDays(fr, days, d), false)
  {
    hide YearOffset, FromDays;
  }

  lemma WeeksBack(val: int, d: DatetimeStruct)
    ensures FromDays(Weeks, val * 7, d) == val
  {
  }

  lemma DayOfWeekFloor(n: int)
    ensures DayOfWeek(n) == (n + 4) % 7
  {
  }

  lemma BusinessDaysBack(val: int, d: DatetimeStruct)
    ensures FromDays(BusinessDays, BusinessDayNumber(val), d) == val <==> val != 0 && val % 5 != 1
  {
    hide DayOfWeek, Div, Rem;
    var q, r := (val + 3) / 5, (val + 3) % 5;
    DayOfWeekFloor(BusinessDayNumber(val));
    BusinessRemainders(q, r);
    assert val == 5 * q + r - 3;
    assert BusinessDayNumber(val) == 0 <==> val == 0;
    assert val % 5 == 1 <==> r == 4;
  }

  /** Day `7q + r - 3` is day `r` (Monday first) of a week: the struct-to-value
      branch finds its number again, except on Fridays (`r == 4`) and at the epoch. */
  lemma BusinessRemainders(q: int, r: int)
    requires 0 <= r < 5
    ensures (7 * q + r - 3 + 4) % 7 == r + 1
    ensures var days := 7 * q + r - 3;
            var x := if days >= 0 then days - 4 else days - 2;
            r != 4 ==> (2 + Div(x, 7) * 5 + Rem(x, 7) == 5 * q + r - 3 <==> days != 0)
  {
    var days := 7 * q + r - 3;
    QuotientUnique(days + 4, 7, q, r + 1);
    if days >= 4 {
      NonNegative(days - 4, 7);
      QuotientUnique(days - 4, 7, q - 1, r);
    } else if days >= 0 {
      FirstWorkingDays(days);
    } else {
      Negative(days - 2, 7);
      QuotientUnique(2 - days, 7, -q, 5 - r);
    }
    hide Div, Rem;
  }

  /** The days from the epoch to Sunday. */
  lemma FirstWorkingDays(days: int)
    requires 0 <= days < 4
    ensures Div(days - 4, 7) == 0 && Rem(days - 4, 7) == days - 4
  {
  }

  lemma ClockSum(t: int)
    ensures t / 3600 * 3600 + t % 3600 / 60 * 60 + t % 3600 % 60 == t
  {
  }

  /** A clock time given by seconds `t` counts as `t` seconds. */
  lemma SecsOfClock(date: Ymd, t: int, us: int, ps: int, attos: int, multiplier: int)
    ensures SecsFromHms(WithHms(date, t, us, ps, attos), multiplier) == t * multiplier
  {
  }

  lemma SecondsSum(val: int)
    ensures var h := SecondsToHms(val); h.hour * 3600 + h.min * 60 + h.sec == val
  {
  }

  /** Milliseconds before 1970: both remainders of `w` agree only when the
      whole days in `w` are a multiple of the smaller modulus. */
  lemma MillisBack(val: int)
    requires val < 0
    ensures val % 86399999 + 1 == val % 86400000
            <==> (-1 - val / 86400000) % 86399999 == 0 && val % 86400000 != 0
  {
  }

  /** Every value in every unit: the struct converts back, without an error, to
      the value it came from exactly when `ComesBack` holds. */
  lemma RoundTrip(fr: DatetimeUnit, val: int)
    ensures !StructToDatetime(fr, StructOf(fr, val)).error
    ensures StructToDatetime(fr, StructOf(fr, val)).value == val <==> ComesBack(fr, val)
  {
    match fr {
      case Seconds =>
        SecondsRoundTrip(val);
      case Millis =>
        MillisRoundTrip(val);
      case Micros =>
        MicrosRoundTrip(val);
      case Nanos =>
        NanosRoundTrip(val);
      case Picos =>
        PicosRoundTrip(val);
      case Femtos =>
        FemtosRoundTrip(val);
      case Attos =>
        AttosRoundTrip(val);
      case _ =>
        CoarseRoundTrip(fr, val);
    }
  }

  predicate Coarse(fr: DatetimeUnit) {
    fr.Years? || fr.Months? || fr.Weeks? || fr.BusinessDays? || fr.DayUnits? || fr.Hours? || fr.Minutes?
  }

  predicate RoundTripExact(fr: DatetimeUnit, val: int, d: DatetimeStruct) {
    !StructToDatetime(fr, d).error && (StructToDatetime(fr, d).value == val <==> ComesBack(fr, val))
  }

  lemma CoarseRoundTrip(fr: DatetimeUnit, val: int)
    requires Coarse(fr)
    ensures RoundTripExact(fr, val, StructOf(fr, val))
  {
    hide DateOf, DaysFromYmd, Div, Rem;
    var d := StructOf(fr, val);
    match fr {
      case Weeks =>
        DateBack(fr, val * 7, d);
        WeeksBack(val, d);
      case BusinessDays =>
        DateBack(fr, BusinessDayNumber(val), d);
        BusinessDaysBack(val, d);
      case DayUnits =>
        DateBack(fr, val, d);
      case Hours =>
        DateBack(fr, val / 24, d);
      case Minutes =>
        DateBack(fr, val / 1440, d);
      case _ =>
    }
  }

  lemma SecondsRoundTrip(val: int)
    ensures RoundTripExact(Seconds, val, StructOf(Seconds, val))
  {
    hide DateOf, SecondsToHms, DaysFromYmd, Div, Rem, DayOfWeek, BusinessDayNumber, MillisOfDay;
    DateBack(Seconds, val / 86400, StructOf(Seconds, val));
    SecondsSum(val);
  }

  lemma MillisRoundTrip(val: int)
    ensures RoundTripExact(Millis, val, StructOf(Millis, val))
  {
    hide DateOf, DaysFromYmd, Div, Rem, SecondsToHms, DayOfWeek, BusinessDayNumber;
    var t := MillisOfDay(val);
    var d := StructOf(Millis, val);
    DateBack(Millis, val / 86400000, d);
    SecsOfClock(d.date, t / 1000, d.us, 0, 0, 1000);
    NonNegative(d.us, 1000);
    if val < 0 {
      MillisBack(val);
    }
  }

  lemma MicrosRoundTrip(val: int)
    ensures RoundTripExact(Micros, val, StructOf(Micros, val))
  {
    hide DateOf, DaysFromYmd, Div, Rem, SecondsToHms, DayOfWeek, BusinessDayNumber;
    var t := val % 86400000000;
    var d := StructOf(Micros, val);
    DateBack(Micros, val / 86400000000, d);
    SecsOfClock(d.date, t / 1000000, d.us, 0, 0, 1000000);
  }

  lemma NanosSum(t: int)
    ensures t / 1000000000 * 1000000000 + t % 1000000000 / 1000 * 1000
            + t % 1000000000 % 1000 * 1000 / 1000 == t
  {
  }

  lemma NanosRoundTrip(val: int)
    ensures RoundTripExact(Nanos, val, StructOf(Nanos, val))
  {
    hide DateOf, DaysFromYmd, Div, Rem, SecondsToHms, DayOfWeek, BusinessDayNumber;
    var days, t := val / 86400000000000000, val % 86400000000000000;
    var d := StructOf(Nanos, val);
    DateBack(Nanos, days, d);
    SecsOfClock(d.date, t / 1000000000, d.us, d.ps, 0, 1000000000);
    NonNegative(d.ps, 1000);
    NanosSum(t);
    assert FromDays(Nanos, days, d) == days * 86400000000000 + t;
    hide StructOf, FromDays;
    assert val == days * 86400000000000000 + t;
  }

  lemma PicosRoundTrip(val: int)
    ensures RoundTripExact(Picos, val, StructOf(Picos, val))
  {
    hide DateOf, DaysFromYmd, Div, Rem, SecondsToHms, DayOfWeek, BusinessDayNumber;
    var t := val % 86400000000000000;
    var d := StructOf(Picos, val);
    DateBack(Picos, val / 86400000000000000, d);
    SecsOfClock(d.date, t / 1000000000000, d.us, d.ps, 0, 1000000000000);
  }

  lemma FemtosRoundTrip(val: int)
    ensures RoundTripExact(Femtos, val, StructOf(Femtos, val))
  {
    EpochDays();
    hide DateOf, DaysFromYmd, Div, Rem;
    var d := StructOf(Femtos, val);
    var s, t := val / 1000000000000000, val % 1000000000000000;
    ClockSum(s);
    NonNegative(d.attos, 1000);
  }

  lemma AttosRoundTrip(val: int)
    ensures RoundTripExact(Attos, val, StructOf(Attos, val))
  {
    EpochDays();
    hide DateOf, DaysFromYmd, Div, Rem;
  }

  /** One value for each unit whose round trip is not the identity. */
  lemma RoundTripFailures()
    ensures StructToDatetime(Seconds, StructOf(Seconds, 86400)).value != 86400
    ensures StructToDatetime(Millis, StructOf(Millis, -86400000)).value != -86400000
    ensures StructToDatetime(Nanos, StructOf(Nanos, 86400000000000000)).value != 86400000000000000
    ensures StructToDatetime(BusinessDays, StructOf(BusinessDays, 1)).value != 1
  {
    hide StructToDatetime, StructOf;
    RoundTrip(Seconds, 86400);
    RoundTrip(Millis, -86400000);
    RoundTrip(Nanos, 86400000000000000);
    RoundTrip(BusinessDays, 1);
  }

  // ----- Fields in range

  predicate Normal(d: DatetimeStruct) {
    && Valid(d.date)
    && 0 <= d.hour < 24 && 0 <= d.min < 60 && 0 <= d.sec < 60
    && 0 <= d.us < 1000000 && 0 <= d.ps < 1000000 && 0 <= d.attos < 1000000
  }

  /** Values whose struct has every field in its calendar range. The two finest
      units are meant for less than a day and less than a minute around the epoch. */
  predicate FieldsInRange(fr: DatetimeUnit, val: int) {
    match fr
    case Seconds => 0 <= val < 86400
    case Nanos => val % 86400000000000000 < 86400000000000
    case Femtos => -86400000000000000000 <= val < 86400000000000000000
    case Attos => -60000000000000000000 <= val < 60000000000000000000
    case _ => true
  }

  lemma ClockInRange(t: int)
    ensures 0 <= t % 3600 / 60 < 60 && 0 <= t % 3600 % 60 < 60
    ensures 0 <= t / 3600 < 24 <==> 0 <= t < 86400
  {
  }

  lemma SecondsInRange(val: int)
    ensures var h := SecondsToHms(val);
            0 <= h.hour < 24 && 0 <= h.min < 60 && 0 <= h.sec < 60 <==> 0 <= val < 86400
  {
  }

  lemma DateOfValid(days: int)
    ensures Valid(DateOf(days)) && Valid(EPOCH) && Valid(EVE)
    ensures forall y: int, m :: 1 <= m <= 12 ==> Valid(Ymd(y, m, 1))
  {
    hide DateOf;
  }

  lemma NormalExact(fr: DatetimeUnit, val: int)
    ensures Normal(StructOf(fr, val)) <==> FieldsInRange(fr, val)
  {
    DateOfValid(0);
    hide DateOf, Valid, SecondsToHms, BusinessDayNumber;
    match fr {
      case Seconds => SecondsInRange(val);
      case Millis => ClockInRange(MillisOfDay(val) / 1000);
      case Micros => ClockInRange(val % 86400000000 / 1000000);
      case Nanos => ClockInRange(val % 86400000000000000 / 1000000000);
      case Picos => ClockInRange(val % 86400000000000000 / 1000000000000);
      case Femtos =>
        FemtosNormal(val);
        hide StructOf;
      case Attos =>
        AttosNormal(val);
        hide StructOf;
      case _ =>
    }
  }

  lemma FemtosNormal(val: int)
    ensures Normal(StructOf(Femtos, val)) <==> FieldsInRange(Femtos, val)
  {
    DateOfValid(0);
    ClockInRange(val / 1000000000000000);
    hide DateOf, Valid, SecondsToHms, BusinessDayNumber;
  }

  lemma AttosNormal(val: int)
    ensures Normal(StructOf(Attos, val)) <==> FieldsInRange(Attos, val)
  {
    DateOfValid(0);
    hide DateOf, Valid, SecondsToHms, BusinessDayNumber;
  }

  // ----- From a struct and back

  /** Units of an hour or less, from the longest on. */
  function Fineness(fr: DatetimeUnit): nat {
    match fr
    case Hours => 1
    case Minutes => 2
    case Seconds => 3
    case Millis => 4
    case Micros => 5
    case Nanos => 6
    case Picos => 7
    case Femtos => 8
    case Attos => 9
    case _ => 0
  }

  /** What is below the unit is at its start. */
  predicate NothingFiner(fr: DatetimeUnit, d: DatetimeStruct) {
    var f := Fineness(fr);
    && (f < 9 ==> d.attos % 1000 == 0) && (f < 8 ==> d.attos == 0)
    && (f < 7 ==> d.ps % 1000 == 0) && (f < 6 ==> d.ps == 0)
    && (f < 5 ==> d.us % 1000 == 0) && (f < 4 ==> d.us == 0)
    && (f < 3 ==> d.sec == 0) && (f < 2 ==> d.min == 0) && (f < 1 ==> d.hour == 0)
    && (fr.Months? || fr.Years? ==> d.date.day == 1)
    && (fr.Years? ==> d.date.month == 1)
  }

  lemma MultipleOf(a: int)
    ensures a * 1000 % 1000 == 0
  {
  }

  /** The struct of a value has nothing finer than its unit. */
  lemma StructNothingFiner(fr: DatetimeUnit, val: int)
    ensures NothingFiner(fr, StructOf(fr, val))
  {
    hide DateOf, Div, Rem, BusinessDayNumber;
    match fr {
      case Millis => MultipleOf(MillisOfDay(val) % 1000);
      case Nanos => MultipleOf(val % 86400000000000000 % 1000000000 % 1000);
      case Femtos => MultipleOf(val % 1000000000000000 % 1000000000 % 1000);
      case _ =>
    }
  }

  predicate Invertible(fr: DatetimeUnit) {
    fr.Years? || fr.Months? || fr.DayUnits? || fr.Hours? || fr.Minutes? || fr.Micros? || fr.Picos?
  }

  /** A clock time is determined by its seconds. */
  lemma ClockUnique(hour: int, min: int, sec: int)
    requires 0 <= min < 60 && 0 <= sec < 60
    ensures var t := hour * 3600 + min * 60 + sec;
            t / 3600 == hour && t % 3600 / 60 == min && t % 3600 % 60 == sec
  {
  }

  lemma DayPart(days: int, n: int, rest: int)
    requires 0 <= rest < n
    ensures (days * n + rest) / n == days && (days * n + rest) % n == rest
  {
    QuotientUnique(days * n + rest, n, days, rest);
  }

  lemma DateAndBack(fr: DatetimeUnit, d: DatetimeStruct)
    requires Valid(d.date) && !fr.Years? && !fr.Months?
    ensures DateOf(Days(d.date)) == d.date
    ensures StructToDatetime(fr, d).value == FromDays(fr, Days(d.date), d)
  {
    hide FromDays, YearOffset, IsLeapYear;
    DateOfDays(d.date);
  }

  /** Hours and minutes; `days` is the day number of the date. */
  lemma HoursMinutesUnique(d: DatetimeStruct, days: int)
    requires d.date == DateOf(days) && 0 <= d.hour < 24 && 0 <= d.min < 60
    requires d.sec == 0 && d.us == 0 && d.ps == 0 && d.attos == 0
    ensures d.min == 0 ==> StructOf(Hours, FromDays(Hours, days, d)) == d
    ensures StructOf(Minutes, FromDays(Minutes, days, d)) == d
  {
    hide DateOf, Valid, Div, Rem, SecondsToHms, DayOfWeek, MillisOfDay, BusinessDayNumber;
    DayPart(days, 24, d.hour);
    DayPart(days, 1440, d.hour * 60 + d.min);
  }

  lemma MicrosUnique(d: DatetimeStruct, days: int)
    requires d.date == DateOf(days) && 0 <= d.hour < 24 && 0 <= d.min < 60 && 0 <= d.sec < 60
    requires 0 <= d.us < 1000000 && d.ps == 0 && d.attos == 0
    ensures StructOf(Micros, FromDays(Micros, days, d)) == d
  {
    hide DateOf, Valid, Div, Rem, SecondsToHms, DayOfWeek, MillisOfDay, BusinessDayNumber;
    var t := d.hour * 3600 + d.min * 60 + d.sec;
    ClockUnique(d.hour, d.min, d.sec);
    DayPart(t, 1000000, d.us);
    DayPart(days, 86400000000, t * 1000000 + d.us);
  }

  lemma PicosUnique(d: DatetimeStruct, days: int)
    requires d.date == DateOf(days) && 0 <= d.hour < 24 && 0 <= d.min < 60 && 0 <= d.sec < 60
    requires 0 <= d.us < 1000000 && 0 <= d.ps < 1000000 && d.attos == 0
    ensures StructOf(Picos, FromDays(Picos, days, d)) == d
  {
    hide DateOf, Valid, Div, Rem, SecondsToHms, DayOfWeek, MillisOfDay, BusinessDayNumber;
    var t, sub := d.hour * 3600 + d.min * 60 + d.sec, d.us * 1000000 + d.ps;
    ClockUnique(d.hour, d.min, d.sec);
    DayPart(d.us, 1000000, d.ps);
    DayPart(t, 1000000000000, sub);
    DayPart(days, 86400000000000000, t * 1000000000000 + sub);
  }

  lemma YearsMonthsUnique(d: DatetimeStruct)
    requires Normal(d)
    ensures NothingFiner(Years, d) ==> StructOf(Years, StructToDatetime(Years, d).value) == d
    ensures NothingFiner(Months, d) ==> StructOf(Months, StructToDatetime(Months, d).value) == d
  {
    assert 1 <= d.date.month <= 12;
    hide DateOf, Valid, Div, Rem, DaysFromYmd, SecondsToHms, DayOfWeek, MillisOfDay, BusinessDayNumber;
    var years := d.date.year - 1970;
    QuotientUnique(years * 12 + d.date.month - 1, 12, years, d.date.month - 1);
  }

  /** Distinct values have distinct structs and every normal struct without finer
      fields is reached: for these units the two conversions are inverse. */
  lemma StructRoundTrip(fr: DatetimeUnit, d: DatetimeStruct)
    requires Normal(d) && Invertible(fr) && NothingFiner(fr, d)
    ensures StructOf(fr, StructToDatetime(fr, d).value) == d
  {
    if fr.Years? || fr.Months? {
      YearsMonthsUnique(d);
    } else {
      DateAndBack(fr, d);
      var days := Days(d.date);
      hide DateOf, Days, Valid, Div, Rem, StructToDatetime, StructOf, FromDays;
      match fr {
        case DayUnits => DayUnique(d, days);
        case Micros => MicrosUnique(d, days);
        case Picos => PicosUnique(d, days);
        case _ => HoursMinutesUnique(d, days);
      }
    }
  }

  lemma DayUnique(d: DatetimeStruct, days: int)
    requires d == DatetimeStruct(DateOf(days), 0, 0, 0, 0, 0, 0)
    ensures StructOf(DayUnits, FromDays(DayUnits, days, d)) == d
  {
    hide DateOf, Div, Rem, SecondsToHms, DayOfWeek, MillisOfDay, BusinessDayNumber;
  }

  // ----- Units among themselves

  /** The struct counted in the unit `fine` and rounded down to a multiple of `n` is
      the struct counted in the unit `coarse`. */
  predicate Coarsens(coarse: DatetimeUnit, fine: DatetimeUnit, n: int, d: DatetimeStruct)
    requires n > 0
  {
    Back(coarse, d) == Back(fine, d) / n
  }

  /** One step of the ladder of units: `rest` of the finer unit are left over. */
  lemma OneRung(coarse: DatetimeUnit, fine: DatetimeUnit, n: int, d: DatetimeStruct, rest: int)
    requires 0 <= rest < n && Valid(d.date)
    requires !coarse.Years? && !coarse.Months? && !fine.Years? && !fine.Months?
    requires FromDays(fine, Days(d.date), d) == n * FromDays(coarse, Days(d.date), d) + rest
    ensures Coarsens(coarse, fine, n, d)
  {
    DateAndBack(coarse, d);
    DateAndBack(fine, d);
    hide StructToDatetime, FromDays, Valid, Days;
    QuotientUnique(Back(fine, d), n, Back(coarse, d), rest);
  }

  lemma CoarseRungs(d: DatetimeStruct)
    requires Normal(d)
    ensures Coarsens(Years, Months, 12, d) && Coarsens(Weeks, DayUnits, 7, d)
    ensures Coarsens(DayUnits, Hours, 24, d) && Coarsens(Hours, Minutes, 60, d)
  {
    assert 1 <= d.date.month <= 12;
    hide DaysFromYmd, DayOfWeek, Valid;
    var years, days := d.date.year - 1970, Days(d.date);
    QuotientUnique(years * 12 + d.date.month - 1, 12, years, d.date.month - 1);
    WeekOf(days, d);
    OneRung(Weeks, DayUnits, 7, d, days % 7);
    OneRung(DayUnits, Hours, 24, d, d.hour);
    OneRung(Hours, Minutes, 60, d, d.min);
  }

  lemma WeekOf(days: int, d: DatetimeStruct)
    ensures FromDays(Weeks, days, d) == days / 7
  {
    if days < 0 {
      FloorIdiom(days, 7);
    }
  }

  lemma FineRungs(d: DatetimeStruct)
    requires Normal(d)
    ensures Coarsens(Minutes, Seconds, 60, d) && Coarsens(Seconds, Millis, 1000, d)
    ensures Coarsens(Millis, Micros, 1000, d) && Coarsens(Micros, Nanos, 1000, d)
    ensures Coarsens(Nanos, Picos, 1000, d)
  {
    NonNegative(d.us, 1000);
    NonNegative(d.ps, 1000);
    hide DaysFromYmd, DayOfWeek, Valid, Div, Rem;
    OneRung(Minutes, Seconds, 60, d, d.sec);
    OneRung(Seconds, Millis, 1000, d, d.us / 1000);
    OneRung(Millis, Micros, 1000, d, d.us % 1000);
    OneRung(Micros, Nanos, 1000, d, d.ps / 1000);
    OneRung(Nanos, Picos, 1000, d, d.ps % 1000);
  }

  /** Femtoseconds are counted from the epoch, or back to it, within one day. */
  lemma FemtosRung(d: DatetimeStruct)
    requires Normal(d)
    ensures Coarsens(Picos, Femtos, 1000, d) <==> -1 <= Days(d.date) <= 0
  {
    NonNegative(d.attos, 1000);
    var days := Days(d.date);
    DateAndBack(Picos, d);
    DateAndBack(Femtos, d);
    hide DaysFromYmd, DayOfWeek, Valid, Div, Rem, StructToDatetime, Days;
    var t := d.hour * 3600 + d.min * 60 + d.sec;
    var s := if days >= 0 then t else t - 86400;
    QuotientUnique(Back(Femtos, d), 1000, s * 1000000000000 + d.us * 1000000 + d.ps, d.attos / 1000);
  }

  /** Attoseconds likewise, within one minute. */
  lemma AttosRung(d: DatetimeStruct)
    requires Normal(d)
    ensures Coarsens(Femtos, Attos, 1000, d)
            <==> if Days(d.date) >= 0 then d.hour == d.min == 0 else d.hour == 23 && d.min == 59
  {
    NonNegative(d.attos, 1000);
    var days := Days(d.date);
    DateAndBack(Femtos, d);
    DateAndBack(Attos, d);
    hide DaysFromYmd, DayOfWeek, Valid, Div, Rem, StructToDatetime, Days;
    var z := if days >= 0 then d.sec else d.sec - 60;
    QuotientUnique(Back(Attos, d), 1000,
                   z * 1000000000000000 + d.us * 1000000000 + d.ps * 1000 + d.attos / 1000, d.attos % 1000);
  }

  /** Every struct is counted alike in all units but that of business days: the number
      in a coarser unit is that in the next finer one, rounded down. It does for the two
      finest units exactly around the epoch. */
  lemma UnitsAgree(d: DatetimeStruct)
    requires Normal(d)
    ensures Coarsens(Years, Months, 12, d) && Coarsens(Weeks, DayUnits, 7, d)
    ensures Coarsens(DayUnits, Hours, 24, d) && Coarsens(Hours, Minutes, 60, d)
    ensures Coarsens(Minutes, Seconds, 60, d) && Coarsens(Seconds, Millis, 1000, d)
    ensures Coarsens(Millis, Micros, 1000, d) && Coarsens(Micros, Nanos, 1000, d)
    ensures Coarsens(Nanos, Picos, 1000, d)
    ensures Coarsens(Picos, Femtos, 1000, d) <==> -1 <= Days(d.date) <= 0
    ensures Coarsens(Femtos, Attos, 1000, d)
            <==> if Days(d.date) >= 0 then d.hour == d.min == 0 else d.hour == 23 && d.min == 59
  {
    hide Coarsens, Normal;
    CoarseRungs(d);
    FineRungs(d);
    FemtosRung(d);
    AttosRung(d);
  }

  /** `n` of the unit `fine` make one of the unit `coarse`. */
  predicate Rung(coarse: DatetimeUnit, fine: DatetimeUnit, n: int) {
    match coarse
    case Years => fine.Months? && n == 12
    case Weeks => fine.DayUnits? && n == 7
    case DayUnits => fine.Hours? && n == 24
    case Hours => fine.Minutes? && n == 60
    case Minutes => fine.Seconds? && n == 60
    case Seconds => fine.Millis? && n == 1000
    case Millis => fine.Micros? && n == 1000
    case Micros => fine.Nanos? && n == 1000
    case Nanos => fine.Picos? && n == 1000
    case Picos => fine.Femtos? && n == 1000
    case Femtos => fine.Attos? && n == 1000
    case _ => false
  }

  /** A value that goes through its struct to the next coarser unit is divided, for every
      value that would come back and has all fields in range. */
  lemma Recount(coarse: DatetimeUnit, fine: DatetimeUnit, n: int, val: int)
    requires Rung(coarse, fine, n) && ComesBack(fine, val) && FieldsInRange(fine, val)
    ensures Back(coarse, StructOf(fine, val)) == val / n
  {
    hide StructToDatetime, StructOf, ComesBack, FieldsInRange, Normal, Days;
    RoundTrip(fine, val);
    NormalExact(fine, val);
    UnitsAgree(StructOf(fine, val));
    if fine.Femtos? || fine.Attos? {
      FinestStruct(fine, val);
    }
  }

  lemma FinestStruct(fr: DatetimeUnit, val: int)
    requires fr.Femtos? || fr.Attos?
    ensures var d := StructOf(fr, val);
            && (if val >= 0 then Days(d.date) == 0 else Days(d.date) == -1)
            && (fr.Attos? ==> if val >= 0 then d.hour == d.min == 0 else d.hour == 23 && d.min == 59)
  {
    EpochDays();
    hide DaysFromYmd, DateOf, Div, Rem;
  }

  lemma BackIs(fr: DatetimeUnit, d: DatetimeStruct)
    ensures Back(fr, d) == if fr.Years? then d.date.year - 1970
                           else if fr.Months? then (d.date.year - 1970) * 12 + d.date.month - 1
                           else FromDays(fr, DaysFromYmd(d.date.year, d.date.month, d.date.day).value, d)
  {
    hide DaysFromYmd, FromDays;
  }

  /** The epoch is 0, except among business days. */
  lemma EpochIsZero(fr: DatetimeUnit, d: DatetimeStruct)
    requires d.date == EPOCH && d.hour == d.min == d.sec == d.us == d.ps == d.attos == 0
    ensures Back(fr, d) == if fr.BusinessDays? then -2 else 0
  {
    assert d.date.year == 1970 && d.date.month == d.date.day == 1;
    hide *;
    BackIs(fr, d);
    MidnightIsZero(fr, d);
    EpochDays();
  }

  lemma MidnightIsZero(fr: DatetimeUnit, d: DatetimeStruct)
    requires d.hour == d.min == d.sec == d.us == d.ps == d.attos == 0
    ensures FromDays(fr, 0, d) == if fr.BusinessDays? then -2 else 0
  {
    DayOfWeekFloor(0);
    FirstWorkingDays(0);
    WeekOf(0, d);
    NonNegative(d.us, 1000);
    hide DayOfWeek, Div, Rem;
  }

  // ----- Business days

  /** The true weekday, Monday being 0: 1970-01-01 was a Thursday. */
  function Weekday(days: int): int {
    (days + 3) % 7
  }

  /** Business day `val` is a Monday to Friday, later ones come later, and every
      Monday to Friday is one: the map enumerates exactly the working days. */
  lemma BusinessDaysEnumerate(val: int, days: int)
    ensures 0 <= Weekday(BusinessDayNumber(val)) <= 4
    ensures BusinessDayNumber(val) < BusinessDayNumber(val + 1)
    ensures Weekday(days) <= 4 ==> BusinessDayNumber(BusinessDayOf(days)) == days
    ensures BusinessDayOf(BusinessDayNumber(val)) == val
    ensures BusinessDayNumber(0) == 0
  {
  }

  lemma BusinessDaysIncrease(a: int, b: int)
    requires a < b
    ensures BusinessDayNumber(a) < BusinessDayNumber(b)
  {
  }

  ghost function BusinessDayOf(days: int): int {
    5 * ((days + 3) / 7) + (days + 3) % 7 - 3
  }

  /** The weekday helper is one day ahead of the calendar everywhere, so it never
      gives the documented value. */
  lemma DayOfWeekAhead(days: int)
    ensures DayOfWeek(days) == (Weekday(days) + 1) % 7
    ensures DayOfWeek(days) != Weekday(days)
  {
    DayOfWeekFloor(days);
    hide DayOfWeek;
  }

  /** On Sundays the formula for working days is applied, and never gives 0. */
  lemma SundayConverts(days: int, d: DatetimeStruct)
    requires Weekday(days) == 6
    ensures FromDays(BusinessDays, days, d) != 0
  {
    DayOfWeekFloor(days);
    var q := (days - 3) / 7;
    assert days == 7 * q + 3;
    hide DayOfWeek;
    if days >= 4 {
      QuotientUnique(days - 4, 7, q - 1, 6);
    } else if days < 0 {
      QuotientUnique(2 - days, 7, -q - 1, 6);
    }
  }

  /** Every day number, as a business day: what should come out is the number of the
      working day, or 0 for an invalid one. It does exactly on Mondays to Thursdays
      other than the epoch, and on Saturdays. */
  lemma BusinessDaysExact(days: int, d: DatetimeStruct)
    ensures FromDays(BusinessDays, days, d) == (if Weekday(days) <= 4 then BusinessDayOf(days) else 0)
            <==> days != 0 && Weekday(days) != 4 && Weekday(days) != 6
  {
    if Weekday(days) <= 4 {
      var val := BusinessDayOf(days);
      BusinessDaysEnumerate(val, days);
      BusinessDaysBack(val, d);
      WorkingDay(days);
    } else if Weekday(days) == 6 {
      SundayConverts(days, d);
    } else {
      DayOfWeekFloor(days);
      hide DayOfWeek;
    }
  }

  lemma WorkingDay(days: int)
    requires Weekday(days) <= 4
    ensures BusinessDayOf(days) % 5 == 1 <==> Weekday(days) == 4
    ensures BusinessDayOf(days) == 0 <==> days == 0
  {
  }
}
