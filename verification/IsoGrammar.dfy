/**
  The grammar of the accepted date texts, and the theorems about the date parser,
  the printer, and the normalisation (crates/domain/src/js.rs:24-134).

  A `DateText` is a date text taken apart: `Render` writes it, and `Instant` is its
  instant by calendar arithmetic alone, without rollover or overflow checks.
*/
module IsoGrammar {
  import opened Collections
  import opened Calendar
  import opened Digits
  import opened IsoDate
  import opened Sequences
  import opened Texts

  datatype YearText = FourDigits(year: int) | SixDigits(positive: bool, size: int)

  datatype DayText = YearOnly | YearMonth(month: int) | FullDate(month: int, day: int)

  datatype SecondText = NoSecond | WholeSecond(second: int) | SplitSecond(second: int, fraction: string)

  datatype TimeText = NoTime | At(separator: char, hour: int, minute: int, seconds: SecondText)

  datatype OffsetText = NoOffset | Zulu(letter: char) | Shift(east: bool, hours: int, colon: bool, minutes: int)

  datatype DateText = DateText(year: YearText, days: DayText, time: TimeText, offset: OffsetText)

  // ----- Well-formed texts -----

  predicate IsYearText(y: YearText) {
    match y
    case FourDigits(year) => 0 <= year <= 9999
    case SixDigits(positive, size) => 0 <= size <= 999999 && (!positive ==> size != 0)
  }

  predicate IsDayText(d: DayText) {
    match d
    case YearOnly => true
    case YearMonth(month) => 1 <= month <= 12
    case FullDate(month, day) => 1 <= month <= 12 && 1 <= day <= 31
  }

  predicate IsSecondText(s: SecondText) {
    match s
    case NoSecond => true
    case WholeSecond(second) => 0 <= second <= 59
    case SplitSecond(second, fraction) => 0 <= second <= 59 && AllDigits(fraction) && fraction != ""
  }

  predicate IsTimeText(t: TimeText) {
    match t
    case NoTime => true
    case At(separator, hour, minute, seconds) =>
      && separator in "Tt " && 0 <= hour <= 24 && 0 <= minute <= 59 && IsSecondText(seconds)
      && (hour == 24 ==> ClockOf(t) == Clock(24, 0, 0, 0))
  }

  predicate IsOffsetText(o: OffsetText) {
    match o
    case NoOffset => true
    case Zulu(letter) => letter in "Zz"
    case Shift(_, hours, _, minutes) => 0 <= hours <= 23 && 0 <= minutes <= 59
  }

  /** A date without a day or a time takes no western offset: the dash would start the next date field. */
  predicate TakesOffset(d: DateText) {
    d.offset.Shift? && !d.offset.east ==> d.days.FullDate? || d.time.At?
  }

  /** The documented form: each part is well formed on its own. */
  predicate IsDocumented(d: DateText) {
    IsYearText(d.year) && IsDayText(d.days) && IsTimeText(d.time) && IsOffsetText(d.offset)
  }

  /** The accepted form. */
  predicate IsDateText(d: DateText) {
    IsDocumented(d) && TakesOffset(d)
  }

  // ----- The text -----
  // Each part is written in front of the text that follows it.

  function YearThen(y: YearText, rest: string): string
    requires IsYearText(y)
  {
    match y
    case FourDigits(year) => Pad(year, 4) + rest
    case SixDigits(positive, size) => (if positive then "+" else "-") + (Pad(size, 6) + rest)
  }

  function DaysThen(d: DayText, rest: string): string
    requires IsDayText(d)
  {
    match d
    case YearOnly => rest
    case YearMonth(month) => "-" + (Pad(month, 2) + rest)
    case FullDate(month, day) => "-" + (Pad(month, 2) + ("-" + (Pad(day, 2) + rest)))
  }

  function SecondsThen(s: SecondText, rest: string): string
    requires IsSecondText(s)
  {
    match s
    case NoSecond => rest
    case WholeSecond(second) => ":" + (Pad(second, 2) + rest)
    case SplitSecond(second, fraction) => ":" + (Pad(second, 2) + ("." + (fraction + rest)))
  }

  function TimeThen(t: TimeText, rest: string): string
    requires IsTimeText(t)
  {
    match t
    case NoTime => rest
    case At(separator, hour, minute, seconds) =>
      [separator] + (Pad(hour, 2) + (":" + (Pad(minute, 2) + SecondsThen(seconds, rest))))
  }

  function OffsetString(o: OffsetText): string
    requires IsOffsetText(o)
  {
    match o
    case NoOffset => ""
    case Zulu(letter) => [letter]
    case Shift(east, hours, colon, minutes) =>
      (if east then "+" else "-") + (Pad(hours, 2) + MinutesString(colon, minutes))
  }

  function MinutesString(colon: bool, minutes: int): string
    requires 0 <= minutes
  {
    if colon then ":" + Pad(minutes, 2) else Pad(minutes, 2)
  }

  function Render(d: DateText): string
    requires IsDocumented(d)
  {
    YearThen(d.year, DaysThen(d.days, TimeThen(d.time, OffsetString(d.offset))))
  }

  // ----- The meaning -----

  function YearNumber(y: YearText): int {
    match y
    case FourDigits(year) => year
    case SixDigits(positive, size) => if positive then size else -size
  }

  function MonthNumber(d: DayText): int {
    if d.YearOnly? then 1 else d.month
  }

  function DayNumber(d: DayText): int {
    if d.FullDate? then d.day else 1
  }

  function ClockOf(t: TimeText): Clock
    requires t.At? && t.seconds.SplitSecond? ==> AllDigits(t.seconds.fraction) && t.seconds.fraction != ""
  {
    match t
    case NoTime => Clock(0, 0, 0, 0)
    case At(_, hour, minute, seconds) =>
      match seconds
      case NoSecond => Clock(hour, minute, 0, 0)
      case WholeSecond(second) => Clock(hour, minute, second, 0)
      case SplitSecond(second, fraction) => Clock(hour, minute, second, FractionMillis(fraction))
  }

  function OffsetSeconds(o: OffsetText): int {
    if o.Shift? then (if o.east then 1 else -1) * (o.hours * 3600 + o.minutes * 60) else 0
  }

  function FieldsOf(d: DateText): Fields
    requires IsDocumented(d)
  {
    Fields(YearNumber(d.year), MonthNumber(d.days), DayNumber(d.days), ClockOf(d.time), OffsetSeconds(d.offset))
  }

  /** The first of the month, plus the day less one, plus the time of day, minus the offset. */
  function FieldsInstant(f: Fields): int
    requires 1 <= f.month <= 12
  {
    86400000 * (EpochDays(Date(f.year, f.month, 1)) + f.day - 1) - 1000 * f.offset
    + 3600000 * f.clock.hour + 60000 * f.clock.minute + 1000 * f.clock.second + f.clock.millisecond
  }

  function Instant(d: DateText): int
    requires IsDocumented(d)
  {
    FieldsInstant(FieldsOf(d))
  }

  // ----- Reading back each part -----

  lemma ReadPad(v: int, n: nat, rest: string)
    requires 0 <= v < Pow10(n)
    ensures TakeDigits(Pad(v, n) + rest, n) == Some((v, rest))
  {
    var s := Pad(v, n) + rest;
    assert s[..n] == Pad(v, n) && s[n..] == rest;
    ValueOfPad(v, n);
  }

  /** A mark and two digits, as a date or a time has them. */
  lemma ReadTwo(mark: char, v: int, rest: string)
    requires 0 <= v <= 99
    ensures var s := [mark] + (Pad(v, 2) + rest); s[0] == mark && TakeDigits(s[1..], 2) == Some((v, rest))
  {
    PowersOfTen();
    ReadPad(v, 2, rest);
    assert ([mark] + (Pad(v, 2) + rest))[1..] == Pad(v, 2) + rest;
  }

  lemma ReadYear(y: YearText, rest: string)
    requires IsYearText(y)
    ensures TakeYear(YearThen(y, rest)) == Some((YearNumber(y), rest))
  {
    PowersOfTen();
    match y
    case FourDigits(year) =>
      ReadPad(year, 4, rest);
      assert YearThen(y, rest)[0] == Pad(year, 4)[0];
    case SixDigits(positive, size) =>
      ReadPad(size, 6, rest);
      assert YearThen(y, rest)[1..] == Pad(size, 6) + rest;
  }

  lemma ReadDays(d: DayText, rest: string)
    requires IsDayText(d)
    requires !d.FullDate? ==> !StartsWithAny(rest, "-")
    ensures TakeMonthDay(DaysThen(d, rest)) == Some((MonthNumber(d), DayNumber(d), rest))
  {
    match d
    case YearOnly =>
    case YearMonth(month) =>
      ReadTwo('-', month, rest);
    case FullDate(month, day) =>
      ReadTwo('-', day, rest);
      ReadTwo('-', month, "-" + (Pad(day, 2) + rest));
  }

  /** What may follow a time: the end of the text or an offset. */
  predicate EndsTime(rest: string) {
    rest == "" || rest[0] in "Zz+-"
  }

  lemma ReadFraction(fraction: string, rest: string)
    requires AllDigits(fraction) && fraction != "" && EndsTime(rest)
    ensures TakeFraction(("." + (fraction + rest))[1..]) == Some((FractionMillis(fraction), rest))
  {
    assert ("." + (fraction + rest))[1..] == fraction + rest;
    RunOfDigits(fraction, rest);
    assert (fraction + rest)[..|fraction|] == fraction && (fraction + rest)[|fraction|..] == rest;
  }

  lemma ReadSeconds(hour: int, minute: int, s: SecondText, rest: string)
    requires IsSecondText(s) && EndsTime(rest)
    ensures TakeSeconds(hour, minute, SecondsThen(s, rest)) == Some((ClockOf(At('T', hour, minute, s)), rest))
  {
    match s
    case NoSecond =>
    case WholeSecond(second) =>
      ReadTwo(':', second, rest);
    case SplitSecond(second, fraction) =>
      ReadSplitSecond(hour, minute, second, fraction, rest);
  }

  lemma ReadSplitSecond(hour: int, minute: int, second: int, fraction: string, rest: string)
    requires 0 <= second <= 59 && AllDigits(fraction) && fraction != "" && EndsTime(rest)
    ensures TakeSeconds(hour, minute, ":" + (Pad(second, 2) + ("." + (fraction + rest))))
         == Some((Clock(hour, minute, second, FractionMillis(fraction)), rest))
  {
    ReadTwo(':', second, "." + (fraction + rest));
    ReadFraction(fraction, rest);
  }

  lemma ReadHourMinute(separator: char, hour: int, minute: int, afterMinute: string)
    requires separator in "Tt " && 0 <= hour <= 24 && 0 <= minute <= 59
    ensures TakeTime([separator] + (Pad(hour, 2) + (":" + (Pad(minute, 2) + afterMinute))))
         == TakeSeconds(hour, minute, afterMinute)
  {
    ReadTwo(separator, hour, ":" + (Pad(minute, 2) + afterMinute));
    ReadTwo(':', minute, afterMinute);
  }

  lemma ReadTime(t: TimeText, rest: string)
    requires IsTimeText(t) && EndsTime(rest)
    ensures TakeTime(TimeThen(t, rest)) == Some((ClockOf(t), rest))
  {
    match t
    case NoTime =>
    case At(separator, hour, minute, seconds) =>
      ReadHourMinute(separator, hour, minute, SecondsThen(seconds, rest));
      ReadSeconds(hour, minute, seconds, rest);
  }

  lemma ReadMinutes(colon: bool, minutes: int)
    requires 0 <= minutes <= 99
    ensures var s := MinutesString(colon, minutes);
            TakeDigits(if StartsWithAny(s, ":") then s[1..] else s, 2) == Some((minutes, ""))
  {
    PowersOfTen();
    ReadPad(minutes, 2, "");
    assert Pad(minutes, 2) + "" == Pad(minutes, 2);
    assert (":" + Pad(minutes, 2))[1..] == Pad(minutes, 2);
    assert IsDigit(Pad(minutes, 2)[0]);
  }

  lemma ReadShift(east: bool, hours: int, colon: bool, minutes: int)
    requires 0 <= hours <= 23 && 0 <= minutes <= 59
    ensures TakeOffset(OffsetString(Shift(east, hours, colon, minutes)))
         == Some(((if east then 1 else -1) * (hours * 3600 + minutes * 60), ""))
  {
    ReadMinutes(colon, minutes);
    ReadTwo(if east then '+' else '-', hours, MinutesString(colon, minutes));
  }

  lemma ReadOffset(o: OffsetText)
    requires IsOffsetText(o)
    ensures TakeOffset(OffsetString(o)) == Some((OffsetSeconds(o), ""))
    ensures EndsTime(OffsetString(o))
  {
    match o
    case NoOffset =>
    case Zulu(letter) =>
      assert OffsetString(o)[1..] == "";
    case Shift(east, hours, colon, minutes) =>
      ReadShift(east, hours, colon, minutes);
  }

  /** Every text of the grammar is read back as its fields. */
  lemma ReadDateText(d: DateText)
    requires IsDateText(d)
    ensures TakeFields(Render(d)) == Some(FieldsOf(d))
  {
    var afterTime := OffsetString(d.offset);
    var afterDays := TimeThen(d.time, afterTime);
    var afterYear := DaysThen(d.days, afterDays);
    ReadOffset(d.offset);
    ReadTime(d.time, afterTime);
    assert !d.days.FullDate? ==> !StartsWithAny(afterDays, "-");
    ReadDays(d.days, afterDays);
    ReadYear(d.year, afterYear);
    FieldsOfStages(Render(d), YearNumber(d.year), afterYear, MonthNumber(d.days), DayNumber(d.days), afterDays,
                   ClockOf(d.time), afterTime, OffsetSeconds(d.offset), "");
  }

  // ----- The instant -----

  /** The first day in the range of the calendar library, and the first day after it. */
  const FIRST_DAY := -4371587
  const END_DAY := 2932897

  lemma CalendarRange()
    ensures YearStart(MIN_YEAR) - EPOCH_SHIFT == FIRST_DAY
    ensures YearStart(MAX_YEAR + 1) - EPOCH_SHIFT == END_DAY
  {
    YearStartClosed(MIN_YEAR);
    YearStartClosed(MAX_YEAR + 1);
  }

  lemma YearInRange(days: int)
    ensures MIN_YEAR <= CivilOf(days).year <= MAX_YEAR <==> FIRST_DAY <= days < END_DAY
  {
    CalendarRange();
    YearBounds(CivilOf(days), MIN_YEAR);
    YearBounds(CivilOf(days), MAX_YEAR + 1);
  }

  /** The last possible day of a month field is still in the year. */
  lemma MonthFieldInYear(year: int, month: int, day: int)
    requires 1 <= month <= 12 && 1 <= day <= 31
    ensures var n := EpochDays(Date(year, month, 1)) + day - 1 + EPOCH_SHIFT;
            YearStart(year) <= n < YearStart(year + 1)
  {
    MonthsFillYear(year);
    YearLength(year);
    MonthStartIncreases(year, 1, month);
    if month < 12 {
      MonthStartIncreases(year, month, 12);
    }
    assert MonthStart(year, 12) + 31 == MonthStart(year, 13);
  }

  lemma FieldYearInRange(year: int, month: int, day: int)
    requires 1 <= month <= 12 && 1 <= day <= 31
    ensures MIN_YEAR <= year <= MAX_YEAR <==> FIRST_DAY <= EpochDays(Date(year, month, 1)) + day - 1 < END_DAY
  {
    CalendarRange();
    MonthFieldInYear(year, month, day);
    if year < MIN_YEAR {
      YearStartIncreases(year + 1, MIN_YEAR);
    } else {
      YearStartIncreases(MIN_YEAR, year);
    }
    if year <= MAX_YEAR {
      YearStartIncreases(year + 1, MAX_YEAR + 1);
    } else {
      YearStartIncreases(MAX_YEAR + 1, year);
    }
  }

  predicate InBounds(f: Fields) {
    && 1 <= f.month <= 12 && 1 <= f.day <= 31
    && IsClock(f.clock) && 0 <= f.clock.hour && 0 <= f.clock.minute && 0 <= f.clock.second
    && 0 <= f.clock.millisecond <= 999
    && -86340 <= f.offset <= 86340
  }

  /** No time of day and no offset bring a day outside the calendar into the timestamp range. */
  lemma OutsideDaysAreOutsideRange(days: int, c: Clock, offset: int)
    requires IsClock(c) && 0 <= c.hour && 0 <= c.minute && 0 <= c.second && 0 <= c.millisecond <= 999
    requires -86340 <= offset <= 86340
    ensures var ms := DayTimeMs(days, c, offset);
            (days < FIRST_DAY ==> ms < MIN_MS) && (days >= END_DAY ==> ms > MAX_MS)
  {
    var inDay := c.hour * 3600 + c.minute * 60 + c.second;
    assert 0 <= inDay <= 86400;
  }

  lemma AddDaysInRange(d: Date, days: int)
    requires IsDate(d)
    ensures AddDays(d, days).Some? <==> FIRST_DAY <= EpochDays(d) + days < END_DAY
  {
    var sum := EpochDays(d) + days;
    assert AddDays(d, days).Some? <==> MIN_YEAR <= CivilOf(sum).year <= MAX_YEAR;
    YearInRange(sum);
  }

  /** 24:00 is the start of the next day, also where that day leaves the calendar. */
  lemma EndOfDayIsNextDay(date: Date, c: Clock, offset: int)
    requires IsDate(date) && FIRST_DAY <= EpochDays(date) < END_DAY && IsClock(c) && -86340 <= offset <= 86340
    ensures DateMsOf(date, c, offset) == Timestamp(date, c, offset)
  {
    if IsEndOfDay(c) {
      var days := EpochDays(date);
      assert DayTimeMs(days + 1, c.(hour := 0), offset) == DayTimeMs(days, c, offset);
      AddDaysInRange(date, 1);
      OutsideDaysAreOutsideRange(days + 1, c.(hour := 0), offset);
    }
  }

  lemma RolloverInRange(f: Fields, first: Date)
    requires InBounds(f) && MIN_YEAR <= f.year <= MAX_YEAR && first == Date(f.year, f.month, 1)
    ensures AddDays(first, f.day - 1).Some?
    ensures var date := AddDays(first, f.day - 1).value;
            FIRST_DAY <= EpochDays(date) < END_DAY && EpochDays(date) == EpochDays(first) + f.day - 1
  {
    FieldYearInRange(f.year, f.month, f.day);
    AddDaysInRange(first, f.day - 1);
  }

  /**
    The rollover, the 24:00 step, and every overflow check of the calendar library together:
    the instant is the arithmetic one, and it fails exactly outside the timestamp range.
  */
  lemma FieldsMsIsArithmetic(f: Fields)
    requires InBounds(f)
    ensures FieldsMs(f) == InRange(FieldsInstant(f))
  {
    if MIN_YEAR <= f.year <= MAX_YEAR {
      var first := Date(f.year, f.month, 1);
      RolloverInRange(f, first);
      InsideYears(f, first, AddDays(first, f.day - 1).value);
    } else {
      OutsideYears(f);
    }
  }

  lemma InsideYears(f: Fields, first: Date, date: Date)
    requires InBounds(f) && NewDate(f.year, f.month, 1) == Some(first) && AddDays(first, f.day - 1) == Some(date)
    requires FIRST_DAY <= EpochDays(date) < END_DAY && EpochDays(date) == EpochDays(first) + f.day - 1
    ensures FieldsMs(f) == InRange(FieldsInstant(f))
  {
    assert RolledDate(f) == Some(date);
    FieldsMsFrom(f, date);
    TimestampIsArithmetic(f, first, date);
  }

  lemma FieldsMsFrom(f: Fields, date: Date)
    requires RolledDate(f) == Some(date)
    ensures IsDate(date) && FieldsMs(f) == DateMsOf(date, f.clock, f.offset)
  {
  }

  lemma TimestampIsArithmetic(f: Fields, first: Date, date: Date)
    requires InBounds(f) && first == Date(f.year, f.month, 1) && IsDate(date)
    requires FIRST_DAY <= EpochDays(date) < END_DAY && EpochDays(date) == EpochDays(first) + f.day - 1
    ensures DateMsOf(date, f.clock, f.offset) == InRange(FieldsInstant(f))
  {
    EndOfDayIsNextDay(date, f.clock, f.offset);
  }

  lemma OutsideYears(f: Fields)
    requires InBounds(f) && !(MIN_YEAR <= f.year <= MAX_YEAR)
    ensures FieldsMs(f) == None && InRange(FieldsInstant(f)) == None
  {
    FieldYearInRange(f.year, f.month, f.day);
    OutsideDaysAreOutsideRange(EpochDays(Date(f.year, f.month, 1)) + f.day - 1, f.clock, f.offset);
  }

  lemma FieldsInBounds(d: DateText)
    requires IsDateText(d)
    ensures InBounds(FieldsOf(d))
  {
    if d.time.At? && d.time.seconds.SplitSecond? {
      MillisInBounds(d.time.seconds.fraction);
    }
  }

  lemma MillisInBounds(fraction: string)
    requires AllDigits(fraction) && fraction != ""
    ensures FractionMillis(fraction) <= 999
  {
    PowersOfTen();
    if |fraction| >= 3 {
      PadOfValue(fraction[..3]);
    } else {
      PadOfValue(fraction);
    }
  }

  /** The fraction counts whole milliseconds only: it is truncated, never rounded. */
  lemma FractionTruncates(fraction: string)
    requires AllDigits(fraction) && fraction != ""
    ensures FractionMillis(fraction) * Pow10(|fraction|)
         <= 1000 * Value(fraction)
          < (FractionMillis(fraction) + 1) * Pow10(|fraction|)
  {
    var n := |fraction|;
    if n == 1 {
      TruncatesAt(FractionMillis(fraction), Pow10(1), Value(fraction), 0, 0);
    } else if n == 2 {
      TruncatesAt(FractionMillis(fraction), Pow10(2), Value(fraction), 0, 0);
    } else {
      ThousandTimes(n);
      LongFraction(fraction);
      TruncatesAt(FractionMillis(fraction), Pow10(n), Value(fraction), Pow10(n - 3), Value(fraction[3..]));
    }
  }

  lemma ThousandTimes(n: nat)
    requires n >= 3
    ensures Pow10(n) == 1000 * Pow10(n - 3)
  {
    assert Pow10(n) == 10 * Pow10(n - 1);
    assert Pow10(n - 1) == 10 * Pow10(n - 2);
  }

  lemma LongFraction(fraction: string)
    requires AllDigits(fraction) && |fraction| >= 3
    ensures Value(fraction) == FractionMillis(fraction) * Pow10(|fraction| - 3) + Value(fraction[3..])
    ensures Value(fraction[3..]) < Pow10(|fraction| - 3)
  {
    ValueSplits(fraction, 3);
    PadOfValue(fraction[3..]);
  }

  lemma TruncatesAt(ms: nat, scale: nat, value: nat, power: nat, dropped: nat)
    requires (scale == 10 && ms == 100 * value) || (scale == 100 && ms == 10 * value)
          || (scale == 1000 * power && value == ms * power + dropped && dropped < power)
    ensures ms * scale <= 1000 * value < (ms + 1) * scale
  {
    if scale == 1000 * power && value == ms * power + dropped && dropped < power {
      assert ms * scale == 1000 * (ms * power);
      assert (ms + 1) * scale == 1000 * (ms * power) + 1000 * power;
    }
  }

  // ----- Writing out what was read -----

  lemma WriteDigits(s: string, n: nat)
    requires TakeDigits(s, n).Some?
    ensures var (v, rest) := TakeDigits(s, n).value; 0 <= v < Pow10(n) && s == Pad(v, n) + rest
  {
    PadOfValue(s[..n]);
  }

  lemma WriteTwo(mark: char, s: string)
    requires s != "" && s[0] == mark && TakeDigits(s[1..], 2).Some?
    ensures var (v, rest) := TakeDigits(s[1..], 2).value; 0 <= v <= 99 && s == [mark] + (Pad(v, 2) + rest)
  {
    PowersOfTen();
    WriteDigits(s[1..], 2);
    assert s == [mark] + s[1..];
  }

  lemma WriteYear(s: string) returns (y: YearText)
    requires TakeYear(s).Some?
    ensures var (year, rest) := TakeYear(s).value; IsYearText(y) && s == YearThen(y, rest) && YearNumber(y) == year
  {
    PowersOfTen();
    var (year, rest) := TakeYear(s).value;
    if StartsWithAny(s, "+-") {
      WriteDigits(s[1..], 6);
      assert s == [s[0]] + s[1..];
      y := SixDigits(s[0] == '+', if s[0] == '+' then year else -year);
    } else {
      WriteDigits(s, 4);
      y := FourDigits(year);
    }
  }

  lemma WriteDays(s: string) returns (d: DayText)
    requires TakeMonthDay(s).Some?
    requires var (month, day, _) := TakeMonthDay(s).value; 1 <= month <= 12 && 1 <= day <= 31
    ensures var (month, day, rest) := TakeMonthDay(s).value;
            && IsDayText(d) && s == DaysThen(d, rest)
            && MonthNumber(d) == month && DayNumber(d) == day
            && (!d.FullDate? ==> !StartsWithAny(rest, "-"))
  {
    var (month, day, rest) := TakeMonthDay(s).value;
    if StartsWithAny(s, "-") {
      WriteTwo('-', s);
      var afterMonth := TakeDigits(s[1..], 2).value.1;
      if StartsWithAny(afterMonth, "-") {
        WriteTwo('-', afterMonth);
        d := FullDate(month, day);
      } else {
        d := YearMonth(month);
      }
    } else {
      d := YearOnly;
    }
  }

  lemma WriteFraction(s: string) returns (fraction: string)
    requires StartsWithAny(s, ".") && TakeFraction(s[1..]).Some?
    ensures var (millisecond, rest) := TakeFraction(s[1..]).value;
            && AllDigits(fraction) && fraction != "" && FractionMillis(fraction) == millisecond
            && s == "." + (fraction + rest)
  {
    var n := DigitRun(s[1..]);
    fraction := s[1..][..n];
    assert s[1..] == fraction + s[1..][n..];
    assert s == "." + s[1..];
  }

  lemma WriteSeconds(hour: int, minute: int, s: string) returns (seconds: SecondText)
    requires TakeSeconds(hour, minute, s).Some? && TakeSeconds(hour, minute, s).value.0.second <= 59
    ensures var (clock, rest) := TakeSeconds(hour, minute, s).value;
            && IsSecondText(seconds) && s == SecondsThen(seconds, rest)
            && clock == ClockOf(At('T', hour, minute, seconds))
  {
    var (clock, rest) := TakeSeconds(hour, minute, s).value;
    if StartsWithAny(s, ":") {
      WriteTwo(':', s);
      var afterSecond := TakeDigits(s[1..], 2).value.1;
      if StartsWithAny(afterSecond, ".") {
        var fraction := WriteFraction(afterSecond);
        seconds := SplitSecond(clock.second, fraction);
      } else {
        seconds := WholeSecond(clock.second);
      }
    } else {
      seconds := NoSecond;
    }
  }

  lemma WriteTime(s: string) returns (t: TimeText)
    requires TakeTime(s).Some? && IsClock(TakeTime(s).value.0)
    ensures var (clock, rest) := TakeTime(s).value; IsTimeText(t) && s == TimeThen(t, rest) && clock == ClockOf(t)
    ensures t.NoTime? ==> TakeTime(s).value.1 == s
  {
    if StartsWithAny(s, "Tt ") {
      t := WriteAt(s);
    } else {
      t := NoTime;
    }
  }

  lemma WriteAt(s: string) returns (t: TimeText)
    requires StartsWithAny(s, "Tt ") && TakeTime(s).Some? && IsClock(TakeTime(s).value.0)
    ensures t.At? && IsTimeText(t) && TakeTime(s).value.0 == ClockOf(t)
    ensures s == TimeThen(t, TakeTime(s).value.1)
  {
    var clock := TakeTime(s).value.0;
    WriteTwo(s[0], s);
    var afterHour := TakeDigits(s[1..], 2).value.1;
    WriteTwo(':', afterHour);
    var afterMinute := TakeDigits(afterHour[1..], 2).value.1;
    assert TakeTime(s) == TakeSeconds(clock.hour, clock.minute, afterMinute);
    var seconds := WriteSeconds(clock.hour, clock.minute, afterMinute);
    t := At(s[0], clock.hour, clock.minute, seconds);
  }

  lemma WriteOffset(s: string) returns (o: OffsetText)
    requires TakeOffset(s).Some? && TakeOffset(s).value.1 == ""
    ensures IsOffsetText(o) && s == OffsetString(o) && OffsetSeconds(o) == TakeOffset(s).value.0
  {
    if StartsWithAny(s, "Zz") {
      assert s == [s[0]] + s[1..];
      o := Zulu(s[0]);
    } else if StartsWithAny(s, "+-") {
      o := WriteShift(s);
    } else {
      o := NoOffset;
    }
  }

  lemma WriteShift(s: string) returns (o: OffsetText)
    requires StartsWithAny(s, "+-") && TakeOffset(s).Some? && TakeOffset(s).value.1 == ""
    ensures IsOffsetText(o) && s == OffsetString(o) && OffsetSeconds(o) == TakeOffset(s).value.0
  {
    WriteTwo(s[0], s);
    var (hours, afterHours) := TakeDigits(s[1..], 2).value;
    var colon, minutes := WriteMinutes(afterHours);
    o := Shift(s[0] == '+', hours, colon, minutes);
  }

  lemma WriteMinutes(s: string) returns (colon: bool, minutes: int)
    requires TakeDigits(if StartsWithAny(s, ":") then s[1..] else s, 2).Some?
    requires TakeDigits(if StartsWithAny(s, ":") then s[1..] else s, 2).value.1 == ""
    ensures colon == StartsWithAny(s, ":") && minutes == TakeDigits(if colon then s[1..] else s, 2).value.0
    ensures minutes >= 0 && s == MinutesString(colon, minutes)
  {
    colon := StartsWithAny(s, ":");
    var afterColon := if colon then s[1..] else s;
    minutes := TakeDigits(afterColon, 2).value.0;
    WriteDigits(afterColon, 2);
    assert Pad(minutes, 2) + "" == Pad(minutes, 2);
    assert colon ==> s == ":" + s[1..];
  }

  /** Every text that the parser reads is a text of the grammar. */
  lemma WriteDateText(text: string) returns (d: DateText)
    requires TakeFields(text).Some?
    ensures IsDateText(d) && Render(d) == text
  {
    var (_, afterYear) := TakeYear(text).value;
    var (_, _, afterDays) := TakeMonthDay(afterYear).value;
    var (_, afterTime) := TakeTime(afterDays).value;
    var year := WriteYear(text);
    var days := WriteDays(afterYear);
    var time := WriteTime(afterDays);
    var offset := WriteOffset(afterTime);
    d := DateText(year, days, time, offset);
  }

  // ----- Main results -----

  /**
    `parse_date_ms` accepts exactly the texts of the grammar whose instant is a timestamp,
    and gives that instant.
  */
  lemma ParserIsTheGrammar(text: string)
    ensures DateMs(text).Some?
       <==> exists d :: IsDateText(d) && Render(d) == text && MIN_MS <= Instant(d) <= MAX_MS
    ensures forall d :: IsDateText(d) && Render(d) == text ==> DateMs(text) == InRange(Instant(d))
  {
    forall d | IsDateText(d) && Render(d) == text
      ensures DateMs(text) == InRange(Instant(d))
    {
      ReadDateText(d);
      FieldsInBounds(d);
      FieldsMsIsArithmetic(FieldsOf(d));
    }
    if DateMs(text).Some? {
      var d := WriteDateText(text);
      assert IsDateText(d) && Render(d) == text;
    }
  }

  lemma RestAfterHours(colon: bool, minutes: int)
    requires 0 <= minutes <= 59
    ensures var s := MinutesString(colon, minutes);
            s != "" && !StartsWithAny(s, "-") && !StartsWithAny(s, "Tt ") && !StartsWithAny(s, "Zz+-")
  {
    assert IsDigit(Pad(minutes, 2)[0]);
  }

  /**
    The documented grammar is wider than the code: a western offset after a bare year or month
    is read as the next date field, and the whole text is rejected. With `ParserIsTheGrammar`,
    a documented text is read if and only if `TakesOffset` holds and its instant is a timestamp.
  */
  lemma WesternOffsetAfterShortDateIsRejected(d: DateText)
    requires IsDocumented(d) && !TakesOffset(d)
    ensures DateMs(Render(d)) == None
  {
    var afterYear := DaysThen(d.days, OffsetString(d.offset));
    ReadYear(d.year, afterYear);
    var minutes := MinutesString(d.offset.colon, d.offset.minutes);
    RestAfterHours(d.offset.colon, d.offset.minutes);
    ReadTwo('-', d.offset.hours, minutes);
    if d.days.YearMonth? {
      ReadTwo('-', d.days.month, OffsetString(d.offset));
      assert TakeMonthDay(afterYear) == Some((d.days.month, d.offset.hours, minutes));
    } else {
      assert TakeMonthDay(afterYear) == Some((d.offset.hours, 1, minutes));
    }
    assert TakeFields(Render(d)) == None;
  }

  /** A documented text is read if and only if it takes its offset and its instant is a timestamp. */
  lemma DocumentedTextIsRead(d: DateText)
    requires IsDocumented(d)
    ensures DateMs(Render(d)).Some? <==> TakesOffset(d) && MIN_MS <= Instant(d) <= MAX_MS
  {
    if TakesOffset(d) {
      ParserIsTheGrammar(Render(d));
    } else {
      WesternOffsetAfterShortDateIsRejected(d);
    }
  }

  lemma YearWithWesternOffsetIs(d: DateText)
    requires d == DateText(FourDigits(2024), YearOnly, NoTime, Shift(false, 3, true, 0))
    ensures Render(d) == "2024-03:00"
  {
    assert Pad(3, 2) == "03" && Pad(0, 2) == "00";
    assert OffsetString(d.offset) == "-03:00";
    assert Pad(2024, 4) == "2024";
  }

  /** A year with a western offset is documented, but not read. */
  lemma YearWithWesternOffset()
    ensures var d := DateText(FourDigits(2024), YearOnly, NoTime, Shift(false, 3, true, 0));
            IsDocumented(d) && Render(d) == "2024-03:00" && DateMs("2024-03:00") == None
  {
    var d := DateText(FourDigits(2024), YearOnly, NoTime, Shift(false, 3, true, 0));
    YearWithWesternOffsetIs(d);
    assert DateMs("2024-03:00") == None by {
      WesternOffsetAfterShortDateIsRejected(d);
    }
  }

  /** The text that the printer writes for an instant. */
  function Printed(ms: int): (d: DateText)
    requires MIN_MS <= ms <= MAX_MS
    ensures IsDateText(d)
  {
    var date := CivilOf(ms / MS_PER_DAY);
    var inDay := ms % MS_PER_DAY;
    PrintableYear(ms);
    DateText(
      PrintedYear(date.year),
      FullDate(date.month, date.day),
      At('T', inDay / 3600000, inDay / 60000 % 60, SplitSecond(inDay / 1000 % 60, Pad(inDay % 1000, 3))),
      Zulu('Z'))
  }

  function PrintedYear(year: int): (y: YearText)
    requires MIN_YEAR <= year <= MAX_YEAR
    ensures IsYearText(y)
  {
    if 0 <= year then FourDigits(year) else SixDigits(false, -year)
  }

  lemma YearIsPrinted(year: int, rest: string)
    requires MIN_YEAR <= year <= MAX_YEAR
    ensures YearThen(PrintedYear(year), rest) == YearString(year) + rest
  {
    if year < 0 {
      Associative("-", Pad(-year, 6), rest);
    }
  }

  lemma PrintedText(ms: int)
    requires MIN_MS <= ms <= MAX_MS
    ensures IsoString(ms) == Some(Render(Printed(ms)))
  {
    var year := CivilOf(ms / MS_PER_DAY).year;
    PrintableYear(ms);
    var rest := DaysThen(Printed(ms).days, TimeThen(Printed(ms).time, "Z"));
    assert IsoString(ms) == Some(YearString(year) + rest);
    YearIsPrinted(year, rest);
  }

  lemma TimeOfDaySplits(inDay: int)
    requires 0 <= inDay < MS_PER_DAY
    ensures ((inDay / 3600000) * 3600 + (inDay / 60000 % 60) * 60 + inDay / 1000 % 60) * 1000 + inDay % 1000 == inDay
  {
    var seconds, minutes := inDay / 1000, inDay / 60000;
    assert minutes == seconds / 60;
    assert inDay / 3600000 == minutes / 60;
  }

  lemma PrintedInstant(ms: int)
    requires MIN_MS <= ms <= MAX_MS
    ensures Instant(Printed(ms)) == ms
  {
    var date := CivilOf(ms / MS_PER_DAY);
    var inDay := ms % MS_PER_DAY;
    TimeOfDaySplits(inDay);
    PowersOfTen();
    ValueOfPad(inDay % 1000, 3);
    assert Pad(inDay % 1000, 3)[..3] == Pad(inDay % 1000, 3);
    assert EpochDays(Date(date.year, date.month, 1)) + date.day - 1 == ms / MS_PER_DAY;
  }

  /** Printing an instant and parsing the text gives the instant back. */
  lemma PrintThenParse(ms: int)
    requires MIN_MS <= ms <= MAX_MS
    ensures IsoString(ms).Some? && DateMs(IsoString(ms).value) == Some(ms)
  {
    PrintedText(ms);
    PrintedInstant(ms);
    ParserIsTheGrammar(Render(Printed(ms)));
  }

  lemma YearFits(year: int)
    requires MIN_YEAR <= year <= MAX_YEAR
    ensures Fits(if year < 0 then "-999999" else "9999", YearString(year))
  {
    if year < 0 {
      FitsAppend("-", "999999", "-", Pad(-year, 6));
    }
  }

  /** Two digits and a mark before the rest. */
  lemma PartFits(digits: string, mark: string, pattern: string, rest: string)
    requires AllDigits(digits) && |digits| == 2 && mark in ["-", "T", ":", "."] && Fits(pattern, rest)
    ensures Fits("99" + mark + pattern, digits + (mark + rest))
  {
    FitsAppend("99", mark, digits, mark);
    FitsAppend("99" + mark, pattern, digits + mark, rest);
    Associative(digits, mark, rest);
  }

  lemma TimeFits(hour: string, minute: string, second: string, millis: string)
    requires |hour| == |minute| == |second| == 2 && |millis| == 3
    requires AllDigits(hour) && AllDigits(minute) && AllDigits(second) && AllDigits(millis)
    ensures Fits("99:99:99.999Z", hour + (":" + (minute + (":" + (second + ("." + (millis + "Z")))))))
  {
    FitsAppend("999", "Z", millis, "Z");
    PartFits(second, ".", "999Z", millis + "Z");
    PartFits(minute, ":", "99.999Z", second + ("." + (millis + "Z")));
    PartFits(hour, ":", "99:99.999Z", minute + (":" + (second + ("." + (millis + "Z")))));
  }

  lemma DayFits(day: string, time: string)
    requires |day| == 2 && AllDigits(day) && Fits("99:99:99.999Z", time)
    ensures Fits("99T99:99:99.999Z", day + ("T" + time))
  {
    PartFits(day, "T", "99:99:99.999Z", time);
  }

  lemma MonthFits(month: string, rest: string)
    requires |month| == 2 && AllDigits(month) && Fits("99T99:99:99.999Z", rest)
    ensures Fits("-99-99T99:99:99.999Z", "-" + (month + ("-" + rest)))
  {
    PartFits(month, "-", "99T99:99:99.999Z", rest);
    FitsAppend("-", "99-99T99:99:99.999Z", "-", month + ("-" + rest));
  }

  /** The printed form is that of section 21.4.1.32 of ECMA-262, with the year in four digits or a sign and six. */
  lemma PrintedForm(ms: int)
    requires MIN_MS <= ms <= MAX_MS
    ensures var year := CivilOf(ms / 86400000).year;
            Fits((if year < 0 then "-999999" else "9999") + "-99-99T99:99:99.999Z", IsoString(ms).GetOr(""))
  {
    var d, inDay := CivilOf(ms / MS_PER_DAY), ms % MS_PER_DAY;
    PrintableYear(ms);
    var time := Pad(inDay / 3600000, 2) + (":" + (Pad(inDay / 60000 % 60, 2)
                + (":" + (Pad(inDay / 1000 % 60, 2) + ("." + (Pad(inDay % 1000, 3) + "Z"))))));
    TimeFits(Pad(inDay / 3600000, 2), Pad(inDay / 60000 % 60, 2), Pad(inDay / 1000 % 60, 2), Pad(inDay % 1000, 3));
    var rest := "-" + (Pad(d.month, 2) + ("-" + (Pad(d.day, 2) + ("T" + time))));
    DayFits(Pad(d.day, 2), time);
    MonthFits(Pad(d.month, 2), Pad(d.day, 2) + ("T" + time));
    YearFits(d.year);
    FitsAppend(if d.year < 0 then "-999999" else "9999", "-99-99T99:99:99.999Z", YearString(d.year), rest);
  }

  lemma NothingIsNoDate()
    ensures DateMs("") == None
  {
  }

  /** The instant of an optional text, as the list rules read it. */
  function InstantOf(value: Option<string>): Option<int> {
    match value case None => None case Some(text) => DateMs(text)
  }

  lemma ParsedIsInRange(text: string)
    ensures DateMs(text).Some? ==> MIN_MS <= DateMs(text).value <= MAX_MS
  {
    if DateMs(text).Some? {
      ParserIsTheGrammar(text);
    }
  }

  /** Normalisation keeps the instant of every value, or the lack of one, which is the empty text. */
  lemma NormaliseKeepsInstant(value: Option<string>)
    ensures DateMs(Normalise(value)) == InstantOf(value)
    ensures Normalise(value) == "" <==> InstantOf(value).None?
  {
    NothingIsNoDate();
    if InstantOf(value).Some? {
      ParsedIsInRange(value.value);
      PrintThenParse(InstantOf(value).value);
    }
  }

  /** The normal form depends on the instant only, and tells every two instants apart. */
  lemma NormalFormIsTheInstant(a: Option<string>, b: Option<string>)
    ensures Normalise(a) == Normalise(b) <==> InstantOf(a) == InstantOf(b)
  {
    NormaliseKeepsInstant(a);
    NormaliseKeepsInstant(b);
    NothingIsNoDate();
    NormalFormIsPrinted(a);
    NormalFormIsPrinted(b);
  }

  lemma NormalFormIsPrinted(value: Option<string>)
    ensures Normalise(value) == match InstantOf(value) case None => "" case Some(ms) => IsoString(ms).GetOr("")
  {
    NothingIsNoDate();
  }

  lemma NormaliseTwice(value: Option<string>)
    ensures Normalise(Some(Normalise(value))) == Normalise(value)
  {
    NormaliseKeepsInstant(value);
    NormalFormIsTheInstant(Some(Normalise(value)), value);
  }
}
