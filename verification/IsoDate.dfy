/**
  Sony dates: the cursor parser, the `toISOString` printer, and the normalisation
  that puts every date on the wire (crates/domain/src/js.rs, crates/domain/src/mapper.rs).

  `DateMs` specifies the parser stage by stage, and `ParseDateMs` is the cursor code
  proved against it. `DateText` is an independent definition of the accepted grammar:
  a structured value for each text, with its instant given by calendar arithmetic alone.
*/
module IsoDate {
  import opened Collections
  import opened Calendar
  import opened Digits
  import opened Texts

  // ----- The parser, stage by stage -----
  // Each stage takes the text that is left and gives a value and the text that is left after it.

  function TakeDigits(s: string, n: nat): Option<(int, string)> {
    if n <= |s| && AllDigits(s[..n]) then Some((Value(s[..n]), s[n..])) else None
  }

  function TakeYear(s: string): Option<(int, string)> {
    if StartsWithAny(s, "+") then
      TakeDigits(s[1..], 6)
    else if StartsWithAny(s, "-") then
      var (value, rest) :- TakeDigits(s[1..], 6);
      if value != 0 then Some((-value, rest)) else None
    else
      TakeDigits(s, 4)
  }

  /** The month and the day, each 1 when the text does not give it. */
  function TakeMonthDay(s: string): Option<(int, int, string)> {
    if StartsWithAny(s, "-") then
      var (month, rest) :- TakeDigits(s[1..], 2);
      if StartsWithAny(rest, "-") then
        var (day, rest') :- TakeDigits(rest[1..], 2);
        Some((month, day, rest'))
      else
        Some((month, 1, rest))
    else
      Some((1, 1, s))
  }

  /** Fraction digits as milliseconds, of which three count. */
  function FractionMillis(digits: string): (ms: nat)
    requires AllDigits(digits) && digits != ""
  {
    if |digits| == 1 then Value(digits) * 100
    else if |digits| == 2 then Value(digits) * 10
    else Value(digits[..3])
  }

  function TakeFraction(s: string): Option<(int, string)> {
    var n := DigitRun(s);
    if n == 0 then None else Some((FractionMillis(s[..n]), s[n..]))
  }

  lemma FractionOfRun(s: string, count: nat)
    requires count <= |s| && AllDigits(s[..count]) && (count < |s| ==> !IsDigit(s[count]))
    ensures AllDigits(s[..Min(count, 3)])
    ensures var value := Value(s[..Min(count, 3)]);
            var scale := if count == 1 then 100 else if count == 2 then 10 else 1;
            TakeFraction(s) == if count == 0 then None else Some((value * scale, s[count..]))
  {
    RunOf(s, count);
    if count >= 3 {
      assert s[..count][..3] == s[..3];
    }
  }

  datatype Clock = Clock(hour: int, minute: int, second: int, millisecond: int)

  /** The seconds of a time: the text starts after the minutes. */
  function TakeSeconds(hour: int, minute: int, s: string): Option<(Clock, string)> {
    if !StartsWithAny(s, ":") then Some((Clock(hour, minute, 0, 0), s)) else
    var (second, afterSecond) :- TakeDigits(s[1..], 2);
    if !StartsWithAny(afterSecond, ".") then Some((Clock(hour, minute, second, 0), afterSecond)) else
    var (millisecond, rest) :- TakeFraction(afterSecond[1..]);
    Some((Clock(hour, minute, second, millisecond), rest))
  }

  function TakeTime(s: string): Option<(Clock, string)> {
    if StartsWithAny(s, "Tt ") then
      var (hour, afterHour) :- TakeDigits(s[1..], 2);
      if !StartsWithAny(afterHour, ":") then None else
      var (minute, afterMinute) :- TakeDigits(afterHour[1..], 2);
      TakeSeconds(hour, minute, afterMinute)
    else
      Some((Clock(0, 0, 0, 0), s))
  }

  /** The offset: seconds to the east of Greenwich. */
  function TakeOffset(s: string): Option<(int, string)> {
    if StartsWithAny(s, "Zz") then
      Some((0, s[1..]))
    else if StartsWithAny(s, "+-") then
      var sign := if s[0] == '+' then 1 else -1;
      var (hours, afterHours) :- TakeDigits(s[1..], 2);
      var afterColon := if StartsWithAny(afterHours, ":") then afterHours[1..] else afterHours;
      var (minutes, rest) :- TakeDigits(afterColon, 2);
      if hours > 23 || minutes > 59 then None else Some((sign * (hours * 3600 + minutes * 60), rest))
    else
      Some((0, s))
  }

  predicate IsEndOfDay(c: Clock) {
    c == Clock(24, 0, 0, 0)
  }

  predicate IsClock(c: Clock) {
    (c.hour <= 23 || IsEndOfDay(c)) && c.minute <= 59 && c.second <= 59
  }

  // ----- The calendar library -----

  /** The bounds of a timestamp, in epoch milliseconds. */
  const MIN_MS := -377705023201000
  const MAX_MS := 253402207200999

  const MIN_YEAR := -9999
  const MAX_YEAR := 9999

  function NewDate(year: int, month: int, day: int): Option<Date> {
    var d := Date(year, month, day);
    if MIN_YEAR <= year <= MAX_YEAR && IsDate(d) then Some(d) else None
  }

  function AddDays(d: Date, days: int): (r: Option<Date>)
    requires IsDate(d)
    ensures r.Some? ==> IsDate(r.value) && EpochDays(r.value) == EpochDays(d) + days
  {
    var sum := CivilOf(EpochDays(d) + days);
    if MIN_YEAR <= sum.year <= MAX_YEAR then Some(sum) else None
  }

  function InRange(ms: int): Option<int> {
    if MIN_MS <= ms <= MAX_MS then Some(ms) else None
  }

  function DayTimeMs(days: int, c: Clock, offset: int): int {
    (days * 86400 + c.hour * 3600 + c.minute * 60 + c.second - offset) * 1000 + c.millisecond
  }

  function Timestamp(d: Date, c: Clock, offset: int): Option<int>
    requires IsDate(d)
  {
    InRange(DayTimeMs(EpochDays(d), c, offset))
  }

  datatype Fields = Fields(year: int, month: int, day: int, clock: Clock, offset: int)

  /** The time and the offset, up to the end of the text. */
  function TakeClock(s: string): (r: Option<(Clock, int)>)
    ensures r.Some? ==> IsClock(r.value.0)
  {
    var (clock, afterTime) :- TakeTime(s);
    var (offset, rest) :- TakeOffset(afterTime);
    if rest == "" && IsClock(clock) then Some((clock, offset)) else None
  }

  function TakeFields(text: string): (r: Option<Fields>)
    ensures r.Some? ==> 1 <= r.value.month <= 12 && 1 <= r.value.day <= 31 && IsClock(r.value.clock)
  {
    var (year, afterYear) :- TakeYear(text);
    var (month, day, afterDay) :- TakeMonthDay(afterYear);
    if !(1 <= month <= 12) || !(1 <= day <= 31) then None else
    var (clock, offset) :- TakeClock(afterDay);
    Some(Fields(year, month, day, clock, offset))
  }

  /** 24:00 is the start of the next day. */
  function DateMsOf(date: Date, c: Clock, offset: int): Option<int>
    requires IsDate(date)
  {
    if IsEndOfDay(c) then
      var next :- AddDays(date, 1);
      Timestamp(next, c.(hour := 0), offset)
    else
      Timestamp(date, c, offset)
  }

  /** The day rolls over from the first of the month. */
  function RolledDate(f: Fields): (r: Option<Date>)
    ensures r.Some? ==> IsDate(r.value)
  {
    var first :- NewDate(f.year, f.month, 1);
    AddDays(first, f.day - 1)
  }

  /** The instant of the parsed fields. */
  function FieldsMs(f: Fields): Option<int> {
    var date :- RolledDate(f);
    DateMsOf(date, f.clock, f.offset)
  }

  /** `parse_date_ms`: the epoch milliseconds of a date text. */
  function DateMs(text: string): Option<int> {
    var f :- TakeFields(text);
    FieldsMs(f)
  }

  // ----- The cursor -----

  class Cursor {
    const text: string
    var at: nat

    ghost predicate Valid()
      reads this
    {
      at <= |text|
    }

    ghost function Rest(): string
      requires Valid()
      reads this
    {
      text[at..]
    }

    constructor (text: string)
      ensures Valid() && this.text == text && Rest() == text
    {
      this.text := text;
      this.at := 0;
    }

    method Peek() returns (next: Option<char>)
      requires Valid()
      ensures next == if Rest() == "" then None else Some(Rest()[0])
    {
      next := if at < |text| then Some(text[at]) else None;
    }

    method EatAny(options: string) returns (ate: bool)
      requires Valid()
      modifies `at
      ensures Valid()
      ensures ate == StartsWithAny(old(Rest()), options)
      ensures Rest() == if ate then old(Rest())[1..] else old(Rest())
    {
      var next := Peek();
      ate := next.Some? && next.value in options;
      if ate {
        at := at + 1;
      }
    }

    method Done() returns (done: bool)
      requires Valid()
      ensures done == (Rest() == "")
    {
      done := at == |text|;
    }

    method Digits(count: nat) returns (r: Option<int>)
      requires Valid()
      modifies `at
      ensures Valid()
      ensures r.Some? <==> TakeDigits(old(Rest()), count).Some?
      ensures r.Some? ==> TakeDigits(old(Rest()), count).value == (r.value, Rest())
    {
      ghost var s := Rest();
      var value := 0;
      for i := 0 to count
        invariant Valid() && i <= |s| && Rest() == s[i..]
        invariant AllDigits(s[..i]) && value == Value(s[..i])
      {
        var next := Peek();
        if next.None? || !IsDigit(next.value) {
          if count <= |s| {
            assert s[..count][i] == s[i];
          }
          return None;
        }
        assert s[..i + 1][..i] == s[..i];
        value := value * 10 + DigitValue(next.value);
        at := at + 1;
      }
      r := Some(value);
    }

    method Year() returns (r: Option<int>)
      requires Valid()
      modifies `at
      ensures Valid()
      ensures r.Some? <==> TakeYear(old(Rest())).Some?
      ensures r.Some? ==> TakeYear(old(Rest())).value == (r.value, Rest())
    {
      var next := Peek();
      if next == Some('+') {
        at := at + 1;
        r := Digits(6);
      } else if next == Some('-') {
        at := at + 1;
        var value :- Digits(6);
        r := if value != 0 then Some(-value) else None;
      } else {
        r := Digits(4);
      }
    }

    method MonthDay() returns (r: Option<(int, int)>)
      requires Valid()
      modifies `at
      ensures Valid()
      ensures r.Some? <==> TakeMonthDay(old(Rest())).Some?
      ensures r.Some? ==> TakeMonthDay(old(Rest())).value == (r.value.0, r.value.1, Rest())
    {
      var month, day := 1, 1;
      var dash := EatAny("-");
      if dash {
        month :- Digits(2);
        dash := EatAny("-");
        if dash {
          day :- Digits(2);
        }
      }
      r := Some((month, day));
    }

    method FractionMs() returns (r: Option<int>)
      requires Valid()
      modifies `at
      ensures Valid()
      ensures r.Some? <==> TakeFraction(old(Rest())).Some?
      ensures r.Some? ==> TakeFraction(old(Rest())).value == (r.value, Rest())
    {
      ghost var s, start := Rest(), at;
      var value := 0;
      var count := 0;
      var next := Peek();
      while next.Some? && IsDigit(next.value)
        invariant Valid() && at == start + count
        invariant next == if at < |text| then Some(text[at]) else None
        invariant AllDigits(s[..count])
        invariant value == Value(s[..Min(count, 3)])
        decreases |text| - at
      {
        assert s[..count + 1] == s[..count] + [next.value];
        ValueSnoc(s[..count], next.value);
        if count < 3 {
          value := value * 10 + DigitValue(next.value);
        }
        count := count + 1;
        at := at + 1;
        next := Peek();
      }
      FractionOfRun(s, count);
      r := if count == 0 then None
           else if count == 1 then Some(value * 100)
           else if count == 2 then Some(value * 10)
           else Some(value);
    }

    method Time() returns (r: Option<Clock>)
      requires Valid()
      modifies `at
      ensures Valid()
      ensures r.Some? <==> TakeTime(old(Rest())).Some?
      ensures r.Some? ==> TakeTime(old(Rest())).value == (r.value, Rest())
    {
      var hour, minute, second, millisecond := 0, 0, 0, 0;
      var time := EatAny("Tt ");
      if time {
        hour :- Digits(2);
        var colon := EatAny(":");
        if !colon {
          return None;
        }
        minute :- Digits(2);
        colon := EatAny(":");
        if colon {
          second :- Digits(2);
          var dot := EatAny(".");
          if dot {
            millisecond :- FractionMs();
          }
        }
      }
      r := Some(Clock(hour, minute, second, millisecond));
    }

    method Offset() returns (r: Option<int>)
      requires Valid()
      modifies `at
      ensures Valid()
      ensures r.Some? <==> TakeOffset(old(Rest())).Some?
      ensures r.Some? ==> TakeOffset(old(Rest())).value == (r.value, Rest())
    {
      var zulu := EatAny("Zz");
      if zulu {
        return Some(0);
      }
      var sign: int;
      var next := Peek();
      if next == Some('+') {
        sign := 1;
      } else if next == Some('-') {
        sign := -1;
      } else {
        return Some(0);
      }
      at := at + 1;
      var hours :- Digits(2);
      var _ := EatAny(":");
      var minutes :- Digits(2);
      if hours > 23 || minutes > 59 {
        return None;
      }
      r := Some(sign * (hours * 3600 + minutes * 60));
    }

    method ClockToEnd() returns (r: Option<(Clock, int)>)
      requires Valid()
      modifies `at
      ensures Valid()
      ensures r == TakeClock(old(Rest()))
    {
      var clock :- Time();
      var offset :- Offset();
      var done := Done();
      if !done || (clock.hour > 23 && !IsEndOfDay(clock)) || clock.minute > 59 || clock.second > 59 {
        return None;
      }
      r := Some((clock, offset));
    }

    method FieldsToEnd() returns (r: Option<Fields>)
      requires Valid()
      modifies `at
      ensures Valid()
      ensures r == TakeFields(old(Rest()))
    {
      var year :- Year();
      var monthDay :- MonthDay();
      var (month, day) := monthDay;
      if !(1 <= month <= 12) || !(1 <= day <= 31) {
        return None;
      }
      var clock :- ClockToEnd();
      r := Some(Fields(year, month, day, clock.0, clock.1));
    }
  }

  method ParseFields(text: string) returns (r: Option<Fields>)
    ensures r == TakeFields(text)
  {
    var cursor := new Cursor(text);
    r := cursor.FieldsToEnd();
  }

  lemma FieldsOfStages(text: string, year: int, afterYear: string, month: int, day: int, afterDay: string,
                       clock: Clock, afterTime: string, offset: int, rest: string)
    requires TakeYear(text) == Some((year, afterYear))
    requires TakeMonthDay(afterYear) == Some((month, day, afterDay))
    requires TakeTime(afterDay) == Some((clock, afterTime))
    requires TakeOffset(afterTime) == Some((offset, rest))
    requires 1 <= month <= 12 && 1 <= day <= 31
    ensures TakeFields(text)
         == if rest == "" && IsClock(clock) then Some(Fields(year, month, day, clock, offset)) else None
  {
  }

  method InstantMs(f: Fields) returns (r: Option<int>)
    ensures r == FieldsMs(f)
  {
    var clock := f.clock;
    var date :- NewDate(f.year, f.month, 1);
    date :- AddDays(date, f.day - 1);
    if IsEndOfDay(clock) {
      date :- AddDays(date, 1);
      clock := clock.(hour := 0);
    }
    r := Timestamp(date, clock, f.offset);
  }

  /** `parse_date_ms`. */
  method ParseDateMs(text: string) returns (r: Option<int>)
    ensures r == DateMs(text)
  {
    var f :- ParseFields(text);
    r := InstantMs(f);
  }

  // ----- The printer and the normalisation -----

  function YearString(year: int): string
    requires -1000000 < year < 1000000
  {
    if 0 <= year <= 9999 then Pad(year, 4)
    else if year < 0 then "-" + Pad(-year, 6)
    else "+" + Pad(year, 6)
  }

  const MS_PER_DAY := 86400000

  /** `to_iso_string`: the UTC calendar date and time of an instant. */
  function IsoString(ms: int): Option<string> {
    if !(MIN_MS <= ms <= MAX_MS) then None else
    var d := CivilOf(ms / MS_PER_DAY);
    var inDay := ms % MS_PER_DAY;
    PrintableYear(ms);
    Some(YearString(d.year) + ("-" + (Pad(d.month, 2) + ("-" + (Pad(d.day, 2)
         + ("T" + (Pad(inDay / 3600000, 2) + (":" + (Pad(inDay / 60000 % 60, 2)
         + (":" + (Pad(inDay / 1000 % 60, 2) + ("." + (Pad(inDay % 1000, 3) + "Z")))))))))))))
  }

  /** `utc_full_year`. */
  function UtcFullYear(ms: int): Option<int> {
    if MIN_MS <= ms <= MAX_MS then Some(CivilOf(ms / MS_PER_DAY).year) else None
  }

  lemma PrintableYear(ms: int)
    requires MIN_MS <= ms <= MAX_MS
    ensures MIN_YEAR <= CivilOf(ms / MS_PER_DAY).year <= MAX_YEAR
  {
    var d := CivilOf(ms / MS_PER_DAY);
    YearStartClosed(10000);
    YearStartClosed(-9999);
    YearBounds(d, 10000);
    YearBounds(d, -9999);
  }

  /** The year is the one whose first day is the last January 1 at or before the instant. */
  lemma UtcFullYearIs(ms: int, year: int)
    requires MIN_MS <= ms <= MAX_MS
    ensures UtcFullYear(ms) == Some(year)
       <==> EpochDays(Date(year, 1, 1)) * 86400000 <= ms < EpochDays(Date(year + 1, 1, 1)) * 86400000
  {
    var d := CivilOf(ms / MS_PER_DAY);
    YearBounds(d, year);
    YearBounds(d, year + 1);
  }

  /** `to_iso_or_default`: a missing, empty, or unparseable date is the empty text. */
  function Normalise(value: Option<string>): string {
    if value.None? || value.value == "" then "" else
    match DateMs(value.value)
    case None => ""
    case Some(ms) => IsoString(ms).GetOr("")
  }
}
