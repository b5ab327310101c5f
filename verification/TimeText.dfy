/** A time as a text: read on the zone's wall clock, spelled for the calculators and spelled for a key
    (expression.TIME, _wall, _time_text; map_overlay.time_key_text). The zone is one fixed offset of whole minutes. */
module TimeText {
  import opened Syntax
  import opened Words
  import opened Digits
  import opened Calendar
  import MapKeys

  const SECOND := 1_000_000
  const MINUTE := 60_000_000
  const HOUR := 3_600_000_000
  const DAY := 86_400_000_000

  const FIRST_DAY := 1
  const LAST_DAY := 3_652_059

  /** A wall clock's microseconds, day 1 counted from one day: the years 1 to 9999. */
  predicate InYears(count: int) { FIRST_DAY * DAY <= count < (LAST_DAY + 1) * DAY }

  /** A fixed offset a zone may have. */
  type Zone = z: int | -1440 < z < 1440

  // ---- reading -----------------------------------------------------------------------------------------------------

  /** A part read and what is left of the text. */
  datatype Parsed = Parsed(value: int, rest: string)

  predicate TwoDigits(t: string, i: nat) { i + 1 < |t| && IsDigit(t[i]) && IsDigit(t[i + 1]) }

  function TwoAt(t: string, i: nat): int
    requires TwoDigits(t, i)
  {
    Number(t[i], t[i + 1])
  }

  /** [0-9]{4}-[0-9]{2}-[0-9]{2}, a real day. */
  function ReadDay(t: string): Option<Parsed> {
    if |t| >= 10 && TwoDigits(t, 0) && TwoDigits(t, 2) && t[4] == '-'
       && TwoDigits(t, 5) && t[7] == '-' && TwoDigits(t, 8) then
      var d := Date(100 * TwoAt(t, 0) + TwoAt(t, 2), TwoAt(t, 5), TwoAt(t, 8));
      if IsDate(d) then Some(Parsed(Ordinal(d), t[10..])) else None
    else None
  }

  /** The digits after a point, the first in tenths. */
  function Fraction(s: string, unit: int): int
    requires forall i :: 0 <= i < |s| ==> IsDigit(s[i])
  {
    if s == "" then 0 else Value(s[0]) * unit + Fraction(s[1..], unit / 10)
  }

  lemma {:induction false} SpanDigits(s: string)
    ensures forall i :: 0 <= i < DigitSpan(s) ==> IsDigit(s[i])
    decreases |s|
  {
    if s != "" && IsDigit(s[0]) {
      SpanDigits(s[1..]);
      forall i | 0 < i < DigitSpan(s) ensures IsDigit(s[i]) { assert s[1..][i - 1] == s[i]; }
    }
  }

  /** (?:\\.[0-9]{1,6})? */
  function ReadFraction(t: string): Parsed {
    if |t| >= 2 && t[0] == '.' && IsDigit(t[1]) then
      var span := DigitSpan(t[1..]);
      var n := if span > 6 then 6 else span;
      SpanDigits(t[1..]);
      assert forall i :: 0 <= i < n ==> t[1..1 + n][i] == t[1..][i];
      Parsed(Fraction(t[1..1 + n], 100_000), t[1 + n..])
    else Parsed(0, t)
  }

  /** (?::[0-9]{2}(?:\\.[0-9]{1,6})?)?, a real second. */
  function ReadSecond(t: string): Option<Parsed> {
    if |t| >= 3 && t[0] == ':' && TwoDigits(t, 1) then
      var f := ReadFraction(t[3..]);
      if TwoAt(t, 1) <= 59 then Some(Parsed(TwoAt(t, 1) * SECOND + f.value, f.rest)) else None
    else Some(Parsed(0, t))
  }

  /** (?:[T ][0-9]{2}:[0-9]{2}...)?, a real time of day. */
  function ReadClock(t: string): Option<Parsed> {
    if |t| >= 6 && (t[0] == 'T' || t[0] == ' ') && TwoDigits(t, 1) && t[3] == ':' && TwoDigits(t, 4) then
      match ReadSecond(t[6..])
      case None => None
      case Some(s) =>
        if TwoAt(t, 1) <= 23 && TwoAt(t, 4) <= 59 then
          Some(Parsed(TwoAt(t, 1) * HOUR + TwoAt(t, 4) * MINUTE + s.value, s.rest))
        else None
    else Some(Parsed(0, t))
  }

  datatype Offset = NoOffset | Minutes(m: int) | BadOffset

  /** \\s*(Z|[+-][0-9]{2}:?[0-9]{2})?, to the end, within a day. */
  function ReadOffset(t: string): Offset {
    var o := MapKeys.TrimLeft(t);
    if o == "" then NoOffset
    else if o == "Z" then Minutes(0)
    else if |o| >= 5 && (o[0] == '+' || o[0] == '-') && TwoDigits(o, 1) then
      var at := if o[3] == ':' then 4 else 3;
      if TwoDigits(o, at) && |o| == at + 2 && TwoAt(o, 1) <= 23 && TwoAt(o, at) <= 59 then
        var m := 60 * TwoAt(o, 1) + TwoAt(o, at);
        Minutes(if o[0] == '-' then -m else m)
      else BadOffset
    else BadOffset
  }

  /** A wall clock and the offset it was written with. */
  datatype Local = Local(count: int, offset: Option<int>)

  /** TIME, matched and checked. */
  function Read(t: string): Option<Local> {
    match ReadDay(t)
    case None => None
    case Some(day) =>
      match ReadClock(day.rest)
      case None => None
      case Some(clock) =>
        match ReadOffset(clock.rest)
        case BadOffset => None
        case NoOffset => Some(Local(day.value * DAY + clock.value, None))
        case Minutes(m) => Some(Local(day.value * DAY + clock.value, Some(m)))
  }

  /** The digits' units: a tenth of a second down to a microsecond, and nothing below. */
  predicate Unit(u: int) { u == 0 || u == 1 || u == 10 || u == 100 || u == 1000 || u == 10_000 || u == 100_000 }

  lemma {:induction false} FractionBelow(s: string, unit: int)
    requires (forall i :: 0 <= i < |s| ==> IsDigit(s[i])) && Unit(unit)
    ensures 0 <= Fraction(s, unit) && (Fraction(s, unit) < 10 * unit || Fraction(s, unit) == 0)
    decreases |s|
  {
    if s != "" {
      FractionBelow(s[1..], unit / 10);
      var v := Value(s[0]);
      assert 0 <= v * unit <= 9 * unit by {
        if unit == 0 {} else if unit == 1 {} else if unit == 10 {} else if unit == 100 {}
      }
    }
  }

  lemma {:induction false} ReadFractionBelow(t: string)
    ensures 0 <= ReadFraction(t).value < SECOND
  {
    if |t| >= 2 && t[0] == '.' && IsDigit(t[1]) {
      var span := DigitSpan(t[1..]);
      var n := if span > 6 then 6 else span;
      SpanDigits(t[1..]);
      var digits := t[1..1 + n];
      forall i | 0 <= i < |digits| ensures IsDigit(digits[i]) { assert digits[i] == t[1..][i]; }
      FractionBelow(digits, 100_000);
    }
  }

  lemma {:induction false} NumberBelow(a: char, b: char)
    requires IsDigit(a) && IsDigit(b)
    ensures 0 <= Number(a, b) <= 99
  {
  }

  lemma {:induction false} ReadSecondBelow(t: string)
    ensures ReadSecond(t).Some? ==> 0 <= ReadSecond(t).value.value < MINUTE
  {
    if |t| >= 3 && t[0] == ':' && TwoDigits(t, 1) {
      ReadFractionBelow(t[3..]);
      NumberBelow(t[1], t[2]);
    }
  }

  lemma {:induction false} ReadClockBelow(t: string)
    ensures ReadClock(t).Some? ==> 0 <= ReadClock(t).value.value < DAY
  {
    if |t| >= 6 && TwoDigits(t, 1) && TwoDigits(t, 4) {
      ReadSecondBelow(t[6..]);
      NumberBelow(t[1], t[2]);
      NumberBelow(t[4], t[5]);
    }
    hide ReadSecond, Number;
  }

  lemma {:induction false} LastOrdinal()
    ensures InMonth(Date(9999, 12, 31)) && Ordinal(Date(9999, 12, 31)) == LAST_DAY
  {
    YearSum(9999);
    assert MonthStart(9999, 13) == MonthStart(9999, 12) + 31;
  }

  lemma {:induction false} OrdinalWithin(d: Date)
    requires IsDate(d)
    ensures FIRST_DAY <= Ordinal(d) <= LAST_DAY
  {
    DateBack(d);
    LastOrdinal();
    hide Ordinal;
    if d != Date(9999, 12, 31) { OrdinalGrows(d, Date(9999, 12, 31)); }
  }

  lemma {:induction false} ReadDayWithin(t: string)
    ensures ReadDay(t).Some? ==> FIRST_DAY <= ReadDay(t).value.value <= LAST_DAY
  {
    hide Ordinal;
    if ReadDay(t).Some? {
      OrdinalWithin(Date(100 * TwoAt(t, 0) + TwoAt(t, 2), TwoAt(t, 5), TwoAt(t, 8)));
    }
  }

  /** What is read is a clock of the years 1 to 9999. */
  lemma {:induction false} ReadInYears(t: string)
    ensures Read(t).Some? ==> InYears(Read(t).value.count)
  {
    hide ReadDay, ReadClock, ReadOffset;
    if ReadDay(t).Some? {
      ReadDayWithin(t);
      ReadClockBelow(ReadDay(t).value.rest);
    }
  }

  /** `_wall` of a text: without an offset the zone's own clock, with one the same instant on it - as long as neither
      the instant nor the clock leaves the years. */
  function Wall(v: string, zone: Zone): (w: Option<int>)
    ensures w.Some? ==> InYears(w.value)
  {
    ReadInYears(MapKeys.Trim(v));
    match Read(MapKeys.Trim(v))
    case None => None
    case Some(Local(count, None)) => Some(count)
    case Some(Local(count, Some(m))) =>
      var instant := count - m * MINUTE;
      if InYears(instant) && InYears(instant + zone * MINUTE) then Some(instant + zone * MINUTE) else None
  }

  // ---- spelling ----------------------------------------------------------------------------------------------------

  function DateOf(count: int): Date
    requires InYears(count)
  {
    FromOrdinal(count / DAY)
  }

  function DateText(d: Date): string
    requires IsDate(d)
  {
    Two(d.year / 100) + Two(d.year % 100) + "-" + Two(d.month) + "-" + Two(d.day)
  }

  /** A time of day taken apart. */
  datatype Clock = Clock(hour: int, minute: int, second: int, micro: int)

  function ClockOf(count: int): Clock {
    var day := count % DAY;
    var hour := day % HOUR;
    var minute := hour % MINUTE;
    Clock(day / HOUR, hour / MINUTE, minute / SECOND, minute % SECOND)
  }

  function ClockText(c: Clock): string
    requires 0 <= c.hour <= 99 && 0 <= c.minute <= 99 && 0 <= c.second <= 99
  {
    "T" + Two(c.hour) + ":" + Two(c.minute) + ":" + Two(c.second)
  }

  lemma {:induction false} ClockParts(count: int)
    ensures var c := ClockOf(count);
            && 0 <= c.hour <= 23 && 0 <= c.minute <= 59 && 0 <= c.second <= 59 && 0 <= c.micro < SECOND
            && c.hour * HOUR + c.minute * MINUTE + c.second * SECOND + c.micro == count % DAY
  {
    var day := count % DAY;
    var hour := day % HOUR;
    var minute := hour % MINUTE;
    Quotient(count, DAY);
    Quotient(day, HOUR);
    Quotient(hour, MINUTE);
    Quotient(minute, SECOND);
    Below(day, HOUR, 24);
    Below(hour, MINUTE, 60);
    Below(minute, SECOND, 60);
  }

  lemma {:induction false} Quotient(x: int, unit: int)
    requires unit > 0
    ensures x == x / unit * unit + x % unit && 0 <= x % unit < unit
  {
  }

  lemma {:induction false} Below(x: int, unit: int, n: int)
    requires unit > 0 && 0 <= x < unit * n
    ensures 0 <= x / unit < n
  {
    Quotient(x, unit);
    var q := x / unit;
    if q >= n { Grows(n, q, unit); }
    if q < 0 { Grows(q, -1, unit); }
  }

  lemma {:induction false} Grows(a: int, b: int, unit: int)
    requires a <= b && unit > 0
    ensures a * unit <= b * unit
  {
  }

  function OffsetText(zone: Zone): string {
    var m := if zone < 0 then -zone else zone;
    (if zone < 0 then "-" else "+") + Two(m / 60) + ":" + Two(m % 60)
  }

  function MilliText(micro: int): string
    requires 0 <= micro < SECOND
  {
    if micro == 0 then "" else "." + [Digit(micro / 100_000)] + Two(micro / 1000 % 100)
  }

  function MicroText(micro: int): string
    requires 0 <= micro < SECOND
  {
    if micro == 0 then "" else "." + Two(micro / 10_000) + Two(micro / 100 % 100) + Two(micro % 100)
  }

  lemma {:induction false} DateOfIsDate(count: int)
    requires InYears(count)
    ensures IsDate(DateOf(count)) && Ordinal(DateOf(count)) == count / DAY
  {
    var n := count / DAY;
    OrdinalBack(n);
    LastOrdinal();
    var d := FromOrdinal(n);
    hide FromOrdinal, Ordinal;
    if d.year > 9999 { OrdinalGrows(Date(9999, 12, 31), d); }
  }

  /** A wall clock with a fraction and an offset as they are spelled. */
  function Spelled(count: int, fraction: string, offset: string): string
    requires InYears(count)
  {
    DateOfIsDate(count);
    ClockParts(count);
    DateText(DateOf(count)) + (ClockText(ClockOf(count)) + (fraction + offset))
  }

  /** `_time_text`: milliseconds when not 0, «Z» at offset 0. */
  function TimeText(count: int, zone: Zone): string
    requires InYears(count)
  {
    ClockParts(count);
    Spelled(count, MilliText(ClockOf(count).micro), if zone == 0 then "Z" else OffsetText(zone))
  }

  /** datetime.isoformat: microseconds when not 0. */
  function IsoText(count: int, zone: Zone): string
    requires InYears(count)
  {
    ClockParts(count);
    Spelled(count, MicroText(ClockOf(count).micro), OffsetText(zone))
  }

  /** `time_key_text`: the instant on the zone's clock, or the trimmed text that is no time. */
  function KeyText(v: string, zone: Zone): string {
    match Wall(v, zone)
    case None => MapKeys.Trim(v)
    case Some(count) => IsoText(count, zone)
  }

  /** Cut to milliseconds. */
  function Cut(count: int): int { count - ClockOf(count).micro % 1000 }

  // ---- reading what is spelled -------------------------------------------------------------------------------------

  lemma {:induction false} DayReads(d: Date, rest: string)
    requires IsDate(d)
    ensures ReadDay(DateText(d) + rest) == Some(Parsed(Ordinal(d), rest))
  {
    TwoReads(d.year / 100);
    TwoReads(d.year % 100);
    TwoReads(d.month);
    TwoReads(d.day);
    Quotient(d.year, 100);
    hide Ordinal, Two, IsDate, ReadDay;
    var c, y, m, e := Two(d.year / 100), Two(d.year % 100), Two(d.month), Two(d.day);
    assert DateText(d) + rest == c + y + "-" + m + "-" + e + rest;
    DashesRead(c, y, m, e, rest, d);
  }

  lemma {:induction false} DashesRead(c: string, y: string, m: string, e: string, rest: string, d: Date)
    requires |c| == |y| == |m| == |e| == 2 && TwoDigits(c, 0) && TwoDigits(y, 0) && TwoDigits(m, 0) && TwoDigits(e, 0)
    requires IsDate(d) && d == Date(100 * TwoAt(c, 0) + TwoAt(y, 0), TwoAt(m, 0), TwoAt(e, 0))
    ensures ReadDay(c + y + "-" + m + "-" + e + rest) == Some(Parsed(Ordinal(d), rest))
  {
    hide Ordinal, IsDate;
    var t := c + y + "-" + m + "-" + e + rest;
    assert t[0] == c[0] && t[1] == c[1] && t[2] == y[0] && t[3] == y[1] && t[5] == m[0] && t[6] == m[1];
    assert t[8] == e[0] && t[9] == e[1] && t[10..] == rest;
  }

  /** What follows the digits of a time: nothing more of it. */
  predicate Ends(offset: string) { offset != "" && !IsDigit(offset[0]) && offset[0] != '.' && offset[0] != ':' }

  /** The fraction is read as its value and no further. */
  predicate FractionReads(fraction: string, value: int, offset: string) {
    (fraction == "" || fraction[0] == '.') && ReadFraction(fraction + offset) == Parsed(value, offset)
  }

  lemma {:induction false} SpanIs(digits: string, offset: string)
    requires (forall i :: 0 <= i < |digits| ==> IsDigit(digits[i])) && Ends(offset)
    ensures DigitSpan(digits + offset) == |digits|
    decreases |digits|
  {
    if digits == "" {
      assert digits + offset == offset;
    } else {
      SpanIs(digits[1..], offset);
      assert (digits + offset)[1..] == digits[1..] + offset;
    }
  }

  lemma {:induction false} PointReads(digits: string, offset: string)
    requires (forall i :: 0 <= i < |digits| ==> IsDigit(digits[i])) && 1 <= |digits| <= 6 && Ends(offset)
    ensures FractionReads("." + digits, Fraction(digits, 100_000), offset)
  {
    SpanIs(digits, offset);
    var t := "." + digits + offset;
    assert t[1..] == digits + offset && t[1..1 + |digits|] == digits && t[1 + |digits|..] == offset;
    assert t[1] == digits[0];
  }

  lemma {:induction false} MilliReads(micro: int, offset: string)
    requires 0 <= micro < SECOND && Ends(offset)
    ensures FractionReads(MilliText(micro), micro - micro % 1000, offset)
  {
    if micro == 0 {
      assert "" + offset == offset;
    } else {
      var a, b := micro / 100_000, micro / 1000 % 100;
      TwoReads(b);
      var digits := [Digit(a)] + Two(b);
      hide Two;
      PointReads(digits, offset);
      TwoFraction(Two(b), "", 10_000);
      assert Two(b) + "" == Two(b) && digits[1..] == Two(b);
      assert Fraction(digits, 100_000) == a * 100_000 + Fraction(digits[1..], 10_000);
      assert "." + [Digit(a)] + Two(b) == "." + digits;
      Thousands(micro);
    }
  }

  lemma {:induction false} Thousands(micro: int)
    requires 0 <= micro < SECOND
    ensures micro - micro % 1000 == micro / 100_000 * 100_000 + micro / 1000 % 100 * 1000
  {
    assert micro / 100_000 == micro / 1000 / 100;
  }

  lemma {:induction false} MicroReads(micro: int, offset: string)
    requires 0 <= micro < SECOND && Ends(offset)
    ensures FractionReads(MicroText(micro), micro, offset)
  {
    if micro == 0 {
      assert "" + offset == offset;
    } else {
      var a, b, c := micro / 10_000, micro / 100 % 100, micro % 100;
      TwoReads(a);
      TwoReads(b);
      TwoReads(c);
      var digits := Two(a) + (Two(b) + Two(c));
      hide Two;
      PointReads(digits, offset);
      TwoFraction(Two(a), Two(b) + Two(c), 100_000);
      TwoFraction(Two(b), Two(c), 1000);
      TwoFraction(Two(c), "", 10);
      assert Two(c) + "" == Two(c);
      assert "." + Two(a) + Two(b) + Two(c) == "." + digits;
      assert micro / 10_000 == micro / 100 / 100;
    }
  }

  lemma {:induction false} TwoFraction(two: string, rest: string, unit: int)
    requires |two| == 2 && unit % 10 == 0
    requires IsDigit(two[0]) && IsDigit(two[1]) && forall i :: 0 <= i < |rest| ==> IsDigit(rest[i])
    ensures forall i :: 0 <= i < |two + rest| ==> IsDigit((two + rest)[i])
    ensures Fraction(two + rest, unit) == Number(two[0], two[1]) * (unit / 10) + Fraction(rest, unit / 10 / 10)
  {
    var t := two + rest;
    assert t[1..][1..] == rest && t[1..][0] == two[1];
    assert Fraction(t, unit) == Value(t[0]) * unit + Fraction(t[1..], unit / 10);
    assert Fraction(t[1..], unit / 10) == Value(two[1]) * (unit / 10) + Fraction(rest, unit / 10 / 10);
    assert Value(t[0]) * unit == 10 * Value(t[0]) * (unit / 10);
  }

  lemma {:induction false} SecondReads(second: int, fraction: string, value: int, offset: string)
    requires 0 <= second <= 59 && Ends(offset) && FractionReads(fraction, value, offset)
    ensures ReadSecond(":" + Two(second) + (fraction + offset)) == Some(Parsed(second * SECOND + value, offset))
  {
    TwoReads(second);
    hide Two, ReadFraction;
    var t := ":" + Two(second) + (fraction + offset);
    assert t[1..3] == Two(second) && t[3..] == fraction + offset;
    assert t[1] == Two(second)[0] && t[2] == Two(second)[1];
  }

  lemma {:induction false} ClockReads(c: Clock, fraction: string, value: int, offset: string)
    requires 0 <= c.hour <= 23 && 0 <= c.minute <= 59 && 0 <= c.second <= 59
    requires Ends(offset) && FractionReads(fraction, value, offset)
    ensures ReadClock(ClockText(c) + (fraction + offset))
         == Some(Parsed(c.hour * HOUR + c.minute * MINUTE + c.second * SECOND + value, offset))
  {
    hide Two, ReadFraction, ReadSecond, FractionReads, ReadClock, Ends;
    SecondReads(c.second, fraction, value, offset);
    var seconds := ":" + Two(c.second);
    HourFormReads('T', c.hour, c.minute, seconds, fraction + offset, Parsed(c.second * SECOND + value, offset));
    assert ClockText(c) == "T" + Two(c.hour) + ":" + Two(c.minute) + seconds;
  }

  lemma {:induction false} OffsetReads(zone: Zone)
    ensures ReadOffset(OffsetText(zone)) == Minutes(zone) && Ends(OffsetText(zone))
    ensures ReadOffset("Z") == Minutes(0) && Ends("Z")
  {
    var m := if zone < 0 then -zone else zone;
    TwoReads(m / 60);
    TwoReads(m % 60);
    hide Two;
    var t := OffsetText(zone);
    assert t[1..3] == Two(m / 60) && t[4..6] == Two(m % 60) && !IsSpace(t[0]);
    assert TwoDigits(t, 1) && TwoDigits(t, 4);
  }

  /** Reading a spelled time gives its clock, its fraction as read, and its offset. */
  lemma {:induction false} SpelledReads(count: int, fraction: string, value: int, offset: string, zone: int)
    requires InYears(count) && FractionReads(fraction, value, offset)
    requires Ends(offset) && ReadOffset(offset) == Minutes(zone)
    ensures Read(Spelled(count, fraction, offset)) == Some(Local(count - ClockOf(count).micro + value, Some(zone)))
  {
    hide ReadDay, ReadClock, ReadOffset, ClockText, FractionReads, ClockOf, Ends, Read, Spelled;
    var c := ClockOf(count);
    var time := c.hour * HOUR + c.minute * MINUTE + c.second * SECOND;
    ClockParts(count);
    SpelledParts(count, fraction, offset);
    ClockReads(c, fraction, value, offset);
    ReadIs(Spelled(count, fraction, offset), count / DAY, ClockText(c) + (fraction + offset), time + value,
           offset, zone);
    WholeSeconds(count);
  }

  lemma {:induction false} WholeSeconds(count: int)
    ensures var c := ClockOf(count);
            count / DAY * DAY + (c.hour * HOUR + c.minute * MINUTE + c.second * SECOND) == count - c.micro
  {
    ClockParts(count);
    Quotient(count, DAY);
    hide ClockOf;
  }

  lemma {:induction false} SpelledParts(count: int, fraction: string, offset: string)
    requires InYears(count)
    ensures var c := ClockOf(count);
            && 0 <= c.hour <= 23 && 0 <= c.minute <= 59 && 0 <= c.second <= 59
            && ReadDay(Spelled(count, fraction, offset))
               == Some(Parsed(count / DAY, ClockText(c) + (fraction + offset)))
  {
    DateOfIsDate(count);
    ClockParts(count);
    hide ReadDay, DateText, ClockText, DateOf, ClockOf;
    DayReads(DateOf(count), ClockText(ClockOf(count)) + (fraction + offset));
  }

  lemma {:induction false} ReadIs(t: string, day: int, clock: string, time: int, offset: string, zone: int)
    requires ReadDay(t) == Some(Parsed(day, clock)) && ReadClock(clock) == Some(Parsed(time, offset))
    requires ReadOffset(offset) == Minutes(zone)
    ensures Read(t) == Some(Local(day * DAY + time, Some(zone)))
  {
    hide ReadDay, ReadClock, ReadOffset;
  }

  // ---- the laws ----------------------------------------------------------------------------------------------------

  lemma {:induction false} PlainIsTrimmed(s: string)
    requires s != "" && !IsSpace(s[0]) && !IsSpace(s[|s| - 1])
    ensures MapKeys.Trim(s) == s
  {
  }

  lemma {:induction false} SpelledIsTrimmed(count: int, fraction: string, offset: string)
    requires InYears(count) && offset != "" && !IsSpace(offset[|offset| - 1])
    ensures MapKeys.Trim(Spelled(count, fraction, offset)) == Spelled(count, fraction, offset)
  {
    DateOfIsDate(count);
    ClockParts(count);
    var d := DateOf(count);
    TwoReads(d.year / 100);
    hide Two, DateOf, ClockOf, IsSpace;
    var t := Spelled(count, fraction, offset);
    assert t[0] == Two(d.year / 100)[0];
    assert t[|t| - 1] == offset[|offset| - 1];
    DigitIsNoSpace(t[0]);
    PlainIsTrimmed(t);
  }

  lemma {:induction false} DigitIsNoSpace(c: char)
    requires IsDigit(c)
    ensures !IsSpace(c)
  {
  }

  lemma {:induction false} OffsetEnds(zone: Zone)
    ensures !IsSpace("Z"[0]) && OffsetText(zone) != "" && !IsSpace(OffsetText(zone)[|OffsetText(zone)| - 1])
  {
    var m := if zone < 0 then -zone else zone;
    TwoReads(m % 60);
    hide Two, IsSpace;
    var t := OffsetText(zone);
    assert t[|t| - 1] == Two(m % 60)[1];
    DigitIsNoSpace(t[|t| - 1]);
    assert !IsSpace('Z') by { LetterIsNoSpace(); }
  }

  lemma {:induction false} LetterIsNoSpace()
    ensures !IsSpace('Z')
  {
  }

  lemma {:induction false} IsoReads(count: int, zone: Zone)
    requires InYears(count)
    ensures Read(IsoText(count, zone)) == Some(Local(count, Some(zone)))
    ensures MapKeys.Trim(IsoText(count, zone)) == IsoText(count, zone)
  {
    hide Read, Spelled, ReadOffset, OffsetText, MicroText, FractionReads, ClockOf, IsSpace;
    var micro := ClockOf(count).micro;
    ClockParts(count);
    OffsetReads(zone);
    OffsetEnds(zone);
    MicroReads(micro, OffsetText(zone));
    SpelledReads(count, MicroText(micro), micro, OffsetText(zone), zone);
    SpelledIsTrimmed(count, MicroText(micro), OffsetText(zone));
  }

  lemma {:induction false} TimeReads(count: int, zone: Zone)
    requires InYears(count)
    ensures Read(TimeText(count, zone)) == Some(Local(Cut(count), Some(zone)))
    ensures MapKeys.Trim(TimeText(count, zone)) == TimeText(count, zone)
  {
    hide Read, Spelled, ReadOffset, OffsetText, MilliText, FractionReads, ClockOf, IsSpace;
    var micro := ClockOf(count).micro;
    var offset := if zone == 0 then "Z" else OffsetText(zone);
    ClockParts(count);
    OffsetReads(zone);
    OffsetEnds(zone);
    MilliReads(micro, offset);
    SpelledReads(count, MilliText(micro), micro - micro % 1000, offset, zone);
    SpelledIsTrimmed(count, MilliText(micro), offset);
  }

  lemma {:induction false} CutStays(count: int)
    requires InYears(count)
    ensures InYears(Cut(count)) && Cut(count) <= count
  {
    ClockParts(count);
    WholeSeconds(count);
    hide ClockOf;
    Quotient(count, DAY);
    assert Cut(count) >= count / DAY * DAY;
    AtLeastOne(count, DAY);
    Grows(FIRST_DAY, count / DAY, DAY);
  }

  lemma {:induction false} AtLeastOne(x: int, unit: int)
    requires unit > 0 && x >= unit
    ensures x / unit >= 1
  {
    Quotient(x, unit);
    var q := x / unit;
    if q <= 0 { Grows(q, 0, unit); }
  }

  /** A time spelled for the calculators reads back cut to milliseconds - exactly where its instant is still of the
      years 1 to 9999, and as no time where it is not. */
  lemma {:induction false} TimeTextReadsBack(count: int, zone: Zone)
    requires InYears(count)
    ensures Wall(TimeText(count, zone), zone) == if InYears(Cut(count) - zone * MINUTE) then Some(Cut(count)) else None
  {
    hide Read, TimeText, Cut, InYears, Wall;
    TimeReads(count, zone);
    CutStays(count);
    WallOf(TimeText(count, zone), Cut(count), zone);
  }

  /** The first midnight of year 1 in a zone nine hours ahead is spelled, and read as no time. */
  lemma {:induction false} FirstMidnightIsLost()
    ensures InYears(DAY) && !InYears(Cut(DAY) - 540 * MINUTE) && Wall(TimeText(DAY, 540), 540) == None
  {
    hide Read, TimeText, Wall, Cut;
    MidnightIsWhole();
    assert !InYears(DAY - 540 * MINUTE);
    TimeTextReadsBack(DAY, 540);
  }

  lemma {:induction false} MidnightIsWhole()
    ensures Cut(DAY) == DAY
  {
    assert DAY % DAY == 0;
  }

  /** On a zone's clock a time is later than it is written by as much as the zone is ahead of the offset it is written
      with, and as it is written without one - while neither the instant nor the clock leaves the years. */
  lemma {:induction false} ClockIsAheadByTheDifference(v: string, zone: Zone, count: int, offset: Option<int>)
    requires Read(MapKeys.Trim(v)) == Some(Local(count, offset))
    ensures offset == None ==> Wall(v, zone) == Some(count)
    ensures offset.Some? ==>
              var instant, clock := count - offset.value * MINUTE, count + (zone - offset.value) * MINUTE;
              Wall(v, zone) == if InYears(instant) && InYears(clock) then Some(clock) else None
  {
    hide Read, InYears;
    if offset.Some? {
      assert count - offset.value * MINUTE + zone * MINUTE == count + (zone - offset.value) * MINUTE;
    }
  }

  /** A clock written with its own zone's offset. */
  lemma {:induction false} WallOf(t: string, count: int, zone: Zone)
    requires Read(MapKeys.Trim(t)) == Some(Local(count, Some(zone))) && InYears(count)
    ensures Wall(t, zone) == if InYears(count - zone * MINUTE) then Some(count) else None
  {
    hide Read, InYears;
    assert count - zone * MINUTE + zone * MINUTE == count;
  }

  lemma {:induction false} IsoTextReadsBack(count: int, zone: Zone)
    requires InYears(count)
    ensures Wall(IsoText(count, zone), zone) == if InYears(count - zone * MINUTE) then Some(count) else None
  {
    hide Read, IsoText, InYears, Wall;
    IsoReads(count, zone);
    WallOf(IsoText(count, zone), count, zone);
  }

  /** A key's time spelled again is the same text, whatever the text was. */
  lemma {:induction false} KeyTextSettles(v: string, zone: Zone)
    ensures KeyText(KeyText(v, zone), zone) == KeyText(v, zone)
  {
    hide Read, IsoText, InYears;
    match Wall(v, zone) {
      case None =>
        MapKeys.TrimTwice(v);
        assert Wall(MapKeys.Trim(v), zone) == Wall(v, zone);
      case Some(count) =>
        IsoTextReadsBack(count, zone);
        IsoReads(count, zone);
    }
  }

  /** The instant a text names. */
  function InstantOf(l: Local, zone: Zone): int {
    l.count - (match l.offset case None => zone * MINUTE case Some(m) => m * MINUTE)
  }

  /** Two times get one text exactly when they are one instant, however they are written. */
  lemma {:induction false} OneTextExactlyOneInstant(v: string, w: string, zone: Zone)
    requires Wall(v, zone).Some? && Wall(w, zone).Some?
    ensures KeyText(v, zone) == KeyText(w, zone)
        <==> InstantOf(Read(MapKeys.Trim(v)).value, zone) == InstantOf(Read(MapKeys.Trim(w)).value, zone)
  {
    WallIsInstant(v, zone);
    WallIsInstant(w, zone);
    IsoTextsApart(Wall(v, zone).value, Wall(w, zone).value, zone);
    hide Read, IsoText, Wall, InstantOf;
  }

  lemma {:induction false} IsoTextsApart(count: int, other: int, zone: Zone)
    requires InYears(count) && InYears(other)
    ensures IsoText(count, zone) == IsoText(other, zone) <==> count == other
  {
    IsoReads(count, zone);
    IsoReads(other, zone);
    hide Read, IsoText;
  }

  lemma {:induction false} WallIsInstant(v: string, zone: Zone)
    requires Wall(v, zone).Some?
    ensures Read(MapKeys.Trim(v)).Some?
    ensures Wall(v, zone).value == InstantOf(Read(MapKeys.Trim(v)).value, zone) + zone * MINUTE
  {
    hide Read;
  }

  /** The zone's clock is a reader a map key may be spelled by. */
  lemma {:induction false} ClockIsLawful(zone: Zone, r: MapKeys.Readers, s: string, t: string)
    requires forall v :: r.timeText(v)
               == match Wall(v, zone) case None => None case Some(count) => Some(IsoText(count, zone))
    requires r.timeText(s) == Some(t)
    ensures t != "" && MapKeys.Trim(t) == t && (r.timeText(t) == Some(t) || r.timeText(t) == None)
  {
    var count := Wall(s, zone).value;
    IsoReads(count, zone);
    IsoTextReadsBack(count, zone);
    hide Read, IsoText, Wall, InYears;
    assert Read("") == None by { NothingRead(); }
  }

  lemma {:induction false} NothingRead()
    ensures Read("") == None
  {
  }

  // ---- every form a time may be written in -------------------------------------------------------------------------

  /** No time of day, or one with what is written of it; a fraction of one to six digits. */
  datatype ClockForm = NoClock | Minute(hour: int, minute: int) | Second(hour: int, minute: int, second: int)
    | Part(hour: int, minute: int, second: int, digits: string)

  /** No offset, «Z», or hours and minutes with a colon or without. */
  datatype OffsetForm = Unwritten | Zulu | Ahead(back: bool, hours: int, minutes: int, colon: bool)

  predicate ClockFits(c: ClockForm) {
    match c
    case NoClock => true
    case Minute(h, m) => 0 <= h <= 23 && 0 <= m <= 59
    case Second(h, m, s) => 0 <= h <= 23 && 0 <= m <= 59 && 0 <= s <= 59
    case Part(h, m, s, digits) =>
      0 <= h <= 23 && 0 <= m <= 59 && 0 <= s <= 59 && 1 <= |digits| <= 6 && MapKeys.AllDigits(digits)
  }

  predicate OffsetFits(o: OffsetForm) { o.Ahead? ==> 0 <= o.hours <= 23 && 0 <= o.minutes <= 59 }

  function ClockWritten(sep: char, c: ClockForm): string
    requires ClockFits(c)
  {
    match c
    case NoClock => ""
    case Minute(h, m) => [sep] + Two(h) + ":" + Two(m)
    case Second(h, m, s) => [sep] + Two(h) + ":" + Two(m) + (":" + Two(s))
    case Part(h, m, s, digits) => [sep] + Two(h) + ":" + Two(m) + (":" + Two(s) + ("." + digits))
  }

  function OffsetWritten(o: OffsetForm): string
    requires OffsetFits(o)
  {
    match o
    case Unwritten => ""
    case Zulu => "Z"
    case Ahead(back, h, m, colon) => (if back then "-" else "+") + Two(h) + (if colon then ":" else "") + Two(m)
  }

  function Tens(n: nat): int { if n == 0 then 1 else 10 * Tens(n - 1) }

  /** The microseconds since midnight: a fraction's digits filled up to six. */
  function ClockCount(c: ClockForm): int {
    match c
    case NoClock => 0
    case Minute(h, m) => h * HOUR + m * MINUTE
    case Second(h, m, s) => h * HOUR + m * MINUTE + s * SECOND
    case Part(h, m, s, digits) =>
      h * HOUR + m * MINUTE + s * SECOND + if |digits| <= 6 then MapKeys.Counted(digits) * Tens(6 - |digits|) else 0
  }

  function OffsetCount(o: OffsetForm): Option<int> {
    match o
    case Unwritten => None
    case Zulu => Some(0)
    case Ahead(back, h, m, _) => Some(if back then -(60 * h + m) else 60 * h + m)
  }

  /** Every form is read: the day, «T» or a blank before the time, seconds and a fraction where they are, blanks before
      the offset, and the offset as it is written. */
  lemma {:induction false} FormsRead(d: Date, sep: char, c: ClockForm, blanks: string, o: OffsetForm)
    requires IsDate(d) && (sep == 'T' || sep == ' ') && ClockFits(c) && OffsetFits(o)
    requires forall i :: 0 <= i < |blanks| ==> IsSpace(blanks[i])
    ensures Read(DateText(d) + (ClockWritten(sep, c) + (blanks + OffsetWritten(o))))
         == Some(Local(Ordinal(d) * DAY + ClockCount(c), OffsetCount(o)))
  {
    hide ReadDay, ReadClock, ReadOffset, DateText, ClockWritten, OffsetWritten, Ordinal, ClockCount, Follows;
    var tail := blanks + OffsetWritten(o);
    DayReads(d, ClockWritten(sep, c) + tail);
    TailFollows(blanks, o);
    ClockFormReads(sep, c, tail);
    OffsetFormReads(blanks, o);
    ReadInParts(DateText(d) + (ClockWritten(sep, c) + tail), Ordinal(d), ClockWritten(sep, c) + tail, ClockCount(c),
                tail, OffsetCount(o));
  }

  lemma {:induction false} ReadInParts(t: string, day: int, rest: string, time: int, tail: string, offset: Option<int>)
    requires ReadDay(t) == Some(Parsed(day, rest)) && ReadClock(rest) == Some(Parsed(time, tail))
    requires ReadOffset(tail) == match offset case None => NoOffset case Some(m) => Minutes(m)
    ensures Read(t) == Some(Local(day * DAY + time, offset))
  {
    hide ReadDay, ReadClock, ReadOffset;
  }

  /** What may follow a time of day: nothing of it. */
  predicate Follows(tail: string) {
    tail == ""
    || (tail[0] != ':' && tail[0] != '.' && !IsDigit(tail[0]) && tail[0] != 'T'
        && (|tail| > 1 && tail[0] == ' ' ==> !IsDigit(tail[1])))
  }

  lemma {:induction false} TailFollows(blanks: string, o: OffsetForm)
    requires OffsetFits(o) && forall i :: 0 <= i < |blanks| ==> IsSpace(blanks[i])
    ensures Follows(blanks + OffsetWritten(o))
  {
    hide Two;
    var w := OffsetWritten(o);
    assert w != "" ==> w[0] == 'Z' || w[0] == '+' || w[0] == '-';
    var tail := blanks + w;
    if blanks != "" {
      assert tail[0] == blanks[0];
      if |blanks| > 1 { assert tail[1] == blanks[1]; }
    } else {
      assert tail == w;
    }
  }

  lemma {:induction false} ClockFormReads(sep: char, c: ClockForm, tail: string)
    requires (sep == 'T' || sep == ' ') && ClockFits(c) && Follows(tail)
    ensures ReadClock(ClockWritten(sep, c) + tail) == Some(Parsed(ClockCount(c), tail))
  {
    match c
    case NoClock => NoClockReads(sep, tail);
    case Minute(h, m) => MinuteReads(sep, h, m, tail);
    case Second(h, m, s) => SecondFormReads(sep, h, m, s, tail);
    case Part(h, m, s, digits) => PartFormReads(sep, h, m, s, digits, tail);
  }

  lemma {:induction false} NoClockReads(sep: char, tail: string)
    requires Follows(tail)
    ensures ReadClock(ClockWritten(sep, NoClock) + tail) == Some(Parsed(0, tail))
  {
    assert ClockWritten(sep, NoClock) + tail == tail;
  }

  lemma {:induction false} MinuteReads(sep: char, h: int, m: int, tail: string)
    requires (sep == 'T' || sep == ' ') && ClockFits(Minute(h, m)) && Follows(tail)
    ensures ReadClock(ClockWritten(sep, Minute(h, m)) + tail) == Some(Parsed(ClockCount(Minute(h, m)), tail))
  {
    NoSecondReads(tail);
    HourFormReads(sep, h, m, "", tail, Parsed(0, tail));
    assert ClockWritten(sep, Minute(h, m)) == [sep] + Two(h) + ":" + Two(m) + "";
    hide ReadClock, ReadSecond, Two, Follows;
  }

  lemma {:induction false} SecondFormReads(sep: char, h: int, m: int, s: int, tail: string)
    requires (sep == 'T' || sep == ' ') && ClockFits(Second(h, m, s)) && Follows(tail)
    ensures ReadClock(ClockWritten(sep, Second(h, m, s)) + tail) == Some(Parsed(ClockCount(Second(h, m, s)), tail))
  {
    PlainSecondReads(s, tail);
    HourFormReads(sep, h, m, ":" + Two(s), tail, Parsed(s * SECOND, tail));
    assert ClockWritten(sep, Second(h, m, s)) == [sep] + Two(h) + ":" + Two(m) + (":" + Two(s));
    hide ReadClock, ReadSecond, Two, Follows;
  }

  lemma {:induction false} PartFormReads(sep: char, h: int, m: int, s: int, digits: string, tail: string)
    requires (sep == 'T' || sep == ' ') && ClockFits(Part(h, m, s, digits)) && Follows(tail)
    ensures ReadClock(ClockWritten(sep, Part(h, m, s, digits)) + tail)
         == Some(Parsed(ClockCount(Part(h, m, s, digits)), tail))
  {
    hide ReadClock, ReadSecond, Two, Follows, MapKeys.Counted, Tens;
    var seconds := ":" + Two(s) + ("." + digits);
    PartReads(s, digits, tail);
    HourFormReads(sep, h, m, seconds, tail,
                  Parsed(s * SECOND + MapKeys.Counted(digits) * Tens(6 - |digits|), tail));
    assert ClockWritten(sep, Part(h, m, s, digits)) == [sep] + Two(h) + ":" + Two(m) + seconds;
  }

  lemma {:induction false} HourFormReads(sep: char, h: int, m: int, seconds: string, tail: string, read: Parsed)
    requires (sep == 'T' || sep == ' ') && 0 <= h <= 23 && 0 <= m <= 59 && ReadSecond(seconds + tail) == Some(read)
    ensures ReadClock([sep] + Two(h) + ":" + Two(m) + seconds + tail)
         == Some(Parsed(h * HOUR + m * MINUTE + read.value, read.rest))
  {
    TwoReads(h);
    TwoReads(m);
    hide Two, ReadSecond, ReadClock;
    AnyHourReads(sep, Two(h), Two(m), seconds, tail, read);
  }

  lemma {:induction false} NoSecondReads(tail: string)
    requires Follows(tail)
    ensures ReadSecond("" + tail) == Some(Parsed(0, tail))
  {
    assert "" + tail == tail;
  }

  lemma {:induction false} PlainSecondReads(second: int, tail: string)
    requires 0 <= second <= 59 && Follows(tail)
    ensures ReadSecond(":" + Two(second) + tail) == Some(Parsed(second * SECOND, tail))
  {
    TwoReads(second);
    hide Two;
    var t := ":" + Two(second) + tail;
    assert t[1..3] == Two(second) && t[3..] == tail;
    assert t[1] == Two(second)[0] && t[2] == Two(second)[1];
  }

  lemma {:induction false} PartReads(second: int, digits: string, tail: string)
    requires 0 <= second <= 59 && 1 <= |digits| <= 6 && MapKeys.AllDigits(digits) && Follows(tail)
    ensures ReadSecond(":" + Two(second) + ("." + digits) + tail)
         == Some(Parsed(second * SECOND + MapKeys.Counted(digits) * Tens(6 - |digits|), tail))
  {
    TwoReads(second);
    DigitsRead(digits, tail);
    var two, part := Two(second), "." + digits;
    assert |two| == 2;
    hide Two, ReadFraction, Follows, MapKeys.Counted, Tens;
    ColonParts(two, part, tail);
  }

  lemma {:induction false} ColonParts(two: string, part: string, tail: string)
    requires |two| == 2
    ensures var t := ":" + two + part + tail;
            |t| >= 3 && t[0] == ':' && t[1] == two[0] && t[2] == two[1] && t[3..] == part + tail
  {
  }

  lemma {:induction false} DigitsRead(digits: string, tail: string)
    requires 1 <= |digits| <= 6 && MapKeys.AllDigits(digits) && Follows(tail)
    ensures ReadFraction("." + digits + tail) == Parsed(MapKeys.Counted(digits) * Tens(6 - |digits|), tail)
  {
    SpanEnds(digits, tail);
    assert Tens(5) == 100_000;
    FractionCounts(digits, 5);
    hide MapKeys.Counted, Tens;
    var t := "." + digits + tail;
    assert t[1..] == digits + tail && t[1..1 + |digits|] == digits && t[1 + |digits|..] == tail;
    assert t[1] == digits[0];
  }

  lemma {:induction false} SpanEnds(digits: string, tail: string)
    requires MapKeys.AllDigits(digits) && (tail == "" || !IsDigit(tail[0]))
    ensures DigitSpan(digits + tail) == |digits|
    decreases |digits|
  {
    if digits == "" {
      assert digits + tail == tail;
    } else {
      SpanEnds(digits[1..], tail);
      assert (digits + tail)[1..] == digits[1..] + tail;
    }
  }

  lemma {:induction false} TensAdd(a: nat, b: nat)
    ensures Tens(a) * Tens(b) == Tens(a + b)
  {
    if a > 0 { TensAdd(a - 1, b); }
  }

  lemma {:induction false} CountedFirst(s: string)
    requires s != ""
    ensures MapKeys.Counted(s) == (s[0] as int - '0' as int) * Tens(|s| - 1) + MapKeys.Counted(s[1..])
    decreases |s|
  {
    var n := |s| - 1;
    var first, last := s[0] as int - '0' as int, s[n] as int - '0' as int;
    if n > 0 {
      CountedFirst(s[..n]);
      assert s[..n][1..] == s[1..][..n - 1];
      var middle := MapKeys.Counted(s[..n][1..]);
      assert MapKeys.Counted(s[1..]) == 10 * middle + last;
      assert MapKeys.Counted(s) == 10 * MapKeys.Counted(s[..n]) + last;
      Tenfold(first, Tens(n - 1));
      hide MapKeys.Counted;
    }
  }

  lemma {:induction false} Tenfold(a: int, x: int)
    ensures a * (10 * x) == 10 * (a * x)
  {
  }

  lemma {:induction false} FractionCounts(s: string, j: nat)
    requires MapKeys.AllDigits(s) && |s| <= j + 1
    ensures Fraction(s, Tens(j)) == MapKeys.Counted(s) * Tens(j + 1 - |s|)
    decreases |s|
  {
    if s != "" {
      CountedFirst(s);
      TensAdd(|s| - 1, j + 1 - |s|);
      if |s| > 1 {
        FractionCounts(s[1..], j - 1);
        assert Tens(j) / 10 == Tens(j - 1);
      }
      Distributes(Value(s[0]), Tens(|s| - 1), MapKeys.Counted(s[1..]), Tens(j + 1 - |s|));
    }
  }

  lemma {:induction false} Distributes(a: int, b: int, c: int, d: int)
    ensures (a * b + c) * d == a * (b * d) + c * d
  {
  }

  lemma {:induction false} AnyHourReads(sep: char, hour: string, minute: string, seconds: string, tail: string,
                                        read: Parsed)
    requires (sep == 'T' || sep == ' ') && |hour| == 2 && |minute| == 2 && TwoDigits(hour, 0) && TwoDigits(minute, 0)
    requires TwoAt(hour, 0) <= 23 && TwoAt(minute, 0) <= 59 && ReadSecond(seconds + tail) == Some(read)
    ensures ReadClock([sep] + hour + ":" + minute + seconds + tail)
         == Some(Parsed(TwoAt(hour, 0) * HOUR + TwoAt(minute, 0) * MINUTE + read.value, read.rest))
  {
    hide ReadSecond;
    var t := [sep] + hour + ":" + minute + seconds + tail;
    assert t[1] == hour[0] && t[2] == hour[1] && t[4] == minute[0] && t[5] == minute[1];
    assert t[6..] == seconds + tail;
  }

  lemma {:induction false} BlanksDropped(blanks: string, w: string)
    requires (forall i :: 0 <= i < |blanks| ==> IsSpace(blanks[i])) && (w == "" || !IsSpace(w[0]))
    ensures MapKeys.TrimLeft(blanks + w) == w
    decreases |blanks|
  {
    if blanks == "" {
      assert blanks + w == w;
    } else {
      BlanksDropped(blanks[1..], w);
      assert (blanks + w)[1..] == blanks[1..] + w;
    }
  }

  lemma {:induction false} OffsetFormReads(blanks: string, o: OffsetForm)
    requires OffsetFits(o) && forall i :: 0 <= i < |blanks| ==> IsSpace(blanks[i])
    ensures ReadOffset(blanks + OffsetWritten(o))
         == match OffsetCount(o) case None => NoOffset case Some(m) => Minutes(m)
  {
    var w := OffsetWritten(o);
    if o.Ahead? {
      TwoReads(o.hours);
      TwoReads(o.minutes);
      hide Two;
      var at := if o.colon then 4 else 3;
      assert w[1] == Two(o.hours)[0] && w[2] == Two(o.hours)[1];
      assert w[at] == Two(o.minutes)[0] && w[at + 1] == Two(o.minutes)[1];
      assert TwoDigits(w, 1) && TwoDigits(w, at) && (w[3] == ':' <==> o.colon);
    }
    BlanksDropped(blanks, w);
  }
}
