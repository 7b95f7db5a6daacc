/**
 * The time value and its arithmetic. A `TimeBender` is a Unix timestamp in
 * a timezone; every operation clones the receiver, changes the clone and
 * returns it, so the receiver never changes. Fixed units (second, minute,
 * hour, day) move the timestamp by an exact number of seconds; months and
 * years are handed to the host calendar as relative-interval text.
 */
module Arithmetic {
  import opened Wrappers
  import opened PhpStrings

  const SecondsPerMinute: int := 60
  const SecondsPerHour: int := 3600
  const SecondsPerDay: int := 86400

  /**
   * The host calendar's `DateInterval::createFromDateString($text)` followed
   * by `add`: given a timestamp, a timezone and interval text, the new
   * timestamp, or None when the text is not understood.
   */
  type Calendar = (int, string, string) -> Option<int>

  /** The host's `strtotime`: the timestamp a date expression denotes, or None. */
  type DateParser = string -> Option<int>

  class TimeBender {
    /** `getTimestamp()`: seconds since the epoch. */
    var ts: int
    /** The timezone identifier; a clone keeps the same zone. */
    var zone: string
    /**
     * The dynamic public property `timestamp`: absent until `addInterval`
     * writes it, and copied along by `clone`.
     */
    var timestampProperty: Option<int>

    constructor (ts: int, zone: string)
      ensures this.ts == ts && this.zone == zone && timestampProperty == None
    {
      this.ts := ts;
      this.zone := zone;
      timestampProperty := None;
    }

    /** `clone $this`: a shallow copy, dynamic properties included. */
    method Clone() returns (c: TimeBender)
      ensures fresh(c) && c.ts == ts && c.zone == zone && c.timestampProperty == timestampProperty
    {
      c := new TimeBender(ts, zone);
      c.timestampProperty := timestampProperty;
    }

    /** `setTimestamp($t)` on this object. */
    method SetTimestamp(t: int)
      modifies this
      ensures ts == t && zone == old(zone) && timestampProperty == old(timestampProperty)
    {
      ts := t;
    }

    /** `parse($string)`: the timestamp `strtotime` gives, or the exception when it fails. */
    method Parse(text: string, strtotime: DateParser) returns (r: Result<TimeBender, string>)
      ensures strtotime(text).None? ==> r == Failure("The string could not be parsed.")
      ensures strtotime(text).Some? ==>
        r.Success? && fresh(r.value) && r.value.ts == strtotime(text).value && r.value.zone == zone
        && r.value.timestampProperty == timestampProperty
      ensures unchanged(this)
    {
      var t := strtotime(text);
      if t.None? {
        return Failure("The string could not be parsed.");
      }
      var c := Clone();
      c.SetTimestamp(t.value);
      r := Success(c);
    }

    method AddSecond(n: int) returns (r: TimeBender)
      ensures fresh(r) && r.ts == ts + n && r.zone == zone
      ensures r.timestampProperty == timestampProperty
      ensures unchanged(this)
    {
      r := Clone();
      r.SetTimestamp(r.ts + n);
    }

    method SubSecond(n: int) returns (r: TimeBender)
      ensures fresh(r) && r.ts == ts - n && r.zone == zone
      ensures r.timestampProperty == timestampProperty
      ensures unchanged(this)
    {
      r := Clone();
      r.SetTimestamp(r.ts - n);
    }

    method AddMinute(n: int) returns (r: TimeBender)
      ensures fresh(r) && r.ts == ts + n * SecondsPerMinute && r.zone == zone
      ensures r.timestampProperty == timestampProperty
      ensures unchanged(this)
    {
      r := Clone();
      r.SetTimestamp(r.ts + n * 60);
    }

    method SubMinute(n: int) returns (r: TimeBender)
      ensures fresh(r) && r.ts == ts - n * SecondsPerMinute && r.zone == zone
      ensures r.timestampProperty == timestampProperty
      ensures unchanged(this)
    {
      r := Clone();
      r.SetTimestamp(r.ts - n * 60);
    }

    method AddHour(n: int) returns (r: TimeBender)
      ensures fresh(r) && r.ts == ts + n * SecondsPerHour && r.zone == zone
      ensures r.timestampProperty == timestampProperty
      ensures unchanged(this)
    {
      r := Clone();
      r.SetTimestamp(r.ts + n * 3600);
    }

    method SubHour(n: int) returns (r: TimeBender)
      ensures fresh(r) && r.ts == ts - n * SecondsPerHour && r.zone == zone
      ensures r.timestampProperty == timestampProperty
      ensures unchanged(this)
    {
      r := Clone();
      r.SetTimestamp(r.ts - n * 3600);
    }

    method AddDay(n: int) returns (r: TimeBender)
      ensures fresh(r) && r.ts == ts + n * SecondsPerDay && r.zone == zone
      ensures r.timestampProperty == timestampProperty
      ensures unchanged(this)
    {
      r := Clone();
      r.SetTimestamp(r.ts + n * 86400);
    }

    method SubDay(n: int) returns (r: TimeBender)
      ensures fresh(r) && r.ts == ts - n * SecondsPerDay && r.zone == zone
      ensures r.timestampProperty == timestampProperty
      ensures unchanged(this)
    {
      r := Clone();
      r.SetTimestamp(r.ts - n * 86400);
    }

    /**
     * `addInterval($text)`: the clone moved by the host calendar, with its
     * `timestamp` property set to the new timestamp, or the exception raised
     * when the host does not understand the text.
     */
    method AddInterval(text: string, calendar: Calendar) returns (r: Result<TimeBender, string>)
      ensures calendar(ts, zone, text).None? ==> r == Failure(IntervalError(text))
      ensures calendar(ts, zone, text).Some? ==>
        r.Success? && fresh(r.value) && r.value.ts == calendar(ts, zone, text).value && r.value.zone == zone
        && r.value.timestampProperty == Some(calendar(ts, zone, text).value)
      ensures unchanged(this)
    {
      var c := Clone();
      var moved := calendar(c.ts, c.zone, text);
      if moved.None? {
        return Failure(IntervalError(text));
      }
      c.SetTimestamp(moved.value);
      c.timestampProperty := Some(c.ts);
      r := Success(c);
    }

    method AddMonth(n: int, calendar: Calendar) returns (r: Result<TimeBender, string>)
      ensures calendar(ts, zone, AddMonthText(n)).None? ==> r == Failure(IntervalError(AddMonthText(n)))
      ensures calendar(ts, zone, AddMonthText(n)).Some? ==>
        r.Success? && fresh(r.value) && r.value.ts == calendar(ts, zone, AddMonthText(n)).value && r.value.zone == zone
        && r.value.timestampProperty == Some(calendar(ts, zone, AddMonthText(n)).value)
      ensures unchanged(this)
    {
      r := AddInterval(AddMonthText(n), calendar);
    }

    method SubMonth(n: int, calendar: Calendar) returns (r: Result<TimeBender, string>)
      ensures calendar(ts, zone, SubMonthText(n)).None? ==> r == Failure(IntervalError(SubMonthText(n)))
      ensures calendar(ts, zone, SubMonthText(n)).Some? ==>
        r.Success? && fresh(r.value) && r.value.ts == calendar(ts, zone, SubMonthText(n)).value && r.value.zone == zone
        && r.value.timestampProperty == Some(calendar(ts, zone, SubMonthText(n)).value)
      ensures unchanged(this)
    {
      r := AddInterval(SubMonthText(n), calendar);
    }

    method AddYear(n: int, calendar: Calendar) returns (r: Result<TimeBender, string>)
      ensures calendar(ts, zone, AddYearText(n)).None? ==> r == Failure(IntervalError(AddYearText(n)))
      ensures calendar(ts, zone, AddYearText(n)).Some? ==>
        r.Success? && fresh(r.value) && r.value.ts == calendar(ts, zone, AddYearText(n)).value && r.value.zone == zone
        && r.value.timestampProperty == Some(calendar(ts, zone, AddYearText(n)).value)
      ensures unchanged(this)
    {
      r := AddInterval(AddYearText(n), calendar);
    }

    method SubYear(n: int, calendar: Calendar) returns (r: Result<TimeBender, string>)
      ensures calendar(ts, zone, SubYearText(n)).None? ==> r == Failure(IntervalError(SubYearText(n)))
      ensures calendar(ts, zone, SubYearText(n)).Some? ==>
        r.Success? && fresh(r.value) && r.value.ts == calendar(ts, zone, SubYearText(n)).value && r.value.zone == zone
        && r.value.timestampProperty == Some(calendar(ts, zone, SubYearText(n)).value)
      ensures unchanged(this)
    {
      r := AddInterval(SubYearText(n), calendar);
    }
  }

  function IntervalError(text: string): string
  {
    "Could not understand the string to use for Internal : \"" + text + "\""
  }

  /** The fixed units and their length in seconds. */
  datatype FixedUnit = SecondUnit | MinuteUnit | HourUnit | DayUnit

  function UnitSeconds(u: FixedUnit): int
  {
    match u
    case SecondUnit => 1
    case MinuteUnit => SecondsPerMinute
    case HourUnit => SecondsPerHour
    case DayUnit => SecondsPerDay
  }

  /**
   * Adding `n` of a fixed unit and then subtracting `n` of the same unit
   * gives back the original timestamp and zone, in a new object; the
   * original is untouched.
   */
  method AddThenSub(v: TimeBender, u: FixedUnit, n: int) returns (back: TimeBender, moved: int)
    ensures moved == v.ts + n * UnitSeconds(u)
    ensures back.ts == v.ts && back.zone == v.zone && back != v
  {
    var w: TimeBender;
    match u {
      case SecondUnit =>
        w := v.AddSecond(n);
        moved := w.ts;
        back := w.SubSecond(n);
      case MinuteUnit =>
        w := v.AddMinute(n);
        moved := w.ts;
        back := w.SubMinute(n);
      case HourUnit =>
        w := v.AddHour(n);
        moved := w.ts;
        back := w.SubHour(n);
      case DayUnit =>
        w := v.AddDay(n);
        moved := w.ts;
        back := w.SubDay(n);
    }
  }

  /** `$month . ' month'`: the count passed through, sign and all. */
  function AddMonthText(n: int): (r: string)
    ensures |r| > 0 && (r[0] == '-' <==> n < 0)
  {
    IntToDecimal(n) + " month"
  }

  /** `'-' . $month . ' month'` after a negative count is replaced by its absolute value. */
  function SubMonthText(n: int): (r: string)
    ensures |r| > 0 && r[0] == '-'
  {
    var m := if n < 0 then -n else n;
    "-" + IntToDecimal(m) + " month"
  }

  function AddYearText(n: int): (r: string)
    ensures |r| > 0 && (r[0] == '-' <==> n < 0)
  {
    IntToDecimal(n) + " year"
  }

  function SubYearText(n: int): (r: string)
    ensures |r| > 0 && r[0] == '-'
  {
    var m := if n < 0 then -n else n;
    "-" + IntToDecimal(m) + " year"
  }

  /** A relative interval: a signed count of a named unit. */
  datatype Interval = Interval(count: int, unit: string)

  /**
   * Reading of the text the library builds, in the grammar
   * `["-"] digits " " unit-name`, where the unit name is non-empty and
   * contains no space. None for any other text.
   */
  function ReadInterval(text: string): Option<Interval>
  {
    if text != [] && text[0] == '-' then
      match ReadCountAndUnit(text[1..])
      case None => None
      case Some(p) => Some(Interval(-p.count, p.unit))
    else
      ReadCountAndUnit(text)
  }

  /** `digits " " unit-name`, read as an unsigned interval. */
  function ReadCountAndUnit(body: string): (r: Option<Interval>)
    ensures r.Some? ==> r.value.count >= 0
  {
    var d := DigitPrefix(body);
    var rest := body[d..];
    if d == 0 || rest == [] || rest[0] != ' ' || |rest| == 1 || ' ' in rest[1..] then None
    else Some(Interval(DigitsValue(body[..d]), rest[1..]))
  }

  /** Length of the longest prefix of decimal digits. */
  function DigitPrefix(s: string): (d: nat)
    ensures d <= |s| && AllDigits(s[..d])
    ensures d < |s| ==> !IsDigit(s[d])
  {
    if s == [] || !IsDigit(s[0]) then 0
    else
      var d := 1 + DigitPrefix(s[1..]);
      assert s[..d] == [s[0]] + s[1..][..d - 1];
      d
  }

  lemma {:induction false} DigitPrefixOfNumeral(digits: string, rest: string)
    requires AllDigits(digits) && rest != [] && !IsDigit(rest[0])
    ensures DigitPrefix(digits + rest) == |digits|
  {
    if digits != [] {
      assert (digits + rest)[1..] == digits[1..] + rest;
      DigitPrefixOfNumeral(digits[1..], rest);
    }
  }

  /** Reading a numeral followed by `tail` = " " + unit recovers the numeral's value and the unit. */
  lemma ReadCountAndUnitOf(n: nat, tail: string, unit: string)
    requires tail == " " + unit && unit != [] && ' ' !in unit
    ensures ReadCountAndUnit(NatToDecimal(n) + tail) == Some(Interval(n, unit))
  {
    ReadDigitsAndUnit(NatToDecimal(n), tail, unit);
    NatToDecimalRoundTrip(n);
  }

  lemma ReadDigitsAndUnit(digits: string, tail: string, unit: string)
    requires digits != [] && AllDigits(digits)
    requires tail == " " + unit && unit != [] && ' ' !in unit
    ensures ReadCountAndUnit(digits + tail) == Some(Interval(DigitsValue(digits), unit))
  {
    var body := digits + tail;
    DigitPrefixOfNumeral(digits, tail);
    assert body[..|digits|] == digits;
    assert body[|digits|..] == tail;
    assert tail[1..] == unit;
  }

  lemma ReadNegative(body: string)
    requires ReadCountAndUnit(body).Some?
    ensures ReadInterval("-" + body)
         == Some(Interval(-ReadCountAndUnit(body).value.count, ReadCountAndUnit(body).value.unit))
  {
    assert ("-" + body)[1..] == body;
  }

  lemma ReadNonNegative(body: string)
    requires body != [] && body[0] != '-'
    ensures ReadInterval(body) == ReadCountAndUnit(body)
  {
  }

  /** Reads back `numeral(m) + " " + unit`. */
  lemma ReadNumeral(m: nat, tail: string, unit: string)
    requires tail == " " + unit && unit != [] && ' ' !in unit
    ensures ReadInterval(NatToDecimal(m) + tail) == Some(Interval(m, unit))
  {
    var body := NatToDecimal(m) + tail;
    ReadCountAndUnitOf(m, tail, unit);
    assert body[0] == NatToDecimal(m)[0];
    ReadNonNegative(body);
  }

  /** Reads back `"-" + numeral(m) + " " + unit` as minus m. */
  lemma ReadMinusNumeral(m: nat, tail: string, unit: string)
    requires tail == " " + unit && unit != [] && ' ' !in unit
    ensures ReadInterval("-" + NatToDecimal(m) + tail) == Some(Interval(-(m as int), unit))
  {
    var body := NatToDecimal(m) + tail;
    ReadCountAndUnitOf(m, tail, unit);
    assert "-" + NatToDecimal(m) + tail == "-" + body;
    ReadNegative(body);
  }

  /** `addMonth(n)` hands the host the count n unchanged. */
  lemma AddMonthReadsBack(n: int)
    ensures ReadInterval(AddMonthText(n)) == Some(Interval(n, "month"))
  {
    if n < 0 {
      ReadMinusNumeral(-n, " month", "month");
    } else {
      ReadNumeral(n, " month", "month");
    }
  }

  lemma AddYearReadsBack(n: int)
    ensures ReadInterval(AddYearText(n)) == Some(Interval(n, "year"))
  {
    if n < 0 {
      ReadMinusNumeral(-n, " year", "year");
    } else {
      ReadNumeral(n, " year", "year");
    }
  }

  /**
   * `subMonth(n)` always hands the host minus the absolute value of n, so
   * it never moves forward and n and -n give the same text.
   */
  lemma SubMonthReadsBack(n: int)
    ensures ReadInterval(SubMonthText(n)) == Some(Interval(-(if n < 0 then -n else n), "month"))
    ensures SubMonthText(n) == SubMonthText(-n)
  {
    var m := if n < 0 then -n else n;
    ReadMinusNumeral(m, " month", "month");
  }

  lemma SubYearReadsBack(n: int)
    ensures ReadInterval(SubYearText(n)) == Some(Interval(-(if n < 0 then -n else n), "year"))
    ensures SubYearText(n) == SubYearText(-n)
  {
    var m := if n < 0 then -n else n;
    ReadMinusNumeral(m, " year", "year");
  }

  /** The subtracting texts are a minus sign before the adding text of the absolute value. */
  lemma SubIsMinusAdd(n: int)
    ensures SubMonthText(n) == "-" + AddMonthText(if n < 0 then -n else n)
    ensures SubYearText(n) == "-" + AddYearText(if n < 0 then -n else n)
  {
  }

  /** For a negative count, subtracting is adding the same (negative) count. */
  lemma SubNegativeIsAdd(n: int)
    requires n < 0
    ensures SubMonthText(n) == AddMonthText(n) && SubYearText(n) == AddYearText(n)
  {
  }
}
