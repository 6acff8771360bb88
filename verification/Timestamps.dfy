/** Interval arithmetic on timestamps, as the machine does it. */
module Timestamps {

  // ----- machine integers -----

  const TWO63: int := 0x8000_0000_0000_0000
  const TWO64: int := 0x1_0000_0000_0000_0000
  const TWO32: int := 0x1_0000_0000
  const MAX32: int := 0x7FFF_FFFF
  const MIN32: int := -0x8000_0000

  predicate IsInt64(x: int) {
    -TWO63 <= x < TWO63
  }

  predicate IsInt32(x: int) {
    MIN32 <= x <= MAX32
  }

  /** Conversion to uint64_t, and back to int64_t or int32_t. */
  function ToUnsigned(x: int): int {
    x % TWO64
  }

  function ToSigned(u: int): int
    requires 0 <= u < TWO64
  {
    if u < TWO63 then u else u - TWO64
  }

  function ToInt32(u: int): int
    requires 0 <= u < TWO64
  {
    var low := u % TWO32;
    if low <= MAX32 then low else low - TWO32
  }

  /** Division and remainder that truncate toward zero. */
  function Quotient(a: int, b: int): int
    requires b > 0
  {
    if a >= 0 then a / b else -((-a) / b)
  }

  function Remainder(a: int, b: int): int
    requires b > 0
  {
    a - b * Quotient(a, b)
  }

  lemma RemainderBounds(a: int, b: int)
    requires b > 0
    ensures a >= 0 ==> 0 <= Remainder(a, b) < b
    ensures a <= 0 ==> -b < Remainder(a, b) <= 0
  {
  }

  // ----- the calendar -----

  const MSEC := 1000
  const SECOND := 1000
  const MINUTE := 60_000
  const HOUR := 3_600_000
  const DAY := 86_400_000

  datatype Field = Millisecond | Second | Minute | Hour | Date | Month

  function Unit(f: Field): (n: int)
    requires !f.Month?
    ensures n > 0
  {
    match f case Millisecond => 1 case Second => SECOND case Minute => MINUTE case Hour => HOUR case Date => DAY
  }

  /** The ICU calendar: an instant in milliseconds. Month steps are the calendar's own business; `asked` holds those
      that were asked of it, each with the instant it started from. */
  class Calendar {
    var millis: int
    ghost var asked: seq<(int, int)>
    const month: (int, int) -> int

    constructor (addMonths: (int, int) -> int)
      ensures month == addMonths && asked == []
    {
      month, millis, asked := addMonths, 0, [];
    }

    method SetTime(when: int)
      modifies this`millis
      ensures millis == when
    {
      millis := when;
    }

    method Add(field: Field, amount: int)
      requires IsInt32(amount)
      modifies this
      ensures millis == if field.Month? then month(old(millis), amount) else old(millis) + amount * Unit(field)
      ensures asked == if field.Month? then old(asked) + [(old(millis), amount)] else old(asked)
    {
      if field.Month? { asked := asked + [(millis, amount)]; }
      millis := if field.Month? then month(millis, amount) else millis + amount * Unit(field);
    }

    /** `fieldDifference`: the most whole units toward `when`, which the calendar then moves by. */
    method FieldDifference(when: int, field: Field) returns (n: int)
      requires !field.Month?
      modifies this`millis
      ensures n == Quotient(when - old(millis), Unit(field)) && millis == old(millis) + n * Unit(field)
    {
      n := Quotient(when - millis, Unit(field));
      millis := millis + n * Unit(field);
    }
  }

  // ----- timestamps -----

  datatype Interval = Interval(months: int, days: int, micros: int) {
    predicate Ok() {
      IsInt32(months) && IsInt32(days) && IsInt64(micros)
    }

    predicate HasNegative() {
      months < 0 || days < 0 || micros < 0
    }
  }

  datatype Result<T> = Ok(value: T) | Err

  predicate IsFinite(ts: int) {
    ts != TWO63 - 1 && ts != -(TWO63 - 1)
  }

  /** `Timestamp::Convert` accepts the timestamp: it is finite, and the microseconds at the start of its day fit. */
  predicate HasDate(ts: int) {
    IsInt64(ts) && IsFinite(ts) && -TWO63 <= ts / (DAY * MSEC) * (DAY * MSEC)
  }

  /** `TryGetTime`. */
  method GetTime(calendar: Calendar, micros: int) returns (r: Result<int>)
    requires 0 <= micros < TWO64
    ensures r == Instant(calendar.millis, ToSigned(micros))
  {
    var us := calendar.millis * MSEC;
    if !IsInt64(us) {
      return Err;
    }
    us := us + ToSigned(micros);
    if !IsInt64(us) {
      return Err;
    }
    return if HasDate(us) then Ok(us) else Err;
  }

  /** The timestamp of an instant and its microseconds, unless a step on the way leaves 64 bits. */
  function Instant(millis: int, micros: int): Result<int> {
    var us := millis * MSEC + micros;
    if IsInt64(millis * MSEC) && HasDate(us) then Ok(us) else Err
  }

  /** Sets the calendar to the millisecond of a timestamp, and returns the microseconds after it. */
  method SetTime(calendar: Calendar, date: int) returns (micros: int)
    requires IsInt64(date)
    modifies calendar`millis
    ensures calendar.millis == date / MSEC && micros == date % MSEC
  {
    var millis := Quotient(date, MSEC);
    micros := Remainder(date, MSEC);
    if micros < 0 {
      millis := millis - 1;
      micros := micros + MSEC;
    }
    calendar.SetTime(millis);
    micros := ToUnsigned(micros);
  }

  method SubtractField(calendar: Calendar, field: Field, end_date: int) returns (n: int)
    requires !field.Month?
    modifies calendar`millis
    ensures n == Quotient(Quotient(end_date, MSEC) - old(calendar.millis), Unit(field))
    ensures calendar.millis == old(calendar.millis) + n * Unit(field)
  {
    n := calendar.FieldDifference(Quotient(end_date, MSEC), field);
  }

  // ----- timestamp plus interval -----

  /** Adds hours in steps that fit 32 bits; they add up. */
  method CalendarAddHour(calendar: Calendar, hours: int)
    requires IsInt64(hours)
    modifies calendar
    ensures calendar.millis == old(calendar.millis) + hours * HOUR && calendar.asked == old(calendar.asked)
  {
    var interval_hour := hours;
    ghost var added := 0;
    if interval_hour >= 0 {
      while interval_hour > 0
        invariant added == hours - (if interval_hour > 0 then interval_hour else 0)
        invariant calendar.millis == old(calendar.millis) + added * HOUR && calendar.asked == old(calendar.asked)
      {
        calendar.Add(Hour, if interval_hour > MAX32 then MAX32 else interval_hour);
        added := added + if interval_hour > MAX32 then MAX32 else interval_hour;
        interval_hour := interval_hour - MAX32;
      }
    } else {
      while interval_hour < 0
        invariant added == hours - (if interval_hour < 0 then interval_hour else 0)
        invariant calendar.millis == old(calendar.millis) + added * HOUR && calendar.asked == old(calendar.asked)
      {
        calendar.Add(Hour, if interval_hour < MIN32 then MIN32 else interval_hour);
        added := added + if interval_hour < MIN32 then MIN32 else interval_hour;
        interval_hour := interval_hour - MIN32;
      }
    }
  }

  /** The timestamp's millisecond and the microseconds left after the interval's own have been added and carried once.
      The microseconds may still be negative. */
  function Carried(ts: int, interval: Interval): (r: (int, int))
    ensures r.0 * MSEC + r.1 == ts + Remainder(interval.micros, MSEC)
    ensures -MSEC < r.1 < MSEC
  {
    RemainderBounds(ts, MSEC);
    RemainderBounds(interval.micros, MSEC);
    var millis, micros := Quotient(ts, MSEC), Remainder(ts, MSEC) + Remainder(interval.micros, MSEC);
    if micros >= MSEC then (millis + 1, micros - MSEC) else if micros < 0 then (millis - 1, micros + MSEC)
        else (millis, micros)
  }

  /** The instant after the calendar has added the interval: months before days, times first if anything is negative. */
  function Moved(month: (int, int) -> int, millis: int, interval: Interval): int {
    var time := Quotient(interval.micros, MSEC);
    if interval.HasNegative() then month(millis + time, interval.months) + interval.days * DAY
    else month(millis, interval.months) + interval.days * DAY + time
  }

  /** The one month step: from the start, or from the start plus the time if anything is negative. */
  function MonthStep(start: int, time: int, interval: Interval): (int, int) {
    (if interval.months < 0 || interval.days < 0 || interval.micros < 0 then start + time else start, interval.months)
  }

  function Sum(month: (int, int) -> int, ts: int, interval: Interval): Result<int> {
    if !IsFinite(ts) then Ok(ts)
    else
      var (millis, micros) := Carried(ts, interval);
      if HasDate(millis * MSEC) then Instant(Moved(month, millis, interval), micros) else Err
  }

  /** Hours, minutes, seconds and milliseconds split off by truncating division add up again. */
  lemma SplitTime(micros: int)
    ensures var ms := Quotient(micros, MSEC);
            var s := Quotient(ms, 1000); var m := Quotient(s, 60); var h := Quotient(m, 60);
            h * HOUR + Remainder(m, 60) * MINUTE + Remainder(s, 60) * SECOND + Remainder(ms, 1000) == ms
  {
  }

  /** The quotients have the sign of the time. */
  lemma QuotientSigns(micros: int)
    ensures var q := Quotient(micros, MSEC); var s := Quotient(q, 1000); var m := Quotient(s, 60);
            if micros >= 0 then q >= 0 && s >= 0 && m >= 0 && Quotient(m, 60) >= 0
            else q <= 0 && s <= 0 && m <= 0 && Quotient(m, 60) <= 0
  {
  }

  lemma QuotientShrinks(a: int, b: int)
    requires b > 0 && IsInt64(a)
    ensures IsInt64(Quotient(a, b))
  {
  }

  /** Breaks the interval's time into units that fit the calendar's 32-bit fields. */
  method BreakApart(interval: Interval) returns (h: int, m: int, s: int, ms: int)
    requires interval.Ok()
    ensures IsInt64(h) && IsInt32(m) && IsInt32(s) && IsInt32(ms)
    ensures h * HOUR + m * MINUTE + s * SECOND + ms == Quotient(interval.micros, MSEC)
    ensures -60 < m < 60 && -60 < s < 60 && -1000 < ms < 1000
    ensures if interval.micros >= 0 then h >= 0 && m >= 0 && s >= 0 && ms >= 0
            else h <= 0 && m <= 0 && s <= 0 && ms <= 0
  {
    hide Quotient, Remainder;
    QuotientSigns(interval.micros);
    SplitTime(interval.micros);
    HoursFit(interval.micros);
    h := Quotient(interval.micros, MSEC);
    ms := Remainder(h, 1000);
    RemainderBounds(h, 1000);
    h := Quotient(h, 1000);
    s := Remainder(h, 60);
    RemainderBounds(h, 60);
    h := Quotient(h, 60);
    m := Remainder(h, 60);
    RemainderBounds(h, 60);
    h := Quotient(h, 60);
  }

  /** `ICUCalendarAdd::Operation`. */
  method AddInterval(calendar: Calendar, timestamp: int, interval: Interval) returns (r: Result<int>)
    requires IsInt64(timestamp) && interval.Ok()
    modifies calendar
    ensures r == Sum(calendar.month, timestamp, interval)
    ensures IsFinite(timestamp) && r.Ok? ==>
              var start := Carried(timestamp, interval).0;
              calendar.asked == old(calendar.asked)
                + [MonthStep(start, Quotient(interval.micros, MSEC), interval)]
  {
    hide Quotient, Remainder, Instant, HasDate;
    if !IsFinite(timestamp) {
      return Ok(timestamp);
    }
    var millis := Quotient(timestamp, MSEC);
    var micros := Remainder(timestamp, MSEC) + Remainder(interval.micros, MSEC);
    if micros >= MSEC {
      micros := micros - MSEC;
      millis := millis + 1;
    } else if micros < 0 {
      micros := micros + MSEC;
      millis := millis - 1;
    }
    assert (millis, micros) == Carried(timestamp, interval);
    if !HasDate(millis * MSEC) {
      return Err;
    }
    calendar.SetTime(millis);
    var interval_h, interval_m, interval_s, interval_ms := BreakApart(interval);
    MoveCalendar(calendar, interval, interval_h, interval_m, interval_s, interval_ms);
    WrapsBack(micros);
    r := GetTime(calendar, ToUnsigned(micros));
  }

  /** The calendar's part: lowest field first when anything is negative, else highest first; months before days. */
  method MoveCalendar(calendar: Calendar, interval: Interval, h: int, m: int, s: int, ms: int)
    requires interval.Ok() && IsInt64(h) && IsInt32(m) && IsInt32(s) && IsInt32(ms)
    requires h * HOUR + m * MINUTE + s * SECOND + ms == Quotient(interval.micros, MSEC)
    modifies calendar
    ensures calendar.millis == Moved(calendar.month, old(calendar.millis), interval)
    ensures calendar.asked == old(calendar.asked)
              + [MonthStep(old(calendar.millis), Quotient(interval.micros, MSEC), interval)]
  {
    hide Quotient;
    if interval.months < 0 || interval.days < 0 || interval.micros < 0 {
      calendar.Add(Millisecond, ms);
      calendar.Add(Second, s);
      calendar.Add(Minute, m);
      CalendarAddHour(calendar, h);
      assert calendar.millis == old(calendar.millis) + Quotient(interval.micros, MSEC);
      calendar.Add(Month, interval.months);
      calendar.Add(Date, interval.days);
    } else {
      calendar.Add(Month, interval.months);
      calendar.Add(Date, interval.days);
      CalendarAddHour(calendar, h);
      calendar.Add(Minute, m);
      calendar.Add(Second, s);
      calendar.Add(Millisecond, ms);
    }
  }

  lemma HoursFit(micros: int)
    requires IsInt64(micros)
    ensures IsInt64(Quotient(Quotient(Quotient(Quotient(micros, MSEC), 1000), 60), 60))
  {
    hide Quotient;
    QuotientShrinks(micros, MSEC);
    QuotientShrinks(Quotient(micros, MSEC), 1000);
    QuotientShrinks(Quotient(Quotient(micros, MSEC), 1000), 60);
    QuotientShrinks(Quotient(Quotient(Quotient(micros, MSEC), 1000), 60), 60);
  }

  /** Negative microseconds survive the trip through uint64_t. */
  lemma WrapsBack(x: int)
    requires IsInt64(x)
    ensures 0 <= ToUnsigned(x) < TWO64 && ToSigned(ToUnsigned(x)) == x
  {
  }

  /** With no months, adding an interval is exact: the result is the timestamp plus the interval's microseconds and
      days, for every mix of signs, or an error; and it is an error exactly when the carried millisecond or the result
      leaves the range of dates. */
  lemma AddingIsExact(month: (int, int) -> int, ts: int, interval: Interval)
    requires IsInt64(ts) && IsFinite(ts) && interval.Ok() && interval.months == 0 && forall t :: month(t, 0) == t
    ensures var total := ts + interval.micros + interval.days * DAY * MSEC;
            var (millis, micros) := Carried(ts, interval);
            Sum(month, ts, interval) ==
              if HasDate(millis * MSEC) && IsInt64(total - micros) && HasDate(total) then Ok(total) else Err
  {
    var (millis, micros) := Carried(ts, interval);
    var moved := Moved(month, millis, interval);
    assert moved == millis + Quotient(interval.micros, MSEC) + interval.days * DAY;
    assert moved * MSEC + micros == ts + interval.micros + interval.days * DAY * MSEC;
  }

  /** The machine's numbers: the 64-bit and 32-bit ranges, the two infinities, and the length of a day. */
  lemma MachineNumbers(x: int)
    ensures IsInt64(x) <==> -9_223_372_036_854_775_808 <= x <= 9_223_372_036_854_775_807
    ensures IsInt32(x) <==> -2_147_483_648 <= x <= 2_147_483_647
    ensures IsFinite(x) <==> x != 9_223_372_036_854_775_807 && x != -9_223_372_036_854_775_807
    ensures DAY * MSEC == 24 * 60 * 60 * 1_000_000 && MSEC == 1000
  {
  }

  /** Adding to an infinite timestamp leaves it as it is. */
  lemma InfinityStays(month: (int, int) -> int, ts: int, interval: Interval)
    requires ts == 9_223_372_036_854_775_807 || ts == -9_223_372_036_854_775_807
    ensures Sum(month, ts, interval) == Ok(ts)
  {
  }

  /** The range of dates in numbers: from the first day whose start fits 64 bits to just below infinity. */
  lemma DatesRange(ts: int)
    ensures HasDate(ts) <==> -9_223_372_022_400_000_000 <= ts < 9_223_372_036_854_775_807
  {
  }

  /** Months, for any calendar: they act on the start when nothing is negative, and on the start plus the time
      otherwise; days come after them in both cases. */
  lemma MonthsActOnce(month: (int, int) -> int, ts: int, interval: Interval)
    requires IsInt64(ts) && IsFinite(ts) && interval.Ok()
    ensures var (millis, micros) := Carried(ts, interval);
            var time := Quotient(interval.micros, MSEC);
            var negative := interval.months < 0 || interval.days < 0 || interval.micros < 0;
            var stepped := month(if negative then millis + time else millis, interval.months);
            var total := (stepped + interval.days * DAY + if negative then 0 else time) * MSEC + micros;
            Sum(month, ts, interval) ==
              if HasDate(millis * MSEC) && IsInt64(total - micros) && HasDate(total) then Ok(total) else Err
  {
  }

  /** On a calendar of months of equal length, adding is exact with months too. */
  lemma AddingMonthsIsExact(month: (int, int) -> int, unit: int, ts: int, interval: Interval)
    requires IsInt64(ts) && IsFinite(ts) && interval.Ok() && forall t, n :: month(t, n) == t + n * unit
    ensures var total := ts + interval.months * unit * MSEC + interval.days * DAY * MSEC + interval.micros;
            var (millis, micros) := Carried(ts, interval);
            Sum(month, ts, interval) ==
              if HasDate(millis * MSEC) && IsInt64(total - micros) && HasDate(total) then Ok(total) else Err
  {
    var (millis, micros) := Carried(ts, interval);
    var moved, months := Moved(month, millis, interval), interval.months * unit;
    assert moved == millis + months + Quotient(interval.micros, MSEC) + interval.days * DAY;
    assert moved * MSEC + micros == ts + interval.micros + months * MSEC + interval.days * DAY * MSEC;
  }

  // ----- timestamp minus timestamp -----

  /** The microseconds left after the units, in the source's mixed 64-bit and 32-bit arithmetic. */
  function MicrosDiff(ms_diff: int, end_micros: int, start_micros: int): int {
    ToInt32((ToUnsigned(ms_diff * MSEC) + ToUnsigned(end_micros - start_micros)) % TWO64)
  }

  lemma UnsignedOf(x: int)
    requires -TWO63 <= x < TWO63
    ensures ToUnsigned(x) == (if x < 0 then x + TWO64 else x)
  {
  }

  lemma UnsignedWraps(x: int)
    ensures ToUnsigned(x + TWO64) == ToUnsigned(x)
  {
  }

  lemma UnsignedSum(a: int, b: int)
    requires -MAX32 <= a <= MAX32 && -MAX32 <= b <= MAX32
    ensures (ToUnsigned(a) + ToUnsigned(b)) % TWO64 == ToUnsigned(a + b)
  {
    hide ToUnsigned;
    UnsignedOf(a);
    UnsignedOf(b);
    UnsignedOf(a + b);
  }

  lemma Int32Back(x: int)
    requires IsInt32(x)
    ensures 0 <= ToUnsigned(x) < TWO64 && ToInt32(ToUnsigned(x)) == x
  {
    hide ToUnsigned;
    UnsignedOf(x);
    assert (x + TWO64) % TWO32 == x % TWO32;
  }

  /** Unsigned wrap-around before 1970 cancels out. */
  lemma MicrosDiffExact(ms_diff: int, micros: int, borrowed: int, start_micros: int)
    requires -1000 < ms_diff < 1000 && -1000 < micros < 1000 && 0 <= start_micros < 1000
    requires borrowed == 0 || (borrowed == 1000 && micros >= 0)
    ensures MicrosDiff(ms_diff, ToUnsigned(micros) + borrowed, start_micros)
            == ms_diff * MSEC + micros + borrowed - start_micros
  {
    hide ToUnsigned, ToInt32;
    var y := micros + borrowed - start_micros;
    UnsignedOf(micros);
    UnsignedWraps(y);
    UnsignedSum(ms_diff * MSEC, y);
    Int32Back(ms_diff * MSEC + y);
  }

  function FromTime(hour: int, minute: int, second: int, micros: int): int {
    ((hour * 60 + minute) * 60 + second) * 1_000_000 + micros
  }

  /** Total microseconds of a difference without months. */
  function Total(i: Interval): int {
    i.days * DAY * MSEC + i.micros
  }

  /** Whether the end's milliseconds are truncated after 1ms has been borrowed from it, across zero. */
  predicate BorrowsAcrossZero(end: int, start: int) {
    start <= end && 1 <= end <= 999 && start % MSEC > end
  }

  function Difference(end: int, start: int): int {
    if start > end then -(start - end + if BorrowsAcrossZero(start, end) then MSEC else 0)
    else end - start + if BorrowsAcrossZero(end, start) then MSEC else 0
  }

  predicate Borrows(end: int, start: int) {
    Remainder(end, MSEC) >= 0 && start % MSEC > Remainder(end, MSEC)
  }

  /** The milliseconds between the start and the end, the end's being truncated. */
  function WholeMillis(end: int, start: int): int {
    Quotient(if Borrows(end, start) then end - MSEC else end, MSEC) - start / MSEC
  }

  /** The whole days in these, and the rest in microseconds. */
  function DaysAndMicros(end: int, start: int): Interval
    requires start <= end
  {
    var days := Quotient(WholeMillis(end, start), DAY);
    Interval(0, days, Difference(end, start) - days * DAY * MSEC)
  }

  /** The rest is less than a day.  It can be negative, by less than two milliseconds, when the end lies before 1970 and
      is no whole millisecond: then one day too many has been counted. */
  lemma RestBelowDay(end: int, start: int)
    requires start <= end
    ensures var i := DaysAndMicros(end, start);
            && i.days >= 0 && -2 * MSEC < i.micros < DAY * MSEC
            && (i.micros < 0 ==> end < 0 && end % MSEC != 0)
            && (i.micros < 0 <==> i.days == Difference(end, start) / (DAY * MSEC) + 1)
            && (i.micros >= 0 <==> i.days == Difference(end, start) / (DAY * MSEC))
  {
    hide Difference;
    RemainderBounds(end, MSEC);
    BorrowedTotal(end, start);
    var d, t := WholeMillis(end, start), Difference(end, start);
    MillisBounds(end, start);
    DayBounds(d, t);
  }

  lemma MillisBounds(end: int, start: int)
    requires start <= end
    ensures var d, t := WholeMillis(end, start), Difference(end, start);
            && d >= 0 && t >= 0 && -2 * MSEC < t - d * MSEC < MSEC
            && (t - d * MSEC < 0 ==> end < 0 && end % MSEC != 0)
  {
    RemainderBounds(end, MSEC);
    BorrowedTotal(end, start);
  }

  lemma DayBounds(d: int, t: int)
    requires d >= 0 && t >= 0 && -2 * MSEC < t - d * MSEC < MSEC
    ensures var days := Quotient(d, DAY); var micros := t - days * DAY * MSEC;
            && days >= 0 && -2 * MSEC < micros < DAY * MSEC && (micros < 0 ==> t - d * MSEC < 0)
            && (micros < 0 <==> days == t / (DAY * MSEC) + 1) && (micros >= 0 <==> days == t / (DAY * MSEC))
  {
  }

  /** From a day before 1970 to half a millisecond before it: a day, less half a millisecond. */
  lemma MixedSigns()
    ensures DaysAndMicros(-500, -86_400_000_000) == Interval(0, 1, -500)
  {
  }

  /** The end's millisecond count and microseconds as the subtraction sees them. */
  lemma BorrowedTotal(end: int, start: int)
    requires start <= end
    ensures var m := Remainder(end, MSEC);
            var borrow := m >= 0 && start % MSEC > m;
            var end2 := if borrow then end - MSEC else end;
            (Quotient(end2, MSEC) - start / MSEC) * MSEC + m + (if borrow then MSEC else 0) - start % MSEC
                == Difference(end, start)
  {
    RemainderBounds(end, MSEC);
  }

  /** The calendar fields, largest first, use the whole distance up. */
  lemma FieldsAddUp(d: int)
    ensures var days := Quotient(d, DAY); var d1 := d - days * DAY;
            var h := Quotient(d1, HOUR); var d2 := d1 - h * HOUR;
            var m := Quotient(d2, MINUTE); var d3 := d2 - m * MINUTE;
            var s := Quotient(d3, SECOND); var ms := d3 - s * SECOND;
            d == days * DAY + h * HOUR + m * MINUTE + s * SECOND + ms && -1000 < ms < 1000
  {
  }

  /** A millisecond is borrowed from an end so early that subtracting it leaves 64 bits, which C++ does not define. */
  predicate BorrowOverflows(end: int, start: int) {
    start <= end && Remainder(end, MSEC) >= 0 && start % MSEC > Remainder(end, MSEC) && !IsInt64(end - MSEC)
  }

  /** That happens for one end only: the earliest whole millisecond, with a start before it. */
  lemma BorrowOverflowsOnce(end: int, start: int)
    requires IsInt64(end) && IsInt64(start)
    ensures BorrowOverflows(end, start) <==> end == -TWO63 + 808 && start < end
  {
  }

  /** `ICUCalendarSub::Operation` on two timestamps. */
  method SubtractTimestamps(calendar: Calendar, end: int, start: int) returns (r: Result<Interval>)
    requires IsInt64(end) && IsInt64(start)
    requires IsFinite(end) && IsFinite(start) ==> !BorrowOverflows(end, start) && !BorrowOverflows(start, end)
    modifies calendar
    ensures r.Err? <==> !IsFinite(end) || !IsFinite(start)
    ensures r.Ok? ==> r.value.months == 0 && MIN32 < r.value.days <= MAX32 && Total(r.value) == Difference(end, start)
    ensures r.Ok? && start <= end ==> r.value == DaysAndMicros(end, start)
    ensures r.Ok? && start > end ==>
              var i := DaysAndMicros(start, end); r.value == Interval(0, -i.days, -i.micros)
    ensures r.Ok? ==> (Total(r.value) == end - start
                       <==> !BorrowsAcrossZero(end, start) && !BorrowsAcrossZero(start, end))
    decreases start > end
  {
    hide BorrowOverflows;
    if !IsFinite(end) || !IsFinite(start) {
      return Err;
    }
    if start > end {
      var negated := SubtractTimestamps(calendar, start, end);
      return Ok(Interval(-negated.value.months, -negated.value.days, -negated.value.micros));
    }
    r := SubtractForward(calendar, end, start);
  }

  method SubtractForward(calendar: Calendar, end: int, start: int) returns (r: Result<Interval>)
    requires IsInt64(end) && IsInt64(start) && start <= end && !BorrowOverflows(end, start)
    modifies calendar
    ensures r.Ok? && r.value.months == 0 && MIN32 < r.value.days <= MAX32 && Total(r.value) == Difference(end, start)
    ensures r.value == DaysAndMicros(end, start)
  {
    hide Quotient, Remainder, ToUnsigned, Difference, MicrosDiff;
    var end_date := end;
    var start_micros := SetTime(calendar, start);
    ghost var m, borrowed := Remainder(end, MSEC), 0;
    var end_micros := ToUnsigned(Remainder(end_date, MSEC));
    RemainderBounds(end, MSEC);
    UnsignedOf(m);
    if start_micros > end_micros {
      end_date := end_date - MSEC;
      end_micros := end_micros + MSEC;
      borrowed := MSEC;
    }
    BorrowedTotal(end, start);
    ghost var d := Quotient(end_date, MSEC) - calendar.millis;
    DaysFit(end, end_date, start);
    var days, hour_diff, min_diff, sec_diff, ms_diff := SubtractFields(calendar, end_date);
    MicrosDiffExact(ms_diff, m, borrowed, start_micros);
    var micros_diff := MicrosDiff(ms_diff, end_micros, start_micros);
    r := Ok(Interval(0, days, FromTime(hour_diff, min_diff, sec_diff, micros_diff)));
  }

  /** The fields from days to milliseconds, each by `SubtractField`. */
  method SubtractFields(calendar: Calendar, end_date: int)
      returns (days: int, hour: int, minute: int, second: int, ms: int)
    modifies calendar
    ensures var d := Quotient(end_date, MSEC) - old(calendar.millis);
            days == Quotient(d, DAY) && days * DAY + hour * HOUR + minute * MINUTE + second * SECOND + ms == d
    ensures -1000 < ms < 1000
  {
    hide Quotient;
    FieldsAddUp(Quotient(end_date, MSEC) - calendar.millis);
    days := SubtractField(calendar, Date, end_date);
    hour := SubtractField(calendar, Hour, end_date);
    minute := SubtractField(calendar, Minute, end_date);
    second := SubtractField(calendar, Second, end_date);
    ms := SubtractField(calendar, Millisecond, end_date);
    OneMillisecond(Quotient(end_date, MSEC) - (calendar.millis - ms));
  }

  lemma OneMillisecond(d: int)
    ensures Quotient(d, 1) == d
  {
  }

  lemma DaysFit(end: int, end_date: int, start: int)
    requires IsInt64(end) && IsInt64(start) && end - MSEC <= end_date <= end
    ensures MIN32 < Quotient(Quotient(end_date, MSEC) - start / MSEC, DAY) <= MAX32
  {
  }

  /** From half a millisecond before 1970 to 0.2 ms after it: 1.7 ms instead of 0.7 ms. */
  lemma SubtractionOffByOneMillisecond()
    ensures Difference(200, -500) == 1700 && 200 - (-500) == 700
  {
  }

  /** A day and a millisecond inside the range of dates, below, and two milliseconds, above. */
  predicate WellInside(ts: int) {
    -TWO63 + DAY * MSEC + MSEC <= ts < TWO63 - 1 - 2 * MSEC
  }

  /** Adding a difference back to the start gives the end: always, but for an error where the carried millisecond or the
      end leaves the range of dates, and that only at its borders. */
  lemma AddingTheDifference(month: (int, int) -> int, end: int, start: int, i: Interval)
    requires IsInt64(start) && IsFinite(start) && i.Ok() && i.months == 0 && forall t :: month(t, 0) == t
    requires Total(i) == Difference(end, start) && !BorrowsAcrossZero(end, start) && !BorrowsAcrossZero(start, end)
    ensures var (millis, micros) := Carried(start, i);
            Sum(month, start, i)
            == if HasDate(millis * MSEC) && IsInt64(end - micros) && HasDate(end) then Ok(end) else Err
    ensures WellInside(start) && WellInside(end) ==> Sum(month, start, i) == Ok(end)
  {
    AddingIsExact(month, start, i);
    if WellInside(start) && WellInside(end) { InsideHasDates(start, end, i); }
  }

  lemma CarriedNear(ts: int, i: Interval)
    ensures var (millis, micros) := Carried(ts, i);
              ts - 2 * MSEC < millis * MSEC < ts + 2 * MSEC && -MSEC < micros < MSEC
  {
    RemainderBounds(i.micros, MSEC);
  }

  lemma InsideHasDates(ts: int, total: int, i: Interval)
    requires WellInside(ts) && WellInside(total)
    ensures var (millis, micros) := Carried(ts, i); HasDate(millis * MSEC) && IsInt64(total - micros) && HasDate(total)
  {
    CarriedNear(ts, i);
  }

  /** Taking away an interval that has been added gives the timestamp back, with the same exceptions. */
  lemma TakingAwayUndoesAdding(month: (int, int) -> int, ts: int, i: Interval)
    requires IsInt64(ts) && IsFinite(ts) && i.Ok() && i.months == 0 && forall t :: month(t, 0) == t
    requires Interval(0, -i.days, -i.micros).Ok() && Sum(month, ts, i).Ok?
    ensures var sum, negated := Sum(month, ts, i).value, Interval(0, -i.days, -i.micros);
            var (millis, micros) := Carried(sum, negated);
            Sum(month, sum, negated)
            == if HasDate(millis * MSEC) && IsInt64(ts - micros) && HasDate(ts) then Ok(ts) else Err
    ensures var sum := Sum(month, ts, i).value;
            WellInside(ts) && WellInside(sum) ==> Sum(month, sum, Interval(0, -i.days, -i.micros)) == Ok(ts)
  {
    AddingIsExact(month, ts, i);
    var sum, negated := Sum(month, ts, i).value, Interval(0, -i.days, -i.micros);
    AddingIsExact(month, sum, negated);
    if WellInside(ts) && WellInside(sum) { InsideHasDates(sum, ts, negated); }
  }
}
