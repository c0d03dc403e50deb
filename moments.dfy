/**
 * The Temporal Value: a moment read in one fixed time zone. A valid moment is a
 * calendar day plus a time of day down to the millisecond; an invalid moment carries
 * nothing. Comparisons and the unit operations (startOf, endOf, set) follow the moment
 * library that both directives call.
 */
module Moments {
  import opened Calendar

  datatype MomentValue =
    | At(year: int, month: int, day: int, hour: int, minute: int, second: int, millisecond: int)
    | Invalid
  {
    /** Every field of a valid moment is in range: moment normalises them on construction. */
    predicate InRange() {
      At? ==>
        && Date(year, month, day).Valid()
        && 0 <= hour < 24 && 0 <= minute < 60 && 0 <= second < 60
        && 0 <= millisecond < 1000
    }
  }

  type Moment = m: MomentValue | m.InRange() witness Invalid

  /** What moment renders for an invalid moment, whatever the format. */
  const InvalidDateText := "Invalid date"

  function DateOf(m: Moment): (d: Date)
    requires m.At?
    ensures d.Valid()
  {
    Date(m.year, m.month, m.day)
  }

  function SecondOfDay(m: Moment): (s: int)
    requires m.At?
    ensures 0 <= s < 86400
  {
    m.hour * 3600 + m.minute * 60 + m.second
  }

  /** valueOf() truncated to whole seconds (the fixed zone offset is left out: it cancels in every comparison). */
  function EpochSeconds(m: Moment): int
    requires m.At?
  {
    DayNumber(DateOf(m)) * 86400 + SecondOfDay(m)
  }

  /** moment's valueOf(): milliseconds on the time line. */
  function EpochMillis(m: Moment): int
    requires m.At?
  {
    EpochSeconds(m) * 1000 + m.millisecond
  }

  /** Whole-second instants are ordered by calendar day first, then by time of day. */
  lemma EpochSecondsOrder(a: Moment, b: Moment)
    requires a.At? && b.At?
    ensures EpochSeconds(a) <= EpochSeconds(b) <==>
              Before(DateOf(a), DateOf(b)) || (DateOf(a) == DateOf(b) && SecondOfDay(a) <= SecondOfDay(b))
  {
    DayNumberOrder(DateOf(a), DateOf(b));
  }

  /** a.isAfter(b, 'second'): b lies before the start of a's second, so b's whole second is earlier. */
  function IsAfterSecond(a: Moment, b: Moment): (r: bool)
    requires a.At? && b.At?
    ensures r <==> EpochSeconds(b) < EpochSeconds(a)
  {
    EpochMillis(b) < EpochSeconds(a) * 1000
  }

  /** a.isBefore(b, 'second'): b lies after the end of a's second, so b's whole second is later. */
  function IsBeforeSecond(a: Moment, b: Moment): (r: bool)
    requires a.At? && b.At?
    ensures r <==> EpochSeconds(a) < EpochSeconds(b)
  {
    EpochSeconds(a) * 1000 + 999 < EpochMillis(b)
  }

  // a.isSame(b, 'second'): b lies within a's second
  function IsSameSecond(a: Moment, b: Moment): bool
    requires a.At? && b.At?
  {
    EpochSeconds(a) * 1000 <= EpochMillis(b) <= EpochSeconds(a) * 1000 + 999
  }

  /** a.isSameOrAfter(b, 'second'): sub-second parts are ignored and equal seconds pass. */
  function IsSameOrAfterSecond(a: Moment, b: Moment): (r: bool)
    requires a.At? && b.At?
    ensures r <==> EpochSeconds(b) <= EpochSeconds(a)
  {
    IsSameSecond(a, b) || IsAfterSecond(a, b)
  }

  /** a.isSameOrBefore(b, 'second'): sub-second parts are ignored and equal seconds pass. */
  function IsSameOrBeforeSecond(a: Moment, b: Moment): (r: bool)
    requires a.At? && b.At?
    ensures r <==> EpochSeconds(a) <= EpochSeconds(b)
  {
    IsSameSecond(a, b) || IsBeforeSecond(a, b)
  }

  /** a.isSame(b, 'day'): false for an invalid moment, otherwise b lies within a's calendar day. */
  function IsSameDay(a: Moment, b: Moment): (r: bool)
    ensures r <==> a.At? && b.At? && DateOf(a) == DateOf(b)
  {
    if a.Invalid? || b.Invalid? then false
    else
      var start := DayNumber(DateOf(a)) * 86400000;
      DayNumberOrder(DateOf(a), DateOf(b));
      start <= EpochMillis(b) <= start + 86399999
  }

  /** set({year, month, date}): the calendar day is replaced, the time of day kept; a no-op on an invalid moment. */
  function SetDate(w: Moment, d: Date): (r: Moment)
    requires d.Valid()
    ensures w.Invalid? ==> r == w
    ensures w.At? ==> r.At? && DateOf(r) == d && SecondOfDay(r) == SecondOfDay(w)
    ensures w.At? ==> r.hour == w.hour && r.minute == w.minute && r.second == w.second && r.millisecond == w.millisecond
  {
    if w.Invalid? then w else w.(year := d.year, month := d.month, day := d.day)
  }

  /** set({hours, minutes, seconds}): the time of day is replaced, the day and the milliseconds kept. */
  function SetTime(w: Moment, hour: int, minute: int, second: int): (r: Moment)
    requires 0 <= hour < 24 && 0 <= minute < 60 && 0 <= second < 60
    ensures w.Invalid? ==> r == w
    ensures w.At? ==> r.At? && DateOf(r) == DateOf(w) && r.millisecond == w.millisecond
    ensures w.At? ==> SecondOfDay(r) == hour * 3600 + minute * 60 + second
    ensures w.At? ==> r.hour == hour && r.minute == minute && r.second == second
  {
    if w.Invalid? then w else w.(hour := hour, minute := minute, second := second)
  }

  /** set({hours, minutes}): hour and minute replaced; the day, the seconds and the milliseconds kept. */
  function SetHourMinute(w: Moment, hour: int, minute: int): (r: Moment)
    requires 0 <= hour < 24 && 0 <= minute < 60
    ensures w.Invalid? ==> r == w
    ensures w.At? ==> r.At? && DateOf(r) == DateOf(w) && r.second == w.second && r.millisecond == w.millisecond
    ensures w.At? ==> r.hour == hour && r.minute == minute
  {
    if w.Invalid? then w else w.(hour := hour, minute := minute)
  }

  /**
   * set({year, month, date, hours, minutes, seconds}) from another moment: the whole
   * reading down to the second is copied, the milliseconds kept; a no-op on an invalid moment.
   */
  function SetDateTime(w: Moment, v: Moment): (r: Moment)
    requires v.At?
    ensures w.Invalid? ==> r == w
    ensures w.At? ==> r.At? && DateOf(r) == DateOf(v) && SecondOfDay(r) == SecondOfDay(v) && r.millisecond == w.millisecond
    ensures w.At? ==> EpochSeconds(r) == EpochSeconds(v)
  {
    if w.Invalid? then w
    else w.(year := v.year, month := v.month, day := v.day, hour := v.hour, minute := v.minute, second := v.second)
  }

  /** startOf('day'): midnight of the same calendar day; an invalid moment is returned as is. */
  function StartOfDay(w: Moment): (r: Moment)
    ensures w.Invalid? ==> r == w
    ensures w.At? ==> r.At? && DateOf(r) == DateOf(w) && SecondOfDay(r) == 0 && r.millisecond == 0
    ensures w.At? ==> EpochSeconds(r) == DayNumber(DateOf(w)) * 86400
  {
    if w.Invalid? then w
    else
      var r := w.(hour := 0, minute := 0, second := 0, millisecond := 0);
      assert DateOf(r) == DateOf(w) && SecondOfDay(r) == 0;
      r
  }

  /** endOf('day'): the last millisecond of the same calendar day. */
  function EndOfDay(w: Moment): (r: Moment)
    ensures w.Invalid? ==> r == w
    ensures w.At? ==> r.At? && DateOf(r) == DateOf(w) && SecondOfDay(r) == 86399 && r.millisecond == 999
    ensures w.At? ==> EpochSeconds(r) == DayNumber(DateOf(w)) * 86400 + 86399
  {
    if w.Invalid? then w else w.(hour := 23, minute := 59, second := 59, millisecond := 999)
  }

  /** startOf('minute'): seconds and milliseconds cleared, everything else kept. */
  function StartOfMinute(w: Moment): (r: Moment)
    ensures w.Invalid? ==> r == w
    ensures w.At? ==> r.At? && DateOf(r) == DateOf(w) && r.hour == w.hour && r.minute == w.minute
    ensures w.At? ==> r.second == 0 && r.millisecond == 0 && EpochSeconds(r) <= EpochSeconds(w) < EpochSeconds(r) + 60
  {
    if w.Invalid? then w else w.(second := 0, millisecond := 0)
  }
}
