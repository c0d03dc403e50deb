/**
 * The bounds validators of the date picker (validateMin, validateMax, validateMinMax):
 * an absent or invalid value on either side passes; otherwise the candidate is compared
 * with the bound at whole-second precision, inclusively.
 */
module Bounds {
  import opened Wrappers
  import opened Calendar
  import opened Moments

  /** A value a bound check can look at: present and valid. */
  predicate Comparable(m: Option<Moment>) {
    m.Some? && m.value.At?
  }

  function ValidateMin(current: Option<Moment>, minDate: Option<Moment>): (r: bool)
    ensures !Comparable(current) || !Comparable(minDate) ==> r
    ensures Comparable(current) && Comparable(minDate) ==>
              (r <==> EpochSeconds(minDate.value) <= EpochSeconds(current.value))
  {
    if current.None? || current.value.Invalid? || minDate.None? || minDate.value.Invalid? then true
    else IsSameOrAfterSecond(current.value, minDate.value)
  }

  function ValidateMax(current: Option<Moment>, maxDate: Option<Moment>): (r: bool)
    ensures !Comparable(current) || !Comparable(maxDate) ==> r
    ensures Comparable(current) && Comparable(maxDate) ==>
              (r <==> EpochSeconds(current.value) <= EpochSeconds(maxDate.value))
  {
    if current.None? || current.value.Invalid? || maxDate.None? || maxDate.value.Invalid? then true
    else IsSameOrBeforeSecond(current.value, maxDate.value)
  }

  datatype MinMaxValidity = MinMaxValidity(maxIsValid: bool, minIsValid: bool, isValid: bool)

  /** Both bounds checked independently; an absent bound reports valid; isValid is their conjunction. */
  function ValidateMinMax(current: Option<Moment>, minDate: Option<Moment>, maxDate: Option<Moment>): (r: MinMaxValidity)
    ensures r.isValid <==> r.minIsValid && r.maxIsValid
    ensures minDate.None? ==> r.minIsValid
    ensures maxDate.None? ==> r.maxIsValid
    ensures r.minIsValid == ValidateMin(current, minDate) && r.maxIsValid == ValidateMax(current, maxDate)
  {
    var minIsValid := if minDate.Some? then ValidateMin(current, minDate) else true;
    var maxIsValid := if maxDate.Some? then ValidateMax(current, maxDate) else true;
    MinMaxValidity(maxIsValid, minIsValid, maxIsValid && minIsValid)
  }

  /**
   * In calendar terms the lower bound passes exactly when the candidate's day is later
   * than the bound's, or it is the same day at the same second or later.
   */
  lemma ValidateMinByCalendar(current: Moment, minDate: Moment)
    requires current.At? && minDate.At?
    ensures ValidateMin(Some(current), Some(minDate)) <==>
              Before(DateOf(minDate), DateOf(current))
              || (DateOf(minDate) == DateOf(current) && SecondOfDay(minDate) <= SecondOfDay(current))
  {
    EpochSecondsOrder(minDate, current);
  }

  /** The upper bound passes exactly when the candidate's day is earlier, or the same day no later in the second. */
  lemma ValidateMaxByCalendar(current: Moment, maxDate: Moment)
    requires current.At? && maxDate.At?
    ensures ValidateMax(Some(current), Some(maxDate)) <==>
              Before(DateOf(current), DateOf(maxDate))
              || (DateOf(current) == DateOf(maxDate) && SecondOfDay(current) <= SecondOfDay(maxDate))
  {
    EpochSecondsOrder(current, maxDate);
  }

  /** A value between its bounds at second granularity passes both; equality at either end is allowed. */
  lemma WithinBoundsPasses(current: Moment, minDate: Moment, maxDate: Moment)
    requires current.At? && minDate.At? && maxDate.At?
    requires EpochSeconds(minDate) <= EpochSeconds(current) <= EpochSeconds(maxDate)
    ensures ValidateMinMax(Some(current), Some(minDate), Some(maxDate)) == MinMaxValidity(true, true, true)
  {
  }

  /** Milliseconds never decide a bound check: moving either side within its second changes nothing. */
  lemma SubSecondIgnored(current: Moment, bound: Moment, ms1: int, ms2: int)
    requires current.At? && bound.At? && 0 <= ms1 < 1000 && 0 <= ms2 < 1000
    ensures ValidateMin(Some(current.(millisecond := ms1)), Some(bound.(millisecond := ms2)))
              == ValidateMin(Some(current), Some(bound))
    ensures ValidateMax(Some(current.(millisecond := ms1)), Some(bound.(millisecond := ms2)))
              == ValidateMax(Some(current), Some(bound))
  {
    assert EpochSeconds(current.(millisecond := ms1)) == EpochSeconds(current);
    assert EpochSeconds(bound.(millisecond := ms2)) == EpochSeconds(bound);
  }
}
