/**
 * The engine of the date-picker directive: a private working copy of the bound moment
 * kept in sync with the text field (parser and formatter), the three validity keys
 * `date`, `minDate` and `maxDate`, and the month grid with its navigation.
 */
module DatePicker {
  import opened Wrappers
  import opened Calendar
  import opened Moments
  import opened Bounds
  import opened Text
  import opened DateFormat

  /** moment().startOf('isoWeek').day(): ISO weeks start on Monday. */
  const FirstDayOfWeek := 1

  /** The number of blank cells before day 1, so that the grid's first column is `firstDayOfWeek`. */
  function GetFillerCount(weekday: int, firstDayOfWeek: int): (r: int)
    requires 0 <= weekday < 7 && 0 <= firstDayOfWeek < 7
    ensures 0 <= r < 7 && (r + firstDayOfWeek) % 7 == weekday
  {
    var diff := weekday - firstDayOfWeek;
    if diff < 0 then 7 + diff else diff
  }

  datatype YearMonth = YearMonth(year: int, month: int) {
    predicate Valid() {
      0 <= month < 12
    }

    function FirstDay(): Date {
      Date(year, month, 1)
    }

    function LastDay(): Date
      requires Valid()
    {
      Date(year, month, DaysInMonth(year, month))
    }
  }

  /** Consecutive months: the first of the later one is the day after the last of the earlier one. */
  lemma {:induction false} MonthsAdjacent(year: int, month: int)
    requires 0 <= month < 12
    ensures var next := if month == 11 then YearMonth(year + 1, 0) else YearMonth(year, month + 1);
            DayNumber(YearMonth(year, month).LastDay()) + 1 == DayNumber(next.FirstDay())
  {
    if month == 11 {
      YearLength(year);
      MonthsFillYear(year);
    }
  }

  /** prevYear and prevMonth of buildMonth: January steps back to December of the year before. */
  function Previous(ym: YearMonth): (r: YearMonth)
    requires ym.Valid()
    ensures r.Valid()
  {
    YearMonth(if ym.month - 1 < 0 then ym.year - 1 else ym.year,
              if ym.month - 1 < 0 then 11 else ym.month - 1)
  }

  /** nextYear and nextMonth of buildMonth: December steps on to January of the year after. */
  function Next(ym: YearMonth): (r: YearMonth)
    requires ym.Valid()
    ensures r.Valid()
  {
    YearMonth(if ym.month + 1 > 11 then ym.year + 1 else ym.year,
              if ym.month + 1 > 11 then 0 else ym.month + 1)
  }

  /** The previous month ends the day before this one starts: navigation skips no day. */
  lemma PreviousIsAdjacent(ym: YearMonth)
    requires ym.Valid()
    ensures DayNumber(Previous(ym).LastDay()) + 1 == DayNumber(ym.FirstDay())
  {
    MonthsAdjacent(Previous(ym).year, Previous(ym).month);
  }

  /** The next month starts the day after this one ends. */
  lemma NextIsAdjacent(ym: YearMonth)
    requires ym.Valid()
    ensures DayNumber(ym.LastDay()) + 1 == DayNumber(Next(ym).FirstDay())
  {
    MonthsAdjacent(ym.year, ym.month);
  }

  /** Navigating forward then back, or back then forward, returns to the same month. */
  lemma NavigationInverse(ym: YearMonth)
    requires ym.Valid()
    ensures Previous(Next(ym)) == ym && Next(Previous(ym)) == ym
  {
    if ym.month == 0 {
    } else if ym.month == 11 {
    } else {
    }
  }

  datatype DayCell = DayCell(number: int, disabled: bool, today: bool, selected: bool)

  /** getMaxDate().endOf('day'): the upper bound buildMonth checks a day against. */
  function UpperBound(maxDate: Option<Moment>): (r: Option<Moment>)
    ensures r.Some? <==> maxDate.Some?
    ensures Comparable(maxDate) ==>
              Comparable(r) && DateOf(r.value) == DateOf(maxDate.value) && SecondOfDay(r.value) == 86399
  {
    if maxDate.Some? then Some(EndOfDay(maxDate.value)) else None
  }

  /** getMinDate().startOf('day'): the lower bound buildMonth checks a day against. */
  function LowerBound(minDate: Option<Moment>): (r: Option<Moment>)
    ensures r.Some? <==> minDate.Some?
    ensures Comparable(minDate) ==>
              Comparable(r) && DateOf(r.value) == DateOf(minDate.value) && SecondOfDay(r.value) == 0
  {
    if minDate.Some? then Some(StartOfDay(minDate.value)) else None
  }

  /** The disabled flag of a day of buildMonth: it fails the widened upper or the widened lower bound. */
  function DayDisabled(day: Moment, minDate: Option<Moment>, maxDate: Option<Moment>): (r: bool)
    ensures day.Invalid? ==> !r
    ensures !Comparable(minDate) && !Comparable(maxDate) ==> !r
  {
    !ValidateMax(Some(day), UpperBound(maxDate)) || !ValidateMin(Some(day), LowerBound(minDate))
  }

  /** Against the widened upper bound a day fails exactly when it is a later calendar day than max's. */
  lemma UpperBoundByDay(day: Moment, maxDate: Option<Moment>)
    requires day.At?
    ensures !ValidateMax(Some(day), UpperBound(maxDate)) <==>
              Comparable(maxDate) && Before(DateOf(maxDate.value), DateOf(day))
  {
    if Comparable(maxDate) {
      ValidateMaxByCalendar(day, EndOfDay(maxDate.value));
    }
  }

  /** Against the widened lower bound a day fails exactly when it is an earlier calendar day than min's. */
  lemma LowerBoundByDay(day: Moment, minDate: Option<Moment>)
    requires day.At?
    ensures !ValidateMin(Some(day), LowerBound(minDate)) <==>
              Comparable(minDate) && Before(DateOf(day), DateOf(minDate.value))
  {
    if Comparable(minDate) {
      ValidateMinByCalendar(day, StartOfDay(minDate.value));
    }
  }

  /**
   * A day is disabled exactly when it lies before min's calendar day or after max's,
   * whatever the time of day of the bounds and of the day itself.
   */
  lemma DayDisabledIff(day: Moment, minDate: Option<Moment>, maxDate: Option<Moment>)
    requires day.At?
    ensures DayDisabled(day, minDate, maxDate) <==>
              (Comparable(minDate) && Before(DateOf(day), DateOf(minDate.value)))
              || (Comparable(maxDate) && Before(DateOf(maxDate.value), DateOf(day)))
  {
    UpperBoundByDay(day, maxDate);
    LowerBoundByDay(day, minDate);
  }

  /**
   * One cell of buildMonth: the day moment is the clock reading moved to day `i`; the cell
   * is selected when the model lies on the same day and marked today against the cached day.
   */
  function Cell(year: int, month: int, i: int, clock: Moment, minDate: Option<Moment>, maxDate: Option<Moment>,
                model: Option<Moment>, today: Date): (r: DayCell)
    requires clock.At? && Date(year, month, i).Valid()
    ensures r.number == i && (r.today <==> today == Date(year, month, i))
    ensures !Comparable(minDate) && !Comparable(maxDate) ==> !r.disabled
    ensures !Comparable(model) ==> !r.selected
  {
    var day := SetDate(clock, Date(year, month, i));
    var selected := if model.Some? then IsSameDay(model.value, day) else false;
    DayCell(i, DayDisabled(day, minDate, maxDate), today == Date(year, month, i), selected)
  }

  /** A cell is disabled exactly when its day lies outside the calendar days of the bounds. */
  lemma CellDisabledIff(year: int, month: int, i: int, clock: Moment, minDate: Option<Moment>, maxDate: Option<Moment>,
                        model: Option<Moment>, today: Date)
    requires clock.At? && Date(year, month, i).Valid()
    ensures Cell(year, month, i, clock, minDate, maxDate, model, today).disabled <==>
              (Comparable(minDate) && Before(Date(year, month, i), DateOf(minDate.value)))
              || (Comparable(maxDate) && Before(DateOf(maxDate.value), Date(year, month, i)))
  {
    DayDisabledIff(SetDate(clock, Date(year, month, i)), minDate, maxDate);
  }

  /** A day is selected exactly when a valid model lies on it. */
  lemma CellSelectedIff(year: int, month: int, i: int, clock: Moment, minDate: Option<Moment>, maxDate: Option<Moment>,
                        model: Option<Moment>, today: Date)
    requires clock.At? && Date(year, month, i).Valid()
    ensures Cell(year, month, i, clock, minDate, maxDate, model, today).selected <==>
              Comparable(model) && DateOf(model.value) == Date(year, month, i)
  {
  }

  /**
   * With both bounds inside the month shown, on days `lo` and `hi`, exactly the days
   * before `lo` and after `hi` are disabled, whatever the times of the bounds.
   */
  lemma BoundsWithinMonth(year: int, month: int, lo: int, hi: int, clock: Moment, minDate: Moment, maxDate: Moment,
                          model: Option<Moment>, today: Date, i: int)
    requires clock.At? && minDate.At? && maxDate.At? && Date(year, month, i).Valid()
    requires DateOf(minDate) == Date(year, month, lo) && DateOf(maxDate) == Date(year, month, hi)
    ensures Cell(year, month, i, clock, Some(minDate), Some(maxDate), model, today).disabled <==> i < lo || i > hi
  {
    CellDisabledIff(year, month, i, clock, Some(minDate), Some(maxDate), model, today);
  }

  /** May 2024 starts on a Wednesday: with weeks starting on Monday the grid has two leading blanks. */
  lemma WednesdayStartGivesTwoFillers()
    ensures GetFillerCount(Weekday(Date(2024, 4, 1)), FirstDayOfWeek) == 2
  {
    WeekdayAnchors();
  }

  /** The working copy after the parser: the parsed day merged in only when it parses and meets both bounds. */
  function ParsedCopy(local: Moment, str: string, minDate: Option<Moment>, maxDate: Option<Moment>): (r: Moment)
    ensures r != local ==> ParseDate(str).Some? && local.At?
    ensures local.At? ==> r.At? && SecondOfDay(r) == SecondOfDay(local) && r.millisecond == local.millisecond
  {
    var parsed := ParsedMoment(str);
    if parsed.At? && ValidateMinMax(Some(parsed), minDate, maxDate).isValid then SetDate(local, DateOf(parsed)) else local
  }

  datatype Validity = Validity(date: bool, minDate: bool, maxDate: bool)

  /** The validity keys after the parser: `date` fails only for a non-empty input that does not parse. */
  function ParseValidity(str: string, minDate: Option<Moment>, maxDate: Option<Moment>): (r: Validity)
    ensures r.date <==> str == [] || ParseDate(str).Some?
    ensures ParseDate(str).None? ==> r.minDate && r.maxDate
    ensures ParseDate(str).Some? ==> r.minDate == ValidateMin(Some(ParsedMoment(str)), minDate)
    ensures ParseDate(str).Some? ==> r.maxDate == ValidateMax(Some(ParsedMoment(str)), maxDate)
    ensures minDate.None? ==> r.minDate
    ensures maxDate.None? ==> r.maxDate
  {
    var parsed := ParsedMoment(str);
    var minMax := ValidateMinMax(Some(parsed), minDate, maxDate);
    Validity(str == [] || parsed.At?, minMax.minIsValid, minMax.maxIsValid)
  }

  /** Input that does not parse leaves the working copy as it was and never reports a bound violation. */
  lemma UnparsedInputKeepsCopy(local: Moment, str: string, minDate: Option<Moment>, maxDate: Option<Moment>)
    requires ParseDate(str).None?
    ensures ParsedCopy(local, str, minDate, maxDate) == local
    ensures ParseValidity(str, minDate, maxDate) == Validity(str == [], true, true)
  {
  }

  /** Empty input is valid on all three keys and changes nothing. */
  lemma EmptyInputIsValid(local: Moment, minDate: Option<Moment>, maxDate: Option<Moment>)
    ensures ParsedCopy(local, "", minDate, maxDate) == local
    ensures ParseValidity("", minDate, maxDate) == Validity(true, true, true)
  {
    assert DigitRun("", 0, 2) == 0;
  }

  /** "2/30/2020" is rejected: the `date` key fails and the working copy is unchanged. */
  lemma ThirtiethOfFebruaryRejected(local: Moment, minDate: Option<Moment>, maxDate: Option<Moment>)
    ensures ParsedCopy(local, "2" + "/" + "30" + "/" + "2020", minDate, maxDate) == local
    ensures !ParseValidity("2" + "/" + "30" + "/" + "2020", minDate, maxDate).date
  {
    NoThirtiethOfFebruary();
  }

  /**
   * A parsed day that violates a bound is reported on that key alone and, unlike the
   * formatter's path, is not merged into the working copy.
   */
  lemma OutOfBoundsInputKeepsCopy(local: Moment, str: string, minDate: Option<Moment>, maxDate: Option<Moment>)
    requires ParseDate(str).Some?
    requires !ValidateMin(Some(ParsedMoment(str)), minDate) || !ValidateMax(Some(ParsedMoment(str)), maxDate)
    ensures ParsedCopy(local, str, minDate, maxDate) == local
    ensures ParseValidity(str, minDate, maxDate).date
    ensures ParseValidity(str, minDate, maxDate).minDate == ValidateMin(Some(ParsedMoment(str)), minDate)
    ensures ParseValidity(str, minDate, maxDate).maxDate == ValidateMax(Some(ParsedMoment(str)), maxDate)
  {
  }

  /** An accepted day replaces only the calendar day of the working copy; its time of day survives. */
  lemma AcceptedInputKeepsTimeOfDay(local: Moment, str: string, minDate: Option<Moment>, maxDate: Option<Moment>)
    requires local.At? && ParseDate(str).Some?
    requires ValidateMinMax(Some(ParsedMoment(str)), minDate, maxDate).isValid
    ensures var r := ParsedCopy(local, str, minDate, maxDate);
            r.At? && DateOf(r) == ParseDate(str).value
            && r.hour == local.hour && r.minute == local.minute && r.second == local.second
            && r.millisecond == local.millisecond
  {
  }

  /** Re-parsing the rendering of the working copy leaves it unchanged, whatever the bounds. */
  lemma {:induction false} RenderingReparsesToSameCopy(local: Moment, minDate: Option<Moment>, maxDate: Option<Moment>)
    requires local.At? && 0 <= local.year < 10000
    ensures ParsedCopy(local, FormatDate(local), minDate, maxDate) == local
  {
    FormatParseRoundTrip(local);
  }

  /** The working copy after the formatter saw a present model: a valid model's reading is copied to the second. */
  function FormattedCopy(local: Moment, modelMoment: Moment): (r: Moment)
    ensures modelMoment.Invalid? || local.Invalid? ==> r == local
    ensures modelMoment.At? && local.At? ==>
              r.At? && EpochSeconds(r) == EpochSeconds(modelMoment) && r.millisecond == local.millisecond
  {
    if modelMoment.At? then SetDateTime(local, modelMoment) else local
  }

  /**
   * Formatting a valid model and parsing the text shown keeps the model's date and its
   * time of day: the date widget's parse does not zero the time set by the model.
   */
  lemma {:induction false} FormatThenParseKeepsModel(local: Moment, modelMoment: Moment, minDate: Option<Moment>, maxDate: Option<Moment>)
    requires local.At? && modelMoment.At? && 0 <= modelMoment.year < 10000
    ensures var shown := FormattedCopy(local, modelMoment);
            ParseDate(FormatDate(shown)) == Some(DateOf(modelMoment))
            && ParsedCopy(shown, FormatDate(shown), minDate, maxDate) == shown
            && EpochSeconds(shown) == EpochSeconds(modelMoment)
  {
    var shown := FormattedCopy(local, modelMoment);
    FormatParseRoundTrip(shown);
    RenderingReparsesToSameCopy(shown, minDate, maxDate);
  }

  /**
   * The grid compares whole days and the parser whole seconds: when min lies after
   * midnight, its own day is enabled in the grid, yet typing that day flags `minDate`
   * and leaves the working copy as it was.
   */
  lemma GridAndParserGranularityDiffer(local: Moment, str: string, clock: Moment, minDate: Moment,
                                       model: Option<Moment>, today: Date)
    requires clock.At? && minDate.At? && SecondOfDay(minDate) > 0
    requires ParseDate(str) == Some(DateOf(minDate))
    ensures !Cell(minDate.year, minDate.month, minDate.day, clock, Some(minDate), None, model, today).disabled
    ensures !ParseValidity(str, Some(minDate), None).minDate
    ensures ParseValidity(str, Some(minDate), None).date
    ensures ParsedCopy(local, str, Some(minDate), None) == local
  {
    CellDisabledIff(minDate.year, minDate.month, minDate.day, clock, Some(minDate), None, model, today);
  }

  class Picker {
    /** localMoment: the private working copy. */
    var local: Moment
    /** scope.model: the moment bound through ngModel. */
    var model: Option<Moment>
    var minDate: Option<Moment>
    var maxDate: Option<Moment>
    /** The ngModel validity keys `date`, `minDate`, `maxDate`. */
    var dateValid: bool
    var minDateValid: bool
    var maxDateValid: bool
    /** dayNow, monthNow, yearNow: the day captured when the directive was linked. */
    var today: Date
    /** The grid: day cells, leading fillers, the month shown and its neighbours. */
    var days: seq<DayCell>
    var filler: seq<int>
    var year: int
    var month: int
    var prevYear: int
    var prevMonth: int
    var nextYear: int
    var nextMonth: int

    /**
     * init(): createLocalMoment and defineNow, each of which reads the clock: `localClock`
     * is the reading createLocalMoment takes, `now` the later one defineNow takes.
     */
    constructor (model: Option<Moment>, minDate: Option<Moment>, maxDate: Option<Moment>, localClock: Moment, now: Moment)
      requires localClock.At? && now.At?
      ensures this.model == model && this.minDate == minDate && this.maxDate == maxDate
      ensures local == StartOfDay(if model.Some? then model.value else localClock)
      ensures today == DateOf(now)
      ensures dateValid && minDateValid && maxDateValid
      ensures days == [] && filler == []
    {
      this.model := model;
      this.minDate := minDate;
      this.maxDate := maxDate;
      local := StartOfDay(if model.Some? then model.value else localClock);
      today := DateOf(now);
      dateValid, minDateValid, maxDateValid := true, true, true;
      days, filler := [], [];
      year, month := now.year, now.month;
      prevYear, prevMonth, nextYear, nextMonth := now.year, now.month, now.year, now.month;
    }

    function IsToday(year: int, month: int, day: int): (r: bool)
      reads this
      ensures r <==> Date(year, month, day) == today
    {
      today.day == day && today.month == month && today.year == year
    }

    method UpdateValidity(dateIsValid: bool, minMax: MinMaxValidity)
      modifies this`dateValid, this`minDateValid, this`maxDateValid
      ensures dateValid == dateIsValid && minDateValid == minMax.minIsValid && maxDateValid == minMax.maxIsValid
    {
      maxDateValid := minMax.maxIsValid;
      minDateValid := minMax.minIsValid;
      dateValid := dateIsValid;
    }

    /** momentParser: the value handed to ngModel is the working copy. */
    method Parse(str: string) returns (r: Moment)
      modifies this`local, this`dateValid, this`minDateValid, this`maxDateValid
      ensures local == ParsedCopy(old(local), str, minDate, maxDate) && r == local
      ensures Validity(dateValid, minDateValid, maxDateValid) == ParseValidity(str, minDate, maxDate)
    {
      var parsed := ParsedMoment(str);
      var minMax := ValidateMinMax(Some(parsed), minDate, maxDate);
      var isValid := parsed.At? && minMax.isValid;
      UpdateValidity(str == [] || parsed.At?, minMax);
      if isValid {
        local := SetDate(local, DateOf(parsed));
      }
      r := local;
    }

    /** momentFormatter: the text shown for a model value. */
    method Format(modelMoment: Option<Moment>) returns (s: string)
      modifies this`local, this`dateValid, this`minDateValid, this`maxDateValid
      ensures modelMoment.None? ==> s == [] && unchanged(this)
      ensures modelMoment.Some? ==>
                && local == FormattedCopy(old(local), modelMoment.value)
                && s == FormatDate(local)
                && dateValid == modelMoment.value.At?
                && minDateValid == ValidateMin(modelMoment, minDate)
                && maxDateValid == ValidateMax(modelMoment, maxDate)
    {
      if modelMoment.None? {
        return "";
      }
      var minMax := ValidateMinMax(modelMoment, minDate, maxDate);
      var dateIsValid := modelMoment.value.At?;
      UpdateValidity(dateIsValid, minMax);
      if dateIsValid {
        local := SetDateTime(local, modelMoment.value);
      }
      s := FormatDate(local);
    }

    /** scope.buildMonth(year, month); `clock` is the reading of moment() used for every cell. */
    method BuildMonth(year: int, month: int, clock: Moment)
      requires 0 <= month < 12 && clock.At?
      modifies this`days, this`filler, this`year, this`month, this`prevYear, this`prevMonth, this`nextYear, this`nextMonth
      ensures this.year == year && this.month == month
      ensures YearMonth(prevYear, prevMonth) == Previous(YearMonth(year, month))
      ensures YearMonth(nextYear, nextMonth) == Next(YearMonth(year, month))
      ensures |days| == DaysInMonth(year, month)
      ensures forall k :: 0 <= k < |days| ==>
                days[k] == Cell(year, month, k + 1, clock, minDate, maxDate, model, today)
      ensures |filler| == GetFillerCount(Weekday(Date(year, month, 1)), FirstDayOfWeek)
      ensures forall k :: 0 <= k < |filler| ==> filler[k] == k
    {
      days := [];
      filler := [];
      this.year := year;
      this.month := month;
      prevYear := if month - 1 < 0 then year - 1 else year;
      nextYear := if month + 1 > 11 then year + 1 else year;
      prevMonth := if month - 1 < 0 then 11 else month - 1;
      nextMonth := if month + 1 > 11 then 0 else month + 1;
      PushDays(year, month, clock);
      PushFillers(GetFillerCount(Weekday(Date(year, month, 1)), FirstDayOfWeek));
    }

    /** The day loop of buildMonth: one cell per day of the month, in order. */
    method PushDays(year: int, month: int, clock: Moment)
      requires 0 <= month < 12 && clock.At? && days == []
      modifies this`days
      ensures |days| == DaysInMonth(year, month)
      ensures forall k :: 0 <= k < |days| ==>
                days[k] == Cell(year, month, k + 1, clock, minDate, maxDate, model, today)
    {
      var daysInMonth := DaysInMonth(year, month);
      var i := 1;
      while i <= daysInMonth
        invariant 1 <= i <= daysInMonth + 1
        invariant |days| == i - 1
        invariant forall k :: 0 <= k < |days| ==>
                    days[k] == Cell(year, month, k + 1, clock, minDate, maxDate, model, today)
      {
        var day := SetDate(clock, Date(year, month, i));
        var disabled := DayDisabled(day, minDate, maxDate);
        var selected := if model.Some? then IsSameDay(model.value, day) else false;
        days := days + [DayCell(i, disabled, IsToday(year, month, i), selected)];
        i := i + 1;
      }
    }

    /** The filler loop of buildMonth: the blanks are numbered 0, 1, ... */
    method PushFillers(fillers: int)
      requires filler == []
      modifies this`filler
      ensures |filler| == if fillers < 0 then 0 else fillers
      ensures forall k :: 0 <= k < |filler| ==> filler[k] == k
    {
      var k := 0;
      while k < fillers
        invariant 0 <= k && |filler| == k
        invariant k == 0 || k <= fillers
        invariant forall j :: 0 <= j < |filler| ==> filler[j] == j
      {
        filler := filler + [k];
        k := k + 1;
      }
    }

    /** scope.applyDate: a disabled cell does nothing; otherwise its day goes into the working copy and the model. */
    method ApplyDate(month: int, day: DayCell, year: int)
      requires Date(year, month, day.number).Valid()
      modifies this`local, this`model
      ensures day.disabled ==> local == old(local) && model == old(model)
      ensures !day.disabled ==> local == SetDate(old(local), Date(year, month, day.number)) && model == Some(local)
    {
      if day.disabled {
        return;
      }
      local := SetDate(local, Date(year, month, day.number));
      model := Some(local);
    }

    /** The minDate watcher: a new lower bound is checked against the model. */
    method WatchMinDate(newMinDate: Option<Moment>)
      modifies this`minDate, this`minDateValid
      ensures minDate == newMinDate && minDateValid == ValidateMin(model, newMinDate)
    {
      minDate := newMinDate;
      minDateValid := ValidateMin(model, newMinDate);
    }

    /** The maxDate watcher: a new upper bound is checked against the model. */
    method WatchMaxDate(newMaxDate: Option<Moment>)
      modifies this`maxDate, this`maxDateValid
      ensures maxDate == newMaxDate && maxDateValid == ValidateMax(model, newMaxDate)
    {
      maxDate := newMaxDate;
      maxDateValid := ValidateMax(model, newMaxDate);
    }
  }
}
