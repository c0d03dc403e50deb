# Date and time picker engine

A Dafny model of the date/time engine inside the two AngularJS directives of the
repository: the date picker (`dist/directives/date-picker.js`) and the time picker
(`source/directives/time-picker.js`).

Each directive keeps a private working copy of a point in time (`localMoment`) beside
the value bound through `ngModel`. Two hooks keep the copy in sync with the text field:
the parser (view to model) and the formatter (model to view). Both report validity
keys: `date`, `minDate` and `maxDate` for the date picker, `time` for the time picker.
The date picker also builds a month grid of day cells with disabled, today and selected
flags, leading filler cells and the neighbouring months. The time picker builds the
list of selectable time slots.

The project is split into these modules:

- `Calendar` (`calendar.dfy`): proleptic Gregorian arithmetic behind moment's
  `daysInMonth` and `day()`. It numbers days from 1970-01-01 and proves that day
  numbers follow calendar order.
- `Moments` (`moments.dfy`): the moment value. A moment is a reading
  `At(year, month, day, hour, minute, second, millisecond)` in one fixed zone, or
  `Invalid`. The module holds the setters (`set({...})`), `startOf`/`endOf` and the
  second- and day-granular comparisons the directives call.
- `Text` (`text.dfy`): digits, decimal rendering and moment's `zeroFill`.
- `DateFormat` (`date_format.dfy`): the default `M/D/YYYY` format as moment renders it
  and as moment's strict parser reads it.
- `TimeFormat` (`time_format.dfy`): the default `h:mm a` format, rendered and strictly
  parsed (English meridiem).
- `Bounds` (`bounds.dfy`): `validateMin`, `validateMax` and `validateMinMax`.
- `DatePicker` (`date_picker.dfy`): pure functions for the grid, the parser and the
  formatter, plus the class `Picker`. Its fields are the working copy, the model, the
  bounds, the validity keys, the cached "today" and the grid. Its methods are the
  directive's functions that change them.
- `TimePicker` (`time_picker.dfy`): the slot list as a function with its properties,
  plus the class `Picker`. Its fields are the working copy, the model, the `time` key
  and `times`. Its methods are `createTimes` (two nested loops), the parser, the
  formatter and `applyTime`.

Each method is proved against a function of its inputs and old state. The properties
the directives promise are proved about those functions as lemmas: bounds compare at
whole seconds and inclusively, a disabled day is exactly a day outside the bounds'
calendar days, navigation is inverse and skips no day, parse and format round-trip,
and the slot list is complete, ordered and of length `24 * ceil(60 / I)`.

The parser of the date picker merges a parsed day into the working copy only when the
day parses AND meets both bounds (`dist/directives/date-picker.js:222,226`). The model
follows the code: such a day is flagged and is not merged (see
`DatePicker.OutOfBoundsInputKeepsCopy`).

The grid and the parser compare at different granularities. The grid widens the bounds
to whole days; the parser compares whole seconds. When min lies after midnight, min's
own day is enabled in the grid, yet typing that day flags `minDate` and is not merged
(see `DatePicker.GridAndParserGranularityDiffer`). The model reproduces this as the
source has it.

## Model

| member | source | states |
|---|---|---|
| Calendar.DaysInMonth | dist/directives/date-picker.js:338 | February has 29 days exactly in a leap year, otherwise 28; April, June, September and November have 30; all other months have 31 |
| Calendar.IsLeapYear | dist/directives/date-picker.js:338 | the Gregorian rule case by case: a leap year is divisible by 4; a year divisible by 4 and not by 100 is leap; a century year is leap exactly when divisible by 400 |
| Calendar.Weekday | dist/directives/date-picker.js:370 | the weekday of a valid day lies in 0..6, with 0 for Sunday |
| Calendar.DayNumberOrder | dist/directives/date-picker.js:295 | day numbers order valid days exactly as the calendar does, and two valid days share a number only when they are the same day |
| Calendar.WeekdayAnchors | dist/directives/date-picker.js:370 | the weekday function agrees with the real calendar: 1 January 2024 is a Monday, 1 May 2024 a Wednesday, 29 February 2000 a Tuesday |
| Moments.IsSameOrAfterSecond | dist/directives/date-picker.js:295 | `isSameOrAfter(b, 'second')` holds exactly when b's whole second is not later than a's, whatever the milliseconds |
| Moments.IsSameOrBeforeSecond | dist/directives/date-picker.js:305 | `isSameOrBefore(b, 'second')` holds exactly when a's whole second is not later than b's |
| Moments.IsAfterSecond | dist/directives/date-picker.js:295 | `isAfter(b, 'second')` holds exactly when b's whole second is earlier than a's |
| Moments.IsBeforeSecond | dist/directives/date-picker.js:305 | `isBefore(b, 'second')` holds exactly when a's whole second is earlier than b's |
| Moments.IsSameDay | dist/directives/date-picker.js:357 | `isSame(day, 'day')` holds exactly when both moments are valid and on the same calendar day |
| Moments.SetDate | dist/directives/date-picker.js:228-232 | setting year, month and date replaces the calendar day and keeps hour, minute, second and millisecond; a no-op on an invalid moment |
| Moments.SetTime | source/directives/time-picker.js:116-120 | setting hours, minutes and seconds keeps the calendar day and the milliseconds; a no-op on an invalid moment |
| Moments.SetHourMinute | source/directives/time-picker.js:174-177 | setting hours and minutes keeps the day, the seconds and the milliseconds |
| Moments.SetDateTime | dist/directives/date-picker.js:252-259 | copying the six fields gives the source's day and second of day, hence its instant to the second, and keeps the milliseconds |
| Moments.StartOfDay | dist/directives/date-picker.js:112 | `startOf('day')` is midnight of the same day |
| Moments.EndOfDay | dist/directives/date-picker.js:351 | `endOf('day')` is 23:59:59.999 of the same day |
| Moments.StartOfMinute | source/directives/time-picker.js:63-65 | `startOf('minute')` clears seconds and milliseconds, keeps the rest, and lies within the minute of the original |
| Bounds.ValidateMin | dist/directives/date-picker.js:288-296 | true when the candidate or the bound is absent or invalid; otherwise true exactly when the candidate's second is the bound's second or later |
| Bounds.ValidateMax | dist/directives/date-picker.js:298-306 | true when either side is absent or invalid; otherwise true exactly when the candidate's second is the bound's second or earlier |
| Bounds.ValidateMinMax | dist/directives/date-picker.js:272-286 | an absent bound reports valid, each key is the matching validator, and `isValid` is exactly their conjunction |
| Bounds.ValidateMinByCalendar | dist/directives/date-picker.js:288-296 | the lower bound passes exactly when the candidate's day is later, or the same day at the same second of day or later |
| Bounds.ValidateMaxByCalendar | dist/directives/date-picker.js:298-306 | the upper bound passes exactly when the candidate's day is earlier, or the same day at the same second of day or earlier |
| Bounds.WithinBoundsPasses | dist/directives/date-picker.js:272-306 | a candidate between both bounds at second granularity passes all three keys, equality at either end included |
| Bounds.SubSecondIgnored | dist/directives/date-picker.js:295-305 | changing the milliseconds of the candidate or of the bound never changes either validator's verdict |
| DateFormat.YearToken | dist/directives/date-picker.js:36 | the YYYY token of a year from 0 to 9999 is four digits whose value is the year; negative years get a sign, years past 9999 are not truncated |
| Text.ZeroFill | dist/directives/date-picker.js:262 | the padded text is all digits, reads back as the number, is at least the width long, and is exactly the width long when the number fits in it |
| DateFormat.FormatDate | dist/directives/date-picker.js:262 | the text is "Invalid date" exactly for an invalid moment; a valid moment of years 0 to 9999 renders in 8 to 10 characters |
| DateFormat.ParseDate | dist/directives/date-picker.js:220 | the strict `M/D/YYYY` parse only yields a day the calendar has, with a four-digit year, from 8 to 10 characters of text |
| DateFormat.ParseDateSound | dist/directives/date-picker.js:220 | text the strict parse accepts is a one- or two-digit month, a slash, a one- or two-digit day, a slash and four year digits, and the day read is the one those fields name |
| DateFormat.ParsedMoment | dist/directives/date-picker.js:220-222 | the parsed moment is valid exactly when the strict parse succeeds, and then it is midnight of the day read |
| DateFormat.FormatParseRoundTrip | dist/directives/date-picker.js:220-262 | rendering a valid moment of years 0 to 9999 and parsing the text yields its calendar day |
| DateFormat.NoThirtiethOfFebruary | dist/directives/date-picker.js:220 | "2/30/2020" does not parse |
| DateFormat.NoLeapDayIn2021 | dist/directives/date-picker.js:220 | "2/29/2021" does not parse |
| DateFormat.ThirteenthMonthRejected | dist/directives/date-picker.js:220 | "13/1/2020" does not parse |
| DateFormat.MalformedDatesRejected | dist/directives/date-picker.js:220 | a two-digit year and leading or trailing spaces are rejected by the strict parse |
| DateFormat.LeapDayAccepted | dist/directives/date-picker.js:220 | "2/29/2020" parses to 29 February 2020 |
| DateFormat.LeadingZerosAccepted | dist/directives/date-picker.js:220 | "02/09/2020" parses to 9 February 2020 |
| TimeFormat.Hour12 | source/directives/time-picker.js:29 | the `h` token lies in 1..12 and agrees with the hour modulo 12 |
| TimeFormat.MeridiemFix | source/directives/time-picker.js:108 | a 12-hour reading with a meridiem gives the 24-hour hour whose `h` token is that reading, in the afternoon exactly when the meridiem is pm |
| TimeFormat.MeridiemFixInvertsHour12 | source/directives/time-picker.js:108 | reading back the 12-hour form and meridiem of an hour gives that hour |
| TimeFormat.Meridiem | source/directives/time-picker.js:142 | the `a` token of the en locale: "am" before noon, "pm" from noon on; its contract is stated by `TimeFormat.MeridiemReadsBack` |
| TimeFormat.MeridiemReadsBack | source/directives/time-picker.js:142 | the rendered meridiem (`a` token) is one the strict parser accepts, and it reads as afternoon exactly from noon on |
| TimeFormat.IsMeridiem | source/directives/time-picker.js:108 | an accepted meridiem is 1 to 4 characters long |
| TimeFormat.MeridiemForms | source/directives/time-picker.js:108 | the meridiems accepted are exactly a, A, p or P followed by an optional '.', an optional m or M and an optional '.' (eleven tails in all) |
| TimeFormat.IsPM | source/directives/time-picker.js:108 | an accepted meridiem reads as afternoon exactly when it does not start with a or A |
| TimeFormat.ParseTime | source/directives/time-picker.js:108 | the strict `h:mm a` parse only yields hours 0..23 and minutes 0..59 |
| TimeFormat.ParseTimeSound | source/directives/time-picker.js:108 | text the strict parse accepts is a one- or two-digit hour, a colon, two minute digits, a space and a meridiem, and the time read is the one those fields name |
| TimeFormat.FormatParseRoundTrip | source/directives/time-picker.js:108-142 | rendering any time of day in `h:mm a` and parsing the text yields that hour and minute |
| TimeFormat.FormatTime | source/directives/time-picker.js:162 | the `h:mm a` rendering of a time of day; its contract is stated by `TimeFormat.FormatTimeShape` and `TimeFormat.FormatParseRoundTrip` |
| TimeFormat.FormatTimeShape | source/directives/time-picker.js:162 | the `h:mm a` text of a time of day is 7 or 8 characters long and ends in "am" before noon and in "pm" from noon on |
| TimeFormat.FormatMomentTime | source/directives/time-picker.js:142 | the text shown parses exactly when the moment is valid, and then to the moment's hour and minute |
| TimeFormat.MidnightShown | source/directives/time-picker.js:162 | midnight is shown as "12:00 am" |
| TimeFormat.NoonShown | source/directives/time-picker.js:162 | noon is shown as "12:00 pm" |
| TimeFormat.LastHalfHourShown | source/directives/time-picker.js:162 | 23:30 is shown as "11:30 pm" |
| TimeFormat.AfternoonWithDots | source/directives/time-picker.js:108 | "1:30 P.M." parses to 13:30 |
| TimeFormat.BareMeridiemLetter | source/directives/time-picker.js:108 | "12:05 a" parses to 00:05 |
| TimeFormat.HourZeroRejected | source/directives/time-picker.js:108 | "0:30 am" does not parse |
| TimeFormat.HourThirteenRejected | source/directives/time-picker.js:108 | "13:00 pm" does not parse |
| TimeFormat.MalformedTimesRejected | source/directives/time-picker.js:108 | a one-digit minute and text after the meridiem are rejected |
| DatePicker.GetFillerCount | dist/directives/date-picker.js:377-382 | for a weekday and a first day of week in 0..6 the count lies in 0..6, and adding it to the first day of week gives the weekday, modulo 7 |
| DatePicker.WednesdayStartGivesTwoFillers | dist/directives/date-picker.js:370-382 | a month starting on a Wednesday (May 2024) with weeks starting on Monday has two fillers |
| DatePicker.Previous | dist/directives/date-picker.js:332-334 | the previous month of a valid month is a valid month |
| DatePicker.Next | dist/directives/date-picker.js:333-335 | the next month of a valid month is a valid month |
| DatePicker.PreviousIsAdjacent | dist/directives/date-picker.js:332-334 | the previous month's last day is the day before this month's first day, January to December included |
| DatePicker.NextIsAdjacent | dist/directives/date-picker.js:333-335 | the next month's first day is the day after this month's last day, December to January included |
| DatePicker.NavigationInverse | dist/directives/date-picker.js:332-335 | going forward then back, or back then forward, returns to the same month |
| DatePicker.UpperBound | dist/directives/date-picker.js:351 | an absent max stays absent; a valid max becomes the last second of its own calendar day |
| DatePicker.LowerBound | dist/directives/date-picker.js:353 | an absent min stays absent; a valid min becomes midnight of its own calendar day |
| DatePicker.DayDisabled | dist/directives/date-picker.js:355 | an invalid day is never disabled, and with no usable bound no day is |
| DatePicker.UpperBoundByDay | dist/directives/date-picker.js:351-355 | against max widened to the end of its day, a day fails exactly when it is a later calendar day than max's |
| DatePicker.LowerBoundByDay | dist/directives/date-picker.js:353-355 | against min widened to the start of its day, a day fails exactly when it is an earlier calendar day than min's |
| DatePicker.DayDisabledIff | dist/directives/date-picker.js:351-355 | a day is disabled exactly when it lies before min's calendar day or after max's, whatever the times of day |
| DatePicker.Cell | dist/directives/date-picker.js:342-367 | the cell carries its day number, is marked today exactly on the cached day, is never disabled without a usable bound, and is never selected without a valid model |
| DatePicker.CellDisabledIff | dist/directives/date-picker.js:342-355 | the cell of day i is disabled exactly when day i is before min's day or after max's day |
| DatePicker.CellSelectedIff | dist/directives/date-picker.js:357 | the cell of day i is selected exactly when a valid model lies on day i |
| DatePicker.BoundsWithinMonth | dist/directives/date-picker.js:351-355 | with min on day lo and max on day hi of the month shown, exactly the days before lo and after hi are disabled |
| DatePicker.GridAndParserGranularityDiffer | dist/directives/date-picker.js:351-355 | with min after midnight, min's own day is enabled in the grid, yet typing that day parses, flags `minDate` and leaves the working copy unchanged |
| DatePicker.ParsedCopy | dist/directives/date-picker.js:218-236 | the parser changes the working copy only for text that parses and only when the copy is valid, and it never changes the copy's time of day or milliseconds |
| DatePicker.ParseValidity | dist/directives/date-picker.js:220-224 | `date` holds exactly for empty text or text that parses; for text that parses, `minDate` and `maxDate` are the two validators' verdicts on the parsed day; unparsable text and absent bounds never fail a bound key |
| DatePicker.FormattedCopy | dist/directives/date-picker.js:250-260 | an invalid model or copy leaves the copy; a valid model puts the copy at the model's instant to the second, keeping its milliseconds |
| DatePicker.UnparsedInputKeepsCopy | dist/directives/date-picker.js:218-236 | text that does not parse leaves the working copy unchanged, clears `date` unless the text is empty, and reports both bounds valid |
| DatePicker.EmptyInputIsValid | dist/directives/date-picker.js:224 | empty text keeps the copy and reports all three keys valid |
| DatePicker.ThirtiethOfFebruaryRejected | dist/directives/date-picker.js:218-236 | "2/30/2020" clears `date` and leaves the working copy unchanged |
| DatePicker.OutOfBoundsInputKeepsCopy | dist/directives/date-picker.js:221-226 | a day that parses but violates a bound keeps `date` valid, reports each bound key as its validator's verdict on that day, and is not merged into the copy |
| DatePicker.AcceptedInputKeepsTimeOfDay | dist/directives/date-picker.js:226-232 | an accepted day replaces the copy's calendar day and keeps its hour, minute, second and millisecond |
| DatePicker.RenderingReparsesToSameCopy | dist/directives/date-picker.js:218-262 | parsing the rendering of the working copy leaves it unchanged, whatever the bounds |
| DatePicker.FormatThenParseKeepsModel | dist/directives/date-picker.js:239-263 | after the formatter copies a valid model, the text shown parses to the model's day, parsing it keeps the copy, and the copy is at the model's second |
| DatePicker.Picker.constructor | dist/directives/date-picker.js:94-122 | the working copy is the start of the model's day, or of today's when the model is absent; today is cached from a second, later clock reading (createLocalMoment and defineNow each read the clock); all keys are valid |
| DatePicker.Picker.IsToday | dist/directives/date-picker.js:131-134 | true exactly when the day given is the cached today |
| DatePicker.Picker.UpdateValidity | dist/directives/date-picker.js:265-270 | sets the three keys from the date flag and the bounds report and changes nothing else |
| DatePicker.Picker.Parse | dist/directives/date-picker.js:218-236 | the copy becomes the parsed copy of the text, the three keys become the parse validity, and the copy is returned |
| DatePicker.Picker.Format | dist/directives/date-picker.js:239-263 | an absent model returns "" and changes nothing; otherwise the copy takes a valid model's six fields, `date` is the model's validity, the bound keys are the validators' verdicts, and the copy is rendered |
| DatePicker.Picker.BuildMonth | dist/directives/date-picker.js:319-374 | sets the month shown and its wrapped neighbours, one cell per day of the month in order, each equal to the cell function, and fillers numbered 0..n-1 for the weekday of day 1 |
| DatePicker.Picker.PushDays | dist/directives/date-picker.js:338-368 | the day loop pushes exactly the month's days, cell k for day k+1 |
| DatePicker.Picker.PushFillers | dist/directives/date-picker.js:370-373 | the filler loop pushes 0, 1, ... up to the count |
| DatePicker.Picker.ApplyDate | dist/directives/date-picker.js:388-401 | a disabled cell changes nothing; otherwise the copy takes the chosen day and the model becomes the copy |
| DatePicker.Picker.WatchMinDate | dist/directives/date-picker.js:201-203 | a new min bound is stored and `minDate` is the validator's verdict on the model |
| DatePicker.Picker.WatchMaxDate | dist/directives/date-picker.js:205-207 | a new max bound is stored and `maxDate` is the validator's verdict on the model |
| TimePicker.SlotsPerHour | source/directives/time-picker.js:156 | the inner loop runs ceil(60 / I) times: the count c is at least 1 and (c-1)·I < 60 ≤ c·I |
| TimePicker.IntervalOf | source/directives/time-picker.js:150 | the interval is at least 1: the attribute's number when it reads as one, 60 when it is absent or unreadable |
| TimePicker.UnreadableIntervalGivesHourlySlots | source/directives/time-picker.js:150-156 | with an attribute `parseInt` cannot read, each hour gets its :00 slot and no other, as the source's NaN minute step does |
| TimePicker.HourSlotsClock | source/directives/time-picker.js:156-165 | one hour's slots carry the hour and the minutes the inner loop steps through |
| TimePicker.SlotsUpToClock | source/directives/time-picker.js:155-166 | the slots of the first n hours carry the times the two loops step through, each shown in the default format |
| TimePicker.TimesCount | source/directives/time-picker.js:150-167 | createTimes lists 24 · ceil(60 / I) slots |
| TimePicker.TimesWellFormed | source/directives/time-picker.js:155-165 | every slot has hours 0..23, minutes below 60 on a multiple of I, and the `h:mm a` rendering of its time as display |
| TimePicker.TimesComplete | source/directives/time-picker.js:155-165 | every hour at every multiple of I below 60 has its slot in the list |
| TimePicker.TimesIncreasing | source/directives/time-picker.js:155-165 | the slots are in strictly increasing time of day |
| TimePicker.Times | source/directives/time-picker.js:145-167 | the slot list createTimes builds for an interval; its contract is stated by `TimePicker.TimesProperties` |
| TimePicker.TimesProperties | source/directives/time-picker.js:150-167 | count, well-formedness, completeness and strict order of the slot list together |
| TimePicker.FirstAndLastSlot | source/directives/time-picker.js:155-165 | the list starts at midnight and ends in hour 23 at the last multiple of I below 60 |
| TimePicker.OneSlotAnHour | source/directives/time-picker.js:150-156 | the default interval of 60, or more, gives 24 slots, all on the hour |
| TimePicker.TwoSlotsAnHour | source/directives/time-picker.js:156 | an interval from 30 up to 60 gives 48 slots on minute 0 or I; 40 gives :00 and :40 because the step restarts every hour |
| TimePicker.TwoSlotsAnHourEnds | source/directives/time-picker.js:155-165 | with such an interval the first slot shows "12:00 am" and the 48th is minute I of hour 23 (for 30, "11:30 pm") |
| TimePicker.ParsedTimeCopy | source/directives/time-picker.js:106-124 | the parser changes the working copy only for text that parses and only when the copy is valid, and it never changes the copy's day or milliseconds |
| TimePicker.FormattedTimeCopy | source/directives/time-picker.js:133-140 | without a moment model the copy stays; with a valid moment model it takes the model's calendar day and keeps its own time of day and milliseconds |
| TimePicker.FormatValidity | source/directives/time-picker.js:129-131 | `time` holds exactly when the model is absent or is a moment |
| TimePicker.ParsedTimeCopyChanges | source/directives/time-picker.js:106-124 | a failed parse keeps the copy; a successful one sets the hour and minute read and second 0, and keeps the day and the milliseconds |
| TimePicker.ShownTimeReparses | source/directives/time-picker.js:106-142 | parsing the text shown for a copy truncated to the minute leaves the copy unchanged |
| TimePicker.FormattedCopyShowsOwnTime | source/directives/time-picker.js:133-142 | for a valid moment model (or none), the formatter keeps the copy's time of day, and the text it shows parses back to that time |
| TimePicker.AppliedSlotShown | source/directives/time-picker.js:161-177 | after picking any slot, the working copy's rendering is exactly the slot's display |
| TimePicker.Picker.constructor | source/directives/time-picker.js:62-66 | the copy is the model's moment, or the clock reading when the model holds none, truncated to the minute, so its seconds and milliseconds are 0; `time` is valid |
| TimePicker.Picker.CreateTimes | source/directives/time-picker.js:145-167 | `times` becomes the slot list for the attribute's interval, or for 60 when it is absent or unreadable |
| TimePicker.Picker.FillTimes | source/directives/time-picker.js:147-167 | the outer loop leaves `times` equal to the slot list for the interval |
| TimePicker.Picker.PushHour | source/directives/time-picker.js:156-166 | the inner loop appends exactly hour h's slots to `times` |
| TimePicker.Picker.ParseView | source/directives/time-picker.js:106-124 | the copy becomes the parsed copy of the text, `time` holds exactly when the text is empty or parses, and the copy is returned |
| TimePicker.Picker.FormatModel | source/directives/time-picker.js:127-143 | the copy takes only a moment model's calendar day, `time` holds unless the model is present but not a moment, and the copy's time is rendered |
| TimePicker.Picker.ApplyTime | source/directives/time-picker.js:171-181 | the copy takes the slot's hour and minute and keeps day and seconds, and the model becomes the copy |

## Left out

- DOM and template glue: template strings, `$compile`, click and touch handlers, and showing or hiding the pickers (`showDatepicker`, `showTimepicker`). This is rendering, not engine logic.
- Timezones: `moment.tz`, `tz.guess`, `updateMinMaxTimezone` and the timezone watchers. They depend on moment-timezone's zone data, which is not part of this model. Every moment lives in one fixed zone.
- Daylight-saving gaps and overlaps: with a fixed zone every reading exists exactly once.
- Warn-once logging (`warnings`, `warn`, `warnTz`, `validateAttrs`). It only writes to `$log`.
- `$timeout`, the `onChangeCallback`, `$setDirty`, watcher registration and `$destroy`. These are framework event plumbing. The watcher bodies for `minDate` and `maxDate` are modelled as `WatchMinDate` and `WatchMaxDate`.
- The digest cycle: assigning the model in `applyDate` and `applyTime` triggers the formatter in the browser. The model exposes the formatter as its own method and does not chain the two calls.
- DatePicker.Picker.Parse, TimePicker.Picker.ParseView, DatePicker.Picker.ApplyDate, TimePicker.Picker.ApplyTime: the parser's return value is the working-copy object itself, and ngModel commits it as the model. The model does not capture that commit, so `model` is not updated by `Parse` or `ParseView`. Nor does it capture the aliasing that follows. Once the copy has been committed, the in-place `set` of `applyDate` (`dist/directives/date-picker.js:395`) and of `applyTime` (`source/directives/time-picker.js:174`) also changes the committed model object before the clone. In the model, moments are values and `model` changes only where a method assigns it.
- Custom format strings from the `date-picker` and `time-picker` attributes, `makeDayNames` and the `MMMM` month label. Only the default `M/D/YYYY` and `h:mm a` formats are modelled.
- The clock: `moment()` readings are parameters (`localClock` and `now` for the two readings of `init()`, `clock` for `buildMonth`). `buildMonth` reads the clock once per cell; the model uses one reading for every cell.
- DatePicker.Picker.BuildMonth: the per-cell clock readings are collapsed into one `clock` parameter. A month built across midnight is not modelled.
- `new Date("1/1/1990 h:mm")` in `createTimes`: the model renders the slot's hour and minute directly in `h:mm a`.
- TimePicker.Picker.CreateTimes: requires a numeric interval of at least 1. With 0 or a negative interval the source's minute loop never terminates, so those inputs are not modelled. An attribute `parseInt` cannot read (NaN) is modelled: every hour gets only its :00 slot, which is the list for an interval of 60 (`TimePicker.IntervalOf`, `TimePicker.UnreadableIntervalGivesHourlySlots`).
- TimePicker.Picker.constructor: models `createLocalMoment`, the first step of `init()`. `watchAttrs` is timezone-only and left out; `createTimes` is the separate method `CreateTimes`.
- TimePicker.FormattedTimeCopy, TimePicker.FormattedCopyShowsOwnTime, TimePicker.Picker.FormatModel: require a moment model to be valid. For an invalid model the formatter sets year, month and date to NaN on the working copy, and what that does to the copy depends on the moment release (the month setter's NaN handling changed between releases). That case is not modelled.
- DatePicker.Picker.Format: `dateIsValid` is the model's validity; a present model that is not a moment object at all is not modelled.
- Milliseconds: `set` never touches them, so the model carries them unchanged. Sub-second comparison never decides a bound.
- The moment library: its behaviour is modelled as release 2.29 has it. Its source is not part of this model. These modelled behaviours depend on the release:
  - `set` with an object applies the units by priority (year, then month, then date, then the time units). Earlier 2.x releases applied them in key order. Under key order, `applyDate`'s `{month, date, year}` and `buildMonth`'s per-day `set` can overflow (a copy on 31 January 2021 given 29 February 2020 would end on 1 March 2020); `Moments.SetDate` does not model that.
  - `set` on an invalid moment is a no-op.
  - Strict parsing reads `M`, `D` and `h` as one or two digits, `mm` and `YYYY` as exactly two and four, and rejects unused input.
  - `YYYY` is rendered with `zeroFill` to four digits.
- Years: the strict `YYYY` parse reads exactly four digits, so only years 0 to 9999 round-trip. The round-trip lemmas require that range.
