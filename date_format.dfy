/**
 * The date picker's default format 'M/D/YYYY' as moment renders it and as moment's
 * strict parser reads it: M and D are one or two digits (a leading zero is accepted),
 * YYYY exactly four digits, and the whole input must be consumed.
 */
module DateFormat {
  import opened Wrappers
  import opened Text
  import opened Calendar
  import opened Moments

  /** The YYYY token: zeroFill(year, 4), a minus sign for negative years, no truncation past 9999. */
  function YearToken(year: int): (s: string)
    ensures 0 <= year < 10000 ==> |s| == 4 && AllDigits(s) && DigitsValue(s) == year
    ensures year < 0 ==> |s| >= 5 && s[0] == '-'
    ensures year >= 10000 ==> |s| >= 5 && AllDigits(s)
  {
    if year >= 0 then ZeroFill(year, 4) else "-" + ZeroFill(-year, 4)
  }

  /** localMoment.format('M/D/YYYY'): "Invalid date" exactly for an invalid moment. */
  function FormatDate(m: Moment): (s: string)
    ensures s == InvalidDateText <==> m.Invalid?
    ensures m.At? && 0 <= m.year < 10000 ==> 8 <= |s| <= 10
  {
    if m.Invalid? then InvalidDateText
    else
      var month, day, year := NatToString(m.month + 1), NatToString(m.day), YearToken(m.year);
      NatToStringLength(m.month + 1, 2);
      NatToStringLength(m.day, 2);
      var s := month + "/" + day + "/" + year;
      assert s[0] == month[0] && IsDigit(month[0]);
      s
  }

  /** moment(s, 'M/D/YYYY', true): the calendar day read, or None when the strict parse is invalid. */
  function ParseDate(s: string): (r: Option<Date>)
    ensures r.Some? ==> r.value.Valid() && 0 <= r.value.year < 10000
    ensures r.Some? ==> 8 <= |s| <= 10
  {
    var a := DigitRun(s, 0, 2);
    if a == 0 || a == |s| || s[a] != '/' then None
    else
      var b := DigitRun(s, a + 1, 2);
      var c := a + 1 + b;
      if b == 0 || c == |s| || s[c] != '/' then None
      else if |s| != c + 5 || !AllDigits(s[c + 1..]) then None
      else
        assert AllDigits(s[..a]) && AllDigits(s[a + 1..c]);
        var d := Date(DigitsValue(s[c + 1..]), DigitsValue(s[..a]) - 1, DigitsValue(s[a + 1..c]));
        if d.Valid() then Some(d) else None
  }

  /** The parsed moment: local midnight of the day read, or an invalid moment. */
  function ParsedMoment(s: string): (m: Moment)
    ensures m.At? <==> ParseDate(s).Some?
    ensures m.At? ==> DateOf(m) == ParseDate(s).value && SecondOfDay(m) == 0 && m.millisecond == 0
  {
    match ParseDate(s)
    case None => Invalid
    case Some(d) => At(d.year, d.month, d.day, 0, 0, 0, 0)
  }

  /** The day a strict parse reads from three digit fields, when the calendar has it. */
  function FieldsDate(mm: string, dd: string, yyyy: string): Option<Date>
    requires AllDigits(mm) && AllDigits(dd) && AllDigits(yyyy)
  {
    var d := Date(DigitsValue(yyyy), DigitsValue(mm) - 1, DigitsValue(dd));
    if d.Valid() then Some(d) else None
  }

  /** Where the fields and the slashes of a rendered day sit. */
  lemma FieldsOfDateText(mm: string, dd: string, yyyy: string)
    ensures var s := mm + "/" + dd + "/" + yyyy;
            && s[..|mm|] == mm && s[|mm|] == '/'
            && s[|mm| + 1..|mm| + 1 + |dd|] == dd && s[|mm| + 1 + |dd|] == '/'
            && s[|mm| + |dd| + 2..] == yyyy
  {
  }

  /** Once the two digit runs and both slashes are located, the parse reads the three fields. */
  lemma ParseDateAt(s: string, a: nat, b: nat)
    requires 1 <= a && 1 <= b && |s| == a + b + 6
    requires DigitRun(s, 0, 2) == a && s[a] == '/'
    requires DigitRun(s, a + 1, 2) == b && s[a + 1 + b] == '/'
    requires AllDigits(s[a + b + 2..])
    ensures AllDigits(s[..a]) && AllDigits(s[a + 1..a + 1 + b])
    ensures ParseDate(s) == FieldsDate(s[..a], s[a + 1..a + 1 + b], s[a + b + 2..])
  {
  }

  /**
   * Text made of a one- or two-digit month, a one- or two-digit day and a four-digit
   * year, separated by slashes, parses to the day those fields name, if it exists.
   */
  lemma {:induction false} ParseDateFields(mm: string, dd: string, yyyy: string)
    requires 1 <= |mm| <= 2 && 1 <= |dd| <= 2 && |yyyy| == 4
    requires AllDigits(mm) && AllDigits(dd) && AllDigits(yyyy)
    ensures ParseDate(mm + "/" + dd + "/" + yyyy) == FieldsDate(mm, dd, yyyy)
  {
    var s := mm + "/" + dd + "/" + yyyy;
    FieldsOfDateText(mm, dd, yyyy);
    DigitRunStopsAt(s, 0, mm);
    DigitRunStopsAt(s, |mm| + 1, dd);
    ParseDateAt(s, |mm|, |dd|);
  }

  /** Rendering a day of years 0 to 9999 and parsing it back yields that day. */
  lemma {:induction false} FormatParseRoundTrip(m: Moment)
    requires m.At? && 0 <= m.year < 10000
    ensures ParseDate(FormatDate(m)) == Some(DateOf(m))
  {
    NatToStringLength(m.month + 1, 2);
    NatToStringLength(m.day, 2);
    ParseDateFields(NatToString(m.month + 1), NatToString(m.day), YearToken(m.year));
  }

  /**
   * The strict parse accepts nothing but the M/D/YYYY shape: text it reads is a one- or
   * two-digit month, a slash, a one- or two-digit day, a slash and a four-digit year,
   * and the day read is the one those fields name.
   */
  lemma ParseDateSound(s: string)
    ensures ParseDate(s).Some? ==>
              exists mm, dd, yyyy ::
                && 1 <= |mm| <= 2 && 1 <= |dd| <= 2 && |yyyy| == 4
                && AllDigits(mm) && AllDigits(dd) && AllDigits(yyyy)
                && s == mm + "/" + dd + "/" + yyyy
                && ParseDate(s) == FieldsDate(mm, dd, yyyy)
  {
    if ParseDate(s).Some? {
      var a := DigitRun(s, 0, 2);
      var b := DigitRun(s, a + 1, 2);
      ParseDateAt(s, a, b);
      var mm, dd, yyyy := s[..a], s[a + 1..a + 1 + b], s[a + b + 2..];
      assert s == mm + "/" + dd + "/" + yyyy;
    }
  }

  /** The strict parse rejects a day the month does not have: there is no 30 February 2020. */
  lemma NoThirtiethOfFebruary()
    ensures ParseDate("2" + "/" + "30" + "/" + "2020") == None
  {
    FourDigitsValue("2020");
    TwoDigitsValue("30");
    ParseDateFields("2", "30", "2020");
  }

  /** 2021 is not a leap year, so it has no 29 February. */
  lemma NoLeapDayIn2021()
    ensures ParseDate("2" + "/" + "29" + "/" + "2021") == None
  {
    FourDigitsValue("2021");
    TwoDigitsValue("29");
    ParseDateFields("2", "29", "2021");
  }

  /** A thirteenth month is rejected. */
  lemma ThirteenthMonthRejected()
    ensures ParseDate("13" + "/" + "1" + "/" + "2020") == None
  {
    FourDigitsValue("2020");
    TwoDigitsValue("13");
    ParseDateFields("13", "1", "2020");
  }

  /** A two-digit year, a leading space and a trailing space are rejected. */
  lemma MalformedDatesRejected()
    ensures ParseDate("2/9/20") == None
    ensures ParseDate(" 2/9/2020") == None
    ensures ParseDate("2/9/2020 ") == None
  {
  }

  /** 29 February exists in the leap year 2020. */
  lemma LeapDayAccepted()
    ensures ParseDate("2" + "/" + "29" + "/" + "2020") == Some(Date(2020, 1, 29))
  {
    FourDigitsValue("2020");
    TwoDigitsValue("29");
    ParseDateFields("2", "29", "2020");
  }

  /** Leading zeros in the month and the day are accepted. */
  lemma LeadingZerosAccepted()
    ensures ParseDate("02" + "/" + "09" + "/" + "2020") == Some(Date(2020, 1, 9))
  {
    FourDigitsValue("2020");
    TwoDigitsValue("02");
    TwoDigitsValue("09");
    ParseDateFields("02", "09", "2020");
  }
}
