/**
 * The time picker's default format 'h:mm a' as moment renders it and as moment's strict
 * parser (English locale) reads it: h is one or two digits from 1 to 12, mm exactly two
 * digits, then one space and a meridiem matching /[ap]\.?m?\.?/i, nothing after it.
 */
module TimeFormat {
  import opened Wrappers
  import opened Text
  import opened Moments

  /** A time of day read from text: 24-hour hours and minutes. */
  datatype ClockTime = ClockTime(hours: int, minutes: int)

  /** The h token: hours % 12, with 0 shown as 12. */
  function Hour12(hour: int): (h: int)
    requires 0 <= hour < 24
    ensures 1 <= h <= 12 && h % 12 == hour % 12
  {
    if hour % 12 == 0 then 12 else hour % 12
  }

  /** The a token of the English locale: lower-case meridiem, "pm" from noon on. */
  function Meridiem(hour: int): string {
    if hour > 11 then "pm" else "am"
  }

  /** format('h:mm a') of a time of day. */
  function FormatTime(hour: int, minute: int): (s: string)
    requires 0 <= hour < 24 && 0 <= minute < 60
  {
    NatToString(Hour12(hour)) + ":" + ZeroFill(minute, 2) + " " + Meridiem(hour)
  }

  /**
   * localMoment.format('h:mm a'), "Invalid date" for an invalid moment: the text shown
   * parses exactly when the moment is valid, and then to its hour and minute.
   */
  function FormatMomentTime(m: Moment): (s: string)
    ensures ParseTime(s).Some? <==> m.At?
    ensures m.At? ==> ParseTime(s) == Some(ClockTime(m.hour, m.minute))
  {
    if m.Invalid? then
      assert DigitRun(InvalidDateText, 0, 2) == 0;
      InvalidDateText
    else
      FormatParseRoundTrip(m.hour, m.minute);
      FormatTime(m.hour, m.minute)
  }

  /** The rest of the input is one greedy match of /[ap]\.?m?\.?/i and nothing else. */
  predicate IsMeridiem(t: string)
    ensures IsMeridiem(t) ==> 1 <= |t| <= 4
  {
    && |t| >= 1 && (t[0] == 'a' || t[0] == 'A' || t[0] == 'p' || t[0] == 'P')
    && var t1 := t[1..];
       var t2 := if |t1| > 0 && t1[0] == '.' then t1[1..] else t1;
       var t3 := if |t2| > 0 && (t2[0] == 'm' || t2[0] == 'M') then t2[1..] else t2;
       var t4 := if |t3| > 0 && t3[0] == '.' then t3[1..] else t3;
       t4 == []
  }

  /** The strings /[ap]\.?m?\.?/i matches whole: a, A, p or P, then one of eleven tails. */
  lemma MeridiemForms(t: string)
    ensures IsMeridiem(t) <==>
      && |t| >= 1 && t[0] in "aApP"
      && t[1..] in {"", ".", "..", "m", "M", ".m", ".M", "m.", "M.", ".m.", ".M."}
  {
    if |t| >= 1 {
      var u := t[1..];
      if |u| == 1 { assert u == [u[0]]; }
      else if |u| == 2 { assert u == [u[0], u[1]]; }
      else if |u| == 3 { assert u == [u[0], u[1], u[2]]; }
    }
  }

  /** The locale's isPM: a meridiem is afternoon exactly when it does not start with a or A. */
  predicate IsPM(t: string)
    ensures IsMeridiem(t) ==> (IsPM(t) <==> t[0] != 'a' && t[0] != 'A')
  {
    |t| >= 1 && (t[0] == 'p' || t[0] == 'P')
  }

  /** Hours 1..12 with a meridiem to hours 0..23: 12 am is midnight, 12 pm is noon. */
  function MeridiemFix(hour: int, pm: bool): (h: int)
    requires 1 <= hour <= 12
    ensures 0 <= h < 24 && Hour12(h) == hour && (h > 11 <==> pm)
  {
    if pm && hour < 12 then hour + 12
    else if !pm && hour == 12 then 0
    else hour
  }

  /** moment(s, 'h:mm a', true): the time of day read (seconds are 0), or None when the strict parse is invalid. */
  function ParseTime(s: string): (r: Option<ClockTime>)
    ensures r.Some? ==> 0 <= r.value.hours < 24 && 0 <= r.value.minutes < 60
  {
    var a := DigitRun(s, 0, 2);
    if a == 0 || |s| < a + 5 || s[a] != ':' then None
    else if !IsDigit(s[a + 1]) || !IsDigit(s[a + 2]) || s[a + 3] != ' ' || !IsMeridiem(s[a + 4..]) then None
    else
      assert AllDigits(s[..a]) && AllDigits(s[a + 1..a + 3]);
      var hour, minute := DigitsValue(s[..a]), DigitsValue(s[a + 1..a + 3]);
      if hour < 1 || hour > 12 || minute > 59 then None
      else Some(ClockTime(MeridiemFix(hour, IsPM(s[a + 4..])), minute))
  }

  /** The time of day a strict parse reads from an hour field, a minute field and a meridiem. */
  function FieldsTime(h: string, mm: string, t: string): Option<ClockTime>
    requires AllDigits(h) && AllDigits(mm)
  {
    var hour, minute := DigitsValue(h), DigitsValue(mm);
    if !IsMeridiem(t) || hour < 1 || hour > 12 || minute > 59 then None
    else Some(ClockTime(MeridiemFix(hour, IsPM(t)), minute))
  }

  /** Where the fields and the separators of a rendered time sit. */
  lemma FieldsOfTimeText(h: string, mm: string, t: string)
    requires |mm| == 2
    ensures var s := h + ":" + mm + " " + t;
            && s[..|h|] == h && s[|h|] == ':'
            && s[|h| + 1..|h| + 3] == mm && s[|h| + 3] == ' '
            && s[|h| + 4..] == t
  {
  }

  /** The rendered meridiem is one the parser accepts, and it reads as afternoon exactly from noon on. */
  lemma MeridiemReadsBack(hour: int)
    ensures IsMeridiem(Meridiem(hour)) && (IsPM(Meridiem(hour)) <==> hour >= 12)
  {
  }

  /** MeridiemFix undoes the 12-hour rendering: the h token and the meridiem give back the hour. */
  lemma MeridiemFixInvertsHour12(hour: int)
    requires 0 <= hour < 24
    ensures MeridiemFix(Hour12(hour), hour > 11) == hour
  {
    if hour == 0 || hour == 12 {
    } else if hour < 12 {
      assert hour % 12 == hour;
    } else {
      assert hour % 12 == hour - 12;
    }
  }

  /** Once the hour's digit run, the colon, the minute digits and the space are located, the parse reads the fields. */
  lemma ParseTimeAt(s: string, n: nat)
    requires 1 <= n && n + 4 <= |s|
    requires DigitRun(s, 0, 2) == n && s[n] == ':' && IsDigit(s[n + 1]) && IsDigit(s[n + 2]) && s[n + 3] == ' '
    ensures AllDigits(s[..n]) && AllDigits(s[n + 1..n + 3])
    ensures ParseTime(s) == FieldsTime(s[..n], s[n + 1..n + 3], s[n + 4..])
  {
  }

  /**
   * Text made of a one- or two-digit hour, a colon, two minute digits, a space and the
   * rest parses exactly when the rest is a meridiem and both fields are in range.
   */
  lemma {:induction false} ParseTimeFields(h: string, mm: string, t: string)
    requires 1 <= |h| <= 2 && |mm| == 2 && AllDigits(h) && AllDigits(mm)
    ensures ParseTime(h + ":" + mm + " " + t) == FieldsTime(h, mm, t)
  {
    var s := h + ":" + mm + " " + t;
    FieldsOfTimeText(h, mm, t);
    DigitRunStopsAt(s, 0, h);
    ParseTimeAt(s, |h|);
  }

  /** Rendering a time of day and parsing it back yields that hour and minute. */
  lemma {:induction false} FormatParseRoundTrip(hour: int, minute: int)
    requires 0 <= hour < 24 && 0 <= minute < 60
    ensures ParseTime(FormatTime(hour, minute)) == Some(ClockTime(hour, minute))
  {
    NatToStringLength(Hour12(hour), 2);
    var a := Meridiem(hour);
    MeridiemReadsBack(hour);
    MeridiemFixInvertsHour12(hour);
    ParseTimeFields(NatToString(Hour12(hour)), ZeroFill(minute, 2), a);
  }

  /**
   * The strict parse accepts nothing but the h:mm a shape: text it reads is a one- or
   * two-digit hour, a colon, two minute digits, a space and a meridiem, and the time
   * read is the one those fields name.
   */
  lemma ParseTimeSound(s: string)
    ensures ParseTime(s).Some? ==>
              exists h, mm, t ::
                && 1 <= |h| <= 2 && |mm| == 2 && AllDigits(h) && AllDigits(mm) && IsMeridiem(t)
                && s == h + ":" + mm + " " + t
                && ParseTime(s) == FieldsTime(h, mm, t)
  {
    if ParseTime(s).Some? {
      var a := DigitRun(s, 0, 2);
      ParseTimeAt(s, a);
      var h, mm, t := s[..a], s[a + 1..a + 3], s[a + 4..];
      assert s == h + ":" + mm + " " + t;
    }
  }

  /** The text is 7 or 8 characters long and ends in "am" before noon, in "pm" from noon on. */
  lemma FormatTimeShape(hour: int, minute: int)
    requires 0 <= hour < 24 && 0 <= minute < 60
    ensures var s := FormatTime(hour, minute);
            7 <= |s| <= 8 && s[|s| - 2..] == (if hour < 12 then "am" else "pm")
  {
    NatToStringLength(Hour12(hour), 2);
    var s := FormatTime(hour, minute);
    var prefix := NatToString(Hour12(hour)) + ":" + ZeroFill(minute, 2) + " ";
    assert s == prefix + Meridiem(hour);
    assert s[|s| - 2..] == Meridiem(hour);
  }

  /** Midnight is shown as 12 am. */
  lemma MidnightShown()
    ensures FormatTime(0, 0) == "12:00 am"
  {
    assert NatToString(12) == "12";
    assert ZeroFill(0, 2) == "00";
  }

  /** Noon is shown as 12 pm. */
  lemma NoonShown()
    ensures FormatTime(12, 0) == "12:00 pm"
  {
    assert NatToString(12) == "12";
    assert ZeroFill(0, 2) == "00";
  }

  /** The last half-hour slot of the day. */
  lemma LastHalfHourShown()
    ensures FormatTime(23, 30) == "11:30 pm"
  {
    assert NatToString(11) == "11";
    assert NatToString(30) == "30";
    assert ZeroFill(30, 2) == "30";
  }

  /** Meridiem spellings moment's English locale accepts: "P.M." is afternoon. */
  lemma AfternoonWithDots()
    ensures ParseTime("1" + ":" + "30" + " " + "P.M.") == Some(ClockTime(13, 30))
  {
    TwoDigitsValue("30");
    assert IsMeridiem("P.M.") && IsPM("P.M.");
    ParseTimeFields("1", "30", "P.M.");
  }

  /** A bare "a" is a meridiem, and 12 am is midnight. */
  lemma BareMeridiemLetter()
    ensures ParseTime("12" + ":" + "05" + " " + "a") == Some(ClockTime(0, 5))
  {
    TwoDigitsValue("12");
    TwoDigitsValue("05");
    assert IsMeridiem("a") && !IsPM("a");
    ParseTimeFields("12", "05", "a");
  }

  /** Hour 0 is rejected. */
  lemma HourZeroRejected()
    ensures ParseTime("0" + ":" + "30" + " " + "am") == None
  {
    TwoDigitsValue("30");
    ParseTimeFields("0", "30", "am");
  }

  /** A 24-hour hour is rejected even with a meridiem. */
  lemma HourThirteenRejected()
    ensures ParseTime("13" + ":" + "00" + " " + "pm") == None
  {
    TwoDigitsValue("13");
    TwoDigitsValue("00");
    ParseTimeFields("13", "00", "pm");
  }

  /** A one-digit minute and trailing text after the meridiem are rejected. */
  lemma MalformedTimesRejected()
    ensures ParseTime("1:3 pm") == None
    ensures ParseTime("1" + ":" + "30" + " " + "pmx") == None
  {
    assert !IsMeridiem("pmx");
    ParseTimeFields("1", "30", "pmx");
  }
}
