/**
 * The engine of the time-picker directive: a private working copy of the bound moment,
 * kept in sync with the text field (parser and formatter) under the validity key `time`,
 * and the list of selectable time slots built at a fixed minute interval.
 */
module TimePicker {
  import opened Wrappers
  import opened Moments
  import opened TimeFormat

  /** What ngModel holds: nothing (a falsy value), some value that is not a moment, or a moment. */
  datatype ModelValue = NoValue | NonMoment | AMoment(m: Moment)

  /** One entry of scope.times. */
  datatype Slot = Slot(hours: int, minutes: int, display: string)

  /** The interval used when the picker-interval attribute is absent. */
  const DefaultInterval := 60

  /**
   * The picker-interval attribute as createTimes reads it: absent (or empty), a number
   * parseInt reads, or text parseInt cannot read (NaN).
   */
  datatype IntervalAttribute = Absent | Number(value: int) | NotANumber

  /**
   * The interval createTimes steps by. With NaN the first step makes the minute NaN and
   * `k < 60` fails, so every hour gets its :00 slot only, which is what an hour's step
   * gives; the model therefore reads NaN as an hour.
   */
  function IntervalOf(attribute: IntervalAttribute): (r: int)
    requires attribute.Number? ==> attribute.value >= 1
    ensures r >= 1
    ensures attribute.Number? ==> r == attribute.value
    ensures !attribute.Number? ==> r == DefaultInterval
  {
    if attribute.Number? then attribute.value else DefaultInterval
  }

  /** Minutes since midnight: the order in which times of day are listed. */
  function MinuteOfDay(t: ClockTime): int {
    t.hours * 60 + t.minutes
  }

  /** A time of day a slot can hold. */
  predicate InDay(t: ClockTime) {
    0 <= t.hours < 24 && 0 <= t.minutes < 60
  }

  /** How many times the minute loop runs in one hour: ceil(60 / I), the smallest count whose steps reach 60. */
  function SlotsPerHour(interval: int): (r: int)
    requires interval >= 1
    ensures r >= 1 && (r - 1) * interval < 60 <= r * interval
  {
    var r := (59 + interval) / interval;
    assert 59 + interval == r * interval + (59 + interval) % interval;
    assert (r - 1) * interval == r * interval - interval;
    r
  }

  /** The times the inner loop of createTimes visits in hour h from minute k: k, k + I, ... while below 60. */
  function HourTimes(interval: int, h: int, k: int): (r: seq<ClockTime>)
    requires interval >= 1 && k >= 0
    ensures forall t :: t in r ==> t.hours == h && k <= t.minutes < 60
    decreases 60 - k
  {
    if k >= 60 then [] else [ClockTime(h, k)] + HourTimes(interval, h, k + interval)
  }

  /** The times of the first n hours, hour by hour, each hour's minutes starting again at 0. */
  function TimesUpTo(interval: int, n: int): (r: seq<ClockTime>)
    requires interval >= 1 && 0 <= n <= 24
    ensures forall t :: t in r ==> InDay(t) && t.hours < n
  {
    if n == 0 then [] else TimesUpTo(interval, n - 1) + HourTimes(interval, n - 1, 0)
  }

  /** The slots the inner loop of createTimes pushes for hour h from minute k, each shown in the default format. */
  function HourSlots(interval: int, h: int, k: int): seq<Slot>
    requires interval >= 1 && 0 <= h < 24 && k >= 0
    decreases 60 - k
  {
    if k >= 60 then [] else [Slot(h, k, FormatTime(h, k))] + HourSlots(interval, h, k + interval)
  }

  /** The slots of the first n hours, as the outer loop pushes them. */
  function SlotsUpTo(interval: int, n: int): seq<Slot>
    requires interval >= 1 && 0 <= n <= 24
  {
    if n == 0 then [] else SlotsUpTo(interval, n - 1) + HourSlots(interval, n - 1, 0)
  }

  /** scope.times after createTimes with the given interval. */
  function Times(interval: int): seq<Slot>
    requires interval >= 1
  {
    SlotsUpTo(interval, 24)
  }

  /** The time of day of each slot, display dropped. */
  function Clock(s: seq<Slot>): seq<ClockTime> {
    seq(|s|, i requires 0 <= i < |s| => ClockTime(s[i].hours, s[i].minutes))
  }

  /** Dropping the displays commutes with joining lists. */
  lemma ClockAppend(a: seq<Slot>, b: seq<Slot>)
    ensures Clock(a + b) == Clock(a) + Clock(b)
  {
    var l, r := Clock(a + b), Clock(a) + Clock(b);
    forall i | 0 <= i < |l|
      ensures l[i] == r[i]
    {
      if i < |a| {
        assert (a + b)[i] == a[i];
      } else {
        assert (a + b)[i] == b[i - |a|];
      }
    }
  }

  /** A slot shows its own time of day in the default format. */
  predicate Shown(s: Slot) {
    0 <= s.hours < 24 && 0 <= s.minutes < 60 && s.display == FormatTime(s.hours, s.minutes)
  }

  /** The inner loop pushes one slot for each time it visits, in the same order. */
  lemma {:induction false} HourSlotsClock(interval: int, h: int, k: int)
    requires interval >= 1 && 0 <= h < 24 && k >= 0
    ensures Clock(HourSlots(interval, h, k)) == HourTimes(interval, h, k)
    decreases 60 - k
  {
    if k < 60 {
      var slot, rest := Slot(h, k, FormatTime(h, k)), HourSlots(interval, h, k + interval);
      HourSlotsClock(interval, h, k + interval);
      ClockAppend([slot], rest);
      assert Clock([slot]) == [ClockTime(h, k)];
    }
  }

  /** Every slot the inner loop pushes shows its own time. */
  lemma {:induction false} HourSlotsShown(interval: int, h: int, k: int)
    requires interval >= 1 && 0 <= h < 24 && k >= 0
    ensures forall s :: s in HourSlots(interval, h, k) ==> Shown(s)
    decreases 60 - k
  {
    if k < 60 {
      HourSlotsShown(interval, h, k + interval);
    }
  }

  /** The first n hours push one slot for each of their times, each showing its own time. */
  lemma {:induction false} SlotsUpToClock(interval: int, n: int)
    requires interval >= 1 && 0 <= n <= 24
    ensures Clock(SlotsUpTo(interval, n)) == TimesUpTo(interval, n)
    ensures forall s :: s in SlotsUpTo(interval, n) ==> Shown(s)
  {
    if n > 0 {
      SlotsUpToClock(interval, n - 1);
      HourSlotsClock(interval, n - 1, 0);
      HourSlotsShown(interval, n - 1, 0);
      ClockAppend(SlotsUpTo(interval, n - 1), HourSlots(interval, n - 1, 0));
    }
  }

  lemma MulMonotone(a: int, b: int, d: int)
    requires a <= b && d >= 0
    ensures a * d <= b * d
  {
    assert b * d - a * d == (b - a) * d;
  }

  /** Quotient and remainder are determined by any decomposition with the remainder in range. */
  lemma DivModUnique(x: int, d: int, q: int, r: int)
    requires d >= 1 && x == q * d + r && 0 <= r < d
    ensures x / d == q && x % d == r
  {
    var q0, r0 := x / d, x % d;
    assert x == q0 * d + r0;
    assert (q0 + 1) * d == q0 * d + d && (q + 1) * d == q * d + d;
    if q0 < q {
      MulMonotone(q0 + 1, q, d);
    } else if q < q0 {
      MulMonotone(q + 1, q0, d);
    }
  }

  /** Stepping by the interval keeps the remainder. */
  lemma RemainderStep(interval: int, k: int)
    requires interval >= 1
    ensures (k + interval) % interval == k % interval
  {
    var q := k / interval;
    assert (q + 1) * interval == q * interval + interval;
    DivModUnique(k + interval, interval, q + 1, k % interval);
  }

  /** Two minutes with the same remainder are at least one interval apart. */
  lemma SameRemainderGap(interval: int, k: int, m: int)
    requires interval >= 1 && k < m && m % interval == k % interval
    ensures k + interval <= m
  {
    var qk, qm := k / interval, m / interval;
    assert m - k == qm * interval - qk * interval;
    if qm <= qk {
      MulMonotone(qm, qk, interval);
    } else {
      MulMonotone(qk + 1, qm, interval);
      assert (qk + 1) * interval == qk * interval + interval;
    }
  }

  /** From minute k the inner loop runs c times, the least c whose steps reach 60. */
  lemma {:induction false} HourLength(interval: int, h: int, k: int)
    requires interval >= 1 && 0 <= k < 60
    ensures var c := |HourTimes(interval, h, k)|;
            c >= 1 && k + (c - 1) * interval < 60 <= k + c * interval
    decreases 60 - k
  {
    var c := |HourTimes(interval, h, k)|;
    if k + interval < 60 {
      HourLength(interval, h, k + interval);
      var c' := |HourTimes(interval, h, k + interval)|;
      assert c == c' + 1;
      assert c * interval == c' * interval + interval;
    }
  }

  /** ceil(60 / I) is the only count whose steps from 0 just reach 60. */
  lemma CeilUnique(interval: int, c: int)
    requires interval >= 1 && (c - 1) * interval < 60 <= c * interval
    ensures c == SlotsPerHour(interval)
  {
    var p := SlotsPerHour(interval);
    if c < p {
      MulMonotone(c, p - 1, interval);
    } else if c > p {
      MulMonotone(p, c - 1, interval);
    }
  }

  /** Every hour holds ceil(60 / I) times. */
  lemma HourCount(interval: int, h: int)
    requires interval >= 1
    ensures |HourTimes(interval, h, 0)| == SlotsPerHour(interval)
  {
    HourLength(interval, h, 0);
    CeilUnique(interval, |HourTimes(interval, h, 0)|);
  }

  /** The first n hours hold n * ceil(60 / I) times. */
  lemma {:induction false} TimesUpToCount(interval: int, n: int)
    requires interval >= 1 && 0 <= n <= 24
    ensures |TimesUpTo(interval, n)| == n * SlotsPerHour(interval)
  {
    if n > 0 {
      TimesUpToCount(interval, n - 1);
      HourCount(interval, n - 1);
      MulStep(n, SlotsPerHour(interval));
    }
  }

  lemma MulStep(n: int, p: int)
    ensures (n - 1) * p + p == n * p
  {
  }

  /** Strictly increasing time of day. */
  predicate Ascending(ts: seq<ClockTime>) {
    forall a, b :: 0 <= a < b < |ts| ==> MinuteOfDay(ts[a]) < MinuteOfDay(ts[b])
  }

  /** Joining two ascending lists, every time of the first before every time of the second, is ascending. */
  lemma AppendAscending(s: seq<ClockTime>, t: seq<ClockTime>, bound: int)
    requires Ascending(s) && Ascending(t)
    requires forall x :: x in s ==> MinuteOfDay(x) < bound
    requires forall y :: y in t ==> bound <= MinuteOfDay(y)
    ensures Ascending(s + t)
  {
    forall a, b | 0 <= a < b < |s + t|
      ensures MinuteOfDay((s + t)[a]) < MinuteOfDay((s + t)[b])
    {
      if b < |s| {
        assert (s + t)[a] == s[a] && (s + t)[b] == s[b];
      } else if a < |s| {
        assert (s + t)[a] in s && (s + t)[b] in t;
      } else {
        assert (s + t)[a] == t[a - |s|] && (s + t)[b] == t[b - |s|];
      }
    }
  }

  /**
   * The inner loop from minute k visits, in increasing order, exactly the minutes from k
   * below 60 that share k's remainder by the interval.
   */
  lemma {:induction false} HourTimesProperties(interval: int, h: int, k: int)
    requires interval >= 1 && k >= 0
    ensures forall t :: t in HourTimes(interval, h, k) ==> t.minutes % interval == k % interval
    ensures forall m :: k <= m < 60 && m % interval == k % interval ==> ClockTime(h, m) in HourTimes(interval, h, k)
    ensures Ascending(HourTimes(interval, h, k))
    decreases 60 - k
  {
    if k < 60 {
      var rest := HourTimes(interval, h, k + interval);
      HourTimesProperties(interval, h, k + interval);
      RemainderStep(interval, k);
      AppendAscending([ClockTime(h, k)], rest, h * 60 + k + 1);
      forall m | k < m < 60 && m % interval == k % interval
        ensures ClockTime(h, m) in rest
      {
        SameRemainderGap(interval, k, m);
      }
    }
  }

  /** The first n hours hold only times on the interval's grid. */
  lemma {:induction false} TimesUpToOnGrid(interval: int, n: int)
    requires interval >= 1 && 0 <= n <= 24
    ensures forall t :: t in TimesUpTo(interval, n) ==> t.minutes % interval == 0
  {
    if n > 0 {
      TimesUpToOnGrid(interval, n - 1);
      HourTimesProperties(interval, n - 1, 0);
    }
  }

  /** The first n hours hold every time of those hours on the interval's grid. */
  lemma {:induction false} TimesUpToComplete(interval: int, n: int)
    requires interval >= 1 && 0 <= n <= 24
    ensures forall h, m :: 0 <= h < n && 0 <= m < 60 && m % interval == 0 ==> ClockTime(h, m) in TimesUpTo(interval, n)
  {
    if n > 0 {
      TimesUpToComplete(interval, n - 1);
      HourTimesProperties(interval, n - 1, 0);
    }
  }

  /** The first n hours are listed in increasing order. */
  lemma {:induction false} TimesUpToAscending(interval: int, n: int)
    requires interval >= 1 && 0 <= n <= 24
    ensures Ascending(TimesUpTo(interval, n))
  {
    if n > 0 {
      TimesUpToAscending(interval, n - 1);
      HourTimesProperties(interval, n - 1, 0);
      AppendAscending(TimesUpTo(interval, n - 1), HourTimes(interval, n - 1, 0), (n - 1) * 60);
    }
  }

  /**
   * The first n hours list, in increasing order, exactly the times of those hours at
   * every multiple of the interval below 60.
   */
  lemma TimesUpToProperties(interval: int, n: int)
    requires interval >= 1 && 0 <= n <= 24
    ensures forall t :: t in TimesUpTo(interval, n) ==> t.minutes % interval == 0
    ensures forall h, m :: 0 <= h < n && 0 <= m < 60 && m % interval == 0 ==> ClockTime(h, m) in TimesUpTo(interval, n)
    ensures Ascending(TimesUpTo(interval, n))
  {
    TimesUpToOnGrid(interval, n);
    TimesUpToComplete(interval, n);
    TimesUpToAscending(interval, n);
  }

  /** A slot as createTimes builds it: in range, on a multiple of the interval, shown in the default format. */
  predicate WellFormedSlot(interval: int, s: Slot)
    requires interval >= 1
  {
    Shown(s) && s.minutes % interval == 0
  }

  /** Slots in strictly increasing time of day. */
  predicate Increasing(s: seq<Slot>) {
    Ascending(Clock(s))
  }

  /** In an ascending list no time comes before the first or after the last. */
  lemma AscendingEnds(ts: seq<ClockTime>, x: ClockTime)
    requires Ascending(ts) && x in ts
    ensures MinuteOfDay(ts[0]) <= MinuteOfDay(x) <= MinuteOfDay(ts[|ts| - 1])
  {
    var i :| 0 <= i < |ts| && ts[i] == x;
  }

  /** Only midnight is no later than midnight. */
  lemma MidnightEarliest(t: ClockTime)
    requires InDay(t) && MinuteOfDay(t) <= 0
    ensures t == ClockTime(0, 0)
  {
  }

  /** Only hour 23 is as late as 23:00. */
  lemma LastHour(t: ClockTime)
    requires InDay(t) && MinuteOfDay(t) >= 23 * 60
    ensures t.hours == 23
  {
  }

  /** The day's times start at midnight. */
  lemma FirstTime(interval: int)
    requires interval >= 1
    ensures var ts := TimesUpTo(interval, 24);
            |ts| > 0 && ts[0] == ClockTime(0, 0)
  {
    var ts := TimesUpTo(interval, 24);
    TimesUpToProperties(interval, 24);
    AscendingEnds(ts, ClockTime(0, 0));
    assert ts[0] in ts;
    MidnightEarliest(ts[0]);
  }

  /**
   * In an ascending list of times on the interval's grid that holds every grid minute of
   * hour 23, the last time is the last grid minute of hour 23.
   */
  lemma LastOnGrid(ts: seq<ClockTime>, interval: int)
    requires interval >= 1 && Ascending(ts)
    requires forall t :: t in ts ==> InDay(t) && t.minutes % interval == 0
    requires forall m :: 0 <= m < 60 && m % interval == 0 ==> ClockTime(23, m) in ts
    ensures |ts| > 0 && ts[|ts| - 1].hours == 23 && ts[|ts| - 1].minutes % interval == 0
    ensures ts[|ts| - 1].minutes < 60 <= ts[|ts| - 1].minutes + interval
  {
    DivModUnique(0, interval, 0, 0);
    AscendingEnds(ts, ClockTime(23, 0));
    var last := ts[|ts| - 1];
    assert last in ts;
    LastHour(last);
    if last.minutes + interval < 60 {
      RemainderStep(interval, last.minutes);
      AscendingEnds(ts, ClockTime(23, last.minutes + interval));
      assert false;
    }
  }

  /** The day's times end in hour 23 at the last multiple of the interval below 60. */
  lemma LastTime(interval: int)
    requires interval >= 1
    ensures var ts := TimesUpTo(interval, 24);
            |ts| > 0 && ts[|ts| - 1].hours == 23 && ts[|ts| - 1].minutes % interval == 0
            && ts[|ts| - 1].minutes < 60 <= ts[|ts| - 1].minutes + interval
  {
    TimesUpToProperties(interval, 24);
    LastOnGrid(TimesUpTo(interval, 24), interval);
  }

  /** createTimes lists 24 * ceil(60 / I) slots. */
  lemma TimesCount(interval: int)
    requires interval >= 1
    ensures |Times(interval)| == 24 * SlotsPerHour(interval)
  {
    TimesUpToCount(interval, 24);
    SlotsUpToClock(interval, 24);
  }

  /** Every slot createTimes lists is well formed. */
  lemma TimesWellFormed(interval: int)
    requires interval >= 1
    ensures forall s :: s in Times(interval) ==> WellFormedSlot(interval, s)
  {
    var slots, ts := Times(interval), TimesUpTo(interval, 24);
    TimesUpToProperties(interval, 24);
    SlotsUpToClock(interval, 24);
    forall s | s in slots
      ensures s.minutes % interval == 0
    {
      var i :| 0 <= i < |slots| && slots[i] == s;
      assert Clock(slots)[i] == ts[i] && ts[i] in ts;
    }
  }

  /** Every hour at every multiple of the interval below 60 has its slot listed. */
  lemma TimesComplete(interval: int)
    requires interval >= 1
    ensures forall h, m :: 0 <= h < 24 && 0 <= m < 60 && m % interval == 0 ==>
              Slot(h, m, FormatTime(h, m)) in Times(interval)
  {
    var slots, ts := Times(interval), TimesUpTo(interval, 24);
    TimesUpToProperties(interval, 24);
    SlotsUpToClock(interval, 24);
    forall h, m | 0 <= h < 24 && 0 <= m < 60 && m % interval == 0
      ensures Slot(h, m, FormatTime(h, m)) in slots
    {
      var i :| 0 <= i < |ts| && ts[i] == ClockTime(h, m);
      assert slots[i] in slots;
    }
  }

  /** createTimes lists its slots in strictly increasing time of day. */
  lemma TimesIncreasing(interval: int)
    requires interval >= 1
    ensures Increasing(Times(interval))
  {
    TimesUpToAscending(interval, 24);
    SlotsUpToClock(interval, 24);
  }

  /**
   * createTimes lists exactly the slots of every hour at every multiple of the interval
   * below 60, each shown in the default format, strictly increasing; that is 24 * ceil(60 / I) slots.
   */
  lemma TimesProperties(interval: int)
    requires interval >= 1
    ensures |Times(interval)| == 24 * SlotsPerHour(interval)
    ensures forall s :: s in Times(interval) ==> WellFormedSlot(interval, s)
    ensures forall h, m :: 0 <= h < 24 && 0 <= m < 60 && m % interval == 0 ==>
              Slot(h, m, FormatTime(h, m)) in Times(interval)
    ensures Increasing(Times(interval))
  {
    TimesCount(interval);
    TimesWellFormed(interval);
    TimesComplete(interval);
    TimesIncreasing(interval);
  }

  /** The list starts with "12:00 am" at midnight and ends in hour 23 at the last multiple of the interval below 60. */
  lemma FirstAndLastSlot(interval: int)
    requires interval >= 1
    ensures |Times(interval)| >= 24
    ensures Times(interval)[0] == Slot(0, 0, FormatTime(0, 0))
    ensures var last := Times(interval)[|Times(interval)| - 1];
            last.hours == 23 && last.minutes % interval == 0 && last.minutes < 60 <= last.minutes + interval
  {
    var slots, ts := Times(interval), TimesUpTo(interval, 24);
    FirstTime(interval);
    LastTime(interval);
    SlotsUpToClock(interval, 24);
    TimesCount(interval);
    MulMonotone(1, SlotsPerHour(interval), 24);
    assert Clock(slots)[0] == ts[0];
    assert Clock(slots)[|slots| - 1] == ts[|ts| - 1];
    assert slots[0] in slots;
  }

  /** An interval of an hour or more, the default included, gives 24 slots, one on each hour. */
  lemma OneSlotAnHour(interval: int)
    requires interval >= DefaultInterval
    ensures |Times(interval)| == 24
    ensures forall s :: s in Times(interval) ==> s.minutes == 0
  {
    TimesProperties(interval);
    DivModUnique(59 + interval, interval, 1, 59);
    forall s | s in Times(interval)
      ensures s.minutes == 0
    {
      DivModUnique(s.minutes, interval, 0, s.minutes);
    }
  }

  /**
   * An interval from half an hour up to an hour gives 48 slots, on the hour and I minutes
   * past it: 40 minutes gives :00 and :40 every hour, as the minute step restarts at 0.
   */
  lemma TwoSlotsAnHour(interval: int)
    requires 30 <= interval < 60
    ensures |Times(interval)| == 48
    ensures forall s :: s in Times(interval) ==> s.minutes == 0 || s.minutes == interval
  {
    TimesCount(interval);
    DivModUnique(59 + interval, interval, 2, 59 - interval);
    TimesWellFormed(interval);
    forall s | s in Times(interval)
      ensures s.minutes == 0 || s.minutes == interval
    {
      GridOfTwo(interval, s.minutes);
    }
  }

  /** Below 60, only 0 and I itself are multiples of an interval from 30 up to 60. */
  lemma GridOfTwo(interval: int, m: int)
    requires 30 <= interval < 60 && 0 <= m < 60 && m % interval == 0
    ensures m == 0 || m == interval
  {
    if m < interval {
      DivModUnique(m, interval, 0, m);
    } else {
      DivModUnique(m, interval, 1, m - interval);
    }
  }

  /** With such an interval the list runs from "12:00 am" to minute I of hour 23; for 30, to "11:30 pm". */
  lemma TwoSlotsAnHourEnds(interval: int)
    requires 30 <= interval < 60
    ensures |Times(interval)| == 48
    ensures Times(interval)[0].display == "12:00 am"
    ensures Times(interval)[47] == Slot(23, interval, FormatTime(23, interval))
  {
    TwoSlotsAnHour(interval);
    FirstAndLastSlot(interval);
    var last := Times(interval)[47];
    GridOfTwo(interval, last.minutes);
    assert last in Times(interval);
    TimesWellFormed(interval);
    MidnightShown();
  }

  /** An attribute parseInt cannot read gives each hour its :00 slot and no other, as the source's NaN step does. */
  lemma UnreadableIntervalGivesHourlySlots(h: int)
    requires 0 <= h < 24
    ensures HourSlots(IntervalOf(NotANumber), h, 0) == [Slot(h, 0, FormatTime(h, 0))]
  {
    assert HourSlots(DefaultInterval, h, DefaultInterval) == [];
  }

  /** The working copy after the parser: hours and minutes read, seconds cleared, when the text parses. */
  function ParsedTimeCopy(local: Moment, str: string): (r: Moment)
    ensures r != local ==> ParseTime(str).Some? && local.At?
    ensures local.At? ==> r.At? && DateOf(r) == DateOf(local) && r.millisecond == local.millisecond
  {
    match ParseTime(str)
    case None => local
    case Some(t) => SetTime(local, t.hours, t.minutes, 0)
  }

  /** The working copy after the formatter: a moment's calendar day merged in, the time of day kept. */
  function FormattedTimeCopy(local: Moment, modelValue: ModelValue): (r: Moment)
    requires modelValue.AMoment? ==> modelValue.m.At?
    ensures !modelValue.AMoment? || local.Invalid? ==> r == local
    ensures modelValue.AMoment? && local.At? ==>
              r.At? && DateOf(r) == DateOf(modelValue.m) && SecondOfDay(r) == SecondOfDay(local)
              && r.millisecond == local.millisecond
  {
    if modelValue.AMoment? then SetDate(local, DateOf(modelValue.m)) else local
  }

  /** The `time` key after the formatter: valid for an absent model or any moment. */
  function FormatValidity(modelValue: ModelValue): (r: bool)
    ensures r <==> modelValue.NoValue? || modelValue.AMoment?
  {
    !modelValue.NonMoment?
  }

  /** A failed parse leaves the copy; a successful one replaces the time of day and nothing else. */
  lemma ParsedTimeCopyChanges(local: Moment, str: string)
    ensures ParseTime(str).None? ==> ParsedTimeCopy(local, str) == local
    ensures ParseTime(str).Some? && local.At? ==>
              var r := ParsedTimeCopy(local, str);
              r.At? && DateOf(r) == DateOf(local) && r.millisecond == local.millisecond
              && r.hour == ParseTime(str).value.hours && r.minute == ParseTime(str).value.minutes && r.second == 0
  {
  }

  /** Typing back the text shown for a copy truncated to the minute leaves the copy as it is. */
  lemma {:induction false} ShownTimeReparses(local: Moment)
    requires local.At? && local.second == 0
    ensures ParsedTimeCopy(local, FormatMomentTime(local)) == local
  {
    FormatParseRoundTrip(local.hour, local.minute);
  }

  /** The formatter keeps the copy's time of day, so the text it shows reads back as that time. */
  lemma {:induction false} FormattedCopyShowsOwnTime(local: Moment, modelValue: ModelValue)
    requires local.At? && (modelValue.AMoment? ==> modelValue.m.At?)
    ensures var r := FormattedTimeCopy(local, modelValue);
            r.hour == local.hour && r.minute == local.minute && r.second == local.second
            && ParseTime(FormatMomentTime(r)) == Some(ClockTime(local.hour, local.minute))
  {
    var r := FormattedTimeCopy(local, modelValue);
    FormatParseRoundTrip(r.hour, r.minute);
  }

  /** Picking a slot and formatting the copy shows exactly the slot's own text. */
  lemma AppliedSlotShown(local: Moment, interval: int, s: Slot)
    requires local.At? && interval >= 1 && s in Times(interval)
    ensures 0 <= s.hours < 24 && 0 <= s.minutes < 60
    ensures FormatMomentTime(SetHourMinute(local, s.hours, s.minutes)) == s.display
  {
    TimesProperties(interval);
  }

  class Picker {
    /** localMoment: the private working copy. */
    var local: Moment
    /** scope.model: the value bound through ngModel. */
    var model: ModelValue
    /** The ngModel validity key `time`. */
    var timeValid: bool
    /** scope.times: the selectable slots. */
    var times: seq<Slot>

    /**
     * The first step of init(), createLocalMoment: the working copy is the bound moment, or
     * `now` (the clock reading at link time) when the model holds none, truncated to the
     * minute. init() then calls CreateTimes.
     */
    constructor (model: ModelValue, now: Moment)
      ensures this.model == model && timeValid && times == []
      ensures local == StartOfMinute(if model.AMoment? then model.m else now)
      ensures local.At? ==> local.second == 0 && local.millisecond == 0
    {
      this.model := model;
      local := StartOfMinute(if model.AMoment? then model.m else now);
      timeValid := true;
      times := [];
    }

    /** createTimes: the interval is the attribute's, or an hour when it is absent or unreadable. */
    method CreateTimes(pickerInterval: IntervalAttribute)
      requires pickerInterval.Number? ==> pickerInterval.value >= 1
      modifies this`times
      ensures times == Times(IntervalOf(pickerInterval))
    {
      var interval := if pickerInterval.Number? then pickerInterval.value else DefaultInterval;
      FillTimes(interval);
    }

    /** The two loops of createTimes: for each hour, the minutes from 0 in steps of the interval while below 60. */
    method FillTimes(interval: int)
      requires interval >= 1
      modifies this`times
      ensures times == Times(interval)
    {
      times := [];
      var i := 0;
      while i < 24
        invariant 0 <= i <= 24 && times == SlotsUpTo(interval, i)
      {
        PushHour(interval, i);
        i := i + 1;
      }
    }

    /** The inner loop of createTimes: hour h's slots pushed after the earlier hours'. */
    method PushHour(interval: int, h: int)
      requires interval >= 1 && 0 <= h < 24
      modifies this`times
      ensures times == old(times) + HourSlots(interval, h, 0)
    {
      var k := 0;
      while k < 60
        invariant 0 <= k
        invariant times + HourSlots(interval, h, k) == old(times) + HourSlots(interval, h, 0)
        decreases 60 - k
      {
        var slot := Slot(h, k, FormatTime(h, k));
        assert times + HourSlots(interval, h, k) == (times + [slot]) + HourSlots(interval, h, k + interval);
        times := times + [slot];
        k := k + interval;
      }
    }

    /** timeStringParser: the value handed to ngModel is the working copy. */
    method ParseView(str: string) returns (r: Moment)
      modifies this`local, this`timeValid
      ensures local == ParsedTimeCopy(old(local), str) && r == local
      ensures timeValid <==> str == [] || ParseTime(str).Some?
    {
      var parsed := ParseTime(str);
      timeValid := str == [] || parsed.Some?;
      if parsed.Some? {
        local := SetTime(local, parsed.value.hours, parsed.value.minutes, 0);
      }
      r := local;
    }

    /** timeMomentFormatter: the text shown for a model value. */
    method FormatModel(modelValue: ModelValue) returns (s: string)
      requires modelValue.AMoment? ==> modelValue.m.At?
      modifies this`local, this`timeValid
      ensures local == FormattedTimeCopy(old(local), modelValue)
      ensures timeValid == FormatValidity(modelValue)
      ensures s == FormatMomentTime(local)
    {
      var isValid := modelValue.AMoment?;
      timeValid := modelValue.NoValue? || isValid;
      if isValid {
        local := SetDate(local, DateOf(modelValue.m));
      }
      s := FormatMomentTime(local);
    }

    /** scope.applyTime: the slot's hour and minute go into the working copy, which becomes the model. */
    method ApplyTime(time: Slot)
      requires 0 <= time.hours < 24 && 0 <= time.minutes < 60
      modifies this`local, this`model
      ensures local == SetHourMinute(old(local), time.hours, time.minutes)
      ensures model == AMoment(local)
    {
      local := SetHourMinute(local, time.hours, time.minutes);
      model := AMoment(local);
    }
  }
}
