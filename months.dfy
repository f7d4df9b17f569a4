/**
 * Month and hour arithmetic of the pipeline.
 *
 * A month `YYYYMM` is encoded as the integer `year * 12 + month`, and a
 * range of such codes is decoded back into `(year, month)` pairs with a
 * floored `divmod`. Instants are whole minutes since an epoch (a calendar
 * day has 1440 of them); the pipeline steps through them an hour at a time.
 */
module Months {
  import opened Wrappers
  import opened Text

  const MinutesPerHour: int := 60
  const MinutesPerDay: int := 1440

  /** Python's `s[:n]`. */
  function Take(s: string, n: nat): string { if |s| <= n then s else s[..n] }

  /** Python's `s[n:]`. */
  function Drop(s: string, n: nat): string { if |s| <= n then "" else s[n..] }

  /**
   * `to_month`: the year is `int` of the first four characters and the month
   * `int` of the rest; `None` is the ValueError `int` raises on anything
   * that is not a signed decimal number.
   */
  function ToMonth(yyyymm: string): (r: Option<int>)
    ensures |yyyymm| <= 4 ==> r == None
    ensures |yyyymm| > 4 && AllDigits(yyyymm) ==>
              r == Some(DigitsValue(yyyymm[..4]) * 12 + DigitsValue(yyyymm[4..]))
  {
    match (ParseInt(Take(yyyymm, 4)), ParseInt(Drop(yyyymm, 4)))
    case (Some(year), Some(month)) => Some(year * 12 + month)
    case _ => None
  }

  /**
   * The `(year, month)` pair of a month code: `divmod(k - 1, 12)` with one
   * added to the month. It is the one pair with a month in 1..12 that
   * encodes back to `k`.
   */
  function MonthOf(k: int): (ym: (int, int))
    ensures 1 <= ym.1 <= 12 && ym.0 * 12 + ym.1 == k
  {
    ((k - 1) / 12, (k - 1) % 12 + 1)
  }

  /** The calendar month that follows `(y, m)`. */
  function NextMonth(ym: (int, int)): (int, int)
  {
    if ym.1 == 12 then (ym.0 + 1, 1) else (ym.0, ym.1 + 1)
  }

  /** The pairs for the codes `lo`, `lo + 1`, ..., `hi` (Python's `range(lo, hi + 1)`). */
  function MonthRange(lo: int, hi: int): (r: seq<(int, int)>)
    ensures |r| == if lo <= hi then hi - lo + 1 else 0
    ensures forall i :: 0 <= i < |r| ==> 1 <= r[i].1 <= 12 && r[i].0 * 12 + r[i].1 == lo + i
  {
    if lo > hi then []
    else
      var r := seq(hi - lo + 1, i => MonthOf(lo + i));
      assert forall i :: 0 <= i < |r| ==> r[i] == MonthOf(lo + i);
      r
  }

  /**
   * `iter_months(start, end)` drained into a list: one pair per month from
   * `start` to `end`, both included; `None` when either label makes
   * `to_month` raise.
   */
  function IterMonths(start: string, end: string): (r: Option<seq<(int, int)>>)
    ensures r.Some? <==> ToMonth(start).Some? && ToMonth(end).Some?
    ensures r.Some? ==>
              var lo, hi := ToMonth(start).value, ToMonth(end).value;
              && |r.value| == (if lo <= hi then hi - lo + 1 else 0)
              && forall i :: 0 <= i < |r.value| ==>
                   1 <= r.value[i].1 <= 12 && r.value[i].0 * 12 + r.value[i].1 == lo + i
  {
    match (ToMonth(start), ToMonth(end))
    case (Some(lo), Some(hi)) => Some(MonthRange(lo, hi))
    case _ => None
  }

  /** Decoding a code and encoding it again is the identity on valid pairs. */
  lemma MonthOfMonthCode(y: int, m: int)
    requires 1 <= m <= 12
    ensures MonthOf(y * 12 + m) == (y, m)
  {
    var k := y * 12 + m;
    assert (k - 1) == y * 12 + (m - 1);
    assert (k - 1) / 12 == y && (k - 1) % 12 == m - 1;
  }

  /** The code after `k` is the calendar month after `k`'s month. */
  lemma MonthOfSucc(k: int)
    ensures MonthOf(k + 1) == NextMonth(MonthOf(k))
  {
    var (y, m) := MonthOf(k);
    if m == 12 {
      MonthOfMonthCode(y + 1, 1);
      assert k + 1 == (y + 1) * 12 + 1;
    } else {
      MonthOfMonthCode(y, m + 1);
      assert k + 1 == y * 12 + (m + 1);
    }
  }

  lemma MonthRangeAt(lo: int, hi: int, i: nat)
    requires i < |MonthRange(lo, hi)|
    ensures MonthRange(lo, hi)[i] == MonthOf(lo + i)
  {
  }

  lemma IterMonthsIsRange(start: string, end: string, lo: int, hi: int)
    requires ToMonth(start) == Some(lo) && ToMonth(end) == Some(hi)
    ensures IterMonths(start, end) == Some(MonthRange(lo, hi))
  {
  }

  /** A non-empty range starts at `lo`'s month and ends at `hi`'s. */
  lemma MonthRangeEnds(lo: int, hi: int)
    requires lo <= hi
    ensures var r := MonthRange(lo, hi);
            |r| > 0 && r[0] == MonthOf(lo) && r[|r| - 1] == MonthOf(hi)
  {
    MonthRangeAt(lo, hi, 0);
    MonthRangeAt(lo, hi, hi - lo);
  }

  lemma MonthRangeEndsAre(y0: int, m0: int, y1: int, m1: int)
    requires 1 <= m0 <= 12 && 1 <= m1 <= 12 && y0 * 12 + m0 <= y1 * 12 + m1
    ensures var r := MonthRange(y0 * 12 + m0, y1 * 12 + m1);
            |r| > 0 && r[0] == (y0, m0) && r[|r| - 1] == (y1, m1)
  {
    MonthRangeEnds(y0 * 12 + m0, y1 * 12 + m1);
    MonthOfMonthCode(y0, m0);
    MonthOfMonthCode(y1, m1);
  }

  /** Successive pairs of `iter_months` are successive calendar months. */
  lemma IterMonthsConsecutive(start: string, end: string, i: nat)
    requires IterMonths(start, end).Some?
    requires i + 1 < |IterMonths(start, end).value|
    ensures IterMonths(start, end).value[i + 1] == NextMonth(IterMonths(start, end).value[i])
  {
    var lo, hi := ToMonth(start).value, ToMonth(end).value;
    IterMonthsIsRange(start, end, lo, hi);
    MonthRangeAt(lo, hi, i);
    MonthRangeAt(lo, hi, i + 1);
    MonthOfSucc(lo + i);
  }

  /**
   * The first pair is the start month and the last the end month (when
   * both are given with a month in 1..12), so the range includes both ends.
   */
  lemma IterMonthsInclusive(start: string, end: string, y0: int, m0: int, y1: int, m1: int)
    requires 1 <= m0 <= 12 && 1 <= m1 <= 12
    requires ToMonth(start) == Some(y0 * 12 + m0) && ToMonth(end) == Some(y1 * 12 + m1)
    requires y0 * 12 + m0 <= y1 * 12 + m1
    ensures IterMonths(start, end).Some?
    ensures var r := IterMonths(start, end).value;
            |r| > 0 && r[0] == (y0, m0) && r[|r| - 1] == (y1, m1)
  {
    IterMonthsIsRange(start, end, y0 * 12 + m0, y1 * 12 + m1);
    MonthRangeEndsAre(y0, m0, y1, m1);
  }

  /** `to_month('201904') == 24232`. */
  lemma ToMonthExample()
    ensures ToMonth("201904") == Some(24232)
  {
    var s := "201904";
    assert AllDigits(s);
    assert s[..4] == "2019" && s[4..] == "04";
    assert DigitsValue("2019") == 2019 by {
      assert "2019"[..3] == "201" && "201"[..2] == "20" && "20"[..1] == "2";
    }
    assert DigitsValue("04") == 4 by {
      assert "04"[..1] == "0";
    }
  }

  lemma ExampleMonthCodes()
    ensures ToMonth("201902") == Some(24230) && ToMonth("202003") == Some(24243)
  {
    var a, b := "201902", "202003";
    assert AllDigits(a) && AllDigits(b);
    assert a[..4] == "2019" && a[4..] == "02" && b[..4] == "2020" && b[4..] == "03";
    assert DigitsValue("2019") == 2019 by {
      assert "2019"[..3] == "201" && "201"[..2] == "20" && "20"[..1] == "2";
    }
    assert DigitsValue("2020") == 2020 by {
      assert "2020"[..3] == "202" && "202"[..2] == "20" && "20"[..1] == "2";
    }
    assert DigitsValue("02") == 2 by { assert "02"[..1] == "0"; }
    assert DigitsValue("03") == 3 by { assert "03"[..1] == "0"; }
  }

  /** The codes 24230..24243 are February 2019 to March 2020. */
  lemma MonthRangeExample()
    ensures MonthRange(24230, 24243) == [
      (2019, 2), (2019, 3), (2019, 4), (2019, 5), (2019, 6), (2019, 7), (2019, 8),
      (2019, 9), (2019, 10), (2019, 11), (2019, 12), (2020, 1), (2020, 2), (2020, 3)]
  {
    var r := MonthRange(24230, 24243);
    forall i | 0 <= i < 11
      ensures r[i] == (2019, i + 2)
    {
      MonthRangeAt(24230, 24243, i);
      MonthOfMonthCode(2019, i + 2);
    }
    forall i | 11 <= i < 14
      ensures r[i] == (2020, i - 10)
    {
      MonthRangeAt(24230, 24243, i);
      MonthOfMonthCode(2020, i - 10);
    }
  }

  /** `iter_months('201902', '202003')` crosses the turn of the year in 14 steps. */
  lemma IterMonthsExample()
    ensures IterMonths("201902", "202003") == Some([
      (2019, 2), (2019, 3), (2019, 4), (2019, 5), (2019, 6), (2019, 7), (2019, 8),
      (2019, 9), (2019, 10), (2019, 11), (2019, 12), (2020, 1), (2020, 2), (2020, 3)])
  {
    ExampleMonthCodes();
    MonthRangeExample();
  }

  /**
   * The hourly instants `start`, `start + 1h`, ... that lie before `end`:
   * every listed instant is before `end` and the next one would not be.
   */
  function HourlyTimes(start: int, end: int): (r: seq<int>)
    ensures forall i :: 0 <= i < |r| ==> r[i] == start + MinutesPerHour * i && r[i] < end
    ensures start + MinutesPerHour * |r| >= end
    decreases end - start
  {
    if start >= end then [] else [start] + HourlyTimes(start + MinutesPerHour, end)
  }

  /**
   * `date_range_hours`: walks `start` forward one hour at a time and lists
   * every instant visited before reaching `end`.
   */
  method DateRangeHours(start: int, end: int) returns (hours: seq<int>)
    ensures hours == HourlyTimes(start, end)
  {
    hours := [];
    var t := start;
    while t < end
      invariant t == start + MinutesPerHour * |hours|
      invariant forall i :: 0 <= i < |hours| ==> hours[i] == start + MinutesPerHour * i && hours[i] < end
      decreases end - t
    {
      hours := hours + [t];
      t := t + MinutesPerHour;
    }
    HourlyTimesUnique(start, end, hours);
  }

  /** The two properties of `HourlyTimes` pin it down. */
  lemma HourlyTimesUnique(start: int, end: int, hours: seq<int>)
    requires forall i :: 0 <= i < |hours| ==> hours[i] == start + MinutesPerHour * i && hours[i] < end
    requires start + MinutesPerHour * |hours| >= end
    ensures hours == HourlyTimes(start, end)
  {
    var r := HourlyTimes(start, end);
    HourStepsCount(start, end, hours);
    HourStepsCount(start, end, r);
  }

  /** Any run of hourly steps from `start` that stops at `end` has ceil((end - start) / 1h) steps. */
  lemma HourStepsCount(start: int, end: int, hours: seq<int>)
    requires forall i :: 0 <= i < |hours| ==> hours[i] == start + MinutesPerHour * i && hours[i] < end
    requires start + MinutesPerHour * |hours| >= end
    ensures |hours| == if start < end then (end - start + MinutesPerHour - 1) / MinutesPerHour else 0
  {
    var n := |hours|;
    if n > 0 {
      assert hours[n - 1] == start + MinutesPerHour * (n - 1);
    }
  }

  /** There are ceil((end - start) / 1h) instants, none when `start >= end`. */
  lemma HourlyTimesCount(start: int, end: int)
    ensures |HourlyTimes(start, end)| ==
              if start < end then (end - start + MinutesPerHour - 1) / MinutesPerHour else 0
  {
    HourStepsCount(start, end, HourlyTimes(start, end));
  }

  /**
   * From midnight of `day` to `n` hours later (`n` at most a day) come the
   * `n` instants 00:00, 01:00, ... of that day; a whole day gives 24.
   */
  lemma HourlyTimesFromMidnight(day: int, n: int)
    requires 0 <= n <= 24
    ensures var r := HourlyTimes(Stamp(day, 0), Stamp(day, n));
            |r| == n && forall i :: 0 <= i < n ==> DayOf(r[i]) == day && HourOf(r[i]) == i
  {
    HourlyTimesCount(Stamp(day, 0), Stamp(day, n));
    var r := HourlyTimes(Stamp(day, 0), Stamp(day, n));
    forall i | 0 <= i < n
      ensures DayOf(r[i]) == day && HourOf(r[i]) == i
    {
      assert r[i] == Stamp(day, i);
      StampSplit(day, i);
    }
  }

  /** The calendar day of an instant (pandas `.dt.date`). */
  function DayOf(t: int): int { t / MinutesPerDay }

  /** The hour of the day of an instant (pandas `.dt.hour`). */
  function HourOf(t: int): (h: int)
    ensures 0 <= h < 24
  {
    (t % MinutesPerDay) / MinutesPerHour
  }

  /** `date + hour` hours: the instant an hour of a day starts at. */
  function Stamp(day: int, hour: int): int { day * MinutesPerDay + hour * MinutesPerHour }

  /** Splitting an instant stamped from a day and an hour of it gives them back. */
  lemma StampSplit(day: int, hour: int)
    requires 0 <= hour < 24
    ensures DayOf(Stamp(day, hour)) == day && HourOf(Stamp(day, hour)) == hour
  {
    var t := Stamp(day, hour);
    assert t == day * MinutesPerDay + hour * MinutesPerHour;
    assert 0 <= hour * MinutesPerHour < MinutesPerDay;
  }
}
