/**
 * The planning and aggregation parts of the trip downloaders
 * (`download_trips_data` in two versions, and the oldest one in the
 * all-in-one script).
 *
 * A month range becomes `YYYYMM` labels; each label becomes a download pair
 * (zip path, URL) and a processing pair (zip path, csv path), with the
 * archive name suffix chosen by label. Each downloaded month of trips is
 * reduced to hourly inflow and outflow counts per station, joined on
 * (station, date, hour).
 */
module TripDownload {
  import opened Wrappers
  import opened Text
  import Months

  // ---------------------------------------------------------------------------
  // Month labels

  /** `f'{y}0{m}'` when `m % 13 < 10`, `f'{y}{m}'` otherwise. */
  function MonthLabel(ym: (int, int)): string
  {
    var (y, m) := ym;
    if m % 13 < 10 then IntToString(y) + "0" + IntToString(m) else IntToString(y) + IntToString(m)
  }

  /** A month of a four-digit year, as `iter_months` yields them for real dates. */
  predicate ValidMonth(ym: (int, int))
  {
    1000 <= ym.0 <= 9999 && 1 <= ym.1 <= 12
  }

  /** A label is six digits: the year, then the month padded to two digits. */
  lemma LabelDigits(ym: (int, int))
    requires ValidMonth(ym)
    ensures var l := MonthLabel(ym);
            && |l| == 6 && AllDigits(l)
            && DigitsValue(l[..4]) == ym.0 && DigitsValue(l[4..]) == ym.1
  {
    var (y, m) := ym;
    YearDigits(y);
    var l := MonthLabel(ym);
    var t := MonthDigits(m);
    assert l == NatToString(y) + t;
    assert l[..4] == NatToString(y) && l[4..] == t;
  }

  /** A four-digit year prints as four digits. */
  lemma YearDigits(y: int)
    requires 1000 <= y <= 9999
    ensures |NatToString(y)| == 4 && DigitsValue(NatToString(y)) == y
  {
    assert Pow10(3) == 1000 && Pow10(4) == 10000;
    NatToStringLength(y, 3);
    NatToStringValue(y);
  }

  /** The month part of a label: two digits, spelling the month. */
  lemma MonthDigits(m: int) returns (t: string)
    requires 1 <= m <= 12
    ensures t == (if m % 13 < 10 then "0" + IntToString(m) else IntToString(m))
    ensures |t| == 2 && AllDigits(t) && DigitsValue(t) == m
  {
    NatToStringValue(m);
    if m < 10 {
      t := "0" + NatToString(m);
      DigitsValueAppend("0", NatToString(m));
      assert DigitsValue("0") == 0;
    } else {
      t := NatToString(m);
      assert Pow10(1) == 10 && Pow10(2) == 100;
      NatToStringLength(m, 1);
    }
  }

  /** `to_month` of a label gives back the month's code: labels and codes round-trip. */
  lemma ToMonthOfLabel(ym: (int, int))
    requires ValidMonth(ym)
    ensures Months.ToMonth(MonthLabel(ym)) == Some(ym.0 * 12 + ym.1)
  {
    LabelDigits(ym);
  }

  /** The number a label spells: the year times 100 plus the month. */
  lemma LabelValue(ym: (int, int))
    requires ValidMonth(ym)
    ensures var l := MonthLabel(ym);
            |l| == 6 && AllDigits(l) && DigitsValue(l) == ym.0 * 100 + ym.1
  {
    var l := MonthLabel(ym);
    LabelDigits(ym);
    assert l == l[..4] + l[4..];
    DigitsValueAppend(l[..4], l[4..]);
    assert Pow10(2) == 100;
  }

  /** Python's string order on labels is the chronological order of their months. */
  lemma LabelOrder(a: (int, int), b: (int, int))
    requires ValidMonth(a) && ValidMonth(b)
    ensures LexLe(MonthLabel(a), MonthLabel(b)) <==> a.0 * 12 + a.1 <= b.0 * 12 + b.1
  {
    LabelValue(a);
    LabelValue(b);
    LexLeIsNumericOrder(MonthLabel(a), MonthLabel(b));
    var (y1, m1) := a;
    var (y2, m2) := b;
    if y1 < y2 {
      assert y1 * 100 + m1 < y2 * 100 + m2 && y1 * 12 + m1 < y2 * 12 + m2;
    } else if y2 < y1 {
      assert y2 * 100 + m2 < y1 * 100 + m1 && y2 * 12 + m2 < y1 * 12 + m1;
    }
  }

  /** The `yrmo` list built from a list of months. */
  function Labels(months: seq<(int, int)>): (r: seq<string>)
    ensures |r| == |months|
    ensures forall i :: 0 <= i < |r| ==> r[i] == MonthLabel(months[i])
  {
    seq(|months|, i requires 0 <= i < |months| => MonthLabel(months[i]))
  }

  /** The loop that appends one label per month of `iter_months`. */
  method BuildLabels(months: seq<(int, int)>) returns (yrmo: seq<string>)
    ensures yrmo == Labels(months)
  {
    yrmo := [];
    for i := 0 to |months|
      invariant |yrmo| == i
      invariant forall j {:trigger yrmo[j]} :: 0 <= j < i ==> yrmo[j] == MonthLabel(months[j])
    {
      var (y, m) := months[i];
      var date;
      if m % 13 < 10 {
        date := IntToString(y) + "0" + IntToString(m);
      } else {
        date := IntToString(y) + IntToString(m);
      }
      assert date == MonthLabel(months[i]);
      ghost var yrmo0 := yrmo;
      yrmo := yrmo + [date];
      forall j | 0 <= j < i + 1
        ensures yrmo[j] == MonthLabel(months[j])
      {
        if j < i {
          assert yrmo[j] == yrmo0[j];
        }
      }
    }
  }

  /** `months` are the consecutive months with codes `lo`, `lo + 1`, ..., as `iter_months` yields them. */
  predicate MonthsFrom(months: seq<(int, int)>, lo: int)
  {
    forall i :: 0 <= i < |months| ==> 1 <= months[i].1 <= 12 && months[i].0 * 12 + months[i].1 == lo + i
  }

  /** `iter_months` yields such a run from the start label's code. */
  lemma IterMonthsFrom(start: string, end: string)
    requires Months.IterMonths(start, end).Some?
    ensures MonthsFrom(Months.IterMonths(start, end).value, Months.ToMonth(start).value)
  {
  }

  lemma RunMonthValid(months: seq<(int, int)>, lo: int, i: nat)
    requires MonthsFrom(months, lo) && 1000 * 12 + 1 <= lo && lo + |months| <= 9999 * 12 + 13
    requires i < |months|
    ensures ValidMonth(months[i]) && months[i].0 * 12 + months[i].1 == lo + i
  {
  }

  /** The i-th label of a run of four-digit-year months names the i-th month after the start. */
  lemma LabelCode(months: seq<(int, int)>, lo: int, i: nat)
    requires MonthsFrom(months, lo) && 1000 * 12 + 1 <= lo && lo + |months| <= 9999 * 12 + 13
    requires i < |months|
    ensures Months.ToMonth(Labels(months)[i]) == Some(lo + i)
  {
    var a := months[i];
    RunMonthValid(months, lo, i);
    ToMonthOfLabel(a);
    assert Labels(months)[i] == MonthLabel(a);
  }

  /**
   * The labels of a run of four-digit-year months are in strictly increasing
   * string order, one per month.
   */
  lemma LabelsChronological(months: seq<(int, int)>, lo: int, i: nat, j: nat)
    requires MonthsFrom(months, lo) && 1000 * 12 + 1 <= lo && lo + |months| <= 9999 * 12 + 13
    requires i < j < |months|
    ensures var labels := Labels(months);
            LexLe(labels[i], labels[j]) && labels[i] != labels[j]
  {
    var a, b := months[i], months[j];
    RunMonthValid(months, lo, i);
    RunMonthValid(months, lo, j);
    ToMonthOfLabel(a);
    ToMonthOfLabel(b);
    LabelOrder(a, b);
  }

  // ---------------------------------------------------------------------------
  // Download plans with a cutoff label (both versions of download_trips_data)

  /** The paths and names the downloader is configured with. */
  datatype PathConfig = PathConfig(
    zipDataPath: string,
    urlStem: string,
    csvDataPath: string,
    labelChunk: string,
    suffix1: string,
    suffix2: string)

  /** The last month whose archives use the first naming pattern. */
  const Cutoff: string := "201612"

  /** `suffix_1` for labels up to the cutoff in string order, `suffix_2` after it. */
  function CutoffSuffix(cfg: PathConfig, tag: string): string
  {
    if LexLe(tag, Cutoff) then cfg.suffix1 else cfg.suffix2
  }

  /** The cutoff label is the label of December 2016. */
  lemma CutoffLabel()
    ensures MonthLabel((2016, 12)) == Cutoff
  {
    assert NatToString(2016) == "2016" by {
      assert NatToString(2) == "2" && NatToString(20) == "20" && NatToString(201) == "201";
    }
    assert NatToString(12) == "12" by {
      assert NatToString(1) == "1";
    }
  }

  /** The suffix depends only on the month: the first pattern exactly up to December 2016. */
  lemma CutoffByMonth(cfg: PathConfig, ym: (int, int))
    requires ValidMonth(ym)
    ensures CutoffSuffix(cfg, MonthLabel(ym)) ==
              if ym.0 * 12 + ym.1 <= 2016 * 12 + 12 then cfg.suffix1 else cfg.suffix2
  {
    CutoffLabel();
    LabelOrder(ym, (2016, 12));
  }

  /**
   * The loop over `yrmo` building `urls` and `pr_paths`: both are aligned
   * with the labels and share the zip path, the URL is the stem, label and
   * suffix, and the csv path the directory, chunk and label.
   */
  method PlanByCutoff(cfg: PathConfig, yrmo: seq<string>)
    returns (urls: seq<(string, string)>, prPaths: seq<(string, string)>)
    ensures |urls| == |yrmo| && |prPaths| == |yrmo|
    ensures forall i :: 0 <= i < |yrmo| ==> urls[i].0 == prPaths[i].0
    ensures forall i :: 0 <= i < |yrmo| ==>
              var suffix := CutoffSuffix(cfg, yrmo[i]);
              && urls[i] == (cfg.zipDataPath + yrmo[i] + suffix, cfg.urlStem + yrmo[i] + suffix)
              && prPaths[i].1 == cfg.csvDataPath + cfg.labelChunk + yrmo[i] + ".csv"
  {
    urls, prPaths := [], [];
    for k := 0 to |yrmo|
      invariant |urls| == k && |prPaths| == k
      invariant forall i :: 0 <= i < k ==> urls[i].0 == prPaths[i].0
      invariant forall i :: 0 <= i < k ==>
                  var suffix := CutoffSuffix(cfg, yrmo[i]);
                  && urls[i] == (cfg.zipDataPath + yrmo[i] + suffix, cfg.urlStem + yrmo[i] + suffix)
                  && prPaths[i].1 == cfg.csvDataPath + cfg.labelChunk + yrmo[i] + ".csv"
    {
      var date := yrmo[k];
      var suffix := if LexLe(date, Cutoff) then cfg.suffix1 else cfg.suffix2;
      urls := urls + [(cfg.zipDataPath + date + suffix, cfg.urlStem + date + suffix)];
      prPaths := prPaths + [(cfg.zipDataPath + date + suffix, cfg.csvDataPath + cfg.labelChunk + date + ".csv")];
    }
  }

  // ---------------------------------------------------------------------------
  // The oldest downloader: a fixed range and a positional suffix split

  const CitibikesStart: string := "201306"
  const CitibikesEnd: string := "202103"
  const TripdataUrl: string := "https://s3.amazonaws.com/tripdata/"
  const Suffix16: string := "-citibike-tripdata.zip"
  const Suffix21: string := "-citibike-tripdata.csv.zip"
  /** How many leading labels use the older archive name. */
  const OldPatternCount: int := 43

  /** `yrmo[0:43]`. */
  function FirstLabels(yrmo: seq<string>): (r: seq<string>)
    ensures |r| <= OldPatternCount && |r| <= |yrmo| && r == yrmo[..|r|]
    ensures |yrmo| >= OldPatternCount ==> |r| == OldPatternCount
  {
    if |yrmo| < OldPatternCount then yrmo else yrmo[..OldPatternCount]
  }

  /** `suffix_16` for a label among the first 43, `suffix_21` otherwise. */
  function PositionSuffix(yrmo: seq<string>, date: string): string
  {
    if date in FirstLabels(yrmo) then Suffix16 else Suffix21
  }

  /** The `urls` entry of the oldest downloader: local zip path and download URL. */
  function PositionUrl(pathStem: string, yrmo: seq<string>, date: string): (string, string)
  {
    var suffix := PositionSuffix(yrmo, date);
    (pathStem + date + suffix, TripdataUrl + date + suffix)
  }

  /** The `pr_paths` entry of the oldest downloader: local zip path and csv path. */
  function PositionPaths(pathStem: string, csvStem: string, yrmo: seq<string>, date: string): (string, string)
  {
    (pathStem + date + PositionSuffix(yrmo, date), csvStem + "citibikes_" + date + ".csv")
  }

  /** The loop over `yrmo` of the oldest downloader; the csv name is `citibikes_` and the label. */
  method PlanByPosition(pathStem: string, csvStem: string, yrmo: seq<string>)
    returns (urls: seq<(string, string)>, prPaths: seq<(string, string)>)
    ensures |urls| == |yrmo| && |prPaths| == |yrmo|
    ensures forall i :: 0 <= i < |yrmo| ==> urls[i].0 == prPaths[i].0
    ensures forall i :: 0 <= i < |yrmo| ==>
              var suffix := PositionSuffix(yrmo, yrmo[i]);
              && urls[i] == (pathStem + yrmo[i] + suffix, TripdataUrl + yrmo[i] + suffix)
              && prPaths[i].1 == csvStem + "citibikes_" + yrmo[i] + ".csv"
  {
    urls, prPaths := [], [];
    for k := 0 to |yrmo|
      invariant |urls| == k && |prPaths| == k
      invariant forall i {:trigger urls[i]} :: 0 <= i < k ==> urls[i] == PositionUrl(pathStem, yrmo, yrmo[i])
      invariant forall i {:trigger prPaths[i]} :: 0 <= i < k ==> prPaths[i] == PositionPaths(pathStem, csvStem, yrmo, yrmo[i])
    {
      var date := yrmo[k];
      var suffix := if date in FirstLabels(yrmo) then Suffix16 else Suffix21;
      var url := (pathStem + date + suffix, TripdataUrl + date + suffix);
      var paths := (pathStem + date + suffix, csvStem + "citibikes_" + date + ".csv");
      assert url == PositionUrl(pathStem, yrmo, date) && paths == PositionPaths(pathStem, csvStem, yrmo, date);
      ghost var urls0, prPaths0 := urls, prPaths;
      urls := urls + [url];
      prPaths := prPaths + [paths];
      forall i | 0 <= i < k + 1
        ensures urls[i] == PositionUrl(pathStem, yrmo, yrmo[i])
        ensures prPaths[i] == PositionPaths(pathStem, csvStem, yrmo, yrmo[i])
      {
        if i < k {
          assert urls[i] == urls0[i] && prPaths[i] == prPaths0[i];
        }
      }
    }
  }

  /** With distinct labels, "among the first 43" is "at a position below 43". */
  lemma PositionIsIndex(yrmo: seq<string>, i: nat)
    requires forall a, b :: 0 <= a < b < |yrmo| ==> yrmo[a] != yrmo[b]
    requires i < |yrmo|
    ensures yrmo[i] in FirstLabels(yrmo) <==> i < OldPatternCount
  {
    var first := FirstLabels(yrmo);
    if i < OldPatternCount {
      assert first[i] == yrmo[i];
    }
    if yrmo[i] in first {
      var j :| 0 <= j < |first| && first[j] == yrmo[i];
      assert yrmo[j] == yrmo[i];
    }
  }

  /** The fixed range runs from code 24162 (June 2013) to 24255 (March 2021). */
  lemma CitibikesCodes()
    ensures Months.ToMonth(CitibikesStart) == Some(24162) && Months.ToMonth(CitibikesEnd) == Some(24255)
  {
    var a, b := CitibikesStart, CitibikesEnd;
    assert AllDigits(a) && AllDigits(b);
    assert a[..4] == "2013" && a[4..] == "06" && b[..4] == "2021" && b[4..] == "03";
    assert DigitsValue("2013") == 2013 by {
      assert "2013"[..3] == "201" && "201"[..2] == "20" && "20"[..1] == "2";
    }
    assert DigitsValue("2021") == 2021 by {
      assert "2021"[..3] == "202" && "202"[..2] == "20" && "20"[..1] == "2";
    }
    assert DigitsValue("06") == 6 by { assert "06"[..1] == "0"; }
    assert DigitsValue("03") == 3 by { assert "03"[..1] == "0"; }
  }

  /**
   * Over the fixed range (94 months), the positional split and the cutoff
   * agree: a label is among the first 43 exactly when it is at most
   * `201612`, i.e. the first 43 months are June 2013 to December 2016.
   */
  lemma PositionalMatchesCutoff(cfg: PathConfig, i: nat)
    requires i < |Labels(Months.IterMonths(CitibikesStart, CitibikesEnd).value)|
    ensures var labels := Labels(Months.IterMonths(CitibikesStart, CitibikesEnd).value);
            |labels| == 94 &&
            (labels[i] in FirstLabels(labels) <==> LexLe(labels[i], Cutoff))
  {
    CitibikesCodes();
    var months := Months.IterMonths(CitibikesStart, CitibikesEnd).value;
    IterMonthsFrom(CitibikesStart, CitibikesEnd);
    var labels := Labels(months);
    forall a, b | 0 <= a < b < |labels|
      ensures labels[a] != labels[b]
    {
      LabelsChronological(months, 24162, a, b);
    }
    PositionIsIndex(labels, i);
    assert ValidMonth(months[i]);
    CutoffLabel();
    LabelOrder(months[i], (2016, 12));
  }

  // ---------------------------------------------------------------------------
  // Hourly flows of one month of trips

  /** The four columns read from a trip file; times are minutes (see Months). */
  datatype Trip = Trip(startTime: int, stopTime: int, startStationId: int, endStationId: int)

  /** (station_id, date, hour). */
  type FlowKey = (int, int, int)

  function HourKey(station: int, t: int): FlowKey
  {
    (station, Months.DayOf(t), Months.HourOf(t))
  }

  /** An inflow is counted at the end station in the hour the trip stops. */
  function InflowKeys(trips: seq<Trip>): (keys: seq<FlowKey>)
    ensures |keys| == |trips|
    ensures forall i :: 0 <= i < |trips| ==> keys[i] == HourKey(trips[i].endStationId, trips[i].stopTime)
  {
    seq(|trips|, i requires 0 <= i < |trips| => HourKey(trips[i].endStationId, trips[i].stopTime))
  }

  /** An outflow is counted at the start station in the hour the trip starts. */
  function OutflowKeys(trips: seq<Trip>): (keys: seq<FlowKey>)
    ensures |keys| == |trips|
    ensures forall i :: 0 <= i < |trips| ==> keys[i] == HourKey(trips[i].startStationId, trips[i].startTime)
  {
    seq(|trips|, i requires 0 <= i < |trips| => HourKey(trips[i].startStationId, trips[i].startTime))
  }

  /** How many times `k` occurs in `keys`. */
  function Occurrences(keys: seq<FlowKey>, k: FlowKey): (n: nat)
    ensures n == multiset(keys)[k]
    ensures n > 0 <==> k in keys
    ensures n <= |keys|
  {
    if |keys| == 0 then 0
    else
      var prev := Occurrences(keys[..|keys| - 1], k);
      assert keys == keys[..|keys| - 1] + [keys[|keys| - 1]];
      if keys[|keys| - 1] == k then prev + 1 else prev
  }

  /**
   * `groupby([...]).sum()` of a column of ones: one entry per key that
   * occurs, holding its number of occurrences.
   */
  function CountBy(keys: seq<FlowKey>): (r: map<FlowKey, nat>)
    ensures forall k :: k in r <==> k in keys
    ensures forall k :: k in r ==> r[k] == Occurrences(keys, k)
  {
    if |keys| == 0 then map[]
    else
      var prev := CountBy(keys[..|keys| - 1]);
      var k := keys[|keys| - 1];
      assert keys == keys[..|keys| - 1] + [k];
      prev[k := if k in prev then prev[k] + 1 else 1]
  }

  /**
   * `pd.merge(inflows, outflows, on=['station_id', 'date', 'hour'])`, an
   * inner join: a key is kept exactly when some trip ends there in that
   * hour and some trip starts there in that hour, with both counts.
   */
  function Flows(trips: seq<Trip>): (r: map<FlowKey, (nat, nat)>)
    ensures forall k :: k in r <==> k in InflowKeys(trips) && k in OutflowKeys(trips)
    ensures forall k :: k in r ==>
              && r[k] == (Occurrences(InflowKeys(trips), k), Occurrences(OutflowKeys(trips), k))
              && r[k].0 >= 1 && r[k].1 >= 1
  {
    var inflows := CountBy(InflowKeys(trips));
    var outflows := CountBy(OutflowKeys(trips));
    map k | k in inflows.Keys && k in outflows.Keys :: (inflows[k], outflows[k])
  }

  /**
   * The hour bucket of a key is a one-hour interval: an instant has date `d`
   * and hour `h` exactly when it lies in `[d h:00, d h:00 + 1h)`.
   */
  lemma HourBucket(t: int, d: int, h: int)
    requires 0 <= h < 24
    ensures Months.DayOf(t) == d && Months.HourOf(t) == h <==>
              Months.Stamp(d, h) <= t < Months.Stamp(d, h) + Months.MinutesPerHour
  {
    var s := Months.Stamp(d, h);
    if s <= t < s + Months.MinutesPerHour {
      var off := t - d * Months.MinutesPerDay;
      assert h * Months.MinutesPerHour <= off < h * Months.MinutesPerHour + Months.MinutesPerHour;
      assert t == d * Months.MinutesPerDay + off && 0 <= off < Months.MinutesPerDay;
      assert t / Months.MinutesPerDay == d && t % Months.MinutesPerDay == off;
      assert off / Months.MinutesPerHour == h;
    }
    if Months.DayOf(t) == d && Months.HourOf(t) == h {
      var off := t % Months.MinutesPerDay;
      assert t == d * Months.MinutesPerDay + off;
      assert h * Months.MinutesPerHour <= off < h * Months.MinutesPerHour + Months.MinutesPerHour;
    }
  }

  /**
   * The loop over `pr_paths`: each month's archive is read and its flow
   * table written to that month's csv path, in order.
   */
  method ProcessArchives(prPaths: seq<(string, string)>, readArchive: string -> seq<Trip>)
    returns (written: seq<(string, map<FlowKey, (nat, nat)>)>)
    ensures |written| == |prPaths|
    ensures forall i :: 0 <= i < |prPaths| ==> written[i] == (prPaths[i].1, Flows(readArchive(prPaths[i].0)))
  {
    written := [];
    for k := 0 to |prPaths|
      invariant |written| == k
      invariant forall i :: 0 <= i < k ==> written[i] == (prPaths[i].1, Flows(readArchive(prPaths[i].0)))
    {
      var trips := readArchive(prPaths[k].0);
      var flows := Flows(trips);
      written := written + [(prPaths[k].1, flows)];
    }
  }
}
