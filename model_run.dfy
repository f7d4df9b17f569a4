/**
 * `model_fun` and the assembly of the prediction table in
 * `run_train_models`.
 *
 * For every station of the hourly stock table, in order of first
 * appearance, the station's stock series is tested against the data gate
 * (more than 336 hours with at least one bike). A station that passes gets
 * a holdout score (the last 12 points are held out, the MAPE of a forecast
 * for them is capped at 100) and one forecast row per hour of the forecast
 * horizon. The predictions are then left-joined to the station table and
 * sorted by longitude ascending, then latitude descending.
 *
 * ARIMA is a parameter: `forecastAt(series, i)` is the rounded forecast `i`
 * steps after the end of `series` by a model fitted to `series`, and
 * `mapeOf(train, test)` is the raw mean absolute percentage error, against
 * `test`, of the unrounded `|test|`-step forecast of a model fitted to
 * `train`.
 */
module ModelRun {
  import opened Wrappers
  import opened Sorting
  import Months
  import BikeStock

  /** A station is modelled only with more than this many positive-stock hours (two weeks). */
  const MinPositiveRows: int := 336
  /** The number of final points held out for the evaluation forecast. */
  const HoldoutLength: int := 12
  /** The cap on a reported MAPE, in percent. */
  const MapeCap: real := 100.0

  /** One row of `predictions_output`: a forecast number of bikes at a station and hour. */
  datatype ForecastRecord = ForecastRecord(stationId: int, date: int, hour: int, predNumBikes: int)

  /** One row of `station_mapes_df`. */
  datatype StationScore = StationScore(station: int, mape: real)

  /**
   * What `model_fun` hands back: the predictions, the scores, and the number
   * of stations it logged as having no model.
   */
  datatype ModelOutput = ModelOutput(
    predictions: seq<ForecastRecord>,
    scores: seq<StationScore>,
    noModelStations: int)

  /**
   * No forecast row was produced (no station passed the gate, or the horizon
   * is empty): the empty `DataFrame` has no `date_time` column and the
   * `KeyError` escapes `model_fun`.
   */
  datatype ModelError = NoForecastRows

  // ---------------------------------------------------------------------------
  // Stations and their series

  /** The position of the first occurrence of `x` in `ids`. */
  function FirstIndex(ids: seq<int>, x: int): (p: nat)
    requires x in ids
    ensures p < |ids| && ids[p] == x
    ensures forall k :: 0 <= k < p ==> ids[k] != x
  {
    if ids[0] == x then 0 else 1 + FirstIndex(ids[1..], x)
  }

  /** Appending a value keeps the first occurrence of every value already there. */
  lemma {:induction false} FirstIndexAppend(ids: seq<int>, x: int, y: int)
    requires y in ids
    ensures FirstIndex(ids + [x], y) == FirstIndex(ids, y)
  {
    if ids[0] != y {
      assert (ids + [x])[1..] == ids[1..] + [x];
      FirstIndexAppend(ids[1..], x, y);
    }
  }

  /** `unique()`: the distinct values of `ids` in order of first appearance. */
  function Distinct(ids: seq<int>): (r: seq<int>)
    ensures forall x :: x in r <==> x in ids
    ensures forall i, j :: 0 <= i < j < |r| ==> r[i] != r[j]
    ensures forall i, j :: 0 <= i < j < |r| ==> FirstIndex(ids, r[i]) < FirstIndex(ids, r[j])
  {
    if |ids| == 0 then []
    else
      var init := ids[..|ids| - 1];
      var prev := Distinct(init);
      var x := ids[|ids| - 1];
      assert ids == init + [x];
      DistinctOrderStep(init, x, prev);
      if x in prev then prev else prev + [x]
  }

  /**
   * The inductive step of `Distinct`'s order: first occurrences in `init`
   * stay first occurrences in `init + [x]`, and a new value comes after all
   * of them.
   */
  lemma DistinctOrderStep(init: seq<int>, x: int, prev: seq<int>)
    requires forall y :: y in prev <==> y in init
    requires forall i, j :: 0 <= i < j < |prev| ==> FirstIndex(init, prev[i]) < FirstIndex(init, prev[j])
    ensures forall i, j :: 0 <= i < j < |prev| ==> FirstIndex(init + [x], prev[i]) < FirstIndex(init + [x], prev[j])
    ensures x !in init ==>
              forall i :: 0 <= i < |prev| ==> FirstIndex(init + [x], prev[i]) < FirstIndex(init + [x], x)
  {
    forall i | 0 <= i < |prev|
      ensures FirstIndex(init + [x], prev[i]) == FirstIndex(init, prev[i])
    {
      FirstIndexAppend(init, x, prev[i]);
    }
    if x !in init {
      assert FirstIndex(init + [x], x) == |init|;
    }
  }

  function StationColumn(rows: seq<BikeStock.StockPoint>): (ids: seq<int>)
    ensures |ids| == |rows|
    ensures forall i :: 0 <= i < |rows| ==> ids[i] == rows[i].stationId
  {
    seq(|rows|, i requires 0 <= i < |rows| => rows[i].stationId)
  }

  /** `station_list`: the stations of the table, each once. */
  function StationList(rows: seq<BikeStock.StockPoint>): (r: seq<int>)
    ensures forall s :: s in r <==> exists i :: 0 <= i < |rows| && rows[i].stationId == s
  {
    var ids := StationColumn(rows);
    assert forall s :: s in ids <==> exists i :: 0 <= i < |rows| && rows[i].stationId == s by {
      forall s | s in ids
        ensures exists i :: 0 <= i < |rows| && rows[i].stationId == s
      {
        var i :| 0 <= i < |ids| && ids[i] == s;
        assert rows[i].stationId == s;
      }
    }
    Distinct(ids)
  }

  /** `dataframe['station_id'] == station`: the positions of the station's rows, ascending. */
  function RowsOf(rows: seq<BikeStock.StockPoint>, station: int): (idx: seq<nat>)
    ensures forall k :: 0 <= k < |idx| ==> idx[k] < |rows| && rows[idx[k]].stationId == station
    ensures forall i :: 0 <= i < |rows| && rows[i].stationId == station ==> i in idx
    ensures forall k, l :: 0 <= k < l < |idx| ==> idx[k] < idx[l]
  {
    if |rows| == 0 then []
    else
      var init := rows[..|rows| - 1];
      var prev := RowsOf(init, station);
      assert forall k :: 0 <= k < |prev| ==> rows[prev[k]] == init[prev[k]];
      if rows[|rows| - 1].stationId == station then prev + [|rows| - 1] else prev
  }

  /** `y_var`: the stock column of the rows of `station`, in table order. */
  function SeriesOf(rows: seq<BikeStock.StockPoint>, station: int): (ys: seq<int>)
    ensures |ys| <= |rows|
  {
    if |rows| == 0 then []
    else
      var init := rows[..|rows| - 1];
      var last := rows[|rows| - 1];
      if last.stationId == station then SeriesOf(init, station) + [last.stock] else SeriesOf(init, station)
  }

  /** Point `k` of a station's series is the stock of the station's `k`-th row. */
  lemma {:induction false} SeriesOfRows(rows: seq<BikeStock.StockPoint>, station: int)
    ensures |SeriesOf(rows, station)| == |RowsOf(rows, station)|
    ensures forall k :: 0 <= k < |SeriesOf(rows, station)| ==>
              SeriesOf(rows, station)[k] == rows[RowsOf(rows, station)[k]].stock
  {
    if |rows| > 0 {
      var init := rows[..|rows| - 1];
      SeriesOfRows(init, station);
      var ys, idx := SeriesOf(rows, station), RowsOf(rows, station);
      var ysPrev, prev := SeriesOf(init, station), RowsOf(init, station);
      var extra := if rows[|rows| - 1].stationId == station then 1 else 0;
      assert |ys| == |ysPrev| + extra && |idx| == |prev| + extra;
      forall k | 0 <= k < |ys|
        ensures ys[k] == rows[idx[k]].stock
      {
        if k < |ysPrev| {
          assert ys[k] == ysPrev[k] && idx[k] == prev[k];
          assert rows[prev[k]] == init[prev[k]];
        }
      }
    }
  }

  /** The positions of the points with a positive stock. */
  function Positives(ys: seq<int>): set<nat>
  {
    set i: nat | i < |ys| && ys[i] > 0
  }

  /** A point appended to a series is one more positive point exactly when it is positive. */
  lemma PositivesSnoc(ys: seq<int>, y: int)
    ensures Positives(ys + [y]) == Positives(ys) + if y > 0 then {|ys|} else {}
  {
    var zs := ys + [y];
    forall i: nat
      ensures i in Positives(zs) <==> i in Positives(ys) || (y > 0 && i == |ys|)
    {
      if i < |ys| {
        assert zs[i] == ys[i];
      }
    }
  }

  /** `len(df_train.loc[df_train['stock'] > 0])`: the number of points with a positive stock. */
  function PositiveCount(ys: seq<int>): (n: nat)
    ensures n <= |ys|
    ensures n == |ys| <==> forall i :: 0 <= i < |ys| ==> ys[i] > 0
  {
    if |ys| == 0 then 0
    else
      var init := ys[..|ys| - 1];
      var n := PositiveCount(init);
      assert ys == init + [ys[|ys| - 1]];
      if ys[|ys| - 1] > 0 then n + 1 else n
  }

  /** The count is the number of positions holding a positive stock. */
  lemma {:induction false} PositiveCountCardinality(ys: seq<int>)
    ensures PositiveCount(ys) == |Positives(ys)|
  {
    if |ys| == 0 {
      assert Positives(ys) == {};
    } else {
      var init := ys[..|ys| - 1];
      PositiveCountCardinality(init);
      assert ys == init + [ys[|ys| - 1]];
      PositivesSnoc(init, ys[|ys| - 1]);
    }
  }

  /** `model_fun`'s data gate: more than 336 rows with a positive stock. */
  predicate EnoughData(ys: seq<int>)
  {
    PositiveCount(ys) > MinPositiveRows
  }

  predicate Trained(rows: seq<BikeStock.StockPoint>, station: int)
  {
    EnoughData(SeriesOf(rows, station))
  }

  /** A series that passes the gate is long enough for the 12-point holdout. */
  lemma EnoughDataIsLong(ys: seq<int>)
    requires EnoughData(ys)
    ensures |ys| > MinPositiveRows && |ys| >= HoldoutLength
  {
  }

  /** Whatever the series' length, 336 positive points are not enough and 337 are. */
  lemma GateBoundary(ys: seq<int>)
    ensures |Positives(ys)| == 336 ==> !EnoughData(ys)
    ensures |Positives(ys)| == 337 ==> EnoughData(ys)
  {
    PositiveCountCardinality(ys);
  }

  /** The positions of the rows of `station` with a positive stock. */
  function PositiveRows(rows: seq<BikeStock.StockPoint>, station: int): set<nat>
  {
    set i: nat | i < |rows| && rows[i].stationId == station && rows[i].stock > 0
  }

  /** The gate on the table: a station is trained exactly when more than 336 of its rows have a bike. */
  lemma TrainedIff(rows: seq<BikeStock.StockPoint>, station: int)
    ensures Trained(rows, station) <==> |PositiveRows(rows, station)| > MinPositiveRows
  {
    PositiveRowsCount(rows, station);
  }

  /** The positive points of a station's series are its positive rows. */
  lemma {:induction false} PositiveRowsCount(rows: seq<BikeStock.StockPoint>, station: int)
    ensures PositiveCount(SeriesOf(rows, station)) == |PositiveRows(rows, station)|
  {
    if |rows| == 0 {
      assert PositiveRows(rows, station) == {};
    } else {
      var init := rows[..|rows| - 1];
      var last := rows[|rows| - 1];
      assert rows == init + [last];
      PositiveRowsCount(init, station);
      PositiveRowsSnoc(init, last, station);
      SeriesCountSnoc(init, last, station);
    }
  }

  /** A row appended to the table adds one positive point to the station's series exactly when it is a positive row of it. */
  lemma SeriesCountSnoc(rows: seq<BikeStock.StockPoint>, r: BikeStock.StockPoint, station: int)
    ensures PositiveCount(SeriesOf(rows + [r], station)) ==
            PositiveCount(SeriesOf(rows, station)) + if r.stationId == station && r.stock > 0 then 1 else 0
  {
    var zs := rows + [r];
    assert zs[..|zs| - 1] == rows;
    if r.stationId == station {
      PositiveCountSnoc(SeriesOf(rows, station), r.stock);
    }
  }

  /** A row appended to the table is one more positive row of `station` exactly when it is one. */
  lemma PositiveRowsSnoc(rows: seq<BikeStock.StockPoint>, r: BikeStock.StockPoint, station: int)
    ensures PositiveRows(rows + [r], station) ==
            PositiveRows(rows, station) + if r.stationId == station && r.stock > 0 then {|rows|} else {}
    ensures |PositiveRows(rows + [r], station)| ==
            |PositiveRows(rows, station)| + if r.stationId == station && r.stock > 0 then 1 else 0
  {
    var zs := rows + [r];
    forall i: nat
      ensures i in PositiveRows(zs, station) <==>
              i in PositiveRows(rows, station) || (r.stationId == station && r.stock > 0 && i == |rows|)
    {
      if i < |rows| {
        assert zs[i] == rows[i];
      }
    }
    var before := PositiveRows(rows, station);
    assert |rows| !in before;
    if r.stationId == station && r.stock > 0 {
      assert |before + {|rows|}| == |before| + 1;
    }
  }

  /** A point appended to a series adds one to the count exactly when it is positive. */
  lemma PositiveCountSnoc(ys: seq<int>, y: int)
    ensures PositiveCount(ys + [y]) == PositiveCount(ys) + if y > 0 then 1 else 0
  {
    assert (ys + [y])[..|ys|] == ys;
  }

  // ---------------------------------------------------------------------------
  // Holdout evaluation

  /** Python's normalisation of a slice bound `i` on a sequence of length `n`. */
  function SliceBound(i: int, n: nat): (b: nat)
    ensures b <= n
  {
    if i < 0 then (if i + n < 0 then 0 else i + n) else if i > n then n else i
  }

  /**
   * `model_fun`'s holdout split: `iloc[0:len - 12]` for training and `iloc[-12:]` for testing,
   * with Python's slicing of negative bounds.
   */
  function HoldoutSplit(ys: seq<int>): (r: (seq<int>, seq<int>))
    ensures |r.1| == if |ys| >= HoldoutLength then HoldoutLength else |ys|
    ensures r.1 == ys[|ys| - |r.1|..]
    ensures |r.0| <= |ys| && r.0 == ys[..|r.0|]
    ensures |ys| >= HoldoutLength ==> r.0 + r.1 == ys
  {
    var n := |ys|;
    var train := ys[..SliceBound(n - HoldoutLength, n)];
    var test := ys[SliceBound(-HoldoutLength, n)..];
    assert |ys| >= HoldoutLength ==> train + test == ys;
    (train, test)
  }

  /** `model_fun`'s cap: the MAPE reported for a raw MAPE. */
  function CapMape(raw: real): (m: real)
    ensures m <= MapeCap
    ensures raw <= MapeCap ==> m == raw
    ensures raw > MapeCap ==> m == MapeCap
  {
    if raw > MapeCap then MapeCap else raw
  }

  lemma CapMapeExamples()
    ensures CapMape(150.0) == 100.0 && CapMape(42.0) == 42.0
  {
  }

  /**
   * The holdout score in `model_fun`: a model fitted to all but the last 12
   * points forecasts 12 steps; its capped MAPE against the held-out points is
   * the station's score.
   */
  function StationMape(ys: seq<int>, mapeOf: (seq<int>, seq<int>) -> real): (m: real)
    ensures m <= MapeCap
    ensures |ys| >= HoldoutLength ==>
              var raw := mapeOf(ys[..|ys| - HoldoutLength], ys[|ys| - HoldoutLength..]);
              m == if raw > MapeCap then MapeCap else raw
  {
    var split := HoldoutSplit(ys);
    CapMape(mapeOf(split.0, split.1))
  }

  // ---------------------------------------------------------------------------
  // What the training loop produces, stated per prefix of the station list

  /** `stations_w_models` after the loop has seen `stations`. */
  function TrainedAmong(rows: seq<BikeStock.StockPoint>, stations: seq<int>): (r: seq<int>)
    ensures |r| <= |stations|
    ensures forall s :: s in r <==> s in stations && Trained(rows, s)
  {
    if |stations| == 0 then []
    else
      var prev := TrainedAmong(rows, stations[..|stations| - 1]);
      var s := stations[|stations| - 1];
      assert stations == stations[..|stations| - 1] + [s];
      if Trained(rows, s) then prev + [s] else prev
  }

  /** The stations of `stations` that the loop skips. */
  function UntrainedAmong(rows: seq<BikeStock.StockPoint>, stations: seq<int>): (r: seq<int>)
    ensures forall s :: s in r <==> s in stations && !Trained(rows, s)
  {
    if |stations| == 0 then []
    else
      var prev := UntrainedAmong(rows, stations[..|stations| - 1]);
      var s := stations[|stations| - 1];
      assert stations == stations[..|stations| - 1] + [s];
      if Trained(rows, s) then prev else prev + [s]
  }

  /** Every station is either trained or skipped, so the counts add up. */
  lemma {:induction false} TrainedPlusUntrained(rows: seq<BikeStock.StockPoint>, stations: seq<int>)
    ensures |TrainedAmong(rows, stations)| + |UntrainedAmong(rows, stations)| == |stations|
  {
    if |stations| > 0 {
      TrainedPlusUntrained(rows, stations[..|stations| - 1]);
    }
  }

  /** `mapes_station_arima` after the loop has seen `stations`: aligned with `stations_w_models`. */
  function MapesAmong(rows: seq<BikeStock.StockPoint>, stations: seq<int>,
                      mapeOf: (seq<int>, seq<int>) -> real): (r: seq<real>)
    ensures |r| == |TrainedAmong(rows, stations)|
    ensures forall k :: 0 <= k < |r| ==>
              r[k] == StationMape(SeriesOf(rows, TrainedAmong(rows, stations)[k]), mapeOf)
  {
    if |stations| == 0 then []
    else
      var prev := MapesAmong(rows, stations[..|stations| - 1], mapeOf);
      var s := stations[|stations| - 1];
      if Trained(rows, s) then prev + [StationMape(SeriesOf(rows, s), mapeOf)] else prev
  }

  /** `model_fun`'s score table: the two lists paired row by row. */
  function ScoreTable(stations: seq<int>, mapes: seq<real>): (r: seq<StationScore>)
    requires |stations| == |mapes|
    ensures |r| == |stations|
    ensures forall k :: 0 <= k < |r| ==> r[k].station == stations[k] && r[k].mape == mapes[k]
  {
    seq(|stations|, k requires 0 <= k < |stations| => StationScore(stations[k], mapes[k]))
  }

  /** The scores of the trained stations: one per trained station, in order, each at most 100. */
  lemma ScoresOfTrained(rows: seq<BikeStock.StockPoint>, stations: seq<int>,
                        mapeOf: (seq<int>, seq<int>) -> real)
    ensures var trained := TrainedAmong(rows, stations);
            var scores := ScoreTable(trained, MapesAmong(rows, stations, mapeOf));
            |scores| == |trained| &&
            forall k :: 0 <= k < |scores| ==>
              scores[k].station == trained[k] && Trained(rows, scores[k].station) &&
              scores[k].mape <= MapeCap
  {
    var trained := TrainedAmong(rows, stations);
    forall k | 0 <= k < |trained|
      ensures Trained(rows, trained[k])
    {
      assert trained[k] in trained;
    }
  }

  /** One row of `model_fun`'s forecast table, with the date and hour split out: one station's forecast at one time. */
  function ForecastRow(station: int, t: int, value: int): ForecastRecord
  {
    ForecastRecord(station, Months.DayOf(t), Months.HourOf(t), value)
  }

  /** The forecast rows of one trained station: the i-th carries the i-th time and forecast. */
  function StationForecast(station: int, times: seq<int>, ys: seq<int>,
                           forecastAt: (seq<int>, nat) -> int): (r: seq<ForecastRecord>)
    ensures |r| == |times|
    ensures forall i :: 0 <= i < |r| ==> r[i] == ForecastRow(station, times[i], forecastAt(ys, i))
  {
    seq(|times|, i requires 0 <= i < |times| => ForecastRow(station, times[i], forecastAt(ys, i)))
  }

  /** `dict_list` after the loop has seen `stations`. */
  function ForecastRowsAmong(rows: seq<BikeStock.StockPoint>, stations: seq<int>, times: seq<int>,
                             forecastAt: (seq<int>, nat) -> int): (r: seq<ForecastRecord>)
    ensures forall q :: q in r ==> q.stationId in stations && Trained(rows, q.stationId)
  {
    if |stations| == 0 then []
    else
      var prev := ForecastRowsAmong(rows, stations[..|stations| - 1], times, forecastAt);
      var s := stations[|stations| - 1];
      if Trained(rows, s) then prev + StationForecast(s, times, SeriesOf(rows, s), forecastAt)
      else prev
  }

  lemma MulSucc(m: nat, n: nat)
    ensures (m + 1) * n == m * n + n
  {
  }

  lemma {:induction false} MulStep(k: nat, m: nat, n: nat)
    requires k < m
    ensures k * n + n <= m * n
    decreases m - k
  {
    assert (k + 1) * n == k * n + n;
    if k + 1 < m {
      MulStep(k + 1, m, n);
    }
  }

  /** `|times|` rows per trained station. */
  lemma {:induction false} ForecastTableLength(rows: seq<BikeStock.StockPoint>, stations: seq<int>,
                                               times: seq<int>, forecastAt: (seq<int>, nat) -> int)
    ensures |ForecastRowsAmong(rows, stations, times, forecastAt)| == |TrainedAmong(rows, stations)| * |times|
  {
    if |stations| > 0 {
      var init := stations[..|stations| - 1];
      ForecastTableLength(rows, init, times, forecastAt);
      if Trained(rows, stations[|stations| - 1]) {
        MulSucc(|TrainedAmong(rows, init)|, |times|);
      }
    }
  }

  /** Row `k * |times| + i` of the forecast table is the i-th forecast of the k-th trained station. */
  lemma {:induction false} ForecastTableAt(rows: seq<BikeStock.StockPoint>, stations: seq<int>,
                                           times: seq<int>, forecastAt: (seq<int>, nat) -> int, k: nat, i: nat)
    requires k < |TrainedAmong(rows, stations)| && i < |times|
    ensures var table := ForecastRowsAmong(rows, stations, times, forecastAt);
            var station := TrainedAmong(rows, stations)[k];
            k * |times| + i < |table| &&
            table[k * |times| + i] == ForecastRow(station, times[i], forecastAt(SeriesOf(rows, station), i))
  {
    var n := |times|;
    var init := stations[..|stations| - 1];
    var s := stations[|stations| - 1];
    var prev := ForecastRowsAmong(rows, init, times, forecastAt);
    var trainedPrev := TrainedAmong(rows, init);
    ForecastTableLength(rows, init, times, forecastAt);
    if k < |trainedPrev| {
      ForecastTableAt(rows, init, times, forecastAt, k, i);
      MulStep(k, |trainedPrev|, n);
      if Trained(rows, s) {
        assert TrainedAmong(rows, stations)[k] == trainedPrev[k];
      }
    } else {
      assert Trained(rows, s) && k == |trainedPrev|;
      assert k * n == |prev|;
    }
  }

  // ---------------------------------------------------------------------------
  // model_fun

  /** The three lists after one more station: appended to exactly when it is trained. */
  lemma AmongStep(rows: seq<BikeStock.StockPoint>, stations: seq<int>, k: nat, times: seq<int>,
                  forecastAt: (seq<int>, nat) -> int, mapeOf: (seq<int>, seq<int>) -> real)
    requires k < |stations|
    ensures var s := stations[k];
            var grown := stations[..k + 1];
            if Trained(rows, s) then
              && TrainedAmong(rows, grown) == TrainedAmong(rows, stations[..k]) + [s]
              && MapesAmong(rows, grown, mapeOf) ==
                   MapesAmong(rows, stations[..k], mapeOf) + [StationMape(SeriesOf(rows, s), mapeOf)]
              && ForecastRowsAmong(rows, grown, times, forecastAt) ==
                   ForecastRowsAmong(rows, stations[..k], times, forecastAt) +
                   StationForecast(s, times, SeriesOf(rows, s), forecastAt)
            else
              && TrainedAmong(rows, grown) == TrainedAmong(rows, stations[..k])
              && MapesAmong(rows, grown, mapeOf) == MapesAmong(rows, stations[..k], mapeOf)
              && ForecastRowsAmong(rows, grown, times, forecastAt) == ForecastRowsAmong(rows, stations[..k], times, forecastAt)
  {
    assert stations[..k + 1][..k] == stations[..k];
  }

  /** `model_fun`'s inner loop, appending one forecast row per horizon time. */
  method StationForecastRows(station: int, times: seq<int>, ys: seq<int>, forecastAt: (seq<int>, nat) -> int)
    returns (block: seq<ForecastRecord>)
    ensures block == StationForecast(station, times, ys, forecastAt)
  {
    block := [];
    for i := 0 to |times|
      invariant block == StationForecast(station, times[..i], ys, forecastAt)
    {
      block := block + [ForecastRow(station, times[i], forecastAt(ys, i))];
    }
    assert times[..|times|] == times;
  }

  /**
   * `model_fun`: the training loop over the stations, with the forecast
   * horizon `[start, end)` in minutes.
   */
  method ModelFun(rows: seq<BikeStock.StockPoint>, start: int, end: int,
                  forecastAt: (seq<int>, nat) -> int, mapeOf: (seq<int>, seq<int>) -> real)
    returns (r: Result<ModelOutput, ModelError>)
    ensures var stations := StationList(rows);
            var table := ForecastRowsAmong(rows, stations, Months.HourlyTimes(start, end), forecastAt);
            && (r.Err? <==> table == [])
            && (r.Ok? ==>
                  && r.value.predictions == table
                  && r.value.scores ==
                       ScoreTable(TrainedAmong(rows, stations), MapesAmong(rows, stations, mapeOf))
                  && r.value.noModelStations == |UntrainedAmong(rows, stations)|)
  {
    var stationList := StationList(rows);
    var times := Months.DateRangeHours(start, end);
    var stationsWithModels: seq<int> := [];
    var mapes: seq<real> := [];
    var forecasts: seq<ForecastRecord> := [];
    for k := 0 to |stationList|
      invariant stationsWithModels == TrainedAmong(rows, stationList[..k])
      invariant mapes == MapesAmong(rows, stationList[..k], mapeOf)
      invariant forecasts == ForecastRowsAmong(rows, stationList[..k], times, forecastAt)
    {
      var station := stationList[k];
      AmongStep(rows, stationList, k, times, forecastAt, mapeOf);
      var series := SeriesOf(rows, station);
      var enoughDataFlag := PositiveCount(series);
      if enoughDataFlag > MinPositiveRows {
        stationsWithModels := stationsWithModels + [station];
        var split := HoldoutSplit(series);
        var mapeResult := mapeOf(split.0, split.1);
        var mapeVal := if mapeResult > MapeCap then MapeCap else mapeResult;
        mapes := mapes + [mapeVal];
        var block := StationForecastRows(station, times, series, forecastAt);
        forecasts := forecasts + block;
      }
    }
    assert stationList[..|stationList|] == stationList;
    if |forecasts| == 0 {
      return Err(NoForecastRows);
    }
    var scores := ScoreTable(stationsWithModels, mapes);
    TrainedPlusUntrained(rows, stationList);
    return Ok(ModelOutput(forecasts, scores, |stationList| - |scores|));
  }

  /**
   * An eight-hour horizon from midnight gives each trained station eight
   * rows for hours 0 to 7 of that day.
   */
  lemma EightHourHorizon(station: int, day: int, ys: seq<int>, forecastAt: (seq<int>, nat) -> int)
    ensures var r := StationForecast(station, Months.HourlyTimes(Months.Stamp(day, 0), Months.Stamp(day, 8)),
                                     ys, forecastAt);
            |r| == 8 &&
            forall i :: 0 <= i < 8 ==> r[i].stationId == station && r[i].date == day && r[i].hour == i
  {
    Months.HourlyTimesFromMidnight(day, 8);
  }

  // ---------------------------------------------------------------------------
  // `run_train_models`: merge with the station table and sort

  /** One row of `prediction_df`: the seven projected columns. */
  datatype PredictionRow = PredictionRow(
    stationId: int,
    name: Option<string>,
    latitude: Option<real>,
    longitude: Option<real>,
    date: int,
    hour: int,
    predNumBikes: int)

  function Attach(p: ForecastRecord, s: Option<BikeStock.StationRow>): PredictionRow
  {
    if s.Some? then PredictionRow(p.stationId, s.value.name, s.value.latitude, s.value.longitude,
                                  p.date, p.hour, p.predNumBikes)
    else PredictionRow(p.stationId, None, None, None, p.date, p.hour, p.predNumBikes)
  }

  /** A left merge on `station_id`: one row per matching station row, or one row of nulls. */
  function MergeOne(p: ForecastRecord, stations: seq<BikeStock.StationRow>): (r: seq<PredictionRow>)
    ensures |r| >= 1
    ensures BikeStock.UniqueIds(stations) ==> r == [Attach(p, BikeStock.Lookup(stations, p.stationId))]
  {
    var matches := BikeStock.StationsWithId(stations, p.stationId);
    BikeStock.UniqueMatch(stations, p.stationId);
    if |matches| == 0 then [Attach(p, None)]
    else seq(|matches|, k requires 0 <= k < |matches| => Attach(p, Some(matches[k])))
  }

  function MergeStations(preds: seq<ForecastRecord>, stations: seq<BikeStock.StationRow>): (r: seq<PredictionRow>)
    ensures |r| >= |preds|
    ensures BikeStock.UniqueIds(stations) ==>
              |r| == |preds| &&
              forall i :: 0 <= i < |preds| ==> r[i] == Attach(preds[i], BikeStock.Lookup(stations, preds[i].stationId))
  {
    if |preds| == 0 then []
    else MergeOne(preds[0], stations) + MergeStations(preds[1..], stations)
  }

  /**
   * The order of `sort_values(['longitude', 'latitude'], ascending=(True, False))`:
   * longitude ascending, then latitude descending, a missing value last in
   * both keys.
   */
  predicate LonLatLe(a: PredictionRow, b: PredictionRow)
  {
    if a.longitude != b.longitude then
      a.longitude.Some? && (b.longitude.None? || a.longitude.value < b.longitude.value)
    else
      b.latitude.None? || (a.latitude.Some? && a.latitude.value >= b.latitude.value)
  }

  lemma LonLatLeIsTotalPreorder()
    ensures TotalPreorder(LonLatLe)
  {
  }

  /** `prediction_df`: the merged rows, sorted. */
  function AssemblePredictions(preds: seq<ForecastRecord>, stations: seq<BikeStock.StationRow>)
    : (r: seq<PredictionRow>)
    ensures multiset(r) == multiset(MergeStations(preds, stations))
    ensures SortedBy(r, LonLatLe)
  {
    LonLatLeIsTotalPreorder();
    InsertionSort(MergeStations(preds, stations), LonLatLe)
  }

  /**
   * In the assembled table, a row with a smaller longitude comes first; at an
   * equal longitude, a row with a larger latitude comes first.
   */
  lemma AssembledOrder(preds: seq<ForecastRecord>, stations: seq<BikeStock.StationRow>, i: nat, j: nat)
    requires var r := AssemblePredictions(preds, stations);
             i < j < |r| && r[i].longitude.Some? && r[j].longitude.Some? && r[i].latitude.Some? && r[j].latitude.Some?
    ensures var r := AssemblePredictions(preds, stations);
            r[i].longitude.value < r[j].longitude.value ||
            (r[i].longitude.value == r[j].longitude.value && r[i].latitude.value >= r[j].latitude.value)
  {
  }

  /** A station further west (longitude -74.0) is listed before one at -73.9. */
  lemma AssembleExample()
    ensures var west := BikeStock.StationRow(1, Some("A"), Some(40.7), Some(-74.0), Some(10));
            var east := BikeStock.StationRow(2, Some("B"), Some(40.8), Some(-73.9), Some(10));
            var p1 := ForecastRecord(1, 18718, 0, 5);
            var p2 := ForecastRecord(2, 18718, 0, 7);
            AssemblePredictions([p2, p1], [east, west]) == [Attach(p1, Some(west)), Attach(p2, Some(east))]
  {
    var west := BikeStock.StationRow(1, Some("A"), Some(40.7), Some(-74.0), Some(10));
    var east := BikeStock.StationRow(2, Some("B"), Some(40.8), Some(-73.9), Some(10));
    var p1 := ForecastRecord(1, 18718, 0, 5);
    var p2 := ForecastRecord(2, 18718, 0, 7);
    assert BikeStock.Lookup([east, west], 1) == Some(west);
    assert BikeStock.Lookup([east, west], 2) == Some(east);
    assert BikeStock.UniqueIds([east, west]);
    var merged := MergeStations([p2, p1], [east, west]);
    assert merged == [Attach(p2, Some(east)), Attach(p1, Some(west))];
    assert !LonLatLe(merged[0], merged[1]);
  }
}
