/**
 * `process_bike_data`: turns hourly inflow/outflow counts per station into
 * an hourly estimate of the number of bikes docked at each station.
 *
 * The flow rows are left-joined to the station table, sorted by
 * (station, date, hour), and the station metadata is forward- then
 * back-filled within each station. Each row is then given a seed: the
 * first hour of a (station, date) group gets `round(capacity * proportion)`
 * (the overnight rebalancing), every other row the net flow
 * (`outflows - inflows`) of the row just before it in sorted order. The
 * stock is the running sum of the seeds within each (station, date) group.
 * Finally the hour is folded into the timestamp and rows with a missing
 * value are dropped.
 *
 * Dates are day numbers, hours integers, timestamps minutes (see Months);
 * pandas nulls are `None`.
 */
module BikeStock {
  import opened Wrappers
  import opened Sorting
  import Months

  /** One row of the trips table: the flows of one station in one hour. */
  datatype FlowRow = FlowRow(stationId: int, date: int, hour: int, inflows: int, outflows: int)

  /** One row of the stations table; any of its fields may be missing. */
  datatype StationRow = StationRow(
    stationId: int,
    name: Option<string>,
    latitude: Option<real>,
    longitude: Option<real>,
    capacity: Option<int>)

  /** An input argument: a DataFrame, or some other value. */
  datatype Table<R> = Frame(rows: seq<R>) | NotAFrame

  /** A flow row after the left join, with the station's metadata or nulls. */
  datatype Joined = Joined(
    stationId: int,
    date: int,
    hour: int,
    inflows: int,
    outflows: int,
    name: Option<string>,
    latitude: Option<real>,
    longitude: Option<real>,
    capacity: Option<int>)

  /** One row of the result: the estimated stock of a station at an hour. */
  datatype StockPoint = StockPoint(
    stationId: int,
    timestamp: int,
    name: string,
    latitude: real,
    longitude: real,
    stock: int)

  /** An argument is not a DataFrame: the error is logged and the process exits with status 1. */
  datatype ProcessError = NotADataFrame

  // ---------------------------------------------------------------------------
  // Left join on station_id

  predicate UniqueIds(stations: seq<StationRow>)
  {
    forall i, j :: 0 <= i < j < |stations| ==> stations[i].stationId != stations[j].stationId
  }

  /** The station rows whose id is `id`, in table order. */
  function StationsWithId(stations: seq<StationRow>, id: int): (r: seq<StationRow>)
    ensures forall k :: 0 <= k < |r| ==> r[k].stationId == id
    ensures |r| == 0 <==> Lookup(stations, id).None?
    ensures |r| > 0 ==> r[0] == Lookup(stations, id).value
  {
    if |stations| == 0 then []
    else if stations[0].stationId == id then [stations[0]] + StationsWithId(stations[1..], id)
    else StationsWithId(stations[1..], id)
  }

  /** `StationsWithId` keeps every station row with the id, as often as it occurs, and no other. */
  lemma {:induction false} StationsWithIdExact(stations: seq<StationRow>, id: int)
    ensures forall x :: multiset(StationsWithId(stations, id))[x] ==
                        if x.stationId == id then multiset(stations)[x] else 0
  {
    if |stations| > 0 {
      StationsWithIdExact(stations[1..], id);
      assert stations == [stations[0]] + stations[1..];
    }
  }

  /** The first station row with id `id`, if any. */
  function Lookup(stations: seq<StationRow>, id: int): (r: Option<StationRow>)
    ensures r.None? <==> forall j :: 0 <= j < |stations| ==> stations[j].stationId != id
    ensures r.Some? ==> r.value in stations && r.value.stationId == id
  {
    if |stations| == 0 then None
    else if stations[0].stationId == id then Some(stations[0])
    else
      var r := Lookup(stations[1..], id);
      assert forall j :: 1 <= j < |stations| ==> stations[j] == stations[1..][j - 1];
      r
  }

  /** With unique station ids, a flow row matches at most one station row. */
  lemma {:induction false} UniqueMatch(stations: seq<StationRow>, id: int)
    ensures UniqueIds(stations) ==> |StationsWithId(stations, id)| <= 1
  {
    if |stations| > 0 && UniqueIds(stations) {
      var tail := stations[1..];
      assert UniqueIds(tail) by {
        forall i, j | 0 <= i < j < |tail|
          ensures tail[i].stationId != tail[j].stationId
        {
          assert tail[i] == stations[i + 1] && tail[j] == stations[j + 1];
        }
      }
      if stations[0].stationId == id {
        forall j | 0 <= j < |tail|
          ensures tail[j].stationId != id
        {
          assert tail[j] == stations[j + 1];
        }
        assert Lookup(tail, id).None?;
      } else {
        UniqueMatch(tail, id);
      }
    }
  }

  function WithMeta(t: FlowRow, s: StationRow): Joined
  {
    Joined(t.stationId, t.date, t.hour, t.inflows, t.outflows, s.name, s.latitude, s.longitude, s.capacity)
  }

  function WithoutMeta(t: FlowRow): Joined
  {
    Joined(t.stationId, t.date, t.hour, t.inflows, t.outflows, None, None, None, None)
  }

  /** The flow row joined to `s`, or to nulls when there is no station row. */
  function Combine(t: FlowRow, s: Option<StationRow>): Joined
  {
    match s
    case Some(st) => WithMeta(t, st)
    case None => WithoutMeta(t)
  }

  /** The rows a left merge makes of one flow row: one per matching station row, or one with nulls. */
  function JoinOne(t: FlowRow, stations: seq<StationRow>): (r: seq<Joined>)
    ensures |r| >= 1
    ensures UniqueIds(stations) ==> r == [Combine(t, Lookup(stations, t.stationId))]
  {
    var matches := StationsWithId(stations, t.stationId);
    UniqueMatch(stations, t.stationId);
    if |matches| == 0 then [WithoutMeta(t)]
    else seq(|matches|, k requires 0 <= k < |matches| => WithMeta(t, matches[k]))
  }

  /**
   * `pd.merge(trips, stations, how='left', on='station_id')`. When station ids
   * are unique it keeps one row per flow row, in order, each carrying the
   * metadata of its station or nulls.
   */
  function LeftJoin(trips: seq<FlowRow>, stations: seq<StationRow>): (r: seq<Joined>)
    ensures |r| >= |trips|
    ensures UniqueIds(stations) ==>
              |r| == |trips| &&
              forall i :: 0 <= i < |trips| ==> r[i] == Combine(trips[i], Lookup(stations, trips[i].stationId))
  {
    if |trips| == 0 then []
    else JoinOne(trips[0], stations) + LeftJoin(trips[1..], stations)
  }

  // ---------------------------------------------------------------------------
  // Sorting by (station_id, date, hour)

  /** The order of `sort_values(['station_id', 'date', 'hour'])`. */
  predicate RowLe(a: Joined, b: Joined)
  {
    || a.stationId < b.stationId
    || (a.stationId == b.stationId && (a.date < b.date || (a.date == b.date && a.hour <= b.hour)))
  }

  lemma RowLeIsTotalPreorder()
    ensures TotalPreorder(RowLe)
  {
  }

  function SortRows(rows: seq<Joined>): (r: seq<Joined>)
    ensures multiset(r) == multiset(rows) && SortedBy(r, RowLe)
  {
    RowLeIsTotalPreorder();
    InsertionSort(rows, RowLe)
  }

  // ---------------------------------------------------------------------------
  // Forward then backward fill of the metadata within each station

  /** The value carried for group `key`, if any. */
  function Carried<T>(carried: map<int, T>, key: int): Option<T>
  {
    if key in carried then Some(carried[key]) else None
  }

  /** The carried values after an entry of group `key`: a present entry replaces the group's value. */
  function Carry<T>(key: int, c: Option<T>, carried: map<int, T>): map<int, T>
  {
    if c.Some? then carried[key := c.value] else carried
  }

  /**
   * The reference for `ffill`: the last present value of group `key` among
   * the first `n` entries, or else the value `last` carries for the group.
   */
  function LastSeen<T>(keys: seq<int>, col: seq<Option<T>>, last: map<int, T>, key: int, n: nat): Option<T>
    requires |keys| == |col| && n <= |col|
  {
    if n == 0 then Carried(last, key)
    else if keys[n - 1] == key && col[n - 1].Some? then col[n - 1]
    else LastSeen(keys, col, last, key, n - 1)
  }

  /**
   * The reference for `bfill`: the first present value of group `key` at
   * entries `n` onwards, or else the value `next` carries for the group.
   */
  function NextSeen<T>(keys: seq<int>, col: seq<Option<T>>, next: map<int, T>, key: int, n: nat): Option<T>
    requires |keys| == |col| && n <= |col|
    decreases |col| - n
  {
    if n == |col| then Carried(next, key)
    else if keys[n] == key && col[n].Some? then col[n]
    else NextSeen(keys, col, next, key, n + 1)
  }

  /** Dropping the first entry and carrying it moves the window of `LastSeen` by one. */
  lemma {:induction false} LastSeenShift<T>(keys: seq<int>, col: seq<Option<T>>, last: map<int, T>, key: int, m: nat)
    requires |keys| == |col| && m < |col|
    ensures LastSeen(keys[1..], col[1..], Carry(keys[0], col[0], last), key, m) == LastSeen(keys, col, last, key, m + 1)
  {
    if m > 0 {
      LastSeenShift(keys, col, last, key, m - 1);
      assert keys[1..][m - 1] == keys[m] && col[1..][m - 1] == col[m];
    }
  }

  /** Dropping the last entry and carrying it leaves `NextSeen` unchanged on the rest. */
  lemma {:induction false} NextSeenShift<T>(keys: seq<int>, col: seq<Option<T>>, next: map<int, T>, key: int, m: nat)
    requires |keys| == |col| && m < |col|
    ensures var n := |col| - 1;
            NextSeen(keys[..n], col[..n], Carry(keys[n], col[n], next), key, m) == NextSeen(keys, col, next, key, m)
    decreases |col| - m
  {
    var n := |col| - 1;
    if m < n {
      NextSeenShift(keys, col, next, key, m + 1);
      assert keys[..n][m] == keys[m] && col[..n][m] == col[m];
    }
  }

  /**
   * `ffill` within groups: a null takes the last value seen earlier in its
   * group; `last` holds, per group key, the value to carry.
   */
  function FillForward<T>(keys: seq<int>, col: seq<Option<T>>, last: map<int, T>): (r: seq<Option<T>>)
    requires |keys| == |col|
    ensures |r| == |col|
    ensures forall i :: 0 <= i < |col| && col[i].Some? ==> r[i] == col[i]
    decreases |col|
  {
    if |col| == 0 then []
    else
      var v := if col[0].Some? then col[0] else Carried(last, keys[0]);
      [v] + FillForward(keys[1..], col[1..], Carry(keys[0], col[0], last))
  }

  /** `bfill` within groups: a null takes the next value found later in its group. */
  function FillBackward<T>(keys: seq<int>, col: seq<Option<T>>, next: map<int, T>): (r: seq<Option<T>>)
    requires |keys| == |col|
    ensures |r| == |col|
    ensures forall i :: 0 <= i < |col| && col[i].Some? ==> r[i] == col[i]
    decreases |col|
  {
    if |col| == 0 then []
    else
      var n := |col| - 1;
      var v := if col[n].Some? then col[n] else Carried(next, keys[n]);
      FillBackward(keys[..n], col[..n], Carry(keys[n], col[n], next)) + [v]
  }

  /** `ffill` gives every entry the last present value of its group up to it, or the carried one. */
  lemma {:induction false} FillForwardIsLastSeen<T>(keys: seq<int>, col: seq<Option<T>>, last: map<int, T>, i: nat)
    requires |keys| == |col| && i < |col|
    ensures FillForward(keys, col, last)[i] == LastSeen(keys, col, last, keys[i], i + 1)
    decreases |col|
  {
    if i > 0 {
      FillForwardIsLastSeen(keys[1..], col[1..], Carry(keys[0], col[0], last), i - 1);
      LastSeenShift(keys, col, last, keys[i], i);
    }
  }

  /** `bfill` gives every entry the first present value of its group from it on, or the carried one. */
  lemma {:induction false} FillBackwardIsNextSeen<T>(keys: seq<int>, col: seq<Option<T>>, next: map<int, T>, i: nat)
    requires |keys| == |col| && i < |col|
    ensures FillBackward(keys, col, next)[i] == NextSeen(keys, col, next, keys[i], i)
    decreases |col|
  {
    var n := |col| - 1;
    if i < n {
      FillBackwardIsNextSeen(keys[..n], col[..n], Carry(keys[n], col[n], next), i);
      NextSeenShift(keys, col, next, keys[i], i);
    }
  }

  /** `groupby(keys)[col].transform(lambda x: x.ffill().bfill())`. */
  function FillGroups<T>(keys: seq<int>, col: seq<Option<T>>): (r: seq<Option<T>>)
    requires |keys| == |col|
    ensures |r| == |col|
    ensures forall i :: 0 <= i < |col| && col[i].Some? ==> r[i] == col[i]
  {
    FillBackward(keys, FillForward(keys, col, map[]), map[])
  }

  /**
   * After ffill then bfill, an entry holds the last present value of its
   * group up to it, or when there is none the first present value of its
   * group after it.
   */
  lemma FillGroupsValue<T>(keys: seq<int>, col: seq<Option<T>>, i: nat)
    requires |keys| == |col| && i < |col|
    ensures FillGroups(keys, col)[i] ==
              if LastSeen(keys, col, map[], keys[i], i + 1).Some?
              then LastSeen(keys, col, map[], keys[i], i + 1)
              else NextSeen(keys, col, map[], keys[i], i)
  {
    var forward := FillForward(keys, col, map[]);
    FillForwardIsLastSeen(keys, col, map[], i);
    FillBackwardIsNextSeen(keys, forward, map[], i);
    if forward[i].None? {
      NextSeenAfterNone(keys, col, keys[i], i);
    }
  }

  /**
   * Where a group has no present value up to entry `m`, `bfill` of the
   * forward-filled column finds the same value as `bfill` of the column.
   */
  lemma {:induction false} NextSeenAfterNone<T>(keys: seq<int>, col: seq<Option<T>>, key: int, m: nat)
    requires |keys| == |col| && m <= |col| && LastSeen(keys, col, map[], key, m).None?
    ensures NextSeen(keys, FillForward(keys, col, map[]), map[], key, m) == NextSeen(keys, col, map[], key, m)
    decreases |col| - m
  {
    if m < |col| {
      FillForwardIsLastSeen(keys, col, map[], m);
      if !(keys[m] == key && col[m].Some?) {
        NextSeenAfterNone(keys, col, key, m + 1);
      }
    }
  }

  /** A value `LastSeen` finds with nothing carried is a present value of the group. */
  lemma {:induction false} LastSeenFrom<T>(keys: seq<int>, col: seq<Option<T>>, key: int, n: nat) returns (j: nat)
    requires |keys| == |col| && n <= |col| && LastSeen(keys, col, map[], key, n).Some?
    ensures j < n && keys[j] == key && col[j] == LastSeen(keys, col, map[], key, n)
  {
    if keys[n - 1] == key && col[n - 1].Some? {
      j := n - 1;
    } else {
      j := LastSeenFrom(keys, col, key, n - 1);
    }
  }

  /** A value `NextSeen` finds with nothing carried is a present value of the group. */
  lemma {:induction false} NextSeenFrom<T>(keys: seq<int>, col: seq<Option<T>>, key: int, n: nat) returns (j: nat)
    requires |keys| == |col| && n <= |col| && NextSeen(keys, col, map[], key, n).Some?
    ensures n <= j < |col| && keys[j] == key && col[j] == NextSeen(keys, col, map[], key, n)
    decreases |col| - n
  {
    if keys[n] == key && col[n].Some? {
      j := n;
    } else {
      j := NextSeenFrom(keys, col, key, n + 1);
    }
  }

  /** Filling invents nothing: a filled value is the value of some entry of the same group. */
  lemma FillGroupsFrom<T>(keys: seq<int>, col: seq<Option<T>>, i: nat) returns (j: nat)
    requires |keys| == |col| && i < |col| && FillGroups(keys, col)[i].Some?
    ensures j < |col| && keys[j] == keys[i] && col[j] == FillGroups(keys, col)[i]
  {
    FillGroupsValue(keys, col, i);
    if LastSeen(keys, col, map[], keys[i], i + 1).Some? {
      j := LastSeenFrom(keys, col, keys[i], i + 1);
    } else {
      j := NextSeenFrom(keys, col, keys[i], i);
    }
  }

  lemma {:induction false} FillForwardSeen<T>(keys: seq<int>, col: seq<Option<T>>, last: map<int, T>, i: nat)
    requires |keys| == |col| && i < |col| && keys[i] in last
    ensures FillForward(keys, col, last)[i].Some?
    decreases |col|
  {
    if i > 0 {
      FillForwardSeen(keys[1..], col[1..], Carry(keys[0], col[0], last), i - 1);
    }
  }

  /** After `ffill`, a row is filled when an earlier (or the same) row of its group had a value. */
  lemma {:induction false} FillForwardFrom<T>(keys: seq<int>, col: seq<Option<T>>, last: map<int, T>, j: nat, i: nat)
    requires |keys| == |col| && j <= i < |col| && keys[j] == keys[i] && col[j].Some?
    ensures FillForward(keys, col, last)[i].Some?
    decreases |col|
  {
    var last' := Carry(keys[0], col[0], last);
    if j == 0 {
      if i > 0 {
        FillForwardSeen(keys[1..], col[1..], last', i - 1);
      }
    } else {
      FillForwardFrom(keys[1..], col[1..], last', j - 1, i - 1);
    }
  }

  lemma {:induction false} FillBackwardSeen<T>(keys: seq<int>, col: seq<Option<T>>, next: map<int, T>, i: nat)
    requires |keys| == |col| && i < |col| && keys[i] in next
    ensures FillBackward(keys, col, next)[i].Some?
    decreases |col|
  {
    var n := |col| - 1;
    if i < n {
      FillBackwardSeen(keys[..n], col[..n], Carry(keys[n], col[n], next), i);
    }
  }

  /** After `bfill`, a row is filled when a later (or the same) row of its group had a value. */
  lemma {:induction false} FillBackwardFrom<T>(keys: seq<int>, col: seq<Option<T>>, next: map<int, T>, j: nat, i: nat)
    requires |keys| == |col| && i <= j < |col| && keys[j] == keys[i] && col[j].Some?
    ensures FillBackward(keys, col, next)[i].Some?
    decreases |col|
  {
    var n := |col| - 1;
    var next' := Carry(keys[n], col[n], next);
    if j == n {
      if i < n {
        FillBackwardSeen(keys[..n], col[..n], next', i);
      }
    } else {
      FillBackwardFrom(keys[..n], col[..n], next', j, i);
    }
  }

  /** After ffill then bfill, every row of a group that has a value somewhere has a value. */
  lemma FillGroupsComplete<T>(keys: seq<int>, col: seq<Option<T>>, j: nat, i: nat)
    requires |keys| == |col| && j < |col| && i < |col| && keys[j] == keys[i] && col[j].Some?
    ensures FillGroups(keys, col)[i].Some?
  {
    var forward := FillForward(keys, col, map[]);
    if j <= i {
      FillForwardFrom(keys, col, map[], j, i);
    } else {
      FillBackwardFrom(keys, forward, map[], j, i);
    }
  }

  function StationIds(rows: seq<Joined>): (ids: seq<int>)
    ensures |ids| == |rows| && forall i :: 0 <= i < |rows| ==> ids[i] == rows[i].stationId
  {
    seq(|rows|, i requires 0 <= i < |rows| => rows[i].stationId)
  }

  /** `process_bike_data`'s fill: name, latitude, longitude and capacity each filled within each station. */
  function FillStationMeta(rows: seq<Joined>): (r: seq<Joined>)
    ensures |r| == |rows|
    ensures forall i :: 0 <= i < |rows| ==>
              && r[i].stationId == rows[i].stationId && r[i].date == rows[i].date
              && r[i].hour == rows[i].hour && r[i].inflows == rows[i].inflows
              && r[i].outflows == rows[i].outflows
    ensures forall i :: 0 <= i < |rows| ==>
              && (rows[i].name.Some? ==> r[i].name == rows[i].name)
              && (rows[i].latitude.Some? ==> r[i].latitude == rows[i].latitude)
              && (rows[i].longitude.Some? ==> r[i].longitude == rows[i].longitude)
              && (rows[i].capacity.Some? ==> r[i].capacity == rows[i].capacity)
  {
    var ids := StationIds(rows);
    var names := FillGroups(ids, Names(rows));
    var lats := FillGroups(ids, Latitudes(rows));
    var lons := FillGroups(ids, Longitudes(rows));
    var caps := FillGroups(ids, Capacities(rows));
    seq(|rows|, i requires 0 <= i < |rows| =>
      rows[i].(name := names[i], latitude := lats[i], longitude := lons[i], capacity := caps[i]))
  }

  function Names(rows: seq<Joined>): (col: seq<Option<string>>)
    ensures |col| == |rows| && forall i :: 0 <= i < |rows| ==> col[i] == rows[i].name
  {
    seq(|rows|, i requires 0 <= i < |rows| => rows[i].name)
  }

  function Latitudes(rows: seq<Joined>): (col: seq<Option<real>>)
    ensures |col| == |rows| && forall i :: 0 <= i < |rows| ==> col[i] == rows[i].latitude
  {
    seq(|rows|, i requires 0 <= i < |rows| => rows[i].latitude)
  }

  function Longitudes(rows: seq<Joined>): (col: seq<Option<real>>)
    ensures |col| == |rows| && forall i :: 0 <= i < |rows| ==> col[i] == rows[i].longitude
  {
    seq(|rows|, i requires 0 <= i < |rows| => rows[i].longitude)
  }

  function Capacities(rows: seq<Joined>): (col: seq<Option<int>>)
    ensures |col| == |rows| && forall i :: 0 <= i < |rows| ==> col[i] == rows[i].capacity
  {
    seq(|rows|, i requires 0 <= i < |rows| => rows[i].capacity)
  }

  /**
   * The fill invents no metadata: a name, latitude, longitude or capacity a
   * row has after the fill is that of some row of the same station.
   */
  lemma FillStationMetaFrom(rows: seq<Joined>, i: nat)
    requires i < |rows|
    ensures var r := FillStationMeta(rows);
            && (r[i].name.Some? ==>
                  exists j :: 0 <= j < |rows| && rows[j].stationId == rows[i].stationId && rows[j].name == r[i].name)
            && (r[i].latitude.Some? ==>
                  exists j :: 0 <= j < |rows| && rows[j].stationId == rows[i].stationId && rows[j].latitude == r[i].latitude)
            && (r[i].longitude.Some? ==>
                  exists j :: 0 <= j < |rows| && rows[j].stationId == rows[i].stationId && rows[j].longitude == r[i].longitude)
            && (r[i].capacity.Some? ==>
                  exists j :: 0 <= j < |rows| && rows[j].stationId == rows[i].stationId && rows[j].capacity == r[i].capacity)
  {
    var r := FillStationMeta(rows);
    var ids := StationIds(rows);
    if r[i].name.Some? {
      var j := FillGroupsFrom(ids, Names(rows), i);
    }
    if r[i].latitude.Some? {
      var j := FillGroupsFrom(ids, Latitudes(rows), i);
    }
    if r[i].longitude.Some? {
      var j := FillGroupsFrom(ids, Longitudes(rows), i);
    }
    if r[i].capacity.Some? {
      var j := FillGroupsFrom(ids, Capacities(rows), i);
    }
  }

  /**
   * After the fill, every row of a station carries name, latitude,
   * longitude and capacity if any row of that station had them.
   */
  lemma FillStationMetaComplete(rows: seq<Joined>, j: nat, i: nat)
    requires j < |rows| && i < |rows| && rows[j].stationId == rows[i].stationId
    ensures var r := FillStationMeta(rows);
            && (rows[j].name.Some? ==> r[i].name.Some?)
            && (rows[j].latitude.Some? ==> r[i].latitude.Some?)
            && (rows[j].longitude.Some? ==> r[i].longitude.Some?)
            && (rows[j].capacity.Some? ==> r[i].capacity.Some?)
  {
    var ids := StationIds(rows);
    if rows[j].name.Some? { FillGroupsComplete(ids, Names(rows), j, i); }
    if rows[j].latitude.Some? { FillGroupsComplete(ids, Latitudes(rows), j, i); }
    if rows[j].longitude.Some? { FillGroupsComplete(ids, Longitudes(rows), j, i); }
    if rows[j].capacity.Some? { FillGroupsComplete(ids, Capacities(rows), j, i); }
  }

  /** With every row's metadata present, the fill changes nothing. */
  lemma FillStationMetaKeeps(rows: seq<Joined>)
    requires forall i :: 0 <= i < |rows| ==>
               rows[i].name.Some? && rows[i].latitude.Some? && rows[i].longitude.Some? && rows[i].capacity.Some?
    ensures FillStationMeta(rows) == rows
  {
    var r := FillStationMeta(rows);
    forall i | 0 <= i < |rows|
      ensures r[i] == rows[i]
    {
      assert r[i] == Joined(rows[i].stationId, rows[i].date, rows[i].hour, rows[i].inflows, rows[i].outflows,
                            rows[i].name, rows[i].latitude, rows[i].longitude, rows[i].capacity);
    }
  }

  /** `process_bike_data` up to the fill: join, sort and fill. */
  function Prepare(trips: seq<FlowRow>, stations: seq<StationRow>): (rows: seq<Joined>)
  {
    FillStationMeta(SortRows(LeftJoin(trips, stations)))
  }

  /** The rows come out of the preparation ordered by (station_id, date, hour). */
  lemma PreparedSorted(trips: seq<FlowRow>, stations: seq<StationRow>)
    ensures SortedBy(Prepare(trips, stations), RowLe)
  {
    var sorted := SortRows(LeftJoin(trips, stations));
    var rows := Prepare(trips, stations);
    forall i, j | 0 <= i < j < |rows|
      ensures RowLe(rows[i], rows[j])
    {
      assert RowLe(sorted[i], sorted[j]);
    }
  }

  // ---------------------------------------------------------------------------
  // Seeds and the daily running sum

  function NetFlow(r: Joined): int { r.outflows - r.inflows }

  /**
   * numpy's `round`: to the nearest integer, halves to the even neighbour.
   */
  function RoundHalfEven(x: real): (n: int)
    ensures -0.5 <= n as real - x <= 0.5
    ensures (n as real - x == 0.5 || x - n as real == 0.5) ==> n % 2 == 0
  {
    var f := x.Floor;
    var frac := x - f as real;
    if frac < 0.5 then f
    else if frac > 0.5 then f + 1
    else if f % 2 == 0 then f else f + 1
  }

  /** The stock after the overnight rebalancing: `round(capacity * proportion)`. */
  function Rebalanced(capacity: int, proportion: real): int
  {
    RoundHalfEven(capacity as real * proportion)
  }

  /** The (station_id, date) group of a row. */
  function DayKey(r: Joined): (int, int) { (r.stationId, r.date) }

  /** `groupby(['station_id', 'date'])['hour'].transform('min')` at a group. */
  function MinHour(rows: seq<Joined>, key: (int, int)): (m: Option<int>)
    ensures m.None? <==> forall j :: 0 <= j < |rows| ==> DayKey(rows[j]) != key
    ensures m.Some? ==> forall j :: 0 <= j < |rows| && DayKey(rows[j]) == key ==> m.value <= rows[j].hour
  {
    if |rows| == 0 then None
    else
      var rest := MinHour(rows[1..], key);
      assert forall j :: 1 <= j < |rows| ==> rows[j] == rows[1..][j - 1];
      if DayKey(rows[0]) != key then rest
      else if rest.Some? && rest.value < rows[0].hour then rest
      else Some(rows[0].hour)
  }

  /** The smallest hour of a group is the hour of one of its rows. */
  lemma {:induction false} MinHourAttained(rows: seq<Joined>, key: (int, int)) returns (j: nat)
    requires MinHour(rows, key).Some?
    ensures j < |rows| && DayKey(rows[j]) == key && MinHour(rows, key).value == rows[j].hour
  {
    var rest := MinHour(rows[1..], key);
    if DayKey(rows[0]) != key || (rest.Some? && rest.value < rows[0].hour) {
      j := MinHourAttained(rows[1..], key);
      j := j + 1;
    } else {
      j := 0;
    }
  }

  /**
   * `process_bike_data`'s seed column: the first hour of a (station, date) group gets
   * `round(capacity * proportion)`; any other row gets `net_flows.shift()`,
   * the net flow of the row just before it (null for the very first row).
   */
  function SeedAt(rows: seq<Joined>, i: nat, proportion: real): Option<int>
    requires i < |rows|
  {
    if MinHour(rows, DayKey(rows[i])) == Some(rows[i].hour) then
      match rows[i].capacity
      case Some(c) => Some(Rebalanced(c, proportion))
      case None => None
    else if i == 0 then None
    else Some(NetFlow(rows[i - 1]))
  }

  function Seeds(rows: seq<Joined>, proportion: real): (s: seq<Option<int>>)
    ensures |s| == |rows|
  {
    seq(|rows|, i requires 0 <= i < |rows| => SeedAt(rows, i, proportion))
  }

  /** The sum of the non-null values among the first `n` whose key is `key`. */
  function GroupSum(keys: seq<(int, int)>, vals: seq<Option<int>>, key: (int, int), n: nat): int
    requires |keys| == |vals| && n <= |vals|
  {
    if n == 0 then 0
    else GroupSum(keys, vals, key, n - 1) + (if keys[n - 1] == key && vals[n - 1].Some? then vals[n - 1].value else 0)
  }

  /**
   * `groupby(keys)[vals].cumsum()`: the running sum within each group, where
   * a null stays null and is skipped by the sum.
   */
  function CumSum(keys: seq<(int, int)>, vals: seq<Option<int>>): (r: seq<Option<int>>)
    requires |keys| == |vals|
    ensures |r| == |vals|
    ensures forall i :: 0 <= i < |vals| ==> (r[i].Some? <==> vals[i].Some?)
  {
    seq(|vals|, i requires 0 <= i < |vals| =>
      if vals[i].Some? then Some(GroupSum(keys, vals, keys[i], i + 1)) else None)
  }

  lemma {:induction false} GroupSumAbsent(keys: seq<(int, int)>, vals: seq<Option<int>>, key: (int, int), n: nat)
    requires |keys| == |vals| && n <= |vals|
    requires forall j :: 0 <= j < n ==> keys[j] != key
    ensures GroupSum(keys, vals, key, n) == 0
  {
    if n > 0 {
      GroupSumAbsent(keys, vals, key, n - 1);
    }
  }

  /** The first value of a group is its own running sum. */
  lemma CumSumFirst(keys: seq<(int, int)>, vals: seq<Option<int>>, i: nat)
    requires |keys| == |vals| && i < |vals|
    requires forall j :: 0 <= j < i ==> keys[j] != keys[i]
    ensures CumSum(keys, vals)[i] == vals[i]
  {
    GroupSumAbsent(keys, vals, keys[i], i);
  }

  /** Two neighbours of one group: the later sum is the earlier one plus the later value. */
  lemma CumSumStep(keys: seq<(int, int)>, vals: seq<Option<int>>, i: nat)
    requires |keys| == |vals| && 0 < i < |vals| && keys[i - 1] == keys[i]
    requires vals[i - 1].Some? && vals[i].Some?
    ensures var r := CumSum(keys, vals);
            r[i] == Some(r[i - 1].value + vals[i].value)
  {
  }

  function DayKeys(rows: seq<Joined>): (keys: seq<(int, int)>)
    ensures |keys| == |rows| && forall i {:trigger keys[i]} :: 0 <= i < |rows| ==> keys[i] == DayKey(rows[i])
  {
    seq(|rows|, i requires 0 <= i < |rows| => DayKey(rows[i]))
  }

  /** `process_bike_data`'s stock column: the daily running sum of the seeds. */
  function Stocks(rows: seq<Joined>, proportion: real): (s: seq<Option<int>>)
    ensures |s| == |rows|
  {
    CumSum(DayKeys(rows), Seeds(rows, proportion))
  }

  /** A row that starts its (station, date) group in sorted order. */
  predicate StartsDay(rows: seq<Joined>, i: nat)
    requires i < |rows|
  {
    i == 0 || DayKey(rows[i - 1]) != DayKey(rows[i])
  }

  /**
   * Row `i` comes first among the rows of its (station, date) group, both
   * in position and in hour.
   */
  predicate FirstOfDay(rows: seq<Joined>, i: nat)
    requires i < |rows|
  {
    forall j :: 0 <= j < |rows| && DayKey(rows[j]) == DayKey(rows[i]) ==> i <= j && rows[i].hour <= rows[j].hour
  }

  /** In sorted rows, the row that starts a group is the first of its group. */
  lemma SortedDayStart(rows: seq<Joined>, i: nat)
    requires SortedBy(rows, RowLe) && i < |rows| && StartsDay(rows, i)
    ensures FirstOfDay(rows, i)
  {
    forall j | 0 <= j < |rows| && DayKey(rows[j]) == DayKey(rows[i])
      ensures i <= j && rows[i].hour <= rows[j].hour
    {
      if i < j {
        assert RowLe(rows[i], rows[j]);
      }
    }
  }

  /**
   * The first row of each (station, date) group holds the rebalanced stock
   * `round(capacity * proportion)` when its capacity is known.
   */
  lemma StockAtDayStart(rows: seq<Joined>, proportion: real, i: nat)
    requires i < |rows| && FirstOfDay(rows, i)
    requires rows[i].capacity.Some?
    ensures Stocks(rows, proportion)[i] == Some(Rebalanced(rows[i].capacity.value, proportion))
  {
    DayStartIsMinHour(rows, i);
    var seeds := Seeds(rows, proportion);
    assert seeds[i] == Some(Rebalanced(rows[i].capacity.value, proportion));
    CumSumFirst(DayKeys(rows), seeds, i);
  }

  /** The first row of a group holds the group's smallest hour. */
  lemma DayStartIsMinHour(rows: seq<Joined>, i: nat)
    requires i < |rows| && FirstOfDay(rows, i)
    ensures MinHour(rows, DayKey(rows[i])) == Some(rows[i].hour)
  {
    var j := MinHourAttained(rows, DayKey(rows[i]));
  }

  /**
   * Within a group, when the hour goes up from row `i - 1` to row `i`, the
   * stock at `i` is the stock at `i - 1` plus the net flow of row `i - 1`.
   */
  lemma StockStep(rows: seq<Joined>, proportion: real, i: nat)
    requires 0 < i < |rows|
    requires DayKey(rows[i - 1]) == DayKey(rows[i]) && rows[i - 1].hour < rows[i].hour
    requires Stocks(rows, proportion)[i - 1].Some?
    ensures var s := Stocks(rows, proportion);
            s[i] == Some(s[i - 1].value + NetFlow(rows[i - 1]))
  {
    var seeds := Seeds(rows, proportion);
    var keys := DayKeys(rows);
    SeedAfterFirstHour(rows, proportion, i);
    assert seeds[i - 1].Some?;
    assert keys[i - 1] == keys[i];
    CumSumStep(keys, seeds, i);
  }

  /** A row whose hour is above an earlier hour of its group is seeded with the previous row's net flow. */
  lemma SeedAfterFirstHour(rows: seq<Joined>, proportion: real, i: nat)
    requires 0 < i < |rows|
    requires DayKey(rows[i - 1]) == DayKey(rows[i]) && rows[i - 1].hour < rows[i].hour
    ensures Seeds(rows, proportion)[i] == Some(NetFlow(rows[i - 1]))
  {
    var m := MinHour(rows, DayKey(rows[i]));
    assert m.value <= rows[i - 1].hour;
    assert SeedAt(rows, i, proportion) == Some(NetFlow(rows[i - 1]));
  }

  /** The net flows of `rows[lo..hi]`. */
  function NetFlowSum(rows: seq<Joined>, lo: nat, hi: nat): int
    requires lo <= hi <= |rows|
    decreases hi - lo
  {
    if lo == hi then 0 else NetFlowSum(rows, lo, hi - 1) + NetFlow(rows[hi - 1])
  }

  /** Row `k` is in the same (station, date) group as row `k - 1`, at a later hour. */
  predicate HourAfter(rows: seq<Joined>, k: nat)
    requires 0 < k < |rows|
  {
    DayKey(rows[k - 1]) == DayKey(rows[k]) && rows[k - 1].hour < rows[k].hour
  }

  /** Row `k` of `s` adds the net flow of row `k - 1` to the value before it. */
  predicate AddsNetFlow(s: seq<Option<int>>, rows: seq<Joined>, k: nat)
    requires 0 < k < |s| && |s| == |rows|
  {
    s[k - 1].Some? ==> s[k] == Some(s[k - 1].value + NetFlow(rows[k - 1]))
  }

  /** A sequence that starts at `seed` and then adds net flows holds the seed plus their sum. */
  lemma {:induction false} AccumulatedNetFlow(s: seq<Option<int>>, rows: seq<Joined>, seed: int, g: nat, i: nat)
    requires |s| == |rows| && g <= i < |rows| && s[g] == Some(seed)
    requires forall k :: g < k <= i ==> AddsNetFlow(s, rows, k)
    ensures s[i] == Some(seed + NetFlowSum(rows, g, i))
    decreases i - g
  {
    if i > g {
      AccumulatedNetFlow(s, rows, seed, g, i - 1);
      assert AddsNetFlow(s, rows, i);
    }
  }

  /**
   * The closed form: when a group starts at row `g` and its hours strictly
   * increase up to row `i`, the stock at `i` is the rebalanced seed plus the
   * net flows of rows `g .. i - 1`.
   */
  lemma StockClosedForm(rows: seq<Joined>, proportion: real, g: nat, i: nat)
    requires g <= i < |rows| && FirstOfDay(rows, g)
    requires rows[g].capacity.Some?
    requires forall k :: g < k <= i ==> HourAfter(rows, k)
    ensures Stocks(rows, proportion)[i] ==
              Some(Rebalanced(rows[g].capacity.value, proportion) + NetFlowSum(rows, g, i))
  {
    StockAtDayStart(rows, proportion, g);
    StocksAddNetFlows(rows, proportion, g, i);
    AccumulatedNetFlow(Stocks(rows, proportion), rows, Rebalanced(rows[g].capacity.value, proportion), g, i);
  }

  lemma StocksAddNetFlows(rows: seq<Joined>, proportion: real, g: nat, i: nat)
    requires g <= i < |rows|
    requires forall k :: g < k <= i ==> HourAfter(rows, k)
    ensures forall k :: g < k <= i ==> AddsNetFlow(Stocks(rows, proportion), rows, k)
  {
    var s := Stocks(rows, proportion);
    forall k | g < k <= i
      ensures AddsNetFlow(s, rows, k)
    {
      if s[k - 1].Some? {
        assert HourAfter(rows, k);
        StockStep(rows, proportion, k);
      }
    }
  }

  /**
   * The closed form on rows sorted by (station, date, hour), as the prepared
   * rows are: within a group whose hours strictly increase, the stock is the
   * rebalanced stock plus the net flows of the group's earlier rows.
   */
  lemma SortedStockClosedForm(rows: seq<Joined>, proportion: real, g: nat, i: nat)
    requires SortedBy(rows, RowLe) && g <= i < |rows| && StartsDay(rows, g)
    requires rows[g].capacity.Some?
    requires forall k :: g < k <= i ==> HourAfter(rows, k)
    ensures Stocks(rows, proportion)[i] ==
              Some(Rebalanced(rows[g].capacity.value, proportion) + NetFlowSum(rows, g, i))
  {
    SortedDayStart(rows, g);
    StockClosedForm(rows, proportion, g, i);
  }

  // ---------------------------------------------------------------------------
  // Timestamps, column drop and dropna

  /** A row survives `dropna` when its name, coordinates and stock are all present. */
  predicate Complete(r: Joined, stock: Option<int>)
  {
    r.name.Some? && r.latitude.Some? && r.longitude.Some? && stock.Some?
  }

  /**
   * The result row of a complete row: the hour is folded into the date, and
   * the capacity, flow and hour columns are gone.
   */
  function PointOf(r: Joined, stock: Option<int>): StockPoint
    requires Complete(r, stock)
  {
    StockPoint(r.stationId, Months.Stamp(r.date, r.hour), r.name.value, r.latitude.value,
               r.longitude.value, stock.value)
  }

  /** The positions of the complete rows, ascending. */
  function CompleteRows(rows: seq<Joined>, stocks: seq<Option<int>>): (idx: seq<nat>)
    requires |rows| == |stocks|
    ensures forall k :: 0 <= k < |idx| ==> idx[k] < |rows| && Complete(rows[idx[k]], stocks[idx[k]])
    ensures forall i :: 0 <= i < |rows| && Complete(rows[i], stocks[i]) ==> i in idx
    ensures forall k, l :: 0 <= k < l < |idx| ==> idx[k] < idx[l]
  {
    if |rows| == 0 then []
    else
      var n := |rows| - 1;
      var initRows, initStocks := rows[..n], stocks[..n];
      var prev := CompleteRows(initRows, initStocks);
      assert forall i :: 0 <= i < n ==> initRows[i] == rows[i] && initStocks[i] == stocks[i];
      if Complete(rows[n], stocks[n]) then prev + [n] else prev
  }

  /**
   * `process_bike_data`, the last step: the hour is folded into the date,
   * the flow columns are dropped and rows with any null left are dropped.
   * There is one result row per complete row.
   */
  function DropIncomplete(rows: seq<Joined>, stocks: seq<Option<int>>): (out: seq<StockPoint>)
    requires |rows| == |stocks|
    ensures |out| <= |rows|
    ensures |out| == |CompleteRows(rows, stocks)|
  {
    if |rows| == 0 then []
    else
      var n := |rows| - 1;
      var prev := DropIncomplete(rows[..n], stocks[..n]);
      if Complete(rows[n], stocks[n]) then prev + [PointOf(rows[n], stocks[n])] else prev
  }

  /** The `k`-th result row is the result row of the `k`-th complete row. */
  lemma {:induction false} DropIncompleteAt(rows: seq<Joined>, stocks: seq<Option<int>>, k: nat)
    requires |rows| == |stocks| && k < |DropIncomplete(rows, stocks)|
    ensures var i := CompleteRows(rows, stocks)[k];
            DropIncomplete(rows, stocks)[k] == PointOf(rows[i], stocks[i])
  {
    var n := |rows| - 1;
    var prev := DropIncomplete(rows[..n], stocks[..n]);
    if k < |prev| {
      DropIncompleteAt(rows[..n], stocks[..n], k);
      var i := CompleteRows(rows[..n], stocks[..n])[k];
      assert rows[..n][i] == rows[i] && stocks[..n][i] == stocks[i];
    }
  }

  /** `process_bike_data`. */
  function ProcessBikeData(trips: Table<FlowRow>, stations: Table<StationRow>, proportion: real)
    : (r: Result<seq<StockPoint>, ProcessError>)
    ensures r.Err? <==> trips.NotAFrame? || stations.NotAFrame?
    ensures r.Ok? && UniqueIds(stations.rows) ==> |r.value| <= |trips.rows|
  {
    if trips.NotAFrame? || stations.NotAFrame? then Err(NotADataFrame)
    else
      var rows := Prepare(trips.rows, stations.rows);
      Ok(DropIncomplete(rows, Stocks(rows, proportion)))
  }

  /**
   * `out` holds exactly the complete rows: every row of `out` is the result
   * row of a complete row, and every complete row gives a row of `out`.
   */
  predicate ExactlyComplete(rows: seq<Joined>, stocks: seq<Option<int>>, out: seq<StockPoint>)
    requires |rows| == |stocks|
  {
    && (forall k :: 0 <= k < |out| ==>
          exists i :: 0 <= i < |rows| && Complete(rows[i], stocks[i]) && out[k] == PointOf(rows[i], stocks[i]))
    && (forall i :: 0 <= i < |rows| && Complete(rows[i], stocks[i]) ==> PointOf(rows[i], stocks[i]) in out)
  }

  /** `dropna` keeps exactly the complete rows. */
  lemma DropIncompletePoints(rows: seq<Joined>, stocks: seq<Option<int>>)
    requires |rows| == |stocks|
    ensures ExactlyComplete(rows, stocks, DropIncomplete(rows, stocks))
  {
    var out := DropIncomplete(rows, stocks);
    var idx := CompleteRows(rows, stocks);
    forall k | 0 <= k < |out|
      ensures exists i :: 0 <= i < |rows| && Complete(rows[i], stocks[i]) && out[k] == PointOf(rows[i], stocks[i])
    {
      DropIncompleteAt(rows, stocks, k);
      var i := idx[k];
      assert 0 <= i < |rows| && Complete(rows[i], stocks[i]) && out[k] == PointOf(rows[i], stocks[i]);
    }
    forall i | 0 <= i < |rows| && Complete(rows[i], stocks[i])
      ensures PointOf(rows[i], stocks[i]) in out
    {
      var k :| 0 <= k < |idx| && idx[k] == i;
      DropIncompleteAt(rows, stocks, k);
    }
  }

  /**
   * The result of `process_bike_data` is the complete prepared rows, each
   * with its stock.
   */
  lemma ProcessedPoints(trips: seq<FlowRow>, stations: seq<StationRow>, proportion: real)
    ensures var rows := Prepare(trips, stations);
            ExactlyComplete(rows, Stocks(rows, proportion), ProcessBikeData(Frame(trips), Frame(stations), proportion).value)
  {
    var rows := Prepare(trips, stations);
    DropIncompletePoints(rows, Stocks(rows, proportion));
  }

  /** When every row is complete nothing is dropped. */
  lemma {:induction false} DropNothing(rows: seq<Joined>, stocks: seq<Option<int>>)
    requires |rows| == |stocks| && forall i :: 0 <= i < |rows| ==> Complete(rows[i], stocks[i])
    ensures var out := DropIncomplete(rows, stocks);
            |out| == |rows| && forall i :: 0 <= i < |rows| ==> out[i] == PointOf(rows[i], stocks[i])
  {
    if |rows| > 0 {
      var n := |rows| - 1;
      assert forall i :: 0 <= i < n ==> rows[..n][i] == rows[i] && stocks[..n][i] == stocks[i];
      DropNothing(rows[..n], stocks[..n]);
    }
  }

  /** The (station_id, timestamp) order of result rows. */
  predicate PointLe(a: StockPoint, b: StockPoint)
  {
    a.stationId < b.stationId || (a.stationId == b.stationId && a.timestamp <= b.timestamp)
  }

  predicate HoursInDay(rows: seq<Joined>)
  {
    forall i :: 0 <= i < |rows| ==> 0 <= rows[i].hour < 24
  }

  /** With hours in 0..23 the (station, date, hour) order is the (station, timestamp) order. */
  lemma StampOrder(a: Joined, b: Joined)
    requires 0 <= a.hour < 24 && 0 <= b.hour < 24 && RowLe(a, b)
    ensures a.stationId < b.stationId ||
            (a.stationId == b.stationId && Months.Stamp(a.date, a.hour) <= Months.Stamp(b.date, b.hour))
  {
    if a.stationId == b.stationId && a.date < b.date {
      assert Months.Stamp(a.date, a.hour) < (a.date + 1) * Months.MinutesPerDay;
      assert (a.date + 1) * Months.MinutesPerDay <= b.date * Months.MinutesPerDay;
    }
  }

  /** Dropping rows keeps the order: sorted rows give sorted result rows. */
  lemma DropIncompleteSorted(rows: seq<Joined>, stocks: seq<Option<int>>)
    requires |rows| == |stocks| && HoursInDay(rows) && SortedBy(rows, RowLe)
    ensures SortedBy(DropIncomplete(rows, stocks), PointLe)
  {
    var out := DropIncomplete(rows, stocks);
    var idx := CompleteRows(rows, stocks);
    forall k, l | 0 <= k < l < |out|
      ensures PointLe(out[k], out[l])
    {
      DropIncompleteAt(rows, stocks, k);
      DropIncompleteAt(rows, stocks, l);
      assert RowLe(rows[idx[k]], rows[idx[l]]);
      StampOrder(rows[idx[k]], rows[idx[l]]);
    }
  }

  /**
   * The result is ordered by station and then time, when every hour is an
   * hour of the day.
   */
  lemma ProcessedRowsOrdered(trips: seq<FlowRow>, stations: seq<StationRow>, proportion: real)
    requires forall i :: 0 <= i < |trips| ==> 0 <= trips[i].hour < 24
    ensures SortedBy(ProcessBikeData(Frame(trips), Frame(stations), proportion).value, PointLe)
  {
    var joined := LeftJoin(trips, stations);
    JoinedHours(trips, stations);
    var sorted := SortRows(joined);
    forall i | 0 <= i < |sorted|
      ensures 0 <= sorted[i].hour < 24
    {
      assert sorted[i] in multiset(joined);
    }
    var rows := Prepare(trips, stations);
    PreparedSorted(trips, stations);
    DropIncompleteSorted(rows, Stocks(rows, proportion));
  }

  lemma {:induction false} JoinedHours(trips: seq<FlowRow>, stations: seq<StationRow>)
    requires forall i :: 0 <= i < |trips| ==> 0 <= trips[i].hour < 24
    ensures HoursInDay(LeftJoin(trips, stations))
  {
    if |trips| > 0 {
      var head := JoinOne(trips[0], stations);
      var rest := LeftJoin(trips[1..], stations);
      JoinedHours(trips[1..], stations);
      assert HoursInDay(head) by {
        var matches := StationsWithId(stations, trips[0].stationId);
        forall k | 0 <= k < |head|
          ensures 0 <= head[k].hour < 24
        {
          assert head[k].hour == trips[0].hour;
        }
      }
      assert LeftJoin(trips, stations) == head + rest;
      forall i | 0 <= i < |head + rest|
        ensures 0 <= (head + rest)[i].hour < 24
      {
        if i >= |head| {
          assert (head + rest)[i] == rest[i - |head|];
        }
      }
    }
  }

  // ---------------------------------------------------------------------------
  // The worked example: station 72 on one day, capacity 39, proportion 0.65

  /** Station 72 of the worked example. */
  const ExampleName: string := "W 52 St & 11 Ave"
  const ExampleLatitude: real := 40.76727216
  const ExampleLongitude: real := -73.99392888

  function ExampleRow(hour: int, inflows: int, outflows: int): Joined
  {
    Joined(72, 18322, hour, inflows, outflows,
           Some(ExampleName), Some(ExampleLatitude), Some(ExampleLongitude), Some(39))
  }

  /** Eight hours of flows of station 72 on 2020-03-01 (day 18322), joined and sorted. */
  function ExampleRows(): seq<Joined>
  {
    [ExampleRow(6, 1, 3), ExampleRow(9, 6, 3), ExampleRow(10, 2, 4), ExampleRow(11, 2, 2),
     ExampleRow(12, 3, 5), ExampleRow(13, 2, 3), ExampleRow(14, 4, 4), ExampleRow(15, 4, 4)]
  }

  /** `round(39 * 0.65)` is 25. */
  lemma RebalancedExample()
    ensures Rebalanced(39, 0.65) == 25
  {
    assert 39 as real * 0.65 == 25.35;
    assert 25.35.Floor == 25;
  }

  lemma MinHourExample()
    ensures MinHour(ExampleRows(), (72, 18322)) == Some(6)
  {
    var rows := ExampleRows();
    assert FirstOfDay(rows, 0);
    DayStartIsMinHour(rows, 0);
  }

  /** The rows are one day of one station, in strictly increasing hour order. */
  predicate OneDayInHourOrder(rows: seq<Joined>)
  {
    forall i :: 0 < i < |rows| ==> DayKey(rows[i - 1]) == DayKey(rows[i]) && rows[i - 1].hour < rows[i].hour
  }

  /** The first row of a day gets the rebalanced capacity. */
  lemma FirstSeedOfDay(rows: seq<Joined>, proportion: real, capacity: int)
    requires |rows| > 0 && rows[0].capacity == Some(capacity)
    requires MinHour(rows, DayKey(rows[0])) == Some(rows[0].hour)
    ensures Seeds(rows, proportion)[0] == Some(Rebalanced(capacity, proportion))
  {
    assert SeedAt(rows, 0, proportion) == Some(Rebalanced(capacity, proportion));
  }

  /** Within one day in hour order, every later row gets the previous row's net flow. */
  lemma SeedsAfterFirstHour(rows: seq<Joined>, proportion: real)
    requires OneDayInHourOrder(rows)
    ensures forall i :: 0 < i < |rows| ==> Seeds(rows, proportion)[i] == Some(NetFlow(rows[i - 1]))
  {
    forall i | 0 < i < |rows|
      ensures Seeds(rows, proportion)[i] == Some(NetFlow(rows[i - 1]))
    {
      SeedAfterFirstHour(rows, proportion, i);
    }
  }

  /** Past its first row, one day of one station in hour order has the seeds `expected`. */
  lemma SeedsOfOneDay(rows: seq<Joined>, proportion: real, expected: seq<Option<int>>)
    requires OneDayInHourOrder(rows) && |expected| == |rows|
    requires |rows| > 0 ==> expected[0] == Seeds(rows, proportion)[0]
    requires forall i :: 0 < i < |rows| ==> expected[i] == Some(NetFlow(rows[i - 1]))
    ensures Seeds(rows, proportion) == expected
  {
    SeedsAfterFirstHour(rows, proportion);
  }

  lemma ExampleOneDay()
    ensures OneDayInHourOrder(ExampleRows())
  {
    var rows := ExampleRows();
    assert DayKey(rows[0]) == DayKey(rows[1]) == DayKey(rows[2]) == DayKey(rows[3]) == (72, 18322);
    assert DayKey(rows[4]) == DayKey(rows[5]) == DayKey(rows[6]) == DayKey(rows[7]) == (72, 18322);
  }

  /** The seeds of the worked example. */
  function ExampleSeeds(): seq<Option<int>>
  {
    [Some(25), Some(2), Some(-3), Some(2), Some(0), Some(2), Some(1), Some(0)]
  }

  lemma ExampleSeedsAreNetFlows()
    ensures forall i :: 0 < i < |ExampleRows()| ==> ExampleSeeds()[i] == Some(NetFlow(ExampleRows()[i - 1]))
  {
    var rows := ExampleRows();
    var seeds := ExampleSeeds();
    forall i | 0 < i < |rows|
      ensures seeds[i] == Some(NetFlow(rows[i - 1]))
    {
      if i == 1 { assert NetFlow(rows[0]) == 2; }
      else if i == 2 { assert NetFlow(rows[1]) == -3; }
      else if i == 3 { assert NetFlow(rows[2]) == 2; }
      else if i == 4 { assert NetFlow(rows[3]) == 0; }
      else if i == 5 { assert NetFlow(rows[4]) == 2; }
      else if i == 6 { assert NetFlow(rows[5]) == 1; }
      else { assert NetFlow(rows[6]) == 0; }
    }
  }

  /** The seeds: 25 at six o'clock, then the previous hour's net flow. */
  lemma SeedsExample()
    ensures Seeds(ExampleRows(), 0.65) == ExampleSeeds()
  {
    RebalancedExample();
    MinHourExample();
    ExampleOneDay();
    ExampleSeedsAreNetFlows();
    FirstSeedOfDay(ExampleRows(), 0.65, 39);
    SeedsOfOneDay(ExampleRows(), 0.65, ExampleSeeds());
  }

  /** The stock of the example: 25, 27, 24, 26, 26, 28, 29, 29. */
  function ExampleStocks(): seq<Option<int>>
  {
    [Some(25), Some(27), Some(24), Some(26), Some(26), Some(28), Some(29), Some(29)]
  }

  lemma CumSumExample()
    ensures CumSum(DayKeys(ExampleRows()), ExampleSeeds()) == ExampleStocks()
  {
    var keys := DayKeys(ExampleRows());
    var vals := ExampleSeeds();
    assert forall j :: 0 <= j < 8 ==> keys[j] == (72, 18322);
    CumSumFirst(keys, vals, 0);
    CumSumStep(keys, vals, 1);
    CumSumStep(keys, vals, 2);
    CumSumStep(keys, vals, 3);
    CumSumStep(keys, vals, 4);
    CumSumStep(keys, vals, 5);
    CumSumStep(keys, vals, 6);
    CumSumStep(keys, vals, 7);
  }

  lemma StockExample()
    ensures Stocks(ExampleRows(), 0.65) == ExampleStocks()
  {
    SeedsExample();
    CumSumExample();
  }

  /** The flow columns of a joined row. */
  function FlowOf(r: Joined): FlowRow
  {
    FlowRow(r.stationId, r.date, r.hour, r.inflows, r.outflows)
  }

  /** The trips table of the worked example: the flow columns of its rows. */
  function ExampleTrips(): seq<FlowRow>
  {
    seq(|ExampleRows()|, k requires 0 <= k < |ExampleRows()| => FlowOf(ExampleRows()[k]))
  }

  /** The stations table of the worked example, without its dropped columns. */
  function ExampleStations(): seq<StationRow>
  {
    [StationRow(72, Some(ExampleName), Some(ExampleLatitude), Some(ExampleLongitude), Some(39)),
     StationRow(79, Some("Franklin St & W Broadway"), Some(40.71911552), Some(-74.00666661), Some(33)),
     StationRow(82, Some("St James Pl & Pearl St"), Some(40.71117416), Some(-74.00016545), Some(27)),
     StationRow(83, Some("Atlantic Ave & Fort Greene Pl"), Some(40.68382604), Some(-73.97632328), Some(62)),
     StationRow(116, Some("W 17 St & 8 Ave"), Some(40.74177603), Some(-74.00149746), Some(39)),
     StationRow(119, Some("Park Ave & St Edwards St"), Some(40.69608941), Some(-73.97803415), Some(19)),
     StationRow(120, Some("Lexington Ave & Classon Ave"), Some(40.68676793), Some(-73.95928168), Some(19)),
     StationRow(127, Some("Barrow St & Hudson St"), Some(40.73172428), Some(-74.00674436), Some(31))]
  }

  /** Flow rows that all belong to the first of uniquely numbered stations each get its metadata. */
  lemma JoinFirstStation(trips: seq<FlowRow>, stations: seq<StationRow>)
    requires |stations| > 0 && UniqueIds(stations)
    requires forall i :: 0 <= i < |trips| ==> trips[i].stationId == stations[0].stationId
    ensures LeftJoin(trips, stations) == seq(|trips|, i requires 0 <= i < |trips| => WithMeta(trips[i], stations[0]))
  {
    assert Lookup(stations, stations[0].stationId) == Some(stations[0]);
  }

  lemma ExampleStationsUnique()
    ensures UniqueIds(ExampleStations())
  {
  }

  /** Every example row is station 72 on day 18322 with the first station row's metadata. */
  lemma ExampleRowsMeta()
    ensures var st := ExampleStations()[0];
            forall i :: 0 <= i < |ExampleRows()| ==>
              && ExampleRows()[i].stationId == 72 && ExampleRows()[i].date == 18322
              && ExampleRows()[i].name == st.name && ExampleRows()[i].latitude == st.latitude
              && ExampleRows()[i].longitude == st.longitude && ExampleRows()[i].capacity == st.capacity
  {
  }

  /** Every flow row finds station 72, the first station row. */
  lemma JoinExample()
    ensures LeftJoin(ExampleTrips(), ExampleStations()) == ExampleRows()
  {
    ExampleRowsMeta();
    ExampleStationsUnique();
    JoinFirstStation(ExampleTrips(), ExampleStations());
  }

  /** Rows each in order with the next are in order. */
  lemma SortedByAdjacent(rows: seq<Joined>)
    requires forall k :: 0 < k < |rows| ==> RowLe(rows[k - 1], rows[k])
    ensures SortedBy(rows, RowLe)
  {
    forall i, j | 0 <= i < j < |rows|
      ensures RowLe(rows[i], rows[j])
    {
      AdjacentChain(rows, i, j);
    }
  }

  lemma {:induction false} AdjacentChain(rows: seq<Joined>, i: nat, j: nat)
    requires i <= j < |rows| && forall k :: 0 < k < |rows| ==> RowLe(rows[k - 1], rows[k])
    ensures RowLe(rows[i], rows[j])
    decreases j - i
  {
    if i < j {
      AdjacentChain(rows, i, j - 1);
      assert RowLe(rows[j - 1], rows[j]);
    }
  }

  /** A join that is already in order and carries every station's metadata comes out of preparation unchanged. */
  lemma PrepareKeepsJoined(trips: seq<FlowRow>, stations: seq<StationRow>, rows: seq<Joined>)
    requires LeftJoin(trips, stations) == rows && SortedBy(rows, RowLe)
    requires forall i :: 0 <= i < |rows| ==>
               rows[i].name.Some? && rows[i].latitude.Some? && rows[i].longitude.Some? && rows[i].capacity.Some?
    ensures Prepare(trips, stations) == rows
  {
    SortedUnchanged(rows, RowLe);
    assert SortRows(rows) == rows;
    FillStationMetaKeeps(rows);
  }

  lemma ExampleSorted()
    ensures SortedBy(ExampleRows(), RowLe)
  {
    var rows := ExampleRows();
    assert RowLe(rows[0], rows[1]) && RowLe(rows[1], rows[2]) && RowLe(rows[2], rows[3]) && RowLe(rows[3], rows[4]);
    assert RowLe(rows[4], rows[5]) && RowLe(rows[5], rows[6]) && RowLe(rows[6], rows[7]);
    SortedByAdjacent(rows);
  }

  /** The joined rows are already in order and complete, so sorting and filling keep them. */
  lemma PrepareExample()
    ensures Prepare(ExampleTrips(), ExampleStations()) == ExampleRows()
  {
    JoinExample();
    ExampleSorted();
    ExampleRowsMeta();
    PrepareKeepsJoined(ExampleTrips(), ExampleStations(), ExampleRows());
  }

  function ExamplePoint(hour: int, stock: int): StockPoint
  {
    StockPoint(72, Months.Stamp(18322, hour), ExampleName, ExampleLatitude, ExampleLongitude, stock)
  }

  /** The result of `process_bike_data` is `dropna` of the prepared rows and their stocks. */
  lemma ProcessedFrom(trips: seq<FlowRow>, stations: seq<StationRow>, proportion: real,
                      rows: seq<Joined>, stocks: seq<Option<int>>)
    requires Prepare(trips, stations) == rows && Stocks(rows, proportion) == stocks
    ensures ProcessBikeData(Frame(trips), Frame(stations), proportion) == Ok(DropIncomplete(rows, stocks))
  {
  }

  /** When every row is complete, `dropna` gives the rows' result rows. */
  lemma DropAllComplete(rows: seq<Joined>, stocks: seq<Option<int>>, expected: seq<StockPoint>)
    requires |rows| == |stocks| == |expected|
    requires forall i :: 0 <= i < |rows| ==> Complete(rows[i], stocks[i]) && expected[i] == PointOf(rows[i], stocks[i])
    ensures DropIncomplete(rows, stocks) == expected
  {
    DropNothing(rows, stocks);
  }

  /** The result rows the worked example expects. */
  function ExamplePoints(): seq<StockPoint>
  {
    [ExamplePoint(6, 25), ExamplePoint(9, 27), ExamplePoint(10, 24), ExamplePoint(11, 26),
     ExamplePoint(12, 26), ExamplePoint(13, 28), ExamplePoint(14, 29), ExamplePoint(15, 29)]
  }

  /** Every row of the worked example is complete, so `dropna` keeps all eight. */
  lemma DropExample()
    ensures DropIncomplete(ExampleRows(), ExampleStocks()) == ExamplePoints()
  {
    var rows := ExampleRows();
    var stocks := ExampleStocks();
    var expected := ExamplePoints();
    assert forall i :: 0 <= i < |rows| ==> Complete(rows[i], stocks[i]) && expected[i] == PointOf(rows[i], stocks[i]);
    DropAllComplete(rows, stocks, expected);
  }

  /** The whole of `process_bike_data` on the worked example's tables with proportion 0.65. */
  lemma ProcessExample()
    ensures ProcessBikeData(Frame(ExampleTrips()), Frame(ExampleStations()), 0.65) == Ok(ExamplePoints())
  {
    PrepareExample();
    StockExample();
    ProcessedFrom(ExampleTrips(), ExampleStations(), 0.65, ExampleRows(), ExampleStocks());
    DropExample();
  }
}
