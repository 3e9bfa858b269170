/**
 The three analyses of weatherProcessor.py over a table of readings: the
 reading with the lowest temperature, the station whose temperature
 fluctuates most (optionally within a date window), and the guarded,
 time-bounded form of the latter.
 */
module WeatherProcessor {
  import opened WeatherTypes
  import opened FluctuationSpec

  /**
   Reading k has the lowest temperature of the table, and no reading before
   it has that temperature.
   */
  predicate IsFirstMinimum(table: seq<Reading>, k: int)
  {
    && 0 <= k < |table|
    && (forall j :: 0 <= j < |table| ==> table[k].temp <= table[j].temp)
    && (forall j :: 0 <= j < k ==> table[k].temp < table[j].temp)
  }

  /**
   The station id and date of the coldest reading; on equal temperatures the
   earliest such reading wins, since a reading replaces the current minimum
   only when it is strictly colder. An empty table has no answer.
   */
  method MinimumTemperatureStation(table: seq<Reading>) returns (stationId: int, date: real)
    requires |table| > 0
    ensures exists k :: IsFirstMinimum(table, k) && table[k].id == stationId && table[k].date == date
  {
    // The scan starts from an infinite minimum, which the first reading always replaces.
    var minRow := 0;
    for i := 1 to |table|
      invariant 0 <= minRow < i
      invariant forall j :: 0 <= j < i ==> table[minRow].temp <= table[j].temp
      invariant forall j :: 0 <= j < minRow ==> table[minRow].temp < table[j].temp
    {
      if table[i].temp < table[minRow].temp {
        minRow := i;
      }
    }
    stationId, date := table[minRow].id, table[minRow].date;
    assert IsFirstMinimum(table, minRow);
  }

  /**
   The scan's two maps after the readings `t`: `fluctuation` holds every
   station's total and `prevVal` its last accepted temperature.
   */
  ghost predicate ScanMaps(t: seq<Reading>, w: Window, fluctuation: map<int, real>, prevVal: map<int, real>)
  {
    && fluctuation.Keys == Ids(t) && prevVal.Keys == Ids(t)
    && (forall s :: s in fluctuation ==> fluctuation[s] == Total(t, s, w))
    && (forall s :: s in prevVal ==> prevVal[s] == LastAccepted(t, s, w))
  }

  /**
   A station's first reading, whatever its date: both maps gain the station,
   with total 0 and the reading's temperature, and the running maximum and
   its station stay as they are.
   */
  lemma FirstReadingStep(t: seq<Reading>, i: nat, w: Window, fluctuation: map<int, real>, prevVal: map<int, real>)
    requires i < |t| && ScanMaps(t[..i], w, fluctuation, prevVal) && t[i].id !in fluctuation
    ensures ScanMaps(t[..i + 1], w, fluctuation[t[i].id := 0.0], prevVal[t[i].id := t[i].temp])
    ensures MaxTotal(t[..i + 1], w) == MaxTotal(t[..i], w)
    ensures MostFluctuation(t[..i + 1], w) == MostFluctuation(t[..i], w)
  {
    var before, after, r := t[..i], t[..i + 1], t[i];
    assert after == before + [r];
    IdsStep(before, r);
    TotalStep(before, r, w);
    LastAcceptedStep(before, r, w);
    forall s | s != r.id
      ensures Total(after, s, w) == Total(before, s, w)
    {
    }
    ScanMapsUpdate(before, after, w, fluctuation, prevVal, r.id, 0.0, r.temp);
    MaxTotalStep(before, r, w);
    MostFluctuationStep(before, r, w);
  }

  /**
   A later reading of a station, dated outside the window: neither map
   changes, not even the previous value, and neither do the running maximum
   and its station.
   */
  lemma SkippedReadingStep(t: seq<Reading>, i: nat, w: Window, fluctuation: map<int, real>, prevVal: map<int, real>)
    requires i < |t| && ScanMaps(t[..i], w, fluctuation, prevVal)
    requires t[i].id in fluctuation && !InWindow(t[i].date, w)
    ensures ScanMaps(t[..i + 1], w, fluctuation, prevVal)
    ensures MaxTotal(t[..i + 1], w) == MaxTotal(t[..i], w)
    ensures MostFluctuation(t[..i + 1], w) == MostFluctuation(t[..i], w)
  {
    var before, after, r := t[..i], t[..i + 1], t[i];
    assert after == before + [r];
    IdsStep(before, r);
    TotalStep(before, r, w);
    LastAcceptedStep(before, r, w);
    forall s
      ensures Total(after, s, w) == Total(before, s, w)
    {
    }
    ScanMapsSame(before, after, w, fluctuation, prevVal, r.id);
    MaxTotalBounds(before, w);
    MaxTotalStep(before, r, w);
    MostFluctuationStep(before, r, w);
  }

  /**
   A later reading of a station, dated inside the window: its total grows by
   the distance from the previous value, its temperature becomes the previous
   value, and the running maximum and its station move to it exactly when
   the new total is strictly greater than the maximum so far.
   */
  lemma AcceptedReadingStep(t: seq<Reading>, i: nat, w: Window, fluctuation: map<int, real>, prevVal: map<int, real>)
    requires i < |t| && ScanMaps(t[..i], w, fluctuation, prevVal)
    requires t[i].id in fluctuation && InWindow(t[i].date, w)
    ensures fluctuation[t[i].id] + Abs(t[i].temp - prevVal[t[i].id]) == Total(t[..i + 1], t[i].id, w)
    ensures ScanMaps(t[..i + 1], w, fluctuation[t[i].id := fluctuation[t[i].id] + Abs(t[i].temp - prevVal[t[i].id])],
                     prevVal[t[i].id := t[i].temp])
    ensures MaxTotal(t[..i + 1], w) == Max(MaxTotal(t[..i], w), Total(t[..i + 1], t[i].id, w))
    ensures MostFluctuation(t[..i + 1], w) ==
            if Total(t[..i + 1], t[i].id, w) > MaxTotal(t[..i], w) then t[i].id else MostFluctuation(t[..i], w)
  {
    var before, after, r := t[..i], t[..i + 1], t[i];
    assert after == before + [r];
    IdsStep(before, r);
    TotalStep(before, r, w);
    LastAcceptedStep(before, r, w);
    LastAcceptedIsLast(before, r.id, w);
    var total := fluctuation[r.id] + Abs(r.temp - prevVal[r.id]);
    assert total == Total(after, r.id, w);
    forall s | s != r.id
      ensures Total(after, s, w) == Total(before, s, w)
    {
    }
    ScanMapsUpdate(before, after, w, fluctuation, prevVal, r.id, total, r.temp);
    MaxTotalStep(before, r, w);
    MostFluctuationStep(before, r, w);
  }

  /**
   ScanMaps carries over from `t` to `t'` when only station `id` changes, to
   the total `total` and the previous value `prev` that the maps record.
   */
  lemma ScanMapsUpdate(t: seq<Reading>, t': seq<Reading>, w: Window, fluctuation: map<int, real>,
                       prevVal: map<int, real>, id: int, total: real, prev: real)
    requires ScanMaps(t, w, fluctuation, prevVal)
    requires Ids(t') == Ids(t) + {id}
    requires forall s :: s != id ==> Total(t', s, w) == Total(t, s, w)
    requires forall s :: s != id ==> LastAccepted(t', s, w) == LastAccepted(t, s, w)
    requires Total(t', id, w) == total && LastAccepted(t', id, w) == prev
    ensures ScanMaps(t', w, fluctuation[id := total], prevVal[id := prev])
  {
  }

  /** ScanMaps carries over from `t` to `t'` when no station changes. */
  lemma ScanMapsSame(t: seq<Reading>, t': seq<Reading>, w: Window, fluctuation: map<int, real>,
                     prevVal: map<int, real>, id: int)
    requires ScanMaps(t, w, fluctuation, prevVal) && id in fluctuation
    requires Ids(t') == Ids(t) + {id}
    requires forall s :: Total(t', s, w) == Total(t, s, w)
    requires forall s :: LastAccepted(t', s, w) == LastAccepted(t, s, w)
    ensures ScanMaps(t', w, fluctuation, prevVal)
  {
  }

  /**
   One pass over the table that keeps, per station, the last accepted
   temperature and the running fluctuation total, together with the largest
   total so far and its station. The window applies only when both dates are
   given, and only to readings of stations already seen.
   */
  method StationWithMostFluctuation(table: seq<Reading>, startDate: Option<real>, endDate: Option<real>)
    returns (maxStation: int)
    ensures maxStation == MostFluctuation(table, TimeWindow(startDate, endDate))
  {
    ghost var w := TimeWindow(startDate, endDate);
    var timeBound := startDate.Some? && endDate.Some?;
    var prevVal: map<int, real> := map[];
    var fluctuation: map<int, real> := map[];
    var maxFluctuation := 0.0;
    maxStation := 0;
    for i := 0 to |table|
      invariant ScanMaps(table[..i], w, fluctuation, prevVal)
      invariant maxFluctuation == MaxTotal(table[..i], w)
      invariant maxStation == MostFluctuation(table[..i], w)
    {
      var row := table[i];
      if row.id in fluctuation {
        if timeBound && (row.date < startDate.value || row.date > endDate.value) {
          // A later reading outside the window changes nothing, not even the previous value.
          SkippedReadingStep(table, i, w, fluctuation, prevVal);
          continue;
        }
        AcceptedReadingStep(table, i, w, fluctuation, prevVal);
        fluctuation := fluctuation[row.id := fluctuation[row.id] + Abs(row.temp - prevVal[row.id])];
        if fluctuation[row.id] > maxFluctuation {
          maxStation := row.id;
          maxFluctuation := fluctuation[row.id];
        }
      } else {
        // A station's first reading is recorded whatever its date.
        FirstReadingStep(table, i, w, fluctuation, prevVal);
        fluctuation := fluctuation[row.id := 0.0];
      }
      prevVal := prevVal[row.id := row.temp];
    }
    assert table[..|table|] == table;
  }

  /**
   The time-bounded query: -1 when a bound is missing or not a number (the
   comparison of the bounds fails) or when the start is after the end;
   otherwise the station the windowed scan reports, which is 0 when no
   station's total in the window is positive and else a station of the
   table with the largest total.
   */
  function StationWithMostFluctuationTimeBound(table: seq<Reading>, startDate: Bound, endDate: Bound): (r: int)
    ensures !(startDate.Num? && endDate.Num?) ==> r == -1
    ensures startDate.Num? && endDate.Num? && startDate.value > endDate.value ==> r == -1
    ensures startDate.Num? && endDate.Num? && startDate.value <= endDate.value ==>
              var w := Between(startDate.value, endDate.value);
              && r == MostFluctuation(table, TimeWindow(Some(startDate.value), Some(endDate.value)))
              && ((r == 0 && MaxTotal(table, w) == 0.0) ||
                  (r in Ids(table) && MaxTotal(table, w) > 0.0 && Total(table, r, w) == MaxTotal(table, w)))
  {
    if !(startDate.Num? && endDate.Num?) then
      -1
    else if startDate.value > endDate.value then
      -1
    else
      MostFluctuationIsFirstToReachMax(table, Between(startDate.value, endDate.value));
      MostFluctuation(table, TimeWindow(Some(startDate.value), Some(endDate.value)))
  }
}
