/**
 * The pure parts of the edge node's processing (drone_edge/drone.py): anomaly
 * classification of a reading and the aggregation of a batch into a report.
 * Averages are exact `real` arithmetic.
 */
module Analytics {
  import opened Wrappers
  import opened Messages

  /** THRESHOLDS: the normal ranges, both bounds inclusive. */
  const TEMP_MIN: real := 0.0
  const TEMP_MAX: real := 40.0
  const HUM_MIN: real := 10.0
  const HUM_MAX: real := 90.0

  const DRONE_ID: string := "drone1"

  /** A reading is anomalous when either value lies outside its normal range. */
  predicate IsAnomaly(r: Reading)
    ensures IsAnomaly(r) <==> r.temperature < TEMP_MIN || r.temperature > TEMP_MAX || r.humidity < HUM_MIN || r.humidity > HUM_MAX
  {
    !(TEMP_MIN <= r.temperature <= TEMP_MAX && HUM_MIN <= r.humidity <= HUM_MAX)
  }

  /** The anomaly event recorded for a reading. */
  function AnomalyOf(r: Reading): (a: Anomaly)
    ensures a.sensorId == r.sensorId && a.val == (r.temperature, r.humidity) && a.ts == r.timestamp
  {
    Anomaly(r.sensorId, (r.temperature, r.humidity), r.timestamp)
  }

  /** The anomaly events of the anomalous readings of a batch, in batch order. */
  function AnomalyLog(batch: seq<Reading>): seq<Anomaly>
  {
    if batch == [] then []
    else (if IsAnomaly(batch[0]) then [AnomalyOf(batch[0])] else []) + AnomalyLog(batch[1..])
  }

  /** Appending one reading extends the anomaly log by that reading's event, if any. */
  lemma {:induction false} AnomalyLogAppend(batch: seq<Reading>, r: Reading)
    ensures AnomalyLog(batch + [r]) == AnomalyLog(batch) + if IsAnomaly(r) then [AnomalyOf(r)] else []
  {
    if batch != [] {
      assert (batch + [r])[1..] == batch[1..] + [r];
      AnomalyLogAppend(batch[1..], r);
    }
  }

  /** Every logged anomaly belongs to an anomalous reading of the batch, and there are no more of them than readings. */
  lemma {:induction false} AnomalyLogSound(batch: seq<Reading>)
    ensures |AnomalyLog(batch)| <= |batch|
    ensures forall a :: a in AnomalyLog(batch) ==> exists r :: r in batch && IsAnomaly(r) && a == AnomalyOf(r)
  {
    if batch != [] {
      AnomalyLogSound(batch[1..]);
    }
  }

  function Temperatures(rs: seq<Reading>): (ts: seq<real>)
    ensures |ts| == |rs| && forall i :: 0 <= i < |rs| ==> ts[i] == rs[i].temperature
  {
    if rs == [] then [] else [rs[0].temperature] + Temperatures(rs[1..])
  }

  function Humidities(rs: seq<Reading>): (hs: seq<real>)
    ensures |hs| == |rs| && forall i :: 0 <= i < |rs| ==> hs[i] == rs[i].humidity
  {
    if rs == [] then [] else [rs[0].humidity] + Humidities(rs[1..])
  }

  function Sum(xs: seq<real>): real
  {
    if xs == [] then 0.0 else xs[0] + Sum(xs[1..])
  }

  /** The arithmetic mean of a non-empty sequence. */
  function Mean(xs: seq<real>): (m: real)
    requires xs != []
    ensures m * (|xs| as real) == Sum(xs)
  {
    Sum(xs) / (|xs| as real)
  }

  /** A sum of values in [lo, hi] lies in [n * lo, n * hi]. */
  lemma {:induction false} SumBounds(xs: seq<real>, lo: real, hi: real)
    requires forall i :: 0 <= i < |xs| ==> lo <= xs[i] <= hi
    ensures (|xs| as real) * lo <= Sum(xs) <= (|xs| as real) * hi
  {
    if xs != [] {
      SumBounds(xs[1..], lo, hi);
      assert (|xs| as real) * lo == (|xs[1..]| as real) * lo + lo;
      assert (|xs| as real) * hi == (|xs[1..]| as real) * hi + hi;
    }
  }

  /** The mean of values in [lo, hi] lies in [lo, hi]. */
  lemma MeanBounds(xs: seq<real>, lo: real, hi: real)
    requires xs != []
    requires forall i :: 0 <= i < |xs| ==> lo <= xs[i] <= hi
    ensures lo <= Mean(xs) <= hi
  {
    SumBounds(xs, lo, hi);
    assert Mean(xs) * (|xs| as real) == Sum(xs);
  }

  /** The distinct sensor ids of a batch. */
  function SensorIds(rs: seq<Reading>): set<string>
  {
    set r | r in rs :: r.sensorId
  }

  /** A non-empty batch names at least one and at most |batch| distinct sensors. */
  lemma {:induction false} SensorCountBounds(rs: seq<Reading>)
    ensures rs != [] ==> 1 <= |SensorIds(rs)|
    ensures |SensorIds(rs)| <= |rs|
  {
    if rs != [] {
      assert rs[0].sensorId in SensorIds(rs);
      SensorCountBounds(rs[1..]);
      assert SensorIds(rs) == {rs[0].sensorId} + SensorIds(rs[1..]) by {
        forall id | id in SensorIds(rs) ensures id in {rs[0].sensorId} + SensorIds(rs[1..]) {
          var r :| r in rs && r.sensorId == id;
          if r != rs[0] {
            assert r in rs[1..];
          }
        }
      }
    } else {
      assert SensorIds(rs) == {};
    }
  }

  /**
   * _send_report's aggregation step: no report for an empty batch; otherwise
   * a report of the node's current level and mode, the mean temperature and
   * humidity of the batch, its distinct sensor count and the given anomalies.
   * Every SensorReading carries both values, so the "valid readings" filter
   * keeps the whole batch.
   */
  function BuildReport(readings: seq<Reading>, anomalies: seq<Anomaly>, level: int, returning: bool, now: string): (r: Option<Report>)
    ensures r.None? <==> readings == []
    ensures r.Some? ==>
      && r.value.droneId == DRONE_ID
      && r.value.timestamp == now
      && r.value.batteryLevel == level
      && (r.value.status == Returning <==> returning)
      && r.value.avgTemperature * (|readings| as real) == Sum(Temperatures(readings))
      && r.value.avgHumidity * (|readings| as real) == Sum(Humidities(readings))
      && r.value.sensorCount == |SensorIds(readings)|
      && r.value.anomalies == anomalies
  {
    if readings == [] then None
    else
      Some(Report(
        DRONE_ID, now, level,
        if returning then Returning else Active,
        Mean(Temperatures(readings)),
        Mean(Humidities(readings)),
        |SensorIds(readings)|,
        anomalies))
  }

  /** The report's averages lie within the batch's ranges, and its sensor count within [1, |batch|]. */
  lemma {:induction false} ReportWithinBatch(readings: seq<Reading>, anomalies: seq<Anomaly>, level: int, returning: bool, now: string,
                                             tLo: real, tHi: real, hLo: real, hHi: real)
    requires readings != []
    requires forall i :: 0 <= i < |readings| ==> tLo <= readings[i].temperature <= tHi && hLo <= readings[i].humidity <= hHi
    ensures var r := BuildReport(readings, anomalies, level, returning, now).value;
      && tLo <= r.avgTemperature <= tHi
      && hLo <= r.avgHumidity <= hHi
      && 1 <= r.sensorCount <= |readings|
  {
    MeanBounds(Temperatures(readings), tLo, tHi);
    MeanBounds(Humidities(readings), hLo, hHi);
    SensorCountBounds(readings);
  }
}
