/**
 * The two wire records of the pipeline (common/messages.py): the reading a
 * sensor sends to the edge node and the report the edge node sends to the
 * collector, plus the byte type and frame delimiter of the wire format.
 * The JSON encoding itself is not modelled.
 */
module Messages {
  /** One byte of the wire stream. */
  newtype byte = b: int | 0 <= b < 0x100

  /** DELIM = "\n": every record on the wire ends with this byte. */
  const DELIM: byte := 10

  /** SensorReading: timestamps are opaque ISO-8601 strings. */
  datatype Reading = Reading(sensorId: string, temperature: real, humidity: real, timestamp: string)

  /** The anomaly event {sensor_id, val: [t, h], ts} carried by a report. */
  datatype Anomaly = Anomaly(sensorId: string, val: (real, real), ts: string)

  /** The report's status field, "active" or "returning". */
  datatype Status = Active | Returning

  /** DroneReport. */
  datatype Report = Report(
    droneId: string,
    timestamp: string,
    batteryLevel: int,
    status: Status,
    avgTemperature: real,
    avgHumidity: real,
    sensorCount: nat,
    anomalies: seq<Anomaly>)
}
