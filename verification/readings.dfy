/**
 Anchor readings, the latest-reading table, and the normalisation of an
 inserted database row into a reading.
 */
module Readings {
  import opened Wrappers

  /** One range measurement: distance in centimetres, signal strength in dBm, receipt time in ms. */
  datatype Reading = Reading(anchorId: string, distance: real, rssi: real, timestamp: int)

  /** The latest reading per anchor identifier (a JS `Record<string, AnchorReading>`). */
  type Table = map<string, Reading>

  /** `readings[id]?.distance`: `None` stands for `undefined`. */
  function DistanceOf(t: Table, id: string): (d: Option<real>)
    ensures d.Some? <==> id in t
    ensures d.Some? ==> d.value == t[id].distance
  {
    if id in t then Some(t[id].distance) else None
  }

  /** JavaScript truthiness of a distance that may be `undefined`: present and non-zero. */
  predicate Truthy(d: Option<real>) {
    d.Some? && d.value != 0.0
  }

  /** `r !== undefined && r > 0`. */
  predicate Positive(d: Option<real>) {
    d.Some? && d.value > 0.0
  }

  /** The number behind a distance that is known to be present; `0` otherwise. */
  function Val(d: Option<real>): real {
    if d.Some? then d.value else 0.0
  }

  /** A field of an inserted row as JavaScript sees it. */
  datatype JsValue = Undefined | Null | Number(v: real)

  /** The columns of an inserted `anchor_readings` row that the dashboard reads. */
  datatype Payload = Payload(anchorId: string, distanceCm: JsValue, distance: JsValue, rssi: real)

  /**
   The distance in centimetres taken from a row: `distance_cm` when it is
   neither `undefined` nor `null`; otherwise `distance` (metres) times 100
   when it is not `undefined` (`Number(null)` is 0); otherwise 0.
   */
  function NormaliseDistance(distanceCm: JsValue, distance: JsValue): (d: real)
    ensures distanceCm.Number? ==> d == distanceCm.v
    ensures !distanceCm.Number? && distance.Number? ==> d == 100.0 * distance.v
    ensures !distanceCm.Number? && !distance.Number? ==> d == 0.0
  {
    if distanceCm != Undefined && distanceCm != Null then
      distanceCm.v
    else if distance != Undefined then
      (if distance.Number? then distance.v else 0.0) * 100.0
    else
      0.0
  }

  /** A centimetre column and the same distance sent in metres normalise to the same reading distance. */
  lemma MetresAgreeWithCentimetres(cm: real, other: JsValue)
    ensures NormaliseDistance(Number(cm), other) == NormaliseDistance(Undefined, Number(cm / 100.0)) == cm
    ensures NormaliseDistance(Null, Number(cm / 100.0)) == cm
  {
  }

  /** The reading built from an inserted row, stamped with the receipt time `now`. */
  function FromPayload(p: Payload, now: int): (r: Reading)
    ensures r.anchorId == p.anchorId && r.rssi == p.rssi && r.timestamp == now
    ensures r.distance == NormaliseDistance(p.distanceCm, p.distance)
  {
    Reading(p.anchorId, NormaliseDistance(p.distanceCm, p.distance), p.rssi, now)
  }
}
