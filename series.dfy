/**
 * The shapes shared by the sensor and the asset time-series requests: the
 * request filter, the points of a series, and the per-entity record that
 * carries them under `datapointTypes`.
 */
module Series {
  import opened Wrappers
  import opened Dicts
  import opened Timestamps

  /** One point of a series: its value `v` and its time `t`, already parsed. */
  datatype Point = Point(v: real, t: Timestamp)

  /** An entity's object: its `datapointTypes` dict (key -> points), None where the key is absent. */
  datatype Record = Record(datapointTypes: Option<Dict<seq<Point>>>)

  /** The filter of one `timeseriesdata/search` request (onlyLatest, skipNullValues and limitLatest are constant). */
  datatype Query = Query(
    entityId: string,
    datapoint: string,
    datapointType: string,
    entityKind: string,
    startTime: string,
    endTime: string,
    errorStatus: seq<int>)

  /** The error statuses every request asks for. */
  const ErrorStatus: seq<int> := [0, -7, -5]
}
