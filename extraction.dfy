/**
 * extract_data: the request plan (every sensor of every group, for every
 * selected datapoint of every type), the rule that picks the datapoint
 * kind, and the accumulation of the usable answers.
 */
module Extraction {
  import opened Wrappers
  import opened Dicts
  import opened SensorsList
  import opened Catalogue
  import opened Series

  /** A sensor request's answer: its status and its `data` dict (entity id -> record), [] when absent. */
  datatype SeriesResponse = SeriesResponse(status: int, data: Dict<Record>)

  /** What the program keeps per type: sensor id -> the kept `data` dicts, in request order. */
  type TypeData = Dict<seq<Dict<Record>>>

  /** The (type, datapoint name) pairs fetched as "acquired" rather than with the requested kind. */
  const AcquiredPairs: set<(string, string)> :=
    {(Tiltmeters, "Température"), (WeatherStations, "Précipitations_1h"), (Piezometers, "Hauteur_eau")}

  /** The three-branch kind rule. */
  function KindFor(sensorType: string, name: string, datapointType: string): string
  {
    if sensorType == Tiltmeters && name == "Température" then "acquired"
    else if sensorType == WeatherStations && name == "Précipitations_1h" then "acquired"
    else if sensorType == Piezometers && name == "Hauteur_eau" then "acquired"
    else datapointType
  }

  /** The request for one sensor and one selected datapoint. */
  function SensorQuery(sensorId: string, sensorType: string, dp: Datapoint, startTime: string, endTime: string, datapointType: string): Query
  {
    Query(sensorId, dp.code, KindFor(sensorType, dp.name, datapointType), "Sensor", startTime, endTime, ErrorStatus)
  }

  /** Every selected datapoint of every type, in selection order. */
  function AllSelected(selected: seq<Selection>): seq<Datapoint>
  {
    if selected == [] then []
    else AllSelected(selected[..|selected| - 1]) + selected[|selected| - 1].selectedDerivedDatapoints
  }

  function SensorQueries(sensorId: string, sensorType: string, dps: seq<Datapoint>, startTime: string, endTime: string, datapointType: string): (r: seq<Query>)
    ensures |r| == |dps|
    ensures forall k :: 0 <= k < |dps| ==> r[k] == SensorQuery(sensorId, sensorType, dps[k], startTime, endTime, datapointType)
  {
    seq(|dps|, k requires 0 <= k < |dps| => SensorQuery(sensorId, sensorType, dps[k], startTime, endTime, datapointType))
  }

  /** An answer is kept when its status is 200 and its `data` is non-empty. */
  predicate Kept(response: SeriesResponse)
  {
    response.status == 200 && response.data != []
  }

  /** The kept `data` dicts of a run of requests, in request order. */
  function Usable(server: Query -> SeriesResponse, queries: seq<Query>): seq<Dict<Record>>
  {
    if queries == [] then []
    else
      var response := server(queries[|queries| - 1]);
      Usable(server, queries[..|queries| - 1]) + (if Kept(response) then [response.data] else [])
  }

  /** The list stored for one sensor. */
  function SensorSeries(server: Query -> SeriesResponse, sensorId: string, sensorType: string, selected: seq<Selection>,
                        startTime: string, endTime: string, datapointType: string): seq<Dict<Record>>
  {
    Usable(server, SensorQueries(sensorId, sensorType, AllSelected(selected), startTime, endTime, datapointType))
  }

  /** `sensor_data[type]` for one group: one entry per sensor id, in the group's order. */
  function GroupData(server: Query -> SeriesResponse, group: Group, selected: seq<Selection>,
                     startTime: string, endTime: string, datapointType: string): (r: TypeData)
    ensures Keys(r) == Keys(group.sensors)
  {
    var ids := Keys(group.sensors);
    seq(|ids|, i requires 0 <= i < |ids| =>
      (ids[i], SensorSeries(server, ids[i], group.sensorType, selected, startTime, endTime, datapointType)))
  }

  /** `sensor_data` after the given groups; a later group of the same type replaces an earlier one. */
  function SensorData(server: Query -> SeriesResponse, groups: seq<Group>, selected: seq<Selection>,
                      startTime: string, endTime: string, datapointType: string): map<string, TypeData>
  {
    if groups == [] then map[]
    else
      var last := groups[|groups| - 1];
      SensorData(server, groups[..|groups| - 1], selected, startTime, endTime, datapointType)
        [last.sensorType := GroupData(server, last, selected, startTime, endTime, datapointType)]
  }

  /** The requests of one sensor: the loop over the selections. */
  method FetchSensor(server: Query -> SeriesResponse, sensorId: string, sensorType: string, selected: seq<Selection>,
                     startTime: string, endTime: string, datapointType: string)
    returns (allData: seq<Dict<Record>>)
    ensures allData == SensorSeries(server, sensorId, sensorType, selected, startTime, endTime, datapointType)
  {
    allData := [];
    var i := 0;
    while i < |selected|
      invariant 0 <= i <= |selected|
      invariant allData == Usable(server, SensorQueries(sensorId, sensorType, AllSelected(selected[..i]), startTime, endTime, datapointType))
    {
      ghost var before := AllSelected(selected[..i]);
      allData := FetchSelection(server, sensorId, sensorType, selected[i].selectedDerivedDatapoints,
                                startTime, endTime, datapointType, allData, before);
      assert selected[..i + 1][..i] == selected[..i];
      assert AllSelected(selected[..i + 1]) == before + selected[i].selectedDerivedDatapoints;
      i := i + 1;
    }
    assert selected[..i] == selected;
  }

  /** The loop over the datapoints of one selection; `before` is what the sensor was asked for so far. */
  method FetchSelection(server: Query -> SeriesResponse, sensorId: string, sensorType: string, dps: seq<Datapoint>,
                        startTime: string, endTime: string, datapointType: string,
                        allData: seq<Dict<Record>>, ghost before: seq<Datapoint>)
    returns (r: seq<Dict<Record>>)
    requires allData == Usable(server, SensorQueries(sensorId, sensorType, before, startTime, endTime, datapointType))
    ensures r == Usable(server, SensorQueries(sensorId, sensorType, before + dps, startTime, endTime, datapointType))
  {
    r := allData;
    var m := 0;
    assert before + dps[..0] == before;
    while m < |dps|
      invariant 0 <= m <= |dps|
      invariant r == Usable(server, SensorQueries(sensorId, sensorType, before + dps[..m], startTime, endTime, datapointType))
    {
      var datapoint := dps[m];
      var currentType := KindFor(sensorType, datapoint.name, datapointType);
      var query := Query(sensorId, datapoint.code, currentType, "Sensor", startTime, endTime, ErrorStatus);
      var response := server(query);
      ghost var ds := before + dps[..m + 1];
      assert ds[..|ds| - 1] == before + dps[..m];
      assert ds[|ds| - 1] == datapoint;
      assert query == SensorQuery(sensorId, sensorType, datapoint, startTime, endTime, datapointType);
      UsableStep(server, sensorId, sensorType, ds, startTime, endTime, datapointType);
      if response.status == 200 {
        var sensorSpecificData := response.data;
        if sensorSpecificData != [] {
          r := r + [sensorSpecificData];
        }
      }
      m := m + 1;
    }
    assert dps[..m] == dps;
  }

  /** One more request: its answer is appended if it is kept. */
  lemma UsableStep(server: Query -> SeriesResponse, sensorId: string, sensorType: string, ds: seq<Datapoint>,
                   startTime: string, endTime: string, datapointType: string)
    requires ds != []
    ensures var response := server(SensorQuery(sensorId, sensorType, ds[|ds| - 1], startTime, endTime, datapointType));
      Usable(server, SensorQueries(sensorId, sensorType, ds, startTime, endTime, datapointType))
      == Usable(server, SensorQueries(sensorId, sensorType, ds[..|ds| - 1], startTime, endTime, datapointType))
         + (if Kept(response) then [response.data] else [])
  {
    var qs := SensorQueries(sensorId, sensorType, ds, startTime, endTime, datapointType);
    assert qs[..|qs| - 1] == SensorQueries(sensorId, sensorType, ds[..|ds| - 1], startTime, endTime, datapointType);
  }

  /** The sensors of one group. */
  method FetchGroup(server: Query -> SeriesResponse, group: Group, selected: seq<Selection>,
                    startTime: string, endTime: string, datapointType: string)
    returns (typeData: TypeData)
    ensures typeData == GroupData(server, group, selected, startTime, endTime, datapointType)
  {
    var sensorIds := Keys(group.sensors);
    typeData := [];
    var j := 0;
    while j < |sensorIds|
      invariant 0 <= j <= |sensorIds|
      invariant |typeData| == j
      invariant forall k :: 0 <= k < j ==>
        typeData[k] == (sensorIds[k], SensorSeries(server, sensorIds[k], group.sensorType, selected, startTime, endTime, datapointType))
    {
      var allData := FetchSensor(server, sensorIds[j], group.sensorType, selected, startTime, endTime, datapointType);
      typeData := typeData + [(sensorIds[j], allData)];
      j := j + 1;
    }
  }

  /** extract_data. The server is a parameter: the answer it gives to each request filter. */
  method ExtractData(server: Query -> SeriesResponse, groups: seq<Group>, startTime: string, endTime: string,
                     selected: seq<Selection>, datapointType: string)
    returns (sensorData: map<string, TypeData>)
    ensures sensorData == SensorData(server, groups, selected, startTime, endTime, datapointType)
  {
    sensorData := map[];
    var i := 0;
    while i < |groups|
      invariant 0 <= i <= |groups|
      invariant sensorData == SensorData(server, groups[..i], selected, startTime, endTime, datapointType)
    {
      var group := groups[i];
      var typeData := FetchGroup(server, group, selected, startTime, endTime, datapointType);
      assert groups[..i + 1][..i] == groups[..i];
      sensorData := sensorData[group.sensorType := typeData];
      i := i + 1;
    }
    assert groups[..i] == groups;
  }

  /** The kind is "acquired" exactly for the three listed (type, name) pairs; every other pair uses the requested kind. */
  lemma KindForSpec(sensorType: string, name: string, datapointType: string)
    ensures KindFor(sensorType, name, datapointType) == if (sensorType, name) in AcquiredPairs then "acquired" else datapointType
  {
    assert Tiltmeters != WeatherStations && Tiltmeters != Piezometers && WeatherStations != Piezometers;
  }

  function TotalSelected(selected: seq<Selection>): nat
  {
    if selected == [] then 0
    else TotalSelected(selected[..|selected| - 1]) + |selected[|selected| - 1].selectedDerivedDatapoints|
  }

  lemma {:induction false} AllSelectedLength(selected: seq<Selection>)
    ensures |AllSelected(selected)| == TotalSelected(selected)
  {
    if selected != [] {
      AllSelectedLength(selected[..|selected| - 1]);
    }
  }

  /**
   * Each sensor gets one request per selected datapoint of every type, not
   * only of its own: the `m`-th datapoint selected for entry `s` is the
   * request at position `|AllSelected(selected[..s])| + m`.
   */
  lemma {:induction false} AllSelectedAt(selected: seq<Selection>, s: int, m: int)
    requires 0 <= s < |selected| && 0 <= m < |selected[s].selectedDerivedDatapoints|
    ensures |AllSelected(selected[..s])| + m < |AllSelected(selected)|
    ensures AllSelected(selected)[|AllSelected(selected[..s])| + m] == selected[s].selectedDerivedDatapoints[m]
  {
    var init := selected[..|selected| - 1];
    var last := selected[|selected| - 1];
    assert AllSelected(selected) == AllSelected(init) + last.selectedDerivedDatapoints;
    if s < |init| {
      assert selected[..s] == init[..s];
      assert selected[s] == init[s];
      AllSelectedAt(init, s, m);
    } else {
      assert selected[..s] == init;
    }
  }

  /** The queries of one sensor: one per selected datapoint, each for that sensor and that datapoint's code. */
  lemma SensorQueriesSpec(sensorId: string, sensorType: string, selected: seq<Selection>, startTime: string, endTime: string, datapointType: string)
    ensures var qs := SensorQueries(sensorId, sensorType, AllSelected(selected), startTime, endTime, datapointType);
      && |qs| == TotalSelected(selected)
      && forall k :: 0 <= k < |qs| ==>
           qs[k].entityId == sensorId && qs[k].entityKind == "Sensor" && qs[k].errorStatus == [0, -7, -5]
           && qs[k].datapoint == AllSelected(selected)[k].code
           && qs[k].startTime == startTime && qs[k].endTime == endTime
  {
    AllSelectedLength(selected);
  }

  lemma {:induction false} UsableAppend(server: Query -> SeriesResponse, a: seq<Query>, b: seq<Query>)
    ensures Usable(server, a + b) == Usable(server, a) + Usable(server, b)
    decreases |b|
  {
    if b == [] {
      assert a + b == a;
    } else {
      UsableAppend(server, a, b[..|b| - 1]);
      assert (a + b)[..|a + b| - 1] == a + b[..|b| - 1];
    }
  }

  /** The kept payloads: at most one per request, each the non-empty `data` of a 200 answer, in request order. */
  lemma {:induction false} UsableSpec(server: Query -> SeriesResponse, queries: seq<Query>)
    ensures |Usable(server, queries)| <= |queries|
    ensures forall d :: d in Usable(server, queries) ==>
      exists k :: 0 <= k < |queries| && Kept(server(queries[k])) && server(queries[k]).data == d
    ensures (forall k :: 0 <= k < |queries| ==> Kept(server(queries[k]))) ==>
      |Usable(server, queries)| == |queries| &&
      forall k :: 0 <= k < |queries| ==> Usable(server, queries)[k] == server(queries[k]).data
  {
    if queries != [] {
      var init := queries[..|queries| - 1];
      UsableSpec(server, init);
      assert forall k :: 0 <= k < |init| ==> init[k] == queries[k];
    }
  }

  /** A request whose answer is not kept (not 200, or no data) contributes nothing: dropping it leaves the list as it was. */
  lemma FailedRequestIgnored(server: Query -> SeriesResponse, queries: seq<Query>, k: int)
    requires 0 <= k < |queries| && !Kept(server(queries[k]))
    ensures Usable(server, queries[..k] + queries[k + 1..]) == Usable(server, queries)
  {
    var p := queries[..k];
    var q := queries[k + 1..];
    var x := queries[k];
    assert queries == (p + [x]) + q;
    UsableAppend(server, p + [x], q);
    UsableAppend(server, p, q);
    assert (p + [x])[..|p|] == p;
    assert Usable(server, p + [x]) == Usable(server, p);
  }

  /** The keys of the result are exactly the types of the groups. */
  lemma {:induction false} SensorDataKeys(server: Query -> SeriesResponse, groups: seq<Group>, selected: seq<Selection>,
                                          startTime: string, endTime: string, datapointType: string)
    ensures forall t :: t in SensorData(server, groups, selected, startTime, endTime, datapointType) <==>
      exists i :: 0 <= i < |groups| && groups[i].sensorType == t
  {
    if groups != [] {
      var init := groups[..|groups| - 1];
      SensorDataKeys(server, init, selected, startTime, endTime, datapointType);
      forall t ensures t in SensorData(server, groups, selected, startTime, endTime, datapointType) <==>
        exists i :: 0 <= i < |groups| && groups[i].sensorType == t
      {
        if exists i :: 0 <= i < |init| && init[i].sensorType == t {
          var i :| 0 <= i < |init| && init[i].sensorType == t;
          assert groups[i] == init[i];
        }
        if exists i :: 0 <= i < |groups| && groups[i].sensorType == t {
          var i :| 0 <= i < |groups| && groups[i].sensorType == t;
          if i < |init| {
            assert init[i] == groups[i];
          }
        }
      }
    }
  }

  /**
   * The entry of a type is built from the last group of that type; it has
   * one key per sensor id of that group (GroupData).
   */
  lemma {:induction false} SensorDataLast(server: Query -> SeriesResponse, groups: seq<Group>, selected: seq<Selection>,
                                          startTime: string, endTime: string, datapointType: string, i: int)
    requires 0 <= i < |groups|
    requires forall j :: i < j < |groups| ==> groups[j].sensorType != groups[i].sensorType
    ensures var data := SensorData(server, groups, selected, startTime, endTime, datapointType);
      groups[i].sensorType in data && data[groups[i].sensorType] == GroupData(server, groups[i], selected, startTime, endTime, datapointType)
  {
    if i < |groups| - 1 {
      var init := groups[..|groups| - 1];
      assert init[i] == groups[i];
      forall j | i < j < |init| ensures init[j].sensorType != init[i].sensorType {
        assert init[j] == groups[j];
      }
      SensorDataLast(server, init, selected, startTime, endTime, datapointType, i);
    }
  }
}
