/**
 * The asset side: the id -> name dict, the one `N_moy` request per asset,
 * and the asset table, whose pivot runs on the full datetime (no
 * averaging) and formats the row labels afterwards.
 */
module Assets {
  import opened Wrappers
  import opened Ordering
  import opened Dicts
  import opened Timestamps
  import opened Series

  datatype Asset = Asset(id: string, name: string)

  /** An asset request's answer: its status and its `data` object (Record(None) when absent). */
  datatype AssetResponse = AssetResponse(status: int, data: Record)

  /** One appended row: asset name, value, time. */
  datatype AssetRow = AssetRow(name: string, value: real, timestamp: Timestamp)

  /**
   * The asset DataFrame: `pd.DataFrame()` when no row was collected, or the
   * pivot with its datetimes in ascending order, their formatted labels, the
   * asset names, and the cells that hold a value.
   */
  datatype AssetFrame =
    | NoAssetData
    | AssetTable(times: seq<Timestamp>, labels: seq<string>, cols: seq<string>, cells: map<(Timestamp, string), real>)

  function IdNamePairs(assets: seq<Asset>): (r: seq<(string, string)>)
    ensures |r| == |assets| && forall k :: 0 <= k < |assets| ==> r[k] == (assets[k].id, assets[k].name)
  {
    seq(|assets|, k requires 0 <= k < |assets| => (assets[k].id, assets[k].name))
  }

  /** get_dict_of_id_assets */
  function IdDictOfAssets(assets: seq<Asset>): Dict<string>
  {
    FromPairs(IdNamePairs(assets))
  }

  ghost predicate HasAsset(assets: seq<Asset>, id: string)
  {
    exists k :: 0 <= k < |assets| && assets[k].id == id
  }

  /** The name of the last asset with the id. */
  function LastAssetName(assets: seq<Asset>, id: string): Option<string>
  {
    if assets == [] then None
    else if assets[|assets| - 1].id == id then Some(assets[|assets| - 1].name)
    else LastAssetName(assets[..|assets| - 1], id)
  }

  /** The dict's keys are the asset ids, each once, in first-seen order; a repeated id keeps its last name. */
  lemma {:induction false} IdDictOfAssetsSpec(assets: seq<Asset>, id: string)
    ensures NoDup(Keys(IdDictOfAssets(assets)))
    ensures id in Keys(IdDictOfAssets(assets)) <==> HasAsset(assets, id)
    ensures Get(IdDictOfAssets(assets), id) == LastAssetName(assets, id)
  {
    var pairs := IdNamePairs(assets);
    FromPairsKeys(pairs);
    DistinctSpec(Keys(pairs));
    FromPairsGet(pairs, id);
    LastValueNameAgree(assets, id);
    if id in Keys(pairs) {
      var k :| 0 <= k < |pairs| && Keys(pairs)[k] == id;
      assert assets[k].id == id;
    }
    if HasAsset(assets, id) {
      var k :| 0 <= k < |assets| && assets[k].id == id;
      assert Keys(pairs)[k] == id;
    }
  }

  lemma {:induction false} LastValueNameAgree(assets: seq<Asset>, id: string)
    ensures LastValue(IdNamePairs(assets), id) == LastAssetName(assets, id)
  {
    if assets != [] {
      var init := assets[..|assets| - 1];
      LastValueNameAgree(init, id);
      assert IdNamePairs(assets)[..|assets| - 1] == IdNamePairs(init);
    }
  }

  /** The one request of an asset. */
  function AssetQuery(assetId: string, startTime: string, endTime: string): Query
  {
    Query(assetId, "N_moy", "derived", "Asset", startTime, endTime, ErrorStatus)
  }

  /** `asset_data` after the given ids: a 200 answer is stored, even with empty data; any other status is skipped. */
  function AssetData(server: Query -> AssetResponse, ids: seq<string>, startTime: string, endTime: string): Dict<Record>
  {
    if ids == [] then []
    else
      var id := ids[|ids| - 1];
      var response := server(AssetQuery(id, startTime, endTime));
      var before := AssetData(server, ids[..|ids| - 1], startTime, endTime);
      if response.status != 200 then before else Put(before, id, response.data)
  }

  /** extract_asset. */
  method ExtractAsset(server: Query -> AssetResponse, groupedAssets: Dict<string>, startTime: string, endTime: string)
    returns (assetData: Dict<Record>)
    ensures assetData == AssetData(server, Keys(groupedAssets), startTime, endTime)
  {
    var ids := Keys(groupedAssets);
    assetData := [];
    var i := 0;
    while i < |ids|
      invariant 0 <= i <= |ids|
      invariant assetData == AssetData(server, ids[..i], startTime, endTime)
    {
      var assetId := ids[i];
      var query := Query(assetId, "N_moy", "derived", "Asset", startTime, endTime, ErrorStatus);
      var response := server(query);
      assert ids[..i + 1][..i] == ids[..i];
      if response.status != 200 {
        i := i + 1;
        continue;
      }
      assetData := Put(assetData, assetId, response.data);
      i := i + 1;
    }
    assert ids[..i] == ids;
  }

  /** Exactly the assets whose request answered 200 are keys, each holding its answer's data. */
  lemma {:induction false} AssetDataSpec(server: Query -> AssetResponse, ids: seq<string>, startTime: string, endTime: string, id: string)
    requires NoDup(ids)
    ensures var data := AssetData(server, ids, startTime, endTime);
      && (id in Keys(data) <==> id in ids && server(AssetQuery(id, startTime, endTime)).status == 200)
      && (id in Keys(data) ==> Get(data, id) == Some(server(AssetQuery(id, startTime, endTime)).data))
  {
    if ids != [] {
      var init := ids[..|ids| - 1];
      var last := ids[|ids| - 1];
      assert NoDup(init) by {
        forall i, j | 0 <= i < j < |init| ensures init[i] != init[j] {
          assert init[i] == ids[i] && init[j] == ids[j];
        }
      }
      AssetDataSpec(server, init, startTime, endTime, id);
      var before := AssetData(server, init, startTime, endTime);
      var response := server(AssetQuery(last, startTime, endTime));
      assert ids == init + [last];
      if response.status == 200 {
        PutKeys(before, last, response.data);
        PutGet(before, last, response.data, id);
        if id in Keys(before) {
          GetNone(before, id);
        }
        GetNone(Put(before, last, response.data), id);
      }
    }
  }

  // The asset table

  /** The rows of one (id, name) entry: the points under `datapointTypes` / `N_moy`, or none when either is missing. */
  function EntryRows(entry: (string, string), assetData: Dict<Record>): seq<AssetRow>
  {
    match NMoyPoints(assetData, entry.0)
    case None => []
    case Some(points) => seq(|points|, k requires 0 <= k < |points| => AssetRow(entry.1, points[k].v, points[k].t))
  }

  /** The `N_moy` series stored for an asset; None when the asset, its `datapointTypes` or its `N_moy` is missing. */
  function NMoyPoints(assetData: Dict<Record>, id: string): Option<seq<Point>>
  {
    var record := Get(assetData, id).GetOr(Record(None));
    match record.datapointTypes
    case None => None
    case Some(types) => Get(types, "N_moy")
  }

  function AssetRows(groupedAssets: Dict<string>, assetData: Dict<Record>): seq<AssetRow>
  {
    if groupedAssets == [] then []
    else AssetRows(groupedAssets[..|groupedAssets| - 1], assetData) + EntryRows(groupedAssets[|groupedAssets| - 1], assetData)
  }

  /** `df[df['Timestamp'].dt.minute == 0]` */
  function OnTheHourRows(rows: seq<AssetRow>): seq<AssetRow>
  {
    if rows == [] then []
    else OnTheHourRows(rows[..|rows| - 1]) + (if OnTheHour(rows[|rows| - 1].timestamp) then [rows[|rows| - 1]] else [])
  }

  /** Two rows for the same datetime and name: `pivot` refuses them. */
  predicate HasDuplicate(rows: seq<AssetRow>)
  {
    exists i, j :: 0 <= i < j < |rows| && rows[i].timestamp == rows[j].timestamp && rows[i].name == rows[j].name
  }

  function TimesOf(rows: seq<AssetRow>): (r: seq<Timestamp>)
    ensures |r| == |rows| && forall k :: 0 <= k < |rows| ==> r[k] == rows[k].timestamp
  {
    seq(|rows|, k requires 0 <= k < |rows| => rows[k].timestamp)
  }

  function NamesOf(rows: seq<AssetRow>): (r: seq<string>)
    ensures |r| == |rows| && forall k :: 0 <= k < |rows| ==> r[k] == rows[k].name
  {
    seq(|rows|, k requires 0 <= k < |rows| => rows[k].name)
  }

  function LabelsOf(times: seq<Timestamp>): (r: seq<string>)
    ensures |r| == |times| && forall k :: 0 <= k < |times| ==> r[k] == Label(times[k])
  {
    seq(|times|, k requires 0 <= k < |times| => Label(times[k]))
  }

  function RowKeys(rows: seq<AssetRow>): set<(Timestamp, string)>
  {
    set k | 0 <= k < |rows| :: (rows[k].timestamp, rows[k].name)
  }

  /** The value of the last row at a (datetime, name); with no duplicates it is the only one. */
  function ValueOf(rows: seq<AssetRow>, p: (Timestamp, string)): real
  {
    if rows == [] then 0.0
    else if (rows[|rows| - 1].timestamp, rows[|rows| - 1].name) == p then rows[|rows| - 1].value
    else ValueOf(rows[..|rows| - 1], p)
  }

  /** The pivot on the full datetime, then the `strftime` of the datetime column. */
  function PivotAssets(rows: seq<AssetRow>): Result<AssetFrame, string>
  {
    if HasDuplicate(rows) then Failure("Index contains duplicate entries, cannot reshape")
    else
      var times := SortedTimes(rows);
      Success(AssetTable(times, LabelsOf(times), SortedSet(NamesOf(rows)), AssetCells(rows)))
  }

  /** The distinct datetimes in time order. */
  function SortedTimes(rows: seq<AssetRow>): seq<Timestamp>
  {
    SortBy(Distinct(TimesOf(rows)), Instant)
  }

  function AssetCells(rows: seq<AssetRow>): map<(Timestamp, string), real>
  {
    map p | p in RowKeys(rows) :: ValueOf(rows, p)
  }

  function AssetFrameOf(groupedAssets: Dict<string>, assetData: Dict<Record>): Result<AssetFrame, string>
  {
    var rows := AssetRows(groupedAssets, assetData);
    if rows == [] then Success(NoAssetData) else PivotAssets(OnTheHourRows(rows))
  }

  /** create_dataframes_by_type for the assets: the row loop, then the filter and the pivot. */
  method CreateDataframesByType(assetData: Dict<Record>, groupedAssets: Dict<string>) returns (r: Result<AssetFrame, string>)
    ensures r == AssetFrameOf(groupedAssets, assetData)
  {
    var rows: seq<AssetRow> := [];
    var i := 0;
    while i < |groupedAssets|
      invariant 0 <= i <= |groupedAssets|
      invariant rows == AssetRows(groupedAssets[..i], assetData)
    {
      var (assetId, assetName) := groupedAssets[i];
      assert groupedAssets[..i + 1][..i] == groupedAssets[..i];
      var sensorData := Get(assetData, assetId).GetOr(Record(None));
      if sensorData.datapointTypes.None? {
        i := i + 1;
        continue;
      }
      var nMoy := Get(sensorData.datapointTypes.value, "N_moy");
      assert nMoy == NMoyPoints(assetData, assetId);
      if nMoy.None? {
        i := i + 1;
        continue;
      }
      var datapoints := nMoy.value;
      ghost var before := rows;
      var m := 0;
      while m < |datapoints|
        invariant 0 <= m <= |datapoints|
        invariant rows == before + seq(m, k requires 0 <= k < m => AssetRow(assetName, datapoints[k].v, datapoints[k].t))
      {
        rows := rows + [AssetRow(assetName, datapoints[m].v, datapoints[m].t)];
        m := m + 1;
      }
      i := i + 1;
    }
    assert groupedAssets[..i] == groupedAssets;
    if rows == [] {
      return Success(NoAssetData);
    }
    r := PivotAssets(OnTheHourRows(rows));
  }

  // Properties of the asset table

  /** A row stems from a point of an asset's `N_moy` series and carries that asset's name; assets without it give none. */
  lemma {:induction false} AssetRowsSpec(groupedAssets: Dict<string>, assetData: Dict<Record>, row: AssetRow)
    ensures row in AssetRows(groupedAssets, assetData) <==>
      exists k :: 0 <= k < |groupedAssets| && row.name == groupedAssets[k].1 &&
        NMoyPoints(assetData, groupedAssets[k].0).Some? &&
        Point(row.value, row.timestamp) in NMoyPoints(assetData, groupedAssets[k].0).value
  {
    if groupedAssets != [] {
      var init := groupedAssets[..|groupedAssets| - 1];
      var last := groupedAssets[|groupedAssets| - 1];
      AssetRowsSpec(init, assetData, row);
      assert forall k :: 0 <= k < |init| ==> init[k] == groupedAssets[k];
      var er := EntryRows(last, assetData);
      match NMoyPoints(assetData, last.0)
      case None =>
      case Some(points) =>
        if row in er {
          var k :| 0 <= k < |er| && er[k] == row;
          assert points[k] == Point(row.value, row.timestamp);
        }
        if row.name == last.1 && Point(row.value, row.timestamp) in points {
          var k :| 0 <= k < |points| && points[k] == Point(row.value, row.timestamp);
          assert er[k] == row;
        }
    }
  }

  /** The minute-0 filter keeps exactly the on-the-hour rows. */
  lemma {:induction false} OnTheHourRowsSpec(rows: seq<AssetRow>, row: AssetRow)
    ensures |OnTheHourRows(rows)| <= |rows|
    ensures row in OnTheHourRows(rows) <==> row in rows && OnTheHour(row.timestamp)
  {
    if rows != [] {
      var init := rows[..|rows| - 1];
      OnTheHourRowsSpec(init, row);
      assert rows == init + [rows[|rows| - 1]];
    }
  }

  lemma InstantInjective(a: Timestamp, b: Timestamp)
    requires Instant(a) == Instant(b)
    ensures a == b
  {
    assert Instant(a)[0] == Instant(b)[0] && Instant(a)[1] == Instant(b)[1] && Instant(a)[2] == Instant(b)[2];
    assert Instant(a)[3] == Instant(b)[3] && Instant(a)[4] == Instant(b)[4] && Instant(a)[5] == Instant(b)[5];
    assert Instant(a)[6] == Instant(b)[6];
  }

  lemma InstantDistinct(a: Timestamp, b: Timestamp)
    requires a != b
    ensures Instant(a) != Instant(b)
  {
    if a.year != b.year { assert Instant(a)[0] != Instant(b)[0]; }
    else if a.month != b.month { assert Instant(a)[1] != Instant(b)[1]; }
    else if a.day != b.day { assert Instant(a)[2] != Instant(b)[2]; }
    else if a.hour != b.hour { assert Instant(a)[3] != Instant(b)[3]; }
    else if a.minute != b.minute { assert Instant(a)[4] != Instant(b)[4]; }
    else if a.second != b.second { assert Instant(a)[5] != Instant(b)[5]; }
    else { assert Instant(a)[6] != Instant(b)[6]; }
  }

  /** The pivot's rows: one per distinct datetime of the rows, in strictly ascending time. */
  lemma SortedTimesSpec(rows: seq<AssetRow>)
    ensures forall t :: t in SortedTimes(rows) <==> exists k :: 0 <= k < |rows| && rows[k].timestamp == t
    ensures forall i, j :: 0 <= i < j < |SortedTimes(rows)| ==>
      LexLe(Instant(SortedTimes(rows)[i]), Instant(SortedTimes(rows)[j])) && SortedTimes(rows)[i] != SortedTimes(rows)[j]
  {
    var d := Distinct(TimesOf(rows));
    var times := SortedTimes(rows);
    DistinctSpec(TimesOf(rows));
    SortBySorted(d, Instant);
    assert KeysDistinct(d, Instant) by {
      forall i, j | 0 <= i < j < |d| ensures Instant(d[i]) != Instant(d[j]) {
        InstantDistinct(d[i], d[j]);
      }
    }
    PermutationKeysDistinct(d, times, Instant);
    forall t ensures t in times <==> exists k :: 0 <= k < |rows| && rows[k].timestamp == t {
      assert t in times <==> t in multiset(d);
      if t in TimesOf(rows) {
        var k :| 0 <= k < |rows| && TimesOf(rows)[k] == t;
      }
    }
  }

  /** Without duplicates, every row has its cell, holding its value, and every cell comes from a row. */
  lemma AssetCellsSpec(rows: seq<AssetRow>)
    requires !HasDuplicate(rows)
    ensures forall k :: 0 <= k < |rows| ==>
      (rows[k].timestamp, rows[k].name) in AssetCells(rows) && AssetCells(rows)[(rows[k].timestamp, rows[k].name)] == rows[k].value
    ensures forall p :: p in AssetCells(rows) ==> exists k :: 0 <= k < |rows| && p == (rows[k].timestamp, rows[k].name)
  {
    forall k | 0 <= k < |rows|
      ensures (rows[k].timestamp, rows[k].name) in AssetCells(rows) && AssetCells(rows)[(rows[k].timestamp, rows[k].name)] == rows[k].value
    {
      ValueOfUnique(rows, k);
    }
  }

  /**
   * The pivot fails exactly on a duplicate (datetime, name). Otherwise its
   * rows are SortedTimes, labelled by their formatted datetimes; one column
   * per distinct name, ascending; and the cells of AssetCells.
   */
  lemma PivotAssetsSpec(rows: seq<AssetRow>)
    ensures PivotAssets(rows).Failure? <==> HasDuplicate(rows)
    ensures PivotAssets(rows).Success? ==>
      var f := PivotAssets(rows).value;
      && f.AssetTable?
      && f.times == SortedTimes(rows)
      && |f.labels| == |f.times| && (forall k :: 0 <= k < |f.times| ==> f.labels[k] == Label(f.times[k]))
      && (forall n :: n in f.cols <==> exists k :: 0 <= k < |rows| && rows[k].name == n)
      && (forall i, j :: 0 <= i < j < |f.cols| ==> StrLe(f.cols[i], f.cols[j]) && f.cols[i] != f.cols[j])
      && f.cells == AssetCells(rows)
  {
    SortedSetSpec(NamesOf(rows));
    forall n ensures n in NamesOf(rows) <==> exists k :: 0 <= k < |rows| && rows[k].name == n {
      if n in NamesOf(rows) {
        var k :| 0 <= k < |rows| && NamesOf(rows)[k] == n;
      }
    }
  }

  lemma {:induction false} ValueOfUnique(rows: seq<AssetRow>, k: int)
    requires !HasDuplicate(rows) && 0 <= k < |rows|
    ensures ValueOf(rows, (rows[k].timestamp, rows[k].name)) == rows[k].value
  {
    var n := |rows| - 1;
    if k < n {
      var init := rows[..n];
      assert !HasDuplicate(init) by {
        forall i, j | 0 <= i < j < |init| ensures !(init[i].timestamp == init[j].timestamp && init[i].name == init[j].name) {
          assert init[i] == rows[i] && init[j] == rows[j];
        }
      }
      assert !(rows[k].timestamp == rows[n].timestamp && rows[k].name == rows[n].name);
      assert init[k] == rows[k];
      ValueOfUnique(init, k);
    }
  }

  /** With no row collected the result is `pd.DataFrame()`; otherwise it is the pivot of the on-the-hour rows. */
  lemma AssetFrameOfSpec(groupedAssets: Dict<string>, assetData: Dict<Record>)
    ensures AssetFrameOf(groupedAssets, assetData) == Success(NoAssetData) <==> AssetRows(groupedAssets, assetData) == []
  {
    var rows := OnTheHourRows(AssetRows(groupedAssets, assetData));
    if !HasDuplicate(rows) {
      assert PivotAssets(rows).value.AssetTable?;
    }
  }

  /**
   * Two points of one asset in the same minute but with different seconds
   * stay two rows (the pivot is on the full datetime), and both rows get
   * the same label once formatted.
   */
  lemma SameMinuteTwoRows(name: string, a: Timestamp, b: Timestamp, x: real, y: real)
    requires a.minute == 0 && b.minute == 0 && a != b
    requires a.year == b.year && a.month == b.month && a.day == b.day && a.hour == b.hour
    ensures var r := PivotAssets(OnTheHourRows([AssetRow(name, x, a), AssetRow(name, y, b)]));
      r.Success? && |r.value.times| == 2 && r.value.labels[0] == r.value.labels[1]
  {
    var rows := [AssetRow(name, x, a), AssetRow(name, y, b)];
    assert rows[..1] == [rows[0]];
    assert [rows[0]][..0] == [];
    assert OnTheHourRows([rows[0]]) == [rows[0]];
    assert OnTheHourRows(rows) == OnTheHourRows(rows[..1]) + [rows[1]];
    assert OnTheHourRows(rows) == rows;
    assert !HasDuplicate(rows);
    assert TimesOf(rows) == [a, b];
    assert [a, b][..1] == [a];
    assert [a][..0] == [];
    assert Distinct([a]) == [a];
    assert Distinct([a, b]) == Distinct([a]) + [b];
    assert Distinct(TimesOf(rows)) == [a, b];
    var times := SortBy([a, b], Instant);
    assert multiset(times) == multiset{a, b};
    assert times[0] in multiset(times) && times[1] in multiset(times);
    assert Label(a) == Label(b);
  }
}
