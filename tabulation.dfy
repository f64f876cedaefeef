/**
 * create_dataframes_by_type for the sensors: one table per sensor type,
 * built from the payloads extract_data kept. Rows are collected by loops;
 * the pandas tail (minute-0 filter, label, column id, mean of duplicates,
 * pivot) is a function on the collected rows.
 */
module Tabulation {
  import opened Wrappers
  import opened Ordering
  import opened Dicts
  import opened Timestamps
  import opened SensorsList
  import opened Series
  import opened Extraction

  /** One appended row: sensor id, payload datapoint key, value, time. */
  datatype RawRow = RawRow(identifier: string, typeKey: string, value: real, timestamp: Timestamp)

  /** A row after filtering and relabelling: row label, column id, value. */
  datatype Cell = Cell(rowKey: string, colKey: string, value: real)

  /**
   * A DataFrame as far as the program uses it: `pd.DataFrame()` (no rows
   * were collected), or a pivot with its row labels, its column ids and the
   * cells that hold a value (the others are NaN).
   */
  datatype Frame = Empty | Table(rows: seq<string>, cols: seq<string>, cells: map<(string, string), real>)

  // Collecting the rows

  function PointRows(identifier: string, typeKey: string, points: seq<Point>): (r: seq<RawRow>)
    ensures |r| == |points|
    ensures forall k :: 0 <= k < |points| ==> r[k] == RawRow(identifier, typeKey, points[k].v, points[k].t)
  {
    seq(|points|, k requires 0 <= k < |points| => RawRow(identifier, typeKey, points[k].v, points[k].t))
  }

  /** The rows of one `datapointTypes` dict, key after key. */
  function TypesRows(identifier: string, types: Dict<seq<Point>>): seq<RawRow>
  {
    if types == [] then []
    else
      var last := types[|types| - 1];
      TypesRows(identifier, types[..|types| - 1]) + PointRows(identifier, last.0, last.1)
  }

  /** The rows of one kept payload: only its entry under the sensor's own id, if any. */
  function PayloadRows(sensorId: string, payload: Dict<Record>): seq<RawRow>
  {
    match Get(payload, sensorId)
    case None => []
    case Some(record) => TypesRows(sensorId, record.datapointTypes.GetOr([]))
  }

  function SensorRows(sensorId: string, payloads: seq<Dict<Record>>): seq<RawRow>
  {
    if payloads == [] then []
    else SensorRows(sensorId, payloads[..|payloads| - 1]) + PayloadRows(sensorId, payloads[|payloads| - 1])
  }

  /** The rows of a group, sensor after sensor; a sensor missing from the type's data has none. */
  function GroupRows(sensorIds: seq<string>, typeData: TypeData): seq<RawRow>
  {
    if sensorIds == [] then []
    else
      var id := sensorIds[|sensorIds| - 1];
      GroupRows(sensorIds[..|sensorIds| - 1], typeData) + SensorRows(id, Get(typeData, id).GetOr([]))
  }

  // The pandas tail

  /** `df['Identifier'] + '-' + df['Datatype']` */
  function ColumnId(name: string, typeKey: string): string
  {
    name + "-" + typeKey
  }

  /** The rows kept by `.dt.minute == 0`, with the id mapped to its name, the label and the column id. */
  function Cells(names: Dict<string>, rows: seq<RawRow>): seq<Cell>
    requires forall k :: 0 <= k < |rows| ==> rows[k].identifier in Keys(names)
  {
    if rows == [] then []
    else
      var row := rows[|rows| - 1];
      GetNone(names, row.identifier);
      var name := Get(names, row.identifier).value;
      Cells(names, rows[..|rows| - 1])
        + (if OnTheHour(row.timestamp) then [Cell(Label(row.timestamp), ColumnId(name, row.typeKey), row.value)] else [])
  }

  function Labels(cells: seq<Cell>): (r: seq<string>)
    ensures |r| == |cells| && forall k :: 0 <= k < |cells| ==> r[k] == cells[k].rowKey
  {
    seq(|cells|, k requires 0 <= k < |cells| => cells[k].rowKey)
  }

  function Ids(cells: seq<Cell>): (r: seq<string>)
    ensures |r| == |cells| && forall k :: 0 <= k < |cells| ==> r[k] == cells[k].colKey
  {
    seq(|cells|, k requires 0 <= k < |cells| => cells[k].colKey)
  }

  /** The values of the cells at one (row, column), in row order. */
  function ValuesAt(cells: seq<Cell>, rowKey: string, colKey: string): seq<real>
  {
    if cells == [] then []
    else
      var c := cells[|cells| - 1];
      ValuesAt(cells[..|cells| - 1], rowKey, colKey) + (if c.rowKey == rowKey && c.colKey == colKey then [c.value] else [])
  }

  function Sum(values: seq<real>): real
  {
    if values == [] then 0.0 else Sum(values[..|values| - 1]) + values[|values| - 1]
  }

  /** `agg({'Value': 'mean'})` of one group of duplicates. */
  function Mean(values: seq<real>): real
    requires values != []
  {
    Sum(values) / (|values| as real)
  }

  function CellKeys(cells: seq<Cell>): set<(string, string)>
  {
    set k | 0 <= k < |cells| :: (cells[k].rowKey, cells[k].colKey)
  }

  /**
   * The groupby-mean and the pivot: one row per distinct label and one
   * column per distinct id, both ascending; each present (label, id) holds
   * the mean of its values (a lone value is its own mean, so the branch
   * that skips the groupby when there are no duplicates gives the same).
   */
  function Pivot(cells: seq<Cell>): Frame
  {
    Table(
      SortedSet(Labels(cells)),
      SortedSet(Ids(cells)),
      map p | p in CellKeys(cells) :: MeanAt(cells, p))
  }

  function MeanAt(cells: seq<Cell>, p: (string, string)): real
  {
    var values := ValuesAt(cells, p.0, p.1);
    if values == [] then 0.0 else Mean(values)
  }

  /** The frame of one group: empty when no row was collected, else the pivot. */
  function FrameFor(group: Group, typeData: TypeData): Frame
  {
    var rows := GroupRows(Keys(group.sensors), typeData);
    if rows == [] then Empty
    else
      GroupRowsIdentifiers(Keys(group.sensors), typeData);
      Pivot(Cells(group.sensors, rows))
  }

  /** `df_dict` after the given groups. */
  function Frames(sensorData: map<string, TypeData>, groups: seq<Group>): map<string, Frame>
    requires forall k :: 0 <= k < |groups| ==> groups[k].sensorType in sensorData
  {
    if groups == [] then map[]
    else
      var last := groups[|groups| - 1];
      Frames(sensorData, groups[..|groups| - 1])[last.sensorType := FrameFor(last, sensorData[last.sensorType])]
  }

  /** The keys of `df_dict` are exactly the types of the groups. */
  lemma {:induction false} FramesKeys(sensorData: map<string, TypeData>, groups: seq<Group>)
    requires forall k :: 0 <= k < |groups| ==> groups[k].sensorType in sensorData
    ensures forall t :: t in Frames(sensorData, groups) <==> exists i :: 0 <= i < |groups| && groups[i].sensorType == t
  {
    if groups != [] {
      var init := groups[..|groups| - 1];
      FramesKeys(sensorData, init);
      forall t ensures t in Frames(sensorData, groups) <==> exists i :: 0 <= i < |groups| && groups[i].sensorType == t
      {
        if exists i :: 0 <= i < |init| && init[i].sensorType == t {
          var i :| 0 <= i < |init| && init[i].sensorType == t;
          assert groups[i] == init[i];
        }
        if exists i :: 0 <= i < |groups| && groups[i].sensorType == t {
          var i :| 0 <= i < |groups| && groups[i].sensorType == t;
          if i < |init| {
            assert init[i] == groups[i];
          }
        }
      }
    }
  }

  /** The frame of a type is built from the last group of that type. */
  lemma {:induction false} FramesLast(sensorData: map<string, TypeData>, groups: seq<Group>, i: int)
    requires forall k :: 0 <= k < |groups| ==> groups[k].sensorType in sensorData
    requires 0 <= i < |groups|
    requires forall j :: i < j < |groups| ==> groups[j].sensorType != groups[i].sensorType
    ensures var frames := Frames(sensorData, groups);
      groups[i].sensorType in frames && frames[groups[i].sensorType] == FrameFor(groups[i], sensorData[groups[i].sensorType])
  {
    if i < |groups| - 1 {
      var init := groups[..|groups| - 1];
      assert init[i] == groups[i];
      forall j | i < j < |init| ensures init[j].sensorType != init[i].sensorType {
        assert init[j] == groups[j];
      }
      FramesLast(sensorData, init, i);
    }
  }

  // The loops

  /** The innermost two loops: every point of every key of one `datapointTypes` dict. */
  method AppendTypes(rows: seq<RawRow>, sensorId: string, types: Dict<seq<Point>>) returns (r: seq<RawRow>)
    ensures r == rows + TypesRows(sensorId, types)
  {
    r := rows;
    var i := 0;
    while i < |types|
      invariant 0 <= i <= |types|
      invariant r == rows + TypesRows(sensorId, types[..i])
    {
      var (typeKey, datapoints) := types[i];
      ghost var before := r;
      var m := 0;
      while m < |datapoints|
        invariant 0 <= m <= |datapoints|
        invariant r == before + PointRows(sensorId, typeKey, datapoints[..m])
      {
        var point := datapoints[m];
        assert PointRows(sensorId, typeKey, datapoints[..m + 1]) == PointRows(sensorId, typeKey, datapoints[..m]) + [RawRow(sensorId, typeKey, point.v, point.t)];
        r := r + [RawRow(sensorId, typeKey, point.v, point.t)];
        m := m + 1;
      }
      assert datapoints[..m] == datapoints;
      assert types[..i + 1][..i] == types[..i];
      i := i + 1;
    }
    assert types[..i] == types;
  }

  /** The loops over one sensor's kept payloads. */
  method AppendSensor(rows: seq<RawRow>, sensorId: string, sensorList: seq<Dict<Record>>) returns (r: seq<RawRow>)
    ensures r == rows + SensorRows(sensorId, sensorList)
  {
    r := rows;
    var i := 0;
    while i < |sensorList|
      invariant 0 <= i <= |sensorList|
      invariant r == rows + SensorRows(sensorId, sensorList[..i])
    {
      var part := AppendPayload([], sensorId, sensorList[i]);
      AppendSensorStep(rows, r, sensorId, sensorList, i, part);
      r := r + part;
      i := i + 1;
    }
    assert sensorList[..i] == sensorList;
  }

  lemma AppendSensorStep(rows: seq<RawRow>, r: seq<RawRow>, sensorId: string, sensorList: seq<Dict<Record>>, i: int, part: seq<RawRow>)
    requires 0 <= i < |sensorList|
    requires r == rows + SensorRows(sensorId, sensorList[..i])
    requires part == [] + PayloadRows(sensorId, sensorList[i])
    ensures r + part == rows + SensorRows(sensorId, sensorList[..i + 1])
  {
    SensorRowsSnoc(sensorId, sensorList, i);
    ConcatAssoc(rows, SensorRows(sensorId, sensorList[..i]), PayloadRows(sensorId, sensorList[i]));
  }

  lemma ConcatAssoc<T>(a: seq<T>, b: seq<T>, c: seq<T>)
    ensures (a + b) + ([] + c) == a + (b + c)
  {
  }

  /** The body of the loop over a sensor's payloads: skip a payload without the sensor's id. */
  method AppendPayload(rows: seq<RawRow>, sensorId: string, sensorDict: Dict<Record>) returns (r: seq<RawRow>)
    ensures r == rows + PayloadRows(sensorId, sensorDict)
  {
    r := rows;
    match Get(sensorDict, sensorId) {
      case None =>
      case Some(record) =>
        var datapointTypes := record.datapointTypes.GetOr([]);
        r := AppendTypes(r, sensorId, datapointTypes);
    }
  }

  lemma SensorRowsSnoc(sensorId: string, payloads: seq<Dict<Record>>, i: int)
    requires 0 <= i < |payloads|
    ensures SensorRows(sensorId, payloads[..i + 1]) == SensorRows(sensorId, payloads[..i]) + PayloadRows(sensorId, payloads[i])
  {
    assert payloads[..i + 1][..i] == payloads[..i];
  }

  method CollectRows(group: Group, dataForThisType: TypeData) returns (rows: seq<RawRow>)
    ensures rows == GroupRows(Keys(group.sensors), dataForThisType)
  {
    var sensorIds := Keys(group.sensors);
    rows := [];
    var j := 0;
    while j < |sensorIds|
      invariant 0 <= j <= |sensorIds|
      invariant rows == GroupRows(sensorIds[..j], dataForThisType)
    {
      var sensorList := Get(dataForThisType, sensorIds[j]).GetOr([]);
      assert sensorIds[..j + 1][..j] == sensorIds[..j];
      rows := AppendSensor(rows, sensorIds[j], sensorList);
      j := j + 1;
    }
    assert sensorIds[..j] == sensorIds;
  }

  /** create_dataframes_by_type: `sensor_data[type]` must exist for every group (a KeyError otherwise). */
  method CreateDataframesByType(sensorData: map<string, TypeData>, groups: seq<Group>) returns (dfDict: map<string, Frame>)
    requires forall k :: 0 <= k < |groups| ==> groups[k].sensorType in sensorData
    ensures dfDict == Frames(sensorData, groups)
  {
    dfDict := map[];
    var i := 0;
    while i < |groups|
      invariant 0 <= i <= |groups|
      invariant dfDict == Frames(sensorData, groups[..i])
    {
      var group := groups[i];
      var rows := CollectRows(group, sensorData[group.sensorType]);
      assert groups[..i + 1][..i] == groups[..i];
      var frame: Frame;
      if rows == [] {
        frame := Empty;
      } else {
        GroupRowsIdentifiers(Keys(group.sensors), sensorData[group.sensorType]);
        frame := Pivot(Cells(group.sensors, rows));
      }
      assert frame == FrameFor(group, sensorData[group.sensorType]);
      dfDict := dfDict[group.sensorType := frame];
      i := i + 1;
    }
    assert groups[..i] == groups;
  }

  // Properties

  lemma {:induction false} TypesRowsIdentifier(identifier: string, types: Dict<seq<Point>>)
    ensures forall k :: 0 <= k < |TypesRows(identifier, types)| ==> TypesRows(identifier, types)[k].identifier == identifier
  {
    if types != [] {
      TypesRowsIdentifier(identifier, types[..|types| - 1]);
    }
  }

  lemma {:induction false} SensorRowsIdentifier(sensorId: string, payloads: seq<Dict<Record>>)
    ensures forall k :: 0 <= k < |SensorRows(sensorId, payloads)| ==> SensorRows(sensorId, payloads)[k].identifier == sensorId
  {
    if payloads != [] {
      SensorRowsIdentifier(sensorId, payloads[..|payloads| - 1]);
      match Get(payloads[|payloads| - 1], sensorId)
      case None =>
      case Some(record) => TypesRowsIdentifier(sensorId, record.datapointTypes.GetOr([]));
    }
  }

  /** Every collected row belongs to one of the group's sensors. */
  lemma {:induction false} GroupRowsIdentifiers(sensorIds: seq<string>, typeData: TypeData)
    ensures forall k :: 0 <= k < |GroupRows(sensorIds, typeData)| ==> GroupRows(sensorIds, typeData)[k].identifier in sensorIds
  {
    if sensorIds != [] {
      var init := sensorIds[..|sensorIds| - 1];
      var id := sensorIds[|sensorIds| - 1];
      GroupRowsIdentifiers(init, typeData);
      SensorRowsIdentifier(id, Get(typeData, id).GetOr([]));
      assert forall x :: x in init ==> x in sensorIds;
    }
  }

  /** A row is collected exactly when it is a point under some key of the dict, tagged with the given id. */
  lemma {:induction false} TypesRowsSpec(identifier: string, types: Dict<seq<Point>>, row: RawRow)
    ensures row in TypesRows(identifier, types) <==>
      row.identifier == identifier &&
      exists k :: 0 <= k < |types| && types[k].0 == row.typeKey && Point(row.value, row.timestamp) in types[k].1
  {
    if types != [] {
      var init := types[..|types| - 1];
      var last := types[|types| - 1];
      TypesRowsSpec(identifier, init, row);
      assert forall k :: 0 <= k < |init| ==> init[k] == types[k];
      var pr := PointRows(identifier, last.0, last.1);
      if row in pr {
        var k :| 0 <= k < |pr| && pr[k] == row;
        assert last.1[k] == Point(row.value, row.timestamp);
      }
      if row.identifier == identifier && last.0 == row.typeKey && Point(row.value, row.timestamp) in last.1 {
        var k :| 0 <= k < |last.1| && last.1[k] == Point(row.value, row.timestamp);
        assert pr[k] == row;
      }
    }
  }

  /** A kept payload yields rows only through the entry under the sensor's own id; other entries are ignored. */
  lemma PayloadRowsSpec(sensorId: string, payload: Dict<Record>, row: RawRow)
    ensures row in PayloadRows(sensorId, payload) <==>
      && row.identifier == sensorId
      && Get(payload, sensorId).Some?
      && Get(payload, sensorId).value.datapointTypes.Some?
      && var types := Get(payload, sensorId).value.datapointTypes.value;
         exists k :: 0 <= k < |types| && types[k].0 == row.typeKey && Point(row.value, row.timestamp) in types[k].1
  {
    match Get(payload, sensorId)
    case None =>
    case Some(record) => TypesRowsSpec(sensorId, record.datapointTypes.GetOr([]), row);
  }

  /** The cell of a row that passes the minute-0 filter. */
  function CellOf(names: Dict<string>, row: RawRow): Cell
    requires row.identifier in Keys(names)
  {
    GetNone(names, row.identifier);
    Cell(Label(row.timestamp), ColumnId(Get(names, row.identifier).value, row.typeKey), row.value)
  }

  /**
   * The filter and relabelling: a cell is the relabelled form of a collected
   * row whose minute is 0 (seconds are not looked at), and no other row
   * gives a cell.
   */
  lemma {:induction false} CellsSpec(names: Dict<string>, rows: seq<RawRow>, c: Cell)
    requires forall k :: 0 <= k < |rows| ==> rows[k].identifier in Keys(names)
    ensures |Cells(names, rows)| <= |rows|
    ensures c in Cells(names, rows) <==>
      exists k :: 0 <= k < |rows| && OnTheHour(rows[k].timestamp) && c == CellOf(names, rows[k])
  {
    if rows != [] {
      var init := rows[..|rows| - 1];
      assert forall k :: 0 <= k < |init| ==> init[k] == rows[k];
      CellsSpec(names, init, c);
    }
  }

  /** A value is among those averaged at a (label, column) exactly when some cell at that pair holds it. */
  lemma {:induction false} ValuesAtMember(cells: seq<Cell>, rowKey: string, colKey: string, v: real)
    ensures v in ValuesAt(cells, rowKey, colKey) <==> Cell(rowKey, colKey, v) in cells
  {
    if cells != [] {
      var init := cells[..|cells| - 1];
      var last := cells[|cells| - 1];
      ValuesAtMember(init, rowKey, colKey, v);
      assert cells == init + [last];
      var extra := if last.rowKey == rowKey && last.colKey == colKey then [last.value] else [];
      assert ValuesAt(cells, rowKey, colKey) == ValuesAt(init, rowKey, colKey) + extra;
      assert v in ValuesAt(init, rowKey, colKey) + extra <==> v in ValuesAt(init, rowKey, colKey) || v in extra;
      assert Cell(rowKey, colKey, v) in cells <==> Cell(rowKey, colKey, v) in init || Cell(rowKey, colKey, v) == last;
    }
  }

  lemma CellKeysSnoc(init: seq<Cell>, last: Cell)
    ensures CellKeys(init + [last]) == CellKeys(init) + {(last.rowKey, last.colKey)}
  {
    var cells := init + [last];
    forall p ensures p in CellKeys(cells) <==> p in CellKeys(init) || p == (last.rowKey, last.colKey) {
      if p in CellKeys(cells) {
        var k :| 0 <= k < |cells| && p == (cells[k].rowKey, cells[k].colKey);
        if k < |init| { assert init[k] == cells[k]; }
      }
      if p in CellKeys(init) {
        var k :| 0 <= k < |init| && p == (init[k].rowKey, init[k].colKey);
        assert cells[k] == init[k];
      }
      if p == (last.rowKey, last.colKey) {
        assert cells[|init|] == last;
      }
    }
  }

  /** There are values to average at a (label, column) exactly when some cell has that pair. */
  lemma {:induction false} ValuesAtNonEmpty(cells: seq<Cell>, rowKey: string, colKey: string)
    ensures ValuesAt(cells, rowKey, colKey) != [] <==> (rowKey, colKey) in CellKeys(cells)
  {
    if cells != [] {
      var init := cells[..|cells| - 1];
      var last := cells[|cells| - 1];
      ValuesAtNonEmpty(init, rowKey, colKey);
      assert cells == init + [last];
      CellKeysSnoc(init, last);
    }
  }

  lemma {:induction false} SumBounds(values: seq<real>, lo: real, hi: real)
    requires forall k :: 0 <= k < |values| ==> lo <= values[k] <= hi
    ensures (|values| as real) * lo <= Sum(values) <= (|values| as real) * hi
  {
    if values != [] {
      SumBounds(values[..|values| - 1], lo, hi);
    }
  }

  /** The mean lies between the smallest and the largest of the averaged values. */
  lemma MeanBounds(values: seq<real>, lo: real, hi: real)
    requires values != []
    requires forall k :: 0 <= k < |values| ==> lo <= values[k] <= hi
    ensures lo <= Mean(values) <= hi
  {
    SumBounds(values, lo, hi);
    var n := |values| as real;
    assert n > 0.0;
    assert n * lo <= Sum(values) <= n * hi;
    assert Mean(values) == Sum(values) / n;
    assert Sum(values) / n >= lo by {
      assert Sum(values) / n * n == Sum(values);
    }
    assert Sum(values) / n <= hi by {
      assert Sum(values) / n * n == Sum(values);
    }
  }

  /** Averaging equal values (in particular one value) gives that value back. */
  lemma MeanOfEqual(values: seq<real>, v: real)
    requires values != []
    requires forall k :: 0 <= k < |values| ==> values[k] == v
    ensures Mean(values) == v
  {
    MeanBounds(values, v, v);
  }

  /** The pivot's rows are the distinct labels, strictly ascending. */
  lemma PivotRows(cells: seq<Cell>)
    ensures Pivot(cells).Table?
    ensures forall l :: l in Pivot(cells).rows <==> exists k :: 0 <= k < |cells| && cells[k].rowKey == l
    ensures forall i, j :: 0 <= i < j < |Pivot(cells).rows| ==>
      StrLe(Pivot(cells).rows[i], Pivot(cells).rows[j]) && Pivot(cells).rows[i] != Pivot(cells).rows[j]
  {
    var labels := Labels(cells);
    SortedSetSpec(labels);
    forall l ensures l in labels <==> exists k :: 0 <= k < |cells| && cells[k].rowKey == l {
      if l in labels {
        var k :| 0 <= k < |cells| && labels[k] == l;
      }
    }
  }

  /** The pivot's columns are the distinct column ids, strictly ascending. */
  lemma PivotCols(cells: seq<Cell>)
    ensures Pivot(cells).Table?
    ensures forall c :: c in Pivot(cells).cols <==> exists k :: 0 <= k < |cells| && cells[k].colKey == c
    ensures forall i, j :: 0 <= i < j < |Pivot(cells).cols| ==>
      StrLe(Pivot(cells).cols[i], Pivot(cells).cols[j]) && Pivot(cells).cols[i] != Pivot(cells).cols[j]
  {
    var ids := Ids(cells);
    SortedSetSpec(ids);
    forall c ensures c in ids <==> exists k :: 0 <= k < |cells| && cells[k].colKey == c {
      if c in ids {
        var k :| 0 <= k < |cells| && ids[k] == c;
      }
    }
  }

  /**
   * A (row, column) pair of the pivot holds a value exactly when some cell
   * has it, and that value is the mean of the pair's values.
   */
  lemma PivotCells(cells: seq<Cell>)
    ensures Pivot(cells).Table?
    ensures forall l, c :: (l, c) in Pivot(cells).cells <==> exists k :: 0 <= k < |cells| && cells[k].rowKey == l && cells[k].colKey == c
    ensures forall l, c :: (l, c) in Pivot(cells).cells ==>
      ValuesAt(cells, l, c) != [] && Pivot(cells).cells[(l, c)] == Mean(ValuesAt(cells, l, c))
  {
    forall l, c | (l, c) in Pivot(cells).cells
      ensures ValuesAt(cells, l, c) != [] && Pivot(cells).cells[(l, c)] == Mean(ValuesAt(cells, l, c))
    {
      ValuesAtNonEmpty(cells, l, c);
    }
  }

  /** A present cell's value lies between the smallest and the largest of the duplicates it averages. */
  lemma PivotCellBounds(cells: seq<Cell>, l: string, c: string, lo: real, hi: real)
    requires (l, c) in Pivot(cells).cells
    requires forall k :: 0 <= k < |cells| && cells[k].rowKey == l && cells[k].colKey == c ==> lo <= cells[k].value <= hi
    ensures lo <= Pivot(cells).cells[(l, c)] <= hi
  {
    PivotCells(cells);
    var values := ValuesAt(cells, l, c);
    forall k | 0 <= k < |values| ensures lo <= values[k] <= hi {
      ValuesAtMember(cells, l, c, values[k]);
      assert values[k] in values;
      var j :| 0 <= j < |cells| && cells[j] == Cell(l, c, values[k]);
    }
    MeanBounds(values, lo, hi);
  }

  /** The frame is `pd.DataFrame()` exactly when no row was collected; collected rows all off the hour give an empty pivot. */
  lemma FrameForSpec(group: Group, typeData: TypeData)
    ensures FrameFor(group, typeData) == Empty <==> GroupRows(Keys(group.sensors), typeData) == []
    ensures var rows := GroupRows(Keys(group.sensors), typeData);
      rows != [] && (forall k :: 0 <= k < |rows| ==> !OnTheHour(rows[k].timestamp)) ==>
        FrameFor(group, typeData) == Table([], [], map[])
  {
    var rows := GroupRows(Keys(group.sensors), typeData);
    if rows != [] && (forall k :: 0 <= k < |rows| ==> !OnTheHour(rows[k].timestamp)) {
      GroupRowsIdentifiers(Keys(group.sensors), typeData);
      var cells := Cells(group.sensors, rows);
      if cells != [] {
        CellsSpec(group.sensors, rows, cells[0]);
      }
      assert Labels([]) == [] && Ids([]) == [];
    }
  }
}
