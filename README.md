# SensorFlow Extractor, modelled in Dafny

SensorFlow Extractor pulls time series out of a monitoring platform. The
operator picks a project from a `name:id` file and picks sensor types. For
each type the program finds the derived datapoints that the sensors
advertise, and adds a fixed datapoint for three types. The operator then
picks datapoints. The program requests one series per sensor and per picked
datapoint, and builds one table per sensor type: rows are
`YYYY-MM-DD HH:MM` labels taken on the hour, columns are `name-datapoint`,
and duplicate (label, column) values are averaged. Assets work the same
way, with one fixed `N_moy` series each, pivoted on the full datetime. A
JSON config file remembers answers per project scope. Earlier multi-choice
selections can be reused, and an in-memory flag per scope records whether
they are.

The model is one module per source file. `SensorsList` models
`B11_sensors_list.py`. `B12_sensor_informations.py` becomes three modules:

- `Catalogue` for the datapoint catalogue and its selection;
- `Extraction` for `extract_data`;
- `Tabulation` for `create_dataframes_by_type`.

`Assets` models `B20_assets.py`, `ProjectSelection` models
`B10_select_project_id.py`, `ConfigHandler` models `config_handler.py`, and
`UserChoice` models `Z00_get_user_choice.py`. Four shared modules support
them:

- `Wrappers`: `Option` and `Result`.
- `Ordering`: lexicographic order, and the stable sort that stands for Python's `sorted`.
- `Dicts`: an insertion-ordered dict as a list of pairs.
- `Text`: `strip`, `lower`, `split`, `isdigit` and `int`.

`Timestamps` and `Series` hold the shared value types.

The model follows the source's own form:

- Every loop of the source is a `method` with a `while` loop. Each method is
  proved equal to a specification function, and lemmas state what those
  functions mean.
- The config file and the reuse flags are the fields of the class
  `ConfigHandler.Session`, which its methods update.
- Network answers are function parameters from the request to the answer.
- Widget outputs and typed lines are parameters. Running out of typed lines
  stands for end of input.

The injection guard is modelled as written: the tiltmeter guard tests for
the name `Temp` but appends `Température`, and the weather-station guard
tests for `PRECIPITATION_1H` but appends `Précipitations_1h`. So the
injection is idempotent for piezometers only. Running it twice on a
tiltmeter list with no datapoint named `Temp`, or on a weather-station list
with no datapoint named `PRECIPITATION_1H`, appends the fixed entry twice
(`Catalogue.InjectTiltmetersTwice`, `Catalogue.InjectWeatherStationsTwice`).
A list that has such a name gets nothing appended.

## Model

| member | source | states |
|---|---|---|
| SensorsList.SensorTypes | B11_sensors_list.py:27-32 | The offered type labels are exactly the labels of the listed sensors, strictly ascending, so each appears once. |
| SensorsList.ChooseSensorTypes | B11_sensors_list.py:36-49 | An empty choice stops the run (None). Any other choice is passed on unchanged. |
| SensorsList.IdNamePairsSpec | B11_sensors_list.py:60-68 | The id dict has exactly the ids of the sensors whose label matches. The value of an id is the name of its last such sensor. |
| SensorsList.GroupForSpec | B11_sensors_list.py:59-71 | A group has the chosen label and one key per matching sensor id. Each id maps to its last matching name and the keys are distinct. The entries are sorted by name, and entries with equal names keep their order (a stable sort). |
| SensorsList.GetDictOfIdSensors | B11_sensors_list.py:53-73 | There is one group per chosen label, in the chosen order, and each is that label's group. |
| Catalogue.BuildEntry | B12_sensor_informations.py:27-66 | One pass of the group loop builds that group's entry: its type, and the deduplicated datapoints its sensors advertise, with the injection as written, sorted by name. |
| Catalogue.DiscoverDatapoints | B12_sensor_informations.py:30-48 | The discovery loop over one group's sensors yields the deduplicated list of what the 200 answers advertise. |
| Catalogue.AddAllUnseen | B12_sensor_informations.py:43-48 | Appending one answer's datapoints extends the deduplication of everything advertised so far by that answer. |
| Catalogue.AppendDefaults | B12_sensor_informations.py:51-59 | The three injection statements compute the injection, guards as written. |
| Catalogue.DerivedDatapointsList | B12_sensor_informations.py:9-68 | The result is the per-group entries sorted by type. |
| Catalogue.AdvertisedSpec | B12_sensor_informations.py:38-43 | A datapoint is advertised exactly when some sensor of the group answered 200 and lists it. |
| Catalogue.DedupNames | B12_sensor_informations.py:43-48 | Deduplication keeps the set of names. |
| Catalogue.DedupNoDup | B12_sensor_informations.py:43-48 | After deduplication each name occurs once. |
| Catalogue.DedupFirst | B12_sensor_informations.py:43-48 | Each kept entry is the first datapoint of the input with its name. |
| Catalogue.DedupByNameSpec | B12_sensor_informations.py:43-48 | After deduplication each name occurs once, the set of names is unchanged, and each kept entry is the first datapoint of the input with its name. |
| Catalogue.DiscoveredSpec | B12_sensor_informations.py:30-48 | A group's discovered names are unique. They are exactly the names listed by the sensors that answered 200. |
| Catalogue.CountNamePositive | B12_sensor_informations.py:52-58 | A name is counted in a list exactly when it occurs in the list's names (the guards' `not in` test). |
| Catalogue.InjectSpec | B12_sensor_informations.py:51-59 | The injection appends at most one entry and leaves other types alone. For piezometers, Hauteur_eau ends up present exactly once when it was absent. The tiltmeter and weather-station entries are appended whenever `Temp` or `PRECIPITATION_1H` is absent as a name. The appended entry is (Température, Temp), (Précipitations_1h, PRECIPITATION_1H) or (Hauteur_eau, Hauteur_eau). |
| Catalogue.InjectNoDup | B12_sensor_informations.py:51-59 | On a list with unique names, the result keeps unique names exactly when no mismatch case occurs. The mismatch cases are a tiltmeter list already holding Température and a weather-station list already holding Précipitations_1h. |
| Catalogue.InjectTiltmetersTwice | B12_sensor_informations.py:51-53 | Injecting twice into a tiltmeter list with no datapoint named `Temp` appends Température twice. |
| Catalogue.InjectWeatherStationsTwice | B12_sensor_informations.py:54-56 | Injecting twice into a weather-station list with no datapoint named `PRECIPITATION_1H` appends Précipitations_1h twice. |
| Catalogue.InjectPiezometersIdempotent | B12_sensor_informations.py:57-59 | The piezometer injection is idempotent. |
| Catalogue.TiltmeterTemperatureTwice | B12_sensor_informations.py:43-61 | Suppose a tiltmeter group's answers list a Température datapoint and none named `Temp`. Its catalogue then holds exactly two Température entries: first the one the answers list first, then the injected (Température, Temp). |
| Catalogue.CatalogueOfSpec | B12_sensor_informations.py:61-66 | An entry keeps its type. Its datapoints are sorted by name and are a permutation of the injected list, and equal names keep their order. |
| Catalogue.DatapointCatalogueEntries | B12_sensor_informations.py:63-68 | The sorted catalogue holds exactly one entry per group, and each entry is some group's own entry. |
| Catalogue.DatapointCatalogueOrder | B12_sensor_informations.py:68 | With distinct group types, the catalogue is in strictly ascending type order. |
| Catalogue.SelectDatapoints | B12_sensor_informations.py:94 | The selection is a subsequence of the entry's datapoints. It holds each datapoint with a chosen name as often as the entry does, and nothing else. |
| Catalogue.SelectDerivedDatapoints | B12_sensor_informations.py:75-101 | There is one selection per catalogue entry, with the same type and that entry's filtered datapoints. |
| Catalogue.SelectDatapointsNames | B12_sensor_informations.py:94 | A name is selected exactly when it was chosen and the entry has it. |
| Extraction.KindForSpec | B12_sensor_informations.py:155-162 | The kind is "acquired" exactly for the three listed (type, name) pairs. Every other pair uses the requested kind. |
| Extraction.SensorQueries | B12_sensor_informations.py:164-181 | There is one request per datapoint, in order. Each request names the sensor, the datapoint's code, the kind rule, the time range and the error statuses [0, -7, -5]. |
| Extraction.AllSelectedLength | B12_sensor_informations.py:151-152 | Each sensor is asked once per selected datapoint of every type: the request list is as long as all selections together. |
| Extraction.AllSelectedAt | B12_sensor_informations.py:151-152 | Each sensor is asked for every selected datapoint of every type, not only its own. The m-th datapoint of selection s is the request at position m after all datapoints of the earlier selections. |
| Extraction.SensorQueriesSpec | B12_sensor_informations.py:151-187 | A sensor's requests number the total count of selected datapoints, and the k-th request is for the k-th selected datapoint. |
| Extraction.UsableSpec | B12_sensor_informations.py:189-194 | The kept payloads come at most one per request and in request order. Each is the non-empty `data` of a 200 answer, and when every answer qualifies all are kept. |
| Extraction.UsableAppend | B12_sensor_informations.py:149-194 | The payloads kept from two runs of requests are the first run's followed by the second's. |
| Extraction.FailedRequestIgnored | B12_sensor_informations.py:189-194 | A request that fails, or whose data is empty, contributes nothing: dropping it leaves the list unchanged. |
| Extraction.GroupData | B12_sensor_informations.py:144-196 | A type's data has one key per sensor id of the group, in the group's order. |
| Extraction.FetchSelection | B12_sensor_informations.py:152-194 | The loop over one selection's datapoints extends the kept payloads by those of its requests. |
| Extraction.UsableStep | B12_sensor_informations.py:183-194 | One more request adds its answer's `data` exactly when it answered 200 with non-empty data. |
| Extraction.FetchSensor | B12_sensor_informations.py:149-196 | The two request loops of one sensor store exactly the kept payloads of its requests. |
| Extraction.FetchGroup | B12_sensor_informations.py:144-196 | The loop over a group's sensors builds that group's data. |
| Extraction.ExtractData | B12_sensor_informations.py:108-198 | extract_data returns the data of all groups. |
| Extraction.SensorDataKeys | B12_sensor_informations.py:140-198 | The keys of the result are exactly the groups' types. |
| Extraction.SensorDataLast | B12_sensor_informations.py:142-196 | A type's entry is the data of the last group of that type: a later group of the same type overwrites an earlier one. |
| Tabulation.PointRows | B12_sensor_informations.py:241-247 | One row is made per point, holding the sensor id, the key, the value and the time. |
| Tabulation.AppendTypes | B12_sensor_informations.py:238-247 | The two inner loops append the rows of one `datapointTypes` dict. |
| Tabulation.AppendSensor | B12_sensor_informations.py:233-247 | The loop over a sensor's payloads appends that sensor's rows. Payloads without the sensor's own id are skipped. |
| Tabulation.AppendPayload | B12_sensor_informations.py:235-247 | One payload appends the rows of its entry under the sensor's own id, and nothing when it has none. |
| Tabulation.SensorRowsSnoc | B12_sensor_informations.py:233-247 | One more payload adds exactly its own rows after those of the earlier payloads. |
| Tabulation.CollectRows | B12_sensor_informations.py:231-247 | A group's rows are collected sensor by sensor. A sensor missing from the type's data has none. |
| Tabulation.CreateDataframesByType | B12_sensor_informations.py:205-279 | The loop builds `df_dict` group by group, each step storing the group's frame under its type. |
| Tabulation.FramesKeys | B12_sensor_informations.py:205-279 | The keys of `df_dict` are exactly the groups' types. |
| Tabulation.FramesLast | B12_sensor_informations.py:205-279 | A type's frame is the frame of the last group of that type: a later group of the same type overwrites an earlier one. |
| Tabulation.TypesRowsSpec | B12_sensor_informations.py:240-247 | A row is collected exactly when it is a point under some key of the dict, tagged with the sensor id. |
| Tabulation.PayloadRowsSpec | B12_sensor_informations.py:235-247 | A payload yields rows only through the entry under the sensor's own id and its `datapointTypes`. |
| Tabulation.GroupRowsIdentifiers | B12_sensor_informations.py:232-247 | Every collected row belongs to one of the group's sensors, so the mapping to names is defined. |
| Tabulation.CellsSpec | B12_sensor_informations.py:256-267 | A cell is exactly a collected row whose minute is 0, relabelled with the sensor's name, the `name-key` column and the minute label. No other row gives a cell. |
| Tabulation.ValuesAtMember | B12_sensor_informations.py:270-272 | A value is averaged at a (label, column) exactly when some cell at that pair holds it. |
| Tabulation.ValuesAtNonEmpty | B12_sensor_informations.py:270-272 | There are values to average at a (label, column) exactly when some cell has that pair. |
| Tabulation.CellKeysSnoc | B12_sensor_informations.py:270-272 | One more cell adds exactly its own (label, column) pair to the groups. |
| Tabulation.MeanBounds | B12_sensor_informations.py:272 | The mean of the duplicates lies between their smallest and largest values. |
| Tabulation.MeanOfEqual | B12_sensor_informations.py:269-272 | Averaging equal values, a lone value included, gives that value. So skipping the groupby when there are no duplicates changes nothing. |
| Tabulation.PivotRows | B12_sensor_informations.py:269-275 | The pivot's rows are the distinct labels of the cells, strictly ascending. |
| Tabulation.PivotCols | B12_sensor_informations.py:269-275 | The pivot's columns are the distinct ids of the cells, strictly ascending. |
| Tabulation.PivotCells | B12_sensor_informations.py:269-275 | A (row, column) pair holds a value exactly when some cell has it, and the value is the mean of that pair's values. |
| Tabulation.PivotCellBounds | B12_sensor_informations.py:269-275 | A table value lies within the bounds of the duplicates it averages. |
| Tabulation.FrameForSpec | B12_sensor_informations.py:249-253 | The frame is `pd.DataFrame()` exactly when no row was collected. Rows that are all off the hour give an empty pivot. |
| Timestamps.LabelSameMinute | B12_sensor_informations.py:259-260 | Two valid datetimes get the same `%Y-%m-%d %H:%M` label exactly when they fall in the same minute. |
| Assets.IdDictOfAssetsSpec | B20_assets.py:26-30 | The keys are the asset ids, each once. A repeated id keeps the name of its last asset. |
| Assets.ExtractAsset | B20_assets.py:33-71 | The loop stores the answer's data for the assets whose request answered 200. |
| Assets.AssetDataSpec | B20_assets.py:39-69 | An asset is a key exactly when its `N_moy` request answered 200, even with empty data. It then holds that answer's data. |
| Assets.AssetRowsSpec | B20_assets.py:80-98 | A row is a point of an asset's `datapointTypes`/`N_moy` series under that asset's name. Assets missing either are skipped. |
| Assets.OnTheHourRowsSpec | B20_assets.py:105 | The filter keeps exactly the rows whose minute is 0. |
| Assets.SortedTimesSpec | B20_assets.py:106 | The pivot has one row per distinct datetime, in strictly ascending time. |
| Assets.AssetCellsSpec | B20_assets.py:106 | Without duplicates, every row has its cell holding its value, and every cell comes from a row. |
| Assets.PivotAssetsSpec | B20_assets.py:104-107 | The pivot fails exactly on a duplicate (datetime, name). Otherwise the rows are the sorted datetimes labelled by `strftime`, with one ascending column per distinct name. |
| Assets.ValueOfUnique | B20_assets.py:106 | Without duplicates, the value at a row's (datetime, name) is that row's value. |
| Assets.AssetFrameOfSpec | B20_assets.py:100-109 | The result is `pd.DataFrame()` exactly when no row was collected. Otherwise it is the pivot of the on-the-hour rows. |
| Assets.CreateDataframesByType | B20_assets.py:74-109 | The row loops, the filter and the pivot compute the asset frame, or the pivot's failure. |
| Assets.SameMinuteTwoRows | B20_assets.py:105-107 | Two on-the-hour points of one asset that differ only in seconds stay two rows with the same label. |
| ProjectSelection.ReadProjects | B10_select_project_id.py:3-22 | read_projects returns the parse of the file, or None for a missing or unreadable file. |
| ProjectSelection.ParseLinesFailureStays | B10_select_project_id.py:11-14 | Once one line fails to unpack, the whole read fails. |
| ProjectSelection.ParseLinesSpec | B10_select_project_id.py:11-14 | The read fails exactly when some line holds two or more ':'. Otherwise a project is kept exactly when some line holding a ':' splits into its stripped halves. |
| ProjectSelection.ParseLinesOrder | B10_select_project_id.py:11-14 | The projects are appended in file order: the j-th comes from a line holding a ':', the lines used strictly increase, and every line holding a ':' gives one project. |
| ProjectSelection.OneColonLine | B10_select_project_id.py:12-14 | A line with a single ':' gives its two stripped sides. |
| ProjectSelection.ProjectId | B10_select_project_id.py:24-46 | The run stops (None) exactly when no project could be read or none has the chosen name. Otherwise the result is the first match, as (id, name). |
| ProjectSelection.FirstNamedSpec | B10_select_project_id.py:40-42 | The lookup returns the earliest project with the name, and fails only when there is none. |
| ConfigHandler.ScopeKey | config_handler.py:41 | The scope is "global" exactly for no project key, an empty key, or the key "global". |
| ConfigHandler.Session.Save | config_handler.py:27-31 | The file then holds the config, and the reuse flags are unchanged. |
| ConfigHandler.Session.GetOrAsk | config_handler.py:33-54 | The returned value and the new file are those of get_or_ask on the loaded config. The reuse flags are unchanged. |
| ConfigHandler.StoreSpec | config_handler.py:49-51 | Storing sets one (scope, key) entry, creating the scope if needed. Every other key and scope is unchanged. |
| ConfigHandler.GetOrAskSpec | config_handler.py:33-54 | A stored non-sensitive value is returned with no write. A sensitive call neither reads the store nor writes. A missing key with a non-empty fallback stores and returns the fallback, and an empty fallback gives "". |
| ConfigHandler.GetOrAskThenStored | config_handler.py:44-52 | After a fallback is stored, the next non-sensitive call returns it and writes nothing. |
| ConfigHandler.LoadSpec | config_handler.py:16-25 | A missing or undecodable file loads as the empty config. |
| UserChoice.GetUserChoice | Z00_get_user_choice.py:5-19 | The result is the first typed line that reads as an integer in 1..n, minus one. |
| UserChoice.FirstValidChoiceLine | Z00_get_user_choice.py:10-19 | The index is below the number of options and is the typed number minus one of line k. The lines before k give no answer. |
| UserChoice.FirstValidChoiceNone | Z00_get_user_choice.py:10-19 | There is no answer exactly when no line holds a number in 1..n, so with no options never. |
| UserChoice.Range | Z00_get_user_choice.py:102 | `range(start, end + 1)` holds exactly the integers from start to end. |
| UserChoice.ReadParts | Z00_get_user_choice.py:92-108 | The loop over the comma-separated parts computes the parse of the line. |
| UserChoice.ParsePartsSelected | Z00_get_user_choice.py:95-106 | A number is selected exactly when some part selects it. A bad part never aborts the line. |
| UserChoice.ParsePartsSkipped | Z00_get_user_choice.py:95-108 | The skipped entries are exactly the stripped parts that select nothing. |
| UserChoice.SkippedFrom | Z00_get_user_choice.py:95-108 | Every skipped entry is a stripped part that selects nothing. |
| UserChoice.SkippedTo | Z00_get_user_choice.py:95-108 | Every part that selects nothing is reported, stripped, as skipped. |
| UserChoice.RangePart | Z00_get_user_choice.py:97-102 | `a-b` selects every integer between a and b, in either order. |
| UserChoice.NumberPart | Z00_get_user_choice.py:105-106 | A part that is a number selects that number. |
| UserChoice.ThreePiecesPart | Z00_get_user_choice.py:97-108 | `1-2-3` is skipped. |
| UserChoice.SignedPart | Z00_get_user_choice.py:97-108 | `-3` is skipped: the empty text before the minus sign is not a number. |
| UserChoice.WordPart | Z00_get_user_choice.py:105-108 | `x` is skipped. |
| UserChoice.SplitNoneThree | Z00_get_user_choice.py:98-99 | `1-2-3` splits into three pieces at '-'. |
| UserChoice.PositionsSpec | Z00_get_user_choice.py:110-117 | `sorted(valid)` is strictly ascending. It holds exactly the selected numbers in 1..n. |
| UserChoice.PicksSpec | Z00_get_user_choice.py:116-117 | The result holds the options at the valid positions, in ascending order, each once. Out-of-range numbers pick nothing. |
| UserChoice.AllKeyword | Z00_get_user_choice.py:83-90 | A line that reads `all` or `everything` after strip and lower returns every option, in order. |
| UserChoice.PicksAll | Z00_get_user_choice.py:85-90 | Selecting every position gives back all the options, in order, the same as `all`. |
| UserChoice.InterpretSpec | Z00_get_user_choice.py:83-122 | A line that ends the loop always yields a selection of options through ascending positions. |
| UserChoice.FirstAnswerSpec | Z00_get_user_choice.py:82-124 | The loop ends with no answer exactly when no line selects something. Otherwise the answer is some line's selection. |
| UserChoice.FirstAnswerLine | Z00_get_user_choice.py:82-124 | The answer is the selection of line k, and the lines before k select nothing: the loop ends at the first selecting line. |
| UserChoice.AskOnce | Z00_get_user_choice.py:83-122 | One typed line is read as a selection: `all`, `everything`, or the valid positions it names; otherwise nothing. |
| UserChoice.AskChoices | Z00_get_user_choice.py:82-124 | The read loop returns the answer of the first line that selects something. |
| UserChoice.GetMultipleUserChoices | Z00_get_user_choice.py:52-124 | The result, the new reuse flags and the new file are those of the call on the loaded config and the current flags. |
| UserChoice.MultipleChoicesSpec | Z00_get_user_choice.py:52-124 | A scope with a flag is not asked again and keeps its flag, and other scopes' flags are unchanged. A true flag returns the saved value without writing. A write stores exactly the returned selection under the config key. With no selecting line nothing is written. When a saved value exists and the scope has no flag, the reuse question is asked on the first line and its answer (`y` or not) is recorded for the scope, so it is asked at most once per scope. A false flag asks nothing and reads the choices from the first line on. |

## Left out

- HTTP: every request is a function parameter from the request to the answer. The headers, URLs and the `requests` library are not modelled.
- `get_sensors` (B11_sensors_list.py:5-23) and `get_assets` (B20_assets.py:5-23) are a single request returning `[]` on failure. Their answers are inputs of the model.
- Login, the main script and the Excel export (B00_login.py, A00_main.py, B30_excel_file.py) are not part of this model.
- Streamlit: `st.multiselect` and `st.selectbox` results are parameters. `st.stop()` is `None`. `st.error`, `st.warning`, `print` and the expander are left out, because they only display text.
- `input()`: the typed lines are a parameter. Running out of lines (`EOFError`) ends the call with `None`.
- `hashlib.md5` is the `digest` parameter of `UserChoice.ConfigKey`.
- File access, `os.makedirs` and JSON encoding: the config file is a `ConfigFile` value (missing, undecodable, or a map of scopes). Non-object JSON and non-string values are not modelled.
- Floating point: values are `real`, and the mean is exact. NaN and `None` values, and the `rv`, `dv`, `p` and `e` point fields, are left out.
- Timestamp parsing: points carry an already-parsed UTC datetime. Time zones and pandas' datetime range limits are not modelled.
- `str.lower`, `str.isdigit` and `int()` are modelled on ASCII only. Python's `int()` and `isdigit()` also accept other Unicode decimal digits (`int('٣') == 3`), so `Text.PyInt` rejects typed lines that Python reads as numbers, in `get_user_choice` and in the range parts of `get_multiple_user_choices`. For non-ASCII letters, `lower` differs from Python as well.
- Catalogue.DerivedDatapointsList: requires distinct group types, and sorts by type only. Callers meet this because `st.multiselect` returns distinct types. For two entries of the same type, the source's key `(sensor_type, derivedDatapoints)` compares their lists of dicts: this raises `TypeError` when the lists differ at a common index, and otherwise orders those entries by their lists. Neither case is modelled.
- Tabulation.CreateDataframesByType: requires every group type to be a key of the extracted data, since the source's `sensor_data[sensor_type]` raises `KeyError` otherwise. That error path is not modelled.
- Pandas frames are modelled by their row labels, column ids and present cells. Column dtypes, the `Timestamp` column that `reset_index` adds, and NaN filling are not modelled.
- The commented-out code of Z00_get_user_choice.py is left out, because it is not executed.
- `project_reuse_flags` holding `None` is modelled as an absent key.
