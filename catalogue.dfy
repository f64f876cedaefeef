/**
 * derivedDatapoints_list and the selection filter of
 * select_derived_datapoints: per sensor type, the datapoints that the
 * sensors' detail requests advertise (first one seen per name wins), the
 * fixed per-type injections, the sort by name, the sort of the whole
 * catalogue by type, and the operator's choice of datapoints.
 */
module Catalogue {
  import opened Wrappers
  import opened Ordering
  import opened Dicts
  import opened SensorsList

  datatype Datapoint = Datapoint(name: string, code: string)

  /** The sensor detail request: its status and its `derivedDatapoints` ([] when absent). */
  datatype DetailResponse = DetailResponse(status: int, derivedDatapoints: seq<Datapoint>)

  /** `{"sensor_type": ..., "derivedDatapoints": [...]}` */
  datatype TypeCatalogue = TypeCatalogue(sensorType: string, derivedDatapoints: seq<Datapoint>)

  /** `{"sensor_type": ..., "selectedDerivedDatapoints": [...]}` */
  datatype Selection = Selection(sensorType: string, selectedDerivedDatapoints: seq<Datapoint>)

  const Tiltmeters: string := "Tiltmètres"
  const WeatherStations: string := "Stations météo"
  const Piezometers: string := "Piezomètres"

  const Temperature: Datapoint := Datapoint("Température", "Temp")
  const Precipitation: Datapoint := Datapoint("Précipitations_1h", "PRECIPITATION_1H")
  const WaterHeight: Datapoint := Datapoint("Hauteur_eau", "Hauteur_eau")

  function Names(dps: seq<Datapoint>): (r: seq<string>)
    ensures |r| == |dps|
    ensures forall i :: 0 <= i < |dps| ==> r[i] == dps[i].name
  {
    seq(|dps|, i requires 0 <= i < |dps| => dps[i].name)
  }

  function CountName(dps: seq<Datapoint>, n: string): nat
  {
    if dps == [] then 0 else CountName(dps[..|dps| - 1], n) + (if dps[|dps| - 1].name == n then 1 else 0)
  }

  /** One step of the discovery loop: append `dp` unless its name was seen. */
  function AddUnseen(unique: seq<Datapoint>, dp: Datapoint): seq<Datapoint>
  {
    if dp.name in Names(unique) then unique else unique + [Datapoint(dp.name, dp.code)]
  }

  function DedupByName(dps: seq<Datapoint>): seq<Datapoint>
  {
    if dps == [] then [] else AddUnseen(DedupByName(dps[..|dps| - 1]), dps[|dps| - 1])
  }

  /** The datapoints listed by the sensors whose detail request answered 200, in request order. */
  function Advertised(ids: seq<string>, detail: string -> DetailResponse): seq<Datapoint>
  {
    if ids == [] then []
    else
      var response := detail(ids[|ids| - 1]);
      Advertised(ids[..|ids| - 1], detail) + (if response.status == 200 then response.derivedDatapoints else [])
  }

  function Discovered(ids: seq<string>, detail: string -> DetailResponse): seq<Datapoint>
  {
    DedupByName(Advertised(ids, detail))
  }

  /** The injections, as written: the guards test 'Temp' and 'PRECIPITATION_1H', names that are never appended. */
  function Inject(sensorType: string, dps: seq<Datapoint>): seq<Datapoint>
  {
    if sensorType == Tiltmeters then
      (if "Temp" !in Names(dps) then dps + [Temperature] else dps)
    else if sensorType == WeatherStations then
      (if "PRECIPITATION_1H" !in Names(dps) then dps + [Precipitation] else dps)
    else if sensorType == Piezometers then
      (if "Hauteur_eau" !in Names(dps) then dps + [WaterHeight] else dps)
    else dps
  }

  function DatapointKey(dp: Datapoint): seq<int>
  {
    Codes(dp.name)
  }

  function TypeKey(c: TypeCatalogue): seq<int>
  {
    Codes(c.sensorType)
  }

  /** The catalogue entry of one group. */
  function CatalogueOf(group: Group, detail: string -> DetailResponse): TypeCatalogue
  {
    TypeCatalogue(group.sensorType, SortBy(Injected(group, detail), DatapointKey))
  }

  /** The discovered datapoints of a group with the injection applied, before the sort by name. */
  function Injected(group: Group, detail: string -> DetailResponse): seq<Datapoint>
  {
    Inject(group.sensorType, Discovered(Keys(group.sensors), detail))
  }

  /** The entries in group order, before the final sort. */
  function Catalogues(groups: seq<Group>, detail: string -> DetailResponse): seq<TypeCatalogue>
  {
    MapSeq(groups, (g: Group) => CatalogueOf(g, detail))
  }

  ghost predicate DistinctTypes(groups: seq<Group>)
  {
    forall i, j :: 0 <= i < j < |groups| ==> groups[i].sensorType != groups[j].sensorType
  }

  /** The discovery loop over the sensors of one group. */
  method DiscoverDatapoints(sensorIds: seq<string>, detail: string -> DetailResponse)
    returns (unique: seq<Datapoint>)
    ensures unique == Discovered(sensorIds, detail)
  {
    unique := [];
    var j := 0;
    while j < |sensorIds|
      invariant 0 <= j <= |sensorIds|
      invariant unique == Discovered(sensorIds[..j], detail)
    {
      var response := detail(sensorIds[j]);
      assert sensorIds[..j + 1][..j] == sensorIds[..j];
      if response.status == 200 {
        unique := AddAllUnseen(unique, response.derivedDatapoints, Advertised(sensorIds[..j], detail));
        assert Advertised(sensorIds[..j + 1], detail) == Advertised(sensorIds[..j], detail) + response.derivedDatapoints;
      } else {
        assert Advertised(sensorIds[..j + 1], detail) == Advertised(sensorIds[..j], detail);
      }
      j := j + 1;
    }
    assert sensorIds[..j] == sensorIds;
  }

  /** The inner loop over one response's datapoints; `before` is what was advertised so far. */
  method AddAllUnseen(unique: seq<Datapoint>, dps: seq<Datapoint>, ghost before: seq<Datapoint>)
    returns (r: seq<Datapoint>)
    requires unique == DedupByName(before)
    ensures r == DedupByName(before + dps)
  {
    r := unique;
    var m := 0;
    assert before + dps[..0] == before;
    while m < |dps|
      invariant 0 <= m <= |dps|
      invariant r == DedupByName(before + dps[..m])
    {
      assert (before + dps[..m + 1])[..|before| + m] == before + dps[..m];
      if dps[m].name !in Names(r) {
        r := r + [Datapoint(dps[m].name, dps[m].code)];
      }
      m := m + 1;
    }
    assert dps[..m] == dps;
  }

  /** The three injection statements, applied to the discovered list. */
  method AppendDefaults(sensorType: string, dps: seq<Datapoint>) returns (r: seq<Datapoint>)
    ensures r == Inject(sensorType, dps)
  {
    r := dps;
    if sensorType == Tiltmeters {
      if "Temp" !in Names(r) {
        r := r + [Temperature];
      }
    }
    if sensorType == WeatherStations {
      if "PRECIPITATION_1H" !in Names(r) {
        r := r + [Precipitation];
      }
    }
    if sensorType == Piezometers {
      if "Hauteur_eau" !in Names(r) {
        r := r + [WaterHeight];
      }
    }
  }

  lemma CataloguesSnoc(groups: seq<Group>, i: int, detail: string -> DetailResponse)
    requires 0 <= i < |groups|
    ensures Catalogues(groups[..i + 1], detail) == Catalogues(groups[..i], detail) + [CatalogueOf(groups[i], detail)]
  {
    MapSeqSnoc(groups, i, (g: Group) => CatalogueOf(g, detail));
  }

  /** The body of the loop over the groups: discovery, injection and the sort by name. */
  method BuildEntry(group: Group, detail: string -> DetailResponse) returns (entry: TypeCatalogue)
    ensures entry == CatalogueOf(group, detail)
  {
    var sensorType := group.sensorType;
    var sensorIds := Keys(group.sensors);
    var unique := DiscoverDatapoints(sensorIds, detail);
    unique := AppendDefaults(sensorType, unique);
    unique := SortBy(unique, DatapointKey);
    entry := TypeCatalogue(sensorType, unique);
  }

  /**
   * derivedDatapoints_list. The source sorts the entries by the pair (type,
   * datapoint list); two groups of the same type would make Python compare
   * dicts, which raises, so the groups are required to have distinct types
   * (the chosen types come from a multi-select and do).
   */
  method DerivedDatapointsList(groups: seq<Group>, detail: string -> DetailResponse)
    returns (all: seq<TypeCatalogue>)
    requires DistinctTypes(groups)
    ensures all == SortBy(Catalogues(groups, detail), TypeKey)
  {
    all := [];
    var i := 0;
    while i < |groups|
      invariant 0 <= i <= |groups|
      invariant all == Catalogues(groups[..i], detail)
    {
      var entry := BuildEntry(groups[i], detail);
      CataloguesSnoc(groups, i, detail);
      all := all + [entry];
      i := i + 1;
    }
    assert groups[..i] == groups;
    all := SortBy(all, TypeKey);
  }

  /** The line-94 filter: the entries whose name was chosen, in catalogue order. */
  function SelectDatapoints(dps: seq<Datapoint>, chosen: seq<string>): (r: seq<Datapoint>)
    ensures IsSubsequence(r, dps)
    ensures forall d :: multiset(r)[d] == if d.name in chosen then multiset(dps)[d] else 0
  {
    if dps == [] then []
    else
      var rest := SelectDatapoints(dps[1..], chosen);
      assert dps == [dps[0]] + dps[1..];
      if dps[0].name in chosen then
        SubsequenceCons(dps[0], rest, dps[1..]);
        [dps[0]] + rest
      else
        SubsequenceWeaken(rest, dps[1..], dps[0]);
        rest
  }

  /** select_derived_datapoints: `chosen[i]` is what the multi-select of entry `i` returned. */
  method SelectDerivedDatapoints(all: seq<TypeCatalogue>, chosen: seq<seq<string>>)
    returns (selected: seq<Selection>)
    requires |chosen| == |all|
    ensures |selected| == |all|
    ensures forall i :: 0 <= i < |all| ==>
      selected[i] == Selection(all[i].sensorType, SelectDatapoints(all[i].derivedDatapoints, chosen[i]))
  {
    selected := [];
    var i := 0;
    while i < |all|
      invariant 0 <= i <= |all|
      invariant |selected| == i
      invariant forall k :: 0 <= k < i ==>
        selected[k] == Selection(all[k].sensorType, SelectDatapoints(all[k].derivedDatapoints, chosen[k]))
    {
      var selectedDatapoints := SelectDatapoints(all[i].derivedDatapoints, chosen[i]);
      selected := selected + [Selection(all[i].sensorType, selectedDatapoints)];
      i := i + 1;
    }
  }

  // Properties of discovery

  /** A datapoint is advertised exactly when some sensor of the group answered 200 and listed it. */
  lemma {:induction false} AdvertisedSpec(ids: seq<string>, detail: string -> DetailResponse, d: Datapoint)
    ensures d in Advertised(ids, detail) <==>
      exists j :: 0 <= j < |ids| && detail(ids[j]).status == 200 && d in detail(ids[j]).derivedDatapoints
  {
    if ids != [] {
      var init := ids[..|ids| - 1];
      AdvertisedSpec(init, detail, d);
      assert forall j :: 0 <= j < |init| ==> init[j] == ids[j];
    }
  }

  /** The first datapoint of `dps` with the given name. */
  function FirstNamed(dps: seq<Datapoint>, name: string): Datapoint
    requires name in Names(dps)
  {
    var init := dps[..|dps| - 1];
    if name in Names(init) then FirstNamed(init, name) else dps[|dps| - 1]
  }

  lemma NamesSnoc(dps: seq<Datapoint>, d: Datapoint)
    ensures Names(dps + [d]) == Names(dps) + [d.name]
  {
  }

  /**
   * Deduplication by name: every name once, the same names as the input,
   * and each kept entry is the first one of its name (first one seen wins).
   */
  lemma DedupByNameSpec(dps: seq<Datapoint>)
    ensures NoDup(Names(DedupByName(dps)))
    ensures forall n :: n in Names(DedupByName(dps)) <==> n in Names(dps)
    ensures forall i :: 0 <= i < |DedupByName(dps)| ==>
      DedupByName(dps)[i].name in Names(dps) && DedupByName(dps)[i] == FirstNamed(dps, DedupByName(dps)[i].name)
  {
    DedupNoDup(dps);
    DedupNames(dps);
    DedupFirst(dps);
  }

  lemma {:induction false} DedupNames(dps: seq<Datapoint>)
    ensures forall n :: n in Names(DedupByName(dps)) <==> n in Names(dps)
  {
    if dps != [] {
      var init := dps[..|dps| - 1];
      var x := dps[|dps| - 1];
      DedupNames(init);
      assert dps == init + [x];
      NamesSnoc(init, x);
      NamesSnoc(DedupByName(init), x);
    }
  }

  lemma {:induction false} DedupNoDup(dps: seq<Datapoint>)
    ensures NoDup(Names(DedupByName(dps)))
  {
    if dps != [] {
      var init := dps[..|dps| - 1];
      var x := dps[|dps| - 1];
      var u := DedupByName(init);
      DedupNoDup(init);
      if x.name !in Names(u) {
        var r := u + [x];
        assert DedupByName(dps) == r;
        NamesSnoc(u, x);
        forall i, j | 0 <= i < j < |Names(r)| ensures Names(r)[i] != Names(r)[j] {
          if j < |u| {
            assert Names(r)[i] == Names(u)[i] && Names(r)[j] == Names(u)[j];
          } else {
            assert Names(r)[i] == Names(u)[i];
          }
        }
      }
    }
  }

  lemma {:induction false} DedupFirst(dps: seq<Datapoint>)
    ensures forall i :: 0 <= i < |DedupByName(dps)| ==>
      DedupByName(dps)[i].name in Names(dps) && DedupByName(dps)[i] == FirstNamed(dps, DedupByName(dps)[i].name)
  {
    if dps != [] {
      var init := dps[..|dps| - 1];
      var x := dps[|dps| - 1];
      var u := DedupByName(init);
      var d := DedupByName(dps);
      DedupFirst(init);
      DedupNames(init);
      assert dps == init + [x];
      NamesSnoc(init, x);
      forall i | 0 <= i < |d| ensures d[i].name in Names(dps) && d[i] == FirstNamed(dps, d[i].name) {
        if i < |u| {
          assert d[i] == u[i];
          assert u[i].name in Names(init);
        } else {
          assert x.name !in Names(u) && d == u + [x];
          assert d[i] == x;
        }
      }
    }
  }

  /** The discovered list of a group: unique names, first code seen, and the names the 200 responses list. */
  lemma DiscoveredSpec(ids: seq<string>, detail: string -> DetailResponse)
    ensures NoDup(Names(Discovered(ids, detail)))
    ensures forall n :: n in Names(Discovered(ids, detail)) <==>
      exists j, d :: 0 <= j < |ids| && detail(ids[j]).status == 200 && d in detail(ids[j]).derivedDatapoints && d.name == n
  {
    var a := Advertised(ids, detail);
    DedupByNameSpec(a);
    forall n ensures n in Names(a) <==>
      exists j, d :: 0 <= j < |ids| && detail(ids[j]).status == 200 && d in detail(ids[j]).derivedDatapoints && d.name == n
    {
      if n in Names(a) {
        var k :| 0 <= k < |a| && Names(a)[k] == n;
        AdvertisedSpec(ids, detail, a[k]);
      }
      forall j, d | 0 <= j < |ids| && detail(ids[j]).status == 200 && d in detail(ids[j]).derivedDatapoints && d.name == n
        ensures n in Names(a)
      {
        AdvertisedSpec(ids, detail, d);
        var k :| 0 <= k < |a| && a[k] == d;
        assert Names(a)[k] == n;
      }
    }
  }

  // Properties of the injection

  lemma {:induction false} CountNameSnoc(dps: seq<Datapoint>, d: Datapoint, n: string)
    ensures CountName(dps + [d], n) == CountName(dps, n) + (if d.name == n then 1 else 0)
  {
    assert (dps + [d])[..|dps|] == dps;
  }

  lemma {:induction false} CountNamePositive(dps: seq<Datapoint>, n: string)
    ensures CountName(dps, n) > 0 <==> n in Names(dps)
  {
    if dps != [] {
      var init := dps[..|dps| - 1];
      CountNamePositive(init, n);
      NamesSnoc(init, dps[|dps| - 1]);
      assert dps == init + [dps[|dps| - 1]];
    }
  }

  /**
   * The injection only ever appends one entry. For the piezometers it makes
   * Hauteur_eau present exactly once when it was absent. For the two other
   * types the guard looks for the code, not the name: a Température (or
   * Précipitations_1h) entry is appended whenever no entry is named Temp (or
   * PRECIPITATION_1H), even if one of that name is already there. The
   * appended entry carries the fixed code: Temp, PRECIPITATION_1H or
   * Hauteur_eau.
   */
  lemma InjectSpec(t: string, dps: seq<Datapoint>)
    ensures |dps| <= |Inject(t, dps)| <= |dps| + 1 && Inject(t, dps)[..|dps|] == dps
    ensures t != Tiltmeters && t != WeatherStations && t != Piezometers ==> Inject(t, dps) == dps
    ensures t == Piezometers ==>
      CountName(Inject(t, dps), WaterHeight.name) == if CountName(dps, WaterHeight.name) == 0 then 1 else CountName(dps, WaterHeight.name)
    ensures t == Tiltmeters ==>
      CountName(Inject(t, dps), Temperature.name) == CountName(dps, Temperature.name) + (if "Temp" in Names(dps) then 0 else 1)
    ensures t == WeatherStations ==>
      CountName(Inject(t, dps), Precipitation.name) == CountName(dps, Precipitation.name) + (if "PRECIPITATION_1H" in Names(dps) then 0 else 1)
    ensures t == Tiltmeters && "Temp" !in Names(dps) ==> Inject(t, dps) == dps + [Datapoint("Température", "Temp")]
    ensures t == WeatherStations && "PRECIPITATION_1H" !in Names(dps) ==>
      Inject(t, dps) == dps + [Datapoint("Précipitations_1h", "PRECIPITATION_1H")]
    ensures t == Piezometers && "Hauteur_eau" !in Names(dps) ==> Inject(t, dps) == dps + [Datapoint("Hauteur_eau", "Hauteur_eau")]
  {
    CountNameSnoc(dps, Temperature, Temperature.name);
    CountNameSnoc(dps, Precipitation, Precipitation.name);
    CountNameSnoc(dps, WaterHeight, WaterHeight.name);
    CountNamePositive(dps, WaterHeight.name);
  }

  /**
   * On a list with unique names (what discovery yields), the injection keeps
   * the names unique except in the two mismatch cases: a tiltmeter list that
   * already has Température, a weather-station list that already has
   * Précipitations_1h.
   */
  lemma InjectNoDup(t: string, dps: seq<Datapoint>)
    requires NoDup(Names(dps))
    ensures NoDup(Names(Inject(t, dps))) <==>
      !(t == Tiltmeters && "Temp" !in Names(dps) && Temperature.name in Names(dps)) &&
      !(t == WeatherStations && "PRECIPITATION_1H" !in Names(dps) && Precipitation.name in Names(dps))
  {
    var r := Inject(t, dps);
    if r != dps {
      var e := r[|dps|];
      assert r == dps + [e];
      NamesSnoc(dps, e);
      if e.name in Names(dps) {
        var k :| 0 <= k < |dps| && Names(dps)[k] == e.name;
        assert Names(r)[k] == Names(r)[|dps|];
      } else {
        forall i, j | 0 <= i < j < |Names(r)| ensures Names(r)[i] != Names(r)[j] {
          if j < |dps| {
            assert Names(r)[i] == Names(dps)[i] && Names(r)[j] == Names(dps)[j];
          } else {
            assert Names(r)[i] == Names(dps)[i];
          }
        }
      }
    }
  }

  /** Injecting twice into a tiltmeter list with no name Temp appends Température twice: the injection is not idempotent. */
  lemma InjectTiltmetersTwice(dps: seq<Datapoint>)
    requires "Temp" !in Names(dps)
    ensures Inject(Tiltmeters, Inject(Tiltmeters, dps)) == dps + [Temperature, Temperature]
  {
    NamesSnoc(dps, Temperature);
  }

  /** Injecting twice into a weather-station list with no name PRECIPITATION_1H appends Précipitations_1h twice. */
  lemma InjectWeatherStationsTwice(dps: seq<Datapoint>)
    requires "PRECIPITATION_1H" !in Names(dps)
    ensures Inject(WeatherStations, Inject(WeatherStations, dps)) == dps + [Precipitation, Precipitation]
  {
    NamesSnoc(dps, Precipitation);
  }

  /** For the piezometers, whose guard tests the name it appends, the injection is idempotent. */
  lemma InjectPiezometersIdempotent(dps: seq<Datapoint>)
    ensures Inject(Piezometers, Inject(Piezometers, dps)) == Inject(Piezometers, dps)
  {
    NamesSnoc(dps, WaterHeight);
  }

  /** On a list with unique names, the entries keyed by a present name are that one entry. */
  lemma {:induction false} KeyFilterNamed(dps: seq<Datapoint>, n: string) returns (i: nat)
    requires NoDup(Names(dps)) && n in Names(dps)
    ensures i < |dps| && dps[i].name == n
    ensures KeyFilter(dps, DatapointKey, Codes(n)) == [dps[i]]
  {
    var tail := dps[1..];
    assert NoDup(Names(tail)) by {
      forall a, b | 0 <= a < b < |Names(tail)| ensures Names(tail)[a] != Names(tail)[b] {
        assert Names(tail)[a] == Names(dps)[a + 1] && Names(tail)[b] == Names(dps)[b + 1];
      }
    }
    if dps[0].name == n {
      i := 0;
      assert n !in Names(tail) by {
        forall a | 0 <= a < |tail| ensures Names(tail)[a] != n {
          assert Names(tail)[a] == Names(dps)[a + 1];
        }
      }
      KeyFilterAbsent(tail, n);
    } else {
      CodesDistinct(dps[0].name, n);
      var a :| 0 <= a < |dps| && Names(dps)[a] == n;
      assert Names(tail)[a - 1] == n;
      var j := KeyFilterNamed(tail, n);
      i := j + 1;
    }
  }

  lemma {:induction false} KeyFilterAbsent(dps: seq<Datapoint>, n: string)
    requires n !in Names(dps)
    ensures KeyFilter(dps, DatapointKey, Codes(n)) == []
  {
    if dps != [] {
      CodesDistinct(dps[0].name, n);
      assert Names(dps)[0] == dps[0].name;
      assert forall a :: 0 <= a < |dps[1..]| ==> Names(dps[1..])[a] == Names(dps)[a + 1];
      KeyFilterAbsent(dps[1..], n);
    }
  }

  /**
   * A tiltmeter group whose answers list a Température datapoint, and none
   * named Temp, ends up with two Température entries: first the one the
   * answers listed first, then the injected one.
   */
  lemma TiltmeterTemperatureTwice(group: Group, detail: string -> DetailResponse)
    requires group.sensorType == Tiltmeters
    requires Temperature.name in Names(Advertised(Keys(group.sensors), detail))
    requires "Temp" !in Names(Advertised(Keys(group.sensors), detail))
    ensures KeyFilter(CatalogueOf(group, detail).derivedDatapoints, DatapointKey, Codes(Temperature.name))
         == [FirstNamed(Advertised(Keys(group.sensors), detail), Temperature.name), Temperature]
  {
    var advertised := Advertised(Keys(group.sensors), detail);
    var found := Discovered(Keys(group.sensors), detail);
    DedupByNameSpec(advertised);
    var injected := Injected(group, detail);
    assert injected == found + [Temperature];
    var i := KeyFilterNamed(found, Temperature.name);
    KeyFilterAppend(found, [Temperature], DatapointKey, Codes(Temperature.name));
    KeyFilterCons(Temperature, [], DatapointKey, Codes(Temperature.name));
    assert [Temperature] == [Temperature] + [];
    SortByStable(injected, DatapointKey, Codes(Temperature.name));
  }

  // Properties of the catalogue

  /** One entry: its type, its datapoints sorted by name, a permutation of the injected list, stable among equal names. */
  lemma CatalogueOfSpec(group: Group, detail: string -> DetailResponse)
    ensures var c := CatalogueOf(group, detail);
      var injected := Injected(group, detail);
      && c.sensorType == group.sensorType
      && SortedBy(c.derivedDatapoints, DatapointKey)
      && multiset(c.derivedDatapoints) == multiset(injected)
      && forall k :: KeyFilter(c.derivedDatapoints, DatapointKey, k) == KeyFilter(injected, DatapointKey, k)
  {
    var injected := Injected(group, detail);
    SortBySorted(injected, DatapointKey);
    forall k ensures KeyFilter(SortBy(injected, DatapointKey), DatapointKey, k) == KeyFilter(injected, DatapointKey, k) {
      SortByStable(injected, DatapointKey, k);
    }
  }

  /** The whole catalogue holds one entry per group, each group's own entry. */
  lemma DatapointCatalogueEntries(groups: seq<Group>, detail: string -> DetailResponse)
    ensures var all := SortBy(Catalogues(groups, detail), TypeKey);
      && |all| == |groups|
      && (forall i :: 0 <= i < |groups| ==> CatalogueOf(groups[i], detail) in all)
      && (forall c :: c in all ==> exists i :: 0 <= i < |groups| && c == CatalogueOf(groups[i], detail))
  {
    var cs := Catalogues(groups, detail);
    var all := SortBy(cs, TypeKey);
    forall i | 0 <= i < |groups| ensures CatalogueOf(groups[i], detail) in all {
      assert cs[i] in multiset(cs);
    }
    forall c | c in all ensures exists i :: 0 <= i < |groups| && c == CatalogueOf(groups[i], detail) {
      assert c in multiset(all);
      var i :| 0 <= i < |cs| && cs[i] == c;
    }
  }

  /** With distinct group types, the catalogue is in strictly ascending type order. */
  lemma DatapointCatalogueOrder(groups: seq<Group>, detail: string -> DetailResponse)
    requires DistinctTypes(groups)
    ensures var all := SortBy(Catalogues(groups, detail), TypeKey);
      forall i, j :: 0 <= i < j < |all| ==> StrLe(all[i].sensorType, all[j].sensorType) && all[i].sensorType != all[j].sensorType
  {
    var cs := Catalogues(groups, detail);
    var all := SortBy(cs, TypeKey);
    SortBySorted(cs, TypeKey);
    assert KeysDistinct(cs, TypeKey) by {
      forall i, j | 0 <= i < j < |cs| ensures TypeKey(cs[i]) != TypeKey(cs[j]) {
        assert cs[i].sensorType == groups[i].sensorType && cs[j].sensorType == groups[j].sensorType;
        CodesDistinct(cs[i].sensorType, cs[j].sensorType);
      }
    }
    PermutationKeysDistinct(cs, all, TypeKey);
  }

  /** The selection keeps exactly the chosen names, each datapoint as often as the catalogue had it. */
  lemma SelectDatapointsNames(dps: seq<Datapoint>, chosen: seq<string>, n: string)
    ensures n in Names(SelectDatapoints(dps, chosen)) <==> n in chosen && n in Names(dps)
  {
    var r := SelectDatapoints(dps, chosen);
    if n in Names(r) {
      var k :| 0 <= k < |r| && Names(r)[k] == n;
      assert r[k] in multiset(r);
      assert r[k] in multiset(dps);
      var m :| 0 <= m < |dps| && dps[m] == r[k];
      assert Names(dps)[m] == n;
    }
    if n in chosen && n in Names(dps) {
      var m :| 0 <= m < |dps| && Names(dps)[m] == n;
      assert dps[m] in multiset(dps);
      assert multiset(r)[dps[m]] > 0;
      var k :| 0 <= k < |r| && r[k] == dps[m];
      assert Names(r)[k] == n;
    }
  }
}
