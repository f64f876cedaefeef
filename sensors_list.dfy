/**
 * The sensor listing step: the sorted list of sensor type labels offered
 * to the operator, the halt on an empty choice, and the grouping of the
 * listed sensors by the chosen labels into id -> name dicts sorted by name.
 */
module SensorsList {
  import opened Wrappers
  import opened Ordering
  import opened Dicts

  /** A listed sensor; `typeName` is its type's French label. */
  datatype Sensor = Sensor(id: string, name: string, typeName: string)

  /** One chosen type with its sensors as an id -> name dict. */
  datatype Group = Group(sensorType: string, sensors: Dict<string>)

  function TypeNames(sensors: seq<Sensor>): (r: seq<string>)
    ensures |r| == |sensors|
    ensures forall i :: 0 <= i < |sensors| ==> r[i] == sensors[i].typeName
  {
    seq(|sensors|, i requires 0 <= i < |sensors| => sensors[i].typeName)
  }

  /** get_list_of_sensor_types: ascending, without repeats, exactly the labels of the listed sensors. */
  function SensorTypes(sensors: seq<Sensor>): (r: seq<string>)
    ensures forall x :: x in r <==> x in TypeNames(sensors)
    ensures forall i, j :: 0 <= i < j < |r| ==> StrLe(r[i], r[j]) && !StrLe(r[j], r[i])
  {
    SortedSetSpec(TypeNames(sensors));
    SortedSet(TypeNames(sensors))
  }

  /** choose_sensor_types: an empty choice stops the run (None); otherwise the choice goes on as it is. */
  function ChooseSensorTypes(chosen: seq<string>): (r: Option<seq<string>>)
    ensures r.None? <==> chosen == []
    ensures r.Some? ==> r.value == chosen
  {
    if chosen == [] then None else Some(chosen)
  }

  /** The (id, name) pairs of the sensors labelled `t`, in listing order. */
  function IdNamePairs(sensors: seq<Sensor>, t: string): seq<(string, string)>
  {
    if sensors == [] then []
    else
      var s := sensors[|sensors| - 1];
      IdNamePairs(sensors[..|sensors| - 1], t) + (if s.typeName == t then [(s.id, s.name)] else [])
  }

  /** The name of the last listed sensor labelled `t` whose id is `id`. */
  function LastName(sensors: seq<Sensor>, t: string, id: string): Option<string>
  {
    if sensors == [] then None
    else
      var s := sensors[|sensors| - 1];
      if s.typeName == t && s.id == id then Some(s.name) else LastName(sensors[..|sensors| - 1], t, id)
  }

  /** Some sensor labelled `t` has the id `id`. */
  ghost predicate HasSensor(sensors: seq<Sensor>, t: string, id: string)
  {
    exists i :: 0 <= i < |sensors| && sensors[i].typeName == t && sensors[i].id == id
  }

  function NameKey(entry: (string, string)): seq<int>
  {
    Codes(entry.1)
  }

  /** `{s['id']: s['name'] for s in filtered}`, in first-insertion order. */
  function IdDict(sensors: seq<Sensor>, t: string): Dict<string>
  {
    FromPairs(IdNamePairs(sensors, t))
  }

  /** The group of one chosen label: the id dict re-ordered by name (a stable sort). */
  function GroupFor(sensors: seq<Sensor>, t: string): Group
  {
    Group(t, SortBy(IdDict(sensors, t), NameKey))
  }

  lemma {:induction false} IdNamePairsSpec(sensors: seq<Sensor>, t: string, id: string)
    ensures LastValue(IdNamePairs(sensors, t), id) == LastName(sensors, t, id)
    ensures id in Keys(IdNamePairs(sensors, t)) <==> HasSensor(sensors, t, id)
  {
    if sensors != [] {
      var p := sensors[..|sensors| - 1];
      var s := sensors[|sensors| - 1];
      IdNamePairsSpec(p, t, id);
      var pp := IdNamePairs(p, t);
      if s.typeName == t {
        assert (pp + [(s.id, s.name)])[..|pp|] == pp;
        KeysSnoc(pp, (s.id, s.name));
      } else {
        assert pp + [] == pp;
      }
      if HasSensor(p, t, id) {
        var i :| 0 <= i < |p| && p[i].typeName == t && p[i].id == id;
        assert sensors[i] == p[i];
      }
      if HasSensor(sensors, t, id) && !(s.typeName == t && s.id == id) {
        var i :| 0 <= i < |sensors| && sensors[i].typeName == t && sensors[i].id == id;
        assert p[i] == sensors[i];
      }
    }
  }

  /**
   * A group holds exactly the sensors whose label equals `t` (none for an
   * unknown label); a repeated id keeps its last name; the entries are
   * sorted by name and entries with equal names keep their insertion order.
   */
  lemma GroupForSpec(sensors: seq<Sensor>, t: string)
    ensures GroupFor(sensors, t).sensorType == t
    ensures NoDup(Keys(GroupFor(sensors, t).sensors))
    ensures forall id :: id in Keys(GroupFor(sensors, t).sensors) <==> HasSensor(sensors, t, id)
    ensures forall id :: Get(GroupFor(sensors, t).sensors, id) == LastName(sensors, t, id)
    ensures SortedBy(GroupFor(sensors, t).sensors, NameKey)
    ensures forall k :: KeyFilter(GroupFor(sensors, t).sensors, NameKey, k) == KeyFilter(IdDict(sensors, t), NameKey, k)
    ensures Keys(IdDict(sensors, t)) == Distinct(Keys(IdNamePairs(sensors, t)))
  {
    var d := IdDict(sensors, t);
    var g := GroupFor(sensors, t).sensors;
    FromPairsKeys(IdNamePairs(sensors, t));
    DistinctSpec(Keys(IdNamePairs(sensors, t)));
    PermutationKeys(d, g);
    forall id ensures Get(g, id) == LastName(sensors, t, id) {
      PermutationGet(d, g, id);
      FromPairsGet(IdNamePairs(sensors, t), id);
      IdNamePairsSpec(sensors, t, id);
    }
    forall id ensures id in Keys(g) <==> HasSensor(sensors, t, id) {
      GetNone(g, id);
      GetNone(d, id);
      PermutationGet(d, g, id);
      IdNamePairsSpec(sensors, t, id);
    }
    SortBySorted(d, NameKey);
    forall k ensures KeyFilter(g, NameKey, k) == KeyFilter(d, NameKey, k) {
      SortByStable(d, NameKey, k);
    }
  }

  /** get_dict_of_id_sensors: one group per chosen label, in the order the labels were chosen. */
  method GetDictOfIdSensors(sensors: seq<Sensor>, sensorTypes: seq<string>) returns (grouped: seq<Group>)
    ensures |grouped| == |sensorTypes|
    ensures forall i :: 0 <= i < |sensorTypes| ==> grouped[i] == GroupFor(sensors, sensorTypes[i])
  {
    grouped := [];
    var i := 0;
    while i < |sensorTypes|
      invariant 0 <= i <= |sensorTypes|
      invariant |grouped| == i
      invariant forall k :: 0 <= k < i ==> grouped[k] == GroupFor(sensors, sensorTypes[k])
    {
      var sensorType := sensorTypes[i];
      var idDict := IdDict(sensors, sensorType);
      idDict := SortBy(idDict, NameKey);
      var group := Group(sensorType, idDict);
      assert group == GroupFor(sensors, sensorTypes[i]);
      grouped := grouped + [group];
      i := i + 1;
    }
  }
}
