/** The `*Opts` structs of `src/ty.rs`: the optional query parameters of each
    endpoint. Every field is an `Option` that serde skips when it is `None`;
    some fields are renamed or serialised through a date helper. The
    serialised struct is a JSON object, which `to_query` turns into the query
    string. */
module Options {
  import opened Outcomes
  import opened Text
  import opened Json
  import opened DateTimes
  import opened Integers
  import opened Helpers
  import opened Types

  /** A struct field as serde sees it: its serialised key and, unless the
      field is `None` and therefore skipped, its JSON value. */
  type Field = (string, Option<JsonValue>)

  predicate DistinctKeys(fields: seq<Field>) {
    forall i, j :: 0 <= i < j < |fields| ==> fields[i].0 != fields[j].0
  }

  predicate DistinctEntryKeys(entries: seq<Entry>) {
    forall i, j :: 0 <= i < j < |entries| ==> entries[i].0 != entries[j].0
  }

  /** The fields serde writes (`skip_serializing_if = "Option::is_none"`), in
      declaration order. */
  function Present(fields: seq<Field>): (r: seq<Entry>)
    ensures |r| <= |fields|
    ensures forall j :: 0 <= j < |r| ==> (r[j].0, Some(r[j].1)) in fields
    ensures forall i :: 0 <= i < |fields| && fields[i].1.Some? ==> (fields[i].0, fields[i].1.value) in r
    decreases |fields|
  {
    if |fields| == 0 then []
    else
      var rest := Present(fields[1..]);
      assert forall f :: f in fields[1..] ==> f in fields;
      match fields[0].1
      case None => rest
      case Some(v) => [(fields[0].0, v)] + rest
  }

  /** serde writes the fields in declaration order: the written fields of
      two runs of declared fields are those of the first run, then those of
      the second. */
  lemma {:induction false} PresentAppend(a: seq<Field>, b: seq<Field>)
    ensures Present(a + b) == Present(a) + Present(b)
    decreases |a|
  {
    if |a| == 0 {
      assert a + b == b;
    } else {
      assert (a + b)[0] == a[0];
      assert (a + b)[1..] == a[1..] + b;
      PresentAppend(a[1..], b);
      if a[0].1.Some? {
        var head := [(a[0].0, a[0].1.value)];
        assert Present(a + b) == head + (Present(a[1..]) + Present(b));
        assert head + (Present(a[1..]) + Present(b)) == (head + Present(a[1..])) + Present(b);
      }
    }
  }

  /** Only a field that is set is written, with its key and value. */
  lemma PresentOne(f: Field)
    ensures Present([f]) == if f.1.Some? then [(f.0, f.1.value)] else []
  {
    assert [f][1..] == [];
  }

  /** The keys of the written fields are distinct when the declared keys are. */
  lemma {:induction false} PresentDistinct(fields: seq<Field>)
    requires DistinctKeys(fields)
    ensures DistinctEntryKeys(Present(fields))
    decreases |fields|
  {
    if |fields| > 0 {
      var rest := Present(fields[1..]);
      PresentDistinct(fields[1..]);
      if fields[0].1.Some? {
        forall j | 0 <= j < |rest| ensures rest[j].0 != fields[0].0 {
          var i :| 0 <= i < |fields[1..]| && fields[1..][i] == (rest[j].0, Some(rest[j].1));
          assert fields[i + 1].0 == rest[j].0;
        }
      }
    }
  }

  /** The JSON object holding the given entries. */
  function ObjectOf(entries: seq<Entry>): map<string, JsonValue>
    decreases |entries|
  {
    if |entries| == 0 then map[] else ObjectOf(entries[1..])[entries[0].0 := entries[0].1]
  }

  /** Entries with distinct keys list the object built from them. */
  lemma {:induction false} ObjectOfEnumerated(entries: seq<Entry>)
    requires DistinctEntryKeys(entries)
    ensures Enumerates(entries, ObjectOf(entries))
    decreases |entries|
  {
    if |entries| > 0 {
      var tail := entries[1..];
      ObjectOfEnumerated(tail);
      var obj := ObjectOf(entries);
      forall i | 0 <= i < |entries|
        ensures entries[i].0 in obj && obj[entries[i].0] == entries[i].1
      {
        if i > 0 {
          assert tail[i - 1] == entries[i];
        }
      }
      forall k | k in obj
        ensures exists i :: 0 <= i < |entries| && entries[i].0 == k
      {
        if k != entries[0].0 {
          var i :| 0 <= i < |tail| && tail[i].0 == k;
          assert entries[i + 1].0 == k;
        }
      }
    }
  }

  /** The JSON object serde produces for a struct with these fields. */
  function Serialized(fields: seq<Field>): (obj: map<string, JsonValue>)
    requires DistinctKeys(fields)
    ensures Enumerates(Present(fields), obj)
  {
    PresentDistinct(fields);
    ObjectOfEnumerated(Present(fields));
    ObjectOf(Present(fields))
  }

  /** A field that is set appears in the object under its key with its
      value; a key appears only if some set field carries it. */
  lemma SerializedField(fields: seq<Field>, key: string)
    requires DistinctKeys(fields)
    ensures forall v :: (key, Some(v)) in fields ==> key in Serialized(fields) && Serialized(fields)[key] == v
    ensures key in Serialized(fields) ==> (key, Some(Serialized(fields)[key])) in fields
  {
    var p, obj := Present(fields), Serialized(fields);
    forall v | (key, Some(v)) in fields
      ensures key in obj && obj[key] == v
    {
      var i :| 0 <= i < |fields| && fields[i] == (key, Some(v));
      assert (key, v) in p;
      var j :| 0 <= j < |p| && p[j] == (key, v);
    }
    if key in obj {
      var j :| 0 <= j < |p| && p[j].0 == key;
      assert (key, Some(p[j].1)) in fields;
    }
  }

  /** The object is empty exactly when no field is set. */
  lemma SerializedEmpty(fields: seq<Field>)
    requires DistinctKeys(fields)
    ensures Serialized(fields) == map[] <==> forall i :: 0 <= i < |fields| ==> fields[i].1.None?
  {
    var p, obj := Present(fields), Serialized(fields);
    if obj != map[] {
      var k :| k in obj;
      var j :| 0 <= j < |p| && p[j].0 == k;
      var i :| 0 <= i < |fields| && fields[i] == (p[j].0, Some(p[j].1));
    }
  }

  /* ---------- field values ---------- */

  function IntField(n: Option<int32>): (r: Option<JsonValue>)
    ensures r.None? <==> n.None?
  {
    match n
    case None => None
    case Some(x) => Some(Scalar(JInt(x)))
  }

  function BoolField(b: Option<bool>): (r: Option<JsonValue>)
    ensures r.None? <==> b.None?
  {
    match b
    case None => None
    case Some(x) => Some(Scalar(JBool(x)))
  }

  function TextField(s: Option<string>): (r: Option<JsonValue>)
    ensures r.None? <==> s.None?
  {
    match s
    case None => None
    case Some(x) => Some(Scalar(JStr(x)))
  }

  /** A date field with `serialize_with = "ser_iso_8601"`. */
  function IsoDateField(d: Option<NaiveDateTime>): (r: Option<JsonValue>)
    ensures r.None? <==> d.None?
  {
    match d
    case None => None
    case Some(_) => Some(Scalar(SerIso8601(d)))
  }

  /** A date field with `serialize_with = "ser_touch_utc"`. */
  function TouchDateField(d: Option<NaiveDateTime>): (r: Option<JsonValue>)
    ensures r.None? <==> d.None?
  {
    match d
    case None => None
    case Some(_) => Some(Scalar(SerTouchUtc(d)))
  }

  function IntScalars(ns: seq<int32>): (r: seq<JsonScalar>)
    ensures |r| == |ns| && forall i :: 0 <= i < |ns| ==> r[i] == JInt(ns[i])
    decreases |ns|
  {
    if |ns| == 0 then [] else [JInt(ns[0])] + IntScalars(ns[1..])
  }

  function StringScalars(ns: seq<string>): (r: seq<JsonScalar>)
    ensures |r| == |ns| && forall i :: 0 <= i < |ns| ==> r[i] == JStr(ns[i])
    decreases |ns|
  {
    if |ns| == 0 then [] else [JStr(ns[0])] + StringScalars(ns[1..])
  }

  function RouteTypeScalars(rs: seq<RouteType>): (r: seq<JsonScalar>)
    ensures |r| == |rs| && forall i :: 0 <= i < |rs| ==> r[i] == Serialize(rs[i])
    decreases |rs|
  {
    if |rs| == 0 then [] else [Serialize(rs[0])] + RouteTypeScalars(rs[1..])
  }

  function IntListField(xs: Option<seq<int32>>): (r: Option<JsonValue>)
    ensures r.None? <==> xs.None?
  {
    match xs
    case None => None
    case Some(ns) => Some(Array(IntScalars(ns)))
  }

  /** A list of enum values serialised as strings (`ExpandOptions`). */
  function NameListField(xs: Option<seq<string>>): (r: Option<JsonValue>)
    ensures r.None? <==> xs.None?
  {
    match xs
    case None => None
    case Some(ns) => Some(Array(StringScalars(ns)))
  }

  function RouteTypeListField(xs: Option<seq<RouteType>>): (r: Option<JsonValue>)
    ensures r.None? <==> xs.None?
  {
    match xs
    case None => None
    case Some(rs) => Some(Array(RouteTypeScalars(rs)))
  }

  /** `Option<Vec<DisruptionModes>>`: the element type has no values, so the
      field is either absent or an empty list. */
  function EmptyListField(given: bool): (r: Option<JsonValue>)
    ensures r.None? <==> !given
  {
    if given then Some(Array([])) else None
  }

  /* ---------- the structs ---------- */

  /** One variant per options struct, fields in declaration order.
      `expand` holds the display names of the `ExpandOptions` values,
      `status` that of the `DisruptionStatus`, and `modes` says whether the
      (necessarily empty) list of disruption modes is given. */
  datatype Opts =
    | DeparturesStop(platformNumbers: Option<seq<int32>>, directionId: Option<int32>, gtfs: Option<bool>,
                     date: Option<NaiveDateTime>, maxResults: Option<int32>, includeCancelled: Option<bool>,
                     lookBackwards: Option<bool>, expand: Option<seq<string>>, includeGeopath: Option<bool>)
    | DeparturesStopRoute(directionId: Option<int32>, gtfs: Option<bool>,
                          date: Option<NaiveDateTime>, maxResults: Option<int32>, includeCancelled: Option<bool>,
                          lookBackwards: Option<bool>, expand: Option<seq<string>>, includeGeopath: Option<bool>)
    | Disruptions(routeTypes: Option<seq<RouteType>>, modes: bool, status: Option<string>)
    | DisruptionsSpecific(status: Option<string>)
    | FareEstimate(touchOn: Option<NaiveDateTime>, touchOff: Option<NaiveDateTime>,
                   freeTramZone: Option<bool>, traveledRouteTypes: Option<seq<RouteType>>)
    | Outlets(maxResults: Option<int32>)
    | OutletsLatLong(maxResults: Option<int32>, maxDistance: Option<int32>)
    | PatternsRunRoute(expand: Option<seq<string>>, stopId: Option<int32>, date: Option<NaiveDateTime>,
                       includeSkipped: Option<bool>, includeGeopath: Option<bool>)
    | Routes(routeTypes: Option<seq<RouteType>>, routeName: Option<string>)
    | RouteId(includeGeopath: Option<bool>, date: Option<NaiveDateTime>)
    | RunsId(expand: Option<seq<string>>, date: Option<NaiveDateTime>)
    | RunsRef(expand: Option<seq<string>>, date: Option<NaiveDateTime>, includeGeopath: Option<bool>)

  /** The serialised fields of a struct, with serde's renames applied. */
  function Fields(o: Opts): seq<Field> {
    match o
    case DeparturesStop(platforms, direction, gtfs, date, max, cancelled, backwards, expand, geopath) =>
      [("platform_numbers", IntListField(platforms)), ("direction_id", IntField(direction)),
       ("gtfs", BoolField(gtfs)), ("date_utc", IsoDateField(date)), ("max_results", IntField(max)),
       ("include_cancelled", BoolField(cancelled)), ("look_backwards", BoolField(backwards)),
       ("expand", NameListField(expand)), ("include_geopath", BoolField(geopath))]
    case DeparturesStopRoute(direction, gtfs, date, max, cancelled, backwards, expand, geopath) =>
      [("direction_id", IntField(direction)),
       ("gtfs", BoolField(gtfs)), ("date_utc", IsoDateField(date)), ("max_results", IntField(max)),
       ("include_cancelled", BoolField(cancelled)), ("look_backwards", BoolField(backwards)),
       ("expand", NameListField(expand)), ("include_geopath", BoolField(geopath))]
    case Disruptions(routeTypes, modes, status) =>
      [("route_types", RouteTypeListField(routeTypes)), ("disruption_modes", EmptyListField(modes)),
       ("disruption_status", TextField(status))]
    case DisruptionsSpecific(status) =>
      [("disruption_status", TextField(status))]
    case FareEstimate(touchOn, touchOff, freeTram, traveled) =>
      [("journey_touch_on_utc", TouchDateField(touchOn)), ("journey_touch_off_utc", TouchDateField(touchOff)),
       ("is_journey_in_free_tram_zone", BoolField(freeTram)), ("traveled_route_types", RouteTypeListField(traveled))]
    case Outlets(max) =>
      [("max_results", IntField(max))]
    case OutletsLatLong(max, distance) =>
      [("max_results", IntField(max)), ("max_distance", IntField(distance))]
    case PatternsRunRoute(expand, stop, date, skipped, geopath) =>
      [("expand", NameListField(expand)), ("stop_id", IntField(stop)), ("date_utc", IsoDateField(date)),
       ("include_skipped", BoolField(skipped)), ("include_geopath", BoolField(geopath))]
    case Routes(routeTypes, name) =>
      [("route_types", RouteTypeListField(routeTypes)), ("route_name", TextField(name))]
    case RouteId(geopath, date) =>
      [("include_geopath", BoolField(geopath)), ("date", IsoDateField(date))]
    case RunsId(expand, date) =>
      [("expand", NameListField(expand)), ("date_utc", IsoDateField(date))]
    case RunsRef(expand, date, geopath) =>
      [("expand", NameListField(expand)), ("date_utc", IsoDateField(date)), ("include_geopath", BoolField(geopath))]
  }

  predicate DistinctNames(keys: seq<string>) {
    forall i, j :: 0 <= i < j < |keys| ==> keys[i] != keys[j]
  }

  lemma DistinctFromNames(fields: seq<Field>, keys: seq<string>)
    requires |fields| == |keys| && DistinctNames(keys)
    requires forall i :: 0 <= i < |fields| ==> fields[i].0 == keys[i]
    ensures DistinctKeys(fields)
  {
  }

  /** No struct declares two fields under the same serialised name. */
  lemma FieldsDistinct(o: Opts)
    ensures DistinctKeys(Fields(o))
  {
    if o.DeparturesStop? {
      DeparturesStopDistinct(o);
    } else if o.DeparturesStopRoute? {
      DeparturesStopRouteDistinct(o);
    } else if o.Disruptions? {
      DisruptionsDistinct(o);
    } else if o.FareEstimate? {
      FareEstimateDistinct(o);
    } else if o.OutletsLatLong? {
      OutletsLatLongDistinct(o);
    } else if o.PatternsRunRoute? {
      PatternsRunRouteDistinct(o);
    } else if o.Routes? {
      RoutesDistinct(o);
    } else if o.RouteId? {
      RouteIdDistinct(o);
    } else if o.RunsId? {
      RunsIdDistinct(o);
    } else if o.RunsRef? {
      RunsRefDistinct(o);
    }
  }

  const DeparturesStopNames: seq<string> :=
    ["platform_numbers", "direction_id", "gtfs", "date_utc", "max_results", "include_cancelled",
    "look_backwards", "expand", "include_geopath"]

  lemma DeparturesStopNamesDistinct()
    ensures DistinctNames(DeparturesStopNames)
  {
  }

  lemma DeparturesStopDistinct(o: Opts)
    requires o.DeparturesStop?
    ensures DistinctKeys(Fields(o))
  {
    DeparturesStopNamesDistinct();
    DeparturesStopKeyed(o);
    DistinctFromNames(Fields(o), DeparturesStopNames);
  }

  lemma DeparturesStopKeyed(o: Opts)
    requires o.DeparturesStop?
    ensures |Fields(o)| == |DeparturesStopNames|
    ensures forall i :: 0 <= i < |Fields(o)| ==> Fields(o)[i].0 == DeparturesStopNames[i]
  {
  }

  const DeparturesStopRouteNames: seq<string> :=
    ["direction_id", "gtfs", "date_utc", "max_results", "include_cancelled", "look_backwards",
    "expand", "include_geopath"]

  lemma DeparturesStopRouteNamesDistinct()
    ensures DistinctNames(DeparturesStopRouteNames)
  {
  }

  lemma DeparturesStopRouteDistinct(o: Opts)
    requires o.DeparturesStopRoute?
    ensures DistinctKeys(Fields(o))
  {
    DeparturesStopRouteNamesDistinct();
    DeparturesStopRouteKeyed(o);
    DistinctFromNames(Fields(o), DeparturesStopRouteNames);
  }

  lemma DeparturesStopRouteKeyed(o: Opts)
    requires o.DeparturesStopRoute?
    ensures |Fields(o)| == |DeparturesStopRouteNames|
    ensures forall i :: 0 <= i < |Fields(o)| ==> Fields(o)[i].0 == DeparturesStopRouteNames[i]
  {
  }

  lemma DisruptionsDistinct(o: Opts)
    requires o.Disruptions?
    ensures DistinctKeys(Fields(o))
  {
    DistinctFromNames(Fields(o), ["route_types", "disruption_modes", "disruption_status"]);
  }

  const FareEstimateNames: seq<string> :=
    ["journey_touch_on_utc", "journey_touch_off_utc", "is_journey_in_free_tram_zone",
    "traveled_route_types"]

  lemma FareEstimateNamesDistinct()
    ensures DistinctNames(FareEstimateNames)
  {
  }

  lemma FareEstimateDistinct(o: Opts)
    requires o.FareEstimate?
    ensures DistinctKeys(Fields(o))
  {
    FareEstimateNamesDistinct();
    FareEstimateKeyed(o);
    DistinctFromNames(Fields(o), FareEstimateNames);
  }

  lemma FareEstimateKeyed(o: Opts)
    requires o.FareEstimate?
    ensures |Fields(o)| == |FareEstimateNames|
    ensures forall i :: 0 <= i < |Fields(o)| ==> Fields(o)[i].0 == FareEstimateNames[i]
  {
  }

  lemma OutletsLatLongDistinct(o: Opts)
    requires o.OutletsLatLong?
    ensures DistinctKeys(Fields(o))
  {
    DistinctFromNames(Fields(o), ["max_results", "max_distance"]);
  }

  const PatternsRunRouteNames: seq<string> :=
    ["expand", "stop_id", "date_utc", "include_skipped", "include_geopath"]

  lemma PatternsRunRouteNamesDistinct()
    ensures DistinctNames(PatternsRunRouteNames)
  {
  }

  lemma PatternsRunRouteDistinct(o: Opts)
    requires o.PatternsRunRoute?
    ensures DistinctKeys(Fields(o))
  {
    PatternsRunRouteNamesDistinct();
    PatternsRunRouteKeyed(o);
    DistinctFromNames(Fields(o), PatternsRunRouteNames);
  }

  lemma PatternsRunRouteKeyed(o: Opts)
    requires o.PatternsRunRoute?
    ensures |Fields(o)| == |PatternsRunRouteNames|
    ensures forall i :: 0 <= i < |Fields(o)| ==> Fields(o)[i].0 == PatternsRunRouteNames[i]
  {
  }

  lemma RoutesDistinct(o: Opts)
    requires o.Routes?
    ensures DistinctKeys(Fields(o))
  {
    DistinctFromNames(Fields(o), ["route_types", "route_name"]);
  }

  lemma RouteIdDistinct(o: Opts)
    requires o.RouteId?
    ensures DistinctKeys(Fields(o))
  {
    DistinctFromNames(Fields(o), ["include_geopath", "date"]);
  }

  lemma RunsIdDistinct(o: Opts)
    requires o.RunsId?
    ensures DistinctKeys(Fields(o))
  {
    DistinctFromNames(Fields(o), ["expand", "date_utc"]);
  }

  lemma RunsRefDistinct(o: Opts)
    requires o.RunsRef?
    ensures DistinctKeys(Fields(o))
  {
    DistinctFromNames(Fields(o), ["expand", "date_utc", "include_geopath"]);
  }

  /** `serde_json::to_value` of the struct. */
  function ToValue(o: Opts): (obj: map<string, JsonValue>)
    ensures Enumerates(Present(Fields(o)), obj)
  {
    FieldsDistinct(o);
    Serialized(Fields(o))
  }

  /** `#[derive(Default)]`: the same struct with every field `None`. */
  function Default(o: Opts): (d: Opts)
    ensures d.Disruptions? ==> !d.modes
    ensures forall i :: 0 <= i < |Fields(d)| ==> Fields(d)[i].1.None?
  {
    match o
    case DeparturesStop(_, _, _, _, _, _, _, _, _) => DeparturesStop(None, None, None, None, None, None, None, None, None)
    case DeparturesStopRoute(_, _, _, _, _, _, _, _) => DeparturesStopRoute(None, None, None, None, None, None, None, None)
    case Disruptions(_, _, _) => Disruptions(None, false, None)
    case DisruptionsSpecific(_) => DisruptionsSpecific(None)
    case FareEstimate(_, _, _, _) => FareEstimate(None, None, None, None)
    case Outlets(_) => Outlets(None)
    case OutletsLatLong(_, _) => OutletsLatLong(None, None)
    case PatternsRunRoute(_, _, _, _, _) => PatternsRunRoute(None, None, None, None, None)
    case Routes(_, _) => Routes(None, None)
    case RouteId(_, _) => RouteId(None, None)
    case RunsId(_, _) => RunsId(None, None)
    case RunsRef(_, _, _) => RunsRef(None, None, None)
  }

  /** The default declares the same fields, under the same names, as the
      struct it is the default of. */
  lemma DefaultKeepsKeys(o: Opts)
    ensures |Fields(Default(o))| == |Fields(o)|
    ensures forall i :: 0 <= i < |Fields(o)| ==> Fields(Default(o))[i].0 == Fields(o)[i].0
  {
    if o.DeparturesStop? || o.DeparturesStopRoute? {
      DeparturesKeepKeys(o);
    }
  }

  lemma DeparturesKeepKeys(o: Opts)
    requires o.DeparturesStop? || o.DeparturesStopRoute?
    ensures |Fields(Default(o))| == |Fields(o)|
    ensures forall i :: 0 <= i < |Fields(o)| ==> Fields(Default(o))[i].0 == Fields(o)[i].0
  {
    if o.DeparturesStop? {
      DeparturesStopKeyed(o);
      DeparturesStopKeyed(Default(o));
    } else {
      DeparturesStopRouteKeyed(o);
      DeparturesStopRouteKeyed(Default(o));
    }
  }

  /** The struct serialises to the empty object exactly when it is its
      default. */
  lemma DefaultIsEmpty(o: Opts)
    ensures ToValue(o) == map[] <==> o == Default(o)
  {
    FieldsDistinct(o);
    SerializedEmpty(Fields(o));
    DefaultFieldsUnset(o);
  }

  /** A struct is its default exactly when none of its fields is set. */
  lemma DefaultFieldsUnset(o: Opts)
    ensures o == Default(o) <==> forall i :: 0 <= i < |Fields(o)| ==> Fields(o)[i].1.None?
  {
    var f := Fields(o);
    var unset := forall i :: 0 <= i < |f| ==> f[i].1.None?;
    match o
    case DeparturesStop(_, _, _, _, _, _, _, _, _) =>
      DeparturesDefault(o);
    case DeparturesStopRoute(_, _, _, _, _, _, _, _) =>
      DeparturesDefault(o);
    case Disruptions(_, _, _) =>
      assert unset <==> f[0].1.None? && f[1].1.None? && f[2].1.None?;
    case DisruptionsSpecific(_) =>
      assert unset <==> f[0].1.None?;
    case FareEstimate(_, _, _, _) =>
      assert unset <==> f[0].1.None? && f[1].1.None? && f[2].1.None? && f[3].1.None?;
    case Outlets(_) =>
      assert unset <==> f[0].1.None?;
    case OutletsLatLong(_, _) =>
      assert unset <==> f[0].1.None? && f[1].1.None?;
    case PatternsRunRoute(_, _, _, _, _) =>
      assert unset <==> f[0].1.None? && f[1].1.None? && f[2].1.None? && f[3].1.None? && f[4].1.None?;
    case Routes(_, _) =>
      assert unset <==> f[0].1.None? && f[1].1.None?;
    case RouteId(_, _) =>
      assert unset <==> f[0].1.None? && f[1].1.None?;
    case RunsId(_, _) =>
      assert unset <==> f[0].1.None? && f[1].1.None?;
    case RunsRef(_, _, _) =>
      assert unset <==> f[0].1.None? && f[1].1.None? && f[2].1.None?;
  }

  lemma DeparturesDefault(o: Opts)
    requires o.DeparturesStop? || o.DeparturesStopRoute?
    ensures o == Default(o) <==> forall i :: 0 <= i < |Fields(o)| ==> Fields(o)[i].1.None?
  {
    var f := Fields(o);
    var k := if o.DeparturesStop? then 1 else 0;
    var unset := forall i :: 0 <= i < |f| ==> f[i].1.None?;
    assert unset <==> (o.DeparturesStop? ==> f[0].1.None?) && f[k].1.None? && f[k + 1].1.None? && f[k + 2].1.None?
                      && f[k + 3].1.None? && f[k + 4].1.None? && f[k + 5].1.None? && f[k + 6].1.None? && f[k + 7].1.None?;
  }

  /** `to_query` of the struct, given the serialised object's iteration order. */
  function Query(o: Opts, entries: seq<Entry>, encodeQuery: string -> string): (r: string)
    requires Enumerates(entries, ToValue(o))
    ensures o == Default(o) ==> r == ""
  {
    DefaultIsEmpty(o);
    ObjectQuery(ToValue(o), entries, encodeQuery)
  }

  /* ---------- what reaches the query ---------- */

  predicate HasDate(o: Opts) {
    o.DeparturesStop? || o.DeparturesStopRoute? || o.PatternsRunRoute? || o.RouteId? || o.RunsId? || o.RunsRef?
  }

  /** The serialised name of the date field: renamed to `date_utc`
      everywhere except in `RouteIdOpts`. */
  function DateKey(o: Opts): string
    requires HasDate(o)
  {
    if o.RouteId? then "date" else "date_utc"
  }

  /** The segments a set field stands for are among the query's segments. */
  lemma SetFieldSegments(fields: seq<Field>, i: nat, key: string, v: JsonValue,
                         entries: seq<Entry>, encodeQuery: string -> string)
    requires DistinctKeys(fields)
    requires i < |fields| && fields[i] == (key, Some(v))
    requires Enumerates(entries, Serialized(fields))
    ensures forall s :: s in EntrySegments(key, v, encodeQuery) ==> s in Segments(entries, encodeQuery)
  {
    SerializedField(fields, key);
    assert (key, Some(v)) in fields;
    FieldSegmentsPresent(entries, Serialized(fields), key, encodeQuery);
  }

  /** A set scalar field gives the segment `key=value`, its value rendered
      and cleaned. */
  lemma ScalarFieldSegment(fields: seq<Field>, i: nat, key: string, x: JsonScalar,
                           entries: seq<Entry>, encodeQuery: string -> string)
    requires DistinctKeys(fields)
    requires i < |fields| && fields[i] == (key, Some(Scalar(x)))
    requires Enumerates(entries, Serialized(fields))
    ensures key + "=" + Clean(Render(x)) in Segments(entries, encodeQuery)
  {
    assert key + "=" + Clean(Render(x)) in EntrySegments(key, Scalar(x), encodeQuery);
    SetFieldSegments(fields, i, key, Scalar(x), entries, encodeQuery);
  }

  /** A set list field gives one `key=value` segment per element, each value
      rendered, cleaned and URL-escaped. */
  lemma ArrayFieldSegments(fields: seq<Field>, i: nat, key: string, xs: seq<JsonScalar>,
                           entries: seq<Entry>, encodeQuery: string -> string)
    requires DistinctKeys(fields)
    requires i < |fields| && fields[i] == (key, Some(Array(xs)))
    requires Enumerates(entries, Serialized(fields))
    ensures forall j :: 0 <= j < |xs| ==> key + "=" + encodeQuery(Clean(Render(xs[j]))) in Segments(entries, encodeQuery)
  {
    SetFieldSegments(fields, i, key, Array(xs), entries, encodeQuery);
    forall j | 0 <= j < |xs|
      ensures key + "=" + encodeQuery(Clean(Render(xs[j]))) in Segments(entries, encodeQuery)
    {
      assert ElementSegments(key, xs, encodeQuery)[j] in EntrySegments(key, Array(xs), encodeQuery);
    }
  }

  /** A key no field carries is not in the object. */
  lemma UnsetKey(fields: seq<Field>, key: string)
    requires DistinctKeys(fields)
    requires forall i :: 0 <= i < |fields| ==> fields[i].0 != key
    ensures key !in Serialized(fields)
  {
    SerializedField(fields, key);
  }

  /** Where the date field sits among the struct's fields. */
  function DateIndex(o: Opts): (i: nat)
    requires HasDate(o)
    ensures i < |Fields(o)|
    ensures Fields(o)[i] == (DateKey(o), IsoDateField(o.date))
  {
    match o
    case DeparturesStop(_, _, _, _, _, _, _, _, _) => 3
    case DeparturesStopRoute(_, _, _, _, _, _, _, _) => 2
    case PatternsRunRoute(_, _, _, _, _) => 2
    case RouteId(_, _) => 1
    case RunsId(_, _) => 1
    case RunsRef(_, _, _) => 1
  }

  /** The date field is the only one whose key starts with `date`. */
  lemma DateKeyOnly(o: Opts, other: string)
    requires HasDate(o)
    requires other == "date" || other == "date_utc"
    requires other != DateKey(o)
    ensures other !in ToValue(o)
  {
    FieldsDistinct(o);
    var f := Fields(o);
    forall i | 0 <= i < |f| ensures f[i].0 != other {
      if i == DateIndex(o) {
      } else {
        assert |f[i].0| != |other| || f[i].0[0] != 'd';
      }
    }
    UnsetKey(f, other);
  }

  /** A set date reaches the query as one `key=` segment holding its
      ISO 8601 text, under the renamed key only. */
  lemma DateSegment(o: Opts, entries: seq<Entry>, encodeQuery: string -> string)
    requires HasDate(o) && o.date.Some?
    requires Enumerates(entries, ToValue(o))
    ensures DateKey(o) + "=" + FormatIso8601(o.date.value) in Segments(entries, encodeQuery)
    ensures o.RouteId? ==> "date_utc" !in ToValue(o)
    ensures !o.RouteId? ==> "date" !in ToValue(o)
  {
    FieldsDistinct(o);
    var i := DateIndex(o);
    ScalarFieldSegment(Fields(o), i, DateKey(o), SerIso8601(o.date), entries, encodeQuery);
    CleanSerIso8601(o.date.value);
    DateKeyOnly(o, if o.RouteId? then "date_utc" else "date");
  }

  /** The touch-on and touch-off times of a fare estimate reach the query
      in the `YYYY-MM-DD HH:MM` form under their `journey_touch_*_utc` keys. */
  lemma TouchSegments(o: Opts, entries: seq<Entry>, encodeQuery: string -> string)
    requires o.FareEstimate?
    requires Enumerates(entries, ToValue(o))
    ensures o.touchOn.Some? ==> "journey_touch_on_utc" + "=" + FormatTouch(o.touchOn.value) in Segments(entries, encodeQuery)
    ensures o.touchOff.Some? ==> "journey_touch_off_utc" + "=" + FormatTouch(o.touchOff.value) in Segments(entries, encodeQuery)
  {
    FareEstimateKeys(o);
    if o.touchOn.Some? {
      TouchSegment(o, 0, o.touchOn.value, entries, encodeQuery);
    }
    if o.touchOff.Some? {
      TouchSegment(o, 1, o.touchOff.value, entries, encodeQuery);
    }
  }

  /** The serialised keys of a fare estimate's touch fields. */
  lemma FareEstimateKeys(o: Opts)
    requires o.FareEstimate?
    ensures Fields(o)[0].0 == "journey_touch_on_utc" && Fields(o)[1].0 == "journey_touch_off_utc"
  {
  }

  /** The segment of one touch field of a fare estimate. */
  lemma TouchSegment(o: Opts, i: nat, d: NaiveDateTime, entries: seq<Entry>, encodeQuery: string -> string)
    requires o.FareEstimate? && i < 2
    requires (if i == 0 then o.touchOn else o.touchOff) == Some(d)
    requires Enumerates(entries, ToValue(o))
    ensures Fields(o)[i].0 + "=" + FormatTouch(d) in Segments(entries, encodeQuery)
  {
    FieldsDistinct(o);
    var f := Fields(o);
    assert f[i] == (f[i].0, Some(Scalar(SerTouchUtc(Some(d)))));
    ScalarFieldSegment(f, i, f[i].0, SerTouchUtc(Some(d)), entries, encodeQuery);
    CleanSerTouchUtc(d);
  }

  /** The free tram zone flag reaches the query under its long name. */
  lemma FreeTramZoneSegment(o: Opts, entries: seq<Entry>, encodeQuery: string -> string)
    requires o.FareEstimate? && o.freeTramZone.Some?
    requires Enumerates(entries, ToValue(o))
    ensures "is_journey_in_free_tram_zone" + "=" + (if o.freeTramZone.value then "true" else "false")
              in Segments(entries, encodeQuery)
  {
    FieldsDistinct(o);
    ScalarFieldSegment(Fields(o), 2, "is_journey_in_free_tram_zone", JBool(o.freeTramZone.value), entries, encodeQuery);
    CleanRenderedBool(o.freeTramZone.value);
  }

  /** The fare estimate's fields are known only by their renamed keys. */
  lemma FareEstimateRenamed(o: Opts)
    requires o.FareEstimate?
    ensures "touch_on" !in ToValue(o) && "touch_off" !in ToValue(o) && "free_tram_zone" !in ToValue(o)
  {
    FieldsDistinct(o);
    var f := Fields(o);
    UnsetKey(f, "touch_on");
    UnsetKey(f, "touch_off");
    UnsetKey(f, "free_tram_zone");
  }

  /** Each route type in a `route_types` filter becomes its own
      `route_types=<code>` segment, the code URL-escaped. */
  lemma RouteTypeSegments(o: Opts, entries: seq<Entry>, encodeQuery: string -> string)
    requires o.Disruptions? || o.Routes?
    requires o.routeTypes.Some?
    requires Enumerates(entries, ToValue(o))
    ensures forall j :: 0 <= j < |o.routeTypes.value| ==>
              "route_types" + "=" + encodeQuery(Display(o.routeTypes.value[j])) in Segments(entries, encodeQuery)
  {
    FieldsDistinct(o);
    var rs := o.routeTypes.value;
    var xs := RouteTypeScalars(rs);
    ArrayFieldSegments(Fields(o), 0, "route_types", xs, entries, encodeQuery);
    forall j | 0 <= j < |rs|
      ensures "route_types" + "=" + encodeQuery(Display(rs[j])) in Segments(entries, encodeQuery)
    {
      DisplayMatchesSerialize(rs[j]);
      assert xs[j] == Serialize(rs[j]);
    }
  }

  /** An empty list of disruption modes is serialised, yet contributes
      nothing to the query: a struct that is not the default still gives an
      empty query string. */
  lemma EmptyModesQuery(entries: seq<Entry>, encodeQuery: string -> string)
    requires Enumerates(entries, ToValue(Disruptions(None, true, None)))
    ensures Disruptions(None, true, None) != Default(Disruptions(None, true, None))
    ensures Query(Disruptions(None, true, None), entries, encodeQuery) == ""
  {
    var o := Disruptions(None, true, None);
    FieldsDistinct(o);
    var obj := ToValue(o);
    var f := Fields(o);
    assert f[1] == ("disruption_modes", Some(Array([])));
    SerializedField(f, "disruption_modes");
    forall k | k in obj ensures k == "disruption_modes" {
      SerializedField(f, k);
    }
    EnumeratesSingleton(entries, obj, "disruption_modes");
    assert EntryTexts(entries, encodeQuery) == [Join([], '&')];
  }

  /** A route name is a scalar and reaches the query unescaped: with only the
      name set, the query is `route_name=` and the name itself. */
  lemma RouteNameQuery(name: string, entries: seq<Entry>, encodeQuery: string -> string)
    requires forall i :: 0 <= i < |name| ==> Plain(name[i])
    requires Enumerates(entries, ToValue(Routes(None, Some(name))))
    ensures Query(Routes(None, Some(name)), entries, encodeQuery) == "route_name" + "=" + name
  {
    var o := Routes(None, Some(name));
    FieldsDistinct(o);
    var obj := ToValue(o);
    var f := Fields(o);
    assert f[1] == ("route_name", Some(Scalar(JStr(name))));
    SerializedField(f, "route_name");
    forall k | k in obj ensures k == "route_name" {
      SerializedField(f, k);
    }
    EnumeratesSingleton(entries, obj, "route_name");
    OneScalarQuery("route_name", JStr(name), encodeQuery);
    CleanRenderedString(name);
    EscapePlain(name);
  }
}
