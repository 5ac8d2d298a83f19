/** The endpoint methods of `Client` in `src/core.rs`: each fills a path
    template with its arguments, appends `?` and the query string of its
    options struct when it takes one, and hands the path to `rq`. */
module Endpoints {
  import opened Outcomes
  import opened Text
  import opened Integers
  import opened Json
  import opened Helpers
  import opened Types
  import Options
  import opened Encoding
  import opened Requests

  /** One variant per endpoint method, holding its path arguments. Ids are
      32-bit integers shown in decimal; `latitude` and `longitude` are the
      `Display` texts of the `f64` arguments; run refs are used as given. */
  datatype Endpoint =
    | DeparturesStop(routeType: RouteType, stopId: int32)
    | DeparturesStopRoute(routeType: RouteType, routeId: int32, stopId: int32)
    | DirectionsId(directionId: int32)
    | DirectionsRoute(routeId: int32)
    | DirectionsIdRoute(directionId: int32, routeType: RouteType)
    | Disruptions
    | DisruptionsRoute(routeId: int32)
    | DisruptionsRouteStop(routeId: int32, stopId: int32)
    | DisruptionsStop(stopId: int32)
    | DisruptionsId(disruptionId: int32)
    | FareEstimate(minZone: uint8, maxZone: uint8)
    | Outlets
    | OutletsLatLong(latitude: string, longitude: string)
    | PatternsRunRoute(runRef: string, routeType: RouteType)
    | Routes
    | RoutesId(routeId: int32)
    | RunsRef(runRef: string)
    | RunsId(routeId: int32)
    | RunsRefType(runRef: string, routeType: RouteType)
    | RunsIdType(runId: int32, routeType: RouteType)
    | Search(term: string)
    | StopsIdRouteType(stopId: int32, routeType: RouteType)

  /** The `/`-separated pieces of the path before the query, as each method
      formats them. The search term is cleaned and then escaped with
      `url_escape::encode_path`, which is `encodePath` here. */
  function Pieces(e: Endpoint, encodePath: string -> string): (r: seq<string>)
    ensures 2 <= |r| && r[0] == "v3"
  {
    match e
    case DeparturesStop(rt, stop) =>
      ["v3", "departures", "route_type", Display(rt), "stop", IntToString(stop)]
    case DeparturesStopRoute(rt, route, stop) =>
      ["v3", "departures", "route_type", Display(rt), "stop", IntToString(route), "route", IntToString(stop)]
    case DirectionsId(direction) => ["v3", "directions", IntToString(direction)]
    case DirectionsRoute(route) => ["v3", "directions", "route", IntToString(route)]
    case DirectionsIdRoute(direction, rt) => ["v3", "directions", IntToString(direction), "route_type", Display(rt)]
    case Disruptions => ["v3", "disruptions"]
    case DisruptionsRoute(route) => ["v3", "disruptions", "route", IntToString(route)]
    case DisruptionsRouteStop(route, stop) => ["v3", "disruptions", "route", IntToString(route), "stop", IntToString(stop)]
    case DisruptionsStop(stop) => ["v3", "disruptions", "stop", IntToString(stop)]
    case DisruptionsId(disruption) => ["v3", "disruptions", IntToString(disruption)]
    case FareEstimate(lo, hi) => ["v3", "fare_estimate", "min_zone", IntToString(lo), "max_zone", IntToString(hi)]
    case Outlets => ["v3", "outlets"]
    case OutletsLatLong(lat, long) => ["v3", "outlets", "location", lat, long]
    case PatternsRunRoute(run, rt) => ["v3", "pattern", "run", run, "route_type", Display(rt)]
    case Routes => ["v3", "routes"]
    case RoutesId(route) => ["v3", "routes", IntToString(route)]
    case RunsRef(run) => ["v3", "runs", run]
    case RunsId(route) => ["v3", "runs", "route", IntToString(route)]
    case RunsRefType(run, rt) => ["v3", "runs", run, "route_type", Display(rt)]
    case RunsIdType(run, rt) => ["v3", "runs", "route", IntToString(run), "route_type", Display(rt)]
    case Search(term) => ["v3", "search", encodePath(Clean(term))]
    case StopsIdRouteType(stop, rt) => ["v3", "stops", IntToString(stop), "route_type", Display(rt)]
  }

  /** The path before the query. */
  function Template(e: Endpoint, encodePath: string -> string): string {
    Join(Pieces(e, encodePath), '/')
  }

  /** The methods with an options argument; the others pass the bare template. */
  predicate TakesOptions(e: Endpoint) {
    !(e.DirectionsId? || e.DirectionsRoute? || e.DirectionsIdRoute? || e.DisruptionsId?)
  }

  /** Which options struct a method takes. The options of `search` and
      `stops_id_route_type` are not part of this model; their query string
      is taken as given. */
  predicate Accepts(e: Endpoint, o: Options.Opts) {
    match e
    case DeparturesStop(_, _) => o.DeparturesStop?
    case DeparturesStopRoute(_, _, _) => o.DeparturesStopRoute?
    case Disruptions => o.Disruptions?
    case DisruptionsRoute(_) => o.DisruptionsSpecific?
    case DisruptionsRouteStop(_, _) => o.DisruptionsSpecific?
    case DisruptionsStop(_) => o.DisruptionsSpecific?
    case FareEstimate(_, _) => o.FareEstimate?
    case Outlets => o.Outlets?
    case OutletsLatLong(_, _) => o.OutletsLatLong?
    case PatternsRunRoute(_, _) => o.PatternsRunRoute?
    case Routes => o.Routes?
    case RoutesId(_) => o.RouteId?
    case RunsRef(_) => o.RunsRef?
    case RunsId(_) => o.RunsId?
    case RunsRefType(_, _) => o.RunsRef?
    case RunsIdType(_, _) => o.RunsId?
    case _ => false
  }

  /** The path a method passes to `rq`, given the query string of its options. */
  function Path(e: Endpoint, query: string, encodePath: string -> string): (path: string)
    ensures |path| >= |Template(e, encodePath)|
    ensures path[..|Template(e, encodePath)|] == Template(e, encodePath)
    ensures TakesOptions(e) <==> |path| > |Template(e, encodePath)|
  {
    if TakesOptions(e) then Template(e, encodePath) + "?" + query else Template(e, encodePath)
  }

  /** The URL a method requests. */
  function Url(e: Endpoint, query: string, devid: string, key: string,
               hmac: (seq<byte>, seq<byte>) -> Digest, encodePath: string -> string): (url: string)
    ensures Verifies(url, key, hmac)
    ensures |url| >= |ApiUrl| + 1 + |Template(e, encodePath)|
    ensures url[..|ApiUrl| + 1 + |Template(e, encodePath)|] == ApiUrl + "/" + Template(e, encodePath)
  {
    var path := Path(e, query, encodePath);
    SignedUrlVerifies(path, devid, key, hmac);
    assert SignedUrl(path, devid, key, hmac)[..|ApiUrl| + 1 + |Template(e, encodePath)|]
        == ApiUrl + "/" + Template(e, encodePath) by {
      UrlPrefix(path, devid, key, hmac, |Template(e, encodePath)|);
    }
    SignedUrl(path, devid, key, hmac)
  }

  /** The URL starts with the origin, `/` and the path. */
  lemma UrlPrefix(path: string, devid: string, key: string, hmac: (seq<byte>, seq<byte>) -> Digest, n: nat)
    requires n <= |path|
    ensures |SignedUrl(path, devid, key, hmac)| >= |ApiUrl| + 1 + n
    ensures SignedUrl(path, devid, key, hmac)[..|ApiUrl| + 1 + n] == ApiUrl + "/" + path[..n]
  {
    var aug := AugmentPath(path, devid);
    var sig := Signature(aug, key, hmac);
    assert SignedUrl(path, devid, key, hmac) == ApiUrl + aug + "&signature=" + sig;
    AugmentPathShape(path, devid);
    JoinedPrefix(path, Separator(path) + ("devid=" + devid), sig, n);
  }

  /** The origin, `/` and a path, whatever follows them. */
  lemma JoinedPrefix(path: string, tail: string, sig: string, n: nat)
    requires n <= |path|
    ensures |ApiUrl + ("/" + path + tail) + "&signature=" + sig| >= |ApiUrl| + 1 + n
    ensures (ApiUrl + ("/" + path + tail) + "&signature=" + sig)[..|ApiUrl| + 1 + n] == ApiUrl + "/" + path[..n]
  {
    var aug := "/" + path + tail;
    PrefixThrough("/", path, tail, n);
    assert ApiUrl + aug + "&signature=" + sig == ApiUrl + aug + ("&signature=" + sig);
    PrefixThrough(ApiUrl, aug, "&signature=" + sig, 1 + n);
  }

  /** Cutting `a + b + c` inside `b` keeps `a` and the start of `b`. */
  lemma PrefixThrough<T>(a: seq<T>, b: seq<T>, c: seq<T>, n: nat)
    requires n <= |b|
    ensures (a + b + c)[..|a| + n] == a + b[..n]
  {
  }

  /* ---------- what the templates contain ---------- */

  /** A character neither `?` nor `&`: nothing that changes how a query is read. */
  predicate NoQueryChars(s: string) {
    forall i :: 0 <= i < |s| ==> s[i] != '?' && s[i] != '&'
  }

  /** A decimal number contains neither query characters nor `/`. */
  lemma NumberText(n: int)
    ensures NoQueryChars(IntToString(n)) && '/' !in IntToString(n)
  {
    var r := IntToString(n);
    forall i | 0 <= i < |r| ensures r[i] != '?' && r[i] != '&' && r[i] != '/' {
      if i > 0 || n >= 0 { assert IsDigit(r[i]); }
    }
  }

  /** The string arguments that go into a template unescaped (the run ref,
      the coordinates and the escaped search term) hold no query characters. */
  predicate PlainArguments(e: Endpoint, encodePath: string -> string) {
    match e
    case OutletsLatLong(lat, long) => NoQueryChars(lat) && NoQueryChars(long)
    case PatternsRunRoute(run, _) => NoQueryChars(run)
    case RunsRef(run) => NoQueryChars(run)
    case RunsRefType(run, _) => NoQueryChars(run)
    case Search(term) => NoQueryChars(encodePath(Clean(term)))
    case _ => true
  }

  /** A character in no piece and not the separator is in no join. */
  lemma {:induction false} JoinWithout(parts: seq<string>, sep: char, c: char)
    requires c != sep
    requires forall i :: 0 <= i < |parts| ==> c !in parts[i]
    ensures c !in Join(parts, sep)
    decreases |parts|
  {
    if |parts| > 1 {
      JoinWithout(parts[1..], sep, c);
    }
  }

  /** The fixed words of the templates hold no query characters. */
  lemma WordsPlain()
    ensures NoQueryChars("v3") && NoQueryChars("departures") && NoQueryChars("route_type")
    ensures NoQueryChars("stop") && NoQueryChars("route") && NoQueryChars("directions")
    ensures NoQueryChars("disruptions") && NoQueryChars("fare_estimate") && NoQueryChars("min_zone")
    ensures NoQueryChars("max_zone") && NoQueryChars("outlets") && NoQueryChars("location")
    ensures NoQueryChars("pattern") && NoQueryChars("run") && NoQueryChars("routes")
    ensures NoQueryChars("runs") && NoQueryChars("search") && NoQueryChars("stops")
  {
  }

  predicate PiecesPlain(e: Endpoint, encodePath: string -> string) {
    forall i :: 0 <= i < |Pieces(e, encodePath)| ==> NoQueryChars(Pieces(e, encodePath)[i])
  }

  /** With plain string arguments no piece has a query character: ids,
      zones and route types never bring one. */
  lemma PiecesHaveNoQuery(e: Endpoint, encodePath: string -> string)
    requires PlainArguments(e, encodePath)
    ensures PiecesPlain(e, encodePath)
  {
    if e.DeparturesStop? || e.DeparturesStopRoute? || e.DirectionsId? || e.DirectionsRoute? || e.DirectionsIdRoute? {
      DeparturesDirectionsPlain(e, encodePath);
    } else if e.Disruptions? || e.DisruptionsRoute? || e.DisruptionsRouteStop? || e.DisruptionsStop? || e.DisruptionsId? {
      DisruptionsPlain(e, encodePath);
    } else if e.FareEstimate? || e.Outlets? || e.OutletsLatLong? || e.PatternsRunRoute? || e.Routes? || e.RoutesId? {
      FareOutletsRoutesPlain(e, encodePath);
    } else {
      RunsSearchStopsPlain(e, encodePath);
    }
  }

  lemma DeparturesDirectionsPlain(e: Endpoint, encodePath: string -> string)
    requires e.DeparturesStop? || e.DeparturesStopRoute? || e.DirectionsId? || e.DirectionsRoute? || e.DirectionsIdRoute?
    ensures PiecesPlain(e, encodePath)
  {
    WordsPlain();
    match e
    case DeparturesStop(rt, stop) => NumberText(ToI8(rt)); NumberText(stop);
    case DeparturesStopRoute(rt, route, stop) => NumberText(ToI8(rt)); NumberText(route); NumberText(stop);
    case DirectionsId(direction) => NumberText(direction);
    case DirectionsRoute(route) => NumberText(route);
    case DirectionsIdRoute(direction, rt) => NumberText(direction); NumberText(ToI8(rt));
  }

  lemma DisruptionsPlain(e: Endpoint, encodePath: string -> string)
    requires e.Disruptions? || e.DisruptionsRoute? || e.DisruptionsRouteStop? || e.DisruptionsStop? || e.DisruptionsId?
    ensures PiecesPlain(e, encodePath)
  {
    WordsPlain();
    match e
    case Disruptions =>
    case DisruptionsRoute(route) => NumberText(route);
    case DisruptionsRouteStop(route, stop) => NumberText(route); NumberText(stop);
    case DisruptionsStop(stop) => NumberText(stop);
    case DisruptionsId(disruption) => NumberText(disruption);
  }

  lemma FareOutletsRoutesPlain(e: Endpoint, encodePath: string -> string)
    requires e.FareEstimate? || e.Outlets? || e.OutletsLatLong? || e.PatternsRunRoute? || e.Routes? || e.RoutesId?
    requires PlainArguments(e, encodePath)
    ensures PiecesPlain(e, encodePath)
  {
    WordsPlain();
    match e
    case FareEstimate(lo, hi) => NumberText(lo); NumberText(hi);
    case Outlets =>
    case OutletsLatLong(_, _) =>
    case PatternsRunRoute(_, rt) => NumberText(ToI8(rt));
    case Routes =>
    case RoutesId(route) => NumberText(route);
  }

  lemma RunsSearchStopsPlain(e: Endpoint, encodePath: string -> string)
    requires e.RunsRef? || e.RunsId? || e.RunsRefType? || e.RunsIdType? || e.Search? || e.StopsIdRouteType?
    requires PlainArguments(e, encodePath)
    ensures PiecesPlain(e, encodePath)
  {
    WordsPlain();
    match e
    case RunsRef(_) =>
    case RunsId(route) => NumberText(route);
    case RunsRefType(_, rt) => NumberText(ToI8(rt));
    case RunsIdType(run, rt) => NumberText(run); NumberText(ToI8(rt));
    case Search(_) =>
    case StopsIdRouteType(stop, rt) => NumberText(stop); NumberText(ToI8(rt));
  }

  /** With plain string arguments a template has no query of its own. */
  lemma TemplateHasNoQuery(e: Endpoint, encodePath: string -> string)
    requires PlainArguments(e, encodePath)
    ensures NoQueryChars(Template(e, encodePath))
  {
    PiecesHaveNoQuery(e, encodePath);
    JoinWithout(Pieces(e, encodePath), '/', '?');
    JoinWithout(Pieces(e, encodePath), '/', '&');
  }

  lemma NoQueryCharsNotIn(s: string)
    ensures NoQueryChars(s) <==> '?' !in s && '&' !in s
  {
    if !NoQueryChars(s) {
      var i :| 0 <= i < |s| && (s[i] == '?' || s[i] == '&');
    }
  }

  /* ---------- the paths handed to `rq` ---------- */

  /** Methods without options pass the bare template: `rq` adds `?`, and the
      developer id is the only parameter. */
  lemma NoOptionsRequest(e: Endpoint, query: string, devid: string, encodePath: string -> string)
    requires !TakesOptions(e)
    ensures AugmentPath(Path(e, query, encodePath), devid) == "/" + Template(e, encodePath) + "?" + ("devid=" + devid)
    ensures NoQueryChars(devid) ==> Params(AugmentPath(Path(e, query, encodePath), devid)) == ["devid=" + devid]
  {
    var t := Template(e, encodePath);
    TemplateHasNoQuery(e, encodePath);
    NoQueryCharsNotIn(t);
    AugmentPathShape(t, devid);
    if NoQueryChars(devid) {
      NoQueryCharsNotIn(devid);
      DevidIsLastParam(t, devid);
      assert QueryOf(t) == "";
    }
  }

  /** What follows the first `?` of `t?q` is `q`. */
  lemma QueryAfterTemplate(t: string, query: string)
    requires '?' !in t
    ensures '?' in t + "?" + query && QueryOf(t + "?" + query) == query
  {
    assert t + "?" + query == t + ("?" + query);
    QueryOfAfter(t, "?" + query);
    assert FirstIndex("?" + query, '?') == 0;
  }

  /** The path of a method with options: the template, `?`, the query. */
  lemma OptionsPathQuery(e: Endpoint, query: string, encodePath: string -> string)
    requires TakesOptions(e) && PlainArguments(e, encodePath)
    ensures '?' in Path(e, query, encodePath) && QueryOf(Path(e, query, encodePath)) == query
  {
    var t := Template(e, encodePath);
    TemplateHasNoQuery(e, encodePath);
    NoQueryCharsNotIn(t);
    QueryAfterTemplate(t, query);
  }

  /** A method with options whose query has no `?` of its own: the developer
      id comes after the query's parameters, which are left as they were. */
  lemma OptionsRequest(e: Endpoint, query: string, devid: string, encodePath: string -> string)
    requires TakesOptions(e) && PlainArguments(e, encodePath)
    requires '?' !in query && NoQueryChars(devid)
    ensures Params(AugmentPath(Path(e, query, encodePath), devid))
         == (if query == "" then [] else Split(query, '&')) + ["devid=" + devid]
  {
    var path := Path(e, query, encodePath);
    OptionsPathQuery(e, query, encodePath);
    NoQueryCharsNotIn(devid);
    QueryWithoutMarkKeepsDevid(path, devid);
  }

  /** A path whose query holds no `?` never ends in a `?` after a non-empty
      query, so the developer id is one more parameter. */
  lemma QueryWithoutMarkKeepsDevid(path: string, devid: string)
    requires '?' in path && '?' !in QueryOf(path)
    requires '?' !in devid && '&' !in devid
    ensures Params(AugmentPath(path, devid)) == Params(path) + ["devid=" + devid]
  {
    var q := QueryOf(path);
    if q != "" {
      var i := FirstIndex(path, '?');
      QueryOfAt(path, i);
      assert path[|path| - 1] == q[|q| - 1];
    }
    DevidIsLastParam(path, devid);
  }

  lemma EmptyQueryAugment(t: string, devid: string)
    requires '?' !in t
    ensures AugmentPath(t + "?", devid) == "/" + t + "?" + ("devid=" + devid)
  {
    AugmentPathShape(t + "?", devid);
  }

  lemma EmptyQueryParams(t: string, devid: string)
    requires '?' !in t && '?' !in devid && '&' !in devid
    ensures Params(AugmentPath(t + "?", devid)) == ["devid=" + devid]
  {
    QueryAfterTemplate(t, "");
    assert t + "?" + "" == t + "?";
    DevidIsLastParam(t + "?", devid);
  }

  /** A template followed by an empty query: `rq` adds the developer id
      directly after the `?`. */
  lemma EmptyQueryRequest(t: string, devid: string)
    requires '?' !in t && '&' !in t && '?' !in devid && '&' !in devid
    ensures AugmentPath(t + "?", devid) == "/" + t + "?" + ("devid=" + devid)
    ensures Params(AugmentPath(t + "?", devid)) == ["devid=" + devid]
    ensures '&' !in AugmentPath(t + "?", devid)
  {
    EmptyQueryAugment(t, devid);
    EmptyQueryParams(t, devid);
    assert '&' !in "devid=";
  }

  /** With default options the query is empty, so the path ends in `?` and
      `rq` adds the developer id directly: it is the only parameter and the
      signed path has no `&`. */
  lemma DefaultOptionsRequest(e: Endpoint, o: Options.Opts, entries: seq<Entry>, devid: string,
                              encodeQuery: string -> string, encodePath: string -> string)
    requires Accepts(e, o) && o == Options.Default(o)
    requires Enumerates(entries, Options.ToValue(o))
    requires PlainArguments(e, encodePath) && NoQueryChars(devid)
    ensures var aug := AugmentPath(Path(e, Options.Query(o, entries, encodeQuery), encodePath), devid);
      && aug == "/" + Template(e, encodePath) + "?" + ("devid=" + devid)
      && Params(aug) == ["devid=" + devid]
      && '&' !in aug
  {
    var t := Template(e, encodePath);
    assert Options.Query(o, entries, encodeQuery) == "";
    assert Path(e, "", encodePath) == t + "?" by {
      AcceptsTakesOptions(e, o);
    }
    TemplateHasNoQuery(e, encodePath);
    NoQueryCharsNotIn(t);
    NoQueryCharsNotIn(devid);
    EmptyQueryRequest(t, devid);
  }

  /** Only methods that take options accept an options struct. */
  lemma AcceptsTakesOptions(e: Endpoint, o: Options.Opts)
    requires Accepts(e, o)
    ensures TakesOptions(e)
  {
  }

  /* ---------- departures for a route from a stop ---------- */

  /** A decimal number or route type has no `/`, so it stays one piece. */
  lemma DeparturesPieces(rt: RouteType, first: int32, second: int32)
    ensures Split(Join(["v3", "departures", "route_type", Display(rt), "stop", IntToString(first), "route", IntToString(second)], '/'), '/')
         == ["v3", "departures", "route_type", Display(rt), "stop", IntToString(first), "route", IntToString(second)]
  {
    NumberText(ToI8(rt));
    NumberText(first);
    NumberText(second);
    var parts := ["v3", "departures", "route_type", Display(rt), "stop", IntToString(first), "route", IntToString(second)];
    assert '/' !in "v3" && '/' !in "departures" && '/' !in "route_type" && '/' !in "stop" && '/' !in "route";
    SplitJoin(parts, '/');
  }

  /** As written, `departures_stop_route` fills the piece after `stop` with
      the route id and the piece after `route` with the stop id: unless the
      two ids are equal, the server reads the wrong stop. */
  lemma DeparturesStopRouteSwapped(rt: RouteType, route: int32, stop: int32, encodePath: string -> string)
    ensures var parts := Split(Template(DeparturesStopRoute(rt, route, stop), encodePath), '/');
      && |parts| == 8 && parts[4] == "stop" && parts[6] == "route"
      && parts[5] == IntToString(route) && parts[7] == IntToString(stop)
      && (route != stop ==> parts[5] != IntToString(stop) && parts[7] != IntToString(route))
  {
    DeparturesPieces(rt, route, stop);
    ParseIntToString(route);
    ParseIntToString(stop);
  }

  /** The template the endpoint documents: the stop id after `stop`, the
      route id after `route`. */
  function IntendedDeparturesStopRoute(rt: RouteType, route: int32, stop: int32): (t: string)
    ensures var parts := Split(t, '/');
      && |parts| == 8 && parts[4] == "stop" && parts[6] == "route"
      && parts[5] == IntToString(stop) && parts[7] == IntToString(route)
  {
    DeparturesPieces(rt, stop, route);
    Join(["v3", "departures", "route_type", Display(rt), "stop", IntToString(stop), "route", IntToString(route)], '/')
  }

  /** The intended template is the written one with the ids swapped. */
  lemma IntendedDeparturesSwapsIds(rt: RouteType, route: int32, stop: int32, encodePath: string -> string)
    ensures IntendedDeparturesStopRoute(rt, route, stop) == Template(DeparturesStopRoute(rt, stop, route), encodePath)
  {
  }

  /* ---------- a route name ending in `?` ---------- */

  /** The path `routes` passes to `rq` when only a route name is set: the
      name is not escaped, so a name ending in `?` ends the path with `?`. */
  lemma RouteNamePath(name: string, entries: seq<Entry>, encodeQuery: string -> string, encodePath: string -> string)
    requires forall i :: 0 <= i < |name| ==> Plain(name[i])
    requires Enumerates(entries, Options.ToValue(Options.Routes(None, Some(name + "?"))))
    ensures Path(Routes, Options.Query(Options.Routes(None, Some(name + "?")), entries, encodeQuery), encodePath)
         == "v3/routes" + "?" + ("route_name" + "=" + name) + "?"
  {
    var v := name + "?";
    var q := Options.Query(Options.Routes(None, Some(v)), entries, encodeQuery);
    assert q == "route_name" + "=" + v by {
      assert forall i :: 0 <= i < |v| ==> Plain(v[i]) by {
        assert Plain('?');
      }
      Options.RouteNameQuery(v, entries, encodeQuery);
    }
    RoutesTemplate(encodePath);
    assert Path(Routes, q, encodePath) == "v3/routes" + "?" + q;
    AppendRegroup("v3/routes" + "?", "route_name" + "=", name, "?");
  }

  lemma RoutesTemplate(encodePath: string -> string)
    ensures Template(Routes, encodePath) == "v3/routes"
  {
    var parts := ["v3", "routes"];
    assert Pieces(Routes, encodePath) == parts;
    assert Join(parts, '/') == parts[0] + ['/'] + Join(parts[1..], '/');
    assert Join(parts[1..], '/') == "routes";
  }

  lemma AppendRegroup(a: string, b: string, c: string, d: string)
    ensures a + (b + (c + d)) == a + (b + c) + d
  {
  }

  /** End to end, as written: for `routes` with a route name that ends in
      `?`, `rq` glues the developer id onto the route name, and the server
      receives no `devid` parameter. */
  lemma RouteNameSwallowsDevid(name: string, entries: seq<Entry>, devid: string,
                               encodeQuery: string -> string, encodePath: string -> string)
    requires forall i :: 0 <= i < |name| ==> Plain(name[i]) && name[i] != '?' && name[i] != '&'
    requires '?' !in devid && '&' !in devid
    requires Enumerates(entries, Options.ToValue(Options.Routes(None, Some(name + "?"))))
    ensures var path := Path(Routes, Options.Query(Options.Routes(None, Some(name + "?")), entries, encodeQuery), encodePath);
      && Params(AugmentPath(path, devid)) == [("route_name" + "=" + name) + "?" + ("devid=" + devid)]
      && "devid=" + devid !in Params(AugmentPath(path, devid))
  {
    var path := Path(Routes, Options.Query(Options.Routes(None, Some(name + "?")), entries, encodeQuery), encodePath);
    RouteNamePath(name, entries, encodeQuery, encodePath);
    SwallowedAfterName(path, name, devid);
  }

  lemma SwallowedAfterName(path: string, name: string, devid: string)
    requires forall i :: 0 <= i < |name| ==> name[i] != '?' && name[i] != '&'
    requires '?' !in devid && '&' !in devid
    requires path == "v3/routes" + "?" + ("route_name" + "=" + name) + "?"
    ensures Params(AugmentPath(path, devid)) == [("route_name" + "=" + name) + "?" + ("devid=" + devid)]
    ensures "devid=" + devid !in Params(AugmentPath(path, devid))
  {
    RouteNameParamPlain(name);
    DevidSwallowed("v3/routes", "route_name" + "=" + name, devid);
  }

  /** A route name free of `?` and `&` gives a parameter free of both. */
  lemma RouteNameParamPlain(name: string)
    requires forall i :: 0 <= i < |name| ==> name[i] != '?' && name[i] != '&'
    ensures '?' !in "route_name" + "=" + name && '&' !in "route_name" + "=" + name
  {
  }

  /** The same request with the intended separator: the route name keeps its
      `?` and the developer id is a parameter of its own. */
  lemma RouteNameKeepsDevid(name: string, entries: seq<Entry>, devid: string,
                            encodeQuery: string -> string, encodePath: string -> string)
    requires forall i :: 0 <= i < |name| ==> Plain(name[i]) && name[i] != '?' && name[i] != '&'
    requires '?' !in devid && '&' !in devid
    requires Enumerates(entries, Options.ToValue(Options.Routes(None, Some(name + "?"))))
    ensures var path := Path(Routes, Options.Query(Options.Routes(None, Some(name + "?")), entries, encodeQuery), encodePath);
      Params(IntendedAugmentPath(path, devid)) == [("route_name" + "=" + name) + "?", "devid=" + devid]
  {
    var path := Path(Routes, Options.Query(Options.Routes(None, Some(name + "?")), entries, encodeQuery), encodePath);
    RouteNamePath(name, entries, encodeQuery, encodePath);
    KeptAfterName(path, name, devid);
  }

  lemma KeptAfterName(path: string, name: string, devid: string)
    requires forall i :: 0 <= i < |name| ==> name[i] != '?' && name[i] != '&'
    requires '?' !in devid && '&' !in devid
    requires path == "v3/routes" + "?" + ("route_name" + "=" + name) + "?"
    ensures Params(IntendedAugmentPath(path, devid)) == [("route_name" + "=" + name) + "?", "devid=" + devid]
  {
    RouteNameParamPlain(name);
    IntendedTrailingParam("v3/routes", "route_name" + "=" + name, devid);
  }

  /** With the intended separator a path `base?param?` keeps `param?` as its
      parameter and adds the developer id after it. */
  lemma IntendedTrailingParam(base: string, param: string, devid: string)
    requires '?' !in base && '?' !in param && '&' !in param
    requires '?' !in devid && '&' !in devid
    ensures Params(IntendedAugmentPath(base + "?" + param + "?", devid)) == [param + "?", "devid=" + devid]
  {
    var path := base + "?" + param + "?";
    assert Params(path) == [param + "?"] by {
      TrailingQueryOf(base, param);
      SplitWithout(param + "?", '&');
    }
    IntendedDevidIsLastParam(path, devid);
  }
}
