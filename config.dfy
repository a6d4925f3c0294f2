/** The configuration file: a JSON document with a `devices` array and a
    `routes` array, turned into device and route records. The text is
    assumed already parsed; lookups follow the json crate, where indexing
    anything but an object, or an object without the key, gives `null`,
    and `members()` of anything but an array is empty. */
module ConfigFile {
  import opened Wrappers
  import opened Seqs

  /** A parsed JSON value. Objects hold each key at most once. */
  datatype Json =
    | Null
    | Bool(b: bool)
    | Num(n: int)
    | Str(s: string)
    | Array(items: seq<Json>)
    | Object(fields: map<string, Json>)

  /** `value[key]`: the field when `value` is an object holding `key`,
      `null` otherwise. */
  function Get(value: Json, key: string): (r: Json)
    ensures value.Object? && key in value.fields ==> r == value.fields[key]
    ensures !(value.Object? && key in value.fields) ==> r == Null
  {
    if value.Object? && key in value.fields then value.fields[key] else Null
  }

  /** `value.members()`: the items of an array, nothing for any other value. */
  function Members(value: Json): (r: seq<Json>)
    ensures value.Array? ==> r == value.items
    ensures !value.Array? ==> r == []
  {
    if value.Array? then value.items else []
  }

  /** `value.as_str()`. */
  function AsStr(value: Json): (r: Option<string>)
    ensures r.Some? <==> value.Str?
    ensures r.Some? ==> value == Str(r.value)
  {
    if value.Str? then Some(value.s) else None
  }

  /** `value.as_bool()`. */
  function AsBool(value: Json): (r: Option<bool>)
    ensures r.Some? <==> value.Bool?
    ensures r.Some? ==> value == Bool(r.value)
  {
    if value.Bool? then Some(value.b) else None
  }

  /** A MIDI device the configuration names. */
  datatype Device = Device(
    name: string,
    input: Option<string>,
    output: Option<string>,
    features: seq<string>,
    inputFilters: seq<string>,
    outputFilters: seq<string>)

  /** A connection from one device to another through a filter chain. */
  datatype Route = Route(enabled: bool, source: string, sink: string, filters: seq<string>)

  /** The whole configuration. */
  datatype Config = Config(filename: string, devices: seq<Device>, routes: seq<Route>)

  const DevicesError: string := "invalid or missing 'devices' section in config"
  const RoutesError: string := "invalid or missing 'routes' section in config"

  /** An optional string field: present exactly when the value is a string. */
  function StringOpt(value: Json): (r: Option<string>)
    ensures r.Some? <==> value.Str?
    ensures r.Some? ==> r.value == value.s
  {
    AsStr(value)
  }

  /** A list-of-strings field: the string members of an array, in order;
      other members, and any value that is not an array, contribute
      nothing. */
  function StringVec(value: Json): (r: seq<string>)
    ensures |r| <= |Members(value)|
    ensures forall s :: s in r ==> Str(s) in Members(value)
  {
    FilterMapMembers(Members(value), AsStr);
    FilterMap(Members(value), AsStr)
  }

  /** A list field keeps exactly the strings among the members, and an
      array made only of strings is kept whole and in order. */
  lemma StringVecMembers(value: Json)
    ensures forall s :: s in StringVec(value) <==> Str(s) in Members(value)
    ensures (forall i :: 0 <= i < |Members(value)| ==> Members(value)[i].Str?) ==>
      && |StringVec(value)| == |Members(value)|
      && forall i :: 0 <= i < |Members(value)| ==> Members(value)[i] == Str(StringVec(value)[i])
  {
    var items := Members(value);
    FilterMapMembers(items, AsStr);
    forall s
      ensures s in StringVec(value) <==> Str(s) in items
    {
      if Str(s) in items {
        var i :| 0 <= i < |items| && items[i] == Str(s);
        assert AsStr(items[i]) == Some(s);
      }
    }
    if forall i :: 0 <= i < |items| ==> items[i].Str? {
      FilterMapAllSome(items, AsStr);
    }
  }

  /** The device a member of `devices` describes, if it has a string
      `name`; the other fields are optional. */
  function ParseDevice(dev: Json): (r: Option<Device>)
    ensures r.Some? <==> Get(dev, "name").Str?
    ensures r.Some? ==>
      && r.value.name == Get(dev, "name").s
      && (r.value.input.Some? <==> Get(dev, "input").Str?)
      && (r.value.output.Some? <==> Get(dev, "output").Str?)
      && r.value.input == StringOpt(Get(dev, "input"))
      && r.value.output == StringOpt(Get(dev, "output"))
      && r.value.features == StringVec(Get(dev, "features"))
      && r.value.inputFilters == StringVec(Get(dev, "input_filters"))
      && r.value.outputFilters == StringVec(Get(dev, "output_filters"))
  {
    match AsStr(Get(dev, "name"))
    case None => None
    case Some(name) =>
      Some(Device(
        name,
        StringOpt(Get(dev, "input")),
        StringOpt(Get(dev, "output")),
        StringVec(Get(dev, "features")),
        StringVec(Get(dev, "input_filters")),
        StringVec(Get(dev, "output_filters"))))
  }

  /** `devices.iter().any(|dev| dev.name == name)`. */
  predicate Named(devices: seq<Device>, name: string) {
    exists i :: 0 <= i < |devices| && devices[i].name == name
  }

  /** The route a member of `routes` describes, if it has a boolean
      `enabled` and string `source` and `sink` that both name one of
      `devices`. */
  function ParseRoute(devices: seq<Device>, route: Json): (r: Option<Route>)
    ensures r.Some? <==>
      && Get(route, "enabled").Bool?
      && Get(route, "source").Str? && Get(route, "sink").Str?
      && Named(devices, Get(route, "source").s) && Named(devices, Get(route, "sink").s)
    ensures r.Some? ==>
      && r.value.enabled == Get(route, "enabled").b
      && r.value.source == Get(route, "source").s
      && r.value.sink == Get(route, "sink").s
      && r.value.filters == StringVec(Get(route, "filters"))
  {
    match AsBool(Get(route, "enabled"))
    case None => None
    case Some(enabled) =>
      match AsStr(Get(route, "source"))
      case None => None
      case Some(source) =>
        match AsStr(Get(route, "sink"))
        case None => None
        case Some(sink) =>
          var filters := StringVec(Get(route, "filters"));
          if !Named(devices, source) then None
          else if !Named(devices, sink) then None
          else Some(Route(enabled, source, sink, filters))
  }

  /** The route parser for a given device list. */
  function RouteParser(devices: seq<Device>): Json -> Option<Route> {
    (route: Json) => ParseRoute(devices, route)
  }

  /** `Config::read` from the parsed document on: both sections must be
      arrays, `devices` checked first; devices without a string name and
      routes that are malformed or name an unknown device are dropped. */
  function Read(filename: string, cfg: Json): (r: Result<Config>)
    ensures !Get(cfg, "devices").Array? ==> r == Failure(DevicesError)
    ensures Get(cfg, "devices").Array? && !Get(cfg, "routes").Array? ==> r == Failure(RoutesError)
    ensures r.Success? <==> Get(cfg, "devices").Array? && Get(cfg, "routes").Array?
    ensures r.Success? ==> r.value.filename == filename
    ensures r.Success? ==> |r.value.devices| <= |Get(cfg, "devices").items|
    ensures r.Success? ==> |r.value.routes| <= |Get(cfg, "routes").items|
  {
    if !Get(cfg, "devices").Array? then Failure(DevicesError)
    else
      var devices := FilterMap(Members(Get(cfg, "devices")), ParseDevice);
      if !Get(cfg, "routes").Array? then Failure(RoutesError)
      else
        var routes := FilterMap(Members(Get(cfg, "routes")), RouteParser(devices));
        Success(Config(filename, devices, routes))
  }

  /** The devices of a read configuration are exactly those parsed from
      members with a string name; when every member has one, none is
      dropped and the order is that of the file. */
  lemma ReadDevices(filename: string, cfg: Json)
    requires Read(filename, cfg).Success?
    ensures var items, devices := Get(cfg, "devices").items, Read(filename, cfg).value.devices;
      && (forall d :: d in devices <==> exists i :: 0 <= i < |items| && ParseDevice(items[i]) == Some(d))
      && ((forall i :: 0 <= i < |items| ==> Get(items[i], "name").Str?) ==>
            && |devices| == |items|
            && forall i :: 0 <= i < |items| ==>
                 devices[i] == ParseDevice(items[i]).value && devices[i].name == Get(items[i], "name").s)
  {
    var items := Get(cfg, "devices").items;
    var devices := FilterMap(items, ParseDevice);
    assert Read(filename, cfg).value.devices == devices;
    FilterMapMembers(items, ParseDevice);
    if forall i :: 0 <= i < |items| ==> Get(items[i], "name").Str? {
      FilterMapAllSome(items, ParseDevice);
      forall i | 0 <= i < |items|
        ensures devices[i] == ParseDevice(items[i]).value && devices[i].name == Get(items[i], "name").s
      {
        assert ParseDevice(items[i]) == Some(devices[i]);
      }
    }
  }

  /** Every route of a read configuration is well formed and names two of
      its devices, and every well-formed route member naming two of them
      is kept. */
  lemma ReadRoutes(filename: string, cfg: Json)
    requires Read(filename, cfg).Success?
    ensures var c := Read(filename, cfg).value;
      && (forall rt :: rt in c.routes ==> Named(c.devices, rt.source) && Named(c.devices, rt.sink))
      && (forall rt :: rt in c.routes <==>
            exists i :: 0 <= i < |Get(cfg, "routes").items| && ParseRoute(c.devices, Get(cfg, "routes").items[i]) == Some(rt))
  {
    var c := Read(filename, cfg).value;
    var items := Get(cfg, "routes").items;
    FilterMapMembers(items, RouteParser(c.devices));
    forall rt | rt in c.routes
      ensures Named(c.devices, rt.source) && Named(c.devices, rt.sink)
    {
      var i :| 0 <= i < |items| && RouteParser(c.devices)(items[i]) == Some(rt);
    }
  }

  /** Index of the first device called `name`. */
  function FindNamed(devices: seq<Device>, name: string): (r: Option<nat>)
    ensures r.Some? ==>
      && r.value < |devices| && devices[r.value].name == name
      && forall j :: 0 <= j < r.value ==> devices[j].name != name
    ensures r.None? <==> !Named(devices, name)
  {
    if devices == [] then None
    else if devices[0].name == name then Some(0)
    else match FindNamed(devices[1..], name)
      case None => None
      case Some(i) => Some(i + 1)
  }

  /** `get_device`: the first device called `devname`, or none. */
  function GetDevice(config: Config, devname: string): (r: Option<Device>)
    ensures r.None? <==> !Named(config.devices, devname)
    ensures r.Some? ==> exists i :: (
      && 0 <= i < |config.devices| && config.devices[i] == r.value
      && r.value.name == devname
      && forall j :: 0 <= j < i ==> config.devices[j].name != devname)
  {
    match FindNamed(config.devices, devname)
    case None => None
    case Some(i) => Some(config.devices[i])
  }
}
