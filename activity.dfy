/** The two shapes in which an activity reaches the core: the calendar summary
    (one entry of the calendar listing) and the full detail payload that
    `save_activity` fans out into the nine tables.

    The source reads both as Python dictionaries. Here they are typed records:
    a key that may be missing (or hold JSON null) is an `Option`, and a list that
    the code reads with `get(key, [])` or `get(key) or []` is a plain sequence
    whose empty value stands for "missing, null or empty", which is exactly how
    the code treats all three. */
module Activity {
  import opened Common

  /** `start_point` / `end_point`: the keys `Lat` and `Lng`. */
  datatype Point = Point(lat: Option<Value>, lng: Option<Value>)

  /** `map`: the keys `polyline` and `summary_polyline`. */
  datatype MapData = MapData(polyline: Option<Value>, summaryPolyline: Option<Value>)

  /** `device_info`: `device_id`, `device_model`, `device_sw_rev`, `device_fw_rev`. */
  datatype DeviceInfo = DeviceInfo(deviceId: Option<Value>, deviceModel: Option<Value>,
                                   deviceSwRev: Option<Value>, deviceFwRev: Option<Value>)

  /** `watch_info`: `product_id`, `manufacturer`. */
  datatype WatchInfo = WatchInfo(productId: Option<Value>, manufacturer: Option<Value>)

  /** One entry of `zones`: its `name` and its power bounds (already integers). */
  datatype Zone = Zone(name: Option<string>, powerLow: Option<int>, powerHigh: Option<int>)

  /** A truthy entry of `loc_list` (a non-empty dictionary). A falsy entry
      (null or `{}`) is `None` in the enclosing sequence. */
  datatype Location = Location(lat: Option<Value>, lng: Option<Value>)

  /** One entry of `events.laps`. */
  datatype Lap = Lap(timestamp: Option<Value>, trigger: Option<Value>, workoutStep: Option<Value>)

  /** The full activity detail payload. */
  datatype Payload = Payload(
    id: Option<int>,
    timestamp: Option<int>,
    movingTime: Option<int>,
    tags: Option<seq<string>>,
    /** The top-level scalar keys that are copied into `activities` unchanged. */
    scalars: map<string, Value>,
    startPoint: Option<Point>,
    endPoint: Option<Point>,
    mapData: Option<MapData>,
    deviceInfo: Option<DeviceInfo>,
    watchInfo: Option<WatchInfo>,
    zones: seq<Zone>,
    secondsInZones: seq<int>,
    timestampList: seq<int>,
    /** The per-sample lists other than `timestamp_list` and `loc_list`, by key
        (`total_power_list`, `speed_list`, ...); a missing key is `get(k) or []`. */
    series: map<string, seq<Option<Value>>>,
    locList: seq<Option<Location>>,
    /** `events.laps`; empty when `events` is missing or falsy. */
    laps: seq<Lap>)

  /** One entry of the calendar listing. */
  datatype Summary = Summary(id: Option<int>, name: Option<string>,
                             timestamp: Option<int>, tags: Option<seq<string>>)

  /** `a.get('timestamp', 0)` */
  function Ts(a: Summary): int {
    a.timestamp.GetOr(0)
  }

  /** The sort key of `sorted(..., reverse=True)`: descending timestamp. */
  function NegTs(a: Summary): int {
    -Ts(a)
  }

  /** `start <= a.get('timestamp', 0) <= end` */
  function OnDay(start: int, end: int): Summary -> bool {
    a => start <= Ts(a) <= end
  }

  /** `a.get('timestamp', 0) >= cutoff` */
  function Since(cutoff: int): Summary -> bool {
    a => Ts(a) >= cutoff
  }
}
