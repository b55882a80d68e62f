/** The row builders inside `StrydDatabase.save_activity`: how one payload is
    turned into the rows of the nine tables. Everything here is pure; the store
    (module Store) appends these rows with the loops the source has. */
module Normalize {
  import opened Common
  import opened Activity

  /** `key` is one of the top-level keys copied into `activities` by
      `activity_data.get(key)`, listed in column order. The columns built
      otherwise (id, timestamp, date, moving_time, tags, the twelve flattened
      sub-object columns and synced_at) are not among them; together with
      those eighteen they fill the 88 columns. */
  predicate PassThrough(key: string) {
    key in [
      "user_id", "name", "description", "type", "feel", "rpe", "start_time",
      "elapsed_time", "clock_time", "time_zone", "distance",
      "total_elevation_gain", "total_elevation_loss", "min_elevation", "max_elevation",
      "average_speed", "max_speed", "average_cadence", "min_cadence", "max_cadence",
      "average_stride_length", "min_stride_length", "max_stride_length",
      "average_power", "max_power", "ftp", "critical_impact",
      "average_heart_rate", "max_heart_rate", "calories",
      "average_ground_time", "min_ground_time", "max_ground_time",
      "average_ground_time_balance", "average_oscillation", "min_oscillation",
      "max_oscillation", "average_vertical_ratio", "average_vertical_oscillation_balance",
      "average_leg_spring", "average_leg_spring_stiffness_balance",
      "average_impact_loading_rate_balance", "max_vertical_stiffness",
      "stress", "lower_body_stress", "stryds", "source", "surface_type",
      "recording_mode", "sport_type", "power_type", "weight", "height",
      "temperature", "dewPoint", "humidity", "windSpeed", "windBearing", "windGust",
      "icon", "location_city", "location_country", "location_state",
      "workout_id", "workout_source", "workout_source_id", "file_path",
      "map_image_link", "created", "updated"]
  }


  /** A row of `activities`. `columns` holds the pass-through columns that are
      not NULL, by key. */
  datatype ActivityRow = ActivityRow(
    id: int,
    timestamp: int,
    date: string,
    movingTime: Option<int>,
    tags: string,
    columns: map<string, Value>,
    polyline: Option<Value>, summaryPolyline: Option<Value>,
    startLat: Option<Value>, startLng: Option<Value>,
    endLat: Option<Value>, endLng: Option<Value>,
    deviceId: Option<Value>, deviceModel: Option<Value>,
    deviceSwRev: Option<Value>, deviceFwRev: Option<Value>,
    watchProductId: Option<Value>, watchManufacturer: Option<Value>,
    syncedAt: int)

  /** A row of `zones_distribution`; `None` is SQL NULL. */
  datatype ZoneRow = ZoneRow(activityId: Option<int>, zoneName: Option<string>,
                             powerLow: int, powerHigh: int, seconds: int, percentage: real)

  /** A row of one of the five `timeseries_*` tables: `values[j]` is the column
      fed by the family's j-th list (see `ListKeys`). */
  datatype SampleRow = SampleRow(activityId: Option<int>, timestamp: int, values: seq<Option<Value>>)

  /** A row of `gps_points`. */
  datatype GpsRow = GpsRow(activityId: Option<int>, timestamp: int, lat: Option<Value>, lng: Option<Value>)

  /** A row of `laps`. */
  datatype LapRow = LapRow(activityId: Option<int>, lapNumber: int, timestamp: Option<Value>,
                           trigger: Option<Value>, workoutStep: Option<Value>)

  // ---------------------------------------------------------------- activities

  function Lookup(m: map<string, Value>, k: string): Option<Value> {
    if k in m then Some(m[k]) else None
  }

  /** `','.join(tags)` */
  function JoinTags(tags: seq<string>): string {
    if tags == [] then ""
    else if |tags| == 1 then tags[0]
    else tags[0] + "," + JoinTags(tags[1..])
  }

  /** `','.join(tags) if tags else ''` over `activity_data.get('tags', [])`. */
  function TagsColumn(p: Payload): string {
    if p.tags.None? || p.tags.value == [] then "" else JoinTags(p.tags.value)
  }

  /** Python's `s.split(',')`: the reader's inverse of `JoinTags`. */
  function SplitTags(s: string): (r: seq<string>)
    ensures |r| >= 1
  {
    if s == [] then [""]
    else if s[0] == ',' then [""] + SplitTags(s[1..])
    else
      var rest := SplitTags(s[1..]);
      [[s[0]] + rest[0]] + rest[1..]
  }

  lemma {:induction false} SplitPrefix(a: string, rest: string)
    requires ',' !in a
    ensures SplitTags(a + rest) == [a + SplitTags(rest)[0]] + SplitTags(rest)[1..]
  {
    if a != [] {
      assert (a + rest)[0] == a[0];
      assert (a + rest)[1..] == a[1..] + rest;
      SplitPrefix(a[1..], rest);
      assert [a[0]] + (a[1..] + SplitTags(rest)[0]) == a + SplitTags(rest)[0];
    } else {
      var r := SplitTags(rest);
      assert a + rest == rest;
      assert a + r[0] == r[0];
      assert r == [r[0]] + r[1..];
    }
  }

  /** Reading the stored tag column back gives the tag list, provided it was
      non-empty and no tag contains the separator. */
  lemma {:induction false} TagsRoundTrip(tags: seq<string>)
    requires tags != []
    requires forall i :: 0 <= i < |tags| ==> ',' !in tags[i]
    ensures SplitTags(JoinTags(tags)) == tags
  {
    if |tags| == 1 {
      SplitPrefix(tags[0], "");
      assert tags[0] + "" == tags[0];
    } else {
      var rest := JoinTags(tags[1..]);
      TagsRoundTrip(tags[1..]);
      assert tags[0] + "," + rest == tags[0] + ("," + rest);
      SplitPrefix(tags[0], "," + rest);
      assert ("," + rest)[1..] == rest;
      assert SplitTags("," + rest) == [""] + tags[1..];
      assert tags[0] + "" == tags[0];
      assert [tags[0]] + tags[1..] == tags;
    }
  }

  /** The tag column is the empty string, never NULL, when the payload has no
      tags; when the tags are non-empty and comma-free, splitting the column
      gives them back in order. */
  lemma TagsColumnSpec(p: Payload)
    ensures TagsColumn(p) == "" <== (p.tags.None? || p.tags.value == [])
    ensures p.tags.Some? && p.tags.value != [] &&
            (forall i :: 0 <= i < |p.tags.value| ==> ',' !in p.tags.value[i])
            ==> SplitTags(TagsColumn(p)) == p.tags.value
  {
    if p.tags.Some? && p.tags.value != [] &&
       (forall i :: 0 <= i < |p.tags.value| ==> ',' !in p.tags.value[i]) {
      TagsRoundTrip(p.tags.value);
    }
  }

  function PointLat(o: Option<Point>): Option<Value> {
    if o.Some? then o.value.lat else None
  }

  function PointLng(o: Option<Point>): Option<Value> {
    if o.Some? then o.value.lng else None
  }

  /** The `activities` row: `rowId` is the id the row receives and `date` and
      `syncedAt` are the wall-clock conversions the source does at write time. */
  function ActivityRowOf(p: Payload, rowId: int, date: string, syncedAt: int): (r: ActivityRow)
  {
    var m := p.mapData;
    var d := p.deviceInfo;
    var w := p.watchInfo;
    ActivityRow(
      rowId, p.timestamp.GetOr(0), date, p.movingTime, TagsColumn(p),
      map k | k in p.scalars && PassThrough(k) :: p.scalars[k],
      if m.Some? then m.value.polyline else None,
      if m.Some? then m.value.summaryPolyline else None,
      PointLat(p.startPoint), PointLng(p.startPoint),
      PointLat(p.endPoint), PointLng(p.endPoint),
      if d.Some? then d.value.deviceId else None,
      if d.Some? then d.value.deviceModel else None,
      if d.Some? then d.value.deviceSwRev else None,
      if d.Some? then d.value.deviceFwRev else None,
      if w.Some? then w.value.productId else None,
      if w.Some? then w.value.manufacturer else None,
      syncedAt)
  }

  /** Each pass-through column holds `activity_data.get(key)`: the payload's
      value for that key, or NULL when the key is missing; no other key
      becomes a column. Every other column is filled from its own source. */
  lemma ActivityRowSpec(p: Payload, rowId: int, date: string, syncedAt: int)
    ensures var r := ActivityRowOf(p, rowId, date, syncedAt);
            && (forall k :: PassThrough(k) ==> Lookup(r.columns, k) == Lookup(p.scalars, k))
            && (forall k :: k in r.columns ==> PassThrough(k))
            && r.id == rowId && r.timestamp == p.timestamp.GetOr(0) && r.date == date
            && r.movingTime == p.movingTime && r.tags == TagsColumn(p) && r.syncedAt == syncedAt
            && (p.startPoint.None? ==> r.startLat.None? && r.startLng.None?)
            && (p.startPoint.Some? ==> r.startLat == p.startPoint.value.lat && r.startLng == p.startPoint.value.lng)
            && (p.endPoint.None? ==> r.endLat.None? && r.endLng.None?)
            && (p.endPoint.Some? ==> r.endLat == p.endPoint.value.lat && r.endLng == p.endPoint.value.lng)
            && (p.mapData.None? ==> r.polyline.None? && r.summaryPolyline.None?)
            && (p.mapData.Some? ==> r.polyline == p.mapData.value.polyline
                                    && r.summaryPolyline == p.mapData.value.summaryPolyline)
            && (p.deviceInfo.None? ==> r.deviceId.None? && r.deviceModel.None?
                                       && r.deviceSwRev.None? && r.deviceFwRev.None?)
            && (p.deviceInfo.Some? ==> r.deviceId == p.deviceInfo.value.deviceId
                                       && r.deviceModel == p.deviceInfo.value.deviceModel
                                       && r.deviceSwRev == p.deviceInfo.value.deviceSwRev
                                       && r.deviceFwRev == p.deviceInfo.value.deviceFwRev)
            && (p.watchInfo.None? ==> r.watchProductId.None? && r.watchManufacturer.None?)
            && (p.watchInfo.Some? ==> r.watchProductId == p.watchInfo.value.productId
                                      && r.watchManufacturer == p.watchInfo.value.manufacturer)
  {
  }

  // ---------------------------------------------------------------- zones

  /** `(seconds / moving_time * 100) if moving_time > 0 else 0`, on exact reals. */
  function Percentage(seconds: int, movingTime: int): real {
    if movingTime > 0 then (seconds as real) / (movingTime as real) * 100.0 else 0.0
  }

  /** The percentage is the share of moving time, and it lies in [0, 100]
      whenever the seconds are within the moving time (nothing in the code
      enforces that). */
  lemma PercentageSpec(seconds: int, movingTime: int)
    ensures movingTime <= 0 ==> Percentage(seconds, movingTime) == 0.0
    ensures movingTime > 0 ==> Percentage(seconds, movingTime) * (movingTime as real) == (seconds as real) * 100.0
    ensures 0 < movingTime && 0 <= seconds <= movingTime ==> 0.0 <= Percentage(seconds, movingTime) <= 100.0
  {
    if movingTime > 0 {
      var q := (seconds as real) / (movingTime as real);
      assert q * (movingTime as real) == seconds as real;
      if 0 <= seconds <= movingTime {
        assert 0.0 <= q;
        assert q <= 1.0;
      }
    }
  }

  function ZoneRowOf(aid: Option<int>, z: Zone, seconds: int, movingTime: int): ZoneRow {
    ZoneRow(aid, z.name, z.powerLow.GetOr(0), z.powerHigh.GetOr(0), seconds, Percentage(seconds, movingTime))
  }

  /** `for zone, seconds in zip(zones, seconds_in_zones)`: Python's zip, which
      stops at the shorter list. */
  function ZipZones(aid: Option<int>, zones: seq<Zone>, secs: seq<int>, movingTime: int): seq<ZoneRow> {
    if zones == [] || secs == [] then []
    else [ZoneRowOf(aid, zones[0], secs[0], movingTime)] + ZipZones(aid, zones[1..], secs[1..], movingTime)
  }

  function Min(a: int, b: int): int {
    if a < b then a else b
  }

  /** Zip pairs position by position up to the shorter length. */
  lemma {:induction false} ZipZonesAt(aid: Option<int>, zones: seq<Zone>, secs: seq<int>, movingTime: int)
    ensures |ZipZones(aid, zones, secs, movingTime)| == Min(|zones|, |secs|)
    ensures forall i :: 0 <= i < Min(|zones|, |secs|) ==>
              ZipZones(aid, zones, secs, movingTime)[i] == ZoneRowOf(aid, zones[i], secs[i], movingTime)
  {
    if zones != [] && secs != [] {
      ZipZonesAt(aid, zones[1..], secs[1..], movingTime);
    }
  }

  /** The zone rows of a payload; `moving_time` defaults to 0. */
  function ZoneRows(p: Payload): seq<ZoneRow> {
    ZipZones(p.id, p.zones, p.secondsInZones, p.movingTime.GetOr(0))
  }

  // ---------------------------------------------------------------- time series

  datatype Family = Power | Kinematics | Cardio | Biomechanics | Elevation

  /** The payload lists that feed each family's columns, in column order. */
  function ListKeys(f: Family): seq<string> {
    match f
    case Power => ["total_power_list", "horizontal_power_list", "vertical_power_list",
                   "air_power_list", "elevation_power_list"]
    case Kinematics => ["speed_list", "distance_list", "cadence_list", "stride_length_list"]
    case Cardio => ["heart_rate_list", "rr_interval_list"]
    case Biomechanics => ["ground_time_list", "ground_time_balance_list", "oscillation_list",
                          "vertical_oscillation_balance_list", "leg_spring_list",
                          "leg_spring_stiffness_balance_list", "impact_list",
                          "impact_loading_rate_balance_list", "vertical_ratio_list"]
    case Elevation => ["elevation_list", "grade_list"]
  }

  /** `activity_data.get(key) or []` */
  function SeriesOf(p: Payload, key: string): seq<Option<Value>> {
    if key in p.series then p.series[key] else []
  }

  function Columns(p: Payload, f: Family): (cols: seq<seq<Option<Value>>>)
    ensures |cols| == |ListKeys(f)|
  {
    seq(|ListKeys(f)|, j requires 0 <= j < |ListKeys(f)| => SeriesOf(p, ListKeys(f)[j]))
  }

  /** `list[i] if i < len(list) else None` */
  function At(col: seq<Option<Value>>, i: nat): Option<Value> {
    if i < |col| then col[i] else None
  }

  /** The sample row the source inserts at index `i` of `timestamp_list`. */
  function SampleAt(aid: Option<int>, ts: seq<int>, cols: seq<seq<Option<Value>>>, i: nat): SampleRow
    requires i < |ts|
  {
    SampleRow(aid, ts[i], seq(|cols|, j requires 0 <= j < |cols| => At(cols[j], i)))
  }

  function Heads(cols: seq<seq<Option<Value>>>): seq<Option<Value>> {
    seq(|cols|, j requires 0 <= j < |cols| => if cols[j] == [] then None else cols[j][0])
  }

  function Tails(cols: seq<seq<Option<Value>>>): seq<seq<Option<Value>>> {
    seq(|cols|, j requires 0 <= j < |cols| => if cols[j] == [] then [] else cols[j][1..])
  }

  /** The reference definition of one family's rows: walk the timestamps and
      every column list in lockstep, using null once a list is exhausted. */
  function ZipWithDefault(aid: Option<int>, ts: seq<int>, cols: seq<seq<Option<Value>>>): seq<SampleRow> {
    if ts == [] then []
    else [SampleRow(aid, ts[0], Heads(cols))] + ZipWithDefault(aid, ts[1..], Tails(cols))
  }

  /** The lockstep walk emits exactly one row per timestamp, and row i carries
      `timestamp_list[i]` and, per column, `list[i]` or null past its end. */
  lemma {:induction false} ZipWithDefaultAt(aid: Option<int>, ts: seq<int>, cols: seq<seq<Option<Value>>>)
    ensures |ZipWithDefault(aid, ts, cols)| == |ts|
    ensures forall i :: 0 <= i < |ts| ==> ZipWithDefault(aid, ts, cols)[i] == SampleAt(aid, ts, cols, i)
  {
    if ts != [] {
      ZipWithDefaultAt(aid, ts[1..], Tails(cols));
      forall i | 0 <= i < |ts|
        ensures ZipWithDefault(aid, ts, cols)[i] == SampleAt(aid, ts, cols, i)
      {
        if i == 0 {
          assert Heads(cols) == seq(|cols|, j requires 0 <= j < |cols| => At(cols[j], 0));
        } else {
          var tl := Tails(cols);
          assert ZipWithDefault(aid, ts, cols)[i] == SampleAt(aid, ts[1..], tl, i - 1);
          forall j | 0 <= j < |cols| ensures At(tl[j], i - 1) == At(cols[j], i) {
          }
          assert SampleAt(aid, ts[1..], tl, i - 1).values == SampleAt(aid, ts, cols, i).values;
        }
      }
    }
  }

  /** The rows of one time-series family for a payload. */
  function SampleRows(p: Payload, f: Family): (rows: seq<SampleRow>)
    ensures |rows| == |p.timestampList|
  {
    ZipWithDefaultAt(p.id, p.timestampList, Columns(p, f));
    ZipWithDefault(p.id, p.timestampList, Columns(p, f))
  }

  /** Per family: row i carries the activity id, `timestamp_list[i]`, and for
      each of the family's lists its i-th entry or null when the list is
      shorter or missing. */
  lemma SampleRowsSpec(p: Payload, f: Family, i: nat, j: nat)
    requires i < |p.timestampList| && j < |ListKeys(f)|
    ensures SampleRows(p, f)[i].activityId == p.id
    ensures SampleRows(p, f)[i].timestamp == p.timestampList[i]
    ensures |SampleRows(p, f)[i].values| == |ListKeys(f)|
    ensures SampleRows(p, f)[i].values[j] ==
              if ListKeys(f)[j] in p.series && i < |p.series[ListKeys(f)[j]]|
              then p.series[ListKeys(f)[j]][i] else None
  {
    ZipWithDefaultAt(p.id, p.timestampList, Columns(p, f));
  }

  // ---------------------------------------------------------------- gps

  /** `i < len(loc_list) and loc_list[i]` */
  function HasLocation(loc: seq<Option<Location>>): nat -> bool {
    (i: nat) => i < |loc| && loc[i].Some?
  }

  /** The indices below `n` at which a GPS row is emitted. */
  function GpsIndices(n: nat, loc: seq<Option<Location>>): (idx: seq<nat>)
    ensures forall k :: 0 <= k < |idx| ==> idx[k] < n && idx[k] < |loc| && loc[idx[k]].Some?
  {
    var idx := Keep<nat>(Range(n), HasLocation(loc));
    KeepMembers<nat>(Range(n), HasLocation(loc));
    assert forall k :: 0 <= k < |idx| ==> idx[k] in Range(n);
    idx
  }

  /** The GPS rows of the first `n` samples. */
  function GpsRowsUpTo(aid: Option<int>, ts: seq<int>, loc: seq<Option<Location>>, n: nat): seq<GpsRow>
    requires n <= |ts|
  {
    var idx := GpsIndices(n, loc);
    seq(|idx|, k requires 0 <= k < |idx| =>
      GpsRow(aid, ts[idx[k]], loc[idx[k]].value.lat, loc[idx[k]].value.lng))
  }

  function GpsRowsOf(aid: Option<int>, ts: seq<int>, loc: seq<Option<Location>>): seq<GpsRow> {
    GpsRowsUpTo(aid, ts, loc, |ts|)
  }

  /** One more sample adds its GPS row, if it has a location. */
  lemma GpsRowsStep(aid: Option<int>, ts: seq<int>, loc: seq<Option<Location>>, i: nat)
    requires i < |ts|
    ensures GpsRowsUpTo(aid, ts, loc, i + 1)
            == GpsRowsUpTo(aid, ts, loc, i)
               + (if i < |loc| && loc[i].Some? then [GpsRow(aid, ts[i], loc[i].value.lat, loc[i].value.lng)] else [])
  {
    KeepAppend<nat>(Range(i), [i], HasLocation(loc));
    assert Range(i + 1) == Range(i) + [i];
    assert Keep<nat>([i], HasLocation(loc)) == if HasLocation(loc)(i) then [i] else [];
  }

  function GpsRows(p: Payload): seq<GpsRow> {
    GpsRowsOf(p.id, p.timestampList, p.locList)
  }

  lemma {:induction false} KeepRangeIncreasing(n: nat, p: nat -> bool)
    ensures forall a, b :: 0 <= a < b < |Keep<nat>(Range(n), p)| ==> Keep<nat>(Range(n), p)[a] < Keep<nat>(Range(n), p)[b]
    ensures forall x :: x in Keep<nat>(Range(n), p) ==> x < n
  {
    if n > 0 {
      KeepRangeIncreasing(n - 1, p);
      KeepAppend<nat>(Range(n - 1), [n - 1], p);
      assert Range(n) == Range(n - 1) + [n - 1];
      assert Keep<nat>([n - 1], p) == if p(n - 1) then [n - 1] else [];
      var k0 := Keep<nat>(Range(n - 1), p);
      assert forall a :: 0 <= a < |k0| ==> k0[a] in k0;
      assert forall a :: 0 <= a < |k0| ==> k0[a] < n - 1;
    }
  }

  lemma {:induction false} KeepRangeCount(n: nat, p: nat -> bool)
    ensures |Keep<nat>(Range(n), p)| == |set i | 0 <= i < n && p(i)|
  {
    if n > 0 {
      KeepRangeCount(n - 1, p);
      KeepAppend<nat>(Range(n - 1), [n - 1], p);
      assert Range(n) == Range(n - 1) + [n - 1];
      assert Keep<nat>([n - 1], p) == if p(n - 1) then [n - 1] else [];
      var s0 := set i | 0 <= i < n - 1 && p(i);
      if p(n - 1) {
        assert (set i | 0 <= i < n && p(i)) == s0 + {n - 1};
      } else {
        assert (set i | 0 <= i < n && p(i)) == s0;
      }
    }
  }

  /** GPS rows appear exactly at the indices `i < len(timestamp_list)` with a
      truthy `loc_list[i]`, in increasing index order, one per such index; each
      takes its timestamp from `timestamp_list[i]` and its `Lat`/`Lng` from
      that entry. */
  lemma GpsRowsSpec(p: Payload)
    ensures var idx := GpsIndices(|p.timestampList|, p.locList);
            && |GpsRows(p)| == |idx|
            && (forall i: nat :: i in idx <==> i < |p.timestampList| && i < |p.locList| && p.locList[i].Some?)
            && (forall a, b :: 0 <= a < b < |idx| ==> idx[a] < idx[b])
            && (forall k :: 0 <= k < |idx| ==>
                  GpsRows(p)[k] == GpsRow(p.id, p.timestampList[idx[k]],
                                          p.locList[idx[k]].value.lat, p.locList[idx[k]].value.lng))
    ensures |GpsRows(p)| == |set i | 0 <= i < |p.timestampList| && HasLocation(p.locList)(i)|
  {
    var n := |p.timestampList|;
    var loc := p.locList;
    KeepMembers<nat>(Range(n), HasLocation(loc));
    forall i: nat | i < n ensures i in Range(n) {
      assert Range(n)[i] == i;
    }
    KeepRangeIncreasing(n, HasLocation(loc));
    KeepRangeCount(n, HasLocation(loc));
  }

  // ---------------------------------------------------------------- laps

  /** `enumerate(laps, first)` turned into lap rows. */
  function NumberLaps(aid: Option<int>, laps: seq<Lap>, first: int): seq<LapRow> {
    if laps == [] then []
    else [LapRow(aid, first, laps[0].timestamp, laps[0].trigger, laps[0].workoutStep)]
         + NumberLaps(aid, laps[1..], first + 1)
  }

  /** Laps keep their input order and are numbered consecutively from `first`. */
  lemma {:induction false} NumberLapsAt(aid: Option<int>, laps: seq<Lap>, first: int)
    ensures |NumberLaps(aid, laps, first)| == |laps|
    ensures forall i :: 0 <= i < |laps| ==>
              NumberLaps(aid, laps, first)[i] ==
              LapRow(aid, first + i, laps[i].timestamp, laps[i].trigger, laps[i].workoutStep)
  {
    if laps != [] {
      NumberLapsAt(aid, laps[1..], first + 1);
    }
  }

  function LapRows(p: Payload): seq<LapRow> {
    NumberLaps(p.id, p.laps, 1)
  }

  /** Lap numbers are 1, 2, 3, ... in input order, so no two laps of one save
      share a lap number. */
  lemma LapRowsSpec(p: Payload)
    ensures |LapRows(p)| == |p.laps|
    ensures forall i :: 0 <= i < |p.laps| ==> LapRows(p)[i].lapNumber == i + 1 && LapRows(p)[i].activityId == p.id
    ensures forall a, b :: 0 <= a < b < |LapRows(p)| ==> LapRows(p)[a].lapNumber != LapRows(p)[b].lapNumber
  {
    NumberLapsAt(p.id, p.laps, 1);
  }

  /** Without timestamps there are no time-series rows and no GPS rows, whatever
      the other lists hold. */
  lemma NoTimestampsNoSamples(p: Payload)
    requires p.timestampList == []
    ensures forall f :: SampleRows(p, f) == []
    ensures GpsRows(p) == []
  {
    assert GpsIndices(|p.timestampList|, p.locList) == [];
  }
}
