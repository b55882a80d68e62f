/** `StrydDatabase` (strydcmd/database.py): the nine tables, the existence
    check, the count, and `save_activity` with its add-only / overwrite policy.

    `Tables` is the value of the whole store and `Save` says, as a function of
    the old value, what one call of `save_activity` returns and leaves behind;
    the class `StrydDatabase` holds one sequence per table and its methods are
    proved to do what these functions say. */
module Store {
  import opened Common
  import opened Activity
  import opened Normalize

  /** The nine tables that `_create_tables` defines, in its order. */
  datatype Tables = Tables(
    activities: seq<ActivityRow>,     // activities
    zones: seq<ZoneRow>,              // zones_distribution
    power: seq<SampleRow>,            // timeseries_power
    kinematics: seq<SampleRow>,       // timeseries_kinematics
    cardio: seq<SampleRow>,           // timeseries_cardio
    biomechanics: seq<SampleRow>,     // timeseries_biomechanics
    elevation: seq<SampleRow>,        // timeseries_elevation
    gps: seq<GpsRow>,                 // gps_points
    laps: seq<LapRow>)                // laps

  const EmptyTables: Tables := Tables([], [], [], [], [], [], [], [], [])

  const AlreadyExistsMessage: string := "Activity already exists"
  const SavedMessage: string := "Activity saved successfully"

  /** SQLite's refusal of a row whose primary key is already present. */
  datatype DbError = IntegrityError

  /** `save_activity` either returns its `(success, message)` pair or raises. */
  datatype SaveResult = Returned(success: bool, message: string) | Raised(error: DbError)

  function FamilyTable(t: Tables, f: Family): seq<SampleRow> {
    match f
    case Power => t.power
    case Kinematics => t.kinematics
    case Cardio => t.cardio
    case Biomechanics => t.biomechanics
    case Elevation => t.elevation
  }

  // ---------------------------------------------------------------- keys

  function ActivityAid(r: ActivityRow): Option<int> { Some(r.id) }
  function ZoneAid(r: ZoneRow): Option<int> { r.activityId }
  function SampleAid(r: SampleRow): Option<int> { r.activityId }
  function GpsAid(r: GpsRow): Option<int> { r.activityId }
  function LapAid(r: LapRow): Option<int> { r.activityId }

  /** `WHERE activity_id = x` (NULL never equals x). */
  function Of<T>(aid: T -> Option<int>, x: int): T -> bool {
    r => aid(r) == Some(x)
  }

  /** The rows a `DELETE ... WHERE activity_id = x` leaves. */
  function NotOf<T>(aid: T -> Option<int>, x: int): T -> bool {
    r => aid(r) != Some(x)
  }

  /** `SELECT COUNT(*) FROM activities WHERE id = x` is positive. */
  function HasId(rows: seq<ActivityRow>, x: int): bool {
    if rows == [] then false
    else rows[0].id == x || HasId(rows[1..], x)
  }

  /** `HasId` is membership of `x` among the ids. */
  lemma {:induction false} HasIdSpec(rows: seq<ActivityRow>, x: int)
    ensures HasId(rows, x) <==> exists i :: 0 <= i < |rows| && rows[i].id == x
  {
    if rows != [] {
      HasIdSpec(rows[1..], x);
      assert forall i :: 1 <= i < |rows| ==> rows[i] == rows[1..][i - 1];
      if HasId(rows[1..], x) {
        var i :| 0 <= i < |rows[1..]| && rows[1..][i].id == x;
        assert rows[i + 1].id == x;
      }
    }
  }

  /** `activity_exists(activity_id)`; a missing id is bound as NULL and matches nothing. */
  function Exists(t: Tables, id: Option<int>): bool {
    id.Some? && HasId(t.activities, id.value)
  }

  function MaxId(rows: seq<ActivityRow>): int
    requires rows != []
  {
    if |rows| == 1 then rows[0].id
    else
      var m := MaxId(rows[1..]);
      if rows[0].id > m then rows[0].id else m
  }

  /** The id SQLite gives a row inserted with a NULL `INTEGER PRIMARY KEY`:
      one more than the largest id present, or 1 in an empty table. */
  function NextRowId(rows: seq<ActivityRow>): int {
    if rows == [] then 1 else MaxId(rows) + 1
  }

  /** No id is larger than `MaxId`. */
  lemma {:induction false} MaxIdBound(rows: seq<ActivityRow>)
    requires rows != []
    ensures forall i :: 0 <= i < |rows| ==> rows[i].id <= MaxId(rows)
  {
    if |rows| > 1 {
      MaxIdBound(rows[1..]);
      assert forall i :: 1 <= i < |rows| ==> rows[i] == rows[1..][i - 1];
    }
  }

  /** The new id is larger than every stored one, so no row has it yet. */
  lemma NextRowIdFresh(rows: seq<ActivityRow>)
    ensures forall i :: 0 <= i < |rows| ==> rows[i].id < NextRowId(rows)
    ensures !HasId(rows, NextRowId(rows))
  {
    if rows != [] {
      MaxIdBound(rows);
    }
    HasIdSpec(rows, NextRowId(rows));
  }

  // ---------------------------------------------------------------- invariant

  ghost function Ids(acts: seq<ActivityRow>): set<int> {
    set i | 0 <= i < |acts| :: acts[i].id
  }

  /** No two rows of `s` clash. */
  ghost predicate NoClash<T>(s: seq<T>, clash: (T, T) -> bool) {
    forall i, j :: 0 <= i < j < |s| ==> !clash(s[i], s[j])
  }

  /** `id INTEGER PRIMARY KEY` */
  function SameId(a: ActivityRow, b: ActivityRow): bool {
    a.id == b.id
  }

  /** `PRIMARY KEY (activity_id, zone_name)`; NULLs never collide. */
  function SameZoneKey(a: ZoneRow, b: ZoneRow): bool {
    a.activityId.Some? && a.zoneName.Some? && a.activityId == b.activityId && a.zoneName == b.zoneName
  }

  /** `PRIMARY KEY (activity_id, lap_number)`; a NULL activity id never collides. */
  function SameLapKey(a: LapRow, b: LapRow): bool {
    a.activityId.Some? && a.activityId == b.activityId && a.lapNumber == b.lapNumber
  }

  /** Every row with a non-NULL activity id names an existing activity. */
  ghost predicate Refers<T>(rows: seq<T>, aid: T -> Option<int>, ids: set<int>) {
    forall i :: 0 <= i < |rows| ==> (aid(rows[i]).Some? ==> aid(rows[i]).value in ids)
  }

  /** What every reachable store satisfies: the three primary keys hold and no
      dependent row with a non-NULL activity id is an orphan. */
  ghost predicate TablesValid(t: Tables) {
    var ids := Ids(t.activities);
    && NoClash(t.activities, SameId)
    && NoClash(t.zones, SameZoneKey)
    && NoClash(t.laps, SameLapKey)
    && Refers(t.zones, ZoneAid, ids)
    && Refers(t.power, SampleAid, ids)
    && Refers(t.kinematics, SampleAid, ids)
    && Refers(t.cardio, SampleAid, ids)
    && Refers(t.biomechanics, SampleAid, ids)
    && Refers(t.elevation, SampleAid, ids)
    && Refers(t.gps, GpsAid, ids)
    && Refers(t.laps, LapAid, ids)
  }

  // ---------------------------------------------------------------- save

  /** The nine `DELETE ... WHERE (activity_)id = x` statements. */
  function DeleteActivity(t: Tables, x: int): Tables {
    Tables(
      Keep(t.activities, NotOf(ActivityAid, x)),
      Keep(t.zones, NotOf(ZoneAid, x)),
      Keep(t.power, NotOf(SampleAid, x)),
      Keep(t.kinematics, NotOf(SampleAid, x)),
      Keep(t.cardio, NotOf(SampleAid, x)),
      Keep(t.biomechanics, NotOf(SampleAid, x)),
      Keep(t.elevation, NotOf(SampleAid, x)),
      Keep(t.gps, NotOf(GpsAid, x)),
      Keep(t.laps, NotOf(LapAid, x)))
  }

  /** Inserting `row` would violate `PRIMARY KEY (activity_id, zone_name)`. */
  function ZoneKeyTaken(table: seq<ZoneRow>, row: ZoneRow): bool {
    exists k :: 0 <= k < |table| && SameZoneKey(table[k], row)
  }

  /** The zone INSERTs one at a time: the first one whose key is taken raises,
      and the rows inserted before it stay in place. */
  function InsertZones(table: seq<ZoneRow>, rows: seq<ZoneRow>): (bool, seq<ZoneRow>)
    decreases |rows|
  {
    if rows == [] then (true, table)
    else
      var prev := InsertZones(table, rows[..|rows| - 1]);
      var row := rows[|rows| - 1];
      if !prev.0 || ZoneKeyTaken(prev.1, row) then (false, prev.1)
      else (true, prev.1 + [row])
  }

  /** The id the new `activities` row receives. */
  function RowId(acts: seq<ActivityRow>, id: Option<int>): int {
    if id.Some? then id.value else NextRowId(acts)
  }

  /** Everything inserted after the zones: five families, GPS points, laps. */
  function AppendDependents(t: Tables, p: Payload): Tables {
    t.(power := t.power + SampleRows(p, Power),
       kinematics := t.kinematics + SampleRows(p, Kinematics),
       cardio := t.cardio + SampleRows(p, Cardio),
       biomechanics := t.biomechanics + SampleRows(p, Biomechanics),
       elevation := t.elevation + SampleRows(p, Elevation),
       gps := t.gps + GpsRows(p),
       laps := t.laps + LapRows(p))
  }

  /** The nine deletes of `force` over an existing id, or nothing. */
  function Prepare(t: Tables, p: Payload, force: bool): Tables {
    if force && Exists(t, p.id) then DeleteActivity(t, p.id.value) else t
  }

  /** The `INSERT INTO activities` of the payload. */
  function AddActivity(t: Tables, p: Payload, localDate: int -> string, now: int): Tables {
    t.(activities := t.activities + [ActivityRowOf(p, RowId(t.activities, p.id), localDate(p.timestamp.GetOr(0)), now)])
  }

  /** `save_activity(p, force)`: what it returns and the tables it leaves.
      `localDate` is `fromtimestamp(...).strftime(...)` and `now` the instant
      stamped into `synced_at`. */
  function Save(t: Tables, p: Payload, force: bool, localDate: int -> string, now: int): (SaveResult, Tables) {
    if Exists(t, p.id) && !force then (Returned(false, AlreadyExistsMessage), t)
    else
      var t2 := AddActivity(Prepare(t, p, force), p, localDate, now);
      var z := InsertZones(t2.zones, ZoneRows(p));
      if !z.0 then (Raised(IntegrityError), t2.(zones := z.1))
      else (Returned(true, SavedMessage), AppendDependents(t2.(zones := z.1), p))
  }

  // ---------------------------------------------------------------- generic lemmas

  lemma IdsSpec(acts: seq<ActivityRow>, x: int)
    ensures x in Ids(acts) <==> HasId(acts, x)
  {
    HasIdSpec(acts, x);
    if HasId(acts, x) {
      var i :| 0 <= i < |acts| && acts[i].id == x;
      assert acts[i].id in Ids(acts);
    }
  }

  lemma {:induction false} NoClashKeep<T>(s: seq<T>, p: T -> bool, clash: (T, T) -> bool)
    requires NoClash(s, clash)
    ensures NoClash(Keep(s, p), clash)
  {
    if s != [] {
      NoClashKeep(s[1..], p, clash);
      var tl := Keep(s[1..], p);
      if p(s[0]) {
        KeepMembers(s[1..], p);
        forall j | 0 <= j < |tl| ensures !clash(s[0], tl[j]) {
          assert tl[j] in tl;
          var k :| 0 <= k < |s[1..]| && s[1..][k] == tl[j];
          assert s[k + 1] == tl[j];
        }
        var r := [s[0]] + tl;
        forall i, j | 0 <= i < j < |r| ensures !clash(r[i], r[j]) {
          if i > 0 {
            assert r[i] == tl[i - 1] && r[j] == tl[j - 1];
          } else {
            assert r[j] == tl[j - 1];
          }
        }
      }
    }
  }

  lemma NoClashAppend<T>(a: seq<T>, b: seq<T>, clash: (T, T) -> bool)
    requires NoClash(a, clash) && NoClash(b, clash)
    requires forall i, j :: 0 <= i < |a| && 0 <= j < |b| ==> !clash(a[i], b[j])
    ensures NoClash(a + b, clash)
  {
    var c := a + b;
    forall i, j | 0 <= i < j < |c| ensures !clash(c[i], c[j]) {
      if j < |a| {
        assert c[i] == a[i] && c[j] == a[j];
      } else if i >= |a| {
        assert c[i] == b[i - |a|] && c[j] == b[j - |a|];
      } else {
        assert c[i] == a[i] && c[j] == b[j - |a|];
      }
    }
  }

  lemma RefersAppend<T>(a: seq<T>, b: seq<T>, aid: T -> Option<int>, ids: set<int>)
    requires Refers(a, aid, ids) && Refers(b, aid, ids)
    ensures Refers(a + b, aid, ids)
  {
    var c := a + b;
    forall i | 0 <= i < |c| ensures aid(c[i]).Some? ==> aid(c[i]).value in ids {
      if i < |a| { assert c[i] == a[i]; } else { assert c[i] == b[i - |a|]; }
    }
  }

  lemma RefersGrow<T>(a: seq<T>, aid: T -> Option<int>, ids: set<int>, more: set<int>)
    requires Refers(a, aid, ids) && ids <= more
    ensures Refers(a, aid, more)
  {
  }

  /** A delete by activity id leaves only rows that refer to some other id. */
  lemma RefersDelete<T>(s: seq<T>, aid: T -> Option<int>, ids: set<int>, x: int)
    requires Refers(s, aid, ids)
    ensures Refers(Keep(s, NotOf(aid, x)), aid, ids - {x})
    ensures forall i :: 0 <= i < |Keep(s, NotOf(aid, x))| ==> aid(Keep(s, NotOf(aid, x))[i]) != Some(x)
  {
    var r := Keep(s, NotOf(aid, x));
    KeepMembers(s, NotOf(aid, x));
    KeepSatisfies(s, NotOf(aid, x));
    forall i | 0 <= i < |r| ensures aid(r[i]).Some? ==> aid(r[i]).value in ids - {x} {
      assert r[i] in r;
      assert NotOf(aid, x)(r[i]);
    }
  }

  /** A table with no row of activity x is untouched by deleting x. */
  lemma DeleteNothing<T>(s: seq<T>, aid: T -> Option<int>, ids: set<int>, x: int)
    requires Refers(s, aid, ids) && x !in ids
    ensures Keep(s, NotOf(aid, x)) == s
  {
    forall i | 0 <= i < |s| ensures NotOf(aid, x)(s[i]) {
      assert aid(s[i]).Some? ==> aid(s[i]).value in ids;
    }
    KeepAll(s, NotOf(aid, x));
  }

  lemma IdsDelete(acts: seq<ActivityRow>, x: int)
    ensures Ids(Keep(acts, NotOf(ActivityAid, x))) == Ids(acts) - {x}
  {
    var r := Keep(acts, NotOf(ActivityAid, x));
    KeepMembers(acts, NotOf(ActivityAid, x));
    forall y ensures y in Ids(r) <==> y in Ids(acts) - {x} {
      if y in Ids(r) {
        var i :| 0 <= i < |r| && r[i].id == y;
        assert r[i] in r;
        var k :| 0 <= k < |acts| && acts[k] == r[i];
        assert ActivityAid(r[i]) == Some(y);
        assert acts[k].id in Ids(acts);
      }
      if y in Ids(acts) - {x} {
        var k :| 0 <= k < |acts| && acts[k].id == y;
        assert ActivityAid(acts[k]) == Some(y);
        assert acts[k] in acts && NotOf(ActivityAid, x)(acts[k]);
        assert acts[k] in r;
        var i :| 0 <= i < |r| && r[i] == acts[k];
        assert r[i].id in Ids(r);
      }
    }
  }

  lemma IdsAppend(acts: seq<ActivityRow>, row: ActivityRow)
    ensures Ids(acts + [row]) == Ids(acts) + {row.id}
  {
    var c := acts + [row];
    forall y ensures y in Ids(c) <==> y in Ids(acts) + {row.id} {
      if y in Ids(c) {
        var i :| 0 <= i < |c| && c[i].id == y;
        if i < |acts| { assert c[i] == acts[i]; assert acts[i].id in Ids(acts); }
      }
      if y in Ids(acts) {
        var i :| 0 <= i < |acts| && acts[i].id == y;
        assert c[i] == acts[i];
        assert c[i].id in Ids(c);
      }
      if y == row.id {
        assert c[|acts|] == row;
        assert c[|acts|].id in Ids(c);
      }
    }
  }

  // ---------------------------------------------------------------- zone inserts

  lemma {:induction false} InsertZonesShape(table: seq<ZoneRow>, rows: seq<ZoneRow>)
    ensures var z := InsertZones(table, rows);
            && |table| <= |z.1| && z.1[..|table|] == table
            && (forall i :: |table| <= i < |z.1| ==> z.1[i] in rows)
            && (z.0 ==> z.1 == table + rows)
            && (NoClash(table, SameZoneKey) ==> NoClash(z.1, SameZoneKey))
    decreases |rows|
  {
    if rows != [] {
      var init := rows[..|rows| - 1];
      var row := rows[|rows| - 1];
      InsertZonesShape(table, init);
      var prev := InsertZones(table, init);
      assert forall i :: |table| <= i < |prev.1| ==> prev.1[i] in rows by {
        forall i | |table| <= i < |prev.1| ensures prev.1[i] in rows {
          assert prev.1[i] in init;
        }
      }
      if prev.0 && !ZoneKeyTaken(prev.1, row) {
        assert init + [row] == rows;
        var c := prev.1 + [row];
        assert c[..|table|] == prev.1[..|table|];
        if NoClash(table, SameZoneKey) {
          forall i, j | 0 <= i < j < |c| ensures !SameZoneKey(c[i], c[j]) {
            if j < |prev.1| {
              assert c[i] == prev.1[i] && c[j] == prev.1[j];
            } else {
              assert c[j] == row && c[i] == prev.1[i];
            }
          }
        }
      }
    }
  }

  lemma {:induction false} InsertZonesStops(table: seq<ZoneRow>, rows: seq<ZoneRow>, k: nat)
    requires k <= |rows| && !InsertZones(table, rows[..k]).0
    ensures InsertZones(table, rows) == InsertZones(table, rows[..k])
    decreases |rows| - k
  {
    if k < |rows| {
      assert rows[..k + 1][..k] == rows[..k];
      InsertZonesStops(table, rows, k + 1);
    } else {
      assert rows[..k] == rows;
    }
  }

  /** Zone inserts that succeed never added two rows with the same key. */
  lemma {:induction false} InsertZonesOkDistinct(table: seq<ZoneRow>, rows: seq<ZoneRow>)
    requires InsertZones(table, rows).0
    ensures NoClash(rows, SameZoneKey)
    decreases |rows|
  {
    if rows != [] {
      var init := rows[..|rows| - 1];
      var row := rows[|rows| - 1];
      var prev := InsertZones(table, init);
      InsertZonesOkDistinct(table, init);
      InsertZonesShape(table, init);
      assert prev.1 == table + init;
      forall i, j | 0 <= i < j < |rows| ensures !SameZoneKey(rows[i], rows[j]) {
        if j < |rows| - 1 {
          assert rows[i] == init[i] && rows[j] == init[j];
        } else {
          assert prev.1[|table| + i] == rows[i];
        }
      }
    }
  }

  /** Zone inserts of rows with distinct keys, none already taken, succeed. */
  lemma {:induction false} InsertZonesDistinctOk(table: seq<ZoneRow>, rows: seq<ZoneRow>)
    requires forall i, j :: 0 <= i < |table| && 0 <= j < |rows| ==> !SameZoneKey(table[i], rows[j])
    requires NoClash(rows, SameZoneKey)
    ensures InsertZones(table, rows).0
    decreases |rows|
  {
    if rows != [] {
      var init := rows[..|rows| - 1];
      var row := rows[|rows| - 1];
      assert forall j :: 0 <= j < |init| ==> init[j] == rows[j];
      InsertZonesDistinctOk(table, init);
      InsertZonesShape(table, init);
      var prev := InsertZones(table, init);
      assert prev.1 == table + init;
      forall k | 0 <= k < |prev.1| ensures !SameZoneKey(prev.1[k], row) {
        if k < |table| {
          assert prev.1[k] == table[k];
        } else {
          assert prev.1[k] == rows[k - |table|];
        }
      }
    }
  }

  /** With no earlier zone rows for the activity, the zone inserts succeed
      exactly when no two zones of the payload share a (non-NULL) name. */
  lemma InsertZonesOkIff(table: seq<ZoneRow>, rows: seq<ZoneRow>)
    requires forall i, j :: 0 <= i < |table| && 0 <= j < |rows| ==> !SameZoneKey(table[i], rows[j])
    ensures InsertZones(table, rows).0 <==> NoClash(rows, SameZoneKey)
  {
    if InsertZones(table, rows).0 {
      InsertZonesOkDistinct(table, rows);
    }
    if NoClash(rows, SameZoneKey) {
      InsertZonesDistinctOk(table, rows);
    }
  }

  /** Every zone row of a payload carries the payload's id. */
  lemma ZoneRowsIds(p: Payload)
    ensures forall i :: 0 <= i < |ZoneRows(p)| ==> ZoneRows(p)[i].activityId == p.id
  {
    ZipZonesAt(p.id, p.zones, p.secondsInZones, p.movingTime.GetOr(0));
  }

  lemma SampleRowsIds(p: Payload, f: Family)
    ensures forall i :: 0 <= i < |SampleRows(p, f)| ==> SampleRows(p, f)[i].activityId == p.id
  {
    ZipWithDefaultAt(p.id, p.timestampList, Columns(p, f));
  }

  lemma GpsRowsIds(p: Payload)
    ensures forall i :: 0 <= i < |GpsRows(p)| ==> GpsRows(p)[i].activityId == p.id
  {
  }

  // ---------------------------------------------------------------- save lemmas

  /** An existing id without `force` is rejected with "Activity already exists"
      and no table changes. */
  lemma SaveRejectsExisting(t: Tables, p: Payload, localDate: int -> string, now: int)
    requires Exists(t, p.id)
    ensures Save(t, p, false, localDate, now) == (Returned(false, AlreadyExistsMessage), t)
  {
  }

  /** The state just before the activity insert: the invariant holds, the
      payload's id (if any) is free and no dependent row refers to it. */
  lemma ClearedForInsert(t: Tables, p: Payload, force: bool)
    requires TablesValid(t) && !(Exists(t, p.id) && !force)
    ensures TablesValid(Prepare(t, p, force))
    ensures p.id.Some? ==> p.id.value !in Ids(Prepare(t, p, force).activities)
    ensures p.id.Some? ==> Prepare(t, p, force) == DeleteActivity(t, p.id.value)
  {
    if p.id.Some? {
      var x := p.id.value;
      var ids := Ids(t.activities);
      IdsSpec(t.activities, x);
      IdsDelete(t.activities, x);
      DeleteValid(t, x);
      if !Exists(t, p.id) {
        assert x !in ids;
        DeleteNothing(t.activities, ActivityAid, ids, x);
        DeleteNothing(t.zones, ZoneAid, ids, x);
        DeleteNothing(t.power, SampleAid, ids, x);
        DeleteNothing(t.kinematics, SampleAid, ids, x);
        DeleteNothing(t.cardio, SampleAid, ids, x);
        DeleteNothing(t.biomechanics, SampleAid, ids, x);
        DeleteNothing(t.elevation, SampleAid, ids, x);
        DeleteNothing(t.gps, GpsAid, ids, x);
        DeleteNothing(t.laps, LapAid, ids, x);
      }
    }
  }

  lemma DeleteValid(t: Tables, x: int)
    requires TablesValid(t)
    ensures TablesValid(DeleteActivity(t, x))
  {
    var ids := Ids(t.activities);
    IdsDelete(t.activities, x);
    RefersDelete(t.zones, ZoneAid, ids, x);
    RefersDelete(t.power, SampleAid, ids, x);
    RefersDelete(t.kinematics, SampleAid, ids, x);
    RefersDelete(t.cardio, SampleAid, ids, x);
    RefersDelete(t.biomechanics, SampleAid, ids, x);
    RefersDelete(t.elevation, SampleAid, ids, x);
    RefersDelete(t.gps, GpsAid, ids, x);
    RefersDelete(t.laps, LapAid, ids, x);
    NoClashKeep(t.activities, NotOf(ActivityAid, x), SameId);
    NoClashKeep(t.zones, NotOf(ZoneAid, x), SameZoneKey);
    NoClashKeep(t.laps, NotOf(LapAid, x), SameLapKey);
  }

  /** The activity insert keeps the invariant when its id is free, and the
      payload's id (if any) then names a stored activity. */
  lemma AddActivityValid(t: Tables, p: Payload, localDate: int -> string, now: int)
    requires TablesValid(t) && (p.id.Some? ==> p.id.value !in Ids(t.activities))
    ensures var t2 := AddActivity(t, p, localDate, now);
            && TablesValid(t2)
            && Ids(t2.activities) == Ids(t.activities) + {RowId(t.activities, p.id)}
            && (p.id.Some? ==> p.id.value in Ids(t2.activities))
  {
    var rid := RowId(t.activities, p.id);
    var row := ActivityRowOf(p, rid, localDate(p.timestamp.GetOr(0)), now);
    var ids1 := Ids(t.activities);
    IdsAppend(t.activities, row);
    assert rid !in ids1 by {
      if p.id.None? { IdsSpec(t.activities, rid); NextRowIdFresh(t.activities); }
    }
    forall i | 0 <= i < |t.activities| ensures !SameId(t.activities[i], row) {
      assert t.activities[i].id in ids1;
    }
    NoClashAppend(t.activities, [row], SameId);
  }

  /** The zone inserts keep the invariant whether or not they raise. */
  lemma ZonesValid(t: Tables, p: Payload)
    requires TablesValid(t) && (p.id.Some? ==> p.id.value in Ids(t.activities))
    ensures TablesValid(t.(zones := InsertZones(t.zones, ZoneRows(p)).1))
  {
    var zr := ZoneRows(p);
    var ids := Ids(t.activities);
    ZoneRowsIds(p);
    var z := InsertZones(t.zones, zr);
    InsertZonesShape(t.zones, zr);
    forall i | 0 <= i < |z.1| ensures ZoneAid(z.1[i]).Some? ==> ZoneAid(z.1[i]).value in ids {
      if i < |t.zones| {
        assert z.1[i] == z.1[..|t.zones|][i];
      } else {
        assert z.1[i] in zr;
      }
    }
  }

  /** The sample, GPS and lap inserts keep the invariant when the payload's id
      names a stored activity that has no laps yet. */
  lemma DependentsValid(t: Tables, p: Payload)
    requires TablesValid(t) && (p.id.Some? ==> p.id.value in Ids(t.activities))
    requires forall i :: 0 <= i < |t.laps| ==> !(p.id.Some? && t.laps[i].activityId == p.id)
    ensures TablesValid(AppendDependents(t, p))
  {
    var ids := Ids(t.activities);
    var t4 := AppendDependents(t, p);
    forall f: Family ensures Refers(FamilyTable(t4, f), SampleAid, ids) {
      SampleRowsIds(p, f);
      RefersAppend(FamilyTable(t, f), SampleRows(p, f), SampleAid, ids);
    }
    assert t4.power == FamilyTable(t4, Power);
    assert t4.kinematics == FamilyTable(t4, Kinematics);
    assert t4.cardio == FamilyTable(t4, Cardio);
    assert t4.biomechanics == FamilyTable(t4, Biomechanics);
    assert t4.elevation == FamilyTable(t4, Elevation);
    GpsRowsIds(p);
    RefersAppend(t.gps, GpsRows(p), GpsAid, ids);
    LapRowsSpec(p);
    RefersAppend(t.laps, LapRows(p), LapAid, ids);
    forall i, j | 0 <= i < |t.laps| && 0 <= j < |LapRows(p)| ensures !SameLapKey(t.laps[i], LapRows(p)[j]) {
      assert LapRows(p)[j].activityId == p.id;
    }
    NoClashAppend(t.laps, LapRows(p), SameLapKey);
  }

  /** `save_activity` keeps the store invariant on every path, including the
      one that raises on a duplicate zone name. */
  lemma SavePreservesValid(t: Tables, p: Payload, force: bool, localDate: int -> string, now: int)
    requires TablesValid(t)
    ensures TablesValid(Save(t, p, force, localDate, now).1)
  {
    if !(Exists(t, p.id) && !force) {
      ClearedForInsert(t, p, force);
      var t1 := Prepare(t, p, force);
      AddActivityValid(t1, p, localDate, now);
      var t2 := AddActivity(t1, p, localDate, now);
      ZonesValid(t2, p);
      var z := InsertZones(t2.zones, ZoneRows(p));
      if z.0 {
        forall i | 0 <= i < |t2.laps| ensures !(p.id.Some? && t2.laps[i].activityId == p.id) {
          assert LapAid(t1.laps[i]).Some? ==> LapAid(t1.laps[i]).value in Ids(t1.activities);
        }
        DependentsValid(t2.(zones := z.1), p);
      }
    }
  }

  /** A successful save of activity x leaves, in every table, the rows of
      other activities exactly as they were, followed by the rows built from
      the new payload: no row of an earlier version of x survives. */
  lemma SaveReplaces(t: Tables, p: Payload, force: bool, localDate: int -> string, now: int)
    requires TablesValid(t) && p.id.Some?
    requires Save(t, p, force, localDate, now).0.Returned? && Save(t, p, force, localDate, now).0.success
    ensures var t' := Save(t, p, force, localDate, now).1;
            var x := p.id.value;
            && t'.activities == Keep(t.activities, NotOf(ActivityAid, x))
                                + [ActivityRowOf(p, x, localDate(p.timestamp.GetOr(0)), now)]
            && t'.zones == Keep(t.zones, NotOf(ZoneAid, x)) + ZoneRows(p)
            && (forall f :: FamilyTable(t', f) == Keep(FamilyTable(t, f), NotOf(SampleAid, x)) + SampleRows(p, f))
            && t'.gps == Keep(t.gps, NotOf(GpsAid, x)) + GpsRows(p)
            && t'.laps == Keep(t.laps, NotOf(LapAid, x)) + LapRows(p)
  {
    ClearedForInsert(t, p, force);
    ReplacesAfterDelete(t, p, force, localDate, now);
  }

  lemma ReplacesAfterDelete(t: Tables, p: Payload, force: bool, localDate: int -> string, now: int)
    requires p.id.Some? && !(Exists(t, p.id) && !force)
    requires Prepare(t, p, force) == DeleteActivity(t, p.id.value)
    requires Save(t, p, force, localDate, now).0 == Returned(true, SavedMessage)
    ensures var t' := Save(t, p, force, localDate, now).1;
            var x := p.id.value;
            && t'.activities == Keep(t.activities, NotOf(ActivityAid, x))
                                + [ActivityRowOf(p, x, localDate(p.timestamp.GetOr(0)), now)]
            && t'.zones == Keep(t.zones, NotOf(ZoneAid, x)) + ZoneRows(p)
            && (forall f :: FamilyTable(t', f) == Keep(FamilyTable(t, f), NotOf(SampleAid, x)) + SampleRows(p, f))
            && t'.gps == Keep(t.gps, NotOf(GpsAid, x)) + GpsRows(p)
            && t'.laps == Keep(t.laps, NotOf(LapAid, x)) + LapRows(p)
  {
    var x := p.id.value;
    var d := DeleteActivity(t, x);
    var row := ActivityRowOf(p, x, localDate(p.timestamp.GetOr(0)), now);
    var t2 := d.(activities := d.activities + [row]);
    assert AddActivity(Prepare(t, p, force), p, localDate, now) == t2;
    InsertZonesShape(t2.zones, ZoneRows(p));
    var z := InsertZones(t2.zones, ZoneRows(p));
    assert z.0;
    var t' := AppendDependents(t2.(zones := z.1), p);
    assert Save(t, p, force, localDate, now).1 == t';
    forall f ensures FamilyTable(t', f) == Keep(FamilyTable(t, f), NotOf(SampleAid, x)) + SampleRows(p, f) {
      assert FamilyTable(t', f) == FamilyTable(d, f) + SampleRows(p, f);
    }
  }

  /** The rows the new payload contributes, and only those, carry its id. */
  lemma {:induction false} ReplacedRows<T>(before: seq<T>, added: seq<T>, aid: T -> Option<int>, x: int)
    requires forall i :: 0 <= i < |added| ==> aid(added[i]) == Some(x)
    ensures Keep(Keep(before, NotOf(aid, x)) + added, Of(aid, x)) == added
    ensures Keep(Keep(before, NotOf(aid, x)) + added, NotOf(aid, x)) == Keep(before, NotOf(aid, x))
  {
    var kept := Keep(before, NotOf(aid, x));
    KeepAppend(kept, added, Of(aid, x));
    KeepAppend(kept, added, NotOf(aid, x));
    KeepSatisfies(before, NotOf(aid, x));
    KeepNone(kept, Of(aid, x));
    KeepAll(kept, NotOf(aid, x));
    KeepAll(added, Of(aid, x));
    KeepNone(added, NotOf(aid, x));
  }

  /** After a successful save of activity x (with or without `force`), the
      GPS and lap rows of x are exactly those built from the new payload, and
      `activities` holds exactly one row with id x. */
  lemma SaveLeavesNoStaleRows(t: Tables, p: Payload, force: bool, localDate: int -> string, now: int)
    requires TablesValid(t) && p.id.Some?
    requires Save(t, p, force, localDate, now).0.Returned? && Save(t, p, force, localDate, now).0.success
    ensures var t' := Save(t, p, force, localDate, now).1;
            var x := p.id.value;
            && Keep(t'.activities, Of(ActivityAid, x)) == [ActivityRowOf(p, x, localDate(p.timestamp.GetOr(0)), now)]
            && Keep(t'.zones, Of(ZoneAid, x)) == ZoneRows(p)
            && (forall f :: Keep(FamilyTable(t', f), Of(SampleAid, x)) == SampleRows(p, f))
            && Keep(t'.gps, Of(GpsAid, x)) == GpsRows(p)
            && Keep(t'.laps, Of(LapAid, x)) == LapRows(p)
  {
    var x := p.id.value;
    var t' := Save(t, p, force, localDate, now).1;
    SaveReplaces(t, p, force, localDate, now);
    ReplacedRows(t.activities, [ActivityRowOf(p, x, localDate(p.timestamp.GetOr(0)), now)], ActivityAid, x);
    ZoneRowsIds(p);
    ReplacedRows(t.zones, ZoneRows(p), ZoneAid, x);
    forall f ensures Keep(FamilyTable(t', f), Of(SampleAid, x)) == SampleRows(p, f) {
      SampleRowsIds(p, f);
      ReplacedRows(FamilyTable(t, f), SampleRows(p, f), SampleAid, x);
    }
    GpsRowsIds(p);
    ReplacedRows(t.gps, GpsRows(p), GpsAid, x);
    LapRowsSpec(p);
    ReplacedRows(t.laps, LapRows(p), LapAid, x);
  }

  lemma {:induction false} UniqueIdCount(acts: seq<ActivityRow>, x: int)
    requires NoClash(acts, SameId)
    ensures |Keep(acts, NotOf(ActivityAid, x))| == if HasId(acts, x) then |acts| - 1 else |acts|
  {
    if acts != [] {
      var tl := acts[1..];
      assert NoClash(tl, SameId) by {
        forall i, j | 0 <= i < j < |tl| ensures !SameId(tl[i], tl[j]) {
          assert tl[i] == acts[i + 1] && tl[j] == acts[j + 1];
        }
      }
      UniqueIdCount(tl, x);
      HasIdSpec(acts, x);
      HasIdSpec(tl, x);
      assert acts == [acts[0]] + tl;
      assert ActivityAid(acts[0]) == Some(acts[0].id);
      if acts[0].id == x {
        assert Keep(acts, NotOf(ActivityAid, x)) == Keep(tl, NotOf(ActivityAid, x));
        assert !HasId(tl, x) by {
          forall i | 0 <= i < |tl| ensures tl[i].id != x {
            assert tl[i] == acts[i + 1];
          }
        }
      } else {
        assert HasId(acts, x) == HasId(tl, x) by {
          if HasId(acts, x) {
            var i :| 0 <= i < |acts| && acts[i].id == x;
            assert tl[i - 1] == acts[i];
          }
        }
      }
    }
  }

  /** A successful save of an id that was not stored yet makes it exist and
      adds exactly one activity; a successful save over an existing id (which
      needs `force`) leaves the count unchanged. */
  lemma SaveCount(t: Tables, p: Payload, force: bool, localDate: int -> string, now: int)
    requires TablesValid(t)
    requires Save(t, p, force, localDate, now).0 != Returned(false, AlreadyExistsMessage)
    ensures var t' := Save(t, p, force, localDate, now).1;
            && |t'.activities| == (if Exists(t, p.id) then |t.activities| else |t.activities| + 1)
            && (p.id.Some? ==> Exists(t', p.id))
  {
    var t' := Save(t, p, force, localDate, now).1;
    ClearedForInsert(t, p, force);
    if p.id.Some? {
      var x := p.id.value;
      UniqueIdCount(t.activities, x);
      var row := ActivityRowOf(p, x, localDate(p.timestamp.GetOr(0)), now);
      assert t'.activities == Keep(t.activities, NotOf(ActivityAid, x)) + [row];
      assert t'.activities[|t'.activities| - 1].id == x;
      HasIdSpec(t'.activities, x);
    }
  }

  /** A payload without an id is never rejected as existing: its activity row
      gets a fresh id from SQLite, while all of its dependent rows are stored
      with a NULL activity id that no later delete can reach. */
  lemma MissingIdOrphans(t: Tables, p: Payload, force: bool, localDate: int -> string, now: int)
    requires p.id.None?
    ensures var r := Save(t, p, force, localDate, now);
            && r.0 != Returned(false, AlreadyExistsMessage)
            && r.1.activities == t.activities + [ActivityRowOf(p, NextRowId(t.activities), localDate(p.timestamp.GetOr(0)), now)]
            && !HasId(t.activities, NextRowId(t.activities))
            && (r.0 == Returned(true, SavedMessage) ==> r.1.laps == t.laps + LapRows(p))
            && (forall i :: 0 <= i < |LapRows(p)| ==> LapRows(p)[i].activityId.None?)
            && (forall i :: 0 <= i < |ZoneRows(p)| ==> ZoneRows(p)[i].activityId.None?)
  {
    LapRowsSpec(p);
    ZoneRowsIds(p);
    NextRowIdFresh(t.activities);
  }

  /** In a valid store the zone inserts of a save raise exactly when two of
      the payload's zones (within the zipped length) share a name. */
  lemma SaveRaisesIffDuplicateZoneName(t: Tables, p: Payload, force: bool, localDate: int -> string, now: int)
    requires TablesValid(t) && !(Exists(t, p.id) && !force)
    ensures Save(t, p, force, localDate, now).0.Raised? <==> !NoClash(ZoneRows(p), SameZoneKey)
  {
    ClearedForInsert(t, p, force);
    var t1 := Prepare(t, p, force);
    ZoneRowsIds(p);
    forall i, j | 0 <= i < |t1.zones| && 0 <= j < |ZoneRows(p)| ensures !SameZoneKey(t1.zones[i], ZoneRows(p)[j]) {
      assert ZoneAid(t1.zones[i]).Some? ==> ZoneAid(t1.zones[i]).value in Ids(t1.activities);
      assert ZoneRows(p)[j].activityId == p.id;
    }
    InsertZonesOkIff(t1.zones, ZoneRows(p));
  }

  // ---------------------------------------------------------------- loops of save_activity

  /** `for zone, seconds in zip(zones, seconds_in_zones): cursor.execute(INSERT ...)` */
  method InsertZoneRows(table: seq<ZoneRow>, aid: Option<int>, zones: seq<Zone>, secs: seq<int>, movingTime: int)
    returns (ok: bool, r: seq<ZoneRow>)
    ensures (ok, r) == InsertZones(table, ZipZones(aid, zones, secs, movingTime))
  {
    ZipZonesAt(aid, zones, secs, movingTime);
    ghost var rows := ZipZones(aid, zones, secs, movingTime);
    var n := Min(|zones|, |secs|);
    r := table;
    var i := 0;
    while i < n
      invariant 0 <= i <= n
      invariant InsertZones(table, rows[..i]) == (true, r)
    {
      var row := ZoneRowOf(aid, zones[i], secs[i], movingTime);
      assert rows[..i + 1][..i] == rows[..i];
      if ZoneKeyTaken(r, row) {
        InsertZonesStops(table, rows, i + 1);
        return false, r;
      }
      r := r + [row];
      i := i + 1;
    }
    assert rows[..n] == rows;
    ok := true;
  }

  /** One `for i, ts in enumerate(timestamp_list)` loop of a time-series family:
      each column is `list[i] if i < len(list) else None`. */
  method AppendSamples(table: seq<SampleRow>, aid: Option<int>, ts: seq<int>, cols: seq<seq<Option<Value>>>)
    returns (r: seq<SampleRow>)
    ensures r == table + ZipWithDefault(aid, ts, cols)
  {
    ZipWithDefaultAt(aid, ts, cols);
    ghost var rows := ZipWithDefault(aid, ts, cols);
    r := table;
    for i := 0 to |ts|
      invariant r == table + rows[..i]
    {
      assert rows[..i + 1] == rows[..i] + [rows[i]];
      r := r + [SampleRow(aid, ts[i], seq(|cols|, j requires 0 <= j < |cols| => At(cols[j], i)))];
    }
    assert rows[..|ts|] == rows;
  }

  /** The GPS loop: a row only where `i < len(loc_list) and loc_list[i]`. */
  method AppendGps(table: seq<GpsRow>, aid: Option<int>, ts: seq<int>, loc: seq<Option<Location>>)
    returns (r: seq<GpsRow>)
    ensures r == table + GpsRowsOf(aid, ts, loc)
  {
    r := table;
    for i := 0 to |ts|
      invariant r == table + GpsRowsUpTo(aid, ts, loc, i)
    {
      GpsRowsStep(aid, ts, loc, i);
      if i < |loc| && loc[i].Some? {
        r := r + [GpsRow(aid, ts[i], loc[i].value.lat, loc[i].value.lng)];
      }
    }
  }

  /** `for lap_num, lap in enumerate(laps, 1)` */
  method AppendLaps(table: seq<LapRow>, aid: Option<int>, laps: seq<Lap>) returns (r: seq<LapRow>)
    ensures r == table + NumberLaps(aid, laps, 1)
  {
    NumberLapsAt(aid, laps, 1);
    ghost var rows := NumberLaps(aid, laps, 1);
    r := table;
    for i := 0 to |laps|
      invariant r == table + rows[..i]
    {
      assert rows[..i + 1] == rows[..i] + [rows[i]];
      var lapNum := i + 1;
      r := r + [LapRow(aid, lapNum, laps[i].timestamp, laps[i].trigger, laps[i].workoutStep)];
    }
    assert rows[..|laps|] == rows;
  }

  // ---------------------------------------------------------------- the store object

  class StrydDatabase {
    const dbPath: string
    /** `self.conn` is set. */
    var connected: bool
    var activities: seq<ActivityRow>
    var zones: seq<ZoneRow>
    var power: seq<SampleRow>
    var kinematics: seq<SampleRow>
    var cardio: seq<SampleRow>
    var biomechanics: seq<SampleRow>
    var elevation: seq<SampleRow>
    var gps: seq<GpsRow>
    var laps: seq<LapRow>

    ghost function Contents(): Tables
      reads this
    {
      Tables(activities, zones, power, kinematics, cardio, biomechanics, elevation, gps, laps)
    }

    ghost predicate Valid()
      reads this
    {
      TablesValid(Contents())
    }

    /** `StrydDatabase(db_path)`: no connection yet; the file is taken to be new. */
    constructor (dbPath: string)
      ensures this.dbPath == dbPath && !connected
      ensures Contents() == EmptyTables && Valid()
    {
      this.dbPath := dbPath;
      connected := false;
      activities, zones := [], [];
      power, kinematics, cardio, biomechanics, elevation := [], [], [], [], [];
      gps, laps := [], [];
    }

    /** `connect()`: opens the connection; `CREATE TABLE IF NOT EXISTS` leaves
        the rows already stored as they are. */
    method Connect()
      modifies this
      ensures connected && Contents() == old(Contents())
    {
      connected := true;
    }

    /** `close()` */
    method Close()
      modifies this
      ensures !connected && Contents() == old(Contents())
    {
      connected := false;
    }

    /** `activity_exists(activity_id)` */
    method ActivityExists(id: Option<int>) returns (b: bool)
      requires connected
      ensures b <==> id.Some? && exists i :: 0 <= i < |activities| && activities[i].id == id.value
      ensures b == Exists(Contents(), id)
    {
      b := id.Some? && HasId(activities, id.value);
      if id.Some? {
        HasIdSpec(activities, id.value);
      }
    }

    /** `get_activity_count()` */
    method GetActivityCount() returns (n: nat)
      requires connected
      ensures n == |Contents().activities|
    {
      n := |activities|;
    }

    /** `save_activity(activity_data, force)` */
    method SaveActivity(p: Payload, force: bool, localDate: int -> string, now: int) returns (r: SaveResult)
      requires connected && Valid()
      modifies this
      ensures connected && Valid()
      ensures (r, Contents()) == Save(old(Contents()), p, force, localDate, now)
    {
      ghost var t0 := Contents();
      SavePreservesValid(t0, p, force, localDate, now);
      var found := ActivityExists(p.id);
      if found && !force {
        return Returned(false, AlreadyExistsMessage);
      }
      found := ActivityExists(p.id);
      if force && found {
        DeleteRows(p.id.value);
      }
      assert Contents() == Prepare(t0, p, force);
      InsertActivityRow(p, localDate, now);
      ghost var t2 := Contents();
      assert t2 == AddActivity(Prepare(t0, p, force), p, localDate, now);

      var ok;
      ok, zones := InsertZoneRows(zones, p.id, p.zones, p.secondsInZones, p.movingTime.GetOr(0));
      if !ok {
        return Raised(IntegrityError);
      }
      InsertDependents(p);
      r := Returned(true, SavedMessage);
    }

    /** The nine deletes that `force` performs on an existing id. */
    method DeleteRows(x: int)
      modifies this
      ensures connected == old(connected)
      ensures Contents() == DeleteActivity(old(Contents()), x)
    {
      var t := DeleteActivity(Tables(activities, zones, power, kinematics, cardio,
                                     biomechanics, elevation, gps, laps), x);
      activities, zones := t.activities, t.zones;
      power, kinematics, cardio := t.power, t.kinematics, t.cardio;
      biomechanics, elevation := t.biomechanics, t.elevation;
      gps, laps := t.gps, t.laps;
    }

    /** `INSERT INTO activities (...) VALUES (...)`, with SQLite choosing the
        id when the payload has none. */
    method InsertActivityRow(p: Payload, localDate: int -> string, now: int)
      modifies this
      ensures connected == old(connected)
      ensures Contents() == AddActivity(old(Contents()), p, localDate, now)
    {
      var timestamp := p.timestamp.GetOr(0);
      var date := localDate(timestamp);
      var rowId := if p.id.Some? then p.id.value else NextRowId(activities);
      activities := activities + [ActivityRowOf(p, rowId, date, now)];
    }

    /** The time-series and GPS inserts, then the lap inserts. */
    method InsertDependents(p: Payload)
      modifies this
      ensures connected == old(connected)
      ensures Contents() == AppendDependents(old(Contents()), p)
    {
      InsertSamples(p);
      laps := AppendLaps(laps, p.id, p.laps);
    }

    /** `if timestamp_list:` the five families and the GPS points. */
    method InsertSamples(p: Payload)
      modifies this
      ensures connected == old(connected)
      ensures Contents() == old(Contents()).(
                power := old(power) + SampleRows(p, Power),
                kinematics := old(kinematics) + SampleRows(p, Kinematics),
                cardio := old(cardio) + SampleRows(p, Cardio),
                biomechanics := old(biomechanics) + SampleRows(p, Biomechanics),
                elevation := old(elevation) + SampleRows(p, Elevation),
                gps := old(gps) + GpsRows(p))
    {
      var ts := p.timestampList;
      if |ts| > 0 {
        power := AppendSamples(power, p.id, ts, Columns(p, Power));
        kinematics := AppendSamples(kinematics, p.id, ts, Columns(p, Kinematics));
        cardio := AppendSamples(cardio, p.id, ts, Columns(p, Cardio));
        biomechanics := AppendSamples(biomechanics, p.id, ts, Columns(p, Biomechanics));
        elevation := AppendSamples(elevation, p.id, ts, Columns(p, Elevation));
        gps := AppendGps(gps, p.id, ts, p.locList);
      } else {
        NoTimestampsNoSamples(p);
        assert SampleRows(p, Power) == [] && SampleRows(p, Kinematics) == [] && SampleRows(p, Cardio) == [];
        assert SampleRows(p, Biomechanics) == [] && SampleRows(p, Elevation) == [];
        assert power + [] == power && kinematics + [] == kinematics && cardio + [] == cardio;
        assert biomechanics + [] == biomechanics && elevation + [] == elevation && gps + [] == gps;
      }
    }
  }
}
