# strydcmd core, modelled in Dafny

strydcmd is a command-line tool for the Stryd running-power service. It has two
commands:

- `stryd` lists recent activities, exports them and downloads their FIT files.
- `strydsync` copies activities into a local SQLite database.

This project models the decision-making core of both. Each part is proved against
a specification function:

- **The store** (`store.dfy`, module `Store`) covers `StrydDatabase` from
  `strydcmd/database.py`:
  - the nine tables: `activities`, `zones_distribution`, five `timeseries_*` tables,
    `gps_points` and `laps`;
  - `activity_exists` and `get_activity_count`;
  - `save_activity` with its add-only / overwrite (`force`) policy.

  `Save` says, as a function of the old tables, what one call returns and the tables
  it leaves behind. The class `StrydDatabase` keeps one sequence per table. Its
  methods, including the six per-sample loops and the lap loop, are proved to do what
  `Save` says. They are also proved to keep the store invariant `TablesValid`:
  - the primary keys of `activities`, `zones_distribution` and `laps` hold;
  - no dependent row with a non-NULL activity id is an orphan.
- **Row building** (`normalize.dfy`, module `Normalize`) covers the pure part of
  `save_activity`:
  - the `activities` row and its tag join;
  - the zone rows, zipped with `seconds_in_zones`, with their percentage;
  - the per-sample rows, zipped with a NULL default;
  - the filtered GPS rows and the numbered lap rows.
- **Sync** (`sync.dfy`, module `Sync`) covers `strydcmd/sync.py`:
  - the date filter;
  - the batched loop of `sync_activities`, with its skip / fetch / save decision per
    item and its three counters;
  - the selection that `main` hands to it: the date-versus-days check, the empty
    checks and the oldest-first sort.

  `RunItems` is the item-by-item specification. `SyncActivities` and its nested batch
  loops are proved to reach the same tables and counters.
- **Command line** (`cli.dfy`, module `Cli`) covers the pure decisions in `main` of
  `strydcmd/main.py`:
  - `-e` export-argument resolution;
  - the option checks;
  - the `-g` time and tag filters;
  - the FIT file names;
  - the sort-and-limit selection of `print_activities`.
- **Shared parts**: `common.dfy` has `Option`, `Result`, the JSON scalar `Value` and
  `Keep` (Python's `[x for x in s if p(x)]`) with its lemmas. `sorting.dfy` has
  Python's stable `sorted(..., key=...)`. `activity.dfy` has the payload and
  calendar-summary records.

Things outside the program become inputs:

- the detail fetch is `Env.fetch`, an id → `Option<Payload>` oracle;
- local-time conversions are the `Clock` input, plus `localDate` and `dateOf`;
- the instant stamped into `synced_at` is `now`;
- whether a `-d` value parses is `isDate`.

## Model

| member | source | states |
|---|---|---|
| Common.KeepCounts | strydcmd/sync.py:36-39 | a list comprehension keeps every occurrence of each satisfying element and drops all others |
| Common.KeepSubseq | strydcmd/sync.py:54-57 | a list comprehension returns its elements in input order (a subsequence of the input) |
| Common.KeepSatisfies | strydcmd/main.py:426 | every element a comprehension keeps satisfies its condition |
| Common.KeepAppend | strydcmd/database.py:282-290 | filtering a concatenation filters each part |
| Common.KeepKeep | strydcmd/main.py:426-433 | two comprehensions in a row select what one comprehension on the conjunction selects |
| Common.KeepMembers | strydcmd/main.py:433 | an element is kept exactly when it occurs in the input and satisfies the condition |
| Common.KeepAll | strydcmd/database.py:282-290 | a filter that every element passes returns the input |
| Common.KeepNone | strydcmd/database.py:282-290 | a filter that no element passes returns nothing |
| Common.Range | strydcmd/database.py:517 | `range(n)` is 0..n-1 in increasing order |
| Sorting.SortBySorted | strydcmd/sync.py:257 | `sort(key=...)` yields ascending key order |
| Sorting.SortByCounts | strydcmd/sync.py:257 | the sort is a permutation of its input |
| Sorting.SortByStable | strydcmd/sync.py:257 | the sort is stable: elements with equal keys keep their order |
| Sorting.InsertBySorted | strydcmd/sync.py:257 | inserting into a sorted list keeps it sorted |
| Sorting.InsertByCounts | strydcmd/sync.py:257 | inserting adds exactly the one element |
| Sorting.InsertByStable | strydcmd/sync.py:257 | inserting does not reorder elements with the same key |
| Normalize.TagsRoundTrip | strydcmd/database.py:297-298 | splitting the `','`-join of comma-free tags gives the tags back |
| Normalize.SplitPrefix | strydcmd/database.py:298 | for the reader's inverse of this join (`str.split(',')`, used only to state `TagsRoundTrip`): a comma-free prefix extends the first piece |
| Normalize.TagsColumnSpec | strydcmd/database.py:297-298 | the tags column is empty for missing or empty tags and otherwise round-trips to the list |
| Normalize.ActivityRowSpec | strydcmd/database.py:306-403 | each pass-through column is the payload's value for its key or NULL, no other key becomes a column, the id, timestamp (default 0), date, moving time, tags and `synced_at` come from their sources, and each of the twelve flattened columns (`polyline`, `summary_polyline`, start/end `lat`/`lng`, the four `device_*` and two `watch_*` columns) is NULL when its sub-object is missing and that sub-object's key otherwise |
| Normalize.PercentageSpec | strydcmd/database.py:411 | the zone percentage is 0 when moving time is not positive, else seconds·100 / moving time; it lies in [0,100] only when 0 ≤ seconds ≤ moving time |
| Normalize.ZipZonesAt | strydcmd/database.py:410-421 | one zone row per pair of `zip(zones, seconds_in_zones)`, as long as the shorter list, row i built from zone i and seconds i |
| Normalize.SampleRowsSpec | strydcmd/database.py:424-513 | one sample row per timestamp, carrying the payload id and that timestamp, column j holding list j at i or NULL past its end |
| Normalize.ZipWithDefaultAt | strydcmd/database.py:433-447 | the zip-with-default has one row per timestamp, row i taking each list's i-th entry or NULL |
| Normalize.Columns | strydcmd/database.py:427-431 | a family has one column list per key it reads |
| Normalize.SampleRows | strydcmd/database.py:424-433 | a family has as many rows as `timestamp_list` has entries |
| Normalize.GpsRowsSpec | strydcmd/database.py:515-525 | GPS rows are exactly those indices i below both list lengths whose `loc_list[i]` is truthy, in increasing order, each with that timestamp and location |
| Normalize.GpsIndices | strydcmd/database.py:517-518 | every GPS index is in range and has a truthy location |
| Normalize.GpsRowsStep | strydcmd/database.py:517-525 | one loop step appends a GPS row exactly when the location is truthy |
| Normalize.KeepRangeIncreasing | strydcmd/database.py:517 | the indices the GPS loop keeps are increasing and below the list length |
| Normalize.KeepRangeCount | strydcmd/database.py:517-518 | the GPS loop keeps as many indices as satisfy its test |
| Normalize.NumberLapsAt | strydcmd/database.py:530-539 | `enumerate(laps, 1)` gives lap i the number first + i and the lap's own fields |
| Normalize.LapRowsSpec | strydcmd/database.py:527-539 | one lap row per lap, numbered 1.., pairwise distinct numbers, with the payload id |
| Normalize.NoTimestampsNoSamples | strydcmd/database.py:424-425 | an empty `timestamp_list` writes no sample and no GPS row |
| Normalize.SplitTags | strydcmd/database.py:298 | the reader's inverse of this join (`str.split(',')`, used only to state `TagsRoundTrip`; line 298 itself only joins) always gives at least one piece |
| Store.HasIdSpec | strydcmd/database.py:249-262 | `SELECT COUNT(*) ... WHERE id = ?` is positive exactly when some row has that id |
| Store.IdsSpec | strydcmd/database.py:249-262 | an id is in the stored id set exactly when a row carries it |
| Store.MaxIdBound | strydcmd/database.py:307 | every stored id is at most the largest one |
| Store.NextRowIdFresh | strydcmd/database.py:307 | the id SQLite picks for a row without one is above every stored id, so it is unused |
| Store.NoClashKeep | strydcmd/database.py:282-290 | deleting rows cannot create a primary-key clash |
| Store.NoClashAppend | strydcmd/database.py:530-539 | appending clash-free rows that clash with nothing present keeps the key |
| Store.RefersAppend | strydcmd/database.py:424-539 | appending rows that refer to existing activities keeps every reference valid |
| Store.RefersGrow | strydcmd/database.py:307 | adding an activity keeps every existing reference valid |
| Store.RefersDelete | strydcmd/database.py:282-290 | after deleting activity x no dependent row refers to x and the others still refer to existing activities |
| Store.DeleteNothing | strydcmd/database.py:282-290 | a delete that matches no row changes nothing |
| Store.IdsDelete | strydcmd/database.py:282 | deleting activity x removes exactly x from the id set |
| Store.IdsAppend | strydcmd/database.py:306-307 | inserting an activity adds exactly its id |
| Store.InsertZonesShape | strydcmd/database.py:410-421 | the zone inserts keep the old rows in front, add only payload rows, add all of them when none raises, and keep the key |
| Store.InsertZonesStops | strydcmd/database.py:410-421 | after the first failing zone insert nothing further is inserted |
| Store.InsertZonesOkDistinct | strydcmd/database.py:410-421 | zone inserts that all succeed had pairwise distinct keys |
| Store.InsertZonesDistinctOk | strydcmd/database.py:410-421 | zone rows with distinct keys, none present, all insert |
| Store.InsertZonesOkIff | strydcmd/database.py:410-421 | into a table without the payload's id, the zone inserts all succeed exactly when no two of the rows clash under the key `(activity_id, zone_name)`. Two rows clash only when both carry a non-NULL id and the same non-NULL name, because NULLs in the key never collide |
| Store.ZoneRowsIds | strydcmd/database.py:413-416 | every zone row carries the payload id |
| Store.SampleRowsIds | strydcmd/database.py:433-437 | every sample row carries the payload id |
| Store.GpsRowsIds | strydcmd/database.py:519-522 | every GPS row carries the payload id |
| Store.SaveRejectsExisting | strydcmd/database.py:275-276 | without `force`, saving an existing id returns `(False, "Activity already exists")` and changes nothing |
| Store.ClearedForInsert | strydcmd/database.py:281-290 | after the force deletes the payload id is absent from `activities` and the store is valid |
| Store.DeleteValid | strydcmd/database.py:282-290 | the nine deletes keep the store valid |
| Store.AddActivityValid | strydcmd/database.py:306-403 | inserting the activity row into a store without its id keeps it valid and adds exactly its id |
| Store.ZonesValid | strydcmd/database.py:410-421 | the zone inserts, even when one raises midway, keep the store valid |
| Store.DependentsValid | strydcmd/database.py:424-539 | the sample, GPS and lap inserts keep the store valid |
| Store.SavePreservesValid | strydcmd/database.py:264-542 | every outcome of `save_activity`, including a raise midway, leaves a valid store |
| Store.SaveReplaces | strydcmd/database.py:281-539 | a successful save of id x leaves every table as the other activities' old rows followed by the rows built from the payload |
| Store.ReplacesAfterDelete | strydcmd/database.py:281-539 | the same, once the deletes have cleared x |
| Store.ReplacedRows | strydcmd/database.py:282-290 | after deleting x's rows and appending new rows of x, x's rows are exactly the new ones and the others are unchanged |
| Store.SaveLeavesNoStaleRows | strydcmd/database.py:281-539 | after a successful save of x, `activities` holds exactly one row for x and each dependent table holds exactly the rows built from the new payload |
| Store.UniqueIdCount | strydcmd/database.py:282 | deleting a present id removes exactly one row |
| Store.SaveCount | strydcmd/database.py:264-542 | a save grows `activities` by one for a new id and keeps its size for an existing one, after which the id exists |
| Store.MissingIdOrphans | strydcmd/database.py:272-276 | a payload without id is never "already existing": its row gets a fresh SQLite id while its zone and lap rows carry NULL |
| Store.SaveRaisesIffDuplicateZoneName | strydcmd/database.py:410-421 | from a valid store, a save that passes the existence check raises exactly when two of the zipped zone rows (as many as the shorter of `zones` and `seconds_in_zones`) carry the payload's non-NULL id and the same non-NULL name. A payload without `id`, or zones without `name`, never raise |
| Store.InsertZoneRows | strydcmd/database.py:410-421 | the zone loop returns what the zone-insert specification gives for the zipped rows |
| Store.AppendSamples | strydcmd/database.py:433-513 | a per-sample loop appends exactly the zip-with-default rows |
| Store.AppendGps | strydcmd/database.py:515-525 | the GPS loop appends exactly the rows of the truthy locations |
| Store.AppendLaps | strydcmd/database.py:527-539 | the lap loop appends exactly the numbered lap rows |
| Store.StrydDatabase.constructor | strydcmd/database.py:12-20 | a new object has no connection and empty, valid tables |
| Store.StrydDatabase.Connect | strydcmd/database.py:22-26 | `connect` opens the connection and keeps the stored rows |
| Store.StrydDatabase.Close | strydcmd/database.py:28-31 | `close` closes the connection and keeps the stored rows |
| Store.StrydDatabase.ActivityExists | strydcmd/database.py:249-262 | true exactly when the id is present and some row carries it |
| Store.StrydDatabase.GetActivityCount | strydcmd/database.py:544-548 | the number of `activities` rows |
| Store.StrydDatabase.SaveActivity | strydcmd/database.py:264-542 | returns and leaves what `Save` specifies, and keeps the store valid |
| Store.StrydDatabase.DeleteRows | strydcmd/database.py:282-290 | the nine deletes of x, table by table |
| Store.StrydDatabase.InsertActivityRow | strydcmd/database.py:293-403 | the `activities` insert, with SQLite's id when the payload has none |
| Store.StrydDatabase.InsertDependents | strydcmd/database.py:423-539 | the sample, GPS and lap inserts |
| Store.StrydDatabase.InsertSamples | strydcmd/database.py:423-525 | under `if timestamp_list:` the five families and the GPS points are appended; nothing otherwise |
| Sync.FilterByDateSpec | strydcmd/sync.py:14-64 | a truthy date keeps that local day's activities (inclusive bounds, missing timestamp as 0) and an unparsable date keeps none; otherwise a truthy `days` keeps those at or after the cutoff, and neither returns the input; always in order with multiplicities |
| Sync.DateTakesPrecedence | strydcmd/sync.py:26-48 | with a truthy date the `days` argument has no effect |
| Sync.SubseqRefl | strydcmd/sync.py:62-64 | the unfiltered list is trivially an ordered selection of itself |
| Sync.FilterActivitiesByDate | strydcmd/sync.py:14-64 | the filter never returns more activities than it is given |
| Sync.BatchBounds | strydcmd/sync.py:91-92 | every batch lies within `[0, total)` and is non-empty |
| Sync.BatchesCover | strydcmd/sync.py:91-98 | the batches visit every index 0..total-1 exactly once, in order |
| Sync.BatchCount | strydcmd/sync.py:91-94 | there are `ceil(total / batch_size)` batches, the `total_batches` the source prints |
| Sync.BatchStarts | strydcmd/sync.py:91-93 | batch j starts at `j * batch_size` |
| Sync.BatchSizes | strydcmd/sync.py:91-92 | every batch but the last has `batch_size` items and the last between 1 and `batch_size` |
| Sync.Span | strydcmd/sync.py:98 | `range(lo, hi)` is lo..hi-1 |
| Sync.RunItemsNext | strydcmd/sync.py:98-133 | before any raise, handling one more item is one more step |
| Sync.Tally | strydcmd/sync.py:80-82 | the three counters add up to the number of recorded outcomes |
| Sync.TallyNext | strydcmd/sync.py:110-133 | a saved item increments `synced_count`, a skipped one `skipped_count`, a failed fetch or failed save `failed_count` |
| Sync.StepSpec | strydcmd/sync.py:110-133 | an existing id without `force` is skipped with no fetch and no save; a falsy fetch fails without a save; otherwise the save runs, and its raise ends the run, its success counts synced and its `(False, _)` counts failed |
| Sync.AbortSticks | strydcmd/sync.py:125 | once a save has raised no later item is handled |
| Sync.OneOutcomePerItem | strydcmd/sync.py:98-133 | without a raise every item gets exactly one outcome, and every item not skipped was fetched once |
| Sync.ForceNeverSkips | strydcmd/sync.py:110-113 | with `force` no item is ever skipped and no save reports failure |
| Sync.RunKeepsValid | strydcmd/sync.py:98-133 | the run keeps the store valid |
| Sync.CountersSumToTotal | strydcmd/sync.py:79-133 | at the end `synced + skipped + failed == total` (0 for a negative batch size, which processes nothing) |
| Sync.ProcessItem | strydcmd/sync.py:99-133 | one inner-loop iteration against the database does what `Step` specifies |
| Sync.RunItem | strydcmd/sync.py:98-133 | one iteration with its counter update matches the item-by-item run |
| Sync.RunBatch | strydcmd/sync.py:98-133 | the inner loop over one batch matches the item-by-item run up to the batch end |
| Sync.RunBatches | strydcmd/sync.py:91-133 | the outer loop visits exactly `BatchBounds` and reaches the item-by-item run's tables and counters |
| Sync.SyncActivities | strydcmd/sync.py:67-141 | returns the counters and the final `get_activity_count()` of `SyncSpec`, aborts on a zero batch size or on a raising save, and keeps the store valid |
| Sync.SyncSelectionSpec | strydcmd/sync.py:197-257 | what reaches `sync_activities` is the non-empty filtered listing, sorted oldest first, a permutation of it, with equal timestamps in calendar order |
| Cli.ParseFormat | strydcmd/main.py:347-348 | the format is CSV or JSON exactly when the argument upper-cases to that word |
| Cli.ExportAccepted | strydcmd/main.py:340-371 | `-e` is accepted with at most one argument, or two whose first is CSV/JSON ignoring case; two others and three or more are the two distinct errors |
| Cli.ExportCases | strydcmd/main.py:341-359 | no argument gives CSV `stryd_export.csv`; a format word gives `stryd_export.csv` / `.json`; another name ending `.json` (ignoring case) gives JSON unchanged, one ending `.csv` gives CSV unchanged, any other gets `.csv` appended |
| Cli.ExportHasExtension | strydcmd/main.py:341-369 | every accepted argument list yields a file name ending, ignoring case, in the chosen format's extension |
| Cli.ExportFixpoint | strydcmd/main.py:346-369 | passing the resolved file name back as the sole argument resolves to the same format and name |
| Cli.AppendExt | strydcmd/main.py:366-369 | appending the lower-case extension makes any name end in it |
| Cli.DottedNameIsNoFormat | strydcmd/main.py:347-353 | a name ending in `.csv` or `.json` is treated as a file name, not a format |
| Cli.CheckOptions | strydcmd/main.py:340-394 | an accepted command line carries the resolved export exactly when `-e` was given |
| Cli.CheckOptionsOkIff | strydcmd/main.py:340-394 | `main` goes on exactly when: `-e` resolves; not both `-g` and `-d`; `-e` or `-f` comes with `-g` or `-d`; `-t` with `-g`; and `-d` parses |
| Cli.CheckOptionsOrder | strydcmd/main.py:340-379 | a bad `-e` list is reported before any other rule, and `-g` with `-d` is reported as such when `-e` is fine |
| Cli.FilterByTagSpec | strydcmd/main.py:433 | the tag filter keeps, in order and with multiplicity, exactly the activities whose tag list holds the tag; one without tags is never kept |
| Cli.GetSelectionSpec | strydcmd/main.py:425-433 | the `-g` selection is one filter on "at or after the cutoff and, for a truthy tag, tagged" |
| Cli.CleanNameIsRef | strydcmd/main.py:483 | the clean name equals the character-wise reference: lowered, space and `/` to `_`, then only `[a-z0-9_-]` kept |
| Cli.CleanNameAllowed | strydcmd/main.py:483 | every character of a clean name is in `[a-z0-9_-]` |
| Cli.CleanNameIdempotent | strydcmd/main.py:483 | cleaning a clean name changes nothing |
| Cli.UnnamedActivity | strydcmd/main.py:473 | the default name cleans to `unnamed_activity` |
| Cli.FitFileNameSpec | strydcmd/main.py:473-484 | a FIT file name is the date, `_`, then only `[a-z0-9_-]`, and `<date>_unnamed_activity` without a name |
| Cli.FitTargetsSpec | strydcmd/main.py:466-488 | one download per activity with a truthy id, most recent first, each under the name built from its own date and name |
| Cli.SubseqSorted | strydcmd/main.py:466-476 | skipping activities keeps the descending order |
| Cli.Take | strydcmd/main.py:36 | Python's `s[:n]`, negative `n` included |
| Cli.DisplaySelectionSpec | strydcmd/main.py:14-41 | the shown activities start the descending sort: the `limit` most recent when 0 < limit < total, all for a missing, zero or large limit, all but the last −limit for a negative one; nothing hidden is more recent than anything shown; equal timestamps keep their order |

## Left out

- Network and I/O: HTTP authentication, the calendar request, the detail request
  and FIT download (`strydcmd/stryd_api.py`), console output, CSV/JSON export
  writers, `.env` loading and `argparse` itself. The detail fetch is an oracle.
  `get_activity_details` is called by `strydcmd/sync.py` but is not defined in
  `strydcmd/stryd_api.py`. It is modelled by the same oracle, with any falsy
  result (None or an empty dictionary) as `None`.
- SQLite itself: SQL text, cursors and indexes. The tables are the open
  connection's view of the data, as in-memory sequences.
- The database file and reopening an existing database: the constructor always
  starts from empty tables, so a run on a database that already holds rows is
  not expressible.
- `commit` and rollback: `save_activity` commits only at its end
  (`strydcmd/database.py:541`), and Python's `sqlite3` holds the earlier
  statements in an implicit transaction. When a zone insert raises, the model
  keeps that call's earlier inserts in the connection's view; `sync` then exits
  (`strydcmd/sync.py:275-277`) without committing, so a real run discards
  them. Transactions are not modelled.
- The FIT download loops of `main`: their I/O, progress output and the
  `success_count` / `fail_count` counters. Only the pure plan (`FitTargets`:
  which ids, in which order, under which names) is modelled.
- Wall-clock and local time: `datetime.now()`, `strptime`, `fromtimestamp` and
  `strftime` are inputs. Day bounds and cutoffs are whole seconds, which decides the
  same comparisons as the source's fractional bounds for integer timestamps.
- Floating point: the zone percentage is exact real arithmetic, and the km, minute
  and pace formatting of the printers is not modelled. Zone power bounds are taken
  as integers, without the `int()` truncation of floats.
- Text is ASCII: `lower()`/`upper()` change only ASCII letters, with no Unicode
  case mapping.
- Payload keys and listing-entry keys with the value JSON null are treated as
  missing. Python would raise on some of these values, and the model does not:
  - a null `zones` list raises a `TypeError`;
  - a null `name` in a calendar entry makes the FIT naming at
    `strydcmd/main.py:483` raise an `AttributeError`, where `Cli.FitFileName`
    uses `"Unnamed Activity"`;
  - a null `timestamp` raises in `fromtimestamp` (`strydcmd/sync.py:103-105`,
    `strydcmd/main.py:481`) and in the sorts (`strydcmd/sync.py:257`,
    `strydcmd/main.py:466`), where `Activity.Ts` uses 0.
- The 70 pass-through columns of the `activities` row are a map from key to value.
  The column order of the `INSERT` is not modelled.
- `activities.id` is an unbounded integer. The 64-bit rowid limit is not modelled.
- Store.StrydDatabase.Close: the source calls `conn.close()` but leaves `self.conn`
  set. The model marks the object as not connected, so it does not model a later
  use of the closed connection raising.
- Cli.DisplaySelectionSpec: follows the code for a negative `limit`, where
  `sorted[:limit]` drops the last `-limit` entries. The intent "show all otherwise"
  holds only for a missing, zero or large limit. Callers pass 20 or nothing.
- The date-path selection of `main` (`strydcmd/main.py:514-517`) is the same
  inclusive day filter as `Sync.FilterActivitiesByDate`. It is not modelled
  separately.
- Sync.SyncActivities: a `batch_size` of 0 makes `range` raise and is modelled as an
  abort. A negative `batch_size` processes nothing and reports zero counts.
