/** The sync engine (strydcmd/sync.py): the date-range filter, the batched
    per-item loop of `sync_activities` with its counters, and the selection
    that `main` hands to it (filtered, then sorted oldest first). */
module Sync {
  import opened Common
  import opened Activity
  import opened Store
  import opened Sorting

  // ---------------------------------------------------------------- filter

  /** The local-time conversions the filter needs, taken as inputs.
      `dayBounds(s)` is `strptime(s, "%Y%m%d")` turned into the first and the
      last whole second of that local day (`None` when `strptime` raises);
      `cutoffFor(days)` is the first whole second not before
      `now - timedelta(days=days)`. With integer timestamps, comparing with
      these whole seconds decides exactly what comparing with the source's
      fractional bounds decides. */
  datatype Clock = Clock(dayBounds: string -> Option<(int, int)>, cutoffFor: int -> int)

  /** `filter_activities_by_date(activities, days, date_str)` */
  function FilterActivitiesByDate(activities: seq<Summary>, days: Option<int>, dateStr: Option<string>, clock: Clock): (r: seq<Summary>)
    ensures |r| <= |activities|
  {
    if Truthy(dateStr) then
      match clock.dayBounds(dateStr.value)
      case None => []
      case Some(b) => Keep(activities, OnDay(b.0, b.1))
    else if days.Some? && days.value != 0 then
      Keep(activities, Since(clock.cutoffFor(days.value)))
    else activities
  }

  /** What the filter keeps, case by case: a truthy date wins over `days` and
      keeps the activities of that day (both bounds inclusive, a missing
      timestamp counting as 0); a date that does not parse gives nothing; a
      truthy `days` keeps the activities at or after the cutoff; with neither
      the input comes back unchanged. Each kept activity keeps its
      multiplicity, and everything comes back in input order. */
  lemma FilterByDateSpec(activities: seq<Summary>, days: Option<int>, dateStr: Option<string>, clock: Clock)
    ensures var r := FilterActivitiesByDate(activities, days, dateStr, clock);
            && Subseq(r, activities)
            && (Truthy(dateStr) && clock.dayBounds(dateStr.value).None? ==> r == [])
            && (Truthy(dateStr) && clock.dayBounds(dateStr.value).Some? ==>
                  var b := clock.dayBounds(dateStr.value).value;
                  forall a :: multiset(r)[a] == if b.0 <= Ts(a) <= b.1 then multiset(activities)[a] else 0)
            && (!Truthy(dateStr) && days.Some? && days.value != 0 ==>
                  var c := clock.cutoffFor(days.value);
                  forall a :: multiset(r)[a] == if Ts(a) >= c then multiset(activities)[a] else 0)
            && (!Truthy(dateStr) && (days.None? || days.value == 0) ==> r == activities)
  {
    var r := FilterActivitiesByDate(activities, days, dateStr, clock);
    if Truthy(dateStr) {
      match clock.dayBounds(dateStr.value)
      case None =>
        assert Subseq<Summary>([], activities);
      case Some(b) =>
        KeepSubseq(activities, OnDay(b.0, b.1));
        KeepCounts(activities, OnDay(b.0, b.1));
    } else if days.Some? && days.value != 0 {
      KeepSubseq(activities, Since(clock.cutoffFor(days.value)));
      KeepCounts(activities, Since(clock.cutoffFor(days.value)));
    } else {
      SubseqRefl(activities);
    }
  }

  lemma {:induction false} SubseqRefl<T>(s: seq<T>)
    ensures Subseq(s, s)
  {
    if s != [] {
      SubseqRefl(s[1..]);
    }
  }

  /** A truthy date makes `days` irrelevant. */
  lemma DateTakesPrecedence(activities: seq<Summary>, d1: Option<int>, d2: Option<int>, dateStr: Option<string>, clock: Clock)
    requires Truthy(dateStr)
    ensures FilterActivitiesByDate(activities, d1, dateStr, clock) == FilterActivitiesByDate(activities, d2, dateStr, clock)
  {
  }

  // ---------------------------------------------------------------- batches

  /** The `(batch_start, batch_end)` pairs of `for batch_start in range(start, total, size)`. */
  function BatchBounds(total: nat, size: nat, start: nat): (r: seq<(nat, nat)>)
    requires size > 0
    ensures forall j :: 0 <= j < |r| ==> start <= r[j].0 < r[j].1 <= total
    decreases total - start
  {
    if start >= total then []
    else [(start, if start + size < total then start + size else total)] + BatchBounds(total, size, start + size)
  }

  /** The indices `lo .. hi-1` in order (`range(lo, hi)`). */
  function Span(lo: nat, hi: nat): (r: seq<nat>)
    ensures |r| == if lo <= hi then hi - lo else 0
    ensures forall k :: 0 <= k < |r| ==> r[k] == lo + k
    decreases hi - lo
  {
    if lo >= hi then [] else [lo] + Span(lo + 1, hi)
  }

  /** The indices the inner loops visit, batch after batch. */
  function Visited(batches: seq<(nat, nat)>): seq<nat> {
    if batches == [] then [] else Span(batches[0].0, batches[0].1) + Visited(batches[1..])
  }

  /** The batches visit every index `start .. total-1` exactly once, in
      increasing order. */
  lemma {:induction false} BatchesCover(total: nat, size: nat, start: nat)
    requires size > 0 && start <= total
    ensures Visited(BatchBounds(total, size, start)) == Span(start, total)
    decreases total - start
  {
    if start < total {
      var end := if start + size < total then start + size else total;
      var rest := BatchBounds(total, size, start + size);
      assert BatchBounds(total, size, start)[1..] == rest;
      if start + size <= total {
        BatchesCover(total, size, start + size);
        assert Visited(rest) == Span(start + size, total);
      } else {
        assert rest == [];
      }
      assert Span(start, end) + Span(end, total) == Span(start, total);
    }
  }

  /** There are `ceil(total / size)` batches: the `total_batches` the
      source prints, `(total + batch_size - 1) // batch_size`. */
  lemma {:induction false} BatchCount(total: nat, size: nat, start: nat)
    requires size > 0 && start <= total
    ensures |BatchBounds(total, size, start)| == (total - start + size - 1) / size
    decreases total - start
  {
    if start < total {
      DivStep(total - start - 1, size);
      if start + size <= total {
        BatchCount(total, size, start + size);
        assert total - start - 1 + size == total - start + size - 1;
      } else {
        assert (total - start - 1) / size == 0;
      }
    }
  }

  /** Batch j starts at `start + j * size`, so its `batch_num` is `j + 1`. */
  lemma {:induction false} BatchStarts(total: nat, size: nat, start: nat)
    requires size > 0
    ensures forall j :: 0 <= j < |BatchBounds(total, size, start)| ==> BatchBounds(total, size, start)[j].0 == start + j * size
    decreases total - start
  {
    var b := BatchBounds(total, size, start);
    if start < total {
      var rest := BatchBounds(total, size, start + size);
      BatchStarts(total, size, start + size);
      assert b == [b[0]] + rest;
      forall j | 1 <= j < |b| ensures b[j].0 == start + j * size {
        assert b[j] == rest[j - 1];
        assert rest[j - 1].0 == start + size + (j - 1) * size;
        assert (j - 1) * size + size == j * size;
      }
    }
  }

  /** Every batch but the last holds exactly `size` indices, the last between
      1 and `size`. */
  lemma {:induction false} BatchSizes(total: nat, size: nat, start: nat)
    requires size > 0
    ensures var b := BatchBounds(total, size, start);
            && (forall j :: 0 <= j < |b| - 1 ==> b[j].1 - b[j].0 == size)
            && (b != [] ==> 0 < b[|b| - 1].1 - b[|b| - 1].0 <= size)
    decreases total - start
  {
    var b := BatchBounds(total, size, start);
    if start < total {
      var rest := BatchBounds(total, size, start + size);
      BatchSizes(total, size, start + size);
      forall j | 1 <= j < |b| - 1 ensures b[j].1 - b[j].0 == size {
        assert b[j] == rest[j - 1];
      }
      if rest != [] {
        assert b[|b| - 1] == rest[|rest| - 1];
      }
    }
  }

  lemma {:induction false} MulAtLeast(d: nat, k: nat)
    requires k >= 1
    ensures d * k >= d
  {
    if k > 1 {
      MulAtLeast(d, k - 1);
      assert d * k == d * (k - 1) + d;
    }
  }

  lemma MulBound(d: int, k: int)
    requires d >= 0
    ensures k >= 1 ==> d * k >= d
    ensures k <= -1 ==> d * k <= -d
  {
    if k >= 1 {
      MulAtLeast(d, k);
    } else if k <= -1 {
      MulAtLeast(d, -k);
      assert d * k == -(d * (-k));
    }
  }

  /** `(x + d) // d == x // d + 1` */
  lemma DivStep(x: nat, d: nat)
    requires d > 0
    ensures (x + d) / d == x / d + 1
  {
    var q, r := x / d, x % d;
    var q2, r2 := (x + d) / d, (x + d) % d;
    assert x == d * q + r && 0 <= r < d;
    assert x + d == d * q2 + r2 && 0 <= r2 < d;
    assert d * (q2 - q - 1) == r - r2 by {
      assert d * (q2 - q - 1) == d * q2 - d * q - d;
    }
    MulBound(d, q2 - q - 1);
  }

  // ---------------------------------------------------------------- per-item loop

  /** What `sync_activities` records for one calendar item. A raise from
      `save_activity` leaves the loop instead. */
  datatype Outcome = Skipped | FetchFailed | Saved | SaveFailed(message: string)

  /** The detail fetch and the clocks, taken as inputs: `fetch(id)` is
      `get_activity_details(id)` (`None` for any falsy result), `localDate`
      the local-time formatting used for the `date` column, `now(i)` the
      `synced_at` instant when item i is saved. */
  datatype Env = Env(fetch: Option<int> -> Option<Payload>, localDate: int -> string, now: nat -> int)

  /** State after some items: the tables as the connection sees them, one
      outcome per item handled, the ids whose details were fetched, and
      whether a save raised. */
  datatype RunState = RunState(tables: Tables, outcomes: seq<Outcome>, fetched: seq<Option<int>>, aborted: bool)

  /** One iteration of the inner loop, for item `i`. */
  function Step(st: RunState, item: Summary, i: nat, force: bool, env: Env): RunState {
    if Exists(st.tables, item.id) && !force then st.(outcomes := st.outcomes + [Skipped])
    else
      var st1 := st.(fetched := st.fetched + [item.id]);
      match env.fetch(item.id)
      case None => st1.(outcomes := st1.outcomes + [FetchFailed])
      case Some(p) =>
        var s := Save(st.tables, p, force, env.localDate, env.now(i));
        match s.0
        case Raised(_) => st1.(tables := s.1, aborted := true)
        case Returned(ok, m) => st1.(tables := s.1, outcomes := st1.outcomes + [if ok then Saved else SaveFailed(m)])
  }

  /** The first `n` items in index order, stopping at the first raise. */
  function RunItems(t: Tables, items: seq<Summary>, n: nat, force: bool, env: Env): RunState
    requires n <= |items|
    decreases n, 2
  {
    if n == 0 then RunState(t, [], [], false) else After(t, items, n - 1, force, env)
  }

  /** The state after item `k`: unchanged once a save has raised. */
  function After(t: Tables, items: seq<Summary>, k: nat, force: bool, env: Env): RunState
    requires k < |items|
    decreases k + 1, 1
  {
    if RunItems(t, items, k, force, env).aborted then RunItems(t, items, k, force, env)
    else Advance(t, items, k, force, env)
  }

  /** Item `k` handled from the state the items before it left. */
  function Advance(t: Tables, items: seq<Summary>, k: nat, force: bool, env: Env): RunState
    requires k < |items|
    decreases k + 1, 0
  {
    Step(RunItems(t, items, k, force, env), items[k], k, force, env)
  }

  /** One more item of an unaborted run is one more `Step`. */
  lemma RunItemsNext(t: Tables, items: seq<Summary>, i: nat, force: bool, env: Env)
    requires i < |items| && !RunItems(t, items, i, force, env).aborted
    ensures RunItems(t, items, i + 1, force, env) == Step(RunItems(t, items, i, force, env), items[i], i, force, env)
  {
    assert Advance(t, items, i, force, env) == Step(RunItems(t, items, i, force, env), items[i], i, force, env);
  }

  /** `synced_count`, `skipped_count`, `failed_count` */
  datatype Counters = Counters(synced: nat, skipped: nat, failed: nat)

  function Tally(os: seq<Outcome>): (c: Counters)
    ensures c.synced + c.skipped + c.failed == |os|
  {
    if os == [] then Counters(0, 0, 0)
    else
      var c := Tally(os[..|os| - 1]);
      match os[|os| - 1]
      case Saved => c.(synced := c.synced + 1)
      case Skipped => c.(skipped := c.skipped + 1)
      case _ => c.(failed := c.failed + 1)
  }

  datatype SyncError = InvalidBatchSize | SaveRaised(error: DbError)

  /** What `sync_activities` ends with: the three counters and the final
      `get_activity_count()`, or the exception that left it. */
  datatype SyncResult = Completed(counters: Counters, totalInDb: nat) | Aborted(error: SyncError)

  /** `sync_activities(api, db, activities, force, batch_size)` */
  function SyncSpec(t: Tables, items: seq<Summary>, force: bool, batchSize: int, env: Env): (SyncResult, RunState) {
    if batchSize == 0 then (Aborted(InvalidBatchSize), RunState(t, [], [], false))
    else if batchSize < 0 then (Completed(Counters(0, 0, 0), |t.activities|), RunState(t, [], [], false))
    else
      var st := RunItems(t, items, |items|, force, env);
      if st.aborted then (Aborted(SaveRaised(IntegrityError)), st)
      else (Completed(Tally(st.outcomes), |st.tables.activities|), st)
  }

  // ---------------------------------------------------------------- sync lemmas

  /** Once a save has raised, no later item is looked at. */
  lemma {:induction false} AbortSticks(t: Tables, items: seq<Summary>, k: nat, n: nat, force: bool, env: Env)
    requires k <= n <= |items| && RunItems(t, items, k, force, env).aborted
    ensures RunItems(t, items, n, force, env) == RunItems(t, items, k, force, env)
    decreases n - k
  {
    if k < n {
      AbortSticks(t, items, k, n - 1, force, env);
    }
  }

  /** Until a save raises, every item gets exactly one outcome, and it is
      fetched exactly when it is not skipped. */
  lemma {:induction false} OneOutcomePerItem(t: Tables, items: seq<Summary>, n: nat, force: bool, env: Env)
    requires n <= |items|
    ensures var st := RunItems(t, items, n, force, env);
            && (!st.aborted ==> |st.outcomes| == n && Tally(st.outcomes).skipped + |st.fetched| == n)
            && (st.aborted ==> |st.outcomes| < n)
  {
    if n > 0 {
      OneOutcomePerItem(t, items, n - 1, force, env);
      var prev := RunItems(t, items, n - 1, force, env);
      if !prev.aborted {
        RunItemsNext(t, items, n - 1, force, env);
        var st := Step(prev, items[n - 1], n - 1, force, env);
        var o := st.outcomes;
        if !st.aborted {
          assert o[..|o| - 1] == prev.outcomes;
        }
      }
    }
  }

  /** With `force` no item is skipped, and a save never reports failure. */
  lemma {:induction false} ForceNeverSkips(t: Tables, items: seq<Summary>, n: nat, env: Env)
    requires n <= |items|
    ensures forall i :: 0 <= i < |RunItems(t, items, n, true, env).outcomes| ==>
              RunItems(t, items, n, true, env).outcomes[i] != Skipped &&
              !RunItems(t, items, n, true, env).outcomes[i].SaveFailed?
  {
    if n > 0 {
      ForceNeverSkips(t, items, n - 1, env);
      var prev := RunItems(t, items, n - 1, true, env);
      var st := RunItems(t, items, n, true, env);
      if !prev.aborted {
        var item := items[n - 1];
        RunItemsNext(t, items, n - 1, true, env);
        match env.fetch(item.id)
        case None =>
          assert st.outcomes == prev.outcomes + [FetchFailed];
        case Some(p) =>
          var sv := Save(prev.tables, p, true, env.localDate, env.now(n - 1));
          assert sv.0.Raised? || sv.0 == Returned(true, SavedMessage);
          assert st.outcomes == prev.outcomes || st.outcomes == prev.outcomes + [Saved];
      }
      forall i | 0 <= i < |st.outcomes| ensures st.outcomes[i] != Skipped && !st.outcomes[i].SaveFailed? {
        if i < |prev.outcomes| {
          assert st.outcomes[i] == prev.outcomes[i];
        }
      }
    }
  }

  /** An item already stored, without `force`, is skipped: nothing is
      fetched, nothing saved, the tables stay as they were. A fetch that
      yields nothing counts as failed without calling `save_activity`. */
  lemma StepSpec(st: RunState, item: Summary, i: nat, force: bool, env: Env)
    requires !st.aborted
    ensures var s := Step(st, item, i, force, env);
            && (Exists(st.tables, item.id) && !force ==>
                  s == st.(outcomes := st.outcomes + [Skipped]))
            && (!(Exists(st.tables, item.id) && !force) && env.fetch(item.id).None? ==>
                  s == st.(outcomes := st.outcomes + [FetchFailed], fetched := st.fetched + [item.id]))
            && (!(Exists(st.tables, item.id) && !force) && env.fetch(item.id).Some? ==>
                  var sv := Save(st.tables, env.fetch(item.id).value, force, env.localDate, env.now(i));
                  && s.tables == sv.1
                  && s.fetched == st.fetched + [item.id]
                  && (sv.0.Raised? <==> s.aborted)
                  && (sv.0 == Returned(true, SavedMessage) ==> s.outcomes == st.outcomes + [Saved])
                  && (sv.0.Returned? && !sv.0.success ==> s.outcomes == st.outcomes + [SaveFailed(sv.0.message)]))
  {
  }

  /** Every reachable state of the loop keeps the store invariant, also after
      a raise. */
  lemma {:induction false} RunKeepsValid(t: Tables, items: seq<Summary>, n: nat, force: bool, env: Env)
    requires n <= |items| && TablesValid(t)
    ensures TablesValid(RunItems(t, items, n, force, env).tables)
  {
    if n > 0 {
      RunKeepsValid(t, items, n - 1, force, env);
      var prev := RunItems(t, items, n - 1, force, env);
      var item := items[n - 1];
      if !prev.aborted {
        RunItemsNext(t, items, n - 1, force, env);
      }
      if !prev.aborted && !(Exists(prev.tables, item.id) && !force) && env.fetch(item.id).Some? {
        SavePreservesValid(prev.tables, env.fetch(item.id).value, force, env.localDate, env.now(n - 1));
      }
    }
  }

  /** When the sync completes, the three counters add up to the number of
      items; a non-positive batch size processes nothing. */
  lemma CountersSumToTotal(t: Tables, items: seq<Summary>, force: bool, batchSize: int, env: Env)
    requires SyncSpec(t, items, force, batchSize, env).0.Completed?
    ensures var c := SyncSpec(t, items, force, batchSize, env).0.counters;
            c.synced + c.skipped + c.failed == if batchSize > 0 then |items| else 0
  {
    if batchSize > 0 {
      OneOutcomePerItem(t, items, |items|, force, env);
    }
  }

  // ---------------------------------------------------------------- the loop itself

  /** Counting one more outcome. */
  lemma {:induction false} TallyNext(os: seq<Outcome>, o: Outcome)
    ensures Tally(os + [o]) == match o
                               case Saved => Tally(os).(synced := Tally(os).synced + 1)
                               case Skipped => Tally(os).(skipped := Tally(os).skipped + 1)
                               case _ => Tally(os).(failed := Tally(os).failed + 1)
  {
    assert (os + [o])[..|os + [o]| - 1] == os;
  }

  /** The body of the inner loop for item `i`: `None` when `save_activity`
      raised. */
  method ProcessItem(db: StrydDatabase, ghost st: RunState, item: Summary, i: nat, force: bool, env: Env)
    returns (o: Option<Outcome>)
    requires db.connected && db.Valid() && db.Contents() == st.tables && !st.aborted
    modifies db
    ensures db.connected && db.Valid()
    ensures db.Contents() == Step(st, item, i, force, env).tables
    ensures o.None? <==> Step(st, item, i, force, env).aborted
    ensures o.Some? ==> Step(st, item, i, force, env).outcomes == st.outcomes + [o.value]
  {
    var found := db.ActivityExists(item.id);
    if found && !force {
      return Some(Skipped);
    }
    var details := env.fetch(item.id);
    if details.None? {
      return Some(FetchFailed);
    }
    var res := db.SaveActivity(details.value, force, env.localDate, env.now(i));
    match res
    case Raised(_) =>
      o := None;
    case Returned(success, message) =>
      o := Some(if success then Saved else SaveFailed(message));
  }

  /** Item `i` of the run, with the counters: `ProcessItem` read against
      `RunItems`. When the save raises, the run is over: the state is
      already the final one. */
  method RunItem(db: StrydDatabase, items: seq<Summary>, i: nat, force: bool, env: Env,
                 ghost t0: Tables, synced0: nat, skipped0: nat, failed0: nat)
    returns (synced: nat, skipped: nat, failed: nat, aborted: bool)
    requires i < |items|
    requires !RunItems(t0, items, i, force, env).aborted
    requires Counters(synced0, skipped0, failed0) == Tally(RunItems(t0, items, i, force, env).outcomes)
    requires db.connected && db.Valid() && db.Contents() == RunItems(t0, items, i, force, env).tables
    modifies db
    ensures db.connected && db.Valid()
    ensures aborted ==> RunItems(t0, items, |items|, force, env).aborted
    ensures aborted ==> db.Contents() == RunItems(t0, items, |items|, force, env).tables
    ensures !aborted ==> !RunItems(t0, items, i + 1, force, env).aborted
    ensures !aborted ==> db.Contents() == RunItems(t0, items, i + 1, force, env).tables
    ensures !aborted ==> Counters(synced, skipped, failed) == Tally(RunItems(t0, items, i + 1, force, env).outcomes)
  {
    ghost var st := RunItems(t0, items, i, force, env);
    RunItemsNext(t0, items, i, force, env);
    var o := ProcessItem(db, st, items[i], i, force, env);
    synced, skipped, failed, aborted := synced0, skipped0, failed0, o.None?;
    if o.None? {
      AbortSticks(t0, items, i + 1, |items|, force, env);
    } else {
      TallyNext(st.outcomes, o.value);
      match o.value {
        case Saved => synced := synced + 1;
        case Skipped => skipped := skipped + 1;
        case _ => failed := failed + 1;
      }
    }
  }

  /** `for i in range(batch_start, batch_end)`: the items of one batch,
      carrying the three counters; `aborted` when a save raised. */
  method RunBatch(db: StrydDatabase, items: seq<Summary>, lo: nat, hi: nat, force: bool, env: Env,
                  ghost t0: Tables, synced0: nat, skipped0: nat, failed0: nat)
    returns (synced: nat, skipped: nat, failed: nat, aborted: bool)
    requires lo <= hi <= |items|
    requires !RunItems(t0, items, lo, force, env).aborted
    requires Counters(synced0, skipped0, failed0) == Tally(RunItems(t0, items, lo, force, env).outcomes)
    requires db.connected && db.Valid() && db.Contents() == RunItems(t0, items, lo, force, env).tables
    modifies db
    ensures db.connected && db.Valid()
    ensures aborted ==> RunItems(t0, items, |items|, force, env).aborted
    ensures aborted ==> db.Contents() == RunItems(t0, items, |items|, force, env).tables
    ensures !aborted ==> !RunItems(t0, items, hi, force, env).aborted
    ensures !aborted ==> db.Contents() == RunItems(t0, items, hi, force, env).tables
    ensures !aborted ==> Counters(synced, skipped, failed) == Tally(RunItems(t0, items, hi, force, env).outcomes)
  {
    synced, skipped, failed := synced0, skipped0, failed0;
    for i := lo to hi
      invariant !RunItems(t0, items, i, force, env).aborted
      invariant db.connected && db.Valid() && db.Contents() == RunItems(t0, items, i, force, env).tables
      invariant Counters(synced, skipped, failed) == Tally(RunItems(t0, items, i, force, env).outcomes)
    {
      synced, skipped, failed, aborted := RunItem(db, items, i, force, env, t0, synced, skipped, failed);
      if aborted {
        return;
      }
    }
    aborted := false;
  }

  /** `for batch_start in range(0, total, batch_size)`: the batches in order,
      each run to its end unless a save raised. */
  method RunBatches(db: StrydDatabase, items: seq<Summary>, force: bool, batchSize: nat, env: Env, ghost t0: Tables)
    returns (synced: nat, skipped: nat, failed: nat, aborted: bool, ghost batches: seq<(nat, nat)>)
    requires batchSize > 0
    requires db.connected && db.Valid() && db.Contents() == t0
    modifies db
    ensures db.connected && db.Valid()
    ensures aborted == RunItems(t0, items, |items|, force, env).aborted
    ensures db.Contents() == RunItems(t0, items, |items|, force, env).tables
    ensures !aborted ==> Counters(synced, skipped, failed) == Tally(RunItems(t0, items, |items|, force, env).outcomes)
    ensures !aborted ==> batches == BatchBounds(|items|, batchSize, 0)
  {
    var total := |items|;
    synced, skipped, failed, aborted := 0, 0, 0, false;
    batches := [];
    var batchStart := 0;
    ghost var done := 0;
    while batchStart < total
      invariant done == if batchStart < total then batchStart else total
      invariant BatchBounds(total, batchSize, 0) == batches + BatchBounds(total, batchSize, batchStart)
      invariant !RunItems(t0, items, done, force, env).aborted
      invariant db.connected && db.Valid() && db.Contents() == RunItems(t0, items, done, force, env).tables
      invariant Counters(synced, skipped, failed) == Tally(RunItems(t0, items, done, force, env).outcomes)
      decreases total - batchStart
    {
      var batchEnd := if batchStart + batchSize < total then batchStart + batchSize else total;
      synced, skipped, failed, aborted := RunBatch(db, items, batchStart, batchEnd, force, env, t0, synced, skipped, failed);
      if aborted {
        return;
      }
      ghost var rest := BatchBounds(total, batchSize, batchStart + batchSize);
      assert BatchBounds(total, batchSize, batchStart) == [(batchStart, batchEnd)] + rest;
      assert batches + ([(batchStart, batchEnd)] + rest) == (batches + [(batchStart, batchEnd)]) + rest;
      batches := batches + [(batchStart, batchEnd)];
      batchStart := batchStart + batchSize;
      done := batchEnd;
    }
    assert batches + [] == batches;
  }

  /** `sync_activities` over the store object: the batch-size checks, the
      batches, and the final count. */
  method SyncActivities(db: StrydDatabase, items: seq<Summary>, force: bool, batchSize: int, env: Env)
    returns (r: SyncResult, ghost batches: seq<(nat, nat)>)
    requires db.connected && db.Valid()
    modifies db
    ensures db.connected && db.Valid()
    ensures r == SyncSpec(old(db.Contents()), items, force, batchSize, env).0
    ensures db.Contents() == SyncSpec(old(db.Contents()), items, force, batchSize, env).1.tables
    ensures batchSize > 0 && r.Completed? ==> batches == BatchBounds(|items|, batchSize, 0)
  {
    batches := [];
    if batchSize == 0 {
      return Aborted(InvalidBatchSize), batches;
    }
    var synced, skipped, failed := 0, 0, 0;
    if batchSize > 0 {
      var aborted;
      synced, skipped, failed, aborted, batches := RunBatches(db, items, force, batchSize, env, db.Contents());
      if aborted {
        return Aborted(SaveRaised(IntegrityError)), batches;
      }
    }
    var count := db.GetActivityCount();
    r := Completed(Counters(synced, skipped, failed), count);
  }

  // ---------------------------------------------------------------- main

  datatype SelectionError = ConflictingOptions | NoActivities | NoMatches

  /** What `main` of strydsync passes to `sync_activities`, given the
      command-line `days` (default 30) and `--date`, and the calendar
      listing: the `-d` / days conflict check, the empty checks, and the sort
      by `timestamp`, oldest first. */
  function SyncSelection(all: seq<Summary>, days: int, date: Option<string>, clock: Clock): Result<seq<Summary>, SelectionError> {
    if Truthy(date) && days != 30 then Err(ConflictingOptions)
    else if all == [] then Err(NoActivities)
    else
      var f := FilterActivitiesByDate(all, if Truthy(date) then None else Some(days), date, clock);
      if f == [] then Err(NoMatches) else Ok(SortBy(f, Ts))
  }

  /** The selection is the filtered listing, non-empty, sorted oldest first,
      with activities of equal timestamp in their calendar order. */
  lemma SyncSelectionSpec(all: seq<Summary>, days: int, date: Option<string>, clock: Clock)
    requires SyncSelection(all, days, date, clock).Ok?
    ensures var s := SyncSelection(all, days, date, clock).value;
            var f := FilterActivitiesByDate(all, if Truthy(date) then None else Some(days), date, clock);
            && s != []
            && SortedBy(s, Ts)
            && multiset(s) == multiset(f)
            && (forall k :: Keep(s, KeyIs(Ts, k)) == Keep(f, KeyIs(Ts, k)))
  {
    var f := FilterActivitiesByDate(all, if Truthy(date) then None else Some(days), date, clock);
    SortBySorted(f, Ts);
    SortByCounts(f, Ts);
    forall k ensures Keep(SortBy(f, Ts), KeyIs(Ts, k)) == Keep(f, KeyIs(Ts, k)) {
      SortByStable(f, Ts, k);
    }
  }
}
