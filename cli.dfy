/** The decisions that `main` of strydcmd/main.py takes before and after it
    talks to the service: how the `-e` arguments resolve to a format and a
    file name, which option combinations it refuses, the `-g` time and tag
    filters, the FIT file names, and which activities `print_activities`
    shows. Text is ASCII: `lower()` and `upper()` change only `A`-`Z` and
    `a`-`z`. */
module Cli {
  import opened Common
  import opened Activity
  import opened Sorting

  // ---------------------------------------------------------------- ASCII text

  function LowerChar(c: char): char {
    if 'A' <= c <= 'Z' then (c as int + 32) as char else c
  }

  function UpperChar(c: char): char {
    if 'a' <= c <= 'z' then (c as int - 32) as char else c
  }

  /** `s.lower()` */
  function Lower(s: string): (r: string)
    ensures |r| == |s|
  {
    seq(|s|, i requires 0 <= i < |s| => LowerChar(s[i]))
  }

  /** `s.upper()` */
  function Upper(s: string): (r: string)
    ensures |r| == |s|
  {
    seq(|s|, i requires 0 <= i < |s| => UpperChar(s[i]))
  }

  /** `s.endswith(suffix)` */
  predicate EndsWith(s: string, suffix: string) {
    |suffix| <= |s| && s[|s| - |suffix|..] == suffix
  }

  lemma LowerAppend(a: string, b: string)
    ensures Lower(a + b) == Lower(a) + Lower(b)
  {
    assert forall i :: 0 <= i < |a + b| ==> Lower(a + b)[i] == (Lower(a) + Lower(b))[i];
  }

  // ---------------------------------------------------------------- -e / --export

  datatype ExportFormat = CSV | JSON

  /** `.csv` / `.json`: the extension `f'.{export_format.lower()}'`. */
  function Ext(f: ExportFormat): string {
    match f
    case CSV => ".csv"
    case JSON => ".json"
  }

  /** `arg.upper() in ['CSV', 'JSON']`, and which of the two. */
  function ParseFormat(arg: string): (r: Option<ExportFormat>)
    ensures r == Some(CSV) <==> Upper(arg) == "CSV"
    ensures r == Some(JSON) <==> Upper(arg) == "JSON"
    ensures r.None? <==> Upper(arg) != "CSV" && Upper(arg) != "JSON"
  {
    var u := Upper(arg);
    if u == "CSV" then Some(CSV) else if u == "JSON" then Some(JSON) else None
  }

  datatype Export = Export(format: ExportFormat, filename: string)

  /** The `parser.error` calls of `main`, in the order they are tried. */
  datatype CliError =
    | BadExportFormat        // two export arguments, the first neither CSV nor JSON
    | TooManyExportArgs      // three or more export arguments
    | ExportNeedsSelection   // -e without -g or -d
    | GetWithDate            // -g together with -d
    | TagNeedsGet            // -t without -g
    | FitNeedsSelection      // -f without -g or -d
    | BadDate                // -d that is not YYYYMMDD

  /** The `-e` argument list (`nargs='*'`) resolved to a format and a file name. */
  function ResolveExport(args: seq<string>): Result<Export, CliError> {
    if |args| == 0 then Ok(Export(CSV, "stryd_export.csv"))
    else if |args| == 1 then
      match ParseFormat(args[0])
      case Some(f) => Ok(Export(f, "stryd_export" + Ext(f)))
      case None =>
        var name := args[0];
        if EndsWith(Lower(name), ".json") then Ok(Export(JSON, name))
        else if EndsWith(Lower(name), ".csv") then Ok(Export(CSV, name))
        else Ok(Export(CSV, name + ".csv"))
    else if |args| == 2 then
      match ParseFormat(args[0])
      case None => Err(BadExportFormat)
      case Some(f) =>
        var name := args[1];
        Ok(Export(f, if EndsWith(Lower(name), Ext(f)) then name else name + Ext(f)))
    else Err(TooManyExportArgs)
  }

  /** An extension is lower case, so appending it makes the name end with it
      ignoring case. */
  lemma AppendExt(name: string, f: ExportFormat)
    ensures EndsWith(Lower(name + Ext(f)), Ext(f))
  {
    LowerAppend(name, Ext(f));
    assert Lower(Ext(f)) == Ext(f);
    var l := Lower(name + Ext(f));
    assert l[|l| - |Ext(f)|..] == Lower(Ext(f));
  }

  /** Which argument lists are accepted: at most one argument, or two whose
      first is CSV or JSON ignoring case. */
  lemma ExportAccepted(args: seq<string>)
    ensures ResolveExport(args).Ok? <==>
              |args| <= 1 || (|args| == 2 && (Upper(args[0]) == "CSV" || Upper(args[0]) == "JSON"))
    ensures ResolveExport(args) == Err(BadExportFormat) <==>
              |args| == 2 && Upper(args[0]) != "CSV" && Upper(args[0]) != "JSON"
    ensures ResolveExport(args) == Err(TooManyExportArgs) <==> |args| > 2
  {
  }

  /** Whatever is accepted names a file that ends, ignoring case, with the
      extension of the chosen format. */
  lemma ExportHasExtension(args: seq<string>)
    requires ResolveExport(args).Ok?
    ensures var e := ResolveExport(args).value;
            EndsWith(Lower(e.filename), Ext(e.format)) && |e.filename| >= |Ext(e.format)|
  {
    var e := ResolveExport(args).value;
    if |args| == 0 {
      assert Lower(e.filename) == e.filename;
    } else if |args| == 1 && ParseFormat(args[0]).Some? {
      AppendExt("stryd_export", e.format);
    } else if |args| == 1 {
      var name := args[0];
      if !EndsWith(Lower(name), ".json") && !EndsWith(Lower(name), ".csv") {
        AppendExt(name, CSV);
      }
    } else {
      var name := args[1];
      if !EndsWith(Lower(name), Ext(e.format)) {
        AppendExt(name, e.format);
      }
    }
  }

  /** The four single-argument and empty cases as the help text describes them. */
  lemma ExportCases(args: seq<string>)
    ensures |args| == 0 ==> ResolveExport(args) == Ok(Export(CSV, "stryd_export.csv"))
    ensures |args| == 1 && Upper(args[0]) == "CSV" ==> ResolveExport(args) == Ok(Export(CSV, "stryd_export.csv"))
    ensures |args| == 1 && Upper(args[0]) == "JSON" ==> ResolveExport(args) == Ok(Export(JSON, "stryd_export.json"))
    ensures |args| == 1 && Upper(args[0]) != "CSV" && Upper(args[0]) != "JSON" ==>
              if EndsWith(Lower(args[0]), ".json") then ResolveExport(args) == Ok(Export(JSON, args[0]))
              else if EndsWith(Lower(args[0]), ".csv") then ResolveExport(args) == Ok(Export(CSV, args[0]))
              else ResolveExport(args) == Ok(Export(CSV, args[0] + ".csv"))
  {
    assert "stryd_export" + Ext(CSV) == "stryd_export.csv";
    assert "stryd_export" + Ext(JSON) == "stryd_export.json";
  }

  /** A name ending in `.csv` or `.json` is not itself a format word. */
  lemma DottedNameIsNoFormat(name: string, f: ExportFormat)
    requires EndsWith(Lower(name), Ext(f))
    ensures ParseFormat(name).None?
  {
    var k := |name| - |Ext(f)|;
    assert Lower(name)[k] == '.';
    assert Upper(name)[k] == '.';
  }

  /** Resolving is a fixed point: giving the resolved file name back as the
      only argument resolves to the same format and name. */
  lemma ExportFixpoint(args: seq<string>)
    requires ResolveExport(args).Ok?
    ensures ResolveExport([ResolveExport(args).value.filename]) == ResolveExport(args)
  {
    var e := ResolveExport(args).value;
    ExportHasExtension(args);
    DottedNameIsNoFormat(e.filename, e.format);
    if e.format == CSV {
      CsvIsNotJson(Lower(e.filename));
    }
  }

  /** A name ending in `.csv` does not end in `.json`. */
  lemma CsvIsNotJson(l: string)
    requires EndsWith(l, ".csv")
    ensures !EndsWith(l, ".json")
  {
    if |l| >= 5 {
      assert l[|l| - 5..][1..] == l[|l| - 4..];
    }
  }

  // ---------------------------------------------------------------- option checks

  /** The parsed command line: `-g` (`None` when absent; a bare `-g` is 30),
      `-d`, `-t`, `-f` and `-e` (`None` when absent). */
  datatype Options = Options(get: Option<int>, date: Option<string>, tag: Option<string>,
                             fit: bool, exportArgs: Option<seq<string>>)

  /** The checks of `main` in the order it makes them, ending with the date
      format check (`isDate` stands for `strptime(date, "%Y%m%d")` succeeding).
      The result is the resolved export, if `-e` was given. */
  function CheckOptions(o: Options, isDate: string -> bool): (r: Result<Option<Export>, CliError>)
    ensures r.Ok? ==> (r.value.Some? <==> o.exportArgs.Some?)
    ensures r.Ok? && o.exportArgs.Some? ==>
              ResolveExport(o.exportArgs.value).Ok? && r.value == Some(ResolveExport(o.exportArgs.value).value)
  {
    var e := if o.exportArgs.Some? then ResolveExport(o.exportArgs.value) else Ok(Export(CSV, ""));
    if e.Err? then Err(e.error)
    else if o.exportArgs.Some? && o.get.None? && !Truthy(o.date) then Err(ExportNeedsSelection)
    else if o.get.Some? && Truthy(o.date) then Err(GetWithDate)
    else if Truthy(o.tag) && o.get.None? then Err(TagNeedsGet)
    else if o.fit && o.get.None? && !Truthy(o.date) then Err(FitNeedsSelection)
    else if Truthy(o.date) && !isDate(o.date.value) then Err(BadDate)
    else Ok(if o.exportArgs.Some? then Some(e.value) else None)
  }

  /** The command lines `main` goes on with, stated rule by rule. */
  ghost predicate Admissible(o: Options, isDate: string -> bool) {
    && (o.exportArgs.Some? ==> ResolveExport(o.exportArgs.value).Ok?)
    && !(o.get.Some? && Truthy(o.date))
    && (o.exportArgs.Some? || o.fit ==> o.get.Some? || Truthy(o.date))
    && (Truthy(o.tag) ==> o.get.Some?)
    && (Truthy(o.date) ==> isDate(o.date.value))
  }

  /** `main` goes on exactly with the admissible command lines. */
  lemma CheckOptionsOkIff(o: Options, isDate: string -> bool)
    ensures CheckOptions(o, isDate).Ok? <==> Admissible(o, isDate)
  {
  }

  /** A command line breaking more than one rule is refused for the rule
      checked first: a bad `-e` list is reported before anything else, and
      once `-e` resolves, `-g` with `-d` is reported as `GetWithDate`. */
  lemma CheckOptionsOrder(o: Options, isDate: string -> bool)
    ensures o.exportArgs.Some? && ResolveExport(o.exportArgs.value).Err? ==>
              CheckOptions(o, isDate) == Err(ResolveExport(o.exportArgs.value).error)
    ensures o.exportArgs.Some? && ResolveExport(o.exportArgs.value).Ok? && o.get.Some? && Truthy(o.date) ==>
              CheckOptions(o, isDate) == Err(GetWithDate)
    ensures o.exportArgs.None? && o.get.Some? && Truthy(o.date) ==> CheckOptions(o, isDate) == Err(GetWithDate)
  {
  }

  // ---------------------------------------------------------------- -g selection

  /** `args.tag in (a.get('tags') or [])` */
  function HasTag(tag: string): Summary -> bool {
    (a: Summary) => tag in a.tags.GetOr([])
  }

  /** `[a for a in activities if args.tag in (a.get('tags') or [])]` */
  function FilterByTag(activities: seq<Summary>, tag: string): seq<Summary> {
    Keep(activities, HasTag(tag))
  }

  /** The tag filter keeps, in order and with their multiplicity, exactly the
      activities whose tag list holds the tag itself; an activity without
      tags is never kept. */
  lemma FilterByTagSpec(activities: seq<Summary>, tag: string)
    ensures var r := FilterByTag(activities, tag);
            && Subseq(r, activities)
            && (forall a :: multiset(r)[a] == if a.tags.Some? && tag in a.tags.value then multiset(activities)[a] else 0)
            && (forall i :: 0 <= i < |r| ==> r[i].tags.Some? && tag in r[i].tags.value)
  {
    KeepSubseq(activities, HasTag(tag));
    KeepCounts(activities, HasTag(tag));
    KeepSatisfies(activities, HasTag(tag));
  }

  /** The `-g` branch: the activities at or after the cutoff (a missing
      timestamp counting as 0), then, for a truthy `-t`, those with the tag. */
  function GetSelection(all: seq<Summary>, cutoff: int, tag: Option<string>): seq<Summary> {
    var recent := Keep(all, Since(cutoff));
    if Truthy(tag) then FilterByTag(recent, tag.value) else recent
  }

  /** One pass with both conditions selects the same activities in the same order. */
  lemma GetSelectionSpec(all: seq<Summary>, cutoff: int, tag: Option<string>)
    ensures Truthy(tag) ==>
              GetSelection(all, cutoff, tag) == Keep(all, (a: Summary) => Ts(a) >= cutoff && tag.value in a.tags.GetOr([]))
    ensures !Truthy(tag) ==> GetSelection(all, cutoff, tag) == Keep(all, Since(cutoff))
  {
    if Truthy(tag) {
      KeepKeep(all, Since(cutoff), HasTag(tag.value), (a: Summary) => Ts(a) >= cutoff && tag.value in a.tags.GetOr([]));
    }
  }

  // ---------------------------------------------------------------- FIT file names

  /** The characters `[a-z0-9_-]` that `re.sub(r'[^a-z0-9_-]', '', ...)` keeps. */
  predicate Allowed(c: char) {
    ('a' <= c <= 'z') || ('0' <= c <= '9') || c == '_' || c == '-'
  }

  /** `s.replace(a, b)` for single characters. */
  function Replace(s: string, a: char, b: char): (r: string)
    ensures |r| == |s|
  {
    seq(|s|, i requires 0 <= i < |s| => if s[i] == a then b else s[i])
  }

  /** `re.sub(r'[^a-z0-9_-]', '', name.lower().replace(' ', '_').replace('/', '_'))` */
  function CleanName(name: string): string {
    Keep(Replace(Replace(Lower(name), ' ', '_'), '/', '_'), Allowed)
  }

  /** What one input character becomes: its lower case, with space and `/`
      turned into `_`, or nothing when that is not an allowed character. */
  function CleanChar(c: char): seq<char> {
    var d := if c == ' ' || c == '/' then '_' else LowerChar(c);
    if Allowed(d) then [d] else []
  }

  /** The clean name written character by character. */
  function CleanNameRef(name: string): string {
    if name == [] then [] else CleanChar(name[0]) + CleanNameRef(name[1..])
  }

  /** The case change and both replacements, before filtering. */
  function Normalized(name: string): string {
    Replace(Replace(Lower(name), ' ', '_'), '/', '_')
  }

  lemma NormalizedCons(name: string)
    requires name != []
    ensures Normalized(name) == Normalized(name[..1]) + Normalized(name[1..])
  {
    var n := Normalized(name);
    assert forall i :: 0 <= i < |n| ==> n[i] == (Normalized(name[..1]) + Normalized(name[1..]))[i];
  }

  /** The clean name is the character-by-character reference: each character
      is lowered, space and `/` become `_`, and everything outside
      `[a-z0-9_-]` is dropped. */
  lemma {:induction false} CleanNameIsRef(name: string)
    ensures CleanName(name) == CleanNameRef(name)
  {
    if name != [] {
      CleanNameIsRef(name[1..]);
      NormalizedCons(name);
      KeepAppend(Normalized(name[..1]), Normalized(name[1..]), Allowed);
      assert Normalized(name[..1]) == [Normalized(name[..1])[0]];
      assert Keep(Normalized(name[..1]), Allowed) == CleanChar(name[0]);
    }
  }

  /** Every character of a clean name is one of `[a-z0-9_-]`. */
  lemma CleanNameAllowed(name: string)
    ensures forall i :: 0 <= i < |CleanName(name)| ==> Allowed(CleanName(name)[i])
  {
    KeepSatisfies(Normalized(name), Allowed);
  }

  /** A clean name is its own clean name. */
  lemma CleanNameIdempotent(name: string)
    ensures CleanName(CleanName(name)) == CleanName(name)
  {
    var c := CleanName(name);
    CleanNameAllowed(name);
    assert Normalized(c) == c;
    KeepAll(c, Allowed);
  }

  /** `f"{date_str}_{clean_name}"` with the name defaulting to `Unnamed Activity`. */
  function FitFileName(dateStr: string, name: Option<string>): (r: string)
  {
    dateStr + "_" + CleanName(name.GetOr("Unnamed Activity"))
  }

  /** The file name is the date, an underscore, and only `[a-z0-9_-]` after
      them; with no name the clean name is `unnamed_activity`. */
  lemma FitFileNameSpec(dateStr: string, name: Option<string>)
    ensures var r := FitFileName(dateStr, name);
            && r[..|dateStr| + 1] == dateStr + "_"
            && (forall i :: |dateStr| + 1 <= i < |r| ==> Allowed(r[i]))
            && (name.None? ==> r == dateStr + "_" + "unnamed_activity")
  {
    var n := name.GetOr("Unnamed Activity");
    CleanNameAllowed(n);
    Prefixed(dateStr, CleanName(n));
    if name.None? {
      UnnamedActivity();
    }
  }

  lemma Prefixed(d: string, c: string)
    requires forall i :: 0 <= i < |c| ==> Allowed(c[i])
    ensures (d + "_" + c)[..|d| + 1] == d + "_"
    ensures forall i :: |d| + 1 <= i < |d + "_" + c| ==> Allowed((d + "_" + c)[i])
  {
    var r := d + "_" + c;
    assert forall i :: |d| + 1 <= i < |r| ==> r[i] == c[i - |d| - 1];
  }

  /** The default name cleans to `unnamed_activity`. */
  lemma UnnamedActivity()
    ensures CleanName("Unnamed Activity") == "unnamed_activity"
  {
    var n := Normalized("Unnamed Activity");
    assert n == "unnamed_activity" by {
      assert forall i :: 0 <= i < |n| ==> n[i] == "unnamed_activity"[i];
    }
    assert forall i :: 0 <= i < |n| ==> Allowed(n[i]);
    KeepAll(n, Allowed);
  }

  /** `if not activity_id: continue`: a missing or zero id is skipped. */
  function HasFitId(a: Summary): bool {
    a.id.Some? && a.id.value != 0
  }

  /** The `(activity id, file name)` pairs the download loops ask for, most
      recent first; `dateOf` stands for `fromtimestamp(t).strftime("%Y%m%d")`. */
  function FitTargets(activities: seq<Summary>, dateOf: int -> string): (r: seq<(int, string)>)
  {
    var todo := Keep(SortBy(activities, NegTs), HasFitId);
    seq(|todo|, i requires 0 <= i < |todo| => (todo[i].id.GetOr(0), FitFileName(dateOf(Ts(todo[i])), todo[i].name)))
  }

  /** One download per activity with a truthy id, in descending timestamp
      order, each under the file name built from that activity. */
  lemma FitTargetsSpec(activities: seq<Summary>, dateOf: int -> string)
    ensures var r := FitTargets(activities, dateOf);
            var todo := Keep(SortBy(activities, NegTs), HasFitId);
            && |r| == |todo|
            && (forall a :: multiset(todo)[a] == if HasFitId(a) then multiset(activities)[a] else 0)
            && (forall i, j :: 0 <= i < j < |todo| ==> Ts(todo[i]) >= Ts(todo[j]))
            && (forall i :: 0 <= i < |r| ==>
                  todo[i].id == Some(r[i].0) && r[i].0 != 0 &&
                  r[i].1 == FitFileName(dateOf(Ts(todo[i])), todo[i].name))
  {
    var sorted := SortBy(activities, NegTs);
    var todo := Keep(sorted, HasFitId);
    SortBySorted(activities, NegTs);
    SortByCounts(activities, NegTs);
    KeepCounts(sorted, HasFitId);
    KeepSatisfies(sorted, HasFitId);
    KeepSubseq(sorted, HasFitId);
    SubseqSorted(todo, sorted);
  }

  /** A subsequence of a descending sequence is descending. */
  lemma {:induction false} SubseqSorted(r: seq<Summary>, s: seq<Summary>)
    requires Subseq(r, s) && SortedBy(s, NegTs)
    ensures forall i, j :: 0 <= i < j < |r| ==> Ts(r[i]) >= Ts(r[j])
    decreases |s|
  {
    if r != [] {
      assert SortedBy(s[1..], NegTs) by {
        forall i, j | 0 <= i < j < |s[1..]| ensures NegTs(s[1..][i]) <= NegTs(s[1..][j]) {
          assert s[1..][i] == s[i + 1] && s[1..][j] == s[j + 1];
        }
      }
      if r[0] == s[0] && Subseq(r[1..], s[1..]) {
        SubseqSorted(r[1..], s[1..]);
        SubseqMembers(r[1..], s[1..]);
        forall j | 0 < j < |r| ensures Ts(r[0]) >= Ts(r[j]) {
          assert r[j] == r[1..][j - 1];
          var m :| 0 <= m < |s[1..]| && s[1..][m] == r[j];
          assert s[1..][m] == s[m + 1];
        }
        forall i, j | 0 < i < j < |r| ensures Ts(r[i]) >= Ts(r[j]) {
          assert r[i] == r[1..][i - 1] && r[j] == r[1..][j - 1];
        }
      } else {
        SubseqSorted(r, s[1..]);
      }
    }
  }

  /** Every element of a subsequence occurs in the sequence. */
  lemma {:induction false} SubseqMembers<T>(r: seq<T>, s: seq<T>)
    requires Subseq(r, s)
    ensures forall i :: 0 <= i < |r| ==> exists m :: 0 <= m < |s| && s[m] == r[i]
    decreases |s|
  {
    if r != [] {
      if r[0] == s[0] && Subseq(r[1..], s[1..]) {
        SubseqMembers(r[1..], s[1..]);
        forall i | 0 < i < |r| ensures exists m :: 0 <= m < |s| && s[m] == r[i] {
          assert r[i] == r[1..][i - 1];
          var m :| 0 <= m < |s[1..]| && s[1..][m] == r[i];
          assert s[m + 1] == r[i];
        }
        assert s[0] == r[0];
      } else {
        SubseqMembers(r, s[1..]);
        forall i | 0 <= i < |r| ensures exists m :: 0 <= m < |s| && s[m] == r[i] {
          var m :| 0 <= m < |s[1..]| && s[1..][m] == r[i];
          assert s[m + 1] == r[i];
        }
      }
    }
  }

  // ---------------------------------------------------------------- print_activities

  /** Python's `s[:n]`: a negative `n` drops the last `-n` elements. */
  function Take<T>(s: seq<T>, n: int): (r: seq<T>)
    ensures |r| == if n >= 0 then (if n < |s| then n else |s|) else (if |s| + n > 0 then |s| + n else 0)
    ensures r == s[..|r|]
  {
    if n >= 0 then (if n < |s| then s[..n] else s)
    else if |s| + n > 0 then s[..|s| + n] else []
  }

  /** The activities `print_activities(activities, limit)` shows, in the
      order it shows them: sorted by timestamp, most recent first, cut to
      `[:limit]` when `limit` is truthy and below the total. */
  function DisplaySelection(activities: seq<Summary>, limit: Option<int>): seq<Summary> {
    var sorted := SortBy(activities, NegTs);
    if limit.Some? && limit.value != 0 && limit.value < |sorted| then Take(sorted, limit.value)
    else sorted
  }

  /** What is shown is the start of the descending sort: the `limit` most
      recent activities when `0 < limit < total`, all of them when `limit` is
      missing, zero or at least the total, and all but the last `-limit` when
      `limit` is negative. Nothing left out is more recent than anything
      shown, and equal timestamps keep their input order. */
  lemma DisplaySelectionSpec(activities: seq<Summary>, limit: Option<int>, k: int)
    ensures var r := DisplaySelection(activities, limit);
            var sorted := SortBy(activities, NegTs);
            var total := |activities|;
            && r == sorted[..|r|]
            && |r| == (if limit.Some? && 0 < limit.value < total then limit.value
                       else if limit.Some? && limit.value < 0 then (if total + limit.value > 0 then total + limit.value else 0)
                       else total)
            && multiset(sorted) == multiset(activities)
            && (forall i, j :: 0 <= i < j < |r| ==> Ts(r[i]) >= Ts(r[j]))
            && (forall i, j :: 0 <= i < |r| <= j < total ==> Ts(sorted[j]) <= Ts(r[i]))
            && Keep(sorted, KeyIs(NegTs, k)) == Keep(activities, KeyIs(NegTs, k))
  {
    SortBySorted(activities, NegTs);
    SortByCounts(activities, NegTs);
    SortByStable(activities, NegTs, k);
  }
}
