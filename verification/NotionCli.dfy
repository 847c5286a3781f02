/**
 * The unified command-line wrapper (notion_cli.py): configuration check,
 * the docker-compose command plans of `scan`, `export` and `full`, the export
 * metadata file with its bounded history, `status` and the `clean` guard.
 *
 * The environment is a map; docker-compose is a parameter saying whether a
 * compose sub-command succeeds; the clock is the `now` timestamp passed in.
 */
module NotionCli {
  import opened Common
  import opened Text

  // ------------------------------------------------------------ configuration

  /** `os.getenv(key)` used as a condition: set and non-empty. */
  predicate IsSet(env: map<string, string>, key: string) {
    key in env && env[key] != ""
  }

  datatype ConfigCheck = ConfigOk | MissingToken | MissingPageId

  /**
   * `check_config`: the token is looked at first; the page id may come from
   * `NOTION_PAGE_ID` or, failing that, from `NOTION_PAGE_IDS`.
   */
  function CheckConfig(env: map<string, string>): (r: ConfigCheck)
    ensures r == ConfigOk <==>
      IsSet(env, "NOTION_TOKEN") && (IsSet(env, "NOTION_PAGE_ID") || IsSet(env, "NOTION_PAGE_IDS"))
    ensures r == MissingToken <==> !IsSet(env, "NOTION_TOKEN")
    ensures r == MissingPageId ==> !IsSet(env, "NOTION_PAGE_ID") && !IsSet(env, "NOTION_PAGE_IDS")
  {
    var token := Getenv(env, "NOTION_TOKEN", "");
    var pageId := OrElse(Getenv(env, "NOTION_PAGE_ID", ""), Getenv(env, "NOTION_PAGE_IDS", ""));
    if token == "" then MissingToken
    else if pageId == "" then MissingPageId
    else ConfigOk
  }

  // ------------------------------------------------------------ history

  /** One entry of `export_history`. */
  datatype HistoryEntry = HistoryEntry(timestamp: string, pages: int, errors: int)

  /** The `stats` dict handed to `save_export_metadata`; missing keys are `None`. */
  datatype Stats = Stats(pages: Option<int>, errors: Option<int>, duration: Option<real>)

  /** The JSON object written to `.export_metadata.json`. */
  datatype Metadata = Metadata(
    lastExport: string,
    pagesExported: int,
    errors: int,
    durationSeconds: real,
    exportHistory: seq<HistoryEntry>)

  /**
   * `.export_metadata.json` as found on disk: absent, not loadable as a JSON
   * object, or loaded, with its optional `last_export` and `export_history` keys.
   */
  datatype StoredMetadata =
    | NoFile
    | Unreadable
    | Stored(lastExport: Option<string>, history: Option<seq<HistoryEntry>>)

  /** The history kept on disk: `existing.get('export_history', [])`, or none. */
  function Recorded(stored: StoredMetadata): (h: seq<HistoryEntry>)
    ensures !stored.Stored? ==> h == []
  {
    if stored.Stored? then stored.history.GetOr([]) else []
  }

  /** The file written by a save. */
  function Written(m: Metadata): (stored: StoredMetadata)
    ensures Recorded(stored) == m.exportHistory
  {
    Stored(Some(m.lastExport), Some(m.exportHistory))
  }

  /** Python `s[-n:]` for `n > 0`: the last `n` elements, or all of them. */
  function Last<T>(s: seq<T>, n: nat): (r: seq<T>)
    ensures |r| == if |s| < n then |s| else n
  {
    s[|s| - (if |s| < n then |s| else n)..]
  }

  /** The entry a save appends: `last_export` and the stats, defaulting to 0. */
  function NewEntry(now: string, stats: Stats): (e: HistoryEntry)
    ensures e.timestamp == now
    ensures stats.pages.None? ==> e.pages == 0
    ensures stats.errors.None? ==> e.errors == 0
  {
    HistoryEntry(now, stats.pages.GetOr(0), stats.errors.GetOr(0))
  }

  /**
   * `save_export_metadata`: the last nine entries of the stored history,
   * or none when the file is missing or unreadable, then the new entry.
   * The result is what is written back.
   */
  method SaveExportMetadata(stats: Stats, stored: StoredMetadata, now: string) returns (metadata: Metadata)
    ensures metadata.lastExport == now
    ensures metadata.pagesExported == stats.pages.GetOr(0)
    ensures metadata.errors == stats.errors.GetOr(0)
    ensures metadata.durationSeconds == stats.duration.GetOr(0.0)
    ensures metadata.exportHistory == Last(Recorded(stored) + [NewEntry(now, stats)], 10)
    ensures |metadata.exportHistory| <= 10
    ensures metadata.exportHistory[|metadata.exportHistory| - 1] == NewEntry(now, stats)
    ensures !stored.Stored? ==> metadata.exportHistory == [NewEntry(now, stats)]
  {
    metadata := Metadata(now, stats.pages.GetOr(0), stats.errors.GetOr(0), stats.duration.GetOr(0.0), []);
    if stored.Stored? {
      metadata := metadata.(exportHistory := Last(stored.history.GetOr([]), 9));
    }
    var entry := HistoryEntry(metadata.lastExport, stats.pages.GetOr(0), stats.errors.GetOr(0));
    metadata := metadata.(exportHistory := metadata.exportHistory + [entry]);
    RotateKeepsLastTen(Recorded(stored), entry);
  }

  /** Keeping the last nine and appending keeps the last ten of the whole log. */
  lemma RotateKeepsLastTen(h: seq<HistoryEntry>, e: HistoryEntry)
    ensures Last(h, 9) + [e] == Last(h + [e], 10)
  {
    var r := Last(h + [e], 10);
    assert r == (h + [e])[|h| + 1 - |r|..];
    assert r[..|r| - 1] == h[|h| - (|r| - 1)..];
  }

  /** Taking a shorter tail of a tail is taking it directly. */
  lemma LastOfLast<T>(s: seq<T>, m: nat, n: nat)
    requires n <= m
    ensures Last(Last(s, m), n) == Last(s, n)
  {
  }

  /** The history after saving each export of `exports` in turn, starting with no file. */
  function HistoryAfter(exports: seq<HistoryEntry>): (h: seq<HistoryEntry>)
    ensures |h| <= 10
  {
    if exports == [] then []
    else Last(HistoryAfter(exports[..|exports| - 1]), 9) + [exports[|exports| - 1]]
  }

  /** However many exports run, the file holds exactly the ten most recent, oldest first. */
  lemma {:induction false} HistoryKeepsLastTen(exports: seq<HistoryEntry>)
    ensures HistoryAfter(exports) == Last(exports, 10)
  {
    if exports != [] {
      var init, e := exports[..|exports| - 1], exports[|exports| - 1];
      assert init + [e] == exports;
      calc {
        HistoryAfter(exports);
        Last(HistoryAfter(init), 9) + [e];
        { HistoryKeepsLastTen(init); }
        Last(Last(init, 10), 9) + [e];
        { LastOfLast(init, 10, 9); }
        Last(init, 9) + [e];
        { RotateKeepsLastTen(init, e); }
        Last(exports, 10);
      }
    }
  }

  // ------------------------------------------------------------ status

  datatype StatusReport =
    | NoOutput
    | Report(markdownFiles: nat, folders: nat, metadataFound: bool, lastExport: string, shown: seq<HistoryEntry>)
    | Crashed

  /**
   * `cmd_status`: nothing without an output directory; otherwise the counts
   * and, from the metadata file, `last_export` (`'Unknown'` when missing)
   * and the last five history entries. A metadata file that does not load
   * raises out of the command.
   */
  function Status(outputExists: bool, markdownFiles: nat, folders: nat, stored: StoredMetadata): (r: StatusReport)
    ensures r == NoOutput <==> !outputExists
    ensures r == Crashed <==> outputExists && stored.Unreadable?
    ensures r.Report? ==> r.metadataFound == stored.Stored?
    ensures r.Report? ==> r.shown == Last(Recorded(stored), 5) && |r.shown| <= 5
    ensures r.Report? && stored.Stored? ==> r.lastExport == stored.lastExport.GetOr("Unknown")
  {
    if !outputExists then NoOutput
    else
      match stored
      case NoFile => Report(markdownFiles, folders, false, "", [])
      case Unreadable => Crashed
      case Stored(lastExport, history) =>
        Report(markdownFiles, folders, true, lastExport.GetOr("Unknown"), Last(history.GetOr([]), 5))
  }

  /** Right after a save, status shows its timestamp and the five most recent exports, newest last. */
  lemma StatusAfterSave(h: seq<HistoryEntry>, e: HistoryEntry, m: Metadata, markdownFiles: nat, folders: nat)
    requires m.exportHistory == Last(h + [e], 10)
    ensures var r := Status(true, markdownFiles, folders, Written(m));
      r.Report? && r.lastExport == m.lastExport && r.shown == Last(h + [e], 5)
      && r.shown[|r.shown| - 1] == e
  {
    LastOfLast(h + [e], 10, 5);
  }

  // ------------------------------------------------------------ clean

  datatype CleanOutcome = NothingToClean | Cancelled | Removed(files: nat)

  /**
   * `cmd_clean`: a missing directory is left alone; without `--yes` the
   * directory goes only when the reply lowercases to `y`. It always returns 0.
   */
  function Clean(outputExists: bool, markdownFiles: nat, yes: bool, reply: string): (r: CleanOutcome)
    ensures r.Removed? <==> outputExists && (yes || Lower(reply) == "y")
    ensures !outputExists ==> r == NothingToClean
    ensures r.Removed? ==> r.files == markdownFiles
  {
    if !outputExists then NothingToClean
    else if !yes && Lower(reply) != "y" then Cancelled
    else Removed(markdownFiles)
  }

  /** With `--yes` the reply is never consulted. */
  lemma CleanYesIgnoresReply(outputExists: bool, markdownFiles: nat, reply: string, other: string)
    ensures Clean(outputExists, markdownFiles, true, reply) == Clean(outputExists, markdownFiles, true, other)
  {
  }

  /** Only `y` and `Y` confirm. */
  lemma CleanConfirmation(c: char)
    ensures Clean(true, 0, false, [c]).Removed? <==> c == 'y' || c == 'Y'
  {
    assert Lower([c]) == [LowerChar(c)];
  }

  // ------------------------------------------------------------ docker-compose plans

  const BuildCommand := "build"
  const ScanCommand := "run --rm notion-export python get_page_ids.py"
  const ExportCommand := "run --rm notion-export python export_notion.py"

  /** The commands run, in order, up to and including the first that fails. */
  function Attempted(plan: seq<string>, succeeds: string -> bool): (run: seq<string>)
    ensures run <= plan
    ensures forall i :: 0 <= i < |run| - 1 ==> succeeds(run[i])
    ensures run == plan || (run != [] && !succeeds(run[|run| - 1]))
  {
    if plan == [] then []
    else if !succeeds(plan[0]) then [plan[0]]
    else [plan[0]] + Attempted(plan[1..], succeeds)
  }

  /** Every command of the plan succeeded. */
  predicate AllSucceed(plan: seq<string>, succeeds: string -> bool) {
    forall i :: 0 <= i < |plan| ==> succeeds(plan[i])
  }

  /** `cmd_scan`: build the image, then run the scanner. */
  method CmdScan(env: map<string, string>, compose: string -> bool) returns (code: int, commands: seq<string>)
    ensures CheckConfig(env) != ConfigOk ==> code == 1 && commands == []
    ensures CheckConfig(env) == ConfigOk ==> commands == Attempted([BuildCommand, ScanCommand], compose)
    ensures code == 0 <==> CheckConfig(env) == ConfigOk && AllSucceed([BuildCommand, ScanCommand], compose)
    ensures code == 0 || code == 1
  {
    code, commands := 1, [];
    if CheckConfig(env) != ConfigOk {
      return;
    }
    commands := commands + [BuildCommand];
    if !compose(BuildCommand) {
      return;
    }
    commands := commands + [ScanCommand];
    if !compose(ScanCommand) {
      return;
    }
    code := 0;
  }

  datatype ExportArgs = ExportArgs(output: Option<string>, clean: bool, scanFirst: bool)

  /** The compose commands of an export: build, the optional scan, the export. */
  function ExportPlan(scanFirst: bool): (plan: seq<string>)
    ensures |plan| == if scanFirst then 3 else 2
    ensures plan[0] == BuildCommand && plan[|plan| - 1] == ExportCommand
    ensures scanFirst ==> plan[1] == ScanCommand
  {
    [BuildCommand] + (if scanFirst then [ScanCommand] else []) + [ExportCommand]
  }

  /** How far an export plan gets: it stops at the build or at the scan, or reaches the export. */
  lemma ExportAttempts(scanFirst: bool, compose: string -> bool)
    ensures !compose(BuildCommand) ==> Attempted(ExportPlan(scanFirst), compose) == [BuildCommand]
    ensures compose(BuildCommand) && scanFirst && !compose(ScanCommand) ==>
      Attempted(ExportPlan(scanFirst), compose) == [BuildCommand, ScanCommand]
    ensures compose(BuildCommand) && (scanFirst ==> compose(ScanCommand)) ==>
      Attempted(ExportPlan(scanFirst), compose) == ExportPlan(scanFirst)
    ensures AllSucceed(ExportPlan(scanFirst), compose) <==>
      compose(BuildCommand) && (scanFirst ==> compose(ScanCommand)) && compose(ExportCommand)
  {
    var plan := ExportPlan(scanFirst);
    if scanFirst {
      assert plan == [BuildCommand, ScanCommand, ExportCommand];
    } else {
      assert plan == [BuildCommand, ExportCommand];
    }
  }

  /** The compose steps of `cmd_export`, each run only when the previous one succeeded. */
  method RunExportPlan(scanFirst: bool, compose: string -> bool) returns (commands: seq<string>, ok: bool)
    ensures commands == Attempted(ExportPlan(scanFirst), compose)
    ensures ok <==> AllSucceed(ExportPlan(scanFirst), compose)
    ensures ok ==> commands == ExportPlan(scanFirst)
  {
    ExportAttempts(scanFirst, compose);
    commands, ok := [BuildCommand], false;
    if !compose(BuildCommand) {
      return;
    }
    if scanFirst {
      commands := commands + [ScanCommand];
      if !compose(ScanCommand) {
        return;
      }
    }
    commands := commands + [ExportCommand];
    ok := compose(ExportCommand);
  }

  /**
   * `cmd_export`. `outputExists` says whether the output directory exists
   * before the run, `markdownFiles` how many `.md` files it holds after the
   * export. Cleaning removes the old metadata file with the directory, so
   * the history then restarts.
   */
  method CmdExport(
    args: ExportArgs, env: map<string, string>, compose: string -> bool,
    outputExists: bool, markdownFiles: nat, stored: StoredMetadata, now: string, duration: real)
    returns (code: int, cleaned: bool, commands: seq<string>, metadata: Option<Metadata>)
    ensures CheckConfig(env) != ConfigOk ==> code == 1 && !cleaned && commands == [] && metadata == None
    ensures CheckConfig(env) == ConfigOk ==> commands == Attempted(ExportPlan(args.scanFirst), compose)
    ensures cleaned <==> CheckConfig(env) == ConfigOk && args.clean && outputExists
    ensures code == 0 <==> CheckConfig(env) == ConfigOk && AllSucceed(ExportPlan(args.scanFirst), compose)
    ensures code == 0 || code == 1
    ensures code == 0 ==> commands == ExportPlan(args.scanFirst)
    ensures metadata.Some? <==> code == 0
    ensures metadata.Some? ==> metadata.value.errors == 0 && metadata.value.pagesExported == markdownFiles
    ensures metadata.Some? ==> (metadata.value.exportHistory ==
      Last(Recorded(if cleaned then NoFile else stored) + [HistoryEntry(now, markdownFiles, 0)], 10))
  {
    code, cleaned, commands, metadata := 1, false, [], None;
    if CheckConfig(env) != ConfigOk {
      return;
    }
    if args.clean && outputExists {
      cleaned := true;
    }
    var ok;
    commands, ok := RunExportPlan(args.scanFirst, compose);
    if !ok {
      return;
    }
    var stats := Stats(Some(markdownFiles), Some(0), Some(duration));
    var previous := if cleaned then NoFile else stored;
    var m := SaveExportMetadata(stats, previous, now);
    assert NewEntry(now, stats) == HistoryEntry(now, markdownFiles, 0);
    metadata := Some(m);
    code := 0;
  }

  datatype FullArgs = FullArgs(output: Option<string>, clean: bool)

  /** `cmd_full`: an export with the scan switched on. */
  method CmdFull(
    args: FullArgs, env: map<string, string>, compose: string -> bool,
    outputExists: bool, markdownFiles: nat, stored: StoredMetadata, now: string, duration: real)
    returns (code: int, commands: seq<string>)
    ensures CheckConfig(env) == ConfigOk && compose(BuildCommand) ==> |commands| >= 2 && commands[1] == ScanCommand
    ensures code == 0 <==> CheckConfig(env) == ConfigOk && AllSucceed([BuildCommand, ScanCommand, ExportCommand], compose)
    ensures code == 0 ==> commands == [BuildCommand, ScanCommand, ExportCommand]
  {
    var cleaned, metadata;
    code, cleaned, commands, metadata :=
      CmdExport(ExportArgs(args.output, args.clean, true), env, compose, outputExists, markdownFiles, stored, now, duration);
    assert ExportPlan(true) == [BuildCommand, ScanCommand, ExportCommand];
  }
}
