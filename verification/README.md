# Notion export tools, modelled in Dafny

The repository is a set of command-line tools that export a Notion
workspace to markdown files. It has several parts:

- a Node page scanner (`get_page_ids.js`), which walks child pages and
  database rows below a parent page and prints a flat JSON list of page
  records;
- a Node exporter (`notion_export.js`), which writes each page as one
  markdown file, or as a directory holding `index.md` and one file per
  child page;
- Python wrappers that drive those scripts:
  - `export_notion.py`: the batch export and its success/failure
    summary;
  - `export_notion_hierarchical.py`: the parent/child forest and the
    directory layout;
  - `fix_export.py`: keyword-based folders with numbered file names;
  - `get_page_ids.py`: the scan, the page listing and the rewrite of
    the `NOTION_PAGE_IDS=` line of `.env`;
  - `notion_cli.py`: the unified CLI with its export-history file;
- shared helpers (`notion_utils.js`): the file-name sanitiser, the retry
  loop, the title lookup and the progress tracker;
- a re-organiser for the output tree (`organize_output.py`);
- three rewriters that add labels after emojis in the exported markdown
  (`fix_emoji_display.js`, `fix_emoji_labels.py`, `fix_emoji_temp.js`).

The model follows each source file's own shape.

- Pure transformations are functions with lemmas:
  - id parsing;
  - title selection;
  - sanitisers;
  - folder classification;
  - the flat path rule;
  - `.env` rewriting;
  - history rotation.
- Loops that build lists, counters and dicts are methods with loop
  invariants, proved against those functions.
- Objects whose methods update fields are classes:
  - the exporters' configuration objects;
  - the scanner's `pageIds`/`pageInfo` state;
  - `ProgressTracker`.
- Processes, the Notion API, the clock and the file system are parameters:
  - an oracle for what a subprocess or API call returns;
  - a map or list for a directory listing or a file's text.
- Effects are returned as values:
  - the writes and copies performed;
  - the lines listed;
  - the updated file.

Modules: `Common` (shared records), `Text` (string operations of Python and
JavaScript), `Paths` (pathlib-style joins), `Properties` (the shared title
selection), and one module per source file: `PageScanner`, `NodeExport`,
`BatchExport`, `HierarchicalExport` (with `ScanToForest` for the scan fed to
it), `FixExport`, `NotionUtils`, `ScanCli`, `NotionCli`, `OrganizeOutput`,
`EmojiDisplay`, `EmojiLabels`, `EmojiTemp`.

In `HierarchicalExport`, `ExportPage`, `ExportAt` and `ExportChildren` model
`export_page_hierarchically`, a recursive method that the script's `export`
never calls: its only caller is itself (export_notion_hierarchical.py:171).
`export` exports every scanned page flat (`ExportPages`) and records the
scan and an `INDEX.md` beside the files.

## Model

| member | source | states |
|---|---|---|
| HierarchicalExport.PageMapLast | export_notion_hierarchical.py:78 | `page_map` holds every scanned id and maps it to the last record carrying that id |
| HierarchicalExport.HierarchicalExporter.constructor | export_notion_hierarchical.py:17-22 | token, page ids (`NOTION_PAGE_IDS`, else `NOTION_PAGE_ID`, else empty), output directory (default `./output`) and the child-page flag (true exactly when the variable lower-cases to `true`, default true); empty structure |
| HierarchicalExport.HierarchicalExporter.BuildHierarchy | export_notion_hierarchical.py:75-91 | afterwards `structure` holds the parentless records by id and each record's children are exactly those the loop attaches to it |
| HierarchicalExport.VisitRecord | export_notion_hierarchical.py:82-91 | one visit resets the record's own list, then files it as a root by id or appends it to the list of the record `page_map` keeps for its parent, exactly as the root and children specifications advance by one record |
| HierarchicalExport.HierarchicalExporter.GetPageStructure | export_notion_hierarchical.py:36-73 | pages come back exactly when the scan from the first configured id exits 0 with a `success` reply, and they are then that reply's pages; the roots are the pages without a scanned parent, and the i-th `children` entry is exactly the pages attached under page i; otherwise the state is unchanged |
| HierarchicalExport.HierarchicalExporter.ExportPages | export_notion_hierarchical.py:255-348 | one outcome per scanned page, in scan order, each with the page's flat path and its run's result, whatever the exit status or exception |
| HierarchicalExport.ExportFlat | export_notion_hierarchical.py:308-348 | the entry for one page carries its id, title and path; it succeeds exactly when the export exits with 0, and otherwise records the process output or the exception text |
| HierarchicalExport.HierarchicalExporter.Export | export_notion_hierarchical.py:229-365 | succeeds exactly when the configuration is valid and the scan succeeded; then one result per scanned page and the one-line index; otherwise no results and no index |
| HierarchicalExport.RootsAreParentless | export_notion_hierarchical.py:84-86 | the roots are exactly the parentless records, keyed by their id |
| HierarchicalExport.ChildrenNameTheirParent | export_notion_hierarchical.py:88-91 | every record listed as a child names its holder as parent, comes at or after it, and children stay in input order |
| HierarchicalExport.OrphanVanishes | export_notion_hierarchical.py:89-91 | a record whose parent id is not in the input is neither a root nor anyone's child |
| HierarchicalExport.ChildBeforeParentLost | export_notion_hierarchical.py:82-91 | a record listed before the (last) record of its parent is in no children list: the parent's list is reset when the parent is visited |
| HierarchicalExport.ChildAfterParentKept | export_notion_hierarchical.py:82-91 | a record listed at or after the last record of its parent is in that parent's children |
| HierarchicalExport.FirstPageId | export_notion_hierarchical.py:44 | the scan's start id holds no `-` |
| HierarchicalExport.SafeTitle | export_notion_hierarchical.py:102-103 | a title with a kept character gives a non-empty name of at most 100 kept characters; otherwise the first 8 characters of the id |
| HierarchicalExport.PageDir | export_notion_hierarchical.py:105-111 | a level-0 page uses the parent directory itself; any other page a directory at most one level below it, named after the sanitised title |
| HierarchicalExport.FlatSafe | export_notion_hierarchical.py:284 | at most 100 characters, all of them letters, digits, space, `-` or `_`; empty exactly when the title has no kept character |
| HierarchicalExport.FirstWithId | export_notion_hierarchical.py:288 | the position of the first scanned record with the parent's id, or none when no record has it |
| HierarchicalExport.FlatPathCases | export_notion_hierarchical.py:279-300 | the four cases of the flat path rule: the output root at level 0, one level below at level 1 or with an unknown parent, else under the parent's name unless the parent is at level 0 |
| HierarchicalExport.FlatPathUnderRoot | export_notion_hierarchical.py:279-300 | the flat path starts with the output root, is at most two segments below it, and adds no `.` or `..` segment |
| HierarchicalExport.DotsTitleLandsInRoot | export_notion_hierarchical.py:282-285 | a level-1 page titled `...` lands in the output root itself, the directory of the level-0 page |
| HierarchicalExport.ToReadme | export_notion_hierarchical.py:149-156 | each existing `parent` file not yet called `README.md` is renamed to `README.md` in its own directory; all other entries are unchanged |
| HierarchicalExport.ExportPage | export_notion_hierarchical.py:93-186 | `export_page_hierarchically`, which `export` never calls (only it calls itself, at line 171): the result carries the page id and title (`Untitled` without page info), stays at most one level below the parent directory, and has one child result per child exactly when the info lists children |
| HierarchicalExport.ExportAt | export_notion_hierarchical.py:105-178 | the page's directory is its `PageDir`; children results exist exactly when the info holds children, one per child |
| HierarchicalExport.ExportChildren | export_notion_hierarchical.py:167-176 | one result per child in order, with the child's id and title, each at most one level below the page's directory |
| HierarchicalExport.ExportPageSucceeds | export_notion_hierarchical.py:142-165 | a page is marked successful exactly when its run exited with 0 and replied JSON with `success` (and a non-empty or absent `pages`) |
| HierarchicalExport.CrashedHasNoChildren | export_notion_hierarchical.py:180-186 | a page whose export raised gets the exception record and no children results |
| HierarchicalExport.Line | export_notion_hierarchical.py:199-210 | the line fails exactly when a successful item's path lies outside the output directory (`relative_to` raises) |
| HierarchicalExport.WriteTreeLines | export_notion_hierarchical.py:199-214 | rendering fails exactly when some successful item lies outside the output directory; otherwise one line per item, the item's own first, indented two spaces per level |
| HierarchicalExport.WriteForestLines | export_notion_hierarchical.py:212-214 | children render exactly when each one does, with one line per item |
| HierarchicalExport.TopLevelRendersOneLine | export_notion_hierarchical.py:257-260 | the results dict given to `write_tree` has no title, path or children, so the index structure is the single line `- ✅ 📄 Untitled` |
| NodeExport.SanitizeName | notion_export.js:57-59 | the file name has the length of the name |
| NodeExport.SanitizeNameChars | notion_export.js:57-59 | only `[a-z0-9_]` comes out; a letter or digit is kept lower-cased and every other character becomes `_` |
| NodeExport.SanitizeIdempotent | notion_export.js:57-59 | sanitising twice equals sanitising once |
| NodeExport.SanitizeIgnoresCase | notion_export.js:57-59 | names that differ only in case get the same file name |
| NodeExport.PageTitle | notion_export.js:34-55 | none when the page cannot be retrieved; otherwise the text of `title`, else of `Name`, else of `name`, else of the first title-typed property, whichever first has text; a title is never empty |
| NodeExport.PageName | notion_export.js:64-66 | the title when there is one, else the first 8 characters of the id; never empty for a non-empty id |
| NodeExport.ChildNameCases | notion_export.js:100-101 | a heading first line gives the rest of that line after the `#` run and white space (no leading space, no line break); any other first line gives the child id |
| NodeExport.HeadingStripped | notion_export.js:101 | removing `^#+\s*` leaves a proper suffix of the line preceded only by `#` and white space |
| NodeExport.ChildEntriesAt | notion_export.js:98-111 | the k-th child entry and the k-th child write describe the k-th child |
| NodeExport.LayoutWithChildren | notion_export.js:81-113 | with children in separate mode the page gets its own directory whose `index.md` is listed first, then one file per child in order, named after the child and inside that directory |
| NodeExport.LayoutSingle | notion_export.js:114-125 | otherwise the page is the single file `OUTPUT_DIR/<name>.md` and the directory is `OUTPUT_DIR` |
| NodeExport.FilesMatchWrites | notion_export.js:61-136 | a conversion failure gives the error entry and writes nothing; otherwise each listed file is written once, in the same order, with the recorded length |
| NodeExport.ExportSinglePage | notion_export.js:61-136 | the entry and the writes are those of the page's specification (`SinglePage`, `SinglePageWrites`) |
| NodeExport.SaveChildren | notion_export.js:98-111 | one file entry and one write per child, in `Object.entries` order |
| NodeExport.NonEmpty | notion_export.js:153 | the kept ids are non-empty and no more than the entries |
| NodeExport.ExportNotionPages | notion_export.js:138-170 | `success`, `totalPages` counts every comma-separated entry, and `pages` has one entry per entry that is non-empty once cleaned, in order |
| NodeExport.NonEmptyKept | notion_export.js:151-158 | nothing is dropped exactly when no cleaned entry is empty, and then the exported ids are the cleaned entries in order |
| NodeExport.NonEmptyMembers | notion_export.js:151-158 | an id is exported exactly when it is a non-empty cleaned entry |
| NodeExport.CleanIdLength | notion_export.js:152 | a cleaned id is the trimmed entry with at most one `-` removed (`replace` with a string pattern replaces only the first) |
| NodeExport.ArgumentsMissing | notion_export.js:9-18 | the argument check rejects exactly a missing token, because a split always yields at least one entry |
| Properties.Lookup | get_page_ids.js:29-34 | a property is found exactly when some entry has that name, and it is that entry's value |
| Properties.FirstNamed | get_page_ids.js:29-35 | the `if`/`else if` chain: the k-th preferred name's text is the answer whenever it has truthy title text and every earlier name has none; nothing exactly when no preferred name has text |
| Properties.FirstTitleTyped | get_page_ids.js:37-41 | the fallback finds text exactly when some entry is a title property with text |
| Properties.FirstTitleTypedIsFirst | get_page_ids.js:37-41 | the fallback's text is that of the first title-typed entry with text |
| Properties.SelectTitle | get_page_ids.js:28-41 | a selected title is never empty |
| Properties.SelectTitleCases | get_page_ids.js:28-41 | nothing is selected exactly when no preferred name and no title-typed entry has text; a selected text is always one of the page's property texts |
| Properties.NamedTextSource | get_page_ids.js:29-34 | a preferred-name answer is the text of some preferred name all of whose predecessors have none, and it is the text of one of the page's properties |
| Properties.SelectTitleAt | get_page_ids.js:29-34 | the title is the k-th preferred name's text when it has one and no earlier name has |
| Properties.SelectTitleFallback | get_page_ids.js:36-41 | when no preferred name has text, the title is that of the first title-typed entry, or nothing |
| Properties.FirstNameWins | get_page_ids.js:29-30 | a truthy `title` property wins over every other property |
| PageScanner.PageTitle | get_page_ids.js:25-46 | the text of `title`, else of `Name`, else of `name`, else of the first property typed `title`, whichever first has text; `Untitled` when none has text and when the page cannot be retrieved; never empty |
| PageScanner.Arguments | get_page_ids.js:3-14 | a command-line argument wins over its environment variable; the run is refused exactly when the token or the parent page id is empty in both; the recursive flag defaults to `true` |
| PageScanner.AddFresh | get_page_ids.js:63-64 | the `Set` bookkeeping: the seen ids stay a prefix, stay distinct, and afterwards hold exactly the seen ids and the new ones |
| PageScanner.AddFreshAppend | get_page_ids.js:96-98 | adding the ids of two replies one after the other equals adding them together |
| PageScanner.IdsAddRows | get_page_ids.js:96-98 | the ids of the records after a reply's rows are exactly what the `Set`'s `has`/`add` give |
| PageScanner.AddRowsAppend | get_page_ids.js:89-114 | recording the rows of two replies one after the other equals recording them together |
| PageScanner.AddRowsRecords | get_page_ids.js:96-107 | every record that rows add is a database row one level down, with the database as parent and `fromDatabase` set |
| PageScanner.Scan | get_page_ids.js:126-142 | the parent page is the first record, at level 0 without parent |
| PageScanner.WalkFromStep | get_page_ids.js:52-119 | the do-while loop: a reply's blocks are handled, and the next reply is read only when they all went through and the reply said `has_more` |
| PageScanner.WalkFromEnd | get_page_ids.js:49-57 | a reply that cannot be read is a failed call: the visit ends with what was recorded |
| PageScanner.WalkBlocksStep | get_page_ids.js:59-116 | the blocks of a reply are handled in order; a failed database query skips the rest, and every child page a reply lists is one the walk can descend into |
| PageScanner.WalkBlocksEnd | get_page_ids.js:59-116 | once all its blocks are handled, a reply ends normally with nothing more recorded |
| PageScanner.WalkVisitIs | get_page_ids.js:62-80 | depth first: an unseen child page is recorded next, at the current level under the block, and when recursive the walk of its own children one level down follows at once |
| PageScanner.ScanSound | get_page_ids.js:48-142 | no page is reported twice; every page after the parent is a listed child page or a database row, at level 1 or deeper, with a parent; a row's parent is a database; any other page's parent is the parent page or, only when recursive, a page reported before it; when not recursive every page that is not a row sits at level 1 under the parent |
| PageScanner.ScanComplete | get_page_ids.js:48-142 | when no call fails, every child page and every row of every child database listed under the parent is reported, and when recursive so is everything listed under every reported page that is not a row |
| PageScanner.QueryComplete | get_page_ids.js:88-114 | when no call fails, a query of a listed database ends normally and records every row of every reply read, as rows only |
| PageScanner.Scanner.Record | get_page_ids.js:63-72 | an unseen id is appended to `pageIds` and its record to `pageInfo` |
| PageScanner.Scanner.RecordRow | get_page_ids.js:96-107 | a row not seen before is recorded one level down with the database as parent and `fromDatabase`; a seen row changes nothing |
| PageScanner.Scanner.RecordRows | get_page_ids.js:96-111 | the records afterwards are `AddRows` of the reply's rows: each unseen row is appended in order as a database row, and `pageIds` is what the `Set` gives |
| PageScanner.Scanner.QueryDatabase | get_page_ids.js:88-114 | the records and the flag are exactly `Query`: the rows of the replies read while `has_more` holds, each recorded once as a row of the database and never descended into; a failed query reports failure |
| PageScanner.Scanner.GetChildPages | get_page_ids.js:48-124 | the records afterwards are exactly `Walk` of the records before: the listing read reply by reply while `has_more` holds, each block handled depth first; an error ends the visit and keeps what was recorded |
| PageScanner.Scanner.HandleBlocks | get_page_ids.js:59-116 | the records and the flag are exactly `WalkBlocks`: blocks handled in order until a database query fails |
| PageScanner.Scanner.HandleAt | get_page_ids.js:59-116 | one turn of the loop over a reply's blocks: the block is handled, and the loop goes on exactly when no query failed |
| PageScanner.Scanner.HandleBlock | get_page_ids.js:61-115 | the records and the flag are exactly `WalkBlock`; an unseen child page's record comes next, at the current level under the block; any other block, or a child page already seen, records nothing; only a database query can fail |
| PageScanner.Scanner.VisitPage | get_page_ids.js:62-80 | the records afterwards are exactly `WalkVisit`: the page's record first, then, when recursive, the walk of its children; when not recursive just the record |
| PageScanner.Scanner.GetAllPageIds | get_page_ids.js:126-159 | the pages reported are exactly `Scan`, whose soundness and completeness `ScanSound` and `ScanComplete` state; `totalPages` counts the distinct `pageIds`, which are the pages' ids in order |
| ScanToForest.DatabaseRowsDropped | get_page_ids.js:101-107 | fed to `build_hierarchy`, every database row of a scan is neither a root nor anyone's child, since no scanned record carries a database's id |
| NotionUtils.Collapse | notion_utils.js:106 | collapsing white space never lengthens the name |
| NotionUtils.SanitizeFilename | notion_utils.js:101-109 | the file name is never empty, and is `untitled` or at most `maxLength` characters |
| NotionUtils.CollapseSingleSpaced | notion_utils.js:106 | after collapsing, no white space is next to other white space and every white space character is a plain space |
| NotionUtils.CollapseVisible | notion_utils.js:106 | collapsing keeps the visible characters in order |
| NotionUtils.JsTrimVisible | notion_utils.js:107 | trimming keeps the visible characters in order |
| NotionUtils.SanitizeShape | notion_utils.js:101-109 | the file name does not start with white space, holds none of `<>:"/\|?*` or a control character, and has single spaces only |
| NotionUtils.SanitizeFallback | notion_utils.js:102-108 | an empty name, a limit of 0 or less, or a name without an allowed visible character gives `untitled` |
| NotionUtils.SanitizeKeepsContent | notion_utils.js:104-108 | when nothing is cut, the visible characters of the file name are exactly the allowed visible characters of the name, in order |
| NotionUtils.EffectiveRetries | notion_utils.js:38 | an absent or zero `maxRetries` means 3; any other value is used as given |
| NotionUtils.RetryFirstEnding | notion_utils.js:43-82 | the first call that returns, or throws an error that is not retried, ends the loop with that value or error after exactly that many calls |
| NotionUtils.RetryExhausted | notion_utils.js:43-84 | when every call throws a retried error, `fn` is called `maxRetries + 1` times and the last error is thrown |
| NotionUtils.RetryNegative | notion_utils.js:41-84 | a negative limit makes no call and throws `undefined` |
| NotionUtils.RetryBound | notion_utils.js:43-84 | `fn` is never called more than `maxRetries + 1` times, and a returned value is one `fn` gave |
| NotionUtils.ZeroMeansDefault | notion_utils.js:38 | `maxRetries: 0` is read as the default: four calls when every one fails and is retried |
| NotionUtils.WithRetry | notion_utils.js:37-85 | the loop's outcome and number of calls are those of the retry specification `Retry` under the effective limit |
| NotionUtils.GetPageTitle | notion_utils.js:127-155 | the title is never empty |
| NotionUtils.GetPageTitleCases | notion_utils.js:127-155 | `Untitled` when the page cannot be read or has no title text; otherwise the k-th of `title`, `Title`, `Name`, `name` with text wins when no earlier one has text, and without any of them the first title-typed property decides; a title is always the text of one of the page's properties |
| NotionUtils.ErrorText | notion_utils.js:178 | the error's message when it is a non-empty string, otherwise the thrown value |
| NotionUtils.ProgressTracker.constructor | notion_utils.js:161-167 | total and caption as given, no item handled and no error |
| NotionUtils.ProgressTracker.Increment | notion_utils.js:169-175 | one more item handled, errors unchanged, one more completed |
| NotionUtils.ProgressTracker.AddError | notion_utils.js:177-179 | the error is recorded last, the handled count is unchanged, and the completed count of the summary drops by one |
| BatchExport.PyClean | export_notion.py:39 | a cleaned id holds no `-` |
| BatchExport.ParseParts | export_notion.py:38-42 | no more ids than pieces |
| BatchExport.SpaceIsComma | export_notion.py:40 | a space and a comma separate ids alike |
| BatchExport.ParseIdsBare | export_notion.py:38-42 | no parsed id contains a `-`, a `,` or a space |
| BatchExport.DashOnlyId | export_notion.py:38-42 | an entry made only of `-` passes the blank test and yields the empty id |
| BatchExport.ParseIdsJoin | export_notion.py:38-42 | comma-joined ids parse back to themselves, in order, with their dashes removed |
| BatchExport.ParseIdsJoinBare | export_notion.py:38-42 | comma-joined ids without dashes parse back to exactly themselves |
| BatchExport.ExitMessage | export_notion.py:99-102 | at most 200 characters: the start of stderr when it is non-empty, else the start of stdout |
| BatchExport.PageStops | export_notion.py:89-129 | a page ends the run exactly when the script times out, raises, or answers with JSON that is not an object |
| BatchExport.PageEntries | export_notion.py:98-122 | a page that does not end the run adds at least one entry, and every error entry the wrapper writes names the page and is at most 200 characters |
| BatchExport.Then | export_notion.py:74-129 | a stopped run stays stopped; otherwise the entries are appended in order |
| BatchExport.GatherStops | export_notion.py:126-129 | once a page ends the run, later pages change nothing |
| BatchExport.GatherCases | export_notion.py:74-129 | the run is aborted exactly when some page's outcome ends it; otherwise there is at least one entry per page |
| BatchExport.GatherErrorsShort | export_notion.py:98-122 | every error entry the wrapper writes has at most 200 characters |
| BatchExport.AllFailedStillSuccess | export_notion.py:64-124 | when the script fails for every page the run still reports success, with one error entry per page in order and nothing exported |
| BatchExport.Partition | export_notion.py:140-142 | the successful and failed lists together hold every entry exactly as often as the pages do |
| BatchExport.SucceededHaveNoError | export_notion.py:141 | the successful list holds only entries without an error |
| BatchExport.FailedHaveError | export_notion.py:142 | the failed list holds only entries with an error |
| BatchExport.ErrorsNotSucceeded | export_notion.py:141 | a list of error entries has nothing to show as exported |
| BatchExport.ReadRun | export_notion.py:89-122 | the run stops exactly on a timeout, an exception, or a reply that parses but is not an object; otherwise it goes on with at least one entry, and every error entry names the page and carries at most 200 characters |
| BatchExport.NotionExporter.constructor | export_notion.py:19-23 | token (absent or set), page ids (`NOTION_PAGE_IDS`, else `NOTION_PAGE_ID`, else empty), output directory (default `/app/output`), child-page flag |
| BatchExport.NotionExporter.ValidateConfig | export_notion.py:25-58 | valid exactly when the token is truthy, the id string is non-empty and the parsed list is not empty; the list is parsed only once both are present |
| BatchExport.NotionExporter.RunNodeScript | export_notion.py:60-129 | the result is the batch specification `Batch` of the parsed ids: one run per id in order, and a timeout or exception drops everything gathered |
| BatchExport.NotionExporter.Export | export_notion.py:168-185 | succeeds exactly when the configuration is valid and the batch reports success |
| BatchExport.ScriptAnswer | export_notion.py:105-116 | for an id the wrapper produced, the Node exporter's answer adds exactly one entry: its page for the trimmed id, or "No content returned" when that id is empty |
| BatchExport.ScriptIds | notion_export.js:151-158 | the Node exporter's own cleaning of a wrapper-cleaned id yields that id trimmed, or nothing |
| FixExport.FolderFrom | fix_export.py:169-192 | from any rule on: the folder of the first later rule whose keyword occurs, the default `Databases` when none does |
| FixExport.DetermineFolder | fix_export.py:164-192 | the folder of the first rule with a keyword in the lower-cased title (case-insensitive substring match, first match wins), `Databases` when none matches; the position argument plays no part |
| FixExport.WeekTitle | fix_export.py:179-180 | a title containing `week` and no keyword of the five earlier rules goes to `6. Weekly Summaries (12+ Required)` |
| FixExport.DbNum | fix_export.py:127 | the text before the first `.` of a folder that has one, `0` otherwise |
| FixExport.NumberedFolder | fix_export.py:127-128 | a folder named `<digit>. …` counts under that digit |
| FixExport.FolderBuckets | fix_export.py:127-132 | the nine numbered folders have a counter; `Research Pages`, `Progress Tracking` and `Databases` have no `.` and no counter |
| FixExport.Filename | fix_export.py:135 | the cleaned name keeps only alphanumerics, space, `-`, `_` and `.` |
| FixExport.FilenameShape | fix_export.py:128-135 | a numbered page is named `NN. <filtered title>.md`, any other `<filtered title>.md`; the strip never reaches past `.md` |
| Text.Pad2Value | fix_export.py:130 | `%02d` reads back as the number, is exactly two digits below 100, and is the plain decimal above |
| Text.DecimalValue | fix_export.py:119 | the decimal digits of a number read back as that number, with no leading zero |
| FixExport.FolderPath | fix_export.py:138-141 | a folder with a `.` lies under `<output>/Databases/`, any other directly under the output directory |
| FixExport.PageIds | fix_export.py:64 | every id is a non-empty piece without white space at either end, and there are no more ids than comma-separated pieces |
| FixExport.NonBlankMembers | fix_export.py:64 | a string is an id exactly when it is non-empty and is some comma-separated piece stripped |
| FixExport.NonBlankKeeps | fix_export.py:64 | pieces already stripped and non-blank are all kept, in order |
| FixExport.PageIdsJoin | fix_export.py:64 | ids without commas or surrounding white space, joined with commas, are read back exactly |
| FixExport.StripEnds | fix_export.py:64 | a stripped id neither starts nor ends with whitespace |
| FixExport.ScriptTitle | fix_export.py:81-104 | the title the inline lookup script prints: the first title-typed property with text, `Untitled` when none, `Error` when the page cannot be retrieved |
| FixExport.TitleOf | fix_export.py:115-119 | the title from the last output line, `Untitled` when the field is missing, `Page_<idx>` when that line does not parse |
| FixExport.Tally | fix_export.py:128-129 | a counter never exceeds the number of pages planned |
| FixExport.TallyGrows | fix_export.py:128-130 | within one folder a later page gets a strictly larger number |
| FixExport.TallyFirst | fix_export.py:128-130 | the first page of a folder gets number 1 |
| FixExport.ProperNotionExporter.constructor | fix_export.py:19-22 | token (absent or set), id string (default empty), output directory `output_final` |
| FixExport.ProperNotionExporter.Step | fix_export.py:70-152 | one loop iteration numbers a page of a numbered folder one past its counter and leaves the others unnumbered |
| FixExport.ProperNotionExporter.Run | fix_export.py:24-157 | the loop over the parsed ids produces exactly the plan of the first pages; it finishes all ids, or stops right after the one page whose export raised |
| FixExport.Plan | fix_export.py:70-152 | one planned page per id |
| FixExport.PlanSnoc | fix_export.py:70-152 | planning one more id appends its page and bumps only its counter |
| FixExport.PlanCounts | fix_export.py:67-129 | the counters keep exactly the keys `1` to `9` and each holds how many planned pages fall in its folder |
| FixExport.PlanPrefix | fix_export.py:70-152 | planning a prefix of the ids plans a prefix of the pages |
| FixExport.PlanPage | fix_export.py:70-152 | page `i` depends only on its id, its position and the counters left by the pages before it |
| FixExport.PlanNumbered | fix_export.py:126-132 | each page of a numbered folder carries its folder's running count (1, 2, 3, …); the other pages carry no number |
| FixExport.NumberedPush | fix_export.py:128-130 | a page numbered one past its folder's tally keeps a numbered plan numbered |
| FixExport.RunPlan | fix_export.py:70-157 | the loop's plan and counters equal the specification's for the ids it got through; a failed export only reports, an exception ends the run |
| FixExport.TallyPush | fix_export.py:128-129 | a new page raises its own counter by exactly one and no other |
| ScanCli.Replace | get_page_ids.py:99-104 | every entry line becomes the new entry, every other line is kept in place |
| ScanCli.Others | get_page_ids.py:99-104 | the non-entry lines, in order, no more than the lines |
| ScanCli.IdsLineIsIdsLine | get_page_ids.py:100-101 | the written `NOTION_PAGE_IDS=…` line is itself recognised as an entry |
| ScanCli.CommentNotIdsLine | get_page_ids.py:110 | the added comment is not recognised as an entry |
| ScanCli.UpdateHolds | get_page_ids.py:99-114 | after an update the new entry is present and is the only entry |
| ScanCli.Inserted | get_page_ids.py:109-114 | inserting comment and entry into lines without entries leaves that entry the only one |
| ScanCli.UpdateTwice | get_page_ids.py:99-114 | a second update with the same entry changes nothing |
| ScanCli.UpdateOthersFound | get_page_ids.py:99-104 | with an entry present, the other lines are kept in order |
| ScanCli.UpdateOthersBlank | get_page_ids.py:109-111 | with no entry and a blank last line, the comment and entry go just before that line |
| ScanCli.UpdateOthersEnd | get_page_ids.py:112-114 | with no entry and no blank last line (an empty file included), the comment and entry go at the end |
| ScanCli.UpdatedEntries | get_page_ids.py:99-114 | after `update_env_file` the file holds the new `NOTION_PAGE_IDS` line and no other |
| ScanCli.UpdateIdempotent | get_page_ids.py:99-114 | updating twice with the same ids gives the file of one update |
| ScanCli.UpdateKeepsOthers | get_page_ids.py:99-114 | all non-entry lines are kept in order; the comment is inserted before a blank last line or appended, in the three cases |
| ScanCli.OfLevel | get_page_ids.py:139-144 | `by_level[level]` holds only pages of that level |
| ScanCli.InsertLevel | get_page_ids.py:148 | inserting into an increasing list keeps it increasing with exactly one more member |
| ScanCli.SortLevels | get_page_ids.py:148 | `sorted(by_level.keys())`: increasing, with the same members |
| ScanCli.Levels | get_page_ids.py:141 | each page's level, in order |
| ScanCli.Show | get_page_ids.py:150-154 | two spaces per level, the database icon exactly for database rows, the title cut to 50 characters and the id to 8 |
| ScanCli.Shows | get_page_ids.py:149-154 | one shown line per page, in order |
| ScanCli.IncreasingUnique | get_page_ids.py:148 | two increasing lists with the same members are equal |
| ScanCli.BlocksSorted | get_page_ids.py:148-149 | groups taken in increasing level order list pages by non-decreasing level |
| ScanCli.OrderedSorted | get_page_ids.py:139-154 | the listing is ordered by level |
| ScanCli.OrderedStable | get_page_ids.py:139-154 | within each level the listing keeps input order |
| ScanCli.OrderedPermutation | get_page_ids.py:139-154 | the listing shows every page exactly as often as it occurs |
| ScanCli.GroupByLevel | get_page_ids.py:139-144 | the grouping loop's dict has exactly the levels present as keys, each mapped to that level's pages in input order |
| ScanCli.GroupStep | get_page_ids.py:141-144 | one page appended to its level's list, the key created first when missing, keeps the grouping invariant |
| ScanCli.LevelPresent | get_page_ids.py:139-144 | a level has a group exactly when some page has it |
| ScanCli.ListPages | get_page_ids.py:139-154 | the nested listing loop shows exactly `Ordered(pages)` |
| ScanCli.ShowBlock | get_page_ids.py:149-154 | the inner loop appends one shown line per page of the group |
| ScanCli.ScanOutcome | get_page_ids.py:50-71 | a scan counts only for exit 0 with a scan result; a failure or exception yields an error; non-JSON failure output is the error itself; non-JSON success output gives `Invalid JSON response: …` |
| ScanCli.ScanArguments | get_page_ids.py:39-45 | three arguments, the parent id without dashes |
| ScanCli.ArgumentsAgree | get_page_ids.py:39-45 | the Node scanner reads back exactly the token, dash-free parent id and recursive flag it was given |
| ScanCli.ReplaceEntries | get_page_ids.py:97-104 | the line loop's result is `Replace`, and `updated` holds exactly when some line was an entry |
| ScanCli.AddEntry | get_page_ids.py:107-114 | comment and entry inserted before a blank last line, appended otherwise |
| ScanCli.NotionPageScanner.constructor | get_page_ids.py:18-22 | token and parent id (absent or set), recursive defaulting to true, auto-export defaulting to false |
| ScanCli.NotionPageScanner.UpdateEnvFile | get_page_ids.py:73-121 | a missing file is created from the fixed template; an existing one is rewritten by `UpdatedLines` |
| ScanCli.NotionPageScanner.DisplayResults | get_page_ids.py:123-213 | a failed scan shows and writes nothing; a successful one lists the pages, rewrites `.env`, and with auto-export hands the comma-joined ids to the exporter |
| ScanCli.NotionPageScanner.Run | get_page_ids.py:215-234 | succeeds exactly when the configuration is valid and the scan succeeds; `.env` is written exactly then |
| NotionCli.CheckConfig | notion_cli.py:47-62 | passes exactly when the token and one of `NOTION_PAGE_ID` / `NOTION_PAGE_IDS` are set; the token is checked first |
| NotionCli.Written | notion_cli.py:120-121 | the file written back records exactly the new history |
| NotionCli.Last | notion_cli.py:109 | Python `s[-n:]`: the last `n` elements, or all of them |
| NotionCli.NewEntry | notion_cli.py:113-118 | the new history entry carries `last_export` as its timestamp, pages and errors defaulting to 0 |
| NotionCli.SaveExportMetadata | notion_cli.py:92-123 | last export, pages, errors and duration from the stats; history is the last nine stored entries plus the new one, at most ten with the newest last, and only the new entry when the file is missing or unreadable |
| NotionCli.RotateKeepsLastTen | notion_cli.py:109-118 | keeping the last nine and appending is keeping the last ten of the whole log |
| NotionCli.HistoryAfter | notion_cli.py:92-123 | repeated saves never hold more than ten entries |
| NotionCli.HistoryKeepsLastTen | notion_cli.py:92-123 | after any number of saves the file holds exactly the ten most recent exports, oldest first |
| NotionCli.Status | notion_cli.py:218-251 | nothing without an output directory; a metadata file that fails to load raises; otherwise `last_export` (`Unknown` when missing) and at most the last five history entries |
| NotionCli.StatusAfterSave | notion_cli.py:241-247 | right after a save, status shows its timestamp and the five most recent exports, newest last |
| NotionCli.Clean | notion_cli.py:253-277 | the directory is removed exactly when it exists and `--yes` is given or the reply lowercases to `y`; a missing directory is left alone |
| NotionCli.CleanYesIgnoresReply | notion_cli.py:268-270 | with `--yes` the reply is never consulted |
| NotionCli.CleanConfirmation | notion_cli.py:269-272 | a one-character reply confirms exactly when it is `y` or `Y` |
| NotionCli.Attempted | notion_cli.py:166-183 | the commands run are a prefix of the plan, each but the last succeeded, and either all ran or the last one failed |
| NotionCli.CmdScan | notion_cli.py:125-147 | a bad configuration runs nothing and returns 1; otherwise build then scan, stopping at the first failure; 0 exactly when both succeed |
| NotionCli.ExportPlan | notion_cli.py:166-183 | build, the scan when asked for, then the export |
| NotionCli.ExportAttempts | notion_cli.py:166-183 | an export stops at a failed build or a failed scan, or reaches the export; all succeed exactly when each step does |
| NotionCli.RunExportPlan | notion_cli.py:166-183 | the commands run are exactly the attempted prefix of the plan, and success means every one succeeded |
| NotionCli.CmdExport | notion_cli.py:149-206 | a bad configuration returns 1 and does nothing; cleaning happens exactly when asked for and the directory exists; 0 exactly when every step succeeds, and only then is metadata saved, always with 0 errors and the count of markdown files |
| NotionCli.CmdFull | notion_cli.py:208-216 | an export with the scan switched on: the scan follows the build, and success runs build, scan and export |
| OrganizeOutput.DbPath | organize_output.py:116-122 | the `.` key targets the section directory itself, any other key `section/db` |
| OrganizeOutput.PagesPlan | organize_output.py:126-135 | each copy is of a listed page found as a directory of `output/`, to `db_path/<page>`, at most one per page |
| OrganizeOutput.TopCopy | organize_output.py:141-146 | an uncategorised item is copied to `output_organized/<name>` |
| OrganizeOutput.Uncategorised | organize_output.py:139-147 | every copy of the second pass is the top-level copy of some listed item |
| OrganizeOutput.PagesCopied | organize_output.py:126-135 | a listed page is copied to `db_path/<page>` exactly when `output/` has a directory of that name |
| OrganizeOutput.TopCopyDistinct | organize_output.py:139-146 | different names in a listing give different top-level copies |
| OrganizeOutput.UncategorisedCopies | organize_output.py:139-147 | an item is copied exactly when it is not `output_organized` and its destination did not exist |
| OrganizeOutput.DatabasesPaths | organize_output.py:116-135 | everything the databases of a section create lies under that section, and their copies lie deeper |
| OrganizeOutput.DatabasePaths | organize_output.py:117-135 | everything one database creates lies under its section, and its copies lie deeper |
| OrganizeOutput.SectionsPaths | organize_output.py:111-135 | everything the first pass creates lies under one of the sections |
| OrganizeOutput.SectionsMade | organize_output.py:111-113 | every section gets its directory |
| OrganizeOutput.FirstPassTop | organize_output.py:105-135 | the first pass creates `output_organized/<name>` exactly for the section names |
| OrganizeOutput.TopLevelCopy | organize_output.py:111-147 | an item is copied to the top level exactly when it is not `output_organized`, not named like a section and not already there; so a page copied into its database is copied a second time |
| OrganizeOutput.FindDir | organize_output.py:128-135 | the search stops at a directory of the page's name, and finds one exactly when it exists |
| OrganizeOutput.CopyPages | organize_output.py:126-135 | the page loop performs exactly `PagesPlan` |
| OrganizeOutput.PlanSection | organize_output.py:112-135 | one section: its directory, then each database's directory and copies |
| OrganizeOutput.PlanDatabase | organize_output.py:117-135 | one database: its directory unless the key is `.`, then its copies |
| OrganizeOutput.PlanSections | organize_output.py:111-135 | the sections in table order |
| OrganizeOutput.CopyUncategorised | organize_output.py:139-147 | the second pass performs exactly `Uncategorised` and records each destination as present |
| OrganizeOutput.OrganizeFiles | organize_output.py:96-147 | the actions are `Plan` of the inputs and the present paths grow by exactly their targets; nothing happens without `output/` |
| EmojiDisplay.Keys | fix_emoji_display.js:116 | one key per table entry |
| EmojiDisplay.KeyAt | fix_emoji_display.js:116 | every entry's key is among the keys |
| EmojiDisplay.PutKeys | fix_emoji_display.js:7-108 | writing a key already present keeps the keys and their order; a new key is appended |
| EmojiDisplay.PutLookup | fix_emoji_display.js:7-108 | after writing a key, it reads back the written value and every other key reads as before |
| EmojiDisplay.FirstAppearancesMembers | fix_emoji_display.js:7-108 | first appearances hold exactly the keys |
| EmojiDisplay.ObjectLiteralEntries | fix_emoji_display.js:7-108 | an object literal has one entry per distinct key, in order of first appearance, holding the value of the last pair for that key |
| EmojiDisplay.ObjectLiteralDistinct | fix_emoji_display.js:7-108 | an object literal never holds a key twice |
| EmojiDisplay.LastValueAt | fix_emoji_display.js:7-108 | a pair no later pair overrides gives its key's value |
| EmojiDisplay.LaterDuplicateWins | fix_emoji_display.js:10-97 | a key written twice reads back the later value, as `📊` and `📨` do in the table |
| EmojiDisplay.Apply | fix_emoji_display.js:117-120 | an entry applies only when its emoji occurs and its replacement does not; an applied entry leaves the replacement in the text; an unapplied one leaves it unchanged |
| EmojiDisplay.ApplyTwice | fix_emoji_display.js:117-120 | an entry that applied does not apply again |
| EmojiDisplay.Rewrite | fix_emoji_display.js:116-121 | when no entry applied the text is unchanged |
| EmojiDisplay.RewriteUntouched | fix_emoji_display.js:116-121 | a file in which every emoji is absent or already has its replacement is left untouched and not modified |
| EmojiDisplay.ProcessFile | fix_emoji_display.js:110-133 | the loop's text and flag are `Rewrite`'s; the file is written, and `true` returned, exactly when some entry applied and the write succeeds; a read error yields `false` |
| EmojiDisplay.Processed | fix_emoji_display.js:146-153 | the walk processes only regular files ending in `.md` |
| EmojiDisplay.ProcessedReached | fix_emoji_display.js:139-155 | a file is processed exactly when it is a markdown file reachable without entering a dot-directory |
| EmojiDisplay.FixedCountAppend | fix_emoji_display.js:149-152 | the modified count of two runs of files adds up |
| EmojiDisplay.FixedAtMostProcessed | fix_emoji_display.js:149-152 | no more files are modified than processed |
| EmojiDisplay.WalkDir | fix_emoji_display.js:139-155 | the recursive walk adds the number of processed files and, of those, the ones `processFile` fixes |
| EmojiDisplay.FixEmojiDisplay | fix_emoji_display.js:135-171 | exit 1 without the output directory; otherwise the walk's counters, with modified at most processed |
| EmojiLabels.Label | fix_emoji_labels.py:48-53 | the guard passes exactly when the emoji occurs and `emoji[` does not; when it fails the text is left as it is |
| EmojiLabels.LabelOnlySpaced | fix_emoji_labels.py:52 | without an occurrence of the emoji followed by a space the text is unchanged, even when the guard passes |
| EmojiLabels.ModifiedUnchanged | fix_emoji_labels.py:50-53 | the guard can pass with nothing replaced: a text that is just the emoji is reported modified and comes back unchanged |
| EmojiLabels.LabelRerunSkipped | fix_emoji_labels.py:50-52 | with the table's `emoji[Label]` replacements, an entry that rewrote something is skipped on a rerun |
| EmojiLabels.Relabel | fix_emoji_labels.py:47-53 | when no guard passed the text is unchanged |
| EmojiLabels.RelabelNoEmoji | fix_emoji_labels.py:47-53 | a file holding none of the emojis is not modified |
| EmojiLabels.ProcessFile | fix_emoji_labels.py:41-62 | the loop's text and flag are `Relabel`'s; the file is written, and `True` returned, exactly when some guard passed and the write succeeds; a read error yields `False` |
| EmojiLabels.FixedCount | fix_emoji_labels.py:75-78 | no more files fixed than processed |
| EmojiLabels.FixEmojiLabels | fix_emoji_labels.py:64-83 | nothing without the output directory; otherwise every path found is processed and the fixed ones are counted as modified, at most the processed count |
| EmojiTemp.Tag | fix_emoji_temp.js:20-24 | an entry matches exactly when `emoji ` occurs; an unmatched entry leaves the text |
| EmojiTemp.TagAgain | fix_emoji_temp.js:6-22 | not idempotent: with the table's `emoji [Label]` replacements, a matched entry matches again on a rerun and the text grows each time |
| EmojiTemp.Retag | fix_emoji_temp.js:18-25 | when nothing matched the text is unchanged |
| EmojiTemp.RetagGrows | fix_emoji_temp.js:18-25 | with lengthening replacements the text never shrinks, and a file in which something matched comes back strictly longer |
| EmojiTemp.ProcessFile | fix_emoji_temp.js:13-34 | the loop's text and flag are `Retag`'s; the file is written exactly when something matched and the write succeeds; errors are swallowed |
| EmojiTemp.Visit | fix_emoji_temp.js:13-34 | a stored file changes only when it is readable, writable and something matched |
| EmojiTemp.TempFilesDistinct | fix_emoji_temp.js:37-40 | the two hard-coded paths differ |
| EmojiTemp.FixEmojiTemp | fix_emoji_temp.js:36-46 | no file is created or removed; only the two hard-coded paths are visited, and only when they exist |

## Left out

- Subprocesses, docker/docker-compose and the Notion SDK (`pages.retrieve`, `blocks.children.list`, `databases.query`, the markdown converter) are not run: their outcomes are parameters (oracle functions or fixed workspace values), and `run_docker_command` is reduced to whether a compose sub-command succeeds.
- Real file I/O is not performed: files are strings or lists of lines, directory listings are sequences, and writes, renames, `mkdir`, `copytree` and `rmtree` are returned as recorded values; the folder creation at the start of fix_export.py (`mkdir` of the fixed `structure`) and the optional `found_page_ids.txt` backup in get_page_ids.py are therefore not modelled.
- JSON parsing is reduced to "parsed with these fields" or "did not parse"; the exact text of a `json.loads` error and of `str(e)` for an exception is not modelled beyond being some error text.
- Printing, ANSI colours, `argparse`, `dotenv` (including `load_dotenv(override=True)` after a scan), `sys.exit` codes of the Python mains and `input()` beyond the confirmation reply are left out.
- `getBackoffDelay`, `delay` and the waits of `withRetry` (random jitter, floating point) are not modelled; `withRetry` is the sequence of attempts and their outcomes.
- Timing: `ProgressTracker`'s clock, percentages and `toFixed`, `formatDate`, and the `datetime` values of notion_cli.py; the export timestamp and duration are passed in as values.
- Python `str.isalnum` and `str.lower` are modelled on ASCII only, and JavaScript strings as sequences of Unicode scalars rather than UTF-16 code units; white space follows Python's `str.isspace` and JavaScript's `\s` tables.
- Paths: pathlib's and `path.join`'s dropping of empty and `.` segments is modelled for one-segment joins only; `..` segments, absolute segments and separators inside a name are not normalised.
- Asynchronous JavaScript is modelled as the sequential execution that `await` gives.
- NotionCli.Status: a metadata file whose `export_history` is not a list, or whose entries lack keys, is treated like an unreadable file; the directory listing is only counted.
- NotionCli.SaveExportMetadata: a save that fails because the output directory is missing is not modelled; the metadata returned is what would be written.
- EmojiDisplay: the 100-entry emoji table and the mis-encoded emoji keys of the other two scripts are not reproduced; each table is a parameter in `Object.entries` / dict iteration order, and the duplicate-key behaviour of the object literal is proved for any list of pairs (`LaterDuplicateWins`).
- EmojiDisplay.Rewrite: the emojis are required to be non-empty, as every key of the table is; JavaScript's `replaceAll` with an empty pattern is not modelled.
- EmojiDisplay.WalkDir: exceptions from `readdirSync`/`statSync` (uncaught in the script), symbolic links and special files are not modelled, and the rewritten file contents are not collected, only the counters.
- EmojiTemp.Tag: the pattern `new RegExp(emoji + ' ', 'g')` is treated as a literal search; the table's keys hold no pattern metacharacters.
- EmojiLabels.FixEmojiLabels: `rglob('*.md')` is a given list of paths; a directory whose name ends in `.md` is a path that cannot be read.
- FixExport.ProperNotionExporter.Run: the title lookup's `subprocess.run` (fix_export.py:109-113) sits outside any `try`, so an exception there would end the run; the model takes the lookup as always returning an output, whose parse may still fail.
- EmojiDisplay and EmojiTemp: JavaScript's `replaceAll`/`replace` expand `$&`, `$1` and similar patterns in the replacement text; `ReplaceAll` inserts the replacement literally, which agrees with the source because no replacement in the tables contains a `$`.
- ScanCli.ScanOutcome: stdout that parses as JSON but not as an object (a list, a number) is mapped to `NotDict`; in the source `display_results` then calls `.get` on it and raises `AttributeError` (get_page_ids.py:125), which the model does not reproduce.
- PageScanner.ScanComplete: completeness is stated under `Healthy`, i.e. when every listing and every query reply can be read to its end and every child page listed has a listing; when a call fails the source keeps what it had recorded, and `ScanSound` still holds then.
- The `main()` dispatch functions of the Python CLIs, `cmd_status`'s file counts and the `print_*` helpers are plumbing and are left out.
