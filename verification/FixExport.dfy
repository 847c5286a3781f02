/**
 * fix_export.py: export every page of `NOTION_PAGE_IDS` into a fixed folder
 * layout under `output_final`, choosing the folder from keywords in the
 * page title and numbering the pages of each numbered folder in turn.
 *
 * The two subprocesses (the title lookup and the `notion_export.js` run)
 * are oracles: `info` gives the parsed last line of the lookup's output for
 * a cleaned id, `export` the outcome of the export run.
 */
module FixExport {

  import opened Common
  import opened Text
  import opened Paths
  import opened Properties

  // ---------------------------------------------------------------------
  // determine_folder

  /** The keyword lists of `determine_folder`, in the order they are tried. */
  const Keywords: seq<seq<string>> := [
    ["abrupt", "cancel", "convert", "ukb", "pdf", "download", "extract", "final", "collection", "normalis"],
    ["introduction", "rag discussion", "refocus", "hypothsis", "proposal", "supervisor"],
    ["benchmark", "test", "experiment", "validation"],
    ["contextual", "retrieval", "survey", "biobank", "monarch", "paper", "literature"],
    ["error", "metadata", "threadripper", "trouble", "infected", "debug", "issue"],
    ["week", "summary", "weekly"],
    ["faiss", "langchain", "llama", "milvus", "pytorch", "transform", "weaviate", "pipeline", "code"],
    ["docker", "python", "roocode", "ubuntu", "vs code", "workstation", "gpu", "system", "infrastructure"],
    ["synonym", "prompt", "template"],
    ["research", "method", "overview", "architecture"],
    ["progress", "tracking"]
  ]

  /** The folder each keyword list selects. */
  const Folders: seq<string> := [
    "1. Activity Log (80+ Required)",
    "2. Supervisor Meetings (10+ Required)",
    "3. Experiments & Validation (8+ Required)",
    "4. Literature Review (30+ Papers)",
    "5. Issues & Debugging (15+ Required)",
    "6. Weekly Summaries (12+ Required)",
    "7. Code Implementations (10+ Required)",
    "8. System Architecture & Infrastructure",
    "9. Prompts & Templates",
    "Research Pages",
    "Progress Tracking"
  ]

  /** The folder of a title that no keyword matches. */
  const DefaultFolder := "Databases"

  /** `any(x in t for x in keys)`. */
  predicate AnyIn(t: string, keys: seq<string>) {
    exists k :: 0 <= k < |keys| && Contains(t, keys[k])
  }

  /**
   * The `elif` chain from rule `k` on: the folder of the first rule whose
   * keywords occur in `t`, `Databases` after the last rule.
   */
  function FolderFrom(t: string, k: nat): (folder: string)
    requires k <= |Keywords| == |Folders|
    ensures forall m ::
      (k <= m < |Keywords| && AnyIn(t, Keywords[m]) &&
       forall j :: k <= j < m ==> !AnyIn(t, Keywords[j])) ==> folder == Folders[m]
    ensures (forall m :: k <= m < |Keywords| ==> !AnyIn(t, Keywords[m])) ==> folder == DefaultFolder
    decreases |Keywords| - k
  {
    if k == |Keywords| then DefaultFolder
    else if AnyIn(t, Keywords[k]) then Folders[k]
    else FolderFrom(t, k + 1)
  }

  /**
   * `determine_folder`: the folder of the first rule with a keyword in the
   * lower-cased title, `Databases` when none has. The `idx` argument of the
   * source is never read and is not a parameter here.
   */
  function DetermineFolder(title: string): (folder: string)
    ensures forall k ::
      (0 <= k < |Keywords| && AnyIn(Lower(title), Keywords[k]) &&
       forall j :: 0 <= j < k ==> !AnyIn(Lower(title), Keywords[j])) ==> folder == Folders[k]
    ensures (forall k :: 0 <= k < |Keywords| ==> !AnyIn(Lower(title), Keywords[k])) ==> folder == DefaultFolder
  {
    FolderFrom(Lower(title), 0)
  }

  /** A title with `week` in it and no keyword of the five earlier rules is a weekly summary. */
  lemma WeekTitle(title: string)
    requires Contains(Lower(title), "week")
    requires forall j :: 0 <= j < 5 ==> !AnyIn(Lower(title), Keywords[j])
    ensures DetermineFolder(title) == "6. Weekly Summaries (12+ Required)"
  {
    assert Keywords[5][0] == "week";
    assert AnyIn(Lower(title), Keywords[5]);
  }

  // ---------------------------------------------------------------------
  // Counters, file names and output paths

  /** The keys of `db_counters`: `str(i)` for `i` in `range(1, 10)`. */
  const CounterKeys: set<string> := set c | '1' <= c <= '9' :: [c]

  /** `db_counters` before the loop: every key at zero. */
  const InitialCounters: map<string, nat> := map d | d in CounterKeys :: 0

  /** `folder.split('.')[0] if '.' in folder else '0'`, the first piece taken as what precedes the first `.`. */
  function DbNum(folder: string): (d: string)
    ensures '.' in folder ==> d == Split(folder, '.')[0]
    ensures '.' !in folder ==> d == "0"
  {
    SplitFirst(folder, '.');
    if '.' in folder then Before(folder, '.') else "0"
  }

  /** A folder named `<digit>. ...` counts under that digit. */
  lemma NumberedFolder(f: string)
    requires |f| >= 2 && '1' <= f[0] <= '9' && f[1] == '.'
    ensures '.' in f && DbNum(f) == [f[0]] && DbNum(f) in CounterKeys
  {
    assert Before(f, '.') == [f[0]] + Before(f[1..], '.');
  }

  /**
   * The nine numbered folders count in `db_counters` and live under
   * `Databases`; the other two folders and the default have no `.`, so
   * they get no counter and sit directly under the output directory.
   */
  lemma FolderBuckets()
    ensures |Folders| == |Keywords| == 11
    ensures forall k :: 0 <= k < 9 ==> '.' in Folders[k] && DbNum(Folders[k]) in CounterKeys
    ensures forall k :: 9 <= k < 11 ==> '.' !in Folders[k] && DbNum(Folders[k]) !in CounterKeys
    ensures '.' !in DefaultFolder && DbNum(DefaultFolder) !in CounterKeys
  {
    forall k | 0 <= k < 9
      ensures '.' in Folders[k] && DbNum(Folders[k]) in CounterKeys
    {
      NumberedFolder(Folders[k]);
    }
  }

  /** The name the loop gives a page: an optional `%02d. ` number, the title and `.md`, filtered and right-stripped. */
  function Filename(title: string, number: Option<nat>): (r: string)
    ensures forall i :: 0 <= i < |r| ==> NameChar(r[i])
  {
    var prefix := match number case Some(n) => Pad2(n) + ". " case None => "";
    RStrip(Filter(prefix + title + ".md", NameChar))
  }

  /**
   * Filtering never removes the `.md` extension, and `rstrip` has nothing
   * to strip after it; a numbered name starts with its two-digit number.
   */
  lemma FilenameShape(title: string, number: Option<nat>)
    ensures number.None? ==> Filename(title, number) == Filter(title, NameChar) + ".md"
    ensures number.Some? ==>
      Filename(title, number) == Pad2(number.value) + ". " + Filter(title, NameChar) + ".md"
  {
    var prefix := match number case Some(n) => Pad2(n) + ". " case None => "";
    FilterAppend(prefix + title, ".md", NameChar);
    MdKept();
    FilterAppend(prefix, title, NameChar);
    PrefixKept(number);
    NothingAfterMd(Filter(prefix, NameChar) + Filter(title, NameChar));
  }

  lemma MdKept()
    ensures Filter(".md", NameChar) == ".md"
  {
    FilterKeepsAll(".md", NameChar);
  }

  lemma PrefixKept(number: Option<nat>)
    ensures number.None? ==> Filter("", NameChar) == ""
    ensures number.Some? ==> Filter(Pad2(number.value) + ". ", NameChar) == Pad2(number.value) + ". "
  {
    if number.Some? {
      var prefix := Pad2(number.value) + ". ";
      forall i | 0 <= i < |prefix| ensures NameChar(prefix[i]) {
        if i < |Pad2(number.value)| {
          assert prefix[i] == Pad2(number.value)[i];
        }
      }
      FilterKeepsAll(prefix, NameChar);
    }
  }

  lemma NothingAfterMd(x: string)
    ensures TrimRight(x + ".md", IsPySpace) == x + ".md"
  {
    var s := x + ".md";
    assert s[|s| - 1] == 'd';
  }

  /** `Path(output_dir) / "Databases" / folder` for a numbered folder, `Path(output_dir) / folder` otherwise. */
  function FolderPath(outputDir: Path, folder: string): (p: Path)
    ensures folder != "" && folder != "." && '.' in folder ==> p == Child(outputDir, "Databases") + [folder]
    ensures folder != "" && folder != "." && '.' !in folder ==> p == outputDir + [folder]
  {
    if '.' in folder then Child(Child(outputDir, "Databases"), folder) else Child(outputDir, folder)
  }

  // ---------------------------------------------------------------------
  // Page ids and titles

  /** `[pid.strip() for pid in ids.split(',') if pid.strip()]`. */
  function PageIds(ids: string): (r: seq<string>)
    ensures forall i :: 0 <= i < |r| ==> r[i] != "" && !IsPySpace(r[i][0]) && !IsPySpace(r[i][|r[i]| - 1])
    ensures |r| <= |Split(ids, ',')|
  {
    NonBlank(Split(ids, ','))
  }

  function NonBlank(parts: seq<string>): (r: seq<string>)
    ensures |r| <= |parts|
    ensures forall i :: 0 <= i < |r| ==> r[i] != "" && !IsPySpace(r[i][0]) && !IsPySpace(r[i][|r[i]| - 1])
  {
    if parts == [] then []
    else
      var s := Strip(parts[0]);
      StripEnds(parts[0]);
      (if s != "" then [s] else []) + NonBlank(parts[1..])
  }

  /** A piece gives an id exactly when it is not blank, and the id is the piece stripped. */
  lemma NonBlankMembers(parts: seq<string>, x: string)
    ensures x in NonBlank(parts) <==> x != "" && exists k :: 0 <= k < |parts| && Strip(parts[k]) == x
  {
    if x in NonBlank(parts) {
      NonBlankFrom(parts, x);
    }
    if x != "" && exists k :: 0 <= k < |parts| && Strip(parts[k]) == x {
      var k :| 0 <= k < |parts| && Strip(parts[k]) == x;
      NonBlankHas(parts, k);
    }
  }

  /** Every id is a non-blank piece, stripped. */
  lemma {:induction false} NonBlankFrom(parts: seq<string>, x: string)
    requires x in NonBlank(parts)
    ensures x != "" && exists k :: 0 <= k < |parts| && Strip(parts[k]) == x
  {
    var tail := parts[1..];
    if x !in NonBlank(tail) {
      assert Strip(parts[0]) == x;
    } else {
      NonBlankFrom(tail, x);
      var k :| 0 <= k < |tail| && Strip(tail[k]) == x;
      assert parts[k + 1] == tail[k];
    }
  }

  /** Every non-blank piece, stripped, is an id. */
  lemma {:induction false} NonBlankHas(parts: seq<string>, k: nat)
    requires k < |parts| && Strip(parts[k]) != ""
    ensures Strip(parts[k]) in NonBlank(parts)
  {
    var head := if Strip(parts[0]) != "" then [Strip(parts[0])] else [];
    assert NonBlank(parts) == head + NonBlank(parts[1..]);
    if k > 0 {
      assert parts[1..][k - 1] == parts[k];
      NonBlankHas(parts[1..], k - 1);
    }
  }

  /** Pieces that are already stripped and non-blank are kept, all of them, in order. */
  lemma {:induction false} NonBlankKeeps(parts: seq<string>)
    requires forall k :: 0 <= k < |parts| ==> parts[k] != "" && Strip(parts[k]) == parts[k]
    ensures NonBlank(parts) == parts
  {
    if parts != [] {
      NonBlankKeeps(parts[1..]);
      assert [parts[0]] + parts[1..] == parts;
    }
  }

  /**
   * Non-empty ids without a comma and without white space at either end,
   * joined with commas, parse back to exactly themselves.
   */
  lemma PageIdsJoin(ids: seq<string>)
    requires forall k :: 0 <= k < |ids| ==> ids[k] != "" && ',' !in ids[k] && Strip(ids[k]) == ids[k]
    ensures PageIds(Join(ids, ",")) == ids
  {
    if ids == [] {
      assert Strip("") == "";
    } else {
      SplitJoin(ids, ',');
      assert [','] == ",";
      NonBlankKeeps(ids);
    }
  }

  /** A stripped string neither starts nor ends with whitespace. */
  lemma StripEnds(s: string)
    ensures Strip(s) != "" ==> !IsPySpace(Strip(s)[0]) && !IsPySpace(Strip(s)[|Strip(s)| - 1])
  {
    var t := TrimRight(s, IsPySpace);
    var u := TrimLeft(t, IsPySpace);
    if u != "" {
      assert u[|u| - 1] == t[|t| - 1];
    }
  }

  /**
   * The title the embedded lookup script prints: the first title property
   * with text, `Untitled` when there is none, `Error` when the page cannot
   * be retrieved (`None`).
   */
  function ScriptTitle(props: Option<PropertyList>): (t: string)
    ensures t != ""
    ensures props.Some? && FirstTitleTyped(props.value).Some? ==> Some(t) == FirstTitleTyped(props.value)
    ensures props.Some? && FirstTitleTyped(props.value).None? ==> t == "Untitled"
  {
    match props
    case None => "Error"
    case Some(p) => FirstTitleTyped(p).GetOr("Untitled")
  }

  /** The lookup's last output line: JSON with or without a `title` key, or not JSON at all. */
  datatype InfoReply = InfoJson(title: Option<string>) | InfoUnreadable

  /** `info.get('title', 'Untitled')`, or `Page_<idx>` when the line does not parse. */
  function TitleOf(reply: InfoReply, idx: nat): (t: string)
    ensures reply.InfoUnreadable? ==> t == "Page_" + Decimal(idx)
    ensures reply.InfoJson? && reply.title.None? ==> t == "Untitled"
    ensures reply.InfoJson? && reply.title.Some? ==> t == reply.title.value
  {
    match reply
    case InfoJson(title) => title.GetOr("Untitled")
    case InfoUnreadable => "Page_" + Decimal(idx)
  }

  // ---------------------------------------------------------------------
  // The export loop

  /** How the export subprocess ended: an exit code, or an exception (the 30 s timeout). */
  datatype ExportRun = Exited(code: int) | Raised

  /** What the loop computes for one page. */
  datatype Planned = Planned(cleanId: string, title: string, folder: string, dbNum: string, number: Option<nat>,
                             filename: string, outputPath: Path, status: ExportRun)

  /** How many planned pages so far fall in the counter `d`. */
  function Tally(plan: seq<Planned>, d: string): (n: nat)
    ensures n <= |plan|
  {
    if plan == [] then 0
    else Tally(plan[..|plan| - 1], d) + (if plan[|plan| - 1].dbNum == d then 1 else 0)
  }

  /** Within one counter, a later page gets a larger number. */
  lemma {:induction false} TallyGrows(plan: seq<Planned>, i: nat, j: nat, d: string)
    requires i < j < |plan| && plan[j].dbNum == d
    ensures Tally(plan[..i + 1], d) < Tally(plan[..j + 1], d)
    decreases j
  {
    assert plan[..j + 1][..j] == plan[..j];
    if i + 1 < j {
      TallyMonotone(plan, i + 1, j, d);
    } else {
      assert i + 1 == j;
    }
  }

  lemma {:induction false} TallyMonotone(plan: seq<Planned>, m: nat, n: nat, d: string)
    requires m <= n <= |plan|
    ensures Tally(plan[..m], d) <= Tally(plan[..n], d)
    decreases n - m
  {
    if m < n {
      TallyMonotone(plan, m, n - 1, d);
      assert plan[..n][..n - 1] == plan[..n - 1];
    }
  }

  /** Every page of a counter gets the next number, from 1: the last one's number is the count. */
  lemma {:induction false} TallyFirst(plan: seq<Planned>, i: nat, d: string)
    requires i < |plan| && plan[i].dbNum == d
    requires forall j :: 0 <= j < i ==> plan[j].dbNum != d
    ensures Tally(plan[..i + 1], d) == 1
  {
    assert plan[..i + 1][..i] == plan[..i];
    TallyNone(plan[..i], d);
  }

  lemma {:induction false} TallyNone(plan: seq<Planned>, d: string)
    requires forall j :: 0 <= j < |plan| ==> plan[j].dbNum != d
    ensures Tally(plan, d) == 0
  {
    if plan != [] {
      TallyNone(plan[..|plan| - 1], d);
    }
  }

  class ProperNotionExporter {
    /** `os.getenv('NOTION_TOKEN')`, which may be unset. */
    const notionToken: Option<string>
    const notionPageIds: string
    const outputDir: Path

    constructor (env: map<string, string>)
      ensures notionToken == (if "NOTION_TOKEN" in env then Some(env["NOTION_TOKEN"]) else None)
      ensures notionPageIds == Getenv(env, "NOTION_PAGE_IDS", "")
      ensures outputDir == ["output_final"]
    {
      notionToken := if "NOTION_TOKEN" in env then Some(env["NOTION_TOKEN"]) else None;
      notionPageIds := Getenv(env, "NOTION_PAGE_IDS", "");
      outputDir := ["output_final"];
    }

    /**
     * What the loop computes for the page `id` at position `idx`, with
     * `db_counters` at `counters`: a page in a numbered folder gets one more
     * than its counter, the others no number.
     */
    function PagePlan(id: string, idx: nat, counters: map<string, nat>,
                      info: string -> InfoReply, runExport: (string, string, Path) -> ExportRun): (p: Planned)
    {
      var cleanId := RemoveChar(id, '-');
      var title := TitleOf(info(cleanId), idx);
      var folder := DetermineFolder(title);
      var d := DbNum(folder);
      var number := if d in counters then Some(counters[d] + 1) else None;
      var outputPath := FolderPath(outputDir, folder);
      Planned(cleanId, title, folder, d, number, Filename(title, number), outputPath,
              if notionToken.Some? then runExport(notionToken.value, cleanId, outputPath) else Raised)
    }

    /** The loop body as a function of the page id, its position and the counters. */
    function Step(info: string -> InfoReply, runExport: (string, string, Path) -> ExportRun): (step: PageStep)
      ensures Numbers(step)
    {
      (id: string, idx: nat, counters: map<string, nat>) => PagePlan(id, idx, counters, info, runExport)
    }

    /**
     * `run`: the export loop over `NOTION_PAGE_IDS`, one page after the
     * other as `PagePlan` computes it.
     */
    method Run(info: string -> InfoReply, runExport: (string, string, Path) -> ExportRun)
      returns (plan: seq<Planned>, counters: map<string, nat>, finished: bool)
      ensures |plan| <= |PageIds(notionPageIds)|
      ensures (plan, counters) == Plan(PageIds(notionPageIds)[..|plan|], Step(info, runExport))
      ensures finished ==> |plan| == |PageIds(notionPageIds)|
      ensures !finished ==> plan != [] && plan[|plan| - 1].status.Raised?
      ensures forall i :: 0 <= i < |plan| && plan[i].status.Raised? ==> i == |plan| - 1 && !finished
    {
      plan, counters, finished := RunPlan(PageIds(notionPageIds), Step(info, runExport));
    }
  }

  /** The loop body for one page: the page id, its position from 1 and the counters before it. */
  type PageStep = (string, nat, map<string, nat>) -> Planned

  /** A page in a numbered folder gets one more than its counter; the others no number. */
  ghost predicate Numbers(step: PageStep) {
    forall id, idx, counters {:trigger step(id, idx, counters)} ::
      step(id, idx, counters).number ==
        if step(id, idx, counters).dbNum in counters then Some(counters[step(id, idx, counters).dbNum] + 1) else None
  }

  /**
   * The pages planned for `ids` and the counters after them, in order:
   * the loop run to the end without an exception.
   */
  function Plan(ids: seq<string>, step: PageStep): (r: (seq<Planned>, map<string, nat>))
    ensures |r.0| == |ids|
  {
    if ids == [] then ([], InitialCounters)
    else
      var prev := Plan(ids[..|ids| - 1], step);
      var p := step(ids[|ids| - 1], |ids|, prev.1);
      (prev.0 + [p], Bump(prev.1, p.dbNum))
  }

  /** Planning one more id appends its page and counts it. */
  lemma PlanSnoc(ids: seq<string>, i: nat, step: PageStep)
    requires i < |ids|
    ensures Plan(ids[..i + 1], step).0 == Plan(ids[..i], step).0 + [step(ids[i], i + 1, Plan(ids[..i], step).1)]
    ensures Plan(ids[..i + 1], step).1 == Bump(Plan(ids[..i], step).1, step(ids[i], i + 1, Plan(ids[..i], step).1).dbNum)
  {
    assert ids[..i + 1][..i] == ids[..i];
  }

  /**
   * The counters after a plan keep the keys `1` to `9`, and hold for each
   * key how many of the planned pages fall in that folder.
   */
  lemma {:induction false} PlanCounts(ids: seq<string>, step: PageStep)
    ensures Plan(ids, step).1.Keys == CounterKeys
    ensures forall d :: d in CounterKeys ==> Plan(ids, step).1[d] == Tally(Plan(ids, step).0, d)
  {
    if ids != [] {
      var prev := Plan(ids[..|ids| - 1], step);
      PlanCounts(ids[..|ids| - 1], step);
      TallyPush(prev.0, step(ids[|ids| - 1], |ids|, prev.1));
    }
  }

  /** Planning a prefix of the ids plans a prefix of the pages. */
  lemma {:induction false} PlanPrefix(ids: seq<string>, n: nat, step: PageStep)
    requires n <= |ids|
    ensures Plan(ids, step).0[..n] == Plan(ids[..n], step).0
    decreases |ids|
  {
    if n < |ids| {
      PlanPrefix(ids[..|ids| - 1], n, step);
      assert ids[..|ids| - 1][..n] == ids[..n];
      assert Plan(ids, step).0[..n] == Plan(ids[..|ids| - 1], step).0[..n];
    } else {
      assert ids[..n] == ids;
    }
  }

  /** Page `i` is planned from its id and position, with the counters left by the pages before it. */
  lemma PlanPage(ids: seq<string>, i: nat, step: PageStep)
    requires i < |ids|
    ensures Plan(ids, step).0[..i] == Plan(ids[..i], step).0
    ensures Plan(ids, step).0[i] == step(ids[i], i + 1, Plan(ids[..i], step).1)
  {
    PlanPrefix(ids, i + 1, step);
    PlanPrefix(ids, i, step);
    assert ids[..i + 1][..i] == ids[..i];
    assert Plan(ids, step).0[..i + 1][i] == Plan(ids, step).0[i];
  }

  /**
   * Each page of a numbered folder is numbered with its folder's count up
   * to and including itself (1, 2, 3, ... within the folder), and the
   * other pages are not numbered.
   */
  lemma {:induction false} PlanNumbered(ids: seq<string>, step: PageStep)
    requires Numbers(step)
    ensures Numbered(Plan(ids, step).0)
  {
    if ids != [] {
      var prev := Plan(ids[..|ids| - 1], step);
      PlanNumbered(ids[..|ids| - 1], step);
      PlanCounts(ids[..|ids| - 1], step);
      var p := step(ids[|ids| - 1], |ids|, prev.1);
      assert p.number == if p.dbNum in prev.1 then Some(prev.1[p.dbNum] + 1) else None;
      NumberedPush(prev.0, p);
    }
  }

  /** A page numbered one past its folder's tally keeps a numbered plan numbered. */
  lemma NumberedPush(plan: seq<Planned>, p: Planned)
    requires Numbered(plan)
    requires p.number == if p.dbNum in CounterKeys then Some(Tally(plan, p.dbNum) + 1) else None
    ensures Numbered(plan + [p])
  {
    var q := plan + [p];
    forall j | 0 <= j < |q|
      ensures q[j].number == if q[j].dbNum in CounterKeys then Some(Tally(q[..j + 1], q[j].dbNum)) else None
    {
      if j < |plan| {
        assert q[..j + 1] == plan[..j + 1];
      } else {
        assert q[..j + 1] == q;
        TallyPushAt(plan, p, p.dbNum);
      }
    }
  }

  /**
   * `run`'s loop over the page ids, with `step` computing each page. A page
   * in a numbered folder raises that folder's counter by one. A failed
   * export is only reported; an exception (the timeout, or an unset token
   * that cannot be passed as an argument) ends the run after the page that
   * raised it.
   */
  method RunPlan(ids: seq<string>, step: PageStep) returns (plan: seq<Planned>, counters: map<string, nat>, finished: bool)
    ensures |plan| <= |ids|
    ensures plan == Plan(ids[..|plan|], step).0 && counters == Plan(ids[..|plan|], step).1
    ensures finished ==> |plan| == |ids|
    ensures !finished ==> plan != [] && plan[|plan| - 1].status.Raised?
    ensures forall i :: 0 <= i < |plan| && plan[i].status.Raised? ==> i == |plan| - 1 && !finished
  {
    counters := InitialCounters;
    plan := [];
    var i := 0;
    while i < |ids|
      invariant 0 <= i <= |ids| && plan == Plan(ids[..i], step).0 && counters == Plan(ids[..i], step).1
      invariant forall j :: 0 <= j < i ==> !plan[j].status.Raised?
    {
      var p := step(ids[i], i + 1, counters);
      PlanSnoc(ids, i, step);
      if p.dbNum in counters {
        counters := counters[p.dbNum := counters[p.dbNum] + 1];
      }
      plan := plan + [p];
      if p.status.Raised? {
        return plan, counters, false;
      }
      i := i + 1;
    }
    assert ids[..i] == ids;
    finished := true;
  }

  /** Each planned page carries the value its counter has once the page is counted, when it counts. */
  ghost predicate Numbered(plan: seq<Planned>) {
    forall j :: 0 <= j < |plan| ==>
      plan[j].number ==
        if plan[j].dbNum in CounterKeys then Some(Tally(plan[..j + 1], plan[j].dbNum)) else None
  }

  /** `db_counters[d] += 1` when `d` is a key; other keys, and a non-key, leave the counters as they are. */
  function Bump(counters: map<string, nat>, d: string): map<string, nat> {
    if d in counters then counters[d := counters[d] + 1] else counters
  }

  /** Appending a page counts it in its own counter. */
  lemma TallyPushAt(plan: seq<Planned>, p: Planned, d: string)
    requires p.dbNum == d
    ensures Tally(plan + [p], d) == Tally(plan, d) + 1
  {
    assert (plan + [p])[..|plan|] == plan;
  }

  /** Appending a page counts it in its own counter only. */
  lemma TallyPush(plan: seq<Planned>, p: Planned)
    ensures forall d :: Tally(plan + [p], d) == Tally(plan, d) + (if p.dbNum == d then 1 else 0)
  {
    assert (plan + [p])[..|plan|] == plan;
  }
}
