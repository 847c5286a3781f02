/**
 * The Python wrapper around the Node exporter (export_notion.py): it reads
 * its configuration from the environment, parses the page-id list, runs the
 * Node script once per page and gathers one result list, then splits that
 * list into exported and failed pages for display.
 *
 * Running the Node script is a parameter: `node(id)` is what
 * `subprocess.run` gives for the script called with that page id (the
 * token, output directory and separate-pages flag are fixed for a run).
 * Printing is left out.
 */
module BatchExport {

  import opened Common
  import opened Text
  import opened Properties
  import opened NodeExport

  // ------------------------------------------------------------ page ids

  /** `pid.strip().replace('-', '')`. */
  function PyClean(pid: string): (id: string)
    ensures '-' !in id
  {
    RemoveChar(Strip(pid), '-')
  }

  /** The list comprehension over the split pieces: non-blank pieces, cleaned. */
  function ParseParts(parts: seq<string>): (ids: seq<string>)
    ensures |ids| <= |parts|
  {
    if parts == [] then []
    else (if Strip(parts[0]) != "" then [PyClean(parts[0])] else []) + ParseParts(parts[1..])
  }

  /**
   * `validate_config`'s parse: spaces count as commas, pieces are stripped,
   * blank pieces are dropped and every `-` is removed.
   */
  function ParseIds(notionPageIds: string): (ids: seq<string>) {
    ParseParts(Split(MapChar(notionPageIds, ' ', ','), ','))
  }

  /** A space and a comma separate ids alike. */
  lemma SpaceIsComma(a: string, b: string)
    ensures ParseIds(a + " " + b) == ParseIds(a + "," + b)
  {
    var x := MapChar(a + " " + b, ' ', ',');
    var y := MapChar(a + "," + b, ' ', ',');
    assert x == y by {
      forall i | 0 <= i < |x| ensures x[i] == y[i] {
        if i != |a| {
          assert (a + " " + b)[i] == (a + "," + b)[i];
        }
      }
    }
  }

  /** An id with no `-`, `,` or space. */
  predicate Bare(id: string) {
    '-' !in id && ',' !in id && ' ' !in id
  }

  /** No parsed id contains a `-`, a `,` or a space. */
  lemma {:induction false} ParsePartsBare(parts: seq<string>)
    requires forall i :: 0 <= i < |parts| ==> ' ' !in parts[i] && ',' !in parts[i]
    ensures forall k :: 0 <= k < |ParseParts(parts)| ==> Bare(ParseParts(parts)[k])
  {
    if parts != [] {
      assert forall i :: 0 <= i < |parts[1..]| ==> parts[1..][i] == parts[i + 1];
      ParsePartsBare(parts[1..]);
      var rest := ParseParts(parts[1..]);
      var head := if Strip(parts[0]) != "" then [PyClean(parts[0])] else [];
      if head != [] {
        StripMembers(parts[0]);
        assert Bare(head[0]);
      }
      assert ParseParts(parts) == head + rest;
      forall k | 0 <= k < |head + rest| ensures Bare((head + rest)[k]) {
        if k >= |head| { assert (head + rest)[k] == rest[k - |head|]; }
      }
    }
  }

  lemma ParseIdsBare(notionPageIds: string)
    ensures forall k :: 0 <= k < |ParseIds(notionPageIds)| ==> Bare(ParseIds(notionPageIds)[k])
  {
    var m := MapChar(notionPageIds, ' ', ',');
    var parts := Split(m, ',');
    forall i | 0 <= i < |parts| ensures ' ' !in parts[i] {
      SplitMembers(m, ',', i);
    }
    ParsePartsBare(parts);
  }

  /** Every character of a split piece comes from the split string. */
  lemma {:induction false} SplitMembers(s: string, sep: char, i: nat)
    requires i < |Split(s, sep)|
    ensures forall c :: c in Split(s, sep)[i] ==> c in s
  {
    if s != [] {
      var rest := Split(s[1..], sep);
      if s[0] == sep {
        if i > 0 { SplitMembers(s[1..], sep, i - 1); }
      } else if i == 0 {
        SplitMembers(s[1..], sep, 0);
      } else {
        SplitMembers(s[1..], sep, i);
      }
    }
  }

  /** An id made of nothing but `-` passes the blank test and comes out empty. */
  lemma DashOnlyId()
    ensures ParseIds("-") == [""]
  {
    MapCharAbsent("-", ' ', ',');
    SplitNoSep("-", ',');
    assert !IsPySpace('-');
    assert Strip("-") == "-";
    assert RemoveChar("-", '-') == "";
  }

  /** An id as a list may hold it: not empty, no `,` and no white space (a `-` is allowed). */
  predicate ListedId(id: string) {
    id != "" && ',' !in id && forall i :: 0 <= i < |id| ==> !IsPySpace(id[i])
  }

  /** Comma-joined ids parse back to themselves with their dashes removed. */
  lemma ParseIdsJoin(ids: seq<string>)
    requires ids != []
    requires forall k :: 0 <= k < |ids| ==> ListedId(ids[k])
    ensures |ParseIds(Join(ids, ","))| == |ids|
    ensures forall k :: 0 <= k < |ids| ==> ParseIds(Join(ids, ","))[k] == RemoveChar(ids[k], '-')
  {
    var joined := Join(ids, ",");
    NoSpaceJoined(ids);
    MapCharAbsent(joined, ' ', ',');
    SplitJoin(ids, ',');
    ParsePartsKeep(ids);
  }

  /** Comma-joined ids without dashes parse back to exactly themselves. */
  lemma ParseIdsJoinBare(ids: seq<string>)
    requires ids != []
    requires forall k :: 0 <= k < |ids| ==> ListedId(ids[k]) && '-' !in ids[k]
    ensures ParseIds(Join(ids, ",")) == ids
  {
    ParseIdsJoin(ids);
    forall k | 0 <= k < |ids| ensures RemoveChar(ids[k], '-') == ids[k] {
      FilterKeepsAll(ids[k], c => c != '-');
    }
  }

  lemma NoSpaceJoined(ids: seq<string>)
    requires forall k :: 0 <= k < |ids| ==> ListedId(ids[k])
    ensures ' ' !in Join(ids, ",")
  {
    JoinMembers(ids, ",");
    assert IsPySpace(' ');
  }

  lemma {:induction false} ParsePartsKeep(ids: seq<string>)
    requires forall k :: 0 <= k < |ids| ==> ListedId(ids[k])
    ensures |ParseParts(ids)| == |ids|
    ensures forall k :: 0 <= k < |ids| ==> ParseParts(ids)[k] == RemoveChar(ids[k], '-')
  {
    if ids != [] {
      assert forall i :: 0 <= i < |ids[1..]| ==> ids[1..][i] == ids[i + 1];
      ParsePartsKeep(ids[1..]);
      var rest := ParseParts(ids[1..]);
      ParsePartsHead(ids);
      forall k | 0 <= k < |ids| ensures ParseParts(ids)[k] == RemoveChar(ids[k], '-') {
        if k > 0 { assert ParseParts(ids)[k] == rest[k - 1]; }
      }
    }
  }

  lemma ParsePartsHead(ids: seq<string>)
    requires ids != [] && ListedId(ids[0])
    ensures ParseParts(ids) == [RemoveChar(ids[0], '-')] + ParseParts(ids[1..])
  {
    StripNoSpace(ids[0]);
  }

  // ------------------------------------------------------- one Node run

  /** What `json.loads(result.stdout)` gives. */
  datatype Reply =
    | Object(success: bool, pages: seq<PageResult>)   // a dict; `success` is its truth value
    | NotObject(message: string)                      // valid JSON without `.get`: the AttributeError text
    | Invalid                                         // JSONDecodeError

  /** What `subprocess.run` gives: the finished process, a timeout, or another exception's text. */
  datatype NodeRun =
    | Finished(returnCode: int, stdout: string, stderr: string, reply: Reply)
    | TimedOut
    | Raised(message: string)

  /** One entry of `all_results['pages']`: a page object from the script, or `{pageId, error}`. */
  datatype Entry = FromNode(page: PageResult) | ErrorEntry(pageId: string, error: string)

  /** `'error' in p`: the script's failed pages carry an `error` key too. */
  predicate HasError(e: Entry) {
    e.ErrorEntry? || e.page.PageFailed?
  }

  const TimeoutMessage := "Export timed out - page may be too large"
  const NoContent := "No content returned"
  const InvalidJson := "Invalid JSON response"

  /** What one page adds: entries to append, or the error that ends the whole run. */
  datatype Outcome = Continue(entries: seq<Entry>) | Stop(error: string)

  /** `all_results['pages'].extend(page_result['pages'])`. */
  function FromScript(pages: seq<PageResult>): (entries: seq<Entry>)
    ensures |entries| == |pages|
  {
    seq(|pages|, k requires 0 <= k < |pages| => FromNode(pages[k]))
  }

  /** `(result.stderr or result.stdout)[:200]`. */
  function ExitMessage(stdout: string, stderr: string): (m: string)
    ensures |m| <= 200
    ensures stderr != "" ==> m <= stderr && |m| == (if |stderr| < 200 then |stderr| else 200)
    ensures stderr == "" ==> m <= stdout && |m| == (if |stdout| < 200 then |stdout| else 200)
  {
    Take(OrElse(stderr, stdout), 200)
  }

  /** The body of the `for` loop for one cleaned id. */
  function PageOutcome(cleanId: string, run: NodeRun): Outcome {
    match run
    case TimedOut => Stop(TimeoutMessage)
    case Raised(message) => Stop(message)
    case Finished(code, out, err, reply) =>
      if code != 0 then Continue([ErrorEntry(cleanId, ExitMessage(out, err))])
      else
        match reply
        case Invalid => Continue([ErrorEntry(cleanId, InvalidJson)])
        case NotObject(message) => Stop(message)
        case Object(success, pages) =>
          if success && pages != [] then Continue(FromScript(pages))
          else Continue([ErrorEntry(cleanId, NoContent)])
  }

  /** A page ends the run exactly when the script times out, raises, or answers with JSON that is not an object. */
  lemma PageStops(cleanId: string, run: NodeRun)
    ensures PageOutcome(cleanId, run).Stop? <==>
      run.TimedOut? || run.Raised? || (run.returnCode == 0 && run.reply.NotObject?)
  {
  }

  /** A page that does not end the run adds at least one entry, and the errors the wrapper writes name the page and are short. */
  lemma PageEntries(cleanId: string, run: NodeRun)
    requires PageOutcome(cleanId, run).Continue?
    ensures var es := PageOutcome(cleanId, run).entries;
      |es| >= 1 &&
      forall k :: 0 <= k < |es| && es[k].ErrorEntry? ==> es[k].pageId == cleanId && |es[k].error| <= 200
  {
  }

  /** What the loop body does for one cleaned id: run the script and read its answer. */
  function IdOutcome(cleanId: string, node: string -> NodeRun): Outcome {
    PageOutcome(cleanId, node(cleanId))
  }

  /** Every id of the list as the loop cleans it. */
  function Cleaned(ids: seq<string>): (cleanIds: seq<string>)
    ensures |cleanIds| == |ids|
  {
    if ids == [] then [] else Cleaned(ids[..|ids| - 1]) + [PyClean(ids[|ids| - 1])]
  }

  lemma {:induction false} CleanedAt(ids: seq<string>, k: nat)
    requires k < |ids|
    ensures Cleaned(ids)[k] == PyClean(ids[k])
  {
    if k < |ids| - 1 {
      var init := ids[..|ids| - 1];
      CleanedAt(init, k);
      assert init[k] == ids[k];
    }
  }

  /** Appending one page's outcome; a run that has stopped stays stopped. */
  function Then(acc: Outcome, next: Outcome): (r: Outcome)
    ensures r.Stop? <==> acc.Stop? || next.Stop?
    ensures r.Continue? ==> r.entries == acc.entries + next.entries
  {
    match acc
    case Stop(message) => Stop(message)
    case Continue(entries) =>
      match next
      case Stop(message) => Stop(message)
      case Continue(more) => Continue(entries + more)
  }

  /** The loop over the first cleaned ids: what has been gathered, or the error that ended it. */
  function Gather(ids: seq<string>, node: string -> NodeRun): Outcome {
    if ids == [] then Continue([])
    else Then(Gather(ids[..|ids| - 1], node), IdOutcome(ids[|ids| - 1], node))
  }

  /** What `run_node_script` returns. */
  datatype BatchResult = Completed(totalPages: nat, pages: seq<Entry>) | Aborted(error: string) {
    /** `result.get('success', False)`. */
    predicate Success() { Completed? }
  }

  function Batch(ids: seq<string>, node: string -> NodeRun): BatchResult {
    match Gather(Cleaned(ids), node)
    case Continue(entries) => Completed(|ids|, entries)
    case Stop(message) => Aborted(message)
  }

  lemma GatherSnoc(ids: seq<string>, i: nat, node: string -> NodeRun)
    requires i < |ids|
    ensures Gather(ids[..i + 1], node) == Then(Gather(ids[..i], node), IdOutcome(ids[i], node))
  {
    assert ids[..i + 1][..i] == ids[..i];
  }

  /** One turn of the loop: a stop ends the whole run with it, anything else appends its entries. */
  lemma {:induction false} GatherTurn(ids: seq<string>, i: nat, node: string -> NodeRun, pages: seq<Entry>)
    requires i < |ids| && Gather(ids[..i], node) == Continue(pages)
    ensures IdOutcome(ids[i], node).Stop? ==> Gather(ids, node) == IdOutcome(ids[i], node)
    ensures IdOutcome(ids[i], node).Continue? ==>
      Gather(ids[..i + 1], node) == Continue(pages + IdOutcome(ids[i], node).entries)
  {
    GatherSnoc(ids, i, node);
    if IdOutcome(ids[i], node).Stop? {
      GatherStops(ids, i + 1, node);
    }
  }

  /** Once a page ends the run, later pages change nothing. */
  lemma {:induction false} GatherStops(ids: seq<string>, i: nat, node: string -> NodeRun)
    requires i <= |ids| && Gather(ids[..i], node).Stop?
    ensures Gather(ids, node) == Gather(ids[..i], node)
    decreases |ids| - i
  {
    if i < |ids| {
      GatherSnoc(ids, i, node);
      GatherStops(ids, i + 1, node);
    } else {
      assert ids[..i] == ids;
    }
  }

  /**
   * The run is aborted exactly when the outcome of some id ends it, and
   * otherwise every id has left at least one entry.
   */
  lemma {:induction false} GatherCases(ids: seq<string>, node: string -> NodeRun)
    ensures Gather(ids, node).Stop? <==> exists j :: 0 <= j < |ids| && IdOutcome(ids[j], node).Stop?
    ensures Gather(ids, node).Continue? ==> |Gather(ids, node).entries| >= |ids|
  {
    if ids != [] {
      var init := ids[..|ids| - 1];
      var last := ids[|ids| - 1];
      GatherCases(init, node);
      var next := IdOutcome(last, node);
      if Gather(init, node).Stop? {
        var j :| 0 <= j < |init| && IdOutcome(init[j], node).Stop?;
        assert ids[j] == init[j];
      } else if next.Stop? {
        assert IdOutcome(ids[|ids| - 1], node).Stop?;
      } else {
        PageEntries(last, node(last));
        forall j | 0 <= j < |ids| ensures !IdOutcome(ids[j], node).Stop? {
          if j < |init| {
            assert ids[j] == init[j];
            assert !IdOutcome(init[j], node).Stop?;
          } else {
            assert ids[j] == last;
          }
        }
      }
    }
  }

  /** Every `{pageId, error}` entry the wrapper writes itself has an error of at most 200 characters. */
  lemma {:induction false} GatherErrorsShort(ids: seq<string>, node: string -> NodeRun)
    requires Gather(ids, node).Continue?
    ensures var es := Gather(ids, node).entries;
      forall k :: 0 <= k < |es| && es[k].ErrorEntry? ==> |es[k].error| <= 200
  {
    if ids != [] {
      var init := ids[..|ids| - 1];
      var last := ids[|ids| - 1];
      GatherErrorsShort(init, node);
      PageEntries(last, node(last));
      var before := Gather(init, node).entries;
      var more := IdOutcome(last, node).entries;
      var all := before + more;
      assert Gather(ids, node).entries == all;
      forall k | 0 <= k < |all| && all[k].ErrorEntry? ensures |all[k].error| <= 200 {
        if k >= |before| { assert all[k] == more[k - |before|]; }
      }
    }
  }

  /** The script exited with a non-zero code. */
  predicate ExitFailure(run: NodeRun) {
    run.Finished? && run.returnCode != 0
  }

  /**
   * When the script fails for every page the run still succeeds, with one
   * error entry per page, in order, and nothing exported.
   */
  lemma AllFailedStillSuccess(ids: seq<string>, node: string -> NodeRun)
    requires forall j :: 0 <= j < |ids| ==> ExitFailure(node(Cleaned(ids)[j]))
    ensures Batch(ids, node).Success()
    ensures var pages := Batch(ids, node).pages;
      |pages| == |ids| &&
      (forall k :: 0 <= k < |ids| ==>
        var run := node(Cleaned(ids)[k]);
        ExitFailure(run) && pages[k] == ErrorEntry(Cleaned(ids)[k], ExitMessage(run.stdout, run.stderr))) &&
      Succeeded(pages) == []
  {
    GatherAllFailed(Cleaned(ids), node);
    ErrorsNotSucceeded(Batch(ids, node).pages);
  }

  lemma {:induction false} GatherAllFailed(ids: seq<string>, node: string -> NodeRun)
    requires forall j :: 0 <= j < |ids| ==> ExitFailure(node(ids[j]))
    ensures Gather(ids, node).Continue?
    ensures var es := Gather(ids, node).entries;
      |es| == |ids| &&
      forall k :: 0 <= k < |ids| ==>
        ExitFailure(node(ids[k])) &&
        es[k] == ErrorEntry(ids[k], ExitMessage(node(ids[k]).stdout, node(ids[k]).stderr))
  {
    if ids != [] {
      var init := ids[..|ids| - 1];
      var last := ids[|ids| - 1];
      assert forall j :: 0 <= j < |init| ==> init[j] == ids[j];
      GatherAllFailed(init, node);
      var run := node(last);
      assert ExitFailure(node(ids[|ids| - 1]));
      var e := ErrorEntry(last, ExitMessage(run.stdout, run.stderr));
      assert IdOutcome(last, node) == Continue([e]);
      var before := Gather(init, node).entries;
      assert Gather(ids, node).entries == before + [e];
    }
  }

  // ---------------------------------------------------------- display

  /** `[p for p in pages if 'error' not in p]`. */
  function Succeeded(pages: seq<Entry>): (s: seq<Entry>)
    ensures |s| <= |pages|
  {
    if pages == [] then []
    else (if !HasError(pages[0]) then [pages[0]] else []) + Succeeded(pages[1..])
  }

  /** `[p for p in pages if 'error' in p]`. */
  function Failed(pages: seq<Entry>): (f: seq<Entry>)
    ensures |f| <= |pages|
  {
    if pages == [] then []
    else (if HasError(pages[0]) then [pages[0]] else []) + Failed(pages[1..])
  }

  /**
   * The two lists split the pages: together they hold every entry exactly
   * as often as the pages do.
   */
  lemma {:induction false} Partition(pages: seq<Entry>)
    ensures |Succeeded(pages)| + |Failed(pages)| == |pages|
    ensures multiset(Succeeded(pages)) + multiset(Failed(pages)) == multiset(pages)
  {
    if pages != [] {
      Partition(pages[1..]);
      assert pages == [pages[0]] + pages[1..];
      assert multiset(pages) == multiset([pages[0]]) + multiset(pages[1..]);
      var s := Succeeded(pages[1..]);
      var f := Failed(pages[1..]);
      if HasError(pages[0]) {
        assert Succeeded(pages) == s;
        assert Failed(pages) == [pages[0]] + f;
        assert multiset([pages[0]] + f) == multiset([pages[0]]) + multiset(f);
      } else {
        assert Succeeded(pages) == [pages[0]] + s;
        assert Failed(pages) == f;
        assert multiset([pages[0]] + s) == multiset([pages[0]]) + multiset(s);
      }
    }
  }

  /** The first list holds only entries without an error. */
  lemma {:induction false} SucceededHaveNoError(pages: seq<Entry>)
    ensures forall k :: 0 <= k < |Succeeded(pages)| ==> !HasError(Succeeded(pages)[k])
  {
    if pages != [] {
      SucceededHaveNoError(pages[1..]);
      var rest := Succeeded(pages[1..]);
      var head := if !HasError(pages[0]) then [pages[0]] else [];
      assert Succeeded(pages) == head + rest;
      forall k | 0 <= k < |head + rest| ensures !HasError((head + rest)[k]) {
        if k >= |head| { assert (head + rest)[k] == rest[k - |head|]; }
      }
    }
  }

  /** The second list holds only entries with an error. */
  lemma {:induction false} FailedHaveError(pages: seq<Entry>)
    ensures forall k :: 0 <= k < |Failed(pages)| ==> HasError(Failed(pages)[k])
  {
    if pages != [] {
      FailedHaveError(pages[1..]);
      var rest := Failed(pages[1..]);
      var head := if HasError(pages[0]) then [pages[0]] else [];
      assert Failed(pages) == head + rest;
      forall k | 0 <= k < |head + rest| ensures HasError((head + rest)[k]) {
        if k >= |head| { assert (head + rest)[k] == rest[k - |head|]; }
      }
    }
  }

  /** A list of error entries has nothing to show as exported. */
  lemma {:induction false} ErrorsNotSucceeded(pages: seq<Entry>)
    requires forall k :: 0 <= k < |pages| ==> pages[k].ErrorEntry?
    ensures Succeeded(pages) == []
  {
    if pages != [] {
      ErrorsNotSucceeded(pages[1..]);
    }
  }

  /**
   * The body of the loop for one page: the process's exit code first, then
   * its output as JSON; a timeout or another exception ends the run.
   */
  method ReadRun(cleanPageId: string, run: NodeRun) returns (outcome: Outcome)
    ensures outcome == PageOutcome(cleanPageId, run)
    ensures outcome.Stop? <==> run.TimedOut? || run.Raised? || (run.returnCode == 0 && run.reply.NotObject?)
    ensures outcome.Continue? ==> |outcome.entries| >= 1
    ensures outcome.Continue? ==> forall k :: 0 <= k < |outcome.entries| && outcome.entries[k].ErrorEntry? ==>
      outcome.entries[k].pageId == cleanPageId && |outcome.entries[k].error| <= 200
  {
    match run {
      case TimedOut =>
        return Stop(TimeoutMessage);
      case Raised(message) =>
        return Stop(message);
      case Finished(code, out, err, reply) =>
        if code != 0 {
          return Continue([ErrorEntry(cleanPageId, ExitMessage(out, err))]);
        }
        match reply {
          case Invalid =>
            return Continue([ErrorEntry(cleanPageId, InvalidJson)]);
          case NotObject(message) =>
            return Stop(message);
          case Object(success, nodePages) =>
            if success && nodePages != [] {
              return Continue(FromScript(nodePages));
            }
            return Continue([ErrorEntry(cleanPageId, NoContent)]);
        }
    }
  }

  // ---------------------------------------------------------- the class

  /** `NotionExporter`: configuration from the environment and the last parsed id list. */
  class NotionExporter {
    /** `os.getenv('NOTION_TOKEN')`, which may be unset. */
    const notionToken: Option<string>
    const notionPageIds: string
    const outputDir: string
    const separateChildPages: bool
    /** `self.page_ids_list`, set by `validate_config`. */
    var pageIdsList: seq<string>

    constructor (env: map<string, string>)
      ensures notionToken == (if "NOTION_TOKEN" in env then Some(env["NOTION_TOKEN"]) else None)
      ensures notionPageIds == Getenv(env, "NOTION_PAGE_IDS", Getenv(env, "NOTION_PAGE_ID", ""))
      ensures outputDir == Getenv(env, "OUTPUT_DIR", "/app/output")
      ensures separateChildPages <==> Lower(Getenv(env, "SEPARATE_CHILD_PAGES", "true")) == "true"
      ensures pageIdsList == []
    {
      notionToken := if "NOTION_TOKEN" in env then Some(env["NOTION_TOKEN"]) else None;
      notionPageIds := Getenv(env, "NOTION_PAGE_IDS", Getenv(env, "NOTION_PAGE_ID", ""));
      outputDir := Getenv(env, "OUTPUT_DIR", "/app/output");
      separateChildPages := Lower(Getenv(env, "SEPARATE_CHILD_PAGES", "true")) == "true";
      pageIdsList := [];
    }

    /** The configuration is accepted: a token, an id string and at least one parsed id. */
    predicate Valid()
      reads this
    {
      Truthy(notionToken) && notionPageIds != "" && ParseIds(notionPageIds) != []
    }

    /**
     * `validate_config`: a missing token or id string is refused before
     * anything is parsed; otherwise the list is parsed and must not be empty.
     */
    method ValidateConfig() returns (ok: bool)
      modifies this
      ensures ok <==> Valid()
      ensures !Truthy(notionToken) || notionPageIds == "" ==> pageIdsList == old(pageIdsList)
      ensures Truthy(notionToken) && notionPageIds != "" ==> pageIdsList == ParseIds(notionPageIds)
    {
      if !Truthy(notionToken) {
        return false;
      }
      if notionPageIds == "" {
        return false;
      }
      pageIdsList := ParseIds(notionPageIds);
      if pageIdsList == [] {
        return false;
      }
      return true;
    }

    /**
     * `run_node_script`: one Node run per id, in order; a run that times
     * out or raises ends everything and the gathered entries are dropped.
     */
    method RunNodeScript(node: string -> NodeRun) returns (result: BatchResult)
      ensures result == Batch(pageIdsList, node)
    {
      var ids := pageIdsList;
      ghost var cleaned := Cleaned(ids);
      var pages: seq<Entry> := [];
      var i := 0;
      assert cleaned[..0] == [];
      while i < |ids|
        invariant 0 <= i <= |ids|
        invariant Gather(cleaned[..i], node) == Continue(pages)
      {
        var cleanPageId := PyClean(ids[i]);
        CleanedAt(ids, i);
        var outcome := ReadRun(cleanPageId, node(cleanPageId));
        GatherTurn(cleaned, i, node, pages);
        match outcome {
          case Stop(message) =>
            return Aborted(message);
          case Continue(more) =>
            pages := pages + more;
        }
        i := i + 1;
      }
      assert cleaned[..i] == cleaned;
      return Completed(|ids|, pages);
    }

    /**
     * `export`: validate, run, and report `result.get('success', False)`;
     * the display step only prints.
     */
    method Export(node: string -> NodeRun) returns (success: bool)
      modifies this
      ensures success <==> old(Valid()) && Batch(ParseIds(notionPageIds), node).Success()
    {
      var ok := ValidateConfig();
      if !ok {
        return false;
      }
      var result := RunNodeScript(node);
      return result.Success();
    }
  }

  // ------------------------------------------------- the script's answer

  /**
   * When the Node exporter answers for an id the wrapper produced, the run
   * adds exactly one entry: the script's page for the trimmed id, or
   * "No content returned" when that id is empty after trimming.
   */
  lemma ScriptAnswer(id: string, cfg: Config, title: string -> Option<PropertyList>,
                     convert: string -> Conversion, out: string, err: string, answer: NodeResult)
    requires '-' !in id && ',' !in id
    requires answer.success && answer.pages == Pages(cfg, CleanIds(Split(id, ',')), title, convert)
    ensures var o := PageOutcome(id, Finished(0, out, err, Object(answer.success, answer.pages)));
      var t := JsTrim(id);
      (t != "" ==> o == Continue([FromNode(SinglePage(cfg, t, title(t), convert(t)))])) &&
      (t == "" ==> o == Continue([ErrorEntry(id, NoContent)]))
  {
    var t := JsTrim(id);
    ScriptIds(id);
    if t != "" {
      OnePageAnswer(id, cfg, t, title, convert, out, err);
    } else {
      assert answer.pages == [];
    }
  }

  lemma OnePageAnswer(id: string, cfg: Config, t: string, title: string -> Option<PropertyList>,
                      convert: string -> Conversion, out: string, err: string)
    ensures PageOutcome(id, Finished(0, out, err, Object(true, Pages(cfg, [t], title, convert)))) ==
      Continue([FromNode(SinglePage(cfg, t, title(t), convert(t)))])
  {
    var p := SinglePage(cfg, t, title(t), convert(t));
    assert Pages(cfg, [t], title, convert) == Pages(cfg, [], title, convert) + [p];
    assert FromScript([p]) == [FromNode(p)];
  }

  /** The Node script's own cleaning of an id the wrapper has cleaned: one id, trimmed, or none. */
  lemma ScriptIds(id: string)
    requires '-' !in id && ',' !in id
    ensures CleanIds(Split(id, ',')) == if JsTrim(id) != "" then [JsTrim(id)] else []
  {
    SplitNoSep(id, ',');
    var t := JsTrim(id);
    JsTrimMembers(id);
    assert '-' !in t;
    assert CleanId(id) == t;
    assert CleanAll([id]) == [t];
    assert NonEmpty([t]) == NonEmpty([t][..0]) + (if t != "" then [t] else []);
  }

  lemma JsTrimMembers(s: string)
    ensures forall c :: c in JsTrim(s) ==> c in s
  {
    var r := TrimRight(s, IsJsSpace);
    TrimLeftMembers(r, IsJsSpace);
    forall c | c in r ensures c in s {
      var i :| 0 <= i < |r| && r[i] == c;
      assert s[i] == c;
    }
  }
}
