/**
 * export_notion_hierarchical.py: `build_hierarchy`, which links the
 * scanner's flat page list into `self.structure` and the pages' `children`
 * lists; the scan step; the directory naming of `export_page_hierarchically`
 * and the flat path rule of `export`; the per-page export loop; and the
 * `write_tree` rendering of the INDEX.md structure.
 *
 * A page is identified by its position in the input list. `page_map` maps an
 * id to the LAST record with that id (a dict comprehension keeps the last
 * value); `children[i]` is the `children` list of the i-th record, as the
 * positions of the records appended to it.
 */
module HierarchicalExport {

  import opened Common
  import opened Text
  import opened Paths

  /** `{page['id']: page for page in pages}`, as positions. */
  function PageMap(pages: seq<PageRecord>): (m: map<string, nat>)
    ensures forall id :: id in m ==> m[id] < |pages|
    ensures forall i :: 0 <= i < |pages| ==> pages[i].id in m
  {
    if pages == [] then map[]
    else PageMap(pages[..|pages| - 1])[pages[|pages| - 1].id := |pages| - 1]
  }

  /** `page_map` holds every id, and maps it to the last record with that id. */
  lemma {:induction false} PageMapLast(pages: seq<PageRecord>)
    ensures forall id :: id in PageMap(pages) ==>
      PageMap(pages)[id] < |pages| && pages[PageMap(pages)[id]].id == id
    ensures forall id :: id in PageMap(pages) ==>
      forall j :: PageMap(pages)[id] < j < |pages| ==> pages[j].id != id
  {
    if pages != [] {
      var init := pages[..|pages| - 1];
      var last := |pages| - 1;
      var m0 := PageMap(init);
      PageMapLast(init);
      assert PageMap(pages) == m0[pages[last].id := last];
      forall id | id in PageMap(pages)
        ensures PageMap(pages)[id] < |pages| && pages[PageMap(pages)[id]].id == id
        ensures forall j :: PageMap(pages)[id] < j < |pages| ==> pages[j].id != id
      {
        if id != pages[last].id {
          assert PageMap(pages)[id] == m0[id];
          assert init[m0[id]] == pages[m0[id]];
          assert forall j :: m0[id] < j < last ==> init[j] == pages[j];
        }
      }
    }
  }

  /** `self.structure` after visiting the first `k` records: root id to its last parentless record. */
  function RootsUpTo(pages: seq<PageRecord>, k: nat): map<string, nat>
    requires k <= |pages|
  {
    if k == 0 then map[]
    else if pages[k - 1].parent.None? then RootsUpTo(pages, k - 1)[pages[k - 1].id := k - 1]
    else RootsUpTo(pages, k - 1)
  }

  /** The positions in `[lo, hi)` whose record names `id` as its parent, in input order. */
  function Matching(pages: seq<PageRecord>, id: string, lo: nat, hi: nat): seq<nat>
    requires lo <= hi <= |pages|
    decreases hi - lo
  {
    if hi == lo then []
    else Matching(pages, id, lo, hi - 1) + (if pages[hi - 1].parent == Some(id) then [hi - 1] else [])
  }

  /**
   * The `children` list that record `i` ends with: records that name it as
   * parent and come at or after it, provided it is the record `page_map`
   * keeps for its id; a shadowed duplicate keeps the empty list it was reset to.
   */
  function Attached(pages: seq<PageRecord>, i: nat): seq<nat>
    requires i < |pages|
  {
    if PageMap(pages)[pages[i].id] == i then Matching(pages, pages[i].id, i, |pages|) else []
  }

  lemma {:induction false} MatchingMembers(pages: seq<PageRecord>, id: string, lo: nat, hi: nat)
    requires lo <= hi <= |pages|
    ensures forall j :: j in Matching(pages, id, lo, hi) <==> lo <= j < hi && pages[j].parent == Some(id)
    ensures forall a, b :: 0 <= a < b < |Matching(pages, id, lo, hi)| ==>
      Matching(pages, id, lo, hi)[a] < Matching(pages, id, lo, hi)[b]
    ensures forall a :: 0 <= a < |Matching(pages, id, lo, hi)| ==> Matching(pages, id, lo, hi)[a] < hi
    decreases hi - lo
  {
    if hi > lo { MatchingMembers(pages, id, lo, hi - 1); }
  }

  /**
   * `HierarchicalNotionExporter`. The configuration is read from the
   * environment once, by the constructor; `structure` and the `children`
   * lists are filled in by `BuildHierarchy`.
   */
  class HierarchicalExporter {
    /** `NOTION_TOKEN`; an unset variable is the empty string (both are falsy). */
    var notionToken: string
    /** `NOTION_PAGE_IDS`, else `NOTION_PAGE_ID`, else empty. */
    var notionPageIds: string
    var outputDir: Path
    var separateChildPages: bool
    /** `self.structure`: root id to the position of its record. */
    var structure: map<string, nat>
    /** `page['children']` of every record, as positions. */
    var children: seq<seq<nat>>

    constructor (env: map<string, string>)
      ensures notionToken == Getenv(env, "NOTION_TOKEN", "")
      ensures notionPageIds == Getenv(env, "NOTION_PAGE_IDS", Getenv(env, "NOTION_PAGE_ID", ""))
      ensures outputDir == FromString(Getenv(env, "OUTPUT_DIR", "./output"))
      ensures separateChildPages <==> Lower(Getenv(env, "SEPARATE_CHILD_PAGES", "true")) == "true"
      ensures structure == map[] && children == []
    {
      notionToken := Getenv(env, "NOTION_TOKEN", "");
      notionPageIds := Getenv(env, "NOTION_PAGE_IDS", Getenv(env, "NOTION_PAGE_ID", ""));
      outputDir := FromString(Getenv(env, "OUTPUT_DIR", "./output"));
      separateChildPages := Lower(Getenv(env, "SEPARATE_CHILD_PAGES", "true")) == "true";
      structure := map[];
      children := [];
    }

    /** `validate_config`: a token and a page-id list are required. */
    predicate ValidateConfig()
      reads this
    {
      notionToken != "" && notionPageIds != ""
    }

    /** `build_hierarchy`: reset each record's children, register roots, append to parents. */
    method BuildHierarchy(pages: seq<PageRecord>)
      modifies this`structure, this`children
      ensures structure == RootsUpTo(pages, |pages|)
      ensures |children| == |pages|
      ensures forall i :: 0 <= i < |pages| ==> children[i] == Attached(pages, i)
    {
      var pageMap := PageMap(pages);
      var roots: map<string, nat> := map[];
      var cs: seq<seq<nat>> := seq(|pages|, _ => []);
      NothingVisited(pages, cs);
      var k := 0;
      while k < |pages|
        invariant 0 <= k <= |pages|
        invariant roots == RootsUpTo(pages, k)
        invariant ChildrenAfter(pages, cs, k)
      {
        var roots', cs' := VisitRecord(pages, pageMap, roots, cs, k);
        VisitKeeps(pages, cs, k);
        roots, cs := roots', cs';
        k := k + 1;
      }
      AllVisited(pages, cs);
      structure, children := roots, cs;
    }

    /**
     * `get_page_structure`: scan from the first configured id; on a
     * successful reply build the hierarchy and return the pages, otherwise
     * return nothing (the empty dict or `None`, both falsy).
     */
    method GetPageStructure(scan: string -> ScanReply) returns (data: Option<seq<PageRecord>>)
      modifies this`structure, this`children
      ensures data.Some? <==> Scanned(scan(FirstPageId(notionPageIds)))
      ensures data.Some? ==> data.value == scan(FirstPageId(notionPageIds)).data.value.pages
      ensures data.Some? ==> structure == RootsUpTo(data.value, |data.value|) && |children| == |data.value|
      ensures data.Some? ==> forall i :: 0 <= i < |data.value| ==> children[i] == Attached(data.value, i)
      ensures data.None? ==> structure == old(structure) && children == old(children)
    {
      var reply := scan(FirstPageId(notionPageIds));
      if reply.ScanExited? && reply.code == 0 && reply.data.Some? && reply.data.value.success {
        var pages := reply.data.value.pages;
        BuildHierarchy(pages);
        data := Some(pages);
      } else {
        data := None;
      }
    }

    /**
     * The loop of `export` over every scanned page: one outcome per page, in
     * order, whatever the exit status or exception of its export.
     */
    method ExportPages(allPages: seq<PageRecord>, run: (string, Path) -> RunResult)
      returns (results: seq<FlatOutcome>)
      ensures |results| == |allPages|
      ensures forall i :: 0 <= i < |allPages| ==>
        Recorded(results[i], allPages[i], FlatPath(allPages, allPages[i], outputDir), run)
    {
      var root := outputDir;
      results := [];
      var k := 0;
      while k < |allPages|
        invariant 0 <= k <= |allPages| && |results| == k
        invariant forall i :: 0 <= i < k ==>
          Recorded(results[i], allPages[i], FlatPath(allPages, allPages[i], root), run)
      {
        var outcome := ExportFlat(allPages[k], FlatPath(allPages, allPages[k], root), run);
        results := results + [outcome];
        k := k + 1;
      }
    }

    /**
     * `export`: validate, scan and build the hierarchy, export every page flat,
     * then render `INDEX.md` from the top-level results dict.
     */
    method Export(scan: string -> ScanReply, run: (string, Path) -> RunResult)
      returns (ok: bool, results: seq<FlatOutcome>, index: Option<seq<string>>)
      modifies this`structure, this`children
      ensures ok <==> old(ValidateConfig()) && Scanned(scan(FirstPageId(old(notionPageIds))))
      ensures ok ==> |results| == |scan(FirstPageId(old(notionPageIds))).data.value.pages|
      ensures ok ==> index == Some(["- \U{2705} \U{1F4C4} Untitled"])
      ensures !ok ==> results == [] && index == None
    {
      if !ValidateConfig() {
        return false, [], None;
      }
      var data := GetPageStructure(scan);
      if data.None? {
        return false, [], None;
      }
      results := ExportPages(data.value, run);
      TopLevelRendersOneLine(outputDir);
      index := WriteTree(TopLevelResults, 0, outputDir);
      ok := true;
    }
  }

  /** One iteration of the loop in `build_hierarchy`: record `k` reset, then filed as a root or a child. */
  method VisitRecord(pages: seq<PageRecord>, pageMap: map<string, nat>, structure: map<string, nat>,
                     children: seq<seq<nat>>, k: nat)
    returns (structure': map<string, nat>, children': seq<seq<nat>>)
    requires k < |pages| == |children|
    requires pageMap == PageMap(pages) && structure == RootsUpTo(pages, k)
    ensures structure' == RootsUpTo(pages, k + 1)
    ensures children' == Visit(pages, children, k)
  {
    var page := pages[k];
    structure' := structure;
    children' := children[k := []];
    if page.parent.None? {
      structure' := structure[page.id := k];
    } else if page.parent.value in pageMap {
      var t := pageMap[page.parent.value];
      children' := children'[t := children'[t] + [k]];
    }
  }

  /** Once every record is visited, each list is the one `Attached` describes. */
  lemma AllVisited(pages: seq<PageRecord>, cs: seq<seq<nat>>)
    requires ChildrenAfter(pages, cs, |pages|)
    ensures |cs| == |pages|
    ensures forall i :: 0 <= i < |pages| ==> cs[i] == Attached(pages, i)
  {
  }

  lemma NothingVisited(pages: seq<PageRecord>, cs: seq<seq<nat>>)
    requires |cs| == |pages| && forall i :: 0 <= i < |cs| ==> cs[i] == []
    ensures ChildrenAfter(pages, cs, 0)
  {
  }

  /** The `children` lists after the first `k` records have been visited. */
  ghost predicate ChildrenAfter(pages: seq<PageRecord>, cs: seq<seq<nat>>, k: nat)
    requires k <= |pages|
  {
    |cs| == |pages| &&
    forall i :: 0 <= i < |pages| ==> cs[i] == ExpectedAfter(pages, i, k)
  }

  /**
   * Record `i`'s list after `k` visits: appends since its own reset when it
   * was visited, appends since the start otherwise; empty when shadowed.
   */
  function ExpectedAfter(pages: seq<PageRecord>, i: nat, k: nat): seq<nat>
    requires i < |pages| && k <= |pages|
  {
    if PageMap(pages)[pages[i].id] != i then []
    else if i < k then Matching(pages, pages[i].id, i, k)
    else Matching(pages, pages[i].id, 0, k)
  }

  /** One iteration of the loop in `build_hierarchy`, on the children lists. */
  function Visit(pages: seq<PageRecord>, cs: seq<seq<nat>>, k: nat): seq<seq<nat>>
    requires k < |pages| == |cs|
  {
    var reset := cs[k := []];
    var p := pages[k].parent;
    if p.Some? && p.value in PageMap(pages) then
      var t := PageMap(pages)[p.value];
      reset[t := reset[t] + [k]]
    else reset
  }

  lemma VisitKeeps(pages: seq<PageRecord>, cs: seq<seq<nat>>, k: nat)
    requires k < |pages| && ChildrenAfter(pages, cs, k)
    ensures ChildrenAfter(pages, Visit(pages, cs, k), k + 1)
  {
    var cs' := Visit(pages, cs, k);
    var pm := PageMap(pages);
    var p := pages[k].parent;
    PageMapLast(pages);
    forall i | 0 <= i < |pages| ensures cs'[i] == ExpectedAfter(pages, i, k + 1) {
      var id := pages[i].id;
      var hit := p.Some? && p.value in pm && pm[p.value] == i;
      assert hit ==> pm[id] == i && p == Some(id);
      assert pm[id] == i && p == Some(id) ==> hit;
      if pm[id] != i {
        assert cs'[i] == [];
      } else if i == k {
        assert Matching(pages, id, k, k + 1) == if p == Some(id) then [k] else [];
        assert cs'[i] == if hit then [k] else [];
      } else {
        var lo := if i < k then i else 0;
        assert Matching(pages, id, lo, k + 1) == Matching(pages, id, lo, k) + (if p == Some(id) then [k] else []);
        assert cs[i] == Matching(pages, id, lo, k);
        assert cs'[i] == cs[i] + (if hit then [k] else []);
      }
    }
  }

  /** The roots are exactly the parentless records, keyed by their id. */
  lemma {:induction false} RootsAreParentless(pages: seq<PageRecord>, k: nat)
    requires k <= |pages|
    ensures forall id :: id in RootsUpTo(pages, k) <==>
      exists i :: 0 <= i < k && pages[i].id == id && pages[i].parent.None?
    ensures forall id :: id in RootsUpTo(pages, k) ==>
      var i := RootsUpTo(pages, k)[id]; i < k && pages[i].id == id && pages[i].parent.None?
  {
    if k > 0 { RootsAreParentless(pages, k - 1); }
  }

  /** Every record listed as a child names its holder as parent and comes at or after it. */
  lemma ChildrenNameTheirParent(pages: seq<PageRecord>, i: nat)
    requires i < |pages|
    ensures forall j :: j in Attached(pages, i) ==>
      i <= j < |pages| && pages[j].parent == Some(pages[i].id)
    ensures forall a, b :: 0 <= a < b < |Attached(pages, i)| ==> Attached(pages, i)[a] < Attached(pages, i)[b]
  {
    MatchingMembers(pages, pages[i].id, i, |pages|);
  }

  /** A record whose parent id is not in the input is neither a root nor anyone's child. */
  lemma OrphanVanishes(pages: seq<PageRecord>, j: nat, p: string)
    requires j < |pages| && pages[j].parent == Some(p)
    requires forall i :: 0 <= i < |pages| ==> pages[i].id != p
    ensures forall i :: 0 <= i < |pages| ==> j !in Attached(pages, i)
    ensures forall id :: id in RootsUpTo(pages, |pages|) ==> RootsUpTo(pages, |pages|)[id] != j
  {
    RootsAreParentless(pages, |pages|);
    forall i | 0 <= i < |pages| ensures j !in Attached(pages, i) {
      ChildrenNameTheirParent(pages, i);
    }
  }

  /**
   * A record listed before the (last) record of its parent is lost: the
   * parent's list is reset when the parent is visited.
   */
  lemma ChildBeforeParentLost(pages: seq<PageRecord>, j: nat, p: string)
    requires j < |pages| && pages[j].parent == Some(p)
    requires p in PageMap(pages) && j < PageMap(pages)[p]
    ensures forall i :: 0 <= i < |pages| ==> j !in Attached(pages, i)
  {
    forall i | 0 <= i < |pages| ensures j !in Attached(pages, i) {
      ChildrenNameTheirParent(pages, i);
    }
  }

  /** A record listed at or after the last record of its parent is in that parent's list. */
  lemma ChildAfterParentKept(pages: seq<PageRecord>, j: nat, p: string)
    requires j < |pages| && pages[j].parent == Some(p)
    requires p in PageMap(pages) && PageMap(pages)[p] <= j
    ensures j in Attached(pages, PageMap(pages)[p])
  {
    PageMapLast(pages);
    MatchingMembers(pages, p, PageMap(pages)[p], |pages|);
  }

  // ---------------------------------------------------------------------
  // Replies of the external programs

  /** What the scanner's JSON reply carries: `success` and `pages`. */
  datatype ScanData = ScanData(success: bool, pages: seq<PageRecord>)

  /**
   * One run of `node get_page_ids.js`: an exit status and, when stdout is
   * valid JSON, its contents; or an exception raised by `subprocess.run`.
   */
  datatype ScanReply = ScanExited(code: int, data: Option<ScanData>) | ScanRaised

  /** The scan counts only when it exits with 0 and reports `success`. */
  predicate Scanned(r: ScanReply) {
    r.ScanExited? && r.code == 0 && r.data.Some? && r.data.value.success
  }

  /** `ids.split(',')[0].strip().replace('-', '')`: the page the scan starts from. */
  function FirstPageId(ids: string): (r: string)
    ensures '-' !in r
  {
    RemoveChar(Strip(Split(ids, ',')[0]), '-')
  }

  /** An entry of `files` in the exporter's reply: its `type` and `path`. */
  datatype FileInfo = FileInfo(kind: string, path: Path)

  /**
   * The JSON reply of `node notion_export.js`: `success`, `error` when
   * present, and `pages` when present, each page with its `files` when present.
   */
  datatype Reply =
    | NotJson
    | Json(success: bool, error: Option<string>, pages: Option<seq<Option<seq<FileInfo>>>>)

  /** One run of `node notion_export.js`, or the exception that replaced it. */
  datatype RunResult =
    | Completed(code: int, stdout: string, stderr: string, reply: Reply)
    | Raised(message: string)

  /** `result.stderr or result.stdout`, or the exception text. */
  function FailureText(r: RunResult): string {
    match r
    case Completed(_, out, err, _) => OrElse(err, out)
    case Raised(m) => m
  }

  // ---------------------------------------------------------------------
  // Directory names

  /** The characters the flat exporter keeps in a title: no `.`. */
  predicate FlatChar(c: char) {
    IsAlnum(c) || c == ' ' || c == '-' || c == '_'
  }

  /** A title has a character that survives filtering and `rstrip`. */
  predicate Visible(title: string, keep: char -> bool) {
    exists c :: c in title && keep(c) && !IsPySpace(c)
  }

  /**
   * The directory name `export_page_hierarchically` gives a page: the kept
   * characters, right-stripped, cut to 100; the first 8 characters of the
   * id when nothing is left.
   */
  function SafeTitle(title: string, pageId: string): (r: string)
    ensures Visible(title, NameChar) ==>
      r != "" && |r| <= 100 && forall i :: 0 <= i < |r| ==> NameChar(r[i])
    ensures !Visible(title, NameChar) ==> r == Take(pageId, 8)
  {
    FilterRStripEmpty(title, NameChar);
    var kept := RStrip(Filter(title, NameChar));
    if kept != "" then Take(kept, 100) else Take(pageId, 8)
  }

  /** `Path(parent_dir)` at level 0, `Path(parent_dir) / safe_title` below it. */
  function PageDir(level: int, parentDir: Path, safe: string): (p: Path)
    ensures parentDir <= p && |p| <= |parentDir| + 1
    ensures level == 0 ==> p == parentDir
  {
    if level == 0 then parentDir else Child(parentDir, safe)
  }

  /** The directory name `export` gives a title: no `.` kept and no fallback. */
  function FlatSafe(title: string): (r: string)
    ensures |r| <= 100
    ensures forall i :: 0 <= i < |r| ==> FlatChar(r[i])
    ensures r == "" <==> !Visible(title, FlatChar)
  {
    FilterRStripEmpty(title, FlatChar);
    Take(RStrip(Filter(title, FlatChar)), 100)
  }

  /** `j` is the first position holding a record with id `id`. */
  predicate FirstIndexOf(all: seq<PageRecord>, id: Option<string>, j: int) {
    0 <= j < |all| && Some(all[j].id) == id &&
    forall k :: 0 <= k < j ==> Some(all[k].id) != id
  }

  /** `next((p for p in all_pages if p['id'] == parent_id), None)`, as a position. */
  function FirstWithId(all: seq<PageRecord>, id: Option<string>): (r: Option<nat>)
    ensures r.Some? ==> FirstIndexOf(all, id, r.value)
    ensures r.None? ==> forall j :: 0 <= j < |all| ==> Some(all[j].id) != id
  {
    if all == [] then None
    else if Some(all[0].id) == id then Some(0)
    else match FirstWithId(all[1..], id)
      case None => None
      case Some(j) => Some(j + 1)
  }

  /** The directory `export` gives a page (the flat path rule). */
  function FlatPath(all: seq<PageRecord>, page: PageRecord, root: Path): Path {
    if page.level == 0 then root
    else if page.level == 1 then Child(root, FlatSafe(page.title))
    else match FirstWithId(all, page.parent)
      case None => Child(root, FlatSafe(page.title))
      case Some(j) =>
        if all[j].level == 0 then Child(root, FlatSafe(page.title))
        else Child(Child(root, FlatSafe(all[j].title)), FlatSafe(page.title))
  }

  /**
   * The four cases of the flat rule: the root itself, one level below it,
   * or two levels below it under the parent's name when the first record
   * with the parent's id is neither missing nor at level 0.
   */
  lemma FlatPathCases(all: seq<PageRecord>, page: PageRecord, root: Path)
    ensures page.level == 0 ==> FlatPath(all, page, root) == root
    ensures page.level == 1 ==> FlatPath(all, page, root) == Child(root, FlatSafe(page.title))
    ensures (page.level != 0 && page.level != 1 &&
             forall j :: 0 <= j < |all| ==> Some(all[j].id) != page.parent) ==>
      FlatPath(all, page, root) == Child(root, FlatSafe(page.title))
    ensures forall j :: page.level != 0 && page.level != 1 && FirstIndexOf(all, page.parent, j) ==>
      FlatPath(all, page, root) ==
        if all[j].level == 0 then Child(root, FlatSafe(page.title))
        else Child(Child(root, FlatSafe(all[j].title)), FlatSafe(page.title))
  {
    var f := FirstWithId(all, page.parent);
    forall j | FirstIndexOf(all, page.parent, j) ensures f == Some(j) {
    }
  }

  /**
   * The flat rule never leaves the output root and never goes more than two
   * levels below it; none of the segments it adds is `.` or `..`.
   */
  lemma FlatPathUnderRoot(all: seq<PageRecord>, page: PageRecord, root: Path)
    ensures root <= FlatPath(all, page, root)
    ensures |FlatPath(all, page, root)| <= |root| + 2
    ensures forall k :: |root| <= k < |FlatPath(all, page, root)| ==>
      FlatSegment(FlatPath(all, page, root)[k])
  {
    var f := FirstWithId(all, page.parent);
    ChildFlat(root, page.title);
    if f.Some? {
      ChildFlat(root, all[f.value].title);
      ChildFlat(Child(root, FlatSafe(all[f.value].title)), page.title);
    }
  }

  /** A segment the flat rule can add: non-empty, not `.` or `..`, only kept characters. */
  predicate FlatSegment(seg: string) {
    seg != "" && seg != "." && seg != ".." && forall i :: 0 <= i < |seg| ==> FlatChar(seg[i])
  }

  lemma ChildFlat(p: Path, title: string)
    ensures p <= Child(p, FlatSafe(title))
    ensures forall k :: |p| <= k < |Child(p, FlatSafe(title))| ==> FlatSegment(Child(p, FlatSafe(title))[k])
  {
    var seg := FlatSafe(title);
    if seg != "" {
      assert !FlatChar('.');
    }
  }

  /**
   * A level-1 page whose title has no kept character lands in the output root
   * itself, the directory of the level-0 page: `"..."` loses all its dots.
   */
  lemma DotsTitleLandsInRoot(all: seq<PageRecord>, page: PageRecord, root: Path)
    requires page.level == 1 && page.title == "..."
    ensures FlatPath(all, page, root) == root
  {
    assert !Visible(page.title, FlatChar);
  }

  // ---------------------------------------------------------------------
  // Outcomes

  /** One entry of `export_results['pages']`. */
  datatype FlatOutcome = FlatOutcome(id: string, title: string, path: Path, success: bool, error: Option<string>)

  /**
   * The entry `export` appends for `page`: its id, title and path, success
   * exactly when the export exited with 0, and the failure text otherwise.
   */
  predicate Recorded(o: FlatOutcome, page: PageRecord, path: Path, run: (string, Path) -> RunResult) {
    var r := run(RemoveChar(page.id, '-'), path);
    o.id == page.id && o.title == page.title && o.path == path &&
    (o.success <==> r.Completed? && r.code == 0) &&
    o.error == (if o.success then None else Some(FailureText(r)))
  }

  /**
   * The body of `export`'s loop for one page at its flat path: a zero exit
   * is a success, a non-zero exit records the process output, an exception
   * (the timeout included) its message.
   */
  method ExportFlat(page: PageRecord, pagePath: Path, run: (string, Path) -> RunResult) returns (outcome: FlatOutcome)
    ensures Recorded(outcome, page, pagePath, run)
  {
    var result := run(RemoveChar(page.id, '-'), pagePath);
    if result.Completed? && result.code == 0 {
      outcome := FlatOutcome(page.id, page.title, pagePath, true, None);
    } else if result.Completed? {
      outcome := FlatOutcome(page.id, page.title, pagePath, false, Some(OrElse(result.stderr, result.stdout)));
    } else {
      outcome := FlatOutcome(page.id, page.title, pagePath, false, Some(result.message));
    }
  }

  /** A page record with the `children` lists `build_hierarchy` attaches. */
  datatype PageTree = PageTree(record: PageRecord, hasChildren: bool, children: seq<PageTree>)

  /** The success or failure recorded for one page by the recursive exporter. */
  datatype Status = Succeeded(files: seq<FileInfo>) | Failed(error: string)

  /**
   * The dict `export_page_hierarchically` returns: a full record once the
   * export has run, or `{id, title, success: False, error}` when an
   * exception was raised.
   */
  datatype TreeOutcome =
    | Exported(id: string, title: string, path: Path, level: int, isDatabase: bool,
               status: Status, children: Option<seq<TreeOutcome>>)
    | Crashed(id: string, title: string, error: string)

  /**
   * The renaming of the main file: every `parent` file that exists and is not
   * yet called `README.md` is moved to `README.md` in its directory.
   */
  function ToReadme(files: seq<FileInfo>, present: Path -> bool): (r: seq<FileInfo>)
    ensures |r| == |files|
    ensures forall i :: 0 <= i < |files| ==> r[i].kind == files[i].kind
    ensures forall i :: 0 <= i < |files| && files[i].kind == "parent" && present(files[i].path) ==>
      Name(r[i].path) == "README.md" && Parent(r[i].path) == Parent(files[i].path)
    ensures forall i :: 0 <= i < |files| && (files[i].kind != "parent" || !present(files[i].path)) ==>
      r[i] == files[i]
  {
    seq(|files|, i requires 0 <= i < |files| =>
      var f := files[i];
      if f.kind == "parent" && present(f.path) && Name(f.path) != "README.md"
      then FileInfo(f.kind, Parent(f.path) + ["README.md"])
      else f)
  }

  /** The status of a completed export run, lines 142-165. */
  function StatusOf(code: int, stdout: string, stderr: string, reply: Reply, present: Path -> bool): Status {
    if code != 0 then Failed(OrElse(stderr, stdout))
    else match reply
      case NotJson => Failed(OrElse(stderr, stdout))
      case Json(success, error, pages) =>
        if !success then Failed(error.GetOr("Unknown error"))
        else if pages == Some([]) then Failed(OrElse(stderr, stdout))
        else Succeeded(ToReadme(if pages.None? then [] else pages.value[0].GetOr([]), present))
  }

  /**
   * `export_page_hierarchically(page_id, parent_dir, page_info)`: export one
   * page into its directory, then each of its children into that directory,
   * in order. Without `page_info` the page is an untitled level-0 page.
   */
  function ExportPage(pageId: string, parentDir: Path, info: Option<PageTree>,
                      run: (string, Path) -> RunResult, present: Path -> bool): (r: TreeOutcome)
    ensures r.id == pageId
    ensures r.title == if info.Some? then info.value.record.title else "Untitled"
    ensures r.Exported? ==> parentDir <= r.path && |r.path| <= |parentDir| + 1
    ensures r.Exported? ==> (r.children.Some? <==> info.Some? && info.value.hasChildren)
    ensures r.Exported? && r.children.Some? ==> |r.children.value| == |info.value.children|
  {
    match info
    case None => ExportAt(pageId, parentDir, "Untitled", false, 0, false, [], run, present)
    case Some(t) =>
      ExportAt(pageId, parentDir, t.record.title, t.record.fromDatabase, t.record.level,
               t.hasChildren, t.children, run, present)
  }

  /** The body of `export_page_hierarchically` once `page_info` has been read. */
  function ExportAt(pageId: string, parentDir: Path, title: string, isDatabase: bool, level: int,
                    hasChildren: bool, children: seq<PageTree>,
                    run: (string, Path) -> RunResult, present: Path -> bool): (r: TreeOutcome)
    ensures r.id == pageId && r.title == title
    ensures r.Exported? ==> r.path == PageDir(level, parentDir, SafeTitle(title, pageId))
    ensures r.Exported? ==> (r.children.Some? <==> hasChildren)
    ensures r.Exported? && r.children.Some? ==> |r.children.value| == |children|
    decreases children, 1
  {
    var dir := PageDir(level, parentDir, SafeTitle(title, pageId));
    match run(RemoveChar(pageId, '-'), dir)
    case Raised(m) => Crashed(pageId, title, m)
    case Completed(code, out, err, reply) =>
      Exported(pageId, title, dir, level, isDatabase, StatusOf(code, out, err, reply, present),
        if hasChildren then Some(ExportChildren(children, dir, run, present)) else None)
  }

  /** The loop over `page_info['children']`, one result per child, in order. */
  function ExportChildren(children: seq<PageTree>, dir: Path,
                          run: (string, Path) -> RunResult, present: Path -> bool): (rs: seq<TreeOutcome>)
    ensures |rs| == |children|
    ensures forall i :: 0 <= i < |children| ==>
      rs[i].id == children[i].record.id && rs[i].title == children[i].record.title
    ensures forall i :: 0 <= i < |children| && rs[i].Exported? ==>
      dir <= rs[i].path && |rs[i].path| <= |dir| + 1
    decreases children, 0
  {
    if children == [] then []
    else
      var c := children[0];
      [ExportAt(c.record.id, dir, c.record.title, c.record.fromDatabase, c.record.level,
                c.hasChildren, c.children, run, present)] +
      ExportChildren(children[1..], dir, run, present)
  }

  /**
   * A page counts as exported exactly when its run exited with 0, the reply
   * was JSON with `success`, and `pages` was absent or non-empty.
   */
  lemma ExportPageSucceeds(pageId: string, parentDir: Path, info: Option<PageTree>,
                           run: (string, Path) -> RunResult, present: Path -> bool)
    ensures var r := ExportPage(pageId, parentDir, info, run, present);
      var title := if info.Some? then info.value.record.title else "Untitled";
      var level := if info.Some? then info.value.record.level else 0;
      var res := run(RemoveChar(pageId, '-'), PageDir(level, parentDir, SafeTitle(title, pageId)));
      (r.Exported? && r.status.Succeeded?) <==>
        res.Completed? && res.code == 0 && res.reply.Json? && res.reply.success &&
        res.reply.pages != Some([])
  {
    match info
    case None => ExportAtSucceeds(pageId, parentDir, "Untitled", false, 0, false, [], run, present);
    case Some(t) =>
      ExportAtSucceeds(pageId, parentDir, t.record.title, t.record.fromDatabase, t.record.level,
                       t.hasChildren, t.children, run, present);
  }

  lemma ExportAtSucceeds(pageId: string, parentDir: Path, title: string, isDatabase: bool, level: int,
                         hasChildren: bool, children: seq<PageTree>,
                         run: (string, Path) -> RunResult, present: Path -> bool)
    ensures var r := ExportAt(pageId, parentDir, title, isDatabase, level, hasChildren, children, run, present);
      var res := run(RemoveChar(pageId, '-'), PageDir(level, parentDir, SafeTitle(title, pageId)));
      (r.Exported? && r.status.Succeeded?) <==>
        res.Completed? && res.code == 0 && res.reply.Json? && res.reply.success &&
        res.reply.pages != Some([])
  {
  }

  /** A page whose export raised an exception gets no children results. */
  lemma CrashedHasNoChildren(pageId: string, parentDir: Path, info: Option<PageTree>,
                             run: (string, Path) -> RunResult, present: Path -> bool)
    ensures var title := if info.Some? then info.value.record.title else "Untitled";
      var level := if info.Some? then info.value.record.level else 0;
      var res := run(RemoveChar(pageId, '-'), PageDir(level, parentDir, SafeTitle(title, pageId)));
      ExportPage(pageId, parentDir, info, run, present).Crashed? <==> res.Raised?
  {
  }

  // ---------------------------------------------------------------------
  // INDEX.md

  /**
   * The keys `write_tree` reads from a result dict: `is_database`,
   * `success`, `title` and `path` when present, and `children`.
   */
  datatype IndexItem = IndexItem(isDatabase: bool, success: bool, title: Option<string>,
                                 path: Option<Path>, children: seq<IndexItem>)

  /** The dict `export` passes: `{'success': True, 'pages': [...]}`. */
  const TopLevelResults := IndexItem(false, true, None, None, [])

  /** The line `write_tree` writes for one item; `None` where `relative_to` raises. */
  function Line(item: IndexItem, indent: nat, root: Path): (l: Option<string>)
    ensures l.None? <==> item.success && item.path.Some? && !(root <= item.path.value)
  {
    var prefix := Repeat("  ", indent);
    var icon := if item.isDatabase then "\U{1F4CA}" else "\U{1F4C4}";
    var status := if item.success then "\U{2705}" else "\U{274C}";
    var title := item.title.GetOr("Untitled");
    if item.success && item.path.Some? then
      match RelativeTo(item.path.value, root)
      case None => None
      case Some(rel) => Some(prefix + "- " + status + " " + icon + " [" + title + "](" + Show(rel) + "/README.md)")
    else Some(prefix + "- " + status + " " + icon + " " + title)
  }

  /** `write_tree(f, item, indent)`: the item's line, then its children one level deeper. */
  function WriteTree(item: IndexItem, indent: nat, root: Path): Option<seq<string>>
    decreases item
  {
    match Line(item, indent, root)
    case None => None
    case Some(l) =>
      match WriteForest(item.children, indent + 1, root)
      case None => None
      case Some(ls) => Some([l] + ls)
  }

  function WriteForest(items: seq<IndexItem>, indent: nat, root: Path): Option<seq<string>>
    decreases items
  {
    if items == [] then Some([])
    else match WriteTree(items[0], indent, root)
      case None => None
      case Some(first) =>
        match WriteForest(items[1..], indent, root)
        case None => None
        case Some(rest) => Some(first + rest)
  }

  /** The number of items in a tree, which is the number of lines it renders to. */
  function Count(item: IndexItem): nat
    decreases item
  {
    1 + CountForest(item.children)
  }

  function CountForest(items: seq<IndexItem>): nat
    decreases items
  {
    if items == [] then 0 else Count(items[0]) + CountForest(items[1..])
  }

  /** Every successful item with a path lies under the output directory. */
  predicate Resolves(item: IndexItem, root: Path)
    decreases item
  {
    (item.success && item.path.Some? ==> root <= item.path.value) &&
    forall i :: 0 <= i < |item.children| ==> Resolves(item.children[i], root)
  }

  /**
   * Rendering fails exactly when some successful item has a path outside the
   * output directory; otherwise it writes one line per item, the item's own
   * line first, indented by two spaces per level.
   */
  lemma {:induction false} WriteTreeLines(item: IndexItem, indent: nat, root: Path)
    ensures WriteTree(item, indent, root).Some? <==> Resolves(item, root)
    ensures WriteTree(item, indent, root).Some? ==>
      |WriteTree(item, indent, root).value| == Count(item) &&
      WriteTree(item, indent, root).value[0] == Line(item, indent, root).value &&
      StartsWith(WriteTree(item, indent, root).value[0], Repeat("  ", indent) + "- ")
    decreases item, 1
  {
    WriteForestLines(item.children, indent + 1, root);
    var l := Line(item, indent, root);
    if l.Some? {
      var prefix := Repeat("  ", indent) + "- ";
      assert l.value[..|prefix|] == prefix;
    }
  }

  lemma {:induction false} WriteForestLines(items: seq<IndexItem>, indent: nat, root: Path)
    ensures WriteForest(items, indent, root).Some? <==>
      forall i :: 0 <= i < |items| ==> Resolves(items[i], root)
    ensures WriteForest(items, indent, root).Some? ==>
      |WriteForest(items, indent, root).value| == CountForest(items)
    decreases items, 0
  {
    if items != [] {
      WriteTreeLines(items[0], indent, root);
      WriteForestLines(items[1..], indent, root);
      assert forall i :: 1 <= i < |items| ==> items[i] == items[1..][i - 1];
    }
  }

  /**
   * What `export` writes under "## Structure": its results dict has no
   * `title`, `path` or `children`, so the index is the single line
   * "- ✅ 📄 Untitled" whatever was exported.
   */
  lemma TopLevelRendersOneLine(root: Path)
    ensures WriteTree(TopLevelResults, 0, root) == Some(["- \U{2705} \U{1F4C4} Untitled"])
  {
    var line := "- \U{2705} \U{1F4C4} Untitled";
    var built := Repeat("  ", 0) + "- " + "\U{2705}" + " " + "\U{1F4C4}" + " " + "Untitled";
    assert |built| == |line|;
    forall i | 0 <= i < |built| ensures built[i] == line[i] { }
    assert built == line;
    assert Line(TopLevelResults, 0, root) == Some(line);
    assert WriteForest([], 1, root) == Some([]);
    assert [line] + [] == [line];
  }
}
