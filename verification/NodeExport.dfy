/**
 * The Node exporter (notion_export.js): for every id in the comma-separated
 * argument it converts the page to markdown and writes either one file
 * `OUTPUT_DIR/<name>.md` or, when child pages are exported separately and
 * the page has some, a directory `OUTPUT_DIR/<name>/` holding `index.md`
 * and one file per child. It prints one JSON result with an entry per page.
 *
 * The Notion client and the markdown converter are parameters: `title(id)`
 * is the page's properties (`None` when retrieving it fails) and
 * `convert(id)` is the converter's output or the message of the exception it
 * throws. Files are not written; the writes the script would make are
 * returned as a list of (path, content) pairs.
 */
module NodeExport {

  import opened Common
  import opened Text
  import opened Paths
  import opened Properties

  /** The converter's `mdString`: the parent text and `Object.entries(children)`. */
  datatype Markdown = Markdown(parent: Option<string>, children: seq<(string, string)>)

  /** What converting one page gives: its markdown, or the message of the error thrown. */
  datatype Conversion = Converted(md: Markdown) | Threw(message: string)

  /** `args[2] || './output'` as a path, and `args[3] === 'true'`. */
  datatype Config = Config(outputDir: Path, separate: bool)

  datatype FileKind = ParentFile | ChildFile

  /** One entry of `pageResult.files`: `{type, id?, path, content_length}`. */
  datatype FileEntry = FileEntry(kind: FileKind, id: Option<string>, path: Path, contentLength: nat)

  /** One entry of `result.pages`. */
  datatype PageResult =
    | Exported(pageId: string, pageName: string, files: seq<FileEntry>, directory: Path)
    | PageFailed(pageId: string, pageName: string, error: string)

  /** The object printed on stdout: `{success, totalPages, pages}`. */
  datatype NodeResult = NodeResult(success: bool, totalPages: nat, pages: seq<PageResult>)

  type Write = (Path, string)

  // ---------------------------------------------------------------- names

  /** A character `sanitizeFilename` can produce. */
  predicate SafeChar(c: char) {
    ('a' <= c <= 'z') || ('0' <= c <= '9') || c == '_'
  }

  /**
   * `sanitizeFilename`: every character outside `[a-z0-9]` (ignoring case)
   * becomes `_`, then the name is lower-cased; the length is unchanged.
   */
  function SanitizeName(name: string): (r: string)
    ensures |r| == |name|
  {
    Lower(seq(|name|, i requires 0 <= i < |name| => if IsAlnum(name[i]) then name[i] else '_'))
  }

  /**
   * Only `[a-z0-9_]` comes out; a letter or digit is kept (lower-cased) and
   * everything else, `_` included, turns into `_`.
   */
  lemma SanitizeNameChars(name: string)
    ensures var r := SanitizeName(name);
      (forall i :: 0 <= i < |r| ==> SafeChar(r[i])) &&
      (forall i :: 0 <= i < |r| ==> (r[i] == '_' <==> !IsAlnum(name[i]))) &&
      (forall i :: 0 <= i < |r| && IsAlnum(name[i]) ==> r[i] == LowerChar(name[i]))
  {
  }

  /** Sanitising a sanitised name changes nothing. */
  lemma SanitizeIdempotent(name: string)
    ensures SanitizeName(SanitizeName(name)) == SanitizeName(name)
  {
    var s := SanitizeName(name);
    var t := SanitizeName(s);
    SanitizeNameChars(name);
    SanitizeNameChars(s);
    assert forall i :: 0 <= i < |s| ==> t[i] == s[i] by {
      forall i | 0 <= i < |s| ensures t[i] == s[i] {
        assert SafeChar(s[i]);
      }
    }
  }

  /** Names that differ only in case get the same file name. */
  lemma SanitizeIgnoresCase(name: string)
    ensures SanitizeName(Lower(name)) == SanitizeName(name)
  {
    var a := SanitizeName(Lower(name));
    var b := SanitizeName(name);
    SanitizeNameChars(name);
    SanitizeNameChars(Lower(name));
    forall i | 0 <= i < |name| ensures a[i] == b[i] {
      assert Lower(name)[i] == LowerChar(name[i]);
    }
  }

  /** `getPageTitle`: `title`, `Name`, `name`, then the first title property; `null` on error. */
  function PageTitle(page: Option<PropertyList>): (t: Option<string>)
    ensures t.Some? ==> page.Some? && t.value != ""
    ensures page.Some? && NamedText(page.value, "title").Some? ==> t == NamedText(page.value, "title")
    ensures page.Some? && NamedText(page.value, "title").None? && NamedText(page.value, "Name").Some? ==>
      t == NamedText(page.value, "Name")
    ensures (page.Some? && NamedText(page.value, "title").None? && NamedText(page.value, "Name").None? &&
             NamedText(page.value, "name").Some?) ==> t == NamedText(page.value, "name")
    ensures (page.Some? && NamedText(page.value, "title").None? && NamedText(page.value, "Name").None? &&
             NamedText(page.value, "name").None?) ==> t == FirstTitleTyped(page.value)
  {
    match page
    case None => None
    case Some(props) =>
      var names := ["title", "Name", "name"];
      assert names[0] == "title" && names[1] == "Name" && names[2] == "name";
      SelectTitle(props, names)
  }

  /** `await getPageTitle(pageId) || pageId.substring(0, 8)`. */
  function PageName(pageId: string, page: Option<PropertyList>): (name: string)
    ensures PageTitle(page).Some? ==> name == PageTitle(page).value
    ensures PageTitle(page).None? ==> name == Take(pageId, 8)
    ensures pageId != "" ==> name != ""
  {
    match PageTitle(page)
    case Some(t) => t
    case None => Take(pageId, 8)
  }

  predicate IsHash(c: char) { c == '#' }

  /**
   * The name of a child file: its first line without the leading `#`s and
   * the white space after them (the pattern `^#+\s*`) when that line starts with `#`,
   * the child's id otherwise.
   */
  function ChildName(childId: string, content: string): (name: string)
  {
    var firstLine := Before(content, '\n');
    if StartsWith(firstLine, "#") then TrimLeft(TrimLeft(firstLine, IsHash), IsJsSpace)
    else childId
  }

  /**
   * A heading line gives a piece of that line: what follows the `#` run and
   * the white space after it, so it does not start with white space and
   * holds no line break; anything else gives the id.
   */
  lemma ChildNameCases(childId: string, content: string)
    ensures var line := Split(content, '\n')[0];
      var name := ChildName(childId, content);
      (line != [] && line[0] == '#' ==>
         |name| < |line| && name == line[|line| - |name|..] && '\n' !in name &&
         (name != [] ==> !IsJsSpace(name[0])) &&
         (forall k :: 0 <= k < |line| - |name| ==> IsHash(line[k]) || IsJsSpace(line[k]))) &&
      (!(line != [] && line[0] == '#') ==> name == childId)
  {
    SplitFirst(content, '\n');
    var line := Before(content, '\n');
    if line != [] && line[0] == '#' {
      assert StartsWith(line, "#");
      HeadingStripped(line);
    } else {
      assert !StartsWith(line, "#");
    }
  }

  /** The heading pattern `^#+\s*` removed from a line that starts with `#`. */
  lemma HeadingStripped(line: string)
    requires line != [] && line[0] == '#' && '\n' !in line
    ensures var name := TrimLeft(TrimLeft(line, IsHash), IsJsSpace);
      |name| < |line| && name == line[|line| - |name|..] && '\n' !in name &&
      (name != [] ==> !IsJsSpace(name[0])) &&
      (forall k :: 0 <= k < |line| - |name| ==> IsHash(line[k]) || IsJsSpace(line[k]))
  {
    var name := TrimLeft(TrimLeft(line, IsHash), IsJsSpace);
    TrimLeftTwice(line, IsHash, IsJsSpace);
    TrimLeftMembers(line, IsHash);
    TrimLeftMembers(TrimLeft(line, IsHash), IsJsSpace);
  }

  // ----------------------------------------------------------- one page

  /** `mdString.parent || ''`. */
  function ParentText(md: Markdown): string {
    md.parent.GetOr("")
  }

  /** `SEPARATE_CHILD_PAGES && mdString.children && Object.keys(...).length > 0`. */
  predicate HasChildren(cfg: Config, md: Markdown) {
    cfg.separate && md.children != []
  }

  /** The directory a page with children gets: `path.join(OUTPUT_DIR, sanitizedName)`. */
  function PageDir(cfg: Config, name: string): Path {
    Child(cfg.outputDir, SanitizeName(name))
  }

  /** The entry of `pageResult.files` for one child. */
  function ChildEntry(pageDir: Path, child: (string, string)): FileEntry {
    FileEntry(ChildFile, Some(child.0), pageDir + [SanitizeName(ChildName(child.0, child.1)) + ".md"], |child.1|)
  }

  /** The entries for the children, in `Object.entries` order. */
  function ChildEntries(pageDir: Path, children: seq<(string, string)>): (files: seq<FileEntry>)
    ensures |files| == |children|
  {
    if children == [] then []
    else ChildEntries(pageDir, children[..|children| - 1]) + [ChildEntry(pageDir, children[|children| - 1])]
  }

  /** The writes of the child files, in the same order. */
  function ChildWrites(pageDir: Path, children: seq<(string, string)>): (writes: seq<Write>)
    ensures |writes| == |children|
  {
    if children == [] then []
    else
      var child := children[|children| - 1];
      ChildWrites(pageDir, children[..|children| - 1]) + [(ChildEntry(pageDir, child).path, child.1)]
  }

  /** One more child adds its entry and its write at the end. */
  lemma ChildrenSnoc(pageDir: Path, children: seq<(string, string)>, i: nat)
    requires i < |children|
    ensures ChildEntries(pageDir, children[..i + 1]) == ChildEntries(pageDir, children[..i]) + [ChildEntry(pageDir, children[i])]
    ensures ChildWrites(pageDir, children[..i + 1]) ==
      ChildWrites(pageDir, children[..i]) + [(ChildEntry(pageDir, children[i]).path, children[i].1)]
  {
    assert children[..i + 1][..i] == children[..i];
  }

  /** The k-th child entry and the k-th child write describe the k-th child. */
  lemma {:induction false} ChildEntriesAt(pageDir: Path, children: seq<(string, string)>, k: nat)
    requires k < |children|
    ensures ChildEntries(pageDir, children)[k] == ChildEntry(pageDir, children[k])
    ensures ChildWrites(pageDir, children)[k] == (ChildEntry(pageDir, children[k]).path, children[k].1)
  {
    if k < |children| - 1 {
      ChildEntriesAt(pageDir, children[..|children| - 1], k);
    }
  }

  /** The entry of the parent file at `path`. */
  function ParentEntry(path: Path, md: Markdown): FileEntry {
    FileEntry(ParentFile, None, path, |ParentText(md)|)
  }

  /** The result entry for one page, as `exportSinglePage(pageId)` returns it. */
  function SinglePage(cfg: Config, pageId: string, page: Option<PropertyList>, conv: Conversion): PageResult {
    var name := PageName(pageId, page);
    match conv
    case Threw(message) => PageFailed(pageId, name, message)
    case Converted(md) =>
      if HasChildren(cfg, md) then
        var dir := PageDir(cfg, name);
        Exported(pageId, name, [ParentEntry(dir + ["index.md"], md)] + ChildEntries(dir, md.children), dir)
      else
        Exported(pageId, name, [ParentEntry(cfg.outputDir + [SanitizeName(name) + ".md"], md)], cfg.outputDir)
  }

  /** The files `exportSinglePage(pageId)` writes, in order. */
  function SinglePageWrites(cfg: Config, pageId: string, page: Option<PropertyList>, conv: Conversion): seq<Write> {
    var name := PageName(pageId, page);
    match conv
    case Threw(_) => []
    case Converted(md) =>
      if HasChildren(cfg, md) then
        var dir := PageDir(cfg, name);
        [(dir + ["index.md"], ParentText(md))] + ChildWrites(dir, md.children)
      else
        [(cfg.outputDir + [SanitizeName(name) + ".md"], ParentText(md))]
  }

  /**
   * With children in separate mode the page gets its own directory, whose
   * `index.md` is listed first, followed by one file per child in order,
   * each named after the child and placed in that directory.
   */
  lemma LayoutWithChildren(cfg: Config, pageId: string, page: Option<PropertyList>, md: Markdown)
    requires HasChildren(cfg, md)
    ensures var r := SinglePage(cfg, pageId, page, Converted(md));
      r.Exported? && r.pageName == PageName(pageId, page) &&
      r.directory == Child(cfg.outputDir, SanitizeName(PageName(pageId, page))) &&
      |r.files| == 1 + |md.children| &&
      r.files[0].kind == ParentFile && r.files[0].path == r.directory + ["index.md"] &&
      (forall k :: 1 <= k < |r.files| ==>
         r.files[k].kind == ChildFile && r.files[k].id == Some(md.children[k - 1].0) &&
         r.files[k].path == r.directory + [SanitizeName(ChildName(md.children[k - 1].0, md.children[k - 1].1)) + ".md"])
  {
    var r := SinglePage(cfg, pageId, page, Converted(md));
    forall k | 1 <= k < |r.files|
      ensures r.files[k] == ChildEntry(r.directory, md.children[k - 1])
    {
      ChildEntriesAt(r.directory, md.children, k - 1);
    }
  }

  /** Otherwise the page is one file `OUTPUT_DIR/<name>.md` and the directory is `OUTPUT_DIR`. */
  lemma LayoutSingle(cfg: Config, pageId: string, page: Option<PropertyList>, md: Markdown)
    requires !HasChildren(cfg, md)
    ensures var r := SinglePage(cfg, pageId, page, Converted(md));
      r.Exported? && r.directory == cfg.outputDir &&
      r.files == [FileEntry(ParentFile, None, cfg.outputDir + [SanitizeName(PageName(pageId, page)) + ".md"], |ParentText(md)|)]
  {
  }

  /**
   * A failure writes nothing; otherwise each listed file is written once,
   * in the same order, with the recorded length.
   */
  lemma FilesMatchWrites(cfg: Config, pageId: string, page: Option<PropertyList>, conv: Conversion)
    ensures var r := SinglePage(cfg, pageId, page, conv);
      var w := SinglePageWrites(cfg, pageId, page, conv);
      (r.PageFailed? <==> conv.Threw?) &&
      (r.PageFailed? ==> w == [] && r.error == conv.message) &&
      (r.Exported? ==>
         |w| == |r.files| &&
         forall k :: 0 <= k < |w| ==> w[k].0 == r.files[k].path && |w[k].1| == r.files[k].contentLength)
  {
    var r := SinglePage(cfg, pageId, page, conv);
    var w := SinglePageWrites(cfg, pageId, page, conv);
    if conv.Converted? && HasChildren(cfg, conv.md) {
      forall k | 1 <= k < |w|
        ensures w[k].0 == r.files[k].path && |w[k].1| == r.files[k].contentLength
      {
        ChildEntriesAt(r.directory, conv.md.children, k - 1);
      }
    }
  }

  /**
   * `exportSinglePage(pageId)`: the converter's result decides between a
   * failure entry and the files written, children in `Object.entries` order.
   */
  method ExportSinglePage(cfg: Config, pageId: string, page: Option<PropertyList>, conv: Conversion)
    returns (r: PageResult, writes: seq<Write>)
    ensures r == SinglePage(cfg, pageId, page, conv)
    ensures writes == SinglePageWrites(cfg, pageId, page, conv)
  {
    var pageName := PageName(pageId, page);
    var sanitizedName := SanitizeName(pageName);
    if conv.Threw? {
      return PageFailed(pageId, pageName, conv.message), [];
    }
    var md := conv.md;
    if HasChildren(cfg, md) {
      var pageDir := Child(cfg.outputDir, sanitizedName);
      var parentFile := pageDir + ["index.md"];
      var childFiles, childWrites := SaveChildren(pageDir, md.children);
      writes := [(parentFile, ParentText(md))] + childWrites;
      r := Exported(pageId, pageName, [ParentEntry(parentFile, md)] + childFiles, pageDir);
    } else {
      var parentFile := cfg.outputDir + [sanitizedName + ".md"];
      writes := [(parentFile, ParentText(md))];
      r := Exported(pageId, pageName, [ParentEntry(parentFile, md)], cfg.outputDir);
    }
  }

  /**
   * The loop over `Object.entries(mdString.children)`: one file per child
   * in the page's directory, named after its heading or its id.
   */
  method SaveChildren(pageDir: Path, children: seq<(string, string)>)
    returns (files: seq<FileEntry>, writes: seq<Write>)
    ensures files == ChildEntries(pageDir, children)
    ensures writes == ChildWrites(pageDir, children)
  {
    files, writes := [], [];
    var i := 0;
    while i < |children|
      invariant 0 <= i <= |children|
      invariant files == ChildEntries(pageDir, children[..i])
      invariant writes == ChildWrites(pageDir, children[..i])
    {
      var (childId, childContent) := children[i];
      var childName := ChildName(childId, childContent);
      var childFile := pageDir + [SanitizeName(childName) + ".md"];
      ChildrenSnoc(pageDir, children, i);
      writes := writes + [(childFile, childContent)];
      files := files + [FileEntry(ChildFile, Some(childId), childFile, |childContent|)];
      i := i + 1;
    }
    assert children[..i] == children;
  }

  // ---------------------------------------------------------- all pages

  /** `pageId.trim().replace('-', '')`: only the first `-` goes. */
  function CleanId(raw: string): string {
    RemoveFirst(JsTrim(raw), '-')
  }

  /** Every entry cleaned. */
  function CleanAll(raw: seq<string>): (ids: seq<string>)
    ensures |ids| == |raw|
  {
    seq(|raw|, j requires 0 <= j < |raw| => CleanId(raw[j]))
  }

  /** The strings that are not empty, in order (the `if (cleanPageId)` test). */
  function NonEmpty(ids: seq<string>): (kept: seq<string>)
    ensures |kept| <= |ids|
    ensures forall k :: 0 <= k < |kept| ==> kept[k] != ""
  {
    if ids == [] then []
    else
      var last := ids[|ids| - 1];
      NonEmpty(ids[..|ids| - 1]) + (if last != "" then [last] else [])
  }

  /** The ids the loop exports: the entries that are not empty once cleaned. */
  function CleanIds(raw: seq<string>): (ids: seq<string>) {
    NonEmpty(CleanAll(raw))
  }

  /** The entries of `result.pages` for a list of cleaned ids. */
  function Pages(cfg: Config, ids: seq<string>, title: string -> Option<PropertyList>,
                 convert: string -> Conversion): (pages: seq<PageResult>)
    ensures |pages| == |ids|
  {
    if ids == [] then []
    else
      var last := ids[|ids| - 1];
      Pages(cfg, ids[..|ids| - 1], title, convert) + [SinglePage(cfg, last, title(last), convert(last))]
  }

  /** Everything the run writes, page after page. */
  function AllWrites(cfg: Config, ids: seq<string>, title: string -> Option<PropertyList>,
                     convert: string -> Conversion): seq<Write>
  {
    if ids == [] then []
    else
      var last := ids[|ids| - 1];
      AllWrites(cfg, ids[..|ids| - 1], title, convert) + SinglePageWrites(cfg, last, title(last), convert(last))
  }

  /**
   * `exportNotionPages`: `totalPages` counts every comma-separated entry,
   * and `pages` holds one entry per entry that is not empty once cleaned.
   */
  method ExportNotionPages(cfg: Config, idsArg: string, title: string -> Option<PropertyList>,
                           convert: string -> Conversion)
    returns (result: NodeResult, writes: seq<Write>)
    ensures result.success && result.totalPages == |Split(idsArg, ',')|
    ensures result.pages == Pages(cfg, CleanIds(Split(idsArg, ',')), title, convert)
    ensures writes == AllWrites(cfg, CleanIds(Split(idsArg, ',')), title, convert)
  {
    var ids := Split(idsArg, ',');
    ghost var cleaned := CleanAll(ids);
    var pages: seq<PageResult> := [];
    writes := [];
    var i := 0;
    assert cleaned[..0] == [];
    while i < |ids|
      invariant 0 <= i <= |ids|
      invariant pages == Pages(cfg, NonEmpty(cleaned[..i]), title, convert)
      invariant writes == AllWrites(cfg, NonEmpty(cleaned[..i]), title, convert)
    {
      var cleanPageId := CleanId(ids[i]);
      assert cleanPageId == cleaned[i];
      NonEmptySnoc(cleaned, i);
      if cleanPageId != "" {
        var pageResult, pageWrites := ExportSinglePage(cfg, cleanPageId, title(cleanPageId), convert(cleanPageId));
        PagesSnoc(cfg, NonEmpty(cleaned[..i]), cleanPageId, title, convert);
        pages := pages + [pageResult];
        writes := writes + pageWrites;
      }
      i := i + 1;
    }
    assert cleaned[..i] == cleaned;
    result := NodeResult(true, |ids|, pages);
  }

  /** One more entry extends the exported ids by its cleaned form, when that is not empty. */
  lemma NonEmptySnoc(ids: seq<string>, i: nat)
    requires i < |ids|
    ensures ids[i] != "" ==> NonEmpty(ids[..i + 1]) == NonEmpty(ids[..i]) + [ids[i]]
    ensures ids[i] == "" ==> NonEmpty(ids[..i + 1]) == NonEmpty(ids[..i])
  {
    assert ids[..i + 1][..i] == ids[..i];
    assert NonEmpty(ids[..i]) + [] == NonEmpty(ids[..i]);
  }

  lemma PagesSnoc(cfg: Config, ids: seq<string>, id: string, title: string -> Option<PropertyList>,
                  convert: string -> Conversion)
    ensures Pages(cfg, ids + [id], title, convert) == Pages(cfg, ids, title, convert) + [SinglePage(cfg, id, title(id), convert(id))]
    ensures AllWrites(cfg, ids + [id], title, convert) == AllWrites(cfg, ids, title, convert) + SinglePageWrites(cfg, id, title(id), convert(id))
  {
    assert (ids + [id])[..|ids|] == ids;
  }

  /**
   * Nothing is dropped exactly when no entry is empty once cleaned, and
   * then the exported ids are the cleaned entries in order.
   */
  lemma {:induction false} NonEmptyKept(ids: seq<string>)
    ensures |NonEmpty(ids)| == |ids| <==> forall j :: 0 <= j < |ids| ==> ids[j] != ""
    ensures |NonEmpty(ids)| == |ids| ==> NonEmpty(ids) == ids
  {
    if ids != [] {
      var init := ids[..|ids| - 1];
      NonEmptyKept(init);
      assert forall j :: 0 <= j < |init| ==> init[j] == ids[j];
      assert ids == init + [ids[|ids| - 1]];
    }
  }

  /** An id is exported exactly when it is a non-empty cleaned entry. */
  lemma {:induction false} NonEmptyMembers(ids: seq<string>)
    ensures forall x :: x in NonEmpty(ids) <==> x in ids && x != ""
  {
    if ids != [] {
      var init := ids[..|ids| - 1];
      NonEmptyMembers(init);
      assert ids == init + [ids[|ids| - 1]];
    }
  }

  /** A cleaned id has at most one `-` fewer than the trimmed argument. */
  lemma CleanIdLength(raw: string)
    ensures |CleanId(raw)| == |JsTrim(raw)| - (if '-' in JsTrim(raw) then 1 else 0)
  {
  }

  /**
   * The argument check `!NOTION_TOKEN || !NOTION_PAGE_IDS ||
   * NOTION_PAGE_IDS.length === 0` rejects exactly a missing token: a split
   * always yields at least one entry.
   */
  function ArgumentsMissing(token: Option<string>, idsArg: string): (missing: bool)
    ensures missing <==> !Truthy(token)
  {
    !Truthy(token) || |Split(idsArg, ',')| == 0
  }
}
