/**
 * The command-line scanner (get_page_ids.py): it runs the Node page scanner,
 * turns the process outcome into a result dict, lists the pages found level
 * by level, and rewrites the `NOTION_PAGE_IDS=` entry of the `.env` file.
 *
 * Running Node is a parameter: `node(args)` is what `subprocess.run` gives
 * for the argument list, and `parse(text)` is what `json.loads` makes of a
 * text. The `.env` file is its list of lines (`None` when it does not exist);
 * printing is left out, so the page listing is returned as values.
 */
module ScanCli {

  import opened Common
  import opened Text
  import opened Properties
  import PageScanner

  // ------------------------------------------------------------ .env file

  /** The key of the page-id entry. */
  const IdsKey := "NOTION_PAGE_IDS="

  /** The comment written above a page-id entry that is added. */
  const IdsComment := "\n#" + " Notion Page IDs (auto-updated by get_page_ids.py)\n"

  /** The entry line for a list of ids. */
  function IdsLine(ids: seq<string>): string {
    IdsKey + Join(ids, ",") + "\n"
  }

  /** A line that, stripped, starts with the key. */
  predicate IsIdsLine(line: string) {
    StartsWith(Strip(line), IdsKey)
  }

  /** A line that strips to nothing. */
  predicate Blank(line: string) {
    Strip(line) == ""
  }

  /** Some line of `lines` passes `isEntry`. */
  predicate Found(lines: seq<string>, isEntry: string -> bool) {
    exists i :: 0 <= i < |lines| && isEntry(lines[i])
  }

  /** Every line passing `isEntry` replaced by `entry`, the others kept. */
  function Replace(lines: seq<string>, isEntry: string -> bool, entry: string): (r: seq<string>)
    ensures |r| == |lines|
    ensures forall i :: 0 <= i < |lines| ==> r[i] == if isEntry(lines[i]) then entry else lines[i]
  {
    if lines == [] then []
    else [if isEntry(lines[0]) then entry else lines[0]] + Replace(lines[1..], isEntry, entry)
  }

  /**
   * The update of an existing file, for a test `isEntry` of entry lines, a
   * test `isBlank` of blank lines and the two lines to add: every entry is
   * replaced; with no entry, the comment and the entry go before a blank
   * last line, or at the end otherwise.
   */
  function Update(lines: seq<string>, isEntry: string -> bool, isBlank: string -> bool,
                  comment: string, entry: string): seq<string>
  {
    if Found(lines, isEntry) then Replace(lines, isEntry, entry)
    else if lines != [] && isBlank(lines[|lines| - 1]) then
      lines[..|lines| - 1] + [comment, entry, lines[|lines| - 1]]
    else lines + [comment, entry]
  }

  /** `update_env_file` on an existing `.env`. */
  function UpdatedLines(lines: seq<string>, ids: seq<string>): seq<string> {
    Update(lines, IsIdsLine, Blank, IdsComment, IdsLine(ids))
  }

  /** The file written when there is no `.env`. */
  function Template(token: Option<string>, ids: seq<string>): seq<string> {
    [ "# Notion Integration Token\n",
      "# Get it from: https://www.notion.so/my-integrations\n",
      "NOTION_TOKEN=" + (if Truthy(token) then token.value else "YOUR_TOKEN_HERE") + "\n",
      "\n",
      "# Notion Page IDs (auto-updated by get_page_ids.py)\n",
      IdsLine(ids),
      "\n",
      "# Whether to save child pages as separate files (true/false)\n",
      "SEPARATE_CHILD_PAGES=true\n" ]
  }

  /** The `.env` content after `update_env_file`. */
  function EnvAfter(envFile: Option<seq<string>>, token: Option<string>, ids: seq<string>): seq<string> {
    match envFile
    case None => Template(token, ids)
    case Some(lines) => UpdatedLines(lines, ids)
  }

  /** The lines that fail `isEntry`, in order. */
  function Others(lines: seq<string>, isEntry: string -> bool): (r: seq<string>)
    ensures |r| <= |lines|
  {
    if lines == [] then []
    else (if isEntry(lines[0]) then [] else [lines[0]]) + Others(lines[1..], isEntry)
  }

  /** `entry` is the only entry of `r`, and it is there. */
  predicate Holds(r: seq<string>, isEntry: string -> bool, entry: string) {
    Found(r, isEntry) && forall i :: 0 <= i < |r| && isEntry(r[i]) ==> r[i] == entry
  }

  /** The entry line written is itself an entry. */
  lemma IdsLineIsIdsLine(ids: seq<string>)
    ensures IsIdsLine(IdsLine(ids))
  {
    var s := IdsLine(ids);
    assert s[..|IdsKey|] == IdsKey;
    assert !IsPySpace(s[|IdsKey| - 1]);
    var r := TrimRight(s, IsPySpace);
    assert |r| >= |IdsKey|;
    assert r[..|IdsKey|] == IdsKey;
    assert !IsPySpace(r[0]);
  }

  /** The added comment is not an entry: stripped, it starts with `#`. */
  lemma CommentNotIdsLine()
    ensures !IsIdsLine(IdsComment)
  {
    var c := IdsComment;
    assert |c| == 53;
    assert c[0] == '\n' && c[1] == '#' && c[51] == ')';
    NotSpaceStart(c, 1);
  }

  /** A string whose first non-space character is `s[k]` strips to text starting there. */
  lemma NotSpaceStart(s: string, k: nat)
    requires k < |s| - 1 && !IsPySpace(s[k]) && !IsPySpace(s[|s| - 2])
    requires forall j :: 0 <= j < k ==> IsPySpace(s[j])
    ensures !IsIdsLine(s) || s[k] == 'N'
  {
    var r := TrimRight(s, IsPySpace);
    assert |r| > k && r[k] == s[k];
    TrimLeftAll(r, IsPySpace);
    var t := TrimLeft(r, IsPySpace);
    assert |t| == |r| - k;
    assert Strip(s) == t && t[0] == s[k];
  }

  // Properties of `Update`, for any entry test under which the added
  // entry is an entry and the added comment is not.

  /** After an update the new entry is there and no other entry is left. */
  lemma UpdateHolds(lines: seq<string>, isEntry: string -> bool, isBlank: string -> bool,
                    comment: string, entry: string)
    requires isEntry(entry) && !isEntry(comment)
    ensures Holds(Update(lines, isEntry, isBlank, comment, entry), isEntry, entry)
  {
    var r := Update(lines, isEntry, isBlank, comment, entry);
    if Found(lines, isEntry) {
      var i :| 0 <= i < |lines| && isEntry(lines[i]);
      assert isEntry(r[i]);
    } else if lines != [] && isBlank(lines[|lines| - 1]) {
      Inserted(lines[..|lines| - 1], [lines[|lines| - 1]], comment, entry, isEntry);
      assert lines[..|lines| - 1] + [lines[|lines| - 1]] == lines;
      assert isEntry(r[|lines|]);
    } else {
      Inserted(lines, [], comment, entry, isEntry);
      assert lines + [] == lines;
      assert isEntry(r[|lines| + 1]);
    }
  }

  /** Inserting `[comment, entry]` where no line is an entry leaves `entry` the only one. */
  lemma Inserted(init: seq<string>, tail: seq<string>, comment: string, entry: string,
                 isEntry: string -> bool)
    requires forall i :: 0 <= i < |init + tail| ==> !isEntry((init + tail)[i])
    requires !isEntry(comment)
    ensures var r := init + [comment, entry] + tail;
      r[|init| + 1] == entry &&
      forall i :: 0 <= i < |r| && isEntry(r[i]) ==> r[i] == entry
  {
    var r := init + [comment, entry] + tail;
    forall i | 0 <= i < |r| && i != |init| + 1 ensures !isEntry(r[i]) {
      if i < |init| {
        assert r[i] == (init + tail)[i];
      } else if i > |init| + 1 {
        assert r[i] == (init + tail)[i - 2];
      }
    }
  }

  /** A second update with the same entry changes nothing. */
  lemma UpdateTwice(lines: seq<string>, isEntry: string -> bool, isBlank: string -> bool,
                    comment: string, entry: string)
    requires isEntry(entry) && !isEntry(comment)
    ensures var r := Update(lines, isEntry, isBlank, comment, entry);
      Update(r, isEntry, isBlank, comment, entry) == r
  {
    var r := Update(lines, isEntry, isBlank, comment, entry);
    UpdateHolds(lines, isEntry, isBlank, comment, entry);
    assert Replace(r, isEntry, entry) == r;
  }

  /** With an entry present, the lines that are not entries are kept, in order. */
  lemma UpdateOthersFound(lines: seq<string>, isEntry: string -> bool, isBlank: string -> bool,
                          comment: string, entry: string)
    requires isEntry(entry) && Found(lines, isEntry)
    ensures Others(Update(lines, isEntry, isBlank, comment, entry), isEntry) == Others(lines, isEntry)
  {
    ReplaceOthers(lines, isEntry, entry);
  }

  /** With no entry and a blank last line, the comment joins the lines just before it. */
  lemma UpdateOthersBlank(lines: seq<string>, isEntry: string -> bool, isBlank: string -> bool,
                          comment: string, entry: string)
    requires isEntry(entry) && !isEntry(comment)
    requires !Found(lines, isEntry) && lines != [] && isBlank(lines[|lines| - 1])
    ensures Others(Update(lines, isEntry, isBlank, comment, entry), isEntry) ==
      lines[..|lines| - 1] + [comment, lines[|lines| - 1]]
  {
    var n := |lines|;
    var init, last := lines[..n - 1], lines[n - 1];
    assert init + [last] == lines;
    AddedOthers(init, [last], comment, entry, isEntry);
    assert init + [comment, entry] + [last] == init + [comment, entry, last];
    assert init + [comment] + [last] == init + [comment, last];
  }

  /** With no entry and no blank last line, the comment joins the lines at the end. */
  lemma UpdateOthersEnd(lines: seq<string>, isEntry: string -> bool, isBlank: string -> bool,
                        comment: string, entry: string)
    requires isEntry(entry) && !isEntry(comment)
    requires !Found(lines, isEntry) && !(lines != [] && isBlank(lines[|lines| - 1]))
    ensures Others(Update(lines, isEntry, isBlank, comment, entry), isEntry) == lines + [comment]
  {
    assert lines + [] == lines;
    AddedOthers(lines, [], comment, entry, isEntry);
    assert lines + [comment, entry] + [] == lines + [comment, entry];
    assert lines + [comment] + [] == lines + [comment];
  }

  /** Inserting `[comment, entry]` among lines without entries adds only the comment to them. */
  lemma AddedOthers(init: seq<string>, tail: seq<string>, comment: string, entry: string,
                    isEntry: string -> bool)
    requires !Found(init + tail, isEntry) && isEntry(entry) && !isEntry(comment)
    ensures Others(init + [comment, entry] + tail, isEntry) == init + [comment] + tail
  {
    NoneSplit(init, tail, isEntry);
    OthersNone(init, isEntry);
    OthersNone(tail, isEntry);
    OthersAppend(init + [comment, entry], tail, isEntry);
    OthersAppend(init, [comment, entry], isEntry);
    OthersPair(comment, entry, isEntry);
  }

  lemma OthersPair(comment: string, entry: string, isEntry: string -> bool)
    requires isEntry(entry) && !isEntry(comment)
    ensures Others([comment, entry], isEntry) == [comment]
  {
    assert [comment, entry][1..] == [entry];
    assert [entry][1..] == [];
  }

  lemma NoneSplit(a: seq<string>, b: seq<string>, isEntry: string -> bool)
    requires !Found(a + b, isEntry)
    ensures !Found(a, isEntry) && !Found(b, isEntry)
  {
    forall i | 0 <= i < |a| ensures !isEntry(a[i]) { assert a[i] == (a + b)[i]; }
    forall i | 0 <= i < |b| ensures !isEntry(b[i]) { assert b[i] == (a + b)[|a| + i]; }
  }

  lemma {:induction false} ReplaceOthers(lines: seq<string>, isEntry: string -> bool, entry: string)
    requires isEntry(entry)
    ensures Others(Replace(lines, isEntry, entry), isEntry) == Others(lines, isEntry)
  {
    if lines != [] {
      ReplaceOthers(lines[1..], isEntry, entry);
      assert Replace(lines, isEntry, entry)[1..] == Replace(lines[1..], isEntry, entry);
    }
  }

  lemma {:induction false} OthersNone(lines: seq<string>, isEntry: string -> bool)
    requires !Found(lines, isEntry)
    ensures Others(lines, isEntry) == lines
  {
    if lines != [] {
      assert !isEntry(lines[0]);
      assert !Found(lines[1..], isEntry) by {
        forall i | 0 <= i < |lines[1..]| ensures !isEntry(lines[1..][i]) {
          assert lines[1..][i] == lines[i + 1];
        }
      }
      OthersNone(lines[1..], isEntry);
      assert [lines[0]] + lines[1..] == lines;
    }
  }

  lemma {:induction false} OthersAppend(a: seq<string>, b: seq<string>, isEntry: string -> bool)
    ensures Others(a + b, isEntry) == Others(a, isEntry) + Others(b, isEntry)
  {
    if a != [] {
      OthersAppend(a[1..], b, isEntry);
      assert (a + b)[1..] == a[1..] + b;
    } else {
      assert a + b == b;
    }
  }

  // The same properties for the `.env` entry and comment.

  /** After `update_env_file`, the file holds the new entry and no other entry line. */
  lemma UpdatedEntries(lines: seq<string>, ids: seq<string>)
    ensures Holds(UpdatedLines(lines, ids), IsIdsLine, IdsLine(ids))
  {
    IdsLineIsIdsLine(ids);
    CommentNotIdsLine();
    UpdateHolds(lines, IsIdsLine, Blank, IdsComment, IdsLine(ids));
  }

  /** Running `update_env_file` twice with the same ids gives the file of one run. */
  lemma UpdateIdempotent(lines: seq<string>, ids: seq<string>)
    ensures UpdatedLines(UpdatedLines(lines, ids), ids) == UpdatedLines(lines, ids)
  {
    IdsLineIsIdsLine(ids);
    CommentNotIdsLine();
    UpdateTwice(lines, IsIdsLine, Blank, IdsComment, IdsLine(ids));
  }

  /** Every line that is not an entry is kept, in order; only the comment is added to them. */
  lemma UpdateKeepsOthers(lines: seq<string>, ids: seq<string>)
    ensures Found(lines, IsIdsLine) ==>
      Others(UpdatedLines(lines, ids), IsIdsLine) == Others(lines, IsIdsLine)
    ensures !Found(lines, IsIdsLine) && lines != [] && Blank(lines[|lines| - 1]) ==>
      Others(UpdatedLines(lines, ids), IsIdsLine) == lines[..|lines| - 1] + [IdsComment, lines[|lines| - 1]]
    ensures !Found(lines, IsIdsLine) && !(lines != [] && Blank(lines[|lines| - 1])) ==>
      Others(UpdatedLines(lines, ids), IsIdsLine) == lines + [IdsComment]
  {
    IdsLineIsIdsLine(ids);
    CommentNotIdsLine();
    var entry := IdsLine(ids);
    if Found(lines, IsIdsLine) {
      UpdateOthersFound(lines, IsIdsLine, Blank, IdsComment, entry);
    } else if lines != [] && Blank(lines[|lines| - 1]) {
      UpdateOthersBlank(lines, IsIdsLine, Blank, IdsComment, entry);
    } else {
      UpdateOthersEnd(lines, IsIdsLine, Blank, IdsComment, entry);
    }
  }

  // ------------------------------------------------------------ listing

  /** The pages of one level, in input order: `by_level[level]`. */
  function OfLevel(pages: seq<PageRecord>, level: int): (r: seq<PageRecord>)
    ensures |r| <= |pages|
    ensures forall i :: 0 <= i < |r| ==> r[i].level == level
  {
    if pages == [] then []
    else
      var last := pages[|pages| - 1];
      OfLevel(pages[..|pages| - 1], level) + (if last.level == level then [last] else [])
  }

  /** The pages whose level is in `levels`, in input order. */
  function InLevels(pages: seq<PageRecord>, levels: set<int>): seq<PageRecord> {
    if pages == [] then []
    else
      var last := pages[|pages| - 1];
      InLevels(pages[..|pages| - 1], levels) + (if last.level in levels then [last] else [])
  }

  predicate Increasing(s: seq<int>) {
    forall i, j :: 0 <= i < j < |s| ==> s[i] < s[j]
  }

  function InsertLevel(x: int, s: seq<int>): (r: seq<int>)
    requires Increasing(s)
    ensures Increasing(r)
    ensures forall y :: y in r <==> y == x || y in s
  {
    if s == [] then [x]
    else if x < s[0] then [x] + s
    else if x == s[0] then s
    else
      var rest := InsertLevel(x, s[1..]);
      assert forall i :: 0 <= i < |rest| ==> s[0] < rest[i] by {
        forall i | 0 <= i < |rest| ensures s[0] < rest[i] {
          assert rest[i] in rest;
        }
      }
      [s[0]] + rest
  }

  /** `sorted` applied to a list of levels, each level once. */
  function SortLevels(s: seq<int>): (r: seq<int>)
    ensures Increasing(r)
    ensures forall y :: y in r <==> y in s
  {
    if s == [] then [] else InsertLevel(s[|s| - 1], SortLevels(s[..|s| - 1]))
  }

  /** The level of every page (`page.get('level', 0)`), in input order. */
  function Levels(pages: seq<PageRecord>): (r: seq<int>)
    ensures |r| == |pages|
    ensures forall i :: 0 <= i < |pages| ==> r[i] == pages[i].level
  {
    seq(|pages|, i requires 0 <= i < |pages| => pages[i].level)
  }

  /** The levels present, ascending: `sorted(by_level.keys())`. */
  function LevelOrder(pages: seq<PageRecord>): seq<int> {
    SortLevels(Levels(pages))
  }

  function Members(levels: seq<int>): set<int> {
    set l | l in levels
  }

  /** The groups of `levels`, one after the other. */
  function Blocks(levels: seq<int>, pages: seq<PageRecord>): seq<PageRecord> {
    if levels == [] then []
    else Blocks(levels[..|levels| - 1], pages) + OfLevel(pages, levels[|levels| - 1])
  }

  /** The order in which the pages are listed. */
  function Ordered(pages: seq<PageRecord>): seq<PageRecord> {
    Blocks(LevelOrder(pages), pages)
  }

  datatype Icon = DatabaseIcon | PageIcon

  /** One listed page: indentation, icon, title and short id. */
  datatype ShownPage = ShownPage(indent: string, icon: Icon, title: string, shortId: string)

  const TitleWidth := 50
  const IdWidth := 8

  /** How one page is listed: two spaces per level, the title cut to 50 and the id to 8. */
  function Show(p: PageRecord): (s: ShownPage)
    ensures |s.indent| == if p.level <= 0 then 0 else 2 * p.level
    ensures s.icon == DatabaseIcon <==> p.fromDatabase
    ensures s.title <= p.title && |s.title| == if |p.title| < TitleWidth then |p.title| else TitleWidth
    ensures s.shortId <= p.id && |s.shortId| == if |p.id| < IdWidth then |p.id| else IdWidth
  {
    ShownPage(Repeat("  ", p.level), if p.fromDatabase then DatabaseIcon else PageIcon,
              Take(p.title, TitleWidth), Take(p.id, IdWidth))
  }

  function Shows(pages: seq<PageRecord>): (r: seq<ShownPage>)
    ensures |r| == |pages|
    ensures forall i :: 0 <= i < |pages| ==> r[i] == Show(pages[i])
  {
    seq(|pages|, i requires 0 <= i < |pages| => Show(pages[i]))
  }

  /** Two increasing lists with the same members are equal. */
  lemma {:induction false} IncreasingUnique(a: seq<int>, b: seq<int>)
    requires Increasing(a) && Increasing(b)
    requires forall x :: x in a <==> x in b
    ensures a == b
  {
    if a != [] { assert a[0] in a; }
    if b != [] { assert b[0] in b; }
    if a != [] && b != [] {
      assert a[0] == b[0] by {
        assert a[0] in b && b[0] in a;
      }
      forall x ensures x in a[1..] <==> x in b[1..] {
        if x in a[1..] {
          var i :| 1 <= i < |a| && a[i] == x;
          assert x > a[0] && x in b;
          var j :| 0 <= j < |b| && b[j] == x;
          assert j != 0;
        }
        if x in b[1..] {
          var j :| 1 <= j < |b| && b[j] == x;
          assert x > b[0] && x in a;
          var i :| 0 <= i < |a| && a[i] == x;
          assert i != 0;
        }
      }
      IncreasingUnique(a[1..], b[1..]);
      assert a == [a[0]] + a[1..] && b == [b[0]] + b[1..];
    }
  }

  /** Every page of a run of groups has one of the groups' levels. */
  lemma {:induction false} BlocksLevels(levels: seq<int>, pages: seq<PageRecord>)
    ensures forall i :: 0 <= i < |Blocks(levels, pages)| ==> Blocks(levels, pages)[i].level in levels
  {
    if levels != [] {
      var init, last := levels[..|levels| - 1], levels[|levels| - 1];
      BlocksLevels(init, pages);
      var a: seq<PageRecord>, b: seq<PageRecord> := Blocks(init, pages), OfLevel(pages, last);
      forall i | 0 <= i < |a + b| ensures (a + b)[i].level in levels {
        if i < |a| {
          assert (a + b)[i] == a[i];
          var k :| 0 <= k < |init| && init[k] == a[i].level;
          assert levels[k] == init[k];
        } else {
          assert (a + b)[i] == b[i - |a|];
        }
      }
    }
  }

  /** Groups taken in increasing level order list the pages by non-decreasing level. */
  lemma {:induction false} BlocksSorted(levels: seq<int>, pages: seq<PageRecord>)
    requires Increasing(levels)
    ensures forall i, j :: 0 <= i < j < |Blocks(levels, pages)| ==>
      Blocks(levels, pages)[i].level <= Blocks(levels, pages)[j].level
  {
    if levels != [] {
      var init, last := levels[..|levels| - 1], levels[|levels| - 1];
      BlocksSorted(init, pages);
      BlocksLevels(init, pages);
      var a: seq<PageRecord>, b: seq<PageRecord> := Blocks(init, pages), OfLevel(pages, last);
      assert Increasing(init);
      forall i, j | 0 <= i < j < |a + b| ensures (a + b)[i].level <= (a + b)[j].level {
        if j < |a| {
          assert (a + b)[i] == a[i] && (a + b)[j] == a[j];
          assert a[i].level <= a[j].level;
        } else if i >= |a| {
          assert (a + b)[i] == b[i - |a|] && (a + b)[j] == b[j - |a|];
        } else {
          assert (a + b)[i] == a[i] && (a + b)[j] == b[j - |a|];
          var k :| 0 <= k < |init| && init[k] == a[i].level;
          assert levels[k] == init[k] && levels[k] < levels[|levels| - 1];
        }
      }
    }
  }

  /** The listing is ordered by level. */
  lemma OrderedSorted(pages: seq<PageRecord>)
    ensures forall i, j :: 0 <= i < j < |Ordered(pages)| ==> Ordered(pages)[i].level <= Ordered(pages)[j].level
  {
    assert Ordered(pages) == Blocks(LevelOrder(pages), pages);
    BlocksSorted(LevelOrder(pages), pages);
  }

  lemma {:induction false} OfLevelAppend(a: seq<PageRecord>, b: seq<PageRecord>, level: int)
    ensures OfLevel(a + b, level) == OfLevel(a, level) + OfLevel(b, level)
  {
    if b == [] {
      assert a + b == a;
    } else {
      var init := b[..|b| - 1];
      OfLevelAppend(a, init, level);
      assert (a + b)[..|a + b| - 1] == a + init;
    }
  }

  /** Picking a level out of the pages of one level. */
  lemma {:induction false} OfLevelTwice(pages: seq<PageRecord>, m: int, level: int)
    ensures OfLevel(OfLevel(pages, m), level) == if m == level then OfLevel(pages, m) else []
  {
    if pages != [] {
      var init, last := pages[..|pages| - 1], pages[|pages| - 1];
      OfLevelTwice(init, m, level);
      var tail := if last.level == m then [last] else [];
      OfLevelAppend(OfLevel(init, m), tail, level);
      if tail != [] {
        assert tail[..0] == [];
      }
    }
  }

  /** A level that no page has picks nothing. */
  lemma {:induction false} OfLevelAbsent(pages: seq<PageRecord>, level: int)
    requires level !in Levels(pages)
    ensures OfLevel(pages, level) == []
  {
    if pages != [] {
      var init := pages[..|pages| - 1];
      assert Levels(pages)[|pages| - 1] == pages[|pages| - 1].level;
      assert level !in Levels(init) by {
        forall i | 0 <= i < |init| ensures Levels(init)[i] != level {
          assert Levels(init)[i] == Levels(pages)[i];
        }
      }
      OfLevelAbsent(init, level);
    }
  }

  /** Within a run of distinct groups, each level's pages are that level's group. */
  lemma {:induction false} BlocksOfLevel(levels: seq<int>, pages: seq<PageRecord>, level: int)
    requires Increasing(levels)
    ensures OfLevel(Blocks(levels, pages), level) == if level in levels then OfLevel(pages, level) else []
  {
    if levels != [] {
      var init, last := levels[..|levels| - 1], levels[|levels| - 1];
      assert Increasing(init);
      BlocksOfLevel(init, pages, level);
      OfLevelAppend(Blocks(init, pages), OfLevel(pages, last), level);
      OfLevelTwice(pages, last, level);
      assert level in levels <==> level in init || level == last;
      if level == last {
        assert last !in init;
      }
    }
  }

  /** Within each level the listing keeps the input order. */
  lemma OrderedStable(pages: seq<PageRecord>, level: int)
    ensures OfLevel(Ordered(pages), level) == OfLevel(pages, level)
  {
    BlocksOfLevel(LevelOrder(pages), pages, level);
    if level !in LevelOrder(pages) {
      OfLevelAbsent(pages, level);
    }
  }

  /** Adding one level to a set adds that level's pages. */
  lemma {:induction false} InLevelsAdd(pages: seq<PageRecord>, levels: set<int>, x: int)
    requires x !in levels
    ensures multiset(InLevels(pages, levels + {x})) ==
      multiset(InLevels(pages, levels)) + multiset(OfLevel(pages, x))
  {
    if pages != [] {
      var init, last := pages[..|pages| - 1], pages[|pages| - 1];
      InLevelsAdd(init, levels, x);
      var a := if last.level in levels + {x} then [last] else [];
      var b := if last.level in levels then [last] else [];
      var c := if last.level == x then [last] else [];
      calc {
        multiset(InLevels(pages, levels + {x}));
        multiset(InLevels(init, levels + {x}) + a);
        multiset(InLevels(init, levels)) + multiset(OfLevel(init, x)) + multiset(a);
        { assert multiset(a) == multiset(b) + multiset(c); }
        (multiset(InLevels(init, levels)) + multiset(b)) + (multiset(OfLevel(init, x)) + multiset(c));
        multiset(InLevels(init, levels) + b) + multiset(OfLevel(init, x) + c);
        multiset(InLevels(pages, levels)) + multiset(OfLevel(pages, x));
      }
    }
  }

  /** Distinct groups hold, together, the pages of their levels. */
  lemma {:induction false} BlocksMultiset(levels: seq<int>, pages: seq<PageRecord>)
    requires Increasing(levels)
    ensures multiset(Blocks(levels, pages)) == multiset(InLevels(pages, Members(levels)))
  {
    if levels == [] {
      assert Members(levels) == {};
      InLevelsNone(pages);
    } else {
      var init, last := levels[..|levels| - 1], levels[|levels| - 1];
      assert Increasing(init);
      BlocksMultiset(init, pages);
      assert last !in init;
      MembersSnoc(levels);
      InLevelsAdd(pages, Members(init), last);
    }
  }

  lemma MembersSnoc(levels: seq<int>)
    requires levels != []
    ensures Members(levels) == Members(levels[..|levels| - 1]) + {levels[|levels| - 1]}
  {
    assert levels == levels[..|levels| - 1] + [levels[|levels| - 1]];
  }

  lemma {:induction false} InLevelsNone(pages: seq<PageRecord>)
    ensures InLevels(pages, {}) == []
  {
    if pages != [] { InLevelsNone(pages[..|pages| - 1]); }
  }

  /** When every page's level is in the set, nothing is dropped. */
  lemma {:induction false} InLevelsAll(pages: seq<PageRecord>, levels: set<int>)
    requires forall i :: 0 <= i < |pages| ==> pages[i].level in levels
    ensures InLevels(pages, levels) == pages
  {
    if pages != [] {
      var init := pages[..|pages| - 1];
      InLevelsAll(init, levels);
      assert init + [pages[|pages| - 1]] == pages;
    }
  }

  /** The listing shows every page exactly as often as it occurs. */
  lemma OrderedPermutation(pages: seq<PageRecord>)
    ensures multiset(Ordered(pages)) == multiset(pages)
  {
    var levels := LevelOrder(pages);
    BlocksMultiset(levels, pages);
    forall i | 0 <= i < |pages| ensures pages[i].level in Members(levels) {
      assert Levels(pages)[i] == pages[i].level;
    }
    InLevelsAll(pages, Members(levels));
  }

  /**
   * `by_level` after the first `k` pages: its keys, in insertion order, are
   * `keys`, and it maps each level seen so far to that level's pages.
   */
  ghost predicate GroupedPrefix(pages: seq<PageRecord>, k: nat, byLevel: map<int, seq<PageRecord>>, keys: seq<int>)
    requires k <= |pages|
  {
    && (forall l :: l in byLevel <==> l in keys)
    && (forall l :: l in byLevel ==> byLevel[l] == OfLevel(pages[..k], l) && byLevel[l] != [])
    && (forall l :: l !in byLevel ==> OfLevel(pages[..k], l) == [])
  }

  /** `display_results`' grouping loop: the `by_level` dict and its keys in insertion order. */
  method GroupByLevel(pages: seq<PageRecord>) returns (byLevel: map<int, seq<PageRecord>>, keys: seq<int>)
    ensures forall l :: l in byLevel <==> l in keys
    ensures forall l :: l in keys <==> l in Levels(pages)
    ensures forall l :: l in byLevel ==> byLevel[l] == OfLevel(pages, l)
  {
    byLevel, keys := map[], [];
    for k := 0 to |pages|
      invariant GroupedPrefix(pages, k, byLevel, keys)
    {
      var page := pages[k];
      GroupStep(pages, k, byLevel, keys);
      if page.level !in byLevel {
        byLevel := byLevel[page.level := []];
        keys := keys + [page.level];
      }
      byLevel := byLevel[page.level := byLevel[page.level] + [page]];
    }
    assert pages[..|pages|] == pages;
    GroupedLevels(pages, byLevel);
  }

  /** One page added to `by_level[level]`, the key created first when missing. */
  lemma GroupStep(pages: seq<PageRecord>, k: nat, byLevel: map<int, seq<PageRecord>>, keys: seq<int>)
    requires k < |pages| && GroupedPrefix(pages, k, byLevel, keys)
    ensures var l := pages[k].level;
      var m := if l in byLevel then byLevel else byLevel[l := []];
      GroupedPrefix(pages, k + 1, m[l := m[l] + [pages[k]]], if l in byLevel then keys else keys + [l])
  {
    OfLevelSnoc(pages, k);
  }

  /** A dict holding exactly the non-empty groups has exactly the levels present as keys. */
  lemma GroupedLevels(pages: seq<PageRecord>, byLevel: map<int, seq<PageRecord>>)
    requires forall l :: l in byLevel ==> byLevel[l] == OfLevel(pages, l) && byLevel[l] != []
    requires forall l :: l !in byLevel ==> OfLevel(pages, l) == []
    ensures forall l :: l in byLevel <==> l in Levels(pages)
  {
    forall l ensures l in byLevel <==> l in Levels(pages) {
      LevelPresent(pages, l);
    }
  }

  lemma OfLevelSnoc(pages: seq<PageRecord>, k: nat)
    requires k < |pages|
    ensures forall l ::
      OfLevel(pages[..k + 1], l) == OfLevel(pages[..k], l) + (if pages[k].level == l then [pages[k]] else [])
  {
    assert pages[..k + 1][..k] == pages[..k];
  }

  /** A level has pages exactly when some page has it. */
  lemma {:induction false} LevelPresent(pages: seq<PageRecord>, level: int)
    ensures level in Levels(pages) <==> OfLevel(pages, level) != []
  {
    if level !in Levels(pages) {
      OfLevelAbsent(pages, level);
    } else {
      var i :| 0 <= i < |pages| && Levels(pages)[i] == level;
      OfLevelHas(pages, i);
    }
  }

  lemma {:induction false} OfLevelHas(pages: seq<PageRecord>, i: nat)
    requires i < |pages|
    ensures OfLevel(pages, pages[i].level) != []
  {
    var n := |pages|;
    if i < n - 1 {
      OfLevelHas(pages[..n - 1], i);
    }
  }

  /**
   * `display_results`' listing: the pages grouped by level, the levels
   * sorted, and each group shown in turn.
   */
  method ListPages(pages: seq<PageRecord>) returns (lines: seq<ShownPage>)
    ensures lines == Shows(Ordered(pages))
  {
    var byLevel, keys := GroupByLevel(pages);
    var levels := SortLevels(keys);
    IncreasingUnique(levels, LevelOrder(pages));
    lines := [];
    ghost var done: seq<PageRecord> := [];
    for i := 0 to |levels|
      invariant done == Blocks(levels[..i], pages)
      invariant lines == Shows(done)
    {
      var block := byLevel[levels[i]];
      lines := ShowBlock(lines, block);
      ShowsAppend(done, block);
      assert levels[..i + 1][..i] == levels[..i];
      done := done + block;
    }
    assert levels[..|levels|] == levels;
  }

  /** The inner loop: each page of a group shown after the lines so far. */
  method ShowBlock(lines: seq<ShownPage>, block: seq<PageRecord>) returns (r: seq<ShownPage>)
    ensures r == lines + Shows(block)
  {
    r := lines;
    for j := 0 to |block|
      invariant r == lines + Shows(block[..j])
    {
      ShowsAppend(block[..j], [block[j]]);
      assert block[..j + 1] == block[..j] + [block[j]];
      r := r + [Show(block[j])];
    }
    assert block[..|block|] == block;
  }

  lemma ShowsAppend(a: seq<PageRecord>, b: seq<PageRecord>)
    ensures Shows(a + b) == Shows(a) + Shows(b)
  {
  }

  // ------------------------------------------------------------ scanning

  /** What `json.loads` makes of a text, as far as this file looks at it. */
  datatype Parsed =
    | ScanJson(result: PageScanner.ScanResult)   // the object the Node scanner prints
    | ErrorJson(error: Option<string>)           // another object, with its "error" value if any
    | OtherJson(attributeError: string)          // valid JSON that is not an object: `.get` raises this
    | NotJson                                    // JSONDecodeError

  /** What `subprocess.run` gives: the finished process, or another exception's text. */
  datatype NodeRun =
    | Finished(returnCode: int, stdout: string, stderr: string)
    | Raised(message: string)

  /** The dict `scan_pages` returns. */
  datatype ScanDict =
    | Scanned(result: PageScanner.ScanResult)
    | Unsuccessful(error: Option<string>)
    | NotDict    // a non-object on stdout, returned as it is

  const UnknownError := "Unknown error"
  const InvalidJson := "Invalid JSON response: "

  /**
   * `scan_pages` once the process has run. A scan counts only when the
   * process exits with 0 and prints a scan result; a process that fails or
   * raises always yields an error text, which is the process's own output
   * when that output is not JSON.
   */
  function ScanOutcome(run: NodeRun, parse: string -> Parsed): (d: ScanDict)
    ensures d.Scanned? <==> run.Finished? && run.returnCode == 0 && parse(run.stdout).ScanJson?
    ensures d.Scanned? ==> d.result == parse(run.stdout).result
    ensures run.Raised? || run.returnCode != 0 ==> d.Unsuccessful? && d.error.Some?
    ensures run.Finished? && run.returnCode != 0 && parse(OrElse(run.stderr, run.stdout)).NotJson? ==>
      d.Unsuccessful? && d.error == Some(if run.stderr != "" then run.stderr else run.stdout)
    ensures run.Finished? && run.returnCode == 0 && parse(run.stdout).NotJson? ==>
      d.Unsuccessful? && d.error == Some(InvalidJson + run.stdout)
  {
    match run
    case Raised(message) => Unsuccessful(Some(message))
    case Finished(code, stdout, stderr) =>
      if code != 0 then
        var errorMsg := OrElse(stderr, stdout);
        match parse(errorMsg)
        case NotJson => Unsuccessful(Some(errorMsg))
        case OtherJson(e) => Unsuccessful(Some(e))
        case ErrorJson(e) => Unsuccessful(Some(if e.Some? then e.value else UnknownError))
        case ScanJson(_) => Unsuccessful(Some(UnknownError))
      else
        match parse(stdout)
        case NotJson => Unsuccessful(Some(InvalidJson + stdout))
        case OtherJson(_) => NotDict
        case ErrorJson(e) => Unsuccessful(e)
        case ScanJson(r) => Scanned(r)
  }

  /** `result.get('success')` is true. */
  predicate Succeeded(d: ScanDict) {
    d.Scanned? && d.result.success
  }

  /** The Node scanner's arguments: token, parent page id without dashes, recursive flag. */
  function ScanArguments(token: string, parent: string, recursive: bool): (args: seq<string>)
    ensures |args| == 3 && '-' !in args[1]
  {
    [token, RemoveChar(parent, '-'), if recursive then "true" else "false"]
  }

  /**
   * The Node scanner reads back the token, the parent id without dashes and
   * the recursive flag it was given, whatever its environment says.
   */
  lemma ArgumentsAgree(token: string, parent: string, recursive: bool, env: map<string, string>)
    requires token != "" && RemoveChar(parent, '-') != ""
    ensures PageScanner.Arguments(ScanArguments(token, parent, recursive), env) ==
      Some((token, RemoveChar(parent, '-'), recursive))
  {
    var flag := if recursive then "true" else "false";
    assert flag != "";
    if recursive {
      assert Lower("true") == "true";
    } else {
      assert |Lower("false")| == 5;
    }
  }

  // ------------------------------------------------------------ .env loops

  /** `update_env_file`'s loop: each entry line replaced, and whether there was one. */
  method ReplaceEntries(lines: seq<string>, isEntry: string -> bool, entry: string)
    returns (newLines: seq<string>, updated: bool)
    ensures newLines == Replace(lines, isEntry, entry)
    ensures updated <==> Found(lines, isEntry)
    ensures !updated ==> newLines == lines
  {
    updated := false;
    newLines := [];
    for k := 0 to |lines|
      invariant |newLines| == k
      invariant forall i :: 0 <= i < k ==> newLines[i] == if isEntry(lines[i]) then entry else lines[i]
      invariant updated <==> exists i :: 0 <= i < k && isEntry(lines[i])
    {
      if isEntry(lines[k]) {
        newLines := newLines + [entry];
        updated := true;
      } else {
        newLines := newLines + [lines[k]];
      }
    }
  }

  /** The comment and the entry inserted before a blank last line, or appended. */
  method AddEntry(lines: seq<string>, isBlank: string -> bool, comment: string, entry: string)
    returns (newLines: seq<string>)
    ensures lines != [] && isBlank(lines[|lines| - 1]) ==>
      newLines == lines[..|lines| - 1] + [comment, entry, lines[|lines| - 1]]
    ensures !(lines != [] && isBlank(lines[|lines| - 1])) ==> newLines == lines + [comment, entry]
  {
    newLines := lines;
    if newLines != [] && isBlank(newLines[|newLines| - 1]) {
      var last := newLines[|newLines| - 1];
      newLines := newLines[..|newLines| - 1] + [comment] + [last];
      newLines := newLines[..|newLines| - 1] + [entry] + [last];
      assert newLines == lines[..|lines| - 1] + [comment, entry, last];
    } else {
      newLines := newLines + [comment];
      newLines := newLines + [entry];
    }
  }

  // ------------------------------------------------------------ the scanner

  class NotionPageScanner {
    const notionToken: Option<string>
    const parentPageId: Option<string>
    const recursive: bool
    const autoExport: bool

    constructor (env: map<string, string>)
      ensures notionToken == (if "NOTION_TOKEN" in env then Some(env["NOTION_TOKEN"]) else None)
      ensures parentPageId == (if "NOTION_PAGE_ID" in env then Some(env["NOTION_PAGE_ID"]) else None)
      ensures recursive <==> Lower(Getenv(env, "RECURSIVE", "true")) == "true"
      ensures autoExport <==> Lower(Getenv(env, "AUTO_EXPORT", "false")) == "true"
    {
      notionToken := if "NOTION_TOKEN" in env then Some(env["NOTION_TOKEN"]) else None;
      parentPageId := if "NOTION_PAGE_ID" in env then Some(env["NOTION_PAGE_ID"]) else None;
      recursive := Lower(Getenv(env, "RECURSIVE", "true")) == "true";
      autoExport := Lower(Getenv(env, "AUTO_EXPORT", "false")) == "true";
    }

    /** `validate_config`: a token and a parent page id, both non-empty. */
    predicate ValidateConfig()
      reads this
    {
      Truthy(notionToken) && Truthy(parentPageId)
    }

    /** The scan for a configuration that passed validation. */
    function Scan(node: seq<string> -> NodeRun, parse: string -> Parsed): ScanDict
      requires ValidateConfig()
      reads this
    {
      ScanOutcome(node(ScanArguments(notionToken.value, parentPageId.value, recursive)), parse)
    }

    /**
     * `update_env_file`: a missing file is created from the template; an
     * existing one has its entries rewritten, or the entry added.
     */
    method UpdateEnvFile(envFile: Option<seq<string>>, pageIds: seq<string>) returns (written: seq<string>)
      ensures written == EnvAfter(envFile, notionToken, pageIds)
    {
      if envFile.None? {
        return Template(notionToken, pageIds);
      }
      var entry := IdsLine(pageIds);
      var newLines, updated := ReplaceEntries(envFile.value, IsIdsLine, entry);
      if !updated {
        newLines := AddEntry(newLines, Blank, IdsComment, entry);
      }
      return newLines;
    }

    /**
     * `display_results`: nothing more after a failed scan; otherwise the
     * listing, the rewritten `.env`, and with auto-export the id list that
     * `export_all` hands to the exporter in `NOTION_PAGE_IDS`.
     */
    method DisplayResults(result: ScanDict, envFile: Option<seq<string>>)
      returns (lines: seq<ShownPage>, written: Option<seq<string>>, exportIds: Option<string>)
      ensures !Succeeded(result) ==> lines == [] && written == None && exportIds == None
      ensures Succeeded(result) ==> lines == Shows(Ordered(result.result.pages))
      ensures Succeeded(result) ==> written == Some(EnvAfter(envFile, notionToken, result.result.pageIds))
      ensures Succeeded(result) ==>
        exportIds == if autoExport then Some(Join(result.result.pageIds, ",")) else None
    {
      lines, written, exportIds := [], None, None;
      if !Succeeded(result) {
        return;
      }
      var r := result.result;
      var w := UpdateEnvFile(envFile, r.pageIds);
      written := Some(w);
      lines := ListPages(r.pages);
      if autoExport {
        exportIds := Some(Join(r.pageIds, ","));
      }
    }

    /** `run`: validate, scan, display; the result is the scan's success. */
    method Run(node: seq<string> -> NodeRun, parse: string -> Parsed, envFile: Option<seq<string>>)
      returns (success: bool, lines: seq<ShownPage>, written: Option<seq<string>>, exportIds: Option<string>)
      ensures success <==> ValidateConfig() && Succeeded(Scan(node, parse))
      ensures written.Some? <==> success
      ensures success ==> written == Some(EnvAfter(envFile, notionToken, Scan(node, parse).result.pageIds))
      ensures success ==> lines == Shows(Ordered(Scan(node, parse).result.pages))
    {
      if !ValidateConfig() {
        return false, [], None, None;
      }
      var result := Scan(node, parse);
      lines, written, exportIds := DisplayResults(result, envFile);
      success := Succeeded(result);
    }
  }
}
