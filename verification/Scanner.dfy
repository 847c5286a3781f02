/**
 * get_page_ids.js: the walk that lists every page below a parent page.
 *
 * The Notion API is a fixed `Workspace` value. `children` gives, for a block
 * id, the successive pages of `blocks.children.list`; `rows` gives, for a
 * database id, the successive pages of `databases.query`; `pages` gives the
 * `properties` that `pages.retrieve` returns. A request for an id or a page
 * that is not there is a failed API call (an exception).
 *
 * The module-level `pageIds` Set (kept as its insertion order) and the
 * `pageInfo` array are the fields of a `Scanner`.
 */
module PageScanner {

  import opened Common
  import opened Text
  import opened Properties

  datatype BlockKind = ChildPage | ChildDatabase | OtherBlock

  /** A block of a listing: its `type` and `id`. */
  datatype Block = Block(kind: BlockKind, id: string)

  /** One reply of `blocks.children.list`: `results` and `has_more`. */
  datatype Listing = Listing(results: seq<Block>, hasMore: bool)

  /** One reply of `databases.query`: the ids of its `results` and `has_more`. */
  datatype RowListing = RowListing(rows: seq<string>, hasMore: bool)

  datatype Workspace = Workspace(
    children: map<string, seq<Listing>>,
    rows: map<string, seq<RowListing>>,
    pages: map<string, PropertyList>)

  /** `getPageTitle`: `title`, `Name`, `name`, any title property, else (also on error) "Untitled". */
  function PageTitle(w: Workspace, id: string): (t: string)
    ensures t != ""
    ensures id !in w.pages ==> t == "Untitled"
    ensures id in w.pages && NamedText(w.pages[id], "title").Some? ==> t == NamedText(w.pages[id], "title").value
    ensures id in w.pages && NamedText(w.pages[id], "title").None? && NamedText(w.pages[id], "Name").Some? ==>
      t == NamedText(w.pages[id], "Name").value
    ensures (id in w.pages && NamedText(w.pages[id], "title").None? && NamedText(w.pages[id], "Name").None? &&
             NamedText(w.pages[id], "name").Some?) ==> t == NamedText(w.pages[id], "name").value
    ensures (id in w.pages && NamedText(w.pages[id], "title").None? && NamedText(w.pages[id], "Name").None? &&
             NamedText(w.pages[id], "name").None?) ==> t == FirstTitleTyped(w.pages[id]).GetOr("Untitled")
  {
    if id in w.pages then
      var names := ["title", "Name", "name"];
      assert names[0] == "title" && names[1] == "Name" && names[2] == "name";
      SelectTitle(w.pages[id], names).GetOr("Untitled")
    else "Untitled"
  }

  /** Every id that some listing reports as a child page: the pages the walk can descend into. */
  function ChildPageIds(w: Workspace): set<string> {
    set k, r, b | k in w.children && r in w.children[k] && b in r.results && b.kind == ChildPage :: b.id
  }

  /** Every id that some `databases.query` reply lists as a row. */
  function RowIds(w: Workspace): set<string> {
    set k, l, x | k in w.rows && l in w.rows[k] && x in l.rows :: x
  }

  lemma RowIdsHas(w: Workspace, dbId: string, l: RowListing, x: string)
    requires dbId in w.rows && l in w.rows[dbId] && x in l.rows
    ensures x in RowIds(w)
  {
  }

  /** The elements of a sequence, as a set. */
  function Elements(s: seq<string>): set<string> {
    set x | x in s
  }

  /**
   * `getPageIds`' arguments: token, parent page id and the recursive flag,
   * each falling back to its environment variable; `None` when the token or
   * the parent page is missing (the script exits with an error).
   */
  function Arguments(args: seq<string>, env: map<string, string>): (r: Option<(string, string, bool)>)
    ensures r.Some? ==> r.value.0 != "" && r.value.1 != ""
    ensures r.None? <==>
      ((|args| == 0 || args[0] == "") && Getenv(env, "NOTION_TOKEN", "") == "") ||
      ((|args| <= 1 || args[1] == "") && Getenv(env, "NOTION_PAGE_ID", "") == "")
    ensures |args| > 1 && args[0] != "" && args[1] != "" ==> r == Some((args[0], args[1], r.value.2))
    ensures r.Some? && (|args| <= 2 || args[2] == "") && "RECURSIVE" !in env ==> r.value.2
  {
    var token := OrElse(if |args| > 0 then args[0] else "", Getenv(env, "NOTION_TOKEN", ""));
    var parent := OrElse(if |args| > 1 then args[1] else "", Getenv(env, "NOTION_PAGE_ID", ""));
    var flag := OrElse(if |args| > 2 then args[2] else "", OrElse(Getenv(env, "RECURSIVE", ""), "true"));
    if token == "" || parent == "" then None else Some((token, parent, Lower(flag) == "true"))
  }

  /**
   * The pages recorded from `before` on, during a visit of `blockId` at
   * `level`, each satisfy `NewRecordOk`.
   */
  ghost predicate Grown(w: Workspace, recursive: bool, before: seq<PageRecord>, after: seq<PageRecord>,
                        blockId: string, level: int)
  {
    before <= after &&
    forall i :: |before| <= i < |after| ==> NewRecordOk(w, recursive, after, |before|, i, blockId, level)
  }

  /**
   * What a record found while visiting `blockId` at `level` looks like: a
   * database row sits below the level with a database as parent; a page
   * listed directly under `blockId` is at `level`; any other page was found
   * by recursion, is deeper, and names as parent a page recorded before it
   * in the same visit.
   */
  ghost predicate NewRecordOk(w: Workspace, recursive: bool, info: seq<PageRecord>, from: nat, i: nat,
                              blockId: string, level: int)
    requires from <= i < |info|
  {
    var r := info[i];
    r.parent.Some? && (r.id in ChildPageIds(w) || r.id in RowIds(w)) &&
    if r.fromDatabase then r.level > level && r.parent.value in w.rows
    else if r.parent == Some(blockId) then r.level == level
    else
      recursive && r.level > level &&
      exists j :: from <= j < i && !info[j].fromDatabase && r.parent == Some(info[j].id)
  }

  /** The ids not yet seen among `ids`, appended in order: the Set's `has`/`add` on a sequence. */
  function AddFresh(seen: seq<string>, ids: seq<string>): (r: seq<string>)
    ensures seen <= r
    ensures Distinct(seen) ==> Distinct(r)
    ensures forall x :: x in r <==> x in seen || x in ids
  {
    if ids == [] then seen
    else
      var s := AddFresh(seen, ids[..|ids| - 1]);
      assert forall x :: x in ids <==> x in ids[..|ids| - 1] || x == ids[|ids| - 1];
      if ids[|ids| - 1] in s then s else s + [ids[|ids| - 1]]
  }

  /**
   * The row ids of the `databases.query` replies read while `has_more`
   * holds, and whether the last reply read said there were no more. A
   * missing reply is a failed call: the rows before it were already read.
   */
  function RowsRead(ls: seq<RowListing>): (seq<string>, bool) {
    if ls == [] then ([], false)
    else if !ls[0].hasMore then (ls[0].rows, true)
    else
      var rest := RowsRead(ls[1..]);
      (ls[0].rows + rest.0, rest.1)
  }

  // ------------------------------------------------------------ the walk, as values

  /** The record of a child page found in the listing of `blockId`. */
  function ListedRecord(w: Workspace, id: string, level: int, blockId: string): PageRecord {
    PageRecord(id, PageTitle(w, id), level, Some(blockId), false)
  }

  /** The record of a row of database `dbId` found at `level`: one level down. */
  function RowRecord(w: Workspace, id: string, level: int, dbId: string): PageRecord {
    PageRecord(id, PageTitle(w, id), level + 1, Some(dbId), true)
  }

  /** The record of the parent page the scan starts from. */
  function ParentRecord(w: Workspace, parent: string): PageRecord {
    PageRecord(parent, PageTitle(w, parent), 0, None, false)
  }

  /** The rows not yet recorded among `rows`, appended in order. */
  function AddRows(w: Workspace, info: seq<PageRecord>, rows: seq<string>, level: int, dbId: string)
    : (r: seq<PageRecord>)
    ensures info <= r
  {
    if rows == [] then info
    else
      var s := AddRows(w, info, rows[..|rows| - 1], level, dbId);
      var x := rows[|rows| - 1];
      if x in Ids(s) then s else s + [RowRecord(w, x, level, dbId)]
  }

  /**
   * The `databases.query` loop for `dbId`: the records afterwards, and
   * whether it ended normally (a failed query aborts the enclosing visit).
   */
  function Query(w: Workspace, info: seq<PageRecord>, level: int, dbId: string): (r: (seq<PageRecord>, bool))
    ensures info <= r.0
  {
    if dbId !in w.rows then (info, false)
    else
      var read := RowsRead(w.rows[dbId]);
      (AddRows(w, info, read.0, level, dbId), read.1)
  }

  /** How many pages that some listing reports are not recorded yet: what each descent uses up. */
  function Unseen(w: Workspace, info: seq<PageRecord>): nat {
    |ChildPageIds(w) - Elements(Ids(info))|
  }

  /**
   * `getChildPages(blockId, level)` on the records so far: the records
   * afterwards, depth first. A missing listing is a failed call, caught
   * with nothing recorded.
   */
  function Walk(w: Workspace, rec: bool, info: seq<PageRecord>, blockId: string, level: int): (r: seq<PageRecord>)
    ensures info <= r
    decreases Unseen(w, info), 4, 0
  {
    if blockId !in w.children then info
    else WalkFrom(w, rec, info, blockId, level, 0).0
  }

  /**
   * The do-while loop from reply `n` of the listing of `blockId`: each reply
   * read is handled, and the next is read only while `has_more` holds. The
   * flag is false when a call failed (a database query, or a reply that is
   * missing), which ends the visit.
   */
  function WalkFrom(w: Workspace, rec: bool, info: seq<PageRecord>, blockId: string, level: int, n: nat)
    : (r: (seq<PageRecord>, bool))
    requires blockId in w.children
    ensures info <= r.0
    decreases Unseen(w, info), 3, |w.children[blockId]| - n
  {
    var replies := w.children[blockId];
    if n >= |replies| then (info, false)
    else
      var s := WalkBlocks(w, rec, info, blockId, level, n, 0);
      if !s.1 || !replies[n].hasMore then s
      else
        UnseenShrinks(w, info, s.0);
        WalkFrom(w, rec, s.0, blockId, level, n + 1)
  }

  /** The loop over the blocks of one reply from block `i` on; false when a database query failed. */
  function WalkBlocks(w: Workspace, rec: bool, info: seq<PageRecord>, blockId: string, level: int,
                      n: nat, i: nat): (r: (seq<PageRecord>, bool))
    requires blockId in w.children && n < |w.children[blockId]|
    ensures info <= r.0
    decreases Unseen(w, info), 2, |w.children[blockId][n].results| - i
  {
    var reply := w.children[blockId][n];
    if i >= |reply.results| then (info, true)
    else
      var b := reply.results[i];
      assert b.kind == ChildPage ==> b.id in ChildPageIds(w);
      var s := WalkBlock(w, rec, info, blockId, level, b);
      if !s.1 then s
      else
        UnseenShrinks(w, info, s.0);
        WalkBlocks(w, rec, s.0, blockId, level, n, i + 1)
  }

  /**
   * One block: an unseen child page is visited, a child database queried,
   * and anything else, a child page already seen included, skipped.
   */
  function WalkBlock(w: Workspace, rec: bool, info: seq<PageRecord>, blockId: string, level: int, b: Block)
    : (r: (seq<PageRecord>, bool))
    requires b.kind == ChildPage ==> b.id in ChildPageIds(w)
    ensures info <= r.0
    decreases Unseen(w, info), 1, 0
  {
    if b.kind == ChildPage && b.id !in Ids(info) then (WalkVisit(w, rec, info, blockId, level, b.id), true)
    else if b.kind == ChildDatabase then Query(w, info, level, b.id)
    else (info, true)
  }

  /** An unseen child page: its record at `level`, then, when recursive, its own walk one level down. */
  function WalkVisit(w: Workspace, rec: bool, info: seq<PageRecord>, blockId: string, level: int, id: string)
    : (r: seq<PageRecord>)
    requires id in ChildPageIds(w) && id !in Ids(info)
    ensures info <= r
    decreases Unseen(w, info), 0, 0
  {
    var next := info + [ListedRecord(w, id, level, blockId)];
    if rec then
      VisitShrinks(w, info, next, id);
      Walk(w, rec, next, id, level + 1)
    else next
  }

  /** What `getAllPageIds` reports: the parent page, then the walk of its children from level 1. */
  function Scan(w: Workspace, rec: bool, parent: string): (r: seq<PageRecord>)
    ensures |r| >= 1 && r[0] == ParentRecord(w, parent)
  {
    Walk(w, rec, [ParentRecord(w, parent)], parent, 1)
  }

  class Scanner {
    const workspace: Workspace
    /** `RECURSIVE`. */
    const recursive: bool
    /** `pageIds`, the Set, in insertion order. */
    var pageIds: seq<string>
    /** `pageInfo`. */
    var pageInfo: seq<PageRecord>

    /** The Set and the array agree, and no id is recorded twice. */
    ghost predicate Valid()
      reads this
    {
      Distinct(pageIds) && pageIds == Ids(pageInfo)
    }

    constructor (w: Workspace, recursive: bool)
      ensures workspace == w && this.recursive == recursive
      ensures pageIds == [] && pageInfo == [] && Valid()
    {
      workspace := w;
      this.recursive := recursive;
      pageIds := [];
      pageInfo := [];
    }

    /** `pageIds.add(id)` and `pageInfo.push(record)` for an id not seen before. */
    method Record(r: PageRecord)
      requires Valid() && r.id !in pageIds
      modifies this
      ensures Valid()
      ensures pageIds == old(pageIds) + [r.id] && pageInfo == old(pageInfo) + [r]
    {
      pageIds := pageIds + [r.id];
      pageInfo := pageInfo + [r];
      assert Ids(pageInfo) == Ids(old(pageInfo)) + [r.id];
    }

    /** One row of a reply: recorded one level down, below the database, unless already seen. */
    method RecordRow(id: string, level: int, dbId: string, ghost from: nat)
      requires Valid() && id in RowIds(workspace) && RowRecords(workspace, pageInfo, from, level, dbId)
      modifies this
      ensures Valid() && old(pageInfo) <= pageInfo
      ensures RowRecords(workspace, pageInfo, from, level, dbId)
      ensures pageIds == if id in old(pageIds) then old(pageIds) else old(pageIds) + [id]
      ensures pageInfo == if id in old(pageIds) then old(pageInfo) else old(pageInfo) + [RowRecord(workspace, id, level, dbId)]
    {
      if id !in pageIds {
        ghost var before := pageInfo;
        var row := RowRecord(workspace, id, level, dbId);
        Record(row);
        RowRecordsPush(workspace, before, row, from, level, dbId);
      }
    }

    /** The loop over one reply's rows: record each row not seen before. */
    method RecordRows(reply: RowListing, level: int, dbId: string)
      requires Valid() && dbId in workspace.rows && reply in workspace.rows[dbId]
      modifies this
      ensures Valid() && old(pageInfo) <= pageInfo
      ensures RowRecords(workspace, pageInfo, |old(pageInfo)|, level, dbId)
      ensures pageIds == AddFresh(old(pageIds), reply.rows)
      ensures pageInfo == AddRows(workspace, old(pageInfo), reply.rows, level, dbId)
    {
      var rows := reply.rows;
      var k := 0;
      while k < |rows|
        invariant 0 <= k <= |rows|
        invariant Valid() && old(pageInfo) <= pageInfo
        invariant RowRecords(workspace, pageInfo, |old(pageInfo)|, level, dbId)
        invariant pageIds == AddFresh(old(pageIds), rows[..k])
        invariant pageInfo == AddRows(workspace, old(pageInfo), rows[..k], level, dbId)
      {
        var id := rows[k];
        RowIdsHas(workspace, dbId, reply, id);
        AddFreshAt(old(pageIds), rows, k);
        AddRowsAt(workspace, old(pageInfo), rows, k, level, dbId);
        RecordRow(id, level, dbId, |old(pageInfo)|);
        k := k + 1;
      }
      assert rows[..k] == rows;
    }

    /**
     * The paginated `databases.query` loop of `getChildPages`: every row not
     * seen before is recorded one level down, with the database as parent
     * and `fromDatabase` set, and never descended into. `ok` is false when a
     * query failed, which aborts the visit that found the database.
     */
    method QueryDatabase(dbId: string, level: int) returns (ok: bool)
      requires Valid()
      modifies this
      ensures Valid() && old(pageInfo) <= pageInfo
      ensures RowRecords(workspace, pageInfo, |old(pageInfo)|, level, dbId)
      ensures pageInfo == Query(workspace, old(pageInfo), level, dbId).0
      ensures ok == Query(workspace, old(pageInfo), level, dbId).1
    {
      if dbId !in workspace.rows {
        return false;
      }
      var replies := workspace.rows[dbId];
      var n := 0;
      ghost var read: seq<string> := [];
      assert replies[0..] == replies;
      assert [] + RowsRead(replies).0 == RowsRead(replies).0;
      while n < |replies|
        invariant 0 <= n <= |replies|
        invariant Valid() && old(pageInfo) <= pageInfo
        invariant RowRecords(workspace, pageInfo, |old(pageInfo)|, level, dbId)
        invariant pageInfo == AddRows(workspace, old(pageInfo), read, level, dbId)
        invariant RowsRead(replies).0 == read + RowsRead(replies[n..]).0
        invariant RowsRead(replies).1 == RowsRead(replies[n..]).1
      {
        var reply := replies[n];
        ghost var mid := pageInfo;
        RecordRows(reply, level, dbId);
        RowRecordsTrans(workspace, old(pageInfo), mid, pageInfo, level, dbId);
        AddRowsAppend(workspace, old(pageInfo), read, reply.rows, level, dbId);
        RowsReadStep(replies, n, read);
        read := read + reply.rows;
        if !reply.hasMore {
          return true;
        }
        n := n + 1;
      }
      assert replies[n..] == [] && read + [] == read;
      return false;
    }

    /**
     * `getChildPages(blockId, level)`: read the listing of `blockId` page
     * by page while `has_more` holds and handle each block; an API error
     * ends the visit, keeping what was recorded.
     */
    method GetChildPages(blockId: string, level: int)
      requires Valid()
      modifies this
      ensures Valid()
      ensures pageInfo == Walk(workspace, recursive, old(pageInfo), blockId, level)
      decreases Unseen(workspace, pageInfo), 3, 0
    {
      if blockId !in workspace.children {
        return;
      }
      var replies := workspace.children[blockId];
      var cursor := 0;
      while cursor < |replies|
        invariant Valid() && Unseen(workspace, pageInfo) <= Unseen(workspace, old(pageInfo))
        invariant Walk(workspace, recursive, old(pageInfo), blockId, level) ==
          WalkFrom(workspace, recursive, pageInfo, blockId, level, cursor).0
      {
        ghost var before := pageInfo;
        var ok := HandleBlocks(blockId, level, cursor);
        UnseenShrinks(workspace, before, pageInfo);
        WalkFromStep(workspace, recursive, before, blockId, level, cursor);
        if !ok || !replies[cursor].hasMore {
          return;
        }
        cursor := cursor + 1;
      }
      WalkFromEnd(workspace, recursive, pageInfo, blockId, level, cursor);
    }

    /** The loop over `response.results`; `ok` is false when a database query failed. */
    method HandleBlocks(blockId: string, level: int, n: nat) returns (ok: bool)
      requires Valid() && blockId in workspace.children && n < |workspace.children[blockId]|
      modifies this
      ensures Valid()
      ensures pageInfo == WalkBlocks(workspace, recursive, old(pageInfo), blockId, level, n, 0).0
      ensures ok == WalkBlocks(workspace, recursive, old(pageInfo), blockId, level, n, 0).1
      decreases Unseen(workspace, pageInfo), 2, 1
    {
      var reply := workspace.children[blockId][n];
      var i := 0;
      while i < |reply.results|
        invariant 0 <= i <= |reply.results|
        invariant Valid() && Unseen(workspace, pageInfo) <= Unseen(workspace, old(pageInfo))
        invariant WalkBlocks(workspace, recursive, old(pageInfo), blockId, level, n, 0) ==
          WalkBlocks(workspace, recursive, pageInfo, blockId, level, n, i)
      {
        var done := HandleAt(blockId, level, n, i);
        if !done {
          return false;
        }
        i := i + 1;
      }
      WalkBlocksEnd(workspace, recursive, pageInfo, blockId, level, n, i);
      return true;
    }

    /** Block `i` of a reply, as one turn of the loop over its blocks: stop after it, or go on. */
    method HandleAt(blockId: string, level: int, n: nat, i: nat) returns (done: bool)
      requires Valid() && blockId in workspace.children && n < |workspace.children[blockId]|
      requires i < |workspace.children[blockId][n].results|
      modifies this
      ensures Valid() && Unseen(workspace, pageInfo) <= Unseen(workspace, old(pageInfo))
      ensures WalkBlocks(workspace, recursive, old(pageInfo), blockId, level, n, i) ==
        if done then WalkBlocks(workspace, recursive, pageInfo, blockId, level, n, i + 1) else (pageInfo, false)
      decreases Unseen(workspace, pageInfo), 2, 0
    {
      WalkBlocksStep(workspace, recursive, pageInfo, blockId, level, n, i);
      done := HandleBlock(blockId, level, workspace.children[blockId][n].results[i]);
      UnseenShrinks(workspace, old(pageInfo), pageInfo);
    }

    /**
     * One block of a listing: a child page not seen before is recorded at
     * `level` under `blockId` and, when recursive, visited one level down; a
     * child database is queried; anything else is skipped.
     */
    method HandleBlock(blockId: string, level: int, block: Block) returns (ok: bool)
      requires Valid() && (block.kind == ChildPage ==> block.id in ChildPageIds(workspace))
      modifies this
      ensures Valid()
      ensures (pageInfo, ok) == WalkBlock(workspace, recursive, old(pageInfo), blockId, level, block)
      ensures !ok ==> block.kind == ChildDatabase
      ensures block.kind == ChildPage && block.id !in old(pageIds) ==>
        |pageInfo| > |old(pageInfo)| && pageInfo[|old(pageInfo)|] == ListedRecord(workspace, block.id, level, blockId)
      ensures block.kind == OtherBlock || (block.kind == ChildPage && block.id in old(pageIds)) ==>
        pageInfo == old(pageInfo)
      decreases Unseen(workspace, pageInfo), 1, 0
    {
      ok := true;
      if block.kind == ChildPage && block.id !in pageIds {
        VisitPage(blockId, level, block.id);
      } else if block.kind == ChildDatabase {
        ok := QueryDatabase(block.id, level);
      }
    }

    /**
     * A child page not seen before: record it at `level` under `blockId` and,
     * when recursive, visit its own children one level down.
     */
    method VisitPage(blockId: string, level: int, id: string)
      requires Valid() && id in ChildPageIds(workspace) && id !in pageIds
      modifies this
      ensures Valid()
      ensures pageInfo == WalkVisit(workspace, recursive, old(pageInfo), blockId, level, id)
      ensures |pageInfo| > |old(pageInfo)| && pageInfo[|old(pageInfo)|] == ListedRecord(workspace, id, level, blockId)
      ensures !recursive ==> pageInfo == old(pageInfo) + [ListedRecord(workspace, id, level, blockId)]
      decreases Unseen(workspace, pageInfo), 0, 0
    {
      WalkVisitIs(workspace, recursive, pageInfo, blockId, level, id);
      Record(ListedRecord(workspace, id, level, blockId));
      VisitShrinks(workspace, old(pageInfo), pageInfo, id);
      if recursive {
        GetChildPages(id, level + 1);
      }
    }

    /**
     * `getAllPageIds`: record the parent page at level 0 without a parent,
     * walk its children from level 1, and report the pages in order.
     */
    method GetAllPageIds(parent: string) returns (r: ScanResult)
      requires pageIds == [] && pageInfo == []
      modifies this
      ensures r.success && r.parentPage == parent && r.recursive == recursive
      ensures r.pages == Scan(workspace, recursive, parent)
      ensures r.totalPages == |r.pageIds| && r.pageIds == Ids(r.pages) && Distinct(r.pageIds)
    {
      Record(ParentRecord(workspace, parent));
      assert pageInfo == [ParentRecord(workspace, parent)];
      GetChildPages(parent, 1);
      r := ScanResult(true, |pageIds|, parent, recursive, pageIds, pageInfo);
    }
  }

  /** The JSON that `getAllPageIds` prints. */
  datatype ScanResult = ScanResult(success: bool, totalPages: nat, parentPage: string, recursive: bool,
                                   pageIds: seq<string>, pages: seq<PageRecord>)

  /** The records from `from` on are database rows of `dbId`, one level below `level`. */
  ghost predicate RowRecords(w: Workspace, info: seq<PageRecord>, from: nat, level: int, dbId: string) {
    from <= |info| &&
    forall i :: from <= i < |info| ==>
      info[i] == PageRecord(info[i].id, PageTitle(w, info[i].id), level + 1, Some(dbId), true) &&
      info[i].id in RowIds(w)
  }

  lemma RowRecordsPush(w: Workspace, info: seq<PageRecord>, r: PageRecord, from: nat, level: int, dbId: string)
    requires RowRecords(w, info, from, level, dbId) && r.id in RowIds(w)
    requires r == PageRecord(r.id, PageTitle(w, r.id), level + 1, Some(dbId), true)
    ensures RowRecords(w, info + [r], from, level, dbId)
  {
    forall i | from <= i < |info| ensures (info + [r])[i] == info[i] { }
  }

  lemma RowRecordsTrans(w: Workspace, a: seq<PageRecord>, b: seq<PageRecord>, c: seq<PageRecord>,
                        level: int, dbId: string)
    requires a <= b <= c
    requires RowRecords(w, b, |a|, level, dbId) && RowRecords(w, c, |b|, level, dbId)
    ensures RowRecords(w, c, |a|, level, dbId)
  {
    forall i | |a| <= i < |b| ensures c[i] == b[i] { }
  }

  lemma {:induction false} AddFreshAppend(seen: seq<string>, a: seq<string>, b: seq<string>)
    ensures AddFresh(AddFresh(seen, a), b) == AddFresh(seen, a + b)
    decreases |b|
  {
    if b == [] {
      assert a + b == a;
    } else {
      var last := b[|b| - 1];
      AddFreshAppend(seen, a, b[..|b| - 1]);
      assert (a + b)[..|a + b| - 1] == a + b[..|b| - 1];
    }
  }

  lemma {:induction false} AddRowsAppend(w: Workspace, info: seq<PageRecord>, a: seq<string>, b: seq<string>,
                                        level: int, dbId: string)
    ensures AddRows(w, AddRows(w, info, a, level, dbId), b, level, dbId) == AddRows(w, info, a + b, level, dbId)
    decreases |b|
  {
    if b == [] {
      assert a + b == a;
    } else {
      AddRowsAppend(w, info, a, b[..|b| - 1], level, dbId);
      assert (a + b)[..|a + b| - 1] == a + b[..|b| - 1];
    }
  }

  /** The ids `AddRows` records are those the Set's `has`/`add` would add. */
  lemma {:induction false} IdsAddRows(w: Workspace, info: seq<PageRecord>, rows: seq<string>, level: int, dbId: string)
    ensures Ids(AddRows(w, info, rows, level, dbId)) == AddFresh(Ids(info), rows)
  {
    if rows != [] {
      var s := AddRows(w, info, rows[..|rows| - 1], level, dbId);
      IdsAddRows(w, info, rows[..|rows| - 1], level, dbId);
      var x := rows[|rows| - 1];
      if x !in Ids(s) {
        assert Ids(s + [RowRecord(w, x, level, dbId)]) == Ids(s) + [x];
      }
    }
  }

  lemma AddRowsAt(w: Workspace, info: seq<PageRecord>, rows: seq<string>, k: nat, level: int, dbId: string)
    requires k < |rows|
    ensures var s := AddRows(w, info, rows[..k], level, dbId);
      AddRows(w, info, rows[..k + 1], level, dbId) ==
        if rows[k] in Ids(s) then s else s + [RowRecord(w, rows[k], level, dbId)]
  {
    assert rows[..k + 1][..k] == rows[..k];
  }

  lemma AddFreshAt(seen: seq<string>, ids: seq<string>, k: nat)
    requires k < |ids|
    ensures AddFresh(seen, ids[..k + 1]) ==
      if ids[k] in AddFresh(seen, ids[..k]) then AddFresh(seen, ids[..k]) else AddFresh(seen, ids[..k]) + [ids[k]]
  {
    assert ids[..k + 1][..k] == ids[..k];
  }

  /** Reading reply `n` moves its rows from what is left to read to what was read. */
  lemma RowsReadStep(ls: seq<RowListing>, n: nat, read: seq<string>)
    requires n < |ls|
    ensures !ls[n].hasMore ==> RowsRead(ls[n..]) == (ls[n].rows, true)
    ensures ls[n].hasMore ==>
      read + RowsRead(ls[n..]).0 == (read + ls[n].rows) + RowsRead(ls[n + 1..]).0 &&
      RowsRead(ls[n..]).1 == RowsRead(ls[n + 1..]).1
  {
    assert ls[n..][1..] == ls[n + 1..];
  }

  /** Adding an unseen id of `u` shrinks the ids of `u` still to be seen. */
  lemma Shrinks(u: set<string>, before: seq<string>, after: seq<string>, id: string)
    requires before <= after && id in u && id in after && id !in before
    ensures |u - Elements(after)| < |u - Elements(before)|
  {
    forall x | x in before ensures x in after {
      var k :| 0 <= k < |before| && before[k] == x;
      assert after[k] == x;
    }
    assert id in u - Elements(before) && id !in u - Elements(after);
    SubsetCard(u - Elements(after), u - Elements(before));
  }

  /** Recording more ids never enlarges the ids still to be seen. */
  lemma NoGrowth(u: set<string>, before: seq<string>, after: seq<string>)
    requires before <= after
    ensures |u - Elements(after)| <= |u - Elements(before)|
  {
    forall x | x in before ensures x in after {
      var k :| 0 <= k < |before| && before[k] == x;
      assert after[k] == x;
    }
    SubsetCard(u - Elements(after), u - Elements(before));
  }

  lemma SubsetCard(a: set<string>, b: set<string>)
    requires a <= b
    ensures |a| <= |b|
    ensures a != b ==> |a| < |b|
  {
    var rest := b - a;
    assert b == a + rest && a * rest == {};
    if a != b {
      var x :| x in b && x !in a;
      assert x in rest;
    }
  }

  /** Prefixes keep the records they hold. */
  lemma GrownTrans(w: Workspace, rec: bool, a: seq<PageRecord>, b: seq<PageRecord>, c: seq<PageRecord>,
                   blockId: string, level: int)
    requires Grown(w, rec, a, b, blockId, level) && Grown(w, rec, b, c, blockId, level)
    ensures Grown(w, rec, a, c, blockId, level)
  {
    forall i | |a| <= i < |c| ensures NewRecordOk(w, rec, c, |a|, i, blockId, level) {
      if i < |b| {
        assert c[i] == b[i];
        assert NewRecordOk(w, rec, b, |a|, i, blockId, level);
        if !b[i].fromDatabase && b[i].parent != Some(blockId) {
          var j :| |a| <= j < i && !b[j].fromDatabase && b[i].parent == Some(b[j].id);
          assert c[j] == b[j];
        }
      } else {
        assert NewRecordOk(w, rec, c, |b|, i, blockId, level);
      }
    }
  }

  /** Recording a page listed directly under `blockId` at `level` keeps `Grown`. */
  lemma PushListed(w: Workspace, rec: bool, a: seq<PageRecord>, b: seq<PageRecord>, c: seq<PageRecord>,
                   blockId: string, level: int)
    requires Grown(w, rec, a, b, blockId, level)
    requires |c| == |b| + 1 && b <= c && c[|b|].parent == Some(blockId) && !c[|b|].fromDatabase
    requires c[|b|].level == level && c[|b|].id in ChildPageIds(w)
    ensures Grown(w, rec, a, c, blockId, level)
  {
    forall i | |a| <= i < |b| ensures NewRecordOk(w, rec, c, |a|, i, blockId, level) {
      assert c[i] == b[i];
      assert NewRecordOk(w, rec, b, |a|, i, blockId, level);
      if !b[i].fromDatabase && b[i].parent != Some(blockId) {
        var j :| |a| <= j < i && !b[j].fromDatabase && b[i].parent == Some(b[j].id);
        assert c[j] == b[j];
      }
    }
  }

  /**
   * The records of a visit one level down, of the page just recorded last
   * in `b`, are records of the current visit.
   */
  lemma DescentLifts(w: Workspace, rec: bool, a: seq<PageRecord>, b: seq<PageRecord>, c: seq<PageRecord>,
                     blockId: string, level: int)
    requires Grown(w, rec, a, b, blockId, level) && |b| > |a| && rec
    requires !b[|b| - 1].fromDatabase && b[|b| - 1].parent == Some(blockId) && b[|b| - 1].level == level
    requires Grown(w, rec, b, c, b[|b| - 1].id, level + 1)
    requires Distinct(Ids(c)) && exists k :: 0 <= k < |a| && c[k].id == blockId
    ensures Grown(w, rec, a, c, blockId, level)
  {
    var page := |b| - 1;
    var k :| 0 <= k < |a| && c[k].id == blockId;
    assert c[page] == b[page];
    assert Ids(c)[k] == blockId && Ids(c)[page] == b[page].id;
    forall i | |a| <= i < |c| ensures NewRecordOk(w, rec, c, |a|, i, blockId, level) {
      if i < |b| {
        assert c[i] == b[i];
        assert NewRecordOk(w, rec, b, |a|, i, blockId, level);
        if !b[i].fromDatabase && b[i].parent != Some(blockId) {
          var j :| |a| <= j < i && !b[j].fromDatabase && b[i].parent == Some(b[j].id);
          assert c[j] == b[j];
        }
      } else {
        assert NewRecordOk(w, rec, c, |b|, i, b[page].id, level + 1);
        if !c[i].fromDatabase {
          if c[i].parent == Some(b[page].id) {
            assert c[i].parent != Some(blockId);
          } else {
            var j :| |b| <= j < i && !c[j].fromDatabase && c[i].parent == Some(c[j].id);
            assert Ids(c)[j] == c[j].id;
            assert c[i].parent != Some(blockId);
          }
        }
      }
    }
  }

  /** The rows a database query records are records of the current visit. */
  lemma RowsLift(w: Workspace, rec: bool, a: seq<PageRecord>, b: seq<PageRecord>, c: seq<PageRecord>,
                 blockId: string, level: int, dbId: string)
    requires Grown(w, rec, a, b, blockId, level) && b <= c && RowRecords(w, c, |b|, level, dbId)
    requires |c| > |b| ==> dbId in w.rows
    ensures Grown(w, rec, a, c, blockId, level)
  {
    forall i | |a| <= i < |c| ensures NewRecordOk(w, rec, c, |a|, i, blockId, level) {
      if i < |b| {
        assert c[i] == b[i];
        assert NewRecordOk(w, rec, b, |a|, i, blockId, level);
        if !b[i].fromDatabase && b[i].parent != Some(blockId) {
          var j :| |a| <= j < i && !b[j].fromDatabase && b[i].parent == Some(b[j].id);
          assert c[j] == b[j];
        }
      }
    }
  }

  // ------------------------------------------------------------ what the walk records

  /**
   * What `getAllPageIds` reports is sound: no page twice; every page after
   * the parent is one that a listing or a query reports, found below the
   * parent; a row names its database as parent; any other page names as
   * parent the parent page or a page recorded before it, and the latter
   * only when recursive.
   */
  lemma ScanSound(w: Workspace, rec: bool, parent: string)
    ensures Distinct(Ids(Scan(w, rec, parent)))
    ensures forall i :: 1 <= i < |Scan(w, rec, parent)| ==>
      var p := Scan(w, rec, parent)[i];
      p.level >= 1 && p.parent.Some? && (p.id in ChildPageIds(w) || p.id in RowIds(w)) &&
      (p.fromDatabase ==> p.parent.value in w.rows) &&
      (!p.fromDatabase && p.parent != Some(parent) ==>
         rec && exists j :: 1 <= j < i && p.parent == Some(Scan(w, rec, parent)[j].id))
    ensures !rec ==> forall i :: 1 <= i < |Scan(w, rec, parent)| && !Scan(w, rec, parent)[i].fromDatabase ==>
      Scan(w, rec, parent)[i].parent == Some(parent) && Scan(w, rec, parent)[i].level == 1
  {
    var first := [ParentRecord(w, parent)];
    assert Ids(first)[0] == parent;
    WalkGrown(w, rec, first, parent, 1);
    var pages := Scan(w, rec, parent);
    forall i | 1 <= i < |pages|
      ensures var p := pages[i];
        p.level >= 1 && p.parent.Some? && (p.id in ChildPageIds(w) || p.id in RowIds(w)) &&
        (p.fromDatabase ==> p.parent.value in w.rows) &&
        (!p.fromDatabase && p.parent != Some(parent) ==> rec && exists j :: 1 <= j < i && p.parent == Some(pages[j].id))
      ensures !rec && !pages[i].fromDatabase ==> pages[i].parent == Some(parent) && pages[i].level == 1
    {
      assert NewRecordOk(w, rec, pages, 1, i, parent, 1);
    }
  }

  /** A walk of a recorded page keeps the ids distinct, and records only what `Grown` allows. */
  lemma WalkGrown(w: Workspace, rec: bool, info: seq<PageRecord>, blockId: string, level: int)
    requires Distinct(Ids(info)) && blockId in Ids(info)
    ensures Distinct(Ids(Walk(w, rec, info, blockId, level)))
    ensures Grown(w, rec, info, Walk(w, rec, info, blockId, level), blockId, level)
    decreases Unseen(w, info), 4, 0
  {
    if blockId in w.children {
      WalkFromGrown(w, rec, info, blockId, level, 0);
    }
  }

  lemma WalkFromGrown(w: Workspace, rec: bool, info: seq<PageRecord>, blockId: string, level: int, n: nat)
    requires blockId in w.children && Distinct(Ids(info)) && blockId in Ids(info)
    ensures Distinct(Ids(WalkFrom(w, rec, info, blockId, level, n).0))
    ensures Grown(w, rec, info, WalkFrom(w, rec, info, blockId, level, n).0, blockId, level)
    decreases Unseen(w, info), 3, |w.children[blockId]| - n
  {
    if n < |w.children[blockId]| {
      WalkFromStep(w, rec, info, blockId, level, n);
      var s := WalkBlocks(w, rec, info, blockId, level, n, 0);
      WalkBlocksGrown(w, rec, info, blockId, level, n, 0);
      if s.1 && w.children[blockId][n].hasMore {
        UnseenShrinks(w, info, s.0);
        InIdsGrow(info, s.0, blockId);
        WalkFromGrown(w, rec, s.0, blockId, level, n + 1);
        GrownTrans(w, rec, info, s.0, WalkFrom(w, rec, s.0, blockId, level, n + 1).0, blockId, level);
      }
    } else {
      WalkFromEnd(w, rec, info, blockId, level, n);
    }
  }

  lemma WalkBlocksGrown(w: Workspace, rec: bool, info: seq<PageRecord>, blockId: string, level: int,
                        n: nat, i: nat)
    requires blockId in w.children && n < |w.children[blockId]|
    requires Distinct(Ids(info)) && blockId in Ids(info)
    ensures Distinct(Ids(WalkBlocks(w, rec, info, blockId, level, n, i).0))
    ensures Grown(w, rec, info, WalkBlocks(w, rec, info, blockId, level, n, i).0, blockId, level)
    decreases Unseen(w, info), 2, |w.children[blockId][n].results| - i
  {
    var reply := w.children[blockId][n];
    if i < |reply.results| {
      WalkBlocksStep(w, rec, info, blockId, level, n, i);
      var s := WalkBlock(w, rec, info, blockId, level, reply.results[i]);
      WalkBlockGrown(w, rec, info, blockId, level, reply.results[i]);
      if s.1 {
        UnseenShrinks(w, info, s.0);
        InIdsGrow(info, s.0, blockId);
        WalkBlocksGrown(w, rec, s.0, blockId, level, n, i + 1);
        GrownTrans(w, rec, info, s.0, WalkBlocks(w, rec, s.0, blockId, level, n, i + 1).0, blockId, level);
      }
    } else {
      WalkBlocksEnd(w, rec, info, blockId, level, n, i);
    }
  }

  lemma WalkBlockGrown(w: Workspace, rec: bool, info: seq<PageRecord>, blockId: string, level: int, b: Block)
    requires b.kind == ChildPage ==> b.id in ChildPageIds(w)
    requires Distinct(Ids(info)) && blockId in Ids(info)
    ensures Distinct(Ids(WalkBlock(w, rec, info, blockId, level, b).0))
    ensures Grown(w, rec, info, WalkBlock(w, rec, info, blockId, level, b).0, blockId, level)
    decreases Unseen(w, info), 1, 0
  {
    if b.kind == ChildPage && b.id !in Ids(info) {
      WalkVisitGrown(w, rec, info, blockId, level, b.id);
    } else if b.kind == ChildDatabase {
      QueryGrown(w, rec, info, blockId, level, b.id);
    }
  }

  lemma WalkVisitGrown(w: Workspace, rec: bool, info: seq<PageRecord>, blockId: string, level: int, id: string)
    requires id in ChildPageIds(w) && id !in Ids(info)
    requires Distinct(Ids(info)) && blockId in Ids(info)
    ensures Distinct(Ids(WalkVisit(w, rec, info, blockId, level, id)))
    ensures Grown(w, rec, info, WalkVisit(w, rec, info, blockId, level, id), blockId, level)
    decreases Unseen(w, info), 0, 0
  {
    WalkVisitIs(w, rec, info, blockId, level, id);
    var next := info + [ListedRecord(w, id, level, blockId)];
    DistinctPush(info, ListedRecord(w, id, level, blockId));
    PushListed(w, rec, info, info, next, blockId, level);
    if rec {
      VisitShrinks(w, info, next, id);
      WalkGrown(w, rec, next, id, level + 1);
      var c := Walk(w, rec, next, id, level + 1);
      IdsWitness(info, c, blockId);
      DescentLifts(w, rec, info, next, c, blockId, level);
    }
  }

  /** Recording an unseen page keeps the ids distinct, and its id is then recorded. */
  lemma DistinctPush(info: seq<PageRecord>, r: PageRecord)
    requires Distinct(Ids(info)) && r.id !in Ids(info)
    ensures Distinct(Ids(info + [r])) && r.id in Ids(info + [r])
  {
    assert Ids(info + [r]) == Ids(info) + [r.id];
  }

  /** A recorded id keeps its record in every extension. */
  lemma IdsWitness(a: seq<PageRecord>, c: seq<PageRecord>, x: string)
    requires a <= c && x in Ids(a)
    ensures exists k :: 0 <= k < |a| && c[k].id == x
  {
    var k :| 0 <= k < |Ids(a)| && Ids(a)[k] == x;
    assert c[k] == a[k];
  }

  /** A database query records rows of the database one level down, and keeps the ids distinct. */
  lemma QueryGrown(w: Workspace, rec: bool, info: seq<PageRecord>, blockId: string, level: int, dbId: string)
    requires Distinct(Ids(info))
    ensures Distinct(Ids(Query(w, info, level, dbId).0))
    ensures Grown(w, rec, info, Query(w, info, level, dbId).0, blockId, level)
  {
    if dbId in w.rows {
      var read := RowsRead(w.rows[dbId]);
      RowsReadIn(w, dbId, w.rows[dbId]);
      AddRowsRecords(w, info, read.0, level, dbId);
      IdsAddRows(w, info, read.0, level, dbId);
      RowsLift(w, rec, info, info, AddRows(w, info, read.0, level, dbId), blockId, level, dbId);
    }
  }

  /** `AddRows` appends only row records of `dbId` one level down. */
  lemma {:induction false} AddRowsRecords(w: Workspace, info: seq<PageRecord>, rows: seq<string>, level: int, dbId: string)
    requires forall x :: x in rows ==> x in RowIds(w)
    ensures RowRecords(w, AddRows(w, info, rows, level, dbId), |info|, level, dbId)
    decreases |rows|
  {
    if rows != [] {
      var pre := rows[..|rows| - 1];
      assert forall x :: x in pre ==> x in rows;
      AddRowsRecords(w, info, pre, level, dbId);
      var s := AddRows(w, info, pre, level, dbId);
      var x := rows[|rows| - 1];
      if x !in Ids(s) {
        RowRecordsPush(w, s, RowRecord(w, x, level, dbId), |info|, level, dbId);
      }
    }
  }

  /** Every row id that the replies read report is a row id of the workspace. */
  lemma {:induction false} RowsReadIn(w: Workspace, dbId: string, ls: seq<RowListing>)
    requires dbId in w.rows && forall l :: l in ls ==> l in w.rows[dbId]
    ensures forall x :: x in RowsRead(ls).0 ==> x in RowIds(w)
    decreases |ls|
  {
    if ls != [] {
      forall x | x in ls[0].rows
        ensures x in RowIds(w)
      {
        RowIdsHas(w, dbId, ls[0], x);
      }
      if ls[0].hasMore {
        assert forall l :: l in ls[1..] ==> l in ls;
        RowsReadIn(w, dbId, ls[1..]);
      }
    }
  }

  lemma InIdsGrow(a: seq<PageRecord>, b: seq<PageRecord>, x: string)
    requires a <= b && x in Ids(a)
    ensures x in Ids(b)
  {
    var k :| 0 <= k < |Ids(a)| && Ids(a)[k] == x;
    assert Ids(b)[k] == b[k].id == a[k].id;
  }

  // ------------------------------------------------------------ what the walk finds

  /** The blocks that the replies of a listing report from reply `n` on, read while `has_more` holds. */
  function ListedFrom(replies: seq<Listing>, n: nat): (r: seq<Block>)
    ensures n < |replies| ==> replies[n].results <= r
    decreases |replies| - n
  {
    if n >= |replies| then []
    else replies[n].results + (if replies[n].hasMore then ListedFrom(replies, n + 1) else [])
  }

  /** The blocks that the full listing of `blockId` reports. */
  function Listed(w: Workspace, blockId: string): seq<Block> {
    if blockId in w.children then ListedFrom(w.children[blockId], 0) else []
  }

  /** Some reply from `n` on says there are no more. */
  predicate EndsFrom(replies: seq<Listing>, n: nat)
    decreases |replies| - n
  {
    n < |replies| && (!replies[n].hasMore || EndsFrom(replies, n + 1))
  }

  /** Every id that some listing reports as a child database. */
  function DatabaseIds(w: Workspace): set<string> {
    set k, r, b | k in w.children && r in w.children[k] && b in r.results && b.kind == ChildDatabase :: b.id
  }

  /**
   * No call of the walk fails: every listing ends, every listed child page
   * can be listed in turn, and every listed database can be queried to its
   * end.
   */
  ghost predicate Healthy(w: Workspace) {
    (forall k :: k in w.children ==> EndsFrom(w.children[k], 0)) &&
    (forall id :: id in ChildPageIds(w) ==> id in w.children) &&
    (forall d :: d in DatabaseIds(w) ==> d in w.rows && RowsRead(w.rows[d]).1)
  }

  /** Block `b` was dealt with: a child page is recorded, and so is every row of a child database. */
  ghost predicate Found(w: Workspace, info: seq<PageRecord>, b: Block) {
    (b.kind == ChildPage ==> b.id in Ids(info)) &&
    (b.kind == ChildDatabase ==> b.id in w.rows && forall x :: x in RowsRead(w.rows[b.id]).0 ==> x in Ids(info))
  }

  /** Every page recorded from `from` on, other than a row, had its own listing dealt with. */
  ghost predicate Closed(w: Workspace, info: seq<PageRecord>, from: nat) {
    forall k :: from <= k < |info| && !info[k].fromDatabase ==>
      forall b :: b in Listed(w, info[k].id) ==> Found(w, info, b)
  }

  /**
   * On a workspace where no call fails, what `getAllPageIds` reports is
   * complete: every child page and every database row that the parent's
   * listing reports is recorded and, when recursive, so is everything
   * listed under every page recorded: the set is closed under listing.
   */
  lemma ScanComplete(w: Workspace, rec: bool, parent: string)
    requires Healthy(w)
    ensures forall b :: b in Listed(w, parent) ==> Found(w, Scan(w, rec, parent), b)
    ensures rec ==> forall k :: 0 <= k < |Scan(w, rec, parent)| && !Scan(w, rec, parent)[k].fromDatabase ==>
      forall b :: b in Listed(w, Scan(w, rec, parent)[k].id) ==> Found(w, Scan(w, rec, parent), b)
  {
    var first := [ParentRecord(w, parent)];
    WalkFinds(w, rec, first, parent, 1);
    if rec {
      WalkCloses(w, first, parent, 1);
      ClosedPush(w, [], ParentRecord(w, parent), Scan(w, rec, parent));
    }
  }

  /** On a healthy workspace the walk of `blockId` ends normally and deals with every block its listing reports. */
  lemma WalkFinds(w: Workspace, rec: bool, info: seq<PageRecord>, blockId: string, level: int)
    requires Healthy(w)
    ensures forall b :: b in Listed(w, blockId) ==> Found(w, Walk(w, rec, info, blockId, level), b)
  {
    if blockId in w.children {
      WalkFromFinds(w, rec, info, blockId, level, 0);
    }
  }

  lemma {:induction false} WalkFromFinds(w: Workspace, rec: bool, info: seq<PageRecord>, blockId: string, level: int,
                                          n: nat)
    requires Healthy(w) && blockId in w.children && EndsFrom(w.children[blockId], n)
    ensures WalkFrom(w, rec, info, blockId, level, n).1
    ensures forall b :: b in ListedFrom(w.children[blockId], n) ==> Found(w, WalkFrom(w, rec, info, blockId, level, n).0, b)
    decreases |w.children[blockId]| - n
  {
    var replies := w.children[blockId];
    WalkFromStep(w, rec, info, blockId, level, n);
    var s := WalkBlocks(w, rec, info, blockId, level, n, 0);
    WalkBlocksFinds(w, rec, info, blockId, level, n, 0);
    var r := WalkFrom(w, rec, info, blockId, level, n).0;
    forall b | b in replies[n].results
      ensures Found(w, r, b)
    {
      var j :| 0 <= j < |replies[n].results| && replies[n].results[j] == b;
      FoundGrow(w, s.0, r, b);
    }
    if replies[n].hasMore {
      WalkFromFinds(w, rec, s.0, blockId, level, n + 1);
    }
  }

  lemma {:induction false} WalkBlocksFinds(w: Workspace, rec: bool, info: seq<PageRecord>, blockId: string, level: int,
                                            n: nat, i: nat)
    requires Healthy(w) && blockId in w.children && n < |w.children[blockId]|
    ensures WalkBlocks(w, rec, info, blockId, level, n, i).1
    ensures forall j :: i <= j < |w.children[blockId][n].results| ==>
      Found(w, WalkBlocks(w, rec, info, blockId, level, n, i).0, w.children[blockId][n].results[j])
    decreases |w.children[blockId][n].results| - i
  {
    var reply := w.children[blockId][n];
    if i < |reply.results| {
      WalkBlocksStep(w, rec, info, blockId, level, n, i);
      var b := reply.results[i];
      ListedDatabase(w, blockId, n, i);
      var s := WalkBlock(w, rec, info, blockId, level, b);
      WalkBlockFinds(w, rec, info, blockId, level, b);
      WalkBlocksFinds(w, rec, s.0, blockId, level, n, i + 1);
      var r := WalkBlocks(w, rec, s.0, blockId, level, n, i + 1).0;
      FoundGrow(w, s.0, r, b);
    } else {
      WalkBlocksEnd(w, rec, info, blockId, level, n, i);
    }
  }

  lemma WalkBlockFinds(w: Workspace, rec: bool, info: seq<PageRecord>, blockId: string, level: int, b: Block)
    requires Healthy(w)
    requires b.kind == ChildPage ==> b.id in ChildPageIds(w)
    requires b.kind == ChildDatabase ==> b.id in DatabaseIds(w)
    ensures WalkBlock(w, rec, info, blockId, level, b).1
    ensures Found(w, WalkBlock(w, rec, info, blockId, level, b).0, b)
  {
    if b.kind == ChildPage && b.id !in Ids(info) {
      WalkVisitIs(w, rec, info, blockId, level, b.id);
      var r := WalkVisit(w, rec, info, blockId, level, b.id);
      assert Ids(r)[|info|] == b.id;
    } else if b.kind == ChildDatabase {
      QueryComplete(w, info, level, b.id);
    }
  }

  /** On a healthy workspace a recursive walk deals with the listing of every page it records. */
  lemma WalkCloses(w: Workspace, info: seq<PageRecord>, blockId: string, level: int)
    requires Healthy(w)
    ensures Closed(w, Walk(w, true, info, blockId, level), |info|)
    decreases Unseen(w, info), 4, 0
  {
    if blockId in w.children {
      WalkFromCloses(w, info, blockId, level, 0);
    }
  }

  lemma WalkFromCloses(w: Workspace, info: seq<PageRecord>, blockId: string, level: int, n: nat)
    requires Healthy(w) && blockId in w.children
    ensures Closed(w, WalkFrom(w, true, info, blockId, level, n).0, |info|)
    decreases Unseen(w, info), 3, |w.children[blockId]| - n
  {
    if n < |w.children[blockId]| {
      WalkFromStep(w, true, info, blockId, level, n);
      var s := WalkBlocks(w, true, info, blockId, level, n, 0);
      WalkBlocksCloses(w, info, blockId, level, n, 0);
      if s.1 && w.children[blockId][n].hasMore {
        UnseenShrinks(w, info, s.0);
        WalkFromCloses(w, s.0, blockId, level, n + 1);
        ClosedTrans(w, info, s.0, WalkFrom(w, true, s.0, blockId, level, n + 1).0);
      }
    } else {
      WalkFromEnd(w, true, info, blockId, level, n);
    }
  }

  lemma WalkBlocksCloses(w: Workspace, info: seq<PageRecord>, blockId: string, level: int, n: nat, i: nat)
    requires Healthy(w) && blockId in w.children && n < |w.children[blockId]|
    ensures Closed(w, WalkBlocks(w, true, info, blockId, level, n, i).0, |info|)
    decreases Unseen(w, info), 2, |w.children[blockId][n].results| - i
  {
    var reply := w.children[blockId][n];
    if i < |reply.results| {
      WalkBlocksStep(w, true, info, blockId, level, n, i);
      var s := WalkBlock(w, true, info, blockId, level, reply.results[i]);
      WalkBlockCloses(w, info, blockId, level, reply.results[i]);
      if s.1 {
        UnseenShrinks(w, info, s.0);
        WalkBlocksCloses(w, s.0, blockId, level, n, i + 1);
        ClosedTrans(w, info, s.0, WalkBlocks(w, true, s.0, blockId, level, n, i + 1).0);
      }
    } else {
      WalkBlocksEnd(w, true, info, blockId, level, n, i);
    }
  }

  lemma WalkBlockCloses(w: Workspace, info: seq<PageRecord>, blockId: string, level: int, b: Block)
    requires Healthy(w) && (b.kind == ChildPage ==> b.id in ChildPageIds(w))
    ensures Closed(w, WalkBlock(w, true, info, blockId, level, b).0, |info|)
    decreases Unseen(w, info), 1, 0
  {
    if b.kind == ChildPage && b.id !in Ids(info) {
      WalkVisitCloses(w, info, blockId, level, b.id);
    } else if b.kind == ChildDatabase && b.id in w.rows {
      var read := RowsRead(w.rows[b.id]);
      RowsReadIn(w, b.id, w.rows[b.id]);
      AddRowsRecords(w, info, read.0, level, b.id);
    }
  }

  lemma WalkVisitCloses(w: Workspace, info: seq<PageRecord>, blockId: string, level: int, id: string)
    requires Healthy(w) && id in ChildPageIds(w) && id !in Ids(info)
    ensures Closed(w, WalkVisit(w, true, info, blockId, level, id), |info|)
    decreases Unseen(w, info), 0, 0
  {
    WalkVisitIs(w, true, info, blockId, level, id);
    var r := ListedRecord(w, id, level, blockId);
    var next := info + [r];
    VisitShrinks(w, info, next, id);
    WalkFinds(w, true, next, id, level + 1);
    WalkCloses(w, next, id, level + 1);
    ClosedPush(w, info, r, Walk(w, true, next, id, level + 1));
  }

  /** On a healthy workspace a query of a listed database ends normally and records all its rows, as rows. */
  lemma QueryComplete(w: Workspace, info: seq<PageRecord>, level: int, dbId: string)
    requires Healthy(w) && dbId in DatabaseIds(w)
    ensures Query(w, info, level, dbId).1
    ensures Found(w, Query(w, info, level, dbId).0, Block(ChildDatabase, dbId))
    ensures Closed(w, Query(w, info, level, dbId).0, |info|)
  {
    var read := RowsRead(w.rows[dbId]);
    RowsReadIn(w, dbId, w.rows[dbId]);
    AddRowsRecords(w, info, read.0, level, dbId);
    IdsAddRows(w, info, read.0, level, dbId);
  }

  /** A child database listed in reply `n` of `blockId` is one of the workspace's databases. */
  lemma ListedDatabase(w: Workspace, blockId: string, n: nat, i: nat)
    requires blockId in w.children && n < |w.children[blockId]| && i < |w.children[blockId][n].results|
    ensures var b := w.children[blockId][n].results[i]; b.kind == ChildDatabase ==> b.id in DatabaseIds(w)
  {
    var r := w.children[blockId][n];
    assert r in w.children[blockId] && r.results[i] in r.results;
  }

  /** A page whose listing was dealt with after recording it joins the closed records. */
  lemma ClosedPush(w: Workspace, info: seq<PageRecord>, r: PageRecord, c: seq<PageRecord>)
    requires info + [r] <= c && !r.fromDatabase && Closed(w, c, |info| + 1)
    requires forall b :: b in Listed(w, r.id) ==> Found(w, c, b)
    ensures Closed(w, c, |info|)
  {
    assert c[|info|] == (info + [r])[|info|] == r;
  }

  /** What was found stays found as records are added. */
  lemma FoundGrow(w: Workspace, a: seq<PageRecord>, c: seq<PageRecord>, b: Block)
    requires a <= c && Found(w, a, b)
    ensures Found(w, c, b)
  {
    IdsPrefix(a, c);
  }

  lemma ClosedTrans(w: Workspace, a: seq<PageRecord>, b: seq<PageRecord>, c: seq<PageRecord>)
    requires a <= b <= c && Closed(w, b, |a|) && Closed(w, c, |b|)
    ensures Closed(w, c, |a|)
  {
    forall k, x | |a| <= k < |b| && !c[k].fromDatabase && x in Listed(w, c[k].id)
      ensures Found(w, c, x)
    {
      assert c[k] == b[k];
      FoundGrow(w, b, c, x);
    }
  }

  // ------------------------------------------------------------ the walk's measure

  /** One reply of the do-while loop: stop after it, or go on from the next. */
  lemma WalkFromStep(w: Workspace, rec: bool, info: seq<PageRecord>, blockId: string, level: int, n: nat)
    requires blockId in w.children && n < |w.children[blockId]|
    ensures var s := WalkBlocks(w, rec, info, blockId, level, n, 0);
      WalkFrom(w, rec, info, blockId, level, n) ==
        if !s.1 || !w.children[blockId][n].hasMore then s else WalkFrom(w, rec, s.0, blockId, level, n + 1)
  {
  }

  /** A visit records the page, then, when recursive, walks its children one level down. */
  lemma WalkVisitIs(w: Workspace, rec: bool, info: seq<PageRecord>, blockId: string, level: int, id: string)
    requires id in ChildPageIds(w) && id !in Ids(info)
    ensures var next := info + [ListedRecord(w, id, level, blockId)];
      WalkVisit(w, rec, info, blockId, level, id) == if rec then Walk(w, rec, next, id, level + 1) else next
    ensures |WalkVisit(w, rec, info, blockId, level, id)| > |info|
    ensures WalkVisit(w, rec, info, blockId, level, id)[|info|] == ListedRecord(w, id, level, blockId)
  {
    var next := info + [ListedRecord(w, id, level, blockId)];
    assert next[|info|] == ListedRecord(w, id, level, blockId);
  }

  /** Past the last reply the loop stops, reporting a failed call. */
  lemma WalkFromEnd(w: Workspace, rec: bool, info: seq<PageRecord>, blockId: string, level: int, n: nat)
    requires blockId in w.children && n >= |w.children[blockId]|
    ensures WalkFrom(w, rec, info, blockId, level, n) == (info, false)
  {
  }

  /** Past the last block of a reply the loop ends normally. */
  lemma WalkBlocksEnd(w: Workspace, rec: bool, info: seq<PageRecord>, blockId: string, level: int,
                      n: nat, i: nat)
    requires blockId in w.children && n < |w.children[blockId]| && i >= |w.children[blockId][n].results|
    ensures WalkBlocks(w, rec, info, blockId, level, n, i) == (info, true)
  {
  }

  /** One block of the loop over a reply: stop after it, or go on from the next. */
  lemma WalkBlocksStep(w: Workspace, rec: bool, info: seq<PageRecord>, blockId: string, level: int,
                       n: nat, i: nat)
    requires blockId in w.children && n < |w.children[blockId]| && i < |w.children[blockId][n].results|
    ensures var b := w.children[blockId][n].results[i]; b.kind == ChildPage ==> b.id in ChildPageIds(w)
    ensures var s := WalkBlock(w, rec, info, blockId, level, w.children[blockId][n].results[i]);
      WalkBlocks(w, rec, info, blockId, level, n, i) ==
        if !s.1 then s else WalkBlocks(w, rec, s.0, blockId, level, n, i + 1)
  {
  }

  lemma IdsPrefix(a: seq<PageRecord>, b: seq<PageRecord>)
    requires a <= b
    ensures Ids(a) <= Ids(b)
  {
    assert Ids(b)[..|a|] == Ids(a);
  }

  /** Records only grow, so no listed page becomes unseen again. */
  lemma UnseenShrinks(w: Workspace, a: seq<PageRecord>, b: seq<PageRecord>)
    requires a <= b
    ensures Unseen(w, b) <= Unseen(w, a)
  {
    IdsPrefix(a, b);
    NoGrowth(ChildPageIds(w), Ids(a), Ids(b));
  }

  /** Recording an unseen listed page leaves fewer unseen. */
  lemma VisitShrinks(w: Workspace, info: seq<PageRecord>, next: seq<PageRecord>, id: string)
    requires id in ChildPageIds(w) && id !in Ids(info)
    requires |next| == |info| + 1 && info <= next && next[|info|].id == id
    ensures Unseen(w, next) < Unseen(w, info)
  {
    IdsPrefix(info, next);
    assert Ids(next)[|info|] == id;
    Shrinks(ChildPageIds(w), Ids(info), Ids(next), id);
  }
}
