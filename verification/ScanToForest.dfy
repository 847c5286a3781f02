/**
 * What happens to the scan of get_page_ids.js once
 * export_notion_hierarchical.py builds its forest from it.
 *
 * A database row is recorded with the database's id as its parent. A Notion
 * database is not a page: no listing reports its id as a child page and no
 * query returns it as a row. So no scanned record carries that id, and
 * `build_hierarchy` puts the row neither among the roots nor under any page.
 */
module ScanToForest {

  import opened Common
  import opened PageScanner
  import opened HierarchicalExport

  /** No id that the walk can record is the id of a database. */
  predicate DatabasesAreNotPages(w: Workspace) {
    (forall id :: id in ChildPageIds(w) ==> id !in w.rows) &&
    (forall id :: id in RowIds(w) ==> id !in w.rows)
  }

  /**
   * Under the facts `Scanner.GetAllPageIds` guarantees about its pages, every
   * database row of the scan is lost by `build_hierarchy`.
   */
  lemma DatabaseRowsDropped(w: Workspace, parent: string, pages: seq<PageRecord>, j: nat)
    requires DatabasesAreNotPages(w) && parent !in w.rows
    requires |pages| >= 1 && pages[0].id == parent
    requires forall i :: 1 <= i < |pages| ==>
      pages[i].parent.Some? &&
      (pages[i].id in ChildPageIds(w) || pages[i].id in RowIds(w)) &&
      (pages[i].fromDatabase ==> pages[i].parent.value in w.rows)
    requires 1 <= j < |pages| && pages[j].fromDatabase
    ensures forall i :: 0 <= i < |pages| ==> j !in Attached(pages, i)
    ensures forall id :: id in RootsUpTo(pages, |pages|) ==> RootsUpTo(pages, |pages|)[id] != j
  {
    var db := pages[j].parent.value;
    forall i | 0 <= i < |pages| ensures pages[i].id != db {
    }
    OrphanVanishes(pages, j, db);
  }
}
