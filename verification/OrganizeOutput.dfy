/**
 * The output re-organiser (organize_output.py): the pages named in a fixed
 * section → database → page table are copied out of `output/` into
 * `output_organized/<section>/<database>/<page>`, then every top-level item
 * of `output/` is copied to `output_organized/<name>` unless that already
 * exists.
 *
 * The filesystem is the set of paths present under the working directory;
 * the run is the list of directory creations and copies it performs.
 */
module OrganizeOutput {
  import opened Paths

  const Organized := "output_organized"
  const Root: Path := [Organized]

  /** An entry of `output/`: its name and whether it is a directory. */
  datatype Item = Item(name: string, isDir: bool)

  /** A directory listing: each name once. */
  predicate Listing(items: seq<Item>) {
    forall i, j :: 0 <= i < j < |items| ==> items[i].name != items[j].name
  }

  /** One database of a section: its key (`.` for the section itself) and its page names. */
  type Databases = seq<(string, seq<string>)>
  type Structure = seq<(string, Databases)>

  /** The table the script is run with (`STRUCTURE`). */
  const Layout: Structure := [
    ("Databases", [
      ("1. Activity Log (80+ Required)", [
        "Abruptly Cancelled", "Convert UKB PDFs to MD and JSON", "Convert UKB PDF to MD",
        "Convert UKB PDF to MD error 2", "Download More PDFs", "Download PDFs",
        "Extract DOI Numbers", "Final PDF Collection", "Project Notebook Discussion",
        "normalisation", "Run convert_pdfspy", "Template"]),
      ("2. Supervisor Meetings (10+ Required)", [
        "Introduction and Research Proposal Discussion", "RAG Discussion",
        "Refocus Research Question", "Hypothsis Validation Options"]),
      ("3. Experiments & Validation (8+ Required)", [
        "Benchmark Embedding Models for Phenotype Similarity", "test"]),
      ("4. Literature Review (30+ Papers)", [
        "Contextual Word Embedding for Biomedical Knowledge Extraction",
        "Retrieval-Augmented Generation for Knowledge-Intensive NLP Tasks",
        "Survey of Vector Database Management Systems", "UK Biobank An Open Access Resource",
        "The Monarch Initiative Integrative Data Platform"]),
      ("5. Issues & Debugging (15+ Required)", [
        "Error", "Metadata Correction", "Metadata Correction Continued",
        "Threadripper  AMD Trouble", "Threadripper RAM Trouble Continued",
        "UKB Source Metadata Infected"]),
      ("6. Weekly Summaries (12+ Required)", ["Week 1 - Project Setup"]),
      ("7. Code Implementations (10+ Required)", [
        "FAISS", "LangChain", "LlamaIndex", "Milvus", "PyTorch", "Transformers", "Weaviate",
        "RAG Pipeline Core"]),
      ("8. System Architecture & Infrastructure", [
        "Docker Extension", "Python Runtime", "RooCode Extension", "Ubuntu Desktop", "VS Code",
        "Workstation 1 - Development", "Workstation 2 - Testing", "GPU - Workstation 1"]),
      ("9. Prompts & Templates", [
        "Synonym Generation Prompt for UK Biobank Fields", "Synonym Generator Evaluation"])]),
    ("Research Pages", [
      (".", ["Project Overview", "Research Methods", "Pipeline Architecture"]),
      ("Journals", [
        "Understanding MD Feature Extraction Journals",
        "Field-Weighted XML Retrieval Based on BM25"])]),
    ("Progress Tracking", [(".", [])])]

  function SectionNames(structure: Structure): set<string> {
    set i | 0 <= i < |structure| :: structure[i].0
  }

  /** A step of the run: `mkdir(exist_ok=True)`, `copytree` of a directory, `copy2` of a file. */
  datatype Action =
    | MakeDir(path: Path)
    | CopyTree(source: string, path: Path)
    | CopyFile(source: string, path: Path)

  /** The paths a run creates. */
  function Targets(actions: seq<Action>): set<Path> {
    set i | 0 <= i < |actions| :: actions[i].path
  }

  lemma TargetsAppend(a: seq<Action>, b: seq<Action>)
    ensures Targets(a + b) == Targets(a) + Targets(b)
  {
    forall p | p in Targets(a) ensures p in Targets(a + b) {
      var i :| 0 <= i < |a| && a[i].path == p;
      assert (a + b)[i].path == p;
    }
    forall p | p in Targets(a + b) ensures p in Targets(a) + Targets(b) {
      var i :| 0 <= i < |a + b| && (a + b)[i].path == p;
      if i >= |a| { assert b[i - |a|].path == p; }
    }
    forall p | p in Targets(b) ensures p in Targets(a + b) {
      var i :| 0 <= i < |b| && b[i].path == p;
      assert (a + b)[|a| + i].path == p;
    }
  }

  /** Some directory of the listing has exactly this name. */
  predicate DirNamed(items: seq<Item>, name: string) {
    exists i :: 0 <= i < |items| && items[i].isDir && items[i].name == name
  }

  /** Where a database's pages go: the section itself for `.`, else `section/db`. */
  function DbPath(section: string, db: string): (p: Path)
    ensures db == "." ==> p == Root + [section]
    ensures db != "." ==> p == Root + [section, db]
  {
    var main := Root + [section];
    if db == "." then main else main + [db]
  }

  // ------------------------------------------------------------ first pass

  /** The copies of one database: each listed page found as a directory of `output/`. */
  function PagesPlan(pages: seq<string>, items: seq<Item>, dbPath: Path): (r: seq<Action>)
    ensures |r| <= |pages|
    ensures forall a :: a in r ==>
      a.CopyTree? && a.source in pages && DirNamed(items, a.source) && a.path == dbPath + [a.source]
  {
    if pages == [] then []
    else
      var page := pages[|pages| - 1];
      PagesPlan(pages[..|pages| - 1], items, dbPath)
        + (if DirNamed(items, page) then [CopyTree(page, dbPath + [page])] else [])
  }

  function DatabasePlan(section: string, db: string, pages: seq<string>, items: seq<Item>): seq<Action> {
    (if db == "." then [] else [MakeDir(DbPath(section, db))]) + PagesPlan(pages, items, DbPath(section, db))
  }

  function DatabasesPlan(section: string, dbs: Databases, items: seq<Item>): seq<Action> {
    if dbs == [] then []
    else
      var db := dbs[|dbs| - 1];
      DatabasesPlan(section, dbs[..|dbs| - 1], items) + DatabasePlan(section, db.0, db.1, items)
  }

  /** One section: its directory, then its databases. */
  function SectionPlan(section: string, dbs: Databases, items: seq<Item>): seq<Action> {
    [MakeDir(Root + [section])] + DatabasesPlan(section, dbs, items)
  }

  function SectionsPlan(structure: Structure, items: seq<Item>): seq<Action> {
    if structure == [] then []
    else
      var s := structure[|structure| - 1];
      SectionsPlan(structure[..|structure| - 1], items) + SectionPlan(s.0, s.1, items)
  }

  // ------------------------------------------------------------ second pass

  /** The copy of a top-level item to `output_organized/<name>`. */
  function TopCopy(item: Item): (a: Action)
    ensures a.path == Root + [item.name]
  {
    if item.isDir then CopyTree(item.name, Root + [item.name])
    else CopyFile(item.name, Root + [item.name])
  }

  /** The uncategorised pass over `items`, with `present` the paths that exist when it starts. */
  function Uncategorised(items: seq<Item>, present: set<Path>): (r: seq<Action>)
    ensures forall a :: a in r ==> exists i :: 0 <= i < |items| && a == TopCopy(items[i])
  {
    if items == [] then []
    else
      var item := items[0];
      var rest := Uncategorised(items[1..], present + {Root + [item.name]});
      var skip := Uncategorised(items[1..], present);
      assert forall a :: a in rest ==> exists i :: 0 <= i < |items| && a == TopCopy(items[i]) by {
        forall a | a in rest ensures exists i :: 0 <= i < |items| && a == TopCopy(items[i]) {
          var j :| 0 <= j < |items[1..]| && a == TopCopy(items[1..][j]);
          assert a == TopCopy(items[j + 1]);
        }
      }
      assert forall a :: a in skip ==> exists i :: 0 <= i < |items| && a == TopCopy(items[i]) by {
        forall a | a in skip ensures exists i :: 0 <= i < |items| && a == TopCopy(items[i]) {
          var j :| 0 <= j < |items[1..]| && a == TopCopy(items[1..][j]);
          assert a == TopCopy(items[j + 1]);
        }
      }
      if item.name != Organized && Root + [item.name] !in present then [TopCopy(item)] + rest
      else skip
  }

  /** The whole run: nothing without `output/`; otherwise both passes. */
  function Plan(outputExists: bool, structure: Structure, items: seq<Item>, existing: set<Path>): seq<Action> {
    if !outputExists then []
    else
      var first := [MakeDir(Root)] + SectionsPlan(structure, items);
      first + Uncategorised(items, existing + Targets(first))
  }

  // ------------------------------------------------------------ properties

  /** A listed page is copied, to `db_path/<page>`, exactly when `output/` has a directory of that name. */
  lemma {:induction false} PagesCopied(pages: seq<string>, items: seq<Item>, dbPath: Path, page: string)
    ensures CopyTree(page, dbPath + [page]) in PagesPlan(pages, items, dbPath) <==>
      page in pages && DirNamed(items, page)
  {
    if pages != [] {
      var init, last := pages[..|pages| - 1], pages[|pages| - 1];
      PagesCopied(init, items, dbPath, page);
      assert pages == init + [last];
      assert page in pages <==> page in init || page == last;
    }
  }

  /** In a listing, different names give different top-level copies. */
  lemma TopCopyDistinct(items: seq<Item>, i: nat, j: nat)
    requires Listing(items) && i < |items| && j < |items| && i != j
    ensures TopCopy(items[i]) != TopCopy(items[j])
    ensures Root + [items[i].name] != Root + [items[j].name]
  {
    assert (Root + [items[i].name])[1] == items[i].name;
    assert (Root + [items[j].name])[1] == items[j].name;
  }

  /**
   * The uncategorised pass copies an item exactly when it is not
   * `output_organized` and its destination did not exist when the pass began.
   */
  lemma {:induction false} UncategorisedCopies(items: seq<Item>, present: set<Path>, i: nat)
    requires Listing(items) && i < |items|
    ensures TopCopy(items[i]) in Uncategorised(items, present) <==>
      items[i].name != Organized && Root + [items[i].name] !in present
  {
    var head, tail := items[0], items[1..];
    var headDest := Root + [head.name];
    var copied := head.name != Organized && headDest !in present;
    var next := if copied then present + {headDest} else present;
    assert Listing(tail) by {
      forall a, b | 0 <= a < b < |tail| ensures tail[a].name != tail[b].name {
        assert tail[a] == items[a + 1] && tail[b] == items[b + 1];
      }
    }
    var rest := Uncategorised(tail, next);
    assert Uncategorised(items, present) == (if copied then [TopCopy(head)] + rest else rest);
    if i == 0 {
      if TopCopy(head) in rest {
        var j :| 0 <= j < |tail| && TopCopy(head) == TopCopy(tail[j]);
        TopCopyDistinct(items, 0, j + 1);
      }
    } else {
      assert items[i] == tail[i - 1];
      UncategorisedCopies(tail, next, i - 1);
      TopCopyDistinct(items, 0, i);
    }
  }

  /** Everything a database creates lies under its section; its copies lie deeper. */
  lemma {:induction false} DatabasesPaths(section: string, dbs: Databases, items: seq<Item>)
    ensures forall a :: a in DatabasesPlan(section, dbs, items) ==>
      Root + [section] <= a.path && (!a.MakeDir? ==> |a.path| >= 3)
  {
    if dbs != [] {
      var db := dbs[|dbs| - 1];
      DatabasesPaths(section, dbs[..|dbs| - 1], items);
      DatabasePaths(section, db.0, db.1, items);
    }
  }

  /** Everything one database creates lies under its section; its copies lie deeper. */
  lemma DatabasePaths(section: string, db: string, pages: seq<string>, items: seq<Item>)
    ensures forall a :: a in DatabasePlan(section, db, pages, items) ==>
      Root + [section] <= a.path && (!a.MakeDir? ==> |a.path| >= 3)
  {
    var main, dbPath := Root + [section], DbPath(section, db);
    assert main <= dbPath && |main| == 2;
    var made: seq<Action> := if db == "." then [] else [MakeDir(dbPath)];
    var copies := PagesPlan(pages, items, dbPath);
    assert DatabasePlan(section, db, pages, items) == made + copies;
    forall a | a in made + copies
      ensures main <= a.path && (!a.MakeDir? ==> |a.path| >= 3)
    {
      if a in copies {
        assert a.path == dbPath + [a.source];
      }
    }
  }

  /** Everything the first pass creates lies under one of the sections; its copies lie deeper. */
  lemma {:induction false} SectionsPaths(structure: Structure, items: seq<Item>)
    ensures forall a :: a in SectionsPlan(structure, items) ==>
      (exists k :: 0 <= k < |structure| && Root + [structure[k].0] <= a.path)
      && (!a.MakeDir? ==> |a.path| >= 3)
  {
    if structure != [] {
      var n := |structure| - 1;
      var init := structure[..n];
      SectionsPaths(init, items);
      DatabasesPaths(structure[n].0, structure[n].1, items);
      forall a | a in SectionsPlan(init, items)
        ensures exists k :: 0 <= k < |structure| && Root + [structure[k].0] <= a.path
      {
        var k :| 0 <= k < |init| && Root + [init[k].0] <= a.path;
        assert init[k] == structure[k];
      }
    }
  }

  /** Every section gets its directory. */
  lemma {:induction false} SectionsMade(structure: Structure, items: seq<Item>, k: nat)
    requires k < |structure|
    ensures MakeDir(Root + [structure[k].0]) in SectionsPlan(structure, items)
  {
    if k < |structure| - 1 {
      SectionsMade(structure[..|structure| - 1], items, k);
      EarlierSectionMade(structure, items, k);
    } else {
      LastSectionMade(structure, items);
    }
  }

  lemma LastSectionMade(structure: Structure, items: seq<Item>)
    requires structure != []
    ensures MakeDir(Root + [structure[|structure| - 1].0]) in SectionsPlan(structure, items)
  {
    var last := structure[|structure| - 1];
    var before := SectionsPlan(structure[..|structure| - 1], items);
    assert (before + SectionPlan(last.0, last.1, items))[|before|] == MakeDir(Root + [last.0]);
  }

  lemma EarlierSectionMade(structure: Structure, items: seq<Item>, k: nat)
    requires k < |structure| - 1
    requires MakeDir(Root + [structure[..|structure| - 1][k].0]) in SectionsPlan(structure[..|structure| - 1], items)
    ensures MakeDir(Root + [structure[k].0]) in SectionsPlan(structure, items)
  {
    assert structure[..|structure| - 1][k] == structure[k];
  }

  /** The first pass creates `output_organized/<name>` exactly for the sections. */
  lemma FirstPassTop(structure: Structure, items: seq<Item>, name: string)
    ensures Root + [name] in Targets([MakeDir(Root)] + SectionsPlan(structure, items))
      <==> name in SectionNames(structure)
  {
    var first := [MakeDir(Root)] + SectionsPlan(structure, items);
    if name in SectionNames(structure) {
      SectionMadeTop(structure, items, name);
    }
    if Root + [name] in Targets(first) {
      TopIsSection(structure, items, name);
    }
  }

  lemma SectionMadeTop(structure: Structure, items: seq<Item>, name: string)
    requires name in SectionNames(structure)
    ensures Root + [name] in Targets([MakeDir(Root)] + SectionsPlan(structure, items))
  {
    var first := [MakeDir(Root)] + SectionsPlan(structure, items);
    var k :| 0 <= k < |structure| && structure[k].0 == name;
    SectionsMade(structure, items, k);
    var j :| 0 <= j < |SectionsPlan(structure, items)| && SectionsPlan(structure, items)[j] == MakeDir(Root + [name]);
    assert first[j + 1].path == Root + [name];
  }

  lemma TopIsSection(structure: Structure, items: seq<Item>, name: string)
    requires Root + [name] in Targets([MakeDir(Root)] + SectionsPlan(structure, items))
    ensures name in SectionNames(structure)
  {
    var sp := SectionsPlan(structure, items);
    var first := [MakeDir(Root)] + sp;
    var j :| 0 <= j < |first| && first[j].path == Root + [name];
    assert first[0].path == Root;
    var a := sp[j - 1];
    assert first[j] == a;
    SectionsPaths(structure, items);
    var k :| 0 <= k < |structure| && Root + [structure[k].0] <= a.path;
    var q := Root + [structure[k].0];
    assert q[1] == structure[k].0 && |q| == 2;
    assert a.path[1] == name;
    assert q[1] == a.path[1];
    assert structure[k].0 in SectionNames(structure);
  }

  /**
   * The uncategorised pass copies an item to `output_organized/<name>`
   * exactly when the name is not `output_organized`, not a section (whose
   * directory the first pass created) and not already there. A page the
   * first pass copied into its database is thus copied a second time.
   */
  lemma TopLevelCopy(structure: Structure, items: seq<Item>, existing: set<Path>, i: nat)
    requires Listing(items) && i < |items|
    ensures TopCopy(items[i]) in Plan(true, structure, items, existing) <==>
      items[i].name != Organized && items[i].name !in SectionNames(structure)
      && Root + [items[i].name] !in existing
  {
    var name := items[i].name;
    var dest := Root + [name];
    var first := [MakeDir(Root)] + SectionsPlan(structure, items);
    SectionsPaths(structure, items);
    assert dest == [Organized, name];
    assert TopCopy(items[i]) !in first;
    FirstPassTop(structure, items, name);
    UncategorisedCopies(items, existing + Targets(first), i);
  }

  // ------------------------------------------------------------ the script

  /** The search of `output/` for a directory with the page's name, stopping at the first. */
  method FindDir(items: seq<Item>, name: string) returns (found: bool)
    ensures found <==> DirNamed(items, name)
  {
    found := false;
    for k := 0 to |items|
      invariant !found
      invariant forall i :: 0 <= i < k ==> !(items[i].isDir && items[i].name == name)
    {
      if items[k].isDir && items[k].name == name {
        found := true;
        break;
      }
    }
  }

  /** The copies of one database's pages; a found directory always exists, so it is copied. */
  method CopyPages(pages: seq<string>, items: seq<Item>, dbPath: Path) returns (actions: seq<Action>)
    ensures actions == PagesPlan(pages, items, dbPath)
  {
    actions := [];
    for k := 0 to |pages|
      invariant actions == PagesPlan(pages[..k], items, dbPath)
    {
      var found := FindDir(items, pages[k]);
      if found {
        actions := actions + [CopyTree(pages[k], dbPath + [pages[k]])];
      }
      assert pages[..k + 1][..k] == pages[..k];
    }
    assert pages[..|pages|] == pages;
  }

  /** One section: its directory, then each database's directory and copies. */
  method PlanSection(section: string, dbs: Databases, items: seq<Item>) returns (actions: seq<Action>)
    ensures actions == SectionPlan(section, dbs, items)
  {
    var mainPath := Root + [section];
    var databases := [];
    for j := 0 to |dbs|
      invariant databases == DatabasesPlan(section, dbs[..j], items)
    {
      var database := PlanDatabase(section, dbs[j].0, dbs[j].1, items);
      DatabasesSnoc(section, dbs, j, items);
      databases := databases + database;
    }
    assert dbs[..|dbs|] == dbs;
    actions := [MakeDir(mainPath)] + databases;
  }

  lemma DatabasesSnoc(section: string, dbs: Databases, j: nat, items: seq<Item>)
    requires j < |dbs|
    ensures DatabasesPlan(section, dbs[..j + 1], items) ==
      DatabasesPlan(section, dbs[..j], items) + DatabasePlan(section, dbs[j].0, dbs[j].1, items)
  {
    assert dbs[..j + 1][..j] == dbs[..j];
  }

  /** One database: its directory unless the key is `.`, then its copies. */
  method PlanDatabase(section: string, db: string, pages: seq<string>, items: seq<Item>) returns (actions: seq<Action>)
    ensures actions == DatabasePlan(section, db, pages, items)
  {
    var mainPath := Root + [section];
    var dbPath;
    actions := [];
    if db == "." {
      dbPath := mainPath;
    } else {
      dbPath := mainPath + [db];
      actions := actions + [MakeDir(dbPath)];
    }
    var copies := CopyPages(pages, items, dbPath);
    actions := actions + copies;
  }

  /** The sections in table order. */
  method PlanSections(structure: Structure, items: seq<Item>) returns (actions: seq<Action>)
    ensures actions == SectionsPlan(structure, items)
  {
    actions := [];
    for i := 0 to |structure|
      invariant actions == SectionsPlan(structure[..i], items)
    {
      var section := PlanSection(structure[i].0, structure[i].1, items);
      actions := actions + section;
      assert structure[..i + 1][..i] == structure[..i];
    }
    assert structure[..|structure|] == structure;
  }

  /** The uncategorised pass: each item goes to `output_organized/<name>` unless that exists. */
  method CopyUncategorised(items: seq<Item>, existing: set<Path>) returns (actions: seq<Action>, present: set<Path>)
    ensures actions == Uncategorised(items, existing)
    ensures present == existing + Targets(actions)
  {
    actions, present := [], existing;
    for k := 0 to |items|
      invariant present == existing + Targets(actions)
      invariant actions + Uncategorised(items[k..], present) == Uncategorised(items, existing)
    {
      var item := items[k];
      UncategorisedStep(items, k, present);
      if item.name != Organized {
        var dest := Root + [item.name];
        if dest !in present {
          var copy := if item.isDir then CopyTree(item.name, dest) else CopyFile(item.name, dest);
          TargetsAppend(actions, [copy]);
          TargetsSingle(copy);
          assert actions + ([copy] + Uncategorised(items[k + 1..], present + {dest}))
            == (actions + [copy]) + Uncategorised(items[k + 1..], present + {dest});
          actions := actions + [copy];
          present := present + {dest};
        }
      }
    }
  }

  /** One item of the uncategorised pass, taken from the front of `items[k..]`. */
  lemma UncategorisedStep(items: seq<Item>, k: nat, present: set<Path>)
    requires k < |items|
    ensures Uncategorised(items[k..], present) ==
      if items[k].name != Organized && Root + [items[k].name] !in present
      then [TopCopy(items[k])] + Uncategorised(items[k + 1..], present + {Root + [items[k].name]})
      else Uncategorised(items[k + 1..], present)
  {
    assert items[k..][0] == items[k];
    assert items[k..][1..] == items[k + 1..];
  }

  lemma TargetsSingle(a: Action)
    ensures Targets([a]) == {a.path}
  {
    assert [a][0].path == a.path;
  }

  /**
   * `organize_files` for a table, a listing of `output/` and the paths that
   * already exist: the actions performed and the paths present afterwards.
   */
  method OrganizeFiles(structure: Structure, outputExists: bool, items: seq<Item>, existing: set<Path>)
    returns (actions: seq<Action>, present: set<Path>)
    ensures actions == Plan(outputExists, structure, items, existing)
    ensures present == existing + Targets(actions)
    ensures !outputExists ==> actions == [] && present == existing
  {
    actions, present := [], existing;
    if !outputExists {
      return;
    }
    var sections := PlanSections(structure, items);
    var first := [MakeDir(Root)] + sections;
    var copies;
    copies, present := CopyUncategorised(items, existing + Targets(first));
    actions := first + copies;
    TargetsAppend(first, copies);
  }
}
