/**
 * The emoji display fixer (fix_emoji_display.js): every markdown file under
 * the output directory gets each emoji of a fixed table replaced by a
 * bracketed label such as `[🧹 Broom]`, unless that label already occurs in
 * the file. Emojis and labels are opaque strings here; the table itself is a
 * parameter in iteration order.
 */
module EmojiDisplay {
  import opened Common
  import opened Text

  /** A table of `(emoji, replacement)` pairs, in iteration order. */
  type Entries = seq<(string, string)>

  /** The keys of a table, in order. */
  function Keys(entries: Entries): (ks: seq<string>)
    ensures |ks| == |entries|
  {
    if entries == [] then [] else [entries[0].0] + Keys(entries[1..])
  }

  lemma {:induction false} KeyAt(entries: Entries, i: nat)
    requires i < |entries|
    ensures entries[i].0 in Keys(entries)
  {
    if i > 0 {
      KeyAt(entries[1..], i - 1);
    }
  }

  lemma {:induction false} KeysSnoc(entries: Entries, e: (string, string))
    ensures Keys(entries + [e]) == Keys(entries) + [e.0]
  {
    if entries != [] {
      assert (entries + [e])[1..] == entries[1..] + [e];
      KeysSnoc(entries[1..], e);
    }
  }

  // ---------------------------------------------------------------------
  // The object literal `emojiMap`
  // ---------------------------------------------------------------------

  /** Reading a property: the value stored under the first entry with that key. */
  function Lookup(entries: Entries, key: string): Option<string> {
    if entries == [] then None
    else if entries[0].0 == key then Some(entries[0].1)
    else Lookup(entries[1..], key)
  }

  /**
   * Assigning a property: an existing key keeps its place and takes the new
   * value; a new key is added last.
   */
  function Put(entries: Entries, key: string, value: string): Entries {
    if entries == [] then [(key, value)]
    else if entries[0].0 == key then [(key, value)] + entries[1..]
    else [entries[0]] + Put(entries[1..], key, value)
  }

  lemma {:induction false} PutKeys(entries: Entries, key: string, value: string)
    ensures key in Keys(entries) ==> Keys(Put(entries, key, value)) == Keys(entries)
    ensures key !in Keys(entries) ==> Keys(Put(entries, key, value)) == Keys(entries) + [key]
  {
    if entries != [] && entries[0].0 == key {
      assert ([(key, value)] + entries[1..])[1..] == entries[1..];
    } else if entries != [] {
      assert ([entries[0]] + Put(entries[1..], key, value))[1..] == Put(entries[1..], key, value);
      PutKeys(entries[1..], key, value);
    }
  }

  lemma {:induction false} PutLookup(entries: Entries, key: string, value: string, k: string)
    ensures Lookup(Put(entries, key, value), k) == if k == key then Some(value) else Lookup(entries, k)
  {
    if entries != [] && entries[0].0 != key {
      PutLookup(entries[1..], key, value, k);
    }
  }

  /**
   * The entries of an object literal: each `key: value` pair assigns its
   * property in turn, so a repeated key stays where it first appeared and
   * ends up with its last value.
   */
  function ObjectLiteral(pairs: Entries): Entries {
    if pairs == [] then []
    else
      var last := pairs[|pairs| - 1];
      Put(ObjectLiteral(pairs[..|pairs| - 1]), last.0, last.1)
  }

  /** The keys in order of first appearance. */
  function FirstAppearances(keys: seq<string>): seq<string> {
    if keys == [] then []
    else
      var init := keys[..|keys| - 1];
      if keys[|keys| - 1] in init then FirstAppearances(init)
      else FirstAppearances(init) + [keys[|keys| - 1]]
  }

  /** The value of the last pair written for `key`. */
  function LastValue(pairs: Entries, key: string): Option<string> {
    if pairs == [] then None
    else if pairs[|pairs| - 1].0 == key then Some(pairs[|pairs| - 1].1)
    else LastValue(pairs[..|pairs| - 1], key)
  }

  lemma {:induction false} FirstAppearancesMembers(keys: seq<string>)
    ensures forall k :: k in FirstAppearances(keys) <==> k in keys
  {
    if keys != [] {
      var init := keys[..|keys| - 1];
      FirstAppearancesMembers(init);
      assert keys == init + [keys[|keys| - 1]];
    }
  }

  /**
   * An object literal has one entry per distinct key, ordered by first
   * appearance, holding the value of the last pair for that key.
   */
  lemma {:induction false} ObjectLiteralEntries(pairs: Entries)
    ensures Keys(ObjectLiteral(pairs)) == FirstAppearances(Keys(pairs))
    ensures forall k :: Lookup(ObjectLiteral(pairs), k) == LastValue(pairs, k)
  {
    if pairs != [] {
      var init, last := pairs[..|pairs| - 1], pairs[|pairs| - 1];
      ObjectLiteralEntries(init);
      FirstAppearancesMembers(Keys(init));
      PutKeys(ObjectLiteral(init), last.0, last.1);
      assert pairs == init + [last];
      KeysSnoc(init, last);
      assert Keys(pairs)[..|pairs| - 1] == Keys(init);
      forall k ensures Lookup(ObjectLiteral(pairs), k) == LastValue(pairs, k) {
        PutLookup(ObjectLiteral(init), last.0, last.1, k);
      }
    }
  }

  /** First appearances never repeat a key. */
  lemma {:induction false} FirstAppearancesDistinct(keys: seq<string>)
    ensures Distinct(FirstAppearances(keys))
  {
    if keys != [] {
      var init := keys[..|keys| - 1];
      FirstAppearancesDistinct(init);
      FirstAppearancesMembers(init);
    }
  }

  /** An object literal never holds a key twice. */
  lemma ObjectLiteralDistinct(pairs: Entries)
    ensures Distinct(Keys(ObjectLiteral(pairs)))
  {
    ObjectLiteralEntries(pairs);
    FirstAppearancesDistinct(Keys(pairs));
  }

  /** The value written at index `j` for a key that no later pair repeats. */
  lemma {:induction false} LastValueAt(pairs: Entries, j: nat)
    requires j < |pairs|
    requires forall m :: j < m < |pairs| ==> pairs[m].0 != pairs[j].0
    ensures LastValue(pairs, pairs[j].0) == Some(pairs[j].1)
  {
    if j < |pairs| - 1 {
      LastValueAt(pairs[..|pairs| - 1], j);
    }
  }

  /**
   * A key written twice, at `i` and later at `j`, reads back the later
   * value: the table's `📊` and `📨` lines.
   */
  lemma LaterDuplicateWins(pairs: Entries, i: nat, j: nat)
    requires i < j < |pairs| && pairs[i].0 == pairs[j].0
    requires forall m :: j < m < |pairs| ==> pairs[m].0 != pairs[j].0
    ensures Lookup(ObjectLiteral(pairs), pairs[i].0) == Some(pairs[j].1)
    ensures pairs[i].0 in Keys(ObjectLiteral(pairs))
  {
    ObjectLiteralEntries(pairs);
    LastValueAt(pairs, j);
    FirstAppearancesMembers(Keys(pairs));
    KeyAt(pairs, i);
  }

  // ---------------------------------------------------------------------
  // processFile
  // ---------------------------------------------------------------------

  predicate NonEmptyKeys(entries: Entries) {
    forall i :: 0 <= i < |entries| ==> entries[i].0 != []
  }

  /**
   * One table entry applied to the content: `(content', applied)`. An entry
   * applies when its emoji occurs and its replacement does not; then every
   * occurrence of the emoji is replaced.
   */
  function Apply(content: string, emoji: string, replacement: string): (r: (string, bool))
    requires emoji != []
    ensures !r.1 ==> r.0 == content
    ensures Contains(content, replacement) ==> r == (content, false)
    ensures r.1 ==> Contains(content, emoji) && Contains(r.0, replacement)
  {
    if Contains(content, emoji) && !Contains(content, replacement) then
      ReplaceAllIntroduces(content, emoji, replacement);
      (ReplaceAll(content, emoji, replacement), true)
    else (content, false)
  }

  /** Once an entry has applied, applying it again changes nothing. */
  lemma ApplyTwice(content: string, emoji: string, replacement: string)
    requires emoji != []
    ensures var once := Apply(content, emoji, replacement).0;
            Apply(once, emoji, replacement) == (once, false)
  {
  }

  /** The content after every entry in turn, and whether any entry applied. */
  function Rewrite(content: string, entries: Entries): (r: (string, bool))
    requires NonEmptyKeys(entries)
    ensures !r.1 ==> r.0 == content
  {
    if entries == [] then (content, false)
    else
      var prev := Rewrite(content, entries[..|entries| - 1]);
      var last := entries[|entries| - 1];
      var step := Apply(prev.0, last.0, last.1);
      (step.0, prev.1 || step.1)
  }

  /**
   * A file in which every entry is either absent or already labelled is left
   * exactly as it is.
   */
  lemma {:induction false} RewriteUntouched(content: string, entries: Entries)
    requires NonEmptyKeys(entries)
    requires forall i :: 0 <= i < |entries| ==>
               !Contains(content, entries[i].0) || Contains(content, entries[i].1)
    ensures Rewrite(content, entries) == (content, false)
  {
    if entries != [] {
      RewriteUntouched(content, entries[..|entries| - 1]);
    }
  }

  /**
   * `processFile`: `file` is the text read (`None` when reading throws),
   * `writable` whether writing it back succeeds. The file is written, and
   * `true` returned, exactly when some entry applied and the write succeeds;
   * an error is caught and yields `false`.
   */
  method ProcessFile(file: Option<string>, writable: bool, entries: Entries)
    returns (fixed: bool, written: Option<string>)
    requires NonEmptyKeys(entries)
    ensures fixed <==> written.Some?
    ensures file.None? ==> !fixed
    ensures file.Some? ==> (fixed <==> Rewrite(file.value, entries).1 && writable)
    ensures written.Some? ==> written.value == Rewrite(file.value, entries).0
  {
    if file.None? {
      return false, None;
    }
    var content := file.value;
    var modified := false;
    for i := 0 to |entries|
      invariant content == Rewrite(file.value, entries[..i]).0
      invariant modified == Rewrite(file.value, entries[..i]).1
    {
      var emoji, replacement := entries[i].0, entries[i].1;
      if Contains(content, emoji) && !Contains(content, replacement) {
        content := ReplaceAll(content, emoji, replacement);
        modified := true;
      }
      assert entries[..i + 1][..i] == entries[..i];
    }
    assert entries[..|entries|] == entries;
    if modified && writable {
      return true, Some(content);
    }
    return false, None;
  }

  // ---------------------------------------------------------------------
  // processDirectory / walkDir
  // ---------------------------------------------------------------------

  /**
   * A directory entry: a file with its text (`None` when it cannot be read)
   * and whether it can be written back, or a directory with its listing.
   */
  datatype Node =
    | File(name: string, content: Option<string>, writable: bool)
    | Dir(name: string, children: seq<Node>)

  /** The walk descends into directories whose name does not start with a dot. */
  predicate Descends(n: Node) {
    n.Dir? && !StartsWith(n.name, ".")
  }

  /** The walk processes files whose name ends in `.md`. */
  predicate Markdown(n: Node) {
    n.File? && EndsWith(n.name, ".md")
  }

  /** The markdown files the walk reaches, depth first in listing order. */
  function Processed(nodes: seq<Node>): (files: seq<Node>)
    ensures forall f :: f in files ==> Markdown(f)
    decreases nodes
  {
    if nodes == [] then []
    else
      var last := nodes[|nodes| - 1];
      Processed(nodes[..|nodes| - 1])
        + (if Descends(last) then Processed(last.children)
           else if Markdown(last) then [last]
           else [])
  }

  /** Reference definition: `f` is listed here or inside a directory the walk descends into. */
  predicate Reaches(nodes: seq<Node>, f: Node)
    decreases nodes
  {
    exists i :: 0 <= i < |nodes| && (nodes[i] == f || (Descends(nodes[i]) && Reaches(nodes[i].children, f)))
  }

  /** The walk processes exactly the markdown files it can reach. */
  lemma {:induction false} ProcessedReached(nodes: seq<Node>, f: Node)
    ensures f in Processed(nodes) <==> Markdown(f) && Reaches(nodes, f)
    decreases nodes
  {
    if nodes != [] {
      var init, last := nodes[..|nodes| - 1], nodes[|nodes| - 1];
      ProcessedReached(init, f);
      if Descends(last) {
        ProcessedReached(last.children, f);
      }
      if Reaches(nodes, f) {
        var i :| 0 <= i < |nodes| && (nodes[i] == f || (Descends(nodes[i]) && Reaches(nodes[i].children, f)));
        if i < |nodes| - 1 {
          assert init[i] == nodes[i];
        }
      }
      if Reaches(init, f) {
        var i :| 0 <= i < |init| && (init[i] == f || (Descends(init[i]) && Reaches(init[i].children, f)));
        assert nodes[i] == init[i];
      }
    }
  }

  /** Whether `processFile` returns `true` for a processed file. */
  predicate Fixed(f: Node, entries: Entries)
    requires NonEmptyKeys(entries)
  {
    f.File? && f.content.Some? && f.writable && Rewrite(f.content.value, entries).1
  }

  /** How many of `files` `processFile` fixes. */
  function FixedCount(files: seq<Node>, entries: Entries): nat
    requires NonEmptyKeys(entries)
  {
    if files == [] then 0
    else FixedCount(files[..|files| - 1], entries) + (if Fixed(files[|files| - 1], entries) then 1 else 0)
  }

  lemma {:induction false} FixedCountAppend(a: seq<Node>, b: seq<Node>, entries: Entries)
    requires NonEmptyKeys(entries)
    ensures FixedCount(a + b, entries) == FixedCount(a, entries) + FixedCount(b, entries)
    decreases |b|
  {
    if b == [] {
      assert a + b == a;
    } else {
      assert (a + b)[..|a + b| - 1] == a + b[..|b| - 1];
      assert (a + b)[|a + b| - 1] == b[|b| - 1];
      FixedCountAppend(a, b[..|b| - 1], entries);
    }
  }

  /** No more files are modified than are processed. */
  lemma {:induction false} FixedAtMostProcessed(files: seq<Node>, entries: Entries)
    requires NonEmptyKeys(entries)
    ensures FixedCount(files, entries) <= |files|
  {
    if files != [] {
      FixedAtMostProcessed(files[..|files| - 1], entries);
    }
  }

  /**
   * `walkDir` over one listing, adding to the closure's counters: every
   * reachable markdown file is processed once, and those `processFile`
   * fixes are counted as modified.
   */
  method WalkDir(nodes: seq<Node>, entries: Entries, processed: nat, modified: nat)
    returns (processed': nat, modified': nat)
    requires NonEmptyKeys(entries)
    ensures processed' == processed + |Processed(nodes)|
    ensures modified' == modified + FixedCount(Processed(nodes), entries)
    decreases nodes
  {
    processed', modified' := processed, modified;
    for i := 0 to |nodes|
      invariant processed' == processed + |Processed(nodes[..i])|
      invariant modified' == modified + FixedCount(Processed(nodes[..i]), entries)
    {
      var node := nodes[i];
      assert nodes[..i + 1][..i] == nodes[..i];
      if node.Dir? && !StartsWith(node.name, ".") {
        assert Processed(nodes[..i + 1]) == Processed(nodes[..i]) + Processed(node.children);
        processed', modified' := WalkDir(node.children, entries, processed', modified');
        FixedCountAppend(Processed(nodes[..i]), Processed(node.children), entries);
      } else if node.File? && EndsWith(node.name, ".md") {
        assert Processed(nodes[..i + 1]) == Processed(nodes[..i]) + [node];
        processed' := processed' + 1;
        var fixed, _ := ProcessFile(node.content, node.writable, entries);
        assert fixed == Fixed(node, entries);
        assert FixedCount([node], entries) == if fixed then 1 else 0;
        if fixed {
          modified' := modified' + 1;
        }
        FixedCountAppend(Processed(nodes[..i]), [node], entries);
      } else {
        assert Processed(nodes[..i + 1]) == Processed(nodes[..i]) + [];
        assert Processed(nodes[..i + 1]) == Processed(nodes[..i]);
      }
    }
    assert nodes[..|nodes|] == nodes;
  }

  /**
   * The script: exit code 1 when the output directory is missing, otherwise
   * the walk's counters, with no more files modified than processed.
   */
  method FixEmojiDisplay(output: Option<seq<Node>>, entries: Entries)
    returns (code: int, processed: nat, modified: nat)
    requires NonEmptyKeys(entries)
    ensures output.None? ==> code == 1 && processed == 0 && modified == 0
    ensures output.Some? ==> code == 0 && processed == |Processed(output.value)|
    ensures output.Some? ==> modified == FixedCount(Processed(output.value), entries)
    ensures modified <= processed
  {
    if output.None? {
      return 1, 0, 0;
    }
    processed, modified := WalkDir(output.value, entries, 0, 0);
    FixedAtMostProcessed(Processed(output.value), entries);
    code := 0;
  }
}
