/**
 * The one-off emoji fixer (fix_emoji_temp.js): in two hard-coded markdown
 * files, every emoji followed by a space is rewritten to its replacement and
 * the space, with no check for an existing label. Emojis and replacements
 * are opaque strings; the table is a parameter in iteration order.
 */
module EmojiTemp {
  import opened Common
  import opened Text

  /** A table of `(emoji, replacement)` pairs, in iteration order. */
  type Entries = seq<(string, string)>

  /**
   * One table entry applied to the content: `(content', matched)`. The
   * pattern is the emoji and a space, as a global regular expression; the
   * emojis hold no pattern metacharacters, so it matches literally.
   */
  function Tag(content: string, emoji: string, replacement: string): (r: (string, bool))
    ensures r.1 <==> Contains(content, emoji + " ")
    ensures !r.1 ==> r.0 == content
  {
    if Contains(content, emoji + " ") then
      (ReplaceAll(content, emoji + " ", replacement + " "), true)
    else (content, false)
  }

  /**
   * With the table's own replacements (`emoji [Label]`), an entry that
   * matched matches again on a rerun, and the text grows by another label.
   */
  lemma TagAgain(content: string, emoji: string, tag: string)
    requires Contains(content, emoji + " ")
    ensures var once := Tag(content, emoji, emoji + " " + tag).0;
            var twice := Tag(once, emoji, emoji + " " + tag);
            twice.1 && |twice.0| > |once| > |content|
  {
    var pat, rep := emoji + " ", emoji + " " + tag + " ";
    var once := ReplaceAll(content, pat, rep);
    ReplaceAllIntroduces(content, pat, rep);
    assert rep == pat + (tag + " ");
    ContainsPrefix(once, pat, tag + " ");
    ReplaceAllLength(content, pat, rep);
    ReplaceAllLength(once, pat, rep);
  }

  /** The content after every entry in turn, and whether any entry matched. */
  function Retag(content: string, entries: Entries): (r: (string, bool))
    ensures !r.1 ==> r.0 == content
  {
    if entries == [] then (content, false)
    else
      var prev := Retag(content, entries[..|entries| - 1]);
      var last := entries[|entries| - 1];
      var step := Tag(prev.0, last.0, last.1);
      (step.0, prev.1 || step.1)
  }

  /** Every replacement is longer than its emoji, as in the table. */
  predicate Lengthening(entries: Entries) {
    forall i :: 0 <= i < |entries| ==> |entries[i].1| > |entries[i].0|
  }

  /**
   * With lengthening replacements the text never shrinks, and a file in
   * which some entry matched always comes back longer, so a rewritten file
   * is never its own fixed point.
   */
  lemma {:induction false} RetagGrows(content: string, entries: Entries)
    requires Lengthening(entries)
    ensures |Retag(content, entries).0| >= |content|
    ensures Retag(content, entries).1 ==> |Retag(content, entries).0| > |content|
  {
    if entries != [] {
      var init := entries[..|entries| - 1];
      var prev := Retag(content, init);
      var last := entries[|entries| - 1];
      RetagGrows(content, init);
      ReplaceAllLength(prev.0, last.0 + " ", last.1 + " ");
    }
  }

  /**
   * `processFile`: `file` is the text read (`None` when reading throws),
   * `writable` whether writing it back succeeds. The new text is written
   * exactly when some entry matched; errors are caught and only logged.
   */
  method ProcessFile(file: Option<string>, writable: bool, entries: Entries)
    returns (written: Option<string>)
    ensures written.Some? <==> file.Some? && Retag(file.value, entries).1 && writable
    ensures written.Some? ==> written.value == Retag(file.value, entries).0
  {
    if file.None? {
      return None;
    }
    var content := file.value;
    var modified := false;
    for i := 0 to |entries|
      invariant content == Retag(file.value, entries[..i]).0
      invariant modified == Retag(file.value, entries[..i]).1
    {
      var emoji, replacement := entries[i].0, entries[i].1;
      if Contains(content, emoji + " ") {
        content := ReplaceAll(content, emoji + " ", replacement + " ");
        modified := true;
      }
      assert entries[..i + 1][..i] == entries[..i];
    }
    assert entries[..|entries|] == entries;
    if modified && writable {
      return Some(content);
    }
    return None;
  }

  /** A file on disk: its text (`None` when unreadable) and whether it can be written. */
  datatype Stored = Stored(content: Option<string>, writable: bool)

  /** A stored file after `processFile`. */
  function Visit(f: Stored, entries: Entries): (r: Stored)
    ensures r != f ==> f.content.Some? && f.writable && Retag(f.content.value, entries).1
  {
    if f.content.Some? && f.writable && Retag(f.content.value, entries).1 then
      Stored(Some(Retag(f.content.value, entries).0), true)
    else f
  }

  const Folder := "/app/output/1. Activity Log (80+ Required)/"

  /** The two files the script visits. */
  const TempFiles: seq<string> := [Folder + "02. Convert UKB PDFs to MD and JSON.md", Folder + "_Overview.md"]

  lemma TempFilesDistinct()
    ensures Distinct(TempFiles)
  {
    var a, b := "02. Convert UKB PDFs to MD and JSON.md", "_Overview.md";
    assert (Folder + a)[|Folder|] == a[0] != b[0] == (Folder + b)[|Folder|];
  }

  /**
   * The script over a disk mapping paths to files: the two listed files are
   * processed when they exist, and nothing else is touched or created.
   */
  method FixEmojiTemp(disk: map<string, Stored>, entries: Entries)
    returns (disk': map<string, Stored>)
    ensures disk'.Keys == disk.Keys
    ensures forall p :: p in disk && p !in TempFiles ==> disk'[p] == disk[p]
    ensures forall p :: p in disk && p in TempFiles ==> disk'[p] == Visit(disk[p], entries)
  {
    TempFilesDistinct();
    disk' := disk;
    for i := 0 to |TempFiles|
      invariant disk'.Keys == disk.Keys
      invariant forall p :: p in disk && p !in TempFiles[..i] ==> disk'[p] == disk[p]
      invariant forall p :: p in disk && p in TempFiles[..i] ==> disk'[p] == Visit(disk[p], entries)
    {
      var f := TempFiles[i];
      if f in disk' {
        var written := ProcessFile(disk'[f].content, disk'[f].writable, entries);
        if written.Some? {
          disk' := disk'[f := Stored(written, true)];
        }
      }
      assert TempFiles[..i + 1] == TempFiles[..i] + [f];
    }
    assert TempFiles[..|TempFiles|] == TempFiles;
  }
}
