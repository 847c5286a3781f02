/**
 * The emoji label fixer (fix_emoji_labels.py): in every markdown file found
 * recursively under the output directory, an emoji followed by a space is
 * rewritten to the emoji, a bracketed label and the space (`X [Broom]`
 * becomes `X[Broom] `), unless some `emoji[` already occurs. Emojis and
 * replacements are opaque strings; the table is a parameter in iteration
 * order.
 */
module EmojiLabels {
  import opened Common
  import opened Text

  /** A table of `(emoji, replacement)` pairs, in iteration order. */
  type Entries = seq<(string, string)>

  /**
   * One table entry applied to the content: `(content', guardPassed)`. The
   * guard asks for the emoji and for no `emoji[`; only the occurrences of the
   * emoji followed by a space are then rewritten.
   */
  function Label(content: string, emoji: string, replacement: string): (r: (string, bool))
    ensures r.1 <==> Contains(content, emoji) && !Contains(content, emoji + "[")
    ensures !r.1 ==> r.0 == content
  {
    if Contains(content, emoji) && !Contains(content, emoji + "[") then
      (ReplaceAll(content, emoji + " ", replacement + " "), true)
    else (content, false)
  }

  /** Without an `emoji ` occurrence the text is unchanged, whatever the guard says. */
  lemma LabelOnlySpaced(content: string, emoji: string, replacement: string)
    requires !Contains(content, emoji + " ")
    ensures Label(content, emoji, replacement).0 == content
  {
    if Contains(content, emoji) && !Contains(content, emoji + "[") {
      ReplaceAllAbsent(content, emoji + " ", replacement + " ");
    }
  }

  /**
   * The guard passes without anything being replaced: a text that is just
   * the emoji is reported modified and comes back unchanged.
   */
  lemma ModifiedUnchanged(emoji: string, replacement: string)
    requires emoji != []
    ensures Label(emoji, emoji, replacement) == (emoji, true)
  {
    ContainsSelf(emoji);
    NoRoomNoMatch(emoji, emoji + "[");
    NoRoomNoMatch(emoji, emoji + " ");
    ReplaceAllAbsent(emoji, emoji + " ", replacement + " ");
  }

  /**
   * With the table's own replacements (`emoji[Label]`), an entry that
   * rewrote an occurrence is skipped on the next run.
   */
  lemma LabelRerunSkipped(content: string, emoji: string, tag: string)
    requires Contains(content, emoji + " ")
    ensures var once := Label(content, emoji, emoji + "[" + tag).0;
            Label(once, emoji, emoji + "[" + tag) == (once, false)
  {
    var replacement := emoji + "[" + tag;
    var once := Label(content, emoji, replacement).0;
    ContainsPrefix(content, emoji, " ");
    if !Contains(content, emoji + "[") {
      ReplaceAllIntroduces(content, emoji + " ", replacement + " ");
      assert replacement + " " == (emoji + "[") + (tag + " ");
      ContainsPrefix(once, emoji + "[", tag + " ");
    }
  }

  /** The content after every entry in turn, and whether any guard passed. */
  function Relabel(content: string, entries: Entries): (r: (string, bool))
    ensures !r.1 ==> r.0 == content
  {
    if entries == [] then (content, false)
    else
      var prev := Relabel(content, entries[..|entries| - 1]);
      var last := entries[|entries| - 1];
      var step := Label(prev.0, last.0, last.1);
      (step.0, prev.1 || step.1)
  }

  /** A file holding none of the emojis is not modified. */
  lemma {:induction false} RelabelNoEmoji(content: string, entries: Entries)
    requires forall i :: 0 <= i < |entries| ==> !Contains(content, entries[i].0)
    ensures Relabel(content, entries) == (content, false)
  {
    if entries != [] {
      RelabelNoEmoji(content, entries[..|entries| - 1]);
    }
  }

  /**
   * `process_file`: `file` is the text read (`None` when opening or reading
   * raises), `writable` whether writing it back succeeds. The file is
   * written, and `True` returned, exactly when some guard passed and the
   * write succeeds; an exception yields `False`.
   */
  method ProcessFile(file: Option<string>, writable: bool, entries: Entries)
    returns (fixed: bool, written: Option<string>)
    ensures fixed <==> written.Some?
    ensures file.None? ==> !fixed
    ensures file.Some? ==> (fixed <==> Relabel(file.value, entries).1 && writable)
    ensures written.Some? ==> written.value == Relabel(file.value, entries).0
  {
    if file.None? {
      return false, None;
    }
    var content := file.value;
    var modified := false;
    for i := 0 to |entries|
      invariant content == Relabel(file.value, entries[..i]).0
      invariant modified == Relabel(file.value, entries[..i]).1
    {
      var emoji, replacement := entries[i].0, entries[i].1;
      if Contains(content, emoji) && !Contains(content, emoji + "[") {
        content := ReplaceAll(content, emoji + " ", replacement + " ");
        modified := true;
      }
      assert entries[..i + 1][..i] == entries[..i];
    }
    assert entries[..|entries|] == entries;
    if modified && writable {
      return true, Some(content);
    }
    return false, None;
  }

  /**
   * One path yielded by `rglob('*.md')`: its text (`None` when it cannot be
   * read, as for a directory whose name ends in `.md`) and whether it can be
   * written back.
   */
  datatype MarkdownPath = MarkdownPath(content: Option<string>, writable: bool)

  /** Whether `process_file` returns `True` for a path. */
  predicate Fixed(p: MarkdownPath, entries: Entries) {
    p.content.Some? && p.writable && Relabel(p.content.value, entries).1
  }

  /** How many of `paths` `process_file` fixes. */
  function FixedCount(paths: seq<MarkdownPath>, entries: Entries): (n: nat)
    ensures n <= |paths|
  {
    if paths == [] then 0
    else FixedCount(paths[..|paths| - 1], entries) + (if Fixed(paths[|paths| - 1], entries) then 1 else 0)
  }

  /**
   * `main`: nothing when the output directory is missing; otherwise every
   * path found is processed and counted, and those fixed are counted as
   * modified.
   */
  method FixEmojiLabels(output: Option<seq<MarkdownPath>>, entries: Entries)
    returns (processed: nat, modified: nat)
    ensures output.None? ==> processed == 0 && modified == 0
    ensures output.Some? ==> processed == |output.value|
    ensures output.Some? ==> modified == FixedCount(output.value, entries)
    ensures modified <= processed
  {
    processed, modified := 0, 0;
    if output.None? {
      return;
    }
    var paths := output.value;
    for i := 0 to |paths|
      invariant processed == i
      invariant modified == FixedCount(paths[..i], entries)
    {
      processed := processed + 1;
      var fixed, _ := ProcessFile(paths[i].content, paths[i].writable, entries);
      if fixed {
        modified := modified + 1;
      }
      assert paths[..i + 1][..i] == paths[..i];
    }
    assert paths[..|paths|] == paths;
  }
}
