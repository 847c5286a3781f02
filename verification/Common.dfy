/**
 * Values shared by the scanner (get_page_ids.js), the exporters and the
 * command-line wrappers: an optional value and the flat page record that the
 * scanner prints as JSON and the exporters read back.
 */
module Common {

  /** `None` stands for JavaScript `null`/`undefined` and Python `None`. */
  datatype Option<+T> = None | Some(value: T) {
    function GetOr(default: T): T {
      match this
      case Some(v) => v
      case None => default
    }
  }

  /**
   * One entry of the scanner's `pages` list: `{id, title, level, parent}`
   * plus `fromDatabase: true` on database rows. Readers use
   * `page.get('fromDatabase', False)`, so a missing key is `false` here.
   */
  datatype PageRecord = PageRecord(
    id: string,
    title: string,
    level: int,
    parent: Option<string>,
    fromDatabase: bool)

  /** The ids of a list of records, in order. */
  function Ids(pages: seq<PageRecord>): (ids: seq<string>)
    ensures |ids| == |pages|
    ensures forall i :: 0 <= i < |pages| ==> ids[i] == pages[i].id
  {
    seq(|pages|, i requires 0 <= i < |pages| => pages[i].id)
  }

  /** No id occurs twice. */
  predicate Distinct<T(==)>(s: seq<T>) {
    forall i, j :: 0 <= i < j < |s| ==> s[i] != s[j]
  }

  /** `os.getenv(key, default)` / `process.env[key] || default` for a set variable. */
  function Getenv(env: map<string, string>, key: string, default: string): (v: string)
    ensures key in env ==> v == env[key]
    ensures key !in env ==> v == default
  {
    if key in env then env[key] else default
  }
}
