/**
 * Filesystem paths as lists of segments. Python's `pathlib` drops empty and
 * `.` segments when it joins (`Path('out') / ''` is `Path('out')`), and so
 * does Node's `path.join`; `Child` models that join for one segment that
 * contains no separator.
 */
module Paths {

  import opened Common
  import opened Text

  type Path = seq<string>

  /** `parent / name` for a single segment `name`. */
  function Child(parent: Path, name: string): (p: Path)
    ensures name == "" || name == "." ==> p == parent
    ensures name != "" && name != "." ==> p == parent + [name] && |p| == |parent| + 1
  {
    if name == "" || name == "." then parent else parent + [name]
  }

  /**
   * `Path(p).relative_to(root)`: the segments after `root` when `root` is a
   * prefix of `p`; `None` where Python raises `ValueError`.
   */
  function RelativeTo(p: Path, root: Path): (r: Option<Path>)
    ensures r.Some? <==> root <= p
    ensures r.Some? ==> root + r.value == p
  {
    if root <= p then Some(p[|root|..]) else None
  }

  /** `Path(p).parent`; the parent of the current directory is itself. */
  function Parent(p: Path): (r: Path)
    ensures r <= p && (p != [] ==> |r| == |p| - 1)
  {
    if p == [] then [] else p[..|p| - 1]
  }

  /** `Path(p).name`: the last segment, empty for the current directory. */
  function Name(p: Path): string {
    if p == [] then "" else p[|p| - 1]
  }

  /** `str(Path(p))` for a relative path: segments joined by `/`, `.` when empty. */
  function Show(p: Path): string {
    if p == [] then "." else ShowSegments(p)
  }

  function ShowSegments(p: Path): string
    requires p != []
  {
    if |p| == 1 then p[0] else p[0] + "/" + ShowSegments(p[1..])
  }

  /** `Path(s)` for a relative path: its segments, without empty and `.` ones. */
  function FromString(s: string): (p: Path)
    ensures forall i :: 0 <= i < |p| ==> p[i] != "" && p[i] != "."
  {
    Segments(Split(s, '/'))
  }

  function Segments(parts: seq<string>): (p: Path)
    ensures forall i :: 0 <= i < |p| ==> p[i] != "" && p[i] != "."
  {
    if parts == [] then []
    else if parts[0] == "" || parts[0] == "." then Segments(parts[1..])
    else [parts[0]] + Segments(parts[1..])
  }
}
