/**
 * String operations used by the Python and JavaScript sources, on
 * `string == seq<char>`. Character classes follow the languages' own
 * definitions where those are fixed tables (Python `str.isspace`, the
 * JavaScript `\s` class); `isalnum` and `lower` are restricted to ASCII.
 */
module Text {

  /** Python `str.isalnum` on ASCII characters. */
  predicate IsAlnum(c: char) {
    ('a' <= c <= 'z') || ('A' <= c <= 'Z') || ('0' <= c <= '9')
  }

  /** Python `str.isspace`, the set `str.strip()` removes. */
  predicate IsPySpace(c: char) {
    c == ' ' || ('\t' <= c <= '\r') || ('\U{1C}' <= c <= '\U{1F}') ||
    c == '\U{85}' || c == '\U{A0}' || c == '\U{1680}' ||
    ('\U{2000}' <= c <= '\U{200A}') || c == '\U{2028}' || c == '\U{2029}' ||
    c == '\U{202F}' || c == '\U{205F}' || c == '\U{3000}'
  }

  /** The JavaScript `\s` class, which `String.prototype.trim` also removes. */
  predicate IsJsSpace(c: char) {
    c == ' ' || ('\t' <= c <= '\r') || c == '\U{A0}' || c == '\U{1680}' ||
    ('\U{2000}' <= c <= '\U{200A}') || c == '\U{2028}' || c == '\U{2029}' ||
    c == '\U{202F}' || c == '\U{205F}' || c == '\U{3000}' || c == '\U{FEFF}'
  }

  /** ASCII lower-casing (Python `str.lower`, JavaScript `toLowerCase`). */
  function Lower(s: string): (r: string)
    ensures |r| == |s|
    ensures forall i :: 0 <= i < |s| ==> r[i] == LowerChar(s[i])
  {
    seq(|s|, i requires 0 <= i < |s| => LowerChar(s[i]))
  }

  function LowerChar(c: char): char {
    if 'A' <= c <= 'Z' then (c as int + 32) as char else c
  }

  /** The characters of `s` that satisfy `keep`, in order (a generator filter). */
  function Filter(s: string, keep: char -> bool): (r: string)
    ensures |r| <= |s|
    ensures forall i :: 0 <= i < |r| ==> keep(r[i])
    ensures forall c :: c in r ==> c in s
  {
    if s == [] then []
    else (if keep(s[0]) then [s[0]] else []) + Filter(s[1..], keep)
  }

  /** The characters the Python exporters keep in a file or directory name. */
  predicate NameChar(c: char) {
    IsAlnum(c) || c == ' ' || c == '-' || c == '_' || c == '.'
  }

  /** Filtering a concatenation filters each part. */
  lemma {:induction false} FilterAppend(a: string, b: string, keep: char -> bool)
    ensures Filter(a + b, keep) == Filter(a, keep) + Filter(b, keep)
  {
    if a == [] {
      assert a + b == b;
    } else {
      var head := if keep(a[0]) then [a[0]] else [];
      assert (a + b)[0] == a[0] && (a + b)[1..] == a[1..] + b;
      calc {
        Filter(a + b, keep);
        head + Filter(a[1..] + b, keep);
        { FilterAppend(a[1..], b, keep); }
        head + (Filter(a[1..], keep) + Filter(b, keep));
        (head + Filter(a[1..], keep)) + Filter(b, keep);
      }
    }
  }

  lemma {:induction false} FilterKeepsAll(s: string, keep: char -> bool)
    requires forall i :: 0 <= i < |s| ==> keep(s[i])
    ensures Filter(s, keep) == s
  {
    if s != [] { FilterKeepsAll(s[1..], keep); }
  }

  lemma {:induction false} FilterMembers(s: string, keep: char -> bool)
    ensures forall c :: c in Filter(s, keep) <==> c in s && keep(c)
  {
    if s != [] {
      FilterMembers(s[1..], keep);
      assert s == [s[0]] + s[1..];
    }
  }

  /**
   * Filtering then stripping trailing whitespace leaves nothing exactly when
   * every kept character is whitespace.
   */
  lemma FilterRStripEmpty(s: string, keep: char -> bool)
    ensures TrimRight(Filter(s, keep), IsPySpace) == [] <==>
      forall c :: c in s && keep(c) ==> IsPySpace(c)
  {
    FilterMembers(s, keep);
    var f := Filter(s, keep);
    var r := TrimRight(f, IsPySpace);
    if r == [] {
      forall c | c in s && keep(c) ensures IsPySpace(c) {
        var i :| 0 <= i < |f| && f[i] == c;
      }
    } else {
      assert r[|r| - 1] == f[|r| - 1];
    }
  }

  /** `s` with every trailing character satisfying `drop` removed. */
  function TrimRight(s: string, drop: char -> bool): (r: string)
    ensures r <= s
    ensures r != [] ==> !drop(r[|r| - 1])
    ensures forall i :: |r| <= i < |s| ==> drop(s[i])
  {
    if s == [] then s
    else if drop(s[|s| - 1]) then TrimRight(s[..|s| - 1], drop)
    else s
  }

  /** `s` with every leading character satisfying `drop` removed. */
  function TrimLeft(s: string, drop: char -> bool): (r: string)
    ensures |r| <= |s| && r == s[|s| - |r|..]
    ensures r != [] ==> !drop(r[0])
  {
    if s == [] then s
    else if drop(s[0]) then TrimLeft(s[1..], drop)
    else s
  }

  /**
   * Trimming a run of `first` characters and then a run of `second` ones
   * removes a non-empty prefix made of such characters.
   */
  lemma TrimLeftTwice(s: string, first: char -> bool, second: char -> bool)
    requires s != [] && first(s[0])
    ensures var r := TrimLeft(TrimLeft(s, first), second);
      |r| < |s| && r == s[|s| - |r|..] &&
      forall k :: 0 <= k < |s| - |r| ==> first(s[k]) || second(s[k])
  {
    var h := TrimLeft(s, first);
    assert h == TrimLeft(s[1..], first);
    TrimLeftSuffix(s, first, second);
    TrimLeftAll(s, first);
    TrimLeftAll(h, second);
    TrimLeftTwiceDropped(s, h, TrimLeft(h, second), first, second);
  }

  /** Two left trims in a row leave a suffix. */
  lemma TrimLeftSuffix(s: string, first: char -> bool, second: char -> bool)
    ensures var r := TrimLeft(TrimLeft(s, first), second);
      |r| <= |s| && r == s[|s| - |r|..]
  {
    var h := TrimLeft(s, first);
    var r := TrimLeft(h, second);
    assert s[|s| - |h|..][|h| - |r|..] == s[|s| - |r|..];
  }

  /** The characters before a suffix of a suffix are dropped by one trim or the other. */
  lemma TrimLeftTwiceDropped(s: string, h: string, r: string, first: char -> bool, second: char -> bool)
    requires |r| <= |h| <= |s| && h == s[|s| - |h|..]
    requires forall k :: 0 <= k < |s| - |h| ==> first(s[k])
    requires forall k :: 0 <= k < |h| - |r| ==> second(h[k])
    ensures forall k :: 0 <= k < |s| - |r| ==> first(s[k]) || second(s[k])
  {
    var m := |s| - |h|;
    forall k | m <= k < |s| - |r| ensures second(s[k]) {
      assert s[k] == h[k - m];
    }
  }

  /** `TrimLeft` only removes characters. */
  lemma {:induction false} TrimLeftMembers(s: string, drop: char -> bool)
    ensures forall c :: c in TrimLeft(s, drop) ==> c in s
  {
    if s != [] && drop(s[0]) {
      TrimLeftMembers(s[1..], drop);
    }
  }

  /** Every character `TrimLeft` removed satisfies the predicate. */
  lemma {:induction false} TrimLeftAll(s: string, drop: char -> bool)
    ensures forall k :: 0 <= k < |s| - |TrimLeft(s, drop)| ==> drop(s[k])
  {
    if s != [] && drop(s[0]) {
      TrimLeftAll(s[1..], drop);
      forall k | 1 <= k < |s| - |TrimLeft(s, drop)| ensures drop(s[k]) {
        assert s[k] == s[1..][k - 1];
      }
    }
  }

  /** Python `str.rstrip()`. */
  function RStrip(s: string): string { TrimRight(s, IsPySpace) }

  /** Python `str.strip()`. */
  function Strip(s: string): string { TrimLeft(TrimRight(s, IsPySpace), IsPySpace) }

  /** Stripping only removes characters. */
  lemma StripMembers(s: string)
    ensures forall c :: c in Strip(s) ==> c in s
  {
    var r := TrimRight(s, IsPySpace);
    TrimLeftMembers(r, IsPySpace);
    forall c | c in r ensures c in s {
      var i :| 0 <= i < |r| && r[i] == c;
      assert s[i] == c;
    }
  }

  /** A string without white space is its own strip. */
  lemma StripNoSpace(s: string)
    requires forall i :: 0 <= i < |s| ==> !IsPySpace(s[i])
    ensures Strip(s) == s
  {
  }

  /** JavaScript `String.prototype.trim()`. */
  function JsTrim(s: string): string { TrimLeft(TrimRight(s, IsJsSpace), IsJsSpace) }

  /** Python `s[:n]` for `n >= 0`, and JavaScript `s.substring(0, n)`. */
  function Take(s: string, n: int): (r: string)
    ensures r <= s
    ensures |r| == if n <= 0 then 0 else if n < |s| then n else |s|
  {
    if n <= 0 then [] else if n < |s| then s[..n] else s
  }

  /** Python `str.startswith` / JavaScript `startsWith`. */
  predicate StartsWith(s: string, prefix: string) {
    |prefix| <= |s| && s[..|prefix|] == prefix
  }

  /** Python `str.endswith` / JavaScript `endsWith`. */
  predicate EndsWith(s: string, suffix: string) {
    |suffix| <= |s| && s[|s| - |suffix|..] == suffix
  }

  /** Python `pat in s` / JavaScript `s.includes(pat)`. */
  predicate Contains(s: string, pat: string)
    decreases |s|
  {
    StartsWith(s, pat) || (s != [] && Contains(s[1..], pat))
  }

  lemma {:induction false} ContainsAt(s: string, pat: string, i: nat)
    requires i + |pat| <= |s| && s[i..i + |pat|] == pat
    ensures Contains(s, pat)
    decreases i
  {
    if i > 0 {
      assert s[1..][i - 1..i - 1 + |pat|] == pat;
      ContainsAt(s[1..], pat, i - 1);
    }
  }

  lemma {:induction false} ContainsInfix(a: string, b: string, c: string, pat: string)
    requires Contains(b, pat)
    ensures Contains(a + b + c, pat)
    decreases |b|
  {
    if StartsWith(b, pat) {
      assert (a + b + c)[|a|..|a| + |pat|] == pat;
      ContainsAt(a + b + c, pat, |a|);
    } else {
      assert a + b + c == (a + [b[0]]) + b[1..] + c;
      ContainsInfix(a + [b[0]], b[1..], c, pat);
    }
  }

  /** An occurrence of `a + b` is an occurrence of `a`. */
  lemma {:induction false} ContainsPrefix(s: string, a: string, b: string)
    requires Contains(s, a + b)
    ensures Contains(s, a)
    decreases |s|
  {
    if StartsWith(s, a + b) {
      assert s[..|a|] == (a + b)[..|a|];
    } else {
      ContainsPrefix(s[1..], a, b);
    }
  }

  lemma ContainsSelf(s: string)
    ensures Contains(s, s)
  {
    assert StartsWith(s, s);
  }

  /**
   * Left-to-right, non-overlapping replacement of every occurrence of a
   * non-empty pattern: Python `str.replace`, JavaScript `replaceAll` and a
   * global regular expression built from a literal.
   */
  function ReplaceAll(s: string, pat: string, rep: string): string
    requires pat != []
    decreases |s|
  {
    if |s| < |pat| then s
    else if s[..|pat|] == pat then rep + ReplaceAll(s[|pat|..], pat, rep)
    else [s[0]] + ReplaceAll(s[1..], pat, rep)
  }

  /** Without an occurrence, replacing changes nothing. */
  lemma {:induction false} ReplaceAllAbsent(s: string, pat: string, rep: string)
    requires pat != [] && !Contains(s, pat)
    ensures ReplaceAll(s, pat, rep) == s
    decreases |s|
  {
    if |s| >= |pat| {
      assert !StartsWith(s, pat);
      ReplaceAllAbsent(s[1..], pat, rep);
    }
  }

  /** With an occurrence, the replacement text appears in the result. */
  lemma {:induction false} ReplaceAllIntroduces(s: string, pat: string, rep: string)
    requires pat != [] && Contains(s, pat)
    ensures Contains(ReplaceAll(s, pat, rep), rep)
    decreases |s|
  {
    if |s| < |pat| {
      NoRoomNoMatch(s, pat);
      assert false;
    } else if s[..|pat|] == pat {
      ContainsSelf(rep);
      ContainsInfix([], rep, ReplaceAll(s[|pat|..], pat, rep), rep);
    } else {
      assert !StartsWith(s, pat);
      ReplaceAllIntroduces(s[1..], pat, rep);
      ContainsInfix([s[0]], ReplaceAll(s[1..], pat, rep), [], rep);
      assert [s[0]] + ReplaceAll(s[1..], pat, rep) + [] == ReplaceAll(s, pat, rep);
    }
  }

  /** Replacing with a longer text never shortens, and lengthens when there is a match. */
  lemma {:induction false} ReplaceAllLength(s: string, pat: string, rep: string)
    requires pat != [] && |rep| >= |pat|
    ensures |ReplaceAll(s, pat, rep)| >= |s|
    ensures Contains(s, pat) && |rep| > |pat| ==> |ReplaceAll(s, pat, rep)| > |s|
    decreases |s|
  {
    if |s| < |pat| {
      if Contains(s, pat) { NoRoomNoMatch(s, pat); }
    } else if s[..|pat|] == pat {
      ReplaceAllLength(s[|pat|..], pat, rep);
    } else {
      ReplaceAllLength(s[1..], pat, rep);
    }
  }

  lemma {:induction false} NoRoomNoMatch(s: string, pat: string)
    requires |s| < |pat|
    ensures !Contains(s, pat)
    decreases |s|
  {
    if s != [] { NoRoomNoMatch(s[1..], pat); }
  }

  /** Python `s.replace(c, d)` / `s.replace(c, '')` for a single character. */
  function MapChar(s: string, from: char, to: char): (r: string)
    ensures |r| == |s|
    ensures forall i :: 0 <= i < |s| ==> r[i] == (if s[i] == from then to else s[i])
  {
    seq(|s|, i requires 0 <= i < |s| => if s[i] == from then to else s[i])
  }

  /** Replacing a character that does not occur changes nothing. */
  lemma MapCharAbsent(s: string, from: char, to: char)
    requires from !in s
    ensures MapChar(s, from, to) == s
  {
  }

  /** Python `s.replace('-', '')`: every occurrence removed. */
  function RemoveChar(s: string, c: char): (r: string)
    ensures c !in r
  {
    Filter(s, x => x != c)
  }

  /** JavaScript `s.replace('-', '')` with a string pattern: only the first occurrence. */
  function RemoveFirst(s: string, c: char): (r: string)
    ensures c in s ==> |r| == |s| - 1
    ensures c !in s ==> r == s
  {
    if s == [] then s
    else if s[0] == c then s[1..]
    else [s[0]] + RemoveFirst(s[1..], c)
  }

  /** Python `s.split(sep)` / JavaScript `s.split(sep)` for a one-character separator. */
  function Split(s: string, sep: char): (parts: seq<string>)
    ensures |parts| >= 1
    ensures forall i :: 0 <= i < |parts| ==> sep !in parts[i]
  {
    if s == [] then [""]
    else
      var rest := Split(s[1..], sep);
      if s[0] == sep then [""] + rest
      else [[s[0]] + rest[0]] + rest[1..]
  }

  /** The characters of `s` before its first `sep`; all of `s` when there is none. */
  function Before(s: string, sep: char): (r: string)
    ensures r <= s && sep !in r
    ensures sep in s ==> |r| < |s| && s[|r|] == sep
  {
    if s == [] || s[0] == sep then [] else [s[0]] + Before(s[1..], sep)
  }

  /** The first piece of a split is everything before the first separator. */
  lemma {:induction false} SplitFirst(s: string, sep: char)
    ensures Split(s, sep)[0] == Before(s, sep)
  {
    if s != [] && s[0] != sep {
      SplitFirst(s[1..], sep);
    }
  }

  /** A string without the separator splits into itself. */
  lemma {:induction false} SplitNoSep(s: string, sep: char)
    requires sep !in s
    ensures Split(s, sep) == [s]
  {
    if s != [] {
      SplitNoSep(s[1..], sep);
      assert s == [s[0]] + s[1..];
    }
  }

  /** The first separator ends the first piece. */
  lemma {:induction false} SplitAtSep(a: string, sep: char, b: string)
    requires sep !in a
    ensures Split(a + [sep] + b, sep) == [a] + Split(b, sep)
  {
    var s := a + [sep] + b;
    if a == [] {
      assert s[0] == sep && s[1..] == b;
    } else {
      SplitAtSep(a[1..], sep, b);
      assert s[0] == a[0] && s[1..] == a[1..] + [sep] + b;
      assert [a[0]] + a[1..] == a;
    }
  }

  /** Joining pieces that do not contain the separator, then splitting, gives the pieces back. */
  lemma {:induction false} SplitJoin(parts: seq<string>, sep: char)
    requires parts != []
    requires forall i :: 0 <= i < |parts| ==> sep !in parts[i]
    ensures Split(Join(parts, [sep]), sep) == parts
  {
    if |parts| == 1 {
      SplitNoSep(parts[0], sep);
    } else {
      SplitJoin(parts[1..], sep);
      assert Join(parts, [sep]) == parts[0] + [sep] + Join(parts[1..], [sep]);
      SplitAtSep(parts[0], sep, Join(parts[1..], [sep]));
      assert [parts[0]] + parts[1..] == parts;
    }
  }

  /** Python `sep.join(parts)` / JavaScript `parts.join(sep)`. */
  function Join(parts: seq<string>, sep: string): string {
    if parts == [] then ""
    else if |parts| == 1 then parts[0]
    else parts[0] + sep + Join(parts[1..], sep)
  }

  /** A joined string holds only the pieces' characters and the separator's. */
  lemma {:induction false} JoinMembers(parts: seq<string>, sep: string)
    ensures forall c :: c in Join(parts, sep) ==>
      c in sep || exists i :: 0 <= i < |parts| && c in parts[i]
  {
    if |parts| > 1 {
      JoinMembers(parts[1..], sep);
      forall c | c in Join(parts, sep)
        ensures c in sep || exists i :: 0 <= i < |parts| && c in parts[i]
      {
        if c !in parts[0] && c !in sep {
          assert c in Join(parts[1..], sep);
          var i :| 0 <= i < |parts[1..]| && c in parts[1..][i];
          assert c in parts[i + 1];
        }
      }
    }
  }

  /** Decimal digits of a natural number, as Python `str(n)` / `%d`. */
  function Decimal(n: nat): (r: string)
    ensures |r| >= 1
    ensures forall i :: 0 <= i < |r| ==> '0' <= r[i] <= '9'
  {
    if n < 10 then [('0' as int + n) as char]
    else Decimal(n / 10) + [('0' as int + n % 10) as char]
  }

  /** Python `"%02d" % n`. */
  function Pad2(n: nat): (r: string)
    ensures |r| >= 2
    ensures forall i :: 0 <= i < |r| ==> '0' <= r[i] <= '9'
  {
    if n < 10 then "0" + Decimal(n) else Decimal(n)
  }

  /** The number a string of decimal digits denotes, as Python `int(s)` reads it. */
  function DigitsValue(s: string): nat
    requires forall i :: 0 <= i < |s| ==> '0' <= s[i] <= '9'
  {
    if s == [] then 0
    else DigitsValue(s[..|s| - 1]) * 10 + (s[|s| - 1] as int - '0' as int)
  }

  /** The digits of `n` read back give `n`, with no leading zero. */
  lemma {:induction false} DecimalValue(n: nat)
    ensures DigitsValue(Decimal(n)) == n
    ensures |Decimal(n)| > 1 ==> Decimal(n)[0] != '0'
  {
    if n >= 10 {
      DecimalValue(n / 10);
      var r := Decimal(n);
      assert r[..|r| - 1] == Decimal(n / 10);
    }
  }

  /** `"%02d" % n` reads back as `n`, and is exactly two digits for `n < 100`. */
  lemma Pad2Value(n: nat)
    ensures DigitsValue(Pad2(n)) == n
    ensures n < 100 ==> |Pad2(n)| == 2
    ensures |Pad2(n)| > 2 ==> Pad2(n) == Decimal(n)
  {
    DecimalValue(n);
    if n < 10 {
      var r := "0" + Decimal(n);
      assert r[..|r| - 1] == "0";
      assert DigitsValue("0") == DigitsValue([]) * 10 + 0;
    } else if n < 100 {
      assert Decimal(n) == Decimal(n / 10) + [('0' as int + n % 10) as char];
    }
  }

  /** `n` copies of `s` (Python `s * n`, JavaScript `s.repeat(n)`). */
  function Repeat(s: string, n: int): (r: string)
    ensures |r| == if n <= 0 then 0 else n * |s|
    decreases n
  {
    if n <= 0 then "" else s + Repeat(s, n - 1)
  }

  /** Python `a or b` on strings: `a` unless it is empty. */
  function OrElse(a: string, b: string): (r: string)
    ensures r == a || r == b
    ensures r == "" ==> a == "" && b == ""
  {
    if a != "" then a else b
  }
}
