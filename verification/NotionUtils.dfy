/**
 * The shared helpers of notion_utils.js: the file-name sanitiser, the retry
 * loop around Notion API calls, the page-title lookup and the progress
 * counter used by batch operations.
 *
 * The API call `withRetry` wraps is an oracle: `fn(n)` is what the call
 * returns or throws on attempt `n`. The back-off waits, console output and
 * timing are left out.
 */
module NotionUtils {

  import opened Common
  import opened Text
  import opened Properties

  // ------------------------------------------------------ sanitizeFilename

  /** The characters the first replace removes: `<>:"/\|?*` and the controls `\x00`-`\x1f`. */
  predicate Invalid(c: char) {
    c == '<' || c == '>' || c == ':' || c == '"' || c == '/' || c == '\\' || c == '|' ||
    c == '?' || c == '*' || c <= '\U{1F}'
  }

  function Allowed(c: char): bool { !Invalid(c) }

  /** A character that is not JavaScript white space. */
  function Visible(c: char): bool { !IsJsSpace(c) }

  /** What both replaces together keep from a name: the allowed, visible characters. */
  function Kept(c: char): bool { Allowed(c) && Visible(c) }

  /** `.replace(/\s+/g, ' ')`: every run of white space becomes one space. */
  function Collapse(s: string): (r: string)
    ensures |r| <= |s|
    decreases |s|
  {
    if s == [] then []
    else if IsJsSpace(s[0]) then [' '] + Collapse(TrimLeft(s[1..], IsJsSpace))
    else [s[0]] + Collapse(s[1..])
  }

  /** The fallback for an empty name or an empty result. */
  const Untitled := "untitled"

  /** `sanitizeFilename(name, maxLength)`; the default `maxLength` is 100. */
  function SanitizeFilename(name: string, maxLength: int): (r: string)
    ensures r != ""
    ensures r == Untitled || |r| <= maxLength
  {
    if name == "" then Untitled
    else
      var cut := Take(JsTrim(Collapse(Filter(name, Allowed))), maxLength);
      if cut == "" then Untitled else cut
  }

  /** No white space but a single space, and never two in a row. */
  predicate SingleSpaced(s: string) {
    forall i :: 0 <= i < |s| && IsJsSpace(s[i]) ==> s[i] == ' ' && (i + 1 < |s| ==> !IsJsSpace(s[i + 1]))
  }

  lemma CollapseHead(t: string)
    requires t != [] && !IsJsSpace(t[0])
    ensures Collapse(t) != [] && Collapse(t)[0] == t[0]
  {
  }

  /** One more character in front keeps a string single-spaced when it is not white space next to white space. */
  lemma ConsSingleSpaced(h: char, r: string)
    requires SingleSpaced(r)
    requires IsJsSpace(h) ==> h == ' ' && (r != [] ==> !IsJsSpace(r[0]))
    ensures SingleSpaced([h] + r)
  {
    forall i | 1 <= i < |[h] + r| ensures ([h] + r)[i] == r[i - 1] { }
  }

  /** Collapsing leaves single spaces only. */
  lemma {:induction false} CollapseSingleSpaced(s: string)
    ensures SingleSpaced(Collapse(s))
    decreases |s|
  {
    if s != [] {
      if IsJsSpace(s[0]) {
        var t := TrimLeft(s[1..], IsJsSpace);
        CollapseSingleSpaced(t);
        if t != [] { CollapseHead(t); }
        ConsSingleSpaced(' ', Collapse(t));
      } else {
        CollapseSingleSpaced(s[1..]);
        ConsSingleSpaced(s[0], Collapse(s[1..]));
      }
    }
  }

  /** A property every character has, and a space has, survives collapsing. */
  lemma {:induction false} CollapseKeeps(s: string, p: char -> bool)
    requires p(' ') && forall i :: 0 <= i < |s| ==> p(s[i])
    ensures forall i :: 0 <= i < |Collapse(s)| ==> p(Collapse(s)[i])
    decreases |s|
  {
    if s != [] {
      var rest := if IsJsSpace(s[0]) then TrimLeft(s[1..], IsJsSpace) else s[1..];
      assert forall i :: 0 <= i < |rest| ==> rest[i] == s[|s| - |rest| + i];
      CollapseKeeps(rest, p);
      var head := if IsJsSpace(s[0]) then ' ' else s[0];
      assert Collapse(s) == [head] + Collapse(rest);
    }
  }

  /** Filtering removes nothing that is kept when no character is kept. */
  lemma {:induction false} FilterNone(s: string, keep: char -> bool)
    requires forall i :: 0 <= i < |s| ==> !keep(s[i])
    ensures Filter(s, keep) == []
  {
    if s != [] { FilterNone(s[1..], keep); }
  }

  /** Collapsing keeps the visible characters, in order. */
  lemma {:induction false} CollapseVisible(s: string)
    ensures Filter(Collapse(s), Visible) == Filter(s, Visible)
    decreases |s|
  {
    if s != [] {
      if IsJsSpace(s[0]) {
        var u := s[1..];
        var t := TrimLeft(u, IsJsSpace);
        CollapseVisible(t);
        TrimLeftAll(u, IsJsSpace);
        var k := |u| - |t|;
        assert u == u[..k] + t;
        FilterAppend(u[..k], t, Visible);
        FilterNone(u[..k], Visible);
        assert Collapse(s) == [' '] + Collapse(t);
        assert Filter(Collapse(s), Visible) == Filter(Collapse(t), Visible);
      } else {
        CollapseVisible(s[1..]);
        assert Collapse(s) == [s[0]] + Collapse(s[1..]);
      }
    }
  }

  /** Trimming white space on the right keeps the visible characters. */
  lemma TrimRightVisible(s: string)
    ensures Filter(TrimRight(s, IsJsSpace), Visible) == Filter(s, Visible)
  {
    var r := TrimRight(s, IsJsSpace);
    assert s == r + s[|r|..];
    FilterAppend(r, s[|r|..], Visible);
    FilterNone(s[|r|..], Visible);
  }

  /** Trimming white space on the left keeps the visible characters. */
  lemma TrimLeftVisible(r: string)
    ensures Filter(TrimLeft(r, IsJsSpace), Visible) == Filter(r, Visible)
  {
    var t := TrimLeft(r, IsJsSpace);
    TrimLeftAll(r, IsJsSpace);
    var k := |r| - |t|;
    assert r == r[..k] + t;
    FilterAppend(r[..k], t, Visible);
    FilterNone(r[..k], Visible);
  }

  /** Trimming keeps the visible characters, in order. */
  lemma JsTrimVisible(s: string)
    ensures Filter(JsTrim(s), Visible) == Filter(s, Visible)
  {
    TrimRightVisible(s);
    TrimLeftVisible(TrimRight(s, IsJsSpace));
  }

  /** The trimmed string is a slice of the original, ending where trailing white space began. */
  lemma JsTrimSlice(s: string)
    ensures var e := |TrimRight(s, IsJsSpace)|;
      |JsTrim(s)| <= e <= |s| && JsTrim(s) == s[e - |JsTrim(s)|..e]
  {
    var r := TrimRight(s, IsJsSpace);
    assert r == s[..|r|];
  }

  /** Filtering twice keeps what both filters keep. */
  lemma {:induction false} FilterTwice(s: string, p: char -> bool, q: char -> bool, pq: char -> bool)
    requires forall c :: pq(c) == (p(c) && q(c))
    ensures Filter(Filter(s, p), q) == Filter(s, pq)
  {
    if s != [] {
      FilterTwice(s[1..], p, q, pq);
      var head := if p(s[0]) then [s[0]] else [];
      FilterAppend(head, Filter(s[1..], p), q);
    }
  }

  /** A non-empty string without visible characters is not left by trimming. */
  lemma JsTrimEmpty(s: string)
    requires Filter(s, Visible) == []
    ensures JsTrim(s) == []
  {
    JsTrimVisible(s);
  }

  /** Trimming and cutting leave a slice that does not start with white space. */
  lemma CutSlice(c: string, maxLength: int) returns (a: nat)
    ensures var cut := Take(JsTrim(c), maxLength);
      a + |cut| <= |c| && cut == c[a..a + |cut|] && (cut != [] ==> !IsJsSpace(cut[0]))
  {
    var t := JsTrim(c);
    var cut := Take(t, maxLength);
    JsTrimSlice(c);
    var e := |TrimRight(c, IsJsSpace)|;
    a := e - |t|;
    assert cut == t[..|cut|];
  }

  /** A property of every character holds in every slice. */
  lemma SliceKeeps(c: string, d: string, a: nat, p: char -> bool)
    requires a + |d| <= |c| && d == c[a..a + |d|]
    requires forall i :: 0 <= i < |c| ==> p(c[i])
    ensures forall i :: 0 <= i < |d| ==> p(d[i])
  {
    forall i | 0 <= i < |d| ensures p(d[i]) {
      assert d[i] == c[a + i];
    }
  }

  lemma SliceSingleSpaced(c: string, d: string, a: nat)
    requires a + |d| <= |c| && d == c[a..a + |d|] && SingleSpaced(c)
    ensures SingleSpaced(d)
  {
    forall i | 0 <= i < |d| && IsJsSpace(d[i]) ensures d[i] == ' ' && (i + 1 < |d| ==> !IsJsSpace(d[i + 1])) {
      assert d[i] == c[a + i];
      if i + 1 < |d| { assert d[i + 1] == c[a + i + 1]; }
    }
  }

  lemma UntitledShape()
    ensures !IsJsSpace(Untitled[0]) && (forall i :: 0 <= i < |Untitled| ==> Allowed(Untitled[i])) && SingleSpaced(Untitled)
  {
    assert Untitled == ['u', 'n', 't', 'i', 't', 'l', 'e', 'd'];
  }

  /**
   * The result never starts with white space, keeps no character of
   * `<>:"/\|?*` or a control character, and has only single spaces.
   */
  lemma SanitizeShape(name: string, maxLength: int)
    ensures var r := SanitizeFilename(name, maxLength);
      !IsJsSpace(r[0]) &&
      (forall i :: 0 <= i < |r| ==> Allowed(r[i])) &&
      SingleSpaced(r)
  {
    var r := SanitizeFilename(name, maxLength);
    if r == Untitled {
      UntitledShape();
    } else {
      var f := Filter(name, Allowed);
      var c := Collapse(f);
      var a := CutSlice(c, maxLength);
      CollapseKeeps(f, Allowed);
      SliceKeeps(c, r, a, Allowed);
      CollapseSingleSpaced(f);
      SliceSingleSpaced(c, r, a);
    }
  }

  /**
   * An empty name, a length limit of 0 or less, or a name with no allowed
   * visible character gives `untitled`.
   */
  lemma SanitizeFallback(name: string, maxLength: int)
    requires name == "" || maxLength <= 0 || Filter(name, Kept) == []
    ensures SanitizeFilename(name, maxLength) == Untitled
  {
    if name != "" && maxLength > 0 {
      var f := Filter(name, Allowed);
      FilterTwice(name, Allowed, Visible, Kept);
      CollapseVisible(f);
      JsTrimEmpty(Collapse(f));
    }
  }

  /**
   * When nothing is cut, the visible characters of the result are exactly
   * the allowed visible characters of the name, in order.
   */
  lemma SanitizeKeepsContent(name: string, maxLength: int)
    requires |name| <= maxLength && Filter(name, Kept) != []
    ensures Filter(SanitizeFilename(name, maxLength), Visible) == Filter(name, Kept)
  {
    var f := Filter(name, Allowed);
    FilterTwice(name, Allowed, Visible, Kept);
    CollapseVisible(f);
    var t := JsTrim(Collapse(f));
    JsTrimVisible(Collapse(f));
    JsTrimSlice(Collapse(f));
    assert Take(t, maxLength) == t;
  }

  // --------------------------------------------------------------- withRetry

  /** The `APIErrorCode` values `withRetry` tells apart; any other code is `OtherCode`. */
  datatype ErrorCode = RateLimited | ServiceUnavailable | Unauthorized | InvalidRequest | ObjectNotFound | OtherCode

  /** A thrown error: whether `isNotionClientError` holds, and its code. */
  datatype Failure = Failure(fromNotion: bool, code: ErrorCode, message: string)

  /** One call of `fn`: a value or a thrown error. */
  datatype Call<T> = Returned(value: T) | Threw(error: Failure)

  /** What `withRetry` does in the end: return a value, or throw `lastError` (`None` when never set). */
  datatype Retried<T> = Success(value: T) | Rethrown(error: Option<Failure>)

  /** `CONFIG.MAX_RETRIES`. */
  const MaxRetries := 3

  /** `options.maxRetries || CONFIG.MAX_RETRIES`: an absent or zero option means 3. */
  function EffectiveRetries(option: Option<int>): (n: int)
    ensures option.Some? && option.value != 0 ==> n == option.value
    ensures option.None? || option.value == 0 ==> n == MaxRetries
  {
    match option
    case Some(m) => if m != 0 then m else MaxRetries
    case None => MaxRetries
  }

  /** Authorisation and validation errors are thrown at once. */
  predicate Fatal(e: Failure) {
    e.fromNotion && (e.code == Unauthorized || e.code == InvalidRequest || e.code == ObjectNotFound)
  }

  /** A call that threw an error the loop goes on after. */
  predicate Retryable<T>(c: Call<T>) {
    c.Threw? && !Fatal(c.error)
  }

  /** The loop from attempt `attempt` on: the outcome and how many calls were made in all. */
  function RetryFrom<T>(fn: nat -> Call<T>, attempt: nat, maxRetries: int, last: Option<Failure>): (Retried<T>, nat)
    decreases if attempt <= maxRetries then maxRetries - attempt + 1 else 0
  {
    if attempt > maxRetries then (Rethrown(last), attempt)
    else
      match fn(attempt)
      case Returned(v) => (Success(v), attempt + 1)
      case Threw(e) =>
        if Fatal(e) then (Rethrown(Some(e)), attempt + 1)
        else RetryFrom(fn, attempt + 1, maxRetries, Some(e))
  }

  /** `withRetry(fn, {maxRetries})` once the option is read. */
  function Retry<T>(fn: nat -> Call<T>, maxRetries: int): (Retried<T>, nat) {
    RetryFrom(fn, 0, maxRetries, None)
  }

  /** The call that ends the loop decides the outcome: its value, or its error. */
  function Ending<T>(c: Call<T>): Retried<T> {
    match c
    case Returned(v) => Success(v)
    case Threw(e) => Rethrown(Some(e))
  }

  lemma {:induction false} RetryStopsAt<T>(fn: nat -> Call<T>, attempt: nat, maxRetries: int,
                                           last: Option<Failure>, k: nat)
    requires attempt <= k <= maxRetries && !Retryable(fn(k))
    requires forall j :: attempt <= j < k ==> Retryable(fn(j))
    ensures RetryFrom(fn, attempt, maxRetries, last) == (Ending(fn(k)), k + 1)
    decreases k - attempt
  {
    if attempt < k {
      assert Retryable(fn(attempt));
      RetryStopsAt(fn, attempt + 1, maxRetries, Some(fn(attempt).error), k);
    }
  }

  lemma {:induction false} RetryRunsOut<T>(fn: nat -> Call<T>, attempt: nat, maxRetries: int,
                                           last: Option<Failure>)
    requires attempt <= maxRetries
    requires forall j :: attempt <= j <= maxRetries ==> Retryable(fn(j))
    ensures RetryFrom(fn, attempt, maxRetries, last) == (Ending(fn(maxRetries)), maxRetries + 1)
    decreases maxRetries - attempt
  {
    assert Retryable(fn(attempt));
    if attempt < maxRetries {
      RetryRunsOut(fn, attempt + 1, maxRetries, Some(fn(attempt).error));
    }
  }

  /**
   * The first call that returns, or throws an error that is not retried,
   * ends the loop: its value is returned or its error thrown, after
   * exactly that many calls.
   */
  lemma RetryFirstEnding<T>(fn: nat -> Call<T>, maxRetries: int, k: nat)
    requires k <= maxRetries && !Retryable(fn(k))
    requires forall j :: 0 <= j < k ==> Retryable(fn(j))
    ensures Retry(fn, maxRetries) == (Ending(fn(k)), k + 1)
  {
    RetryStopsAt(fn, 0, maxRetries, None, k);
  }

  /**
   * When every attempt throws an error that is retried, `fn` is called
   * `maxRetries + 1` times and the last error is thrown.
   */
  lemma RetryExhausted<T>(fn: nat -> Call<T>, maxRetries: int)
    requires 0 <= maxRetries
    requires forall j :: 0 <= j <= maxRetries ==> Retryable(fn(j))
    ensures Retry(fn, maxRetries) == (Ending(fn(maxRetries)), maxRetries + 1)
  {
    RetryRunsOut(fn, 0, maxRetries, None);
  }

  /** A negative limit makes no call and throws `undefined`. */
  lemma RetryNegative<T>(fn: nat -> Call<T>, maxRetries: int)
    requires maxRetries < 0
    ensures Retry(fn, maxRetries) == (Rethrown(None), 0)
  {
  }

  /** `fn` is never called more than `maxRetries + 1` times, and a value returned is one `fn` gave. */
  lemma {:induction false} RetryFromBound<T>(fn: nat -> Call<T>, attempt: nat, maxRetries: int, last: Option<Failure>)
    ensures var (r, calls) := RetryFrom(fn, attempt, maxRetries, last);
      calls <= (if attempt <= maxRetries then maxRetries + 1 else attempt) &&
      (r.Success? ==> attempt < calls && fn(calls - 1) == Returned(r.value))
    decreases if attempt <= maxRetries then maxRetries - attempt + 1 else 0
  {
    if attempt <= maxRetries && Retryable(fn(attempt)) {
      RetryFromBound(fn, attempt + 1, maxRetries, Some(fn(attempt).error));
    }
  }

  lemma RetryBound<T>(fn: nat -> Call<T>, maxRetries: int)
    ensures var (r, calls) := Retry(fn, maxRetries);
      (maxRetries >= 0 ==> calls <= maxRetries + 1) &&
      (r.Success? ==> 0 < calls && fn(calls - 1) == Returned(r.value))
  {
    RetryFromBound(fn, 0, maxRetries, None);
  }

  /** `maxRetries: 0` is read as the default: four calls when every one fails and is retried. */
  lemma ZeroMeansDefault<T>(fn: nat -> Call<T>)
    requires forall j :: 0 <= j <= 3 ==> Retryable(fn(j))
    ensures Retry(fn, EffectiveRetries(Some(0))) == (Ending(fn(3)), 4)
  {
    RetryExhausted(fn, 3);
  }

  /**
   * The `for` loop of `withRetry`: call `fn`, return its value, rethrow an
   * authorisation or validation error, and otherwise go on (after a wait
   * that is not modelled) until the attempts run out.
   */
  method WithRetry<T>(fn: nat -> Call<T>, maxRetriesOption: Option<int>) returns (outcome: Retried<T>, calls: nat)
    ensures (outcome, calls) == Retry(fn, EffectiveRetries(maxRetriesOption))
  {
    var maxRetries := EffectiveRetries(maxRetriesOption);
    var lastError: Option<Failure> := None;
    var attempt := 0;
    calls := 0;
    while attempt <= maxRetries
      invariant calls == attempt
      invariant Retry(fn, maxRetries) == RetryFrom(fn, attempt, maxRetries, lastError)
      decreases maxRetries + 1 - attempt
    {
      calls := calls + 1;
      match fn(attempt) {
        case Returned(v) =>
          return Success(v), calls;
        case Threw(error) =>
          lastError := Some(error);
          if error.fromNotion {
            if error.code == RateLimited || error.code == ServiceUnavailable {
              attempt := attempt + 1;
              continue;
            }
            if error.code == Unauthorized || error.code == InvalidRequest || error.code == ObjectNotFound {
              return Rethrown(Some(error)), calls;
            }
          }
      }
      attempt := attempt + 1;
    }
    return Rethrown(lastError), calls;
  }

  // ------------------------------------------------------------ getPageTitle

  /** The property names `getPageTitle` tries, in order. */
  const TitleNames := ["title", "Title", "Name", "name"]

  /** `getPageTitle`: `page` is `None` when `pages.retrieve` threw, even after retrying. */
  function GetPageTitle(page: Option<PropertyList>): (t: string)
    ensures t != ""
  {
    match page
    case None => "Untitled"
    case Some(props) => SelectTitle(props, TitleNames).GetOr("Untitled")
  }

  /**
   * The title is `Untitled` when the page could not be read or has no
   * title text; otherwise it is the text of one of its properties: that of
   * the first of `title`, `Title`, `Name`, `name` with text, else that of
   * the first title-typed property.
   */
  lemma GetPageTitleCases(page: Option<PropertyList>)
    ensures page.None? ==> GetPageTitle(page) == "Untitled"
    ensures page.Some? && SelectTitle(page.value, TitleNames).None? ==> GetPageTitle(page) == "Untitled"
    ensures page.Some? && SelectTitle(page.value, TitleNames).Some? ==>
      exists i :: 0 <= i < |page.value| && page.value[i].1.firstText == Some(GetPageTitle(page))
    ensures forall k :: 0 <= k < |TitleNames| ==>
      page.Some? && NamedText(page.value, TitleNames[k]).Some? &&
      (forall m :: 0 <= m < k ==> NamedText(page.value, TitleNames[m]).None?) ==>
        GetPageTitle(page) == NamedText(page.value, TitleNames[k]).value
    ensures page.Some? && (forall k :: 0 <= k < |TitleNames| ==> NamedText(page.value, TitleNames[k]).None?) ==>
      GetPageTitle(page) == FirstTitleTyped(page.value).GetOr("Untitled")
  {
    if page.Some? {
      SelectTitleCases(page.value, TitleNames);
      forall k | 0 <= k < |TitleNames| && NamedText(page.value, TitleNames[k]).Some? &&
        (forall m :: 0 <= m < k ==> NamedText(page.value, TitleNames[m]).None?)
        ensures GetPageTitle(page) == NamedText(page.value, TitleNames[k]).value
      {
        SelectTitleAt(page.value, TitleNames, k);
      }
    }
  }

  // ---------------------------------------------------------- ProgressTracker

  /** `error.message || error`: the message when it is a non-empty string, else the thrown value as text. */
  function ErrorText(message: Option<string>, thrown: string): (t: string)
    ensures Truthy(message) ==> t == message.value
    ensures !Truthy(message) ==> t == thrown
  {
    if Truthy(message) then message.value else thrown
  }

  /** `ProgressTracker`: how many items were handled and which failed. */
  class ProgressTracker {
    const total: int
    /** `label`, a reserved word here. */
    const caption: string
    var current: int
    var errors: seq<(string, string)>

    constructor (total: int, caption: string)
      ensures this.total == total && this.caption == caption
      ensures current == 0 && errors == []
    {
      this.total := total;
      this.caption := caption;
      current := 0;
      errors := [];
    }

    /** The count `summary` reports as completed. */
    function Completed(): int
      reads this
    {
      current - |errors|
    }

    /** `increment(item)`: one more item handled. */
    method Increment(item: string)
      modifies this
      ensures current == old(current) + 1 && errors == old(errors)
      ensures Completed() == old(Completed()) + 1
    {
      current := current + 1;
    }

    /** `addError(item, error)`: one more failure, recorded last. */
    method AddError(item: string, message: Option<string>, thrown: string)
      modifies this
      ensures errors == old(errors) + [(item, ErrorText(message, thrown))] && current == old(current)
      ensures Completed() == old(Completed()) - 1
    {
      errors := errors + [(item, ErrorText(message, thrown))];
    }
  }
}
