/**
 * Picking a page title out of a Notion page's `properties`, the selection
 * shared by get_page_ids.js, notion_export.js and notion_utils.js: a list of
 * preferred property names first, then the first property of type `title`.
 *
 * A property is reduced to what the selection reads: its `type` and the
 * `plain_text` of the first element of its `title` array, when that exists
 * (`value.title?.[0]?.plain_text`). The properties object is its list of
 * entries in `Object.entries` order; names are unique, as in any JSON object
 * the API returns.
 */
module Properties {

  import opened Common

  datatype Property = Property(kind: string, firstText: Option<string>)

  type PropertyList = seq<(string, Property)>

  /** A JavaScript value that is a non-empty string is truthy. */
  predicate Truthy(t: Option<string>) {
    t.Some? && t.value != ""
  }

  /** `properties[name]`, the first entry with that name. */
  function Lookup(props: PropertyList, name: string): (r: Option<Property>)
    ensures r.Some? <==> exists i :: 0 <= i < |props| && props[i].0 == name
    ensures r.Some? ==> exists i :: 0 <= i < |props| && props[i].0 == name && props[i].1 == r.value
  {
    if props == [] then None
    else if props[0].0 == name then Some(props[0].1)
    else
      var r := Lookup(props[1..], name);
      assert forall i :: 0 <= i < |props[1..]| ==> props[1..][i] == props[i + 1];
      r
  }

  /** `properties[name]?.title?.[0]?.plain_text` when truthy. */
  function NamedText(props: PropertyList, name: string): (t: Option<string>)
    ensures t.Some? ==> Truthy(t)
  {
    match Lookup(props, name)
    case Some(p) => if Truthy(p.firstText) then p.firstText else None
    case None => None
  }

  /** The first preferred name whose property has a truthy title text. */
  function FirstNamed(props: PropertyList, names: seq<string>): (t: Option<string>)
    ensures t.Some? ==> Truthy(t)
    ensures t.None? <==> forall k :: 0 <= k < |names| ==> NamedText(props, names[k]).None?
    ensures forall k :: 0 <= k < |names| ==>
      NamedText(props, names[k]).Some? && (forall m :: 0 <= m < k ==> NamedText(props, names[m]).None?) ==>
        t == NamedText(props, names[k])
  {
    if names == [] then None
    else if NamedText(props, names[0]).Some? then NamedText(props, names[0])
    else
      var t := FirstNamed(props, names[1..]);
      assert forall k :: 1 <= k < |names| ==> names[k] == names[1..][k - 1];
      t
  }

  /** The entry is a `title` property with a truthy text. */
  predicate TitleTyped(p: Property) {
    p.kind == "title" && Truthy(p.firstText)
  }

  /** The loop over `Object.entries(properties)`: the first title-typed entry's text. */
  function FirstTitleTyped(props: PropertyList): (t: Option<string>)
    ensures t.Some? ==> Truthy(t)
    ensures t.None? <==> forall i :: 0 <= i < |props| ==> !TitleTyped(props[i].1)
  {
    if props == [] then None
    else if TitleTyped(props[0].1) then props[0].1.firstText
    else
      var t := FirstTitleTyped(props[1..]);
      assert forall i :: 1 <= i < |props| ==> props[i] == props[1..][i - 1];
      t
  }

  /** The fallback returns the text of the first title-typed entry. */
  lemma {:induction false} FirstTitleTypedIsFirst(props: PropertyList)
    requires FirstTitleTyped(props).Some?
    ensures exists i ::
      0 <= i < |props| && TitleTyped(props[i].1) &&
      props[i].1.firstText == FirstTitleTyped(props) &&
      forall j :: 0 <= j < i ==> !TitleTyped(props[j].1)
  {
    if !TitleTyped(props[0].1) {
      FirstTitleTypedIsFirst(props[1..]);
      var i :| 0 <= i < |props[1..]| && TitleTyped(props[1..][i].1) &&
        props[1..][i].1.firstText == FirstTitleTyped(props[1..]) &&
        forall j :: 0 <= j < i ==> !TitleTyped(props[1..][j].1);
      assert props[i + 1] == props[1..][i];
      assert forall j :: 1 <= j < i + 1 ==> props[j] == props[1..][j - 1];
    }
  }

  /** The preferred names in order, then the first title-typed property; `None` when neither has text. */
  function SelectTitle(props: PropertyList, names: seq<string>): (t: Option<string>)
    ensures t.Some? ==> t.value != ""
  {
    match FirstNamed(props, names)
    case Some(x) => Some(x)
    case None => FirstTitleTyped(props)
  }

  /**
   * Nothing is selected exactly when no preferred name has title text and
   * no entry is a title property with text; a selected text is always the
   * text of one of the page's properties.
   */
  lemma SelectTitleCases(props: PropertyList, names: seq<string>)
    ensures SelectTitle(props, names).None? <==>
      (forall k :: 0 <= k < |names| ==> NamedText(props, names[k]).None?) &&
      (forall i :: 0 <= i < |props| ==> !TitleTyped(props[i].1))
    ensures SelectTitle(props, names).Some? ==>
      exists i :: 0 <= i < |props| && props[i].1.firstText == SelectTitle(props, names)
  {
    var n := FirstNamed(props, names);
    if n.Some? {
      NamedTextSource(props, names, n);
    } else if FirstTitleTyped(props).Some? {
      FirstTitleTypedIsFirst(props);
    }
  }

  /**
   * A preferred-name text is that of the first preferred name with text,
   * and it comes from the property of that name.
   */
  lemma {:induction false} NamedTextSource(props: PropertyList, names: seq<string>, n: Option<string>)
    requires n == FirstNamed(props, names) && n.Some?
    ensures exists k :: 0 <= k < |names| && NamedText(props, names[k]) == n &&
                        (forall m :: 0 <= m < k ==> NamedText(props, names[m]).None?)
    ensures exists i :: 0 <= i < |props| && props[i].1.firstText == n
    decreases names
  {
    if NamedText(props, names[0]).Some? {
      var p := Lookup(props, names[0]);
      var i :| 0 <= i < |props| && props[i].0 == names[0] && props[i].1 == p.value;
    } else {
      NamedTextSource(props, names[1..], n);
      var k :| 0 <= k < |names[1..]| && NamedText(props, names[1..][k]) == n &&
        (forall m :: 0 <= m < k ==> NamedText(props, names[1..][m]).None?);
      assert names[k + 1] == names[1..][k];
      assert forall m :: 1 <= m < k + 1 ==> names[m] == names[1..][m - 1];
    }
  }

  /** The k-th preferred name wins when it has title text and no earlier one has. */
  lemma SelectTitleAt(props: PropertyList, names: seq<string>, k: nat)
    requires k < |names| && NamedText(props, names[k]).Some?
    requires forall m :: 0 <= m < k ==> NamedText(props, names[m]).None?
    ensures SelectTitle(props, names) == NamedText(props, names[k])
  {
  }

  /** Without title text under any preferred name, the first title-typed property decides. */
  lemma SelectTitleFallback(props: PropertyList, names: seq<string>)
    requires forall k :: 0 <= k < |names| ==> NamedText(props, names[k]).None?
    ensures SelectTitle(props, names) == FirstTitleTyped(props)
  {
  }

  /** A truthy property under the first preferred name wins over everything else. */
  lemma FirstNameWins(props: PropertyList, names: seq<string>)
    requires names != [] && NamedText(props, names[0]).Some?
    ensures SelectTitle(props, names) == NamedText(props, names[0])
  {
  }
}
