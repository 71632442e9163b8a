/** `dict_to_html_list`: a dict rendered as a (possibly nested) HTML list, one `<li>`
    per key in insertion order. */
module HtmlList {
  import opened Dicts
  import opened PyText

  datatype ListKind = Unordered | Ordered

  datatype Error = ValueError(message: string)

  datatype Result<T> = Ok(value: T) | Err(error: Error)

  const InvalidListType := "Invalid list_type. Use 'unordered' or 'ordered'."

  /** The accepted spellings of `list_type`. */
  function ParseListType(listType: string): Option<ListKind>
  {
    if listType == "unordered" then Some(Unordered)
    else if listType == "ordered" then Some(Ordered)
    else None
  }

  function OpenTag(kind: ListKind): string
  {
    match kind
    case Unordered => "<ul>"
    case Ordered => "<ol>"
  }

  function CloseTag(kind: ListKind): string
  {
    match kind
    case Unordered => "</ul>"
    case Ordered => "</ol>"
  }

  /** `_dict_to_html_helper(data)` once `list_type` has been accepted. */
  function DictHtml(kind: ListKind, d: seq<Entry>): string
    decreases d, 1
  {
    OpenTag(kind) + ItemsHtml(kind, d) + CloseTag(kind)
  }

  /** The `<li>` items of the entries, in order. */
  function ItemsHtml(kind: ListKind, d: seq<Entry>): string
    decreases d, 0
  {
    if d == [] then ""
    else
      var e := d[0];
      assert e.1 < e;
      ItemHtml(kind, e.0, e.1) + ItemsHtml(kind, d[1..])
  }

  /** `<li>key: value</li>`; the value as a nested list for a dict, as a `<ul>` of
      its items for a list, and as `str(value)` otherwise. */
  function ItemHtml(kind: ListKind, key: string, v: Value): string
    decreases v, 1
  {
    "<li>" + key + ": " + ValueHtml(kind, v) + "</li>"
  }

  function ValueHtml(kind: ListKind, v: Value): string
    decreases v, 0
  {
    match v
    case Dict(es) => DictHtml(kind, es)
    case List(xs) => "<ul>" + ListItemsHtml(xs) + "</ul>"
    case _ => StrOf(v)
  }

  /** `<li>str(item)</li>` for every item of a list. */
  function ListItemsHtml(xs: seq<Value>): string
  {
    if xs == [] then "" else "<li>" + StrOf(xs[0]) + "</li>" + ListItemsHtml(xs[1..])
  }

  /** dict_to_html_list(data, list_type) */
  function DictToHtmlList(data: seq<Entry>, listType: string): (r: Result<string>)
    ensures r.Err? <==> listType != "unordered" && listType != "ordered"
    ensures r.Err? ==> r.error == ValueError(InvalidListType)
  {
    match ParseListType(listType)
    case Some(kind) => Ok(DictHtml(kind, data))
    case None => Err(ValueError(InvalidListType))
  }

  // ---------------------------------------------------------------------------

  /** The output opens with the list tag list_type names and closes with its end tag. */
  lemma DictToHtmlListWrapped(data: seq<Entry>, listType: string)
    requires listType == "unordered" || listType == "ordered"
    ensures DictToHtmlList(data, listType).Ok?
    ensures var html := DictToHtmlList(data, listType).value;
      var (open, close) := if listType == "unordered" then ("<ul>", "</ul>") else ("<ol>", "</ol>");
      && |html| >= |open| + |close|
      && html[..|open|] == open
      && html[|html| - |close|..] == close
  {
    var kind := ParseListType(listType).value;
    var html := DictHtml(kind, data);
    var mid := ItemsHtml(kind, data);
    assert html == OpenTag(kind) + (mid + CloseTag(kind));
    assert html == (OpenTag(kind) + mid) + CloseTag(kind);
  }

  /** An empty dict gives just the opening and closing tags. */
  lemma DictToHtmlListEmpty()
    ensures DictToHtmlList([], "unordered") == Ok("<ul></ul>")
    ensures DictToHtmlList([], "ordered") == Ok("<ol></ol>")
  {
    assert "<ul>" + "" + "</ul>" == "<ul></ul>";
    assert "<ol>" + "" + "</ol>" == "<ol></ol>";
  }

  /** One item per key, in insertion order: the items of two dicts laid end to end
      are the items of the first followed by those of the second. */
  lemma {:induction false} ItemsHtmlAppend(kind: ListKind, a: seq<Entry>, b: seq<Entry>)
    ensures ItemsHtml(kind, a + b) == ItemsHtml(kind, a) + ItemsHtml(kind, b)
  {
    if a != [] {
      assert (a + b)[0] == a[0];
      assert (a + b)[1..] == a[1..] + b;
      ItemsHtmlAppend(kind, a[1..], b);
    } else {
      assert a + b == b;
    }
  }

  /** The items of a dict are its entries' items, one after another. */
  lemma {:induction false} ItemsHtmlIsConcat(kind: ListKind, d: seq<Entry>)
    ensures ItemsHtml(kind, d) == Concat(seq(|d|, i requires 0 <= i < |d| => ItemHtml(kind, d[i].0, d[i].1)))
  {
    if d != [] {
      ItemsHtmlIsConcat(kind, d[1..]);
      var parts := seq(|d|, i requires 0 <= i < |d| => ItemHtml(kind, d[i].0, d[i].1));
      assert parts[1..] == seq(|d[1..]|, i requires 0 <= i < |d[1..]| => ItemHtml(kind, d[1..][i].0, d[1..][i].1));
    }
  }

  function Concat(parts: seq<string>): string
  {
    if parts == [] then "" else parts[0] + Concat(parts[1..])
  }

  /** No value of the dict is itself a dict. */
  predicate NoNestedDict(d: seq<Entry>)
  {
    forall i :: 0 <= i < |d| ==> !d[i].1.Dict?
  }

  /** Lists are `<ul>` in both modes: when no value is a dict, the ordered and the
      unordered renderings have the same items. */
  lemma {:induction false} ItemsSameWithoutDicts(d: seq<Entry>)
    requires NoNestedDict(d)
    ensures ItemsHtml(Ordered, d) == ItemsHtml(Unordered, d)
  {
    if d != [] {
      assert d[0] in d;
      assert NoNestedDict(d[1..]) by {
        forall i | 0 <= i < |d[1..]| ensures !d[1..][i].1.Dict? { assert d[1..][i] == d[i + 1]; }
      }
      ItemsSameWithoutDicts(d[1..]);
      assert ValueHtml(Ordered, d[0].1) == ValueHtml(Unordered, d[0].1);
    }
  }

  // ---------------------------------------------------------------------------
  // The list type applies at every depth: counting `<ol>` tags

  /** The number of places where t occurs in s. */
  function Occurrences(s: string, t: string): nat
    requires t != []
    decreases |s|
  {
    if |s| < |t| then 0 else (if s[..|t|] == t then 1 else 0) + Occurrences(s[1..], t)
  }

  /** No occurrence of t can straddle the joint of a and b: a does not end with a
      character of t other than its last, or b does not start with one other than its
      first. */
  predicate Joinable(a: string, b: string, t: string)
    requires t != []
  {
    a == [] || b == [] || a[|a| - 1] !in t[..|t| - 1] || b[0] !in t[1..]
  }

  lemma {:induction false} OccurrencesAppend(a: string, b: string, t: string)
    requires t != [] && Joinable(a, b, t)
    ensures Occurrences(a + b, t) == Occurrences(a, t) + Occurrences(b, t)
    decreases |a|
  {
    if a == [] {
      assert a + b == b;
    } else if b == [] {
      assert a + b == a;
    } else {
      assert (a + b)[1..] == a[1..] + b;
      assert a[1..] != [] ==> a[1..][|a[1..]| - 1] == a[|a| - 1];
      OccurrencesAppend(a[1..], b, t);
      if |a| >= |t| {
        assert (a + b)[..|t|] == a[..|t|];
      } else if |a + b| >= |t| {
        var w := (a + b)[..|t|];
        assert w[|a| - 1] == a[|a| - 1] && w[|a|] == b[0];
        assert t[..|t| - 1][|a| - 1] == t[|a| - 1];
        assert t[1..][|a| - 1] == t[|a|];
        assert w != t;
      }
    }
  }

  lemma {:induction false} OccurrencesAbsent(s: string, t: string)
    requires t != [] && t[0] !in s
    ensures Occurrences(s, t) == 0
    decreases |s|
  {
    if |s| >= |t| {
      assert s[..|t|][0] == s[0];
      assert t[0] !in s[1..] by {
        forall i | 0 <= i < |s[1..]| ensures s[1..][i] != t[0] { assert s[1..][i] == s[i + 1]; }
      }
      OccurrencesAbsent(s[1..], t);
    }
  }

  /** A joint after a closing `>` or before an opening `<` splits no `<ol>`. */
  lemma AppendAtTag(a: string, b: string)
    requires (a != [] && a[|a| - 1] in ">: ") || (b != [] && b[0] in "<:")
    ensures Occurrences(a + b, "<ol>") == Occurrences(a, "<ol>") + Occurrences(b, "<ol>")
  {
    assert "<ol>"[..3] == "<ol" && "<ol>"[1..] == "ol>";
    OccurrencesAppend(a, b, "<ol>");
  }

  /** The fixed pieces of the markup hold `<ol>` only in the ordered opening tag. */
  lemma OlTagCounts()
    ensures Occurrences("<ol>", "<ol>") == 1
    ensures Occurrences("</ol>", "<ol>") == 0
  {
    OccurrencesAbsent("ol>"[1..], "<ol>");
    OccurrencesAbsent("/ol>", "<ol>");
  }

  lemma UlTagCounts()
    ensures Occurrences("<ul>", "<ol>") == 0
    ensures Occurrences("</ul>", "<ol>") == 0
  {
    assert "<ul>" != "<ol>" by { assert "<ul>"[1] != "<ol>"[1]; }
    OccurrencesAbsent("ul>", "<ol>");
    OccurrencesAbsent("/ul>", "<ol>");
  }

  lemma ItemTagCounts()
    ensures Occurrences("<li>", "<ol>") == 0
    ensures Occurrences("</li>", "<ol>") == 0
    ensures Occurrences(": ", "<ol>") == 0
  {
    assert "<li>" != "<ol>" by { assert "<li>"[1] != "<ol>"[1]; }
    OccurrencesAbsent("li>", "<ol>");
    OccurrencesAbsent("/li>", "<ol>");
    OccurrencesAbsent(": ", "<ol>");
  }

  /** The number of dict values at every depth of d (dicts inside lists are written
      with `str` and open no list). */
  function NestedDicts(d: seq<Entry>): nat
    decreases d
  {
    if d == [] then 0
    else
      var e := d[0];
      assert e.1 < e;
      (if e.1.Dict? then 1 + NestedDicts(e.1.entries) else 0) + NestedDicts(d[1..])
  }

  /** With `'unordered'` no `<ol>` appears anywhere, and with `'ordered'` one opens for
      the dict itself and one for each dict value at every depth: nested dicts take the
      parent's list type. Keys and strings are assumed free of `<`. */
  lemma DictToHtmlListOrderedTags(data: seq<Entry>, listType: string)
    requires listType == "unordered" || listType == "ordered"
    requires LacksEntries(data, '<')
    ensures DictToHtmlList(data, listType).Ok?
    ensures Occurrences(DictToHtmlList(data, listType).value, "<ol>") ==
      if listType == "ordered" then 1 + NestedDicts(data) else 0
  {
    DictOlCount(ParseListType(listType).value, data);
  }

  lemma {:induction false} DictOlCount(kind: ListKind, d: seq<Entry>)
    requires LacksEntries(d, '<')
    ensures Occurrences(DictHtml(kind, d), "<ol>") == if kind == Ordered then 1 + NestedDicts(d) else 0
    decreases d, 1
  {
    var items := ItemsHtml(kind, d);
    var open, close := OpenTag(kind), CloseTag(kind);
    ItemsOlCount(kind, d);
    ListTagCounts(kind);
    AppendAtTag(open, items);
    AppendAtTag(open + items, close);
  }

  /** The tags around a dict's items: only the ordered opening tag is an `<ol>`. */
  lemma ListTagCounts(kind: ListKind)
    ensures Occurrences(OpenTag(kind), "<ol>") == if kind == Ordered then 1 else 0
    ensures Occurrences(CloseTag(kind), "<ol>") == 0
    ensures OpenTag(kind)[|OpenTag(kind)| - 1] == '>' && CloseTag(kind)[0] == '<'
  {
    match kind
    case Ordered => OlTagCounts();
    case Unordered => UlTagCounts();
  }

  lemma {:induction false} ItemsOlCount(kind: ListKind, d: seq<Entry>)
    requires LacksEntries(d, '<')
    ensures Occurrences(ItemsHtml(kind, d), "<ol>") == if kind == Ordered then NestedDicts(d) else 0
    decreases d, 0
  {
    if d != [] {
      var e := d[0];
      assert e.1 < e;
      var item := ItemHtml(kind, e.0, e.1);
      ItemOlCount(kind, e.0, e.1);
      ItemsOlCount(kind, d[1..]);
      assert item[|item| - 1] == '>';
      AppendAtTag(item, ItemsHtml(kind, d[1..]));
    }
  }

  lemma {:induction false} ItemOlCount(kind: ListKind, key: string, v: Value)
    requires '<' !in key && Lacks(v, '<')
    ensures Occurrences(ItemHtml(kind, key, v), "<ol>") ==
      if kind == Ordered && v.Dict? then 1 + NestedDicts(v.entries) else 0
    decreases v, 1
  {
    var t := "<ol>";
    var value := ValueHtml(kind, v);
    ValueOlCount(kind, v);
    ItemTagCounts();
    OccurrencesAbsent(key, t);
    var a := "<li>" + key;
    var b := a + ": ";
    var c := b + value;
    AppendAtTag("<li>", key);
    AppendAtTag(a, ": ");
    AppendAtTag(b, value);
    AppendAtTag(c, "</li>");
  }

  lemma {:induction false} ValueOlCount(kind: ListKind, v: Value)
    requires Lacks(v, '<')
    ensures Occurrences(ValueHtml(kind, v), "<ol>") ==
      if kind == Ordered && v.Dict? then 1 + NestedDicts(v.entries) else 0
    decreases v, 0
  {
    var t := "<ol>";
    match v
    case Dict(es) =>
      DictOlCount(kind, es);
    case List(xs) =>
      ListOlCount(xs);
    case _ =>
      StrOfLacks(v, '<');
      OccurrencesAbsent(StrOf(v), t);
  }

  /** A list value opens a `<ul>` whatever the list type, and no `<ol>`. */
  lemma ListOlCount(xs: seq<Value>)
    requires LacksItems(xs, '<')
    ensures Occurrences("<ul>" + ListItemsHtml(xs) + "</ul>", "<ol>") == 0
  {
    var items := ListItemsHtml(xs);
    ListItemsOlCount(xs);
    UlTagCounts();
    AppendAtTag("<ul>", items);
    AppendAtTag("<ul>" + items, "</ul>");
  }

  lemma {:induction false} ListItemsOlCount(xs: seq<Value>)
    requires LacksItems(xs, '<')
    ensures Occurrences(ListItemsHtml(xs), "<ol>") == 0
    decreases xs
  {
    if xs != [] {
      var t := "<ol>";
      var text := StrOf(xs[0]);
      StrOfLacks(xs[0], '<');
      OccurrencesAbsent(text, t);
      ListItemsOlCount(xs[1..]);
      ItemTagCounts();
      AppendAtTag("<li>", text);
      AppendAtTag("<li>" + text, "</li>");
      AppendAtTag("<li>" + text + "</li>", ListItemsHtml(xs[1..]));
    }
  }
}
