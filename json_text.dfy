/** `json_stringify_html`: a nested dict written one key per line, each nesting level
    indented by `indent` more spaces, every line ending in `<br>`, the lines joined
    by newlines. */
module JsonText {
  import opened Dicts
  import opened PyText

  /** `' ' * n`, which is empty for n <= 0. */
  function Spaces(n: int): (r: string)
    ensures |r| == if n <= 0 then 0 else n
    ensures forall i :: 0 <= i < |r| ==> r[i] == ' '
  {
    if n <= 0 then "" else " " + Spaces(n - 1)
  }

  /** `format_helper(data, level)` */
  function FormatLines(d: seq<Entry>, level: int, indent: int): seq<string>
    decreases d
  {
    if d == [] then []
    else
      var e := d[0];
      assert e.1 < e;
      EntryLines(e.0, e.1, level, indent) + FormatLines(d[1..], level, indent)
  }

  /** The lines one key contributes: a `key:<br>` header followed by the nested dict's
      lines one level deeper, or a single `key: value<br>`. */
  function EntryLines(key: string, v: Value, level: int, indent: int): seq<string>
    decreases v
  {
    match v
    case Dict(es) => [Spaces(level) + key + ":<br>"] + FormatLines(es, level + indent, indent)
    case _ => [Spaces(level) + key + ": " + StrOf(v) + "<br>"]
  }

  /** json_stringify_html(data, indent) */
  function JsonStringifyHtml(data: seq<Entry>, indent: int): string
  {
    Join(FormatLines(data, indent, indent), "\n")
  }

  // ---------------------------------------------------------------------------
  // The outline: every key of every level, in document order, with its depth

  /** One key of the outline; `leaf` is None for a key whose value is a dict. */
  datatype Row = Row(depth: nat, key: string, leaf: Option<Value>)

  function Outline(d: seq<Entry>, depth: nat): seq<Row>
    decreases d
  {
    if d == [] then []
    else
      var e := d[0];
      assert e.1 < e;
      EntryOutline(e.0, e.1, depth) + Outline(d[1..], depth)
  }

  function EntryOutline(key: string, v: Value, depth: nat): seq<Row>
    decreases v
  {
    match v
    case Dict(es) => [Row(depth, key, None)] + Outline(es, depth + 1)
    case _ => [Row(depth, key, Some(v))]
  }

  /** The number of keys at all levels. */
  function TotalKeys(d: seq<Entry>): nat
    decreases d
  {
    if d == [] then 0
    else
      var e := d[0];
      assert e.1 < e;
      1 + (if e.1.Dict? then TotalKeys(e.1.entries) else 0) + TotalKeys(d[1..])
  }

  /** The line of a row: indented by `indent` spaces per level, the top level already
      indented once. */
  function RenderRow(row: Row, indent: int): string
  {
    Spaces(indent * (row.depth + 1)) + row.key +
      match row.leaf
      case None => ":<br>"
      case Some(v) => ": " + StrOf(v) + "<br>"
  }

  function RenderRows(rows: seq<Row>, indent: int): (lines: seq<string>)
    ensures |lines| == |rows|
    ensures forall i :: 0 <= i < |rows| ==> lines[i] == RenderRow(rows[i], indent)
  {
    if rows == [] then [] else [RenderRow(rows[0], indent)] + RenderRows(rows[1..], indent)
  }

  lemma {:induction false} OutlineSize(d: seq<Entry>, depth: nat)
    ensures |Outline(d, depth)| == TotalKeys(d)
    decreases d
  {
    if d != [] {
      var e := d[0];
      assert e.1 < e;
      OutlineSize(d[1..], depth);
      if e.1.Dict? {
        OutlineSize(e.1.entries, depth + 1);
      }
    }
  }

  /** The helper's lines at level indent * (depth + 1) are the rendered outline rows:
      one line per key at every level, in document order, each indented for its depth
      and ending `key:<br>` for a dict and `key: value<br>` otherwise. */
  lemma {:induction false} FormatLinesRenderOutline(d: seq<Entry>, depth: nat, indent: int)
    ensures FormatLines(d, indent * (depth + 1), indent) == RenderRows(Outline(d, depth), indent)
    decreases d
  {
    if d != [] {
      var e := d[0];
      assert e.1 < e;
      var level := indent * (depth + 1);
      FormatLinesRenderOutline(d[1..], depth, indent);
      var head := EntryLines(e.0, e.1, level, indent);
      var rows := EntryOutline(e.0, e.1, depth);
      assert head == RenderRows(rows, indent) by {
        match e.1
        case Dict(es) =>
          assert level + indent == indent * (depth + 1 + 1);
          FormatLinesRenderOutline(es, depth + 1, indent);
          assert RenderRow(Row(depth, e.0, None), indent) == Spaces(level) + e.0 + ":<br>";
          assert rows[1..] == Outline(es, depth + 1);
        case _ =>
          assert RenderRow(Row(depth, e.0, Some(e.1)), indent) == Spaces(level) + e.0 + ": " + StrOf(e.1) + "<br>";
      }
      RenderRowsAppend(rows, Outline(d[1..], depth), indent);
    }
  }

  lemma RenderRowsAppend(a: seq<Row>, b: seq<Row>, indent: int)
    ensures RenderRows(a + b, indent) == RenderRows(a, indent) + RenderRows(b, indent)
  {
    var l, r := RenderRows(a + b, indent), RenderRows(a, indent) + RenderRows(b, indent);
    assert |l| == |r|;
    forall i | 0 <= i < |l| ensures l[i] == r[i] {
      if i < |a| { assert (a + b)[i] == a[i]; } else { assert (a + b)[i] == b[i - |a|]; }
    }
  }

  /** The output has one line per key across all nesting levels. */
  lemma LineCount(data: seq<Entry>, indent: int)
    ensures |FormatLines(data, indent, indent)| == TotalKeys(data)
  {
    FormatLinesRenderOutline(data, 0, indent);
    OutlineSize(data, 0);
  }

  // ---------------------------------------------------------------------------
  // Newlines in the joined text

  function CountChar(s: string, c: char): nat
  {
    if s == [] then 0 else (if s[0] == c then 1 else 0) + CountChar(s[1..], c)
  }

  lemma {:induction false} CountCharAppend(a: string, b: string, c: char)
    ensures CountChar(a + b, c) == CountChar(a, c) + CountChar(b, c)
  {
    if a != [] {
      assert (a + b)[1..] == a[1..] + b;
      CountCharAppend(a[1..], b, c);
    } else {
      assert a + b == b;
    }
  }

  lemma {:induction false} CountCharAbsent(s: string, c: char)
    requires c !in s
    ensures CountChar(s, c) == 0
  {
    if s != [] {
      assert c !in s[1..] by { forall i | 0 <= i < |s[1..]| ensures s[1..][i] != c { assert s[1..][i] == s[i + 1]; } }
      CountCharAbsent(s[1..], c);
    }
  }

  /** Joined by newlines, lines that hold none give one newline fewer than lines. */
  lemma {:induction false} JoinNewlines(lines: seq<string>)
    requires forall i :: 0 <= i < |lines| ==> '\n' !in lines[i]
    ensures CountChar(Join(lines, "\n"), '\n') == if lines == [] then 0 else |lines| - 1
  {
    if |lines| == 1 {
      CountCharAbsent(lines[0], '\n');
    } else if |lines| > 1 {
      JoinNewlines(lines[1..]);
      CountCharAbsent(lines[0], '\n');
      CountCharAppend(lines[0], "\n", '\n');
      CountCharAppend(lines[0] + "\n", Join(lines[1..], "\n"), '\n');
    }
  }

  /** No line of the helper contains a newline when the data holds none. */
  lemma {:induction false} FormatLinesClean(d: seq<Entry>, level: int, indent: int)
    requires LacksEntries(d, '\n')
    ensures forall i :: 0 <= i < |FormatLines(d, level, indent)| ==> '\n' !in FormatLines(d, level, indent)[i]
    decreases d
  {
    if d != [] {
      var e := d[0];
      assert e.1 < e;
      FormatLinesClean(d[1..], level, indent);
      var head := EntryLines(e.0, e.1, level, indent);
      assert forall i :: 0 <= i < |head| ==> '\n' !in head[i] by {
        var sp := Spaces(level);
        assert '\n' !in sp;
        match e.1
        case Dict(es) =>
          FormatLinesClean(es, level + indent, indent);
          assert '\n' !in sp + e.0 + ":<br>";
          assert head[0] == sp + e.0 + ":<br>";
          assert forall i :: 1 <= i < |head| ==> head[i] == FormatLines(es, level + indent, indent)[i - 1];
        case _ =>
          StrOfLacks(e.1, '\n');
          assert '\n' !in sp + e.0 + ": " + StrOf(e.1) + "<br>";
      }
      var lines := FormatLines(d, level, indent);
      forall i | 0 <= i < |lines| ensures '\n' !in lines[i] {
        if i < |head| { assert lines[i] == head[i]; }
        else { assert lines[i] == FormatLines(d[1..], level, indent)[i - |head|]; }
      }
    }
  }

  /** The output is the key lines joined by newlines: when no key or string holds a
      newline, it contains exactly one newline fewer than there are keys at all levels. */
  lemma JsonStringifyHtmlNewlines(data: seq<Entry>, indent: int)
    requires LacksEntries(data, '\n')
    ensures CountChar(JsonStringifyHtml(data, indent), '\n') ==
      if TotalKeys(data) == 0 then 0 else TotalKeys(data) - 1
  {
    var lines := FormatLines(data, indent, indent);
    LineCount(data, indent);
    FormatLinesClean(data, indent, indent);
    JoinNewlines(lines);
  }
}
