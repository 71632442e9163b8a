/** Python's text conversions of record values: `str(v)`, as an f-string field
    `{v}` applies it, and `repr(v)`, which `str` uses inside lists and dicts. */
module PyText {
  import opened Dicts

  function DigitChar(n: nat): char
    requires n < 10
  {
    "0123456789"[n]
  }

  function NatToString(n: nat): string
    decreases n
  {
    if n < 10 then [DigitChar(n)] else NatToString(n / 10) + [DigitChar(n % 10)]
  }

  function IntToString(i: int): string
  {
    if i < 0 then "-" + NatToString(-i) else NatToString(i)
  }

  /** `sep.join(parts)` */
  function Join(parts: seq<string>, sep: string): string
  {
    if |parts| == 0 then ""
    else if |parts| == 1 then parts[0]
    else parts[0] + sep + Join(parts[1..], sep)
  }

  /** `repr(v)`: strings in single quotes, lists in brackets, dicts in braces. */
  function Repr(v: Value): string
    decreases v
  {
    match v
    case Null => "None"
    case Bool(b) => if b then "True" else "False"
    case Int(i) => IntToString(i)
    case Str(s) => "'" + s + "'"
    case List(xs) => "[" + ReprItems(xs) + "]"
    case Dict(es) => "{" + ReprEntries(es) + "}"
  }

  /** The items of a list's repr, separated by ", ". */
  function ReprItems(xs: seq<Value>): string
    decreases xs
  {
    if xs == [] then ""
    else if |xs| == 1 then Repr(xs[0])
    else Repr(xs[0]) + ", " + ReprItems(xs[1..])
  }

  /** The `'key': value` pairs of a dict's repr, separated by ", ". */
  function ReprEntries(es: seq<Entry>): string
    decreases es
  {
    if es == [] then ""
    else
      var e := es[0];
      assert e.1 < e;
      var pair := "'" + e.0 + "': " + Repr(e.1);
      if |es| == 1 then pair else pair + ", " + ReprEntries(es[1..])
  }

  /** `str(v)`: a string is itself, anything else its repr. */
  function StrOf(v: Value): string
  {
    if v.Str? then v.s else Repr(v)
  }

  // ---------------------------------------------------------------------------
  // Characters that a value's text cannot contain

  /** No key and no string anywhere inside v contains the character c. */
  predicate Lacks(v: Value, c: char)
    decreases v
  {
    match v
    case Str(s) => c !in s
    case List(xs) => LacksItems(xs, c)
    case Dict(es) => LacksEntries(es, c)
    case _ => true
  }

  predicate LacksItems(xs: seq<Value>, c: char)
    decreases xs
  {
    xs == [] || (Lacks(xs[0], c) && LacksItems(xs[1..], c))
  }

  predicate LacksEntries(es: seq<Entry>, c: char)
    decreases es
  {
    if es == [] then true
    else
      var e := es[0];
      assert e.1 < e;
      c !in e.0 && Lacks(e.1, c) && LacksEntries(es[1..], c)
  }

  /** A character `repr` never writes of its own: a control character or an angle
      bracket. */
  predicate OutsideRepr(c: char)
  {
    c < ' ' || c == '<' || c == '>'
  }

  lemma {:induction false} NatToStringLacks(n: nat, c: char)
    requires OutsideRepr(c)
    ensures c !in NatToString(n)
    decreases n
  {
    assert '0' <= DigitChar(n % 10) <= '9';
    if n >= 10 { NatToStringLacks(n / 10, c); }
  }

  /** `repr` adds no character outside its own syntax to the text of a value. */
  lemma {:induction false} ReprLacks(v: Value, c: char)
    requires Lacks(v, c) && OutsideRepr(c)
    ensures c !in Repr(v)
    decreases v
  {
    match v
    case Int(i) =>
      if i < 0 { NatToStringLacks(-i, c); } else { NatToStringLacks(i, c); }
    case List(xs) => ReprItemsLacks(xs, c);
    case Dict(es) => ReprEntriesLacks(es, c);
    case _ =>
  }

  lemma {:induction false} ReprItemsLacks(xs: seq<Value>, c: char)
    requires LacksItems(xs, c) && OutsideRepr(c)
    ensures c !in ReprItems(xs)
    decreases xs
  {
    if xs != [] {
      ReprLacks(xs[0], c);
      ReprItemsLacks(xs[1..], c);
    }
  }

  lemma {:induction false} ReprEntriesLacks(es: seq<Entry>, c: char)
    requires LacksEntries(es, c) && OutsideRepr(c)
    ensures c !in ReprEntries(es)
    decreases es
  {
    if es != [] {
      var e := es[0];
      assert e.1 < e;
      ReprLacks(e.1, c);
      ReprEntriesLacks(es[1..], c);
    }
  }

  /** `str(v)` contains c only if a key or string inside v does. */
  lemma StrOfLacks(v: Value, c: char)
    requires Lacks(v, c) && OutsideRepr(c)
    ensures c !in StrOf(v)
  {
    if !v.Str? { ReprLacks(v, c); }
  }
}
