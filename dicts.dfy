/** JSON-shaped values and Python dictionaries as ordered association lists.

    A Python dict keeps its keys in insertion order, assigning to an existing key
    replaces the value where it stands, and assigning to a new key appends it. The
    serialisers depend on that order, so a dict is a sequence of (key, value)
    pairs rather than a Dafny map. */
module Dicts {

  datatype Option<T> = None | Some(value: T)

  /** A value of a parsed warehouse record. Null is Python's None. */
  datatype Value =
    | Null
    | Bool(b: bool)
    | Int(i: int)
    | Str(s: string)
    | List(items: seq<Value>)
    | Dict(entries: seq<Entry>)

  type Entry = (string, Value)

  /** Python's `k in d`. */
  predicate HasKey(d: seq<Entry>, k: string)
  {
    d != [] && (d[0].0 == k || HasKey(d[1..], k))
  }

  /** A Python dict never holds a key twice. */
  ghost predicate DistinctKeys(d: seq<Entry>)
  {
    forall i, j :: 0 <= i < j < |d| ==> d[i].0 != d[j].0
  }

  /** The keys in iteration order, as `d.keys()` yields them. */
  function KeyOrder(d: seq<Entry>): (ks: seq<string>)
    ensures |ks| == |d|
    ensures forall i :: 0 <= i < |d| ==> ks[i] == d[i].0
  {
    if d == [] then [] else [d[0].0] + KeyOrder(d[1..])
  }

  /** `k in d` holds when some entry carries k. */
  lemma {:induction false} HasKeyIndex(d: seq<Entry>, k: string)
    ensures HasKey(d, k) <==> exists i :: 0 <= i < |d| && d[i].0 == k
  {
    if d != [] {
      HasKeyIndex(d[1..], k);
      if HasKey(d[1..], k) {
        var i :| 0 <= i < |d[1..]| && d[1..][i].0 == k;
        assert d[i + 1].0 == k;
      }
      if exists i :: 0 <= i < |d| && d[i].0 == k {
        var i :| 0 <= i < |d| && d[i].0 == k;
        if i > 0 { assert d[1..][i - 1].0 == k; }
      }
    }
  }

  /** `d[k]` when it does not raise KeyError: the value of the first entry for k. */
  function Lookup(d: seq<Entry>, k: string): (r: Option<Value>)
    ensures r.Some? <==> HasKey(d, k)
  {
    if d == [] then None
    else if d[0].0 == k then Some(d[0].1)
    else Lookup(d[1..], k)
  }

  /** `d[k] = v`: an existing key keeps its place and takes the new value, a new key
      goes at the end. */
  function Store(d: seq<Entry>, k: string, v: Value): (r: seq<Entry>)
    ensures Lookup(r, k) == Some(v)
    ensures forall k' :: k' != k ==> Lookup(r, k') == Lookup(d, k')
    ensures HasKey(d, k) ==> |r| == |d| && KeyOrder(r) == KeyOrder(d)
    ensures !HasKey(d, k) ==> r == d + [(k, v)]
  {
    if d == [] then [(k, v)]
    else if d[0].0 == k then [(k, v)] + d[1..]
    else
      var rest := Store(d[1..], k, v);
      assert d == [d[0]] + d[1..];
      [d[0]] + rest
  }

  lemma {:induction false} LookupAppend(a: seq<Entry>, b: seq<Entry>, k: string)
    ensures Lookup(a + b, k) == if HasKey(a, k) then Lookup(a, k) else Lookup(b, k)
  {
    if a != [] {
      assert (a + b)[1..] == a[1..] + b;
      LookupAppend(a[1..], b, k);
    } else {
      assert a + b == b;
    }
  }

  /** With distinct keys, looking up the key of any entry finds that entry. */
  lemma {:induction false} LookupAt(d: seq<Entry>, i: nat)
    requires DistinctKeys(d) && i < |d|
    ensures Lookup(d, d[i].0) == Some(d[i].1)
  {
    if i > 0 {
      assert d[0].0 != d[i].0;
      assert d[1..][i - 1] == d[i];
      LookupAt(d[1..], i - 1);
    }
  }

  /** Two dicts with the same key order and the same values per key are the same dict. */
  lemma {:induction false} SameKeysAndValues(d: seq<Entry>, e: seq<Entry>)
    requires DistinctKeys(d) && KeyOrder(d) == KeyOrder(e)
    requires forall k :: Lookup(d, k) == Lookup(e, k)
    ensures d == e
  {
    assert |d| == |KeyOrder(d)| == |e|;
    forall i | 0 <= i < |d| ensures d[i] == e[i] {
      assert KeyOrder(d)[i] == d[i].0 && KeyOrder(e)[i] == e[i].0;
      LookupAt(d, i);
      assert DistinctKeys(e) by {
        forall a, b | 0 <= a < b < |e| ensures e[a].0 != e[b].0 {
          assert KeyOrder(d)[a] == e[a].0 && KeyOrder(d)[b] == e[b].0;
        }
      }
      LookupAt(e, i);
    }
  }

  /** Storing a new key keeps the keys distinct; so does overwriting one. */
  lemma StoreDistinct(d: seq<Entry>, k: string, v: Value)
    requires DistinctKeys(d)
    ensures DistinctKeys(Store(d, k, v))
  {
    var r := Store(d, k, v);
    if HasKey(d, k) {
      forall a, b | 0 <= a < b < |r| ensures r[a].0 != r[b].0 {
        assert KeyOrder(r)[a] == KeyOrder(d)[a] && KeyOrder(r)[b] == KeyOrder(d)[b];
      }
    }
  }

  /** Writing back the value a key already has changes nothing. */
  lemma StoreSame(d: seq<Entry>, k: string, v: Value)
    requires DistinctKeys(d) && Lookup(d, k) == Some(v)
    ensures Store(d, k, v) == d
  {
    var r := Store(d, k, v);
    StoreDistinct(d, k, v);
    forall k' ensures Lookup(r, k') == Lookup(d, k') { }
    SameKeysAndValues(r, d);
  }

  /** A Python dict object whose contents the scripts update in place. */
  class DictObject {
    var items: seq<Entry>

    ghost predicate Valid()
      reads this
    {
      DistinctKeys(items)
    }

    /** `self[k] = v` */
    method SetItem(k: string, v: Value)
      requires Valid()
      modifies this
      ensures Valid()
      ensures items == Store(old(items), k, v)
    {
      StoreDistinct(items, k, v);
      items := Store(items, k, v);
    }
  }
}
