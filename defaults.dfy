/** `add_missing_defaults_inplace`: give a dict every key of a defaults dict that it
    lacks, leaving the keys it already has alone. */
module Defaults {
  import opened Dicts

  /** The dict that results from walking `defaults` in order and appending each entry
      whose key is not present yet. */
  function WithDefaults(d: seq<Entry>, defaults: seq<Entry>): (r: seq<Entry>)
    decreases |defaults|
  {
    if defaults == [] then d
    else
      var p := WithDefaults(d, defaults[..|defaults| - 1]);
      var e := defaults[|defaults| - 1];
      if HasKey(p, e.0) then p else p + [e]
  }

  lemma {:induction false} HasKeySnoc(d: seq<Entry>, e: Entry, k: string)
    ensures HasKey(d + [e], k) <==> HasKey(d, k) || e.0 == k
  {
    if d != [] {
      assert (d + [e])[1..] == d[1..] + [e];
      HasKeySnoc(d[1..], e, k);
    }
  }

  lemma SplitLast(s: seq<Entry>)
    requires s != []
    ensures s == s[..|s| - 1] + [s[|s| - 1]]
  {
  }

  /** Pre-existing entries keep their values and their places; the keys afterwards are
      the old keys together with the default keys; a dict stays a dict. */
  lemma {:induction false} WithDefaultsShape(d: seq<Entry>, defaults: seq<Entry>)
    ensures |d| <= |WithDefaults(d, defaults)|
    ensures WithDefaults(d, defaults)[..|d|] == d
    ensures forall k :: HasKey(WithDefaults(d, defaults), k) <==> HasKey(d, k) || HasKey(defaults, k)
    ensures DistinctKeys(d) ==> DistinctKeys(WithDefaults(d, defaults))
    decreases |defaults|
  {
    if defaults != [] {
      var init, e := defaults[..|defaults| - 1], defaults[|defaults| - 1];
      var p := WithDefaults(d, init);
      WithDefaultsShape(d, init);
      SplitLast(defaults);
      forall k ensures HasKey(defaults, k) <==> HasKey(init, k) || e.0 == k {
        HasKeySnoc(init, e, k);
      }
      if !HasKey(p, e.0) {
        forall k ensures HasKey(p + [e], k) <==> HasKey(p, k) || e.0 == k {
          HasKeySnoc(p, e, k);
        }
        assert (p + [e])[..|d|] == p[..|d|];
        HasKeyIndex(p, e.0);
      }
    }
  }

  /** A key that was present keeps its value; a key that was missing gets exactly the
      default value. */
  lemma {:induction false} WithDefaultsLookup(d: seq<Entry>, defaults: seq<Entry>, k: string)
    ensures Lookup(WithDefaults(d, defaults), k) ==
            if HasKey(d, k) then Lookup(d, k) else Lookup(defaults, k)
    decreases |defaults|
  {
    if defaults != [] {
      var init, e := defaults[..|defaults| - 1], defaults[|defaults| - 1];
      var p := WithDefaults(d, init);
      WithDefaultsLookup(d, init, k);
      WithDefaultsShape(d, init);
      SplitLast(defaults);
      LookupAppend(init, [e], k);
      if !HasKey(p, e.0) {
        LookupAppend(p, [e], k);
      }
    }
  }

  /** Nothing happens when every default key is already present. */
  lemma {:induction false} WithDefaultsNoOp(d: seq<Entry>, defaults: seq<Entry>)
    requires forall k :: HasKey(defaults, k) ==> HasKey(d, k)
    ensures WithDefaults(d, defaults) == d
    decreases |defaults|
  {
    if defaults != [] {
      var init, e := defaults[..|defaults| - 1], defaults[|defaults| - 1];
      SplitLast(defaults);
      forall k | HasKey(init, k) ensures HasKey(d, k) {
        HasKeySnoc(init, e, k);
      }
      WithDefaultsNoOp(d, init);
      HasKeySnoc(init, e, e.0);
    }
  }

  /** A second call with the same defaults is a no-op. */
  lemma WithDefaultsIdempotent(d: seq<Entry>, defaults: seq<Entry>)
    ensures WithDefaults(WithDefaults(d, defaults), defaults) == WithDefaults(d, defaults)
  {
    WithDefaultsShape(d, defaults);
    WithDefaultsNoOp(WithDefaults(d, defaults), defaults);
  }

  /** add_missing_defaults_inplace(original, defaults) */
  method AddMissingDefaultsInplace(original: DictObject, defaults: seq<Entry>)
    requires original.Valid()
    modifies original
    ensures original.Valid()
    ensures original.items == WithDefaults(old(original.items), defaults)
  {
    ghost var start := original.items;
    var i := 0;
    while i < |defaults|
      invariant 0 <= i <= |defaults|
      invariant original.Valid()
      invariant original.items == WithDefaults(start, defaults[..i])
    {
      var (key, value) := defaults[i];
      assert defaults[..i + 1][..i] == defaults[..i];
      if !HasKey(original.items, key) {
        original.SetItem(key, value);
      }
      i := i + 1;
    }
    assert defaults[..i] == defaults;
  }
}
