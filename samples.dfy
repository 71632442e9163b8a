/** The per-record preparation of the input-processing script: every warehouse sample
    gets the seven columns the downstream script reads, `id` and
    `sub_administrative_area_id` are lifted out of the warehouse fields, and `result`
    is taken from the one test flagged as the selected definitive test. Every
    sub-administrative area gets its `id` the same way. */
module Samples {
  import opened Dicts
  import opened Defaults

  const SubAreaIdKey := "sub_administrative_area_id"
  const SelectedKey := "selected_definitive"

  /** The columns written for every sample, in the order the defaults add them. */
  const RequiredKeys: seq<string> :=
    ["id", "sub_administrative_area_id", "species", "age_group", "sex", "sample_source", "result"]

  /** `needed_keys_with_defaults`: every required column, defaulting to None. */
  const SampleDefaults: seq<Entry> :=
    [("id", Null), ("sub_administrative_area_id", Null), ("species", Null), ("age_group", Null),
     ("sex", Null), ("sample_source", Null), ("result", Null)]

  lemma SampleDefaultsKeys(k: string)
    ensures HasKey(SampleDefaults, k) <==> k in RequiredKeys
    ensures Lookup(SampleDefaults, k) == if k in RequiredKeys then Some(Null) else None
  {
    var d := SampleDefaults;
    assert KeyOrder(d) == RequiredKeys;
    HasKeyIndex(d, k);
    LookupOfNulls(d, k);
  }

  lemma {:induction false} LookupOfNulls(d: seq<Entry>, k: string)
    requires forall i :: 0 <= i < |d| ==> d[i].1 == Null
    ensures Lookup(d, k) == if HasKey(d, k) then Some(Null) else None
  {
    if d != [] {
      LookupOfNulls(d[1..], k);
    }
  }

  /** The keys the loop body reads and writes are distinct strings, and only `id`,
      `sub_administrative_area_id` and `result` among them are required columns. */
  lemma KeyNames()
    ensures "id" in RequiredKeys && SubAreaIdKey in RequiredKeys && "result" in RequiredKeys
    ensures "_id" !in RequiredKeys && "_sub_administrative_area" !in RequiredKeys && "tests" !in RequiredKeys
    ensures "id" != "_id" && "id" != SubAreaIdKey && "id" != "result" && "id" != "_sub_administrative_area"
    ensures "_id" != SubAreaIdKey && "_id" != "result" && "_id" != "tests" && "_id" != "_sub_administrative_area"
    ensures SubAreaIdKey != "result" && SubAreaIdKey != "tests" && SubAreaIdKey != "_sub_administrative_area"
    ensures "result" != "tests" && "result" != "_sub_administrative_area" && "tests" != "_sub_administrative_area"
  {
  }

  /** `d['id'] = d['_id']`, with a missing `_id` (KeyError) leaving d as it was. */
  function CopyId(d: seq<Entry>): (r: seq<Entry>)
    ensures Lookup(r, "id") == if HasKey(d, "_id") then Lookup(d, "_id") else Lookup(d, "id")
    ensures forall k :: k != "id" ==> Lookup(r, k) == Lookup(d, k)
    ensures HasKey(d, "id") ==> KeyOrder(r) == KeyOrder(d)
  {
    match Lookup(d, "_id")
    case Some(v) => Store(d, "id", v)
    case None => d
  }

  /** The `_id` of the sample's `_sub_administrative_area`, when that is a dict holding
      one; every other shape raises KeyError or TypeError in the script. */
  function SubAreaId(d: seq<Entry>): Option<Value>
  {
    match Lookup(d, "_sub_administrative_area")
    case Some(Dict(area)) => Lookup(area, "_id")
    case _ => None
  }

  /** `d["sub_administrative_area_id"] = d['_sub_administrative_area']['_id']`, with
      the KeyError and TypeError cases leaving d as it was. */
  function CopySubAreaId(d: seq<Entry>): (r: seq<Entry>)
    ensures Lookup(r, SubAreaIdKey) == if SubAreaId(d).Some? then SubAreaId(d) else Lookup(d, SubAreaIdKey)
    ensures forall k :: k != SubAreaIdKey ==> Lookup(r, k) == Lookup(d, k)
  {
    match SubAreaId(d)
    case Some(v) => Store(d, SubAreaIdKey, v)
    case None => d
  }

  /** What the script does to `result` once the other columns are set. */
  datatype ResultAction =
    | Assign(value: Value)  // `sample["result"] = value`
    | Keep                  // the flagged test has no `result`: the KeyError is swallowed
    | Fail                  // an uncaught TypeError ends the script

  /** Python's `len(v)`; None when v has no length (TypeError). */
  function Len(v: Value): Option<nat>
  {
    match v
    case Str(s) => Some(|s|)
    case List(xs) => Some(|xs|)
    case Dict(es) => Some(|es|)
    case _ => None
  }

  /** What `for test in v` visits: the one-character strings of a string, the keys of
      a dict, the items of a list. */
  function Elements(v: Value): seq<Value>
    requires Len(v).Some?
  {
    match v
    case Str(s) => Chars(s)
    case List(xs) => xs
    case Dict(es) => Keys(es)
  }

  /** The one-character strings of s, in order. */
  function Chars(s: string): (r: seq<Value>)
    ensures |r| == |s| && forall i :: 0 <= i < |s| ==> r[i] == Str([s[i]])
  {
    if s == [] then [] else [Str([s[0]])] + Chars(s[1..])
  }

  /** The keys of a dict as string values, in order. */
  function Keys(es: seq<Entry>): (r: seq<Value>)
    ensures |r| == |es| && forall i :: 0 <= i < |es| ==> r[i] == Str(es[i].0)
  {
    if es == [] then [] else [Str(es[0].0)] + Keys(es[1..])
  }

  /** Python's `p in s` on strings. */
  predicate IsSubstring(p: string, s: string)
  {
    p <= s || (s != [] && IsSubstring(p, s[1..]))
  }

  /** Python's `x == True`, which also holds for the integer 1. */
  predicate EqualsTrue(x: Value)
  {
    x == Bool(true) || x == Int(1)
  }

  /** A dict test flagged as the selected definitive test. */
  predicate IsFlagged(test: Value)
  {
    test.Dict? && Lookup(test.entries, SelectedKey).Some? && EqualsTrue(Lookup(test.entries, SelectedKey).value)
  }

  /** `"selected_definitive" in test and test["selected_definitive"] == True`, or None
      when evaluating it raises TypeError: `in` on None, a bool or an int, or indexing
      a string or a list by a string once `in` has found the word in it. */
  function FlagOf(test: Value): Option<bool>
  {
    match test
    case Dict(_) => Some(IsFlagged(test))
    case List(xs) => if Str(SelectedKey) in xs then None else Some(false)
    case Str(s) => if IsSubstring(SelectedKey, s) then None else Some(false)
    case _ => None
  }

  /** The comprehension `tests_selected_definitive`, or None when it raises TypeError. */
  function SelectDefinitive(tests: seq<Value>): Option<seq<Value>>
  {
    if tests == [] then Some([])
    else match (FlagOf(tests[0]), SelectDefinitive(tests[1..]))
      case (Some(f), Some(rest)) => Some(if f then [tests[0]] + rest else rest)
      case _ => None
  }

  /** `tests_selected_definitive[0]["result"]` when exactly one test is flagged; a
      KeyError or TypeError there is swallowed and leaves `result` alone. */
  function ResultOfFlagged(flagged: seq<Value>): ResultAction
  {
    if |flagged| != 1 then Assign(Null)
    else match flagged[0]
      case Dict(es) => (match Lookup(es, "result") case Some(v) => Assign(v) case None => Keep)
      case _ => Keep
  }

  /** The branch taken when the sample has a `tests` value. */
  function ResultOfTests(tests: Value): ResultAction
  {
    match Len(tests)
    case None => Fail
    case Some(n) =>
      if n == 0 then Assign(Null)
      else match SelectDefinitive(Elements(tests))
        case None => Fail
        case Some(flagged) => ResultOfFlagged(flagged)
  }

  /** The branch on `tests` at the end of the loop body, given `sample.get('tests')`. */
  function ChooseResult(tests: Option<Value>): ResultAction
  {
    match tests
    case None => Assign(Null)
    case Some(t) => ResultOfTests(t)
  }

  /** Sets `result` as the chosen action says. */
  function ApplyResult(p: seq<Entry>, action: ResultAction): Option<seq<Entry>>
  {
    match action
    case Assign(v) => Some(Store(p, "result", v))
    case Keep => Some(p)
    case Fail => None
  }

  /** A sample once its columns are defaulted and `id` and the sub-area id are set:
      what the script leaves behind even when choosing `result` fails. */
  function Prepared(s: seq<Entry>): seq<Entry>
  {
    CopySubAreaId(CopyId(WithDefaults(s, SampleDefaults)))
  }

  /** The sample after one pass of the loop body, or None when that pass raises. */
  function Normalised(s: seq<Entry>): Option<seq<Entry>>
  {
    var p := Prepared(s);
    ApplyResult(p, ChooseResult(Lookup(p, "tests")))
  }

  /** Where the loop leaves `result` when it chooses the given action for sample s. */
  function ResultAfter(s: seq<Entry>, action: ResultAction): Option<Value>
  {
    match action
    case Assign(v) => Some(v)
    case _ => if HasKey(s, "result") then Lookup(s, "result") else Some(Null)
  }

  // ---------------------------------------------------------------------------
  // What one pass does to a sample

  /** The value a column has once the defaults are in: its own, else None for a
      required column, else nothing. */
  function Defaulted(s: seq<Entry>, k: string): Option<Value>
  {
    if HasKey(s, k) then Lookup(s, k) else if k in RequiredKeys then Some(Null) else None
  }

  lemma WithSampleDefaults(s: seq<Entry>, k: string)
    ensures Lookup(WithDefaults(s, SampleDefaults), k) == Defaulted(s, k)
  {
    WithDefaultsLookup(s, SampleDefaults, k);
    SampleDefaultsKeys(k);
  }

  /** `_id` and `_sub_administrative_area` read the same after the defaults and the
      `id` copy as in the raw sample. */
  lemma PreparedSources(s: seq<Entry>)
    ensures Lookup(WithDefaults(s, SampleDefaults), "_id") == Lookup(s, "_id")
    ensures SubAreaId(CopyId(WithDefaults(s, SampleDefaults))) == SubAreaId(s)
  {
    KeyNames();
    WithSampleDefaults(s, "_id");
    WithSampleDefaults(s, "_sub_administrative_area");
    var c := CopyId(WithDefaults(s, SampleDefaults));
    assert Lookup(c, "_sub_administrative_area") == Lookup(s, "_sub_administrative_area");
  }

  /** What a prepared sample holds under each key. */
  lemma PreparedLookup(s: seq<Entry>, k: string)
    ensures Lookup(Prepared(s), k) ==
      if k == "id" then (if HasKey(s, "_id") then Lookup(s, "_id") else Defaulted(s, "id"))
      else if k == SubAreaIdKey then (if SubAreaId(s).Some? then SubAreaId(s) else Defaulted(s, SubAreaIdKey))
      else Defaulted(s, k)
  {
    KeyNames();
    PreparedSources(s);
    var w := WithDefaults(s, SampleDefaults);
    if k == "id" {
      WithSampleDefaults(s, "id");
    } else if k == SubAreaIdKey {
      WithSampleDefaults(s, SubAreaIdKey);
    } else {
      WithSampleDefaults(s, k);
    }
  }

  /** A pass that does not raise leaves the prepared sample, with `result` set as the
      chosen action says (kept as prepared when the action keeps it). */
  lemma NormalisedLookup(s: seq<Entry>, k: string)
    requires Normalised(s).Some?
    ensures ChooseResult(Lookup(s, "tests")) != Fail
    ensures Lookup(Normalised(s).value, k) ==
      if k == "result" then ResultAfter(s, ChooseResult(Lookup(s, "tests"))) else Lookup(Prepared(s), k)
  {
    KeyNames();
    PreparedLookup(s, "tests");
    PreparedLookup(s, "result");
    SampleDefaultsKeys("tests");
  }

  /** After a pass that does not raise, the sample has all seven columns and no key
      besides those it had. */
  lemma NormalisedKeys(s: seq<Entry>, k: string)
    requires Normalised(s).Some?
    ensures HasKey(Normalised(s).value, k) <==> HasKey(s, k) || k in RequiredKeys
  {
    NormalisedLookup(s, k);
    PreparedLookup(s, k);
    PreparedLookup(s, "result");
  }

  lemma NormalisedHasRequiredKeys(s: seq<Entry>)
    requires Normalised(s).Some?
    ensures forall k :: k in RequiredKeys ==> HasKey(Normalised(s).value, k)
  {
    forall k | k in RequiredKeys ensures HasKey(Normalised(s).value, k) {
      NormalisedKeys(s, k);
    }
  }

  /** `id` is the sample's `_id` when it has one, else its own `id`, else None. */
  lemma NormalisedId(s: seq<Entry>)
    requires Normalised(s).Some?
    ensures Lookup(Normalised(s).value, "id") ==
      if HasKey(s, "_id") then Lookup(s, "_id")
      else if HasKey(s, "id") then Lookup(s, "id")
      else Some(Null)
  {
    NormalisedLookup(s, "id");
    PreparedLookup(s, "id");
  }

  /** `sub_administrative_area_id` is the `_id` of a `_sub_administrative_area` dict
      when there is one, else the sample's own value, else None. */
  lemma NormalisedSubAreaId(s: seq<Entry>)
    requires Normalised(s).Some?
    ensures Lookup(Normalised(s).value, SubAreaIdKey) ==
      match Lookup(s, "_sub_administrative_area")
      case Some(Dict(area)) =>
        if HasKey(area, "_id") then Lookup(area, "_id")
        else if HasKey(s, SubAreaIdKey) then Lookup(s, SubAreaIdKey) else Some(Null)
      case _ => if HasKey(s, SubAreaIdKey) then Lookup(s, SubAreaIdKey) else Some(Null)
  {
    NormalisedLookup(s, SubAreaIdKey);
    PreparedLookup(s, SubAreaIdKey);
  }

  /** `species`, `age_group`, `sex`, `sample_source` and every key other than `id`,
      `sub_administrative_area_id` and `result` keep their values; the required ones
      that were missing are None. */
  lemma NormalisedUntouched(s: seq<Entry>, k: string)
    requires Normalised(s).Some?
    requires k != "id" && k != SubAreaIdKey && k != "result"
    ensures Lookup(Normalised(s).value, k) ==
      if HasKey(s, k) then Lookup(s, k) else if k in RequiredKeys then Some(Null) else None
  {
    NormalisedLookup(s, k);
    PreparedLookup(s, k);
  }

  /** A pass keeps a dict a dict. */
  lemma NormalisedDistinct(s: seq<Entry>)
    requires DistinctKeys(s) && Normalised(s).Some?
    ensures DistinctKeys(Prepared(s)) && DistinctKeys(Normalised(s).value)
  {
    var w := WithDefaults(s, SampleDefaults);
    WithDefaultsShape(s, SampleDefaults);
    if Lookup(w, "_id").Some? { StoreDistinct(w, "id", Lookup(w, "_id").value); }
    var c := CopyId(w);
    if SubAreaId(c).Some? { StoreDistinct(c, SubAreaIdKey, SubAreaId(c).value); }
    var action := ChooseResult(Lookup(Prepared(s), "tests"));
    if action.Assign? { StoreDistinct(Prepared(s), "result", action.value); }
  }

  /** A normalised sample is already prepared: the defaults, `id` and the sub-area id
      change nothing in it. */
  lemma NormalisedPreparedFixed(s: seq<Entry>)
    requires DistinctKeys(s) && Normalised(s).Some?
    ensures Prepared(Normalised(s).value) == Normalised(s).value
  {
    KeyNames();
    var r := Normalised(s).value;
    NormalisedDistinct(s);
    NormalisedHasRequiredKeys(s);
    forall k | HasKey(SampleDefaults, k) ensures HasKey(r, k) { SampleDefaultsKeys(k); }
    WithDefaultsNoOp(r, SampleDefaults);
    NormalisedLookup(s, "_id");
    PreparedLookup(s, "_id");
    NormalisedId(s);
    if HasKey(r, "_id") {
      StoreSame(r, "id", Lookup(r, "_id").value);
    }
    assert CopyId(r) == r;
    NormalisedLookup(s, "_sub_administrative_area");
    PreparedLookup(s, "_sub_administrative_area");
    assert SubAreaId(r) == SubAreaId(s);
    NormalisedLookup(s, SubAreaIdKey);
    PreparedLookup(s, SubAreaIdKey);
    if SubAreaId(r).Some? {
      StoreSame(r, SubAreaIdKey, SubAreaId(r).value);
    }
  }

  /** Running the loop body again over a sample it has already normalised changes
      nothing. */
  lemma NormalisedIdempotent(s: seq<Entry>)
    requires DistinctKeys(s) && Normalised(s).Some?
    ensures Normalised(Normalised(s).value) == Normalised(s)
  {
    KeyNames();
    var r := Normalised(s).value;
    NormalisedPreparedFixed(s);
    NormalisedDistinct(s);
    NormalisedLookup(s, "tests");
    PreparedLookup(s, "tests");
    NormalisedByTests(r);
    NormalisedByTests(s);
    NormalisedLookup(s, "result");
    var action := ChooseResult(Lookup(s, "tests"));
    if action.Assign? {
      StoreSame(r, "result", action.value);
    }
  }

  // ---------------------------------------------------------------------------
  // The selection rule on a list of dict tests

  predicate AllDicts(tests: seq<Value>)
  {
    forall i :: 0 <= i < |tests| ==> tests[i].Dict?
  }

  /** Over dict tests the comprehension never raises, and it keeps exactly the
      flagged tests: every test it yields is flagged, and every flagged test is in it. */
  lemma {:induction false} SelectDicts(tests: seq<Value>)
    requires AllDicts(tests)
    ensures SelectDefinitive(tests).Some?
    ensures forall t :: t in SelectDefinitive(tests).value ==> t in tests && IsFlagged(t)
    ensures forall i :: 0 <= i < |tests| && IsFlagged(tests[i]) ==> tests[i] in SelectDefinitive(tests).value
    ensures (forall i :: 0 <= i < |tests| ==> !IsFlagged(tests[i])) ==> SelectDefinitive(tests).value == []
  {
    if tests != [] {
      assert AllDicts(tests[1..]) by {
        forall i | 0 <= i < |tests[1..]| ensures tests[1..][i].Dict? { assert tests[1..][i] == tests[i + 1]; }
      }
      SelectDicts(tests[1..]);
      forall i | 0 <= i < |tests[1..]| ensures tests[1..][i] == tests[i + 1] { }
    }
  }

  /** Exactly one flagged test, at index j: the comprehension yields that test alone. */
  lemma {:induction false} SelectUnique(tests: seq<Value>, j: nat)
    requires AllDicts(tests) && j < |tests| && IsFlagged(tests[j])
    requires forall i :: 0 <= i < |tests| && i != j ==> !IsFlagged(tests[i])
    ensures SelectDefinitive(tests) == Some([tests[j]])
  {
    var rest := tests[1..];
    assert AllDicts(rest) by {
      forall i | 0 <= i < |rest| ensures rest[i].Dict? { assert rest[i] == tests[i + 1]; }
    }
    if j == 0 {
      forall i | 0 <= i < |rest| ensures !IsFlagged(rest[i]) { assert rest[i] == tests[i + 1]; }
      SelectDicts(rest);
      assert SelectDefinitive(rest) == Some([]);
      assert FlagOf(tests[0]) == Some(true);
      assert [tests[0]] + [] == [tests[j]];
    } else {
      forall i | 0 <= i < |rest| && i != j - 1 ensures !IsFlagged(rest[i]) { assert rest[i] == tests[i + 1]; }
      assert rest[j - 1] == tests[j];
      SelectUnique(rest, j - 1);
    }
  }

  /** Two flagged tests at distinct indices: the comprehension yields two or more. */
  lemma {:induction false} SelectSeveral(tests: seq<Value>, i: nat, j: nat)
    requires AllDicts(tests) && i < j < |tests| && IsFlagged(tests[i]) && IsFlagged(tests[j])
    ensures SelectDefinitive(tests).Some? && |SelectDefinitive(tests).value| >= 2
  {
    var rest := tests[1..];
    assert AllDicts(rest) by {
      forall k | 0 <= k < |rest| ensures rest[k].Dict? { assert rest[k] == tests[k + 1]; }
    }
    SelectDicts(rest);
    assert rest[j - 1] == tests[j];
    if i == 0 {
      SelectAny(rest, j - 1);
    } else {
      assert rest[i - 1] == tests[i];
      SelectSeveral(rest, i - 1, j - 1);
    }
  }

  /** One flagged test anywhere: the comprehension yields at least one. */
  lemma {:induction false} SelectAny(tests: seq<Value>, j: nat)
    requires AllDicts(tests) && j < |tests| && IsFlagged(tests[j])
    ensures SelectDefinitive(tests).Some? && |SelectDefinitive(tests).value| >= 1
  {
    var rest := tests[1..];
    assert AllDicts(rest) by {
      forall k | 0 <= k < |rest| ensures rest[k].Dict? { assert rest[k] == tests[k + 1]; }
    }
    SelectDicts(rest);
    if j > 0 {
      assert rest[j - 1] == tests[j];
      SelectAny(rest, j - 1);
    }
  }

  /** For a list of dict tests the action is decided by the flagged ones alone. */
  lemma DictTestsAction(tests: seq<Value>)
    requires AllDicts(tests)
    ensures SelectDefinitive(tests).Some?
    ensures ChooseResult(Some(List(tests))) ==
      if tests == [] then Assign(Null) else ResultOfFlagged(SelectDefinitive(tests).value)
  {
    SelectDicts(tests);
  }

  /** The outcome of a pass depends on `tests` as the sample had it. */
  lemma NormalisedByTests(s: seq<Entry>)
    ensures Normalised(s) == ApplyResult(Prepared(s), ChooseResult(Lookup(s, "tests")))
  {
    PreparedLookup(s, "tests");
    KeyNames();
  }


  /** No `tests` key, or a `tests` of length 0 (an empty list, string or dict):
      `result` becomes None. */
  lemma ResultWithoutTests(s: seq<Entry>)
    requires !HasKey(s, "tests") || Len(Lookup(s, "tests").value) == Some(0)
    ensures Normalised(s).Some?
    ensures Lookup(Normalised(s).value, "result") == Some(Null)
  {
    NormalisedByTests(s);
    NormalisedLookup(s, "result");
  }

  /** A list of dict tests never makes the pass raise. */
  lemma DictTestsNeverFail(s: seq<Entry>, tests: seq<Value>)
    requires Lookup(s, "tests") == Some(List(tests)) && AllDicts(tests)
    ensures Normalised(s).Some?
  {
    NormalisedByTests(s);
    SelectDicts(tests);
  }

  /** No test flagged: `result` becomes None. */
  lemma ResultNoneFlagged(s: seq<Entry>, tests: seq<Value>)
    requires Lookup(s, "tests") == Some(List(tests)) && AllDicts(tests)
    requires forall i :: 0 <= i < |tests| ==> !IsFlagged(tests[i])
    ensures Normalised(s).Some?
    ensures Lookup(Normalised(s).value, "result") == Some(Null)
  {
    NormalisedByTests(s);
    SelectDicts(tests);
    NormalisedLookup(s, "result");
  }

  /** Two or more tests flagged: `result` becomes None. */
  lemma ResultSeveralFlagged(s: seq<Entry>, tests: seq<Value>, i: nat, j: nat)
    requires Lookup(s, "tests") == Some(List(tests)) && AllDicts(tests)
    requires i < j < |tests| && IsFlagged(tests[i]) && IsFlagged(tests[j])
    ensures Normalised(s).Some?
    ensures Lookup(Normalised(s).value, "result") == Some(Null)
  {
    NormalisedByTests(s);
    DictTestsAction(tests);
    SelectSeveral(tests, i, j);
    NormalisedLookup(s, "result");
  }

  /** Exactly one test flagged: `result` is that test's `result`, or, when it has
      none, the sample's own `result`, else None. */
  lemma ResultOneFlagged(s: seq<Entry>, tests: seq<Value>, j: nat)
    requires Lookup(s, "tests") == Some(List(tests)) && AllDicts(tests)
    requires j < |tests| && IsFlagged(tests[j])
    requires forall i :: 0 <= i < |tests| && i != j ==> !IsFlagged(tests[i])
    ensures Normalised(s).Some?
    ensures Lookup(Normalised(s).value, "result") ==
      if HasKey(tests[j].entries, "result") then Lookup(tests[j].entries, "result")
      else if HasKey(s, "result") then Lookup(s, "result")
      else Some(Null)
  {
    NormalisedByTests(s);
    DictTestsAction(tests);
    SelectUnique(tests, j);
    NormalisedLookup(s, "result");
  }

  /** `tests` that has no length (None, a bool or an int) makes `len` raise. */
  lemma ResultFailsWithoutLength(s: seq<Entry>)
    requires HasKey(s, "tests") && Len(Lookup(s, "tests").value).None?
    ensures Normalised(s).None?
  {
    NormalisedByTests(s);
  }

  // ---------------------------------------------------------------------------
  // The loops

  /** One pass of the loop body over `sample`; false when the pass raises, which
      leaves the sample prepared but without its `result` chosen. */
  method NormaliseSample(sample: DictObject) returns (ok: bool)
    requires sample.Valid()
    modifies sample
    ensures sample.Valid()
    ensures ok ==> Normalised(old(sample.items)) == Some(sample.items)
    ensures !ok ==> Normalised(old(sample.items)).None? && sample.items == Prepared(old(sample.items))
  {
    AddMissingDefaultsInplace(sample, SampleDefaults);
    var id := Lookup(sample.items, "_id");
    if id.Some? {
      sample.SetItem("id", id.value);
    }
    var areaId := SubAreaId(sample.items);
    if areaId.Some? {
      sample.SetItem(SubAreaIdKey, areaId.value);
    }
    assert sample.items == Prepared(old(sample.items));
    var action := ChooseResult(Lookup(sample.items, "tests"));
    match action {
      case Assign(v) =>
        sample.SetItem("result", v);
        ok := true;
      case Keep =>
        ok := true;
      case Fail =>
        ok := false;
    }
  }

  /** `for sample in samples: ...`: every sample is normalised in order; the first
      one whose pass raises stops the loop (the script dies there) and is reported. */
  method NormaliseSamples(samples: array<DictObject>) returns (failedAt: Option<nat>)
    requires forall i, j :: 0 <= i < j < samples.Length ==> samples[i] != samples[j]
    requires forall i :: 0 <= i < samples.Length ==> samples[i].Valid()
    modifies set i | 0 <= i < samples.Length :: samples[i]
    ensures forall i :: 0 <= i < samples.Length ==> samples[i].Valid()
    ensures failedAt.None? ==>
      forall i :: 0 <= i < samples.Length ==> Normalised(old(samples[i].items)) == Some(samples[i].items)
    ensures failedAt.Some? ==>
      var k := failedAt.value;
      && k < samples.Length
      && Normalised(old(samples[k].items)).None?
      && samples[k].items == Prepared(old(samples[k].items))
      && (forall i :: 0 <= i < k ==> Normalised(old(samples[i].items)) == Some(samples[i].items))
      && (forall i :: k < i < samples.Length ==> samples[i].items == old(samples[i].items))
  {
    // The loop only passes each sample's state on; it never needs to look inside a pass.
    hide Prepared;
    var n := 0;
    while n < samples.Length
      invariant 0 <= n <= samples.Length
      invariant forall i :: 0 <= i < samples.Length ==> samples[i].Valid()
      invariant forall i :: 0 <= i < n ==> Normalised(old(samples[i].items)) == Some(samples[i].items)
      invariant forall i :: n <= i < samples.Length ==> samples[i].items == old(samples[i].items)
    {
      var sample := samples[n];
      label before:
      var ok := NormaliseSample(sample);
      if !ok {
        return Some(n);
      }
      forall i | 0 <= i <= n
        ensures Normalised(old(samples[i].items)) == Some(samples[i].items)
      {
        if i < n {
          assert samples[i] != sample;
          assert samples[i].items == old@before(samples[i].items);
        }
      }
      n := n + 1;
    }
    return None;
  }

  /** `for subadmin in subadmins: subadmin['id'] = subadmin['_id']`, a missing `_id`
      leaving the area as it was. */
  method SetSubadminIds(subadmins: array<DictObject>)
    requires forall i, j :: 0 <= i < j < subadmins.Length ==> subadmins[i] != subadmins[j]
    requires forall i :: 0 <= i < subadmins.Length ==> subadmins[i].Valid()
    modifies set i | 0 <= i < subadmins.Length :: subadmins[i]
    ensures forall i :: 0 <= i < subadmins.Length ==> subadmins[i].Valid()
    ensures forall i :: 0 <= i < subadmins.Length ==> subadmins[i].items == CopyId(old(subadmins[i].items))
  {
    var n := 0;
    while n < subadmins.Length
      invariant 0 <= n <= subadmins.Length
      invariant forall i :: 0 <= i < subadmins.Length ==> subadmins[i].Valid()
      invariant forall i :: 0 <= i < n ==> subadmins[i].items == CopyId(old(subadmins[i].items))
      invariant forall i :: n <= i < subadmins.Length ==> subadmins[i].items == old(subadmins[i].items)
    {
      var area := subadmins[n];
      var id := Lookup(area.items, "_id");
      if id.Some? {
        area.SetItem("id", id.value);
      }
      n := n + 1;
    }
  }
}
