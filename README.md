# Prevalence Estimator data export: input preparation

This project is a Dafny model of the input-processing step of the Prevalence
Estimator data export. That step prepares surveillance records from the CWD Data
Warehouse for the prior-fulfilment script that runs after it. It models four things:

- **Default filling** (`add_missing_defaults_inplace`). A dict gains every key of a
  defaults dict that it lacks. Keys it already has keep their values.
- **Per-sample normalisation**. This is the loop over warehouse samples. Each sample
  gets the seven columns `id`, `sub_administrative_area_id`, `species`,
  `age_group`, `sex`, `sample_source` and `result`.
  - `id` is copied from `_id`.
  - `sub_administrative_area_id` is taken from `_sub_administrative_area._id`.
  - `result` is taken from the single test flagged `selected_definitive == True`.
    It is None when there are no tests, no flagged test, or several flagged tests.
- **Sub-administrative area ids**. `id` is copied from `_id` for every area.
- **The two HTML serialisers** used for the run's report:
  - `dict_to_html_list` renders a dict as nested `<ul>`/`<ol>` lists.
  - `json_stringify_html` renders a dict as indented `key: value<br>` lines.

A Python dict is modelled as an ordered list of `(key, value)` pairs
(`Dicts.Entry`). That keeps Python's insertion order:
- assigning to an existing key keeps its position;
- assigning to a new key appends it.

A dict that the script changes in place is a `Dicts.DictObject`, whose `items`
field the methods reassign. The sample list and the area list are arrays of such
objects.

The model follows the code wherever the code and its comments differ. For example,
when the one flagged test has no `result`, the code keeps the sample's own `result`,
which is None unless the raw sample already had a `result` key. The comment says
"else set to None".

A Python exception that is not caught ends the script. The loop body can raise an
uncaught TypeError in three ways:
- `len()` of None, a bool or an int;
- `in` on None, a bool or an int;
- indexing a string or a list by a string, after `in` has found the word in it.

In the model that is the `Fail` action, and the sample loop stops at that
sample. The sample is left as the script leaves it: defaults, `id` and the sub-area
id are already set.

Modules:
- `Dicts`: values, dict lookup and assignment, and the mutable dict object.
- `PyText`: `str()` and `repr()` of values.
- `Defaults`: default filling.
- `Samples`: both record loops.
- `HtmlList`: `dict_to_html_list`.
- `JsonText`: `json_stringify_html`.

## Model

| member | source | states |
|---|---|---|
| `Dicts.Lookup` | src/scripts/input_processing.py:308 | `d[k]` finds a value exactly when `k in d` |
| `Dicts.Store` | src/scripts/input_processing.py:174 | `d[k] = v`: afterwards `d[k]` is `v` and every other key reads as before. An existing key keeps its place. A new key is appended at the end |
| `Dicts.LookupAt` | src/scripts/input_processing.py:172 | in a dict with distinct keys, looking up an entry's key finds that entry's value |
| `Dicts.StoreSame` | src/scripts/input_processing.py:308 | assigning a key the value it already has leaves the dict identical |
| `Dicts.StoreDistinct` | src/scripts/input_processing.py:174 | assignment keeps the keys distinct |
| `Dicts.DictObject.SetItem` | src/scripts/input_processing.py:174 | in-place `d[k] = v` on a dict object. The new contents are `Store(old contents, k, v)` and the keys stay distinct |
| `Defaults.WithDefaultsShape` | src/scripts/input_processing.py:172-174 | the original entries stay first, unchanged and in order. The keys afterwards are the original keys plus the default keys, and no others. Distinct keys stay distinct |
| `Defaults.WithDefaultsLookup` | src/scripts/input_processing.py:172-174 | a key that was present keeps its value. A key that was absent gets exactly the default value |
| `Defaults.WithDefaultsNoOp` | src/scripts/input_processing.py:173 | when every default key is already present, nothing changes |
| `Defaults.WithDefaultsIdempotent` | src/scripts/input_processing.py:172-174 | a second call with the same defaults is a no-op |
| `Defaults.WithDefaults` | src/scripts/input_processing.py:172-174 | the dict after walking the defaults in order and appending each entry whose key is not present yet |
| `Defaults.AddMissingDefaultsInplace` | src/scripts/input_processing.py:162-174 | the loop leaves the dict equal to `WithDefaults(old dict, defaults)` and keeps its keys distinct |
| `Samples.Prepared` | src/scripts/input_processing.py:294-316 | the sample after defaulting and the two id copies. This is what the loop leaves even when choosing `result` raises |
| `Samples.Normalised` | src/scripts/input_processing.py:294-332 | the sample after one pass of the loop body, or None when that pass raises an uncaught TypeError |
| `Samples.Len` | src/scripts/input_processing.py:319 | `len(v)`: the length of a string, list or dict, or None where `len` raises |
| `Samples.Elements` | src/scripts/input_processing.py:322 | what `for test in v` visits: the characters of a string, the keys of a dict, the items of a list |
| `Samples.FlagOf` | src/scripts/input_processing.py:322 | the comprehension's condition on one test. It is None when `in` or the indexing raises TypeError. `x == True` also holds for the integer 1 |
| `Samples.SelectDefinitive` | src/scripts/input_processing.py:322 | the comprehension `tests_selected_definitive`, or None when the condition raises on some test |
| `Samples.ResultOfFlagged` | src/scripts/input_processing.py:323-330 | `result` from the single flagged test. A KeyError or TypeError there leaves `result` alone. Any other number of flagged tests sets it to None |
| `Samples.ResultOfTests` | src/scripts/input_processing.py:319-332 | the branch for a sample that has `tests`: raise when `len` does, None for length 0, otherwise decided by the flagged tests |
| `Samples.ChooseResult` | src/scripts/input_processing.py:319-332 | the branch on `tests`: None when the key is missing, otherwise `ResultOfTests` |
| `Samples.SampleDefaultsKeys` | src/scripts/input_processing.py:295-303 | the defaults dict has exactly the seven required columns, each None |
| `Samples.CopyId` | src/scripts/input_processing.py:307-310 | `id` becomes `_id` when `_id` is present and is unchanged otherwise. No other key changes |
| `Samples.CopySubAreaId` | src/scripts/input_processing.py:313-316 | `sub_administrative_area_id` becomes `_sub_administrative_area['_id']` when that lookup succeeds and is unchanged otherwise. No other key changes |
| `Samples.PreparedLookup` | src/scripts/input_processing.py:294-316 | the value of every key after defaulting and the two id copies, stated in terms of the raw sample |
| `Samples.NormalisedLookup` | src/scripts/input_processing.py:318-332 | a pass that does not raise changes only `result`, and sets it as the chosen action says |
| `Samples.NormalisedByTests` | src/scripts/input_processing.py:319 | the outcome of the `result` branch depends only on the raw sample's `tests` |
| `Samples.NormalisedKeys` | src/scripts/input_processing.py:292-304 | after a pass, the keys are the sample's own keys plus the seven required columns |
| `Samples.NormalisedHasRequiredKeys` | src/scripts/input_processing.py:295-304 | after a pass, every required column is present |
| `Samples.NormalisedId` | src/scripts/input_processing.py:307-310 | `id` is the sample's `_id` if it has one, else the sample's own `id`, else None |
| `Samples.NormalisedSubAreaId` | src/scripts/input_processing.py:313-316 | `sub_administrative_area_id` is `_id` of the `_sub_administrative_area` dict if there is one. Otherwise it is the sample's own value, else None. This covers a missing key, a None value and a dict without `_id` |
| `Samples.NormalisedUntouched` | src/scripts/input_processing.py:292-332 | `species`, `age_group`, `sex`, `sample_source` and every other key except `id`, the sub-area id and `result` keep their values. Missing required columns become None |
| `Samples.NormalisedDistinct` | src/scripts/input_processing.py:292-332 | a pass keeps the sample's keys distinct |
| `Samples.NormalisedPreparedFixed` | src/scripts/input_processing.py:294-316 | preparing a normalised sample again changes nothing: every default column is present, `id` already equals `_id` and the sub-area id is already set |
| `Samples.NormalisedIdempotent` | src/scripts/input_processing.py:292-332 | a second pass over a normalised sample changes nothing |
| `Samples.SelectDicts` | src/scripts/input_processing.py:322 | over dict tests, the comprehension never raises and keeps exactly the flagged tests: everything it yields is a flagged test, and every flagged test is in it. With no flagged test it is empty |
| `Samples.SelectUnique` | src/scripts/input_processing.py:322-323 | with exactly one flagged test, at index j, the comprehension is exactly `[tests[j]]` |
| `Samples.SelectSeveral` | src/scripts/input_processing.py:322-323 | two flagged tests at distinct indices give a comprehension of length at least 2 |
| `Samples.SelectAny` | src/scripts/input_processing.py:322 | one flagged test gives a comprehension of length at least 1 |
| `Samples.DictTestsAction` | src/scripts/input_processing.py:319-330 | for a list of dict tests, the action depends only on the flagged tests. An empty list gives None |
| `Samples.ResultWithoutTests` | src/scripts/input_processing.py:319-332 | no `tests` key, or a `tests` of length 0 (an empty list, string or dict): the pass succeeds and `result` is None |
| `Samples.DictTestsNeverFail` | src/scripts/input_processing.py:319-330 | a `tests` list of dicts never makes the pass raise |
| `Samples.ResultNoneFlagged` | src/scripts/input_processing.py:322-330 | no test flagged `selected_definitive == True`: `result` is None |
| `Samples.ResultSeveralFlagged` | src/scripts/input_processing.py:322-330 | two or more tests flagged: `result` is None |
| `Samples.ResultOneFlagged` | src/scripts/input_processing.py:322-328 | exactly one test flagged: `result` is that test's `result`. If the test has none, it is the sample's own `result`, else None |
| `Samples.ResultFailsWithoutLength` | src/scripts/input_processing.py:319 | a `tests` value with no length (None, bool, int) makes `len` raise, so the pass fails |
| `Samples.NormaliseSample` | src/scripts/input_processing.py:294-332 | one pass of the loop body in place. It succeeds exactly when `Normalised` does. Then the sample equals `Normalised(old)`; otherwise it equals `Prepared(old)` |
| `Samples.NormaliseSamples` | src/scripts/input_processing.py:292-332 | with no failure, every sample equals `Normalised` of its old contents. Otherwise the first failing sample is reported: earlier samples are normalised, that sample is prepared, and later samples are unchanged |
| `Samples.SetSubadminIds` | src/scripts/input_processing.py:366-371 | every area's contents become `CopyId` of its old contents |
| `HtmlList.DictHtml` | src/scripts/input_processing.py:94-123 | `_dict_to_html_helper` once `list_type` is accepted: the opening tag, one item per key, the closing tag |
| `HtmlList.ItemsHtml` | src/scripts/input_processing.py:105-116 | the `<li>` items of the entries, in insertion order |
| `HtmlList.ItemHtml` | src/scripts/input_processing.py:106-115 | `<li>key: value</li>` for one entry |
| `HtmlList.ValueHtml` | src/scripts/input_processing.py:107-114 | a dict value as a nested list of the same type, a list as a `<ul>` of its items, anything else as `str(value)` |
| `HtmlList.ListItemsHtml` | src/scripts/input_processing.py:110-112 | `<li>str(item)</li>` for every item of a list value |
| `HtmlList.DictToHtmlList` | src/scripts/input_processing.py:98-103 | the result is a ValueError, with the source's message, exactly when `list_type` is neither `'unordered'` nor `'ordered'`, whatever the data |
| `HtmlList.DictToHtmlListWrapped` | src/scripts/input_processing.py:98-121 | the output opens with `<ul>` for `'unordered'` and `<ol>` for `'ordered'`, and closes with the matching end tag |
| `HtmlList.DictToHtmlListEmpty` | src/scripts/input_processing.py:97-123 | an empty dict gives exactly `<ul></ul>` or `<ol></ol>` |
| `HtmlList.ItemsHtmlAppend` | src/scripts/input_processing.py:105-116 | the items of two dicts laid end to end are the first dict's items followed by the second's |
| `HtmlList.ItemsHtmlIsConcat` | src/scripts/input_processing.py:105-116 | the items are one `<li>key: …</li>` per key, concatenated in insertion order |
| `HtmlList.ItemsSameWithoutDicts` | src/scripts/input_processing.py:109-113 | list values are `<ul>` in both modes: with no dict values, the ordered and unordered items are identical |
| `HtmlList.DictToHtmlListOrderedTags` | src/scripts/input_processing.py:94-121 | nested dicts take the parent's list type. With `'unordered'` the output holds no `<ol>`. With `'ordered'` it holds exactly 1 + (the number of dict values at every depth) `<ol>` tags. Keys and strings are assumed free of `<` |
| `JsonText.FormatLines` | src/scripts/input_processing.py:70-78 | `format_helper(data, level)`: the lines of every key, in insertion order |
| `JsonText.EntryLines` | src/scripts/input_processing.py:72-77 | a `key:<br>` header followed by the nested dict's lines one level deeper, or a single `key: value<br>` |
| `JsonText.JsonStringifyHtml` | src/scripts/input_processing.py:59-80 | the helper's lines joined by newlines, starting at level `indent` |
| `PyText.StrOf` | src/scripts/input_processing.py:77 | `str(value)` as an f-string field applies it: a string is itself, anything else its `repr` |
| `PyText.Repr` | src/scripts/input_processing.py:77 | `repr` of None, bools, ints, strings, lists and dicts, which `str` uses for lists and dicts |
| `PyText.Join` | src/scripts/input_processing.py:80 | `sep.join(parts)`: the parts with `sep` between consecutive ones |
| `JsonText.Spaces` | src/scripts/input_processing.py:74 | `' ' * n` is n spaces, and empty when n <= 0 |
| `JsonText.OutlineSize` | src/scripts/input_processing.py:72-78 | the outline has one row per key across all nesting levels |
| `JsonText.FormatLinesRenderOutline` | src/scripts/input_processing.py:70-78 | the helper's lines are the outline rows rendered in document order. A row at depth k is indented `indent * (k + 1)` spaces. A dict value gives a `key:<br>` header; anything else gives `key: value<br>` |
| `JsonText.LineCount` | src/scripts/input_processing.py:70-80 | the number of lines equals the number of keys at all levels |
| `JsonText.JoinNewlines` | src/scripts/input_processing.py:80 | joining newline-free lines with `'\n'` gives one newline fewer than there are lines |
| `JsonText.FormatLinesClean` | src/scripts/input_processing.py:70-78 | no line contains a newline when no key or string in the data does |
| `JsonText.JsonStringifyHtmlNewlines` | src/scripts/input_processing.py:59-80 | when no key or string holds a newline, the output has exactly (total keys - 1) newlines |

## Left out

- All file and process I/O is not modelled: reading `params.json` and the ndjson inputs, writing the CSVs with `csv.DictWriter`, and the `sys.exit(1)` paths. These only wrap the filesystem and the `ndjson` and `csv` libraries.
- `model_log_html` and `add_item_to_json_file_list` are not modelled. They append to, or rewrite, files on disk.
- Logging setup, the `sys.excepthook` handler and the timestamps are not modelled. They are environment side effects. An uncaught exception appears only as the loop's reported failure.
- The `params` handling (extracting the provider area and deleting `_provider`) is not modelled. It only feeds a CSV write.
- src/scripts/output_processing.py is not part of this model. It converts a CSV to an Excel file with pandas.
- The prior-fulfilment engine (vocabulary mapping, eligibility filters, per-geography aggregation) is not part of this model. It runs in a separate script whose source is not available here.
- Floating-point JSON numbers are not modelled. Python's `1.0 == True` would also flag a test.
- `PyText.Repr` quotes strings as `'…'` without Python's escaping and without switching to double quotes. It therefore differs from `repr` for strings that contain quotes, backslashes or non-printable characters.
- An ndjson line that is not a JSON object (a list or a scalar at top level) is not modelled. Every sample and area is a dict.
- Nested dicts inside values are not required to have distinct keys. An association list with a repeated key matches no Python dict: the model reads the first entry for that key, whereas Python's JSON loaders keep the last. This affects `IsFlagged`, `SubAreaId` and `ResultOfFlagged`, which read nested dicts.
