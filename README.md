# PDOUtil in Dafny

PDOUtil lets a PHP caller write an array placeholder such as `:users[]` in a
PDO query. PDO itself binds one placeholder to one scalar value. The library
has two classes:

- `PDOUtil_ArrayHelper` takes a name prefix and a list of values. At
  construction it builds the placeholder list `:p0,:p1,...` and the
  bindings `p0 => v[0], p1 => v[1], ...`.
- `PDOUtil` holds a query. Callers register `(label, value)` pairs through
  the static `add_data`, which checks the value's shape. `finalize` then walks
  the registry in order. It rewrites each array label found in the query into
  the helper's placeholder list and merges the helper's bindings. It binds each
  scalar label found in the query under the label without its leading `:`.

The model follows the source's own form:

- `PdoArrayHelper.ArrayHelper` is a class. Its constructor runs the two
  generating loops, which are methods proved against the functions
  `PlaceholderList` and `Bindings`.
- `PdoQuery.Registry` is the static `$data` array as an object with an
  `entries` sequence. `AddData` appends to it.
- `PdoQuery.PdoUtil` is a class whose `Finalize` loop reassigns `query` and
  `params`. It is proved equal to the specification function `Run`, a left
  fold of `Step` over the registry.

PHP's string and array built-ins used by the code are modelled as functions:

- `PhpStrings` holds integer-to-string conversion, `strpos`, `str_replace`,
  `rtrim` and the suffix test `StringUtil::endsWith`. It also defines
  `explode` and `implode`. pdoutil.php calls neither; they are reference
  definitions that the proofs about `str_replace` and the placeholder list are
  stated with.
- `PhpArray` holds string-keyed ordered arrays: `$a[$k] = $v` and
  `array_merge`.

The model follows PHP 8. There `strpos($q, "")` is 0, so an empty label is
found in every query, and `substr` past the end of a string gives "". In
PHP 7 `strpos` with an empty needle returns false with a warning, so an empty
label would be skipped.

`PdoQuery.PdoUtil.GetQuery` returns the `query` field and has no contract
beyond that, so it has no row below; `Finalize` states what that field holds.

PHP strings are byte strings. The model's `string` is `seq<char>`, and each
`char` stands for one byte. Nothing in the core decodes text, so the
difference is not observable.

`PdoExamples` works through the documented example and whole finalize runs.

Code and documentation disagree in one place. The doc comments
(pdoutil.php:43, pdoutil.php:67) show the placeholder list as `':pre0, :pre1'`,
with a space after the comma. The code appends `":" . $prefix . $i . ","` and
then `rtrim`s the commas, so it produces `:pre0,:pre1` with no space. The
model follows the code; `PdoExamples.HelperExample` states the exact string.

## Model

| member | source | states |
|---|---|---|
| `PhpStrings.Decimal` | pdoutil.php:91 | The string of `$i` is non-empty, made of decimal digits, at least two digits long from 10 on, and starts with "0" only for 0 (no leading zeros) |
| `PhpStrings.ParseDecimalOfDecimal` | pdoutil.php:91 | Reading the digits of `$i` back gives `$i`: the conversion loses nothing |
| `PhpStrings.DecimalInjective` | pdoutil.php:103 | Distinct indices give distinct strings |
| `PhpStrings.IndexOf` | pdoutil.php:130 | `strpos` returns the first index where the label occurs, or nothing when the label occurs nowhere |
| `PhpStrings.Contains` | pdoutil.php:130 | `strpos(...) !== false` holds exactly when the label occurs at some index of the query |
| `PhpStrings.AbsentChar` | pdoutil.php:130 | A text lacking any one character of the label does not contain the label |
| `PhpStrings.RTrim` | pdoutil.php:94 | `rtrim(s, ",")` is the longest prefix of `s` that does not end in ","; everything removed was "," |
| `PhpStrings.ReplaceAll` | pdoutil.php:135 | Definition of `str_replace` with no contract of its own; `ReplaceAllIsImplodeExplode` and `ReplaceAllSkip` state its properties |
| `PhpStrings.ReplaceAllIsImplodeExplode` | pdoutil.php:135 | `str_replace(pat, rep, s)` equals `implode(rep, explode(pat, s))` |
| `PhpStrings.ReplaceAllSkip` | pdoutil.php:135 | Text before the first character of the label is copied unchanged by `str_replace` |
| `PhpStrings.ExplodeImplode` | pdoutil.php:89-95 | Splitting a list joined by a one-character separator gives back the parts, when no part contains the separator |
| `PhpStrings.ImplodeSnoc` | pdoutil.php:89-95 | Joining one more part appends the separator and that part |
| `PhpArray.DecimalIsIntegerKey` | pdoutil.php:136 | The string of any non-negative PHP integer up to the 64-bit maximum is a key PHP stores as an integer, so `array_merge` would renumber it |
| `PhpArray.Get` | pdoutil.php:136 | A lookup finds a value exactly when the key is present, and the value is one stored under that key |
| `PhpArray.Set` | pdoutil.php:140 | Definition of `$a[$k] = $v` (also used at pdoutil.php:103) with no contract of its own; `GetSet`, `KeysSet`, `SetAbsent` and `SetKeepsUnique` state its properties |
| `PhpArray.Merge` | pdoutil.php:136 | Definition of `array_merge` on string keys, with no contract of its own; `GetMerge`, `MergeKeepsUnique` and `MergeKeepsKeyOrder` state its properties |
| `PhpArray.GetUnique` | pdoutil.php:136 | In an array without duplicate keys, each stored pair is what a lookup of its key returns |
| `PhpArray.GetSet` | pdoutil.php:140 | After `$a[$k] = $v`, `k` holds `v` and every other key holds its old value |
| `PhpArray.KeysSet` | pdoutil.php:140 | `$a[$k] = $v` keeps the key order and appends `k` only when it is new |
| `PhpArray.SetAbsent` | pdoutil.php:103 | Setting a new key appends the pair at the end |
| `PhpArray.SetKeepsUnique` | pdoutil.php:140 | `$a[$k] = $v` never creates a duplicate key |
| `PhpArray.MergeKeepsUnique` | pdoutil.php:136 | `array_merge` never creates a duplicate key |
| `PhpArray.GetMerge` | pdoutil.php:136 | After `array_merge(a, b)`, keys of `b` hold `b`'s values (later wins) and all other keys hold `a`'s |
| `PhpArray.MergeKeepsKeyOrder` | pdoutil.php:136 | `array_merge` keeps every key of `a` in its place; new keys come after |
| `PdoArrayHelper.Key` | pdoutil.php:103 | Definition of `$this->prefix . $i` (also at pdoutil.php:91) with no contract of its own; `KeyInjective` states its property |
| `PdoArrayHelper.PlaceholderList` | pdoutil.php:89-95 | Definition of what the string loop must build, with no contract of its own; `PlaceholderListSplits`, `TokensMatchKeys` and `GeneratePdoString` state its properties |
| `PdoArrayHelper.Bindings` | pdoutil.php:100-106 | Definition of what the parameter loop must build, with no contract of its own; `BindingsLookup`, `BindingsUniqueKeys` and `GeneratePdoParams` state its properties |
| `PdoArrayHelper.KeyInjective` | pdoutil.php:103 | Two positions with the same generated name are the same position |
| `PdoArrayHelper.BindingsUniqueKeys` | pdoutil.php:100-106 | The generated names are pairwise distinct |
| `PdoArrayHelper.BindingsLookup` | pdoutil.php:100-106 | The bindings have exactly n entries; `prefix.i` holds the i-th value, and no other name is bound |
| `PdoArrayHelper.TokensMatchKeys` | pdoutil.php:91-103 | The i-th placeholder is ":" followed by the i-th binding name, for every i |
| `PdoArrayHelper.PlaceholderListSplits` | pdoutil.php:89-95 | For n >= 1 and a prefix without ",", splitting the placeholder string at "," yields exactly `:p0`, ..., `:p(n-1)` in order |
| `PdoArrayHelper.EmptyData` | pdoutil.php:57-61 | No values: the placeholder string is "" and the bindings are empty |
| `PdoArrayHelper.TerminatedStep` | pdoutil.php:90-92 | Each loop pass appends one token and one "," |
| `PdoArrayHelper.TerminatedIsImplode` | pdoutil.php:90-92 | After the loop the text is the joined list followed by one "," (or empty) |
| `PdoArrayHelper.RTrimDropsOne` | pdoutil.php:94 | `rtrim` removes exactly the final "," when the character before it is not "," |
| `PdoArrayHelper.TrimmedTerminated` | pdoutil.php:94 | Trimming the loop's text gives the tokens joined by "," with no trailing comma |
| `PdoArrayHelper.TokenEndsInDigit` | pdoutil.php:91 | Every token ends in a digit, so `rtrim` never eats into a token |
| `PdoArrayHelper.ArrayHelper.constructor` | pdoutil.php:53-62 | Keeps prefix and data and eagerly builds both outputs |
| `PdoArrayHelper.ArrayHelper.GetString` | pdoutil.php:71-73 | Returns the tokens `:p0`..`:p(n-1)` joined by "," |
| `PdoArrayHelper.ArrayHelper.GetParams` | pdoutil.php:82-84 | Returns the bindings `p.i => v[i]` in input order, with distinct keys |
| `PdoArrayHelper.ArrayHelper.GeneratePdoString` | pdoutil.php:89-95 | The append loop followed by `rtrim` leaves exactly the placeholder list |
| `PdoArrayHelper.ArrayHelper.GeneratePdoParams` | pdoutil.php:100-106 | The write loop leaves exactly the bindings, each name written once |
| `PdoQuery.CheckShape` | pdoutil.php:173-179 | Passes exactly when array labels carry lists and other labels carry strings; otherwise names the mismatch |
| `PdoQuery.IsArrayLabel` | pdoutil.php:131 | Definition with no contract of its own: a label is an array label when it ends in `[]` (the same test as pdoutil.php:173) |
| `PdoQuery.ArrayPrefix` | pdoutil.php:132 | `substr($label, 1, -2)`: the label is its first character, then the prefix, then its last two characters; a label shorter than 3 gives "" as in PHP 8 |
| `PdoQuery.ScalarKey` | pdoutil.php:138 | `substr($label, 1)`: the label is its first character followed by the key; the empty label gives "" as in PHP 8 |
| `PdoQuery.Step` | pdoutil.php:129-142 | Definition of one loop pass with no contract of its own; `StepAbsent`, `StepArray` and `StepScalar` state what it does |
| `PdoQuery.Run` | pdoutil.php:128-144 | Definition of the whole loop as a fold of `Step`, with no contract of its own; `RunAppend`, `RunKeepsUniqueKeys` and `PdoUtil.Finalize` state its properties |
| `PdoQuery.FinalizableRunnable` | pdoutil.php:129-130 | A registry whose every entry is well shaped and string-keyed can be run on any query |
| `PdoQuery.RegistryRunnable` | pdoutil.php:170-182 | A registry filled by `add_data` (so every entry passed the shape check) whose labels all write string keys can be finalized on any query |
| `PdoQuery.StepAbsent` | pdoutil.php:129-130 | A label absent from the query changes neither the query nor the bindings |
| `PdoQuery.StepArray` | pdoutil.php:131-136 | A present array label has every occurrence replaced by the helper string, its generated names bound to its values, other names untouched, and the old names' order kept |
| `PdoQuery.StepScalar` | pdoutil.php:137-140 | A present scalar label leaves the text unchanged, binds the label minus its first char, changes no other name, and appends that name only if new |
| `PdoQuery.RunAppend` | pdoutil.php:129-144 | Registering one more entry adds exactly one more step at the end of `finalize` |
| `PdoQuery.RunKeepsUniqueKeys` | pdoutil.php:128-144 | `finalize` never produces a binding array with a duplicate name |
| `PdoQuery.Registry.constructor` | pdoutil.php:171 | The registry starts empty |
| `PdoQuery.Registry.AddData` | pdoutil.php:170-182 | Fails as `CheckShape` says and then leaves the registry as it was; otherwise appends exactly one entry at the end |
| `PdoQuery.PdoUtil.constructor` | pdoutil.php:120-123 | Keeps the template; no bindings yet |
| `PdoQuery.PdoUtil.Finalize` | pdoutil.php:128-144 | The new query and bindings are `Run` of the old ones over the registry, and the bindings keep distinct names |
| `PdoQuery.PdoUtil.GetParams` | pdoutil.php:160-162 | The bindings returned have no name twice |
| `PdoExamples.TwoValues` | pdoutil.php:89-106 | For two values the helper gives `:p0,:p1` and `p0 => a, p1 => b` |
| `PdoExamples.HelperExample` | pdoutil.php:38-44 | Prefix "pre" and values foo, bar give `:pre0,:pre1` (no space) and `pre0 => foo, pre1 => bar` |
| `PdoExamples.ShapeExamples` | pdoutil.php:173-179 | A string for `:tags[]` and a list for `:name` are rejected; the right shapes pass |
| `PdoExamples.UsersQueryRewritten` | pdoutil.php:130-135 | The users query contains `:u[]`, and replacing it yields `IN (:u0,:u1)` |
| `PdoExamples.MergeTwo` | pdoutil.php:136 | Merging two distinct pairs into an empty array keeps both, in order |
| `PdoExamples.ArrayLabelExample` | pdoutil.php:128-144 | `IN (:u[])` with admin1, admin2 becomes `IN (:u0,:u1)` with `u0 => admin1, u1 => admin2` |
| `PdoExamples.ScalarLabelExample` | pdoutil.php:137-140 | `id = :id` with "42" keeps its text and binds `id => 42` |
| `PdoExamples.DigitLeadingLabels` | pdoutil.php:132-140 | `:1a[]` (names "1a0", "1a1"), `:0[]` (names "00", "01") and `:1a` write string keys only, so they are accepted |
| `PdoExamples.IntegerArrayLabel` | pdoutil.php:132-136 | `:1[]` would write the name "10", an integer key, so it is refused |
| `PdoExamples.EmptyPrefixLabel` | pdoutil.php:132-136 | `:[]` would write the names "0", "1", integer keys, so it is refused |
| `PdoExamples.IntegerScalarLabel` | pdoutil.php:138-140 | `:7` would bind the integer key 7, so it is refused |
| `PdoExamples.EmptyLabelExample` | pdoutil.php:130-140 | The empty label is found at index 0 of every query (PHP 8) and binds the empty name |
| `PdoExamples.UnusedLabelExample` | pdoutil.php:129-130 | A label not in the query adds nothing |
| `PdoExamples.UnusedNumericLabelExample` | pdoutil.php:129-130 | A label the query lacks, here `:1[]`, is skipped before its key is looked at, so it is allowed and adds nothing |
| `PdoExamples.OverMatchExample` | pdoutil.php:130 | Substring search finds `:id` inside `:id2` and binds `id` anyway |
| `PdoExamples.ClientSession` | pdoutil.php:120-182 | Register, construct, finalize and read back give the rewritten query and the two bindings; a list for a scalar label is rejected |

## Left out

- `PdoQuery.PdoUtil.Finalize`: requires every registered label that the query contains when its turn comes to be well shaped and to write only string keys. Labels the query lacks are skipped, as in the source, and nothing is asked of them. A key is an integer key when PHP would store it as an integer: "0", or an optional `-` then a non-zero digit and more digits, within the 64-bit range (`PhpArray.IntegerKey`). So `:1a[]`, `:0[]` and `:1a` are accepted, while `:1[]` (name "10"), `:[]` (names "0", "1", ...) and `:7` are refused. Without this, PHP's `array_merge` renumbers integer keys, which the model does not capture. Nothing is asked of a label's length: an empty or short label behaves as in PHP 8. The range is that of 64-bit PHP; on 32-bit PHP fewer keys are integers, and the model refuses some labels there that would be harmless.
- `PdoQuery.Run`: the same precondition, for the same reason, on every label the query contains when its turn comes.
- `PdoQuery.Step`: the same precondition on its one entry, for the same reason.
- An array label whose generated names are integer keys, such as `:1[]`, is a defect of the source that the model excludes rather than models. Its helper writes the names "10", "11", and so on, and the query gets `:10,:11`. `array_merge` renumbers those integer keys to 0, 1, so the bindings no longer match the placeholders.
- Values are strings or lists of strings. PHP integers, nulls, objects and nested arrays are not modelled. So `is_string` failing on a non-array, non-string value is not modelled, and neither is binding non-string elements.
- The static `$data` is a `Registry` object passed to `Finalize`. It is not a process-wide variable, which changes nothing observable in a single-threaded run, with one exception. If `finalize` runs before any `add_data`, `self::$data` is still null, and PHP 8 emits a warning from the `foreach` at pdoutil.php:129 before doing nothing. The model has no such warning: an empty registry simply changes nothing.
- `StringUtil::endsWith` (stringutil.php) is not part of this model. It is taken to be the plain suffix test `PhpStrings.EndsWith`.
- Preparing and executing the statement through PDO is outside the library.
- The claim that re-running `finalize` is a no-op for array labels is not proved. It fails in general, because the inserted placeholder text can form the label again together with the text next to it.
