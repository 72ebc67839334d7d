# Log analyzer core in Dafny

This project models the logic of `log_analyzer.py`. The program reads a file of
JSON request records, one per line. It counts the valid requests and the error
requests (status code 400 or more). It also counts the errors of each endpoint
in a `collections.Counter`, and reports the three endpoints with the most
errors.

The model has five parts:

- `JsonValue` (json_value.dfy): the values `json.loads` produces, as long as
  every string in them is a sequence of Unicode scalar values. It also
  models the two Python operations that validation applies to them: `key in
  container` and `container[key]`. Either can raise, and a raise is an
  explicit outcome (`Py.Raised`). A dict tests its keys, a str tests for a
  substring, and a list compares elements. None, bool and numbers raise.
- `Validation` (validation.dfy): `validate_log_entry`. It is modelled as the
  guard chain the source evaluates, with the catch-all handler turning every
  raise into `False`. It is proved equal to a declarative rule, `IsLogEntry`.
- `ErrorTally` (tally.dfy): the Counter. It is an insertion-ordered dict: a
  key order plus a map. `counter[e] += 1` is `Bump` on values, and
  `ErrorCounter.Increment` on the object the loop mutates.
- `TopN` (top_n.dfy): `most_common(n)`. It is modelled as repeatedly taking
  the earliest item of largest count among those not yet taken. It is proved
  to be the first n items of a stable sort by count, descending.
- `LogAnalyzer` (analyzer.dfy): the loop of `analyze_logs`. `AnalyzeLogs` is
  the imperative loop, with `total`, `errors` and an `ErrorCounter` updated in
  place. Its loop invariant ties it to `Aggregate`, a fold over the lines.
  `Aggregate` is in turn characterised against an independent description:
  the valid entries, their error entries, the per-endpoint occurrence counts,
  and the endpoints in order of first error.

`Scenarios` (scenarios.dfy) works out small files end to end:

- a success then an error on `/a` gives `(2, 1, [("/a", 1)])`;
- a line of invalid JSON before an error entry gives one request and one error;
- five endpoints with one error each give the first three in file order.

The whole analysis is a function of the file's lines (`Analyze`), so two runs on
the same lines give the same result.

## Model

| member | source | states |
|---|---|---|
| JsonValue.Occurs | log_analyzer.py:26 | `k in s` on two strings holds exactly when `k` occurs in `s` at some position |
| JsonValue.Contains | log_analyzer.py:26 | `key in v` raises exactly for None, bool, int and float; on a dict it tests the keys |
| JsonValue.Subscript | log_analyzer.py:30-34 | `v[key]` yields a value exactly when `v` is a dict holding `key`, and that value is the dict's entry; anything else raises |
| Validation.AllKeysIn | log_analyzer.py:26 | the `all(...)` generator raises only when the first `in` raises; on a dict it answers whether every listed key is present |
| Validation.ValidateLogEntry | log_analyzer.py:16-41 | accepts exactly the dicts that hold `timestamp`, `endpoint` and `status_code`, with `endpoint` a str and `status_code` an int or bool; extra keys and the timestamp's type do not matter |
| Validation.CheckEntry | log_analyzer.py:25-38 | for a dict no guard raises and the chain answers the declarative rule; for any other value the chain never answers `True` |
| Validation.ValidationRaisesOnlyOnNonObjects | log_analyzer.py:25-41 | a guard raises only on a non-dict, and then validation answers `False`; None, bool and numbers always raise at the first `in` |
| Validation.FieldNameListRaisesAtSubscript | log_analyzer.py:26-30 | a list of the three field names passes the presence guard, raises at `entry['endpoint']`, and is rejected |
| JsonValue.IntValue | log_analyzer.py:80 | an int status code compares as itself; a bool one compares as 1 when true and 0 when false |
| Validation.StatusCodeTypeQuirks | log_analyzer.py:30-36 | a `true` status code is accepted and reads as 1; a float status code such as 404.0 is rejected; a timestamp of any type passes |
| ErrorTally.Bump | log_analyzer.py:82 | `counter[e] += 1` keeps the dict invariant and positive counts; it adds one to `e`'s count, changes no other count, and appends `e` to the key order only when `e` is new |
| ErrorTally.BumpTotal | log_analyzer.py:80-82 | an increment adds exactly one to the sum of all counts |
| ErrorTally.ErrorCounter.constructor | log_analyzer.py:61 | `Counter()` starts with no keys |
| ErrorTally.ErrorCounter.Increment | log_analyzer.py:82 | the in-place increment keeps the Counter valid, and its new contents are `Bump` of the old |
| TopN.BestBelow | log_analyzer.py:90 | yields no position exactly when all are taken; otherwise the chosen position is untaken and ranks before every other untaken one (larger count, or equal count and earlier) |
| TopN.TopPositions | log_analyzer.py:90 | selects at most n distinct, untaken, in-range positions |
| TopN.TopPositionsLength | log_analyzer.py:90 | the selection has length min(n, number of untaken positions) |
| TopN.TopPositionsSorted | log_analyzer.py:90 | the selection is in the stable descending order |
| TopN.TopPositionsDominate | log_analyzer.py:90 | every selected position ranks before every untaken position left out |
| TopN.TopPositionsExhaust | log_analyzer.py:90 | given room for all untaken positions, the selection includes all of them |
| TopN.MostCommon | log_analyzer.py:90 | `most_common(n)` lists min(n, len) items taken from the Counter's items, with non-increasing counts, and no item left out has a larger count than a listed one; that the items are distinct and that ties keep insertion order is stated by `MostCommonIsStablePrefix`, `MostCommonOfCounter` and `MostCommonDescendingStable` |
| TopN.MostCommonIsStablePrefix | log_analyzer.py:90 | `most_common(n)` is the first min(n, len) items of the stable sort by count, descending |
| TopN.MostCommonOfCounter | log_analyzer.py:90 | `most_common(n)` lists min(n, number of keys) distinct keys, each with its own count |
| TopN.MostCommonDescendingStable | log_analyzer.py:90 | counts never increase along the list, and equal counts follow insertion order |
| TopN.MostCommonLeftOut | log_analyzer.py:90 | a key left out counts no more than any listed key; on a tie, it was inserted later |
| TopN.MostCommonSum | log_analyzer.py:90 | the listed counts add up to at most the sum of all counts, and to exactly that sum when there are at most n keys |
| LogAnalyzer.Step | log_analyzer.py:72-88 | one iteration keeps the Counter a well-formed dict with positive counts |
| LogAnalyzer.Aggregate | log_analyzer.py:60-88 | after any prefix of the file the Counter is well formed with positive counts, and `errors <= total` |
| LogAnalyzer.StepByEntry | log_analyzer.py:73-88 | bridging lemma, one unfolding of `Step` in terms of `EntriesOf`: a line that fails to decode or validate changes nothing; a valid entry adds one request, and when its status is 400 or more also one error and an increment of its endpoint |
| LogAnalyzer.StepAccepted | log_analyzer.py:79-82 | bridging lemma, one unfolding of `Step` in the loop's own reads: for an accepted entry, `endpoint` is a str and `status_code` an int or bool, and the iteration adds one request, plus one error and an increment of the endpoint exactly when the status code is 400 or more |
| LogAnalyzer.AggregateCounts | log_analyzer.py:72-81 | `total` is the number of lines that decode and validate; `errors` is the number of those with status 400 or more |
| LogAnalyzer.AggregateOrder | log_analyzer.py:80-82 | the Counter's keys are the endpoints with errors, in the order of each one's first error |
| LogAnalyzer.FirstSeenOrder | log_analyzer.py:82 | in the list of endpoints by first error, an entry for a later-listed endpoint always comes after some entry for each earlier-listed one |
| LogAnalyzer.AggregateTally | log_analyzer.py:80-82 | each endpoint's count is its number of error entries, and 0 for an endpoint without errors |
| LogAnalyzer.AggregateMeaning | log_analyzer.py:60-88 | the three running values together, in terms of the valid entries and their error entries |
| LogAnalyzer.TallySumsToErrors | log_analyzer.py:80-82 | the Counter's counts add up to `errors` |
| LogAnalyzer.SkippedLastLine | log_analyzer.py:73-78 | bridging lemma, one unfolding of `Aggregate` (the general statement is `SkippedLineChangesNothing`): a last line that does not decode or validate leaves the running values unchanged |
| LogAnalyzer.SkippedLineChangesNothing | log_analyzer.py:73-88 | inserting a line that does not decode or validate anywhere in a file leaves the result unchanged |
| LogAnalyzer.AggregateGrows | log_analyzer.py:72-88 | more lines never lower `total`, `errors` or any count, and only append keys |
| LogAnalyzer.Analyze | log_analyzer.py:60-90 | the result's `total` is the number of valid entries and its `errors` the number of those with status 400 or more; the top list holds at most three endpoints, each with at least one error, in non-increasing order of errors |
| LogAnalyzer.ListedCountsPositive | log_analyzer.py:82-90 | every endpoint `most_common(3)` lists has a positive count, since a key only enters the Counter through an increment |
| LogAnalyzer.TopErrorsCounts | log_analyzer.py:90 | the top list has min(3, number of endpoints with errors) distinct endpoints, each with its number of error entries |
| LogAnalyzer.TopErrorsOrder | log_analyzer.py:90 | counts never increase along the top list, and endpoints with equal counts appear in the order of their first error |
| LogAnalyzer.TopErrorsLeftOut | log_analyzer.py:90 | every endpoint with errors that the top list leaves out has no more errors than any listed one; on a tie, its first error came later |
| LogAnalyzer.TopErrorsSum | log_analyzer.py:90 | the listed error counts add up to at most `errors`, and to exactly `errors` when at most three endpoints had errors |
| LogAnalyzer.NothingValidGivesZero | log_analyzer.py:60-90 | a file in which no line decodes and validates, an empty file among them, gives `(0, 0, [])` |
| LogAnalyzer.AnalyzeLogs | log_analyzer.py:60-99 | a missing, non-regular or unreadable file ends with exit status 1; otherwise the in-place loop returns exactly `Analyze` of the lines |
| Scenarios.RequestStep | log_analyzer.py:79-82 | a request line adds one request, and one error for its endpoint exactly when its status is 400 or more (399 is not an error, 400 is) |
| Scenarios.SuccessThenError | log_analyzer.py:72-90 | a success then an error on `/a` gives `(2, 1, [("/a", 1)])` |
| Scenarios.InvalidJsonThenError | log_analyzer.py:72-88 | an undecodable line before an error entry gives `total == 1` and `errors == 1` |
| Scenarios.OneErrorEach | log_analyzer.py:72-82 | one error line on each of some distinct endpoints gives as many requests and errors as lines, and a Counter holding each endpoint once, with count 1, in file order |
| Scenarios.TiesKeepInsertionOrder | log_analyzer.py:90 | with five tied items, `most_common(3)` picks the first three in insertion order |
| Scenarios.FiveTiedEndpoints | log_analyzer.py:72-90 | one error each on `/a` to `/e` gives `(5, 5, [("/a", 1), ("/b", 1), ("/c", 1)])` |

## Left out

- Printing: the warnings for skipped lines, the error messages, and the report
  printed by `log_analyzer()`. None of them affects the result as long as
  writing to standard output succeeds.
- AnalyzeLogs: assumes every print succeeds. A print that fails during the
  loop (a closed pipe, a full device) ends the run with an uncaught exception
  and no result, which the model does not represent.
- JSON text decoding (`json.loads`, log_analyzer.py:74). Each line is given as
  its decode outcome: the decoded value, or `Undecodable`. That covers every
  exception `json.loads` raises, including the one for an empty or blank line.
  Python floats are kept as their literal text, since no float's value ever
  matters: a float is at most compared with a str key (`k in entry` on a
  list, log_analyzer.py:26), which it never equals; a float endpoint or
  status code is rejected, and a float anywhere else (the timestamp, an extra
  key) is ignored.
- The file system (log_analyzer.py:63-71, 91-99). A path that does not exist,
  that is not a regular file, or whose reading fails are reduced to the
  `LogFile` variants. `sys.exit(1)` becomes the outcome `Exited(1)`. A file
  that fails partway through reading is modelled as failing outright: the
  lines read before the failure produce no result, as in the source.
- The command-line entry point `log_analyzer()` (log_analyzer.py:102-128):
  argument count check and report formatting.
- `Counter.most_common()` without an argument. The source calls it only with 3.
- Python integers are unbounded, and so are Dafny's; no width is modelled.
- Strings holding a lone surrogate. `json.loads` turns an escape such as
  `\ud800` into a Python str with an unpaired surrogate code point, but a
  Dafny `char` is a Unicode scalar value, so `Json` cannot hold such a string,
  as a value or as a key. Lines that decode to one are outside the model.
- The timestamp: the source checks that `timestamp` is present but never checks
  its type, and the model does the same.
