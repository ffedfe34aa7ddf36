# Image quality assessment: reply repair and score tallying

The repository sends images to several vision-language models and asks each
one for a JSON verdict of the form `{"explanation": ..., "score": n}`. Two
pieces of deterministic logic sit between the model calls and the results,
and this project models both of them:

- `Utilities.truncate` repairs a model's free-text reply before it is decoded.
  - Left trim: a reply that does not start with `{` but contains one keeps only the text from its first `{` onward.
  - Right trim: a text that does not end with `}` but contains one keeps only the text up to and including its first `}`.
  - The result is handed to the JSON decoder. If decoding fails, the fixed record `{"explanation": "Error parsing JSON response.", "score": -1}` is returned instead.
- Score tallying (`Utilities.count_scores`, and the same block in the report script) turns a results document `{"scores": [record, ...]}` into:
  - the list of the records' scores;
  - the `(score, count)` pairs in ascending score order;
  - the total count.
- The report script applies the tally to every file whose name ends in `.json`, in sorted name order.

## Modules

- `Wrappers`: `Option` and `Result`.
- `JsonValue`: decoded JSON values.
  - Dictionaries are insertion-ordered sequences of entries, so the key order of the error record is part of the model.
  - `Lookup` is `d[key]`; `Assign` is `d[key] = v`.
- `PyString`: the `str` operations the trims use: `startswith`, `endswith`, `count`, `split(c, 1)`.
- `Truncation`: `truncate`.
  - The imperative method `Truncate` reassigns the reply through the two guarded trims and builds the error record by two key assignments.
  - `ParserInput` is the specification function for the text that reaches the decoder.
  - The decoder `json.loads` is the parameter `parse`, an arbitrary partial function from text to a value.
- `ScoreTally`: the comprehension `[score["score"] for score in data["scores"]]` with Python's `KeyError`/`TypeError` outcomes, then `sorted(Counter(scores).items())` and `sum(counter.values())`.
- `NameOrder`: Python's code-point ordering of strings and `sorted` on file names.
- `EvaluationReport`: the report script's loop.
  - The directory listing and the file loader are parameters.
  - The loop runs over the sorted names and skips names that do not end in `.json`.
  - It stops at the first file that cannot be decoded or tallied, as the uncaught exception does.

The right trim cuts at the first `}`, as `split("}", 1)[0]` does
(utilities.py:46), so a nested object is cut at its inner `}`. For example,
with the reply `{"a": {"b":1}} extra {`, the decoder receives `{"a": {"b":1}`
(`Truncation.NestedReplyCutAtInnerBrace`).

## Model

| member | source | states |
|---|---|---|
| JsonValue.Lookup | utilities.py:140 | `d[key]` finds a value exactly when `key` is one of the dictionary's keys, and the value found is stored under `key` |
| JsonValue.LookupFindsFirst | utilities.py:140 | the value `d[key]` finds is the one in the first entry for `key` |
| JsonValue.Assign | utilities.py:53-55 | after `d[key] = v`, `key` maps to `v` and every other key maps to what it mapped to before |
| PyString.StartsWith | utilities.py:40 | `s.startswith(prefix)`: `s` begins with `prefix` (a predicate, no contract) |
| PyString.EndsWith | utilities.py:44 | `s.endswith(suffix)`: `s` finishes with `suffix` (a predicate, no contract) |
| PyString.CountChar | utilities.py:40-44 | `s.count(c)` is the number of occurrences of `c` in `s`; it is positive exactly when `c` occurs, and at most `len(s)` |
| PyString.SplitOnce | utilities.py:42-46 | `s.split(c, 1)` is `[s]` when `c` does not occur; otherwise it is two parts that rebuild `s` around its first `c`, and the first part holds no `c` |
| Truncation.LeftFix | utilities.py:40-42 | a reply that does not start with `{` but holds one becomes its suffix from the first `{` (no `{` before it); any other reply is unchanged |
| Truncation.RightFix | utilities.py:44-46 | a text that does not end with `}` but holds one becomes its non-empty prefix ending at its first `}`, with no `}` before that; any other text is unchanged |
| Truncation.ParserInput | utilities.py:40-47 | the text handed to the decoder: the left trim, then the right trim; its properties are the lemmas below (no contract of its own) |
| Truncation.SplitGivesLeftFix | utilities.py:42 | `"{" + s.split("{", 1)[1]` is the left trim |
| Truncation.SplitGivesRightFix | utilities.py:46 | `s.split("}", 1)[0] + "}"` is the right trim |
| Truncation.AssignmentsBuildErrorRecord | utilities.py:53-55 | assigning "explanation" and then "score" into an empty dictionary yields the error record, keys in that order |
| Truncation.Truncate | utilities.py:39-57 | the decoder sees the left-then-right trimmed reply; a decoded value is returned as it is, and a decoding failure returns the error record |
| Truncation.ErrorRecordShape | utilities.py:53-55 | the error record has exactly the keys "explanation" and "score", holding "Error parsing JSON response." and -1 |
| Truncation.BracedReplyUnchanged | utilities.py:40-49 | a reply that starts with `{` and ends with `}` reaches the decoder unchanged |
| Truncation.BracelessReplyUnchanged | utilities.py:40-44 | a reply without `{` and without `}` reaches the decoder unchanged |
| Truncation.RightFixSingleClosingBrace | utilities.py:44-46 | after a right trim the text holds exactly one `}`, as its last character |
| Truncation.ParserInputFramed | utilities.py:40-47 | the decoder's input starts with `{` whenever the reply held a `{`, and ends with `}` whenever the left-trimmed text held a `}`; otherwise it is the left-trimmed text |
| Truncation.ParserInputIdempotent | utilities.py:40-47 | trimming the decoder's input a second time changes nothing |
| Truncation.FlatObjectExtracted | utilities.py:40-49 | filler without braces, then `{body}` with no `}` in the body, then anything not ending in `}` gives the decoder exactly `{body}` |
| Truncation.NestedReplyCutAtInnerBrace | utilities.py:40-49 | the reply `{"a": {"b":1}} extra {` reaches the decoder as `{"a": {"b":1}` |
| Truncation.LeftFixDropsPrefix | utilities.py:40-42 | filler without `{` in front of a text starting with `{` is dropped by the left trim |
| Truncation.RightFixDropsSuffix | utilities.py:44-46 | everything after the first `}` is dropped, unless the whole text ends with `}` |
| ScoreTally.Subscript | utilities.py:140 | `v[key]` succeeds exactly on a dictionary holding `key`, with the stored value; otherwise it raises KeyError on a dictionary and TypeError on anything else |
| ScoreTally.Elements | utilities.py:140 | iteration succeeds exactly on lists, dictionaries and strings; a list yields its items, a dictionary one element per key, a string one per character |
| ScoreTally.ScoreOf | utilities.py:140 | `record["score"]` succeeds exactly when the record is a dictionary whose "score" is an integer, and yields that integer |
| ScoreTally.ScoreList | utilities.py:140 | the comprehension over a list of records; its contract is `ScoreListSpec` and `ScoreListFirstFailure` (no contract of its own) |
| ScoreTally.ScoreListSpec | evaluation_report.py:16 | the score list exists exactly when every record's score can be read; it then has one score per record, in record order |
| ScoreTally.ScoreListFirstFailure | utilities.py:140 | a failing comprehension raises what the first unreadable record raises, and every record before it is readable |
| ScoreTally.MissingScoreRaises | utilities.py:140 | a record without a "score" key raises KeyError("score") when every record before it is readable |
| ScoreTally.ScoreListOf | utilities.py:140 | a non-dictionary document raises TypeError, and one without "scores" raises KeyError("scores"). A list under "scores" gives the comprehension over its records. A dictionary or string there gives an empty list when empty, TypeError otherwise. Any other value raises TypeError |
| ScoreTally.Bump | utilities.py:141 | counting one more score keeps the pairs strictly ascending with positive counts |
| ScoreTally.BumpCounts | utilities.py:141 | counting one more `x` adds one to the count of `x` and to the total, and leaves every other count unchanged |
| ScoreTally.Total | evaluation_report.py:22 | `sum(counter.values())` over the pairs; its value is stated by `TallyCounts` (no contract of its own) |
| ScoreTally.Tally | utilities.py:141-142 | the `(score, count)` pairs are strictly ascending by score (no duplicate score) and every count is at least 1 |
| ScoreTally.TallyCounts | evaluation_report.py:17-23 | every score's count is its number of occurrences in the score list, and the counts sum to the length of the score list |
| ScoreTally.CountScores | utilities.py:129-144 | `count_scores` succeeds exactly when the score list can be read and otherwise raises the same exception; its pairs are strictly ascending with positive counts, count each score's occurrences and sum to the number of records |
| ScoreTally.TallyCountsOccurrences | evaluation_report.py:17-18 | each pair's count is the number of occurrences of its score, at least 1, and the listed scores are exactly the scores that occur |
| ScoreTally.SortedCountsUnique | utilities.py:142 | two strictly ascending lists with positive counts that agree on every score's count are equal |
| ScoreTally.TallyIsSortedCounter | utilities.py:141-142 | any strictly ascending list with positive counts that counts each score's occurrences is the tally |
| ScoreTally.TallyExample | utilities.py:140-142 | the scores 1, 1, 2, -1, 2, 2 tally to `[(-1, 1), (1, 2), (2, 3)]` |
| NameOrder.NameLeq | evaluation_report.py:6 | Python's `a <= b` on strings: code-point lexicographic order, a proper prefix first (a predicate, no contract) |
| NameOrder.NameLeqReflexive | evaluation_report.py:6 | every name is ordered before or equal to itself |
| NameOrder.NameLeqTotal | evaluation_report.py:6 | any two names are ordered one way or the other |
| NameOrder.NameLeqTransitive | evaluation_report.py:6 | the ordering of names is transitive |
| NameOrder.NameLeqAntisymmetric | evaluation_report.py:6 | two names ordered both ways are equal |
| NameOrder.Insert | evaluation_report.py:6 | inserting a name into a sorted list keeps it sorted and adds exactly that name |
| NameOrder.SortNames | evaluation_report.py:6 | `sorted(names)` is sorted and holds the same names, each as often |
| NameOrder.SortedUnique | evaluation_report.py:6 | two sorted arrangements of the same names are equal |
| EvaluationReport.JsonOnly | evaluation_report.py:7 | the names that pass the `.json` test, in their order; stated by `JsonOnlyCounts` and `JsonOnlySorted` (no contract of its own) |
| EvaluationReport.JsonFiles | evaluation_report.py:6-7 | the sorted names that pass the `.json` test; stated by `JsonFilesInSortedOrder` (no contract of its own) |
| EvaluationReport.TallyFile | evaluation_report.py:16-23 | the tally block for one decoded document; stated by `TallyFileSpec` (no contract of its own) |
| EvaluationReport.ReportFile | evaluation_report.py:9-23 | loading one file, then its tally block: a file that is not valid JSON, or whose scores cannot be read, fails with that file's name (no contract of its own) |
| EvaluationReport.TallyFileSpec | evaluation_report.py:16-23 | the tally block succeeds exactly when the score list can be read, and otherwise raises the same exception; its list is the document's score list, its pairs equal `Utilities.count_scores` on the same document, and its total is the number of records |
| EvaluationReport.ProcessNames | evaluation_report.py:6-23 | the `.json` names are processed in listing order; each report is that file's load-and-tally result; the loop ends after all of them or at the first failing file, whose error it returns |
| EvaluationReport.Report | evaluation_report.py:6-23 | the same, over `sorted(os.listdir(...))` |
| EvaluationReport.JsonOnlyCounts | evaluation_report.py:7 | the filter keeps every name ending in `.json`, as often as it is listed, and no other name |
| EvaluationReport.JsonOnlySorted | evaluation_report.py:6-7 | filtering a sorted listing leaves it sorted |
| EvaluationReport.JsonFilesInSortedOrder | evaluation_report.py:6-7 | the processed files are exactly the listed `.json` names, with their multiplicities, in ascending name order |
| EvaluationReport.ProcessingOrderUnique | evaluation_report.py:6-7 | any sorted arrangement of the listed `.json` names is the processing order |

## Left out

- `json.loads` and `json.load` are not modelled. The decoder is the parameter `parse` of `Truncation.Truncate`, and the file loader is the parameter `load` of `EvaluationReport.Report`; both may fail.
- `truncate` catches only `json.JSONDecodeError` (utilities.py:51). Other exceptions of `json.loads` escape it: `RecursionError` on very deeply nested text, and `ValueError` on an integer literal longer than Python's digit limit. The model's `parse` returns `None` for every failure, so in the model these cases also give the error record.
- Objects are assumed to have distinct keys. `json.loads` keeps the last of duplicate keys, while `Lookup` finds the first entry for a key; the decoder is not modelled, so a decoded value with duplicate keys does not arise from it.
- A non-dictionary decoding result is returned by `truncate` as it is; what callers do with it is not modelled.
- The `print` and `logging` calls in `truncate` are not modelled. The same holds for the report script's printing of the counts, the total and the scores (evaluation_report.py:12, 19-30); the printed values are the fields of each report.
- Opening files and listing the directory are not modelled. The listing is a sequence of names, and joining them onto "output" is not modelled.
- ScoreTally.ScoreOf: only integer scores are counted. Any other score value ends the tally with `NonIntegerScore`. Python behaves differently depending on the value:
  - A float, boolean, string or null score is counted (`True` together with 1, `1.0` together with 1).
  - A mix of types that cannot be compared then raises `TypeError` in `sorted`.
  - A list or object score raises `TypeError` in `Counter`, because it is unhashable.
- ScoreTally.Elements: for a dictionary or string it states only the number of elements and no contents. The model yields the keys, or the one-character strings, as `Str` values.
- The model's `Counter` is a single ascending list of `(score, count)` pairs, built one score at a time. `Counter`'s own insertion order is not modelled, since `sorted` discards it.
- The provider scripts, `resize_image`, `image_to_base64` and `image_to_bytes` are network, SDK and image-library glue. They are not part of this model.
