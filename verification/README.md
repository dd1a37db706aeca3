# test-coverage-annotate: the diff-to-coverage correlation core in Dafny

This project models the part of test-coverage-annotate that decides which
newly added lines of a pull request lack test coverage:

- **LCOV decoder** (`walkLcov`, module `LcovDecoder`). It turns an LCOV
  report into one coverage record per `end_of_record` line, with line,
  function and branch entries.
- **Diff hunk decoder** (module `GitDiff`). It turns the `+start[,count]`
  tokens of a file's hunk headers, plus the stream of that file's added
  lines, into `{lineNumber, endsAfter, line[]}` records. The stream is read
  through one cursor.
- **Coverage-file filter** (module `CoverageFiles`). It drops diff files
  that are not production source, then applies the optional include and
  exclude pattern lists.
- **Correlation engine** (module `Analyze`), covering:
  - reconciling diff paths with report paths;
  - enumerating the lines each hunk adds;
  - the new-line counts (`totalNewLines`, `coveredNewLines`);
  - the flat list of uncovered new lines;
  - the per-file uncovered items of `findUncoveredCodeInPR`.
- **Annotation formatter** (module `Annotations`). It renders those items as
  "detailed" annotations (one per item) or "summarize" annotations (one per
  file).

Supporting modules:
- `Wrappers` holds `Option` and `Result`.
- `Strings` holds the JavaScript string operations the core uses.
- `JsNumbers` holds `Number` and `parseInt` on decimal text, with NaN as a
  value.
- `CoverageTypes` holds the records exchanged between the stages.
- `Assoc` models a JavaScript object with string keys as an
  insertion-ordered association list:
  - assigning to a present key keeps its position;
  - assigning to a new key appends it;
  - `delete` removes it.

All operations are pure functions. Environment input becomes a parameter,
and the rest is listed under "Left out". The environment inputs are:
- the workspace prefix (`GITHUB_WORKSPACE`);
- the outputs of the `git`, `grep` and `awk` commands;
- the report text.

Where the design description and the code disagree, the model follows the code:
- The summarize message lists each type's line numbers but no count
  (dist/annotations.js:33).
- A `N,0` hunk token stores zero content lines (dist/git_diff.js:32-38).
  The engine still enumerates one line for it, because of
  `parseInt(endsAfter) || 1` (src/analyze.ts:56).
- A detail entry is one record with optional `name`, `line`, `hit`,
  `block`, `branch` and `taken` fields, as the decoder builds it. It is not
  a variant per metric. An unset field (`undefined`) and NaN are kept
  apart: `None` versus `Some(NaN)`.
- A diff file the report does not cover adds nothing to either count
  (src/analyze.ts:59).

## Model

| member | source | states |
|---|---|---|
| JsNumbers.ParseIntIntToString | src/analyze.ts:55-56 | `parseInt` reads back the decimal rendering of every integer |
| JsNumbers.ToNumberIntToString | src/lcov-to-json.ts:54 | `Number` reads back the decimal rendering of every integer |
| Strings.IndexOf | src/analyze.ts:24 | the result is the first position where the pattern occurs; None exactly when it occurs nowhere |
| Strings.StripLeadingSlashes | src/analyze.ts:15 | removes exactly the leading run of `/`, leaving a suffix that does not start with `/` |
| Strings.Ext | src/coverage-files.ts:33 | empty without a dot; otherwise a suffix of the path that starts with its last `.` |
| Strings.JoinSplit | src/lcov-to-json.ts:31-32 | joining the pieces of a split on a character gives back the string |
| Assoc.PutLookup | src/analyze.ts:163 | after `m[k] = v`, key `k` reads `v` and every other key reads as before |
| Assoc.PutKeys | src/analyze.ts:163 | assigning to a present key keeps the key order; a new key is appended |
| Assoc.RemoveLookup | src/analyze.ts:180 | after `delete m[k]`, `k` is absent and every other key reads as before |
| Assoc.RemoveKeys | src/analyze.ts:180 | `delete` drops exactly that key from the key order |
| LcovDecoder.FirstAwaiting | src/lcov-to-json.ts:62-68 | finds the first function entry with the record's name and no hit, or reports that none exists |
| LcovDecoder.RecordFunctionHit | src/lcov-to-json.ts:60-69 | `FNDA` sets the hit of exactly the first awaiting entry with that name, and changes nothing when there is none |
| LcovDecoder.DispatchLines | src/lcov-to-json.ts:52-55 | only `DA` changes the line entries, and it appends exactly its own entry |
| LcovDecoder.DispatchBranches | src/lcov-to-json.ts:70-78 | only `BRDA` changes the branch entries, and it appends exactly its own entry |
| LcovDecoder.DispatchFunctions | src/lcov-to-json.ts:56-69 | only `FN` (append, hit unset) and `FNDA` (fill the first awaiting entry) change the function entries |
| LcovDecoder.DispatchFile | src/lcov-to-json.ts:37-39 | only `SF` sets the file name, to its trimmed operand; a later `SF` overwrites an earlier one |
| LcovDecoder.DispatchKeepsDetails | src/lcov-to-json.ts:40-86 | summary directives and unknown directives leave the file name and every detail list unchanged |
| LcovDecoder.DirectiveLine | src/lcov-to-json.ts:31-36 | the token before the first colon picks the directive, case-insensitively; the operand is everything after that colon |
| LcovDecoder.SourceFileKeepsColons | src/lcov-to-json.ts:32-38 | `SF:C:/a.ts` names `C:/a.ts`: colons in the operand are kept |
| LcovDecoder.UnevaluatedBranchIsZero | src/lcov-to-json.ts:76 | a `BRDA` taken field of `-` is recorded as taken 0 times |
| LcovDecoder.WalkCount | src/lcov-to-json.ts:89-97 | exactly one record is closed per line that contains the marker |
| LcovDecoder.WalkAfterMarker | src/lcov-to-json.ts:89-97 | after a marker, the following lines decode as if the report started there, so no entry crosses a record boundary |
| LcovDecoder.TrailingLinesDropped | src/lcov-to-json.ts:89-100 | lines after the last marker never reach the result |
| LcovDecoder.RecordEntries | src/lcov-to-json.ts:52-78 | within a record, the line and branch entries are exactly its `DA` and `BRDA` records, in input order |
| LcovDecoder.SyntheticMarker | src/lcov-to-json.ts:29 | the leading synthetic marker closes one empty record and nothing else |
| LcovDecoder.MarkerIgnored | src/lcov-to-json.ts:36-87 | the marker line is no directive and leaves the accumulator unchanged |
| LcovDecoder.IgnoredLine | src/lcov-to-json.ts:85-86 | a line without a colon whose first letter is `e` or `E` (no directive begins so) is ignored |
| LcovDecoder.WalkLcovResult | src/lcov-to-json.ts:20-103 | success exactly when some line has the marker, giving one record per such line; otherwise the error `Failed to parse string` |
| GitDiff.PlusMatches | dist/git_diff.js:13 | every match starts with `+` followed by text, and none crosses a newline |
| GitDiff.PlusMatchesLines | dist/git_diff.js:25 | the matches of two lines are the matches of each line, in order |
| GitDiff.HeaderLineToken | dist/git_diff.js:23-25 | a header text that is one `... +start,count` line once its surrounding blanks are trimmed, as the `awk` output ` -3,2 +4,5 ` is, yields the trimmed text after its `+` as its one token |
| GitDiff.BareToken | dist/git_diff.js:45-48 | a bare `N` yields one record for line `N` with `endsAfter "1"` and exactly one content line |
| GitDiff.CommaToken | dist/git_diff.js:29-30 | a `start,count` token splits into its start and count text |
| GitDiff.CountedToken | dist/git_diff.js:29-34 | a `start,count` token with a numeric count plans a record with that `endsAfter` and as many content lines as the loop runs: `parseInt(count)` when positive, otherwise none |
| GitDiff.SkippedToken | dist/git_diff.js:31 | a non-numeric count yields no record and consumes no line |
| GitDiff.ZeroCountToken | dist/git_diff.js:32-38 | a `N,0` token yields a record with `endsAfter "0"` and no content line, and leaves the stream alone |
| GitDiff.DecodeContent | dist/git_diff.js:27-49 | the stored lines, record by record, are the next added lines of the stream in order, padded with `''`; the stream advances by exactly the number placed |
| GitDiff.HunksCursor | dist/git_diff.js:27-49 | the cursor ends at the number of lines placed, or at the end of the stream |
| GitDiff.RunAppend | dist/git_diff.js:28-49 | decoding two runs of tokens chains their streams; records follow token order |
| GitDiff.DecodeDiffAppend | dist/git_diff.js:12-50 | the file list is decoded file by file: decoding two lists one after the other gives the two results in order |
| GitDiff.FileNamesListing | dist/git_diff.js:9-10 | the listing `name1\n...\n` gives back exactly the names |
| CoverageFiles.Slashes | src/coverage-files.ts:32 | same length, and no backslash left |
| CoverageFiles.ParsePatterns | src/coverage-files.ts:47-55 | no patterns gives the constant answer; otherwise a non-empty list of non-empty patterns |
| CoverageFiles.NonEmpty | src/coverage-files.ts:54 | exactly the non-empty pieces are kept |
| CoverageFiles.FilterMembers | src/coverage-files.ts:87-100 | a file is kept exactly when it is valid for coverage, passes the include list and fails the exclude list |
| CoverageFiles.ValidNeedsExtension | src/coverage-files.ts:33-36 | an extension outside `.ts .tsx .js .jsx .mjs .cjs` (compared exactly) is never valid |
| CoverageFiles.ExcludedSegment | src/coverage-files.ts:14-21 | a path containing `__tests__`, `node_modules`, `/dist/` or `/coverage/` is never valid |
| CoverageFiles.ExcludedSuffix | src/coverage-files.ts:16-23 | a test, spec, config, minified or declaration file is never valid, whatever the case of its suffix |
| CoverageFiles.ValidityIgnoresSeparators | src/coverage-files.ts:32 | `a\b.ts` and `a/b.ts` are judged alike |
| CoverageFiles.BlankPatterns | src/coverage-files.ts:55 | blank pattern text matches every path (include) or none (exclude) |
| CoverageFiles.MatchesIgnoresCaseAndSeparators | src/coverage-files.ts:58 | matching ignores letter case and separator style |
| CoverageFiles.SegmentGlob | src/coverage-files.ts:61-63 | `**/seg/**` matches exactly the paths containing `seg` |
| CoverageFiles.TrailingSegmentGlob | src/coverage-files.ts:65-67 | `**/seg` matches exactly the paths containing `seg` |
| CoverageFiles.SuffixGlob | src/coverage-files.ts:69 | `*suf` matches exactly the paths ending with `suf` or with extension `suf` |
| CoverageFiles.ExtensionPattern | src/coverage-files.ts:70 | `.ext` matches exactly the paths with that extension |
| CoverageFiles.BarePattern | src/coverage-files.ts:71 | any other pattern matches exactly the paths containing it |
| CoverageFiles.FilterAppend | src/coverage-files.ts:95-100 | filtering a concatenation filters each part; order is kept |
| CoverageFiles.FilterSubsequence | src/coverage-files.ts:95-100 | the result is an order-preserving subsequence of the input |
| CoverageFiles.StringOptionIsInclude | src/coverage-files.ts:91-92 | a bare string option is the include list |
| CoverageFiles.FilterSamePatterns | src/coverage-files.ts:91-94 | options with the same include and exclude text filter alike |
| CoverageFiles.NoOptionsKeepsValid | src/coverage-files.ts:93-98 | without options every file passes the include and exclude lists, so exactly the files valid for coverage are kept |
| Analyze.NormalizePath | src/analyze.ts:15 | the normal form has no backslash and does not start with `/` |
| Analyze.PathsMatchCharacterized | src/analyze.ts:18-25 | the four rules reduce to two: the diff form ends with `/` plus the report form, or the report form contains the diff form |
| Analyze.PathMatchCharacterized | src/analyze.ts:14-26 | the same reduction, stated on the raw paths |
| Analyze.NormalizeIdempotent | src/analyze.ts:15 | normalising twice is normalising once |
| Analyze.NormalizeVariants | src/analyze.ts:15 | a leading `/` or backslash separators do not change the normal form |
| Analyze.PathMatchReflexive | src/analyze.ts:18 | every path matches itself |
| Analyze.PathMatchLeadingSlash | src/analyze.ts:15-17 | a leading `/` on either path never changes the match |
| Analyze.PathMatchBackslashes | src/analyze.ts:15-17 | backslash separators on either path never change the match |
| Analyze.PathMatchNormalForms | src/analyze.ts:14-17 | normalising either path first never changes the match |
| Analyze.SameLengthPaths | src/analyze.ts:14-26 | paths whose normal forms have the same length match only when those forms are equal |
| Analyze.SlightlyLongerReportPathDiffers | src/analyze.ts:14-26 | paths already in normal form, the report path two characters longer and differing wherever the diff path could start inside it, do not match |
| Analyze.UnrelatedPathsDiffer | src/analyze.ts:14-26 | the report path `src/other.ts` does not match the diff path `src/foo.ts`: neither normal form contains the other |
| Analyze.LongerPrPath | src/analyze.ts:14-26 | a longer diff path matches only when it ends with `/` plus the report path, so `src/foo.ts.bak` is not `src/foo.ts` |
| Analyze.FirstMatchSpec | src/analyze.ts:53 | `find` picks the first report record whose path matches, in report order; it picks none exactly when no record matches |
| Analyze.CheckCoverage | src/analyze.ts:102-110 | only a numeric line can be flagged |
| Analyze.CheckCoverageExists | src/analyze.ts:102-110 | a line is flagged exactly when some entry at that line has hit 0 or taken 0 |
| Analyze.CoveredByFirstEntry | src/analyze.ts:28-35 | coverage is decided by the first line entry at that line alone |
| Analyze.NoEntryNotCovered | src/analyze.ts:28-35 | without an entry at the line, the line is not covered |
| Analyze.CoveredHasEntry | src/analyze.ts:28-40 | a covered line always has a line entry |
| Analyze.ZeroCountIsOneLine | src/analyze.ts:56 | the `endsAfter "0"` of a `N,0` hunk still enumerates one line |
| Analyze.ChangeLines | src/analyze.ts:55-58 | a hunk enumerates exactly as many lines as the loop bound `parseInt(endsAfter) \|\| 1` gives |
| Analyze.HunkLines | src/analyze.ts:55-58 | a hunk `+s,k` written as decimal integers enumerates `s, s+1, ..., s+k-1` for positive `k`, the one line `s` for `k = 0` (the `\|\| 1` fallback), and nothing for negative `k` |
| Analyze.HunkLinesParsed | src/analyze.ts:55-58 | the same enumeration for any start and count texts that `parseInt` reads as `s` and `k` |
| Analyze.UnreadableStartIsNaN | src/analyze.ts:55-58 | a start text `parseInt` cannot read makes every enumerated line number NaN |
| Analyze.FileLines | src/analyze.ts:54-58 | every line of every hunk of the file is enumerated |
| Analyze.LineStatsSingle | src/analyze.ts:59-64 | one new line adds 1 to `totalNewLines` exactly when the report has a line entry for it, and 1 to `coveredNewLines` exactly when that entry is covered |
| Analyze.LineStatsAppend | src/analyze.ts:54-66 | both counts over two runs of new lines are the sums of the counts over each run |
| Analyze.CoveredSingle | src/analyze.ts:46-95 | for one diff file that has a report, the counts and the uncovered list are those of the lines its hunks enumerate, checked against that report |
| Analyze.UncoveredLinesFrom | src/analyze.ts:79-91 | every reported line carries the file's name and is one of its enumerated lines |
| Analyze.UncoveredLinesFlagged | src/analyze.ts:84-89 | every reported line has a line entry and is not covered |
| Analyze.UncoveredCount | src/analyze.ts:46-95 | the uncovered list has exactly `totalNewLines - coveredNewLines` entries |
| Analyze.DiffFilesAppend | src/analyze.ts:46-95 | both the counts and the uncovered list are built file by file, in diff order |
| Analyze.MissingSingle | src/analyze.ts:59 | a diff file the report does not cover yields no line and no count |
| Analyze.MissingFileContributesNothing | src/analyze.ts:46-95 | inserting an uncovered-by-report diff file anywhere changes neither the counts nor the list |
| Analyze.UncoveredLinesAppend | src/analyze.ts:79-91 | within a file, the uncovered lines follow the hunks' enumeration order |
| Analyze.ItemsForMetric | src/analyze.ts:119-143 | a requested `functions`, `branches` or `lines` type yields one item of that type at the line exactly when some entry of that metric at the line has hit 0 (or was taken 0 times); nothing otherwise |
| Analyze.FlagExactly | src/analyze.ts:102-110 | one metric flags a line exactly when some entry at that line reports zero hits |
| Analyze.RequestOrder | src/analyze.ts:112-146 | the items for a list of requested types are the items of each type, in request order |
| Analyze.SingleRequest | src/analyze.ts:112-146 | a single requested type yields exactly that type's items |
| Analyze.FileItems | src/analyze.ts:164-178 | every item is at an enumerated line of the file and has a known annotation type |
| Analyze.AllIsLinesFunctionsBranches | src/analyze.ts:127-137 | `all` is `lines`, then `functions`, then `branches` |
| Analyze.UnknownTypeYieldsNothing | src/analyze.ts:119-143 | an unknown type name yields no item |
| Analyze.LineFlagIsUncovered | src/analyze.ts:102-110 | for line entries with one `DA` record per line and a non-negative numeric hit each, the `lines` check is exactly "has an entry and is not covered" |
| Analyze.LinesOnlyMatchesUncovered | src/analyze.ts:125-126 | with `typesToCover = ['lines']` and line entries as above, the items are exactly the uncovered new lines, in the same order |
| Analyze.LinesOnlyMatchesFlagged | src/analyze.ts:125-126 | for every report, `typesToCover = ['lines']` yields one item per new line the `lines` check flags, in order |
| Analyze.FlaggedIsUncovered | src/analyze.ts:71-91 | for line entries as above, the lines the `lines` check flags are the uncovered new lines |
| Analyze.RecordFresh | src/analyze.ts:160-181 | recording a file under a new name appends its entry exactly when it has items |
| Analyze.CollectDistinct | src/analyze.ts:155-182 | with distinct names, the loop appends each file's entry in diff order |
| Analyze.ExpectedMembers | src/analyze.ts:174-181 | the reference result holds exactly the covered files with at least one item, each with its items |
| Analyze.FindUncoveredDistinct | src/analyze.ts:148-185 | with distinct diff names, the result equals the reference result |
| Analyze.RecordSound | src/analyze.ts:160-181 | one iteration keeps keys distinct and every value the non-empty items of a file seen |
| Analyze.CollectSound | src/analyze.ts:155-182 | the whole loop keeps that invariant |
| Analyze.FindUncoveredSound | src/analyze.ts:148-185 | for any diff, keys are distinct and every entry is a covered diff file with its non-empty items |
| Analyze.ItemsInRange | src/analyze.ts:160-178 | every item lies on a line its file's hunks enumerate and names a known type |
| Analyze.RecordLookup | src/analyze.ts:163-181 | recording a covered file sets its key to its items, or deletes the key when there are none; other keys are unchanged |
| Analyze.CollectLookup | src/analyze.ts:155-182 | after the loop, each key reads what the last covered file with that name decided |
| Analyze.FindUncoveredLookup | src/analyze.ts:148-185 | a repeated diff file name is decided by its last occurrence the report covers |
| Annotations.Singular | dist/annotations.js:1-5 | the singular is a prefix of the type name, strictly shorter for the three known plurals; other names are kept |
| Annotations.TrimWorkspace | dist/annotations.js:36 | the path loses either nothing or exactly `workspace/` |
| Annotations.TrimUnderWorkspace | dist/annotations.js:36 | a path under the workspace loses the workspace prefix |
| Annotations.TrimOutsideWorkspace | dist/annotations.js:52 | a path that does not contain `workspace/` is unchanged |
| Annotations.TrimEmptyWorkspace | dist/annotations.js:36 | with `GITHUB_WORKSPACE` unset (line 6 makes it empty), the first `/` of the path is deleted |
| Annotations.GroupByTypeDistinct | dist/annotations.js:10-16 | each type has one group |
| Annotations.GroupByTypeLookup | dist/annotations.js:10-16 | the group of a type holds exactly the line numbers of that type's items, in item order |
| Annotations.GroupByTypeKeys | dist/annotations.js:10-20 | the groups appear in the order their types first occur |
| Annotations.GroupByTypeIsReference | dist/annotations.js:7-24 | the grouping equals the reference grouping built from first appearances and per-type filters |
| Annotations.GroupSizes | dist/annotations.js:11-16 | the group sizes add up to the file's item count |
| Annotations.SummaryMessageEmpty | dist/annotations.js:31-34 | a summary message is empty exactly when the file has no items |
| Annotations.SummarizeAt | dist/annotations.js:27-45 | one annotation per file, at line 1 with the fixed title and level failure; its message has one sentence per type group, in first-appearance order |
| Annotations.DetailedAt | dist/annotations.js:47-62 | item `k` of file `i` becomes a failure annotation spanning its line, with the singular type plus ` not covered!` and no title, after all earlier items |
| Annotations.DetailedAppend | dist/annotations.js:48-62 | detailed mode works file by file, in key order |
| Annotations.DetailedCount | dist/annotations.js:48-62 | detailed mode emits exactly one annotation per item |
| Annotations.CreateAnnotationsCount | dist/annotations.js:25-64 | any other coverage type gives no annotation; summarize gives one per file; detailed gives one per item |

## Left out

- I/O is not modelled:
  - `coverageReportToJs`, `parseLcovFile` and the URL, S3, merge and temp-file helpers of src/lcov-to-json.ts are outside the model; the report text is an input.
  - The `git diff`, `grep` and `awk` invocations (dist/git_diff.js:4-23) are outside the model. Their outputs are inputs: the name listing, then per file the added-line text (`None` when the command fails) and the header text.
- GitHub plumbing is not modelled: src/index.ts, src/check-run.ts, src/pr-comment.ts and their dist copies. This covers Octokit calls, batching annotations in 50s, and Markdown comments.
- Percentage and threshold arithmetic (src/index.ts, src/debug.ts) is left out because it uses floating point and rounding.
- Console logging is left out (dist/annotations.js:29, 35; src/debug.ts).
- The compiled copies dist/lcov-to-json.js, dist/lcov-parser.js and dist/analyze.js are not modelled; the src versions are.
- `filterPrDataForCoverageWithReasons` is not part of this model: its source is not available.
- `Number` and `parseInt` are modelled on optional whitespace, an optional sign and decimal digits. Other text is NaN for `Number`, and for `parseInt` it stops at the first non-digit. Decimal fractions, exponents, hexadecimal and `Infinity` are left out, because every number the core compares is a line number or a count.
- Integers are unbounded. Precision loss above 2^53 and exponent rendering of numbers at 1e21 and above are left out.
- Case mapping is modelled for ASCII only, except the two non-ASCII letters that upper-case to an LCOV directive letter. Full Unicode case mapping is left out. The directive switch and the built-in `/i` patterns depend only on ASCII letters, so they are exact. User include and exclude patterns are not: they and the path are lower-cased with `toLowerCase` (src/coverage-files.ts:53, 58), so `ü` matches `src/Ü.ts` in JavaScript but not in the model, and `İ` lower-cases to two characters there.
- JavaScript objects order integer-like keys numerically. This applies to a file name such as `"12"` in `UncoveredFiles` and in the summarized data. The association lists keep insertion order throughout.
- Prototype-chain keys (a file named `__proto__`) are left out for the same reason.
- An association list standing for `uncoveredData` is taken as given. `FindUncoveredSound` shows that the engine's own result has distinct keys, as a real object does.
- The `Promise` around `findUncoveredCodeInPR` is left out: it resolves at once, and the model returns that value.
- `Array.isArray(items)` (dist/annotations.js:50) is always true for an item list and is not modelled as a branch.
- The mock-data scenarios of the test suite are not written as concrete lemmas, apart from the path pair `src/other.ts`/`src/foo.ts` (`UnrelatedPathsDiffer`). Not written out are the 2/1 counts, the single uncovered line 12, the other path pairs and the include/exclude examples. Concrete records make the solver unfold the recursive string and list functions element by element. The rules those scenarios exercise are stated generally: `LineStatsSingle`, `LineStatsAppend` and `CoveredSingle` for the counts, `HunkLines` for the enumerated lines, `SameLengthPaths`, `LongerPrPath` and `FirstMatchSpec` for path matching, and the pattern lemmas of `CoverageFiles` and `ValidNeedsExtension` for include and exclude.
- Analyze.FileLines: its contract states only that every enumerated line is present. The order and contents per hunk are stated by `HunkLines`.
- Analyze.LineFlagIsUncovered: holds only for line entries with one `DA` record per line and a non-negative numeric hit each (`WellFormedLines`). The decoder does not guarantee this: `DA:5` decodes to hit NaN, `DA:5,-1` to hit -1, and two `DA:5,...` records to two entries. Such reports are the subject of the finding below.
- Analyze.LinesOnlyMatchesUncovered: holds only under the same `WellFormedLines` restriction. `LinesOnlyMatchesFlagged` states the correspondence for every report, with the `lines` check itself as the filter.

## Findings

| source | as written | input that shows it | evidently intended | confidence | as-written member | corrected member |
|---|---|---|---|---|---|---|
| src/analyze.ts:71-110 | the uncovered-line list keeps a new line that has a line entry and is not covered; the `lines` annotation flags a line when some line entry there has hit 0. The doc comment calls these the same set | a report with `DA:5,3` then `DA:5,0` for new line 5 gives an annotation but no list entry; a report with `DA:5` (hit NaN) gives a list entry but no annotation | the uncovered-line list and the `lines` annotations name the same lines | not executed; low: both inputs need unusual LCOV | Analyze.RepeatedLineCounterexample, Analyze.HitlessLineCounterexample | Analyze.FlaggedLines with Analyze.LinesOnlyMatchesFlagged; Analyze.FlaggedIsUncovered shows the two agree on `WellFormedLines` reports |

The engine keeps the list as written (`UncoveredLines`), because the coverage counts are computed by the same filter. `FlaggedLines` is the list the doc comment describes, and `LinesOnlyMatchesFlagged` proves that it agrees with the `lines` annotations for every report.
