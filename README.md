# Output-versus-fixture comparison and YAML walks of format-code

This project models the logic that the format-code research workspace writes
itself, rather than the logic it borrows from formatting libraries.

- **The HTML harness scripts** (`workspace/01-tool-research/html/*.js|mjs`):
  - They run the HTML formatter on `input.html` and compare the result with
    the fixture `expected.html`.
  - Both texts are split on `'\n'` exactly as JavaScript's `String.split`
    does.
  - Every index below the longer line count is walked. A line differs when
    the two entries are not strictly equal, and an entry past the end of an
    array is `undefined`.
  - The scripts count the differing lines, show the first few of them, and
    find the first difference. direct-test.mjs and compare-output.js also
    work character by character.
  - Several scripts parse a test runner's summary: the `✔ pass N` and
    `✖ fail N` counts, and the names of failing tests.
  - Each script ends with an exit status.
- **Two recursive walks over YAML trees**:
  - `formatObject` in format-yaml-yawn.js copies the value that yawn-yaml
    parses, taken here to be plain JSON.
  - `visitNodes` in format-yaml-eemeli.js runs a callback over a parsed
    `yaml` document. The callback marks simple strings with `type = 'PLAIN'`.

The project is organised in layers:

- **Pure layers.**
  - `Lines` holds the line split, `undefined` (as `None`), the ascending
    differing indices `DiffIndices`, the capped display and the first
    difference.
  - `Scan` holds `includes`, `startsWith`, the `tag(\d+)` match with
    `parseInt`, and the lazy `/✖ (.+?) \(/` name match.
  - `Patterns` holds the anchored character-class patterns.
  - `Process` holds what `execSync` returns or throws, and the exit
    statuses.
- **`Walk`.** The two loops the scripts share: the counting walk with a
  display cap, and the walk that stops at the first differing line. Each is
  proved against a specification function of `Lines`.
- **One module per script.** Each holds the script's own loop or decision
  logic as a method. Its `ensures` ties the report to the pure layers.
- **The YAML walks.** Both are modelled on values. Trees are datatypes, and
  the in-place update of `node.type` becomes a returned tree.

The two texts a script compares are parameters, and so is the outcome of
every command it runs. A command's outcome is either its captured standard
output or the error it throws (`Process.Exec`). Where only success matters,
it is a `bool`. `process.exit(c)` becomes a returned status. A script that
reaches its last statement ends with status 0 (`Process.Finished`).

## Model

| member | source | states |
|---|---|---|
| Lines.SplitLines | workspace/01-tool-research/html/test-runner.mjs:76-77 | `split('\n')` without trimming yields one more entry than the text has newlines |
| Lines.SplitLinesHaveNoNewline | workspace/01-tool-research/html/test-runner.mjs:76-77 | no entry of a split contains a newline |
| Lines.JoinSplitLines | workspace/01-tool-research/html/test-runner.mjs:76-77 | joining the split entries with `"\n"` gives back the original text (split/join round trip) |
| Lines.SplitLinesInjective | workspace/01-tool-research/html/test-runner.mjs:76-77 | two texts with the same split are the same text |
| Lines.At | workspace/01-tool-research/html/test-runner.mjs:83 | `lines[i]` (and `s[i]` on a string) is the element exactly when `i` is below the length, and `undefined` otherwise |
| Lines.DiffsBelowSpec | workspace/01-tool-research/html/test-runner.mjs:82-83 | the differing indices below `n` are listed: each once, in ascending order, each one differing, and none missing |
| Lines.DiffIndicesComplete | workspace/01-tool-research/html/test-runner.mjs:82-83 | an index is walked and found differing exactly when its two entries differ; past both ends nothing differs, so stopping at the longer length misses none |
| Lines.DiffCountIsCardinality | workspace/01-tool-research/html/run-all-tests.mjs:37-47 | the counter equals the number of distinct differing indices below the walk's bound |
| Lines.NoDiffIffEqual | workspace/01-tool-research/html/test-runner.mjs:79-94 | no line differs if and only if the two texts are equal |
| Lines.FirstDiffIsLeast | workspace/01-tool-research/html/test-runner.mjs:84-85 | the first listed index differs, and no smaller index does |
| Lines.FirstTextDiff | workspace/01-tool-research/html/test-runner.mjs:80-90 | for two texts the differing indices are empty exactly when the texts are equal; otherwise the first one is the least differing index |
| Lines.MismatchHasDifference | workspace/01-tool-research/html/run-all-tests.mjs:28-40 | the walk on two unequal texts always finds at least one differing line |
| Lines.LowerDiffsListedFirst | workspace/01-tool-research/html/run-all-tests.mjs:38-45 | every differing index below a listed one appears earlier in the list |
| Lines.ShownEntries | workspace/01-tool-research/html/run-all-tests.mjs:41-45 | showing the first `k` entries shows `min(k, n)` of them, entry `j` as index `j` plus one |
| Lines.CappedDisplay | workspace/01-tool-research/html/run-all-tests.mjs:41-45 | the display shows `min(k, count)` line numbers, each of a differing line, in ascending order |
| Lines.CappedDisplayShowsLowest | workspace/01-tool-research/html/run-all-tests.mjs:41-45 | every differing line below a shown one is itself shown, earlier: the shown lines are the lowest |
| Lines.CappedDiffMeaning | workspace/01-tool-research/html/run-all-tests.mjs:37-51 | the count is the number of differing lines and is 0 only for equal texts; "... and N more" appears iff the count exceeds the cap; shown plus N equals the count |
| Lines.FirstDiffMeaning | workspace/01-tool-research/html/verify.js:54-56 | the first-difference walk finds nothing exactly for equal texts; otherwise the line it finds differs and every earlier line agrees |
| Lines.OrDefault | workspace/01-tool-research/html/test-formatter.js:52-53 | `line \|\| d` keeps a non-empty line and turns `undefined` or `""` into `d` |
| Lines.AbsentLooksEmpty | workspace/01-tool-research/html/test-formatter.js:49-53 | an absent line and a present `""` line are displayed alike, yet the index counts as differing |
| Scan.ContainsFrom | workspace/01-tool-research/html/verify.js:31 | the scan from an offset succeeds exactly when the pattern occurs at or after that offset |
| Scan.Contains | workspace/01-tool-research/html/verify.js:31 | `s.includes(t)` holds exactly when `t` occurs somewhere in `s` |
| Scan.FindLabelSpec | workspace/01-tool-research/html/run-all-tests.mjs:64-65 | the search for `tag` then a digit returns the leftmost position where a match can begin, or none when no position can |
| Scan.FindLabelFirst | workspace/01-tool-research/html/run-all-tests.mjs:64-65 | when `p` is the first position where a match can begin, the search returns `p` |
| Scan.DigitRun | workspace/01-tool-research/html/run-all-tests.mjs:64-65 | `\d+` is greedy: the run consists of digits taken from the text, and is followed by a non-digit or the end |
| Scan.FirstNumberNone | workspace/01-tool-research/html/run-all-tests.mjs:64-68 | `match` yields nothing exactly when no position starts the tag followed by a digit |
| Scan.DecimalString | workspace/01-tool-research/html/run-all-tests.mjs:67-68 | a count is printed as a non-empty string of decimal digits |
| Scan.DecimalRoundTrip | workspace/01-tool-research/html/run-all-tests.mjs:67-68 | `parseInt` of a printed count gives back the count |
| Scan.ParseCountAt | workspace/01-tool-research/html/run-all-tests.mjs:64-68 | when the first match starts at `p` and its digits are the numeral of `n`, the parsed count is `n` |
| Scan.ParseCountOfSummary | workspace/01-tool-research/html/run-all-tests.mjs:64-68 | in a text `pre + tag + n + post` where `pre` holds no match and `post` starts with no digit, the parsed count is `n` |
| Scan.LazyFrom | workspace/01-tool-research/html/run-all-tests.mjs:86 | the lazy group grows from length `k` to the least length that `" ("` follows, and fails when there is none |
| Scan.ShortestAt | workspace/01-tool-research/html/run-all-tests.mjs:86 | a match at `p` takes the shortest group that `.+?` allows, or there is no match at `p` |
| Scan.FindName | workspace/01-tool-research/html/run-all-tests.mjs:86 | the matcher tries start positions left to right and returns the first one that matches, with its shortest group |
| Scan.FailingNameMeaning | workspace/01-tool-research/html/run-all-tests.mjs:86-87 | a name is missing exactly when the pattern matches nowhere; otherwise it is the group of the leftmost, shortest match |
| Scan.FailureLinesMembers | workspace/01-tool-research/html/test-now.js:26-27 | the filter keeps a line exactly when it is one of the lines and contains both `✖` and `ms)` |
| Scan.FailureLinesAppend | workspace/01-tool-research/html/test-now.js:26-27 | the filter preserves order: filtering a concatenation concatenates the filtered parts |
| Scan.MatchedNamesMembers | workspace/01-tool-research/html/run-all-tests.mjs:86-87 | a name is matched exactly when one of the lines yields it |
| Scan.FailingNamesFilterThenMatch | workspace/01-tool-research/html/run-all-tests.mjs:84-89 | the collected names are the names of the failure lines, in line order |
| Scan.FailingNamesMembers | workspace/01-tool-research/html/run-all-tests.mjs:84-89 | a name is collected exactly when some line containing `✖` and `ms)` yields it |
| Scan.FailingNamesAppend | workspace/01-tool-research/html/run-all-tests.mjs:84-89 | names are collected in line order: the names of a concatenation are the names of the parts, concatenated |
| Patterns.Joined | workspace/01-tool-research/yaml-alternatives/format-yaml-eemeli.js:36-37 | `^[k]+sep[k]+$` holds exactly when some split at a separator leaves two non-empty runs over the class |
| Process.CaughtOutput | workspace/01-tool-research/html/run-all-tests.mjs:78 | `error.stdout \|\| ''` is the captured text, or `""` when it is undefined |
| Walk.CappedWalk | workspace/01-tool-research/html/run-all-tests.mjs:37-51 | the counting loop ends with the number of differing lines, the first `k` of them shown as line numbers, and the "more" remainder |
| Walk.FirstDifferingLine | workspace/01-tool-research/html/verify.js:54-66 | the loop that breaks at the first differing index returns the least differing index, or none |
| TestRunner.CompareDocument | workspace/01-tool-research/html/test-runner.mjs:76-101 | `matches` holds iff the texts are equal; `firstDiff` is the least differing index, or -1 iff `matches`; the message names line `firstDiff + 1`; the exit status is 0 iff `matches` |
| RunAllTests.CompareStage | workspace/01-tool-research/html/run-all-tests.mjs:28-53 | no diff iff the texts are equal; otherwise the capped-at-3 diff, with at least one differing line |
| RunAllTests.SuiteCounts | workspace/01-tool-research/html/run-all-tests.mjs:64-68 | both counts are read from their first match, and a count with no match is 0 |
| RunAllTests.PassedOfSummary | workspace/01-tool-research/html/run-all-tests.mjs:64-67 | the pass count of a printed `✔ pass N` / `✖ fail M` summary reads back as N |
| RunAllTests.FailedOfSummary | workspace/01-tool-research/html/run-all-tests.mjs:65-68 | the fail count of a printed summary reads back as M |
| RunAllTests.SuiteCountsOfSummary | workspace/01-tool-research/html/run-all-tests.mjs:64-68 | parsing a printed summary gives back its own pass and fail counts |
| RunAllTests.CollectFailingTests | workspace/01-tool-research/html/run-all-tests.mjs:81-89 | the `for…of` loop pushes exactly the failing-test names, in line order |
| RunAllTests.RunAllTests | workspace/01-tool-research/html/run-all-tests.mjs:11-98 | a formatter error exits 1; otherwise the diff stage runs; a returning suite reports its counts and ends with status 0; a throwing suite reports the failing names and exits 1 |
| VerifyScript.SuiteStage | workspace/01-tool-research/html/verify.js:24-46 | the test stage fails exactly when the suite throws and its output lacks `✖ fail 0`; a thrown suite prints "All tests pass!" exactly when it exits 0 |
| VerifyScript.Verify | workspace/01-tool-research/html/verify.js:20-69 | a match gives the suite's verdict; a mismatch reports the least differing line as index+1, shows the next line exactly when the fixture has one, and exits 1 |
| TestFormatter.CompareLines | workspace/01-tool-research/html/test-formatter.js:42-65 | `differences` is the number of differing lines; the first 10 are shown as line numbers; `allMatch` holds iff there are none, iff the texts are equal |
| CompareOutput.FindIndexFrom | workspace/01-tool-research/html/compare-output.js:47 | the search from `i` returns the least fixture position at or after `i` where the output disagrees or ends, or -1 |
| CompareOutput.FirstCharDifference | workspace/01-tool-research/html/compare-output.js:47 | `findIndex` returns -1 exactly when the output agrees with the fixture on every fixture position; otherwise it returns the least disagreeing position |
| CompareOutput.FixturePrefixGivesMinusOne | workspace/01-tool-research/html/compare-output.js:42-47 | when the fixture is a proper prefix of the output, -1 is printed although the texts differ |
| CompareOutput.OutputPrefixGivesItsLength | workspace/01-tool-research/html/compare-output.js:47 | when the output is a proper prefix of the fixture, the printed position is the output's length |
| CompareOutput.UpToShape | workspace/01-tool-research/html/compare-output.js:53-61 | the printed indices are a prefix of the ascending differing indices; all but the last lie below the cap; the walk stops early only after an index at or past the cap |
| CompareOutput.ShowDifferingLines | workspace/01-tool-research/html/compare-output.js:50-61 | the `continue`/`break` loop shows every differing line below index 5 and then the first one at 5 or beyond |
| CompareOutput.CompareOutput | workspace/01-tool-research/html/compare-output.js:42-61 | equal texts print nothing more; otherwise the script prints the `findIndex` position and the lines of the loop |
| CompareOutput.SixLinesShown | workspace/01-tool-research/html/compare-output.js:53-59 | when the first six lines all differ, six lines are shown |
| CompareOutput.ShowFirstDifferences | workspace/01-tool-research/html/compare-output.js:58 | the display the comment describes shows the first `min(5, count)` differing lines |
| ValidateTests.ValidateTests | workspace/01-tool-research/html/validate-tests.mjs:21-64 | a match exits 0 iff the suite succeeds; a mismatch gives the capped-at-5 diff with count at least 1 and exits 1; the status is 0 iff the texts match and the suite succeeds |
| DirectTest.CharDiffFrom | workspace/01-tool-research/html/direct-test.mjs:26-32 | the search from `i` returns the least position below the longer length where the characters differ (one may be undefined), or -1 |
| DirectTest.FirstCharDiff | workspace/01-tool-research/html/direct-test.mjs:26-32 | the loop with `break` computes that least differing position |
| DirectTest.CharDiffNoneIffEqual | workspace/01-tool-research/html/direct-test.mjs:26-35 | `firstDiff` is -1 if and only if the texts are equal |
| DirectTest.PrefixDiffersAtShorterLength | workspace/01-tool-research/html/direct-test.mjs:27-28 | when one text is a proper prefix of the other, in either order, `firstDiff` is the shorter length |
| DirectTest.FirstDiffWithinFixture | workspace/01-tool-research/html/direct-test.mjs:40 | a found difference lies within the fixture or at its end, so `substring(0, firstDiff)` takes exactly that many characters |
| DirectTest.Substring | workspace/01-tool-research/html/direct-test.mjs:50-53 | `substring` returns no more characters than its text has |
| DirectTest.LineNumber | workspace/01-tool-research/html/direct-test.mjs:40-41 | the line number is one plus the number of newlines in the fixture before `firstDiff` |
| DirectTest.LineNumberInRange | workspace/01-tool-research/html/direct-test.mjs:41-60 | the line number names an existing fixture line, so the fixture line shown is always defined |
| DirectTest.WindowInBounds | workspace/01-tool-research/html/direct-test.mjs:46-47 | the context bounds lie within the fixture, span at most 100 characters and contain `firstDiff` when it is inside the fixture |
| DirectTest.OutputSliceBounded | workspace/01-tool-research/html/direct-test.mjs:53 | the same bounds cut at most 100 characters out of the output |
| DirectTest.DirectTest | workspace/01-tool-research/html/direct-test.mjs:8-61 | a formatter error exits 1; otherwise `firstDiff` is -1 iff the texts are equal, and a difference gives its line number, both context windows and entry `lineNum - 1` of each split |
| DirectTest.AppendedLineShowsEqualLines | workspace/01-tool-research/html/direct-test.mjs:40-61 | when the output only appends a line to the fixture `"a"`, line 1 is reported and both lines shown are `"a"` |
| Diagnose.FeatureChecks | workspace/01-tool-research/html/diagnose.mjs:49-52 | the doctype check is exactly a prefix test for `<!doctype html>`; the other three checks hold exactly when their text occurs in the output |
| Diagnose.Diagnose | workspace/01-tool-research/html/diagnose.mjs:19-52 | the unconditional walk gives the capped-at-5 diff, whose count is 0 iff the texts are equal; the line counts are one plus each text's newlines; the feature checks follow |
| FullTest.FullTest | workspace/01-tool-research/html/full-test.js:44-56 | every differing line is printed, in ascending order; the assertion passes iff the texts are equal, iff nothing is printed |
| DirectCompare.DirectCompare | workspace/01-tool-research/html/direct-compare.js:18-47 | no summary iff the texts are equal; otherwise the capped-at-10 diff with count at least 1, and the two split lengths |
| QuickTest.QuickTest | workspace/01-tool-research/html/quick-test.js:4-41 | a formatter error reports no line; otherwise a line is reported iff the texts differ, namely the least differing index plus one |
| TestFormat.TestFormat | workspace/01-tool-research/html/test-format.mjs:18-44 | equal texts exit 0 before any comparison; otherwise the capped-at-3 diff with count at least 1; the run always ends with status 0 |
| TestFinal.TestFinal | workspace/01-tool-research/html/test-final.js:17-42 | a match reports the suite's outcome; a mismatch reports the least differing line plus one |
| CompareFiles.CompareFiles | workspace/01-tool-research/html/compare-files.js:13-38 | equal texts exit 0 with no diff; otherwise the capped-at-5 diff, and exit 1 |
| TestNow.TestNow | workspace/01-tool-research/html/test-now.js:3-32 | a returning suite passes; a throwing one passes iff the first `fail <digits>` has digits `"0"`; otherwise the failure lines are listed, and printed iff there are any |
| TestNow.FailZeroMeaning | workspace/01-tool-research/html/test-now.js:17-20 | the verdict is "pass" exactly when the first `fail ` followed by a digit is followed by the single digit 0 |
| TestNow.DoubleZeroFails | workspace/01-tool-research/html/test-now.js:20-23 | a count of `00` gives the failing verdict |
| TestNow.MissingCountFails | workspace/01-tool-research/html/test-now.js:20-23 | output with no fail count gives the failing verdict |
| FormatYamlYawn.Assign | workspace/01-tool-research/yaml-alternatives/format-yaml-yawn.js:40 | `formatted[key] = value` creates no entry for the key `__proto__`; any other new key is appended at the end |
| FormatYamlYawn.AsWrittenIsIdentity | workspace/01-tool-research/yaml-alternatives/format-yaml-yawn.js:34-57 | for values without `__proto__` keys, the function as written returns a structurally equal value |
| FormatYamlYawn.CopyEntriesIsPrefix | workspace/01-tool-research/yaml-alternatives/format-yaml-yawn.js:38-42 | after `n` iterations the fresh object holds the first `n` entries, unchanged and in order |
| FormatYamlYawn.ProtoEntryDropped | workspace/01-tool-research/yaml-alternatives/format-yaml-yawn.js:39-40 | an object `{"__proto__": "x"}` is copied as `{}` |
| FormatYamlYawn.FormatObjectIsIdentity | workspace/01-tool-research/yaml-alternatives/format-yaml-yawn.js:34-57 | the corrected copy returns a structurally equal value on every input: arrays elementwise, objects with the same keys in the same order, and primitives unchanged |
| FormatYamlYawn.FormatObjectIdempotent | workspace/01-tool-research/yaml-alternatives/format-yaml-yawn.js:34-57 | formatting twice equals formatting once |
| FormatYamlYawn.AssignKeepsClean | workspace/01-tool-research/yaml-alternatives/format-yaml-yawn.js:40 | an assignment on entries with distinct keys and no `__proto__` key keeps them so, and adds no entry but its own |
| FormatYamlYawn.AsWrittenIsClean | workspace/01-tool-research/yaml-alternatives/format-yaml-yawn.js:34-57 | every value the function as written returns has distinct keys and no `__proto__` key, at every depth |
| FormatYamlYawn.AsWrittenIdempotent | workspace/01-tool-research/yaml-alternatives/format-yaml-yawn.js:34-57 | the function as written is idempotent on every value, `__proto__` keys included |
| FormatYamlYawn.AsWrittenAgrees | workspace/01-tool-research/yaml-alternatives/format-yaml-yawn.js:34-57 | without `__proto__` keys, the function as written and the corrected copy agree |
| FormatYamlEemeli.Mark | workspace/01-tool-research/yaml-alternatives/format-yaml-eemeli.js:31-41 | the callback changes only `type`, and sets it to PLAIN exactly when `value` is a string matching one of the three patterns |
| FormatYamlEemeli.Visit | workspace/01-tool-research/yaml-alternatives/format-yaml-eemeli.js:53-68 | `visitNodes` leaves every non-object value alone and returns an object for an object |
| FormatYamlEemeli.VisitKeepsShape | workspace/01-tool-research/yaml-alternatives/format-yaml-eemeli.js:53-68 | the walk changes nothing but `type` fields |
| FormatYamlEemeli.VisitIdempotent | workspace/01-tool-research/yaml-alternatives/format-yaml-eemeli.js:53-68 | walking a second time changes nothing |
| FormatYamlEemeli.ValueStopsTheWalk | workspace/01-tool-research/yaml-alternatives/format-yaml-eemeli.js:61-62 | a node with no `items` and a defined `value` is not descended into, even when it has a `key`; only the callback runs on it |
| FormatYamlEemeli.PathIsPlain | workspace/01-tool-research/yaml-alternatives/format-yaml-eemeli.js:36 | `./a/b` is recognised as a plain path |
| FormatYamlEemeli.PairIsNotEntered | workspace/01-tool-research/yaml-alternatives/format-yaml-eemeli.js:61-62 | for a one-pair mapping as the library builds it, the walk returns the tree unchanged |
| FormatYamlEemeli.UnmarkedValue | workspace/01-tool-research/yaml-alternatives/format-yaml-eemeli.js:31-39 | a one-pair mapping whose plain value is unmarked does not have every plain scalar marked |
| FormatYamlEemeli.MappingValueMissed | workspace/01-tool-research/yaml-alternatives/format-yaml-eemeli.js:61-66 | after the walk, the mapping value `./a/b` of `k: ./a/b` is still unmarked |
| FormatYamlEemeli.VisitFixed | workspace/01-tool-research/yaml-alternatives/format-yaml-eemeli.js:58-66 | the corrected walk leaves non-object values alone |
| FormatYamlEemeli.VisitAgreesWithoutPairs | workspace/01-tool-research/yaml-alternatives/format-yaml-eemeli.js:53-68 | on trees where no node without `items` has a defined `value` beside a node key or value, the walk as written visits every item and the key and value of every pair, and equals the corrected walk |
| FormatYamlEemeli.VisitMarksPairFree | workspace/01-tool-research/yaml-alternatives/format-yaml-eemeli.js:29-68 | on a library-shaped tree of that kind, the walk as written marks every plain scalar |
| FormatYamlEemeli.VisitFixedMarksAll | workspace/01-tool-research/yaml-alternatives/format-yaml-eemeli.js:53-68 | the corrected walk marks every plain scalar of a tree the library builds |
| FormatYamlEemeli.VisitFixedKeepsShape | workspace/01-tool-research/yaml-alternatives/format-yaml-eemeli.js:53-68 | the corrected walk also changes nothing but `type` fields |
| FormatYamlEemeli.PortPairIsPlain | workspace/01-tool-research/yaml-alternatives/format-yaml-eemeli.js:37 | the digit exclusion belongs only to the bare-word pattern, so `80:80` is plain |
| FormatYamlEemeli.NumberIsNotPlain | workspace/01-tool-research/yaml-alternatives/format-yaml-eemeli.js:38 | `123` is not plain |
| FormatYamlEemeli.SpacedIsNotPlain | workspace/01-tool-research/yaml-alternatives/format-yaml-eemeli.js:36-38 | a string with a space is not plain |

## Left out

- Process and file plumbing: `spawn`, `execSync`, writes to stdin, stream chunks, `fs` reads and writes, promises and events. The two compared texts are inputs. A command is modelled only by its outcome: the captured output or the thrown error (`Process.Exec`), or a success flag where nothing else is read (`npm test` with `stdio: 'inherit'`).
- Console rendering: messages, emoji, `JSON.stringify` quoting, the `'<EOF>'` label and the printed lengths. The model keeps which lines are shown and their line numbers. `Lines.OrDefault` models `|| ''`.
- test-runner.mjs tests 1 to 3 (lines 36-64): each runs the formatter on a literal and prints whether its output includes a substring. None of them affects `matches` or the exit status.
- Formatter errors that a script does not catch: verify.js, validate-tests.mjs, diagnose.mjs, test-format.mjs, test-final.js, direct-compare.js and compare-files.js let a throwing `execSync` end the process with an uncaught exception. Their methods take the formatter's output as given.
- Formatter rejections caught by `main().catch(console.error)`: in test-runner.mjs, test-formatter.js and compare-output.js, such a rejection only prints. In full-test.js the `node:test` runner reports it. These methods also start from the output.
- Text is a sequence of Unicode scalar values, and every character is assumed to be one UTF-16 unit. JavaScript counts UTF-16 units in `output[i]`, `.length` and `substring` (direct-test.mjs:27-53 and its ±50 window), while `[...expected]` in compare-output.js:47 iterates code points. For text outside the Basic Multilingual Plane, the positions, lengths and windows the model computes differ from the scripts'.
- JavaScript numbers are modelled as unbounded integers. `parseInt` of a very long digit run loses precision in JavaScript, but not in the model.
- FormatYamlEemeli.Visit: the in-place update of `node.type` is modelled on values. The model does not capture aliasing, such as a node shared between two places in the tree or a node reached twice.
- FormatYamlEemeli.Visit: the order of the callback calls is not modelled. The callback only writes to the node it is given, so the order cannot change the result. The property "the callback runs on a node before its children" is therefore not stated.
- FormatYamlYawn: values are plain JSON (null, booleans, numbers, strings, arrays and objects). yawn-yaml's `json` can also hold a `Date`, which js-yaml's default schema makes of a timestamp such as `2001-12-14`. The object branch copies its `Object.entries`, of which it has none, and returns `{}`. That case is not modelled, so the identity lemmas say nothing about documents with timestamps.
- FormatYamlYawn: `Object.entries` order is taken as given. JavaScript lists integer-like keys first, and the model's entry sequence is assumed to be in that order already.
- format-yaml-eemeli.js `doc.options` and `doc.toString()`, and yawn-yaml's `yawn.json`/`yawn.yaml`: these are library calls, so they are left out.
- A mismatch does not always end a script with a non-zero status; the model follows each script:
  - test-format.mjs reaches its end after a mismatch and exits 0.
  - direct-compare.js, test-final.js, quick-test.js, diagnose.mjs and direct-test.mjs never call `process.exit` on a mismatch.
  - test-formatter.js, compare-output.js, full-test.js and test-now.js contain no `process.exit` call at all. In full-test.js the verdict is the `node:test` assertion.
  - run-all-tests.mjs, on the suite's success path with a failed count above 0, reaches its end and exits 0.

## Findings

| source | as written | input that shows it | evidently intended | confidence | as-written member | corrected member |
|---|---|---|---|---|---|---|
| workspace/01-tool-research/yaml-alternatives/format-yaml-eemeli.js:61-66 | a node with a defined `value` is treated as a scalar. A `yaml` Pair always has a defined `value` (a node or null), so pairs are never descended into | `k: ./a/b`: the scalar `./a/b` never reaches the callback and stays unmarked | the key and value of a pair are visited, so every plain scalar is marked | high, not executed | FormatYamlEemeli.MappingValueMissed | FormatYamlEemeli.VisitFixedMarksAll |
| workspace/01-tool-research/yaml-alternatives/format-yaml-yawn.js:38-41 | `formatted[key] = value` on a `{}` object invokes the inherited `__proto__` setter, which creates no own entry | `{"__proto__": "x"}` (as `JSON.parse` produces it) is copied as `{}` | a structurally equal copy with every own key | high, not executed | FormatYamlYawn.ProtoEntryDropped | FormatYamlYawn.FormatObjectIsIdentity |
| workspace/01-tool-research/html/compare-output.js:53-59 | the loop `continue`s below index 5 and `break`s only after printing the first differing index at 5 or beyond | six leading lines that all differ: six lines are shown | "Show first 5 differences": at most five lines | medium, not executed | CompareOutput.SixLinesShown | CompareOutput.ShowFirstDifferences |
