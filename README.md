# CodeBuddy analysis core in Dafny

CodeBuddy is a small Flask service that takes a Python snippet and returns
findings about it. This project models the deterministic core of that
service and proves properties of the model:

- `static_analyzer.py`:
  - the one-pass leak detector;
  - the `StaticAnalyzer` tree visitor, which records `Name` stores and loads and
    function names;
  - `check_unused_variables`, which turns stored-but-never-loaded names into
    findings;
  - `analyze_code`, which combines the leak scan, the visitor and the classifier
    into one result dictionary, or returns an error dictionary.
- `app.py`:
  - the three-pass `detect_memory_leaks`. Pass 1 flags lines. Pass 2 and pass 3
    run `re.finditer` with four fixed regular expressions; these are modelled as
    scanners with the regular-expression engine's leftmost, greedy, backtracking
    behaviour.
  - the `/analyze` route's request handling;
  - the e-mail test of `/api/verify-student`.
- `readability_analyzer.py`: the four sub-scores and their rounded average.
- `ai_analyzer.py`: the label tables and the 0.5 confidence threshold. The
  network itself is a parameter.

## Modules

| file | module | what it holds |
|---|---|---|
| `wrappers.dfy` | `Wrappers` | `Option` and `Result` |
| `text.dfy` | `Text` | These Python string operations: `split('\n')`, `in`, `strip`, `startswith`, `endswith` and `lower`. Also the line number of an offset. |
| `line_scan.dfy` | `LineScan` | The rule that flags a line which calls `open(` without `with `. Both leak detectors share it. |
| `static_analyzer.dfy` | `StaticAnalysis` | The syntax tree, the `StaticAnalyzer` class and `detect_memory_leaks`. Also `analyze_code`. |
| `leak_patterns.dfy` | `LeakPatterns` | `re.finditer` for the four leak patterns of `app.py`. |
| `app.dfy` | `App` | The three-pass detector, `/analyze` and `verify_student`. |
| `readability_analyzer.dfy` | `Readability` | The readability scorer. |
| `ai_analyzer.dfy` | `AiAnalyzer` | The classifier adapter. |

### Classes, state and effects

- `StaticAnalyzer` is a class. Its fields `issues`, `definedVars`, `usedVars` and
  `functions` are updated in place by the visit methods, as in the source. Each
  method is proved against `After`. `After` is a fold of a per-node step over the
  pre-order event sequence of the tree, `Events`.
- The loops of the source are methods with invariants:
  - the leak passes;
  - the nested naming loop;
  - the score loop of `analyze`;
  - the unused-variable loop.
- Each of these methods is proved against a stated result. The leak passes,
  the naming loop and the score loop are proved equal to a function, and the
  properties are proved about those functions. The unused-variable loop is
  proved against the relation `UnusedReport`, because it runs over a set in
  some order.
- `ast.parse` and the classifier's inference are parameters. Each is a function
  to a `Result`, whose `Err` stands for the exception raised. The classifier's
  loading is a `Result` value, with `Err` for a failed load.
- The JSON request body of a route is a parameter.

### How `analyze_code` combines its parts

- `analyze_code` is all-or-nothing. Any exception returns only
  `{'error': 'Analysis failed: …'}`. This includes a syntax error raised before
  the leak scan runs (`StaticAnalysis.AnalyzeCode`).
- `analyze_code` never calls `calculate_readability_score`, so the envelope has
  no readability section.

## Model

| member | source | states |
|---|---|---|
| `LineScan.FlaggedLines` | static_analyzer.py:13-21 | The numbers of the lines containing `open(` but not `with `. They are counted from 1, strictly ascending, and each names such a line; no such line is missing. |
| `LineScan.NoOpenNoFlaggedLines` | static_analyzer.py:11-15 | A flagged line exists only if the whole text contains `open(`. |
| `StaticAnalysis.DetectMemoryLeaks` | static_analyzer.py:8-23 | The loop emits one high-severity "Unclosed file handle" warning per flagged line, with that line's number and in line order. A text without `open(` gets none. |
| `StaticAnalysis.StaticAnalyzer.constructor` | static_analyzer.py:26-31 | Empty issue list, empty defined, used and function sets, and the classifier given. |
| `StaticAnalysis.StaticAnalyzer.VisitName` | static_analyzer.py:33-43 | A Store adds the id to the defined set and appends one definition record with the node's line. A Load adds the id to the used set. Del changes nothing. Function names never change. |
| `StaticAnalysis.StaticAnalyzer.VisitFunctionDef` | static_analyzer.py:45-47 | Adds the function's name, then the state is the walk over its children. |
| `StaticAnalysis.StaticAnalyzer.GenericVisit` | static_analyzer.py:43 | Visiting the children one by one gives the walk over their concatenated events. |
| `StaticAnalysis.StaticAnalyzer.Visit` | static_analyzer.py:33-47 | Visiting a tree gives `After(old state, Events(tree))`, the fold of the per-node step over the tree in pre-order. |
| `StaticAnalysis.AfterSummary` | static_analyzer.py:33-47 | The walk from any state appends every Store's definition record in walk order. It adds exactly the stored names, the loaded names and the function names of the events. |
| `StaticAnalysis.AfterAppend` | static_analyzer.py:43-47 | Walking two event sequences in turn is walking their concatenation. |
| `StaticAnalysis.NamesInMembers` | static_analyzer.py:34-42 | A name is in the Store (Load) set exactly when some event stores (loads) it. |
| `StaticAnalysis.UnusedIsNameBased` | static_analyzer.py:52 | A name is reported exactly when some node stores it and no node anywhere in the tree loads it. |
| `StaticAnalysis.FirstDefinitionIsFirstStore` | static_analyzer.py:53-57 | The first definition record for a name carries the line of the first Store of that name in the walk, or 0 when there is none. |
| `StaticAnalysis.FindingLinesAreFirstStores` | static_analyzer.py:53-58 | An unused-variable finding carries the first Store line of its name and the message `Variable "<name>" is defined but never used`. |
| `StaticAnalysis.UnusedMessageDistinct` | static_analyzer.py:58 | Different names get different messages. |
| `StaticAnalysis.DropUnused` | static_analyzer.py:50 | Keeps exactly the definition records. |
| `StaticAnalysis.DropDefinitions` | static_analyzer.py:61 | Keeps exactly the unused-variable findings. |
| `StaticAnalysis.FirstDefinitionDropUnused` | static_analyzer.py:50-54 | Dropping old unused findings does not change which definition record the search finds first. |
| `StaticAnalysis.FirstDefinitionSkipsUnused` | static_analyzer.py:53-57 | Findings appended during the loop never hide or replace a definition record. |
| `StaticAnalysis.DropDefinitionsSplit` | static_analyzer.py:61 | Definitions followed by findings filter to exactly the findings, in order. |
| `StaticAnalysis.EnumerationSize` | static_analyzer.py:52 | A duplicate-free enumeration of a set has as many elements as the set. |
| `StaticAnalysis.UnusedReportFacts` | static_analyzer.py:49-61 | The final issues are one finding per stored-but-unloaded name and nothing else. They are pairwise distinct, and each finding is present exactly when its name is in that set. |
| `StaticAnalysis.SecondCheckFindsLineZero` | static_analyzer.py:50-57 | Running the check a second time finds no definition records, so every finding then has line 0. |
| `StaticAnalysis.StaticAnalyzer.CheckUnusedVariables` | static_analyzer.py:49-61 | The sets are unchanged. The issues become the findings for `definedVars - usedVars`, in some enumeration order of that set, with lines taken from the definition records held before. |
| `StaticAnalysis.CompletedIsSuccessful` | static_analyzer.py:65-90 | The dictionary with the three sections filled from the leak scan, the unused report and the classifier is a successful analysis. |
| `StaticAnalysis.AnalyzeCode` | static_analyzer.py:63-94 | A parse error or a classifier-loading error gives only `{'error': 'Analysis failed: <msg>'}`. Otherwise the result has exactly the three section keys, with the leak warnings, the unused-variable report over the whole tree and the classifier's findings. |
| `LeakPatterns.WordEnd` | app.py:32 | `\w+` is greedy: the run of word characters is maximal. |
| `LeakPatterns.SpaceEnd` | app.py:32 | `\s*` is greedy: the run of white space is maximal. |
| `LeakPatterns.CloseAtSound` | app.py:32 | What the closer search finds is a body in the regular expression's sense. For `[^)]+\)` that is at least one character, no `)` before the closer, and the closer `)`. For `.+` followed by `]`, `}` or `)` (app.py:47-49) it is at least one character, no newline, and then the closer. |
| `LeakPatterns.CloseAtComplete` | app.py:32 | The search misses no body. For `open(` the body it finds is the only one, ending at the first `)`. For the large-object patterns it ends no earlier than any body: the last closer on the line wins, as greedy `.+` demands (app.py:47-49). |
| `LeakPatterns.MatchAt` | app.py:32 | A match found at a position starts there and ends within the text. |
| `LeakPatterns.MatchAtSound` | app.py:32-33 | A match found at `st` is a match in the regular expression's sense: group 1 is the greedy word run at `st`, then greedy spaces, `=`, greedy spaces, the opener and a body. |
| `LeakPatterns.MatchIsGreedy` | app.py:32 | Any way of reading a match at `st` uses the greedy runs for `\w+` and both `\s*`, so backtracking into them never gives another match. |
| `LeakPatterns.MatchAtComplete` | app.py:32-33 | Whenever the regular expression matches at `st`, the scanner finds a match there with the same group 1. For `open(` it is the same match; for the large-object patterns it is the longest one, as greedy `.+` demands. |
| `LeakPatterns.FindIter` | app.py:32 | The matches lie in the text and do not overlap, in ascending order. |
| `LeakPatterns.FindIterIsScan` | app.py:32 | `finditer` skips nothing. No match starts before the first one, each match is the one at its start, and the scan resumes at its end. |
| `LeakPatterns.ScanFromEarlier` | app.py:32 | A position where no match starts can be skipped. |
| `LeakPatterns.NoOpenerNoMatch` | app.py:32 | A text without the opener has no match. |
| `App.LinePass` | app.py:20-29 | Pass 1 warns once per flagged line, in line order, with that line's number, quoting the stripped line, and for no other line. |
| `App.ScanLines` | app.py:20-29 | The pass-1 loop computes `LinePass`. |
| `App.WarningOf` | app.py:33-43 | The warning for a match lies on a line of the text, quotes the matched text, and is high exactly for the `open` pattern (medium for the large objects, app.py:54-64). |
| `App.ReportedIndices` | app.py:35 | The positions of the matches whose variable passes the whole-text test: all of them, ascending, and no others. For `open` the test is that `<var>.close()` is absent; for large objects (app.py:56) that both `<var>.clear()` and `del <var>` are absent. |
| `App.MatchPass` | app.py:32-64 | A pattern's pass is exactly the warning of each reported match, in match order: one warning per reported index and nothing else. |
| `App.Pass` | app.py:32-64 | Each warning of a regular-expression pass lies on a line of the text and is high exactly for the `open` pattern. |
| `App.LargeObjectPasses` | app.py:52-64 | Every pass-3 warning lies on a line of the text. |
| `App.LeakWarnings` | app.py:14-66 | Every warning of every pass has a line between 1 and the number of lines. |
| `App.ScanMatches` | app.py:32-64 | The loop over one pattern's matches computes `MatchPass`. |
| `App.ScanPatterns` | app.py:52-64 | The loop over the list, dict and set patterns computes their passes in that order. |
| `App.DetectMemoryLeaks` | app.py:14-66 | The result is pass 1, then pass 2, then pass 3 for lists, dicts and sets, without deduplication. |
| `App.NoOpenNoFileWarnings` | app.py:20-43 | A text without `open(` gets no pass-1 and no pass-2 warning. |
| `App.OneUnguardedLine` | app.py:17-29 | A one-line text that calls `open(` without `with ` gets exactly one pass-1 warning, on line 1. |
| `App.PassOfOneMatch` | app.py:32-43 | A pass whose scan finds one reported match gives exactly that match's warning. |
| `App.NoLargeObjects` | app.py:46-64 | A text without `[`, `{` and `set(` gets no pass-3 warning. |
| `App.UnguardedOpenWarnsTwice` | app.py:14-66 | One unguarded `open` line whose single match is reported, and with no large object, gives exactly two high warnings on line 1: pass 1's, then pass 2's. Nothing is deduplicated. |
| `App.WholeTextMatch` | app.py:32 | A match that starts at 0 and spans the whole text is all that `finditer` finds. |
| `App.OpenNeverClosedMatch` | app.py:32 | In `f = open("x")` the pattern matches the whole line, with group 1 `f`. |
| `App.OpenNeverClosedWarnsTwice` | app.py:14-66 | `f = open("x")`, with no `with` and no `f.close()`, gets a pass-1 and a pass-2 warning, both high and both on line 1. |
| `App.SetDefaults` | app.py:95-98 | Adds the missing sections as empty lists and leaves every existing entry alone. A complete envelope is returned unchanged. |
| `App.Analyze` | app.py:80-105 | A broken request gives 500 with the error text. A missing body or a missing `code` gives 400 "No code provided". An analysis error gives 500 with the error envelope. Success gives 200 with the successful analysis and every section present. |
| `App.VerifyStudent` | app.py:162-201 | No body gives 500 "Failed to verify student status". The status is 200 exactly when the e-mail is a non-empty string ending, case-insensitively, in one of the ten student domains. Any other non-empty string gives 400 "Please use a valid student email address". |
| `App.MissingEmailRefused` | app.py:166-172 | A missing, null, empty or false e-mail gives 400 "Email is required". |
| `App.StudentEmailIgnoresCase` | app.py:180 | The domain test does not depend on letter case. |
| `App.NoDotBoundary` | app.py:175-180 | The suffix test needs no dot before the domain: `a@xedu` is accepted. |
| `AiAnalyzer.GetIssueDescription` | ai_analyzer.py:35-44 | Labels 0 to 3 get their own table entry. Exactly the other indices get "Unknown issue detected". |
| `AiAnalyzer.GetSuggestion` | ai_analyzer.py:46-55 | Labels 0 to 3 get their own table entry. Exactly the other indices get "Review code for potential improvements". |
| `AiAnalyzer.TablesDistinguishLabels` | ai_analyzer.py:37-54 | Different labels have different descriptions and different suggestions. |
| `AiAnalyzer.Selected` | ai_analyzer.py:21-22 | The indices scoring strictly above 0.5, ascending, and no others. |
| `AiAnalyzer.AnalyzeScores` | ai_analyzer.py:20-30 | One finding per selected label, in label order, with that label's score, description and suggestion. |
| `AiAnalyzer.Analyze` | ai_analyzer.py:12-33 | An exception inside inference gives no findings. Otherwise the result is the selected labels' findings. |
| `AiAnalyzer.SumExceedsSelected` | ai_analyzer.py:17-22 | With non-negative scores, the sum exceeds 0.5 times the number of selected labels. |
| `AiAnalyzer.AtMostOneIssue` | ai_analyzer.py:17-22 | A softmax row has at most one score above 0.5, so at most one finding is reported. |
| `Readability.RoundHalfEven` | readability_analyzer.py:20 | Python's `round`: within one half of the argument, with ties going to the even integer. |
| `Readability.CandidatesApart` | readability_analyzer.py:9 | Two matches of the naming expression never overlap: each is four characters long, and the next starts at least four characters later. |
| `Readability.CandidateStarts` | readability_analyzer.py:9 | The match starts `findall` visits: each is a match, they ascend four or more apart, and no match is missed. |
| `Readability.FindCandidates` | readability_analyzer.py:9 | `findall` returns group 1 of each match, in order: one two-character name per match start, both word characters. |
| `Readability.SnakeCaseShape` | readability_analyzer.py:5 | `^[a-z]+(_[a-z0-9]+)*$` holds exactly when the name is non-empty, starts with a lower-case letter, has only lower-case letters, digits and `_`, never has `_` last or twice in a row, and has a digit only after some `_`. |
| `Readability.TwoCharSnakeCase` | readability_analyzer.py:5-11 | A two-character name is snake case exactly when both characters are lower-case letters. |
| `Readability.BadAmong` | readability_analyzer.py:10-12 | The names kept are exactly the candidates that are not two lower-case letters. |
| `Readability.BadAmongCounts` | readability_analyzer.py:10-12 | Each bad candidate is kept as often as it occurs, and no other name is kept. |
| `Readability.AllCandidates` | readability_analyzer.py:8-9 | Every name found on any line has two characters. |
| `Readability.BadNames` | readability_analyzer.py:8-12 | Every reported name is two characters and not all lower-case. |
| `Readability.BadNamesFiltersAll` | readability_analyzer.py:8-12 | The nested loops filter the concatenation of every line's names, in line order. |
| `Readability.BadNamesCounts` | readability_analyzer.py:8-12 | Each bad name is reported as often as it is found across all lines, and no other name is reported. |
| `Readability.NamingScore` | readability_analyzer.py:13 | The score lies in [0, 10] and is 10 when no name is bad. |
| `Readability.CheckVariableNamingQuality` | readability_analyzer.py:3-13 | The nested loops compute `BadNames` of the lines and its score. |
| `Readability.CountComments` | readability_analyzer.py:18 | At most as many comment lines as lines. |
| `Readability.CheckCommentDensity` | readability_analyzer.py:15-21 | The ratio lies in [0, 1] and the score in [0, 10]. |
| `Readability.DensityScore` | readability_analyzer.py:20 | For a ratio in [0, 1], `min(10, round(ratio * 20))` lies in [0, 10]. |
| `Readability.ThreeCommentsInTenLines` | readability_analyzer.py:18-20 | 3 comment lines out of 10 give ratio 0.3 and score 6. |
| `Readability.CheckIndentationConsistency` | readability_analyzer.py:23-30 | The report is consistent exactly when the score is 10, and the only other score is 3. |
| `Readability.IndentationByWholeText` | readability_analyzer.py:23-30 | The score is 3 exactly when the text contains both a tab and four spaces. Otherwise the report is consistent, with score 10. |
| `Readability.CheckCodeLength` | readability_analyzer.py:32-36 | The line count is the number of newlines plus one, and the score lies in [0, 10]. |
| `Readability.LengthScoreThresholds` | readability_analyzer.py:35 | The score is 10 exactly below 20 lines and 0 exactly from 200 lines on. |
| `Readability.RoundTo2KeepsQuarters` | readability_analyzer.py:49 | Rounding a whole number of quarters to two decimals leaves it unchanged. |
| `Readability.RoundedAverage` | readability_analyzer.py:45-49 | Rounding the quarter-sum of four sub-scores to two decimals gives the exact average, in [0, 10]. |
| `Readability.CalculateReadabilityScore` | readability_analyzer.py:38-54 | The total is exactly the average of the four sub-scores and lies in [0, 10]. |
| `Readability.EmptyCodeScore` | readability_analyzer.py:38-54 | The empty text scores 10, 0, 10 and 10, for a total of 7.5. |
| `Text.Split` | app.py:17 | `split('\n')` gives one more piece than there are newlines, and no piece holds a newline. |
| `Text.Strip` | app.py:28 | `strip()` is no longer than the line, and neither end of the result is white space. |
| `Text.StripTrims` | app.py:28 | The stripped line is a slice of the line with only white space before and after it. |
| `Text.LStripDropsSpace` | readability_analyzer.py:18 | Left stripping drops a prefix made only of white space. |
| `Text.RStripDropsSpace` | readability_analyzer.py:18 | Right stripping drops a suffix made only of white space. |
| `Text.Lower` | app.py:180 | `lower()` keeps the length and leaves no upper-case ASCII letter. Each character is unchanged, or an upper-case letter moved to lower case. |
| `Text.JoinSplit` | static_analyzer.py:11 | Joining the pieces of `split('\n')` gives the text back. |
| `Text.SplitJoin` | app.py:17 | Splitting a join of separator-free pieces gives the pieces back. |
| `Text.ContainsIffSomeLine` | app.py:21 | A newline-free string occurs in the text exactly when it occurs in some line. |
| `Text.LineOf` | app.py:34 | `code[:start].count('\n') + 1` is a line number between 1 and the number of lines. |
| `Text.LowerIdempotent` | app.py:180 | Lowering twice is lowering once. |

## Left out

- `ast.parse` and the `ast.NodeVisitor` dispatch are not modelled. The tree is
  given already parsed, with three node kinds: `Name`, `FunctionDef`, and every
  other node with its children in field order. A `RecursionError` on very deep
  trees is not modelled.
- `visit_Name` calls `generic_visit`, which has no effect on `Name` children.
  The model leaves that call out.
- The tokenizer, the transformer model, `torch` and softmax are left out. They
  are behind the `Classifier.infer` parameter. Model loading is a `Result`
  parameter. The checkpoint path is not modelled.
- Scores and ratios are exact reals, not binary floating point.
  `float(score)` is the identity.
- `\w` and `\b` cover ASCII word characters only, and `lower()` maps ASCII
  letters only. Python applies Unicode rules to both.
- `check_unused_variables` iterates over a Python set, whose order is
  unspecified. `StaticAnalysis.StaticAnalyzer.CheckUnusedVariables` is proved up
  to some duplicate-free enumeration of the set, not for the interpreter's
  actual order.
- These are not stored in the model's records:
  - the constant `"type"` field of the warnings (`memory_leak`, `ai_analysis`);
  - the constant `"type"` field of the issue records.
- Flask routing and JSON serialisation are left out. A request body that is not
  a JSON object, and a `code` value that is not a string, are also left out.
- `print` and `logging` output are left out.
- `app.py` passes 1 to 3 run as three loops in the source. In the model, the
  inner loops are the helper methods `App.ScanLines`, `App.ScanMatches` and
  `App.ScanPatterns`.
- Not part of this model:
  - `hotspot_plotter.py`;
  - `redundancy_detector.py`;
  - `static/script.js`;
  - the formatting, login, OAuth, health and trial routes of `app.py`.
- `LeakPatterns.MatchAt`: its contract states only where a match lies. What a
  match is, and that none is missed, are stated by `LeakPatterns.MatchAtSound`
  and `LeakPatterns.MatchAtComplete`. `LeakPatterns.FindIterIsScan` states the
  scan's completeness relative to `MatchAt`; together the three give
  completeness against the regular expression itself.
- `LeakPatterns.CloseAt`, `LeakPatterns.MatchAfterName` and
  `LeakPatterns.MatchAfterEquals` carry no contract of their own. Their meaning
  is stated by `CloseAtSound`, `CloseAtComplete`, `AfterNameSound`,
  `AfterEqualsSound` and `AfterEqualsComplete`. `None` means that no match
  starts at the position.
