# sonar-swift report ingestion, modelled in Dafny

This project models the three report parsers at the heart of the sonar-swift
plugin and proves properties of them:

- **Cobertura coverage** (`CoberturaReportParser`). A parsed report is a tree of
  packages, classes and lines. Within a package, class entries are merged into
  one accumulator per `filename`. Every `<line>` is decoded: its number, its
  hits and, for a branch line, the `"P% (covered/total)"` condition text. When
  the package is done, every accumulator whose file resolves gets up to seven
  measures. Any malformed line aborts the rest of the report.
- **JUnit reports** (`SwiftSurefireParser`). This covers:
  - the report-name filter;
  - the per-suite measures with Java `int` arithmetic;
  - skipping of invalid and already analysed suites;
  - the mapping from a test class name to its Swift file;
  - the `<tests-details>` text.
- **SwiftLint** (`SwiftLintReportParser`). The issue pattern
  `(.*.swift):(\w+):?(\w+)?: (warning|error): (.*) \((\w+)` is modelled as the
  backtracking search `java.util.regex` performs, so that `Matcher.find` is a
  function. On top of it sit the `matcher.find()` loop of `recordIssue` and the
  line loop of `parseReport`.

Modules, from the bottom up:

| module | file | what it holds |
|---|---|---|
| `Wrappers` | `wrappers.dfy` | `Option` and `Result` |
| `Numerals` | `numerals.dfy` | `Integer.parseInt`, decimal rendering, 32-bit wrap-around |
| `JavaStrings` | `java_strings.dfy` | `startsWith`/`endsWith`, `Character.isWhitespace`, `StringUtils.isNotBlank`, `substringBetween`, `split`, `String.replace` |
| `LineTables` | `line_tables.dfy` | sorted line → value tables standing in for the accumulator's maps |
| `CoverageBuilder` | `coverage_builder.dfy` | a minimal `CoverageMeasuresBuilder` with its counters and invariant |
| `Cobertura` | `cobertura.dfy` | the report tree, line decoding, the per-package fold, measure emission |
| `CoberturaFacts` | `cobertura_facts.dfy` | properties and quirks of the coverage parser |
| `SwiftLintPattern` | `swiftlint_pattern.dfy` | the issue pattern: valid matches, the engine's order, the first match |
| `SwiftLintText` | `swiftlint_text.dfy` | the text SwiftLint writes, and the proof that the pattern reads it back |
| `SwiftLint` | `swiftlint.dfy` | `recordIssue` and `parseReport`, as functions and as loops |
| `SwiftLintExamples` | `swiftlint_examples.dfy` | concrete report lines and what they produce |
| `SurefireDetails` | `surefire_details.dfy` | the `<tests-details>` serialisation |
| `Surefire` | `surefire.dfy` | report discovery, file resolution, suite measures, the `parseFiles` loops |

Host services and foreign libraries are parameters:

- The hits parser (`ParsingUtils.parseNumber` and the `(int)` cast) is `HitsParser`.
- File resolution for Cobertura is `Resolver`.
- Resolving and saving a SwiftLint issue is `Host`, which sees the whole issue.
- `StringEscapeUtils.escapeXml` is `Escape`.
- The test file system and index are `TestFileSystem`.
- `TestSuiteReport.equals` is `Env.same`; `same(s, a)` stands for `s.equals(a)`.
- `TestSuiteParser` is the `parse` argument of `Collect`.

Behaviour of the code that a reader might not expect, and that the model keeps:

- Measures are saved package by package
  (`CoberturaReportParser.java:83-85`). A failing package therefore leaves the
  measures of the packages before it saved.
- Branches-to-cover is given the hits table, not the condition total
  (`CoberturaReportParser.java:148`).
- Uncovered conditions is given the condition total, not total minus covered
  (`CoberturaReportParser.java:162`).
- Filenames are merged within a package only, because the filename map is
  created afresh for each package (`CoberturaReportParser.java:84`).
- Condition text with more than two `/` tokens is accepted; the extra tokens are
  ignored (`CoberturaReportParser.java:227-228`).
- Nothing checks that covered conditions stay within the total
  (`CoberturaReportParser.java:228`).

## Model

| member | source | states |
|---|---|---|
| Numerals.Wrap32 | src/main/java/org/sonar/plugins/swift/tests/SwiftSurefireParser.java:92 | the result of Java `int` arithmetic is in the 32-bit range, congruent to the true result modulo 2^32, and equal to it when that fits |
| Numerals.ParseInt | src/main/java/org/sonar/plugins/swift/coverage/CoberturaReportParser.java:217 | `Integer.parseInt` accepts only an optional sign followed by at least one decimal digit. The result fits in an `int` and has the sign of the text. An unsigned or `+` digit string is accepted exactly when its value is at most 2147483647, and a `-` digit string exactly when its value is at most 2147483648 |
| Numerals.ParseShowRoundTrip | src/main/java/org/sonar/plugins/swift/coverage/CoberturaReportParser.java:228 | parsing the decimal rendering of any number gives that number back |
| Numerals.ParseAcceptsPlusSign | src/main/java/org/sonar/plugins/swift/coverage/CoberturaReportParser.java:217 | a leading `+` is accepted |
| Numerals.ParseLeadingZero | src/main/java/org/sonar/plugins/swift/coverage/CoberturaReportParser.java:217 | leading zeros are accepted and ignored after any sign. With `ParseZero`, the round trip, the `+` lemma and the acceptance bounds, this fixes the outcome for every digit string |
| Numerals.ParseZero | src/main/java/org/sonar/plugins/swift/coverage/CoberturaReportParser.java:217 | `0`, `+0` and `-0` all parse to 0 |
| Numerals.ParseRejectsNonDigit | src/main/java/org/sonar/plugins/swift/coverage/CoberturaReportParser.java:217 | any non-digit after the optional sign is a `NumberFormatException` |
| Numerals.ParseRejectsEmpty | src/main/java/org/sonar/plugins/swift/coverage/CoberturaReportParser.java:217 | the empty text and a lone sign are rejected |
| Numerals.ParseRejectsOverflow | src/main/java/org/sonar/plugins/swift/coverage/CoberturaReportParser.java:217 | 2147483648 does not parse |
| JavaStrings.SubstringBetween | src/main/java/org/sonar/plugins/swift/coverage/CoberturaReportParser.java:227 | `substringBetween(text, "(", ")")` is null exactly when there is no `(`, or no `)` after the first `(` |
| JavaStrings.SubstringBetweenOfWrapped | src/main/java/org/sonar/plugins/swift/coverage/CoberturaReportParser.java:227 | the text between the first `(` and the next `)` is returned unchanged |
| JavaStrings.Split | src/main/java/org/sonar/plugins/swift/coverage/CoberturaReportParser.java:227 | `StringUtils.split` yields only non-empty, separator-free tokens |
| JavaStrings.SplitAcrossSeparator | src/main/java/org/sonar/plugins/swift/coverage/CoberturaReportParser.java:227 | splitting distributes over a separator: the tokens of `s/t` are the tokens of `s` followed by the tokens of `t` |
| JavaStrings.SplitJoinRoundTrip | src/main/java/org/sonar/plugins/swift/coverage/CoberturaReportParser.java:227 | joining non-empty separator-free tokens with `/` and splitting again gives the tokens back |
| JavaStrings.ReplaceChar | src/main/java/org/sonar/plugins/swift/tests/SwiftSurefireParser.java:225 | `replace('.', '/')` keeps the length and changes exactly the `.` characters |
| LineTables.PutSpec | src/main/java/org/sonar/plugins/swift/coverage/CoberturaReportParser.java:219 | storing a line keeps the table sorted, adds the line to its keys and leaves every other line's value alone. A line already present keeps or replaces its value according to the duplicate policy |
| LineTables.PutCountPositive | src/main/java/org/sonar/plugins/swift/coverage/CoberturaReportParser.java:120 | the number of hit lines changes only by the old and new status of the stored line |
| LineTables.PutSumValues | src/main/java/org/sonar/plugins/swift/coverage/CoberturaReportParser.java:162 | the condition total changes only by the old and new value of the stored line |
| LineTables.SizeIsDistinctLines | src/main/java/org/sonar/plugins/swift/coverage/CoberturaReportParser.java:94 | a table's size is its number of distinct lines |
| CoverageBuilder.Empty | src/main/java/org/sonar/plugins/swift/coverage/CoberturaReportParser.java:205 | a fresh accumulator satisfies the invariant and has no line, no hit line and no condition |
| CoverageBuilder.SetHits | src/main/java/org/sonar/plugins/swift/coverage/CoberturaReportParser.java:219 | `setHits` keeps the invariant, adds the line, stores the hits (subject to the duplicate policy) and leaves other lines and all condition data unchanged |
| CoverageBuilder.SetConditions | src/main/java/org/sonar/plugins/swift/coverage/CoberturaReportParser.java:228 | `setConditions(line, total, covered)` keeps the invariant and stores the total and the covered count for that line only (subject to the duplicate policy), leaving the hits unchanged |
| CoverageBuilder.CoveredLinesWithinLinesToCover | src/main/java/org/sonar/plugins/swift/coverage/CoberturaReportParser.java:120 | covered lines never exceed lines to cover, so the uncovered-lines value is never negative |
| Cobertura.DecodeCondition | src/main/java/org/sonar/plugins/swift/coverage/CoberturaReportParser.java:227-228 | a missing `(`/`)` pair is the `NullPointerException`; fewer than two `/` tokens is the index error; a `NumberFormatException` names a single token. On success both tokens parse, the total is token 1 and the covered count is token 0 |
| Cobertura.DecodeLine | src/main/java/org/sonar/plugins/swift/coverage/CoberturaReportParser.java:216-229 | the number is parsed first, then the hits, then the condition text. The first failure is the line's error. A decoded line carries condition data exactly when `branch` is `"true"` and the condition text is not blank |
| Cobertura.ApplyRecord | src/main/java/org/sonar/plugins/swift/coverage/CoberturaReportParser.java:219-228 | one decoded line keeps the accumulator invariant. Its line gets its hits, and, when it carries a condition, its total and covered count. A line already present keeps its old values under the keep-first policy. Every other line keeps its hits and condition data |
| Cobertura.CollectFileData | src/main/java/org/sonar/plugins/swift/coverage/CoberturaReportParser.java:213-231 | a class entry fails exactly when one of its lines fails, with the first such line's error. Otherwise the accumulator gains exactly the entry's parsable line numbers, and the condition lines among them |
| Cobertura.CollectFileDataFrame | src/main/java/org/sonar/plugins/swift/coverage/CoberturaReportParser.java:216-229 | when no line fails, lines the entries do not mention keep their hits and condition data |
| Cobertura.CollectFileDataValue | src/main/java/org/sonar/plugins/swift/coverage/CoberturaReportParser.java:216-229 | when no line fails, a line number that occurs in one entry only, and is new to the accumulator, ends up with that entry's parsed hits; for a condition line also with the decoded total and covered count, and otherwise with no condition data. This holds under either duplicate policy |
| Cobertura.StartFor | src/main/java/org/sonar/plugins/swift/coverage/CoberturaReportParser.java:202-207 | a filename continues from the accumulator already collected for it; the first time, it starts from a valid accumulator with no line and no condition |
| Cobertura.CollectFileMeasures | src/main/java/org/sonar/plugins/swift/coverage/CoberturaReportParser.java:198-211 | a package fails exactly when one of its class entries fails, with the first error. Otherwise the map holds one valid accumulator per filename seen |
| Cobertura.FileMeasures | src/main/java/org/sonar/plugins/swift/coverage/CoberturaReportParser.java:94-190 | a resolved file gets three line measures when there is a line to cover, and four condition measures when the condition total is positive, independently. No metric repeats, and the uncovered-lines value is lines minus hit lines, never negative |
| Cobertura.LineMeasuresValues | src/main/java/org/sonar/plugins/swift/coverage/CoberturaReportParser.java:94-134 | the three line measures exist iff lines-to-cover > 0. Their values are the number of lines, lines minus hit lines, and the hits table |
| Cobertura.ConditionMeasuresValues | src/main/java/org/sonar/plugins/swift/coverage/CoberturaReportParser.java:137-189 | the four condition measures exist iff the condition total > 0. Branches-to-cover gets the hits table, uncovered-conditions gets the total, and the two condition tables follow |
| Cobertura.EmitPackage | src/main/java/org/sonar/plugins/swift/coverage/CoberturaReportParser.java:87-193 | every filename of the package gets an outcome. An unresolved filename saves nothing (only a log line); a resolved one saves exactly `FileMeasures` of its accumulator |
| Cobertura.CollectPackageMeasures | src/main/java/org/sonar/plugins/swift/coverage/CoberturaReportParser.java:82-196 | the walk fails with the first package error in document order. When it fails, the packages before the failing one have been emitted; otherwise every package has |
| Cobertura.PackageOutcomeAt | src/main/java/org/sonar/plugins/swift/coverage/CoberturaReportParser.java:83-87 | each emitted package is built from a fresh filename map, and its keys are exactly that package's filenames |
| CoberturaFacts.DecodeConditionRoundTrip | src/main/java/org/sonar/plugins/swift/coverage/CoberturaReportParser.java:227-228 | rendering `covered/total` (plus any further `/` tokens) in parentheses after any prefix without `(` decodes to `(total, covered)`; extra tokens are ignored |
| CoberturaFacts.DecodeConditionPair | src/main/java/org/sonar/plugins/swift/coverage/CoberturaReportParser.java:227-228 | `prefix(covered/total)` decodes to total and covered |
| CoberturaFacts.SplitPair | src/main/java/org/sonar/plugins/swift/coverage/CoberturaReportParser.java:227 | two non-empty separator-free tokens joined by `/` split into exactly those two |
| CoberturaFacts.DecodeConditionHalf | src/main/java/org/sonar/plugins/swift/coverage/CoberturaReportParser.java:227-228 | `"50% (1/2)"` decodes to total 2, covered 1 |
| CoberturaFacts.DecodeConditionNoneCovered | src/main/java/org/sonar/plugins/swift/coverage/CoberturaReportParser.java:227-228 | `"0% (0/4)"` decodes to total 4, covered 0 |
| CoberturaFacts.CoveredAboveTotalAccepted | src/main/java/org/sonar/plugins/swift/coverage/CoberturaReportParser.java:228 | `"(5/2)"` is accepted with covered above total: nothing checks covered ≤ total |
| CoberturaFacts.DecodeConditionWithoutParentheses | src/main/java/org/sonar/plugins/swift/coverage/CoberturaReportParser.java:227 | text without a `(`…`)` pair fails with the null-pointer error |
| CoberturaFacts.DecodeConditionSingleToken | src/main/java/org/sonar/plugins/swift/coverage/CoberturaReportParser.java:228 | a single token fails with the index error |
| CoberturaFacts.DecodeConditionReportsTotalFirst | src/main/java/org/sonar/plugins/swift/coverage/CoberturaReportParser.java:228 | with both tokens non-numeric, the error names the total's token, because it is parsed first |
| CoberturaFacts.CollectFileDataAppend | src/main/java/org/sonar/plugins/swift/coverage/CoberturaReportParser.java:216 | feeding two runs of lines is feeding the first and then, if it succeeded, the second |
| CoberturaFacts.MergedAccumulator | src/main/java/org/sonar/plugins/swift/coverage/CoberturaReportParser.java:201-209 | a filename's accumulator after a package is what feeding all of that filename's lines, in document order, to its starting accumulator gives |
| CoberturaFacts.PackageAccumulatorLines | src/main/java/org/sonar/plugins/swift/coverage/CoberturaReportParser.java:201-209 | a filename has an accumulator iff it occurs in the package. Its lines to cover are the distinct line numbers of all entries with that filename |
| CoberturaFacts.TwoEntriesOneFile | src/main/java/org/sonar/plugins/swift/coverage/CoberturaReportParser.java:201-207 | two class entries with the same filename and different valid line numbers yield a single accumulator with two lines to cover |
| CoberturaFacts.TwoEntriesExample | src/main/java/org/sonar/plugins/swift/coverage/CoberturaReportParser.java:201-207 | two `Foo.swift` entries with lines 10 and 20 yield one accumulator with two lines |
| CoberturaFacts.SameFileInTwoPackages | src/main/java/org/sonar/plugins/swift/coverage/CoberturaReportParser.java:83-85 | a resolving filename whose entry, with one decodable line, appears in two packages has the same line measures saved twice, once per package |
| CoberturaFacts.EarlierPackagesStaySaved | src/main/java/org/sonar/plugins/swift/coverage/CoberturaReportParser.java:83-107 | when package k is the first that fails, the walk fails with its error and exactly packages 0..k-1 have been emitted |
| CoberturaFacts.BadLineNumberAborts | src/main/java/org/sonar/plugins/swift/coverage/CoberturaReportParser.java:217 | a non-numeric line number anywhere fails the whole report, and no package from the failing one on is emitted |
| CoberturaFacts.BranchesToCoverGetsHitsTable | src/main/java/org/sonar/plugins/swift/coverage/CoberturaReportParser.java:148 | branches-to-cover carries the hits table, not the condition count |
| CoberturaFacts.UncoveredConditionsGetsTotal | src/main/java/org/sonar/plugins/swift/coverage/CoberturaReportParser.java:162 | uncovered-conditions carries the condition total, not total minus covered |
| CoberturaFacts.ConditionMeasuresWithoutLines | src/main/java/org/sonar/plugins/swift/coverage/CoberturaReportParser.java:137 | the two emission tests are independent: an accumulator with conditions but no lines gets the four condition measures and no line measure. No report reaches such an accumulator (see `CoberturaFacts.ConditionLinesHaveHits`) |
| CoberturaFacts.ConditionLinesHaveHits | src/main/java/org/sonar/plugins/swift/coverage/CoberturaReportParser.java:219-228 | since `setHits` precedes `setConditions` on every line, every line with conditions also has hits after `collectFileData` |
| SwiftLintPattern.DotRunEnd | src/main/java/org/sonar/plugins/swift/issues/swiftlint/SwiftLintReportParser.java:69 | the end of a maximal run of `.` characters (anything but a line terminator) |
| SwiftLintPattern.WordRunEnd | src/main/java/org/sonar/plugins/swift/issues/swiftlint/SwiftLintReportParser.java:69 | the end of a maximal run of `\w` characters |
| SwiftLintPattern.SeverityAt | src/main/java/org/sonar/plugins/swift/issues/swiftlint/SwiftLintReportParser.java:69 | `(warning\|error): ` matches exactly when one of the two literal words and `": "` are at that position |
| SwiftLintPattern.LastOpening | src/main/java/org/sonar/plugins/swift/issues/swiftlint/SwiftLintReportParser.java:69 | the greedy message backs off to the last position followed by ` (` and a word character |
| SwiftLintPattern.MatchTail | src/main/java/org/sonar/plugins/swift/issues/swiftlint/SwiftLintReportParser.java:69 | what it finds is a match of `(warning\|error): (.*) \((\w+)` |
| SwiftLintPattern.MatchTailFirst | src/main/java/org/sonar/plugins/swift/issues/swiftlint/SwiftLintReportParser.java:69 | whenever the tail can match, it is found, and it is the engine's first choice: longest message, then longest rule id |
| SwiftLintPattern.AfterLine | src/main/java/org/sonar/plugins/swift/issues/swiftlint/SwiftLintReportParser.java:69 | what it finds after the line group is a match of `:?(\w+)?: ` and the tail |
| SwiftLintPattern.AfterLineFirst | src/main/java/org/sonar/plugins/swift/issues/swiftlint/SwiftLintReportParser.java:69 | after a maximal line group, the engine's first way is found: colon and column, then colon only, then neither |
| SwiftLintPattern.MatchMiddle | src/main/java/org/sonar/plugins/swift/issues/swiftlint/SwiftLintReportParser.java:69 | what it finds after the path is a match of `:(\w+):?(\w+)?: ` and the tail |
| SwiftLintPattern.MatchMiddleFirst | src/main/java/org/sonar/plugins/swift/issues/swiftlint/SwiftLintReportParser.java:69 | whenever the rest of the pattern matches after the path, the engine's first way is found; trying only the longest line group loses nothing |
| SwiftLintPattern.MatchFrom | src/main/java/org/sonar/plugins/swift/issues/swiftlint/SwiftLintReportParser.java:69 | with the greedy path backing off from a bound, the result is the engine's first match at that start, and none exists when it finds nothing |
| SwiftLintPattern.MatchAt | src/main/java/org/sonar/plugins/swift/issues/swiftlint/SwiftLintReportParser.java:69 | the first match starting at a position, in the engine's order, and none when it finds nothing |
| SwiftLintPattern.Find | src/main/java/org/sonar/plugins/swift/issues/swiftlint/SwiftLintReportParser.java:72 | `matcher.find()`: the leftmost match at or after the position, first in the engine's order; nothing only when no match starts there or later |
| SwiftLintPattern.AllMatches | src/main/java/org/sonar/plugins/swift/issues/swiftlint/SwiftLintReportParser.java:72 | the successive `find()` results are all matches, each starting at or after the end of the one before |
| SwiftLintPattern.GroupsOf | src/main/java/org/sonar/plugins/swift/issues/swiftlint/SwiftLintReportParser.java:73-76 | groups 1 to 6 of a match. The path has at least six characters and ends in `swift`; the line and rule groups are non-empty; a present column is non-empty |
| SwiftLintText.IssueTextRoundTrip | src/main/java/org/sonar/plugins/swift/issues/swiftlint/SwiftLintReportParser.java:69-76 | for every well-formed issue line, with or without a column, the pattern finds exactly one match, and its groups are the path, line, column, severity, message and rule that were written |
| SwiftLintText.Layout | src/main/java/org/sonar/plugins/swift/issues/swiftlint/SwiftLintReportParser.java:69 | where each field sits in the text SwiftLint writes |
| SwiftLintText.FindsShaped | src/main/java/org/sonar/plugins/swift/issues/swiftlint/SwiftLintReportParser.java:72 | in a line shaped like an issue, `find()` returns the intended match and then nothing more |
| SwiftLintText.NoLongerPath | src/main/java/org/sonar/plugins/swift/issues/swiftlint/SwiftLintReportParser.java:69 | the greedy `(.*.swift)` cannot end later than the written path |
| SwiftLintText.NoEarlierMiddle | src/main/java/org/sonar/plugins/swift/issues/swiftlint/SwiftLintReportParser.java:69 | no other split of the line, column, message and rule comes before the intended one in the engine's order |
| SwiftLint.IssueOf | src/main/java/org/sonar/plugins/swift/issues/swiftlint/SwiftLintReportParser.java:73-76 | a match gives an issue exactly when its line token parses as an `int`. Otherwise the error is that token; path and rule are copied |
| SwiftLint.MatchGroups | src/main/java/org/sonar/plugins/swift/issues/swiftlint/SwiftLintReportParser.java:72-76 | one group set per match, in order |
| SwiftLint.RecordGroups | src/main/java/org/sonar/plugins/swift/issues/swiftlint/SwiftLintReportParser.java:72-90 | one event per match, saved or logged by the host, until the first line token that does not parse. That token ends the line and everything after it |
| SwiftLint.LineOutcomes | src/main/java/org/sonar/plugins/swift/issues/swiftlint/SwiftLintReportParser.java:57-58 | every report line goes through `recordIssue`, in order |
| SwiftLint.RecordLine | src/main/java/org/sonar/plugins/swift/issues/swiftlint/SwiftLintReportParser.java:68-91 | the `while (matcher.find())` loop computes what `RecordIssue` describes |
| SwiftLint.ParseReport | src/main/java/org/sonar/plugins/swift/issues/swiftlint/SwiftLintReportParser.java:47-66 | the `readLine` loop computes what `ParseLintReport` describes |
| SwiftLint.ReportAppend | src/main/java/org/sonar/plugins/swift/issues/swiftlint/SwiftLintReportParser.java:57-58 | reading `a` then `b` is reading `a` and, unless it ended with a rejected line token, continuing with `b` |
| SwiftLint.FailureStopsReport | src/main/java/org/sonar/plugins/swift/issues/swiftlint/SwiftLintReportParser.java:74 | a line token that does not parse ends the report: later lines are not read |
| SwiftLint.SilentLine | src/main/java/org/sonar/plugins/swift/issues/swiftlint/SwiftLintReportParser.java:57-72 | a line without a match produces nothing and no error, and reading continues |
| SwiftLint.NoColonNoMatch | src/main/java/org/sonar/plugins/swift/issues/swiftlint/SwiftLintReportParser.java:69 | a line without `:` never matches |
| SwiftLint.SaveFailuresAreContained | src/main/java/org/sonar/plugins/swift/issues/swiftlint/SwiftLintReportParser.java:78-89 | whether the host saves or throws changes neither which issues are read nor where reading stops |
| SwiftLint.RecordIssueOfText | src/main/java/org/sonar/plugins/swift/issues/swiftlint/SwiftLintReportParser.java:69-86 | a well-formed issue line yields exactly one issue with its path, line number, message and rule, or a failure naming the line token when that is not a number |
| SwiftLint.NumberedLineReadBack | src/main/java/org/sonar/plugins/swift/issues/swiftlint/SwiftLintReportParser.java:74 | a written decimal line number is read back as that number |
| SwiftLintExamples.LongLineIsRead | src/main/java/org/sonar/plugins/swift/issues/swiftlint/SwiftLintReportParser.java:69-86 | `A.swift:12:5: warning: Size: long (line_length)` gives the issue (A.swift, 12, `Size: long`, line_length) |
| SwiftLintExamples.CastLineIsRead | src/main/java/org/sonar/plugins/swift/issues/swiftlint/SwiftLintReportParser.java:69-86 | a line without a column, with severity `error`, is read |
| SwiftLintExamples.OddPathIsRead | src/main/java/org/sonar/plugins/swift/issues/swiftlint/SwiftLintReportParser.java:69 | the unescaped `.` lets `Fooxswift` pass as a Swift path |
| SwiftLintExamples.WordLineAbortsReport | src/main/java/org/sonar/plugins/swift/issues/swiftlint/SwiftLintReportParser.java:74 | a word line token (`abc`) matches `\w+` but fails `Integer.parseInt`, aborting the report |
| SurefireDetails.DetailsXml | src/main/java/org/sonar/plugins/swift/tests/SwiftSurefireParser.java:178-194 | the details text starts with `<tests-details>` and ends with `</tests-details>` |
| SurefireDetails.BuildDetails | src/main/java/org/sonar/plugins/swift/tests/SwiftSurefireParser.java:175-194 | the `StringBuilder` loop produces the details text |
| SurefireDetails.CasesAppend | src/main/java/org/sonar/plugins/swift/tests/SwiftSurefireParser.java:179-193 | the elements of `a + b` are the elements of `a` followed by those of `b` |
| SurefireDetails.DetailsOfCases | src/main/java/org/sonar/plugins/swift/tests/SwiftSurefireParser.java:178-194 | one `<testcase>` element per detail, in order, between the two tags |
| SurefireDetails.SelfClosingIff | src/main/java/org/sonar/plugins/swift/tests/SwiftSurefireParser.java:180-192 | an element is self-closing iff its status is neither error nor failure; otherwise it ends with `</error>` or `</failure>` and `</testcase>`. Every element starts with its status and time attributes |
| Surefire.ReportNames | src/main/java/org/sonar/plugins/swift/tests/SwiftSurefireParser.java:69-74 | the files kept are exactly the listed names the filter accepts |
| Surefire.GetReports | src/main/java/org/sonar/plugins/swift/tests/SwiftSurefireParser.java:64-75 | a null, non-directory or missing directory gives no files. Otherwise the kept files are exactly its names the filter accepts |
| Surefire.ReportNameIff | src/main/java/org/sonar/plugins/swift/tests/SwiftSurefireParser.java:72 | a name is accepted iff it is `TEST…xml` or `….junit` |
| Surefire.ResourcePath | src/main/java/org/sonar/plugins/swift/tests/SwiftSurefireParser.java:224-250 | the looked-up path is the class's own path, or, when that is not a file, the first matching indexed test file |
| Surefire.Target | src/main/java/org/sonar/plugins/swift/tests/SwiftSurefireParser.java:213-215 | a suite has a target iff the index has a file at the resolved path and that file exists |
| Surefire.ClassFileNameShape | src/main/java/org/sonar/plugins/swift/tests/SwiftSurefireParser.java:225 | the file name is the class name with every `.` turned into `/`, plus `.swift` |
| Surefire.ClassFileNameRoundTrip | src/main/java/org/sonar/plugins/swift/tests/SwiftSurefireParser.java:225 | for class names without `/` the class name can be read back from the file name |
| Surefire.ClassFileNameInjectiveUpToSlash | src/main/java/org/sonar/plugins/swift/tests/SwiftSurefireParser.java:225 | two such class names with the same file name are equal |
| Surefire.ClassFileNameExample | src/main/java/org/sonar/plugins/swift/tests/SwiftSurefireParser.java:225 | `A.B` maps to `A/B.swift` |
| Surefire.DirectPathFirst | src/main/java/org/sonar/plugins/swift/tests/SwiftSurefireParser.java:227-236 | the class's own path wins whenever it is a file |
| Surefire.FirstMatchFallback | src/main/java/org/sonar/plugins/swift/tests/SwiftSurefireParser.java:236-249 | otherwise the first matching indexed test file is used, however many there are |
| Surefire.TestsCount | src/main/java/org/sonar/plugins/swift/tests/SwiftSurefireParser.java:92 | the tests count is a Java `int` congruent to `tests - skipped` modulo 2^32, and equal to it when that fits |
| Surefire.PassedTests | src/main/java/org/sonar/plugins/swift/tests/SwiftSurefireParser.java:144 | the passed count is a Java `int` congruent to `tests - skipped - errors - failures` modulo 2^32 |
| Surefire.SuiteMeasures | src/main/java/org/sonar/plugins/swift/tests/SwiftSurefireParser.java:91-164 | a measured suite saves nothing when there is no target. Otherwise all its measures go to the target, in order and under their metric keys: skipped tests, tests, test errors, test failures, execution time, then success density exactly when `testsCount > 0`, then the details text last. Each carries the value the source passes |
| Surefire.PlainCounts | src/main/java/org/sonar/plugins/swift/tests/SwiftSurefireParser.java:92-144 | with ordinary counts, tests is `tests - skipped` and passed is `tests - skipped - errors - failures` |
| Surefire.WrappedTestsCount | src/main/java/org/sonar/plugins/swift/tests/SwiftSurefireParser.java:92-145 | the `int` subtraction wraps: one test with skipped = -2147483648 gives a negative tests count and no density |
| Surefire.Step | src/main/java/org/sonar/plugins/swift/tests/SwiftSurefireParser.java:86-166 | a suite is recorded exactly when it is valid, not yet analysed and has tests; then its measures are appended, and otherwise nothing changes |
| Surefire.ProcessSuitesExtends | src/main/java/org/sonar/plugins/swift/tests/SwiftSurefireParser.java:86-167 | the suite loop only appends, and only valid suites with tests from this report |
| Surefire.ProcessSuitesKeepsDistinct | src/main/java/org/sonar/plugins/swift/tests/SwiftSurefireParser.java:78-87 | no analysed suite equals one recorded before it, as in a set |
| Surefire.ProcessSuitesMeasures | src/main/java/org/sonar/plugins/swift/tests/SwiftSurefireParser.java:86-166 | what the suite loop saves is exactly the measures of the suites it records, in order |
| Surefire.ParseFilesLoop | src/main/java/org/sonar/plugins/swift/tests/SwiftSurefireParser.java:77-172 | the two nested Java loops compute what `ParseFiles` describes |
| Surefire.NothingWithoutReports | src/main/java/org/sonar/plugins/swift/tests/SwiftSurefireParser.java:56-66 | without a usable directory or any report name, nothing is parsed and nothing saved |
| Surefire.SkippedSuite | src/main/java/org/sonar/plugins/swift/tests/SwiftSurefireParser.java:87-89 | an invalid or already analysed suite changes nothing |
| Surefire.ZeroTestSuiteNotRecorded | src/main/java/org/sonar/plugins/swift/tests/SwiftSurefireParser.java:91-165 | a valid suite without tests is not recorded, so a later equal suite with tests is measured |
| Surefire.DuplicateSuiteMeasuredOnce | src/main/java/org/sonar/plugins/swift/tests/SwiftSurefireParser.java:87-165 | when the second of two suites with tests equals the first, only the first is measured |
| Surefire.UnreadableReportStops | src/main/java/org/sonar/plugins/swift/tests/SwiftSurefireParser.java:169-171 | a report that cannot be parsed ends the run; earlier measures stay saved and later reports are not read |
| Surefire.Parsed | src/main/java/org/sonar/plugins/swift/tests/SwiftSurefireParser.java:81-84 | each report file is parsed, in the order listed |

## Left out

- Missing `filename` or details attributes: a `<class>` is assumed to carry a `filename` (`CoberturaReportParser.java:201`); without one, Java would merge such classes under a `null` key and look up `hasPath(null)`. A test case's error message and stack trace are assumed present; `escapeXml(null)` would make `StringBuilder.append` write `null` (`SwiftSurefireParser.java:186-187`).
- XML reading (StAX cursors, `StaxParser`): reports are given as already parsed trees of packages, classes and lines, or of suites.
- `ParsingUtils.parseNumber`, its `Locale.ENGLISH` grouping and the `(int)` cast of the parsed double: these are the `HitsParser` parameter, which may reject (the wrapped `ParseException`) or return an `int`.
- `KeyValueFormat.format`: data measures carry the line table itself, not its serialised text.
- `StringEscapeUtils.escapeXml`: it is the `Escape` parameter.
- `TestSuiteParser`, `TestSuiteReport`, `TestCaseDetails`: a parsed report is a sequence of `Suite` values. `TestSuiteReport.equals`, which the `HashSet` of analysed suites uses, is the `same` parameter. The status constants are taken to be `"error"` and `"failure"`.
- Floating point: the success density is kept as the pair (passed, tests) that `passed * 100D / tests` is computed from.
- Surefire.SuiteMeasures: the duration is `(long) getTimeMS()` given as an integer; the double-to-long conversion is not modelled.
- The `CoverageMeasuresBuilder` library: its source is not available. The accumulator here is a minimal stand-in. How a second `setHits`/`setConditions` for the same line behaves is the `DuplicatePolicy` parameter; no property depends on which policy the library uses. Overflow of its counters is not modelled.
- Numerals.ParseInt: digits are the ASCII digits only; `Character.digit` also accepts other Unicode decimal digits.
- `HashMap` iteration order in `collectPackageMeasures`: per package, the outcome is a map from filename to what was saved, so no order among the files of one package is claimed.
- `File.listFiles` order: the directory's names are given in the order the model keeps.
- `new File(parent, child)`: a relative class file is taken as `baseDir + "/" + name`.
- The sink (`context.newMeasure()…save()`, `context.newIssue()…save()`): measures are an append-only list; whether saving an issue succeeds is the `Host` parameter; file lookups are `Resolver` and `TestFileSystem`.
- `Metric.Builder` metadata (names, directions, domains): only the metric key is kept.
- Exception translation (`MessageException`, `XmlParserException`), logging, and opening and closing files: an error ends the walk as a value (`failure`/`failed`), and logs are not modelled.
- An `IOException` while reading a SwiftLint report: reading is over a given sequence of lines.
- The sensors (`SwiftCoberturaSensor`, `SwiftLintSensor`, `SwiftSurefireSensor`), `SwiftSquidSensor` and `LizardMeasurePersistor`: they do settings lookup, discovery and wiring, outside these parsers.
