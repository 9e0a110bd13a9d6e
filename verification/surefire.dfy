/** `SwiftSurefireParser`: finding JUnit reports, turning each test suite
    into class measures on the Swift file of its test class, and skipping
    suites that were already analysed. Reading and parsing the XML belong
    to the surefire library (`TestSuiteParser`), whose result is taken as
    given; the file system and the host's index are the `TestFileSystem`
    parameter. */
module Surefire {
  import opened Wrappers
  import opened Numerals
  import opened JavaStrings
  import opened SurefireDetails

  // ---------------------------------------------------------------------
  // Finding the reports (`getReports`)

  /** The `FilenameFilter` of `getReports`: `TEST*.xml`, or `*.junit` as
      Fastlane writes it. */
  predicate IsReportName(name: string) {
    (StartsWith(name, "TEST") && EndsWith(name, ".xml")) || EndsWith(name, ".junit")
  }

  /** The reports directory as the code sees it: whether it is a directory,
      whether it exists, and the names `listFiles` returns, in that order. */
  datatype Dir = Dir(isDirectory: bool, present: bool, names: seq<string>)

  /** The report names among `names`, in order. */
  function ReportNames(names: seq<string>): (r: seq<string>)
    ensures |r| <= |names|
    ensures forall n :: n in r <==> n in names && IsReportName(n)
  {
    if names == [] then []
    else (if IsReportName(names[0]) then [names[0]] else []) + ReportNames(names[1..])
  }

  /** `getReports(dir)`: no files for a missing (`null`), non-directory or
      non-existent directory; otherwise the report names it lists. */
  function GetReports(dir: Option<Dir>): (r: seq<string>)
    ensures (dir.None? || !dir.value.isDirectory || !dir.value.present) ==> r == []
    ensures forall n :: n in r <==> (dir.Some? && dir.value.isDirectory && dir.value.present
                                      && n in dir.value.names && IsReportName(n))
  {
    if dir.None? || !dir.value.isDirectory || !dir.value.present then []
    else ReportNames(dir.value.names)
  }

  /** The filter, stated by the shape of the accepted names. */
  lemma ReportNameIff(name: string)
    ensures IsReportName(name)
            <==> (exists m :: name == "TEST" + m + ".xml") || (exists m :: name == m + ".junit")
  {
    if StartsWith(name, "TEST") && EndsWith(name, ".xml") {
      TestXmlIsLong(name);
      var m := name[4..|name| - 4];
      assert name == "TEST" + m + ".xml";
    }
    if EndsWith(name, ".junit") {
      assert name == name[..|name| - 6] + ".junit";
    }
    if exists m :: name == "TEST" + m + ".xml" {
      var m :| name == "TEST" + m + ".xml";
      assert name[..4] == "TEST";
      assert name[|name| - 4..] == ".xml";
    }
    if exists m :: name == m + ".junit" {
      var m :| name == m + ".junit";
      assert name[|name| - 6..] == ".junit";
    }
  }

  /** `TEST` and `.xml` cannot overlap: `T` is none of `.`, `x`, `m`, `l`. */
  lemma TestXmlIsLong(name: string)
    requires StartsWith(name, "TEST") && EndsWith(name, ".xml")
    ensures |name| >= 8
  {
    assert name[3] == name[..4][3] == 'T';
    if |name| < 8 {
      assert false;
    }
  }

  // ---------------------------------------------------------------------
  // From a test class to its Swift file (`getUnitTestResource`)

  /** `classname.replace('.', '/') + ".swift"`. */
  function ClassFileName(classKey: string): string {
    ReplaceChar(classKey, '.', '/') + ".swift"
  }

  /** The host's view of the file system and of the indexed files. */
  datatype TestFileSystem = TestFileSystem(
    baseDir: string,
    isAbsolute: string -> bool,
    isFile: string -> bool,                     // `file.isFile() && file.exists()`
    testFilesMatching: string -> seq<string>,   // indexed test files matching a path pattern, in index order
    inputFile: string -> Option<string>,        // the indexed file at a path, or `null`
    fileExists: string -> bool                  // `inputFile.file().exists()`
  )

  /** `new File(fileName)`, or `new File(baseDir, fileName)` for a relative name. */
  function FileFor(fs: TestFileSystem, fileName: string): string {
    if fs.isAbsolute(fileName) then fileName else fs.baseDir + "/" + fileName
  }

  /** The path `getUnitTestResource` looks up: the class's own path when it
      is a file, else the first indexed test file matching `**` + `/` + the
      file name, else the class's path anyway. */
  function ResourcePath(fs: TestFileSystem, classKey: string): (p: string)
    ensures var direct := FileFor(fs, ClassFileName(classKey));
            var found := fs.testFilesMatching("**/" + ClassFileName(classKey));
            p == direct || (!fs.isFile(direct) && |found| > 0 && p == found[0])
  {
    var fileName := ClassFileName(classKey);
    var file := FileFor(fs, fileName);
    if fs.isFile(file) then file
    else
      var found := fs.testFilesMatching("**/" + fileName);
      if found == [] then file else found[0]
  }

  /** Where class measures of a suite go: the indexed file
      `getUnitTestResource` returns, when it is not `null` and exists. */
  function Target(fs: TestFileSystem, classKey: string): (r: Option<string>)
    ensures r.Some? <==> fs.inputFile(ResourcePath(fs, classKey)).Some?
                         && fs.fileExists(fs.inputFile(ResourcePath(fs, classKey)).value)
    ensures r.Some? ==> r == fs.inputFile(ResourcePath(fs, classKey))
  {
    match fs.inputFile(ResourcePath(fs, classKey))
    case None => None
    case Some(f) => if fs.fileExists(f) then Some(f) else None
  }

  /** The class file name keeps the class name's length and characters,
      with every `.` turned into `/`, and adds `.swift`. */
  lemma ClassFileNameShape(classKey: string)
    ensures var f := ClassFileName(classKey);
            && |f| == |classKey| + 6
            && EndsWith(f, ".swift")
            && (forall i :: 0 <= i < |classKey| ==> f[i] != '.')
            && (forall i :: 0 <= i < |classKey| ==> classKey[i] != '.' ==> f[i] == classKey[i])
  {
    var f := ClassFileName(classKey);
    assert f[|f| - 6..] == ".swift";
  }

  /** For a class name without `/`, the class name can be read back from
      its file name: the mapping loses nothing. */
  lemma ClassFileNameRoundTrip(classKey: string)
    requires forall i :: 0 <= i < |classKey| ==> classKey[i] != '/'
    ensures |ClassFileName(classKey)| == |classKey| + 6
    ensures ReplaceChar(ClassFileName(classKey)[..|classKey|], '/', '.') == classKey
  {
    var f := ClassFileName(classKey);
    assert f[..|classKey|] == ReplaceChar(classKey, '.', '/');
  }

  /** Two class names with the same file name differ only where one has
      `.` and the other `/`. */
  lemma ClassFileNameInjectiveUpToSlash(a: string, b: string)
    requires forall i :: 0 <= i < |a| ==> a[i] != '/'
    requires forall i :: 0 <= i < |b| ==> b[i] != '/'
    requires ClassFileName(a) == ClassFileName(b)
    ensures a == b
  {
    ClassFileNameRoundTrip(a);
    ClassFileNameRoundTrip(b);
  }

  lemma ClassFileNameExample()
    ensures ClassFileName("A.B") == "A/B.swift"
  {
    assert ReplaceChar("A.B", '.', '/') == "A/B";
  }

  /** The class's own path wins whenever it is a file. */
  lemma DirectPathFirst(fs: TestFileSystem, classKey: string)
    requires fs.isFile(FileFor(fs, ClassFileName(classKey)))
    ensures ResourcePath(fs, classKey) == FileFor(fs, ClassFileName(classKey))
  {
  }

  /** Otherwise the first matching indexed test file is taken, however many
      there are. */
  lemma FirstMatchFallback(fs: TestFileSystem, classKey: string)
    requires !fs.isFile(FileFor(fs, ClassFileName(classKey)))
    requires |fs.testFilesMatching("**/" + ClassFileName(classKey))| > 0
    ensures ResourcePath(fs, classKey) == fs.testFilesMatching("**/" + ClassFileName(classKey))[0]
  {
  }

  // ---------------------------------------------------------------------
  // One suite's measures (`parseFiles`, `saveClassMeasure`, `saveTestsDetails`)

  /** One `TestSuiteReport`: `valid` is `isValid()`, the counts are Java
      `int`s, `timeMillis` is `(long) getTimeMS()`. */
  datatype Suite = Suite(classKey: string, valid: bool, tests: int, skipped: int, errors: int,
                         failures: int, timeMillis: int, details: seq<Detail>)

  datatype TestMetric = SkippedTests | Tests | TestErrors | TestFailures | TestExecutionTime
                      | TestSuccessDensity | TestData

  /** A measure's value; the success density is kept as the two `int`s it
      is computed from (`passed * 100D / tests`). */
  datatype TestValue = Count(n: int) | Percent(passed: int, tests: int) | Xml(text: string)

  datatype TestMeasure = TestMeasure(file: string, metric: TestMetric, value: TestValue)

  /** The foreign pieces a run needs: file system, escaping, and the
      `equals` of `TestSuiteReport` that the set of analysed suites uses. */
  datatype Env = Env(fs: TestFileSystem, escape: Escape, same: (Suite, Suite) -> bool)

  /** `tests - skipped` in 32-bit arithmetic. */
  function TestsCount(s: Suite): (n: int)
    ensures InInt32(n)
    ensures (n - (s.tests - s.skipped)) % 0x1_0000_0000 == 0
    ensures InInt32(s.tests - s.skipped) ==> n == s.tests - s.skipped
  {
    Wrap32(s.tests - s.skipped)
  }

  /** `testsCount - errors - failures` in 32-bit arithmetic. */
  function PassedTests(s: Suite): (n: int)
    ensures InInt32(n)
    ensures (n - (s.tests - s.skipped - s.errors - s.failures)) % 0x1_0000_0000 == 0
  {
    Wrap32(Wrap32(TestsCount(s) - s.errors) - s.failures)
  }

  /** The measures of a suite whose `tests > 0` branch runs: skipped, tests,
      errors, failures and duration; the success density when
      `testsCount > 0`; then the details. All of them go to the suite's
      target file, and none is saved when there is no target. */
  function SuiteMeasures(s: Suite, env: Env): (r: seq<TestMeasure>)
    ensures Target(env.fs, s.classKey).None? <==> r == []
    ensures forall i :: 0 <= i < |r| ==> Target(env.fs, s.classKey) == Some(r[i].file)
    ensures r != [] ==> |r| == (if TestsCount(s) > 0 then 7 else 6)
    ensures r != [] ==> r[0].metric == SkippedTests && r[1].metric == Tests && r[2].metric == TestErrors
                        && r[3].metric == TestFailures && r[4].metric == TestExecutionTime
    ensures r != [] && TestsCount(s) > 0 ==> r[5].metric == TestSuccessDensity
    ensures r != [] ==> r[0].value == Count(s.skipped) && r[1].value == Count(TestsCount(s))
                        && r[2].value == Count(s.errors) && r[3].value == Count(s.failures)
                        && r[4].value == Count(s.timeMillis)
    ensures (exists i :: 0 <= i < |r| && r[i].metric == TestSuccessDensity) <==> r != [] && TestsCount(s) > 0
    ensures r != [] && TestsCount(s) > 0 ==> r[5].value == Percent(PassedTests(s), TestsCount(s))
    ensures r != [] ==> r[|r| - 1] == TestMeasure(r[0].file, TestData, Xml(DetailsXml(s.details, env.escape)))
  {
    match Target(env.fs, s.classKey)
    case None => []
    case Some(f) => MeasuresOn(f, s, env)
  }

  /** The measures of a suite, all on the file `f`. */
  function MeasuresOn(f: string, s: Suite, env: Env): (r: seq<TestMeasure>)
    ensures |r| == (if TestsCount(s) > 0 then 7 else 6)
    ensures forall i :: 0 <= i < |r| ==> r[i].file == f
    ensures r[0].metric == SkippedTests && r[1].metric == Tests && r[2].metric == TestErrors
            && r[3].metric == TestFailures && r[4].metric == TestExecutionTime
    ensures TestsCount(s) > 0 ==> r[5].metric == TestSuccessDensity
    ensures r[0].value == Count(s.skipped) && r[1].value == Count(TestsCount(s))
            && r[2].value == Count(s.errors) && r[3].value == Count(s.failures)
            && r[4].value == Count(s.timeMillis)
    ensures (exists i :: 0 <= i < |r| && r[i].metric == TestSuccessDensity) <==> TestsCount(s) > 0
    ensures TestsCount(s) > 0 ==> r[5].value == Percent(PassedTests(s), TestsCount(s))
    ensures r[|r| - 1] == TestMeasure(f, TestData, Xml(DetailsXml(s.details, env.escape)))
  {
    var details := TestMeasure(f, TestData, Xml(DetailsXml(s.details, env.escape)));
    if TestsCount(s) > 0 then
      [TestMeasure(f, SkippedTests, Count(s.skipped)),
       TestMeasure(f, Tests, Count(TestsCount(s))),
       TestMeasure(f, TestErrors, Count(s.errors)),
       TestMeasure(f, TestFailures, Count(s.failures)),
       TestMeasure(f, TestExecutionTime, Count(s.timeMillis)),
       TestMeasure(f, TestSuccessDensity, Percent(PassedTests(s), TestsCount(s))),
       details]
    else
      [TestMeasure(f, SkippedTests, Count(s.skipped)),
       TestMeasure(f, Tests, Count(TestsCount(s))),
       TestMeasure(f, TestErrors, Count(s.errors)),
       TestMeasure(f, TestFailures, Count(s.failures)),
       TestMeasure(f, TestExecutionTime, Count(s.timeMillis)),
       details]
  }

  /** With counts as JUnit writes them (non-negative, skipped within tests)
      nothing wraps: the tests measure is `tests - skipped` and the passed
      count is `tests - skipped - errors - failures`. */
  lemma PlainCounts(s: Suite)
    requires 0 <= s.skipped <= s.tests <= MaxInt32
    requires 0 <= s.errors && 0 <= s.failures && s.errors + s.failures <= MaxInt32
    ensures TestsCount(s) == s.tests - s.skipped
    ensures PassedTests(s) == s.tests - s.skipped - s.errors - s.failures
  {
  }

  /** The subtraction is Java `int` arithmetic: a suite with one test and
      a skipped count of -2147483648 has a negative tests measure and no
      success density, although `tests > 0`. */
  lemma WrappedTestsCount(s: Suite, env: Env)
    requires s.tests == 1 && s.skipped == MinInt32
    requires Target(env.fs, s.classKey).Some?
    ensures TestsCount(s) == MinInt32 + 1
    ensures |SuiteMeasures(s, env)| == 6
  {
  }

  // ---------------------------------------------------------------------
  // The loops of `parseFiles`

  /** The measures saved so far and the suites recorded as analysed. */
  datatype Progress = Progress(measures: seq<TestMeasure>, analysed: seq<Suite>)

  /** `analyzedReports.contains(s)`: some recorded suite `a` has
      `s.equals(a)`. */
  predicate Analysed(analysed: seq<Suite>, s: Suite, env: Env) {
    exists a :: a in analysed && env.same(s, a)
  }

  /** One pass of the inner loop: an invalid or already analysed suite is
      skipped; a suite with tests is measured and recorded; a suite without
      tests is neither measured nor recorded. */
  function Step(s: Suite, p: Progress, env: Env): (r: Progress)
    ensures r.analysed == p.analysed || r.analysed == p.analysed + [s]
    ensures r.analysed != p.analysed <==> s.valid && !Analysed(p.analysed, s, env) && s.tests > 0
    ensures r.analysed == p.analysed ==> r.measures == p.measures
    ensures r.analysed != p.analysed ==> r.measures == p.measures + SuiteMeasures(s, env)
  {
    if !s.valid || Analysed(p.analysed, s, env) then p
    else if s.tests > 0 then Progress(p.measures + SuiteMeasures(s, env), p.analysed + [s])
    else p
  }

  /** The inner loop over the suites of one report. */
  function ProcessSuites(suites: seq<Suite>, p: Progress, env: Env): (r: Progress)
  {
    if suites == [] then p
    else ProcessSuites(suites[1..], Step(suites[0], p, env), env)
  }

  /** The inner loop only ever adds: the suites recorded before and the
      measures saved before are kept, in front, and every suite it records
      is a valid suite with tests from this report. */
  lemma {:induction false} ProcessSuitesExtends(suites: seq<Suite>, p: Progress, env: Env)
    ensures var r := ProcessSuites(suites, p, env);
            && |p.analysed| <= |r.analysed| && r.analysed[..|p.analysed|] == p.analysed
            && |p.measures| <= |r.measures| && r.measures[..|p.measures|] == p.measures
            && (forall i :: |p.analysed| <= i < |r.analysed| ==>
                  r.analysed[i] in suites && r.analysed[i].valid && r.analysed[i].tests > 0)
  {
    if suites != [] {
      var q := Step(suites[0], p, env);
      var r := ProcessSuites(suites[1..], q, env);
      ProcessSuitesExtends(suites[1..], q, env);
      assert r.analysed[..|p.analysed|] == r.analysed[..|q.analysed|][..|p.analysed|];
      assert r.measures[..|p.measures|] == r.measures[..|q.measures|][..|p.measures|];
      forall i | |p.analysed| <= i < |r.analysed|
        ensures r.analysed[i] in suites && r.analysed[i].valid && r.analysed[i].tests > 0
      {
        if i < |q.analysed| {
          assert q.analysed[i] == suites[0];
          assert r.analysed[i] == r.analysed[..|q.analysed|][i];
        } else {
          assert r.analysed[i] in suites[1..];
        }
      }
    }
  }

  /** No recorded suite equals one recorded before it: the set semantics
      of `analyzedReports`. */
  predicate Distinct(analysed: seq<Suite>, env: Env) {
    forall i, j :: 0 <= i < j < |analysed| ==> !env.same(analysed[j], analysed[i])
  }

  /** The measures of the given suites, one after another. */
  function MeasuresOf(suites: seq<Suite>, env: Env): seq<TestMeasure> {
    Concat(suites, Measurer(env))
  }

  /** `SuiteMeasures` with the environment fixed. */
  function Measurer(env: Env): Suite -> seq<TestMeasure> {
    s => SuiteMeasures(s, env)
  }

  /** The inner loop keeps the recorded suites pairwise different. */
  lemma {:induction false} ProcessSuitesKeepsDistinct(suites: seq<Suite>, p: Progress, env: Env)
    requires Distinct(p.analysed, env)
    ensures Distinct(ProcessSuites(suites, p, env).analysed, env)
  {
    if suites != [] {
      var q := Step(suites[0], p, env);
      if q.analysed != p.analysed {
        forall i, j | 0 <= i < j < |q.analysed|
          ensures !env.same(q.analysed[j], q.analysed[i])
        {
          if j == |p.analysed| {
            assert q.analysed[i] in p.analysed;
          }
        }
      }
      ProcessSuitesKeepsDistinct(suites[1..], q, env);
    }
  }

  /** What the inner loop saves is exactly the measures of the suites it
      records, in the order it records them. */
  lemma {:induction false} ProcessSuitesMeasures(suites: seq<Suite>, p: Progress, env: Env)
    ensures var r := ProcessSuites(suites, p, env);
            |p.analysed| <= |r.analysed|
            && r.measures == p.measures + MeasuresOf(r.analysed[|p.analysed|..], env)
  {
    var r := ProcessSuites(suites, p, env);
    ProcessSuitesExtends(suites, p, env);
    if suites == [] {
      assert r.analysed[|p.analysed|..] == [];
    } else {
      var q := Step(suites[0], p, env);
      ProcessSuitesExtends(suites[1..], q, env);
      ProcessSuitesMeasures(suites[1..], q, env);
      if q.analysed == p.analysed {
        assert r.measures == p.measures + MeasuresOf(r.analysed[|p.analysed|..], env);
      } else {
        assert r.analysed[..|q.analysed|] == p.analysed + [suites[0]];
        RecordedFirst(p.analysed, suites[0], r.analysed, p.measures, r.measures, Measurer(env));
      }
    }
  }

  /** The step that records `s` first, in terms of the sequences alone. */
  lemma RecordedFirst<T, U>(before: seq<T>, s: T, after: seq<T>, saved: seq<U>, all: seq<U>, f: T -> seq<U>)
    requires |before| + 1 <= |after| && after[..|before| + 1] == before + [s]
    requires all == (saved + f(s)) + Concat(after[|before| + 1..], f)
    ensures all == saved + Concat(after[|before|..], f)
  {
    var added := after[|before|..];
    assert added[1..] == after[|before| + 1..];
    assert added[0] == s;
    ConcatFirst(added, f);
    Associative(saved, f(s), Concat(added[1..], f));
  }

  /** Two suites are processed one after the other. */
  lemma ProcessPair(s: Suite, t: Suite, p: Progress, env: Env)
    ensures ProcessSuites([s, t], p, env) == Step(t, Step(s, p, env), env)
  {
    var q := Step(s, p, env);
    assert ProcessSuites([t], q, env) == ProcessSuites([], Step(t, q, env), env);
    assert [s, t][1..] == [t];
    assert [t][1..] == [];
  }

  /** How a run ends: the measures saved, and whether a report could not be
      parsed (the code then throws `MessageException`, and measures saved
      before stay saved). */
  datatype SurefireOutcome = SurefireOutcome(measures: seq<TestMeasure>, failed: bool)

  /** The outer loop over the reports; `None` is a report the parser could
      not read. */
  function ParseFiles(reports: seq<Option<seq<Suite>>>, p: Progress, env: Env): SurefireOutcome {
    if reports == [] then SurefireOutcome(p.measures, false)
    else match reports[0]
      case None => SurefireOutcome(p.measures, true)
      case Some(suites) => ParseFiles(reports[1..], ProcessSuites(suites, p, env), env)
  }

  /** `collect(reportsDir)`: `parse` stands for `TestSuiteParser` run on
      one report file. */
  function Collect(dir: Option<Dir>, parse: string -> Option<seq<Suite>>, env: Env): SurefireOutcome {
    var files := GetReports(dir);
    if |files| > 0 then ParseFiles(Parsed(files, parse), Progress([], []), env)
    else SurefireOutcome([], false)
  }

  /** The parse result of every report file, in order. */
  function Parsed(files: seq<string>, parse: string -> Option<seq<Suite>>): (r: seq<Option<seq<Suite>>>)
    ensures |r| == |files|
    ensures forall i :: 0 <= i < |files| ==> r[i] == parse(files[i])
  {
    if files == [] then [] else [parse(files[0])] + Parsed(files[1..], parse)
  }

  /** `parseFiles` as Java runs it: a loop over the reports, and inside it a
      loop over their suites, with the analysed suites in a set. */
  method ParseFilesLoop(reports: seq<Option<seq<Suite>>>, env: Env)
    returns (measures: seq<TestMeasure>, failed: bool)
    ensures SurefireOutcome(measures, failed) == ParseFiles(reports, Progress([], []), env)
  {
    measures, failed := [], false;
    var analysed: seq<Suite> := [];
    var i := 0;
    while i < |reports| && !failed
      invariant i <= |reports|
      invariant !failed ==> ParseFiles(reports, Progress([], []), env)
                            == ParseFiles(reports[i..], Progress(measures, analysed), env)
      invariant failed ==> ParseFiles(reports, Progress([], []), env) == SurefireOutcome(measures, true)
      decreases |reports| - i, !failed
    {
      assert reports[i..][0] == reports[i] && reports[i..][1..] == reports[i + 1..];
      match reports[i]
      case None =>
        failed := true;
      case Some(suites) =>
        ghost var start := Progress(measures, analysed);
        var j := 0;
        while j < |suites|
          invariant j <= |suites|
          invariant ProcessSuites(suites, start, env) == ProcessSuites(suites[j..], Progress(measures, analysed), env)
        {
          assert suites[j..][0] == suites[j] && suites[j..][1..] == suites[j + 1..];
          var s := suites[j];
          if s.valid && !Analysed(analysed, s, env) && s.tests > 0 {
            measures := measures + SuiteMeasures(s, env);
            analysed := analysed + [s];
          }
          j := j + 1;
        }
        assert suites[j..] == [];
        i := i + 1;
    }
    if !failed {
      assert reports[i..] == [];
    }
  }

  // ---------------------------------------------------------------------
  // Properties of a run

  /** No usable reports directory, or no report in it: nothing is parsed
      and nothing is saved. */
  lemma NothingWithoutReports(dir: Option<Dir>, parse: string -> Option<seq<Suite>>, env: Env)
    requires dir.None? || !dir.value.isDirectory || !dir.value.present
             || (forall i :: 0 <= i < |dir.value.names| ==> !IsReportName(dir.value.names[i]))
    ensures Collect(dir, parse, env) == SurefireOutcome([], false)
  {
    if dir.Some? && dir.value.isDirectory && dir.value.present {
      NoReportNames(dir.value.names);
    }
  }

  lemma {:induction false} NoReportNames(names: seq<string>)
    requires forall i :: 0 <= i < |names| ==> !IsReportName(names[i])
    ensures ReportNames(names) == []
  {
    if names != [] {
      NoReportNames(names[1..]);
    }
  }

  /** An invalid suite, or one equal to a suite already analysed, saves
      nothing and changes nothing. */
  lemma SkippedSuite(s: Suite, p: Progress, env: Env)
    requires !s.valid || Analysed(p.analysed, s, env)
    ensures Step(s, p, env) == p
  {
  }

  /** A valid suite without tests is not recorded as analysed, so a later
      equal suite with tests is still measured. */
  lemma ZeroTestSuiteNotRecorded(s: Suite, t: Suite, p: Progress, env: Env)
    requires s.valid && s.tests <= 0
    requires t.valid && t.tests > 0 && !Analysed(p.analysed, t, env)
    ensures ProcessSuites([s, t], p, env)
            == Progress(p.measures + SuiteMeasures(t, env), p.analysed + [t])
  {
    ProcessPair(s, t, p, env);
  }

  /** Of two equal suites with tests, only the first is measured. */
  lemma DuplicateSuiteMeasuredOnce(s: Suite, t: Suite, p: Progress, env: Env)
    requires s.valid && s.tests > 0 && !Analysed(p.analysed, s, env)
    requires env.same(t, s)
    ensures ProcessSuites([s, t], p, env)
            == Progress(p.measures + SuiteMeasures(s, env), p.analysed + [s])
  {
    ProcessPair(s, t, p, env);
    var q := Step(s, p, env);
    assert s in q.analysed;
    assert Analysed(q.analysed, t, env);
  }

  /** A report that cannot be parsed ends the run; what the reports before
      it saved stays saved, and later reports are not read. */
  lemma {:induction false} UnreadableReportStops(before: seq<seq<Suite>>, after: seq<Option<seq<Suite>>>,
                                                 p: Progress, env: Env)
    ensures ParseFiles(Wrapped(before) + [None] + after, p, env)
            == SurefireOutcome(ParseFiles(Wrapped(before), p, env).measures, true)
  {
    if before == [] {
      assert Wrapped(before) + [None] + after == [None] + after;
    } else {
      var q := ProcessSuites(before[0], p, env);
      assert (Wrapped(before) + [None] + after)[1..] == Wrapped(before[1..]) + [None] + after;
      assert Wrapped(before)[1..] == Wrapped(before[1..]);
      UnreadableReportStops(before[1..], after, q, env);
    }
  }

  /** Parsed reports, as the outer loop sees them. */
  function Wrapped(reports: seq<seq<Suite>>): (r: seq<Option<seq<Suite>>>)
    ensures |r| == |reports|
    ensures forall i :: 0 <= i < |reports| ==> r[i] == Some(reports[i])
  {
    if reports == [] then [] else [Some(reports[0])] + Wrapped(reports[1..])
  }
}
