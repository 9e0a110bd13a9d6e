/** Cobertura report ingestion: the parsed report is a sequence of packages,
    each a sequence of class entries, each a sequence of line entries. Per
    package, class entries are merged by filename into accumulators; when the
    package is done, each accumulator whose file resolves yields up to seven
    measures. A decoding failure aborts the rest of the report. */
module Cobertura {
  import opened Wrappers
  import opened Numerals
  import opened JavaStrings
  import opened LineTables
  import opened CoverageBuilder

  /** `<line number=".." hits=".." branch=".." condition-coverage=".."/>`;
      a missing attribute is `None`. */
  datatype LineElement = LineElement(
    number: Option<string>,
    hits: Option<string>,
    branch: Option<string>,
    conditionCoverage: Option<string>)

  /** `<class filename="..">` with the `<line>` children of its `<lines>` element. */
  datatype ClassElement = ClassElement(filename: string, lines: seq<LineElement>)

  /** `<package>` with its `<class>` descendants in document order. */
  datatype PackageElement = PackageElement(classes: seq<ClassElement>)

  /** The exceptions that escape the report walk. */
  datatype CoverageError =
    | NumberFormat(text: Option<string>)  // Integer.parseInt on a line number or condition token
    | XmlParser(hits: Option<string>)     // the hits parser's ParseException, wrapped
    | NullPointer                         // condition text without a "(...)" pair
    | IndexOutOfBounds(tokens: nat)       // fewer than two tokens inside the parentheses

  /** A decoded condition-coverage pair. */
  datatype Condition = Condition(total: int, covered: int)

  /** A decoded `<line>`. */
  datatype LineRecord = LineRecord(line: int, hits: int, condition: Option<Condition>)

  /** The hits attribute is read by a host routine (`ParsingUtils.parseNumber`
      followed by an `(int)` cast); `None` stands for its `ParseException`. */
  type HitsParser = Option<string> -> Option<int>

  // ---------------------------------------------------------------------
  // Line decoding
  // ---------------------------------------------------------------------

  /** The `"P% (covered/total)"` notation: the text between the first `(` and
      the next `)`, split on `/` with empty tokens dropped; token 1 is the
      total and is parsed first, token 0 is the covered count, later tokens
      are ignored. */
  function DecodeCondition(text: string): (r: Result<Condition, CoverageError>)
    ensures SubstringBetween(text, '(', ')').None? ==> r == Err(NullPointer)
    ensures SubstringBetween(text, '(', ')').Some? && |Split(SubstringBetween(text, '(', ')').value, '/')| < 2 ==>
              r.Err? && r.error.IndexOutOfBounds?
    ensures r.Ok? ==>
              var tokens := Split(SubstringBetween(text, '(', ')').value, '/');
              |tokens| >= 2 && ParseInt(tokens[1]) == Some(r.value.total) && ParseInt(tokens[0]) == Some(r.value.covered)
    ensures r.Err? && r.error.NumberFormat? ==> r.error.text.Some? && '/' !in r.error.text.value
  {
    match SubstringBetween(text, '(', ')')
    case None => Err(NullPointer)
    case Some(inner) =>
      var tokens := Split(inner, '/');
      if |tokens| < 2 then Err(IndexOutOfBounds(|tokens|))
      else
        match ParseInt(tokens[1])
        case None => Err(NumberFormat(Some(tokens[1])))
        case Some(total) =>
          match ParseInt(tokens[0])
          case None => Err(NumberFormat(Some(tokens[0])))
          case Some(covered) => Ok(Condition(total, covered))
  }

  /** The line carries condition data: `branch` is exactly `"true"` and the
      condition text is not blank. */
  predicate IsConditionLine(l: LineElement) {
    l.branch == Some("true") && IsNotBlank(l.conditionCoverage)
  }

  /** The line number as `Integer.parseInt` reads it. */
  function LineNumber(l: LineElement): Option<int> {
    if l.number.Some? then ParseInt(l.number.value) else None
  }

  /** One `<line>`: the number, then the hits, then (for a condition line)
      the condition pair; the first failure is the line's error. */
  function DecodeLine(l: LineElement, parseHits: HitsParser): (r: Result<LineRecord, CoverageError>)
    ensures LineNumber(l).None? ==> r == Err(NumberFormat(l.number))
    ensures LineNumber(l).Some? && parseHits(l.hits).None? ==> r == Err(XmlParser(l.hits))
    ensures r.Ok? ==> LineNumber(l) == Some(r.value.line) && parseHits(l.hits) == Some(r.value.hits)
    ensures r.Ok? ==> (r.value.condition.Some? <==> IsConditionLine(l))
    ensures r.Ok? && IsConditionLine(l) ==> DecodeCondition(l.conditionCoverage.value) == Ok(r.value.condition.value)
    ensures (LineNumber(l).Some? && parseHits(l.hits).Some? && IsConditionLine(l) &&
             DecodeCondition(l.conditionCoverage.value).Err?) ==>
              r == Err(DecodeCondition(l.conditionCoverage.value).error)
  {
    match LineNumber(l)
    case None => Err(NumberFormat(l.number))
    case Some(line) =>
      match parseHits(l.hits)
      case None => Err(XmlParser(l.hits))
      case Some(hits) =>
        if IsConditionLine(l) then
          match DecodeCondition(l.conditionCoverage.value)
          case Err(e) => Err(e)
          case Ok(c) => Ok(LineRecord(line, hits, Some(c)))
        else Ok(LineRecord(line, hits, None))
  }

  /** Feeds one decoded line to the accumulator: `setHits`, then
      `setConditions(line, total, covered)` for a condition line. */
  function ApplyRecord(b: Builder, rec: LineRecord, policy: DuplicatePolicy): (r: Builder)
    requires Valid(b)
    ensures Valid(r)
    ensures Keys(r.hitsByLine) == Keys(b.hitsByLine) + {rec.line}
    ensures Keys(r.conditionsByLine) == Keys(b.conditionsByLine) + (if rec.condition.Some? then {rec.line} else {})
    ensures Lookup(r.hitsByLine, rec.line)
            == if rec.line in Keys(b.hitsByLine) && policy == KeepFirst then Lookup(b.hitsByLine, rec.line)
               else Some(rec.hits)
    ensures rec.condition.Some? && !(rec.line in Keys(b.conditionsByLine) && policy == KeepFirst) ==>
              && Lookup(r.conditionsByLine, rec.line) == Some(rec.condition.value.total)
              && Lookup(r.coveredConditionsByLine, rec.line) == Some(rec.condition.value.covered)
    ensures rec.condition.None? || (rec.line in Keys(b.conditionsByLine) && policy == KeepFirst) ==>
              && Lookup(r.conditionsByLine, rec.line) == Lookup(b.conditionsByLine, rec.line)
              && Lookup(r.coveredConditionsByLine, rec.line) == Lookup(b.coveredConditionsByLine, rec.line)
    ensures forall other :: other != rec.line ==>
              && Lookup(r.hitsByLine, other) == Lookup(b.hitsByLine, other)
              && Lookup(r.conditionsByLine, other) == Lookup(b.conditionsByLine, other)
              && Lookup(r.coveredConditionsByLine, other) == Lookup(b.coveredConditionsByLine, other)
  {
    var withHits := SetHits(b, rec.line, rec.hits, policy);
    match rec.condition
    case None => withHits
    case Some(c) => SetConditions(withHits, rec.line, c.total, c.covered, policy)
  }

  // ---------------------------------------------------------------------
  // Class entries and packages
  // ---------------------------------------------------------------------

  /** The line numbers of the entries, as far as they parse. */
  function HitLines(lines: seq<LineElement>): set<int> {
    if lines == [] then {}
    else (if LineNumber(lines[0]).Some? then {LineNumber(lines[0]).value} else {}) + HitLines(lines[1..])
  }

  /** The line numbers of the condition lines among the entries. */
  function ConditionLines(lines: seq<LineElement>): set<int> {
    if lines == [] then {}
    else (if LineNumber(lines[0]).Some? && IsConditionLine(lines[0]) then {LineNumber(lines[0]).value} else {})
         + ConditionLines(lines[1..])
  }

  /** The error of the first entry that does not decode, in document order. */
  function FirstLineError(lines: seq<LineElement>, parseHits: HitsParser): Option<CoverageError> {
    if lines == [] then None
    else if DecodeLine(lines[0], parseHits).Err? then Some(DecodeLine(lines[0], parseHits).error)
    else FirstLineError(lines[1..], parseHits)
  }

  /** `collectFileData`: every `<line>` of a class entry, in order, into one accumulator. */
  function CollectFileData(lines: seq<LineElement>, b: Builder, parseHits: HitsParser, policy: DuplicatePolicy)
    : (r: Result<Builder, CoverageError>)
    requires Valid(b)
    ensures r.Err? <==> FirstLineError(lines, parseHits).Some?
    ensures r.Err? ==> r.error == FirstLineError(lines, parseHits).value
    ensures r.Ok? ==> Valid(r.value)
    ensures r.Ok? ==> Keys(r.value.hitsByLine) == Keys(b.hitsByLine) + HitLines(lines)
    ensures r.Ok? ==> Keys(r.value.conditionsByLine) == Keys(b.conditionsByLine) + ConditionLines(lines)
    decreases |lines|
  {
    if lines == [] then Ok(b)
    else
      match DecodeLine(lines[0], parseHits)
      case Err(e) => Err(e)
      case Ok(rec) => CollectFileData(lines[1..], ApplyRecord(b, rec, policy), parseHits, policy)
  }

  /** Lines the entries do not mention keep their hits and condition data. */
  lemma {:induction false} CollectFileDataFrame(lines: seq<LineElement>, b: Builder, parseHits: HitsParser,
                                                policy: DuplicatePolicy, n: int)
    requires Valid(b)
    requires FirstLineError(lines, parseHits).None?
    requires forall j :: 0 <= j < |lines| ==> LineNumber(lines[j]) != Some(n)
    ensures CollectFileData(lines, b, parseHits, policy).Ok?
    ensures var r := CollectFileData(lines, b, parseHits, policy).value;
            && Lookup(r.hitsByLine, n) == Lookup(b.hitsByLine, n)
            && Lookup(r.conditionsByLine, n) == Lookup(b.conditionsByLine, n)
            && Lookup(r.coveredConditionsByLine, n) == Lookup(b.coveredConditionsByLine, n)
    decreases |lines|
  {
    if lines != [] {
      var rec := DecodeLine(lines[0], parseHits).value;
      assert LineNumber(lines[0]) == Some(rec.line);
      CollectFileDataFrame(lines[1..], ApplyRecord(b, rec, policy), parseHits, policy, n);
    }
  }

  /** A line number that occurs in exactly one entry, and that the
      accumulator has not seen, ends up with that entry's hits and, for a
      condition line, with its decoded total and covered count, whatever
      the duplicate policy. */
  lemma {:induction false} CollectFileDataValue(lines: seq<LineElement>, b: Builder, parseHits: HitsParser,
                                                policy: DuplicatePolicy, i: nat)
    requires Valid(b)
    requires FirstLineError(lines, parseHits).None?
    requires i < |lines| && LineNumber(lines[i]).Some?
    requires forall j :: 0 <= j < |lines| && j != i ==> LineNumber(lines[j]) != LineNumber(lines[i])
    requires LineNumber(lines[i]).value !in Keys(b.hitsByLine)
    requires LineNumber(lines[i]).value !in Keys(b.conditionsByLine)
    ensures CollectFileData(lines, b, parseHits, policy).Ok?
    ensures var r := CollectFileData(lines, b, parseHits, policy).value;
            var n := LineNumber(lines[i]).value;
            && parseHits(lines[i].hits).Some?
            && Lookup(r.hitsByLine, n) == parseHits(lines[i].hits)
            && (IsConditionLine(lines[i]) ==>
                  && DecodeCondition(lines[i].conditionCoverage.value).Ok?
                  && Lookup(r.conditionsByLine, n) == Some(DecodeCondition(lines[i].conditionCoverage.value).value.total)
                  && Lookup(r.coveredConditionsByLine, n)
                     == Some(DecodeCondition(lines[i].conditionCoverage.value).value.covered))
            && (!IsConditionLine(lines[i]) ==>
                  Lookup(r.conditionsByLine, n) == None && Lookup(r.coveredConditionsByLine, n) == None)
    decreases i
  {
    var n := LineNumber(lines[i]).value;
    var rec := DecodeLine(lines[0], parseHits).value;
    var b1 := ApplyRecord(b, rec, policy);
    if i == 0 {
      forall j | 0 <= j < |lines[1..]|
        ensures LineNumber(lines[1..][j]) != Some(n)
      {
        assert lines[1..][j] == lines[j + 1];
      }
      CollectFileDataFrame(lines[1..], b1, parseHits, policy, n);
    } else {
      assert LineNumber(lines[0]) == Some(rec.line);
      assert lines[1..][i - 1] == lines[i];
      forall j | 0 <= j < |lines[1..]| && j != i - 1
        ensures LineNumber(lines[1..][j]) != LineNumber(lines[1..][i - 1])
      {
        assert lines[1..][j] == lines[j + 1];
      }
      CollectFileDataValue(lines[1..], b1, parseHits, policy, i - 1);
    }
  }

  /** The filenames of the class entries. */
  function Filenames(classes: seq<ClassElement>): set<string> {
    if classes == [] then {} else {classes[0].filename} + Filenames(classes[1..])
  }

  /** All `<line>` entries of the class entries named `f`, in document order. */
  function LinesFor(classes: seq<ClassElement>, f: string): seq<LineElement> {
    if classes == [] then []
    else (if classes[0].filename == f then classes[0].lines else []) + LinesFor(classes[1..], f)
  }

  /** The error of the first class entry that fails, in document order. */
  function FirstClassError(classes: seq<ClassElement>, parseHits: HitsParser): Option<CoverageError> {
    if classes == [] then None
    else if FirstLineError(classes[0].lines, parseHits).Some? then FirstLineError(classes[0].lines, parseHits)
    else FirstClassError(classes[1..], parseHits)
  }

  ghost predicate AllValid(builders: map<string, Builder>) {
    forall f :: f in builders ==> Valid(builders[f])
  }

  /** The accumulator a filename starts from: the one already in the map,
      or a fresh one the first time the filename is seen. */
  function StartFor(builders: map<string, Builder>, f: string): (b: Builder)
    requires AllValid(builders)
    ensures Valid(b)
    ensures f in builders ==> b == builders[f]
    ensures f !in builders ==> LinesToCover(b) == 0 && b.conditions == 0
  {
    if f in builders then builders[f] else Empty()
  }

  /** `collectFileMeasures`: the class entries of one package, each fed to
      the accumulator of its filename. */
  function CollectFileMeasures(classes: seq<ClassElement>, builders: map<string, Builder>,
                               parseHits: HitsParser, policy: DuplicatePolicy)
    : (r: Result<map<string, Builder>, CoverageError>)
    requires AllValid(builders)
    ensures r.Err? <==> FirstClassError(classes, parseHits).Some?
    ensures r.Err? ==> r.error == FirstClassError(classes, parseHits).value
    ensures r.Ok? ==> AllValid(r.value)
    ensures r.Ok? ==> r.value.Keys == builders.Keys + Filenames(classes)
    decreases |classes|
  {
    if classes == [] then Ok(builders)
    else
      var c := classes[0];
      match CollectFileData(c.lines, StartFor(builders, c.filename), parseHits, policy)
      case Err(e) => Err(e)
      case Ok(b) =>
        CollectFileMeasures(classes[1..], builders[c.filename := b], parseHits, policy)
  }

  lemma {:induction false} HitLinesAppend(a: seq<LineElement>, b: seq<LineElement>)
    ensures HitLines(a + b) == HitLines(a) + HitLines(b)
    decreases |a|
  {
    if a != [] {
      assert (a + b)[1..] == a[1..] + b;
      HitLinesAppend(a[1..], b);
    } else {
      assert a + b == b;
    }
  }

  // ---------------------------------------------------------------------
  // Measures
  // ---------------------------------------------------------------------

  /** The seven coverage metrics, by their host keys. */
  datatype Metric =
    | LinesToCoverKey
    | UncoveredLinesKey
    | CoverageLineHitsDataKey
    | ConditionsToCoverKey
    | UncoveredConditionsKey
    | ConditionsByLineKey
    | CoveredConditionsByLineKey

  /** An integer, or a line table (serialised by the host's key/value format). */
  datatype MeasureValue = IntValue(n: int) | DataValue(table: LineTable)

  datatype Measure = Measure(metric: Metric, value: MeasureValue)

  /** The value saved for `metric`, if one was saved. */
  function ValueOf(ms: seq<Measure>, metric: Metric): Option<MeasureValue> {
    if ms == [] then None
    else if ms[0].metric == metric then Some(ms[0].value)
    else ValueOf(ms[1..], metric)
  }

  predicate IsLineMetric(m: Metric) {
    m == LinesToCoverKey || m == UncoveredLinesKey || m == CoverageLineHitsDataKey
  }

  /** The measures saved for one resolved file: the three line measures when
      there is a line to cover, and, independently, the four condition
      measures when the condition total is positive. */
  function FileMeasures(b: Builder): (ms: seq<Measure>)
    requires Valid(b)
    ensures |ms| == (if LinesToCover(b) > 0 then 3 else 0) + (if b.conditions > 0 then 4 else 0)
    ensures forall i, j :: 0 <= i < j < |ms| ==> ms[i].metric != ms[j].metric
    ensures forall i :: 0 <= i < |ms| ==> (IsLineMetric(ms[i].metric) <==> i < 3 && LinesToCover(b) > 0)
    ensures forall i :: 0 <= i < |ms| && ms[i].metric == UncoveredLinesKey ==>
              ms[i].value == IntValue(LinesToCover(b) - CountPositive(b.hitsByLine)) && ms[i].value.n >= 0
  {
    CoveredLinesWithinLinesToCover(b);
    var lineMeasures :=
      if LinesToCover(b) > 0 then
        [ Measure(LinesToCoverKey, IntValue(LinesToCover(b))),
          Measure(UncoveredLinesKey, IntValue(LinesToCover(b) - b.coveredLines)),
          Measure(CoverageLineHitsDataKey, DataValue(b.hitsByLine)) ]
      else [];
    var conditionMeasures :=
      if b.conditions > 0 then
        [ Measure(ConditionsToCoverKey, DataValue(b.hitsByLine)),
          Measure(UncoveredConditionsKey, IntValue(b.conditions)),
          Measure(ConditionsByLineKey, DataValue(b.conditionsByLine)),
          Measure(CoveredConditionsByLineKey, DataValue(b.coveredConditionsByLine)) ]
      else [];
    lineMeasures + conditionMeasures
  }

  /** In a list without repeated metrics, the value looked up for the metric
      at position `i` is the value at position `i`. */
  lemma {:induction false} ValueOfAt(ms: seq<Measure>, i: nat)
    requires i < |ms|
    requires forall j :: 0 <= j < i ==> ms[j].metric != ms[i].metric
    ensures ValueOf(ms, ms[i].metric) == Some(ms[i].value)
  {
    if i > 0 {
      ValueOfAt(ms[1..], i - 1);
    }
  }

  /** A metric that is nowhere in the list has no value. */
  lemma {:induction false} ValueOfAbsent(ms: seq<Measure>, m: Metric)
    requires forall j :: 0 <= j < |ms| ==> ms[j].metric != m
    ensures ValueOf(ms, m) == None
  {
    if ms != [] {
      ValueOfAbsent(ms[1..], m);
    }
  }

  /** The three line measures exist iff there is a line to cover, with the
      line count, the uncovered count and the hits table as values. */
  lemma LineMeasuresValues(b: Builder)
    requires Valid(b)
    ensures forall m: Metric :: IsLineMetric(m) ==> (ValueOf(FileMeasures(b), m).Some? <==> LinesToCover(b) > 0)
    ensures LinesToCover(b) > 0 ==>
              && ValueOf(FileMeasures(b), LinesToCoverKey) == Some(IntValue(|Keys(b.hitsByLine)|))
              && ValueOf(FileMeasures(b), UncoveredLinesKey) == Some(IntValue(|Keys(b.hitsByLine)| - CountPositive(b.hitsByLine)))
              && ValueOf(FileMeasures(b), CoverageLineHitsDataKey) == Some(DataValue(b.hitsByLine))
  {
    var ms := FileMeasures(b);
    CoveredLinesWithinLinesToCover(b);
    if LinesToCover(b) > 0 {
      ValueOfAt(ms, 0);
      ValueOfAt(ms, 1);
      ValueOfAt(ms, 2);
    } else {
      ValueOfAbsent(ms, LinesToCoverKey);
      ValueOfAbsent(ms, UncoveredLinesKey);
      ValueOfAbsent(ms, CoverageLineHitsDataKey);
    }
  }

  /** The four condition measures exist iff the condition total is positive,
      whatever the line count; branches to cover carries the hits table and
      uncovered conditions carries the condition total. */
  lemma ConditionMeasuresValues(b: Builder)
    requires Valid(b)
    ensures forall m: Metric :: !IsLineMetric(m) ==> (ValueOf(FileMeasures(b), m).Some? <==> b.conditions > 0)
    ensures b.conditions > 0 ==>
              && ValueOf(FileMeasures(b), ConditionsToCoverKey) == Some(DataValue(b.hitsByLine))
              && ValueOf(FileMeasures(b), UncoveredConditionsKey) == Some(IntValue(SumValues(b.conditionsByLine)))
              && ValueOf(FileMeasures(b), ConditionsByLineKey) == Some(DataValue(b.conditionsByLine))
              && ValueOf(FileMeasures(b), CoveredConditionsByLineKey) == Some(DataValue(b.coveredConditionsByLine))
  {
    var ms := FileMeasures(b);
    var o := if LinesToCover(b) > 0 then 3 else 0;
    if b.conditions > 0 {
      ValueOfAt(ms, o);
      ValueOfAt(ms, o + 1);
      ValueOfAt(ms, o + 2);
      ValueOfAt(ms, o + 3);
    } else {
      ValueOfAbsent(ms, ConditionsToCoverKey);
      ValueOfAbsent(ms, UncoveredConditionsKey);
      ValueOfAbsent(ms, ConditionsByLineKey);
      ValueOfAbsent(ms, CoveredConditionsByLineKey);
    }
  }

  /** What happens to one filename of a package. */
  datatype FileOutcome =
    | NoCoverageFound               // the filename does not resolve; only an info log
    | Saved(measures: seq<Measure>) // the measures saved on the resolved file

  /** The file-resolution collaborator: the filename matches an indexed file
      that exists on disk. */
  type Resolver = string -> bool

  /** The emission loop of `collectPackageMeasures` over one package's
      accumulators. The host map's iteration order is unspecified, so the
      outcome is keyed by filename. */
  function EmitPackage(builders: map<string, Builder>, resolves: Resolver): (out: map<string, FileOutcome>)
    requires AllValid(builders)
    ensures out.Keys == builders.Keys
    ensures forall f :: f in out ==> (out[f].NoCoverageFound? <==> !resolves(f))
    ensures forall f :: f in out && resolves(f) ==> out[f] == Saved(FileMeasures(builders[f]))
  {
    map f | f in builders :: if resolves(f) then Saved(FileMeasures(builders[f])) else NoCoverageFound
  }

  /** The result of walking a whole report: what was saved, package by
      package in document order, and the exception that ended the walk early. */
  datatype ReportOutcome = ReportOutcome(packages: seq<map<string, FileOutcome>>, failure: Option<CoverageError>)

  /** The error of the first package that fails, in document order. */
  function FirstPackageError(packages: seq<PackageElement>, parseHits: HitsParser): Option<CoverageError> {
    if packages == [] then None
    else if FirstClassError(packages[0].classes, parseHits).Some? then FirstClassError(packages[0].classes, parseHits)
    else FirstPackageError(packages[1..], parseHits)
  }

  /** `collectPackageMeasures`: every package gets a fresh filename map; its
      measures are saved as soon as the package has been read, so an error
      in a later package does not undo them. */
  function CollectPackageMeasures(packages: seq<PackageElement>, parseHits: HitsParser,
                                  policy: DuplicatePolicy, resolves: Resolver): (r: ReportOutcome)
    ensures |r.packages| <= |packages|
    ensures r.failure == FirstPackageError(packages, parseHits)
    ensures r.failure.None? ==> |r.packages| == |packages|
    ensures r.failure.Some? ==>
              |r.packages| < |packages| && FirstClassError(packages[|r.packages|].classes, parseHits) == r.failure
    decreases |packages|
  {
    if packages == [] then ReportOutcome([], None)
    else
      match CollectFileMeasures(packages[0].classes, map[], parseHits, policy)
      case Err(e) => ReportOutcome([], Some(e))
      case Ok(builders) =>
        var rest := CollectPackageMeasures(packages[1..], parseHits, policy, resolves);
        ReportOutcome([EmitPackage(builders, resolves)] + rest.packages, rest.failure)
  }

  /** Package `i` of the outcome is the emission of package `i` of the
      report, built from a fresh filename map: its keys are exactly that
      package's filenames. */
  lemma {:induction false} PackageOutcomeAt(packages: seq<PackageElement>, parseHits: HitsParser,
                                            policy: DuplicatePolicy, resolves: Resolver, i: nat)
    requires i < |CollectPackageMeasures(packages, parseHits, policy, resolves).packages|
    ensures CollectFileMeasures(packages[i].classes, map[], parseHits, policy).Ok?
    ensures CollectPackageMeasures(packages, parseHits, policy, resolves).packages[i]
            == EmitPackage(CollectFileMeasures(packages[i].classes, map[], parseHits, policy).value, resolves)
    ensures CollectPackageMeasures(packages, parseHits, policy, resolves).packages[i].Keys == Filenames(packages[i].classes)
    decreases i
  {
    if i > 0 {
      PackageOutcomeAt(packages[1..], parseHits, policy, resolves, i - 1);
      assert packages[1..][i - 1] == packages[i];
    }
  }
}
