/** Properties of the Cobertura walk: how condition text decodes, how class
    entries merge, how packages are kept apart, and what the emitted
    measures hold, including the places where the emitted values are not
    the ones their metric names suggest. */
module CoberturaFacts {
  import opened Wrappers
  import opened Numerals
  import opened JavaStrings
  import opened LineTables
  import opened CoverageBuilder
  import opened Cobertura

  // ---------------------------------------------------------------------
  // Condition notation
  // ---------------------------------------------------------------------

  /** A rendered `int` holds only digits and a leading minus. */
  lemma ShowIntHasNoDelimiters(n: int)
    ensures '/' !in ShowInt(n) && ')' !in ShowInt(n) && '(' !in ShowInt(n)
  {
    var s := ShowInt(n);
    if n < 0 {
      assert forall i :: 1 <= i < |s| ==> s[i] == ShowNat(-n)[i - 1];
    }
  }

  /** The text between the first `(` and the `)` after it. */
  lemma WrappedInner(prefix: string, inner: string)
    requires '(' !in prefix && ')' !in inner
    ensures SubstringBetween(prefix + "(" + inner + ")", '(', ')') == Some(inner)
  {
    SubstringBetweenOfWrapped(prefix, '(', inner, ')', []);
    assert prefix + "(" + inner + ")" == prefix + ['('] + inner + [')'] + [];
  }

  /** Once the inner text and its tokens are known, the decoder parses
      token 1 as the total and token 0 as the covered count. */
  lemma DecodeConditionOfTokens(text: string, inner: string, tokens: seq<string>, covered: int, total: int)
    requires SubstringBetween(text, '(', ')') == Some(inner)
    requires Split(inner, '/') == tokens && |tokens| >= 2
    requires ParseInt(tokens[0]) == Some(covered) && ParseInt(tokens[1]) == Some(total)
    ensures DecodeCondition(text) == Ok(Condition(total, covered))
  {
  }

  /** Decoding inverts the notation: any prefix without `(` (the percentage),
      then `(covered/total)` with further `/`-separated tokens allowed, gives
      back the pair; tokens after the second are ignored. */
  lemma DecodeConditionRoundTrip(prefix: string, covered: int, total: int, extra: seq<string>)
    requires '(' !in prefix
    requires InInt32(covered) && InInt32(total)
    requires forall k :: 0 <= k < |extra| ==> |extra[k]| > 0 && '/' !in extra[k] && ')' !in extra[k]
    ensures DecodeCondition(prefix + "(" + Join([ShowInt(covered), ShowInt(total)] + extra, '/') + ")")
            == Ok(Condition(total, covered))
  {
    var tokens := [ShowInt(covered), ShowInt(total)] + extra;
    ShowIntHasNoDelimiters(covered);
    ShowIntHasNoDelimiters(total);
    var inner := Join(tokens, '/');
    JoinHasNoClose(tokens);
    WrappedInner(prefix, inner);
    SplitJoinRoundTrip(tokens, '/');
    ParseShowRoundTrip(covered);
    ParseShowRoundTrip(total);
    DecodeConditionOfTokens(prefix + "(" + inner + ")", inner, tokens, covered, total);
  }

  lemma {:induction false} JoinHasNoClose(ts: seq<string>)
    requires forall k :: 0 <= k < |ts| ==> ')' !in ts[k]
    ensures ')' !in Join(ts, '/')
    decreases |ts|
  {
    if |ts| > 1 {
      JoinHasNoClose(ts[1..]);
    }
  }

  /** Two single-token numerals separated by `/`. */
  lemma SplitPair(a: string, b: string)
    requires |a| > 0 && '/' !in a && |b| > 0 && '/' !in b
    ensures Split(a + "/" + b, '/') == [a, b]
  {
    SplitAcrossSeparator(a, '/', b);
    SplitOfToken(a, '/');
    SplitOfToken(b, '/');
  }

  /** The plain two-token form `prefix(covered/total)`. */
  lemma DecodeConditionPair(prefix: string, covered: int, total: int)
    requires '(' !in prefix
    requires InInt32(covered) && InInt32(total)
    ensures DecodeCondition(prefix + "(" + (ShowInt(covered) + "/" + ShowInt(total)) + ")") == Ok(Condition(total, covered))
  {
    var a, b := ShowInt(covered), ShowInt(total);
    ShowIntHasNoDelimiters(covered);
    ShowIntHasNoDelimiters(total);
    var inner := a + "/" + b;
    assert ')' !in inner by {
      assert forall k :: 0 <= k < |inner| ==> inner[k] == (if k < |a| then a[k] else if k == |a| then '/' else b[k - |a| - 1]);
    }
    WrappedInner(prefix, inner);
    SplitPair(a, b);
    ParseShowRoundTrip(covered);
    ParseShowRoundTrip(total);
    DecodeConditionOfTokens(prefix + "(" + inner + ")", inner, [a, b], covered, total);
  }

  lemma SmallNumerals()
    ensures ShowInt(0) == "0" && ShowInt(1) == "1" && ShowInt(2) == "2"
    ensures ShowInt(4) == "4" && ShowInt(5) == "5"
  {
  }

  lemma HalfText()
    ensures "50% (1/2)" == "50% " + "(" + ("1" + "/" + "2") + ")"
  {
  }

  lemma NoneCoveredText()
    ensures "0% (0/4)" == "0% " + "(" + ("0" + "/" + "4") + ")"
  {
  }

  lemma OverCoveredText()
    ensures "(5/2)" == "" + "(" + ("5" + "/" + "2") + ")"
  {
  }

  /** The documented example: one of two conditions covered. */
  lemma DecodeConditionHalf()
    ensures DecodeCondition("50% (1/2)") == Ok(Condition(2, 1))
  {
    SmallNumerals();
    HalfText();
    DecodeConditionPair("50% ", 1, 2);
  }

  lemma DecodeConditionNoneCovered()
    ensures DecodeCondition("0% (0/4)") == Ok(Condition(4, 0))
  {
    SmallNumerals();
    NoneCoveredText();
    DecodeConditionPair("0% ", 0, 4);
  }

  /** Nothing checks that the covered count is at most the total. */
  lemma CoveredAboveTotalAccepted()
    ensures DecodeCondition("(5/2)") == Ok(Condition(2, 5))
  {
    SmallNumerals();
    OverCoveredText();
    DecodeConditionPair("", 5, 2);
  }

  /** Without a `(` ... `)` pair the decoder dereferences null. */
  lemma DecodeConditionWithoutParentheses()
    ensures DecodeCondition("not-a-condition") == Err(NullPointer)
    ensures DecodeCondition("50% (1/2") == Err(NullPointer)
  {
    assert SubstringBetween("not-a-condition", '(', ')') == None;
    assert "50% (1/2"[4] == '(';
    assert SubstringBetween("50% (1/2", '(', ')') == None;
  }

  /** One token is too few: reading token 1 is out of bounds. */
  lemma DecodeConditionSingleToken()
    ensures DecodeCondition("100% (4)") == Err(IndexOutOfBounds(1))
  {
    SubstringBetweenOfWrapped("100% ", '(', "4", ')', []);
    assert "100% (4)" == "100% " + ['('] + "4" + [')'] + [];
    SplitOfToken("4", '/');
  }

  /** The total token is parsed before the covered token, so when both are
      malformed the error names the total. */
  lemma DecodeConditionReportsTotalFirst()
    ensures DecodeCondition("(x/y)") == Err(NumberFormat(Some("y")))
  {
    SubstringBetweenOfWrapped("", '(', "x/y", ')', []);
    assert "(x/y)" == "" + ['('] + "x/y" + [')'] + [];
    SplitJoinRoundTrip(["x", "y"], '/');
    assert Join(["x", "y"], '/') == "x/y";
    ParseRejectsNonDigit("y", 0);
  }

  // ---------------------------------------------------------------------
  // Merging class entries within a package
  // ---------------------------------------------------------------------

  /** Reading two runs of lines one after the other is reading their concatenation. */
  lemma {:induction false} CollectFileDataAppend(a: seq<LineElement>, c: seq<LineElement>, b: Builder,
                                                 parseHits: HitsParser, policy: DuplicatePolicy)
    requires Valid(b)
    ensures CollectFileData(a + c, b, parseHits, policy)
            == match CollectFileData(a, b, parseHits, policy)
               case Err(e) => Err(e)
               case Ok(b1) => CollectFileData(c, b1, parseHits, policy)
    decreases |a|
  {
    if a == [] {
      assert a + c == c;
    } else {
      assert (a + c)[0] == a[0];
      assert (a + c)[1..] == a[1..] + c;
      match DecodeLine(a[0], parseHits)
      case Err(e) =>
      case Ok(rec) =>
        CollectFileDataAppend(a[1..], c, ApplyRecord(b, rec, policy), parseHits, policy);
    }
  }

  /** Every condition line is also a hit line. */
  lemma {:induction false} ConditionLinesWithinHitLines(lines: seq<LineElement>)
    ensures ConditionLines(lines) <= HitLines(lines)
    decreases |lines|
  {
    if lines != [] {
      ConditionLinesWithinHitLines(lines[1..]);
    }
  }

  /** `setHits` runs before `setConditions` on every decoded line, so an
      accumulator fed by `collectFileData` has hits on every line that has
      conditions, if it had them before. */
  lemma ConditionLinesHaveHits(lines: seq<LineElement>, b: Builder, parseHits: HitsParser, policy: DuplicatePolicy)
    requires Valid(b) && Keys(b.conditionsByLine) <= Keys(b.hitsByLine)
    requires CollectFileData(lines, b, parseHits, policy).Ok?
    ensures Keys(CollectFileData(lines, b, parseHits, policy).value.conditionsByLine)
            <= Keys(CollectFileData(lines, b, parseHits, policy).value.hitsByLine)
  {
    ConditionLinesWithinHitLines(lines);
  }

  /** Class entries sharing a filename feed one accumulator: the accumulator
      of `f` is what reading all of `f`'s lines, in document order, yields
      from the accumulator `f` started with (a fresh one the first time `f`
      is seen). */
  lemma {:induction false} MergedAccumulator(classes: seq<ClassElement>, builders: map<string, Builder>,
                                             parseHits: HitsParser, policy: DuplicatePolicy, f: string)
    requires AllValid(builders)
    requires CollectFileMeasures(classes, builders, parseHits, policy).Ok?
    requires f in CollectFileMeasures(classes, builders, parseHits, policy).value
    ensures CollectFileData(LinesFor(classes, f), StartFor(builders, f), parseHits, policy)
            == Ok(CollectFileMeasures(classes, builders, parseHits, policy).value[f])
    decreases |classes|
  {
    if classes != [] {
      var b1 := CollectFileMeasuresStep(classes, builders, parseHits, policy);
      var next := builders[classes[0].filename := b1];
      MergedAccumulator(classes[1..], next, parseHits, policy, f);
      MergeHead(classes, builders, parseHits, policy, f, b1);
    } else {
      assert CollectFileMeasures(classes, builders, parseHits, policy) == Ok(builders);
      assert LinesFor(classes, f) == [];
      assert CollectFileData([], StartFor(builders, f), parseHits, policy) == Ok(builders[f]);
    }
  }

  /** Reading `f`'s lines from the whole package is reading the first entry
      into its accumulator, then `f`'s lines from the remaining entries. */
  lemma MergeHead(classes: seq<ClassElement>, builders: map<string, Builder>,
                  parseHits: HitsParser, policy: DuplicatePolicy, f: string, b1: Builder)
    requires AllValid(builders) && classes != []
    requires CollectFileData(classes[0].lines, StartFor(builders, classes[0].filename), parseHits, policy) == Ok(b1)
    requires AllValid(builders[classes[0].filename := b1])
    ensures CollectFileData(LinesFor(classes, f), StartFor(builders, f), parseHits, policy)
            == CollectFileData(LinesFor(classes[1..], f), StartFor(builders[classes[0].filename := b1], f), parseHits, policy)
  {
    var c := classes[0];
    var next := builders[c.filename := b1];
    var later := LinesFor(classes[1..], f);
    if f == c.filename {
      assert LinesFor(classes, f) == c.lines + later;
      CollectFileDataAppend(c.lines, later, StartFor(builders, f), parseHits, policy);
      assert StartFor(next, f) == b1;
    } else {
      assert StartFor(next, f) == StartFor(builders, f);
      assert LinesFor(classes, f) == [] + later;
      assert [] + later == later;
    }
  }

  /** One step of the package walk: the first class entry's accumulator is
      stored and the walk goes on with the remaining entries. */
  lemma CollectFileMeasuresStep(classes: seq<ClassElement>, builders: map<string, Builder>,
                                parseHits: HitsParser, policy: DuplicatePolicy)
    returns (b1: Builder)
    requires AllValid(builders) && classes != []
    requires CollectFileMeasures(classes, builders, parseHits, policy).Ok?
    ensures CollectFileData(classes[0].lines, StartFor(builders, classes[0].filename), parseHits, policy) == Ok(b1)
    ensures AllValid(builders[classes[0].filename := b1])
    ensures CollectFileMeasures(classes, builders, parseHits, policy)
            == CollectFileMeasures(classes[1..], builders[classes[0].filename := b1], parseHits, policy)
  {
    b1 := CollectFileData(classes[0].lines, StartFor(builders, classes[0].filename), parseHits, policy).value;
  }

  /** A package's accumulator for `f` counts exactly the lines named by any
      class entry with filename `f`. */
  lemma PackageAccumulatorLines(classes: seq<ClassElement>, parseHits: HitsParser, policy: DuplicatePolicy, f: string)
    requires CollectFileMeasures(classes, map[], parseHits, policy).Ok?
    ensures f in CollectFileMeasures(classes, map[], parseHits, policy).value <==> f in Filenames(classes)
    ensures f in Filenames(classes) ==>
              Keys(CollectFileMeasures(classes, map[], parseHits, policy).value[f].hitsByLine) == HitLines(LinesFor(classes, f))
              && LinesToCover(CollectFileMeasures(classes, map[], parseHits, policy).value[f]) == |HitLines(LinesFor(classes, f))|
  {
    if f in Filenames(classes) {
      MergedAccumulator(classes, map[], parseHits, policy, f);
      var b := CollectFileMeasures(classes, map[], parseHits, policy).value[f];
      CoveredLinesWithinLinesToCover(b);
    }
  }

  /** Two class entries for one file, each with one well-formed line on a
      different line number, give one accumulator with two lines to cover. */
  lemma TwoEntriesOneFile(f: string, l1: LineElement, l2: LineElement, parseHits: HitsParser, policy: DuplicatePolicy)
    requires DecodeLine(l1, parseHits).Ok? && DecodeLine(l2, parseHits).Ok?
    requires LineNumber(l1) != LineNumber(l2)
    ensures var classes := [ClassElement(f, [l1]), ClassElement(f, [l2])];
            && CollectFileMeasures(classes, map[], parseHits, policy).Ok?
            && CollectFileMeasures(classes, map[], parseHits, policy).value.Keys == {f}
            && LinesToCover(CollectFileMeasures(classes, map[], parseHits, policy).value[f]) == 2
  {
    var c1, c2 := ClassElement(f, [l1]), ClassElement(f, [l2]);
    var classes := [c1, c2];
    TwoEntriesFacts(f, l1, l2, parseHits);
    PackageAccumulatorLines(classes, parseHits, policy, f);
  }

  lemma TwoEntriesFacts(f: string, l1: LineElement, l2: LineElement, parseHits: HitsParser)
    requires DecodeLine(l1, parseHits).Ok? && DecodeLine(l2, parseHits).Ok?
    requires LineNumber(l1) != LineNumber(l2)
    ensures var classes := [ClassElement(f, [l1]), ClassElement(f, [l2])];
            && FirstClassError(classes, parseHits) == None
            && Filenames(classes) == {f}
            && |HitLines(LinesFor(classes, f))| == 2
  {
    var c1, c2 := ClassElement(f, [l1]), ClassElement(f, [l2]);
    var classes := [c1, c2];
    assert classes[1..] == [c2] && [c2][1..] == [];
    assert [l1][1..] == [] && [l2][1..] == [];
    assert FirstLineError([l1], parseHits) == None;
    assert FirstLineError([l2], parseHits) == None;
    assert FirstClassError([c2], parseHits) == None;
    assert Filenames([c2]) == {f};
    assert LinesFor([c2], f) == [l2];
    assert LinesFor(classes, f) == [l1, l2];
    assert LineNumber(l1).Some? && LineNumber(l2).Some?;
    assert HitLines([l2]) == {LineNumber(l2).value};
    assert [l1, l2][1..] == [l2];
    assert HitLines([l1, l2]) == {LineNumber(l1).value, LineNumber(l2).value};
  }

  /** The concrete case: lines 10 (one hit) and 20 (no hit) of `Foo.swift`
      in two class entries. */
  lemma TwoEntriesExample(parseHits: HitsParser, policy: DuplicatePolicy)
    requires parseHits(Some("1")) == Some(1) && parseHits(Some("0")) == Some(0)
    ensures var classes := [ ClassElement("Foo.swift", [LineElement(Some("10"), Some("1"), None, None)]),
                             ClassElement("Foo.swift", [LineElement(Some("20"), Some("0"), None, None)]) ];
            && CollectFileMeasures(classes, map[], parseHits, policy).Ok?
            && LinesToCover(CollectFileMeasures(classes, map[], parseHits, policy).value["Foo.swift"]) == 2
  {
    var l10 := LineElement(Some("10"), Some("1"), None, None);
    var l20 := LineElement(Some("20"), Some("0"), None, None);
    LineNumbersTenTwenty();
    TwoEntriesOneFile("Foo.swift", l10, l20, parseHits, policy);
  }

  lemma LineNumbersTenTwenty()
    ensures ParseInt("10") == Some(10) && ParseInt("20") == Some(20)
  {
    assert ShowInt(10) == "10" && ShowInt(20) == "20";
    ParseShowRoundTrip(10);
    ParseShowRoundTrip(20);
  }

  // ---------------------------------------------------------------------
  // Packages
  // ---------------------------------------------------------------------

  /** The filename map is rebuilt per package: a resolving filename whose
      entry appears in two packages has its line measures saved twice, once
      per package, each from that package's lines alone. */
  lemma SameFileInTwoPackages(f: string, l: LineElement, parseHits: HitsParser, policy: DuplicatePolicy,
                              resolves: Resolver)
    requires DecodeLine(l, parseHits).Ok? && resolves(f)
    ensures var p := PackageElement([ClassElement(f, [l])]);
            var r := CollectPackageMeasures([p, p], parseHits, policy, resolves);
            && r.failure == None
            && |r.packages| == 2
            && f in r.packages[0] && f in r.packages[1]
            && r.packages[0][f] == r.packages[1][f]
            && r.packages[0][f].Saved? && |r.packages[0][f].measures| >= 3
  {
    var p := PackageElement([ClassElement(f, [l])]);
    assert FirstLineError([l], parseHits) == None by {
      assert [l][1..] == [];
    }
    assert FirstClassError(p.classes, parseHits) == None by {
      assert p.classes[1..] == [];
    }
    assert [p, p][1..] == [p];
    var r := CollectPackageMeasures([p, p], parseHits, policy, resolves);
    PackageOutcomeAt([p, p], parseHits, policy, resolves, 0);
    PackageOutcomeAt([p, p], parseHits, policy, resolves, 1);
    var builders := CollectFileMeasures(p.classes, map[], parseHits, policy).value;
    assert Filenames(p.classes) == {f} by {
      assert p.classes[1..] == [];
    }
    PackageAccumulatorLines(p.classes, parseHits, policy, f);
    assert LinesFor(p.classes, f) == [l] by {
      assert p.classes[1..] == [];
    }
    assert HitLines([l]) == {DecodeLine(l, parseHits).value.line} by {
      assert [l][1..] == [];
    }
    assert LinesToCover(builders[f]) == 1;
    assert r.packages[0][f] == Saved(FileMeasures(builders[f]));
  }

  /** A malformed package stops the walk, but what earlier packages saved
      stays saved: the outcome holds exactly the packages before the first
      failing one. */
  lemma EarlierPackagesStaySaved(packages: seq<PackageElement>, parseHits: HitsParser, policy: DuplicatePolicy,
                                 resolves: Resolver, k: nat)
    requires k < |packages|
    requires forall i :: 0 <= i < k ==> FirstClassError(packages[i].classes, parseHits).None?
    requires FirstClassError(packages[k].classes, parseHits).Some?
    ensures CollectPackageMeasures(packages, parseHits, policy, resolves).failure
            == FirstClassError(packages[k].classes, parseHits)
    ensures |CollectPackageMeasures(packages, parseHits, policy, resolves).packages| == k
  {
    FirstPackageErrorAt(packages, parseHits, k);
    SavedPackagesBeforeError(packages, parseHits, policy, resolves, k);
  }

  lemma {:induction false} FirstPackageErrorAt(packages: seq<PackageElement>, parseHits: HitsParser, k: nat)
    requires k < |packages|
    requires forall i :: 0 <= i < k ==> FirstClassError(packages[i].classes, parseHits).None?
    requires FirstClassError(packages[k].classes, parseHits).Some?
    ensures FirstPackageError(packages, parseHits) == FirstClassError(packages[k].classes, parseHits)
    decreases k
  {
    if k > 0 {
      FirstPackageErrorAt(packages[1..], parseHits, k - 1);
    }
  }

  lemma {:induction false} SavedPackagesBeforeError(packages: seq<PackageElement>, parseHits: HitsParser,
                                                    policy: DuplicatePolicy, resolves: Resolver, k: nat)
    requires k < |packages|
    requires forall i :: 0 <= i < k ==> FirstClassError(packages[i].classes, parseHits).None?
    requires FirstClassError(packages[k].classes, parseHits).Some?
    ensures |CollectPackageMeasures(packages, parseHits, policy, resolves).packages| == k
    decreases k
  {
    if k > 0 {
      SavedPackagesBeforeError(packages[1..], parseHits, policy, resolves, k - 1);
    }
  }

  /** A line whose number is not an integer aborts the whole report. */
  lemma BadLineNumberAborts(packages: seq<PackageElement>, parseHits: HitsParser, policy: DuplicatePolicy,
                            resolves: Resolver, i: nat, j: nat, n: nat)
    requires i < |packages| && j < |packages[i].classes| && n < |packages[i].classes[j].lines|
    requires LineNumber(packages[i].classes[j].lines[n]).None?
    ensures CollectPackageMeasures(packages, parseHits, policy, resolves).failure.Some?
    ensures |CollectPackageMeasures(packages, parseHits, policy, resolves).packages| <= i
  {
    LineErrorIsFound(packages[i].classes[j].lines, parseHits, n);
    ClassErrorIsFound(packages[i].classes, parseHits, j);
    PackageErrorIsFound(packages, parseHits, policy, resolves, i);
  }

  lemma {:induction false} LineErrorIsFound(lines: seq<LineElement>, parseHits: HitsParser, n: nat)
    requires n < |lines| && DecodeLine(lines[n], parseHits).Err?
    ensures FirstLineError(lines, parseHits).Some?
    decreases n
  {
    if n > 0 && DecodeLine(lines[0], parseHits).Ok? {
      LineErrorIsFound(lines[1..], parseHits, n - 1);
    }
  }

  lemma {:induction false} ClassErrorIsFound(classes: seq<ClassElement>, parseHits: HitsParser, j: nat)
    requires j < |classes| && FirstLineError(classes[j].lines, parseHits).Some?
    ensures FirstClassError(classes, parseHits).Some?
    decreases j
  {
    if j > 0 && FirstLineError(classes[0].lines, parseHits).None? {
      ClassErrorIsFound(classes[1..], parseHits, j - 1);
    }
  }

  lemma {:induction false} PackageErrorIsFound(packages: seq<PackageElement>, parseHits: HitsParser,
                                               policy: DuplicatePolicy, resolves: Resolver, i: nat)
    requires i < |packages| && FirstClassError(packages[i].classes, parseHits).Some?
    ensures CollectPackageMeasures(packages, parseHits, policy, resolves).failure.Some?
    ensures |CollectPackageMeasures(packages, parseHits, policy, resolves).packages| <= i
    decreases i
  {
    if i > 0 && FirstClassError(packages[0].classes, parseHits).None? {
      PackageErrorIsFound(packages[1..], parseHits, policy, resolves, i - 1);
    }
  }

  // ---------------------------------------------------------------------
  // Emitted values
  // ---------------------------------------------------------------------

  /** The branches-to-cover measure is given the serialised hits table, not
      the number of conditions. */
  lemma BranchesToCoverGetsHitsTable(b: Builder)
    requires Valid(b) && b.conditions > 0
    ensures ValueOf(FileMeasures(b), ConditionsToCoverKey) == Some(DataValue(b.hitsByLine))
    ensures ValueOf(FileMeasures(b), ConditionsToCoverKey) != Some(IntValue(b.conditions))
  {
    ConditionMeasuresValues(b);
  }

  /** The uncovered-conditions measure is given the condition total: as soon
      as one condition is covered it differs from total minus covered. */
  lemma UncoveredConditionsGetsTotal(b: Builder)
    requires Valid(b) && b.conditions > 0
    requires SumValues(b.coveredConditionsByLine) != 0
    ensures ValueOf(FileMeasures(b), UncoveredConditionsKey) == Some(IntValue(b.conditions))
    ensures ValueOf(FileMeasures(b), UncoveredConditionsKey)
            != Some(IntValue(b.conditions - SumValues(b.coveredConditionsByLine)))
  {
    ConditionMeasuresValues(b);
  }

  /** Condition measures do not depend on the line check: an accumulator
      whose condition total is positive emits them even without lines. No
      report produces this accumulator, because every decoded line is given
      its hits before its conditions (`ConditionLinesHaveHits`); the lemma is
      about the two independent tests of the measure emission alone. */
  lemma ConditionMeasuresWithoutLines()
    ensures var b := Builder([], [(3, 2)], [(3, 1)], 0, 2);
            Valid(b) && |FileMeasures(b)| == 4 && ValueOf(FileMeasures(b), LinesToCoverKey) == None
  {
    var b := Builder([], [(3, 2)], [(3, 1)], 0, 2);
    assert Keys([(3, 2)]) == {3};
    assert Keys([(3, 1)]) == {3};
    assert SumValues([(3, 2)]) == 2;
    LineMeasuresValues(b);
  }
}
