/** A minimal stand-in for the host's per-file coverage accumulator
    (`CoverageMeasuresBuilder`): three sorted line tables and two running
    counters, updated by `setHits` and `setConditions`. The library's own
    duplicate-line rule is not visible, so it is the `policy` parameter. */
module CoverageBuilder {
  import opened Wrappers
  import opened LineTables

  datatype Builder = Builder(
    hitsByLine: LineTable,
    conditionsByLine: LineTable,
    coveredConditionsByLine: LineTable,
    coveredLines: int,   // running count of lines with a positive hit count
    conditions: int      // running sum of the per-line condition totals
  )

  /** The accumulator's invariant: sorted tables, the two condition tables
      describe the same lines, and both counters agree with the tables. */
  ghost predicate Valid(b: Builder) {
    && Ascending(b.hitsByLine)
    && Ascending(b.conditionsByLine)
    && Ascending(b.coveredConditionsByLine)
    && Keys(b.conditionsByLine) == Keys(b.coveredConditionsByLine)
    && b.coveredLines == CountPositive(b.hitsByLine)
    && b.conditions == SumValues(b.conditionsByLine)
  }

  /** `CoverageMeasuresBuilder.create()`. */
  function Empty(): (b: Builder)
    ensures Valid(b)
    ensures LinesToCover(b) == 0 && b.coveredLines == 0 && b.conditions == 0
  {
    Builder([], [], [], 0, 0)
  }

  /** `getLinesToCover()`: the number of distinct lines with a hit count. */
  function LinesToCover(b: Builder): nat {
    |b.hitsByLine|
  }

  /** `setHits(line, hits)`. */
  function SetHits(b: Builder, line: int, hits: int, policy: DuplicatePolicy): (r: Builder)
    requires Valid(b)
    ensures Valid(r)
    ensures Keys(r.hitsByLine) == Keys(b.hitsByLine) + {line}
    ensures Lookup(r.hitsByLine, line)
            == if line in Keys(b.hitsByLine) && policy == KeepFirst then Lookup(b.hitsByLine, line) else Some(hits)
    ensures forall other :: other != line ==> Lookup(r.hitsByLine, other) == Lookup(b.hitsByLine, other)
    ensures r.conditionsByLine == b.conditionsByLine && r.coveredConditionsByLine == b.coveredConditionsByLine
    ensures r.conditions == b.conditions
  {
    var t := Put(b.hitsByLine, line, hits, policy);
    PutSpec(b.hitsByLine, line, hits, policy);
    PutCountPositive(b.hitsByLine, line, hits, policy);
    b.(hitsByLine := t,
       coveredLines := b.coveredLines - Positive(Lookup(b.hitsByLine, line)) + Positive(Lookup(t, line)))
  }

  /** `setConditions(line, total, covered)`. */
  function SetConditions(b: Builder, line: int, total: int, covered: int, policy: DuplicatePolicy): (r: Builder)
    requires Valid(b)
    ensures Valid(r)
    ensures Keys(r.conditionsByLine) == Keys(b.conditionsByLine) + {line}
    ensures line in Keys(b.conditionsByLine) && policy == KeepFirst ==> r == b
    ensures !(line in Keys(b.conditionsByLine) && policy == KeepFirst) ==>
              Lookup(r.conditionsByLine, line) == Some(total) && Lookup(r.coveredConditionsByLine, line) == Some(covered)
    ensures forall other :: other != line ==>
              Lookup(r.conditionsByLine, other) == Lookup(b.conditionsByLine, other) &&
              Lookup(r.coveredConditionsByLine, other) == Lookup(b.coveredConditionsByLine, other)
    ensures r.hitsByLine == b.hitsByLine && r.coveredLines == b.coveredLines
  {
    var totals := Put(b.conditionsByLine, line, total, policy);
    var covers := Put(b.coveredConditionsByLine, line, covered, policy);
    PutSpec(b.conditionsByLine, line, total, policy);
    PutSpec(b.coveredConditionsByLine, line, covered, policy);
    PutSumValues(b.conditionsByLine, line, total, policy);
    if line in Keys(b.conditionsByLine) && policy == KeepFirst then
      b
    else
      b.(conditionsByLine := totals,
         coveredConditionsByLine := covers,
         conditions := b.conditions - ValueOrZero(Lookup(b.conditionsByLine, line)) + total)
  }

  /** The invariant the uncovered-lines measure relies on: a valid
      accumulator never counts more covered lines than lines to cover. */
  lemma CoveredLinesWithinLinesToCover(b: Builder)
    requires Valid(b)
    ensures 0 <= b.coveredLines <= LinesToCover(b)
    ensures LinesToCover(b) == |Keys(b.hitsByLine)|
  {
    CountPositiveBound(b.hitsByLine);
    SizeIsDistinctLines(b.hitsByLine);
  }
}
