/** `SwiftLintReportParser`: every line of a SwiftLint report goes through
    the issue pattern, and every match becomes one issue handed to the host.
    Resolving the file, selecting the line and saving the issue belong to
    the host; whether that succeeds for a `(path, line)` is the `saves`
    parameter. */
module SwiftLint {
  import opened Wrappers
  import opened Numerals
  import opened SwiftLintPattern
  import opened SwiftLintText

  /** What `recordIssue` reads out of one match. */
  datatype Issue = Issue(path: string, line: int, message: string, rule: string)

  /** `Saved`: the host accepted the issue. `Logged`: resolving, selecting
      the line or saving threw, and the exception was logged. */
  datatype Event = Saved(issue: Issue) | Logged(issue: Issue)

  /** The events of a run and, when `Integer.parseInt` threw on a line
      group, the token it rejected; nothing after that token is read. */
  datatype LintOutcome = LintOutcome(events: seq<Event>, failure: Option<string>)

  /** Whether the host resolves, places and saves an issue without
      throwing; any of its fields (path, line, message, rule key) may make
      it throw. */
  type Host = Issue -> bool

  /** The issue a match's groups describe, or the line token
      `Integer.parseInt` rejects. */
  function IssueOf(g: Groups): (r: Result<Issue, string>)
    ensures r.Ok? <==> ParseInt(g.line).Some?
    ensures r.Err? ==> r.error == g.line
    ensures r.Ok? ==> InInt32(r.value.line) && r.value.rule == g.rule && r.value.path == g.path
  {
    match ParseInt(g.line)
    case None => Err(g.line)
    case Some(n) => Ok(Issue(g.path, n, g.message, g.rule))
  }

  /** The try block around resolving and saving one issue. */
  function Record(issue: Issue, saves: Host): Event {
    if saves(issue) then Saved(issue) else Logged(issue)
  }

  /** `events` happened before `rest`. */
  function After(events: seq<Event>, rest: LintOutcome): LintOutcome {
    LintOutcome(events + rest.events, rest.failure)
  }

  /** The groups of the matches `ms`, in order. */
  function MatchGroups(s: string, ms: seq<Parse>): (gs: seq<Groups>)
    requires forall i :: 0 <= i < |ms| ==> ValidParse(s, ms[i])
    ensures |gs| == |ms|
    ensures forall i :: 0 <= i < |ms| ==> gs[i] == GroupsOf(s, ms[i])
  {
    if ms == [] then [] else [GroupsOf(s, ms[0])] + MatchGroups(s, ms[1..])
  }

  /** The body of the `matcher.find()` loop over the matches' groups `gs`:
      one event per match, until a line token does not parse. */
  function RecordGroups(gs: seq<Groups>, saves: Host): (r: LintOutcome)
    ensures |r.events| <= |gs|
    ensures r.failure.None? ==> |r.events| == |gs|
    ensures forall i :: 0 <= i < |r.events| ==>
              IssueOf(gs[i]) == Ok(r.events[i].issue) && r.events[i] == Record(r.events[i].issue, saves)
    ensures r.failure.Some? ==> |r.events| < |gs| && IssueOf(gs[|r.events|]) == Err(r.failure.value)
  {
    if gs == [] then LintOutcome([], None)
    else
      match IssueOf(gs[0])
      case Err(token) => LintOutcome([], Some(token))
      case Ok(issue) =>
        var rest := RecordGroups(gs[1..], saves);
        RecordGroupsCons(gs, saves, issue, rest);
        After([Record(issue, saves)], rest)
  }

  /** The events of the first group followed by those of the rest keep
      `RecordGroups`' promises. */
  lemma RecordGroupsCons(gs: seq<Groups>, saves: Host, issue: Issue, rest: LintOutcome)
    requires gs != [] && IssueOf(gs[0]) == Ok(issue)
    requires |rest.events| <= |gs| - 1
    requires rest.failure.None? ==> |rest.events| == |gs| - 1
    requires forall i :: 0 <= i < |rest.events| ==>
               IssueOf(gs[1..][i]) == Ok(rest.events[i].issue) && rest.events[i] == Record(rest.events[i].issue, saves)
    requires rest.failure.Some? ==> |rest.events| < |gs| - 1 && IssueOf(gs[1..][|rest.events|]) == Err(rest.failure.value)
    ensures var r := After([Record(issue, saves)], rest);
            && |r.events| <= |gs|
            && (r.failure.None? ==> |r.events| == |gs|)
            && (forall i :: 0 <= i < |r.events| ==>
                  IssueOf(gs[i]) == Ok(r.events[i].issue) && r.events[i] == Record(r.events[i].issue, saves))
            && (r.failure.Some? ==> |r.events| < |gs| && IssueOf(gs[|r.events|]) == Err(r.failure.value))
  {
  }

  /** `recordIssue(line)`. */
  function RecordIssue(line: string, saves: Host): LintOutcome {
    RecordGroups(MatchGroups(line, AllMatches(line, 0)), saves)
  }

  /** The outcomes of lines read in order, up to and including the first
      line whose line token does not parse. */
  function Combine(outcomes: seq<LintOutcome>): LintOutcome {
    if outcomes == [] then LintOutcome([], None)
    else if outcomes[0].failure.Some? then outcomes[0]
    else After(outcomes[0].events, Combine(outcomes[1..]))
  }

  /** What `recordIssue` makes of each line on its own. */
  function LineOutcomes(lines: seq<string>, saves: Host): (r: seq<LintOutcome>)
    ensures |r| == |lines|
    ensures forall i :: 0 <= i < |lines| ==> r[i] == RecordIssue(lines[i], saves)
  {
    if lines == [] then [] else [RecordIssue(lines[0], saves)] + LineOutcomes(lines[1..], saves)
  }

  /** `parseReport`: the lines in order, stopping at the first line whose
      line token does not parse. */
  function ParseLintReport(lines: seq<string>, saves: Host): LintOutcome {
    Combine(LineOutcomes(lines, saves))
  }

  /** The issues of a run, whether saved or logged. */
  function Issues(events: seq<Event>): (r: seq<Issue>)
    ensures |r| == |events|
    ensures forall i :: 0 <= i < |events| ==> r[i] == events[i].issue
  {
    if events == [] then [] else [events[0].issue] + Issues(events[1..])
  }

  /** The `matcher.find()` loop of `recordIssue`, as Java runs it: each
      search resumes where the previous match ended. */
  method RecordLine(line: string, saves: Host) returns (events: seq<Event>, failure: Option<string>)
    ensures LintOutcome(events, failure) == RecordIssue(line, saves)
  {
    events, failure := [], None;
    var pos := 0;
    while failure.None?
      invariant pos <= |line|
      invariant failure.None? ==> RecordIssue(line, saves) == After(events, RecordGroups(MatchGroups(line, AllMatches(line, pos)), saves))
      invariant failure.Some? ==> RecordIssue(line, saves) == LintOutcome(events, failure)
      decreases failure.None?, |line| - pos
    {
      var found := Find(line, pos);
      if found.None? {
        NoMoreMatches(line, pos);
        break;
      }
      var x := found.value;
      NextMatch(line, pos, x, saves);
      match IssueOf(GroupsOf(line, x))
      case Err(token) =>
        failure := Some(token);
      case Ok(issue) =>
        AfterAssociates(events, [Record(issue, saves)],
                        RecordGroups(MatchGroups(line, AllMatches(line, MatchEnd(x))), saves));
        events := events + [Record(issue, saves)];
        pos := MatchEnd(x);
    }
  }

  lemma NoMoreMatches(line: string, pos: nat)
    requires pos <= |line| && Find(line, pos).None?
    ensures AllMatches(line, pos) == []
  {
  }

  /** One turn of the `find()` loop: the match found first is recorded
      first, and the search resumes at its end. */
  lemma NextMatch(line: string, pos: nat, x: Parse, saves: Host)
    requires pos <= |line| && Find(line, pos) == Some(x)
    ensures ValidParse(line, x) && pos < MatchEnd(x) <= |line|
    ensures RecordGroups(MatchGroups(line, AllMatches(line, pos)), saves)
            == match IssueOf(GroupsOf(line, x))
               case Err(token) => LintOutcome([], Some(token))
               case Ok(issue) => After([Record(issue, saves)],
                                       RecordGroups(MatchGroups(line, AllMatches(line, MatchEnd(x))), saves))
  {
    MatchEndAfterStart(line, x);
    var later := AllMatches(line, MatchEnd(x));
    assert AllMatches(line, pos) == [x] + later;
    var gs := MatchGroups(line, [x] + later);
    assert gs[0] == GroupsOf(line, x);
    assert gs[1..] == MatchGroups(line, later);
  }

  /** The `readLine` loop of `parseReport`. */
  method ParseReport(lines: seq<string>, saves: Host) returns (events: seq<Event>, failure: Option<string>)
    ensures LintOutcome(events, failure) == ParseLintReport(lines, saves)
  {
    ghost var outcomes := LineOutcomes(lines, saves);
    events, failure := [], None;
    var i := 0;
    while i < |lines| && failure.None?
      invariant i <= |lines|
      invariant failure.None? ==> Combine(outcomes) == After(events, Combine(outcomes[i..]))
      invariant failure.Some? ==> Combine(outcomes) == LintOutcome(events, failure)
    {
      var lineEvents, lineFailure := RecordLine(lines[i], saves);
      assert outcomes[i..][0] == RecordIssue(lines[i], saves);
      assert outcomes[i..][1..] == outcomes[i + 1..];
      if lineFailure.None? {
        AfterAssociates(events, lineEvents, Combine(outcomes[i + 1..]));
      }
      events := events + lineEvents;
      failure := lineFailure;
      i := i + 1;
    }
    if failure.None? {
      assert outcomes[i..] == [];
    }
  }

  lemma AfterAssociates(a: seq<Event>, b: seq<Event>, rest: LintOutcome)
    ensures After(a, After(b, rest)) == After(a + b, rest)
  {
    assert a + (b + rest.events) == (a + b) + rest.events;
  }

  /** Reading a report in two parts: the second part is read only if the
      first ended without a rejected line token. */
  lemma ReportAppend(a: seq<string>, b: seq<string>, saves: Host)
    ensures ParseLintReport(a + b, saves)
            == if ParseLintReport(a, saves).failure.Some? then ParseLintReport(a, saves)
               else After(ParseLintReport(a, saves).events, ParseLintReport(b, saves))
  {
    LineOutcomesAppend(a, b, saves);
    CombineAppend(LineOutcomes(a, saves), LineOutcomes(b, saves));
  }

  lemma {:induction false} LineOutcomesAppend(a: seq<string>, b: seq<string>, saves: Host)
    ensures LineOutcomes(a + b, saves) == LineOutcomes(a, saves) + LineOutcomes(b, saves)
  {
    if a == [] {
      assert a + b == b;
    } else {
      assert (a + b)[0] == a[0];
      assert (a + b)[1..] == a[1..] + b;
      LineOutcomesAppend(a[1..], b, saves);
    }
  }

  lemma {:induction false} CombineAppend(p: seq<LintOutcome>, q: seq<LintOutcome>)
    ensures Combine(p + q)
            == if Combine(p).failure.Some? then Combine(p) else After(Combine(p).events, Combine(q))
  {
    if p == [] {
      assert p + q == q;
    } else {
      assert (p + q)[0] == p[0];
      assert (p + q)[1..] == p[1..] + q;
      CombineAppend(p[1..], q);
      if p[0].failure.None? {
        AfterAssociates(p[0].events, Combine(p[1..]).events, Combine(q));
      }
    }
  }

  /** A rejected line token ends the report: lines after it are never read. */
  lemma FailureStopsReport(a: seq<string>, b: seq<string>, saves: Host)
    requires ParseLintReport(a, saves).failure.Some?
    ensures ParseLintReport(a + b, saves) == ParseLintReport(a, saves)
  {
    ReportAppend(a, b, saves);
  }

  /** A line in which the pattern finds nothing produces no event and no
      error; reading goes on with the next line. */
  lemma SilentLine(line: string, rest: seq<string>, saves: Host)
    requires AllMatches(line, 0) == []
    ensures RecordIssue(line, saves) == LintOutcome([], None)
    ensures ParseLintReport([line] + rest, saves) == ParseLintReport(rest, saves)
  {
    ReportAppend([line], rest, saves);
    assert LineOutcomes([line], saves) == [LintOutcome([], None)];
  }

  /** A line without a `:` never matches: there is nowhere for the path
      group to end. */
  lemma NoColonNoMatch(line: string)
    requires forall i :: 0 <= i < |line| ==> line[i] != ':'
    ensures AllMatches(line, 0) == []
  {
  }

  /** What the host does with an issue never changes which issues are read
      or whether the report is read to the end: save failures are only
      logged. */
  lemma SaveFailuresAreContained(lines: seq<string>, saves: Host, other: Host)
    ensures Issues(ParseLintReport(lines, saves).events) == Issues(ParseLintReport(lines, other).events)
    ensures ParseLintReport(lines, saves).failure == ParseLintReport(lines, other).failure
  {
    var p, q := LineOutcomes(lines, saves), LineOutcomes(lines, other);
    forall i | 0 <= i < |lines|
      ensures Issues(p[i].events) == Issues(q[i].events) && p[i].failure == q[i].failure
    {
      RecordGroupsIssues(MatchGroups(lines[i], AllMatches(lines[i], 0)), saves, other);
    }
    CombineIssues(p, q);
  }

  lemma {:induction false} CombineIssues(p: seq<LintOutcome>, q: seq<LintOutcome>)
    requires |p| == |q|
    requires forall i :: 0 <= i < |p| ==> Issues(p[i].events) == Issues(q[i].events) && p[i].failure == q[i].failure
    ensures Issues(Combine(p).events) == Issues(Combine(q).events)
    ensures Combine(p).failure == Combine(q).failure
  {
    if p != [] {
      CombineIssues(p[1..], q[1..]);
      IssuesAppend(p[0].events, Combine(p[1..]).events);
      IssuesAppend(q[0].events, Combine(q[1..]).events);
    }
  }

  lemma {:induction false} RecordGroupsIssues(gs: seq<Groups>, saves: Host, other: Host)
    ensures Issues(RecordGroups(gs, saves).events) == Issues(RecordGroups(gs, other).events)
    ensures RecordGroups(gs, saves).failure == RecordGroups(gs, other).failure
  {
    if gs != [] && IssueOf(gs[0]).Ok? {
      RecordGroupsIssues(gs[1..], saves, other);
      var issue := IssueOf(gs[0]).value;
      IssuesAppend([Record(issue, saves)], RecordGroups(gs[1..], saves).events);
      IssuesAppend([Record(issue, other)], RecordGroups(gs[1..], other).events);
    }
  }

  lemma {:induction false} IssuesAppend(a: seq<Event>, b: seq<Event>)
    ensures Issues(a + b) == Issues(a) + Issues(b)
  {
    if a == [] {
      assert a + b == b;
    } else {
      assert (a + b)[1..] == a[1..] + b;
      IssuesAppend(a[1..], b);
    }
  }

  /** Reading back one line SwiftLint wrote: a line token that parses gives
      exactly the issue the line was written from; one that does not parse
      aborts the report, with no issue from this line. */
  lemma RecordIssueOfText(path: string, line: string, column: Option<string>, sev: Severity,
                          message: string, rule: string, saves: Host)
    requires WellFormed(path, line, column, message, rule)
    ensures var s := IssueText(path, line, column, sev, message, rule);
            RecordIssue(s, saves)
            == match ParseInt(line)
               case Some(n) => LintOutcome([Record(Issue(path, n, message, rule), saves)], None)
               case None => LintOutcome([], Some(line))
  {
    IssueTextRoundTrip(path, line, column, sev, message, rule);
  }

  /** A decimal line number, with or without a column, is read back as the
      number it shows; the severity is not part of the issue. */
  lemma NumberedLineReadBack(path: string, n: int, column: Option<string>, sev: Severity,
                             message: string, rule: string, saves: Host)
    requires 0 <= n <= MaxInt32
    requires WellFormed(path, ShowInt(n), column, message, rule)
    ensures RecordIssue(IssueText(path, ShowInt(n), column, sev, message, rule), saves)
            == LintOutcome([Record(Issue(path, n, message, rule), saves)], None)
  {
    ParseShowRoundTrip(n);
    RecordIssueOfText(path, ShowInt(n), column, sev, message, rule, saves);
  }
}
