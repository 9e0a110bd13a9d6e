/** Report lines in the form SwiftLint writes them, read back. */
module SwiftLintExamples {
  import opened Wrappers
  import opened Numerals
  import opened SwiftLintPattern
  import opened SwiftLintText
  import opened SwiftLint

  const LongLine: string := "A.swift:12:5: warning: Size: long (line_length)"
  const CastLine: string := "Src/B.swift:7: error: Avoid it (force_cast)"
  const OddPathLine: string := "Fooxswift:3: warning: Todo: fix (todo)"
  const WordLine: string := "Foo.swift:abc: warning: Todo: fix (todo)"

  lemma LongLineLayout()
    ensures LongLine == IssueText("A.swift", "12", Some("5"), Warning,
                                  "Size: long",
                                  "line_length")
    ensures WellFormed("A.swift", "12", Some("5"),
                       "Size: long",
                       "line_length")
    ensures ParseInt("12") == Some(12)
  {
    LongLineText();
    LongLineForm();
    LongLineNumber();
  }

  lemma LongLineText()
    ensures LongLine == IssueText("A.swift", "12", Some("5"), Warning,
                                  "Size: long",
                                  "line_length")
  {
    assert ColumnText(Some("5")) == ":5";
  }

  lemma LongLineForm()
    ensures WellFormed("A.swift", "12", Some("5"),
                       "Size: long",
                       "line_length")
  {
  }

  lemma LongLineNumber()
    ensures ParseInt("12") == Some(12)
  {
    assert ShowInt(12) == "12";
    ParseShowRoundTrip(12);
  }

  /** A warning with a column: the column and the severity are read but not
      kept, and the colons inside the message stay in the message. */
  lemma LongLineIsRead(saves: Host)
    ensures RecordIssue(LongLine, saves)
            == LintOutcome([Record(Issue("A.swift", 12,
                                         "Size: long",
                                         "line_length"), saves)], None)
  {
    LongLineLayout();
    RecordIssueOfText("A.swift", "12", Some("5"), Warning,
                      "Size: long",
                      "line_length", saves);
  }

  lemma CastLineLayout()
    ensures CastLine == IssueText("Src/B.swift", "7", None, Error,
                                  "Avoid it", "force_cast")
    ensures WellFormed("Src/B.swift", "7", None, "Avoid it", "force_cast")
    ensures ParseInt("7") == Some(7)
  {
    CastLineText();
    CastLineForm();
    CastLineNumber();
  }

  lemma CastLineText()
    ensures CastLine == IssueText("Src/B.swift", "7", None, Error,
                                  "Avoid it", "force_cast")
  {
  }

  lemma CastLineForm()
    ensures WellFormed("Src/B.swift", "7", None, "Avoid it", "force_cast")
  {
  }

  lemma CastLineNumber()
    ensures ParseInt("7") == Some(7)
  {
    assert ShowInt(7) == "7";
    ParseShowRoundTrip(7);
  }

  /** An error without a column. */
  lemma CastLineIsRead(saves: Host)
    ensures RecordIssue(CastLine, saves)
            == LintOutcome([Record(Issue("Src/B.swift", 7, "Avoid it",
                                         "force_cast"), saves)], None)
  {
    CastLineLayout();
    RecordIssueOfText("Src/B.swift", "7", None, Error,
                      "Avoid it", "force_cast", saves);
  }

  lemma OddPathLayout()
    ensures OddPathLine == IssueText("Fooxswift", "3", None, Warning, "Todo: fix", "todo")
    ensures WellFormed("Fooxswift", "3", None, "Todo: fix", "todo")
    ensures ParseInt("3") == Some(3)
  {
    OddPathText();
    OddPathForm();
    OddPathNumber();
  }

  lemma OddPathText()
    ensures OddPathLine == IssueText("Fooxswift", "3", None, Warning, "Todo: fix", "todo")
  {
  }

  lemma OddPathForm()
    ensures WellFormed("Fooxswift", "3", None, "Todo: fix", "todo")
  {
  }

  lemma OddPathNumber()
    ensures ParseInt("3") == Some(3)
  {
    assert ShowInt(3) == "3";
    ParseShowRoundTrip(3);
  }

  /** The `.` before `swift` is not escaped: any character may stand
      there, so `Fooxswift` is read as a Swift path. */
  lemma OddPathIsRead(saves: Host)
    ensures RecordIssue(OddPathLine, saves)
            == LintOutcome([Record(Issue("Fooxswift", 3, "Todo: fix", "todo"), saves)], None)
  {
    OddPathLayout();
    RecordIssueOfText("Fooxswift", "3", None, Warning, "Todo: fix", "todo", saves);
  }

  lemma WordLineLayout()
    ensures WordLine == IssueText("Foo.swift", "abc", None, Warning, "Todo: fix", "todo")
    ensures WellFormed("Foo.swift", "abc", None, "Todo: fix", "todo")
    ensures ParseInt("abc") == None
  {
    WordLineText();
    WordLineForm();
    WordLineNumber();
  }

  lemma WordLineText()
    ensures WordLine == IssueText("Foo.swift", "abc", None, Warning, "Todo: fix", "todo")
  {
  }

  lemma WordLineForm()
    ensures WellFormed("Foo.swift", "abc", None, "Todo: fix", "todo")
  {
  }

  lemma WordLineNumber()
    ensures ParseInt("abc") == None
  {
    ParseRejectsNonDigit("abc", 0);
  }

  /** The line group is `\w+`, so a word matches it; `Integer.parseInt`
      then throws outside the try block, the line yields no issue, and no
      later line of the report is read. */
  lemma WordLineAbortsReport(saves: Host, later: seq<string>)
    ensures RecordIssue(WordLine, saves) == LintOutcome([], Some("abc"))
    ensures ParseLintReport([WordLine] + later, saves) == LintOutcome([], Some("abc"))
  {
    WordLineLayout();
    RecordIssueOfText("Foo.swift", "abc", None, Warning, "Todo: fix", "todo", saves);
    assert ParseLintReport([WordLine], saves) == LintOutcome([], Some("abc"));
    FailureStopsReport([WordLine], later, saves);
  }
}
