/** The line format SwiftLint writes, and what the pattern reads back
    from it. */
module SwiftLintText {
  import opened Wrappers
  import opened SwiftLintPattern

  /** `:column`, or nothing. */
  function ColumnText(column: Option<string>): string {
    if column.Some? then ":" + column.value else ""
  }

  /** `path:line[:column]: severity: message (rule)`, as SwiftLint's Xcode
      reporter writes it; the closing parenthesis is outside the pattern. */
  function IssueText(path: string, line: string, column: Option<string>, sev: Severity,
                     message: string, rule: string): string
  {
    path + (":" + (line + (ColumnText(column) + (": " + (SeverityText(sev) + (": " + (message + (" (" + (rule + ")")))))))))
  }

  /** A character of the line token: any word character. */
  predicate IsLineChar(c: char) {
    IsWordChar(c)
  }

  /** The inputs the round trip holds for: a path of at least six
      non-terminator characters ending in `swift`, a line token of word
      characters that does not end in `t` (so that no longer path could end
      in `swift` just before the column), a
      column of word characters, a message without line terminators in
      which no `:` is directly followed by a word character, and a rule id
      of word characters. */
  ghost predicate WellFormed(path: string, line: string, column: Option<string>, message: string, rule: string) {
    && |path| >= 6 && path[|path| - 5..] == "swift"
    && (forall i :: 0 <= i < |path| ==> IsDotChar(path[i]))
    && |line| > 0 && (forall i :: 0 <= i < |line| ==> IsLineChar(line[i])) && line[|line| - 1] != 't'
    && (column.Some? ==> |column.value| > 0 && forall i :: 0 <= i < |column.value| ==> IsWordChar(column.value[i]))
    && (forall i :: 0 <= i < |message| ==> IsDotChar(message[i]))
    && (forall i :: 0 <= i < |message| - 1 ==> message[i] == ':' ==> !IsWordChar(message[i + 1]))
    && |rule| > 0 && (forall i :: 0 <= i < |rule| ==> IsWordChar(rule[i]))
  }

  /** The match the text is written to produce. */
  function Intended(path: string, line: string, column: Option<string>, sev: Severity,
                    message: string, rule: string): Parse
  {
    var lineEnd := |path| + 1 + |line|;
    var columnEnd := lineEnd + |ColumnText(column)|;
    var messageEnd := MessageStart(columnEnd + 2, sev) + |message|;
    Parse(0, |path|, Middle(lineEnd, column.Some?, columnEnd, Tail(sev, messageEnd, messageEnd + 2 + |rule|)))
  }

  /** Where each piece sits in a text `s` laid out as `IssueText` lays it out. */
  ghost predicate Laid(s: string, path: string, line: string, column: Option<string>, sev: Severity,
                       message: string, rule: string)
  {
    var x := Intended(path, line, column, sev, message, rule);
    var p := x.middle.columnEnd + 2;
    var ms := MessageStart(p, sev);
    && |s| == x.middle.tail.ruleEnd + 1 && s[x.middle.tail.ruleEnd] == ')'
    && (forall i :: 0 <= i < |path| ==> s[i] == path[i])
    && s[|path|] == ':'
    && (forall i :: 0 <= i < |line| ==> s[|path| + 1 + i] == line[i])
    && (column.Some? ==> s[x.middle.lineEnd] == ':')
    && (column.Some? ==> forall i :: 0 <= i < |column.value| ==> s[x.middle.lineEnd + 1 + i] == column.value[i])
    && s[x.middle.columnEnd] == ':' && s[x.middle.columnEnd + 1] == ' '
    && (forall i :: 0 <= i < |SeverityText(sev)| ==> s[p + i] == SeverityText(sev)[i])
    && s[p + |SeverityText(sev)|] == ':' && s[p + |SeverityText(sev)| + 1] == ' '
    && (forall i :: 0 <= i < |message| ==> s[ms + i] == message[i])
    && s[x.middle.tail.messageEnd] == ' ' && s[x.middle.tail.messageEnd + 1] == '('
    && (forall i :: 0 <= i < |rule| ==> s[x.middle.tail.messageEnd + 2 + i] == rule[i])
  }

  lemma Layout(path: string, line: string, column: Option<string>, sev: Severity, message: string, rule: string)
    ensures Laid(IssueText(path, line, column, sev, message, rule), path, line, column, sev, message, rule)
  {
    LengthFact(path, line, column, sev, message, rule);
    PathFact(path, line, column, sev, message, rule);
    LineFact(path, line, column, sev, message, rule);
    ColumnFact(path, line, column, sev, message, rule);
    SeverityFact(path, line, column, sev, message, rule);
    MessageFact(path, line, column, sev, message, rule);
    RuleFact(path, line, column, sev, message, rule);
  }

  /** Where `IssueText` puts each piece, one piece at a time. */
  lemma LengthFact(path: string, line: string, column: Option<string>, sev: Severity, message: string, rule: string)
    ensures var s := IssueText(path, line, column, sev, message, rule);
            var x := Intended(path, line, column, sev, message, rule);
            var p := x.middle.columnEnd + 2;
            var ms := MessageStart(p, sev);
            |s| == x.middle.tail.ruleEnd + 1 && s[x.middle.tail.ruleEnd] == ')'
  {
  }

  lemma PathFact(path: string, line: string, column: Option<string>, sev: Severity, message: string, rule: string)
    ensures var s := IssueText(path, line, column, sev, message, rule);
            var x := Intended(path, line, column, sev, message, rule);
            var p := x.middle.columnEnd + 2;
            var ms := MessageStart(p, sev);
            (forall i :: 0 <= i < |path| ==> s[i] == path[i]) && s[|path|] == ':'
  {
  }

  lemma LineFact(path: string, line: string, column: Option<string>, sev: Severity, message: string, rule: string)
    ensures var s := IssueText(path, line, column, sev, message, rule);
            var x := Intended(path, line, column, sev, message, rule);
            var p := x.middle.columnEnd + 2;
            var ms := MessageStart(p, sev);
            forall i :: 0 <= i < |line| ==> s[|path| + 1 + i] == line[i]
  {
  }

  lemma ColumnFact(path: string, line: string, column: Option<string>, sev: Severity, message: string, rule: string)
    ensures var s := IssueText(path, line, column, sev, message, rule);
            var x := Intended(path, line, column, sev, message, rule);
            var p := x.middle.columnEnd + 2;
            var ms := MessageStart(p, sev);
            (column.Some? ==> s[x.middle.lineEnd] == ':')
            && (column.Some? ==> forall i :: 0 <= i < |column.value| ==> s[x.middle.lineEnd + 1 + i] == column.value[i])
  {
  }

  lemma SeverityFact(path: string, line: string, column: Option<string>, sev: Severity, message: string, rule: string)
    ensures var s := IssueText(path, line, column, sev, message, rule);
            var x := Intended(path, line, column, sev, message, rule);
            var p := x.middle.columnEnd + 2;
            var ms := MessageStart(p, sev);
            s[x.middle.columnEnd] == ':' && s[x.middle.columnEnd + 1] == ' '
            && (forall i :: 0 <= i < |SeverityText(sev)| ==> s[p + i] == SeverityText(sev)[i])
            && s[p + |SeverityText(sev)|] == ':' && s[p + |SeverityText(sev)| + 1] == ' '
  {
  }

  lemma MessageFact(path: string, line: string, column: Option<string>, sev: Severity, message: string, rule: string)
    ensures var s := IssueText(path, line, column, sev, message, rule);
            var x := Intended(path, line, column, sev, message, rule);
            var p := x.middle.columnEnd + 2;
            var ms := MessageStart(p, sev);
            forall i :: 0 <= i < |message| ==> s[ms + i] == message[i]
  {
  }

  lemma RuleFact(path: string, line: string, column: Option<string>, sev: Severity, message: string, rule: string)
    ensures var s := IssueText(path, line, column, sev, message, rule);
            var x := Intended(path, line, column, sev, message, rule);
            var p := x.middle.columnEnd + 2;
            var ms := MessageStart(p, sev);
            s[x.middle.tail.messageEnd] == ' ' && s[x.middle.tail.messageEnd + 1] == '('
            && (forall i :: 0 <= i < |rule| ==> s[x.middle.tail.messageEnd + 2 + i] == rule[i])
  {
  }

  // ---------------------------------------------------------------------
  // The shape of a laid-out text, in positions only
  // ---------------------------------------------------------------------

  /** What kind of character sits in each region of a text laid out as
      `IssueText` lays it out from well-formed pieces, with `x` the match it
      is written to produce. */
  ghost predicate Shaped(s: string, x: Parse) {
    var P := x.pathEnd;
    var L := x.middle.lineEnd;
    var C := x.middle.columnEnd;
    var p := C + 2;
    var t := x.middle.tail;
    var ms := MessageStart(p, t.sev);
    && x.start == 0 && 6 <= P && P + 2 <= L <= C
    && ms <= t.messageEnd && t.messageEnd + 3 <= t.ruleEnd
    && |s| == t.ruleEnd + 1 && s[t.ruleEnd] == ')'
    && AllDots(s, 0, P) && s[P - 5..P] == "swift"
    && s[P] == ':'
    && (forall e :: P + 1 <= e < L ==> IsLineChar(s[e]))
    && s[L - 1] != 't'
    && (x.middle.colon ==> s[L] == ':' && C > L + 1)
    && (!x.middle.colon ==> C == L)
    && (forall e :: L + 1 <= e < C ==> IsWordChar(s[e]))
    && s[C] == ':' && s[C + 1] == ' '
    && HasAt(s, p, SeverityText(t.sev) + ": ")
    && (forall e :: p <= e < p + |SeverityText(t.sev)| ==> IsWordChar(s[e]))
    && (forall e :: ms <= e < t.messageEnd ==> IsDotChar(s[e]))
    && (forall e :: ms <= e < t.messageEnd - 1 ==> s[e] == ':' ==> !IsWordChar(s[e + 1]))
    && s[t.messageEnd] == ' ' && s[t.messageEnd + 1] == '('
    && (forall e :: t.messageEnd + 2 <= e < t.ruleEnd ==> IsWordChar(s[e]))
  }

  /** A text laid out from well-formed pieces has the shape of the match it
      is written to produce. */
  lemma ShapedOfLaid(s: string, path: string, line: string, column: Option<string>, sev: Severity,
                     message: string, rule: string)
    requires WellFormed(path, line, column, message, rule)
    requires Laid(s, path, line, column, sev, message, rule)
    ensures Shaped(s, Intended(path, line, column, sev, message, rule))
  {
    var x := Intended(path, line, column, sev, message, rule);
    ShapedHead(s, path, line, column, sev, message, rule);
    ShapedTail(s, path, line, column, sev, message, rule);
  }

  lemma ShapedHead(s: string, path: string, line: string, column: Option<string>, sev: Severity,
                   message: string, rule: string)
    requires WellFormed(path, line, column, message, rule)
    requires Laid(s, path, line, column, sev, message, rule)
    ensures var x := Intended(path, line, column, sev, message, rule);
            var P := x.pathEnd;
            var L := x.middle.lineEnd;
            && AllDots(s, 0, P) && s[P - 5..P] == "swift"
            && (forall e :: P + 1 <= e < L ==> IsLineChar(s[e]))
            && s[L - 1] != 't'
            && (forall e :: L + 1 <= e < x.middle.columnEnd ==> IsWordChar(s[e]))
  {
    PathShape(s, path, line, column, sev, message, rule);
    LineShape(s, path, line, column, sev, message, rule);
    ColumnShape(s, path, line, column, sev, message, rule);
  }

  lemma PathShape(s: string, path: string, line: string, column: Option<string>, sev: Severity,
                   message: string, rule: string)
    requires WellFormed(path, line, column, message, rule)
    requires Laid(s, path, line, column, sev, message, rule)
    ensures AllDots(s, 0, |path|) && s[|path| - 5..|path|] == "swift"
  {
    DotsCopied(s, 0, path);
    assert s[|path| - 5..|path|] == path[|path| - 5..];
  }

  lemma LineShape(s: string, path: string, line: string, column: Option<string>, sev: Severity,
                   message: string, rule: string)
    requires WellFormed(path, line, column, message, rule)
    requires Laid(s, path, line, column, sev, message, rule)
    ensures var L := Intended(path, line, column, sev, message, rule).middle.lineEnd;
            && (forall e :: |path| + 1 <= e < L ==> IsLineChar(s[e]))
            && s[L - 1] != 't'
  {
    LineCharsCopied(s, |path| + 1, line);
    assert s[|path| + 1 + |line| - 1] == line[|line| - 1];
  }

  lemma ColumnShape(s: string, path: string, line: string, column: Option<string>, sev: Severity,
                   message: string, rule: string)
    requires WellFormed(path, line, column, message, rule)
    requires Laid(s, path, line, column, sev, message, rule)
    ensures var m := Intended(path, line, column, sev, message, rule).middle;
            forall e :: m.lineEnd + 1 <= e < m.columnEnd ==> IsWordChar(s[e])
  {
    if column.Some? {
      WordsCopied(s, |path| + 1 + |line| + 1, column.value);
    }
  }

  lemma ShapedTail(s: string, path: string, line: string, column: Option<string>, sev: Severity,
                   message: string, rule: string)
    requires WellFormed(path, line, column, message, rule)
    requires Laid(s, path, line, column, sev, message, rule)
    ensures var x := Intended(path, line, column, sev, message, rule);
            var p := x.middle.columnEnd + 2;
            var t := x.middle.tail;
            var ms := MessageStart(p, t.sev);
            && HasAt(s, p, SeverityText(t.sev) + ": ")
            && (forall e :: p <= e < p + |SeverityText(t.sev)| ==> IsWordChar(s[e]))
            && (forall e :: ms <= e < t.messageEnd ==> IsDotChar(s[e]))
            && (forall e :: ms <= e < t.messageEnd - 1 ==> s[e] == ':' ==> !IsWordChar(s[e + 1]))
            && (forall e :: t.messageEnd + 2 <= e < t.ruleEnd ==> IsWordChar(s[e]))
  {
    var x := Intended(path, line, column, sev, message, rule);
    var p := x.middle.columnEnd + 2;
    var ms := MessageStart(p, sev);
    SeverityWords(sev);
    WordsCopied(s, p, SeverityText(sev));
    SeverityHasAt(s, p, sev);
    DotsCopied(s, ms, message);
    ColonsCopied(s, ms, message);
    WordsCopied(s, x.middle.tail.messageEnd + 2, rule);
  }

  lemma SeverityWords(sev: Severity)
    ensures forall i :: 0 <= i < |SeverityText(sev)| ==> IsWordChar(SeverityText(sev)[i])
  {
  }

  lemma SeverityHasAt(s: string, p: nat, sev: Severity)
    requires p + |SeverityText(sev)| + 2 <= |s|
    requires forall i :: 0 <= i < |SeverityText(sev)| ==> s[p + i] == SeverityText(sev)[i]
    requires s[p + |SeverityText(sev)|] == ':' && s[p + |SeverityText(sev)| + 1] == ' '
    ensures HasAt(s, p, SeverityText(sev) + ": ")
  {
    var lit := SeverityText(sev) + ": ";
    assert forall i :: 0 <= i < |lit| ==> s[p + i] == lit[i];
    assert s[p..p + |lit|] == lit;
  }

  lemma DotsCopied(s: string, lo: nat, t: string)
    requires lo + |t| <= |s| && forall i :: 0 <= i < |t| ==> s[lo + i] == t[i]
    requires forall i :: 0 <= i < |t| ==> IsDotChar(t[i])
    ensures forall e :: lo <= e < lo + |t| ==> IsDotChar(s[e])
  {
    forall e | lo <= e < lo + |t|
      ensures IsDotChar(s[e])
    {
      assert s[e] == t[e - lo];
    }
  }

  lemma LineCharsCopied(s: string, lo: nat, t: string)
    requires lo + |t| <= |s| && forall i :: 0 <= i < |t| ==> s[lo + i] == t[i]
    requires forall i :: 0 <= i < |t| ==> IsLineChar(t[i])
    ensures forall e :: lo <= e < lo + |t| ==> IsLineChar(s[e])
  {
    forall e | lo <= e < lo + |t|
      ensures IsLineChar(s[e])
    {
      assert s[e] == t[e - lo];
    }
  }

  lemma WordsCopied(s: string, lo: nat, t: string)
    requires lo + |t| <= |s| && forall i :: 0 <= i < |t| ==> s[lo + i] == t[i]
    requires forall i :: 0 <= i < |t| ==> IsWordChar(t[i])
    ensures forall e :: lo <= e < lo + |t| ==> IsWordChar(s[e])
  {
    forall e | lo <= e < lo + |t|
      ensures IsWordChar(s[e])
    {
      assert s[e] == t[e - lo];
    }
  }

  lemma ColonsCopied(s: string, lo: nat, t: string)
    requires lo + |t| <= |s| && forall i :: 0 <= i < |t| ==> s[lo + i] == t[i]
    requires forall i :: 0 <= i < |t| - 1 ==> t[i] == ':' ==> !IsWordChar(t[i + 1])
    ensures forall e :: lo <= e < lo + |t| - 1 ==> s[e] == ':' ==> !IsWordChar(s[e + 1])
  {
    forall e | lo <= e < lo + |t| - 1 && s[e] == ':'
      ensures !IsWordChar(s[e + 1])
    {
      assert s[e] == t[e - lo] && s[e + 1] == t[e + 1 - lo];
    }
  }

  // ---------------------------------------------------------------------
  // In a text of that shape the pattern finds exactly the intended match
  // ---------------------------------------------------------------------

  /** The intended match is a match of the pattern. */
  lemma ShapedIsValid(s: string, x: Parse)
    requires Shaped(s, x)
    ensures ValidParse(s, x)
  {
    ShapedMiddleIsValid(s, x);
  }

  lemma ShapedMiddleIsValid(s: string, x: Parse)
    requires Shaped(s, x)
    ensures ValidMiddle(s, x.pathEnd, x.middle)
  {
    ShapedTailIsValid(s, x);
    assert AllWords(s, x.pathEnd + 1, x.middle.lineEnd) by {
      forall k | x.pathEnd + 1 <= k < x.middle.lineEnd
        ensures IsWordChar(s[k])
      {
        assert IsLineChar(s[k]);
      }
    }
  }

  lemma ShapedTailIsValid(s: string, x: Parse)
    requires Shaped(s, x)
    ensures ValidTail(s, x.middle.columnEnd + 2, x.middle.tail)
  {
  }

  /** The only `:` after the path that a word character follows is the one
      before the column. */
  lemma ColonAfterPath(s: string, x: Parse, e: nat)
    requires Shaped(s, x)
    requires x.pathEnd < e && e + 1 < |s| && s[e] == ':' && IsWordChar(s[e + 1])
    ensures x.middle.colon && e == x.middle.lineEnd
  {
  }

  /** No match starting at 0 has a longer path group than the intended one:
      the path group must end in `t` just before a `:` that a word
      character follows. */
  lemma NoLongerPath(s: string, x: Parse)
    requires Shaped(s, x)
    ensures forall z :: ValidParse(s, z) && z.start == 0 ==> z.pathEnd <= x.pathEnd
  {
    forall z | ValidParse(s, z) && z.start == 0
      ensures z.pathEnd <= x.pathEnd
    {
      var e := z.pathEnd;
      assert s[e - 5..e][4] == s[e - 1] == 't';
      if e > x.pathEnd {
        assert IsWordChar(s[e + 1]);
        ColonAfterPath(s, x, e);
      }
    }
  }

  /** No way of matching after the intended path group comes before the
      intended one. */
  lemma NoEarlierMiddle(s: string, x: Parse)
    requires Shaped(s, x)
    ensures forall zm :: ValidMiddle(s, x.pathEnd, zm) ==> !MiddleBefore(zm, x.middle)
  {
    forall zm | ValidMiddle(s, x.pathEnd, zm)
      ensures !MiddleBefore(zm, x.middle)
    {
      MiddleNotBefore(s, x, zm);
    }
  }

  lemma MiddleNotBefore(s: string, x: Parse, zm: Middle)
    requires Shaped(s, x)
    requires ValidMiddle(s, x.pathEnd, zm)
    ensures !MiddleBefore(zm, x.middle)
  {
    MiddleHeadNotBefore(s, x, zm);
    if zm.lineEnd == x.middle.lineEnd && zm.colon == x.middle.colon && zm.columnEnd == x.middle.columnEnd {
      MiddleTail(s, x.pathEnd, zm);
      NoEarlierTail(s, x, zm.tail);
    }
  }

  lemma MiddleHeadNotBefore(s: string, x: Parse, zm: Middle)
    requires Shaped(s, x)
    requires ValidMiddle(s, x.pathEnd, zm)
    ensures && zm.lineEnd <= x.middle.lineEnd
            && (zm.lineEnd == x.middle.lineEnd && zm.colon ==> x.middle.colon)
            && (zm.lineEnd == x.middle.lineEnd && zm.colon == x.middle.colon ==> zm.columnEnd <= x.middle.columnEnd)
  {
    ShapedMiddleIsValid(s, x);
    LineRunEnd(s, x);
    WordRunBound(s, x.pathEnd + 1, zm.lineEnd);
    if zm.lineEnd == x.middle.lineEnd {
      ColumnNotLonger(s, x, zm);
    }
  }

  /** The line group of the intended match is the longest run of word
      characters after the path. */
  lemma LineRunEnd(s: string, x: Parse)
    requires Shaped(s, x)
    ensures x.middle.lineEnd == WordRunEnd(s, x.pathEnd + 1)
  {
    ShapedMiddleIsValid(s, x);
    assert !IsWordChar(s[x.middle.lineEnd]);
    WordRunEndUnique(s, x.pathEnd + 1, x.middle.lineEnd);
  }

  lemma ColumnNotLonger(s: string, x: Parse, zm: Middle)
    requires Shaped(s, x)
    requires ValidAfterLine(s, zm)
    requires zm.lineEnd == x.middle.lineEnd
    ensures && (zm.colon ==> x.middle.colon)
            && (zm.colon == x.middle.colon ==> zm.columnEnd <= x.middle.columnEnd)
  {
    if zm.colon && x.middle.colon {
      ColumnRunEnd(s, x);
      WordRunBound(s, ColumnStart(zm), zm.columnEnd);
    }
  }

  /** After the `:` that ends the line group, the column group of the
      intended match is the longest run of word characters. */
  lemma ColumnRunEnd(s: string, x: Parse)
    requires Shaped(s, x)
    requires x.middle.colon
    ensures x.middle.columnEnd == WordRunEnd(s, x.middle.lineEnd + 1)
  {
    var m := x.middle;
    assert AllWords(s, m.lineEnd + 1, m.columnEnd);
    WordRunEndUnique(s, m.lineEnd + 1, m.columnEnd);
  }

  lemma NoEarlierTail(s: string, x: Parse, t: Tail)
    requires Shaped(s, x)
    requires ValidTail(s, x.middle.columnEnd + 2, t)
    ensures !TailBefore(t, x.middle.tail)
  {
    SeverityUnique(s, x.middle.columnEnd + 2, t.sev, x.middle.tail.sev);
  }

  /** In a text of that shape the intended match is the only one. */
  lemma FindsShaped(s: string, x: Parse)
    requires Shaped(s, x)
    ensures AllMatches(s, 0) == [x]
  {
    ShapedIsValid(s, x);
    NoLongerPath(s, x);
    NoEarlierMiddle(s, x);
    var z := Find(s, 0).value;
    assert z == x;
    assert Find(s, MatchEnd(x)) == None;
  }

  // ---------------------------------------------------------------------
  // The groups of the intended match
  // ---------------------------------------------------------------------

  /** Reading back what SwiftLint wrote: the pattern finds exactly one match
      in the text, and its groups are the path, line, column, severity,
      message and rule the text was written from. The unescaped `.` before
      `swift` lets the path end in any character followed by `swift`. */
  lemma IssueTextRoundTrip(path: string, line: string, column: Option<string>, sev: Severity,
                           message: string, rule: string)
    requires WellFormed(path, line, column, message, rule)
    ensures var s := IssueText(path, line, column, sev, message, rule);
            && AllMatches(s, 0) == [Intended(path, line, column, sev, message, rule)]
            && ValidParse(s, Intended(path, line, column, sev, message, rule))
            && GroupsOf(s, Intended(path, line, column, sev, message, rule)) == Groups(path, line, column, sev, message, rule)
  {
    var s := IssueText(path, line, column, sev, message, rule);
    var x := Intended(path, line, column, sev, message, rule);
    Layout(path, line, column, sev, message, rule);
    ShapedOfLaid(s, path, line, column, sev, message, rule);
    FindsShaped(s, x);
    ShapedIsValid(s, x);
    Slices(s, path, line, column, sev, message, rule);
    GroupsOfIntended(s, path, line, column, sev, message, rule);
  }

  /** The pieces, read back as slices of a laid-out text. */
  lemma Slices(s: string, path: string, line: string, column: Option<string>, sev: Severity,
               message: string, rule: string)
    requires Laid(s, path, line, column, sev, message, rule)
    ensures var x := Intended(path, line, column, sev, message, rule);
            var m := x.middle;
            && s[0..|path|] == path
            && s[|path| + 1..m.lineEnd] == line
            && (column.Some? ==> s[m.lineEnd + 1..m.columnEnd] == column.value)
            && s[MessageStart(m.columnEnd + 2, sev)..m.tail.messageEnd] == message
            && s[m.tail.messageEnd + 2..m.tail.ruleEnd] == rule
  {
    HeadSlices(s, path, line, column, sev, message, rule);
    TailSlices(s, path, line, column, sev, message, rule);
  }

  lemma HeadSlices(s: string, path: string, line: string, column: Option<string>, sev: Severity,
                   message: string, rule: string)
    requires Laid(s, path, line, column, sev, message, rule)
    ensures var m := Intended(path, line, column, sev, message, rule).middle;
            && s[0..|path|] == path
            && s[|path| + 1..m.lineEnd] == line
            && (column.Some? ==> s[m.lineEnd + 1..m.columnEnd] == column.value)
  {
    SliceIs(s, 0, path);
    SliceIs(s, |path| + 1, line);
    if column.Some? {
      SliceIs(s, |path| + 1 + |line| + 1, column.value);
    }
  }

  lemma TailSlices(s: string, path: string, line: string, column: Option<string>, sev: Severity,
                   message: string, rule: string)
    requires Laid(s, path, line, column, sev, message, rule)
    ensures var m := Intended(path, line, column, sev, message, rule).middle;
            && s[MessageStart(m.columnEnd + 2, sev)..m.tail.messageEnd] == message
            && s[m.tail.messageEnd + 2..m.tail.ruleEnd] == rule
  {
    var m := Intended(path, line, column, sev, message, rule).middle;
    SliceIs(s, MessageStart(m.columnEnd + 2, sev), message);
    SliceIs(s, m.tail.messageEnd + 2, rule);
  }

  lemma GroupsOfIntended(s: string, path: string, line: string, column: Option<string>, sev: Severity,
                         message: string, rule: string)
    requires column.Some? ==> |column.value| > 0
    requires ValidParse(s, Intended(path, line, column, sev, message, rule))
    requires var m := Intended(path, line, column, sev, message, rule).middle;
             && s[0..|path|] == path
             && s[|path| + 1..m.lineEnd] == line
             && (column.Some? ==> s[m.lineEnd + 1..m.columnEnd] == column.value)
             && s[MessageStart(m.columnEnd + 2, sev)..m.tail.messageEnd] == message
             && s[m.tail.messageEnd + 2..m.tail.ruleEnd] == rule
    ensures GroupsOf(s, Intended(path, line, column, sev, message, rule)) == Groups(path, line, column, sev, message, rule)
  {
    var g := GroupsOf(s, Intended(path, line, column, sev, message, rule));
    HeadGroups(s, path, line, column, sev, message, rule);
    TailGroups(s, path, line, column, sev, message, rule);
    assert g == Groups(g.path, g.line, g.column, g.severity, g.message, g.rule);
  }

  lemma HeadGroups(s: string, path: string, line: string, column: Option<string>, sev: Severity,
                   message: string, rule: string)
    requires column.Some? ==> |column.value| > 0
    requires ValidParse(s, Intended(path, line, column, sev, message, rule))
    requires var m := Intended(path, line, column, sev, message, rule).middle;
             && s[0..|path|] == path
             && s[|path| + 1..m.lineEnd] == line
             && (column.Some? ==> s[m.lineEnd + 1..m.columnEnd] == column.value)
    ensures var g := GroupsOf(s, Intended(path, line, column, sev, message, rule));
            g.path == path && g.line == line && g.column == column
  {
  }

  lemma TailGroups(s: string, path: string, line: string, column: Option<string>, sev: Severity,
                   message: string, rule: string)
    requires ValidParse(s, Intended(path, line, column, sev, message, rule))
    requires var m := Intended(path, line, column, sev, message, rule).middle;
             && s[MessageStart(m.columnEnd + 2, sev)..m.tail.messageEnd] == message
             && s[m.tail.messageEnd + 2..m.tail.ruleEnd] == rule
    ensures var g := GroupsOf(s, Intended(path, line, column, sev, message, rule));
            g.severity == sev && g.message == message && g.rule == rule
  {
  }

  /** `t` sits in `s` at `lo`. */
  lemma SliceIs(s: string, lo: nat, t: string)
    requires lo + |t| <= |s|
    requires forall i :: 0 <= i < |t| ==> s[lo + i] == t[i]
    ensures s[lo..lo + |t|] == t
  {
  }
}
