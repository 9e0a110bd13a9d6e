/** The SwiftLint issue pattern
      `(.*.swift):(\w+):?(\w+)?: (warning|error): (.*) \((\w+)`
    under `java.util.regex` semantics, as a backtracking search.

    A candidate match is a `Parse`: where it starts, where the path group
    ends, how the line/column part is split, and where the message and the
    rule id end. `ValidParse` says when a candidate is a match of the
    pattern at all; `Before` is the order in which the backtracking engine
    tries candidates (leftmost start first, then every greedy group longest
    first, the optional colon and the optional column taken before they are
    left out). `Find` returns the first valid candidate in that order, which
    is what `Matcher.find` reports. */
module SwiftLintPattern {
  import opened Wrappers

  // ---------------------------------------------------------------------
  // Character classes
  // ---------------------------------------------------------------------

  /** `.` without DOTALL: any character except the line terminators. */
  predicate IsDotChar(c: char) {
    c != '\n' && c != '\r' && c != '\U{0085}' && c != '\U{2028}' && c != '\U{2029}'
  }

  /** `\w` without UNICODE_CHARACTER_CLASS: `[a-zA-Z_0-9]`. */
  predicate IsWordChar(c: char) {
    ('a' <= c <= 'z') || ('A' <= c <= 'Z') || ('0' <= c <= '9') || c == '_'
  }

  predicate AllDots(s: string, i: nat, j: nat)
    requires i <= j <= |s|
  {
    forall k :: i <= k < j ==> IsDotChar(s[k])
  }

  predicate AllWords(s: string, i: nat, j: nat)
    requires i <= j <= |s|
  {
    forall k :: i <= k < j ==> IsWordChar(s[k])
  }

  /** Where a run of `.` characters starting at `i` ends. */
  function DotRunEnd(s: string, i: nat): (j: nat)
    requires i <= |s|
    ensures i <= j <= |s| && AllDots(s, i, j)
    ensures j == |s| || !IsDotChar(s[j])
    decreases |s| - i
  {
    if i == |s| || !IsDotChar(s[i]) then i else DotRunEnd(s, i + 1)
  }

  /** Where a run of `\w` characters starting at `i` ends. */
  function WordRunEnd(s: string, i: nat): (j: nat)
    requires i <= |s|
    ensures i <= j <= |s| && AllWords(s, i, j)
    ensures j == |s| || !IsWordChar(s[j])
    decreases |s| - i
  {
    if i == |s| || !IsWordChar(s[i]) then i else WordRunEnd(s, i + 1)
  }

  /** No run of `.` characters from `i` goes past `DotRunEnd`. */
  lemma DotRunBound(s: string, i: nat, j: nat)
    requires i <= j <= |s| && AllDots(s, i, j)
    ensures j <= DotRunEnd(s, i)
  {
  }

  /** No run of `\w` characters from `i` goes past `WordRunEnd`. */
  lemma WordRunBound(s: string, i: nat, j: nat)
    requires i <= j <= |s| && AllWords(s, i, j)
    ensures j <= WordRunEnd(s, i)
  {
  }

  /** A run of `\w` characters followed by a non-word character (or the end)
      is the maximal run. */
  lemma WordRunEndUnique(s: string, i: nat, j: nat)
    requires i <= j <= |s| && AllWords(s, i, j)
    requires j == |s| || !IsWordChar(s[j])
    ensures j == WordRunEnd(s, i)
  {
    WordRunBound(s, i, j);
  }

  /** `lit` occurs in `s` at position `p`. */
  predicate HasAt(s: string, p: nat, lit: string) {
    p + |lit| <= |s| && s[p..p + |lit|] == lit
  }

  /** The `": "` that follows the position groups. */
  predicate SeparatorAt(s: string, p: nat) {
    p + 2 <= |s| && s[p] == ':' && s[p + 1] == ' '
  }

  // ---------------------------------------------------------------------
  // ` (warning|error): (.*) \((\w+)` after the ": " that ends the position
  // ---------------------------------------------------------------------

  datatype Severity = Warning | Error

  function SeverityText(sev: Severity): string {
    match sev
    case Warning => "warning"
    case Error => "error"
  }

  /** Where the message group starts when the severity starts at `p`. */
  function MessageStart(p: nat, sev: Severity): nat {
    p + |SeverityText(sev)| + 2
  }

  /** The message group may end at `m`: ` (` follows, then a word character. */
  predicate Opening(s: string, m: nat) {
    m + 2 < |s| && s[m] == ' ' && s[m + 1] == '(' && IsWordChar(s[m + 2])
  }

  /** Severity, message end and rule end. */
  datatype Tail = Tail(sev: Severity, messageEnd: nat, ruleEnd: nat)

  ghost predicate ValidTail(s: string, p: nat, t: Tail) {
    && HasAt(s, p, SeverityText(t.sev) + ": ")
    && MessageStart(p, t.sev) <= t.messageEnd
    && t.messageEnd + 3 <= t.ruleEnd <= |s|
    && AllDots(s, MessageStart(p, t.sev), t.messageEnd)
    && s[t.messageEnd] == ' ' && s[t.messageEnd + 1] == '('
    && AllWords(s, t.messageEnd + 2, t.ruleEnd)
  }

  /** Backtracking order of the tail: the greedy message longest first,
      then the greedy rule id longest first. */
  predicate TailBefore(a: Tail, b: Tail) {
    a.messageEnd > b.messageEnd || (a.messageEnd == b.messageEnd && a.ruleEnd > b.ruleEnd)
  }

  /** The alternation `(warning|error)` followed by `": "`. */
  function SeverityAt(s: string, p: nat): (r: Option<Severity>)
    ensures r.Some? ==> HasAt(s, p, SeverityText(r.value) + ": ")
    ensures r.None? ==> forall sev :: !HasAt(s, p, SeverityText(sev) + ": ")
  {
    if HasAt(s, p, "warning: ") then Some(Warning)
    else if HasAt(s, p, "error: ") then Some(Error)
    else
      assert SeverityText(Warning) + ": " == "warning: " && SeverityText(Error) + ": " == "error: ";
      None
  }

  /** At one position at most one severity keyword fits. */
  lemma SeverityUnique(s: string, p: nat, a: Severity, b: Severity)
    requires HasAt(s, p, SeverityText(a) + ": ") && HasAt(s, p, SeverityText(b) + ": ")
    ensures a == b
  {
    assert s[p] == (SeverityText(a) + ": ")[0];
    assert s[p] == (SeverityText(b) + ": ")[0];
  }

  /** The last message end in `[lo, hi]`: a greedy `(.*)` backs off from the
      far end until ` (` and a word character follow. */
  function LastOpening(s: string, lo: nat, hi: int): (r: Option<nat>)
    ensures r.Some? ==> lo <= r.value <= hi && Opening(s, r.value)
    ensures r.Some? ==> forall m: nat :: r.value < m <= hi ==> !Opening(s, m)
    ensures r.None? ==> forall m: nat :: lo <= m <= hi ==> !Opening(s, m)
    decreases hi - lo
  {
    if hi < lo then None
    else if Opening(s, hi) then Some(hi)
    else LastOpening(s, lo, hi - 1)
  }

  /** The engine's first tail at `p`. */
  function MatchTail(s: string, p: nat): (r: Option<Tail>)
    ensures r.Some? ==> ValidTail(s, p, r.value)
  {
    match SeverityAt(s, p)
    case None => None
    case Some(sev) =>
      var ms := MessageStart(p, sev);
      match LastOpening(s, ms, DotRunEnd(s, ms))
      case None => None
      case Some(m) => Some(Tail(sev, m, WordRunEnd(s, m + 2)))
  }

  /** `MatchTail` finds a tail whenever one exists, and no tail it passes
      over comes before it. */
  lemma MatchTailFirst(s: string, p: nat, t: Tail)
    requires ValidTail(s, p, t)
    ensures MatchTail(s, p).Some?
    ensures MatchTail(s, p).value == t || TailBefore(MatchTail(s, p).value, t)
  {
    var sev := SeverityAt(s, p).value;
    SeverityUnique(s, p, sev, t.sev);
    var ms := MessageStart(p, sev);
    DotRunBound(s, ms, t.messageEnd);
    assert Opening(s, t.messageEnd);
    var m := LastOpening(s, ms, DotRunEnd(s, ms)).value;
    if t.messageEnd == m {
      WordRunBound(s, m + 2, t.ruleEnd);
    }
  }

  // ---------------------------------------------------------------------
  // `:(\w+):?(\w+)?: ` after the path
  // ---------------------------------------------------------------------

  /** End of the line-number group, whether the optional colon was taken,
      end of the (possibly empty) column group, and the tail after ": ". */
  datatype Middle = Middle(lineEnd: nat, colon: bool, columnEnd: nat, tail: Tail)

  function ColumnStart(x: Middle): nat {
    if x.colon then x.lineEnd + 1 else x.lineEnd
  }

  /** `x` is a way of matching `:?(\w+)?: ` and the tail once the line
      group has ended at `x.lineEnd`. */
  ghost predicate ValidAfterLine(s: string, x: Middle) {
    && x.lineEnd <= |s|
    && (x.colon ==> x.lineEnd < |s| && s[x.lineEnd] == ':')
    && ColumnStart(x) <= x.columnEnd && x.columnEnd + 2 <= |s|
    && AllWords(s, ColumnStart(x), x.columnEnd)
    && s[x.columnEnd] == ':' && s[x.columnEnd + 1] == ' '
    && ValidTail(s, x.columnEnd + 2, x.tail)
  }

  /** `x` is a way of matching the rest of the pattern from the `:` at `e`. */
  ghost predicate ValidMiddle(s: string, e: nat, x: Middle) {
    && e < |s| && s[e] == ':'
    && e + 2 <= x.lineEnd <= |s| && AllWords(s, e + 1, x.lineEnd)
    && ValidAfterLine(s, x)
  }

  /** The tail of a way of matching the middle is itself a match of the tail. */
  lemma MiddleTail(s: string, e: nat, x: Middle)
    requires ValidMiddle(s, e, x)
    ensures x.columnEnd + 2 <= |s| && ValidTail(s, x.columnEnd + 2, x.tail)
  {
  }

  /** Backtracking order: line group longest first, the colon taken before
      it is left out, the column group longest first (absent last), then
      the tail's order. */
  predicate MiddleBefore(a: Middle, b: Middle) {
    || a.lineEnd > b.lineEnd
    || (a.lineEnd == b.lineEnd && a.colon && !b.colon)
    || (a.lineEnd == b.lineEnd && a.colon == b.colon && a.columnEnd > b.columnEnd)
    || (a.lineEnd == b.lineEnd && a.colon == b.colon && a.columnEnd == b.columnEnd && TailBefore(a.tail, b.tail))
  }

  /** First choice after the line group: the colon, then a column. */
  function WithColumn(s: string, lineEnd: nat): (r: Option<Middle>)
    requires lineEnd <= |s|
    ensures r.Some? ==> r.value.lineEnd == lineEnd && r.value.colon && r.value.columnEnd > lineEnd + 1
  {
    if lineEnd < |s| && s[lineEnd] == ':' then
      var w := WordRunEnd(s, lineEnd + 1);
      if w > lineEnd + 1 && SeparatorAt(s, w) then ColumnTail(s, lineEnd, w) else None
    else None
  }

  /** The tail after a column that ends at `w`. */
  function ColumnTail(s: string, lineEnd: nat, w: nat): (r: Option<Middle>)
    ensures r.Some? <==> MatchTail(s, w + 2).Some?
    ensures r.Some? ==> r == Some(Middle(lineEnd, true, w, MatchTail(s, w + 2).value))
  {
    match MatchTail(s, w + 2)
    case None => None
    case Some(t) => Some(Middle(lineEnd, true, w, t))
  }

  /** Second choice: the colon and no column. */
  function ColonOnly(s: string, lineEnd: nat): (r: Option<Middle>)
    requires lineEnd <= |s|
    ensures r.Some? ==> r.value.lineEnd == lineEnd && r.value.colon && r.value.columnEnd == lineEnd + 1
  {
    if lineEnd < |s| && s[lineEnd] == ':' && SeparatorAt(s, lineEnd + 1) then
      match MatchTail(s, lineEnd + 3)
      case None => None
      case Some(t) => Some(Middle(lineEnd, true, lineEnd + 1, t))
    else None
  }

  /** Last choice: neither colon nor column. */
  function Bare(s: string, lineEnd: nat): (r: Option<Middle>)
    requires lineEnd <= |s|
    ensures r.Some? ==> r.value.lineEnd == lineEnd && !r.value.colon && r.value.columnEnd == lineEnd
  {
    if SeparatorAt(s, lineEnd) then
      match MatchTail(s, lineEnd + 2)
      case None => None
      case Some(t) => Some(Middle(lineEnd, false, lineEnd, t))
    else None
  }

  /** Each of the three choices is a way of matching. */
  lemma WithColumnValid(s: string, lineEnd: nat)
    requires lineEnd <= |s|
    ensures WithColumn(s, lineEnd).Some? ==> ValidAfterLine(s, WithColumn(s, lineEnd).value)
  {
    if lineEnd < |s| && s[lineEnd] == ':' {
      var w := WordRunEnd(s, lineEnd + 1);
      if w > lineEnd + 1 && SeparatorAt(s, w) {
        WithColumnUnfold(s, lineEnd, w);
      }
    }
  }

  lemma ColonOnlyValid(s: string, lineEnd: nat)
    requires lineEnd <= |s|
    ensures ColonOnly(s, lineEnd).Some? ==> ValidAfterLine(s, ColonOnly(s, lineEnd).value)
  {
  }

  lemma BareValid(s: string, lineEnd: nat)
    requires lineEnd <= |s|
    ensures Bare(s, lineEnd).Some? ==> ValidAfterLine(s, Bare(s, lineEnd).value)
  {
  }

  /** The three choices after the line group, in the engine's order. */
  function AfterLine(s: string, lineEnd: nat): (r: Option<Middle>)
    requires lineEnd <= |s|
    ensures r.Some? ==> r.value.lineEnd == lineEnd && ValidAfterLine(s, r.value)
  {
    WithColumnValid(s, lineEnd);
    ColonOnlyValid(s, lineEnd);
    BareValid(s, lineEnd);
    if WithColumn(s, lineEnd).Some? then WithColumn(s, lineEnd)
    else if ColonOnly(s, lineEnd).Some? then ColonOnly(s, lineEnd)
    else Bare(s, lineEnd)
  }

  /** The engine's first way of matching from the `:` at `e`. Only the
      longest line group needs trying: a shorter one leaves word characters
      that only the column group can take, and the column then ends where
      the longest line group ends, with the same continuation. */
  function MatchMiddle(s: string, e: nat): (r: Option<Middle>)
    ensures r.Some? ==> ValidMiddle(s, e, r.value)
  {
    if e >= |s| || s[e] != ':' then None
    else
      var lineEnd := WordRunEnd(s, e + 1);
      if lineEnd < e + 2 then None else AfterLine(s, lineEnd)
  }

  /** `MatchMiddle` finds a way whenever one exists, and none comes before it. */
  lemma MatchMiddleFirst(s: string, e: nat, y: Middle)
    requires ValidMiddle(s, e, y)
    ensures MatchMiddle(s, e).Some?
    ensures MatchMiddle(s, e).value == y || MiddleBefore(MatchMiddle(s, e).value, y)
  {
    var lineEnd := WordRunEnd(s, e + 1);
    WordRunBound(s, e + 1, y.lineEnd);
    if y.lineEnd < lineEnd {
      MiddleShortLine(s, e, y);
    } else {
      AfterLineFirst(s, y);
    }
  }

  /** A shorter line group forces the column group to end where the longest
      line group ends, so the bare form at that end is also a match. */
  lemma MiddleShortLine(s: string, e: nat, y: Middle)
    requires ValidMiddle(s, e, y) && y.lineEnd < WordRunEnd(s, e + 1)
    ensures MatchMiddle(s, e).Some? && MiddleBefore(MatchMiddle(s, e).value, y)
  {
    var lineEnd := WordRunEnd(s, e + 1);
    assert IsWordChar(s[y.lineEnd]);
    assert !y.colon;
    assert AllWords(s, y.lineEnd, lineEnd);
    WordRunEndUnique(s, y.lineEnd, lineEnd);
    WordRunEndUnique(s, y.lineEnd, y.columnEnd);
    var z := Middle(lineEnd, false, lineEnd, y.tail);
    assert ValidAfterLine(s, z);
    AfterLineFirst(s, z);
  }

  /** After a longest line group, `AfterLine` finds the first of the three
      choices that matches. */
  lemma AfterLineFirst(s: string, y: Middle)
    requires ValidAfterLine(s, y)
    requires y.lineEnd == |s| || !IsWordChar(s[y.lineEnd])
    ensures AfterLine(s, y.lineEnd).Some?
    ensures AfterLine(s, y.lineEnd).value == y || MiddleBefore(AfterLine(s, y.lineEnd).value, y)
  {
    if y.colon && y.columnEnd > y.lineEnd + 1 {
      WithColumnFirst(s, y);
    } else if y.colon {
      ColonOnlyFirst(s, y);
    } else {
      BareFirst(s, y);
    }
  }

  lemma WithColumnFirst(s: string, y: Middle)
    requires ValidAfterLine(s, y) && y.colon && y.columnEnd > y.lineEnd + 1
    ensures WithColumn(s, y.lineEnd).Some?
    ensures WithColumn(s, y.lineEnd).value == y || MiddleBefore(WithColumn(s, y.lineEnd).value, y)
  {
    MatchTailFirst(s, y.columnEnd + 2, y.tail);
    var t := MatchTail(s, y.columnEnd + 2).value;
    WithColumnIs(s, y.lineEnd, y.columnEnd, t);
    SameHeadOrder(y, t);
  }

  /** With the colon at `lineEnd`, a run of word characters up to `w` and
      ": " after it, `WithColumn` takes exactly that column. */
  lemma WithColumnIs(s: string, lineEnd: nat, w: nat, t: Tail)
    requires lineEnd < |s| && s[lineEnd] == ':'
    requires lineEnd + 1 < w && w + 2 <= |s| && AllWords(s, lineEnd + 1, w)
    requires s[w] == ':' && s[w + 1] == ' '
    requires MatchTail(s, w + 2) == Some(t)
    ensures WithColumn(s, lineEnd) == Some(Middle(lineEnd, true, w, t))
  {
    WordRunEndUnique(s, lineEnd + 1, w);
    WithColumnUnfold(s, lineEnd, w);
    ColumnTailIs(s, lineEnd, w, t);
  }

  lemma ColumnTailIs(s: string, lineEnd: nat, w: nat, t: Tail)
    requires MatchTail(s, w + 2) == Some(t)
    ensures ColumnTail(s, lineEnd, w) == Some(Middle(lineEnd, true, w, t))
  {
  }

  lemma WithColumnUnfold(s: string, lineEnd: nat, w: nat)
    requires lineEnd < |s| && s[lineEnd] == ':'
    requires w == WordRunEnd(s, lineEnd + 1) && w > lineEnd + 1 && SeparatorAt(s, w)
    ensures WithColumn(s, lineEnd) == ColumnTail(s, lineEnd, w)
  {
  }

  /** Replacing only the tail by one that comes no later keeps the order. */
  lemma SameHeadOrder(y: Middle, t: Tail)
    requires t == y.tail || TailBefore(t, y.tail)
    ensures var z := Middle(y.lineEnd, y.colon, y.columnEnd, t);
            z == y || MiddleBefore(z, y)
  {
  }

  lemma ColonOnlyFirst(s: string, y: Middle)
    requires ValidAfterLine(s, y) && y.colon && y.columnEnd <= y.lineEnd + 1
    ensures AfterLine(s, y.lineEnd).Some?
    ensures AfterLine(s, y.lineEnd).value == y || MiddleBefore(AfterLine(s, y.lineEnd).value, y)
  {
    MatchTailFirst(s, y.lineEnd + 3, y.tail);
    ColonOnlyChoice(s, y, MatchTail(s, y.lineEnd + 3).value);
  }

  /** Once the tail after the colon and ": " is found, `AfterLine` takes
      either a column or this colon-only way. */
  lemma ColonOnlyChoice(s: string, y: Middle, t: Tail)
    requires y.lineEnd < |s| && s[y.lineEnd] == ':' && SeparatorAt(s, y.lineEnd + 1)
    requires y.colon && y.columnEnd == y.lineEnd + 1
    requires MatchTail(s, y.lineEnd + 3) == Some(t) && (t == y.tail || TailBefore(t, y.tail))
    ensures AfterLine(s, y.lineEnd).Some?
    ensures AfterLine(s, y.lineEnd).value == y || MiddleBefore(AfterLine(s, y.lineEnd).value, y)
  {
    ColonOnlyIs(s, y.lineEnd, t);
    SameHeadOrder(y, t);
    if WithColumn(s, y.lineEnd).Some? {
      WithColumnBefore(s, y);
    }
  }

  lemma ColonOnlyIs(s: string, lineEnd: nat, t: Tail)
    requires lineEnd < |s| && s[lineEnd] == ':' && SeparatorAt(s, lineEnd + 1)
    requires MatchTail(s, lineEnd + 3) == Some(t)
    ensures ColonOnly(s, lineEnd) == Some(Middle(lineEnd, true, lineEnd + 1, t))
  {
  }

  /** A way with a column comes before every way without a column or
      without the colon at the same line end. */
  lemma WithColumnBefore(s: string, y: Middle)
    requires y.lineEnd <= |s| && WithColumn(s, y.lineEnd).Some? && y.columnEnd <= y.lineEnd + 1
    ensures MiddleBefore(WithColumn(s, y.lineEnd).value, y)
  {
  }

  lemma BareFirst(s: string, y: Middle)
    requires ValidAfterLine(s, y) && !y.colon
    requires y.lineEnd == |s| || !IsWordChar(s[y.lineEnd])
    ensures AfterLine(s, y.lineEnd).Some?
    ensures AfterLine(s, y.lineEnd).value == y || MiddleBefore(AfterLine(s, y.lineEnd).value, y)
  {
    assert y.columnEnd == y.lineEnd;
    MatchTailFirst(s, y.lineEnd + 2, y.tail);
    BareChoice(s, y, MatchTail(s, y.lineEnd + 2).value);
  }

  /** Once the tail after ": " is found, `AfterLine` takes a way with the
      colon or this bare way. */
  lemma BareChoice(s: string, y: Middle, t: Tail)
    requires SeparatorAt(s, y.lineEnd) && !y.colon && y.columnEnd == y.lineEnd
    requires MatchTail(s, y.lineEnd + 2) == Some(t) && (t == y.tail || TailBefore(t, y.tail))
    ensures AfterLine(s, y.lineEnd).Some?
    ensures AfterLine(s, y.lineEnd).value == y || MiddleBefore(AfterLine(s, y.lineEnd).value, y)
  {
    BareIs(s, y.lineEnd, t);
    SameHeadOrder(y, t);
    if WithColumn(s, y.lineEnd).Some? {
      WithColumnBefore(s, y);
    } else if ColonOnly(s, y.lineEnd).Some? {
      ColonOnlyBefore(s, y);
    }
  }

  lemma BareIs(s: string, lineEnd: nat, t: Tail)
    requires SeparatorAt(s, lineEnd) && MatchTail(s, lineEnd + 2) == Some(t)
    ensures Bare(s, lineEnd) == Some(Middle(lineEnd, false, lineEnd, t))
  {
  }

  /** A way with the colon comes before every way without it. */
  lemma ColonOnlyBefore(s: string, y: Middle)
    requires y.lineEnd <= |s| && ColonOnly(s, y.lineEnd).Some? && !y.colon
    ensures MiddleBefore(ColonOnly(s, y.lineEnd).value, y)
  {
  }

  // ---------------------------------------------------------------------
  // The whole pattern
  // ---------------------------------------------------------------------

  /** A candidate match: start, end of the path group (the `:` after it),
      and the rest. */
  datatype Parse = Parse(start: nat, pathEnd: nat, middle: Middle)

  /** `x` is a match of the whole pattern in `s`: the path group is at least
      one character (the unescaped `.`) followed by `swift`, with `.*` in
      front, all without line terminators. */
  ghost predicate ValidParse(s: string, x: Parse) {
    && x.start + 6 <= x.pathEnd < |s|
    && AllDots(s, x.start, x.pathEnd)
    && s[x.pathEnd - 5..x.pathEnd] == "swift"
    && ValidMiddle(s, x.pathEnd, x.middle)
  }

  /** The order in which `Matcher.find` meets candidates: leftmost start,
      then the greedy path group longest first, then the rest. */
  predicate Before(a: Parse, b: Parse) {
    || a.start < b.start
    || (a.start == b.start && a.pathEnd > b.pathEnd)
    || (a.start == b.start && a.pathEnd == b.pathEnd && MiddleBefore(a.middle, b.middle))
  }

  /** The path ends tried at `start`, from `e` down. */
  function MatchFrom(s: string, start: nat, e: int): (r: Option<Parse>)
    requires start <= |s| && e <= DotRunEnd(s, start)
    ensures r.Some? ==> ValidParse(s, r.value) && r.value.start == start && r.value.pathEnd <= e
    ensures r.Some? ==> forall y :: ValidParse(s, y) && y.start == start && y.pathEnd <= e ==>
                          y == r.value || Before(r.value, y)
    ensures r.None? ==> forall y :: ValidParse(s, y) && y.start == start ==> y.pathEnd > e
    decreases e - start
  {
    if e < start + 6 then None
    else if e < |s| && s[e - 5..e] == "swift" && MatchMiddle(s, e).Some? then
      var x := Parse(start, e, MatchMiddle(s, e).value);
      MatchFromFirst(s, x);
      Some(x)
    else
      MatchFromSkip(s, start, e);
      MatchFrom(s, start, e - 1)
  }

  lemma MatchFromFirst(s: string, x: Parse)
    requires x.start + 6 <= x.pathEnd < |s| && x.pathEnd <= DotRunEnd(s, x.start)
    requires s[x.pathEnd - 5..x.pathEnd] == "swift" && MatchMiddle(s, x.pathEnd) == Some(x.middle)
    ensures ValidParse(s, x)
    ensures forall y :: ValidParse(s, y) && y.start == x.start && y.pathEnd <= x.pathEnd ==> y == x || Before(x, y)
  {
    forall y | ValidParse(s, y) && y.start == x.start && y.pathEnd <= x.pathEnd
      ensures y == x || Before(x, y)
    {
      if y.pathEnd == x.pathEnd {
        MatchMiddleFirst(s, x.pathEnd, y.middle);
      }
    }
  }

  lemma MatchFromSkip(s: string, start: nat, e: nat)
    requires start <= |s| && start + 6 <= e <= DotRunEnd(s, start)
    requires !(e < |s| && s[e - 5..e] == "swift" && MatchMiddle(s, e).Some?)
    ensures forall y :: ValidParse(s, y) && y.start == start ==> y.pathEnd != e
  {
    forall y | ValidParse(s, y) && y.start == start && y.pathEnd == e
      ensures false
    {
      MatchMiddleFirst(s, e, y.middle);
    }
  }

  /** The engine's first match starting exactly at `start`. */
  function MatchAt(s: string, start: nat): (r: Option<Parse>)
    requires start <= |s|
    ensures r.Some? ==> ValidParse(s, r.value) && r.value.start == start
    ensures r.Some? ==> forall y :: ValidParse(s, y) && y.start == start ==> y == r.value || Before(r.value, y)
    ensures r.None? ==> forall y :: ValidParse(s, y) ==> y.start != start
  {
    PathEndsWithinDots(s, start);
    MatchFrom(s, start, DotRunEnd(s, start))
  }

  lemma PathEndsWithinDots(s: string, start: nat)
    requires start <= |s|
    ensures forall y :: ValidParse(s, y) && y.start == start ==> y.pathEnd <= DotRunEnd(s, start)
  {
    forall y | ValidParse(s, y) && y.start == start
      ensures y.pathEnd <= DotRunEnd(s, start)
    {
      DotRunBound(s, start, y.pathEnd);
    }
  }

  /** `Matcher.find()` from position `from`: the first match in the engine's
      order among those starting at or after `from`. */
  function Find(s: string, from: nat): (r: Option<Parse>)
    requires from <= |s|
    ensures r.Some? ==> ValidParse(s, r.value) && r.value.start >= from
    ensures r.Some? ==> forall y :: ValidParse(s, y) && y.start >= from ==> y == r.value || Before(r.value, y)
    ensures r.None? ==> forall y :: ValidParse(s, y) ==> y.start < from
    decreases |s| - from
  {
    match MatchAt(s, from)
    case Some(x) => Some(x)
    case None =>
      if from == |s| then
        assert forall y :: ValidParse(s, y) ==> y.start < |s|;
        None
      else Find(s, from + 1)
  }

  /** Where a match ends: after the rule id. */
  function MatchEnd(x: Parse): nat {
    x.middle.tail.ruleEnd
  }

  /** A match ends after it starts, within the text. */
  lemma MatchEndAfterStart(s: string, x: Parse)
    requires ValidParse(s, x)
    ensures x.start < MatchEnd(x) <= |s|
  {
  }

  /** The successive matches of the `while (matcher.find())` loop: each
      search resumes where the previous match ended. */
  function AllMatches(s: string, from: nat): (ms: seq<Parse>)
    requires from <= |s|
    ensures forall i :: 0 <= i < |ms| ==> ValidParse(s, ms[i]) && ms[i].start >= from
    ensures forall i :: 0 <= i < |ms| - 1 ==> MatchEnd(ms[i]) <= ms[i + 1].start
    decreases |s| - from
  {
    match Find(s, from)
    case None => []
    case Some(x) =>
      MatchEndAfterStart(s, x);
      var rest := AllMatches(s, MatchEnd(x));
      MatchesCons(s, from, x, rest);
      [x] + rest
  }

  /** A match followed by matches that start after it ends. */
  lemma MatchesCons(s: string, from: nat, x: Parse, rest: seq<Parse>)
    requires ValidParse(s, x) && x.start >= from
    requires forall i :: 0 <= i < |rest| ==> ValidParse(s, rest[i]) && rest[i].start >= MatchEnd(x)
    requires forall i :: 0 <= i < |rest| - 1 ==> MatchEnd(rest[i]) <= rest[i + 1].start
    requires x.start < MatchEnd(x)
    ensures var ms := [x] + rest;
            && (forall i :: 0 <= i < |ms| ==> ValidParse(s, ms[i]) && ms[i].start >= from)
            && (forall i :: 0 <= i < |ms| - 1 ==> MatchEnd(ms[i]) <= ms[i + 1].start)
  {
  }

  // ---------------------------------------------------------------------
  // Groups
  // ---------------------------------------------------------------------

  /** What `recordIssue` reads from a match: groups 1, 2, 3, 4, 5 and 6. */
  datatype Groups = Groups(path: string, line: string, column: Option<string>,
                           severity: Severity, message: string, rule: string)

  function GroupsOf(s: string, x: Parse): (g: Groups)
    requires ValidParse(s, x)
    ensures |g.path| >= 6 && g.path[|g.path| - 5..] == "swift"
    ensures |g.line| > 0 && |g.rule| > 0
    ensures g.column.Some? ==> |g.column.value| > 0
  {
    var mid := x.middle;
    var p := mid.columnEnd + 2;
    assert s[x.start..x.pathEnd][x.pathEnd - x.start - 5..] == s[x.pathEnd - 5..x.pathEnd];
    Groups(s[x.start..x.pathEnd],
           s[x.pathEnd + 1..mid.lineEnd],
           if mid.columnEnd > ColumnStart(mid) then Some(s[ColumnStart(mid)..mid.columnEnd]) else None,
           mid.tail.sev,
           s[MessageStart(p, mid.tail.sev)..mid.tail.messageEnd],
           s[mid.tail.messageEnd + 2..mid.tail.ruleEnd])
  }
}
