/** The `<tests-details>` text `saveTestsDetails` builds from a suite's test
    cases. XML escaping belongs to a library whose source is not part of
    this model; it is the `escape` parameter. */
module SurefireDetails {
  import opened Numerals
  import opened JavaStrings

  /** The status values `TestCaseDetails` uses for a test that raised an
      error and for one whose assertion failed. */
  const StatusError: string := "error"
  const StatusFailure: string := "failure"

  /** One `TestCaseDetails`; `timeMillis` is the value appended after `time=`. */
  datatype Detail = Detail(status: string, timeMillis: int, name: string, errorMessage: string, stackTrace: string)

  /** `StringEscapeUtils.escapeXml`. */
  type Escape = string -> string

  /** A test case whose element carries a nested `<error>` or `<failure>`. */
  predicate IsFault(d: Detail) {
    d.status == StatusError || d.status == StatusFailure
  }

  /** `error` for an error status, `failure` for a failure status. */
  function FaultTag(d: Detail): string {
    if d.status == StatusError then "error" else "failure"
  }

  /** `<testcase status="…" time="`. */
  function CaseHead(d: Detail): string {
    "<testcase status=\"" + d.status + "\" time=\""
  }

  /** `<testcase status="…" time="…" name="…"`: the name is appended as it is,
      without escaping. */
  function CaseOpening(d: Detail): string {
    CaseHead(d) + (ShowInt(d.timeMillis) + "\" name=\"" + d.name + "\"")
  }

  /** The nested element up to its closing tag: the escaped message as an
      attribute and the escaped stack trace inside a CDATA section. */
  function FaultStart(d: Detail, escape: Escape): string {
    "<" + FaultTag(d) + " message=\"" + escape(d.errorMessage) + "\">"
    + "<![CDATA[" + escape(d.stackTrace) + "]]>"
  }

  /** `</error>` or `</failure>`. */
  function FaultEnd(d: Detail): string {
    "</" + FaultTag(d) + ">"
  }

  /** The element one test case contributes. */
  function CaseXml(d: Detail, escape: Escape): string {
    if IsFault(d) then
      CaseOpening(d) + ">" + FaultStart(d, escape) + (FaultEnd(d) + "</testcase>")
    else
      CaseOpening(d) + "/>"
  }

  /** `CaseXml` with the escaping fixed. */
  function Renderer(escape: Escape): Detail -> string {
    d => CaseXml(d, escape)
  }

  /** `f(xs[0]) + f(xs[1]) + …`: the rendered elements, in order. */
  function Concat<T, U>(xs: seq<T>, f: T -> seq<U>): seq<U> {
    if xs == [] then [] else Concat(xs[..|xs| - 1], f) + f(xs[|xs| - 1])
  }

  /** The elements of `ds`, in order. */
  function Cases(ds: seq<Detail>, escape: Escape): string {
    Concat(ds, Renderer(escape))
  }

  /** The whole details text. */
  function DetailsXml(ds: seq<Detail>, escape: Escape): (r: string)
    ensures StartsWith(r, "<tests-details>") && EndsWith(r, "</tests-details>")
    ensures |r| >= |"<tests-details></tests-details>"|
  {
    var r := "<tests-details>" + Cases(ds, escape) + "</tests-details>";
    assert r[..|"<tests-details>"|] == "<tests-details>";
    assert r[|r| - |"</tests-details>"|..] == "</tests-details>";
    r
  }

  /** The `StringBuilder` loop of `saveTestsDetails`. */
  method BuildDetails(ds: seq<Detail>, escape: Escape) returns (xml: string)
    ensures xml == DetailsXml(ds, escape)
  {
    xml := "<tests-details>";
    var i := 0;
    while i < |ds|
      invariant i <= |ds|
      invariant xml == "<tests-details>" + Concat(ds[..i], Renderer(escape))
    {
      assert ds[..i + 1][..i] == ds[..i];
      Associative("<tests-details>", Concat(ds[..i], Renderer(escape)), CaseXml(ds[i], escape));
      xml := xml + CaseXml(ds[i], escape);
      i := i + 1;
    }
    assert ds[..i] == ds;
    xml := xml + "</tests-details>";
  }

  /** Details serialise piecewise: the text of `a + b` is the text of `a`
      followed by the text of `b`. */
  lemma CasesAppend(a: seq<Detail>, b: seq<Detail>, escape: Escape)
    ensures Cases(a + b, escape) == Cases(a, escape) + Cases(b, escape)
  {
    ConcatAppend(a, b, Renderer(escape));
  }

  lemma {:induction false} ConcatAppend<T, U>(a: seq<T>, b: seq<T>, f: T -> seq<U>)
    ensures Concat(a + b, f) == Concat(a, f) + Concat(b, f)
    decreases |b|
  {
    if b == [] {
      assert a + b == a;
    } else {
      var b' := b[..|b| - 1];
      assert (a + b)[..|a + b| - 1] == a + b';
      assert (a + b)[|a + b| - 1] == b[|b| - 1];
      ConcatAppend(a, b', f);
      Associative(Concat(a, f), Concat(b', f), f(b[|b| - 1]));
    }
  }

  lemma ConcatFirst<T, U>(xs: seq<T>, f: T -> seq<U>)
    requires xs != []
    ensures Concat(xs, f) == f(xs[0]) + Concat(xs[1..], f)
  {
    ConcatAppend(xs[..1], xs[1..], f);
    assert xs[..1] + xs[1..] == xs;
    assert xs[..1][..0] == [];
  }

  /** One `<testcase>` element per detail, in order. */
  lemma DetailsOfCases(first: Detail, rest: seq<Detail>, escape: Escape)
    ensures DetailsXml([first] + rest, escape)
            == "<tests-details>" + CaseXml(first, escape) + Cases(rest, escape) + "</tests-details>"
  {
    ConcatAppend([first], rest, Renderer(escape));
    assert [first][..0] == [];
    assert Concat([first], Renderer(escape)) == Renderer(escape)(first);
  }

  /** An element is self-closing exactly when the status is neither the
      error nor the failure status; otherwise it closes with the nested
      element named after the status. Every element starts with its status
      and time attributes. */
  lemma SelfClosingIff(d: Detail, escape: Escape)
    ensures EndsWith(CaseXml(d, escape), "/>") <==> !IsFault(d)
    ensures IsFault(d) ==> EndsWith(CaseXml(d, escape), FaultEnd(d) + "</testcase>")
    ensures StartsWith(CaseXml(d, escape), CaseHead(d))
  {
    CaseStart(d, escape);
    if IsFault(d) {
      FaultEnding(d, escape);
    } else {
      EndsWithConcat(CaseOpening(d), "/>");
    }
  }

  lemma FaultEnding(d: Detail, escape: Escape)
    requires IsFault(d)
    ensures EndsWith(CaseXml(d, escape), FaultEnd(d) + "</testcase>")
    ensures !EndsWith(CaseXml(d, escape), "/>")
  {
    var r := CaseXml(d, escape);
    var tail := FaultEnd(d) + "</testcase>";
    EndsWithConcat(CaseOpening(d) + ">" + FaultStart(d, escape), tail);
    assert r[|r| - 2] == tail[|tail| - 2];
    assert tail[|tail| - 2] == 'e';
  }

  lemma CaseStart(d: Detail, escape: Escape)
    ensures StartsWith(CaseXml(d, escape), CaseHead(d))
  {
    var rest := ShowInt(d.timeMillis) + "\" name=\"" + d.name + "\"";
    var more := if IsFault(d) then ">" + FaultStart(d, escape) + (FaultEnd(d) + "</testcase>") else "/>";
    assert CaseXml(d, escape) == (CaseHead(d) + rest) + more;
    Associative(CaseHead(d), rest, more);
    StartsWithConcat(CaseHead(d), rest + more);
  }

  lemma EndsWithConcat(x: string, y: string)
    ensures EndsWith(x + y, y)
  {
    assert (x + y)[|x + y| - |y|..] == y;
  }

  lemma StartsWithConcat(x: string, y: string)
    ensures StartsWith(x + y, x)
  {
    assert (x + y)[..|x|] == x;
  }
}
