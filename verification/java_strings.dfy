/** The pieces of `java.lang.String`, `Character` and commons-lang
    `StringUtils` that the parsers rely on. */
module JavaStrings {
  import opened Wrappers

  predicate StartsWith(s: string, prefix: string) {
    |prefix| <= |s| && s[..|prefix|] == prefix
  }

  predicate EndsWith(s: string, suffix: string) {
    |suffix| <= |s| && s[|s| - |suffix|..] == suffix
  }

  /** `Character.isWhitespace`: the Unicode space, line and paragraph
      separators except the three no-break spaces, plus the ASCII controls
      TAB, LF, VT, FF, CR and the four information separators. */
  predicate IsWhitespace(c: char) {
    || c == ' ' || c == '\t' || c == '\n' || c == '\U{000B}' || c == '\U{000C}' || c == '\r'
    || ('\U{001C}' <= c <= '\U{001F}')
    || c == '\U{1680}'
    || ('\U{2000}' <= c <= '\U{200A}' && c != '\U{2007}')
    || c == '\U{2028}' || c == '\U{2029}' || c == '\U{205F}' || c == '\U{3000}'
  }

  /** `StringUtils.isNotBlank`: not null and holding a non-whitespace character. */
  predicate IsNotBlank(text: Option<string>) {
    text.Some? && exists i :: 0 <= i < |text.value| && !IsWhitespace(text.value[i])
  }

  /** `s.indexOf(c, from)`. */
  function IndexOf(s: string, c: char, from: nat): (r: Option<nat>)
    ensures r.Some? ==> from <= r.value < |s| && s[r.value] == c
    ensures r.Some? ==> forall k :: from <= k < r.value ==> s[k] != c
    ensures r.None? ==> forall k :: from <= k < |s| ==> s[k] != c
    decreases |s| - from
  {
    if from >= |s| then None
    else if s[from] == c then Some(from)
    else IndexOf(s, c, from + 1)
  }

  /** `StringUtils.substringBetween(s, open, close)` for one-character
      delimiters: the text between the first `open` and the first `close`
      after it, or null when either is missing. */
  function SubstringBetween(s: string, open: char, close: char): (r: Option<string>)
    ensures r.None? <==>
              (forall i :: 0 <= i < |s| ==> s[i] != open) ||
              (exists i :: 0 <= i < |s| && s[i] == open && (forall k :: 0 <= k < i ==> s[k] != open) &&
                           (forall k :: i < k < |s| ==> s[k] != close))
  {
    match IndexOf(s, open, 0)
    case None => None
    case Some(i) =>
      match IndexOf(s, close, i + 1)
      case None => None
      case Some(j) => Some(s[i + 1..j])
  }

  /** Building `pre + open + mid + close + post` and taking the text between
      the delimiters gives `mid` back, provided `pre` has no `open` and `mid`
      has no `close`. */
  lemma SubstringBetweenOfWrapped(pre: string, open: char, mid: string, close: char, post: string)
    requires open !in pre && close !in mid
    ensures SubstringBetween(pre + [open] + mid + [close] + post, open, close) == Some(mid)
  {
    var s := pre + [open] + mid + [close] + post;
    assert s[|pre|] == open;
    assert forall k :: 0 <= k < |pre| ==> s[k] == pre[k];
    assert forall k :: |pre| < k < |pre| + 1 + |mid| ==> s[k] == mid[k - |pre| - 1];
    assert s[|pre| + 1 + |mid|] == close;
    assert s[|pre| + 1..|pre| + 1 + |mid|] == mid;
  }

  /** The longest prefix of `s` holding no `sep`. */
  function Token(s: string, sep: char): (t: string)
    ensures |t| <= |s| && t == s[..|t|]
    ensures sep !in t
    ensures |t| == |s| || s[|t|] == sep
  {
    if s == [] || s[0] == sep then [] else [s[0]] + Token(s[1..], sep)
  }

  /** `StringUtils.split(s, sep)` for a single separator character:
      the maximal runs of non-separator characters, in order; adjacent,
      leading and trailing separators produce no empty token. */
  function Split(s: string, sep: char): (r: seq<string>)
    ensures forall k :: 0 <= k < |r| ==> |r[k]| > 0 && sep !in r[k]
    decreases |s|
  {
    if s == [] then []
    else if s[0] == sep then Split(s[1..], sep)
    else
      var t := Token(s, sep);
      [t] + Split(s[|t|..], sep)
  }

  /** The tokens glued back together with the separator between them. */
  function Join(ts: seq<string>, sep: char): string
  {
    if |ts| == 0 then [] else if |ts| == 1 then ts[0] else ts[0] + [sep] + Join(ts[1..], sep)
  }

  /** Splitting is a homomorphism across a separator. */
  lemma {:induction false} SplitAcrossSeparator(s: string, sep: char, t: string)
    ensures Split(s + [sep] + t, sep) == Split(s, sep) + Split(t, sep)
    decreases |s|
  {
    if s == [] {
      assert s + [sep] + t == [sep] + t;
      SplitSkipsSeparator(sep, t);
    } else if s[0] == sep {
      SplitAcrossSeparator(s[1..], sep, t);
      LeadingSeparatorStep(s, sep, t);
    } else {
      var tok := Token(s, sep);
      var rest := s[|tok|..];
      SplitAcrossSeparator(rest, sep, t);
      SplitAfterToken(s, sep, [sep] + t);
      Associative(s, [sep], t);
      Associative(rest, [sep], t);
      Associative([tok], Split(rest, sep), Split(t, sep));
    }
  }

  /** The step of `SplitAcrossSeparator` when `s` starts with a separator. */
  lemma LeadingSeparatorStep(s: string, sep: char, t: string)
    requires |s| > 0 && s[0] == sep
    requires Split(s[1..] + [sep] + t, sep) == Split(s[1..], sep) + Split(t, sep)
    ensures Split(s + [sep] + t, sep) == Split(s, sep) + Split(t, sep)
  {
    assert s == [sep] + s[1..];
    Associative([sep], s[1..], [sep]);
    Associative([sep], s[1..] + [sep], t);
    SplitSkipsSeparator(sep, s[1..] + [sep] + t);
    SplitSkipsSeparator(sep, s[1..]);
  }

  lemma Associative<T>(a: seq<T>, b: seq<T>, c: seq<T>)
    ensures (a + b) + c == a + (b + c)
  {
  }

  /** A leading separator is skipped. */
  lemma SplitSkipsSeparator(sep: char, t: string)
    ensures Split([sep] + t, sep) == Split(t, sep)
  {
    assert ([sep] + t)[1..] == t;
  }

  /** When `s` starts with a token and `rest` starts with a separator, the
      split of `s + rest` is that token followed by the split of what follows it. */
  lemma SplitAfterToken(s: string, sep: char, rest: string)
    requires |s| > 0 && s[0] != sep && |rest| > 0 && rest[0] == sep
    ensures Split(s + rest, sep) == [Token(s, sep)] + Split(s[|Token(s, sep)|..] + rest, sep)
    ensures Split(s, sep) == [Token(s, sep)] + Split(s[|Token(s, sep)|..], sep)
  {
    var tok := Token(s, sep);
    TokenOfExtension(s, sep, rest);
    assert (s + rest)[|tok|..] == s[|tok|..] + rest;
  }

  /** Appending text after a separator does not change the first token. */
  lemma {:induction false} TokenOfExtension(s: string, sep: char, rest: string)
    requires |rest| > 0 && rest[0] == sep
    ensures Token(s + rest, sep) == Token(s, sep)
    decreases |s|
  {
    if s != [] && s[0] != sep {
      assert (s + rest)[1..] == s[1..] + rest;
      TokenOfExtension(s[1..], sep, rest);
    }
  }

  /** A non-empty text without separators is a single token. */
  lemma SplitOfToken(t: string, sep: char)
    requires |t| > 0 && sep !in t
    ensures Split(t, sep) == [t]
  {
    assert Token(t, sep) == t;
    assert t[|t|..] == [];
  }

  /** Joining non-empty, separator-free tokens and splitting again gives the tokens back. */
  lemma {:induction false} SplitJoinRoundTrip(ts: seq<string>, sep: char)
    requires forall k :: 0 <= k < |ts| ==> |ts[k]| > 0 && sep !in ts[k]
    ensures Split(Join(ts, sep), sep) == ts
    decreases |ts|
  {
    if |ts| == 1 {
      SplitOfToken(ts[0], sep);
    } else if |ts| > 1 {
      SplitAcrossSeparator(ts[0], sep, Join(ts[1..], sep));
      SplitOfToken(ts[0], sep);
      SplitJoinRoundTrip(ts[1..], sep);
      assert [ts[0]] + ts[1..] == ts;
    }
  }

  /** `s.replace(from, to)` on characters. */
  function ReplaceChar(s: string, from: char, to: char): (r: string)
    ensures |r| == |s|
    ensures forall i :: 0 <= i < |s| ==> r[i] == (if s[i] == from then to else s[i])
  {
    if s == [] then [] else [if s[0] == from then to else s[0]] + ReplaceChar(s[1..], from, to)
  }
}
