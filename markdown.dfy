/**
 * The Markdown renderer: a fixed set of regular-expression substitution
 * passes. Each pass replaces every leftmost, non-overlapping match of one
 * pattern with `open + group1 + close` and copies the text between matches
 * unchanged.
 *
 * No regex engine is modelled. The eight patterns the renderer uses fall
 * into four shapes (the `Pattern` datatype), and `MatchAt` is a hand-written
 * scanner for each. `IsMatch` says declaratively which substrings the
 * regular expression accepts at a position, and `MatchAtGreedy` proves that
 * the scanner returns the match that backtracking with greedy quantifiers
 * picks among them.
 */
module Markdown {
  import opened Optional

  /** Characters that ICU's `.` does not match. */
  predicate IsLineTerminator(c: char)
  {
    c == '\n' || c == '\U{0B}' || c == '\U{0C}' || c == '\r' ||
    c == '\U{85}' || c == '\U{2028}' || c == '\U{2029}'
  }

  /** ICU's `\s`: tab, newline, form feed, carriage return and `\p{Z}`. */
  predicate IsRegexSpace(c: char)
  {
    c == '\t' || c == '\n' || c == '\U{0C}' || c == '\r' ||
    c == ' ' || c == '\U{A0}' || c == '\U{1680}' ||
    ('\U{2000}' <= c <= '\U{200A}') ||
    c == '\U{2028}' || c == '\U{2029}' ||
    c == '\U{202F}' || c == '\U{205F}' || c == '\U{3000}'
  }

  /** The classes of characters whose runs the patterns scan. */
  datatype CharClass =
      /** `[^c]` */
    | Except(c: char)
      /** `c` */
    | Only(c: char)
      /** `.`: anything but a line terminator */
    | NotNewline

  /** `c` belongs to the class `k`. */
  predicate Keeps(k: CharClass, c: char)
  {
    match k
    case Except(d) => c != d
    case Only(d) => c == d
    case NotNewline => !IsLineTerminator(c)
  }

  /** The fixed pattern shapes of the renderer. */
  datatype Pattern =
      /** `d{width}([^d]+)d{width}`: the italic and bold patterns. */
    | Delimited(delim: char, width: nat)
      /** `(.+)\n rule+`: a setext heading underlined with `rule`. */
    | Underlined(rule: char)
      /** `#{level}([^#]+)#*`: a hash heading. */
    | Hashes(level: nat)
      /** `>\s?(.*)`: a block quote. */
    | Quote

  /** Where a match's capture group starts and ends, and where the match ends. */
  datatype Match = Match(groupStart: nat, groupEnd: nat, end: nat)

  /** `s[i..i + n]` exists and consists of `n` copies of `c`. */
  predicate Repeated(s: string, i: nat, c: char, n: nat)
  {
    i + n <= |s| && forall k :: i <= k < i + n ==> s[k] == c
  }

  /** `s[i..j]` consists of characters that `keep` accepts. */
  predicate AllKept(s: string, i: nat, j: nat, keep: CharClass)
    requires i <= j <= |s|
  {
    forall k :: i <= k < j ==> Keeps(keep, s[k])
  }

  /** The end of the longest run of characters from `i` that `keep` accepts. */
  function Span(s: string, i: nat, keep: CharClass): (j: nat)
    requires i <= |s|
    ensures i <= j <= |s|
    ensures AllKept(s, i, j, keep)
    ensures j < |s| ==> !Keeps(keep, s[j])
    decreases |s| - i
  {
    if i == |s| || !Keeps(keep, s[i]) then i else Span(s, i + 1, keep)
  }

  /**
   * The regular expression of `p` accepts `s[i..m.end]`, with its capture
   * group spanning `s[m.groupStart..m.groupEnd]`.
   */
  predicate IsMatch(p: Pattern, s: string, i: nat, m: Match)
  {
    i <= m.groupStart <= m.groupEnd <= m.end <= |s| &&
    match p
    case Delimited(d, w) =>
      m.groupStart == i + w && m.groupEnd > m.groupStart && m.end == m.groupEnd + w &&
      Repeated(s, i, d, w) && AllKept(s, m.groupStart, m.groupEnd, Except(d)) &&
      Repeated(s, m.groupEnd, d, w)
    case Underlined(r) =>
      m.groupStart == i && m.groupEnd > i && m.groupEnd + 1 < m.end &&
      AllKept(s, i, m.groupEnd, NotNewline) && s[m.groupEnd] == '\n' &&
      AllKept(s, m.groupEnd + 1, m.end, Only(r))
    case Hashes(n) =>
      m.groupStart == i + n && m.groupEnd > m.groupStart &&
      Repeated(s, i, '#', n) && AllKept(s, m.groupStart, m.groupEnd, Except('#')) &&
      AllKept(s, m.groupEnd, m.end, Only('#'))
    case Quote =>
      i < |s| && s[i] == '>' &&
      (m.groupStart == i + 1 || (m.groupStart == i + 2 && IsRegexSpace(s[i + 1]))) &&
      m.end == m.groupEnd && AllKept(s, m.groupStart, m.groupEnd, NotNewline)
  }

  /**
   * The order in which backtracking with greedy quantifiers tries the
   * matches of these patterns: a later group start first, then a later
   * group end, then a later match end.
   */
  predicate TriedNoEarlier(a: Match, b: Match)
  {
    a.groupStart < b.groupStart ||
    (a.groupStart == b.groupStart &&
      (a.groupEnd < b.groupEnd || (a.groupEnd == b.groupEnd && a.end <= b.end)))
  }

  /** A match found at `i` lies within `s`, its group inside it, and it is not empty. */
  predicate Within(s: string, i: nat, m: Match)
  {
    i <= m.groupStart <= m.groupEnd <= m.end <= |s| && i < m.end
  }

  /** The match of `p` that starts at `i`, if there is one. */
  function MatchAt(p: Pattern, s: string, i: nat): (r: Option<Match>)
    requires i <= |s|
    ensures r.Some? ==> Within(s, i, r.value)
  {
    match p
    case Delimited(d, w) => DelimitedAt(s, i, d, w)
    case Underlined(r) => UnderlinedAt(s, i, r)
    case Hashes(n) => HashesAt(s, i, n)
    case Quote => QuoteAt(s, i)
  }

  /** The scanner for `d{w}([^d]+)d{w}`. */
  function DelimitedAt(s: string, i: nat, d: char, w: nat): (r: Option<Match>)
    requires i <= |s|
    ensures r.Some? ==> Within(s, i, r.value)
  {
    if Repeated(s, i, d, w) then
      var g := Span(s, i + w, Except(d));
      if g > i + w && Repeated(s, g, d, w) then Some(Match(i + w, g, g + w)) else None
    else None
  }

  /** The scanner for `(.+)\n r+`. */
  function UnderlinedAt(s: string, i: nat, r: char): (m: Option<Match>)
    requires i <= |s|
    ensures m.Some? ==> Within(s, i, m.value)
  {
    var e := Span(s, i, NotNewline);
    if e > i && e + 1 < |s| && s[e] == '\n' && s[e + 1] == r then
      Some(Match(i, e, Span(s, e + 1, Only(r))))
    else None
  }

  /** The scanner for `#{n}([^#]+)#*`. */
  function HashesAt(s: string, i: nat, n: nat): (r: Option<Match>)
    requires i <= |s|
    ensures r.Some? ==> Within(s, i, r.value)
  {
    if Repeated(s, i, '#', n) && i + n < |s| && s[i + n] != '#' then
      var g := Span(s, i + n, Except('#'));
      Some(Match(i + n, g, Span(s, g, Only('#'))))
    else None
  }

  /** The scanner for `>\s?(.*)`. */
  function QuoteAt(s: string, i: nat): (r: Option<Match>)
    requires i <= |s|
    ensures r.Some? ==> Within(s, i, r.value)
  {
    if i < |s| && s[i] == '>' then
      var gs := if i + 1 < |s| && IsRegexSpace(s[i + 1]) then i + 2 else i + 1;
      var ge := Span(s, gs, NotNewline);
      Some(Match(gs, ge, ge))
    else None
  }

  /** What the scanner finds at `i` is a match of the regular expression there. */
  lemma MatchAtSound(p: Pattern, s: string, i: nat)
    requires i <= |s|
    ensures MatchAt(p, s, i).Some? ==> IsMatch(p, s, i, MatchAt(p, s, i).value)
  {
  }

  /** A run of `keep` characters cannot extend past the end of the longest one. */
  lemma SpanIsLongest(s: string, i: nat, j: nat, keep: CharClass)
    requires i <= j <= |s| && AllKept(s, i, j, keep)
    ensures j <= Span(s, i, keep)
  {
  }

  /**
   * The scanner finds a match at `i` whenever the regular expression accepts
   * one there, and the one it finds is the one tried first.
   */
  lemma MatchAtGreedy(p: Pattern, s: string, i: nat, m: Match)
    requires i <= |s| && IsMatch(p, s, i, m)
    ensures MatchAt(p, s, i).Some? && TriedNoEarlier(m, MatchAt(p, s, i).value)
  {
    match p
    case Delimited(d, w) =>
      SpanIsLongest(s, i + w, m.groupEnd, Except(d));
      var g := Span(s, i + w, Except(d));
      if w > 0 {
        assert s[m.groupEnd] == d;
        assert g == m.groupEnd;
      }
    case Underlined(r) =>
      SpanIsLongest(s, i, m.groupEnd, NotNewline);
      var e := Span(s, i, NotNewline);
      assert IsLineTerminator(s[m.groupEnd]);
      assert e == m.groupEnd;
      assert s[e + 1] == r;
      SpanIsLongest(s, e + 1, m.end, Only(r));
    case Hashes(n) =>
      assert s[i + n] != '#';
      SpanIsLongest(s, i + n, m.groupEnd, Except('#'));
      var g := Span(s, i + n, Except('#'));
      if m.groupEnd == g {
        SpanIsLongest(s, g, m.end, Only('#'));
      }
    case Quote =>
      var r := MatchAt(p, s, i).value;
      if m.groupStart == r.groupStart {
        SpanIsLongest(s, r.groupStart, m.groupEnd, NotNewline);
      }
  }

  /**
   * One pass: from position `i` on, every leftmost match is replaced by
   * `open + group + close` and scanning resumes after it; a position where
   * no match starts is copied.
   */
  function ReplaceFrom(p: Pattern, s: string, i: nat, open: string, close: string): string
    requires i <= |s|
    decreases |s| - i
  {
    if i == |s| then ""
    else match MatchAt(p, s, i)
      case Some(m) => open + s[m.groupStart..m.groupEnd] + close + ReplaceFrom(p, s, m.end, open, close)
      case None => [s[i]] + ReplaceFrom(p, s, i + 1, open, close)
  }

  /**
   * `replace(matchesFor:in:start:end:)`: a pass over the whole string. Where
   * the pattern matches nowhere, the string comes back unchanged.
   */
  function Replace(p: Pattern, s: string, open: string, close: string): (r: string)
    ensures (forall k :: 0 <= k <= |s| ==> MatchAt(p, s, k) == None) ==> r == s
  {
    assert (forall k :: 0 <= k <= |s| ==> MatchAt(p, s, k) == None) ==> ReplaceFrom(p, s, 0, open, close) == s by {
      if forall k :: 0 <= k <= |s| ==> MatchAt(p, s, k) == None {
        ReplaceSkipsUnmatched(p, s, 0, |s|, open, close);
      }
    }
    ReplaceFrom(p, s, 0, open, close)
  }

  /** No match starts anywhere in `s[i..j]`. */
  predicate NoMatchIn(p: Pattern, s: string, i: nat, j: nat)
  {
    j <= |s| && forall k :: i <= k < j ==> MatchAt(p, s, k) == None
  }

  /** Text up to the next match is copied unchanged. */
  lemma {:induction false} ReplaceSkipsUnmatched(p: Pattern, s: string, i: nat, j: nat, open: string, close: string)
    requires i <= j <= |s|
    requires NoMatchIn(p, s, i, j)
    ensures ReplaceFrom(p, s, i, open, close) == s[i..j] + ReplaceFrom(p, s, j, open, close)
    decreases j - i
  {
    if i < j {
      NoMatchInFirst(p, s, i, j);
      ReplaceCopyStep(p, s, i, open, close);
      ReplaceSkipsUnmatched(p, s, i + 1, j, open, close);
      PrependChar(s, i, j, ReplaceFrom(p, s, j, open, close));
    }
  }

  /** Putting one more character in front of a slice and a tail. */
  lemma PrependChar(s: string, i: nat, j: nat, rest: string)
    requires i < j <= |s|
    ensures [s[i]] + (s[i + 1..j] + rest) == s[i..j] + rest
  {
    assert s[i..j] == [s[i]] + s[i + 1..j];
  }

  /** A stretch without matches starts at a position without one, and so does its rest. */
  lemma NoMatchInFirst(p: Pattern, s: string, i: nat, j: nat)
    requires i < j && NoMatchIn(p, s, i, j)
    ensures MatchAt(p, s, i) == None && NoMatchIn(p, s, i + 1, j)
  {
  }

  /** The pass copies a character where no match starts and resumes after it. */
  lemma ReplaceCopyStep(p: Pattern, s: string, i: nat, open: string, close: string)
    requires i < |s| && MatchAt(p, s, i) == None
    ensures ReplaceFrom(p, s, i, open, close) == [s[i]] + ReplaceFrom(p, s, i + 1, open, close)
  {
  }

  /** A match that covers the whole string is replaced as a whole. */
  lemma ReplaceWhole(p: Pattern, s: string, m: Match, open: string, close: string)
    requires MatchAt(p, s, 0) == Some(m) && m.end == |s|
    ensures Replace(p, s, open, close) == open + s[m.groupStart..m.groupEnd] + close
  {
    assert ReplaceFrom(p, s, m.end, open, close) == "";
  }

  /** Patterns that need a character cannot match a string without it. */
  lemma AbsentCharNoMatch(p: Pattern, s: string, k: nat)
    requires k <= |s|
    requires p.Delimited? ==> p.width > 0 && p.delim !in s
    requires p.Underlined? ==> '\n' !in s
    requires p.Hashes? ==> p.level > 0 && '#' !in s
    requires p.Quote? ==> '>' !in s
    ensures MatchAt(p, s, k) == None
  {
    match p
    case Delimited(d, _) => assert forall j :: 0 <= j < |s| ==> s[j] != d;
    case Underlined(_) => assert forall j :: 0 <= j < |s| ==> s[j] != '\n';
    case Hashes(_) => if k < |s| { assert s[k] != '#'; }
    case Quote => assert forall j :: 0 <= j < |s| ==> s[j] != '>';
  }

  /** A pass whose pattern needs a character the text lacks is the identity. */
  lemma ReplaceAbsent(p: Pattern, s: string, open: string, close: string)
    requires p.Delimited? ==> p.width > 0 && p.delim !in s
    requires p.Underlined? ==> '\n' !in s
    requires p.Hashes? ==> p.level > 0 && '#' !in s
    requires p.Quote? ==> '>' !in s
    ensures Replace(p, s, open, close) == s
  {
    forall k | 0 <= k <= |s|
      ensures MatchAt(p, s, k) == None
    {
      AbsentCharNoMatch(p, s, k);
    }
  }

  /** `n` copies of `c`. */
  function Run(c: char, n: nat): (r: string)
    ensures |r| == n && forall k :: 0 <= k < n ==> r[k] == c
  {
    seq(n, _ => c)
  }

  /** `x` between two runs of `w` copies of `d`. */
  function Wrap(d: char, w: nat, x: string): string
  {
    Run(d, w) + x + Run(d, w)
  }

  /** A delimited span `d{w} x d{w}` found at `i` is the match there. */
  lemma DelimitedMatchAt(d: char, w: nat, s: string, i: nat, x: string)
    requires w > 0 && x != [] && d !in x
    requires i + w + |x| + w <= |s|
    requires s[i..i + w + |x| + w] == Wrap(d, w, x)
    ensures MatchAt(Delimited(d, w), s, i) == Some(Match(i + w, i + w + |x|, i + w + |x| + w))
    ensures s[i + w..i + w + |x|] == x
  {
    var p := Delimited(d, w);
    var m := Match(i + w, i + w + |x|, i + w + |x| + w);
    assert forall k :: i <= k < i + w ==> s[k] == s[i..i + w + |x| + w][k - i];
    assert forall k :: i + w <= k < i + w + |x| ==> s[k] == x[k - i - w];
    assert forall k :: i + w + |x| <= k < i + w + |x| + w ==> s[k] == s[i..i + w + |x| + w][k - i];
    assert IsMatch(p, s, i, m);
    MatchAtGreedy(p, s, i, m);
    assert s[m.groupEnd] == d;
  }

  /** The pass replaces the match found at `i` and resumes after it. */
  lemma ReplaceMatchStep(p: Pattern, s: string, i: nat, open: string, close: string)
    requires i <= |s| && MatchAt(p, s, i).Some?
    ensures var m := MatchAt(p, s, i).value;
      ReplaceFrom(p, s, i, open, close)
      == open + s[m.groupStart..m.groupEnd] + close + ReplaceFrom(p, s, m.end, open, close)
  {
  }

  /** Three pieces of a string, each found at its offset. */
  lemma Pieces(a: string, u: string, b: string)
    ensures (a + u + b)[0..|a|] == a
    ensures (a + u + b)[|a|..|a| + |u|] == u
    ensures (a + u + b)[|a| + |u|..|a| + |u| + |b|] == b
  {
  }

  /** A pass over a string with exactly two matches, the second one at its end. */
  lemma ReplaceTwoMatches(p: Pattern, s: string, m1: Match, i: nat, m2: Match, open: string, close: string,
                          x: string, u: string, y: string)
    requires MatchAt(p, s, 0) == Some(m1) && m1.end <= i <= |s|
    requires NoMatchIn(p, s, m1.end, i)
    requires MatchAt(p, s, i) == Some(m2) && m2.end == |s|
    requires s[m1.groupStart..m1.groupEnd] == x && s[m1.end..i] == u && s[m2.groupStart..m2.groupEnd] == y
    ensures Replace(p, s, open, close) == (open + x + close) + (u + (open + y + close))
  {
    ReplaceMatchStep(p, s, 0, open, close);
    ReplaceSkipsUnmatched(p, s, m1.end, i, open, close);
    ReplaceMatchStep(p, s, i, open, close);
    assert ReplaceFrom(p, s, |s|, open, close) == "";
  }

  /** No delimited span starts at a character other than the delimiter. */
  lemma NoDelimiterNoMatch(d: char, w: nat, s: string, k: nat)
    requires w > 0 && k < |s| && s[k] != d
    ensures MatchAt(Delimited(d, w), s, k) == None
  {
  }

  /** No delimited span starts inside a delimiter-free stretch `s[i..j]`. */
  lemma GapUnmatched(d: char, w: nat, s: string, i: nat, j: nat)
    requires w > 0 && i <= j <= |s| && d !in s[i..j]
    ensures NoMatchIn(Delimited(d, w), s, i, j)
  {
    forall k | i <= k < j
      ensures MatchAt(Delimited(d, w), s, k) == None
    {
      assert s[k] == s[i..j][k - i];
      NoDelimiterNoMatch(d, w, s, k);
    }
  }

  /** A delimited span `Wrap(x)` at `i` is the match there, and its group is `x`. */
  lemma SpanMatched(d: char, w: nat, x: string, s: string, i: nat)
    requires w > 0 && x != [] && d !in x
    requires i + w + |x| + w <= |s| && s[i..i + w + |x| + w] == Wrap(d, w, x)
    ensures MatchAt(Delimited(d, w), s, i) == Some(Match(i + w, i + w + |x|, i + w + |x| + w))
    ensures s[i + w..i + w + |x|] == x
  {
    DelimitedMatchAt(d, w, s, i, x);
  }

  /** A string made of a span, delimiter-free text, and a span, described by its slices. */
  lemma TwoSpans(d: char, w: nat, x: string, u: string, y: string, s: string, open: string, close: string)
    requires w > 0 && x != [] && y != [] && d !in x && d !in u && d !in y
    requires |s| == w + |x| + w + |u| + w + |y| + w
    requires s[0..w + |x| + w] == Wrap(d, w, x)
    requires s[w + |x| + w..w + |x| + w + |u|] == u
    requires s[w + |x| + w + |u|..|s|] == Wrap(d, w, y)
    ensures Replace(Delimited(d, w), s, open, close) == (open + x + close) + (u + (open + y + close))
  {
    var i := w + |x| + w + |u|;
    TwoSpansMatch(d, w, x, u, y, s);
    ReplaceTwoMatches(Delimited(d, w), s, Match(w, w + |x|, w + |x| + w), i, Match(i + w, i + w + |y|, |s|), open, close, x, u, y);
  }

  /** Where the matches of such a string are, and what they hold. */
  lemma TwoSpansMatch(d: char, w: nat, x: string, u: string, y: string, s: string)
    requires w > 0 && x != [] && y != [] && d !in x && d !in u && d !in y
    requires |s| == w + |x| + w + |u| + w + |y| + w
    requires s[0..w + |x| + w] == Wrap(d, w, x)
    requires s[w + |x| + w..w + |x| + w + |u|] == u
    requires s[w + |x| + w + |u|..|s|] == Wrap(d, w, y)
    ensures MatchAt(Delimited(d, w), s, 0) == Some(Match(w, w + |x|, w + |x| + w))
    ensures NoMatchIn(Delimited(d, w), s, w + |x| + w, w + |x| + w + |u|)
    ensures MatchAt(Delimited(d, w), s, w + |x| + w + |u|)
         == Some(Match(w + |x| + w + |u| + w, w + |x| + w + |u| + w + |y|, |s|))
    ensures s[w..w + |x|] == x && s[w + |x| + w + |u| + w..w + |x| + w + |u| + w + |y|] == y
  {
    var i := w + |x| + w + |u|;
    GapUnmatched(d, w, s, w + |x| + w, i);
    SpanMatched(d, w, x, s, 0);
    SpanMatched(d, w, y, s, i);
  }

  /** Every delimited span is replaced, and the text between them is kept. */
  lemma DelimitedEveryMatch(d: char, w: nat, x: string, u: string, y: string, open: string, close: string)
    requires w > 0 && x != [] && y != [] && d !in x && d !in u && d !in y
    ensures Replace(Delimited(d, w), Wrap(d, w, x) + u + Wrap(d, w, y), open, close)
         == (open + x + close) + (u + (open + y + close))
  {
    var a, b := Wrap(d, w, x), Wrap(d, w, y);
    assert |a| == w + |x| + w && |b| == w + |y| + w;
    Pieces(a, u, b);
    TwoSpans(d, w, x, u, y, a + u + b, open, close);
  }

  /** A string that is one delimited span is replaced as a whole. */
  lemma DelimitedWhole(d: char, w: nat, x: string, open: string, close: string)
    requires w > 0 && x != [] && d !in x
    ensures Replace(Delimited(d, w), Wrap(d, w, x), open, close) == open + x + close
  {
    var s := Wrap(d, w, x);
    assert s[0..|s|] == s;
    DelimitedMatchAt(d, w, s, 0, x);
    assert s[w..w + |x|] == x;
    ReplaceWhole(Delimited(d, w), s, Match(w, w + |x|, |s|), open, close);
  }

  /**
   * `replaceItalics(from:)`: `_x_` and then `*x*` become `<em>x</em>`; text
   * with neither delimiter comes back unchanged.
   */
  function ReplaceItalics(s: string): (r: string)
    ensures '_' !in s && '*' !in s ==> r == s
  {
    assert '_' !in s && '*' !in s ==> Replace(Delimited('_', 1), s, "<em>", "</em>") == s by {
      if '_' !in s {
        ReplaceAbsent(Delimited('_', 1), s, "<em>", "</em>");
      }
    }
    assert '*' !in s ==> Replace(Delimited('*', 1), s, "<em>", "</em>") == s by {
      if '*' !in s {
        ReplaceAbsent(Delimited('*', 1), s, "<em>", "</em>");
      }
    }
    var underscored := Replace(Delimited('_', 1), s, "<em>", "</em>");
    Replace(Delimited('*', 1), underscored, "<em>", "</em>")
  }

  /**
   * `replaceBold(from:)`: `__x__` and then `**x**` become `<strong>x</strong>`;
   * text with neither delimiter comes back unchanged.
   */
  function ReplaceBold(s: string): (r: string)
    ensures '_' !in s && '*' !in s ==> r == s
  {
    assert '_' !in s && '*' !in s ==> Replace(Delimited('_', 2), s, "<strong>", "</strong>") == s by {
      if '_' !in s {
        ReplaceAbsent(Delimited('_', 2), s, "<strong>", "</strong>");
      }
    }
    assert '*' !in s ==> Replace(Delimited('*', 2), s, "<strong>", "</strong>") == s by {
      if '*' !in s {
        ReplaceAbsent(Delimited('*', 2), s, "<strong>", "</strong>");
      }
    }
    var underscored := Replace(Delimited('_', 2), s, "<strong>", "</strong>");
    Replace(Delimited('*', 2), underscored, "<strong>", "</strong>")
  }

  lemma ItalicsUnderscore(x: string)
    requires x != [] && '_' !in x && '*' !in x
    ensures ReplaceItalics("_" + x + "_") == "<em>" + x + "</em>"
  {
    assert Run('_', 1) == "_";
    DelimitedWhole('_', 1, x, "<em>", "</em>");
    ReplaceAbsent(Delimited('*', 1), "<em>" + x + "</em>", "<em>", "</em>");
  }

  lemma ItalicsStar(x: string)
    requires x != [] && '_' !in x && '*' !in x
    ensures ReplaceItalics("*" + x + "*") == "<em>" + x + "</em>"
  {
    ReplaceAbsent(Delimited('_', 1), "*" + x + "*", "<em>", "</em>");
    assert Run('*', 1) == "*";
    DelimitedWhole('*', 1, x, "<em>", "</em>");
  }

  /** Every italic span is rendered, not only the first. */
  lemma ItalicsEveryMatch(x: string, u: string, y: string)
    requires x != [] && y != [] && '_' !in x && '_' !in u && '_' !in y
    requires '*' !in x && '*' !in u && '*' !in y
    ensures ReplaceItalics(("_" + x + "_") + u + ("_" + y + "_"))
         == ("<em>" + x + "</em>") + (u + ("<em>" + y + "</em>"))
  {
    assert Run('_', 1) == "_";
    DelimitedEveryMatch('_', 1, x, u, y, "<em>", "</em>");
    ReplaceAbsent(Delimited('*', 1), ("<em>" + x + "</em>") + (u + ("<em>" + y + "</em>")), "<em>", "</em>");
  }

  lemma BoldUnderscore(x: string)
    requires x != [] && '_' !in x && '*' !in x
    ensures ReplaceBold("__" + x + "__") == "<strong>" + x + "</strong>"
  {
    assert Run('_', 2) == "__";
    DelimitedWhole('_', 2, x, "<strong>", "</strong>");
    ReplaceAbsent(Delimited('*', 2), "<strong>" + x + "</strong>", "<strong>", "</strong>");
  }

  lemma BoldStar(x: string)
    requires x != [] && '_' !in x && '*' !in x
    ensures ReplaceBold("**" + x + "**") == "<strong>" + x + "</strong>"
  {
    ReplaceAbsent(Delimited('_', 2), "**" + x + "**", "<strong>", "</strong>");
    assert Run('*', 2) == "**";
    DelimitedWhole('*', 2, x, "<strong>", "</strong>");
  }

  /** The opening tag of a heading of the given level. */
  function OpenHeading(level: nat): string
    requires 1 <= level <= 6
  {
    match level
    case 1 => "<h1>"
    case 2 => "<h2>"
    case 3 => "<h3>"
    case 4 => "<h4>"
    case 5 => "<h5>"
    case _ => "<h6>"
  }

  /** The closing tag of a heading of the given level. */
  function CloseHeading(level: nat): string
    requires 1 <= level <= 6
  {
    match level
    case 1 => "</h1>"
    case 2 => "</h2>"
    case 3 => "</h3>"
    case 4 => "</h4>"
    case 5 => "</h5>"
    case _ => "</h6>"
  }

  /** Heading tags hold neither a hash nor a newline. */
  lemma HeadingTagsPlain(level: nat)
    requires 1 <= level <= 6
    ensures '#' !in OpenHeading(level) && '#' !in CloseHeading(level)
    ensures '\n' !in OpenHeading(level) && '\n' !in CloseHeading(level)
  {
  }

  /** The hash pass of one level. */
  function HashPass(s: string, level: nat): string
    requires 1 <= level <= 6
  {
    Replace(Hashes(level), s, OpenHeading(level), CloseHeading(level))
  }

  /** The two setext passes: `=` underlines give `h1`, then `-` underlines give `h2`. */
  function SetextPasses(s: string): string
  {
    var equals := Replace(Underlined('='), s, "<h1>", "</h1>");
    Replace(Underlined('-'), equals, "<h2>", "</h2>")
  }

  /**
   * `replaceHeaders(from:)`: the setext passes, then the hash passes from
   * level 1 to level 6. Text without a newline or a hash comes back unchanged.
   */
  function ReplaceHeaders(s: string): (r: string)
    ensures '\n' !in s && '#' !in s ==> r == s
  {
    assert '\n' !in s && '#' !in s ==>
      HashPass(HashPass(HashPass(HashPass(HashPass(HashPass(SetextPasses(s), 1), 2), 3), 4), 5), 6) == s by {
      if '\n' !in s && '#' !in s {
        SetextUnchanged(s);
        HashPassesUnchanged(s);
      }
    }
    var r0 := SetextPasses(s);
    var r1 := HashPass(r0, 1);
    var r2 := HashPass(r1, 2);
    var r3 := HashPass(r2, 3);
    var r4 := HashPass(r3, 4);
    var r5 := HashPass(r4, 5);
    HashPass(r5, 6)
  }

  /** The hash passes from `level` down to level 1. */
  function HashPassesDown(s: string, level: nat): string
    requires level <= 6
    decreases level
  {
    if level == 0 then s else HashPassesDown(HashPass(s, level), level - 1)
  }

  /** Header rendering with the hash passes run from level 6 down to level 1. */
  function ReplaceHeadersFixed(s: string): string
  {
    HashPassesDown(SetextPasses(s), 6)
  }

  /** Text without a newline goes through the setext passes unchanged. */
  lemma SetextUnchanged(s: string)
    requires '\n' !in s
    ensures SetextPasses(s) == s
  {
    ReplaceAbsent(Underlined('='), s, "<h1>", "</h1>");
    ReplaceAbsent(Underlined('-'), s, "<h2>", "</h2>");
  }

  /** A run of `n` hashes followed by hash-free text to the end is matched at once. */
  lemma HashMatchAt(n: nat, s: string, i: nat)
    requires i + n < |s| && Repeated(s, i, '#', n)
    requires forall k :: i + n <= k < |s| ==> s[k] != '#'
    ensures MatchAt(Hashes(n), s, i) == Some(Match(i + n, |s|, |s|))
  {
    SpanIsLongest(s, i + n, |s|, Except('#'));
  }

  /** A string that is one hash heading is replaced as a whole. */
  lemma HashWhole(n: nat, t: string, open: string, close: string)
    requires t != [] && '#' !in t
    ensures Replace(Hashes(n), Run('#', n) + t, open, close) == open + t + close
  {
    var s := Run('#', n) + t;
    assert forall k :: n <= k < |s| ==> s[k] == t[k - n];
    HashMatchAt(n, s, 0);
    assert s[n..|s|] == t;
    ReplaceWhole(Hashes(n), s, Match(n, |s|, |s|), open, close);
  }

  /**
   * The closing run `#*` belongs to the match but not to the group, so any
   * trailing hashes are consumed and dropped.
   */
  lemma HashTrailingDropped(n: nat, t: string, k: nat, open: string, close: string)
    requires t != [] && '#' !in t
    ensures Replace(Hashes(n), Run('#', n) + t + Run('#', k), open, close) == open + t + close
  {
    var s := Run('#', n) + t + Run('#', k);
    var g := n + |t|;
    assert forall j :: n <= j < g ==> s[j] == t[j - n];
    assert forall j :: g <= j < |s| ==> s[j] == '#';
    SpanIsLongest(s, n, g, Except('#'));
    SpanIsLongest(s, g, |s|, Only('#'));
    assert MatchAt(Hashes(n), s, 0) == Some(Match(n, g, |s|));
    assert s[n..g] == t;
    ReplaceWhole(Hashes(n), s, Match(n, g, |s|), open, close);
  }

  /** A hash pass of level `k` leaves text whose hashes all lie before index `n < k`. */
  lemma ShortRunUnchanged(k: nat, n: nat, s: string, open: string, close: string)
    requires n < k
    requires forall j :: 0 <= j < |s| && s[j] == '#' ==> j < n
    ensures Replace(Hashes(k), s, open, close) == s
  {
    forall j | 0 <= j <= |s|
      ensures MatchAt(Hashes(k), s, j) == None
    {
      if j + k <= |s| {
        assert s[j + k - 1] != '#';
      }
    }
  }

  /** Hash passes leave hash-free text unchanged. */
  lemma {:induction false} HashPassesDownUnchanged(s: string, level: nat)
    requires level <= 6 && '#' !in s
    ensures HashPassesDown(s, level) == s
    decreases level
  {
    if level > 0 {
      ReplaceAbsent(Hashes(level), s, OpenHeading(level), CloseHeading(level));
      HashPassesDownUnchanged(s, level - 1);
    }
  }

  /** In `n` hashes followed by hash-free text, every hash lies before index `n`. */
  lemma HashesOnlyInPrefix(n: nat, t: string)
    requires '#' !in t
    ensures forall j :: 0 <= j < |Run('#', n) + t| && (Run('#', n) + t)[j] == '#' ==> j < n
    ensures '\n' !in t ==> '\n' !in Run('#', n) + t
  {
    var s := Run('#', n) + t;
    assert forall j :: n <= j < |s| ==> s[j] == t[j - n];
  }

  /** Passes from `level` down, for a heading of level `n <= level`. */
  lemma {:induction false} HashPassesDownHeading(n: nat, t: string, level: nat)
    requires 1 <= n <= level <= 6 && t != [] && '#' !in t
    ensures HashPassesDown(Run('#', n) + t, level) == OpenHeading(n) + t + CloseHeading(n)
    decreases level
  {
    if level == n {
      HashPassesAtHeading(n, t);
    } else {
      HashPassSkipsShortRun(n, t, level);
      HashPassesDownHeading(n, t, level - 1);
    }
  }

  /** A pass for more hashes than the heading has leaves it as it is. */
  lemma HashPassSkipsShortRun(n: nat, t: string, level: nat)
    requires 1 <= n < level <= 6 && t != [] && '#' !in t
    ensures HashPass(Run('#', n) + t, level) == Run('#', n) + t
  {
    var s := Run('#', n) + t;
    HashesOnlyInPrefix(n, t);
    ShortRunUnchanged(level, n, s, OpenHeading(level), CloseHeading(level));
  }

  /** Passes from the heading's own level down: that pass makes the heading, the lower ones keep it. */
  lemma HashPassesAtHeading(n: nat, t: string)
    requires 1 <= n <= 6 && t != [] && '#' !in t
    ensures HashPassesDown(Run('#', n) + t, n) == OpenHeading(n) + t + CloseHeading(n)
  {
    HashPassMakesHeading(n, t);
    HeadingKeptBelow(n, t);
  }

  /** The pass of a heading's own level turns it into the heading. */
  lemma HashPassMakesHeading(n: nat, t: string)
    requires 1 <= n <= 6 && t != [] && '#' !in t
    ensures HashPass(Run('#', n) + t, n) == OpenHeading(n) + t + CloseHeading(n)
  {
    HashWhole(n, t, OpenHeading(n), CloseHeading(n));
  }

  /** The passes below a heading's level leave the heading as it is. */
  lemma HeadingKeptBelow(n: nat, t: string)
    requires 1 <= n <= 6 && '#' !in t
    ensures HashPassesDown(OpenHeading(n) + t + CloseHeading(n), n - 1) == OpenHeading(n) + t + CloseHeading(n)
  {
    HeadingTagsPlain(n);
    HashPassesDownUnchanged(OpenHeading(n) + t + CloseHeading(n), n - 1);
  }

  /**
   * With the hash passes run from level 6 down, `n` hashes followed by text
   * give a heading of level `n`.
   */
  lemma HashHeadingFixed(n: nat, t: string)
    requires 1 <= n <= 6 && t != [] && '#' !in t && '\n' !in t
    ensures ReplaceHeadersFixed(Run('#', n) + t) == OpenHeading(n) + t + CloseHeading(n)
  {
    var s := Run('#', n) + t;
    HashesOnlyInPrefix(n, t);
    SetextUnchanged(s);
    HashPassesDownHeading(n, t, 6);
  }

  /** One hash followed by text gives a level-1 heading. */
  lemma HashLevelOne(t: string)
    requires t != [] && '#' !in t && '\n' !in t
    ensures ReplaceHeaders("#" + t) == "<h1>" + t + "</h1>"
  {
    SetextUnchanged("#" + t);
    assert Run('#', 1) == "#";
    HashWhole(1, t, "<h1>", "</h1>");
    var h := "<h1>" + t + "</h1>";
    ReplaceAbsent(Hashes(2), h, "<h2>", "</h2>");
    ReplaceAbsent(Hashes(3), h, "<h3>", "</h3>");
    ReplaceAbsent(Hashes(4), h, "<h4>", "</h4>");
    ReplaceAbsent(Hashes(5), h, "<h5>", "</h5>");
    ReplaceAbsent(Hashes(6), h, "<h6>", "</h6>");
  }

  /**
   * As written, the level-1 pass runs first and consumes the second hash of
   * a level-2 heading: `##` followed by text becomes `#<h1>…</h1>`.
   */
  lemma HashLevelTwoAsWritten(t: string)
    requires t != [] && '#' !in t && '\n' !in t
    ensures ReplaceHeaders("##" + t) == "#" + ("<h1>" + t + "</h1>")
  {
    var s := "##" + t;
    SetextUnchanged(s);
    assert MatchAt(Hashes(1), s, 0) == None;
    HashMatchAt(1, s, 1);
    assert s[2..|s|] == t;
    ReplaceSkipsUnmatched(Hashes(1), s, 0, 1, "<h1>", "</h1>");
    ReplaceMatchStep(Hashes(1), s, 1, "<h1>", "</h1>");
    assert ReplaceFrom(Hashes(1), s, |s|, "<h1>", "</h1>") == "";
    var h := "#" + ("<h1>" + t + "</h1>");
    assert HashPass(s, 1) == h;
    assert forall j :: 0 <= j < |h| && h[j] == '#' ==> j < 1 by {
      assert forall j :: 5 <= j < 5 + |t| ==> h[j] == t[j - 5];
    }
    ShortRunUnchanged(2, 1, h, "<h2>", "</h2>");
    ShortRunUnchanged(3, 1, h, "<h3>", "</h3>");
    ShortRunUnchanged(4, 1, h, "<h4>", "</h4>");
    ShortRunUnchanged(5, 1, h, "<h5>", "</h5>");
    ShortRunUnchanged(6, 1, h, "<h6>", "</h6>");
  }

  /** `s[i..j]` holds no line terminator. */
  predicate SingleLine(s: string)
  {
    forall j :: 0 <= j < |s| ==> !IsLineTerminator(s[j])
  }

  /** A line, a newline and a run of `r` is matched as a whole by the setext pattern. */
  lemma UnderlinedWhole(r: char, t: string, k: nat, open: string, close: string)
    requires t != [] && SingleLine(t) && k > 0
    ensures Replace(Underlined(r), t + "\n" + Run(r, k), open, close) == open + t + close
  {
    var s := t + "\n" + Run(r, k);
    var m := Match(0, |t|, |s|);
    assert forall j :: 0 <= j < |t| ==> s[j] == t[j];
    assert forall j :: |t| < j < |s| ==> s[j] == r;
    assert IsMatch(Underlined(r), s, 0, m);
    MatchAtGreedy(Underlined(r), s, 0, m);
    assert IsLineTerminator(s[|t|]);
    assert s[0..|t|] == t;
    ReplaceWhole(Underlined(r), s, m, open, close);
  }

  /** A line underlined with a different rule does not match the setext pattern. */
  lemma UnderlinedOtherRule(r: char, q: char, t: string, k: nat)
    requires SingleLine(t) && k > 0 && q != r && q != '\n'
    ensures forall j :: 0 <= j <= |t + "\n" + Run(q, k)| ==> MatchAt(Underlined(r), t + "\n" + Run(q, k), j) == None
  {
    var s := t + "\n" + Run(q, k);
    assert forall j :: 0 <= j < |t| ==> s[j] == t[j];
    assert forall j :: |t| < j < |s| ==> s[j] == q;
    assert forall j :: 0 <= j < |s| && s[j] == '\n' ==> j == |t|;
    forall j | 0 <= j <= |s|
      ensures MatchAt(Underlined(r), s, j) == None
    {
    }
  }

  /** A line underlined with `=` becomes a level-1 heading. */
  lemma SetextLevelOne(t: string, k: nat)
    requires t != [] && SingleLine(t) && '#' !in t && k > 0
    ensures ReplaceHeaders(t + "\n" + Run('=', k)) == "<h1>" + t + "</h1>"
  {
    UnderlinedWhole('=', t, k, "<h1>", "</h1>");
    var h := "<h1>" + t + "</h1>";
    assert '\n' !in h by {
      assert forall j :: 4 <= j < 4 + |t| ==> h[j] == t[j - 4];
    }
    ReplaceAbsent(Underlined('-'), h, "<h2>", "</h2>");
    HashPassesUnchanged(h);
  }

  /** A line underlined with `-` becomes a level-2 heading. */
  lemma SetextLevelTwo(t: string, k: nat)
    requires t != [] && SingleLine(t) && '#' !in t && k > 0
    ensures ReplaceHeaders(t + "\n" + Run('-', k)) == "<h2>" + t + "</h2>"
  {
    var s := t + "\n" + Run('-', k);
    UnderlinedOtherRule('=', '-', t, k);
    UnderlinedWhole('-', t, k, "<h2>", "</h2>");
    HashPassesUnchanged("<h2>" + t + "</h2>");
  }

  /** The six hash passes of `replaceHeaders` leave hash-free text unchanged. */
  lemma HashPassesUnchanged(h: string)
    requires '#' !in h
    ensures HashPass(HashPass(HashPass(HashPass(HashPass(HashPass(h, 1), 2), 3), 4), 5), 6) == h
  {
    ReplaceAbsent(Hashes(1), h, "<h1>", "</h1>");
    ReplaceAbsent(Hashes(2), h, "<h2>", "</h2>");
    ReplaceAbsent(Hashes(3), h, "<h3>", "</h3>");
    ReplaceAbsent(Hashes(4), h, "<h4>", "</h4>");
    ReplaceAbsent(Hashes(5), h, "<h5>", "</h5>");
    ReplaceAbsent(Hashes(6), h, "<h6>", "</h6>");
  }

  /** The quoted text: one leading `\s` character, if present, is consumed. */
  function Unspaced(t: string): string
  {
    if t != [] && IsRegexSpace(t[0]) then t[1..] else t
  }

  /** `>` followed by one line is matched as a whole by the quote pattern. */
  lemma QuoteWhole(t: string, open: string, close: string)
    requires SingleLine(Unspaced(t))
    ensures Replace(Quote, ">" + t, open, close) == open + Unspaced(t) + close
  {
    var s := ">" + t;
    var gs := if t != [] && IsRegexSpace(t[0]) then 2 else 1;
    assert forall j :: gs <= j < |s| ==> s[j] == Unspaced(t)[j - gs];
    SpanIsLongest(s, gs, |s|, NotNewline);
    assert MatchAt(Quote, s, 0) == Some(Match(gs, |s|, |s|));
    assert s[gs..|s|] == Unspaced(t);
    ReplaceWhole(Quote, s, Match(gs, |s|, |s|), open, close);
  }

  /**
   * `renderBlockQuotes(from:)`: `>`, optional whitespace and the rest of the
   * line, in `<h1>` tags; text without `>` comes back unchanged.
   */
  function RenderBlockQuotes(s: string): (r: string)
    ensures '>' !in s ==> r == s
  {
    assert '>' !in s ==> Replace(Quote, s, "<h1>", "</h1>") == s by {
      if '>' !in s {
        ReplaceAbsent(Quote, s, "<h1>", "</h1>");
      }
    }
    Replace(Quote, s, "<h1>", "</h1>")
  }

  /** Block quote rendering with the `<blockquote>` tags its documentation names. */
  function RenderBlockQuotesFixed(s: string): string
  {
    Replace(Quote, s, "<blockquote>", "</blockquote>")
  }

  /** As written, a quoted line becomes a level-1 heading. */
  lemma BlockQuoteAsWritten(t: string)
    requires SingleLine(Unspaced(t))
    ensures RenderBlockQuotes(">" + t) == "<h1>" + Unspaced(t) + "</h1>"
  {
    QuoteWhole(t, "<h1>", "</h1>");
  }

  /** The optional whitespace may be the newline: the next line is quoted. */
  lemma BlockQuoteTakesNextLine(t: string)
    requires SingleLine(t)
    ensures RenderBlockQuotes(">" + "\n" + t) == "<h1>" + t + "</h1>"
  {
    assert ">" + "\n" + t == ">" + ("\n" + t);
    assert Unspaced("\n" + t) == t;
    QuoteWhole("\n" + t, "<h1>", "</h1>");
  }

  /** A quoted line becomes a `<blockquote>` element. */
  lemma BlockQuoteFixed(t: string)
    requires SingleLine(Unspaced(t))
    ensures RenderBlockQuotesFixed(">" + t) == "<blockquote>" + Unspaced(t) + "</blockquote>"
  {
    QuoteWhole(t, "<blockquote>", "</blockquote>");
  }
}
