/**
 * Span surgery on source text: a syntax node's span is given by lines and columns, and the line
 * arithmetic is proved to be plain slicing at absolute offsets. The repair candidates built on it
 * are duplicate-free; exactly where the two ways of breaking lines put it in the same place, a
 * candidate changes only the outer call's span, and then it is strictly shorter than the source.
 */
module Splice {
  import opened Options
  import opened PyText
  import opened Sequences

  // ---------------------------------------------------------------- two ways of breaking lines

  /** The line ends the parser counts. */
  predicate IsNewline(c: char) { c == '\n' || c == '\r' }

  /** A character at which `splitlines` breaks and the parser does not. */
  predicate IsExtraBreak(c: char) { IsBreak(c) && !IsNewline(c) }

  /** The length of the first line with its end, `\r\n` being one end. */
  function LineLength(s: string, breaks: char -> bool): (n: nat)
    requires s != ""
    ensures 1 <= n <= |s|
  {
    if breaks(s[0]) then (if s[0] == '\r' && |s| > 1 && s[1] == '\n' then 2 else 1)
    else if |s| == 1 then 1
    else 1 + LineLength(s[1..], breaks)
  }

  /** A line end is one character, or the two of `\r\n`, for either way of breaking. */
  lemma LineEndIs(rest: string, c: char, breaks: char -> bool)
    requires breaks(c)
    ensures LineLength([c] + rest, breaks) == if c == '\r' && "\n" <= rest then 2 else 1
  {
  }

  /** The lines of a text with their ends. */
  function KeptBy(s: string, breaks: char -> bool): seq<string> {
    if s == "" then []
    else var n := LineLength(s, breaks); [s[..n]] + KeptBy(s[n..], breaks)
  }

  /** `splitlines(keepends=True)`. */
  function KeptLines(source: string): seq<string> { KeptBy(source, IsBreak) }

  /** The lines that the parser's positions refer to. */
  function ParserLines(source: string): seq<string> { KeptBy(source, IsNewline) }

  function Concat(lines: seq<string>): string {
    if lines == [] then "" else lines[0] + Concat(lines[1..])
  }

  lemma ConcatCons(line: string, rest: seq<string>)
    ensures Concat([line] + rest) == line + Concat(rest)
  {
    assert ([line] + rest)[1..] == rest;
  }

  lemma {:induction false} KeptConcat(s: string, breaks: char -> bool)
    ensures Concat(KeptBy(s, breaks)) == s
  {
    if s != "" {
      var n := LineLength(s, breaks);
      KeptConcat(s[n..], breaks);
      ConcatCons(s[..n], KeptBy(s[n..], breaks));
    }
  }

  /** No extra break among the first `n` characters, but perhaps the last of them. */
  predicate PlainUpTo(s: string, n: nat) {
    forall i :: 0 <= i < n - 1 && i < |s| ==> !IsExtraBreak(s[i])
  }

  /** No extra break but at the very end, where it ends no line but the last. */
  predicate PlainBreaks(source: string) { PlainUpTo(source, |source|) }

  lemma {:induction false} SameLength(s: string)
    requires s != "" && PlainBreaks(s)
    ensures LineLength(s, IsBreak) == LineLength(s, IsNewline)
  {
    if !IsBreak(s[0]) && |s| > 1 {
      assert PlainBreaks(s[1..]) by {
        assert forall i :: 0 <= i < |s[1..]| - 1 ==> s[1..][i] == s[i + 1];
      }
      SameLength(s[1..]);
    }
  }

  /** Where the two lengths agree, the first line has no extra break, unless it ends the text. */
  lemma {:induction false} SameLengthPlain(s: string, i: nat)
    requires s != "" && LineLength(s, IsBreak) == LineLength(s, IsNewline)
    requires i < LineLength(s, IsBreak) && i < |s| - 1
    ensures !IsExtraBreak(s[i])
  {
    if !IsBreak(s[0]) && i > 0 {
      SameLengthPlain(s[1..], i - 1);
    }
  }

  /** The two ways of breaking lines agree on exactly the texts without an extra break before
      their last character. */
  lemma {:induction false} LinesAgreeIffPlain(source: string)
    ensures KeptLines(source) == ParserLines(source) <==> PlainBreaks(source)
  {
    if source != "" {
      var k, p := LineLength(source, IsBreak), LineLength(source, IsNewline);
      if PlainBreaks(source) {
        SameLength(source);
        assert forall i :: 0 <= i < |source[k..]| - 1 ==> source[k..][i] == source[k + i];
        LinesAgreeIffPlain(source[k..]);
      }
      if KeptLines(source) == ParserLines(source) {
        AgreeingIsPlain(source);
      }
    }
  }

  lemma {:induction false} AgreeingIsPlain(source: string)
    requires KeptLines(source) == ParserLines(source)
    ensures PlainBreaks(source)
  {
    if source != "" {
      var k, p := LineLength(source, IsBreak), LineLength(source, IsNewline);
      var kept, parsed := KeptLines(source), ParserLines(source);
      assert |kept[0]| == k && |parsed[0]| == p;
      assert kept[1..] == KeptLines(source[k..]) && parsed[1..] == ParserLines(source[p..]);
      AgreeingIsPlain(source[k..]);
      forall i | 0 <= i < |source| - 1 ensures !IsExtraBreak(source[i]) {
        if i < k { SameLengthPlain(source, i); } else { assert source[i] == source[k..][i - k]; }
      }
    }
  }

  lemma {:induction false} LengthBehindExtra(s: string, k: nat)
    requires s != "" && k == LineLength(s, IsBreak) && k < LineLength(s, IsNewline)
    ensures LineLength(s[k..], IsNewline) == LineLength(s, IsNewline) - k
  {
    if !IsBreak(s[0]) {
      assert s[1..][k - 1..] == s[k..];
      LengthBehindExtra(s[1..], k - 1);
    } else {
      assert s[1..] == s[k..];
    }
  }

  lemma {:induction false} BreakComesFirst(s: string)
    requires s != ""
    ensures LineLength(s, IsBreak) <= LineLength(s, IsNewline)
  {
    if !IsBreak(s[0]) && |s| > 1 { BreakComesFirst(s[1..]); }
  }

  /** `splitlines` finds at least the parser's lines, so its line numbers are never out of range. */
  lemma {:induction false} AtLeastParserLines(source: string)
    ensures |ParserLines(source)| <= |KeptLines(source)|
  {
    if source != "" {
      var k, p := LineLength(source, IsBreak), LineLength(source, IsNewline);
      BreakComesFirst(source);
      AtLeastParserLines(source[k..]);
      if k < p {
        LengthBehindExtra(source, k);
        assert source[k..][p - k..] == source[p..];
      }
    }
  }

  // ---------------------------------------------------------------- where lines start

  /** Where line `k` starts, counting from 0, and its length. */
  function Start(s: string, breaks: char -> bool, k: nat): nat {
    if k == 0 || s == "" then 0
    else var n := LineLength(s, breaks); n + Start(s[n..], breaks, k - 1)
  }

  function LengthAt(s: string, breaks: char -> bool, k: nat): nat {
    if s == "" then 0
    else if k == 0 then LineLength(s, breaks)
    else LengthAt(s[LineLength(s, breaks)..], breaks, k - 1)
  }

  lemma {:induction false} StartIs(s: string, breaks: char -> bool, k: nat)
    requires k < |KeptBy(s, breaks)|
    ensures |Concat(KeptBy(s, breaks)[..k])| == Start(s, breaks, k)
    ensures |KeptBy(s, breaks)[k]| == LengthAt(s, breaks, k)
  {
    if k > 0 {
      var n := LineLength(s, breaks);
      var rest := KeptBy(s[n..], breaks);
      StartIs(s[n..], breaks, k - 1);
      assert KeptBy(s, breaks)[..k] == [s[..n]] + rest[..k - 1];
      ConcatCons(s[..n], rest[..k - 1]);
    }
  }

  lemma {:induction false} StartsAscend(s: string, breaks: char -> bool, k: nat)
    requires k < |KeptBy(s, breaks)|
    ensures Start(s, breaks, k) < Start(s, breaks, k + 1)
    ensures Start(s, breaks, k) + LengthAt(s, breaks, k) <= |s|
  {
    if k > 0 { StartsAscend(s[LineLength(s, breaks)..], breaks, k - 1); }
  }

  lemma {:induction false} NoExtraInside(s: string, i: nat)
    requires s != "" && i + 1 < LineLength(s, IsBreak)
    ensures !IsExtraBreak(s[i])
  {
    if !IsBreak(s[0]) && i > 0 { NoExtraInside(s[1..], i - 1); }
  }

  lemma {:induction false} ExtraEndsLine(s: string)
    requires s != "" && LineLength(s, IsBreak) < LineLength(s, IsNewline)
    ensures IsExtraBreak(s[LineLength(s, IsBreak) - 1])
  {
    if !IsBreak(s[0]) { ExtraEndsLine(s[1..]); }
  }

  /** Line `k` of `splitlines` starts no later than that of the parser, and earlier if an extra break
      ends the first line. */
  lemma {:induction false} StartNoLater(s: string, k: nat)
    requires k <= |ParserLines(s)|
    ensures Start(s, IsBreak, k) <= Start(s, IsNewline, k)
    ensures k > 0 && LineLength(s, IsBreak) < LineLength(s, IsNewline) ==> Start(s, IsBreak, k) < Start(s, IsNewline, k)
    decreases |s|
  {
    if k > 0 {
      var n, p := LineLength(s, IsBreak), LineLength(s, IsNewline);
      BreakComesFirst(s);
      if n < p {
        LengthBehindExtra(s, n);
        assert s[n..][p - n..] == s[p..];
        StartNoLater(s[n..], k - 1);
        if k > 1 { StartsAscend(s[p..], IsNewline, k - 2); }
      } else {
        StartNoLater(s[n..], k - 1);
      }
    }
  }

  /** Where a column of line `k` is: a slice does not go beyond its line. */
  function Reach(s: string, breaks: char -> bool, k: nat, col: nat): nat {
    Start(s, breaks, k) + if col < LengthAt(s, breaks, k) then col else LengthAt(s, breaks, k)
  }

  lemma FirstLineAgrees(s: string, col: nat)
    requires s != "" && col <= LineLength(s, IsNewline)
    ensures Reach(s, IsBreak, 0, col) == col <==> PlainUpTo(s, col)
  {
    var n := LineLength(s, IsBreak);
    if col <= n {
      forall i | 0 <= i < col - 1 && i < |s| ensures !IsExtraBreak(s[i]) {
        NoExtraInside(s, i);
      }
    } else {
      ExtraEndsLine(s);
    }
  }

  lemma PlainBehind(s: string, n: nat, y: nat)
    requires n <= |s| && forall i :: 0 <= i < n ==> !IsExtraBreak(s[i])
    ensures PlainUpTo(s, n + y) <==> PlainUpTo(s[n..], y)
  {
    if PlainUpTo(s[n..], y) {
      forall i | 0 <= i < n + y - 1 && i < |s| ensures !IsExtraBreak(s[i]) {
        if i >= n { assert s[i] == s[n..][i - n]; }
      }
    }
    if PlainUpTo(s, n + y) {
      assert forall i :: 0 <= i < |s| - n ==> s[n..][i] == s[n + i];
    }
  }

  ghost predicate FoundRight(s: string, k: nat, col: nat) {
    && Reach(s, IsBreak, k, col) <= Start(s, IsNewline, k) + col <= |s|
    && (Reach(s, IsBreak, k, col) == Start(s, IsNewline, k) + col <==> PlainUpTo(s, Start(s, IsNewline, k) + col))
  }

  lemma FoundBehindExtra(s: string, k: nat, col: nat)
    requires 0 < k < |ParserLines(s)| && col <= LengthAt(s, IsNewline, k)
    requires LineLength(s, IsBreak) < LineLength(s, IsNewline)
    ensures FoundRight(s, k, col)
  {
    StartNoLater(s, k);
    StartsAscend(s, IsNewline, k);
    ExtraEndsLine(s);
    var i := LineLength(s, IsBreak) - 1;
    assert i < Start(s, IsNewline, k) + col - 1 && IsExtraBreak(s[i]);
  }

  lemma FoundBehindPlain(s: string, k: nat, col: nat)
    requires 0 < k < |ParserLines(s)| && LineLength(s, IsBreak) == LineLength(s, IsNewline)
    requires FoundRight(s[LineLength(s, IsBreak)..], k - 1, col)
    ensures FoundRight(s, k, col)
  {
    var n := LineLength(s, IsBreak);
    forall i | 0 <= i < n ensures !IsExtraBreak(s[i]) {
      SameLengthPlain(s, i);
    }
    PlainBehind(s, n, Start(s[n..], IsNewline, k - 1) + col);
  }

  /** A position of the parser is found at or before its place, and there exactly when no extra break
      comes before it, but perhaps right before it. */
  lemma {:induction false} FoundIffPlain(s: string, k: nat, col: nat)
    requires k < |ParserLines(s)| && col <= LengthAt(s, IsNewline, k)
    ensures FoundRight(s, k, col)
    decreases |s|
  {
    if k == 0 {
      StartsAscend(s, IsNewline, 0);
      FirstLineAgrees(s, col);
    } else {
      BreakComesFirst(s);
      if LineLength(s, IsBreak) < LineLength(s, IsNewline) {
        FoundBehindExtra(s, k, col);
      } else {
        FoundIffPlain(s[LineLength(s, IsBreak)..], k - 1, col);
        FoundBehindPlain(s, k, col);
      }
    }
  }

  // ---------------------------------------------------------------- spans

  /** A node's span: lines count from 1, columns from 0, the end is exclusive. */
  datatype Span = Span(line: nat, col: nat, endLine: nat, endCol: nat)

  /** A Python slice, whose bounds are clamped. */
  function Slice(s: string, lo: nat, hi: nat): string {
    var to := if hi < |s| then hi else |s|;
    if lo < to then s[lo..to] else ""
  }

  predicate InLines(lines: seq<string>, s: Span) {
    1 <= s.line <= s.endLine <= |lines|
  }

  predicate ValidSpan(lines: seq<string>, s: Span) {
    && InLines(lines, s)
    && s.col <= |lines[s.line - 1]| && s.endCol <= |lines[s.endLine - 1]|
    && (s.line == s.endLine ==> s.col <= s.endCol)
  }

  /** The exact source text of a span, collected line by line. */
  function SpanText(lines: seq<string>, s: Span): string
    requires InLines(lines, s)
  {
    var first, last := lines[s.line - 1], lines[s.endLine - 1];
    if s.line == s.endLine then Slice(first, s.col, s.endCol)
    else Slice(first, s.col, |first|) + Concat(lines[s.line..s.endLine - 1]) + Slice(last, 0, s.endCol)
  }

  /** The full source with the span replaced. */
  function SpliceSpan(lines: seq<string>, s: Span, replacement: string): string
    requires InLines(lines, s)
  {
    var first, last := lines[s.line - 1], lines[s.endLine - 1];
    var before := Concat(lines[..s.line - 1]) + Slice(first, 0, s.col);
    var after := Slice(last, s.endCol, |last|) + Concat(lines[s.endLine..]);
    before + replacement + after
  }

  /** The absolute offset of a line and column. */
  function Offset(lines: seq<string>, line: nat, col: nat): nat
    requires 1 <= line <= |lines|
  {
    |Concat(lines[..line - 1])| + col
  }

  lemma {:induction false} ConcatSplit(a: seq<string>, b: seq<string>)
    ensures Concat(a + b) == Concat(a) + Concat(b)
  {
    if a == [] {
      assert a + b == b;
    } else {
      assert (a + b)[1..] == a[1..] + b;
      ConcatSplit(a[1..], b);
    }
  }

  lemma ConcatAround(lines: seq<string>, i: nat)
    requires i < |lines|
    ensures Concat(lines) == Concat(lines[..i]) + (lines[i] + Concat(lines[i + 1..]))
  {
    var tail := lines[i..];
    assert lines == lines[..i] + tail;
    ConcatSplit(lines[..i], tail);
    assert tail[0] == lines[i] && tail[1..] == lines[i + 1..];
  }

  function Before(lines: seq<string>, s: Span): string
    requires ValidSpan(lines, s)
  {
    Concat(lines[..s.line - 1]) + lines[s.line - 1][..s.col]
  }

  function After(lines: seq<string>, s: Span): string
    requires ValidSpan(lines, s)
  {
    lines[s.endLine - 1][s.endCol..] + Concat(lines[s.endLine..])
  }

  /** The source is what comes before the span, the span's text, and what comes after it. */
  lemma SourceAroundSpan(lines: seq<string>, s: Span)
    requires ValidSpan(lines, s)
    ensures Concat(lines) == Before(lines, s) + SpanText(lines, s) + After(lines, s)
    ensures |Before(lines, s)| + |SpanText(lines, s)| == Offset(lines, s.endLine, s.endCol)
  {
    if s.line == s.endLine {
      SourceAroundOneLine(lines, s);
    } else {
      SourceAroundLines(lines, s);
      SpanLength(lines, s);
    }
  }

  lemma SourceAroundOneLine(lines: seq<string>, s: Span)
    requires ValidSpan(lines, s) && s.line == s.endLine
    ensures Concat(lines) == Before(lines, s) + SpanText(lines, s) + After(lines, s)
    ensures |SpanText(lines, s)| == s.endCol - s.col
  {
    var i := s.line - 1;
    var a, line, z := Concat(lines[..i]), lines[i], Concat(lines[i + 1..]);
    ConcatAround(lines, i);
    OneLineSpan(a, line, z, s.col, s.endCol);
    assert lines[i + 1..] == lines[s.endLine..];
    assert Before(lines, s) == a + line[..s.col] && After(lines, s) == line[s.endCol..] + z;
  }

  lemma SourceAroundLines(lines: seq<string>, s: Span)
    requires ValidSpan(lines, s) && s.line < s.endLine
    ensures Concat(lines) == Before(lines, s) + SpanText(lines, s) + After(lines, s)
  {
    var a, middle, z := lines[..s.line - 1], lines[s.line..s.endLine - 1], lines[s.endLine..];
    var first, last := lines[s.line - 1], lines[s.endLine - 1];
    FiveParts(lines, s.line, s.endLine);
    LinesAround(lines, Concat(lines), a, first, middle, last, z, Concat(a), Concat(middle), Concat(z));
    PartsOf(lines, s, Concat(a), Concat(middle), Concat(z));
    SpanAmidLines(Concat(lines), Concat(a), first, Concat(middle), last, Concat(z), s.col, s.endCol,
      Before(lines, s), SpanText(lines, s), After(lines, s));
  }

  lemma PartsOf(lines: seq<string>, s: Span, a: string, middle: string, z: string)
    requires ValidSpan(lines, s) && s.line < s.endLine && a == Concat(lines[..s.line - 1])
    requires middle == Concat(lines[s.line..s.endLine - 1]) && z == Concat(lines[s.endLine..])
    ensures var first, last := lines[s.line - 1], lines[s.endLine - 1];
            && Before(lines, s) == a + first[..s.col] && After(lines, s) == last[s.endCol..] + z
            && SpanText(lines, s) == Slice(first, s.col, |first|) + middle + Slice(last, 0, s.endCol)
  {
  }

  lemma FiveParts(lines: seq<string>, i: nat, j: nat)
    requires 1 <= i < j <= |lines|
    ensures lines == lines[..i - 1] + ([lines[i - 1]] + (lines[i..j - 1] + ([lines[j - 1]] + lines[j..])))
  {
  }

  lemma LinesAround(lines: seq<string>, whole: string, before: seq<string>, first: string, middle: seq<string>, last: string,
                    after: seq<string>, a: string, m: string, z: string)
    requires lines == before + ([first] + (middle + ([last] + after)))
    requires whole == Concat(lines) && a == Concat(before) && m == Concat(middle) && z == Concat(after)
    ensures whole == a + (first + (m + (last + z)))
  {
    ConcatSplit(before, [first] + (middle + ([last] + after)));
    ConcatCons(first, middle + ([last] + after));
    ConcatSplit(middle, [last] + after);
    ConcatCons(last, after);
  }

  lemma SpanAmidLines(whole: string, a: string, first: string, middle: string, last: string, z: string, i: nat, j: nat,
                      before: string, text: string, after: string)
    requires i <= |first| && j <= |last| && whole == a + (first + (middle + (last + z)))
    requires before == a + first[..i] && after == last[j..] + z
    requires text == Slice(first, i, |first|) + middle + Slice(last, 0, j)
    ensures whole == before + text + after
  {
    MultiLineSpan(a, first, middle, last, z, i, j);
  }

  lemma SpanLength(lines: seq<string>, s: Span)
    requires ValidSpan(lines, s) && s.line < s.endLine
    ensures |Before(lines, s)| + |SpanText(lines, s)| == Offset(lines, s.endLine, s.endCol)
  {
    LinesBefore(lines, s.line - 1, s.endLine - 1);
    SplitAt(lines[s.line - 1], s.col);
    SplitAt(lines[s.endLine - 1], s.endCol);
  }

  lemma OneLineSpan(a: string, line: string, z: string, i: nat, j: nat)
    requires i <= j <= |line|
    ensures a + (line + z) == (a + line[..i]) + Slice(line, i, j) + (line[j..] + z)
  {
    assert line == line[..i] + Slice(line, i, j) + line[j..];
  }

  lemma MultiLineSpan(a: string, first: string, middle: string, last: string, z: string, i: nat, j: nat)
    requires i <= |first| && j <= |last|
    ensures a + (first + (middle + (last + z)))
         == (a + first[..i]) + (Slice(first, i, |first|) + middle + Slice(last, 0, j)) + (last[j..] + z)
  {
    SplitAt(first, i);
    SplitAt(last, j);
    Regroup(a, first[..i], first[i..], middle, last[..j], last[j..], z);
  }

  lemma SplitAt(s: string, i: nat)
    requires i <= |s|
    ensures s == s[..i] + s[i..]
    ensures Slice(s, 0, i) == s[..i] && Slice(s, i, |s|) == s[i..]
  {
  }

  lemma Regroup(a: string, f1: string, f2: string, m: string, l1: string, l2: string, z: string)
    ensures a + ((f1 + f2) + (m + ((l1 + l2) + z))) == (a + f1) + (f2 + m + l1) + (l2 + z)
  {
  }

  lemma LinesBefore(lines: seq<string>, i: nat, k: nat)
    requires i < k <= |lines|
    ensures |Concat(lines[..k])| == |Concat(lines[..i])| + |lines[i]| + |Concat(lines[i + 1..k])|
  {
    ConcatAround(lines[..k], i);
    assert lines[..k][..i] == lines[..i] && lines[..k][i + 1..] == lines[i + 1..k];
  }

  lemma SpliceParts(lines: seq<string>, s: Span, replacement: string)
    requires ValidSpan(lines, s)
    ensures SpliceSpan(lines, s, replacement) == Before(lines, s) + replacement + After(lines, s)
  {
    SplitAt(lines[s.line - 1], s.col);
    SplitAt(lines[s.endLine - 1], s.endCol);
  }

  lemma SlicesOf(before: string, text: string, after: string)
    ensures var source, a, b := before + text + after, |before|, |before| + |text|;
            source[..a] == before && source[a..b] == text && source[b..] == after
  {
  }

  /** Line-wise splicing is slicing the source at the span's two offsets. */
  lemma SpliceIsSlicing(lines: seq<string>, s: Span, replacement: string)
    requires ValidSpan(lines, s)
    ensures var source, a, b := Concat(lines), Offset(lines, s.line, s.col), Offset(lines, s.endLine, s.endCol);
            && a <= b <= |source|
            && SpanText(lines, s) == source[a..b]
            && SpliceSpan(lines, s, replacement) == source[..a] + replacement + source[b..]
  {
    SourceAroundSpan(lines, s);
    SpliceParts(lines, s, replacement);
    SlicesOf(Before(lines, s), SpanText(lines, s), After(lines, s));
  }

  /** Putting a span's own text back is the identity, on one line or across many. */
  lemma SpliceOwnText(lines: seq<string>, s: Span)
    requires ValidSpan(lines, s)
    ensures SpliceSpan(lines, s, SpanText(lines, s)) == Concat(lines)
  {
    SourceAroundSpan(lines, s);
    SpliceParts(lines, s, SpanText(lines, s));
  }

  // ---------------------------------------------------------------- the parser's spans on other lines

  /** Where a span starts and ends. */
  function From(lines: seq<string>, s: Span): nat
    requires InLines(lines, s)
  {
    Offset(lines, s.line, s.col)
  }

  function To(lines: seq<string>, s: Span): nat
    requires InLines(lines, s)
  {
    Offset(lines, s.endLine, s.endCol)
  }

  function Min(a: nat, b: nat): nat { if a < b then a else b }

  /** The span that the slices of these lines come to. */
  function Clamped(lines: seq<string>, s: Span): Span
    requires InLines(lines, s)
  {
    Span(s.line, Min(s.col, |lines[s.line - 1]|), s.endLine, Min(s.endCol, |lines[s.endLine - 1]|))
  }

  lemma SliceClamped(line: string, lo: nat, hi: nat)
    ensures Slice(line, 0, lo) == Slice(line, 0, Min(lo, |line|))
    ensures Slice(line, hi, |line|) == Slice(line, Min(hi, |line|), |line|)
  {
  }

  lemma SpliceClamped(lines: seq<string>, s: Span, replacement: string)
    requires InLines(lines, s) && (s.line == s.endLine ==> s.col <= s.endCol)
    ensures ValidSpan(lines, Clamped(lines, s))
    ensures SpliceSpan(lines, s, replacement) == SpliceSpan(lines, Clamped(lines, s), replacement)
  {
    SliceClamped(lines[s.line - 1], s.col, 0);
    SliceClamped(lines[s.endLine - 1], 0, s.endCol);
  }

  ghost predicate FoundAt(source: string, found: nat, at: nat) {
    found <= at <= |source| && (found == at <==> PlainUpTo(source, at))
  }

  /** A position of the parser, on the lines of `splitlines`: not behind its place, and there exactly
      when no extra break comes before it, but perhaps right before it. */
  lemma PositionFound(source: string, line: nat, col: nat)
    requires 1 <= line <= |ParserLines(source)| && col <= |ParserLines(source)[line - 1]|
    ensures line <= |KeptLines(source)|
    ensures var length := |KeptLines(source)[line - 1]|;
            var found, at := Offset(KeptLines(source), line, Min(col, length)), Offset(ParserLines(source), line, col);
            FoundAt(source, found, at) && (found == at ==> col <= length)
  {
    AtLeastParserLines(source);
    StartIs(source, IsBreak, line - 1);
    StartIs(source, IsNewline, line - 1);
    FoundIffPlain(source, line - 1, col);
    StartNoLater(source, line - 1);
  }

  lemma ClampedSlicing(lines: seq<string>, source: string, s: Span, replacement: string)
    requires InLines(lines, s) && (s.line == s.endLine ==> s.col <= s.endCol) && source == Concat(lines)
    ensures var from, to := From(lines, Clamped(lines, s)), To(lines, Clamped(lines, s));
            from <= to <= |source| && SpliceSpan(lines, s, replacement) == source[..from] + replacement + source[to..]
  {
    SpliceClamped(lines, s, replacement);
    SpliceIsSlicing(lines, Clamped(lines, s), replacement);
  }

  lemma SpanFound(source: string, s: Span)
    requires ValidSpan(ParserLines(source), s)
    ensures InLines(KeptLines(source), s)
    ensures FoundAt(source, From(KeptLines(source), Clamped(KeptLines(source), s)), From(ParserLines(source), s))
    ensures FoundAt(source, To(KeptLines(source), Clamped(KeptLines(source), s)), To(ParserLines(source), s))
  {
    PositionFound(source, s.line, s.col);
    PositionFound(source, s.endLine, s.endCol);
  }

  /** What the splice of a parser's span does to any source: the replacement goes where the slices of
      the `splitlines` lines come to, which starts and ends no later than the span. It starts where the
      span starts exactly when no extra break comes before that, and ends where it ends exactly when none
      comes before that, but perhaps right before. */
  lemma SpliceWhereFound(source: string, s: Span, replacement: string)
    requires ValidSpan(ParserLines(source), s)
    ensures InLines(KeptLines(source), s)
    ensures var lines := KeptLines(source);
            var from, to := From(lines, Clamped(lines, s)), To(lines, Clamped(lines, s));
            var a, b := From(ParserLines(source), s), To(ParserLines(source), s);
            && from <= to && from <= a && to <= b <= |source|
            && SpliceSpan(lines, s, replacement) == source[..from] + replacement + source[to..]
            && (from == a <==> PlainUpTo(source, a)) && (to == b <==> PlainUpTo(source, b))
  {
    SpanFound(source, s);
    KeptConcat(source, IsBreak);
    ClampedSlicing(KeptLines(source), source, s, replacement);
  }

  /** A span before which, and in which, no extra break comes is found where it is, with its text. */
  lemma PlainSpanFound(source: string, s: Span)
    requires ValidSpan(ParserLines(source), s) && PlainUpTo(source, To(ParserLines(source), s))
    ensures ValidSpan(KeptLines(source), s) && SpanText(KeptLines(source), s) == SpanText(ParserLines(source), s)
    ensures From(KeptLines(source), s) == From(ParserLines(source), s)
    ensures To(KeptLines(source), s) == To(ParserLines(source), s)
  {
    KeptConcat(source, IsNewline);
    KeptConcat(source, IsBreak);
    StartBeforeEnd(ParserLines(source), s);
    PlainSpanPlaces(source, s);
    SameOffsetsSameText(ParserLines(source), KeptLines(source), s);
  }

  lemma StartBeforeEnd(lines: seq<string>, s: Span)
    requires ValidSpan(lines, s)
    ensures From(lines, s) <= To(lines, s)
  {
    SpliceIsSlicing(lines, s, "");
  }

  lemma PlainSpanPlaces(source: string, s: Span)
    requires ValidSpan(ParserLines(source), s) && PlainUpTo(source, To(ParserLines(source), s))
    requires From(ParserLines(source), s) <= To(ParserLines(source), s)
    ensures ValidSpan(KeptLines(source), s)
    ensures From(KeptLines(source), s) == From(ParserLines(source), s)
    ensures To(KeptLines(source), s) == To(ParserLines(source), s)
  {
    PositionFound(source, s.line, s.col);
    PositionFound(source, s.endLine, s.endCol);
  }

  lemma SameOffsetsSameText(a: seq<string>, b: seq<string>, s: Span)
    requires ValidSpan(a, s) && ValidSpan(b, s) && Concat(a) == Concat(b)
    requires From(a, s) == From(b, s) && To(a, s) == To(b, s)
    ensures SpanText(a, s) == SpanText(b, s)
  {
    SpliceIsSlicing(a, s, "");
    SpliceIsSlicing(b, s, "");
  }

  // ---------------------------------------------------------------- candidates

  /** What the candidate builder looks at when it walks a function: `v = fn(...)`, and calls by
      name with what their first argument is. */
  datatype Item =
    | Assign(variable: string, fn: string)
    | Call(fn: string, span: Span, first: FirstArg)

  datatype FirstArg = NameArg(id: string, at: Span) | CallArg(inner: string, at: Span) | OtherArg

  /** The function each variable was last assigned from. */
  function AssignedFrom(items: seq<Item>): map<string, string> {
    if items == [] then map[]
    else
      var before := AssignedFrom(items[..|items| - 1]);
      var last := items[|items| - 1];
      if last.Assign? then before[last.variable := last.fn] else before
  }

  /** The text that replaces a redundant outer application, if this item is one. */
  function Replacement(lines: seq<string>, origin: map<string, string>, item: Item): Option<string>
    requires InRange(lines, item)
  {
    if !item.Call? then None
    else match item.first
      case NameArg(id, _) => if id in origin && origin[id] == item.fn then Some(id) else None
      case CallArg(inner, at) => if inner == item.fn then Some(SpanText(lines, at)) else None
      case OtherArg => None
  }

  /** The line numbers of an item exist. */
  predicate InRange(lines: seq<string>, item: Item) {
    item.Call? ==>
      InLines(lines, item.span) && (!item.first.OtherArg? ==> InLines(lines, item.first.at))
  }

  ghost predicate AllInRange(lines: seq<string>, functions: seq<seq<Item>>) {
    forall f, i :: 0 <= f < |functions| && 0 <= i < |functions[f]| ==> InRange(lines, functions[f][i])
  }

  /** One node of a well-formed tree over the parser's lines: an argument lies strictly inside its
      call, and a name's span spells the name. */
  predicate WellFormedItem(lines: seq<string>, item: Item) {
    item.Call? ==>
      && ValidSpan(lines, item.span)
      && (!item.first.OtherArg? ==>
            && ValidSpan(lines, item.first.at)
            && Offset(lines, item.span.line, item.span.col) < Offset(lines, item.first.at.line, item.first.at.col)
            && Offset(lines, item.first.at.endLine, item.first.at.endCol) <
               Offset(lines, item.span.endLine, item.span.endCol))
      && (item.first.NameArg? ==> SpanText(lines, item.first.at) == item.first.id)
  }

  ghost predicate WellFormed(lines: seq<string>, functions: seq<seq<Item>>) {
    forall f, i :: 0 <= f < |functions| && 0 <= i < |functions[f]| ==> WellFormedItem(lines, functions[f][i])
  }

  /** A variable comes from the function of its last assignment in the walk, and from none without one. */
  lemma {:induction false} LastAssignment(items: seq<Item>, variable: string, i: nat)
    requires i < |items| && items[i].Assign? && items[i].variable == variable
    requires forall j :: i < j < |items| ==> !(items[j].Assign? && items[j].variable == variable)
    ensures variable in AssignedFrom(items) && AssignedFrom(items)[variable] == items[i].fn
  {
    if i < |items| - 1 { LastAssignment(items[..|items| - 1], variable, i); }
  }

  lemma {:induction false} NeverAssigned(items: seq<Item>, variable: string)
    requires forall j :: 0 <= j < |items| ==> !(items[j].Assign? && items[j].variable == variable)
    ensures variable !in AssignedFrom(items)
  {
    if items != [] { NeverAssigned(items[..|items| - 1], variable); }
  }

  /** A call is redundant when its first argument is a variable last assigned from the same function,
      which replaces it, or a call of the same function, whose text replaces it. */
  lemma ReplacementIs(lines: seq<string>, origin: map<string, string>, item: Item)
    requires InRange(lines, item)
    ensures Replacement(lines, origin, item) ==
            if item.Call? && item.first.NameArg? && item.first.id in origin && origin[item.first.id] == item.fn
            then Some(item.first.id)
            else if item.Call? && item.first.CallArg? && item.first.inner == item.fn then Some(SpanText(lines, item.first.at))
            else None
  {
  }

  /** Each rewrite comes from a redundant call, its text replaced, and each redundant call gives one. */
  lemma {:induction false} RewriteComesFrom(lines: seq<string>, origin: map<string, string>, items: seq<Item>, c: string) returns (i: nat)
    requires forall k :: 0 <= k < |items| ==> InRange(lines, items[k])
    requires c in Rewrites(lines, origin, items)
    ensures i < |items| && Replacement(lines, origin, items[i]).Some?
    ensures c == SpliceSpan(lines, items[i].span, Replacement(lines, origin, items[i]).value)
  {
    var init := items[..|items| - 1];
    if c in Rewrites(lines, origin, init) {
      i := RewriteComesFrom(lines, origin, init, c);
    } else {
      i := |items| - 1;
    }
  }

  lemma {:induction false} RewriteIsMade(lines: seq<string>, origin: map<string, string>, items: seq<Item>, i: nat)
    requires forall k :: 0 <= k < |items| ==> InRange(lines, items[k])
    requires i < |items| && Replacement(lines, origin, items[i]).Some?
    ensures SpliceSpan(lines, items[i].span, Replacement(lines, origin, items[i]).value) in Rewrites(lines, origin, items)
  {
    if i < |items| - 1 { RewriteIsMade(lines, origin, items[..|items| - 1], i); }
  }

  /** All rewrites of one function's items, in walk order. */
  function Rewrites(lines: seq<string>, origin: map<string, string>, items: seq<Item>): seq<string>
    requires forall i :: 0 <= i < |items| ==> InRange(lines, items[i])
  {
    if items == [] then []
    else
      var before := Rewrites(lines, origin, items[..|items| - 1]);
      var last := items[|items| - 1];
      assert InRange(lines, last);
      var replacement := Replacement(lines, origin, last);
      if replacement.None? then before else before + [SpliceSpan(lines, last.span, replacement.value)]
  }

  function AllRewrites(lines: seq<string>, functions: seq<seq<Item>>): seq<string>
    requires AllInRange(lines, functions)
  {
    if functions == [] then []
    else
      var last := functions[|functions| - 1];
      AllRewrites(lines, functions[..|functions| - 1]) + Rewrites(lines, AssignedFrom(last), last)
  }

  /** The rewrites of all functions, function by function. */
  lemma AllRewritesMore(lines: seq<string>, functions: seq<seq<Item>>, items: seq<Item>)
    requires AllInRange(lines, functions + [items])
    ensures AllInRange(lines, functions) && forall i :: 0 <= i < |items| ==> InRange(lines, items[i])
    ensures AllRewrites(lines, functions + [items]) ==
            AllRewrites(lines, functions) + Rewrites(lines, AssignedFrom(items), items)
  {
    var all := functions + [items];
    assert all[..|functions|] == functions && all[|functions|] == items;
    assert forall f :: 0 <= f < |functions| ==> functions[f] == all[f];
    forall i | 0 <= i < |items| ensures InRange(lines, items[i]) {
      assert InRange(lines, all[|functions|][i]);
    }
  }

  /** The members of `raw` other than `source`, each at its first occurrence. */
  function FirstOccurrences(raw: seq<string>, source: string): seq<string> {
    if raw == [] then []
    else
      Adding(FirstOccurrences(raw[..|raw| - 1], source), source, raw[|raw| - 1])
  }

  /** The candidates with one more, unless it is the source or among them. */
  function Adding(collected: seq<string>, source: string, candidate: string): seq<string> {
    if candidate != source && candidate !in collected then collected + [candidate] else collected
  }

  lemma FirstOccurrencesSnoc(raw: seq<string>, source: string, candidate: string)
    ensures FirstOccurrences(raw + [candidate], source) == Adding(FirstOccurrences(raw, source), source, candidate)
  {
    assert (raw + [candidate])[..|raw|] == raw;
  }

  method CollectAssignments(items: seq<Item>) returns (origin: map<string, string>)
    ensures origin == AssignedFrom(items)
  {
    origin := map[];
    for i := 0 to |items|
      invariant origin == AssignedFrom(items[..i])
    {
      assert items[..i + 1][..i] == items[..i];
      if items[i].Assign? {
        origin := origin[items[i].variable := items[i].fn];
      }
    }
    assert items[..|items|] == items;
  }

  lemma RewritesSnoc(lines: seq<string>, origin: map<string, string>, earlier: seq<string>, items: seq<Item>, i: nat)
    requires i < |items| && forall k :: 0 <= k < |items| ==> InRange(lines, items[k])
    ensures var replacement := Replacement(lines, origin, items[i]);
            earlier + Rewrites(lines, origin, items[..i + 1]) ==
            if replacement.None? then earlier + Rewrites(lines, origin, items[..i])
            else (earlier + Rewrites(lines, origin, items[..i])) + [SpliceSpan(lines, items[i].span, replacement.value)]
  {
    assert items[..i + 1][..i] == items[..i];
  }

  /** One function's rewrites, added to the candidates collected so far. */
  method AddRewrites(lines: seq<string>, items: seq<Item>, ghost earlier: seq<string>, collected: seq<string>)
    returns (out: seq<string>)
    requires forall i :: 0 <= i < |items| ==> InRange(lines, items[i])
    requires collected == FirstOccurrences(earlier, Concat(lines))
    ensures out == FirstOccurrences(earlier + Rewrites(lines, AssignedFrom(items), items), Concat(lines))
  {
    var source := Concat(lines);
    var origin := CollectAssignments(items);
    var seen := Elements(collected);
    out := collected;
    ghost var raw := earlier;
    assert items[..|items|] == items;
    for i := 0 to |items|
      invariant seen == Elements(out)
      invariant raw == earlier + Rewrites(lines, origin, items[..i])
      invariant out == FirstOccurrences(raw, source)
    {
      RewritesSnoc(lines, origin, earlier, items, i);
      var replacement := Replacement(lines, origin, items[i]);
      if replacement.Some? {
        var candidate := SpliceSpan(lines, items[i].span, replacement.value);
        FirstOccurrencesSnoc(raw, source, candidate);
        raw := raw + [candidate];
        seen, out := AddCandidate(seen, out, source, candidate);
      }
    }
  }

  method AddCandidate(seen: set<string>, collected: seq<string>, source: string, candidate: string)
    returns (now: set<string>, out: seq<string>)
    requires seen == Elements(collected)
    ensures out == Adding(collected, source, candidate) && now == Elements(out)
  {
    now, out := seen, collected;
    if candidate != source && candidate !in seen {
      now, out := seen + {candidate}, collected + [candidate];
    }
  }

  /** The candidates of a source, whose items carry the parser's positions. */
  method DoubleApplicationCandidates(source: string, functions: seq<seq<Item>>) returns (out: seq<string>)
    requires AllInRange(ParserLines(source), functions)
    ensures AllInRange(KeptLines(source), functions)
    ensures out == FirstOccurrences(AllRewrites(KeptLines(source), functions), source)
  {
    var lines := KeptLines(source);
    AtLeastParserLines(source);
    KeptConcat(source, IsBreak);
    out := [];
    for f := 0 to |functions|
      invariant out == FirstOccurrences(AllRewrites(lines, functions[..f]), source)
    {
      assert functions[..f + 1][..f] == functions[..f] && functions[..f + 1][f] == functions[f];
      out := AddRewrites(lines, functions[f], AllRewrites(lines, functions[..f]), out);
    }
    assert functions[..|functions|] == functions;
  }

  /** Of two different rewrites, the one made first comes first. */
  lemma {:induction false} FirstOccurrencesOrdered(raw: seq<string>, source: string, i: nat, j: nat)
    requires i < j < |raw| && raw[i] != source && raw[j] != source && raw[i] != raw[j]
    requires (forall k :: 0 <= k < i ==> raw[k] != raw[i]) && (forall k :: 0 <= k < j ==> raw[k] != raw[j])
    ensures exists a, b :: 0 <= a < b < |FirstOccurrences(raw, source)|
                           && FirstOccurrences(raw, source)[a] == raw[i] && FirstOccurrences(raw, source)[b] == raw[j]
  {
    var init, out := raw[..|raw| - 1], FirstOccurrences(raw, source);
    if j < |raw| - 1 {
      FirstOccurrencesOrdered(init, source, i, j);
      var a, b :| 0 <= a < b < |FirstOccurrences(init, source)|
                  && FirstOccurrences(init, source)[a] == raw[i] && FirstOccurrences(init, source)[b] == raw[j];
      assert out[a] == raw[i] && out[b] == raw[j];
    } else {
      FirstOccurrencesDistinct(init, source);
      assert init[i] == raw[i] && raw[i] in Elements(init);
      assert raw[i] in Elements(FirstOccurrences(init, source));
      assert raw[j] !in init && raw[j] !in Elements(init) && raw[j] !in Elements(FirstOccurrences(init, source));
      var a :| 0 <= a < |FirstOccurrences(init, source)| && FirstOccurrences(init, source)[a] == raw[i];
      assert out[a] == raw[i] && out[|out| - 1] == raw[j];
    }
  }

  /** Each candidate once, in order of first occurrence, never the source itself. */
  lemma {:induction false} FirstOccurrencesDistinct(raw: seq<string>, source: string)
    ensures NoDup(FirstOccurrences(raw, source))
    ensures Elements(FirstOccurrences(raw, source)) == Elements(raw) - {source}
  {
    if raw != [] {
      var init, last := raw[..|raw| - 1], raw[|raw| - 1];
      FirstOccurrencesDistinct(init, source);
      var before := FirstOccurrences(init, source);
      assert raw == init + [last];
      assert (before + [last])[..|before|] == before;
      assert Elements(raw) == Elements(init) + {last};
      assert Elements(before + [last]) == Elements(before) + {last};
    }
  }

  /** Unwrapping one redundant application leaves everything outside the outer call's span as it
      was and shortens the source, which keeps plain breaks. */
  lemma UnwrapShortens(lines: seq<string>, origin: map<string, string>, item: Item)
    requires WellFormedItem(lines, item) && InRange(lines, item)
    requires item.Call? && Replacement(lines, origin, item).Some?
    ensures var source, r := Concat(lines), Replacement(lines, origin, item).value;
            var a, b := Offset(lines, item.span.line, item.span.col), Offset(lines, item.span.endLine, item.span.endCol);
            && a <= b <= |source| && |r| < b - a
            && SpliceSpan(lines, item.span, r) == source[..a] + r + source[b..]
            && (PlainBreaks(source) ==> PlainBreaks(SpliceSpan(lines, item.span, r)))
  {
    var source, r := Concat(lines), Replacement(lines, origin, item).value;
    var a, b := Offset(lines, item.span.line, item.span.col), Offset(lines, item.span.endLine, item.span.endCol);
    var c, d := Offset(lines, item.first.at.line, item.first.at.col), Offset(lines, item.first.at.endLine, item.first.at.endCol);
    SpliceIsSlicing(lines, item.span, r);
    SpliceIsSlicing(lines, item.first.at, "");
    if PlainBreaks(source) {
      ReplacedKeepsPlain(source, a, b, c, d);
    }
  }

  lemma ReplacedKeepsPlain(source: string, a: nat, b: nat, c: nat, d: nat)
    requires PlainBreaks(source) && a <= c <= d < b <= |source|
    ensures PlainBreaks(source[..a] + source[c..d] + source[b..])
  {
    var out := source[..a] + source[c..d] + source[b..];
    forall i | 0 <= i < |out| - 1 ensures !IsExtraBreak(out[i]) {
      if i < a {
        assert out[i] == source[i];
      } else if i < a + (d - c) {
        assert out[i] == source[c + (i - a)];
      } else {
        assert out[i] == source[b + (i - a - (d - c))];
      }
    }
  }

  /** What a candidate is, on lines that are the parser's. */
  ghost predicate Shortens(source: string, c: string) {
    |c| < |source| && (PlainBreaks(source) ==> PlainBreaks(c))
  }

  lemma {:induction false} RewritesShorten(lines: seq<string>, origin: map<string, string>, items: seq<Item>, c: string)
    requires forall i :: 0 <= i < |items| ==> InRange(lines, items[i])
    requires forall i :: 0 <= i < |items| && Replacement(lines, origin, items[i]).Some? ==> WellFormedItem(lines, items[i])
    requires c in Rewrites(lines, origin, items)
    ensures Shortens(Concat(lines), c)
  {
    var init, last := items[..|items| - 1], items[|items| - 1];
    var replacement := Replacement(lines, origin, last);
    if replacement.Some? {
      UnwrapShortens(lines, origin, last);
    }
    if c in Rewrites(lines, origin, init) {
      RewritesShorten(lines, origin, init, c);
    }
  }

  /** A call that is to be unwrapped, but for an extra break before its end, other than right before. */
  ghost predicate PlainIfUnwrapped(source: string, origin: map<string, string>, item: Item)
    requires WellFormedItem(ParserLines(source), item) && InRange(KeptLines(source), item)
  {
    Replacement(KeptLines(source), origin, item).Some? ==> PlainUpTo(source, To(ParserLines(source), item.span))
  }

  /** No extra break comes before the end of any call that is to be unwrapped. */
  ghost predicate PlainCalls(source: string, functions: seq<seq<Item>>)
    requires WellFormed(ParserLines(source), functions) && AllInRange(KeptLines(source), functions)
  {
    forall f, i :: 0 <= f < |functions| && 0 <= i < |functions[f]| ==>
      PlainIfUnwrapped(source, AssignedFrom(functions[f]), functions[f][i])
  }

  /** A call before whose end no extra break comes is found where the parser saw it. */
  lemma PlainItemFound(source: string, item: Item)
    requires WellFormedItem(ParserLines(source), item) && item.Call?
    requires PlainUpTo(source, To(ParserLines(source), item.span))
    ensures WellFormedItem(KeptLines(source), item) && InRange(KeptLines(source), item)
    ensures From(KeptLines(source), item.span) == From(ParserLines(source), item.span)
    ensures To(KeptLines(source), item.span) == To(ParserLines(source), item.span)
  {
    PlainSpanFound(source, item.span);
    if !item.first.OtherArg? { PlainSpanFound(source, item.first.at); }
  }

  /** Where no extra break comes before the end of a call, its candidate is the source with the call's
      span, as the parser gave it, replaced: nothing else changes, and it gets shorter. */
  lemma CandidateChangesOnlyTheCall(source: string, origin: map<string, string>, item: Item)
    requires WellFormedItem(ParserLines(source), item) && item.Call? && InRange(KeptLines(source), item)
    requires PlainUpTo(source, To(ParserLines(source), item.span))
    requires Replacement(KeptLines(source), origin, item).Some?
    ensures var r := Replacement(KeptLines(source), origin, item).value;
            var a := Offset(ParserLines(source), item.span.line, item.span.col);
            var b := Offset(ParserLines(source), item.span.endLine, item.span.endCol);
            && a <= b <= |source| && |r| < b - a
            && SpliceSpan(KeptLines(source), item.span, r) == source[..a] + r + source[b..]
  {
    PlainItemFound(source, item);
    KeptConcat(source, IsBreak);
    UnwrapShortens(KeptLines(source), origin, item);
  }

  lemma FunctionRewritesShorten(source: string, items: seq<Item>, c: string)
    requires forall i :: 0 <= i < |items| ==> InRange(KeptLines(source), items[i])
    requires forall i :: 0 <= i < |items| ==> WellFormedItem(ParserLines(source), items[i])
    requires forall i :: 0 <= i < |items| ==> PlainIfUnwrapped(source, AssignedFrom(items), items[i])
    requires c in Rewrites(KeptLines(source), AssignedFrom(items), items)
    ensures Shortens(source, c)
  {
    forall i | 0 <= i < |items| && Replacement(KeptLines(source), AssignedFrom(items), items[i]).Some?
      ensures WellFormedItem(KeptLines(source), items[i])
    {
      assert PlainIfUnwrapped(source, AssignedFrom(items), items[i]);
      PlainItemFound(source, items[i]);
    }
    KeptConcat(source, IsBreak);
    RewritesShorten(KeptLines(source), AssignedFrom(items), items, c);
  }

  /** Where no extra break comes before the end of any call to be unwrapped, every candidate is strictly
      shorter than the source; and without an extra break at all if the source has none. */
  lemma {:induction false} CandidatesShorter(source: string, functions: seq<seq<Item>>, c: string)
    requires WellFormed(ParserLines(source), functions) && AllInRange(KeptLines(source), functions)
    requires PlainCalls(source, functions) && c in AllRewrites(KeptLines(source), functions)
    ensures |c| < |source| && (PlainBreaks(source) ==> PlainBreaks(c))
    decreases |functions|
  {
    var init, last := functions[..|functions| - 1], functions[|functions| - 1];
    if c in AllRewrites(KeptLines(source), init) {
      CandidatesShorter(source, init, c);
    } else {
      forall i | 0 <= i < |last| ensures PlainIfUnwrapped(source, AssignedFrom(last), last[i]) {
        assert PlainIfUnwrapped(source, AssignedFrom(functions[|functions| - 1]), functions[|functions| - 1][i]);
      }
      FunctionRewritesShorten(source, last, c);
    }
  }

  /** One unwrapping step: `next` is a candidate for some tree over the parser's lines. */
  ghost predicate UnwrapsBy(source: string, next: string, functions: seq<seq<Item>>) {
    && WellFormed(ParserLines(source), functions) && AllInRange(KeptLines(source), functions)
    && next in AllRewrites(KeptLines(source), functions)
  }

  ghost predicate Unwraps(source: string, next: string) {
    exists functions: seq<seq<Item>> :: UnwrapsBy(source, next, functions)
  }

  /** One without an extra break before the end of a call to be unwrapped. */
  ghost predicate UnwrapsPlainly(source: string, next: string) {
    exists functions: seq<seq<Item>> :: UnwrapsBy(source, next, functions) && PlainCalls(source, functions)
  }

  /** So repeated unwrapping of calls before whose ends no extra break comes terminates: a chain of
      candidates is no longer than its first source. */
  lemma {:induction false} UnwrappingTerminates(chain: seq<string>)
    requires chain != [] && forall i :: 0 <= i < |chain| - 1 ==> UnwrapsPlainly(chain[i], chain[i + 1])
    ensures |chain| + |chain[|chain| - 1]| <= |chain[0]| + 1
  {
    if |chain| > 1 {
      UnwrappingTerminates(chain[..|chain| - 1]);
      var source, next := chain[|chain| - 2], chain[|chain| - 1];
      assert UnwrapsPlainly(source, chain[|chain| - 2 + 1]);
      var functions: seq<seq<Item>> :| UnwrapsBy(source, next, functions) && PlainCalls(source, functions);
      CandidatesShorter(source, functions, next);
    }
  }

  /** A source without extra breaks has none before any call, and no candidate brings one in. */
  lemma PlainUnwraps(source: string, next: string)
    requires PlainBreaks(source) && Unwraps(source, next)
    ensures UnwrapsPlainly(source, next) && PlainBreaks(next)
  {
    var functions: seq<seq<Item>> :| UnwrapsBy(source, next, functions);
    forall f, i | 0 <= f < |functions| && 0 <= i < |functions[f]|
      ensures PlainIfUnwrapped(source, AssignedFrom(functions[f]), functions[f][i])
    {
      var item := functions[f][i];
      assert InRange(KeptLines(source), item) && WellFormedItem(ParserLines(source), item);
      if Replacement(KeptLines(source), AssignedFrom(functions[f]), item).Some? {
        SpanFound(source, item.span);
      }
    }
    CandidatesShorter(source, functions, next);
  }

  /** Repeated unwrapping of a source without extra breaks terminates, whatever is unwrapped. */
  lemma {:induction false} PlainUnwrappingTerminates(chain: seq<string>)
    requires chain != [] && PlainBreaks(chain[0])
    requires forall i :: 0 <= i < |chain| - 1 ==> Unwraps(chain[i], chain[i + 1])
    ensures |chain| + |chain[|chain| - 1]| <= |chain[0]| + 1
    ensures PlainBreaks(chain[|chain| - 1])
  {
    if |chain| > 1 {
      PlainUnwrappingTerminates(chain[..|chain| - 1]);
      var source, next := chain[|chain| - 2], chain[|chain| - 1];
      assert Unwraps(source, chain[|chain| - 2 + 1]);
      PlainUnwraps(source, next);
      UnwrappingTerminates([source, next]);
    }
  }

  // ---------------------------------------------------------------- a source with extra breaks

  /** A line as `KeptBy` cuts it: its only break is its last character. */
  predicate IsLine(line: string, breaks: char -> bool) {
    && line != "" && breaks(line[|line| - 1]) && '\r' !in line
    && forall i :: 0 <= i < |line| - 1 ==> !breaks(line[i])
  }

  lemma {:induction false} LengthOfLine(line: string, rest: string, breaks: char -> bool)
    requires IsLine(line, breaks)
    ensures LineLength(line + rest, breaks) == |line|
  {
    if |line| > 1 {
      assert (line + rest)[1..] == line[1..] + rest;
      LengthOfLine(line[1..], rest, breaks);
    }
  }

  predicate AllLines(lines: seq<string>, breaks: char -> bool) {
    forall i :: 0 <= i < |lines| ==> IsLine(lines[i], breaks)
  }

  lemma {:induction false} LinesOfConcat(lines: seq<string>, breaks: char -> bool)
    requires AllLines(lines, breaks)
    ensures KeptBy(Concat(lines), breaks) == lines
  {
    if lines != [] {
      LengthOfLine(lines[0], Concat(lines[1..]), breaks);
      assert Concat(lines)[|lines[0]|..] == Concat(lines[1..]);
      LinesOfConcat(lines[1..], breaks);
    }
  }

  lemma PlainLine(body: string)
    requires forall i :: 0 <= i < |body| ==> ' ' <= body[i] <= '~'
    ensures IsLine(body + "\n", IsNewline) && IsLine(body + "\n", IsBreak)
  {
  }

  /** Breaking one line of a text in three leaves the text. */
  lemma SameText(before: seq<string>, x: string, y: string, z: string, after: seq<string>)
    ensures Concat(before + ([x + y + z] + after)) == Concat(before + ([x] + ([y] + ([z] + after))))
  {
    ConcatSplit(before, [x + y + z] + after);
    ConcatSplit(before, [x] + ([y] + ([z] + after)));
    ConcatCons(x + y + z, after);
    ConcatCons(x, [y] + ([z] + after));
    ConcatCons(y, [z] + after);
    ConcatCons(z, after);
  }

  lemma ClampedSlices(line: string, lo: nat, hi: nat)
    requires |line| <= lo <= hi
    ensures Slice(line, 0, lo) == line && Slice(line, hi, |line|) == ""
  {
  }

  lemma ConcatPrefix(lines: seq<string>, k: nat)
    requires k < |lines|
    ensures Concat(lines[..k + 1]) == Concat(lines[..k]) + lines[k]
    ensures |Concat(lines)| == |Concat(lines[..k + 1])| + |Concat(lines[k + 1..])|
  {
    ConcatSplit(lines[..k], [lines[k]]);
    ConcatCons(lines[k], []);
    assert [lines[k]] + [] == [lines[k]] && lines[..k + 1] == lines[..k] + [lines[k]];
    ConcatSplit(lines[..k + 1], lines[k + 1..]);
    assert lines == lines[..k + 1] + lines[k + 1..];
  }

  /** A span whose line number means a line that ends before the span's column: the replacement is
      inserted behind that line, and nothing is removed. */
  lemma InsertedBehind(lines: seq<string>, s: Span, replacement: string)
    requires InLines(lines, s) && s.line == s.endLine && |lines[s.line - 1]| <= s.col <= s.endCol
    ensures SpliceSpan(lines, s, replacement) == Concat(lines[..s.line]) + replacement + Concat(lines[s.line..])
    ensures |SpliceSpan(lines, s, replacement)| == |Concat(lines)| + |replacement|
  {
    ConcatPrefix(lines, s.line - 1);
    ClampedSlices(lines[s.line - 1], s.col, s.endCol);
    assert "" + Concat(lines[s.line..]) == Concat(lines[s.line..]);
  }

  const PARSED := ["def f(x):\n", "    return x\n", "# \U{C}\U{C}\n", "def g(y):\n",
                   "    v = f(y)\n", "    return f(v)\n"]

  const KEPT := ["def f(x):\n", "    return x\n", "# \U{C}", "\U{C}", "\n", "def g(y):\n",
                 "    v = f(y)\n", "    return f(v)\n"]

  lemma OneExtraLine(parsed: seq<string>, kept: seq<string>)
    requires |parsed| == 6 && |kept| == 8 && kept[..2] == parsed[..2] && kept[5..] == parsed[3..]
    requires parsed[2] == kept[2] + kept[3] + kept[4]
    ensures Concat(parsed) == Concat(kept)
  {
    SameText(parsed[..2], kept[2], kept[3], kept[4], parsed[3..]);
    assert parsed == parsed[..2] + ([parsed[2]] + parsed[3..]);
    assert kept == kept[..2] + ([kept[2]] + ([kept[3]] + ([kept[4]] + kept[5..])));
  }

  lemma CallOnShiftedLines(parsed: seq<string>, kept: seq<string>, call: Item)
    requires |parsed| == 6 && |kept| == 8 && |parsed[5]| == 16 && |kept[5]| == 10
    requires parsed[5][13..14] == "v"
    requires call == Call("f", Span(6, 11, 6, 15), NameArg("v", Span(6, 13, 6, 14)))
    ensures WellFormedItem(parsed, call) && InRange(kept, call)
    ensures SpliceSpan(kept, call.span, "v") == Concat(kept[..6]) + "v" + Concat(kept[6..])
    ensures |SpliceSpan(kept, call.span, "v")| == |Concat(kept)| + 1
  {
    InsertedBehind(kept, call.span, "v");
  }

  /** Two form feeds in one line: the parser's lines and those of `splitlines`. */
  ghost predicate TwoExtraLines(parsed: seq<string>, kept: seq<string>) {
    && |parsed| == 6 && |kept| == 8 && kept[..2] == parsed[..2] && kept[5..] == parsed[3..]
    && parsed[2] == kept[2] + kept[3] + kept[4]
    && AllLines(parsed, IsNewline) && AllLines(kept, IsBreak)
    && |parsed[5]| == 16 && |kept[5]| == 10 && parsed[5][13..14] == "v"
  }

  lemma PlainLineAt(lines: seq<string>, i: nat)
    requires i < |lines| && lines[i] != "" && lines[i][|lines[i]| - 1] == '\n'
    requires forall k :: 0 <= k < |lines[i]| - 1 ==> ' ' <= lines[i][k] <= '~'
    ensures IsLine(lines[i], IsNewline) && IsLine(lines[i], IsBreak)
  {
    PlainLine(lines[i][..|lines[i]| - 1]);
    assert lines[i] == lines[i][..|lines[i]| - 1] + "\n";
  }

  lemma ParsedLines()
    ensures AllLines(PARSED, IsNewline)
  {
    PlainLineAt(PARSED, 0);
    PlainLineAt(PARSED, 1);
    PlainLineAt(PARSED, 3);
    PlainLineAt(PARSED, 4);
    PlainLineAt(PARSED, 5);
  }

  lemma SplitLines()
    ensures AllLines(KEPT, IsBreak)
  {
    PlainLineAt(KEPT, 0);
    PlainLineAt(KEPT, 1);
    PlainLineAt(KEPT, 4);
    PlainLineAt(KEPT, 5);
    PlainLineAt(KEPT, 6);
    PlainLineAt(KEPT, 7);
  }

  /** A comment with two form feeds before a function. */
  lemma FormFeedComment()
    ensures TwoExtraLines(PARSED, KEPT)
  {
    ParsedLines();
    SplitLines();
  }

  /** Such lines put the positions of the calls behind them two lines off: the candidate for
      `return f(v)` inserts `v` behind `def g(y):` and is longer than the source. */
  lemma FormFeedsMisplaceTheSplice(parsed: seq<string>, kept: seq<string>, call: Item)
    requires TwoExtraLines(parsed, kept)
    requires call == Call("f", Span(6, 11, 6, 15), NameArg("v", Span(6, 13, 6, 14)))
    ensures ParserLines(Concat(parsed)) == parsed && KeptLines(Concat(parsed)) == kept
    ensures WellFormedItem(parsed, call) && InRange(kept, call)
    ensures Replacement(kept, map["v" := "f"], call) == Some("v")
    ensures SpliceSpan(kept, call.span, "v") == Concat(kept[..6]) + "v" + Concat(kept[6..])
    ensures |SpliceSpan(kept, call.span, "v")| == |Concat(parsed)| + 1
  {
    OneExtraLine(parsed, kept);
    LinesOfConcat(parsed, IsNewline);
    LinesOfConcat(kept, IsBreak);
    CallOnShiftedLines(parsed, kept, call);
  }
}
