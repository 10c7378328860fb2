/** Python's text operations, as the components share them: lines, whitespace, substrings, tails. */
module PyText {
  import opened Options

  /** The characters at which `splitlines` breaks. */
  predicate IsBreak(c: char) {
    var i := c as int;
    10 <= i <= 13 || 28 <= i <= 30 || i == 0x85 || i == 0x2028 || i == 0x2029
  }

  /** The characters `strip` removes. */
  predicate IsSpace(c: char) {
    var i := c as int;
    9 <= i <= 13 || 28 <= i <= 32 || i == 0x85 || i == 0xA0 || i == 0x1680 || 0x2000 <= i <= 0x200A ||
    i == 0x2028 || i == 0x2029 || i == 0x202F || i == 0x205F || i == 0x3000
  }

  /** Both, one by one: the line ends and separators, and besides the blanks. */
  lemma CharsAre(c: char)
    ensures IsBreak(c) <==> c in "\n\r\U{B}\U{C}\U{1C}\U{1D}\U{1E}\U{85}\U{2028}\U{2029}"
    ensures IsSpace(c) <==>
              || IsBreak(c) || c in "\t \U{1F}\U{A0}\U{1680}\U{202F}\U{205F}\U{3000}"
              || c in "\U{2000}\U{2001}\U{2002}\U{2003}\U{2004}\U{2005}\U{2006}\U{2007}\U{2008}\U{2009}\U{200A}"
  {
  }

  predicate OneLine(s: string) {
    forall i :: 0 <= i < |s| ==> !IsBreak(s[i])
  }

  predicate OccursAt(text: string, part: string, i: nat) {
    i + |part| <= |text| && text[i..i + |part|] == part
  }

  predicate Contains(text: string, part: string) {
    exists i :: 0 <= i <= |text| && OccursAt(text, part, i)
  }

  /** A text contains what has something before it and something behind it. */
  lemma ContainsIs(text: string, part: string, before: string, after: string)
    requires text == before + part + after
    ensures Contains(text, part)
  {
    assert text[|before|..|before| + |part|] == part;
    assert OccursAt(text, part, |before|);
  }

  lemma ContainedWhere(text: string, part: string) returns (before: string, after: string)
    requires Contains(text, part)
    ensures text == before + part + after
  {
    var i :| 0 <= i <= |text| && OccursAt(text, part, i);
    before, after := text[..i], text[i + |part|..];
    assert text == text[..i] + text[i..i + |part|] + text[i + |part|..];
  }

  /** The part of a text that is read back: all of it, or its last `limit` characters. */
  function Tail(s: string, limit: nat): string {
    if |s| <= limit then s else s[|s| - limit..]
  }

  /** What a line holds between a prefix and a suffix, if it starts and ends with them. */
  function Between(line: string, prefix: string, suffix: string): Option<string> {
    if |prefix| + |suffix| <= |line| && prefix <= line && line[|line| - |suffix|..] == suffix
    then Some(line[|prefix|..|line| - |suffix|]) else None
  }

  lemma AroundBetween(line: string, prefix: string, body: string, suffix: string)
    requires Between(line, prefix, suffix) == Some(body)
    ensures line == prefix + body + suffix
  {
  }

  lemma BetweenOf(prefix: string, body: string, suffix: string)
    ensures Between(prefix + body + suffix, prefix, suffix) == Some(body)
  {
    var line := prefix + body + suffix;
    assert line[|line| - |suffix|..] == suffix && line[|prefix|..|line| - |suffix|] == body;
  }

  // ---------------------------------------------------------------- lines

  function FirstBreak(s: string): (i: nat)
    ensures i <= |s|
  {
    if s == "" || IsBreak(s[0]) then 0 else 1 + FirstBreak(s[1..])
  }

  lemma {:induction false} FirstBreakIs(s: string)
    ensures OneLine(s[..FirstBreak(s)])
    ensures FirstBreak(s) < |s| ==> IsBreak(s[FirstBreak(s)])
  {
    if s != "" && !IsBreak(s[0]) {
      FirstBreakIs(s[1..]);
      var i := FirstBreak(s[1..]);
      assert s[..i + 1] == [s[0]] + s[1..][..i];
    }
  }

  function AfterFirstLine(s: string): (rest: string)
    ensures s != "" ==> |rest| < |s|
  {
    if FirstBreak(s) < |s| then s[FirstBreak(s) + 1..] else ""
  }

  /** The lines of a text, without their breaks. (A `\r\n` leaves an empty line between its two
      characters; reading a file has already made it one line feed.) */
  function Lines(s: string): seq<string>
    decreases |s|
  {
    if s == "" then [] else [s[..FirstBreak(s)]] + Lines(AfterFirstLine(s))
  }

  /** A text of whole lines: nothing is left open at its end. */
  predicate WholeLines(s: string) { s == "" || IsBreak(s[|s| - 1]) }

  lemma {:induction false} FirstBreakOfConcat(a: string, b: string)
    requires FirstBreak(a) < |a|
    ensures FirstBreak(a + b) == FirstBreak(a)
  {
    if !IsBreak(a[0]) {
      assert (a + b)[1..] == a[1..] + b;
      FirstBreakOfConcat(a[1..], b);
    }
  }

  lemma {:induction false} SomeBreak(s: string, i: nat)
    requires i < |s| && IsBreak(s[i])
    ensures FirstBreak(s) <= i
  {
    if !IsBreak(s[0]) {
      SomeBreak(s[1..], i - 1);
    }
  }

  /** The first line of a text of whole lines is that of every longer text. */
  lemma FirstLineOfConcat(a: string, b: string)
    requires a != "" && WholeLines(a)
    ensures (a + b)[..FirstBreak(a + b)] == a[..FirstBreak(a)]
    ensures AfterFirstLine(a + b) == AfterFirstLine(a) + b && WholeLines(AfterFirstLine(a))
  {
    SomeBreak(a, |a| - 1);
    FirstBreakOfConcat(a, b);
  }

  lemma ConsConcat(line: string, a: seq<string>, b: seq<string>)
    ensures [line] + (a + b) == ([line] + a) + b
  {
  }

  lemma {:induction false} LinesConcat(a: string, b: string)
    requires WholeLines(a)
    ensures Lines(a + b) == Lines(a) + Lines(b)
    decreases |a|
  {
    if a == "" {
      assert a + b == b;
    } else {
      FirstLineOfConcat(a, b);
      LinesConcat(AfterFirstLine(a), b);
      ConsConcat(a[..FirstBreak(a)], Lines(AfterFirstLine(a)), Lines(b));
    }
  }

  /** Lines contain no breaks and are no longer than the text, shorter if it ends in a break. */
  lemma {:induction false} LinesAreLines(s: string, line: string)
    requires line in Lines(s)
    ensures OneLine(line) && |line| <= |s|
    ensures IsBreak(s[|s| - 1]) ==> |line| < |s|
    decreases |s|
  {
    FirstBreakIs(s);
    var rest := AfterFirstLine(s);
    if line in Lines(rest) {
      LinesAreLines(rest, line);
    } else {
      assert line == s[..FirstBreak(s)];
    }
  }

  lemma {:induction false} FirstBreakAtEnd(line: string)
    requires OneLine(line)
    ensures FirstBreak(line + "\n") == |line|
  {
    var s := line + "\n";
    if line != "" {
      assert s[1..] == line[1..] + "\n";
      assert !IsBreak(line[0]) && OneLine(line[1..]);
      FirstBreakAtEnd(line[1..]);
    }
  }

  lemma SingleLine(line: string)
    requires OneLine(line)
    ensures Lines(line + "\n") == [line]
  {
    FirstBreakAtEnd(line);
    assert (line + "\n")[..|line|] == line && AfterFirstLine(line + "\n") == "";
  }

  // ---------------------------------------------------------------- whitespace

  function StripLeft(s: string): string {
    if s == "" || !IsSpace(s[0]) then s else StripLeft(s[1..])
  }

  function StripRight(s: string): string {
    if s == "" || !IsSpace(s[|s| - 1]) then s else StripRight(s[..|s| - 1])
  }

  function Strip(s: string): string {
    StripRight(StripLeft(s))
  }

  lemma StripKeeps(s: string)
    requires s != "" && !IsSpace(s[0]) && !IsSpace(s[|s| - 1])
    ensures Strip(s) == s
  {
  }

  /** Whitespace on either side is stripped, up to what neither starts nor ends in it. */
  lemma StripIs(before: string, s: string, after: string)
    requires forall i :: 0 <= i < |before| ==> IsSpace(before[i])
    requires forall i :: 0 <= i < |after| ==> IsSpace(after[i])
    requires s != "" && !IsSpace(s[0]) && !IsSpace(s[|s| - 1])
    ensures Strip(before + (s + after)) == s
  {
    StripLeftSpaces(before, s + after);
    StripRightConcat(s, after);
    StripRightSpaces(after);
    assert s + "" == s;
  }

  lemma {:induction false} StripLeftSpaces(before: string, rest: string)
    requires forall i :: 0 <= i < |before| ==> IsSpace(before[i])
    ensures StripLeft(before + rest) == StripLeft(rest)
  {
    if before == "" {
      assert before + rest == rest;
    } else {
      assert (before + rest)[1..] == before[1..] + rest && (before + rest)[0] == before[0];
      StripLeftSpaces(before[1..], rest);
    }
  }

  lemma {:induction false} StripRightSpaces(after: string)
    requires forall i :: 0 <= i < |after| ==> IsSpace(after[i])
    ensures StripRight(after) == ""
  {
    if after != "" { StripRightSpaces(after[..|after| - 1]); }
  }

  lemma {:induction false} StripIsSlice(s: string)
    ensures |Strip(s)| <= |s|
    ensures OneLine(s) ==> OneLine(Strip(s))
  {
    StripLeftIsSlice(s);
    StripRightIsSlice(StripLeft(s));
  }

  lemma {:induction false} StripLeftIsSlice(s: string)
    ensures |StripLeft(s)| <= |s| && (OneLine(s) ==> OneLine(StripLeft(s)))
  {
    if s != "" { StripLeftIsSlice(s[1..]); }
  }

  lemma {:induction false} StripRightIsSlice(s: string)
    ensures |StripRight(s)| <= |s| && (OneLine(s) ==> OneLine(StripRight(s)))
    ensures |StripRight(s)| == |s| ==> StripRight(s) == s
  {
    if s != "" { StripRightIsSlice(s[..|s| - 1]); }
  }

  lemma {:induction false} StripRightConcat(a: string, b: string)
    requires a != "" && !IsSpace(a[|a| - 1])
    ensures StripRight(a + b) == a + StripRight(b)
  {
    if b == "" {
      assert a + b == a;
    } else if IsSpace(b[|b| - 1]) {
      assert (a + b)[..|a + b| - 1] == a + b[..|b| - 1];
      StripRightConcat(a, b[..|b| - 1]);
    }
  }
}
