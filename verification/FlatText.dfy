/** What the prompt parser makes of a body: its lines, stripped, on one line. Words, the order of words and the
    spacing inside a line all stay. */
module FlatText {
  import opened Text
  import opened PromptText
  import opened PromptRoundTrip
  import TextSplit

  // ------------------------------------------------------------------ lines

  /** `parts` are the pieces between line breaks, and `gaps` the breaks. */
  ghost predicate CutAtBreaks(s: string, parts: seq<string>, gaps: seq<string>) {
    && (|gaps| == |parts| || |gaps| + 1 == |parts|)
    && s == Interleaved(parts, gaps)
    && (forall k | 0 <= k < |parts| :: NoBreaks(parts[k]))
    && (forall k | 0 <= k < |gaps| :: gaps[k] == "\r\n" || (|gaps[k]| == 1 && IsLineBreak(gaps[k][0])))
  }

  /** The lines of a text are what stands between its line breaks. */
  lemma {:induction false} LinesAreCut(s: string) returns (gaps: seq<string>)
    ensures CutAtBreaks(s, Lines(s), gaps)
    decreases |s|
  {
    hide IsLineBreak, LineLength, NextLine, NoBreaks, Interleaved;
    gaps := [];
    LineLengthSplits(s);
    var n := LineLength(s);
    if s != "" && n < |s| {
      var m := NextLine(s, n);
      var rest := LinesAreCut(s[m..]);
      gaps := [s[n..m]] + rest;
      assert s == s[..n] + (s[n..m] + s[m..]);
      BreakIs(s, n);
      OneMoreLine(s[..n], s[n..m], s[m..], Lines(s[m..]), rest);
    } else {
      assert s[..|s|] == s;
      LastLine(s);
    }
  }

  lemma BreakIs(s: string, n: nat)
    requires n < |s| && IsLineBreak(s[n])
    ensures var gap := s[n..NextLine(s, n)]; gap == "\r\n" || (|gap| == 1 && IsLineBreak(gap[0]))
  {
  }

  lemma LastLine(s: string)
    requires NoBreaks(s)
    ensures CutAtBreaks(s, if s == "" then [] else [s], [])
  {
  }

  lemma OneMoreLine(line: string, gap: string, rest: string, parts: seq<string>, gaps: seq<string>)
    requires CutAtBreaks(rest, parts, gaps) && NoBreaks(line)
    requires gap == "\r\n" || (|gap| == 1 && IsLineBreak(gap[0]))
    ensures CutAtBreaks(line + (gap + rest), [line] + parts, [gap] + gaps)
  {
    hide NoBreaks, IsLineBreak;
    assert ([line] + parts)[1..] == parts && ([gap] + gaps)[1..] == gaps;
  }

  lemma BreakIsNotEmpty(s: string, n: nat)
    requires n < |s| && IsLineBreak(s[n])
    ensures n < NextLine(s, n) && AllSpace(s[n..NextLine(s, n)])
  {
    BreakIsSpace(s, n);
  }

  lemma {:induction false} LinesKeepWords(s: string)
    ensures WordsOfAll(Lines(s)) == Words(s)
    decreases |s|
  {
    hide Words, IsLineBreak, NextLine, LineLength, AllSpace;
    EmptyIsBlank();
    WordsOfSpace("");
    LineLengthSplits(s);
    var n := LineLength(s);
    if s != "" && n < |s| {
      BreakIsNotEmpty(s, n);
      LinesKeepWords(s[NextLine(s, n)..]);
      WordsThreeParts(s, n, NextLine(s, n));
    }
  }

  // ------------------------------------------------------------------ words

  lemma {:induction false} TidyKeepsWords(lines: seq<string>)
    ensures Words(JoinWith(Tidy(lines), " ")) == WordsOfAll(lines)
    decreases |lines|
  {
    hide Words, Strip, JoinWith, AllSpace;
    EmptyIsBlank();
    WordsOfSpace("");
    EmptyJoin();
    if lines != [] {
      var first, rest := Strip(lines[0]), Tidy(lines[1..]);
      TidyKeepsWords(lines[1..]);
      WordsOfStrip(lines[0]);
      JoinCons(first, rest, " ");
      if first == "" {
        assert Tidy(lines) == rest;
      } else {
        LineFeedIsSpace();
        WordsAround(first, " ", JoinWith(rest, " "));
        Assoc3(first, " ", JoinWith(rest, " "));
        assert Words(first) + [] == Words(first);
      }
    }
  }

  /** Flattening keeps the words of a text and their order. */
  lemma FlatKeepsWords(s: string)
    ensures Words(Flat(s)) == Words(s)
  {
    LinesKeepWords(s);
    TidyKeepsWords(Lines(s));
  }

  // ------------------------------------------------------------------ what a flattened text looks like

  ghost predicate PlainLines(ls: seq<string>) { forall k | 0 <= k < |ls| :: TextSplit.Solid(ls[k]) && NoBreaks(ls[k]) }

  lemma {:induction false} LineLengthOfPlain(s: string)
    requires NoBreaks(s)
    ensures LineLength(s) == |s|
    decreases |s|
  {
    if s != "" { LineLengthOfPlain(s[1..]); }
  }

  lemma {:induction false} LinesOfJoin(ls: seq<string>)
    requires PlainLines(ls)
    ensures Lines(JoinWith(ls, "\n")) == ls
    decreases |ls|
  {
    hide IsLineBreak, IsSpace;
    if |ls| == 1 {
      LineLengthOfPlain(ls[0]);
    } else if |ls| > 1 {
      LinesOfJoin(ls[1..]);
      Assoc3(ls[0], "\n", JoinWith(ls[1..], "\n"));
      LinesOfHeaded(ls[0], JoinWith(ls[1..], "\n"));
    }
  }

  lemma {:induction false} TidyOfPlain(ls: seq<string>)
    requires PlainLines(ls)
    ensures Tidy(ls) == ls
    decreases |ls|
  {
    hide Strip, NoBreaks, IsSpace;
    if ls != [] {
      StripOfStripped(ls[0]);
      TidyOfPlain(ls[1..]);
    }
  }

  /** Stripped lines come back joined by single spaces, each as it was, blanks inside included. */
  lemma FlatOfLines(ls: seq<string>)
    requires PlainLines(ls)
    ensures Flat(JoinWith(ls, "\n")) == JoinWith(ls, " ")
  {
    LinesOfJoin(ls);
    TidyOfPlain(ls);
  }

  /** A stripped text on one line is left alone. */
  lemma FlatOfOneLine(s: string)
    requires TextSplit.Solid(s) && NoBreaks(s)
    ensures Flat(s) == s
  {
    FlatOfLines([s]);
  }

  /** A section's header line and the lines under it, read back as they were. */
  lemma SectionIsReadBack(h: Hit, ls: seq<string>)
    requires IdOk(h.id) && NoBreaks(h.title) && ls != [] && PlainLines(ls)
    ensures ParseSection(Head(h) + ("\n" + JoinWith(ls, "\n"))) == [Chunk(h.id, Strip(h.title), JoinWith(ls, " "))]
  {
    hide IsSpace, ParseSection, Flat, Strip;
    var body := JoinWith(ls, "\n");
    JoinIsVisible(ls);
    HeadedSection(h, body);
    StripOfStripped(body);
    FlatOfLines(ls);
  }

  /** A header without a body gives no chunk. */
  lemma HeaderAloneGivesNothing(h: Hit)
    requires IdOk(h.id) && NoBreaks(h.title)
    ensures ParseSection(Head(h)) == []
  {
    hide Strip, LStrip, ParseHeader, IsSpace, Head;
    HeadHasNoBreaks(h);
    StripSplits(Head(h));
    var line := Strip(Head(h));
    var i := |Head(h)| - |LStrip(Head(h))|;
    assert line == Head(h)[i..i+|line|];
    forall k | 0 <= k < |line| ensures !IsLineBreak(line[k]) { assert line[k] == Head(h)[i+k]; }
    LineLengthOfPlain(line);
    assert Lines(line) == if line == "" then [] else [line];
    assert Tidy([]) == [] && JoinWith([], " ") == "";
  }

  /** A section whose first line is no header gives no chunk. */
  lemma WithoutHeaderNothing(line: string, ls: seq<string>)
    requires TextSplit.Solid(line) && NoBreaks(line) && line[0] != '[' && ls != [] && PlainLines(ls)
    ensures ParseSection(line + ("\n" + JoinWith(ls, "\n"))) == []
  {
    hide Strip, IsSpace, IsLineBreak;
    var body := JoinWith(ls, "\n");
    JoinIsVisible(ls);
    var section := line + ("\n" + body);
    assert section[0] == line[0] && section[|section|-1] == body[|body|-1];
    StripOfStripped(section);
    StripOfStripped(line);
    LinesOfHeaded(line, body);
  }

  lemma {:induction false} JoinIsVisible(ls: seq<string>)
    requires ls != [] && PlainLines(ls)
    ensures TextSplit.Solid(JoinWith(ls, "\n")) && !IsSpace(JoinWith(ls, "\n")[0])
    decreases |ls|
  {
    hide IsSpace, IsLineBreak;
    if |ls| > 1 { JoinIsVisible(ls[1..]); }
  }
}
