/** The two regular-expression splits of the chunker: paragraphs at blank lines, sentences after a full stop. */
module TextSplit {
  import opened Prelude
  import opened Text

  /** Where the run of whitespace starting at `i` ends. */
  function SpaceRun(s: string, i: nat): (e: nat)
    requires i <= |s|
    ensures i <= e <= |s| && AllSpace(s[i..e]) && (e > i ==> IsSpace(s[e-1]))
    decreases |s| - i
  {
    if i < |s| && IsSpace(s[i]) then
      var e := SpaceRun(s, i + 1);
      assert s[i..e] == [s[i]] + s[i+1..e];
      e
    else i
  }

  function LastFeed(s: string, lo: nat, hi: nat): (r: Option<nat>)
    requires lo <= hi <= |s|
    ensures r.Some? ==> lo <= r.value < hi && s[r.value] == '\n'
    ensures r.None? ==> forall j | lo <= j < hi :: s[j] != '\n'
  {
    if lo == hi then None else if s[hi-1] == '\n' then Some(hi - 1) else LastFeed(s, lo, hi - 1)
  }

  /** A paragraph break: two line feeds with nothing but whitespace between them, as long as possible. */
  function BreakAt(s: string, i: nat): (r: Option<nat>)
    requires i < |s|
    ensures r.Some? ==> i < r.value < |s| && AllSpace(s[i..r.value+1]) && s[i] == s[r.value] == '\n'
  {
    if s[i] != '\n' then None
    else
      var e := SpaceRun(s, i + 1);
      var r := LastFeed(s, i + 1, e);
      assert s[i..e] == ['\n'] + s[i+1..e] && AllSpace(s[i..e]);
      assert r.Some? ==> s[i..r.value+1] == s[i..e][..r.value+1-i];
      r
  }

  /** The first break at or after `i`. */
  function FirstBreak(s: string, i: nat): (r: Option<(nat, nat)>)
    requires i <= |s|
    ensures r.Some? ==>
              && i <= r.value.0 < r.value.1 < |s| && AllSpace(s[r.value.0..r.value.1+1])
              && s[r.value.0] == s[r.value.1] == '\n'
    ensures forall k | i <= k < (if r.Some? then r.value.0 else |s|) :: BreakAt(s, k).None?
    decreases |s| - i
  {
    if i == |s| then None
    else if BreakAt(s, i).Some? then Some((i, BreakAt(s, i).value))
    else FirstBreak(s, i + 1)
  }

  /** The split on blank lines. */
  function RawParagraphs(s: string): seq<string>
    decreases |s|
  {
    match FirstBreak(s, 0)
    case None => [s]
    case Some((i, j)) => [s[..i]] + RawParagraphs(s[j+1..])
  }

  /** The stripped paragraphs, without the blank ones. */
  function Paragraphs(s: string): seq<string> { Tidy(RawParagraphs(s)) }

  lemma {:induction false} VisibleOfRaw(s: string)
    ensures VisibleOfAll(RawParagraphs(s)) == Visible(s)
    decreases |s|
  {
    hide Visible, FirstBreak, AllSpace;
    if FirstBreak(s, 0).Some? {
      var (i, j) := FirstBreak(s, 0).value;
      VisibleOfRaw(s[j+1..]);
      VisibleThreeParts(s, i, j + 1);
    } else {
      EmptyIsBlank();
      VisibleOfSpace("");
      assert Visible(s) + "" == Visible(s);
    }
  }

  lemma {:induction false} VisibleOfTidied(lines: seq<string>)
    ensures VisibleOfAll(Tidy(lines)) == VisibleOfAll(lines)
    decreases |lines|
  {
    hide Strip, Visible;
    if lines != [] {
      VisibleOfTidied(lines[1..]);
      VisibleOfStrip(lines[0]);
      EmptyIsBlank();
      VisibleOfSpace("");
      if Strip(lines[0]) == "" {
        assert Tidy(lines) == Tidy(lines[1..]);
      }
    }
  }

  predicate Solid(p: string) { p != "" && Stripped(p) }

  predicate AllSolid(ps: seq<string>) { forall k | 0 <= k < |ps| :: Solid(ps[k]) }

  lemma {:induction false} TidyIsSolid(lines: seq<string>)
    ensures AllSolid(Tidy(lines))
    decreases |lines|
  {
    hide Strip, Stripped;
    if lines != [] {
      StripSplits(lines[0]);
      TidyIsSolid(lines[1..]);
    }
  }

  /** Splitting into paragraphs keeps every visible character in order, and every paragraph is stripped and
      not empty. */
  lemma ParagraphsKeepVisible(s: string)
    ensures VisibleOfAll(Paragraphs(s)) == Visible(s) && AllSolid(Paragraphs(s))
  {
    VisibleOfRaw(s);
    VisibleOfTidied(RawParagraphs(s));
    TidyIsSolid(RawParagraphs(s));
  }

  // ------------------------------------------------------------------ sentences

  predicate EndsSentence(c: char) { c == '.' || c == '!' || c == '?' }

  /** The first place after the start where whitespace follows a sentence mark. */
  function SentenceEnd(s: string, i: nat): (e: nat)
    requires 1 <= i
    ensures e <= |s| && (e < |s| ==> i <= e && EndsSentence(s[e-1]) && IsSpace(s[e]))
    decreases |s| - i
  {
    if i >= |s| then |s|
    else if EndsSentence(s[i-1]) && IsSpace(s[i]) then i
    else SentenceEnd(s, i + 1)
  }

  function Sentences(s: string): seq<string>
    decreases |s|
  {
    var e := SentenceEnd(s, 1);
    if e == |s| then [s] else [s[..e]] + Sentences(s[SpaceRun(s, e)..])
  }

  lemma SpaceRunEnds(s: string, i: nat)
    requires i <= |s|
    ensures SpaceRun(s, i) < |s| ==> !IsSpace(s[SpaceRun(s, i)])
    decreases |s| - i
  {
    if i < |s| && IsSpace(s[i]) { SpaceRunEnds(s, i + 1); }
  }

  /** The sentences of a paragraph hold its visible characters in order, and each starts and ends visibly. */
  lemma {:induction false} SentencesKeepVisible(s: string)
    requires Solid(s)
    ensures VisibleOfAll(Sentences(s)) == Visible(s) && AllSolid(Sentences(s))
    decreases |s|
  {
    hide Visible, IsSpace, SpaceRun, AllSpace, SentenceEnd;
    var e := SentenceEnd(s, 1);
    if e < |s| {
      var r := SpaceRun(s, e);
      SpaceRunEnds(s, e);
      MarksAreVisible(s[e-1]);
      assert Solid(s[r..]);
      SentencesKeepVisible(s[r..]);
      VisibleThreeParts(s, e, r);
      assert Sentences(s) == [s[..e]] + Sentences(s[r..]);
      assert Sentences(s)[1..] == Sentences(s[r..]);
    } else {
      EmptyIsBlank();
      VisibleOfSpace("");
      assert Visible(s) + "" == Visible(s);
    }
  }

  lemma MarksAreVisible(c: char)
    ensures EndsSentence(c) ==> !IsSpace(c)
  {
  }
}
