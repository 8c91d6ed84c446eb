/** The two splits of the chunker, said without their loops: the sentences of a paragraph and the paragraphs of a
    text are the only way to cut it at the right places and nowhere else. */
module SplitTheorems {
  import opened Prelude
  import opened Text
  import opened TextSplit

  lemma InterleavedCons(first: string, gap: string, parts: seq<string>, gaps: seq<string>)
    requires parts != []
    ensures Interleaved([first] + parts, [gap] + gaps) == first + (gap + Interleaved(parts, gaps))
  {
    assert ([first] + parts)[1..] == parts && ([gap] + gaps)[1..] == gaps;
  }

  lemma InterleavedOne(first: string)
    ensures Interleaved([first], []) == first
  {
  }

  lemma InterleavedHead(parts: seq<string>, gaps: seq<string>)
    requires parts != []
    ensures |parts| == 1 && gaps == [] ==> Interleaved(parts, gaps) == parts[0]
    ensures gaps != [] ==> Interleaved(parts, gaps) == parts[0] + (gaps[0] + Interleaved(parts[1..], gaps[1..]))
  {
  }

  lemma SolidTail(parts: seq<string>)
    requires AllSolid(parts) && parts != []
    ensures AllSolid(parts[1..]) && Solid(parts[0])
  {
  }

  /** What begins with a solid part begins visibly. */
  lemma StartsVisibly(parts: seq<string>, gaps: seq<string>)
    requires parts != [] && AllSolid(parts)
    ensures Interleaved(parts, gaps) != "" && !IsSpace(Interleaved(parts, gaps)[0])
  {
  }

  /** Text that is followed by whitespace and then something visible: a solid beginning of the whole that reaches
      past the text reaches past the whitespace too. */
  lemma ReachesPastGap(s: string, a: string, gap: string, b: string, p: string, rest: string)
    requires s == a + (gap + b) && s == p + rest && AllSpace(gap) && Solid(p) && |p| > |a|
    requires b == "" || !IsSpace(b[0])
    ensures |p| > |a| + |gap| && p[..|a|+|gap|] == a + gap
  {
    hide IsSpace;
    var last := |p| - 1;
    assert s[last] == p[last] && !IsSpace(p[last]);
    forall k | |a| <= k < |a| + |gap| ensures IsSpace(s[k]) { assert s[k] == gap[k-|a|]; }
    assert p[..|a|+|gap|] == s[..|a|+|gap|];
  }

  lemma SamePrefixes(s: string, a: string, x: string, b: string, y: string)
    requires s == a + x && s == b + y && |a| == |b|
    ensures a == b && x == y
  {
    assert a == s[..|a|] && b == s[..|b|] && x == s[|a|..] && y == s[|b|..];
  }

  // ------------------------------------------------------------------ sentences

  /** No sentence mark inside is followed by whitespace. */
  predicate OneSentence(t: string) { forall i | 1 <= i < |t| :: !(EndsSentence(t[i-1]) && IsSpace(t[i])) }

  /** `ts` are pieces of `s` with whitespace between them; every piece but the last ends in a mark, and no piece has
      the end of a sentence inside. */
  ghost predicate CutIntoSentences(s: string, ts: seq<string>, gaps: seq<string>) {
    && |ts| == |gaps| + 1 && s == Interleaved(ts, gaps) && AllSolid(ts)
    && (forall k | 0 <= k < |ts| :: OneSentence(ts[k]))
    && (forall k | 0 <= k < |gaps| :: gaps[k] != "" && AllSpace(gaps[k]) && EndsSentence(ts[k][|ts[k]|-1]))
  }

  lemma {:induction false} SentenceEndIsFirst(s: string, i: nat)
    requires 1 <= i
    ensures forall k | i <= k < SentenceEnd(s, i) && k < |s| :: !(EndsSentence(s[k-1]) && IsSpace(s[k]))
    decreases |s| - i
  {
    if i < |s| && !(EndsSentence(s[i-1]) && IsSpace(s[i])) { SentenceEndIsFirst(s, i + 1); }
  }

  lemma CutCons(first: string, gap: string, ts: seq<string>, gaps: seq<string>, rest: string)
    requires CutIntoSentences(rest, ts, gaps) && Solid(first) && OneSentence(first)
    requires gap != "" && AllSpace(gap) && EndsSentence(first[|first|-1])
    ensures CutIntoSentences(first + (gap + rest), [first] + ts, [gap] + gaps)
  {
    hide OneSentence, AllSpace, Interleaved;
    InterleavedCons(first, gap, ts, gaps);
  }

  /** The split cuts the paragraph into sentences. */
  lemma {:induction false} SentencesAreCut(s: string) returns (gaps: seq<string>)
    requires Solid(s)
    ensures CutIntoSentences(s, Sentences(s), gaps)
    decreases |s|
  {
    hide IsSpace, AllSpace, SpaceRun, SentenceEnd, EndsSentence, CutIntoSentences;
    var e := SentenceEnd(s, 1);
    SentenceEndIsFirst(s, 1);
    if e < |s| {
      var r := SpaceRun(s, e);
      SpaceRunEnds(s, e);
      RunIsNotEmpty(s, e);
      MarksAreVisible(s[e-1]);
      var rest := SentencesAreCut(s[r..]);
      gaps := [s[e..r]] + rest;
      assert s == s[..e] + (s[e..r] + s[r..]);
      CutCons(s[..e], s[e..r], Sentences(s[r..]), rest, s[r..]);
    } else {
      gaps := [];
      WholeIsOneSentence(s);
    }
  }

  lemma RunIsNotEmpty(s: string, e: nat)
    requires e < |s| && IsSpace(s[e])
    ensures SpaceRun(s, e) > e
  {
  }

  lemma WholeIsOneSentence(s: string)
    requires Solid(s) && OneSentence(s)
    ensures CutIntoSentences(s, [s], [])
  {
    InterleavedOne(s);
  }

  /** Where the first piece ends: before that no sentence ends inside, and unless it is the only one it is followed
      by whitespace after a mark. */
  lemma FirstSentenceEnds(s: string, ts: seq<string>, gaps: seq<string>)
    requires CutIntoSentences(s, ts, gaps)
    ensures var n := |ts[0]|;
            && 0 < n <= |s| && ts[0] == s[..n]
            && (forall i | 1 <= i < n :: !(EndsSentence(s[i-1]) && IsSpace(s[i])))
            && (if gaps == [] then n == |s| else n < |s| && EndsSentence(s[n-1]) && IsSpace(s[n]))
  {
    hide IsSpace, EndsSentence, Interleaved;
    InterleavedHead(ts, gaps);
    var t := ts[0];
    assert t == s[..|t|];
    forall i | 1 <= i < |t| ensures !(EndsSentence(s[i-1]) && IsSpace(s[i])) {
      assert s[i-1] == t[i-1] && s[i] == t[i];
    }
    if gaps != [] {
      assert s[|t|] == gaps[0][0] && s[|t|-1] == t[|t|-1];
    }
  }

  lemma CutTail(ts: seq<string>, gaps: seq<string>, s: string)
    requires CutIntoSentences(s, ts, gaps) && gaps != []
    ensures CutIntoSentences(Interleaved(ts[1..], gaps[1..]), ts[1..], gaps[1..])
    ensures s == ts[0] + (gaps[0] + Interleaved(ts[1..], gaps[1..]))
    ensures ts[1..] != [] && AllSolid(ts[1..])
  {
    hide IsSpace, EndsSentence, OneSentence;
  }

  /** Whitespace before something visible is cut in one way only. */
  lemma SameGap(g: string, x: string, h: string, y: string)
    requires g + x == h + y && AllSpace(g) && AllSpace(h)
    requires (x != "" && !IsSpace(x[0])) && (y != "" && !IsSpace(y[0]))
    ensures g == h && x == y
  {
    hide IsSpace;
    var s := g + x;
    assert s[|g|] == x[0];
    assert s == h + y && s[|h|] == y[0];
    forall k | 0 <= k < |g| ensures IsSpace(s[k]) { assert s[k] == g[k]; }
    forall k | 0 <= k < |h| ensures IsSpace(s[k]) { assert s[k] == h[k]; }
    SamePrefixes(s, g, x, h, y);
  }

  /** There is only one way to cut a text into sentences. */
  lemma {:induction false} SentenceCutIsUnique(s: string, ts: seq<string>, gaps: seq<string>, us: seq<string>, hs: seq<string>)
    requires CutIntoSentences(s, ts, gaps) && CutIntoSentences(s, us, hs)
    ensures ts == us
    decreases |ts|
  {
    hide CutIntoSentences, IsSpace, Interleaved;
    CutMeans(s, ts, gaps);
    CutMeans(s, us, hs);
    FirstSentenceEnds(s, ts, gaps);
    FirstSentenceEnds(s, us, hs);
    assert |ts[0]| == |us[0]|;
    if gaps == [] {
      assert ts == [ts[0]] && us == [us[0]];
    } else {
      CutTail(ts, gaps, s);
      CutTail(us, hs, s);
      var x, y := Interleaved(ts[1..], gaps[1..]), Interleaved(us[1..], hs[1..]);
      SamePrefixes(s, ts[0], gaps[0] + x, us[0], hs[0] + y);
      StartsVisibly(ts[1..], gaps[1..]);
      StartsVisibly(us[1..], hs[1..]);
      SameGap(gaps[0], x, hs[0], y);
      SentenceCutIsUnique(x, ts[1..], gaps[1..], us[1..], hs[1..]);
      assert ts == [ts[0]] + ts[1..] && us == [us[0]] + us[1..];
    }
  }

  lemma CutMeans(s: string, ts: seq<string>, gaps: seq<string>)
    requires CutIntoSentences(s, ts, gaps)
    ensures |ts| == |gaps| + 1 && s == Interleaved(ts, gaps) && AllSolid(ts)
    ensures forall k | 0 <= k < |gaps| :: gaps[k] != "" && AllSpace(gaps[k])
  {
  }

  /** The sentences of a paragraph are the pieces, and the only ones, that whitespace after a sentence mark cuts it
      into: a mark before whitespace always cuts and nothing else does. */
  lemma SentencesExactly(s: string, ts: seq<string>)
    requires Solid(s)
    ensures ts == Sentences(s) <==> exists gaps :: CutIntoSentences(s, ts, gaps)
  {
    hide CutIntoSentences, Sentences;
    var own := SentencesAreCut(s);
    if gaps :| CutIntoSentences(s, ts, gaps) { SentenceCutIsUnique(s, ts, gaps, Sentences(s), own); }
  }

  // ------------------------------------------------------------------ paragraphs

  /** Two line feeds with nothing visible between them. */
  ghost predicate Breaks(s: string, i: int, j: int) {
    0 <= i < j < |s| && s[i] == '\n' && s[j] == '\n' && AllSpace(s[i..j+1])
  }

  ghost predicate OneParagraph(p: string) { forall i, j :: !Breaks(p, i, j) }

  ghost predicate IsBreak(gap: string) { AllSpace(gap) && exists i, j :: Breaks(gap, i, j) }

  /** `ps` are pieces of `s`, with paragraph breaks between them, none inside, and whitespace around them. */
  ghost predicate CutIntoParagraphs(s: string, lead: string, ps: seq<string>, gaps: seq<string>, trail: string) {
    && s == lead + (Interleaved(ps, gaps) + trail) && AllSpace(lead) && AllSpace(trail) && AllSolid(ps)
    && |ps| == (if ps == [] then |gaps| else |gaps| + 1)
    && (forall k | 0 <= k < |ps| :: OneParagraph(ps[k]))
    && (forall k | 0 <= k < |gaps| :: IsBreak(gaps[k]))
  }

  lemma SliceInside(s: string, from: nat, to: nat, i: nat, j: nat)
    requires from <= to <= |s| && i <= j <= to - from
    ensures s[from..to][i..j] == s[from+i..from+j]
  {
    var a, b := s[from..to][i..j], s[from+i..from+j];
    assert |a| == |b| && forall k | 0 <= k < |b| :: a[k] == s[from+i+k] && b[k] == s[from+i+k];
  }

  lemma BreaksInSlice(s: string, from: nat, to: nat, i: int, j: int)
    requires from <= to <= |s|
    ensures Breaks(s[from..to], i, j) ==> Breaks(s, from + i, from + j)
    ensures Breaks(s, from + i, from + j) && 0 <= i && from + j < to ==> Breaks(s[from..to], i, j)
  {
    hide AllSpace;
    if 0 <= i < j && from + j < to { SliceInside(s, from, to, i, j + 1); }
  }

  lemma {:induction false} SpaceRunReaches(s: string, i: nat, j: nat)
    requires i <= j <= |s| && AllSpace(s[i..j])
    ensures SpaceRun(s, i) >= j
    decreases |s| - i
  {
    if i < j {
      assert s[i..j][0] == s[i];
      assert s[i+1..j] == s[i..j][1..];
      SpaceRunReaches(s, i + 1, j);
    }
  }

  /** The scan finds a break wherever there is one. */
  lemma BreakIsFound(s: string, i: nat, j: nat)
    requires Breaks(s, i, j)
    ensures BreakAt(s, i).Some?
  {
    hide SpaceRun, IsSpace;
    assert s[i+1..j+1] == s[i..j+1][1..];
    SpaceRunReaches(s, i + 1, j + 1);
  }

  lemma NoBreakBefore(s: string, to: nat)
    requires to <= |s| && forall k | 0 <= k < to :: BreakAt(s, k).None?
    ensures OneParagraph(s[..to])
  {
    hide BreakAt;
    assert s[0..to] == s[..to];
    forall i, j ensures !Breaks(s[..to], i, j) {
      BreaksInSlice(s, 0, to, i, j);
      if Breaks(s[..to], i, j) { BreakIsFound(s, i, j); }
    }
  }

  lemma StripIsOneParagraph(s: string)
    requires OneParagraph(s)
    ensures OneParagraph(Strip(s))
  {
    hide Strip, LStrip, Breaks;
    StripSplits(s);
    var from := |s| - |LStrip(s)|;
    var to := from + |Strip(s)|;
    forall i, j ensures !Breaks(Strip(s), i, j) { BreaksInSlice(s, from, to, i, j); }
  }

  /** The blank and the visible part of a stripped text. */
  lemma Around(s: string) returns (a: string, b: string)
    ensures s == a + (Strip(s) + b) && AllSpace(a) && AllSpace(b) && (Strip(s) != "" ==> Solid(Strip(s)))
  {
    hide Strip, LStrip, IsSpace;
    StripSplits(s);
    var i := |s| - |LStrip(s)|;
    var j := i + |Strip(s)|;
    a, b := s[..i], s[j..];
    assert s == s[..i] + (s[i..j] + s[j..]);
  }

  lemma LastOne(s: string, a: string, p: string, b: string)
    requires s == a + (p + b) && AllSpace(a) && AllSpace(b) && OneParagraph(p) && Solid(p)
    ensures CutIntoParagraphs(s, a, [p], [], b)
  {
    InterleavedOne(p);
  }

  lemma NoneAtAll(s: string)
    requires AllSpace(s)
    ensures CutIntoParagraphs(s, s, [], [], "")
  {
    assert s + ("" + "") == s;
  }

  lemma MoreLead(s: string, w: string, rest: string, lead: string, ps: seq<string>, gaps: seq<string>, trail: string)
    requires CutIntoParagraphs(rest, lead, ps, gaps, trail) && AllSpace(w) && s == w + rest
    ensures CutIntoParagraphs(s, w + lead, ps, gaps, trail)
  {
    hide IsBreak, OneParagraph, Interleaved, IsSpace;
    AllSpaceCat(w, lead);
    Assoc3(w, lead, Interleaved(ps, gaps) + trail);
  }

  lemma MoreParagraphs(s: string, a: string, p: string, gap: string, rest: string, ps: seq<string>, gaps: seq<string>, trail: string)
    requires CutIntoParagraphs(rest, "", ps, gaps, trail) && ps != []
    requires s == a + (p + (gap + rest)) && AllSpace(a) && IsBreak(gap) && OneParagraph(p) && Solid(p)
    ensures CutIntoParagraphs(s, a, [p] + ps, [gap] + gaps, trail)
  {
    hide IsBreak, OneParagraph, Interleaved, IsSpace;
    InterleavedCons(p, gap, ps, gaps);
    var x := Interleaved(ps, gaps);
    assert rest == "" + (x + trail) == x + trail;
    Assoc3(gap, x, trail);
    Assoc3(p, gap + x, trail);
  }

  /** The split cuts the text into paragraphs. */
  lemma {:induction false} ParagraphsAreCut(s: string) returns (lead: string, gaps: seq<string>, trail: string)
    ensures CutIntoParagraphs(s, lead, Paragraphs(s), gaps, trail)
    decreases |s|
  {
    hide FirstBreak, BreakAt, Strip, CutIntoParagraphs, OneParagraph, IsBreak, IsSpace, AllSpace;
    var found := FirstBreak(s, 0);
    if found.None? {
      NoBreakBefore(s, |s|);
      assert s[..|s|] == s;
      OneRaw(s);
      StripIsOneParagraph(s);
      var a, b := Around(s);
      if Strip(s) == "" {
        StripIsBlank(s);
        NoneAtAll(s);
        lead, gaps, trail := s, [], "";
      } else {
        LastOne(s, a, Strip(s), b);
        lead, gaps, trail := a, [], b;
      }
    } else {
      lead, gaps, trail := CutAtFirst(s);
    }
  }

  lemma OneRaw(s: string)
    requires FirstBreak(s, 0).None?
    ensures Paragraphs(s) == if Strip(s) == "" then [] else [Strip(s)]
  {
    hide Strip, FirstBreak;
    assert RawParagraphs(s) == [s] == [s] + [];
    TidyCons(s, []);
  }

  lemma RawAtBreak(s: string)
    requires FirstBreak(s, 0).Some?
    ensures var b := FirstBreak(s, 0).value; RawParagraphs(s) == [s[..b.0]] + RawParagraphs(s[b.1+1..])
  {
    hide FirstBreak, BreakAt, AllSpace, IsSpace;
  }

  lemma FirstRaw(s: string)
    requires FirstBreak(s, 0).Some?
    ensures var b := FirstBreak(s, 0).value;
            Paragraphs(s) == (if Strip(s[..b.0]) == "" then [] else [Strip(s[..b.0])]) + Paragraphs(s[b.1+1..])
  {
    hide RawParagraphs, Tidy, Strip, FirstBreak, AllSpace;
    var b := FirstBreak(s, 0).value;
    RawAtBreak(s);
    TidyCons(s[..b.0], RawParagraphs(s[b.1+1..]));
  }

  lemma GapIsBreak(b: string, s: string, i: nat, j: nat, lead: string)
    requires i < j < |s| && AllSpace(b) && AllSpace(s[i..j+1]) && AllSpace(lead) && s[i] == s[j] == '\n'
    ensures IsBreak(b + (s[i..j+1] + lead))
  {
    hide IsSpace;
    var gap := b + (s[i..j+1] + lead);
    AllSpaceCat(s[i..j+1], lead);
    AllSpaceCat(b, s[i..j+1] + lead);
    assert gap[|b|..|b|+(j-i)+1] == s[i..j+1];
    assert Breaks(gap, |b|, |b| + (j - i));
  }

  lemma {:induction false} CutAtFirst(s: string) returns (lead: string, gaps: seq<string>, trail: string)
    requires FirstBreak(s, 0).Some?
    ensures CutIntoParagraphs(s, lead, Paragraphs(s), gaps, trail)
    decreases |s|, 0
  {
    hide BreakAt, FirstBreak, Strip, CutIntoParagraphs, OneParagraph, IsBreak, IsSpace, AllSpace, Paragraphs;
    FirstRaw(s);
    var i, j := FirstBreak(s, 0).value.0, FirstBreak(s, 0).value.1;
    var first, rest := s[..i], s[j+1..];
    NoBreakBefore(s, i);
    StripIsOneParagraph(first);
    var lead', gaps', trail' := ParagraphsAreCut(rest);
    var ps := Paragraphs(rest);
    var a, b := Around(first);
    var p, br := Strip(first), s[i..j+1];
    assert s == first + (br + rest);
    if p == "" {
      assert Paragraphs(s) == ps;
      StripIsBlank(first);
      AllSpaceCat(first, br);
      Assoc3(first, br, rest);
      MoreLead(s, first + br, rest, lead', ps, gaps', trail');
      lead, gaps, trail := first + br + lead', gaps', trail';
    } else if ps == [] {
      assert Paragraphs(s) == [p];
      BlankRest(rest, lead', gaps', trail');
      AllSpaceCat(br, rest);
      AllSpaceCat(b, br + rest);
      Regroup(a, p, b, br + rest);
      LastOne(s, a, p, b + (br + rest));
      lead, gaps, trail := a, [], b + (br + rest);
    } else {
      var x := WithoutLead(rest, lead', ps, gaps', trail');
      var gap := b + (br + lead');
      GapIsBreak(b, s, i, j, lead');
      Regroup(a, p, b, br + rest);
      Regroup2(b, br, lead', x);
      MoreParagraphs(s, a, p, gap, x, ps, gaps', trail');
      lead, gaps, trail := a, [gap] + gaps', trail';
    }
  }

  lemma Regroup(a: string, p: string, b: string, c: string)
    ensures (a + (p + b)) + c == a + (p + (b + c))
  {
  }

  lemma Regroup2(b: string, c: string, d: string, e: string)
    ensures b + (c + (d + e)) == b + (c + d) + e
  {
  }

  lemma BlankRest(rest: string, lead: string, gaps: seq<string>, trail: string)
    requires CutIntoParagraphs(rest, lead, [], gaps, trail)
    ensures AllSpace(rest)
  {
  }

  lemma WithoutLead(rest: string, lead: string, ps: seq<string>, gaps: seq<string>, trail: string) returns (x: string)
    requires CutIntoParagraphs(rest, lead, ps, gaps, trail)
    ensures CutIntoParagraphs(x, "", ps, gaps, trail) && rest == lead + x && AllSpace(lead)
  {
    x := Interleaved(ps, gaps) + trail;
  }

  // ------------------------------------------------------------------ there is no other way

  lemma CutParagraphsMean(s: string, lead: string, ps: seq<string>, gaps: seq<string>, trail: string)
    requires CutIntoParagraphs(s, lead, ps, gaps, trail) && ps != []
    ensures |ps| == |gaps| + 1 && AllSolid(ps) && AllSpace(lead) && AllSpace(trail)
    ensures s == lead + (Interleaved(ps, gaps) + trail)
    ensures gaps == [] ==> s == lead + (ps[0] + trail)
    ensures gaps != [] ==> IsBreak(gaps[0]) && s == lead + (ps[0] + (gaps[0] + (Interleaved(ps[1..], gaps[1..]) + trail)))
                           && CutIntoParagraphs(Interleaved(ps[1..], gaps[1..]) + trail, "", ps[1..], gaps[1..], trail)
    ensures OneParagraph(ps[0])
  {
    hide IsSpace, IsBreak, OneParagraph;
    InterleavedHead(ps, gaps);
    if gaps != [] {
      var x := Interleaved(ps[1..], gaps[1..]);
      Assoc3(gaps[0], x, trail);
      Assoc3(ps[0], gaps[0] + x, trail);
      assert "" + (x + trail) == x + trail;
      EmptyIsBlank();
    }
  }

  /** The first of two ways to cut the same text does not end before the second. */
  lemma FirstParagraphIsShortest(s: string, ps: seq<string>, gaps: seq<string>, trail: string,
      qs: seq<string>, hs: seq<string>, end: string)
    requires CutIntoParagraphs(s, "", ps, gaps, trail) && CutIntoParagraphs(s, "", qs, hs, end) && ps != [] && qs != []
    ensures |qs[0]| <= |ps[0]|
  {
    hide IsSpace, IsBreak, OneParagraph, Interleaved, CutIntoParagraphs, AllSpace;
    CutParagraphsMean(s, "", ps, gaps, trail);
    CutParagraphsMean(s, "", qs, hs, end);
    if |qs[0]| > |ps[0]| {
      var p, q := ps[0], qs[0];
      var tail := if hs == [] then end else hs[0] + (Interleaved(qs[1..], hs[1..]) + end);
      assert s == q + tail;
      if gaps == [] {
        assert s == p + (trail + "");
        assert |s| == |p| + |trail| == |q| + |tail|;
        ReachesPastGap(s, p, trail, "", q, tail);
      } else {
        var b := Interleaved(ps[1..], gaps[1..]) + trail;
        assert s == p + (gaps[0] + b);
        StartsVisibly(ps[1..], gaps[1..]);
        BreakIsBlank(gaps[0]);
        ReachesPastGap(s, p, gaps[0], b, q, tail);
        GapInside(q, p, gaps[0]);
      }
    }
  }

  lemma BreakIsBlank(gap: string)
    requires IsBreak(gap)
    ensures AllSpace(gap) && |gap| >= 2
  {
    hide IsSpace;
  }

  lemma GapInside(q: string, p: string, gap: string)
    requires |q| >= |p| + |gap| && q[..|p|+|gap|] == p + gap && IsBreak(gap)
    ensures !OneParagraph(q)
  {
    hide IsSpace;
    var i, j :| Breaks(gap, i, j);
    assert q[|p|..|p|+|gap|] == gap by { assert q[|p|..|p|+|gap|] == q[..|p|+|gap|][|p|..]; }
    BreaksInSlice(q, |p|, |p| + |gap|, i, j);
  }

  lemma SameLead(s: string, lead: string, x: string, start: string, y: string)
    requires s == lead + x && s == start + y && AllSpace(lead) && AllSpace(start)
    requires x != "" && !IsSpace(x[0]) && y != "" && !IsSpace(y[0])
    ensures x == y
  {
    SameGap(lead, x, start, y);
  }

  /** There is only one way to cut a text that begins visibly into paragraphs. */
  lemma {:induction false} VisibleCutIsUnique(s: string, ps: seq<string>, gaps: seq<string>, trail: string,
      qs: seq<string>, hs: seq<string>, end: string)
    requires CutIntoParagraphs(s, "", ps, gaps, trail) && CutIntoParagraphs(s, "", qs, hs, end) && ps != [] && qs != []
    ensures ps == qs
    decreases |ps|
  {
    hide IsSpace, IsBreak, OneParagraph, CutIntoParagraphs, AllSpace, Interleaved;
    CutParagraphsMean(s, "", ps, gaps, trail);
    CutParagraphsMean(s, "", qs, hs, end);
    FirstParagraphIsShortest(s, ps, gaps, trail, qs, hs, end);
    FirstParagraphIsShortest(s, qs, hs, end, ps, gaps, trail);
    var p, q := ps[0], qs[0];
    var x := if gaps == [] then trail else gaps[0] + (Interleaved(ps[1..], gaps[1..]) + trail);
    var y := if hs == [] then end else hs[0] + (Interleaved(qs[1..], hs[1..]) + end);
    assert s == p + x && s == q + y;
    SamePrefixes(s, p, x, q, y);
    if gaps == [] && hs == [] {
      assert ps == [p] && qs == [q];
    } else if gaps == [] {
      StartsVisibly(qs[1..], hs[1..]);
      VisibleInside(hs[0], Interleaved(qs[1..], hs[1..]), end);
    } else if hs == [] {
      StartsVisibly(ps[1..], gaps[1..]);
      VisibleInside(gaps[0], Interleaved(ps[1..], gaps[1..]), trail);
    } else {
      var u, v := Interleaved(ps[1..], gaps[1..]) + trail, Interleaved(qs[1..], hs[1..]) + end;
      StartsVisibly(ps[1..], gaps[1..]);
      StartsVisibly(qs[1..], hs[1..]);
      BreakIsBlank(gaps[0]);
      BreakIsBlank(hs[0]);
      SameGap(gaps[0], u, hs[0], v);
      VisibleCutIsUnique(u, ps[1..], gaps[1..], trail, qs[1..], hs[1..], end);
      assert ps == [p] + ps[1..] && qs == [q] + qs[1..];
    }
  }

  lemma VisibleInside(gap: string, x: string, trail: string)
    requires x != "" && !IsSpace(x[0])
    ensures !AllSpace(gap + (x + trail))
  {
    assert (gap + (x + trail))[|gap|] == x[0];
  }

  lemma ParagraphCutIsUnique(s: string, lead: string, ps: seq<string>, gaps: seq<string>, trail: string,
      start: string, qs: seq<string>, hs: seq<string>, end: string)
    requires CutIntoParagraphs(s, lead, ps, gaps, trail) && CutIntoParagraphs(s, start, qs, hs, end)
    ensures ps == qs
  {
    hide IsSpace, IsBreak, OneParagraph, CutIntoParagraphs, AllSpace, Interleaved;
    var x := WithoutLead(s, lead, ps, gaps, trail);
    var y := WithoutLead(s, start, qs, hs, end);
    if ps == [] || qs == [] {
      if ps == [] { BlankRest(s, lead, gaps, trail); } else { BlankRest(s, start, hs, end); }
      if ps != [] { SomethingToSee(s, lead, ps, gaps, trail); }
      if qs != [] { SomethingToSee(s, start, qs, hs, end); }
    } else {
      CutParagraphsMean(x, "", ps, gaps, trail);
      CutParagraphsMean(y, "", qs, hs, end);
      StartsVisibly(ps, gaps);
      StartsVisibly(qs, hs);
      SameLead(s, lead, x, start, y);
      VisibleCutIsUnique(x, ps, gaps, trail, qs, hs, end);
    }
  }

  lemma SomethingToSee(s: string, lead: string, ps: seq<string>, gaps: seq<string>, trail: string)
    requires CutIntoParagraphs(s, lead, ps, gaps, trail) && ps != []
    ensures !AllSpace(s)
  {
    hide IsSpace, IsBreak, OneParagraph, Interleaved;
    StartsVisibly(ps, gaps);
    VisibleInside(lead, Interleaved(ps, gaps), trail);
  }

  /** The paragraphs of a text are the pieces, and the only ones, that two line feeds with nothing visible between
      them cut it into: each keeps every character from its first visible one to its last. */
  lemma ParagraphsExactly(s: string, ps: seq<string>)
    ensures ps == Paragraphs(s) <==> exists lead, gaps, trail :: CutIntoParagraphs(s, lead, ps, gaps, trail)
  {
    hide CutIntoParagraphs, Paragraphs;
    var a, b, c := ParagraphsAreCut(s);
    if lead, gaps, trail :| CutIntoParagraphs(s, lead, ps, gaps, trail) {
      ParagraphCutIsUnique(s, lead, ps, gaps, trail, a, Paragraphs(s), b, c);
    }
  }
}
