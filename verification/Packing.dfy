/** Greedy chunk packing of a knowledge file. */
module Packing {
  import opened Text
  import opened TextSplit

  const MIN_CHUNK := 40
  const BLANK_LINE := "\n\n"

  // ------------------------------------------------------------------ the packer

  function Flush(buffer: string): seq<string> { if buffer == "" then [] else [buffer] }

  function Cut(s: string, max: nat): string { if |s| <= max then s else s[..max] }

  /** Cutting keeps the beginning, and as much of it as the limit allows. */
  lemma CutIsBeginning(s: string, max: nat)
    ensures Cut(s, max) <= s && |Cut(s, max)| == if |s| < max then |s| else max
  {
  }

  /** The sentences of an oversized paragraph, packed from a running buffer. */
  function PackSentences(sentences: seq<string>, buffer: string, max: nat): seq<string>
    decreases |sentences|
  {
    if sentences == [] then (if buffer == "" then [] else [Strip(buffer)])
    else if |buffer| + |sentences[0]| + 1 > max then
      (if buffer == "" then [] else [Strip(buffer)]) + PackSentences(sentences[1..], Cut(sentences[0], max), max)
    else PackSentences(sentences[1..], Strip(buffer + " " + sentences[0]), max)
  }

  function PackParagraphs(paragraphs: seq<string>, buffer: string, max: nat): seq<string>
    decreases |paragraphs|
  {
    if paragraphs == [] then Flush(buffer)
    else if |paragraphs[0]| > max then
      Flush(buffer) + PackSentences(Sentences(paragraphs[0]), "", max) + PackParagraphs(paragraphs[1..], "", max)
    else if |buffer| + |paragraphs[0]| + 2 > max then
      Flush(buffer) + PackParagraphs(paragraphs[1..], paragraphs[0], max)
    else PackParagraphs(paragraphs[1..], Strip(buffer + BLANK_LINE + paragraphs[0]), max)
  }

  /** The chunks before the last filter. */
  function Packed(text: string, max: nat): seq<string> { PackParagraphs(Paragraphs(text), "", max) }

  /** The last filter. Its second alternative asks whether the list under inspection is empty, which it never
      is while one of its elements is being looked at. */
  function Kept(chunks: seq<string>, all: seq<string>): seq<string> {
    if chunks == [] then []
    else (if |chunks[0]| >= MIN_CHUNK || all == [] then [chunks[0]] else []) + Kept(chunks[1..], all)
  }

  lemma ChunksAssoc(a: seq<string>, b: seq<string>, c: seq<string>)
    ensures a + b + c == a + (b + c)
  {
  }

  method PackOversized(paragraph: string, max: nat) returns (chunks: seq<string>)
    ensures chunks == PackSentences(Sentences(paragraph), "", max)
  {
    hide Strip, Sentences;
    var sentences := Sentences(paragraph);
    chunks := [];
    var buffer := "";
    var k := 0;
    assert sentences[0..] == sentences;
    while k < |sentences|
      invariant k <= |sentences|
      invariant chunks + PackSentences(sentences[k..], buffer, max) == PackSentences(sentences, "", max)
    {
      var sentence := sentences[k];
      assert sentences[k..][0] == sentence && sentences[k..][1..] == sentences[k+1..];
      if |buffer| + |sentence| + 1 > max {
        ghost var before := chunks;
        if buffer != "" { chunks := chunks + [Strip(buffer)]; }
        ChunksAssoc(before, if buffer == "" then [] else [Strip(buffer)], PackSentences(sentences[k+1..], Cut(sentence, max), max));
        buffer := Cut(sentence, max);
      } else {
        buffer := Strip(buffer + " " + sentence);
      }
      k := k + 1;
    }
    if buffer != "" { chunks := chunks + [Strip(buffer)]; }
  }

  /** One turn of the outer loop. */
  lemma PackStep(done: seq<string>, paragraphs: seq<string>, buffer: string, max: nat)
    requires paragraphs != []
    ensures done + PackParagraphs(paragraphs, buffer, max) ==
              if |paragraphs[0]| > max then
                done + Flush(buffer) + PackSentences(Sentences(paragraphs[0]), "", max) + PackParagraphs(paragraphs[1..], "", max)
              else if |buffer| + |paragraphs[0]| + 2 > max then
                done + Flush(buffer) + PackParagraphs(paragraphs[1..], paragraphs[0], max)
              else done + PackParagraphs(paragraphs[1..], Strip(buffer + BLANK_LINE + paragraphs[0]), max)
  {
    hide Strip, Sentences, PackSentences, Flush;
    var p, rest := paragraphs[0], paragraphs[1..];
    if |p| > max {
      var split := PackSentences(Sentences(p), "", max);
      ChunksAssoc(done, Flush(buffer), split);
      ChunksAssoc(done, Flush(buffer) + split, PackParagraphs(rest, "", max));
    } else if |buffer| + |p| + 2 > max {
      ChunksAssoc(done, Flush(buffer), PackParagraphs(rest, p, max));
    }
  }

  method ChunkText(text: string, max: nat) returns (kept: seq<string>)
    ensures kept == Kept(Packed(text, max), Packed(text, max))
  {
    hide Strip, Paragraphs, Sentences, PackSentences, PackParagraphs, Kept;
    var paragraphs := Paragraphs(text);
    var chunks: seq<string> := [];
    var buffer := "";
    var k := 0;
    assert paragraphs[0..] == paragraphs;
    while k < |paragraphs|
      invariant k <= |paragraphs|
      invariant chunks + PackParagraphs(paragraphs[k..], buffer, max) == Packed(text, max)
    {
      var paragraph := paragraphs[k];
      assert paragraphs[k..][0] == paragraph && paragraphs[k..][1..] == paragraphs[k+1..];
      PackStep(chunks, paragraphs[k..], buffer, max);
      if |paragraph| > max {
        if buffer != "" { chunks := chunks + [buffer]; }
        var split := PackOversized(paragraph, max);
        buffer := "";
        chunks := chunks + split;
      } else if |buffer| + |paragraph| + 2 > max {
        if buffer != "" { chunks := chunks + [buffer]; }
        buffer := paragraph;
      } else {
        buffer := Strip(buffer + BLANK_LINE + paragraph);
      }
      k := k + 1;
    }
    LastFlush(buffer, max);
    assert paragraphs[k..] == [] && chunks + Flush(buffer) == Packed(text, max);
    if buffer != "" { chunks := chunks + [buffer]; }
    assert chunks == Packed(text, max);
    kept := Kept(chunks, chunks);
  }

  lemma LastFlush(buffer: string, max: nat)
    ensures PackParagraphs([], buffer, max) == Flush(buffer)
  {
  }

  // ------------------------------------------------------------------ length

  predicate AllWithin(chunks: seq<string>, max: nat) { forall k | 0 <= k < |chunks| :: |chunks[k]| <= max }

  lemma StripIsShorter(s: string)
    ensures |Strip(s)| <= |s|
  {
    StripSplits(s);
  }

  lemma {:induction false} SentencesStayWithin(sentences: seq<string>, buffer: string, max: nat)
    requires |buffer| <= max
    ensures AllWithin(PackSentences(sentences, buffer, max), max)
    decreases |sentences|
  {
    hide Strip;
    StripIsShorter(buffer);
    if sentences != [] {
      if |buffer| + |sentences[0]| + 1 > max {
        SentencesStayWithin(sentences[1..], Cut(sentences[0], max), max);
      } else {
        StripIsShorter(buffer + " " + sentences[0]);
        SentencesStayWithin(sentences[1..], Strip(buffer + " " + sentences[0]), max);
      }
    }
  }

  lemma {:induction false} ParagraphsStayWithin(paragraphs: seq<string>, buffer: string, max: nat)
    requires |buffer| <= max
    ensures AllWithin(PackParagraphs(paragraphs, buffer, max), max)
    decreases |paragraphs|
  {
    hide Strip, PackSentences, Sentences;
    if paragraphs != [] {
      var p := paragraphs[0];
      if |p| > max {
        SentencesStayWithin(Sentences(p), "", max);
        ParagraphsStayWithin(paragraphs[1..], "", max);
      } else if |buffer| + |p| + 2 > max {
        ParagraphsStayWithin(paragraphs[1..], p, max);
      } else {
        StripIsShorter(buffer + BLANK_LINE + p);
        ParagraphsStayWithin(paragraphs[1..], Strip(buffer + BLANK_LINE + p), max);
      }
    }
  }

  /** No chunk is longer than the limit, whatever the text. */
  lemma EveryChunkFits(text: string, max: nat)
    ensures AllWithin(Packed(text, max), max)
  {
    ParagraphsStayWithin(Paragraphs(text), "", max);
  }

  // ------------------------------------------------------------------ visible text

  /** What the packer keeps of each paragraph: oversized ones lose the tail of every oversized sentence. */
  function CutAll(sentences: seq<string>, max: nat): seq<string> {
    if sentences == [] then [] else [Cut(sentences[0], max)] + CutAll(sentences[1..], max)
  }

  function Surviving(p: string, max: nat): string {
    if |p| > max then VisibleOfAll(CutAll(Sentences(p), max)) else Visible(p)
  }

  function SurvivingAll(ps: seq<string>, max: nat): string {
    if ps == [] then "" else Surviving(ps[0], max) + SurvivingAll(ps[1..], max)
  }

  lemma {:induction false} VisibleOfAllCat(a: seq<string>, b: seq<string>)
    ensures VisibleOfAll(a + b) == VisibleOfAll(a) + VisibleOfAll(b)
    decreases |a|
  {
    hide Visible;
    if a == [] {
      assert a + b == b;
    } else {
      assert (a + b)[1..] == a[1..] + b;
      VisibleOfAllCat(a[1..], b);
      Assoc3(Visible(a[0]), VisibleOfAll(a[1..]), VisibleOfAll(b));
    }
  }

  lemma VisibleOfEmpty()
    ensures Visible("") == "" && VisibleOfAll([]) == ""
  {
  }

  lemma VisibleOfSingle(s: string)
    ensures VisibleOfAll([s]) == Visible(s)
  {
    hide Visible;
    assert [s][1..] == [];
    assert Visible(s) + "" == Visible(s);
  }

  /** Joining by whitespace and stripping adds and removes no visible character. */
  lemma VisibleOfJoined(a: string, gap: string, b: string)
    requires AllSpace(gap)
    ensures Visible(Strip(a + gap + b)) == Visible(a) + Visible(b)
  {
    hide Visible, Strip, AllSpace;
    VisibleOfStrip(a + gap + b);
    VisibleCat(a + gap, b);
    VisibleCat(a, gap);
    VisibleOfSpace(gap);
  }

  lemma GapsAreSpace()
    ensures AllSpace(" ") && AllSpace(BLANK_LINE)
  {
  }

  lemma {:induction false} SentencesKeepText(sentences: seq<string>, buffer: string, max: nat)
    ensures VisibleOfAll(PackSentences(sentences, buffer, max)) == Visible(buffer) + VisibleOfAll(CutAll(sentences, max))
    decreases |sentences|
  {
    hide Strip, Visible, AllSpace, VisibleOfAll;
    VisibleOfEmpty();
    GapsAreSpace();
    VisibleOfStrip(buffer);
    VisibleOfSingle(Strip(buffer));
    if sentences != [] {
      var s := sentences[0];
      var rest := VisibleOfAll(CutAll(sentences[1..], max));
      VisibleOfAllCat([Cut(s, max)], CutAll(sentences[1..], max));
      VisibleOfSingle(Cut(s, max));
      if |buffer| + |s| + 1 > max {
        SentencesKeepText(sentences[1..], Cut(s, max), max);
        VisibleOfAllCat(if buffer == "" then [] else [Strip(buffer)], PackSentences(sentences[1..], Cut(s, max), max));
      } else {
        SentencesKeepText(sentences[1..], Strip(buffer + " " + s), max);
        VisibleOfJoined(buffer, " ", s);
        Assoc3(Visible(buffer), Visible(s), rest);
      }
    }
  }

  lemma VisibleOfFlush(buffer: string)
    ensures VisibleOfAll(Flush(buffer)) == Visible(buffer)
  {
    hide Visible;
    VisibleOfEmpty();
    VisibleOfSingle(buffer);
  }

  lemma {:induction false} ParagraphsKeepText(paragraphs: seq<string>, buffer: string, max: nat)
    ensures VisibleOfAll(PackParagraphs(paragraphs, buffer, max)) == Visible(buffer) + SurvivingAll(paragraphs, max)
    decreases |paragraphs|
  {
    hide Strip, Visible, AllSpace, VisibleOfAll, PackSentences, Sentences, Flush, CutAll;
    VisibleOfEmpty();
    GapsAreSpace();
    VisibleOfFlush(buffer);
    if paragraphs != [] {
      var p := paragraphs[0];
      var tail := paragraphs[1..];
      if |p| > max {
        var split := PackSentences(Sentences(p), "", max);
        SentencesKeepText(Sentences(p), "", max);
        ParagraphsKeepText(tail, "", max);
        VisibleOfAllCat(Flush(buffer), split);
        VisibleOfAllCat(Flush(buffer) + split, PackParagraphs(tail, "", max));
        Assoc3(Visible(buffer), Surviving(p, max), SurvivingAll(tail, max));
      } else if |buffer| + |p| + 2 > max {
        ParagraphsKeepText(tail, p, max);
        VisibleOfAllCat(Flush(buffer), PackParagraphs(tail, p, max));
      } else {
        ParagraphsKeepText(tail, Strip(buffer + BLANK_LINE + p), max);
        VisibleOfJoined(buffer, BLANK_LINE, p);
        Assoc3(Visible(buffer), Visible(p), SurvivingAll(tail, max));
      }
    }
  }

  /** A paragraph survives whole unless it is oversized and one of its sentences is. */
  predicate SentencesFit(p: string, max: nat) {
    |p| > max ==> forall k | 0 <= k < |Sentences(p)| :: |Sentences(p)[k]| <= max
  }

  lemma {:induction false} CutLoses(sentences: seq<string>, max: nat)
    requires AllSolid(sentences)
    ensures |VisibleOfAll(CutAll(sentences, max))| <= |VisibleOfAll(sentences)|
    ensures VisibleOfAll(CutAll(sentences, max)) == VisibleOfAll(sentences) <==>
            forall k | 0 <= k < |sentences| :: |sentences[k]| <= max
    decreases |sentences|
  {
    hide Visible, IsSpace;
    if sentences != [] {
      var s := sentences[0];
      CutLoses(sentences[1..], max);
      if |s| > max {
        CutIsShorter(s, max);
        assert |VisibleOfAll(CutAll(sentences, max))| < |VisibleOfAll(sentences)|;
      } else {
        assert forall k | 1 <= k < |sentences| :: sentences[k] == sentences[1..][k-1];
        SameHead(Visible(s), VisibleOfAll(CutAll(sentences[1..], max)), VisibleOfAll(sentences[1..]));
      }
    }
  }

  lemma SameHead(a: string, b: string, c: string)
    ensures a + b == a + c <==> b == c
  {
    if a + b == a + c {
      assert b == (a + b)[|a|..] && c == (a + c)[|a|..];
    }
  }

  lemma CutIsShorter(s: string, max: nat)
    requires Solid(s) && |s| > max
    ensures |Visible(s[..max])| < |Visible(s)|
  {
    hide Visible, IsSpace;
    var last := |s| - 1;
    assert s == s[..max] + (s[max..last] + [s[last]]);
    VisibleCat(s[..max], s[max..last] + [s[last]]);
    VisibleCat(s[max..last], [s[last]]);
    OneVisible(s[last]);
  }

  lemma OneVisible(c: char)
    requires !IsSpace(c)
    ensures |Visible([c])| == 1
  {
  }

  lemma SurvivesWhole(p: string, max: nat)
    requires Solid(p)
    ensures |Surviving(p, max)| <= |Visible(p)|
    ensures Surviving(p, max) == Visible(p) <==> SentencesFit(p, max)
  {
    hide Visible, Sentences, CutAll, VisibleOfAll, Stripped;
    SentencesKeepVisible(p);
    CutLoses(Sentences(p), max);
  }

  lemma {:induction false} SurviveWhole(ps: seq<string>, max: nat)
    requires AllSolid(ps)
    ensures |SurvivingAll(ps, max)| <= |VisibleOfAll(ps)|
    ensures SurvivingAll(ps, max) == VisibleOfAll(ps) <==> forall k | 0 <= k < |ps| :: SentencesFit(ps[k], max)
    decreases |ps|
  {
    hide Visible, Surviving, SentencesFit, Stripped;
    if ps != [] {
      var p := ps[0];
      SurvivesWhole(p, max);
      SurviveWhole(ps[1..], max);
      assert forall k | 1 <= k < |ps| :: ps[k] == ps[1..][k-1];
      if SentencesFit(p, max) {
        SameHead(Visible(p), SurvivingAll(ps[1..], max), VisibleOfAll(ps[1..]));
      } else {
        ShorterHead(Surviving(p, max), Visible(p), SurvivingAll(ps[1..], max), VisibleOfAll(ps[1..]));
      }
    }
  }

  lemma ShorterHead(a: string, b: string, c: string, d: string)
    requires |a| <= |b| && a != b && |c| <= |d|
    ensures a + c != b + d
  {
    if |a| == |b| { SamePrefix(a, b, c, d); }
  }

  lemma SamePrefix(a: string, b: string, c: string, d: string)
    requires |a| == |b|
    ensures a + c == b + d ==> a == b
  {
    if a + c == b + d {
      assert a == (a + c)[..|a|] && b == (b + d)[..|b|];
    }
  }

  /** The chunks before the last filter hold the visible text of the input, in order, exactly when every
      sentence of every oversized paragraph fits the limit; otherwise text is lost. */
  lemma LosslessExactlyWhen(text: string, max: nat)
    ensures VisibleOfAll(Packed(text, max)) == Visible(text) <==>
            forall k | 0 <= k < |Paragraphs(text)| :: SentencesFit(Paragraphs(text)[k], max)
  {
    hide Visible, VisibleOfAll, Paragraphs, SurvivingAll, PackParagraphs, SentencesFit, AllSolid;
    var ps := Paragraphs(text);
    ParagraphsKeepVisible(text);
    ParagraphsKeepText(ps, "", max);
    VisibleOfEmpty();
    SurviveWhole(ps, max);
    assert "" + SurvivingAll(ps, max) == SurvivingAll(ps, max);
  }

  // ------------------------------------------------------------------ the last filter

  lemma {:induction false} KeptIsLongEnough(chunks: seq<string>, all: seq<string>)
    requires all != []
    ensures |Kept(chunks, all)| <= |chunks|
    ensures Kept(chunks, all) == chunks <==> forall k | 0 <= k < |chunks| :: |chunks[k]| >= MIN_CHUNK
    ensures Kept(chunks, all) == [] <==> forall k | 0 <= k < |chunks| :: |chunks[k]| < MIN_CHUNK
    decreases |chunks|
  {
    hide Kept;
    NothingKept(all);
    if chunks != [] {
      var first, rest := chunks[0], chunks[1..];
      KeptIsLongEnough(rest, all);
      assert chunks == [first] + rest;
      KeptCons(first, rest, all);
      assert forall k | 1 <= k < |chunks| :: chunks[k] == rest[k-1];
      if |first| >= MIN_CHUNK { SameHeadOnly(first, Kept(rest, all), rest); }
    }
  }

  lemma SameHeadOnly(first: string, a: seq<string>, b: seq<string>)
    ensures [first] + a == [first] + b <==> a == b
  {
    assert ([first] + a)[1..] == a && ([first] + b)[1..] == b;
  }

  lemma NothingKept(all: seq<string>)
    ensures Kept([], all) == []
  {
  }

  lemma KeptCons(chunk: string, rest: seq<string>, all: seq<string>)
    requires all != []
    ensures Kept([chunk] + rest, all) == (if |chunk| >= MIN_CHUNK then [chunk] else []) + Kept(rest, all)
  {
    assert ([chunk] + rest)[1..] == rest;
  }

  /** The filter keeps each chunk of 40 characters where it stands and drops each shorter one. */
  lemma {:induction false} KeptEach(a: seq<string>, chunk: string, b: seq<string>, all: seq<string>)
    requires all != []
    ensures Kept(a + [chunk] + b, all) == Kept(a, all) + (if |chunk| >= 40 then [chunk] else []) + Kept(b, all)
    decreases |a|
  {
    hide Kept;
    NothingKept(all);
    if a == [] {
      assert [] + [chunk] + b == [chunk] + b;
      KeptCons(chunk, b, all);
    } else {
      assert a + [chunk] + b == [a[0]] + (a[1..] + [chunk] + b) && a == [a[0]] + a[1..];
      KeptCons(a[0], a[1..] + [chunk] + b, all);
      KeptCons(a[0], a[1..], all);
      KeptEach(a[1..], chunk, b, all);
      var head := if |a[0]| >= MIN_CHUNK then [a[0]] else [];
      ChunksAssoc(head, Kept(a[1..], all), if |chunk| >= 40 then [chunk] else []);
      ChunksAssoc(head, Kept(a[1..], all) + if |chunk| >= 40 then [chunk] else [], Kept(b, all));
    }
  }

  /** The filter loses nothing only if every chunk is long enough, and a text whose chunks are all short is
      dropped entirely: its second alternative never saves one. */
  lemma ShortChunksAreDropped(text: string, max: nat)
    ensures Kept(Packed(text, max), Packed(text, max)) == Packed(text, max) <==>
            forall k | 0 <= k < |Packed(text, max)| :: |Packed(text, max)[k]| >= MIN_CHUNK
    ensures Kept(Packed(text, max), Packed(text, max)) == [] <==>
            forall k | 0 <= k < |Packed(text, max)| :: |Packed(text, max)[k]| < MIN_CHUNK
  {
    hide Packed;
    if Packed(text, max) != [] { KeptIsLongEnough(Packed(text, max), Packed(text, max)); }
  }

  // ------------------------------------------------------------------ packing and filter together

  /** A buffer under construction is empty or starts visibly. */
  predicate OpenBuffer(buffer: string) { buffer == "" || !IsSpace(buffer[0]) }

  lemma StripOfOpen(buffer: string)
    requires buffer != "" && !IsSpace(buffer[0])
    ensures Solid(Strip(buffer)) && !IsSpace(Strip(buffer)[0])
  {
    hide IsSpace, Strip;
    StripSplits(buffer);
    StripIsBlank(buffer);
  }

  lemma GrownBuffer(buffer: string, gap: string, s: string)
    requires OpenBuffer(buffer) && Solid(s)
    ensures Solid(Strip(buffer + gap + s)) && !IsSpace(Strip(buffer + gap + s)[0])
  {
    hide IsSpace, Strip;
    var t := buffer + gap + s;
    StripSplits(t);
    StripIsBlank(t);
    assert t[|t|-1] == s[|s|-1];
  }

  lemma {:induction false} SentencesGiveSolid(sentences: seq<string>, buffer: string, max: nat)
    requires AllSolid(sentences) && OpenBuffer(buffer)
    ensures AllSolid(PackSentences(sentences, buffer, max))
    decreases |sentences|
  {
    hide Strip, IsSpace, Solid;
    if buffer != "" { StripOfOpen(buffer); }
    if sentences != [] {
      SolidStart(sentences[0]);
      if |buffer| + |sentences[0]| + 1 > max {
        SentencesGiveSolid(sentences[1..], Cut(sentences[0], max), max);
      } else {
        GrownBuffer(buffer, " ", sentences[0]);
        SentencesGiveSolid(sentences[1..], Strip(buffer + " " + sentences[0]), max);
      }
    }
  }

  lemma SolidStart(s: string)
    requires Solid(s)
    ensures s != "" && !IsSpace(s[0])
  {
  }

  /** Every chunk is stripped and not empty. */
  lemma {:induction false} ParagraphsGiveSolid(paragraphs: seq<string>, buffer: string, max: nat)
    requires AllSolid(paragraphs) && (buffer == "" || (Solid(buffer) && !IsSpace(buffer[0])))
    ensures AllSolid(PackParagraphs(paragraphs, buffer, max))
    decreases |paragraphs|
  {
    hide Strip, IsSpace, Solid, PackSentences, Sentences;
    if paragraphs != [] {
      var p := paragraphs[0];
      SolidStart(p);
      if |p| > max {
        SentencesKeepVisible(p);
        SentencesGiveSolid(Sentences(p), "", max);
        ParagraphsGiveSolid(paragraphs[1..], "", max);
      } else if |buffer| + |p| + 2 > max {
        ParagraphsGiveSolid(paragraphs[1..], p, max);
      } else {
        GrownBuffer(buffer, BLANK_LINE, p);
        ParagraphsGiveSolid(paragraphs[1..], Strip(buffer + BLANK_LINE + p), max);
      }
    }
  }

  /** Dropping a chunk loses visible text. */
  lemma {:induction false} DroppingLoses(chunks: seq<string>, all: seq<string>)
    requires all != [] && AllSolid(chunks)
    ensures |VisibleOfAll(Kept(chunks, all))| <= |VisibleOfAll(chunks)|
    ensures |VisibleOfAll(Kept(chunks, all))| == |VisibleOfAll(chunks)| ==>
              forall k | 0 <= k < |chunks| :: |chunks[k]| >= MIN_CHUNK
    decreases |chunks|
  {
    hide Visible, Solid;
    if chunks != [] {
      DroppingLoses(chunks[1..], all);
      SomethingVisible(chunks[0]);
      assert forall k | 1 <= k < |chunks| :: chunks[k] == chunks[1..][k-1];
      if |chunks[0]| >= MIN_CHUNK {
        assert Kept(chunks, all) == [chunks[0]] + Kept(chunks[1..], all);
        assert ([chunks[0]] + Kept(chunks[1..], all))[1..] == Kept(chunks[1..], all);
      } else {
        assert Kept(chunks, all) == Kept(chunks[1..], all);
      }
    }
  }

  lemma SomethingVisible(s: string)
    requires Solid(s)
    ensures |Visible(s)| > 0
  {
  }

  lemma VisibleIsBounded(text: string, max: nat)
    ensures |VisibleOfAll(Packed(text, max))| <= |Visible(text)| && AllSolid(Packed(text, max))
  {
    hide Visible, VisibleOfAll, Paragraphs, SurvivingAll, PackParagraphs, AllSolid;
    ParagraphsKeepVisible(text);
    ParagraphsKeepText(Paragraphs(text), "", max);
    VisibleOfEmpty();
    SurviveWhole(Paragraphs(text), max);
    ParagraphsGiveSolid(Paragraphs(text), "", max);
  }

  /** The chunks that are returned hold all the visible text of the file, in order, exactly when every sentence of
      every oversized paragraph fits the limit and every packed chunk has 40 characters. */
  lemma FileTextSurvivesExactlyWhen(text: string, max: nat)
    ensures VisibleOfAll(Kept(Packed(text, max), Packed(text, max))) == Visible(text) <==>
            && (forall k | 0 <= k < |Paragraphs(text)| :: SentencesFit(Paragraphs(text)[k], max))
            && (forall k | 0 <= k < |Packed(text, max)| :: |Packed(text, max)[k]| >= MIN_CHUNK)
  {
    hide Visible, VisibleOfAll, Paragraphs, Packed, SentencesFit, AllSolid;
    LosslessExactlyWhen(text, max);
    VisibleIsBounded(text, max);
    ShortChunksAreDropped(text, max);
    if Packed(text, max) != [] { DroppingLoses(Packed(text, max), Packed(text, max)); }
  }
}
