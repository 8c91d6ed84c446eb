/** From knowledge file to prompt and back: which packed chunks the prompt parser can read whole. */
module KnowledgePrompt {
  import opened Text
  import TextSplit
  import Packing
  import PackingOptimal
  import PromptText
  import PromptRoundTrip

  ghost predicate NoBlankLine(s: string) { !Contains(s, PromptText.BLANK_LINE) }

  ghost predicate NoneHasBlankLine(ps: seq<string>) { forall k | 0 <= k < |ps| :: NoBlankLine(ps[k]) }

  /** Two adjacent line feeds are a paragraph break. */
  lemma BlankLineIsBreak(s: string, k: nat)
    requires OccursAt(s, PromptText.BLANK_LINE, k)
    ensures TextSplit.BreakAt(s, k).Some?
  {
    PromptText.OccurrenceAt(s, PromptText.BLANK_LINE, k, 0);
    PromptText.OccurrenceAt(s, PromptText.BLANK_LINE, k, 1);
    LineFeedInRun(s, k + 1);
  }

  lemma LineFeedInRun(s: string, k: nat)
    requires k < |s| && s[k] == '\n'
    ensures TextSplit.SpaceRun(s, k) > k
  {
  }

  lemma BeforeFirstBreak(s: string, to: nat)
    requires to <= |s| && forall k | 0 <= k < to :: TextSplit.BreakAt(s, k).None?
    ensures NoBlankLine(s[..to])
  {
    hide TextSplit.BreakAt;
    assert s[0..to] == s[..to];
    forall i ensures !OccursAt(s[..to], PromptText.BLANK_LINE, i) {
      PromptRoundTrip.OccursInSlice(s, PromptText.BLANK_LINE, 0, to, i);
      if OccursAt(s, PromptText.BLANK_LINE, i) { BlankLineIsBreak(s, i); }
    }
  }

  lemma {:induction false} RawHaveNoBlankLine(s: string)
    ensures NoneHasBlankLine(TextSplit.RawParagraphs(s))
    decreases |s|
  {
    hide TextSplit.FirstBreak, TextSplit.BreakAt, NoBlankLine;
    var b := TextSplit.FirstBreak(s, 0);
    if b.None? {
      BeforeFirstBreak(s, |s|);
      assert s[..|s|] == s;
    } else {
      BeforeFirstBreak(s, b.value.0);
      RawHaveNoBlankLine(s[b.value.1+1..]);
    }
  }

  lemma StripKeepsAbsence(s: string)
    requires NoBlankLine(s)
    ensures NoBlankLine(Strip(s))
  {
    hide Strip, LStrip;
    StripSplits(s);
    var from := |s| - |LStrip(s)|;
    var to := from + |Strip(s)|;
    forall i ensures !OccursAt(Strip(s), PromptText.BLANK_LINE, i) {
      PromptRoundTrip.OccursInSlice(s, PromptText.BLANK_LINE, from, to, from + i);
    }
  }

  lemma {:induction false} TidyHaveNoBlankLine(ps: seq<string>)
    requires NoneHasBlankLine(ps)
    ensures NoneHasBlankLine(Tidy(ps))
    decreases |ps|
  {
    hide Strip, NoBlankLine;
    if ps != [] {
      StripKeepsAbsence(ps[0]);
      TidyHaveNoBlankLine(ps[1..]);
    }
  }

  /** No paragraph has an empty line inside. */
  lemma ParagraphsHaveNoBlankLine(text: string)
    ensures NoneHasBlankLine(TextSplit.Paragraphs(text))
  {
    RawHaveNoBlankLine(text);
    TidyHaveNoBlankLine(TextSplit.RawParagraphs(text));
  }

  lemma JoinHasBlankLine(group: seq<string>)
    requires group != [] && NoneHasBlankLine(group)
    ensures NoBlankLine(JoinWith(group, Packing.BLANK_LINE)) <==> |group| == 1
  {
    if |group| > 1 {
      var a, b := group[0], JoinWith(group[1..], Packing.BLANK_LINE);
      Assoc3(a, Packing.BLANK_LINE, b);
      PromptText.OccursInTail(a, Packing.BLANK_LINE + b, PromptText.BLANK_LINE, 0);
    }
  }

  // ------------------------------------------------------------------ what each chunk is made of

  /** A chunk is some whole paragraphs, or a fragment of an oversized one. */
  datatype Piece = Group(paragraphs: seq<string>) | Fragment(chunk: string)

  function PieceText(p: Piece): string {
    match p
    case Group(ps) => JoinWith(ps, Packing.BLANK_LINE)
    case Fragment(c) => c
  }

  function PieceTexts(pieces: seq<Piece>): seq<string> {
    if pieces == [] then [] else [PieceText(pieces[0])] + PieceTexts(pieces[1..])
  }

  function Fragments(chunks: seq<string>): seq<Piece> {
    if chunks == [] then [] else [Fragment(chunks[0])] + Fragments(chunks[1..])
  }

  function OpenPiece(current: seq<string>): seq<Piece> { if current == [] then [] else [Group(current)] }

  /** The pieces the packer makes, with the group under construction. */
  function Pieces(ps: seq<string>, current: seq<string>, max: nat): seq<Piece>
    decreases |ps|
  {
    if ps == [] then OpenPiece(current)
    else if |ps[0]| > max then
      OpenPiece(current) + Fragments(Packing.PackSentences(TextSplit.Sentences(ps[0]), "", max)) + Pieces(ps[1..], [], max)
    else if PackingOptimal.Size(current) + |ps[0]| + 2 > max then OpenPiece(current) + Pieces(ps[1..], [ps[0]], max)
    else Pieces(ps[1..], current + [ps[0]], max)
  }

  lemma {:induction false} PieceTextsCat(a: seq<Piece>, b: seq<Piece>)
    ensures PieceTexts(a + b) == PieceTexts(a) + PieceTexts(b)
    decreases |a|
  {
    if a == [] {
      assert a + b == b;
    } else {
      assert (a + b)[1..] == a[1..] + b;
      PieceTextsCat(a[1..], b);
      Packing.ChunksAssoc([PieceText(a[0])], PieceTexts(a[1..]), PieceTexts(b));
    }
  }

  lemma {:induction false} TextsOfFragments(chunks: seq<string>)
    ensures PieceTexts(Fragments(chunks)) == chunks
    decreases |chunks|
  {
    if chunks != [] {
      TextsOfFragments(chunks[1..]);
      assert chunks == [chunks[0]] + chunks[1..];
    }
  }

  lemma TextOfOpen(current: seq<string>)
    requires TextSplit.AllSolid(current)
    ensures PieceTexts(OpenPiece(current)) == Packing.Flush(JoinWith(current, Packing.BLANK_LINE))
  {
    if current == [] {
      PackingOptimal.JoinOfNone();
    } else {
      PackingOptimal.JoinIsSolid(current);
      assert [Group(current)][1..] == [];
    }
  }

  /** The packer's chunks are the texts of the pieces. */
  lemma {:induction false} PiecesArePacked(ps: seq<string>, current: seq<string>, max: nat)
    requires TextSplit.AllSolid(ps) && TextSplit.AllSolid(current)
    ensures PieceTexts(Pieces(ps, current, max)) == Packing.PackParagraphs(ps, JoinWith(current, Packing.BLANK_LINE), max)
    decreases |ps|
  {
    hide TextSplit.Solid, JoinWith, Strip, TextSplit.Sentences, Packing.PackSentences, Packing.Flush, OpenPiece, PieceTexts;
    TextOfOpen(current);
    if ps != [] {
      var p := ps[0];
      var rest := ps[1..];
      if |p| > max {
        var split := Packing.PackSentences(TextSplit.Sentences(p), "", max);
        PiecesArePacked(rest, [], max);
        PackingOptimal.JoinOfNone();
        TextsOfFragments(split);
        PieceTextsCat(OpenPiece(current), Fragments(split));
        PieceTextsCat(OpenPiece(current) + Fragments(split), Pieces(rest, [], max));
      } else if PackingOptimal.Size(current) + |p| + 2 > max {
        PackingOptimal.JoinSnoc([], p);
        assert [] + [p] == [p];
        PiecesArePacked(rest, [p], max);
        PieceTextsCat(OpenPiece(current), Pieces(rest, [p], max));
      } else {
        PackingOptimal.GrowBuffer(current, p);
        PackingOptimal.SolidSnoc(current, p);
        PiecesArePacked(rest, current + [p], max);
      }
    }
  }

  /** Neighbouring groups do not fit one chunk. */
  ghost predicate Tight(pieces: seq<Piece>, max: nat) {
    forall k | 0 <= k < |pieces| - 1 && pieces[k].Group? && pieces[k+1].Group? ::
      pieces[k+1].paragraphs != [] && |PieceText(pieces[k])| + 2 + |pieces[k+1].paragraphs[0]| > max
  }

  lemma OversizedHasFragments(p: string, max: nat)
    requires TextSplit.Solid(p) && max > 0
    ensures Packing.PackSentences(TextSplit.Sentences(p), "", max) != []
  {
    hide TextSplit.Sentences, Packing.PackSentences, IsSpace;
    var ts := TextSplit.Sentences(p);
    TextSplit.SentencesKeepVisible(p);
    Packing.SentencesKeepText(ts, "", max);
    Packing.VisibleOfEmpty();
    if ts != [] {
      FirstIsVisible(ts[0], max);
    } else {
      Packing.SomethingVisible(p);
    }
  }

  lemma FirstIsVisible(t: string, max: nat)
    requires TextSplit.Solid(t) && max > 0
    ensures Visible(Packing.Cut(t, max)) != ""
  {
  }

  lemma TightCons(p: Piece, pieces: seq<Piece>, max: nat)
    requires Tight(pieces, max)
    requires pieces != [] && p.Group? && pieces[0].Group? ==>
               pieces[0].paragraphs != [] && |PieceText(p)| + 2 + |pieces[0].paragraphs[0]| > max
    ensures Tight([p] + pieces, max)
  {
    hide PieceText;
    var all := [p] + pieces;
    assert forall k | 1 <= k < |all| :: all[k] == pieces[k-1];
  }

  lemma {:induction false} FragmentsFirst(chunks: seq<string>, pieces: seq<Piece>, max: nat)
    requires Tight(pieces, max)
    ensures Tight(Fragments(chunks) + pieces, max)
    ensures chunks != [] ==> (Fragments(chunks) + pieces)[0].Fragment?
    decreases |chunks|
  {
    hide PieceText;
    if chunks == [] {
      assert [] + pieces == pieces;
    } else {
      FragmentsFirst(chunks[1..], pieces, max);
      assert Fragments(chunks) + pieces == [Fragment(chunks[0])] + (Fragments(chunks[1..]) + pieces);
      TightCons(Fragment(chunks[0]), Fragments(chunks[1..]) + pieces, max);
    }
  }

  /** No group could have taken the paragraph after it as well. */
  lemma {:induction false} PiecesAreTight(ps: seq<string>, current: seq<string>, max: nat)
    requires TextSplit.AllSolid(ps) && max > 0
    ensures Tight(Pieces(ps, current, max), max)
    ensures current != [] ==>
              var pieces := Pieces(ps, current, max);
              pieces != [] && pieces[0].Group? && pieces[0].paragraphs != [] && pieces[0].paragraphs[0] == current[0]
    decreases |ps|
  {
    hide JoinWith, TextSplit.Sentences, Packing.PackSentences, TextSplit.Solid, Tight, Fragments;
    NoPieces(max);
    if ps == [] {
      if current != [] { TightCons(Group(current), [], max); assert [Group(current)] + [] == [Group(current)]; }
    } else {
      if |ps[0]| > max {
        var chunks, more := Packing.PackSentences(TextSplit.Sentences(ps[0]), "", max), Pieces(ps[1..], [], max);
        PiecesAreTight(ps[1..], [], max);
        OversizedHasFragments(ps[0], max);
        FragmentsFirst(chunks, more, max);
        if current == [] {
          assert Pieces(ps, current, max) == Fragments(chunks) + more;
        } else {
          TightCons(Group(current), Fragments(chunks) + more, max);
          assert Pieces(ps, current, max) == [Group(current)] + (Fragments(chunks) + more);
        }
      } else if PackingOptimal.Size(current) + |ps[0]| + 2 > max {
        PiecesAreTight(ps[1..], [ps[0]], max);
        var more := Pieces(ps[1..], [ps[0]], max);
        if current == [] {
          assert Pieces(ps, current, max) == more;
        } else {
          TightCons(Group(current), more, max);
          assert Pieces(ps, current, max) == [Group(current)] + more;
        }
      } else {
        PiecesAreTight(ps[1..], current + [ps[0]], max);
      }
    }
  }

  lemma NoPieces(max: nat)
    ensures Tight([], max)
  {
  }

  // ------------------------------------------------------------------ fragments have no empty line

  lemma SliceHasNoBlankLine(s: string, from: nat, to: nat)
    requires NoBlankLine(s) && from <= to <= |s|
    ensures NoBlankLine(s[from..to])
  {
    forall i ensures !OccursAt(s[from..to], PromptText.BLANK_LINE, i) {
      PromptRoundTrip.OccursInSlice(s, PromptText.BLANK_LINE, from, to, from + i);
    }
  }

  lemma SpacedHasNoBlankLine(a: string, b: string)
    requires NoBlankLine(a) && NoBlankLine(b)
    ensures NoBlankLine(a + " " + b)
  {
    var s := a + " " + b;
    assert s[0..|a|] == a && s[|a|+1..|s|] == b && s[|a|] == ' ';
    forall i ensures !OccursAt(s, PromptText.BLANK_LINE, i) {
      PromptRoundTrip.OccursInSlice(s, PromptText.BLANK_LINE, 0, |a|, i);
      PromptRoundTrip.OccursInSlice(s, PromptText.BLANK_LINE, |a| + 1, |s|, i);
      if OccursAt(s, PromptText.BLANK_LINE, i) {
        PromptText.OccurrenceAt(s, PromptText.BLANK_LINE, i, 0);
        PromptText.OccurrenceAt(s, PromptText.BLANK_LINE, i, 1);
      }
    }
  }

  lemma {:induction false} SentencesHaveNoBlankLine(s: string)
    requires NoBlankLine(s)
    ensures NoneHasBlankLine(TextSplit.Sentences(s))
    decreases |s|
  {
    hide NoBlankLine, TextSplit.SentenceEnd, TextSplit.SpaceRun;
    var e := TextSplit.SentenceEnd(s, 1);
    if e < |s| {
      var r := TextSplit.SpaceRun(s, e);
      SliceHasNoBlankLine(s, 0, e);
      SliceHasNoBlankLine(s, r, |s|);
      assert s[0..e] == s[..e];
      assert s[r..|s|] == s[r..];
      assert NoBlankLine(s[r..]);
      SentencesHaveNoBlankLine(s[r..]);
    }
  }

  lemma {:induction false} FragmentsHaveNoBlankLine(sentences: seq<string>, buffer: string, max: nat)
    requires NoneHasBlankLine(sentences) && NoBlankLine(buffer)
    ensures NoneHasBlankLine(Packing.PackSentences(sentences, buffer, max))
    decreases |sentences|
  {
    hide NoBlankLine, Strip;
    StripKeepsAbsence(buffer);
    if sentences != [] {
      var s := sentences[0];
      if |buffer| + |s| + 1 > max {
        if |s| > max { SliceHasNoBlankLine(s, 0, max); assert s[0..max] == s[..max]; }
        FragmentsHaveNoBlankLine(sentences[1..], Packing.Cut(s, max), max);
      } else {
        SpacedHasNoBlankLine(buffer, s);
        StripKeepsAbsence(buffer + " " + s);
        FragmentsHaveNoBlankLine(sentences[1..], Strip(buffer + " " + s), max);
      }
    }
  }

  lemma EmptyHasNoBlankLine()
    ensures NoBlankLine("")
  {
  }

  /** The piece has no empty line: it is a fragment or a single paragraph. */
  predicate Single(p: Piece) { p.Fragment? || |p.paragraphs| == 1 }

  ghost predicate SinglesAreWhole(pieces: seq<Piece>) {
    forall k | 0 <= k < |pieces| :: NoBlankLine(PieceText(pieces[k])) <==> Single(pieces[k])
  }

  lemma {:induction false} FragmentsAreWhole(chunks: seq<string>)
    requires NoneHasBlankLine(chunks)
    ensures SinglesAreWhole(Fragments(chunks))
    decreases |chunks|
  {
    hide NoBlankLine;
    if chunks != [] { FragmentsAreWhole(chunks[1..]); }
  }

  lemma OpenIsWhole(current: seq<string>)
    requires NoneHasBlankLine(current)
    ensures SinglesAreWhole(OpenPiece(current))
  {
    hide NoBlankLine;
    if current != [] { JoinHasBlankLine(current); }
  }

  lemma {:induction false} PiecesAreWhole(ps: seq<string>, current: seq<string>, max: nat)
    requires NoneHasBlankLine(ps) && NoneHasBlankLine(current)
    ensures SinglesAreWhole(Pieces(ps, current, max))
    decreases |ps|
  {
    hide NoBlankLine, TextSplit.Sentences, Packing.PackSentences, OpenPiece, Fragments, PieceText;
    OpenIsWhole(current);
    if ps != [] {
      var p := ps[0];
      if |p| > max {
        SentencesHaveNoBlankLine(p);
        EmptyHasNoBlankLine();
        FragmentsHaveNoBlankLine(TextSplit.Sentences(p), "", max);
        FragmentsAreWhole(Packing.PackSentences(TextSplit.Sentences(p), "", max));
        PiecesAreWhole(ps[1..], [], max);
      } else if PackingOptimal.Size(current) + |p| + 2 > max {
        PiecesAreWhole(ps[1..], [p], max);
      } else {
        PiecesAreWhole(ps[1..], current + [p], max);
      }
    }
  }

  lemma {:induction false} TextAt(pieces: seq<Piece>, k: nat)
    requires k < |pieces|
    ensures |PieceTexts(pieces)| == |pieces| && PieceTexts(pieces)[k] == PieceText(pieces[k])
    decreases |pieces|
  {
    if k > 0 { TextAt(pieces[1..], k - 1); } else if |pieces| > 1 { TextAt(pieces[1..], 0); }
  }

  lemma {:induction false} AsManyTexts(pieces: seq<Piece>)
    ensures |PieceTexts(pieces)| == |pieces|
    decreases |pieces|
  {
    if pieces != [] { AsManyTexts(pieces[1..]); }
  }

  /** Any chunk of any file, printed into a prompt as a hit, comes back with its whole text exactly when it is a
      single paragraph or a fragment of an oversized one, and not several paragraphs. */
  lemma PackedChunkIsReadWhole(text: string, max: nat, k: nat, h: PromptText.Hit)
    requires k < |Packing.Packed(text, max)|
    requires PromptRoundTrip.Printable(h) && h.body == Packing.Packed(text, max)[k]
    ensures var pieces := Pieces(TextSplit.Paragraphs(text), [], max);
            && |pieces| == |Packing.Packed(text, max)| && PieceText(pieces[k]) == h.body
            && (PromptRoundTrip.Recovered(h)[0] == PromptRoundTrip.Whole(h) <==> Single(pieces[k]))
  {
    hide PromptRoundTrip.Recovered, PromptRoundTrip.Printable, TextSplit.Paragraphs, NoBlankLine, Pieces, TextSplit.AllSolid;
    var ps := TextSplit.Paragraphs(text);
    var pieces := Pieces(ps, [], max);
    TextSplit.ParagraphsKeepVisible(text);
    PackingOptimal.NoneIsSolid();
    PiecesArePacked(ps, [], max);
    AsManyTexts(pieces);
    TextAt(pieces, k);
    ParagraphsHaveNoBlankLine(text);
    PiecesAreWhole(ps, [], max);
    PromptRoundTrip.RecoveredNotEmpty(h);
    PromptRoundTrip.LaterTextIsMissing(h);
    NoBlankLineMeans(h.body);
  }

  lemma NoBlankLineMeans(s: string)
    ensures NoBlankLine(s) <==> !Contains(s, PromptText.BLANK_LINE)
  {
  }
}
