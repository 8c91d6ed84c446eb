/** How the sentences of an oversized paragraph are packed, said without the loop: in order, each group joined by
    spaces, and no group could have taken the next sentence as well. */
module SentencePacking {
  import opened Text
  import opened TextSplit
  import opened Packing
  import PackingOptimal

  /** A group as it is packed: the sentences, cut to the limit and joined by spaces. */
  function Buffer(group: seq<string>, max: nat): string { JoinWith(CutAll(group, max), " ") }

  /** The chunks of the groups; one that is cut to nothing gives none. */
  function Chunks(groups: seq<seq<string>>, max: nat): seq<string> {
    if groups == [] then []
    else (if Strip(Buffer(groups[0], max)) == "" then [] else [Strip(Buffer(groups[0], max))]) + Chunks(groups[1..], max)
  }

  /** Only a sentence on its own is cut. */
  predicate Fits(group: seq<string>, max: nat) {
    group != [] && (|group| > 1 ==> |JoinWith(group, " ")| <= max && CutAll(group, max) == group)
  }

  /** The sentences in order, in groups that fit, none of which has room for the sentence after it. */
  ghost predicate PackedTightly(groups: seq<seq<string>>, sentences: seq<string>, max: nat) {
    && PackingOptimal.Flatten(groups) == sentences
    && (forall k | 0 <= k < |groups| :: Fits(groups[k], max))
    && (forall k | 0 <= k < |groups| - 1 :: |Buffer(groups[k], max)| + 1 + |groups[k+1][0]| > max)
  }

  lemma BufferOfOne(s: string, max: nat)
    ensures Buffer([s], max) == Cut(s, max) && CutAll([s], max) == [Cut(s, max)]
  {
    assert [s][1..] == [] && CutAll([], max) == [];
    assert CutAll([s], max) == [Cut(s, max)];
  }

  lemma {:induction false} CutAllSnoc(group: seq<string>, s: string, max: nat)
    ensures CutAll(group + [s], max) == CutAll(group, max) + [Cut(s, max)]
    decreases |group|
  {
    if group == [] {
      assert [] + [s] == [s];
      BufferOfOne(s, max);
    } else {
      assert (group + [s])[1..] == group[1..] + [s];
      CutAllSnoc(group[1..], s, max);
    }
  }

  lemma {:induction false} JoinIsSolid(group: seq<string>)
    requires group != [] && AllSolid(group)
    ensures Solid(JoinWith(group, " ")) && !IsSpace(JoinWith(group, " ")[0])
    decreases |group|
  {
    hide IsSpace;
    if |group| > 1 { JoinIsSolid(group[1..]); }
  }

  /** A group whose buffer is below the limit has not been cut. */
  lemma NotCut(group: seq<string>, max: nat)
    requires Fits(group, max) && |Buffer(group, max)| < max
    ensures CutAll(group, max) == group && Buffer(group, max) == JoinWith(group, " ")
  {
    if |group| == 1 { assert group == [group[0]]; BufferOfOne(group[0], max); }
  }

  /** A sentence that fits behind the buffer joins the group. */
  lemma GrowGroup(group: seq<string>, s: string, max: nat)
    requires Fits(group, max) && AllSolid(group) && Solid(s) && |Buffer(group, max)| + |s| + 1 <= max
    ensures Fits(group + [s], max) && AllSolid(group + [s])
    ensures Strip(Buffer(group, max) + " " + s) == Buffer(group + [s], max)
  {
    hide Strip, IsSpace, CutAll;
    NotCut(group, max);
    CutAllSnoc(group, s, max);
    JoinCat(group, [s], " ");
    assert JoinWith([s], " ") == s;
    JoinIsSolid(group + [s]);
    StripOfStripped(JoinWith(group + [s], " "));
  }

  lemma StartGroup(s: string, max: nat)
    requires Solid(s)
    ensures Fits([s], max) && AllSolid([s])
    ensures |s| + 1 <= max ==> Strip("" + " " + s) == Buffer([s], max)
    ensures Buffer([s], max) == Cut(s, max)
  {
    hide Strip, IsSpace;
    BufferOfOne(s, max);
    GapsAreSpace();
    EmptyIsBlank();
    StripSurrounded(" ", s, "");
    assert "" + " " + s == " " + s + "";
  }

  /** What is flushed is the chunk of the group. */
  lemma FlushedChunk(group: seq<string>, max: nat)
    requires Fits(group, max) && AllSolid(group)
    ensures Buffer(group, max) == "" <==> Strip(Buffer(group, max)) == ""
  {
    hide Strip, IsSpace;
    var b := Buffer(group, max);
    if |group| > 1 { JoinIsSolid(group); } else { assert group == [group[0]]; BufferOfOne(group[0], max); }
    EmptyIsBlank();
    if b != "" { VisibleStart(b); }
  }

  lemma VisibleStart(b: string)
    requires b != "" && !IsSpace(b[0])
    ensures Strip(b) != ""
  {
    hide Strip, IsSpace;
    StripIsBlank(b);
  }

  lemma ChunksCons(group: seq<string>, groups: seq<seq<string>>, max: nat)
    ensures Chunks([group] + groups, max) ==
            (if Strip(Buffer(group, max)) == "" then [] else [Strip(Buffer(group, max))]) + Chunks(groups, max)
    ensures PackingOptimal.Flatten([group] + groups) == group + PackingOptimal.Flatten(groups)
  {
    assert ([group] + groups)[1..] == groups;
  }

  lemma TightCons(group: seq<string>, groups: seq<seq<string>>, rest: seq<string>, max: nat)
    requires PackedTightly(groups, rest, max) && Fits(group, max)
    requires groups != [] ==> |Buffer(group, max)| + 1 + |groups[0][0]| > max
    ensures PackedTightly([group] + groups, group + rest, max)
  {
    hide Fits, Buffer;
    ChunksCons(group, groups, max);
    var all := [group] + groups;
    assert forall k | 1 <= k < |all| :: all[k] == groups[k-1];
  }

  /** Packing from an open group. */
  lemma {:induction false} PacksFrom(current: seq<string>, sentences: seq<string>, max: nat) returns (groups: seq<seq<string>>)
    requires AllSolid(current) && AllSolid(sentences) && Fits(current, max)
    ensures PackedTightly(groups, current + sentences, max)
    ensures groups != [] && groups[0] != [] && groups[0][0] == current[0]
    ensures PackSentences(sentences, Buffer(current, max), max) == Chunks(groups, max)
    decreases |sentences|
  {
    hide Strip, IsSpace, Fits, Buffer, Solid, PackedTightly;
    FitsMeans(current, max);
    FlushedChunk(current, max);
    ChunksCons(current, [], max);
    if sentences == [] {
      NoGroups(max);
      TightCons(current, [], [], max);
      groups := [current] + [];
    } else {
      var s, rest := sentences[0], sentences[1..];
      if |Buffer(current, max)| + |s| + 1 > max {
        StartGroup(s, max);
        var more := PacksFrom([s], rest, max);
        TightCons(current, more, [s] + rest, max);
        ChunksCons(current, more, max);
        groups := [current] + more;
        assert [s] + rest == sentences;
      } else {
        GrowGroup(current, s, max);
        groups := PacksFrom(current + [s], rest, max);
        assert current + [s] + rest == current + sentences;
      }
    }
  }

  lemma FitsMeans(group: seq<string>, max: nat)
    requires Fits(group, max)
    ensures group != []
  {
  }

  lemma NoGroups(max: nat)
    ensures PackedTightly([], [], max) && Chunks([], max) == []
  {
  }

  /** The chunks of an oversized paragraph are its sentences, in order and packed tightly: only a sentence longer than
      the limit is cut, and two neighbouring chunks never fit one. */
  lemma SentencesArePackedTightly(paragraph: string, max: nat)
    requires Solid(paragraph)
    ensures exists groups :: PackedTightly(groups, Sentences(paragraph), max) &&
                             PackSentences(Sentences(paragraph), "", max) == Chunks(groups, max)
  {
    hide Strip, IsSpace, PackedTightly, PackSentences, Chunks, Visible;
    var sentences := Sentences(paragraph);
    SentencesKeepVisible(paragraph);
    ThereIsOne(paragraph);
    var groups := PacksFrom([sentences[0]], sentences[1..], max) by { StartGroup(sentences[0], max); }
    assert [sentences[0]] + sentences[1..] == sentences;
    FirstSentence(sentences, max);
  }

  lemma ThereIsOne(paragraph: string)
    ensures Sentences(paragraph) != []
  {
  }

  /** The first sentence starts the first group, on either branch of the loop. */
  lemma FirstSentence(sentences: seq<string>, max: nat)
    requires sentences != [] && AllSolid(sentences)
    ensures PackSentences(sentences, "", max) == PackSentences(sentences[1..], Buffer([sentences[0]], max), max)
  {
    hide Strip, IsSpace, Buffer;
    StartGroup(sentences[0], max);
  }

  // ------------------------------------------------------------------ there is only one such packing

  lemma {:induction false} JoinLength(group: seq<string>, n: nat)
    requires 0 < n < |group|
    ensures |JoinWith(group[..n], " ")| + 1 + |group[n]| <= |JoinWith(group, " ")|
    decreases |group|
  {
    assert group[..n][1..] == group[1..][..n-1];
    if n > 1 { JoinLength(group[1..], n - 1); }
  }

  lemma {:induction false} CutAllTake(group: seq<string>, n: nat, max: nat)
    requires n <= |group| && CutAll(group, max) == group
    ensures CutAll(group[..n], max) == group[..n]
    decreases n
  {
    if n > 0 {
      assert group[..n][1..] == group[1..][..n-1];
      assert CutAll(group, max)[1..] == CutAll(group[1..], max);
      CutAllTake(group[1..], n - 1, max);
      assert group[..n] == [group[0]] + group[1..][..n-1];
      assert CutAll(group, max)[0] == group[0];
    }
  }

  lemma FirstGroupIsLongest(groups: seq<seq<string>>, others: seq<seq<string>>, sentences: seq<string>, max: nat)
    requires PackedTightly(groups, sentences, max) && PackedTightly(others, sentences, max) && groups != [] && others != []
    ensures |groups[0]| >= |others[0]|
  {
    hide Buffer;
    var a, b := groups[0], others[0];
    assert sentences == a + PackingOptimal.Flatten(groups[1..]) && sentences == b + PackingOptimal.Flatten(others[1..]);
    if |a| < |b| {
      var tail := PackingOptimal.Flatten(groups[1..]);
      assert |sentences| == |a| + |tail| && |sentences| >= |b|;
      SecondGroup(groups);
      assert a == sentences[..|a|] && b == sentences[..|b|];
      assert groups[1][0] == tail[0] == sentences[|a|] == b[|a|];
      assert |Buffer(groups[0], max)| + 1 + |groups[0+1][0]| > max;
      assert a == b[..|a|];
      JoinLength(b, |a|);
      CutAllTake(b, |a|, max);
      BufferUncut(a, max);
    }
  }

  lemma BufferUncut(group: seq<string>, max: nat)
    requires CutAll(group, max) == group
    ensures Buffer(group, max) == JoinWith(group, " ")
  {
  }

  lemma SecondGroup(groups: seq<seq<string>>)
    requires groups != [] && forall k | 0 <= k < |groups| :: groups[k] != []
    ensures PackingOptimal.Flatten(groups[1..]) != [] ==>
              |groups| > 1 && PackingOptimal.Flatten(groups[1..])[0] == groups[1][0]
  {
  }

  lemma {:induction false} TightIsUnique(groups: seq<seq<string>>, others: seq<seq<string>>, sentences: seq<string>, max: nat)
    requires PackedTightly(groups, sentences, max) && PackedTightly(others, sentences, max)
    ensures groups == others
    decreases |groups|
  {
    hide Fits, Buffer, PackedTightly;
    TightMeans(groups, sentences, max);
    TightMeans(others, sentences, max);
    if groups == [] || others == [] {
      assert sentences == [];
    } else {
      FirstGroupIsLongest(groups, others, sentences, max);
      FirstGroupIsLongest(others, groups, sentences, max);
      var x, y := PackingOptimal.Flatten(groups[1..]), PackingOptimal.Flatten(others[1..]);
      assert groups[0] == sentences[..|groups[0]|] && others[0] == sentences[..|others[0]|];
      assert x == sentences[|groups[0]|..] && y == sentences[|others[0]|..];
      TightIsUnique(groups[1..], others[1..], x, max);
      assert groups == [groups[0]] + groups[1..] && others == [others[0]] + others[1..];
    }
  }

  lemma TightMeans(groups: seq<seq<string>>, sentences: seq<string>, max: nat)
    requires PackedTightly(groups, sentences, max)
    ensures groups == [] <==> sentences == []
    ensures groups != [] ==>
              && PackedTightly(groups[1..], PackingOptimal.Flatten(groups[1..]), max)
              && sentences == groups[0] + PackingOptimal.Flatten(groups[1..])
  {
    hide Buffer;
    if groups != [] { assert groups[0] != []; }
  }

  /** The chunks of an oversized paragraph are those of the tight packing of its sentences, and of no other. */
  lemma PackedSentencesAre(paragraph: string, max: nat, groups: seq<seq<string>>)
    requires Solid(paragraph) && PackedTightly(groups, Sentences(paragraph), max)
    ensures PackSentences(Sentences(paragraph), "", max) == Chunks(groups, max)
  {
    hide PackedTightly, PackSentences, Chunks;
    SentencesArePackedTightly(paragraph, max);
    var own :| PackedTightly(own, Sentences(paragraph), max) && PackSentences(Sentences(paragraph), "", max) == Chunks(own, max);
    TightIsUnique(groups, own, Sentences(paragraph), max);
  }
}
