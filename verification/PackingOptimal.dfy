/** The packer groups paragraphs in order and, when none is oversized, with as few chunks as possible. */
module PackingOptimal {
  import opened Text
  import opened TextSplit
  import opened Packing

  // ------------------------------------------------------------------ groupings

  function Flatten(groups: seq<seq<string>>): seq<string> {
    if groups == [] then [] else groups[0] + Flatten(groups[1..])
  }

  function Size(group: seq<string>): nat { |JoinWith(group, BLANK_LINE)| }

  /** An order-preserving grouping of the paragraphs into chunks within the limit. */
  predicate IsGrouping(groups: seq<seq<string>>, ps: seq<string>, max: nat) {
    Flatten(groups) == ps && forall k | 0 <= k < |groups| :: groups[k] != [] && Size(groups[k]) <= max
  }

  function Joined(groups: seq<seq<string>>): seq<string> {
    if groups == [] then [] else [JoinWith(groups[0], BLANK_LINE)] + Joined(groups[1..])
  }

  predicate NoneOversized(ps: seq<string>, max: nat) { forall k | 0 <= k < |ps| :: |ps[k]| <= max }

  /** The grouping the packer chooses, with the group under construction. */
  function Greedy(ps: seq<string>, current: seq<string>, max: nat): seq<seq<string>>
    decreases |ps|
  {
    if ps == [] then (if current == [] then [] else [current])
    else if Size(current) + |ps[0]| + 2 > max then
      (if current == [] then [] else [current]) + Greedy(ps[1..], [ps[0]], max)
    else Greedy(ps[1..], current + [ps[0]], max)
  }

  lemma JoinSnoc(group: seq<string>, p: string)
    ensures group != [] ==> JoinWith(group + [p], BLANK_LINE) == JoinWith(group, BLANK_LINE) + BLANK_LINE + p
    ensures group == [] ==> JoinWith(group + [p], BLANK_LINE) == p
  {
    if group == [] {
      assert group + [p] == [p];
    } else {
      JoinCat(group, [p], BLANK_LINE);
    }
  }

  lemma {:induction false} JoinIsSolid(group: seq<string>)
    requires group != [] && AllSolid(group)
    ensures Solid(JoinWith(group, BLANK_LINE))
    decreases |group|
  {
    hide IsSpace;
    if |group| > 1 { JoinIsSolid(group[1..]); }
  }

  /** Appending a paragraph to the buffer is appending it to the group. */
  lemma GrowBuffer(current: seq<string>, p: string)
    requires AllSolid(current) && Solid(p)
    ensures Strip(JoinWith(current, BLANK_LINE) + BLANK_LINE + p) == JoinWith(current + [p], BLANK_LINE)
  {
    hide Strip, IsSpace, JoinWith;
    JoinSnoc(current, p);
    if current == [] {
      GapsAreSpace();
      EmptyIsBlank();
      JoinOfNone();
      StripSurrounded(BLANK_LINE, p, "");
      assert "" + BLANK_LINE + p == BLANK_LINE + p + "";
    } else {
      JoinIsSolid(current + [p]);
      StripOfStripped(JoinWith(current + [p], BLANK_LINE));
    }
  }

  lemma JoinOfNone()
    ensures JoinWith([], BLANK_LINE) == ""
  {
  }

  lemma JoinedCat(a: seq<seq<string>>, b: seq<seq<string>>)
    requires |a| <= 1
    ensures Joined(a + b) == Joined(a) + Joined(b) && Flatten(a + b) == Flatten(a) + Flatten(b)
  {
    if a == [] {
      assert a + b == b;
    } else {
      assert (a + b)[1..] == b && a[1..] == [];
      assert a[0] + [] == a[0];
    }
  }

  function Open(current: seq<string>): seq<seq<string>> { if current == [] then [] else [current] }

  lemma OpenIsFlush(current: seq<string>)
    requires AllSolid(current)
    ensures Joined(Open(current)) == Flush(JoinWith(current, BLANK_LINE)) && Flatten(Open(current)) == current
  {
    if current != [] {
      JoinIsSolid(current);
      assert [current][1..] == [];
    }
  }

  lemma SolidSnoc(current: seq<string>, p: string)
    requires AllSolid(current) && Solid(p)
    ensures AllSolid(current + [p])
  {
  }

  /** The packer's chunks are the greedy groups, joined. */
  lemma {:induction false} GreedyIsPacked(ps: seq<string>, current: seq<string>, max: nat)
    requires AllSolid(ps) && AllSolid(current) && NoneOversized(ps, max) && Size(current) <= max
    ensures Joined(Greedy(ps, current, max)) == PackParagraphs(ps, JoinWith(current, BLANK_LINE), max)
    ensures IsGrouping(Greedy(ps, current, max), current + ps, max)
    decreases |ps|
  {
    hide Strip, Solid, JoinWith, Sentences, PackSentences, Flush;
    OpenIsFlush(current);
    if ps == [] {
      assert current + ps == current;
    } else {
      var p := ps[0];
      JoinSnoc([], p);
      assert [] + [p] == [p];
      if Size(current) + |p| + 2 > max {
        GreedyIsPacked(ps[1..], [p], max);
        JoinedCat(Open(current), Greedy(ps[1..], [p], max));
        assert [p] + ps[1..] == ps;
      } else {
        GrowBuffer(current, p);
        SolidSnoc(current, p);
        JoinSnoc(current, p);
        GreedyIsPacked(ps[1..], current + [p], max);
        assert current + [p] + ps[1..] == current + ps;
      }
    }
  }

  // ------------------------------------------------------------------ counting

  /** How many groups the packer makes, from the sizes alone; a size of 0 means no open group. */
  function Count(ps: seq<string>, open: nat, max: nat): nat
    decreases |ps|
  {
    if ps == [] then (if open == 0 then 0 else 1)
    else if open + |ps[0]| + 2 > max then (if open == 0 then 0 else 1) + Count(ps[1..], |ps[0]|, max)
    else Count(ps[1..], if open == 0 then |ps[0]| else open + 2 + |ps[0]|, max)
  }

  lemma {:induction false} GreedyCount(ps: seq<string>, current: seq<string>, max: nat)
    requires AllSolid(ps) && AllSolid(current)
    ensures |Greedy(ps, current, max)| == Count(ps, Size(current), max)
    decreases |ps|
  {
    hide Solid, JoinWith;
    if current != [] { JoinIsSolid(current); SolidIsNotEmpty(JoinWith(current, BLANK_LINE)); } else { JoinOfNone(); }
    if ps != [] {
      var p := ps[0];
      JoinSnoc([], p);
      assert [] + [p] == [p];
      if Size(current) + |p| + 2 > max {
        GreedyCount(ps[1..], [p], max);
      } else {
        SolidSnoc(current, p);
        JoinSnoc(current, p);
        GreedyCount(ps[1..], current + [p], max);
      }
    }
  }

  lemma SolidIsNotEmpty(s: string)
    requires Solid(s)
    ensures |s| > 0
  {
  }

  /** A smaller open group is never worse, and any open group costs at most one chunk. */
  lemma {:induction false} OpenGroups(ps: seq<string>, small: nat, large: nat, max: nat)
    requires AllSolid(ps) && 0 < small <= large
    ensures Count(ps, small, max) <= Count(ps, large, max) <= 1 + Count(ps, small, max)
    ensures Count(ps, 0, max) <= Count(ps, large, max) <= 1 + Count(ps, 0, max)
    decreases |ps|
  {
    hide Stripped;
    if ps != [] {
      var p := |ps[0]|;
      var rest := ps[1..];
      OpenGroups(rest, p, large + 2 + p, max);
      OpenGroups(rest, p, small + 2 + p, max);
      OpenGroups(rest, small + 2 + p, large + 2 + p, max);
    }
  }

  /** Paragraphs that fit together with the open group are added to it. */
  lemma {:induction false} AddGroup(group: seq<string>, rest: seq<string>, open: nat, max: nat)
    requires group != [] && AllSolid(group)
    requires (if open == 0 then 0 else open + 2) + Size(group) <= max
    ensures Count(group + rest, open, max) <= Count(rest, (if open == 0 then 0 else open + 2) + Size(group), max)
    decreases |group|
  {
    hide Stripped;
    var p := group[0];
    var base := if open == 0 then 0 else open + 2;
    assert (group + rest)[0] == p && (group + rest)[1..] == group[1..] + rest;
    if |group| == 1 {
      assert group[1..] + rest == rest;
    } else {
      AddGroup(group[1..], rest, base + |p|, max);
    }
  }

  lemma {:induction false} NoGroupingIsSmaller(groups: seq<seq<string>>, ps: seq<string>, max: nat)
    requires AllSolid(ps) && IsGrouping(groups, ps, max)
    ensures Count(ps, 0, max) <= |groups|
    decreases |groups|
  {
    hide Stripped, JoinWith;
    if groups != [] {
      var rest := Flatten(groups[1..]);
      assert ps == groups[0] + rest;
      assert forall k | 0 <= k < |rest| :: rest[k] == ps[|groups[0]|+k];
      assert forall k | 0 <= k < |groups[0]| :: groups[0][k] == ps[k];
      assert forall k | 0 <= k < |groups| - 1 :: groups[1..][k] == groups[k+1];
      NoGroupingIsSmaller(groups[1..], rest, max);
      AddGroup(groups[0], rest, 0, max);
      JoinIsSolid(groups[0]);
      OpenGroups(rest, Size(groups[0]), Size(groups[0]), max);
    }
  }

  /** When no paragraph is oversized, the chunks are an order-preserving grouping of the paragraphs, and no
      other order-preserving grouping within the limit has fewer chunks. */
  lemma PackingIsOptimal(text: string, max: nat, groups: seq<seq<string>>)
    requires NoneOversized(Paragraphs(text), max) && IsGrouping(groups, Paragraphs(text), max)
    ensures exists greedy :: IsGrouping(greedy, Paragraphs(text), max) && Packed(text, max) == Joined(greedy)
    ensures |Packed(text, max)| <= |groups|
  {
    hide Paragraphs, PackParagraphs, Greedy, AllSolid, IsGrouping, NoneOversized;
    var ps := Paragraphs(text);
    ParagraphsKeepVisible(text);
    NoneIsSolid();
    var greedy := Greedy(ps, [], max);
    GreedyIsPacked(ps, [], max);
    assert [] + ps == ps;
    GreedyCount(ps, [], max);
    JoinedLength(greedy);
    NoGroupingIsSmaller(groups, ps, max);
    assert IsGrouping(greedy, ps, max) && Packed(text, max) == Joined(greedy);
  }

  lemma NoneIsSolid()
    ensures AllSolid([]) && JoinWith([], BLANK_LINE) == ""
  {
  }

  lemma {:induction false} JoinedLength(groups: seq<seq<string>>)
    ensures |Joined(groups)| == |groups|
    decreases |groups|
  {
    if groups != [] { JoinedLength(groups[1..]); }
  }
}
