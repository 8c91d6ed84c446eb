/** Ordering of retrieval hits: by falling score, then by chunk id. */
module Ranking {

  datatype Doc = Doc(id: string, tokens: seq<string>)

  datatype Hit = Hit(doc: Doc, score: real)

  /** String comparison by code point. */
  predicate LexLeq(a: string, b: string) {
    a == "" || (b != "" && (a[0] < b[0] || (a[0] == b[0] && LexLeq(a[1..], b[1..]))))
  }

  lemma {:induction false} LexTotal(a: string, b: string)
    ensures LexLeq(a, b) || LexLeq(b, a)
    ensures LexLeq(a, b) && LexLeq(b, a) ==> a == b
    decreases |a|
  {
    if a != "" && b != "" && a[0] == b[0] {
      LexTotal(a[1..], b[1..]);
      assert a == [a[0]] + a[1..] && b == [b[0]] + b[1..];
    }
  }

  lemma {:induction false} LexTransitive(a: string, b: string, c: string)
    requires LexLeq(a, b) && LexLeq(b, c)
    ensures LexLeq(a, c)
    decreases |a|
  {
    if a != "" && a[0] == b[0] == c[0] { LexTransitive(a[1..], b[1..], c[1..]); }
  }

  /** The first difference decides, and a beginning comes before what it begins. */
  lemma {:induction false} FirstDifferenceDecides(common: string, a: string, b: string)
    ensures a == "" ==> LexLeq(common + a, common + b)
    ensures a != "" && b == "" ==> !LexLeq(common + a, common + b)
    ensures a != "" && b != "" && a[0] != b[0] ==> (LexLeq(common + a, common + b) <==> a[0] < b[0])
    decreases |common|
  {
    if common == "" {
      assert "" + a == a && "" + b == b;
    } else {
      assert (common + a)[1..] == common[1..] + a && (common + b)[1..] == common[1..] + b;
      FirstDifferenceDecides(common[1..], a, b);
    }
  }

  predicate Before(a: Hit, b: Hit) {
    a.score > b.score || (a.score == b.score && LexLeq(a.doc.id, b.doc.id))
  }

  lemma BeforeIsAnOrder(a: Hit, b: Hit, c: Hit)
    ensures Before(a, b) || Before(b, a)
    ensures Before(a, b) && Before(b, c) ==> Before(a, c)
    ensures Before(a, b) && Before(b, a) ==> a.score == b.score && a.doc.id == b.doc.id
  {
    LexTotal(a.doc.id, b.doc.id);
    if LexLeq(a.doc.id, b.doc.id) && LexLeq(b.doc.id, c.doc.id) { LexTransitive(a.doc.id, b.doc.id, c.doc.id); }
  }

  /** The stable sort by that order. */
  function Insert(h: Hit, hits: seq<Hit>): seq<Hit> {
    if hits == [] || Before(h, hits[0]) then [h] + hits else [hits[0]] + Insert(h, hits[1..])
  }

  function Rank(hits: seq<Hit>): seq<Hit> {
    if hits == [] then [] else Insert(hits[0], Rank(hits[1..]))
  }

  predicate Ranked(hits: seq<Hit>) { forall i, j | 0 <= i < j < |hits| :: Before(hits[i], hits[j]) }

  lemma {:induction false} InsertRanks(h: Hit, hits: seq<Hit>)
    requires Ranked(hits)
    ensures Ranked(Insert(h, hits)) && multiset(Insert(h, hits)) == multiset(hits) + multiset{h}
    decreases |hits|
  {
    hide Before;
    if hits != [] && !Before(h, hits[0]) {
      var tail := Insert(h, hits[1..]);
      InsertRanks(h, hits[1..]);
      assert hits == [hits[0]] + hits[1..];
      BeforeIsAnOrder(hits[0], h, h);
      forall j | 0 <= j < |tail| ensures Before(hits[0], tail[j]) {
        assert tail[j] in multiset(tail);
        assert tail[j] in hits[1..] || tail[j] == h;
      }
    } else {
      forall j | 0 <= j < |hits| ensures Before(h, hits[j]) {
        BeforeIsAnOrder(h, hits[0], hits[j]);
      }
    }
  }

  /** Sorting gives a ranked permutation. */
  lemma {:induction false} RankIsSorted(hits: seq<Hit>)
    ensures Ranked(Rank(hits)) && multiset(Rank(hits)) == multiset(hits)
    decreases |hits|
  {
    if hits != [] {
      RankIsSorted(hits[1..]);
      InsertRanks(hits[0], Rank(hits[1..]));
      assert hits == [hits[0]] + hits[1..];
    }
  }

  predicate DistinctIds(hits: seq<Hit>) { forall i, j | 0 <= i < j < |hits| :: hits[i].doc.id != hits[j].doc.id }

  lemma SameIdSameHit(hits: seq<Hit>, a: Hit, b: Hit)
    requires DistinctIds(hits) && a in hits && b in hits && a.doc.id == b.doc.id
    ensures a == b
  {
    var i :| 0 <= i < |hits| && hits[i] == a;
    var j :| 0 <= j < |hits| && hits[j] == b;
  }

  /** With distinct ids there is only one ranked order. */
  lemma {:induction false} RankingIsUnique(a: seq<Hit>, b: seq<Hit>)
    requires Ranked(a) && Ranked(b) && multiset(a) == multiset(b) && DistinctIds(a)
    ensures a == b
    decreases |a|
  {
    if a == [] {
      assert |multiset(a)| == |a| && |multiset(b)| == |b|;
    } else {
      assert a[0] in multiset(b) && |multiset(a)| == |multiset(b)|;
      var x, y := a[0], b[0];
      assert y in multiset(a);
      FirstIsBefore(a, y);
      FirstIsBefore(b, x);
      BeforeIsAnOrder(x, y, x);
      SameIdSameHit(a, x, y);
      assert a == [x] + a[1..] && b == [y] + b[1..];
      assert multiset(a[1..]) == multiset(a) - multiset{x};
      assert multiset(b[1..]) == multiset(b) - multiset{y};
      RankingIsUnique(a[1..], b[1..]);
    }
  }

  lemma FirstIsBefore(hits: seq<Hit>, h: Hit)
    requires Ranked(hits) && h in hits
    ensures Before(hits[0], h)
  {
    var i :| 0 <= i < |hits| && hits[i] == h;
    LexTotal(h.doc.id, h.doc.id);
  }
}
