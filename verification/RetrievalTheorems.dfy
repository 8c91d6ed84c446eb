/** What a search returns, whatever the order of the chunks. */
module RetrievalTheorems {
  import opened Ranking
  import opened Retrieval

  // ------------------------------------------------------------------ normalised scores

  lemma PeakIsGreatest(q: Query, docs: seq<Doc>, d: Doc)
    requires LogOk(q.log) && d in docs
    ensures 0.0 <= Score(q, docs, q.terms, d) <= Peak(q, docs)
  {
    ScoreSign(q, docs, q.terms, d);
    MaxIsGreatest(Scores(q, docs));
    var i :| 0 <= i < |docs| && docs[i] == d;
    assert Scores(q, docs)[i] == Score(q, docs, q.terms, d);
  }

  lemma PeakIsReached(q: Query, docs: seq<Doc>) returns (d: Doc)
    requires docs != []
    ensures d in docs && Score(q, docs, q.terms, d) == Peak(q, docs)
  {
    MaxIsGreatest(Scores(q, docs));
    var i :| 0 <= i < |Scores(q, docs)| && Scores(q, docs)[i] == MaxOf(Scores(q, docs));
    d := docs[i];
  }

  predicate AnyMatch(terms: set<string>, docs: seq<Doc>) { exists d | d in docs :: Matches(terms, d) }

  lemma PeakSign(q: Query, docs: seq<Doc>)
    requires LogOk(q.log)
    ensures Peak(q, docs) >= 0.0
    ensures Peak(q, docs) > 0.0 <==> AnyMatch(q.terms, docs)
  {
    hide Score, Matches, Peak;
    if docs == [] {
      NoPeak(q);
    } else {
      var top := PeakIsReached(q, docs);
      ScoreSign(q, docs, q.terms, top);
      if AnyMatch(q.terms, docs) {
        var d :| d in docs && Matches(q.terms, d);
        ScoreSign(q, docs, q.terms, d);
        PeakIsGreatest(q, docs, d);
      }
    }
  }

  lemma NoPeak(q: Query)
    ensures Peak(q, []) == 0.0
  {
  }

  lemma QuotientAtMostOne(a: real, b: real)
    requires 0.0 <= a <= b && b > 0.0
    ensures 0.0 <= a / b <= 1.0
    ensures a == b ==> a / b == 1.0
    ensures a / b > 0.0 <==> a > 0.0
  {
  }

  /** Normalised scores lie between 0 and 1 and are positive exactly for documents that share a term with the
      query. */
  lemma NormalisedRange(q: Query, docs: seq<Doc>, d: Doc)
    requires LogOk(q.log) && d in docs
    ensures 0.0 <= Normalised(q, docs, d) <= 1.0
    ensures Normalised(q, docs, d) > 0.0 <==> Matches(q.terms, d)
  {
    hide Score, Matches, Peak;
    PeakIsGreatest(q, docs, d);
    ScoreSign(q, docs, q.terms, d);
    if Peak(q, docs) > 0.0 {
      QuotientAtMostOne(Score(q, docs, q.terms, d), Peak(q, docs));
    }
  }

  /** The best chunk is normalised to 1 exactly when some chunk shares a term with the query. */
  lemma PeakNormalisedToOne(q: Query, docs: seq<Doc>)
    requires LogOk(q.log)
    ensures (exists d | d in docs :: Normalised(q, docs, d) == 1.0) <==> AnyMatch(q.terms, docs)
  {
    hide Score, Matches, Peak;
    PeakSign(q, docs);
    if AnyMatch(q.terms, docs) {
      var top := PeakIsReached(q, docs);
      QuotientAtMostOne(Peak(q, docs), Peak(q, docs));
      assert Normalised(q, docs, top) == 1.0;
    }
  }

  // ------------------------------------------------------------------ the hits

  ghost function HitOf(q: Query, docs: seq<Doc>, d: Doc): Hit { Hit(d, q.round(Normalised(q, docs, d))) }

  /** The candidates are exactly the documents at or above the threshold. */
  lemma {:induction false} CandidatesAre(q: Query, docs: seq<Doc>, some: seq<Doc>, h: Hit)
    ensures h in Candidates(q, docs, some) <==>
            h.doc in some && Normalised(q, docs, h.doc) >= q.minScore && h == HitOf(q, docs, h.doc)
    decreases |some|
  {
    hide Normalised;
    if some != [] {
      CandidatesAre(q, docs, some[1..], h);
      assert some == [some[0]] + some[1..];
    }
  }

  /** The hits are the first `topK` of the candidates by falling score and then chunk id: they are ranked, there
      are as many as asked for if there are enough, and every candidate left out ranks behind every hit. */
  lemma HitsAreTheBest(q: Query, docs: seq<Doc>)
    ensures var hits, rest := Results(q, docs), Candidates(q, docs, docs);
            && Ranked(hits)
            && multiset(hits) <= multiset(rest)
            && |hits| == (if |rest| <= q.topK then |rest| else q.topK)
            && forall a, b | a in hits && b in multiset(rest) - multiset(hits) :: Before(a, b)
    ensures var hits, rest := Results(q, docs), Candidates(q, docs, docs);
            && (forall i, j | 0 <= i < j < |hits| ::
                  hits[i].score > hits[j].score || (hits[i].score == hits[j].score && LexLeq(hits[i].doc.id, hits[j].doc.id)))
            && forall a, b | a in hits && b in multiset(rest) - multiset(hits) :: a.score >= b.score
  {
    hide Candidates, Rank, LexLeq;
    var all := Rank(Candidates(q, docs, docs));
    RankIsSorted(Candidates(q, docs, docs));
    assert |multiset(all)| == |all| && |multiset(Candidates(q, docs, docs))| == |Candidates(q, docs, docs)|;
    var n := |Results(q, docs)|;
    assert Results(q, docs) == all[..n];
    PrefixIsBest(all, n);
  }

  lemma PrefixIsBest(all: seq<Hit>, n: nat)
    requires Ranked(all) && n <= |all|
    ensures Ranked(all[..n]) && multiset(all[..n]) <= multiset(all)
    ensures forall a, b | a in all[..n] && b in multiset(all) - multiset(all[..n]) :: Before(a, b)
  {
    hide Before;
    assert all == all[..n] + all[n..];
    assert multiset(all) == multiset(all[..n]) + multiset(all[n..]);
    forall a, b | a in all[..n] && b in multiset(all) - multiset(all[..n]) ensures Before(a, b) {
      assert b in multiset(all[n..]);
      var i :| 0 <= i < n && all[..n][i] == a;
      var j :| 0 <= j < |all[n..]| && all[n..][j] == b;
      assert all[i] == a && all[n+j] == b;
    }
  }

  /** With a positive threshold of at most 1 and room for a hit, the search returns something exactly when some
      chunk shares a term with the query, and everything it returns does. */
  lemma HitsShareATerm(q: Query, docs: seq<Doc>)
    requires LogOk(q.log) && 0.0 < q.minScore <= 1.0 && q.topK > 0
    ensures Results(q, docs) != [] <==> AnyMatch(q.terms, docs)
    ensures forall k | 0 <= k < |Results(q, docs)| :: Results(q, docs)[k].doc in docs && Matches(q.terms, Results(q, docs)[k].doc)
  {
    hide Candidates, Results, Matches, Normalised, Ranked;
    HitsAreTheBest(q, docs);
    var hits, cs := Results(q, docs), Candidates(q, docs, docs);
    forall k | 0 <= k < |hits| ensures hits[k].doc in docs && Matches(q.terms, hits[k].doc) {
      assert hits[k] in multiset(cs);
      CandidatesAre(q, docs, docs, hits[k]);
      NormalisedRange(q, docs, hits[k].doc);
    }
    if hits != [] {
      assert Matches(q.terms, hits[0].doc);
    }
    PeakNormalisedToOne(q, docs);
    if AnyMatch(q.terms, docs) {
      var d :| d in docs && Normalised(q, docs, d) == 1.0;
      CandidatesAre(q, docs, docs, HitOf(q, docs, d));
    }
  }

  // ------------------------------------------------------------------ the order of the chunks does not matter

  predicate SameDocs(a: seq<Doc>, b: seq<Doc>) { multiset(a) == multiset(b) }

  function Without(b: seq<Doc>, j: nat): seq<Doc>
    requires j < |b|
  {
    b[..j] + b[j+1..]
  }

  lemma TakeOut(a: seq<Doc>, b: seq<Doc>) returns (j: nat)
    requires SameDocs(a, b) && a != []
    ensures j < |b| && b[j] == a[0] && SameDocs(a[1..], Without(b, j))
  {
    assert a[0] in multiset(b);
    j :| 0 <= j < |b| && b[j] == a[0];
    assert a == [a[0]] + a[1..];
    assert b == b[..j] + [b[j]] + b[j+1..];
    assert multiset(Without(b, j)) == multiset(b) - multiset{a[0]};
    assert multiset(a[1..]) == multiset(a) - multiset{a[0]};
  }

  lemma {:induction false} StatsCat(a: seq<Doc>, b: seq<Doc>, t: string)
    ensures DocCount(a + b, t) == DocCount(a, t) + DocCount(b, t) && TotalLength(a + b) == TotalLength(a) + TotalLength(b)
    decreases |a|
  {
    if a == [] {
      assert a + b == b;
    } else {
      assert (a + b)[1..] == a[1..] + b;
      StatsCat(a[1..], b, t);
    }
  }

  lemma StatsWithout(b: seq<Doc>, j: nat, t: string)
    requires j < |b|
    ensures DocCount(b, t) == (if t in b[j].tokens then 1 else 0) + DocCount(Without(b, j), t)
    ensures TotalLength(b) == |b[j].tokens| + TotalLength(Without(b, j))
  {
    assert b == b[..j] + b[j..] && b[j..][1..] == b[j+1..];
    StatsCat(b[..j], b[j..], t);
    StatsCat(b[..j], b[j+1..], t);
  }

  lemma {:induction false} StatsIgnoreOrder(a: seq<Doc>, b: seq<Doc>, t: string)
    requires SameDocs(a, b)
    ensures |a| == |b| && DocCount(a, t) == DocCount(b, t) && TotalLength(a) == TotalLength(b)
    decreases |a|
  {
    assert |multiset(a)| == |a| && |multiset(b)| == |b|;
    if a != [] {
      var j := TakeOut(a, b);
      StatsWithout(b, j, t);
      StatsIgnoreOrder(a[1..], Without(b, j), t);
    }
  }

  lemma WeightIgnoresOrder(q: Query, a: seq<Doc>, b: seq<Doc>, d: Doc, t: string)
    requires SameDocs(a, b)
    ensures Weight(q, a, d, t) == Weight(q, b, d, t)
  {
    hide Gain, Idf, Denominator;
    StatsIgnoreOrder(a, b, t);
    AverageIsNotNegative(a);
  }

  lemma {:induction false} ScoreIgnoresOrder(q: Query, a: seq<Doc>, b: seq<Doc>, terms: set<string>, d: Doc)
    requires SameDocs(a, b)
    ensures Score(q, a, terms, d) == Score(q, b, terms, d)
    decreases |terms|
  {
    hide Weight, SameDocs;
    if terms != {} {
      var t :| t in terms;
      ScorePick(q, a, terms, d, t);
      ScorePick(q, b, terms, d, t);
      WeightIgnoresOrder(q, a, b, d, t);
      ScoreIgnoresOrder(q, a, b, terms - {t}, d);
    }
  }

  lemma PeakAtMost(q: Query, a: seq<Doc>, b: seq<Doc>)
    requires SameDocs(a, b) && a != []
    ensures Peak(q, a) <= Peak(q, b)
  {
    hide Score;
    var d := PeakIsReached(q, a);
    assert d in multiset(b);
    ScoreIgnoresOrder(q, a, b, q.terms, d);
    MaxIsGreatest(Scores(q, b));
    var i :| 0 <= i < |b| && b[i] == d;
    assert Scores(q, b)[i] == Score(q, b, q.terms, d);
  }

  lemma NormalisedIgnoresOrder(q: Query, a: seq<Doc>, b: seq<Doc>, d: Doc)
    requires SameDocs(a, b)
    ensures Normalised(q, a, d) == Normalised(q, b, d)
  {
    hide Score, Peak;
    assert |multiset(a)| == |a| && |multiset(b)| == |b|;
    ScoreIgnoresOrder(q, a, b, q.terms, d);
    if a == [] {
      assert b == [];
    } else {
      PeakAtMost(q, a, b);
      PeakAtMost(q, b, a);
    }
  }

  lemma {:induction false} CandidatesCat(q: Query, docs: seq<Doc>, a: seq<Doc>, b: seq<Doc>)
    ensures Candidates(q, docs, a + b) == Candidates(q, docs, a) + Candidates(q, docs, b)
    decreases |a|
  {
    hide Normalised;
    if a == [] {
      assert a + b == b;
    } else {
      assert (a + b)[1..] == a[1..] + b;
      CandidatesCat(q, docs, a[1..], b);
      HitsAssoc(Candidates(q, docs, [a[0]]), Candidates(q, docs, a[1..]), Candidates(q, docs, b));
    }
  }

  lemma CandidatesWithout(q: Query, docs: seq<Doc>, b: seq<Doc>, j: nat)
    requires j < |b|
    ensures multiset(Candidates(q, docs, b)) ==
            multiset(Candidates(q, docs, [b[j]])) + multiset(Candidates(q, docs, Without(b, j)))
  {
    hide Candidates;
    assert b == b[..j] + ([b[j]] + b[j+1..]);
    CandidatesCat(q, docs, b[..j], [b[j]] + b[j+1..]);
    CandidatesCat(q, docs, [b[j]], b[j+1..]);
    CandidatesCat(q, docs, b[..j], b[j+1..]);
  }

  lemma OneCandidate(q: Query, da: seq<Doc>, db: seq<Doc>, d: Doc)
    requires SameDocs(da, db)
    ensures Candidates(q, da, [d]) == Candidates(q, db, [d])
  {
    hide Normalised, SameDocs;
    NormalisedIgnoresOrder(q, da, db, d);
    assert [d][1..] == [];
  }

  lemma {:induction false} CandidatesIgnoreOrder(q: Query, da: seq<Doc>, db: seq<Doc>, a: seq<Doc>, b: seq<Doc>)
    requires SameDocs(da, db) && SameDocs(a, b)
    ensures multiset(Candidates(q, da, a)) == multiset(Candidates(q, db, b))
    decreases |a|
  {
    if a == [] {
      assert |multiset(b)| == |b| == 0;
    } else {
      hide Candidates, SameDocs;
      var j := TakeOut(a, b);
      OneCandidate(q, da, db, a[0]);
      CandidatesIgnoreOrder(q, da, db, a[1..], Without(b, j));
      CandidatesWithout(q, db, b, j);
      CandidatesWithout(q, da, a, 0);
      assert Without(a, 0) == a[1..];
    }
  }

  predicate DistinctDocs(docs: seq<Doc>) { forall i, j | 0 <= i < j < |docs| :: docs[i].id != docs[j].id }

  lemma {:induction false} CandidatesAreDistinct(q: Query, docs: seq<Doc>, some: seq<Doc>)
    requires DistinctDocs(some)
    ensures DistinctIds(Candidates(q, docs, some))
    decreases |some|
  {
    hide Normalised;
    if some != [] {
      CandidatesAreDistinct(q, docs, some[1..]);
      var rest := Candidates(q, docs, some[1..]);
      forall k | 0 <= k < |rest| ensures rest[k].doc.id != some[0].id {
        CandidatesAre(q, docs, some[1..], rest[k]);
        var i :| 0 <= i < |some[1..]| && some[1..][i] == rest[k].doc;
        assert some[i+1] == rest[k].doc;
      }
    }
  }

  lemma DistinctIgnoresOrder(a: seq<Hit>, b: seq<Hit>)
    requires DistinctIds(a) && multiset(a) == multiset(b)
    ensures DistinctIds(b)
  {
    forall i, j | 0 <= i < j < |b| ensures b[i].doc.id != b[j].doc.id {
      assert b[i] in multiset(a) && b[j] in multiset(a);
      if b[i].doc.id == b[j].doc.id {
        SameIdSameHit(a, b[i], b[j]);
        TwiceInB(b, i, j);
        OnceInA(a, b[i]);
      }
    }
  }

  lemma TwiceInB(b: seq<Hit>, i: nat, j: nat)
    requires i < j < |b| && b[i] == b[j]
    ensures multiset(b)[b[i]] >= 2
  {
    assert b == b[..j] + [b[j]] + b[j+1..];
    assert b[..j][i] == b[i] && b[i] in multiset(b[..j]);
  }

  lemma {:induction false} OnceInA(a: seq<Hit>, h: Hit)
    requires DistinctIds(a)
    ensures multiset(a)[h] <= 1
    decreases |a|
  {
    if a != [] {
      assert a == [a[0]] + a[1..];
      OnceInA(a[1..], h);
      forall i | 0 <= i < |a[1..]| ensures a[1..][i] != a[0] {
        assert a[1..][i] == a[i+1];
      }
      assert a[0] !in multiset(a[1..]);
    }
  }

  /** With distinct chunk ids, rearranging the chunks changes neither the hits nor their order. */
  lemma ChunkOrderDoesNotMatter(q: Query, a: seq<Doc>, b: seq<Doc>)
    requires SameDocs(a, b) && DistinctDocs(a)
    ensures Results(q, a) == Results(q, b)
  {
    hide Candidates, Ranked, DistinctIds, SameDocs;
    var ca, cb := Candidates(q, a, a), Candidates(q, b, b);
    CandidatesIgnoreOrder(q, a, b, a, b);
    CandidatesAreDistinct(q, a, a);
    RankIsSorted(ca);
    RankIsSorted(cb);
    DistinctIgnoresOrder(ca, Rank(ca));
    RankingIsUnique(Rank(ca), Rank(cb));
  }
}
