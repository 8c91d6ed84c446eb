/** The BM25 index and the search over it, in real arithmetic and without embeddings. */
module Retrieval {
  import opened Ranking

  const K1 := 1.5
  const B := 0.75

  /** What a search depends on besides the chunks: the logarithm and the rounding of the host, the query's
      terms, and the caller's limits. */
  datatype Query = Query(log: real -> real, round: real -> real, terms: set<string>, minScore: real, topK: nat)

  /** All that is assumed of the logarithm. */
  ghost predicate LogOk(log: real -> real) { forall x: real | x > 1.0 :: log(x) > 0.0 }

  // ------------------------------------------------------------------ the naive statistics

  function CountOf(tokens: seq<string>, t: string): nat {
    if tokens == [] then 0 else (if tokens[0] == t then 1 else 0) + CountOf(tokens[1..], t)
  }

  /** How many documents contain the term. */
  function DocCount(docs: seq<Doc>, t: string): nat {
    if docs == [] then 0 else (if t in docs[0].tokens then 1 else 0) + DocCount(docs[1..], t)
  }

  function TotalLength(docs: seq<Doc>): nat {
    if docs == [] then 0 else |docs[0].tokens| + TotalLength(docs[1..])
  }

  function AverageLength(docs: seq<Doc>): real {
    if docs == [] then 0.0 else TotalLength(docs) as real / |docs| as real
  }

  function OrOne(x: real): real { if x == 0.0 then 1.0 else x }

  function Idf(log: real -> real, total: nat, df: nat): real {
    log(1.0 + (total as real - df as real + 0.5) / (df as real + 0.5))
  }

  function Denominator(tf: nat, length: nat, average: real): (d: real)
    requires tf > 0 && average >= 0.0
    ensures d > 0.0
  {
    var ratio := OrOne(length as real) / OrOne(average);
    RatioIsPositive(OrOne(length as real), OrOne(average));
    tf as real + K1 * (1.0 - B + B * ratio)
  }

  lemma RatioIsPositive(a: real, b: real)
    requires a > 0.0 && b > 0.0
    ensures a / b > 0.0
  {
  }

  lemma AverageIsNotNegative(docs: seq<Doc>)
    ensures AverageLength(docs) >= 0.0
  {
  }

  function Gain(idf: real, tf: nat, denominator: real): real
    requires denominator > 0.0
  {
    idf * (tf as real * (K1 + 1.0)) / denominator
  }

  /** What one term adds to one document's score. */
  function Weight(q: Query, docs: seq<Doc>, d: Doc, t: string): real {
    var tf := CountOf(d.tokens, t);
    if tf == 0 then 0.0
    else
      AverageIsNotNegative(docs);
      Gain(Idf(q.log, |docs|, DocCount(docs, t)), tf, Denominator(tf, |d.tokens|, AverageLength(docs)))
  }

  /** The score of a document: the sum over the terms, in any order. */
  ghost function Score(q: Query, docs: seq<Doc>, terms: set<string>, d: Doc): real {
    if terms == {} then 0.0
    else var t :| t in terms; Weight(q, docs, d, t) + Score(q, docs, terms - {t}, d)
  }

  /** The order in which the terms are added does not matter. */
  lemma {:induction false} ScorePick(q: Query, docs: seq<Doc>, terms: set<string>, d: Doc, t: string)
    requires t in terms
    ensures Score(q, docs, terms, d) == Weight(q, docs, d, t) + Score(q, docs, terms - {t}, d)
    decreases |terms|
  {
    hide Weight;
    var u :| u in terms && Score(q, docs, terms, d) == Weight(q, docs, d, u) + Score(q, docs, terms - {u}, d);
    if u != t {
      ScorePick(q, docs, terms - {u}, d, t);
      ScorePick(q, docs, terms - {t}, d, u);
      assert terms - {u} - {t} == terms - {t} - {u};
    }
  }

  // ------------------------------------------------------------------ positivity

  lemma {:induction false} CountMeansIn(tokens: seq<string>, t: string)
    ensures CountOf(tokens, t) > 0 <==> t in tokens
    decreases |tokens|
  {
    if tokens != [] {
      CountMeansIn(tokens[1..], t);
      assert tokens == [tokens[0]] + tokens[1..];
    }
  }

  lemma {:induction false} DocCountBounded(docs: seq<Doc>, t: string)
    ensures DocCount(docs, t) <= |docs|
    ensures DocCount(docs, t) > 0 <==> exists i | 0 <= i < |docs| :: t in docs[i].tokens
    decreases |docs|
  {
    if docs != [] {
      DocCountBounded(docs[1..], t);
      assert forall i | 1 <= i < |docs| :: docs[i] == docs[1..][i-1];
      if DocCount(docs[1..], t) > 0 {
        var i :| 0 <= i < |docs[1..]| && t in docs[1..][i].tokens;
        assert t in docs[i+1].tokens;
      }
    }
  }

  lemma IdfIsPositive(log: real -> real, total: nat, df: nat)
    requires LogOk(log) && df <= total
    ensures Idf(log, total, df) > 0.0
  {
    var num, den := total as real - df as real + 0.5, df as real + 0.5;
    RatioIsPositive(num, den);
  }

  lemma GainIsPositive(idf: real, tf: nat, denominator: real)
    requires idf > 0.0 && tf > 0 && denominator > 0.0
    ensures Gain(idf, tf, denominator) > 0.0
  {
    var b := tf as real * (K1 + 1.0);
    assert b > 0.0;
    assert idf * b > 0.0;
    RatioIsPositive(idf * b, denominator);
  }

  /** A term adds something exactly when the document contains it. */
  lemma WeightSign(q: Query, docs: seq<Doc>, d: Doc, t: string)
    requires LogOk(q.log) && d in docs
    ensures Weight(q, docs, d, t) >= 0.0
    ensures Weight(q, docs, d, t) > 0.0 <==> t in d.tokens
  {
    hide Idf, Denominator, Gain, AverageLength;
    CountMeansIn(d.tokens, t);
    var tf := CountOf(d.tokens, t);
    if tf > 0 {
      AverageIsNotNegative(docs);
      DocCountBounded(docs, t);
      IdfIsPositive(q.log, |docs|, DocCount(docs, t));
      GainIsPositive(Idf(q.log, |docs|, DocCount(docs, t)), tf, Denominator(tf, |d.tokens|, AverageLength(docs)));
    }
  }

  predicate Matches(terms: set<string>, d: Doc) { exists t | t in terms :: t in d.tokens }

  /** Scores are never negative, and positive exactly for documents that contain a term of the query. */
  lemma {:induction false} ScoreSign(q: Query, docs: seq<Doc>, terms: set<string>, d: Doc)
    requires LogOk(q.log) && d in docs
    ensures Score(q, docs, terms, d) >= 0.0
    ensures Score(q, docs, terms, d) > 0.0 <==> Matches(terms, d)
    decreases |terms|
  {
    hide Weight;
    if terms != {} {
      var t :| t in terms;
      ScorePick(q, docs, terms, d, t);
      WeightSign(q, docs, d, t);
      ScoreSign(q, docs, terms - {t}, d);
      if t !in d.tokens && Matches(terms, d) {
        var u :| u in terms && u in d.tokens;
        assert u in terms - {t};
      }
    }
  }

  // ------------------------------------------------------------------ normalising and selecting

  function MaxOf(scores: seq<real>): real {
    if scores == [] then 0.0
    else if |scores| == 1 then scores[0]
    else if scores[0] >= MaxOf(scores[1..]) then scores[0] else MaxOf(scores[1..])
  }

  lemma {:induction false} MaxIsGreatest(scores: seq<real>)
    ensures forall i | 0 <= i < |scores| :: scores[i] <= MaxOf(scores)
    ensures scores != [] ==> exists i | 0 <= i < |scores| :: scores[i] == MaxOf(scores)
    decreases |scores|
  {
    if |scores| == 1 {
      assert scores[0] == MaxOf(scores);
    } else if |scores| > 1 {
      MaxIsGreatest(scores[1..]);
      var i :| 0 <= i < |scores[1..]| && scores[1..][i] == MaxOf(scores[1..]);
      assert scores[i+1] == MaxOf(scores[1..]);
      assert scores[if scores[0] >= MaxOf(scores[1..]) then 0 else i + 1] == MaxOf(scores);
      assert forall k | 1 <= k < |scores| :: scores[k] == scores[1..][k-1];
    }
  }

  ghost function Scores(q: Query, docs: seq<Doc>): seq<real> {
    seq(|docs|, i requires 0 <= i < |docs| => Score(q, docs, q.terms, docs[i]))
  }

  ghost function Peak(q: Query, docs: seq<Doc>): real { MaxOf(Scores(q, docs)) }

  function Normal(score: real, peak: real): real { if peak > 0.0 then score / peak else 0.0 }

  ghost function Normalised(q: Query, docs: seq<Doc>, d: Doc): real {
    Normal(Score(q, docs, q.terms, d), Peak(q, docs))
  }

  /** The hits before sorting, for the documents `some` of the index `docs`. */
  ghost function Candidates(q: Query, docs: seq<Doc>, some: seq<Doc>): seq<Hit> {
    if some == [] then []
    else
      (if Normalised(q, docs, some[0]) >= q.minScore then [Hit(some[0], q.round(Normalised(q, docs, some[0])))] else []) +
      Candidates(q, docs, some[1..])
  }

  function Take(hits: seq<Hit>, n: nat): seq<Hit> { if |hits| <= n then hits else hits[..n] }

  ghost function Results(q: Query, docs: seq<Doc>): seq<Hit> { Take(Rank(Candidates(q, docs, docs)), q.topK) }

  // ------------------------------------------------------------------ the index

  function Lookup(m: map<string, nat>, t: string): nat { if t in m then m[t] else 0 }

  class KnowledgeIndex {
    var chunks: seq<Doc>
    var docFreqs: seq<map<string, nat>>
    var df: map<string, nat>
    var avgLen: real

    constructor (docs: seq<Doc>)
      ensures chunks == docs
    {
      chunks, docFreqs, df, avgLen := docs, [], map[], 0.0;
    }

    /** The stored statistics are the naive ones. */
    ghost predicate Built()
      reads this
    {
      && |docFreqs| == |chunks|
      && (forall i, t | 0 <= i < |chunks| :: Lookup(docFreqs[i], t) == CountOf(chunks[i].tokens, t))
      && (forall t :: Lookup(df, t) == DocCount(chunks, t))
      && avgLen == AverageLength(chunks)
    }

    method Build()
      modifies this
      ensures Built() && chunks == old(chunks)
    {
      docFreqs := [];
      df := map[];
      var total := 0;
      var k := 0;
      while k < |chunks|
        invariant k <= |chunks| && chunks == old(chunks) && |docFreqs| == k
        invariant forall i, t | 0 <= i < k :: Lookup(docFreqs[i], t) == CountOf(chunks[i].tokens, t)
        invariant forall t :: Lookup(df, t) == DocCount(chunks[..k], t)
        invariant total == TotalLength(chunks[..k])
      {
        var freqs := Counter(chunks[k].tokens);
        docFreqs := docFreqs + [freqs];
        df := CountEach(df, freqs.Keys);
        total := total + |chunks[k].tokens|;
        assert chunks[..k+1] == chunks[..k] + [chunks[k]];
        forall t ensures DocCount(chunks[..k+1], t) == DocCount(chunks[..k], t) + if t in chunks[k].tokens then 1 else 0 {
          StatsSnoc(chunks[..k], chunks[k], t);
        }
        StatsSnoc(chunks[..k], chunks[k], "");
        k := k + 1;
      }
      assert chunks[..|chunks|] == chunks;
      avgLen := if chunks == [] then 0.0 else total as real / |chunks| as real;
    }

    method Bm25(q: Query, query: seq<string>) returns (scores: seq<real>)
      requires Built() && q.terms == set t | t in query
      ensures scores == Scores(q, chunks)
    {
      hide Built, Totals, Score;
      var total := |chunks|;
      var totals := new real[total](_ => 0.0);
      var left := set t | t in query;
      ghost var done: set<string> := {};
      NoTotals(q, chunks, totals[..]);
      if total == 0 || query == [] {
        assert totals[..] == [] || q.terms == {};
        TotalsAreScores(q, chunks, totals[..], done);
        return totals[..];
      }
      while left != {}
        invariant Built() && done !! left && done + left == q.terms
        invariant Totals(q, chunks, totals[..], done)
        decreases |left|
      {
        var term :| term in left;
        if DocFrequency(term) != 0 {
          AddTerm(q, term, totals, done);
        } else {
          UnknownTerm(q, chunks, totals[..], done, term);
        }
        left, done := left - {term}, done + {term};
      }
      assert done == q.terms;
      TotalsAreScores(q, chunks, totals[..], done);
      scores := totals[..];
    }

    function DocFrequency(t: string): (n: nat)
      requires Built()
      reads this
      ensures n == DocCount(chunks, t)
    {
      Lookup(df, t)
    }

    /** The inner loop: one term's contribution to every document. */
    method AddTerm(q: Query, term: string, totals: array<real>, ghost done: set<string>)
      requires Built() && term !in done && Totals(q, chunks, totals[..], done)
      modifies totals
      ensures Totals(q, chunks, totals[..], done + {term})
    {
      hide Idf, Denominator, Gain, Score, AverageLength;
      var idf := Idf(q.log, |chunks|, Lookup(df, term));
      var index := 0;
      while index < |chunks|
        invariant index <= |chunks|
        invariant forall i | 0 <= i < index :: totals[i] == Score(q, chunks, done + {term}, chunks[i])
        invariant forall i | index <= i < |chunks| :: totals[i] == Score(q, chunks, done, chunks[i])
      {
        AddWeight(q, chunks, done, chunks[index], term);
        AverageIsNotNegative(chunks);
        var tf := Lookup(docFreqs[index], term);
        if tf != 0 {
          totals[index] := totals[index] + Gain(idf, tf, Denominator(tf, |chunks[index].tokens|, avgLen));
        }
        index := index + 1;
      }
    }

    method Search(q: Query, query: seq<string>) returns (hits: seq<Hit>)
      requires Built() && q.terms == set t | t in query
      ensures hits == Results(q, chunks)
    {
      hide Score;
      var lexical := Bm25(q, query);
      var peak := Maximum(lexical);
      hits := [];
      var index := 0;
      while index < |chunks|
        invariant index <= |chunks|
        invariant hits + Candidates(q, chunks, chunks[index..]) == Candidates(q, chunks, chunks)
      {
        var combined := Normal(lexical[index], peak);
        assert chunks[index..][0] == chunks[index] && chunks[index..][1..] == chunks[index+1..];
        HitsAssoc(hits, if combined >= q.minScore then [Hit(chunks[index], q.round(combined))] else [],
                  Candidates(q, chunks, chunks[index+1..]));
        if combined >= q.minScore {
          hits := hits + [Hit(chunks[index], q.round(combined))];
        }
        index := index + 1;
      }
      assert chunks[index..] == [] && hits + [] == hits;
      hits := Take(Rank(hits), q.topK);
    }
  }

  lemma HitsAssoc(a: seq<Hit>, b: seq<Hit>, c: seq<Hit>)
    ensures a + b + c == a + (b + c)
  {
  }

  lemma AddWeight(q: Query, docs: seq<Doc>, done: set<string>, d: Doc, t: string)
    requires t !in done
    ensures Score(q, docs, done + {t}, d) == Score(q, docs, done, d) + Weight(q, docs, d, t)
  {
    hide Weight;
    ScorePick(q, docs, done + {t}, d, t);
    assert done + {t} - {t} == done;
  }

  /** The running totals after the terms in `done`. */
  ghost predicate Totals(q: Query, docs: seq<Doc>, totals: seq<real>, done: set<string>) {
    |totals| == |docs| && forall i | 0 <= i < |docs| :: totals[i] == Score(q, docs, done, docs[i])
  }

  lemma NoTotals(q: Query, docs: seq<Doc>, totals: seq<real>)
    requires |totals| == |docs| && forall i | 0 <= i < |totals| :: totals[i] == 0.0
    ensures Totals(q, docs, totals, {})
  {
  }

  lemma TotalsAreScores(q: Query, docs: seq<Doc>, totals: seq<real>, done: set<string>)
    requires Totals(q, docs, totals, done) && (done == q.terms || docs == [])
    ensures totals == Scores(q, docs)
  {
    hide Score;
  }

  lemma UnknownTerm(q: Query, docs: seq<Doc>, totals: seq<real>, done: set<string>, t: string)
    requires t !in done && DocCount(docs, t) == 0 && Totals(q, docs, totals, done)
    ensures Totals(q, docs, totals, done + {t})
  {
    hide Score;
    DocCountBounded(docs, t);
    forall i | 0 <= i < |docs| ensures totals[i] == Score(q, docs, done + {t}, docs[i]) {
      AddWeight(q, docs, done, docs[i], t);
      CountMeansIn(docs[i].tokens, t);
    }
  }

  method Counter(tokens: seq<string>) returns (freqs: map<string, nat>)
    ensures forall t :: Lookup(freqs, t) == CountOf(tokens, t)
    ensures forall t :: t in freqs <==> t in tokens
  {
    freqs := map[];
    var k := 0;
    while k < |tokens|
      invariant k <= |tokens|
      invariant forall t :: Lookup(freqs, t) == CountOf(tokens[..k], t)
      invariant forall t :: t in freqs <==> t in tokens[..k]
    {
      assert tokens[..k+1] == tokens[..k] + [tokens[k]];
      forall t ensures CountOf(tokens[..k+1], t) == CountOf(tokens[..k], t) + if tokens[k] == t then 1 else 0 {
        CountSnoc(tokens[..k], tokens[k], t);
      }
      ghost var before := freqs;
      freqs := freqs[tokens[k] := Lookup(freqs, tokens[k]) + 1];
      assert forall t :: Lookup(freqs, t) == Lookup(before, t) + if tokens[k] == t then 1 else 0;
      k := k + 1;
    }
    assert tokens[..|tokens|] == tokens;
  }

  lemma {:induction false} CountSnoc(tokens: seq<string>, u: string, t: string)
    ensures CountOf(tokens + [u], t) == CountOf(tokens, t) + if u == t then 1 else 0
    decreases |tokens|
  {
    if tokens != [] {
      assert (tokens + [u])[1..] == tokens[1..] + [u];
      CountSnoc(tokens[1..], u, t);
    }
  }

  lemma {:induction false} StatsSnoc(docs: seq<Doc>, d: Doc, t: string)
    ensures DocCount(docs + [d], t) == DocCount(docs, t) + if t in d.tokens then 1 else 0
    ensures TotalLength(docs + [d]) == TotalLength(docs) + |d.tokens|
    decreases |docs|
  {
    if docs != [] {
      assert (docs + [d])[1..] == docs[1..] + [d];
      StatsSnoc(docs[1..], d, t);
    }
  }

  /** Adds one to the count of every term of the set. */
  method CountEach(df: map<string, nat>, terms: set<string>) returns (after: map<string, nat>)
    ensures forall t :: Lookup(after, t) == Lookup(df, t) + if t in terms then 1 else 0
  {
    after := df;
    var left := terms;
    while left != {}
      invariant left <= terms
      invariant forall t :: Lookup(after, t) == Lookup(df, t) + if t in terms && t !in left then 1 else 0
      decreases |left|
    {
      var t :| t in left;
      after := after[t := Lookup(after, t) + 1];
      left := left - {t};
    }
  }

  method Maximum(scores: seq<real>) returns (peak: real)
    ensures peak == MaxOf(scores)
  {
    if scores == [] { return 0.0; }
    peak := scores[|scores|-1];
    var k := |scores| - 1;
    while k > 0
      invariant 0 <= k < |scores| && peak == MaxOf(scores[k..])
    {
      k := k - 1;
      assert scores[k..][1..] == scores[k+1..];
      if scores[k] >= peak { peak := scores[k]; }
    }
    assert scores[0..] == scores;
  }
}
