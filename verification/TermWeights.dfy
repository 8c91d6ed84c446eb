/** The shape of the BM25 weight: rare terms outweigh common ones, more occurrences weigh more with a bounded gain, and
    longer documents weigh less. */
module TermWeights {
  import opened Ranking
  import opened Retrieval
  import opened RetrievalTheorems

  /** The logarithm rises strictly on the positive numbers and is 0 at 1. */
  ghost predicate LogRises(log: real -> real) {
    log(1.0) == 0.0 && forall x: real, y: real | 0.0 < x < y :: log(x) < log(y)
  }

  lemma RisingIsOk(log: real -> real)
    requires LogRises(log)
    ensures LogOk(log)
  {
    forall x: real | x > 1.0 ensures log(x) > 0.0 { assert log(1.0) < log(x); }
  }

  // ------------------------------------------------------------------ fractions

  lemma Quotient(a: real, b: real)
    requires b > 0.0
    ensures a / b * b == a
  {
  }

  lemma CompareFractions(a: real, b: real, c: real, d: real)
    requires b > 0.0 && d > 0.0 && a * d < c * b
    ensures a / b < c / d
  {
    var p, q := a / b, c / d;
    Quotient(a, b);
    Quotient(c, d);
    if p >= q {
      Scale(p, q, b);
      Scale(p * b, q * b, d);
      Swap(q, b, d);
      assert false;
    }
  }

  lemma Scale(x: real, y: real, z: real)
    requires x >= y && z > 0.0
    ensures x * z >= y * z
  {
  }

  lemma Swap(x: real, y: real, z: real)
    ensures x * y * z == x * z * y
  {
  }

  // ------------------------------------------------------------------ rare terms

  /** One more than the documents there are, over one half more than those that have the term. */
  function Rarity(total: nat, df: nat): real { (total as real + 1.0) / (df as real + 0.5) }

  /** The weight of a term by how many of the documents have it. */
  lemma IdfFormula(log: real -> real, total: nat, df: nat)
    ensures Idf(log, total, df) == log(Rarity(total, df))
  {
    var d := df as real + 0.5;
    var x := (total as real - df as real + 0.5) / d;
    Quotient(total as real - df as real + 0.5, d);
    Quotient(total as real + 1.0, d);
    var y := (total as real + 1.0) / d;
    Distribute(x, d);
    assert (1.0 + x) * d == total as real + 1.0 == y * d;
    Cancel(1.0 + x, y, d);
  }

  lemma Distribute(x: real, d: real)
    ensures (1.0 + x) * d == d + x * d
  {
  }

  lemma Cancel(x: real, y: real, z: real)
    requires z > 0.0 && x * z == y * z
    ensures x == y
  {
    if x < y { ScaleStrictly(x, y, z); }
    if y < x { ScaleStrictly(y, x, z); }
  }

  lemma ScaleStrictly(x: real, y: real, z: real)
    requires x < y && z > 0.0
    ensures x * z < y * z
  {
    assert (y - x) * z > 0.0;
  }

  lemma RarerIsGreater(log: real -> real, total: nat, rare: nat, common: nat)
    requires LogRises(log) && rare < common
    ensures Idf(log, total, common) < Idf(log, total, rare)
  {
    IdfFormula(log, total, rare);
    IdfFormula(log, total, common);
    var n := total as real + 1.0;
    ScaleStrictly(rare as real + 0.5, common as real + 0.5, n);
    CompareFractions(n, common as real + 0.5, n, rare as real + 0.5);
    RatioIsPositive(n, common as real + 0.5);
  }

  /** A term that fewer documents have adds more, as often as both occur in the document. */
  lemma RarerWeighsMore(q: Query, docs: seq<Doc>, d: Doc, rare: string, common: string)
    requires LogRises(q.log) && CountOf(d.tokens, rare) == CountOf(d.tokens, common) > 0
    requires DocCount(docs, rare) < DocCount(docs, common)
    ensures Weight(q, docs, d, rare) > Weight(q, docs, d, common)
  {
    RarerGains(q, docs, d, d, rare, common);
  }

  lemma GainRisesWithIdf(small: real, large: real, tf: nat, denominator: real)
    requires small < large && tf > 0 && denominator > 0.0
    ensures Gain(small, tf, denominator) < Gain(large, tf, denominator)
  {
    var b := tf as real * (K1 + 1.0);
    ScaleStrictly(small, large, b);
    ScaleStrictly(small * b, large * b, denominator);
    CompareFractions(small * b, denominator, large * b, denominator);
  }

  // ------------------------------------------------------------------ occurrences and length

  /** A term's weight in a document `r` times as long as the average: this fixes both constants. */
  lemma WeightFormula(q: Query, docs: seq<Doc>, d: Doc, t: string, r: real)
    requires CountOf(d.tokens, t) > 0 && AverageLength(docs) > 0.0 && |d.tokens| as real == r * AverageLength(docs)
    ensures var tf := CountOf(d.tokens, t) as real;
            && tf + 0.375 + 1.125 * r > 0.0
            && Weight(q, docs, d, t) * (tf + 0.375 + 1.125 * r) == q.log(Rarity(|docs|, DocCount(docs, t))) * (2.5 * tf)
  {
    hide Weight, Denominator, AverageLength, Rarity, CountOf, DocCount;
    CountMeansIn(d.tokens, t);
    AverageIsNotNegative(docs);
    DenominatorAt(CountOf(d.tokens, t), |d.tokens|, AverageLength(docs), r);
    WeightTimes(q, docs, d, t, CountOf(d.tokens, t) as real + 0.375 + 1.125 * r);
  }

  lemma WeightTimes(q: Query, docs: seq<Doc>, d: Doc, t: string, denominator: real)
    requires CountOf(d.tokens, t) > 0 && AverageLength(docs) >= 0.0
    requires denominator == Denominator(CountOf(d.tokens, t), |d.tokens|, AverageLength(docs))
    ensures Weight(q, docs, d, t) * denominator == q.log(Rarity(|docs|, DocCount(docs, t))) * (2.5 * CountOf(d.tokens, t) as real)
  {
    hide Idf, Denominator, AverageLength, Gain, Rarity;
    IdfFormula(q.log, |docs|, DocCount(docs, t));
    GainIs(Idf(q.log, |docs|, DocCount(docs, t)), CountOf(d.tokens, t), denominator);
  }

  lemma GainIs(idf: real, tf: nat, denominator: real)
    requires denominator > 0.0
    ensures Gain(idf, tf, denominator) * denominator == idf * (2.5 * tf as real)
  {
    assert tf as real * (K1 + 1.0) == 2.5 * tf as real;
    Quotient(idf * (tf as real * (K1 + 1.0)), denominator);
  }

  lemma DenominatorAt(tf: nat, length: nat, average: real, r: real)
    requires tf > 0 && length > 0 && average > 0.0 && length as real == r * average
    ensures Denominator(tf, length, average) == tf as real + 0.375 + 1.125 * r && r >= 0.0
  {
    RatioIs(length as real, average, r);
  }

  lemma RatioIs(a: real, b: real, r: real)
    requires b > 0.0 && a == r * b
    ensures a / b == r && (a >= 0.0 ==> r >= 0.0)
  {
    Quotient(a, b);
    Cancel(a / b, r, b);
    if r < 0.0 { ScaleStrictly(r, 0.0, b); }
  }

  /** In a document of average length. */
  lemma WeightAtAverageLength(q: Query, docs: seq<Doc>, d: Doc, t: string)
    requires CountOf(d.tokens, t) > 0 && |d.tokens| as real == AverageLength(docs)
    ensures var tf := CountOf(d.tokens, t) as real;
            Weight(q, docs, d, t) * (tf + 1.5) == q.log(Rarity(|docs|, DocCount(docs, t))) * (2.5 * tf)
  {
    hide Weight, Rarity;
    CountMeansIn(d.tokens, t);
    WeightFormula(q, docs, d, t, 1.0);
  }

  lemma IdfOfFound(q: Query, docs: seq<Doc>, t: string)
    requires LogRises(q.log)
    ensures Idf(q.log, |docs|, DocCount(docs, t)) > 0.0
  {
    hide LogRises, LogOk, Idf;
    RisingIsOk(q.log);
    DocCountBounded(docs, t);
    IdfIsPositive(q.log, |docs|, DocCount(docs, t));
  }

  function Extra(length: nat, average: real): (c: real)
    requires average >= 0.0
    ensures c > 0.0
  {
    RatioIsPositive(OrOne(length as real), OrOne(average));
    K1 * (1.0 - B + B * (OrOne(length as real) / OrOne(average)))
  }

  lemma DenominatorIs(tf: nat, length: nat, average: real)
    requires tf > 0 && average >= 0.0
    ensures Denominator(tf, length, average) == tf as real + Extra(length, average)
  {
  }

  /** More occurrences in a document of the same length weigh more. */
  lemma MoreOftenWeighsMore(q: Query, docs: seq<Doc>, d: Doc, e: Doc, t: string)
    requires LogRises(q.log) && |d.tokens| == |e.tokens| && CountOf(d.tokens, t) < CountOf(e.tokens, t)
    ensures Weight(q, docs, d, t) < Weight(q, docs, e, t)
  {
    hide Idf, LogRises, Denominator, Extra, AverageLength;
    AverageIsNotNegative(docs);
    IdfOfFound(q, docs, t);
    var idf, average := Idf(q.log, |docs|, DocCount(docs, t)), AverageLength(docs);
    var m, n := CountOf(d.tokens, t), CountOf(e.tokens, t);
    DenominatorIs(n, |e.tokens|, average);
    if m == 0 {
      GainIsPositive(idf, n, Denominator(n, |e.tokens|, average));
    } else {
      DenominatorIs(m, |d.tokens|, average);
      GainRisesWithCount(idf, m, n, Extra(|d.tokens|, average));
    }
  }

  lemma GainRisesWithCount(idf: real, m: nat, n: nat, extra: real)
    requires idf > 0.0 && 0 < m < n && extra > 0.0
    ensures Gain(idf, m, m as real + extra) < Gain(idf, n, n as real + extra)
  {
    var x, y, k := m as real, n as real, idf * 2.5;
    assert k > 0.0;
    ScaleStrictly(x, y, extra);
    assert x * (y + extra) < y * (x + extra);
    ScaleStrictly(x * (y + extra), y * (x + extra), k);
    assert k * x * (y + extra) < k * y * (x + extra);
    assert idf * (x * (K1 + 1.0)) == k * x && idf * (y * (K1 + 1.0)) == k * y;
    CompareFractions(k * x, x + extra, k * y, y + extra);
  }

  /** The same occurrences in a longer document weigh less. */
  lemma LongerWeighsLess(q: Query, docs: seq<Doc>, d: Doc, e: Doc, t: string)
    requires LogRises(q.log) && CountOf(d.tokens, t) == CountOf(e.tokens, t) > 0 && |d.tokens| < |e.tokens|
    ensures Weight(q, docs, e, t) < Weight(q, docs, d, t)
  {
    hide Idf, LogRises, AverageLength;
    AverageIsNotNegative(docs);
    IdfOfFound(q, docs, t);
    CountMeansIn(d.tokens, t);
    var idf, average := Idf(q.log, |docs|, DocCount(docs, t)), AverageLength(docs);
    var tf := CountOf(d.tokens, t);
    var x, y := Denominator(tf, |d.tokens|, average), Denominator(tf, |e.tokens|, average);
    CompareRatios(|d.tokens| as real, |e.tokens| as real, OrOne(average));
    assert x < y;
    GainFallsWithLength(idf, tf, x, y);
  }

  lemma CompareRatios(a: real, b: real, c: real)
    requires a < b && c > 0.0
    ensures a / c < b / c
  {
    ScaleStrictly(a, b, c);
    CompareFractions(a, c, b, c);
  }

  lemma GainFallsWithLength(idf: real, tf: nat, small: real, large: real)
    requires idf > 0.0 && tf > 0 && 0.0 < small < large
    ensures Gain(idf, tf, large) < Gain(idf, tf, small)
  {
    var k := idf * (tf as real * (K1 + 1.0));
    assert k > 0.0 by { assert tf as real * (K1 + 1.0) > 0.0; }
    ScaleStrictly(small, large, k);
    CompareFractions(k, large, k, small);
  }

  // ------------------------------------------------------------------ what it means for a search

  /** Of the query's terms the document has this one only. */
  predicate HasOnly(terms: set<string>, d: Doc, t: string) {
    t in terms && t in d.tokens && forall u | u in terms && u != t :: u !in d.tokens
  }

  lemma ScoreOfOnly(q: Query, docs: seq<Doc>, d: Doc, t: string)
    requires HasOnly(q.terms, d, t)
    ensures Score(q, docs, q.terms, d) == Weight(q, docs, d, t)
  {
    hide Weight;
    ScorePick(q, docs, q.terms, d, t);
    NoScore(q, docs, q.terms - {t}, d);
  }

  lemma {:induction false} NoScore(q: Query, docs: seq<Doc>, terms: set<string>, d: Doc)
    requires forall u | u in terms :: u !in d.tokens
    ensures Score(q, docs, terms, d) == 0.0
    decreases |terms|
  {
    if terms != {} {
      var t :| t in terms;
      ScorePick(q, docs, terms, d, t);
      CountMeansIn(d.tokens, t);
      NoScore(q, docs, terms - {t}, d);
    }
  }

  /** Of two chunks of the same length that have one term of the query each, equally often, the one with the rarer
      term scores higher, and is normalised higher. */
  lemma RarerTermScoresHigher(q: Query, docs: seq<Doc>, d: Doc, e: Doc, rare: string, common: string)
    requires LogRises(q.log) && d in docs && e in docs && |d.tokens| == |e.tokens|
    requires HasOnly(q.terms, d, rare) && HasOnly(q.terms, e, common) && CountOf(d.tokens, rare) == CountOf(e.tokens, common)
    requires DocCount(docs, rare) < DocCount(docs, common)
    ensures Score(q, docs, q.terms, d) > Score(q, docs, q.terms, e)
    ensures Normalised(q, docs, d) > Normalised(q, docs, e)
  {
    hide Weight, Score, LogRises, LogOk, Peak;
    ScoreOfOnly(q, docs, d, rare);
    ScoreOfOnly(q, docs, e, common);
    RisingIsOk(q.log);
    CountMeansIn(d.tokens, rare);
    RarerGains(q, docs, d, e, rare, common);
    PeakIsGreatest(q, docs, d);
    ScoreSign(q, docs, q.terms, e);
    CompareRatios(Score(q, docs, q.terms, e), Score(q, docs, q.terms, d), Peak(q, docs));
  }

  lemma RarerGains(q: Query, docs: seq<Doc>, d: Doc, e: Doc, rare: string, common: string)
    requires LogRises(q.log) && |d.tokens| == |e.tokens| && CountOf(d.tokens, rare) == CountOf(e.tokens, common) > 0
    requires DocCount(docs, rare) < DocCount(docs, common)
    ensures Weight(q, docs, d, rare) > Weight(q, docs, e, common)
  {
    hide Idf, LogRises, Denominator;
    AverageIsNotNegative(docs);
    RarerIsGreater(q.log, |docs|, DocCount(docs, rare), DocCount(docs, common));
    var tf := CountOf(d.tokens, rare);
    GainRisesWithIdf(Idf(q.log, |docs|, DocCount(docs, common)), Idf(q.log, |docs|, DocCount(docs, rare)), tf,
                     Denominator(tf, |d.tokens|, AverageLength(docs)));
  }

  /** Normalising is dividing by the best score. */
  lemma NormalisedIsTheShare(q: Query, docs: seq<Doc>, d: Doc)
    requires LogOk(q.log) && d in docs
    ensures Normalised(q, docs, d) * Peak(q, docs) == Score(q, docs, q.terms, d)
  {
    hide Score, Peak;
    PeakIsGreatest(q, docs, d);
    if Peak(q, docs) > 0.0 { Quotient(Score(q, docs, q.terms, d), Peak(q, docs)); }
  }

  /** Term counts are multiplicities. */
  lemma {:induction false} CountIsMultiplicity(tokens: seq<string>, t: string)
    ensures CountOf(tokens, t) == multiset(tokens)[t]
    decreases |tokens|
  {
    if tokens != [] {
      assert tokens == [tokens[0]] + tokens[1..];
      CountIsMultiplicity(tokens[1..], t);
    }
  }
}
