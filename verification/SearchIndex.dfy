/** Ranked search over the inverted index (src/search.rs). */
module SearchIndex {
  // The fast form is compared with scoring every document from its text. Scores are reals
  // and the logarithm is any increasing function that is zero at one.

  import opened Basics
  import opened SearchTerms

  const K1: real := 1.2
  const B: real := 0.75
  const EXACT_SYMBOL_BOOST: real := 12.0
  const EXACT_NAME_BOOST: real := 6.0
  const PHRASE_BOOST: real := 2.0

  ghost predicate IsLog(ln: real -> real) {
    ln(1.0) == 0.0 && forall x: real, y: real :: 0.0 < x < y ==> ln(x) < ln(y)
  }

  // ---------------------------------------------------------------------- scoring

  function Idf(ln: real -> real, count: nat, frequency: nat): real {
    ln(1.0 + (count as real - frequency as real + 0.5) / (frequency as real + 0.5))
  }

  /** How a document's length weighs against the average of all. */
  function Norm(length: nat, total: nat, count: nat): (r: real)
    requires count > 0
    ensures r > 0.0
  {
    if total == 0 then 1.0
    else
      var average := total as real / count as real;
      Quotient(B * length as real, average);
      1.0 - B + B * length as real / average
  }

  lemma Quotient(a: real, b: real)
    requires a >= 0.0 && b > 0.0
    ensures a / b >= 0.0 && (a > 0.0 ==> a / b > 0.0)
  {
  }

  /** What one term adds to a document that holds it. */
  function TermScore(idf: real, tf: nat, norm: real): real
    requires tf > 0 && norm > 0.0
  {
    idf * (tf as real * (K1 + 1.0)) / (tf as real + K1 * norm)
  }

  lemma Product(a: real, b: real)
    requires a > 0.0 && b > 0.0
    ensures a * b > 0.0
  {
  }

  lemma TermScorePositive(idf: real, tf: nat, norm: real)
    requires tf > 0 && norm > 0.0 && idf > 0.0
    ensures TermScore(idf, tf, norm) > 0.0
  {
    Product(tf as real, K1 + 1.0);
    Product(idf, tf as real * (K1 + 1.0));
    Quotient(idf * (tf as real * (K1 + 1.0)), tf as real + K1 * norm);
  }

  /** In at most all documents, a term still tells something. */
  lemma IdfPositive(ln: real -> real, count: nat, frequency: nat)
    requires IsLog(ln) && frequency <= count
    ensures Idf(ln, count, frequency) > 0.0
  {
    var above, below := count as real - frequency as real + 0.5, frequency as real + 0.5;
    Quotient(above, below);
    assert ln(1.0) < ln(1.0 + above / below);
  }

  // ------------------------------------------------------------ what the scores say

  /** Only the term's rarity counts: the weight is the logarithm of the corpus size over the
      number of documents with the term, each smoothed. */
  lemma IdfMeaning(ln: real -> real, count: nat, frequency: nat)
    requires frequency <= count
    ensures Idf(ln, count, frequency) == ln((count as real + 1.0) / (frequency as real + 0.5))
  {
    var above, below := count as real - frequency as real + 0.5, frequency as real + 0.5;
    SumOverSame(below, above, below);
    assert below + above == count as real + 1.0;
  }

  lemma SumOverSame(a: real, b: real, c: real)
    requires c > 0.0
    ensures a / c + b / c == (a + b) / c && c / c == 1.0
  {
  }

  /** A rarer term weighs more. */
  lemma RarerWeighsMore(ln: real -> real, count: nat, rare: nat, common: nat)
    requires IsLog(ln) && rare < common <= count
    ensures Idf(ln, count, rare) > Idf(ln, count, common)
  {
    IdfMeaning(ln, count, rare);
    IdfMeaning(ln, count, common);
    var n, x, y := count as real + 1.0, rare as real + 0.5, common as real + 0.5;
    LessOver(n, x, y);
  }

  lemma LessOver(n: real, x: real, y: real)
    requires n > 0.0 && 0.0 < x < y
    ensures 0.0 < n / y < n / x
  {
    var p, q := n / x, n / y;
    assert p * x == n && q * y == n;
    if q >= p {
      ProductLess(p, x, y);
      ProductAtMost(p, q, y);
    }
    Quotient(n, y);
  }

  lemma ProductLess(p: real, x: real, y: real)
    requires x < y
    ensures p > 0.0 ==> p * x < p * y
    ensures p <= 0.0 && x > 0.0 ==> p * x <= 0.0
  {
  }

  lemma ProductAtMost(p: real, q: real, y: real)
    requires p <= q && y > 0.0
    ensures p * y <= q * y
  {
  }

  /** The norm is one for a document of average length, and three quarters of the relative
      excess over the average come on top. */
  lemma NormMeaning(length: nat, total: nat, count: nat)
    requires count > 0
    ensures total == 0 ==> Norm(length, total, count) == 1.0
    ensures (Norm(length, total, count) - 1.0) * total as real == if total == 0 then 0.0
                                                               else 0.75 * (length as real * count as real - total as real)
  {
    if total > 0 {
      var average := total as real / count as real;
      assert average * count as real == total as real;
      var part := B * length as real / average;
      assert part * average == B * length as real;
      assert part * total as real == part * average * count as real;
      assert part * total as real == B * length as real * count as real;
    }
  }

  /** The score of a term: eleven fifths of its weight at most, which is approached as the
      term becomes frequent in a short document. */
  lemma TermScoreMeaning(idf: real, tf: nat, norm: real)
    requires tf > 0 && norm > 0.0
    ensures TermScore(idf, tf, norm) * (5.0 * tf as real + 6.0 * norm) == 11.0 * idf * tf as real
  {
    var below := tf as real + K1 * norm;
    var score := TermScore(idf, tf, norm);
    assert score * below == idf * (tf as real * (K1 + 1.0));
    assert 5.0 * below == 5.0 * tf as real + 6.0 * norm;
    FiveTimes(score, below);
  }

  lemma FiveTimes(x: real, y: real)
    ensures x * (5.0 * y) == 5.0 * (x * y)
  {
  }

  /** More occurrences score higher, longer documents lower. */
  lemma TermScoreOrder(idf: real, tf: nat, norm: real, more: nat, longer: real)
    requires idf > 0.0 && 0 < tf < more && 0.0 < norm < longer
    ensures TermScore(idf, tf, norm) < TermScore(idf, more, norm)
    ensures TermScore(idf, tf, longer) < TermScore(idf, tf, norm)
  {
    hide TermScore;
    TermScoreMeaning(idf, tf, norm);
    TermScoreMeaning(idf, more, norm);
    TermScoreMeaning(idf, tf, longer);
    Cross(TermScore(idf, tf, norm), TermScore(idf, more, norm), tf as real, more as real, norm, norm, idf);
    Cross(TermScore(idf, tf, longer), TermScore(idf, tf, norm), tf as real, tf as real, longer, norm, idf);
  }

  lemma Cross(x: real, y: real, a: real, b: real, m: real, n: real, idf: real)
    requires idf > 0.0 && 0.0 < a <= b && 0.0 < n <= m && (a < b || n < m)
    requires x * (5.0 * a + 6.0 * m) == 11.0 * idf * a && y * (5.0 * b + 6.0 * n) == 11.0 * idf * b
    ensures x < y
  {
    var c := 11.0 * idf;
    var p, q := 5.0 * a + 6.0 * m, 5.0 * b + 6.0 * n;
    ShareLess(a, b, m, n);
    assert a * q < b * p;
    ProductLess(c, a * q, b * p);
    assert x * p * q == c * (a * q) && y * q * p == c * (b * p);
    if x >= y {
      Product(p, q);
      ProductAtMost(y, x, p * q);
    }
  }

  lemma ShareLess(a: real, b: real, m: real, n: real)
    requires 0.0 < a <= b && 0.0 < n <= m && (a < b || n < m)
    ensures a * (5.0 * b + 6.0 * n) < b * (5.0 * a + 6.0 * m)
  {
    ProductAtMost(n, m, b);
    ProductAtMost(a, b, n);
    if n < m {
      ProductLess(b, n, m);
    } else {
      ProductLess(n, a, b);
    }
  }

  // ------------------------------------------------------- scoring without an index

  function DocumentFrequency(lx: Lexer, docs: seq<Doc>, n: nat, t: Term): (f: nat)
    requires n <= |docs|
    ensures f <= n
  {
    if n == 0 then 0
    else DocumentFrequency(lx, docs, n - 1, t) + (if FrequencyIn(lx, docs[n - 1], t) > 0 then 1 else 0)
  }

  datatype Corpus = Corpus(lx: Lexer, ln: real -> real, docs: seq<Doc>)

  function Contribution(c: Corpus, d: nat, t: Term): real
    requires d < |c.docs|
  {
    var tf := FrequencyIn(c.lx, c.docs[d], t);
    if tf == 0 then 0.0
    else
      TermScore(Idf(c.ln, |c.docs|, DocumentFrequency(c.lx, c.docs, |c.docs|, t)), tf,
                Norm(LengthOf(c.lx, FieldsOf(c.docs[d])), LengthsBelow(c.lx, c.docs, |c.docs|), |c.docs|))
  }

  function Bm25(c: Corpus, d: nat, terms: seq<Term>): real
    requires d < |c.docs|
  {
    if terms == [] then 0.0 else Bm25(c, d, terms[..|terms| - 1]) + Contribution(c, d, terms[|terms| - 1])
  }

  predicate Shares(c: Corpus, d: nat, terms: seq<Term>)
    requires d < |c.docs|
  {
    exists t <- terms :: FrequencyIn(c.lx, c.docs[d], t) > 0
  }

  /** The query's words, its text, the filters, and how many hits are wanted. */
  datatype Request = Request(terms: seq<Term>, text: string, admits: Doc -> bool, limit: nat)

  predicate IsSymbol(c: Corpus, d: nat, q: Request)
    requires d < |c.docs|
  {
    c.lx.lower(c.docs[d].symbol) == q.text
  }

  predicate IsName(c: Corpus, d: nat, q: Request)
    requires d < |c.docs|
  {
    c.lx.lower(c.docs[d].name) == q.text
  }

  predicate AnySymbol(c: Corpus, q: Request) {
    exists d: nat :: d < |c.docs| && IsSymbol(c, d, q)
  }

  predicate Scored(c: Corpus, d: nat, q: Request)
    requires d < |c.docs|
  {
    if AnySymbol(c, q) then IsSymbol(c, d, q) else Shares(c, d, q.terms) || IsName(c, d, q)
  }

  predicate AnyScored(c: Corpus, q: Request) {
    exists d: nat :: d < |c.docs| && Scored(c, d, q)
  }

  predicate Candidate(c: Corpus, d: nat, q: Request)
    requires d < |c.docs|
  {
    if AnyScored(c, q) then Scored(c, d, q) else c.lx.contains(c.docs[d].symbol, q.text)
  }

  function BaseScore(c: Corpus, d: nat, q: Request): real
    requires d < |c.docs|
  {
    if AnySymbol(c, q) || !Scored(c, d, q) then 0.0 else Bm25(c, d, q.terms)
  }

  function Boost(c: Corpus, d: nat, q: Request): real
    requires d < |c.docs|
  {
    if IsSymbol(c, d, q) then EXACT_SYMBOL_BOOST
    else if IsName(c, d, q) then EXACT_NAME_BOOST
    else if c.lx.contains(c.docs[d].symbol, q.text) then PHRASE_BOOST
    else 0.0
  }

  datatype Hit = Hit(score: real, doc: nat)

  /** What scoring every document gives, in document order. */
  function BruteHits(c: Corpus, q: Request, n: nat): seq<Hit>
    requires n <= |c.docs|
  {
    if n == 0 then []
    else
      BruteHits(c, q, n - 1)
      + (if Candidate(c, n - 1, q) && q.admits(c.docs[n - 1])
         then [Hit(BaseScore(c, n - 1, q) + Boost(c, n - 1, q), n - 1)] else [])
  }

  // -------------------------------------------------------------- scores are positive

  lemma {:induction false} Bm25Sign(c: Corpus, d: nat, terms: seq<Term>)
    requires IsLog(c.ln) && d < |c.docs|
    ensures Bm25(c, d, terms) >= 0.0
    ensures Shares(c, d, terms) <==> Bm25(c, d, terms) > 0.0
  {
    hide IsLog, FieldsOf, Frequency, Contribution;
    if terms != [] {
      var init, t := terms[..|terms| - 1], terms[|terms| - 1];
      Bm25Sign(c, d, init);
      ContributionSign(c, d, t);
      assert forall u :: u in terms <==> u in init || u == t;
    }
  }

  lemma ContributionSign(c: Corpus, d: nat, t: Term)
    requires IsLog(c.ln) && d < |c.docs|
    ensures Contribution(c, d, t) >= 0.0
    ensures Contribution(c, d, t) > 0.0 <==> FrequencyIn(c.lx, c.docs[d], t) > 0
  {
    hide IsLog, FieldsOf, Frequency, TermScore, Idf, Norm, LengthOf, LengthsBelow;
    var tf := FrequencyIn(c.lx, c.docs[d], t);
    if tf > 0 {
      var df := DocumentFrequency(c.lx, c.docs, |c.docs|, t);
      var norm := Norm(LengthOf(c.lx, FieldsOf(c.docs[d])), LengthsBelow(c.lx, c.docs, |c.docs|), |c.docs|);
      IdfPositive(c.ln, |c.docs|, df);
      TermScorePositive(Idf(c.ln, |c.docs|, df), tf, norm);
    }
  }

  /** Every candidate has a positive score, so the final filter on positive scores drops
      none of them. */
  lemma CandidatesScorePositive(c: Corpus, d: nat, q: Request)
    requires IsLog(c.ln) && d < |c.docs| && Candidate(c, d, q)
    ensures BaseScore(c, d, q) + Boost(c, d, q) > 0.0
  {
    hide IsLog, FieldsOf, Frequency, Bm25, Shares;
    Bm25Sign(c, d, q.terms);
    if !AnyScored(c, q) {
      assert !Scored(c, d, q);
    }
  }

  // ------------------------------------------------------------- reading the index

  ghost predicate Holds(postings: seq<Posting>, i: nat, d: nat)
    requires i <= |postings|
  {
    exists k :: 0 <= k < i && postings[k].doc == d
  }

  lemma HoldsSnoc(postings: seq<Posting>, x: Posting, d: nat)
    ensures Holds(postings + [x], |postings| + 1, d) <==> Holds(postings, |postings|, d) || d == x.doc
  {
    var p := postings + [x];
    assert p[|postings|] == x;
    if Holds(postings, |postings|, d) {
      var k :| 0 <= k < |postings| && postings[k].doc == d;
      assert p[k].doc == d;
    }
  }

  /** A term's list is in document order, with the right frequencies; its length is the
      document frequency. */
  lemma {:induction false} PostingsExact(lx: Lexer, docs: seq<Doc>, n: nat, t: Term)
    requires n <= |docs|
    ensures var p := Postings(lx, docs, n, t);
            && |p| == DocumentFrequency(lx, docs, n, t)
            && (forall i :: 0 <= i < |p| ==> p[i].doc < n && p[i].frequency == FrequencyIn(lx, docs[p[i].doc], t) > 0)
            && (forall i, j :: 0 <= i < j < |p| ==> p[i].doc < p[j].doc)
  {
    hide FrequencyIn;
    if n > 0 {
      PostingsExact(lx, docs, n - 1, t);
    }
  }

  /** It lists every document that has the term, and no other. */
  lemma {:induction false} PostingsComplete(lx: Lexer, docs: seq<Doc>, n: nat, t: Term, d: nat)
    requires n <= |docs| && d < |docs|
    ensures var p := Postings(lx, docs, n, t); Holds(p, |p|, d) <==> d < n && FrequencyIn(lx, docs[d], t) > 0
  {
    hide FrequencyIn, Holds;
    if n == 0 {
      HoldsNone(d);
    } else {
      PostingsComplete(lx, docs, n - 1, t, d);
      var before, f := Postings(lx, docs, n - 1, t), FrequencyIn(lx, docs[n - 1], t);
      if f > 0 {
        HoldsSnoc(before, Posting(n - 1, f), d);
      } else {
        assert before + [] == before;
      }
    }
  }

  lemma HoldsNone(d: nat)
    ensures !Holds([], 0, d)
  {
  }

  lemma {:induction false} MatchingExact(key: Doc -> string, docs: seq<Doc>, n: nat, k: string)
    requires n <= |docs|
    ensures forall d :: d in Matching(key, docs, n, k) <==> 0 <= d < n && key(docs[d]) == k
  {
    if n > 0 {
      MatchingExact(key, docs, n - 1, k);
    }
  }

  function ScoreIn(scores: map<nat, real>, d: nat): real {
    if d in scores then scores[d] else 0.0
  }

  /** The scores after some of the query's terms. */
  ghost predicate Accumulated(c: Corpus, terms: seq<Term>, scores: map<nat, real>) {
    && (forall d: nat :: d in scores <==> d < |c.docs| && Shares(c, d, terms))
    && (forall d: nat :: d < |c.docs| ==> ScoreIn(scores, d) == Bm25(c, d, terms))
  }

  method AddTerm(c: Corpus, ix: Index, t: Term, s0: map<nat, real>) returns (scores: map<nat, real>)
    requires ix.docs == c.docs && Indexes(c.lx, c.docs, |c.docs|, ix)
    requires forall d :: d in s0 ==> d < |c.docs|
    ensures forall d: nat :: d in scores <==> d in s0 || (d < |c.docs| && FrequencyIn(c.lx, c.docs[d], t) > 0)
    ensures forall d: nat :: d < |c.docs| ==> ScoreIn(scores, d) == ScoreIn(s0, d) + Contribution(c, d, t)
  {
    hide FieldsOf, Frequency, Postings, Matching, LengthsBelow, LengthOf, TermScore, Idf, Norm, DocumentFrequency;
    var postings := Lookup(ix.postings, t);
    PostingsExact(c.lx, c.docs, |c.docs|, t);
    forall d: nat | d < |c.docs|
      ensures Holds(postings, |postings|, d) <==> FrequencyIn(c.lx, c.docs[d], t) > 0
    {
      PostingsComplete(c.lx, c.docs, |c.docs|, t, d);
    }
    assert postings == Postings(c.lx, c.docs, |c.docs|, t);
    scores := s0;
    for i := 0 to |postings|
      invariant forall d: nat :: d in scores <==> d in s0 || Holds(postings, i, d)
      invariant forall d: nat :: d < |c.docs| ==>
                  ScoreIn(scores, d) == ScoreIn(s0, d) + (if Holds(postings, i, d) then Contribution(c, d, t) else 0.0)
    {
      var d := postings[i].doc;
      HoldsNext(postings, i);
      var norm := Norm(ix.lengths[d], ix.total, |ix.docs|);
      var added := TermScore(Idf(c.ln, |ix.docs|, |postings|), postings[i].frequency, norm);
      assert added == Contribution(c, d, t);
      scores := scores[d := ScoreIn(scores, d) + added];
    }
  }

  lemma HoldsNext(postings: seq<Posting>, i: nat)
    requires i < |postings| && forall a, b :: 0 <= a < b < |postings| ==> postings[a].doc < postings[b].doc
    ensures forall d :: Holds(postings, i + 1, d) <==> Holds(postings, i, d) || d == postings[i].doc
    ensures !Holds(postings, i, postings[i].doc)
  {
    forall d ensures Holds(postings, i + 1, d) <==> Holds(postings, i, d) || d == postings[i].doc {
      if Holds(postings, i, d) {
        var k :| 0 <= k < i && postings[k].doc == d;
        assert k < i + 1;
      }
    }
  }

  lemma AccumulatedNext(c: Corpus, terms: seq<Term>, i: nat, s0: map<nat, real>, scores: map<nat, real>)
    requires i < |terms| && Accumulated(c, terms[..i], s0)
    requires forall d: nat :: d in scores <==> d in s0 || (d < |c.docs| && FrequencyIn(c.lx, c.docs[d], terms[i]) > 0)
    requires forall d: nat :: d < |c.docs| ==> ScoreIn(scores, d) == ScoreIn(s0, d) + Contribution(c, d, terms[i])
    ensures Accumulated(c, terms[..i + 1], scores)
  {
    hide FieldsOf, Frequency, Contribution, ScoreIn;
    assert terms[..i + 1][..i] == terms[..i];
    assert forall t :: t in terms[..i + 1] <==> t in terms[..i] || t == terms[i];
  }

  lemma AccumulatedNone(c: Corpus)
    ensures Accumulated(c, [], map[])
  {
  }

  /** Adds up the query's terms, one posting list after the other. */
  method ScoreTerms(c: Corpus, ix: Index, terms: seq<Term>) returns (scores: map<nat, real>)
    requires ix.docs == c.docs && Indexes(c.lx, c.docs, |c.docs|, ix)
    ensures Accumulated(c, terms, scores)
  {
    hide Accumulated, Indexes, FrequencyIn, Contribution, ScoreIn;
    scores := map[];
    AccumulatedNone(c);
    for i := 0 to |terms|
      invariant Accumulated(c, terms[..i], scores)
    {
      var before := scores;
      AccumulatedIds(c, terms[..i], before);
      scores := AddTerm(c, ix, terms[i], before);
      AccumulatedNext(c, terms, i, before, scores);
    }
    assert terms[..|terms|] == terms;
  }

  /** The scored documents and their base scores, read off the index. */
  method Score(c: Corpus, ix: Index, q: Request) returns (scores: map<nat, real>)
    requires IsLog(c.ln) && ix.docs == c.docs && Indexes(c.lx, c.docs, |c.docs|, ix)
    ensures forall d: nat :: d in scores <==> d < |c.docs| && Scored(c, d, q)
    ensures forall d: nat :: d in scores ==> scores[d] == BaseScore(c, d, q)
  {
    hide FieldsOf, Frequency, Postings, Matching, LengthsBelow, Accumulated, Bm25, Shares, IsLog;
    var symbols := Lookup(ix.symbols, q.text);
    MatchingExact(SymbolOf(c.lx), c.docs, |c.docs|, q.text);
    assert symbols == Matching(SymbolOf(c.lx), c.docs, |c.docs|, q.text);
    if symbols != [] {
      assert symbols[0] in symbols;
      assert symbols[0] < |c.docs| && IsSymbol(c, symbols[0], q);
      scores := map d | d in symbols :: 0.0;
      return;
    }
    assert !AnySymbol(c, q) by {
      assert forall d: nat :: d < |c.docs| ==> (IsSymbol(c, d, q) <==> d in symbols);
    }
    scores := ScoreTerms(c, ix, q.terms);
    AccumulatedIds(c, q.terms, scores);
    AccumulatedScores(c, q.terms, scores);
    var names := Lookup(ix.names, q.text);
    MatchingExact(NameOf(c.lx), c.docs, |c.docs|, q.text);
    assert names == Matching(NameOf(c.lx), c.docs, |c.docs|, q.text);
    assert forall d: nat :: d < |c.docs| ==> (IsName(c, d, q) <==> d in names);
    scores := map d | d in scores.Keys + (set n | n in names) :: ScoreIn(scores, d);
  }

  lemma AccumulatedIds(c: Corpus, terms: seq<Term>, scores: map<nat, real>)
    requires Accumulated(c, terms, scores)
    ensures forall d: nat :: d in scores <==> d < |c.docs| && Shares(c, d, terms)
  {
  }

  lemma AccumulatedScores(c: Corpus, terms: seq<Term>, scores: map<nat, real>)
    requires Accumulated(c, terms, scores)
    ensures forall d: nat :: d < |c.docs| ==> ScoreIn(scores, d) == Bm25(c, d, terms)
  {
  }

  // ---------------------------------------------------------------------- ranking

  /** Higher scores first; equal scores by the documents' symbols, files and positions. */
  predicate Ranks(docs: seq<Doc>, order: (Doc, Doc) -> bool, a: Hit, b: Hit)
    requires a.doc < |docs| && b.doc < |docs|
  {
    a.score > b.score || (a.score == b.score && order(docs[a.doc], docs[b.doc]))
  }

  ghost predicate TotalOrder(order: (Doc, Doc) -> bool) {
    && (forall a, b :: order(a, b) || order(b, a))
    && (forall a, b, c :: order(a, b) && order(b, c) ==> order(a, c))
  }

  predicate InRange(docs: seq<Doc>, hits: seq<Hit>) {
    forall i :: 0 <= i < |hits| ==> hits[i].doc < |docs|
  }

  predicate Sorted(docs: seq<Doc>, order: (Doc, Doc) -> bool, hits: seq<Hit>)
    requires InRange(docs, hits)
  {
    forall i, j :: 0 <= i < j < |hits| ==> Ranks(docs, order, hits[i], hits[j])
  }

  lemma RanksTransitive(docs: seq<Doc>, order: (Doc, Doc) -> bool, a: Hit, b: Hit, c: Hit)
    requires TotalOrder(order) && a.doc < |docs| && b.doc < |docs| && c.doc < |docs|
    ensures Ranks(docs, order, a, b) || Ranks(docs, order, b, a)
    ensures Ranks(docs, order, a, b) && Ranks(docs, order, b, c) ==> Ranks(docs, order, a, c)
  {
  }

  lemma InsertSorted(docs: seq<Doc>, order: (Doc, Doc) -> bool, hits: seq<Hit>, i: nat, h: Hit)
    requires TotalOrder(order) && InRange(docs, hits) && Sorted(docs, order, hits) && h.doc < |docs| && i <= |hits|
    requires i > 0 ==> Ranks(docs, order, hits[i - 1], h)
    requires forall k :: i <= k < |hits| ==> Ranks(docs, order, h, hits[k])
    ensures var r := hits[..i] + [h] + hits[i..]; InRange(docs, r) && Sorted(docs, order, r)
  {
    hide Ranks, TotalOrder;
    var r := hits[..i] + [h] + hits[i..];
    forall k | 0 <= k < |r| ensures r[k] == (if k < i then hits[k] else if k == i then h else hits[k - 1]) {
    }
    forall k | 0 <= k < i ensures Ranks(docs, order, hits[k], h) {
      RanksTransitive(docs, order, hits[k], hits[i - 1], h);
    }
  }

  /** Where a hit belongs among sorted ones. */
  method PlaceOf(docs: seq<Doc>, order: (Doc, Doc) -> bool, hits: seq<Hit>, h: Hit) returns (i: nat)
    requires InRange(docs, hits) && h.doc < |docs|
    ensures i <= |hits|
    ensures i > 0 ==> !Ranks(docs, order, h, hits[i - 1])
    ensures forall k :: i <= k < |hits| ==> Ranks(docs, order, h, hits[k])
  {
    hide Ranks;
    i := |hits|;
    while i > 0 && Ranks(docs, order, h, hits[i - 1])
      invariant i <= |hits|
      invariant forall k :: i <= k < |hits| ==> Ranks(docs, order, h, hits[k])
    {
      i := i - 1;
    }
  }

  method InsertHit(docs: seq<Doc>, order: (Doc, Doc) -> bool, hits: seq<Hit>, h: Hit) returns (r: seq<Hit>)
    requires TotalOrder(order) && InRange(docs, hits) && Sorted(docs, order, hits) && h.doc < |docs|
    ensures InRange(docs, r) && Sorted(docs, order, r) && multiset(r) == multiset(hits) + multiset{h}
  {
    hide Ranks, TotalOrder, Sorted;
    var i := PlaceOf(docs, order, hits, h);
    if i > 0 {
      RanksTransitive(docs, order, hits[i - 1], h, h);
    }
    InsertSorted(docs, order, hits, i, h);
    r := hits[..i] + [h] + hits[i..];
    assert hits == hits[..i] + hits[i..];
    assert multiset(hits) == multiset(hits[..i]) + multiset(hits[i..]);
  }

  method SortHits(docs: seq<Doc>, order: (Doc, Doc) -> bool, hits: seq<Hit>) returns (r: seq<Hit>)
    requires TotalOrder(order) && InRange(docs, hits)
    ensures InRange(docs, r) && Sorted(docs, order, r) && multiset(r) == multiset(hits)
  {
    hide TotalOrder;
    r := [];
    for i := 0 to |hits|
      invariant InRange(docs, r) && Sorted(docs, order, r) && multiset(r) == multiset(hits[..i])
    {
      r := InsertHit(docs, order, r, hits[i]);
      assert hits[..i + 1] == hits[..i] + [hits[i]];
    }
    assert hits[..|hits|] == hits;
  }

  lemma {:induction false} BruteInRange(c: Corpus, q: Request, n: nat)
    requires n <= |c.docs|
    ensures forall i :: 0 <= i < |BruteHits(c, q, n)| ==> BruteHits(c, q, n)[i].doc < n
    ensures Ascending(BruteHits(c, q, n))
  {
    hide Candidate, BaseScore, Boost;
    if n > 0 {
      BruteInRange(c, q, n - 1);
    }
  }

  /** If some document is named by the query in full, the hits are exactly such documents and
      score twelve; if nothing is scored, they hold the query in their name and score two;
      otherwise the text scores count, with six for the exact short name and two for a name
      that holds the query. */
  lemma HitScore(c: Corpus, d: nat, q: Request)
    requires d < |c.docs| && Candidate(c, d, q)
    ensures var symbol := c.lx.lower(c.docs[d].symbol) == q.text;
            var name := c.lx.lower(c.docs[d].name) == q.text;
            var phrase := c.lx.contains(c.docs[d].symbol, q.text);
            var score := BaseScore(c, d, q) + Boost(c, d, q);
            if exists e: nat :: e < |c.docs| && c.lx.lower(c.docs[e].symbol) == q.text then symbol && score == 12.0
            else if exists e: nat :: e < |c.docs| && (Shares(c, e, q.terms) || c.lx.lower(c.docs[e].name) == q.text) then
              && (Shares(c, d, q.terms) || name)
              && score == Bm25(c, d, q.terms) + if name then 6.0 else if phrase then 2.0 else 0.0
            else phrase && score == 2.0
  {
    hide Bm25, Shares;
    SymbolsNamed(c, q);
    if e: nat :| e < |c.docs| && IsSymbol(c, e, q) {
      assert Scored(c, e, q);
    } else {
      ScoredNamed(c, q);
      assert IsSymbol(c, d, q) ==> AnySymbol(c, q);
      assert Scored(c, d, q) ==> AnyScored(c, q);
    }
  }

  lemma SymbolsNamed(c: Corpus, q: Request)
    ensures AnySymbol(c, q) <==> exists e: nat :: e < |c.docs| && c.lx.lower(c.docs[e].symbol) == q.text
  {
    if e: nat :| e < |c.docs| && c.lx.lower(c.docs[e].symbol) == q.text {
      assert IsSymbol(c, e, q);
    }
  }

  lemma ScoredNamed(c: Corpus, q: Request)
    requires !AnySymbol(c, q)
    ensures AnyScored(c, q)
       <==> exists e: nat :: e < |c.docs| && (Shares(c, e, q.terms) || c.lx.lower(c.docs[e].name) == q.text)
  {
    hide Shares;
    if e: nat :| e < |c.docs| && (Shares(c, e, q.terms) || c.lx.lower(c.docs[e].name) == q.text) {
      assert Scored(c, e, q);
    }
    if e: nat :| e < |c.docs| && Scored(c, e, q) {
      assert Shares(c, e, q.terms) || c.lx.lower(c.docs[e].name) == q.text;
    }
  }

  /** All hits, read off the index: the final filter drops nothing. */
  method CollectHits(c: Corpus, ix: Index, q: Request) returns (all: seq<Hit>)
    requires IsLog(c.ln) && ix.docs == c.docs && Indexes(c.lx, c.docs, |c.docs|, ix)
    ensures all == BruteHits(c, q, |c.docs|)
  {
    hide Scored, BaseScore, Boost, Indexes, IsLog;
    var scores := Score(c, ix, q);
    assert (scores == map[]) <==> !AnyScored(c, q);
    all := [];
    for d: nat := 0 to |c.docs|
      invariant all == BruteHits(c, q, d)
    {
      var doc := c.docs[d];
      var candidate := if scores != map[] then d in scores else c.lx.contains(doc.symbol, q.text);
      if candidate && q.admits(doc) {
        BaseUnscored(c, d, q);
        var score := ScoreIn(scores, d) + Boost(c, d, q);
        CandidatesScorePositive(c, d, q);
        if score > 0.0 {
          all := all + [Hit(score, d)];
        }
      }
    }
  }

  /** Searching the index returns what scoring every document returns: as many hits as are
      wanted and there are, of different documents, with the same scores, the highest scores
      first and equal scores in the documents' order; and no hit is left out for a lower
      one. */
  method Search(c: Corpus, ix: Index, q: Request, order: (Doc, Doc) -> bool) returns (hits: seq<Hit>)
    requires IsLog(c.ln) && TotalOrder(order) && ix.docs == c.docs && Indexes(c.lx, c.docs, |c.docs|, ix)
    ensures q.terms == [] || q.limit == 0 ==> hits == []
    ensures forall h <- hits :: h in BruteHits(c, q, |c.docs|) && h.doc < |c.docs|
    ensures forall i, j :: 0 <= i < j < |hits| ==> hits[i].doc != hits[j].doc
    ensures forall i, j :: 0 <= i < j < |hits| ==>
              && hits[i].score >= hits[j].score
              && (hits[i].score == hits[j].score ==> order(c.docs[hits[i].doc], c.docs[hits[j].doc]))
    ensures q.terms != [] && q.limit > 0 ==> |hits| == Min(q.limit, |BruteHits(c, q, |c.docs|)|)
    ensures forall out <- BruteHits(c, q, |c.docs|) :: out.doc < |c.docs|
    ensures q.terms != [] && q.limit > 0 ==>
              forall out <- BruteHits(c, q, |c.docs|), h <- hits :: out !in hits ==>
                && h.score >= out.score
                && (h.score == out.score ==> order(c.docs[h.doc], c.docs[out.doc]))
  {
    hide BruteHits, Indexes, IsLog, TotalOrder, Ranks, Sorted;
    BruteInRange(c, q, |c.docs|);
    if q.terms == [] || q.limit == 0 {
      return [];
    }
    var all := CollectHits(c, ix, q);
    var ranked := SortHits(c.docs, order, all);
    Ranked(c.docs, order, ranked, all);
    hits := ranked[..Min(q.limit, |ranked|)];
    Cut(c.docs, order, ranked, all, Min(q.limit, |ranked|));
  }

  ghost predicate Ascending(hits: seq<Hit>) {
    forall i, j :: 0 <= i < j < |hits| ==> hits[i].doc < hits[j].doc
  }

  lemma {:induction false} OnceEach(hits: seq<Hit>, h: Hit)
    requires Ascending(hits)
    ensures multiset(hits)[h] <= 1
  {
    if hits != [] {
      var n := |hits| - 1;
      assert hits == hits[..n] + [hits[n]];
      OnceEach(hits[..n], h);
    }
  }

  lemma TwiceThere(hits: seq<Hit>, i: nat, j: nat)
    requires i < j < |hits| && hits[i] == hits[j]
    ensures multiset(hits)[hits[i]] >= 2
  {
    assert hits == hits[..j] + [hits[j]] + hits[j + 1..];
    assert hits[..j] == hits[..i] + [hits[i]] + hits[i + 1..j];
  }

  lemma SameMembers(a: seq<Hit>, b: seq<Hit>)
    requires multiset(a) == multiset(b)
    ensures forall h :: h in a <==> h in b
  {
    assert forall h :: h in a <==> h in multiset(a);
    assert forall h :: h in b <==> h in multiset(b);
  }

  /** Sorting keeps the hits and their number, and puts no document twice. */
  lemma Ranked(docs: seq<Doc>, order: (Doc, Doc) -> bool, ranked: seq<Hit>, all: seq<Hit>)
    requires InRange(docs, all) && Ascending(all) && multiset(ranked) == multiset(all)
    ensures |ranked| == |all| && forall h :: h in ranked <==> h in all
    ensures forall i, j :: 0 <= i < j < |ranked| ==> ranked[i].doc != ranked[j].doc
  {
    assert |multiset(ranked)| == |multiset(all)|;
    SameMembers(ranked, all);
    forall i, j | 0 <= i < j < |ranked| ensures ranked[i].doc != ranked[j].doc {
      assert ranked[i] in ranked && ranked[j] in ranked;
      if ranked[i] == ranked[j] {
        TwiceThere(ranked, i, j);
        OnceEach(all, ranked[i]);
      }
    }
  }

  lemma Behind(ranked: seq<Hit>, k: nat, out: Hit) returns (j: nat)
    requires k <= |ranked| && out in ranked && out !in ranked[..k]
    ensures k <= j < |ranked| && ranked[j] == out
  {
    assert ranked == ranked[..k] + ranked[k..];
    var i :| 0 <= i < |ranked| - k && ranked[k..][i] == out;
    j := k + i;
  }

  /** The front of the ranked hits is in order, and nothing behind it belongs before it. */
  lemma Cut(docs: seq<Doc>, order: (Doc, Doc) -> bool, ranked: seq<Hit>, all: seq<Hit>, k: nat)
    requires InRange(docs, ranked) && Sorted(docs, order, ranked) && k <= |ranked|
    requires InRange(docs, all) && forall h :: h in ranked <==> h in all
    ensures var hits := ranked[..k];
            && (forall h <- hits :: h in all && h.doc < |docs|)
            && (forall i, j :: 0 <= i < j < |hits| ==>
                  && hits[i].score >= hits[j].score
                  && (hits[i].score == hits[j].score ==> order(docs[hits[i].doc], docs[hits[j].doc])))
            && (forall out <- all :: out.doc < |docs|)
            && (forall out <- all, h <- hits :: out !in hits ==>
                  && h.score >= out.score
                  && (h.score == out.score ==> order(docs[h.doc], docs[out.doc])))
  {
    var hits := ranked[..k];
    forall out, h | out in all && h in hits && out !in hits
      ensures out.doc < |docs| && h.doc < |docs| && Ranks(docs, order, h, out)
    {
      var i :| 0 <= i < k && ranked[i] == h;
      var j := Behind(ranked, k, out);
    }
    forall i, j | 0 <= i < j < |hits|
      ensures hits[i].doc < |docs| && hits[j].doc < |docs| && Ranks(docs, order, hits[i], hits[j])
    {
      assert hits[i] == ranked[i] && hits[j] == ranked[j];
    }
  }

  lemma BaseUnscored(c: Corpus, d: nat, q: Request)
    requires d < |c.docs|
    ensures !Scored(c, d, q) ==> BaseScore(c, d, q) == 0.0
  {
  }
}
