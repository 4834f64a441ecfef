/** Weighted terms of a document and the inverted index built from them (src/search.rs).
    Splitting text into lower-case words and lower-casing are given functions. */
module SearchTerms {
  import opened Basics

  type Term = string

  datatype Lexer = Lexer(words: string -> seq<Term>, lower: string -> string, contains: (string, string) -> bool)

  datatype Doc = Doc(
    name: string,
    symbol: string,
    typePath: string,
    docs: string,
    parameters: string,
    parent: string,
    file: string,
    source: string,
    line: nat,
    column: nat)

  /** The indexed fields with their weights. */
  function FieldsOf(d: Doc): seq<(string, nat)> {
    [ (d.name, 10), (d.symbol, 8), (d.typePath, 5), (d.docs, 4), (d.parameters, 4), (d.parent, 2), (d.file, 2), (d.source, 1) ]
  }

  /** A weight for every occurrence of a term among words. */
  function Weigh(words: seq<Term>, t: Term, weight: nat): nat {
    if words == [] then 0
    else Weigh(words[..|words| - 1], t, weight) + (if words[|words| - 1] == t then weight else 0)
  }

  /** The weighted number of times a term occurs. */
  function Frequency(lx: Lexer, fields: seq<(string, nat)>, t: Term): nat {
    if fields == [] then 0
    else
      var last := fields[|fields| - 1];
      Frequency(lx, fields[..|fields| - 1], t) + Weigh(lx.words(last.0), t, last.1)
  }

  /** The weighted number of words. */
  function LengthOf(lx: Lexer, fields: seq<(string, nat)>): nat {
    if fields == [] then 0
    else
      var last := fields[|fields| - 1];
      LengthOf(lx, fields[..|fields| - 1]) + last.1 * |lx.words(last.0)|
  }

  function FrequencyIn(lx: Lexer, d: Doc, t: Term): nat {
    Frequency(lx, FieldsOf(d), t)
  }

  lemma {:induction false} WeighCounts(words: seq<Term>, t: Term, weight: nat)
    ensures Weigh(words, t, weight) == weight * multiset(words)[t]
  {
    if words != [] {
      var n := |words| - 1;
      WeighCounts(words[..n], t, weight);
      assert words == words[..n] + [words[n]];
      var k := multiset(words[..n])[t];
      assert weight * (k + 1) == weight * k + weight;
    }
  }

  function Occurrences(lx: Lexer, text: string, t: Term): nat {
    multiset(lx.words(text))[t]
  }

  lemma FieldStep(lx: Lexer, fields: seq<(string, nat)>, field: (string, nat), t: Term)
    ensures Frequency(lx, fields + [field], t) == Frequency(lx, fields, t) + field.1 * Occurrences(lx, field.0, t)
    ensures LengthOf(lx, fields + [field]) == LengthOf(lx, fields) + field.1 * |lx.words(field.0)|
  {
    var all := fields + [field];
    assert all[..|all| - 1] == fields;
    WeighCounts(lx.words(field.0), t, field.1);
  }

  /** How much each field counts. */
  lemma FieldWeights(lx: Lexer, d: Doc, t: Term)
    ensures FrequencyIn(lx, d, t)
         == 10 * Occurrences(lx, d.name, t) + 8 * Occurrences(lx, d.symbol, t) + 5 * Occurrences(lx, d.typePath, t)
          + 4 * Occurrences(lx, d.docs, t) + 4 * Occurrences(lx, d.parameters, t) + 2 * Occurrences(lx, d.parent, t)
          + 2 * Occurrences(lx, d.file, t) + Occurrences(lx, d.source, t)
  {
    hide Frequency, Occurrences, LengthOf;
    NoFields(lx, t);
    FieldStep(lx, [], (d.name, 10), t);
    FieldStep(lx, [(d.name, 10)], (d.symbol, 8), t);
    FieldStep(lx, [(d.name, 10), (d.symbol, 8)], (d.typePath, 5), t);
    var four := [(d.name, 10), (d.symbol, 8), (d.typePath, 5), (d.docs, 4)];
    FieldStep(lx, [(d.name, 10), (d.symbol, 8), (d.typePath, 5)], (d.docs, 4), t);
    FieldStep(lx, four, (d.parameters, 4), t);
    FieldStep(lx, four + [(d.parameters, 4)], (d.parent, 2), t);
    FieldStep(lx, four + [(d.parameters, 4)] + [(d.parent, 2)], (d.file, 2), t);
    FieldStep(lx, four + [(d.parameters, 4)] + [(d.parent, 2)] + [(d.file, 2)], (d.source, 1), t);
    assert [] + [(d.name, 10)] == [(d.name, 10)];
    assert [(d.name, 10)] + [(d.symbol, 8)] == [(d.name, 10), (d.symbol, 8)];
    assert [(d.name, 10), (d.symbol, 8)] + [(d.typePath, 5)] == [(d.name, 10), (d.symbol, 8), (d.typePath, 5)];
    assert [(d.name, 10), (d.symbol, 8), (d.typePath, 5)] + [(d.docs, 4)] == four;
    assert four + [(d.parameters, 4)] + [(d.parent, 2)] + [(d.file, 2)] + [(d.source, 1)] == FieldsOf(d);
  }

  lemma NoFields(lx: Lexer, t: Term)
    ensures Frequency(lx, [], t) == 0
  {
  }

  function Get(m: map<Term, nat>, t: Term): nat {
    if t in m then m[t] else 0
  }

  function Itself(n: nat): nat {
    n
  }

  predicate Positive(m: map<Term, nat>) {
    forall t :: t in m ==> m[t] > 0
  }

  method AddTerms(m0: map<Term, nat>, words: seq<Term>, weight: nat) returns (m: map<Term, nat>)
    requires weight > 0 && Positive(m0)
    ensures Positive(m)
    ensures forall t :: Get(m, t) == Get(m0, t) + Weigh(words, t, weight)
    ensures Total<Term, nat>(m, Itself) == Total<Term, nat>(m0, Itself) + weight * |words|
  {
    hide Weigh, Total;
    m := m0;
    NoWords(weight);
    for i := 0 to |words|
      invariant Positive(m)
      invariant forall t :: Get(m, t) == Get(m0, t) + Weigh(words[..i], t, weight)
      invariant Total<Term, nat>(m, Itself) == Total<Term, nat>(m0, Itself) + weight * i
    {
      var w := words[i];
      TotalWith<Term, nat>(m, Itself, w, Get(m, w) + weight);
      OneWord(words, i, weight);
      m := m[w := Get(m, w) + weight];
    }
    assert words[..|words|] == words;
  }

  lemma NoWords(weight: nat)
    ensures forall t :: Weigh([], t, weight) == 0
  {
  }

  lemma OneWord(words: seq<Term>, i: nat, weight: nat)
    requires i < |words|
    ensures forall t :: Weigh(words[..i + 1], t, weight) == Weigh(words[..i], t, weight) + (if words[i] == t then weight else 0)
    ensures weight * (i + 1) == weight * i + weight
  {
    assert words[..i + 1][..i] == words[..i];
  }

  /** Counts every term of every field by the field's weight. */
  method WeightedTerms(lx: Lexer, d: Doc) returns (m: map<Term, nat>)
    ensures Positive(m)
    ensures forall t :: Get(m, t) == FrequencyIn(lx, d, t)
    ensures Total<Term, nat>(m, Itself) == LengthOf(lx, FieldsOf(d))
  {
    hide Weigh;
    m := map[];
    var fields := FieldsOf(d);
    for i := 0 to |fields|
      invariant Positive(m)
      invariant forall t :: Get(m, t) == Frequency(lx, fields[..i], t)
      invariant Total<Term, nat>(m, Itself) == LengthOf(lx, fields[..i])
    {
      assert fields[..i + 1][..i] == fields[..i];
      assert fields[i].1 > 0;
      m := AddTerms(m, lx.words(fields[i].0), fields[i].1);
    }
    assert fields[..|fields|] == fields;
  }

  // ----------------------------------------------------------------------- index

  datatype Posting = Posting(doc: nat, frequency: nat)

  /** The documents below `n` that hold a term, in order, with its frequency. */
  function Postings(lx: Lexer, docs: seq<Doc>, n: nat, t: Term): seq<Posting>
    requires n <= |docs|
  {
    if n == 0 then []
    else
      var f := FrequencyIn(lx, docs[n - 1], t);
      Postings(lx, docs, n - 1, t) + (if f > 0 then [Posting(n - 1, f)] else [])
  }

  /** The documents below `n` whose key is the given one, in order. */
  function Matching(key: Doc -> string, docs: seq<Doc>, n: nat, k: string): seq<nat>
    requires n <= |docs|
  {
    if n == 0 then [] else Matching(key, docs, n - 1, k) + (if key(docs[n - 1]) == k then [n - 1] else [])
  }

  function Lookup<V>(m: map<string, seq<V>>, k: string): seq<V> {
    if k in m then m[k] else []
  }

  function SymbolOf(lx: Lexer): Doc -> string {
    (d: Doc) => lx.lower(d.symbol)
  }

  function NameOf(lx: Lexer): Doc -> string {
    (d: Doc) => lx.lower(d.name)
  }

  function LengthsBelow(lx: Lexer, docs: seq<Doc>, n: nat): nat
    requires n <= |docs|
  {
    if n == 0 then 0 else LengthsBelow(lx, docs, n - 1) + LengthOf(lx, FieldsOf(docs[n - 1]))
  }

  datatype Index = Index(
    docs: seq<Doc>,
    postings: map<Term, seq<Posting>>,
    symbols: map<string, seq<nat>>,
    names: map<string, seq<nat>>,
    lengths: seq<nat>,
    total: nat)

  /** The index of the first `n` documents. */
  ghost predicate Indexes(lx: Lexer, docs: seq<Doc>, n: nat, ix: Index)
    requires n <= |docs|
  {
    && (forall t :: Lookup(ix.postings, t) == Postings(lx, docs, n, t))
    && (forall k :: Lookup(ix.symbols, k) == Matching(SymbolOf(lx), docs, n, k))
    && (forall k :: Lookup(ix.names, k) == Matching(NameOf(lx), docs, n, k))
    && |ix.lengths| == n
    && (forall i :: 0 <= i < n ==> ix.lengths[i] == LengthOf(lx, FieldsOf(docs[i])))
    && ix.total == LengthsBelow(lx, docs, n)
  }

  function Pushed<V>(m: map<string, seq<V>>, k: string, v: V): map<string, seq<V>> {
    m[k := Lookup(m, k) + [v]]
  }

  lemma PushedLookup<V>(m: map<string, seq<V>>, k: string, v: V)
    ensures forall j :: Lookup(Pushed(m, k, v), j) == if j == k then Lookup(m, j) + [v] else Lookup(m, j)
  {
  }

  lemma AppendNone(s: seq<Posting>)
    ensures s + [] == s
  {
  }

  /** Adds a document to the list of every term it holds. */
  method PushPostings(p0: map<Term, seq<Posting>>, id: nat, terms: map<Term, nat>) returns (p: map<Term, seq<Posting>>)
    ensures forall t :: Lookup(p, t) == Lookup(p0, t) + (if t in terms then [Posting(id, terms[t])] else [])
  {
    hide Lookup, Pushed;
    p := p0;
    var rest := terms.Keys;
    forall u ensures Lookup(p, u) == Lookup(p0, u) + [] {
      AppendNone(Lookup(p0, u));
    }
    while rest != {}
      invariant rest <= terms.Keys
      invariant forall t :: Lookup(p, t) ==
                            Lookup(p0, t) + (if t in terms && t !in rest then [Posting(id, terms[t])] else [])
      decreases |rest|
    {
      var t :| t in rest;
      ghost var before := p;
      p := Pushed(p, t, Posting(id, terms[t]));
      rest := rest - {t};
      PushedLookup(before, t, Posting(id, terms[t]));
      forall u ensures Lookup(p, u) == Lookup(p0, u) + (if u in terms && u !in rest then [Posting(id, terms[u])] else []) {
        AppendNone(Lookup(p0, u));
      }
    }
  }

  method SumLengths(m: map<Term, nat>) returns (sum: nat)
    ensures sum == Total<Term, nat>(m, Itself)
  {
    sum := 0;
    var rest := m;
    while rest != map[]
      invariant sum + Total<Term, nat>(rest, Itself) == Total<Term, nat>(m, Itself)
      decreases |rest|
    {
      var t :| t in rest;
      TotalWithout<Term, nat>(rest, Itself, t);
      sum := sum + rest[t];
      rest := rest - {t};
    }
  }

  lemma IndexesNone(lx: Lexer, docs: seq<Doc>)
    ensures Indexes(lx, docs, 0, Index(docs, map[], map[], map[], [], 0))
  {
  }

  /** Builds the index: every list holds exactly the documents it should, in order. */
  method Build(lx: Lexer, docs: seq<Doc>) returns (ix: Index)
    ensures ix.docs == docs && Indexes(lx, docs, |docs|, ix)
  {
    hide FieldsOf, Frequency, LengthOf, Lookup, Pushed, Indexes;
    var postings: map<Term, seq<Posting>>, symbols: map<string, seq<nat>>, names: map<string, seq<nat>> := map[], map[], map[];
    var lengths: seq<nat>, total: nat := [], 0;
    IndexesNone(lx, docs);
    for id: nat := 0 to |docs|
      invariant Indexes(lx, docs, id, Index(docs, postings, symbols, names, lengths, total))
    {
      ghost var before := Index(docs, postings, symbols, names, lengths, total);
      symbols := Pushed(symbols, lx.lower(docs[id].symbol), id);
      names := Pushed(names, lx.lower(docs[id].name), id);
      var terms := WeightedTerms(lx, docs[id]);
      var length := SumLengths(terms);
      lengths, total := lengths + [length], total + length;
      postings := PushPostings(postings, id, terms);
      IndexesNext(lx, docs, id, before, Index(docs, postings, symbols, names, lengths, total), terms);
    }
    ix := Index(docs, postings, symbols, names, lengths, total);
  }

  lemma IndexesNext(lx: Lexer, docs: seq<Doc>, id: nat, before: Index, after: Index, terms: map<Term, nat>)
    requires id < |docs| && Indexes(lx, docs, id, before)
    requires Positive(terms) && forall t :: Get(terms, t) == FrequencyIn(lx, docs[id], t)
    requires after.symbols == Pushed(before.symbols, lx.lower(docs[id].symbol), id)
    requires after.names == Pushed(before.names, lx.lower(docs[id].name), id)
    requires forall t :: Lookup(after.postings, t) ==
                         Lookup(before.postings, t) + (if t in terms then [Posting(id, terms[t])] else [])
    requires after.lengths == before.lengths + [LengthOf(lx, FieldsOf(docs[id]))]
    requires after.total == before.total + LengthOf(lx, FieldsOf(docs[id]))
    ensures Indexes(lx, docs, id + 1, after)
  {
    hide FieldsOf, Frequency, LengthOf, Lookup, Pushed;
    PushedLookup(before.symbols, lx.lower(docs[id].symbol), id);
    PushedLookup(before.names, lx.lower(docs[id].name), id);
    forall k ensures Lookup(after.symbols, k) == Matching(SymbolOf(lx), docs, id + 1, k) {
      assert Lookup(before.symbols, k) + [] == Lookup(before.symbols, k);
    }
    forall k ensures Lookup(after.names, k) == Matching(NameOf(lx), docs, id + 1, k) {
      assert Lookup(before.names, k) + [] == Lookup(before.names, k);
    }
    forall t ensures Lookup(after.postings, t) == Postings(lx, docs, id + 1, t) {
      assert Get(terms, t) == FrequencyIn(lx, docs[id], t);
    }
  }
}
