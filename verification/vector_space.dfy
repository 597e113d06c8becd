/**
 * The TF-IDF index and ranker `VectorSpace`.
 *
 * Documents are named token lists; document ids are their positions
 * 0..N-1 in the order the documents are given. The index maps each term to
 * the documents containing it, with the term's tf weight in each; document
 * vectors hold tf-idf weights scaled to unit length; a query is weighted the
 * same way with the cached idf values and every document is scored by its
 * dot product with the query, then ranked by a stable sort on descending
 * score.
 *
 * `log10` and `sqrt` are left uninterpreted: they are function values in
 * `Math`, and nothing is assumed about them.
 */
module VectorSpaceModel {

  /** The two library functions the ranker uses. */
  datatype Math = Math(log10: real -> real, sqrt: real -> real)

  /**
   * A term of a document or a query. Terms are only ever compared for
   * equality (as dictionary keys), so their representation is left open.
   */
  type Term(==)

  /** One document: its key (the URL) and its tokens. */
  datatype Doc = Doc(name: string, tokens: seq<Term>)

  /** A `(doc_id, score)` pair of the ranking. */
  datatype Scored = Scored(docId: nat, score: real)

  /** A term-to-weight dictionary. */
  type Vector = map<Term, real>

  /** An inverted index: term to (doc id to weight). */
  type Index = map<Term, map<nat, real>>

  // ---------------------------------------------------------------------------
  // Weights

  /** `_calculate_tf`: `1 + log10(f)` for a positive frequency, otherwise 0. */
  function Tf(m: Math, termFreq: int): (w: real)
    ensures termFreq <= 0 ==> w == 0.0
  {
    if termFreq > 0 then 1.0 + m.log10(termFreq as real) else 0.0
  }

  /** `_calculate_idf`: `log10(N / df)` for a positive document frequency, otherwise 0. */
  function Idf(m: Math, totalDocs: nat, docFreq: int): (w: real)
    ensures docFreq <= 0 ==> w == 0.0
  {
    if docFreq > 0 then m.log10(totalDocs as real / docFreq as real) else 0.0
  }

  // ---------------------------------------------------------------------------
  // Counting

  /** The number of occurrences of `t` in `tokens`. */
  function Count(tokens: seq<Term>, t: Term): nat
  {
    if tokens == [] then 0 else (if tokens[0] == t then 1 else 0) + Count(tokens[1..], t)
  }

  /** A term occurs at least once exactly when it is one of the tokens. */
  lemma {:induction false} CountPositive(tokens: seq<Term>, t: Term)
    ensures Count(tokens, t) > 0 <==> t in tokens
  {
    if tokens != [] {
      CountPositive(tokens[1..], t);
      assert tokens == [tokens[0]] + tokens[1..];
    }
  }

  /** Counting one more token. */
  lemma {:induction false} CountSnoc(tokens: seq<Term>, x: Term, t: Term)
    ensures Count(tokens + [x], t) == Count(tokens, t) + if x == t then 1 else 0
  {
    if tokens != [] {
      assert (tokens + [x])[1..] == tokens[1..] + [x];
      CountSnoc(tokens[1..], x, t);
    }
  }

  /** The documents among the first `n` that contain `t`. */
  function DocsWith(docs: seq<Doc>, n: nat, t: Term): set<nat>
    requires n <= |docs|
  {
    set i: nat | i < n && t in docs[i].tokens
  }

  /** The number of documents among the first `n` that contain `t`. */
  function DocFreq(docs: seq<Doc>, n: nat, t: Term): nat
    requires n <= |docs|
  {
    |DocsWith(docs, n, t)|
  }

  // ---------------------------------------------------------------------------
  // Sums over dictionaries

  /** The sum of `v[t]` over `keys`, in no particular order. */
  ghost function SumOver(v: Vector, keys: set<Term>): real
    requires keys <= v.Keys
    decreases keys
  {
    if keys == {} then 0.0 else var t := Pick(keys); v[t] + SumOver(v, keys - {t})
  }

  /** Some element of a non-empty set. */
  ghost function Pick(keys: set<Term>): (t: Term)
    requires keys != {}
    ensures t in keys
  {
    var t :| t in keys; t
  }

  /** The sum does not depend on the order: any key can be taken out first. */
  lemma SumOverRemove(v: Vector, keys: set<Term>, t: Term)
    requires keys <= v.Keys && t in keys
    ensures SumOver(v, keys) == v[t] + SumOver(v, keys - {t})
    decreases keys
  {
    var s :| s in keys && SumOver(v, keys) == v[s] + SumOver(v, keys - {s});
    if s != t {
      SumOverRemove(v, keys - {s}, t);
      SumOverRemove(v, keys - {t}, s);
      assert keys - {s} - {t} == keys - {t} - {s};
    }
  }

  /** Two dictionaries that agree on `keys` have the same sum over them. */
  lemma {:induction false} SumOverAgree(v: Vector, w: Vector, keys: set<Term>)
    requires keys <= v.Keys && keys <= w.Keys
    requires forall t :: t in keys ==> v[t] == w[t]
    ensures SumOver(v, keys) == SumOver(w, keys)
    decreases keys
  {
    if keys != {} {
      SumOverAgree(v, w, keys - {Pick(keys)});
    }
  }

  /** Scaling every value scales the sum. */
  lemma {:induction false} SumOverScale(v: Vector, w: Vector, keys: set<Term>, c: real)
    requires keys <= v.Keys && keys <= w.Keys
    requires forall t :: t in keys ==> w[t] == v[t] * c
    ensures SumOver(w, keys) == SumOver(v, keys) * c
    decreases keys
  {
    if keys != {} {
      var t := Pick(keys);
      var rest := keys - {t};
      SumOverScale(v, w, rest, c);
      ScaleStep(SumOver(v, keys), SumOver(w, keys), v[t], w[t], SumOver(v, rest), SumOver(w, rest), c);
    }
  }

  /** One step of `SumOverScale`: a first term and a rest, both scaled, scale their sum. */
  lemma ScaleStep(sum: real, scaledSum: real, first: real, scaledFirst: real, rest: real, scaledRest: real, c: real)
    requires sum == first + rest && scaledSum == scaledFirst + scaledRest
    requires scaledFirst == first * c && scaledRest == rest * c
    ensures scaledSum == sum * c
  {
  }

  /** The squared weights of a vector. */
  ghost function Squares(v: Vector): (sq: Vector)
    ensures sq.Keys == v.Keys
  {
    map t | t in v :: v[t] * v[t]
  }

  /** A sum of squares is never negative. */
  lemma {:induction false} SumOfSquaresNonNegative(v: Vector, keys: set<Term>)
    requires keys <= v.Keys
    ensures SumOver(Squares(v), keys) >= 0.0
    decreases keys
  {
    if keys != {} {
      SumOfSquaresNonNegative(v, keys - {Pick(keys)});
    }
  }

  /** `_calculate_document_length`: the square root of the sum of squared weights. */
  ghost function Length(m: Math, v: Vector): real
  {
    m.sqrt(SumOver(Squares(v), v.Keys))
  }

  /** The products of the weights of the terms two vectors share. */
  ghost function Products(q: Vector, d: Vector): (p: Vector)
    ensures p.Keys == q.Keys * d.Keys
  {
    map t | t in q.Keys * d.Keys :: q[t] * d[t]
  }

  /** `_calculate_cosine_similarity`: the dot product over the shared terms. */
  ghost function Dot(q: Vector, d: Vector): real
  {
    SumOver(Products(q, d), q.Keys * d.Keys)
  }

  /** A document sharing no term with the query scores exactly 0. */
  lemma DotDisjoint(q: Vector, d: Vector)
    requires q.Keys !! d.Keys
    ensures Dot(q, d) == 0.0
  {
    assert q.Keys * d.Keys == {};
  }

  /**
   * Only the shared terms count: two documents that agree on the query's
   * terms (which of them they have, and their weights) score the same.
   */
  lemma DotSharedTermsOnly(q: Vector, d: Vector, e: Vector)
    requires forall t :: t in q ==> (t in d <==> t in e)
    requires forall t :: t in q && t in d ==> d[t] == e[t]
    ensures Dot(q, d) == Dot(q, e)
  {
    assert q.Keys * d.Keys == q.Keys * e.Keys;
    SumOverAgree(Products(q, d), Products(q, e), q.Keys * d.Keys);
  }

  /** The vector divided by its length, or unchanged when the length is not positive. */
  ghost function Normalised(m: Math, v: Vector): (u: Vector)
    ensures u.Keys == v.Keys
  {
    var length := Length(m, v);
    if length > 0.0 then map t | t in v :: v[t] / length else v
  }

  /** Squaring a quotient: `x * x` is `y * y` times the square `d` of the divisor. */
  lemma SquareOfQuotient(x: real, y: real, length: real, d: real)
    requires length > 0.0 && y == x / length && d == length * length
    ensures x * x == (y * y) * d
  {
    assert y * length == x;
  }

  /** Dividing every weight by `length` divides every square by `d`, the square of `length`. */
  lemma ScaledSquares(v: Vector, u: Vector, length: real, d: real)
    requires length > 0.0 && u == map t | t in v :: v[t] / length
    requires d == length * length
    ensures Squares(u).Keys == Squares(v).Keys
    ensures forall t :: t in v ==> Squares(v)[t] == Squares(u)[t] * d
  {
    forall t | t in v ensures Squares(v)[t] == Squares(u)[t] * d {
      var x, y := v[t], u[t];
      assert y == x / length;
      SquareOfQuotient(x, y, length, d);
      assert Squares(u)[t] == y * y && Squares(v)[t] == x * x;
    }
  }

  /** A non-zero `d` equal to `s * d` makes `s` one. */
  lemma UnitFactor(s: real, d: real)
    requires d != 0.0 && d == s * d
    ensures s == 1.0
  {
    assert s == (s * d) / d;
  }

  /** Dividing by the square root of a non-zero sum of squares leaves squares summing to 1. */
  lemma DividedByLength(v: Vector, u: Vector, length: real, total: real)
    requires length > 0.0 && total == length * length && total != 0.0
    requires total == SumOver(Squares(v), v.Keys)
    requires u == map t | t in v :: v[t] / length
    ensures SumOver(Squares(u), v.Keys) == 1.0
  {
    ScaledSquares(v, u, length, total);
    SumOverScale(Squares(u), Squares(v), v.Keys, total);
    UnitFactor(SumOver(Squares(u), v.Keys), total);
  }

  /**
   * Where `sqrt` really is a square root, a normalised vector of positive
   * length has squared weights summing to 1: it is a unit vector.
   */
  lemma NormalisedIsUnit(m: Math, v: Vector)
    requires m.sqrt(0.0) == 0.0 && forall x :: x >= 0.0 ==> m.sqrt(x) * m.sqrt(x) == x
    requires Length(m, v) > 0.0
    ensures SumOver(Squares(Normalised(m, v)), v.Keys) == 1.0
  {
    var total := SumOver(Squares(v), v.Keys);
    SumOfSquaresNonNegative(v, v.Keys);
    var length := m.sqrt(total);
    assert length * length == total;
    assert Length(m, v) == length;
    DividedByLength(v, Normalised(m, v), length, total);
  }

  // ---------------------------------------------------------------------------
  // The index as a function of the documents

  /**
   * `index` is the inverted index of the first `n` documents: document `i`
   * is in the row of `t` exactly when `t` occurs in it, with the tf weight of
   * `t` there (not the raw count); rows are never empty, so the terms of the
   * index are exactly the terms occurring in the documents.
   */
  ghost predicate IndexOf(m: Math, index: Index, docs: seq<Doc>, n: nat)
    requires n <= |docs|
  {
    IndexShape(index, docs, n) && IndexWeights(m, index, docs, n)
  }

  /** Which documents are in which rows: exactly those holding the term, and no row is empty. */
  ghost predicate IndexShape(index: Index, docs: seq<Doc>, n: nat)
    requires n <= |docs|
  {
    IndexCovers(index, docs, n) && IndexMembers(index, docs, n) && RowsNonEmpty(index)
  }

  /** Every term of the first `n` documents has an entry for each of them holding it. */
  ghost predicate IndexCovers(index: Index, docs: seq<Doc>, n: nat)
    requires n <= |docs|
  {
    forall t, i: nat {:trigger t in docs[i].tokens} ::
      i < n && t in docs[i].tokens ==> t in index && i in index[t]
  }

  /** Every entry is a document among the first `n` holding the term. */
  ghost predicate IndexMembers(index: Index, docs: seq<Doc>, n: nat)
    requires n <= |docs|
  {
    forall t, i: nat {:trigger i in index[t]} ::
      t in index && i in index[t] ==> i < n && t in docs[i].tokens
  }

  /** Every entry holds the tf weight of the term in its document. */
  ghost predicate IndexWeights(m: Math, index: Index, docs: seq<Doc>, n: nat)
    requires n <= |docs|
  {
    forall t, i: nat {:trigger i in index[t]} ::
      t in index && i in index[t] && i < n ==> index[t][i] == Tf(m, Count(docs[i].tokens, t))
  }

  /** No row is empty. */
  ghost predicate RowsNonEmpty(index: Index)
  {
    forall t :: t in index ==> |index[t]| > 0
  }

  /** The row of `t` with document `docId` entered at weight `w` (a new row for a new term). */
  function AddedRow(index: Index, t: Term, docId: nat, w: real): map<nat, real>
  {
    (if t in index then index[t] else map[])[docId := w]
  }

  /**
   * Indexing document `n`: each of its terms gets the row entry `n` with
   * its tf weight (a new row for a new term); other rows are unchanged.
   */
  lemma IndexStep(m: Math, before: Index, after: Index, docs: seq<Doc>, n: nat)
    requires n < |docs| && IndexOf(m, before, docs, n)
    requires forall t :: t in after <==> t in before || t in docs[n].tokens
    requires forall t :: t in after ==>
      after[t] == if t in docs[n].tokens then AddedRow(before, t, n, Tf(m, Count(docs[n].tokens, t))) else before[t]
    ensures IndexOf(m, after, docs, n + 1)
  {
    StepCoversDocuments(m, before, after, docs, n);
    StepKeepsMembers(m, before, after, docs, n);
    StepKeepsWeights(m, before, after, docs, n);
    StepKeepsRowsNonEmpty(m, before, after, docs, n);
  }

  /**
   * Adding a document's counted terms, as the indexing loop does, is the
   * index step stated on the document's own tokens, and the weights it
   * collects are the document's tf vector.
   */
  lemma CountedTermsAdded(m: Math, before: Index, after: Index, tokens: seq<Term>, n: nat,
                          termFreqs: map<Term, nat>, docVector: Vector)
    requires forall t :: t in termFreqs <==> t in tokens
    requires forall t :: t in termFreqs ==> termFreqs[t] == Count(tokens, t)
    requires forall t :: t in docVector <==> t in termFreqs
    requires forall t :: t in docVector ==> docVector[t] == Tf(m, termFreqs[t])
    requires forall t :: t in after <==> t in before || t in termFreqs
    requires forall t :: t in after ==>
      after[t] == if t in termFreqs then AddedRow(before, t, n, Tf(m, termFreqs[t])) else before[t]
    ensures forall t :: t in after <==> t in before || t in tokens
    ensures forall t :: t in after ==>
      after[t] == if t in tokens then AddedRow(before, t, n, Tf(m, Count(tokens, t))) else before[t]
    ensures docVector == TfVector(m, tokens)
  {
    assert docVector.Keys == TfVector(m, tokens).Keys;
  }

  /** After the step, every term of the first `n + 1` documents has an entry for each document holding it. */
  lemma StepCoversDocuments(m: Math, before: Index, after: Index, docs: seq<Doc>, n: nat)
    requires n < |docs|
    requires forall t :: t in after <==> t in before || t in docs[n].tokens
    requires forall t :: t in after ==>
      after[t] == if t in docs[n].tokens then AddedRow(before, t, n, Tf(m, Count(docs[n].tokens, t))) else before[t]
    requires IndexCovers(before, docs, n)
    ensures IndexCovers(after, docs, n + 1)
  {
    forall t, i: nat | i < n + 1 && t in docs[i].tokens ensures t in after && i in after[t] {
      if i < n {
        assert t in before && i in before[t];
      }
    }
  }

  /** After the step, every entry is a document among the first `n + 1` holding the term. */
  lemma StepKeepsMembers(m: Math, before: Index, after: Index, docs: seq<Doc>, n: nat)
    requires n < |docs|
    requires forall t :: t in after <==> t in before || t in docs[n].tokens
    requires forall t :: t in after ==>
      after[t] == if t in docs[n].tokens then AddedRow(before, t, n, Tf(m, Count(docs[n].tokens, t))) else before[t]
    requires IndexMembers(before, docs, n)
    ensures IndexMembers(after, docs, n + 1)
  {
    forall t, i: nat | t in after && i in after[t] ensures i < n + 1 && t in docs[i].tokens {
      if t in docs[n].tokens && i != n {
        assert t in before && i in before[t];
      } else if t !in docs[n].tokens {
        assert after[t] == before[t];
      }
    }
  }

  /** After the step, every entry of the first `n + 1` documents holds the tf weight. */
  lemma StepKeepsWeights(m: Math, before: Index, after: Index, docs: seq<Doc>, n: nat)
    requires n < |docs|
    requires forall t :: t in after <==> t in before || t in docs[n].tokens
    requires forall t :: t in after ==>
      after[t] == if t in docs[n].tokens then AddedRow(before, t, n, Tf(m, Count(docs[n].tokens, t))) else before[t]
    requires IndexMembers(before, docs, n) && IndexWeights(m, before, docs, n)
    ensures IndexWeights(m, after, docs, n + 1)
  {
    forall t, i: nat | t in after && i in after[t] && i < n + 1
      ensures after[t][i] == Tf(m, Count(docs[i].tokens, t))
    {
      if t in docs[n].tokens && i != n {
        assert t in before && i in before[t];
      } else if t !in docs[n].tokens {
        assert after[t] == before[t];
      }
    }
  }

  /** After the step, no row is empty. */
  lemma StepKeepsRowsNonEmpty(m: Math, before: Index, after: Index, docs: seq<Doc>, n: nat)
    requires n < |docs|
    requires forall t :: t in after <==> t in before || t in docs[n].tokens
    requires forall t :: t in after ==>
      after[t] == if t in docs[n].tokens then AddedRow(before, t, n, Tf(m, Count(docs[n].tokens, t))) else before[t]
    requires RowsNonEmpty(before)
    ensures RowsNonEmpty(after)
  {
    forall t | t in after ensures |after[t]| > 0 {
      if t in docs[n].tokens {
        assert n in after[t];
      } else {
        assert after[t] == before[t];
      }
    }
  }

  /** A term is indexed exactly when it occurs in some document. */
  lemma IndexedTerms(index: Index, docs: seq<Doc>, t: Term)
    requires IndexShape(index, docs, |docs|)
    ensures t in index <==> exists j :: 0 <= j < |docs| && t in docs[j].tokens
  {
    if t in index {
      var j :| j in index[t];
      assert 0 <= j < |docs| && t in docs[j].tokens;
    }
  }

  /** The row of an indexed term holds exactly the documents containing it: its size is the document frequency. */
  lemma RowSizeIsDocFreq(index: Index, docs: seq<Doc>, t: Term)
    requires IndexShape(index, docs, |docs|) && t in index
    ensures index[t].Keys == DocsWith(docs, |docs|, t)
    ensures |index[t]| == DocFreq(docs, |docs|, t)
  {
    var row := index[t].Keys;
    forall j: nat | j in row ensures j < |docs| && t in docs[j].tokens {
    }
    forall j: nat | j < |docs| && t in docs[j].tokens ensures j in row {
    }
    assert row == DocsWith(docs, |docs|, t);
  }

  /** The tf weights of one document's distinct terms. */
  ghost function TfVector(m: Math, tokens: seq<Term>): Vector
  {
    map t | t in tokens :: Tf(m, Count(tokens, t))
  }

  /** Every term occurring in some document. */
  ghost function Terms(docs: seq<Doc>): set<Term>
  {
    set i, t | 0 <= i < |docs| && t in docs[i].tokens :: t
  }

  /** The document frequency of every term that occurs. */
  ghost function DocFreqs(docs: seq<Doc>): (df: map<Term, nat>)
    ensures df.Keys == Terms(docs)
  {
    map t | t in Terms(docs) :: DocFreq(docs, |docs|, t)
  }

  /** The size of every row of an index. */
  ghost function RowSizes(index: Index): (sizes: map<Term, nat>)
    ensures sizes.Keys == index.Keys
  {
    map t | t in index :: |index[t]|
  }

  /** A vector's weights multiplied by the idf of each term, given the document frequencies. */
  ghost function Reweighed(m: Math, totalDocs: nat, v: Vector, docFreqs: map<Term, nat>): (w: Vector)
    requires v.Keys <= docFreqs.Keys
    ensures w.Keys == v.Keys
  {
    map t | t in v :: v[t] * Idf(m, totalDocs, docFreqs[t])
  }

  /** Document `i`'s tf weights multiplied by the idf of each term. */
  ghost function Weighted(m: Math, docs: seq<Doc>, i: nat): Vector
    requires i < |docs|
  {
    assert forall t :: t in docs[i].tokens ==> t in Terms(docs);
    Reweighed(m, |docs|, TfVector(m, docs[i].tokens), DocFreqs(docs))
  }

  /** A vector's weights multiplied by the idf of the size of each term's index row. */
  ghost function WeightedBy(m: Math, index: Index, totalDocs: nat, v: Vector): (w: Vector)
    requires v.Keys <= index.Keys
    ensures w.Keys == v.Keys
  {
    Reweighed(m, totalDocs, v, RowSizes(index))
  }

  /** Read off the index, the row sizes are exactly the document frequencies of the terms. */
  lemma RowSizesAreDocFreqs(index: Index, docs: seq<Doc>)
    requires IndexShape(index, docs, |docs|)
    ensures RowSizes(index) == DocFreqs(docs)
  {
    IndexKeysAreTerms(index, docs);
    RowSizesPointwise(index, docs);
  }

  /** Every row's size is its term's document frequency. */
  lemma RowSizesPointwise(index: Index, docs: seq<Doc>)
    requires IndexShape(index, docs, |docs|)
    ensures forall t :: t in index ==> |index[t]| == DocFreq(docs, |docs|, t)
  {
    forall t | t in index ensures |index[t]| == DocFreq(docs, |docs|, t) {
      RowSizeIsDocFreq(index, docs, t);
    }
  }

  /** The indexed terms are exactly the terms of the documents. */
  lemma IndexKeysAreTerms(index: Index, docs: seq<Doc>)
    requires IndexShape(index, docs, |docs|)
    ensures index.Keys == Terms(docs)
  {
    forall t | t in index ensures t in Terms(docs) {
      var j :| j in index[t];
      assert 0 <= j < |docs| && t in docs[j].tokens;
    }
    forall t | t in Terms(docs) ensures t in index {
      var j :| 0 <= j < |docs| && t in docs[j].tokens;
    }
  }

  /**
   * Reading document frequencies off the index: weighing document `i`'s tf
   * vector by the sizes of the rows gives its tf-idf vector.
   */
  lemma WeightedByIndex(m: Math, index: Index, docs: seq<Doc>, i: nat)
    requires i < |docs| && IndexShape(index, docs, |docs|)
    ensures TfVector(m, docs[i].tokens).Keys <= index.Keys
    ensures WeightedBy(m, index, |docs|, TfVector(m, docs[i].tokens)) == Weighted(m, docs, i)
  {
    RowSizesAreDocFreqs(index, docs);
    IndexKeysAreTerms(index, docs);
    var v := TfVector(m, docs[i].tokens);
    assert v.Keys <= Terms(docs) by {
      forall t | t in v ensures t in Terms(docs) {
        assert t in docs[i].tokens;
      }
    }
    assert v.Keys <= index.Keys;
  }

  /** Document `i`'s vector in `tfs` is its tf vector, for every document and no other id. */
  ghost predicate TfVectorsOf(m: Math, tfs: map<nat, Vector>, docs: seq<Doc>)
  {
    && (forall i: nat :: i in tfs <==> i < |docs|)
    && (forall i: nat :: i < |docs| ==> tfs[i] == TfVector(m, docs[i].tokens))
  }

  /** Adding the tf vector of the next document. */
  lemma TfVectorsSnoc(m: Math, tfs: map<nat, Vector>, docs: seq<Doc>, k: nat, v: Vector)
    requires k < |docs| && TfVectorsOf(m, tfs, docs[..k]) && v == TfVector(m, docs[k].tokens)
    ensures TfVectorsOf(m, tfs[k := v], docs[..k + 1])
  {
    var next := tfs[k := v];
    forall i: nat | i < k + 1 ensures next[i] == TfVector(m, docs[..k + 1][i].tokens) {
      if i < k {
        assert docs[..k + 1][i] == docs[..k][i];
      }
    }
  }

  /** Every term of a tf vector has a row in the index. */
  lemma TfVectorsIndexed(m: Math, index: Index, docs: seq<Doc>, tfs: map<nat, Vector>)
    requires IndexOf(m, index, docs, |docs|) && TfVectorsOf(m, tfs, docs)
    ensures forall i :: i in tfs ==> tfs[i].Keys <= index.Keys
  {
    forall i | i in tfs ensures tfs[i].Keys <= index.Keys {
      WeightedByIndex(m, index, docs, i);
    }
  }

  /** Every tf vector of `tfs` weighed by the index rows and normalised. */
  ghost function WeighedVectors(m: Math, index: Index, n: nat, tfs: map<nat, Vector>): (vectors: map<nat, Vector>)
    requires forall i :: i in tfs ==> tfs[i].Keys <= index.Keys
    ensures vectors.Keys == tfs.Keys
  {
    map i | i in tfs :: Normalised(m, WeightedBy(m, index, n, tfs[i]))
  }

  /** The vectors with ids below `k` are finished (as in `target`); the others are still as in `tfs`. */
  ghost predicate FinishedBelow(tfs: map<nat, Vector>, vectors: map<nat, Vector>, target: map<nat, Vector>, k: nat)
  {
    && vectors.Keys == tfs.Keys && target.Keys == tfs.Keys
    && (forall i :: i in tfs && i < k ==> vectors[i] == target[i])
    && (forall i :: i in tfs && k <= i ==> vectors[i] == tfs[i])
  }

  /** Finishing vector `k` extends the finished prefix by one; with every id below `k`, all are finished. */
  lemma FinishStep(tfs: map<nat, Vector>, vectors: map<nat, Vector>, target: map<nat, Vector>, k: nat, u: Vector)
    requires FinishedBelow(tfs, vectors, target, k) && k in tfs && u == target[k]
    ensures FinishedBelow(tfs, vectors[k := u], target, k + 1)
  {
  }

  /** Once every id is below `k`, the vectors are the target. */
  lemma FinishedAll(tfs: map<nat, Vector>, vectors: map<nat, Vector>, target: map<nat, Vector>, k: nat)
    requires FinishedBelow(tfs, vectors, target, k) && forall i :: i in tfs ==> i < k
    ensures vectors == target
  {
  }

  /** The document vectors after `set_docs`: ids 0..N-1, each the normalised tf-idf vector. */
  ghost predicate DocVectorsOf(m: Math, vectors: map<nat, Vector>, docs: seq<Doc>)
  {
    && (forall i: nat :: i in vectors <==> i < |docs|)
    && (forall i: nat :: i < |docs| ==> vectors[i] == Normalised(m, Weighted(m, docs, i)))
  }

  /**
   * Normalising each tf vector weighed by the index rows yields the
   * document vectors of the documents the index was built from.
   */
  lemma DocVectorsFromIndex(m: Math, index: Index, docs: seq<Doc>, n: nat, tfs: map<nat, Vector>, vectors: map<nat, Vector>)
    requires n == |docs| && IndexOf(m, index, docs, |docs|) && TfVectorsOf(m, tfs, docs)
    requires forall i :: i in tfs ==> tfs[i].Keys <= index.Keys
    requires vectors == WeighedVectors(m, index, n, tfs)
    ensures DocVectorsOf(m, vectors, docs)
  {
    forall i: nat | i < |docs| ensures vectors[i] == Normalised(m, Weighted(m, docs, i)) {
      assert vectors[i] == Normalised(m, WeightedBy(m, index, |docs|, tfs[i]));
      WeightedByIndex(m, index, docs, i);
    }
  }

  /** The weight of one term of a vector weighed by the index rows. */
  lemma WeightedByAt(m: Math, index: Index, totalDocs: nat, v: Vector, t: Term, idf: real)
    requires v.Keys <= index.Keys && t in v && idf == Idf(m, totalDocs, |index[t]|)
    ensures WeightedBy(m, index, totalDocs, v)[t] == v[t] * idf
  {
  }

  /** `w` holds `target`'s weights except on the `pending` terms, which still hold `v`'s. */
  ghost predicate PartlyWeighed(w: Vector, v: Vector, target: Vector, pending: set<Term>)
  {
    && pending <= v.Keys && w.Keys == v.Keys && target.Keys == v.Keys
    && forall t :: t in w ==> w[t] == if t in pending then v[t] else target[t]
  }

  /** Weighing one pending term; once nothing is pending, `w` is `target`. */
  lemma WeighStep(w: Vector, v: Vector, target: Vector, pending: set<Term>, term: Term, factor: real)
    requires PartlyWeighed(w, v, target, pending) && term in pending
    requires target[term] == v[term] * factor
    ensures PartlyWeighed(w[term := w[term] * factor], v, target, pending - {term})
    ensures pending == {term} ==> w[term := w[term] * factor] == target
  {
  }

  /** `idf_values` caches, for every indexed term, the idf of its row size. */
  ghost predicate IdfCache(m: Math, idf: Vector, index: Index, totalDocs: nat)
  {
    && idf.Keys == index.Keys
    && forall t :: t in idf ==> idf[t] == Idf(m, totalDocs, |index[t]|)
  }

  /** The query weights: tf of the query count times the cached idf, for indexed terms only. */
  ghost function QueryVector(m: Math, index: Index, idf: Vector, query: seq<Term>): Vector
  {
    map t | t in query && t in index :: Tf(m, Count(query, t)) * (if t in idf then idf[t] else 0.0)
  }

  // ---------------------------------------------------------------------------
  // Ranking as a function

  /** `a` ranks before `b`: a higher score, or the same score and a lower id. */
  predicate RanksBefore(a: Scored, b: Scored)
  {
    a.score > b.score || (a.score == b.score && a.docId < b.docId)
  }

  /** Scores never increase along `s`, and equal scores keep ascending ids. */
  predicate Ordered(s: seq<Scored>)
  {
    forall i, j :: 0 <= i < j < |s| ==> RanksBefore(s[i], s[j])
  }

  /** Python's stable sort step: `x` goes before the first entry that does not beat it. */
  function Insert(x: Scored, s: seq<Scored>): (r: seq<Scored>)
    ensures multiset(r) == multiset(s) + multiset{x}
    ensures |r| == |s| + 1
  {
    if s == [] then [x]
    else if s[0].score > x.score then
      assert s == [s[0]] + s[1..];
      [s[0]] + Insert(x, s[1..])
    else [x] + s
  }

  /** `sorted(items, key=lambda x: x[1], reverse=True)`: stable, by descending score. */
  function SortByScore(s: seq<Scored>): (r: seq<Scored>)
    ensures multiset(r) == multiset(s)
    ensures |r| == |s|
  {
    if s == [] then []
    else
      assert s == [s[0]] + s[1..];
      Insert(s[0], SortByScore(s[1..]))
  }

  /** Putting in front an entry that ranks before all others keeps the order. */
  lemma OrderedCons(a: Scored, s: seq<Scored>)
    requires Ordered(s)
    requires forall y :: y in s ==> RanksBefore(a, y)
    ensures Ordered([a] + s)
  {
    var r := [a] + s;
    forall i, j | 0 <= i < j < |r| ensures RanksBefore(r[i], r[j]) {
      if i == 0 {
        assert r[j] == s[j - 1];
      } else {
        assert r[i] == s[i - 1] && r[j] == s[j - 1];
      }
    }
  }

  /** Inserting an entry whose id is below all others keeps the order. */
  lemma {:induction false} InsertOrdered(x: Scored, s: seq<Scored>)
    requires Ordered(s)
    requires forall y :: y in s ==> x.docId < y.docId
    ensures Ordered(Insert(x, s))
  {
    if s != [] && s[0].score > x.score {
      var tail := Insert(x, s[1..]);
      assert Ordered(s[1..]) by {
        forall i, j | 0 <= i < j < |s[1..]| ensures RanksBefore(s[1..][i], s[1..][j]) {
          assert s[1..][i] == s[i + 1] && s[1..][j] == s[j + 1];
        }
      }
      assert forall y :: y in s[1..] ==> y in s;
      InsertOrdered(x, s[1..]);
      forall y | y in tail ensures RanksBefore(s[0], y) {
        assert y in multiset(tail);
        if y != x {
          assert y in multiset(s[1..]);
          var j :| 0 <= j < |s[1..]| && s[1..][j] == y;
          assert s[j + 1] == y;
        }
      }
      OrderedCons(s[0], tail);
    } else if s != [] {
      forall y | y in s ensures RanksBefore(x, y) {
        var k :| 0 <= k < |s| && s[k] == y;
        if k > 0 {
          assert RanksBefore(s[0], s[k]);
        }
      }
      OrderedCons(x, s);
    }
  }

  /** Ids strictly increase along `s`, as they do in `scores.items()`. */
  predicate IdsIncreasing(s: seq<Scored>)
  {
    forall i, j :: 0 <= i < j < |s| ==> s[i].docId < s[j].docId
  }

  /**
   * The stable sort of entries listed by ascending id is ordered by
   * descending score, ties by ascending id.
   */
  lemma {:induction false} SortOrdered(s: seq<Scored>)
    requires IdsIncreasing(s)
    ensures Ordered(SortByScore(s))
  {
    if s != [] {
      var sorted := SortByScore(s[1..]);
      SortOrdered(s[1..]);
      forall y | y in sorted ensures s[0].docId < y.docId {
        assert y in multiset(s[1..]);
        var j :| 0 <= j < |s[1..]| && s[1..][j] == y;
        assert s[j + 1] == y;
      }
      InsertOrdered(s[0], sorted);
    }
  }

  /** The number of times id `i` occurs in `s`. */
  function IdCount(s: seq<Scored>, i: nat): nat
  {
    if s == [] then 0 else (if s[0].docId == i then 1 else 0) + IdCount(s[1..], i)
  }

  /** Inserting counts the inserted entry's id once more. */
  lemma {:induction false} InsertIdCount(x: Scored, s: seq<Scored>, i: nat)
    ensures IdCount(Insert(x, s), i) == IdCount(s, i) + if x.docId == i then 1 else 0
  {
    if s != [] && s[0].score > x.score {
      InsertIdCount(x, s[1..], i);
      assert ([s[0]] + Insert(x, s[1..]))[1..] == Insert(x, s[1..]);
    } else if s != [] {
      assert ([x] + s)[1..] == s;
    }
  }

  /** Sorting keeps the number of occurrences of every id. */
  lemma {:induction false} SortIdCount(s: seq<Scored>, i: nat)
    ensures IdCount(SortByScore(s), i) == IdCount(s, i)
  {
    if s != [] {
      SortIdCount(s[1..], i);
      InsertIdCount(s[0], SortByScore(s[1..]), i);
    }
  }

  /** The ids along `s` are `base`, `base + 1`, ... */
  predicate IdsFrom(s: seq<Scored>, base: nat)
  {
    forall k :: 0 <= k < |s| ==> s[k].docId == base + k
  }

  /** In a run of consecutive ids every id of the run occurs once and no other id occurs. */
  lemma {:induction false} IdsFromCount(s: seq<Scored>, base: nat, i: nat)
    requires IdsFrom(s, base)
    ensures IdCount(s, i) == if base <= i < base + |s| then 1 else 0
  {
    if s != [] {
      IdsFromCount(s[1..], base + 1, i);
    }
  }

  /** Every document with score 0.0, in id order. */
  function Unscored(n: nat): (s: seq<Scored>)
    ensures |s| == n && IdsFrom(s, 0)
    ensures forall k :: 0 <= k < n ==> s[k].score == 0.0
  {
    seq(n, i requires 0 <= i < n => Scored(i, 0.0))
  }

  /** Every document's similarity to `q`, in id order. */
  ghost function Similarities(q: Vector, vectors: map<nat, Vector>, n: nat): (s: seq<Scored>)
    requires forall i: nat :: i < n ==> i in vectors
    ensures |s| == n && IdsFrom(s, 0)
  {
    seq(n, i requires 0 <= i < n => Scored(i, Dot(q, vectors[i])))
  }

  /** `(doc_name, score)` pairs for ranked `(doc_id, score)` pairs. */
  function Named(docs: seq<Doc>, ranked: seq<Scored>): (r: seq<(string, real)>)
    requires forall k :: 0 <= k < |ranked| ==> ranked[k].docId < |docs|
    ensures |r| == |ranked|
  {
    seq(|ranked|, k requires 0 <= k < |ranked| => (docs[ranked[k].docId].name, ranked[k].score))
  }

  /** The ranked `(doc_id, score)` pairs for the query vector `q` over documents `0..n-1`. */
  ghost function RankedIds(m: Math, q: Vector, vectors: map<nat, Vector>, n: nat): seq<Scored>
    requires forall i: nat :: i < n ==> i in vectors
  {
    if q == map[] then Unscored(n) else SortByScore(Similarities(Normalised(m, q), vectors, n))
  }

  /** Every document id below `n` is ranked exactly once, and nothing else is. */
  lemma RankedIdsPermutation(m: Math, q: Vector, vectors: map<nat, Vector>, n: nat)
    requires forall i: nat :: i < n ==> i in vectors
    ensures |RankedIds(m, q, vectors, n)| == n
    ensures forall k :: 0 <= k < n ==> RankedIds(m, q, vectors, n)[k].docId < n
    ensures forall i: nat :: IdCount(RankedIds(m, q, vectors, n), i) == if i < n then 1 else 0
  {
    var listed := if q == map[] then Unscored(n) else Similarities(Normalised(m, q), vectors, n);
    var ranked := RankedIds(m, q, vectors, n);
    assert multiset(ranked) == multiset(listed);
    forall i: nat ensures IdCount(ranked, i) == if i < n then 1 else 0 {
      if q != map[] {
        SortIdCount(listed, i);
      }
      IdsFromCount(listed, 0, i);
    }
    forall k | 0 <= k < n ensures ranked[k].docId < n {
      assert ranked[k] in multiset(listed);
    }
  }

  /** The ranking is by non-increasing score, with equal scores in ascending id order. */
  lemma RankedIdsOrdered(m: Math, q: Vector, vectors: map<nat, Vector>, n: nat)
    requires forall i: nat :: i < n ==> i in vectors
    ensures Ordered(RankedIds(m, q, vectors, n))
  {
    if q != map[] {
      SortOrdered(Similarities(Normalised(m, q), vectors, n));
    }
  }

  // ---------------------------------------------------------------------------
  // Loops over dictionaries that change no state

  /** The `for term in tokens` counting loop. */
  method CountTerms(tokens: seq<Term>) returns (freqs: map<Term, nat>)
    ensures forall t :: t in freqs <==> t in tokens
    ensures forall t :: t in freqs ==> freqs[t] == Count(tokens, t)
  {
    freqs := map[];
    var i := 0;
    while i < |tokens|
      invariant 0 <= i <= |tokens|
      invariant forall t :: t in freqs <==> t in tokens[..i]
      invariant forall t :: t in freqs ==> freqs[t] == Count(tokens[..i], t)
    {
      var term := tokens[i];
      assert tokens[..i + 1] == tokens[..i] + [term];
      forall t ensures Count(tokens[..i + 1], t) == Count(tokens[..i], t) + if term == t then 1 else 0 {
        CountSnoc(tokens[..i], term, t);
      }
      CountPositive(tokens[..i], term);
      freqs := freqs[term := (if term in freqs then freqs[term] else 0) + 1];
      i := i + 1;
    }
    assert tokens[..i] == tokens;
  }

  /** `_calculate_document_length`: the Euclidean length of `v`. */
  method DocumentLength(m: Math, v: Vector) returns (length: real)
    ensures length == Length(m, v)
  {
    var total := 0.0;
    var pending := v.Keys;
    while pending != {}
      invariant pending <= v.Keys
      invariant total + SumOver(Squares(v), pending) == SumOver(Squares(v), v.Keys)
      decreases pending
    {
      var t :| t in pending;
      SumOverRemove(Squares(v), pending, t);
      total := total + v[t] * v[t];
      pending := pending - {t};
    }
    length := m.sqrt(total);
  }

  /** Divide every weight by the length when it is positive (the normalisation in `_build_index` and in `rank_documents`). */
  method Normalize(m: Math, v: Vector) returns (u: Vector)
    ensures u == Normalised(m, v)
  {
    var length := DocumentLength(m, v);
    u := v;
    if length > 0.0 {
      var pending := v.Keys;
      while pending != {}
        invariant pending <= v.Keys && u.Keys == v.Keys
        invariant forall t :: t in u ==> u[t] == if t in pending then v[t] else v[t] / length
        decreases pending
      {
        var t :| t in pending;
        u := u[t := u[t] / length];
        pending := pending - {t};
      }
    }
  }

  /** `_calculate_cosine_similarity`: the dot product over the common terms. */
  method CosineSimilarity(q: Vector, d: Vector) returns (dot: real)
    ensures dot == Dot(q, d)
  {
    var common := q.Keys * d.Keys;
    dot := 0.0;
    var pending := common;
    while pending != {}
      invariant pending <= common
      invariant dot + SumOver(Products(q, d), pending) == Dot(q, d)
      decreases pending
    {
      var t :| t in pending;
      SumOverRemove(Products(q, d), pending, t);
      dot := dot + q[t] * d[t];
      pending := pending - {t};
    }
  }

  // ---------------------------------------------------------------------------
  // The index object

  class VectorSpace {
    const math: Math

    var invertedIndex: Index
    var docVectors: map<nat, Vector>
    var totalDocs: nat
    var docs: seq<Doc>
    var idfValues: Vector

    constructor (math: Math)
      ensures this.math == math && Empty() && Shaped()
    {
      this.math := math;
      invertedIndex := map[];
      docVectors := map[];
      totalDocs := 0;
      docs := [];
      idfValues := map[];
    }

    /** The state of a freshly constructed object. */
    ghost predicate Empty()
      reads this
    {
      invertedIndex == map[] && docVectors == map[] && totalDocs == 0 && docs == [] && idfValues == map[]
    }

    /** Document ids are the positions `0..N-1` of the documents, each with a vector. */
    ghost predicate Shaped()
      reads this
    {
      totalDocs == |docs| && forall i: nat :: i in docVectors <==> i < |docs|
    }

    /** The state `set_docs` leaves: every structure is the one its documents determine. */
    ghost predicate Indexed()
      reads this
    {
      && totalDocs == |docs|
      && IndexOf(math, invertedIndex, docs, |docs|)
      && DocVectorsOf(math, docVectors, docs)
      && IdfCache(math, idfValues, invertedIndex, totalDocs)
    }

    /** `set_docs`, on a freshly constructed object. */
    method SetDocs(docs: seq<Doc>)
      requires Empty()
      modifies this
      ensures this.docs == docs && totalDocs == |docs|
      ensures Indexed() && Shaped()
    {
      this.docs := docs;
      totalDocs := |docs|;
      BuildIndex();
      CalculateIdfs();
    }

    /** `_build_index`: the inverted index and the normalised tf-idf document vectors. */
    method BuildIndex()
      requires invertedIndex == map[] && docVectors == map[] && totalDocs == |docs|
      modifies this`invertedIndex, this`docVectors
      ensures IndexOf(math, invertedIndex, docs, |docs|)
      ensures DocVectorsOf(math, docVectors, docs)
    {
      IndexDocuments();
      ghost var tfs := docVectors;
      TfVectorsIndexed(math, invertedIndex, docs, tfs);
      WeightDocuments();
      DocVectorsFromIndex(math, invertedIndex, docs, totalDocs, tfs, docVectors);
    }

    /** The first loop of `_build_index`: index every document and keep its tf vector. */
    method IndexDocuments()
      requires invertedIndex == map[] && docVectors == map[]
      modifies this`invertedIndex, this`docVectors
      ensures IndexOf(math, invertedIndex, docs, |docs|)
      ensures TfVectorsOf(math, docVectors, docs)
    {
      var docId := 0;
      while docId < |docs|
        invariant 0 <= docId <= |docs|
        invariant IndexOf(math, invertedIndex, docs, docId)
        invariant TfVectorsOf(math, docVectors, docs[..docId])
      {
        var termFreqs := CountTerms(docs[docId].tokens);
        var docVector := IndexDocument(docId, termFreqs);
        TfVectorsSnoc(math, docVectors, docs, docId, docVector);
        docVectors := docVectors[docId := docVector];
        docId := docId + 1;
      }
      assert docs[..docId] == docs;
    }

    /** Document `docId`'s tf vector, with its id added to the row of each of its terms. */
    method IndexDocument(docId: nat, termFreqs: map<Term, nat>) returns (docVector: Vector)
      requires docId < |docs| && IndexOf(math, invertedIndex, docs, docId)
      requires forall t :: t in termFreqs <==> t in docs[docId].tokens
      requires forall t :: t in termFreqs ==> termFreqs[t] == Count(docs[docId].tokens, t)
      modifies this`invertedIndex
      ensures IndexOf(math, invertedIndex, docs, docId + 1)
      ensures docVector == TfVector(math, docs[docId].tokens)
    {
      ghost var before := invertedIndex;
      docVector := AddTerms(docId, termFreqs);
      CountedTermsAdded(math, before, invertedIndex, docs[docId].tokens, docId, termFreqs, docVector);
      IndexStep(math, before, invertedIndex, docs, docId);
    }

    /**
     * The `for term, freq in term_freqs.items()` loop: the tf weight of every
     * counted term, also entered under `docId` in the term's row (a new row
     * for a new term); rows of other terms are unchanged.
     */
    method AddTerms(docId: nat, termFreqs: map<Term, nat>) returns (docVector: Vector)
      modifies this`invertedIndex
      ensures forall t :: t in docVector <==> t in termFreqs
      ensures forall t :: t in docVector ==> docVector[t] == Tf(math, termFreqs[t])
      ensures forall t :: t in invertedIndex <==> t in old(invertedIndex) || t in termFreqs
      ensures forall t :: t in invertedIndex ==>
        invertedIndex[t] == if t in termFreqs then AddedRow(old(invertedIndex), t, docId, Tf(math, termFreqs[t]))
                            else old(invertedIndex)[t]
    {
      docVector := map[];
      var pending := termFreqs.Keys;
      while pending != {}
        invariant pending <= termFreqs.Keys
        invariant forall t :: t in docVector <==> t in termFreqs && t !in pending
        invariant forall t :: t in docVector ==> docVector[t] == Tf(math, termFreqs[t])
        invariant forall t :: t in invertedIndex <==> t in old(invertedIndex) || (t in termFreqs && t !in pending)
        invariant forall t :: t in invertedIndex ==>
          invertedIndex[t] == if t in termFreqs && t !in pending
                              then AddedRow(old(invertedIndex), t, docId, Tf(math, termFreqs[t]))
                              else old(invertedIndex)[t]
        decreases pending
      {
        var term :| term in pending;
        var tfWeight := Tf(math, termFreqs[term]);
        docVector := docVector[term := tfWeight];
        if term !in invertedIndex {
          invertedIndex := invertedIndex[term := map[]];
        }
        var row: map<nat, real> := invertedIndex[term];
        invertedIndex := invertedIndex[term := row[docId := tfWeight]];
        pending := pending - {term};
      }
    }

    /** The second loop of `_build_index`: weigh every tf vector by idf and normalise it. */
    method WeightDocuments()
      requires forall i :: i in docVectors ==> docVectors[i].Keys <= invertedIndex.Keys
      requires forall i: nat :: i in docVectors <==> i < |docs|
      modifies this`docVectors
      ensures docVectors == WeighedVectors(math, invertedIndex, totalDocs, old(docVectors))
    {
      ghost var tfs := docVectors;
      ghost var target := WeighedVectors(math, invertedIndex, totalDocs, tfs);
      var docId := 0;
      while docId < |docs|
        invariant 0 <= docId <= |docs|
        invariant FinishedBelow(tfs, docVectors, target, docId)
      {
        var weighted := ApplyIdf(docVectors[docId]);
        var normalised := Normalize(math, weighted);
        FinishStep(tfs, docVectors, target, docId, normalised);
        docVectors := docVectors[docId := normalised];
        docId := docId + 1;
      }
      FinishedAll(tfs, docVectors, target, docId);
    }

    /** The `doc_vector[term] *= idf` loop, with idf from the size of the term's row. */
    method ApplyIdf(v: Vector) returns (w: Vector)
      requires v.Keys <= invertedIndex.Keys
      ensures w == WeightedBy(math, invertedIndex, totalDocs, v)
    {
      ghost var target := WeightedBy(math, invertedIndex, totalDocs, v);
      w := v;
      var pending := v.Keys;
      while pending != {}
        invariant PartlyWeighed(w, v, target, pending)
        decreases pending
      {
        var term :| term in pending;
        var docFreq := |invertedIndex[term]|;
        var idf := Idf(math, totalDocs, docFreq);
        WeightedByAt(math, invertedIndex, totalDocs, v, term, idf);
        WeighStep(w, v, target, pending, term, idf);
        w := w[term := w[term] * idf];
        pending := pending - {term};
      }
      assert w == target;
    }

    /** `_calculate_idfs`: the idf of every indexed term, cached. */
    method CalculateIdfs()
      requires idfValues == map[]
      modifies this`idfValues
      ensures IdfCache(math, idfValues, invertedIndex, totalDocs)
    {
      var pending := invertedIndex.Keys;
      while pending != {}
        invariant pending <= invertedIndex.Keys
        invariant idfValues.Keys == invertedIndex.Keys - pending
        invariant forall t :: t in idfValues ==> idfValues[t] == Idf(math, totalDocs, |invertedIndex[t]|)
        decreases pending
      {
        var term :| term in pending;
        var docFreq := |invertedIndex[term]|;
        idfValues := idfValues[term := Idf(math, totalDocs, docFreq)];
        pending := pending - {term};
      }
    }

    /** The ranked `(doc_id, score)` pairs `rank_documents` sorts for `query`. */
    ghost function Ranked(query: seq<Term>): seq<Scored>
      reads this
      requires Shaped()
    {
      RankedIds(math, QueryVector(math, invertedIndex, idfValues, query), docVectors, |docs|)
    }

    /** The `(doc_name, score)` list `rank_documents` returns for `query`. */
    ghost function Ranking(query: seq<Term>): seq<(string, real)>
      reads this
      requires Shaped()
    {
      RankedIdsPermutation(math, QueryVector(math, invertedIndex, idfValues, query), docVectors, |docs|);
      Named(docs, Ranked(query))
    }

    /**
     * The ranking lists every document exactly once, by non-increasing
     * score, with equal scores in ascending document order.
     */
    lemma RankingOrdered(query: seq<Term>)
      requires Shaped()
      ensures |Ranking(query)| == |Ranked(query)| == |docs|
      ensures Ordered(Ranked(query))
      ensures forall i: nat :: IdCount(Ranked(query), i) == if i < |docs| then 1 else 0
    {
      var q := QueryVector(math, invertedIndex, idfValues, query);
      RankedIdsPermutation(math, q, docVectors, |docs|);
      RankedIdsOrdered(math, q, docVectors, |docs|);
    }

    /**
     * When no query term is in the index, every document scores 0.0 and the
     * documents keep their original order.
     */
    lemma EmptyQueryRanking(query: seq<Term>)
      requires Shaped()
      requires forall t :: t in query ==> t !in invertedIndex
      ensures |Ranking(query)| == |docs|
      ensures forall i :: 0 <= i < |docs| ==> Ranking(query)[i] == (docs[i].name, 0.0)
    {
      assert QueryVector(math, invertedIndex, idfValues, query) == map[];
    }

    /** A query token that is not in the index changes nothing. */
    lemma AbsentTermIgnored(query: seq<Term>, t: Term)
      requires Shaped()
      requires t !in invertedIndex
      ensures Ranking(query + [t]) == Ranking(query)
    {
      var longer := QueryVector(math, invertedIndex, idfValues, query + [t]);
      var shorter := QueryVector(math, invertedIndex, idfValues, query);
      forall u | u in longer ensures u in shorter && longer[u] == shorter[u] {
        CountSnoc(query, t, u);
      }
      forall u | u in shorter ensures u in longer {
      }
      assert longer == shorter;
    }

    /**
     * After `set_docs`, the query vector has a weight for exactly the query
     * terms that occur in some document.
     */
    lemma QueryTermsIndexed(query: seq<Term>, t: Term)
      requires Indexed()
      ensures t in QueryVector(math, invertedIndex, idfValues, query) <==>
        t in query && exists j :: 0 <= j < |docs| && t in docs[j].tokens
    {
      IndexedTerms(invertedIndex, docs, t);
    }

    /** After `set_docs`, a document sharing no term with the query scores 0.0. */
    lemma UnrelatedDocumentScoresZero(query: seq<Term>, i: nat)
      requires Indexed() && i < |docs|
      requires forall t :: t in query ==> t !in docs[i].tokens
      ensures Dot(Normalised(math, QueryVector(math, invertedIndex, idfValues, query)), docVectors[i]) == 0.0
    {
      var q := Normalised(math, QueryVector(math, invertedIndex, idfValues, query));
      assert docVectors[i].Keys == Weighted(math, docs, i).Keys;
      DotDisjoint(q, docVectors[i]);
    }

    /** The start of `rank_documents`: the query's term counts, weighted with the cached idf values. */
    method WeighQuery(query: seq<Term>) returns (queryVector: Vector)
      ensures queryVector == QueryVector(math, invertedIndex, idfValues, query)
    {
      var queryFreqs := CountTerms(query);
      queryVector := map[];
      var pending := queryFreqs.Keys;
      while pending != {}
        invariant pending <= queryFreqs.Keys
        invariant forall t :: t in queryVector <==> t in query && t in invertedIndex && t !in pending
        invariant forall t :: t in queryVector ==>
          queryVector[t] == Tf(math, Count(query, t)) * (if t in idfValues then idfValues[t] else 0.0)
        decreases pending
      {
        var term :| term in pending;
        if term in invertedIndex {
          var tf := Tf(math, queryFreqs[term]);
          var idf := if term in idfValues then idfValues[term] else 0.0;
          queryVector := queryVector[term := tf * idf];
        }
        pending := pending - {term};
      }
    }

    /**
     * The scoring loop of `rank_documents`: the similarity of every document vector to the query,
     * and 0.0 for any id below `total_docs` without a vector.
     */
    method ScoreDocuments(queryVector: Vector) returns (scores: map<nat, real>)
      ensures forall i: nat :: i in scores <==> i in docVectors || i < totalDocs
      ensures forall i :: i in scores ==>
        scores[i] == if i in docVectors then Dot(queryVector, docVectors[i]) else 0.0
    {
      scores := map[];
      var pending := docVectors.Keys;
      while pending != {}
        invariant pending <= docVectors.Keys
        invariant scores.Keys == docVectors.Keys - pending
        invariant forall i :: i in scores ==> scores[i] == Dot(queryVector, docVectors[i])
        decreases pending
      {
        var docId :| docId in pending;
        var similarity := CosineSimilarity(queryVector, docVectors[docId]);
        scores := scores[docId := similarity];
        pending := pending - {docId};
      }
      var docId := 0;
      while docId < totalDocs
        invariant 0 <= docId <= totalDocs
        invariant forall i: nat :: i in scores <==> i in docVectors || i < docId
        invariant forall i :: i in scores ==>
          scores[i] == if i in docVectors then Dot(queryVector, docVectors[i]) else 0.0
      {
        if docId !in scores {
          scores := scores[docId := 0.0];
        }
        docId := docId + 1;
      }
    }

    /** `rank_documents`. */
    method RankDocuments(query: seq<Term>) returns (ranked: seq<(string, real)>)
      requires Shaped()
      ensures ranked == Ranking(query)
    {
      var queryVector := WeighQuery(query);
      var documents := docs;
      if queryVector == map[] {
        ranked := seq(|documents|, i requires 0 <= i < |documents| => (documents[i].name, 0.0));
        return;
      }
      queryVector := Normalize(math, queryVector);
      var scores := ScoreDocuments(queryVector);
      var n := totalDocs;
      var items := seq(n, i requires 0 <= i < n => Scored(i, scores[i]));
      assert items == Similarities(queryVector, docVectors, |docs|);
      var sorted := SortByScore(items);
      RankedIdsPermutation(math, QueryVector(math, invertedIndex, idfValues, query), docVectors, |docs|);
      ranked := Named(docs, sorted);
    }

    /** `search`: the ranking, printed (printing is not modelled). */
    method Search(query: seq<Term>) returns (results: seq<(string, real)>)
      requires Shaped()
      ensures results == Ranking(query)
    {
      results := RankDocuments(query);
      if results == [] {
        return [];
      }
    }
  }
}
