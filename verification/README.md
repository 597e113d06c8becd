# Meta-search core: crawler, domain graph, text preprocessing and TF-IDF ranker

A Dafny model of the algorithmic core of a small meta-search pipeline:

- `crawler.dfy` (module `Crawler`): the bounded recursive `WebCrawler`. It
  skips censored URLs, fetches each successfully fetched page once,
  records an entry with the
  page text, the page's links and the cross-domain sub-links it followed,
  and recurses only across domain boundaries up to a fixed depth.
- `graph.dfy` (module `DomainGraph`): the loop that turns a crawl's link
  map into a domain adjacency map `gr` with one node per crawled URL's
  domain and one edge per distinct pair of domains joined by a sub-link,
  with no self-loops and no empty child domain.
- `utils.dfy` (module `Utils`): `extract_documents_from_crawled_data`,
  which keeps the non-empty `"document"` values of the crawled data.
- `document_processor.dfy` (module `DocumentProcessor`): the string
  filters of `Preprocessor` and the order in which `preprocess` applies
  them.
- `vector_space.dfy` (module `VectorSpaceModel`): the `VectorSpace`
  index. It covers `set_docs`, the inverted index of tf weights, the cached
  idf values, the unit-length tf-idf document vectors, query weighting,
  dot-product scoring and the stable sort by descending score.
- `wrappers.dfy` and `sequences.dfy`: `Option` and the `Subsequence`
  predicate shared by the other modules.

The crawler and the index are classes whose methods update their fields
as the Python objects do. Each loop of crawler.py, graph.py, utils.py and
vector_space_model.py is a `while` loop with invariants. The index and
ranking loops are proved equal to specification functions. The list
comprehensions are recursive functions or sequence comprehensions. Four
things are parameters:

- the network, as `fetch`, `netloc`, link extraction and HTML
  normalisation;
- the character classes and lowercasing;
- the NLTK tools;
- `log10` and `sqrt`.

The model assumes nothing about them except in these `requires` clauses:

- `NormalisedIsUnit` requires that `sqrt` is a square root.
- `CaseFoldIdempotent` requires that lowercasing is idempotent.
- `SplitSkipsSpace`, `SplitJoin`, `RemoveStopwordsWords`,
  `RemoveStopwordsIdempotent` and `CleanedText` require that the space
  character counts as whitespace.

Behaviours of the code that the model keeps:

- A URL is added to `visited` only after a successful fetch
  (crawler.py:72-74). A URL whose fetch raised is therefore fetched again
  when it is reached again. `CrawlRecursive` states this: a failed fetch
  leaves the link map unchanged and only adds the URL to the fetch log.
- A page's sub-links are the cross-domain links it followed, in link
  order. Same-domain links are never added.
- The inverted index stores each document's tf weight `1 + log10(f)`, not
  the raw count f (vector_space_model.py:46-51).
- There is no robots.txt policy, timeout or worker pool: the crawler
  source has none.

## Model

| member | source | states |
|---|---|---|
| Crawler.CrossDomain | crawler.py:90-97 | the recorded sub-links never outnumber the page's links |
| Crawler.CrossDomainMembers | crawler.py:90-97 | a link is a recorded sub-link exactly when it is one of the page's links and its domain differs from the page's |
| Crawler.CrossDomainKeepsOrder | crawler.py:90-97 | the recorded sub-links keep the order they have among the page's links |
| Crawler.CrossDomainSnoc | crawler.py:90-97 | processing one more link appends it to the sub-links exactly when it crosses domains |
| Crawler.WebCrawler.constructor | crawler.py:24-28 | a new crawler has the given depth, nothing visited and an empty link map |
| Crawler.WebCrawler.ReachStep | crawler.py:89-95 | following a cross-domain link of a fetched page extends a crawl path by one level |
| Crawler.WebCrawler.IsCensored | crawler.py:44-53 | true exactly when some censor-list word, lowercased, occurs as a substring of the lowercased URL |
| Crawler.WebCrawler.Crawl | crawler.py:55-57 | returns the link map; existing entries are kept unchanged; every new entry is reachable from the start URL within the depth; with depth 0 only the start URL can be added; the start URL gets an entry exactly when it is allowed and fetched; when the depth is positive, every allowed and fetchable sub-link of a new start entry gets an entry too |
| Crawler.WebCrawler.CrawlRecursive | crawler.py:59-102 | too deep, visited or censored: nothing changes and nothing is fetched; failed fetch: nothing is recorded; the URL gets an entry exactly when it is in range, allowed and fetched; below the depth limit, every allowed and fetchable sub-link of its new entry gets an entry too; every new entry is complete (text, links, cross-domain sub-links) and within the remaining depth; `visited` always equals the link map's keys and no successfully fetched URL is fetched twice |
| Crawler.WebCrawler.FollowLinks | crawler.py:89-99 | after the loop the page's entry has all its cross-domain links as sub-links, in order; other entries are unchanged; below the depth limit, every cross-domain link that is allowed and fetchable has an entry |
| Crawler.WebCrawler.FollowLink | crawler.py:90-99 | a cross-domain link is crawled one level deeper and then appended to the sub-links, whatever the recursive call did; a same-domain link leaves the link map and the fetch log unchanged; no entry is removed; a cross-domain link has an entry afterwards exactly when it had one before or is below the depth limit, allowed and fetchable |
| DomainGraph.BuildGraph | graph.py:17-34 | the nodes are exactly the domains of the crawled URLs; `c` is a child of `d` exactly when some URL of domain `d` has a sub-link of non-empty domain `c` different from `d`; no self-loops and no empty child domain |
| DomainGraph.AddChildDomains | graph.py:29-34 | the parent's set gains exactly the non-empty, different domains of the sub-links |
| DomainGraph.EdgeStep | graph.py:20-34 | adding one crawled URL adds exactly its child domains to the edges out of its domain |
| DomainGraph.EdgesDependOnSubLinkSets | graph.py:29-34 | the edges depend only on which sub-links each URL has, not on their order, repetition or the other entry fields |
| Utils.ExtractDocumentsFromCrawledData | utils.py:4-15 | a URL is kept exactly when its details hold a truthy `"document"` different from `""`, with that document unchanged; details without the key are skipped |
| DocumentProcessor.CaseFold | document_processor.py:10-12 | the character at each position is the lowercasing function applied to the input's character there; the length is unchanged |
| DocumentProcessor.CaseFoldIdempotent | document_processor.py:10-12 | folding twice is folding once when lowercasing is idempotent |
| DocumentProcessor.ExpandContractions | document_processor.py:23-25 | every apostrophe becomes a space, every other character is kept, and no apostrophe remains |
| DocumentProcessor.RemovePunctuation | document_processor.py:19-21 | only alphanumeric or whitespace characters remain, each with exactly its number of occurrences in the input |
| DocumentProcessor.RemovePunctuationKeepsOrder | document_processor.py:19-21 | the result is a subsequence of the input |
| DocumentProcessor.RemovePunctuationFixes | document_processor.py:19-21 | a string made only of kept characters is unchanged |
| DocumentProcessor.RemovePunctuationIdempotent | document_processor.py:19-21 | removing punctuation twice is removing it once |
| DocumentProcessor.Split | document_processor.py:17 | the body defines `str.split()` as the maximal runs of non-whitespace characters; the contract states that every piece is non-empty, free of whitespace and made of characters of the input (with SplitJoin, the round trip) |
| DocumentProcessor.Join | document_processor.py:17 | the body defines `" ".join` with a single space between words; the contract states that every character is a separating space or a character of one of the words (with SplitJoin, the round trip) |
| DocumentProcessor.SplitJoin | document_processor.py:17 | splitting the single-space join of words gives the words back |
| DocumentProcessor.DropStopWords | document_processor.py:17 | the kept words are exactly the input words that are not stop words, each as often as in the input, and stop words not at all |
| DocumentProcessor.DropStopWordsKeepsOrder | document_processor.py:17 | the kept words are a subsequence of the input words |
| DocumentProcessor.RemoveStopwords | document_processor.py:14-17 | apart from separating spaces, the result holds only non-whitespace characters of the input |
| DocumentProcessor.RemoveStopwordsWords | document_processor.py:14-17 | the words of the result are the non-stop words of the input, in order, and none is a stop word |
| DocumentProcessor.DropStopWordsFixes | document_processor.py:17 | a word list without stop words is unchanged |
| DocumentProcessor.RemoveStopwordsIdempotent | document_processor.py:14-17 | removing stop words twice is removing them once |
| DocumentProcessor.MapWords | document_processor.py:27-35 | one output word per input word, each transformed by the given tool |
| DocumentProcessor.Preprocess | document_processor.py:41-58 | the tokens are the cleaned text's tokens, each stemmed and then lemmatized, in order |
| DocumentProcessor.Clean | document_processor.py:51-54 | the string handed to the tokenizer holds only alphanumeric characters and spaces |
| DocumentProcessor.CleanedText | document_processor.py:41-54 | none of the whitespace-separated words handed to the tokenizer is a stop word |
| VectorSpaceModel.Tf | vector_space_model.py:20-21 | a frequency of 0 or less weighs 0 |
| VectorSpaceModel.Idf | vector_space_model.py:23-24 | a document frequency of 0 or less weighs 0 |
| VectorSpaceModel.CountPositive | vector_space_model.py:39-41 | a term's count is positive exactly when it is one of the tokens |
| VectorSpaceModel.CountSnoc | vector_space_model.py:39-41 | counting one more token raises only that token's count, by one |
| VectorSpaceModel.SumOverRemove | vector_space_model.py:33 | a sum over dictionary values does not depend on the order in which terms are taken |
| VectorSpaceModel.SumOfSquaresNonNegative | vector_space_model.py:33 | the sum of squared weights is never negative |
| VectorSpaceModel.Normalised | vector_space_model.py:64-68 | normalising keeps the vector's terms |
| VectorSpaceModel.NormalisedIsUnit | vector_space_model.py:64-68 | where `sqrt` is a square root, a vector of positive length normalises to squared weights summing to 1 |
| VectorSpaceModel.DotDisjoint | vector_space_model.py:70-73 | a document sharing no term with the query scores exactly 0 |
| VectorSpaceModel.DotSharedTermsOnly | vector_space_model.py:70-73 | two documents that agree on the query's terms score the same |
| VectorSpaceModel.IndexStep | vector_space_model.py:43-51 | entering document `n`'s terms extends the inverted index of the first `n` documents to the first `n + 1` |
| VectorSpaceModel.CountedTermsAdded | vector_space_model.py:39-51 | the loop over counted terms adds exactly the document's terms, with the tf weight of their counts, and collects the document's tf vector |
| VectorSpaceModel.IndexedTerms | vector_space_model.py:35-54 | a term is indexed exactly when some document contains it |
| VectorSpaceModel.RowSizeIsDocFreq | vector_space_model.py:59-61 | a term's row holds exactly the documents containing it, so its size is the document frequency |
| VectorSpaceModel.RowSizesAreDocFreqs | vector_space_model.py:59-61 | the row sizes of the whole index are the document frequencies of all terms |
| VectorSpaceModel.IndexKeysAreTerms | vector_space_model.py:35-54 | the indexed terms are exactly the documents' terms |
| VectorSpaceModel.WeightedByIndex | vector_space_model.py:59-62 | weighing a tf vector by the index's row sizes gives its tf-idf vector by document frequency |
| VectorSpaceModel.DocVectorsFromIndex | vector_space_model.py:57-68 | the weighted, normalised vectors are each document's normalised tf-idf vector, for ids 0..N-1 |
| VectorSpaceModel.WeighedVectors | vector_space_model.py:57-68 | every document id keeps a vector after weighting |
| VectorSpaceModel.Insert | vector_space_model.py:110 | an insertion step of the sort adds exactly the one entry |
| VectorSpaceModel.SortByScore | vector_space_model.py:110 | sorting is a permutation of the scored pairs |
| VectorSpaceModel.InsertOrdered | vector_space_model.py:110 | inserting an entry with an id below all others keeps descending-score, ascending-id order |
| VectorSpaceModel.SortOrdered | vector_space_model.py:110 | the stable sort of pairs listed in id order is by non-increasing score, ties by ascending id |
| VectorSpaceModel.InsertIdCount | vector_space_model.py:110 | inserting counts the inserted id once more |
| VectorSpaceModel.SortIdCount | vector_space_model.py:110 | sorting keeps every id's number of occurrences |
| VectorSpaceModel.IdsFromCount | vector_space_model.py:99-107 | a run of consecutive ids holds each id of the run once and nothing else |
| VectorSpaceModel.Unscored | vector_space_model.py:88-90 | one entry per document, in id order, each with score 0.0 |
| VectorSpaceModel.Similarities | vector_space_model.py:99-107 | one scored pair per document, in id order |
| VectorSpaceModel.Named | vector_space_model.py:111 | one `(name, score)` pair per ranked pair |
| VectorSpaceModel.RankedIdsPermutation | vector_space_model.py:88-111 | every document id below N is ranked exactly once and no other id is |
| VectorSpaceModel.RankedIdsOrdered | vector_space_model.py:88-111 | the ranking is by non-increasing score, ties in document order |
| VectorSpaceModel.CountTerms | vector_space_model.py:39-41 | the counts hold exactly the distinct tokens, each with its number of occurrences |
| VectorSpaceModel.DocumentLength | vector_space_model.py:32-33 | the result is `sqrt` of the sum of squared weights |
| VectorSpaceModel.Normalize | vector_space_model.py:64-68 | the result is the normalised vector (the input unchanged when the length is not positive) |
| VectorSpaceModel.CosineSimilarity | vector_space_model.py:70-73 | the result is the sum of products over the shared terms |
| VectorSpaceModel.VectorSpace.constructor | vector_space_model.py:6-12 | a new index is empty |
| VectorSpaceModel.VectorSpace.SetDocs | vector_space_model.py:14-18 | afterwards the index, the document vectors and the idf cache are exactly those the documents determine |
| VectorSpaceModel.VectorSpace.BuildIndex | vector_space_model.py:35-68 | builds the inverted index of all documents and each document's normalised tf-idf vector |
| VectorSpaceModel.VectorSpace.IndexDocuments | vector_space_model.py:37-54 | the first loop builds the index of all documents and keeps each document's tf vector |
| VectorSpaceModel.VectorSpace.IndexDocument | vector_space_model.py:39-54 | one document's pass extends the index by that document and returns its tf vector |
| VectorSpaceModel.VectorSpace.AddTerms | vector_space_model.py:45-51 | every counted term gets its tf weight in the vector and in its row (a new row for a new term); other rows are unchanged |
| VectorSpaceModel.VectorSpace.WeightDocuments | vector_space_model.py:57-68 | every vector is weighed by idf and normalised |
| VectorSpaceModel.VectorSpace.ApplyIdf | vector_space_model.py:59-62 | each weight is multiplied by the idf of its term's row size |
| VectorSpaceModel.VectorSpace.CalculateIdfs | vector_space_model.py:26-30 | the cache holds, for exactly the indexed terms, the idf of the row size |
| VectorSpaceModel.VectorSpace.RankingOrdered | vector_space_model.py:104-111 | the ranking lists every document once, by non-increasing score, ties in document order |
| VectorSpaceModel.VectorSpace.EmptyQueryRanking | vector_space_model.py:88-90 | with no query term in the index, every document scores 0.0, in the original order |
| VectorSpaceModel.VectorSpace.AbsentTermIgnored | vector_space_model.py:81-86 | adding a query token that is not indexed leaves the ranking unchanged |
| VectorSpaceModel.VectorSpace.QueryTermsIndexed | vector_space_model.py:81-86 | after `set_docs`, the query vector weighs exactly the query terms that occur in some document |
| VectorSpaceModel.VectorSpace.UnrelatedDocumentScoresZero | vector_space_model.py:99-107 | after `set_docs`, a document sharing no term with the query scores 0.0 |
| VectorSpaceModel.VectorSpace.WeighQuery | vector_space_model.py:77-86 | the query vector weighs each indexed query term by tf of its count times its cached idf |
| VectorSpaceModel.VectorSpace.ScoreDocuments | vector_space_model.py:99-107 | every document vector is scored by its dot product with the query; any other id below `total_docs` scores 0.0 |
| VectorSpaceModel.VectorSpace.RankDocuments | vector_space_model.py:75-111 | returns the ranking: all documents at 0.0 in order for an empty query vector, otherwise the named stable sort of the normalised-query scores |
| VectorSpaceModel.VectorSpace.Search | vector_space_model.py:113-123 | returns the ranking unchanged |

## Left out

- Printing (`print` in crawler.py and in `search`) is not modelled.
- Module-level example code is not modelled. This covers the example crawl at crawler.py:105-114 and the JSON loading at graph.py:13-14.
- The NetworkX graph and its plot (graph.py:36-64) are not modelled. Only the adjacency map `gr` is.
- The network is a parameter: `fetch` returns `None` where `requests.get` raises `RequestException`.
- `urlparse` is the parameter `netloc`. Its own `ValueError` on malformed URLs is not modelled.
- The link-extraction regular expression, `urljoin` and the markup-stripping regular expressions are the parameters `extractLinks` and `normalize`.
- The censor list comes from outside the crawler, so it is a constructor parameter.
- Crawler.WebCrawler.constructor: the depth has no default. Python's `depth=1` (crawler.py:24) is left to the caller.
- The base class `Crawler` (crawler.py:15-20) has no behaviour and is not modelled.
- `stopwords`, `word_tokenize`, `PorterStemmer` and `WordNetLemmatizer` are parameters (`Tools`).
- `str.isalnum`, `str.isspace` and `str.lower` are character-level parameters.
- CaseFold: maps character by character. Python's `str.lower` can lengthen a string for a few Unicode characters; the model does not capture that.
- constants.py is not part of this model. `EMPTY` is taken to be `""` and `SPACE` to be `" "`.
- The JSON values of the crawled data (`Utils.Value`) leave out floating-point numbers and objects.
- Floating-point rounding is not modelled: weights are exact reals. The order of summation therefore does not matter in the model, though it does in floating point.
- `log10` and `sqrt` are uninterpreted functions. Only NormalisedIsUnit assumes that `sqrt` is a square root.
- Terms are an abstract type compared only for equality.
- The document dictionary is a sequence of `(name, tokens)` pairs in insertion order. Document ids are positions in it.
- Dictionary iteration order matters in one place: the ids listed before the stable sort. That order is modelled as ascending id, as Python produces it here. Other loops over dictionaries visit their keys in an arbitrary order.
- VectorSpaceModel.VectorSpace.SetDocs: modelled only on a freshly constructed object. A second call in Python keeps the old index rows, vectors and cache entries; the model does not cover that.
- `doc_lengths` (vector_space_model.py:9) is never read or written after construction, so it is left out.
- engines.py, ranker.py and test_engine.py are callers, not part of the core.
