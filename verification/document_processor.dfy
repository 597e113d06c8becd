/**
 * The text normalisers of the preprocessing pipeline: case folding,
 * contraction expansion, punctuation removal and stop-word removal, and the
 * order in which `preprocess` applies them.
 *
 * Unicode character classes and lowercasing are not modelled concretely:
 * they are parameters (`lower`, `isAlnum`, `isSpace`), as are the stop-word
 * set and the tokenizer, stemmer and lemmatizer.
 */
module DocumentProcessor {
  import opened Sequences

  /** The separator that `str.join` puts between words. */
  const SPACE: char := ' '
  const APOSTROPHE: char := '\''

  /** The external language tools applied after the string filters. */
  datatype Tools = Tools(
    lower: char -> char,
    isAlnum: char -> bool,
    isSpace: char -> bool,
    stopWords: set<string>,
    tokenize: string -> seq<string>,
    stem: string -> string,
    lemmatize: string -> string)

  // ---------------------------------------------------------------------------
  // case_fold

  /** `string.lower()`, with lowercasing given as a character map. */
  function CaseFold(s: string, lower: char -> char): (r: string)
    ensures |r| == |s|
    ensures forall i :: 0 <= i < |s| ==> r[i] == lower(s[i])
  {
    seq(|s|, i requires 0 <= i < |s| => lower(s[i]))
  }

  /** With an idempotent character map, case folding twice is folding once. */
  lemma CaseFoldIdempotent(s: string, lower: char -> char)
    requires forall c :: lower(lower(c)) == lower(c)
    ensures CaseFold(CaseFold(s, lower), lower) == CaseFold(s, lower)
  {
    var once := CaseFold(s, lower);
    var twice := CaseFold(once, lower);
    forall i | 0 <= i < |s| ensures twice[i] == once[i] {
      assert lower(lower(s[i])) == lower(s[i]);
    }
  }

  // ---------------------------------------------------------------------------
  // expand_contractions

  /** `string.replace("'", " ")`: every apostrophe becomes a space. */
  function ExpandContractions(s: string): (r: string)
    ensures |r| == |s|
    ensures APOSTROPHE !in r
    ensures forall i :: 0 <= i < |s| && s[i] != APOSTROPHE ==> r[i] == s[i]
    ensures forall i :: 0 <= i < |s| && s[i] == APOSTROPHE ==> r[i] == SPACE
  {
    if s == [] then []
    else [if s[0] == APOSTROPHE then SPACE else s[0]] + ExpandContractions(s[1..])
  }

  // ---------------------------------------------------------------------------
  // remove_punctuation

  /** A character survives punctuation removal when it is alphanumeric or whitespace. */
  predicate Kept(c: char, isAlnum: char -> bool, isSpace: char -> bool)
  {
    isAlnum(c) || isSpace(c)
  }

  /**
   * The characters of `s` that are alphanumeric or whitespace, in order.
   * Every occurrence of a kept character survives and nothing else does.
   */
  function RemovePunctuation(s: string, isAlnum: char -> bool, isSpace: char -> bool): (r: string)
    ensures forall c :: c in r ==> Kept(c, isAlnum, isSpace)
    ensures forall c :: multiset(r)[c] == if Kept(c, isAlnum, isSpace) then multiset(s)[c] else 0
  {
    if s == [] then []
    else
      assert s == [s[0]] + s[1..];
      (if Kept(s[0], isAlnum, isSpace) then [s[0]] else []) + RemovePunctuation(s[1..], isAlnum, isSpace)
  }

  /** Punctuation removal keeps the original order of the surviving characters. */
  lemma {:induction false} RemovePunctuationKeepsOrder(s: string, isAlnum: char -> bool, isSpace: char -> bool)
    ensures Subsequence(RemovePunctuation(s, isAlnum, isSpace), s)
  {
    if s != [] {
      var r := RemovePunctuation(s, isAlnum, isSpace);
      var tail := RemovePunctuation(s[1..], isAlnum, isSpace);
      RemovePunctuationKeepsOrder(s[1..], isAlnum, isSpace);
      if Kept(s[0], isAlnum, isSpace) {
        assert r[0] == s[0] && r[1..] == tail;
      } else if r != [] {
        assert r == tail;
        assert r[0] in r;
        assert r[0] != s[0];
        assert Subsequence(r, s[1..]);
      }
    }
  }

  /** A string made only of kept characters passes through unchanged. */
  lemma {:induction false} RemovePunctuationFixes(s: string, isAlnum: char -> bool, isSpace: char -> bool)
    requires forall c :: c in s ==> Kept(c, isAlnum, isSpace)
    ensures RemovePunctuation(s, isAlnum, isSpace) == s
  {
    if s != [] {
      assert s[0] in s;
      assert forall c :: c in s[1..] ==> c in s;
      RemovePunctuationFixes(s[1..], isAlnum, isSpace);
    }
  }

  /** Removing punctuation twice is removing it once. */
  lemma RemovePunctuationIdempotent(s: string, isAlnum: char -> bool, isSpace: char -> bool)
    ensures RemovePunctuation(RemovePunctuation(s, isAlnum, isSpace), isAlnum, isSpace)
         == RemovePunctuation(s, isAlnum, isSpace)
  {
    RemovePunctuationFixes(RemovePunctuation(s, isAlnum, isSpace), isAlnum, isSpace);
  }

  // ---------------------------------------------------------------------------
  // remove_stopwords: str.split() and " ".join(...)

  /** Length of the run of non-whitespace characters that starts `s`. */
  function WordLength(s: string, isSpace: char -> bool): (n: nat)
    ensures n <= |s|
    ensures forall i :: 0 <= i < n ==> !isSpace(s[i])
    ensures n < |s| ==> isSpace(s[n])
  {
    if s == [] || isSpace(s[0]) then 0 else 1 + WordLength(s[1..], isSpace)
  }

  /**
   * `str.split()` with no separator: the maximal runs of non-whitespace
   * characters. Every piece is a word, made of characters of `s`.
   */
  function Split(s: string, isSpace: char -> bool): (words: seq<string>)
    ensures forall w :: w in words ==> IsWord(w, isSpace)
    ensures forall w, c :: w in words && c in w ==> c in s
    decreases |s|
  {
    if s == [] then []
    else if isSpace(s[0]) then
      assert forall c :: c in s[1..] ==> c in s;
      Split(s[1..], isSpace)
    else
      var n := WordLength(s, isSpace);
      assert forall c :: c in s[n..] ==> c in s;
      assert forall c :: c in s[..n] ==> c in s && !isSpace(c) by {
        forall c | c in s[..n] ensures c in s && !isSpace(c) {
          var i :| 0 <= i < n && s[..n][i] == c;
          assert s[i] == c;
        }
      }
      [s[..n]] + Split(s[n..], isSpace)
  }

  /** A word as `str.split()` produces it: non-empty and free of whitespace. */
  predicate IsWord(w: string, isSpace: char -> bool)
  {
    w != [] && forall c :: c in w ==> !isSpace(c)
  }

  /** `" ".join(words)`: every character is a separating space or a character of some word. */
  function Join(words: seq<string>): (s: string)
    ensures forall c :: c in s ==> c == SPACE || exists w :: w in words && c in w
  {
    if words == [] then []
    else
      assert words[0] in words;
      if |words| == 1 then words[0]
      else
        assert forall w :: w in words[1..] ==> w in words;
        words[0] + [SPACE] + Join(words[1..])
  }

  /** Leading whitespace does not change the split. */
  lemma SplitSkipsSpace(s: string, isSpace: char -> bool)
    requires isSpace(SPACE)
    ensures Split([SPACE] + s, isSpace) == Split(s, isSpace)
  {
    assert ([SPACE] + s)[1..] == s;
  }

  /** Splitting a single-space join of words gives the words back. */
  lemma {:induction false} SplitJoin(words: seq<string>, isSpace: char -> bool)
    requires isSpace(SPACE)
    requires forall w :: w in words ==> IsWord(w, isSpace)
    ensures Split(Join(words), isSpace) == words
  {
    if words == [] {
    } else {
      var w := words[0];
      assert w in words;
      var s := Join(words);
      var rest := if |words| == 1 then [] else [SPACE] + Join(words[1..]);
      assert s == w + rest;
      assert WordLength(s, isSpace) == |w| by {
        WordLengthOfWord(w, rest, isSpace);
      }
      assert s[..|w|] == w;
      assert s[|w|..] == rest;
      if |words| > 1 {
        assert forall v :: v in words[1..] ==> v in words;
        SplitJoin(words[1..], isSpace);
        SplitSkipsSpace(Join(words[1..]), isSpace);
      }
    }
  }

  /** A word followed by whitespace or by nothing is read back whole. */
  lemma {:induction false} WordLengthOfWord(w: string, rest: string, isSpace: char -> bool)
    requires IsWord(w, isSpace)
    requires rest == [] || isSpace(rest[0])
    ensures WordLength(w + rest, isSpace) == |w|
    decreases |w|
  {
    assert w[0] in w;
    if |w| > 1 {
      assert (w + rest)[1..] == w[1..] + rest;
      assert forall c :: c in w[1..] ==> c in w;
      WordLengthOfWord(w[1..], rest, isSpace);
    } else {
      assert (w + rest)[1..] == rest;
    }
  }

  /** `[word for word in words if word not in stop_words]`. */
  function DropStopWords(words: seq<string>, stopWords: set<string>): (kept: seq<string>)
    ensures forall w :: w in kept ==> w in words && w !in stopWords
    ensures forall w :: w in words && w !in stopWords ==> w in kept
    ensures forall w :: multiset(kept)[w] == if w in stopWords then 0 else multiset(words)[w]
  {
    if words == [] then []
    else
      assert words == [words[0]] + words[1..];
      (if words[0] in stopWords then [] else [words[0]]) + DropStopWords(words[1..], stopWords)
  }

  /** The stop-word filter keeps the original order of the surviving words. */
  lemma {:induction false} DropStopWordsKeepsOrder(words: seq<string>, stopWords: set<string>)
    ensures Subsequence(DropStopWords(words, stopWords), words)
  {
    if words != [] {
      var kept := DropStopWords(words, stopWords);
      var tail := DropStopWords(words[1..], stopWords);
      DropStopWordsKeepsOrder(words[1..], stopWords);
      if words[0] !in stopWords {
        assert kept[0] == words[0] && kept[1..] == tail;
      } else if kept != [] {
        assert kept == tail;
        assert kept[0] in kept;
        assert kept[0] != words[0];
        assert Subsequence(kept, words[1..]);
      }
    }
  }

  /**
   * `SPACE.join([word for word in string.split() if word not in stop_words])`:
   * apart from the separating spaces, only non-whitespace characters of `s`
   * remain.
   */
  function RemoveStopwords(s: string, stopWords: set<string>, isSpace: char -> bool): (r: string)
    ensures forall c :: c in r ==> c == SPACE || (c in s && !isSpace(c))
  {
    Join(DropStopWords(Split(s, isSpace), stopWords))
  }

  /**
   * The words of the result are exactly the non-stop words of the input, in
   * order; in particular the result contains no stop word.
   */
  lemma RemoveStopwordsWords(s: string, stopWords: set<string>, isSpace: char -> bool)
    requires isSpace(SPACE)
    ensures Split(RemoveStopwords(s, stopWords, isSpace), isSpace)
         == DropStopWords(Split(s, isSpace), stopWords)
    ensures forall w :: w in Split(RemoveStopwords(s, stopWords, isSpace), isSpace) ==> w !in stopWords
  {
    SplitJoin(DropStopWords(Split(s, isSpace), stopWords), isSpace);
  }

  /** A list with no stop word passes the stop-word filter unchanged. */
  lemma {:induction false} DropStopWordsFixes(words: seq<string>, stopWords: set<string>)
    requires forall w :: w in words ==> w !in stopWords
    ensures DropStopWords(words, stopWords) == words
  {
    if words != [] {
      assert words[0] in words;
      assert forall w :: w in words[1..] ==> w in words;
      DropStopWordsFixes(words[1..], stopWords);
    }
  }

  /** Removing stop words twice is removing them once. */
  lemma RemoveStopwordsIdempotent(s: string, stopWords: set<string>, isSpace: char -> bool)
    requires isSpace(SPACE)
    ensures RemoveStopwords(RemoveStopwords(s, stopWords, isSpace), stopWords, isSpace)
         == RemoveStopwords(s, stopWords, isSpace)
  {
    var kept := DropStopWords(Split(s, isSpace), stopWords);
    RemoveStopwordsWords(s, stopWords, isSpace);
    DropStopWordsFixes(kept, stopWords);
  }

  // ---------------------------------------------------------------------------
  // preprocess

  /**
   * The first four steps of `preprocess`: the string handed to the
   * tokenizer, made only of alphanumeric characters and spaces.
   */
  function Clean(s: string, t: Tools): (r: string)
    ensures forall c :: c in r ==> t.isAlnum(c) || c == SPACE
  {
    var folded := CaseFold(s, t.lower);
    var expanded := ExpandContractions(folded);
    var stripped := RemovePunctuation(expanded, t.isAlnum, t.isSpace);
    RemoveStopwords(stripped, t.stopWords, t.isSpace)
  }

  /** `[f(word) for word in tokens]`, the shape of `stem_string` and `lemmatize`. */
  function MapWords(tokens: seq<string>, f: string -> string): (r: seq<string>)
    ensures |r| == |tokens|
    ensures forall i :: 0 <= i < |tokens| ==> r[i] == f(tokens[i])
  {
    if tokens == [] then [] else [f(tokens[0])] + MapWords(tokens[1..], f)
  }

  /**
   * `preprocess`: case fold, expand contractions, remove punctuation, remove
   * stop words, tokenize, stem, lemmatize, in that order.
   */
  function Preprocess(s: string, t: Tools): (tokens: seq<string>)
    ensures |tokens| == |t.tokenize(Clean(s, t))|
    ensures forall i :: 0 <= i < |tokens| ==>
      tokens[i] == t.lemmatize(t.stem(t.tokenize(Clean(s, t))[i]))
  {
    MapWords(MapWords(t.tokenize(Clean(s, t)), t.stem), t.lemmatize)
  }

  /** None of the words the tokenizer receives is a stop word. */
  lemma CleanedText(s: string, t: Tools)
    requires t.isSpace(SPACE)
    ensures forall w :: w in Split(Clean(s, t), t.isSpace) ==> w !in t.stopWords
  {
    var stripped := RemovePunctuation(ExpandContractions(CaseFold(s, t.lower)), t.isAlnum, t.isSpace);
    RemoveStopwordsWords(stripped, t.stopWords, t.isSpace);
  }
}
