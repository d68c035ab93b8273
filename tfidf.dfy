/** The keyword recommender of `app/lib/tfidf.py`: segmented news texts are
    filtered into word lists ("fragments"), each word gets a document
    frequency and an idf weight, every document keeps its top tf-idf words,
    every document becomes a bin over the union of all keywords, and a news
    item is matched against all others by the Tanimoto coefficient.

    The jieba segmenter is outside the model: a news text arrives already
    split into tokens. The idf weight `math.log(newsCount / freq)` is an
    abstract function of the document count and the document frequency. */
module TfIdf {
  import opened Wrappers
  import opened Text
  import opened Collections
  import opened Sorting
  import opened Similarity
  import UtilFuncs

  type NewsId = int

  // ---------------------------------------------------------------------
  // cut

  /** The test `cut` applies to each token: CJK only, longer than one
      character once stripped, and not a stop word. */
  predicate Keep(word: string, stopWords: set<string>) {
    UtilFuncs.IsChinese(word) && |Strip(word)| > 1 && word !in stopWords
  }

  /** What `cut` yields for one token. */
  function CutOne(token: string, stopWords: set<string>): seq<string> {
    if Keep(token, stopWords) then [Strip(token)] else []
  }

  /** `lcut`: the stripped tokens that pass `Keep`, in input order. */
  function CutSpec(tokens: seq<string>, stopWords: set<string>): (r: seq<string>)
    ensures |r| <= |tokens|
  {
    if tokens == [] then [] else CutOne(tokens[0], stopWords) + CutSpec(tokens[1..], stopWords)
  }

  /** A word `cut` may yield from `tokens`. */
  predicate CutWord(w: string, tokens: seq<string>, stopWords: set<string>) {
    UtilFuncs.IsChinese(w) && |w| > 1 && w !in stopWords && w in tokens
  }

  lemma CjkNotSpace(c: char)
    requires UtilFuncs.IsCjk(c)
    ensures !IsSpace(c)
  {
  }

  /** A kept token has no whitespace, so stripping leaves it as it is. */
  lemma KeptIsStripped(word: string, stopWords: set<string>)
    requires Keep(word, stopWords)
    ensures NoSpace(word) && Strip(word) == word
  {
    forall k | 0 <= k < |word| ensures !IsSpace(word[k]) {
      CjkNotSpace(word[k]);
    }
    StripNoSpace(word);
  }

  /** Every word `cut` yields is a CJK token of the input, longer than one
      character and not a stop word. */
  lemma {:induction false} CutTokens(tokens: seq<string>, stopWords: set<string>)
    ensures forall w :: w in CutSpec(tokens, stopWords) ==> CutWord(w, tokens, stopWords)
  {
    if tokens != [] {
      CutTokens(tokens[1..], stopWords);
      var head := CutOne(tokens[0], stopWords);
      var rest := CutSpec(tokens[1..], stopWords);
      forall w | w in head + rest ensures CutWord(w, tokens, stopWords) {
        if w in head {
          KeptIsStripped(tokens[0], stopWords);
        } else {
          assert CutWord(w, tokens[1..], stopWords);
        }
      }
    }
  }

  /** `cut` keeps a token exactly when it passes the test, and leaves it
      unchanged. */
  lemma CutSingle(word: string, stopWords: set<string>)
    ensures CutSpec([word], stopWords) == if Keep(word, stopWords) then [word] else []
  {
    assert [word][1..] == [];
    assert CutSpec([word], stopWords) == CutOne(word, stopWords) + [];
    if Keep(word, stopWords) {
      KeptIsStripped(word, stopWords);
    }
  }

  /** `cut` works token by token, so the input order is kept. */
  lemma {:induction false} CutAppend(a: seq<string>, b: seq<string>, stopWords: set<string>)
    ensures CutSpec(a + b, stopWords) == CutSpec(a, stopWords) + CutSpec(b, stopWords)
  {
    if a == [] {
      assert a + b == b;
    } else {
      CutAppend(a[1..], b, stopWords);
      CutConsAppend(a, b, stopWords);
    }
  }

  /** One token in front of a concatenation. */
  lemma CutConsAppend(a: seq<string>, b: seq<string>, stopWords: set<string>)
    requires a != [] && CutSpec(a[1..] + b, stopWords) == CutSpec(a[1..], stopWords) + CutSpec(b, stopWords)
    ensures CutSpec(a + b, stopWords) == CutSpec(a, stopWords) + CutSpec(b, stopWords)
  {
    TailAppend(a, b);
    var h := CutOne(a[0], stopWords);
    var x, y := CutSpec(a[1..], stopWords), CutSpec(b, stopWords);
    assert h + (x + y) == (h + x) + y;
  }

  /** `{newsID: self.lcut(content) ...}` over the segmented contents. */
  function CutAll(contents: seq<(NewsId, seq<string>)>, stopWords: set<string>): (r: seq<(NewsId, seq<string>)>)
    ensures |r| == |contents|
    ensures forall i :: 0 <= i < |r| ==> r[i].0 == contents[i].0 && r[i].1 == CutSpec(contents[i].1, stopWords)
  {
    seq(|contents|, i requires 0 <= i < |contents| => (contents[i].0, CutSpec(contents[i].1, stopWords)))
  }

  lemma CutAllKeys(contents: seq<(NewsId, seq<string>)>, stopWords: set<string>)
    ensures Firsts(CutAll(contents, stopWords)) == Firsts(contents)
  {
  }

  // ---------------------------------------------------------------------
  // get_idfDict

  /** All words of all fragments, in order. */
  function AllWords(fragments: seq<(NewsId, seq<string>)>): seq<string> {
    if fragments == [] then [] else fragments[0].1 + AllWords(fragments[1..])
  }

  /** The number of documents whose word list contains `w`. */
  function DocFreq(fragments: seq<(NewsId, seq<string>)>, w: string): (n: nat)
    ensures n <= |fragments|
  {
    if fragments == [] then 0 else (if w in fragments[0].1 then 1 else 0) + DocFreq(fragments[1..], w)
  }

  /** A word has a positive document frequency exactly when it occurs somewhere. */
  lemma {:induction false} DocFreqPositive(fragments: seq<(NewsId, seq<string>)>, w: string)
    ensures DocFreq(fragments, w) > 0 <==> w in AllWords(fragments)
  {
    if fragments != [] {
      DocFreqPositive(fragments[1..], w);
    }
  }

  /** Document frequencies lie between 1 and the number of documents. */
  lemma DocFreqBounds(fragments: seq<(NewsId, seq<string>)>, w: string)
    requires w in AllWords(fragments)
    ensures 1 <= DocFreq(fragments, w) <= |fragments|
  {
    DocFreqPositive(fragments, w);
  }

  /** `iter_flat([list(set(words)) for ...])`: the distinct words of each
      document, documents in order. The order inside one document's set does
      not matter to the counts taken below. */
  function DistinctWordsOfAll(fragments: seq<(NewsId, seq<string>)>): seq<string> {
    if fragments == [] then [] else Dedup(fragments[0].1) + DistinctWordsOfAll(fragments[1..])
  }

  /** `wordsSum[w]`: counting over the per-document sets counts each word
      once per document, which is its document frequency. */
  lemma {:induction false} WordsSumIsDocFreq(fragments: seq<(NewsId, seq<string>)>, w: string)
    ensures Count(DistinctWordsOfAll(fragments), w) == DocFreq(fragments, w)
  {
    if fragments != [] {
      WordsSumIsDocFreq(fragments[1..], w);
      CountAppend(Dedup(fragments[0].1), DistinctWordsOfAll(fragments[1..]), w);
      CountDistinct(Dedup(fragments[0].1), w);
      assert w in Dedup(fragments[0].1) <==> w in fragments[0].1 by {
        var d := Dedup(fragments[0].1);
        if w in d {
          var i :| 0 <= i < |d| && d[i] == w;
        }
        if w in fragments[0].1 {
          var i :| 0 <= i < |fragments[0].1| && fragments[0].1[i] == w;
        }
      }
    }
  }

  /** `monoWords`: the words counted at most once. */
  function MonoWords(fragments: seq<(NewsId, seq<string>)>): set<string> {
    set w | w in AllWords(fragments) && DocFreq(fragments, w) <= 1
  }

  /** A mono word is exactly a word that occurs in one document only. */
  lemma MonoWordsExactly(fragments: seq<(NewsId, seq<string>)>, w: string)
    ensures w in MonoWords(fragments) <==> DocFreq(fragments, w) == 1
  {
    DocFreqPositive(fragments, w);
  }

  /** `idfDict`: every word that occurs gets the weight of its document
      frequency against the number of documents. */
  function IdfDict(fragments: seq<(NewsId, seq<string>)>, idf: (nat, nat) -> real): (d: map<string, real>)
    ensures forall w :: w in d <==> w in AllWords(fragments)
  {
    map w | w in AllWords(fragments) :: idf(|fragments|, DocFreq(fragments, w))
  }

  /** Every entry's weight is taken at a document frequency in
      [1, number of documents]. */
  lemma IdfDictEntries(fragments: seq<(NewsId, seq<string>)>, idf: (nat, nat) -> real, w: string)
    requires w in IdfDict(fragments, idf)
    ensures exists f :: 1 <= f <= |fragments| && IdfDict(fragments, idf)[w] == idf(|fragments|, f)
  {
    DocFreqBounds(fragments, w);
    var f := DocFreq(fragments, w);
    assert IdfDict(fragments, idf)[w] == idf(|fragments|, f);
  }

  // ---------------------------------------------------------------------
  // extract

  /** The words that are not mono words, in order. */
  function Filtered(words: seq<string>, monoWords: set<string>): (r: seq<string>)
    ensures |r| <= |words|
    ensures forall i :: 0 <= i < |r| ==> r[i] !in monoWords && r[i] in words
  {
    if words == [] then []
    else (if words[0] in monoWords then [] else [words[0]]) + Filtered(words[1..], monoWords)
  }

  lemma {:induction false} FilteredKeeps(words: seq<string>, monoWords: set<string>, w: string)
    ensures w in Filtered(words, monoWords) <==> w in words && w !in monoWords
  {
    if words != [] {
      FilteredKeeps(words[1..], monoWords, w);
    }
  }

  /** The tf-idf of one word: its frequency among the filtered words times
      its idf. */
  function TfIdfOf(w: string, filtered: seq<string>, idfDict: map<string, real>): real
    requires |filtered| > 0 && w in idfDict
  {
    Count(filtered, w) as real / |filtered| as real * idfDict[w]
  }

  /** The `tf_idf` dict, in `Counter` key order; a word missing from
      `idfDict` raises `KeyError`. */
  function TfIdfPairs(distinct: seq<string>, filtered: seq<string>, idfDict: map<string, real>): (r: Result<seq<(string, real)>>)
    requires forall i :: 0 <= i < |distinct| ==> distinct[i] in filtered
    ensures r.Ok? <==> forall i :: 0 <= i < |distinct| ==> distinct[i] in idfDict
    ensures r.Err? ==> r.error == KeyError
    ensures r.Ok? ==> Firsts(r.value) == distinct
    ensures r.Ok? ==> forall i :: 0 <= i < |r.value| ==> r.value[i].1 == TfIdfOf(distinct[i], filtered, idfDict)
  {
    if distinct == [] then Ok([])
    else if distinct[0] !in idfDict then Err(KeyError)
    else
      var rest :- TfIdfPairs(distinct[1..], filtered, idfDict);
      Ok([(distinct[0], TfIdfOf(distinct[0], filtered, idfDict))] + rest)
  }

  function ScoreKey(p: (string, real)): SortKey {
    Num(p.1)
  }

  /** The (word, tf-idf) pairs `extract` sorts. */
  function ExtractPairs(words: seq<string>, monoWords: set<string>, idfDict: map<string, real>): Result<seq<(string, real)>> {
    var filtered := Filtered(words, monoWords);
    TfIdfPairs(Dedup(filtered), filtered, idfDict)
  }

  /** `extract(words, top, weight=True)`: the `top` best (word, tf-idf)
      pairs, best first. */
  function ExtractWeighted(words: seq<string>, top: int, monoWords: set<string>, idfDict: map<string, real>): Result<seq<(string, real)>> {
    var pairs :- ExtractPairs(words, monoWords, idfDict);
    Ok(TakePy(SortBy(pairs, ScoreKey, true), top))
  }

  datatype Extracted = Weighted(pairs: seq<(string, real)>) | Plain(keyWords: seq<string>)

  /** `extract(words, top, weight)`: the pairs, or only their words. */
  function Extract(words: seq<string>, top: int, weight: bool, monoWords: set<string>, idfDict: map<string, real>): (r: Result<Extracted>)
    ensures r.Ok? <==> ExtractWeighted(words, top, monoWords, idfDict).Ok?
    ensures r.Ok? && weight ==> r.value == Weighted(ExtractWeighted(words, top, monoWords, idfDict).value)
    ensures r.Ok? && !weight ==> r.value == Plain(Firsts(ExtractWeighted(words, top, monoWords, idfDict).value))
  {
    var kw :- ExtractWeighted(words, top, monoWords, idfDict);
    Ok(if weight then Weighted(kw) else Plain(Firsts(kw)))
  }

  /** The pairs exist exactly when every word that is not a mono word has
      an idf. */
  lemma ExtractPairsDefined(words: seq<string>, monoWords: set<string>, idfDict: map<string, real>)
    ensures ExtractPairs(words, monoWords, idfDict).Ok? <==> forall w :: w in words && w !in monoWords ==> w in idfDict
  {
    var filtered := Filtered(words, monoWords);
    var d := Dedup(filtered);
    forall w ensures w in d <==> w in words && w !in monoWords {
      FilteredKeeps(words, monoWords, w);
      if w in d {
        var k :| 0 <= k < |d| && d[k] == w;
      }
      if w in filtered {
        var j :| 0 <= j < |filtered| && filtered[j] == w;
      }
    }
  }

  /** `extract` fails with `KeyError` exactly when a word that is not a mono
      word has no idf. */
  lemma ExtractError(words: seq<string>, top: int, monoWords: set<string>, idfDict: map<string, real>)
    ensures ExtractWeighted(words, top, monoWords, idfDict).Err? <==>
      exists w :: w in words && w !in monoWords && w !in idfDict
    ensures ExtractWeighted(words, top, monoWords, idfDict).Err? ==>
      ExtractWeighted(words, top, monoWords, idfDict).error == KeyError
  {
    ExtractPairsDefined(words, monoWords, idfDict);
  }

  /** An input that is empty once mono words are removed gives no keywords. */
  lemma ExtractEmpty(words: seq<string>, top: int, monoWords: set<string>, idfDict: map<string, real>)
    requires forall i :: 0 <= i < |words| ==> words[i] in monoWords
    ensures ExtractWeighted(words, top, monoWords, idfDict) == Ok([])
  {
    FilteredNone(words, monoWords);
  }

  lemma {:induction false} FilteredNone(words: seq<string>, monoWords: set<string>)
    requires forall i :: 0 <= i < |words| ==> words[i] in monoWords
    ensures Filtered(words, monoWords) == []
  {
    if words != [] {
      assert words[0] in monoWords;
      FilteredNone(words[1..], monoWords);
    }
  }

  lemma ExtractIsTop(words: seq<string>, top: int, monoWords: set<string>, idfDict: map<string, real>)
    requires ExtractWeighted(words, top, monoWords, idfDict).Ok?
    ensures ExtractPairs(words, monoWords, idfDict).Ok?
    ensures ExtractWeighted(words, top, monoWords, idfDict).value ==
      TakePy(SortBy(ExtractPairs(words, monoWords, idfDict).value, ScoreKey, true), top)
  {
  }

  /** `extract` keeps at most `top` words, best first. */
  lemma ExtractSorted(words: seq<string>, top: int, monoWords: set<string>, idfDict: map<string, real>)
    requires ExtractWeighted(words, top, monoWords, idfDict).Ok?
    ensures top >= 0 ==> |ExtractWeighted(words, top, monoWords, idfDict).value| <= top
    ensures Sorted(ExtractWeighted(words, top, monoWords, idfDict).value, ScoreKey, true)
  {
    ExtractIsTop(words, top, monoWords, idfDict);
    TopN(ExtractPairs(words, monoWords, idfDict).value, top, ScoreKey, true);
  }

  /** Every word `extract` keeps is an input word that is not a mono word,
      paired with its tf-idf. */
  lemma ExtractWords(words: seq<string>, top: int, monoWords: set<string>, idfDict: map<string, real>, p: (string, real))
    requires ExtractWeighted(words, top, monoWords, idfDict).Ok?
    requires p in ExtractWeighted(words, top, monoWords, idfDict).value
    ensures p.0 !in monoWords && p.0 in words && p.0 in idfDict && |Filtered(words, monoWords)| > 0
    ensures p.1 == TfIdfOf(p.0, Filtered(words, monoWords), idfDict)
  {
    ExtractIsTop(words, top, monoWords, idfDict);
    var filtered := Filtered(words, monoWords);
    var d := Dedup(filtered);
    var pairs := ExtractPairs(words, monoWords, idfDict).value;
    var r := ExtractWeighted(words, top, monoWords, idfDict).value;
    TopN(pairs, top, ScoreKey, true);
    assert p in multiset(r);
    assert p in multiset(pairs);
    var j :| 0 <= j < |pairs| && pairs[j] == p;
    assert Firsts(pairs)[j] == d[j];
    FilteredKeeps(words, monoWords, d[j]);
  }

  /** `extract` keeps each word at most once. */
  lemma ExtractDistinct(words: seq<string>, top: int, monoWords: set<string>, idfDict: map<string, real>)
    requires ExtractWeighted(words, top, monoWords, idfDict).Ok?
    ensures Distinct(Firsts(ExtractWeighted(words, top, monoWords, idfDict).value))
  {
    ExtractIsTop(words, top, monoWords, idfDict);
    var filtered := Filtered(words, monoWords);
    var pairs := ExtractPairs(words, monoWords, idfDict).value;
    var r := ExtractWeighted(words, top, monoWords, idfDict).value;
    TopN(pairs, top, ScoreKey, true);
    forall i, j | 0 <= i < j < |r|
      ensures Firsts(r)[i] != Firsts(r)[j]
    {
      DistinctPairsSub(pairs, r, i, j, Dedup(filtered));
    }
  }

  /** Two pairs taken from `pairs` without repetition have different words,
      because the words of `pairs` are distinct. */
  lemma DistinctPairsSub(pairs: seq<(string, real)>, r: seq<(string, real)>, i: nat, j: nat, d: seq<string>)
    requires Firsts(pairs) == d && Distinct(d)
    requires multiset(r) <= multiset(pairs) && i < j < |r|
    ensures r[i].0 != r[j].0
  {
    assert r[i] in multiset(r) && r[j] in multiset(r);
    var a :| 0 <= a < |pairs| && pairs[a] == r[i];
    var b :| 0 <= b < |pairs| && pairs[b] == r[j];
    if r[i].0 == r[j].0 {
      assert d[a] == d[b];
      assert a == b;
      assert r[i] == r[j];
      assert multiset(r)[r[i]] >= 2 by {
        assert r == r[..i] + [r[i]] + r[i + 1..j] + [r[j]] + r[j + 1..];
      }
      DistinctMultiplicity(pairs, d, a);
    }
  }

  lemma DistinctMultiplicity(pairs: seq<(string, real)>, d: seq<string>, a: nat)
    requires Firsts(pairs) == d && Distinct(d) && a < |pairs|
    ensures multiset(pairs)[pairs[a]] == 1
  {
    var p := pairs[a];
    assert pairs == pairs[..a] + [p] + pairs[a + 1..];
  }

  /** Top-k: a word with a tf-idf that is left out scores no higher than any
      word kept. */
  lemma ExtractTop(words: seq<string>, top: int, monoWords: set<string>, idfDict: map<string, real>, w: string)
    requires ExtractWeighted(words, top, monoWords, idfDict).Ok?
    requires w in words && w !in monoWords
    requires w !in Firsts(ExtractWeighted(words, top, monoWords, idfDict).value)
    ensures w in idfDict && |Filtered(words, monoWords)| > 0
    ensures forall i :: 0 <= i < |ExtractWeighted(words, top, monoWords, idfDict).value| ==>
      ExtractWeighted(words, top, monoWords, idfDict).value[i].1 >= TfIdfOf(w, Filtered(words, monoWords), idfDict)
  {
    ExtractIsTop(words, top, monoWords, idfDict);
    var filtered := Filtered(words, monoWords);
    var pairs := ExtractPairs(words, monoWords, idfDict).value;
    var r := ExtractWeighted(words, top, monoWords, idfDict).value;
    var p := PairOf(words, monoWords, idfDict, w);
    FirstsNotIn(r, p);
    TopNLeftOut(pairs, top, ScoreKey, true, p);
    forall i | 0 <= i < |r| ensures r[i].1 >= TfIdfOf(w, filtered, idfDict) {
      assert !Before(p, r[i], ScoreKey, true);
    }
  }

  /** The pair of an input word that is not a mono word. */
  lemma PairOf(words: seq<string>, monoWords: set<string>, idfDict: map<string, real>, w: string) returns (p: (string, real))
    requires ExtractPairs(words, monoWords, idfDict).Ok? && w in words && w !in monoWords
    ensures w in idfDict && |Filtered(words, monoWords)| > 0
    ensures p == (w, TfIdfOf(w, Filtered(words, monoWords), idfDict)) && p in ExtractPairs(words, monoWords, idfDict).value
  {
    var filtered := Filtered(words, monoWords);
    var d := Dedup(filtered);
    var pairs := ExtractPairs(words, monoWords, idfDict).value;
    FilteredKeeps(words, monoWords, w);
    var j :| 0 <= j < |filtered| && filtered[j] == w;
    assert w in d;
    var k :| 0 <= k < |d| && d[k] == w;
    assert Firsts(pairs)[k] == w;
    p := pairs[k];
  }

  /** Ties keep first-occurrence order: among the kept words of one score,
      the order is that of the `Counter`, which is first occurrence. */
  lemma ExtractStable(words: seq<string>, top: int, monoWords: set<string>, idfDict: map<string, real>, k: SortKey)
    requires ExtractWeighted(words, top, monoWords, idfDict).Ok?
    ensures var filtered := Filtered(words, monoWords);
      var pairs := TfIdfPairs(Dedup(filtered), filtered, idfDict);
      var kept := WithKey(ExtractWeighted(words, top, monoWords, idfDict).value, ScoreKey, k);
      pairs.Ok? && Firsts(pairs.value) == Dedup(filtered) &&
      |kept| <= |WithKey(pairs.value, ScoreKey, k)| && kept == WithKey(pairs.value, ScoreKey, k)[..|kept|]
  {
    var filtered := Filtered(words, monoWords);
    var pairs := TfIdfPairs(Dedup(filtered), filtered, idfDict).value;
    var t := SortBy(pairs, ScoreKey, true);
    var r := TakePy(t, top);
    SortByStable(pairs, ScoreKey, true, k);
    WithKeyTake(t, |r|, ScoreKey, k);
  }

  // ---------------------------------------------------------------------
  // get_bins

  /** `{newsID: self.extract(words) ...}` with `top=100`, unweighted. */
  function KeyWordsOf(fragments: seq<(NewsId, seq<string>)>, monoWords: set<string>, idfDict: map<string, real>): (r: Result<seq<(NewsId, seq<string>)>>)
    ensures r.Ok? ==> |r.value| == |fragments|
    ensures r.Ok? ==> forall i :: 0 <= i < |fragments| ==> r.value[i].0 == fragments[i].0
  {
    if fragments == [] then Ok([])
    else
      var kw :- ExtractWeighted(fragments[0].1, 100, monoWords, idfDict);
      var rest :- KeyWordsOf(fragments[1..], monoWords, idfDict);
      Ok([(fragments[0].0, Firsts(kw))] + rest)
  }

  /** Extraction cannot fail on the idf table built from the same fragments:
      every word has an idf. */
  lemma {:induction false} KeyWordsOfDefined(fragments: seq<(NewsId, seq<string>)>, monoWords: set<string>, idfDict: map<string, real>)
    requires forall w :: w in AllWords(fragments) ==> w in idfDict
    ensures KeyWordsOf(fragments, monoWords, idfDict).Ok?
  {
    if fragments != [] {
      ExtractError(fragments[0].1, 100, monoWords, idfDict);
      assert forall w :: w in fragments[0].1 ==> w in AllWords(fragments);
      assert forall w :: w in AllWords(fragments[1..]) ==> w in AllWords(fragments);
      KeyWordsOfDefined(fragments[1..], monoWords, idfDict);
    }
  }

  /** All keywords of all documents, in order. */
  function AllKeyWords(keyWords: seq<(NewsId, seq<string>)>): seq<string> {
    if keyWords == [] then [] else keyWords[0].1 + AllKeyWords(keyWords[1..])
  }

  lemma {:induction false} AllKeyWordsHas(keyWords: seq<(NewsId, seq<string>)>, i: nat, w: string)
    requires i < |keyWords| && w in keyWords[i].1
    ensures w in AllKeyWords(keyWords)
  {
    if i > 0 {
      AllKeyWordsHas(keyWords[1..], i - 1, w);
    }
  }

  /** `uniqueKeyWords = list(set(iter_flat(keyWords.values())))`. The model
      fixes first-occurrence order; every result about bins below holds for
      any duplicate-free enumeration. */
  function Vocabulary(keyWords: seq<(NewsId, seq<string>)>): (v: seq<string>)
    ensures Distinct(v)
  {
    Dedup(AllKeyWords(keyWords))
  }

  /** The vocabulary is the union of all keyword lists. */
  lemma VocabularyIsUnion(keyWords: seq<(NewsId, seq<string>)>, w: string)
    ensures w in Vocabulary(keyWords) <==> w in AllKeyWords(keyWords)
  {
    var a := AllKeyWords(keyWords);
    var v := Vocabulary(keyWords);
    if w in v {
      var i :| 0 <= i < |v| && v[i] == w;
    }
    if w in a {
      var i :| 0 <= i < |a| && a[i] == w;
    }
  }

  /** Each document's keywords lie in the vocabulary. */
  lemma KeyWordsInVocabulary(keyWords: seq<(NewsId, seq<string>)>, i: nat)
    requires i < |keyWords|
    ensures forall w :: w in keyWords[i].1 ==> w in Vocabulary(keyWords)
  {
    forall w | w in keyWords[i].1 ensures w in Vocabulary(keyWords) {
      AllKeyWordsHas(keyWords, i, w);
      VocabularyIsUnion(keyWords, w);
    }
  }

  // ---------------------------------------------------------------------
  // match

  /** Is the query document's bin non-empty (or the document unknown)? An
      empty query bin makes numpy divide 0 by 0. */
  predicate QueryScorable(bins: seq<(NewsId, seq<bool>)>, newsID: NewsId) {
    Lookup(bins, newsID).Some? ==> Ones(Lookup(bins, newsID).value) > 0
  }

  /** `match(newsID, count)`: `KeyError` for an unknown document, else the
      `count` best candidates, best first. */
  function MatchSpec(bins: seq<(NewsId, seq<bool>)>, newsID: NewsId, count: int): Result<seq<(NewsId, real)>>
    requires QueryScorable(bins, newsID)
  {
    match Lookup(bins, newsID)
    case None => Err(KeyError)
    case Some(q) => TopMatches(bins, q, count)
  }

  /** `match` fails exactly for an unknown document or bins of unequal length. */
  lemma MatchError(bins: seq<(NewsId, seq<bool>)>, newsID: NewsId, count: int)
    requires QueryScorable(bins, newsID)
    ensures MatchSpec(bins, newsID, count).Err? <==>
      newsID !in Firsts(bins) || exists i :: 0 <= i < |bins| && |bins[i].1| != |Lookup(bins, newsID).value|
    ensures newsID !in Firsts(bins) ==> MatchSpec(bins, newsID, count) == Err(KeyError)
  {
    if newsID in Firsts(bins) {
      TopMatchesError(bins, Lookup(bins, newsID).value, count);
    }
  }

  /** `match` returns at most `count` entries, best first. */
  lemma MatchSorted(bins: seq<(NewsId, seq<bool>)>, newsID: NewsId, count: int)
    requires QueryScorable(bins, newsID) && MatchSpec(bins, newsID, count).Ok?
    ensures count >= 0 ==> |MatchSpec(bins, newsID, count).value| <= count
    ensures Sorted(MatchSpec(bins, newsID, count).value, PairKey, true)
  {
    TopMatchesSorted(bins, Lookup(bins, newsID).value, count);
  }

  /** Every entry `match` returns is a document of the index with its
      Tanimoto score, which is neither 0 nor 1; the query document itself is
      never among them. */
  lemma MatchEntry(bins: seq<(NewsId, seq<bool>)>, newsID: NewsId, count: int, p: (NewsId, real))
    requires Distinct(Firsts(bins)) && QueryScorable(bins, newsID)
    requires MatchSpec(bins, newsID, count).Ok? && p in MatchSpec(bins, newsID, count).value
    ensures 0.0 < p.1 < 1.0 && p.0 != newsID
    ensures exists i ::
      0 <= i < |bins| && bins[i].0 == p.0 && |bins[i].1| == |Lookup(bins, newsID).value| &&
      p.1 == Tanimoto(Lookup(bins, newsID).value, bins[i].1)
  {
    var q := Lookup(bins, newsID).value;
    TopMatchesEntry(bins, q, count, p);
    var i :| 0 <= i < |bins| && bins[i].0 == p.0 && |bins[i].1| == |q| && p.1 == Tanimoto(q, bins[i].1);
    if p.0 == newsID {
      LookupDistinct(bins, newsID, i);
      TanimotoOneIff(q, q);
    }
  }

  /** Top-k: a related document left out scores no higher than any document
      returned. */
  lemma MatchTop(bins: seq<(NewsId, seq<bool>)>, newsID: NewsId, count: int, i: nat)
    requires QueryScorable(bins, newsID) && MatchSpec(bins, newsID, count).Ok? && i < |bins|
    requires Related(Tanimoto(Lookup(bins, newsID).value, bins[i].1))
    requires (bins[i].0, Tanimoto(Lookup(bins, newsID).value, bins[i].1)) !in MatchSpec(bins, newsID, count).value
    ensures forall j :: 0 <= j < |MatchSpec(bins, newsID, count).value| ==>
      MatchSpec(bins, newsID, count).value[j].1 >= Tanimoto(Lookup(bins, newsID).value, bins[i].1)
  {
    TopMatchesLeftOut(bins, Lookup(bins, newsID).value, count, i);
  }

  // ---------------------------------------------------------------------
  // the TFIDF object

  class TFIDF {
    var stopWords: set<string>
    var fragments: seq<(NewsId, seq<string>)>
    var monoWords: set<string>
    var idfDict: map<string, real>
    var bins: seq<(NewsId, seq<bool>)>

    /** The dicts the object holds are keyed by distinct news IDs. */
    predicate Valid()
      reads this
    {
      Distinct(Firsts(fragments)) && Distinct(Firsts(bins))
    }

    /** `TFIDF()`: nothing is loaded yet. */
    constructor ()
      ensures Valid()
      ensures stopWords == {} && fragments == [] && monoWords == {} && idfDict == map[] && bins == []
    {
      stopWords, fragments, monoWords, idfDict, bins := {}, [], {}, map[], [];
    }

    /** `init_for_update`: the stop-word list, loaded from its file. */
    method InitForUpdate(stop: set<string>)
      modifies this
      ensures stopWords == stop
      ensures fragments == old(fragments) && monoWords == old(monoWords) && idfDict == old(idfDict) && bins == old(bins)
    {
      stopWords := stop;
    }

    /** `init_for_match`: the bins, loaded from their file. */
    method InitForMatch(stored: seq<(NewsId, seq<bool>)>)
      requires Distinct(Firsts(stored)) && Distinct(Firsts(fragments))
      modifies this
      ensures Valid() && bins == stored
      ensures stopWords == old(stopWords) && fragments == old(fragments) && monoWords == old(monoWords) && idfDict == old(idfDict)
    {
      bins := stored;
    }

    /** `lcut(news)` over the segmenter's tokens. */
    method Cut(tokens: seq<string>) returns (words: seq<string>)
      ensures words == CutSpec(tokens, stopWords)
    {
      words := [];
      var i := 0;
      while i < |tokens|
        invariant 0 <= i <= |tokens|
        invariant words == CutSpec(tokens[..i], stopWords)
      {
        var word := tokens[i];
        assert tokens[..i + 1] == tokens[..i] + [word];
        CutAppend(tokens[..i], [word], stopWords);
        CutSingle(word, stopWords);
        if !UtilFuncs.IsChinese(word) || |Strip(word)| <= 1 || word in stopWords {
        } else {
          KeptIsStripped(word, stopWords);
          words := words + [Strip(word)];
        }
        i := i + 1;
      }
      assert tokens[..i] == tokens;
    }

    /** `get_fragments`: `lcut` of every news text, keyed by news ID. */
    method GetFragments(contents: seq<(NewsId, seq<string>)>) returns (cut: seq<(NewsId, seq<string>)>)
      ensures cut == CutAll(contents, stopWords)
    {
      cut := [];
      var i := 0;
      while i < |contents|
        invariant 0 <= i <= |contents| && |cut| == i
        invariant forall j :: 0 <= j < i ==> cut[j] == (contents[j].0, CutSpec(contents[j].1, stopWords))
      {
        var words := Cut(contents[i].1);
        cut := cut + [(contents[i].0, words)];
        i := i + 1;
      }
    }

    /** `update`: cut every news text, build the idf table and the mono
        words from the fragments, then the keywords, the vocabulary and the
        bins, which are returned as the files `get_bins` writes. */
    method Update(contents: seq<(NewsId, seq<string>)>, idf: (nat, nat) -> real)
      returns (keyWords: seq<(NewsId, seq<string>)>, vocabulary: seq<string>, newBins: seq<(NewsId, seq<bool>)>)
      requires Distinct(Firsts(contents)) && Distinct(Firsts(bins))
      modifies this
      ensures Valid()
      ensures fragments == CutAll(contents, stopWords)
      ensures monoWords == MonoWords(fragments) && idfDict == IdfDict(fragments, idf)
      ensures KeyWordsOf(fragments, monoWords, idfDict) == Ok(keyWords)
      ensures vocabulary == Vocabulary(keyWords) && newBins == BinsOf(keyWords, vocabulary)
      ensures Distinct(Firsts(newBins)) && Firsts(newBins) == Firsts(contents)
      ensures stopWords == old(stopWords) && bins == old(bins)
    {
      var cut := GetFragments(contents);
      CutAllKeys(contents, stopWords);
      fragments := cut;
      idfDict := IdfDict(fragments, idf);
      monoWords := MonoWords(fragments);
      KeyWordsOfDefined(fragments, monoWords, idfDict);
      keyWords := KeyWordsOf(fragments, monoWords, idfDict).value;
      vocabulary := Vocabulary(keyWords);
      newBins := BinsOf(keyWords, vocabulary);
      assert Firsts(newBins) == Firsts(contents);
    }

    /** `match(newsID, count)`: score the query bin against every bin. */
    method Match(newsID: NewsId, count: int) returns (r: Result<seq<(NewsId, real)>>)
      requires QueryScorable(bins, newsID)
      ensures r == MatchSpec(bins, newsID, count)
    {
      var found := Lookup(bins, newsID);
      if found.None? {
        return Err(KeyError);
      }
      var thisBin := found.value;
      var tcs :- ScoreAll(thisBin, bins);
      r := Ok(TakePy(SortBy(tcs, PairKey, true), count));
    }
  }
}
