/** The word-frequency analyser of `app/lib/frequency.py`, the revision of
    the recommender that came before the tf-idf one: the segmented news texts
    are filtered, every word's total and per-document frequency is counted in
    the `details` dict, rare and non-Chinese words are dropped, and each
    document becomes a 0/1 vector over a word list; `get_tops` ranks the other
    documents by their Tanimoto coefficient. */
module Frequency {
  import opened Wrappers
  import opened Text
  import opened Collections
  import opened Sorting
  import opened Similarity
  import UtilFuncs

  type NewsId = int

  // ---------------------------------------------------------------------
  // _cut_words

  /** The token filter of `_cut_words`: not a stop word, not whitespace only
      and not digits only (the empty token passes both tests, as in Python). */
  predicate KeepFrag(frag: string, stopWords: set<string>) {
    frag !in stopWords && !IsSpaceStr(frag) && !IsDigitStr(frag)
  }

  /** `[frag for frag in frags if ...]`. */
  function CutWordsOf(frags: seq<string>, stopWords: set<string>): seq<string> {
    if frags == [] then []
    else
      var init := CutWordsOf(frags[..|frags| - 1], stopWords);
      if KeepFrag(frags[|frags| - 1], stopWords) then init + [frags[|frags| - 1]] else init
  }

  /** The filter keeps every occurrence of a token it accepts and none of a
      token it rejects, so it also keeps their order. */
  lemma {:induction false} CutWordsCount(frags: seq<string>, stopWords: set<string>, w: string)
    ensures Count(CutWordsOf(frags, stopWords), w) == if KeepFrag(w, stopWords) then Count(frags, w) else 0
  {
    if frags != [] {
      var init := frags[..|frags| - 1];
      var last := frags[|frags| - 1];
      assert frags == init + [last];
      CutWordsCount(init, stopWords, w);
      CountSnoc(init, last, w);
      CountSnoc(CutWordsOf(init, stopWords), last, w);
    }
  }

  /** A word of the output is a token of the input that passes the filter. */
  lemma CutWordsKeeps(frags: seq<string>, stopWords: set<string>, w: string)
    ensures w in CutWordsOf(frags, stopWords) <==> w in frags && KeepFrag(w, stopWords)
  {
    CutWordsCount(frags, stopWords, w);
  }

  /** The segmented texts, keyed by news ID, after the filter. */
  function WordFragsOf(news: seq<(NewsId, seq<string>)>, stopWords: set<string>): (r: seq<(NewsId, seq<string>)>)
    ensures |r| == |news|
    ensures forall i :: 0 <= i < |news| ==> r[i] == (news[i].0, CutWordsOf(news[i].1, stopWords))
  {
    seq(|news|, i requires 0 <= i < |news| => (news[i].0, CutWordsOf(news[i].1, stopWords)))
  }

  // ---------------------------------------------------------------------
  // Counting over all documents

  /** Every token of every document, documents in dict order. */
  function AllTokens(wordFrags: seq<(NewsId, seq<string>)>): seq<string> {
    if wordFrags == [] then [] else AllTokens(wordFrags[..|wordFrags| - 1]) + wordFrags[|wordFrags| - 1].1
  }

  /** The number of documents that contain `w`. */
  function DocCount(wordFrags: seq<(NewsId, seq<string>)>, w: string): nat {
    if wordFrags == [] then 0
    else DocCount(wordFrags[..|wordFrags| - 1], w) + (if w in wordFrags[|wordFrags| - 1].1 then 1 else 0)
  }

  /** A word is counted at most once per document, so its document count is
      between 1 and the number of documents exactly when it occurs somewhere,
      and never above its number of occurrences. */
  lemma {:induction false} DocCountBounds(wordFrags: seq<(NewsId, seq<string>)>, w: string)
    ensures DocCount(wordFrags, w) <= |wordFrags|
    ensures DocCount(wordFrags, w) <= Count(AllTokens(wordFrags), w)
    ensures DocCount(wordFrags, w) > 0 <==> w in AllTokens(wordFrags)
  {
    if wordFrags != [] {
      var init := wordFrags[..|wordFrags| - 1];
      var doc := wordFrags[|wordFrags| - 1].1;
      DocCountBounds(init, w);
      CountAppend(AllTokens(init), doc, w);
    }
  }

  /** `d.get(w, 0)`. */
  function Get(d: map<string, nat>, w: string): nat {
    if w in d then d[w] else 0
  }

  /** The keys of a dict after `d[w] = ...` for each `w` of `s` in turn: the
      old keys, then each new word at its first occurrence. */
  function AddKeys(keys: seq<string>, s: seq<string>): (r: seq<string>)
    ensures forall w :: w in r <==> w in keys || w in s
    ensures |keys| <= |r| && r[..|keys|] == keys
    ensures Distinct(keys) ==> Distinct(r)
  {
    if s == [] then keys
    else
      var k := AddKeys(keys, s[..|s| - 1]);
      assert s == s[..|s| - 1] + [s[|s| - 1]];
      if s[|s| - 1] in k then k else k + [s[|s| - 1]]
  }

  /** The counts `d` after `d[w] = d.get(w, 0) + 1` for each `w` of `s`. */
  function Tally(d: map<string, nat>, s: seq<string>): (r: map<string, nat>)
    ensures forall w :: w in r <==> w in d || w in s
  {
    map w | w in d.Keys + (set x | x in s) :: Get(d, w) + Count(s, w)
  }

  lemma TallySnoc(d: map<string, nat>, s: seq<string>, x: string)
    ensures Tally(d, s + [x]) == Tally(d, s)[x := Get(Tally(d, s), x) + 1]
  {
    var l := Tally(d, s + [x]);
    var r := Tally(d, s)[x := Get(Tally(d, s), x) + 1];
    forall w | w in l ensures w in r && l[w] == r[w] {
      CountSnoc(s, x, w);
    }
    assert l.Keys == r.Keys;
  }

  /** The entries of `d` whose key is still in `keys`. */
  function Restrict(d: map<string, nat>, keys: seq<string>): (r: map<string, nat>)
    ensures forall w :: w in r <==> w in d && w in keys
    ensures forall w :: w in r ==> r[w] == d[w]
  {
    map w | w in d.Keys && w in keys :: d[w]
  }

  /** The `details` dict: its keys in insertion order and, per word, the
      `total_freq` and `occur_freq` entries it may carry. */
  datatype Details = Details(keys: seq<string>, totalFreq: map<string, nat>, occurFreq: map<string, nat>)

  /** The keys are distinct and every count belongs to one of them. */
  predicate WellFormed(d: Details) {
    Distinct(d.keys) && (forall w :: w in d.totalFreq ==> w in d.keys) && (forall w :: w in d.occurFreq ==> w in d.keys)
  }

  /** `details.pop(w)`. */
  function Pop(d: Details, w: string): (r: Details)
    ensures forall x :: x in r.keys <==> x in d.keys && x != w
  {
    Details(Remove(d.keys, w), d.totalFreq - {w}, d.occurFreq - {w})
  }

  /** `details` with only the keys `keys` left, in that order. */
  function KeepOnly(d: Details, keys: seq<string>): (r: Details)
    ensures r.keys == keys
  {
    Details(keys, Restrict(d.totalFreq, keys), Restrict(d.occurFreq, keys))
  }

  /** Part way through a removal loop over a snapshot of the keys: the keys
      seen so far are filtered, the rest are untouched. */
  function Shape(snapshot: seq<string>, m: nat, keep: string -> bool): seq<string>
    requires m <= |snapshot|
  {
    Filter(snapshot[..m], keep) + snapshot[m..]
  }

  /** `details` after the counting loops of `get_total_freq`. */
  function TotalCounted(d: Details, wordFrags: seq<(NewsId, seq<string>)>): Details {
    Details(AddKeys(d.keys, AllTokens(wordFrags)), Tally(d.totalFreq, AllTokens(wordFrags)), d.occurFreq)
  }

  // ---------------------------------------------------------------------
  // get_total_freq: which words survive

  /** `string.punctuation`. */
  const Punctuation: string := "!\"#$%&'()*+,-./:;<=>?@[\\]^_`{|}~"

  /** Python's `w in s` on strings: `w` is a contiguous piece of `s`. */
  predicate IsSubstring(w: string, s: string)
    decreases |s|
  {
    IsPrefix(w, s) || (s != [] && IsSubstring(w, s[1..]))
  }

  /** A word `get_total_freq` keeps: not a piece of `string.punctuation`
      and Chinese throughout. */
  predicate KeptWord(w: string) {
    !IsSubstring(w, Punctuation) && UtilFuncs.IsChinese(w)
  }

  lemma {:induction false} SubstringHead(w: string, s: string)
    requires w != [] && IsSubstring(w, s)
    ensures w[0] in s
    decreases |s|
  {
    if !IsPrefix(w, s) {
      SubstringHead(w, s[1..]);
    }
  }

  lemma PunctuationAscii(k: nat)
    requires k < |Punctuation|
    ensures Punctuation[k] <= '~'
  {
  }

  /** The two removal tests together keep exactly the non-empty words made
      of CJK characters: the empty word is a piece of every string, and no
      CJK character is punctuation. */
  lemma KeptWordIff(w: string)
    ensures KeptWord(w) <==> w != [] && UtilFuncs.IsChinese(w)
  {
    if w == [] {
      assert IsPrefix(w, Punctuation);
    } else if UtilFuncs.IsChinese(w) && IsSubstring(w, Punctuation) {
      SubstringHead(w, Punctuation);
      assert UtilFuncs.IsCjk(w[0]);
      var k :| 0 <= k < |Punctuation| && Punctuation[k] == w[0];
      PunctuationAscii(k);
    }
  }

  // ---------------------------------------------------------------------
  // get_occur_freq: which words survive

  /** The occurrence counts after the counting loop of `get_occur_freq`:
      every word of `details` found in some document gains one per document. */
  function Occurrences(occur: map<string, nat>, keys: seq<string>, wordFrags: seq<(NewsId, seq<string>)>): (r: map<string, nat>)
    ensures forall w :: w in r <==> w in keys && (w in occur || DocCount(wordFrags, w) > 0)
  {
    map w | w in keys && (w in occur || DocCount(wordFrags, w) > 0) :: Get(occur, w) + DocCount(wordFrags, w)
  }

  /** The removal test of `get_occur_freq`: the word occurs in more than one
      document (its count is known when this is asked). */
  function NotOnce(occur: map<string, nat>): string -> bool {
    w => w !in occur || occur[w] != 1
  }

  /** `details` after the counting loop of `get_occur_freq`. */
  function OccurCounted(d: Details, wordFrags: seq<(NewsId, seq<string>)>): Details {
    Details(d.keys, d.totalFreq, Occurrences(d.occurFreq, d.keys, wordFrags))
  }

  /** On the analyser's own sequence (a fresh `details` counted by
      `get_total_freq`), every word has an occurrence count, so
      `get_occur_freq` raises no `KeyError`; the words it keeps occur in at
      least two documents. */
  lemma OccurAfterTotal(wordFrags: seq<(NewsId, seq<string>)>, w: string)
    requires var d := TotalCounted(Details([], map[], map[]), wordFrags);
      w in KeepOnly(d, Filter(d.keys, KeptWord)).keys
    ensures var d := TotalCounted(Details([], map[], map[]), wordFrags);
      var c := OccurCounted(KeepOnly(d, Filter(d.keys, KeptWord)), wordFrags);
      w in c.occurFreq && (NotOnce(c.occurFreq)(w) ==> DocCount(wordFrags, w) >= 2)
  {
    var d := TotalCounted(Details([], map[], map[]), wordFrags);
    var k := KeepOnly(d, Filter(d.keys, KeptWord));
    FreshTotal(wordFrags);
    DocCountBounds(wordFrags, w);
    OccurrencesAt(k.occurFreq, k.keys, wordFrags, w);
  }

  /** After `get_total_freq` on a fresh analyser, the words left are tokens
      of the documents and have no occurrence count yet. */
  lemma FreshTotal(wordFrags: seq<(NewsId, seq<string>)>)
    ensures var d := TotalCounted(Details([], map[], map[]), wordFrags);
      var k := KeepOnly(d, Filter(d.keys, KeptWord));
      k.occurFreq == map[] && forall w :: w in k.keys ==> w in AllTokens(wordFrags) && KeptWord(w)
  {
    var d := TotalCounted(Details([], map[], map[]), wordFrags);
    assert Restrict(d.occurFreq, Filter(d.keys, KeptWord)).Keys == {};
  }

  lemma OccurrencesAt(occur: map<string, nat>, keys: seq<string>, wordFrags: seq<(NewsId, seq<string>)>, w: string)
    requires w in keys && DocCount(wordFrags, w) > 0
    ensures w in Occurrences(occur, keys, wordFrags)
    ensures Occurrences(occur, keys, wordFrags)[w] == Get(occur, w) + DocCount(wordFrags, w)
  {
  }

  // ---------------------------------------------------------------------
  // get_highFreqWords

  /** `details.items()` as (word, total_freq) pairs. */
  function Items(keys: seq<string>, totalFreq: map<string, nat>): (r: seq<(string, nat)>)
    requires forall w :: w in keys ==> w in totalFreq
    ensures |r| == |keys| && forall i :: 0 <= i < |keys| ==> r[i] == (keys[i], totalFreq[keys[i]])
  {
    seq(|keys|, i requires 0 <= i < |keys| => (keys[i], totalFreq[keys[i]]))
  }

  function FreqKey(item: (string, nat)): SortKey {
    Num(item.1 as real)
  }

  /** `get_highFreqWords(top)`: the `top` most frequent words of `details`
      (a stable sort, so ties go to the word added first), as a set; the sort
      key raises `KeyError` when an entry has no total frequency. */
  function HighFreqWords(keys: seq<string>, totalFreq: map<string, nat>, top: int): (r: Result<set<string>>)
    ensures r.Err? <==> exists w :: w in keys && w !in totalFreq
    ensures r.Err? ==> r.error == KeyError
  {
    if forall w :: w in keys ==> w in totalFreq then
      var chosen := TakePy(SortBy(Items(keys, totalFreq), FreqKey, true), top);
      Ok(set p | p in chosen :: p.0)
    else Err(KeyError)
  }

  lemma {:induction false} CardFirsts(s: seq<(string, nat)>)
    ensures |set p | p in s :: p.0| <= |s|
  {
    if s != [] {
      var init := s[..|s| - 1];
      CardFirsts(init);
      assert s == init + [s[|s| - 1]];
      assert (set p | p in s :: p.0) == (set p | p in init :: p.0) + {s[|s| - 1].0};
    }
  }

  /** At most `top` words, all of them words of `details`. */
  lemma HighFreqBound(keys: seq<string>, totalFreq: map<string, nat>, top: int)
    requires HighFreqWords(keys, totalFreq, top).Ok?
    ensures top >= 0 ==> |HighFreqWords(keys, totalFreq, top).value| <= top
    ensures forall w :: w in HighFreqWords(keys, totalFreq, top).value ==> w in keys
  {
    var items := Items(keys, totalFreq);
    var chosen := TakePy(SortBy(items, FreqKey, true), top);
    assert HighFreqWords(keys, totalFreq, top).value == set p | p in chosen :: p.0;
    TopN(items, top, FreqKey, true);
    CardFirsts(chosen);
    forall p | p in chosen ensures p.0 in keys {
      TopNIn(items, top, FreqKey, true, p);
      var k :| 0 <= k < |items| && items[k] == p;
      assert keys[k] == p.0;
    }
  }

  /** Every word chosen is at least as frequent as every word left out. */
  lemma HighFreqTop(keys: seq<string>, totalFreq: map<string, nat>, top: int, w: string, v: string)
    requires HighFreqWords(keys, totalFreq, top).Ok?
    requires w in HighFreqWords(keys, totalFreq, top).value
    requires v in keys && v !in HighFreqWords(keys, totalFreq, top).value
    ensures w in totalFreq && v in totalFreq && totalFreq[w] >= totalFreq[v]
  {
    var items := Items(keys, totalFreq);
    var chosen := TakePy(SortBy(items, FreqKey, true), top);
    var p :| p in chosen && p.0 == w;
    TopNIn(items, top, FreqKey, true, p);
    var i :| 0 <= i < |chosen| && chosen[i] == p;
    var j :| 0 <= j < |keys| && keys[j] == v;
    var q := items[j];
    assert q !in chosen;
    TopNLeftOut(items, top, FreqKey, true, q);
    assert !Before(q, chosen[i], FreqKey, true);
    var k :| 0 <= k < |items| && items[k] == p;
  }

  // ---------------------------------------------------------------------
  // get_tops

  /** `get_tops(newsID, top)` over the stored word list, binary vectors and
      fragments: `KeyError` for an unknown document, else the `top` best
      candidates, best first. */
  function TopsSpec(wordsList: seq<string>, binarize: seq<(NewsId, seq<bool>)>, wordFrags: seq<(NewsId, seq<string>)>, newsID: NewsId, top: int): Result<seq<(NewsId, real)>>
    requires Lookup(wordFrags, newsID).Some? ==> Ones(Bin(Lookup(wordFrags, newsID).value, wordsList)) > 0
  {
    match Lookup(wordFrags, newsID)
    case None => Err(KeyError)
    case Some(words) => TopMatches(binarize, Bin(words, wordsList), top)
  }

  /** `get_tops` fails only for an unknown document or a stored vector of
      another length; it returns at most `top` pairs, best first, each
      scoring strictly between 0 and 1. */
  lemma TopsShape(wordsList: seq<string>, binarize: seq<(NewsId, seq<bool>)>, wordFrags: seq<(NewsId, seq<string>)>, newsID: NewsId, top: int)
    requires Lookup(wordFrags, newsID).Some? ==> Ones(Bin(Lookup(wordFrags, newsID).value, wordsList)) > 0
    ensures newsID !in Firsts(wordFrags) ==> TopsSpec(wordsList, binarize, wordFrags, newsID, top) == Err(KeyError)
    ensures TopsSpec(wordsList, binarize, wordFrags, newsID, top).Err? <==>
      newsID !in Firsts(wordFrags) || exists i :: 0 <= i < |binarize| && |binarize[i].1| != |wordsList|
    ensures TopsSpec(wordsList, binarize, wordFrags, newsID, top).Ok? ==>
      var r := TopsSpec(wordsList, binarize, wordFrags, newsID, top).value;
      (top >= 0 ==> |r| <= top) && Sorted(r, PairKey, true) && forall i :: 0 <= i < |r| ==> 0.0 < r[i].1 < 1.0
  {
    if newsID in Firsts(wordFrags) {
      var q := Bin(Lookup(wordFrags, newsID).value, wordsList);
      TopMatchesError(binarize, q, top);
      if TopMatches(binarize, q, top).Ok? {
        var r := TopMatches(binarize, q, top).value;
        TopMatchesSorted(binarize, q, top);
        forall i | 0 <= i < |r| ensures 0.0 < r[i].1 < 1.0 {
          TopMatchesEntry(binarize, q, top, r[i]);
        }
      }
    }
  }

  /** `get_tops(newsID, top)`: build the query vector, score every stored
      vector, keep the best `top`. */
  method GetTops(wordsList: seq<string>, binarize: seq<(NewsId, seq<bool>)>, wordFrags: seq<(NewsId, seq<string>)>, newsID: NewsId, top: int)
    returns (r: Result<seq<(NewsId, real)>>)
    requires Lookup(wordFrags, newsID).Some? ==> Ones(Bin(Lookup(wordFrags, newsID).value, wordsList)) > 0
    ensures r == TopsSpec(wordsList, binarize, wordFrags, newsID, top)
  {
    var found := Lookup(wordFrags, newsID);
    if found.None? {
      return Err(KeyError);
    }
    var thisBin := BuildBin(found.value, wordsList);
    var tcs :- ScoreAll(thisBin, binarize);
    r := Ok(TakePy(SortBy(tcs, PairKey, true), top));
  }

  // ---------------------------------------------------------------------
  // The analyser object

  /** `analyzer`: the stop words, the segmented texts, the `details` dict
      and the high-frequency words. */
  class Analyzer {
    var stopWords: set<string>
    var wordFrags: seq<(NewsId, seq<string>)>
    var details: Details
    var highFreqWords: set<string>

    predicate Valid()
      reads this
    {
      WellFormed(details)
    }

    /** `analyzer()`: the stop words and the cached fragments; `details`
        starts empty. */
    constructor (stop: set<string>, frags: seq<(NewsId, seq<string>)>)
      ensures Valid()
      ensures stopWords == stop && wordFrags == frags
      ensures details == Details([], map[], map[]) && highFreqWords == {}
    {
      stopWords, wordFrags := stop, frags;
      details, highFreqWords := Details([], map[], map[]), {};
    }

    /** `_cut_words(fromCache=False)`: filter the segmenter's tokens of every
        news text, keyed by news ID. */
    method CutWords(news: seq<(NewsId, seq<string>)>) returns (frags: seq<(NewsId, seq<string>)>)
      ensures frags == WordFragsOf(news, stopWords)
    {
      frags := [];
      var i := 0;
      while i < |news|
        invariant 0 <= i <= |news| && |frags| == i
        invariant forall j :: 0 <= j < i ==> frags[j] == (news[j].0, CutWordsOf(news[j].1, stopWords))
      {
        frags := frags + [(news[i].0, CutWordsOf(news[i].1, stopWords))];
        i := i + 1;
      }
    }

    /** `get_total_freq`: count every token of every document, adding new
        words at the end of `details`, then pop every word that is a piece
        of `string.punctuation` or not Chinese. */
    method GetTotalFreq()
      requires Valid()
      modifies this
      ensures Valid()
      ensures var d := TotalCounted(old(details), wordFrags);
        details == KeepOnly(d, Filter(d.keys, KeptWord))
      ensures stopWords == old(stopWords) && wordFrags == old(wordFrags) && highFreqWords == old(highFreqWords)
    {
      var ks, tf := TallyTokens(wordFrags, details.keys, details.totalFreq);
      details := PopRejected(Details(ks, tf, details.occurFreq), KeptWord);
    }

    /** `get_occur_freq`: add one per document to every word of `details`
        the document contains, then pop every word whose count is 1; a word
        with no count raises `KeyError`, after the pops before it. */
    method GetOccurFreq() returns (err: Option<PyError>)
      requires Valid()
      modifies this
      ensures Valid()
      ensures var c := OccurCounted(old(details), wordFrags);
        && (err.None? <==> forall w :: w in c.keys ==> w in c.occurFreq)
        && (err.None? ==> details == KeepOnly(c, Filter(c.keys, NotOnce(c.occurFreq))))
        && (err.Some? ==> err == Some(KeyError) && exists m ::
              0 <= m < |c.keys| && c.keys[m] !in c.occurFreq && details == KeepOnly(c, Shape(c.keys, m, NotOnce(c.occurFreq))))
      ensures stopWords == old(stopWords) && wordFrags == old(wordFrags) && highFreqWords == old(highFreqWords)
    {
      ghost var c := OccurCounted(details, wordFrags);
      var oc := CountOccurrences(wordFrags, details.keys, details.occurFreq);
      var d := Details(details.keys, details.totalFreq, oc);
      assert d == c;
      err, d := PopOnce(d);
      details := d;
    }

    /** `highFreqWords` is set by `detail_analyse` from `get_highFreqWords`. */
    method SetHighFreqWords(words: set<string>)
      modifies this
      ensures highFreqWords == words
      ensures stopWords == old(stopWords) && wordFrags == old(wordFrags) && details == old(details)
    {
      highFreqWords := words;
    }

    /** `get_detail_sum`: for every high-frequency word, the list of its
        counts in each document, in document order. */
    method GetDetailSum() returns (detailFreq: map<string, seq<nat>>)
      ensures detailFreq.Keys == highFreqWords
      ensures forall w :: w in detailFreq ==> |detailFreq[w]| == |wordFrags|
      ensures forall w, i :: w in detailFreq && 0 <= i < |wordFrags| ==> detailFreq[w][i] == Count(wordFrags[i].1, w)
    {
      detailFreq := map w | w in highFreqWords :: [];
      var i := 0;
      while i < |wordFrags|
        invariant 0 <= i <= |wordFrags|
        invariant detailFreq.Keys == highFreqWords
        invariant forall w :: w in detailFreq ==> |detailFreq[w]| == i
        invariant forall w, k :: w in detailFreq && 0 <= k < i ==> detailFreq[w][k] == Count(wordFrags[k].1, w)
      {
        var wordsFreq := CountHigh(wordFrags[i].1, highFreqWords);
        detailFreq := AppendCounts(detailFreq, wordsFreq);
        i := i + 1;
      }
    }

    /** `get_binarization(wordsList)`: one vector per document over the word
        list, entry 1 exactly for the words the document contains; the word
        list and the vectors are what the method writes to its files. */
    method GetBinarization(wordsList: seq<string>) returns (binarize: seq<(NewsId, seq<bool>)>)
      ensures binarize == BinsOf(wordFrags, wordsList)
    {
      binarize := [];
      var i := 0;
      while i < |wordFrags|
        invariant 0 <= i <= |wordFrags| && |binarize| == i
        invariant forall k :: 0 <= k < i ==> binarize[k] == (wordFrags[k].0, Bin(wordFrags[k].1, wordsList))
      {
        var b := BuildBin(wordFrags[i].1, wordsList);
        binarize := binarize + [(wordFrags[i].0, b)];
        i := i + 1;
      }
    }
  }

  /** The counting loops of `get_total_freq`, on the key list and the
      total counts of `details`. */
  method TallyTokens(wordFrags: seq<(NewsId, seq<string>)>, keys: seq<string>, totalFreq: map<string, nat>)
    returns (ks: seq<string>, tf: map<string, nat>)
    ensures ks == AddKeys(keys, AllTokens(wordFrags)) && tf == Tally(totalFreq, AllTokens(wordFrags))
  {
    ks, tf := keys, totalFreq;
    var i := 0;
    while i < |wordFrags|
      invariant 0 <= i <= |wordFrags|
      invariant ks == AddKeys(keys, AllTokens(wordFrags[..i]))
      invariant tf == Tally(totalFreq, AllTokens(wordFrags[..i]))
    {
      ks, tf := TallyWords(wordFrags[i].1, ks, tf, keys, totalFreq, AllTokens(wordFrags[..i]));
      assert wordFrags[..i + 1][..i] == wordFrags[..i];
      i := i + 1;
    }
    assert wordFrags[..i] == wordFrags;
  }

  /** The inner loop over one document's words. */
  method TallyWords(words: seq<string>, ks0: seq<string>, tf0: map<string, nat>,
                    ghost keys: seq<string>, ghost totalFreq: map<string, nat>, ghost done: seq<string>)
    returns (ks: seq<string>, tf: map<string, nat>)
    requires ks0 == AddKeys(keys, done) && tf0 == Tally(totalFreq, done)
    ensures ks == AddKeys(keys, done + words) && tf == Tally(totalFreq, done + words)
  {
    ks, tf := ks0, tf0;
    var j := 0;
    assert done + words[..j] == done;
    while j < |words|
      invariant 0 <= j <= |words|
      invariant ks == AddKeys(keys, done + words[..j])
      invariant tf == Tally(totalFreq, done + words[..j])
    {
      ks, tf := TallyWord(words[j], ks, tf, keys, totalFreq, done + words[..j]);
      PrefixSnoc(done, words, j);
      j := j + 1;
    }
    assert words[..j] == words;
  }

  /** One step of the counting loop: `details[word]` is added if new, and
      its `total_freq` goes up by one. */
  method TallyWord(word: string, ks0: seq<string>, tf0: map<string, nat>,
                   ghost keys: seq<string>, ghost totalFreq: map<string, nat>, ghost seen: seq<string>)
    returns (ks: seq<string>, tf: map<string, nat>)
    requires ks0 == AddKeys(keys, seen) && tf0 == Tally(totalFreq, seen)
    ensures ks == AddKeys(keys, seen + [word]) && tf == Tally(totalFreq, seen + [word])
  {
    TallyStep(totalFreq, seen, word, tf0);
    AddKeysStep(keys, seen, word, ks0);
    ks := if word in ks0 then ks0 else ks0 + [word];
    tf := tf0[word := Get(tf0, word) + 1];
  }

  lemma PrefixSnoc(done: seq<string>, words: seq<string>, j: nat)
    requires j < |words|
    ensures (done + words[..j]) + [words[j]] == done + words[..j + 1]
  {
    assert words[..j + 1] == words[..j] + [words[j]];
  }

  lemma TallyStep(d: map<string, nat>, s: seq<string>, x: string, tf: map<string, nat>)
    requires tf == Tally(d, s)
    ensures tf[x := Get(tf, x) + 1] == Tally(d, s + [x])
  {
    TallySnoc(d, s, x);
  }

  lemma AddKeysStep(keys: seq<string>, s: seq<string>, x: string, ks: seq<string>)
    requires ks == AddKeys(keys, s)
    ensures (if x in ks then ks else ks + [x]) == AddKeys(keys, s + [x])
  {
    assert (s + [x])[..|s|] == s;
  }


  /** The removal loop of `get_total_freq`: over a snapshot of the keys, pop
      each word the test rejects. */
  method PopRejected(d0: Details, keep: string -> bool) returns (d: Details)
    requires WellFormed(d0)
    ensures d == KeepOnly(d0, Filter(d0.keys, keep)) && WellFormed(d)
  {
    var snapshot := d0.keys;
    d := d0;
    PopStart(d0, keep);
    var m := 0;
    while m < |snapshot|
      invariant 0 <= m <= |snapshot|
      invariant d == KeepOnly(d0, Shape(snapshot, m, keep))
    {
      var word := snapshot[m];
      if !keep(word) {
        PopStep(d0, m, keep);
        d := Pop(d, word);
      } else {
        KeepKey(snapshot, m, keep);
      }
      m := m + 1;
    }
    ShapeEnd(d0, keep);
  }

  lemma PopStart(d0: Details, keep: string -> bool)
    requires WellFormed(d0)
    ensures d0 == KeepOnly(d0, Shape(d0.keys, 0, keep))
  {
    var s := d0.keys;
    assert s[..0] == [] && s[0..] == s;
    assert Shape(s, 0, keep) == s;
    RestrictAll(d0.totalFreq, s);
    RestrictAll(d0.occurFreq, s);
  }

  lemma RestrictAll(d: map<string, nat>, keys: seq<string>)
    requires forall w :: w in d ==> w in keys
    ensures Restrict(d, keys) == d
  {
    assert Restrict(d, keys).Keys == d.Keys;
  }

  /** At the end of a removal loop every key has been examined. */
  lemma ShapeEnd(d0: Details, keep: string -> bool)
    requires WellFormed(d0)
    ensures Shape(d0.keys, |d0.keys|, keep) == Filter(d0.keys, keep)
    ensures WellFormed(KeepOnly(d0, Filter(d0.keys, keep)))
  {
    var s := d0.keys;
    assert s[..|s|] == s && s[|s|..] == [];
    FilterDistinct(s, keep);
  }

  /** Part way through, the keys are still distinct. */
  lemma ShapeWellFormed(d0: Details, m: nat, keep: string -> bool)
    requires WellFormed(d0) && m <= |d0.keys|
    ensures WellFormed(KeepOnly(d0, Shape(d0.keys, m, keep)))
  {
    var s := d0.keys;
    assert Distinct(s[..m]) && Distinct(s[m..]);
    FilterDistinct(s[..m], keep);
    forall x | x in Filter(s[..m], keep) ensures x !in s[m..] {
      var i :| 0 <= i < m && s[..m][i] == x;
      forall j | 0 <= j < |s| - m ensures s[m..][j] != x {
        assert s[m..][j] == s[m + j] && s[..m][i] == s[i];
      }
    }
    DistinctConcat(Filter(s[..m], keep), s[m..]);
  }

  /** The key at position `m` is still in the dict; its count is the one
      the loop started with. */
  lemma ShapeAt(d0: Details, m: nat, keep: string -> bool)
    requires m < |d0.keys|
    ensures d0.keys[m] in Shape(d0.keys, m, keep)
  {
    var s := Filter(d0.keys[..m], keep);
    assert Shape(d0.keys, m, keep)[|s|] == d0.keys[m];
  }

  /** Popping a rejected key moves the shape one key further on. */
  lemma PopStep(d0: Details, m: nat, keep: string -> bool)
    requires WellFormed(d0) && m < |d0.keys| && !keep(d0.keys[m])
    ensures Pop(KeepOnly(d0, Shape(d0.keys, m, keep)), d0.keys[m]) == KeepOnly(d0, Shape(d0.keys, m + 1, keep))
  {
    var ks := Shape(d0.keys, m, keep);
    PopKey(d0.keys, m, keep);
    RestrictRemove(d0.totalFreq, ks, d0.keys[m]);
    RestrictRemove(d0.occurFreq, ks, d0.keys[m]);
  }

  /** The counting loop of `get_occur_freq`. */
  method CountOccurrences(wordFrags: seq<(NewsId, seq<string>)>, keys: seq<string>, occurFreq: map<string, nat>)
    returns (oc: map<string, nat>)
    requires forall w :: w in occurFreq ==> w in keys
    ensures oc == Occurrences(occurFreq, keys, wordFrags)
  {
    oc := occurFreq;
    var i := 0;
    assert wordFrags[..i] == [];
    while i < |wordFrags|
      invariant 0 <= i <= |wordFrags|
      invariant oc == Occurrences(occurFreq, keys, wordFrags[..i])
    {
      oc := BumpDocument(wordFrags[i].1, keys, oc);
      OccurrencesStep(occurFreq, keys, wordFrags, i);
      i := i + 1;
    }
    assert wordFrags[..i] == wordFrags;
  }

  /** One more document seen by `get_occur_freq`. */
  function Bump(occur: map<string, nat>, keys: seq<string>, words: seq<string>): (r: map<string, nat>)
    ensures forall w :: w in r <==> w in occur || (w in keys && w in words)
  {
    map w | w in occur.Keys + (set x | x in keys && x in words) :: Get(occur, w) + (if w in keys && w in words then 1 else 0)
  }

  lemma OccurrencesStep(occurFreq: map<string, nat>, keys: seq<string>, wordFrags: seq<(NewsId, seq<string>)>, i: nat)
    requires i < |wordFrags| && forall w :: w in occurFreq ==> w in keys
    ensures Occurrences(occurFreq, keys, wordFrags[..i + 1]) ==
      Bump(Occurrences(occurFreq, keys, wordFrags[..i]), keys, wordFrags[i].1)
  {
    assert wordFrags[..i + 1][..i] == wordFrags[..i];
  }

  /** `for word in set(words): if word in details: ...` over one document. */
  method BumpDocument(words: seq<string>, keys: seq<string>, oc0: map<string, nat>) returns (oc: map<string, nat>)
    ensures oc == Bump(oc0, keys, words)
  {
    oc := oc0;
    var todo := set w | w in words;
    while todo != {}
      invariant todo <= set w | w in words
      invariant forall w :: w in oc <==> w in oc0 || (w in keys && w in words && w !in todo)
      invariant forall w :: w in oc ==> oc[w] == Get(oc0, w) + (if w in keys && w in words && w !in todo then 1 else 0)
      decreases todo
    {
      var word :| word in todo;
      if word in keys {
        oc := oc[word := Get(oc, word) + 1];
      }
      todo := todo - {word};
    }
  }

  /** The removal loop of `get_occur_freq`: pop the words counted once;
      stop with `KeyError` at a word with no count. */
  method PopOnce(c: Details) returns (err: Option<PyError>, d: Details)
    requires WellFormed(c)
    ensures WellFormed(d)
    ensures err.None? <==> forall w :: w in c.keys ==> w in c.occurFreq
    ensures err.None? ==> d == KeepOnly(c, Filter(c.keys, NotOnce(c.occurFreq)))
    ensures err.Some? ==> err == Some(KeyError) && exists m ::
      0 <= m < |c.keys| && c.keys[m] !in c.occurFreq && d == KeepOnly(c, Shape(c.keys, m, NotOnce(c.occurFreq)))
  {
    var m;
    m, d := ScanOnce(c);
    if m < |c.keys| {
      ShapeWellFormed(c, m, NotOnce(c.occurFreq));
      err := Some(KeyError);
    } else {
      forall w | w in c.keys ensures w in c.occurFreq {
        var k :| 0 <= k < |c.keys| && c.keys[k] == w;
      }
      ShapeEnd(c, NotOnce(c.occurFreq));
      err := None;
    }
  }

  /** The loop itself: `m` is where it stopped, at the end of the keys or at
      the first key with no count. */
  method ScanOnce(c: Details) returns (m: nat, d: Details)
    requires WellFormed(c)
    ensures m <= |c.keys| && (m < |c.keys| ==> c.keys[m] !in c.occurFreq)
    ensures forall k :: 0 <= k < m ==> c.keys[k] in c.occurFreq
    ensures d == KeepOnly(c, Shape(c.keys, m, NotOnce(c.occurFreq)))
  {
    var snapshot := c.keys;
    var keep := NotOnce(c.occurFreq);
    d := c;
    PopStart(c, keep);
    m := 0;
    while m < |snapshot|
      invariant 0 <= m <= |snapshot|
      invariant forall k :: 0 <= k < m ==> snapshot[k] in c.occurFreq
      invariant d == KeepOnly(c, Shape(snapshot, m, keep))
    {
      var word := snapshot[m];
      ShapeAt(c, m, keep);
      if word !in d.occurFreq {
        return;
      }
      if d.occurFreq[word] == 1 {
        PopStep(c, m, keep);
        d := Pop(d, word);
      } else {
        KeepKey(snapshot, m, keep);
      }
      m := m + 1;
    }
  }

  /** The per-document loop of `get_detail_sum`: the count of every
      high-frequency word in `words`. */
  method CountHigh(words: seq<string>, high: set<string>) returns (wordsFreq: map<string, nat>)
    ensures wordsFreq.Keys == high
    ensures forall w :: w in wordsFreq ==> wordsFreq[w] == Count(words, w)
  {
    wordsFreq := map w | w in high :: 0;
    var j := 0;
    while j < |words|
      invariant 0 <= j <= |words|
      invariant wordsFreq.Keys == high
      invariant forall w :: w in wordsFreq ==> wordsFreq[w] == Count(words[..j], w)
    {
      CountHighStep(words, j, high, wordsFreq);
      if words[j] in high {
        wordsFreq := wordsFreq[words[j] := wordsFreq[words[j]] + 1];
      }
      j := j + 1;
    }
    assert words[..j] == words;
  }

  lemma CountHighStep(words: seq<string>, j: nat, high: set<string>, wordsFreq: map<string, nat>)
    requires j < |words| && wordsFreq.Keys == high
    requires forall w :: w in wordsFreq ==> wordsFreq[w] == Count(words[..j], w)
    ensures var n := if words[j] in high then wordsFreq[words[j] := wordsFreq[words[j]] + 1] else wordsFreq;
      n.Keys == high && forall w :: w in n ==> n[w] == Count(words[..j + 1], w)
  {
    assert words[..j + 1] == words[..j] + [words[j]];
    forall w ensures Count(words[..j + 1], w) == Count(words[..j], w) + (if words[j] == w then 1 else 0) {
      CountSnoc(words[..j], words[j], w);
    }
  }

  /** `for word, freq in wordsFreq.items(): detailFreq[word].append(freq)`. */
  method AppendCounts(detailFreq0: map<string, seq<nat>>, wordsFreq: map<string, nat>) returns (detailFreq: map<string, seq<nat>>)
    requires wordsFreq.Keys == detailFreq0.Keys
    ensures detailFreq.Keys == detailFreq0.Keys
    ensures forall w :: w in detailFreq ==> detailFreq[w] == detailFreq0[w] + [wordsFreq[w]]
  {
    detailFreq := detailFreq0;
    var todo := wordsFreq.Keys;
    while todo != {}
      invariant todo <= detailFreq0.Keys && detailFreq.Keys == detailFreq0.Keys
      invariant forall w :: w in detailFreq ==> detailFreq[w] == if w in todo then detailFreq0[w] else detailFreq0[w] + [wordsFreq[w]]
      decreases todo
    {
      var word :| word in todo;
      detailFreq := detailFreq[word := detailFreq[word] + [wordsFreq[word]]];
      todo := todo - {word};
    }
  }

  /** Keeping the key at position `m` moves the shape one key further on. */
  lemma KeepKey(snapshot: seq<string>, m: nat, keep: string -> bool)
    requires m < |snapshot| && keep(snapshot[m])
    ensures Filter(snapshot[..m], keep) + snapshot[m..] == Filter(snapshot[..m + 1], keep) + snapshot[m + 1..]
  {
    var w := snapshot[m];
    assert snapshot[m..] == [w] + snapshot[m + 1..];
    assert snapshot[..m + 1] == snapshot[..m] + [w];
    FilterAppend(snapshot[..m], [w], keep);
    assert [w][..0] == [];
  }

  /** Popping a key drops its count. */
  lemma RestrictRemove(d: map<string, nat>, keys: seq<string>, w: string)
    ensures Restrict(d, Remove(keys, w)) == Restrict(d, keys) - {w}
  {
  }

  lemma RemoveOne(w: string)
    ensures Remove([w], w) == []
  {
    assert [w][1..] == [];
  }

  /** Popping the key at position `m` of a duplicate-free snapshot from
      `Filter(snapshot[..m]) + snapshot[m..]` leaves the same shape one key
      further on. */
  lemma PopKey(snapshot: seq<string>, m: nat, keep: string -> bool)
    requires Distinct(snapshot) && m < |snapshot| && !keep(snapshot[m])
    ensures Remove(Filter(snapshot[..m], keep) + snapshot[m..], snapshot[m]) == Filter(snapshot[..m + 1], keep) + snapshot[m + 1..]
  {
    var w := snapshot[m];
    var a := Filter(snapshot[..m], keep);
    var b := snapshot[m + 1..];
    assert snapshot[m..] == [w] + b;
    assert w !in a && w !in b;
    assert Filter([w], keep) == [] by {
      assert [w][..0] == [];
    }
    calc {
      Remove(a + snapshot[m..], w);
      Remove(a + ([w] + b), w);
      { RemoveAppend(a, [w] + b, w); RemoveAbsent(a, w); }
      a + Remove([w] + b, w);
      { RemoveAppend([w], b, w); RemoveAbsent(b, w); RemoveOne(w); }
      a + ([] + b);
      { assert [] + b == b; }
      a + b;
      { assert snapshot[..m + 1] == snapshot[..m] + [w]; FilterAppend(snapshot[..m], [w], keep); }
      Filter(snapshot[..m + 1], keep) + b;
    }
  }

}
