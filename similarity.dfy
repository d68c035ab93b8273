/** The Tanimoto coefficient of two binary "bins" (keyword-presence vectors
    over one vocabulary), `dot / (|A| + |B| - dot)`, shared by the
    recommenders. Entries that numpy holds as 0/1 are booleans here. */
module Similarity {
  import opened Wrappers
  import opened Collections
  import opened Sorting

  /** `np.sum(a)`: the number of set entries. */
  function Ones(a: seq<bool>): (n: nat)
    ensures n <= |a|
  {
    if a == [] then 0 else (if a[0] then 1 else 0) + Ones(a[1..])
  }

  /** `np.dot(a, b)`: the number of positions set in both. */
  function Dot(a: seq<bool>, b: seq<bool>): (n: nat)
    requires |a| == |b|
    ensures n <= Ones(a) && n <= Ones(b)
  {
    if a == [] then 0 else (if a[0] && b[0] then 1 else 0) + Dot(a[1..], b[1..])
  }

  /** `|A| + |B| - dot`: the number of positions set in either. */
  function Union(a: seq<bool>, b: seq<bool>): (n: nat)
    requires |a| == |b|
  {
    Ones(a) + Ones(b) - Dot(a, b)
  }

  lemma {:induction false} UnionPositive(a: seq<bool>, b: seq<bool>)
    requires |a| == |b|
    ensures Union(a, b) >= Ones(a) && Union(a, b) >= Ones(b)
    ensures Union(a, b) >= Dot(a, b)
  {
  }

  lemma Ratio(d: real, u: real)
    requires 0.0 <= d <= u && 0.0 < u
    ensures 0.0 <= d / u <= 1.0
    ensures d / u == 0.0 <==> d == 0.0
    ensures d / u == 1.0 <==> d == u
  {
    assert (d / u) * u == d;
  }

  /** The coefficient; the denominator is positive once one bin is not empty. */
  function Tanimoto(a: seq<bool>, b: seq<bool>): (tc: real)
    requires |a| == |b| && Ones(a) > 0
    ensures 0.0 <= tc <= 1.0
  {
    UnionPositive(a, b);
    var d, u := Dot(a, b) as real, Union(a, b) as real;
    Ratio(d, u);
    d / u
  }

  /** A score of 0 means the two bins share nothing. */
  lemma TanimotoZeroIff(a: seq<bool>, b: seq<bool>)
    requires |a| == |b| && Ones(a) > 0
    ensures Tanimoto(a, b) == 0.0 <==> Dot(a, b) == 0
  {
    UnionPositive(a, b);
    Ratio(Dot(a, b) as real, Union(a, b) as real);
  }

  lemma {:induction false} DotSelf(a: seq<bool>)
    ensures Dot(a, a) == Ones(a)
  {
    if a != [] { DotSelf(a[1..]); }
  }

  /** Equal dot and union means equal bins: every position set in one is set
      in the other. */
  lemma {:induction false} FullOverlapEqual(a: seq<bool>, b: seq<bool>)
    requires |a| == |b| && Dot(a, b) == Ones(a) && Dot(a, b) == Ones(b)
    ensures a == b
  {
    if a != [] {
      assert Dot(a[1..], b[1..]) <= Ones(a[1..]) && Dot(a[1..], b[1..]) <= Ones(b[1..]);
      FullOverlapEqual(a[1..], b[1..]);
      assert a == [a[0]] + a[1..] && b == [b[0]] + b[1..];
    }
  }

  /** A score of 1 means the same bin, that is the same keyword set. */
  lemma TanimotoOneIff(a: seq<bool>, b: seq<bool>)
    requires |a| == |b| && Ones(a) > 0
    ensures Tanimoto(a, b) == 1.0 <==> a == b
  {
    UnionPositive(a, b);
    Ratio(Dot(a, b) as real, Union(a, b) as real);
    if Tanimoto(a, b) == 1.0 {
      FullOverlapEqual(a, b);
    }
    if a == b {
      DotSelf(a);
    }
  }

  /** The score is symmetric. */
  lemma {:induction false} DotSymmetric(a: seq<bool>, b: seq<bool>)
    requires |a| == |b|
    ensures Dot(a, b) == Dot(b, a)
  {
    if a != [] { DotSymmetric(a[1..], b[1..]); }
  }

  /** The filter `Tc not in [0, 1]` of the recommenders. */
  predicate Related(tc: real) {
    tc != 0.0 && tc != 1.0
  }

  /** A candidate is kept exactly when it shares some but not all keywords
      with the query. */
  lemma RelatedIff(a: seq<bool>, b: seq<bool>)
    requires |a| == |b| && Ones(a) > 0
    ensures Related(Tanimoto(a, b)) <==> Dot(a, b) > 0 && a != b
  {
    TanimotoZeroIff(a, b);
    TanimotoOneIff(a, b);
  }

  /** An empty bin has no set entry. */
  lemma {:induction false} OnesZeroIff(a: seq<bool>)
    ensures Ones(a) == 0 <==> forall i :: 0 <= i < |a| ==> !a[i]
  {
    if a != [] {
      OnesZeroIff(a[1..]);
      assert forall i :: 1 <= i < |a| ==> a[i] == a[1..][i - 1];
    }
  }

  /** A zero dot product means no position is set in both. */
  lemma {:induction false} DotZeroIff(a: seq<bool>, b: seq<bool>)
    requires |a| == |b|
    ensures Dot(a, b) == 0 <==> forall i :: 0 <= i < |a| ==> !(a[i] && b[i])
  {
    if a != [] {
      DotZeroIff(a[1..], b[1..]);
      assert forall i :: 1 <= i < |a| ==> a[i] == a[1..][i - 1] && b[i] == b[1..][i - 1];
    }
  }
  /** The bin of a document over a vocabulary: entry `i` is set exactly when
      `vocabulary[i]` is among the document's words
      (`np.array([(word in words) for word in vocabulary])`). */
  function Bin(words: seq<string>, vocabulary: seq<string>): (b: seq<bool>)
    ensures |b| == |vocabulary|
    ensures forall i :: 0 <= i < |b| ==> (b[i] <==> vocabulary[i] in words)
  {
    seq(|vocabulary|, i requires 0 <= i < |vocabulary| => vocabulary[i] in words)
  }

  /** Over a vocabulary holding both keyword lists, two bins are equal
      exactly when the two documents have the same keyword set. */
  lemma BinEqualIff(k1: seq<string>, k2: seq<string>, vocabulary: seq<string>)
    requires forall w :: w in k1 ==> w in vocabulary
    requires forall w :: w in k2 ==> w in vocabulary
    ensures Bin(k1, vocabulary) == Bin(k2, vocabulary) <==> forall w :: w in k1 <==> w in k2
  {
    var b1, b2 := Bin(k1, vocabulary), Bin(k2, vocabulary);
    if b1 == b2 {
      forall w ensures w in k1 <==> w in k2 {
        if w in k1 || w in k2 {
          var i :| 0 <= i < |vocabulary| && vocabulary[i] == w;
          assert b1[i] == b2[i];
        }
      }
    }
  }

  /** Over such a vocabulary, the dot product of two bins is zero exactly
      when the documents share no keyword. */
  lemma BinDotZeroIff(k1: seq<string>, k2: seq<string>, vocabulary: seq<string>)
    requires forall w :: w in k1 ==> w in vocabulary
    ensures Dot(Bin(k1, vocabulary), Bin(k2, vocabulary)) == 0 <==> forall w :: w in k1 ==> w !in k2
  {
    var b1, b2 := Bin(k1, vocabulary), Bin(k2, vocabulary);
    DotZeroIff(b1, b2);
    if Dot(b1, b2) == 0 {
      forall w | w in k1 ensures w !in k2 {
        var i :| 0 <= i < |vocabulary| && vocabulary[i] == w;
        assert !(b1[i] && b2[i]);
      }
    }
  }

  /** A bin is empty exactly when its document has no keyword in the
      vocabulary; these are the query bins the recommenders cannot score. */
  lemma BinEmptyIff(k: seq<string>, vocabulary: seq<string>)
    requires forall w :: w in k ==> w in vocabulary
    ensures Ones(Bin(k, vocabulary)) == 0 <==> k == []
  {
    var b := Bin(k, vocabulary);
    OnesZeroIff(b);
    if k != [] {
      assert k[0] in k;
      var i :| 0 <= i < |vocabulary| && vocabulary[i] == k[0];
      assert b[i];
    }
  }

  /** The bins of all documents over one vocabulary, keyed as the documents are. */
  function BinsOf<K>(keyWords: seq<(K, seq<string>)>, vocabulary: seq<string>): (r: seq<(K, seq<bool>)>)
    ensures |r| == |keyWords|
    ensures forall i :: 0 <= i < |r| ==> r[i].0 == keyWords[i].0 && r[i].1 == Bin(keyWords[i].1, vocabulary)
  {
    seq(|keyWords|, i requires 0 <= i < |keyWords| => (keyWords[i].0, Bin(keyWords[i].1, vocabulary)))
  }

  // ---------------------------------------------------------------------
  // The candidates of a query bin

  function PairKey<K>(p: (K, real)): SortKey {
    Num(p.1)
  }

  /** The `Tcs` dict of the recommenders: every document whose bin scores neither 0 nor 1 against
      the query, with its score, in bin order; bins of another length make
      `np.dot` raise. Defined on a prefix and its last bin, as the loop
      fills it. */
  function Candidates<K>(bins: seq<(K, seq<bool>)>, q: seq<bool>): (r: Result<seq<(K, real)>>)
    requires Ones(q) > 0
    ensures r.Ok? <==> forall i :: 0 <= i < |bins| ==> |bins[i].1| == |q|
    ensures r.Err? ==> r.error == ValueError
  {
    if bins == [] then Ok([])
    else
      var last := bins[|bins| - 1];
      var init :- Candidates(bins[..|bins| - 1], q);
      if |last.1| != |q| then Err(ValueError)
      else Ok(init + CandidateOf(q, last))
  }

  /** The entry one bin contributes to `Tcs`. */
  function CandidateOf<K>(q: seq<bool>, entry: (K, seq<bool>)): seq<(K, real)>
    requires Ones(q) > 0 && |entry.1| == |q|
  {
    var tc := Tanimoto(q, entry.1);
    if Related(tc) then [(entry.0, tc)] else []
  }

  /** A candidate is a document with a related bin and carries its score. */
  lemma {:induction false} CandidatesFrom<K>(bins: seq<(K, seq<bool>)>, q: seq<bool>, p: (K, real))
    requires Ones(q) > 0 && Candidates(bins, q).Ok? && p in Candidates(bins, q).value
    ensures exists i :: 0 <= i < |bins| && bins[i].0 == p.0 && |bins[i].1| == |q| && p.1 == Tanimoto(q, bins[i].1) && Related(p.1)
  {
    var n := |bins| - 1;
    var init := Candidates(bins[..n], q).value;
    if p in CandidateOf(q, bins[n]) {
    } else {
      assert p in init;
      CandidatesFrom(bins[..n], q, p);
      var i :| 0 <= i < |bins[..n]| && bins[..n][i].0 == p.0 && |bins[..n][i].1| == |q| && p.1 == Tanimoto(q, bins[..n][i].1) && Related(p.1);
      assert bins[i] == bins[..n][i];
    }
  }

  lemma CandidatesStep<K>(bins: seq<(K, seq<bool>)>, q: seq<bool>, i: nat, tcs: seq<(K, real)>)
    requires Ones(q) > 0 && i < |bins| && Candidates(bins[..i], q) == Ok(tcs) && |bins[i].1| == |q|
    ensures Candidates(bins[..i + 1], q) == Ok(tcs + CandidateOf(q, bins[i]))
  {
    assert bins[..i + 1][..i] == bins[..i] && bins[..i + 1][i] == bins[i];
  }

  /** Every related document is a candidate. */
  lemma {:induction false} CandidatesComplete<K>(bins: seq<(K, seq<bool>)>, q: seq<bool>, i: nat)
    requires Ones(q) > 0 && Candidates(bins, q).Ok? && i < |bins|
    requires Related(Tanimoto(q, bins[i].1))
    ensures (bins[i].0, Tanimoto(q, bins[i].1)) in Candidates(bins, q).value
  {
    var n := |bins| - 1;
    if i < n {
      assert bins[..n][i] == bins[i];
      CandidatesComplete(bins[..n], q, i);
    }
  }


  // ---------------------------------------------------------------------
  // Ranking every stored bin against a query bin

  /** The ranking the recommenders share: the candidates, best score first,
      cut to Python's `[:n]`. */
  function TopMatches<K>(bins: seq<(K, seq<bool>)>, q: seq<bool>, n: int): Result<seq<(K, real)>>
    requires Ones(q) > 0
  {
    var c :- Candidates(bins, q);
    Ok(TakePy(SortBy(c, PairKey, true), n))
  }

  /** The ranking fails only when a stored bin has another length. */
  lemma TopMatchesError<K>(bins: seq<(K, seq<bool>)>, q: seq<bool>, n: int)
    requires Ones(q) > 0
    ensures TopMatches(bins, q, n).Err? <==> exists i :: 0 <= i < |bins| && |bins[i].1| != |q|
    ensures TopMatches(bins, q, n).Err? ==> TopMatches(bins, q, n).error == ValueError
  {
  }

  /** At most `n` entries, best first. */
  lemma TopMatchesSorted<K>(bins: seq<(K, seq<bool>)>, q: seq<bool>, n: int)
    requires Ones(q) > 0 && TopMatches(bins, q, n).Ok?
    ensures n >= 0 ==> |TopMatches(bins, q, n).value| <= n
    ensures Sorted(TopMatches(bins, q, n).value, PairKey, true)
  {
    TopN(Candidates(bins, q).value, n, PairKey, true);
  }

  /** Every entry is a stored document with its Tanimoto score, which is
      strictly between 0 and 1. */
  lemma TopMatchesEntry<K>(bins: seq<(K, seq<bool>)>, q: seq<bool>, n: int, p: (K, real))
    requires Ones(q) > 0 && TopMatches(bins, q, n).Ok? && p in TopMatches(bins, q, n).value
    ensures 0.0 < p.1 < 1.0
    ensures exists i :: 0 <= i < |bins| && bins[i].0 == p.0 && |bins[i].1| == |q| && p.1 == Tanimoto(q, bins[i].1)
  {
    TopNIn(Candidates(bins, q).value, n, PairKey, true, p);
    CandidatesFrom(bins, q, p);
  }

  /** Top-n: a related document left out scores no higher than any entry. */
  lemma TopMatchesLeftOut<K>(bins: seq<(K, seq<bool>)>, q: seq<bool>, n: int, i: nat)
    requires Ones(q) > 0 && TopMatches(bins, q, n).Ok? && i < |bins|
    requires Related(Tanimoto(q, bins[i].1))
    requires (bins[i].0, Tanimoto(q, bins[i].1)) !in TopMatches(bins, q, n).value
    ensures forall j :: 0 <= j < |TopMatches(bins, q, n).value| ==> TopMatches(bins, q, n).value[j].1 >= Tanimoto(q, bins[i].1)
  {
    var c := Candidates(bins, q).value;
    var r := TopMatches(bins, q, n).value;
    var p := (bins[i].0, Tanimoto(q, bins[i].1));
    CandidatesComplete(bins, q, i);
    TopNLeftOut(c, n, PairKey, true, p);
    forall j | 0 <= j < |r| ensures r[j].1 >= p.1 {
      assert !Before(p, r[j], PairKey, true);
    }
  }

  /** The scoring loop: `Tc` of the query against every stored bin, kept
      when it is neither 0 nor 1. */
  method ScoreAll<K>(thisBin: seq<bool>, bins: seq<(K, seq<bool>)>) returns (r: Result<seq<(K, real)>>)
    requires Ones(thisBin) > 0
    ensures r == Candidates(bins, thisBin)
  {
    var tcs: seq<(K, real)> := [];
    var i := 0;
    while i < |bins|
      invariant 0 <= i <= |bins|
      invariant Candidates(bins[..i], thisBin) == Ok(tcs)
    {
      var otherBin := bins[i].1;
      if |otherBin| != |thisBin| {
        return Err(ValueError);
      }
      CandidatesStep(bins, thisBin, i, tcs);
      ghost var before := tcs;
      var tc := Tanimoto(thisBin, otherBin);
      if Related(tc) {
        tcs := tcs + [(bins[i].0, tc)];
      }
      assert tcs == before + CandidateOf(thisBin, bins[i]);
      i := i + 1;
    }
    assert bins[..i] == bins;
    r := Ok(tcs);
  }

  /** The bin-building loop: `newsBin` starts at 0 for every vocabulary word
      and is set to 1 for each word of the document found in the vocabulary;
      the array lists `newsBin` in vocabulary order. */
  method BuildBin(words: seq<string>, vocabulary: seq<string>) returns (b: seq<bool>)
    ensures b == Bin(words, vocabulary)
  {
    var vocabularySet := set w | w in vocabulary;
    var newsBin: map<string, bool> := map w | w in vocabularySet :: false;
    var i := 0;
    while i < |words|
      invariant 0 <= i <= |words|
      invariant newsBin.Keys == vocabularySet
      invariant forall w :: w in newsBin ==> (newsBin[w] <==> w in words[..i])
    {
      assert words[..i + 1] == words[..i] + [words[i]];
      if words[i] in vocabularySet {
        newsBin := newsBin[words[i] := true];
      }
      i := i + 1;
    }
    assert words[..i] == words;
    b := [];
    var j := 0;
    while j < |vocabulary|
      invariant 0 <= j <= |vocabulary| && |b| == j
      invariant forall k :: 0 <= k < j ==> b[k] == (vocabulary[k] in words)
    {
      b := b + [newsBin[vocabulary[j]]];
      j := j + 1;
    }
  }
}
