/** The plumbing shared by the keyword searches and the recommenders: the
    query string built from the user's words, the join that gives every
    stored row the rank of the search hit at the same position once both
    lists are sorted by newsID, and the join that looks each row's score up
    by its newsID. */
module Search {
  import opened Wrappers
  import opened Text
  import opened Collections
  import opened Sorting

  // ---------------------------------------------------------------------
  // Query strings

  /** `keyword.strip().split()`: the words the user typed. */
  function Words(keyword: string): (ws: seq<string>)
    ensures forall k :: 0 <= k < |ws| ==> |ws[k]| > 0 && NoSpace(ws[k])
  {
    SplitWs(Strip(keyword))
  }

  /** `f" {op} ".join(keyword.strip().split())`. */
  function Query(keyword: string, op: string): string {
    Join(" " + op + " ", Words(keyword))
  }

  /** The user's words with the operator between each pair. */
  function Intersperse(parts: seq<string>, op: string): seq<string> {
    if |parts| <= 1 then parts else [parts[0]] + ([op] + Intersperse(parts[1..], op))
  }

  lemma {:induction false} JoinWords(parts: seq<string>, op: string)
    requires |op| > 0 && NoSpace(op)
    requires forall k :: 0 <= k < |parts| ==> |parts[k]| > 0 && NoSpace(parts[k])
    ensures SplitWs(Join(" " + op + " ", parts)) == Intersperse(parts, op)
  {
    if |parts| == 1 {
      OneWord(parts[0]);
    } else if |parts| > 1 {
      var rest := parts[1..];
      assert forall k :: 0 <= k < |rest| ==> rest[k] == parts[k + 1];
      JoinWords(rest, op);
      JoinWordsStep(parts[0], op, Join(" " + op + " ", rest));
    }
  }

  /** A single word splits into itself. */
  lemma OneWord(w: string)
    requires |w| > 0 && NoSpace(w)
    ensures SplitWs(w) == [w]
  {
    var e: string := [];
    SplitWsWord(w, e);
    assert SplitWs(e) == [] by {
      assert DropSpace(e) == [];
    }
    assert w + e == w;
    assert [w] + [] == [w];
  }

  /** One word, then the operator, then the rest of the query. */
  lemma JoinWordsStep(w: string, op: string, j: string)
    requires |w| > 0 && NoSpace(w) && |op| > 0 && NoSpace(op)
    ensures SplitWs(w + (" " + op + " ") + j) == [w] + ([op] + SplitWs(j))
  {
    SpacedConcat(w, op, j);
    SplitWsWord(w, [' '] + (op + ([' '] + j)));
    SpacedWord(op, j);
  }

  lemma SpacedConcat(w: string, op: string, j: string)
    ensures w + (" " + op + " ") + j == w + ([' '] + (op + ([' '] + j)))
  {
  }

  lemma SpacedWord(op: string, j: string)
    requires |op| > 0 && NoSpace(op)
    ensures SplitWs([' '] + (op + ([' '] + j))) == [op] + SplitWs(j)
  {
    SplitWsSpace(' ', op + ([' '] + j));
    SplitWsWord(op, [' '] + j);
    SplitWsSpace(' ', j);
  }

  /** A query read back word by word is the user's words, in order, with
      the operator between each pair; no word is lost or merged. */
  lemma QueryWords(keyword: string, op: string)
    requires |op| > 0 && NoSpace(op)
    ensures SplitWs(Query(keyword, op)) == Intersperse(Words(keyword), op)
  {
    JoinWords(Words(keyword), op);
  }

  // ---------------------------------------------------------------------
  // Joining rows with hits by position

  function ByRow<R, K>(rowId: R -> K, idKey: K -> SortKey): R -> SortKey {
    r => idKey(rowId(r))
  }

  function ByHit<K, V>(idKey: K -> SortKey): ((K, V)) -> SortKey {
    (h: (K, V)) => idKey(h.0)
  }

  function ByRank<R, V>(rankKey: V -> SortKey): ((R, V)) -> SortKey {
    (p: (R, V)) => rankKey(p.1)
  }

  /** `zip(rows, hits)`, giving each row the rank of the hit at its position. */
  function Zip<R, K, V>(rows: seq<R>, hits: seq<(K, V)>): (r: seq<(R, V)>)
    requires |rows| <= |hits|
    ensures |r| == |rows| && forall i :: 0 <= i < |rows| ==> r[i] == (rows[i], hits[i].1)
  {
    seq(|rows|, i requires 0 <= i < |rows| => (rows[i], hits[i].1))
  }

  /** Sort the rows and the hits by newsID, copy the rank of each hit to the
      row at the same position, then sort the rows by rank. A row past the
      end of the hits gets no rank and the final sort raises `KeyError`. */
  function RankJoin<R, K, V>(rows: seq<R>, hits: seq<(K, V)>, rowId: R -> K, idKey: K -> SortKey, rankKey: V -> SortKey, reverse: bool): Result<seq<(R, V)>> {
    var rs := SortBy(rows, ByRow(rowId, idKey), false);
    var hs := SortBy(hits, ByHit(idKey), false);
    if |rs| > |hs| then Err(KeyError) else Ok(SortBy(Zip(rs, hs), ByRank(rankKey), reverse))
  }

  /** The positional join as the code runs it: both sorts, then
      `for news, hit in zip(rows, hits): news.update({"rank": hit[1]})`, then
      the sort on rank, whose key raises `KeyError` on a row the zip left
      without a rank. */
  method RankJoinRows<R, K, V>(rows: seq<R>, hits: seq<(K, V)>, rowId: R -> K, idKey: K -> SortKey, rankKey: V -> SortKey, reverse: bool)
    returns (r: Result<seq<(R, V)>>)
    ensures r == RankJoin(rows, hits, rowId, idKey, rankKey, reverse)
  {
    var rs := SortBy(rows, ByRow(rowId, idKey), false);
    var hs := SortBy(hits, ByHit(idKey), false);
    var ranked: seq<(R, V)> := [];
    var i := 0;
    while i < |rs| && i < |hs|
      invariant 0 <= i <= |rs| && i <= |hs|
      invariant |ranked| == i && forall j :: 0 <= j < i ==> ranked[j] == (rs[j], hs[j].1)
    {
      ranked := ranked + [(rs[i], hs[i].1)];
      i := i + 1;
    }
    if i < |rs| {
      return Err(KeyError);
    }
    assert ranked == Zip(rs, hs);
    r := Ok(SortBy(ranked, ByRank(rankKey), reverse));
  }

  /** When the store returns exactly one row per hit, the positional join is
      correct: every row is kept, each one carries the rank of the hit with
      its own newsID, and the result is in rank order. */
  lemma RankJoinAligned<R, K, V>(rows: seq<R>, hits: seq<(K, V)>, rowId: R -> K, idKey: K -> SortKey, rankKey: V -> SortKey, reverse: bool)
    requires forall x, y :: idKey(x) == idKey(y) ==> x == y
    requires multiset(MapSeq(rowId, rows)) == multiset(Firsts(hits))
    ensures RankJoin(rows, hits, rowId, idKey, rankKey, reverse).Ok?
    ensures var r := RankJoin(rows, hits, rowId, idKey, rankKey, reverse).value;
      && Sorted(r, ByRank(rankKey), reverse)
      && multiset(Firsts(r)) == multiset(rows)
      && forall p :: p in r ==> (rowId(p.0), p.1) in hits
  {
    var rs := SortBy(rows, ByRow(rowId, idKey), false);
    var hs := SortBy(hits, ByHit(idKey), false);
    SameIdsAfterSort(rows, hits, rowId, idKey);
    var z := Zip(rs, hs);
    var r := SortBy(z, ByRank(rankKey), reverse);
    SortBySorted(z, ByRank(rankKey), reverse);
    ZipPairs(rs, hs, rowId, r);
    forall p | p in r ensures (rowId(p.0), p.1) in hits {
      assert (rowId(p.0), p.1) in multiset(hs);
    }
    assert Firsts(z) == rs;
    SortedFirsts(z, r);
  }

  /** Whatever the alignment, a successful join is in rank order and pairs
      only rows it was given. */
  lemma RankJoinFrom<R, K, V>(rows: seq<R>, hits: seq<(K, V)>, rowId: R -> K, idKey: K -> SortKey, rankKey: V -> SortKey, reverse: bool)
    requires RankJoin(rows, hits, rowId, idKey, rankKey, reverse).Ok?
    ensures var r := RankJoin(rows, hits, rowId, idKey, rankKey, reverse).value;
      && Sorted(r, ByRank(rankKey), reverse)
      && |r| == |rows|
      && forall p :: p in r ==> p.0 in rows
  {
    var rs := SortBy(rows, ByRow(rowId, idKey), false);
    var hs := SortBy(hits, ByHit(idKey), false);
    var z := Zip(rs, hs);
    var r := SortBy(z, ByRank(rankKey), reverse);
    SortBySorted(z, ByRank(rankKey), reverse);
    forall p | p in r ensures p.0 in rows {
      assert p in multiset(z);
      var i :| 0 <= i < |z| && z[i] == p;
      assert rs[i] in multiset(rows);
    }
  }

  /** After the positional join of aligned lists, and in any order, every
      pair is a hit with the row's own newsID. */
  lemma ZipPairs<R, K, V>(rs: seq<R>, hs: seq<(K, V)>, rowId: R -> K, r: seq<(R, V)>)
    requires |rs| == |hs| && forall i :: 0 <= i < |rs| ==> rowId(rs[i]) == hs[i].0
    requires multiset(r) == multiset(Zip(rs, hs))
    ensures forall p :: p in r ==> (rowId(p.0), p.1) in hs
  {
    var z := Zip(rs, hs);
    forall p | p in r ensures (rowId(p.0), p.1) in hs {
      assert p in multiset(z);
      var i :| 0 <= i < |z| && z[i] == p;
      assert (rowId(p.0), p.1) == hs[i];
    }
  }

  /** Reordering pairs reorders their first components the same way. */
  lemma SortedFirsts<A, B>(z: seq<(A, B)>, r: seq<(A, B)>)
    requires multiset(r) == multiset(z)
    ensures multiset(Firsts(r)) == multiset(Firsts(z))
  {
    MultisetMap((p: (A, B)) => p.0, r, z);
    assert Firsts(r) == MapSeq((p: (A, B)) => p.0, r);
    assert Firsts(z) == MapSeq((p: (A, B)) => p.0, z);
  }

  /** Sorted by newsID, the rows and the hits name the same newsID at every
      position. */
  lemma SameIdsAfterSort<R, K, V>(rows: seq<R>, hits: seq<(K, V)>, rowId: R -> K, idKey: K -> SortKey)
    requires forall x, y :: idKey(x) == idKey(y) ==> x == y
    requires multiset(MapSeq(rowId, rows)) == multiset(Firsts(hits))
    ensures var rs, hs := SortBy(rows, ByRow(rowId, idKey), false), SortBy(hits, ByHit(idKey), false);
      |rs| == |hs| && forall i :: 0 <= i < |rs| ==> rowId(rs[i]) == hs[i].0
  {
    var rk, hk := ByRow(rowId, idKey), ByHit(idKey);
    var rs := SortBy(rows, rk, false);
    var hs := SortBy(hits, hk, false);
    SameKeysAfterSort(rows, hits, rowId, idKey);
    assert |rs| == |Keys(rs, rk)| == |Keys(hs, hk)| == |hs|;
    forall i | 0 <= i < |rs| ensures rowId(rs[i]) == hs[i].0 {
      SameKeyAt(rs, hs, rowId, idKey, i);
    }
  }

  lemma SameKeyAt<R, K, V>(rs: seq<R>, hs: seq<(K, V)>, rowId: R -> K, idKey: K -> SortKey, i: nat)
    requires forall x, y :: idKey(x) == idKey(y) ==> x == y
    requires Keys(rs, ByRow(rowId, idKey)) == Keys(hs, ByHit(idKey)) && i < |rs|
    ensures rowId(rs[i]) == hs[i].0
  {
    KeysAt(rs, ByRow(rowId, idKey), i);
    KeysAt(hs, ByHit(idKey), i);
    assert ByRow(rowId, idKey)(rs[i]) == idKey(rowId(rs[i]));
    assert ByHit(idKey)(hs[i]) == idKey(hs[i].0);
    Injective(idKey, rowId(rs[i]), hs[i].0);
  }

  lemma Injective<K>(idKey: K -> SortKey, a: K, b: K)
    requires forall x, y :: idKey(x) == idKey(y) ==> x == y
    requires idKey(a) == idKey(b)
    ensures a == b
  {
  }

  lemma SameKeysAfterSort<R, K, V>(rows: seq<R>, hits: seq<(K, V)>, rowId: R -> K, idKey: K -> SortKey)
    requires multiset(MapSeq(rowId, rows)) == multiset(Firsts(hits))
    ensures Keys(SortBy(rows, ByRow(rowId, idKey), false), ByRow(rowId, idKey))
         == Keys(SortBy(hits, ByHit(idKey), false), ByHit(idKey))
  {
    var rk, hk := ByRow(rowId, idKey), ByHit(idKey);
    SortedKeys(rows, rk);
    SortedKeys(hits, hk);
    ComposeRow(rows, rowId, idKey);
    ComposeHit(hits, idKey);
    MultisetMap(idKey, MapSeq(rowId, rows), Firsts(hits));
    AscendingUnique(Keys(SortBy(rows, rk, false), rk), Keys(SortBy(hits, hk, false), hk));
  }

  /** The keys of a sorted list ascend and are the keys of the input. */
  lemma SortedKeys<T>(s: seq<T>, key: T -> SortKey)
    ensures Ascending(Keys(SortBy(s, key, false), key))
    ensures multiset(Keys(SortBy(s, key, false), key)) == multiset(MapSeq(key, s))
  {
    SortBySorted(s, key, false);
    SortedKeysAscending(SortBy(s, key, false), key);
    KeysSortBy(s, key, false);
    KeysMap(s, key);
  }

  lemma ComposeRow<R, K>(rows: seq<R>, rowId: R -> K, idKey: K -> SortKey)
    ensures MapSeq(ByRow(rowId, idKey), rows) == MapSeq(idKey, MapSeq(rowId, rows))
  {
  }

  lemma ComposeHit<K, V>(hits: seq<(K, V)>, idKey: K -> SortKey)
    ensures MapSeq(ByHit(idKey), hits) == MapSeq(idKey, Firsts(hits))
  {
  }

  lemma {:induction false} KeysMap<T>(s: seq<T>, key: T -> SortKey)
    ensures Keys(s, key) == MapSeq(key, s)
  {
    if s != [] {
      KeysMap(s[1..], key);
      assert MapSeq(key, s) == [key(s[0])] + MapSeq(key, s[1..]);
    }
  }

  // ---------------------------------------------------------------------
  // Joining rows with scores by newsID

  /** `news.update({"rank": ranks[news["newsID"]]})` for every row, in row
      order: `KeyError` for a row whose newsID has no score. */
  function WithRanks<R, K(==), V>(rows: seq<R>, ranks: seq<(K, V)>, rowId: R -> K): (r: Result<seq<(R, V)>>)
    ensures r.Ok? <==> forall i :: 0 <= i < |rows| ==> rowId(rows[i]) in Firsts(ranks)
    ensures r.Err? ==> r.error == KeyError
    ensures r.Ok? ==> |r.value| == |rows| && forall i :: 0 <= i < |rows| ==> r.value[i].0 == rows[i]
  {
    if forall i :: 0 <= i < |rows| ==> rowId(rows[i]) in Firsts(ranks) then
      Ok(seq(|rows|, i requires 0 <= i < |rows| => (rows[i], Lookup(ranks, rowId(rows[i])).value)))
    else Err(KeyError)
  }

  /** Each row carries the score stored under its own newsID. */
  lemma WithRanksIn<R, K, V>(rows: seq<R>, ranks: seq<(K, V)>, rowId: R -> K, i: nat)
    requires WithRanks(rows, ranks, rowId).Ok? && i < |rows|
    ensures (rowId(rows[i]), WithRanks(rows, ranks, rowId).value[i].1) in ranks
  {
    var found := Lookup(ranks, rowId(rows[i]));
    var k :| 0 <= k < |ranks| && ranks[k] == (rowId(rows[i]), found.value);
  }

  /** The loop `for news in rows: news.update({"rank": ranks[news["newsID"]]})`. */
  method AddRanks<R, K(==), V>(rows: seq<R>, ranks: seq<(K, V)>, rowId: R -> K) returns (r: Result<seq<(R, V)>>)
    ensures r == WithRanks(rows, ranks, rowId)
  {
    var ranked: seq<(R, V)> := [];
    var i := 0;
    while i < |rows|
      invariant 0 <= i <= |rows|
      invariant forall j :: 0 <= j < i ==> rowId(rows[j]) in Firsts(ranks)
      invariant |ranked| == i && forall j :: 0 <= j < i ==> ranked[j] == (rows[j], Lookup(ranks, rowId(rows[j])).value)
    {
      var found := Lookup(ranks, rowId(rows[i]));
      if found.None? {
        assert rowId(rows[i]) !in Firsts(ranks);
        return Err(KeyError);
      }
      ranked := ranked + [(rows[i], found.value)];
      i := i + 1;
    }
    assert ranked == WithRanks(rows, ranks, rowId).value;
    r := Ok(ranked);
  }

  /** The lookup join followed by a sort on the score. */
  function RankByLookup<R, K(==), V>(rows: seq<R>, ranks: seq<(K, V)>, rowId: R -> K, rankKey: V -> SortKey, reverse: bool): Result<seq<(R, V)>> {
    var ranked :- WithRanks(rows, ranks, rowId);
    Ok(SortBy(ranked, ByRank(rankKey), reverse))
  }

  /** The lookup join raises only for a row with no score; otherwise it keeps
      every row, pairs each with its own score and orders them by score. */
  lemma RankByLookupShape<R, K, V>(rows: seq<R>, ranks: seq<(K, V)>, rowId: R -> K, rankKey: V -> SortKey, reverse: bool)
    ensures RankByLookup(rows, ranks, rowId, rankKey, reverse).Ok? <==> forall i :: 0 <= i < |rows| ==> rowId(rows[i]) in Firsts(ranks)
    ensures RankByLookup(rows, ranks, rowId, rankKey, reverse).Ok? ==>
      var r := RankByLookup(rows, ranks, rowId, rankKey, reverse).value;
      && Sorted(r, ByRank(rankKey), reverse)
      && multiset(Firsts(r)) == multiset(rows)
      && forall p :: p in r ==> (rowId(p.0), p.1) in ranks
  {
    var w := WithRanks(rows, ranks, rowId);
    if w.Ok? {
      var r := SortBy(w.value, ByRank(rankKey), reverse);
      SortBySorted(w.value, ByRank(rankKey), reverse);
      forall p | p in r ensures (rowId(p.0), p.1) in ranks {
        assert p in multiset(w.value);
        var i :| 0 <= i < |w.value| && w.value[i] == p;
        WithRanksIn(rows, ranks, rowId, i);
      }
      assert Firsts(w.value) == rows;
      SortedFirsts(w.value, r);
    }
  }
}
