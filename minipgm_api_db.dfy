/** The first version of the mini-program's storage layer: a MongoDB
    collection of users, each holding a list of starred articles, and the
    SQLite article table with the keyword search and the content-similarity
    recommender built on it. */
module MinipgmApiDb {
  import opened Wrappers
  import opened Collections
  import opened Sorting
  import opened Similarity
  import opened Search
  import UtilFuncs
  import Frequency

  type NewsId = int

  // ---------------------------------------------------------------------
  // MongoDB: users and their starred articles

  /** One element of a user's `newsCol`: `{"newsID": …, "actionTime": …}`. */
  datatype Starred = Starred(newsID: NewsId, actionTime: int)

  /** `get_newsCol` answers with a list of IDs, or with `withTime` a dict. */
  datatype NewsCol = IdList(ids: seq<NewsId>) | TimeMap(times: map<NewsId, int>)

  /** The users collection after `register(openid)`: a new user starts with
      an empty `newsCol`; an existing record is left alone. */
  function Registered(users: map<string, seq<Starred>>, openid: string): (r: map<string, seq<Starred>>)
    ensures openid in r
  {
    if openid in users then users else users[openid := []]
  }

  /** Registering twice leaves exactly what registering once leaves, and
      registering never touches another user's record or an existing one. */
  lemma RegisterIdempotent(users: map<string, seq<Starred>>, openid: string)
    ensures Registered(Registered(users, openid), openid) == Registered(users, openid)
    ensures Registered(users, openid).Keys == users.Keys + {openid}
    ensures forall u :: u in users ==> Registered(users, openid)[u] == users[u]
    ensures openid !in users ==> Registered(users, openid)[openid] == []
  {
  }

  /** `star`: the entry is appended at the end. */
  function Star(col: seq<Starred>, newsID: NewsId, actionTime: int): seq<Starred> {
    col + [Starred(newsID, actionTime)]
  }

  function Other(newsID: NewsId): Starred -> bool {
    (e: Starred) => e.newsID != newsID
  }

  /** `unstar`: `[news for news in newsCol if news["newsID"] != newsID]`. */
  function Unstar(col: seq<Starred>, newsID: NewsId): seq<Starred> {
    Filter(col, Other(newsID))
  }

  /** The stored list after `update_newsCol`; an action other than "star"
      or "unstar" writes the list back unchanged. */
  function UpdatedCol(col: seq<Starred>, newsID: NewsId, action: string, actionTime: int): seq<Starred> {
    if action == "star" then Star(col, newsID, actionTime)
    else if action == "unstar" then Unstar(col, newsID)
    else col
  }

  /** Starring keeps every earlier entry, in place, and adds one at the end. */
  lemma StarKeeps(col: seq<Starred>, newsID: NewsId, actionTime: int)
    ensures |Star(col, newsID, actionTime)| == |col| + 1
    ensures Star(col, newsID, actionTime)[..|col|] == col
    ensures Star(col, newsID, actionTime)[|col|] == Starred(newsID, actionTime)
  {
  }

  /** Unstarring removes every entry with the ID and keeps every other
      entry; the survivors keep their relative order, shown here by the
      removal distributing over a split of the list. */
  lemma UnstarRemoves(col: seq<Starred>, newsID: NewsId, e: Starred)
    ensures e in Unstar(col, newsID) <==> e in col && e.newsID != newsID
    ensures forall k :: 0 <= k <= |col| ==> Unstar(col, newsID) == Unstar(col[..k], newsID) + Unstar(col[k..], newsID)
  {
    forall k | 0 <= k <= |col| ensures Unstar(col, newsID) == Unstar(col[..k], newsID) + Unstar(col[k..], newsID) {
      assert col == col[..k] + col[k..];
      FilterAppend(col[..k], col[k..], Other(newsID));
    }
  }

  /** Unstar undoes a star of the same article, together with every earlier
      star of it. */
  lemma UnstarAfterStar(col: seq<Starred>, newsID: NewsId, actionTime: int)
    ensures Unstar(Star(col, newsID, actionTime), newsID) == Unstar(col, newsID)
  {
    FilterAppend(col, [Starred(newsID, actionTime)], Other(newsID));
    assert Filter([Starred(newsID, actionTime)], Other(newsID)) == [];
  }

  /** `{news["newsID"]: news["actionTime"] for news in newsCol}`: a later
      entry for the same ID overwrites an earlier one. */
  function TimesOf(col: seq<Starred>): (r: map<NewsId, int>)
    ensures forall id :: id in r <==> exists i :: 0 <= i < |col| && col[i].newsID == id
  {
    if col == [] then map[]
    else
      var init := col[..|col| - 1];
      var last := col[|col| - 1];
      assert forall i :: 0 <= i < |init| ==> init[i] == col[i];
      TimesOf(init)[last.newsID := last.actionTime]
  }

  /** The time stored for an ID is the time of its last entry. */
  lemma {:induction false} TimesOfLast(col: seq<Starred>, i: nat)
    requires i < |col| && forall j :: i < j < |col| ==> col[j].newsID != col[i].newsID
    ensures TimesOf(col)[col[i].newsID] == col[i].actionTime
    decreases |col|
  {
    if i < |col| - 1 {
      var init := col[..|col| - 1];
      assert forall j :: i < j < |init| ==> init[j] == col[j];
      TimesOfLast(init, i);
    }
  }

  /** The users collection. */
  class MongoDB {
    var users: map<string, seq<Starred>>

    constructor ()
      ensures users == map[]
    {
      users := map[];
    }

    /** `has_user`. */
    predicate HasUser(openid: string)
      reads this
    {
      openid in users
    }

    /** `register(openid)`: add the user only when absent. */
    method Register(openid: string)
      modifies this
      ensures users == Registered(old(users), openid)
    {
      if !HasUser(openid) {
        users := users[openid := []];
      }
    }

    /** `get_newsCol(openid, withTime)`: the IDs in stored order, or with
        `withTime` the dict from ID to action time; an unknown user has no
        record and indexing `None` raises `TypeError`. */
    function GetNewsCol(openid: string, withTime: bool): (r: Result<NewsCol>)
      reads this
      ensures r.Err? <==> openid !in users
      ensures r.Err? ==> r.error == TypeError
      ensures r.Ok? && !withTime ==> (r.value.IdList? &&
        |r.value.ids| == |users[openid]| && forall i :: 0 <= i < |users[openid]| ==> r.value.ids[i] == users[openid][i].newsID)
      ensures r.Ok? && withTime ==> (r.value.TimeMap? &&
        forall id :: id in r.value.times <==> exists i :: 0 <= i < |users[openid]| && users[openid][i].newsID == id)
    {
      if openid !in users then Err(TypeError)
      else if withTime then Ok(TimeMap(TimesOf(users[openid])))
      else Ok(IdList(MapSeq((e: Starred) => e.newsID, users[openid])))
    }

    /** `update_newsCol(openid, newsID, action, actionTime)`: for an unknown
        user the `raise UnregisteredError(...)` itself raises `NameError`,
        since this file neither defines nor imports that name; nothing is
        written. */
    method UpdateNewsCol(openid: string, newsID: NewsId, action: string, actionTime: int) returns (err: Option<PyError>)
      modifies this
      ensures openid !in old(users) ==> err == Some(NameError) && users == old(users)
      ensures openid in old(users) ==> (err == None &&
        users == old(users)[openid := UpdatedCol(old(users)[openid], newsID, action, actionTime)])
    {
      if openid !in users {
        return Some(NameError);
      }
      var newsCol := users[openid];
      if action == "star" {
        newsCol := newsCol + [Starred(newsID, actionTime)];
      } else if action == "unstar" {
        newsCol := Unstar(newsCol, newsID);
      }
      users := users[openid := newsCol];
      err := None;
    }
  }

  // ---------------------------------------------------------------------
  // SQLite: the article table

  /** A row of `SELECT title, date(masssend_time) AS time, cover, content_url,
      newsID FROM newsInfo`. */
  datatype NewsRow = NewsRow(title: string, time: string, coverUrl: string, newsUrl: string, newsID: NewsId)

  function RowId(row: NewsRow): NewsId {
    row.newsID
  }

  function IdKey(id: NewsId): SortKey {
    Num(id as real)
  }

  function RankKey(rank: real): SortKey {
    Num(rank)
  }

  /** `dictToESC(row, ["title", "cover_url", "news_url"], reverse=True)`. */
  function Unescaped(row: NewsRow): NewsRow {
    row.(title := UtilFuncs.ToEscFn(row.title, true),
         coverUrl := UtilFuncs.ToEscFn(row.coverUrl, true),
         newsUrl := UtilFuncs.ToEscFn(row.newsUrl, true))
  }

  /** A row stored with its text fields escaped reads back as it was. */
  lemma UnescapedStored(row: NewsRow)
    ensures Unescaped(row.(title := UtilFuncs.Escaped(row.title),
                           coverUrl := UtilFuncs.Escaped(row.coverUrl),
                           newsUrl := UtilFuncs.Escaped(row.newsUrl))) == row
  {
    UtilFuncs.ToEscForward(row.title);
    UtilFuncs.ToEscForward(row.coverUrl);
    UtilFuncs.ToEscForward(row.newsUrl);
    UtilFuncs.ToEscRoundTrip(row.title);
    UtilFuncs.ToEscRoundTrip(row.coverUrl);
    UtilFuncs.ToEscRoundTrip(row.newsUrl);
  }

  function Wanted(ids: seq<NewsId>): NewsRow -> bool {
    (row: NewsRow) => row.newsID in ids
  }

  /** `get_news_by_ID(ids)`: the table's rows whose newsID is requested,
      read back unescaped. The table is listed in the order the query's
      `ORDER BY` asks for. */
  function NewsById(table: seq<NewsRow>, ids: seq<NewsId>): (r: seq<NewsRow>)
    ensures |r| <= |table|
    ensures forall row :: row in r ==> exists s :: s in table && s.newsID in ids && row == Unescaped(s)
  {
    var kept := Filter(table, Wanted(ids));
    var r := MapSeq(Unescaped, kept);
    assert forall row :: row in r ==> exists s :: s in table && s.newsID in ids && row == Unescaped(s) by {
      forall row | row in r ensures exists s :: s in table && s.newsID in ids && row == Unescaped(s) {
        var k :| 0 <= k < |r| && r[k] == row;
        assert kept[k] in kept;
      }
    }
    r
  }

  /** `search_news(keyword, limit)`, with the full-text index as the
      function `search` from a query string and a limit to `(newsID, rank)`
      hits: the OR query, the rows of the hits ordered by newsID, the
      positional rank join, and the hit IDs. */
  function SearchSpec(table: seq<NewsRow>, search: (string, int) -> seq<(NewsId, real)>, keyword: string, limit: int)
    : Result<(seq<(NewsRow, real)>, seq<NewsId>)>
  {
    var hits := search(Query(keyword, "OR"), limit);
    var rows := NewsById(table, Firsts(hits));
    var ranked :- RankJoin(rows, hits, RowId, IdKey, RankKey, false);
    Ok((ranked, Firsts(hits)))
  }

  method SearchNews(table: seq<NewsRow>, search: (string, int) -> seq<(NewsId, real)>, keyword: string, limit: int)
    returns (r: Result<(seq<(NewsRow, real)>, seq<NewsId>)>)
    ensures r == SearchSpec(table, search, keyword, limit)
  {
    var resultsList := search(Query(keyword, "OR"), limit);
    var newsIDs := Firsts(resultsList);
    var newsInfo := NewsById(table, newsIDs);
    var ranked :- RankJoinRows(newsInfo, resultsList, RowId, IdKey, RankKey, false);
    r := Ok((ranked, newsIDs));
  }

  lemma IdKeyInjective()
    ensures forall x, y :: IdKey(x) == IdKey(y) ==> x == y
  {
  }

  /** When the table holds exactly one row for every hit, each row of the
      answer carries the rank of its own hit, no row is lost, and the rows
      are in ascending rank. */
  lemma SearchAligned(table: seq<NewsRow>, search: (string, int) -> seq<(NewsId, real)>, keyword: string, limit: int)
    requires var hits := search(Query(keyword, "OR"), limit);
      multiset(MapSeq(RowId, NewsById(table, Firsts(hits)))) == multiset(Firsts(hits))
    ensures SearchSpec(table, search, keyword, limit).Ok?
    ensures var hits := search(Query(keyword, "OR"), limit);
      var r := SearchSpec(table, search, keyword, limit).value.0;
      && Sorted(r, ByRank(RankKey), false)
      && multiset(Firsts(r)) == multiset(NewsById(table, Firsts(hits)))
      && forall p :: p in r ==> (p.0.newsID, p.1) in hits
  {
    var hits := search(Query(keyword, "OR"), limit);
    var rows := NewsById(table, Firsts(hits));
    IdKeyInjective();
    RankJoinAligned(rows, hits, RowId, IdKey, RankKey, false);
    var j := RankJoin(rows, hits, RowId, IdKey, RankKey, false);
    assert SearchSpec(table, search, keyword, limit) == Ok((j.value, Firsts(hits)));
    forall p | p in j.value ensures (p.0.newsID, p.1) in hits {
      assert RowId(p.0) == p.0.newsID;
    }
  }

  // ---------------------------------------------------------------------
  // recommend_news and get_random_news

  /** `recommend_news(newsID, limit)`: the best `limit` related articles by
      the Tanimoto score of their keyword bins, then their rows each given
      its score as rank, highest first. */
  function RecommendSpec(table: seq<NewsRow>, wordsList: seq<string>, binarize: seq<(NewsId, seq<bool>)>,
                         wordFrags: seq<(NewsId, seq<string>)>, newsID: NewsId, limit: int)
    : Result<(seq<(NewsRow, real)>, seq<NewsId>)>
    requires Lookup(wordFrags, newsID).Some? ==> Ones(Bin(Lookup(wordFrags, newsID).value, wordsList)) > 0
  {
    var tops :- Frequency.TopsSpec(wordsList, binarize, wordFrags, newsID, limit);
    var newsInfo := NewsById(table, Firsts(tops));
    var ranked :- RankByLookup(newsInfo, tops, RowId, RankKey, true);
    Ok((ranked, Firsts(tops)))
  }

  method RecommendNews(table: seq<NewsRow>, wordsList: seq<string>, binarize: seq<(NewsId, seq<bool>)>,
                       wordFrags: seq<(NewsId, seq<string>)>, newsID: NewsId, limit: int)
    returns (r: Result<(seq<(NewsRow, real)>, seq<NewsId>)>)
    requires Lookup(wordFrags, newsID).Some? ==> Ones(Bin(Lookup(wordFrags, newsID).value, wordsList)) > 0
    ensures r == RecommendSpec(table, wordsList, binarize, wordFrags, newsID, limit)
  {
    var tops :- Frequency.GetTops(wordsList, binarize, wordFrags, newsID, limit);
    var newsIDs := Firsts(tops);
    var newsInfo := NewsById(table, newsIDs);
    var ranked :- AddRanks(newsInfo, tops, RowId);
    r := Ok((SortBy(ranked, ByRank(RankKey), true), newsIDs));
  }

  /** The recommender fails only for an unknown article or a stored bin of
      another length; otherwise it returns at most `limit` IDs, rows for
      those IDs only, each carrying its own score, which is neither 0 nor 1,
      highest score first. */
  lemma RecommendShape(table: seq<NewsRow>, wordsList: seq<string>, binarize: seq<(NewsId, seq<bool>)>,
                       wordFrags: seq<(NewsId, seq<string>)>, newsID: NewsId, limit: int)
    requires Lookup(wordFrags, newsID).Some? ==> Ones(Bin(Lookup(wordFrags, newsID).value, wordsList)) > 0
    ensures RecommendSpec(table, wordsList, binarize, wordFrags, newsID, limit).Err? <==>
      newsID !in Firsts(wordFrags) || exists i :: 0 <= i < |binarize| && |binarize[i].1| != |wordsList|
    ensures RecommendSpec(table, wordsList, binarize, wordFrags, newsID, limit).Ok? ==>
      var (rows, ids) := RecommendSpec(table, wordsList, binarize, wordFrags, newsID, limit).value;
      && (limit >= 0 ==> |ids| <= limit)
      && Sorted(rows, ByRank(RankKey), true)
      && forall p :: p in rows ==> p.0.newsID in ids && 0.0 < p.1 < 1.0
  {
    Frequency.TopsShape(wordsList, binarize, wordFrags, newsID, limit);
    var t := Frequency.TopsSpec(wordsList, binarize, wordFrags, newsID, limit);
    if t.Ok? {
      var tops := t.value;
      var newsInfo := NewsById(table, Firsts(tops));
      assert WithRanks(newsInfo, tops, RowId).Ok? by {
        forall i | 0 <= i < |newsInfo| ensures RowId(newsInfo[i]) in Firsts(tops) {
          assert newsInfo[i] in newsInfo;
        }
      }
      RankByLookupShape(newsInfo, tops, RowId, RankKey, true);
      var rows := RankByLookup(newsInfo, tops, RowId, RankKey, true).value;
      forall p | p in rows ensures p.0.newsID in Firsts(tops) && 0.0 < p.1 < 1.0 {
        assert (p.0.newsID, p.1) in tops;
        var k :| 0 <= k < |tops| && tops[k] == (p.0.newsID, p.1);
        assert Firsts(tops)[k] == p.0.newsID;
      }
    }
  }

  /** `random.randint(lo, hi)` as a function of a draw: any draw lands in
      the range, and `randint` raises `ValueError` on an empty range. */
  function RandInt(lo: int, hi: int, draw: nat): (r: Result<int>)
    ensures r.Ok? <==> lo <= hi
    ensures r.Err? ==> r.error == ValueError
    ensures r.Ok? ==> lo <= r.value <= hi
  {
    if lo <= hi then Ok(lo + draw % (hi - lo + 1)) else Err(ValueError)
  }

  /** `[random.randint(1, maxId) for i in range(count)]`, the `i`-th draw
      being `draws(i)`. */
  function RandomIds(count: int, maxId: int, draws: nat -> nat): (r: Result<seq<NewsId>>)
    decreases if count > 0 then count else 0
  {
    if count <= 0 then Ok([])
    else
      var init :- RandomIds(count - 1, maxId, draws);
      var id :- RandInt(1, maxId, draws(count - 1));
      Ok(init + [id])
  }

  /** Exactly `count` IDs (none for a count below one), each between 1 and
      the number of rows; an empty table with a positive count raises. */
  lemma {:induction false} RandomIdsShape(count: int, maxId: int, draws: nat -> nat)
    ensures RandomIds(count, maxId, draws).Err? <==> count > 0 && maxId < 1
    ensures RandomIds(count, maxId, draws).Err? ==> RandomIds(count, maxId, draws).error == ValueError
    ensures RandomIds(count, maxId, draws).Ok? ==>
      var ids := RandomIds(count, maxId, draws).value;
      |ids| == (if count > 0 then count else 0) && forall i :: 0 <= i < |ids| ==> 1 <= ids[i] <= maxId
    decreases if count > 0 then count else 0
  {
    if count > 0 {
      RandomIdsShape(count - 1, maxId, draws);
    }
  }

  lemma RandomIdsStep(i: nat, maxId: int, draws: nat -> nat, ids: seq<NewsId>)
    requires RandomIds(i, maxId, draws) == Ok(ids) && RandInt(1, maxId, draws(i)).Ok?
    ensures RandomIds(i + 1, maxId, draws) == Ok(ids + [RandInt(1, maxId, draws(i)).value])
  {
  }

  /** `get_random_news(count)`: the rows of `count` random IDs drawn over
      the table's row count, and the IDs. */
  method GetRandomNews(table: seq<NewsRow>, count: int, draws: nat -> nat) returns (r: Result<(seq<NewsRow>, seq<NewsId>)>)
    ensures r.Err? <==> RandomIds(count, |table|, draws).Err?
    ensures r.Ok? ==> r.value == (NewsById(table, RandomIds(count, |table|, draws).value), RandomIds(count, |table|, draws).value)
  {
    var maxId := |table|;
    var newsIDs: seq<NewsId> := [];
    var i := 0;
    while i < count
      invariant 0 <= i <= (if count > 0 then count else 0)
      invariant RandomIds(i, maxId, draws) == Ok(newsIDs)
      decreases count - i
    {
      var id := RandInt(1, maxId, draws(i));
      if id.Err? {
        RandomIdsShape(count, maxId, draws);
        return Err(id.error);
      }
      RandomIdsStep(i, maxId, draws, newsIDs);
      newsIDs := newsIDs + [id.value];
      i := i + 1;
    }
    assert RandomIds(count, maxId, draws) == RandomIds(i, maxId, draws);
    r := Ok((NewsById(table, newsIDs), newsIDs));
  }
}
