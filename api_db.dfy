/** The mini-program's storage layer (app/lib/minipgm_api/db.py): the
    MongoDB collections of users (their starred articles and starred
    reporters) and of reporters (their like counters), and the article
    queries over the SQLite tables: a random sample, the latest articles
    with their digests, and the keyword search joined with the index hits.
    A MongoDB collection is a map from the document's `_id`; the SQLite
    join `get_news_by_ID` reads is a sequence of rows in the order its
    `ORDER BY` gives. */
module ApiDb {
  import opened Wrappers
  import opened Collections
  import opened Sorting
  import opened Search
  import UtilClass
  import opened PyRandom

  type NewsId = UtilClass.NewsId

  // ---------------------------------------------------------------------
  // UserDB

  /** One element of `newsCol`: `{"newsID": …, "actionTime": …}`. */
  datatype Favourite = Favourite(newsID: NewsId, actionTime: int)

  /** A user document without its `_id` (the openid, which is the key). */
  datatype User = User(newsCol: seq<Favourite>, starRpt: seq<string>)

  /** `get_newsCol` answers with a list of newsIDs, or with `withTime` a
      dict from newsID to action time. */
  datatype NewsCol = IdList(ids: seq<NewsId>) | TimeMap(times: map<NewsId, int>)

  /** `init_row(openid)`: a new user has starred nothing. */
  function InitRow(): (u: User)
    ensures |u.newsCol| == 0 && |u.starRpt| == 0
  {
    User([], [])
  }

  /** The collection after `register(openid)`: a fresh record only when the
      user is absent. */
  function Registered(users: map<string, User>, openid: string): (r: map<string, User>)
    ensures openid in r
  {
    if openid in users then users else users[openid := InitRow()]
  }

  /** Registering twice is registering once; registering adds exactly the
      openid and never touches an existing record. */
  lemma RegisterIdempotent(users: map<string, User>, openid: string)
    ensures Registered(Registered(users, openid), openid) == Registered(users, openid)
    ensures Registered(users, openid).Keys == users.Keys + {openid}
    ensures forall u :: u in users ==> Registered(users, openid)[u] == users[u]
    ensures openid !in users ==> Registered(users, openid)[openid] == User([], [])
  {
  }

  function OtherNews(newsID: NewsId): Favourite -> bool {
    (e: Favourite) => e.newsID != newsID
  }

  /** The favourites after `update_newsCol`: "star" appends an entry,
      "unstar" keeps only the entries of other articles, and any other
      action writes the list back as it was. */
  function UpdatedCol(col: seq<Favourite>, newsID: NewsId, action: string, actionTime: int): seq<Favourite> {
    if action == "star" then col + [Favourite(newsID, actionTime)]
    else if action == "unstar" then Filter(col, OtherNews(newsID))
    else col
  }

  /** "star" keeps every entry in place and adds the new one at the end;
      "unstar" removes every entry of the article and keeps all others;
      other actions change nothing. */
  lemma UpdatedColActions(col: seq<Favourite>, newsID: NewsId, action: string, actionTime: int, e: Favourite)
    ensures action == "star" ==> var c := UpdatedCol(col, newsID, action, actionTime);
      |c| == |col| + 1 && c[..|col|] == col && c[|col|] == Favourite(newsID, actionTime)
    ensures action == "unstar" ==> (e in UpdatedCol(col, newsID, action, actionTime) <==> e in col && e.newsID != newsID)
    ensures action != "star" && action != "unstar" ==> UpdatedCol(col, newsID, action, actionTime) == col
  {
  }

  /** Unstarring undoes a star of the same article (and every earlier star
      of it). */
  lemma UnstarAfterStar(col: seq<Favourite>, newsID: NewsId, actionTime: int)
    ensures UpdatedCol(UpdatedCol(col, newsID, "star", actionTime), newsID, "unstar", 0)
         == UpdatedCol(col, newsID, "unstar", 0)
  {
    FilterAppend(col, [Favourite(newsID, actionTime)], OtherNews(newsID));
    assert Filter([Favourite(newsID, actionTime)], OtherNews(newsID)) == [];
  }

  /** A dict built from key/value pairs in order: a later pair for the same
      key overwrites an earlier one. */
  function DictOf<K(!new), V>(pairs: seq<(K, V)>): (r: map<K, V>)
    ensures forall k :: k in r <==> k in Firsts(pairs)
  {
    if pairs == [] then map[]
    else
      var init := pairs[..|pairs| - 1];
      var last := pairs[|pairs| - 1];
      assert forall i :: 0 <= i < |init| ==> Firsts(init)[i] == Firsts(pairs)[i];
      assert Firsts(pairs) == Firsts(init) + [last.0];
      DictOf(init)[last.0 := last.1]
  }

  /** The value kept for a key is that of its last pair. */
  lemma {:induction false} DictOfLast<K(!new), V>(pairs: seq<(K, V)>, i: nat)
    requires i < |pairs| && forall j :: i < j < |pairs| ==> pairs[j].0 != pairs[i].0
    ensures DictOf(pairs)[pairs[i].0] == pairs[i].1
    decreases |pairs|
  {
    if i < |pairs| - 1 {
      var init := pairs[..|pairs| - 1];
      assert forall j :: i < j < |init| ==> init[j] == pairs[j];
      DictOfLast(init, i);
    }
  }

  function TimePair(e: Favourite): (NewsId, int) {
    (e.newsID, e.actionTime)
  }

  /** `{news["newsID"]: news["actionTime"] for news in newsCol}`. */
  function TimesOf(col: seq<Favourite>): (r: map<NewsId, int>)
    ensures forall id :: id in r <==> exists i :: 0 <= i < |col| && col[i].newsID == id
  {
    var pairs := MapSeq(TimePair, col);
    assert forall i :: 0 <= i < |col| ==> Firsts(pairs)[i] == col[i].newsID;
    DictOf(pairs)
  }

  /** The time given for a newsID is that of its last entry. */
  lemma TimesOfLast(col: seq<Favourite>, i: nat)
    requires i < |col| && forall j :: i < j < |col| ==> col[j].newsID != col[i].newsID
    ensures TimesOf(col)[col[i].newsID] == col[i].actionTime
  {
    var pairs := MapSeq(TimePair, col);
    assert forall j :: 0 <= j < |col| ==> pairs[j] == (col[j].newsID, col[j].actionTime);
    DictOfLast(pairs, i);
  }

  /** `starRpt.remove(name)`: the first occurrence goes; a name not in the
      list raises `ValueError`. */
  function RemoveFirst(s: seq<string>, x: string): (r: Result<seq<string>>)
    ensures r.Ok? <==> x in s
    ensures r.Err? ==> r.error == ValueError
    ensures r.Ok? ==> |r.value| == |s| - 1
  {
    if s == [] then Err(ValueError)
    else if s[0] == x then Ok(s[1..])
    else
      var rest :- RemoveFirst(s[1..], x);
      Ok([s[0]] + rest)
  }

  /** The removal cuts the list at the first position holding the name. */
  lemma {:induction false} RemoveFirstAt(s: seq<string>, x: string) returns (i: nat)
    requires x in s
    ensures i < |s| && s[i] == x && forall j :: 0 <= j < i ==> s[j] != x
    ensures RemoveFirst(s, x) == Ok(s[..i] + s[i + 1..])
  {
    if s[0] == x {
      i := 0;
      assert s[..0] + s[1..] == s[1..];
    } else {
      var k := RemoveFirstAt(s[1..], x);
      i := k + 1;
      RemoveFirstStep(s, x, k);
    }
  }

  lemma RemoveFirstStep(s: seq<string>, x: string, k: nat)
    requires |s| > k + 1 && s[0] != x
    requires RemoveFirst(s[1..], x) == Ok(s[1..][..k] + s[1..][k + 1..])
    ensures RemoveFirst(s, x) == Ok(s[..k + 1] + s[k + 2..])
  {
    var t := s[1..];
    assert s[..k + 1] + s[k + 2..] == [s[0]] + (t[..k] + t[k + 1..]);
  }

  /** Removing after appending the same name gives back the list's
      contents: no other name is lost. */
  lemma RemoveAfterAppend(s: seq<string>, x: string)
    ensures RemoveFirst(s + [x], x).Ok?
    ensures multiset(RemoveFirst(s + [x], x).value) == multiset(s)
    ensures x !in s ==> RemoveFirst(s + [x], x) == Ok(s)
  {
    var t := s + [x];
    assert t[|s|] == x;
    var i := RemoveFirstAt(t, x);
    RemoveAtMultiset(s, x, i);
    if x !in s {
      RemoveAtEnd(s, x, i);
    }
  }

  lemma RemoveAtMultiset(s: seq<string>, x: string, i: nat)
    requires i <= |s| && (s + [x])[i] == x
    ensures multiset((s + [x])[..i] + (s + [x])[i + 1..]) == multiset(s)
  {
    MultisetRemoveAt(s + [x], i);
  }

  lemma RemoveAtEnd(s: seq<string>, x: string, i: nat)
    requires x !in s && i <= |s| && (s + [x])[i] == x
    ensures (s + [x])[..i] + (s + [x])[i + 1..] == s
  {
    var t := s + [x];
    assert i == |s| by {
      assert forall j :: 0 <= j < |s| ==> t[j] == s[j] && s[j] != x;
    }
    assert t[..i] == s;
  }

  /** The reporters starred after `update_starRpt`: "star" appends the name,
      "unstar" removes its first occurrence (raising `ValueError` when it is
      not there), and any other action writes the list back. */
  function UpdatedRpt(starRpt: seq<string>, name: string, action: string): Result<seq<string>> {
    if action == "star" then Ok(starRpt + [name])
    else if action == "unstar" then RemoveFirst(starRpt, name)
    else Ok(starRpt)
  }

  /** Only an "unstar" of a name not starred fails; "star" then "unstar"
      of one name leaves the same names, in the same order when the name was
      not starred before. */
  lemma UpdatedRptActions(starRpt: seq<string>, name: string, action: string)
    ensures UpdatedRpt(starRpt, name, action).Err? <==> action == "unstar" && name !in starRpt
    ensures UpdatedRpt(starRpt, name, action).Err? ==> UpdatedRpt(starRpt, name, action).error == ValueError
    ensures var once := UpdatedRpt(starRpt, name, "star").value;
      && UpdatedRpt(once, name, "unstar").Ok?
      && multiset(UpdatedRpt(once, name, "unstar").value) == multiset(starRpt)
      && (name !in starRpt ==> UpdatedRpt(once, name, "unstar") == Ok(starRpt))
  {
    RemoveAfterAppend(starRpt, name);
  }

  /** The user collection. */
  class UserDB {
    var users: map<string, User>

    constructor ()
      ensures users == map[]
    {
      users := map[];
    }

    /** `has_user(openid)`. */
    predicate HasUser(openid: string)
      reads this
    {
      openid in users
    }

    /** `register(openid)`: insert `init_row(openid)` only when absent. */
    method Register(openid: string)
      modifies this
      ensures users == Registered(old(users), openid)
    {
      if !HasUser(openid) {
        users := users[openid := InitRow()];
      }
    }

    /** `get_newsCol(openid, withTime)`: the newsIDs in stored order, or with
        `withTime` the dict from newsID to action time. An unknown user has
        no record and subscripting `None` raises `TypeError`. */
    function GetNewsCol(openid: string, withTime: bool): (r: Result<NewsCol>)
      reads this
      ensures r.Err? <==> openid !in users
      ensures r.Err? ==> r.error == TypeError
      ensures r.Ok? && !withTime ==> (r.value.IdList? &&
        |r.value.ids| == |users[openid].newsCol| &&
        forall i :: 0 <= i < |r.value.ids| ==> r.value.ids[i] == users[openid].newsCol[i].newsID)
      ensures r.Ok? && withTime ==> (r.value.TimeMap? &&
        forall id :: id in r.value.times <==> exists i :: 0 <= i < |users[openid].newsCol| && users[openid].newsCol[i].newsID == id)
    {
      if openid !in users then Err(TypeError)
      else if withTime then Ok(TimeMap(TimesOf(users[openid].newsCol)))
      else Ok(IdList(MapSeq((e: Favourite) => e.newsID, users[openid].newsCol)))
    }

    /** `update_newsCol(openid, newsID, action, actionTime)`: an unknown user
        raises `UnregisteredError` before anything is written; otherwise only
        the user's `newsCol` is replaced. */
    method UpdateNewsCol(openid: string, newsID: NewsId, action: string, actionTime: int) returns (err: Option<PyError>)
      modifies this
      ensures openid !in old(users) ==> err == Some(UnregisteredError) && users == old(users)
      ensures openid in old(users) ==> (err == None &&
        users == old(users)[openid := old(users)[openid].(newsCol := UpdatedCol(old(users)[openid].newsCol, newsID, action, actionTime))])
    {
      if openid !in users {
        return Some(UnregisteredError);
      }
      var user := users[openid];
      var newsCol := user.newsCol;
      if action == "star" {
        newsCol := newsCol + [Favourite(newsID, actionTime)];
      } else if action == "unstar" {
        newsCol := Filter(newsCol, OtherNews(newsID));
      }
      users := users[openid := user.(newsCol := newsCol)];
      err := None;
    }

    /** `get_starRpt(openid)`; an unknown user raises `TypeError`. */
    function GetStarRpt(openid: string): (r: Result<seq<string>>)
      reads this
      ensures r.Err? <==> openid !in users
      ensures r.Err? ==> r.error == TypeError
      ensures r.Ok? ==> r.value == users[openid].starRpt
    {
      if openid !in users then Err(TypeError) else Ok(users[openid].starRpt)
    }

    /** `update_starRpt(openid, name, action)`: an unknown user raises
        `UnregisteredError`, and an "unstar" of a name not starred raises
        `ValueError`, both before anything is written; otherwise only the
        user's `starRpt` is replaced. */
    method UpdateStarRpt(openid: string, name: string, action: string) returns (err: Option<PyError>)
      modifies this
      ensures openid !in old(users) ==> err == Some(UnregisteredError) && users == old(users)
      ensures openid in old(users) && UpdatedRpt(old(users)[openid].starRpt, name, action).Err? ==>
        err == Some(ValueError) && users == old(users)
      ensures openid in old(users) && UpdatedRpt(old(users)[openid].starRpt, name, action).Ok? ==> (err == None &&
        users == old(users)[openid := old(users)[openid].(starRpt := UpdatedRpt(old(users)[openid].starRpt, name, action).value)])
    {
      if openid !in users {
        return Some(UnregisteredError);
      }
      var user := users[openid];
      var starRpt := user.starRpt;
      if action == "star" {
        starRpt := starRpt + [name];
      } else if action == "unstar" {
        var removed := RemoveFirst(starRpt, name);
        if removed.Err? {
          return Some(removed.error);
        }
        starRpt := removed.value;
      }
      users := users[openid := user.(starRpt := starRpt)];
      err := None;
    }
  }

  // ---------------------------------------------------------------------
  // ReporterDB

  /** A reporter document without its `_id`, the MD5 digest of `name`. */
  datatype Reporter = Reporter(name: string, realName: string, newsIDs: seq<NewsId>, avatar: string, desc: string, like: int)

  /** `init_row(name, realName, newsIDs)`: no avatar, no description and no
      likes yet. */
  function InitReporter(name: string, realName: string, newsIDs: seq<NewsId>): (r: Reporter)
    ensures r.name == name && r.realName == realName && r.newsIDs == newsIDs
    ensures r.avatar == "" && r.desc == "" && r.like == 0
  {
    Reporter(name, realName, newsIDs, "", "", 0)
  }

  /** The like counter after `update_like`: "star" adds one, "unstar" takes
      one away, anything else leaves it. */
  function Liked(like: int, action: string): int {
    if action == "star" then like + 1
    else if action == "unstar" then like - 1
    else like
  }

  /** One action moves the counter by at most one, in the direction the
      action names; "star" and "unstar" undo each other. */
  lemma LikedActions(like: int, action: string)
    ensures action == "star" ==> Liked(like, action) == like + 1
    ensures action == "unstar" ==> Liked(like, action) == like - 1
    ensures action != "star" && action != "unstar" ==> Liked(like, action) == like
    ensures Liked(Liked(like, "star"), "unstar") == like
    ensures Liked(Liked(like, "unstar"), "star") == like
  {
  }

  /** The count after a run of actions is the starting count plus the stars
      less the unstars. */
  function LikedAll(like: int, actions: seq<string>): int
    decreases |actions|
  {
    if actions == [] then like else LikedAll(Liked(like, actions[0]), actions[1..])
  }

  lemma {:induction false} LikedAllCounts(like: int, actions: seq<string>)
    ensures LikedAll(like, actions) == like + Count(actions, "star") - Count(actions, "unstar")
    decreases |actions|
  {
    if actions != [] {
      LikedAllCounts(Liked(like, actions[0]), actions[1..]);
    }
  }

  /** The reporter collection, keyed by name (standing for the name's MD5
      digest, which `_id` holds). */
  class ReporterDB {
    var reporters: map<string, Reporter>

    constructor ()
      ensures reporters == map[]
    {
      reporters := map[];
    }

    /** `update_like(name, action)`: `get_rpt` of an unknown reporter calls
        `.items()` on `None` and raises `AttributeError`, before anything is
        written; otherwise only the reporter's `like` is replaced. */
    method UpdateLike(name: string, action: string) returns (err: Option<PyError>)
      modifies this
      ensures name !in old(reporters) ==> err == Some(AttributeError) && reporters == old(reporters)
      ensures name in old(reporters) ==> (err == None &&
        reporters == old(reporters)[name := old(reporters)[name].(like := Liked(old(reporters)[name].like, action))])
    {
      if name !in reporters {
        return Some(AttributeError);
      }
      var like := reporters[name].like;
      if action == "star" {
        like := like + 1;
      } else if action == "unstar" {
        like := like - 1;
      }
      reporters := reporters[name := reporters[name].(like := like)];
      err := None;
    }
  }

  // ---------------------------------------------------------------------
  // NewsDB.get_random_news

  type InfoRow = UtilClass.InfoRow

  function RowId(row: InfoRow): NewsId {
    row.newsID
  }

  /** No two rows share a newsID. */
  predicate UniqueIds(rows: seq<InfoRow>) {
    forall i, j :: 0 <= i < j < |rows| ==> rows[i].newsID != rows[j].newsID
  }

  /** `get_random_news(count)`: `count` newsIDs sampled from the newsID
      column, then their rows with the default `filter_in_use=True`. */
  function RandomNewsSpec(table: seq<InfoRow>, newsIDs: seq<NewsId>, count: int, draws: nat -> nat): Result<seq<InfoRow>> {
    var sample :- SampleSpec(newsIDs, count, draws);
    UtilClass.GetNewsById(table, UtilClass.ManyIds(sample), true)
  }

  method GetRandomNews(table: seq<InfoRow>, newsIDs: seq<NewsId>, count: int, draws: nat -> nat) returns (r: Result<seq<InfoRow>>)
    ensures r == RandomNewsSpec(table, newsIDs, count, draws)
  {
    var sample :- Sample(newsIDs, count, draws);
    r := UtilClass.GetNewsById(table, UtilClass.ManyIds(sample), true);
  }

  /** Filtering keeps rows with distinct newsIDs apart. */
  lemma {:induction false} FilterUniqueIds(rows: seq<InfoRow>, keep: InfoRow -> bool)
    requires UniqueIds(rows)
    ensures UniqueIds(Filter(rows, keep))
  {
    if rows != [] {
      var init, last := rows[..|rows| - 1], rows[|rows| - 1];
      assert UniqueIds(init);
      FilterUniqueIds(init, keep);
      forall y | y in Filter(init, keep) ensures y.newsID != last.newsID {
        var k :| 0 <= k < |init| && init[k] == y;
        assert rows[k] == y;
      }
    }
  }

  /** Rows with distinct newsIDs, all found in `ids`, are no more than
      `ids`. */
  lemma {:induction false} UniqueWithin(rows: seq<InfoRow>, ids: seq<NewsId>)
    requires UniqueIds(rows) && forall k :: 0 <= k < |rows| ==> rows[k].newsID in ids
    ensures |rows| <= |ids|
    decreases |rows|
  {
    if rows != [] {
      var init, x := rows[..|rows| - 1], rows[|rows| - 1].newsID;
      var i := RemoveFirstAt(ids, x);
      var rest := ids[..i] + ids[i + 1..];
      forall k | 0 <= k < |init| ensures init[k].newsID in rest {
        var y := init[k].newsID;
        assert rows[k] == init[k];
        var p :| 0 <= p < |ids| && ids[p] == y;
        assert p != i;
        if p < i {
          assert rest[p] == y;
        } else {
          assert rest[p - 1] == y;
        }
      }
      UniqueWithin(init, rest);
    }
  }

  /** The sample is `count` newsIDs of the column, distinct when the column
      is; the rows returned are exactly the in-use rows of the sampled
      newsIDs and, when the table holds each newsID once, they carry
      distinct newsIDs and are at most `count`. */
  lemma RandomNewsRows(table: seq<InfoRow>, newsIDs: seq<NewsId>, count: int, draws: nat -> nat, row: InfoRow)
    ensures RandomNewsSpec(table, newsIDs, count, draws).Err? <==> count < 0 || count > |newsIDs|
    ensures RandomNewsSpec(table, newsIDs, count, draws).Err? ==> RandomNewsSpec(table, newsIDs, count, draws).error == ValueError
    ensures RandomNewsSpec(table, newsIDs, count, draws).Ok? ==>
      var sample := SampleSpec(newsIDs, count, draws).value;
      var rows := RandomNewsSpec(table, newsIDs, count, draws).value;
      && |sample| == count
      && (forall x :: x in sample ==> x in newsIDs)
      && (Distinct(newsIDs) ==> Distinct(sample))
      && (row in rows <==> row in table && row.newsID in sample && row.inUse != 0)
      && (UniqueIds(table) ==> UniqueIds(rows) && |rows| <= count)
  {
    SampleShape(newsIDs, count, draws);
    if 0 <= count <= |newsIDs| {
      var sample := SampleSpec(newsIDs, count, draws).value;
      var arg := UtilClass.ManyIds(sample);
      UtilClass.GetNewsByIdRows(table, arg, true, row);
      var rows := RandomNewsSpec(table, newsIDs, count, draws).value;
      if UniqueIds(table) {
        GetNewsByIdUnique(table, sample);
        forall k | 0 <= k < |rows| ensures rows[k].newsID in sample {
          UtilClass.GetNewsByIdRows(table, arg, true, rows[k]);
        }
        UniqueWithin(rows, sample);
      }
    }
  }

  /** The rows of a table holding each newsID once hold each newsID once. */
  lemma GetNewsByIdUnique(table: seq<InfoRow>, ids: seq<NewsId>)
    requires UniqueIds(table)
    ensures UniqueIds(UtilClass.GetNewsById(table, UtilClass.ManyIds(ids), true).value)
  {
    var asked := Filter(table, UtilClass.Asked(ids));
    FilterUniqueIds(table, UtilClass.Asked(ids));
    FilterUniqueIds(asked, UtilClass.InUse);
  }

  // ---------------------------------------------------------------------
  // NewsDB.get_latest_news

  /** A row of `get_latest_news` once the keys other than newsID, title,
      digest, time, cover_url and news_url are dropped; `get_news_by_ID`
      selects neither a cover nor a URL, so those two never appear. */
  datatype Latest = Latest(newsID: NewsId, title: string, digest: string, time: string)

  function Projected(row: InfoRow, digest: string): Latest {
    Latest(row.newsID, row.title, digest, row.time)
  }

  /** The rows with their digests attached; a row without a digest raises
      `KeyError`. */
  function Attach(rows: seq<InfoRow>, digests: map<NewsId, string>): Result<seq<Latest>> {
    if forall i :: 0 <= i < |rows| ==> rows[i].newsID in digests then
      Ok(seq(|rows|, i requires 0 <= i < |rows| => Projected(rows[i], digests[rows[i].newsID])))
    else Err(KeyError)
  }

  lemma AttachAll(rows: seq<InfoRow>, digests: map<NewsId, string>, latest: seq<Latest>)
    requires |latest| == |rows| && forall m :: 0 <= m < |rows| ==> rows[m].newsID in digests
    requires forall m :: 0 <= m < |rows| ==> latest[m] == Projected(rows[m], digests[rows[m].newsID])
    ensures Attach(rows, digests) == Ok(latest)
  {
    assert Attach(rows, digests).value == latest;
  }

  /** The first `count` in-use rows, in the table's order (newest first
      under the default `ORDER BY`), with the digests of `newsContent`. */
  function LatestSpec(table: seq<InfoRow>, newsIDs: seq<NewsId>, digests: seq<(NewsId, string)>, count: int): Result<seq<Latest>> {
    var rows :- UtilClass.GetNewsById(table, UtilClass.ManyIds(newsIDs), true);
    Attach(TakePy(rows, count), DictOf(digests))
  }

  /** `get_latest_news(count)`: the rows of every newsID, cut to `count`,
      each given the digest stored for it in turn. */
  method GetLatestNews(table: seq<InfoRow>, newsIDs: seq<NewsId>, digests: seq<(NewsId, string)>, count: int)
    returns (r: Result<seq<Latest>>)
    ensures r == LatestSpec(table, newsIDs, digests, count)
  {
    var newsInfo :- UtilClass.GetNewsById(table, UtilClass.ManyIds(newsIDs), true);
    newsInfo := TakePy(newsInfo, count);
    var digestsDict := DictOf(digests);
    var latest: seq<Latest> := [];
    var i := 0;
    while i < |newsInfo|
      invariant 0 <= i <= |newsInfo| && |latest| == i
      invariant forall m :: 0 <= m < i ==> newsInfo[m].newsID in digestsDict
      invariant forall m :: 0 <= m < i ==> latest[m] == Projected(newsInfo[m], digestsDict[newsInfo[m].newsID])
    {
      var news := newsInfo[i];
      if news.newsID !in digestsDict {
        assert Attach(newsInfo, digestsDict) == Err(KeyError);
        return Err(KeyError);
      }
      latest := latest + [Projected(news, digestsDict[news.newsID])];
      i := i + 1;
    }
    AttachAll(newsInfo, digestsDict, latest);
    r := Ok(latest);
  }

  /** The answer fails only on a row with no digest; otherwise it is, row
      for row, the first `count` in-use rows asked for, with their newsID,
      title and time. */
  lemma LatestShape(table: seq<InfoRow>, newsIDs: seq<NewsId>, digests: seq<(NewsId, string)>, count: int)
    ensures var rows := TakePy(UtilClass.GetNewsById(table, UtilClass.ManyIds(newsIDs), true).value, count);
      var r := LatestSpec(table, newsIDs, digests, count);
      && (r.Ok? <==> forall i :: 0 <= i < |rows| ==> rows[i].newsID in Firsts(digests))
      && (r.Err? ==> r.error == KeyError)
      && (r.Ok? ==> |r.value| == |rows| && (count >= 0 ==> |r.value| <= count))
      && (r.Ok? ==> forall i :: 0 <= i < |rows| ==>
            r.value[i].newsID == rows[i].newsID && r.value[i].title == rows[i].title && r.value[i].time == rows[i].time)
      && (forall row :: row in rows ==> row in table && row.newsID in newsIDs && row.inUse != 0)
  {
    var all := UtilClass.GetNewsById(table, UtilClass.ManyIds(newsIDs), true).value;
    var rows := TakePy(all, count);
    forall row | row in rows ensures row in table && row.newsID in newsIDs && row.inUse != 0 {
      assert row in all;
      UtilClass.GetNewsByIdRows(table, UtilClass.ManyIds(newsIDs), true, row);
    }
  }

  /** Each row's digest is the one the last `newsContent` entry for its
      newsID holds. */
  lemma LatestDigest(table: seq<InfoRow>, newsIDs: seq<NewsId>, digests: seq<(NewsId, string)>, count: int, i: nat, k: nat)
    requires LatestSpec(table, newsIDs, digests, count).Ok? && i < |LatestSpec(table, newsIDs, digests, count).value|
    requires k < |digests| && digests[k].0 == LatestSpec(table, newsIDs, digests, count).value[i].newsID
    requires forall j :: k < j < |digests| ==> digests[j].0 != digests[k].0
    ensures LatestSpec(table, newsIDs, digests, count).value[i].digest == digests[k].1
  {
    DictOfLast(digests, k);
  }

  // ---------------------------------------------------------------------
  // NewsDB.search_news

  /** Each hit's newsID with its `rank`, its position in the result. */
  function Ranked(top: seq<NewsId>): (r: seq<(NewsId, nat)>)
    ensures |r| == |top| && forall i :: 0 <= i < |top| ==> r[i] == (top[i], i)
  {
    seq(|top|, i requires 0 <= i < |top| => (top[i], i))
  }

  /** `WhooshIdx.search_strings(querystring, fields, limit)`, with the
      parsing and scoring of the query as `scorer`, which lists the newsIDs
      of the matching documents in order of relevance; the index refuses a
      `limit` below 1 with `ValueError`. */
  function SearchStrings(scorer: (string, seq<string>) -> seq<NewsId>, querystring: string, fields: seq<string>, limit: int)
    : (r: Result<seq<(NewsId, nat)>>)
    ensures r.Ok? <==> limit >= 1
    ensures r.Err? ==> r.error == ValueError
    ensures r.Ok? ==> |r.value| <= limit && |r.value| <= |scorer(querystring, fields)|
    ensures r.Ok? ==> forall i :: 0 <= i < |r.value| ==> r.value[i] == (scorer(querystring, fields)[i], i)
  {
    if limit < 1 then Err(ValueError) else Ok(Ranked(TakePy(scorer(querystring, fields), limit)))
  }

  const SearchFields: seq<string> := ["title", "content"]

  function IdKey(id: NewsId): SortKey {
    Text(id)
  }

  function RankKey(rank: nat): SortKey {
    Num(rank as real)
  }

  /** `search_news(keyword, limit)` as written: the OR query over title and
      content, the in-use rows of the hits (`get_news_by_ID`'s default),
      and the positional rank join. */
  function SearchNewsSpec(table: seq<InfoRow>, scorer: (string, seq<string>) -> seq<NewsId>, keyword: string, limit: int)
    : Result<seq<(InfoRow, nat)>>
  {
    var hits :- SearchStrings(scorer, Query(keyword, "OR"), SearchFields, limit);
    var rows :- UtilClass.GetNewsById(table, UtilClass.ManyIds(Firsts(hits)), true);
    RankJoin(rows, hits, RowId, IdKey, RankKey, false)
  }

  method SearchNews(table: seq<InfoRow>, scorer: (string, seq<string>) -> seq<NewsId>, keyword: string, limit: int)
    returns (r: Result<seq<(InfoRow, nat)>>)
    ensures r == SearchNewsSpec(table, scorer, keyword, limit)
  {
    var resultsList :- SearchStrings(scorer, Query(keyword, "OR"), SearchFields, limit);
    var newsIDs := Firsts(resultsList);
    var newsInfo :- UtilClass.GetNewsById(table, UtilClass.ManyIds(newsIDs), true);
    r := RankJoinRows(newsInfo, resultsList, RowId, IdKey, RankKey, false);
  }

  lemma IdKeyInjective()
    ensures forall x, y :: IdKey(x) == IdKey(y) ==> x == y
  {
  }

  /** Whatever the rows, a search that answers lists in-use rows of the
      table, all of them hits, as many as there are such rows, in ascending
      rank; a `limit` below 1 raises `ValueError`. */
  lemma SearchNewsRows(table: seq<InfoRow>, scorer: (string, seq<string>) -> seq<NewsId>, keyword: string, limit: int)
    ensures limit < 1 ==> SearchNewsSpec(table, scorer, keyword, limit) == Err(ValueError)
    ensures var r := SearchNewsSpec(table, scorer, keyword, limit);
      r.Ok? ==>
        var hits := SearchStrings(scorer, Query(keyword, "OR"), SearchFields, limit).value;
        && Sorted(r.value, ByRank(RankKey), false)
        && |r.value| == |UtilClass.GetNewsById(table, UtilClass.ManyIds(Firsts(hits)), true).value|
        && forall p :: p in r.value ==> p.0 in table && p.0.inUse != 0 && p.0.newsID in Firsts(hits)
  {
    if limit >= 1 {
      var hits := SearchStrings(scorer, Query(keyword, "OR"), SearchFields, limit).value;
      var arg := UtilClass.ManyIds(Firsts(hits));
      var rows := UtilClass.GetNewsById(table, arg, true).value;
      if RankJoin(rows, hits, RowId, IdKey, RankKey, false).Ok? {
        RankJoinFrom(rows, hits, RowId, IdKey, RankKey, false);
        forall p | p in RankJoin(rows, hits, RowId, IdKey, RankKey, false).value
          ensures p.0 in table && p.0.inUse != 0 && p.0.newsID in Firsts(hits)
        {
          UtilClass.GetNewsByIdRows(table, arg, true, p.0);
        }
      }
    }
  }

  /** When every hit has exactly one in-use row, each row gets the rank of
      its own hit and the list is in ascending rank. */
  lemma SearchNewsAligned(table: seq<InfoRow>, scorer: (string, seq<string>) -> seq<NewsId>, keyword: string, limit: int)
    requires limit >= 1
    requires var hits := SearchStrings(scorer, Query(keyword, "OR"), SearchFields, limit).value;
      multiset(MapSeq(RowId, UtilClass.GetNewsById(table, UtilClass.ManyIds(Firsts(hits)), true).value)) == multiset(Firsts(hits))
    ensures SearchNewsSpec(table, scorer, keyword, limit).Ok?
    ensures var hits := SearchStrings(scorer, Query(keyword, "OR"), SearchFields, limit).value;
      var r := SearchNewsSpec(table, scorer, keyword, limit).value;
      && Sorted(r, ByRank(RankKey), false)
      && multiset(Firsts(r)) == multiset(UtilClass.GetNewsById(table, UtilClass.ManyIds(Firsts(hits)), true).value)
      && forall p :: p in r ==> (p.0.newsID, p.1) in hits
  {
    var hits := SearchStrings(scorer, Query(keyword, "OR"), SearchFields, limit).value;
    IdKeyInjective();
    RankJoinAligned(UtilClass.GetNewsById(table, UtilClass.ManyIds(Firsts(hits)), true).value, hits, RowId, IdKey, RankKey, false);
  }

  /** An index ranking "a" first and "b" second. */
  const TwoRanked: seq<(NewsId, nat)> := [("a", 0), ("b", 1)]

  lemma TwoHitsRanked(scorer: (string, seq<string>) -> seq<NewsId>, q: string, limit: int)
    requires scorer(q, SearchFields) == ["a", "b"] && limit >= 2
    ensures SearchStrings(scorer, q, SearchFields, limit) == Ok(TwoRanked)
  {
    var top := scorer(q, SearchFields);
    assert TakePy(top, limit) == top;
    var r := Ranked(top);
    assert r[0] == ("a", 0) && r[1] == ("b", 1);
    assert r == TwoRanked;
  }

  lemma FilterSnoc(s: seq<InfoRow>, x: InfoRow, keep: InfoRow -> bool)
    ensures Filter(s + [x], keep) == if keep(x) then Filter(s, keep) + [x] else Filter(s, keep)
  {
    assert (s + [x])[..|s|] == s;
  }

  lemma FilterPair(x: InfoRow, y: InfoRow, keep: InfoRow -> bool)
    ensures keep(x) && keep(y) ==> Filter([x, y], keep) == [x, y]
    ensures !keep(x) && keep(y) ==> Filter([x, y], keep) == [y]
  {
    FilterSnoc([], x, keep);
    assert [] + [x] == [x];
    FilterSnoc([x], y, keep);
    assert [x] + [y] == [x, y];
    assert [] + [y] == [y];
  }

  /** Both rows are asked for; only the second is in use. */
  lemma TwoRowsById(ra: InfoRow, rb: InfoRow, ids: seq<NewsId>)
    requires ra.newsID in ids && rb.newsID in ids
    requires ra.inUse == 0 && rb.inUse == 1
    ensures UtilClass.GetNewsById([ra, rb], UtilClass.ManyIds(ids), true) == Ok([rb])
  {
    FilterPair(ra, rb, UtilClass.Asked(ids));
    FilterPair(ra, rb, UtilClass.InUse);
  }

  /** Single letters compare by their code points. */
  lemma LetterOrder(a: char, b: char)
    requires a < b
    ensures StrLt([a], [b]) && !StrLt([b], [a])
  {
    assert [a][1..] == [];
  }

  /** The unfolding steps of the insertion sort. */
  lemma SortByCons<T>(x: T, t: seq<T>, key: T -> SortKey)
    ensures SortBy([x] + t, key, false) == Insert(x, SortBy(t, key, false), key, false)
  {
    assert ([x] + t)[0] == x && ([x] + t)[1..] == t;
  }

  lemma SortByOne<T>(x: T, key: T -> SortKey)
    ensures SortBy([x], key, false) == [x]
  {
    SortByCons(x, [], key);
    assert [x] + [] == [x];
  }

  /** Sorting two elements already in the order of the key. */
  lemma SortByTwo<T>(x: T, y: T, key: T -> SortKey)
    requires Before(x, y, key, false)
    ensures SortBy([x, y], key, false) == [x, y]
  {
    SortByOne(y, key);
    SortByCons(x, [y], key);
    assert [x] + [y] == [x, y];
    BeforeAsymmetric(x, y, key, false);
  }

  lemma TwoHitsById()
    ensures SortBy(TwoRanked, ByHit(IdKey), false) == TwoRanked
  {
    var key: ((NewsId, nat)) -> SortKey := ByHit(IdKey);
    LetterOrder('a', 'b');
    assert key(TwoRanked[0]) == Text("a") && key(TwoRanked[1]) == Text("b");
    SortByTwo(TwoRanked[0], TwoRanked[1], key);
    assert [TwoRanked[0], TwoRanked[1]] == TwoRanked;
  }

  lemma TwoRankedIds()
    ensures Firsts(TwoRanked) == ["a", "b"]
  {
  }

  /** The search as the composition of its stages. */
  lemma SearchNewsStages(table: seq<InfoRow>, scorer: (string, seq<string>) -> seq<NewsId>, keyword: string, limit: int,
                         hits: seq<(NewsId, nat)>, rows: seq<InfoRow>)
    requires SearchStrings(scorer, Query(keyword, "OR"), SearchFields, limit) == Ok(hits)
    requires UtilClass.GetNewsById(table, UtilClass.ManyIds(Firsts(hits)), true) == Ok(rows)
    ensures SearchNewsSpec(table, scorer, keyword, limit) == RankJoin(rows, hits, RowId, IdKey, RankKey, false)
    ensures SearchNewsByLookup(table, scorer, keyword, limit) == RankByLookup(rows, hits, RowId, RankKey, false)
  {
  }

  /** The positional join from its two sorts and the zip. */
  lemma RankJoinStages<R, K, V>(rows: seq<R>, hits: seq<(K, V)>, rowId: R -> K, idKey: K -> SortKey, rankKey: V -> SortKey,
                                rs: seq<R>, hs: seq<(K, V)>, out: seq<(R, V)>)
    requires SortBy(rows, ByRow(rowId, idKey), false) == rs && SortBy(hits, ByHit(idKey), false) == hs
    requires |rs| <= |hs| && SortBy(Zip(rs, hs), ByRank(rankKey), false) == out
    ensures RankJoin(rows, hits, rowId, idKey, rankKey, false) == Ok(out)
  {
  }

  lemma ZipOne(rb: InfoRow)
    ensures Zip([rb], TwoRanked) == [(rb, 0)]
  {
  }

  /** The positional join of the one row in use with the two hits. */
  lemma MisrankedJoin(rb: InfoRow)
    ensures RankJoin([rb], TwoRanked, RowId, IdKey, RankKey, false) == Ok([(rb, 0)])
  {
    var pb: (InfoRow, nat) := (rb, 0);
    SortByOne(rb, ByRow(RowId, IdKey));
    TwoHitsById();
    ZipOne(rb);
    SortByOne(pb, ByRank(RankKey));
    RankJoinStages([rb], TwoRanked, RowId, IdKey, RankKey, [rb], TwoRanked, [pb]);
  }

  /** The hits and the rows in use of the counterexample. */
  lemma TwoStages(ra: InfoRow, rb: InfoRow, scorer: (string, seq<string>) -> seq<NewsId>, keyword: string, limit: int)
    requires ra.newsID == "a" && ra.inUse == 0 && rb.newsID == "b" && rb.inUse == 1
    requires scorer(Query(keyword, "OR"), SearchFields) == ["a", "b"] && limit >= 2
    ensures SearchStrings(scorer, Query(keyword, "OR"), SearchFields, limit) == Ok(TwoRanked)
    ensures UtilClass.GetNewsById([ra, rb], UtilClass.ManyIds(Firsts(TwoRanked)), true) == Ok([rb])
  {
    TwoHitsRanked(scorer, Query(keyword, "OR"), limit);
    TwoRankedIds();
    TwoRowsById(ra, rb, Firsts(TwoRanked));
  }

  /** As written, an article not in use shifts the ranks: with "a" ranked
      first but not in use and "b" ranked second, "b" is answered with rank
      0, the rank of "a", for every keyword and every limit of at least 2. */
  lemma SearchNewsMisranked(ra: InfoRow, rb: InfoRow, scorer: (string, seq<string>) -> seq<NewsId>, keyword: string, limit: int)
    requires ra.newsID == "a" && ra.inUse == 0 && rb.newsID == "b" && rb.inUse == 1
    requires scorer(Query(keyword, "OR"), SearchFields) == ["a", "b"] && limit >= 2
    ensures SearchStrings(scorer, Query(keyword, "OR"), SearchFields, limit) == Ok(TwoRanked)
    ensures SearchNewsSpec([ra, rb], scorer, keyword, limit) == Ok([(rb, 0)])
  {
    TwoStages(ra, rb, scorer, keyword, limit);
    SearchNewsStages([ra, rb], scorer, keyword, limit, TwoRanked, [rb]);
    MisrankedJoin(rb);
  }

  /** `search_news` as evidently intended: each in-use row takes the rank of
      the hit with its own newsID. */
  function SearchNewsByLookup(table: seq<InfoRow>, scorer: (string, seq<string>) -> seq<NewsId>, keyword: string, limit: int)
    : Result<seq<(InfoRow, nat)>>
  {
    var hits :- SearchStrings(scorer, Query(keyword, "OR"), SearchFields, limit);
    var rows :- UtilClass.GetNewsById(table, UtilClass.ManyIds(Firsts(hits)), true);
    RankByLookup(rows, hits, RowId, RankKey, false)
  }

  /** Whatever is in use, the lookup join answers for every `limit` of at
      least 1 with every in-use row of the hits, each with the rank of a hit
      of its own newsID, in ascending rank. */
  lemma SearchNewsByLookupRanks(table: seq<InfoRow>, scorer: (string, seq<string>) -> seq<NewsId>, keyword: string, limit: int)
    ensures SearchNewsByLookup(table, scorer, keyword, limit).Err? <==> limit < 1
    ensures SearchNewsByLookup(table, scorer, keyword, limit).Ok? ==>
      var hits := SearchStrings(scorer, Query(keyword, "OR"), SearchFields, limit).value;
      var rows := UtilClass.GetNewsById(table, UtilClass.ManyIds(Firsts(hits)), true).value;
      var r := SearchNewsByLookup(table, scorer, keyword, limit).value;
      && Sorted(r, ByRank(RankKey), false)
      && multiset(Firsts(r)) == multiset(rows)
      && forall p :: p in r ==> (p.0.newsID, p.1) in hits
  {
    if limit >= 1 {
      var hits := SearchStrings(scorer, Query(keyword, "OR"), SearchFields, limit).value;
      var arg := UtilClass.ManyIds(Firsts(hits));
      var rows := UtilClass.GetNewsById(table, arg, true).value;
      forall i | 0 <= i < |rows| ensures RowId(rows[i]) in Firsts(hits) {
        UtilClass.GetNewsByIdRows(table, arg, true, rows[i]);
      }
      RankByLookupShape(rows, hits, RowId, RankKey, false);
    }
  }

  /** On the same tables and index the lookup join answers "b" with its own
      rank 1. */
  lemma SearchNewsByLookupExample(ra: InfoRow, rb: InfoRow, scorer: (string, seq<string>) -> seq<NewsId>, keyword: string, limit: int)
    requires ra.newsID == "a" && ra.inUse == 0 && rb.newsID == "b" && rb.inUse == 1
    requires scorer(Query(keyword, "OR"), SearchFields) == ["a", "b"] && limit >= 2
    ensures SearchNewsByLookup([ra, rb], scorer, keyword, limit) == Ok([(rb, 1)])
  {
    TwoStages(ra, rb, scorer, keyword, limit);
    SearchNewsStages([ra, rb], scorer, keyword, limit, TwoRanked, [rb]);
    LookupB(rb);
    SortByOne((rb, 1), ByRank(RankKey));
  }

  lemma LookupB(rb: InfoRow)
    requires rb.newsID == "b"
    ensures WithRanks([rb], TwoRanked, RowId) == Ok([(rb, 1)])
  {
    TwoRankedIds();
    assert RowId(rb) == "b" && Lookup(TwoRanked, "b") == Some(1);
    var r := WithRanks([rb], TwoRanked, RowId);
    assert r.Ok? && |r.value| == 1;
    var pb: (InfoRow, nat) := (rb, 1);
    assert r.value[0] == pb;
    assert r.value == [pb];
  }
}
