/** app/lib/update_db.py, the newer crawler: it pages through the list of
    mass messages, turns every live article into a record of table
    `newsInfo` keyed by a newsID made of its appmsgid and idx, fetches each
    article's digest and body, and derives each article's column from its
    title. */
module UpdateDb {
  import opened Wrappers
  import opened PyValues
  import opened Collections
  import opened Text
  import opened SentList
  import UpdateData
  import Dates
  import ServerDb
  import PyInt
  import UrlQuery

  /* ---------- WxSpider.batchget_newsInfo ---------- */

  /** The `while True` loop: pages are requested at `begin`, `begin + 7`, …
      and appended until one comes back empty. It returns what the
      recursive crawler of the older script returns. */
  method BatchGetNewsInfo<T>(fetch: int -> seq<T>, begin: int, ghost bound: nat) returns (totalNewsInfo: seq<T>)
    requires fetch(begin + 7 * bound) == []
    ensures totalNewsInfo == UpdateData.BatchGet(fetch, begin, bound)
  {
    totalNewsInfo := [];
    var b := begin;
    ghost var left: nat := bound;
    while true
      invariant b + 7 * left == begin + 7 * bound
      invariant totalNewsInfo + UpdateData.BatchGet(fetch, b, left) == UpdateData.BatchGet(fetch, begin, bound)
      decreases left
    {
      var newsInfo := fetch(b);
      if newsInfo != [] {
        assert left > 0;
        assert b + 7 + 7 * (left - 1) == b + 7 * left;
        ghost var rest := UpdateData.BatchGet(fetch, b + 7, left - 1);
        assert totalNewsInfo + newsInfo + rest == totalNewsInfo + (newsInfo + rest);
        totalNewsInfo := totalNewsInfo + newsInfo;
        b := b + 7;
        left := left - 1;
      } else {
        assert totalNewsInfo + [] == totalNewsInfo;
        break;
      }
    }
  }

  /* ---------- WxSpider.batchget_newsContent ---------- */

  /** `news.update(get_newsContent(news))` then `news.pop("content_url")`.
      Fetching the page and reading its digest and body text is the
      parameter `getContent`, which may fail. */
  function WithContent(news: Record, getContent: PyVal -> Result<(string, string)>): (r: Result<Record>)
    ensures "content_url" !in news ==> r == Err(KeyError)
    ensures "content_url" in news ==> r.Ok? == getContent(news["content_url"]).Ok?
    ensures r.Ok? ==> r.value.Keys == news.Keys - {"content_url"} + {"digest", "content"}
    ensures r.Ok? ==> r.value["digest"] == PStr(getContent(news["content_url"]).value.0)
    ensures r.Ok? ==> r.value["content"] == PStr(getContent(news["content_url"]).value.1)
    ensures r.Ok? ==> forall k :: k in news && k !in {"content_url", "digest", "content"} ==> r.value[k] == news[k]
  {
    var url :- Get(news, "content_url");
    var page :- getContent(url);
    Ok(news["digest" := PStr(page.0)]["content" := PStr(page.1)] - {"content_url"})
  }

  /** One record's step of the loop. */
  function ContentOf(getContent: PyVal -> Result<(string, string)>): Record -> Result<Record> {
    news => WithContent(news, getContent)
  }

  function ContentAt(getContent: PyVal -> Result<(string, string)>): Record -> Result<seq<Record>> {
    Single(ContentOf(getContent))
  }

  /** Every record is updated, or the loop fails; then each record is its
      updated self, position by position. */
  lemma ContentAll(newsInfos: seq<Record>, getContent: PyVal -> Result<(string, string)>)
    ensures Collect(newsInfos, ContentAt(getContent)).Ok? <==>
      forall i :: 0 <= i < |newsInfos| ==> WithContent(newsInfos[i], getContent).Ok?
    ensures Collect(newsInfos, ContentAt(getContent)).Ok? ==>
      |Collect(newsInfos, ContentAt(getContent)).value| == |newsInfos| &&
      forall i :: 0 <= i < |newsInfos| ==>
        Collect(newsInfos, ContentAt(getContent)).value[i] == WithContent(newsInfos[i], getContent).value
  {
    CollectSingle(newsInfos, ContentOf(getContent));
  }

  /** Rewrites each row of `rows` in place with `f`, in order, stopping at
      the first row `f` rejects: the rows before it are rewritten, it and
      the ones after it are as they were. */
  method RewriteEach(rows: array<Record>, f: Record -> Result<Record>) returns (err: Option<PyError>)
    modifies rows
    ensures var r := Collect(old(rows[..]), Single(f));
      (r.Ok? ==> err.None? && rows[..] == r.value) &&
      (r.Err? ==> err == Some(r.error))
    ensures err.Some? ==> exists j :: (0 <= j < rows.Length &&
      Collect(old(rows[..])[..j], Single(f)) == Ok(rows[..j]) &&
      rows[j..] == old(rows[..])[j..])
  {
    ghost var before := rows[..];
    for i := 0 to rows.Length
      invariant Collect(before[..i], Single(f)) == Ok(rows[..i])
      invariant rows[i..] == before[i..]
    {
      ghost var pre := rows[..];
      SliceHead(pre, before, i);
      var row := rows[i];
      CollectSnoc(before, Single(f), i);
      var next := f(row);
      if next.Err? {
        CollectErr(before, Single(f), i + 1);
        return Some(next.error);
      }
      rows[i] := next.value;
      assert rows[..] == pre[i := next.value];
      UpdateSlices(pre, i, next.value);
    }
    assert rows[..rows.Length] == rows[..];
    assert before[..rows.Length] == before;
    err := None;
  }

  /** The loop over the records, which updates each dict in place. */
  method BatchGetNewsContent(newsInfos: array<Record>, getContent: PyVal -> Result<(string, string)>) returns (err: Option<PyError>)
    modifies newsInfos
    ensures var r := Collect(old(newsInfos[..]), ContentAt(getContent));
      (r.Ok? ==> err.None? && newsInfos[..] == r.value) &&
      (r.Err? ==> err == Some(r.error))
  {
    err := RewriteEach(newsInfos, ContentOf(getContent));
  }

  /** Where two lists agree from `i` on, they agree at `i`. */
  lemma SliceHead<T>(s: seq<T>, t: seq<T>, i: nat)
    requires i < |s| && |s| == |t| && s[i..] == t[i..]
    ensures s[i] == t[i]
  {
    assert s[i..][0] == t[i..][0];
  }

  /** Writing position `i` extends the prefix by the new value and leaves the
      rest as it was. */
  lemma UpdateSlices<T>(s: seq<T>, i: nat, v: T)
    requires i < |s|
    ensures s[i := v][..i + 1] == s[..i] + [v]
    ensures s[i := v][i + 1..] == s[i + 1..]
  {
  }

  /* ---------- NewsDB.build_table_newsInfo ---------- */

  /** The keys a record keeps. */
  const NewsFields: set<string> := {"newsID", "appmsgid", "idx", "sn", "title", "cover", "content_url",
    "like_num", "read_num", "masssend_time"}

  /** `"{appmsgid:0>10d}"`: an integer (a bool counts as one) right-aligned
      in ten characters, padded with zeros; the `d` code is refused for text
      and floats (`ValueError`) and for anything else (`TypeError`). */
  function AppMsgIdText(v: PyVal): (r: Result<string>)
    ensures v.PInt? ==> r == Ok(PadLeft(IntToStr(v.i), 10, '0'))
    ensures r.Ok? ==> |r.value| >= 10
    ensures r.Err? <==> !v.PInt? && !v.PBool?
  {
    match v
    case PInt(i) => Ok(PadLeft(IntToStr(i), 10, '0'))
    case PBool(b) => Ok(PadLeft(if b then "1" else "0", 10, '0'))
    case PStr(_) => Err(ValueError)
    case PFloat(_) => Err(ValueError)
    case _ => Err(TypeError)
  }

  /** `"{idx}"`: `str(idx)`. Text and ints are written out here; the text
      of any other value is the parameter `render`. */
  function IdxText(v: PyVal, render: PyVal -> string): (r: string)
    ensures v.PStr? ==> r == v.s
    ensures v.PInt? ==> r == IntToStr(v.i)
  {
    match v
    case PStr(s) => s
    case PInt(i) => IntToStr(i)
    case _ => render(v)
  }

  /** `"{appmsgid:0>10d}{idx}".format(**news)`, the fields looked up left to
      right. */
  function NewsId(news: Record, render: PyVal -> string): (r: Result<string>)
    ensures r.Ok? <==> "appmsgid" in news && "idx" in news && AppMsgIdText(news["appmsgid"]).Ok?
    ensures r.Ok? ==> r.value == AppMsgIdText(news["appmsgid"]).value + IdxText(news["idx"], render)
  {
    var app :- Get(news, "appmsgid");
    var head :- AppMsgIdText(app);
    var idx :- Get(news, "idx");
    Ok(head + IdxText(idx, render))
  }

  /** Zero-padding the decimal digits of a number below `10^width` gives
      its fixed-width digits. */
  lemma {:induction false} PadDigits(n: nat, width: nat)
    requires 1 <= width && n < Dates.Pow10(width)
    ensures PadLeft(NatToStr(n), width, '0') == Dates.Digits(n, width)
    ensures |NatToStr(n)| <= width
    decreases width
  {
    if n < 10 {
      ZeroDigits(width - 1);
      assert n / 10 == 0 && n % 10 == n;
      assert Dates.Digits(n, width) == Dates.Digits(0, width - 1) + [DigitChar(n)];
    } else {
      assert Dates.Pow10(1) == 10;
      assert width > 1;
      assert n / 10 < Dates.Pow10(width - 1);
      PadDigits(n / 10, width - 1);
      var head := NatToStr(n / 10);
      assert NatToStr(n) == head + [DigitChar(n % 10)];
      assert PadLeft(head + [DigitChar(n % 10)], width, '0') == PadLeft(head, width - 1, '0') + [DigitChar(n % 10)];
    }
  }

  lemma {:induction false} ZeroDigits(width: nat)
    ensures Dates.Digits(0, width) == seq(width, _ => '0')
    decreases width
  {
    if width > 0 {
      ZeroDigits(width - 1);
      assert DigitChar(0) == '0';
    }
  }

  /** For an appmsgid of at most ten digits and a text idx, the newsID is the
      ten-digit appmsgid followed by the idx: both read back from it. */
  lemma NewsIdSplit(news: Record, render: PyVal -> string, a: nat, idx: string)
    requires "appmsgid" in news && news["appmsgid"] == PInt(a) && a < 10000000000
    requires "idx" in news && news["idx"] == PStr(idx)
    ensures NewsId(news, render).Ok?
    ensures var id := NewsId(news, render).value;
      |id| == 10 + |idx| && id[..10] == Dates.Digits(a, 10) && id[10..] == idx &&
      PyInt.ParseInt(id[..10]) == Ok(a)
  {
    assert Dates.Pow10(10) == 10000000000;
    PadDigits(a, 10);
    ServerDb.ParseDigits(a, 10);
    var id := NewsId(news, render).value;
    assert id == Dates.Digits(a, 10) + idx;
  }

  /** Records of different appmsgids, or of the same appmsgid and
      different idx texts of one length, get different newsIDs. */
  lemma NewsIdInjective(n1: Record, n2: Record, render: PyVal -> string, a1: nat, a2: nat, i1: string, i2: string)
    requires "appmsgid" in n1 && n1["appmsgid"] == PInt(a1) && a1 < 10000000000 && "idx" in n1 && n1["idx"] == PStr(i1)
    requires "appmsgid" in n2 && n2["appmsgid"] == PInt(a2) && a2 < 10000000000 && "idx" in n2 && n2["idx"] == PStr(i2)
    requires NewsId(n1, render) == NewsId(n2, render)
    ensures a1 == a2 && i1 == i2
  {
    NewsIdSplit(n1, render, a1, i1);
    NewsIdSplit(n2, render, a2, i2);
  }

  /** The idx query value is kept as text. */
  function TextIdx(v: string): (r: Result<PyVal>)
    ensures r == Ok(PStr(v))
  {
    Ok(PStr(v))
  }

  /** The record of an article that is kept: its whitelisted keys, `idx` and
      `sn` from the query of its link, its newsID, and the message's send
      time as `datetime.fromtimestamp` gives it (the parameter `stamp`,
      which depends on the local time zone). */
  function NewsRecord(a: Record, time: PyVal, stamp: PyVal -> Result<PyVal>, render: PyVal -> string): (r: Result<Record>)
    ensures "content_url" !in a ==> r == Err(KeyError)
  {
    var url :- Get(a, "content_url");
    var items :- QueryItems(url);
    NewsFromQuery(a, items, time, stamp, render)
  }

  /** The record once the query items of the link are known. */
  function NewsFromQuery(a: Record, items: seq<(string, string)>, time: PyVal, stamp: PyVal -> Result<PyVal>,
                         render: PyVal -> string): Result<Record>
  {
    var news :- QueryOverride(Restrict(a, NewsFields), items, TextIdx);
    var id :- NewsId(news, render);
    var t :- stamp(time);
    Ok(news["newsID" := PStr(id)]["masssend_time" := t])
  }

  /** An article is skipped when it is deleted or has neither `comment_id`
      nor `copyright_type`. */
  predicate Skipped(a: Record)
    requires "is_deleted" in a
  {
    Truthy(a["is_deleted"]) || ("comment_id" !in a && "copyright_type" !in a)
  }

  /** The records one article adds. */
  function ArticleNews(a: Record, time: PyVal, stamp: PyVal -> Result<PyVal>, render: PyVal -> string): (r: Result<seq<Record>>)
    ensures "is_deleted" !in a ==> r == Err(KeyError)
    ensures "is_deleted" in a && Skipped(a) ==> r == Ok([])
    ensures "is_deleted" in a && !Skipped(a) ==>
      r == if NewsRecord(a, time, stamp, render).Ok? then Ok([NewsRecord(a, time, stamp, render).value])
           else Err(NewsRecord(a, time, stamp, render).error)
  {
    var deleted :- Get(a, "is_deleted");
    if Truthy(deleted) || ("comment_id" !in a && "copyright_type" !in a) then Ok([])
    else
      var news :- NewsRecord(a, time, stamp, render);
      Ok([news])
  }

  function NewsAt(time: PyVal, stamp: PyVal -> Result<PyVal>, render: PyVal -> string): Record -> Result<seq<Record>> {
    a => ArticleNews(a, time, stamp, render)
  }

  /** The records of one message: none unless its type is 9. */
  function MsgNews(m: MsgInfo, stamp: PyVal -> Result<PyVal>, render: PyVal -> string): (r: Result<seq<Record>>)
    ensures IsArticleMessage(m) == Ok(false) ==> r == Ok([])
    ensures IsArticleMessage(m).Err? ==> r == Err(KeyError)
  {
    var isArticle :- IsArticleMessage(m);
    if !isArticle then Ok([])
    else
      var time :- SentTime(m);
      var arts :- Articles(m);
      Collect(arts, NewsAt(time, stamp, render))
  }

  function MsgAt(stamp: PyVal -> Result<PyVal>, render: PyVal -> string): MsgInfo -> Result<seq<Record>> {
    m => MsgNews(m, stamp, render)
  }

  /** `newsDicts` as the two nested loops build it. */
  function NewsDicts(totalNewsInfo: seq<MsgInfo>, stamp: PyVal -> Result<PyVal>, render: PyVal -> string): Result<seq<Record>> {
    Collect(totalNewsInfo, MsgAt(stamp, render))
  }

  /** The query loop with the idx kept as text only adds `idx` and `sn`,
      from the last idx-like and sn-like parameters, and leaves every other
      key as it was. */
  lemma OverrideText(base: Record, items: seq<(string, string)>)
    ensures QueryOverride(base, items, TextIdx).Ok?
    ensures var d := QueryOverride(base, items, TextIdx).value;
      (forall k :: k in d ==> k in base || k == "idx" || k == "sn") &&
      (forall k :: k in d && k != "idx" && k != "sn" ==> d[k] == base[k]) &&
      (LastIn(items, IdxKeys).Some? ==> "idx" in d && d["idx"] == PStr(LastIn(items, IdxKeys).value)) &&
      (LastIn(items, SnKeys).Some? ==> "sn" in d && d["sn"] == PStr(LastIn(items, SnKeys).value))
  {
    QueryOverrideSpec(base, items, TextIdx);
    KeysDisjoint();
  }

  lemma FieldNames()
    ensures "idx" in NewsFields && "sn" in NewsFields && "newsID" in NewsFields && "masssend_time" in NewsFields
    ensures "newsID" != "masssend_time" && "newsID" != "idx" && "newsID" != "sn"
    ensures "masssend_time" != "idx" && "masssend_time" != "sn"
  {
    assert |"newsID"| == 6 && |"masssend_time"| == 13 && |"idx"| == 3 && |"sn"| == 2;
    assert "newsID"[0] == 'n' && "sn"[0] == 's';
  }

  /** Setting newsID and masssend_time leaves every other key as it was. */
  lemma Stamped(news: Record, id: PyVal, t: PyVal)
    requires "newsID" != "masssend_time"
    ensures var r := news["newsID" := id]["masssend_time" := t];
      r.Keys == news.Keys + {"newsID", "masssend_time"} && r["newsID"] == id && r["masssend_time"] == t &&
      forall k :: k in news && k != "newsID" && k != "masssend_time" ==> r[k] == news[k]
  {
  }

  /** A kept record holds only the listed fields; idx and sn come from the
      last idx-like and sn-like query parameters when the link has them, and
      every other value but newsID and masssend_time is the article's own. */
  lemma NewsKept(a: Record, items: seq<(string, string)>, time: PyVal, stamp: PyVal -> Result<PyVal>, render: PyVal -> string)
    requires NewsFromQuery(a, items, time, stamp, render).Ok?
    ensures var r := NewsFromQuery(a, items, time, stamp, render).value;
      r.Keys <= NewsFields &&
      (LastIn(items, IdxKeys).Some? ==> "idx" in r && r["idx"] == PStr(LastIn(items, IdxKeys).value)) &&
      (LastIn(items, SnKeys).Some? ==> "sn" in r && r["sn"] == PStr(LastIn(items, SnKeys).value)) &&
      (forall k :: k in r && k !in {"idx", "sn", "newsID", "masssend_time"} ==> k in a && r[k] == a[k])
  {
    var base := Restrict(a, NewsFields);
    OverrideText(base, items);
    FieldNames();
    var news := QueryOverride(base, items, TextIdx).value;
    Stamped(news, PStr(NewsId(news, render).value), stamp(time).value);
  }

  /** newsID is the record's own appmsgid and idx formatted, and
      masssend_time the converted send time. */
  lemma NewsKeptId(a: Record, items: seq<(string, string)>, time: PyVal, stamp: PyVal -> Result<PyVal>, render: PyVal -> string)
    requires NewsFromQuery(a, items, time, stamp, render).Ok?
    ensures var r := NewsFromQuery(a, items, time, stamp, render).value;
      "appmsgid" in r && "idx" in r && AppMsgIdText(r["appmsgid"]).Ok? &&
      r["newsID"] == PStr(AppMsgIdText(r["appmsgid"]).value + IdxText(r["idx"], render)) &&
      r["masssend_time"] == stamp(time).value
  {
    var news := QueryOverride(Restrict(a, NewsFields), items, TextIdx).value;
    OverrideText(Restrict(a, NewsFields), items);
    FieldNames();
    Stamped(news, PStr(NewsId(news, render).value), stamp(time).value);
  }

  /** Every record comes from a kept article of a type-9 message. */
  lemma NewsDictsFrom(totalNewsInfo: seq<MsgInfo>, stamp: PyVal -> Result<PyVal>, render: PyVal -> string, rec: Record)
    requires NewsDicts(totalNewsInfo, stamp, render).Ok? && rec in NewsDicts(totalNewsInfo, stamp, render).value
    ensures exists i, j :: (0 <= i < |totalNewsInfo| && IsArticleMessage(totalNewsInfo[i]) == Ok(true) &&
      Articles(totalNewsInfo[i]).Ok? && 0 <= j < |Articles(totalNewsInfo[i]).value| && SentTime(totalNewsInfo[i]).Ok? &&
      "is_deleted" in Articles(totalNewsInfo[i]).value[j] && !Skipped(Articles(totalNewsInfo[i]).value[j]) &&
      NewsRecord(Articles(totalNewsInfo[i]).value[j], SentTime(totalNewsInfo[i]).value, stamp, render) == Ok(rec))
  {
    CollectFrom(totalNewsInfo, MsgAt(stamp, render), rec);
    var i :| 0 <= i < |totalNewsInfo| && MsgAt(stamp, render)(totalNewsInfo[i]).Ok? &&
      rec in MsgAt(stamp, render)(totalNewsInfo[i]).value;
    var m := totalNewsInfo[i];
    MsgNewsHas(m, stamp, render, rec);
    var arts := Articles(m).value;
    var step := NewsAt(SentTime(m).value, stamp, render);
    CollectFrom(arts, step, rec);
    var j :| 0 <= j < |arts| && step(arts[j]).Ok? && rec in step(arts[j]).value;
    ArticleNewsHas(arts[j], SentTime(m).value, stamp, render, rec);
  }

  /** A record of a message comes from the loop over its articles. */
  lemma MsgNewsHas(m: MsgInfo, stamp: PyVal -> Result<PyVal>, render: PyVal -> string, rec: Record)
    requires MsgNews(m, stamp, render).Ok? && rec in MsgNews(m, stamp, render).value
    ensures IsArticleMessage(m) == Ok(true) && SentTime(m).Ok? && Articles(m).Ok?
    ensures Collect(Articles(m).value, NewsAt(SentTime(m).value, stamp, render)) == MsgNews(m, stamp, render)
  {
  }

  /** A record of an article is its `NewsRecord`, when it is kept. */
  lemma ArticleNewsHas(a: Record, time: PyVal, stamp: PyVal -> Result<PyVal>, render: PyVal -> string, rec: Record)
    requires ArticleNews(a, time, stamp, render).Ok? && rec in ArticleNews(a, time, stamp, render).value
    ensures "is_deleted" in a && !Skipped(a) && NewsRecord(a, time, stamp, render) == Ok(rec)
  {
  }

  /** The inner loop, over one message's articles. */
  method CollectNews(arts: seq<Record>, time: PyVal, stamp: PyVal -> Result<PyVal>, render: PyVal -> string) returns (r: Result<seq<Record>>)
    ensures r == Collect(arts, NewsAt(time, stamp, render))
  {
    var newsDicts: seq<Record> := [];
    for j := 0 to |arts|
      invariant Collect(arts[..j], NewsAt(time, stamp, render)) == Ok(newsDicts)
    {
      CollectSnoc(arts, NewsAt(time, stamp, render), j);
      var news := ArticleNews(arts[j], time, stamp, render);
      if news.Err? {
        CollectErr(arts, NewsAt(time, stamp, render), j + 1);
        return Err(news.error);
      }
      newsDicts := newsDicts + news.value;
    }
    assert arts[..|arts|] == arts;
    return Ok(newsDicts);
  }

  /** The outer loop of `build_table_newsInfo`, collecting `newsDicts` for
      `insert_many`. */
  method BuildNewsDicts(totalNewsInfo: seq<MsgInfo>, stamp: PyVal -> Result<PyVal>, render: PyVal -> string) returns (r: Result<seq<Record>>)
    ensures r == NewsDicts(totalNewsInfo, stamp, render)
  {
    var newsDicts: seq<Record> := [];
    for i := 0 to |totalNewsInfo|
      invariant Collect(totalNewsInfo[..i], MsgAt(stamp, render)) == Ok(newsDicts)
    {
      CollectSnoc(totalNewsInfo, MsgAt(stamp, render), i);
      var m := totalNewsInfo[i];
      var isArticle := IsArticleMessage(m);
      if isArticle.Err? {
        CollectErr(totalNewsInfo, MsgAt(stamp, render), i + 1);
        return Err(isArticle.error);
      }
      if isArticle.value {
        var time := SentTime(m);
        var arts := Articles(m);
        if time.Err? || arts.Err? {
          CollectErr(totalNewsInfo, MsgAt(stamp, render), i + 1);
          return Err(KeyError);
        }
        var recs := CollectNews(arts.value, time.value, stamp, render);
        assert MsgNews(m, stamp, render) == recs;
        if recs.Err? {
          CollectErr(totalNewsInfo, MsgAt(stamp, render), i + 1);
          return recs;
        }
        newsDicts := newsDicts + recs.value;
      } else {
        assert MsgNews(m, stamp, render) == Ok([]);
        assert newsDicts + [] == newsDicts;
      }
    }
    assert totalNewsInfo[..|totalNewsInfo|] == totalNewsInfo;
    return Ok(newsDicts);
  }

  /* ---------- NewsDB.build_table_newsDetail ---------- */

  const LeftBracket: char := '【'
  const RightBracket: char := '】'

  /** The characters of `[|｜〡丨]`. */
  predicate IsPipe(c: char) {
    c == '|' || c == '｜' || c == '〡' || c == '丨'
  }

  /** `re.match(r'^【(.*?)】', title).group(1)`: after a leading 【, the
      shortest run of characters other than a newline that a 】 follows;
      `None` when there is none. */
  function BracketName(title: string): (r: Option<string>)
    ensures r.Some? ==> title != [] && title[0] == LeftBracket
    ensures r.Some? ==> 1 + |r.value| < |title| && title[1..1 + |r.value|] == r.value && title[1 + |r.value|] == RightBracket
    ensures r.Some? ==> RightBracket !in r.value && '\n' !in r.value
  {
    if title == [] || title[0] != LeftBracket then None
    else
      var rest := title[1..];
      var j := UrlQuery.IndexOf(rest, RightBracket);
      if j == |rest| || '\n' in rest[..j] then None
      else
        assert title[1..1 + j] == rest[..j];
        Some(rest[..j])
  }

  /** The position of the first pipe character, `|s|` when there is none. */
  function FirstPipe(s: string): (i: nat)
    ensures i <= |s| && (forall k :: 0 <= k < i ==> !IsPipe(s[k]))
    ensures i < |s| ==> IsPipe(s[i])
    decreases |s|
  {
    if s == [] then 0
    else if IsPipe(s[0]) then 0
    else 1 + FirstPipe(s[1..])
  }

  /** `re_pipe.split(title)[0]`: the title up to its first pipe character. */
  function PipeHead(title: string): (r: string)
    ensures r == title[..FirstPipe(title)]
  {
    title[..FirstPipe(title)]
  }

  /** The column an article belongs to, from its title. */
  function Column(title: string): string {
    Strip(match BracketName(title) case Some(name) => name case None => PipeHead(title))
  }

  /** A title `【name】rest` puts the article in column `name`, stripped. */
  lemma ColumnBracket(name: string, rest: string)
    requires RightBracket !in name && '\n' !in name
    ensures Column([LeftBracket] + name + [RightBracket] + rest) == Strip(name)
  {
    var title := [LeftBracket] + name + [RightBracket] + rest;
    assert title[1..] == name + [RightBracket] + rest;
    UrlQuery.IndexOfAt(name, RightBracket, rest);
    assert (name + [RightBracket] + rest)[..|name|] == name;
  }

  /** A title that does not open with 【 and has a pipe character after
      `head` (and none in it) puts the article in column `head`, stripped. */
  lemma ColumnPipe(head: string, p: char, rest: string)
    requires IsPipe(p) && (forall k :: 0 <= k < |head| ==> !IsPipe(head[k]))
    requires head == [] || head[0] != LeftBracket
    ensures Column(head + [p] + rest) == Strip(head)
  {
    var title := head + [p] + rest;
    assert title[0] != LeftBracket by {
      if head == [] {
        assert title[0] == p;
      } else {
        assert title[0] == head[0];
      }
    }
    assert BracketName(title) == None;
    PipeAt(head, p, rest);
    assert title[..|head|] == head;
    assert PipeHead(title) == head;
  }

  lemma {:induction false} PipeAt(head: string, p: char, rest: string)
    requires IsPipe(p) && (forall k :: 0 <= k < |head| ==> !IsPipe(head[k]))
    ensures FirstPipe(head + [p] + rest) == |head|
  {
    var title := head + [p] + rest;
    var i := FirstPipe(title);
    assert title[|head|] == p;
    assert forall k :: 0 <= k < |head| ==> title[k] == head[k];
  }

  /** A title that neither opens with 【 nor holds a pipe character is its
      own column, stripped. */
  lemma ColumnPlain(title: string)
    requires title == [] || title[0] != LeftBracket
    requires forall k :: 0 <= k < |title| ==> !IsPipe(title[k])
    ensures Column(title) == Strip(title)
  {
    assert BracketName(title) == None;
    assert FirstPipe(title) == |title|;
    assert title[..|title|] == title;
    assert PipeHead(title) == title;
  }

  /** One row of `newsDetail`: `title` popped, `column` set. A row without a
      title raises `KeyError`; a title that is not text cannot be matched
      (`TypeError`). */
  function DetailRow(news: Record): (r: Result<Record>)
    ensures "title" !in news ==> r == Err(KeyError)
    ensures "title" in news ==> r.Ok? == news["title"].PStr?
    ensures r.Ok? ==> r.value.Keys == news.Keys - {"title"} + {"column"}
  {
    if "title" !in news then Err(KeyError)
    else if !news["title"].PStr? then Err(TypeError)
    else
      var column := PStr(Column(news["title"].s));
      Ok((news - {"title"})["column" := column])
  }

  /** A rewritten row holds the column of its title, and every other field
      of the original row but the title. */
  lemma DetailRowValues(news: Record)
    requires DetailRow(news).Ok?
    ensures DetailRow(news).value["column"] == PStr(Column(news["title"].s))
    ensures forall k :: k in news && k != "title" && k != "column" ==> DetailRow(news).value[k] == news[k]
  {
    var column := PStr(Column(news["title"].s));
    var rest := news - {"title"};
    assert DetailRow(news) == Ok(rest["column" := column]);
    forall k | k in news && k != "title" && k != "column"
      ensures DetailRow(news).value[k] == news[k]
    {
      assert k in rest && rest[k] == news[k];
    }
  }

  /** One row's step of the loop. */
  const DetailAt: Record -> Result<seq<Record>> := Single(DetailRow)

  /** The loop over the selected rows, rewriting each dict in place; the
      rebuilt table then receives the rows. */
  method BuildNewsDetail(newsDetail: array<Record>) returns (err: Option<PyError>)
    modifies newsDetail
    ensures var r := Collect(old(newsDetail[..]), DetailAt);
      (r.Ok? ==> err.None? && newsDetail[..] == r.value) &&
      (r.Err? ==> err == Some(r.error))
  {
    err := RewriteEach(newsDetail, DetailRow);
  }

  /** Every row is rewritten exactly when every row has a text title;
      each then holds its column instead of its title. */
  lemma DetailAll(rows: seq<Record>)
    ensures Collect(rows, DetailAt).Ok? <==> forall i :: 0 <= i < |rows| ==> DetailRow(rows[i]).Ok?
    ensures Collect(rows, DetailAt).Ok? ==>
      |Collect(rows, DetailAt).value| == |rows| &&
      forall i :: 0 <= i < |rows| ==> Collect(rows, DetailAt).value[i] == DetailRow(rows[i]).value
  {
    CollectSingle(rows, DetailRow);
  }
}
