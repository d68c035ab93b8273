/** app/lib/update_data.py, the older crawler: it pages through the list of
    mass messages, turns every live article into a record of table
    `newsInfo` and inserts the records in batches of 500, each batch one
    `INSERT` statement committed on its own. */
module UpdateData {
  import opened Wrappers
  import opened PyValues
  import opened Collections
  import opened SentList
  import PyInt
  import UtilFuncs

  /* ---------- WeChatCrawler.batchget_newsInfo ---------- */

  /** The first `k` pages, fetched at `begin`, `begin + 7`, … */
  function Pages<T>(fetch: int -> seq<T>, begin: int, k: nat): (r: seq<seq<T>>)
    ensures |r| == k
  {
    seq(k, i => fetch(begin + 7 * i))
  }

  /** `batchget_newsInfo(begin)`: the page at `begin` when it is empty, else
      that page followed by everything from `begin + 7` on. The request for
      one page is the parameter `fetch`; the page `bound` steps on is known
      to be empty, which is what ends the recursion. */
  function BatchGet<T>(fetch: int -> seq<T>, begin: int, bound: nat): seq<T>
    requires fetch(begin + 7 * bound) == []
    decreases bound
  {
    if fetch(begin) == [] then []
    else fetch(begin) + BatchGet(fetch, begin + 7, bound - 1)
  }

  /** When the pages before the `k`-th are not empty and the `k`-th is, the
      result is those `k` pages concatenated in order. */
  lemma {:induction false} BatchGetPages<T>(fetch: int -> seq<T>, begin: int, bound: nat, k: nat)
    requires fetch(begin + 7 * bound) == []
    requires fetch(begin + 7 * k) == [] && forall i :: 0 <= i < k ==> fetch(begin + 7 * i) != []
    ensures BatchGet(fetch, begin, bound) == Flatten(Pages(fetch, begin, k))
    decreases k
  {
    if k > 0 {
      assert fetch(begin + 7 * 0) != [];
      assert bound > 0;
      forall i | 0 <= i < k - 1 ensures fetch(begin + 7 + 7 * i) != [] {
        assert begin + 7 + 7 * i == begin + 7 * (i + 1);
      }
      assert begin + 7 + 7 * (k - 1) == begin + 7 * k;
      BatchGetPages(fetch, begin + 7, bound - 1, k - 1);
      var ps := Pages(fetch, begin, k);
      assert ps[1..] == Pages(fetch, begin + 7, k - 1);
      assert ps == [fetch(begin)] + ps[1..];
      FlattenCons(fetch(begin), ps[1..]);
    }
  }

  /** Some page no later than the known empty one is the first empty page: the
      result is exactly the pages before it. */
  lemma {:induction false} BatchGetSpec<T>(fetch: int -> seq<T>, begin: int, bound: nat) returns (k: nat)
    requires fetch(begin + 7 * bound) == []
    ensures k <= bound && fetch(begin + 7 * k) == []
    ensures forall i :: 0 <= i < k ==> fetch(begin + 7 * i) != []
    ensures BatchGet(fetch, begin, bound) == Flatten(Pages(fetch, begin, k))
  {
    k := 0;
    while fetch(begin + 7 * k) != []
      invariant k <= bound
      invariant forall i :: 0 <= i < k ==> fetch(begin + 7 * i) != []
      decreases bound - k
    {
      k := k + 1;
    }
    BatchGetPages(fetch, begin, bound, k);
  }

  /* ---------- DataBase.batchadd_news_info ---------- */

  /** The columns the statement inserts, in its order. */
  const InfoColumns: seq<string> := ["appmsgid", "idx", "sn", "title", "cover", "content_url", "like_num",
    "read_num", "comment_num", "comment_id", "copyright_type", "modify_status", "msgid", "masssend_time"]

  /** The keys a default may set. */
  const DefaultKeys: set<string> := {"comment_id", "comment_num", "copyright_type", "modify_status"}

  /** The record as the loop leaves it before formatting: `None` when it has
      neither `comment_id` nor `copyright_type` (the article was deleted);
      without `comment_id` it gets comment_id "none" and comment_num 0;
      without `copyright_type` it gets copyright_type -1 and modify_status
      -1. */
  function Defaulted(d: Record): (r: Option<Record>)
    ensures r.None? <==> "comment_id" !in d && "copyright_type" !in d
    ensures r.Some? ==> "comment_id" in r.value && "copyright_type" in r.value
    ensures r.Some? ==> forall k :: k in r.value ==> k in d || k in DefaultKeys
    ensures r.Some? ==> forall k :: k in d && k != "comment_num" && k != "modify_status" ==> k in r.value && r.value[k] == d[k]
    ensures r.Some? && "comment_id" !in d ==>
      "comment_num" in r.value && r.value["comment_id"] == PStr("none") && r.value["comment_num"] == PInt(0)
    ensures r.Some? && "copyright_type" !in d ==>
      "modify_status" in r.value && r.value["copyright_type"] == PInt(-1) && r.value["modify_status"] == PInt(-1)
    ensures "comment_id" in d && "copyright_type" in d ==> r == Some(d)
  {
    if "comment_id" !in d && "copyright_type" !in d then None
    else if "comment_id" !in d then Some(d["comment_id" := PStr("none")]["comment_num" := PInt(0)])
    else if "copyright_type" !in d then Some(d["copyright_type" := PInt(-1)]["modify_status" := PInt(-1)])
    else Some(d)
  }

  /** Defaulting a defaulted record changes nothing. */
  lemma DefaultedIdempotent(d: Record)
    requires Defaulted(d).Some?
    ensures Defaulted(Defaulted(d).value) == Defaulted(d)
  {
  }

  /** The values `.format(**aDbInfoDict)` fills into one row, column by
      column; a column the record lacks raises `KeyError`. */
  function ValuesRow(d: Record): (r: Result<seq<PyVal>>)
    ensures r.Ok? <==> forall k :: k in InfoColumns ==> k in d
    ensures r.Err? ==> r.error == KeyError
    ensures r.Ok? ==> |r.value| == |InfoColumns| && forall i :: 0 <= i < |InfoColumns| ==> r.value[i] == d[InfoColumns[i]]
  {
    if forall k :: k in InfoColumns ==> k in d then
      Ok(seq(|InfoColumns|, i requires 0 <= i < |InfoColumns| => d[InfoColumns[i]]))
    else Err(KeyError)
  }

  /** The rows one record contributes: none when it is skipped, else its
      row. */
  function RowOf(d: Record): (r: Result<seq<seq<PyVal>>>)
    ensures Defaulted(d).None? ==> r == Ok([])
    ensures Defaulted(d).Some? ==> r.Ok? == ValuesRow(Defaulted(d).value).Ok?
    ensures r.Ok? ==> |r.value| <= 1
  {
    match Defaulted(d)
    case None => Ok([])
    case Some(e) =>
      var row :- ValuesRow(e);
      Ok([row])
  }

  /** The rows of `dbValuesList`, in order, or the first formatting error. */
  function BatchValues(newsInfoList: seq<Record>): Result<seq<seq<PyVal>>> {
    Collect(newsInfoList, RowOf)
  }

  /** What one call inserts: an empty `VALUES` list is an SQL syntax error
      (`GenericError`). */
  function BatchRows(newsInfoList: seq<Record>): (r: Result<seq<seq<PyVal>>>)
    ensures r.Ok? ==> r.value != [] && BatchValues(newsInfoList) == r
  {
    var vs :- BatchValues(newsInfoList);
    if vs == [] then Err(GenericError) else Ok(vs)
  }

  /** A record lacking both `comment_id` and `copyright_type` adds nothing,
      wherever it stands. */
  lemma BatchValuesSkips(a: seq<Record>, d: Record, b: seq<Record>)
    requires "comment_id" !in d && "copyright_type" !in d
    ensures BatchValues(a + [d] + b) == BatchValues(a + b)
  {
    CollectAppend(a, [d], RowOf);
    CollectAppend(a + [d], b, RowOf);
    CollectAppend(a, b, RowOf);
    assert Collect([d], RowOf) == Ok([]) by {
      assert [d][..0] == [] && [d][..1] == [d];
      CollectSnoc([d], RowOf, 0);
      assert RowOf(d) == Ok([]);
      assert RowOf(d).value + [] == RowOf(d).value;
    }
    if Collect(a, RowOf).Ok? {
      assert Collect(a, RowOf).value + [] == Collect(a, RowOf).value;
    }
  }

  /** Every row inserted is the row of some kept record, with its defaults
      filled in. */
  lemma BatchValuesFrom(newsInfoList: seq<Record>, row: seq<PyVal>)
    requires BatchValues(newsInfoList).Ok? && row in BatchValues(newsInfoList).value
    ensures exists i :: (0 <= i < |newsInfoList| && Defaulted(newsInfoList[i]).Some? &&
      ValuesRow(Defaulted(newsInfoList[i]).value) == Ok(row))
  {
    CollectFrom(newsInfoList, RowOf, row);
  }

  /** The batch fails exactly when some kept record lacks a column, or when
      no record is kept. */
  lemma BatchRowsOk(newsInfoList: seq<Record>)
    ensures BatchValues(newsInfoList).Ok? <==> forall i :: 0 <= i < |newsInfoList| && Defaulted(newsInfoList[i]).Some? ==>
      ValuesRow(Defaulted(newsInfoList[i]).value).Ok?
  {
    CollectOk(newsInfoList, RowOf);
  }

  /* ---------- DataBase.build_table_newsInfo ---------- */

  /** The keys copied from an article object. */
  const InfoFields: set<string> := {"appmsgid", "title", "cover", "content_url", "like_num", "read_num",
    "comment_num", "comment_id", "copyright_type", "modify_status"}

  /** The text fields escaped before insertion. */
  const EscapedFields: set<string> := {"title", "cover", "content_url"}

  /** `int(value[0])` for the idx query parameter. */
  function IntIdx(v: string): (r: Result<PyVal>)
    ensures r.Ok? <==> PyInt.ParseInt(v).Ok?
    ensures r.Ok? ==> r.value == PInt(PyInt.ParseInt(v).value)
    ensures r.Err? ==> r.error == ValueError
  {
    var i :- PyInt.ParseInt(v);
    Ok(PInt(i))
  }

  /** `dictToESC(d, keys, reverse)` on a dict: the listed text values are
      (un)escaped, everything else is kept. A listed value that is not text
      has no usable `replace`: bytes raise `TypeError`, other values
      `AttributeError`. */
  function EscapeFields(d: Record, keys: set<string>, reverse: bool): (r: Result<Record>)
    ensures r.Ok? <==> forall k :: k in keys && k in d ==> d[k].PStr?
    ensures r.Err? ==> r.error == AttributeError || r.error == TypeError
    ensures r.Ok? ==> r.value.Keys == d.Keys
    ensures r.Ok? ==> forall k :: k in d && k !in keys ==> r.value[k] == d[k]
    ensures r.Ok? ==> forall k :: k in d && k in keys ==> d[k].PStr? && r.value[k] == PStr(UtilFuncs.ToEscFn(d[k].s, reverse))
  {
    if exists k :: k in keys && k in d && !d[k].PStr? && !d[k].PBytes? then Err(AttributeError)
    else if exists k :: k in keys && k in d && d[k].PBytes? then Err(TypeError)
    else Ok(map k | k in d :: if k in keys then PStr(UtilFuncs.ToEscFn(d[k].s, reverse)) else d[k])
  }

  /** Unescaping the escaped fields gives the record back. */
  lemma EscapeRoundTrip(d: Record, keys: set<string>)
    requires EscapeFields(d, keys, false).Ok?
    ensures EscapeFields(EscapeFields(d, keys, false).value, keys, true) == Ok(d)
  {
    var e := EscapeFields(d, keys, false).value;
    forall k | k in keys && k in d ensures UtilFuncs.ToEscFn(e[k].s, true) == d[k].s {
      UtilFuncs.ToEscRoundTrip(d[k].s);
    }
    assert EscapeFields(e, keys, true).value == d;
  }

  /** The record of an article that is not deleted: its whitelisted keys,
      `idx` (as an int) and `sn` from the query of its link, the message's
      `msgid` and send time, and the three text fields escaped. */
  function ArticleRecord(a: Record, msgid: PyVal, time: PyVal): (r: Result<Record>)
    ensures "content_url" !in a ==> r == Err(KeyError)
  {
    var url :- Get(a, "content_url");
    var items :- QueryItems(url);
    var d :- QueryOverride(Restrict(a, InfoFields), items, IntIdx);
    EscapeFields(d["msgid" := msgid]["masssend_time" := time], EscapedFields, false)
  }

  /** The records one article adds: none when `is_deleted` is true, else
      its record. */
  function ArticleInfo(a: Record, msgid: PyVal, time: PyVal): (r: Result<seq<Record>>)
    ensures "is_deleted" !in a ==> r == Err(KeyError)
    ensures "is_deleted" in a && Truthy(a["is_deleted"]) ==> r == Ok([])
    ensures "is_deleted" in a && !Truthy(a["is_deleted"]) ==>
      r == if ArticleRecord(a, msgid, time).Ok? then Ok([ArticleRecord(a, msgid, time).value])
           else Err(ArticleRecord(a, msgid, time).error)
  {
    var deleted :- Get(a, "is_deleted");
    if Truthy(deleted) then Ok([])
    else
      var e :- ArticleRecord(a, msgid, time);
      Ok([e])
  }

  /** The step over the articles of one message. */
  function ArticleAt(msgid: PyVal, time: PyVal): Record -> Result<seq<Record>> {
    a => ArticleInfo(a, msgid, time)
  }

  /** The records of one message: none unless its type is 9. */
  function MsgNewsInfo(m: MsgInfo): (r: Result<seq<Record>>)
    ensures IsArticleMessage(m) == Ok(false) ==> r == Ok([])
    ensures IsArticleMessage(m).Err? ==> r == Err(KeyError)
  {
    var isArticle :- IsArticleMessage(m);
    if !isArticle then Ok([])
    else
      var msgid :- Field(m, "msgid");
      var time :- SentTime(m);
      var arts :- Articles(m);
      Collect(arts, ArticleAt(msgid, time))
  }

  /** `newsInfoList` as the two nested loops build it. */
  function NewsInfoList(totalNewsInfo: seq<MsgInfo>): Result<seq<Record>> {
    Collect(totalNewsInfo, MsgNewsInfo)
  }

  /** The key names involved are distinct. */
  lemma FieldNames()
    ensures "idx" !in InfoFields && "sn" !in InfoFields
    ensures "msgid" !in InfoFields && "masssend_time" !in InfoFields && "msgid" != "masssend_time"
    ensures EscapedFields <= InfoFields
  {
    assert |"idx"| == 3 && |"sn"| == 2 && |"msgid"| == 5 && |"masssend_time"| == 13;
    assert "title"[0] == 't' && "cover"[0] == 'c' && "msgid"[0] == 'm' && "idx"[0] == 'i' && "sn"[0] == 's';
    assert "appmsgid"[0] == 'a' && "like_num"[0] == 'l' && "read_num"[0] == 'r';
    assert |"appmsgid"| == 8 && |"title"| == 5 && |"cover"| == 5 && |"content_url"| == 11 && |"like_num"| == 8;
    assert |"read_num"| == 8 && |"comment_num"| == 11 && |"comment_id"| == 10 && |"copyright_type"| == 14 && |"modify_status"| == 13;
    assert "masssend_time"[1] == 'a' && "modify_status"[1] == 'o';
  }

  /** The query loop with `int()` only adds `idx` and `sn`, leaves every other
      key as it was, and an `idx` it adds is an int. */
  lemma OverrideInt(base: Record, items: seq<(string, string)>)
    requires QueryOverride(base, items, IntIdx).Ok?
    ensures var d := QueryOverride(base, items, IntIdx).value;
      (forall k :: k in d ==> k in base || k == "idx" || k == "sn") &&
      (forall k :: k in d && k != "idx" && k != "sn" ==> k in base && d[k] == base[k]) &&
      ("idx" in d && "idx" !in base ==> d["idx"].PInt?)
  {
    QueryOverrideSpec(base, items, IntIdx);
    KeysDisjoint();
  }

  /** Adding msgid and masssend_time, then escaping the text fields. */
  lemma EscapeStep(d: Record, msgid: PyVal, time: PyVal)
    requires "msgid" !in EscapedFields && "masssend_time" !in EscapedFields && "msgid" != "masssend_time"
    requires EscapeFields(d["msgid" := msgid]["masssend_time" := time], EscapedFields, false).Ok?
    ensures var r := EscapeFields(d["msgid" := msgid]["masssend_time" := time], EscapedFields, false).value;
      r.Keys == d.Keys + {"msgid", "masssend_time"} && r["msgid"] == msgid && r["masssend_time"] == time &&
      (forall k :: k in d && k !in EscapedFields && k != "msgid" && k != "masssend_time" ==> r[k] == d[k]) &&
      (forall k :: k in d && k in EscapedFields ==> d[k].PStr? && r[k] == PStr(UtilFuncs.ToEscFn(d[k].s, false)))
  {
  }

  /** A kept record holds only the whitelisted keys plus idx, sn, msgid and
      masssend_time: msgid and masssend_time are the message's, idx is an
      int, every other value is the article's own, the three text fields
      escaped. */
  lemma ArticleKept(a: Record, msgid: PyVal, time: PyVal)
    requires ArticleRecord(a, msgid, time).Ok?
    ensures var r := ArticleRecord(a, msgid, time).value;
      (forall k :: k in r ==> k in InfoFields || k in {"idx", "sn", "msgid", "masssend_time"}) &&
      "msgid" in r && r["msgid"] == msgid && "masssend_time" in r && r["masssend_time"] == time &&
      ("idx" in r ==> r["idx"].PInt?) &&
      (forall k :: k in r && k in InfoFields && k !in EscapedFields ==> k in a && r[k] == a[k]) &&
      (forall k :: k in r && k in EscapedFields ==> k in a && a[k].PStr? && r[k] == PStr(UtilFuncs.ToEscFn(a[k].s, false)))
  {
    var items := QueryItems(a["content_url"]).value;
    var base := Restrict(a, InfoFields);
    FieldNames();
    OverrideInt(base, items);
    var d := QueryOverride(base, items, IntIdx).value;
    EscapeStep(d, msgid, time);
    var r := EscapeFields(d["msgid" := msgid]["masssend_time" := time], EscapedFields, false).value;
    KeptFrom(a, base, d, r, msgid, time, InfoFields, EscapedFields);
  }

  /** The record's shape follows from the three steps that build it:
      restricting to `info`, the query overrides, then the escaping. */
  lemma KeptFrom(a: Record, base: Record, d: Record, r: Record, msgid: PyVal, time: PyVal,
                 info: set<string>, esc: set<string>)
    requires "idx" !in info && "sn" !in info && "msgid" !in info && "masssend_time" !in info && esc <= info
    requires base.Keys == a.Keys * info && forall k :: k in base ==> base[k] == a[k]
    requires forall k :: k in d ==> k in base || k == "idx" || k == "sn"
    requires forall k :: k in d && k != "idx" && k != "sn" ==> k in base && d[k] == base[k]
    requires "idx" in d && "idx" !in base ==> d["idx"].PInt?
    requires r.Keys == d.Keys + {"msgid", "masssend_time"} && r["msgid"] == msgid && r["masssend_time"] == time
    requires forall k :: k in d && k !in esc && k != "msgid" && k != "masssend_time" ==> r[k] == d[k]
    requires forall k :: k in d && k in esc ==> d[k].PStr? && r[k] == PStr(UtilFuncs.ToEscFn(d[k].s, false))
    ensures (forall k :: k in r ==> k in info || k in {"idx", "sn", "msgid", "masssend_time"}) &&
      "msgid" in r && r["msgid"] == msgid && "masssend_time" in r && r["masssend_time"] == time &&
      ("idx" in r ==> r["idx"].PInt?) &&
      (forall k :: k in r && k in info && k !in esc ==> k in a && r[k] == a[k]) &&
      (forall k :: k in r && k in esc ==> k in a && a[k].PStr? && r[k] == PStr(UtilFuncs.ToEscFn(a[k].s, false)))
  {
  }

  /** Every record of the list comes from a live article of a type-9
      message of the list. */
  lemma NewsInfoFrom(totalNewsInfo: seq<MsgInfo>, rec: Record)
    requires NewsInfoList(totalNewsInfo).Ok? && rec in NewsInfoList(totalNewsInfo).value
    ensures exists i, j :: (0 <= i < |totalNewsInfo| && IsArticleMessage(totalNewsInfo[i]) == Ok(true) &&
      Articles(totalNewsInfo[i]).Ok? && 0 <= j < |Articles(totalNewsInfo[i]).value| && SentTime(totalNewsInfo[i]).Ok? &&
      Field(totalNewsInfo[i], "msgid").Ok? &&
      ArticleInfo(Articles(totalNewsInfo[i]).value[j], Field(totalNewsInfo[i], "msgid").value,
                  SentTime(totalNewsInfo[i]).value) == Ok([rec]))
  {
    CollectFrom(totalNewsInfo, MsgNewsInfo, rec);
    var i :| 0 <= i < |totalNewsInfo| && MsgNewsInfo(totalNewsInfo[i]).Ok? && rec in MsgNewsInfo(totalNewsInfo[i]).value;
    var m := totalNewsInfo[i];
    MsgNewsInfoHas(m, rec);
    var arts := Articles(m).value;
    var step := ArticleAt(Field(m, "msgid").value, SentTime(m).value);
    CollectFrom(arts, step, rec);
    var j :| 0 <= j < |arts| && step(arts[j]).Ok? && rec in step(arts[j]).value;
    ArticleInfoHas(arts[j], Field(m, "msgid").value, SentTime(m).value, rec);
  }

  /** A record of a message comes from the loop over its articles. */
  lemma MsgNewsInfoHas(m: MsgInfo, rec: Record)
    requires MsgNewsInfo(m).Ok? && rec in MsgNewsInfo(m).value
    ensures IsArticleMessage(m) == Ok(true) && Field(m, "msgid").Ok? && SentTime(m).Ok? && Articles(m).Ok?
    ensures Collect(Articles(m).value, ArticleAt(Field(m, "msgid").value, SentTime(m).value)) == MsgNewsInfo(m)
  {
  }

  /** Only a single record can be one an article adds. */
  lemma ArticleInfoHas(a: Record, msgid: PyVal, time: PyVal, rec: Record)
    requires ArticleInfo(a, msgid, time).Ok? && rec in ArticleInfo(a, msgid, time).value
    ensures ArticleInfo(a, msgid, time) == Ok([rec])
  {
  }

  /** The inner loop of `build_table_newsInfo`, over one message's
      articles. */
  method CollectArticles(arts: seq<Record>, msgid: PyVal, time: PyVal) returns (r: Result<seq<Record>>)
    ensures r == Collect(arts, ArticleAt(msgid, time))
  {
    var acc: seq<Record> := [];
    for j := 0 to |arts|
      invariant Collect(arts[..j], ArticleAt(msgid, time)) == Ok(acc)
    {
      CollectSnoc(arts, ArticleAt(msgid, time), j);
      var rec := ArticleInfo(arts[j], msgid, time);
      if rec.Err? {
        CollectErr(arts, ArticleAt(msgid, time), j + 1);
        return Err(rec.error);
      }
      acc := acc + rec.value;
    }
    assert arts[..|arts|] == arts;
    return Ok(acc);
  }

  /** The outer loop of `build_table_newsInfo`, collecting `newsInfoList`. */
  method CollectNewsInfo(totalNewsInfo: seq<MsgInfo>) returns (r: Result<seq<Record>>)
    ensures r == NewsInfoList(totalNewsInfo)
  {
    var out: seq<Record> := [];
    for i := 0 to |totalNewsInfo|
      invariant Collect(totalNewsInfo[..i], MsgNewsInfo) == Ok(out)
    {
      CollectSnoc(totalNewsInfo, MsgNewsInfo, i);
      var m := totalNewsInfo[i];
      var isArticle := IsArticleMessage(m);
      if isArticle.Err? {
        CollectErr(totalNewsInfo, MsgNewsInfo, i + 1);
        return Err(isArticle.error);
      }
      if isArticle.value {
        var msgid := Field(m, "msgid");
        var time := SentTime(m);
        var arts := Articles(m);
        if msgid.Err? || time.Err? || arts.Err? {
          CollectErr(totalNewsInfo, MsgNewsInfo, i + 1);
          return Err(KeyError);
        }
        var recs := CollectArticles(arts.value, msgid.value, time.value);
        assert MsgNewsInfo(m) == recs;
        if recs.Err? {
          CollectErr(totalNewsInfo, MsgNewsInfo, i + 1);
          return recs;
        }
        out := out + recs.value;
      } else {
        assert MsgNewsInfo(m) == Ok([]);
        assert out + [] == out;
      }
    }
    assert totalNewsInfo[..|totalNewsInfo|] == totalNewsInfo;
    return Ok(out);
  }

  /** The size `listSplit` cuts the records into. */
  const BatchSize: nat := 500

  /** The table after the batches in order, from `base`, and the error that
      stopped the loop, if any; every batch before it stays committed. */
  function Inserted(base: seq<seq<PyVal>>, batches: seq<seq<Record>>): (r: (seq<seq<PyVal>>, Option<PyError>))
    ensures |r.0| >= |base| && r.0[..|base|] == base
    decreases |batches|
  {
    if batches == [] then (base, None)
    else
      var (rows, err) := Inserted(base, batches[..|batches| - 1]);
      if err.Some? then (rows, err)
      else
        match BatchRows(batches[|batches| - 1])
        case Err(e) => (rows, Some(e))
        case Ok(vs) => (rows + vs, None)
  }

  /** Once a batch fails, the later ones are not run. */
  lemma {:induction false} InsertedErr(base: seq<seq<PyVal>>, batches: seq<seq<Record>>, j: nat)
    requires j <= |batches| && Inserted(base, batches[..j]).1.Some?
    ensures Inserted(base, batches) == Inserted(base, batches[..j])
    decreases |batches| - j
  {
    if j == |batches| {
      assert batches[..j] == batches;
    } else {
      assert batches[..j + 1][..j] == batches[..j];
      InsertedErr(base, batches, j + 1);
    }
  }

  /** When every batch inserts, the table gains the rows of all the records,
      in the order of the records. */
  lemma {:induction false} InsertedAll(base: seq<seq<PyVal>>, batches: seq<seq<Record>>)
    requires forall i :: 0 <= i < |batches| ==> BatchRows(batches[i]).Ok?
    ensures BatchValues(Flatten(batches)).Ok?
    ensures Inserted(base, batches) == (base + BatchValues(Flatten(batches)).value, None)
    decreases |batches|
  {
    if batches == [] {
      var none: seq<Record> := [];
      assert Collect(none, RowOf) == Ok([]);
      assert base + [] == base;
    } else {
      var init := batches[..|batches| - 1];
      assert forall i :: 0 <= i < |init| ==> init[i] == batches[i];
      InsertedAll(base, init);
      InsertedAllStep(base, batches);
    }
  }

  /** A batch that inserts after earlier ones that did appends its rows. */
  lemma InsertedSnoc(base: seq<seq<PyVal>>, batches: seq<seq<Record>>)
    requires batches != [] && BatchRows(batches[|batches| - 1]).Ok?
    requires Inserted(base, batches[..|batches| - 1]).1 == None
    ensures Inserted(base, batches) ==
      (Inserted(base, batches[..|batches| - 1]).0 + BatchRows(batches[|batches| - 1]).value, None)
  {
  }

  /** One more batch that inserts adds its rows after those before it. */
  lemma InsertedAllStep(base: seq<seq<PyVal>>, batches: seq<seq<Record>>)
    requires batches != [] && BatchRows(batches[|batches| - 1]).Ok?
    requires BatchValues(Flatten(batches[..|batches| - 1])).Ok?
    requires Inserted(base, batches[..|batches| - 1]) == (base + BatchValues(Flatten(batches[..|batches| - 1])).value, None)
    ensures BatchValues(Flatten(batches)).Ok?
    ensures Inserted(base, batches) == (base + BatchValues(Flatten(batches)).value, None)
  {
    CollectFlattenSnoc(batches, RowOf);
    InsertedSnoc(base, batches);
    AppendAssoc(base, BatchValues(Flatten(batches[..|batches| - 1])).value, BatchValues(batches[|batches| - 1]).value);
  }

  /** The loop stops with an error only when some batch fails. */
  lemma {:induction false} InsertedFails(base: seq<seq<PyVal>>, batches: seq<seq<Record>>)
    requires Inserted(base, batches).1.Some?
    ensures exists i :: (0 <= i < |batches| && BatchRows(batches[i]).Err? &&
      Inserted(base, batches).1 == Some(BatchRows(batches[i]).error))
    decreases |batches|
  {
    var init := batches[..|batches| - 1];
    if Inserted(base, init).1.Some? {
      InsertedFails(base, init);
      var i :| 0 <= i < |init| && BatchRows(init[i]).Err? && Inserted(base, init).1 == Some(BatchRows(init[i]).error);
      assert init[i] == batches[i];
    } else {
      assert BatchRows(batches[|batches| - 1]).Err?;
    }
  }

  /** Batches of 500 records cover all records in order, each batch but the
      last full; when every batch inserts, the table gains exactly the rows
      of all records. */
  lemma BatchesCover(base: seq<seq<PyVal>>, newsInfoList: seq<Record>)
    ensures Flatten(UtilFuncs.Chunks(newsInfoList, BatchSize)) == newsInfoList
    ensures forall i :: 0 <= i < |UtilFuncs.Chunks(newsInfoList, BatchSize)| ==>
      0 < |UtilFuncs.Chunks(newsInfoList, BatchSize)[i]| <= BatchSize
    ensures (forall i :: 0 <= i < |UtilFuncs.Chunks(newsInfoList, BatchSize)| ==>
                BatchRows(UtilFuncs.Chunks(newsInfoList, BatchSize)[i]).Ok?) ==>
      BatchValues(newsInfoList).Ok? &&
      Inserted(base, UtilFuncs.Chunks(newsInfoList, BatchSize)) == (base + BatchValues(newsInfoList).value, None)
  {
    var chunks := UtilFuncs.Chunks(newsInfoList, BatchSize);
    UtilFuncs.ChunksShape(newsInfoList, BatchSize);
    if forall i :: 0 <= i < |chunks| ==> BatchRows(chunks[i]).Ok? {
      InsertedAll(base, chunks);
    }
  }

  /** Table `newsInfo`: its rows, in insertion order. The SQL text of each
      row is not modelled; a row is the list of values put into the
      columns. */
  class NewsInfoTable {
    var rows: seq<seq<PyVal>>

    constructor ()
      ensures rows == []
    {
      rows := [];
    }

    /** `batchadd_news_info(newsInfoList)`: the rows of all kept records in
        one statement, committed together, or nothing. */
    method BatchAddNewsInfo(newsInfoList: seq<Record>) returns (err: Option<PyError>)
      modifies this
      ensures BatchRows(newsInfoList).Ok? ==> err.None? && rows == old(rows) + BatchRows(newsInfoList).value
      ensures BatchRows(newsInfoList).Err? ==> err == Some(BatchRows(newsInfoList).error) && rows == old(rows)
    {
      var dbValuesList: seq<seq<PyVal>> := [];
      for i := 0 to |newsInfoList|
        invariant Collect(newsInfoList[..i], RowOf) == Ok(dbValuesList)
        invariant rows == old(rows)
      {
        CollectSnoc(newsInfoList, RowOf, i);
        var d := newsInfoList[i];
        if "comment_id" in d || "copyright_type" in d {
          if "comment_id" !in d {
            d := d["comment_id" := PStr("none")]["comment_num" := PInt(0)];
          } else if "copyright_type" !in d {
            d := d["copyright_type" := PInt(-1)]["modify_status" := PInt(-1)];
          }
          assert Defaulted(newsInfoList[i]) == Some(d);
          var row := ValuesRow(d);
          if row.Err? {
            CollectErr(newsInfoList, RowOf, i + 1);
            return Some(row.error);
          }
          dbValuesList := dbValuesList + [row.value];
          assert RowOf(newsInfoList[i]) == Ok([row.value]);
        } else {
          assert RowOf(newsInfoList[i]) == Ok([]);
          assert dbValuesList + [] == dbValuesList;
        }
      }
      assert newsInfoList[..|newsInfoList|] == newsInfoList;
      if dbValuesList == [] {
        return Some(GenericError);
      }
      rows := rows + dbValuesList;
      err := None;
    }

    /** `build_table_newsInfo(rebuild)` on the fetched messages: the records
        are collected first, so an error there leaves the table as it was;
        then the table is emptied when `rebuild` is set, and the records go
        in by batches of 500 until one fails. */
    method BuildTableNewsInfo(totalNewsInfo: seq<MsgInfo>, rebuild: bool) returns (err: Option<PyError>)
      modifies this
      ensures NewsInfoList(totalNewsInfo).Err? ==> err == Some(NewsInfoList(totalNewsInfo).error) && rows == old(rows)
      ensures NewsInfoList(totalNewsInfo).Ok? ==>
        (rows, err) == Inserted(if rebuild then [] else old(rows), UtilFuncs.Chunks(NewsInfoList(totalNewsInfo).value, BatchSize))
    {
      var newsInfoList := CollectNewsInfo(totalNewsInfo);
      if newsInfoList.Err? {
        return Some(newsInfoList.error);
      }
      if rebuild {
        rows := [];
      }
      ghost var base := rows;
      var batches := UtilFuncs.ListSplit(newsInfoList.value, BatchSize as int).value;
      for j := 0 to |batches|
        invariant (rows, None) == Inserted(base, batches[..j])
      {
        assert batches[..j + 1][..j] == batches[..j];
        var e := BatchAddNewsInfo(batches[j]);
        if e.Some? {
          InsertedErr(base, batches, j + 1);
          return e;
        }
      }
      assert batches[..|batches|] == batches;
      err := None;
    }
  }
}
