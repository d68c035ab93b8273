/** The JSON the WeChat management backend returns for its list of mass
    messages (`sent_list`), as both crawler scripts read it: each message
    has a `type`, a `msgid`, a `sent_info` object with the send `time` and an
    `appmsg_info` list with one object per article. An article's
    `content_url` carries its `idx` (older links: `itemidx`) and `sn` (older
    links: `sign`) as query parameters, which override the fields of the
    same meaning. */
module SentList {
  import opened Wrappers
  import opened PyValues
  import opened Collections
  import UrlQuery

  /** A JSON object with scalar values. */
  type Record = map<string, PyVal>

  /** One message of the list: its scalar fields, its `sent_info` object and
      its `appmsg_info` list, `None` for a key the object lacks. */
  datatype MsgInfo = MsgInfo(fields: Record, sentInfo: Option<Record>, appmsgInfo: Option<seq<Record>>)

  /** `msgInfo[key]` on the scalar fields. */
  function Field(m: MsgInfo, key: string): (r: Result<PyVal>)
    ensures r.Ok? <==> key in m.fields
    ensures r.Err? ==> r.error == KeyError
  {
    if key in m.fields then Ok(m.fields[key]) else Err(KeyError)
  }

  /** `record[key]` on an article object. */
  function Get(record: Record, key: string): (r: Result<PyVal>)
    ensures r.Ok? <==> key in record
    ensures r.Ok? ==> r.value == record[key]
    ensures r.Err? ==> r.error == KeyError
  {
    if key in record then Ok(record[key]) else Err(KeyError)
  }

  /** `parse_qs(urlparse(url).query).items()` for whatever `content_url`
      holds: a string is parsed; a false value is read as the empty string;
      bytes are first decoded as strict ASCII, so a byte of 128 or more
      raises `UnicodeDecodeError`, a `ValueError`; ASCII bytes parse to
      bytes keys, none of which equals a text key, so no item of it is ever
      used; any other value has no `decode` and raises `AttributeError`. */
  function QueryItems(url: PyVal): (r: Result<seq<(string, string)>>)
    ensures url.PStr? ==> r == Ok(UrlQuery.ParseQs(UrlQuery.QueryOf(url.s)))
    ensures r.Err? <==>
      (!url.PStr? && !url.PBytes? && Truthy(url)) ||
      (url.PBytes? && exists i :: 0 <= i < |url.bytes| && url.bytes[i] >= 128)
    ensures r.Err? ==> r.error == if url.PBytes? then ValueError else AttributeError
  {
    if url.PStr? then Ok(UrlQuery.ParseQs(UrlQuery.QueryOf(url.s)))
    else if url.PBytes? then
      if exists i :: 0 <= i < |url.bytes| && url.bytes[i] >= 128 then Err(ValueError) else Ok([])
    else if !Truthy(url) then Ok([])
    else Err(AttributeError)
  }

  /** `msgInfo["type"] != 9`: only type 9 (articles) is kept. */
  function IsArticleMessage(m: MsgInfo): (r: Result<bool>)
    ensures r.Ok? <==> "type" in m.fields
    ensures r.Ok? ==> (r.value <==> PyEq(m.fields["type"], PInt(9)))
  {
    var t :- Field(m, "type");
    Ok(PyEq(t, PInt(9)))
  }

  /** `msgInfo["sent_info"]["time"]`. */
  function SentTime(m: MsgInfo): (r: Result<PyVal>)
    ensures r.Ok? <==> m.sentInfo.Some? && "time" in m.sentInfo.value
    ensures r.Err? ==> r.error == KeyError
  {
    match m.sentInfo
    case None => Err(KeyError)
    case Some(info) => if "time" in info then Ok(info["time"]) else Err(KeyError)
  }

  /** `msgInfo["appmsg_info"]`. */
  function Articles(m: MsgInfo): (r: Result<seq<Record>>)
    ensures r.Ok? <==> m.appmsgInfo.Some?
    ensures r.Err? ==> r.error == KeyError
  {
    match m.appmsgInfo
    case None => Err(KeyError)
    case Some(arts) => Ok(arts)
  }

  /** `{k: v for k, v in record.items() if k in fields}`. */
  function Restrict(record: Record, fields: set<string>): (r: Record)
    ensures r.Keys == record.Keys * fields
    ensures forall k :: k in r ==> r[k] == record[k]
  {
    map k | k in record.Keys * fields :: record[k]
  }

  const IdxKeys: set<string> := {"idx", "itemidx"}
  const SnKeys: set<string> := {"sn", "sign"}

  /** The loop over the parsed query of `content_url`:
      `for k, v in parse_qs(...).items(): if k in IdxKeys: news["idx"] = conv(v[0]);
      if k in SnKeys: news["sn"] = v[0]`, with the conversion of the idx value
      (kept as text by one script, `int()` by the other) a parameter. */
  function QueryOverride(news: Record, items: seq<(string, string)>, asIdx: string -> Result<PyVal>): Result<Record>
    decreases |items|
  {
    if items == [] then Ok(news)
    else
      var d :- QueryOverride(news, items[..|items| - 1], asIdx);
      var (k, v) := items[|items| - 1];
      var d1 :- if k in IdxKeys then (var x :- asIdx(v); Ok(d["idx" := x])) else Ok(d);
      Ok(if k in SnKeys then d1["sn" := PStr(v)] else d1)
  }

  /** The loop as the code runs it. */
  method ApplyQuery(news: Record, items: seq<(string, string)>, asIdx: string -> Result<PyVal>) returns (r: Result<Record>)
    ensures r == QueryOverride(news, items, asIdx)
  {
    var d := news;
    for i := 0 to |items|
      invariant QueryOverride(news, items[..i], asIdx) == Ok(d)
    {
      assert items[..i + 1][..i] == items[..i];
      var (k, v) := items[i];
      if k in IdxKeys {
        var x := asIdx(v);
        if x.Err? {
          QueryOverrideErr(news, items, asIdx, i + 1);
          return Err(x.error);
        }
        d := d["idx" := x.value];
      }
      if k in SnKeys {
        d := d["sn" := PStr(v)];
      }
    }
    assert items[..|items|] == items;
    return Ok(d);
  }

  /** Once a prefix of the items fails, the whole loop fails the same way. */
  lemma {:induction false} QueryOverrideErr(news: Record, items: seq<(string, string)>, asIdx: string -> Result<PyVal>, j: nat)
    requires j <= |items| && QueryOverride(news, items[..j], asIdx).Err?
    ensures QueryOverride(news, items, asIdx) == QueryOverride(news, items[..j], asIdx)
    decreases |items| - j
  {
    if j == |items| {
      assert items[..j] == items;
    } else {
      assert items[..j + 1][..j] == items[..j];
      QueryOverrideErr(news, items, asIdx, j + 1);
    }
  }

  /** The value of the last item whose key is one of `keys`. */
  function LastIn(items: seq<(string, string)>, keys: set<string>): (r: Option<string>)
    ensures r.Some? ==> exists i :: 0 <= i < |items| && items[i].0 in keys && items[i].1 == r.value
    ensures r.None? ==> forall i :: 0 <= i < |items| ==> items[i].0 !in keys
    decreases |items|
  {
    if items == [] then None
    else if items[|items| - 1].0 in keys then Some(items[|items| - 1].1)
    else
      var r := LastIn(items[..|items| - 1], keys);
      assert forall i :: 0 <= i < |items| - 1 ==> items[..|items| - 1][i] == items[i];
      r
  }

  /** A record with its `idx` and `sn` replaced where a value is given. */
  function Overridden(news: Record, idx: Option<PyVal>, sn: Option<string>): (r: Record)
    ensures r.Keys == news.Keys + (if idx.Some? then {"idx"} else {}) + (if sn.Some? then {"sn"} else {})
    ensures forall k :: k in r && k != "idx" && k != "sn" ==> r[k] == news[k]
    ensures idx.Some? && "idx" != "sn" ==> r["idx"] == idx.value
    ensures sn.Some? ==> r["sn"] == PStr(sn.value)
  {
    var d := if idx.Some? then news["idx" := idx.value] else news;
    if sn.Some? then d["sn" := PStr(sn.value)] else d
  }

  /** Every idx-like value must convert; then `idx` is the converted value
      of the last idx-like key and `sn` the value of the last sn-like key,
      each left as it was when the query has no such key, and nothing else
      changes. */
  lemma {:induction false} QueryOverrideSpec(news: Record, items: seq<(string, string)>, asIdx: string -> Result<PyVal>)
    ensures QueryOverride(news, items, asIdx).Ok? <==>
      forall i :: 0 <= i < |items| && items[i].0 in IdxKeys ==> asIdx(items[i].1).Ok?
    ensures QueryOverride(news, items, asIdx).Ok? ==>
      QueryOverride(news, items, asIdx).value ==
        Overridden(news, if LastIn(items, IdxKeys).Some? then Some(asIdx(LastIn(items, IdxKeys).value).value) else None,
                   LastIn(items, SnKeys))
    decreases |items|
  {
    if items != [] {
      var init := items[..|items| - 1];
      QueryOverrideSpec(news, init, asIdx);
      assert forall i :: 0 <= i < |init| ==> init[i] == items[i];
      KeysDisjoint();
      var (k, v) := items[|items| - 1];
      if QueryOverride(news, init, asIdx).Ok? {
        var idx := if LastIn(init, IdxKeys).Some? then Some(asIdx(LastIn(init, IdxKeys).value).value) else None;
        var sn := LastIn(init, SnKeys);
        if k in IdxKeys && asIdx(v).Ok? {
          OverriddenIdx(news, idx, sn, asIdx(v).value);
        }
        if k in SnKeys {
          OverriddenSn(news, idx, sn, v);
        }
      }
    }
  }

  lemma KeysDisjoint()
    ensures IdxKeys * SnKeys == {}
    ensures "idx" != "sn"
  {
    assert "idx"[1] == 'd' && "itemidx"[1] == 't';
    assert "sn"[1] == 'n' && "sign"[1] == 'i';
    assert |"idx"| == 3 && |"sn"| == 2 && |"sign"| == 4 && |"itemidx"| == 7;
  }

  lemma OverriddenIdx(news: Record, idx: Option<PyVal>, sn: Option<string>, x: PyVal)
    requires "idx" != "sn"
    ensures Overridden(news, idx, sn)["idx" := x] == Overridden(news, Some(x), sn)
  {
  }

  lemma OverriddenSn(news: Record, idx: Option<PyVal>, sn: Option<string>, v: string)
    ensures Overridden(news, idx, sn)["sn" := PStr(v)] == Overridden(news, idx, Some(v))
  {
  }

  /* ---------- the loops over messages and articles ---------- */

  /** `for x in xs: out.extend(f(x))`, stopping at the first error: the
      shape of both crawlers' loops over the messages and over each
      message's articles (a skipped item contributes nothing). */
  function Collect<A, B>(xs: seq<A>, f: A -> Result<seq<B>>): Result<seq<B>>
    decreases |xs|
  {
    if xs == [] then Ok([])
    else
      var init :- Collect(xs[..|xs| - 1], f);
      var last :- f(xs[|xs| - 1]);
      Ok(init + last)
  }

  /** One more item: its output is appended, or its error is the result. */
  lemma CollectSnoc<A, B>(xs: seq<A>, f: A -> Result<seq<B>>, i: nat)
    requires i < |xs| && Collect(xs[..i], f).Ok?
    ensures Collect(xs[..i + 1], f) ==
      if f(xs[i]).Err? then Err(f(xs[i]).error) else Ok(Collect(xs[..i], f).value + f(xs[i]).value)
  {
    assert xs[..i + 1][..i] == xs[..i];
  }

  /** Once a prefix fails, the whole loop fails the same way. */
  lemma {:induction false} CollectErr<A, B>(xs: seq<A>, f: A -> Result<seq<B>>, j: nat)
    requires j <= |xs| && Collect(xs[..j], f).Err?
    ensures Collect(xs, f) == Collect(xs[..j], f)
    decreases |xs| - j
  {
    if j == |xs| {
      assert xs[..j] == xs;
    } else {
      assert xs[..j + 1][..j] == xs[..j];
      CollectErr(xs, f, j + 1);
    }
  }

  /** Everything collected comes out of some item's output. */
  lemma {:induction false} CollectFrom<A, B>(xs: seq<A>, f: A -> Result<seq<B>>, y: B)
    requires Collect(xs, f).Ok? && y in Collect(xs, f).value
    ensures exists i :: 0 <= i < |xs| && f(xs[i]).Ok? && y in f(xs[i]).value
    decreases |xs|
  {
    var init := xs[..|xs| - 1];
    if y !in f(xs[|xs| - 1]).value {
      CollectFrom(init, f, y);
      var i :| 0 <= i < |init| && f(init[i]).Ok? && y in f(init[i]).value;
      assert init[i] == xs[i];
    }
  }

  /** The loop succeeds exactly when every item does. */
  lemma {:induction false} CollectOk<A, B>(xs: seq<A>, f: A -> Result<seq<B>>)
    ensures Collect(xs, f).Ok? <==> forall i :: 0 <= i < |xs| ==> f(xs[i]).Ok?
    decreases |xs|
  {
    if xs != [] {
      var init := xs[..|xs| - 1];
      CollectOk(init, f);
      assert forall i :: 0 <= i < |init| ==> init[i] == xs[i];
    }
  }

  /** The loop over two lists one after the other is the loop over the
      first, then over the second. */
  lemma {:induction false} CollectAppend<A, B>(a: seq<A>, b: seq<A>, f: A -> Result<seq<B>>)
    ensures Collect(a + b, f) ==
      if Collect(a, f).Err? then Collect(a, f)
      else if Collect(b, f).Err? then Err(Collect(b, f).error)
      else Ok(Collect(a, f).value + Collect(b, f).value)
    decreases |b|
  {
    if b == [] {
      assert a + b == a;
      if Collect(a, f).Ok? {
        assert Collect(a, f).value + [] == Collect(a, f).value;
      }
    } else {
      var init := b[..|b| - 1];
      CollectAppend(a, init, f);
      assert (a + b)[..|a + b| - 1] == a + init;
      assert (a + b)[|a + b| - 1] == b[|b| - 1];
      if Collect(a, f).Ok? && Collect(init, f).Ok? && f(b[|b| - 1]).Ok? {
        var x, y, z := Collect(a, f).value, Collect(init, f).value, f(b[|b| - 1]).value;
        assert x + y + z == x + (y + z);
      }
    }
  }

  /** Over the concatenation of a list of lists, the loop's output is that
      over all lists but the last, then that over the last one. */
  lemma CollectFlattenSnoc<A, B>(ss: seq<seq<A>>, f: A -> Result<seq<B>>)
    requires ss != [] && Collect(ss[|ss| - 1], f).Ok?
    requires Collect(Flatten(ss[..|ss| - 1]), f).Ok?
    ensures Collect(Flatten(ss), f) ==
      Ok(Collect(Flatten(ss[..|ss| - 1]), f).value + Collect(ss[|ss| - 1], f).value)
  {
    var n := |ss| - 1;
    var front, last := Flatten(ss[..n]), ss[n];
    FlattenPrefixStep(ss, n);
    assert ss[..n + 1] == ss;
    CollectAppend(front, last, f);
  }

  /** A step that turns every item into exactly one output, or fails. */
  function Single<A, B>(g: A -> Result<B>): A -> Result<seq<B>> {
    x => if g(x).Ok? then Ok([g(x).value]) else Err(g(x).error)
  }

  /** With one output per item, the loop succeeds exactly when every item
      does, and then its outputs are the items' outputs, position by
      position. */
  lemma {:induction false} CollectSingle<A, B>(xs: seq<A>, g: A -> Result<B>)
    ensures Collect(xs, Single(g)).Ok? <==> forall i :: 0 <= i < |xs| ==> g(xs[i]).Ok?
    ensures Collect(xs, Single(g)).Ok? ==> |Collect(xs, Single(g)).value| == |xs|
    ensures Collect(xs, Single(g)).Ok? ==> forall i :: 0 <= i < |xs| ==> Collect(xs, Single(g)).value[i] == g(xs[i]).value
    decreases |xs|
  {
    if xs != [] {
      var init := xs[..|xs| - 1];
      CollectSingle(init, g);
      assert forall i :: 0 <= i < |init| ==> init[i] == xs[i];
    }
  }
}
